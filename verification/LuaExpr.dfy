/** Source expressions, their meaning, and the meaning one-pass compilation gives them. */
module LuaExpr {
  import opened LuaMachine

  datatype RelOp = Eq | Ne | Lt | Le | Gt | Ge

  /** For the generator, a comparison says whether the constant table has room for its operands where they are
      constants; this means nothing to the value. */
  datatype Expr =
    | Local(i: nat)
    | Literal(v: Value)
    | Not(e: Expr)
    | And(l: Expr, r: Expr)
    | Or(l: Expr, r: Expr)
    | Rel(op: RelOp, l: Expr, r: Expr, lroom: bool, rroom: bool)

  predicate Scoped(x: Expr, n: nat) {
    match x
    case Local(i) => i < n
    case Literal(_) => true
    case Not(e) => Scoped(e, n)
    case And(l, r) => Scoped(l, n) && Scoped(r, n)
    case Or(l, r) => Scoped(l, n) && Scoped(r, n)
    case Rel(_, l, r, _, _) => Scoped(l, n) && Scoped(r, n)
  }

  predicate RelHolds(o: Order, op: RelOp, x: Value, y: Value) {
    match op
    case Eq => x == y
    case Ne => x != y
    case Lt => o.lt(x, y)
    case Le => o.le(x, y)
    case Gt => o.lt(y, x)
    case Ge => o.le(y, x)
  }

  /** The language's own meaning of an expression. */
  function Eval(o: Order, x: Expr, env: seq<Value>): Value
    requires Scoped(x, |env|)
  {
    match x
    case Local(i) => env[i]
    case Literal(v) => v
    case Not(e) => Bool(!Truth(Eval(o, e, env)))
    case And(l, r) => if Truth(Eval(o, l, env)) then Eval(o, r, env) else Eval(o, l, env)
    case Or(l, r) => if Truth(Eval(o, l, env)) then Eval(o, l, env) else Eval(o, r, env)
    case Rel(op, l, r, _, _) => Bool(RelHolds(o, op, Eval(o, l, env), Eval(o, r, env)))
  }

  // The text of an expression alone.
  function Text(x: Expr): Expr {
    match x
    case Local(_) => x
    case Literal(_) => x
    case Not(e) => Not(Text(e))
    case And(l, r) => And(Text(l), Text(r))
    case Or(l, r) => Or(Text(l), Text(r))
    case Rel(op, l, r, _, _) => Rel(op, Text(l), Text(r), true, true)
  }

  lemma {:induction false} TextScoped(x: Expr, n: nat)
    ensures Scoped(Text(x), n) <==> Scoped(x, n)
  {
    match x
    case Local(_) =>
    case Literal(_) =>
    case Not(e) => TextScoped(e, n);
    case And(l, r) => TextScoped(l, n); TextScoped(r, n);
    case Or(l, r) => TextScoped(l, n); TextScoped(r, n);
    case Rel(_, l, r, _, _) => TextScoped(l, n); TextScoped(r, n);
  }

  /** The room there is does not change the meaning. */
  lemma {:induction false} TextEval(o: Order, x: Expr, env: seq<Value>)
    requires Scoped(x, |env|)
    ensures Scoped(Text(x), |env|) && Eval(o, Text(x), env) == Eval(o, x, env)
  {
    TextScoped(x, |env|);
    match x
    case Local(_) =>
    case Literal(_) =>
    case Not(e) => TextEval(o, e, env);
    case And(l, r) => TextEval(o, l, env); TextEval(o, r, env);
    case Or(l, r) => TextEval(o, l, env); TextEval(o, r, env);
    case Rel(_, l, r, _, _) => TextEval(o, l, env); TextEval(o, r, env);
  }

  // ----- what the generator knows about a compiled expression without running it

  datatype Shape = SLit(v: Value) | SLocal | SNot | SRel

  function ShapeOf(x: Expr): Shape {
    match x
    case Local(_) => SLocal
    case Literal(v) => SLit(v)
    case Not(e) =>
      var s := ShapeOf(e);
      (match s
       case SLit(v) => SLit(Bool(!Truth(v)))
       case SRel => SRel
       case _ => SNot)
    case And(_, r) => ShapeOf(r)
    case Or(_, r) => ShapeOf(r)
    case Rel(_, _, _, _, _) => SRel
  }

  predicate AlwaysTrue(s: Shape) {
    s.SLit? && Truth(s.v)
  }

  predicate AlwaysFalse(s: Shape) {
    s.SLit? && !Truth(s.v)
  }

  // Whether jumps that leave with a true (false) outcome are pending after compiling x.
  // A literal nil is tested like a variable by `and`, and a literal constant by `or`.
  predicate Leaves(x: Expr, truth: bool) {
    match x
    case Local(_) => false
    case Literal(_) => false
    case Not(e) => Leaves(e, !truth)
    case And(l, r) =>
      Leaves(r, truth) || (!truth && (Leaves(l, false) || !AlwaysTrue(ShapeOf(l))))
    case Or(l, r) =>
      Leaves(r, truth) || (truth && (Leaves(l, true) || !AlwaysFalse(ShapeOf(l))))
    case Rel(_, _, _, _, _) => false
  }

  // An operand that needs no instruction: a constant or a local variable.
  predicate Plain(x: Expr) {
    !Leaves(x, true) && !Leaves(x, false) && (ShapeOf(x).SLit? || ShapeOf(x).SLocal?)
  }

  // ----- where control is after the code of an expression has run

  /** The value a TESTSET jump carries along, if any.  `Merged` marks one that was waiting
      for the next instruction when the unconditional jump of a literal took it over. */
  datatype Carry = None | Some(v: Value) | Merged(v: Value)

  datatype Flow =
    | Arrive(c: Carry, v: Value)        // at the end of the code, the expression's value being v
    | Taken                             // at the expression's own comparison jump
    | Out(truth: bool, c: Carry)        // at a pending true or false jump

  // What the jump does, whoever took it over.
  function Strip(c: Carry): Carry {
    if c.Merged? then Some(c.v) else c
  }

  function Merge(c: Carry): Carry {
    if c.Some? then Merged(c.v) else c
  }

  /** The value luaK_exp2nextreg leaves in the register. */
  function Final(fl: Flow): Value {
    match fl
    case Arrive(_, v) => v
    case Taken => Bool(true)
    case Out(b, None) => Bool(b)
    case Out(_, Some(v)) => v
    case Out(_, Merged(v)) => v
  }

  // luaK_goiftrue (truth == true) and luaK_goiffalse (truth == false): afterwards control is
  // at the end exactly when the outcome is `truth`, and at an exit with outcome !truth otherwise.
  function Branch(s: Shape, fl: Flow, truth: bool): Flow {
    match fl
    case Out(b, c) => if b == truth then Arrive(c, Nil) else fl
    case Taken => if truth then Arrive(None, Nil) else Out(true, None)
    case Arrive(c, v) =>
      match s
      case SRel => if truth then Out(false, None) else Arrive(None, Nil)
      case SNot => if Truth(v) == truth then Arrive(None, Nil) else Out(!truth, None)
      case SLocal => if Truth(v) == truth then Arrive(None, Nil) else Out(!truth, Some(v))
      case SLit(k) =>
        if Truth(k) == truth then Arrive(c, Nil)
        else if k == Bool(!truth) then Out(!truth, Merge(c))
        else Out(!truth, Some(k))
  }

  // codenot
  function Negate(s: Shape, fl: Flow): Flow {
    match fl
    case Out(b, c) => Out(!b, None)
    case Taken => Arrive(None, Bool(false))
    case Arrive(c, v) =>
      if s.SRel? then Taken
      else Arrive(if s.SLit? then c else None, Bool(!Truth(v)))
  }

  // How control reaches the code that follows an operand of a comparison.
  function OperandCarry(x: Expr, fl: Flow, room: bool): Carry {
    if Plain(x) && (room || ShapeOf(x).SLocal?) && fl.Arrive? then fl.c else None
  }

  /** Where compiled code goes when control arrives at it carrying c: the meaning of one-pass
      compilation, bug for bug. */
  function Leave(o: Order, x: Expr, env: seq<Value>, c: Carry): Flow
    requires Scoped(x, |env|)
  {
    match x
    case Local(i) => Arrive(c, env[i])
    case Literal(v) => Arrive(c, v)
    case Not(e) => Negate(ShapeOf(e), Leave(o, e, env, c))
    case And(l, r) =>
      var b := Branch(ShapeOf(l), Leave(o, l, env, c), true);
      if b.Arrive? then Leave(o, r, env, b.c) else b
    case Or(l, r) =>
      var b := Branch(ShapeOf(l), Leave(o, l, env, c), false);
      if b.Arrive? then Leave(o, r, env, b.c) else b
    case Rel(op, l, r, room, _) =>
      var fl := Leave(o, l, env, c);
      var fr := Leave(o, r, env, OperandCarry(l, fl, room));
      if RelHolds(o, op, Final(fl), Final(fr)) then Taken else Arrive(None, Bool(false))
  }

  /** The value the compiled code of x produces. */
  function AsCompiled(o: Order, x: Expr, env: seq<Value>): Value
    requires Scoped(x, |env|)
  {
    Final(Leave(o, x, env, None))
  }
}
