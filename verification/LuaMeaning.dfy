/** When one-pass compilation keeps the meaning of an expression. */
module LuaMeaning {
  import opened LuaMachine
  import opened LuaExpr

  // ----- staleness, along one evaluation

  // The register ends up with a value that an unconditional jump took over from elsewhere.
  predicate Spoiled(fl: Flow) {
    fl.Out? && fl.c.Merged? && fl.c.v != Bool(fl.truth)
  }

  // No comparison met on the way has a spoiled operand.
  predicate Unspoiled(o: Order, x: Expr, env: seq<Value>, c: Carry)
    requires Scoped(x, |env|)
  {
    match x
    case Local(_) => true
    case Literal(_) => true
    case Not(e) => Unspoiled(o, e, env, c)
    case And(l, r) =>
      var b := Branch(ShapeOf(l), Leave(o, l, env, c), true);
      Unspoiled(o, l, env, c) && (b.Arrive? ==> Unspoiled(o, r, env, b.c))
    case Or(l, r) =>
      var b := Branch(ShapeOf(l), Leave(o, l, env, c), false);
      Unspoiled(o, l, env, c) && (b.Arrive? ==> Unspoiled(o, r, env, b.c))
    case Rel(op, l, r, room, _) =>
      var fl := Leave(o, l, env, c);
      var c1 := OperandCarry(l, fl, room);
      && Unspoiled(o, l, env, c) && !Spoiled(fl)
      && Unspoiled(o, r, env, c1) && !Spoiled(Leave(o, r, env, c1))
  }

  // What each way of leaving says about the value v of the expression.
  predicate Tells(fl: Flow, v: Value) {
    match fl
    case Arrive(_, w) => w == v
    case Taken => v == Bool(true)
    case Out(b, None) => v == Bool(b)
    case Out(b, Some(w)) => v == w && Truth(v) == b
    case Out(b, Merged(_)) => v == Bool(b)
  }

  // The shape of an expression is right about its value.
  predicate ShapeTells(s: Shape, fl: Flow) {
    match s
    case SLit(k) => fl.Arrive? ==> fl.v == k
    case SRel => fl.Arrive? ==> fl.v == Bool(false)
    case _ => true
  }

  lemma {:induction false} LeaveTells(o: Order, x: Expr, env: seq<Value>, c: Carry)
    requires Scoped(x, |env|) && Unspoiled(o, x, env, c)
    ensures var fl := Leave(o, x, env, c);
      && Tells(fl, Eval(o, x, env)) && ShapeTells(ShapeOf(x), fl)
      && (fl.Taken? ==> ShapeOf(x).SRel?)
      && (ShapeOf(x).SNot? && fl.Arrive? ==> fl.v.Bool?)
  {
    match x
    case Local(_) =>
    case Literal(_) =>
    case Not(e) => LeaveTells(o, e, env, c);
    case And(l, r) =>
      LeaveTells(o, l, env, c);
      var b := Branch(ShapeOf(l), Leave(o, l, env, c), true);
      if b.Arrive? { LeaveTells(o, r, env, b.c); }
    case Or(l, r) =>
      LeaveTells(o, l, env, c);
      var b := Branch(ShapeOf(l), Leave(o, l, env, c), false);
      if b.Arrive? { LeaveTells(o, r, env, b.c); }
    case Rel(op, l, r, room, _) =>
      LeaveTells(o, l, env, c);
      LeaveTells(o, r, env, OperandCarry(l, Leave(o, l, env, c), room));
  }

  /** The exact condition, along one evaluation: the compiled code of an expression yields its
      value unless control leaves through a jump that was merged into a literal's own. */
  lemma CompiledExactly(o: Order, x: Expr, env: seq<Value>)
    requires Scoped(x, |env|) && Unspoiled(o, x, env, None)
    ensures AsCompiled(o, x, env) == Eval(o, x, env) <==> !Spoiled(Leave(o, x, env, None))
  {
    LeaveTells(o, x, env, None);
  }

  // (('hi' or true) and true) or true
  function StaleExpr(): (x: Expr)
    ensures Scoped(x, 0)
  {
    var t := Literal(Bool(true));
    var a := Or(Literal(Str("hi")), t);
    assert Scoped(a, 0) && Scoped(And(a, t), 0);
    Or(And(a, t), t)
  }

  // One step of the two meanings, with a literal on the right.
  lemma OrSteps(o: Order, l: Expr, v: Value, c: Carry)
    requires Scoped(l, 0)
    ensures var x := Or(l, Literal(v));
      && Scoped(x, 0) && Eval(o, x, []) == (if Truth(Eval(o, l, [])) then Eval(o, l, []) else v)
      && var b := Branch(ShapeOf(l), Leave(o, l, [], c), false);
         Leave(o, x, [], c) == if b.Arrive? then Arrive(b.c, v) else b
  {
  }

  lemma AndSteps(o: Order, l: Expr, v: Value, c: Carry)
    requires Scoped(l, 0)
    ensures var x := And(l, Literal(v));
      && Scoped(x, 0) && Eval(o, x, []) == (if Truth(Eval(o, l, [])) then v else Eval(o, l, []))
      && var b := Branch(ShapeOf(l), Leave(o, l, [], c), true);
         Leave(o, x, [], c) == if b.Arrive? then Arrive(b.c, v) else b
  {
  }

  /** The literals `true` and `false` can make the generated code yield the wrong value. */
  lemma WrongValue(o: Order)
    ensures AsCompiled(o, StaleExpr(), []) == Str("hi")
    ensures Eval(o, StaleExpr(), []) == Bool(true)
  {
    hide Eval, Leave;
    var t := Literal(Bool(true));
    var h := Str("hi");
    var a := Or(Literal(h), t);
    var b := And(a, t);
    LiteralSteps(o, h);
    OrSteps(o, Literal(h), Bool(true), None);
    AndSteps(o, a, Bool(true), None);
    OrSteps(o, b, Bool(true), None);
    assert Leave(o, a, [], None) == Out(true, Some(h)) && Eval(o, a, []) == h;
    assert Leave(o, b, [], None) == Arrive(Some(h), Bool(true)) && Eval(o, b, []) == Bool(true);
    assert StaleExpr() == Or(b, t);
    assert Leave(o, Or(b, t), [], None) == Out(true, Merged(h));
  }

  lemma LiteralSteps(o: Order, v: Value)
    ensures Eval(o, Literal(v), []) == v && Leave(o, Literal(v), [], None) == Arrive(None, v)
  {
  }

  // ----- a sufficient condition on the source text

  // Whether a jump to the end of x's code, or in one of its lists, may carry a value,
  // p saying so of the jumps to its beginning.
  function CarriesOn(x: Expr, p: bool): bool {
    match x
    case Local(_) => p
    case Literal(_) => p
    case Not(e) => ShapeOf(e).SLit? && CarriesOn(e, p)
    case And(l, r) => CarriesOn(r, CarriesOut(l, true, p) || (AlwaysTrue(ShapeOf(l)) && CarriesOn(l, p)))
    case Or(l, r) => CarriesOn(r, CarriesOut(l, false, p) || (AlwaysFalse(ShapeOf(l)) && CarriesOn(l, p)))
    case Rel(_, _, _, _, _) => false
  }

  function CarriesOut(x: Expr, truth: bool, p: bool): bool {
    match x
    case Local(_) => false
    case Literal(_) => false
    case Not(_) => false
    case And(l, r) =>
      || CarriesOut(r, truth, CarriesOut(l, true, p) || (AlwaysTrue(ShapeOf(l)) && CarriesOn(l, p)))
      || (!truth && (CarriesOut(l, false, p) || Tested(ShapeOf(l), true)))
    case Or(l, r) =>
      || CarriesOut(r, truth, CarriesOut(l, false, p) || (AlwaysFalse(ShapeOf(l)) && CarriesOn(l, p)))
      || (truth && (CarriesOut(l, true, p) || Tested(ShapeOf(l), false)))
    case Rel(_, _, _, _, _) => false
  }

  // luaK_goiftrue (goiffalse) tests a register and keeps its value.
  predicate Tested(s: Shape, truth: bool) {
    s.SLocal? || (s.SLit? && Truth(s.v) != truth && s.v != Bool(!truth))
  }

  /** A literal `false` before `and`, or `true` before `or`, is never reached by jumps that
      carry a value. */
  predicate Clean(x: Expr, p: bool) {
    match x
    case Local(_) => true
    case Literal(_) => true
    case Not(e) => Clean(e, p)
    case And(l, r) =>
      && Clean(l, p) && !(ShapeOf(l) == SLit(Bool(false)) && CarriesOn(l, p))
      && Clean(r, CarriesOut(l, true, p) || (AlwaysTrue(ShapeOf(l)) && CarriesOn(l, p)))
    case Or(l, r) =>
      && Clean(l, p) && !(ShapeOf(l) == SLit(Bool(true)) && CarriesOn(l, p))
      && Clean(r, CarriesOut(l, false, p) || (AlwaysFalse(ShapeOf(l)) && CarriesOn(l, p)))
    case Rel(_, l, r, _, _) => Clean(l, p) && Clean(r, Plain(l) && CarriesOn(l, p))
  }

  // c is no merged value, and no value at all unless p allows it.
  predicate Allowed(c: Carry, p: bool) {
    !c.Merged? && (c.Some? ==> p)
  }

  lemma {:induction false} CleanLeaves(o: Order, x: Expr, env: seq<Value>, c: Carry, p: bool)
    requires Scoped(x, |env|) && Clean(x, p) && Allowed(c, p)
    ensures Unspoiled(o, x, env, c)
    ensures var fl := Leave(o, x, env, c);
      && (fl.Arrive? ==> Allowed(fl.c, CarriesOn(x, p)))
      && (fl.Out? ==> Allowed(fl.c, CarriesOut(x, fl.truth, p)))
    decreases x, 1
  {
    match x
    case Local(_) =>
    case Literal(_) =>
    case Not(e) => CleanLeaves(o, e, env, c, p);
    case And(_, _) => CleanAnd(o, x, env, c, p);
    case Or(_, _) => CleanOr(o, x, env, c, p);
    case Rel(op, l, r, room, _) =>
      CleanLeaves(o, l, env, c, p);
      CleanLeaves(o, r, env, OperandCarry(l, Leave(o, l, env, c), room), Plain(l) && CarriesOn(l, p));
  }

  lemma {:induction false} CleanAnd(o: Order, x: Expr, env: seq<Value>, c: Carry, p: bool)
    requires x.And? && Scoped(x, |env|) && Clean(x, p) && Allowed(c, p)
    ensures Unspoiled(o, x, env, c)
    ensures var fl := Leave(o, x, env, c);
      && (fl.Arrive? ==> Allowed(fl.c, CarriesOn(x, p)))
      && (fl.Out? ==> Allowed(fl.c, CarriesOut(x, fl.truth, p)))
    decreases x, 0
  {
    CleanLeaves(o, x.l, env, c, p);
    var b := Branch(ShapeOf(x.l), Leave(o, x.l, env, c), true);
    if b.Arrive? {
      CleanLeaves(o, x.r, env, b.c, CarriesOut(x.l, true, p) || (AlwaysTrue(ShapeOf(x.l)) && CarriesOn(x.l, p)));
    }
  }

  lemma {:induction false} CleanOr(o: Order, x: Expr, env: seq<Value>, c: Carry, p: bool)
    requires x.Or? && Scoped(x, |env|) && Clean(x, p) && Allowed(c, p)
    ensures Unspoiled(o, x, env, c)
    ensures var fl := Leave(o, x, env, c);
      && (fl.Arrive? ==> Allowed(fl.c, CarriesOn(x, p)))
      && (fl.Out? ==> Allowed(fl.c, CarriesOut(x, fl.truth, p)))
    decreases x, 0
  {
    CleanLeaves(o, x.l, env, c, p);
    var b := Branch(ShapeOf(x.l), Leave(o, x.l, env, c), false);
    if b.Arrive? {
      CleanLeaves(o, x.r, env, b.c, CarriesOut(x.l, false, p) || (AlwaysFalse(ShapeOf(x.l)) && CarriesOn(x.l, p)));
    }
  }

  /** Every clean expression compiles to code that yields its value. */
  lemma CleanCompiles(o: Order, x: Expr, env: seq<Value>)
    requires Scoped(x, |env|) && Clean(x, false)
    ensures AsCompiled(o, x, env) == Eval(o, x, env)
  {
    CleanLeaves(o, x, env, None, false);
    CompiledExactly(o, x, env);
  }

  // ----- truth needs no such condition

  predicate Atom(x: Expr) {
    x.Local? || x.Literal?
  }

  predicate AtomicRels(x: Expr) {
    match x
    case Local(_) => true
    case Literal(_) => true
    case Not(e) => AtomicRels(e)
    case And(l, r) => AtomicRels(l) && AtomicRels(r)
    case Or(l, r) => AtomicRels(l) && AtomicRels(r)
    case Rel(_, l, r, _, _) => Atom(l) && Atom(r)
  }

  lemma {:induction false} AtomsUnspoiled(o: Order, x: Expr, env: seq<Value>, c: Carry)
    requires Scoped(x, |env|) && AtomicRels(x)
    ensures Unspoiled(o, x, env, c)
  {
    match x
    case Not(e) => AtomsUnspoiled(o, e, env, c);
    case And(l, r) =>
      AtomsUnspoiled(o, l, env, c);
      var b := Branch(ShapeOf(l), Leave(o, l, env, c), true);
      if b.Arrive? { AtomsUnspoiled(o, r, env, b.c); }
    case Or(l, r) =>
      AtomsUnspoiled(o, l, env, c);
      var b := Branch(ShapeOf(l), Leave(o, l, env, c), false);
      if b.Arrive? { AtomsUnspoiled(o, r, env, b.c); }
    case _ =>
  }

  /** After luaK_goiftrue (goiffalse) control goes on exactly when the expression is true
      (false), however the values of its parts are merged. */
  lemma BranchesByTruth(o: Order, x: Expr, env: seq<Value>, c: Carry, truth: bool)
    requires Scoped(x, |env|) && Unspoiled(o, x, env, c)
    ensures var b := Branch(ShapeOf(x), Leave(o, x, env, c), truth);
      (b.Arrive? <==> Truth(Eval(o, x, env)) == truth) && (b.Out? <==> Truth(Eval(o, x, env)) != truth)
  {
    LeaveTells(o, x, env, c);
  }
}
