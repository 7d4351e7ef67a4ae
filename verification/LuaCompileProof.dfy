/** A whole expression: the code of every expression goes where `Leave` says. */
module LuaCompileProof {
  import opened LuaMachine
  import opened LuaExpr
  import opened LuaGen
  import opened LuaStepProof
  import opened LuaExpProof
  import opened LuaCondProof
  import opened LuaNotProof
  import opened LuaOperandProof

  // The temporaries an expression needs beyond the one its value goes to.
  function Temps(x: Expr): nat {
    match x
    case Local(_) => 0
    case Literal(_) => 0
    case Not(e) => Temps(e)
    case And(l, r) => var a, b := Temps(l), Temps(r); if a > b then a else b
    case Or(l, r) => var a, b := Temps(l), Temps(r); if a > b then a else b
    case Rel(_, l, r, _, _) => var a, b := Temps(l), 1 + Temps(r); if a > b then a else b
  }

  function Env(rho: Regs, n: nat): seq<Value> {
    seq(n, i => Get(rho, i))
  }

  lemma EnvSame(rho: Regs, rho': Regs, n: nat, m: int)
    requires SameBelow(rho, rho', m) && n <= m
    ensures Env(rho, n) == Env(rho', n)
  {
  }

  ghost predicate Ready(s: Gen, x: Expr, p0: nat, rho0: Regs) {
    && WF(s) && EntryOK(s, p0, rho0) && NoHole(s.code)
    && Scoped(x, s.nactvar) && s.freereg + Temps(x) < NO_REG
  }

  // The static facts about a compiled expression.
  ghost predicate Compiled(s: Gen, x: Expr, s': Gen, e': Exp, p0: nat, rho0: Regs) {
    && ExpKeeps(s, s.jpc, s', e', p0, rho0)
    && Fits(e'.k, ShapeOf(x))
    && (e'.t != {} <==> Leaves(x, true)) && (e'.f != {} <==> Leaves(x, false))
  }

  // ----- `and`, `or`

  function Joined(e: Exp, l: set<int>, truth: bool): Exp {
    if truth then e.(f := e.f + l) else e.(t := e.t + l)
  }

  // The jumps out of the left operand stay pending while the right one is compiled.
  lemma JoinKeeps(s: Gen, s1: Gen, e1: Exp, s2: Gen, l: set<int>, s3: Gen, e3: Exp, truth: bool, p0: nat, rho0: Regs)
    requires ExpKeeps(s, s.jpc, s1, e1, p0, rho0)
    requires BranchKeeps(s1, e1, s2, l, p0, rho0)
    requires ExpKeeps(s2, s2.jpc, s3, e3, p0, rho0)
    ensures ExpKeeps(s, s.jpc, s3, Joined(e3, l, truth), p0, rho0)
    ensures forall j, rho :: j in l ==> CarryOf(s3.code, Stop(j, rho)) == CarryOf(s2.code, Stop(j, rho))
    ensures l !! Own(s3, e3) && (forall j :: j in l ==> j < |s3.code|)
  {
    KeepsPending(s2.code, s3.code, s2.jpc, l);
    assert forall j :: j in l ==> j < |s2.code|;
    KeepsTrans(s.code, s1.code, s2.code, s.jpc, Own(s1, e1));
    KeepsTrans(s.code, s2.code, s3.code, s.jpc, s2.jpc);
  }

  lemma GoIfLists(s: Gen, e: Exp, truth: bool)
    ensures var l := GoIf(s, e, truth).1;
      (l != {} <==> (if truth then e.f else e.t) != {} || !(e.k.KLit? && Truth(e.k.v) == truth))
  {
    var (s', l) := GoIf(s, e, truth);
    match e.k
    case KJmp(p) => assert p in l;
    case KLit(v) =>
      if Truth(v) != truth {
        if v == Bool(!truth) { assert |s.code| in l; }
        else { assert |JumpOnCond(s, e.k, !truth).code| - 1 in l; }
      }
    case _ => assert |JumpOnCond(s, e.k, !truth).code| - 1 in l;
  }

  lemma BranchCompiled(s: Gen, x: Expr, l: Expr, r: Expr, truth: bool, s1: Gen, e1: Exp, s2: Gen, exits: set<int>,
          s3: Gen, e3: Exp, p0: nat, rho0: Regs)
    requires x == (if truth then And(l, r) else Or(l, r))
    requires Compiled(s, l, s1, e1, p0, rho0) && BranchKeeps(s1, e1, s2, exits, p0, rho0)
    requires Compiled(s2, r, s3, e3, p0, rho0)
    requires exits != {} <==> (if truth then e1.f else e1.t) != {} || !(e1.k.KLit? && Truth(e1.k.v) == truth)
    ensures Compiled(s, x, s3, Joined(e3, exits, truth), p0, rho0)
  {
    JoinKeeps(s, s1, e1, s2, exits, s3, e3, truth, p0, rho0);
    var e' := Joined(e3, exits, truth);
    assert e'.t != {} <==> e3.t != {} || (!truth && exits != {});
    assert e'.f != {} <==> e3.f != {} || (truth && exits != {});
  }

  // ----- comparisons

  lemma RelKeeps(s: Gen, s1: Gen, e1: Exp, s2: Gen, x1: Operand, s3: Gen, e3: Exp, s4: Gen, x2: Operand, s5: Gen,
          p0: nat, rho0: Regs)
    requires WF(s) && ExpKeeps(s, s.jpc, s1, e1, p0, rho0) && OperandKeeps(s1, e1, s2, x1, p0, rho0)
    requires ExpKeeps(s2, s2.jpc, s3, e3, p0, rho0) && OperandKeeps(s3, e3, s4, x2, p0, rho0)
    requires Keeps(s4.code, s5.code, s4.jpc) && s5.jpc == {}
    ensures Keeps(s.code, s5.code, s.jpc)
    ensures |s.code| <= |s4.code| && FreeOperand(FreeOperand(s4, x2), x1).freereg == s.freereg
  {
    KeepsTrans(s.code, s1.code, s2.code, s.jpc, Own(s1, e1));
    KeepsTrans(s.code, s2.code, s3.code, s.jpc, s2.jpc);
    KeepsTrans(s.code, s3.code, s4.code, s.jpc, Own(s3, e3));
    KeepsTrans(s.code, s4.code, s5.code, s.jpc, s4.jpc);
  }

  // ----- what is kept

  lemma {:induction false} CompileKeeps(o: Order, s: Gen, x: Expr, p0: nat, rho0: Regs)
    requires Ready(s, x, p0, rho0)
    ensures var (s', e') := Compile(s, x); Compiled(s, x, s', e', p0, rho0)
    decreases x, 1
  {
    match x
    case Local(_) =>
    case Literal(_) =>
    case Not(e) =>
      var (s1, e1) := Compile(s, e);
      CompileKeeps(o, s, e, p0, rho0);
      CodeNotKeeps(o, s1, e1, p0, rho0);
      NotCompiled(s, e, s1, e1, p0, rho0);
    case And(l, r) => BranchCompiles(o, s, x, l, r, true, p0, rho0);
    case Or(l, r) => BranchCompiles(o, s, x, l, r, false, p0, rho0);
    case Rel(op, l, r, _, _) => RelCompiles(o, s, x, op, l, r, p0, rho0);
  }

  lemma NotCompiled(s: Gen, e: Expr, s1: Gen, e1: Exp, p0: nat, rho0: Regs)
    requires Compiled(s, e, s1, e1, p0, rho0)
    requires var (s', e') := CodeNot(s1, e1); ExpKeeps(s1, Own(s1, e1), s', e', p0, rho0)
    ensures var (s', e') := CodeNot(s1, e1); Compiled(s, Not(e), s', e', p0, rho0)
  {
    var (s', e') := CodeNot(s1, e1);
    KeepsTrans(s.code, s1.code, s'.code, s.jpc, Own(s1, e1));
  }

  lemma {:induction false} BranchCompiles(o: Order, s: Gen, x: Expr, l: Expr, r: Expr, truth: bool, p0: nat, rho0: Regs)
    requires x == (if truth then And(l, r) else Or(l, r)) && Ready(s, x, p0, rho0)
    ensures var (s', e') := Compile(s, x); Compiled(s, x, s', e', p0, rho0)
    decreases x, 0
  {
    var (s1, e1) := Compile(s, l);
    CompileKeeps(o, s, l, p0, rho0);
    GoIfRun(o, s1, e1, ShapeOf(l), truth, p0, rho0);
    GoIfLists(s1, e1, truth);
    var (s2, exits) := GoIf(s1, e1, truth);
    var (s3, e3) := Compile(s2, r);
    CompileKeeps(o, s2, r, p0, rho0);
    BranchCompiled(s, x, l, r, truth, s1, e1, s2, exits, s3, e3, p0, rho0);
  }

  lemma RelForm(s: Gen, x: Expr)
    requires x.Rel?
    ensures var (s1, e1) := Compile(s, x.l);
      var (s2, x1) := ExpToOperand(s1, e1, x.lroom);
      var (s3, e3) := Compile(s2, x.r);
      var (s4, x2) := ExpToOperand(s3, e3, x.rroom);
      var s5 := CodeComp(s4, x.op, x1, x2);
      Compile(s, x) == (s5, Exp(KJmp(|s5.code| - 1), {}, {}))
  {
  }

  lemma {:induction false} RelCompiles(o: Order, s: Gen, x: Expr, op: RelOp, l: Expr, r: Expr, p0: nat, rho0: Regs)
    requires x.Rel? && x.op == op && x.l == l && x.r == r && Ready(s, x, p0, rho0)
    ensures var (s', e') := Compile(s, x); Compiled(s, x, s', e', p0, rho0)
    decreases x, 0
  {
    hide Compile, ExpToOperand, CodeComp, Leaves, Keeps;
    RelForm(s, x);
    var (s1, e1) := Compile(s, l);
    CompileKeeps(o, s, l, p0, rho0);
    OperandRun(o, s1, e1, x.lroom, p0, rho0);
    var (s2, x1) := ExpToOperand(s1, e1, x.lroom);
    var (s3, e3) := Compile(s2, r);
    CompileKeeps(o, s2, r, p0, rho0);
    OperandRun(o, s3, e3, x.rroom, p0, rho0);
    var (s4, x2) := ExpToOperand(s3, e3, x.rroom);
    RelCompiled(o, s, x, op, l, r, s1, e1, s2, x1, s3, e3, s4, x2, p0, rho0);
  }

  lemma RelCompiled(o: Order, s: Gen, x: Expr, op: RelOp, l: Expr, r: Expr,
                    s1: Gen, e1: Exp, s2: Gen, x1: Operand, s3: Gen, e3: Exp, s4: Gen, x2: Operand, p0: nat, rho0: Regs)
    requires x.Rel? && x.op == op && x.l == l && x.r == r && WF(s) && ExpKeeps(s, s.jpc, s1, e1, p0, rho0)
    requires OperandKeeps(s1, e1, s2, x1, p0, rho0)
    requires ExpKeeps(s2, s2.jpc, s3, e3, p0, rho0) && OperandKeeps(s3, e3, s4, x2, p0, rho0)
    ensures var s5 := CodeComp(s4, op, x1, x2); Compiled(s, x, s5, Exp(KJmp(|s5.code| - 1), {}, {}), p0, rho0)
  {
    var s5 := CodeComp(s4, op, x1, x2);
    assert FreeOperand(FreeOperand(s4, x2), x1).freereg == s.freereg;
    CodeCompKeeps(o, s4, op, x1, x2, p0, rho0);
    RelKeeps(s, s1, e1, s2, x1, s3, e3, s4, x2, s5, p0, rho0);
  }
}
