/** Runs of compiled expressions. */
module LuaFlowProof {
  import opened LuaMachine
  import opened LuaExpr
  import opened LuaGen
  import opened LuaRunProof
  import opened LuaStepProof
  import opened LuaExpProof
  import opened LuaCondProof
  import opened LuaNotProof
  import opened LuaOperandProof
  import opened LuaCompileProof

  // ----- runs that do not reach the expression

  lemma {:induction false} CompileAway(o: Order, s: Gen, x: Expr, p0: nat, rho0: Regs)
    requires Ready(s, x, p0, rho0) && !Arrived(s, Run(o, s.code, p0, rho0))
    ensures var (s', e') := Compile(s, x);
      var S := Run(o, s.code, p0, rho0);
      Run(o, s'.code, p0, rho0) == S && !Mine(s', e', S)
    decreases x
  {
    match x
    case Local(_) =>
    case Literal(_) =>
    case Not(e) =>
      var (s1, e1) := Compile(s, e);
      CompileAway(o, s, e, p0, rho0);
      CompileKeeps(o, s, e, p0, rho0);
      CodeNotRun(o, s1, e1, p0, rho0);
    case And(l, r) =>
      CompileAway(o, s, l, p0, rho0);
      var s2 := GoIfAway(o, s, l, true, p0, rho0);
      CompileAway(o, s2, r, p0, rho0);
    case Or(l, r) =>
      CompileAway(o, s, l, p0, rho0);
      var s2 := GoIfAway(o, s, l, false, p0, rho0);
      CompileAway(o, s2, r, p0, rho0);
    case Rel(_, l, r, room, _) =>
      CompileAway(o, s, l, p0, rho0);
      var s2 := RelLeftAway(o, s, l, room, p0, rho0);
      CompileAway(o, s2, r, p0, rho0);
      RelRightAway(o, s, s2, x, p0, rho0);
  }

  lemma GoIfAway(o: Order, s: Gen, l: Expr, truth: bool, p0: nat, rho0: Regs) returns (s2: Gen)
    requires Ready(s, l, p0, rho0)
    requires var (s1, e1) := Compile(s, l);
      var S := Run(o, s.code, p0, rho0);
      Run(o, s1.code, p0, rho0) == S && !Mine(s1, e1, S)
    ensures var (s1, e1) := Compile(s, l);
      var S := Run(o, s.code, p0, rho0);
      && s2 == GoIf(s1, e1, truth).0 && S.pc !in GoIf(s1, e1, truth).1
      && WF(s2) && EntryOK(s2, p0, rho0) && NoHole(s2.code) && s2.freereg == s.freereg && s2.nactvar == s.nactvar
      && Run(o, s2.code, p0, rho0) == S && !Arrived(s2, S)
  {
    var (s1, e1) := Compile(s, l);
    CompileKeeps(o, s, l, p0, rho0);
    GoIfRun(o, s1, e1, ShapeOf(l), truth, p0, rho0);
    s2 := GoIf(s1, e1, truth).0;
  }

  lemma RelLeftAway(o: Order, s: Gen, l: Expr, room: bool, p0: nat, rho0: Regs) returns (s2: Gen)
    requires Ready(s, l, p0, rho0) && s.freereg + 1 < NO_REG
    requires var (s1, e1) := Compile(s, l);
      var S := Run(o, s.code, p0, rho0);
      Run(o, s1.code, p0, rho0) == S && !Mine(s1, e1, S)
    ensures var (s1, e1) := Compile(s, l);
      var S := Run(o, s.code, p0, rho0);
      && s2 == ExpToOperand(s1, e1, room).0 && s2.freereg <= s.freereg + 1 && s2.nactvar == s.nactvar
      && WF(s2) && EntryOK(s2, p0, rho0) && NoHole(s2.code)
      && Run(o, s2.code, p0, rho0) == S && !Arrived(s2, S)
  {
    var (s1, e1) := Compile(s, l);
    CompileKeeps(o, s, l, p0, rho0);
    OperandRun(o, s1, e1, room, p0, rho0);
    OperandAway(o, s1, e1, room, p0, rho0);
    s2 := ExpToOperand(s1, e1, room).0;
  }

  lemma RelRightAway(o: Order, s: Gen, s2: Gen, x: Expr, p0: nat, rho0: Regs)
    requires x.Rel? && Ready(s, x, p0, rho0) && s2 == ExpToOperand(Compile(s, x.l).0, Compile(s, x.l).1, x.lroom).0
    requires Ready(s2, x.r, p0, rho0) && Run(o, s2.code, p0, rho0) == Run(o, s.code, p0, rho0)
    requires var (s3, e3) := Compile(s2, x.r);
      var S := Run(o, s.code, p0, rho0);
      Run(o, s3.code, p0, rho0) == S && !Mine(s3, e3, S)
    ensures var (s', e') := Compile(s, x);
      var S := Run(o, s.code, p0, rho0);
      Run(o, s'.code, p0, rho0) == S && !Mine(s', e', S)
  {
    hide CodeOK, NoHole, Keeps, Run, ExpOK, KindOK, EntryOK, CodeComp, ExpToOperand, Compile, WF, RegsAfter,
      FreeOperand, Mine;
    OperandRegs(o, s, x.l, x.lroom, p0, rho0);
    OperandAwayStep(o, s2, x.r, x.rroom, p0, rho0);
    var (s1, e1) := Compile(s, x.l);
    var x1 := ExpToOperand(s1, e1, x.lroom).1;
    var (s3, e3) := Compile(s2, x.r);
    var (s4, x2) := ExpToOperand(s3, e3, x.rroom);
    FreedBoth(s, s2, x1, s4, x2);
    CodeCompAway(o, s4, x.op, x1, x2, p0, rho0);
    RelForm(s, x);
  }

  // An operand takes the first free register or none.
  predicate RegsAfter(s: Gen, s': Gen, x: Operand) {
    && s'.nactvar == s.nactvar <= s.freereg
    && if x.Reg? && x.r >= s.nactvar then x.r == s.freereg && s'.freereg == s.freereg + 1 else s'.freereg == s.freereg
  }

  lemma OperandRegs(o: Order, s: Gen, l: Expr, room: bool, p0: nat, rho0: Regs)
    requires Ready(s, l, p0, rho0)
    ensures var (s1, e1) := Compile(s, l);
      var (s2, x1) := ExpToOperand(s1, e1, room); RegsAfter(s, s2, x1)
  {
    hide Run, Keeps, CodeOK;
    var (s1, e1) := Compile(s, l);
    CompileKeeps(o, s, l, p0, rho0);
    OperandRun(o, s1, e1, room, p0, rho0);
  }

  lemma FreedBoth(s: Gen, s2: Gen, x1: Operand, s4: Gen, x2: Operand)
    requires RegsAfter(s, s2, x1) && RegsAfter(s2, s4, x2)
    ensures s4.nactvar == s.nactvar <= FreeOperand(FreeOperand(s4, x2), x1).freereg
  {
  }

  lemma OperandAwayStep(o: Order, s: Gen, x: Expr, room: bool, p0: nat, rho0: Regs)
    requires Ready(s, x, p0, rho0)
    requires var (s1, e1) := Compile(s, x);
      var S := Run(o, s.code, p0, rho0);
      Run(o, s1.code, p0, rho0) == S && !Mine(s1, e1, S)
    ensures var (s1, e1) := Compile(s, x);
      var (s2, x2) := ExpToOperand(s1, e1, room);
      var S := Run(o, s.code, p0, rho0);
      && WF(s2) && EntryOK(s2, p0, rho0) && RegsAfter(s, s2, x2)
      && Run(o, s2.code, p0, rho0) == S && !Arrived(s2, S)
  {
    var (s1, e1) := Compile(s, x);
    CompileKeeps(o, s, x, p0, rho0);
    OperandRun(o, s1, e1, room, p0, rho0);
    OperandAway(o, s1, e1, room, p0, rho0);
  }

  // ----- runs that do

  lemma BranchOut(sh: Shape, fl: Flow, truth: bool)
    ensures var b := Branch(sh, fl, truth); !b.Taken? && (b.Out? ==> b.truth == !truth)
  {
  }

  // The right operand of `and` and `or`, when control reaches it and when it does not.
  lemma JoinArrived(s: Gen, e: Exp, l: set<int>, truth: bool, S: Stop, fl: Flow)
    requires At(s, e, S, fl)
    ensures At(s, Joined(e, l, truth), S, fl)
  {
  }

  lemma BranchStep(o: Order, s: Gen, l: Expr, truth: bool, p0: nat, rho0: Regs, fl: Flow)
    requires Ready(s, l, p0, rho0)
    requires var (s1, e1) := Compile(s, l); At(s1, e1, Run(o, s1.code, p0, rho0), fl)
    ensures var (s1, e1) := Compile(s, l);
      var (s2, exits) := GoIf(s1, e1, truth);
      var S1, S2 := Run(o, s1.code, p0, rho0), Run(o, s2.code, p0, rho0);
      && BranchKeeps(s1, e1, s2, exits, p0, rho0)
      && AtBranch(s2, exits, S2, Branch(ShapeOf(l), fl, truth)) && SameBelow(S1.regs, S2.regs, s.freereg)
  {
    var (s1, e1) := Compile(s, l);
    CompileKeeps(o, s, l, p0, rho0);
    GoIfRun(o, s1, e1, ShapeOf(l), truth, p0, rho0);
    AtMine(s1, e1, Run(o, s1.code, p0, rho0), fl);
  }

  lemma AtMine(s: Gen, e: Exp, S: Stop, fl: Flow)
    requires At(s, e, S, fl)
    ensures Mine(s, e, S)
  {
  }

  // The jumps out of the left operand are exits of the whole.
  lemma BranchExit(o: Order, s: Gen, l: Expr, r: Expr, truth: bool, p0: nat, rho0: Regs, c: Carry)
    requires Ready(s, l, p0, rho0)
    requires var (s1, e1) := Compile(s, l);
      var (s2, exits) := GoIf(s1, e1, truth);
      && BranchKeeps(s1, e1, s2, exits, p0, rho0) && Ready(s2, r, p0, rho0)
      && AtBranch(s2, exits, Run(o, s2.code, p0, rho0), Out(!truth, c))
    ensures var (s1, e1) := Compile(s, l);
      var (s2, exits) := GoIf(s1, e1, truth);
      var (s3, e3) := Compile(s2, r);
      var S2, S3 := Run(o, s2.code, p0, rho0), Run(o, s3.code, p0, rho0);
      S3 == S2 && At(s3, Joined(e3, exits, truth), S3, Out(!truth, c))
  {
    var (s1, e1) := Compile(s, l);
    var (s2, exits) := GoIf(s1, e1, truth);
    var (s3, e3) := Compile(s2, r);
    CompileKeeps(o, s, l, p0, rho0);
    CompileKeeps(o, s2, r, p0, rho0);
    JoinKeeps(s, s1, e1, s2, exits, s3, e3, truth, p0, rho0);
    var S2 := Run(o, s2.code, p0, rho0);
    assert S2.pc in exits && S2.pc !in s2.jpc && S2.pc < |s2.code|;
    CompileAway(o, s2, r, p0, rho0);
    assert CarryOf(s3.code, Stop(S2.pc, S2.regs)) == CarryOf(s2.code, Stop(S2.pc, S2.regs));
  }

  ghost predicate Follows(o: Order, s: Gen, x: Expr, p0: nat, rho0: Regs, c: Carry)
    requires s.nactvar >= 0 && Scoped(x, s.nactvar)
  {
    var (s', e') := Compile(s, x);
    var S, S' := Run(o, s.code, p0, rho0), Run(o, s'.code, p0, rho0);
    && SameBelow(S.regs, S'.regs, s.freereg)
    && At(s', e', S', Leave(o, x, Env(S.regs, s.nactvar), c))
  }

  lemma {:induction false} CompileFlow(o: Order, s: Gen, x: Expr, p0: nat, rho0: Regs, c: Carry)
    requires Ready(s, x, p0, rho0)
    requires var S := Run(o, s.code, p0, rho0); Arrived(s, S) && CarryOf(s.code, S) == Strip(c)
    ensures Follows(o, s, x, p0, rho0, c)
    decreases x, 1
  {
    match x
    case Local(_) =>
    case Literal(_) =>
    case Not(e) =>
      var (s1, e1) := Compile(s, e);
      CompileFlow(o, s, e, p0, rho0, c);
      CompileKeeps(o, s, e, p0, rho0);
      CodeNotFlow(o, s1, e1, ShapeOf(e), p0, rho0, Leave(o, e, Env(Run(o, s.code, p0, rho0).regs, s.nactvar), c));
    case And(l, r) => BranchFlow(o, s, x, l, r, true, p0, rho0, c);
    case Or(l, r) => BranchFlow(o, s, x, l, r, false, p0, rho0, c);
    case Rel(_, l, r, _, _) => RelFlow(o, s, x, l, r, p0, rho0, c);
  }

  lemma {:induction false} BranchFlow(o: Order, s: Gen, x: Expr, l: Expr, r: Expr, truth: bool, p0: nat, rho0: Regs,
          c: Carry)
    requires x == (if truth then And(l, r) else Or(l, r)) && Ready(s, x, p0, rho0)
    requires var S := Run(o, s.code, p0, rho0); Arrived(s, S) && CarryOf(s.code, S) == Strip(c)
    ensures Follows(o, s, x, p0, rho0, c)
    decreases x, 0
  {
    hide CodeOK, NoHole, Keeps, Run, KindOK, PendingAll, Invert, Emit;
    var S := Run(o, s.code, p0, rho0);
    var (s1, e1) := Compile(s, l);
    CompileFlow(o, s, l, p0, rho0, c);
    CompileKeeps(o, s, l, p0, rho0);
    var env := Env(S.regs, s.nactvar);
    var fl := Leave(o, l, env, c);
    var b := Branch(ShapeOf(l), fl, truth);
    BranchStep(o, s, l, truth, p0, rho0, fl);
    BranchOut(ShapeOf(l), fl, truth);
    var (s2, exits) := GoIf(s1, e1, truth);
    var S2 := Run(o, s2.code, p0, rho0);
    var (s3, e3) := Compile(s2, r);
    assert Compile(s, x) == (s3, Joined(e3, exits, truth));
    if b.Arrive? {
      CompileFlow(o, s2, r, p0, rho0, b.c);
      EnvSame(S.regs, S2.regs, s.nactvar, s.freereg);
      JoinArrived(s3, e3, exits, truth, Run(o, s3.code, p0, rho0), Leave(o, r, env, b.c));
    } else {
      BranchExit(o, s, l, r, truth, p0, rho0, b.c);
    }
  }

  lemma {:induction false} RelFlow(o: Order, s: Gen, x: Expr, l: Expr, r: Expr, p0: nat, rho0: Regs, c: Carry)
    requires x.Rel? && x.l == l && x.r == r && Ready(s, x, p0, rho0)
    requires var S := Run(o, s.code, p0, rho0); Arrived(s, S) && CarryOf(s.code, S) == Strip(c)
    ensures Follows(o, s, x, p0, rho0, c)
    decreases x, 0
  {
    hide CodeOK, NoHole, Keeps, Run, KindOK, PendingAll, ExpToOperand, GoIf, CodeComp, Compile, Follows,
      OperandsReady, Leave, OperandKeeps, SameBelow, EntryOK;
    CompileFlow(o, s, l, p0, rho0, c);
    LeftFlow(o, s, x, p0, rho0, c);
    var (s1, e1) := Compile(s, l);
    var (s2, x1) := ExpToOperand(s1, e1, x.lroom);
    var fl := Leave(o, l, Env(Run(o, s.code, p0, rho0).regs, s.nactvar), c);
    CompileFlow(o, s2, r, p0, rho0, OperandCarry(l, fl, x.lroom));
    RelOperands(o, s, x, p0, rho0, c);
    RelFinish(o, s, x, p0, rho0, c);
  }

  // The left operand at hand.
  lemma LeftFlow(o: Order, s: Gen, x: Expr, p0: nat, rho0: Regs, c: Carry)
    requires x.Rel? && Ready(s, x, p0, rho0) && Follows(o, s, x.l, p0, rho0, c)
    requires var S := Run(o, s.code, p0, rho0); Arrived(s, S) && CarryOf(s.code, S) == Strip(c)
    ensures var S := Run(o, s.code, p0, rho0);
      var env := Env(S.regs, s.nactvar);
      var (s1, e1) := Compile(s, x.l);
      var fl := Leave(o, x.l, env, c);
      var (s2, x1) := ExpToOperand(s1, e1, x.lroom);
      var S2 := Run(o, s2.code, p0, rho0);
      && SameBelow(S.regs, S2.regs, s.freereg) && Ready(s2, x.r, p0, rho0) && Env(S2.regs, s2.nactvar) == env
      && OperandKeeps(s1, e1, s2, x1, p0, rho0) && Fetch(S2.regs, x1) == Final(fl)
      && s1.freereg == s.freereg && s1.nactvar == s.nactvar
      && Arrived(s2, S2) && CarryOf(s2.code, S2) == Strip(OperandCarry(x.l, fl, x.lroom))
  {
    hide CodeOK, Keeps, Run, KindOK, PendingAll, ExpToOperand, GoIf, CodeComp, Compile;
    var S := Run(o, s.code, p0, rho0);
    var (s1, e1) := Compile(s, x.l);
    CompileKeeps(o, s, x.l, p0, rho0);
    OperandRun(o, s1, e1, x.lroom, p0, rho0);
    OperandFlow(o, s1, e1, x.lroom, p0, rho0, Leave(o, x.l, Env(S.regs, s.nactvar), c));
    var S2 := Run(o, ExpToOperand(s1, e1, x.lroom).0.code, p0, rho0);
    EnvSame(S.regs, S2.regs, s.nactvar, s.freereg);
  }

  // Both operands at hand.
  ghost predicate OperandsReady(o: Order, s: Gen, x: Expr, p0: nat, rho0: Regs, c: Carry)
    requires x.Rel? && s.nactvar >= 0 && Scoped(x, s.nactvar)
  {
    var S := Run(o, s.code, p0, rho0);
    var env := Env(S.regs, s.nactvar);
    var (s1, e1) := Compile(s, x.l);
    var fl := Leave(o, x.l, env, c);
    var (s2, x1) := ExpToOperand(s1, e1, x.lroom);
    var fr := Leave(o, x.r, env, OperandCarry(x.l, fl, x.lroom));
    var (s3, e3) := Compile(s2, x.r);
    var (s4, x2) := ExpToOperand(s3, e3, x.rroom);
    var S4 := Run(o, s4.code, p0, rho0);
    && WF(s4) && Safe(s4.code, p0) && s4.nactvar <= FreeOperand(FreeOperand(s4, x2), x1).freereg
    && Arrived(s4, S4) && SameBelow(S.regs, S4.regs, s.freereg)
    && Fetch(S4.regs, x1) == Final(fl) && Fetch(S4.regs, x2) == Final(fr)
  }

  lemma RelOperands(o: Order, s: Gen, x: Expr, p0: nat, rho0: Regs, c: Carry)
    requires x.Rel? && Ready(s, x, p0, rho0)
    requires var S := Run(o, s.code, p0, rho0);
      var env := Env(S.regs, s.nactvar);
      var (s1, e1) := Compile(s, x.l);
      var fl := Leave(o, x.l, env, c);
      var (s2, x1) := ExpToOperand(s1, e1, x.lroom);
      var S2 := Run(o, s2.code, p0, rho0);
      && SameBelow(S.regs, S2.regs, s.freereg) && Ready(s2, x.r, p0, rho0) && Env(S2.regs, s2.nactvar) == env
      && OperandKeeps(s1, e1, s2, x1, p0, rho0) && Fetch(S2.regs, x1) == Final(fl)
      && s1.freereg == s.freereg && s1.nactvar == s.nactvar
      && Follows(o, s2, x.r, p0, rho0, OperandCarry(x.l, fl, x.lroom))
    ensures OperandsReady(o, s, x, p0, rho0, c)
  {
    var S := Run(o, s.code, p0, rho0);
    var env := Env(S.regs, s.nactvar);
    var (s1, e1) := Compile(s, x.l);
    var fl := Leave(o, x.l, env, c);
    var (s2, x1) := ExpToOperand(s1, e1, x.lroom);
    var S2 := Run(o, s2.code, p0, rho0);
    OperandStep(o, s2, x.r, x.rroom, p0, rho0, OperandCarry(x.l, fl, x.lroom));
    var (s3, e3) := Compile(s2, x.r);
    var (s4, x2) := ExpToOperand(s3, e3, x.rroom);
    assert Fetch(Run(o, s4.code, p0, rho0).regs, x1) == Fetch(S2.regs, x1);
  }

  // An expression compiled into an operand.
  lemma OperandStep(o: Order, s: Gen, x: Expr, room: bool, p0: nat, rho0: Regs, c: Carry)
    requires Ready(s, x, p0, rho0) && Follows(o, s, x, p0, rho0, c)
    ensures var (s1, e1) := Compile(s, x);
      var (s2, x2) := ExpToOperand(s1, e1, room);
      var S, S2 := Run(o, s.code, p0, rho0), Run(o, s2.code, p0, rho0);
      && WF(s2) && EntryOK(s2, p0, rho0) && s2.nactvar == s.nactvar
      && (if x2.Reg? && x2.r >= s.nactvar then x2.r == s.freereg && s2.freereg == s.freereg + 1 else s2.freereg == s.freereg)
      && Arrived(s2, S2) && SameBelow(S.regs, S2.regs, s.freereg)
      && Fetch(S2.regs, x2) == Final(Leave(o, x, Env(S.regs, s.nactvar), c))
  {
    var (s1, e1) := Compile(s, x);
    CompileKeeps(o, s, x, p0, rho0);
    OperandRun(o, s1, e1, room, p0, rho0);
    OperandFlow(o, s1, e1, room, p0, rho0, Leave(o, x, Env(Run(o, s.code, p0, rho0).regs, s.nactvar), c));
  }

  lemma RelFinish(o: Order, s: Gen, x: Expr, p0: nat, rho0: Regs, c: Carry)
    requires x.Rel? && Ready(s, x, p0, rho0) && OperandsReady(o, s, x, p0, rho0, c)
    ensures Follows(o, s, x, p0, rho0, c)
  {
    var (s1, e1) := Compile(s, x.l);
    var (s2, x1) := ExpToOperand(s1, e1, x.lroom);
    var (s3, e3) := Compile(s2, x.r);
    var (s4, x2) := ExpToOperand(s3, e3, x.rroom);
    CodeCompFlow(o, s4, x.op, x1, x2, p0, rho0);
  }
}
