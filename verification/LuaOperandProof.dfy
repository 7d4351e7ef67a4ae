/** Expressions put into registers or used as operands of a comparison. */
module LuaOperandProof {
  import opened LuaMachine
  import opened LuaExpr
  import opened LuaGen
  import opened LuaRunProof
  import opened LuaStepProof
  import opened LuaExpProof
  import opened LuaValueProof

  ghost predicate RegKeeps(s: Gen, e: Exp, s': Gen, p0: nat, rho0: Regs) {
    && WF(s') && EntryOK(s', p0, rho0) && NoHole(s'.code)
    && s' == s.(code := s'.code, jpc := s'.jpc, lasttarget := s'.lasttarget)
    && Keeps(s.code, s'.code, Own(s, e))
    && (forall j :: j in s'.jpc ==> j >= |s.code| && !Valued(s'.code, j))
  }

  // A run that stopped at S has the value v in reg.
  ghost predicate Holding(s': Gen, reg: int, rho: Regs, S': Stop, v: Value) {
    && Arrived(s', S') && CarryOf(s'.code, S') == None
    && Get(S'.regs, reg) == v && SameBut(rho, S'.regs, reg)
  }

  lemma OwnJumpNeeds(s: Gen, e: Exp, reg: int, p0: nat)
    requires ExpOK(s, e, p0)
    ensures e.k.KJmp? ==> NeedValue(DischargeToReg(s, e.k, reg).code, WithOwnJump(e).t)
  {
    if e.k.KJmp? {
      assert e.k.pc in WithOwnJump(e).t && !Valued(s.code, e.k.pc);
    }
  }

  lemma ExpToRegKeeps(o: Order, s: Gen, e: Exp, reg: int, p0: nat, rho0: Regs)
    requires WF(s) && EntryOK(s, p0, rho0) && ExpOK(s, e, p0) && s.nactvar <= reg < NO_REG
    ensures RegKeeps(s, e, ExpToReg(s, e, reg), p0, rho0)
  {
    CloseForm(s, e, reg);
    var s1 := DischargeToReg(s, e.k, reg);
    var e1 := WithOwnJump(e);
    LoadRun(o, s, e, reg, p0, rho0);
    OwnJumpNeeds(s, e, reg, p0);
    var s' := ExpToReg(s, e, reg);
    if e1.t != {} || e1.f != {} {
      CloseRun(o, s1, e1.t, e1.f, e.k.KJmp?, reg, p0, rho0);
      assert e1.t + e1.f <= Own(s, e);
      KeepsTrans(s.code, s1.code, s'.code, Own(s, e), Own(s, e));
    }
  }

  // A run that arrives without a value.
  lemma EndCarry(s: Gen, S: Stop)
    requires WF(s) && Arrived(s, S) && forall j :: j in s.jpc ==> !Valued(s.code, j)
    ensures CarryOf(s.code, S) == None
  {
    hide CodeOK;
    EndIsSafe(s);
  }

  lemma CloseArrives(o: Order, s: Gen, t: set<int>, f: set<int>, jmp: bool, reg: int, p0: nat, rho0: Regs)
    requires LoadedOK(s, t, f, p0, rho0) && 0 <= reg < NO_REG && (jmp ==> NeedValue(s.code, t))
    requires var S := Run(o, s.code, p0, rho0); S.pc == |s.code| || S.pc in t || S.pc in f
    ensures var s' := Close(s, t, f, jmp, reg);
      var S' := Run(o, s'.code, p0, rho0);
      Arrived(s', S') && CarryOf(s'.code, S') == None
  {
    hide WF, Run, NoHole, PendingAll, CarryOf, Valued, NeedValue, EntryOK, Keeps, Label, EmitBools, Closed;
    var s' := Close(s, t, f, jmp, reg);
    if t != {} || f != {} {
      hide Close;
      CloseRun(o, s, t, f, jmp, reg, p0, rho0);
    }
    EndCarry(s', Run(o, s'.code, p0, rho0));
  }

  lemma CloseHolds(o: Order, s: Gen, t: set<int>, f: set<int>, jmp: bool, reg: int, p0: nat, rho0: Regs, v: Value)
    requires LoadedOK(s, t, f, p0, rho0) && 0 <= reg < NO_REG && (jmp ==> NeedValue(s.code, t))
    requires LoadedAt(s, t, f, jmp, reg, Run(o, s.code, p0, rho0), v)
    ensures var s' := Close(s, t, f, jmp, reg);
      Holding(s', reg, Run(o, s.code, p0, rho0).regs, Run(o, s'.code, p0, rho0), v)
  {
    hide WF, Run, NoHole, CarryOf, NeedValue, EntryOK, Keeps, Label, EmitBools, Close;
    var s' := Close(s, t, f, jmp, reg);
    CloseArrives(o, s, t, f, jmp, reg, p0, rho0);
    if t != {} || f != {} {
      CloseRun(o, s, t, f, jmp, reg, p0, rho0);
    } else {
      CloseNothing(s, jmp, reg);
    }
  }

  lemma CloseNothing(s: Gen, jmp: bool, reg: int)
    ensures Close(s, {}, {}, jmp, reg) == s
    ensures !NeedValue(s.code, {})
  {
  }

  lemma ExpToRegFlow(o: Order, s: Gen, e: Exp, reg: int, p0: nat, rho0: Regs, fl: Flow)
    requires WF(s) && EntryOK(s, p0, rho0) && ExpOK(s, e, p0) && s.nactvar <= reg < NO_REG
    requires At(s, e, Run(o, s.code, p0, rho0), fl)
    ensures var s' := ExpToReg(s, e, reg);
      Holding(s', reg, Run(o, s.code, p0, rho0).regs, Run(o, s'.code, p0, rho0), Final(fl))
  {
    CloseForm(s, e, reg);
    var s1 := DischargeToReg(s, e.k, reg);
    var e1 := WithOwnJump(e);
    LoadRun(o, s, e, reg, p0, rho0);
    LoadFlow(o, s, e, reg, p0, rho0, fl);
    OwnJumpNeeds(s, e, reg, p0);
    CloseHolds(o, s1, e1.t, e1.f, e.k.KJmp?, reg, p0, rho0, Final(fl));
  }

  lemma ExpToRegAway(o: Order, s: Gen, e: Exp, reg: int, p0: nat, rho0: Regs)
    requires WF(s) && EntryOK(s, p0, rho0) && ExpOK(s, e, p0) && s.nactvar <= reg < NO_REG
    requires !Mine(s, e, Run(o, s.code, p0, rho0))
    ensures var s' := ExpToReg(s, e, reg);
      var S := Run(o, s.code, p0, rho0);
      Run(o, s'.code, p0, rho0) == S && !Arrived(s', S)
  {
    CloseForm(s, e, reg);
    var s1 := DischargeToReg(s, e.k, reg);
    var e1 := WithOwnJump(e);
    LoadRun(o, s, e, reg, p0, rho0);
    LoadAway(o, s, e, reg, p0, rho0);
    OwnJumpNeeds(s, e, reg, p0);
    if e1.t != {} || e1.f != {} {
      CloseRun(o, s1, e1.t, e1.f, e.k.KJmp?, reg, p0, rho0);
    }
    ExpToRegKeeps(o, s, e, reg, p0, rho0);
  }

  // ----- luaK_exp2RK

  // An operand that stays valid while registers from the free one on are overwritten.
  predicate OperandOK(s: Gen, x: Operand) {
    x.Reg? ==> 0 <= x.r < s.freereg
  }

  ghost predicate OperandKeeps(s: Gen, e: Exp, s': Gen, x: Operand, p0: nat, rho0: Regs) {
    && WF(s') && EntryOK(s', p0, rho0) && NoHole(s'.code) && OperandOK(s', x)
    && s' == s.(code := s'.code, jpc := s'.jpc, lasttarget := s'.lasttarget, freereg := s'.freereg)
    && (if x.Reg? && x.r >= s.nactvar then x.r == s.freereg && s'.freereg == s.freereg + 1 else s'.freereg == s.freereg)
    && Keeps(s.code, s'.code, Own(s, e))
    && (forall j :: j in s'.jpc ==> j in Own(s, e) || j >= |s.code|)
  }

  ghost predicate OperandAt(s': Gen, x: Operand, n: int, S: Stop, S': Stop, c: Carry, v: Value) {
    && Arrived(s', S') && CarryOf(s'.code, S') == Strip(c)
    && Fetch(S'.regs, x) == v && SameBelow(S.regs, S'.regs, n)
  }

  predicate Immediate(e: Exp, room: bool) {
    e.t == {} && e.f == {} && ((e.k.KLit? && room) || e.k.KReg?)
  }

  lemma OperandForm(s: Gen, e: Exp, room: bool, p0: nat)
    requires ExpOK(s, e, p0) && !Immediate(e, room)
    ensures ExpToOperand(s, e, room) == (ExpToReg(Reserve(s), e, s.freereg), Reg(s.freereg))
    ensures ExpOK(Reserve(s), e, p0)
  {
  }

  lemma OperandRun(o: Order, s: Gen, e: Exp, room: bool, p0: nat, rho0: Regs)
    requires WF(s) && EntryOK(s, p0, rho0) && ExpOK(s, e, p0) && s.freereg < NO_REG
    ensures var (s', x) := ExpToOperand(s, e, room); OperandKeeps(s, e, s', x, p0, rho0)
  {
    hide ExpToNextReg, DischargeToReg;
    if !Immediate(e, room) {
      OperandForm(s, e, room, p0);
      ExpToRegKeeps(o, Reserve(s), e, s.freereg, p0, rho0);
    }
  }

  lemma OperandFlow(o: Order, s: Gen, e: Exp, room: bool, p0: nat, rho0: Regs, fl: Flow)
    requires WF(s) && EntryOK(s, p0, rho0) && ExpOK(s, e, p0) && s.freereg < NO_REG
    requires At(s, e, Run(o, s.code, p0, rho0), fl)
    ensures var (s', x) := ExpToOperand(s, e, room);
      OperandAt(s', x, s.freereg, Run(o, s.code, p0, rho0), Run(o, s'.code, p0, rho0),
        if Immediate(e, room) && fl.Arrive? then fl.c else None, Final(fl))
  {
    if !Immediate(e, room) {
      OperandForm(s, e, room, p0);
      ExpToRegFlow(o, Reserve(s), e, s.freereg, p0, rho0, fl);
    }
  }

  lemma OperandAway(o: Order, s: Gen, e: Exp, room: bool, p0: nat, rho0: Regs)
    requires WF(s) && EntryOK(s, p0, rho0) && ExpOK(s, e, p0) && s.freereg < NO_REG
    requires !Mine(s, e, Run(o, s.code, p0, rho0))
    ensures var (s', x) := ExpToOperand(s, e, room);
      var S := Run(o, s.code, p0, rho0);
      Run(o, s'.code, p0, rho0) == S && !Arrived(s', S)
  {
    if !Immediate(e, room) {
      OperandForm(s, e, room, p0);
      ExpToRegAway(o, Reserve(s), e, s.freereg, p0, rho0);
    }
  }

  // ----- codecomp

  lemma CompareInstrHolds(o: Order, op: RelOp, l: Operand, r: Operand, rho: Regs)
    ensures Passes(o, CompareInstr(op, l, r), rho) == RelHolds(o, op, Fetch(rho, l), Fetch(rho, r))
  {
  }

  lemma CodeCompKeeps(o: Order, s: Gen, op: RelOp, l: Operand, r: Operand, p0: nat, rho0: Regs)
    requires WF(s) && EntryOK(s, p0, rho0) && NoHole(s.code)
    requires s.nactvar <= FreeOperand(FreeOperand(s, r), l).freereg
    ensures var s' := CodeComp(s, op, l, r);
      var e' := Exp(KJmp(|s'.code| - 1), {}, {});
      && WF(s') && EntryOK(s', p0, rho0) && ExpOK(s', e', p0) && |s'.code| == |s.code| + 2
      && s'.freereg == FreeOperand(FreeOperand(s, r), l).freereg && s'.nactvar == s.nactvar
      && Keeps(s.code, s'.code, s.jpc) && s'.jpc == {}
  {
    CondJumpRun(o, FreeOperand(FreeOperand(s, r), l), CompareInstr(op, l, r), p0, rho0);
  }

  lemma CodeCompFlow(o: Order, s: Gen, op: RelOp, l: Operand, r: Operand, p0: nat, rho0: Regs)
    requires WF(s) && Safe(s.code, p0) && s.nactvar <= FreeOperand(FreeOperand(s, r), l).freereg
    requires Arrived(s, Run(o, s.code, p0, rho0))
    ensures var s' := CodeComp(s, op, l, r);
      var e' := Exp(KJmp(|s'.code| - 1), {}, {});
      var S, S' := Run(o, s.code, p0, rho0), Run(o, s'.code, p0, rho0);
      && S'.regs == S.regs
      && At(s', e', S', if RelHolds(o, op, Fetch(S.regs, l), Fetch(S.regs, r)) then Taken else Arrive(None, Bool(false)))
  {
    hide CodeOK, NoHole, Keeps;
    var i := CompareInstr(op, l, r);
    var S := Run(o, s.code, p0, rho0);
    CondJumpRun(o, FreeOperand(FreeOperand(s, r), l), i, p0, rho0);
    CompareInstrHolds(o, op, l, r, S.regs);
  }

  lemma CodeCompAway(o: Order, s: Gen, op: RelOp, l: Operand, r: Operand, p0: nat, rho0: Regs)
    requires WF(s) && Safe(s.code, p0) && s.nactvar <= FreeOperand(FreeOperand(s, r), l).freereg
    requires !Arrived(s, Run(o, s.code, p0, rho0))
    ensures var s' := CodeComp(s, op, l, r);
      var S := Run(o, s.code, p0, rho0);
      Run(o, s'.code, p0, rho0) == S && !Mine(s', Exp(KJmp(|s'.code| - 1), {}, {}), S)
  {
    CondJumpRun(o, FreeOperand(FreeOperand(s, r), l), CompareInstr(op, l, r), p0, rho0);
    StopKind(o, s, p0, rho0);
  }
}
