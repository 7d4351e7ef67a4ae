/** No jump is ever lost: every unresolved jump is in exactly one of the live lists. */
module LuaListProof {
  import opened LuaMachine
  import opened LuaExpr
  import opened LuaGen
  import opened LuaStepProof
  import opened LuaExpProof
  import opened LuaCondProof
  import opened LuaValueProof
  import opened LuaOperandProof
  import opened LuaCompileProof

  // The jumps left pending in c' are those of own', and those that were pending in c outside own.
  ghost predicate NoLoss(c: seq<Instr>, c': seq<Instr>, own: set<int>, own': set<int>) {
    && |c| <= |c'|
    && forall j :: 0 <= j < |c'| && c'[j] == Jmp(PENDING) ==>
         j in own' || (j < |c| && c[j] == Jmp(PENDING) && j !in own)
  }

  lemma NoLossTrans(c: seq<Instr>, c': seq<Instr>, c'': seq<Instr>, own: set<int>, mid: set<int>, own': set<int>)
    requires NoLoss(c, c', own, mid) && NoLoss(c', c'', mid, own')
    ensures NoLoss(c, c'', own, own')
  {
  }

  lemma EmitNoLoss(s: Gen, i: Instr)
    requires !i.Jmp?
    ensures NoLoss(s.code, Emit(s, i).code, s.jpc, {})
  {
    var d := Discharge(s);
    forall j | 0 <= j < |s.code| && d.code[j] == Jmp(PENDING)
      ensures s.code[j] == Jmp(PENDING) && j !in s.jpc
    {
      assert d.code[j] == PatchAt(s.code, s.jpc, |s.code|, NO_REG, |s.code|, j);
    }
  }

  lemma CondJumpNoLoss(s: Gen, i: Instr)
    requires !i.Jmp?
    ensures var s' := CondJump(s, i); NoLoss(s.code, s'.code, s.jpc, {|s'.code| - 1}) && s'.jpc == {}
  {
    EmitNoLoss(s, i);
  }

  lemma DischargeNoLoss(s: Gen, k: Kind, reg: int)
    requires s.code == [] ==> s.jpc == {}
    requires s.jpc != {} ==> s.lasttarget == |s.code|
    ensures var s' := DischargeToReg(s, k, reg); NoLoss(s.code, s'.code, s.jpc, s'.jpc)
    ensures var s' := DischargeToReg(s, k, reg); s' == s.(code := s'.code, jpc := s'.jpc)
  {
    match k
    case KLit(Nil) => EmitNoLoss(s, LoadNil(reg, reg));
    case KLit(Bool(b)) => EmitNoLoss(s, LoadBool(reg, b, false));
    case KLit(v) => EmitNoLoss(s, LoadK(reg, v));
    case KReg(r) => EmitNoLoss(s, Move(reg, r));
    case _ =>
  }

  ghost predicate Fit(s: Gen) {
    && (s.jpc != {} ==> s.lasttarget == |s.code|)
    && (s.code == [] ==> s.jpc == {})
  }

  lemma FitOK(s: Gen)
    requires WF(s)
    ensures Fit(s)
  {
    if s.code == [] {
      assert forall j :: j !in s.jpc;
      assert s.jpc == {};
    }
  }

  lemma JumpOnCondNoLoss(s: Gen, k: Kind, cond: bool)
    requires Fit(s)
    requires k.KReloc? && |s.code| > 0 && s.code[|s.code| - 1].NotOp? ==> s.jpc == {}
    ensures var s' := JumpOnCond(s, k, cond); NoLoss(s.code, s'.code, s.jpc, {|s'.code| - 1}) && s'.jpc == {}
  {
    if k.KReloc? && |s.code| > 0 && s.code[|s.code| - 1].NotOp? {
      CondJumpNoLoss(s.(code := s.code[..|s.code| - 1]), Test(s.code[|s.code| - 1].b, !cond));
    } else {
      if !k.KReg? { DischargeNoLoss(Reserve(s), k, s.freereg); }
      var (s1, r) := DischargeToAny(s, k);
      CondJumpNoLoss(FreeReg(s1, r), TestSet(NO_REG, r, cond));
      NoLossTrans(s.code, s1.code, JumpOnCond(s, k, cond).code, s.jpc, s1.jpc, {|JumpOnCond(s, k, cond).code| - 1});
    }
  }

  // Jumps that are live before and after.
  lemma NoLossAdd(c: seq<Instr>, c': seq<Instr>, own: set<int>, own': set<int>, more: set<int>)
    requires NoLoss(c, c', own, own')
    ensures NoLoss(c, c', own + more, own' + more)
  {
  }

  lemma GoIfNoLoss(s: Gen, e: Exp, truth: bool, p0: nat)
    requires Fit(s) && KindOK(s, e.k, p0)
    ensures var (s', l) := GoIf(s, e, truth);
      NoLoss(s.code, s'.code, Own(s, e), s'.jpc + l)
  {
    hide NoLoss, JumpOnCond, NoHole, Flip, Fit;
    var (s', l) := GoIf(s, e, truth);
    var lists, all := e.t + e.f, s'.jpc + l;
    if e.k.KJmp? {
      InvertNoLoss(s, e.k.pc, truth);
      NoLossAdd(s.code, s'.code, {}, {}, s.jpc + lists + {e.k.pc});
      assert {} + (s.jpc + lists + {e.k.pc}) == Own(s, e) && {} + (s.jpc + lists + {e.k.pc}) == all;
    } else if e.k.KLit? && Truth(e.k.v) == truth {
      InvertNoLoss(s, 0, false);
      NoLossAdd(s.code, s'.code, {}, {}, s.jpc + lists);
      assert {} + (s.jpc + lists) == Own(s, e) && {} + (s.jpc + lists) == all;
    } else if e.k == KLit(Bool(!truth)) {
      JumpNoLoss(s);
      NoLossAdd(s.code, s'.code, {}, {|s.code|}, s.jpc + lists);
      assert {} + (s.jpc + lists) == Own(s, e) && {|s.code|} + (s.jpc + lists) == all;
    } else {
      JumpOnCondNoLoss(s, e.k, !truth);
      GoIfTestForm(s, e, truth);
      var n := |JumpOnCond(s, e.k, !truth).code| - 1;
      NoLossAdd(s.code, s'.code, s.jpc, {n}, lists);
      assert s.jpc + lists == Own(s, e) && {n} + lists == all;
    }
  }

  lemma InvertNoLoss(s: Gen, p: int, flip: bool)
    ensures NoLoss(s.code, (if flip then Invert(s, p) else s).code, {}, {})
  {
  }

  lemma JumpNoLoss(s: Gen)
    ensures NoLoss(s.code, Jump(s).code, {}, {|s.code|})
  {
  }

  lemma CodeNotNoLoss(s: Gen, e: Exp, p0: nat)
    requires Fit(s) && KindOK(s, e.k, p0)
    ensures var (s', e') := CodeNot(s, e);
      NoLoss(s.code, s'.code, Own(s, e), Own(s', e'))
  {
    var (s1, k) := NotKind(s, e.k);
    if e.k.KReloc? || e.k.KReg? {
      if !e.k.KReg? { DischargeNoLoss(Reserve(s), e.k, s.freereg); }
      var (s0, r) := DischargeToAny(s, e.k);
      EmitNoLoss(FreeReg(s0, r), NotOp(NO_REG, r));
      NoLossTrans(s.code, s0.code, s1.code, s.jpc, s0.jpc, {});
    }
    var c := Strike(s1.code, e.t + e.f);
    assert NoLoss(s1.code, c, {}, {});
  }

  // Both lists closed.
  lemma PatchNoLoss(code: seq<Instr>, l: set<int>, vt: int, reg: int, dt: int)
    requires vt >= 0 && (dt >= 0 || forall j :: j in l ==> Valued(code, j))
    ensures NoLoss(code, Patch(code, l, vt, reg, dt), l, {})
  {
    var c := Patch(code, l, vt, reg, dt);
    forall j | 0 <= j < |c| && c[j] == Jmp(PENDING)
      ensures code[j] == Jmp(PENDING) && j !in l
    {
      assert c[j] == PatchAt(code, l, vt, reg, dt, j);
    }
  }

  lemma PatchBothNoLoss(code: seq<Instr>, t: set<int>, f: set<int>, reg: int, dtf: int, dtt: int)
    requires dtf >= 0 || forall j :: j in f ==> Valued(code, j)
    requires dtt >= 0 || forall j :: j in t ==> Valued(code, j)
    requires t !! f && forall j :: j in t ==> 0 <= j < |code| && code[j].Jmp?
    ensures NoLoss(code, PatchBoth(code, t, f, reg, dtf, dtt), t + f, {})
  {
    var c1 := Patch(code, f, |code|, reg, dtf);
    PatchNoLoss(code, f, |code|, reg, dtf);
    forall j | j in t && Valued(code, j)
      ensures Valued(c1, j)
    {
      assert c1[j - 1] == PatchAt(code, f, |code|, reg, dtf, j - 1);
    }
    PatchNoLoss(c1, t, |code|, reg, dtt);
  }

  // The truth values added, then both lists patched.
  lemma NoLossBoth(c: seq<Instr>, c': seq<Instr>, c'': seq<Instr>, own: set<int>, own': set<int>)
    requires NoLoss(c, c', {}, own') && NoLoss(c', c'', own, {}) && |c'| == |c''|
    ensures NoLoss(c, c'', own, own')
  {
  }

  lemma BeforeNoLoss(s: Gen, need: bool, jmp: bool, reg: int)
    requires s.jpc == {}
    ensures var s2 := BeforeClose(s, need, jmp, reg); NoLoss(s.code, s2.code, {}, s2.jpc)
    ensures var s2 := BeforeClose(s, need, jmp, reg); |s.code| <= |s2.code| && s2.code[..|s.code|] == s.code
    ensures need ==> |BeforeClose(s, need, jmp, reg).code| >= 2
    ensures !need ==> BeforeClose(s, need, jmp, reg).code == s.code
  {
    if need { EmitBoolsCode(s, jmp, reg); }
  }

  lemma CloseNoLoss(s: Gen, t: set<int>, f: set<int>, jmp: bool, reg: int)
    requires s.jpc == {} && t !! f
    requires forall j :: j in t + f ==> 0 <= j < |s.code| && s.code[j].Jmp?
    requires jmp ==> NeedValue(s.code, t)
    ensures var s' := Close(s, t, f, jmp, reg); NoLoss(s.code, s'.code, t + f, s'.jpc)
  {
    if t != {} || f != {} {
      hide NoLoss, BeforeClose, Close, PatchBoth;
      CloseSteps(s, t, f, jmp, reg);
      var need := NeedValue(s.code, t) || NeedValue(s.code, f);
      var s2 := BeforeClose(s, need, jmp, reg);
      BeforeNoLoss(s, need, jmp, reg);
      var n := |s2.code|;
      forall j | j in t + f
        ensures 0 <= j < n && s2.code[j].Jmp? && (!need ==> Valued(s2.code, j))
      {
        assert s2.code[..|s.code|][j] == s2.code[j];
      }
      var dtf, dtt := if need then n - 2 else PENDING, if need then n - 1 else PENDING;
      PatchBothNoLoss(s2.code, t, f, reg, dtf, dtt);
      NoLossBoth(s.code, s2.code, PatchBoth(s2.code, t, f, reg, dtf, dtt), t + f, s2.jpc);
    } else {
      NothingNoLoss(s, t + f);
      CloseNothing(s, jmp, reg);
    }
  }

  lemma NothingNoLoss(s: Gen, own: set<int>)
    requires own == {}
    ensures NoLoss(s.code, s.code, own, s.jpc)
  {
  }

  lemma ExpToRegNoLoss(o: Order, s: Gen, e: Exp, reg: int, p0: nat, rho0: Regs)
    requires WF(s) && EntryOK(s, p0, rho0) && ExpOK(s, e, p0) && s.nactvar <= reg < NO_REG
    ensures var s' := ExpToReg(s, e, reg); NoLoss(s.code, s'.code, Own(s, e), s'.jpc)
  {
    var s1 := DischargeToReg(s, e.k, reg);
    var e1 := WithOwnJump(e);
    CloseForm(s, e, reg);
    LoadRun(o, s, e, reg, p0, rho0);
    OwnJumpNeeds(s, e, reg, p0);
    FitOK(s);
    DischargeNoLoss(s, e.k, reg);
    CloseNoLoss(s1, e1.t, e1.f, e.k.KJmp?, reg);
    var s' := ExpToReg(s, e, reg);
    assert forall j :: j in Own(s, e) <==> j in s.jpc || j in e1.t + e1.f;
    assert NoLoss(s1.code, s'.code, e1.t + e1.f, s'.jpc);
  }

  lemma OperandNoLoss(o: Order, s: Gen, e: Exp, room: bool, p0: nat, rho0: Regs)
    requires WF(s) && EntryOK(s, p0, rho0) && ExpOK(s, e, p0) && s.freereg < NO_REG
    ensures var (s', x) := ExpToOperand(s, e, room); NoLoss(s.code, s'.code, Own(s, e), s'.jpc)
  {
    if !Immediate(e, room) {
      OperandForm(s, e, room, p0);
      ExpToRegNoLoss(o, Reserve(s), e, s.freereg, p0, rho0);
    }
  }

  // ----- whole expressions

  lemma {:induction false} CompileNoLoss(o: Order, s: Gen, x: Expr, p0: nat, rho0: Regs)
    requires Ready(s, x, p0, rho0)
    ensures var (s', e') := Compile(s, x); NoLoss(s.code, s'.code, s.jpc, Own(s', e'))
    decreases x, 1
  {
    match x
    case Local(_) =>
    case Literal(_) =>
    case Not(e) =>
      var (s1, e1) := Compile(s, e);
      CompileNoLoss(o, s, e, p0, rho0);
      CompileKeeps(o, s, e, p0, rho0);
      FitOK(s1);
      CodeNotNoLoss(s1, e1, p0);
      var (s', e') := CodeNot(s1, e1);
      NoLossTrans(s.code, s1.code, s'.code, s.jpc, Own(s1, e1), Own(s', e'));
    case And(l, r) => BranchNoLoss(o, s, x, l, r, true, p0, rho0);
    case Or(l, r) => BranchNoLoss(o, s, x, l, r, false, p0, rho0);
    case Rel(_, _, _, _, _) => RelNoLoss(o, s, x, p0, rho0);
  }

  // How many of the live lists jump j is in.
  function ListsOf(s: Gen, e: Exp, j: int): nat {
    (if j in s.jpc then 1 else 0) + (if j in e.t then 1 else 0) + (if j in e.f then 1 else 0)
    + (if e.k.KJmp? && j == e.k.pc then 1 else 0)
  }

  /** Every unresolved jump that is not somebody else's is in exactly one live list: those that wait for the next
      instruction, the true and the false list, and the comparison's own jump. */
  lemma OneList(o: Order, s: Gen, x: Expr, p0: nat, rho0: Regs)
    requires Ready(s, x, p0, rho0)
    ensures var (s', e') := Compile(s, x);
      forall j :: 0 <= j < |s'.code| && s'.code[j] == Jmp(PENDING) ==>
        ListsOf(s', e', j) == 1 || (j < |s.code| && s.code[j] == Jmp(PENDING) && j !in s.jpc && ListsOf(s', e', j) == 0)
  {
    hide Compile;
    CompileNoLoss(o, s, x, p0, rho0);
    CompileKeeps(o, s, x, p0, rho0);
  }

  lemma JoinNoLoss(s: Gen, s1: Gen, e1: Exp, s2: Gen, l: set<int>, s3: Gen, e3: Exp, truth: bool)
    requires NoLoss(s.code, s1.code, s.jpc, Own(s1, e1))
    requires NoLoss(s1.code, s2.code, Own(s1, e1), s2.jpc + l)
    requires NoLoss(s2.code, s3.code, s2.jpc, Own(s3, e3))
    ensures NoLoss(s.code, s3.code, s.jpc, Own(s3, Joined(e3, l, truth)))
  {
    NoLossTrans(s.code, s1.code, s2.code, s.jpc, Own(s1, e1), s2.jpc + l);
    var own := Own(s3, Joined(e3, l, truth));
    forall j | j in Own(s3, e3) + l
      ensures j in own
    {
    }
    assert NoLoss(s2.code, s3.code, s2.jpc + l, own);
    NoLossTrans(s.code, s2.code, s3.code, s.jpc, s2.jpc + l, own);
  }

  lemma {:induction false} BranchNoLoss(o: Order, s: Gen, x: Expr, l: Expr, r: Expr, truth: bool, p0: nat, rho0: Regs)
    requires x == (if truth then And(l, r) else Or(l, r)) && Ready(s, x, p0, rho0)
    ensures var (s', e') := Compile(s, x); NoLoss(s.code, s'.code, s.jpc, Own(s', e'))
    decreases x, 0
  {
    var (s1, e1) := Compile(s, l);
    CompileKeeps(o, s, l, p0, rho0);
    CompileNoLoss(o, s, l, p0, rho0);
    GoIfRun(o, s1, e1, ShapeOf(l), truth, p0, rho0);
    FitOK(s1);
    GoIfNoLoss(s1, e1, truth, p0);
    var (s2, exits) := GoIf(s1, e1, truth);
    var (s3, e3) := Compile(s2, r);
    CompileNoLoss(o, s2, r, p0, rho0);
    JoinNoLoss(s, s1, e1, s2, exits, s3, e3, truth);
  }

  lemma {:induction false} RelNoLoss(o: Order, s: Gen, x: Expr, p0: nat, rho0: Regs)
    requires x.Rel? && Ready(s, x, p0, rho0)
    ensures var (s', e') := Compile(s, x); NoLoss(s.code, s'.code, s.jpc, Own(s', e'))
    decreases x, 0
  {
    hide ExpToOperand, WF;
    var (s1, e1) := Compile(s, x.l);
    CompileKeeps(o, s, x.l, p0, rho0);
    CompileNoLoss(o, s, x.l, p0, rho0);
    OperandRun(o, s1, e1, x.lroom, p0, rho0);
    OperandNoLoss(o, s1, e1, x.lroom, p0, rho0);
    var (s2, x1) := ExpToOperand(s1, e1, x.lroom);
    var (s3, e3) := Compile(s2, x.r);
    CompileKeeps(o, s2, x.r, p0, rho0);
    CompileNoLoss(o, s2, x.r, p0, rho0);
    OperandNoLoss(o, s3, e3, x.rroom, p0, rho0);
    var (s4, x2) := ExpToOperand(s3, e3, x.rroom);
    RelJoinNoLoss(s, s1, Own(s1, e1), s2, s3, Own(s3, e3), s4, x.op, x1, x2);
  }

  lemma RelJoinNoLoss(s: Gen, s1: Gen, own1: set<int>, s2: Gen, s3: Gen, own3: set<int>, s4: Gen, op: RelOp,
          x1: Operand, x2: Operand)
    requires NoLoss(s.code, s1.code, s.jpc, own1) && NoLoss(s1.code, s2.code, own1, s2.jpc)
    requires NoLoss(s2.code, s3.code, s2.jpc, own3) && NoLoss(s3.code, s4.code, own3, s4.jpc)
    ensures var s5 := CodeComp(s4, op, x1, x2); NoLoss(s.code, s5.code, s.jpc, {|s5.code| - 1}) && s5.jpc == {}
  {
    CondJumpNoLoss(FreeOperand(FreeOperand(s4, x2), x1), CompareInstr(op, x1, x2));
    var s5 := CodeComp(s4, op, x1, x2);
    NoLossTrans(s.code, s1.code, s2.code, s.jpc, own1, s2.jpc);
    NoLossTrans(s.code, s2.code, s3.code, s.jpc, s2.jpc, own3);
    NoLossTrans(s.code, s3.code, s4.code, s.jpc, own3, s4.jpc);
    NoLossTrans(s.code, s4.code, s5.code, s.jpc, s4.jpc, {|s5.code| - 1});
  }
}
