/** Conditional jumps: luaK_goiftrue, luaK_goiffalse, `not`, and comparisons. */
module LuaCondProof {
  import opened LuaMachine
  import opened LuaExpr
  import opened LuaGen
  import opened LuaRunProof
  import opened LuaStepProof
  import opened LuaExpProof

  // ----- jumponcond

  // The NOT at the end is replaced by a test of its operand.
  lemma NotJumpRun(o: Order, s: Gen, p: int, cond: bool, p0: nat, rho0: Regs)
    requires WF(s) && Safe(s.code, p0) && KindOK(s, KReloc(p), p0)
    ensures var s' := JumpOnCond(s, KReloc(p), cond);
      var S, S' := Run(o, s.code, p0, rho0), Run(o, s'.code, p0, rho0);
      && WF(s') && Safe(s'.code, p0) && NoHole(s'.code)
      && s' == s.(code := s'.code) && |s'.code| == |s.code| + 1
      && s'.code[|s.code|] == Jmp(PENDING) && !Valued(s'.code, |s.code|)
      && Keeps(s.code, s'.code, {})
      && (if S.pc == |s.code| then
            // the NOT gives !Truth of its operand
            S' == Stop(|s.code| + (if !Truth(Get(S.regs, s.code[p].b)) == cond then 0 else 1), S.regs)
          else S' == S)
  {
    var b := s.code[p].b;
    var s' := JumpOnCond(s, KReloc(p), cond);
    if p >= 1 { assert InstrOK(s.code, s.lasttarget, p - 1); }
    CutOK(s.code, s.lasttarget, p);
    var s0 := s.(code := s.code[..p]);
    assert s.code == s0.code + [s.code[p]];
    LastRun(o, s0.code, s.lasttarget, s.code[p], p0, rho0);
    CondJumpRun(o, s0, Test(b, !cond), p0, rho0);
    assert s' == CondJump(s0, Test(b, !cond));
  }

  // What a jump on the value of an expression does to a run.
  ghost predicate Tested(s: Gen, k: Kind, cond: bool, S: Stop, s': Gen, S': Stop) {
    var j := |s'.code| - 1;
    if Arrived(s, S) then
      SameBelow(S.regs, S'.regs, s.freereg) &&
      forall v :: Gives(s, k, S.regs, v) ==>
        if Truth(v) == cond then S'.pc == j && CarryOf(s'.code, S') == (if k.KReloc? then None else Some(v))
        else S'.pc == |s'.code|
    else S' == S && S'.pc < |s.code|
  }

  lemma ValueJumpRun(o: Order, s: Gen, k: Kind, cond: bool, p0: nat, rho0: Regs)
    requires WF(s) && EntryOK(s, p0, rho0) && KindOK(s, k, p0) && (k.KLit? || k.KReg?) && s.freereg < NO_REG
    ensures var s' := JumpOnCond(s, k, cond);
      var j := |s'.code| - 1;
      && WF(s') && EntryOK(s', p0, rho0) && NoHole(s'.code)
      && s' == s.(code := s'.code, jpc := {}) && |s.code| <= j && s'.code[j] == Jmp(PENDING)
      && Keeps(s.code, s'.code, s.jpc)
      && Tested(s, k, cond, Run(o, s.code, p0, rho0), s', Run(o, s'.code, p0, rho0))
  {
    StopKind(o, s, p0, rho0);
    DischargeToAnyRun(o, s, k, p0, rho0);
    var (s1, r) := DischargeToAny(s, k);
    var s2 := FreeReg(s1, r);
    CondJumpRun(o, s2, TestSet(NO_REG, r, cond), p0, rho0);
    var s' := JumpOnCond(s, k, cond);
    assert s' == CondJump(s2, TestSet(NO_REG, r, cond));
    KeepsTrans(s.code, s2.code, s'.code, s.jpc, s2.jpc);
    var S, S2, S' := Run(o, s.code, p0, rho0), Run(o, s2.code, p0, rho0), Run(o, s'.code, p0, rho0);
    if Arrived(s, S) {
      assert Gives(s, k, S.regs, Get(S2.regs, r));
      assert S'.regs == S2.regs;
      assert s'.code[|s'.code| - 2] == TestSet(NO_REG, r, cond);
    }
  }

  lemma JumpOnCondRun(o: Order, s: Gen, k: Kind, cond: bool, p0: nat, rho0: Regs)
    requires WF(s) && EntryOK(s, p0, rho0) && KindOK(s, k, p0) && !k.KJmp? && s.freereg < NO_REG
    ensures var s' := JumpOnCond(s, k, cond);
      var j := |s'.code| - 1;
      && WF(s') && EntryOK(s', p0, rho0) && NoHole(s'.code)
      && s' == s.(code := s'.code, jpc := {}) && |s.code| <= j && s'.code[j] == Jmp(PENDING)
      && Keeps(s.code, s'.code, s.jpc)
      && Tested(s, k, cond, Run(o, s.code, p0, rho0), s', Run(o, s'.code, p0, rho0))
  {
    if k.KReloc? {
      StopKind(o, s, p0, rho0);
      NotJumpRun(o, s, k.pc, cond, p0, rho0);
    } else {
      ValueJumpRun(o, s, k, cond, p0, rho0);
    }
  }

  // ----- invertjump

  lemma InvertRun(o: Order, s: Gen, p: int, p0: nat, rho0: Regs)
    requires WF(s) && Safe(s.code, p0) && KindOK(s, KJmp(p), p0)
    ensures var s' := Invert(s, p);
      var S, S' := Run(o, s.code, p0, rho0), Run(o, s'.code, p0, rho0);
      && WF(s') && Safe(s'.code, p0) && KindOK(s', KJmp(p), p0)
      && s' == s.(code := s'.code) && |s'.code| == |s.code|
      && Keeps(s.code, s'.code, {p})
      && S' == if S.pc == p then Stop(|s.code|, S.regs) else if S.pc == |s.code| then Stop(p, S.regs) else S
  {
    hide Run;
    var n := p - 1;
    var i := s.code[n];
    var base := s.code[..n];
    if n >= 1 { assert InstrOK(s.code, s.lasttarget, n - 1); }
    CutOK(s.code, s.lasttarget, n);
    var s0 := s.(code := base);
    assert s.code == base + [i] + [Jmp(PENDING)];
    var s' := Invert(s, p);
    assert s'.code == base + [Flip(i)] + [Jmp(PENDING)];
    PatchNone(base, n, NO_REG, n);
    assert CondJump(s0, i).code == s.code;
    assert CondJump(s0, Flip(i)).code == s'.code;
    CondJumpRun(o, s0, i, p0, rho0);
    CondJumpRun(o, s0, Flip(i), p0, rho0);
    StopKind(o, s0, p0, rho0);
  }

  // ----- luaK_goiftrue and luaK_goiffalse

  predicate AtBranch(s: Gen, l: set<int>, S: Stop, b: Flow) {
    match b
    case Arrive(c, _) => Arrived(s, S) && CarryOf(s.code, S) == Strip(c)
    case Out(_, c) => S.pc in l && CarryOf(s.code, S) == Strip(c)
    case Taken => false
  }

  ghost predicate BranchKeeps(s: Gen, e: Exp, s': Gen, l: set<int>, p0: nat, rho0: Regs) {
    && WF(s') && EntryOK(s', p0, rho0) && NoHole(s'.code)
    && s' == s.(code := s'.code, jpc := s'.jpc, lasttarget := |s'.code|)
    && PendingAll(s'.code, l) && l !! s'.jpc
    && Keeps(s.code, s'.code, Own(s, e))
    && (forall j :: j in s'.jpc + l ==> j in Own(s, e) || j >= |s.code|)
  }

  ghost predicate Branches(s: Gen, e: Exp, sh: Shape, truth: bool, S: Stop, s': Gen, l: set<int>, S': Stop) {
    if Mine(s, e, S) then
      && SameBelow(S.regs, S'.regs, s.freereg)
      && forall fl :: At(s, e, S, fl) ==> AtBranch(s', l, S', Branch(sh, fl, truth))
    else S' == S && !Arrived(s', S') && S'.pc !in l
  }

  // Once the lists are known to be intact, marking the label here changes nothing else.
  lemma ClosingKeeps(o: Order, s: Gen, e: Exp, s1: Gen, own: set<int>, here: set<int>, l: set<int>, p0: nat, rho0: Regs)
    requires WF(s) && ExpOK(s, e, p0)
    requires WF(s1) && EntryOK(s1, p0, rho0) && NoHole(s1.code) && s1 == s.(code := s1.code, jpc := s1.jpc)
    requires Keeps(s.code, s1.code, own) && own <= Own(s, e)
    requires PendingAll(s1.code, here) && PendingAll(s1.code, l) && l !! s1.jpc && l !! here
    requires forall j :: j in s1.jpc + l + here ==> j in Own(s, e) || j >= |s.code|
    ensures BranchKeeps(s, e, PatchToHere(s1, here), l, p0, rho0)
    ensures CodeOK(s1.code, |s1.code|)
  {
    forall i | 0 <= i < |s1.code|
      ensures InstrOK(s1.code, |s1.code|, i)
    {
      assert InstrOK(s1.code, s1.lasttarget, i);
    }
  }

  // The lists survive a step that touches only `own`.
  lemma ListsKept(s: Gen, e: Exp, s1: Gen, own: set<int>, p0: nat)
    requires ExpOK(s, e, p0) && Keeps(s.code, s1.code, own) && e.t !! own && e.f !! own
    ensures PendingAll(s1.code, e.t) && PendingAll(s1.code, e.f)
    ensures forall j, rho :: j in e.t + e.f ==> CarryOf(s1.code, Stop(j, rho)) == CarryOf(s.code, Stop(j, rho))
  {
    KeepsPending(s.code, s1.code, own, e.t);
    KeepsPending(s.code, s1.code, own, e.f);
  }

  lemma GoIfTestForm(s: Gen, e: Exp, truth: bool)
    requires !e.k.KJmp? && (e.k.KLit? ==> Truth(e.k.v) != truth && e.k.v != Bool(!truth))
    ensures var s1 := JumpOnCond(s, e.k, !truth);
      GoIf(s, e, truth) == (PatchToHere(s1, if truth then e.t else e.f), (if truth then e.f else e.t) + {|s1.code| - 1})
  {
  }

  lemma GoIfTestKeeps(o: Order, s: Gen, e: Exp, truth: bool, p0: nat, rho0: Regs)
    requires WF(s) && EntryOK(s, p0, rho0) && ExpOK(s, e, p0) && s.freereg < NO_REG
    requires !e.k.KJmp? && (e.k.KLit? ==> Truth(e.k.v) != truth && e.k.v != Bool(!truth))
    ensures var (s', l) := GoIf(s, e, truth); BranchKeeps(s, e, s', l, p0, rho0)
  {
    hide Run, CodeOK, NoHole, Keeps, EntryOK, JumpOnCond, GoIf, Tested, KindOK;
    var here := if truth then e.t else e.f;
    var away := if truth then e.f else e.t;
    var s1 := JumpOnCond(s, e.k, !truth);
    var l := away + {|s1.code| - 1};
    JumpOnCondRun(o, s, e.k, !truth, p0, rho0);
    ListsKept(s, e, s1, s.jpc, p0);
    GoIfTestForm(s, e, truth);
    assert here <= Own(s, e) && away <= Own(s, e) && s.jpc <= Own(s, e);
    assert l !! here by { assert forall j :: j in here ==> 0 <= j < |s.code|; }
    ClosingKeeps(o, s, e, s1, s.jpc, here, l, p0, rho0);
  }

  lemma GoIfTestFlow(o: Order, s: Gen, e: Exp, sh: Shape, truth: bool, p0: nat, rho0: Regs, fl: Flow)
    requires WF(s) && EntryOK(s, p0, rho0) && ExpOK(s, e, p0) && Fits(e.k, sh) && s.freereg < NO_REG
    requires !e.k.KJmp? && (e.k.KLit? ==> Truth(e.k.v) != truth && e.k.v != Bool(!truth))
    requires At(s, e, Run(o, s.code, p0, rho0), fl)
    ensures var (s', l) := GoIf(s, e, truth); AtBranch(s', l, Run(o, s'.code, p0, rho0), Branch(sh, fl, truth))
  {
    hide Run, CodeOK, NoHole, Keeps, JumpOnCond, GoIf, KindOK;
    GoIfTestForm(s, e, truth);
    var s1 := JumpOnCond(s, e.k, !truth);
    JumpOnCondRun(o, s, e.k, !truth, p0, rho0);
    var S, S' := Run(o, s.code, p0, rho0), Run(o, s1.code, p0, rho0);
    assert Tested(s, e.k, !truth, S, s1, S');
    StopKind(o, s, p0, rho0);
    match fl
    case Taken =>
    case Out(b, c) =>
      ListsKept(s, e, s1, s.jpc, p0);
      assert !Arrived(s, S) && S' == S;
    case Arrive(c, v) =>
      assert Arrived(s, S) && Gives(s, e.k, S.regs, v);
      EndIsSafe(s1);
  }

  lemma GoIfTestRun(o: Order, s: Gen, e: Exp, sh: Shape, truth: bool, p0: nat, rho0: Regs)
    requires WF(s) && EntryOK(s, p0, rho0) && ExpOK(s, e, p0) && Fits(e.k, sh) && s.freereg < NO_REG
    requires !e.k.KJmp? && (e.k.KLit? ==> Truth(e.k.v) != truth && e.k.v != Bool(!truth))
    ensures var (s', l) := GoIf(s, e, truth);
      Branches(s, e, sh, truth, Run(o, s.code, p0, rho0), s', l, Run(o, s'.code, p0, rho0))
  {
    var s1 := JumpOnCond(s, e.k, !truth);
    var (s', l) := GoIf(s, e, truth);
    JumpOnCondRun(o, s, e.k, !truth, p0, rho0);
    var S, S' := Run(o, s.code, p0, rho0), Run(o, s1.code, p0, rho0);
    assert Tested(s, e.k, !truth, S, s1, S');
    assert s'.code == s1.code;
    StopKind(o, s, p0, rho0);
    forall fl | At(s, e, S, fl)
      ensures AtBranch(s', l, S', Branch(sh, fl, truth))
    {
      GoIfTestFlow(o, s, e, sh, truth, p0, rho0, fl);
    }
  }

  lemma GoIfJmpKeeps(o: Order, s: Gen, e: Exp, truth: bool, p0: nat, rho0: Regs)
    requires WF(s) && EntryOK(s, p0, rho0) && ExpOK(s, e, p0) && e.k.KJmp?
    ensures var (s', l) := GoIf(s, e, truth); BranchKeeps(s, e, s', l, p0, rho0)
  {
    var p := e.k.pc;
    var here := if truth then e.t else e.f;
    var away := if truth then e.f else e.t;
    var s1 := if truth then Invert(s, p) else s;
    InvertRun(o, s, p, p0, rho0);
    assert GoIf(s, e, truth) == (PatchToHere(s1, here), away + {p});
    ListsKept(s, e, s1, {p}, p0);
    ClosingKeeps(o, s, e, s1, {p}, here, away + {p}, p0, rho0);
  }

  lemma GoIfJmpForm(s: Gen, e: Exp, truth: bool)
    requires e.k.KJmp?
    ensures GoIf(s, e, truth) ==
      (PatchToHere(if truth then Invert(s, e.k.pc) else s, if truth then e.t else e.f),
       (if truth then e.f else e.t) + {e.k.pc})
  {
  }

  lemma GoIfJmpFlow(o: Order, s: Gen, e: Exp, truth: bool, p0: nat, rho0: Regs, fl: Flow)
    requires WF(s) && Safe(s.code, p0) && ExpOK(s, e, p0) && e.k.KJmp?
    requires At(s, e, Run(o, s.code, p0, rho0), fl)
    ensures var (s', l) := GoIf(s, e, truth); AtBranch(s', l, Run(o, s'.code, p0, rho0), Branch(SRel, fl, truth))
  {
    var p := e.k.pc;
    var s1 := if truth then Invert(s, p) else s;
    GoIfJmpForm(s, e, truth);
    InvertRun(o, s, p, p0, rho0);
    var S' := Run(o, s1.code, p0, rho0);
    if fl.Out? {
      ListsKept(s, e, s1, {p}, p0);
      assert S' == Run(o, s.code, p0, rho0);
    } else {
      EndIsSafe(s1);
      assert S'.pc == |s.code| || S'.pc == p;
      assert CarryOf(s1.code, S') == None;
    }
  }

  lemma GoIfJmpRun(o: Order, s: Gen, e: Exp, sh: Shape, truth: bool, p0: nat, rho0: Regs)
    requires WF(s) && EntryOK(s, p0, rho0) && ExpOK(s, e, p0) && Fits(e.k, sh) && e.k.KJmp?
    ensures var (s', l) := GoIf(s, e, truth);
      Branches(s, e, sh, truth, Run(o, s.code, p0, rho0), s', l, Run(o, s'.code, p0, rho0))
  {
    var p := e.k.pc;
    var s1 := if truth then Invert(s, p) else s;
    InvertRun(o, s, p, p0, rho0);
    var (s', l) := GoIf(s, e, truth);
    assert s'.code == s1.code;
    var S, S' := Run(o, s.code, p0, rho0), Run(o, s'.code, p0, rho0);
    StopKind(o, s, p0, rho0);
    forall fl | At(s, e, S, fl)
      ensures AtBranch(s', l, S', Branch(sh, fl, truth))
    {
      GoIfJmpFlow(o, s, e, truth, p0, rho0, fl);
    }
  }

  lemma GoIfLitKeeps(o: Order, s: Gen, e: Exp, truth: bool, p0: nat, rho0: Regs)
    requires WF(s) && EntryOK(s, p0, rho0) && ExpOK(s, e, p0)
    requires e.k.KLit? && (Truth(e.k.v) == truth || e.k.v == Bool(!truth))
    ensures var (s', l) := GoIf(s, e, truth); BranchKeeps(s, e, s', l, p0, rho0)
  {
    var here := if truth then e.t else e.f;
    var away := if truth then e.f else e.t;
    var s1 := if Truth(e.k.v) == truth then s else Jump(s);
    var l := if Truth(e.k.v) == truth then away else away + {|s.code|} + s.jpc;
    JumpRun(o, s, p0, rho0);
    assert GoIf(s, e, truth) == (PatchToHere(s1, here), l);
    ListsKept(s, e, s1, {}, p0);
    assert forall j :: j in here ==> 0 <= j < |s.code|;
    ClosingKeeps(o, s, e, s1, {}, here, l, p0, rho0);
  }

  lemma GoIfLitRun(o: Order, s: Gen, e: Exp, sh: Shape, truth: bool, p0: nat, rho0: Regs)
    requires WF(s) && EntryOK(s, p0, rho0) && ExpOK(s, e, p0) && Fits(e.k, sh)
    requires e.k.KLit? && (Truth(e.k.v) == truth || e.k.v == Bool(!truth))
    ensures var (s', l) := GoIf(s, e, truth);
      Branches(s, e, sh, truth, Run(o, s.code, p0, rho0), s', l, Run(o, s'.code, p0, rho0))
  {
    var s1 := if Truth(e.k.v) == truth then s else Jump(s);
    JumpRun(o, s, p0, rho0);
    var (s', l) := GoIf(s, e, truth);
    assert s'.code == s1.code;
    var S := Run(o, s.code, p0, rho0);
    StopKind(o, s, p0, rho0);
    EndIsSafe(s);
    forall fl | At(s, e, S, fl)
      ensures AtBranch(s', l, S, Branch(sh, fl, truth))
    {
      match fl
      case Taken =>
      case Out(b, c) => ListsKept(s, e, s1, {}, p0);
      case Arrive(c, v) => KeepsPending(s.code, s1.code, {}, s.jpc);
    }
  }

  lemma GoIfRun(o: Order, s: Gen, e: Exp, sh: Shape, truth: bool, p0: nat, rho0: Regs)
    requires WF(s) && EntryOK(s, p0, rho0) && ExpOK(s, e, p0) && Fits(e.k, sh) && s.freereg < NO_REG
    ensures var (s', l) := GoIf(s, e, truth);
      BranchKeeps(s, e, s', l, p0, rho0) &&
      Branches(s, e, sh, truth, Run(o, s.code, p0, rho0), s', l, Run(o, s'.code, p0, rho0))
  {
    if e.k.KJmp? {
      GoIfJmpKeeps(o, s, e, truth, p0, rho0);
      GoIfJmpRun(o, s, e, sh, truth, p0, rho0);
    } else if e.k.KLit? && (Truth(e.k.v) == truth || e.k.v == Bool(!truth)) {
      GoIfLitKeeps(o, s, e, truth, p0, rho0);
      GoIfLitRun(o, s, e, sh, truth, p0, rho0);
    } else {
      GoIfTestKeeps(o, s, e, truth, p0, rho0);
      GoIfTestRun(o, s, e, sh, truth, p0, rho0);
    }
  }
}
