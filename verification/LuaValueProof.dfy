/** exp2reg: closing the jump lists of an expression so that its value ends up in a register. */
module LuaValueProof {
  import opened LuaMachine
  import opened LuaExpr
  import opened LuaGen
  import opened LuaRunProof
  import opened LuaStepProof
  import opened LuaExpProof
  import opened LuaCondProof

  // The pair of loads at the end of the code.
  predicate Bools(code: seq<Instr>, reg: int) {
    && |code| >= 2
    && code[|code| - 2] == LoadBool(reg, false, true)
    && code[|code| - 1] == LoadBool(reg, true, false)
  }

  lemma BoolsRun(o: Order, code: seq<Instr>, reg: int, rho: Regs)
    requires Bools(code, reg)
    ensures Run(o, code, |code| - 2, rho) == Stop(|code|, Put(rho, reg, Bool(false)))
    ensures Run(o, code, |code| - 1, rho) == Stop(|code|, Put(rho, reg, Bool(true)))
  {
  }

  lemma RelabelOK(code: seq<Instr>, lt: int)
    requires CodeOK(code, lt)
    ensures CodeOK(code, |code|)
  {
    forall i | 0 <= i < |code|
      ensures InstrOK(code, |code|, i)
    {
      assert InstrOK(code, lt, i);
    }
  }

  // Appending the two loads, the first of which skips the second.
  lemma AppendBoolsOK(code: seq<Instr>, lt: int, reg: int)
    requires CodeOK(code, lt)
    ensures var c := code + [LoadBool(reg, false, true), LoadBool(reg, true, false)]; CodeOK(c, |c|)
  {
    var c := code + [LoadBool(reg, false, true), LoadBool(reg, true, false)];
    forall i | 0 <= i < |c|
      ensures InstrOK(c, |c|, i)
    {
      if i < |code| { assert InstrOK(code, lt, i); }
    }
  }

  lemma EmitBoolsCode(s: Gen, jmp: bool, reg: int)
    requires s.jpc == {}
    ensures var s' := EmitBools(s, jmp, reg);
      var c := if jmp then s.code else s.code + [Jmp(PENDING)];
      && s'.code == c + [LoadBool(reg, false, true), LoadBool(reg, true, false)]
      && s' == s.(code := s'.code, jpc := if jmp then {} else {|s.code|}, lasttarget := |s'.code|)
  {
    var s1 := if jmp then s else Jump(s);
    PatchNone(s1.code, |s1.code|, NO_REG, |s1.code|);
    var s2 := Emit(Label(s1), LoadBool(reg, false, true));
    PatchNone(s2.code, |s2.code|, NO_REG, |s2.code|);
  }

  lemma EmitBoolsRun(o: Order, s: Gen, jmp: bool, reg: int, p0: nat, rho0: Regs)
    requires WF(s) && s.jpc == {} && Safe(s.code, p0) && NoHole(s.code)
    ensures var s' := EmitBools(s, jmp, reg);
      var S, S' := Run(o, s.code, p0, rho0), Run(o, s'.code, p0, rho0);
      && WF(s') && s'.lasttarget == |s'.code| && Safe(s'.code, p0) && NoHole(s'.code) && |s.code| < |s'.code|
      && s' == s.(code := s'.code, jpc := s'.jpc, lasttarget := s'.lasttarget)
      && s'.jpc == (if jmp then {} else {|s.code|}) && !Valued(s'.code, |s.code|)
      && Bools(s'.code, reg) && Keeps(s.code, s'.code, {})
      && S' == if S.pc == |s.code| && jmp then Stop(|s'.code|, Put(S.regs, reg, Bool(false))) else S
  {
    var s' := EmitBools(s, jmp, reg);
    EmitBoolsCode(s, jmp, reg);
    EndIsSafe(s);
    var c := if jmp then s.code else s.code + [Jmp(PENDING)];
    if !jmp { AppendOK(s.code, s.lasttarget, Jmp(PENDING)); }
    AppendBoolsOK(c, s.lasttarget, reg);
    var more := (if jmp then [] else [Jmp(PENDING)]) + [LoadBool(reg, false, true), LoadBool(reg, true, false)];
    assert s'.code == s.code + more;
    AppendRun(o, s.code, s.lasttarget, more, p0, rho0);
    BoolsRun(o, s'.code, reg, Run(o, s.code, p0, rho0).regs);
  }

  // ----- closing both lists

  ghost predicate Closable(code: seq<Instr>, l: set<int>, reg: int, dt: int, last: int) {
    && PendingAll(code, l)
    && forall j :: j in l && !Valued(code, j) ==> dt == last && Bools(code, reg) && j < |code| - 2
  }

  // The registers a jump of a closed list arrives with.
  function Closed(code: seq<Instr>, S: Stop, reg: int, b: bool): Regs {
    if Valued(code, S.pc) then
      (if reg == code[S.pc - 1].b then S.regs else Put(S.regs, reg, Get(S.regs, code[S.pc - 1].b)))
    else Put(S.regs, reg, Bool(b))
  }

  lemma CloseTargets(code: seq<Instr>, l: set<int>, reg: int, dt: int, b: bool)
    requires CodeOK(code, |code|)
    requires Closable(code, l, reg, dt, if b then |code| - 1 else |code| - 2)
    ensures Targets(code, |code|, l, |code|, dt)
  {
    var n := |code|;
    if n >= 1 { assert InstrOK(code, n, n - 1); }
    if n >= 3 { assert InstrOK(code, n, n - 3); }
  }

  lemma PatchKeeps(code: seq<Instr>, l: set<int>, vt: int, reg: int, dt: int)
    ensures Keeps(code, Patch(code, l, vt, reg, dt), l)
    ensures NoHole(code) ==> NoHole(Patch(code, l, vt, reg, dt))
    ensures Bools(code, reg) ==> Bools(Patch(code, l, vt, reg, dt), reg)
  {
    var c := Patch(code, l, vt, reg, dt);
    if Bools(code, reg) {
      assert c[|code| - 2] == PatchAt(code, l, vt, reg, dt, |code| - 2);
      assert c[|code| - 1] == PatchAt(code, l, vt, reg, dt, |code| - 1);
    }
  }

  lemma CloseOne(o: Order, s: Gen, l: set<int>, reg: int, dt: int, b: bool, p0: nat, rho0: Regs)
    requires WF(s) && s.lasttarget == |s.code| && Safe(s.code, p0) && NoHole(s.code) && 0 <= reg < NO_REG
    requires l !! s.jpc && Closable(s.code, l, reg, dt, if b then |s.code| - 1 else |s.code| - 2)
    ensures var s' := s.(code := Patch(s.code, l, |s.code|, reg, dt));
      var S, S' := Run(o, s.code, p0, rho0), Run(o, s'.code, p0, rho0);
      && WF(s') && Safe(s'.code, p0) && NoHole(s'.code) && Keeps(s.code, s'.code, l)
      && (Bools(s.code, reg) ==> Bools(s'.code, reg))
      && S' == if S.pc in l then Stop(|s.code|, Closed(s.code, S, reg, b)) else S
  {
    var n := |s.code|;
    CloseTargets(s.code, l, reg, dt, b);
    PatchOK(s.code, n, l, n, reg, dt);
    PatchKeeps(s.code, l, n, reg, dt);
    var c := Patch(s.code, l, n, reg, dt);
    assert WF(s.(code := c)) by { KeepsPending(s.code, c, l, s.jpc); }
    CloseOneStop(o, s.code, l, reg, dt, b, p0, rho0);
  }

  lemma ClosedRun(o: Order, code: seq<Instr>, c: seq<Instr>, S: Stop, reg: int, dt: int, b: bool)
    requires |c| == |code| && reg != NO_REG
    requires !Valued(code, S.pc) ==> Bools(c, reg) && dt == if b then |c| - 1 else |c| - 2
    ensures var t := Landing(code, S, |code|, reg, dt);
      t.pc >= 0 && Run(o, c, t.pc, t.regs) == Stop(|code|, Closed(code, S, reg, b))
  {
    if !Valued(code, S.pc) { BoolsRun(o, c, reg, S.regs); }
  }

  lemma CloseOneStop(o: Order, code: seq<Instr>, l: set<int>, reg: int, dt: int, b: bool, p0: nat, rho0: Regs)
    requires CodeOK(code, |code|) && Safe(code, p0) && reg != NO_REG
    requires Closable(code, l, reg, dt, if b then |code| - 1 else |code| - 2)
    ensures var S := Run(o, code, p0, rho0);
      Run(o, Patch(code, l, |code|, reg, dt), p0, rho0) ==
        if S.pc in l then Stop(|code|, Closed(code, S, reg, b)) else S
  {
    var n := |code|;
    var c := Patch(code, l, n, reg, dt);
    CloseTargets(code, l, reg, dt, b);
    PatchRun(o, code, n, l, n, reg, dt, p0, rho0);
    PatchKeeps(code, l, n, reg, dt);
    var S := Run(o, code, p0, rho0);
    assert Patched(o, code, l, n, reg, dt, p0, rho0);
    if S.pc in l {
      var t := Landing(code, S, n, reg, dt);
      assert Run(o, c, p0, rho0) == Run(o, c, t.pc, t.regs);
      ClosedRun(o, code, c, S, reg, dt, b);
    }
  }

  function PatchBoth(code: seq<Instr>, t: set<int>, f: set<int>, reg: int, dtf: int, dtt: int): seq<Instr> {
    Patch(Patch(code, f, |code|, reg, dtf), t, |code|, reg, dtt)
  }

  lemma CloseBoth(o: Order, s: Gen, t: set<int>, f: set<int>, reg: int, dtf: int, dtt: int, p0: nat, rho0: Regs)
    requires WF(s) && s.lasttarget == |s.code| && Safe(s.code, p0) && NoHole(s.code) && 0 <= reg < NO_REG
    requires t !! f && t !! s.jpc && f !! s.jpc
    requires Closable(s.code, f, reg, dtf, |s.code| - 2) && Closable(s.code, t, reg, dtt, |s.code| - 1)
    ensures var s' := s.(code := PatchBoth(s.code, t, f, reg, dtf, dtt));
      var S, S' := Run(o, s.code, p0, rho0), Run(o, s'.code, p0, rho0);
      && WF(s') && Safe(s'.code, p0) && NoHole(s'.code) && Keeps(s.code, s'.code, t + f)
      && S' == if S.pc in f then Stop(|s.code|, Closed(s.code, S, reg, false))
               else if S.pc in t then Stop(|s.code|, Closed(s.code, S, reg, true)) else S
  {
    CloseOne(o, s, f, reg, dtf, false, p0, rho0);
    var c1 := Patch(s.code, f, |s.code|, reg, dtf);
    var s1 := s.(code := c1);
    SecondClosable(s.code, t, f, reg, dtf, dtt);
    CloseOne(o, s1, t, reg, dtt, true, p0, rho0);
    KeepsTrans(s.code, c1, Patch(c1, t, |s.code|, reg, dtt), t + f, t + f);
  }

  lemma SecondClosable(code: seq<Instr>, t: set<int>, f: set<int>, reg: int, dtf: int, dtt: int)
    requires t !! f && Closable(code, t, reg, dtt, |code| - 1)
    ensures var c1 := Patch(code, f, |code|, reg, dtf);
      && Closable(c1, t, reg, dtt, |code| - 1)
      && forall S: Stop, b :: S.pc in t ==> Closed(c1, S, reg, b) == Closed(code, S, reg, b)
  {
    var c1 := Patch(code, f, |code|, reg, dtf);
    PatchKeeps(code, f, |code|, reg, dtf);
    forall j | j in t
      ensures c1[j] == code[j] && (Valued(c1, j) <==> Valued(code, j)) && (Valued(code, j) ==> c1[j - 1] == code[j - 1])
    {
      assert c1[j] == PatchAt(code, f, |code|, reg, dtf, j);
      if j >= 1 { assert c1[j - 1] == PatchAt(code, f, |code|, reg, dtf, j - 1); }
    }
  }

  // ----- exp2reg

  // After the value, if any, has been loaded: the lists still pending are t and f.
  ghost predicate LoadedOK(s: Gen, t: set<int>, f: set<int>, p0: nat, rho0: Regs) {
    && WF(s) && EntryOK(s, p0, rho0) && NoHole(s.code) && s.jpc == {}
    && PendingAll(s.code, t) && PendingAll(s.code, f) && t !! f
  }

  // ... and where a run is then.
  predicate LoadedAt(s: Gen, t: set<int>, f: set<int>, jmp: bool, reg: int, S: Stop, v: Value) {
    if S.pc == |s.code| then (if jmp then v == Bool(false) else v == Get(S.regs, reg))
    else if S.pc in t then v == (if Valued(s.code, S.pc) then Get(S.regs, s.code[S.pc - 1].b) else Bool(true))
    else if S.pc in f then v == (if Valued(s.code, S.pc) then Get(S.regs, s.code[S.pc - 1].b) else Bool(false))
    else false
  }

  function Load(s: Gen, k: Kind, reg: int): Gen {
    DischargeToReg(s, k, reg)
  }

  lemma LoadRun(o: Order, s: Gen, e: Exp, reg: int, p0: nat, rho0: Regs)
    requires WF(s) && EntryOK(s, p0, rho0) && ExpOK(s, e, p0) && s.nactvar <= reg < NO_REG
    ensures var s1 := DischargeToReg(s, e.k, reg);
      var e1 := WithOwnJump(e);
      && LoadedOK(s1, e1.t, e1.f, p0, rho0) && s1 == s.(code := s1.code, jpc := {})
      && Keeps(s.code, s1.code, s.jpc)
  {
    var s1 := DischargeToReg(s, e.k, reg);
    if !e.k.KJmp? { DischargeToRegRun(o, s, e.k, reg, p0, rho0); }
    ListsKept(s, e, s1, s.jpc, p0);
  }

  // The jumps of the lists carry what they carried.
  lemma LoadOut(o: Order, s: Gen, e: Exp, reg: int, p0: nat, rho0: Regs)
    requires WF(s) && EntryOK(s, p0, rho0) && ExpOK(s, e, p0) && s.nactvar <= reg < NO_REG
    requires Run(o, s.code, p0, rho0).pc in e.t + e.f
    ensures var s1 := DischargeToReg(s, e.k, reg);
      var S := Run(o, s.code, p0, rho0);
      Run(o, s1.code, p0, rho0) == S && CarryOf(s1.code, S) == CarryOf(s.code, S)
  {
    var s1 := DischargeToReg(s, e.k, reg);
    if !e.k.KJmp? { DischargeToRegRun(o, s, e.k, reg, p0, rho0); }
    ListsKept(s, e, s1, s.jpc, p0);
  }

  lemma LoadFlow(o: Order, s: Gen, e: Exp, reg: int, p0: nat, rho0: Regs, fl: Flow)
    requires WF(s) && EntryOK(s, p0, rho0) && ExpOK(s, e, p0) && s.nactvar <= reg < NO_REG
    requires At(s, e, Run(o, s.code, p0, rho0), fl)
    ensures var s1 := DischargeToReg(s, e.k, reg);
      var e1 := WithOwnJump(e);
      var S, S1 := Run(o, s.code, p0, rho0), Run(o, s1.code, p0, rho0);
      SameBut(S.regs, S1.regs, reg) && LoadedAt(s1, e1.t, e1.f, e.k.KJmp?, reg, S1, Final(fl))
  {
    var S := Run(o, s.code, p0, rho0);
    match fl
    case Out(b, c) =>
      LoadOut(o, s, e, reg, p0, rho0);
    case Taken =>
      assert s.code[e.k.pc - 1].Compare?;
    case Arrive(c, v) =>
      assert Gives(s, e.k, S.regs, v);
      if !e.k.KJmp? { DischargeToRegRun(o, s, e.k, reg, p0, rho0); }
  }

  lemma LoadAway(o: Order, s: Gen, e: Exp, reg: int, p0: nat, rho0: Regs)
    requires WF(s) && EntryOK(s, p0, rho0) && ExpOK(s, e, p0) && s.nactvar <= reg < NO_REG
    requires !Mine(s, e, Run(o, s.code, p0, rho0))
    ensures var s1 := DischargeToReg(s, e.k, reg);
      var S := Run(o, s.code, p0, rho0);
      Run(o, s1.code, p0, rho0) == S && S.pc < |s.code|
  {
    StopKind(o, s, p0, rho0);
    if !e.k.KJmp? { DischargeToRegRun(o, s, e.k, reg, p0, rho0); }
  }

  // The rest of exp2reg.
  function Close(s: Gen, t: set<int>, f: set<int>, jmp: bool, reg: int): Gen {
    if t == {} && f == {} then s
    else
      var need := NeedValue(s.code, t) || NeedValue(s.code, f);
      var s2 := if need then Label(EmitBools(s, jmp, reg)) else Label(s);
      var n := |s2.code|;
      s2.(code := PatchBoth(s2.code, t, f, reg, if need then n - 2 else PENDING, if need then n - 1 else PENDING))
  }

  lemma CloseForm(s: Gen, e: Exp, reg: int)
    ensures var e1 := WithOwnJump(e);
      ExpToReg(s, e, reg) == Close(DischargeToReg(s, e.k, reg), e1.t, e1.f, e.k.KJmp?, reg)
  {
  }

  // exp2reg up to the final patching.
  function BeforeClose(s: Gen, need: bool, jmp: bool, reg: int): Gen {
    Label(if need then EmitBools(s, jmp, reg) else s)
  }

  // The state before the final patching, seen from the one after loading.
  ghost predicate Widened(s: Gen, s2: Gen, t: set<int>, f: set<int>, reg: int, dtf: int, dtt: int, p0: nat) {
    var n := |s2.code|;
    && WF(s2) && s2.lasttarget == n && Safe(s2.code, p0) && NoHole(s2.code) && |s.code| <= n
    && s2 == s.(code := s2.code, jpc := s2.jpc, lasttarget := n)
    && (forall i :: 0 <= i < |s.code| ==> s2.code[i] == s.code[i])
    && (forall j :: j in s2.jpc ==> j == |s.code| && !Valued(s2.code, j))
    && Closable(s2.code, f, reg, dtf, n - 2) && Closable(s2.code, t, reg, dtt, n - 1)
  }

  lemma BeforeCloseRun(o: Order, s: Gen, t: set<int>, f: set<int>, jmp: bool, reg: int, p0: nat, rho0: Regs)
    requires LoadedOK(s, t, f, p0, rho0) && 0 <= reg < NO_REG
    requires jmp ==> NeedValue(s.code, t)
    ensures var need := NeedValue(s.code, t) || NeedValue(s.code, f);
      var s2 := BeforeClose(s, need, jmp, reg);
      var n := |s2.code|;
      && Widened(s, s2, t, f, reg, if need then n - 2 else PENDING, if need then n - 1 else PENDING, p0)
    ensures var need := NeedValue(s.code, t) || NeedValue(s.code, f);
      var s2 := BeforeClose(s, need, jmp, reg);
      var S := Run(o, s.code, p0, rho0);
      if S.pc == |s.code| && jmp then Run(o, s2.code, p0, rho0) == Stop(|s2.code|, Put(S.regs, reg, Bool(false)))
      else Run(o, s2.code, p0, rho0) == S && (S.pc == |s.code| ==> Arrived(s2, S))
  {
    var need := NeedValue(s.code, t) || NeedValue(s.code, f);
    var s2 := BeforeClose(s, need, jmp, reg);
    if need {
      EmitBoolsRun(o, s, jmp, reg, p0, rho0);
      EmitBoolsCode(s, jmp, reg);
    } else {
      RelabelOK(s.code, s.lasttarget);
    }
  }

  lemma CloseSteps(s: Gen, t: set<int>, f: set<int>, jmp: bool, reg: int)
    requires t != {} || f != {}
    ensures var need := NeedValue(s.code, t) || NeedValue(s.code, f);
      var s2 := BeforeClose(s, need, jmp, reg);
      var n := |s2.code|;
      Close(s, t, f, jmp, reg) ==
        s2.(code := PatchBoth(s2.code, t, f, reg, if need then n - 2 else PENDING, if need then n - 1 else PENDING))
  {
  }

  lemma CloseKeeps(o: Order, s: Gen, s2: Gen, t: set<int>, f: set<int>, reg: int, dtf: int, dtt: int, p0: nat,
          rho0: Regs)
    requires LoadedOK(s, t, f, p0, rho0) && 0 <= reg < NO_REG
    requires Widened(s, s2, t, f, reg, dtf, dtt, p0)
    ensures var s' := s2.(code := PatchBoth(s2.code, t, f, reg, dtf, dtt));
      && WF(s') && EntryOK(s', p0, rho0) && NoHole(s'.code)
      && s' == s.(code := s'.code, jpc := s'.jpc, lasttarget := s'.lasttarget)
      && Keeps(s.code, s'.code, t + f)
      && (forall j :: j in s'.jpc ==> j >= |s.code| && !Valued(s'.code, j))
  {
    assert forall j :: j in t + f ==> j < |s.code|;
    CloseBoth(o, s2, t, f, reg, dtf, dtt, p0, rho0);
    var s' := s2.(code := PatchBoth(s2.code, t, f, reg, dtf, dtt));
    assert Keeps(s.code, s2.code, t + f);
    KeepsTrans(s.code, s2.code, s'.code, t + f, t + f);
    forall j | j in s'.jpc
      ensures !Valued(s'.code, j)
    {
      assert s2.code[j] == Jmp(PENDING) && j !in t + f;
    }
  }

  lemma CloseStop(o: Order, s: Gen, s2: Gen, t: set<int>, f: set<int>, reg: int, dtf: int, dtt: int, p0: nat,
          rho0: Regs)
    requires LoadedOK(s, t, f, p0, rho0) && 0 <= reg < NO_REG
    requires Widened(s, s2, t, f, reg, dtf, dtt, p0)
    ensures var s' := s2.(code := PatchBoth(s2.code, t, f, reg, dtf, dtt));
      var S2, S' := Run(o, s2.code, p0, rho0), Run(o, s'.code, p0, rho0);
      S' == if S2.pc in f then Stop(|s'.code|, Closed(s.code, S2, reg, false))
            else if S2.pc in t then Stop(|s'.code|, Closed(s.code, S2, reg, true)) else S2
  {
    assert forall j :: j in t + f ==> j < |s.code|;
    CloseBoth(o, s2, t, f, reg, dtf, dtt, p0, rho0);
    var S2 := Run(o, s2.code, p0, rho0);
    if S2.pc in t + f {
      assert Valued(s2.code, S2.pc) == Valued(s.code, S2.pc);
    }
  }

  lemma Widens(o: Order, s: Gen, t: set<int>, f: set<int>, jmp: bool, reg: int, p0: nat, rho0: Regs)
    returns (s2: Gen, dtf: int, dtt: int)
    requires LoadedOK(s, t, f, p0, rho0) && 0 <= reg < NO_REG && (t != {} || f != {})
    requires jmp ==> NeedValue(s.code, t)
    ensures Widened(s, s2, t, f, reg, dtf, dtt, p0)
    ensures Close(s, t, f, jmp, reg) == s2.(code := PatchBoth(s2.code, t, f, reg, dtf, dtt))
    ensures var S := Run(o, s.code, p0, rho0);
      if S.pc == |s.code| && jmp then Run(o, s2.code, p0, rho0) == Stop(|s2.code|, Put(S.regs, reg, Bool(false)))
      else Run(o, s2.code, p0, rho0) == S && (S.pc == |s.code| ==> Arrived(s2, S))
  {
    var need := NeedValue(s.code, t) || NeedValue(s.code, f);
    s2 := BeforeClose(s, need, jmp, reg);
    BeforeCloseRun(o, s, t, f, jmp, reg, p0, rho0);
    CloseSteps(s, t, f, jmp, reg);
    dtf := if need then |s2.code| - 2 else PENDING;
    dtt := if need then |s2.code| - 1 else PENDING;
  }

  // exp2reg after loading: what it keeps, and where it leads.
  lemma CloseRun(o: Order, s: Gen, t: set<int>, f: set<int>, jmp: bool, reg: int, p0: nat, rho0: Regs)
    requires LoadedOK(s, t, f, p0, rho0) && 0 <= reg < NO_REG && (t != {} || f != {})
    requires jmp ==> NeedValue(s.code, t)
    ensures var s' := Close(s, t, f, jmp, reg);
      && WF(s') && EntryOK(s', p0, rho0) && NoHole(s'.code)
      && s' == s.(code := s'.code, jpc := s'.jpc, lasttarget := s'.lasttarget)
      && Keeps(s.code, s'.code, t + f)
      && (forall j :: j in s'.jpc ==> j >= |s.code| && !Valued(s'.code, j))
    ensures var s' := Close(s, t, f, jmp, reg);
      var S, S' := Run(o, s.code, p0, rho0), Run(o, s'.code, p0, rho0);
      if S.pc in f then S' == Stop(|s'.code|, Closed(s.code, S, reg, false))
      else if S.pc in t then S' == Stop(|s'.code|, Closed(s.code, S, reg, true))
      else if S.pc == |s.code| then Arrived(s', S') && S'.regs == (if jmp then Put(S.regs, reg, Bool(false)) else S.regs)
      else S' == S && S.pc < |s.code|
  {
    var s2, dtf, dtt := Widens(o, s, t, f, jmp, reg, p0, rho0);
    CloseKeeps(o, s, s2, t, f, reg, dtf, dtt, p0, rho0);
    CloseStop(o, s, s2, t, f, reg, dtf, dtt, p0, rho0);
    StopKind(o, s, p0, rho0);
    assert forall j :: j in t + f ==> j < |s.code|;
  }
}
