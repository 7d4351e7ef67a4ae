/** One generator step at a time: what is kept, and how a run of the code changes. */
module LuaStepProof {
  import opened LuaMachine
  import opened LuaExpr
  import opened LuaGen
  import opened LuaRunProof

  ghost predicate NoHole(code: seq<Instr>) {
    forall i :: 0 <= i < |code| && code[i].NotOp? ==> code[i].a != NO_REG
  }

  ghost predicate WF(s: Gen) {
    && -1 <= s.lasttarget
    && CodeOK(s.code, s.lasttarget)
    && PendingAll(s.code, s.jpc)
    && (s.jpc != {} ==> s.lasttarget == |s.code|)
    && 0 <= s.nactvar <= s.freereg
  }

  // A run may start here: the position has been passed already, or is a label, or the
  // function has no code yet and its temporaries are still nil.
  ghost predicate EntryOK(s: Gen, p0: nat, rho0: Regs) {
    && p0 <= |s.code| && Safe(s.code, p0)
    && (p0 == |s.code| ==>
          s.lasttarget == |s.code| || (|s.code| == 0 && forall r :: s.nactvar <= r ==> Get(rho0, r) == Nil))
  }

  // Pending jumps outside `own` are untouched, and so are their tests.
  ghost predicate Keeps(c: seq<Instr>, c': seq<Instr>, own: set<int>) {
    && |c| <= |c'|
    && forall i :: 0 <= i < |c| && c[i] == Jmp(PENDING) && i !in own ==>
         c'[i] == c[i] && (i >= 1 && (IsTest(c[i - 1]) || IsTest(c'[i - 1])) ==> c'[i - 1] == c[i - 1])
  }

  predicate Arrived(s: Gen, S: Stop) {
    S.pc == |s.code| || S.pc in s.jpc
  }

  // The value the pending jump at S carries along.
  function CarryOf(code: seq<Instr>, S: Stop): Carry {
    if 1 <= S.pc <= |code| && code[S.pc - 1].TestSet? then Some(Get(S.regs, code[S.pc - 1].b)) else None
  }

  ghost predicate SameBut(rho: Regs, rho': Regs, reg: int) {
    forall r :: r != reg ==> Get(rho', r) == Get(rho, r)
  }

  ghost predicate SameBelow(rho: Regs, rho': Regs, n: int) {
    forall r :: r < n ==> Get(rho', r) == Get(rho, r)
  }

  // ----- emitting

  lemma PatchNone(code: seq<Instr>, vt: int, reg: int, dt: int)
    ensures Patch(code, {}, vt, reg, dt) == code
  {
  }

  lemma DischargeRun(o: Order, s: Gen, p0: nat, rho0: Regs)
    requires WF(s) && Safe(s.code, p0)
    ensures var d := Discharge(s);
      var S := Run(o, s.code, p0, rho0);
      && WF(d) && Safe(d.code, p0) && |d.code| == |s.code|
      && Keeps(s.code, d.code, s.jpc)
      && (NoHole(s.code) ==> NoHole(d.code))
      && Run(o, d.code, p0, rho0) == if Arrived(s, S) then Stop(|s.code|, S.regs) else S
  {
    var n := |s.code|;
    var lt := s.lasttarget;
    assert Safe(s.code, n) by {
      if n > 0 { assert InstrOK(s.code, lt, n - 1); }
    }
    PatchOK(s.code, lt, s.jpc, n, NO_REG, n);
    PatchRun(o, s.code, lt, s.jpc, n, NO_REG, n, p0, rho0);
    var d := Discharge(s);
    assert d.code == Patch(s.code, s.jpc, n, NO_REG, n);
    AppendRun(o, s.code, lt, [], p0, rho0);
    forall i | 0 <= i < n && s.code[i] == Jmp(PENDING) && i !in s.jpc
      ensures d.code[i] == s.code[i]
      ensures (i >= 1 && (IsTest(s.code[i - 1]) || IsTest(d.code[i - 1])) ==> d.code[i - 1] == s.code[i - 1])
    {
      assert d.code[i] == PatchAt(s.code, s.jpc, n, NO_REG, n, i);
      if i >= 1 { assert d.code[i - 1] == PatchAt(s.code, s.jpc, n, NO_REG, n, i - 1); }
    }
  }

  lemma EmitRun(o: Order, s: Gen, i: Instr, p0: nat, rho0: Regs)
    requires WF(s) && Safe(s.code, p0) && Plainly(i) && !i.Jmp?
    ensures var s' := Emit(s, i);
      var S := Run(o, s.code, p0, rho0);
      && WF(s') && Safe(s'.code, p0) && |s'.code| == |s.code| + 1 && s'.jpc == {}
      && s'.code[|s.code|] == i
      && Keeps(s.code, s'.code, s.jpc)
      && (NoHole(s.code) && !(i.NotOp? && i.a == NO_REG) ==> NoHole(s'.code))
      && Run(o, s'.code, p0, rho0) == if Arrived(s, S) then Next(o, i, |s.code|, S.regs) else S
  {
    DischargeRun(o, s, p0, rho0);
    var d := Discharge(s);
    var s' := Emit(s, i);
    AppendOK(d.code, s.lasttarget, i);
    AppendRun(o, d.code, s.lasttarget, [i], p0, rho0);
    var S := Run(o, s.code, p0, rho0);
    assert s'.code == d.code + [i];
    if Arrived(s, S) {
      var n := Next(o, i, |s.code|, S.regs);
      assert n.pc == |s'.code|;
      assert Run(o, s'.code, |s.code|, S.regs) == Run(o, s'.code, n.pc, n.regs);
    }
  }

  lemma CondJumpRun(o: Order, s: Gen, i: Instr, p0: nat, rho0: Regs)
    requires WF(s) && Safe(s.code, p0) && IsTest(i) && (i.TestSet? ==> i.a == NO_REG)
    ensures var s' := CondJump(s, i);
      var S := Run(o, s.code, p0, rho0);
      && WF(s') && Safe(s'.code, p0) && |s'.code| == |s.code| + 2 && s'.jpc == {}
      && s'.code[|s.code|] == i && s'.code[|s.code| + 1] == Jmp(PENDING)
      && Keeps(s.code, s'.code, s.jpc)
      && (NoHole(s.code) ==> NoHole(s'.code))
      && Run(o, s'.code, p0, rho0) ==
           if Arrived(s, S) then Stop(|s.code| + (if Passes(o, i, S.regs) then 1 else 2), S.regs) else S
  {
    DischargeRun(o, s, p0, rho0);
    var d := Discharge(s);
    var s' := CondJump(s, i);
    AppendTestOK(d.code, s.lasttarget, i);
    assert s'.code == d.code + [i] + [Jmp(PENDING)] == d.code + [i, Jmp(PENDING)];
    AppendRun(o, d.code, s.lasttarget, [i, Jmp(PENDING)], p0, rho0);
    var S := Run(o, s.code, p0, rho0);
    if Arrived(s, S) {
      var n := Next(o, i, |s.code|, S.regs);
      assert Run(o, s'.code, |s.code|, S.regs) == Run(o, s'.code, n.pc, n.regs);
      assert n.regs == S.regs;
    }
  }

  lemma JumpRun(o: Order, s: Gen, p0: nat, rho0: Regs)
    requires WF(s) && Safe(s.code, p0)
    ensures var s' := Jump(s);
      && WF(s') && Safe(s'.code, p0) && |s'.code| == |s.code| + 1
      && s'.code[|s.code|] == Jmp(PENDING) && PendingAll(s'.code, s.jpc)
      && !Valued(s'.code, |s.code|)
      && Keeps(s.code, s'.code, {})
      && (NoHole(s.code) ==> NoHole(s'.code))
      && Run(o, s'.code, p0, rho0) == Run(o, s.code, p0, rho0)
  {
    AppendOK(s.code, s.lasttarget, Jmp(PENDING));
    AppendRun(o, s.code, s.lasttarget, [Jmp(PENDING)], p0, rho0);
    if |s.code| > 0 { assert InstrOK(s.code, s.lasttarget, |s.code| - 1); }
  }

  // ----- replacing the end of the code

  lemma LastRun(o: Order, base: seq<Instr>, lt: int, i: Instr, p0: nat, rho0: Regs)
    requires CodeOK(base, lt) && Plainly(i) && !i.Jmp? && Safe(base, p0)
    ensures CodeOK(base + [i], lt) && Safe(base + [i], p0)
    ensures var B := Run(o, base, p0, rho0);
      0 <= B.pc <= |base| &&
      Run(o, base + [i], p0, rho0) == if B.pc == |base| then Next(o, i, |base|, B.regs) else B
  {
    AppendOK(base, lt, i);
    AppendRun(o, base, lt, [i], p0, rho0);
    var B := Run(o, base, p0, rho0);
    var N := Next(o, i, |base|, B.regs);
    assert N.pc == |base| + 1;
    assert Run(o, base + [i], |base|, B.regs) == Run(o, base + [i], N.pc, N.regs);
  }

  // Another last instruction acts on the same registers rho.
  lemma ReplaceLastRun(o: Order, s: Gen, i': Instr, p0: nat, rho0: Regs) returns (rho: Regs)
    requires WF(s) && p0 < |s.code| && Safe(s.code, p0) && s.lasttarget < |s.code|
    requires var i := s.code[|s.code| - 1]; Plainly(i) && !i.Jmp? && Plainly(i') && !i'.Jmp?
    ensures var n := |s.code|;
      var s' := s.(code := s.code[n - 1 := i']);
      var S, S' := Run(o, s.code, p0, rho0), Run(o, s'.code, p0, rho0);
      && WF(s') && s.jpc == {} && Safe(s'.code, p0) && Keeps(s.code, s'.code, {})
      && (if S.pc == n then S == Next(o, s.code[n - 1], n - 1, rho) && S' == Next(o, i', n - 1, rho) else S' == S)
  {
    var n := |s.code|;
    var base := s.code[..n - 1];
    if n >= 2 { assert InstrOK(s.code, s.lasttarget, n - 2); }
    CutOK(s.code, s.lasttarget, n - 1);
    assert s.code == base + [s.code[n - 1]];
    assert s.code[n - 1 := i'] == base + [i'];
    LastRun(o, base, s.lasttarget, s.code[n - 1], p0, rho0);
    LastRun(o, base, s.lasttarget, i', p0, rho0);
    rho := Run(o, base, p0, rho0).regs;
  }

  lemma EmitNilRun(o: Order, s: Gen, from: int, p0: nat, rho0: Regs)
    requires WF(s) && EntryOK(s, p0, rho0) && s.nactvar <= from < NO_REG
    ensures var s' := EmitNil(s, from);
      var S, S' := Run(o, s.code, p0, rho0), Run(o, s'.code, p0, rho0);
      && WF(s') && EntryOK(s', p0, rho0) && s'.jpc == {}
      && s' == s.(code := s'.code, jpc := {})
      && Keeps(s.code, s'.code, s.jpc)
      && (NoHole(s.code) ==> NoHole(s'.code))
      && (if Arrived(s, S) then S'.pc == |s'.code| && Get(S'.regs, from) == Nil && SameBut(S.regs, S'.regs, from)
          else S' == S)
  {
    var s' := EmitNil(s, from);
    var n := |s.code|;
    if n > s.lasttarget && n == 0 && from >= s.nactvar {
    } else if n > s.lasttarget && n > 0 && s.code[n - 1].LoadNil?
         && s.code[n - 1].a <= from <= s.code[n - 1].b + 1 {
      ExtendNilRun(o, s, from, p0, rho0);
    } else {
      EmitRun(o, s, LoadNil(from, from), p0, rho0);
      var S := Run(o, s.code, p0, rho0);
      forall r
        ensures Get(PutNil(S.regs, from, from), r) == if r == from then Nil else Get(S.regs, r)
      {
        PutNilGet(S.regs, from, from, r);
      }
    }
  }

  lemma ExtendNilRun(o: Order, s: Gen, from: int, p0: nat, rho0: Regs)
    requires WF(s) && p0 < |s.code| && Safe(s.code, p0) && s.nactvar <= from < NO_REG
    requires |s.code| > s.lasttarget && s.code[|s.code| - 1].LoadNil?
    requires s.code[|s.code| - 1].a <= from <= s.code[|s.code| - 1].b + 1
    ensures var s' := EmitNil(s, from);
      var S, S' := Run(o, s.code, p0, rho0), Run(o, s'.code, p0, rho0);
      && WF(s') && Safe(s'.code, p0) && s'.jpc == {} && |s'.code| == |s.code|
      && Keeps(s.code, s'.code, s.jpc)
      && (NoHole(s.code) ==> NoHole(s'.code))
      && (if Arrived(s, S) then S'.pc == |s'.code| && Get(S'.regs, from) == Nil && SameBut(S.regs, S'.regs, from)
          else S' == S)
  {
    var i := s.code[|s.code| - 1];
    var i' := if from > i.b then LoadNil(i.a, from) else i;
    assert InstrOK(s.code, s.lasttarget, |s.code| - 1);
    assert EmitNil(s, from).code == s.code[|s.code| - 1 := i'];
    var rho := ReplaceLastRun(o, s, i', p0, rho0);
    forall r
      ensures Get(PutNil(rho, i'.a, i'.b), r) == if r == from then Nil else Get(PutNil(rho, i.a, i.b), r)
    {
      PutNilGet(rho, i.a, i.b, r);
      PutNilGet(rho, i'.a, i'.b, r);
    }
  }
}
