/** How each code-generating step changes what a run of the code does. */
module LuaRunProof {
  import opened LuaMachine
  import opened LuaGen

  // A place control may be sent to: never between a test and its jump.
  predicate Safe(code: seq<Instr>, p: int) {
    0 <= p <= |code| && (p > 0 ==> !IsTest(code[p - 1]))
  }

  predicate InstrOK(code: seq<Instr>, lt: int, i: int)
    requires 0 <= i < |code|
  {
    match code[i]
    case Jmp(t) => t == PENDING || (i < t <= lt && Safe(code, t))
    case LoadBool(_, _, skip) => skip ==> i + 2 <= lt && Safe(code, i + 2)
    case TestSet(a, _, _) => i + 1 < |code| && code[i + 1].Jmp? && (a == NO_REG <==> code[i + 1] == Jmp(PENDING))
    case Compare(_, _, _, _) => i + 1 < |code| && code[i + 1].Jmp?
    case Test(_, _) => i + 1 < |code| && code[i + 1].Jmp?
    case LoadNil(a, b) => 0 <= a && b < NO_REG
    case _ => true
  }

  ghost predicate CodeOK(code: seq<Instr>, lt: int) {
    lt <= |code| && forall i :: 0 <= i < |code| ==> InstrOK(code, lt, i)
  }

  ghost predicate PendingAll(code: seq<Instr>, l: set<int>) {
    forall j :: j in l ==> 0 <= j < |code| && code[j] == Jmp(PENDING)
  }

  // ----- appending

  lemma {:induction false} AppendRun(o: Order, code: seq<Instr>, lt: int, more: seq<Instr>, pc: nat, rho: Regs)
    requires CodeOK(code, lt) && pc <= |code|
    ensures var s := Run(o, code, pc, rho);
      0 <= s.pc <= |code| &&
      Run(o, code + more, pc, rho) == if s.pc == |code| then Run(o, code + more, |code|, s.regs) else s
    decreases |code| - pc
  {
    if pc < |code| {
      assert InstrOK(code, lt, pc);
      assert (code + more)[pc] == code[pc];
      var n := Next(o, code[pc], pc, rho);
      if n.pc > pc {
        AppendRun(o, code, lt, more, n.pc, n.regs);
      }
    }
  }

  // ----- patching a list

  // Where a patched jump leads, and with which registers.
  function Landing(code: seq<Instr>, s: Stop, vt: int, reg: int, dt: int): Stop {
    if Valued(code, s.pc) then
      Stop(vt, if reg == NO_REG || reg == code[s.pc - 1].b then s.regs
               else Put(s.regs, reg, Get(s.regs, code[s.pc - 1].b)))
    else Stop(dt, s.regs)
  }

  ghost predicate Targets(code: seq<Instr>, lt: int, l: set<int>, vt: int, dt: int) {
    forall j :: j in l ==>
      var t := if Valued(code, j) then vt else dt;
      j < t <= lt && Safe(code, t)
  }

  lemma {:induction false} PatchOK(code: seq<Instr>, lt: int, l: set<int>, vt: int, reg: int, dt: int)
    requires CodeOK(code, lt) && PendingAll(code, l) && Targets(code, lt, l, vt, dt)
    ensures CodeOK(Patch(code, l, vt, reg, dt), lt)
    ensures forall p :: Safe(code, p) <==> Safe(Patch(code, l, vt, reg, dt), p)
  {
    var c := Patch(code, l, vt, reg, dt);
    forall i | 0 <= i < |code|
      ensures IsTest(c[i]) == IsTest(code[i])
    {
      assert InstrOK(code, lt, i);
    }
    forall i | 0 <= i < |code|
      ensures InstrOK(c, lt, i)
    {
      assert InstrOK(code, lt, i);
    }
  }

  // A passed test and the jump behind it, before and after patching.
  lemma PatchPassed(o: Order, code: seq<Instr>, lt: int, l: set<int>, vt: int, reg: int, dt: int, pc: nat, rho: Regs)
    requires CodeOK(code, lt) && PendingAll(code, l) && Targets(code, lt, l, vt, dt)
    requires pc + 1 < |code| && IsTest(code[pc]) && code[pc + 1].Jmp? && Passes(o, code[pc], rho)
    ensures var c := Patch(code, l, vt, reg, dt);
      var t := code[pc + 1].target;
      if t != PENDING then
        exists r :: t > pc + 1 && Safe(code, t) && Run(o, code, pc, rho) == Run(o, code, t, r) && Run(o, c, pc, rho) == Run(o, c, t, r)
      else
        Run(o, code, pc, rho) == Stop(pc + 1, rho) &&
        if pc + 1 in l then
          var n := Landing(code, Stop(pc + 1, rho), vt, reg, dt);
          n.pc > pc + 1 && Run(o, c, pc, rho) == Run(o, c, n.pc, n.regs)
        else Run(o, c, pc, rho) == Stop(pc + 1, rho)
  {
    var c := Patch(code, l, vt, reg, dt);
    assert InstrOK(code, lt, pc) && InstrOK(code, lt, pc + 1);
    assert c[pc] == PatchAt(code, l, vt, reg, dt, pc);
    assert c[pc + 1] == PatchAt(code, l, vt, reg, dt, pc + 1);
    var t := code[pc + 1].target;
    var n, n' := Next(o, code[pc], pc, rho), Next(o, c[pc], pc, rho);
    assert n.pc == n'.pc == pc + 1;
    assert Run(o, code, pc, rho) == Run(o, code, pc + 1, n.regs);
    assert Run(o, c, pc, rho) == Run(o, c, pc + 1, n'.regs);
    if t != PENDING {
      assert pc + 1 !in l && n' == n;
      assert Run(o, code, pc + 1, n.regs) == Run(o, code, t, n.regs);
      assert Run(o, c, pc + 1, n.regs) == Run(o, c, t, n.regs);
    } else if pc + 1 in l {
      var tt := if Valued(code, pc + 1) then vt else dt;
      assert c[pc + 1] == Jmp(tt);
      assert Run(o, c, pc + 1, n'.regs) == Run(o, c, tt, n'.regs);
    }
  }

  // What patching does to one run.
  ghost predicate Patched(o: Order, code: seq<Instr>, l: set<int>, vt: int, reg: int, dt: int, pc: nat, rho: Regs) {
    var c := Patch(code, l, vt, reg, dt);
    var s := Run(o, code, pc, rho);
    if s.pc in l then
      var t := Landing(code, s, vt, reg, dt);
      t.pc > s.pc >= 0 && Run(o, c, pc, rho) == Run(o, c, t.pc, t.regs)
    else Run(o, c, pc, rho) == s
  }

  lemma PatchedHere(o: Order, code: seq<Instr>, lt: int, l: set<int>, vt: int, reg: int, dt: int, pc: nat, rho: Regs)
    requires CodeOK(code, lt) && PendingAll(code, l) && Targets(code, lt, l, vt, dt)
    requires Safe(code, pc) && pc in l
    ensures Patched(o, code, l, vt, reg, dt, pc, rho)
  {
    var c := Patch(code, l, vt, reg, dt);
    assert c[pc] == PatchAt(code, l, vt, reg, dt, pc);
    assert Run(o, code, pc, rho) == Stop(pc, rho);
    assert Run(o, c, pc, rho) == Run(o, c, dt, rho);
  }

  lemma PatchedStep(o: Order, code: seq<Instr>, lt: int, l: set<int>, vt: int, reg: int, dt: int, pc: nat, rho: Regs)
    requires CodeOK(code, lt)
    requires Safe(code, pc) && pc < |code| && pc !in l && !(IsTest(code[pc]) && Passes(o, code[pc], rho))
    ensures var n := Next(o, code[pc], pc, rho);
      var c := Patch(code, l, vt, reg, dt);
      if n.pc > pc then
        Safe(code, n.pc) && Run(o, code, pc, rho) == Run(o, code, n.pc, n.regs) && Run(o, c, pc, rho) == Run(o, c, n.pc, n.regs)
      else Run(o, code, pc, rho) == Stop(pc, rho) == Run(o, c, pc, rho)
  {
    var c := Patch(code, l, vt, reg, dt);
    assert InstrOK(code, lt, pc);
    assert c[pc] == PatchAt(code, l, vt, reg, dt, pc);
    assert Next(o, c[pc], pc, rho) == Next(o, code[pc], pc, rho);
  }

  lemma {:induction false} PatchRun(o: Order, code: seq<Instr>, lt: int, l: set<int>, vt: int, reg: int, dt: int,
          pc: nat, rho: Regs)
    requires CodeOK(code, lt) && PendingAll(code, l) && Targets(code, lt, l, vt, dt)
    requires Safe(code, pc)
    ensures Patched(o, code, l, vt, reg, dt, pc, rho)
    decreases |code| - pc
  {
    var c := Patch(code, l, vt, reg, dt);
    if pc >= |code| {
    } else if pc in l {
      PatchedHere(o, code, lt, l, vt, reg, dt, pc, rho);
    } else if IsTest(code[pc]) && Passes(o, code[pc], rho) {
      assert InstrOK(code, lt, pc);
      PatchPassed(o, code, lt, l, vt, reg, dt, pc, rho);
      var t := code[pc + 1].target;
      if t != PENDING {
        var r :| t > pc + 1 && Safe(code, t) && Run(o, code, pc, rho) == Run(o, code, t, r) && Run(o, c, pc, rho) == Run(o, c, t, r);
        PatchRun(o, code, lt, l, vt, reg, dt, t, r);
      }
    } else {
      PatchedStep(o, code, lt, l, vt, reg, dt, pc, rho);
      var n := Next(o, code[pc], pc, rho);
      if n.pc > pc {
        PatchRun(o, code, lt, l, vt, reg, dt, n.pc, n.regs);
      }
    }
  }

  // ----- dropping the values carried by a list

  lemma {:induction false} StrikeOK(code: seq<Instr>, lt: int, l: set<int>)
    requires CodeOK(code, lt) && PendingAll(code, l)
    ensures CodeOK(Strike(code, l), lt)
    ensures forall p :: Safe(code, p) <==> Safe(Strike(code, l), p)
  {
    var c := Strike(code, l);
    forall i | 0 <= i < |code|
      ensures InstrOK(c, lt, i)
    {
      assert InstrOK(code, lt, i);
    }
  }

  lemma {:induction false} StrikeRun(o: Order, code: seq<Instr>, lt: int, l: set<int>, pc: nat, rho: Regs)
    requires CodeOK(code, lt) && PendingAll(code, l) && pc <= |code|
    ensures Run(o, Strike(code, l), pc, rho) == Run(o, code, pc, rho)
    decreases |code| - pc
  {
    var c := Strike(code, l);
    if pc < |code| {
      assert InstrOK(code, lt, pc);
      assert c[pc] == (if pc + 1 in l && code[pc].TestSet? then PatchTest(code[pc], NO_REG) else code[pc]);
      var n := Next(o, code[pc], pc, rho);
      assert Next(o, c[pc], pc, rho) == n;
      if n.pc > pc {
        StrikeRun(o, code, lt, l, n.pc, n.regs);
      }
    }
  }

  // ----- cutting off the end of the code

  lemma {:induction false} CutOK(code: seq<Instr>, lt: int, n: nat)
    requires CodeOK(code, lt) && lt <= n && Safe(code, n)
    ensures CodeOK(code[..n], lt)
  {
    var c := code[..n];
    forall i | 0 <= i < n
      ensures InstrOK(c, lt, i)
    {
      assert InstrOK(code, lt, i);
    }
  }

  // An instruction that may be appended on its own.
  predicate Plainly(i: Instr) {
    match i
    case Move(_, _) => true
    case LoadK(_, _) => true
    case LoadBool(_, _, skip) => !skip
    case LoadNil(a, b) => 0 <= a && b < NO_REG
    case NotOp(_, _) => true
    case Jmp(t) => t == PENDING
    case _ => false
  }

  lemma {:induction false} AppendOK(code: seq<Instr>, lt: int, i: Instr)
    requires CodeOK(code, lt)
    requires Plainly(i)
    ensures CodeOK(code + [i], lt)
  {
    var c := code + [i];
    forall k | 0 <= k < |c|
      ensures InstrOK(c, lt, k)
    {
      if k < |code| { assert InstrOK(code, lt, k); }
    }
  }

  lemma {:induction false} AppendTestOK(code: seq<Instr>, lt: int, i: Instr)
    requires CodeOK(code, lt)
    requires IsTest(i) && (i.TestSet? ==> i.a == NO_REG)
    ensures CodeOK(code + [i] + [Jmp(PENDING)], lt)
  {
    var c := code + [i] + [Jmp(PENDING)];
    forall k | 0 <= k < |c|
      ensures InstrOK(c, lt, k)
    {
      if k < |code| { assert InstrOK(code, lt, k); }
    }
  }
}
