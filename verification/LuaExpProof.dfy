/** Expressions under construction: where a run of the code stops, and what it has computed. */
module LuaExpProof {
  import opened LuaMachine
  import opened LuaExpr
  import opened LuaGen
  import opened LuaRunProof
  import opened LuaStepProof

  predicate OwnJump(k: Kind, j: int) {
    k.KJmp? && j == k.pc
  }

  function Own(s: Gen, e: Exp): set<int> {
    s.jpc + e.t + e.f + if e.k.KJmp? then {e.k.pc} else {}
  }

  // The part of an expression outside its jump lists; the code that waits to be finished
  // lies after p0.
  ghost predicate KindOK(s: Gen, k: Kind, p0: nat) {
    match k
    case KLit(_) => NoHole(s.code)
    case KReg(r) => 0 <= r < s.nactvar && NoHole(s.code)
    case KReloc(p) =>
      && p == |s.code| - 1 && p0 <= p && s.lasttarget <= p && s.jpc == {}
      && s.code[p].NotOp? && s.code[p].a == NO_REG && NoHole(s.code[..p])
    case KJmp(p) =>
      && p == |s.code| - 1 && p0 <= p - 1 && s.lasttarget <= p - 1 && s.jpc == {}
      && s.code[p] == Jmp(PENDING) && s.code[p - 1].Compare? && NoHole(s.code)
  }

  ghost predicate ExpOK(s: Gen, e: Exp, p0: nat) {
    && KindOK(s, e.k, p0)
    && PendingAll(s.code, e.t) && PendingAll(s.code, e.f)
    && e.t !! e.f && e.t !! s.jpc && e.f !! s.jpc
    && (e.k.KJmp? ==> e.k.pc !in e.t && e.k.pc !in e.f)
  }

  predicate Fits(k: Kind, sh: Shape) {
    match k
    case KLit(v) => sh == SLit(v)
    case KReg(_) => sh == SLocal
    case KReloc(_) => sh == SNot
    case KJmp(_) => sh == SRel
  }

  // What reaching the end of the code says about the value.
  predicate Gives(s: Gen, k: Kind, rho: Regs, v: Value) {
    match k
    case KLit(w) => v == w
    case KReg(r) => v == Get(rho, r)
    case KReloc(p) => 0 <= p < |s.code| && s.code[p].NotOp? && v == Bool(!Truth(Get(rho, s.code[p].b)))
    case KJmp(_) => v == Bool(false)
  }

  // A run that stopped at S is where fl says.
  predicate At(s: Gen, e: Exp, S: Stop, fl: Flow) {
    match fl
    case Arrive(c, v) => Arrived(s, S) && CarryOf(s.code, S) == Strip(c) && Gives(s, e.k, S.regs, v)
    case Taken => OwnJump(e.k, S.pc)
    case Out(b, c) => S.pc in (if b then e.t else e.f) && CarryOf(s.code, S) == Strip(c)
  }

  predicate Mine(s: Gen, e: Exp, S: Stop) {
    S.pc == |s.code| || S.pc in Own(s, e)
  }

  // ----- facts about stops and lists

  lemma EndIsSafe(s: Gen)
    requires WF(s)
    ensures Safe(s.code, |s.code|)
    ensures forall j :: 0 <= j < |s.code| && s.code[j] == Jmp(PENDING) && j >= 1 && s.code[j - 1].TestSet? ==>
      s.code[j - 1].a == NO_REG
  {
    if |s.code| > 0 { assert InstrOK(s.code, s.lasttarget, |s.code| - 1); }
    forall j | 1 <= j < |s.code| && s.code[j] == Jmp(PENDING) && s.code[j - 1].TestSet?
      ensures s.code[j - 1].a == NO_REG
    {
      assert InstrOK(s.code, s.lasttarget, j - 1);
    }
  }

  lemma KeepsPending(c: seq<Instr>, c': seq<Instr>, own: set<int>, l: set<int>)
    requires Keeps(c, c', own) && PendingAll(c, l) && l !! own
    ensures PendingAll(c', l)
    ensures forall j, rho :: j in l ==> CarryOf(c', Stop(j, rho)) == CarryOf(c, Stop(j, rho))
  {
    forall j | j in l
      ensures c'[j] == Jmp(PENDING)
    {
      assert c[j] == Jmp(PENDING) && j !in own;
    }
  }

  lemma KeepsTrans(c: seq<Instr>, c': seq<Instr>, c'': seq<Instr>, own: set<int>, own': set<int>)
    requires Keeps(c, c', own) && Keeps(c', c'', own')
    requires forall j :: j in own' ==> j in own || j >= |c|
    ensures Keeps(c, c'', own)
  {
    forall i | 0 <= i < |c| && c[i] == Jmp(PENDING) && i !in own
      ensures c''[i] == c[i] && (i >= 1 && (IsTest(c[i - 1]) || IsTest(c''[i - 1])) ==> c''[i - 1] == c[i - 1])
    {
      assert c'[i] == c[i];
    }
  }

  // ----- discharging

  lemma RelocRun(o: Order, s: Gen, p: int, reg: int, p0: nat, rho0: Regs)
    requires WF(s) && Safe(s.code, p0) && KindOK(s, KReloc(p), p0) && s.nactvar <= reg < NO_REG
    ensures var s' := DischargeToReg(s, KReloc(p), reg);
      var S, S' := Run(o, s.code, p0, rho0), Run(o, s'.code, p0, rho0);
      && WF(s') && Safe(s'.code, p0) && NoHole(s'.code) && |s'.code| == |s.code|
      && Keeps(s.code, s'.code, {})
      && (if S.pc == |s.code| then
            S'.pc == |s'.code| && Get(S'.regs, reg) == Bool(!Truth(Get(S.regs, s.code[p].b))) && SameBut(S.regs, S'.regs, reg)
          else S' == S)
  {
    var b := s.code[p].b;
    var s' := DischargeToReg(s, KReloc(p), reg);
    var rho := ReplaceLastRun(o, s, NotOp(reg, b), p0, rho0);
    forall i | 0 <= i < |s'.code| && s'.code[i].NotOp?
      ensures s'.code[i].a != NO_REG
    {
      if i < p { assert s'.code[i] == s.code[..p][i]; }
    }
  }

  lemma DischargeToRegRun(o: Order, s: Gen, k: Kind, reg: int, p0: nat, rho0: Regs)
    requires WF(s) && EntryOK(s, p0, rho0) && KindOK(s, k, p0) && !k.KJmp? && s.nactvar <= reg < NO_REG
    ensures var s' := DischargeToReg(s, k, reg);
      var S, S' := Run(o, s.code, p0, rho0), Run(o, s'.code, p0, rho0);
      && WF(s') && EntryOK(s', p0, rho0) && NoHole(s'.code) && s'.jpc == {}
      && s' == s.(code := s'.code, jpc := {})
      && Keeps(s.code, s'.code, s.jpc)
      && (if Arrived(s, S) then
            S'.pc == |s'.code| && Gives(s, k, S.regs, Get(S'.regs, reg)) && SameBut(S.regs, S'.regs, reg)
          else S' == S)
  {
    match k
    case KLit(Nil) => EmitNilRun(o, s, reg, p0, rho0);
    case KLit(Bool(b)) => EmitRun(o, s, LoadBool(reg, b, false), p0, rho0);
    case KLit(v) => EmitRun(o, s, LoadK(reg, v), p0, rho0);
    case KReg(r) => EmitRun(o, s, Move(reg, r), p0, rho0);
    case KReloc(p) => RelocRun(o, s, p, reg, p0, rho0);
  }

  lemma DischargeToAnyRun(o: Order, s: Gen, k: Kind, p0: nat, rho0: Regs)
    requires WF(s) && EntryOK(s, p0, rho0) && KindOK(s, k, p0) && !k.KJmp? && s.freereg < NO_REG
    ensures var (s', r) := DischargeToAny(s, k);
      var s'' := FreeReg(s', r);
      var S, S' := Run(o, s.code, p0, rho0), Run(o, s'.code, p0, rho0);
      && WF(s'') && EntryOK(s'', p0, rho0) && NoHole(s''.code)
      && s'' == s.(code := s'.code, jpc := s'.jpc) && s'.jpc <= s.jpc
      && r <= s.freereg && (r < s.nactvar || r == s.freereg)
      && Keeps(s.code, s''.code, s.jpc)
      && (if Arrived(s, S) then
            Arrived(s'', S') && Gives(s, k, S.regs, Get(S'.regs, r)) && SameBelow(S.regs, S'.regs, s.freereg)
          else S' == S && !Arrived(s'', S'))
  {
    if !k.KReg? {
      DischargeToRegRun(o, Reserve(s), k, s.freereg, p0, rho0);
      var s' := DischargeToAny(s, k).0;
      AppendRun(o, s.code, s.lasttarget, [], p0, rho0);
      var S := Run(o, s.code, p0, rho0);
      if !Arrived(s, S) { StopKind(o, s, p0, rho0); }
    }
  }

  // Where a run can stop at all.
  lemma {:induction false} StopKind(o: Order, s: Gen, p0: nat, rho0: Regs)
    requires WF(s) && p0 <= |s.code|
    ensures var S := Run(o, s.code, p0, rho0);
      S.pc == |s.code| || (0 <= S.pc < |s.code| && (s.code[S.pc] == Jmp(PENDING) || s.code[S.pc].Return?))
    decreases |s.code| - p0
  {
    if p0 < |s.code| {
      assert InstrOK(s.code, s.lasttarget, p0);
      var n := Next(o, s.code[p0], p0, rho0);
      if n.pc > p0 { StopKind(o, s, n.pc, n.regs); }
    }
  }
}
