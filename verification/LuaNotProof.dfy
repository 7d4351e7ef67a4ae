/** The operator `not`. */
module LuaNotProof {
  import opened LuaMachine
  import opened LuaExpr
  import opened LuaGen
  import opened LuaRunProof
  import opened LuaStepProof
  import opened LuaExpProof
  import opened LuaCondProof

  // What turning (s, ..., own) into (s', e') keeps.
  ghost predicate ExpKeeps(s: Gen, own: set<int>, s': Gen, e': Exp, p0: nat, rho0: Regs) {
    && WF(s') && EntryOK(s', p0, rho0) && ExpOK(s', e', p0)
    && s'.freereg == s.freereg && s'.nactvar == s.nactvar
    && Keeps(s.code, s'.code, own)
    && forall j :: j in Own(s', e') ==> j in own || j >= |s.code|
  }

  // What it does to a run.
  ghost predicate Negated(s: Gen, k: Kind, S: Stop, s': Gen, k': Kind, S': Stop) {
    if k.KJmp? then
      k' == k && s'.jpc == {} && |s'.code| == |s.code|
      && S' == if S.pc == k.pc then Stop(|s.code|, S.regs) else if S.pc == |s.code| then Stop(k.pc, S.regs) else S
    else if Arrived(s, S) then
      && SameBelow(S.regs, S'.regs, s.freereg)
      && (if k.KLit? then s' == s && S' == S else S'.pc == |s'.code| && k'.KReloc?)
      && forall v :: Gives(s, k, S.regs, v) ==> Gives(s', k', S'.regs, Bool(!Truth(v)))
    else S' == S && S'.pc < |s.code|
  }

  lemma NotValueRun(o: Order, s: Gen, k: Kind, p0: nat, rho0: Regs)
    requires WF(s) && EntryOK(s, p0, rho0) && KindOK(s, k, p0) && s.freereg < NO_REG && (k.KReg? || k.KReloc?)
    ensures var (s', k') := NotKind(s, k);
      && WF(s') && EntryOK(s', p0, rho0) && KindOK(s', k', p0)
      && s' == s.(code := s'.code, jpc := {}) && |s.code| < |s'.code|
      && Keeps(s.code, s'.code, s.jpc)
      && Negated(s, k, Run(o, s.code, p0, rho0), s', k', Run(o, s'.code, p0, rho0))
  {
    StopKind(o, s, p0, rho0);
    DischargeToAnyRun(o, s, k, p0, rho0);
    var (s0, r) := DischargeToAny(s, k);
    var s1 := FreeReg(s0, r);
    EmitRun(o, s1, NotOp(NO_REG, r), p0, rho0);
    var (s', k') := NotKind(s, k);
    assert s' == Emit(s1, NotOp(NO_REG, r)) && k' == KReloc(|s1.code|);
    assert s'.code[..|s1.code|] == Discharge(s1).code;
    DischargeRun(o, s1, p0, rho0);
    KeepsTrans(s.code, s1.code, s'.code, s.jpc, s1.jpc);
    var S, S1, S' := Run(o, s.code, p0, rho0), Run(o, s1.code, p0, rho0), Run(o, s'.code, p0, rho0);
    if Arrived(s, S) {
      assert Gives(s, k, S.regs, Get(S1.regs, r));
      assert S' == Stop(|s'.code|, S1.regs);
    }
  }

  lemma NotKindRun(o: Order, s: Gen, k: Kind, p0: nat, rho0: Regs)
    requires WF(s) && EntryOK(s, p0, rho0) && KindOK(s, k, p0) && s.freereg < NO_REG
    ensures var (s', k') := NotKind(s, k);
      var own := s.jpc + if k.KJmp? then {k.pc} else {};
      && WF(s') && EntryOK(s', p0, rho0) && KindOK(s', k', p0)
      && s' == s.(code := s'.code, jpc := s'.jpc) && s'.jpc <= s.jpc && |s.code| <= |s'.code|
      && Keeps(s.code, s'.code, own) && (k'.KJmp? <==> k.KJmp?) && (k'.KReloc? ==> |s.code| < |s'.code|)
      && Negated(s, k, Run(o, s.code, p0, rho0), s', k', Run(o, s'.code, p0, rho0))
  {
    StopKind(o, s, p0, rho0);
    match k
    case KLit(_) =>
    case KJmp(p) => InvertRun(o, s, p, p0, rho0);
    case _ => NotValueRun(o, s, k, p0, rho0);
  }

  lemma StrikeKeeps(o: Order, s: Gen, k: Kind, l: set<int>, p0: nat, rho0: Regs)
    requires WF(s) && EntryOK(s, p0, rho0) && KindOK(s, k, p0) && PendingAll(s.code, l) && (k.KJmp? ==> k.pc !in l)
    requires l !! s.jpc
    ensures var s' := s.(code := Strike(s.code, l));
      && WF(s') && EntryOK(s', p0, rho0) && KindOK(s', k, p0) && PendingAll(s'.code, l)
      && Keeps(s.code, s'.code, l)
      && Run(o, s'.code, p0, rho0) == Run(o, s.code, p0, rho0)
      && (forall S: Stop :: S.pc in l ==> CarryOf(s'.code, S) == None)
  {
    hide CodeOK, Safe, NoHole, Keeps, PendingAll, Strike, Run, CarryOf, KindOK;
    StrikeOK(s.code, s.lasttarget, l);
    StrikeRun(o, s.code, s.lasttarget, l, p0, rho0);
    StrikeCode(s.code, l);
    StrikeCode(s.code, s.jpc);
    StrikePending(s.code, l, s.jpc);
    StrikePending(s.code, l, l);
    StrikeKind(s, k, l, p0);
  }

  lemma StrikeCode(code: seq<Instr>, l: set<int>)
    requires PendingAll(code, l)
    ensures Keeps(code, Strike(code, l), l) && |Strike(code, l)| == |code|
    ensures forall S: Stop :: S.pc in l ==> CarryOf(Strike(code, l), S) == None
  {
  }

  lemma StrikePending(code: seq<Instr>, l: set<int>, m: set<int>)
    requires PendingAll(code, m)
    ensures PendingAll(Strike(code, l), m)
  {
  }

  lemma StrikeKind(s: Gen, k: Kind, l: set<int>, p0: nat)
    requires KindOK(s, k, p0) && PendingAll(s.code, l) && (k.KJmp? ==> k.pc !in l)
    ensures KindOK(s.(code := Strike(s.code, l)), k, p0)
  {
  }

  lemma KeepsMore(c: seq<Instr>, c': seq<Instr>, own: set<int>, own': set<int>)
    requires Keeps(c, c', own) && own <= own'
    ensures Keeps(c, c', own')
  {
  }

  lemma KeepsLength(c: seq<Instr>, c': seq<Instr>, own: set<int>)
    requires Keeps(c, c', own)
    ensures |c| <= |c'|
  {
  }

  lemma StrikeCarry(s: Gen, l: set<int>)
    requires l !! s.jpc && Safe(s.code, |s.code|)
    ensures forall S: Stop :: Arrived(s, S) ==> CarryOf(Strike(s.code, l), S) == CarryOf(s.code, S)
  {
  }

  lemma CodeNotKeeps(o: Order, s: Gen, e: Exp, p0: nat, rho0: Regs)
    requires WF(s) && EntryOK(s, p0, rho0) && ExpOK(s, e, p0) && s.freereg < NO_REG
    ensures var (s', e') := CodeNot(s, e);
      ExpKeeps(s, Own(s, e), s', e', p0, rho0)
  {
    hide CodeOK, Run, NoHole, Keeps, KindOK, Negated, NotKind, Strike, CarryOf, EntryOK;
    var (s1, k) := NotKind(s, e.k);
    NotKindRun(o, s, e.k, p0, rho0);
    var own := s.jpc + if e.k.KJmp? then {e.k.pc} else {};
    ListsKept(s, e, s1, own, p0);
    var l := e.t + e.f;
    StrikeKeeps(o, s1, k, l, p0, rho0);
    var (s', e') := CodeNot(s, e);
    assert s' == s1.(code := Strike(s1.code, l)) && e' == Exp(k, e.f, e.t);
    KeepsMore(s.code, s1.code, own, Own(s, e));
    KeepsTrans(s.code, s1.code, s'.code, Own(s, e), l);
    KeepsLength(s.code, s1.code, own);
  }

  lemma CodeNotOut(o: Order, s: Gen, e: Exp, p0: nat, rho0: Regs)
    requires WF(s) && EntryOK(s, p0, rho0) && ExpOK(s, e, p0) && s.freereg < NO_REG
    requires Run(o, s.code, p0, rho0).pc in e.t + e.f
    ensures var s' := CodeNot(s, e).0;
      var S := Run(o, s.code, p0, rho0);
      Run(o, s'.code, p0, rho0) == S && CarryOf(s'.code, S) == None
  {
    var (s1, k) := NotKind(s, e.k);
    NotKindRun(o, s, e.k, p0, rho0);
    ListsKept(s, e, s1, s.jpc + if e.k.KJmp? then {e.k.pc} else {}, p0);
    StrikeKeeps(o, s1, k, e.t + e.f, p0, rho0);
  }

  // The result of CodeNot, run.
  lemma CodeNotSteps(o: Order, s: Gen, e: Exp, p0: nat, rho0: Regs)
    requires WF(s) && EntryOK(s, p0, rho0) && ExpOK(s, e, p0) && s.freereg < NO_REG
    ensures var (s1, k) := NotKind(s, e.k);
      var (s', e') := CodeNot(s, e);
      && s'.jpc == s1.jpc && |s'.code| == |s1.code| && e'.k == k
      && Negated(s, e.k, Run(o, s.code, p0, rho0), s1, k, Run(o, s'.code, p0, rho0))
      && (k.KReloc? ==> 0 <= k.pc < |s1.code| && s'.code[k.pc] == s1.code[k.pc])
      && (!e.k.KJmp? ==> forall S: Stop :: Arrived(s1, S) ==> CarryOf(s'.code, S) == CarryOf(s1.code, S))
      && !Valued(s'.code, |s'.code|)
  {
    var (s1, k) := NotKind(s, e.k);
    var l := e.t + e.f;
    NotKindRun(o, s, e.k, p0, rho0);
    ListsKept(s, e, s1, s.jpc + if e.k.KJmp? then {e.k.pc} else {}, p0);
    StrikeKeeps(o, s1, k, l, p0, rho0);
    var s' := s1.(code := Strike(s1.code, l));
    EndIsSafe(s');
    EndIsSafe(s1);
    if !e.k.KJmp? { StrikeCarry(s1, l); }
  }

  lemma GivesSame(s: Gen, s': Gen, k: Kind, rho: Regs, v: Value)
    requires |s.code| == |s'.code| && (k.KReloc? ==> 0 <= k.pc < |s.code| && s'.code[k.pc] == s.code[k.pc])
    ensures Gives(s', k, rho, v) == Gives(s, k, rho, v)
  {
  }

  lemma EndCarryNone(code: seq<Instr>)
    requires !Valued(code, |code|)
    ensures forall S: Stop :: S.pc == |code| ==> CarryOf(code, S) == None
  {
  }

  lemma CodeNotArrive(o: Order, s: Gen, e: Exp, sh: Shape, p0: nat, rho0: Regs, fl: Flow)
    requires WF(s) && EntryOK(s, p0, rho0) && ExpOK(s, e, p0) && Fits(e.k, sh) && s.freereg < NO_REG && !e.k.KJmp?
    requires fl.Arrive? && At(s, e, Run(o, s.code, p0, rho0), fl)
    ensures var (s', e') := CodeNot(s, e);
      var S, S' := Run(o, s.code, p0, rho0), Run(o, s'.code, p0, rho0);
      SameBelow(S.regs, S'.regs, s.freereg) && At(s', e', S', Negate(sh, fl))
  {
    hide CodeOK, Run, NoHole, Keeps, PendingAll, EntryOK, CodeNot, NotKind, KindOK, Gives, WF;
    CodeNotSteps(o, s, e, p0, rho0);
    var (s', e') := CodeNot(s, e);
    EndCarryNone(s'.code);
    GivesSame(NotKind(s, e.k).0, s', e'.k, Run(o, s'.code, p0, rho0).regs, Bool(!Truth(fl.v)));
    assert Gives(s, e.k, Run(o, s.code, p0, rho0).regs, fl.v);
  }

  lemma CodeNotJmp(o: Order, s: Gen, e: Exp, p0: nat, rho0: Regs, fl: Flow)
    requires WF(s) && EntryOK(s, p0, rho0) && ExpOK(s, e, p0) && s.freereg < NO_REG && e.k.KJmp?
    requires !fl.Out? && At(s, e, Run(o, s.code, p0, rho0), fl)
    ensures var (s', e') := CodeNot(s, e);
      var S, S' := Run(o, s.code, p0, rho0), Run(o, s'.code, p0, rho0);
      SameBelow(S.regs, S'.regs, s.freereg) && At(s', e', S', Negate(SRel, fl))
  {
    CodeNotSteps(o, s, e, p0, rho0);
  }

  lemma CodeNotFlow(o: Order, s: Gen, e: Exp, sh: Shape, p0: nat, rho0: Regs, fl: Flow)
    requires WF(s) && EntryOK(s, p0, rho0) && ExpOK(s, e, p0) && Fits(e.k, sh) && s.freereg < NO_REG
    requires At(s, e, Run(o, s.code, p0, rho0), fl)
    ensures var (s', e') := CodeNot(s, e);
      var S, S' := Run(o, s.code, p0, rho0), Run(o, s'.code, p0, rho0);
      SameBelow(S.regs, S'.regs, s.freereg) && At(s', e', S', Negate(sh, fl))
  {
    if fl.Out? {
      CodeNotOut(o, s, e, p0, rho0);
    } else if e.k.KJmp? {
      CodeNotJmp(o, s, e, p0, rho0, fl);
    } else {
      CodeNotArrive(o, s, e, sh, p0, rho0, fl);
    }
  }

  lemma CodeNotRun(o: Order, s: Gen, e: Exp, p0: nat, rho0: Regs)
    requires WF(s) && EntryOK(s, p0, rho0) && ExpOK(s, e, p0) && s.freereg < NO_REG
    requires !Mine(s, e, Run(o, s.code, p0, rho0))
    ensures var (s', e') := CodeNot(s, e);
      var S, S' := Run(o, s.code, p0, rho0), Run(o, s'.code, p0, rho0);
      S' == S && !Mine(s', e', S)
  {
    var (s1, k) := NotKind(s, e.k);
    NotKindRun(o, s, e.k, p0, rho0);
    var own := s.jpc + if e.k.KJmp? then {e.k.pc} else {};
    ListsKept(s, e, s1, own, p0);
    StrikeKeeps(o, s1, k, e.t + e.f, p0, rho0);
    StopKind(o, s, p0, rho0);
  }
}
