/** lcode.c: the code generator over a growing code array, its jump lists threaded through
    the array itself.  The ghost field `abs` is the same generator with lists as sets. */
module LuaCode {
  import opened LuaMachine
  import opened LuaExpr
  import opened LuaGen
  import opened LuaThreads
  import opened LuaRunProof
  import opened LuaStepProof
  import opened LuaExpProof
  import opened LuaCondProof
  import opened LuaNotProof
  import opened LuaValueProof
  import opened LuaOperandProof
  import opened LuaCompileProof

  // ----- patched code, element by element

  // Patching one more jump touches that jump and its test only.
  lemma PatchOneMore(code: seq<Instr>, s: set<int>, j: int, vt: int, reg: int, dt: int, i: int)
    requires 0 <= i < |code| && 0 <= j < |code| && code[j].Jmp? && j !in s
    ensures PatchAt(code, s + {j}, vt, reg, dt, i) ==
      if i == j then Jmp(if Valued(code, j) then vt else dt)
      else if i == j - 1 && code[i].TestSet? then PatchTest(code[i], reg)
      else PatchAt(code, s, vt, reg, dt, i)
  {
  }

  // getjumpcontrol
  function TestPos(code: seq<Instruction>, pc: int): int
    requires 0 <= pc < |code|
  {
    if pc >= 1 && TestTMode(code[pc - 1]) then pc - 1 else pc
  }

  // The jumps outside own, with their links, are as before.
  ghost predicate KeptJumps(c: seq<Instruction>, c': seq<Instruction>, own: set<int>) {
    |c| <= |c'| && forall i :: 0 <= i < |c| && c[i].OP_JMP? && i !in own ==> c'[i] == c[i]
  }

  lemma ListKept(c: seq<Instruction>, c': seq<Instruction>, own: set<int>, head: int, s: set<int>)
    requires IsList(c, head, s) && KeptJumps(c, c', own) && s !! own
    ensures IsList(c', head, s)
  {
    var q :| Threads(c, head, q) && Elems(q) == s;
    ThreadsMembers(c, head, q);
    forall j | j in q
      ensures c'[j] == c[j]
    {
      assert j in Elems(q);
    }
    ThreadsFrame(c, c', head, q);
  }

  lemma EmptyList(c: seq<Instruction>)
    ensures IsList(c, NO_JUMP, {})
  {
    assert Threads(c, NO_JUMP, []) && Elems([]) == {};
  }

  lemma SingleList(c: seq<Instruction>, j: int)
    requires 0 <= j < |c| && c[j] == OP_JMP(NO_JUMP)
    ensures IsList(c, j, {j})
  {
    assert [j][1..] == [];
    assert Threads(c, j, [j]);
    assert Elems([j]) == {j};
  }

  lemma ListHead(c: seq<Instruction>, head: int, s: set<int>)
    requires IsList(c, head, s)
    ensures s == {} <==> head == NO_JUMP
    ensures s != {} ==> head in s
    ensures forall j :: j in s ==> 0 <= j < |c| && c[j].OP_JMP?
  {
    var q :| Threads(c, head, q) && Elems(q) == s;
    ThreadsMembers(c, head, q);
    if q != [] { assert head in Elems(q); }
  }

  function PatchedTest(c: Instruction, reg: int): Instruction
    requires c.OP_TESTSET?
  {
    if reg != NO_REG && reg != c.b then OP_TESTSET(reg, c.b, c.c) else OP_TEST(c.b, c.c)
  }

  lemma TestPosValued(k: seq<Value>, code: seq<Instruction>, a: seq<Instr>, j: int)
    requires SameCode(k, code, a) && 0 <= j < |code| && code[j].OP_JMP?
    ensures code[TestPos(code, j)].OP_TESTSET? <==> Valued(a, j)
    ensures Valued(a, j) ==> TestPos(code, j) == j - 1
  {
    if j >= 1 { assert Same(k, j - 1, code[j - 1], a[j - 1]); }
  }

  // The first n elements of a list.
  function Done(q: seq<int>, n: nat): set<int>
    requires n <= |q|
  {
    Elems(q[..n])
  }

  lemma DoneNext(code: seq<Instruction>, head: int, q: seq<int>, n: nat)
    requires Threads(code, head, q) && n < |q|
    ensures Done(q, n + 1) == Done(q, n) + {q[n]} && q[n] !in Done(q, n)
  {
    forall i | 0 <= i < n
      ensures q[i] != q[n]
    {
      ThreadsDistinct(code, head, q, i, n);
    }
    assert q[..n + 1] == q[..n] + [q[n]];
  }

  // The code with the jumps of s patched, code0 and a being the code before.
  ghost predicate Partly(k: seq<Value>, code: seq<Instruction>, code0: seq<Instruction>, a: seq<Instr>, s: set<int>,
          vt: int, reg: int, dt: int) {
    && |code| == |code0| == |a|
    && (forall i :: 0 <= i < |code| ==> Same(k, i, code[i], PatchAt(a, s, vt, reg, dt, i)))
    && (forall i :: 0 <= i < |code| && code0[i].OP_JMP? && i !in s ==> code[i] == code0[i])
  }

  function PatchedOne(code: seq<Instruction>, j: int, vt: int, reg: int, dt: int): seq<Instruction>
    requires 0 <= j < |code| && code[j].OP_JMP?
  {
    if code[TestPos(code, j)].OP_TESTSET? then
      code[TestPos(code, j) := PatchedTest(code[TestPos(code, j)], reg)][j := OP_JMP(vt - (j + 1))]
    else code[j := OP_JMP(dt - (j + 1))]
  }

  lemma PartlyNext(k: seq<Value>, code: seq<Instruction>, code0: seq<Instruction>, a: seq<Instr>, s: set<int>, j: int,
          vt: int, reg: int, dt: int)
    requires Partly(k, code, code0, a, s, vt, reg, dt)
    requires j !in s && 0 <= j < |code| && a[j] == Jmp(PENDING) && code[j].OP_JMP?
    ensures Partly(k, PatchedOne(code, j, vt, reg, dt), code0, a, s + {j}, vt, reg, dt)
  {
    var c := PatchedOne(code, j, vt, reg, dt);
    if j >= 1 { assert Same(k, j - 1, code[j - 1], PatchAt(a, s, vt, reg, dt, j - 1)); }
    forall i | 0 <= i < |code|
      ensures Same(k, i, c[i], PatchAt(a, s + {j}, vt, reg, dt, i))
    {
      PatchOneMore(a, s, j, vt, reg, dt, i);
      assert Same(k, i, code[i], PatchAt(a, s, vt, reg, dt, i));
    }
  }

  lemma PartlyStart(k: seq<Value>, code: seq<Instruction>, a: seq<Instr>, vt: int, reg: int, dt: int)
    requires SameCode(k, code, a)
    ensures Partly(k, code, code, a, {}, vt, reg, dt)
  {
    forall i | 0 <= i < |code|
      ensures Same(k, i, code[i], PatchAt(a, {}, vt, reg, dt, i))
    {
      assert Same(k, i, code[i], a[i]);
    }
  }

  lemma PartlyAt(k: seq<Value>, code: seq<Instruction>, code0: seq<Instruction>, a: seq<Instr>, s: set<int>, j: int,
          vt: int, reg: int, dt: int)
    requires Partly(k, code, code0, a, s, vt, reg, dt) && 0 <= j < |code0| && code0[j].OP_JMP? && j !in s
    ensures |code| == |code0| && code[j] == code0[j]
  {
  }

  lemma PartlyEnd(k: seq<Value>, code: seq<Instruction>, code0: seq<Instruction>, a: seq<Instr>, q: seq<int>, vt: int,
          reg: int, dt: int)
    requires Partly(k, code, code0, a, Elems(q), vt, reg, dt)
    ensures SameCode(k, code, Patch(a, Elems(q), vt, reg, dt)) && |code| == |code0|
    ensures forall i :: 0 <= i < |code| && i !in q && code0[i].OP_JMP? ==> code[i] == code0[i]
  {
    hide PatchAt, Same;
  }

  // The code with the values of the jumps of s removed.
  ghost predicate Struck(k: seq<Value>, code: seq<Instruction>, code0: seq<Instruction>, a: seq<Instr>, s: set<int>) {
    SameCode(k, code, Strike(a, s)) && |code| == |code0| && forall i :: 0 <= i < |code| && code0[i].OP_JMP? ==> code[i] == code0[i]
  }

  lemma StruckStart(k: seq<Value>, code: seq<Instruction>, a: seq<Instr>)
    requires SameCode(k, code, a)
    ensures Struck(k, code, code, a, {})
  {
    assert Strike(a, {}) == a;
  }

  lemma StruckAt(k: seq<Value>, code: seq<Instruction>, code0: seq<Instruction>, a: seq<Instr>, s: set<int>, j: int)
    requires Struck(k, code, code0, a, s) && 0 <= j < |code0| && code0[j].OP_JMP?
    ensures |code| == |code0| && code[j] == code0[j]
  {
  }

  lemma StruckEnd(k: seq<Value>, code: seq<Instruction>, code0: seq<Instruction>, a: seq<Instr>, s: set<int>)
    requires Struck(k, code, code0, a, s)
    ensures SameCode(k, code, Strike(a, s)) && |code| == |code0|
    ensures forall i :: 0 <= i < |code| && code0[i].OP_JMP? ==> code[i] == code0[i]
  {
    hide SameCode, Strike;
  }

  lemma StrikeNext(k: seq<Value>, code: seq<Instruction>, code0: seq<Instruction>, a: seq<Instr>, s: set<int>, j: int)
    requires Struck(k, code, code0, a, s) && j !in s && 0 <= j < |code| && a[j] == Jmp(PENDING) && code[j].OP_JMP?
    ensures var i := TestPos(code, j);
      Struck(k, if code[i].OP_TESTSET? then code[i := PatchedTest(code[i], NO_REG)] else code, code0, a, s + {j})
  {
    if j >= 1 { assert Same(k, j - 1, code[j - 1], Strike(a, s)[j - 1]); }
    var t := TestPos(code, j);
    var c := if code[t].OP_TESTSET? then code[t := PatchedTest(code[t], NO_REG)] else code;
    forall i | 0 <= i < |code|
      ensures Same(k, i, c[i], Strike(a, s + {j})[i])
    {
      assert Same(k, i, code[i], Strike(a, s)[i]);
    }
  }

  lemma ListStart(code: seq<Instruction>, head: int, q: seq<int>)
    requires Threads(code, head, q)
    ensures Done(q, 0) == {} && head == if q == [] then NO_JUMP else q[0]
  {
    ThreadsMembers(code, head, q);
  }

  // One step along a list.
  lemma ListStep(code: seq<Instruction>, head: int, q: seq<int>, n: nat)
    requires Threads(code, head, q) && n <= |q|
    ensures n < |q| ==> 0 <= q[n] < |code| && code[q[n]].OP_JMP? && q[n] in q
    ensures n < |q| ==> GetJump(code, q[n]) == if n + 1 == |q| then NO_JUMP else q[n + 1]
    ensures n < |q| ==> Done(q, n + 1) == Done(q, n) + {q[n]} && q[n] !in Done(q, n)
  {
    if n < |q| {
      ThreadsFrom(code, head, q, n + 1);
      DoneNext(code, head, q, n);
    }
  }

  lemma DoneAll(q: seq<int>)
    ensures Done(q, |q|) == Elems(q)
  {
    assert q[..|q|] == q;
  }

  // ----- expression descriptors

  datatype ExpKind = VNIL | VTRUE | VFALSE | VK | VKNUM | VLOCAL | VNONRELOC | VRELOCABLE | VJMP

  datatype ExpDesc = ExpDesc(k: ExpKind, info: int, nval: real, t: int, f: int)

  // hasjumps
  predicate HasJumps(e: ExpDesc) {
    e.t != e.f
  }

  predicate KindRep(k: seq<Value>, e: ExpDesc, g: Kind) {
    match e.k
    case VNIL => g == KLit(Nil)
    case VTRUE => g == KLit(Bool(true))
    case VFALSE => g == KLit(Bool(false))
    case VKNUM => g == KLit(Num(e.nval))
    case VK => g.KLit? && g.v.Str? && 0 <= e.info < |k| && k[e.info] == g.v
    case VLOCAL => g == KReg(e.info)
    case VNONRELOC => g == KReg(e.info)
    case VRELOCABLE => g == KReloc(e.info)
    case VJMP => g == KJmp(e.info)
  }

  ghost predicate ExpRep(k: seq<Value>, code: seq<Instruction>, e: ExpDesc, g: Exp) {
    && KindRep(k, e, g.k) && IsList(code, e.t, g.t) && IsList(code, e.f, g.f)
    && (g.k.KJmp? ==> IsList(code, g.k.pc, {g.k.pc}))
  }

  function LiteralOf(e: ExpDesc): Value {
    match e.k
    case VKNUM => Num(e.nval)
    case VTRUE => Bool(true)
    case VFALSE => Bool(false)
    case _ => Nil
  }

  // A descriptor that luaK_exp2RK has turned into an operand.
  predicate OperandRep(k: seq<Value>, e: ExpDesc, x: Operand) {
    && e.t == NO_JUMP && e.f == NO_JUMP
    && match x
       case Reg(r) => e.k == VNONRELOC && e.info == r && 0 <= r < BITRK
       case Const(v) => e.k == VK && 0 <= e.info <= MAXINDEXRK && e.info < |k| && k[e.info] == v
  }

  lemma ExpKept(k: seq<Value>, k': seq<Value>, c: seq<Instruction>, c': seq<Instruction>, own: set<int>, e: ExpDesc,
          g: Exp)
    requires ExpRep(k, c, e, g) && KeptJumps(c, c', own) && g.t !! own && g.f !! own && k <= k'
    requires g.k.KJmp? ==> g.k.pc !in own
    ensures ExpRep(k', c', e, g)
  {
    ListKept(c, c', own, e.t, g.t);
    ListKept(c, c', own, e.f, g.f);
    if g.k.KJmp? { ListKept(c, c', own, g.k.pc, {g.k.pc}); }
  }

  lemma SameLength(k: seq<Value>, code: seq<Instruction>, a: seq<Instr>)
    requires SameCode(k, code, a)
    ensures |code| == |a|
  {
  }

  // A local variable is where it is.
  lemma LocalRep(k: seq<Value>, c: seq<Instruction>, e: ExpDesc, g: Exp)
    requires ExpRep(k, c, e, g)
    ensures ExpRep(k, c, if e.k == VLOCAL then e.(k := VNONRELOC) else e, g)
  {
  }

  lemma RepLists(k: seq<Value>, c: seq<Instruction>, e: ExpDesc, g: Exp)
    requires ExpRep(k, c, e, g)
    ensures IsList(c, e.t, g.t) && IsList(c, e.f, g.f) && KindRep(k, e, g.k)
    ensures g.k.KJmp? ==> IsList(c, g.k.pc, {g.k.pc}) && e.k == VJMP && e.info == g.k.pc
  {
  }

  lemma JumpRep(k: seq<Value>, c: seq<Instruction>, e: ExpDesc)
    requires e.k == VJMP && e.t == NO_JUMP && e.f == NO_JUMP && IsList(c, e.info, {e.info})
    ensures ExpRep(k, c, e, Exp(KJmp(e.info), {}, {}))
  {
    EmptyList(c);
  }

  // The lists of an expression are apart.
  lemma ExpLists(s: Gen, g: Exp)
    requires ExpOK(s, g, 0)
    ensures g.t !! g.f && g.t !! s.jpc && g.f !! s.jpc && (g.k.KJmp? ==> g.k.pc !in g.t + g.f && s.jpc == {})
    ensures PendingAll(s.code, g.t) && PendingAll(s.code, g.f) && g.t <= Own(s, g) && g.f <= Own(s, g)
  {
  }

  lemma ExpJoined(k: seq<Value>, c: seq<Instruction>, c': seq<Instruction>, e: ExpDesc, e': ExpDesc, g: Exp,
          exits: set<int>, conj: bool)
    requires ExpRep(k, c, e, g) && g.t !! g.f && (g.k.KJmp? ==> g.k.pc !in g.t + g.f)
    requires KeptJumps(c, c', if conj then g.f else g.t)
    requires IsList(c', if conj then e'.f else e'.t, (if conj then g.f else g.t) + exits)
    requires e' == if conj then e.(f := e'.f) else e.(t := e'.t)
    ensures ExpRep(k, c', e', Joined(g, exits, conj))
  {
    hide IsList, KeptJumps;
    if conj { ListKept(c, c', g.f, e.t, g.t); } else { ListKept(c, c', g.t, e.f, g.f); }
    if g.k.KJmp? { ListKept(c, c', if conj then g.f else g.t, g.k.pc, {g.k.pc}); }
  }

  // What the two branches of a condition start from.
  lemma BranchFacts(s: Gen, k: seq<Value>, c: seq<Instruction>, e: ExpDesc, g: Exp)
    requires ExpRep(k, c, e, g) && ExpOK(s, g, 0) && SameCode(k, c, s.code) && WF(s)
    ensures KindRep(k, e, g.k) && KindOK(s, g.k, 0) && PendingAll(s.code, s.jpc) && |c| == |s.code|
    ensures KeptJumps(c, c, s.jpc)
    ensures g.k.KJmp? ==> IsList(c, g.k.pc, {g.k.pc})
  {
  }

  lemma KeptSelf(c: seq<Instruction>, own: set<int>)
    ensures KeptJumps(c, c, own)
  {
  }

  lemma KeptMore(c: seq<Instruction>, c': seq<Instruction>, own: set<int>, own': set<int>)
    requires KeptJumps(c, c', own) && own <= own'
    ensures KeptJumps(c, c', own')
  {
  }

  lemma HasJumpsIff(k: seq<Value>, c: seq<Instruction>, e: ExpDesc, g: Exp)
    requires ExpRep(k, c, e, g) && g.t !! g.f
    ensures HasJumps(e) <==> g.t != {} || g.f != {}
    ensures (g.t == {} <==> e.t == NO_JUMP) && (g.f == {} <==> e.f == NO_JUMP)
  {
    ListHead(c, e.t, g.t);
    ListHead(c, e.f, g.f);
  }

  lemma KeptTrans(c: seq<Instruction>, c': seq<Instruction>, c'': seq<Instruction>, own: set<int>, own': set<int>)
    requires KeptJumps(c, c', own) && KeptJumps(c', c'', own')
    requires forall j :: j in own' ==> j in own || j >= |c|
    ensures KeptJumps(c, c'', own)
  {
  }

  lemma NextRegForm(s: Gen, g: Exp)
    requires WF(s) && ExpOK(s, g, 0)
    ensures var s1 := s.(freereg := s.freereg + 1);
      && FreeKind(s, g.k) == s && ExpToNextReg(s, g) == ExpToReg(s1, g, s.freereg)
      && WF(s1) && ExpOK(s1, g, 0) && Own(s1, g) == Own(s, g)
  {
  }

  // Freeing the register of an expression that is a local variable changes nothing.
  lemma FreeHolds(s: Gen, k: seq<Value>, c: seq<Instruction>, e: ExpDesc, g: Exp)
    requires WF(s) && ExpRep(k, c, e, g) && ExpOK(s, g, 0) && s.freereg < MAXSTACK
    ensures e.k == VNONRELOC || e.k == VLOCAL ==> e.info < BITRK && FreeReg(s, e.info) == s
    ensures 0 <= s.nactvar <= s.freereg && (e.k == VNONRELOC || e.k == VLOCAL ==> 0 <= e.info)
  {
  }

  // A value that can be put into any register is a negation at the end of the code.
  lemma RelocNot(s: Gen, k: seq<Value>, c: seq<Instruction>, g: Kind)
    requires KindOK(s, g, 0) && SameCode(k, c, s.code)
    ensures g.KReloc? ==> 0 <= g.pc == |s.code| - 1 && |c| == |s.code| && c[g.pc].OP_NOT? && s.code[g.pc].NotOp?
  {
    if g.KReloc? { assert Same(k, g.pc, c[g.pc], s.code[g.pc]); }
  }

  lemma AnyPending(s: Gen, g: Kind)
    requires WF(s) && KindOK(s, g, 0) && !g.KJmp? && s.freereg < MAXSTACK
    ensures var (s', r) := DischargeToAny(s, g); PendingAll(s'.code, s'.jpc) && s'.jpc <= s.jpc && r < BITRK
  {
    hide KindOK, DischargeToAny;
    EntryAtStart(s);
    DischargeToAnyRun(SOME_ORDER, s, g, 0, map[]);
  }

  // GoIf before the lists are closed: the state, and the new jumps of the list that leaves.
  function GoIfMid(s: Gen, e: Exp, truth: bool): (Gen, set<int>) {
    match e.k
    case KJmp(p) => (if truth then Invert(s, p) else s, {p})
    case KLit(v) =>
      if Truth(v) == truth then (s, {})
      else if v == Bool(!truth) then (LuaGen.Jump(s), {|s.code|} + s.jpc)
      else (LuaGen.JumpOnCond(s, e.k, !truth), {|LuaGen.JumpOnCond(s, e.k, !truth).code| - 1})
    case _ => (LuaGen.JumpOnCond(s, e.k, !truth), {|LuaGen.JumpOnCond(s, e.k, !truth).code| - 1})
  }

  lemma GoIfMidIs(s: Gen, e: Exp, truth: bool)
    ensures var s1 := LuaGen.JumpOnCond(s, e.k, !truth);
      GoIfMid(s, e, truth) ==
        if e.k.KJmp? then (if truth then Invert(s, e.k.pc) else s, {e.k.pc})
        else if e.k.KLit? && Truth(e.k.v) == truth then (s, {})
        else if e.k == KLit(Bool(!truth)) then (LuaGen.Jump(s), {|s.code|} + s.jpc)
        else (s1, {|s1.code| - 1})
  {
  }

  lemma GoIfMidForm(s: Gen, e: Exp, truth: bool)
    ensures var (s1, gp) := GoIfMid(s, e, truth);
      GoIf(s, e, truth) == (LuaGen.PatchToHere(s1, if truth then e.t else e.f), (if truth then e.f else e.t) + gp)
  {
    var (s1, gp) := GoIfMid(s, e, truth);
    var away := if truth then e.f else e.t;
    assert away + {} == away;
    assert away + ({|s.code|} + s.jpc) == away + {|s.code|} + s.jpc;
  }

  lemma GoIfMidOK(s: Gen, e: Exp, truth: bool)
    requires WF(s) && ExpOK(s, e, 0) && s.freereg < NO_REG
    ensures var (s1, gp) := GoIfMid(s, e, truth);
      && PendingAll(s1.code, s1.jpc) && PendingAll(s1.code, e.t) && PendingAll(s1.code, e.f)
      && e.t !! e.f && e.t !! gp && e.f !! gp && s1.jpc !! e.t && s1.jpc !! e.f && s1.jpc !! gp
      && s1.jpc <= s.jpc && |s.code| <= |s1.code| && (forall j :: j in gp ==> j in Own(s, e) || j >= |s.code|)
  {
    EntryAtStart(s);
    var (s1, gp) := GoIfMid(s, e, truth);
    assert forall j :: j in e.t + e.f ==> j < |s.code|;
    match e.k {
      case KJmp(p) =>
        InvertRun(SOME_ORDER, s, p, 0, map[]);
        ListsKept(s, e, s1, {p}, 0);
      case KLit(v) =>
        if Truth(v) == truth || v == Bool(!truth) {
          JumpRun(SOME_ORDER, s, 0, map[]);
          ListsKept(s, e, s1, {}, 0);
        } else {
          JumpOnCondRun(SOME_ORDER, s, e.k, !truth, 0, map[]);
          ListsKept(s, e, s1, s.jpc, 0);
        }
      case _ =>
        JumpOnCondRun(SOME_ORDER, s, e.k, !truth, 0, map[]);
        ListsKept(s, e, s1, s.jpc, 0);
    }
  }

  lemma NotPending(s: Gen, e: Exp)
    requires WF(s) && ExpOK(s, e, 0) && s.freereg < NO_REG
    ensures var s1 := NotKind(s, e.k).0;
      PendingAll(s1.code, e.t) && PendingAll(s1.code, e.f) && e.t !! e.f && e.t !! s.jpc && e.f !! s.jpc
      && (e.k.KJmp? ==> s.jpc == {})
  {
    EntryAtStart(s);
    NotKindRun(SOME_ORDER, s, e.k, 0, map[]);
    ListsKept(s, e, NotKind(s, e.k).0, s.jpc + (if e.k.KJmp? then {e.k.pc} else {}), 0);
  }

  lemma NotKindForm(s: Gen, k: Kind)
    requires !k.KLit? && !k.KJmp?
    ensures var (s0, r) := DischargeToAny(s, k);
      var s1 := Emit(FreeReg(s0, r), NotOp(NO_REG, r)); NotKind(s, k) == (s1, KReloc(|s1.code| - 1))
  {
  }

  lemma StrikeTwice(code: seq<Instr>, l: set<int>, m: set<int>)
    ensures Strike(Strike(code, l), m) == Strike(code, l + m)
  {
  }

  lemma OperandOwn(s: Gen, g: Exp, room: bool)
    requires WF(s) && ExpOK(s, g, 0) && s.freereg < NO_REG
    ensures var s1 := ExpToOperand(s, g, room).0;
      PendingAll(s1.code, s1.jpc) && (forall j :: j in s1.jpc ==> j in Own(s, g) || j >= |s.code|)
  {
    EntryAtStart(s);
    OperandRun(SOME_ORDER, s, g, room, 0, map[]);
  }

  // ----- binary operators

  datatype BinOp = OPR_AND | OPR_OR | OPR_REL(op: RelOp)

  // The opcode and condition luaK_posfix hands to codecomp.
  function OpCode(op: RelOp): (CompareOp, bool) {
    match op
    case Eq => (CEq, true)
    case Ne => (CEq, false)
    case Lt => (CLt, true)
    case Le => (CLe, true)
    case Gt => (CLt, false)
    case Ge => (CLe, false)
  }

  // luaK_infix: the new state, the jumps that leave, and the operand.
  function InfixGen(s: Gen, g: Exp, op: BinOp, room: bool): (Gen, set<int>, Operand) {
    match op
    case OPR_AND => (GoIf(s, g, true).0, GoIf(s, g, true).1, Const(Nil))
    case OPR_OR => (GoIf(s, g, false).0, GoIf(s, g, false).1, Const(Nil))
    case OPR_REL(_) => (ExpToOperand(s, g, room).0, {}, ExpToOperand(s, g, room).1)
  }

  // luaK_posfix
  function PosfixGen(s: Gen, op: BinOp, exits: set<int>, x1: Operand, g2: Exp, room: bool): (Gen, Exp) {
    match op
    case OPR_AND => (s, Joined(g2, exits, true))
    case OPR_OR => (s, Joined(g2, exits, false))
    case OPR_REL(r) =>
      var (s1, x2) := ExpToOperand(s, g2, room);
      var s2 := LuaGen.CodeComp(s1, r, x1, x2);
      (s2, Exp(KJmp(|s2.code| - 1), {}, {}))
  }

  function Binary(op: BinOp, l: Expr, r: Expr, lroom: bool, rroom: bool): Expr {
    match op
    case OPR_AND => And(l, r)
    case OPR_OR => Or(l, r)
    case OPR_REL(o) => Rel(o, l, r, lroom, rroom)
  }

  lemma CompSteps(s: Gen, rel: RelOp, x1: Operand, x2: Operand)
    ensures LuaGen.CodeComp(s, rel, x1, x2) == LuaGen.CondJump(FreeOperand(FreeOperand(s, x2), x1), CompareInstr(rel, x1, x2))
  {
  }

  lemma CompForm(s: Gen, rel: RelOp, x1: Operand, g2: Exp, room: bool)
    ensures var (s1, x2) := ExpToOperand(s, g2, room);
      PosfixGen(s, OPR_REL(rel), {}, x1, g2, room).0 == LuaGen.CodeComp(s1, rel, x1, x2)
  {
  }

  lemma BinaryForm(s: Gen, op: BinOp, l: Expr, r: Expr, lroom: bool, rroom: bool)
    ensures var (s1, g1) := Compile(s, l);
      var (s2, exits, x1) := InfixGen(s1, g1, op, lroom);
      var (s3, g3) := Compile(s2, r);
      Compile(s, Binary(op, l, r, lroom, rroom)) == PosfixGen(s3, op, exits, x1, g3, rroom)
  {
    hide GoIf, ExpToOperand, LuaGen.CodeComp;
  }

  // `return x`
  function ReturnGen(s: Gen, x: Expr): Gen {
    var (s1, e1) := Compile(s, x);
    Emit(ExpToNextReg(s1, e1), Return(s.freereg))
  }

  // ----- how many constants an expression can add

  function Consts(x: Expr): nat {
    match x
    case Local(_) => 0
    case Literal(_) => 1
    case Not(e) => 1 + Consts(e)
    case And(l, r) => Consts(l) + Consts(r)
    case Or(l, r) => Consts(l) + Consts(r)
    case Rel(_, l, r, _, _) => Consts(l) + Consts(r)
  }

  // One more once the descriptor is used as a value.
  function Owed(e: ExpDesc): nat {
    if e.k in {VNIL, VTRUE, VFALSE, VKNUM} then 1 else 0
  }

  // Before an expression is compiled.
  ghost predicate Compilable(s: Gen, nk: nat, x: Expr) {
    Ready(s, x, 0, map[]) && s.freereg + Temps(x) + 1 < MAXSTACK && nk + Consts(x) <= MAXARG_BX
  }

  lemma {:induction false} TextTemps(x: Expr)
    ensures Temps(Text(x)) == Temps(x) && Consts(Text(x)) == Consts(x)
  {
    match x
    case Local(_) =>
    case Literal(_) =>
    case Not(e) => TextTemps(e);
    case And(l, r) => TextTemps(l); TextTemps(r);
    case Or(l, r) => TextTemps(l); TextTemps(r);
    case Rel(_, l, r, _, _) => TextTemps(l); TextTemps(r);
  }

  // What an expression needs depends on its text alone.
  lemma TextSame(s: Gen, nk: nat, x: Expr, x': Expr)
    requires Text(x') == Text(x) && Compilable(s, nk, x)
    ensures Compilable(s, nk, x') && Consts(x') == Consts(x)
  {
    TextTemps(x);
    TextTemps(x');
    TextScoped(x, s.nactvar);
    TextScoped(x', s.nactvar);
  }

  lemma TextBinary(op: BinOp, l: Expr, r: Expr, l': Expr, r': Expr, lroom: bool, rroom: bool, x: Expr,
          a: bool, b: bool)
    requires Text(l') == Text(l) && Text(r') == Text(r) && x == Binary(op, l, r, a, b)
    ensures Text(Binary(op, l', r', lroom, rroom)) == Text(x)
  {
    TextOf(op, l, r, a, b);
    TextOf(op, l', r', lroom, rroom);
  }

  lemma TextOf(op: BinOp, l: Expr, r: Expr, a: bool, b: bool)
    ensures Text(Binary(op, l, r, a, b)) == Binary(op, Text(l), Text(r), true, true)
  {
  }

  // Facts about the generator after the left operand and its operator.
  ghost predicate MiddleOK(s: Gen, s1: Gen, g1: Exp, s2: Gen, exits: set<int>, r: Expr) {
    && Ready(s2, r, 0, map[]) && s2.freereg + Temps(r) + 1 < MAXSTACK
    && WF(s1) && ExpOK(s1, g1, 0) && s1.freereg == s.freereg
    && (forall j :: j in Own(s1, g1) ==> j in s.jpc || j >= |s.code|)
    && (forall j :: j in s2.jpc ==> j in Own(s1, g1) || j >= |s1.code|)
    && exits !! s2.jpc && PendingAll(s2.code, exits)
  }

  lemma MiddleBranch(s: Gen, l: Expr, r: Expr, truth: bool)
    requires Ready(s, if truth then And(l, r) else Or(l, r), 0, map[])
    requires s.freereg + Temps(if truth then And(l, r) else Or(l, r)) + 1 < MAXSTACK
    ensures var (s1, g1) := Compile(s, l); var (s2, exits) := GoIf(s1, g1, truth); MiddleOK(s, s1, g1, s2, exits, r)
  {
    var (s1, g1) := Compile(s, l);
    CompileKeeps(SOME_ORDER, s, l, 0, map[]);
    GoIfRun(SOME_ORDER, s1, g1, ShapeOf(l), truth, 0, map[]);
  }

  lemma MiddleRel(s: Gen, op: RelOp, l: Expr, r: Expr, room: bool)
    requires Ready(s, Rel(op, l, r, room, true), 0, map[])
    requires s.freereg + Temps(Rel(op, l, r, room, true)) + 1 < MAXSTACK
    ensures var (s1, g1) := Compile(s, l); MiddleOK(s, s1, g1, ExpToOperand(s1, g1, room).0, {}, r)
  {
    var (s1, g1) := Compile(s, l);
    CompileKeeps(SOME_ORDER, s, l, 0, map[]);
    OperandRun(SOME_ORDER, s1, g1, room, 0, map[]);
  }

  lemma MiddleGen(s: Gen, op: BinOp, l: Expr, r: Expr, room: bool)
    requires Ready(s, Binary(op, l, r, room, true), 0, map[])
    requires s.freereg + Temps(Binary(op, l, r, room, true)) + 1 < MAXSTACK
    ensures var (s1, g1) := Compile(s, l); var (s2, exits, x1) := InfixGen(s1, g1, op, room); MiddleOK(s, s1, g1, s2, exits, r)
  {
    match op
    case OPR_AND => MiddleBranch(s, l, r, true);
    case OPR_OR => MiddleBranch(s, l, r, false);
    case OPR_REL(o) => MiddleRel(s, o, l, r, room);
  }

  lemma MiddleText(s: Gen, nk: nat, op: BinOp, l: Expr, r: Expr, l': Expr, room: bool, x: Expr, a: bool, b: bool)
    requires Text(l') == Text(l) && x == Binary(op, l, r, a, b) && Compilable(s, nk, x)
    ensures var (s1, g1) := Compile(s, l'); var (s2, exits, x1) := InfixGen(s1, g1, op, room); MiddleOK(s, s1, g1, s2, exits, r)
  {
    hide Compile, InfixGen, MiddleOK;
    TextBinary(op, l, r, l', r, room, true, x, a, b);
    TextSame(s, nk, x, Binary(op, l', r, room, true));
    MiddleGen(s, op, l', r, room);
  }

  lemma LeftCompilable(s: Gen, nk: nat, op: BinOp, l: Expr, r: Expr, x: Expr, a: bool, b: bool)
    requires x == Binary(op, l, r, a, b) && Compilable(s, nk, x)
    ensures l < x && Compilable(s, nk, l) && Consts(x) == Consts(l) + Consts(r)
  {
    hide EntryOK, NoHole, Temps, Consts, Scoped;
    PartsOf(op, l, r, a, b, s.nactvar);
  }

  lemma PartsOf(op: BinOp, l: Expr, r: Expr, a: bool, b: bool, n: nat)
    ensures var x := Binary(op, l, r, a, b);
      Temps(l) <= Temps(x) && Consts(x) == Consts(l) + Consts(r) && (Scoped(x, n) ==> Scoped(l, n))
  {
  }

  // What the middle says of the left operand, ...
  lemma MiddleLeft(s: Gen, s1: Gen, g1: Exp, s2: Gen, exits: set<int>, r: Expr)
    requires MiddleOK(s, s1, g1, s2, exits, r)
    ensures WF(s1) && ExpOK(s1, g1, 0) && s1.freereg == s.freereg
    ensures forall j :: j in Own(s1, g1) ==> j in s.jpc || j >= |s.code|
  {
  }

  // ... and of what comes then.
  lemma MiddleRight(s: Gen, s1: Gen, g1: Exp, s2: Gen, exits: set<int>, r: Expr, nk: nat)
    requires MiddleOK(s, s1, g1, s2, exits, r) && nk + Consts(r) <= MAXARG_BX && |s.code| <= |s1.code|
    ensures Compilable(s2, nk, r) && exits !! s2.jpc && PendingAll(s2.code, exits)
    ensures forall j :: j in s2.jpc ==> j in s.jpc || j >= |s.code|
  {
  }

  // ... and after the right operand.
  lemma RightGen(s2: Gen, exits: set<int>, r: Expr)
    requires Ready(s2, r, 0, map[]) && exits !! s2.jpc && PendingAll(s2.code, exits)
    ensures var (s3, g3) := Compile(s2, r);
      && WF(s3) && ExpOK(s3, g3, 0) && s3.freereg == s2.freereg
      && exits !! Own(s3, g3) && PendingAll(s3.code, exits)
      && (forall j :: j in Own(s3, g3) ==> j in s2.jpc || j >= |s2.code|)
  {
    var (s3, g3) := Compile(s2, r);
    CompileKeeps(SOME_ORDER, s2, r, 0, map[]);
    KeepsPending(s2.code, s3.code, s2.jpc, exits);
    assert forall j :: j in exits ==> j < |s2.code|;
  }

  lemma NextRegPending(s: Gen, g: Exp)
    requires WF(s) && ExpOK(s, g, 0) && s.freereg + 1 < NO_REG
    ensures var s1 := ExpToNextReg(s, g); PendingAll(s1.code, s1.jpc)
  {
    EntryAtStart(s);
    NextRegForm(s, g);
    ExpToRegKeeps(SOME_ORDER, s.(freereg := s.freereg + 1), g, s.freereg, 0, map[]);
  }

  // exp2reg, in two halves.
  lemma LoadForRegister(s: Gen, g: Exp, reg: int)
    requires WF(s) && ExpOK(s, g, 0) && s.nactvar <= reg < NO_REG
    ensures var s1 := LuaGen.DischargeToReg(s, g.k, reg);
      var g1 := WithOwnJump(g);
      && LoadedOK(s1, g1.t, g1.f, 0, map[]) && (g.k.KJmp? ==> NeedValue(s1.code, g1.t))
      && ExpToReg(s, g, reg) == Close(s1, g1.t, g1.f, g.k.KJmp?, reg)
      && g.t !! s.jpc && g.f !! s.jpc && g.t !! g.f && (g.k.KJmp? ==> g.k.pc !in s.jpc + g.t + g.f)
      && PendingAll(s1.code, g.t) && g1.t + g1.f <= Own(s, g)
  {
    LoadRun(SOME_ORDER, s, g, reg, 0, map[]);
    CloseForm(s, g, reg);
    OwnJumpNeeds(s, g, reg, 0);
  }

  // The lists of exp2reg just before they are patched.
  lemma BeforePending(s: Gen, t: set<int>, f: set<int>, jmp: bool, reg: int)
    requires LoadedOK(s, t, f, 0, map[]) && 0 <= reg < NO_REG && (jmp ==> NeedValue(s.code, t))
    ensures var s2 := BeforeClose(s, NeedValue(s.code, t) || NeedValue(s.code, f), jmp, reg);
      PendingAll(s2.code, t) && PendingAll(s2.code, f) && t !! s2.jpc && f !! s2.jpc
  {
    BeforeCloseRun(SOME_ORDER, s, t, f, jmp, reg, 0, map[]);
  }

  lemma PatchedClose(s1: Gen, s2: Gen, s3: Gen, gt: set<int>, gf: set<int>, jmp: bool, reg: int, need: bool, p_f: int,
          p_t: int)
    requires gt != {} || gf != {}
    requires need == (NeedValue(s1.code, gt) || NeedValue(s1.code, gf)) && s2 == BeforeClose(s1, need, jmp, reg)
    requires p_f == if need then |s2.code| - 2 else PENDING
    requires p_t == if need then |s2.code| - 1 else PENDING
    requires s3 == s2.(code := PatchBoth(s2.code, gt, gf, reg, p_f, p_t))
    ensures s3 == Close(s1, gt, gf, jmp, reg)
  {
    CloseSteps(s1, gt, gf, jmp, reg);
  }

  const SOME_ORDER := Order((x, y) => false, (x, y) => false)

  lemma EntryAtStart(s: Gen)
    requires WF(s)
    ensures EntryOK(s, 0, map[])
  {
  }

  class FuncState {
    var code: seq<Instruction>
    var jpc: int
    var lasttarget: int
    var freereg: int
    var nactvar: int
    var maxstacksize: int
    var k: seq<Value>
    var h: map<Value, int>    // where each constant is in k
    ghost var abs: Gen

    ghost predicate Matches()
      reads this
    {
      && SameCode(k, code, abs.code)
      && lasttarget == abs.lasttarget && freereg == abs.freereg && nactvar == abs.nactvar
      && freereg <= maxstacksize
      && forall v :: v in h ==> 0 <= h[v] < |k| && k[h[v]] == v
    }

    ghost predicate Valid()
      reads this
    {
      Matches() && IsList(code, jpc, abs.jpc)
    }

    // ----- jump lists

    method FixJump(pc: int, dest: int)
      requires 0 <= pc < |code| && code[pc].OP_JMP?
      modifies `code
      ensures code == old(code)[pc := OP_JMP(dest - (pc + 1))]
    {
      var offset := dest - (pc + 1);
      code := code[pc := OP_JMP(offset)];
    }

    method GetLabel() returns (pc: int)
      modifies `lasttarget, `abs
      ensures pc == lasttarget == |code| && abs == old(abs).(lasttarget := |code|)
    {
      lasttarget := |code|;
      abs := abs.(lasttarget := |code|);
      pc := |code|;
    }

    /** luaK_concat: the lists appended, whichever way their links run. */
    method Concat(l1: int, l2: int, ghost q1: seq<int>, ghost q2: seq<int>) returns (l: int)
      requires Threads(code, l1, q1) && Threads(code, l2, q2)
      requires forall j :: j in q2 ==> j !in q1
      modifies `code
      ensures Threads(code, l, q1 + q2)
      ensures |code| == |old(code)|
      ensures forall i :: 0 <= i < |code| && i !in q1 ==> code[i] == old(code)[i]
      ensures forall i :: 0 <= i < |code| && i in q1 ==> code[i].OP_JMP? && old(code)[i].OP_JMP?
    {
      ThreadsMembers(code, l1, q1);
      ThreadsMembers(code, l2, q2);
      if l2 == NO_JUMP {
        assert q1 + q2 == q1;
        l := l1;
      } else if l1 == NO_JUMP {
        assert q1 + q2 == q2;
        l := l2;
      } else {
        ghost var code0 := code;
        var list := l1;
        ghost var n := 0;
        ThreadsFrom(code, l1, q1, 1);
        var next := GetJump(code, list);
        while next != NO_JUMP
          invariant code == code0
          invariant 0 <= n < |q1| && list == q1[n] && 0 <= list < |code| && code[list].OP_JMP?
          invariant next == GetJump(code, list) == if n + 1 == |q1| then NO_JUMP else q1[n + 1]
          decreases |q1| - n
        {
          ThreadsFrom(code, l1, q1, n + 2);
          list := next;
          n := n + 1;
          next := GetJump(code, list);
        }
        forall i | 0 <= i < |q1| - 1
          ensures q1[i] != q1[|q1| - 1]
        {
          ThreadsDistinct(code, l1, q1, i, |q1| - 1);
        }
        FixJump(list, l2);
        ThreadsConcat(code0, code, l1, q1, l2, q2);
        l := l1;
      }
    }

    /** need_value: whether some jump of the list produces no value. */
    method NeedsValue(l: int, ghost q: seq<int>) returns (b: bool)
      requires Matches() && Threads(code, l, q)
      ensures b == NeedValue(abs.code, Elems(q))
    {
      ThreadsMembers(code, l, q);
      var list := l;
      ghost var n := 0;
      while list != NO_JUMP
        invariant 0 <= n <= |q| && list == if n == |q| then NO_JUMP else q[n]
        invariant forall i :: 0 <= i < n ==> Valued(abs.code, q[i])
        decreases |q| - n
      {
        ThreadsFrom(code, l, q, n + 1);
        TestPosValued(k, code, abs.code, list);
        if !code[TestPos(code, list)].OP_TESTSET? {
          assert q[n] in Elems(q);
          return true;
        }
        list := GetJump(code, list);
        n := n + 1;
      }
      b := false;
    }

    method PatchTestReg(node: int, reg: int) returns (valued: bool)
      requires 0 <= node < |code| && code[node].OP_JMP?
      modifies `code
      ensures valued == old(code[TestPos(code, node)].OP_TESTSET?)
      ensures code == if valued then old(code)[node - 1 := PatchedTest(old(code)[node - 1], reg)] else old(code)
    {
      var i := TestPos(code, node);
      if !code[i].OP_TESTSET? {
        return false;
      }
      code := code[i := PatchedTest(code[i], reg)];
      valued := true;
    }

    // One jump of the list, and its test.
    method PatchOne(list: int, vtarget: int, reg: int, dtarget: int)
      requires 0 <= list < |code| && code[list].OP_JMP?
      modifies `code
      ensures code == PatchedOne(old(code), list, vtarget, reg, dtarget)
    {
      var valued := PatchTestReg(list, reg);
      if valued {
        FixJump(list, vtarget);
      } else {
        FixJump(list, dtarget);
      }
    }

    /** patchlistaux: every jump of the list is visited once; those that produce a value go to
        vtarget, the others to dtarget. */
    method PatchListAux(l: int, vtarget: int, reg: int, dtarget: int, ghost q: seq<int>)
      requires Matches() && Threads(code, l, q)
      requires forall j :: j in q ==> 0 <= j < |abs.code| && abs.code[j] == Jmp(PENDING)
      modifies `code, `abs
      ensures Matches()
      ensures abs == old(abs).(code := Patch(old(abs.code), Elems(q), vtarget, reg, dtarget))
      ensures forall i :: 0 <= i < |code| && i !in q && old(code)[i].OP_JMP? ==> code[i] == old(code)[i]
    {
      hide Threads, Done, Partly, PatchedOne, Patch, SameCode, Elems;
      ghost var code0, a := code, abs.code;
      PartlyStart(k, code, a, vtarget, reg, dtarget);
      ListStart(code, l, q);
      var list := l;
      ghost var n := 0;
      while list != NO_JUMP
        invariant 0 <= n <= |q| && list == if n == |q| then NO_JUMP else q[n]
        invariant abs == old(abs) && Partly(k, code, code0, a, Done(q, n), vtarget, reg, dtarget)
        decreases |q| - n
      {
        ListStep(code0, l, q, n);
        PartlyAt(k, code, code0, a, Done(q, n), list, vtarget, reg, dtarget);
        var next := GetJump(code, list);
        PartlyNext(k, code, code0, a, Done(q, n), list, vtarget, reg, dtarget);
        PatchOne(list, vtarget, reg, dtarget);
        list := next;
        n := n + 1;
      }
      ListStep(code0, l, q, n);
      DoneAll(q);
      PartlyEnd(k, code, code0, a, q, vtarget, reg, dtarget);
      abs := abs.(code := Patch(a, Elems(q), vtarget, reg, dtarget));
    }

    /** removevalues */
    method RemoveValues(l: int, ghost q: seq<int>)
      requires Matches() && Threads(code, l, q)
      requires forall j :: j in q ==> 0 <= j < |abs.code| && abs.code[j] == Jmp(PENDING)
      modifies `code, `abs
      ensures Matches()
      ensures abs == old(abs).(code := Strike(old(abs.code), Elems(q)))
      ensures |code| == |old(code)| && forall i :: 0 <= i < |code| && old(code)[i].OP_JMP? ==> code[i] == old(code)[i]
    {
      hide Threads, Done, Struck, PatchedTest, Strike, SameCode, Elems;
      ghost var code0, a := code, abs.code;
      StruckStart(k, code, a);
      ListStart(code, l, q);
      var list := l;
      ghost var n := 0;
      while list != NO_JUMP
        invariant 0 <= n <= |q| && list == if n == |q| then NO_JUMP else q[n]
        invariant abs == old(abs) && Struck(k, code, code0, a, Done(q, n))
        decreases |q| - n
      {
        ListStep(code0, l, q, n);
        StruckAt(k, code, code0, a, Done(q, n), list);
        StrikeNext(k, code, code0, a, Done(q, n), list);
        var _ := PatchTestReg(list, NO_REG);
        StruckAt(k, code, code0, a, Done(q, n + 1), list);
        list := GetJump(code, list);
        n := n + 1;
      }
      ListStep(code0, l, q, n);
      DoneAll(q);
      StruckEnd(k, code, code0, a, Elems(q));
      abs := abs.(code := Strike(a, Elems(q)));
    }

    // luaK_concat, on lists as sets
    method Append(l1: int, l2: int, ghost s1: set<int>, ghost s2: set<int>) returns (l: int)
      requires Matches() && IsList(code, l1, s1) && IsList(code, l2, s2) && s1 !! s2
      requires PendingAll(abs.code, s1)
      modifies `code
      ensures Matches() && IsList(code, l, s1 + s2) && KeptJumps(old(code), code, s1) && |code| == |old(code)|
      ensures l1 != NO_JUMP ==> l == l1
    {
      ghost var q1 :| Threads(code, l1, q1) && Elems(q1) == s1;
      ghost var q2 :| Threads(code, l2, q2) && Elems(q2) == s2;
      assert forall j :: j in q2 ==> j in Elems(q2);
      assert forall j :: j in q1 ==> j in Elems(q1);
      ThreadsMembers(code, l1, q1);
      l := Concat(l1, l2, q1, q2);
      ThreadsMembers(code, l, q1 + q2);
      assert Elems(q1 + q2) == s1 + s2;
      forall i | 0 <= i < |code|
        ensures Same(k, i, code[i], abs.code[i])
      {
        assert Same(k, i, old(code)[i], abs.code[i]);
        if i in q1 { assert abs.code[i] == Jmp(PENDING); }
      }
    }

    // ----- emitting

    method DischargeJpc()
      requires Valid() && PendingAll(abs.code, abs.jpc)
      modifies `code, `jpc, `abs
      ensures Valid() && jpc == NO_JUMP && abs == Discharge(old(abs)) && KeptJumps(old(code), code, old(abs.jpc))
    {
      ghost var q :| Threads(code, jpc, q) && Elems(q) == abs.jpc;
      ghost var n := |abs.code|;
      assert forall j :: j in q ==> j in Elems(q);
      PatchListAux(jpc, |code|, NO_REG, |code|, q);
      jpc := NO_JUMP;
      abs := abs.(jpc := {});
      EmptyList(code);
    }

    method Code(i: Instruction, ghost a: Instr) returns (pc: int)
      requires Valid() && PendingAll(abs.code, abs.jpc) && Same(k, |code|, i, a)
      modifies `code, `jpc, `abs
      ensures Valid() && jpc == NO_JUMP && abs == Emit(old(abs), a) && KeptJumps(old(code), code, old(abs.jpc))
      ensures pc == |old(code)| && |code| == pc + 1 && code[pc] == i
    {
      DischargeJpc();
      pc := |code|;
      code := code + [i];
      abs := abs.(code := abs.code + [a]);
      EmptyList(code);
    }

    method Jump() returns (j: int)
      requires Valid() && PendingAll(abs.code, abs.jpc)
      modifies `code, `jpc, `abs
      ensures Valid() && jpc == NO_JUMP && abs == LuaGen.Jump(old(abs)) && KeptJumps(old(code), code, {})
      ensures j == |old(code)| && |code| == j + 1 && IsList(code, j, {j} + old(abs.jpc))
    {
      var saved := jpc;
      ghost var waiting := abs.jpc;
      ghost var abs0, code0 := abs, code;
      ListHead(code, jpc, abs.jpc);
      jpc := NO_JUMP;
      abs := abs.(jpc := {});
      EmptyList(code);
      j := Code(OP_JMP(NO_JUMP), Jmp(PENDING));
      PatchNone(abs0.code, |abs0.code|, NO_REG, |abs0.code|);
      assert abs == LuaGen.Jump(abs0);
      ListKept(code0, code, {}, saved, waiting);
      SingleList(code, j);
      j := Append(j, saved, {j}, waiting);
      EmptyList(code);
    }

    method CondJump(i: Instruction, ghost a: Instr) returns (j: int)
      requires Valid() && PendingAll(abs.code, abs.jpc) && Same(k, |code|, i, a)
      modifies `code, `jpc, `abs
      ensures Valid() && jpc == NO_JUMP && abs == LuaGen.CondJump(old(abs), a)
      ensures KeptJumps(old(code), code, old(abs.jpc))
      ensures j == |old(code)| + 1 && |code| == j + 1 && IsList(code, j, {j})
    {
      var _ := Code(i, a);
      j := Jump();
      assert {j} + {} == {j};
    }

    method PatchToHere(l: int, ghost s: set<int>)
      requires Valid() && PendingAll(abs.code, abs.jpc) && IsList(code, l, s) && s !! abs.jpc
      modifies `code, `jpc, `lasttarget, `abs
      ensures Valid() && abs == LuaGen.PatchToHere(old(abs), s) && KeptJumps(old(code), code, old(abs.jpc))
      ensures |code| == |old(code)|
    {
      var _ := GetLabel();
      jpc := Append(jpc, l, abs.jpc, s);
      abs := abs.(jpc := abs.jpc + s);
    }

    /** luaK_nil for one register: a load of nils that ends just before it is extended. */
    method LoadNils(from: int)
      requires Valid() && WF(abs) && 0 <= from < NO_REG
      modifies `code, `jpc, `abs
      ensures Valid() && abs == EmitNil(old(abs), from) && KeptJumps(old(code), code, old(abs.jpc))
      ensures |code| == |old(code)| <==>
        && |old(code)| > lasttarget
        && if |old(code)| == 0 then from >= nactvar
           else var last := old(code)[|old(code)| - 1]; last.OP_LOADNIL? && last.a <= from <= last.b + 1
    {
      ghost var abs0 := abs;
      if |code| > lasttarget {
        if |code| == 0 {
          if from >= nactvar {
            return;
          }
        } else {
          assert Same(k, |code| - 1, code[|code| - 1], abs.code[|code| - 1]);
          var previous := code[|code| - 1];
          if previous.OP_LOADNIL? {
            if previous.a <= from && from <= previous.b + 1 {
              if from > previous.b {
                code := code[|code| - 1 := OP_LOADNIL(previous.a, from)];
                abs := abs.(code := abs.code[|code| - 1 := LoadNil(previous.a, from)]);
                ListKept(old(code), code, {}, jpc, abs.jpc);
              }
              return;
            }
          }
        }
      }
      var _ := Code(OP_LOADNIL(from, from), LoadNil(from, from));
    }

    // ----- registers and constants

    method CheckStack(n: int)
      requires freereg + n < MAXSTACK
      modifies `maxstacksize
      ensures freereg + n <= maxstacksize && old(maxstacksize) <= maxstacksize
    {
      var newstack := freereg + n;
      if newstack > maxstacksize {
        maxstacksize := newstack;
      }
    }

    method ReserveRegs(n: int)
      requires Valid() && freereg + n < MAXSTACK
      modifies `maxstacksize, `freereg, `abs
      ensures Valid() && abs == old(abs).(freereg := old(abs.freereg) + n)
    {
      CheckStack(n);
      freereg := freereg + n;
      abs := abs.(freereg := abs.freereg + n);
    }

    // freereg
    method FreeRegister(reg: int)
      requires Valid() && reg < BITRK
      modifies `freereg, `abs
      ensures Valid() && abs == FreeReg(old(abs), reg)
    {
      if reg >= nactvar {
        freereg := freereg - 1;
        abs := abs.(freereg := abs.freereg - 1);
      }
    }

    /** addk: a constant is stored once. */
    method AddK(v: Value) returns (i: int)
      requires Valid()
      modifies `k, `h
      ensures Valid() && 0 <= i < |k| && k[i] == v && old(k) <= k && |k| <= |old(k)| + 1
      ensures v in h && h[v] == i
      ensures v in old(h) ==> k == old(k)
    {
      if v in h {
        i := h[v];
      } else {
        SameCodeGrows(k, v, code, abs.code);
        i := |k|;
        k := k + [v];
        h := h[v := i];
      }
    }

    // ----- a value into a register

    method DischargeVars(e: ExpDesc) returns (e': ExpDesc)
      ensures e' == if e.k == VLOCAL then e.(k := VNONRELOC) else e
    {
      e' := if e.k == VLOCAL then e.(k := VNONRELOC) else e;
    }

    method DischargeToReg(e: ExpDesc, reg: int, ghost g: Kind) returns (e': ExpDesc)
      requires Valid() && WF(abs) && KindRep(k, e, g) && KindOK(abs, g, 0) && nactvar <= reg < NO_REG
      modifies `code, `jpc, `abs, `k, `h
      ensures Valid() && abs == LuaGen.DischargeToReg(old(abs), g, reg) && KeptJumps(old(code), code, old(abs.jpc))
      ensures e' == if g.KJmp? then e else e.(k := VNONRELOC, info := reg)
      ensures old(k) <= k && |k| <= |old(k)| + Bit(g.KLit?) && (e.k == VK ==> k == old(k))
    {
      e' := DischargeVars(e);
      match e'.k {
        case VNIL => LoadNils(reg);
        case VFALSE => var _ := Code(OP_LOADBOOL(reg, 0, 0), LoadBool(reg, false, false));
        case VTRUE => var _ := Code(OP_LOADBOOL(reg, 1, 0), LoadBool(reg, true, false));
        case VK => var _ := Code(OP_LOADK(reg, e'.info), LoadK(reg, g.v));
        case VKNUM =>
          var i := AddK(Num(e'.nval));
          var _ := Code(OP_LOADK(reg, i), LoadK(reg, Num(e'.nval)));
        case VRELOCABLE =>
          ghost var p := e'.info;
          assert Same(k, p, code[p], abs.code[p]);
          ghost var a := NotOp(reg, abs.code[p].b);
          code := code[e'.info := OP_NOT(reg, code[e'.info].b)];
          abs := abs.(code := abs.code[p := a]);
          ListKept(old(code), code, {}, jpc, abs.jpc);
        case VNONRELOC =>
          if reg != e'.info {
            var _ := Code(OP_MOVE(reg, e'.info), Move(reg, e'.info));
          }
        case VJMP =>
          return;
      }
      e' := e'.(info := reg, k := VNONRELOC);
    }

    method DischargeToAnyReg(e: ExpDesc, ghost g: Kind) returns (e': ExpDesc)
      requires Valid() && WF(abs) && KindRep(k, e, g) && KindOK(abs, g, 0) && !g.KJmp? && freereg + 1 < MAXSTACK
      requires e.k != VLOCAL
      modifies this
      ensures Valid() && e'.k == VNONRELOC && KeptJumps(old(code), code, old(abs.jpc))
      ensures (abs, e'.info) == DischargeToAny(old(abs), g) && (e'.t, e'.f) == (e.t, e.f)
      ensures old(k) <= k && |k| <= |old(k)| + Bit(g.KLit?) && (e.k == VK ==> k == old(k))
    {
      e' := e;
      if e.k != VNONRELOC {
        ReserveRegs(1);
        e' := DischargeToReg(e, freereg - 1, g);
      }
    }

    method FreeExp(e: ExpDesc)
      requires Valid() && (e.k == VNONRELOC ==> e.info < BITRK)
      modifies `freereg, `abs
      ensures Valid() && abs == if e.k == VNONRELOC then FreeReg(old(abs), e.info) else old(abs)
    {
      if e.k == VNONRELOC {
        FreeRegister(e.info);
      }
    }

    method CodeLabel(a: int, b: bool, jump: bool) returns (pc: int)
      requires Valid() && PendingAll(abs.code, abs.jpc)
      modifies `code, `jpc, `abs, `lasttarget
      ensures Valid() && jpc == NO_JUMP && abs == Emit(Label(old(abs)), LoadBool(a, b, jump))
      ensures KeptJumps(old(code), code, old(abs.jpc))
      ensures pc == |old(code)| && |code| == pc + 1
    {
      var _ := GetLabel();
      pc := Code(OP_LOADBOOL(a, Bit(b), Bit(jump)), LoadBool(a, b, jump));
    }

    // The loads of the two truth values in exp2reg.
    method CodeBools(jmp: bool, reg: int) returns (p_f: int, p_t: int)
      requires Valid() && WF(abs) && abs.jpc == {}
      modifies `code, `jpc, `abs, `lasttarget
      ensures Valid() && abs == EmitBools(old(abs), jmp, reg) && KeptJumps(old(code), code, {})
      ensures p_f == |code| - 2 && p_t == |code| - 1
    {
      ghost var abs0 := abs;
      var fj := NO_JUMP;
      if !jmp {
        fj := Jump();
      }
      ghost var l: set<int> := if jmp then {} else {|abs0.code|} + abs0.jpc;
      EmptyList(code);
      assert IsList(code, fj, l);
      ghost var c1 := code;
      p_f := CodeLabel(reg, false, true);
      p_t := CodeLabel(reg, true, false);
      ListKept(c1, code, {}, fj, l);
      PatchToHere(fj, l);
    }

    // Both lists of an expression patched, the true list with the truth value's load at p_t.
    method PatchLists(t: int, f: int, final: int, reg: int, p_t: int, p_f: int, ghost gt: set<int>, ghost gf: set<int>)
      requires Valid() && IsList(code, t, gt) && IsList(code, f, gf) && gt !! gf && final == |code|
      requires gt !! abs.jpc && gf !! abs.jpc && PendingAll(abs.code, gt) && PendingAll(abs.code, gf)
      modifies `code, `abs
      ensures Valid() && abs == old(abs).(code := PatchBoth(old(abs.code), gt, gf, reg, p_f, p_t))
      ensures KeptJumps(old(code), code, gt + gf)
    {
      ghost var qf :| Threads(code, f, qf) && Elems(qf) == gf;
      assert forall j :: j in qf ==> j in Elems(qf);
      ghost var c0 := code;
      PatchListAux(f, final, reg, p_f, qf);
      assert forall j :: j in qf <==> j in gf;
      ListKept(c0, code, gf, t, gt);
      ghost var qt :| Threads(code, t, qt) && Elems(qt) == gt;
      assert forall j :: j in qt <==> j in Elems(qt);
      PatchListAux(t, final, reg, p_t, qt);
      ListKept(c0, code, gt + gf, jpc, abs.jpc);
    }

    /** exp2reg */
    method ExpToRegister(e: ExpDesc, reg: int, ghost g: Exp) returns (e': ExpDesc)
      requires Valid() && WF(abs) && ExpRep(k, code, e, g) && ExpOK(abs, g, 0) && nactvar <= reg < NO_REG
      modifies `code, `jpc, `abs, `k, `h, `lasttarget
      ensures Valid() && abs == ExpToReg(old(abs), g, reg) && KeptJumps(old(code), code, Own(old(abs), g))
      ensures e' == ExpDesc(VNONRELOC, reg, e.nval, NO_JUMP, NO_JUMP)
      ensures old(k) <= k && |k| <= |old(k)| + Bit(g.k.KLit?) && (e.k == VK ==> k == old(k))
    {
      hide IsList, SameCode, NoHole, CodeOK, LoadedOK, NeedValue, Close, ExpToReg;
      ghost var abs0, c0 := abs, code;
      ghost var g1 := WithOwnJump(g);
      LoadForRegister(abs, g, reg);
      e' := DischargeToReg(e, reg, g.k);
      ExpKept(old(k), k, c0, code, abs0.jpc, e, g);
      var t := e'.t;
      ghost var c1 := code;
      if e'.k == VJMP {
        t := Append(e'.t, e'.info, g.t, {g.k.pc});
        ListKept(c1, code, g.t, e.f, g.f);
        ListKept(c1, code, g.t, jpc, abs.jpc);
      }
      assert KeptJumps(c0, code, Own(abs0, g));
      ghost var c2 := code;
      CloseLists(t, e'.f, reg, e'.k == VJMP, g1.t, g1.f, abs);
      KeptTrans(c0, c2, code, Own(abs0, g), g1.t + g1.f);
      e' := ExpDesc(VNONRELOC, reg, e'.nval, NO_JUMP, NO_JUMP);
    }

    // exp2reg once the value, if any, is loaded.
    method CloseLists(t: int, f: int, reg: int, jmp: bool, ghost gt: set<int>, ghost gf: set<int>, ghost s1: Gen)
      requires Valid() && abs == s1 && LoadedOK(s1, gt, gf, 0, map[]) && 0 <= reg < NO_REG
      requires IsList(code, t, gt) && IsList(code, f, gf) && (jmp ==> NeedValue(s1.code, gt))
      modifies `code, `jpc, `abs, `lasttarget
      ensures Valid() && abs == Close(s1, gt, gf, jmp, reg) && KeptJumps(old(code), code, gt + gf)
    {
      ListHead(code, t, gt);
      ListHead(code, f, gf);
      if t != f {
        BeforePending(s1, gt, gf, jmp, reg);
        ghost var c0 := code;
        var need := NeedValueOf(t, f, gt, gf);
        var final, p_f, p_t := OpenLists(need, jmp, reg);
        ghost var c1 := code;
        ListKept(c0, c1, {}, t, gt);
        ListKept(c0, c1, {}, f, gf);
        ghost var s2 := abs;
        PatchLists(t, f, final, reg, p_t, p_f, gt, gf);
        KeptTrans(c0, c1, code, gt + gf, gt + gf);
        assert gt != {} || gf != {};
        PatchedClose(s1, s2, abs, gt, gf, jmp, reg, need, p_f, p_t);
      } else {
        assert gt == {} && gf == {};
      }
    }

    method OpenLists(need: bool, jmp: bool, reg: int) returns (final: int, p_f: int, p_t: int)
      requires Valid() && WF(abs) && abs.jpc == {}
      modifies `code, `jpc, `abs, `lasttarget
      ensures Valid() && abs == BeforeClose(old(abs), need, jmp, reg) && KeptJumps(old(code), code, {})
      ensures final == |code| && p_f == (if need then final - 2 else NO_JUMP)
      ensures p_t == (if need then final - 1 else NO_JUMP)
    {
      p_f, p_t := NO_JUMP, NO_JUMP;
      if need {
        p_f, p_t := CodeBools(jmp, reg);
      }
      final := GetLabel();
    }

    // need_value of either list
    method NeedValueOf(t: int, f: int, ghost gt: set<int>, ghost gf: set<int>) returns (b: bool)
      requires Valid() && IsList(code, t, gt) && IsList(code, f, gf)
      ensures b == (NeedValue(abs.code, gt) || NeedValue(abs.code, gf))
    {
      ghost var qt :| Threads(code, t, qt) && Elems(qt) == gt;
      ghost var qf :| Threads(code, f, qf) && Elems(qf) == gf;
      b := NeedsValue(t, qt);
      if !b {
        b := NeedsValue(f, qf);
      }
    }

    method ExpToNext(e: ExpDesc, ghost g: Exp) returns (e': ExpDesc)
      requires Valid() && WF(abs) && ExpRep(k, code, e, g) && ExpOK(abs, g, 0) && freereg + 1 < MAXSTACK
      modifies this
      ensures Valid() && abs == ExpToNextReg(old(abs), g) && KeptJumps(old(code), code, Own(old(abs), g))
      ensures e' == ExpDesc(VNONRELOC, old(freereg), e.nval, NO_JUMP, NO_JUMP)
      ensures old(k) <= k && |k| <= |old(k)| + Bit(g.k.KLit?) && (e.k == VK ==> k == old(k))
    {
      hide SameCode, IsList, WF, ExpOK, PendingAll, KeptJumps, ExpRep, ExpToReg, FreeReg;
      LocalRep(k, code, e, g);
      FreeHolds(abs, k, code, e, g);
      var e1 := DischargeVars(e);
      NextRegForm(abs, g);
      FreeExp(e1);
      ReserveRegs(1);
      e' := ExpToRegister(e1, freereg - 1, g);
    }

    // What luaK_exp2anyreg and luaK_exp2RK may be called on: an expression just compiled, or one
    // that is an operand already.
    ghost predicate Usable(e: ExpDesc, g: Exp, x: Operand, settled: bool)
      reads this
    {
      if settled then OperandRep(k, e, x)
      else WF(abs) && ExpRep(k, code, e, g) && ExpOK(abs, g, 0) && freereg + 1 < MAXSTACK
    }

    method ExpToAnyReg(e: ExpDesc, ghost g: Exp, ghost x: Operand, ghost settled: bool) returns (e': ExpDesc)
      requires Valid() && Usable(e, g, x, settled) && (settled ==> x.Reg?)
      modifies this
      ensures Valid() && e'.k == VNONRELOC && e'.t == NO_JUMP && e'.f == NO_JUMP
      ensures !settled && !(g.k.KReg? && g.t == {} && g.f == {}) ==>
        abs == ExpToNextReg(old(abs), g) && e'.info == old(freereg) && KeptJumps(old(code), code, Own(old(abs), g))
      ensures settled || (g.k.KReg? && g.t == {} && g.f == {}) ==>
        abs == old(abs) && code == old(code) && jpc == old(jpc) && e'.info == e.info
      ensures settled ==> e' == e
      ensures old(k) <= k && |k| <= |old(k)| + Bit(!settled && g.k.KLit?) && (e.k == VK || settled ==> k == old(k))
    {
      e' := DischargeVars(e);
      if !settled {
        HasJumpsIff(k, code, e, g);
        ListHead(code, e.t, g.t);
        ListHead(code, e.f, g.f);
      }
      if e'.k == VNONRELOC && !HasJumps(e') {
        return;
      }
      e' := ExpToNext(e', g);
    }

    method ExpToVal(e: ExpDesc, ghost g: Exp, ghost x: Operand, ghost settled: bool) returns (e': ExpDesc)
      requires Valid() && Usable(e, g, x, settled)
      modifies this
      ensures Valid()
      ensures !settled && (g.t != {} || g.f != {}) ==>
        && abs == ExpToNextReg(old(abs), g) && KeptJumps(old(code), code, Own(old(abs), g))
        && e' == ExpDesc(VNONRELOC, old(freereg), e'.nval, NO_JUMP, NO_JUMP)
      ensures settled || (g.t == {} && g.f == {}) ==>
        && abs == old(abs) && code == old(code) && jpc == old(jpc) && k == old(k) && freereg == old(freereg)
        && e' == if e.k == VLOCAL then e.(k := VNONRELOC) else e
      ensures old(k) <= k && |k| <= |old(k)| + Bit(!settled && g.k.KLit? && e.k != VK)
    {
      if !settled {
        HasJumpsIff(k, code, e, g);
      }
      if HasJumps(e) {
        e' := ExpToAnyReg(e, g, x, settled);
      } else {
        e' := DischargeVars(e);
      }
    }

    /** luaK_exp2RK; room says whether the constant table had room for an operand index */
    method ExpToRK(e: ExpDesc, ghost g: Exp, ghost x: Operand, ghost settled: bool)
      returns (e': ExpDesc, rk: int, ghost y: Operand, ghost room: bool)
      requires Valid() && Usable(e, g, x, settled)
      modifies this
      ensures Valid() && OperandRep(k, e', y) && SameOperand(k, rk, y)
      ensures settled ==> abs == old(abs) && code == old(code) && e' == e && y == x && k == old(k)
      ensures !settled ==> (abs, y) == ExpToOperand(old(abs), g, room) && KeptJumps(old(code), code, Own(old(abs), g))
      ensures old(k) <= k && |k| <= |old(k)| + Bit(!settled && g.k.KLit? && e.k != VK)
      ensures !room <==> !settled && g.t == {} && g.f == {} && g.k.KLit? && (if e.k == VK then e.info else |old(k)|) > 255
    {
      hide SameCode, IsList, WF, ExpOK, PendingAll, KeptJumps, ExpRep, ExpToNextReg, KindOK, NoHole, CodeOK;
      if !settled {
        LocalRep(k, code, e, g);
        RepLists(k, code, e, g);
        FreeHolds(abs, k, code, e, g);
        ExpLists(abs, g);
        HasJumpsIff(k, code, e, g);
        KeptSelf(code, Own(abs, g));
      }
      room := true;
      e' := ExpToVal(e, g, x, settled);
      ghost var plain := settled || (g.t == {} && g.f == {});
      ghost var k1 := k;
      match e'.k {
        case VKNUM | VTRUE | VFALSE | VNIL =>
          if |k| <= MAXINDEXRK {
            var v := LiteralOf(e');
            var i := AddK(v);
            y := Const(v);
            e' := ExpDesc(VK, i, e'.nval, NO_JUMP, NO_JUMP);
            rk := i + BITRK;
            return;
          }
          room := settled;
        case VK =>
          if e'.info <= MAXINDEXRK {
            y := if settled then x else Const(g.k.v);
            rk := e'.info + BITRK;
            return;
          }
          room := settled;
        case _ =>
      }
      ghost var settled' := settled || !plain;
      y := if settled then x else if plain && g.k.KReg? then Reg(g.k.r) else Reg(old(freereg));
      e' := ExpToAnyReg(e', g, y, settled');
      rk := e'.info;
    }

    // ----- conditional jumps

    method InvertJump(e: ExpDesc, ghost g: Kind)
      requires Valid() && KindRep(k, e, g) && g.KJmp? && KindOK(abs, g, 0)
      modifies `code, `abs
      ensures Valid() && abs == Invert(old(abs), g.pc) && KeptJumps(old(code), code, {})
    {
      assert Same(k, e.info - 1, code[e.info - 1], abs.code[e.info - 1]);
      var pc := TestPos(code, e.info);
      var i := code[pc];
      code := code[pc := OP_COMPARE(i.op, 1 - i.a, i.b, i.c)];
      abs := Invert(abs, g.pc);
      ListKept(old(code), code, {}, jpc, abs.jpc);
    }

    // jumponcond for a negation: its NOT is taken back, and the operand is tested for the opposite.
    method JumpOnNot(e: ExpDesc, cond: bool, ghost g: Kind) returns (j: int)
      requires Valid() && KindRep(k, e, g) && g.KReloc? && KindOK(abs, g, 0) && code[e.info].OP_NOT?
      modifies `code, `jpc, `abs
      ensures Valid() && jpc == NO_JUMP && abs == LuaGen.JumpOnCond(old(abs), g, cond)
      ensures KeptJumps(old(code), code, old(abs.jpc))
      ensures j == |code| - 1 && IsList(code, j, {j})
    {
      hide IsList, NoHole;
      ghost var p := e.info;
      assert Same(k, p, code[p], abs.code[p]);
      var ie := code[e.info];
      ghost var c0 := code;
      code := code[..|code| - 1];
      abs := abs.(code := abs.code[..|abs.code| - 1]);
      ListHead(c0, jpc, {});
      EmptyList(code);
      j := CondJump(OP_TEST(ie.b, Bit(!cond)), Test(ie.b, !cond));
    }

    /** jumponcond */
    method JumpOnCond(e: ExpDesc, cond: bool, ghost g: Kind) returns (j: int)
      requires Valid() && WF(abs) && KindRep(k, e, g) && KindOK(abs, g, 0) && !g.KJmp? && freereg + 1 < MAXSTACK
      requires e.k != VLOCAL
      modifies this
      ensures Valid() && jpc == NO_JUMP && abs == LuaGen.JumpOnCond(old(abs), g, cond)
      ensures KeptJumps(old(code), code, old(abs.jpc))
      ensures j == |code| - 1 && IsList(code, j, {j})
      ensures old(k) <= k && |k| <= |old(k)| + Bit(g.KLit?) && (e.k == VK ==> k == old(k))
    {
      hide IsList, WF, KindOK, SameCode, KeptJumps, DischargeToAny, PendingAll, LuaGen.CondJump;
      RelocNot(abs, k, code, g);
      if e.k == VRELOCABLE {
        var ie := code[e.info];
        if ie.OP_NOT? {
          j := JumpOnNot(e, cond, g);
          return;
        }
      }
      ghost var abs0, c0 := abs, code;
      AnyPending(abs, g);
      var e1 := DischargeToAnyReg(e, g);
      ghost var c1, own := code, abs.jpc;
      FreeExp(e1);
      j := CondJump(OP_TESTSET(NO_REG, e1.info, Bit(cond)), TestSet(NO_REG, e1.info, cond));
      KeptTrans(c0, c1, code, abs0.jpc, own);
    }

    // The end of luaK_goiftrue and luaK_goiffalse: the jump pc joins the list away, and the
    // list here is patched to the next instruction.
    method CloseBranch(here: int, away: int, pc: int, ghost gh: set<int>, ghost ga: set<int>, ghost gp: set<int>)
      returns (l: int)
      requires Valid() && PendingAll(abs.code, abs.jpc) && PendingAll(abs.code, ga)
      requires IsList(code, here, gh) && IsList(code, away, ga) && IsList(code, pc, gp)
      requires gh !! ga && gh !! gp && ga !! gp && abs.jpc !! gh && abs.jpc !! ga && abs.jpc !! gp
      modifies `code, `jpc, `lasttarget, `abs
      ensures Valid() && abs == LuaGen.PatchToHere(old(abs), gh) && IsList(code, l, ga + gp)
      ensures KeptJumps(old(code), code, ga + old(abs.jpc)) && |code| == |old(code)|
    {
      ghost var c0 := code;
      l := Append(away, pc, ga, gp);
      ListKept(c0, code, ga, here, gh);
      ListKept(c0, code, ga, jpc, abs.jpc);
      ghost var c1 := code;
      PatchToHere(here, gh);
      ListKept(c1, code, old(abs.jpc), l, ga + gp);
    }

    // What the jumps of luaK_goiftrue and luaK_goiffalse leave behind before the lists are closed.
    ghost predicate MidRep(s: Gen, c: seq<Instruction>, e: ExpDesc, g: Exp, truth: bool, pc: int)
      reads this
    {
      && Valid() && (abs, GoIfMid(s, g, truth).1) == GoIfMid(s, g, truth) && KeptJumps(c, code, s.jpc)
      && IsList(code, pc, GoIfMid(s, g, truth).1)
    }

    method FinishBranch(e: ExpDesc, truth: bool, pc: int, ghost g: Exp, ghost s: Gen, ghost c: seq<Instruction>)
      returns (l: int)
      requires WF(s) && ExpOK(s, g, 0) && s.freereg < NO_REG && MidRep(s, c, e, g, truth, pc)
      requires IsList(c, e.t, g.t) && IsList(c, e.f, g.f)
      modifies `code, `jpc, `lasttarget, `abs
      ensures Valid() && abs == GoIf(s, g, truth).0 && IsList(code, l, GoIf(s, g, truth).1)
      ensures KeptJumps(c, code, Own(s, g))
    {
      ghost var gp := GoIfMid(s, g, truth).1;
      GoIfMidOK(s, g, truth);
      GoIfMidForm(s, g, truth);
      ghost var c1, jpc1 := code, abs.jpc;
      ListKept(c, code, s.jpc, e.t, g.t);
      ListKept(c, code, s.jpc, e.f, g.f);
      if truth {
        l := CloseBranch(e.t, e.f, pc, g.t, g.f, gp);
      } else {
        l := CloseBranch(e.f, e.t, pc, g.f, g.t, gp);
      }
      KeptTrans(c, c1, code, Own(s, g), (if truth then g.f else g.t) + jpc1);
    }

    // The switch of luaK_goiftrue.
    method JumpIfFalse(e: ExpDesc, ghost g: Exp) returns (pc: int)
      requires Valid() && WF(abs) && ExpRep(k, code, e, g) && ExpOK(abs, g, 0) && freereg + 1 < MAXSTACK
      requires e.k != VLOCAL
      modifies this
      ensures MidRep(old(abs), old(code), e, g, true, pc)
      ensures old(k) <= k && |k| <= |old(k)| + Bit(g.k.KLit?) && (e.k == VK ==> k == old(k))
    {
      hide IsList, SameCode, WF, KindOK, KeptJumps, PendingAll, GoIfMid, LuaGen.JumpOnCond, LuaGen.Jump, Invert,
        ExpRep, LoadedOK;
      BranchFacts(abs, k, code, e, g);
      GoIfMidIs(abs, g, true);
      ghost var c := code;
      if e.k == VK || e.k == VKNUM || e.k == VTRUE {
        pc := NO_JUMP;
        EmptyList(code);
      } else if e.k == VFALSE {
        pc := Jump();
        KeptMore(c, code, {}, old(abs.jpc));
      } else if e.k == VJMP {
        InvertJump(e, g.k);
        pc := e.info;
        ListKept(c, code, {}, pc, {pc});
        KeptMore(c, code, {}, old(abs.jpc));
      } else {
        pc := JumpOnCond(e, false, g.k);
        SameLength(k, code, abs.code);
      }
    }

    // The switch of luaK_goiffalse.
    method JumpIfTrue(e: ExpDesc, ghost g: Exp) returns (pc: int)
      requires Valid() && WF(abs) && ExpRep(k, code, e, g) && ExpOK(abs, g, 0) && freereg + 1 < MAXSTACK
      requires e.k != VLOCAL
      modifies this
      ensures MidRep(old(abs), old(code), e, g, false, pc)
      ensures old(k) <= k && |k| <= |old(k)| + Bit(g.k.KLit?) && (e.k == VK ==> k == old(k))
    {
      hide IsList, SameCode, WF, KindOK, KeptJumps, PendingAll, GoIfMid, LuaGen.JumpOnCond, LuaGen.Jump, ExpRep,
        LoadedOK;
      BranchFacts(abs, k, code, e, g);
      GoIfMidIs(abs, g, false);
      ghost var c := code;
      if e.k == VNIL || e.k == VFALSE {
        pc := NO_JUMP;
        EmptyList(code);
      } else if e.k == VTRUE {
        pc := Jump();
        KeptMore(c, code, {}, old(abs.jpc));
      } else if e.k == VJMP {
        pc := e.info;
      } else {
        pc := JumpOnCond(e, true, g.k);
        SameLength(k, code, abs.code);
      }
    }

    /** luaK_goiftrue: goes on when the expression is true. */
    method GoIfTrue(e: ExpDesc, ghost g: Exp) returns (e': ExpDesc)
      requires Valid() && WF(abs) && ExpRep(k, code, e, g) && ExpOK(abs, g, 0) && freereg + 1 < MAXSTACK
      modifies this
      ensures Valid() && abs == GoIf(old(abs), g, true).0 && KeptJumps(old(code), code, Own(old(abs), g))
      ensures e'.t == NO_JUMP && IsList(code, e'.f, GoIf(old(abs), g, true).1)
      ensures old(k) <= k && |k| <= |old(k)| + Bit(g.k.KLit?) && (e.k == VK ==> k == old(k))
    {
      e' := DischargeVars(e);
      var pc := JumpIfFalse(e', g);
      var f := FinishBranch(e', true, pc, g, old(abs), old(code));
      e' := e'.(f := f, t := NO_JUMP);
    }

    /** luaK_goiffalse: goes on when the expression is false. */
    method GoIfFalse(e: ExpDesc, ghost g: Exp) returns (e': ExpDesc)
      requires Valid() && WF(abs) && ExpRep(k, code, e, g) && ExpOK(abs, g, 0) && freereg + 1 < MAXSTACK
      modifies this
      ensures Valid() && abs == GoIf(old(abs), g, false).0 && KeptJumps(old(code), code, Own(old(abs), g))
      ensures e'.f == NO_JUMP && IsList(code, e'.t, GoIf(old(abs), g, false).1)
      ensures old(k) <= k && |k| <= |old(k)| + Bit(g.k.KLit?) && (e.k == VK ==> k == old(k))
    {
      e' := DischargeVars(e);
      var pc := JumpIfTrue(e', g);
      var t := FinishBranch(e', false, pc, g, old(abs), old(code));
      e' := e'.(t := t, f := NO_JUMP);
    }

    // The switch of codenot.
    method NotValue(e: ExpDesc, ghost g: Kind) returns (e': ExpDesc)
      requires Valid() && WF(abs) && KindRep(k, e, g) && KindOK(abs, g, 0) && freereg + 1 < MAXSTACK && e.k != VLOCAL
      modifies this
      ensures Valid() && abs == NotKind(old(abs), g).0 && KindRep(k, e', NotKind(old(abs), g).1)
      ensures (e'.t, e'.f) == (e.t, e.f)
      ensures KeptJumps(old(code), code, old(abs.jpc))
      ensures old(k) <= k && |k| <= |old(k)|
    {
      e' := e;
      if e.k == VNIL || e.k == VFALSE {
        e' := e.(k := VTRUE);
      } else if e.k == VK || e.k == VKNUM || e.k == VTRUE {
        e' := e.(k := VFALSE);
      } else if e.k == VJMP {
        InvertJump(e, g);
      } else {
        e' := NotReg(e, g);
      }
    }

    method NotReg(e: ExpDesc, ghost g: Kind) returns (e': ExpDesc)
      requires Valid() && WF(abs) && KindRep(k, e, g) && KindOK(abs, g, 0) && freereg + 1 < MAXSTACK && e.k != VLOCAL
      requires e.k == VRELOCABLE || e.k == VNONRELOC
      modifies this
      ensures Valid() && abs == NotKind(old(abs), g).0 && KindRep(k, e', NotKind(old(abs), g).1)
      ensures (e'.t, e'.f) == (e.t, e.f)
      ensures KeptJumps(old(code), code, old(abs.jpc))
      ensures old(k) <= k && |k| <= |old(k)|
    {
      hide Same, NotKind;
      NotKindForm(abs, g);
      ghost var abs0, c0 := abs, code;
      DischargeToAnyRun(SOME_ORDER, abs, g, 0, map[]);
      var e1 := DischargeToAnyReg(e, g);
      FreeExp(e1);
      ghost var c1 := code;
      var pc := Code(OP_NOT(0, e1.info), NotOp(NO_REG, e1.info));
      KeptTrans(c0, c1, code, abs0.jpc, abs0.jpc);
      e' := e1.(info := pc, k := VRELOCABLE);
    }

    /** codenot: the lists change places, and their jumps lose their values. */
    method CodeNot(e: ExpDesc, ghost g: Exp) returns (e': ExpDesc)
      requires Valid() && WF(abs) && ExpRep(k, code, e, g) && ExpOK(abs, g, 0) && freereg + 1 < MAXSTACK
      modifies this
      ensures Valid() && abs == LuaGen.CodeNot(old(abs), g).0 && ExpRep(k, code, e', LuaGen.CodeNot(old(abs), g).1)
      ensures KeptJumps(old(code), code, old(abs.jpc)) && old(k) <= k && |k| <= |old(k)|
    {
      ghost var s, c := abs, code;
      NotPending(s, g);
      e' := DischargeVars(e);
      e' := NotValue(e', g.k);
      e' := e'.(t := e'.f, f := e'.t);
      ListKept(c, code, s.jpc, e.t, g.t);
      ListKept(c, code, s.jpc, e.f, g.f);
      if g.k.KJmp? { ListKept(c, code, s.jpc, g.k.pc, {g.k.pc}); }
      StrikeLists(e'.f, e'.t, g.t, g.f);
      ListKept(c, code, s.jpc, e.t, g.t);
      ListKept(c, code, s.jpc, e.f, g.f);
      if g.k.KJmp? { ListKept(c, code, s.jpc, g.k.pc, {g.k.pc}); }
    }

    method StrikeLists(f: int, t: int, ghost gf: set<int>, ghost gt: set<int>)
      requires Valid() && IsList(code, f, gf) && IsList(code, t, gt) && gf !! gt
      requires PendingAll(abs.code, gf) && PendingAll(abs.code, gt)
      modifies `code, `abs
      ensures Valid() && abs == old(abs).(code := Strike(old(abs.code), gf + gt)) && KeptJumps(old(code), code, {})
    {
      ghost var c := code;
      ghost var qf :| Threads(code, f, qf) && Elems(qf) == gf;
      assert forall j :: j in qf ==> j in Elems(qf);
      RemoveValues(f, qf);
      ListKept(c, code, {}, t, gt);
      ghost var qt :| Threads(code, t, qt) && Elems(qt) == gt;
      assert forall j :: j in qt ==> j in Elems(qt);
      RemoveValues(t, qt);
      ListKept(c, code, {}, jpc, abs.jpc);
      StrikeTwice(old(abs.code), gf, gt);
    }

    // ----- operators

    /** codecomp */
    method CodeComp(op: CompareOp, cond: bool, e1: ExpDesc, e2: ExpDesc, ghost rel: RelOp, ghost x1: Operand,
            ghost g2: Exp) returns (e': ExpDesc, ghost room: bool)
      requires Valid() && Usable(e1, g2, x1, true) && Usable(e2, g2, x1, false) && (op, cond) == OpCode(rel)
      modifies this
      ensures Valid() && abs == PosfixGen(old(abs), OPR_REL(rel), {}, x1, g2, room).0
      ensures e' == ExpDesc(VJMP, |code| - 1, e1.nval, NO_JUMP, NO_JUMP) && IsList(code, |code| - 1, {|code| - 1})
      ensures KeptJumps(old(code), code, Own(old(abs), g2))
      ensures old(k) <= k && |k| <= |old(k)| + Owed(e2)
      ensures |old(k)| + Owed(e2) <= 256 ==> room
    {
      hide SameCode, IsList, WF, ExpOK, PendingAll, KeptJumps, ExpRep, LuaGen.CodeComp, ExpToOperand, KindOK,
        PosfixGen, LuaGen.CondJump;
      ghost var abs0, c0 := abs, code;
      SameLength(k, code, abs.code);
      var e1', e2', o1, o2, x2, room' := BothOperands(e1, e2, x1, g2);
      room := room';
      OperandOwn(abs0, g2, room);
      ghost var s1, c1 := abs, code;
      FreeExp(e2');
      assert abs == FreeOperand(s1, x2);
      FreeExp(e1');
      assert abs == FreeOperand(FreeOperand(s1, x2), x1);
      var j := CompareJump(op, cond, o1, o2, rel, x1, x2);
      CompSteps(s1, rel, x1, x2);
      CompForm(abs0, rel, x1, g2, room);
      KeptTrans(c0, c1, code, Own(abs0, g2), s1.jpc);
      e' := ExpDesc(VJMP, j, e1.nval, NO_JUMP, NO_JUMP);
    }

    method BothOperands(e1: ExpDesc, e2: ExpDesc, ghost x1: Operand, ghost g2: Exp)
      returns (e1': ExpDesc, e2': ExpDesc, o1: int, o2: int, ghost x2: Operand, ghost room: bool)
      requires Valid() && Usable(e1, g2, x1, true) && Usable(e2, g2, x1, false)
      modifies this
      ensures Valid() && (abs, x2) == ExpToOperand(old(abs), g2, room) && KeptJumps(old(code), code, Own(old(abs), g2))
      ensures SameOperand(k, o1, x1) && SameOperand(k, o2, x2)
      ensures (e1'.k == VNONRELOC <==> x1.Reg?) && (e2'.k == VNONRELOC <==> x2.Reg?)
      ensures (x1.Reg? ==> e1'.info == x1.r) && (x2.Reg? ==> e2'.info == x2.r)
      ensures old(k) <= k && |k| <= |old(k)| + Owed(e2)
      ensures |old(k)| + Owed(e2) <= 256 ==> room
    {
      ghost var y1, room1;
      e1', o1, y1, room1 := ExpToRK(e1, g2, x1, true);
      ghost var k1 := k;
      e2', o2, x2, room := ExpToRK(e2, g2, x1, false);
      assert x1.Const? ==> k[o1 - BITRK] == k1[o1 - BITRK];
    }

    // The end of codecomp: `a > b` is `b < a`, and `a >= b` is `b <= a`.
    method CompareJump(op: CompareOp, cond: bool, o1: int, o2: int, ghost rel: RelOp, ghost x1: Operand,
            ghost x2: Operand) returns (j: int)
      requires Valid() && PendingAll(abs.code, abs.jpc) && (op, cond) == OpCode(rel)
      requires SameOperand(k, o1, x1) && SameOperand(k, o2, x2)
      modifies `code, `jpc, `abs
      ensures Valid() && jpc == NO_JUMP && abs == LuaGen.CondJump(old(abs), CompareInstr(rel, x1, x2))
      ensures KeptJumps(old(code), code, old(abs.jpc))
      ensures j == |code| - 1 && IsList(code, j, {j})
    {
      if !cond && op != CEq {
        j := CondJump(OP_COMPARE(op, 1, o2, o1), CompareInstr(rel, x1, x2));
      } else {
        j := CondJump(OP_COMPARE(op, Bit(cond), o1, o2), CompareInstr(rel, x1, x2));
      }
    }

    // What luaK_infix leaves in the left operand.
    ghost predicate LeftOf(op: BinOp, v: ExpDesc, exits: set<int>, x: Operand)
      reads this
    {
      match op
      case OPR_AND => v.t == NO_JUMP && IsList(code, v.f, exits)
      case OPR_OR => v.f == NO_JUMP && IsList(code, v.t, exits)
      case OPR_REL(_) => exits == {} && OperandRep(k, v, x)
    }

    method Infix(op: BinOp, v: ExpDesc, ghost g: Exp) returns (v': ExpDesc, ghost room: bool)
      requires Valid() && Usable(v, g, Const(Nil), false)
      modifies this
      ensures Valid() && abs == InfixGen(old(abs), g, op, room).0 && KeptJumps(old(code), code, Own(old(abs), g))
      ensures LeftOf(op, v', InfixGen(old(abs), g, op, room).1, InfixGen(old(abs), g, op, room).2)
      ensures old(k) <= k && |k| <= |old(k)| + Owed(v)
      ensures |old(k)| + Owed(v) <= 256 ==> room
    {
      room := true;
      match op {
        case OPR_AND => v' := GoIfTrue(v, g);
        case OPR_OR => v' := GoIfFalse(v, g);
        case OPR_REL(_) =>
          ghost var x;
          var rk;
          v', rk, x, room := ExpToRK(v, g, Const(Nil), false);
      }
    }

    // luaK_posfix for and, or: the jumps that leave the left operand join a list of the right one.
    method PosfixLogic(conj: bool, e1: ExpDesc, e2: ExpDesc, ghost exits: set<int>, ghost g2: Exp) returns (e': ExpDesc)
      requires Valid() && LeftOf(if conj then OPR_AND else OPR_OR, e1, exits, Const(Nil))
      requires WF(abs) && ExpRep(k, code, e2, g2) && ExpOK(abs, g2, 0) && exits !! Own(abs, g2)
      requires PendingAll(abs.code, exits)
      modifies `code
      ensures Valid() && ExpRep(k, code, e', Joined(g2, exits, conj)) && KeptJumps(old(code), code, Own(abs, g2))
      ensures |k| + Owed(e') <= |k| + Owed(e2)
    {
      hide SameCode, IsList, WF, ExpOK, PendingAll, KeptJumps, ExpRep;
      ghost var c, own := code, if conj then g2.f else g2.t;
      ExpLists(abs, g2);
      var e2' := DischargeVars(e2);
      LocalRep(k, code, e2, g2);
      RepLists(k, code, e2, g2);
      if conj {
        var f := Append(e2'.f, e1.f, g2.f, exits);
        e' := e2'.(f := f);
      } else {
        var t := Append(e2'.t, e1.t, g2.t, exits);
        e' := e2'.(t := t);
      }
      ListKept(c, code, own, jpc, abs.jpc);
      ExpJoined(k, c, code, e2', e', g2, exits, conj);
      KeptMore(c, code, own, Own(abs, g2));
    }

    method Posfix(op: BinOp, e1: ExpDesc, e2: ExpDesc, ghost exits: set<int>, ghost x1: Operand, ghost g2: Exp)
      returns (e': ExpDesc, ghost room: bool)
      requires Valid() && LeftOf(op, e1, exits, x1) && Usable(e2, g2, x1, false)
      requires exits !! Own(abs, g2) && PendingAll(abs.code, exits)
      modifies this
      ensures Valid() && abs == PosfixGen(old(abs), op, exits, x1, g2, room).0
      ensures ExpRep(k, code, e', PosfixGen(old(abs), op, exits, x1, g2, room).1)
      ensures KeptJumps(old(code), code, Own(old(abs), g2))
      ensures old(k) <= k && |k| + Owed(e') <= |old(k)| + Owed(e2)
      ensures |old(k)| + Owed(e2) <= 256 ==> room
    {
      hide SameCode, IsList, WF, ExpOK, PendingAll, KeptJumps, ExpRep, LuaGen.CodeComp, ExpToOperand, Own;
      room := true;
      match op {
        case OPR_AND => e' := PosfixLogic(true, e1, e2, exits, g2);
        case OPR_OR => e' := PosfixLogic(false, e1, e2, exits, g2);
        case OPR_REL(r) =>
          e', room := CodeComp(OpCode(r).0, OpCode(r).1, e1, e2, r, x1, g2);
          JumpRep(k, code, e');
          SameLength(k, code, abs.code);
      }
    }

    // ----- whole expressions

    // A name, a literal.
    method SimpleExp(x: Expr) returns (e: ExpDesc)
      requires Valid() && (x.Local? || x.Literal?)
      modifies `k, `h
      ensures Valid() && ExpRep(k, code, e, Compile(abs, x).1) && Compile(abs, x).0 == abs
      ensures old(k) <= k && |k| + Owed(e) <= |old(k)| + Consts(x)
    {
      EmptyList(code);
      match x {
        case Local(i) => e := ExpDesc(VLOCAL, i, 0.0, NO_JUMP, NO_JUMP);
        case Literal(v) =>
          match v {
            case Nil => e := ExpDesc(VNIL, 0, 0.0, NO_JUMP, NO_JUMP);
            case Bool(b) => e := ExpDesc(if b then VTRUE else VFALSE, 0, 0.0, NO_JUMP, NO_JUMP);
            case Num(n) => e := ExpDesc(VKNUM, 0, n, NO_JUMP, NO_JUMP);
            case Str(_) =>
              var i := AddK(v);
              e := ExpDesc(VK, i, 0.0, NO_JUMP, NO_JUMP);
          }
      }
    }

    /** The code for x, its jumps still pending in the lists of the descriptor; x' is x with the room the constant
        table had. */
    method Subexpr(x: Expr) returns (e: ExpDesc, ghost x': Expr)
      requires Valid() && Compilable(abs, |k|, x)
      modifies this
      ensures Text(x') == Text(x)
      ensures Valid() && abs == Compile(old(abs), x').0 && ExpRep(k, code, e, Compile(old(abs), x').1)
      ensures KeptJumps(old(code), code, old(abs.jpc))
      ensures old(k) <= k && |k| + Owed(e) <= |old(k)| + Consts(x)
      ensures |old(k)| + Consts(x) <= 256 ==> x' == Text(x)
      decreases x, 1
    {
      x' := x;
      match x {
        case Local(_) => e := SimpleExp(x);
        case Literal(_) => e := SimpleExp(x);
        case Not(y) =>
          ghost var s, c := abs, code;
          ghost var y';
          e, y' := Subexpr(y);
          TextSame(s, |old(k)|, y, y');
          CompileKeeps(SOME_ORDER, s, y', 0, map[]);
          ghost var s1, g1, c1 := abs, Compile(s, y').1, code;
          e := CodeNot(e, g1);
          KeptTrans(c, c1, code, s.jpc, s1.jpc);
          x' := Not(y');
        case And(l, r) => e, x' := Binop(OPR_AND, l, r, x, true, true);
        case Or(l, r) => e, x' := Binop(OPR_OR, l, r, x, true, true);
        case Rel(op, l, r, a, b) => e, x' := Binop(OPR_REL(op), l, r, x, a, b);
      }
    }

    // The left operand, luaK_infix, the right operand, luaK_posfix.
    method Binop(op: BinOp, l: Expr, r: Expr, ghost x: Expr, ghost a: bool, ghost b: bool)
      returns (e: ExpDesc, ghost x': Expr)
      requires Valid() && x == Binary(op, l, r, a, b) && Compilable(abs, |k|, x)
      modifies this
      ensures Text(x') == Text(x)
      ensures Valid() && abs == Compile(old(abs), x').0 && ExpRep(k, code, e, Compile(old(abs), x').1)
      ensures KeptJumps(old(code), code, old(abs.jpc))
      ensures old(k) <= k && |k| + Owed(e) <= |old(k)| + Consts(x)
      ensures |old(k)| + Consts(x) <= 256 ==> x' == Text(x)
      decreases x, 0
    {
      hide SameCode, IsList, WF, ExpOK, PendingAll, KeptJumps, ExpRep, Own, KindOK, PosfixGen, InfixGen, Compile,
        Joined, OperandRep, NoHole, CodeOK, Text;
      ghost var s, c := abs, code;
      var e1, exits, x1, l', lroom := LeftOperand(op, l, r, x, a, b);
      ghost var s2, c2 := abs, code;
      ghost var r', rroom;
      e, r', rroom := RightOperand(op, e1, r, exits, x1);
      BinaryForm(s, op, l', r', lroom, rroom);
      x' := Binary(op, l', r', lroom, rroom);
      TextBinary(op, l, r, l', r', lroom, rroom, x, a, b);
      TextOf(op, l, r, a, b);
      PartsOf(op, l, r, a, b, 0);
      KeptTrans(c, c2, code, s.jpc, s2.jpc);
    }

    method RightOperand(op: BinOp, e1: ExpDesc, r: Expr, ghost exits: set<int>, ghost x1: Operand)
      returns (e: ExpDesc, ghost r': Expr, ghost room: bool)
      requires Valid() && Compilable(abs, |k|, r) && LeftOf(op, e1, exits, x1)
      requires exits !! abs.jpc && PendingAll(abs.code, exits)
      modifies this
      ensures Text(r') == Text(r)
      ensures Valid() && var (s3, g3) := Compile(old(abs), r');
        && abs == PosfixGen(s3, op, exits, x1, g3, room).0
        && ExpRep(k, code, e, PosfixGen(s3, op, exits, x1, g3, room).1)
      ensures KeptJumps(old(code), code, old(abs.jpc))
      ensures old(k) <= k && |k| + Owed(e) <= |old(k)| + Consts(r)
      ensures |old(k)| + Consts(r) <= 256 ==> room && r' == Text(r)
      decreases r, 2
    {
      hide SameCode, IsList, WF, ExpOK, PendingAll, KeptJumps, ExpRep, Own, KindOK, PosfixGen, InfixGen, Compile,
        Joined, OperandRep, NoHole, CodeOK, Text;
      ghost var s2, c2, k2 := abs, code, k;
      SameLength(k, code, abs.code);
      var e2;
      e2, r' := Subexpr(r);
      TextSame(s2, |k2|, r, r');
      RightGen(s2, exits, r');
      ghost var s3, c3 := abs, code;
      ghost var g3 := Compile(s2, r').1;
      LeftKept(op, k2, k, c2, c3, s2.jpc, e1, exits, x1);
      e, room := Posfix(op, e1, e2, exits, x1, g3);
      KeptTrans(c2, c3, code, s2.jpc, Own(s3, g3));
    }

    method LeftOperand(op: BinOp, l: Expr, r: Expr, ghost x: Expr, ghost a: bool, ghost b: bool)
      returns (e: ExpDesc, ghost exits: set<int>, ghost x1: Operand, ghost l': Expr, ghost room: bool)
      requires Valid() && x == Binary(op, l, r, a, b) && Compilable(abs, |k|, x)
      modifies this
      ensures Text(l') == Text(l)
      ensures Valid() && (abs, exits, x1) == InfixGen(Compile(old(abs), l').0, Compile(old(abs), l').1, op, room)
      ensures Compilable(abs, |k|, r) && exits !! abs.jpc && PendingAll(abs.code, exits) && LeftOf(op, e, exits, x1)
      ensures KeptJumps(old(code), code, old(abs.jpc)) && |old(code)| <= |code|
      ensures forall j :: j in abs.jpc ==> j in old(abs.jpc) || j >= |old(code)|
      ensures old(k) <= k && |k| <= |old(k)| + Consts(l)
      ensures |old(k)| + Consts(l) <= 256 ==> room && l' == Text(l)
      decreases x, 0, 0
    {
      hide Text, InfixGen, Compile, WF, SameCode, IsList, PendingAll, KeptJumps, ExpRep, NoHole, CodeOK, Owed,
        MiddleOK, Consts, ExpOK, Own, Binary, LeftOf, Ready, Temps;
      ghost var s, c := abs, code;
      SameLength(k, code, abs.code);
      LeftCompilable(s, |k|, op, l, r, x, a, b);
      e, l' := Subexpr(l);
      SameLength(k, code, abs.code);
      ghost var s1, g1, c1 := abs, Compile(s, l').1, code;
      MiddleText(s, |old(k)|, op, l, r, l', true, x, a, b);
      MiddleLeft(s, s1, g1, InfixGen(s1, g1, op, true).0, InfixGen(s1, g1, op, true).1, r);
      e, room := Infix(op, e, g1);
      MiddleText(s, |old(k)|, op, l, r, l', room, x, a, b);
      exits, x1 := InfixGen(s1, g1, op, room).1, InfixGen(s1, g1, op, room).2;
      MiddleRight(s, s1, g1, abs, exits, r, |k|);
      KeptTrans(c, c1, code, s.jpc, Own(s1, g1));
    }

    // The left operand is as luaK_infix left it when the right one has been compiled.
    lemma LeftKept(op: BinOp, k0: seq<Value>, k1: seq<Value>, c: seq<Instruction>, c': seq<Instruction>,
            own: set<int>, e: ExpDesc, exits: set<int>, x: Operand)
      requires k0 <= k1 == k && c' == code && KeptJumps(c, c', own) && exits !! own
      requires match op
        case OPR_AND => e.t == NO_JUMP && IsList(c, e.f, exits)
        case OPR_OR => e.f == NO_JUMP && IsList(c, e.t, exits)
        case OPR_REL(_) => exits == {} && OperandRep(k0, e, x)
      ensures LeftOf(op, e, exits, x)
    {
      match op
      case OPR_AND => ListKept(c, c', own, e.f, exits);
      case OPR_OR => ListKept(c, c', own, e.t, exits);
      case OPR_REL(_) =>
    }

    /** `return x`: luaK_exp2nextreg and luaK_ret on the compiled expression. */
    method CompileReturn(x: Expr) returns (ghost x': Expr)
      requires Valid() && Compilable(abs, |k|, x)
      modifies this
      ensures Text(x') == Text(x) && (|old(k)| + Consts(x) <= 256 ==> x' == Text(x))
      ensures Valid() && abs == ReturnGen(old(abs), x')
    {
      ghost var s := abs;
      var e;
      e, x' := Subexpr(x);
      TextSame(s, |old(k)|, x, x');
      CompileKeeps(SOME_ORDER, s, x', 0, map[]);
      ghost var s1, g := abs, Compile(s, x').1;
      NextRegPending(s1, g);
      e := ExpToNext(e, g);
      var _ := Code(OP_RETURN(e.info, 2), Return(e.info));
    }
  }
}
