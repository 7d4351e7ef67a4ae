/** The expression code generator with jump lists as sets of positions. */
module LuaGen {
  import opened LuaMachine
  import opened LuaExpr

  datatype Kind =
    | KLit(v: Value)     // VNIL, VTRUE, VFALSE, VK, VKNUM
    | KReg(r: int)       // VLOCAL, VNONRELOC
    | KReloc(pc: int)    // VRELOCABLE: the instruction at pc waits for its target register
    | KJmp(pc: int)      // VJMP: the comparison's jump

  datatype Exp = Exp(k: Kind, t: set<int>, f: set<int>)

  datatype Gen = Gen(code: seq<Instr>, jpc: set<int>, lasttarget: int, freereg: int, nactvar: int)

  // ----- patching

  predicate Valued(code: seq<Instr>, j: int) {
    1 <= j <= |code| && code[j - 1].TestSet?
  }

  function PatchTest(i: Instr, reg: int): Instr
    requires i.TestSet?
  {
    if reg != NO_REG && reg != i.b then TestSet(reg, i.b, i.cond) else Test(i.b, i.cond)
  }

  function PatchAt(code: seq<Instr>, l: set<int>, vt: int, reg: int, dt: int, i: int): Instr
    requires 0 <= i < |code|
  {
    if i in l && code[i].Jmp? then Jmp(if Valued(code, i) then vt else dt)
    else if i + 1 in l && code[i].TestSet? then PatchTest(code[i], reg)
    else code[i]
  }

  // patchlistaux
  function Patch(code: seq<Instr>, l: set<int>, vt: int, reg: int, dt: int): (r: seq<Instr>)
    ensures |r| == |code|
    ensures forall i :: 0 <= i < |code| ==> r[i] == PatchAt(code, l, vt, reg, dt, i)
  {
    seq(|code|, i requires 0 <= i < |code| => PatchAt(code, l, vt, reg, dt, i))
  }

  // removevalues
  function Strike(code: seq<Instr>, l: set<int>): (r: seq<Instr>)
    ensures |r| == |code|
    ensures forall i :: 0 <= i < |code| ==>
      r[i] == if i + 1 in l && code[i].TestSet? then PatchTest(code[i], NO_REG) else code[i]
  {
    seq(|code|, i requires 0 <= i < |code| =>
      if i + 1 in l && code[i].TestSet? then PatchTest(code[i], NO_REG) else code[i])
  }

  predicate NeedValue(code: seq<Instr>, l: set<int>) {
    exists j :: j in l && !Valued(code, j)
  }

  // ----- emitting

  function Discharge(s: Gen): Gen {
    s.(code := Patch(s.code, s.jpc, |s.code|, NO_REG, |s.code|), jpc := {})
  }

  function Emit(s: Gen, i: Instr): Gen {
    var d := Discharge(s);
    d.(code := d.code + [i])
  }

  // luaK_jump; the new list is {|s.code|} + s.jpc
  function Jump(s: Gen): Gen {
    s.(code := s.code + [Jmp(PENDING)], jpc := {})
  }

  function CondJump(s: Gen, i: Instr): Gen {
    Jump(Emit(s, i))
  }

  function Label(s: Gen): Gen {
    s.(lasttarget := |s.code|)
  }

  function PatchToHere(s: Gen, l: set<int>): Gen {
    Label(s).(jpc := s.jpc + l)
  }

  // luaK_nil for one register
  function EmitNil(s: Gen, from: int): Gen {
    if |s.code| > s.lasttarget && |s.code| == 0 && from >= s.nactvar then s
    else if |s.code| > s.lasttarget && |s.code| > 0 && s.code[|s.code| - 1].LoadNil?
         && s.code[|s.code| - 1].a <= from <= s.code[|s.code| - 1].b + 1 then
      var last := s.code[|s.code| - 1];
      if from > last.b then s.(code := s.code[|s.code| - 1 := LoadNil(last.a, from)]) else s
    else Emit(s, LoadNil(from, from))
  }

  // ----- getting a value into a register

  function DischargeToReg(s: Gen, k: Kind, reg: int): Gen {
    match k
    case KLit(Nil) => EmitNil(s, reg)
    case KLit(Bool(b)) => Emit(s, LoadBool(reg, b, false))
    case KLit(v) => Emit(s, LoadK(reg, v))
    case KReloc(p) =>
      if 0 <= p < |s.code| && s.code[p].NotOp? then s.(code := s.code[p := NotOp(reg, s.code[p].b)]) else s
    case KReg(r) => if r != reg then Emit(s, Move(reg, r)) else s
    case KJmp(_) => s
  }

  function Reserve(s: Gen): Gen {
    s.(freereg := s.freereg + 1)
  }

  function FreeReg(s: Gen, r: int): Gen {
    if r >= s.nactvar then s.(freereg := s.freereg - 1) else s
  }

  function FreeKind(s: Gen, k: Kind): Gen {
    if k.KReg? then FreeReg(s, k.r) else s
  }

  // discharge2anyreg, for an expression that is not a pending comparison
  function DischargeToAny(s: Gen, k: Kind): (Gen, int) {
    if k.KReg? then (s, k.r)
    else (DischargeToReg(Reserve(s), k, s.freereg), s.freereg)
  }

  function WithOwnJump(e: Exp): Exp {
    if e.k.KJmp? then e.(t := e.t + {e.k.pc}) else e
  }

  // The `LOADBOOL` pair of exp2reg, skipped over by the value that is already in the register.
  function EmitBools(s: Gen, jmp: bool, reg: int): Gen {
    var s1 := if jmp then s else Jump(s);
    var fj := if jmp then {} else {|s.code|} + s.jpc;
    var s2 := Emit(Label(s1), LoadBool(reg, false, true));
    var s3 := Emit(Label(s2), LoadBool(reg, true, false));
    PatchToHere(s3, fj)
  }

  function ExpToReg(s: Gen, e: Exp, reg: int): Gen {
    var s1 := DischargeToReg(s, e.k, reg);
    var e1 := WithOwnJump(e);
    if e1.t == {} && e1.f == {} then s1
    else if NeedValue(s1.code, e1.t) || NeedValue(s1.code, e1.f) then
      var s2 := Label(EmitBools(s1, e.k.KJmp?, reg));
      var final := |s2.code|;
      var c := Patch(s2.code, e1.f, final, reg, final - 2);
      s2.(code := Patch(c, e1.t, final, reg, final - 1))
    else
      var s2 := Label(s1);
      var final := |s2.code|;
      var c := Patch(s2.code, e1.f, final, reg, PENDING);
      s2.(code := Patch(c, e1.t, final, reg, PENDING))
  }

  function ExpToNextReg(s: Gen, e: Exp): Gen {
    var s1 := Reserve(FreeKind(s, e.k));
    ExpToReg(s1, e, s1.freereg - 1)
  }

  // luaK_exp2RK; room says whether the constant table has room for an operand index
  function ExpToOperand(s: Gen, e: Exp, room: bool): (Gen, Operand) {
    if e.t == {} && e.f == {} && e.k.KLit? && room then (s, Const(e.k.v))
    else if e.t == {} && e.f == {} && e.k.KReg? then (s, Reg(e.k.r))
    else (ExpToNextReg(s, e), Reg(s.freereg))
  }

  // ----- conditional jumps

  function Flip(i: Instr): Instr {
    match i
    case Compare(op, cond, l, r) => Compare(op, !cond, l, r)
    case _ => i
  }

  // invertjump
  function Invert(s: Gen, p: int): Gen {
    if 1 <= p < |s.code| then s.(code := s.code[p - 1 := Flip(s.code[p - 1])]) else s
  }

  // jumponcond: the jump is the last instruction of the result
  function JumpOnCond(s: Gen, k: Kind, cond: bool): Gen {
    if k.KReloc? && |s.code| > 0 && s.code[|s.code| - 1].NotOp? then
      CondJump(s.(code := s.code[..|s.code| - 1]), Test(s.code[|s.code| - 1].b, !cond))
    else
      var (s1, r) := DischargeToAny(s, k);
      CondJump(FreeReg(s1, r), TestSet(NO_REG, r, cond))
  }

  // luaK_goiftrue and luaK_goiffalse; returns the list of jumps taken when the outcome is !truth
  function GoIf(s: Gen, e: Exp, truth: bool): (Gen, set<int>) {
    var here := if truth then e.t else e.f;
    var away := if truth then e.f else e.t;
    match e.k
    case KJmp(p) =>
      (PatchToHere(if truth then Invert(s, p) else s, here), away + {p})
    case KLit(v) =>
      if Truth(v) == truth then (PatchToHere(s, here), away)
      else if v == Bool(!truth) then (PatchToHere(Jump(s), here), away + {|s.code|} + s.jpc)
      else
        var s1 := JumpOnCond(s, e.k, !truth);
        (PatchToHere(s1, here), away + {|s1.code| - 1})
    case _ =>
      var s1 := JumpOnCond(s, e.k, !truth);
      (PatchToHere(s1, here), away + {|s1.code| - 1})
  }

  function NotKind(s: Gen, k: Kind): (Gen, Kind) {
    match k
    case KLit(v) => (s, KLit(Bool(!Truth(v))))
    case KJmp(p) => (Invert(s, p), k)
    case _ =>
      var (s0, r) := DischargeToAny(s, k);
      var s1 := Emit(FreeReg(s0, r), NotOp(NO_REG, r));
      (s1, KReloc(|s1.code| - 1))
  }

  function CodeNot(s: Gen, e: Exp): (Gen, Exp) {
    var (s1, k) := NotKind(s, e.k);
    (s1.(code := Strike(s1.code, e.t + e.f)), Exp(k, e.f, e.t))
  }

  // codecomp's choice of opcode, condition and operand order
  function CompareInstr(op: RelOp, l: Operand, r: Operand): Instr {
    match op
    case Eq => Compare(CEq, true, l, r)
    case Ne => Compare(CEq, false, l, r)
    case Lt => Compare(CLt, true, l, r)
    case Le => Compare(CLe, true, l, r)
    case Gt => Compare(CLt, true, r, l)
    case Ge => Compare(CLe, true, r, l)
  }

  function FreeOperand(s: Gen, x: Operand): Gen {
    if x.Reg? then FreeReg(s, x.r) else s
  }

  function CodeComp(s: Gen, op: RelOp, l: Operand, r: Operand): Gen {
    CondJump(FreeOperand(FreeOperand(s, r), l), CompareInstr(op, l, r))
  }

  // ----- a whole expression

  function Compile(s: Gen, x: Expr): (Gen, Exp)
    decreases x
  {
    match x
    case Local(i) => (s, Exp(KReg(i), {}, {}))
    case Literal(v) => (s, Exp(KLit(v), {}, {}))
    case Not(e) =>
      var (s1, e1) := Compile(s, e);
      CodeNot(s1, e1)
    case And(l, r) =>
      var (s1, e1) := Compile(s, l);
      var (s2, f) := GoIf(s1, e1, true);
      var (s3, e3) := Compile(s2, r);
      (s3, e3.(f := e3.f + f))
    case Or(l, r) =>
      var (s1, e1) := Compile(s, l);
      var (s2, t) := GoIf(s1, e1, false);
      var (s3, e3) := Compile(s2, r);
      (s3, e3.(t := e3.t + t))
    case Rel(op, l, r, lroom, rroom) =>
      var (s1, e1) := Compile(s, l);
      var (s2, x1) := ExpToOperand(s1, e1, lroom);
      var (s3, e3) := Compile(s2, r);
      var (s4, x2) := ExpToOperand(s3, e3, rroom);
      var s5 := CodeComp(s4, op, x1, x2);
      (s5, Exp(KJmp(|s5.code| - 1), {}, {}))
  }
}
