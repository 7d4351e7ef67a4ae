/** The part of the Lua 5.1 virtual machine that expression code uses.

    Instructions are kept unpacked.  A jump holds its absolute destination, and the
    destination `PENDING` marks a jump the code generator has not resolved yet; running
    into such a jump stops the machine there, so a half-generated program has a meaning. */
module LuaMachine {

  datatype Value = Nil | Bool(b: bool) | Num(n: real) | Str(s: string)

  predicate Truth(v: Value) {
    v != Nil && v != Bool(false)
  }

  /** `<` and `<=` on values.  The machine takes whatever the run-time system answers. */
  datatype Order = Order(lt: (Value, Value) -> bool, le: (Value, Value) -> bool)

  datatype CompareOp = CEq | CLt | CLe

  predicate Holds(o: Order, op: CompareOp, x: Value, y: Value) {
    match op
    case CEq => x == y
    case CLt => o.lt(x, y)
    case CLe => o.le(x, y)
  }

  const NO_REG := 255
  const PENDING := -1

  type Regs = map<int, Value>

  function Get(rho: Regs, r: int): Value {
    if r in rho then rho[r] else Nil
  }

  // Writing the invalid register has no effect.
  function Put(rho: Regs, r: int, v: Value): Regs {
    if r == NO_REG then rho else rho[r := v]
  }

  function PutNil(rho: Regs, from: int, last: int): Regs
    decreases last - from
  {
    if from > last then rho else PutNil(Put(rho, from, Nil), from + 1, last)
  }

  datatype Operand = Reg(r: int) | Const(v: Value)

  function Fetch(rho: Regs, x: Operand): Value {
    match x
    case Reg(r) => Get(rho, r)
    case Const(v) => v
  }

  datatype Instr =
    | Move(a: int, b: int)
    | LoadK(a: int, v: Value)
    | LoadBool(a: int, val: bool, skip: bool)
    | LoadNil(a: int, b: int)
    | NotOp(a: int, b: int)
    | Jmp(target: int)
    | Compare(op: CompareOp, cond: bool, l: Operand, r: Operand)
    | Test(b: int, cond: bool)
    | TestSet(a: int, b: int, cond: bool)
    | Return(a: int)

  // The instructions that conditionally skip the jump after them.
  predicate IsTest(i: Instr) {
    i.Compare? || i.Test? || i.TestSet?
  }

  predicate Passes(o: Order, i: Instr, rho: Regs)
    requires IsTest(i)
  {
    match i
    case Compare(op, cond, l, r) => Holds(o, op, Fetch(rho, l), Fetch(rho, r)) == cond
    case Test(b, cond) => Truth(Get(rho, b)) == cond
    case TestSet(a, b, cond) => Truth(Get(rho, b)) == cond
  }

  datatype Stop = Stop(pc: int, regs: Regs)

  // One instruction.  The machine stops where the next position does not move forward.
  function Next(o: Order, i: Instr, pc: int, rho: Regs): Stop {
    match i
    case Move(a, b) => Stop(pc + 1, Put(rho, a, Get(rho, b)))
    case LoadK(a, v) => Stop(pc + 1, Put(rho, a, v))
    case LoadBool(a, v, skip) => Stop(if skip then pc + 2 else pc + 1, Put(rho, a, Bool(v)))
    case LoadNil(a, b) => Stop(pc + 1, PutNil(rho, a, b))
    case NotOp(a, b) => Stop(pc + 1, Put(rho, a, Bool(!Truth(Get(rho, b)))))
    case Jmp(target) => Stop(target, rho)
    case TestSet(a, b, cond) =>
      if Passes(o, i, rho) then Stop(pc + 1, Put(rho, a, Get(rho, b))) else Stop(pc + 2, rho)
    case Compare(_, _, _, _) => Stop(if Passes(o, i, rho) then pc + 1 else pc + 2, rho)
    case Test(_, _) => Stop(if Passes(o, i, rho) then pc + 1 else pc + 2, rho)
    case Return(_) => Stop(pc, rho)
  }

  function Run(o: Order, code: seq<Instr>, pc: nat, rho: Regs): Stop
    decreases |code| - pc
  {
    if pc >= |code| then Stop(pc, rho)
    else
      var n := Next(o, code[pc], pc, rho);
      if n.pc <= pc then Stop(pc, rho) else Run(o, code, n.pc, n.regs)
  }

  lemma {:induction false} PutNilGet(rho: Regs, from: int, last: int, r: int)
    requires 0 <= from && last < NO_REG
    ensures Get(PutNil(rho, from, last), r) == (if from <= r <= last then Nil else Get(rho, r))
    decreases last - from
  {
    if from <= last {
      PutNilGet(Put(rho, from, Nil), from + 1, last, r);
    }
  }
}
