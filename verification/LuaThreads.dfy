/** Instructions as lcode.c writes them, and jump lists threaded through their offset fields. */
module LuaThreads {
  import opened LuaMachine

  const NO_JUMP := -1
  const BITRK := 256
  const MAXINDEXRK := 255
  const MAXARG_BX := 0x3_FFFF
  const MAXSTACK := 250

  datatype Instruction =
    | OP_MOVE(a: int, b: int)
    | OP_LOADK(a: int, bx: int)
    | OP_LOADBOOL(a: int, b: int, c: int)
    | OP_LOADNIL(a: int, b: int)
    | OP_NOT(a: int, b: int)
    | OP_JMP(sbx: int)
    | OP_COMPARE(op: CompareOp, a: int, b: int, c: int)   // OP_EQ, OP_LT, OP_LE
    | OP_TEST(a: int, c: int)
    | OP_TESTSET(a: int, b: int, c: int)
    | OP_RETURN(a: int, b: int)

  predicate TestTMode(i: Instruction) {
    i.OP_COMPARE? || i.OP_TEST? || i.OP_TESTSET?
  }

  function Bit(b: bool): int {
    if b then 1 else 0
  }

  // ----- what an instruction stands for

  predicate SameOperand(k: seq<Value>, c: int, x: Operand) {
    match x
    case Reg(r) => c == r && 0 <= r < BITRK
    case Const(v) => BITRK <= c < BITRK + |k| && c <= BITRK + MAXINDEXRK && k[c - BITRK] == v
  }

  // A pending jump may have any offset, and a NOT without a target any register.
  predicate Same(k: seq<Value>, i: int, c: Instruction, a: Instr) {
    match a
    case Move(x, y) => c == OP_MOVE(x, y)
    case LoadK(x, v) => c.OP_LOADK? && c.a == x && 0 <= c.bx < |k| && k[c.bx] == v
    case LoadBool(x, v, skip) => c == OP_LOADBOOL(x, Bit(v), Bit(skip))
    case LoadNil(x, y) => c == OP_LOADNIL(x, y)
    case NotOp(x, y) => c.OP_NOT? && c.b == y && (x == NO_REG || c.a == x)
    case Jmp(t) => c.OP_JMP? && (t == PENDING || c.sbx == t - (i + 1))
    case Compare(op, cond, l, r) =>
      c.OP_COMPARE? && c.op == op && c.a == Bit(cond) && SameOperand(k, c.b, l) && SameOperand(k, c.c, r)
    case Test(b, cond) => c == OP_TEST(b, Bit(cond))
    case TestSet(x, b, cond) => c == OP_TESTSET(x, b, Bit(cond))
    case Return(x) => c == OP_RETURN(x, 2)
  }

  ghost predicate SameCode(k: seq<Value>, code: seq<Instruction>, a: seq<Instr>) {
    |code| == |a| && forall i :: 0 <= i < |code| ==> Same(k, i, code[i], a[i])
  }

  lemma SameCodeGrows(k: seq<Value>, v: Value, code: seq<Instruction>, a: seq<Instr>)
    requires SameCode(k, code, a)
    ensures SameCode(k + [v], code, a)
  {
    forall i | 0 <= i < |code|
      ensures Same(k + [v], i, code[i], a[i])
    {
      assert Same(k, i, code[i], a[i]);
    }
  }

  // ----- threads

  // getjump
  function GetJump(code: seq<Instruction>, pc: int): int
    requires 0 <= pc < |code| && code[pc].OP_JMP?
  {
    if code[pc].sbx == NO_JUMP then NO_JUMP else pc + 1 + code[pc].sbx
  }

  // The list that starts at head consists of the positions q.
  predicate Threads(code: seq<Instruction>, head: int, q: seq<int>)
    decreases |q|
  {
    if q == [] then head == NO_JUMP
    else head == q[0] && 0 <= head < |code| && code[head].OP_JMP? && Threads(code, GetJump(code, head), q[1..])
  }

  function Elems(q: seq<int>): set<int> {
    set j | j in q
  }

  ghost predicate IsList(code: seq<Instruction>, head: int, s: set<int>) {
    exists q :: Threads(code, head, q) && Elems(q) == s
  }

  lemma {:induction false} ThreadsFrame(code: seq<Instruction>, code': seq<Instruction>, head: int, q: seq<int>)
    requires Threads(code, head, q)
    requires forall j :: j in q && 0 <= j < |code| ==> j < |code'| && code'[j] == code[j]
    ensures Threads(code', head, q)
    decreases |q|
  {
    if q != [] {
      assert q[0] in q;
      assert forall j :: j in q[1..] ==> j in q;
      ThreadsFrame(code, code', GetJump(code, head), q[1..]);
    }
  }

  lemma {:induction false} ThreadsMembers(code: seq<Instruction>, head: int, q: seq<int>)
    requires Threads(code, head, q)
    ensures forall j :: j in q ==> 0 <= j < |code| && code[j].OP_JMP?
    ensures forall i :: 0 <= i < |q| ==> 0 <= q[i] < |code| && q[i] in q
    ensures q == [] <==> head == NO_JUMP
    ensures q != [] ==> head in q
    decreases |q|
  {
    if q != [] {
      ThreadsMembers(code, GetJump(code, head), q[1..]);
      assert q == [q[0]] + q[1..];
    }
  }

  lemma {:induction false} ThreadsFrom(code: seq<Instruction>, head: int, q: seq<int>, n: nat)
    requires Threads(code, head, q) && n <= |q|
    ensures Threads(code, if n == |q| then NO_JUMP else q[n], q[n..])
    ensures 0 < n <= |q| ==> 0 <= q[n - 1] < |code| && code[q[n - 1]].OP_JMP?
    ensures 0 < n <= |q| ==> GetJump(code, q[n - 1]) == (if n == |q| then NO_JUMP else q[n])
    decreases |q|
  {
    if n == 0 {
      assert q[0..] == q;
    } else {
      ThreadsFrom(code, GetJump(code, head), q[1..], n - 1);
      assert q[n..] == q[1..][n - 1..];
      if n >= 2 { assert q[n - 1] == q[1..][n - 2]; }
    }
  }

  /** A list is determined by its head ... */
  lemma {:induction false} ThreadsUnique(code: seq<Instruction>, head: int, q: seq<int>, q': seq<int>)
    requires Threads(code, head, q) && Threads(code, head, q')
    ensures q == q'
    decreases |q|
  {
    ThreadsMembers(code, head, q);
    ThreadsMembers(code, head, q');
    if q != [] {
      ThreadsUnique(code, GetJump(code, head), q[1..], q'[1..]);
      assert q == [head] + q[1..] && q' == [head] + q'[1..];
    }
  }

  /** ... and visits no position twice. */
  lemma ThreadsDistinct(code: seq<Instruction>, head: int, q: seq<int>, i: nat, j: nat)
    requires Threads(code, head, q) && i < j < |q|
    ensures q[i] != q[j]
  {
    if q[i] == q[j] {
      ThreadsFrom(code, head, q, i);
      ThreadsFrom(code, head, q, j);
      ThreadsUnique(code, q[i], q[i..], q[j..]);
      assert false;
    }
  }

  // Threads after linking the last element of the first list to the second.
  lemma {:induction false} ThreadsConcat(code: seq<Instruction>, code': seq<Instruction>, h1: int, q1: seq<int>,
          h2: int, q2: seq<int>)
    requires Threads(code, h1, q1) && Threads(code, h2, q2) && q1 != [] && q2 != []
    requires forall j :: j in q2 ==> j !in q1
    requires |code'| == |code|
    requires var m := q1[|q1| - 1];
      && 0 <= m < |code| && code'[m] == OP_JMP(h2 - (m + 1))
      && (forall i :: 0 <= i < |code| && i != m ==> code'[i] == code[i])
    requires forall i :: 0 <= i < |q1| - 1 ==> q1[i] != q1[|q1| - 1]
    ensures Threads(code', h1, q1 + q2)
    decreases |q1|
  {
    var m := q1[|q1| - 1];
    ThreadsMembers(code, h2, q2);
    if |q1| == 1 {
      assert q1 == [m];
      assert (q1 + q2)[1..] == q2;
      ThreadsFrame(code, code', h2, q2);
      assert GetJump(code', m) == h2;
    } else {
      assert (q1 + q2)[1..] == q1[1..] + q2;
      assert q1[0] != m;
      assert GetJump(code', h1) == GetJump(code, h1);
      ThreadsConcat(code, code', GetJump(code, h1), q1[1..], h2, q2);
    }
  }
}
