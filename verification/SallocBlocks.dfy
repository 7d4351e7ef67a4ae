/** The simple allocator's memory: packed header words, and the block list of one zone. */
module SallocBlocks {

  const WORD := 0x1_0000_0000
  const HALF := 0x8000_0000

  type Word = x: nat | x < WORD

  // Memory as 32-bit words at their addresses.
  type Mem = map<nat, Word>

  function At(m: Mem, a: nat): Word {
    if a in m then m[a] else 0
  }

  // ----- packed links: an address divided by 8 below a flag bit

  // The address in a packed word.
  function Link(w: Word): nat {
    w % HALF * 8 % WORD
  }

  predicate Flag(w: Word) {
    w >= HALF
  }

  // The word with another address, the flag staying.
  function WithLink(w: Word, a: nat): Word
    requires a < WORD
  {
    (if w >= HALF then HALF else 0) + a / 8
  }

  function WithFlag(w: Word, taken: bool): Word {
    if taken then w % HALF + HALF else w % HALF
  }

  /** A packed word gives back the address put into it, and keeps its flag; setting the flag keeps the address. */
  lemma Packed(w: Word, a: nat, taken: bool)
    requires a < WORD
    ensures Link(WithLink(w, a)) == a / 8 * 8 && (Flag(WithLink(w, a)) <==> Flag(w))
    ensures Link(WithFlag(w, taken)) == Link(w) && (Flag(WithFlag(w, taken)) <==> taken)
  {
  }

  function Next(m: Mem, p: nat): nat {
    Link(At(m, p))
  }

  function Prev(m: Mem, p: nat): nat {
    Link(At(m, p + 4))
  }

  predicate Taken(m: Mem, p: nat) {
    Flag(At(m, p))
  }

  // ----- the blocks of a zone

  datatype Block = Block(at: nat, taken: bool)

  // Where the words of a header are.
  predicate IsHeader(l: seq<Block>, a: nat) {
    exists i :: 0 <= i < |l| && (a == l[i].at || a == l[i].at + 4)
  }

  predicate Placed(l: seq<Block>, i: nat)
    requires i < |l|
  {
    0 < l[i].at < WORD && l[i].at % 8 == 0 && (i + 1 < |l| ==> l[i].at < l[i + 1].at)
  }

  // Blocks follow each other without gaps between two taken guards.
  predicate Tiled(l: seq<Block>) {
    |l| >= 3 && l[0].taken && l[|l| - 1].taken && forall i :: 0 <= i < |l| ==> Placed(l, i)
  }

  predicate Apart(l: seq<Block>, i: nat)
    requires i < |l|
  {
    i + 1 < |l| ==> l[i].taken || l[i + 1].taken
  }

  // No two free blocks are adjacent.
  predicate Compacted(l: seq<Block>) {
    forall i :: 0 <= i < |l| ==> Apart(l, i)
  }

  // The header of block i, with links that are inverse to each other.
  predicate NodeOK(m: Mem, l: seq<Block>, i: nat)
    requires i < |l|
  {
    && Next(m, l[i].at) == (if i + 1 < |l| then l[i + 1].at else 0)
    && Prev(m, l[i].at) == (if i > 0 then l[i - 1].at else 0)
    && (Taken(m, l[i].at) <==> l[i].taken)
  }

  predicate Linked(m: Mem, l: seq<Block>) {
    forall i :: 0 <= i < |l| ==> NodeOK(m, l, i)
  }

  // Only headers of the list differ.
  ghost predicate SameBut(m: Mem, m': Mem, l: seq<Block>) {
    forall a :: !IsHeader(l, a) ==> At(m', a) == At(m, a)
  }

  lemma {:induction false} Increasing(l: seq<Block>, i: nat, j: nat)
    requires Tiled(l) && i < j < |l|
    ensures l[i].at + 8 <= l[j].at
    decreases j
  {
    assert Placed(l, j - 1) && Placed(l, j);
    if i < j - 1 { Increasing(l, i, j - 1); }
  }

  lemma HeadersApart(l: seq<Block>, i: nat, j: nat)
    requires Tiled(l) && i < |l| && j < |l| && i != j
    ensures l[i].at != l[j].at && l[i].at != l[j].at + 4 && l[i].at + 4 != l[j].at
  {
    if i < j { Increasing(l, i, j); } else { Increasing(l, j, i); }
  }

  function Size(l: seq<Block>, i: nat): nat
    requires i + 1 < |l|
  {
    if l[i].at <= l[i + 1].at then l[i + 1].at - l[i].at else 0
  }

  /** A block in use, with its size. */
  ghost predicate Live(l: seq<Block>, p: nat, s: nat) {
    exists i :: LiveAt(l, i, p, s)
  }

  predicate LiveAt(l: seq<Block>, i: int, p: nat, s: nat) {
    0 < i < |l| - 1 && l[i] == Block(p, true) && Size(l, i) == s
  }

  // ----- changes of the list

  // Block i is cut in two after size bytes.
  function Cut(l: seq<Block>, i: nat, size: nat, taken: bool): seq<Block>
    requires i < |l|
  {
    l[..i + 1] + [Block(l[i].at + size, taken)] + l[i + 1..]
  }

  function Lo(l: seq<Block>, i: nat): nat
    requires 0 < i < |l|
  {
    if l[i - 1].taken then i else i - 1
  }

  function Hi(l: seq<Block>, i: nat): nat
    requires i + 1 < |l|
  {
    if l[i + 1].taken then i + 1 else i + 2
  }

  /** Block i becomes free and is merged with free neighbours. */
  function Merged(l: seq<Block>, i: nat): (r: seq<Block>)
    requires 0 < i && i + 2 <= |l|
  {
    l[..Lo(l, i)] + [Block(l[Lo(l, i)].at, false)] + if Hi(l, i) <= |l| then l[Hi(l, i)..] else []
  }

  // No free block is adjacent to another one, but for block i.
  predicate CompactedBut(l: seq<Block>, i: nat) {
    && (forall j :: 0 <= j < |l| && j != i && j + 1 != i ==> Apart(l, j))
    && 0 < i && i + 2 <= |l|
  }

  // Where block j of the merged list was.
  function From(l: seq<Block>, i: nat, j: nat): nat
    requires 0 < i && i + 2 <= |l|
  {
    if j <= Lo(l, i) then j else j + Hi(l, i) - Lo(l, i) - 1
  }

  lemma MergedAt(l: seq<Block>, i: nat, j: nat)
    requires Tiled(l) && CompactedBut(l, i) && j < |Merged(l, i)|
    ensures Lo(l, i) > 0 && Hi(l, i) < |l| && l[Lo(l, i) - 1].taken && l[Hi(l, i)].taken
    ensures |Merged(l, i)| == |l| - (Hi(l, i) - Lo(l, i) - 1)
    ensures From(l, i, j) < |l| && Merged(l, i)[j].at == l[From(l, i, j)].at
    ensures Merged(l, i)[j].taken == if j == Lo(l, i) then false else l[From(l, i, j)].taken
  {
    if !l[i - 1].taken { assert Apart(l, i - 2); }
    if !l[i + 1].taken { assert Apart(l, i + 1); }
  }

  lemma MergedTiled(l: seq<Block>, i: nat)
    requires Tiled(l) && CompactedBut(l, i)
    ensures Tiled(Merged(l, i)) && Compacted(Merged(l, i))
    ensures |Merged(l, i)| > 1 && Merged(l, i)[0].at == l[0].at && Merged(l, i)[1].at == l[1].at
    ensures Merged(l, i)[|Merged(l, i)| - 1] == l[|l| - 1]
  {
    var r := Merged(l, i);
    MergedAt(l, i, 0);
    MergedAt(l, i, |r| - 1);
    forall j | 0 <= j < |r|
      ensures Placed(r, j) && Apart(r, j)
    {
      MergedAt(l, i, j);
      assert Placed(l, From(l, i, j));
      if j + 1 < |r| {
        MergedAt(l, i, j + 1);
        Increasing(l, From(l, i, j), From(l, i, j + 1));
        if j > Lo(l, i) || j + 1 < Lo(l, i) { assert Apart(l, From(l, i, j)); }
      }
    }
  }

  /** Only the freed block goes: every other block in use keeps its place and its size. */
  lemma MergedLive(l: seq<Block>, i: nat, p: nat, s: nat)
    requires Tiled(l) && CompactedBut(l, i)
    ensures Live(Merged(l, i), p, s) <==> Live(l, p, s) && p != l[i].at
  {
    var r := Merged(l, i);
    MergedAt(l, i, 0);
    if Live(r, p, s) {
      var j :| LiveAt(r, j, p, s);
      MergedAt(l, i, j);
      MergedAt(l, i, j + 1);
      assert LiveAt(l, From(l, i, j), p, s);
      HeadersApart(l, i, From(l, i, j));
    }
    if Live(l, p, s) && p != l[i].at {
      var k :| LiveAt(l, k, p, s);
      var j := if k < i then k else k - (Hi(l, i) - Lo(l, i) - 1);
      MergedAt(l, i, j);
      MergedAt(l, i, j + 1);
      assert LiveAt(r, j, p, s);
    }
  }

  // ----- cutting

  lemma CutAt(l: seq<Block>, i: nat, size: nat, taken: bool, j: nat)
    requires i < |l| && j <= |l|
    ensures |Cut(l, i, size, taken)| == |l| + 1
    ensures Cut(l, i, size, taken)[j] == if j <= i then l[j] else if j == i + 1 then Block(l[i].at + size, taken) else l[j - 1]
  {
  }

  lemma CutTiled(l: seq<Block>, i: nat, size: nat, taken: bool)
    requires Tiled(l) && 0 < i < |l| - 1 && size % 8 == 0 && 0 < size < Size(l, i)
    ensures var r := Cut(l, i, size, taken);
      Tiled(r) && r[0] == l[0] && r[|r| - 1] == l[|l| - 1] && Size(r, i) == size && Size(r, i + 1) == Size(l, i) - size
  {
    var r := Cut(l, i, size, taken);
    forall j | 0 <= j < |r|
      ensures Placed(r, j)
    {
      CutAt(l, i, size, taken, j);
      if j < |l| { CutAt(l, i, size, taken, j + 1); }
      assert Placed(l, if j <= i then j else j - 1) && Placed(l, i) && Placed(l, i + 1);
    }
  }

  // ----- what changes of the list do to memory

  lemma MarkLinked(m: Mem, l: seq<Block>, i: nat, taken: bool)
    requires Tiled(l) && Linked(m, l) && i < |l|
    ensures Linked(m[l[i].at := WithFlag(At(m, l[i].at), taken)], l[i := Block(l[i].at, taken)])
  {
    var m', l' := m[l[i].at := WithFlag(At(m, l[i].at), taken)], l[i := Block(l[i].at, taken)];
    Packed(At(m, l[i].at), 0, taken);
    forall j | 0 <= j < |l|
      ensures NodeOK(m', l', j)
    {
      assert NodeOK(m, l, j);
      if j != i { HeadersApart(l, i, j); }
    }
  }

  // Block a is linked to block b, which comes somewhere behind it.
  function Joined(m: Mem, a: nat, b: nat): Mem
    requires a < WORD && b < WORD
  {
    var m1 := m[a := WithLink(At(m, a), b)];
    m1[b + 4 := WithLink(At(m1, b + 4), a)]
  }

  lemma MergedLinked(m: Mem, l: seq<Block>, i: nat)
    requires Tiled(l) && CompactedBut(l, i) && Linked(m, l) && !l[i].taken
    ensures Lo(l, i) < Hi(l, i) < |l| && l[Lo(l, i)].at < WORD && l[Hi(l, i)].at < WORD
    ensures Hi(l, i) - Lo(l, i) > 1 ==> Linked(Joined(m, l[Lo(l, i)].at, l[Hi(l, i)].at), Merged(l, i))
    ensures Hi(l, i) - Lo(l, i) == 1 ==> Merged(l, i) == l
  {
    var r, lo, hi := Merged(l, i), Lo(l, i), Hi(l, i);
    MergedAt(l, i, 0);
    assert Placed(l, lo) && Placed(l, hi);
    if hi - lo > 1 {
      var m' := Joined(m, l[lo].at, l[hi].at);
      Packed(At(m, l[lo].at), l[hi].at, false);
      Packed(At(m, l[hi].at + 4), l[lo].at, false);
      HeadersApart(l, lo, hi);
      forall j | 0 <= j < |r|
        ensures NodeOK(m', r, j)
      {
        MergedAt(l, i, j);
        var k := From(l, i, j);
        assert NodeOK(m, l, k);
        if j + 1 < |r| { MergedAt(l, i, j + 1); }
        if j > 0 { MergedAt(l, i, j - 1); }
        if k != lo { HeadersApart(l, lo, k); }
        if k != hi { HeadersApart(l, hi, k); }
      }
    }
  }

  // The new header at block i's offset size, between block i and the next one.
  function Inserted(m: Mem, a: nat, t: nat, n: nat): Mem
    requires a < WORD && t < WORD && n < WORD
  {
    var m1 := m[t + 4 := WithLink(At(m, t + 4), a)];
    var m2 := m1[t := WithLink(At(m1, t), n)];
    var m3 := m2[n + 4 := WithLink(At(m2, n + 4), t)];
    m3[a := WithLink(At(m3, a), t)]
  }

  lemma InsertedWords(m: Mem, a: nat, t: nat, n: nat)
    requires a < t < n < WORD && a % 8 == 0 && t % 8 == 0 && n % 8 == 0
    ensures var m' := Inserted(m, a, t, n);
      && Next(m', a) == t && Prev(m', t) == a && Next(m', t) == n && Prev(m', n) == t
      && (Taken(m', a) <==> Taken(m, a)) && (Taken(m', t) <==> Taken(m, t))
      && forall x :: x != a && x != t && x != t + 4 && x != n + 4 ==> At(m', x) == At(m, x)
  {
    Packed(At(m, t + 4), a, false);
    Packed(At(m, t), n, false);
    Packed(At(m, n + 4), t, false);
    Packed(At(m, a), t, false);
  }

  lemma InsertedLinked(m: Mem, l: seq<Block>, i: nat, size: nat)
    requires Tiled(l) && Linked(m, l) && 0 < i < |l| - 1 && size % 8 == 0 && 0 < size < Size(l, i)
    ensures l[i].at < WORD && l[i].at + size < WORD && l[i + 1].at < WORD
    ensures Linked(Inserted(m, l[i].at, l[i].at + size, l[i + 1].at), Cut(l, i, size, Taken(m, l[i].at + size)))
  {
    hide Inserted, Cut, Link, Flag;
    var a, t, n := l[i].at, l[i].at + size, l[i + 1].at;
    assert Placed(l, i) && Placed(l, i + 1);
    var m', r := Inserted(m, a, t, n), Cut(l, i, size, Taken(m, t));
    CutTiled(l, i, size, Taken(m, t));
    InsertedWords(m, a, t, n);
    CutAt(l, i, size, Taken(m, t), 0);
    forall j | 0 <= j < |r|
      ensures NodeOK(m', r, j)
    {
      InsertedNode(m, m', l, i, size, j);
    }
  }

  lemma InsertedNode(m: Mem, m': Mem, l: seq<Block>, i: nat, size: nat, j: nat)
    requires Tiled(l) && Linked(m, l) && 0 < i < |l| - 1 && size % 8 == 0 && 0 < size < Size(l, i) && j <= |l|
    requires var a, t, n, r := l[i].at, l[i].at + size, l[i + 1].at, Cut(l, i, size, Taken(m, l[i].at + size));
      && Tiled(r) && Next(m', a) == t && Prev(m', t) == a && Next(m', t) == n && Prev(m', n) == t
      && (Taken(m', a) <==> Taken(m, a)) && (Taken(m', t) <==> Taken(m, t))
      && forall x :: x != a && x != t && x != t + 4 && x != n + 4 ==> At(m', x) == At(m, x)
    ensures |Cut(l, i, size, Taken(m, l[i].at + size))| == |l| + 1
    ensures NodeOK(m', Cut(l, i, size, Taken(m, l[i].at + size)), j)
  {
    hide Cut, Link, Flag;
    var taken := Taken(m, l[i].at + size);
    var r := Cut(l, i, size, taken);
    CutAt(l, i, size, taken, i);
    CutAt(l, i, size, taken, i + 1);
    CutAt(l, i, size, taken, i + 2);
    CutAt(l, i, size, taken, j);
    if j < |l| { CutAt(l, i, size, taken, j + 1); }
    if j > 0 { CutAt(l, i, size, taken, j - 1); }
    var k := if j <= i then j else j - 1;
    assert NodeOK(m, l, k);
    if j != i + 1 { HeadersApart(r, j, i + 1); }
    if j != i { HeadersApart(r, j, i); }
    if j != i + 2 { HeadersApart(r, j, i + 2); }
  }

  // ----- the frame

  lemma SameTwice(m: Mem, m1: Mem, m2: Mem, l: seq<Block>)
    requires SameBut(m, m1, l) && SameBut(m1, m2, l)
    ensures SameBut(m, m2, l)
  {
  }

  // The words of a block in use are not those of a header.
  lemma PayloadApart(l: seq<Block>, i: nat, a: nat)
    requires Tiled(l) && i < |l| - 1 && l[i].at + 8 <= a < l[i + 1].at && a % 4 == 0
    ensures !IsHeader(l, a)
  {
    forall j | 0 <= j < |l|
      ensures a != l[j].at && a != l[j].at + 4
    {
      assert Placed(l, i) && Placed(l, i + 1) && Placed(l, j);
      if j < i { Increasing(l, j, i); }
      if j > i + 1 { Increasing(l, i + 1, j); }
    }
  }
}
