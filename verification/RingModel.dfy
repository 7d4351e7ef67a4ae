/** A ring of a power of two bytes that drops its oldest element: positions, and what the ring holds
    after a history of writes. */
module RingModel {
  import opened Words

  type Elem = seq<Byte>

  function Max(a: int, b: int): int {
    if a > b then a else b
  }

  function Min(a: int, b: int): int {
    if a < b then a else b
  }

  // BUF_REALDSIZE, BUF_REALSIZE
  function Bytes(ld: nat): nat {
    Pow2(ld)
  }

  function Room(ls: nat, ld: nat): (n: nat)
    requires ld <= ls
    ensures n > 0
  {
    Pow2(ls - ld)
  }

  // BUF_MOD_INCR: the fields have 16 bits.
  function Incr(p: nat, ls: nat, ld: nat): nat {
    BitAnd(p + Pow2(ld), Pow2(ls) - 1) % 0x1_0000
  }

  datatype Ring = Ring(wptr: nat, rptr: nat, count: nat, bytes: seq<Byte>)

  predicate Fits(r: Ring, ls: nat, ld: nat) {
    ld <= ls && |r.bytes| == Pow2(ls) && r.wptr + Pow2(ld) <= |r.bytes|
  }

  // The sizes the constants allow that fit 16-bit pointers: at most 32768 elements, and at most 2^16 bytes.
  predicate Standard(ls: nat, ld: nat) {
    ld <= ls <= 16 && ls - ld <= 15
  }

  lemma CountFits(ls: nat, ld: nat, n: nat)
    requires ld <= ls && ls - ld <= 15 && n < Room(ls, ld)
    ensures (n + 1) % 0x1_0000 == n + 1
  {
    Pow2AtMost(ls - ld);
  }

  lemma Pow2AtMost(k: nat)
    requires k <= 15
    ensures Pow2(k) <= 0x8000
  {
    hide Pow2;
    Pow2Values();
    if k < 15 { Pow2Less(k, 15); }
  }

  /** buf_write */
  function Put(r: Ring, ls: nat, ld: nat, e: Elem): Ring
    requires Fits(r, ls, ld) && |e| == Bytes(ld)
  {
    var full := r.count == Room(ls, ld);
    Ring(Incr(r.wptr, ls, ld), if full then Incr(r.rptr, ls, ld) else r.rptr, if full then r.count else (r.count + 1) % 0x1_0000,
         r.bytes[..r.wptr] + e + r.bytes[r.wptr + |e|..])
  }

  // ----- positions

  // The place of element i of the history.
  function Pos(i: nat, n: nat, d: nat): nat
    requires n > 0
  {
    d * (i % n)
  }

  lemma NextRemainder(i: nat, n: nat)
    requires n > 0
    ensures (i + 1) % n == if i % n == n - 1 then 0 else i % n + 1
  {
    var q, r := Divided(i, n);
    if r == n - 1 {
      Distribute(n, q, 1);
      Remaining(i + 1, q + 1, n, 0);
    } else {
      Remaining(i + 1, q, n, r + 1);
    }
  }

  lemma Scaled(a: nat, b: nat, d: nat)
    requires a < b
    ensures d * a + d <= d * b
  {
    Larger(d, a, b);
  }

  lemma SizeIs(ls: nat, ld: nat)
    requires ld <= ls
    ensures Pow2(ls) == Bytes(ld) * Room(ls, ld)
  {
    Pow2Add(ld, ls - ld);
  }

  // A place is inside the ring, and the next one follows.
  lemma PosInside(i: nat, ls: nat, ld: nat)
    requires ld <= ls
    ensures Pos(i, Room(ls, ld), Bytes(ld)) + Bytes(ld) <= Pow2(ls)
  {
    SizeIs(ls, ld);
    Scaled(i % Room(ls, ld), Room(ls, ld), Bytes(ld));
  }

  lemma PosNext(i: nat, ls: nat, ld: nat)
    requires ld <= ls
    ensures (Pos(i, Room(ls, ld), Bytes(ld)) + Bytes(ld)) % Pow2(ls) == Pos(i + 1, Room(ls, ld), Bytes(ld))
  {
    hide Pow2;
    SizeIs(ls, ld);
    NextRemainder(i, Room(ls, ld));
    NextPlace(i % Room(ls, ld), Room(ls, ld), Bytes(ld));
  }

  lemma NextPlace(r: nat, n: nat, d: nat)
    requires r < n && d > 0
    ensures d * n > 0 && (d * r + d) % (d * n) == if r == n - 1 then d * 0 else d * (r + 1)
  {
    Distribute(d, r, 1);
    Larger(d, 0, n);
    if r == n - 1 {
      Remaining(d * r + d, 1, d * n, 0);
    } else {
      Scaled(r + 1, n, d);
      Remaining(d * r + d, 0, d * n, d * (r + 1));
    }
  }

  // The pointers go from place to place, if 16 bits are enough for the ring.
  lemma IncrPos(i: nat, ls: nat, ld: nat)
    requires Standard(ls, ld)
    ensures Incr(Pos(i, Room(ls, ld), Bytes(ld)), ls, ld) == Pos(i + 1, Room(ls, ld), Bytes(ld))
  {
    hide BitAnd, Pos;
    var p := Pos(i, Room(ls, ld), Bytes(ld));
    LowMask(p + Pow2(ld), ls);
    PosNext(i, ls, ld);
    PosInside(i + 1, ls, ld);
    Pow2Values();
    if ls < 16 { Pow2Less(ls, 16); }
  }

  lemma {:induction false} PosPlus(i: nat, c: nat, ls: nat, ld: nat)
    requires ld <= ls
    ensures (Pos(i, Room(ls, ld), Bytes(ld)) + Bytes(ld) * c) % Pow2(ls) == Pos(i + c, Room(ls, ld), Bytes(ld))
    decreases c
  {
    hide Pos, Pow2;
    var d := Bytes(ld);
    var p := Pos(i, Room(ls, ld), d);
    if c == 0 {
      PosInside(i, ls, ld);
      Remaining(p, 0, Pow2(ls), p);
    } else {
      PosPlus(i, c - 1, ls, ld);
      PosNext(i + (c - 1), ls, ld);
      Distribute(d, c - 1, 1);
      RemainderPlus(p + d * (c - 1), d, Pow2(ls));
    }
  }

  lemma RemainderPlus(x: nat, y: nat, m: nat)
    requires m > 0
    ensures (x + y) % m == (x % m + y) % m
  {
    var q, r := Divided(x, m);
    var q', r' := Divided(r + y, m);
    Distribute(m, q, q');
    Remaining(x + y, q + q', m, r');
  }

  // Two elements that are fewer than n apart have places of their own.
  lemma PlacesDiffer(i: nat, k: nat, n: nat)
    requires i < k < i + n
    ensures i % n != k % n
  {
    if i % n == k % n {
      var a, b, r := i / n, k / n, i % n;
      assert i == n * a + r && k == n * b + r;
      if a < b { Larger(n, a, b); } else if b < a { Larger(n, b, a); }
    }
  }

  lemma PosApart(i: nat, k: nat, n: nat, d: nat)
    requires i < k < i + n
    ensures Pos(i, n, d) + d <= Pos(k, n, d) || Pos(k, n, d) + d <= Pos(i, n, d)
  {
    PlacesDiffer(i, k, n);
    if i % n < k % n { Scaled(i % n, k % n, d); } else { Scaled(k % n, i % n, d); }
  }

  lemma PosSame(i: nat, k: nat, n: nat, d: nat)
    requires n > 0 && d > 0
    ensures Pos(i, n, d) == Pos(k, n, d) <==> i % n == k % n
  {
    if i % n < k % n { Scaled(i % n, k % n, d); }
    if k % n < i % n { Scaled(k % n, i % n, d); }
  }

  // ----- what a ring holds

  predicate Elems(w: seq<Elem>, d: nat) {
    forall i :: 0 <= i < |w| ==> |w[i]| == d
  }

  predicate At(bytes: seq<Byte>, p: nat, e: Elem) {
    p + |e| <= |bytes| && bytes[p..p + |e|] == e
  }

  // The last elements written are in their places, whether they have been read or not.
  predicate Stored(bytes: seq<Byte>, n: nat, d: nat, w: seq<Elem>)
    requires n > 0
  {
    forall i: nat :: |w| - n <= i < |w| ==> At(bytes, Pos(i, n, d), w[i])
  }

  /** The ring after the elements w have been written and those before head have been removed. */
  predicate Holds(r: Ring, ls: nat, ld: nat, w: seq<Elem>, head: nat)
    requires ld <= ls
  {
    var n, d := Room(ls, ld), Bytes(ld);
    && head <= |w| <= head + n && r.count == |w| - head
    && r.wptr == Pos(|w|, n, d) && r.rptr == Pos(head, n, d) && |r.bytes| == Pow2(ls)
    && Elems(w, d) && Stored(r.bytes, n, d, w)
  }

  // Where the queue begins after w has been written.
  function Dropped(head: nat, len: nat, n: nat): nat {
    Max(head, len - n)
  }

  lemma StoredNext(bytes: seq<Byte>, ls: nat, ld: nat, w: seq<Elem>, e: Elem)
    requires ld <= ls && |bytes| == Pow2(ls) && Elems(w, Bytes(ld)) && Stored(bytes, Room(ls, ld), Bytes(ld), w)
    requires |e| == Bytes(ld)
    requires Pos(|w|, Room(ls, ld), Bytes(ld)) + |e| <= |bytes|
    ensures var p := Pos(|w|, Room(ls, ld), Bytes(ld));
      Stored(bytes[..p] + e + bytes[p + |e|..], Room(ls, ld), Bytes(ld), w + [e])
  {
    hide Pos, Pow2;
    var n, d := Room(ls, ld), Bytes(ld);
    var p := Pos(|w|, n, d);
    var bytes' := bytes[..p] + e + bytes[p + |e|..];
    forall i: nat | |w| + 1 - n <= i < |w| + 1
      ensures At(bytes', Pos(i, n, d), (w + [e])[i])
    {
      if i < |w| {
        PosApart(i, |w|, n, d);
        Elsewhere(bytes, p, e, Pos(i, n, d), w[i]);
      }
    }
  }

  lemma Elsewhere(bytes: seq<Byte>, p: nat, e: Elem, q: nat, x: Elem)
    requires p + |e| <= |bytes| && At(bytes, q, x) && (q + |x| <= p || p + |e| <= q)
    ensures At(bytes[..p] + e + bytes[p + |e|..], q, x)
  {
    var bytes' := bytes[..p] + e + bytes[p + |e|..];
    forall j | q <= j < q + |x|
      ensures bytes'[j] == bytes[j]
    {
    }
    assert bytes'[q..q + |x|] == bytes[q..q + |x|];
  }

  /** A write is an element more at the end of the queue; when the ring is full, the oldest one is gone. */
  lemma PutHolds(r: Ring, ls: nat, ld: nat, w: seq<Elem>, head: nat, e: Elem)
    requires Standard(ls, ld) && Holds(r, ls, ld, w, head) && |e| == Bytes(ld)
    ensures Fits(r, ls, ld) && Holds(Put(r, ls, ld, e), ls, ld, w + [e], Dropped(head, |w| + 1, Room(ls, ld)))
  {
    hide Pos, Pow2, Stored, Incr;
    PosInside(|w|, ls, ld);
    IncrPos(|w|, ls, ld);
    IncrPos(head, ls, ld);
    if r.count < Room(ls, ld) { CountFits(ls, ld, r.count); }
    StoredNext(r.bytes, ls, ld, w, e);
  }

  // ----- many writes

  function PutAll(r: Ring, ls: nat, ld: nat, es: seq<Elem>): Ring
    requires ld <= ls && Elems(es, Bytes(ld))
    decreases |es|
  {
    if es == [] then r
    else
      var r' := PutAll(r, ls, ld, es[..|es| - 1]);
      if Fits(r', ls, ld) then Put(r', ls, ld, es[|es| - 1]) else r'
  }

  lemma {:induction false} PutAllHolds(r: Ring, ls: nat, ld: nat, w: seq<Elem>, head: nat, es: seq<Elem>)
    requires Standard(ls, ld) && Holds(r, ls, ld, w, head) && Elems(es, Bytes(ld))
    ensures Holds(PutAll(r, ls, ld, es), ls, ld, w + es, Dropped(head, |w| + |es|, Room(ls, ld)))
    decreases |es|
  {
    hide Holds, Pow2, Put;
    if es == [] {
      HeldBounds(r, ls, ld, w, head);
      assert w + es == w;
    } else {
      var k := |es| - 1;
      PutAllHolds(r, ls, ld, w, head, es[..k]);
      PutHolds(PutAll(r, ls, ld, es[..k]), ls, ld, w + es[..k], Dropped(head, |w| + k, Room(ls, ld)), es[k]);
      assert w + es == (w + es[..k]) + [es[k]];
    }
  }

  lemma PutAllNone(r: Ring, ls: nat, ld: nat)
    requires ld <= ls
    ensures PutAll(r, ls, ld, []) == r
  {
  }

  lemma EmptyHolds(r: Ring, ls: nat, ld: nat)
    requires ld <= ls && r.wptr == 0 && r.rptr == 0 && r.count == 0 && |r.bytes| == Pow2(ls)
    ensures Holds(r, ls, ld, [], 0)
  {
  }

  lemma HeldBounds(r: Ring, ls: nat, ld: nat, w: seq<Elem>, head: nat)
    requires ld <= ls && Holds(r, ls, ld, w, head)
    ensures head <= |w| <= head + Room(ls, ld) && r.count == |w| - head && Elems(w, Bytes(ld)) && |r.bytes| == Pow2(ls)
    ensures Tame(r, ls, ld, |w|, head) && Fits(r, ls, ld)
  {
    hide Pos, Stored, Pow2;
    PosInside(|w|, ls, ld);
  }

  // While the ring does not overflow, the reader's pointer plays no part.
  lemma {:induction false} PutAllReader(r: Ring, ls: nat, ld: nat, es: seq<Elem>, x: nat)
    requires ld <= ls && Elems(es, Bytes(ld)) && r.count + |es| <= Room(ls, ld)
    ensures PutAll(r.(rptr := x), ls, ld, es) == PutAll(r, ls, ld, es).(rptr := x)
    ensures PutAll(r, ls, ld, es).count <= r.count + |es|
    decreases |es|
  {
    hide Pow2, Incr;
    if es != [] { PutAllReader(r, ls, ld, es[..|es| - 1], x); }
  }

  /** A read takes the oldest element out. */
  lemma TakeHolds(r: Ring, ls: nat, ld: nat, w: seq<Elem>, head: nat)
    requires Standard(ls, ld) && Holds(r, ls, ld, w, head) && head < |w|
    ensures Holds(r.(count := r.count - 1, rptr := Incr(r.rptr, ls, ld)), ls, ld, w, head + 1)
  {
    hide Pos, Pow2, Incr, Stored;
    IncrPos(head, ls, ld);
  }

  // Pointers at places, whatever the ring holds.
  ghost predicate Tame(r: Ring, ls: nat, ld: nat, a: nat, b: nat)
    requires ld <= ls
  {
    && r.wptr == Pos(a, Room(ls, ld), Bytes(ld)) && r.rptr == Pos(b, Room(ls, ld), Bytes(ld))
    && r.count <= Room(ls, ld) && |r.bytes| == Pow2(ls)
  }

  lemma {:induction false} PutAllTame(r: Ring, ls: nat, ld: nat, es: seq<Elem>, a: nat, b: nat)
    requires Standard(ls, ld) && Elems(es, Bytes(ld)) && Tame(r, ls, ld, a, b)
    ensures var r', c := PutAll(r, ls, ld, es), Min(Room(ls, ld), r.count + |es|);
      r'.count == c && Tame(r', ls, ld, a + |es|, b + (r.count + |es| - c))
    decreases |es|
  {
    hide Pos, Pow2, Incr;
    if es != [] {
      var k := |es| - 1;
      PutAllTame(r, ls, ld, es[..k], a, b);
      var c := Min(Room(ls, ld), r.count + k);
      PosInside(a + k, ls, ld);
      IncrPos(a + k, ls, ld);
      IncrPos(b + (r.count + k - c), ls, ld);
      if c < Room(ls, ld) { CountFits(ls, ld, c); }
    }
  }

  /** The reader and the writer agree on how many elements there are. */
  predicate Linked(r: Ring, ls: nat, ld: nat) {
    r.wptr == (r.rptr + Bytes(ld) * r.count) % Pow2(ls)
  }

  lemma TameLinked(r: Ring, ls: nat, ld: nat, a: nat, b: nat)
    requires ld <= ls && Tame(r, ls, ld, a, b)
    ensures Linked(r, ls, ld) <==> a % Room(ls, ld) == (b + r.count) % Room(ls, ld)
  {
    hide Pos, Pow2;
    PosPlus(b, r.count, ls, ld);
    PosSame(a, b + r.count, Room(ls, ld), Bytes(ld));
  }

  lemma HoldsLinked(r: Ring, ls: nat, ld: nat, w: seq<Elem>, head: nat)
    requires ld <= ls && Holds(r, ls, ld, w, head)
    ensures Linked(r, ls, ld)
  {
    hide Pos, Pow2, Stored;
    TameLinked(r, ls, ld, |w|, head);
  }

  // ----- how wide the fields have to be

  function Empty(ls: nat): Ring {
    Ring(0, 0, 0, seq(Pow2(ls), _ => 0))
  }

  // Zeros, k elements of them.
  function Zeros(k: nat, d: nat): (es: seq<Elem>)
    ensures |es| == k && Elems(es, d)
  {
    seq(k, _ => seq(d, _ => 0))
  }

  ghost predicate AlwaysLinked(ls: nat, ld: nat)
    requires ld <= ls
  {
    forall es: seq<Elem> :: Elems(es, Bytes(ld)) ==> Linked(PutAll(Empty(ls), ls, ld, es), ls, ld)
  }

  lemma {:induction false} WidePointers(ls: nat, ld: nat, k: nat)
    requires ld <= 16 < ls && ls - ld <= 15 && k <= Pow2(16 - ld)
    ensures var r := PutAll(Empty(ls), ls, ld, Zeros(k, Bytes(ld)));
      r.count == k && r.rptr == 0 && |r.bytes| == Pow2(ls) && r.wptr == if k == Pow2(16 - ld) then 0 else Bytes(ld) * k
    decreases k
  {
    hide Incr, Pow2;
    Pow2Add(ld, 16 - ld);
    Pow2Less(16, ls);
    Pow2Values();
    if k > 0 {
      WidePointers(ls, ld, k - 1);
      assert Zeros(k, Bytes(ld))[..k - 1] == Zeros(k - 1, Bytes(ld));
      WideStep(ls, ld, k);
      CountFits(ls, ld, k - 1);
    }
  }

  lemma WideStep(ls: nat, ld: nat, k: nat)
    requires ld <= 16 < ls && 0 < k <= Pow2(16 - ld)
    ensures Bytes(ld) * (k - 1) + Bytes(ld) == Bytes(ld) * k <= 0x1_0000 < Pow2(ls)
    ensures Incr(Bytes(ld) * (k - 1), ls, ld) == if k == Pow2(16 - ld) then 0 else Bytes(ld) * k
    ensures k - 1 < Room(ls, ld)
  {
    hide BitAnd;
    var d := Bytes(ld);
    assert d * (k - 1) + d == d * k;
    Pow2Add(ld, 16 - ld);
    Pow2Less(16, ls);
    Pow2Less(16 - ld, ls - ld);
    Pow2Values();
    if k < Pow2(16 - ld) { Scaled(k, Pow2(16 - ld), d); }
    LowMask(d * k, ls);
    Remaining(d * k, 0, Pow2(ls), d * k);
  }

  /** The 16-bit fields keep up with every run of writes exactly when the ring has at most 2^16 bytes: with
      32768 elements of 4 bytes, which the size constants allow, the writer is back at the start half way. */
  lemma WideExactly(ls: nat, ld: nat)
    requires ld <= ls && ld <= 16 && ls - ld <= 15
    ensures AlwaysLinked(ls, ld) <==> ls <= 16
  {
    hide Pos, Pow2, Incr, Linked, PutAll;
    if ls <= 16 {
      forall es: seq<Elem> | Elems(es, Bytes(ld))
        ensures Linked(PutAll(Empty(ls), ls, ld, es), ls, ld)
      {
        EmptyTame(ls, ld);
        PutAllTame(Empty(ls), ls, ld, es, 0, 0);
        var r, c := PutAll(Empty(ls), ls, ld, es), Min(Room(ls, ld), |es|);
        TameLinked(r, ls, ld, |es|, |es| - c);
      }
    } else {
      WideNot(ls, ld);
    }
  }

  lemma EmptyTame(ls: nat, ld: nat)
    requires ld <= ls
    ensures Tame(Empty(ls), ls, ld, 0, 0)
  {
  }

  lemma WideNot(ls: nat, ld: nat)
    requires ld <= 16 < ls && ls - ld <= 15
    ensures !AlwaysLinked(ls, ld)
  {
    hide Pow2, PutAll;
    var k := Pow2(16 - ld);
    var es := Zeros(k, Bytes(ld));
    WidePointers(ls, ld, k);
    Pow2Add(ld, 16 - ld);
    Pow2Values();
    Pow2Less(16, ls);
    var r := PutAll(Empty(ls), ls, ld, es);
    Remaining(Bytes(ld) * k, 0, Pow2(ls), 0x1_0000);
    assert !Linked(r, ls, ld);
  }

  // ----- emptying the ring while writes come in

  /** buf_flush, xs being written after count is cleared and ys after wptr is. */
  function Flushed(r: Ring, ls: nat, ld: nat, xs: seq<Elem>, ys: seq<Elem>): Ring
    requires ld <= ls && Elems(xs, Bytes(ld)) && Elems(ys, Bytes(ld))
  {
    PutAll(PutAll(r.(count := 0), ls, ld, xs).(wptr := 0), ls, ld, ys).(rptr := 0)
  }

  /** The ring is in order after that exactly when nothing was written before wptr was cleared, or the ring
      was filled from its start. */
  lemma FlushedExactly(r: Ring, ls: nat, ld: nat, xs: seq<Elem>, ys: seq<Elem>, a: nat, b: nat)
    requires Standard(ls, ld) && Elems(xs, Bytes(ld)) && Elems(ys, Bytes(ld)) && Tame(r, ls, ld, a, b)
    ensures Linked(Flushed(r, ls, ld, xs, ys), ls, ld) <==>
      if |xs| + |ys| < Room(ls, ld) then xs == [] else |ys| % Room(ls, ld) == 0
  {
    hide Pow2, PutAll, Linked, Pos, Incr;
    var n := Room(ls, ld);
    var r1 := r.(count := 0);
    PutAllTame(r1, ls, ld, xs, a, b);
    var r2 := PutAll(r1, ls, ld, xs);
    var c := Min(n, |xs|);
    var r3 := r2.(wptr := 0);
    PosStart(n, Bytes(ld));
    PutAllTame(r3, ls, ld, ys, 0, b + (|xs| - c));
    var r5 := PutAll(r3, ls, ld, ys).(rptr := 0);
    assert r5.count == Min(n, |xs| + |ys|);
    TameLinked(r5, ls, ld, |ys|, 0);
    SmallRemainder(|ys|, n);
    SmallRemainder(r5.count, n);
  }

  lemma PosStart(n: nat, d: nat)
    requires n > 0
    ensures Pos(0, n, d) == 0
  {
  }

  lemma SmallRemainder(x: nat, n: nat)
    requires n > 0
    ensures x < n ==> x % n == x
    ensures n % n == 0
  {
    if x < n { Remaining(x, 0, n, x); }
    Remaining(n, 1, n, 0);
  }

  // ----- what a reader that is interrupted gets

  // The number of the last element written at the place of h, of m written in all.
  function Latest(h: nat, m: nat, n: nat): nat
    requires n > 0 && h < m
  {
    h + n * ((m - 1 - h) / n)
  }

  lemma LatestPlace(h: nat, m: nat, n: nat, d: nat)
    requires n > 0 && h < m
    ensures m - n <= Latest(h, m, n) < m && h <= Latest(h, m, n)
    ensures Latest(h, m, n) % n == h % n && Pos(Latest(h, m, n), n, d) == Pos(h, n, d)
  {
    var a, x := Divided(m - 1 - h, n);
    var b, r := Divided(h, n);
    Distribute(n, b, a);
    Remaining(Latest(h, m, n), b + a, n, r);
  }

  /** What a read delivers that begins at element h, byte j being copied when lens[j] elements have been written. */
  function Delivered(w: seq<Elem>, n: nat, d: nat, h: nat, lens: seq<nat>): (e: Elem)
    requires n > 0 && |lens| == d && Elems(w, d) && forall j :: 0 <= j < d ==> h < lens[j] <= |w|
    ensures |e| == d
  {
    seq(d, j requires 0 <= j < d =>
      LatestBound(h, lens[j], n);
      w[Latest(h, lens[j], n)][j])
  }

  lemma LatestBound(h: nat, m: nat, n: nat)
    requires n > 0 && h < m
    ensures Latest(h, m, n) < m
  {
    LatestPlace(h, m, n, 0);
  }

  // One byte of it.
  lemma DeliveredByte(r: Ring, ls: nat, ld: nat, w: seq<Elem>, head: nat, h: nat, w': seq<Elem>, lens: seq<nat>, j: nat)
    requires ld <= ls && Holds(r, ls, ld, w, head) && h < |w| && w <= w' && |lens| == Bytes(ld) && Elems(w', Bytes(ld))
    requires j < Bytes(ld) && lens[j] == |w| && forall i :: 0 <= i < Bytes(ld) ==> h < lens[i] <= |w'|
    ensures Pos(h, Room(ls, ld), Bytes(ld)) + j < |r.bytes|
    ensures r.bytes[Pos(h, Room(ls, ld), Bytes(ld)) + j] == Delivered(w', Room(ls, ld), Bytes(ld), h, lens)[j]
  {
    hide Pos, Pow2, Latest;
    var n, d := Room(ls, ld), Bytes(ld);
    LatestPlace(h, |w|, n, d);
    var m := Latest(h, |w|, n);
    assert At(r.bytes, Pos(m, n, d), w[m]);
    assert w[m] == w'[m];
  }

  // Nothing is written over while the element is the oldest one.
  lemma LatestFirst(h: nat, m: nat, n: nat)
    requires n > 0 && h < m <= h + n
    ensures Latest(h, m, n) == h
  {
    Remaining(m - 1 - h, 0, n, m - 1 - h);
  }

  lemma LatestLast(h: nat, m: nat, n: nat, top: nat)
    requires n > 0 && h < m && h <= top < m <= top + n
    ensures Latest(h, m, n) == top <==> top % n == h % n
  {
    LatestPlace(h, m, n, 0);
    var l := Latest(h, m, n);
    if top % n == h % n {
      if l < top { PlacesDiffer(l, top, n); }
      if top < l { PlacesDiffer(top, l, n); }
    }
  }

  // Without writes over it the element is delivered whole.
  lemma DeliveredWhole(w: seq<Elem>, n: nat, d: nat, h: nat, lens: seq<nat>)
    requires n > 0 && |lens| == d && Elems(w, d) && h < |w| <= h + n && forall j :: 0 <= j < d ==> h < lens[j] <= |w|
    ensures Delivered(w, n, d, h, lens) == w[h]
  {
    forall j | 0 <= j < d
      ensures Delivered(w, n, d, h, lens)[j] == w[h][j]
    {
      LatestFirst(h, lens[j], n);
    }
  }

  /** Every byte comes from the element that the read removes exactly when no write has dropped anything
      since the read began, or a whole number of rounds was written before the first byte was copied. */
  lemma FaithfulExactly(n: nat, d: nat, h: nat, lens: seq<nat>, len: nat)
    requires n > 0 && d > 0 && |lens| == d && h < lens[0] && len >= lens[d - 1]
    requires forall i, j :: 0 <= i < j < d ==> lens[i] <= lens[j]
    ensures var top := Dropped(h, len, n);
      (forall j :: 0 <= j < d ==> h < lens[j] && Latest(h, lens[j], n) == top) <==> top == h || ((top - h) % n == 0 && lens[0] > top)
  {
    hide Latest;
    var top := Dropped(h, len, n);
    LatestPlace(h, lens[0], n, d);
    if top == h {
      forall j | 0 <= j < d
        ensures h < lens[j] && Latest(h, lens[j], n) == top
      {
        LatestFirst(h, lens[j], n);
      }
    } else if lens[0] > top {
      SameRemainder(h, top, n);
      forall j | 0 <= j < d
        ensures h < lens[j] && (Latest(h, lens[j], n) == top <==> top % n == h % n)
      {
        LatestLast(h, lens[j], n, top);
      }
    }
  }

  lemma SameRemainder(h: nat, top: nat, n: nat)
    requires n > 0 && h <= top
    ensures (top - h) % n == 0 <==> top % n == h % n
  {
    var q, r := Divided(top - h, n);
    var a, s := Divided(h, n);
    var b, t := Divided(top, n);
    if r == 0 {
      Distribute(n, a, q);
      Remaining(top, a + q, n, s);
    }
    if t == s {
      if b < a { Larger(n, b, a); }
      Distribute(n, a, b - a);
      Remaining(top - h, b - a, n, 0);
    }
  }

  /** An interrupt in the middle of a copy can tear the element: half of the oldest, half of the newest one. */
  lemma Torn(x: Byte, y: Byte, z: Byte)
    requires x != z
    ensures var w: seq<Elem> := [[x, x], [y, y], [z, z]];
      Elems(w, 2) && Delivered(w, 2, 2, 0, [2, 3]) == [x, z] && [x, z] !in w
  {
    hide Latest;
    var w: seq<Elem> := [[x, x], [y, y], [z, z]];
    LatestFirst(0, 2, 2);
    LatestTurn();
    var e := Delivered(w, 2, 2, 0, [2, 3]);
    assert e[0] == w[0][0] && e[1] == w[2][1];
    assert w[0][1] != z && w[1][0] == w[1][1] && w[2][0] != x;
  }

  lemma LatestTurn()
    ensures Latest(0, 3, 2) == 2
  {
  }
}
