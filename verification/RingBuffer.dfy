/** buf.c: an interrupt handler writes elements into a ring, a main loop reads them. */
module RingBuffer {
  import opened Words
  import opened RingModel

  const PLATFORM_OK := 1
  const PLATFORM_UNDERFLOW := -1

  // All elements of a run of interrupts.
  function Flat(irq: seq<seq<Elem>>): seq<Elem> {
    if irq == [] then [] else Flat(irq[..|irq| - 1]) + irq[|irq| - 1]
  }

  predicate Sized(irq: seq<seq<Elem>>, d: nat) {
    forall i :: 0 <= i < |irq| ==> Elems(irq[i], d)
  }

  lemma {:induction false} FlatSized(irq: seq<seq<Elem>>, d: nat)
    requires Sized(irq, d)
    ensures Elems(Flat(irq), d)
    decreases |irq|
  {
    if irq != [] {
      FlatSized(irq[..|irq| - 1], d);
      assert Elems(irq[|irq| - 1], d);
    }
  }

  lemma FlatNext(irq: seq<seq<Elem>>, k: nat)
    requires k < |irq|
    ensures Flat(irq[..k + 1]) == Flat(irq[..k]) + irq[k]
  {
    assert irq[..k + 1][..k] == irq[..k];
  }

  lemma FlatStart(w: seq<Elem>, irq: seq<seq<Elem>>)
    requires |irq| >= 2
    ensures w + Flat(irq[..2]) == (w + irq[0]) + irq[1] && Flat(irq[..|irq|]) == Flat(irq)
  {
    hide Flat;
    FlatNone();
    assert irq[..0] == [] && irq[..|irq|] == irq;
    FlatNext(irq, 0);
    FlatNext(irq, 1);
    var a, b := irq[0], irq[1];
    assert Flat(irq[..1]) == a;
    assert Flat(irq[..2]) == a + b;
    Associative(w, a, b);
  }

  lemma Associative(u: seq<Elem>, v: seq<Elem>, w: seq<Elem>)
    ensures u + (v + w) == (u + v) + w
  {
  }

  lemma FlatNone()
    ensures Flat([]) == []
  {
  }

  // How many elements have been written when the first k interrupts are over.
  function Len(w: seq<Elem>, irq: seq<seq<Elem>>, k: nat): nat
    requires k <= |irq|
  {
    |w| + |Flat(irq[..k])|
  }

  lemma {:induction false} LenGrows(w: seq<Elem>, irq: seq<seq<Elem>>, k: nat, m: nat)
    requires k <= m <= |irq|
    ensures Len(w, irq, k) <= Len(w, irq, m) && w + Flat(irq[..k]) <= w + Flat(irq[..m])
    decreases m
  {
    if k < m {
      LenGrows(w, irq, k, m - 1);
      FlatNext(irq, m - 1);
      assert w + Flat(irq[..m]) == (w + Flat(irq[..m - 1])) + irq[m - 1];
    }
  }

  /** What the copy loop of a read finds: byte j is copied after interrupt number j + 2. */
  function Lens(w: seq<Elem>, irq: seq<seq<Elem>>, d: nat): (lens: seq<nat>)
    requires |irq| == d + 3
    ensures |lens| == d
  {
    seq(d, j requires 0 <= j < d => Len(w, irq, j + 3))
  }

  lemma LensBounds(w: seq<Elem>, irq: seq<seq<Elem>>, d: nat)
    requires |irq| == d + 3
    ensures forall j :: 0 <= j < d ==> Len(w, irq, 2) <= Lens(w, irq, d)[j] <= |w + Flat(irq)|
  {
    assert irq[..|irq|] == irq;
    forall j | 0 <= j < d
      ensures Len(w, irq, 2) <= Lens(w, irq, d)[j] <= |w + Flat(irq)|
    {
      LenGrows(w, irq, 2, j + 3);
      LenGrows(w, irq, j + 3, |irq|);
    }
  }

  // Where the queue began when the read looked.
  function Begin(w: seq<Elem>, head: nat, irq: seq<seq<Elem>>, n: nat): nat
    requires |irq| >= 2
  {
    Dropped(head, Len(w, irq, 2), n)
  }

  predicate LensOK(h: nat, lens: seq<nat>, d: nat, len: nat) {
    |lens| == d && forall j :: 0 <= j < d ==> h < lens[j] <= len
  }

  /** What a read does to the history w that ends up as w', and to the number of elements gone. */
  predicate ReadWhile(ls: nat, ld: nat, w: seq<Elem>, head: nat, irq: seq<seq<Elem>>, w': seq<Elem>, head': nat,
          e: Elem)
    requires ld <= ls && |irq| == Bytes(ld) + 3
  {
    var n, d, h, lens := Room(ls, ld), Bytes(ld), Begin(w, head, irq, Room(ls, ld)), Lens(w, irq, Bytes(ld));
    && w' == w + Flat(irq) && Elems(w', d) && LensOK(h, lens, d, |w'|) && h < |w'|
    && head' == Dropped(h, |w'|, n) + 1 && e == Delivered(w', n, d, h, lens)
  }

  /** A read that no write overtakes delivers the oldest element, and takes just that one out. */
  lemma ReadsOldest(ls: nat, ld: nat, w: seq<Elem>, head: nat, irq: seq<seq<Elem>>, w': seq<Elem>, head': nat, e: Elem)
    requires ld <= ls && |irq| == Bytes(ld) + 3 && ReadWhile(ls, ld, w, head, irq, w', head', e)
    requires |w'| <= Begin(w, head, irq, Room(ls, ld)) + Room(ls, ld)
    ensures var h := Begin(w, head, irq, Room(ls, ld)); h < |w'| && e == w'[h] && head' == h + 1
  {
    hide Begin, Lens, Flat;
    DeliveredWhole(w', Room(ls, ld), Bytes(ld), Begin(w, head, irq, Room(ls, ld)), Lens(w, irq, Bytes(ld)));
  }

  /** Every byte that is delivered is one of the element that is taken out exactly when nothing has been dropped
      since the read began, or only whole rounds of the ring before the first byte was copied. */
  lemma ReadsFaithfully(ls: nat, ld: nat, w: seq<Elem>, head: nat, irq: seq<seq<Elem>>, w': seq<Elem>, head': nat,
          e: Elem)
    requires ld <= ls && |irq| == Bytes(ld) + 3 && ReadWhile(ls, ld, w, head, irq, w', head', e)
    ensures var n, h, lens := Room(ls, ld), Begin(w, head, irq, Room(ls, ld)), Lens(w, irq, Bytes(ld));
      && h < head' && |lens| > 0
      && ((forall j :: 0 <= j < |lens| ==> h < lens[j] && Latest(h, lens[j], n) == head' - 1)
          <==> head' - 1 == h || ((head' - 1 - h) % n == 0 && lens[0] > head' - 1))
  {
    hide Begin, Flat, Latest, Delivered, Pow2;
    var n, d, h, lens := Room(ls, ld), Bytes(ld), Begin(w, head, irq, Room(ls, ld)), Lens(w, irq, Bytes(ld));
    forall i, j | 0 <= i < j < d
      ensures lens[i] <= lens[j]
    {
      LenGrows(w, irq, i + 3, j + 3);
    }
    FaithfulExactly(n, d, h, lens, |w'|);
  }

  lemma {:induction false} FlatQuiet(irq: seq<seq<Elem>>)
    requires forall i :: 0 <= i < |irq| ==> irq[i] == []
    ensures Flat(irq) == []
    decreases |irq|
  {
    if irq != [] { FlatQuiet(irq[..|irq| - 1]); }
  }

  /** Without interrupts a read takes the first element off the queue. */
  lemma QuietRead(ls: nat, ld: nat, w: seq<Elem>, head: nat, irq: seq<seq<Elem>>, w': seq<Elem>, head': nat, e: Elem)
    requires ld <= ls && |irq| == Bytes(ld) + 3 && ReadWhile(ls, ld, w, head, irq, w', head', e)
    requires (forall i :: 0 <= i < |irq| ==> irq[i] == []) && head <= |w| <= head + Room(ls, ld)
    ensures w' == w && head' == head + 1 <= |w| && w[head..] == [e] + w'[head'..]
  {
    hide Lens, Flat, Pow2;
    FlatQuiet(irq);
    FlatQuiet(irq[..2]);
    ReadsOldest(ls, ld, w, head, irq, w', head', e);
  }

  /** A write adds an element to the queue; a full queue loses its first one. */
  lemma WriteQueued(w: seq<Elem>, head: nat, e: Elem, n: nat)
    requires n > 0 && head <= |w| <= head + n
    ensures var q, head' := w[head..], Dropped(head, |w| + 1, n);
      head' <= |w + [e]| && (w + [e])[head'..] == (if |q| == n then q[1..] else q) + [e]
  {
  }

  lemma LensFacts(w: seq<Elem>, irq: seq<seq<Elem>>, d: nat, h: nat)
    requires |irq| == d + 3 && h < |w + Flat(irq[..2])|
    ensures LensOK(h, Lens(w, irq, d), d, |w + Flat(irq)|)
    ensures forall j :: 0 <= j < d ==> Lens(w, irq, d)[j] == |w + Flat(irq[..j + 3])|
  {
    hide Flat;
    LensBounds(w, irq, d);
  }

  function Over(bytes: seq<Byte>, p: nat, e: Elem): seq<Byte>
    requires p + |e| <= |bytes|
  {
    bytes[..p] + e + bytes[p + |e|..]
  }

  lemma OverNone(bytes: seq<Byte>, p: nat)
    requires p <= |bytes|
    ensures Over(bytes, p, []) == bytes
  {
  }

  lemma OverNext(bytes: seq<Byte>, p: nat, e: Elem, j: nat)
    requires p + |e| <= |bytes| && j < |e|
    ensures |Over(bytes, p, e[..j])| == |bytes| && Over(bytes, p, e[..j])[p + j := e[j]] == Over(bytes, p, e[..j + 1])
  {
  }

  lemma OverAll(bytes: seq<Byte>, p: nat, e: Elem)
    requires p + |e| <= |bytes|
    ensures Over(bytes, p, e[..|e|]) == bytes[..p] + e + bytes[p + |e|..]
  {
    assert e[..|e|] == e;
  }

  class Buffer {
    const logsize: nat
    const logdsize: nat
    const buf: array<Byte>
    var wptr: nat
    var rptr: nat
    var count: nat

    // all elements written since the ring was empty, and how many of them are gone
    ghost var written: seq<Elem>
    ghost var head: nat

    /** The ring as buf_set and buf_flush leave it. */
    constructor (ls: nat, ld: nat)
      requires Standard(ls, ld)
      ensures Valid() && logsize == ls && logdsize == ld && written == [] && head == 0 && fresh(buf)
    {
      logsize, logdsize, wptr, rptr, count, written, head := ls, ld, 0, 0, 0, [], 0;
      buf := new Byte[Pow2(ls)](_ => 0);
    }

    function D(): nat {
      Bytes(logdsize)
    }

    function N(): (n: nat)
      requires logdsize <= logsize
      ensures n > 0
    {
      Room(logsize, logdsize)
    }

    ghost function S(): Ring
      reads this, buf
    {
      Ring(wptr, rptr, count, buf[..])
    }

    ghost predicate Valid()
      reads this, buf
    {
      Standard(logsize, logdsize) && Holds(S(), logsize, logdsize, written, head)
    }

    // DUFF_DEVICE_8, copying an element into the ring: the first round begins in the middle of the loop.
    method CopyIn(p: nat, e: Elem)
      requires 0 < |e| && p + |e| <= buf.Length
      modifies buf
      ensures buf[..] == old(buf[..p]) + e + old(buf[p + |e|..])
    {
      hide Over;
      ghost var was := buf[..];
      OverNone(was, p);
      var times: nat := (|e| + 7) / 8;
      var k: nat := if |e| % 8 == 0 then 8 else |e| % 8;
      var j: nat := 0;
      while times > 0
        invariant if times == 0 then j == |e| else 0 < k <= 8 && j + k + 8 * (times - 1) == |e|
        invariant j <= |e| && buf[..] == Over(was, p, e[..j])
        decreases times, k
      {
        OverNext(was, p, e, j);
        buf[p + j] := e[j];
        j := j + 1;
        k := k - 1;
        if k == 0 {
          times := times - 1;
          k := 8;
        }
      }
      OverAll(was, p, e);
    }

    /** buf_write: all of it happens in the interrupt. */
    method Write(e: Elem)
      requires |e| == D() && Fits(S(), logsize, logdsize)
      modifies this, buf
      ensures S() == Put(old(S()), logsize, logdsize, e) && written == old(written) + [e]
      ensures old(Valid()) ==> Valid() && head == Dropped(old(head), |written|, N())
    {
      hide Holds, BitAnd;
      ghost var r, w, h := S(), written, head;
      CopyIn(wptr, e);
      wptr := BitAnd(wptr + Pow2(logdsize), Pow2(logsize) - 1) % 0x1_0000;
      if count == Pow2(logsize - logdsize) {
        rptr := BitAnd(rptr + Pow2(logdsize), Pow2(logsize) - 1) % 0x1_0000;
      } else {
        count := (count + 1) % 0x1_0000;
      }
      written := written + [e];
      head := Dropped(head, |written|, N());
      if Standard(logsize, logdsize) && Holds(r, logsize, logdsize, w, h) { PutHolds(r, logsize, logdsize, w, h, e); }
    }

    // Interrupts that come at one place, one write each; the pointers are at places a and b.
    method Interrupts(es: seq<Elem>, ghost a: nat, ghost b: nat)
      requires Standard(logsize, logdsize) && Elems(es, D()) && Tame(S(), logsize, logdsize, a, b)
      modifies this, buf
      ensures S() == PutAll(old(S()), logsize, logdsize, es) && written == old(written) + es
      ensures old(Valid()) ==> Valid() && head == Dropped(old(head), |written|, N())
    {
      hide Pow2, Holds, Tame, Put, Pos, Fits;
      ghost var r, w, h, valid := S(), written, head, Valid();
      if valid { HeldBounds(r, logsize, logdsize, w, h); }
      for i := 0 to |es|
        invariant S() == PutAll(r, logsize, logdsize, es[..i]) && written == w + es[..i]
        invariant valid ==> Valid() && head == Dropped(h, |written|, N())
      {
        assert es[..i + 1][..i] == es[..i];
        PutAllTame(r, logsize, logdsize, es[..i], a, b);
        TameFits(S(), a + i, b + (r.count + i - S().count));
        Write(es[i]);
      }
      assert es[..|es|] == es;
    }

    lemma TameFits(r: Ring, a: nat, b: nat)
      requires logdsize <= logsize && Tame(r, logsize, logdsize, a, b)
      ensures Fits(r, logsize, logdsize)
    {
      hide Pos, Pow2;
      PosInside(a, logsize, logdsize);
    }

    // Interrupts at one place of a ring in order.
    method Arrive(es: seq<Elem>)
      requires Valid() && Elems(es, D())
      modifies this, buf
      ensures Valid() && written == old(written) + es && head == Dropped(old(head), |written|, N())
    {
      hide Holds, Tame, PutAll, Pow2;
      HeldBounds(S(), logsize, logdsize, written, head);
      Interrupts(es, |written|, head);
    }

    // The copy loop of buf_read, a Duff device again.
    method Copy(data: array<Byte>, irq: seq<seq<Elem>>, ghost w: seq<Elem>, ghost h: nat)
      requires Valid() && data != buf && data.Length == D() && |irq| == D() + 3 && Sized(irq, D())
      requires Elems(w + Flat(irq), D())
      requires written == w + Flat(irq[..2]) && head == h < |written|
      modifies this, buf, data
      ensures Valid() && written == w + Flat(irq[..D() + 2]) && head == Dropped(h, |written|, N())
      ensures LensOK(h, Lens(w, irq, D()), D(), |w + Flat(irq)|)
      ensures data[..] == Delivered(w + Flat(irq), N(), D(), h, Lens(w, irq, D()))
    {
      hide Pow2, Holds, Pos, BitAnd, Delivered, Flat, Lens;
      ghost var w', lens := w + Flat(irq), Lens(w, irq, D());
      LensFacts(w, irq, D(), h);
      HeldBounds(S(), logsize, logdsize, written, head);
      var src := rptr;
      var times: nat := (D() + 7) / 8;
      var k: nat := if D() % 8 == 0 then 8 else D() % 8;
      var j: nat := 0;
      while times > 0
        invariant if times == 0 then j == D() else 0 < k <= 8 && j + k + 8 * (times - 1) == D()
        invariant j <= D() && Valid() && written == w + Flat(irq[..j + 2]) && head == Dropped(h, |written|, N())
        invariant forall i :: 0 <= i < j ==> data[i] == Delivered(w', N(), D(), h, lens)[i]
        decreases times, k
      {
        Arrive(irq[j + 2]);
        FlatNext(irq, j + 2);
        LenGrows(w, irq, j + 3, |irq|);
        assert irq[..|irq|] == irq;
        assert h < lens[j] == |written|;
        DeliveredByte(S(), logsize, logdsize, written, head, h, w', lens, j);
        data[j] := buf[src + j];
        j := j + 1;
        k := k - 1;
        if k == 0 {
          times := times - 1;
          k := 8;
        }
      }
    }

    /** buf_read, with the elements irq[i] arriving at point i: before count is looked at, before rptr is read,
        before each byte is copied, and before interrupts are disabled. */
    method Read(data: array<Byte>, irq: seq<seq<Elem>>) returns (res: int)
      requires Valid() && data != buf && data.Length == D() && |irq| == D() + 3 && Sized(irq, D())
      modifies this, buf, data
      ensures Valid()
      ensures res == PLATFORM_UNDERFLOW <==> old(count) == 0 && irq[0] == []
      ensures res == PLATFORM_UNDERFLOW ==> written == old(written) && head == old(head) && data[..] == old(data[..])
      ensures res != PLATFORM_UNDERFLOW ==>
        res == PLATFORM_OK && ReadWhile(logsize, logdsize, old(written), old(head), irq, written, head, data[..])
    {
      hide Pow2, Holds, Pos, BitAnd, Delivered, Flat, Lens, LensOK;
      ghost var w, h0 := written, head;
      HeldBounds(S(), logsize, logdsize, written, head);
      FlatStart(w, irq);
      Arrive(irq[0]);
      HeldBounds(S(), logsize, logdsize, written, head);
      if count == 0 {
        return PLATFORM_UNDERFLOW;
      }
      Arrive(irq[1]);
      ghost var h := head;
      FlatSized(irq, D());
      Copy(data, irq, w, h);
      FlatNext(irq, D() + 2);
      LenGrows(w, irq, 2, D() + 2);
      Arrive(irq[D() + 2]);
      HeldBounds(S(), logsize, logdsize, written, head);
      TakeHolds(S(), logsize, logdsize, written, head);
      // platform_cpu_disable_interrupts
      count := count - 1;
      rptr := BitAnd(rptr + Pow2(logdsize), Pow2(logsize) - 1) % 0x1_0000;
      head := head + 1;
      // platform_cpu_enable_interrupts
      res := PLATFORM_OK;
      assert h == Begin(w, h0, irq, N());
      assert written == w + Flat(irq);
      assert LensOK(h, Lens(w, irq, D()), D(), |written|);
      assert head == Dropped(h, |written|, N()) + 1;
    }

    /** buf_flush, with the elements xs arriving after count is cleared, and ys after wptr is. */
    method Flush(xs: seq<Elem>, ys: seq<Elem>)
      requires Valid() && Elems(xs, D()) && Elems(ys, D())
      modifies this, buf
      ensures S() == Flushed(old(S()), logsize, logdsize, xs, ys)
      ensures xs == [] && |ys| <= N() ==> Valid() && head == 0 && written == ys
    {
      hide Pow2, Holds, Pos, PutAll, Stored;
      ghost var r, a, b := S(), |written|, head;
      HeldBounds(r, logsize, logdsize, written, head);
      count := 0;
      Interrupts(xs, a, b);
      PutAllTame(r.(count := 0), logsize, logdsize, xs, a, b);
      ghost var c := S().count;
      wptr := 0;
      PosStart(N(), D());
      ghost var r3 := S();
      Interrupts(ys, 0, b + (|xs| - c));
      rptr := 0;
      if xs == [] && |ys| <= N() {
        PutAllNone(r.(count := 0), logsize, logdsize);
        PutAllReader(r3, logsize, logdsize, ys, 0);
        EmptyHolds(r3.(rptr := 0), logsize, logdsize);
        PutAllHolds(r3.(rptr := 0), logsize, logdsize, [], 0, ys);
        assert [] + ys == ys;
        written, head := ys, 0;
      }
    }
  }
}
