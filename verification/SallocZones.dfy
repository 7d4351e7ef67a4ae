/** Requests to the simple allocator: the best fit, splitting and merging in one zone, and all zones together. */
module SallocZones {
  import opened SallocBlocks

  const HEADER := 8
  const MIN_SPLIT := 16

  // Memory from first up to last, as the platform gives it.
  datatype Zone = Zone(first: nat, last: nat)

  predicate Platform(zones: seq<Zone>) {
    && (forall k :: 0 <= k < |zones| ==>
      0 < zones[k].first && zones[k].first % 8 == 0 && zones[k].last % 8 == 0 && zones[k].first + 24 <= zones[k].last < WORD)
    && (forall j, k :: 0 <= j < |zones| && 0 <= k < |zones| && j != k ==> zones[j].last <= zones[k].first || zones[k].last <= zones[j].first)
  }

  // s_act_size
  function ActSize(size: nat): nat {
    if size % 8 != 0 then (size / 8 + 1) * 8 % WORD else size
  }

  // The size of a block for size bytes.
  function Need(size: nat): nat {
    ActSize((size + HEADER) % WORD)
  }

  /** Rounding up gives a block that is large enough, exactly when the sum does not wrap around. */
  lemma NeedEnough(size: nat)
    requires size < WORD
    ensures Need(size) >= size + HEADER <==> size + HEADER <= WORD - 8
    ensures size + HEADER <= WORD - 8 ==> Need(size) % 8 == 0 && Need(size) < size + HEADER + 8 && Need(size) >= HEADER
    ensures 0 < size && size + HEADER <= WORD - 8 ==> Need(size) >= 16
  {
    var s := size + HEADER;
    if s < WORD {
      assert s % WORD == s;
      if s > WORD - 8 { assert (s / 8 + 1) * 8 == WORD; }
    } else {
      assert s % WORD == s - WORD;
    }
  }

  ghost predicate ZoneOK(m: Mem, z: Zone, l: seq<Block>) {
    && Tiled(l) && Compacted(l) && Linked(m, l)
    && l[0].at == z.first && l[1].at == z.first + 8 && l[|l| - 1].at == z.last - 8
  }

  // ----- requests

  predicate Fits(l: seq<Block>, need: nat, i: int) {
    0 < i < |l| - 1 && !l[i].taken && need <= Size(l, i)
  }

  predicate Better(l: seq<Block>, i: nat, j: nat)
    requires i + 1 < |l| && j + 1 < |l|
  {
    Size(l, i) < Size(l, j) || (Size(l, i) == Size(l, j) && i <= j)
  }

  /** The first one of the smallest free blocks that are large enough. */
  ghost predicate BestFit(l: seq<Block>, need: nat, i: int) {
    Fits(l, need, i) && forall j :: Fits(l, need, j) ==> Better(l, i, j)
  }

  /** No free block that is large enough is smaller, and none of the same size comes before it. */
  lemma BestFitIs(l: seq<Block>, need: nat, i: int)
    ensures BestFit(l, need, i) <==>
      && 0 < i < |l| - 1 && !l[i].taken && need <= Size(l, i)
      && (forall j :: 0 < j < |l| - 1 && !l[j].taken && need <= Size(l, j) ==>
            Size(l, i) <= Size(l, j) && (j < i ==> Size(l, i) < Size(l, j)))
  {
    hide Size;
    if BestFit(l, need, i) {
      forall j | 0 < j < |l| - 1 && !l[j].taken && need <= Size(l, j)
        ensures Better(l, i, j)
      {
        assert Fits(l, need, j);
      }
    }
  }

  // Block i is taken; what is left over is split off.
  function Given(l: seq<Block>, need: nat, i: nat): seq<Block>
    requires i + 1 < |l|
  {
    var l1 := l[i := Block(l[i].at, true)];
    if need + MIN_SPLIT <= Size(l, i) then Cut(l1, i, need, false) else l1
  }

  lemma GivenTiled(l: seq<Block>, need: nat, i: nat)
    requires Tiled(l) && Compacted(l) && Fits(l, need, i) && need % 8 == 0 && need > 0
    ensures var r := Given(l, need, i);
      && Tiled(r) && Compacted(r) && i + 1 < |r| && r[0].at == l[0].at && r[1].at == l[1].at
      && r[|r| - 1].at == l[|l| - 1].at
      && r[i] == Block(l[i].at, true) && need <= Size(r, i) < need + MIN_SPLIT
  {
    hide Placed;
    var l1 := l[i := Block(l[i].at, true)];
    MarkTiled(l, i);
    if need + MIN_SPLIT <= Size(l, i) {
      CutTiled(l1, i, need, false);
      var r := Given(l, need, i);
      assert Apart(l, i) && Placed(l, i + 1);
      forall j | 0 <= j < |r|
        ensures Apart(r, j)
      {
        CutAt(l1, i, need, false, j);
        if j + 1 < |r| { CutAt(l1, i, need, false, j + 1); }
        assert Apart(l, if j <= i then j else j - 1);
      }
      CutAt(l1, i, need, false, i);
    } else {
      assert Placed(l, i) && Placed(l, i + 1);
    }
  }

  lemma MarkTiled(l: seq<Block>, i: nat)
    requires Tiled(l) && Compacted(l) && 0 < i < |l| - 1
    ensures var l1 := l[i := Block(l[i].at, true)];
      Tiled(l1) && Compacted(l1) && Size(l1, i) == Size(l, i)
  {
    var l1 := l[i := Block(l[i].at, true)];
    forall j | 0 <= j < |l1|
      ensures Placed(l1, j) && Apart(l1, j)
    {
      assert Placed(l, j) && Apart(l, j);
    }
  }

  /** One block more is in use, and no other one changes. */
  lemma GivenLive(l: seq<Block>, need: nat, i: nat, p: nat, s: nat)
    requires Tiled(l) && Compacted(l) && Fits(l, need, i) && need % 8 == 0 && need > 0
    ensures i + 1 < |Given(l, need, i)|
    ensures Live(Given(l, need, i), p, s) <==> Live(l, p, s) || (p == l[i].at && s == Size(Given(l, need, i), i))
    ensures !Live(l, l[i].at, s)
  {
    GivenTiled(l, need, i);
    var l1, r := l[i := Block(l[i].at, true)], Given(l, need, i);
    var split := need + MIN_SPLIT <= Size(l, i);
    if Live(r, p, s) {
      var j :| LiveAt(r, j, p, s);
      if split {
        CutAt(l1, i, need, false, j);
        CutAt(l1, i, need, false, j + 1);
      }
      if j != i { assert LiveAt(l, if split && j > i then j - 1 else j, p, s); }
    }
    if Live(l, p, s) {
      var j :| LiveAt(l, j, p, s);
      var j' := if split && j > i then j + 1 else j;
      if split {
        CutAt(l1, i, need, false, j');
        CutAt(l1, i, need, false, j' + 1);
      }
      assert LiveAt(r, j', p, s);
    }
    assert LiveAt(r, i, l[i].at, Size(r, i));
    if Live(l, l[i].at, s) {
      var j :| LiveAt(l, j, l[i].at, s);
      HeadersApart(l, i, j);
    }
  }

  // Block i is cut to need bytes; what is left over becomes free.
  function Shrunk(l: seq<Block>, need: nat, i: nat): seq<Block>
    requires i + 1 < |l|
  {
    if need + MIN_SPLIT <= Size(l, i) then Merged(Cut(l, i, need, true), i + 1) else l
  }

  lemma ShrunkTiled(l: seq<Block>, need: nat, i: nat)
    requires Tiled(l) && Compacted(l) && 0 < i < |l| - 1 && l[i].taken && need % 8 == 0 && need > 0
    ensures var r := Shrunk(l, need, i);
      Tiled(r) && Compacted(r) && i + 1 < |r| && r[0].at == l[0].at && r[1].at == l[1].at && r[|r| - 1].at == l[|l| - 1].at
  {
    hide Hi, Compacted;
    if need + MIN_SPLIT <= Size(l, i) {
      CutTiled(l, i, need, true);
      CutBut(l, i, need, true);
      MergedTiled(Cut(l, i, need, true), i + 1);
    }
  }

  lemma CutBut(l: seq<Block>, i: nat, need: nat, taken: bool)
    requires Tiled(l) && Compacted(l) && 0 < i < |l| - 1 && l[i].taken
    ensures CompactedBut(Cut(l, i, need, taken), i + 1)
  {
    var c := Cut(l, i, need, taken);
    forall j | 0 <= j < |c| && j != i + 1 && j + 1 != i + 1
      ensures Apart(c, j)
    {
      CutAt(l, i, need, taken, j);
      if j + 1 < |c| { CutAt(l, i, need, taken, j + 1); }
      assert Apart(l, if j <= i then j else j - 1);
    }
  }

  // The two parts of a block in use, and the others.
  lemma CutLive(l: seq<Block>, i: nat, need: nat, p: nat, s: nat)
    requires Tiled(l) && 0 < i < |l| - 1 && l[i].taken && need % 8 == 0 && 0 < need < Size(l, i)
    ensures Live(Cut(l, i, need, true), p, s) <==>
      (p == l[i].at && s == need) || (p == l[i].at + need && s == Size(l, i) - need) || (p != l[i].at && Live(l, p, s))
    ensures !Live(l, l[i].at + need, s)
  {
    var c := Cut(l, i, need, true);
    CutTiled(l, i, need, true);
    CutAt(l, i, need, true, i);
    CutAt(l, i, need, true, i + 1);
    assert LiveAt(c, i, l[i].at, need) && LiveAt(c, i + 1, l[i].at + need, Size(l, i) - need);
    if Live(c, p, s) {
      var j :| LiveAt(c, j, p, s);
      CutAt(l, i, need, true, j);
      CutAt(l, i, need, true, j + 1);
      if j != i && j != i + 1 {
        HeadersApart(c, i, j);
        assert LiveAt(l, if j > i then j - 1 else j, p, s);
      }
    }
    if Live(l, p, s) && p != l[i].at { CutLiveOther(l, i, need, p, s); }
    if Live(l, l[i].at + need, s) { CutLiveOther(l, i, need, l[i].at + need, s); }
  }

  lemma CutLiveOther(l: seq<Block>, i: nat, need: nat, p: nat, s: nat)
    requires Tiled(l) && 0 < i < |l| - 1 && l[i].taken && need % 8 == 0 && 0 < need < Size(l, i) && Live(l, p, s)
    requires p != l[i].at
    ensures Live(Cut(l, i, need, true), p, s) && p != l[i].at + need
  {
    var c := Cut(l, i, need, true);
    CutTiled(l, i, need, true);
    var j :| LiveAt(l, j, p, s);
    var j' := if j > i then j + 1 else j;
    CutAt(l, i, need, true, i + 1);
    CutAt(l, i, need, true, j');
    CutAt(l, i, need, true, j' + 1);
    assert LiveAt(c, j', p, s);
    HeadersApart(c, i + 1, j');
  }

  lemma OneSize(l: seq<Block>, i: nat, s: nat)
    requires Tiled(l) && 0 < i < |l| - 1 && l[i].taken
    ensures Live(l, l[i].at, s) <==> s == Size(l, i)
  {
    assert LiveAt(l, i, l[i].at, Size(l, i));
    if Live(l, l[i].at, s) {
      var j :| LiveAt(l, j, l[i].at, s);
      if j != i { HeadersApart(l, i, j); }
    }
  }

  /** The block shrinks to need bytes, or keeps its size when too little is left over; no other block changes. */
  lemma ShrunkLive(l: seq<Block>, need: nat, i: nat, p: nat, s: nat)
    requires Tiled(l) && Compacted(l) && 0 < i < |l| - 1 && l[i].taken && need % 8 == 0 && need > 0
    ensures var size := if need + MIN_SPLIT <= Size(l, i) then need else Size(l, i);
      Live(Shrunk(l, need, i), p, s) <==> if p == l[i].at then s == size else Live(l, p, s)
  {
    hide Live, Merged, Cut;
    OneSize(l, i, s);
    if need + MIN_SPLIT <= Size(l, i) {
      CutTiled(l, i, need, true);
      CutBut(l, i, need, true);
      CutAt(l, i, need, true, i + 1);
      MergedLive(Cut(l, i, need, true), i + 1, p, s);
      CutLive(l, i, need, p, s);
    }
  }

  // ----- what the list means

  /** Blocks in use are aligned, have room behind their header, and do not overlap. */
  lemma LiveApart(l: seq<Block>, p: nat, s: nat, q: nat, t: nat)
    requires Tiled(l) && Live(l, p, s) && Live(l, q, t)
    ensures p % 8 == 0 && s >= HEADER && p + s <= l[|l| - 1].at && l[0].at + 8 <= p
    ensures p == q || p + s <= q || q + t <= p
  {
    var i :| LiveAt(l, i, p, s);
    var j :| LiveAt(l, j, q, t);
    assert Placed(l, i) && Placed(l, i + 1) && Placed(l, j);
    if i + 1 < |l| - 1 { Increasing(l, i + 1, |l| - 1); }
    Increasing(l, 0, i);
    Increasing(l, i, i + 1);
    if i + 1 < j { Increasing(l, i + 1, j); }
    if j + 1 < i { Increasing(l, j + 1, i); }
  }

  lemma UsedIsLive(l: seq<Block>, i: nat)
    requires Tiled(l) && 0 < i < |l| - 1 && l[i].taken
    ensures Live(l, l[i].at, Size(l, i))
  {
    assert LiveAt(l, i, l[i].at, Size(l, i));
  }

  /** When nothing is in use, a zone is one free block between its guards again. */
  lemma AllFree(l: seq<Block>)
    requires Tiled(l) && Compacted(l) && forall p, s :: !Live(l, p, s)
    ensures |l| == 3 && !l[1].taken
  {
    forall i: nat | 0 < i < |l| - 1
      ensures !l[i].taken
    {
      if l[i].taken { UsedIsLive(l, i); }
    }
    assert Apart(l, 1);
  }

  /** Freeing everything restores exactly what s_init made of the zone. */
  lemma AllRestored(m: Mem, z: Zone, l: seq<Block>)
    requires ZoneOK(m, z, l) && z.last >= 8 && forall p, s :: !Live(l, p, s)
    ensures l == Initial(z)
  {
    AllFree(l);
  }

  // ----- zones together

  // What s_init makes of a zone.
  function Initial(z: Zone): seq<Block>
    requires z.last >= 8
  {
    [Block(z.first, true), Block(z.first + 8, false), Block(z.last - 8, true)]
  }

  /** A zone with nothing in use serves every request with its whole space but for three headers, and no other. */
  lemma InitialRoom(zones: seq<Zone>, k: nat, size: nat)
    requires Platform(zones) && k < |zones| && size + HEADER <= WORD - 8
    ensures zones[k].last >= 8
    ensures var z := zones[k]; (exists i :: Fits(Initial(z), Need(size), i)) <==> size + 24 <= z.last - z.first
  {
    hide Need;
    NeedEnough(size);
    var z := zones[k];
    var l, d := Initial(z), z.last - z.first;
    assert Size(l, 1) == d - 16;
    EightsFit(Need(size), size, d - 16);
    assert forall i :: Fits(l, Need(size), i) ==> i == 1;
    assert Need(size) <= d - 16 ==> Fits(l, Need(size), 1);
  }

  lemma EightsFit(need: nat, size: nat, d: nat)
    requires need % 8 == 0 && d % 8 == 0 && size + 8 <= need < size + 16
    ensures need <= d <==> size + 8 <= d
  {
    var p, q := need / 8, d / 8;
    assert need == 8 * p && d == 8 * q;
  }

  ghost predicate AllOK(m: Mem, zones: seq<Zone>, lists: seq<seq<Block>>) {
    |lists| == |zones| && forall k :: 0 <= k < |zones| ==> ZoneOK(m, zones[k], lists[k])
  }

  ghost predicate SameOutside(m: Mem, m': Mem, z: Zone) {
    forall a: nat :: !(z.first <= a < z.last) ==> At(m', a) == At(m, a)
  }

  lemma HeaderInside(m: Mem, z: Zone, l: seq<Block>, a: nat)
    requires ZoneOK(m, z, l) && z.last >= 8 && IsHeader(l, a)
    ensures z.first <= a < z.last
  {
    var i :| 0 <= i < |l| && (a == l[i].at || a == l[i].at + 4);
    if i > 0 { Increasing(l, 0, i); }
    if i < |l| - 1 { Increasing(l, i, |l| - 1); }
  }

  lemma OutsideZone(m: Mem, m': Mem, z: Zone, l: seq<Block>)
    requires ZoneOK(m, z, l) && z.last >= 8 && SameBut(m, m', l)
    ensures SameOutside(m, m', z)
  {
    forall a: nat | !(z.first <= a < z.last)
      ensures At(m', a) == At(m, a)
    {
      if IsHeader(l, a) { HeaderInside(m, z, l, a); }
    }
  }

  lemma ZoneFrame(m: Mem, m': Mem, z: Zone, l: seq<Block>)
    requires ZoneOK(m, z, l) && z.last >= 8 && forall a: nat :: z.first <= a < z.last ==> At(m', a) == At(m, a)
    ensures ZoneOK(m', z, l)
  {
    forall i | 0 <= i < |l|
      ensures NodeOK(m', l, i)
    {
      assert NodeOK(m, l, i);
      assert IsHeader(l, l[i].at) && IsHeader(l, l[i].at + 4);
      HeaderInside(m, z, l, l[i].at);
      HeaderInside(m, z, l, l[i].at + 4);
    }
  }

  /** A change inside one zone leaves the others as they are. */
  lemma OneZone(m: Mem, m': Mem, zones: seq<Zone>, lists: seq<seq<Block>>, k: nat, l: seq<Block>)
    requires Platform(zones) && AllOK(m, zones, lists) && k < |zones| && ZoneOK(m', zones[k], l)
    requires SameOutside(m, m', zones[k])
    ensures AllOK(m', zones, lists[k := l])
  {
    hide ZoneOK;
    forall j | 0 <= j < |zones|
      ensures ZoneOK(m', zones[j], lists[k := l][j])
    {
      if j != k { ZoneFrame(m, m', zones[j], lists[j]); }
    }
  }

  // The words behind the headers of blocks in use are as they were.
  ghost predicate KeepsPayloads(m: Mem, m': Mem, l: seq<Block>) {
    forall i: nat, a: nat :: PayloadWord(l, i, a) ==> At(m', a) == At(m, a)
  }

  predicate PayloadWord(l: seq<Block>, i: nat, a: nat) {
    0 < i < |l| - 1 && l[i].taken && l[i].at + HEADER <= a < l[i + 1].at && a % 4 == 0
  }

  lemma HeadersOnly(m: Mem, m': Mem, l: seq<Block>)
    requires Tiled(l) && SameBut(m, m', l)
    ensures KeepsPayloads(m, m', l)
  {
    forall i: nat, a: nat | PayloadWord(l, i, a)
      ensures At(m', a) == At(m, a)
    {
      PayloadApart(l, i, a);
    }
  }

  // The header of the rest of block i is behind its payload so far.
  lemma CutHeaders(m: Mem, m': Mem, l: seq<Block>, i: nat, need: nat, taken: bool)
    requires Tiled(l) && 0 < i < |l| - 1 && need % 8 == 0 && 0 < need < Size(l, i)
    requires SameBut(m, m', Cut(l, i, need, taken))
    ensures forall j: nat, a: nat :: PayloadWord(l, j, a) && (j != i || a < l[i].at + need) ==> At(m', a) == At(m, a)
  {
    var c := Cut(l, i, need, taken);
    CutTiled(l, i, need, taken);
    CutAt(l, i, need, taken, i);
    CutAt(l, i, need, taken, i + 1);
    forall j: nat, a: nat | PayloadWord(l, j, a) && (j != i || a < l[i].at + need)
      ensures At(m', a) == At(m, a)
    {
      var j' := if j > i then j + 1 else j;
      CutAt(l, i, need, taken, j');
      CutAt(l, i, need, taken, j' + 1);
      PayloadApart(c, j', a);
    }
  }

  lemma NodeAt(m: Mem, l: seq<Block>, i: nat)
    requires Linked(m, l) && Tiled(l) && i < |l|
    ensures NodeOK(m, l, i) && 0 < l[i].at < WORD && |l| >= 3
  {
    assert Placed(l, i);
  }

  // Block i is marked free.
  lemma Marked(m: Mem, l: seq<Block>, i: nat)
    requires Tiled(l) && CompactedBut(l, i) && Linked(m, l)
    ensures i + 1 < |l| && 0 < i
    ensures var l1 := l[i := Block(l[i].at, false)];
      && Tiled(l1) && CompactedBut(l1, i) && Linked(m[l[i].at := WithFlag(At(m, l[i].at), false)], l1)
      && Merged(l1, i) == Merged(l, i) && Lo(l1, i) == Lo(l, i) && Hi(l1, i) == Hi(l, i)
  {
    var l1 := l[i := Block(l[i].at, false)];
    MarkLinked(m, l, i, false);
    forall j | 0 <= j < |l1|
      ensures Placed(l1, j)
    {
      assert Placed(l, j);
    }
    forall j | 0 <= j < |l1| && j != i && j + 1 != i
      ensures Apart(l1, j)
    {
      assert Apart(l, j);
    }
    MergedAt(l, i, 0);
  }

  // Which blocks around block i are free.
  lemma Around(l: seq<Block>, i: nat, j: nat)
    requires Tiled(l) && CompactedBut(l, i) && !l[i].taken && j < |l| && Lo(l, i) <= j + 1 && j <= Hi(l, i)
    ensures 0 < Lo(l, i) && Hi(l, i) < |l| && (l[j].taken <==> j == Lo(l, i) - 1 || j == Hi(l, i))
  {
    MergedAt(l, i, 0);
  }

  lemma Distinct(l: seq<Block>, i: nat, j: nat)
    requires Tiled(l) && i < |l| && j < |l|
    ensures l[i].at == l[j].at <==> i == j
  {
    if i != j { HeadersApart(l, i, j); }
  }

  lemma CompactFrame(m: Mem, m1: Mem, m2: Mem, l: seq<Block>, i: nat, lo: nat, hi: nat)
    requires lo < |l| && hi < |l| && i < |l| && l[lo].at < WORD && l[hi].at < WORD
    requires m1 == m[l[i].at := WithFlag(At(m, l[i].at), false)]
    requires m2 == m1 || m2 == Joined(m1, l[lo].at, l[hi].at)
    ensures SameBut(m, m2, l)
  {
    assert IsHeader(l, l[i].at) && IsHeader(l, l[lo].at) && IsHeader(l, l[hi].at + 4);
  }

  ghost predicate AllKept(m: Mem, m': Mem, lists: seq<seq<Block>>) {
    forall k :: 0 <= k < |lists| ==> KeepsPayloads(m, m', lists[k])
  }

  /** The best fit is given away. */
  ghost predicate Granted(l: seq<Block>, l': seq<Block>, need: nat, i: nat, r: nat) {
    BestFit(l, need, i) && i + 1 < |l| && l' == Given(l, need, i) && r == l[i].at + HEADER
  }

  ghost predicate BestSoFar(l: seq<Block>, need: nat, n: nat, best: nat, found: bool) {
    && (found ==> Fits(l, need, best) && best < n && forall j: nat :: j < n && Fits(l, need, j) ==> Better(l, best, j))
    && (!found ==> forall j: nat :: j < n ==> !Fits(l, need, j))
  }

  lemma InsertedFrame(m: Mem, l: seq<Block>, i: nat, size: nat, taken: bool)
    requires Tiled(l) && 0 < i < |l| - 1 && l[i].at + size < WORD && l[i + 1].at < WORD
    ensures l[i].at < WORD && SameBut(m, Inserted(m, l[i].at, l[i].at + size, l[i + 1].at), Cut(l, i, size, taken))
  {
    assert Placed(l, i);
    var c := Cut(l, i, size, taken);
    CutAt(l, i, size, taken, i);
    CutAt(l, i, size, taken, i + 1);
    CutAt(l, i, size, taken, i + 2);
    assert IsHeader(c, c[i].at) && IsHeader(c, c[i + 1].at) && IsHeader(c, c[i + 1].at + 4)
      && IsHeader(c, c[i + 2].at + 4);
  }

  lemma ListOf(m: Mem, zones: seq<Zone>, lists: seq<seq<Block>>, k: nat) returns (l: seq<Block>)
    requires Platform(zones) && AllOK(m, zones, lists) && k < |zones|
    ensures |lists| == |zones| && l == lists[k] && ZoneOK(m, zones[k], l) && |l| >= 3
  {
    l := lists[k];
  }

  lemma LastTaken(l: seq<Block>, i: nat)
    requires Tiled(l) && 0 < i < |l| && !l[i].taken
    ensures i + 1 < |l| && l[i].at < l[i + 1].at < WORD && Size(l, i) % 8 == 0
  {
    assert Placed(l, i) && Placed(l, i + 1);
  }

  lemma FitNext(l: seq<Block>, need: nat, n: nat, b: nat, f: bool, b': nat, f': bool)
    requires Tiled(l) && 0 < n < |l| && BestSoFar(l, need, n, b, f) && (f ==> 0 < b < |l| - 1)
    requires if n < |l| - 1 && Fits(l, need, n) && (!f || Size(l, n) < Size(l, b)) then b' == n && f' else b' == b && f' == f
    ensures BestSoFar(l, need, n + 1, b', f')
  {
  }

  lemma NoneFits(l: seq<Block>, need: nat, best: nat)
    requires BestSoFar(l, need, |l|, best, false)
    ensures forall j :: !Fits(l, need, j)
  {
    forall j
      ensures !Fits(l, need, j)
    {
      if 0 < j < |l| { assert !Fits(l, need, j); }
    }
  }

  lemma FoundFit(l: seq<Block>, need: nat, best: nat)
    requires BestSoFar(l, need, |l|, best, true)
    ensures BestFit(l, need, best) && Fits(l, need, best) && best + 1 < |l|
  {
  }

  lemma MarkSame(m: Mem, l: seq<Block>, i: nat, w: Word)
    requires i < |l|
    ensures SameBut(m, m[l[i].at := w], l)
  {
    assert IsHeader(l, l[i].at);
  }

  // With neighbours in use, the rest is not merged.
  lemma CutMerged(l: seq<Block>, i: nat, need: nat, taken: bool)
    requires Tiled(l) && Compacted(l) && Fits(l, need, i) && need + MIN_SPLIT <= Size(l, i)
    ensures Merged(Cut(l[i := Block(l[i].at, true)], i, need, taken), i + 1) == Given(l, need, i)
  {
    var l1 := l[i := Block(l[i].at, true)];
    var c := Cut(l1, i, need, taken);
    CutAt(l1, i, need, taken, i);
    CutAt(l1, i, need, taken, i + 1);
    CutAt(l1, i, need, taken, i + 2);
    assert Apart(l, i);
  }

  lemma GivenKept(m: Mem, m1: Mem, m2: Mem, z: Zone, l: seq<Block>, i: nat, need: nat, taken: bool)
    requires ZoneOK(m, z, l) && z.last >= 8 && Fits(l, need, i) && need % 8 == 0 && 0 < need
    requires need + MIN_SPLIT <= Size(l, i)
    requires SameBut(m, m1, l) && SameBut(m1, m2, Cut(l[i := Block(l[i].at, true)], i, need, taken))
    ensures KeepsPayloads(m, m2, l) && SameOutside(m, m2, z)
  {
    var l1 := l[i := Block(l[i].at, true)];
    MarkTiled(l, i);
    HeadersOnly(m, m1, l);
    OutsideZone(m, m1, z, l);
    CutHeaders(m1, m2, l1, i, need, taken);
    forall j: nat, a: nat | PayloadWord(l, j, a)
      ensures At(m2, a) == At(m, a)
    {
      assert PayloadWord(l1, j, a);
    }
    forall a: nat | !(z.first <= a < z.last)
      ensures At(m2, a) == At(m1, a)
    {
      if IsHeader(Cut(l1, i, need, taken), a) { CutInside(m, z, l, i, need, taken, a); }
    }
  }

  lemma CutInside(m: Mem, z: Zone, l: seq<Block>, i: nat, need: nat, taken: bool, a: nat)
    requires ZoneOK(m, z, l) && z.last >= 8 && 0 < i < |l| - 1 && need % 8 == 0 && 0 < need < Size(l, i)
    requires IsHeader(Cut(l[i := Block(l[i].at, true)], i, need, taken), a)
    ensures z.first <= a < z.last
  {
    var l1 := l[i := Block(l[i].at, true)];
    MarkTiled(l, i);
    var c := Cut(l1, i, need, taken);
    CutTiled(l1, i, need, taken);
    var j :| 0 <= j < |c| && (a == c[j].at || a == c[j].at + 4);
    if j > 0 { Increasing(c, 0, j); }
    if j < |c| - 1 { Increasing(c, j, |c| - 1); }
  }

  /** What is done in one zone keeps all of them, and the payloads of all other blocks. */
  lemma ZoneDone(m: Mem, m': Mem, zones: seq<Zone>, lists: seq<seq<Block>>, k: nat, l': seq<Block>)
    requires Platform(zones) && AllOK(m, zones, lists) && k < |zones| && ZoneOK(m', zones[k], l')
    requires SameOutside(m, m', zones[k])
    requires KeepsPayloads(m, m', lists[k])
    ensures AllOK(m', zones, lists[k := l']) && AllKept(m, m', lists)
  {
    OneZone(m, m', zones, lists, k, l');
    forall j | 0 <= j < |lists|
      ensures KeepsPayloads(m, m', lists[j])
    {
      if j != k { OtherKept(m, m', zones, lists, j, k); }
    }
  }

  lemma OtherKept(m: Mem, m': Mem, zones: seq<Zone>, lists: seq<seq<Block>>, j: nat, k: nat)
    requires Platform(zones) && AllOK(m, zones, lists) && k < |zones| && j < |zones| && j != k
    requires SameOutside(m, m', zones[k])
    ensures KeepsPayloads(m, m', lists[j])
  {
    var l := lists[j];
    assert ZoneOK(m, zones[j], l);
    forall i: nat, a: nat | PayloadWord(l, i, a)
      ensures At(m', a) == At(m, a)
    {
      Increasing(l, 0, i);
      if i + 1 < |l| - 1 { Increasing(l, i + 1, |l| - 1); }
    }
  }

  lemma OutsideFrame(m: Mem, m': Mem, zones: seq<Zone>, k: nat, i: nat, l: seq<Block>)
    requires Platform(zones) && k < |zones| && i < |zones| && k != i && ZoneOK(m, zones[k], l)
    requires SameOutside(m, m', zones[i])
    ensures ZoneOK(m', zones[k], l)
  {
    hide ZoneOK;
    ZoneFrame(m, m', zones[k], l);
  }

  // Nothing is in use before the first request.
  lemma FreshKept(m: Mem, m': Mem, zones: seq<Zone>)
    requires Platform(zones)
    ensures AllKept(m, m', seq(|zones|, k requires 0 <= k < |zones| => Initial(zones[k])))
  {
  }

  lemma KeptSame(m: Mem, lists: seq<seq<Block>>)
    ensures AllKept(m, m, lists)
  {
  }

  /** ptr is the address of block i in use of zone k. */
  predicate InUse(lists: seq<seq<Block>>, k: nat, i: nat, ptr: nat) {
    k < |lists| && 0 < i < |lists[k]| - 1 && lists[k][i].taken && ptr == lists[k][i].at + HEADER
  }

  lemma SameLength(m: Mem, zones: seq<Zone>, lists: seq<seq<Block>>)
    requires AllOK(m, zones, lists)
    ensures |lists| == |zones|
  {
  }

  lemma UsedBut(l: seq<Block>, i: nat)
    requires Compacted(l) && 0 < i < |l| - 1
    ensures CompactedBut(l, i)
  {
  }

  // The payloads of all blocks in use but one are as they were.
  ghost predicate OthersKept(m: Mem, m': Mem, lists: seq<seq<Block>>, k: nat, i: nat) {
    forall z: nat, j: nat, a: nat :: z < |lists| && PayloadWord(lists[z], j, a) && (z != k || j != i) ==> At(m', a) == At(m, a)
  }

  lemma AllOthers(m: Mem, m': Mem, lists: seq<seq<Block>>, k: nat, i: nat)
    requires AllKept(m, m', lists)
    ensures OthersKept(m, m', lists, k, i)
  {
    forall z: nat, j: nat, a: nat | z < |lists| && PayloadWord(lists[z], j, a)
      ensures At(m', a) == At(m, a)
    {
      assert KeepsPayloads(m, m', lists[z]);
    }
  }

  // Whether the rest is marked before it is freed does not matter.
  lemma MergedSame(l: seq<Block>, i: nat, need: nat, taken: bool)
    requires 0 < i < |l| - 1
    ensures i + 3 <= |Cut(l, i, need, taken)| && i + 3 <= |Cut(l, i, need, true)|
    ensures Merged(Cut(l, i, need, taken), i + 1) == Merged(Cut(l, i, need, true), i + 1)
  {
    CutAt(l, i, need, taken, i);
    CutAt(l, i, need, taken, i + 1);
    CutAt(l, i, need, taken, i + 2);
    CutAt(l, i, need, true, i + 2);
    var c, d := Cut(l, i, need, taken), Cut(l, i, need, true);
    assert c[i + 2..] == d[i + 2..] && c[..i + 1] == d[..i + 1] && c[..i] == d[..i];
    if i + 3 <= |c| { assert c[i + 3..] == d[i + 3..]; }
  }

  lemma ShrunkKept(m: Mem, m': Mem, zones: seq<Zone>, lists: seq<seq<Block>>, k: nat, i: nat, need: nat, taken: bool)
    requires Platform(zones) && AllOK(m, zones, lists) && k < |zones| && k < |lists| && 0 < i < |lists[k]| - 1
    requires need % 8 == 0 && 0 < need && need + MIN_SPLIT <= Size(lists[k], i) && lists[k][i].taken
    requires SameBut(m, m', Cut(lists[k], i, need, taken))
    requires var l' := Shrunk(lists[k], need, i); Tiled(l') && Compacted(l') && Linked(m', l')
    ensures AllOK(m', zones, lists[k := Shrunk(lists[k], need, i)]) && OthersKept(m, m', lists, k, i)
    ensures forall a: nat :: a < lists[k][i].at + need && PayloadWord(lists[k], i, a) ==> At(m', a) == At(m, a)
  {
    hide Linked, Merged, SameBut;
    var l := lists[k];
    assert ZoneOK(m, zones[k], l);
    CutHeaders(m, m', l, i, need, taken);
    CutOutside(m, m', zones[k], l, i, need, taken);
    ShrunkTiled(l, need, i);
    ShrunkEnds(l, need, i);
    OneZone(m, m', zones, lists, k, Shrunk(l, need, i));
    forall z: nat, j: nat, a: nat | z < |lists| && PayloadWord(lists[z], j, a) && (z != k || j != i)
      ensures At(m', a) == At(m, a)
    {
      if z != k {
        OtherKept(m, m', zones, lists, z, k);
        assert KeepsPayloads(m, m', lists[z]);
      }
    }
  }

  lemma ShrunkEnds(l: seq<Block>, need: nat, i: nat)
    requires Tiled(l) && Compacted(l) && 0 < i < |l| - 1 && l[i].taken && need % 8 == 0 && need > 0
    ensures var r := Shrunk(l, need, i); |r| > 1 && r[0].at == l[0].at && r[1].at == l[1].at && r[|r| - 1].at == l[|l| - 1].at
  {
    ShrunkTiled(l, need, i);
  }

  lemma CutOutside(m: Mem, m': Mem, z: Zone, l: seq<Block>, i: nat, need: nat, taken: bool)
    requires ZoneOK(m, z, l) && z.last >= 8 && 0 < i < |l| - 1 && need % 8 == 0 && 0 < need < Size(l, i)
    requires SameBut(m, m', Cut(l, i, need, taken))
    ensures SameOutside(m, m', z)
  {
    var c := Cut(l, i, need, taken);
    CutTiled(l, i, need, taken);
    forall a: nat | !(z.first <= a < z.last)
      ensures At(m', a) == At(m, a)
    {
      if IsHeader(c, a) {
        var j :| 0 <= j < |c| && (a == c[j].at || a == c[j].at + 4);
        if j > 0 { Increasing(c, 0, j); }
        if j < |c| - 1 { Increasing(c, j, |c| - 1); }
      }
    }
  }

  lemma ZonePlace(zones: seq<Zone>, k: nat)
    requires Platform(zones) && k < |zones|
    ensures 0 < zones[k].first && zones[k].first + 24 <= zones[k].last < WORD && zones[k].first % 8 == 0
    ensures zones[k].last % 8 == 0
  {
  }

  // The words s_init writes are those of the list it makes.
  lemma InitialOK(m: Mem, m': Mem, z: Zone)
    requires 0 < z.first && z.first + 24 <= z.last < WORD && z.first % 8 == 0 && z.last % 8 == 0
    requires At(m', z.first) == WithFlag((z.first + 8) / 8, true) && At(m', z.first + 4) == 0
    requires At(m', z.first + 8) == WithFlag((z.last - 8) / 8, false) && At(m', z.first + 12) == z.first / 8
    requires At(m', z.last - 8) == WithFlag(0, true) && At(m', z.last - 4) == (z.first + 8) / 8
    requires forall a: nat :: !(z.first <= a < z.last) ==> At(m', a) == At(m, a)
    ensures ZoneOK(m', z, Initial(z)) && SameOutside(m, m', z)
  {
    hide Link, Flag, WithFlag;
    var l := Initial(z);
    Unpacked(z.first + 8, true);
    Unpacked(z.last - 8, false);
    Unpacked(0, true);
    Unpacked(z.first, false);
    assert NodeOK(m', l, 0) && NodeOK(m', l, 1) && NodeOK(m', l, 2);
    assert Placed(l, 0) && Placed(l, 1) && Placed(l, 2);
  }

  lemma Unpacked(a: nat, taken: bool)
    requires a < WORD && a % 8 == 0
    ensures Link(a / 8) == a && Link(WithFlag(a / 8, taken)) == a && (Flag(WithFlag(a / 8, taken)) <==> taken)
  {
  }
}
