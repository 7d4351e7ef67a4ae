/** What callers see of the simple allocator: blocks in use over all zones, and what realloc keeps. */
module SallocLive {
  import opened SallocBlocks
  import opened SallocZones

  /** A block in use somewhere, with its size. */
  ghost predicate LiveIn(lists: seq<seq<Block>>, p: nat, s: nat) {
    exists k :: LiveInZone(lists, k, p, s)
  }

  ghost predicate LiveInZone(lists: seq<seq<Block>>, k: int, p: nat, s: nat) {
    0 <= k < |lists| && Live(lists[k], p, s)
  }

  lemma InsideZone(m: Mem, z: Zone, l: seq<Block>, p: nat, s: nat)
    requires ZoneOK(m, z, l) && z.last >= 8 && Live(l, p, s)
    ensures z.first < p && p + s <= z.last - 8 && p % 8 == 0 && s >= HEADER
  {
    LiveApart(l, p, s, p, s);
  }

  /** Blocks in use are 8-aligned, have room behind their header, and are pairwise disjoint, over all zones. */
  lemma ApartIn(m: Mem, zones: seq<Zone>, lists: seq<seq<Block>>, p: nat, s: nat, q: nat, t: nat)
    requires Platform(zones) && AllOK(m, zones, lists) && LiveIn(lists, p, s) && LiveIn(lists, q, t)
    ensures p % 8 == 0 && s >= HEADER && p > 0
    ensures if p == q then s == t else p + s <= q || q + t <= p
  {
    hide ZoneOK;
    var k :| LiveInZone(lists, k, p, s);
    var j :| LiveInZone(lists, j, q, t);
    InsideZone(m, zones[k], lists[k], p, s);
    InsideZone(m, zones[j], lists[j], q, t);
    if j == k { SameOrApart(m, zones[k], lists[k], p, s, q, t); }
  }

  lemma SameOrApart(m: Mem, z: Zone, l: seq<Block>, p: nat, s: nat, q: nat, t: nat)
    requires ZoneOK(m, z, l) && Live(l, p, s) && Live(l, q, t)
    ensures if p == q then s == t else p + s <= q || q + t <= p
  {
    LiveApart(l, p, s, q, t);
    if p == q {
      var i :| LiveAt(l, i, p, s);
      OneSize(l, i, t);
    }
  }

  // ls' has one more block in use: the one at p, of size z.
  ghost predicate MoreBy(ls: seq<seq<Block>>, ls': seq<seq<Block>>, p: nat, z: nat) {
    && (forall q: nat, s: nat :: LiveIn(ls', q, s) <==> LiveIn(ls, q, s) || (q == p && s == z))
    && forall s: nat :: !LiveIn(ls, p, s)
  }

  // ls' has all blocks of ls in use but the one at p.
  ghost predicate LessBy(ls: seq<seq<Block>>, ls': seq<seq<Block>>, p: nat) {
    forall q: nat, s: nat :: LiveIn(ls', q, s) <==> LiveIn(ls, q, s) && q != p
  }

  lemma NotElsewhere(m: Mem, zones: seq<Zone>, lists: seq<seq<Block>>, k: nat, i: nat, j: nat, s: nat)
    requires Platform(zones) && AllOK(m, zones, lists) && k < |lists| && 0 < i < |lists[k]| - 1 && j < |lists| && j != k
    ensures !Live(lists[j], lists[k][i].at, s)
  {
    assert ZoneOK(m, zones[k], lists[k]) && ZoneOK(m, zones[j], lists[j]);
    Increasing(lists[k], 0, i);
    Increasing(lists[k], i, |lists[k]| - 1);
    if Live(lists[j], lists[k][i].at, s) { InsideZone(m, zones[j], lists[j], lists[k][i].at, s); }
  }

  /** smalloc adds exactly one block, large enough and not much larger. */
  lemma GrantedMore(m: Mem, zones: seq<Zone>, ls: seq<seq<Block>>, k: nat, need: nat, i: nat, ptr: nat) returns (z: nat)
    requires Platform(zones) && AllOK(m, zones, ls) && k < |ls| && BestFit(ls[k], need, i) && need % 8 == 0 && need > 0
    ensures i + 1 < |ls[k]| && need <= z < need + MIN_SPLIT
    ensures MoreBy(ls, ls[k := Given(ls[k], need, i)], ls[k][i].at, z)
  {
    hide Given, Live;
    var l := ls[k];
    assert ZoneOK(m, zones[k], l);
    GivenTiled(l, need, i);
    z := Size(Given(l, need, i), i);
    var ls' := ls[k := Given(l, need, i)];
    forall q: nat, s: nat
      ensures LiveIn(ls', q, s) <==> LiveIn(ls, q, s) || (q == l[i].at && s == z)
    {
      GivenLive(l, need, i, q, s);
      MovedLive(ls, ls', k, q, s);
    }
    forall s: nat
      ensures !LiveIn(ls, l[i].at, s)
    {
      GivenLive(l, need, i, l[i].at, s);
      if LiveIn(ls, l[i].at, s) {
        var j :| LiveInZone(ls, j, l[i].at, s);
        if j != k { NotElsewhere(m, zones, ls, k, i, j, s); }
      }
    }
  }

  // One list changes.
  lemma MovedLive(ls: seq<seq<Block>>, ls': seq<seq<Block>>, k: nat, q: nat, s: nat)
    requires k < |ls| && |ls'| == |ls| && ls' == ls[k := ls'[k]]
    ensures LiveIn(ls', q, s) <==> Live(ls'[k], q, s) || exists j :: j != k && LiveInZone(ls, j, q, s)
    ensures LiveIn(ls, q, s) <==> Live(ls[k], q, s) || exists j :: j != k && LiveInZone(ls, j, q, s)
  {
    hide Live;
    if LiveIn(ls', q, s) {
      var j :| LiveInZone(ls', j, q, s);
      if j != k { assert LiveInZone(ls, j, q, s); }
    }
    if j :| j != k && LiveInZone(ls, j, q, s) { assert LiveInZone(ls', j, q, s); }
    if Live(ls'[k], q, s) { assert LiveInZone(ls', k, q, s); }
    if Live(ls[k], q, s) { assert LiveInZone(ls, k, q, s); }
  }

  /** sfree takes away exactly the block freed. */
  lemma FreedLess(m: Mem, zones: seq<Zone>, ls: seq<seq<Block>>, k: nat, i: nat, ptr: nat)
    requires Platform(zones) && AllOK(m, zones, ls) && InUse(ls, k, i, ptr)
    ensures ptr >= HEADER && LessBy(ls, ls[k := Merged(ls[k], i)], ptr - HEADER)
  {
    hide Merged, Live;
    var l := ls[k];
    assert ZoneOK(m, zones[k], l);
    UsedBut(l, i);
    var ls' := ls[k := Merged(l, i)];
    forall q: nat, s: nat
      ensures LiveIn(ls', q, s) <==> LiveIn(ls, q, s) && q != l[i].at
    {
      MergedLive(l, i, q, s);
      MovedLive(ls, ls', k, q, s);
      if q == l[i].at {
        forall j | j != k
          ensures !LiveInZone(ls, j, q, s)
        {
          if 0 <= j < |ls| { NotElsewhere(m, zones, ls, k, i, j, s); }
        }
      }
    }
  }

  lemma UsedLive(ls: seq<seq<Block>>, k: nat, i: nat, ptr: nat) returns (s: nat)
    requires InUse(ls, k, i, ptr)
    ensures ptr >= HEADER && LiveIn(ls, ptr - HEADER, s) && s == Size(ls[k], i)
  {
    s := Size(ls[k], i);
    assert LiveAt(ls[k], i, ls[k][i].at, s);
    assert LiveInZone(ls, k, ls[k][i].at, s);
  }

  lemma LiveUsed(ls: seq<seq<Block>>, p: nat, s: nat) returns (k: nat, i: nat)
    requires LiveIn(ls, p, s)
    ensures InUse(ls, k, i, p + HEADER) && s == Size(ls[k], i)
  {
    k :| LiveInZone(ls, k, p, s);
    i :| LiveAt(ls[k], i, p, s);
  }

  // Word a is behind the header of the block at p.
  predicate Behind(p: nat, s: nat, a: nat) {
    p + HEADER <= a < p + s && a % 4 == 0
  }

  /** The contents of all blocks in use but the one at p are as they were. */
  ghost predicate KeptBut(m: Mem, m': Mem, ls: seq<seq<Block>>, p: nat) {
    forall q: nat, s: nat, a: nat :: LiveIn(ls, q, s) && q != p && Behind(q, s, a) ==> At(m', a) == At(m, a)
  }

  lemma KeptAll(m: Mem, m': Mem, ls: seq<seq<Block>>, q: nat, s: nat, a: nat)
    requires AllKept(m, m', ls) && LiveIn(ls, q, s) && Behind(q, s, a)
    ensures At(m', a) == At(m, a)
  {
    var k, i := LiveUsed(ls, q, s);
    assert KeepsPayloads(m, m', ls[k]);
    assert PayloadWord(ls[k], i, a);
  }

  lemma KeptOthers(m: Mem, m': Mem, ls: seq<seq<Block>>, k: nat, i: nat, q: nat, s: nat, a: nat)
    requires OthersKept(m, m', ls, k, i) && LiveIn(ls, q, s) && Behind(q, s, a) && k < |ls| && i < |ls[k]|
    requires q != ls[k][i].at
    ensures At(m', a) == At(m, a)
  {
    var z, j := LiveUsed(ls, q, s);
    assert PayloadWord(ls[z], j, a);
  }

  // Words behind the header of a block in use are not part of the lists.
  lemma ContentsFrame(m: Mem, m': Mem, zones: seq<Zone>, ls: seq<seq<Block>>, p: nat, s: nat)
    requires Platform(zones) && AllOK(m, zones, ls) && LiveIn(ls, p, s)
    requires forall a: nat :: !Behind(p, s, a) ==> At(m', a) == At(m, a)
    ensures AllOK(m', zones, ls)
  {
    var k, i := LiveUsed(ls, p, s);
    var l := ls[k];
    assert ZoneOK(m, zones[k], l);
    forall j | 0 <= j < |l|
      ensures NodeOK(m', l, j)
    {
      assert NodeOK(m, l, j);
      HeaderNotBehind(l, i, j, p, s);
    }
    assert LiveAt(l, i, p, s);
    InsideZone(m, zones[k], l, p, s);
    OneZone(m, m', zones, ls, k, l);
    assert ls[k := l] == ls;
  }

  lemma HeaderNotBehind(l: seq<Block>, i: nat, j: nat, p: nat, s: nat)
    requires Tiled(l) && LiveAt(l, i, p, s) && j < |l|
    ensures !Behind(p, s, l[j].at) && !Behind(p, s, l[j].at + 4)
  {
    assert Placed(l, i) && Placed(l, i + 1);
    assert IsHeader(l, l[j].at) && IsHeader(l, l[j].at + 4);
    if Behind(p, s, l[j].at) { PayloadApart(l, i, l[j].at); }
    if Behind(p, s, l[j].at + 4) { PayloadApart(l, i, l[j].at + 4); }
  }

  // ----- realloc

  /** A new block at ptr with room for size bytes and little more. */
  ghost predicate Obtained(ls: seq<seq<Block>>, ls': seq<seq<Block>>, ptr: nat, size: nat) {
    ptr >= HEADER && ObtainedAt(ls, ls', ptr - HEADER, size)
  }

  ghost predicate ObtainedAt(ls: seq<seq<Block>>, ls': seq<seq<Block>>, p: nat, size: nat) {
    exists z: nat :: size + HEADER <= z < Need(size) + MIN_SPLIT && MoreBy(ls, ls', p, z)
  }

  // The block at p has become the one at q, of size z.
  ghost predicate Replaced(ls: seq<seq<Block>>, ls': seq<seq<Block>>, p: nat, q: nat, z: nat) {
    forall x: nat, s: nat :: LiveIn(ls', x, s) <==> (LiveIn(ls, x, s) && x != p) || (x == q && s == z)
  }

  // What both blocks have room for is in the new one as it was in the old one.
  ghost predicate Carried(m: Mem, m': Mem, p: nat, s: nat, q: nat, z: nat) {
    forall a: nat :: InBoth(a, s, z) ==> SameWord(m, p, m', q, a)
  }

  predicate InBoth(a: nat, s: nat, z: nat) {
    a % 4 == 0 && a + HEADER < s && a + HEADER < z
  }

  predicate SameWord(m: Mem, p: nat, m': Mem, q: nat, a: nat) {
    At(m', q + HEADER + a) == At(m, p + HEADER + a)
  }

  /** realloc: the block has room for size bytes, hardly more, and kept its contents, and nobody else noticed. */
  ghost predicate Reallocated(m: Mem, m': Mem, ls: seq<seq<Block>>, ls': seq<seq<Block>>, ptr: nat, newptr: nat,
          size: nat) {
    && ptr >= HEADER && newptr >= HEADER && KeptBut(m, m', ls, ptr - HEADER)
    && ResizedFrom(m, m', ls, ls', ptr - HEADER, newptr - HEADER, size)
  }

  ghost predicate ResizedFrom(m: Mem, m': Mem, ls: seq<seq<Block>>, ls': seq<seq<Block>>, p: nat, q: nat, size: nat) {
    exists s: nat, z: nat :: LiveIn(ls, p, s) && Resized(m, m', ls, ls', p, s, q, z, size)
  }

  ghost predicate Resized(m: Mem, m': Mem, ls: seq<seq<Block>>, ls': seq<seq<Block>>, p: nat, s: nat, q: nat, z: nat,
          size: nat) {
    size + HEADER <= z < Need(size) + MIN_SPLIT && Replaced(ls, ls', p, q, z) && Carried(m, m', p, s, q, z)
  }

  lemma GrantedObtained(m: Mem, zones: seq<Zone>, ls: seq<seq<Block>>, ls': seq<seq<Block>>, k: nat, i: nat, ptr: nat,
          size: nat) returns (z: nat)
    requires Platform(zones) && AllOK(m, zones, ls) && k < |ls| && |ls'| == |ls| && ls' == ls[k := ls'[k]] && 0 < size
    requires size + HEADER <= WORD - 8
    requires Granted(ls[k], ls'[k], Need(size), i, ptr)
    ensures ptr >= HEADER && size + HEADER <= z < Need(size) + MIN_SPLIT
    ensures MoreBy(ls, ls', ptr - HEADER, z) && Obtained(ls, ls', ptr, size)
  {
    hide MoreBy, AllOK, Given, BestFit, Need;
    NeedEnough(size);
    z := GrantedMore(m, zones, ls, k, Need(size), i, ptr);
  }

  /** No zone has a block that is large enough. */
  ghost predicate NoZoneFits(ls: seq<seq<Block>>, need: nat) {
    forall z, j :: 0 <= z < |ls| ==> !Fits(ls[z], need, j)
  }

  lemma GrantedFits(ls: seq<seq<Block>>, ls': seq<seq<Block>>, need: nat, k: nat, i: nat, ptr: nat)
    requires k < |ls| == |ls'| && Granted(ls[k], ls'[k], need, i, ptr)
    ensures !NoZoneFits(ls, need)
  {
    assert Fits(ls[k], need, i);
  }

  // The block behind ptr has not got room for size bytes.
  ghost predicate TooSmall(ls: seq<seq<Block>>, ptr: nat, size: nat) {
    ptr >= HEADER && LiveBelow(ls, ptr - HEADER, size + HEADER)
  }

  ghost predicate LiveBelow(ls: seq<seq<Block>>, p: nat, n: nat) {
    exists s: nat :: LiveIn(ls, p, s) && s < n
  }

  lemma SizeKnown(m: Mem, zones: seq<Zone>, ls: seq<seq<Block>>, k: nat, i: nat, ptr: nat, size: nat)
    requires Platform(zones) && AllOK(m, zones, ls) && InUse(ls, k, i, ptr)
    ensures TooSmall(ls, ptr, size) <==> Size(ls[k], i) < size + HEADER
  {
    hide LiveIn, AllOK;
    var s := UsedLive(ls, k, i, ptr);
    var p := ptr - HEADER;
    forall t: nat | LiveIn(ls, p, t)
      ensures t == s
    {
      ApartIn(m, zones, ls, p, s, p, t);
    }
  }

  // The header of a block in use gives its size.
  lemma BlockAt(m: Mem, zones: seq<Zone>, ls: seq<seq<Block>>, k: nat, i: nat)
    requires Platform(zones) && AllOK(m, zones, ls) && k < |ls| && 0 < i < |ls[k]| - 1
    ensures Next(m, ls[k][i].at) == ls[k][i + 1].at && ls[k][i].at + HEADER <= ls[k][i + 1].at < WORD
    ensures Size(ls[k], i) % 8 == 0 && ls[k][i].at % 8 == 0
  {
    var l := ls[k];
    assert ZoneOK(m, zones[k], l);
    assert NodeOK(m, l, i) && Placed(l, i) && Placed(l, i + 1);
  }

  lemma ReallocSame(m: Mem, zones: seq<Zone>, ls: seq<seq<Block>>, k: nat, i: nat, ptr: nat, size: nat)
    requires Platform(zones) && AllOK(m, zones, ls) && InUse(ls, k, i, ptr) && Size(ls[k], i) == size + HEADER
    requires 0 < size && size + HEADER <= WORD - 8
    ensures Reallocated(m, m, ls, ls, ptr, ptr, size)
  {
    hide LiveIn, AllOK, Need;
    NeedEnough(size);
    var s := UsedLive(ls, k, i, ptr);
    var p := ptr - HEADER;
    forall x: nat, t: nat
      ensures LiveIn(ls, x, t) <==> (LiveIn(ls, x, t) && x != p) || (x == p && t == s)
    {
      if LiveIn(ls, p, t) { ApartIn(m, zones, ls, p, s, p, t); }
    }
    assert Resized(m, m, ls, ls, p, s, p, s, size);
  }

  lemma ReallocShrunk(m: Mem, m': Mem, zones: seq<Zone>, ls: seq<seq<Block>>, k: nat, i: nat, ptr: nat, size: nat)
    requires Platform(zones) && AllOK(m, zones, ls) && InUse(ls, k, i, ptr) && 0 < size && size + HEADER <= WORD - 8
    requires size + HEADER < Size(ls[k], i)
    requires OthersKept(m, m', ls, k, i)
    requires forall a: nat :: ptr <= a < ptr - HEADER + Need(size) && PayloadWord(ls[k], i, a) ==> At(m', a) == At(m, a)
    requires Size(ls[k], i) < Need(size) + MIN_SPLIT ==> m' == m
    ensures Reallocated(m, m', ls, ls[k := Shrunk(ls[k], Need(size), i)], ptr, ptr, size)
  {
    hide LiveIn, Shrunk, OthersKept, Live, Need, Carried;
    NeedEnough(size);
    var s := UsedLive(ls, k, i, ptr);
    var p, need := ptr - HEADER, Need(size);
    var l, ls' := ls[k], ls[k := Shrunk(ls[k], Need(size), i)];
    assert ZoneOK(m, zones[k], l);
    BlockAt(m, zones, ls, k, i);
    var z := if need + MIN_SPLIT <= Size(l, i) then need else Size(l, i);
    forall x: nat, t: nat
      ensures LiveIn(ls', x, t) <==> (LiveIn(ls, x, t) && x != p) || (x == p && t == z)
    {
      ShrunkLive(l, need, i, x, t);
      MovedLive(ls, ls', k, x, t);
      if x == p {
        forall j | j != k
          ensures !LiveInZone(ls, j, x, t)
        {
          if 0 <= j < |ls| { NotElsewhere(m, zones, ls, k, i, j, t); }
        }
      }
    }
    forall q: nat, t: nat, a: nat | LiveIn(ls, q, t) && q != p && Behind(q, t, a)
      ensures At(m', a) == At(m, a)
    {
      KeptOthers(m, m', ls, k, i, q, t, a);
    }
    assert Carried(m, m', p, s, p, z) by { ShrunkCarried(m, m', l, i, s, z, need); }
    assert Resized(m, m', ls, ls', p, s, p, z, size);
  }

  lemma ShrunkCarried(m: Mem, m': Mem, l: seq<Block>, i: nat, s: nat, z: nat, need: nat)
    requires 0 < i < |l| - 1 && l[i].taken && l[i].at % 8 == 0 && s == Size(l, i) && z <= s && need <= s
    requires l[i].at <= l[i + 1].at
    requires z == need || z == s
    requires forall a: nat :: l[i].at + HEADER <= a < l[i].at + need && PayloadWord(l, i, a) ==> At(m', a) == At(m, a)
    requires z > need ==> m' == m
    ensures Carried(m, m', l[i].at, s, l[i].at, z)
  {
    hide At;
    if z <= need {
      forall a: nat | InBoth(a, s, z)
        ensures SameWord(m, l[i].at, m', l[i].at, a)
      {
        WordThere(l, i, a);
      }
    }
  }

  lemma WordThere(l: seq<Block>, i: nat, a: nat)
    requires 0 < i < |l| - 1 && l[i].taken && l[i].at % 8 == 0 && a % 4 == 0 && a + HEADER < Size(l, i)
    ensures PayloadWord(l, i, l[i].at + HEADER + a)
  {
    WordAligned(l[i].at, a);
  }

  lemma WordAligned(p: nat, a: nat)
    requires p % 8 == 0 && a % 4 == 0
    ensures (p + HEADER + a) % 4 == 0
  {
    var x, y := p / 8, a / 4;
    assert p == 8 * x && a == 4 * y;
    Fours(p + HEADER + a, 2 * x + 2 + y);
  }

  lemma Fours(n: int, q: int)
    requires n == 4 * q
    ensures n % 4 == 0
  {
  }

  lemma PayloadAligned(size: nat)
    requires size % 8 == 0
    ensures (size - HEADER) % 4 == 0
  {
    var x := size / 8;
    assert size == 8 * x;
    Fours(size - HEADER, 2 * x - 2);
  }

  // The old and the new block are apart, and the old contents fit into the new one.
  lemma RoomToMove(m1: Mem, zones: seq<Zone>, ls: seq<seq<Block>>, ls1: seq<seq<Block>>, k: nat, i: nat, ptr: nat,
          newptr: nat, z: nat, s: nat)
    requires Platform(zones) && AllOK(m1, zones, ls1) && InUse(ls, k, i, ptr) && s == Size(ls[k], i) && newptr >= HEADER
    requires MoreBy(ls, ls1, newptr - HEADER, z)
    ensures ptr >= HEADER && LiveIn(ls, ptr - HEADER, s) && LiveIn(ls1, ptr - HEADER, s)
    ensures LiveIn(ls1, newptr - HEADER, z)
    ensures ptr != newptr && (ptr - HEADER + s <= newptr - HEADER || newptr - HEADER + z <= ptr - HEADER)
    ensures ptr % 8 == 0 && newptr % 8 == 0
  {
    hide LiveIn, AllOK;
    var s' := UsedLive(ls, k, i, ptr);
    assert LiveIn(ls1, newptr - HEADER, z);
    ApartIn(m1, zones, ls1, ptr - HEADER, s, newptr - HEADER, z);
    ApartIn(m1, zones, ls1, newptr - HEADER, z, ptr - HEADER, s);
  }

  // The n bytes from src on are at dst now, and nothing else has changed.
  ghost predicate Copied(m: Mem, m': Mem, dst: nat, src: nat, n: nat) {
    && (forall a: nat :: a < n && a % 4 == 0 ==> At(m', dst + a) == At(m, src + a))
    && (forall b: nat :: !(dst <= b < dst + n && (b - dst) % 4 == 0) ==> At(m', b) == At(m, b))
  }

  lemma CopiedInside(m: Mem, m': Mem, dst: nat, src: nat, n: nat, z: nat)
    requires Copied(m, m', dst, src, n) && dst >= HEADER && dst % 8 == 0 && n + HEADER <= z
    ensures forall a: nat :: !Behind(dst - HEADER, z, a) ==> At(m', a) == At(m, a)
  {
    hide At;
    forall a: nat | !Behind(dst - HEADER, z, a)
      ensures At(m', a) == At(m, a)
    {
      if dst <= a < dst + n && (a - dst) % 4 == 0 {
        var x, y := dst / 8, (a - dst) / 4;
        assert dst == 8 * x && a == dst + 4 * y;
        Fours(a, 2 * x + y);
      }
    }
  }

  lemma ReallocMoved(m: Mem, m1: Mem, m2: Mem, m3: Mem, ls: seq<seq<Block>>, ls1: seq<seq<Block>>, ls3: seq<seq<Block>>, ptr: nat, s: nat, newptr: nat, z: nat, size: nat,
      zones: seq<Zone>)
    requires ptr >= HEADER && newptr >= HEADER && LiveIn(ls, ptr - HEADER, s) && ptr != newptr && s <= z
    requires size + HEADER <= z < Need(size) + MIN_SPLIT && s >= HEADER
    requires MoreBy(ls, ls1, newptr - HEADER, z) && LessBy(ls1, ls3, ptr - HEADER) && Platform(zones)
    requires AllOK(m1, zones, ls1)
    requires AllKept(m, m1, ls) && AllKept(m2, m3, ls1)
    requires Copied(m1, m2, newptr, ptr, s - HEADER)
    ensures Reallocated(m, m3, ls, ls3, ptr, newptr, size)
  {
    hide LiveIn, AllOK, AllKept, KeptBut, MoreBy, LessBy, Replaced, Carried, At, Platform;
    var p, q := ptr - HEADER, newptr - HEADER;
    MoreThere(ls, ls1, q, z, p, s);
    MovedKept(m, m1, m2, m3, ls, ls1, p, s, newptr, z, zones);
    MovedCarried(m, m1, m2, m3, ls, ls1, ptr, s, newptr, z, zones);
    MovedReplaced(ls, ls1, ls3, p, q, z);
    assert Resized(m, m3, ls, ls3, p, s, q, z, size);
  }

  lemma MoreThere(ls: seq<seq<Block>>, ls': seq<seq<Block>>, q: nat, z: nat, x: nat, t: nat)
    requires MoreBy(ls, ls', q, z) && LiveIn(ls, x, t)
    ensures LiveIn(ls', x, t) && LiveIn(ls', q, z) && x != q
  {
    hide LiveIn;
  }

  lemma MovedReplaced(ls: seq<seq<Block>>, ls1: seq<seq<Block>>, ls3: seq<seq<Block>>, p: nat, q: nat, z: nat)
    requires MoreBy(ls, ls1, q, z) && LessBy(ls1, ls3, p) && p != q
    ensures Replaced(ls, ls3, p, q, z)
  {
    hide LiveIn;
  }

  // The words that are copied get through.
  lemma MovedCarried(m: Mem, m1: Mem, m2: Mem, m3: Mem, ls: seq<seq<Block>>, ls1: seq<seq<Block>>, ptr: nat, s: nat,
          newptr: nat, z: nat, zones: seq<Zone>)
    requires ptr >= HEADER && newptr >= HEADER && Platform(zones) && AllOK(m1, zones, ls1) && s >= HEADER
    requires LiveIn(ls, ptr - HEADER, s) && LiveIn(ls1, ptr - HEADER, s) && LiveIn(ls1, newptr - HEADER, z)
    requires AllKept(m, m1, ls) && AllKept(m2, m3, ls1)
    requires forall a: nat :: a < s - HEADER && a % 4 == 0 ==> At(m2, newptr + a) == At(m1, ptr + a)
    ensures Carried(m, m3, ptr - HEADER, s, newptr - HEADER, z)
  {
    hide LiveIn, AllOK, AllKept, Platform, At;
    var p, q: nat := ptr - HEADER, newptr - HEADER;
    ApartIn(m1, zones, ls1, p, s, q, z);
    ApartIn(m1, zones, ls1, q, z, p, s);
    forall a: nat | InBoth(a, s, z)
      ensures SameWord(m, p, m3, q, a)
    {
      WordAligned(p, a);
      WordAligned(q, a);
      KeptAll(m, m1, ls, p, s, ptr + a);
      KeptAll(m2, m3, ls1, q, z, newptr + a);
      assert At(m2, newptr + a) == At(m1, ptr + a);
    }
  }

  // The words of the other blocks stay.
  lemma MovedKept(m: Mem, m1: Mem, m2: Mem, m3: Mem, ls: seq<seq<Block>>, ls1: seq<seq<Block>>, p: nat, s: nat,
          newptr: nat, z: nat, zones: seq<Zone>)
    requires newptr >= HEADER && MoreBy(ls, ls1, newptr - HEADER, z) && Platform(zones) && AllOK(m1, zones, ls1)
    requires HEADER <= s <= z
    requires AllKept(m, m1, ls) && AllKept(m2, m3, ls1)
    requires forall b: nat :: !(newptr <= b < newptr + (s - HEADER) && (b - newptr) % 4 == 0) ==> At(m2, b) == At(m1, b)
    ensures KeptBut(m, m3, ls, p)
  {
    hide LiveIn, AllOK, AllKept, Platform, At, MoreBy;
    var q: nat := newptr - HEADER;
    forall x: nat, t: nat, a: nat | LiveIn(ls, x, t) && x != p && Behind(x, t, a)
      ensures At(m3, a) == At(m, a)
    {
      MoreThere(ls, ls1, q, z, x, t);
      KeptAll(m, m1, ls, x, t, a);
      ApartIn(m1, zones, ls1, x, t, q, z);
      KeptAll(m2, m3, ls1, x, t, a);
      assert !(newptr <= a < newptr + (s - HEADER));
    }
  }
}
