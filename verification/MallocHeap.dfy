/** The heap as a value: chunks that tile the segments, their boundary tags, and where free chunks are kept. */
module MallocHeap {
  import opened MallocSizes

  const MIN_CHUNK := 16
  const TOP_FOOT := 40

  // The head word of a chunk: its size and the two bits below it.
  datatype Head = Head(size: nat, pinuse: bool, cinuse: bool)

  datatype Heap = Heap(
    heads: map<nat, Head>,
    foots: map<nat, nat>,    // prev_foot of the chunk at an address
    at: set<nat>,            // where chunks begin
    stops: set<nat>,         // where the chunks of a segment end
    free: map<nat, nat>,     // the chunks in bins, with their sizes
    dv: nat, dvsize: nat, top: nat, topsize: nat,
    segs: seq<Segment>,      // the segment of top is the first
    recs: set<nat>)          // chunks in use that hold segment records

  datatype Segment = Segment(base: nat, size: nat)

  // Some segment holds all the bytes from lo to hi.
  ghost predicate Owned(segs: seq<Segment>, lo: nat, hi: nat) {
    exists i :: 0 <= i < |segs| && segs[i].base <= lo && hi <= segs[i].base + segs[i].size
  }

  function Size(h: Heap, p: nat): nat {
    if p in h.heads then h.heads[p].size else 0
  }

  function Next(h: Heap, p: nat): nat {
    p + Size(h, p)
  }

  predicate Pinuse(h: Heap, p: nat) {
    p in h.heads && h.heads[p].pinuse
  }

  predicate Cinuse(h: Heap, p: nat) {
    p in h.heads && h.heads[p].cinuse
  }

  function Foot(h: Heap, p: nat): nat {
    if p in h.foots then h.foots[p] else 0
  }

  // A free chunk is top, or dv, or in the bin of its size; its size is repeated behind it.
  ghost predicate Kept(h: Heap, p: nat) {
    if p == h.top then h.topsize == Size(h, p) && Next(h, p) in h.stops
    else
      && Next(h, p) in h.foots && Foot(h, Next(h, p)) == Size(h, p)
      && (if p == h.dv then h.dvsize == Size(h, p) && p !in h.free else p in h.free && h.free[p] == Size(h, p))
  }

  /** What do_check_free_chunk and do_check_inuse_chunk check of one chunk, and more. */
  ghost predicate ChunkOK(h: Heap, p: nat) {
    && p in h.heads && p > 0 && p % 8 == 0 && Size(h, p) % 8 == 0 && Size(h, p) > 0
    && (p != h.top ==> Size(h, p) >= MIN_CHUNK)
    && Next(h, p) in h.heads && (Next(h, p) in h.at || Next(h, p) in h.stops) && Next(h, p) < WORD
    && Owned(h.segs, p, Next(h, p) + 8)
    && (Pinuse(h, Next(h, p)) <==> Cinuse(h, p)) && (Next(h, p) in h.stops && p != h.top ==> Cinuse(h, Next(h, p)))
    && (!Cinuse(h, p) ==> Pinuse(h, p) && Kept(h, p))
    && (!Pinuse(h, p) ==> p in h.foots && Foot(h, p) <= p && p - Foot(h, p) in h.at && Size(h, p - Foot(h, p)) == Foot(h, p))
  }

  // No chunk reaches into another, or over the end of its segment.
  ghost predicate Apart(h: Heap) {
    && (forall p, q :: p in h.at && q in h.at && p < q ==> Next(h, p) <= q)
    && (forall p, s :: p in h.at && s in h.stops && p < s ==> Next(h, p) <= s)
    && h.at !! h.stops
  }

  ghost predicate Places(h: Heap) {
    && (forall p :: p in h.free ==> p in h.at && !Cinuse(h, p) && p != h.dv && p != h.top)
    && (h.dv != 0 ==> h.dv in h.at && !Cinuse(h, h.dv) && h.dv != h.top)
    && (h.dv == 0 <==> h.dvsize == 0)
    && (if h.top == 0 then h.at == {} && h.topsize == 0 else h.top in h.at && !Cinuse(h, h.top))
  }

  // Nothing of the first segment begins behind top.
  ghost predicate TopLast(h: Heap) {
    forall p :: p in h.at && |h.segs| > 0 && h.segs[0].base <= p < h.segs[0].base + h.segs[0].size ==> p <= h.top
  }

  ghost predicate StopLast(h: Heap) {
    forall s :: s in h.stops && |h.segs| > 0 && h.segs[0].base <= s < h.segs[0].base + h.segs[0].size ==> s <= h.top + h.topsize
  }

  // Segments do not overlap; each begins with a chunk, and ends behind its last one.
  ghost predicate Segmented(h: Heap) {
    && (forall i, j :: 0 <= i < |h.segs| && 0 <= j < |h.segs| && i != j ==>
      h.segs[i].base + h.segs[i].size <= h.segs[j].base || h.segs[j].base + h.segs[j].size <= h.segs[i].base)
    && (forall i :: 0 <= i < |h.segs| ==> h.segs[i].base in h.at && h.segs[i].size > TOP_FOOT && h.segs[i].base + h.segs[i].size < WORD)
    && (forall s :: s in h.stops ==> Owned(h.segs, s, s + 8))
    && (h.top != 0 ==> |h.segs| > 0 && h.segs[0].base <= h.top && h.top + h.topsize + TOP_FOOT == h.segs[0].base + h.segs[0].size)
    && (h.top == 0 ==> h.segs == []) && TopLast(h) && StopLast(h)
    && (forall p :: p in h.recs ==> p in h.at && Cinuse(h, p))
  }

  /** The invariant of the whole heap. */
  ghost predicate Sound(h: Heap) {
    (forall p :: p in h.at ==> ChunkOK(h, p)) && Apart(h) && Places(h) && Segmented(h)
  }

  /** The chunks that callers use, with their sizes. */
  ghost function Live(h: Heap): map<nat, nat> {
    map p | p in h.at && Cinuse(h, p) && p !in h.recs :: Size(h, p)
  }

  // ----- what the tiling means

  lemma ChunkAt(h: Heap, p: nat)
    requires Sound(h) && p in h.at
    ensures ChunkOK(h, p)
  {
  }

  /** No two free chunks are adjacent. */
  lemma FreeNeighbours(h: Heap, p: nat)
    requires Sound(h) && p in h.at && !Cinuse(h, p) && Next(h, p) in h.at
    ensures Cinuse(h, Next(h, p))
  {
    assert ChunkOK(h, p) && ChunkOK(h, Next(h, p));
  }

  /** The chunk before one that says its predecessor is free. */
  lemma Before(h: Heap, p: nat)
    requires Sound(h) && p in h.at && !Pinuse(h, p)
    ensures Foot(h, p) <= p && p - Foot(h, p) in h.at && Next(h, p - Foot(h, p)) == p && !Cinuse(h, p - Foot(h, p))
    ensures p - Foot(h, p) != h.top && Foot(h, p) >= MIN_CHUNK && Pinuse(h, p - Foot(h, p))
  {
    var q := p - Foot(h, p);
    assert ChunkOK(h, p) && ChunkOK(h, q);
  }

  // A chunk that another one leads to is not the first of a segment.
  lemma NotBase(h: Heap, p: nat, i: nat)
    requires Sound(h) && p in h.at && i < |h.segs|
    ensures h.segs[i].base != Next(h, p)
  {
    assert ChunkOK(h, p);
    var j :| 0 <= j < |h.segs| && h.segs[j].base <= p && Next(h, p) + 8 <= h.segs[j].base + h.segs[j].size;
    SegmentsApart(h, i, j);
  }

  lemma SegmentsApart(h: Heap, i: nat, j: nat)
    requires Segmented(h) && i < |h.segs| && j < |h.segs|
    ensures i == j || h.segs[i].base + h.segs[i].size <= h.segs[j].base || h.segs[j].base + h.segs[j].size <= h.segs[i].base
  {
  }

  lemma OwnedPart(segs: seq<Segment>, lo: nat, hi: nat, lo': nat, hi': nat)
    requires Owned(segs, lo, hi) && lo <= lo' && hi' <= hi
    ensures Owned(segs, lo', hi')
  {
  }

  // Two chunks in a row are in one segment.
  lemma OwnedTwice(h: Heap, lo: nat, mid: nat, hi: nat)
    requires Segmented(h) && lo <= mid <= hi && Owned(h.segs, lo, mid + 8) && Owned(h.segs, mid, hi + 8)
    ensures Owned(h.segs, lo, hi + 8)
  {
    var i :| 0 <= i < |h.segs| && h.segs[i].base <= lo && mid + 8 <= h.segs[i].base + h.segs[i].size;
    var j :| 0 <= j < |h.segs| && h.segs[j].base <= mid && hi + 8 <= h.segs[j].base + h.segs[j].size;
    SegmentsApart(h, i, j);
  }

  lemma SegmentsOf(h: Heap)
    requires Sound(h)
    ensures Segmented(h)
  {
  }

  // The segments as they are when chunks change inside them.
  lemma SegmentedStays(h: Heap, h': Heap)
    requires Segmented(h) && h'.segs == h.segs && h'.recs == h.recs && h'.stops == h.stops
    requires (h'.top == 0 <==> h.top == 0) && h'.top + h'.topsize == h.top + h.topsize
    requires (h.top != 0 ==> h'.top >= h.segs[0].base)
    requires forall i :: 0 <= i < |h.segs| ==> h.segs[i].base in h'.at
    requires forall p :: p in h.recs ==> p in h'.at && Cinuse(h', p)
    requires TopLast(h')
    ensures Segmented(h')
  {
  }

  // ----- taking a whole free chunk

  // set_inuse_and_pinuse of a free chunk that has been taken out of its place.
  function Taken(h: Heap, p: nat): Heap
    requires p in h.heads && Next(h, p) in h.heads
  {
    var n := Next(h, p);
    h.(heads := h.heads[p := Head(Size(h, p), true, true)][n := h.heads[n].(pinuse := true)],
       free := h.free - {p}, dv := if p == h.dv then 0 else h.dv, dvsize := if p == h.dv then 0 else h.dvsize)
  }

  lemma TakenChunk(h: Heap, p: nat, q: nat)
    requires Sound(h) && p in h.at && !Cinuse(h, p) && p != h.top && q in h.at
    ensures p in h.heads && Next(h, p) in h.heads && ChunkOK(Taken(h, p), q)
  {
    hide Apart, Places, Segmented, Sound;
    ChunkAt(h, p);
    ChunkAt(h, q);
    Distinct(h, p, q);
  }

  // A chunk other than top, and what is behind and before it, as they were.
  ghost predicate AlikeHead(h: Heap, h': Heap, q: nat) {
    && q != h.top && q != h'.top && q in h'.heads
    && Size(h', q) == Size(h, q) && Cinuse(h', q) == Cinuse(h, q) && Pinuse(h', q) == Pinuse(h, q)
  }

  ghost predicate AlikeNext(h: Heap, h': Heap, q: nat) {
    var n := Next(h, q);
    && n in h'.heads && Pinuse(h', n) == Pinuse(h, n) && Owned(h'.segs, q, n + 8)
    && (n in h'.at || n in h'.stops) && (n in h'.stops ==> Cinuse(h', n))
  }

  ghost predicate AlikeFree(h: Heap, h': Heap, q: nat) {
    !Cinuse(h, q) ==>
      && Next(h, q) in h'.foots && Foot(h', Next(h, q)) == Foot(h, Next(h, q))
      && (q == h'.dv <==> q == h.dv) && (q == h.dv ==> h'.dvsize == h.dvsize)
      && (q in h'.free <==> q in h.free) && (q in h.free ==> h'.free[q] == h.free[q])
  }

  ghost predicate AlikeBefore(h: Heap, h': Heap, q: nat) {
    !Pinuse(h, q) ==>
      && q in h'.foots && Foot(h', q) == Foot(h, q) && Foot(h, q) <= q
      && q - Foot(h, q) in h'.at && Size(h', q - Foot(h, q)) == Foot(h, q)
  }

  lemma ChunkAlike(h: Heap, h': Heap, q: nat)
    requires ChunkOK(h, q) && AlikeHead(h, h', q) && AlikeNext(h, h', q) && AlikeFree(h, h', q) && AlikeBefore(h, h', q)
    ensures ChunkOK(h', q)
  {
    hide Owned;
  }

  // What the invariant says of a chunk other than top and of its neighbours.
  lemma ChunkNext(h: Heap, q: nat)
    requires Sound(h) && q in h.at && q != h.top
    ensures q in h.heads && ChunkOK(h, q) && Size(h, q) >= MIN_CHUNK
    ensures var n := Next(h, q);
      n in h.heads && Owned(h.segs, q, n + 8) && (n in h.at || n in h.stops) && (n in h.stops ==> Cinuse(h, n))
    ensures !Cinuse(h, q) ==> Next(h, q) in h.foots
    ensures !Pinuse(h, q) ==>
      q in h.foots && Foot(h, q) <= q && q - Foot(h, q) in h.at && Size(h, q - Foot(h, q)) == Foot(h, q)
  {
    hide Apart, Places, Segmented, Owned;
    ChunkAt(h, q);
  }

  // What the tiling says of two chunks.
  lemma Distinct(h: Heap, p: nat, q: nat)
    requires Sound(h) && p in h.at && q in h.at
    ensures p != q ==> Next(h, p) != Next(h, q)
    ensures p != q ==> !(p <= q < Next(h, p))
    ensures Next(h, q) == p ==> (Pinuse(h, p) <==> Cinuse(h, q))
  {
    assert ChunkOK(h, p) && ChunkOK(h, q);
  }

  lemma TakenSound(h: Heap, p: nat)
    requires Sound(h) && p in h.at && !Cinuse(h, p) && p != h.top
    ensures p in h.heads && Next(h, p) in h.heads && Sound(Taken(h, p))
    ensures Live(Taken(h, p)) == Live(h)[p := Size(h, p)]
  {
    hide ChunkOK;
    TakenChunk(h, p, p);
    var h' := Taken(h, p);
    forall q | q in h'.at
      ensures ChunkOK(h', q)
    {
      TakenChunk(h, p, q);
    }
    SameTiles(h, h');
    TakenPlaces(h, p);
    SegmentsOf(h);
    SegmentedStays(h, h');
  }

  lemma SameTiles(h: Heap, h': Heap)
    requires Apart(h) && h'.at == h.at && h'.stops == h.stops && forall p :: p in h.at ==> Size(h', p) == Size(h, p)
    ensures Apart(h')
  {
  }

  lemma TakenPlaces(h: Heap, p: nat)
    requires Sound(h) && p in h.at && !Cinuse(h, p) && p != h.top && p in h.heads && Next(h, p) in h.heads
    ensures Places(Taken(h, p)) && Live(Taken(h, p)) == Live(h)[p := Size(h, p)]
  {
    hide Apart, ChunkOK;
    NotTop(h, p);
    PlacesOf(h);
    var h' := Taken(h, p);
    assert forall q :: Size(h', q) == Size(h, q);
    assert forall q :: Cinuse(h', q) <==> Cinuse(h, q) || q == p;
    LiveMore(h, h', p);
  }

  // ----- splitting a free chunk

  // Chunk p is used up to nb. The rest is the new dv, the old one going to a bin, or goes to a bin itself.
  function Split(h: Heap, p: nat, nb: nat, toDv: bool): Heap
    requires p in h.heads && nb < Size(h, p)
  {
    var r, rest := p + nb, Size(h, p) - nb;
    h.(heads := h.heads[p := Head(nb, true, true)][r := Head(rest, true, false)],
       foots := h.foots[r + rest := rest], at := h.at + {r},
       free := if !toDv then (h.free - {p})[r := rest]
               else if h.dv != 0 && h.dv != p then (h.free - {p})[h.dv := h.dvsize] else h.free - {p},
       dv := if toDv then r else h.dv, dvsize := if toDv then rest else h.dvsize)
  }

  // A free chunk that is large enough to be split.
  ghost predicate Splits(h: Heap, p: nat, nb: nat, toDv: bool) {
    && Sound(h) && p in h.at && !Cinuse(h, p) && p != h.top && (p == h.dv ==> toDv)
    && nb % 8 == 0 && nb >= MIN_CHUNK && nb + MIN_CHUNK <= Size(h, p)
  }

  // Nothing begins inside a chunk.
  lemma Inside(h: Heap, p: nat, r: nat)
    requires Sound(h) && p in h.at && p < r < Next(h, p)
    ensures r !in h.at && r !in h.stops && forall q :: q in h.at && q != p ==> Next(h, q) <= p || q >= Next(h, p)
  {
    assert ChunkOK(h, p);
    forall q | q in h.at && q != p
      ensures Next(h, q) <= p || q >= Next(h, p)
    {
    }
  }

  // The two parts of the split chunk ...
  lemma SplitParts(h: Heap, p: nat, nb: nat, toDv: bool)
    requires Splits(h, p, nb, toDv)
    ensures p in h.heads && ChunkOK(Split(h, p, nb, toDv), p) && ChunkOK(Split(h, p, nb, toDv), p + nb)
  {
    hide Apart, Segmented, Owned, Sound;
    ChunkAt(h, p);
    Inside(h, p, p + nb);
    PlacesOf(h);
    OwnedPart(h.segs, p, Next(h, p) + 8, p, p + nb + 8);
    OwnedPart(h.segs, p, Next(h, p) + 8, p + nb, Next(h, p) + 8);
  }

  // ... and the others.
  lemma SplitChunk(h: Heap, p: nat, nb: nat, toDv: bool, q: nat)
    requires Splits(h, p, nb, toDv) && q in h.at && q != p && p in h.heads
    ensures ChunkOK(Split(h, p, nb, toDv), q)
  {
    if q == Next(h, p) { SplitNext(h, p, nb, toDv); } else { SplitOther(h, p, nb, toDv, q); }
  }

  lemma SplitNext(h: Heap, p: nat, nb: nat, toDv: bool)
    requires Splits(h, p, nb, toDv) && p in h.heads && Next(h, p) in h.at && Next(h, p) != p
    ensures ChunkOK(Split(h, p, nb, toDv), Next(h, p))
  {
    var q := Next(h, p);
    hide Apart, Segmented, Owned, Sound, StopLast;
    ChunkAt(h, p);
    Inside(h, p, p + nb);
    PlacesOf(h);
    ChunkAt(h, q);
    Distinct(h, p, q);
    if !Pinuse(h, q) { SplitBefore(h, p, nb, q); }
  }

  lemma SplitOther(h: Heap, p: nat, nb: nat, toDv: bool, q: nat)
    requires Splits(h, p, nb, toDv) && q in h.at && q != p && p in h.heads && q != Next(h, p)
    ensures ChunkOK(Split(h, p, nb, toDv), q)
  {
    hide Apart, Segmented, Owned, Sound, StopLast;
    ChunkAt(h, p);
    Inside(h, p, p + nb);
    PlacesOf(h);
    ChunkAt(h, q);
    Distinct(h, p, q);
    if !Pinuse(h, q) { SplitBefore(h, p, nb, q); }
  }

  // The free chunk before another one is not the split one, unless it is the rest.
  lemma SplitBefore(h: Heap, p: nat, nb: nat, q: nat)
    requires Sound(h) && p in h.at && q in h.at && q != p && !Pinuse(h, q) && 0 < nb < Size(h, p)
    ensures Foot(h, q) <= q && q - Foot(h, q) in h.at && (q - Foot(h, q) == p <==> q == Next(h, p))
    ensures q - Foot(h, q) != p + nb
  {
    hide Apart, Segmented, Places;
    Before(h, q);
    Inside(h, p, p + nb);
    if q == Next(h, p) { Distinct(h, p, q - Foot(h, q)); }
  }

  lemma PlacesOf(h: Heap)
    requires Sound(h)
    ensures Places(h) && h.at !! h.stops && forall p :: p in h.at ==> p > 0
  {
    forall p | p in h.at
      ensures p > 0
    {
      ChunkAt(h, p);
    }
  }

  lemma NextApart(h: Heap, p: nat)
    requires Sound(h) && p in h.at
    ensures forall q :: q in h.at && q != p ==> !(p <= q < Next(h, p)) && Next(h, q) != Next(h, p)
    ensures Next(h, p) > p
  {
    assert ChunkOK(h, p);
    forall q | q in h.at && q != p
      ensures !(p <= q < Next(h, p)) && Next(h, q) != Next(h, p)
    {
      Distinct(h, p, q);
    }
  }

  lemma SplitSound(h: Heap, p: nat, nb: nat, toDv: bool)
    requires Splits(h, p, nb, toDv)
    ensures p in h.heads && Sound(Split(h, p, nb, toDv)) && Live(Split(h, p, nb, toDv)) == Live(h)[p := nb]
  {
    hide ChunkOK;
    SplitParts(h, p, nb, toDv);
    var h' := Split(h, p, nb, toDv);
    forall q | q in h'.at
      ensures ChunkOK(h', q)
    {
      if q != p && q != p + nb { SplitChunk(h, p, nb, toDv, q); }
    }
    SplitApart(h, p, nb, toDv);
    SplitPlaces(h, p, nb, toDv);
    SplitOthers(h, p, nb, toDv);
    SegmentsOf(h);
    assert TopLast(h') by { if |h.segs| > 0 && h.segs[0].base <= p + nb < h.segs[0].base + h.segs[0].size { PartBeforeTop(h, p, p + nb); } }
    SegmentedStays(h, h');
  }

  // A place inside a chunk that is not top is not behind top.
  lemma PartBeforeTop(h: Heap, p: nat, r: nat)
    requires Sound(h) && p in h.at && p < r < Next(h, p) && p != h.top && |h.segs| > 0
    requires h.segs[0].base <= r < h.segs[0].base + h.segs[0].size
    ensures r <= h.top
  {
    assert ChunkOK(h, p);
    var i :| 0 <= i < |h.segs| && h.segs[i].base <= p && Next(h, p) + 8 <= h.segs[i].base + h.segs[i].size;
    SegmentsApart(h, 0, i);
  }

  lemma SplitApart(h: Heap, p: nat, nb: nat, toDv: bool)
    requires Splits(h, p, nb, toDv) && p in h.heads
    ensures Apart(Split(h, p, nb, toDv))
  {
    hide ChunkOK, Places, Segmented;
    Inside(h, p, p + nb);
    var h' := Split(h, p, nb, toDv);
    assert forall q :: q in h.at && q != p ==> Size(h', q) == Size(h, q);
    assert Next(h', p + nb) == Next(h, p);
  }

  lemma SplitPlaces(h: Heap, p: nat, nb: nat, toDv: bool)
    requires Splits(h, p, nb, toDv) && p in h.heads
    ensures Places(Split(h, p, nb, toDv)) && Live(Split(h, p, nb, toDv)) == Live(h)[p := nb]
  {
    hide Apart, ChunkOK, Segmented;
    NotTop(h, p);
    Inside(h, p, p + nb);
    var h' := Split(h, p, nb, toDv);
    SplitOthers(h, p, nb, toDv);
    LiveMore(h, h', p);
  }

  lemma NotTop(h: Heap, p: nat)
    requires Sound(h) && p in h.at && !Cinuse(h, p) && p != h.top
    ensures Size(h, p) >= MIN_CHUNK
    ensures (if p == h.dv then h.dvsize == Size(h, p) && p !in h.free else p in h.free && h.free[p] == Size(h, p))
    ensures p > 0 && p % 8 == 0 && Pinuse(h, p) && p !in h.recs
  {
    assert ChunkOK(h, p);
  }

  lemma SplitOthers(h: Heap, p: nat, nb: nat, toDv: bool)
    requires Splits(h, p, nb, toDv) && p in h.heads
    ensures var h' := Split(h, p, nb, toDv);
      && (forall q :: q in h.at && q != p ==> Size(h', q) == Size(h, q) && (Cinuse(h', q) <==> Cinuse(h, q)))
      && Cinuse(h', p) && Size(h', p) == nb && !Cinuse(h', p + nb)
  {
    hide Sound;
    Inside(h, p, p + nb);
  }

  // One more chunk is in use.
  lemma LiveMore(h: Heap, h': Heap, p: nat)
    requires p in h.at && !Cinuse(h, p) && p in h'.at && Cinuse(h', p) && p !in h.recs && h'.recs == h.recs
    requires forall q :: q in h.at && q != p ==>
      q in h'.at && Size(h', q) == Size(h, q) && (Cinuse(h', q) <==> Cinuse(h, q))
    requires forall q :: q in h'.at && q !in h.at ==> !Cinuse(h', q)
    ensures Live(h') == Live(h)[p := Size(h', p)]
  {
  }

  // ----- splitting top

  function SplitTop(h: Heap, nb: nat): Heap
    requires nb < h.topsize
  {
    var p, r := h.top, h.top + nb;
    h.(heads := h.heads[r := Head(h.topsize - nb, true, false)][p := Head(nb, true, true)],
       at := h.at + {r}, top := r, topsize := h.topsize - nb)
  }

  ghost predicate TopSplits(h: Heap, nb: nat) {
    Sound(h) && nb % 8 == 0 && MIN_CHUNK <= nb < h.topsize
  }

  lemma TopSplitParts(h: Heap, nb: nat)
    requires TopSplits(h, nb)
    ensures ChunkOK(SplitTop(h, nb), h.top) && ChunkOK(SplitTop(h, nb), h.top + nb)
  {
    hide Apart, Segmented, Owned, Sound;
    PlacesOf(h);
    ChunkAt(h, h.top);
    Inside(h, h.top, h.top + nb);
    OwnedPart(h.segs, h.top, Next(h, h.top) + 8, h.top, h.top + nb + 8);
    OwnedPart(h.segs, h.top, Next(h, h.top) + 8, h.top + nb, Next(h, h.top) + 8);
  }

  lemma TopSplitChunk(h: Heap, nb: nat, q: nat)
    requires TopSplits(h, nb) && q in h.at && q != h.top
    ensures ChunkOK(SplitTop(h, nb), q)
  {
    hide Apart, Segmented, Owned, Sound;
    PlacesOf(h);
    TopThere(h);
    Inside(h, h.top, h.top + nb);
    ChunkAt(h, q);
    Distinct(h, h.top, q);
    if !Pinuse(h, q) {
      Before(h, q);
      SplitBefore(h, h.top, nb, q);
    }
  }

  lemma TopSplitSound(h: Heap, nb: nat)
    requires TopSplits(h, nb)
    ensures Sound(SplitTop(h, nb)) && Live(SplitTop(h, nb)) == Live(h)[h.top := nb]
  {
    hide ChunkOK, Apart, Places, Segmented, Sound;
    var h' := SplitTop(h, nb);
    TopSplitParts(h, nb);
    forall q | q in h'.at
      ensures ChunkOK(h', q)
    {
      if q != h.top && q != h.top + nb { TopSplitChunk(h, nb, q); }
    }
    TopSplitTiles(h, nb);
    FreedAll(h');
  }

  lemma TopSplitTiles(h: Heap, nb: nat)
    requires TopSplits(h, nb)
    ensures var h' := SplitTop(h, nb);
      Apart(h') && Places(h') && Segmented(h') && Live(h') == Live(h)[h.top := nb]
  {
    hide ChunkOK, Apart, Segmented, Sound;
    var h' := SplitTop(h, nb);
    PlacesOf(h);
    TopThere(h);
    Inside(h, h.top, h.top + nb);
    assert forall q :: q in h.at && q != h.top ==> Size(h', q) == Size(h, q) && (Cinuse(h', q) <==> Cinuse(h, q));
    LiveMore(h, h', h.top);
    TopSplitApart(h, nb);
    SegmentsOf(h);
    TopSplitLast(h, nb);
    SegmentedStays(h, h');
  }

  lemma TopSplitApart(h: Heap, nb: nat)
    requires TopSplits(h, nb)
    ensures Apart(SplitTop(h, nb))
  {
    hide ChunkOK, Segmented;
    PlacesOf(h);
    TopThere(h);
    Inside(h, h.top, h.top + nb);
    assert Next(SplitTop(h, nb), h.top + nb) == Next(h, h.top);
    assert forall q :: q in h.at && q != h.top ==> Size(SplitTop(h, nb), q) == Size(h, q);
  }

  lemma TopSplitLast(h: Heap, nb: nat)
    requires TopSplits(h, nb)
    ensures TopLast(SplitTop(h, nb)) && (forall i :: 0 <= i < |h.segs| ==> h.segs[i].base in h.at) && forall p :: p in h.recs ==> p in h.at && Cinuse(SplitTop(h, nb), p)
  {
    hide ChunkOK, Apart;
    PlacesOf(h);
    TopThere(h);
    Inside(h, h.top, h.top + nb);
  }

  lemma TopThere(h: Heap)
    requires Sound(h) && h.top != 0
    ensures h.top !in h.recs && h.segs != [] && h.segs[0].base <= h.top
    ensures h.top in h.at && h.top in h.heads && !Cinuse(h, h.top) && Pinuse(h, h.top)
    ensures Size(h, h.top) == h.topsize > 0
    ensures Next(h, h.top) in h.stops && Next(h, h.top) in h.heads && h.top % 8 == 0 && h.topsize % 8 == 0
  {
    assert ChunkOK(h, h.top);
  }

  // ----- freeing

  // Where the free chunk that p becomes begins and ends.
  function Back(h: Heap, p: nat): nat {
    if !Pinuse(h, p) && Foot(h, p) <= p then p - Foot(h, p) else p
  }

  function Forth(h: Heap, p: nat): nat {
    var n := Next(h, p);
    if n in h.at && !Cinuse(h, n) then Next(h, n) else n
  }

  // What p swallows and what swallows p.
  function Gone(h: Heap, p: nat): set<nat> {
    (if Back(h, p) != p then {p} else {}) + (if Forth(h, p) != Next(h, p) then {Next(h, p)} else {})
  }

  // p is freed and merged with its free neighbours.
  function Freed(h: Heap, p: nat): Heap {
    var q, n, e := Back(h, p), Next(h, p), Forth(h, p);
    var z := if e >= q then e - q else 0;
    if n == h.top && n in h.at then
      h.(heads := h.heads[q := Head(z, true, false)], at := h.at - Gone(h, p), free := h.free - {q},
         dv := if h.dv == q then 0 else h.dv, dvsize := if h.dv == q then 0 else h.dvsize, top := q, topsize := z)
    else
      var toDv := q == h.dv || (n == h.dv && e != n);
      h.(heads := if e in h.heads then h.heads[q := Head(z, true, false)][e := h.heads[e].(pinuse := false)] else h.heads,
         foots := h.foots[e := z], at := h.at - Gone(h, p),
         free := if toDv then h.free - {q, n} else (h.free - {q, n})[q := z],
         dv := if toDv then q else h.dv, dvsize := if toDv then z else h.dvsize)
  }

  // The neighbours of a chunk in use that is freed.
  ghost predicate Region(h: Heap, p: nat, q: nat, n: nat, e: nat) {
    && q == Back(h, p) && n == Next(h, p) && e == Forth(h, p)
    && q in h.at && q <= p < n <= e && q > 0 && q % 8 == 0 && (e - q) % 8 == 0 && e - q >= MIN_CHUNK
    && Pinuse(h, q) && (q == p || (Next(h, q) == p && !Cinuse(h, q) && q != h.top))
    && n in h.heads && e in h.heads && (e in h.at || e in h.stops)
    && (e != n ==> n in h.at && !Cinuse(h, n) && Next(h, n) == e && n != q)
    && (e == n ==> n !in h.at || Cinuse(h, n))
    && (n == h.top && n in h.at ==> e in h.stops && e != n)
    && ((n == h.top && n in h.at) || Cinuse(h, e)) && e < WORD && Owned(h.segs, q, e + 8)
  }

  lemma BackOf(h: Heap, p: nat)
    requires Sound(h) && p in h.at && Cinuse(h, p)
    ensures var q := Back(h, p);
      && q in h.at && 0 < q <= p && q % 8 == 0 && (p - q) % 8 == 0 && Pinuse(h, q) && q in h.heads
      && (q == p || (Next(h, q) == p && !Cinuse(h, q) && q != h.top && Owned(h.segs, q, p + 8)))
  {
    hide Apart, Places, Segmented;
    ChunkAt(h, p);
    if !Pinuse(h, p) {
      Before(h, p);
      ChunkAt(h, p - Foot(h, p));
    }
  }

  lemma ForthOf(h: Heap, p: nat)
    requires Sound(h) && p in h.at && Cinuse(h, p)
    ensures var n, e := Next(h, p), Forth(h, p);
      && p < n <= e && (e - p) % 8 == 0 && e - p >= MIN_CHUNK
      && n in h.heads && e in h.heads && (e in h.at || e in h.stops)
      && (e != n ==> n in h.at && !Cinuse(h, n) && Next(h, n) == e)
      && (e == n ==> n !in h.at || Cinuse(h, n))
      && (n == h.top && n in h.at ==> e in h.stops && e != n)
      && ((n == h.top && n in h.at) || Cinuse(h, e)) && e < WORD && Owned(h.segs, p, e + 8)
  {
    hide Apart, Segmented, Owned, Sound;
    ChunkAt(h, p);
    PlacesOf(h);
    SegmentsOf(h);
    var n := Next(h, p);
    if n in h.at {
      ChunkAt(h, n);
      OwnedTwice(h, p, n, Next(h, n));
      if Next(h, n) in h.at { ChunkAt(h, Next(h, n)); }
    }
  }

  lemma RegionOf(h: Heap, p: nat)
    requires Sound(h) && p in h.at && Cinuse(h, p)
    ensures Region(h, p, Back(h, p), Next(h, p), Forth(h, p))
  {
    hide Sound, Back, Forth, Owned;
    BackOf(h, p);
    ForthOf(h, p);
    SegmentsOf(h);
    if Back(h, p) != p { OwnedTwice(h, Back(h, p), p, Forth(h, p)); }
  }

  // Nothing else begins in the region.
  lemma RegionApart(h: Heap, p: nat, q: nat, n: nat, e: nat)
    requires Sound(h) && p in h.at && Cinuse(h, p) && Region(h, p, q, n, e)
    ensures forall x :: x in h.at && q <= x < e ==> x == q || x == p || x == n
    ensures forall x :: x in h.at && x != q && x != p && x != n ==> Next(h, x) <= q || x >= e
    ensures forall x :: x in h.stops ==> x <= q || x >= e
    ensures forall x :: x in h.at && x != q && x !in Gone(h, p) ==> Next(h, x) != e && (q != p ==> Next(h, x) != p)
  {
    hide ChunkOK;
    NextApart(h, q);
    NextApart(h, p);
    if n in h.at { NextApart(h, n); }
    forall x | x in h.stops
      ensures x <= q || x >= e
    {
    }
  }

  // The freed chunk itself ...
  lemma FreedHere(h: Heap, p: nat)
    requires Sound(h) && p in h.at && Cinuse(h, p)
    ensures ChunkOK(Freed(h, p), Back(h, p))
  {
    hide Apart, Segmented, Owned, Sound, Back, Forth;
    RegionOf(h, p);
    PlacesOf(h);
    BackRole(h, p);
    if Next(h, p) in h.at { ChunkAt(h, Next(h, p)); }
  }

  lemma BackRole(h: Heap, p: nat)
    requires Sound(h) && p in h.at && Cinuse(h, p)
    ensures Back(h, p) in h.heads && (Back(h, p) != p ==> Back(h, p) != Next(h, p))
    ensures Forth(h, p) != Back(h, p) && Forth(h, p) !in Gone(h, p)
    ensures Back(h, p) !in Gone(h, p) && Back(h, p) != h.top
    ensures Next(h, p) in h.at && Forth(h, p) != Next(h, p) && Next(h, p) != h.top && Next(h, p) == h.dv ==>
      Back(h, p) != h.dv
  {
    hide Apart, Segmented;
    RegionOf(h, p);
    PlacesOf(h);
  }

  // ... and the others: where x leads to, only the bit of the chunk behind the freed one changes.
  lemma FreedAround(h: Heap, p: nat, x: nat)
    requires Sound(h) && p in h.at && Cinuse(h, p) && x in h.at && x !in Gone(h, p) && x != Back(h, p)
    ensures var h', e := Freed(h, p), Forth(h, p);
      && x in h'.heads && Size(h', x) == Size(h, x) && Cinuse(h', x) == Cinuse(h, x)
      && (x != e ==> Pinuse(h', x) == Pinuse(h, x) && (x in h.foots ==> x in h'.foots && Foot(h', x) == Foot(h, x)))
      && (x == e ==> !Pinuse(h', x) && x in h'.foots && Foot(h', x) == e - Back(h, p))
      && Next(h, x) in h'.heads && Pinuse(h', Next(h, x)) == Pinuse(h, Next(h, x))
      && (Next(h, x) in h.stops ==> Cinuse(h', Next(h, x)) == Cinuse(h, Next(h, x)))
      && (Next(h, x) in h.foots ==> Next(h, x) in h'.foots && Foot(h', Next(h, x)) == Foot(h, Next(h, x)))
      && (Next(h, x) in h'.at || Next(h, x) in h'.stops)
  {
    hide Segmented, Owned, Sound, Back, Forth, Gone, Places;
    RegionOf(h, p);
    RegionApart(h, p, Back(h, p), Next(h, p), Forth(h, p));
    BackRole(h, p);
    ChunkAt(h, x);
    GoneIs(h, p, x);
    if Forth(h, p) in h.stops { StopApart(h, Forth(h, p)); }
    if Next(h, x) in h.stops { StopApart(h, Next(h, x)); }
  }

  lemma StopApart(h: Heap, s: nat)
    requires Sound(h) && s in h.stops
    ensures s !in h.at
  {
  }

  // Where a free chunk is kept stays.
  lemma FreedKept(h: Heap, p: nat, x: nat)
    requires Sound(h) && p in h.at && Cinuse(h, p) && x in h.at && x !in Gone(h, p) && x != Back(h, p) && !Cinuse(h, x)
    ensures Kept(Freed(h, p), x)
  {
    hide Apart, Segmented, Owned, Sound, Back, Forth, Gone, Freed;
    RegionOf(h, p);
    PlacesOf(h);
    ChunkAt(h, x);
    GoneIs(h, p, x);
    FreedAround(h, p, x);
    FreedFields(h, p);
    FreedAt(h, p);
  }

  lemma FreedFields(h: Heap, p: nat)
    ensures var h', q, n := Freed(h, p), Back(h, p), Next(h, p);
      && (forall x :: x != q && x != n ==> (x in h'.free <==> x in h.free) && (x in h.free ==> h'.free[x] == h.free[x]))
      && ((h'.dv == h.dv && h'.dvsize == h.dvsize) || h.dv == q || h.dv == n)
      && (h'.dv == h.dv || h'.dv == q || h'.dv == 0)
      && ((h'.top == h.top && h'.topsize == h.topsize) || (h'.top == q && h.top == n))
  {
  }

  lemma FreedOther(h: Heap, p: nat, x: nat)
    requires Sound(h) && p in h.at && Cinuse(h, p) && x in h.at && x !in Gone(h, p) && x != Back(h, p)
    ensures ChunkOK(Freed(h, p), x)
  {
    hide Apart, Segmented, Owned, Sound, Back, Forth, Gone, Freed, Places;
    RegionOf(h, p);
    ChunkAt(h, x);
    GoneIs(h, p, x);
    FreedAround(h, p, x);
    FreedAt(h, p);
    FreedSizes(h, p);
    FreedFields(h, p);
    BackRole(h, p);
    if !Cinuse(h, x) { FreedKept(h, p, x); }
    if !Pinuse(h, x) { FreedBefore(h, p, x); }
    if Forth(h, p) in h.stops { StopApart(h, Forth(h, p)); }
  }

  lemma GoneIs(h: Heap, p: nat, x: nat)
    requires Sound(h) && p in h.at && Cinuse(h, p) && x in h.at && x !in Gone(h, p) && x != Back(h, p)
    ensures x != p && (x == Next(h, p) ==> Forth(h, p) == Next(h, p))
    ensures Next(h, x) !in Gone(h, p) && Next(h, x) != Forth(h, p)
  {
    hide ChunkOK;
    RegionOf(h, p);
    RegionApart(h, p, Back(h, p), Next(h, p), Forth(h, p));
    NextApart(h, x);
    NextApart(h, p);
  }

  // The free chunk before another one stays what it is, unless it is the freed one.
  lemma FreedBefore(h: Heap, p: nat, x: nat)
    requires Sound(h) && p in h.at && Cinuse(h, p) && x in h.at && x !in Gone(h, p) && x != Back(h, p) && !Pinuse(h, x)
    ensures var y := x - Foot(h, x);
      y in h.at && (if y in Gone(h, p) then x == Forth(h, p) else y != p)
      && (y == Back(h, p) ==> x == Forth(h, p))
  {
    hide Apart, Segmented;
    Before(h, x);
    RegionOf(h, p);
    var y := x - Foot(h, x);
    ChunkAt(h, p);
    GoneIs(h, p, x);
    if y != Back(h, p) && y !in Gone(h, p) { GoneIs(h, p, y); }
  }
  /** dlfree keeps the invariant and gives back exactly the chunk freed. */
  lemma FreedSound(h: Heap, p: nat)
    requires Sound(h) && p in Live(h)
    ensures Sound(Freed(h, p)) && Live(Freed(h, p)) == Live(h) - {p}
  {
    hide ChunkOK, Freed, Back, Gone, Sound;
    var h' := Freed(h, p);
    BackRole(h, p);
    FreedHere(h, p);
    FreedAt(h, p);
    forall x | x in h'.at
      ensures ChunkOK(h', x)
    {
      if x != Back(h, p) { FreedOther(h, p, x); }
    }
    FreedApart(h, p);
    FreedPlaces(h, p);
    FreedSegments(h, p);
    FreedAll(h');
    FreedLive(h, p);
  }

  lemma FreedAll(h: Heap)
    requires (forall x :: x in h.at ==> ChunkOK(h, x)) && Apart(h) && Places(h) && Segmented(h)
    ensures Sound(h)
  {
  }

  /** dv stays what it is, larger by a block freed beside it; only into top it goes with the block. */
  lemma FreedVictim(h: Heap, p: nat)
    requires Sound(h) && p in Live(h)
    ensures var h' := Freed(h, p);
      if h.dv == 0 then h'.dv == 0
      else if Next(h, p) == h.top then h'.dv == if h.dv + h.dvsize == p then 0 else h.dv
      else if Next(h, p) == h.dv || h.dv + h.dvsize == p then
        h'.dv <= h.dv && h'.dv <= p && h.dv + h.dvsize <= h'.dv + h'.dvsize && Next(h, p) <= h'.dv + h'.dvsize
      else h'.dv == h.dv && h'.dvsize == h.dvsize
  {
    hide Apart, Segmented, Owned, Sound;
    RegionOf(h, p);
    PlacesOf(h);
    BackRole(h, p);
    ChunkAt(h, p);
    if h.dv != 0 {
      ChunkAt(h, h.dv);
      if h.dv + h.dvsize == p { assert Next(h, h.dv) == p; }
    }
    if h.top != 0 { ChunkAt(h, h.top); }
  }

  lemma FreedAt(h: Heap, p: nat)
    ensures Freed(h, p).at == h.at - Gone(h, p) && Freed(h, p).stops == h.stops && Freed(h, p).segs == h.segs
    ensures Freed(h, p).recs == h.recs
  {
  }

  // Sizes and bits of the other chunks.
  lemma FreedSizes(h: Heap, p: nat)
    requires Sound(h) && p in h.at && Cinuse(h, p)
    ensures var h' := Freed(h, p);
      && Next(h', Back(h, p)) == Forth(h, p) && !Cinuse(h', Back(h, p))
      && forall x :: x != Back(h, p) ==> Size(h', x) == Size(h, x) && (Cinuse(h', x) <==> Cinuse(h, x))
  {
    hide Sound, Back, Forth, Gone;
    RegionOf(h, p);
    BackRole(h, p);
  }

  lemma FreedApart(h: Heap, p: nat)
    requires Sound(h) && p in h.at && Cinuse(h, p)
    ensures Apart(Freed(h, p))
  {
    hide ChunkOK, Freed, Back, Forth, Gone, Places, Segmented;
    RegionOf(h, p);
    FreedSizes(h, p);
    FreedAt(h, p);
    RegionApart(h, p, Back(h, p), Next(h, p), Forth(h, p));
    GoneOnly(h, p);
  }

  lemma GoneOnly(h: Heap, p: nat)
    requires Sound(h) && p in h.at && Cinuse(h, p)
    ensures forall x :: x in h.at && x !in Gone(h, p) && x != Back(h, p) ==>
      x != p && (x == Next(h, p) ==> Forth(h, p) == Next(h, p))
  {
  }

  lemma FreedPlaces(h: Heap, p: nat)
    requires Sound(h) && p in h.at && Cinuse(h, p)
    ensures Places(Freed(h, p))
  {
    hide ChunkOK, Back, Forth, Apart, Segmented, Sound;
    RegionOf(h, p);
    BackRole(h, p);
    PlacesOf(h);
  }

  lemma FreedSegments(h: Heap, p: nat)
    requires Sound(h) && p in h.at && Cinuse(h, p) && p !in h.recs
    ensures Segmented(Freed(h, p))
  {
    hide ChunkOK, Back, Forth, Apart, Sound, Segmented, Freed;
    var h' := Freed(h, p);
    FreedAt(h, p);
    FreedTop(h, p);
    SegmentsOf(h);
    RegionOf(h, p);
    forall i | 0 <= i < |h.segs|
      ensures h.segs[i].base in h'.at
    {
      NotBase(h, p, i);
      NotBase(h, Back(h, p), i);
      BaseAt(h, i);
    }
    forall x | x in h.recs
      ensures x in h'.at && Cinuse(h', x)
    {
      RecordOf(h, x);
      FreedSizes(h, p);
    }
    FreedTopLast(h, p);
    SegmentedStays(h, h');
  }

  lemma FreedTopLast(h: Heap, p: nat)
    requires Sound(h) && p in h.at && Cinuse(h, p)
    ensures TopLast(Freed(h, p))
  {
    hide ChunkOK, Back, Forth, Apart, Sound;
    RegionOf(h, p);
    SegmentsOf(h);
    RegionApart(h, p, Back(h, p), Next(h, p), Forth(h, p));
    PlacesOf(h);
    TopAround(h, p);
  }

  lemma TopAround(h: Heap, p: nat)
    requires Sound(h) && p in h.at && Cinuse(h, p)
    ensures h.top != 0 && h.top in h.at && (Next(h, p) == h.top ==> Forth(h, p) != Next(h, p))
  {
    RegionOf(h, p);
    TopThere(h);
  }

  lemma BaseAt(h: Heap, i: nat)
    requires Segmented(h) && i < |h.segs|
    ensures h.segs[i].base in h.at
  {
  }

  lemma RecordOf(h: Heap, x: nat)
    requires Sound(h) && x in h.recs
    ensures x in h.at && Cinuse(h, x)
  {
  }

  lemma FreedTop(h: Heap, p: nat)
    requires Sound(h) && p in h.at && Cinuse(h, p)
    ensures var h' := Freed(h, p);
      && (h'.top == 0 <==> h.top == 0) && h'.top + h'.topsize == h.top + h.topsize
      && (h.top != 0 ==> h'.top >= h.segs[0].base)
  {
    hide Back, Forth, Apart, Gone, ChunkOK;
    RegionOf(h, p);
    PlacesOf(h);
    TopThere(h);
    if Next(h, p) == h.top { InTopSegment(h, p); }
  }

  // What lies before top without a gap is in its segment.
  lemma InTopSegment(h: Heap, p: nat)
    requires Sound(h) && p in h.at && Cinuse(h, p) && Next(h, p) == h.top && h.top in h.at
    ensures |h.segs| > 0 && h.segs[0].base <= Back(h, p)
  {
    hide Apart, Places, Back, Forth, ChunkOK;
    RegionOf(h, p);
    TopThere(h);
    var i :| 0 <= i < |h.segs| && h.segs[i].base <= Back(h, p) && Forth(h, p) + 8 <= h.segs[i].base + h.segs[i].size;
    SegmentsApart(h, 0, i);
  }

  lemma FreedLive(h: Heap, p: nat)
    requires Sound(h) && p in Live(h)
    ensures Live(Freed(h, p)) == Live(h) - {p}
  {
    hide ChunkOK, Freed, Back, Forth, Apart, Segmented, Places, Sound;
    RegionOf(h, p);
    FreedSizes(h, p);
    FreedAt(h, p);
  }
}
