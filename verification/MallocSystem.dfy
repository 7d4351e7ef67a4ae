/** Memory from the system: what sys_alloc asks for, and what it makes of the answers. */
module MallocSystem {
  import opened MallocSizes
  import opened MallocHeap
  import opened MallocGrow
  import opened MallocRequest
  import opened MallocChoice

  const HALF_MAX := 0x7FFF_FFFF

  /** What sbrk returns to the calls of sys_alloc, -1 being failure: the break, new memory, more of it,
      new memory on the second way, and the break after that. */
  datatype Answers = Answers(brk: int, br: int, more: int, again: int, end: int)

  // What is missing to the next page.
  function PageRest(base: nat): nat {
    if base % 256 == 0 then 0 else (base / 256 + 1) * 256 - base
  }

  // What the request needs, on words.
  function Wanted(nb: nat): nat {
    (nb + TOP_FOOT + 1) % WORD
  }

  // The size of the first request: the whole of it for a new heap, what top has not got for others.
  function FirstSize(h: Heap, nb: nat, a: Answers): nat {
    if h.top == 0 then (Granular(Wanted(nb)) + (if a.brk >= 0 then PageRest(a.brk) else 0)) % WORD
    else Asked(nb, h.topsize)
  }

  // Whether there is a first request.
  predicate AsksFirst(h: Heap, nb: nat, a: Answers) {
    (h.top == 0 ==> a.brk >= 0) && FirstSize(h, nb, a) < HALF_MAX
  }

  // Where contiguous memory would begin.
  function Expected(h: Heap, a: Answers): int {
    if h.top == 0 || h.segs == [] then a.brk else h.segs[0].base + h.segs[0].size
  }

  // The size of the request for the rest.
  function RestSize(h: Heap, nb: nat, a: Answers): nat {
    Granular((Wanted(nb) - FirstSize(h, nb, a)) % WORD)
  }

  // What came is not contiguous and not enough, but a bit more could be.
  predicate AsksMore(h: Heap, nb: nat, a: Answers) {
    && AsksFirst(h, nb, a) && a.br >= 0 && a.br != Expected(h, a)
    && FirstSize(h, nb, a) < Wanted(nb) && RestSize(h, nb, a) < HALF_MAX
  }

  /** What the contiguous way gives. */
  function FirstWay(h: Heap, nb: nat, a: Answers): Offer {
    if !AsksFirst(h, nb, a) || a.br < 0 then None
    else if AsksMore(h, nb, a) then
      if a.more < 0 then None else Some(Segment(a.br, (FirstSize(h, nb, a) + RestSize(h, nb, a)) % WORD))
    else Some(Segment(a.br, FirstSize(h, nb, a)))
  }

  /** What the other way gives: all up to the new break, if it is enough. */
  function SecondWay(nb: nat, a: Answers): Offer {
    if Granular(Wanted(nb)) < HALF_MAX && 0 <= a.again < a.end && a.end - a.again > (nb + TOP_FOOT) % WORD
    then Some(Segment(a.again, a.end - a.again)) else None
  }

  /** The memory sys_alloc gets. */
  function Acquired(h: Heap, nb: nat, contiguous: bool, a: Answers): Offer {
    if contiguous && FirstWay(h, nb, a).Some? then FirstWay(h, nb, a) else SecondWay(nb, a)
  }

  /** The system gives memory that nobody has, of the size asked for, on 8-byte boundaries. */
  ghost predicate Honest(h: Heap, nb: nat, contiguous: bool, a: Answers) {
    && (a.brk >= 0 ==> a.brk % 8 == 0)
    && (contiguous && AsksFirst(h, nb, a) && a.br >= 0 ==> Unused(h, a.br, FirstSize(h, nb, a)))
    && (contiguous && AsksMore(h, nb, a) && a.more >= 0 ==>
      && Unused(h, a.more, RestSize(h, nb, a))
      && (a.more + RestSize(h, nb, a) <= a.br || a.br + FirstSize(h, nb, a) <= a.more))
    && (Granular(Wanted(nb)) < HALF_MAX && a.again >= 0 && a.end >= 0 ==>
      a.again + Granular(Wanted(nb)) <= a.end && Unused(h, a.again, a.end - a.again))
  }

  // Address x is in memory the system has given, on the way that was taken.
  predicate Granted(h: Heap, nb: nat, contiguous: bool, a: Answers, x: nat) {
    if contiguous && FirstWay(h, nb, a).Some? then
      || a.br <= x < a.br + FirstSize(h, nb, a)
      || (AsksMore(h, nb, a) && a.more <= x < a.more + RestSize(h, nb, a))
    else a.again <= x < a.end
  }

  /** All that sys_alloc takes has been given to it. */
  ghost predicate Backed(h: Heap, nb: nat, contiguous: bool, a: Answers) {
    var o := Acquired(h, nb, contiguous, a);
    o.Some? ==> forall x: nat :: o.seg.base <= x < o.seg.base + o.seg.size ==> Granted(h, nb, contiguous, a, x)
  }

  // The second answer is not behind the first one: sys_alloc does not look where it begins.
  predicate Gapped(h: Heap, nb: nat, a: Answers) {
    AsksMore(h, nb, a) && a.more >= 0 && RestSize(h, nb, a) > 0 && a.more != a.br + FirstSize(h, nb, a)
  }

  // New memory that is not put behind top, but before another segment.
  ghost predicate InFront(h: Heap, g: Segment) {
    !(h.top != 0 && Behind(h, g)) && exists i: nat :: Continues(h, g, i)
  }

  /** The contiguous way takes too little. For a new heap, the rounding wraps around to 0 and what is left to the
      next page is no segment; for others, memory comes that is not behind top, and either the rounding has
      wrapped around, or the rest is too large to be asked for and the part begins to be used before a segment. */
  ghost predicate Misjudged(h: Heap, nb: nat, a: Answers) {
    && FirstWay(h, nb, a).Some?
    && if h.top == 0 then nb + TOP_FOOT + 1 + 256 >= WORD && PageRest(a.brk) <= TOP_FOOT
       else
         && a.br != Expected(h, a)
         && (nb - h.topsize + TOP_FOOT + 1 + 256 >= WORD
             || (FirstSize(h, nb, a) < Wanted(nb) && RestSize(h, nb, a) >= HALF_MAX
                 && InFront(h, Segment(a.br, FirstSize(h, nb, a)))))
  }

  /** What sys_alloc relies on: an honest system, no gap between two answers, and not too little from the
      contiguous way; a request that is too big must get nothing before another segment. */
  ghost predicate Supplied(h: Heap, nb: nat, contiguous: bool, a: Answers) {
    && Honest(h, nb, contiguous, a) && !(contiguous && Gapped(h, nb, a))
    && if nb == WORD - 1 then Acquired(h, nb, contiguous, a).None? || !InFront(h, Acquired(h, nb, contiguous, a).seg)
       else nb < WORD - 48 && !(contiguous && Misjudged(h, nb, a))
  }

  // ----- what comes of the sizes

  lemma Unwrapped(x: nat)
    requires x < WORD
    ensures x % WORD == x
  {
  }

  lemma Rounds(x: nat)
    requires x < WORD
    ensures if x + 256 < WORD then x < Granular(x) <= x + 256 && Granular(x) % 256 == 0 && Granular(x) + 256 <= WORD else Granular(x) == 0
  {
    if x + 256 < WORD {
      Unwrapped(x + 256);
    } else {
      assert (x + 256) % WORD == x + 256 - WORD;
    }
  }

  lemma PageRestBound(base: int)
    ensures base >= 0 ==> PageRest(base) < 256
  {
  }

  lemma NewSizes(h: Heap, nb: nat, a: Answers)
    requires h.top == 0 && nb < WORD - 48 && a.brk >= 0
    ensures var f, w := FirstSize(h, nb, a), nb + TOP_FOOT + 1;
      && Wanted(nb) == w
      && (w + 256 < WORD ==> f > w)
      && (w + 256 >= WORD ==> f == PageRest(a.brk) < 256 && (RestSize(h, nb, a) == 0 || RestSize(h, nb, a) >= HALF_MAX))
  {
    hide Granular, PageRest;
    var w := nb + TOP_FOOT + 1;
    Unwrapped(w);
    Rounds(w);
    PageRestBound(a.brk);
    Unwrapped(Granular(w) + PageRest(a.brk));
    if w + 256 >= WORD {
      Unwrapped(w - PageRest(a.brk));
      Rounds(w - PageRest(a.brk));
    }
  }

  lemma OldSizes(h: Heap, nb: nat, a: Answers)
    requires h.top != 0 && h.topsize <= nb < WORD - 48 && nb % 8 == 0
    ensures var f, r, w := FirstSize(h, nb, a), RestSize(h, nb, a), nb + TOP_FOOT + 1;
      && Wanted(nb) == w
      && (nb - h.topsize + TOP_FOOT + 1 + 256 >= WORD ==> f == 0 && r == 0)
      && (nb - h.topsize + TOP_FOOT + 1 + 256 < WORD ==> f >= 256)
      && (nb - h.topsize + TOP_FOOT + 1 + 256 < WORD && f < w ==>
            f + r > w && r <= w - f + 256)
  {
    hide Granular;
    var x, w := nb - h.topsize + TOP_FOOT + 1, nb + TOP_FOOT + 1;
    Unwrapped(x);
    Unwrapped(w);
    Rounds(x);
    Rounds(w);
    var f := Granular(x);
    if f < w {
      Unwrapped(w - f);
      Rounds(w - f);
    }
  }

  lemma TopOrNothing(h: Heap)
    requires Sound(h)
    ensures if h.top == 0 then h.topsize == 0 && h.segs == [] else h.segs != []
  {
    hide ChunkOK;
    PlacesOf(h);
    if h.top != 0 { TopThere(h); }
  }

  lemma SegmentsSized(h: Heap)
    requires Sound(h)
    ensures forall i :: 0 <= i < |h.segs| ==> h.segs[i].size > 0
  {
    hide ChunkOK, Apart, Places;
  }

  // Two pieces in a row are one piece.
  lemma JoinedUnused(h: Heap, base: nat, f: nat, r: nat)
    requires Unused(h, base, f) && Unused(h, base + f, r) && forall i :: 0 <= i < |h.segs| ==> h.segs[i].size > 0
    ensures Unused(h, base, f + r)
  {
    forall i | 0 <= i < |h.segs|
      ensures h.segs[i].base + h.segs[i].size <= base || base + f + r <= h.segs[i].base
    {
    }
  }

  // ----- what is acquired

  lemma NewHeapExactly(h: Heap, nb: nat, a: Answers)
    requires h.top == 0 && h.segs == [] && nb < WORD - 48 && Honest(h, nb, true, a) && FirstWay(h, nb, a).Some?
    ensures Offered(h, nb, FirstWay(h, nb, a)) <==> !Misjudged(h, nb, a)
  {
    hide Granular, PageRest, FirstSize, RestSize, Wanted;
    NewSizes(h, nb, a);
    var f, r := FirstSize(h, nb, a), RestSize(h, nb, a);
    if AsksMore(h, nb, a) {
      assert r == 0;
      Unwrapped(f);
    }
  }

  lemma OldHeapExactly(h: Heap, nb: nat, a: Answers)
    requires h.top != 0 && h.segs != [] && h.topsize <= nb < WORD - 48 && nb % 8 == 0
    requires Honest(h, nb, true, a) && FirstWay(h, nb, a).Some? && !Gapped(h, nb, a)
    requires forall i :: 0 <= i < |h.segs| ==> h.segs[i].size > 0
    ensures Offered(h, nb, FirstWay(h, nb, a)) <==> !Misjudged(h, nb, a)
  {
    hide Granular, PageRest, FirstSize, RestSize, Wanted;
    OldSizes(h, nb, a);
    var f, r := FirstSize(h, nb, a), RestSize(h, nb, a);
    if AsksMore(h, nb, a) {
      Unwrapped(f + r);
      if r > 0 { JoinedUnused(h, a.br, f, r); }
    }
  }

  lemma SecondWayEnough(h: Heap, nb: nat, contiguous: bool, a: Answers)
    requires Honest(h, nb, contiguous, a) && nb + TOP_FOOT < WORD
    ensures Offered(h, nb, SecondWay(nb, a))
  {
    hide Granular, PageRest, FirstSize, RestSize, Wanted;
    assert (nb + TOP_FOOT) % WORD == nb + TOP_FOOT;
  }

  /** With an honest system and no gap, what sys_alloc gets serves the request, whatever way it came, if and only
      if the contiguous way has not misjudged it. */
  lemma OfferedExactly(h: Heap, nb: nat, contiguous: bool, a: Answers)
    requires Sound(h) && Request(nb) && h.topsize <= nb < WORD - 48
    requires Honest(h, nb, contiguous, a) && !(contiguous && Gapped(h, nb, a))
    ensures Offered(h, nb, Acquired(h, nb, contiguous, a)) <==> !(contiguous && Misjudged(h, nb, a))
  {
    hide Sound, Honest, Offered, Gapped, Granular, PageRest, FirstSize, RestSize, Wanted;
    TopOrNothing(h);
    SegmentsSized(h);
    if contiguous && FirstWay(h, nb, a).Some? {
      if h.top == 0 { NewHeapExactly(h, nb, a); } else { OldHeapExactly(h, nb, a); }
    } else {
      SecondWayEnough(h, nb, contiguous, a);
    }
  }

  /** What sys_alloc takes has all been given to it if and only if there is no gap between two answers. */
  lemma BackedExactly(h: Heap, nb: nat, contiguous: bool, a: Answers)
    requires Honest(h, nb, contiguous, a)
    ensures Backed(h, nb, contiguous, a) <==> !(contiguous && Gapped(h, nb, a))
  {
    hide Granular, PageRest, FirstSize, RestSize, Wanted;
    var f, r := FirstSize(h, nb, a), RestSize(h, nb, a);
    if contiguous && AsksMore(h, nb, a) && a.more >= 0 {
      Unwrapped(f + r);
      if Gapped(h, nb, a) { assert !Granted(h, nb, contiguous, a, a.br + f); }
    }
  }

  /** `Supplied` is exactly what it takes. */
  lemma SuppliedExactly(h: Heap, nb: nat, contiguous: bool, a: Answers)
    requires Sound(h) && ((Request(nb) && nb < WORD - 48) || nb == WORD - 1) && h.topsize <= nb
    requires Honest(h, nb, contiguous, a)
    ensures Supplied(h, nb, contiguous, a) <==>
      Offered(h, nb, Acquired(h, nb, contiguous, a)) && Backed(h, nb, contiguous, a)
  {
    hide Sound, Honest, Acquired, Offered, InFront, Misjudged, Backed, Gapped;
    BackedExactly(h, nb, contiguous, a);
    if !(contiguous && Gapped(h, nb, a)) {
      if nb == WORD - 1 {
        NoneOffered(h, nb);
        if Acquired(h, nb, contiguous, a).Some? { TooBigOffered(h, contiguous, a); }
      } else {
        OfferedExactly(h, nb, contiguous, a);
      }
    }
  }

  /** Requests that stay away from 2^32 and a top below 2 GB: an honest system is enough. */
  lemma OrdinaryEnough(h: Heap, nb: nat, a: Answers)
    requires Sound(h) && Request(nb) && h.topsize <= nb
    requires nb + TOP_FOOT + 1 + 256 < WORD && h.topsize + 256 < HALF_MAX
    ensures !Misjudged(h, nb, a)
  {
    hide Sound, Granular, PageRest, FirstSize, RestSize, Wanted, InFront;
    if h.top != 0 {
      OldSizes(h, nb, a);
      if FirstSize(h, nb, a) < Wanted(nb) { RestBound(h, nb, a); }
    }
  }

  lemma RestBound(h: Heap, nb: nat, a: Answers)
    requires h.top != 0 && h.topsize <= nb && nb + TOP_FOOT + 1 + 256 < WORD
    requires FirstSize(h, nb, a) < Wanted(nb)
    ensures RestSize(h, nb, a) < h.topsize + 256
  {
    hide Granular;
    var x, w := nb - h.topsize + TOP_FOOT + 1, nb + TOP_FOOT + 1;
    Unwrapped(x);
    Unwrapped(w);
    Rounds(x);
    Unwrapped(w - Granular(x));
    Rounds(w - Granular(x));
  }

  lemma SuppliedHonest(h: Heap, nb: nat, contiguous: bool, a: Answers)
    requires Supplied(h, nb, contiguous, a)
    ensures Honest(h, nb, contiguous, a)
  {
    hide Honest, Gapped, Acquired, InFront, Misjudged;
  }

  lemma SuppliedOffered(h: Heap, nb: nat, contiguous: bool, a: Answers)
    requires Sound(h) && (Request(nb) || nb == WORD - 1) && h.topsize <= nb && Supplied(h, nb, contiguous, a)
    ensures Offered(h, nb, Acquired(h, nb, contiguous, a))
  {
    hide Sound, Honest, Acquired, Offered, InFront, Misjudged, Backed, Gapped;
    SuppliedExactly(h, nb, contiguous, a);
  }

  // ----- what is taken, on sizes that do not wrap around

  /** The least number of whole pages with more than x bytes. */
  function Pages(x: nat): (r: nat)
    ensures x < r <= x + 256 && r % 256 == 0
  {
    (x + 256) / 256 * 256
  }

  lemma PagesAre(x: nat)
    requires x + 256 < WORD
    ensures Granular(x) == Pages(x)
  {
    Unwrapped(x + 256);
  }

  /** The first request: for a new heap up to the end of a page; for others what top has not got. */
  function FirstAsked(h: Heap, nb: nat, a: Answers): nat {
    if h.top == 0 then Pages(nb + 41) + (256 - a.brk % 256) % 256
    else Pages(if h.topsize <= nb then nb - h.topsize + 41 else 41)
  }

  // Memory has come from the first call, it is not behind top and too little; the rest can be asked for.
  predicate MoreAsked(h: Heap, nb: nat, a: Answers) {
    && h.top != 0 && h.segs != [] && a.br != h.segs[0].base + h.segs[0].size
    && FirstAsked(h, nb, a) < nb + 41 && Pages(nb + 41 - FirstAsked(h, nb, a)) < HALF_MAX
  }

  /** The contiguous way has been tried and gave memory, and the rest where it was asked for. */
  predicate FirstGives(h: Heap, nb: nat, contiguous: bool, a: Answers) {
    && contiguous && (h.top == 0 ==> a.brk >= 0) && FirstAsked(h, nb, a) < HALF_MAX
    && a.br >= 0 && (MoreAsked(h, nb, a) ==> a.more >= 0)
  }

  /** The other way gives memory. */
  predicate AgainGives(nb: nat, a: Answers) {
    Pages(nb + 41) < HALF_MAX && 0 <= a.again < a.end
  }

  /** From an honest system sys_alloc takes what the contiguous way gives, from where the first call gave it on;
      only when that gives nothing, all that the other way gives; and nothing only when neither gives any. */
  lemma AcquiredExactly(h: Heap, nb: nat, contiguous: bool, a: Answers)
    requires Sound(h) && Request(nb) && h.topsize <= nb && nb + 552 < WORD && Honest(h, nb, contiguous, a)
    ensures Acquired(h, nb, contiguous, a) ==
      if FirstGives(h, nb, contiguous, a) then
        var f := FirstAsked(h, nb, a);
        Some(Segment(a.br, if MoreAsked(h, nb, a) then f + Pages(nb + 41 - f) else f))
      else if AgainGives(nb, a) then Some(Segment(a.again, a.end - a.again))
      else None
    ensures FirstWay(h, nb, a).Some? && contiguous <==> FirstGives(h, nb, contiguous, a)
  {
    hide Sound, Granular, Unused;
    TopOrNothing(h);
    var w := nb + 41;
    Unwrapped(w);
    PagesAre(w);
    Unwrapped(nb + TOP_FOOT);
    if h.top == 0 {
      if a.brk >= 0 {
        ToPage(a.brk);
        Unwrapped(Pages(w) + PageRest(a.brk));
      }
    } else {
      Unwrapped(nb - h.topsize + 41);
      PagesAre(nb - h.topsize + 41);
      var f := FirstAsked(h, nb, a);
      if f < w {
        Unwrapped(w - f);
        PagesAre(w - f);
        Unwrapped(f + Pages(w - f));
      }
    }
  }

  lemma ToPage(base: nat)
    ensures PageRest(base) == (256 - base % 256) % 256 < 256
  {
    assert base == base / 256 * 256 + base % 256;
  }

  // Address x belongs to the heap.
  predicate Held(h: Heap, x: int) {
    exists i :: 0 <= i < |h.segs| && h.segs[i].base <= x < h.segs[i].base + h.segs[i].size
  }

  // Where new memory ends up.
  lemma SegmentsTaken(h: Heap, h': Heap, nb: nat, g: Segment, mem: nat)
    requires Sound(h) && SystemAnswer(h, h', nb, Some(g), mem) && ((h.top != 0 && Behind(h, g)) || g.size > TOP_FOOT)
    ensures forall x: int :: g.base <= x < g.base + g.size ==> Held(h', x)
  {
    hide Sound;
    TopOrNothing(h);
    forall x: int | g.base <= x < g.base + g.size
      ensures Held(h', x)
    {
      if h.top != 0 && !Behind(h, g) && exists i: nat :: Continues(h, g, i) {
        var i: nat :| Continues(h, g, i) && Fronts(h, h', g, nb, i);
        FrontedSegments(h, g, nb, i);
        assert h'.segs[i].base <= x < h'.segs[i].base + h'.segs[i].size;
      } else {
        assert h'.segs == Extended(h, g).segs;
        assert h'.segs[0].base <= x < h'.segs[0].base + h'.segs[0].size;
      }
    }
  }

  lemma FrontedSegments(h: Heap, g: Segment, nb: nat, i: nat)
    requires i < |h.segs| && nb < g.size && g.base + g.size in h.heads
    ensures Fronted(h, g, nb, i).segs == h.segs[i := Segment(g.base, h.segs[i].size + g.size)]
  {
  }

  // The memory is enough.
  lemma TakenEnough(h: Heap, h': Heap, nb: nat, g: Segment, mem: nat)
    requires Sound(h) && SystemAnswer(h, h', nb, Some(g), mem) && h.topsize <= nb && h.topsize + g.size > nb + TOP_FOOT
    requires (h.top != 0 && Behind(h, g)) || g.size > nb + TOP_FOOT
    ensures mem != 0
  {
    hide Sound;
    TopOrNothing(h);
  }

  /** What comes of the system's answers: none only when neither way gives memory; all of what was given belongs to
      the heap then. */
  ghost predicate Supplies(h: Heap, h': Heap, nb: nat, contiguous: bool, a: Answers, mem: nat) {
    && (mem == 0 <==> !FirstGives(h, nb, contiguous, a) && !AgainGives(nb, a))
    && (FirstGives(h, nb, contiguous, a) ==>
      forall x: int :: a.br <= x < a.br + FirstAsked(h, nb, a) ==> Held(h', x))
    && (!FirstGives(h, nb, contiguous, a) && AgainGives(nb, a) ==>
      forall x: int :: a.again <= x < a.end ==> Held(h', x))
  }

  lemma SystemSupplies(h: Heap, h': Heap, nb: nat, contiguous: bool, a: Answers, mem: nat)
    requires Sound(h) && Request(nb) && h.topsize <= nb && nb + 552 < WORD && h.topsize + 256 < HALF_MAX
    requires Honest(h, nb, contiguous, a) && SystemAnswer(h, h', nb, Acquired(h, nb, contiguous, a), mem)
    ensures Supplies(h, h', nb, contiguous, a, mem)
  {
    hide Sound, SystemAnswer, Acquired, FirstGives, AgainGives, Honest;
    AcquiredExactly(h, nb, contiguous, a);
    if Acquired(h, nb, contiguous, a).Some? {
      var g := Acquired(h, nb, contiguous, a).seg;
      EnoughAsked(h, nb, contiguous, a);
      SegmentsTaken(h, h', nb, g, mem);
      TakenEnough(h, h', nb, g, mem);
    } else {
      NoneTaken(h, h', nb, mem);
    }
  }

  lemma NoneTaken(h: Heap, h': Heap, nb: nat, mem: nat)
    requires SystemAnswer(h, h', nb, None, mem)
    ensures mem == 0
  {
  }

  lemma EnoughAsked(h: Heap, nb: nat, contiguous: bool, a: Answers)
    requires Sound(h) && Request(nb) && h.topsize <= nb && nb + 552 < WORD && h.topsize + 256 < HALF_MAX
    requires Honest(h, nb, contiguous, a) && Acquired(h, nb, contiguous, a).Some?
    ensures var g := Acquired(h, nb, contiguous, a).seg;
      && h.topsize + g.size > nb + TOP_FOOT && ((h.top != 0 && Behind(h, g)) || g.size > nb + TOP_FOOT)
      && (FirstGives(h, nb, contiguous, a) ==> g.base == a.br && g.size >= FirstAsked(h, nb, a))
  {
    hide Sound;
    TopOrNothing(h);
    AcquiredExactly(h, nb, contiguous, a);
    var g := Acquired(h, nb, contiguous, a).seg;
    if FirstGives(h, nb, contiguous, a) {
    } else {
      Unwrapped(nb + TOP_FOOT);
    }
  }

  // ----- where it is not enough

  /** For a request that is too big, what sys_alloc gets from an honest system keeps the heap intact exactly
      when it is not put before another segment. */
  lemma TooBigOffered(h: Heap, contiguous: bool, a: Answers)
    requires Sound(h) && Honest(h, WORD - 1, contiguous, a) && Acquired(h, WORD - 1, contiguous, a).Some?
    requires !(contiguous && Gapped(h, WORD - 1, a))
    ensures var g := Acquired(h, WORD - 1, contiguous, a).seg;
      Offered(h, WORD - 1, Some(g)) <==> !InFront(h, g)
  {
    hide Sound, Granular, PageRest, FirstSize, RestSize, Wanted;
    TopOrNothing(h);
    TopBelow(h);
    BigWanted();
    BigSizes(h, a);
  }

  lemma BigSizes(h: Heap, a: Answers)
    requires h.topsize < WORD && (h.top == 0 ==> h.topsize == 0)
    ensures FirstSize(h, WORD - 1, a) == 0 || FirstSize(h, WORD - 1, a) > TOP_FOOT
    ensures FirstSize(h, WORD - 1, a) == 0 ==> h.top != 0 && RestSize(h, WORD - 1, a) == 256
  {
    hide Granular, PageRest;
    BigWanted();
    PageRestBound(a.brk);
    if h.top == 0 {
      assert FirstSize(h, WORD - 1, a) == 256 + if a.brk >= 0 then PageRest(a.brk) else 0;
    } else {
      GranularUnit((WORD - 1 - h.topsize + TOP_FOOT + 1) % WORD);
    }
  }

  lemma GranularUnit(x: nat)
    ensures Granular(x) == 0 || Granular(x) >= 256
  {
  }

  lemma BigWanted()
    ensures Granular(Wanted(WORD - 1)) == 256 && Wanted(WORD - 1) == TOP_FOOT
  {
    TooBigAsks();
  }

  /** The size of a request that is too big wraps around: 256 bytes before a segment are taken for enough. */
  lemma TooBigTaken(h: Heap, i: nat) returns (a: Answers, g: Segment)
    requires Sound(h) && i < |h.segs| && h.segs[i].base > 256 && Unused(h, h.segs[i].base - 256, 256)
    requires forall j :: 0 <= j < |h.segs| ==> h.segs[j].base + h.segs[j].size != h.segs[i].base - 256
    ensures Honest(h, WORD - 1, false, a) && Acquired(h, WORD - 1, false, a) == Some(g)
    ensures Fresh(h, g.base, g.size) && InFront(h, g) && !Offered(h, WORD - 1, Some(g))
  {
    hide Sound, Granular, PageRest, FirstSize, RestSize;
    var base := h.segs[i].base - 256;
    a := Answers(-1, -1, -1, base, base + 256);
    g := Segment(base, 256);
    TooBigAsks();
    assert Granular(Wanted(WORD - 1)) == 256 by { BigWanted(); }
    assert Continues(h, g, i);
  }

  lemma WrapsToNothing(nb: nat)
    requires nb < WORD - 48 && nb + TOP_FOOT + 1 + 256 >= WORD
    ensures Granular(Wanted(nb)) == 0 && Wanted(nb) == nb + TOP_FOOT + 1
  {
    var w := nb + TOP_FOOT + 1;
    assert w % WORD == w && (w + 256) % WORD == w + 256 - WORD;
  }

  /** The largest requests that are not too big wrap around in the rounding: a new heap gets nothing and takes
      it for a segment. */
  lemma RoundedAway(h: Heap, nb: nat, base: nat)
    requires Sound(h) && h.top == 0 && base % 256 == 0 && 0 < base < WORD && Request(nb) && nb < WORD - 48
    requires nb + TOP_FOOT + 1 + 256 >= WORD
    ensures var a := Answers(base, base, -1, -1, -1);
      && Honest(h, nb, true, a) && Acquired(h, nb, true, a) == Some(Segment(base, 0))
      && !Offered(h, nb, Some(Segment(base, 0)))
  {
    hide Sound, RestSize, FirstSize, Acquired, AsksMore, Granular, Wanted;
    TopOrNothing(h);
    PagePlace(base);
    NothingAsked(h, nb, base);
    NothingTaken(h, nb, base);
  }

  lemma PagePlace(base: nat)
    requires base % 256 == 0
    ensures base % 8 == 0
  {
    var q := base / 256;
    assert base == 8 * (32 * q);
  }

  lemma NothingAsked(h: Heap, nb: nat, base: nat)
    requires h.top == 0 && base % 256 == 0 && nb < WORD - 48 && nb + TOP_FOOT + 1 + 256 >= WORD
    ensures FirstSize(h, nb, Answers(base, base, -1, -1, -1)) == 0
  {
    hide Granular, Wanted;
    WrapsToNothing(nb);
  }

  lemma NothingTaken(h: Heap, nb: nat, base: nat)
    requires h.top == 0 && FirstSize(h, nb, Answers(base, base, -1, -1, -1)) == 0
    ensures Acquired(h, nb, true, Answers(base, base, -1, -1, -1)) == Some(Segment(base, 0))
    ensures !AsksMore(h, nb, Answers(base, base, -1, -1, -1))
  {
    hide FirstSize, RestSize, Wanted, Granular;
  }

  /** ... and so does another heap with hardly any top, when the break is not at its end. */
  lemma RoundedAwayAgain(h: Heap, nb: nat, base: nat)
    requires Sound(h) && h.top != 0 && Request(nb) && h.topsize <= nb < WORD - 48
    requires nb - h.topsize + TOP_FOOT + 1 + 256 >= WORD && Unused(h, base, 0)
    requires base != h.segs[0].base + h.segs[0].size
    ensures var a := Answers(-1, base, base, -1, -1);
      && Honest(h, nb, true, a) && Acquired(h, nb, true, a) == Some(Segment(base, 0))
      && !Offered(h, nb, Some(Segment(base, 0)))
  {
    hide Sound, Granular, FirstSize, RestSize, Wanted;
    TopOrNothing(h);
    OldSizes(h, nb, Answers(-1, base, base, -1, -1));
  }

  /** When the second answer is not behind the first one, both sizes are counted from the first one on: the
      segment holds an address that nobody has given. */
  lemma GapTaken(h: Heap, nb: nat, a: Answers)
    requires Honest(h, nb, true, a) && Gapped(h, nb, a)
    ensures var f, r := FirstSize(h, nb, a), RestSize(h, nb, a);
      && Acquired(h, nb, true, a) == Some(Segment(a.br, f + r)) && r > 0
      && !Granted(h, nb, true, a, a.br + f)
  {
    hide Granular, PageRest, FirstSize, RestSize, Wanted;
    Unwrapped(FirstSize(h, nb, a) + RestSize(h, nb, a));
  }

  /** With a top of 2 GB the rest is too large to be asked for: 256 bytes before another segment are taken for
      enough, although the request is larger than all of top. */
  lemma PartTaken(h: Heap, i: nat)
    requires Sound(h) && h.top != 0 && 0x8000_0000 <= h.topsize < 0xFFFF_0000 && i < |h.segs| && h.segs[i].base > 256
    requires Unused(h, h.segs[i].base - 256, 256)
    requires h.segs[0].base + h.segs[0].size != h.segs[i].base - 256
    ensures var nb, g := h.topsize + 8, Segment(h.segs[i].base - 256, 256);
      var a := Answers(-1, g.base, -1, -1, -1);
      Request(nb) && Honest(h, nb, true, a) && Acquired(h, nb, true, a) == Some(g) && !Offered(h, nb, Some(g))
  {
    hide Sound, FirstSize, RestSize, Wanted;
    var nb, g := h.topsize + 8, Segment(h.segs[i].base - 256, 256);
    var a := Answers(-1, g.base, -1, -1, -1);
    TopOrNothing(h);
    PartSizes(h, a);
    assert Continues(h, g, i);
  }

  lemma PartSizes(h: Heap, a: Answers)
    requires Sound(h) && h.top != 0 && 0x8000_0000 <= h.topsize < 0xFFFF_0000
    ensures FirstSize(h, h.topsize + 8, a) == 256 < Wanted(h.topsize + 8) && h.topsize % 8 == 0
    ensures RestSize(h, h.topsize + 8, a) >= HALF_MAX
  {
    hide Granular, Sound;
    TopBelow(h);
    var w := h.topsize + 8 + TOP_FOOT + 1;
    Unwrapped(w);
    GranularSmall();
    Unwrapped(w - 256);
    Rounds(w - 256);
    TopSized(h);
  }

  lemma GranularSmall()
    ensures Granular(8 + TOP_FOOT + 1) == 256 && (8 + TOP_FOOT + 1) % WORD == 8 + TOP_FOOT + 1
  {
  }

  lemma TopSized(h: Heap)
    requires Sound(h) && h.top != 0
    ensures h.topsize % 8 == 0
  {
    hide Apart, Segmented;
    TopThere(h);
    ChunkAt(h, h.top);
  }

  /** What malloc relies on: only when it has no room itself does it need the system. */
  ghost predicate Served(h: Heap, nb: nat, contiguous: bool, a: Answers) {
    Chosen(h, nb, 0) ==> Supplied(h, nb, contiguous, a)
  }

  lemma ServedOffered(h: Heap, nb: nat, contiguous: bool, a: Answers)
    requires Sound(h) && (Request(nb) || nb == WORD - 1) && Served(h, nb, contiguous, a)
    ensures Chosen(h, nb, 0) ==> Offered(h, nb, Acquired(h, nb, contiguous, a))
  {
    hide Sound, Chosen, Supplied, Acquired, Offered;
    if Chosen(h, nb, 0) {
      if Request(nb) { RoomFound(h, nb, 0); }
      TopBelow(h);
      SuppliedOffered(h, nb, contiguous, a);
    }
  }

  lemma NoneOffered(h: Heap, nb: nat)
    ensures Offered(h, nb, None)
  {
  }
}
