/** An open file as a value: a cursor over a chain of clusters, with one sector of it buffered. */
module FatCursor {
  import opened Words
  import opened FatChain
  import opened FatFs
  import opened FatImage

  const BIT32 := 0x1_0000_0000

  datatype State = State(
    // the volume: clusters of csize sectors from database on, the copies of the table from lo to hi
    csize: nat, database: nat, lo: nat, hi: nat,
    link: seq<int>, disk: map<nat, Sector>, winsect: nat, win: Sector,
    // the file, its clusters, and the sector in its buffer
    org: nat, chain: seq<int>, fsize: nat, dirty: bool, dsect: nat, buf: Sector,
    // the cursor, in cluster number cix of the file
    fptr: nat, csect: nat, curr: nat, cix: nat)

  function Ceil(b: nat): nat {
    (b + SS - 1) / SS
  }

  // Unsigned 32-bit subtraction.
  function Minus32(a: int, b: int): nat {
    (a - b) % BIT32
  }

  lemma Wrap(a: nat, b: nat, n: nat)
    requires a < BIT32 && b + n <= BIT32
    ensures Minus32(a, b) < n <==> b <= a < b + n
  {
  }

  ghost predicate NoOnes(l: seq<int>) {
    forall c :: InRange(l, c) ==> l[c] != 1
  }

  ghost predicate NoneLeft(l: seq<int>) {
    forall c :: InRange(l, c) ==> l[c] != 0
  }

  // The chain that begins with cluster org, or no cluster at all.
  ghost predicate Heads(l: seq<int>, org: int, chain: seq<int>) {
    && NoOnes(l)
    && (chain == [] <==> org == 0)
    && (chain != [] ==> IsChain(l, chain) && chain[0] == org)
  }

  // Sector w is not in cluster c.
  predicate Clear(c: int, w: nat, csize: nat, database: nat) {
    !(Base(c, csize, database) <= w < Base(c, csize, database) + csize)
  }

  // Sector w is not in a cluster of the chain or a free one.
  ghost predicate WindowApart(l: seq<int>, chain: seq<int>, w: nat, csize: nat, database: nat) {
    forall c :: InRange(l, c) && (l[c] == 0 || c in chain) ==> Clear(c, w, csize, database)
  }

  function Secs(s: State): seq<nat> {
    Sectors(s.chain, s.csize, s.database)
  }

  /** The disk with the buffer laid over it. */
  function Img(s: State): map<nat, Sector> {
    if s.dirty then s.disk[s.dsect := s.buf] else s.disk
  }

  ghost predicate Buffered(s: State) {
    && (s.dirty ==> s.dsect != 0)
    && (s.dsect != 0 ==> s.dsect in Secs(s) && s.buf == Stored(Img(s), s.dsect))
  }

  // Sectors of a cluster, as the volume's boot record may give them.
  predicate ClusterSize(n: nat) {
    n == 1 || n == 2 || n == 4 || n == 8 || n == 16 || n == 32 || n == 64 || n == 128
  }

  // The numbers of the sectors of all clusters are words.
  predicate DataFits(mc: nat, csize: nat, database: nat) {
    mc >= 2 && database + Times(mc - 2, csize) <= BIT32
  }

  predicate Geometric(s: State) {
    && ClusterSize(s.csize) && 1 <= s.lo <= s.hi <= s.database
    && DataFits(|s.link|, s.csize, s.database)
  }

  // What holds of the file wherever its cursor is.
  ghost predicate Sound(s: State) {
    && Geometric(s) && Heads(s.link, s.org, s.chain)
    && WindowApart(s.link, s.chain, s.winsect, s.csize, s.database) && Buffered(s)
  }

  /** The cursor is at the end of the last cluster, and no other cluster is left on the volume. */
  ghost predicate Exhausted(s: State) {
    NoneLeft(s.link) && s.fptr == SS * |Secs(s)|
  }

  // Clusters are only ever taken.
  lemma FullStays(s: State, t: State)
    requires Sound(t) && Harmless(s, t) && NoneLeft(s.link)
    ensures NoneLeft(t.link)
  {
    forall c | InRange(t.link, c)
      ensures t.link[c] != 0
    {
      if c in t.chain { LinkUsed(t.link, t.chain, c); }
    }
  }

  lemma LinkUsed(l: seq<int>, p: seq<int>, c: int)
    requires IsChain(l, p) && c in p
    ensures InRange(l, c) && l[c] != 0
  {
    var i :| 0 <= i < |p| && p[i] == c;
    if i + 1 < |p| { assert l[p[i]] == p[i + 1] && InRange(l, p[i + 1]); }
  }

  lemma StillExhausted(s: State, t: State)
    requires t == s.(fsize := t.fsize)
    ensures Exhausted(t) <==> Exhausted(s)
  {
  }

  lemma EmptyChain(s: State)
    requires Sound(s) && s.org == 0
    ensures s.chain == []
  {
  }

  // No cluster could be added behind the one of the cursor.
  lemma NoFurther(s: State, t: State)
    requires Sound(s) && Placed(s) && s.fptr % SS == 0 && s.csect >= s.csize && NoneLeft(t.link)
    requires t.chain == s.chain && t.fptr == s.fptr && t.csize == s.csize && t.database == s.database
    requires if s.fptr == 0 then t.chain == [] else s.cix + 1 == |s.chain|
    ensures Exhausted(t)
  {
    if s.fptr > 0 { AtEnd(s); }
  }

  // The cursor is where fptr says, at the end of what comes before it.
  ghost predicate Placed(s: State) {
    if s.fptr == 0 then s.csect >= s.csize
    else
      && 1 <= s.csect <= s.csize && s.cix < |s.chain| && s.curr == s.chain[s.cix]
      && Times(s.cix, s.csize) + s.csect == Ceil(s.fptr)
      && (s.fptr % SS != 0 ==> s.fptr / SS < |Secs(s)| && s.dsect == Secs(s)[s.fptr / SS] && s.dsect != 0)
  }

  // The cursor is on a sector boundary, before the next sector.
  ghost predicate Before(s: State) {
    && s.fptr % SS == 0 && s.csect < s.csize && s.cix < |s.chain| && s.curr == s.chain[s.cix]
    && Times(s.cix, s.csize) + s.csect == s.fptr / SS
  }

  // The sector of the cursor is the one in the buffer.
  ghost predicate Within(s: State) {
    && 1 <= s.csect <= s.csize && s.cix < |s.chain| && s.curr == s.chain[s.cix]
    && Times(s.cix, s.csize) + s.csect == s.fptr / SS + 1
    && s.fptr / SS < |Secs(s)| && s.dsect == Secs(s)[s.fptr / SS] && s.dsect != 0
  }

  /** An open file between requests. */
  ghost predicate Valid(s: State) {
    Sound(s) && Placed(s) && s.fptr <= s.fsize < BIT32 && s.fsize <= SS * |Secs(s)|
  }

  /** The bytes of the file. */
  function Content(s: State): (c: seq<Byte>)
    requires s.fsize <= SS * |Secs(s)|
    ensures |c| == s.fsize
  {
    ContentOf(Img(s), Secs(s), s.fsize)
  }

  // A file just opened.
  lemma AtStart(s: State)
    requires Geometric(s) && Heads(s.link, s.org, s.chain)
    requires WindowApart(s.link, s.chain, s.winsect, s.csize, s.database)
    requires !s.dirty && s.dsect == 0 && s.fptr == 0 && s.csect == 255
    requires s.fsize < BIT32 && s.fsize <= SS * Times(|s.chain|, s.csize)
    ensures Valid(s) && Content(s) == ContentOf(s.disk, Sectors(s.chain, s.csize, s.database), s.fsize)
  {
  }

  // The sector the cursor is before.
  function Sect(s: State): nat {
    Base(s.curr, s.csize, s.database) + s.csect
  }

  function View(s: State, x: nat): Sector {
    Overlaid(s.disk, s.winsect, s.win, x)
  }

  /** Nothing has changed for other files: the chain may have grown by free clusters, and sectors that
      are neither in the table nor in the chain look as before. */
  ghost predicate Harmless(s: State, t: State) {
    && t.lo == s.lo && t.hi == s.hi
    && Grown(s.link, s.chain, t.link, t.chain) && Secs(s) <= Secs(t)
    && forall x: nat :: x != 0 && !(s.lo <= x < s.hi) && x !in Secs(t) ==> View(t, x) == View(s, x)
  }

  lemma HarmlessTwice(s: State, t: State, u: State)
    requires Harmless(s, t) && Harmless(t, u)
    ensures Harmless(s, u)
  {
    GrownTwice(s.link, s.chain, t.link, t.chain, u.link, u.chain);
    forall x: nat | x != 0 && !(s.lo <= x < s.hi) && x !in Secs(u)
      ensures View(u, x) == View(s, x)
    {
      assert x !in Secs(t);
    }
  }

  /** ... and nothing for this one. */
  ghost predicate Quiet(s: State, t: State) {
    && t.csize == s.csize && t.database == s.database
    && t.link == s.link && t.org == s.org && t.chain == s.chain && t.fsize == s.fsize
    && SameOn(Img(s), Img(t), Secs(s)) && Harmless(s, t)
  }

  lemma QuietTwice(s: State, t: State, u: State)
    requires Quiet(s, t) && Quiet(t, u)
    ensures Quiet(s, u)
  {
    HarmlessTwice(s, t, u);
  }

  lemma QuietOnce(s: State, t: State)
    requires Sound(s)
    requires t == s.(fptr := t.fptr, csect := t.csect, curr := t.curr, cix := t.cix)
    ensures Quiet(s, t) && Sound(t)
  {
  }

  lemma QuietContent(s: State, t: State)
    requires Quiet(s, t) && s.fsize <= SS * |Secs(s)|
    ensures Content(t) == Content(s)
  {
    SameBytes(Img(s), Img(t), Secs(s), Secs(s), s.fsize);
  }

  // ----- the sectors of the file

  lemma InChain(s: State, q: nat)
    requires Geometric(s) && Heads(s.link, s.org, s.chain) && q < |Secs(s)|
    requires WindowApart(s.link, s.chain, s.winsect, s.csize, s.database)
    ensures s.database <= Secs(s)[q] < BIT32 && Secs(s)[q] != s.winsect
  {
    var c := SectorHome(s.link, s.chain, s.csize, s.database, q);
    assert Clear(c, s.winsect, s.csize, s.database);
  }

  lemma SecsDistinct(s: State)
    requires Heads(s.link, s.org, s.chain)
    ensures Distinct(Secs(s))
  {
    if s.chain != [] {
      assert forall i :: 0 <= i < |s.chain| ==> InRange(s.link, s.chain[i]);
      SectorsDistinct(s.chain, s.csize, s.database);
    }
  }

  lemma BufferedWhere(s: State)
    requires Sound(s)
    ensures s.dsect < BIT32
    ensures s.dsect != 0 ==> s.database <= s.dsect && s.dsect != s.winsect
  {
    if s.dsect != 0 {
      var q :| 0 <= q < |Secs(s)| && Secs(s)[q] == s.dsect;
      InChain(s, q);
    }
  }

  lemma HeadsOf(s: State)
    requires Sound(s)
    ensures Heads(s.link, s.org, s.chain)
  {
  }

  lemma CurrInUse(s: State)
    requires Sound(s) && s.cix < |s.chain| && s.curr == s.chain[s.cix]
    ensures InRange(s.link, s.curr) && Clear(s.curr, s.winsect, s.csize, s.database)
  {
    assert s.chain[s.cix] in s.chain;
  }

  // The sectors from the cursor to the end of its cluster are in a row.
  lemma Ahead(s: State)
    requires Sound(s) && Before(s)
    ensures s.fptr / SS + (s.csize - s.csect) <= |Secs(s)| && Secs(s)[s.fptr / SS] == Sect(s)
    ensures forall r :: s.fptr / SS <= r < s.fptr / SS + (s.csize - s.csect) ==>
      Secs(s)[r] == Sect(s) + (r - s.fptr / SS)
    ensures s.database <= Sect(s) && Sect(s) + (s.csize - s.csect) <= BIT32 && Sect(s) in Secs(s)
    ensures !(Sect(s) <= s.winsect < Sect(s) + (s.csize - s.csect))
  {
    RowAhead(s.chain, s.csize, s.database, s.cix, s.csect);
    CurrInUse(s);
    ClusterWhere(s.curr, |s.link|, s.csize, s.database);
    assert Secs(s)[s.fptr / SS] in Secs(s);
  }

  // ----- steps that only move the cursor

  // To the start of cluster i.
  lemma Entered(s: State, t: State, i: nat)
    requires Sound(s) && i < |s.chain| && s.fptr % SS == 0 && Times(i, s.csize) == s.fptr / SS
    requires t == s.(curr := t.curr, csect := 0, cix := i) && t.curr == s.chain[i]
    ensures Before(t) && Quiet(s, t) && Sound(t)
  {
  }

  lemma InSector(f: nat, n: nat)
    requires 0 < n && f % SS + n <= SS
    ensures Ceil(f + n) == f / SS + 1 && ((f + n) % SS != 0 ==> (f + n) / SS == f / SS)
  {
  }

  // By n bytes in the sector.
  lemma Advanced(s: State, t: State, n: nat)
    requires Sound(s) && Within(s) && 0 < n && s.fptr % SS + n <= SS && t == s.(fptr := s.fptr + n)
    ensures Placed(t) && Quiet(s, t) && Sound(t)
  {
    hide Ceil, Sectors;
    InSector(s.fptr, n);
  }

  // Over n sectors of the cluster.
  lemma PassedOver(s: State, t: State, n: nat)
    requires Sound(s) && Before(s) && 0 < n <= s.csize - s.csect
    requires t == s.(fptr := s.fptr + SS * n, csect := s.csect + n)
    ensures Placed(t) && Quiet(s, t) && Sound(t)
  {
  }

  lemma MidSector(s: State)
    requires Placed(s) && s.fptr % SS != 0
    ensures Within(s)
  {
  }

  // ----- steps that touch the disk

  // The buffer is written back.
  lemma Flushed(s: State, t: State)
    requires Sound(s) && s.dirty && t == s.(dirty := false, disk := t.disk)
    requires Carried(s.disk, t.disk, s.dsect, 1, s.buf, 0)
    ensures Sound(t) && Quiet(s, t)
  {
    assert forall x: nat :: Stored(t.disk, x) == if x == s.dsect then s.buf else Stored(s.disk, x) by {
      assert s.buf[0..SS] == s.buf;
    }
    assert forall x: nat :: Stored(Img(t), x) == Stored(Img(s), x);
  }

  // The table is read: the window moves.
  ghost predicate Touched(s: State, t: State) {
    && t == s.(link := t.link, disk := t.disk, winsect := t.winsect, win := t.win)
    && (t.winsect == s.winsect || s.lo <= t.winsect < s.hi)
    && forall x: nat :: x != 0 && !(s.lo <= x < s.hi) ==> View(t, x) == View(s, x)
  }

  // The file's sectors are in none of the places that accesses to the table touch.
  lemma TouchedSecs(s: State, t: State)
    requires Sound(s) && Touched(s, t)
    ensures SameOn(s.disk, t.disk, Secs(s)) && SameOn(Img(s), Img(t), Secs(s)) && Buffered(t)
  {
    forall q | 0 <= q < |Secs(s)|
      ensures Stored(t.disk, Secs(s)[q]) == Stored(s.disk, Secs(s)[q])
    {
      InChain(s, q);
      assert View(t, Secs(s)[q]) == View(s, Secs(s)[q]);
    }
    if s.dsect != 0 {
      var q :| 0 <= q < |Secs(s)| && Secs(s)[q] == s.dsect;
      assert Stored(t.disk, Secs(s)[q]) == Stored(s.disk, Secs(s)[q]);
    }
  }

  lemma WindowMoved(s: State, w: nat)
    requires Sound(s) && (w == s.winsect || w < s.database)
    ensures WindowApart(s.link, s.chain, w, s.csize, s.database)
  {
  }

  lemma Looked(s: State, t: State)
    requires Sound(s) && Touched(s, t) && t.link == s.link
    ensures Sound(t) && Quiet(s, t)
  {
    TouchedSecs(s, t);
    WindowMoved(s, t.winsect);
  }

  lemma StillBefore(s: State, t: State)
    requires Before(s) && t == s.(dirty := t.dirty, disk := t.disk)
    ensures Before(t)
  {
  }

  lemma AlreadyLoaded(s: State)
    requires Sound(s) && Before(s) && !s.dirty && s.dsect == Sect(s)
    ensures s.buf == Stored(s.disk, s.dsect)
  {
    Ahead(s);
  }

  // The sector of the cursor comes into a clean buffer.
  lemma Loaded(s: State, t: State)
    requires Sound(s) && Before(s) && !s.dirty
    requires t == s.(dsect := Sect(s), buf := Stored(s.disk, Sect(s)), csect := s.csect + 1)
    ensures Within(t) && Sound(t) && Quiet(s, t)
  {
    Ahead(s);
  }

  // ----- reading

  // Sectors straight from the disk, and the buffered one over them when it is dirty and among them.
  lemma GotRow(s: State, cc: nat, b: seq<Byte>, b': seq<Byte>, b'': seq<Byte>, at: nat)
    requires Sound(s) && Before(s) && 0 < cc <= s.csize - s.csect && Fetched(s.disk, Sect(s), cc, b, b', at)
    requires if s.dirty && Minus32(s.dsect, Sect(s)) < cc then s.dsect >= Sect(s) && Moved(s.buf, 0, b', b'', at + SS * (s.dsect - Sect(s)), SS) else b'' == b'
    ensures Got(Img(s), Secs(s), s.fptr, SS * cc, b, b'', at)
  {
    Ahead(s);
    BufferedWhere(s);
    Wrap(s.dsect, Sect(s), cc);
    if s.dirty {
      FetchedImage(s.disk, s.dsect, s.buf, Sect(s), cc, b, b', b'', at);
    }
    assert s.fptr == SS * (s.fptr / SS);
    GotDirect(Img(s), Secs(s), s.fptr / SS, cc, b, b'', at);
  }

  // The distance of the buffered sector from the first one read.
  lemma DirectPlace(s: State, cc: nat)
    requires Sound(s) && Before(s) && 0 < cc <= s.csize - s.csect && Minus32(s.dsect, Sect(s)) < cc
    ensures Sect(s) <= s.dsect < Sect(s) + cc
  {
    Ahead(s);
    BufferedWhere(s);
    Wrap(s.dsect, Sect(s), cc);
  }

  lemma GotPart(s: State, n: nat, b: seq<Byte>, b': seq<Byte>, at: nat)
    requires Sound(s) && Within(s) && s.fptr % SS + n <= SS
    requires Moved(s.buf, s.fptr % SS, b, b', at, n)
    ensures Got(Img(s), Secs(s), s.fptr, n, b, b', at)
  {
    PickedBytes(Img(s), Secs(s), s.fptr, s.buf, n, b, b', at);
  }

  // n bytes have been read at the cursor of s, and the cursor of t is behind them.
  ghost predicate ReadStep(s: State, t: State, n: nat, b: seq<Byte>, b': seq<Byte>, at: nat) {
    Quiet(s, t) && t.fptr == s.fptr + n && Got(Img(s), Secs(s), s.fptr, n, b, b', at)
  }

  lemma ReadLater(s: State, t: State, u: State, n: nat, b: seq<Byte>, b': seq<Byte>, at: nat)
    requires Quiet(s, t) && t.fptr == s.fptr && ReadStep(t, u, n, b, b', at)
    ensures ReadStep(s, u, n, b, b', at)
  {
    hide Sectors, Harmless;
    QuietTwice(s, t, u);
    forall i | at <= i < at + n
      ensures b'[i] == ByteAt(Img(s), Secs(s), s.fptr + (i - at))
    {
      var q := (s.fptr + (i - at)) / SS;
      assert Stored(Img(t), Secs(s)[q]) == Stored(Img(s), Secs(s)[q]);
    }
  }

  lemma ReadValid(s: State, u: State, n: nat, b: seq<Byte>, b': seq<Byte>, at: nat)
    requires Valid(s) && ReadStep(s, u, n, b, b', at) && Sound(u) && Placed(u) && n <= s.fsize - s.fptr
    ensures Valid(u)
  {
  }

  /** The n bytes from the cursor of s on have come to b, the cursor of t is behind them; the file is the same. */
  ghost predicate Delivered(s: State, t: State, n: nat, b: seq<Byte>, b': seq<Byte>) {
    && s.fsize <= SS * |Secs(s)| && Quiet(s, t) && Content(t) == Content(s) && t.fsize == s.fsize
    && t.fptr == s.fptr + n <= s.fsize && n <= |b|
    && b' == Content(s)[s.fptr..s.fptr + n] + b[n..]
  }

  lemma DeliveredNothing(s: State, b: seq<Byte>)
    requires Valid(s)
    ensures Delivered(s, s, 0, b, b)
  {
    assert Content(s)[s.fptr..s.fptr] == [] && b[0..] == b;
  }

  lemma DeliveredPlace(s: State, t: State, n: nat, b: seq<Byte>, b': seq<Byte>)
    requires Delivered(s, t, n, b, b')
    ensures t.fsize == s.fsize && t.fptr == s.fptr + n <= s.fsize && n <= |b|
  {
  }

  lemma ReadOn(s: State, t: State, u: State, n: nat, m: nat, b: seq<Byte>, b': seq<Byte>, b'': seq<Byte>)
    requires Delivered(s, t, n, b, b') && ReadStep(t, u, m, b', b'', n)
    requires s.fptr + n + m <= s.fsize && n + m <= |b|
    ensures Delivered(s, u, n + m, b, b'')
  {
    hide Got, Sectors, ContentOf, Harmless, SameOn, Img;
    QuietTwice(s, t, u);
    QuietContent(t, u);
    GotSome(Img(t), Secs(t), t.fptr, m, b', b'', n, t.fsize);
    GotMore(Content(s), s.fptr, n, m, b, b', b'');
  }
  // ----- stretching the chain

  /** Sectors may have been added to the file, its bytes are the same. */
  ghost predicate Kept(s: State, t: State) {
    && t.csize == s.csize && t.database == s.database && t.fsize == s.fsize
    && SameOn(Img(s), Img(t), Secs(s)) && Harmless(s, t)
  }

  lemma KeptTwice(s: State, t: State, u: State)
    requires Kept(s, t) && Kept(t, u)
    ensures Kept(s, u)
  {
    HarmlessTwice(s, t, u);
    forall q | 0 <= q < |Secs(s)|
      ensures Stored(Img(u), Secs(s)[q]) == Stored(Img(s), Secs(s)[q])
    {
      assert Secs(t)[q] == Secs(s)[q];
    }
  }

  lemma QuietKept(s: State, t: State)
    requires Quiet(s, t)
    ensures Kept(s, t)
  {
  }

  // What create_chain behind the cluster clst makes of the chain, r being what it returns.
  function Stretched(p: seq<int>, i: int, r: int): seq<int> {
    if r == 0 || i + 1 < |p| then p else p + [r]
  }

  // Behind cluster number i of the chain: the next one, or a free one, or none is left.
  lemma StretchChain(l: seq<int>, org: int, p: seq<int>, i: nat, scl: int, e: int, r: int, l': seq<int>)
    requires Heads(l, org, p) && i < |p| && e >= |l| && Created(l, p[i], scl, e, r, l')
    ensures Grown(l, p, l', Stretched(p, i, r)) && Heads(l', org, Stretched(p, i, r))
    ensures r == 0 ==> NoneLeft(l') && l' == l && i + 1 == |p|
    ensures r != 0 ==> i + 1 < |Stretched(p, i, r)| && r == Stretched(p, i, r)[i + 1]
  {
    assert p[i] in p;
    if i + 1 < |p| {
      assert l[p[i]] == p[i + 1] && InRange(l, p[i + 1]);
    } else {
      assert l[p[i]] >= |l|;
      if r != 0 { GrownByOne(l, p, r, e); }
    }
  }

  lemma StartChain(l: seq<int>, scl: int, e: int, r: int, l': seq<int>)
    requires Heads(l, 0, []) && e >= |l| && Created(l, 0, scl, e, r, l')
    ensures Grown(l, [], l', Stretched([], -1, r)) && Heads(l', r, Stretched([], -1, r))
    ensures r == 0 ==> NoneLeft(l') && l' == l
    ensures r != 0 ==> Stretched([], -1, r) == [r]
  {
    if r != 0 {
      GrownByOne(l, [], r, e);
      assert [] + [r] == [r];
    }
  }

  // The free clusters and those of the chain were free or in the chain before.
  lemma StillApart(s: State, t: State)
    requires Sound(s) && Grown(s.link, s.chain, t.link, t.chain) && t.csize == s.csize && t.database == s.database
    requires t.winsect == s.winsect || t.winsect < s.database
    requires forall c :: InRange(t.link, c) && t.link[c] == 0 ==> s.link[c] == 0 || c in s.chain
    ensures WindowApart(t.link, t.chain, t.winsect, t.csize, t.database)
  {
    forall c | InRange(t.link, c) && (t.link[c] == 0 || c in t.chain)
      ensures Clear(c, t.winsect, t.csize, t.database)
    {
      if c in t.chain && c !in s.chain {
        var i :| 0 <= i < |t.chain| && t.chain[i] == c;
        assert i >= |s.chain|;
      }
      assert InRange(s.link, c) && (s.link[c] == 0 || c in s.chain);
    }
  }

  lemma SecsGrown(chain: seq<int>, r: int, i: int, csize: nat, database: nat)
    ensures Sectors(chain, csize, database) <= Sectors(Stretched(chain, i, r), csize, database)
  {
    SectorsMore(chain, r, csize, database);
  }

  /** create_chain keeps the file and all the others. */
  lemma Lengthened(s: State, t: State, i: int, r: int)
    requires Sound(s) && Touched(s, t.(org := s.org, chain := s.chain))
    requires t.chain == Stretched(s.chain, i, r) && Heads(t.link, t.org, t.chain)
    requires Grown(s.link, s.chain, t.link, t.chain)
    requires forall c :: InRange(t.link, c) && t.link[c] == 0 ==> s.link[c] == 0 || c in s.chain
    ensures Sound(t) && Kept(s, t)
  {
    var m := t.(org := s.org, chain := s.chain);
    TouchedSecs(s, m);
    SecsGrown(s.chain, r, i, s.csize, s.database);
    assert forall x: nat :: View(t, x) == View(m, x);
    StillApart(s, t);
    assert Secs(s) <= Secs(t);
    if t.dsect != 0 {
      var q :| 0 <= q < |Secs(s)| && Secs(s)[q] == s.dsect;
      assert Secs(t)[q] == s.dsect;
    }
  }

  // ----- writing

  /** n bytes of d have been written from the cursor of s on, the rest of the file is as it was. */
  ghost predicate Writing(s: State, t: State, d: seq<Byte>, n: nat) {
    && s.fptr <= s.fsize <= SS * |Secs(s)| && t.csize == s.csize && t.database == s.database
    && Sound(t) && Harmless(s, t) && t.fsize == s.fsize && t.fptr == s.fptr + n
    && Written(Img(t), Secs(t), Content(s), s.fptr, d, n)
  }

  lemma WritingPlace(s: State, t: State, d: seq<Byte>, n: nat)
    requires Writing(s, t, d, n)
    ensures Sound(t) && t.fsize == s.fsize && t.fptr == s.fptr + n && n <= |d|
  {
  }

  lemma NothingWritten(s: State, d: seq<Byte>)
    requires Valid(s)
    ensures Writing(s, s, d, 0) && Placed(s) && s.fptr <= s.fsize < BIT32
  {
    NoneWritten(Img(s), Secs(s), s.fsize, s.fptr, d);
    QuietOnce(s, s);
  }

  lemma KeptWriting(s: State, t: State, u: State, d: seq<Byte>, n: nat)
    requires Writing(s, t, d, n) && Kept(t, u) && Sound(u) && u.fptr == t.fptr
    ensures Writing(s, u, d, n)
  {
    HarmlessTwice(s, t, u);
    WrittenElsewhere(Img(t), Img(u), Secs(t), Secs(u), Content(s), s.fptr, d, n);
  }

  // The buffer takes part in a direct transfer that covers its sector.
  function Refilled(t: State, cc: nat, d: seq<Byte>, n: nat): Sector
    requires n + SS * cc <= |d|
  {
    if Sect(t) <= t.dsect < Sect(t) + cc then d[n + SS * (t.dsect - Sect(t))..n + SS * (t.dsect - Sect(t)) + SS] else t.buf
  }

  lemma DirectWriting(s: State, t: State, u: State, d: seq<Byte>, n: nat, cc: nat)
    requires Writing(s, t, d, n) && Before(t) && !t.dirty && 0 < cc <= t.csize - t.csect && n + SS * cc <= |d|
    requires Carried(t.disk, u.disk, Sect(t), cc, d, n)
    requires u == t.(disk := u.disk, buf := Refilled(t, cc, d, n), csect := t.csect + cc, fptr := t.fptr + SS * cc)
    ensures Writing(s, u, d, n + SS * cc) && Placed(u)
  {
    Ahead(t);
    SecsDistinct(t);
    assert t.fptr == SS * (t.fptr / SS);
    WrittenDirect(t.disk, u.disk, Secs(t), Content(s), s.fptr, d, n, t.fptr / SS, cc);
    DirectHarmless(t, u, d, n, cc);
    HarmlessTwice(s, t, u);
  }

  lemma Replaced(d: seq<Byte>, o: nat, b: seq<Byte>, b': seq<Byte>)
    requires Moved(d, o, b, b', 0, SS) && |b| == SS
    ensures b' == d[o..o + SS]
  {
  }

  lemma DirectHarmless(t: State, u: State, d: seq<Byte>, n: nat, cc: nat)
    requires Sound(t) && Before(t) && !t.dirty && 0 < cc <= t.csize - t.csect && n + SS * cc <= |d|
    requires Carried(t.disk, u.disk, Sect(t), cc, d, n)
    requires u == t.(disk := u.disk, buf := Refilled(t, cc, d, n), csect := t.csect + cc, fptr := t.fptr + SS * cc)
    ensures Harmless(t, u) && Sound(u)
  {
    hide DataFits, Times;
    Ahead(t);
    QuietOnce(t, t);
    assert Secs(u) == Secs(t);
    forall x: nat | x != 0 && x !in Secs(t)
      ensures View(u, x) == View(t, x)
    {
      NotInRow(t, cc, x);
    }
    Refills(t, u, d, n, cc);
  }

  lemma NotInRow(t: State, cc: nat, x: nat)
    requires Sound(t) && Before(t) && cc <= t.csize - t.csect && x !in Secs(t)
    ensures !(Sect(t) <= x < Sect(t) + cc)
  {
    if Sect(t) <= x < Sect(t) + cc {
      InRowThere(t, cc, x);
      assert false;
    }
  }

  lemma InRowThere(t: State, cc: nat, x: nat)
    requires Sound(t) && Before(t) && cc <= t.csize - t.csect && Sect(t) <= x < Sect(t) + cc
    ensures x in Secs(t)
  {
    Ahead(t);
    assert Secs(t)[t.fptr / SS + (x - Sect(t))] == x;
  }

  lemma Refills(t: State, u: State, d: seq<Byte>, n: nat, cc: nat)
    requires Sound(t) && !t.dirty && n + SS * cc <= |d|
    requires Carried(t.disk, u.disk, Sect(t), cc, d, n)
    requires u == t.(disk := u.disk, buf := Refilled(t, cc, d, n), csect := u.csect, fptr := u.fptr)
    ensures Buffered(u)
  {
    hide Carried, Sectors, Stored, Base, Times;
    CarriedAt(t.disk, u.disk, Sect(t), cc, d, n, t.dsect);
  }

  lemma CarriedAt(d: map<nat, Sector>, d': map<nat, Sector>, s: nat, cc: nat, b: seq<Byte>, at: nat, t: nat)
    requires at + SS * cc <= |b| && Carried(d, d', s, cc, b, at)
    ensures Stored(d', t) == if s <= t < s + cc then b[at + SS * (t - s)..at + SS * (t - s) + SS] else Stored(d, t)
  {
  }

  // The cursor is in the buffered sector; behind the end of the file the buffer may hold anything.
  ghost predicate Fillable(t: State) {
    && Geometric(t) && Heads(t.link, t.org, t.chain)
    && WindowApart(t.link, t.chain, t.winsect, t.csize, t.database)
    && Within(t)
    && (t.buf == Stored(Img(t), t.dsect) || (!t.dirty && t.fptr % SS == 0 && t.fptr >= t.fsize))
  }

  // The sector of the cursor is made the buffered one, and read if any of it is in the file.
  lemma Primed(s: State, t: State, u: State, d: seq<Byte>, n: nat)
    requires Writing(s, t, d, n) && Before(t) && !t.dirty
    requires u == t.(dsect := Sect(t), csect := t.csect + 1, buf := u.buf)
    requires u.buf == if t.dsect != Sect(t) && t.fptr < t.fsize then Stored(t.disk, Sect(t)) else t.buf
    ensures Fillable(u) && u.disk == t.disk && u.fptr == t.fptr && Secs(u) == Secs(t) && !u.dirty
  {
    hide DataFits, Sectors, Heads, Harmless, Written, WindowApart;
    Ahead(t);
  }

  // t holds n bytes of d written, when its buffer is left aside.
  ghost predicate AlmostWriting(s: State, t: State, d: seq<Byte>, n: nat) {
    && s.fptr <= s.fsize <= SS * |Secs(s)| && t.csize == s.csize && t.database == s.database
    && Harmless(s, t) && t.fsize == s.fsize && t.fptr == s.fptr + n
    && Written(Img(t), Secs(t), Content(s), s.fptr, d, n)
  }

  lemma PutWriting(s: State, t: State, u: State, d: seq<Byte>, n: nat, cnt: nat)
    requires AlmostWriting(s, t, d, n) && Fillable(t) && 0 < cnt && t.fptr % SS + cnt <= SS && n + cnt <= |d|
    requires Moved(d, n, t.buf, u.buf, t.fptr % SS, cnt)
    requires u == t.(buf := u.buf, dirty := true, fptr := t.fptr + cnt)
    ensures Writing(s, u, d, n + cnt) && Placed(u)
  {
    hide Fillable, Sound, Placed, Harmless, Content, Written, Moved, Heads, Stored, Patched, Img;
    FillablePlace(t);
    SecsDistinct(t);
    PutPatched(t, u, d, n, cnt, Max(s.fsize, t.fptr) - SS * (t.fptr / SS));
    assert Secs(u) == Secs(t);
    WrittenPatch(Img(t), Img(u), Secs(t), Content(s), s.fptr, d, n, cnt);
    HarmlessSelf(t, u);
    HarmlessTwice(s, t, u);
    PutSound(t, u, cnt);
  }

  lemma FillablePlace(t: State)
    requires Fillable(t)
    ensures Heads(t.link, t.org, t.chain) && t.fptr / SS < |Secs(t)|
  {
  }

  lemma PutSound(t: State, u: State, cnt: nat)
    requires Fillable(t) && 0 < cnt && t.fptr % SS + cnt <= SS
    requires u == t.(buf := u.buf, dirty := true, fptr := t.fptr + cnt)
    ensures Sound(u) && Placed(u)
  {
    hide Sectors, Ceil;
    InSector(t.fptr, cnt);
    assert Secs(t)[t.fptr / SS] in Secs(u);
  }

  lemma PutPatched(t: State, u: State, d: seq<Byte>, n: nat, cnt: nat, kept: int)
    requires Fillable(t) && t.fptr % SS + cnt <= SS && n + cnt <= |d|
    requires Moved(d, n, t.buf, u.buf, t.fptr % SS, cnt)
    requires u == t.(buf := u.buf, dirty := true, fptr := t.fptr + cnt)
    requires t.fptr % SS == 0 && t.fptr >= t.fsize ==> kept <= 0
    ensures Patched(Img(t), Img(u), Secs(t)[t.fptr / SS], t.fptr % SS, d, n, cnt, kept)
  {
    assert Stored(Img(u), t.dsect) == u.buf;
  }

  lemma HarmlessSelf(t: State, u: State)
    requires Heads(t.link, t.org, t.chain)
    requires u == t.(buf := u.buf, dirty := u.dirty, dsect := u.dsect, csect := u.csect, fptr := u.fptr)
    ensures Harmless(t, u)
  {
  }

  /** What f_write does: the bytes written replace those from the cursor on, or come behind them. */
  ghost predicate Wrote(s: State, t: State, d: seq<Byte>, n: nat) {
    && n <= |d| && s.fptr <= s.fsize <= SS * |Secs(s)| && t.fsize <= SS * |Secs(t)|
    && t.fptr == s.fptr + n && t.fsize == Max(s.fsize, t.fptr) && Harmless(s, t)
    && Content(t) == Spliced(Content(s), s.fptr, d[..n])
  }

  // Only the size is another one.
  lemma SizeOnly(s: State, t: State, u: State)
    requires u == t.(fsize := u.fsize)
    ensures Sound(u) == Sound(t) && Placed(u) == Placed(t) && Harmless(s, u) == Harmless(s, t)
    ensures Secs(u) == Secs(t) && Img(u) == Img(t)
  {
    hide Sectors, DataFits, Ceil;
  }

  lemma WriteDone(s: State, t: State, u: State, d: seq<Byte>, n: nat)
    requires Writing(s, t, d, n) && Placed(t) && t.fptr < BIT32 && s.fsize < BIT32
    requires u == t.(fsize := Max(t.fsize, t.fptr))
    ensures Valid(u) && Wrote(s, u, d, n)
  {
    hide Sound, Placed, Harmless, Secs, Img, ContentOf;
    SizeOnly(s, t, u);
    WrittenBytes(Img(t), Secs(t), Content(s), s.fptr, d, n);
  }

  // At the end of a cluster, on a sector boundary.
  lemma AtEnd(s: State)
    requires Sound(s) && Placed(s) && s.fptr % SS == 0 && s.csect >= s.csize && s.fptr > 0
    ensures s.cix < |s.chain| && s.curr == s.chain[s.cix] && Times(s.cix + 1, s.csize) == s.fptr / SS
  {
  }

  lemma NotAtEnd(s: State)
    requires Sound(s) && Placed(s) && s.fptr % SS == 0 && s.csect < s.csize
    ensures Before(s)
  {
  }

  lemma StillPlaced(s: State, t: State)
    requires Placed(s) && Kept(s, t)
    requires t.chain == s.chain && t.fptr == s.fptr && t.csect == s.csect && t.cix == s.cix && t.curr == s.curr
    requires t.dsect == s.dsect
    ensures Placed(t)
  {
  }

  lemma FirstCluster(s: State)
    requires Sound(s) && s.org != 0
    ensures |s.chain| > 0 && s.chain[0] == s.org
  {
  }

  lemma WritingAlmost(s: State, t: State, d: seq<Byte>, n: nat)
    requires Writing(s, t, d, n)
    ensures AlmostWriting(s, t, d, n)
  {
  }

  lemma WithinFillable(t: State)
    requires Sound(t) && Within(t)
    ensures Fillable(t)
  {
  }

  lemma PrimedWriting(s: State, t: State, u: State, d: seq<Byte>, n: nat)
    requires Writing(s, t, d, n) && Before(t) && !t.dirty
    requires u == t.(dsect := Sect(t), csect := t.csect + 1, buf := u.buf)
    requires u.buf == if t.dsect != Sect(t) && t.fptr < t.fsize then Stored(t.disk, Sect(t)) else t.buf
    ensures Fillable(u) && AlmostWriting(s, u, d, n)
  {
    Primed(s, t, u, d, n);
    HarmlessSelf(t, u);
    HarmlessTwice(s, t, u);
    assert Img(u) == Img(t);
  }
  // ----- seeking

  // The cursor is at the start of its cluster.
  ghost predicate AtCluster(t: State) {
    t.cix < |t.chain| && t.curr == t.chain[t.cix] && t.fptr == SS * Times(t.cix, t.csize)
  }

  lemma {:induction false} TimesScale(n: nat, k: nat)
    ensures Times(n, SS * k) == SS * Times(n, k)
  {
    if n > 0 { TimesScale(n - 1, k); }
  }

  /** The mask ~(bcs - 1) rounds down to a whole cluster. */
  lemma MaskRounds(x: nat, csize: nat)
    requires ClusterSize(csize) && x < BIT32
    ensures SS * csize <= BIT32 && BitAnd(x, BIT32 - SS * csize) == x - x % (SS * csize)
  {
    var k := if csize == 1 then 9 else if csize == 2 then 10 else if csize == 4 then 11 else if csize == 8 then 12
      else if csize == 16 then 13 else if csize == 32 then 14 else if csize == 64 then 15 else 16;
    Pow2Values();
    MaskBits(x, k, 32);
  }

  /** Rounding the position before the cursor down to a cluster leads to the start of the cluster it is in. */
  lemma RoundedDown(s: State, ofs: nat)
    requires Sound(s) && Placed(s) && s.fptr > 0
    requires (ofs - 1) / (SS * s.csize) >= (s.fptr - 1) / (SS * s.csize) && ofs > 0
    ensures s.fptr - 1 - (s.fptr - 1) % (SS * s.csize) == SS * Times(s.cix, s.csize) < ofs
  {
    var b := SS * s.csize;
    TimesScale(s.cix, s.csize);
    DivTimes(s.fptr - 1, s.cix, b, s.fptr - 1 - SS * Times(s.cix, s.csize));
    var d, m := (ofs - 1) / b, (ofs - 1) % b;
    TimesProduct(d, b);
    assert ofs - 1 == d * b + m;
    if s.cix < d { TimesLess(s.cix, d, b); }
  }

  lemma OneCluster(t: State)
    requires AtCluster(t)
    ensures SS * Times(t.cix + 1, t.csize) == t.fptr + SS * t.csize
  {
  }

  // There is a next cluster before the end of what the file holds.
  lemma NextThere(t: State, ofs: nat)
    requires Sound(t) && AtCluster(t) && SS * t.csize < ofs && t.fptr + ofs <= SS * |Secs(t)|
    ensures t.cix + 1 < |t.chain| && t.link[t.curr] == t.chain[t.cix + 1]
  {
    OneCluster(t);
    NotLast(t.link, t.chain, t.csize, t.cix, t.fptr + SS * t.csize);
  }

  lemma CursorKept(s: State, t: State, u: State)
    requires Kept(s, t) && Sound(t)
    requires u == t.(fptr := u.fptr, csect := u.csect, curr := u.curr, cix := u.cix)
    ensures Kept(s, u) && Sound(u)
  {
    QuietOnce(t, u);
    QuietKept(t, u);
    KeptTwice(s, t, u);
  }

  // The cursor is in place but for the buffer.
  ghost predicate Aimed(t: State) {
    && t.fptr > 0 && 1 <= t.csect <= t.csize && t.cix < |t.chain| && t.curr == t.chain[t.cix]
    && Times(t.cix, t.csize) + t.csect == Ceil(t.fptr)
  }

  lemma Aims(t: State, u: State, ofs: nat)
    requires AtCluster(t) && 0 < ofs <= SS * t.csize
    requires u == t.(fptr := t.fptr + ofs, csect := ofs / SS + if ofs % SS != 0 then 1 else 0)
    ensures Aimed(u)
  {
  }

  lemma AimedSector(t: State)
    requires Sound(t) && Aimed(t) && t.fptr % SS != 0
    ensures t.fptr / SS < |Secs(t)| && Secs(t)[t.fptr / SS] == Base(t.curr, t.csize, t.database) + t.csect - 1
    ensures Secs(t)[t.fptr / SS] in Secs(t) && Secs(t)[t.fptr / SS] >= t.database
  {
    SectorsAt(t.chain, t.csize, t.database, t.cix, t.csect - 1);
    InChain(t, t.fptr / SS);
  }

  lemma AimedBytes(t: State)
    requires Sound(t) && Aimed(t)
    ensures t.fptr <= SS * |Secs(t)|
  {
    TimesLess(t.cix, |t.chain|, t.csize);
  }

  // The buffered sector is the one of the cursor.
  lemma AimedPlaced(t: State)
    requires Sound(t) && Aimed(t)
    requires t.fptr % SS != 0 ==> t.dsect == Base(t.curr, t.csize, t.database) + t.csect - 1
    ensures Placed(t)
  {
    if t.fptr % SS != 0 { AimedSector(t); }
  }

  lemma Fetches(t: State, u: State, n: nat)
    requires Sound(t) && !t.dirty && n in Secs(t) && u == t.(dsect := n, buf := Stored(t.disk, n))
    ensures Sound(u) && Quiet(t, u)
  {
    QuietOnce(t, t);
  }

  /** What f_lseek does: the cursor goes to the place asked for, or as far as it gets; a file that is
      being written grows to there, and what it held it still holds. */
  ghost predicate Sought(s: State, t: State, place: nat, writable: bool) {
    && s.fsize <= SS * |Secs(s)| && t.fsize <= SS * |Secs(t)| && Harmless(s, t)
    && s.fsize <= t.fsize && Content(t)[..s.fsize] == Content(s)
    && t.fptr <= place
    && (place <= s.fsize ==> t.fptr == place && t.fsize == s.fsize)
    && (!writable ==> t.fptr == Min(place, s.fsize) && t.fsize == s.fsize)
    && (t.fsize == Max(s.fsize, t.fptr))
    && (writable && t.fptr < place ==> Exhausted(t))
  }

  lemma {:induction false} Longer(img: map<nat, Sector>, secs: seq<nat>, n: nat, m: nat)
    requires n <= m <= SS * |secs|
    ensures ContentOf(img, secs, m)[..n] == ContentOf(img, secs, n)
  {
  }

  // The cursor is at the start and needs no sector.
  lemma StartPlaced(t: State)
    requires Sound(t) && t.fptr == 0 && t.csect == 255
    ensures Placed(t)
  {
  }

  lemma NoClusters(s: State)
    requires Valid(s) && s.org == 0
    ensures s.fsize == 0 && s.chain == []
  {
  }

  // The last cluster of the chain ends where all it holds ends.
  lemma LastCluster(t: State)
    requires AtCluster(t) && t.cix + 1 == |t.chain|
    ensures t.fptr + SS * t.csize == SS * |Secs(t)|
  {
    OneCluster(t);
  }

  lemma NoSectors(t: State)
    requires t.chain == [] && t.fptr == 0 && NoneLeft(t.link)
    ensures Exhausted(t)
  {
  }

  lemma KeptSize(s: State, t: State)
    requires Kept(s, t)
    ensures t.fsize == s.fsize && t.csize == s.csize && |Secs(s)| <= |Secs(t)|
  {
  }

  lemma SeekDone(s: State, t: State, u: State, place: nat, writable: bool)
    requires Valid(s) && Kept(s, t) && Sound(t) && Placed(t) && t.fptr <= place < BIT32
    requires t.fptr <= SS * |Secs(t)| && u == t.(fsize := Max(t.fsize, t.fptr))
    requires place <= s.fsize ==> t.fptr == place
    requires !writable ==> t.fptr == Min(place, s.fsize)
    requires writable && t.fptr < place ==> Exhausted(t)
    ensures Valid(u) && Sought(s, u, place, writable)
  {
    hide Sound, Placed, Img, ContentOf, Sectors, View;
    SizeOnly(s, t, u);
    SameBytes(Img(s), Img(t), Secs(s), Secs(t), s.fsize);
    Longer(Img(u), Secs(u), s.fsize, u.fsize);
  }

  lemma ValidParts(s: State)
    requires Valid(s)
    ensures Sound(s) && Placed(s) && s.fptr <= s.fsize < BIT32 && s.fsize <= SS * |Secs(s)|
    ensures Geometric(s)
  {
  }

  lemma PlacedIn(s: State)
    requires Placed(s) && s.fptr > 0
    ensures s.cix < |s.chain| && s.curr == s.chain[s.cix]
  {
  }
  lemma AtClusterUsed(t: State)
    requires Sound(t) && AtCluster(t)
    ensures InRange(t.link, t.curr)
  {
    CurrInUse(t);
  }

  lemma AtClusterIn(t: State)
    requires AtCluster(t)
    ensures t.cix < |t.chain| && t.curr == t.chain[t.cix] && t.fptr % SS == 0
  {
  }

  lemma StillAtCluster(t: State, u: State)
    requires AtCluster(t) && u.chain == t.chain && u.csize == t.csize && u.fptr == t.fptr && u.cix == t.cix
    requires u.curr == t.curr
    ensures AtCluster(u)
  {
  }

  lemma AtNext(t: State, u: State)
    requires AtCluster(t) && u.csize == t.csize && u.cix == t.cix + 1 < |u.chain| && u.curr == u.chain[u.cix]
    requires u.fptr == t.fptr + SS * t.csize
    ensures AtCluster(u)
  {
    OneCluster(t);
  }

  lemma StillAimed(t: State, u: State)
    requires u.csize == t.csize && u.chain == t.chain && u.fptr == t.fptr && u.csect == t.csect && u.cix == t.cix
    requires u.curr == t.curr
    ensures Aimed(u) == Aimed(t)
  {
  }
}
