/** The bytes of a file: the sectors of a chain of clusters, and how steps of a transfer change them. */
module FatImage {
  import opened Words
  import opened FatChain
  import opened FatFs

  // ----- the sectors of a chain

  // clust2sect
  function Base(c: int, csize: nat, database: nat): nat {
    if c < 2 then 0 else Times(c - 2, csize) + database
  }

  function InRow(s: nat, n: nat): (q: seq<nat>)
    ensures |q| == n && forall j :: 0 <= j < n ==> q[j] == s + j
  {
    if n == 0 then [] else InRow(s, n - 1) + [s + n - 1]
  }

  function Sectors(chain: seq<int>, csize: nat, database: nat): (q: seq<nat>)
    ensures |q| == Times(|chain|, csize)
    decreases |chain|
  {
    if chain == [] then []
    else
      var n := |chain| - 1;
      Sectors(chain[..n], csize, database) + InRow(Base(chain[n], csize, database), csize)
  }

  lemma {:induction false} SectorsAt(chain: seq<int>, csize: nat, database: nat, i: nat, j: nat)
    requires i < |chain| && j < csize
    ensures Times(i, csize) + j < Times(|chain|, csize)
    ensures Sectors(chain, csize, database)[Times(i, csize) + j] == Base(chain[i], csize, database) + j
    decreases |chain|
  {
    var n := |chain| - 1;
    TimesLess(i, |chain|, csize);
    if i < n {
      SectorsAt(chain[..n], csize, database, i, j);
    }
  }

  // Every sector of the chain is in some cluster of it.
  lemma {:induction false} SectorsIn(chain: seq<int>, csize: nat, database: nat, q: nat) returns (i: nat, j: nat)
    requires q < Times(|chain|, csize)
    ensures i < |chain| && j < csize && q == Times(i, csize) + j
    ensures Sectors(chain, csize, database)[q] == Base(chain[i], csize, database) + j
    decreases |chain|
  {
    var n := |chain| - 1;
    if q < Times(n, csize) {
      i, j := SectorsIn(chain[..n], csize, database, q);
    } else {
      i, j := n, q - Times(n, csize);
    }
  }

  /** No sector is in a chain of different clusters twice. */
  lemma SectorsDistinct(chain: seq<int>, csize: nat, database: nat)
    requires Distinct(chain) && forall i :: 0 <= i < |chain| ==> chain[i] >= 2
    ensures Distinct(Sectors(chain, csize, database))
  {
    var s := Sectors(chain, csize, database);
    forall p, q | 0 <= p < q < |s|
      ensures s[p] != s[q]
    {
      var i, j := SectorsIn(chain, csize, database, p);
      var i', j' := SectorsIn(chain, csize, database, q);
      if s[p] == s[q] {
        TimesUnique(chain[i] - 2, chain[i'] - 2, csize, j, j');
        assert false;
      }
    }
  }

  lemma ClusterWhere(c: int, mc: nat, csize: nat, database: nat)
    requires 2 <= c < mc
    ensures database <= Base(c, csize, database)
    ensures Base(c, csize, database) + csize <= database + Times(mc - 2, csize)
  {
    TimesLess(c - 2, mc - 2, csize);
  }

  // The cluster that sector q of the chain is in.
  lemma SectorHome(l: seq<int>, chain: seq<int>, csize: nat, database: nat, q: nat) returns (c: int)
    requires chain != [] ==> IsChain(l, chain)
    requires q < |Sectors(chain, csize, database)|
    ensures c in chain && InRange(l, c)
    ensures Base(c, csize, database) <= Sectors(chain, csize, database)[q] < Base(c, csize, database) + csize
    ensures |l| >= 2 && database <= Sectors(chain, csize, database)[q] < database + Times(|l| - 2, csize)
  {
    var i, j := SectorsIn(chain, csize, database, q);
    c := chain[i];
    ClusterWhere(c, |l|, csize, database);
  }

  lemma InCluster(c: int, csize: nat, database: nat)
    requires c >= 2
    ensures Base(c, csize, database) == database + (c - 2) * csize
  {
    TimesProduct(c - 2, csize);
  }

  /** Where sector q of a chain is on the disk: clusters are numbered from 2 on, and lie one behind the other. */
  lemma SectorPlace(chain: seq<int>, csize: nat, database: nat, q: nat)
    requires csize > 0 && (forall i :: 0 <= i < |chain| ==> chain[i] >= 2) && q < |Sectors(chain, csize, database)|
    ensures q / csize < |chain|
    ensures Sectors(chain, csize, database)[q] == database + (chain[q / csize] - 2) * csize + q % csize
  {
    var i, j := SectorsIn(chain, csize, database, q);
    DivTimes(q, i, csize, j);
    TimesProduct(chain[i] - 2, csize);
  }

  // The sectors from place j of cluster i to its end are in a row.
  lemma RowAhead(chain: seq<int>, csize: nat, database: nat, i: nat, j: nat)
    requires i < |chain| && j < csize
    ensures Times(i, csize) + csize <= |Sectors(chain, csize, database)|
    ensures forall r :: Times(i, csize) + j <= r < Times(i, csize) + csize ==>
      Sectors(chain, csize, database)[r] == Base(chain[i], csize, database) + r - Times(i, csize)
  {
    TimesLess(i, |chain|, csize);
    forall r | Times(i, csize) + j <= r < Times(i, csize) + csize
      ensures Sectors(chain, csize, database)[r] == Base(chain[i], csize, database) + r - Times(i, csize)
    {
      SectorsAt(chain, csize, database, i, r - Times(i, csize));
    }
  }

  // A longer chain has the same sectors first.
  lemma SectorsMore(chain: seq<int>, c: int, csize: nat, database: nat)
    ensures Sectors(chain + [c], csize, database) == Sectors(chain, csize, database) + InRow(Base(c, csize, database), csize)
  {
    assert (chain + [c])[..|chain|] == chain;
  }

  // A cluster that ends before byte b of the chain is not the last one.
  lemma NotLast(l: seq<int>, chain: seq<int>, csize: nat, i: nat, b: nat)
    requires IsChain(l, chain) && i < |chain|
    requires b % SS == 0 && Times(i, csize) + csize == b / SS && b < SS * Times(|chain|, csize)
    ensures i + 1 < |chain| && l[chain[i]] == chain[i + 1] && Times(i + 1, csize) == b / SS
  {
    assert Times(i + 1, csize) == b / SS;
  }

  // ----- the bytes in them

  function ByteAt(img: map<nat, Sector>, secs: seq<nat>, b: nat): Byte
    requires b / SS < |secs|
  {
    Stored(img, secs[b / SS])[b % SS]
  }

  function ContentOf(img: map<nat, Sector>, secs: seq<nat>, n: nat): (c: seq<Byte>)
    requires n <= SS * |secs|
    ensures |c| == n && forall b :: 0 <= b < n ==> c[b] == ByteAt(img, secs, b)
  {
    if n == 0 then [] else ContentOf(img, secs, n - 1) + [ByteAt(img, secs, n - 1)]
  }

  // Both disks hold the same in the given sectors.
  ghost predicate SameOn(img: map<nat, Sector>, img': map<nat, Sector>, secs: seq<nat>) {
    forall q :: 0 <= q < |secs| ==> Stored(img', secs[q]) == Stored(img, secs[q])
  }

  lemma SameBytes(img: map<nat, Sector>, img': map<nat, Sector>, secs: seq<nat>, secs': seq<nat>, n: nat)
    requires SameOn(img, img', secs) && secs <= secs' && n <= SS * |secs|
    ensures ContentOf(img', secs', n) == ContentOf(img, secs, n)
  {
    forall b | 0 <= b < n
      ensures ByteAt(img', secs', b) == ByteAt(img, secs, b)
    {
      assert secs'[b / SS] == secs[b / SS];
    }
  }

  // ----- writing

  function Min(a: int, b: int): int {
    if a < b then a else b
  }

  function Max(a: int, b: int): int {
    if a > b then a else b
  }

  // The file had the bytes c; n bytes of d have been written from p on.
  ghost predicate Written(img: map<nat, Sector>, secs: seq<nat>, c: seq<Byte>, p: nat, d: seq<Byte>, n: nat) {
    && n <= |d| && p <= |c| && Max(|c|, p + n) <= SS * |secs|
    && forall b :: 0 <= b < Max(|c|, p + n) ==> ByteAt(img, secs, b) == if p <= b < p + n then d[b - p] else c[b]
  }

  /** The bytes c with d written over them from p on. */
  function Spliced(c: seq<Byte>, p: nat, d: seq<Byte>): seq<Byte>
    requires p <= |c|
  {
    c[..p] + d + if p + |d| < |c| then c[p + |d|..] else []
  }

  lemma NoneWritten(img: map<nat, Sector>, secs: seq<nat>, n: nat, p: nat, d: seq<Byte>)
    requires p <= n <= SS * |secs|
    ensures Written(img, secs, ContentOf(img, secs, n), p, d, 0)
  {
  }

  lemma WrittenBytes(img: map<nat, Sector>, secs: seq<nat>, c: seq<Byte>, p: nat, d: seq<Byte>, n: nat)
    requires Written(img, secs, c, p, d, n)
    ensures ContentOf(img, secs, Max(|c|, p + n)) == Spliced(c, p, d[..n])
  {
    var r := ContentOf(img, secs, Max(|c|, p + n));
    var s := Spliced(c, p, d[..n]);
    assert |r| == |s|;
    forall b | 0 <= b < |r|
      ensures r[b] == s[b]
    {
      assert r[b] == ByteAt(img, secs, b);
    }
  }

  lemma WrittenElsewhere(img: map<nat, Sector>, img': map<nat, Sector>, secs: seq<nat>, secs': seq<nat>,
      c: seq<Byte>, p: nat, d: seq<Byte>, n: nat)
    requires Written(img, secs, c, p, d, n) && SameOn(img, img', secs) && secs <= secs'
    ensures Written(img', secs', c, p, d, n)
  {
    forall b | 0 <= b < Max(|c|, p + n)
      ensures ByteAt(img', secs', b) == ByteAt(img, secs, b)
    {
      assert secs'[b / SS] == secs[b / SS];
    }
  }

  lemma WrittenDirect(img: map<nat, Sector>, img': map<nat, Sector>, secs: seq<nat>, c: seq<Byte>, p: nat, d: seq<Byte>, n: nat,
      q: nat, cc: nat)
    requires Written(img, secs, c, p, d, n) && n + SS * cc <= |d| && p + n == SS * q
    requires Distinct(secs) && 0 < cc && q + cc <= |secs|
    requires forall r :: q <= r < q + cc ==> secs[r] == secs[q] + (r - q)
    requires Carried(img, img', secs[q], cc, d, n)
    ensures Written(img', secs, c, p, d, n + SS * cc)
  {
    forall b | 0 <= b < Max(|c|, p + n + SS * cc)
      ensures ByteAt(img', secs, b) == if p <= b < p + n + SS * cc then d[b - p] else c[b]
    {
      DirectByte(img, img', secs, c, p, d, n, q, cc, b);
    }
  }

  lemma DirectByte(img: map<nat, Sector>, img': map<nat, Sector>, secs: seq<nat>, c: seq<Byte>, p: nat, d: seq<Byte>, n: nat,
      q: nat, cc: nat, b: nat)
    requires Written(img, secs, c, p, d, n) && n + SS * cc <= |d| && p + n == SS * q
    requires Distinct(secs) && 0 < cc && q + cc <= |secs|
    requires forall r :: q <= r < q + cc ==> secs[r] == secs[q] + (r - q)
    requires Carried(img, img', secs[q], cc, d, n)
    requires b < Max(|c|, p + n + SS * cc)
    ensures b / SS < |secs| && ByteAt(img', secs, b) == if p <= b < p + n + SS * cc then d[b - p] else c[b]
  {
    var r := b / SS;
    if !(q <= r < q + cc) {
      NotInRow(secs, q, cc, r);
      assert ByteAt(img', secs, b) == ByteAt(img, secs, b);
    }
  }

  // A sector of the file that is not one of the cc in a row is nowhere among them.
  lemma NotInRow(secs: seq<nat>, q: nat, cc: nat, r: nat)
    requires Distinct(secs) && 0 < cc && q + cc <= |secs| && r < |secs| && !(q <= r < q + cc)
    requires forall k :: q <= k < q + cc ==> secs[k] == secs[q] + (k - q)
    ensures !(secs[q] <= secs[r] < secs[q] + cc)
  {
    if secs[q] <= secs[r] < secs[q] + cc { OnePlace(secs, q + (secs[r] - secs[q]), r); }
  }

  lemma OnePlace(secs: seq<nat>, k: nat, r: nat)
    requires Distinct(secs) && k < |secs| && r < |secs| && k != r
    ensures secs[k] != secs[r]
  {
  }

  // Bytes of one sector get the next bytes of d; what lies behind the end of the file may be anything.
  ghost predicate Patched(img: map<nat, Sector>, img': map<nat, Sector>, sect: nat, o: nat, d: seq<Byte>, n: nat,
          cnt: nat, kept: int)
    requires n + cnt <= |d| && o + cnt <= SS
  {
    && (forall s: nat :: s != sect ==> Stored(img', s) == Stored(img, s))
    && (forall i :: 0 <= i < SS ==>
      if o <= i < o + cnt then Stored(img', sect)[i] == d[n + i - o]
      else i < kept ==> Stored(img', sect)[i] == Stored(img, sect)[i])
  }

  lemma WrittenPatch(img: map<nat, Sector>, img': map<nat, Sector>, secs: seq<nat>, c: seq<Byte>, p: nat,
          d: seq<Byte>, n: nat, cnt: nat)
    requires Written(img, secs, c, p, d, n) && n + cnt <= |d| && (p + n) % SS + cnt <= SS
    requires Distinct(secs) && (p + n) / SS < |secs|
    requires Patched(img, img', secs[(p + n) / SS], (p + n) % SS, d, n, cnt, Max(|c|, p + n) - SS * ((p + n) / SS))
    ensures Written(img', secs, c, p, d, n + cnt)
  {
    forall b | 0 <= b < Max(|c|, p + n + cnt)
      ensures b / SS < |secs| && ByteAt(img', secs, b) == if p <= b < p + n + cnt then d[b - p] else c[b]
    {
      PatchedByte(img, img', secs, c, p, d, n, cnt, b);
    }
  }

  lemma PatchedByte(img: map<nat, Sector>, img': map<nat, Sector>, secs: seq<nat>, c: seq<Byte>, p: nat, d: seq<Byte>,
          n: nat, cnt: nat, b: nat)
    requires Written(img, secs, c, p, d, n) && n + cnt <= |d| && (p + n) % SS + cnt <= SS
    requires Distinct(secs) && (p + n) / SS < |secs|
    requires Patched(img, img', secs[(p + n) / SS], (p + n) % SS, d, n, cnt, Max(|c|, p + n) - SS * ((p + n) / SS))
    requires b < Max(|c|, p + n + cnt)
    ensures b / SS < |secs| && ByteAt(img', secs, b) == if p <= b < p + n + cnt then d[b - p] else c[b]
  {
    var q := (p + n) / SS;
    if b / SS == q {
      assert b == SS * q + b % SS;
      if p + n <= b < p + n + cnt {
        assert d[n + b % SS - (p + n) % SS] == d[b - p];
      } else {
        assert ByteAt(img', secs, b) == ByteAt(img, secs, b);
      }
    } else {
      assert secs[b / SS] != secs[q];
      assert ByteAt(img', secs, b) == ByteAt(img, secs, b);
    }
  }

  // ----- reading

  // mem_cpy of n bytes of w from o on over the bytes b from at on.
  ghost predicate Moved(w: seq<Byte>, o: nat, b: seq<Byte>, b': seq<Byte>, at: nat, n: nat) {
    && |b'| == |b| && at + n <= |b| && o + n <= |w|
    && (forall i :: 0 <= i < at || at + n <= i < |b| ==> b'[i] == b[i])
    && (forall i :: at <= i < at + n ==> b'[i] == w[o + (i - at)])
  }

  lemma FetchedImage(d: map<nat, Sector>, t: nat, w: Sector, s: nat, cc: nat, b: seq<Byte>, b': seq<Byte>,
          b'': seq<Byte>, at: nat)
    requires Fetched(d, s, cc, b, b', at)
    requires if s <= t < s + cc then Moved(w, 0, b', b'', at + SS * (t - s), SS) else b'' == b'
    ensures Fetched(d[t := w], s, cc, b, b'', at)
  {
    hide Zeros;
    forall i | at <= i < at + SS * cc
      ensures b''[i] == Stored(d[t := w], s + (i - at) / SS)[(i - at) % SS]
    {
      if s + (i - at) / SS == t {
        assert i - at == SS * (t - s) + (i - at) % SS;
      }
    }
  }

  // The bytes b with n bytes of the file from p on copied over them from at on.
  ghost predicate Got(img: map<nat, Sector>, secs: seq<nat>, p: nat, n: nat, b: seq<Byte>, b': seq<Byte>, at: nat) {
    && |b'| == |b| && at + n <= |b| && p + n <= SS * |secs|
    && (forall i :: 0 <= i < at || at + n <= i < |b| ==> b'[i] == b[i])
    && (forall i :: at <= i < at + n ==> b'[i] == ByteAt(img, secs, p + (i - at)))
  }

  lemma GotDirect(img: map<nat, Sector>, secs: seq<nat>, q: nat, cc: nat, b: seq<Byte>, b': seq<Byte>, at: nat)
    requires 0 < cc && q + cc <= |secs| && Fetched(img, secs[q], cc, b, b', at)
    requires forall r :: q <= r < q + cc ==> secs[r] == secs[q] + (r - q)
    ensures Got(img, secs, SS * q, SS * cc, b, b', at)
  {
    forall i | at <= i < at + SS * cc
      ensures b'[i] == ByteAt(img, secs, SS * q + (i - at))
    {
      var r := q + (i - at) / SS;
      assert secs[r] == secs[q] + (r - q);
      assert (SS * q + (i - at)) / SS == r;
    }
  }

  lemma PickedBytes(img: map<nat, Sector>, secs: seq<nat>, p: nat, w: Sector, n: nat, b: seq<Byte>, b': seq<Byte>,
          at: nat)
    requires p / SS < |secs| && p % SS + n <= SS && w == Stored(img, secs[p / SS])
    requires Moved(w, p % SS, b, b', at, n)
    ensures Got(img, secs, p, n, b, b', at)
  {
    forall i | at <= i < at + n
      ensures b'[i] == ByteAt(img, secs, p + (i - at))
    {
      assert (p + (i - at)) / SS == p / SS;
    }
  }

  lemma GotSome(img: map<nat, Sector>, secs: seq<nat>, p: nat, n: nat, b: seq<Byte>, b': seq<Byte>, at: nat, size: nat)
    requires Got(img, secs, p, n, b, b', at) && p + n <= size <= SS * |secs|
    ensures b' == b[..at] + ContentOf(img, secs, size)[p..p + n] + b[at + n..]
  {
    hide Got;
    GotLength(img, secs, p, n, b, b', at);
    var want := b[..at] + ContentOf(img, secs, size)[p..p + n] + b[at + n..];
    forall i | 0 <= i < |b'|
      ensures b'[i] == want[i]
    {
      GotByte(img, secs, p, n, b, b', at, size, i);
    }
  }

  lemma GotLength(img: map<nat, Sector>, secs: seq<nat>, p: nat, n: nat, b: seq<Byte>, b': seq<Byte>, at: nat)
    requires Got(img, secs, p, n, b, b', at)
    ensures |b'| == |b| && at + n <= |b|
  {
  }

  lemma GotByte(img: map<nat, Sector>, secs: seq<nat>, p: nat, n: nat, b: seq<Byte>, b': seq<Byte>, at: nat,
          size: nat, i: nat)
    requires Got(img, secs, p, n, b, b', at) && p + n <= size <= SS * |secs| && i < |b|
    ensures |b'| == |b| && b'[i] == if at <= i < at + n then ContentOf(img, secs, size)[p + (i - at)] else b[i]
  {
  }

  lemma GotMore(c: seq<Byte>, p: nat, n: nat, m: nat, b: seq<Byte>, was: seq<Byte>, now: seq<Byte>)
    requires p + n + m <= |c| && n + m <= |b|
    requires was == c[p..p + n] + b[n..]
    requires now == was[..n] + c[p + n..p + n + m] + was[n + m..]
    ensures now == c[p..p + n + m] + b[n + m..]
  {
    assert was[..n] == c[p..p + n];
    assert was[n + m..] == b[n + m..];
  }

  // ----- the chain and the table

  // The chain p of the table l has grown to p' by free clusters; the rest of the table is as it was.
  ghost predicate Grown(l: seq<int>, p: seq<int>, l': seq<int>, p': seq<int>) {
    && |l'| == |l| && p <= p'
    && (p' != [] ==> IsChain(l', p'))
    && (forall c :: InRange(l, c) && c !in p' ==> l'[c] == l[c])
    && (forall i :: |p| <= i < |p'| ==> InRange(l, p'[i]) && l[p'[i]] == 0)
  }

  lemma GrownTwice(l: seq<int>, p: seq<int>, l1: seq<int>, p1: seq<int>, l2: seq<int>, p2: seq<int>)
    requires Grown(l, p, l1, p1) && Grown(l1, p1, l2, p2)
    ensures Grown(l, p, l2, p2)
  {
    forall c | InRange(l, c) && c !in p2
      ensures l2[c] == l[c]
    {
      assert c !in p1;
    }
    forall i | |p| <= i < |p2|
      ensures InRange(l, p2[i]) && l[p2[i]] == 0
    {
      if i >= |p1| {
        assert l1[p2[i]] == 0 && InRange(l1, p2[i]);
        if p2[i] in p1 { ChainInUse(l1, p1, p2[i]); }
      }
    }
  }

  lemma GrownByOne(l: seq<int>, p: seq<int>, n: int, e: int)
    requires p != [] ==> IsChain(l, p)
    requires InRange(l, n) && l[n] == 0 && e >= |l|
    ensures Grown(l, p, Linked(l, if p == [] then 0 else p[|p| - 1], n, e), p + [n])
  {
    var l' := Linked(l, if p == [] then 0 else p[|p| - 1], n, e);
    if p == [] {
      assert IsChain(l', [n]) && p + [n] == [n];
    } else {
      if n in p { ChainInUse(l, p, n); }
      LongerChain(l, p, n, e);
      assert p[|p| - 1] in p && p[|p| - 1] in p + [n];
    }
    assert n in p + [n];
  }

  lemma OutsideGrown(l: seq<int>, cs: set<seq<int>>, p: seq<int>, l': seq<int>, p': seq<int>, q: seq<int>, c: int)
    requires Partition(l, cs) && Grown(l, p, l', p') && (p == [] || p in cs)
    requires q in cs && q != p && c in q
    ensures c !in p'
  {
    ChainInUse(l, q, c);
    assert c !in p;
  }

  lemma OtherChain(l: seq<int>, cs: set<seq<int>>, p: seq<int>, l': seq<int>, p': seq<int>, q: seq<int>)
    requires Partition(l, cs) && Grown(l, p, l', p') && (p == [] || p in cs)
    requires q in cs && q != p
    ensures IsChain(l', q) && forall c :: c in q ==> c !in p'
  {
    forall c | c in q
      ensures c !in p' && l'[c] == l[c]
    {
      OutsideGrown(l, cs, p, l', p', q, c);
      ChainInUse(l, q, c);
    }
    ChainElsewhere(l, l', q);
  }

  // The chains once p has grown to p'; p' may still be no chain at all.
  function WithGrown(cs: set<seq<int>>, p: seq<int>, p': seq<int>): set<seq<int>> {
    cs - {p} + if p' == [] then {} else {p'}
  }

  lemma StillChained(l: seq<int>, cs: set<seq<int>>, p: seq<int>, l': seq<int>, p': seq<int>, c: int)
    requires Partition(l, cs) && Grown(l, p, l', p')
    requires InRange(l', c) && l'[c] != 0
    ensures exists q :: q in WithGrown(cs, p, p') && c in q
  {
    if c in p' { assert p' in WithGrown(cs, p, p'); } else {
      var q :| q in cs && c in q;
      assert q in WithGrown(cs, p, p');
    }
  }

  lemma StillDisjoint(cs: set<seq<int>>, p: seq<int>, p': seq<int>, q: seq<int>, r: seq<int>, c: int)
    requires forall q, r, c :: q in cs && r in cs && c in q && c in r ==> q == r
    requires forall q, c :: q in cs && q != p && c in q ==> c !in p'
    requires q in WithGrown(cs, p, p') && r in WithGrown(cs, p, p') && c in q && c in r
    ensures q == r
  {
  }

  /** The other chains stay as they are, and the grown one is disjoint from them. */
  lemma GrownPartition(l: seq<int>, cs: set<seq<int>>, p: seq<int>, l': seq<int>, p': seq<int>)
    requires Partition(l, cs) && Grown(l, p, l', p') && (p == [] || p in cs)
    ensures Partition(l', WithGrown(cs, p, p'))
  {
    var cs' := WithGrown(cs, p, p');
    forall q | q in cs && q != p
      ensures IsChain(l', q) && forall c :: c in q ==> c !in p'
    {
      OtherChain(l, cs, p, l', p', q);
    }
    forall q, r, c | q in cs' && r in cs' && c in q && c in r
      ensures q == r
    {
      StillDisjoint(cs, p, p', q, r, c);
    }
    assert forall q :: q in cs' ==> IsChain(l', q);
    forall c | InRange(l', c) && l'[c] != 0
      ensures exists q :: q in cs' && c in q
    {
      StillChained(l, cs, p, l', p', c);
    }
  }
}
