/** Where the bytes of a file are on the disk, in the terms of the volume alone: the first cluster of the file, the
    links of the table, and the sectors of clusters, which are numbered from 2 on. */
module FatPlace {
  import opened Words
  import opened FatChain
  import opened FatFs
  import opened FatImage
  import opened FatCursor

  // Cluster i of the file that begins with org.
  function ClusterOf(l: seq<int>, org: int, i: nat): int {
    if i == 0 then org
    else
      var c := ClusterOf(l, org, i - 1);
      if 0 <= c < |l| then l[c] else 0
  }

  // The sector that byte p of the file is in.
  function PlaceOf(l: seq<int>, org: int, csize: nat, database: nat, p: nat): int
    requires csize > 0
  {
    database + (ClusterOf(l, org, p / 512 / csize) - 2) * csize + p / 512 % csize
  }

  /** The bytes d are those of the file from p on: each in its sector of the disk, or in the buffer that will be
      written there. */
  ghost predicate Lies(s: State, p: nat, d: seq<Byte>) {
    s.csize > 0 && forall i :: 0 <= i < |d| ==> LiesAt(s, p + i, d[i])
  }

  predicate LiesAt(s: State, p: nat, b: Byte)
    requires s.csize > 0
  {
    var w := PlaceOf(s.link, s.org, s.csize, s.database, p);
    w >= 0 && Stored(Img(s), w)[p % 512] == b
  }

  lemma {:induction false} ChainFollows(l: seq<int>, chain: seq<int>, i: nat)
    requires IsChain(l, chain) && i < |chain|
    ensures ClusterOf(l, chain[0], i) == chain[i]
    decreases i
  {
    if i > 0 {
      ChainFollows(l, chain, i - 1);
      assert InRange(l, chain[i - 1]) && l[chain[i - 1]] == chain[i];
    }
  }

  /** Byte p of the file is in the sector of the cluster its links lead to. */
  lemma SectorOfByte(s: State, p: nat)
    requires Sound(s) && p < SS * |Secs(s)|
    ensures Secs(s)[p / SS] == PlaceOf(s.link, s.org, s.csize, s.database, p)
  {
    hide Sectors, WindowApart, Buffered, DataFits;
    forall i | 0 <= i < |s.chain|
      ensures s.chain[i] >= 2
    {
      assert InRange(s.link, s.chain[i]);
    }
    SectorPlace(s.chain, s.csize, s.database, p / SS);
    ChainFollows(s.link, s.chain, p / SS / s.csize);
  }

  /** All sectors of a file are sectors of clusters: none is behind the last one of the volume. */
  lemma SectorsInside(s: State, q: nat)
    requires Sound(s) && q < |Secs(s)|
    ensures |s.link| >= 2 && s.database <= Secs(s)[q] < s.database + (|s.link| - 2) * s.csize
  {
    hide Sectors, WindowApart, Buffered;
    var c := SectorHome(s.link, s.chain, s.csize, s.database, q);
    TimesProduct(|s.link| - 2, s.csize);
  }

  lemma ContentLies(s: State, p: nat, n: nat)
    requires Sound(s) && p + n <= s.fsize <= SS * |Secs(s)|
    ensures Lies(s, p, Content(s)[p..p + n])
  {
    hide Sectors, WindowApart, Buffered, DataFits, Heads, PlaceOf, Img;
    var d := Content(s)[p..p + n];
    forall i | 0 <= i < |d|
      ensures LiesAt(s, p + i, d[i])
    {
      SectorOfByte(s, p + i);
    }
  }

  // What has been delivered lies there.
  lemma DeliveredLies(s: State, t: State, n: nat, b: seq<Byte>, b': seq<Byte>)
    requires Delivered(s, t, n, b, b') && Sound(t) && t.fsize <= SS * |Secs(t)|
    ensures n <= |b'| && Lies(t, s.fptr, b'[..n])
  {
    hide Sound, Quiet, Secs, Img, ContentOf, Lies;
    ContentLies(t, s.fptr, n);
    assert b'[..n] == Content(t)[s.fptr..s.fptr + n];
  }

  // What has been written lies there.
  lemma WroteLies(s: State, t: State, d: seq<Byte>, n: nat)
    requires Wrote(s, t, d, n) && Sound(t)
    ensures n <= |d| && Lies(t, s.fptr, d[..n])
  {
    hide Sound, Harmless, Secs, Img, ContentOf, Lies;
    ContentLies(t, s.fptr, n);
    assert d[..n] == Content(t)[s.fptr..s.fptr + n];
  }
}
