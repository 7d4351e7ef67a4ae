/** The image of a ROM file system: what mkfs.py writes. */
module RomImage {
  import opened Words

  const MAX_FNAME_LENGTH := 30

  type Name = seq<Byte>

  datatype Entry = Entry(name: Name, data: seq<Byte>)

  // What a directory holds under a name.
  datatype Content = Unreadable | Regular(data: seq<Byte>)

  predicate NameOK(name: Name) {
    1 <= |name| <= MAX_FNAME_LENGTH && 0 !in name
  }

  // What the readers understand.
  predicate EntryOK(e: Entry) {
    NameOK(e.name) && |e.data| <= 0xFFFF
  }

  predicate AllOK(es: seq<Entry>) {
    forall k :: 0 <= k < |es| ==> EntryOK(es[k])
  }

  /** Name, 0, size in two bytes, contents. */
  function Encode(e: Entry): seq<Byte> {
    e.name + [0, |e.data| % 256, |e.data| / 256 % 256] + e.data
  }

  function Body(es: seq<Entry>): seq<Byte> {
    if es == [] then [] else Body(es[..|es| - 1]) + Encode(es[|es| - 1])
  }

  /** The whole image, with its terminator. */
  function Image(es: seq<Entry>): seq<Byte> {
    Body(es) + [0]
  }

  // Where entry k begins.
  function Start(es: seq<Entry>, k: nat): nat
    requires k <= |es|
  {
    |Body(es[..k])|
  }

  // Where its contents begin.
  function DataStart(es: seq<Entry>, k: nat): nat
    requires k < |es|
  {
    Start(es, k) + |es[k].name| + 3
  }

  lemma BodyNext(es: seq<Entry>, k: nat)
    requires k < |es|
    ensures Body(es[..k + 1]) == Body(es[..k]) + Encode(es[k])
  {
    assert es[..k + 1][..k] == es[..k];
  }

  lemma {:induction false} BodyGrows(es: seq<Entry>, k: nat, m: nat)
    requires k <= m <= |es|
    ensures Body(es[..k]) <= Body(es[..m])
    decreases m
  {
    if k < m {
      BodyGrows(es, k, m - 1);
      BodyNext(es, m - 1);
    }
  }

  /** Entry k is where it should be. */
  lemma EntryAt(es: seq<Entry>, k: nat)
    requires k < |es|
    ensures Start(es, k) + |Encode(es[k])| == Start(es, k + 1) < |Image(es)|
    ensures Image(es)[Start(es, k)..Start(es, k + 1)] == Encode(es[k])
  {
    hide Encode, Body;
    BodyNext(es, k);
    BodyGrows(es, k + 1, |es|);
    assert es[..|es|] == es;
    Inside(Body(es[..k]), Encode(es[k]), Image(es));
  }

  lemma Inside(a: seq<Byte>, b: seq<Byte>, image: seq<Byte>)
    requires a + b <= image
    ensures image[|a|..|a| + |b|] == b
  {
    assert image[..|a| + |b|] == a + b;
    assert image[|a|..|a| + |b|] == image[..|a| + |b|][|a|..];
  }

  lemma EndAt(es: seq<Entry>)
    ensures Start(es, |es|) + 1 == |Image(es)| && Image(es)[Start(es, |es|)] == 0
  {
    hide Body;
    assert es[..|es|] == es;
  }

  // The bytes of entry k one by one.
  lemma EntryBytes(es: seq<Entry>, k: nat)
    requires k < |es|
    ensures var i, n, e, img := Start(es, k), |es[k].name|, es[k], Image(es);
      && i + n + 3 + |e.data| == Start(es, k + 1) < |img|
      && (forall j :: 0 <= j < n ==> img[i + j] == e.name[j])
      && img[i + n] == 0 && img[i + n + 1] == |e.data| % 256 && img[i + n + 2] == |e.data| / 256 % 256
      && img[i + n + 3..i + n + 3 + |e.data|] == e.data
  {
    hide Body, Image;
    EntryAt(es, k);
    var i, n, e, img := Start(es, k), |es[k].name|, es[k], Image(es);
    var c := Encode(e);
    forall j | 0 <= j < |c|
      ensures img[i + j] == c[j]
    {
      assert img[i..i + |c|][j] == img[i + j];
    }
    assert c[n + 3..] == e.data;
    assert img[i + n + 3..i + |c|] == img[i..i + |c|][n + 3..];
  }

  /** Two bytes hold the size exactly when there are at most 65535 bytes of contents. */
  lemma SizeExactly(data: seq<Byte>)
    ensures |data| % 256 + 256 * (|data| / 256 % 256) == |data| <==> |data| <= 0xFFFF
  {
  }

  // ----- mkfs

  // The files that get into the image.
  function Kept(flist: seq<Name>, dir: map<Name, Content>): seq<Entry> {
    if flist == [] then []
    else
      var f := flist[|flist| - 1];
      Kept(flist[..|flist| - 1], dir) + if |f| <= MAX_FNAME_LENGTH && f in dir && dir[f].Regular? then [Entry(f, dir[f].data)] else []
  }

  /** The image holds the files of the list that are there with a name of at most 30 characters, every one of them
      and no other, in the order of the list; at says which of the list they are. */
  lemma {:induction false} KeptExactly(flist: seq<Name>, dir: map<Name, Content>) returns (at: seq<nat>)
    ensures |at| == |Kept(flist, dir)| && forall j, k :: 0 <= j < k < |at| ==> at[j] < at[k]
    ensures forall i: nat :: i in at <==> i < |flist| && |flist[i]| <= MAX_FNAME_LENGTH && flist[i] in dir && dir[flist[i]].Regular?
    ensures forall j :: 0 <= j < |at| ==>
      at[j] in at && at[j] < |flist| && Kept(flist, dir)[j] == Entry(flist[at[j]], dir[flist[at[j]]].data)
    decreases |flist|
  {
    at := [];
    if flist != [] {
      var n := |flist| - 1;
      at := KeptExactly(flist[..n], dir);
      assert forall i: nat :: i in at ==> i < n;
      if |flist[n]| <= MAX_FNAME_LENGTH && flist[n] in dir && dir[flist[n]].Regular? {
        at := at + [n];
      }
    }
  }

  predicate Readable(f: Name, dir: map<Name, Content>) {
    |f| <= MAX_FNAME_LENGTH && f in dir ==> dir[f].Regular?
  }

  lemma {:induction false} KeptOK(flist: seq<Name>, dir: map<Name, Content>)
    requires forall f :: f in flist && |f| <= MAX_FNAME_LENGTH && f in dir ==>
      NameOK(f) && dir[f].Regular? && |dir[f].data| <= 0xFFFF
    ensures AllOK(Kept(flist, dir))
    decreases |flist|
  {
    if flist != [] { KeptOK(flist[..|flist| - 1], dir); }
  }

  class Writer {
    var out: seq<Byte>
    var bytecnt: nat

    constructor ()
      ensures out == [] && bytecnt == 0
    {
      out, bytecnt := [], 0;
    }

    // _add_data
    method AddData(data: Byte)
      modifies this
      ensures out == old(out) + [data] && bytecnt == old(bytecnt) + 1
    {
      bytecnt := bytecnt + 1;
      out := out + [data];
    }

    method AddAll(data: seq<Byte>)
      modifies this
      ensures out == old(out) + data && bytecnt == old(bytecnt) + |data|
    {
      for i := 0 to |data|
        invariant out == old(out) + data[..i] && bytecnt == old(bytecnt) + i
      {
        assert data[..i + 1] == data[..i] + [data[i]];
        AddData(data[i]);
      }
      assert data[..|data|] == data;
    }

    /** mkfs: every file of the list that is there and whose name is not too long; it gives up when one of
        them cannot be read. */
    method Mkfs(flist: seq<Name>, dir: map<Name, Content>) returns (ok: bool)
      requires out == [] && bytecnt == 0
      modifies this
      ensures ok <==> forall f :: f in flist ==> Readable(f, dir)
      ensures ok ==> out == Image(Kept(flist, dir)) && bytecnt == |out|
    {
      hide Encode, Body, Kept;
      KeptNone(dir);
      for i := 0 to |flist|
        invariant out == Body(Kept(flist[..i], dir)) && bytecnt == |out|
        invariant forall f :: f in flist[..i] ==> Readable(f, dir)
      {
        KeptNext(flist, dir, i);
        var fname := flist[i];
        assert fname in flist;
        if |fname| > MAX_FNAME_LENGTH || fname !in dir {
          continue;
        }
        if dir[fname].Unreadable? {
          return false;
        }
        var filedata := dir[fname].data;
        ghost var before := out;
        AddAll(fname);
        AddData(0);
        AddData(|filedata| % 256);
        AddData(|filedata| / 256 % 256);
        AddAll(filedata);
        Encoded(before, fname, filedata);
      }
      assert flist[..|flist|] == flist;
      AddData(0);
      return true;
    }
  }

  lemma Encoded(before: seq<Byte>, name: Name, data: seq<Byte>)
    ensures ((((before + name) + [0]) + [|data| % 256]) + [|data| / 256 % 256]) + data == before + Encode(Entry(name, data))
  {
  }

  lemma KeptNone(dir: map<Name, Content>)
    ensures Kept([], dir) == [] && Body([]) == []
  {
  }

  lemma KeptNext(flist: seq<Name>, dir: map<Name, Content>, i: nat)
    requires i < |flist|
    ensures flist[..i + 1] == flist[..i] + [flist[i]]
    ensures var f, es := flist[i], Kept(flist[..i], dir);
      if |f| <= MAX_FNAME_LENGTH && f in dir && dir[f].Regular? then
        Kept(flist[..i + 1], dir) == es + [Entry(f, dir[f].data)] && Body(Kept(flist[..i + 1], dir)) == Body(es) + Encode(Entry(f, dir[f].data))
      else Kept(flist[..i + 1], dir) == es
  {
    assert flist[..i + 1][..i] == flist[..i];
    var f, es := flist[i], Kept(flist[..i], dir);
    if |f| <= MAX_FNAME_LENGTH && f in dir && dir[f].Regular? {
      assert (es + [Entry(f, dir[f].data)])[..|es|] == es;
    }
  }
}
