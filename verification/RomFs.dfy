/** romfs.c: finding, reading and listing the files of an image. */
module RomFs {
  import opened Words
  import opened RomImage

  const ROMFS_MAX_FDS := 4
  const BIT32 := 0x1_0000_0000

  datatype Dir = SeekSet | SeekCur | SeekEnd | Other

  /** FS: an open file. */
  datatype FS = Closed | FS(baseaddr: nat, offset: nat, size: nat)

  // tolower
  function Lower(c: Byte): Byte {
    if 65 <= c <= 90 then c + 32 else c
  }

  function Folded(s: seq<Byte>): seq<Byte> {
    seq(|s|, i requires 0 <= i < |s| => Lower(s[i]))
  }

  function Cut(s: seq<Byte>): seq<Byte> {
    if |s| <= MAX_FNAME_LENGTH then s else s[..MAX_FNAME_LENGTH]
  }

  /** What romfs_open_file takes for the same name: the first 30 characters, small or capital. */
  predicate Same(fname: Name, name: Name) {
    Folded(Cut(fname)) == Folded(Cut(name))
  }

  /** Two names that differ at most in how their letters are written, capital (65 to 90) or small (32 more). */
  predicate Alike(a: Name, b: Name) {
    && |a| == |b|
    && forall i :: 0 <= i < |a| ==>
      a[i] == b[i] || (65 <= a[i] <= 90 && b[i] == a[i] + 32) || (65 <= b[i] <= 90 && a[i] == b[i] + 32)
  }

  lemma FoldedExactly(a: Name, b: Name)
    ensures Folded(a) == Folded(b) <==> Alike(a, b)
  {
    assert |Folded(a)| == |a| && |Folded(b)| == |b|;
    if Folded(a) == Folded(b) {
      forall i | 0 <= i < |a|
        ensures a[i] == b[i] || (65 <= a[i] <= 90 && b[i] == a[i] + 32) || (65 <= b[i] <= 90 && a[i] == b[i] + 32)
      {
        assert Folded(a)[i] == Folded(b)[i];
      }
    }
  }

  /** A name of the image is found under every spelling of itself in capitals and small letters, and, if it has all 30
      characters, under every longer name that begins with one; under no other name. */
  lemma SameExactly(fname: Name, name: Name)
    requires NameOK(name)
    ensures Same(fname, name) <==>
      (Alike(fname, name) || (|fname| > MAX_FNAME_LENGTH && Alike(fname[..MAX_FNAME_LENGTH], name)))
  {
    FoldedExactly(Cut(fname), Cut(name));
  }

  lemma SpellingMissed(es: seq<Entry>, fname: Name)
    requires AllOK(es) && forall k :: 0 <= k < |es| ==> !Same(fname, es[k].name)
    ensures forall k :: 0 <= k < |es| ==> !Alike(fname, es[k].name)
  {
    forall k | 0 <= k < |es|
      ensures !Alike(fname, es[k].name)
    {
      SameExactly(fname, es[k].name);
    }
  }

  // The first entry with the name.
  predicate FirstMatch(es: seq<Entry>, fname: Name, k: nat) {
    k < |es| && Same(fname, es[k].name) && forall j :: 0 <= j < k ==> !Same(fname, es[j].name)
  }

  // ----- comparing names

  // A character of a string that ends with 0.
  function CharAt(s: seq<Byte>, i: nat): Byte {
    if i < |s| then s[i] else 0
  }

  // The buffer holds the name, with a 0 behind it if there is room.
  predicate Buffered(buf: seq<Byte>, name: Name) {
    && |buf| == MAX_FNAME_LENGTH + 1 && NameOK(name) && buf[..|name|] == name
    && (|name| < MAX_FNAME_LENGTH ==> buf[|name|] == 0)
  }

  lemma LowerZero(c: Byte)
    ensures Lower(c) == 0 <==> c == 0
  {
  }

  lemma AgreeSoFar(fname: Name, buf: seq<Byte>, name: Name, i: nat)
    requires Buffered(buf, name) && 0 !in fname && i <= MAX_FNAME_LENGTH
    requires forall j :: 0 <= j < i ==> Lower(CharAt(fname, j)) == Lower(buf[j]) && buf[j] != 0
    ensures i <= |name| && i <= |fname|
    ensures i == MAX_FNAME_LENGTH ==> Same(fname, name)
    ensures i < MAX_FNAME_LENGTH && Lower(CharAt(fname, i)) != Lower(buf[i]) ==> !Same(fname, name)
    ensures i < MAX_FNAME_LENGTH && Lower(CharAt(fname, i)) == Lower(buf[i]) && buf[i] == 0 ==> Same(fname, name)
  {
    assert forall j :: 0 <= j < |name| ==> buf[j] == name[j] && buf[..|name|][j] == name[j];
    if i > |fname| {
      LowerZero(buf[|fname|]);
      assert CharAt(fname, |fname|) == 0;
    }
    if i < MAX_FNAME_LENGTH {
      LowerZero(buf[i]);
      LowerZero(CharAt(fname, i));
      if i < |fname| { assert fname[i] != 0; }
      Differ(fname, buf, name, i);
    } else {
      assert forall j :: 0 <= j < i ==> Lower(fname[j]) == Lower(name[j]);
    }
  }

  lemma Differ(fname: Name, buf: seq<Byte>, name: Name, i: nat)
    requires Buffered(buf, name) && 0 !in fname && i < MAX_FNAME_LENGTH && i <= |name| && i <= |fname|
    requires forall j :: 0 <= j < i ==> Lower(fname[j]) == Lower(name[j])
    ensures Lower(CharAt(fname, i)) != Lower(buf[i]) ==> !Same(fname, name)
    ensures Lower(CharAt(fname, i)) == Lower(buf[i]) && buf[i] == 0 ==> Same(fname, name)
  {
    var a, b := Cut(fname), Cut(name);
    assert b == name;
    if i < |name| { assert buf[..|name|][i] == name[i] && name[i] != 0; }
    LowerZero(CharAt(fname, i));
    LowerZero(buf[i]);
    if i < |fname| { assert fname[i] != 0; }
    if Same(fname, name) {
      assert |a| == |Folded(a)| == |Folded(b)| == |b|;
      if i < |name| { assert Folded(a)[i] == Folded(b)[i]; }
    }
  }

  // strncasecmp( fname, fsname, MAX_FNAME_LENGTH ) == 0
  method SameNames(fname: Name, buf: array<Byte>, ghost name: Name) returns (same: bool)
    requires Buffered(buf[..], name) && 0 !in fname
    ensures same <==> Same(fname, name)
  {
    hide Same, Buffered;
    ghost var b := buf[..];
    BufferSize(b, name);
    var i := 0;
    while i < MAX_FNAME_LENGTH
      invariant 0 <= i <= MAX_FNAME_LENGTH
      invariant forall j :: 0 <= j < i ==> Lower(CharAt(fname, j)) == Lower(b[j]) && b[j] != 0
    {
      AgreeSoFar(fname, b, name, i);
      if Lower(CharAt(fname, i)) != Lower(buf[i]) { return false; }
      if buf[i] == 0 { return true; }
      i := i + 1;
    }
    AgreeSoFar(fname, b, name, i);
    return true;
  }

  lemma BufferSize(buf: seq<Byte>, name: Name)
    requires Buffered(buf, name)
    ensures |buf| == MAX_FNAME_LENGTH + 1
  {
  }

  // ----- the device

  class RomDevice {
    const image: seq<Byte>                 // romfiles_fs
    const fds: array<FS>                   // romfs_fd_table
    var num_fd: nat
    ghost const es: seq<Entry>

    constructor (img: seq<Byte>, ghost entries: seq<Entry>)
      requires img == Image(entries) && AllOK(entries) && |img| < BIT32
      ensures Valid() && es == entries && image == img && num_fd == 0
    {
      image, es, num_fd := img, entries, 0;
      fds := new FS[ROMFS_MAX_FDS](_ => Closed);
      new;
      NoneOpen(fds[..]);
    }

    /** Every open file is one of the image, its offset in it; num_fd is the number of open ones. */
    ghost predicate Valid()
      reads this, fds
    {
      && image == Image(es) && AllOK(es) && |image| < BIT32 && fds.Length == ROMFS_MAX_FDS
      && num_fd == Open(fds[..]) && forall i :: 0 <= i < ROMFS_MAX_FDS ==> FileOK(es, fds[i])
    }

    /** romfs_open_file: the first file with the name, in whatever case; never looks behind the terminator. */
    method OpenFile(fname: Name) returns (f: FS)
      requires Valid() && 0 !in fname
      ensures f == Closed <==> forall k :: 0 <= k < |es| ==> !Same(fname, es[k].name)
      ensures f != Closed ==> exists k: nat :: FirstMatch(es, fname, k) && f == FS(DataStart(es, k), 0, |es[k].data|)
      ensures f == Closed ==> forall k :: 0 <= k < |es| ==> !Alike(fname, es[k].name)
    {
      hide Same, Alike, Image, Encode, Body;
      var fsname := new Byte[MAX_FNAME_LENGTH + 1](_ => 0);
      var i: nat := 0;
      ghost var k: nat := 0;
      StartFirst(es);
      EndAt(es);
      while true
        invariant k <= |es| && i == Start(es, k) && forall j :: 0 <= j < k ==> !Same(fname, es[j].name)
        decreases |es| - k
      {
        if k == |es| {
          // the terminator is read as the first character of a name
          assert image[i] == 0;
        } else {
          EntryBytes(es, k);
        }
        if image[i] == 0 {
          EntryNamed(es, k);
          SpellingMissed(es, fname);
          return Closed;
        }
        EntryNamed(es, k);
        var n: nat := ReadName(fsname, i, es[k].name);
        var j: nat := i + n + 1;
        var fsize: nat := (image[j] as int) + 256 * (image[j + 1] as int);
        SizeExactly(es[k].data);
        var same := SameNames(fname, fsname, es[k].name);
        if same {
          assert FirstMatch(es, fname, k);
          return FS(j + 2, 0, fsize);
        }
        i := j + 2 + fsize;
        k := k + 1;
      }
    }

    // The name at i, up to its 0 or its 30th character.
    method ReadName(fsname: array<Byte>, i: nat, ghost name: Name) returns (j: nat)
      requires fsname.Length == MAX_FNAME_LENGTH + 1 && NameOK(name) && i + |name| < |image| && image[i + |name|] == 0
      requires forall j :: 0 <= j < |name| ==> image[i + j] == name[j]
      modifies fsname
      ensures j == |name| && Buffered(fsname[..], name)
    {
      j := 0;
      while j < MAX_FNAME_LENGTH
        invariant 0 <= j <= |name| && forall k :: 0 <= k < j ==> fsname[k] == name[k]
      {
        if j < |name| { assert name[j] in name; }
        fsname[j] := image[i + j];
        if fsname[j] == 0 {
          break;
        }
        j := j + 1;
      }
      assert fsname[..|name|] == name;
    }

    // ----- descriptors

    // romfs_find_empty_fd
    method FindEmpty() returns (i: nat)
      requires fds.Length == ROMFS_MAX_FDS && Open(fds[..]) < ROMFS_MAX_FDS
      ensures i < ROMFS_MAX_FDS && fds[i] == Closed && forall j :: 0 <= j < i ==> fds[j].FS?
    {
      SomeClosed(fds[..]);
      i := 0;
      while fds[i].FS?
        invariant i < ROMFS_MAX_FDS && forall j :: 0 <= j < i ==> fds[j].FS?
        invariant exists k :: i <= k < ROMFS_MAX_FDS && fds[k] == Closed
        decreases ROMFS_MAX_FDS - i
      {
        i := i + 1;
      }
    }

    /** romfs_open_r: the first free descriptor at the start of the first file with the name, or why there is none. */
    method OpenR(path: Name) returns (fd: int, errno: Errno)
      requires Valid() && 0 !in path
      modifies this, fds
      ensures Valid() && (fd == -1 <==> errno != Fine)
      ensures errno == ENFILE <==> forall i :: 0 <= i < ROMFS_MAX_FDS ==> old(fds[i]).FS?
      ensures errno == ENOENT <==> errno != ENFILE && forall k :: 0 <= k < |es| ==> !Same(path, es[k].name)
      ensures errno != Fine ==> fds[..] == old(fds[..])
      ensures errno == Fine ==>
        0 <= fd < ROMFS_MAX_FDS && old(fds[fd]) == Closed && fds[..] == old(fds[..])[fd := fds[fd]]
      ensures errno == Fine ==> forall j :: 0 <= j < fd ==> old(fds[j]).FS?
      ensures errno == Fine ==>
        exists k: nat :: FirstMatch(es, path, k) && FileOf(es, fds[fd], k) && fds[fd].offset == 0
    {
      hide Same, Image, Open;
      AllOpen(fds[..]);
      if num_fd == ROMFS_MAX_FDS {
        return -1, ENFILE;
      }
      var tempfs := OpenFile(path);
      if tempfs == Closed {
        return -1, ENOENT;
      }
      var i := FindEmpty();
      OpenMore(fds[..], i, tempfs);
      fds[i] := tempfs;
      num_fd := num_fd + 1;
      assert fds[..] == old(fds[..])[i := tempfs];
      ghost var k: nat :| FirstMatch(es, path, k) && tempfs == FS(DataStart(es, k), 0, |es[k].data|);
      assert FileOf(es, tempfs, k);
      return i, Fine;
    }

    /** romfs_close_r */
    method CloseR(fd: nat)
      requires Valid() && fd < ROMFS_MAX_FDS && fds[fd].FS?
      modifies this, fds
      ensures Valid() && fds[..] == old(fds[..])[fd := Closed] && num_fd == old(num_fd) - 1
    {
      hide Image, Open;
      OpenMore(fds[..][fd := Closed], fd, fds[fd]);
      assert fds[..][fd := Closed][fd := fds[fd]] == fds[..];
      fds[fd] := Closed;
      num_fd := num_fd - 1;
      assert fds[..] == old(fds[..])[fd := Closed];
    }

    // The contents of an open file.
    ghost function Contents(f: FS): (c: seq<Byte>)
      requires image == Image(es) && f.FS? && FileOK(es, f)
      ensures |c| == f.size
    {
      FileInside(es, f);
      image[f.baseaddr..f.baseaddr + f.size]
    }

    /** They are those of the file that was opened. */
    lemma ContentsAre(f: FS, k: nat)
      requires image == Image(es) && FileOf(es, f, k)
      ensures FileOK(es, f) && Contents(f) == es[k].data
    {
      EntryBytes(es, k);
    }

    /** romfs_read_r: what is there, up to len bytes. */
    method ReadR(fd: nat, len: nat) returns (ptr: seq<Byte>)
      requires Valid() && fd < ROMFS_MAX_FDS && fds[fd].FS?
      modifies fds
      ensures Valid() && fds[fd].FS? && fds[..] == old(fds[..])[fd := old(fds[fd]).(offset := fds[fd].offset)]
      ensures var f := old(fds[fd]);
        && Contents(fds[fd]) == Contents(f) && fds[fd].offset == f.offset + |ptr|
        && |ptr| == (if len < f.size - f.offset then len else f.size - f.offset)
        && ptr == Contents(f)[f.offset..f.offset + |ptr|] == Chunk(Contents(f), f.offset, len)
    {
      hide Image, Open;
      var pfs := fds[fd];
      FileInside(es, pfs);
      var actlen := if len < pfs.size - pfs.offset then len else pfs.size - pfs.offset;
      ptr := image[pfs.offset + pfs.baseaddr..pfs.offset + pfs.baseaddr + actlen];
      Slices(image, pfs.baseaddr, pfs.size, pfs.offset, actlen);
      Moved(pfs, pfs.offset + actlen);
      OpenSame(fds[..], fd, pfs.(offset := pfs.offset + actlen));
      fds[fd] := pfs.(offset := pfs.offset + actlen);
      assert fds[..] == old(fds[..])[fd := pfs.(offset := pfs.offset + actlen)];
    }

    lemma Moved(f: FS, offset: nat)
      requires image == Image(es) && FileOK(es, f) && f.FS? && offset <= f.size
      ensures FileOK(es, f.(offset := offset)) && Contents(f.(offset := offset)) == Contents(f)
    {
      hide Image;
      var k: nat :| FileOf(es, f, k);
      assert FileOf(es, f.(offset := offset), k);
    }

    /** romfs_ioctl_r with FDSEEK: the place is reached exactly when it is in the file or at its end, although it is
        computed on 32-bit words without a sign. */
    method Seek(fd: nat, dir: Dir, off: int) returns (res: int)
      requires Valid() && fd < ROMFS_MAX_FDS && fds[fd].FS? && -0x8000_0000 <= off < 0x8000_0000
      modifies fds
      ensures Valid() && fds[..] == old(fds[..])[fd := fds[fd]] && fds[fd].FS?
      ensures Contents(fds[fd]) == Contents(old(fds[fd]))
      ensures var f := old(fds[fd]);
        var to := match dir case SeekSet => off case SeekCur => f.offset + off case SeekEnd => f.size + off case Other => -1;
        && res == (if 0 <= to <= f.size then 0 else -1) && fds[fd].offset == if res == 0 then to else f.offset
    {
      hide Image, Open;
      var pfs := fds[fd];
      FileInside(es, pfs);
      var newpos: nat;
      ghost var to := off;
      match dir {
        case SeekSet => newpos := off % BIT32;
        case SeekCur => newpos := (pfs.offset + off) % BIT32; to := pfs.offset + off;
        case SeekEnd => newpos := (pfs.size + off) % BIT32; to := pfs.size + off;
        case Other => return -1;
      }
      Unsigned(to, pfs.size);
      if newpos > pfs.size { return -1; }
      Moved(pfs, newpos);
      OpenSame(fds[..], fd, pfs.(offset := newpos));
      fds[fd] := pfs.(offset := newpos);
      assert fds[..] == old(fds[..])[fd := pfs.(offset := newpos)];
      return 0;
    }

    // ----- listing

    /** romfs_get_dir_entry: the next entry, 0 behind the last one. */
    method GetDirEntry(offset: nat, ghost k: nat) returns (next: nat, fname: Name, fsize: nat)
      requires Valid() && k <= |es| && offset == Start(es, k)
      ensures k == |es| ==> next == 0
      ensures k < |es| ==> next == Start(es, k + 1) > 0 && fname == es[k].name && fsize == |es[k].data|
    {
      hide Image, Encode, Body, Open;
      EntryNamed(es, k);
      EndAt(es);
      if k < |es| {
        EntryBytes(es, k);
      } else {
        assert image[offset] == 0;
      }
      next, fname, fsize := 0, [], 0;
      if image[offset] != 0 {
        var i: nat := offset;
        ghost var name := es[k].name;
        while image[i] != 0
          invariant offset <= i <= offset + |name| && fname == name[..i - offset]
          decreases |image| - i
        {
          assert name[..i - offset] + [name[i - offset]] == name[..i + 1 - offset];
          fname := fname + [image[i]];
          i := i + 1;
        }
        if i < offset + |name| { assert name[i - offset] in name; }
        i := i + 1;
        fsize := (image[i] as int) + 256 * (image[i + 1] as int);
        SizeExactly(es[k].data);
        next := i + 2 + fsize;
      }
    }

    /** The list that the shell shows: all files in order. */
    method List() returns (list: seq<(Name, nat)>)
      requires Valid()
      ensures |list| == |es| && forall k :: 0 <= k < |es| ==> list[k] == (es[k].name, |es[k].data|)
    {
      hide Image, Encode, Body, Open;
      list := [];
      StartFirst(es);
      var offset, fname, fsize := GetDirEntry(0, 0);
      while offset != 0
        invariant |list| <= |es| && (forall k :: 0 <= k < |list| ==> list[k] == (es[k].name, |es[k].data|))
        invariant offset == (if |list| == |es| then 0 else Start(es, |list| + 1))
        invariant offset == 0 ==> |list| == |es|
        invariant offset != 0 ==> fname == es[|list|].name && fsize == |es[|list|].data|
        decreases |es| - |list|
      {
        list := list + [(fname, fsize)];
        offset, fname, fsize := GetDirEntry(offset, |list|);
      }
    }
  }

  datatype Errno = Fine | ENFILE | ENOENT

  // What a read of len bytes gives at pos.
  function Chunk(data: seq<Byte>, pos: nat, len: nat): (c: seq<Byte>)
    requires pos <= |data|
    ensures pos + |c| <= |data|
  {
    if len < |data| - pos then data[pos..pos + len] else data[pos..]
  }

  function Chunks(data: seq<Byte>, pos: nat, lens: seq<nat>): seq<Byte>
    requires pos <= |data|
    decreases |lens|
  {
    if lens == [] then []
    else Chunk(data, pos, lens[0]) + Chunks(data, pos + |Chunk(data, pos, lens[0])|, lens[1..])
  }

  function Sum(lens: seq<nat>): nat {
    if lens == [] then 0 else lens[0] + Sum(lens[1..])
  }

  /** Reading a file in chunks of any sizes gives the same bytes as reading it at once. */
  lemma {:induction false} ChunksJoin(data: seq<Byte>, pos: nat, lens: seq<nat>)
    requires pos <= |data|
    ensures Chunks(data, pos, lens) == Chunk(data, pos, Sum(lens))
    decreases |lens|
  {
    hide Chunk;
    if lens == [] {
      ChunkNone(data, pos);
    } else {
      var c := Chunk(data, pos, lens[0]);
      ChunksJoin(data, pos + |c|, lens[1..]);
      ChunkJoin(data, pos, lens[0], Sum(lens[1..]));
    }
  }

  lemma ChunkNone(data: seq<Byte>, pos: nat)
    requires pos <= |data|
    ensures Chunk(data, pos, 0) == []
  {
  }

  lemma ChunkJoin(data: seq<Byte>, pos: nat, a: nat, b: nat)
    requires pos <= |data|
    ensures Chunk(data, pos, a) + Chunk(data, pos + |Chunk(data, pos, a)|, b) == Chunk(data, pos, a + b)
  {
    if a < |data| - pos && b < |data| - pos - a {
      assert data[pos..pos + a] + data[pos + a..pos + a + b] == data[pos..pos + a + b];
    }
  }

  lemma Unsigned(x: int, size: nat)
    requires -0x8000_0000 <= x < 0x8000_0000 + 0x1_0000 && size <= 0xFFFF
    ensures x % BIT32 <= size <==> 0 <= x <= size
    ensures 0 <= x ==> x % BIT32 == x
  {
    if x < 0 { assert x % BIT32 == x + BIT32; }
  }

  lemma Slices(image: seq<Byte>, base: nat, size: nat, pos: nat, n: nat)
    requires base + size <= |image| && pos + n <= size
    ensures image[pos + base..pos + base + n] == image[base..base + size][pos..pos + n]
    ensures pos + n == size ==> image[base..base + size][pos..] == image[base..base + size][pos..pos + n]
  {
    var s := image[base..base + size];
    var u, v := image[pos + base..pos + base + n], s[pos..pos + n];
    forall i | 0 <= i < n
      ensures u[i] == v[i]
    {
      assert s[pos + i] == image[base + (pos + i)];
    }
  }

  lemma FileInside(es: seq<Entry>, f: FS)
    requires FileOK(es, f) && f.FS?
    ensures f.baseaddr + f.size <= |Image(es)| && f.offset <= f.size
    ensures AllOK(es) ==> f.size <= 0xFFFF
  {
    var k: nat :| FileOf(es, f, k);
    EntryBytes(es, k);
    if AllOK(es) { assert EntryOK(es[k]); }
  }

  lemma {:induction false} SomeClosed(fds: seq<FS>)
    requires Open(fds) < |fds|
    ensures exists k :: 0 <= k < |fds| && fds[k] == Closed
    decreases |fds|
  {
    var n := |fds| - 1;
    if fds[n].FS? {
      SomeClosed(fds[..n]);
      var k :| 0 <= k < n && fds[..n][k] == Closed;
      assert fds[k] == Closed;
    }
  }

  lemma {:induction false} AllOpen(fds: seq<FS>)
    ensures Open(fds) <= |fds| && (Open(fds) == |fds| <==> forall i :: 0 <= i < |fds| ==> fds[i].FS?)
    decreases |fds|
  {
    if fds != [] {
      var n := |fds| - 1;
      AllOpen(fds[..n]);
      assert forall i :: 0 <= i < n ==> fds[..n][i] == fds[i];
    }
  }

  lemma {:induction false} OpenMore(fds: seq<FS>, i: nat, f: FS)
    requires i < |fds| && fds[i] == Closed && f.FS?
    ensures Open(fds[i := f]) == Open(fds) + 1
    decreases |fds|
  {
    var n := |fds| - 1;
    if i < n {
      OpenMore(fds[..n], i, f);
      assert fds[i := f][..n] == fds[..n][i := f];
    } else {
      assert fds[i := f][..n] == fds[..n];
    }
  }

  lemma {:induction false} OpenSame(fds: seq<FS>, i: nat, f: FS)
    requires i < |fds| && fds[i].FS? && f.FS?
    ensures Open(fds[i := f]) == Open(fds)
    decreases |fds|
  {
    var n := |fds| - 1;
    if i < n {
      OpenSame(fds[..n], i, f);
      assert fds[i := f][..n] == fds[..n][i := f];
    } else {
      assert fds[i := f][..n] == fds[..n];
    }
  }

  // How many descriptors are in use.
  function Open(fds: seq<FS>): nat {
    if fds == [] then 0 else Open(fds[..|fds| - 1]) + if fds[|fds| - 1].FS? then 1 else 0
  }

  lemma {:induction false} NoneOpen(fds: seq<FS>)
    requires forall i :: 0 <= i < |fds| ==> fds[i] == Closed
    ensures Open(fds) == 0
    decreases |fds|
  {
    if fds != [] { NoneOpen(fds[..|fds| - 1]); }
  }

  ghost predicate FileOf(es: seq<Entry>, f: FS, k: nat) {
    f.FS? && k < |es| && f.baseaddr == DataStart(es, k) && f.size == |es[k].data| && f.offset <= f.size
  }

  ghost predicate FileOK(es: seq<Entry>, f: FS) {
    f == Closed || exists k: nat :: FileOf(es, f, k)
  }

  lemma StartFirst(es: seq<Entry>)
    ensures Start(es, 0) == 0
  {
  }

  lemma EntryNamed(es: seq<Entry>, k: nat)
    requires AllOK(es) && k <= |es|
    ensures k < |es| ==> EntryOK(es[k]) && 0 < |es[k].name| && es[k].name[0] != 0
  {
    if k < |es| { assert EntryOK(es[k]) && es[k].name[0] in es[k].name; }
  }
}
