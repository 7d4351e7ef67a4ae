/** The file system object: a one-sector write-back window over the disk, and the table behind it. */
module FatFs {
  import opened Words
  import opened FatTable
  import opened FatChain

  const SS := 512

  function Zeros(n: nat): (s: seq<Byte>)
    ensures |s| == n
  {
    if n == 0 then [] else [0] + Zeros(n - 1)
  }

  type Sector = s: seq<Byte> | |s| == SS witness Zeros(SS)

  const BLANK: Sector := Zeros(SS)

  datatype FResult = FR_OK | FR_INT_ERR

  const UNKNOWN := 0xFFFF_FFFF

  function Stored(disk: map<nat, Sector>, s: nat): Sector {
    if s in disk then disk[s] else BLANK
  }

  // The disk with the window w laid over sector k.
  function Overlaid(disk: map<nat, Sector>, k: nat, w: Sector, s: nat): Sector {
    if s == k && s != 0 then w else Stored(disk, s)
  }

  function TableBytes(disk: map<nat, Sector>, k: nat, w: Sector, base: nat, n: nat): (t: seq<Byte>)
    ensures |t| == SS * n
    ensures forall b :: 0 <= b < SS * n ==> t[b] == Overlaid(disk, k, w, base + b / SS)[b % SS]
  {
    seq(SS * n, b requires 0 <= b < SS * n => Overlaid(disk, k, w, base + b / SS)[b % SS])
  }

  ghost predicate Copied(disk: map<nat, Sector>, sf: nat, s: nat) {
    s >= sf && Stored(disk, s) == Stored(disk, s - sf)
  }

  // Each sector from lo on is the one sf before it.
  ghost predicate Mirrored(disk: map<nat, Sector>, sf: nat, lo: nat, hi: nat)
  {
    forall s: nat :: lo <= s < hi ==> Copied(disk, sf, s)
  }

  // The disk d with cc sectors from s on replaced by the bytes of b from at on.
  ghost predicate Carried(d: map<nat, Sector>, d': map<nat, Sector>, s: nat, cc: nat, b: seq<Byte>, at: nat)
    requires at + SS * cc <= |b|
  {
    forall t: nat :: Stored(d', t) == if s <= t < s + cc then b[at + SS * (t - s)..at + SS * (t - s) + SS] else Stored(d, t)
  }

  // The bytes b with cc sectors of the disk d copied over them from at on.
  ghost predicate Fetched(d: map<nat, Sector>, s: nat, cc: nat, b: seq<Byte>, b': seq<Byte>, at: nat) {
    && |b'| == |b| && at + SS * cc <= |b|
    && (forall i :: 0 <= i < at || at + SS * cc <= i < |b| ==> b'[i] == b[i])
    && (forall i :: at <= i < at + SS * cc ==> b'[i] == Stored(d, s + (i - at) / SS)[(i - at) % SS])
  }

  lemma CarriedStep(d: map<nat, Sector>, d': map<nat, Sector>, s: nat, k: nat, b: seq<Byte>, at: nat)
    requires at + SS * k + SS <= |b| && Carried(d, d', s, k, b, at)
    ensures Carried(d, d'[s + k := b[at + SS * k..at + SS * k + SS]], s, k + 1, b, at)
  {
    var e := d'[s + k := b[at + SS * k..at + SS * k + SS]];
    forall t: nat
      ensures Stored(e, t) == if s <= t < s + k + 1 then b[at + SS * (t - s)..at + SS * (t - s) + SS] else Stored(d, t)
    {
      if t == s + k { assert t - s == k; } else { assert Stored(e, t) == Stored(d', t); }
    }
  }

  // n * k, one factor at a time.
  function Times(n: nat, k: nat): nat {
    if n == 0 then 0 else Times(n - 1, k) + k
  }

  // Walking over the chain from c turns l into l'; ok when no invalid entry is met.
  ghost predicate Freed(l: seq<int>, c: int, l': seq<int>, ok: bool) {
    && c >= 2 && (forall d :: InRange(l, d) ==> l[d] >= 0)
    && FreeFrom(l, c) == (l', ok)
  }

  lemma FreedStep(l: seq<int>, c: int, l': seq<int>, ok: bool)
    requires Freed(l, c, l', ok) && InRange(l, c) && l[c] >= 2
    ensures Freed(l[c := 0], l[c], l', ok) && Used(l[c := 0]) < Used(l)
  {
    var m := l[c := 0];
    CountUpdate(l, c, 0);
    assert forall d :: InRange(m, d) ==> InRange(l, d);
  }

  lemma {:induction false} TimesLess(a: nat, b: nat, k: nat)
    requires a < b
    ensures Times(a, k) + k <= Times(b, k)
    decreases b
  {
    if a < b - 1 { TimesLess(a, b - 1, k); }
  }

  // A position is in one multiple of k only.
  lemma TimesUnique(a: nat, b: nat, k: nat, i: nat, j: nat)
    requires Times(a, k) + i == Times(b, k) + j && i < k && j < k
    ensures a == b && i == j
  {
    if a < b { TimesLess(a, b, k); }
    if b < a { TimesLess(b, a, k); }
  }

  lemma {:induction false} TimesProduct(n: nat, k: nat)
    ensures Times(n, k) == n * k
  {
    if n > 0 { TimesProduct(n - 1, k); }
  }

  lemma DivTimes(x: nat, q: nat, k: nat, r: nat)
    requires k > 0 && r < k && x == Times(q, k) + r
    ensures x / k == q && x % k == r
  {
    TimesProduct(x / k, k);
    TimesUnique(q, x / k, k, r, x % k);
  }

  class FATFS {
    // set when the volume is mounted
    const fs_type: FsType
    const csize: nat
    const n_fats: nat
    const sects_fat: nat
    const max_clust: nat
    const fatbase: nat
    const fatend: nat      // fatbase + Times(n_fats, sects_fat)
    const database: nat

    var last_clust: nat
    var free_clust: nat
    var fsi_flag: bool
    var winsect: nat
    var wflag: bool
    const win: array<Byte>
    var disk: map<nat, Sector>

    /** A volume whose copies of the table agree; clusters number two and more. */
    constructor (t: FsType, cs: nat, nf: nat, sf: nat, mc: nat, fb: nat, db: nat, d: map<nat, Sector>)
      requires nf >= 1 && fb >= 1 && cs >= 1 && 2 <= mc < Range(t) && fb + Times(nf, sf) <= db
      requires Offset(t, mc - 1) + Width(t) <= SS * sf
      requires Mirrored(d, sf, fb + sf, fb + Times(nf, sf))
      ensures Valid() && fresh(win) && disk == d && free_clust == UNKNOWN
      ensures fs_type == t && csize == cs && n_fats == nf && sects_fat == sf && max_clust == mc && fatbase == fb
      ensures database == db
    {
      fs_type, csize, n_fats, sects_fat, max_clust, fatbase, database := t, cs, nf, sf, mc, fb, db;
      fatend := fb + Times(nf, sf);
      last_clust, free_clust, fsi_flag := 0, UNKNOWN, false;
      winsect, wflag, disk := 0, false, d;
      win := new Byte[SS](i => 0);
    }

    ghost predicate Geometry()
    {
      && n_fats >= 1 && fatbase >= 1 && csize >= 1
      && 2 <= max_clust < Range(fs_type)
      && fatend == fatbase + Times(n_fats, sects_fat) && fatbase + sects_fat <= fatend <= database
      && Offset(fs_type, max_clust - 1) + Width(fs_type) <= SS * sects_fat
      && win.Length == SS
    }

    // A sector of the second or a later copy of the table.
    predicate InCopy(s: nat)
    {
      fatbase + sects_fat <= s < fatend
    }

    predicate InTable(s: nat)
    {
      fatbase <= s < fatbase + sects_fat
    }

    ghost predicate Valid()
      reads `disk, `winsect, `wflag, win
    {
      && Geometry()
      && (wflag ==> InTable(winsect) || winsect >= fatend)
      && (!wflag && winsect != 0 ==> win[..] == Stored(disk, winsect))
      && Mirrored(disk, sects_fat, fatbase + sects_fat, fatend)
    }

    /** The sector as the file system sees it. */
    ghost function View(s: nat): Sector
      requires win.Length == SS
      reads `disk, `winsect, win
    {
      Overlaid(disk, winsect, win[..], s)
    }

    ghost function Table(): seq<Byte>
      requires win.Length == SS
      reads `disk, `winsect, win
    {
      TableBytes(disk, winsect, win[..], fatbase, sects_fat)
    }

    ghost function Link(): seq<int>
      requires Geometry()
      reads `disk, `winsect, win
      ensures |Link()| == max_clust
    {
      assert Holds(fs_type, Table(), max_clust - 1);
      Links(fs_type, Table(), max_clust)
    }

    // ----- the window

    method DiskWrite(s: nat)
      requires win.Length == SS
      modifies `disk
      ensures disk == old(disk)[s := win[..]]
    {
      disk := disk[s := win[..]];
    }

    method DiskRead(s: nat, a: array<Byte>)
      requires a.Length == SS
      modifies a
      ensures a[..] == Stored(disk, s)
    {
      var d := Stored(disk, s);
      forall i | 0 <= i < SS {
        a[i] := d[i];
      }
    }

    /** move_window: the view of every sector stays, the copies of the table stay equal. */
    method MoveWindow(sector: nat)
      requires Valid()
      modifies `disk, `winsect, `wflag, win
      ensures Valid()
      ensures winsect == if sector != 0 then sector else old(winsect)
      ensures wflag <==> old(wflag) && old(winsect) == sector
      ensures forall s: nat :: s != 0 && !InCopy(s) ==> View(s) == old(View(s))
    {
      var wsect := winsect;
      if wsect != sector {
        if wflag {
          WriteBack();
        }
        if sector != 0 {
          DiskRead(sector, win);
          winsect := sector;
        }
      }
    }

    // The dirty window is written to its sector, and to the same sector of each copy.
    method WriteBack()
      requires Valid() && wflag
      modifies `disk, `wflag
      ensures Valid() && !wflag
      ensures forall s: nat :: s != 0 && !InCopy(s) ==> View(s) == old(View(s))
    {
      var wsect := winsect;
      DiskWrite(wsect);
      wflag := false;
      if wsect < fatbase + sects_fat {
        forall s: nat | InCopy(s) && s != wsect + sects_fat
          ensures Copied(disk, sects_fat, s)
        {
          assert Copied(old(disk), sects_fat, s);
        }
        WriteCopies();
      } else {
        forall s: nat | InCopy(s)
          ensures Copied(disk, sects_fat, s)
        {
          assert Copied(old(disk), sects_fat, s);
        }
      }
    }

    // Only the first copy of the window's sector is out of date; the copies are written in turn.
    method WriteCopies()
      requires Geometry() && InTable(winsect) && Stored(disk, winsect) == win[..]
      requires forall s: nat :: InCopy(s) && s != winsect + sects_fat ==> Copied(disk, sects_fat, s)
      modifies `disk
      ensures Mirrored(disk, sects_fat, fatbase + sects_fat, fatend)
      ensures forall s: nat :: !InCopy(s) ==> Stored(disk, s) == Stored(old(disk), s)
    {
      hide Zeros;
      var wsect := winsect;
      var nf := n_fats;
      while nf > 1
        invariant 1 <= nf <= n_fats
        invariant wsect + Times(nf - 1, sects_fat) == winsect + Times(n_fats - 1, sects_fat)
        invariant fatbase <= wsect && (wsect == winsect || InCopy(wsect)) && Stored(disk, wsect) == win[..]
        invariant forall s: nat :: !InCopy(s) ==> Stored(disk, s) == Stored(old(disk), s)
        invariant forall s: nat :: InCopy(s) && s != wsect + sects_fat ==> Copied(disk, sects_fat, s)
        decreases nf
      {
        wsect := wsect + sects_fat;
        assert Times(nf - 1, sects_fat) == Times(nf - 2, sects_fat) + sects_fat;
        ghost var d := disk;
        DiskWrite(wsect);
        forall s: nat | InCopy(s) && s != wsect + sects_fat
          ensures Copied(disk, sects_fat, s)
        {
          if s != wsect { assert Copied(d, sects_fat, s); }
        }
        nf := nf - 1;
      }
      assert !InCopy(wsect + sects_fat);
    }

    /** Whenever the window is clean, every copy on the disk equals the table as it is seen. */
    lemma CopiesEqual(s: nat, k: nat)
      requires Valid() && !wflag && InTable(s) && k < n_fats
      ensures Stored(disk, s + Times(k, sects_fat)) == View(s)
      decreases k
    {
      if k > 0 {
        CopiesEqual(s, k - 1);
        TimesLess(k, n_fats, sects_fat);
        assert InCopy(s + Times(k, sects_fat));
        assert Copied(disk, sects_fat, s + Times(k, sects_fat));
      }
    }

    // ----- table entries

    // Keeping the view of the table's sectors keeps the table.
    twostate lemma SameTable()
      requires Geometry()
      requires forall s: nat :: InTable(s) ==> View(s) == old(View(s))
      ensures Table() == old(Table())
    {
      forall b | 0 <= b < SS * sects_fat
        ensures Table()[b] == old(Table()[b])
      {
        assert InTable(fatbase + b / SS);
      }
    }

    twostate lemma SameLink()
      requires Geometry()
      requires forall s: nat :: InTable(s) ==> View(s) == old(View(s))
      ensures Table() == old(Table()) && Link() == old(Link())
    {
      SameTable();
    }

    // The window on the sector that holds byte b of the table.
    method Show(b: nat)
      requires Valid() && b < SS * sects_fat
      modifies `disk, `winsect, `wflag, win
      ensures Valid() && Table() == old(Table()) && Link() == old(Link())
      ensures winsect == fatbase + b / SS && InTable(winsect)
      ensures forall s: nat :: s != 0 && !InCopy(s) ==> View(s) == old(View(s))
    {
      MoveWindow(fatbase + b / SS);
      SameLink();
    }

    // win[b % SS]
    method WinByte(b: nat) returns (x: int)
      requires Valid() && b < SS * sects_fat && winsect == fatbase + b / SS
      ensures x == Table()[b]
    {
      x := win[b % SS];
      assert Table()[b] == View(fatbase + b / SS)[b % SS];
    }

    method SetByte(b: nat, x: Byte)
      requires Valid() && b < SS * sects_fat && winsect == fatbase + b / SS
      modifies `wflag, win
      ensures Valid() && Table() == old(Table())[b := x] && wflag
      ensures forall s: nat :: !InTable(s) && !InCopy(s) ==> View(s) == old(View(s))
    {
      win[b % SS] := x;
      wflag := true;
      forall c | 0 <= c < SS * sects_fat
        ensures Table()[c] == old(Table())[b := x][c]
      {
        if c / SS == b / SS && c != b { assert c % SS != b % SS; }
      }
    }

    lemma Within(clst: nat)
      requires Geometry() && clst < max_clust
      ensures Holds(fs_type, Table(), clst) && Offset(fs_type, clst) + Width(fs_type) <= SS * sects_fat
    {
    }

    /** get_fat: the entry's value, or 1 for a cluster number out of range. */
    method GetFat(clst: nat) returns (v: nat)
      requires Valid()
      modifies `disk, `winsect, `wflag, win
      ensures Valid() && Table() == old(Table()) && Link() == old(Link())
      ensures v == if InRange(Link(), clst) then Link()[clst] else 1
      ensures InRange(Link(), clst) ==> InTable(winsect)
      ensures !InRange(Link(), clst) ==> winsect == old(winsect)
      ensures forall s: nat :: s != 0 && !InCopy(s) ==> View(s) == old(View(s))
    {
      if clst < 2 || clst >= max_clust {
        return 1;
      }
      Within(clst);
      match fs_type {
        case FAT12 => v := GetFat12(clst);
        case FAT16 => v := GetFat16(clst);
        case FAT32 => v := GetFat32(clst);
      }
    }

    method GetFat12(clst: nat) returns (v: nat)
      requires Valid() && fs_type == FAT12 && Holds(FAT12, Table(), clst)
      modifies `disk, `winsect, `wflag, win
      ensures Valid() && Table() == old(Table()) && Link() == old(Link()) && v == Entry(FAT12, Table(), clst)
      ensures InTable(winsect)
      ensures forall s: nat :: s != 0 && !InCopy(s) ==> View(s) == old(View(s))
    {
      var bc := clst + clst / 2;
      Show(bc);
      var wc := WinByte(bc);
      bc := bc + 1;
      Show(bc);
      var high := WinByte(bc);
      wc := wc + 256 * high;
      v := if clst % 2 == 1 then wc / 16 else wc % 0x1000;
    }

    method GetFat16(clst: nat) returns (v: nat)
      requires Valid() && fs_type == FAT16 && Holds(FAT16, Table(), clst)
      modifies `disk, `winsect, `wflag, win
      ensures Valid() && Table() == old(Table()) && Link() == old(Link()) && v == Entry(FAT16, Table(), clst)
      ensures InTable(winsect)
      ensures forall s: nat :: s != 0 && !InCopy(s) ==> View(s) == old(View(s))
    {
      Show(2 * clst);
      SameSector16(clst);
      var low := WinByte(2 * clst);
      var high := WinByte(2 * clst + 1);
      v := low + 256 * high;
    }

    method GetFat32(clst: nat) returns (v: nat)
      requires Valid() && fs_type == FAT32 && Holds(FAT32, Table(), clst)
      modifies `disk, `winsect, `wflag, win
      ensures Valid() && Table() == old(Table()) && Link() == old(Link()) && v == Entry(FAT32, Table(), clst)
      ensures InTable(winsect)
      ensures forall s: nat :: s != 0 && !InCopy(s) ==> View(s) == old(View(s))
    {
      hide TableBytes;
      Show(4 * clst);
      SameSector(clst);
      ghost var t := Table();
      var b0 := WinByte(4 * clst);
      var b1 := WinByte(4 * clst + 1);
      var b2 := WinByte(4 * clst + 2);
      var b3 := WinByte(4 * clst + 3);
      assert b0 == At(t, 4 * clst) && b1 == At(t, 4 * clst + 1) && b2 == At(t, 4 * clst + 2)
        && b3 == At(t, 4 * clst + 3);
      v := (b0 + 0x100 * b1 + 0x1_0000 * b2 + 0x100_0000 * b3) % 0x1000_0000;
    }

    lemma SameSector(clst: nat)
      ensures (4 * clst + 1) / SS == (4 * clst + 2) / SS == (4 * clst + 3) / SS == 4 * clst / SS
    {
    }

    lemma SameSector16(clst: nat)
      ensures (2 * clst + 1) / SS == 2 * clst / SS
    {
    }

    // What changes when an entry is stored.
    twostate predicate Put(clst: nat, val: nat)
      requires Geometry() && 2 <= clst < max_clust
      reads this, win
    {
      && Valid() && wflag && InTable(winsect)
      && Table() == PutEntry(fs_type, old(Table()), clst, val)
      && forall s: nat :: s != 0 && !InTable(s) && !InCopy(s) ==> View(s) == old(View(s))
    }

    /** put_fat */
    method PutFat(clst: nat, val: nat) returns (res: FResult)
      requires Valid()
      modifies `disk, `winsect, `wflag, win
      ensures Valid() && (res == FR_OK <==> InRange(Link(), clst))
      ensures res == FR_OK ==>
        Link() == old(Link())[clst := val % Range(fs_type)] && wflag && InTable(winsect) && OnlyTable()
      ensures res == FR_INT_ERR ==> unchanged(this) && unchanged(win)
    {
      if clst < 2 || clst >= max_clust {
        return FR_INT_ERR;
      }
      Within(clst);
      match fs_type {
        case FAT12 => PutFat12(clst, val);
        case FAT16 => PutFat16(clst, val);
        case FAT32 => PutFat32(clst, val);
      }
      assert Holds(fs_type, old(Table()), max_clust - 1);
      PutLinks(fs_type, old(Table()), max_clust, clst, val);
      res := FR_OK;
    }

    method PutFat12(clst: nat, val: nat)
      requires Valid() && fs_type == FAT12 && 2 <= clst < max_clust && Holds(FAT12, Table(), clst)
      modifies `disk, `winsect, `wflag, win
      ensures Put(clst, val)
    {
      hide Table, Stored;
      var bc := clst + clst / 2;
      Show(bc);
      var p: Byte := WinByte(bc);
      ghost var t := Table();
      var x: Byte := if clst % 2 == 1 then p % 16 + (val % 16) * 16 else val % 256;
      assert x == PackedByte(FAT12, clst, val, 0, t[bc]);
      SetByte(bc, x);
      bc := bc + 1;
      Show(bc);
      p := WinByte(bc);
      x := if clst % 2 == 1 then (val / 16) % 256 else (p / 16) * 16 + (val / 256) % 16;
      assert x == PackedByte(FAT12, clst, val, 1, t[bc]);
      SetByte(bc, x);
    }

    method PutFat16(clst: nat, val: nat)
      requires Valid() && fs_type == FAT16 && 2 <= clst < max_clust && Holds(FAT16, Table(), clst)
      modifies `disk, `winsect, `wflag, win
      ensures Put(clst, val)
    {
      Show(2 * clst);
      SameSector16(clst);
      SetByte(2 * clst, val % 256);
      SetByte(2 * clst + 1, (val / 256) % 256);
    }

    method PutFat32(clst: nat, val: nat)
      requires Valid() && fs_type == FAT32 && 2 <= clst < max_clust && Holds(FAT32, Table(), clst)
      modifies `disk, `winsect, `wflag, win
      ensures Put(clst, val)
    {
      hide Table, Overlaid;
      Show(4 * clst);
      SameSector(clst);
      SetByte(4 * clst, val % 256);
      SetByte(4 * clst + 1, (val / 0x100) % 256);
      SetByte(4 * clst + 2, (val / 0x1_0000) % 256);
      SetByte(4 * clst + 3, (val / 0x100_0000) % 256);
    }

    // ----- sectors of clusters

    /** clust2sect, on words without a sign; 0 for a number that no cluster has */
    method ClustToSect(clst: nat) returns (sect: nat)
      requires Geometry() && clst < 0x1_0000_0000
      ensures sect == if 2 <= clst < max_clust then database + (clst - 2) * csize else 0
    {
      var c: nat := (clst - 2) % 0x1_0000_0000;
      if c >= max_clust - 2 {
        return 0;
      }
      sect := c * csize + database;
    }

    // ----- transfers that bypass the window

    /** disk_write of cc sectors of data: nothing the window or the table is about changes. */
    method DataWrite(s: nat, cc: nat, d: seq<Byte>, at: nat)
      requires Valid() && s >= fatend && !(s <= winsect < s + cc) && at + SS * cc <= |d|
      modifies `disk
      ensures Valid() && Link() == old(Link())
      ensures Carried(old(disk), disk, s, cc, d, at)
    {
      var k := 0;
      while k < cc
        invariant 0 <= k <= cc
        invariant Carried(old(disk), disk, s, k, d, at)
      {
        CarriedStep(old(disk), disk, s, k, d, at);
        disk := disk[s + k := d[at + SS * k..at + SS * k + SS]];
        k := k + 1;
      }
      forall t: nat | InCopy(t)
        ensures Copied(disk, sects_fat, t)
      {
        assert Copied(old(disk), sects_fat, t);
      }
      SameLink();
    }

    /** disk_read of cc sectors into a from at on. */
    method DataRead(s: nat, cc: nat, a: array<Byte>, at: nat)
      requires at + SS * cc <= a.Length && a != win
      modifies a
      ensures Fetched(disk, s, cc, old(a[..]), a[..], at)
    {
      forall j | at <= j < at + SS * cc {
        a[j] := Stored(disk, s + (j - at) / SS)[(j - at) % SS];
      }
    }

    // ----- chains

    // The end mark as an entry of this volume.
    function EndMark(): (e: nat)
      ensures e == match fs_type case FAT12 => 0xFFF case FAT16 => 0xFFFF case FAT32 => 0xFFF_FFFF
    {
      0x0FFF_FFFF % Range(fs_type)
    }

    lemma EndMarkBig()
      requires Geometry()
      ensures EndMark() >= max_clust
    {
    }

    // The count of free clusters, where it is known, is right.
    ghost predicate Counted()
      requires Geometry()
      reads `disk, `winsect, `free_clust, win
    {
      free_clust == UNKNOWN || free_clust == CountFree(Link())
    }

    // The sectors outside the table are as they were.
    twostate predicate OnlyTable()
      requires win.Length == SS
      reads `disk, `winsect, win
    {
      forall s: nat :: s != 0 && !InTable(s) && !InCopy(s) ==> View(s) == old(View(s))
    }

    lemma LinkNat()
      requires Geometry()
      ensures forall d :: InRange(Link(), d) ==> Link()[d] >= 0
    {
    }

    // One cluster given back.
    method Release(clst: nat)
      requires Valid() && Counted() && InRange(Link(), clst) && Link()[clst] != 0
      modifies `disk, `winsect, `wflag, win, `free_clust, `fsi_flag
      ensures Valid() && Counted() && OnlyTable() && Link() == old(Link())[clst := 0]
      ensures (free_clust == UNKNOWN <==> old(free_clust) == UNKNOWN) && (free_clust != UNKNOWN ==> fsi_flag)
    {
      ghost var l := Link();
      CountUpdate(l, clst, 0);
      var res := PutFat(clst, 0);
      assert Link() == l[clst := 0];
      CountBound(Link());
      if free_clust != UNKNOWN {
        free_clust := free_clust + 1;
        fsi_flag := true;
      }
    }

    /** remove_chain: whatever the table holds, the loop ends; it frees what it walks over. */
    method RemoveChain(c: nat) returns (res: FResult)
      requires Valid() && Counted()
      modifies `disk, `winsect, `wflag, win, `free_clust, `fsi_flag
      ensures Valid() && Counted() && OnlyTable()
      ensures (free_clust == UNKNOWN <==> old(free_clust) == UNKNOWN) && (Link() != old(Link()) && free_clust != UNKNOWN ==> fsi_flag)
      ensures !InRange(Link(), c) ==> res == FR_INT_ERR && Link() == old(Link())
      ensures InRange(Link(), c) ==> Freed(old(Link()), c, Link(), res == FR_OK)
    {
      var clst := c;
      if clst < 2 || clst >= max_clust {
        return FR_INT_ERR;
      }
      LinkNat();
      ghost var target := FreeFrom(Link(), c);
      while clst < max_clust
        invariant Valid() && Counted() && OnlyTable() && (free_clust == UNKNOWN <==> old(free_clust) == UNKNOWN)
        invariant Link() != old(Link()) && free_clust != UNKNOWN ==> fsi_flag
        invariant Freed(Link(), clst, target.0, target.1)
        decreases Used(Link())
      {
        ghost var l1 := Link();
        var nxt := GetFat(clst);
        if nxt == 0 {
          return FR_OK;
        }
        if nxt == 1 {
          return FR_INT_ERR;
        }
        FreedStep(l1, clst, target.0, target.1);
        Release(clst);
        clst := nxt;
      }
      res := FR_OK;
    }

    // Where the search for a free cluster starts.
    function SearchStart(clst: nat): nat
      reads `last_clust
    {
      if clst != 0 then clst
      else if last_clust == 0 || last_clust >= max_clust then 1 else last_clust
    }

    // The first free cluster behind scl, going round; 0 when there is none, 1 when an invalid
    // entry is met first.
    method FindFree(scl: nat) returns (ncl: nat)
      requires Valid() && 1 <= scl < max_clust
      modifies `disk, `winsect, `wflag, win
      ensures Valid() && Table() == old(Table()) && Link() == old(Link()) && OnlyTable()
      ensures winsect == old(winsect) || InTable(winsect)
      ensures FreeBehind(Link(), scl, ncl)
    {
      ncl := scl;
      ghost var wrapped := false;
      ghost var l := Link();
      while true
        invariant Valid() && Table() == old(Table()) && Link() == l && OnlyTable()
        invariant winsect == old(winsect) || InTable(winsect)
        invariant if wrapped then 2 <= ncl < scl else scl <= ncl < max_clust
        invariant NoneUpTo(l, scl, ncl, wrapped)
        decreases if wrapped then scl - ncl else max_clust - ncl + scl
      {
        ncl := ncl + 1;
        if ncl >= max_clust {
          ncl := 2;
          wrapped := true;
          if ncl > scl {
            return 0;
          }
        }
        assert InRange(l, ncl) && NoneUpTo(l, scl, ncl - 1, wrapped);
        var cs := GetFat(ncl);
        assert cs == l[ncl];
        if cs == 0 {
          FreeFound(l, scl, ncl, wrapped);
          return;
        }
        if cs == 1 {
          return 1;
        }
        StillNone(l, scl, ncl, wrapped);
        if ncl == scl {
          return 0;
        }
      }
    }

    /** create_chain: stretches the chain that ends in clst, or starts one for clst == 0. */
    method CreateChain(clst: nat) returns (r: nat)
      requires Valid() && Counted()
      modifies `disk, `winsect, `wflag, win, `last_clust, `free_clust, `fsi_flag
      ensures Valid() && Counted() && OnlyTable()
      ensures winsect == old(winsect) || InTable(winsect)
      ensures Created(old(Link()), clst, old(SearchStart(clst)), EndMark(), r, Link())
      ensures (free_clust == UNKNOWN <==> old(free_clust) == UNKNOWN) && (Link() != old(Link()) && free_clust != UNKNOWN ==> fsi_flag)
      ensures if Link() == old(Link()) then last_clust == old(last_clust)
        else last_clust == r && Nearest(old(Link()), if clst != 0 then clst else if old(last_clust) < max_clust then old(last_clust) else 0, r)
    {
      var scl;
      LinkNat();
      if clst == 0 {
        scl := last_clust;
        if scl == 0 || scl >= max_clust {
          scl := 1;
        }
      } else {
        var cs := GetFat(clst);
        if cs < 2 {
          return 1;
        }
        if cs < max_clust {
          return cs;
        }
        scl := clst;
      }
      var ncl := FindFree(scl);
      if ncl < 2 {
        return ncl;
      }
      Allocate(clst, ncl);
      r := ncl;
    }

    // The free cluster ncl marked as an end and linked to clst.
    method Allocate(clst: nat, ncl: nat)
      requires Valid() && Counted() && InRange(Link(), ncl) && Link()[ncl] == 0
      requires clst == 0 || (InRange(Link(), clst) && Link()[clst] >= max_clust)
      modifies `disk, `winsect, `wflag, win, `last_clust, `free_clust, `fsi_flag
      ensures Valid() && Counted() && OnlyTable() && last_clust == ncl && InTable(winsect)
      ensures (free_clust == UNKNOWN <==> old(free_clust) == UNKNOWN) && (free_clust != UNKNOWN ==> fsi_flag)
      ensures Link() == Linked(old(Link()), clst, ncl, EndMark())
    {
      ghost var l := Link();
      EndMarkBig();
      MarkUsed(ncl, 0x0FFF_FFFF, EndMark());
      if clst != 0 {
        Small(ncl);
        assert clst != ncl;
        MarkUsed(clst, ncl, ncl);
      }
      TakenOne(ncl, CountFree(l));
    }

    method TakenOne(ncl: nat, ghost n: nat)
      requires Valid() && CountFree(Link()) == n - 1 && (free_clust == UNKNOWN || free_clust == n)
      modifies `last_clust, `free_clust, `fsi_flag
      ensures Valid() && Counted() && Link() == old(Link()) && last_clust == ncl
      ensures (free_clust == UNKNOWN <==> old(free_clust) == UNKNOWN) && (free_clust != UNKNOWN ==> fsi_flag)
    {
      CountBound(Link());
      last_clust := ncl;
      if free_clust != UNKNOWN {
        free_clust := free_clust - 1;
        fsi_flag := true;
      }
    }

    // put_fat of a non-zero entry.
    method MarkUsed(c: nat, val: nat, ghost v: nat)
      requires Valid() && InRange(Link(), c) && v == val % Range(fs_type) && v != 0
      modifies `disk, `winsect, `wflag, win
      ensures Valid() && OnlyTable() && Link() == old(Link())[c := v] && InTable(winsect)
      ensures CountFree(Link()) == CountFree(old(Link())) - IfZero(old(Link())[c] == 0)
    {
      CountUpdate(Link(), c, v);
      var res := PutFat(c, val);
    }

    lemma Small(c: nat)
      requires Geometry() && c < max_clust
      ensures c % Range(fs_type) == c
    {
    }
  }

  // ----- the chains

  // ncl is the first free cluster behind scl.
  ghost predicate FreeBehind(l: seq<int>, scl: int, ncl: int) {
    if ncl == 0 then forall c :: InRange(l, c) ==> l[c] != 0
    else if ncl == 1 then exists c :: InRange(l, c) && l[c] == 1
    else InRange(l, ncl) && l[ncl] == 0 && forall c :: InRange(l, c) && Passed(scl, ncl, c) ==> l[c] != 0
  }

  /** r is the next free cluster behind s; only if there is none up to the end, the first of all. */
  ghost predicate Nearest(l: seq<int>, s: int, r: int) {
    forall c :: 2 <= c < |l| && l[c] == 0 ==> if c > s then s < r <= c else s < r || r <= c
  }

  // The clusters already looked at on the way round are in use.
  ghost predicate NoneUpTo(l: seq<int>, scl: int, ncl: int, wrapped: bool) {
    forall c :: InRange(l, c) && (if wrapped then scl < c || c <= ncl else scl < c <= ncl) ==> l[c] != 0
  }

  lemma FreeFound(l: seq<int>, scl: int, ncl: int, wrapped: bool)
    requires NoneUpTo(l, scl, ncl - 1, wrapped) && InRange(l, ncl) && l[ncl] == 0
    requires if wrapped then ncl <= scl else scl < ncl
    ensures FreeBehind(l, scl, ncl)
  {
  }

  lemma StillNone(l: seq<int>, scl: int, ncl: int, wrapped: bool)
    requires NoneUpTo(l, scl, ncl - 1, wrapped) && InRange(l, ncl) && l[ncl] != 0
    ensures NoneUpTo(l, scl, ncl, wrapped)
    ensures wrapped && ncl == scl ==> FreeBehind(l, scl, 0)
  {
  }

  function Linked(l: seq<int>, clst: int, ncl: int, e: int): seq<int>
    requires InRange(l, ncl) && (clst == 0 || InRange(l, clst))
  {
    if clst == 0 then l[ncl := e] else l[ncl := e][clst := ncl]
  }

  // What create_chain does to the table l.
  ghost predicate Created(l: seq<int>, clst: int, scl: int, e: int, r: int, l': seq<int>) {
    if clst != 0 && (!InRange(l, clst) || l[clst] < 2) then r == 1 && l' == l
    else if clst != 0 && l[clst] < |l| then r == l[clst] && l' == l
    else FreeBehind(l, scl, r) && l' == if r < 2 then l else Linked(l, clst, r, e)
  }

  /** On a table of disjoint chains create_chain lengthens the chain p that ends in clst by one
      free cluster, or makes one cluster a chain of its own; 0 means that no cluster is free. */
  lemma CreatedChains(l: seq<int>, cs: set<seq<int>>, p: seq<int>, clst: int, scl: int, e: int, r: int, l': seq<int>)
    requires Partition(l, cs) && e >= |l| && Created(l, clst, scl, e, r, l')
    requires clst == 0 || (p in cs && p[|p| - 1] == clst)
    ensures r == 0 <==> forall c :: InRange(l, c) ==> l[c] != 0
    ensures r == 0 ==> l' == l
    ensures r != 0 ==> InRange(l, r) && l[r] == 0
    ensures r != 0 ==> Partition(l', if clst == 0 then cs + {[r]} else cs - {p} + {p + [r]})
  {
    NoInvalid(l, cs);
    if clst != 0 {
      assert IsChain(l, p);
      if r != 0 { ExtendChain(l, cs, p, r, e); }
    } else if r != 0 {
      NewChain(l, cs, r, e);
    }
  }

  lemma NoInvalid(l: seq<int>, cs: set<seq<int>>)
    requires Partition(l, cs)
    ensures forall c :: InRange(l, c) ==> l[c] != 1
  {
    forall c | InRange(l, c)
      ensures l[c] != 1
    {
      if l[c] != 0 {
        var p :| p in cs && c in p;
        ChainInUse(l, p, c);
      }
    }
  }

  /** remove_chain from the head of a chain frees that chain and no other cluster. */
  lemma FreedChains(l: seq<int>, cs: set<seq<int>>, p: seq<int>, l': seq<int>, ok: bool)
    requires Partition(l, cs) && p in cs && Freed(l, p[0], l', ok)
    ensures ok && Partition(l', cs - {p})
    ensures l' == Cleared(l, p) && CountFree(l') == CountFree(l) + |p|
  {
    FreeChain(l, p);
    ClearChain(l, cs, p);
    CountCleared(l, p);
  }
}
