/** Reading, writing and moving about in an open file. */
module FatFile {
  import opened Words
  import opened FatChain
  import opened FatFs
  import opened FatImage
  import opened FatCursor
  import opened FatPlace

  datatype Status = Done | Denied

  // mem_cpy
  method MemCpy(dst: array<Byte>, at: nat, src: array<Byte>, o: nat, n: nat)
    requires dst != src && at + n <= dst.Length && o + n <= src.Length
    modifies dst
    ensures Moved(src[..], o, old(dst[..]), dst[..], at, n)
  {
    forall i | at <= i < at + n {
      dst[i] := src[o + (i - at)];
    }
  }

  // mem_cpy from the caller's data
  method CopyIn(dst: array<Byte>, at: nat, src: seq<Byte>, o: nat, n: nat)
    requires at + n <= dst.Length && o + n <= |src|
    modifies dst
    ensures Moved(src, o, old(dst[..]), dst[..], at, n)
  {
    forall i | at <= i < at + n {
      dst[i] := src[o + (i - at)];
    }
  }

  class FIL {
    const fs: FATFS
    const buf: array<Byte>
    // the mode bits of flag
    const canRead: bool
    const canWrite: bool

    var dirty: bool
    var written: bool
    var csect: nat
    var fptr: nat
    var fsize: nat
    var org_clust: nat
    var curr_clust: nat
    var dsect: nat

    // the clusters of the file, and which of them the cursor is in
    ghost var chain: seq<int>
    ghost var cix: nat

    /** A file as f_open leaves it: the cursor at the start, nothing buffered. */
    constructor (f: FATFS, readable: bool, writable: bool, org: nat, size: nat, ghost p: seq<int>)
      requires f.Valid() && f.Counted() && ClusterSize(f.csize) && DataFits(f.max_clust, f.csize, f.database)
      requires Heads(f.Link(), org, p) && WindowApart(f.Link(), p, f.winsect, f.csize, f.database)
      requires size < BIT32 && size <= SS * Times(|p|, f.csize)
      ensures fs == f && canRead == readable && canWrite == writable && fresh(buf)
      ensures Good() && Valid(S()) && S().chain == p && S().fptr == 0
      ensures Content(S()) == ContentOf(f.disk, Sectors(p, f.csize, f.database), size)
    {
      fs, canRead, canWrite, org_clust, fsize, chain := f, readable, writable, org, size, p;
      dirty, written, csect, fptr, curr_clust, dsect, cix := false, false, 255, 0, 0, 0, 0;
      buf := new Byte[SS](i => 0);
      new;
      AtStart(S());
    }

    ghost predicate Good()
      reads fs`disk, fs`winsect, fs`wflag, fs`free_clust, fs.win
    {
      buf.Length == SS && buf != fs.win && fs.Valid() && fs.Counted()
    }

    ghost function S(): State
      requires buf.Length == SS && fs.Geometry()
      reads this, buf, fs`disk, fs`winsect, fs.win
    {
      State(fs.csize, fs.database, fs.fatbase, fs.fatend, fs.Link(), fs.disk, fs.winsect, fs.win[..],
            org_clust, chain, fsize, dirty, dsect, buf[..], fptr, csect, curr_clust, cix)
    }

    // ----- single steps

    /** Writes a dirty buffer back. */
    method Flush()
      requires Good() && Sound(S())
      modifies `dirty, fs`disk
      ensures Good() && Sound(S()) && Quiet(old(S()), S())
      ensures S() == old(S()).(dirty := false, disk := fs.disk)
    {
      ghost var s := S();
      if dirty {
        BufferedWhere(s);
        fs.DataWrite(dsect, 1, buf[..], 0);
        dirty := false;
        Flushed(s, S());
      } else {
        QuietOnce(s, s);
      }
    }

    // get_fat of the cluster the cursor is in.
    method LinkOf() returns (clst: nat)
      requires Good() && Sound(S()) && cix < |chain| && curr_clust == chain[cix]
      modifies fs`disk, fs`winsect, fs`wflag, fs.win
      ensures Good() && Sound(S()) && Quiet(old(S()), S()) && Touched(old(S()), S())
      ensures InRange(fs.Link(), curr_clust) && clst == fs.Link()[curr_clust]
    {
      ghost var s := S();
      CurrInUse(s);
      clst := fs.GetFat(curr_clust);
      Touches();
      Looked(s, S());
    }

    twostate lemma Touches()
      requires buf.Length == SS && fs.Geometry() && fs.OnlyTable() && unchanged(this, buf)
      requires fs.winsect == old(fs.winsect) || fs.InTable(fs.winsect)
      ensures Touched(old(S()), S())
    {
      var s, t := old(S()), S();
      forall x: nat | x != 0 && !(s.lo <= x < s.hi)
        ensures View(t, x) == View(s, x)
      {
        assert fs.View(x) == old(fs.View(x));
      }
    }

    // The cursor moves to the start of cluster i of the file.
    method Enter(clst: nat, ghost i: nat)
      requires Good() && Sound(S()) && i < |chain| && clst == chain[i] && fptr % SS == 0
      requires Times(i, fs.csize) == fptr / SS
      modifies `csect, `curr_clust, `cix
      ensures Good() && Sound(S()) && Quiet(old(S()), S()) && Before(S()) && fptr == old(fptr)
    {
      hide Sound, Quiet, Before, Within, Placed, Secs, FATFS.Link, FATFS.Counted;
      ghost var s := S();
      curr_clust := clst;
      csect := 0;
      cix := i;
      Entered(s, S(), i);
    }

    // The cursor moves on by n bytes in its sector.
    method Advance(n: nat)
      requires Good() && Sound(S()) && Within(S()) && 0 < n && fptr % SS + n <= SS
      modifies `fptr
      ensures Good() && Sound(S()) && Quiet(old(S()), S()) && Placed(S()) && fptr == old(fptr) + n
    {
      hide Sound, Quiet, Before, Within, Placed, Secs, FATFS.Link, FATFS.Counted;
      ghost var s := S();
      fptr := fptr + n;
      Advanced(s, S(), n);
    }

    // ... or over n sectors of its cluster.
    method Pass(n: nat)
      requires Good() && Sound(S()) && Before(S()) && 0 < n <= fs.csize - csect
      modifies `fptr, `csect
      ensures Good() && Sound(S()) && Quiet(old(S()), S()) && Placed(S()) && fptr == old(fptr) + SS * n
    {
      hide Sound, Quiet, Before, Within, Placed, Secs, FATFS.Link, FATFS.Counted;
      ghost var s := S();
      csect := csect + n;
      fptr := fptr + SS * n;
      PassedOver(s, S(), n);
    }

    // clust2sect of the cursor's cluster
    method FirstSector() returns (sect: nat)
      requires Good() && InRange(fs.Link(), curr_clust)
      ensures sect == Base(curr_clust, fs.csize, fs.database)
    {
      hide FATFS.Link, FATFS.Counted;
      sect := fs.ClustToSect(curr_clust);
      InCluster(curr_clust, fs.csize, fs.database);
    }

    // ... and the cursor's sector in there.
    method Here() returns (sect: nat)
      requires Good() && Sound(S()) && Before(S())
      ensures sect == Sect(S())
    {
      hide IsChain, CountFree, Base;
      CurrInUse(S());
      var base := FirstSector();
      sect := base + csect;
    }

    // ----- reading

    /** The cluster for the next sector to be read. */
    method Follow()
      requires Good() && Sound(S()) && Placed(S()) && fptr % SS == 0 && fptr < SS * |Secs(S())|
      modifies `csect, `curr_clust, `cix, fs`disk, fs`winsect, fs`wflag, fs.win
      ensures Good() && Sound(S()) && Quiet(old(S()), S()) && Before(S()) && fptr == old(fptr)
    {
      ghost var s := S();
      if csect >= fs.csize {
        if fptr == 0 {
          assert |chain| > 0;
          Enter(org_clust, 0);
        } else {
          NotLast(s.link, chain, fs.csize, cix, fptr);
          var clst := LinkOf();
          ghost var t := S();
          Enter(clst, cix + 1);
          QuietTwice(s, t, S());
        }
      } else {
        QuietOnce(s, s);
      }
    }

    /** cc sectors straight from the disk, the buffered one from the buffer when that is dirty. */
    method ReadDirect(buff: array<Byte>, at: nat, cc: nat)
      requires Good() && Sound(S()) && Before(S()) && 0 < cc <= fs.csize - csect
      requires at + SS * cc <= buff.Length && buff != buf && buff != fs.win
      modifies buff
      ensures Good() && S() == old(S())
      ensures Got(Img(S()), Secs(S()), fptr, SS * cc, old(buff[..]), buff[..], at)
    {
      hide Sound, Before, Fetched, Moved, Got, Secs;
      var sect := Here();
      ghost var s, b := S(), buff[..];
      fs.DataRead(sect, cc, buff, at);
      ghost var b' := buff[..];
      if dirty && Minus32(dsect, sect) < cc {
        DirectPlace(s, cc);
        MemCpy(buff, at + SS * (dsect - sect), buf, 0, SS);
      }
      assert S() == s;
      GotRow(s, cc, b, b', buff[..], at);
    }

    // Whole sectors of this cluster.
    method Direct(buff: array<Byte>, at: nat, btr: nat) returns (rcnt: nat)
      requires Good() && Sound(S()) && Before(S()) && SS <= btr && at + btr <= buff.Length && buff != buf
      requires buff != fs.win
      modifies `fptr, `csect, buff
      ensures Good() && Sound(S()) && Placed(S()) && SS <= rcnt <= btr
      ensures ReadStep(old(S()), S(), rcnt, old(buff[..]), buff[..], at)
    {
      hide FATFS.Link, FATFS.Counted;
      var cc := btr / SS;
      if csect + cc > fs.csize {
        cc := fs.csize - csect;
      }
      ReadDirect(buff, at, cc);
      rcnt := SS * cc;
      Pass(cc);
    }

    // The rest of the buffered sector, or as much of it as is asked for.
    method Partial(buff: array<Byte>, at: nat, btr: nat) returns (rcnt: nat)
      requires Good() && Sound(S()) && Within(S()) && 0 < btr && at + btr <= buff.Length && buff != buf
      requires buff != fs.win
      modifies `fptr, buff
      ensures Good() && Sound(S()) && Placed(S()) && 0 < rcnt <= btr
      ensures ReadStep(old(S()), S(), rcnt, old(buff[..]), buff[..], at)
    {
      hide Sound, InRange;
      rcnt := SS - fptr % SS;
      if rcnt > btr {
        rcnt := btr;
      }
      Pick(buff, at, rcnt);
      Advance(rcnt);
    }

    method Pick(buff: array<Byte>, at: nat, cnt: nat)
      requires Good() && Sound(S()) && Within(S()) && fptr % SS + cnt <= SS && at + cnt <= buff.Length && buff != buf
      requires buff != fs.win
      modifies buff
      ensures Good() && S() == old(S())
      ensures Got(Img(S()), Secs(S()), fptr, cnt, old(buff[..]), buff[..], at)
    {
      ghost var s, b := S(), buff[..];
      MemCpy(buff, at, buf, fptr % SS, cnt);
      assert S() == s;
      GotPart(s, cnt, b, buff[..], at);
    }

    /** The sector of the cursor comes into the buffer. */
    method Load()
      requires Good() && Sound(S()) && Before(S())
      modifies `dirty, `dsect, `csect, buf, fs`disk
      ensures Good() && Sound(S()) && Within(S()) && Quiet(old(S()), S()) && fptr == old(fptr)
    {
      hide Sound, Before, Within, Quiet, FATFS.Counted, FATFS.Link, Zeros;
      ghost var s := S();
      var sect := Here();
      Flush();
      ghost var t := S();
      StillBefore(s, t);
      if dsect != sect {
        fs.DiskRead(sect, buf);
      } else {
        AlreadyLoaded(t);
      }
      dsect := sect;
      csect := csect + 1;
      Loaded(t, S());
      QuietTwice(s, t, S());
    }

    // Some bytes from the cursor on come to buff.
    method ReadSome(buff: array<Byte>, at: nat, btr: nat) returns (rcnt: nat)
      requires Good() && Valid(S()) && 0 < btr <= fsize - fptr && at + btr <= buff.Length && buff != buf
      requires buff != fs.win
      modifies `dirty, `dsect, `fptr, `csect, `curr_clust, `cix, buf, buff, fs`disk, fs`winsect, fs`wflag, fs.win
      ensures Good() && Valid(S()) && 0 < rcnt <= btr
      ensures ReadStep(old(S()), S(), rcnt, old(buff[..]), buff[..], at)
    {
      hide Sound, Before, Within, Placed, Harmless, Secs, Got;
      ghost var s, b := S(), buff[..];
      QuietOnce(s, s);
      ghost var t := s;
      if fptr % SS == 0 {
        Follow();
        t := S();
        if btr / SS > 0 {
          rcnt := Direct(buff, at, btr);
        } else {
          Load();
          QuietTwice(s, t, S());
          t := S();
          rcnt := Partial(buff, at, btr);
        }
      } else {
        MidSector(s);
        rcnt := Partial(buff, at, btr);
      }
      ReadLater(s, t, S(), rcnt, b, buff[..], at);
      ReadValid(s, S(), rcnt, b, buff[..], at);
    }

    method ReadAll(buff: array<Byte>, n: nat) returns (br: nat)
      requires Good() && Valid(S()) && n <= fsize - fptr && n <= buff.Length && buff != buf && buff != fs.win
      modifies `dirty, `dsect, `fptr, `csect, `curr_clust, `cix, buf, buff, fs`disk, fs`winsect, fs`wflag, fs.win
      ensures Good() && Valid(S()) && br == n && Delivered(old(S()), S(), n, old(buff[..]), buff[..])
    {
      hide Valid, Delivered, ReadStep;
      ghost var s, b := S(), buff[..];
      DeliveredNothing(s, b);
      br := 0;
      var btr := n;
      while btr > 0
        invariant Good() && Valid(S()) && Delivered(s, S(), br, b, buff[..])
        invariant br + btr == n
        decreases btr
      {
        ghost var t, b' := S(), buff[..];
        DeliveredPlace(s, t, br, b, b');
        var rcnt := ReadSome(buff, br, btr);
        ReadOn(s, t, S(), br, rcnt, b, b', buff[..]);
        br := br + rcnt;
        btr := btr - rcnt;
      }
    }

    /** f_read: the bytes from the cursor on, as many as there are. */
    method Read(buff: array<Byte>, n: nat) returns (res: Status, br: nat)
      requires Good() && Valid(S()) && n <= buff.Length && buff != buf && buff != fs.win
      modifies `dirty, `dsect, `fptr, `csect, `curr_clust, `cix, buf, buff, fs`disk, fs`winsect, fs`wflag, fs.win
      ensures Good() && Valid(S()) && Delivered(old(S()), S(), br, old(buff[..]), buff[..])
      ensures !canRead ==> res == Denied && br == 0
      ensures canRead ==> res == Done && br == Min(n, fsize - old(fptr))
      ensures br <= buff.Length && Lies(S(), old(fptr), buff[..br])
    {
      hide Delivered, Lies, Sound, Placed;
      ghost var s := S();
      if !canRead {
        DeliveredNothing(S(), buff[..]);
        DeliveredLies(s, s, 0, buff[..], buff[..]);
        return Denied, 0;
      }
      var remain := fsize - fptr;
      br := ReadAll(buff, if n > remain then remain else n);
      DeliveredLies(s, S(), br, old(buff[..]), buff[..]);
      res := Done;
    }

    // ----- stretching the chain

    // create_chain behind the cluster the cursor is in.
    method Stretch() returns (clst: nat)
      requires Good() && Sound(S()) && cix < |chain| && curr_clust == chain[cix]
      modifies `chain, fs`disk, fs`winsect, fs`wflag, fs`last_clust, fs`free_clust, fs`fsi_flag, fs.win
      ensures Good() && Sound(S()) && Kept(old(S()), S())
      ensures clst == 0 ==> NoneLeft(S().link) && chain == old(chain) && cix + 1 == |chain|
      ensures clst != 0 ==> old(chain) <= chain && cix + 1 < |chain| && clst == chain[cix + 1]
    {
      hide Kept, Sound, Touched, Grown, Heads, NoneLeft;
      ghost var s := S();
      clst := NextCluster();
      chain := Stretched(chain, cix, clst);
      Lengthened(s, S(), cix, clst);
    }

    // Only the table changes: the chain goes on behind the current cluster, or there is none.
    method NextCluster() returns (clst: nat)
      requires Good() && Sound(S()) && cix < |chain| && curr_clust == chain[cix]
      modifies fs`disk, fs`winsect, fs`wflag, fs`last_clust, fs`free_clust, fs`fsi_flag, fs.win
      ensures Good() && Touched(old(S()), S())
      ensures Grown(old(S()).link, chain, S().link, Stretched(chain, cix, clst)) && Heads(S().link, org_clust, Stretched(chain, cix, clst))
      ensures forall c :: InRange(S().link, c) && S().link[c] == 0 ==> old(S()).link[c] == 0 || c in chain
      ensures clst == 0 ==> NoneLeft(S().link) && cix + 1 == |chain|
      ensures clst != 0 ==> cix + 1 < |Stretched(chain, cix, clst)| && clst == Stretched(chain, cix, clst)[cix + 1]
    {
      hide Kept, Sound, Touched, FATFS.Counted, ClusterSize, IsChain, Nearest, Created, FreeBehind, Overlaid;
      ghost var s, l, scl := S(), fs.Link(), fs.SearchStart(curr_clust);
      HeadsOf(s);
      CurrInUse(s);
      clst := fs.CreateChain(curr_clust);
      fs.EndMarkBig();
      StretchChain(l, org_clust, chain, cix, scl, fs.EndMark(), clst, fs.Link());
      Touches();
    }

    // create_chain for a file without clusters.
    method Start()
      requires Good() && Sound(S()) && org_clust == 0
      modifies `chain, `org_clust, fs`disk, fs`winsect, fs`wflag, fs`last_clust, fs`free_clust, fs`fsi_flag, fs.win
      ensures Good() && Sound(S()) && Kept(old(S()), S())
      ensures if org_clust == 0 then NoneLeft(S().link) && chain == old(chain) else chain == [org_clust]
    {
      ghost var s, l, scl := S(), fs.Link(), fs.SearchStart(0);
      var clst := fs.CreateChain(0);
      fs.EndMarkBig();
      StartChain(l, scl, fs.EndMark(), clst, fs.Link());
      Touches();
      org_clust := clst;
      chain := Stretched([], -1, clst);
      Lengthened(s, S(), -1, clst);
    }

    // ----- writing

    /** The cluster for the next sector to be written; not ok when none is left. */
    method Reach() returns (ok: bool)
      requires Good() && Sound(S()) && Placed(S()) && fptr % SS == 0
      modifies `chain, `org_clust, `csect, `curr_clust, `cix
      modifies fs`disk, fs`winsect, fs`wflag, fs`last_clust, fs`free_clust, fs`fsi_flag, fs.win
      ensures Good() && Sound(S()) && Kept(old(S()), S()) && fptr == old(fptr)
      ensures if ok then Before(S()) else Exhausted(S()) && Placed(S())
    {
      hide Sound, Before, Placed, Quiet, Kept, FATFS.Link, FATFS.Counted, NoneLeft, Exhausted, Secs;
      ghost var s := S();
      QuietOnce(s, s);
      QuietKept(s, s);
      if csect >= fs.csize {
        var clst;
        ghost var i;
        ghost var t := s;
        if fptr == 0 {
          i := 0;
          if org_clust == 0 {
            EmptyChain(s);
            Start();
            t := S();
          }
          clst := org_clust;
          if clst != 0 {
            FirstCluster(t);
          }
        } else {
          AtEnd(s);
          i := cix + 1;
          clst := Stretch();
          t := S();
        }
        if clst == 0 {
          StillPlaced(s, t);
          NoFurther(s, t);
          return false;
        }
        Enter(clst, i);
        QuietKept(t, S());
        KeptTwice(s, t, S());
      } else {
        NotAtEnd(s);
      }
      ok := true;
    }

    // cc sectors straight to the disk; a buffered one among them is refilled.
    method WriteDirect(data: seq<Byte>, at: nat, cc: nat, ghost s: State)
      requires Good() && Writing(s, S(), data, at) && Before(S()) && !dirty
      requires 0 < cc <= fs.csize - csect && at + SS * cc <= |data|
      modifies `csect, `fptr, `dirty, buf, fs`disk
      ensures Good() && Writing(s, S(), data, at + SS * cc) && Placed(S())
    {
      hide Sound, Writing, Placed, Carried, Moved, Secs, FATFS.Link, Overlaid, Before;
      ghost var t := S();
      WritingPlace(s, t, data, at);
      var sect := Here();
      Ahead(t);
      BufferedWhere(t);
      Wrap(dsect, sect, cc);
      fs.DataWrite(sect, cc, data, at);
      ghost var b := buf[..];
      if Minus32(dsect, sect) < cc {
        CopyIn(buf, 0, data, at + SS * (dsect - sect), SS);
        dirty := false;
        Replaced(data, at + SS * (dsect - sect), b, buf[..]);
      }
      csect := csect + cc;
      fptr := fptr + SS * cc;
      DirectWriting(s, t, S(), data, at, cc);
    }

    // Whole sectors in this cluster.
    method PutDirect(data: seq<Byte>, at: nat, ghost s: State) returns (wcnt: nat)
      requires Good() && Writing(s, S(), data, at) && Before(S()) && !dirty && at + SS <= |data|
      modifies `csect, `fptr, `dirty, buf, fs`disk
      ensures Good() && Placed(S()) && 0 < wcnt <= |data| - at && Writing(s, S(), data, at + wcnt)
    {
      hide Writing, Placed, Sound;
      var cc := (|data| - at) / SS;
      if csect + cc > fs.csize {
        cc := fs.csize - csect;
      }
      WriteDirect(data, at, cc, s);
      wcnt := SS * cc;
    }

    // The sector of the cursor becomes the buffered one.
    method Prime(data: seq<Byte>, at: nat, ghost s: State)
      requires Good() && Writing(s, S(), data, at) && Before(S()) && !dirty
      modifies `csect, `dsect, buf
      ensures Good() && AlmostWriting(s, S(), data, at) && Fillable(S())
    {
      hide Writing, AlmostWriting, Fillable, Before, Sound;
      ghost var t := S();
      WritingPlace(s, t, data, at);
      var sect := Here();
      if dsect != sect {
        if fptr < fsize {
          fs.DiskRead(sect, buf);
        }
      }
      dsect := sect;
      csect := csect + 1;
      PrimedWriting(s, t, S(), data, at);
    }

    // The rest of the buffered sector, or as much of it as there is data for.
    method PutPart(data: seq<Byte>, at: nat, ghost s: State) returns (wcnt: nat)
      requires Good() && AlmostWriting(s, S(), data, at) && Fillable(S()) && at < |data|
      modifies `fptr, `dirty, buf
      ensures Good() && Placed(S()) && 0 < wcnt <= |data| - at && Writing(s, S(), data, at + wcnt)
    {
      hide Fillable, AlmostWriting, Placed, Writing;
      wcnt := SS - fptr % SS;
      if wcnt > |data| - at {
        wcnt := |data| - at;
      }
      ghost var t := S();
      CopyIn(buf, fptr % SS, data, at, wcnt);
      dirty := true;
      fptr := fptr + wcnt;
      PutWriting(s, t, S(), data, at, wcnt);
    }

    // Some of the data behind the cursor; none when no cluster is left.
    method WriteSome(data: seq<Byte>, at: nat, ghost s: State) returns (wcnt: nat)
      requires Good() && Writing(s, S(), data, at) && Placed(S()) && at < |data|
      modifies `chain, `org_clust, `csect, `curr_clust, `cix, `fptr, `dirty, `dsect, buf
      modifies fs`disk, fs`winsect, fs`wflag, fs`last_clust, fs`free_clust, fs`fsi_flag, fs.win
      ensures Good() && Placed(S()) && wcnt <= |data| - at && Writing(s, S(), data, at + wcnt)
      ensures wcnt == 0 ==> Exhausted(S())
    {
      hide Writing, AlmostWriting, Fillable, Sound, Placed, Before, Within, Kept, Quiet, Exhausted;
      ghost var t := S();
      WritingPlace(s, t, data, at);
      if fptr % SS == 0 {
        var ok := Reach();
        KeptWriting(s, t, S(), data, at);
        if !ok {
          return 0;
        }
        t := S();
        Flush();
        StillBefore(t, S());
        QuietKept(t, S());
        KeptWriting(s, t, S(), data, at);
        if (|data| - at) / SS > 0 {
          wcnt := PutDirect(data, at, s);
          return;
        }
        Prime(data, at, s);
      } else {
        MidSector(t);
        WithinFillable(t);
        WritingAlmost(s, t, data, at);
      }
      wcnt := PutPart(data, at, s);
    }

    method WriteAll(data: seq<Byte>, ghost s: State) returns (bw: nat)
      requires Good() && Valid(S()) && S() == s
      modifies `chain, `org_clust, `csect, `curr_clust, `cix, `fptr, `dirty, `dsect, buf
      modifies fs`disk, fs`winsect, fs`wflag, fs`last_clust, fs`free_clust, fs`fsi_flag, fs.win
      ensures Good() && Placed(S()) && bw <= |data| && Writing(s, S(), data, bw)
      ensures bw < |data| ==> Exhausted(S())
    {
      hide Writing, Sound, Valid, Placed, Exhausted;
      NothingWritten(s, data);
      bw := 0;
      while bw < |data|
        invariant Good() && Placed(S()) && bw <= |data| && Writing(s, S(), data, bw)
        decreases |data| - bw
      {
        var wcnt := WriteSome(data, bw, s);
        if wcnt == 0 {
          break;
        }
        bw := bw + wcnt;
      }
    }

    /** f_write: the data at the cursor; it is cut short only at the end of the last cluster, when no other
        one is left. */
    method Write(data: seq<Byte>) returns (res: Status, bw: nat)
      requires Good() && Valid(S()) && |data| < BIT32
      modifies `written, `fsize, `chain, `org_clust, `csect, `curr_clust, `cix, `fptr, `dirty, `dsect, buf
      modifies fs`disk, fs`winsect, fs`wflag, fs`last_clust, fs`free_clust, fs`fsi_flag, fs.win
      ensures Good() && Valid(S())
      ensures !canWrite ==> res == Denied && bw == 0 && S() == old(S())
      ensures canWrite ==> res == Done && written && Wrote(old(S()), S(), data, bw)
      ensures canWrite && old(fsize) + |data| < BIT32 && bw < |data| ==> Exhausted(S())
      ensures old(fsize) + |data| >= BIT32 ==> bw == 0
      ensures bw <= |data| && (canWrite ==> Lies(S(), old(fptr), data[..bw]))
    {
      hide Writing, Wrote, Sound, Valid, Exhausted, Placed, Lies;
      ghost var s := S();
      if !canWrite {
        return Denied, 0;
      }
      NothingWritten(s, data);
      // The size of a file is below 4 GB: the sum is taken modulo that.
      bw := 0;
      if (fsize + |data|) % BIT32 >= fsize {
        bw := WriteAll(data, s);
      }
      ghost var t := S();
      WritingPlace(s, t, data, bw);
      if fptr > fsize {
        fsize := fptr;
      }
      written := true;
      WriteDone(s, t, S(), data, bw);
      StillExhausted(t, S());
      ValidParts(S());
      WroteLies(s, S(), data, bw);
      res := Done;
    }

    // ----- seeking

    // The cluster to start from: the one of the cursor, or the first one.
    method SeekFrom(ifptr: nat, ofs: nat, ghost s: State) returns (clst: nat)
      requires Good() && Valid(s) && S() == s.(fptr := 0, csect := 255) && ifptr == s.fptr && ofs > 0
      modifies `chain, `org_clust, `curr_clust, `cix, `fptr
      modifies fs`disk, fs`winsect, fs`wflag, fs`last_clust, fs`free_clust, fs`fsi_flag, fs.win
      ensures Good() && Sound(S()) && Kept(s, S()) && csect == 255 && fptr < ofs
      ensures clst != 0 ==> AtCluster(S()) && clst == curr_clust
      ensures clst == 0 ==> fptr == 0 && Exhausted(S()) && s.fsize == 0
    {
      hide Sound, Kept, Placed, Quiet, Valid, Secs, FATFS.Counted, FATFS.Link, NoneLeft, Exhausted;
      ValidParts(s);
      QuietOnce(s, s);
      QuietKept(s, s);
      CursorKept(s, s, S());
      var bcs := fs.csize * SS;
      if ifptr > 0 && (ofs - 1) / bcs >= (ifptr - 1) / bcs {
        RoundedDown(s, ofs);
        PlacedIn(s);
        MaskRounds(ifptr - 1, fs.csize);
        // (ifptr - 1) & ~(bcs - 1)
        fptr := BitAnd(ifptr - 1, BIT32 - bcs);
        clst := curr_clust;
        CursorKept(s, s, S());
        CurrInUse(s);
      } else {
        ghost var t := S();
        if org_clust == 0 {
          NoClusters(s);
          Start();
          KeptTwice(s, t, S());
        }
        clst := org_clust;
        t := S();
        if clst != 0 {
          FirstCluster(t);
        }
        curr_clust := clst;
        cix := 0;
        CursorKept(s, t, S());
        if clst == 0 { NoSectors(S()); }
      }
    }

    // The next cluster on the way; a file that is being written gets one.
    method Onward() returns (clst: nat)
      requires Good() && Sound(S()) && cix < |chain| && curr_clust == chain[cix]
      requires !canWrite ==> cix + 1 < |chain| && S().link[curr_clust] == chain[cix + 1]
      modifies `chain, fs`disk, fs`winsect, fs`wflag, fs`last_clust, fs`free_clust, fs`fsi_flag, fs.win
      ensures Good() && Sound(S()) && Kept(old(S()), S()) && old(chain) <= chain
      ensures clst != 0 ==> cix + 1 < |chain| && clst == chain[cix + 1]
      ensures clst == 0 ==> canWrite && NoneLeft(S().link) && cix + 1 == |chain|
    {
      if canWrite {
        clst := Stretch();
      } else {
        ghost var s := S();
        clst := LinkOf();
        QuietKept(s, S());
      }
    }

    // From cluster to cluster until the place is in the one reached; ofs is what is left to go.
    method Walk(ofs: nat, ghost s: State) returns (rest: nat)
      requires Good() && Sound(S()) && Kept(s, S()) && AtCluster(S()) && csect == 255 && 0 < ofs
      requires s.fsize <= SS * |Secs(s)|
      requires canWrite || fptr + ofs <= s.fsize
      modifies `chain, `curr_clust, `cix, `fptr
      modifies fs`disk, fs`winsect, fs`wflag, fs`last_clust, fs`free_clust, fs`fsi_flag, fs.win
      ensures Good() && Sound(S()) && Kept(s, S()) && AtCluster(S()) && csect == 255
      ensures 0 < rest <= SS * fs.csize && fptr + rest <= old(fptr) + ofs
      ensures fptr + rest < old(fptr) + ofs ==> canWrite && NoneLeft(S().link) && s.fsize <= fptr + rest == SS * |Secs(S())|
    {
      hide Sound, Kept, AtCluster, Secs, NoneLeft, FATFS.Counted, FATFS.Link;
      var bcs := fs.csize * SS;
      rest := ofs;
      while rest > bcs
        invariant Good() && Sound(S()) && Kept(s, S()) && AtCluster(S()) && csect == 255
        invariant 0 < rest && fptr + rest == old(fptr) + ofs
        decreases rest
      {
        ghost var t := S();
        KeptSize(s, t);
        AtClusterIn(t);
        if !canWrite {
          NextThere(t, rest);
        }
        var clst := Onward();
        ghost var u := S();
        KeptTwice(s, t, u);
        OneCluster(t);
        if clst == 0 {
          StillAtCluster(t, u);
          LastCluster(u);
          KeptSize(s, u);
          rest := bcs;
          break;
        }
        curr_clust := clst;
        fptr := fptr + bcs;
        cix := cix + 1;
        CursorKept(s, u, S());
        AtNext(t, S());
        rest := rest - bcs;
      }
    }

    // The cursor in the cluster reached; the sector it needs in the buffer, or 0.
    method Aim(rest: nat, ghost s: State) returns (nsect: nat)
      requires Good() && Sound(S()) && Kept(s, S()) && AtCluster(S()) && 0 < rest <= SS * fs.csize
      modifies `fptr, `csect
      ensures Good() && Sound(S()) && Kept(s, S()) && Aimed(S()) && fptr == old(fptr) + rest
      ensures Secs(S()) == Secs(old(S())) && S().link == old(S()).link
      ensures nsect == if fptr % SS != 0 then Base(curr_clust, fs.csize, fs.database) + csect - 1 else 0
    {
      hide Sound, Kept, Aimed, AtCluster, FATFS.Link, FATFS.Counted, Sectors, Base;
      ghost var t := S();
      AtClusterIn(t);
      AtClusterUsed(t);
      nsect := 0;
      fptr := fptr + rest;
      csect := rest / SS;
      if rest % SS != 0 {
        nsect := FirstSector();
        nsect := nsect + csect;
        csect := csect + 1;
      }
      Aims(t, S(), rest);
      CursorKept(s, t, S());
    }

    // Another sector of the file becomes the buffered one.
    method Swap(nsect: nat)
      requires Good() && Sound(S()) && nsect in Secs(S())
      modifies `dirty, `dsect, buf, fs`disk
      ensures Good() && Sound(S()) && Quiet(old(S()), S())
      ensures S() == old(S()).(dirty := false, disk := fs.disk, dsect := nsect, buf := buf[..]) && buf[..] == Stored(fs.disk, nsect)
    {
      hide Sound, Quiet, FATFS.Link, FATFS.Counted;
      ghost var t := S();
      Flush();
      ghost var u := S();
      fs.DiskRead(nsect, buf);
      dsect := nsect;
      Fetches(u, S(), nsect);
      QuietTwice(t, u, S());
    }

    // The sector of the cursor into the buffer, when the cursor is not at the start of one.
    method Settle(nsect: nat, ghost s: State)
      requires Good() && Sound(S()) && Kept(s, S()) && (if fptr == 0 then csect == 255 else Aimed(S()))
      requires nsect == if fptr % SS != 0 then Base(curr_clust, fs.csize, fs.database) + csect - 1 else 0
      modifies `dirty, `dsect, buf, fs`disk
      ensures Good() && Sound(S()) && Kept(s, S()) && Placed(S()) && S().link == old(S().link) && Secs(S()) == Secs(old(S()))
      ensures fptr <= SS * |Secs(S())|
    {
      hide FATFS.InTable, Sound, Kept, Aimed, Placed, Quiet, FATFS.Link, FATFS.Counted;
      ghost var t := S();
      if fptr % SS != 0 && nsect != dsect {
        AimedSector(t);
        Swap(nsect);
        QuietKept(t, S());
        KeptTwice(s, t, S());
      }
      StillAimed(t, S());
      if fptr == 0 {
        StartPlaced(S());
      } else {
        AimedPlaced(S());
        AimedBytes(S());
      }
    }

    // From the start to the place, as far as there are clusters.
    method Approach(ifptr: nat, ofs: nat, ghost s: State) returns (nsect: nat)
      requires Good() && Valid(s) && S() == s.(fptr := 0, csect := 255) && ifptr == s.fptr
      requires (canWrite || ofs <= s.fsize)
      modifies `chain, `org_clust, `csect, `curr_clust, `cix, `fptr
      modifies fs`disk, fs`winsect, fs`wflag, fs`last_clust, fs`free_clust, fs`fsi_flag, fs.win
      ensures Good() && Sound(S()) && Kept(s, S()) && (if fptr == 0 then csect == 255 else Aimed(S()))
      ensures nsect == if fptr % SS != 0 then Base(curr_clust, fs.csize, fs.database) + csect - 1 else 0
      ensures fptr <= ofs && (fptr < ofs ==> Exhausted(S()) && s.fsize <= fptr && (canWrite || s.fsize == 0))
    {
      hide Sound, Kept, Aimed, Placed, Quiet, Valid, AtCluster, Secs, NoneLeft, FATFS.Link, FATFS.Counted;
      ValidParts(s);
      QuietOnce(s, s);
      QuietKept(s, s);
      CursorKept(s, s, S());
      nsect := 0;
      if ofs > 0 {
        var clst := SeekFrom(ifptr, ofs, s);
        if clst != 0 {
          var rest := Walk(ofs - fptr, s);
          nsect := Aim(rest, s);
        }
      }
    }

    /** f_lseek */
    method Seek(place: nat)
      requires Good() && Valid(S()) && place < BIT32
      modifies `written, `fsize, `chain, `org_clust, `csect, `curr_clust, `cix, `fptr, `dirty, `dsect, buf
      modifies fs`disk, fs`winsect, fs`wflag, fs`last_clust, fs`free_clust, fs`fsi_flag, fs.win
      ensures Good() && Valid(S()) && Sought(old(S()), S(), place, canWrite)
      ensures written == (old(written) || fsize > old(fsize))
    {
      hide Sound, Kept, Aimed, Placed, Quiet, Valid, Secs, Sought, NoneLeft, FATFS.Link, FATFS.Counted, Stored;
      ghost var s := S();
      ValidParts(s);
      var ofs := if place > fsize && !canWrite then fsize else place;
      var ifptr := fptr;
      fptr := 0;
      csect := 255;
      var nsect := Approach(ifptr, ofs, s);
      Settle(nsect, s);
      ghost var t := S();
      KeptSize(s, t);
      if fptr > fsize {
        fsize := fptr;
        written := true;
      }
      SeekDone(s, t, S(), place, canWrite);
    }
  }
}
