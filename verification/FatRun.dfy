/** Any run of requests on an open file refines a byte string with a cursor. */
module FatRun {
  import opened Words
  import opened FatImage
  import opened FatCursor
  import opened FatFile

  datatype Request = Read(n: nat) | Write(data: seq<Byte>) | Seek(place: nat)

  datatype Reply = Delivery(bytes: seq<Byte>) | Count(n: nat) | Placement

  /** A byte string and a place in it; full says that no cluster is left on the volume. */
  datatype File = File(bytes: seq<Byte>, pos: nat, full: bool)

  datatype Mode = Mode(readable: bool, writable: bool)

  /** What one request does. Writing is cut short only when the volume is full, and not before the end of
      the file, or not begun when the file could get larger than 4 GB. Seeking behind the end gets all the
      way unless the volume is full, leaving bytes of any value before the new end. */
  ghost predicate Serves(m: Mode, f: File, q: Request, a: Reply, f': File) {
    && f.pos <= |f.bytes| && (f.full ==> f'.full)
    && match q
       case Read(n) =>
         && f'.bytes == f.bytes && f'.full == f.full && f.pos <= f'.pos <= |f.bytes|
         && f'.pos == f.pos + (if m.readable then Min(n, |f.bytes| - f.pos) else 0)
         && a == Delivery(f.bytes[f.pos..f'.pos])
       case Write(d) =>
         && a.Count? && a.n <= |d| && Taken(m, f, d, a.n, f'.full)
         && f' == File(Spliced(f.bytes, f.pos, d[..a.n]), f.pos + a.n, f'.full)
       case Seek(p) =>
         && a == Placement && |f.bytes| <= |f'.bytes| && f'.bytes[..|f.bytes|] == f.bytes
         && f'.pos <= p && |f'.bytes| == Max(|f.bytes|, f'.pos)
         && (p <= |f.bytes| ==> f'.pos == p)
         && (if m.writable then f'.pos < p ==> f'.full else f'.pos == Min(p, |f.bytes|))
  }

  // How much of d is written.
  predicate Taken(m: Mode, f: File, d: seq<Byte>, n: nat, full: bool) {
    if !m.writable || |f.bytes| + |d| >= BIT32 then n == 0
    else n < |d| ==> full && f.pos + n >= |f.bytes|
  }

  ghost predicate ServesAll(m: Mode, f: File, qs: seq<Request>, rs: seq<Reply>, f': File)
    decreases |qs|
  {
    if qs == [] then rs == [] && f' == f
    else |rs| > 0 && exists g :: Serves(m, f, qs[0], rs[0], g) && ServesAll(m, g, qs[1..], rs[1..], f')
  }

  lemma ServesNone(m: Mode, f: File)
    ensures ServesAll(m, f, [], [], f)
  {
  }

  lemma {:induction false} ServesMore(m: Mode, f: File, qs: seq<Request>, rs: seq<Reply>, g: File, q: Request,
          a: Reply, f': File)
    requires ServesAll(m, f, qs, rs, g) && Serves(m, g, q, a, f')
    ensures ServesAll(m, f, qs + [q], rs + [a], f')
    decreases |qs|
  {
    if qs == [] {
      assert ServesAll(m, f', [], [], f');
      assert (qs + [q])[1..] == [] && (rs + [a])[1..] == [];
    } else {
      var h :| Serves(m, f, qs[0], rs[0], h) && ServesAll(m, h, qs[1..], rs[1..], g);
      ServesMore(m, h, qs[1..], rs[1..], g, q, a, f');
      assert (qs + [q])[1..] == qs[1..] + [q] && (rs + [a])[1..] == rs[1..] + [a];
    }
  }

  /** What a write makes of the bytes: those from the cursor on are the data, all others are what they were, and the
      file is no longer than it must be. */
  lemma WriteBytes(m: Mode, f: File, d: seq<Byte>, n: nat, f': File)
    requires Serves(m, f, Write(d), Count(n), f')
    ensures n <= |d| && f'.pos == f.pos + n && |f'.bytes| == if f.pos + n > |f.bytes| then f.pos + n else |f.bytes|
    ensures forall i :: 0 <= i < |f'.bytes| ==> f'.bytes[i] == if f.pos <= i < f.pos + n then d[i - f.pos] else f.bytes[i]
  {
    assert forall i :: 0 <= i < n ==> d[..n][i] == d[i];
  }

  /** What has been written is what is read back from there. */
  lemma ReadsBack(m: Mode, f: File, d: seq<Byte>, n: nat, f1: File, a2: Reply, f2: File, a3: Reply, f3: File)
    requires m.readable
    requires Serves(m, f, Write(d), Count(n), f1) && Serves(m, f1, Seek(f.pos), a2, f2)
    requires Serves(m, f2, Read(n), a3, f3)
    ensures a3 == Delivery(d[..n])
  {
    assert f2.bytes[..|f1.bytes|] == f2.bytes;
    assert f1.bytes[f.pos..f.pos + n] == d[..n];
  }

  // The byte string that an open file stands for.
  ghost function Meaning(s: State): File
    requires Valid(s)
  {
    File(Content(s), s.fptr, NoneLeft(s.link))
  }

  lemma ReadServes(s: State, t: State, n: nat, br: nat, b: seq<Byte>, b': seq<Byte>, m: Mode)
    requires Valid(s) && Valid(t) && Delivered(s, t, br, b, b')
    requires br == if m.readable then Min(n, s.fsize - s.fptr) else 0
    ensures br <= |b'| && Serves(m, Meaning(s), Read(n), Delivery(b'[..br]), Meaning(t))
  {
    hide Valid;
    assert b'[..br] == Content(s)[s.fptr..s.fptr + br];
  }

  lemma WriteServes(s: State, t: State, d: seq<Byte>, n: nat, m: Mode)
    requires Valid(s) && Valid(t) && (if m.writable then Wrote(s, t, d, n) else n == 0 && t == s)
    requires m.writable && s.fsize + |d| < BIT32 && n < |d| ==> Exhausted(t)
    requires s.fsize + |d| >= BIT32 ==> n == 0
    ensures Serves(m, Meaning(s), Write(d), Count(n), Meaning(t))
  {
    hide Content, Sound, Placed, Harmless, NoneLeft, Spliced;
    if m.writable {
      StaysFull(s, t);
    } else {
      SplicedNone(Content(s), s.fptr, d);
    }
  }

  lemma StaysFull(s: State, t: State)
    requires Valid(t) && Harmless(s, t)
    ensures NoneLeft(s.link) ==> NoneLeft(t.link)
  {
    hide Harmless, NoneLeft;
    if NoneLeft(s.link) { FullStays(s, t); }
  }

  lemma SplicedNone(c: seq<Byte>, pos: nat, d: seq<Byte>)
    requires pos <= |c|
    ensures Spliced(c, pos, d[..0]) == c
  {
  }

  lemma SeekServes(s: State, t: State, place: nat, m: Mode)
    requires Valid(s) && Valid(t) && Sought(s, t, place, m.writable)
    ensures Serves(m, Meaning(s), Seek(place), Placement, Meaning(t))
  {
    hide Content, Sound, Placed, Harmless, NoneLeft;
    StaysFull(s, t);
  }

  // The requests a caller can make: sizes and places are 32-bit numbers.
  predicate Sized(q: Request) {
    match q
    case Read(n) => n < BIT32
    case Write(d) => |d| < BIT32
    case Seek(p) => p < BIT32
  }

  method Serve(file: FIL, q: Request) returns (a: Reply)
    requires file.Good() && Valid(file.S()) && Sized(q)
    modifies file, file.buf, file.fs, file.fs.win
    ensures file.Good() && Valid(file.S()) && Harmless(old(file.S()), file.S())
    ensures Serves(Mode(file.canRead, file.canWrite), old(Meaning(file.S())), q, a, Meaning(file.S()))
  {
    hide Serves, Valid, Delivered, Wrote, Sought, Harmless;
    ghost var s, m := file.S(), Mode(file.canRead, file.canWrite);
    match q
    case Read(n) =>
      var buff := new Byte[n];
      ghost var b := buff[..];
      var res, br := file.Read(buff, n);
      DeliveredPlace(s, file.S(), br, b, buff[..]);
      DeliveredHarmless(s, file.S(), br, b, buff[..]);
      ReadServes(s, file.S(), n, br, b, buff[..], m);
      a := Delivery(buff[..br]);
    case Write(d) =>
      var res, bw := file.Write(d);
      WroteHarmless(s, file.S(), d, bw, file.canWrite);
      WriteServes(s, file.S(), d, bw, m);
      a := Count(bw);
    case Seek(p) =>
      file.Seek(p);
      SoughtHarmless(s, file.S(), p, file.canWrite);
      SeekServes(s, file.S(), p, m);
      a := Placement;
  }

  lemma DeliveredHarmless(s: State, t: State, n: nat, b: seq<Byte>, b': seq<Byte>)
    requires Delivered(s, t, n, b, b')
    ensures Harmless(s, t)
  {
  }

  lemma WroteHarmless(s: State, t: State, d: seq<Byte>, n: nat, writable: bool)
    requires Valid(s) && if writable then Wrote(s, t, d, n) else t == s
    ensures Harmless(s, t)
  {
    QuietOnce(s, s);
  }

  lemma SoughtHarmless(s: State, t: State, place: nat, writable: bool)
    requires Sought(s, t, place, writable)
    ensures Harmless(s, t)
  {
  }

  lemma ValidHarmless(s: State)
    requires Valid(s)
    ensures Harmless(s, s)
  {
    QuietOnce(s, s);
  }

  /** Every run refines the byte string, and no other file on the volume notices. */
  method Run(file: FIL, qs: seq<Request>) returns (rs: seq<Reply>)
    requires file.Good() && Valid(file.S()) && forall q :: q in qs ==> Sized(q)
    modifies file, file.buf, file.fs, file.fs.win
    ensures file.Good() && Valid(file.S()) && Harmless(old(file.S()), file.S())
    ensures ServesAll(Mode(file.canRead, file.canWrite), old(Meaning(file.S())), qs, rs, Meaning(file.S()))
  {
    hide Serves, ServesAll, Valid, Harmless, Content, NoneLeft;
    ghost var s, m, f := file.S(), Mode(file.canRead, file.canWrite), Meaning(file.S());
    ValidHarmless(s);
    rs := [];
    ServesNone(m, f);
    for i := 0 to |qs|
      invariant file.Good() && Valid(file.S()) && Harmless(s, file.S())
      invariant ServesAll(m, f, qs[..i], rs, Meaning(file.S()))
    {
      ghost var t, g := file.S(), Meaning(file.S());
      var a := Serve(file, qs[i]);
      HarmlessTwice(s, t, file.S());
      ServesMore(m, f, qs[..i], rs, g, qs[i], a, Meaning(file.S()));
      assert qs[..i] + [qs[i]] == qs[..i + 1];
      rs := rs + [a];
    }
    assert qs[..|qs|] == qs;
  }
}
