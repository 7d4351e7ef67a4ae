/** A transfer as a function of what comes over the line, one attempt at a record after the other. */
module XmodemLine {
  import opened XmodemCrc

  const PACKET := 128
  const RECORD := 132
  const RETRY_LIMIT := 20
  const INITIAL_SIZE := 1024
  const INCREMENT := 512

  const SOH: bv8 := 0x01
  const EOT: bv8 := 0x04
  const ACK: bv8 := 0x06
  const NAK: bv8 := 0x15
  const CAN: bv8 := 0x18
  const CRC_MODE: bv8 := 0x43

  const REMOTE_CANCEL := -1
  const RETRY_EXCEED := -3
  const OUT_OF_MEM := -4

  // What the line delivers: a character, or nothing when none comes in time.
  datatype Char = Timeout | Byte(b: bv8)

  // The 8-bit number of record j.
  function Num(j: nat): bv8 {
    if j == 0 then 0 else Num(j - 1) + 1
  }

  lemma {:induction false} NumIs(j: nat)
    ensures Num(j) as nat == j % 256
  {
    if j > 0 {
      NumIs(j - 1);
      NextNum(Num(j - 1));
      NextMod(j - 1);
    }
  }

  lemma NextMod(j: nat)
    ensures (j + 1) % 256 == if j % 256 == 255 then 0 else j % 256 + 1
  {
  }

  lemma NextNum(x: bv8)
    ensures (x + 1) as nat == if x as nat == 255 then 0 else x as nat + 1
  {
    if x == 255 { assert x + 1 == 0; }
  }

  function HighByte(c: bv16): bv8 {
    ((c >> 8) & 0xFF) as bv8
  }

  function LowByte(c: bv16): bv8 {
    (c & 0xFF) as bv8
  }

  /** A record with number n, its complement, a payload and the CRC of the payload. */
  predicate ValidRecord(b: seq<bv8>, n: bv8) {
    && |b| == RECORD && b[0] == n && b[1] == !n
    && b[PACKET + 2] == HighByte(Crc(b[2..PACKET + 2])) && b[PACKET + 3] == LowByte(Crc(b[2..PACKET + 2]))
  }

  predicate Complements(x: bv8, n: bv8) {
    x == 255 - n
  }

  // The two bytes of a CRC.
  predicate Splits(h: bv8, l: bv8, c: bv16) {
    h as bv16 == c >> 8 && l as bv16 == c & 0xFF
  }

  /** Valid is: 132 characters, the number and 255 minus it, and at the end the CRC, its high byte first. */
  lemma ValidExactly(b: seq<bv8>, n: bv8)
    ensures ValidRecord(b, n) <==>
      |b| == 132 && b[0] == n && Complements(b[1], n) && Splits(b[130], b[131], Crc(b[2..130]))
  {
    hide Crc, HighByte, LowByte, Complements, Splits;
    if |b| == RECORD {
      Complement(b[1], n);
      TwoBytes(b[130], b[131], Crc(b[2..130]));
    }
  }

  lemma Complement(x: bv8, n: bv8)
    ensures x == !n <==> Complements(x, n)
  {
  }

  lemma TwoBytes(h: bv8, l: bv8, c: bv16)
    ensures h == HighByte(c) && l == LowByte(c) <==> Splits(h, l, c)
  {
    assert (c >> 8) & 0xFF == c >> 8;
  }

  lemma CheckedWhole(b: seq<bv8>, n: bv8)
    requires ValidRecord(b, n)
    ensures Crc(b[2..]) == 0
  {
    hide Crc;
    var p := b[2..PACKET + 2];
    Halves(Crc(p));
    CrcBehind(p, b[PACKET + 2], b[PACKET + 3]);
    assert b[2..] == p + [b[PACKET + 2], b[PACKET + 3]];
  }

  lemma Halves(c: bv16)
    ensures c == Xor(High(HighByte(c)), Low(LowByte(c)))
  {
  }

  /** A good record of which up to 16 bits in a row come wrong, wherever they are in it, is refused. */
  lemma BurstRefused(b: seq<bv8>, b': seq<bv8>, n: bv8, s: nat)
    requires ValidRecord(b, n) && |b'| == RECORD && Burst(b, b', s)
    ensures !ValidRecord(b', n)
  {
    hide Crc, Bits, HighByte, LowByte;
    if ValidRecord(b', n) {
      CheckedWhole(b, n);
      CheckedWhole(b', n);
      var p, q := b[2..], b'[2..];
      assert b == b[..2] + p && b' == b[..2] + q;
      BitsAppend(b[..2], p);
      BitsAppend(b[..2], q);
      BitsLength(b[..2]);
      BitsLength(p);
      BitsLength(q);
      var s' := if s >= 16 then s - 16 else 0;
      assert forall i :: 0 <= i < |Bits(p)| && Bits(p)[i] != Bits(q)[i] ==> Bits(b)[i + 16] != Bits(b')[i + 16];
      BurstDetected(p, q, s');
    }
  }

  function Payload(b: seq<bv8>): seq<bv8> {
    if |b| == RECORD then b[2..PACKET + 2] else []
  }

  // The payloads, one behind the other.
  function Payloads(rs: seq<seq<bv8>>): seq<bv8> {
    if rs == [] then [] else Payloads(rs[..|rs| - 1]) + Payload(rs[|rs| - 1])
  }

  // ----- reading the line

  function Next(input: seq<Char>, pos: nat): Char {
    if pos < |input| then input[pos] else Timeout
  }

  function After(input: seq<Char>, pos: nat): nat {
    if pos < |input| then pos + 1 else pos
  }

  // Behind the next silence.
  function Quiet(input: seq<Char>, pos: nat): (p: nat)
    requires pos <= |input|
    ensures pos <= p <= |input|
    decreases |input| - pos
  {
    if Next(input, pos) == Timeout then After(input, pos) else Quiet(input, pos + 1)
  }

  // From pos on all is read up to the next silence, and that; nothing behind it.
  predicate Silent(input: seq<Char>, pos: nat, p: nat) {
    && pos <= p <= |input| && (forall i :: pos <= i < p - 1 ==> input[i].Byte?)
    && (p < |input| ==> pos < p && input[p - 1] == Timeout)
  }

  lemma {:induction false} QuietExactly(input: seq<Char>, pos: nat)
    requires pos <= |input|
    ensures Silent(input, pos, Quiet(input, pos))
    decreases |input| - pos
  {
    if Next(input, pos) != Timeout { QuietExactly(input, pos + 1); }
  }

  // Behind n characters, or behind a silence among them.
  function ReadEnd(input: seq<Char>, pos: nat, n: nat): (p: nat)
    requires pos <= |input|
    ensures pos <= p <= |input|
    decreases n
  {
    if n == 0 then pos else if Next(input, pos) == Timeout then After(input, pos) else ReadEnd(input, pos + 1, n - 1)
  }

  // The n characters from pos on have all come.
  predicate AllThere(input: seq<Char>, pos: nat, n: nat) {
    pos + n <= |input| && forall i :: pos <= i < pos + n ==> input[i].Byte?
  }

  function Record(input: seq<Char>, pos: nat): seq<bv8> {
    if AllThere(input, pos, RECORD) then seq(RECORD, i requires 0 <= i < RECORD => input[pos + i].b) else []
  }

  // ----- one attempt

  datatype Try = Fails | Accepts(b: seq<bv8>) | Ends | Cancels

  /** What an attempt to get record n comes to. */
  function Attempt(input: seq<Char>, pos: nat, n: bv8): Try {
    if Next(input, pos) == Byte(EOT) then Ends
    else if Next(input, pos) == Byte(CAN) then Cancels
    else if Next(input, pos) == Byte(SOH) && ValidRecord(Record(input, pos + 1), n) then Accepts(Record(input, pos + 1))
    else Fails
  }

  // Where the next attempt begins after a failed one.
  function FailEnd(input: seq<Char>, pos: nat): (p: nat)
    requires pos <= |input|
    ensures pos <= p <= |input| && (pos < |input| ==> pos < p)
  {
    if Next(input, pos) == Byte(SOH) then ReadEnd(input, pos + 1, RECORD) else After(input, pos)
  }

  // k attempts in a row fail.
  predicate FailRun(input: seq<Char>, pos: nat, n: bv8, k: nat)
    requires pos <= |input|
    decreases k
  {
    k > 0 ==> Attempt(input, pos, n) == Fails && FailRun(input, FailEnd(input, pos), n, k - 1)
  }

  function RunEnd(input: seq<Char>, pos: nat, k: nat): (p: nat)
    requires pos <= |input|
    ensures pos <= p <= |input|
    decreases k
  {
    if k == 0 then pos else RunEnd(input, FailEnd(input, pos), k - 1)
  }

  lemma {:induction false} RunMore(input: seq<Char>, pos: nat, n: bv8, k: nat)
    requires pos <= |input| && FailRun(input, pos, n, k) && Attempt(input, RunEnd(input, pos, k), n) == Fails
    ensures FailRun(input, pos, n, k + 1) && RunEnd(input, pos, k + 1) == FailEnd(input, RunEnd(input, pos, k))
    decreases k
  {
    if k == 0 {
      assert FailRun(input, FailEnd(input, pos), n, 0) && RunEnd(input, FailEnd(input, pos), 0) == FailEnd(input, pos);
    } else {
      RunMore(input, FailEnd(input, pos), n, k - 1);
    }
  }

  // ----- the whole transfer

  // Records that have been accepted, and where they began on the line.
  datatype Taken = Taken(records: seq<seq<bv8>>, starts: seq<nat>)

  // Between two attempts; since is where the attempts at the next record began.
  datatype Session = Session(pos: nat, retries: nat, starting: bool, taken: Taken, sent: seq<bv8>, since: nat)

  // How a transfer ends; last is where its last attempt began, or the last 20 that all failed.
  datatype Outcome = Outcome(code: int, taken: Taken, pos: nat, sent: seq<bv8>, last: nat)

  function Opened(pos: nat, sent: seq<bv8>): Session {
    Session(pos, RETRY_LIMIT, true, Taken([], []), sent, pos)
  }

  function Expected(t: Taken): bv8 {
    Num(|t.records| + 1)
  }

  // The size of the buffer when n records have been stored.
  function Limit(n: nat): nat {
    if n == 0 then INITIAL_SIZE
    else if PACKET * n > Limit(n - 1) then Limit(n - 1) + INCREMENT
    else Limit(n - 1)
  }

  // The next record does not fit, and the buffer cannot be made larger.
  predicate Full(n: nat, memory: nat) {
    PACKET * (n + 1) > Limit(n) && Limit(n + 1) > memory
  }

  /** The buffer begins with 1024 bytes and grows by 512 when a record does not fit. */
  lemma {:induction false} LimitIs(n: nat)
    ensures Limit(n) == if n <= 8 then 1024 else (n + 3) / 4 * 512
  {
    if n > 0 { LimitIs(n - 1); }
  }

  lemma FullExactly(n: nat, memory: nat)
    ensures Full(n, memory) <==> n >= 8 && n % 4 == 0 && 512 * (n / 4 + 1) > memory
  {
    LimitIs(n);
    LimitIs(n + 1);
  }

  function Called(s: Session): seq<bv8> {
    s.sent + if s.starting then [CRC_MODE] else []
  }

  function Failed(input: seq<Char>, s: Session): Session
    requires s.pos <= |input| && s.retries > 0
  {
    var soh := Next(input, s.pos) == Byte(SOH);
    s.(pos := FailEnd(input, s.pos), retries := s.retries - 1, starting := s.starting && !soh,
       sent := Called(s) + if soh then [NAK] else [])
  }

  function Stored(input: seq<Char>, s: Session, b: seq<bv8>): Session
    requires s.pos + 1 + RECORD <= |input|
  {
    var p := Quiet(input, s.pos + 1 + RECORD);
    Session(p, RETRY_LIMIT, false, Taken(s.taken.records + [b], s.taken.starts + [s.pos + 1]), Called(s) + [ACK], p)
  }

  /** What a transfer comes to. */
  function Transfer(input: seq<Char>, memory: nat, s: Session): Outcome
    requires s.pos <= |input|
    decreases |input| - s.pos, s.retries
  {
    if s.retries == 0 then Outcome(RETRY_EXCEED, s.taken, Quiet(input, s.pos), s.sent + [CAN, CAN, CAN], s.since)
    else
      match Attempt(input, s.pos, Expected(s.taken))
      case Fails => Transfer(input, memory, Failed(input, s))
      case Ends => Outcome(PACKET * |s.taken.records|, s.taken, Quiet(input, s.pos + 1), Called(s) + [ACK], s.pos)
      case Cancels => Outcome(REMOTE_CANCEL, s.taken, Quiet(input, s.pos + 1), Called(s) + [ACK], s.pos)
      case Accepts(b) =>
        if Full(|s.taken.records|, memory) then
          Outcome(OUT_OF_MEM, s.taken, Quiet(input, Quiet(input, s.pos + 1 + RECORD)), Called(s) + [CAN, CAN, CAN], s.pos)
        else Transfer(input, memory, Stored(input, s, b))
  }

  // ----- what is stored

  // The characters from position s on make up the record b.
  predicate Delivered(input: seq<Char>, s: nat, b: seq<bv8>) {
    s + |b| <= |input| && forall i :: 0 <= i < |b| ==> input[s + i] == Byte(b[i])
  }

  /** The records are what came behind an SOH, each with the number it should have, one behind the other. */
  ghost predicate TakenOK(input: seq<Char>, t: Taken, pos: nat) {
    && |t.starts| == |t.records| && (forall j :: 0 <= j < |t.records| ==> RecordOK(input, t, j))
    && (forall j :: 0 <= j < |t.records| ==> InOrder(t, j, pos))
  }

  // Record j ends before the next one begins.
  predicate InOrder(t: Taken, j: nat, pos: nat)
    requires j < |t.records| == |t.starts|
  {
    t.starts[j] + RECORD <= if j + 1 < |t.records| then t.starts[j + 1] else pos
  }

  ghost predicate RecordOK(input: seq<Char>, t: Taken, j: nat)
    requires j < |t.records| && j < |t.starts|
  {
    && ValidRecord(t.records[j], Num(j + 1)) && Delivered(input, t.starts[j], t.records[j])
    && 0 < t.starts[j] <= |input| && input[t.starts[j] - 1] == Byte(SOH)
  }

  lemma TakenLater(input: seq<Char>, t: Taken, pos: nat, pos': nat)
    requires TakenOK(input, t, pos) && pos <= pos'
    ensures TakenOK(input, t, pos')
  {
    forall j | 0 <= j < |t.records|
      ensures InOrder(t, j, pos')
    {
      assert InOrder(t, j, pos);
    }
  }

  // A record has been accepted.
  lemma OneMore(input: seq<Char>, t: Taken, p: nat, pos: nat, b: seq<bv8>)
    requires TakenOK(input, t, p) && 0 < p <= |input| && input[p - 1] == Byte(SOH) && p + RECORD <= pos
    requires Delivered(input, p, b) && ValidRecord(b, Num(|t.records| + 1))
    ensures TakenOK(input, Taken(t.records + [b], t.starts + [p]), pos)
  {
    var t' := Taken(t.records + [b], t.starts + [p]);
    forall j | 0 <= j < |t'.records|
      ensures RecordOK(input, t', j)
    {
      if j < |t.records| { assert RecordOK(input, t, j); }
    }
    forall j | 0 <= j < |t'.records|
      ensures InOrder(t', j, pos)
    {
      if j < |t.records| { assert InOrder(t, j, p); }
    }
  }

  lemma AcceptedDelivered(input: seq<Char>, pos: nat, n: bv8)
    requires Attempt(input, pos, n).Accepts?
    ensures var b := Attempt(input, pos, n).b;
      |b| == RECORD && Delivered(input, pos + 1, b) && ValidRecord(b, n) && pos + 1 + RECORD <= |input|
    ensures input[pos] == Byte(SOH)
  {
  }

  /** Whatever comes over the line: what has been stored in the end came behind an SOH each, valid, with the
      right number, in order; the size returned is that of the payloads; nothing stored before is lost. */
  lemma {:induction false} TransferStores(input: seq<Char>, memory: nat, s: Session)
    requires s.pos <= |input| && TakenOK(input, s.taken, s.pos)
    ensures var o := Transfer(input, memory, s);
      && o.pos <= |input| && TakenOK(input, o.taken, o.pos) && s.taken.records <= o.taken.records
      && (o.code >= 0 ==> o.code == PACKET * |o.taken.records|)
    decreases |input| - s.pos, s.retries
  {
    hide Attempt, ValidRecord, TakenOK, Delivered, Quiet, ReadEnd, Full;
    var o := Transfer(input, memory, s);
    if s.retries > 0 {
      match Attempt(input, s.pos, Expected(s.taken))
      case Fails =>
        var s1 := Failed(input, s);
        TakenLater(input, s.taken, s.pos, s1.pos);
        TransferStores(input, memory, s1);
      case Accepts(b) =>
        AcceptedDelivered(input, s.pos, Expected(s.taken));
        if Full(|s.taken.records|, memory) {
          TakenLater(input, s.taken, s.pos, o.pos);
        } else {
          var s1 := Stored(input, s, b);
          TakenLater(input, s.taken, s.pos, s.pos + 1);
          OneMore(input, s.taken, s.pos + 1, s1.pos, b);
          TransferStores(input, memory, s1);
        }
      case _ =>
        SomethingCame(input, s.pos, Expected(s.taken));
        TakenLater(input, s.taken, s.pos, o.pos);
    } else {
      TakenLater(input, s.taken, s.pos, o.pos);
    }
  }

  lemma SomethingCame(input: seq<Char>, pos: nat, n: bv8)
    requires Attempt(input, pos, n) != Fails
    ensures pos < |input|
  {
  }

  /** Two records accepted one after the other never have the same number: a block sent again is not stored twice. */
  lemma NotTwice(input: seq<Char>, t: Taken, pos: nat, j: nat)
    requires TakenOK(input, t, pos) && j + 1 < |t.records|
    ensures |t.records[j]| == RECORD && |t.records[j + 1]| == RECORD && t.records[j][0] != t.records[j + 1][0]
  {
    assert RecordOK(input, t, j) && RecordOK(input, t, j + 1);
  }

  lemma {:induction false} PayloadsLength(input: seq<Char>, t: Taken, n: nat)
    requires |t.starts| == |t.records| && n <= |t.records| && forall j :: 0 <= j < |t.records| ==> RecordOK(input, t, j)
    ensures |Payloads(t.records[..n])| == PACKET * n
    decreases n
  {
    if n > 0 {
      PayloadsLength(input, t, n - 1);
      assert RecordOK(input, t, n - 1);
      assert t.records[..n][..n - 1] == t.records[..n - 1];
    }
  }

  // ----- why it ends

  // The attempts at the next record, so far, have all failed.
  ghost predicate Waiting(input: seq<Char>, s: Session) {
    && s.since <= s.pos <= |input| && s.retries <= RETRY_LIMIT
    && FailRun(input, s.since, Expected(s.taken), RETRY_LIMIT - s.retries)
    && s.pos == RunEnd(input, s.since, RETRY_LIMIT - s.retries)
  }

  /** Each way to end has exactly one reason: an end of transmission, a cancel, or a good record without room
      for it where an attempt began, or twenty attempts in a row that failed. */
  ghost predicate Reasoned(input: seq<Char>, memory: nat, o: Outcome) {
    var n := Expected(o.taken);
    && o.last <= |input|
    && (o.code >= 0 <==> Attempt(input, o.last, n) == Ends)
    && (o.code == REMOTE_CANCEL <==> Attempt(input, o.last, n) == Cancels)
    && (o.code == OUT_OF_MEM <==> Attempt(input, o.last, n).Accepts?)
    && (o.code == OUT_OF_MEM ==> Full(|o.taken.records|, memory))
    && (o.code == RETRY_EXCEED <==> FailRun(input, o.last, n, RETRY_LIMIT))
    && (o.code >= 0 || o.code == REMOTE_CANCEL || o.code == OUT_OF_MEM || o.code == RETRY_EXCEED)
  }

  lemma {:induction false} TransferReasoned(input: seq<Char>, memory: nat, s: Session)
    requires Waiting(input, s)
    ensures Reasoned(input, memory, Transfer(input, memory, s))
    decreases |input| - s.pos, s.retries
  {
    hide Attempt, ReadEnd, Quiet, Full;
    if s.retries > 0 {
      match Attempt(input, s.pos, Expected(s.taken))
      case Fails =>
        RunMore(input, s.since, Expected(s.taken), RETRY_LIMIT - s.retries);
        TransferReasoned(input, memory, Failed(input, s));
      case Accepts(b) =>
        AcceptedDelivered(input, s.pos, Expected(s.taken));
        if !Full(|s.taken.records|, memory) { TransferReasoned(input, memory, Stored(input, s, b)); }
      case _ =>
    } else {
      FirstFails(input, s.since, Expected(s.taken), RETRY_LIMIT);
    }
  }

  lemma FirstFails(input: seq<Char>, pos: nat, n: bv8, k: nat)
    requires pos <= |input| && k > 0 && FailRun(input, pos, n, k)
    ensures Attempt(input, pos, n) == Fails
  {
  }

  /** On every line: a transfer ends for exactly one reason, and what it has stored is what was sent. */
  lemma TransferSound(input: seq<Char>, memory: nat, pos: nat, sent: seq<bv8>)
    requires pos <= |input|
    ensures var o := Transfer(input, memory, Opened(pos, sent));
      && Reasoned(input, memory, o) && o.pos <= |input| && TakenOK(input, o.taken, o.pos)
      && |Payloads(o.taken.records)| == PACKET * |o.taken.records|
      && (o.code >= 0 ==> o.code == PACKET * |o.taken.records|)
  {
    hide Reasoned, Transfer;
    var s := Opened(pos, sent);
    TransferReasoned(input, memory, s);
    TransferStores(input, memory, s);
    var t := Transfer(input, memory, s).taken;
    PayloadsLength(input, t, |t.records|);
    assert t.records[..|t.records|] == t.records;
  }

  // ----- attempts that fail

  // What k attempts begin with, one behind the other.
  function Heads(input: seq<Char>, pos: nat, k: nat): (hs: seq<Char>)
    requires pos <= |input|
    ensures |hs| == k
    decreases k
  {
    if k == 0 then [] else [Next(input, pos)] + Heads(input, FailEnd(input, pos), k - 1)
  }

  function Filled(c: bv8, n: nat): seq<bv8> {
    seq(n, _ => c)
  }

  /** How many attempts there are up to the first that brings an SOH, with it, among those that begin with hs and,
      if there is one, one more. */
  function Calls(hs: seq<Char>, more: bool): nat {
    if hs == [] then if more then 1 else 0
    else if hs[0] == Byte(0x01) then 1
    else 1 + Calls(hs[1..], more)
  }

  lemma {:induction false} CallsMore(hs: seq<Char>)
    ensures Calls(hs, true) == Calls(hs, false) + if Byte(0x01) in hs then 0 else 1
  {
    if hs != [] { CallsMore(hs[1..]); }
  }

  lemma FilledMore(c: bv8, n: nat)
    ensures Filled(c, n + 1) == [c] + Filled(c, n) == Filled(c, n) + [c] && Filled(c, 0) == []
  {
  }

  // The answers to failed attempts.
  function Answers(hs: seq<Char>, starting: bool): seq<bv8> {
    Filled(0x43, if starting then Calls(hs, false) else 0) + Filled(0x15, multiset(hs)[Byte(0x01)])
  }

  lemma AnswersNext(h: Char, hs: seq<Char>, starting: bool)
    ensures Answers([h] + hs, starting) ==
      (if starting then [CRC_MODE] else []) + (if h == Byte(SOH) then [NAK] else []) + Answers(hs, starting && h != Byte(SOH))
  {
    hide Filled;
    assert multiset([h] + hs) == multiset{h} + multiset(hs);
    assert ([h] + hs)[1..] == hs;
    FilledMore(0x43, 0);
    FilledMore(0x43, Calls(hs, false));
    FilledMore(0x15, multiset(hs)[Byte(0x01)]);
  }

  /** As long as attempts are left, failed ones change nothing but the answers given: a 0x43 for each up to the first
      that brings an SOH, with it, unless one has come before, and a 0x15 for each record that is bad. */
  lemma {:induction false} FailuresSkipped(input: seq<Char>, memory: nat, s: Session, k: nat) returns (s': Session)
    requires s.pos <= |input| && k <= s.retries && FailRun(input, s.pos, Expected(s.taken), k)
    ensures var hs := Heads(input, s.pos, k);
      s' == s.(pos := RunEnd(input, s.pos, k), retries := s.retries - k, starting := s.starting && Byte(0x01) !in hs,
        sent := s.sent + (Filled(0x43, if s.starting then Calls(hs, false) else 0) + Filled(0x15, multiset(hs)[Byte(0x01)])))
    ensures Transfer(input, memory, s) == Transfer(input, memory, s')
    decreases k
  {
    hide Attempt, FailEnd, Transfer, Failed, Answers, Calls, Filled, Num;
    s' := s;
    if k > 0 {
      OneFailed(input, memory, s);
      var h, s1 := Next(input, s.pos), Failed(input, s);
      var hs := Heads(input, s1.pos, k - 1);
      s' := FailuresSkipped(input, memory, s1, k - 1);
      AnswersNext(h, hs, s.starting);
      Said(s.sent, (if s.starting then [CRC_MODE] else []) + (if h == Byte(SOH) then [NAK] else []), Answers(hs, s1.starting));
      AnswersAre(hs, s1.starting);
      AnswersAre([h] + hs, s.starting);
    } else {
      AnswersAre([], s.starting);
      NoAnswers(s.starting);
    }
  }

  lemma OneFailed(input: seq<Char>, memory: nat, s: Session)
    requires s.pos <= |input| && s.retries > 0 && Attempt(input, s.pos, Expected(s.taken)) == Fails
    ensures var soh := Next(input, s.pos) == Byte(SOH);
      Failed(input, s) == s.(pos := FailEnd(input, s.pos), retries := s.retries - 1, starting := s.starting && !soh,
        sent := s.sent + ((if s.starting then [CRC_MODE] else []) + if soh then [NAK] else []))
    ensures Transfer(input, memory, s) == Transfer(input, memory, Failed(input, s))
  {
    hide Attempt, ReadEnd, Num;
    Said(s.sent, if s.starting then [CRC_MODE] else [], if Next(input, s.pos) == Byte(SOH) then [NAK] else []);
  }

  lemma Said(a: seq<bv8>, b: seq<bv8>, c: seq<bv8>)
    ensures a + b + c == a + (b + c)
  {
  }

  lemma AnswersAre(hs: seq<Char>, starting: bool)
    ensures Answers(hs, starting) == Filled(0x43, if starting then Calls(hs, false) else 0) + Filled(0x15, multiset(hs)[Byte(0x01)])
  {
  }

  lemma NoAnswers(starting: bool)
    ensures Answers([], starting) == []
  {
  }

  /** So silence is answered by a 0x43 for each attempt, from the first on. */
  lemma SilenceCalled(input: seq<Char>, memory: nat, pos: nat, sent: seq<bv8>, k: nat)
    requires k <= 20 && pos <= |input| && forall i :: pos <= i < |input| && i < pos + k ==> input[i] == Timeout
    ensures var s := Opened(pos, sent);
      Transfer(input, memory, s) == Transfer(input, memory,
        s.(pos := if pos + k <= |input| then pos + k else |input|, retries := 20 - k, sent := sent + Filled(0x43, k)))
  {
    hide Transfer, Num;
    SilentRun(input, pos, k, Expected(Taken([], [])));
    var s' := FailuresSkipped(input, memory, Opened(pos, sent), k);
    assert Filled(0x43, k) + Filled(0x15, 0) == Filled(0x43, k);
  }

  lemma {:induction false} SilentRun(input: seq<Char>, pos: nat, k: nat, n: bv8)
    requires pos <= |input| && forall i :: pos <= i < |input| && i < pos + k ==> input[i] == Timeout
    ensures FailRun(input, pos, n, k) && RunEnd(input, pos, k) == if pos + k <= |input| then pos + k else |input|
    ensures var hs := Heads(input, pos, k); Calls(hs, false) == k && Byte(0x01) !in hs && multiset(hs)[Byte(0x01)] == 0
    decreases k
  {
    if k > 0 {
      SilentRun(input, After(input, pos), k - 1, n);
      var hs := Heads(input, After(input, pos), k - 1);
      assert ([Timeout] + hs)[1..] == hs;
    }
  }
}
