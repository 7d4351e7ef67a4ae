/** Senders and the receiver: what is sent is what is stored, whatever the line does in between; and what
    happens to a sender that has missed an answer. */
module XmodemTheorem {
  import opened XmodemCrc
  import opened XmodemLine

  // ----- what a sender sends

  function Chars(b: seq<bv8>): seq<Char> {
    seq(|b|, i requires 0 <= i < |b| => Byte(b[i]))
  }

  function Packet(b: seq<bv8>): seq<Char> {
    [Byte(0x01)] + Chars(b)
  }

  /** The record with number n for a payload. */
  function Made(n: bv8, payload: seq<bv8>): seq<bv8> {
    [n, !n] + payload + [HighByte(Crc(payload)), LowByte(Crc(payload))]
  }

  lemma MadeValid(n: bv8, payload: seq<bv8>)
    requires |payload| == PACKET
    ensures ValidRecord(Made(n, payload), n) && Payload(Made(n, payload)) == payload
  {
    hide Crc, HighByte, LowByte;
    assert Made(n, payload)[2..PACKET + 2] == payload;
  }

  // The line goes on with x.
  predicate At(input: seq<Char>, pos: nat, x: seq<Char>) {
    pos + |x| <= |input| && input[pos..pos + |x|] == x
  }

  lemma AtParts(input: seq<Char>, pos: nat, x: seq<Char>, y: seq<Char>)
    requires At(input, pos, x + y)
    ensures At(input, pos, x) && At(input, pos + |x|, y)
  {
    assert input[pos..pos + |x|] == (x + y)[..|x|];
    assert input[pos + |x|..pos + |x + y|] == (x + y)[|x|..];
  }

  lemma AtIndex(input: seq<Char>, pos: nat, x: seq<Char>, i: nat)
    requires At(input, pos, x) && i < |x|
    ensures input[pos + i] == x[i]
  {
    assert input[pos..pos + |x|][i] == input[pos + i];
  }

  lemma {:induction false} ReadAll(input: seq<Char>, pos: nat, n: nat)
    requires AllThere(input, pos, n)
    ensures ReadEnd(input, pos, n) == pos + n
    decreases n
  {
    if n > 0 { ReadAll(input, pos + 1, n - 1); }
  }

  lemma PacketRead(input: seq<Char>, pos: nat, b: seq<bv8>)
    requires |b| == RECORD && At(input, pos, Packet(b))
    ensures pos + 1 + RECORD <= |input| && input[pos] == Byte(SOH) && Record(input, pos + 1) == b
    ensures ReadEnd(input, pos + 1, RECORD) == pos + 1 + RECORD
  {
    var x := Packet(b);
    AtIndex(input, pos, x, 0);
    forall i | pos + 1 <= i < pos + 1 + RECORD
      ensures input[i] == Byte(b[i - pos - 1])
    {
      AtIndex(input, pos, x, i - pos);
    }
    ReadAll(input, pos + 1, RECORD);
  }

  // ----- attempts that come to nothing

  // Some other character or a silence, a whole record that is not the one expected, or one cut off by a silence.
  datatype Bad = Noise(c: Char) | Damaged(b: seq<bv8>) | CutOff(b: seq<bv8>)

  predicate Useless(x: Bad, n: bv8) {
    match x
    case Noise(c) => c != Byte(0x01) && c != Byte(0x04) && c != Byte(0x18)
    case Damaged(b) => |b| == RECORD && !ValidRecord(b, n)
    case CutOff(b) => |b| < RECORD
  }

  function BadChars(x: Bad): seq<Char> {
    match x
    case Noise(c) => [c]
    case Damaged(b) => Packet(b)
    case CutOff(b) => Packet(b) + [Timeout]
  }

  function BadLine(xs: seq<Bad>): seq<Char> {
    if xs == [] then [] else BadChars(xs[0]) + BadLine(xs[1..])
  }

  ghost predicate AllUseless(xs: seq<Bad>, n: bv8) {
    forall i :: 0 <= i < |xs| ==> Useless(xs[i], n)
  }

  lemma OneFails(input: seq<Char>, pos: nat, x: Bad, n: bv8)
    requires At(input, pos, BadChars(x)) && Useless(x, n)
    ensures Attempt(input, pos, n) == Fails && FailEnd(input, pos) == pos + |BadChars(x)|
    ensures Next(input, pos) == if x.Noise? then x.c else Byte(0x01)
  {
    hide ValidRecord, ReadEnd, Record, Packet;
    match x
    case Noise(c) => AtIndex(input, pos, [c], 0);
    case Damaged(b) =>
      PacketRead(input, pos, b);
      PacketLength(b);
    case CutOff(b) =>
      CutRead(input, pos, b);
      PacketLength(b);
      NoRecord(n);
  }

  lemma NoRecord(n: bv8)
    ensures !ValidRecord([], n)
  {
  }

  lemma CutRead(input: seq<Char>, pos: nat, b: seq<bv8>)
    requires |b| < RECORD && At(input, pos, Packet(b) + [Timeout])
    ensures pos + 1 + |b| < |input| && input[pos] == Byte(SOH) && Record(input, pos + 1) == []
    ensures ReadEnd(input, pos + 1, RECORD) == pos + 2 + |b|
  {
    var x := Packet(b) + [Timeout];
    AtIndex(input, pos, x, 0);
    forall i | pos + 1 <= i <= pos + 1 + |b|
      ensures input[i] == if i - pos - 1 < |b| then Byte(b[i - pos - 1]) else Timeout
    {
      AtIndex(input, pos, x, i - pos);
    }
    assert input[pos + 1 + |b|] == Timeout;
    ReadCut(input, pos + 1, |b|, RECORD);
  }

  lemma {:induction false} ReadCut(input: seq<Char>, pos: nat, k: nat, n: nat)
    requires k < n && AllThere(input, pos, k) && pos + k < |input| && input[pos + k] == Timeout
    ensures ReadEnd(input, pos, n) == pos + k + 1
    decreases k
  {
    if k > 0 { ReadCut(input, pos + 1, k - 1, n - 1); }
  }

  // What the attempts begin with.
  function Firsts(xs: seq<Bad>): seq<Char> {
    if xs == [] then [] else [if xs[0].Noise? then xs[0].c else Byte(0x01)] + Firsts(xs[1..])
  }

  // How many of them are records, all bad.
  function Records(xs: seq<Bad>): nat {
    if xs == [] then 0 else (if xs[0].Noise? then 0 else 1) + Records(xs[1..])
  }

  lemma {:induction false} RecordsCount(xs: seq<Bad>, n: bv8)
    requires AllUseless(xs, n)
    ensures multiset(Firsts(xs))[Byte(0x01)] == Records(xs) && (Byte(0x01) in Firsts(xs) <==> Records(xs) > 0)
    decreases |xs|
  {
    if xs != [] {
      RecordsCount(xs[1..], n);
      assert Useless(xs[0], n);
      assert multiset(Firsts(xs)) == multiset{Firsts(xs)[0]} + multiset(Firsts(xs[1..])) by {
        assert Firsts(xs) == [Firsts(xs)[0]] + Firsts(xs[1..]);
      }
    }
  }

  lemma PacketLength(b: seq<bv8>)
    ensures |Packet(b)| == |b| + 1
  {
  }

  lemma {:induction false} AllFail(input: seq<Char>, pos: nat, xs: seq<Bad>, n: bv8)
    requires At(input, pos, BadLine(xs)) && AllUseless(xs, n)
    ensures FailRun(input, pos, n, |xs|) && RunEnd(input, pos, |xs|) == pos + |BadLine(xs)|
    ensures Heads(input, pos, |xs|) == Firsts(xs)
    decreases |xs|
  {
    hide Attempt, FailEnd, Next, BadChars, Useless;
    if xs != [] {
      AtParts(input, pos, BadChars(xs[0]), BadLine(xs[1..]));
      OneFails(input, pos, xs[0], n);
      AllFail(input, pos + |BadChars(xs[0])|, xs[1..], n);
    }
  }

  // ----- a sender that is heard

  // A payload, what goes wrong before it gets through, and what else comes before the line is silent.
  datatype Delivery = Delivery(bad: seq<Bad>, payload: seq<bv8>, junk: seq<bv8>)

  // What comes for record j.
  function Turn(d: Delivery, j: nat): seq<Char> {
    BadLine(d.bad) + (Packet(Made(Num(j), d.payload)) + (Chars(d.junk) + [Timeout]))
  }

  function Line(ds: seq<Delivery>, j: nat): seq<Char>
    decreases |ds|
  {
    if ds == [] then [] else Turn(ds[0], j) + Line(ds[1..], j + 1)
  }

  ghost predicate Deliverable(ds: seq<Delivery>, j: nat) {
    forall i :: 0 <= i < |ds| ==>
      |ds[i].payload| == PACKET && |ds[i].bad| < 20 && AllUseless(ds[i].bad, Num(j + i))
  }

  function AllOf(ds: seq<Delivery>): seq<bv8> {
    if ds == [] then [] else ds[0].payload + AllOf(ds[1..])
  }

  // The buffer can be made large enough for n records.
  predicate Fits(n: nat, memory: nat) {
    n <= 8 || (n + 3) / 4 * 512 <= memory
  }

  lemma RoomFor(n: nat, m: nat, memory: nat)
    requires n < m && Fits(m, memory)
    ensures !Full(n, memory)
  {
    FullExactly(n, memory);
    if n >= 8 { assert (n + 4) / 4 <= (m + 3) / 4; }
  }

  // ----- what it hears

  // As long as nobody has been heard: a 0x43 for each attempt up to the first record, with it.
  function Calling(xs: seq<Bad>, more: bool, starting: bool): seq<bv8> {
    Filled(0x43, if starting then Calls(Firsts(xs), more) else 0)
  }

  // For each payload: a 0x15 for every bad record before it, and 0x06.
  function Replies(ds: seq<Delivery>): seq<bv8> {
    if ds == [] then [] else Filled(0x15, Records(ds[0].bad)) + [0x06] + Replies(ds[1..])
  }

  /** All answers to a sender that has sent ds and then bad, and a last character if there is one more attempt. */
  function Heard(ds: seq<Delivery>, bad: seq<Bad>, more: bool): seq<bv8> {
    Calling(if ds == [] then bad else ds[0].bad, ds != [] || more, true) + Replies(ds) + Filled(0x15, Records(bad))
  }

  lemma BadSkipped(input: seq<Char>, memory: nat, s: Session, xs: seq<Bad>) returns (m: Session)
    requires |xs| <= s.retries && AllUseless(xs, Expected(s.taken)) && At(input, s.pos, BadLine(xs))
    ensures m == s.(pos := s.pos + |BadLine(xs)|, retries := s.retries - |xs|, starting := m.starting, sent := m.sent)
    ensures m.sent == s.sent + (Calling(xs, false, s.starting) + Filled(0x15, Records(xs)))
    ensures Called(m) == s.sent + (Calling(xs, true, s.starting) + Filled(0x15, Records(xs)))
    ensures Transfer(input, memory, s) == Transfer(input, memory, m)
  {
    hide Transfer, BadLine, AllUseless, FailRun, RunEnd, Num, Filled, Calls, Firsts, Records, Heads;
    AllFail(input, s.pos, xs, Expected(s.taken));
    m := FailuresSkipped(input, memory, s, |xs|);
    RecordsCount(xs, Expected(s.taken));
    CallsMore(Firsts(xs));
    FilledMore(0x43, Calls(Firsts(xs), false));
    FilledMore(0x15, 0);
    if m.starting {
      Said(s.sent, Filled(0x43, Calls(Firsts(xs), false)), []);
      Said(s.sent, Filled(0x43, Calls(Firsts(xs), false)), [CRC_MODE]);
    }
  }

  lemma {:induction false} QuietBehind(input: seq<Char>, pos: nat, junk: seq<bv8>)
    requires At(input, pos, Chars(junk) + [Timeout])
    ensures Quiet(input, pos) == pos + |junk| + 1
    decreases |junk|
  {
    var x := Chars(junk) + [Timeout];
    AtIndex(input, pos, x, 0);
    if junk != [] {
      assert Chars(junk) + [Timeout] == [Byte(junk[0])] + (Chars(junk[1..]) + [Timeout]);
      AtParts(input, pos, [Byte(junk[0])], Chars(junk[1..]) + [Timeout]);
      QuietBehind(input, pos + 1, junk[1..]);
    }
  }

  lemma OneThrough(input: seq<Char>, memory: nat, s: Session, d: Delivery) returns (s': Session)
    requires s.retries == RETRY_LIMIT && |d.payload| == PACKET && |d.bad| < 20
    requires AllUseless(d.bad, Expected(s.taken)) && !Full(|s.taken.records|, memory)
    requires At(input, s.pos, Turn(d, |s.taken.records| + 1))
    ensures s'.pos == s.pos + |Turn(d, |s.taken.records| + 1)| <= |input| && s'.retries == RETRY_LIMIT && !s'.starting
    ensures s'.taken.records == s.taken.records + [Made(Expected(s.taken), d.payload)]
    ensures s'.sent == s.sent + (Calling(d.bad, true, s.starting) + Filled(0x15, Records(d.bad)) + [0x06])
    ensures Transfer(input, memory, s) == Transfer(input, memory, s')
  {
    hide BadLine, Made, Packet, ReadEnd, AllUseless, ValidRecord, Record, Full, Called, Num, Calling, Filled, Records, Chars, At, After;
    var n := Expected(s.taken);
    var b, end := Made(n, d.payload), Chars(d.junk) + [Timeout];
    AtParts(input, s.pos, BadLine(d.bad), Packet(b) + end);
    var m := BadSkipped(input, memory, s, d.bad);
    AtParts(input, m.pos, Packet(b), end);
    MadeValid(n, d.payload);
    PacketLength(b);
    PacketRead(input, m.pos, b);
    QuietBehind(input, m.pos + |Packet(b)|, d.junk);
    CharsLength(d.junk);
    s' := Stored(input, m, b);
    Said(s.sent, Calling(d.bad, true, s.starting) + Filled(0x15, Records(d.bad)), [ACK]);
  }

  lemma CharsLength(b: seq<bv8>)
    ensures |Chars(b)| == |b|
  {
  }

  function Sent(ds: seq<Delivery>, j: nat): seq<seq<bv8>>
    decreases |ds|
  {
    if ds == [] then [] else [Made(Num(j), ds[0].payload)] + Sent(ds[1..], j + 1)
  }

  lemma {:induction false} AllThrough(input: seq<Char>, memory: nat, s: Session, ds: seq<Delivery>) returns (s': Session)
    requires s.pos <= |input| && s.retries == RETRY_LIMIT && Deliverable(ds, |s.taken.records| + 1)
    requires At(input, s.pos, Line(ds, |s.taken.records| + 1)) && Fits(|s.taken.records| + |ds|, memory)
    ensures s'.pos == s.pos + |Line(ds, |s.taken.records| + 1)| <= |input| && s'.retries == RETRY_LIMIT
    ensures s'.taken.records == s.taken.records + Sent(ds, |s.taken.records| + 1)
    ensures s'.starting == (s.starting && ds == [])
    ensures s'.sent == s.sent + ((if ds == [] then [] else Calling(ds[0].bad, true, s.starting)) + Replies(ds))
    ensures Transfer(input, memory, s) == Transfer(input, memory, s')
    decreases |ds|
  {
    hide Turn, Made, Full, Limit, AllUseless, Num, Deliverable, At, Transfer, Crc, Calling, Filled, Records;
    var n := |s.taken.records|;
    s' := s;
    if ds != [] {
      FirstDeliverable(ds, n + 1);
      AtParts(input, s.pos, Turn(ds[0], n + 1), Line(ds[1..], n + 2));
      RoomFor(n, n + |ds|, memory);
      var s1 := OneThrough(input, memory, s, ds[0]);
      LaterDeliverable(ds, n + 1);
      s' := AllThrough(input, memory, s1, ds[1..]);
      Joined(s.taken.records, [Made(Num(n + 1), ds[0].payload)], Sent(ds[1..], n + 2));
      var c, r := Calling(ds[0].bad, true, s.starting), Filled(0x15, Records(ds[0].bad)) + [0x06];
      if ds[1..] != [] { NoCalls(ds[1].bad); }
      Regrouped(s.sent, c, Filled(0x15, Records(ds[0].bad)), [0x06], Replies(ds[1..]));
    }
  }

  lemma NoCalls(xs: seq<Bad>)
    ensures Calling(xs, true, false) == [] && Calling(xs, false, false) == []
  {
  }

  lemma Regrouped(a: seq<bv8>, b: seq<bv8>, c: seq<bv8>, d: seq<bv8>, e: seq<bv8>)
    ensures a + (b + c + d) + ([] + e) == a + (b + (c + d + e))
  {
  }

  lemma Joined<T>(a: seq<T>, b: seq<T>, c: seq<T>)
    ensures a + b + c == a + (b + c)
  {
  }

  lemma FirstDeliverable(ds: seq<Delivery>, j: nat)
    requires Deliverable(ds, j) && ds != []
    ensures |ds[0].payload| == PACKET && |ds[0].bad| < 20 && AllUseless(ds[0].bad, Num(j))
  {
    assert j + 0 == j;
  }

  lemma LaterDeliverable(ds: seq<Delivery>, j: nat)
    requires Deliverable(ds, j) && ds != []
    ensures Deliverable(ds[1..], j + 1)
  {
    forall i | 0 <= i < |ds[1..]|
      ensures |ds[1..][i].payload| == PACKET && |ds[1..][i].bad| < 20 && AllUseless(ds[1..][i].bad, Num(j + 1 + i))
    {
      assert ds[1..][i] == ds[i + 1] && j + 1 + i == j + (i + 1);
    }
  }

  lemma {:induction false} PayloadsSplit(a: seq<seq<bv8>>, b: seq<seq<bv8>>)
    ensures Payloads(a + b) == Payloads(a) + Payloads(b)
    decreases |b|
  {
    if b == [] {
      assert a + b == a;
    } else {
      var n := |b| - 1;
      hide Payload;
      assert (a + b)[..|a + b| - 1] == a + b[..n];
      PayloadsSplit(a, b[..n]);
      Joined(Payloads(a), Payloads(b[..n]), Payload(b[n]));
    }
  }

  lemma OnePayload(b: seq<bv8>)
    ensures Payloads([b]) == Payload(b)
  {
    assert [b][..0] == [];
  }

  lemma {:induction false} SentHolds(ds: seq<Delivery>, j: nat)
    requires Deliverable(ds, j)
    ensures Payloads(Sent(ds, j)) == AllOf(ds) && |Sent(ds, j)| == |ds|
    decreases |ds|
  {
    hide Made, Num, Payload;
    if ds != [] {
      hide Payloads;
      var b := Made(Num(j), ds[0].payload);
      LaterDeliverable(ds, j);
      SentHolds(ds[1..], j + 1);
      MadeValid(Num(j), ds[0].payload);
      PayloadsSplit([b], Sent(ds[1..], j + 1));
      OnePayload(b);
    }
  }

  lemma Started(input: seq<Char>, memory: nat, pos: nat, sent: seq<bv8>, ds: seq<Delivery>) returns (s: Session)
    requires Deliverable(ds, 1) && Fits(|ds|, memory) && At(input, pos, Line(ds, 1))
    ensures s.pos == pos + |Line(ds, 1)| <= |input| && s.retries == RETRY_LIMIT && s.starting == (ds == [])
    ensures s.taken.records == Sent(ds, 1)
    ensures s.sent == sent + ((if ds == [] then [] else Calling(ds[0].bad, true, true)) + Replies(ds))
    ensures Transfer(input, memory, Opened(pos, sent)) == Transfer(input, memory, s)
  {
    hide Line, Fits, AllUseless, Sent, Calling, Transfer, Replies, Deliverable;
    s := AllThrough(input, memory, Opened(pos, sent), ds);
    assert [] + Sent(ds, 1) == Sent(ds, 1);
  }

  /** What a sender has got through with ds and bad. */
  lemma Arrived(input: seq<Char>, memory: nat, pos: nat, sent: seq<bv8>, ds: seq<Delivery>, bad: seq<Bad>) returns (m: Session)
    requires Deliverable(ds, 1) && |bad| <= 20 && AllUseless(bad, Num(|ds| + 1)) && Fits(|ds|, memory)
    requires At(input, pos, Line(ds, 1) + BadLine(bad))
    ensures m.pos == pos + |Line(ds, 1)| + |BadLine(bad)| <= |input| && m.retries == 20 - |bad|
    ensures m.taken.records == Sent(ds, 1) && |Sent(ds, 1)| == |ds| && Payloads(Sent(ds, 1)) == AllOf(ds)
    ensures m.sent == sent + Heard(ds, bad, false) && Called(m) == sent + Heard(ds, bad, true)
    ensures Transfer(input, memory, Opened(pos, sent)) == Transfer(input, memory, m)
  {
    hide Deliverable, AllUseless, Num, Fits, At, Line, BadLine, Sent, Payloads, AllOf, Heard, Transfer, Called, Opened, Calling,
      Filled, Records, Replies;
    AtParts(input, pos, Line(ds, 1), BadLine(bad));
    var s := Started(input, memory, pos, sent, ds);
    SentHolds(ds, 1);
    AtInside(input, s.pos, BadLine(bad));
    assert Expected(s.taken) == Num(|ds| + 1);
    m := BadSkipped(input, memory, s, bad);
    HeardAre(sent, ds, bad, false);
    HeardAre(sent, ds, bad, true);
  }

  lemma AtInside(input: seq<Char>, pos: nat, x: seq<Char>)
    requires At(input, pos, x)
    ensures pos + |x| <= |input|
  {
  }

  lemma HeardAre(sent: seq<bv8>, ds: seq<Delivery>, bad: seq<Bad>, more: bool)
    ensures sent + ((if ds == [] then [] else Calling(ds[0].bad, true, true)) + Replies(ds))
      + (Calling(bad, more, ds == []) + Filled(0x15, Records(bad))) == sent + Heard(ds, bad, more)
  {
    hide Calling, Filled, Records, Replies;
    var b := Filled(0x15, Records(bad));
    if ds == [] {
      NoReplies();
      assert sent + ([] + []) == sent && Calling(bad, more, true) + [] + b == Calling(bad, more, true) + b;
    } else {
      NoCalls(bad);
      var c, r := Calling(ds[0].bad, true, true), Replies(ds);
      assert sent + (c + r) + ([] + b) == sent + (c + r + b);
    }
  }

  lemma NoReplies()
    ensures Replies([]) == []
  {
  }

  /** Round trip: payloads sent as records 1, 2, ..., each before its twentieth attempt fails, and then an end
      of transmission arrive complete and in order, and the answers are exactly those of Heard and a 0x06 for the end. */
  lemma SentReceived(input: seq<Char>, memory: nat, pos: nat, sent: seq<bv8>, ds: seq<Delivery>, bad: seq<Bad>)
    requires Deliverable(ds, 1) && |bad| < 20 && AllUseless(bad, Num(|ds| + 1)) && Fits(|ds|, memory)
    requires At(input, pos, Line(ds, 1) + BadLine(bad) + [Byte(0x04)])
    ensures pos <= |input|
    ensures var o := Transfer(input, memory, Opened(pos, sent));
      && o.code == 128 * |ds| && Payloads(o.taken.records) == AllOf(ds) && |o.taken.records| == |ds|
      && o.sent == sent + Heard(ds, bad, true) + [0x06]
      && Silent(input, pos + |Line(ds, 1)| + |BadLine(bad)| + 1, o.pos)
  {
    hide Line, AllUseless, Num, BadLine, Deliverable, Fits, Sent, Heard, Quiet, Silent, Called;
    AtParts(input, pos, Line(ds, 1) + BadLine(bad), [Byte(EOT)]);
    var m := Arrived(input, memory, pos, sent, ds, bad);
    AtIndex(input, m.pos, [Byte(EOT)], 0);
    QuietExactly(input, m.pos + 1);
  }

  /** The same sender cancels instead: -1. */
  lemma SentCancelled(input: seq<Char>, memory: nat, pos: nat, sent: seq<bv8>, ds: seq<Delivery>, bad: seq<Bad>)
    requires Deliverable(ds, 1) && |bad| < 20 && AllUseless(bad, Num(|ds| + 1)) && Fits(|ds|, memory)
    requires At(input, pos, Line(ds, 1) + BadLine(bad) + [Byte(0x18)])
    ensures pos <= |input|
    ensures var o := Transfer(input, memory, Opened(pos, sent));
      && o.code == -1 && Payloads(o.taken.records) == AllOf(ds) && o.sent == sent + Heard(ds, bad, true) + [0x06]
      && Silent(input, pos + |Line(ds, 1)| + |BadLine(bad)| + 1, o.pos)
  {
    hide Line, AllUseless, Num, BadLine, Deliverable, Fits, Sent, Heard, Quiet, Silent, Called;
    AtParts(input, pos, Line(ds, 1) + BadLine(bad), [Byte(CAN)]);
    var m := Arrived(input, memory, pos, sent, ds, bad);
    AtIndex(input, m.pos, [Byte(CAN)], 0);
    QuietExactly(input, m.pos + 1);
  }

  /** Twenty attempts in a row come to nothing: -3. */
  lemma SentGivenUp(input: seq<Char>, memory: nat, pos: nat, sent: seq<bv8>, ds: seq<Delivery>, bad: seq<Bad>)
    requires Deliverable(ds, 1) && |bad| == 20 && AllUseless(bad, Num(|ds| + 1)) && Fits(|ds|, memory)
    requires At(input, pos, Line(ds, 1) + BadLine(bad))
    ensures pos <= |input|
    ensures var o := Transfer(input, memory, Opened(pos, sent));
      && o.code == -3 && Payloads(o.taken.records) == AllOf(ds) && o.sent == sent + Heard(ds, bad, false) + [0x18, 0x18, 0x18]
      && Silent(input, pos + |Line(ds, 1)| + |BadLine(bad)|, o.pos)
  {
    hide Line, AllUseless, Num, BadLine, Deliverable, Fits, Sent, Heard, Quiet, Silent, Called;
    var m := Arrived(input, memory, pos, sent, ds, bad);
    QuietExactly(input, m.pos);
  }

  /** A good record comes when the buffer cannot be made larger: -4, and what has been stored is kept. */
  lemma SentNoRoom(input: seq<Char>, memory: nat, pos: nat, sent: seq<bv8>, ds: seq<Delivery>, bad: seq<Bad>, payload: seq<bv8>)
    requires Deliverable(ds, 1) && |bad| < 20 && AllUseless(bad, Num(|ds| + 1)) && Fits(|ds|, memory)
    requires !Fits(|ds| + 1, memory) && |payload| == PACKET
    requires At(input, pos, Line(ds, 1) + BadLine(bad) + Packet(Made(Num(|ds| + 1), payload)))
    ensures pos <= |input|
    ensures var o := Transfer(input, memory, Opened(pos, sent));
      o.code == -4 && Payloads(o.taken.records) == AllOf(ds) && o.sent == sent + Heard(ds, bad, true) + [0x18, 0x18, 0x18]
  {
    hide Line, AllUseless, Num, BadLine, Deliverable, Fits, Sent, Heard, Quiet, Called, Made, Packet, Record, ValidRecord,
      Full, Transfer, At, Opened, Payloads, AllOf;
    var n := Num(|ds| + 1);
    var b := Made(n, payload);
    AtParts(input, pos, Line(ds, 1) + BadLine(bad), Packet(b));
    var m := Arrived(input, memory, pos, sent, ds, bad);
    MadeValid(n, payload);
    PacketRead(input, m.pos, b);
    NoRoomNow(|ds|, memory);
    NotStored(input, memory, m, b, |ds|);
  }

  lemma NotStored(input: seq<Char>, memory: nat, s: Session, b: seq<bv8>, n: nat)
    requires s.retries > 0 && s.pos + 1 + RECORD <= |input| && input[s.pos] == Byte(SOH) && Record(input, s.pos + 1) == b
    requires |s.taken.records| == n && ValidRecord(b, Num(n + 1)) && Full(n, memory)
    ensures var o := Transfer(input, memory, s);
      o.code == OUT_OF_MEM && o.taken == s.taken && o.sent == Called(s) + [CAN, CAN, CAN]
  {
    hide Record, ValidRecord, Full, Quiet, Num;
  }

  lemma NoRoomNow(n: nat, memory: nat)
    requires Fits(n, memory) && !Fits(n + 1, memory)
    ensures Full(n, memory)
  {
    FullExactly(n, memory);
  }

  // ----- a sender that is not heard

  function Repeated(b: seq<bv8>, k: nat): seq<Bad> {
    seq(k, _ => Damaged(b))
  }

  // A record that has been stored is not the one expected next.
  lemma StoredUseless(b: seq<bv8>, n: nat, k: nat)
    requires ValidRecord(b, Num(n))
    ensures AllUseless(Repeated(b, k), Num(n + 1))
  {
    assert Num(n + 1) == Num(n) + 1;
  }

  /** A sender that missed the ACK of the last record and sends it again and again is answered by NAK until the
      transfer is given up: nothing more is stored, however often it asks. */
  lemma ResentGivenUp(input: seq<Char>, memory: nat, s: Session)
    requires s.pos <= |input| && s.retries == RETRY_LIMIT && s.taken.records != []
    requires var b := s.taken.records[|s.taken.records| - 1];
      ValidRecord(b, Num(|s.taken.records|)) && At(input, s.pos, BadLine(Repeated(b, 20)))
    ensures var o := Transfer(input, memory, s);
      && o.code == -3 && o.taken == s.taken
      && o.sent == s.sent + ((if s.starting then [0x43] else []) + Filled(0x15, 20)) + [0x18, 0x18, 0x18]
  {
    hide BadLine, ValidRecord, AllUseless, Num, Attempt, Filled, Calls, Firsts, Records;
    var n := |s.taken.records|;
    var b := s.taken.records[n - 1];
    StoredUseless(b, n, 20);
    var m := BadSkipped(input, memory, s, Repeated(b, 20));
    AllRecords(b, 20);
    FilledMore(0x43, 0);
    assert [CRC_MODE] + [] == [CRC_MODE];
  }

  lemma {:induction false} AllRecords(b: seq<bv8>, k: nat)
    ensures Records(Repeated(b, k)) == k && (k > 0 ==> Calls(Firsts(Repeated(b, k)), false) == 1)
  {
    if k > 0 {
      AllRecords(b, k - 1);
      assert Repeated(b, k)[1..] == Repeated(b, k - 1);
    }
  }

  /** Such a run from the start: the only record of the file arrives, its ACK gets lost, the file is not received. */
  lemma AckLost(payload: seq<bv8>, memory: nat, rest: seq<Char>)
    requires |payload| == PACKET
    ensures var b := Made(1, payload);
      var input := Packet(b) + [Timeout] + BadLine(Repeated(b, 20)) + rest;
      var o := Transfer(input, memory, Opened(0, []));
      o.code == -3 && o.taken.records == [b] && o.sent == [0x43, 0x06] + Filled(0x15, 20) + [0x18, 0x18, 0x18]
  {
    hide BadLine, Made, Packet, ReadEnd, AllUseless, ValidRecord, Record, Repeated, Transfer, Full, Filled, Calling;
    var b := Made(1, payload);
    var x, y := Packet(b) + [Timeout], BadLine(Repeated(b, 20));
    var input := x + y + rest;
    assert Num(1) == 1 by { assert Num(1) == Num(0) + 1; }
    var d := Delivery([], payload, []);
    NoBad();
    assert Turn(d, 1) == x by {
      assert Chars([]) + [Timeout] == [Timeout];
      assert [] + (Packet(b) + [Timeout]) == x;
    }
    assert At(input, 0, x + (y + rest)) by { assert x + (y + rest) == input; }
    AtParts(input, 0, x, y + rest);
    AtParts(input, |x|, y, rest);
    FullExactly(0, memory);
    var s := OneThrough(input, memory, Opened(0, []), d);
    MadeValid(1, payload);
    ResentGivenUp(input, memory, s);
  }

  lemma NoBad()
    ensures BadLine([]) == [] && forall n :: AllUseless([], n)
    ensures Records([]) == 0 && Calling([], true, true) == [0x43] && Filled(0x15, 0) == []
  {
  }
}
