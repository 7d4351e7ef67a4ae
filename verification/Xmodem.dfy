/** The XMODEM receiver. */
module Xmodem {
  import opened XmodemCrc
  import opened XmodemLine

  datatype Got = Refused | Kept | NoRoom

  class Receiver {
    const input: seq<Char>
    const memory: nat       // how large the buffer can be made
    var pos: nat
    var sent: seq<bv8>
    var dest: seq<bv8>

    constructor (line: seq<Char>, memory': nat, buffer: seq<bv8>)
      requires |buffer| == INITIAL_SIZE
      ensures input == line && memory == memory' && pos == 0 && sent == [] && dest == buffer
    {
      input, memory, pos, sent, dest := line, memory', 0, [], buffer;
    }

    // xmodem_in_func
    method In() returns (ch: Char)
      requires pos <= |input|
      modifies `pos
      ensures pos <= |input| && ch == Next(input, old(pos)) && pos == After(input, old(pos))
    {
      ch := Timeout;
      if pos < |input| {
        ch := input[pos];
        pos := pos + 1;
      }
    }

    // xmodem_out_func
    method Out(b: bv8)
      modifies `sent
      ensures sent == old(sent) + [b]
    {
      sent := sent + [b];
    }

    // xmodem_flush
    method Flush(cancel: bool)
      requires pos <= |input|
      modifies `pos, `sent
      ensures pos == Quiet(input, old(pos)) && sent == old(sent) + if cancel then [CAN, CAN, CAN] else []
    {
      var ch := In();
      while ch != Timeout
        invariant pos <= |input| && sent == old(sent)
        invariant Quiet(input, old(pos)) == if ch == Timeout then pos else Quiet(input, pos)
        decreases |input| - pos, ch.Byte?
      {
        ch := In();
      }
      if cancel {
        Out(CAN);
        Out(CAN);
        Out(CAN);
      }
    }

    /** xmodem_get_record: the record is taken exactly when all of it comes in time and it is valid */
    method GetRecord(blocknum: bv8, buf: array<bv8>) returns (ok: bool)
      requires pos <= |input| && buf.Length == RECORD
      modifies `pos, `sent, buf
      ensures pos == ReadEnd(input, old(pos), RECORD)
      ensures ok <==> ValidRecord(Record(input, old(pos)), blocknum)
      ensures ok ==> buf[..] == Record(input, old(pos)) && pos == old(pos) + RECORD
      ensures sent == old(sent) + if ok then [] else [NAK]
    {
      hide ValidRecord;
      var j := 0;
      while j < PACKET + 4
        invariant 0 <= j <= RECORD && pos == old(pos) + j <= |input| && sent == old(sent)
        invariant ReadEnd(input, old(pos), RECORD) == ReadEnd(input, pos, RECORD - j)
        invariant forall i :: 0 <= i < j ==> input[old(pos) + i] == Byte(buf[i])
      {
        var ch := In();
        if ch == Timeout {
          Interrupted(input, old(pos), j, blocknum);
          Out(NAK);
          return false;
        }
        buf[j] := ch.b;
        j := j + 1;
      }
      AllCame(input, old(pos), buf[..]);
      var chk := Check(buf[2..PACKET + 2]);
      LastBytes(chk);
      ok := buf[0] == blocknum && buf[1] == !blocknum
        && buf[PACKET + 2] == ((chk >> 8) & 0xFF) as bv8 && buf[PACKET + 3] == (chk & 0xFF) as bv8;
      Validated(buf[..], blocknum);
      if !ok {
        Out(NAK);
      }
    }

    // What is kept between two attempts.
    ghost function Now(retries: nat, starting: bool, taken: Taken, since: nat): Session
      reads this
    {
      Session(pos, retries, starting, taken, sent, since)
    }

    // The buffer holds the payloads so far, in order, and there is room for them.
    ghost predicate Holds(t: Taken, size: nat, limit: nat)
      reads `dest
    {
      && size == PACKET * |t.records| && size <= limit == |dest| == Limit(|t.records|)
      && dest[..size] == Payloads(t.records)
    }

    /** What is returned, read, answered and stored is what o says. */
    ghost predicate Result(o: Outcome, r: int)
      reads `pos, `sent, `dest
    {
      && r == o.code && pos == o.pos && sent == o.sent
      && PACKET * |o.taken.records| <= |dest| && dest[..PACKET * |o.taken.records|] == Payloads(o.taken.records)
    }

    // What is done with a record that has been taken: not ok when the buffer cannot be made large enough.
    method Store(size: nat, limit0: nat, buf: array<bv8>, ghost t: Taken) returns (limit: nat, ok: bool)
      requires Holds(t, size, limit0) && buf.Length == RECORD && pos <= |input| && RECORD < pos
      modifies `pos, `sent, `dest
      ensures ok <==> !Full(|t.records|, memory)
      ensures var p := Quiet(input, old(pos));
        && pos == (if ok then p else Quiet(input, p))
        && sent == old(sent) + if ok then [ACK] else [CAN, CAN, CAN]
      ensures ok ==>
        Holds(Taken(t.records + [buf[..]], t.starts + [old(pos) - RECORD]), size + PACKET, limit)
      ensures !ok ==> dest == old(dest)
    {
      hide Quiet;
      limit := limit0;
      Flush(false);
      if size + PACKET > limit {
        limit := limit + INCREMENT;
        if limit > memory {
          Flush(true);
          return limit, false;
        }
        var more: seq<bv8> := seq(INCREMENT, _ => 0);
        dest := dest + more;
      }
      Out(ACK);
      ghost var d := dest;
      dest := dest[..size] + buf[2..PACKET + 2] + dest[size + PACKET..];
      Copied(d, size, buf[..], dest);
      PayloadsMore(t.records, buf[..]);
      ok := true;
    }

    // A record is expected behind an SOH.
    method Packet(size: nat, limit0: nat, packnum: bv8, buf: array<bv8>, ghost s: Session) returns (got: Got, limit: nat)
      requires s.pos < |input| && input[s.pos] == Byte(SOH) && pos == s.pos + 1 && sent == Called(s) && s.retries > 0
      requires Holds(s.taken, size, limit0) && packnum == Expected(s.taken) && buf.Length == RECORD
      modifies `pos, `sent, `dest, buf
      ensures pos <= |input| && (got != NoRoom ==> old(pos) <= pos)
      ensures got == Refused ==>
        && Transfer(input, memory, s) == Transfer(input, memory, Failed(input, s)) && Holds(s.taken, size, limit)
        && Failed(input, s) == s.(pos := pos, retries := s.retries - 1, starting := false, sent := sent)
      ensures got == Kept ==> s.pos + 1 + RECORD <= |input|
      ensures got == Kept ==>
        var s' := Stored(input, s, Record(input, s.pos + 1));
        && Transfer(input, memory, s) == Transfer(input, memory, s') && Holds(s'.taken, size + PACKET, limit)
        && s' == Session(pos, RETRY_LIMIT, false, s'.taken, sent, s'.since)
        && |s'.taken.records| == |s.taken.records| + 1
      ensures got == NoRoom ==>
        Result(Transfer(input, memory, s), OUT_OF_MEM)
    {
      hide Transfer, Attempt, Quiet, ReadEnd, ValidRecord, Full, Payloads, Holds, Record, Num;
      limit := limit0;
      HoldsSize(s.taken, size, limit);
      var ok := GetRecord(packnum, buf);
      Tried(input, memory, s);
      if !ok {
        return Refused, limit;
      }
      limit, ok := Store(size, limit, buf, s.taken);
      got := if ok then Kept else NoRoom;
    }

    // The character an attempt begins with; a first record is asked for.
    method Listen(starting: bool, ghost s: Session) returns (ch: Char)
      requires pos == s.pos <= |input| && sent == s.sent && starting == s.starting
      modifies `pos, `sent
      ensures ch == Next(input, s.pos) && pos == After(input, s.pos) && sent == Called(s)
    {
      if starting {
        Out(CRC_MODE);
      }
      ch := In();
    }

    // The transmission has ended or been cancelled.
    method Close(ch: bv8, size: nat, ghost limit: nat, ghost s: Session) returns (r: int)
      requires s.pos < |input| && input[s.pos] == Byte(ch) && (ch == EOT || ch == CAN) && pos == s.pos + 1
      requires sent == Called(s) && s.retries > 0 && Holds(s.taken, size, limit)
      modifies `pos, `sent
      ensures pos <= |input| && Result(Transfer(input, memory, s), r)
    {
      hide Transfer, Quiet, Payloads;
      Ending(input, memory, s);
      Out(ACK);
      Flush(false);
      r := if ch == EOT then size else REMOTE_CANCEL;
    }

    method GiveUp(ghost size: nat, ghost limit: nat, ghost s: Session) returns (r: int)
      requires pos == s.pos <= |input| && sent == s.sent && s.retries == 0 && Holds(s.taken, size, limit)
      modifies `pos, `sent
      ensures pos <= |input| && Result(Transfer(input, memory, s), r)
    {
      hide Transfer, Quiet, Payloads;
      GivenUp(input, memory, s);
      Flush(true);
      r := RETRY_EXCEED;
    }

    /** xmodem_receive: what is returned, stored, read and answered is what the transfer comes to. */
    method Receive() returns (r: int)
      requires |dest| == INITIAL_SIZE && pos <= |input|
      modifies this
      ensures pos <= |input| && Result(Transfer(input, memory, Opened(old(pos), old(sent))), r)
    {
      hide Transfer, Attempt, Quiet, ReadEnd, ValidRecord, Full, Payloads, Holds, Record, Num, Failed, Stored, Called,
        Result;
      var starting, packnum: bv8, retries: nat := true, 1, RETRY_LIMIT;
      var limit: nat, size: nat := INITIAL_SIZE, 0;
      var buf := new bv8[RECORD];
      ghost var s := Opened(pos, sent);
      ghost var o := Transfer(input, memory, s);
      NothingYet();
      while retries > 0
        invariant fresh(buf) && pos <= |input| && s == Now(retries, starting, s.taken, s.since)
        invariant Transfer(input, memory, s) == o && Holds(s.taken, size, limit) && packnum == Expected(s.taken)
        decreases |input| - pos, retries
      {
        retries := retries - 1;
        var ch := Listen(starting, s);
        if ch == Timeout || (ch.b != SOH && ch.b != EOT && ch.b != CAN) {
          NotTried(input, memory, s);
          s := Failed(input, s);
          continue;
        }
        if ch.b != SOH {
          r := Close(ch.b, size, limit, s);
          return;
        }
        starting := false;
        var got;
        got, limit := Packet(size, limit, packnum, buf, s);
        match got
        case Refused =>
          s := Failed(input, s);
        case Kept =>
          retries := RETRY_LIMIT;
          packnum := packnum + 1;
          size := size + PACKET;
          NextNumber(|s.taken.records|);
          s := Stored(input, s, Record(input, s.pos + 1));
        case NoRoom =>
          return OUT_OF_MEM;
      }
      r := GiveUp(size, limit, s);
    }

    lemma NothingYet()
      requires |dest| == INITIAL_SIZE
      ensures Holds(Taken([], []), 0, INITIAL_SIZE) && Num(1) == 1
    {
      assert Num(1) == Num(0) + 1;
    }

    lemma HoldsSize(t: Taken, size: nat, limit: nat)
      requires Holds(t, size, limit)
      ensures size == PACKET * |t.records| <= |dest| && dest[..size] == Payloads(t.records)
    {
    }
  }

  // What the first character of an attempt makes of the transfer: nothing of use, ...
  lemma NotTried(input: seq<Char>, memory: nat, s: Session)
    requires s.pos <= |input| && s.retries > 0
    requires var ch := Next(input, s.pos); ch == Timeout || (ch.b != SOH && ch.b != EOT && ch.b != CAN)
    ensures Transfer(input, memory, s) == Transfer(input, memory, Failed(input, s))
    ensures Failed(input, s) == s.(pos := After(input, s.pos), retries := s.retries - 1, sent := Called(s))
  {
  }

  // ... the end, ...
  lemma Ending(input: seq<Char>, memory: nat, s: Session)
    requires s.pos < |input| && s.retries > 0 && (input[s.pos] == Byte(EOT) || input[s.pos] == Byte(CAN))
    ensures Transfer(input, memory, s) == Outcome(
      if input[s.pos] == Byte(EOT) then PACKET * |s.taken.records| else REMOTE_CANCEL, s.taken, Quiet(input, s.pos + 1),
      Called(s) + [ACK], s.pos)
  {
  }

  // ... or a record.
  lemma Tried(input: seq<Char>, memory: nat, s: Session)
    requires s.pos < |input| && s.retries > 0 && input[s.pos] == Byte(SOH)
    ensures var b, o := Record(input, s.pos + 1), Transfer(input, memory, s);
      if !ValidRecord(b, Expected(s.taken)) then o == Transfer(input, memory, Failed(input, s))
      else
        && s.pos + 1 + RECORD <= |input|
        && o == if !Full(|s.taken.records|, memory) then Transfer(input, memory, Stored(input, s, b)) else
          Outcome(OUT_OF_MEM, s.taken, Quiet(input, Quiet(input, s.pos + 1 + RECORD)), Called(s) + [CAN, CAN, CAN], s.pos)
  {
  }

  lemma GivenUp(input: seq<Char>, memory: nat, s: Session)
    requires s.pos <= |input| && s.retries == 0
    ensures Transfer(input, memory, s) ==
      Outcome(RETRY_EXCEED, s.taken, Quiet(input, s.pos), s.sent + [CAN, CAN, CAN], s.since)
  {
  }

  lemma NextNumber(n: nat)
    ensures Num(n + 1) + 1 == Num(n + 2)
  {
  }

  lemma Copied(d: seq<bv8>, size: nat, b: seq<bv8>, d': seq<bv8>)
    requires |b| == RECORD && size + PACKET <= |d| && d' == d[..size] + b[2..PACKET + 2] + d[size + PACKET..]
    ensures |d'| == |d| && d'[..size + PACKET] == d[..size] + b[2..PACKET + 2]
  {
  }

  lemma PayloadsMore(rs: seq<seq<bv8>>, b: seq<bv8>)
    requires |b| == RECORD
    ensures Payloads(rs + [b]) == Payloads(rs) + b[2..PACKET + 2]
  {
    assert (rs + [b])[..|rs|] == rs;
  }

  lemma LastBytes(chk: bv32)
    ensures ((chk >> 8) & 0xFF) as bv8 == HighByte(Low16(chk)) && (chk & 0xFF) as bv8 == LowByte(Low16(chk))
  {
  }

  lemma Validated(b: seq<bv8>, n: bv8)
    requires |b| == RECORD
    ensures var c := Crc(b[2..PACKET + 2]);
      ValidRecord(b, n) <==> b[0] == n && b[1] == !n && b[PACKET + 2] == HighByte(c) && b[PACKET + 3] == LowByte(c)
  {
  }

  lemma AllCame(input: seq<Char>, s: nat, b: seq<bv8>)
    requires |b| == RECORD && Delivered(input, s, b)
    ensures Record(input, s) == b
  {
    forall i | s <= i < s + RECORD
      ensures input[i].Byte?
    {
      assert input[s + (i - s)] == Byte(b[i - s]);
    }
  }

  lemma Interrupted(input: seq<Char>, s: nat, j: nat, n: bv8)
    requires j < RECORD && s + j <= |input| && Next(input, s + j) == Timeout
    ensures !ValidRecord(Record(input, s), n)
  {
    assert s + RECORD <= |input| ==> input[s + j] == Timeout;
  }
}
