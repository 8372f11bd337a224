/** The ULog-over-MAVLink receiver (mavlink_ulog_streaming.py): sequence numbers and message reassembly. */
module Ulog {
  import opened Bytes

  const HEADER_LEN := 16
  const NO_MESSAGE := 255
  const HALF := 0x8000
  const WRAP := 0x1_0000

  /* ---------- What the methods compute ---------- */

  /** Length of the message that starts `data`, from its three-byte header. */
  function MessageLength(data: seq<byte>): nat
    requires |data| > 2
  {
    data[0] as nat + data[1] as nat * 256 + 3
  }

  /** The complete messages at the front of `data`, as bytes; and what is left behind them. */
  function Whole(data: seq<byte>): seq<byte> {
    if |data| > 2 && MessageLength(data) <= |data|
    then data[..MessageLength(data)] + Whole(data[MessageLength(data)..])
    else []
  }

  function Rest(data: seq<byte>): seq<byte> {
    if |data| > 2 && MessageLength(data) <= |data| then Rest(data[MessageLength(data)..]) else data
  }

  lemma Rejoin(data: seq<byte>, n: nat, whole: seq<byte>, rest: seq<byte>)
    requires n <= |data| && whole + rest == data[n..]
    ensures (data[..n] + whole) + rest == data
  {
    assert (data[..n] + whole) + rest == data[..n] + (whole + rest);
  }

  lemma {:induction false} WholeThenRest(data: seq<byte>)
    ensures Whole(data) + Rest(data) == data
  {
    if |data| > 2 && MessageLength(data) <= |data| {
      var n := MessageLength(data);
      assert n >= 3;
      hide MessageLength;
      WholeThenRest(data[n..]);
      Rejoin(data, n, Whole(data[n..]), Rest(data[n..]));
    }
  }

  /** A message is its payload's length in two bytes, least significant first, its type and its payload;
      one that has come whole is written and the rest goes on behind it. */
  lemma MessageSplit(kind: byte, payload: seq<byte>, rest: seq<byte>)
    requires |payload| < 0x1_0000
    ensures var m: seq<byte> := [|payload| % 256, |payload| / 256, kind] + payload;
      && MessageLength(m) == |m| && Whole(m + rest) == m + Whole(rest) && Rest(m + rest) == Rest(rest)
  {
    var m: seq<byte> := [|payload| % 256, |payload| / 256, kind] + payload;
    assert (m + rest)[..|m|] == m && (m + rest)[|m|..] == rest;
  }

  /** One of which a byte is missing, or the header is not whole, stays pending. */
  lemma TornMessage(kind: byte, payload: seq<byte>, n: nat)
    requires |payload| < 0x1_0000 && n < |payload| + 3
    ensures var m: seq<byte> := [|payload| % 256, |payload| / 256, kind] + payload;
      Whole(m[..n]) == [] && Rest(m[..n]) == m[..n]
  {}

  /** Slices past the end are empty, not errors. */
  function TakeFirst(data: seq<byte>, n: nat): seq<byte> { if n <= |data| then data[..n] else data }

  function DropFirst(data: seq<byte>, n: nat): seq<byte> { if n <= |data| then data[n..] else [] }

  /** A dropout message: two payload bytes, type 'O', a duration of 10 ms a packet, at most 250. */
  function DropoutRecord(drops: nat): (r: seq<byte>)
    ensures |r| == 5 && MessageLength(r) == 5
  {
    [2, 0, 79, (if drops > 25 then 25 else drops) * 10, 0]
  }

  /** The record reads back as a message of type 'O' with two payload bytes, the duration in milliseconds. */
  lemma RecordFormat(drops: nat)
    ensures var r := DropoutRecord(drops);
      && |r| == 5 && r[0] as nat + 256 * r[1] as nat == 2 && r[2] as char == 'O'
      && r[3] as nat + 256 * r[4] as nat == if drops < 25 then 10 * drops else 250
  {}

  lemma CappedRecord(drops: nat)
    ensures drops > 25 ==> DropoutRecord(drops) == DropoutRecord(25)
  {}

  /** The part of the receiver's state that reassembly uses. */
  datatype State = State(gotHeader: bool, section: bool, pending: seq<byte>, file: seq<byte>)

  function Splice(st: State, data: seq<byte>, start: nat): State {
    if start == NO_MESSAGE && st.pending != [] then st.(pending := st.pending + data)
    else
      var completed := if st.pending != [] then st.pending + TakeFirst(data, start) else [];
      var data' := DropFirst(data, start);
      st.(file := st.file + completed + Whole(data'), pending := Rest(data'))
  }

  /** One accepted packet; None is the exception for a first packet shorter than the file header. */
  function Process(st: State, data: seq<byte>, start: nat, drops: nat): Option<State> {
    if !st.gotHeader && |data| < HEADER_LEN then None
    else
      var d := if st.gotHeader then data else data[HEADER_LEN..];
      var st1 := if st.gotHeader then st else st.(gotHeader := true, file := st.file + data[..HEADER_LEN]);
      if drops == 0 then Some(Splice(st1, d, start))
      else
        var record := if st.section then DropoutRecord(drops) else [];
        var st2 := st1.(file := st1.file + record + Whole(st.pending), pending := []);
        Some(if start == NO_MESSAGE then st2 else Splice(st2, DropFirst(d, start), 0))
  }

  /** The sequence number a packet carries: its index, modulo 2^16. */
  function Numbered(index: nat): (seqno: nat)
    ensures seqno < WRAP
  {
    index % WRAP
  }

  /** Newer or not, and how many packets are missing in between, by the distance from the last number
      round the circle of 2^16: less than half of it is ahead. Exactly half is ahead from the lower half
      of the numbers only. */
  function Check(last: int, seqno: nat): (bool, nat)
    requires -1 <= last < WRAP && seqno < WRAP
  {
    var d := (seqno - last) % WRAP;
    if last == -1 then (true, 0)
    else if 0 < d < HALF || (d == HALF && last < HALF) then (true, d - 1)
    else (false, 0)
  }

  /** The receiver's whole state: also the last accepted sequence number (-1 for none) and the drop count. */
  datatype Status = Status(st: State, last: int, drops: nat)

  /** One data message: a newer one is counted and processed, any other leaves everything as it was. */
  function Received(r: Status, acked: bool, seqno: nat, data: seq<byte>, start: nat): Option<Status>
    requires -1 <= r.last < WRAP && seqno < WRAP
  {
    var (newer, lost) := Check(r.last, seqno);
    if !newer then Some(r)
    else
      match Process(r.st.(section := r.st.section || !acked), data, start, lost)
      case None => None
      case Some(st) => Some(Status(st, seqno, r.drops + lost))
  }

  /* ---------- The receiver ---------- */

  class Receiver {
    var gotUlogHeader: bool
    var gotHeaderSection: bool
    var ulogMessage: seq<byte>
    var file: seq<byte>
    var lastSequence: int
    var numDropouts: nat
    var loggingStarted: bool

    constructor ()
      ensures View() == State(false, false, [], []) && lastSequence == -1 && numDropouts == 0
    {
      gotUlogHeader, gotHeaderSection, ulogMessage, file := false, false, [], [];
      lastSequence, numDropouts, loggingStarted := -1, 0, false;
    }

    ghost function View(): State
      reads this
    {
      State(gotUlogHeader, gotHeaderSection, ulogMessage, file)
    }

    /** write_ulog_messages */
    method WriteUlogMessages(data: seq<byte>) returns (rest: seq<byte>)
      modifies this`file
      ensures file == old(file) + Whole(data) && rest == Rest(data)
    {
      rest := data;
      while |rest| > 2
        invariant file + Whole(rest) == old(file) + Whole(data) && Rest(rest) == Rest(data)
        decreases |rest|
      {
        var messageLength := rest[0] as nat + rest[1] as nat * 256 + 3;
        if messageLength > |rest| {
          break;
        }
        file := file + rest[..messageLength];
        rest := rest[messageLength..];
      }
    }

    /** process_streamed_ulog_data; false where the tool raises an exception. */
    method ProcessStreamedUlogData(data: seq<byte>, firstMsgStart: byte, numDrops: nat) returns (ok: bool)
      modifies this`gotUlogHeader, this`ulogMessage, this`file
      ensures ok <==> Process(old(View()), data, firstMsgStart, numDrops).Some?
      ensures View() == if ok then Process(old(View()), data, firstMsgStart, numDrops).value else old(View())
    {
      hide Whole, Rest, DropoutRecord, DropFirst, Splice;
      CappedRecord(numDrops);
      var d, start, drops := data, firstMsgStart, numDrops;
      if !gotUlogHeader {
        if |d| < HEADER_LEN {
          return false;
        }
        file := file + d[..HEADER_LEN];
        d := d[HEADER_LEN..];
        gotUlogHeader := true;
      }
      if gotHeaderSection && drops > 0 {
        if drops > 25 {
          drops := 25;
        }
        file := file + DropoutRecord(drops);
      }
      assert file + [] == file;
      if drops > 0 {
        var discarded := WriteUlogMessages(ulogMessage);
        ulogMessage := [];
        if start == NO_MESSAGE {
          return true;
        }
        d := DropFirst(d, start);
        start := 0;
      }
      SpliceData(d, start);
      return true;
    }

    /** The second half of process_streamed_ulog_data: extend the pending message, or complete it and
        split off those behind it. */
    method SpliceData(d: seq<byte>, start: byte)
      modifies this`ulogMessage, this`file
      ensures View() == Splice(old(View()), d, start)
    {
      hide Whole, Rest, TakeFirst, DropFirst;
      if start == NO_MESSAGE && |ulogMessage| > 0 {
        ulogMessage := ulogMessage + d;
        return;
      }
      if |ulogMessage| > 0 {
        file := file + (ulogMessage + TakeFirst(d, start));
        ulogMessage := [];
      }
      ulogMessage := WriteUlogMessages(DropFirst(d, start));
    }

    /** check_sequence: whatever packets the two numbers stand for, if they are less than 2^15 apart then
        `newer` says which came later, and `drops` how many lie between. */
    method CheckSequence(seqno: nat) returns (newer: bool, drops: nat)
      requires -1 <= lastSequence < WRAP && seqno < WRAP
      ensures (newer, drops) == Check(lastSequence, seqno)
      ensures lastSequence == -1 ==> newer && drops == 0
      ensures forall last: nat, x: nat ::
        lastSequence == Numbered(last) && seqno == Numbered(x) && -HALF < x - last < HALF ==>
          (newer <==> x > last) && drops == if x > last then x - last - 1 else 0
    {
      forall last: nat, x: nat | lastSequence == Numbered(last) && seqno == Numbered(x) && -HALF < x - last < HALF
        ensures Check(lastSequence, seqno) == if x > last then (true, (x - last - 1) as nat) else (false, 0)
      {
        SequenceExact(last, x);
      }
      if lastSequence == -1 {
        return true, 0;
      }
      if seqno == lastSequence {
        return false, 0;
      }
      if seqno > lastSequence {
        if seqno - lastSequence > HALF {
          return false, 0;
        }
        return true, seqno - lastSequence - 1;
      } else {
        if lastSequence - seqno > HALF {
          return true, WRAP - lastSequence - 1 + seqno;
        }
        return false, 0;
      }
    }

    ghost function Overall(): Status
      reads this
      requires -1 <= lastSequence < WRAP
    {
      Status(View(), lastSequence, numDropouts)
    }

    /** read_message and the call that follows it, for one LOGGING_DATA or LOGGING_DATA_ACKED message. */
    method Receive(acked: bool, seqno: nat, data: seq<byte>, firstMsgStart: byte) returns (ok: bool)
      requires -1 <= lastSequence < WRAP && seqno < WRAP
      modifies this
      ensures -1 <= lastSequence < WRAP
      ensures ok <==> Received(old(Overall()), acked, seqno, data, firstMsgStart).Some?
      ensures ok ==> Overall() == Received(old(Overall()), acked, seqno, data, firstMsgStart).value
    {
      hide Process;
      var newer, drops := CheckSequence(seqno);
      if !newer {
        return true;
      }
      if drops > 0 {
        numDropouts := numDropouts + drops;
      }
      if !acked {
        if !gotHeaderSection {
          loggingStarted := true;
          gotHeaderSection := true;
        }
      }
      lastSequence := seqno;
      ok := ProcessStreamedUlogData(data, firstMsgStart, drops);
    }
  }

  /* ---------- Sequence numbers ---------- */

  lemma Circle(last: nat, x: nat)
    ensures (Numbered(x) - Numbered(last)) % WRAP == (x - last) % WRAP
  {
    var q := x / WRAP - last / WRAP;
    assert x - last == Numbered(x) - Numbered(last) + q * WRAP;
  }

  /** Within 2^15 - 1 of the last accepted packet the wrapped numbers decide exactly as the true indices
      would, and the count of missing packets is exact. */
  lemma SequenceExact(last: nat, x: nat)
    requires -HALF < x - last < HALF
    ensures Check(Numbered(last), Numbered(x)) == if x > last then (true, (x - last - 1) as nat) else (false, 0)
  {
    Circle(last, x);
  }

  /** At a distance of exactly 2^15 the answer depends on where in the 16-bit range the last number is. */
  lemma SequenceTie(last: nat, x: nat)
    requires x == last + HALF || last == x + HALF
    ensures Check(Numbered(last), Numbered(x)).0 <==> Numbered(last) < HALF
  {
    Circle(last, x);
  }
}
