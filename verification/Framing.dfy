/** What a MAVLink frame is: its bytes, its parts, and the simplest receiver that could read them. */
module Framing {
  import opened Bytes
  import opened Crc16

  const STX: byte := 0xFD
  const STX_MAVLINK1: byte := 0xFE
  const SIGNATURE_BLOCK_LEN := 13
  const MAX_PACKET_LEN := 280

  /* ---------- The message table ---------- */

  datatype MsgEntry = MsgEntry(msgid: nat, crcExtra: byte, minMsgLen: byte, maxMsgLen: byte)

  ghost predicate Sorted(table: seq<MsgEntry>) {
    forall i, j :: 0 <= i < j < |table| ==> table[i].msgid < table[j].msgid
  }

  /** The entry for `msgid`, if the table has one. */
  function Lookup(table: seq<MsgEntry>, msgid: nat): Option<MsgEntry> {
    if table == [] then None
    else if table[0].msgid == msgid then Some(table[0])
    else Lookup(table[1..], msgid)
  }

  lemma {:induction false} LookupFound(table: seq<MsgEntry>, i: nat)
    requires Sorted(table) && i < |table|
    ensures Lookup(table, table[i].msgid) == Some(table[i])
  {
    if i > 0 {
      assert table[0].msgid < table[i].msgid;
      assert Sorted(table[1..]);
      LookupFound(table[1..], i - 1);
    }
  }

  lemma {:induction false} LookupMissing(table: seq<MsgEntry>, msgid: nat)
    requires forall i :: 0 <= i < |table| ==> table[i].msgid != msgid
    ensures Lookup(table, msgid) == None
  {
    if table != [] {
      LookupMissing(table[1..], msgid);
    }
  }

  /** mavlink_get_msg_entry: bisection in the sorted table. */
  method GetMsgEntry(table: seq<MsgEntry>, msgid: nat) returns (e: Option<MsgEntry>)
    requires Sorted(table) && table != []
    ensures e == Lookup(table, msgid)
    ensures e.Some? <==> exists i :: 0 <= i < |table| && table[i].msgid == msgid
    ensures e.Some? ==> e.value in table && e.value.msgid == msgid
  {
    var low, high := 0, |table| - 1;
    while low < high
      invariant 0 <= low <= high < |table|
      invariant forall i :: 0 <= i < |table| && table[i].msgid == msgid ==> low <= i <= high
    {
      var mid := (low + 1 + high) / 2;
      if msgid < table[mid].msgid {
        high := mid - 1;
        continue;
      }
      if msgid > table[mid].msgid {
        low := mid;
        continue;
      }
      low := mid;
      break;
    }
    if table[low].msgid != msgid {
      LookupMissing(table, msgid);
      return None;
    }
    LookupFound(table, low);
    return Some(table[low]);
  }

  /* ---------- Reading the parts of a whole frame ---------- */

  predicate IsV1(f: seq<byte>)
    requires |f| >= 1
  {
    f[0] == STX_MAVLINK1
  }

  /** Start byte and header, up to the payload. */
  function HeaderLen(f: seq<byte>): nat
    requires |f| >= 1
  {
    if IsV1(f) then 6 else 10
  }

  /** Where the checksum bytes begin; known once the length byte is. */
  function CrcAt(f: seq<byte>): nat
    requires |f| >= 2
  {
    HeaderLen(f) + f[1]
  }

  predicate IsSigned(f: seq<byte>)
    requires |f| >= 3
  {
    !IsV1(f) && f[2] == 1
  }

  function FrameLen(f: seq<byte>): nat
    requires |f| >= 3
  {
    CrcAt(f) + 2 + if IsSigned(f) then SIGNATURE_BLOCK_LEN else 0
  }

  /** A header no frame can have: an incompatibility flag this receiver does not know. */
  predicate Unsupported(f: seq<byte>)
    requires |f| >= 3
  {
    !IsV1(f) && f[2] > 1
  }

  predicate IsFrame(f: seq<byte>) {
    |f| >= 3 && (f[0] == STX || f[0] == STX_MAVLINK1) && !Unsupported(f) && |f| == FrameLen(f)
  }

  type Frame = f: seq<byte> | IsFrame(f) witness [STX_MAVLINK1, 0, 0, 0, 0, 0, 0, 0]

  function SeqAt(f: seq<byte>): nat
    requires |f| >= 1
  {
    if IsV1(f) then 2 else 4
  }

  function SeqOf(f: Frame): byte { f[SeqAt(f)] }
  function SysidOf(f: Frame): byte { f[SeqAt(f) + 1] }
  function CompidOf(f: Frame): byte { f[SeqAt(f) + 2] }

  function LowByte(n: nat): byte { n % 0x100 }

  /** A 24-bit message id, least significant byte first. */
  function MsgidBytes(n: nat): (s: seq<byte>)
    ensures |s| == 3
  {
    [n % 0x100, n / 0x100 % 0x100, n / 0x1_0000 % 0x100]
  }

  /** The six header bytes of version 1 and the ten of version 2. */
  function HeaderV1(magic: byte, len: byte, seqno: byte, sysid: byte, compid: byte, msgid: nat): (h: seq<byte>)
    ensures |h| == 6
  {
    [magic, len, seqno, sysid, compid, LowByte(msgid)]
  }

  function HeaderV2(magic: byte, len: byte, incompatFlags: byte, compatFlags: byte, seqno: byte, sysid: byte, compid: byte, msgid: nat): (h: seq<byte>)
    ensures |h| == 10
  {
    [magic, len, incompatFlags, compatFlags, seqno, sysid, compid] + MsgidBytes(msgid)
  }

  lemma MsgidBytesRoundTrip(n: nat)
    requires n < 0x100_0000
    ensures var s := MsgidBytes(n);
      n == (s[0] as nat) + 0x100 * (s[1] as nat) + 0x1_0000 * (s[2] as nat)
  {
    assert n / 0x1_0000 == n / 0x100 / 0x100;
  }

  function MsgidOf(f: seq<byte>): nat
    requires |f| >= 1 && |f| >= HeaderLen(f)
  {
    if IsV1(f) then f[5] else (f[7] as nat) + 0x100 * (f[8] as nat) + 0x1_0000 * (f[9] as nat)
  }

  function PayloadOf(f: seq<byte>): seq<byte>
    requires |f| >= 2 && |f| >= CrcAt(f)
  {
    f[HeaderLen(f)..CrcAt(f)]
  }

  /** The checksum the frame should carry: all but the start byte, then the message's crc_extra. */
  function CrcOf(f: seq<byte>, crcExtra: byte): bv16
    requires |f| >= 2 && |f| >= CrcAt(f)
  {
    Crc(INIT_CRC, f[1..CrcAt(f)] + [crcExtra])
  }

  predicate FirstCrcByteGood(table: seq<MsgEntry>, f: seq<byte>)
    requires |f| >= 2 && |f| > CrcAt(f)
  {
    var e := Lookup(table, MsgidOf(f));
    e.Some? && f[CrcAt(f)] == Lo(CrcOf(f, e.value.crcExtra))
  }

  predicate CrcGood(table: seq<MsgEntry>, f: seq<byte>)
    requires |f| >= 2 && |f| >= CrcAt(f) + 2
  {
    FirstCrcByteGood(table, f) && f[CrcAt(f) + 1] == Hi(CrcOf(f, Lookup(table, MsgidOf(f)).value.crcExtra))
  }

  /** The payload as the application sees it: short payloads are extended with zeros. */
  function ZeroExtended(table: seq<MsgEntry>, f: seq<byte>): seq<byte>
    requires |f| >= 2 && |f| >= CrcAt(f)
  {
    match Lookup(table, MsgidOf(f))
    case None => PayloadOf(f)
    case Some(e) => if |PayloadOf(f)| < e.maxMsgLen then PayloadOf(f) + Zeros(e.maxMsgLen - |PayloadOf(f)|) else PayloadOf(f)
  }

  /** Everything the signature covers (with the key in front), and the signature itself. */
  function SignedPart(f: Frame): seq<byte>
    requires IsSigned(f)
  {
    f[..CrcAt(f) + 9]
  }

  function SignatureOf(f: Frame): (s: seq<byte>)
    requires IsSigned(f)
    ensures |s| == 6
  {
    f[CrcAt(f) + 9..]
  }

  function LinkOf(f: Frame): byte
    requires IsSigned(f)
  {
    f[CrcAt(f) + 2]
  }

  function TimestampOf(f: Frame): nat
    requires IsSigned(f)
  {
    FromLittleEndian(f[CrcAt(f) + 3..CrcAt(f) + 9])
  }

  /* ---------- The reference receiver: collect bytes until a whole frame is there ---------- */

  /** What may be pending between two calls: nothing, or a proper prefix of a frame. */
  predicate IsPending(p: seq<byte>) {
    p != [] ==>
      && (p[0] == STX || p[0] == STX_MAVLINK1)
      && (|p| >= 3 ==> !Unsupported(p) && |p| < FrameLen(p))
  }

  type Pending = p: seq<byte> | IsPending(p) witness []

  /** The frame that `c` completes, if it does. */
  function Completes(p: Pending, c: byte): Option<Frame> {
    if |p| >= 2 && IsFrame(p + [c]) then Some(p + [c]) else None
  }

  /** What is pending after `c`. */
  function Pend(p: Pending, c: byte): Pending {
    if p == [] then (if c == STX || c == STX_MAVLINK1 then [c] else [])
    else if |p| >= 2 && (Unsupported(p + [c]) || |p + [c]| == FrameLen(p + [c])) then []
    else p + [c]
  }

  /** Bytes still to come, at most, before the receiver is idle again. */
  function Remaining(p: Pending): nat {
    if p == [] then 0
    else if |p| == 1 then MAX_PACKET_LEN - 1
    else CrcAt(p) + 2 + (if IsV1(p) || (|p| >= 3 && !IsSigned(p)) then 0 else SIGNATURE_BLOCK_LEN) - |p|
  }

  /** Every byte of a frame brings the receiver strictly closer to idle. */
  lemma RemainingFalls(p: Pending, c: byte)
    requires p != []
    ensures 0 < Remaining(p) <= MAX_PACKET_LEN - 1 && Remaining(Pend(p, c)) < Remaining(p)
  {}

  /** The outcome of feeding a whole byte stream: the frames completed, in order, and what is left. */
  function Feed(p: Pending, stream: seq<byte>): Pending {
    if stream == [] then p else Pend(Feed(p, stream[..|stream| - 1]), stream[|stream| - 1])
  }

  lemma {:induction false} FeedConcat(p: Pending, a: seq<byte>, b: seq<byte>)
    ensures Feed(p, a + b) == Feed(Feed(p, a), b)
  {
    if b == [] {
      assert a + b == a;
    } else {
      FeedConcat(p, a, b[..|b| - 1]);
      assert (a + b)[..|a + b| - 1] == a + b[..|b| - 1];
    }
  }

  /** Within 279 bytes of a start byte the receiver has been idle again, whatever the bytes were. */
  lemma {:induction false} IdleAgain(p: Pending, stream: seq<byte>)
    requires p != [] && |stream| >= Remaining(p)
    ensures exists n :: 1 <= n <= Remaining(p) && Feed(p, stream[..n]) == []
    decreases |stream|
  {
    RemainingFalls(p, stream[0]);
    var q := Pend(p, stream[0]);
    var one := stream[..1];
    assert one[..0] == [];
    assert Feed(p, one) == q;
    if q != [] {
      IdleAgain(q, stream[1..]);
      var n :| 1 <= n <= Remaining(q) && Feed(q, stream[1..][..n]) == [];
      FeedConcat(p, one, stream[1..][..n]);
      assert one + stream[1..][..n] == stream[..n + 1];
    }
  }
}
