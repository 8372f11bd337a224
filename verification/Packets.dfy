/** What the sender puts on the wire, and why the receiver reads back exactly that. */
module Packets {
  import opened Bytes
  import opened Crc16
  import opened Framing

  /** The content of one outgoing message; `payload` is as transmitted. */
  datatype Packet = Packet(v1: bool, signed: bool, seqno: byte, sysid: byte, compid: byte, msgid: nat, payload: seq<byte>)

  predicate Sendable(p: Packet) {
    && |p.payload| <= 255
    && p.msgid < (if p.v1 then 0x100 else 0x100_0000)
    && (p.v1 ==> !p.signed)
  }

  function Header(p: Packet): (h: seq<byte>)
    requires Sendable(p)
    ensures |h| == if p.v1 then 6 else 10
  {
    if p.v1 then HeaderV1(STX_MAVLINK1, |p.payload|, p.seqno, p.sysid, p.compid, p.msgid)
    else HeaderV2(STX, |p.payload|, if p.signed then 1 else 0, 0, p.seqno, p.sysid, p.compid, p.msgid)
  }

  function Checksum(p: Packet, crcExtra: byte): bv16
    requires Sendable(p)
  {
    Crc(INIT_CRC, Header(p)[1..] + p.payload + [crcExtra])
  }

  /** Header, payload and checksum. */
  function Body(p: Packet, crcExtra: byte): seq<byte>
    requires Sendable(p)
  {
    Header(p) + p.payload + [Lo(Checksum(p, crcExtra)), Hi(Checksum(p, crcExtra))]
  }

  function Encode(p: Packet, crcExtra: byte, signature: seq<byte>): seq<byte>
    requires Sendable(p) && (p.signed ==> |signature| == SIGNATURE_BLOCK_LEN)
  {
    Body(p, crcExtra) + if p.signed then signature else []
  }

  lemma Pieces<T>(a: seq<T>, b: seq<T>, c: seq<T>, d: seq<T>)
    ensures var s := a + b + c + d;
      && s[..|a|] == a && s[|a|..|a| + |b|] == b && s[|a| + |b|..|a| + |b| + |c|] == c && s[|a| + |b| + |c|..] == d
  {}

  /** An encoded packet is a frame, and every part reads back. */
  lemma EncodeIsFrame(p: Packet, crcExtra: byte, signature: seq<byte>)
    requires Sendable(p) && (p.signed ==> |signature| == SIGNATURE_BLOCK_LEN)
    ensures var f := Encode(p, crcExtra, signature);
      && IsFrame(f) && IsV1(f) == p.v1 && IsSigned(f) == p.signed
      && SeqOf(f) == p.seqno && SysidOf(f) == p.sysid && CompidOf(f) == p.compid
      && MsgidOf(f) == p.msgid && PayloadOf(f) == p.payload
      && CrcOf(f, crcExtra) == Checksum(p, crcExtra)
      && f[CrcAt(f)..CrcAt(f) + 2] == [Lo(Checksum(p, crcExtra)), Hi(Checksum(p, crcExtra))]
      && (p.signed ==> f[CrcAt(f) + 2..] == signature)
  {
    hide Crc, Lo, Hi;
    var f := Encode(p, crcExtra, signature);
    MsgidBytesRoundTrip(p.msgid);
    Pieces(Header(p), p.payload, [Lo(Checksum(p, crcExtra)), Hi(Checksum(p, crcExtra))], if p.signed then signature else []);
    assert f[..HeaderLen(f)] == Header(p);
    assert f[1..CrcAt(f)] == Header(p)[1..] + p.payload;
  }

  lemma EncodeChecks(table: seq<MsgEntry>, p: Packet, e: MsgEntry, signature: seq<byte>)
    requires Sendable(p) && (p.signed ==> |signature| == SIGNATURE_BLOCK_LEN)
    requires Lookup(table, p.msgid) == Some(e)
    ensures CrcGood(table, Encode(p, e.crcExtra, signature))
  {
    hide Crc, Lo, Hi;
    EncodeIsFrame(p, e.crcExtra, signature);
    var f := Encode(p, e.crcExtra, signature);
    var ck := f[CrcAt(f)..CrcAt(f) + 2];
    assert ck[0] == f[CrcAt(f)] && ck[1] == f[CrcAt(f) + 1];
  }

  /** The bytes of a version 2 frame, one by one. */
  lemma LayoutV2(p: Packet, crcExtra: byte, signature: seq<byte>)
    requires Sendable(p) && !p.v1 && (p.signed ==> |signature| == 13)
    ensures var f, n := Encode(p, crcExtra, signature), |p.payload|;
      && |f| == n + (if p.signed then 25 else 12)
      && f[0] == 0xFD && f[1] == n && f[2] == (if p.signed then 1 else 0) && f[3] == 0
      && f[4] == p.seqno && f[5] == p.sysid && f[6] == p.compid
      && f[7] as nat + 0x100 * f[8] as nat + 0x1_0000 * f[9] as nat == p.msgid
      && f[10..n + 10] == p.payload
      && (var c := Crc(0xFFFF, f[1..n + 10] + [crcExtra]); f[n + 10] == Lo(c) && f[n + 11] == Hi(c))
      && f[n + 12..] == if p.signed then signature else []
  {
    hide Crc, Lo, Hi;
    var f := Encode(p, crcExtra, signature);
    MsgidBytesRoundTrip(p.msgid);
    Pieces(Header(p), p.payload, [Lo(Checksum(p, crcExtra)), Hi(Checksum(p, crcExtra))], if p.signed then signature else []);
    assert f[..10] == Header(p);
    assert f[1..|p.payload| + 10] == Header(p)[1..] + p.payload;
    ChecksumBytes(f, |p.payload| + 10, Checksum(p, crcExtra));
  }

  /** And of a version 1 frame. */
  lemma LayoutV1(p: Packet, crcExtra: byte, signature: seq<byte>)
    requires Sendable(p) && p.v1
    ensures var f, n := Encode(p, crcExtra, signature), |p.payload|;
      && |f| == n + 8
      && f[0] == 0xFE && f[1] == n && f[2] == p.seqno && f[3] == p.sysid && f[4] == p.compid && f[5] == p.msgid
      && f[6..n + 6] == p.payload
      && (var c := Crc(0xFFFF, f[1..n + 6] + [crcExtra]); f[n + 6] == Lo(c) && f[n + 7] == Hi(c))
  {
    hide Crc, Lo, Hi;
    var f := Encode(p, crcExtra, signature);
    Pieces(Header(p), p.payload, [Lo(Checksum(p, crcExtra)), Hi(Checksum(p, crcExtra))], []);
    assert f[..6] == Header(p);
    assert f[1..|p.payload| + 6] == Header(p)[1..] + p.payload;
    ChecksumBytes(f, |p.payload| + 6, Checksum(p, crcExtra));
  }

  lemma ChecksumBytes(f: seq<byte>, at: nat, c: bv16)
    requires at + 2 <= |f| && f[at..at + 2] == [Lo(c), Hi(c)]
    ensures f[at] == Lo(c) && f[at + 1] == Hi(c)
  {
    hide Lo, Hi;
    var ck := f[at..at + 2];
    assert ck[0] == f[at] && ck[1] == f[at + 1];
  }

  /** A frame's checksum is good if and only if its id is in the table and the two bytes behind the payload
      are the checksum of all between start byte and there and the entry's crc_extra. */
  lemma GoodChecksum(table: seq<MsgEntry>, f: Frame)
    ensures var at := f[1] as nat + if f[0] == 0xFE then 6 else 10;
      var id := if f[0] == 0xFE then f[5] as nat else f[7] as nat + 0x100 * f[8] as nat + 0x1_0000 * f[9] as nat;
      && |f| >= at + 2
      && (CrcGood(table, f) <==>
            && Lookup(table, id).Some?
            && var c := Crc(0xFFFF, f[1..at] + [Lookup(table, id).value.crcExtra]); f[at] == Lo(c) && f[at + 1] == Hi(c))
  {
    hide Crc, Lo, Hi, Lookup;
  }

  /* ---------- Trimming trailing zeros, and putting them back ---------- */

  /** MAVLink 2 does not transmit trailing zero bytes, but always at least one byte. */
  function Trim(s: seq<byte>): (t: seq<byte>)
    ensures |t| <= |s|
  {
    if |s| > 1 && s[|s| - 1] == 0 then Trim(s[..|s| - 1]) else s
  }

  /** _mav_trim_payload: the length left after trimming the first `length` bytes of the buffer. */
  method TrimPayload(payload: array<byte>, length: byte) returns (len: byte)
    requires length <= payload.Length
    ensures len <= length && payload[..len] == Trim(payload[..length])
  {
    len := length;
    while len > 1 && payload[len - 1] == 0
      invariant len <= length
      invariant Trim(payload[..len]) == Trim(payload[..length])
    {
      assert payload[..len][..len - 1] == payload[..len - 1];
      len := len - 1;
    }
  }

  /** What trimming removes is exactly a run of zeros. */
  lemma {:induction false} TrimRemovesZeros(s: seq<byte>)
    ensures s == Trim(s) + Zeros(|s| - |Trim(s)|)
  {
    if |s| > 1 && s[|s| - 1] == 0 {
      var r := s[..|s| - 1];
      TrimRemovesZeros(r);
      assert s == r + [0];
      assert Zeros(|s| - |Trim(s)|) == Zeros(|r| - |Trim(r)|) + [0];
    }
  }

  /** And no more could go: one byte is left, or the last one is not zero. */
  lemma {:induction false} TrimIsShortest(s: seq<byte>)
    ensures s != [] ==> Trim(s) != []
    ensures |Trim(s)| > 1 ==> Trim(s)[|Trim(s)| - 1] != 0
  {
    if |s| > 1 && s[|s| - 1] == 0 {
      TrimIsShortest(s[..|s| - 1]);
    }
  }

  lemma {:induction false} TrimIdempotent(s: seq<byte>)
    ensures Trim(Trim(s)) == Trim(s)
  {
    if |s| > 1 && s[|s| - 1] == 0 {
      TrimIdempotent(s[..|s| - 1]);
    }
  }

  /** The receiver's zero-fill restores a trimmed payload to the message's full length. */
  lemma TrimThenExtend(table: seq<MsgEntry>, f: seq<byte>, full: seq<byte>, e: MsgEntry)
    requires |f| >= 2 && |f| >= CrcAt(f) && PayloadOf(f) == Trim(full) && |full| <= e.maxMsgLen
    requires Lookup(table, MsgidOf(f)) == Some(e)
    ensures ZeroExtended(table, f) == full + Zeros(e.maxMsgLen - |full|)
  {
    hide *;
    ExtendTrimmed(full, e.maxMsgLen);
    ExtensionShape(table, f, e);
  }

  lemma ExtensionShape(table: seq<MsgEntry>, f: seq<byte>, e: MsgEntry)
    requires |f| >= 2 && |f| >= CrcAt(f) && |PayloadOf(f)| <= e.maxMsgLen
    requires Lookup(table, MsgidOf(f)) == Some(e)
    ensures ZeroExtended(table, f) == PayloadOf(f) + Zeros(e.maxMsgLen - |PayloadOf(f)|)
  {
    if |PayloadOf(f)| == e.maxMsgLen {
      assert PayloadOf(f) + Zeros(0) == PayloadOf(f);
    }
  }

  lemma ExtendTrimmed(full: seq<byte>, n: nat)
    requires |full| <= n
    ensures Trim(full) + Zeros(n - |Trim(full)|) == full + Zeros(n - |full|)
  {
    hide Trim;
    TrimRemovesZeros(full);
    ZerosAdd(|full| - |Trim(full)|, n - |full|);
  }

  lemma ZerosAdd(a: nat, b: nat)
    ensures Zeros(a + b) == Zeros(a) + Zeros(b)
  {}

  /* ---------- A stream of frames through the reference receiver ---------- */

  /** Line noise without start bytes, then one frame. */
  datatype Segment = Segment(noise: seq<byte>, frame: Frame)

  predicate Quiet(noise: seq<byte>) {
    forall i :: 0 <= i < |noise| ==> noise[i] != STX && noise[i] != STX_MAVLINK1
  }

  function Wire(segments: seq<Segment>): seq<byte> {
    if segments == [] then []
    else
      var s := segments[|segments| - 1];
      Wire(segments[..|segments| - 1]) + (s.noise + s.frame)
  }

  function Nothing(n: nat): seq<Option<Frame>> { seq(n, i => None) }

  /** What the receiver should report, byte for byte: each frame once, on its last byte. */
  function Reports(segments: seq<Segment>): seq<Option<Frame>> {
    if segments == [] then []
    else
      var s := segments[|segments| - 1];
      Reports(segments[..|segments| - 1]) + (Nothing(|s.noise| + |s.frame| - 1) + [Some(s.frame)])
  }

  /** What the reference receiver does report. */
  function Outputs(p: Pending, stream: seq<byte>): (o: seq<Option<Frame>>)
    ensures |o| == |stream|
  {
    if stream == [] then []
    else
      var n := |stream| - 1;
      Outputs(p, stream[..n]) + [Completes(Feed(p, stream[..n]), stream[n])]
  }

  lemma {:induction false} OutputsConcat(p: Pending, a: seq<byte>, b: seq<byte>)
    ensures Outputs(p, a + b) == Outputs(p, a) + Outputs(Feed(p, a), b)
  {
    hide Completes, Pend;
    if b == [] {
      assert a + b == a;
    } else {
      var n := |b| - 1;
      OutputsConcat(p, a, b[..n]);
      assert (a + b)[..|a + b| - 1] == a + b[..n];
      FeedConcat(p, a, b[..n]);
    }
  }

  lemma {:induction false} QuietStaysIdle(noise: seq<byte>)
    requires Quiet(noise)
    ensures Feed([], noise) == [] && Outputs([], noise) == Nothing(|noise|)
  {
    if noise != [] {
      QuietStaysIdle(noise[..|noise| - 1]);
    }
  }

  lemma PrefixIsPending(f: Frame, k: nat)
    requires 1 <= k < |f|
    ensures IsPending(f[..k])
  {}

  lemma {:induction false} FrameAccumulates(f: Frame, k: nat)
    requires 1 <= k < |f|
    ensures Feed([], f[..k]) == f[..k] && Outputs([], f[..k]) == Nothing(k)
  {
    assert f[..k][..k - 1] == f[..k - 1];
    if k == 1 {
      assert f[..1] == [f[0]];
      assert f[..k - 1] == [];
    } else {
      FrameAccumulates(f, k - 1);
      PrefixIsPending(f, k - 1);
      PrefixIsPending(f, k);
      assert f[..k - 1] + [f[k - 1]] == f[..k];
    }
  }

  lemma OneByte(p: Pending, c: byte)
    ensures Feed(p, [c]) == Pend(p, c) && Outputs(p, [c]) == [Completes(p, c)]
  {
    assert [c][..0] == [];
  }

  lemma LastByte(f: Frame)
    ensures var k := |f| - 1;
      k >= 2 && IsPending(f[..k]) && Completes(f[..k], f[k]) == Some(f) && Pend(f[..k], f[k]) == []
  {
    var k := |f| - 1;
    PrefixIsPending(f, k);
    assert f[..k] + [f[k]] == f;
  }

  lemma FrameReported(f: Frame)
    ensures Feed([], f) == [] && Outputs([], f) == Nothing(|f| - 1) + [Some(f)]
  {
    hide Feed, Outputs, Pend, Completes, IsPending;
    var k := |f| - 1;
    LastByte(f);
    FrameAccumulates(f, k);
    OneByte(f[..k], f[k]);
    FeedConcat([], f[..k], [f[k]]);
    OutputsConcat([], f[..k], [f[k]]);
    assert f[..k] + [f[k]] == f;
  }

  lemma SegmentReported(s: Segment)
    requires Quiet(s.noise)
    ensures Feed([], s.noise + s.frame) == []
    ensures Outputs([], s.noise + s.frame) == Nothing(|s.noise| + |s.frame| - 1) + [Some(s.frame)]
  {
    QuietStaysIdle(s.noise);
    FrameReported(s.frame);
    FeedConcat([], s.noise, s.frame);
    OutputsConcat([], s.noise, s.frame);
    assert Nothing(|s.noise| + |s.frame| - 1) == Nothing(|s.noise|) + Nothing(|s.frame| - 1);
  }

  /** Any list of frames, with any quiet noise between them, is reported exactly once each, in place. */
  lemma {:induction false} StreamRoundTrip(segments: seq<Segment>)
    requires forall s :: s in segments ==> Quiet(s.noise)
    ensures Feed([], Wire(segments)) == [] && Outputs([], Wire(segments)) == Reports(segments)
  {
    if segments != [] {
      var s := segments[|segments| - 1];
      var before := segments[..|segments| - 1];
      assert segments == before + [s];
      StreamRoundTrip(before);
      StreamStep(before, s);
    }
  }

  lemma WireStep(before: seq<Segment>, s: Segment)
    ensures Wire(before + [s]) == Wire(before) + (s.noise + s.frame)
    ensures Reports(before + [s]) == Reports(before) + (Nothing(|s.noise| + |s.frame| - 1) + [Some(s.frame)])
  {
    assert (before + [s])[..|before|] == before;
  }

  lemma StreamStep(before: seq<Segment>, s: Segment)
    requires Quiet(s.noise)
    requires Feed([], Wire(before)) == [] && Outputs([], Wire(before)) == Reports(before)
    ensures Feed([], Wire(before + [s])) == [] && Outputs([], Wire(before + [s])) == Reports(before + [s])
  {
    hide Feed, Outputs, Wire, Reports, Quiet, Nothing;
    WireStep(before, s);
    SegmentReported(s);
    FeedConcat([], Wire(before), s.noise + s.frame);
    OutputsConcat([], Wire(before), s.noise + s.frame);
  }
}
