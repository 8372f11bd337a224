/** From sender to receiver: what a channel answers, byte for byte, to the streams a sender produces. */
module Transmission {
  import opened Bytes
  import opened Crc16
  import opened Framing
  import opened Packets
  import opened Reception
  import opened Signing

  /* ---------- The answers to a whole byte stream ---------- */

  /** The ledger after a stream, and the framing result for every byte of it. */
  function LedgerAfter(table: seq<MsgEntry>, policy: Option<Policy>, p: Pending, l: Ledger, stream: seq<byte>): Ledger {
    if stream == [] then l
    else
      var n := |stream| - 1;
      var l' := LedgerAfter(table, policy, p, l, stream[..n]);
      match Completes(Feed(p, stream[..n]), stream[n])
      case None => l'
      case Some(f) => Verdict(table, policy, l', f).1
  }

  function Results(table: seq<MsgEntry>, policy: Option<Policy>, p: Pending, l: Ledger, stream: seq<byte>): (r: seq<FramingResult>)
    ensures |r| == |stream|
  {
    if stream == [] then []
    else
      var n := |stream| - 1;
      var q := Feed(p, stream[..n]);
      var answer := match Completes(q, stream[n])
        case None => Interim(table, q, stream[n])
        case Some(f) => Verdict(table, policy, LedgerAfter(table, policy, p, l, stream[..n]), f).0;
      Results(table, policy, p, l, stream[..n]) + [answer]
  }

  lemma {:induction false} ResultsConcat(table: seq<MsgEntry>, policy: Option<Policy>, p: Pending, l: Ledger, a: seq<byte>, b: seq<byte>)
    ensures LedgerAfter(table, policy, p, l, a + b)
         == LedgerAfter(table, policy, Feed(p, a), LedgerAfter(table, policy, p, l, a), b)
    ensures Results(table, policy, p, l, a + b)
         == Results(table, policy, p, l, a) + Results(table, policy, Feed(p, a), LedgerAfter(table, policy, p, l, a), b)
  {
    hide Verdict, Interim, Completes, Pend, Feed, Results, LedgerAfter;
    if b == [] {
      assert a + b == a;
      NothingHeard(table, policy, Feed(p, a), LedgerAfter(table, policy, p, l, a));
    } else {
      var n := |b| - 1;
      ResultsConcat(table, policy, p, l, a, b[..n]);
      FeedConcat(p, a, b[..n]);
      assert (a + b)[..|a + b| - 1] == a + b[..n];
      ByteHeard(table, policy, p, l, a + b);
      ByteHeard(table, policy, Feed(p, a), LedgerAfter(table, policy, p, l, a), b);
    }
  }

  lemma NothingHeard(table: seq<MsgEntry>, policy: Option<Policy>, p: Pending, l: Ledger)
    ensures Feed(p, []) == p && LedgerAfter(table, policy, p, l, []) == l && Results(table, policy, p, l, []) == []
  {}

  /** The last byte of a stream: what it is answered depends on what is pending and on the ledger. */
  lemma ByteHeard(table: seq<MsgEntry>, policy: Option<Policy>, p: Pending, l: Ledger, s: seq<byte>)
    requires s != []
    ensures var n := |s| - 1;
      var q, m := Feed(p, s[..n]), LedgerAfter(table, policy, p, l, s[..n]);
      match Completes(q, s[n])
      case None =>
        && LedgerAfter(table, policy, p, l, s) == m
        && Results(table, policy, p, l, s) == Results(table, policy, p, l, s[..n]) + [Interim(table, q, s[n])]
      case Some(f) =>
        && LedgerAfter(table, policy, p, l, s) == Verdict(table, policy, m, f).1
        && Results(table, policy, p, l, s) == Results(table, policy, p, l, s[..n]) + [Verdict(table, policy, m, f).0]
  {
    hide Verdict, Interim, Completes, Feed;
  }

  function Silence(n: nat): seq<FramingResult> { seq(n, i => FRAMING_INCOMPLETE) }

  lemma SilenceAdds(m: nat, n: nat)
    ensures Silence(m + n) == Silence(m) + Silence(n)
  {}

  lemma {:induction false} NoiseIsSilent(table: seq<MsgEntry>, policy: Option<Policy>, l: Ledger, noise: seq<byte>)
    requires Quiet(noise)
    ensures LedgerAfter(table, policy, [], l, noise) == l
    ensures Results(table, policy, [], l, noise) == Silence(|noise|)
  {
    if noise != [] {
      var n := |noise| - 1;
      NoiseIsSilent(table, policy, l, noise[..n]);
      QuietStaysIdle(noise[..n]);
      SilenceAdds(n, 1);
    }
  }

  /** Only a signed frame with a bad checksum is commented on before its last byte. */
  predicate Uncommented(table: seq<MsgEntry>, f: Frame) {
    IsSigned(f) ==> CrcGood(table, f)
  }

  lemma CrcGoodByPrefix(table: seq<MsgEntry>, f: seq<byte>, n: nat)
    requires |f| >= 2 && CrcAt(f) + 2 <= n <= |f|
    ensures CrcAt(f[..n]) == CrcAt(f) && CrcGood(table, f[..n]) == CrcGood(table, f)
  {
    hide Crc, Lookup, Lo, Hi;
    var g := f[..n];
    assert g[1..CrcAt(g)] == f[1..CrcAt(f)];
  }

  lemma InterimSilent(table: seq<MsgEntry>, f: Frame, k: nat)
    requires 1 <= k < |f| - 1 && Uncommented(table, f) && IsPending(f[..k])
    ensures Completes(f[..k], f[k]) == None && Interim(table, f[..k], f[k]) == FRAMING_INCOMPLETE
  {
    hide CrcGood;
    assert f[..k] + [f[k]] == f[..k + 1];
    if k >= 2 && k == CrcAt(f[..k]) + 1 && IsSigned(f[..k + 1]) {
      CrcGoodByPrefix(table, f, k + 1);
    }
  }

  lemma {:induction false} FrameIsSilent(table: seq<MsgEntry>, policy: Option<Policy>, l: Ledger, f: Frame, k: nat)
    requires k < |f| && Uncommented(table, f)
    ensures LedgerAfter(table, policy, [], l, f[..k]) == l
    ensures Results(table, policy, [], l, f[..k]) == Silence(k)
  {
    hide Verdict, Interim, Completes, CrcGood;
    if k > 0 {
      assert f[..k][..k - 1] == f[..k - 1];
      FrameIsSilent(table, policy, l, f, k - 1);
      SilenceAdds(k - 1, 1);
      if k == 1 {
        assert f[..0] == [];
        FirstByteSilent(table, f[0]);
      } else {
        FrameAccumulates(f, k - 1);
        PrefixIsPending(f, k - 1);
        InterimSilent(table, f, k - 1);
      }
    }
  }

  lemma FirstByteSilent(table: seq<MsgEntry>, c: byte)
    ensures Completes([], c) == None && Interim(table, [], c) == FRAMING_INCOMPLETE
  {}

  lemma EarlySilent(table: seq<MsgEntry>, f: Frame, k: nat)
    requires 1 <= k <= CrcAt(f) && IsPending(f[..k])
    ensures Completes(f[..k], f[k]) == None && Interim(table, f[..k], f[k]) == FRAMING_INCOMPLETE
  {
    hide CrcGood;
    assert f[..k] + [f[k]] == f[..k + 1];
  }

  /** Up to its second checksum byte every frame is taken in silence. */
  lemma {:induction false} PartlySilent(table: seq<MsgEntry>, policy: Option<Policy>, l: Ledger, f: Frame, k: nat)
    requires k <= CrcAt(f) + 1
    ensures LedgerAfter(table, policy, [], l, f[..k]) == l
    ensures Results(table, policy, [], l, f[..k]) == Silence(k)
  {
    hide Verdict, Interim, Completes, CrcGood;
    if k > 0 {
      assert f[..k][..k - 1] == f[..k - 1];
      PartlySilent(table, policy, l, f, k - 1);
      SilenceAdds(k - 1, 1);
      if k == 1 {
        assert f[..0] == [];
        FirstByteSilent(table, f[0]);
      } else {
        FrameAccumulates(f, k - 1);
        PrefixIsPending(f, k - 1);
        EarlySilent(table, f, k - 1);
      }
    }
  }

  /** What the bytes from the second checksum byte on of a signed frame with a bad checksum are answered. */
  lemma LateByte(table: seq<MsgEntry>, f: Frame, k: nat)
    requires !Uncommented(table, f) && CrcAt(f) + 1 <= k < |f| - 1 && IsPending(f[..k])
    ensures Completes(f[..k], f[k]) == None
    ensures Interim(table, f[..k], f[k]) == if k == CrcAt(f) + 1 then FRAMING_BAD_CRC else FRAMING_INCOMPLETE
  {
    hide CrcGood;
    assert f[..k] + [f[k]] == f[..k + 1];
    CrcGoodByPrefix(table, f, k + 1);
  }

  /** One more byte inside a frame. */
  lemma ByteAnswered(table: seq<MsgEntry>, policy: Option<Policy>, l: Ledger, f: Frame, k: nat)
    requires 1 <= k < |f| - 1 && IsPending(f[..k]) && Completes(f[..k], f[k]) == None
    ensures LedgerAfter(table, policy, [], l, f[..k + 1]) == LedgerAfter(table, policy, [], l, f[..k])
    ensures Results(table, policy, [], l, f[..k + 1]) == Results(table, policy, [], l, f[..k]) + [Interim(table, f[..k], f[k])]
  {
    hide Verdict, Interim, Completes;
    assert f[..k + 1][..k] == f[..k];
    FrameAccumulates(f, k);
  }

  lemma {:induction false} FrameIsCommented(table: seq<MsgEntry>, policy: Option<Policy>, l: Ledger, f: Frame, k: nat)
    requires !Uncommented(table, f) && CrcAt(f) + 2 <= k < |f|
    ensures LedgerAfter(table, policy, [], l, f[..k]) == l
    ensures Results(table, policy, [], l, f[..k]) == Silence(CrcAt(f) + 1) + [FRAMING_BAD_CRC] + Silence(k - CrcAt(f) - 2)
  {
    hide Results, LedgerAfter, Interim, Completes, Uncommented, IsFrame, IsPending;
    PrefixIsPending(f, k - 1);
    LateByte(table, f, k - 1);
    ByteAnswered(table, policy, l, f, k - 1);
    if k == CrcAt(f) + 2 {
      PartlySilent(table, policy, l, f, k - 1);
    } else {
      FrameIsCommented(table, policy, l, f, k - 1);
      SilenceAdds(k - CrcAt(f) - 3, 1);
    }
  }

  /** The answers to one frame: its verdict on the last byte and silence before, but a signed frame with a
      bad checksum is also commented on at its second checksum byte. */
  function FrameAnswer(table: seq<MsgEntry>, policy: Option<Policy>, l: Ledger, f: Frame): seq<FramingResult> {
    (if Uncommented(table, f) then Silence(|f| - 1)
     else Silence(CrcAt(f) + 1) + [FRAMING_BAD_CRC] + Silence(12))
    + [Verdict(table, policy, l, f).0]
  }

  /** Any frame fed to an idle channel. */
  lemma FrameAnswered(table: seq<MsgEntry>, policy: Option<Policy>, l: Ledger, f: Frame)
    ensures LedgerAfter(table, policy, [], l, f) == Verdict(table, policy, l, f).1
    ensures Results(table, policy, [], l, f) == FrameAnswer(table, policy, l, f)
  {
    hide Results, LedgerAfter, Verdict, CrcGood, Uncommented;
    var k := |f| - 1;
    LastByteAnswered(table, policy, l, f);
    if Uncommented(table, f) {
      FrameIsSilent(table, policy, l, f, k);
    } else {
      CommentedLength(table, f);
      FrameIsCommented(table, policy, l, f, k);
    }
  }

  lemma CommentedLength(table: seq<MsgEntry>, f: Frame)
    requires !Uncommented(table, f)
    ensures |f| - 1 == CrcAt(f) + 14
  {
    hide CrcGood;
  }

  lemma LastByteAnswered(table: seq<MsgEntry>, policy: Option<Policy>, l: Ledger, f: Frame)
    ensures var k := |f| - 1;
      var m := LedgerAfter(table, policy, [], l, f[..k]);
      && LedgerAfter(table, policy, [], l, f) == Verdict(table, policy, m, f).1
      && Results(table, policy, [], l, f) == Results(table, policy, [], l, f[..k]) + [Verdict(table, policy, m, f).0]
  {
    hide Verdict, Interim, Completes, Pend;
    FrameAccumulates(f, |f| - 1);
    LastByte(f);
  }

  /** A signed frame with a bad checksum is reported as bad twice. */
  lemma ReportedTwice(table: seq<MsgEntry>, policy: Option<Policy>, l: Ledger, f: Frame)
    requires IsSigned(f) && !CrcGood(table, f)
    ensures Results(table, policy, [], l, f)
         == Silence(CrcAt(f) + 1) + [FRAMING_BAD_CRC] + Silence(12) + [FRAMING_BAD_CRC]
  {
    hide Results, LedgerAfter, CrcGood, Verify;
    FrameAnswered(table, policy, l, f);
  }

  /* ---------- Streams of frames ---------- */

  /** The ledger after judging the frames one after the other. */
  function Judged(table: seq<MsgEntry>, policy: Option<Policy>, l: Ledger, segments: seq<Segment>): Ledger {
    if segments == [] then l
    else Verdict(table, policy, Judged(table, policy, l, segments[..|segments| - 1]), segments[|segments| - 1].frame).1
  }

  function VerdictOn(table: seq<MsgEntry>, policy: Option<Policy>, l: Ledger, segments: seq<Segment>, i: nat): FramingResult
    requires i < |segments|
  {
    Verdict(table, policy, Judged(table, policy, l, segments[..i]), segments[i].frame).0
  }

  /** One answer per frame, on its last byte, silence everywhere else. */
  function Answers(table: seq<MsgEntry>, policy: Option<Policy>, l: Ledger, segments: seq<Segment>): seq<FramingResult> {
    if segments == [] then []
    else
      var n := |segments| - 1;
      Answers(table, policy, l, segments[..n])
      + (Silence(|segments[n].noise| + |segments[n].frame| - 1) + [VerdictOn(table, policy, l, segments, n)])
  }

  /** The answers to any list of frames with quiet noise between them. */
  function Responses(table: seq<MsgEntry>, policy: Option<Policy>, l: Ledger, segments: seq<Segment>): seq<FramingResult> {
    if segments == [] then []
    else
      var n := |segments| - 1;
      Responses(table, policy, l, segments[..n])
      + (Silence(|segments[n].noise|) + FrameAnswer(table, policy, Judged(table, policy, l, segments[..n]), segments[n].frame))
  }

  lemma SegmentAnswered(table: seq<MsgEntry>, policy: Option<Policy>, l: Ledger, s: Segment)
    requires Quiet(s.noise)
    ensures LedgerAfter(table, policy, [], l, s.noise + s.frame) == Verdict(table, policy, l, s.frame).1
    ensures Results(table, policy, [], l, s.noise + s.frame) == Silence(|s.noise|) + FrameAnswer(table, policy, l, s.frame)
  {
    hide Verdict, Results, LedgerAfter, Quiet, FrameAnswer, Silence;
    NoiseIsSilent(table, policy, l, s.noise);
    QuietStaysIdle(s.noise);
    FrameAnswered(table, policy, l, s.frame);
    ResultsConcat(table, policy, [], l, s.noise, s.frame);
  }

  lemma ResponsesStep(table: seq<MsgEntry>, policy: Option<Policy>, l: Ledger, before: seq<Segment>, s: Segment)
    ensures var l' := Judged(table, policy, l, before);
      && Judged(table, policy, l, before + [s]) == Verdict(table, policy, l', s.frame).1
      && Responses(table, policy, l, before + [s])
         == Responses(table, policy, l, before) + (Silence(|s.noise|) + FrameAnswer(table, policy, l', s.frame))
  {
    hide Verdict, Silence, FrameAnswer;
    assert (before + [s])[..|before|] == before;
  }

  lemma StreamAnsweredStep(table: seq<MsgEntry>, policy: Option<Policy>, l: Ledger, before: seq<Segment>, s: Segment)
    requires Feed([], Wire(before)) == [] && Quiet(s.noise)
    requires LedgerAfter(table, policy, [], l, Wire(before)) == Judged(table, policy, l, before)
    requires Results(table, policy, [], l, Wire(before)) == Responses(table, policy, l, before)
    ensures LedgerAfter(table, policy, [], l, Wire(before + [s])) == Judged(table, policy, l, before + [s])
    ensures Results(table, policy, [], l, Wire(before + [s])) == Responses(table, policy, l, before + [s])
  {
    hide *;
    WireStep(before, s);
    ResponsesStep(table, policy, l, before, s);
    SegmentAnswered(table, policy, Judged(table, policy, l, before), s);
    ResultsConcat(table, policy, [], l, Wire(before), s.noise + s.frame);
  }

  /** The receiver answers any stream of frames, good or bad, signed or not, frame by frame and in place,
      each judged with the ledger the earlier ones left. */
  lemma {:induction false} StreamAnswered(table: seq<MsgEntry>, policy: Option<Policy>, l: Ledger, segments: seq<Segment>)
    requires forall i :: 0 <= i < |segments| ==> Quiet(segments[i].noise)
    ensures LedgerAfter(table, policy, [], l, Wire(segments)) == Judged(table, policy, l, segments)
    ensures Results(table, policy, [], l, Wire(segments)) == Responses(table, policy, l, segments)
  {
    hide Verdict, Results, LedgerAfter, Quiet, Feed, FrameAnswer;
    if segments == [] {
      NothingHeard(table, policy, [], l);
    } else {
      var n := |segments| - 1;
      assert segments == segments[..n] + [segments[n]];
      StreamAnswered(table, policy, l, segments[..n]);
      StreamRoundTrip(segments[..n]);
      StreamAnsweredStep(table, policy, l, segments[..n], segments[n]);
    }
  }

  /** Without signed frames with bad checksums there is one answer per frame and silence otherwise. */
  lemma {:induction false} OneAnswerEach(table: seq<MsgEntry>, policy: Option<Policy>, l: Ledger, segments: seq<Segment>)
    requires forall i :: 0 <= i < |segments| ==> Uncommented(table, segments[i].frame)
    ensures Responses(table, policy, l, segments) == Answers(table, policy, l, segments)
  {
    hide Verdict, Judged, Uncommented, FrameAnswer, Silence, IsFrame;
    if segments != [] {
      var n, f := |segments| - 1, segments[|segments| - 1].frame;
      OneAnswerEach(table, policy, l, segments[..n]);
      QuietAnswer(table, policy, Judged(table, policy, l, segments[..n]), f);
      FrameNotEmpty(f);
      SilenceAdds(|segments[n].noise|, |f| - 1);
    }
  }

  lemma QuietAnswer(table: seq<MsgEntry>, policy: Option<Policy>, l: Ledger, f: Frame)
    requires Uncommented(table, f)
    ensures FrameAnswer(table, policy, l, f) == Silence(|f| - 1) + [Verdict(table, policy, l, f).0]
  {
    hide Verdict, Uncommented;
  }

  /* ---------- What senders send ---------- */

  /** One transmission: noise, then a packet with its table entry and, if signed, a signature block. */
  datatype Draft = Draft(noise: seq<byte>, packet: Packet, entry: MsgEntry, signature: seq<byte>)

  predicate Encodable(t: Draft) {
    Sendable(t.packet) && (t.packet.signed ==> |t.signature| == SIGNATURE_BLOCK_LEN)
  }

  type Sent = t: Draft | Encodable(t) witness Draft([], Packet(true, false, 0, 0, 0, 0, []), MsgEntry(0, 0, 0, 0), [])

  /** The line is quiet before it, and sender and receiver agree on the message's table entry. */
  predicate Proper(table: seq<MsgEntry>, t: Sent) {
    Quiet(t.noise) && Lookup(table, t.packet.msgid) == Some(t.entry)
  }

  function FrameOf(t: Sent): Frame {
    EncodeIsFrame(t.packet, t.entry.crcExtra, t.signature);
    Encode(t.packet, t.entry.crcExtra, t.signature)
  }

  function OnTheAir(ts: seq<Sent>): (segments: seq<Segment>)
    ensures |segments| == |ts|
    ensures forall i :: 0 <= i < |ts| ==> segments[i] == Segment(ts[i].noise, FrameOf(ts[i]))
  {
    seq(|ts|, i requires 0 <= i < |ts| => Segment(ts[i].noise, FrameOf(ts[i])))
  }

  lemma ProperFrame(table: seq<MsgEntry>, t: Sent)
    requires Proper(table, t)
    ensures Quiet(t.noise) && CrcGood(table, FrameOf(t)) && Uncommented(table, FrameOf(t))
    ensures IsSigned(FrameOf(t)) == t.packet.signed && MsgidOf(FrameOf(t)) == t.packet.msgid
  {
    hide CrcGood, Quiet;
    EncodeIsFrame(t.packet, t.entry.crcExtra, t.signature);
    EncodeChecks(table, t.packet, t.entry, t.signature);
  }

  lemma OpenVerdict(table: seq<MsgEntry>, l: Ledger, f: Frame)
    requires CrcGood(table, f)
    ensures Verdict(table, None, l, f).0 == FRAMING_OK
  {}

  /** Without signing on the receiver, every transmission, signed or not, of either version, comes through:
      FRAMING_OK on each frame's last byte and FRAMING_INCOMPLETE on every other byte. */
  lemma OpenChannelRoundTrip(table: seq<MsgEntry>, l: Ledger, ts: seq<Sent>)
    requires forall i :: 0 <= i < |ts| ==> Proper(table, ts[i])
    ensures var segments := OnTheAir(ts);
      && Feed([], Wire(segments)) == [] && Outputs([], Wire(segments)) == Reports(segments)
      && Results(table, None, [], l, Wire(segments)) == Answers(table, None, l, segments)
      && AllOk(table, None, l, segments)
  {
    hide CrcGood, Proper, Quiet, Feed, Outputs, Results, Answers, Responses, Uncommented, Wire, Reports, Verdict, FrameOf, IsFrame, Encodable;
    var segments := OnTheAir(ts);
    forall i | 0 <= i < |ts|
      ensures Quiet(segments[i].noise) && Uncommented(table, segments[i].frame)
      ensures VerdictOn(table, None, l, segments, i) == FRAMING_OK
    {
      ProperFrame(table, ts[i]);
      OpenVerdict(table, Judged(table, None, l, segments[..i]), segments[i].frame);
    }
    StreamAnswered(table, None, l, segments);
    OneAnswerEach(table, None, l, segments);
    StreamRoundTrip(segments);
  }

  /** `full` is the payload before trimming; only version 2 trims. */
  predicate Untrimmed(p: Packet, full: seq<byte>) {
    p.payload == if p.v1 then full else Trim(full)
  }

  /** The sender's header fields, and the payload extended with zeros to the message's full length. */
  predicate Carries(d: Received, p: Packet, e: MsgEntry, full: seq<byte>) {
    && d.magic == (if p.v1 then STX_MAVLINK1 else STX) && d.msgid == p.msgid
    && d.seqno == p.seqno && d.sysid == p.sysid && d.compid == p.compid
    && |full| <= e.maxMsgLen <= |d.payload| && d.payload[..e.maxMsgLen] == full + Zeros(e.maxMsgLen - |full|)
  }

  lemma ExtendedPayload(table: seq<MsgEntry>, t: Sent, full: seq<byte>)
    requires Proper(table, t) && Untrimmed(t.packet, full) && |full| <= t.entry.maxMsgLen
    ensures ZeroExtended(table, FrameOf(t)) == full + Zeros(t.entry.maxMsgLen - |full|)
  {
    hide Encode, CrcGood, Trim, ZeroExtended, PayloadOf, CrcOf, Checksum;
    EncodeIsFrame(t.packet, t.entry.crcExtra, t.signature);
    if t.packet.v1 {
      ExtensionShape(table, FrameOf(t), t.entry);
    } else {
      TrimThenExtend(table, FrameOf(t), full, t.entry);
    }
  }

  /** What a channel delivers for a transmission, of either version, is what the sender put in. */
  lemma DeliveredContent(table: seq<MsgEntry>, t: Sent, full: seq<byte>, d: Received)
    requires Proper(table, t) && Untrimmed(t.packet, full) && |full| <= t.entry.maxMsgLen
    requires Delivers(table, d, FrameOf(t))
    ensures Carries(d, t.packet, t.entry, full)
  {
    hide CrcGood, Crc, CrcOf, Lookup, ZeroExtended, Untrimmed, PayloadOf, Encode;
    EncodeIsFrame(t.packet, t.entry.crcExtra, t.signature);
    ExtendedPayload(table, t, full);
    FirstByte(t);
  }

  lemma FirstByte(t: Sent)
    ensures FrameOf(t)[0] == if t.packet.v1 then STX_MAVLINK1 else STX
  {
    hide Crc, Lo, Hi;
  }

  /** Where frame i ends on the wire. */
  function EndOf(segments: seq<Segment>, i: nat): int
    requires i < |segments|
  {
    |Wire(segments[..i + 1])| - 1
  }

  lemma {:induction false} ReportsLength(segments: seq<Segment>)
    ensures |Reports(segments)| == |Wire(segments)|
  {
    if segments != [] {
      ReportsLength(segments[..|segments| - 1]);
    }
  }

  /** The frame that ends there is the one reported there. */
  lemma {:induction false} ReportedAtEnd(segments: seq<Segment>, i: nat)
    requires i < |segments|
    ensures 0 <= EndOf(segments, i) < |Reports(segments)| && Reports(segments)[EndOf(segments, i)] == Some(segments[i].frame)
  {
    hide Reports, Wire, IsFrame;
    FrameNotEmpty(segments[|segments| - 1].frame);
    var before, s := segments[..|segments| - 1], segments[|segments| - 1];
    assert segments == before + [s];
    ReportsLength(before);
    WireStep(before, s);
    if i < |before| {
      ReportedAtEnd(before, i);
      assert before[..i + 1] == segments[..i + 1];
    } else {
      assert segments[..i + 1] == segments;
    }
  }

  lemma FrameNotEmpty(f: Frame)
    ensures |f| >= 1
  {}

  /* ---------- A signing sender and a receiver with the same key ---------- */

  /** The i-th transmission carries the signature block for its own body, with timestamp first + i. */
  predicate SignedRun(key: seq<byte>, linkId: byte, sysid: byte, compid: byte, first: nat, ts: seq<Sent>) {
    forall i :: 0 <= i < |ts| ==> SignedAt(key, linkId, sysid, compid, first + i, ts[i])
  }

  predicate SignedAt(key: seq<byte>, linkId: byte, sysid: byte, compid: byte, timestamp: nat, t: Sent) {
    && t.packet.signed && t.packet.sysid == sysid && t.packet.compid == compid
    && t.signature == SignatureBlock(key, linkId, timestamp, Body(t.packet, t.entry.crcExtra))
  }

  lemma SignedFrame(key: seq<byte>, linkId: byte, sysid: byte, compid: byte, timestamp: nat, t: Sent)
    requires SignedAt(key, linkId, sysid, compid, timestamp, t) && timestamp < TWO_48
    ensures var f := FrameOf(t);
      && IsSigned(f) && Genuine(key, f)
      && StreamOf(f).Key() == (linkId, sysid, compid) && StreamOf(f).Timestamp() == timestamp
  {
    hide SignatureBlock, Genuine;
    EncodeIsFrame(t.packet, t.entry.crcExtra, t.signature);
    var f := FrameOf(t);
    assert f[..CrcAt(f) + 2] == Body(t.packet, t.entry.crcExtra);
    SignedFrameIsGenuine(key, linkId, timestamp, f);
  }

  function FramesOf(segments: seq<Segment>): (fs: seq<Frame>)
    ensures |fs| == |segments| && forall i :: 0 <= i < |segments| ==> fs[i] == segments[i].frame
  {
    seq(|segments|, i requires 0 <= i < |segments| => segments[i].frame)
  }

  /** Judging signed frames one after the other is running the signature check over them. */
  lemma {:induction false} JudgedIsRun(table: seq<MsgEntry>, policy: Policy, l: Ledger, segments: seq<Segment>)
    requires forall i :: 0 <= i < |segments| ==> IsSigned(segments[i].frame)
    ensures (forall f :: f in FramesOf(segments) ==> IsSigned(f))
    ensures Judged(table, Some(policy), l, segments) == Run(policy.key, l, FramesOf(segments))
  {
    hide Verify, CrcGood;
    if segments != [] {
      var n := |segments| - 1;
      JudgedIsRun(table, policy, l, segments[..n]);
      assert FramesOf(segments)[..n] == FramesOf(segments[..n]);
    }
  }

  lemma SecuredVerdict(table: seq<MsgEntry>, policy: Policy, l: Ledger, f: Frame)
    requires CrcGood(table, f) && IsSigned(f) && !policy.overrides(MsgidOf(f))
    ensures Verdict(table, Some(policy), l, f).0 == FRAMING_OK <==> Verify(policy.key, l, f).1 == STATUS_OK
  {
    hide Verify, CrcGood;
  }

  /** One frame of the run is accepted by the channel exactly when the signature check accepts it. */
  lemma VerdictIsAcceptance(table: seq<MsgEntry>, policy: Policy, l: Ledger, ts: seq<Sent>, i: nat)
    requires i < |ts| && (forall j :: 0 <= j < |ts| ==> Proper(table, ts[j]) && ts[j].packet.signed)
    requires !policy.overrides(ts[i].packet.msgid)
    ensures (forall f :: f in FramesOf(OnTheAir(ts)) ==> IsSigned(f))
    ensures VerdictOn(table, Some(policy), l, OnTheAir(ts), i) == FRAMING_OK
       <==> AcceptedAt(policy.key, l, FramesOf(OnTheAir(ts)), i)
  {
    hide CrcGood, Proper, Verify, Verdict, FrameOf, Encodable;
    var segments := OnTheAir(ts);
    forall j | 0 <= j < |ts| ensures IsSigned(segments[j].frame) {
      ProperFrame(table, ts[j]);
    }
    JudgedIsRun(table, policy, l, segments[..i]);
    JudgedIsRun(table, policy, l, segments);
    assert FramesOf(segments[..i]) == FramesOf(segments)[..i];
    ProperFrame(table, ts[i]);
    SecuredVerdict(table, policy, Judged(table, Some(policy), l, segments[..i]), segments[i].frame);
  }

  lemma RunOnTheAir(key: seq<byte>, linkId: byte, sysid: byte, compid: byte, first: nat, ts: seq<Sent>)
    requires SignedRun(key, linkId, sysid, compid, first, ts) && first + |ts| <= TWO_48
    ensures SenderRun(key, FramesOf(OnTheAir(ts)), (linkId, sysid, compid), first)
  {
    hide Genuine, SignedAt, FrameOf, Encodable;
    var frames := FramesOf(OnTheAir(ts));
    forall i | 0 <= i < |frames|
      ensures IsSigned(frames[i]) && Genuine(key, frames[i])
      ensures StreamOf(frames[i]).Key() == (linkId, sysid, compid) && StreamOf(frames[i]).Timestamp() == first + i
    {
      SignedFrame(key, linkId, sysid, compid, first + i, ts[i]);
    }
  }

  /** Every message is in the table, and the application overrides none of them. */
  predicate Strict(table: seq<MsgEntry>, policy: Policy, ts: seq<Sent>) {
    forall i :: 0 <= i < |ts| ==> Proper(table, ts[i]) && !policy.overrides(ts[i].packet.msgid)
  }

  /** All frames were accepted. */
  predicate AllOk(table: seq<MsgEntry>, policy: Option<Policy>, l: Ledger, segments: seq<Segment>) {
    forall i :: 0 <= i < |segments| ==> VerdictOn(table, policy, l, segments, i) == FRAMING_OK
  }

  /** A run of signed transmissions comes through in full, by the signatures alone, exactly when the
      receiver is ready for the first: a known stream must be older, a new one needs room in the table
      and a timestamp not over the age limit. */
  lemma SignedRoundTrip(table: seq<MsgEntry>, policy: Policy, l: Ledger, linkId: byte, sysid: byte, compid: byte, first: nat, ts: seq<Sent>)
    requires ts != [] && Strict(table, policy, ts) && WellFormed(l)
    requires SignedRun(policy.key, linkId, sysid, compid, first, ts) && first + |ts| <= TWO_48
    ensures var segments := OnTheAir(ts);
      && Results(table, Some(policy), [], l, Wire(segments)) == Answers(table, Some(policy), l, segments)
      && (AllOk(table, Some(policy), l, segments) <==> Ready(l, (linkId, sysid, compid), first))
  {
    hide CrcGood, Proper, Quiet, Results, Answers, Responses, Genuine, Verify, Ready, WellFormed, Wire, Uncommented, FrameOf, IsFrame, Encodable, VerdictOn, AcceptedAt;
    var segments := OnTheAir(ts);
    var frames := FramesOf(segments);
    RunOnTheAir(policy.key, linkId, sysid, compid, first, ts);
    SenderRunAccepted(policy.key, l, frames, (linkId, sysid, compid), first);
    forall i | 0 <= i < |ts|
      ensures Quiet(segments[i].noise) && Uncommented(table, segments[i].frame)
    {
      ProperFrame(table, ts[i]);
    }
    StreamAnswered(table, Some(policy), l, segments);
    OneAnswerEach(table, Some(policy), l, segments);
    forall i | 0 <= i < |ts|
      ensures VerdictOn(table, Some(policy), l, segments, i) == FRAMING_OK <==> AcceptedAt(policy.key, l, frames, i)
    {
      VerdictIsAcceptance(table, policy, l, ts, i);
    }
  }
}
