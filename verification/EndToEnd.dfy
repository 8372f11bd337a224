/** The two ends together: a channel fed a whole stream, and one message from struct to struct. */
module EndToEnd {
  import opened Bytes
  import opened Channels
  import opened Framing
  import opened Messages
  import opened Packets
  import opened Reception
  import opened Sender
  import Sha256
  import opened Signing
  import opened SigningContext
  import opened Transmission

  /** One more byte of a stream, on values. */
  lemma OutputStep(p: Pending, stream: seq<byte>, i: nat)
    requires i < |stream|
    ensures stream[..i + 1] != [] && stream[..i + 1][..i] == stream[..i]
    ensures Feed(p, stream[..i + 1]) == Pend(Feed(p, stream[..i]), stream[i])
    ensures Outputs(p, stream[..i + 1]) == Outputs(p, stream[..i]) + [Completes(Feed(p, stream[..i]), stream[i])]
  {
    hide Completes, Pend;
    assert stream[..i + 1][..i] == stream[..i];
  }

  /** Byte for byte, what was handed out is what the completed frames contain. */
  ghost predicate AllDelivered(table: seq<MsgEntry>, messages: seq<Option<Received>>, frames: seq<Option<Frame>>) {
    && |messages| == |frames|
    && forall i :: 0 <= i < |messages| ==> DeliveredAt(table, messages[i], frames[i])
  }

  ghost predicate DeliveredAt(table: seq<MsgEntry>, message: Option<Received>, frame: Option<Frame>) {
    && message.Some? == frame.Some?
    && (frame.Some? ==> Delivers(table, message.value, frame.value))
  }

  /** A channel, in any state earlier traffic left it in, answers a stream byte by byte as the reference
      receiver and the ledger do, and hands out the content of every frame with its last byte. */
  method ReceiveAll(ch: Channel, stream: seq<byte>) returns (answers: seq<FramingResult>, messages: seq<Option<Received>>)
    requires ch.Valid()
    modifies ch, ch.rxmsg, ch.rxmsg.payload, ch.rxmsg.signature
    modifies ch.signing, ch.streams, if ch.streams != null then {ch.streams.stream} else {}
    ensures ch.Valid() && ch.pending == Feed(old(ch.pending), stream)
    ensures ch.LedgerNow() == LedgerAfter(ch.table, old(ch.PolicyNow()), old(ch.pending), old(ch.LedgerNow()), stream)
    ensures answers == Results(ch.table, old(ch.PolicyNow()), old(ch.pending), old(ch.LedgerNow()), stream)
    ensures AllDelivered(ch.table, messages, Outputs(old(ch.pending), stream))
  {
    hide Feed, Results, LedgerAfter, Verdict, Interim, Completes, Pend, Delivers, Agrees, LedgerOf;
    ghost var p, l, policy := ch.pending, ch.LedgerNow(), ch.PolicyNow();
    answers, messages := [], [];
    NothingHeard(ch.table, policy, p, l);
    assert stream[..0] == [] && Outputs(p, []) == [];
    for i := 0 to |stream|
      invariant ch.Valid() && ch.PolicyNow() == policy && ch.pending == Feed(p, stream[..i])
      invariant ch.LedgerNow() == LedgerAfter(ch.table, policy, p, l, stream[..i])
      invariant answers == Results(ch.table, policy, p, l, stream[..i])
      invariant AllDelivered(ch.table, messages, Outputs(p, stream[..i]))
    {
      OutputStep(p, stream, i);
      ByteHeard(ch.table, policy, p, l, stream[..i + 1]);
      var answer, message := ch.FrameChar(stream[i]);
      answers, messages := answers + [answer], messages + [message];
    }
    assert stream[..|stream|] == stream;
  }

  /* ---------- One message from struct to struct ---------- */

  /** The payload a version 1 message is cut to, or a version 2 message has before trimming. */
  function FullPayload(v1: bool, payload: seq<byte>, minLength: byte, length: byte): seq<byte>
    requires minLength <= |payload| && length <= |payload|
  {
    if v1 then payload[..minLength] else payload[..length]
  }

  /** An idle channel, in any signing mode, answers the frame of a packet with its verdict on its last byte. */
  lemma PacketAnswered(table: seq<MsgEntry>, policy: Option<Policy>, l: Ledger, f: Frame)
    requires CrcGood(table, f)
    ensures Results(table, policy, [], l, f) == Silence(|f| - 1) + [Verdict(table, policy, l, f).0]
    ensures LedgerAfter(table, policy, [], l, f) == Verdict(table, policy, l, f).1
    ensures Feed([], f) == [] && Outputs([], f) == Nothing(|f| - 1) + [Some(f)]
  {
    hide CrcGood, Results, LedgerAfter, Feed, Outputs, Verdict;
    FrameAnswered(table, policy, l, f);
    FrameReported(f);
  }

  lemma LastDelivered(table: seq<MsgEntry>, messages: seq<Option<Received>>, f: Frame)
    requires AllDelivered(table, messages, Nothing(|f| - 1) + [Some(f)])
    ensures |messages| == |f| && messages[|f| - 1].Some? && Delivers(table, messages[|f| - 1].value, f)
  {
    hide Delivers;
    assert DeliveredAt(table, messages[|f| - 1], (Nothing(|f| - 1) + [Some(f)])[|f| - 1]);
  }

  /** What a channel makes of a packet's frame: without signing it is fine; with signing an unsigned one
      needs the application's leave, one signed with the receiver's own key that leave or a table that is
      ready for its timestamp. */
  lemma PacketJudged(table: seq<MsgEntry>, policy: Option<Policy>, l: Ledger, linkId: byte, timestamp: nat, t: Sent)
    requires Proper(table, t)
    ensures var v := Verdict(table, policy, l, FrameOf(t)).0;
      && (policy.None? ==> v == FRAMING_OK)
      && (policy.Some? && !t.packet.signed ==>
            v == if policy.value.overrides(t.packet.msgid) then FRAMING_OK else FRAMING_BAD_SIGNATURE)
      && (policy.Some? && timestamp < TWO_48 && SignedAt(policy.value.key, linkId, t.packet.sysid, t.packet.compid, timestamp, t) ==>
            v == if policy.value.overrides(t.packet.msgid) || Ready(l, (linkId, t.packet.sysid, t.packet.compid), timestamp)
                 then FRAMING_OK else FRAMING_BAD_SIGNATURE)
  {
    hide CrcGood, Verify, Ready, Proper, SignatureBlock, Encodable, FrameOf;
    ProperFrame(table, t);
    if policy.Some? && timestamp < TWO_48 && SignedAt(policy.value.key, linkId, t.packet.sysid, t.packet.compid, timestamp, t) {
      SignedFrame(policy.value.key, linkId, t.packet.sysid, t.packet.compid, timestamp, t);
      VerifiedIff(policy.value.key, l, FrameOf(t));
    }
  }

  /** One frame into an idle channel, in any signing mode. */
  method ReceiveFrame(receiver: Channel, stream: seq<byte>, ghost t: Sent, ghost full: seq<byte>)
    returns (answers: seq<FramingResult>, d: Option<Received>)
    requires receiver.Valid() && receiver.pending == []
    requires stream == FrameOf(t) && Proper(receiver.table, t) && Untrimmed(t.packet, full) && |full| <= t.entry.maxMsgLen
    modifies receiver, receiver.rxmsg, receiver.rxmsg.payload, receiver.rxmsg.signature
    modifies receiver.signing, receiver.streams, if receiver.streams != null then {receiver.streams.stream} else {}
    ensures receiver.Valid() && receiver.pending == []
    ensures var v := Verdict(receiver.table, old(receiver.PolicyNow()), old(receiver.LedgerNow()), FrameOf(t));
      receiver.LedgerNow() == v.1 && |answers| >= 1 && answers == Silence(|answers| - 1) + [v.0]
    ensures d.Some? && Carries(d.value, t.packet, t.entry, full)
  {
    hide Results, LedgerAfter, Outputs, Feed, CrcGood, Verdict, Delivers, AllDelivered, Agrees, Silence, Nothing, FrameOf, Proper, Untrimmed, Carries, LedgerOf;
    ProperFrame(receiver.table, t);
    PacketAnswered(receiver.table, receiver.PolicyNow(), receiver.LedgerNow(), FrameOf(t));
    var messages;
    answers, messages := ReceiveAll(receiver, stream);
    LastDelivered(receiver.table, messages, FrameOf(t));
    d := messages[|messages| - 1];
    DeliveredContent(receiver.table, t, full, d.value);
  }

  /** Finalise a message and lay it out: the buffer begins with the frame of the packet, signed if the
      sender signs, with its key, link and clock; and the clock has moved on by one. */
  method Transmit(msg: Message, sender: Channel, systemId: byte, componentId: byte, length: byte, buf: array<byte>, e: MsgEntry)
    returns (total: nat, ghost t: Sent)
    requires msg.Shaped() && (sender.signing != null ==> sender.signing.Valid())
    requires buf.Length >= MAX_PACKET_LEN && buf !in {msg.payload, msg.signature}
    modifies msg, msg.payload, msg.signature, sender`currentTxSeq, sender.signing, buf
    ensures sender.signing != null ==>
      && sender.signing.Valid()
      && sender.signing.secretKey == old(sender.signing.secretKey)
      && sender.signing.timestamp == if t.packet.signed then (old(sender.signing.timestamp) + 1) % Sha256.TWO_64 else old(sender.signing.timestamp)
    ensures total <= buf.Length && buf[..total] == FrameOf(t) && Encodable(t) && t.noise == [] && t.entry == e
    ensures var v1 := old(sender.outMavlink1);
      var signed := !v1 && sender.signing != null && old(sender.signing.signOutgoing);
      && t.packet == FinalPacket(v1, signed, old(sender.currentTxSeq), systemId, componentId, old(msg.msgid),
                                 old(msg.payload[..]), e.minMsgLen, length)
      && Untrimmed(t.packet, FullPayload(v1, old(msg.payload[..]), e.minMsgLen, length))
      && (signed ==>
            SignedAt(old(sender.signing.secretKey), old(sender.signing.linkId), systemId, componentId, old(sender.signing.timestamp), t))
  {
    hide Checksum, Trim, SendBytes, SignatureBlock, IsFrame, Encode;
    ghost var full := FullPayload(sender.outMavlink1, msg.payload[..], e.minMsgLen, length);
    ghost var signed := !sender.outMavlink1 && sender.signing != null && sender.signing.signOutgoing;
    ghost var p := FinalPacket(sender.outMavlink1, signed, sender.currentTxSeq, systemId, componentId, msg.msgid,
                               msg.payload[..], e.minMsgLen, length);
    total := FinalizeMessageBuffer(msg, systemId, componentId, sender, e.minMsgLen, length, e.crcExtra);
    FinalisedSerialises(msg, p, full, e.crcExtra);
    t := Draft([], p, e, msg.signature[..]);
    total := MsgToSendBuffer(buf, msg);
  }

  /** The ledger the receiver judges with: its own as it was, but if both ends share one signing state the
      sender's signature has moved the clock on by one. */
  function LedgerThen(before: Ledger, shared: bool): Ledger {
    if shared then before.(timestamp := (before.timestamp + 1) % Sha256.TWO_64) else before
  }

  /** Finalise a message, lay it out in a buffer, feed the buffer to an idle channel, which may be the
      sending one and may check signatures: one answer, on the last byte, and a received message with the
      sender's header fields and payload. Without signing the answer is FRAMING_OK; with signing it is for
      what the application excuses, and for a frame signed with the receiver's own key that its table is
      ready for. */
  method Exchange(msg: Message, sender: Channel, systemId: byte, componentId: byte, length: byte,
                  buf: array<byte>, receiver: Channel, e: MsgEntry)
    returns (answers: seq<FramingResult>, d: Option<Received>)
    requires msg.Shaped() && (sender.signing != null ==> sender.signing.Valid()) && receiver.Valid()
    requires receiver.pending == [] && msg != receiver.rxmsg
    requires buf.Length >= MAX_PACKET_LEN && buf !in {msg.payload, msg.signature, receiver.rxmsg.payload, receiver.rxmsg.signature}
    requires {msg.payload, msg.signature} !! {receiver.rxmsg.payload, receiver.rxmsg.signature}
    requires Lookup(receiver.table, if sender.outMavlink1 then LowByte(msg.msgid) else msg.msgid) == Some(e)
    requires e.minMsgLen <= e.maxMsgLen && length <= e.maxMsgLen
    modifies msg, msg.payload, msg.signature, sender`currentTxSeq, sender.signing, buf
    modifies receiver, receiver.rxmsg, receiver.rxmsg.payload, receiver.rxmsg.signature
    modifies receiver.signing, receiver.streams, if receiver.streams != null then {receiver.streams.stream} else {}
    ensures |answers| >= 1 && answers[..|answers| - 1] == Silence(|answers| - 1)
    ensures receiver.Valid() && receiver.pending == []
    ensures receiver.signing == null ==> answers[|answers| - 1] == FRAMING_OK
    ensures receiver.signing != null ==>
      var id := if old(sender.outMavlink1) then LowByte(old(msg.msgid)) else old(msg.msgid);
      var signed := !old(sender.outMavlink1) && sender.signing != null && old(sender.signing.signOutgoing);
      && (!signed ==> answers[|answers| - 1] == if receiver.signing.Overrides(id) then FRAMING_OK else FRAMING_BAD_SIGNATURE)
      && (signed && old(sender.signing.timestamp) < TWO_48 && old(sender.signing.secretKey) == old(receiver.signing.secretKey) ==>
            var l := LedgerThen(old(receiver.LedgerNow()), receiver.signing == sender.signing);
            answers[|answers| - 1]
              == if receiver.signing.Overrides(id) || Ready(l, (old(sender.signing.linkId), systemId, componentId), old(sender.signing.timestamp))
                 then FRAMING_OK else FRAMING_BAD_SIGNATURE)
    ensures var v1 := old(sender.outMavlink1);
      var full := FullPayload(v1, old(msg.payload[..]), e.minMsgLen, length);
      var id := if v1 then LowByte(old(msg.msgid)) else old(msg.msgid);
      && d.Some? && d.value.magic == (if v1 then STX_MAVLINK1 else STX)
      && d.value.msgid == id && d.value.seqno == old(sender.currentTxSeq)
      && d.value.sysid == systemId && d.value.compid == componentId
      && |full| <= e.maxMsgLen <= |d.value.payload| && d.value.payload[..e.maxMsgLen] == full + Zeros(e.maxMsgLen - |full|)
  {
    hide CrcGood, Agrees, Silence, SignedAt, FrameOf, Verdict, Ready, Trim;
    ghost var full := FullPayload(sender.outMavlink1, msg.payload[..], e.minMsgLen, length);
    var total, t := Transmit(msg, sender, systemId, componentId, length, buf, e);
    PacketJudged(receiver.table, receiver.PolicyNow(), receiver.LedgerNow(),
                 if t.packet.signed then old(sender.signing.linkId) else 0,
                 if t.packet.signed then old(sender.signing.timestamp) else 0, t);
    answers, d := ReceiveFrame(receiver, buf[..total], t, full);
  }

  /* ---------- Any list of messages ---------- */

  /** The i-th transmission's payload before trimming is known and not longer than the message. */
  predicate AllUntrimmed(ts: seq<Sent>, fulls: seq<seq<byte>>) {
    && |fulls| == |ts|
    && forall i :: 0 <= i < |ts| ==> Untrimmed(ts[i].packet, fulls[i]) && |fulls[i]| <= ts[i].entry.maxMsgLen
  }

  lemma DeliveredAtEnd(table: seq<MsgEntry>, messages: seq<Option<Received>>, ts: seq<Sent>, i: nat, full: seq<byte>)
    requires i < |ts| && AllDelivered(table, messages, Reports(OnTheAir(ts))) && Proper(table, ts[i])
    requires Untrimmed(ts[i].packet, full) && |full| <= ts[i].entry.maxMsgLen
    ensures var at := EndOf(OnTheAir(ts), i);
      0 <= at < |messages| && messages[at].Some? && Carries(messages[at].value, ts[i].packet, ts[i].entry, full)
  {
    hide Delivers, Carries, Proper, Untrimmed, FrameOf, Reports, EndOf, IsFrame, Encodable;
    var at := EndOf(OnTheAir(ts), i);
    ReportedAtEnd(OnTheAir(ts), i);
    assert DeliveredAt(table, messages[at], Reports(OnTheAir(ts))[at]);
    DeliveredContent(table, ts[i], full, messages[at].value);
  }

  /** Any list of messages, of both versions and signed or not, with quiet noise between them, through an
      idle channel without signing: one FRAMING_OK for each, on its frame's last byte, silence and no
      message on every other byte, and with each FRAMING_OK the sender's fields and payload. */
  method ReceiveMessages(ch: Channel, ts: seq<Sent>, ghost fulls: seq<seq<byte>>)
    returns (answers: seq<FramingResult>, messages: seq<Option<Received>>)
    requires ch.Valid() && ch.pending == [] && ch.signing == null && AllUntrimmed(ts, fulls)
    requires forall i :: 0 <= i < |ts| ==> Proper(ch.table, ts[i])
    modifies ch, ch.rxmsg, ch.rxmsg.payload, ch.rxmsg.signature
    modifies ch.streams, if ch.streams != null then {ch.streams.stream} else {}
    ensures ch.Valid() && ch.pending == []
    ensures answers == Answers(ch.table, None, old(ch.LedgerNow()), OnTheAir(ts))
    ensures AllOk(ch.table, None, old(ch.LedgerNow()), OnTheAir(ts))
    ensures AllDelivered(ch.table, messages, Reports(OnTheAir(ts)))
    ensures forall i :: 0 <= i < |ts| ==>
      var at := EndOf(OnTheAir(ts), i);
      0 <= at < |messages| && messages[at].Some? && Carries(messages[at].value, ts[i].packet, ts[i].entry, fulls[i])
  {
    hide Results, Outputs, Feed, Answers, Reports, AllOk, AllDelivered, Agrees, Proper, Carries, EndOf, Untrimmed, Wire, OnTheAir, FrameOf, IsFrame, Encodable;
    ghost var l := ch.LedgerNow();
    OpenChannelRoundTrip(ch.table, l, ts);
    answers, messages := ReceiveAll(ch, Wire(OnTheAir(ts)));
    forall i | 0 <= i < |ts|
      ensures var at := EndOf(OnTheAir(ts), i);
        0 <= at < |messages| && messages[at].Some? && Carries(messages[at].value, ts[i].packet, ts[i].entry, fulls[i])
    {
      DeliveredAtEnd(ch.table, messages, ts, i, fulls[i]);
    }
  }

  /* ---------- The same through mavlink_parse_char ---------- */

  /** No byte is answered with a bad frame. */
  predicate NoneBad(results: seq<FramingResult>) {
    forall i :: 0 <= i < |results| ==> results[i] in {FRAMING_INCOMPLETE, FRAMING_OK}
  }

  lemma AnswerInPlace(table: seq<MsgEntry>, policy: Option<Policy>, p: Pending, l: Ledger, stream: seq<byte>, i: nat)
    requires i < |stream|
    ensures var q := Feed(p, stream[..i]);
      Results(table, policy, p, l, stream)[i]
        == match Completes(q, stream[i])
           case None => Interim(table, q, stream[i])
           case Some(f) => Verdict(table, policy, LedgerAfter(table, policy, p, l, stream[..i]), f).0
  {
    hide Verdict, Interim, Completes, Pend, Feed, Results, LedgerAfter;
    ResultsConcat(table, policy, p, l, stream[..i + 1], stream[i + 1..]);
    assert stream[..i + 1] + stream[i + 1..] == stream && stream[..i + 1][..i] == stream[..i];
    ByteHeard(table, policy, p, l, stream[..i + 1]);
  }

  /** Where the reference receiver reports no bad frame, mavlink_parse_char answers as it does and hands
      out the same messages. */
  method ParseAll(ch: Channel, stream: seq<byte>) returns (answers: seq<FramingResult>, messages: seq<Option<Received>>)
    requires ch.Valid() && NoneBad(Results(ch.table, ch.PolicyNow(), ch.pending, ch.LedgerNow(), stream))
    modifies ch, ch.rxmsg, ch.rxmsg.payload, ch.rxmsg.signature
    modifies ch.signing, ch.streams, if ch.streams != null then {ch.streams.stream} else {}
    ensures ch.Valid() && ch.pending == Feed(old(ch.pending), stream)
    ensures ch.LedgerNow() == LedgerAfter(ch.table, old(ch.PolicyNow()), old(ch.pending), old(ch.LedgerNow()), stream)
    ensures answers == Results(ch.table, old(ch.PolicyNow()), old(ch.pending), old(ch.LedgerNow()), stream)
    ensures AllDelivered(ch.table, messages, Outputs(old(ch.pending), stream))
  {
    hide Feed, Results, LedgerAfter, Verdict, Interim, Completes, Pend, Restart, SeqOf, Delivers, Agrees, LedgerOf;
    ghost var p, l, policy := ch.pending, ch.LedgerNow(), ch.PolicyNow();
    answers, messages := [], [];
    NothingHeard(ch.table, policy, p, l);
    assert stream[..0] == [] && Outputs(p, []) == [];
    for i := 0 to |stream|
      invariant ch.Valid() && ch.PolicyNow() == policy && ch.pending == Feed(p, stream[..i])
      invariant ch.LedgerNow() == LedgerAfter(ch.table, policy, p, l, stream[..i])
      invariant answers == Results(ch.table, policy, p, l, stream[..i])
      invariant AllDelivered(ch.table, messages, Outputs(p, stream[..i]))
    {
      OutputStep(p, stream, i);
      ByteHeard(ch.table, policy, p, l, stream[..i + 1]);
      AnswerInPlace(ch.table, policy, p, l, stream, i);
      assert Results(ch.table, policy, p, l, stream)[i] in {FRAMING_INCOMPLETE, FRAMING_OK};
      var answer, message := ch.ParseChar(stream[i]);
      answers, messages := answers + [answer], messages + [message];
    }
    assert stream[..|stream|] == stream;
  }

  lemma NothingBad()
    ensures NoneBad([])
  {}

  lemma OneMoreOk(before: seq<FramingResult>, n: nat)
    requires NoneBad(before)
    ensures NoneBad(before + (Silence(n) + [FRAMING_OK]))
  {}

  lemma {:induction false} OkIsNoneBad(table: seq<MsgEntry>, policy: Option<Policy>, l: Ledger, segments: seq<Segment>)
    requires AllOk(table, policy, l, segments)
    ensures NoneBad(Answers(table, policy, l, segments))
  {
    hide Verdict, Judged, NoneBad, Silence;
    if segments == [] {
      NothingBad();
    } else {
      var n := |segments| - 1;
      FrameNotEmpty(segments[n].frame);
      forall i | 0 <= i < n ensures VerdictOn(table, policy, l, segments[..n], i) == FRAMING_OK {
        assert VerdictOn(table, policy, l, segments, i) == FRAMING_OK && segments[..n][..i] == segments[..i];
      }
      OkIsNoneBad(table, policy, l, segments[..n]);
      assert VerdictOn(table, policy, l, segments, n) == FRAMING_OK;
      OneMoreOk(Answers(table, policy, l, segments[..n]), |segments[n].noise| + |segments[n].frame| - 1);
    }
  }

  /** Any list of messages through the entry point applications use: as with ReceiveMessages, no message is
      lost, and the receiver never restarts. */
  method ParseMessages(ch: Channel, ts: seq<Sent>, ghost fulls: seq<seq<byte>>)
    returns (answers: seq<FramingResult>, messages: seq<Option<Received>>)
    requires ch.Valid() && ch.pending == [] && ch.signing == null && AllUntrimmed(ts, fulls)
    requires forall i :: 0 <= i < |ts| ==> Proper(ch.table, ts[i])
    modifies ch, ch.rxmsg, ch.rxmsg.payload, ch.rxmsg.signature
    modifies ch.streams, if ch.streams != null then {ch.streams.stream} else {}
    ensures ch.Valid() && ch.pending == []
    ensures answers == Answers(ch.table, None, old(ch.LedgerNow()), OnTheAir(ts))
    ensures AllOk(ch.table, None, old(ch.LedgerNow()), OnTheAir(ts))
    ensures AllDelivered(ch.table, messages, Reports(OnTheAir(ts)))
    ensures forall i :: 0 <= i < |ts| ==>
      var at := EndOf(OnTheAir(ts), i);
      0 <= at < |messages| && messages[at].Some? && Carries(messages[at].value, ts[i].packet, ts[i].entry, fulls[i])
  {
    hide Results, Outputs, Feed, Answers, Reports, AllOk, AllDelivered, Agrees, Proper, Carries, EndOf, Untrimmed, Wire, OnTheAir, FrameOf, IsFrame, Encodable, NoneBad;
    ghost var l := ch.LedgerNow();
    OpenChannelRoundTrip(ch.table, l, ts);
    OkIsNoneBad(ch.table, None, l, OnTheAir(ts));
    answers, messages := ParseAll(ch, Wire(OnTheAir(ts)));
    forall i | 0 <= i < |ts|
      ensures var at := EndOf(OnTheAir(ts), i);
        0 <= at < |messages| && messages[at].Some? && Carries(messages[at].value, ts[i].packet, ts[i].entry, fulls[i])
    {
      DeliveredAtEnd(ch.table, messages, ts, i, fulls[i]);
    }
  }
}
