/** The sending side of mavlink_helpers.h: finalising a message in place and laying it out in a buffer. */
module Sender {
  import opened Bytes
  import opened Channels
  import opened Crc16
  import opened Framing
  import opened Messages
  import opened Packets
  import opened Sha256
  import opened Signing
  import opened SigningContext

  /* ---------- What finalising produces ---------- */

  /** The packet a finalised message stands for: version 1 sends the shortest form and only the low byte
      of the message id, version 2 trims trailing zeros. */
  function FinalPacket(v1: bool, signed: bool, seqno: byte, sysid: byte, compid: byte, msgid: nat,
                       payload: seq<byte>, minLength: byte, length: byte): Packet
    requires minLength <= |payload| && length <= |payload|
  {
    if v1 then Packet(true, false, seqno, sysid, compid, LowByte(msgid), payload[..minLength])
    else Packet(false, signed, seqno, sysid, compid, msgid, Trim(payload[..length]))
  }

  /** The message struct holds packet `p`, checksummed with `crcExtra`. */
  ghost predicate Holds(msg: Message, p: Packet, crcExtra: byte)
    requires msg.Shaped() && Sendable(p)
    reads msg, msg.payload
  {
    && msg.magic == (if p.v1 then STX_MAVLINK1 else STX) && msg.len == |p.payload|
    && msg.incompatFlags == (if p.signed then 1 else 0) && msg.compatFlags == 0
    && msg.seqno == p.seqno && msg.sysid == p.sysid && msg.compid == p.compid
    && (if p.v1 then LowByte(msg.msgid) == p.msgid else msg.msgid == p.msgid)
    && msg.payload[..msg.len] == p.payload && msg.checksum == Checksum(p, crcExtra)
  }

  /** The header bytes the checksum and the signature cover, from the struct's fields. */
  method HeaderBuffer(msg: Message) returns (buf: seq<byte>)
    ensures buf == if msg.magic == STX_MAVLINK1
      then HeaderV1(msg.magic, msg.len, msg.seqno, msg.sysid, msg.compid, msg.msgid)
      else msg.StructHeader()
  {
    if msg.magic == STX_MAVLINK1 {
      buf := HeaderV1(msg.magic, msg.len, msg.seqno, msg.sysid, msg.compid, msg.msgid);
    } else {
      buf := msg.StructHeader();
    }
  }

  /** The checksum over header (without start byte), payload and crc_extra, piece by piece. */
  method MessageChecksum(buf: seq<byte>, payload: array<byte>, len: byte, crcExtra: byte) returns (checksum: bv16)
    requires |buf| > 0 && len <= payload.Length
    ensures checksum == Crc(INIT_CRC, buf[1..] + payload[..len] + [crcExtra])
  {
    hide Crc, Absorb;
    var header := new byte[|buf|](i requires 0 <= i < |buf| => buf[i]);
    assert header[..] == buf && header[1..1 + (|buf| - 1)] == buf[1..];
    checksum := CrcCalculate(header, 1, |buf| - 1);
    checksum := CrcAccumulateBuffer(checksum, payload, 0, len);
    assert payload[0..0 + len as nat] == payload[..len];
    checksum := CrcAccumulate(crcExtra, checksum);
    CrcConcat(INIT_CRC, buf[1..], payload[..len]);
    CrcOneMore(INIT_CRC, buf[1..] + payload[..len], crcExtra);
  }

  lemma CrcOneMore(crc: bv16, s: seq<byte>, c: byte)
    ensures Crc(crc, s + [c]) == Absorb(Crc(crc, s), c)
  {
    hide Absorb;
    assert (s + [c])[..|s|] == s;
  }

  /** mavlink_finalize_message_buffer: fill header, checksum and signature in place; the checksum bytes
      land in the payload buffer, right behind the payload. */
  method FinalizeMessageBuffer(msg: Message, systemId: byte, componentId: byte, status: Channel,
                               minLength: byte, length: byte, crcExtra: byte) returns (total: nat)
    requires msg.Shaped() && (status.signing != null ==> status.signing.Valid())
    modifies msg, msg.payload, msg.signature, status`currentTxSeq, status.signing
    ensures msg.Shaped() && (status.signing != null ==> status.signing.Valid())
    ensures status.currentTxSeq == (old(status.currentTxSeq) + 1) % 0x100
    ensures var v1 := status.outMavlink1;
      var signed := !v1 && status.signing != null && old(status.signing.signOutgoing);
      var p := FinalPacket(v1, signed, old(status.currentTxSeq), systemId, componentId, old(msg.msgid),
                           old(msg.payload[..]), minLength, length);
      && Sendable(p) && Holds(msg, p, crcExtra)
      && total == |Encode(p, crcExtra, msg.signature[..])|
      && (signed ==>
            && msg.signature[..] == SignatureBlock(old(status.signing.secretKey), old(status.signing.linkId),
                                                   old(status.signing.timestamp), Body(p, crcExtra))
            && status.signing.timestamp == (old(status.signing.timestamp) + 1) % TWO_64)
      && (!signed && status.signing != null ==> status.signing.timestamp == old(status.signing.timestamp))
    ensures status.signing != null ==>
      && status.signing.secretKey == old(status.signing.secretKey) && status.signing.linkId == old(status.signing.linkId)
      && status.signing.signOutgoing == old(status.signing.signOutgoing) && status.signing.lastStatus == old(status.signing.lastStatus)
  {
    hide Crc, Absorb, Lo, Hi, Trim, SignatureBlock;
    var v1 := status.outMavlink1;
    var signed := !v1 && status.signing != null && status.signing.signOutgoing;
    ghost var p := FinalPacket(v1, signed, status.currentTxSeq, systemId, componentId, msg.msgid, msg.payload[..], minLength, length);
    FillHeader(msg, systemId, componentId, status, minLength, length, signed);
    var buf := HeaderBuffer(msg);
    assert buf == Header(p);
    var checksum := MessageChecksum(buf, msg.payload, msg.len, crcExtra);
    assert checksum == Checksum(p, crcExtra);
    StoreChecksum(msg, checksum);
    assert msg.payload[..msg.len] == p.payload;
    if signed {
      var crc := msg.payload[msg.len..msg.len + 2];
      var n := SignPacket(status.signing, msg.signature, buf, msg.payload[..msg.len], crc);
    }
    total := msg.len + |buf| + 2 + if signed then SIGNATURE_BLOCK_LEN else 0;
  }

  /** The checksum goes into its field and, low byte first, behind the payload. */
  method StoreChecksum(msg: Message, checksum: bv16)
    requires msg.Shaped()
    modifies msg`checksum, msg.payload
    ensures msg.checksum == checksum && msg.payload[..msg.len] == old(msg.payload[..msg.len])
    ensures msg.payload[msg.len..msg.len + 2] == [Lo(checksum), Hi(checksum)]
  {
    hide Lo, Hi;
    msg.payload[msg.len] := Lo(checksum);
    msg.payload[msg.len + 1] := Hi(checksum);
    msg.checksum := checksum;
  }

  /** The field assignments at the head of mavlink_finalize_message_buffer. */
  method FillHeader(msg: Message, systemId: byte, componentId: byte, status: Channel,
                    minLength: byte, length: byte, signed: bool)
    requires msg.Shaped() && (status.outMavlink1 ==> !signed)
    modifies msg, status`currentTxSeq
    ensures msg.Shaped() && msg.msgid == old(msg.msgid) && status.currentTxSeq == (old(status.currentTxSeq) + 1) % 0x100
    ensures var p := FinalPacket(status.outMavlink1, signed, old(status.currentTxSeq), systemId, componentId, msg.msgid,
                                 msg.payload[..], minLength, length);
      && Sendable(p) && msg.magic == (if p.v1 then STX_MAVLINK1 else STX) && msg.len == |p.payload|
      && msg.incompatFlags == (if p.signed then 1 else 0) && msg.compatFlags == 0
      && msg.seqno == p.seqno && msg.sysid == p.sysid && msg.compid == p.compid
      && msg.payload[..msg.len] == p.payload
  {
    hide Trim;
    if status.outMavlink1 {
      msg.magic := STX_MAVLINK1;
      msg.len := minLength;
    } else {
      msg.magic := STX;
      msg.len := TrimPayload(msg.payload, length);
    }
    assert msg.payload[..][..minLength] == msg.payload[..minLength];
    assert msg.payload[..][..length] == msg.payload[..length];
    msg.sysid := systemId;
    msg.compid := componentId;
    msg.incompatFlags := if signed then 1 else 0;
    msg.compatFlags := 0;
    msg.seqno := status.currentTxSeq;
    status.currentTxSeq := (status.currentTxSeq + 1) % 0x100;
  }

  /* ---------- Serialising ---------- */

  /** The bytes mavlink_msg_to_send_buffer lays out for a message; version 2 trims once more. */
  ghost function SendBytes(msg: Message): seq<byte>
    requires msg.Shaped()
    reads msg, msg.payload, msg.signature
  {
    var ck: seq<byte> := [Lo(msg.checksum), Hi(msg.checksum)];
    if msg.magic == STX_MAVLINK1 then
      HeaderV1(msg.magic, msg.len, msg.seqno, msg.sysid, msg.compid, msg.msgid) + msg.payload[..msg.len] + ck
    else
      var payload := Trim(msg.payload[..msg.len]);
      HeaderV2(msg.magic, |payload|, msg.incompatFlags, msg.compatFlags, msg.seqno, msg.sysid, msg.compid, msg.msgid)
      + payload + ck + if msg.incompatFlags % 2 == 1 then msg.signature[..] else []
  }

  /** mavlink_msg_to_send_buffer: the serialised length, and the bytes; the rest of the buffer is untouched. */
  method MsgToSendBuffer(buf: array<byte>, msg: Message) returns (total: nat)
    requires msg.Shaped() && buf.Length >= MAX_PACKET_LEN && buf != msg.payload && buf != msg.signature
    modifies buf
    ensures total == |SendBytes(msg)| <= buf.Length && buf[..total] == SendBytes(msg)
    ensures buf[total..] == old(buf[total..])
  {
    hide Lo, Hi, Trim, HeaderV1, HeaderV2;
    var ck: seq<byte> := [Lo(msg.checksum), Hi(msg.checksum)];
    var header: seq<byte>, length := [], msg.len;
    var signature: seq<byte> := [];
    if msg.magic == STX_MAVLINK1 {
      header := HeaderV1(msg.magic, length, msg.seqno, msg.sysid, msg.compid, msg.msgid);
    } else {
      length := TrimPayload(msg.payload, length);
      header := HeaderV2(msg.magic, length, msg.incompatFlags, msg.compatFlags, msg.seqno, msg.sysid, msg.compid, msg.msgid);
      if msg.incompatFlags % 2 == 1 {
        signature := msg.signature[..];
      }
    }
    ghost var payload := msg.payload[..length];
    assert SendBytes(msg) == header + payload + ck + signature;
    Append(buf, 0, header, []);
    Append(buf, |header|, msg.payload[..length], header);
    Append(buf, |header| + length, ck, header + payload);
    Append(buf, |header| + length + 2, signature, header + payload + ck);
    total := |header| + length + 2 + |signature|;
    assert forall i :: total <= i < buf.Length ==> buf[i] == old(buf[i]);
    assert buf[total..] == old(buf[total..]);
  }

  method Append(buf: array<byte>, at: nat, s: seq<byte>, ghost done: seq<byte>)
    requires at + |s| <= buf.Length && buf[..at] == done
    modifies buf
    ensures buf[..at + |s|] == done + s
    ensures forall i :: at + |s| <= i < buf.Length ==> buf[i] == old(buf[i])
  {
    ghost var rest := buf[at + |s|..];
    CopyInto(buf, at, s);
    assert buf[..at + |s|] == done + s;
    assert buf[at + |s|..] == rest;
    forall i | at + |s| <= i < buf.Length ensures buf[i] == rest[i - at - |s|] {
      assert buf[at + |s|..][i - at - |s|] == buf[i];
    }
  }

  /** A finalised message serialises to exactly the encoding of its packet. */
  lemma FinalisedSerialises(msg: Message, p: Packet, full: seq<byte>, crcExtra: byte)
    requires msg.Shaped() && Sendable(p) && Holds(msg, p, crcExtra)
    requires !p.v1 ==> p.payload == Trim(full)
    ensures SendBytes(msg) == Encode(p, crcExtra, msg.signature[..])
  {
    hide Crc, Lo, Hi, Trim, HeaderV2;
    if !p.v1 {
      TrimIdempotent(full);
    }
  }
}
