/** The signing structs and the two functions that update them in place. */
module SigningContext {
  import opened Bytes
  import opened Framing
  import opened Messages
  import opened Sha256
  import opened Signing

  /** mavlink_signing_t; the callback sees the message id only. */
  class SigningState {
    var signOutgoing: bool
    var linkId: byte
    var timestamp: nat
    var secretKey: seq<byte>
    const acceptUnsigned: Option<nat -> bool>
    var lastStatus: SigningStatus

    ghost predicate Valid()
      reads this
    {
      |secretKey| == KEY_LEN && timestamp < TWO_64
    }

    constructor (linkId: byte, timestamp: nat, secretKey: seq<byte>, signOutgoing: bool, acceptUnsigned: Option<nat -> bool>)
      requires |secretKey| == KEY_LEN && timestamp < TWO_64
      ensures Valid()
      ensures this.linkId == linkId && this.timestamp == timestamp && this.secretKey == secretKey
      ensures this.signOutgoing == signOutgoing && this.acceptUnsigned == acceptUnsigned
    {
      this.linkId, this.timestamp, this.secretKey := linkId, timestamp, secretKey;
      this.signOutgoing, this.acceptUnsigned, lastStatus := signOutgoing, acceptUnsigned, STATUS_NONE;
    }

    /** The application's override for a packet that is unsigned or badly signed. */
    predicate Overrides(msgid: nat) {
      acceptUnsigned.Some? && acceptUnsigned.value(msgid)
    }
  }

  /** mavlink_signing_streams_t: sixteen slots, the first `count` in use. */
  class StreamTable {
    var count: nat
    const stream: array<Stream>

    ghost predicate Valid()
      reads this, stream
    {
      && stream.Length == MAX_SIGNING_STREAMS && count <= MAX_SIGNING_STREAMS
      && forall i :: 0 <= i < count ==> |stream[i].timestampBytes| == 6
    }

    constructor ()
      ensures Valid() && fresh(stream) && count == 0
    {
      count := 0;
      stream := new Stream[MAX_SIGNING_STREAMS](_ => Stream(0, 0, 0, [0, 0, 0, 0, 0, 0]));
    }
  }

  /** The signing state and stream table as a value. */
  ghost function LedgerOf(signing: SigningState, table: StreamTable?): Ledger
    requires table != null ==> table.Valid()
    reads signing, table, if table != null then {table.stream} else {}
  {
    Ledger(signing.timestamp, if table == null then None else Some(table.stream[..table.count]))
  }

  /** mavlink_sign_packet: fill the signature block and advance our timestamp. */
  method SignPacket(signing: SigningState?, signature: array<byte>, header: seq<byte>, packet: seq<byte>, crc: seq<byte>) returns (len: nat)
    requires signing != null ==> signing.Valid()
    requires signature.Length == SIGNATURE_BLOCK_LEN && |header| <= 10 && |packet| <= 255 && |crc| == 2
    modifies signing, signature
    ensures signing != null ==>
      && signing.Valid() && signing.secretKey == old(signing.secretKey) && signing.linkId == old(signing.linkId)
      && signing.signOutgoing == old(signing.signOutgoing) && signing.lastStatus == old(signing.lastStatus)
    ensures len == if signing != null && signing.signOutgoing then SIGNATURE_BLOCK_LEN else 0
    ensures len == 0 ==> signature[..] == old(signature[..]) && (signing != null ==> signing.timestamp == old(signing.timestamp))
    ensures len != 0 ==>
      && signature[..] == SignatureBlock(signing.secretKey, signing.linkId, old(signing.timestamp), header + packet + crc)
      && signing.timestamp == (old(signing.timestamp) + 1) % TWO_64
  {
    if signing == null || !signing.signOutgoing {
      return 0;
    }
    hide Sha48;
    var stamp := [signing.linkId] + LittleEndian(signing.timestamp, 6);
    signing.timestamp := (signing.timestamp + 1) % TWO_64;
    SignatureParts(signing.secretKey, header, packet, crc, stamp);
    var hash := HashParts([signing.secretKey, header, packet, crc, stamp]);
    FillSignature(signature, stamp, hash);
    len := SIGNATURE_BLOCK_LEN;
  }

  method FillSignature(signature: array<byte>, stamp: seq<byte>, hash: seq<byte>)
    requires signature.Length == SIGNATURE_BLOCK_LEN && |stamp| == 7 && |hash| == 6
    modifies signature
    ensures signature[..] == stamp + hash
  {
    CopyInto(signature, 0, stamp);
    CopyInto(signature, 7, hash);
  }

  lemma SignatureParts(key: seq<byte>, header: seq<byte>, packet: seq<byte>, crc: seq<byte>, stamp: seq<byte>)
    ensures Concat([key, header, packet, crc, stamp]) == key + (header + packet + crc) + stamp
  {
    FivePartsConcat(key, header, packet, crc, stamp);
    assert key + (header + packet + crc) == key + header + packet + crc;
  }

  method CopyInto(a: array<byte>, at: nat, s: seq<byte>)
    requires at + |s| <= a.Length
    modifies a
    ensures a[..] == old(a[..at]) + s + old(a[at + |s|..])
  {
    var i := 0;
    while i < |s|
      invariant 0 <= i <= |s|
      invariant a[..] == old(a[..at]) + s[..i] + old(a[at + i..])
    {
      a[at + i] := s[i];
      i := i + 1;
    }
    assert s[..i] == s;
  }

  lemma ConcatAppend(parts: seq<seq<byte>>, x: seq<byte>)
    ensures Concat(parts + [x]) == Concat(parts) + x
  {
    assert (parts + [x])[..|parts|] == parts;
  }

  lemma FivePartsConcat(a: seq<byte>, b: seq<byte>, c: seq<byte>, d: seq<byte>, e: seq<byte>)
    ensures Concat([a, b, c, d, e]) == a + b + c + d + e
  {
    assert [a, b, c, d, e] == [a] + [b] + [c] + [d] + [e];
    ConcatAppend([], a);
    assert [] + [a] == [a];
    ConcatAppend([a], b);
    ConcatAppend([a] + [b], c);
    ConcatAppend([a] + [b] + [c], d);
    ConcatAppend([a] + [b] + [c] + [d], e);
  }

  /** mavlink_signature_check on the received frame `f`. */
  method SignatureCheck(signing: SigningState?, table: StreamTable?, msg: Message, ghost f: Frame) returns (ok: bool)
    requires signing != null ==> signing.Valid()
    requires table != null ==> table.Valid()
    requires msg.Shaped() && IsSigned(f) && msg.ReceivedBytes() == f
    requires SysidOf(f) == msg.sysid && CompidOf(f) == msg.compid
    modifies signing, table, if table != null then {table.stream} else {}
    ensures signing == null ==> ok
    ensures signing != null ==>
      && signing.Valid() && signing.secretKey == old(signing.secretKey)
      && signing.linkId == old(signing.linkId) && signing.signOutgoing == old(signing.signOutgoing)
    ensures table != null ==> table.Valid()
    ensures signing != null ==>
      && ok == (signing.lastStatus == STATUS_OK)
      && (LedgerOf(signing, table), signing.lastStatus) == Verify(signing.secretKey, old(LedgerOf(signing, table)), f)
    ensures signing == null && table != null ==> table.count == old(table.count) && table.stream[..] == old(table.stream[..])
  {
    hide Verify, IsFrame, SysidOf, CompidOf, Message.ReceivedBytes;
    if signing == null {
      return true;
    }
    ok := JudgeSigned(signing, table, msg, f);
  }

  lemma VerifyIs(key: seq<byte>, l: Ledger, f: Frame, s: Stream)
    requires IsSigned(f) && s == Stream(LinkOf(f), SysidOf(f), CompidOf(f), f[CrcAt(f) + 3..CrcAt(f) + 9])
    ensures Verify(key, l, f) == if Genuine(key, f) then Admit(l, s) else (l, STATUS_BAD_SIGNATURE)
  {
    hide Genuine, Admit;
  }

  /** The hash, then the timestamp. */
  method JudgeSigned(signing: SigningState, table: StreamTable?, msg: Message, ghost f: Frame) returns (ok: bool)
    requires signing.Valid() && (table != null ==> table.Valid())
    requires msg.Shaped() && IsSigned(f) && msg.ReceivedBytes() == f
    requires SysidOf(f) == msg.sysid && CompidOf(f) == msg.compid
    modifies signing`lastStatus, signing`timestamp, table, if table != null then {table.stream} else {}
    ensures signing.Valid() && (table != null ==> table.Valid())
    ensures ok == (signing.lastStatus == STATUS_OK)
    ensures (LedgerOf(signing, table), signing.lastStatus) == Verify(signing.secretKey, old(LedgerOf(signing, table)), f)
  {
    hide Genuine, Admit, Verify, LedgerOf, IsFrame, SysidOf, CompidOf, StreamTable.Valid, Message.ReceivedBytes;
    var s := Stream(msg.signature[0], msg.sysid, msg.compid, msg.signature[1..7]);
    var genuine := DigestMatches(signing.secretKey, msg, f);
    VerifyIs(signing.secretKey, LedgerOf(signing, table), f, s);
    if genuine {
      ok := Record(signing, table, s);
    } else {
      Reject(signing, table);
      ok := false;
    }
  }

  method Reject(signing: SigningState, table: StreamTable?)
    requires signing.Valid() && (table != null ==> table.Valid())
    modifies signing`lastStatus
    ensures signing.Valid() && signing.lastStatus == STATUS_BAD_SIGNATURE
    ensures LedgerOf(signing, table) == old(LedgerOf(signing, table))
  {
    signing.lastStatus := STATUS_BAD_SIGNATURE;
  }

  /** The hash half of the check. */
  method DigestMatches(key: seq<byte>, msg: Message, ghost f: Frame) returns (same: bool)
    requires |key| == KEY_LEN && msg.Shaped() && IsSigned(f) && msg.ReceivedBytes() == f
    ensures same == Genuine(key, f)
    ensures LinkOf(f) == msg.signature[0] && f[CrcAt(f) + 3..CrcAt(f) + 9] == msg.signature[1..7]
  {
    hide Sha48;
    var header := msg.StructHeader();
    var payload := msg.payload[..msg.len];
    var ck := [msg.ck0, msg.ck1];
    var psig := msg.signature[..];
    FivePartsConcat(key, header, payload, ck, psig[..7]);
    var hash := HashParts([key, header, payload, ck, psig[..7]]);
    DigestInput(f, key, header, payload, ck, psig);
    same := hash == psig[7..];
  }

  /** The five pieces hashed by the check are the key and the frame up to the signature proper. */
  lemma DigestInput(f: Frame, key: seq<byte>, header: seq<byte>, payload: seq<byte>, ck: seq<byte>, psig: seq<byte>)
    requires IsSigned(f) && f == header + payload + ck + psig
    requires |header| == 10 && |ck| == 2 && |psig| == SIGNATURE_BLOCK_LEN
    ensures key + SignedPart(f) == key + header + payload + ck + psig[..7]
    ensures SignatureOf(f) == psig[7..] && LinkOf(f) == psig[0] && f[CrcAt(f) + 3..CrcAt(f) + 9] == psig[1..7]
  {
    assert CrcAt(f) == 10 + |payload|;
    assert SignedPart(f) == header + payload + ck + psig[..7];
  }

  /** The timestamp half of the check. */
  method Record(signing: SigningState, table: StreamTable?, s: Stream) returns (ok: bool)
    requires signing.Valid() && |s.timestampBytes| == 6
    requires table != null ==> table.Valid()
    modifies signing`lastStatus, signing`timestamp, table, if table != null then {table.stream} else {}
    ensures signing.Valid()
    ensures table != null ==> table.Valid()
    ensures ok == (signing.lastStatus == STATUS_OK)
    ensures (LedgerOf(signing, table), signing.lastStatus) == Admit(old(LedgerOf(signing, table)), s)
  {
    var timestamp := FromLittleEndian(s.timestampBytes);
    SixBytesBounded(s.timestampBytes);
    if table == null {
      signing.lastStatus := STATUS_NO_STREAMS;
      return false;
    }
    var i := 0;
    while i < table.count && table.stream[i].Key() != s.Key()
      invariant 0 <= i <= table.count
      invariant forall j :: 0 <= j < i ==> table.stream[j].Key() != s.Key()
    {
      i := i + 1;
    }
    ghost var before := table.stream[..table.count];
    assert i == Find(before, s.Key());
    if i == table.count {
      if table.count >= MAX_SIGNING_STREAMS {
        signing.lastStatus := STATUS_TOO_MANY_STREAMS;
        return false;
      }
      if timestamp + AGE_LIMIT < signing.timestamp {
        signing.lastStatus := STATUS_OLD_TIMESTAMP;
        return false;
      }
      table.count := table.count + 1;
    } else if timestamp <= FromLittleEndian(table.stream[i].timestampBytes) {
      signing.lastStatus := STATUS_REPLAY;
      return false;
    }
    table.stream[i] := s;
    assert table.stream[..table.count] == if i == |before| then before + [s] else before[i := s];
    if timestamp > signing.timestamp {
      signing.timestamp := timestamp;
    }
    signing.lastStatus := STATUS_OK;
    ok := true;
  }

  lemma {:induction false} LittleEndianBounded(s: seq<byte>)
    ensures FromLittleEndian(s) < Pow256(|s|)
  {
    if s != [] {
      LittleEndianBounded(s[1..]);
    }
  }

  lemma SixBytesBounded(s: seq<byte>)
    requires |s| == 6
    ensures FromLittleEndian(s) < TWO_48
  {
    LittleEndianBounded(s);
    Pow48();
  }
}
