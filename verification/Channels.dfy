/** One MAVLink channel: status, receive buffer and the byte-at-a-time receiver of mavlink_helpers.h. */
module Channels {
  import opened Bytes
  import opened Crc16
  import opened Framing
  import opened Messages
  import opened Reception
  import opened Signing
  import opened SigningContext

  class Channel {
    const table: seq<MsgEntry>
    const rxmsg: Message
    const signing: SigningState?
    const streams: StreamTable?
    var msgReceived: FramingResult
    var parseState: ParseState
    var packetIdx: nat
    var signatureWait: nat
    var inMavlink1: bool
    var outMavlink1: bool
    var currentRxSeq: byte
    var currentTxSeq: byte
    var packetRxSuccessCount: nat
    var packetRxDropCount: nat
    var parseError: nat
    ghost var pending: Pending   // the bytes of the frame under way

    constructor (table: seq<MsgEntry>, signing: SigningState?, streams: StreamTable?)
      requires Sorted(table) && table != []
      requires (signing != null ==> signing.Valid()) && (streams != null ==> streams.Valid())
      ensures Valid() && pending == [] && fresh(rxmsg) && fresh(rxmsg.payload) && fresh(rxmsg.signature)
      ensures this.table == table && this.signing == signing && this.streams == streams
    {
      this.table, this.signing, this.streams := table, signing, streams;
      rxmsg := new Message();
      msgReceived, parseState, pending := FRAMING_INCOMPLETE, UNINIT, [];
      packetIdx, signatureWait, inMavlink1, outMavlink1 := 0, 0, false, false;
      currentRxSeq, currentTxSeq, packetRxSuccessCount, packetRxDropCount, parseError := 0, 0, 0, 0, 0;
    }

    ghost predicate Wired()
      reads this, rxmsg, signing, streams, if streams != null then {streams.stream} else {}
    {
      && rxmsg.Shaped() && Sorted(table) && table != []
      && (signing != null ==> signing.Valid())
      && (streams != null ==> streams.Valid())
    }

    /** The receive buffer and parser state as a value. */
    function View(): Rx
      reads this, rxmsg, rxmsg.payload, rxmsg.signature
    {
      Rx(rxmsg.magic, rxmsg.len, rxmsg.incompatFlags, rxmsg.compatFlags, rxmsg.seqno, rxmsg.sysid, rxmsg.compid,
         rxmsg.msgid, rxmsg.checksum, rxmsg.payload[..], rxmsg.ck0, rxmsg.ck1, rxmsg.signature[..],
         inMavlink1, parseState, packetIdx, signatureWait)
    }

    ghost predicate Valid()
      reads this, rxmsg, rxmsg.payload, rxmsg.signature, signing, streams, if streams != null then {streams.stream} else {}
    {
      Wired() && Agrees(table, pending, View())
    }

    ghost function LedgerNow(): Ledger
      requires streams != null ==> streams.Valid()
      reads signing, streams, if streams != null then {streams.stream} else {}
    {
      if signing == null then Ledger(0, None) else LedgerOf(signing, streams)
    }

    ghost function PolicyNow(): Option<Policy>
      reads signing
    {
      if signing == null then None else Some(Policy(signing.secretKey, (msgid: nat) => signing.Overrides(msgid)))
    }

    /* ---------- The cases of the state machine ---------- */

    /** UNINIT, IDLE: wait for a start byte. */
    method TakeStart(c: byte)
      requires Valid() && pending == []
      modifies this`parseState, this`inMavlink1, this`pending, rxmsg
      ensures Valid() && pending == Pend(old(pending), c)
    {
      hide Crc;
      if c == STX || c == STX_MAVLINK1 {
        parseState := GOT_STX;
        rxmsg.len := 0;
        rxmsg.magic := c;
        inMavlink1 := c == STX_MAVLINK1;
        rxmsg.checksum := INIT_CRC;
        StartStep(table, View());
        pending := [c];
      }
    }

    /** GOT_STX: the length byte. */
    method TakeLength(c: byte)
      requires Valid() && parseState == GOT_STX
      modifies this`parseState, this`packetIdx, this`pending, rxmsg
      ensures Valid() && pending == Pend(old(pending), c)
    {
      hide Agrees, Pend, Absorb, IsPending;
      LengthStep(table, pending, c, View());
      rxmsg.len := c;
      packetIdx := 0;
      rxmsg.checksum := CrcAccumulate(c, rxmsg.checksum);
      if inMavlink1 {
        rxmsg.incompatFlags := 0;
        rxmsg.compatFlags := 0;
        parseState := GOT_COMPAT_FLAGS;
      } else {
        parseState := GOT_LENGTH;
      }
      pending := pending + [c];
    }

    /** GOT_LENGTH: incompatibility flags; an unknown one abandons the frame. */
    method TakeIncompatFlags(c: byte)
      requires Valid() && parseState == GOT_LENGTH
      modifies this`parseState, this`parseError, this`pending, rxmsg
      ensures Valid() && pending == Pend(old(pending), c)
    {
      hide Agrees, Pend, Absorb, IsPending;
      IncompatStep(table, pending, c, View());
      rxmsg.incompatFlags := c;
      if c > 1 {
        parseError := (parseError + 1) % 0x100;
        parseState := IDLE;
        IdleAgrees(table, View());
        pending := [];
      } else {
        rxmsg.checksum := CrcAccumulate(c, rxmsg.checksum);
        parseState := GOT_INCOMPAT_FLAGS;
        pending := pending + [c];
      }
    }

    /** GOT_INCOMPAT_FLAGS to GOT_SYSID: flags and addresses. */
    method TakeAddress(c: byte)
      requires Valid() && parseState in {GOT_INCOMPAT_FLAGS, GOT_COMPAT_FLAGS, GOT_SEQ, GOT_SYSID}
      modifies this`parseState, this`pending, rxmsg
      ensures Valid() && pending == Pend(old(pending), c)
    {
      hide Agrees, Pend, Absorb, IsPending;
      AddressStep(table, pending, c, View());
      rxmsg.checksum := CrcAccumulate(c, rxmsg.checksum);
      match parseState {
        case GOT_INCOMPAT_FLAGS =>
          rxmsg.compatFlags := c;
          parseState := GOT_COMPAT_FLAGS;
        case GOT_COMPAT_FLAGS =>
          rxmsg.seqno := c;
          parseState := GOT_SEQ;
        case GOT_SEQ =>
          rxmsg.sysid := c;
          parseState := GOT_SYSID;
        case GOT_SYSID =>
          rxmsg.compid := c;
          parseState := GOT_COMPID;
      }
      pending := pending + [c];
    }

    /** GOT_COMPID to GOT_MSGID2: one message id byte in version 1, three in version 2. */
    method TakeMsgid(c: byte)
      requires Valid() && parseState in {GOT_COMPID, GOT_MSGID1, GOT_MSGID2}
      modifies this`parseState, this`pending, rxmsg
      ensures Valid() && pending == Pend(old(pending), c)
    {
      hide Agrees, Pend, Absorb, IsPending;
      MsgidStep(table, pending, c, View());
      rxmsg.checksum := CrcAccumulate(c, rxmsg.checksum);
      match parseState {
        case GOT_COMPID =>
          rxmsg.msgid := c;
          if inMavlink1 {
            parseState := if rxmsg.len > 0 then GOT_MSGID3 else GOT_PAYLOAD;
          } else {
            parseState := GOT_MSGID1;
          }
        case GOT_MSGID1 =>
          rxmsg.msgid := rxmsg.msgid + 0x100 * (c as nat);
          parseState := GOT_MSGID2;
        case GOT_MSGID2 =>
          rxmsg.msgid := rxmsg.msgid + 0x1_0000 * (c as nat);
          parseState := if rxmsg.len > 0 then GOT_MSGID3 else GOT_PAYLOAD;
      }
      pending := pending + [c];
    }

    /** GOT_MSGID3: payload bytes. */
    method TakePayload(c: byte)
      requires Valid() && parseState == GOT_MSGID3
      modifies this`parseState, this`packetIdx, this`pending, rxmsg, rxmsg.payload
      ensures Valid() && pending == Pend(old(pending), c)
    {
      hide Agrees, Pend, Absorb, IsPending;
      PayloadStep(table, pending, c, View());
      rxmsg.payload[packetIdx] := c;
      assert rxmsg.payload[..] == old(rxmsg.payload[..])[packetIdx := c];
      packetIdx := packetIdx + 1;
      rxmsg.checksum := CrcAccumulate(c, rxmsg.checksum);
      if packetIdx == rxmsg.len {
        parseState := GOT_PAYLOAD;
      }
      pending := pending + [c];
    }

    /** GOT_PAYLOAD: crc_extra, the first checksum byte, and the zero-fill of short payloads. */
    method TakeFirstCrc(c: byte)
      requires Valid() && parseState == GOT_PAYLOAD
      modifies this`parseState, this`pending, rxmsg, rxmsg.payload
      ensures Valid() && pending == Pend(old(pending), c)
    {
      hide Agrees, Pend, Absorb, IsPending, Lo, Lookup, Filled;
      var e := GetMsgEntry(table, rxmsg.msgid);
      if e == None {
        UnknownMessageStep(table, pending, c, View());
        parseState := GOT_BAD_CRC1;
        rxmsg.ck0 := c;
      } else {
        ghost var before := View();
        Bounds(table, pending, before);
        ZeroFill(packetIdx, e.value.maxMsgLen);
        FirstCrcStep(table, pending, c, before, e.value, rxmsg.payload[..]);
        rxmsg.checksum := CrcAccumulate(e.value.crcExtra, rxmsg.checksum);
        parseState := if c != Lo(rxmsg.checksum) then GOT_BAD_CRC1 else GOT_CRC1;
        rxmsg.ck0 := c;
      }
      pending := pending + [c];
    }

    /** The memset at the end of GOT_PAYLOAD. */
    method ZeroFill(from: nat, to: nat)
      requires rxmsg.payload.Length == PAYLOAD_BYTES && from <= 255 && to <= 255
      modifies rxmsg.payload
      ensures Filled(old(rxmsg.payload[..]), from, to, rxmsg.payload[..])
    {
      var i := from;
      while i < to
        invariant from <= i && (from <= to ==> i <= to)
        invariant rxmsg.payload[..i] == old(rxmsg.payload[..from]) + Zeros(i - from)
      {
        rxmsg.payload[i] := 0;
        i := i + 1;
      }
    }

    /** GOT_CRC1 and GOT_BAD_CRC1: the second checksum byte. */
    method TakeSecondCrc(c: byte) returns (delivered: Option<Received>)
      requires Valid() && parseState in {GOT_CRC1, GOT_BAD_CRC1} && msgReceived == FRAMING_INCOMPLETE
      modifies this`parseState, this`signatureWait, this`pending, this`msgReceived, rxmsg
      ensures Valid() && pending == Pend(old(pending), c)
      ensures rxmsg.magic == old(rxmsg.magic) && inMavlink1 == old(inMavlink1)
      ensures match Completes(old(pending), c)
        case None => msgReceived == Interim(table, old(pending), c) && delivered == None
        case Some(f) =>
          && (msgReceived, LedgerNow()) == Verdict(table, PolicyNow(), old(LedgerNow()), f)
          && delivered.Some? && Delivers(table, delivered.value, f) && SeqOf(f) == rxmsg.seqno
    {
      hide Agrees, Pend, Completes, Delivers, CrcGood, IsFrame, IsPending, IsSigned, Hi, Verdict, Copied, MsgidOf, SeqOf;
      SecondCrcStep(table, pending, c, View());
      msgReceived := if parseState == GOT_BAD_CRC1 || c != Hi(rxmsg.checksum) then FRAMING_BAD_CRC else FRAMING_OK;
      if rxmsg.incompatFlags % 2 == 1 {
        SignatureBegins(table, pending, c, View());
        rxmsg.ck1 := c;
        if msgReceived == FRAMING_BAD_CRC {
          parseState := SIGNATURE_WAIT_BAD_CRC;
        } else {
          parseState := SIGNATURE_WAIT;
          msgReceived := FRAMING_INCOMPLETE;
        }
        signatureWait := SIGNATURE_BLOCK_LEN;
        pending := pending + [c];
        delivered := None;
      } else {
        delivered := EndUnsigned(c);
      }
    }

    method EndUnsigned(c: byte) returns (delivered: Option<Received>)
      requires Valid() && parseState in {GOT_CRC1, GOT_BAD_CRC1} && |pending| >= 2
      requires IsFrame(pending + [c]) && !IsSigned(pending + [c])
      requires msgReceived == if CrcGood(table, pending + [c]) then FRAMING_OK else FRAMING_BAD_CRC
      modifies this`parseState, this`pending, this`msgReceived, rxmsg
      ensures Valid() && pending == [] && rxmsg.magic == old(rxmsg.magic) && inMavlink1 == old(inMavlink1)
      ensures var f := old(pending) + [c];
        && (msgReceived, LedgerNow()) == Verdict(table, PolicyNow(), old(LedgerNow()), f)
        && delivered.Some? && Delivers(table, delivered.value, f) && SeqOf(f) == rxmsg.seqno
    {
      hide Agrees, Delivers, CrcGood, IsFrame, IsPending, IsSigned, Verdict, Copied, MsgidOf, SeqOf;
      UnsignedDelivered(table, pending, c, View());
      rxmsg.ck1 := c;
      JudgeUnsigned(pending + [c]);
      delivered := Some(Copied(View(), msgReceived == FRAMING_BAD_CRC));
      parseState := IDLE;
      IdleAgrees(table, View());
      pending := [];
    }

    /** Without a signature: a channel that signs needs the application's permission. */
    method JudgeUnsigned(ghost f: Frame)
      requires Wired() && !IsSigned(f) && rxmsg.msgid == MsgidOf(f)
      requires msgReceived == if CrcGood(table, f) then FRAMING_OK else FRAMING_BAD_CRC
      modifies this`msgReceived
      ensures (msgReceived, LedgerNow()) == Verdict(table, PolicyNow(), old(LedgerNow()), f)
      ensures msgReceived == FRAMING_BAD_CRC <==> !CrcGood(table, f)
    {
      hide CrcGood, IsFrame, MsgidOf, Verify, LedgerOf;
      if signing != null && !signing.Overrides(rxmsg.msgid) {
        if msgReceived != FRAMING_BAD_CRC {
          msgReceived := FRAMING_BAD_SIGNATURE;
        }
      }
    }

    /** SIGNATURE_WAIT and SIGNATURE_WAIT_BAD_CRC: signature bytes; the last one ends the frame. */
    method TakeSignature(c: byte) returns (delivered: Option<Received>)
      requires Valid() && parseState in {SIGNATURE_WAIT, SIGNATURE_WAIT_BAD_CRC} && msgReceived == FRAMING_INCOMPLETE
      modifies this`parseState, this`signatureWait, this`pending, this`msgReceived, rxmsg.signature
      modifies signing, streams, if streams != null then {streams.stream} else {}
      ensures Valid() && pending == Pend(old(pending), c) && PolicyNow() == old(PolicyNow())
      ensures match Completes(old(pending), c)
        case None => msgReceived == Interim(table, old(pending), c) && delivered == None && LedgerNow() == old(LedgerNow())
        case Some(f) =>
          && (msgReceived, LedgerNow()) == Verdict(table, PolicyNow(), old(LedgerNow()), f)
          && delivered.Some? && Delivers(table, delivered.value, f) && SeqOf(f) == rxmsg.seqno
    {
      hide Agrees, Pend, Completes, Delivers, CrcGood, IsFrame, IsSigned, IsPending, Verdict, Interim, LedgerOf, MsgidOf, SeqOf, StructBytes, Copied;
      ghost var before := View();
      SignatureStep(table, pending, c, before);
      ghost var i := SIGNATURE_BLOCK_LEN - signatureWait;
      rxmsg.signature[SIGNATURE_BLOCK_LEN - signatureWait] := c;
      assert rxmsg.signature[..] == before.signature[i := c];
      signatureWait := signatureWait - 1;
      if signatureWait == 0 {
        SignedWhole(table, pending, c, before, View());
        delivered := EndSigned(pending + [c]);
      } else {
        SignatureContinues(table, pending, c, before);
        pending := pending + [c];
        delivered := None;
      }
    }

    /** The whole signed frame `f` is in the buffer: copy it out, and judge it. */
    method EndSigned(ghost f: Frame) returns (delivered: Option<Received>)
      requires Wired() && IsSigned(f) && rxmsg.len <= PAYLOAD_BYTES && StructBytes(View()) == f && rxmsg.msgid == MsgidOf(f)
      requires parseState == if CrcGood(table, f) then SIGNATURE_WAIT else SIGNATURE_WAIT_BAD_CRC
      requires Delivers(table, Copied(View(), parseState == SIGNATURE_WAIT_BAD_CRC), f)
      modifies this`parseState, this`pending, this`msgReceived
      modifies signing, streams, if streams != null then {streams.stream} else {}
      ensures Valid() && pending == [] && PolicyNow() == old(PolicyNow())
      ensures (msgReceived, LedgerNow()) == Verdict(table, PolicyNow(), old(LedgerNow()), f)
      ensures delivered.Some? && Delivers(table, delivered.value, f)
    {
      hide Agrees, Delivers, CrcGood, IsFrame, IsSigned, Verdict, LedgerOf, MsgidOf, StructBytes, Copied, Message.ReceivedBytes;
      StructIsView();
      delivered := Some(Copied(View(), parseState == SIGNATURE_WAIT_BAD_CRC));
      msgReceived := JudgeSigned(f);
      parseState := IDLE;
      IdleAgrees(table, View());
      pending := [];
    }

    lemma StructIsView()
      requires rxmsg.Shaped()
      ensures StructBytes(View()) == rxmsg.ReceivedBytes()
    {
      hide HeaderV2;
    }

    /** The signature check, the application's override, and what wins over what. */
    method JudgeSigned(ghost f: Frame) returns (result: FramingResult)
      requires Wired() && IsSigned(f) && rxmsg.ReceivedBytes() == f && rxmsg.msgid == MsgidOf(f)
      requires (parseState == SIGNATURE_WAIT_BAD_CRC) == !CrcGood(table, f)
      modifies signing, streams, if streams != null then {streams.stream} else {}
      ensures Wired() && PolicyNow() == old(PolicyNow())
      ensures (result, LedgerNow()) == Verdict(table, PolicyNow(), old(LedgerNow()), f)
    {
      hide CrcGood, IsFrame, MsgidOf, Verify, LedgerOf, MsgidBytes;
      assert SysidOf(f) == rxmsg.sysid && CompidOf(f) == rxmsg.compid;
      var sigOk := SignatureCheck(signing, streams, rxmsg, f);
      if !sigOk && signing.Overrides(rxmsg.msgid) {
        sigOk := true;
      }
      result :=
        if parseState == SIGNATURE_WAIT_BAD_CRC then FRAMING_BAD_CRC
        else if sigOk then FRAMING_OK
        else FRAMING_BAD_SIGNATURE;
    }

    /* ---------- The two entry points ---------- */

    /** mavlink_frame_char_buffer: one byte in; a framing result and, with the last byte of a frame,
        a copy of the message out. */
    method FrameChar(c: byte) returns (result: FramingResult, delivered: Option<Received>)
      requires Valid()
      modifies this, rxmsg, rxmsg.payload, rxmsg.signature
      modifies signing, streams, if streams != null then {streams.stream} else {}
      ensures Valid() && pending == Pend(old(pending), c) && PolicyNow() == old(PolicyNow())
      ensures match Completes(old(pending), c)
        case None => result == Interim(table, old(pending), c) && delivered == None && LedgerNow() == old(LedgerNow())
        case Some(f) =>
          && (result, LedgerNow()) == Verdict(table, PolicyNow(), old(LedgerNow()), f)
          && delivered.Some? && Delivers(table, delivered.value, f)
          && (result == FRAMING_OK ==> currentRxSeq == SeqOf(f))
          && result == Answer(table, f, signing != null,
                              signing != null && signing.acceptUnsigned.Some? && signing.acceptUnsigned.value(MsgidOf(f)),
                              signing != null && Vouched(signing.secretKey, old(LedgerNow()), f))
      ensures result !in {FRAMING_INCOMPLETE, FRAMING_OK} ==>
        old(pending) != [] && rxmsg.magic == old(pending)[0] && inMavlink1 == IsV1(old(pending))
      ensures result != FRAMING_OK ==> currentRxSeq == old(currentRxSeq)
      ensures packetRxSuccessCount == if result == FRAMING_OK then (old(packetRxSuccessCount) + 1) % 0x1_0000 else old(packetRxSuccessCount)
      ensures packetRxDropCount == if result == FRAMING_OK && old(packetRxSuccessCount) == 0 then 0 else old(packetRxDropCount)
      ensures parseError == 0 && currentTxSeq == old(currentTxSeq) && outMavlink1 == old(outMavlink1)
    {
      hide Agrees, Pend, Completes, Delivers, Verdict, Interim, LedgerOf, IsPending, IsV1, Answer, Vouched, MsgidOf;
      ghost var done := Completes(pending, c);
      if done.Some? {
        VerdictIsAnswer(table, PolicyNow(), LedgerNow(), done.value);
      }
      delivered := Dispatch(c);
      Account();
      result := msgReceived;
    }

    /** The bookkeeping after the switch. */
    method Account()
      modifies this`currentRxSeq, this`packetRxSuccessCount, this`packetRxDropCount, this`parseError
      ensures parseError == 0
      ensures currentRxSeq == if msgReceived == FRAMING_OK then rxmsg.seqno else old(currentRxSeq)
      ensures packetRxSuccessCount == if msgReceived == FRAMING_OK then (old(packetRxSuccessCount) + 1) % 0x1_0000 else old(packetRxSuccessCount)
      ensures packetRxDropCount == if msgReceived == FRAMING_OK && old(packetRxSuccessCount) == 0 then 0 else old(packetRxDropCount)
    {
      if msgReceived == FRAMING_OK {
        currentRxSeq := rxmsg.seqno;
        if packetRxSuccessCount == 0 {
          packetRxDropCount := 0;
        }
        packetRxSuccessCount := (packetRxSuccessCount + 1) % 0x1_0000;
      }
      parseError := 0;
    }

    /** The switch of mavlink_frame_char_buffer. */
    method Dispatch(c: byte) returns (delivered: Option<Received>)
      requires Valid()
      modifies this`msgReceived, this`parseState, this`packetIdx, this`signatureWait, this`inMavlink1, this`parseError, this`pending
      modifies rxmsg, rxmsg.payload, rxmsg.signature
      modifies signing, streams, if streams != null then {streams.stream} else {}
      ensures Valid() && pending == Pend(old(pending), c) && PolicyNow() == old(PolicyNow())
      ensures match Completes(old(pending), c)
        case None => msgReceived == Interim(table, old(pending), c) && delivered == None && LedgerNow() == old(LedgerNow())
        case Some(f) =>
          && (msgReceived, LedgerNow()) == Verdict(table, PolicyNow(), old(LedgerNow()), f)
          && delivered.Some? && Delivers(table, delivered.value, f) && rxmsg.seqno == SeqOf(f)
      ensures msgReceived !in {FRAMING_INCOMPLETE, FRAMING_OK} ==>
        old(pending) != [] && rxmsg.magic == old(pending)[0] && inMavlink1 == IsV1(old(pending))
    {
      hide Agrees, Pend, Completes, Delivers, Verdict, Interim, LedgerOf, IsFrame, IsPending, IsV1;
      msgReceived := FRAMING_INCOMPLETE;
      delivered := None;
      AgreesFacts(table, pending, View());
      if parseState in {GOT_CRC1, GOT_BAD_CRC1} {
        delivered := TakeSecondCrc(c);
      } else if parseState in {SIGNATURE_WAIT, SIGNATURE_WAIT_BAD_CRC} {
        delivered := TakeSignature(c);
      } else {
        EarlyBytes(table, pending, c, View());
        TakeEarly(c);
      }
    }

    /** The cases up to and including the first checksum byte. */
    method TakeEarly(c: byte)
      requires Valid() && parseState !in {GOT_CRC1, GOT_BAD_CRC1, SIGNATURE_WAIT, SIGNATURE_WAIT_BAD_CRC}
      modifies this`parseState, this`packetIdx, this`inMavlink1, this`parseError, this`pending, rxmsg, rxmsg.payload
      ensures Valid() && pending == Pend(old(pending), c)
    {
      hide Agrees, Pend, IsPending;
      AgreesFacts(table, pending, View());
      match parseState {
        case UNINIT => TakeStart(c);
        case IDLE => TakeStart(c);
        case GOT_STX => TakeLength(c);
        case GOT_LENGTH => TakeIncompatFlags(c);
        case GOT_INCOMPAT_FLAGS => TakeAddress(c);
        case GOT_COMPAT_FLAGS => TakeAddress(c);
        case GOT_SEQ => TakeAddress(c);
        case GOT_SYSID => TakeAddress(c);
        case GOT_COMPID => TakeMsgid(c);
        case GOT_MSGID1 => TakeMsgid(c);
        case GOT_MSGID2 => TakeMsgid(c);
        case GOT_MSGID3 => TakePayload(c);
        case GOT_PAYLOAD => TakeFirstCrc(c);
      }
    }

    /** mavlink_parse_char: a bad frame counts as no message, and its last byte may restart the receiver. */
    method ParseChar(c: byte) returns (result: FramingResult, delivered: Option<Received>)
      requires Valid()
      modifies this, rxmsg, rxmsg.payload, rxmsg.signature
      modifies signing, streams, if streams != null then {streams.stream} else {}
      ensures Valid() && PolicyNow() == old(PolicyNow())
      ensures result in {FRAMING_INCOMPLETE, FRAMING_OK}
      ensures var p := old(pending);
        var framed := match Completes(p, c)
          case None => Interim(table, p, c)
          case Some(f) => Verdict(table, PolicyNow(), old(LedgerNow()), f).0;
        && result == (if framed == FRAMING_OK then FRAMING_OK else FRAMING_INCOMPLETE)
        && (framed !in {FRAMING_INCOMPLETE, FRAMING_OK} ==> p != [])
        && pending == (if framed in {FRAMING_INCOMPLETE, FRAMING_OK} then Pend(p, c) else Restart(p, c))
        && parseError == if framed in {FRAMING_INCOMPLETE, FRAMING_OK} then 0 else 1
      ensures LedgerNow() == match Completes(old(pending), c)
        case None => old(LedgerNow())
        case Some(f) => Verdict(table, PolicyNow(), old(LedgerNow()), f).1
      ensures delivered.Some? <==> Completes(old(pending), c).Some?
      ensures delivered.Some? ==> Delivers(table, delivered.value, Completes(old(pending), c).value)
      ensures currentRxSeq == if result == FRAMING_OK then SeqOf(Completes(old(pending), c).value) else old(currentRxSeq)
      ensures packetRxSuccessCount == if result == FRAMING_OK then (old(packetRxSuccessCount) + 1) % 0x1_0000 else old(packetRxSuccessCount)
      ensures packetRxDropCount == if result == FRAMING_OK && old(packetRxSuccessCount) == 0 then 0 else old(packetRxDropCount)
      ensures currentTxSeq == old(currentTxSeq) && outMavlink1 == old(outMavlink1)
    {
      hide Agrees, Pend, Completes, Delivers, Verdict, Interim, LedgerOf, IsFrame, IsPending, IsV1, SeqOf, View, Answer, Vouched, MsgidOf;
      AgreesFacts(table, pending, View());
      InterimNeverOk(table, pending, c);
      result, delivered := FrameChar(c);
      if result == FRAMING_BAD_CRC || result == FRAMING_BAD_SIGNATURE {
        parseError := (parseError + 1) % 0x100;
        msgReceived := FRAMING_INCOMPLETE;
        result := FRAMING_INCOMPLETE;
        Reopen(c);
      }
    }

    /** The tail of mavlink_parse_char: back to idle, or straight into the next frame. */
    method Reopen(c: byte)
      requires Wired() && rxmsg.magic in {STX, STX_MAVLINK1} && inMavlink1 == (rxmsg.magic == STX_MAVLINK1)
      modifies this`parseState, this`pending, rxmsg
      ensures Valid() && pending == if c == STX then [old(rxmsg.magic)] else []
    {
      hide Agrees, IsPending;
      parseState := IDLE;
      IdleAgrees(table, View());
      pending := [];
      if c == STX {
        parseState := GOT_STX;
        rxmsg.len := 0;
        rxmsg.checksum := INIT_CRC;
        StartStep(table, View());
        pending := [rxmsg.magic];
      }
    }
  }
}
