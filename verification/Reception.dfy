/** The receiver on values: what a pending prefix of a frame determines about the receive buffer, and
    how one more byte moves that on. The class in Channels keeps its fields in step with this. */
module Reception {
  import opened Bytes
  import opened ByteBits
  import opened Crc16
  import opened Framing
  import opened Messages
  import opened Signing

  datatype ParseState =
    | UNINIT | IDLE | GOT_STX | GOT_LENGTH | GOT_INCOMPAT_FLAGS | GOT_COMPAT_FLAGS | GOT_SEQ | GOT_SYSID
    | GOT_COMPID | GOT_MSGID1 | GOT_MSGID2 | GOT_MSGID3 | GOT_PAYLOAD | GOT_CRC1 | GOT_BAD_CRC1
    | SIGNATURE_WAIT | SIGNATURE_WAIT_BAD_CRC

  datatype FramingResult = FRAMING_INCOMPLETE | FRAMING_OK | FRAMING_BAD_CRC | FRAMING_BAD_SIGNATURE

  /** The copy of the receive buffer handed to the application when a frame is complete. */
  datatype Received = Received(
    checksum: bv16, magic: byte, len: byte, incompatFlags: byte, compatFlags: byte, seqno: byte,
    sysid: byte, compid: byte, msgid: nat, payload: seq<byte>, ck0: byte, ck1: byte, signature: seq<byte>)

  /* ---------- What the receiver answers for a whole frame ---------- */

  /** How a channel with signing judges frames: its key, and the application's override by message id. */
  datatype Policy = Policy(key: seq<byte>, overrides: nat -> bool)

  function Verdict(table: seq<MsgEntry>, policy: Option<Policy>, l: Ledger, f: Frame): (FramingResult, Ledger) {
    var secured := policy.Some?;
    var excused := secured && policy.value.overrides(MsgidOf(f));
    if !IsSigned(f) then
      (if !CrcGood(table, f) then FRAMING_BAD_CRC
       else if secured && !excused then FRAMING_BAD_SIGNATURE
       else FRAMING_OK, l)
    else if !secured then
      (if CrcGood(table, f) then FRAMING_OK else FRAMING_BAD_CRC, l)
    else
      var (l', status) := Verify(policy.value.key, l, f);
      (if !CrcGood(table, f) then FRAMING_BAD_CRC
       else if status == STATUS_OK || excused then FRAMING_OK
       else FRAMING_BAD_SIGNATURE, l')
  }

  /** Signed with this key, and its stream ready for its timestamp. */
  predicate Vouched(key: seq<byte>, l: Ledger, f: Frame) {
    IsSigned(f) && Genuine(key, f) && Ready(l, StreamOf(f).Key(), StreamOf(f).Timestamp())
  }

  /** What a frame is answered by its checksum and, with signing, by an excuse or a voucher. */
  function Answer(table: seq<MsgEntry>, f: Frame, secured: bool, excused: bool, vouched: bool): FramingResult {
    if !CrcGood(table, f) then FRAMING_BAD_CRC
    else if !secured || excused || vouched then FRAMING_OK
    else FRAMING_BAD_SIGNATURE
  }

  lemma VerdictIsAnswer(table: seq<MsgEntry>, policy: Option<Policy>, l: Ledger, f: Frame)
    ensures Verdict(table, policy, l, f).0
      == Answer(table, f, policy.Some?, policy.Some? && policy.value.overrides(MsgidOf(f)), policy.Some? && Vouched(policy.value.key, l, f))
  {
    hide CrcGood, Genuine, Ready;
    VerdictRules(table, policy, l, f);
  }

  /** The answers a whole frame can get: FRAMING_BAD_CRC if and only if its checksum is bad, in every mode;
      with a good one FRAMING_OK without signing, and with signing if the application excuses it or it is
      signed, genuine and its stream is ready; FRAMING_BAD_SIGNATURE otherwise. Only such a signed frame
      touches the ledger, whatever its checksum. */
  lemma VerdictRules(table: seq<MsgEntry>, policy: Option<Policy>, l: Ledger, f: Frame)
    ensures Verdict(table, policy, l, f).0 == FRAMING_BAD_CRC <==> !CrcGood(table, f)
    ensures CrcGood(table, f) && policy.None? ==> Verdict(table, policy, l, f).0 == FRAMING_OK
    ensures CrcGood(table, f) && policy.Some? ==>
      Verdict(table, policy, l, f).0
        == if policy.value.overrides(MsgidOf(f))
              || (IsSigned(f) && Genuine(policy.value.key, f) && Ready(l, StreamOf(f).Key(), StreamOf(f).Timestamp()))
           then FRAMING_OK else FRAMING_BAD_SIGNATURE
    ensures Verdict(table, policy, l, f).1
      == if policy.Some? && IsSigned(f) && Genuine(policy.value.key, f) && Ready(l, StreamOf(f).Key(), StreamOf(f).Timestamp())
         then Admit(l, StreamOf(f)).0 else l
  {
    hide CrcGood, Genuine, Admit, Ready;
    if IsSigned(f) && policy.Some? {
      VerifiedIff(policy.value.key, l, f);
    }
  }

  /** What a byte that completes no frame is answered with. A signed frame whose checksum is wrong is
      reported as bad once here, at its second checksum byte, and again after its signature. */
  function Interim(table: seq<MsgEntry>, p: Pending, c: byte): FramingResult {
    if |p| >= 2 && |p| == CrcAt(p) + 1 && IsSigned(p + [c]) && !CrcGood(table, p + [c]) then FRAMING_BAD_CRC
    else FRAMING_INCOMPLETE
  }

  lemma InterimNeverOk(table: seq<MsgEntry>, p: Pending, c: byte)
    ensures Interim(table, p, c) != FRAMING_OK
  {
    hide CrcGood;
  }

  /** How mavlink_parse_char goes on after a bad frame ended in `c`: a version 2 start byte reopens a
      frame, but of the version that was being received. */
  function Restart(p: Pending, c: byte): Pending
    requires p != []
  {
    if c == STX then [p[0]] else []
  }

  /** The restart treats its byte as an idle receiver would unless the byte is 0xFE, or is 0xFD and the
      bad frame was version 1. */
  lemma RestartAgrees(p: Pending, c: byte)
    requires p != []
    ensures Restart(p, c) == Pend([], c) <==> c != STX_MAVLINK1 && (c == STX ==> !IsV1(p))
  {}

  /** The checksum field as the two wire bytes spell it. */
  function JoinWire(ck0: byte, ck1: byte): bv16 {
    (Bits(ck0) as bv16) | ((Bits(ck1) as bv16) << 8)
  }

  lemma JoinWireIs(c: bv16)
    ensures JoinWire(Lo(c), Hi(c)) == c
  {
    hide Bits, Unbits;
    UnbitsRoundTrip((c & 0xFF) as bv8);
    UnbitsRoundTrip((c >> 8) as bv8);
    JoinHalves(c);
  }

  /** `d` carries exactly the content of `f`. */
  ghost predicate Delivers(table: seq<MsgEntry>, d: Received, f: Frame) {
    && d.magic == f[0] && d.len == f[1]
    && d.incompatFlags == (if IsV1(f) then 0 else f[2]) && d.compatFlags == (if IsV1(f) then 0 else f[3])
    && d.seqno == SeqOf(f) && d.sysid == SysidOf(f) && d.compid == CompidOf(f) && d.msgid == MsgidOf(f)
    && |d.payload| == PAYLOAD_BYTES && |ZeroExtended(table, f)| <= PAYLOAD_BYTES
    && d.payload[..|ZeroExtended(table, f)|] == ZeroExtended(table, f)
    && d.ck0 == f[CrcAt(f)] && d.ck1 == f[CrcAt(f) + 1]
    && (IsSigned(f) ==> d.signature == f[CrcAt(f) + 2..])
    && d.checksum == if CrcGood(table, f) then CrcOf(f, Lookup(table, MsgidOf(f)).value.crcExtra) else JoinWire(d.ck0, d.ck1)
  }

  /* ---------- What a pending prefix determines ---------- */

  /** The receive buffer and the parser's part of the status, as one value. */
  datatype Rx = Rx(
    magic: byte, len: byte, incompatFlags: byte, compatFlags: byte, seqno: byte, sysid: byte, compid: byte,
    msgid: nat, checksum: bv16, payload: seq<byte>, ck0: byte, ck1: byte, signature: seq<byte>,
    inMavlink1: bool, parseState: ParseState, packetIdx: nat, signatureWait: nat)

  function ParseStateFor(table: seq<MsgEntry>, p: Pending): ParseState {
    var n := |p|;
    if n == 0 then IDLE
    else if n == 1 then GOT_STX
    else if n == SeqAt(p) then GOT_COMPAT_FLAGS
    else if n == SeqAt(p) + 1 then GOT_SEQ
    else if n == SeqAt(p) + 2 then GOT_SYSID
    else if n == SeqAt(p) + 3 then GOT_COMPID
    else if n == 2 then GOT_LENGTH
    else if n == 3 then GOT_INCOMPAT_FLAGS
    else if n < HeaderLen(p) then (if n == 8 then GOT_MSGID1 else GOT_MSGID2)
    else if n < CrcAt(p) then GOT_MSGID3
    else if n == CrcAt(p) then GOT_PAYLOAD
    else if n == CrcAt(p) + 1 then (if FirstCrcByteGood(table, p) then GOT_CRC1 else GOT_BAD_CRC1)
    else if CrcGood(table, p) then SIGNATURE_WAIT
    else SIGNATURE_WAIT_BAD_CRC
  }

  /** The message id field after a prefix: bytes are or-ed in as they come. */
  function MsgidSoFar(p: Pending): nat
    requires |p| >= 1 && |p| > SeqAt(p) + 3
  {
    if IsV1(p) then p[5]
    else (p[7] as nat) + (if |p| > 8 then 0x100 * (p[8] as nat) else 0) + (if |p| > 9 then 0x1_0000 * (p[9] as nat) else 0)
  }

  /** The checksum field after a prefix; crc_extra goes in with the first checksum byte. */
  function ChecksumSoFar(table: seq<MsgEntry>, p: Pending): Option<bv16>
    requires |p| >= 1
  {
    if |p| < 2 || |p| <= CrcAt(p) then Some(Crc(INIT_CRC, p[1..]))
    else match Lookup(table, MsgidOf(p))
      case Some(e) => Some(CrcOf(p, e.crcExtra))
      case None => None
  }

  ghost predicate HeaderAgrees(table: seq<MsgEntry>, p: Pending, r: Rx) {
    && (|p| >= 1 ==> r.magic == p[0] && r.inMavlink1 == IsV1(p))
    && (|p| >= 2 ==> r.len == p[1])
    && (|p| >= 2 && IsV1(p) ==> r.incompatFlags == 0 && r.compatFlags == 0)
    && (|p| >= 3 && !IsV1(p) ==> r.incompatFlags == p[2])
    && (|p| >= 4 && !IsV1(p) ==> r.compatFlags == p[3])
    && (|p| >= 2 && |p| > SeqAt(p) ==> r.seqno == p[SeqAt(p)])
    && (|p| >= 2 && |p| > SeqAt(p) + 1 ==> r.sysid == p[SeqAt(p) + 1])
    && (|p| >= 2 && |p| > SeqAt(p) + 2 ==> r.compid == p[SeqAt(p) + 2])
    && (|p| >= 2 && |p| > SeqAt(p) + 3 ==> r.msgid == MsgidSoFar(p))
    && (|p| >= 1 && ChecksumSoFar(table, p).Some? ==> r.checksum == ChecksumSoFar(table, p).value)
  }

  /** The parse state is the prefix's, `packetIdx` counts payload bytes, `signatureWait` those missing. */
  ghost predicate ControlAgrees(table: seq<MsgEntry>, p: Pending, r: Rx) {
    && (r.parseState == ParseStateFor(table, p) || (p == [] && r.parseState == UNINIT))
    && (|p| >= 2 ==>
          r.packetIdx == if |p| <= HeaderLen(p) then 0 else if |p| <= CrcAt(p) then |p| - HeaderLen(p) else p[1])
    && (|p| >= 2 && |p| >= CrcAt(p) + 2 ==> r.signatureWait == SIGNATURE_BLOCK_LEN - (|p| - CrcAt(p) - 2))
  }

  ghost predicate DataAgrees(table: seq<MsgEntry>, p: Pending, r: Rx) {
    && |r.payload| == PAYLOAD_BYTES && |r.signature| == SIGNATURE_BLOCK_LEN
    && (|p| >= 2 && HeaderLen(p) <= |p| <= CrcAt(p) ==>
          r.payload[..|p| - HeaderLen(p)] == p[HeaderLen(p)..])
    && (|p| >= 2 && |p| > CrcAt(p) ==>
          && |ZeroExtended(table, p)| <= PAYLOAD_BYTES
          && r.payload[..|ZeroExtended(table, p)|] == ZeroExtended(table, p)
          && r.ck0 == p[CrcAt(p)])
    && (|p| >= 2 && |p| >= CrcAt(p) + 2 ==>
          && r.ck1 == p[CrcAt(p) + 1]
          && |p| - CrcAt(p) - 2 < SIGNATURE_BLOCK_LEN
          && r.signature[..|p| - CrcAt(p) - 2] == p[CrcAt(p) + 2..])
  }

  ghost predicate Agrees(table: seq<MsgEntry>, p: Pending, r: Rx) {
    HeaderAgrees(table, p, r) && ControlAgrees(table, p, r) && DataAgrees(table, p, r)
  }

  /* ---------- Bounds ---------- */

  /** In every state the next write lands inside its buffer, and the counters are where they should be. */
  lemma Bounds(table: seq<MsgEntry>, p: Pending, r: Rx)
    requires Agrees(table, p, r)
    ensures r.parseState == GOT_MSGID3 ==> r.packetIdx < r.len <= 255 < |r.payload|
    ensures r.parseState in {GOT_PAYLOAD, GOT_CRC1, GOT_BAD_CRC1, SIGNATURE_WAIT, SIGNATURE_WAIT_BAD_CRC} ==> r.packetIdx == r.len
    ensures r.parseState in {SIGNATURE_WAIT, SIGNATURE_WAIT_BAD_CRC} ==>
      1 <= r.signatureWait <= SIGNATURE_BLOCK_LEN && SIGNATURE_BLOCK_LEN - r.signatureWait < |r.signature|
  {
    hide Crc, Lookup, Lo, Hi;
  }

  /* ---------- One byte, case by case ---------- */

  lemma CrcEmpty()
    ensures Crc(INIT_CRC, []) == INIT_CRC
  {}

  lemma CrcExtend(p: seq<byte>, c: byte)
    requires p != []
    ensures Crc(INIT_CRC, (p + [c])[1..]) == Absorb(Crc(INIT_CRC, p[1..]), c)
  {
    hide Absorb;
    assert (p + [c])[1..] == p[1..] + [c];
    assert (p[1..] + [c])[..|p| - 1] == p[1..];
  }

  lemma CrcExtra(p: seq<byte>, crcExtra: byte)
    requires |p| >= 2 && |p| == CrcAt(p)
    ensures CrcOf(p, crcExtra) == Absorb(Crc(INIT_CRC, p[1..]), crcExtra)
  {
    hide Absorb;
    CrcExtend(p, crcExtra);
    assert (p + [crcExtra])[1..] == p[1..CrcAt(p)] + [crcExtra];
  }

  /** Bytes after the payload do not enter the checksum. */
  lemma SameCrcInput(table: seq<MsgEntry>, p: seq<byte>, c: byte)
    requires |p| >= 2 && |p| > CrcAt(p)
    ensures var q := p + [c];
      && CrcAt(q) == CrcAt(p) && MsgidOf(q) == MsgidOf(p) && PayloadOf(q) == PayloadOf(p)
      && ZeroExtended(table, q) == ZeroExtended(table, p)
      && (forall e :: CrcOf(q, e) == CrcOf(p, e))
  {
    hide Crc, Lookup;
    var q := p + [c];
    assert q[1..CrcAt(p)] == p[1..CrcAt(p)];
    assert q[HeaderLen(p)..CrcAt(p)] == p[HeaderLen(p)..CrcAt(p)];
  }

  /** With nothing pending, only the buffer sizes matter. */
  lemma IdleAgrees(table: seq<MsgEntry>, r: Rx)
    requires |r.payload| == PAYLOAD_BYTES && |r.signature| == SIGNATURE_BLOCK_LEN && r.parseState == IDLE
    ensures IsPending([]) && Agrees(table, [], r)
  {}

  lemma AgreesFacts(table: seq<MsgEntry>, p: Pending, r: Rx)
    requires Agrees(table, p, r)
    ensures |r.payload| == PAYLOAD_BYTES && |r.signature| == SIGNATURE_BLOCK_LEN
    ensures r.parseState in {UNINIT, IDLE} <==> p == []
    ensures p != [] ==> p[0] in {STX, STX_MAVLINK1} && r.magic == p[0] && r.inMavlink1 == IsV1(p) == (p[0] == STX_MAVLINK1)
  {
    hide Crc, Lookup, Lo, Hi;
  }

  /** A start byte, from idle or from mavlink_parse_char's restart. */
  lemma StartStep(table: seq<MsgEntry>, r: Rx)
    requires |r.payload| == PAYLOAD_BYTES && |r.signature| == SIGNATURE_BLOCK_LEN
    requires r.magic in {STX, STX_MAVLINK1} && r.inMavlink1 == (r.magic == STX_MAVLINK1)
    requires r.checksum == INIT_CRC && r.parseState == GOT_STX
    ensures IsPending([r.magic]) && Agrees(table, [r.magic], r)
  {
    hide Crc;
    assert [r.magic][1..] == [];
    CrcEmpty();
  }

  lemma LengthStep(table: seq<MsgEntry>, p: Pending, c: byte, r: Rx)
    requires Agrees(table, p, r) && r.parseState == GOT_STX
    ensures IsPending(p + [c]) && Pend(p, c) == p + [c]
    ensures var r' := r.(len := c, packetIdx := 0, checksum := Absorb(r.checksum, c));
      Agrees(table, p + [c],
        if r.inMavlink1 then r'.(incompatFlags := 0, compatFlags := 0, parseState := GOT_COMPAT_FLAGS)
        else r'.(parseState := GOT_LENGTH))
  {
    hide Crc, Absorb, Lookup;
    CrcExtend(p, c);
  }

  lemma IncompatStep(table: seq<MsgEntry>, p: Pending, c: byte, r: Rx)
    requires Agrees(table, p, r) && r.parseState == GOT_LENGTH
    ensures c > 1 ==> Pend(p, c) == []
    ensures c <= 1 ==>
      && IsPending(p + [c]) && Pend(p, c) == p + [c]
      && Agrees(table, p + [c], r.(incompatFlags := c, checksum := Absorb(r.checksum, c), parseState := GOT_INCOMPAT_FLAGS))
  {
    hide Crc, Absorb, Lookup;
    CrcExtend(p, c);
  }

  /** The receive buffer after one flag or address byte. */
  function WithAddress(r: Rx, c: byte): Rx {
    var r' := r.(checksum := Absorb(r.checksum, c));
    match r.parseState
    case GOT_INCOMPAT_FLAGS => r'.(compatFlags := c, parseState := GOT_COMPAT_FLAGS)
    case GOT_COMPAT_FLAGS => r'.(seqno := c, parseState := GOT_SEQ)
    case GOT_SEQ => r'.(sysid := c, parseState := GOT_SYSID)
    case _ => r'.(compid := c, parseState := GOT_COMPID)
  }

  lemma AddressStep(table: seq<MsgEntry>, p: Pending, c: byte, r: Rx)
    requires Agrees(table, p, r) && r.parseState in {GOT_INCOMPAT_FLAGS, GOT_COMPAT_FLAGS, GOT_SEQ, GOT_SYSID}
    ensures IsPending(p + [c]) && Pend(p, c) == p + [c] && Agrees(table, p + [c], WithAddress(r, c))
  {
    hide Crc, Absorb, Lookup;
    CrcExtend(p, c);
    assert 2 <= |p| && |p| + 1 < HeaderLen(p);
  }

  /** The receive buffer after one message id byte. */
  function WithMsgid(r: Rx, c: byte): Rx {
    var r' := r.(checksum := Absorb(r.checksum, c));
    var full := if r.len > 0 then GOT_MSGID3 else GOT_PAYLOAD;
    match r.parseState
    case GOT_COMPID => r'.(msgid := c, parseState := if r.inMavlink1 then full else GOT_MSGID1)
    case GOT_MSGID1 => r'.(msgid := r.msgid + 0x100 * (c as nat), parseState := GOT_MSGID2)
    case _ => r'.(msgid := r.msgid + 0x1_0000 * (c as nat), parseState := full)
  }

  lemma MsgidStep(table: seq<MsgEntry>, p: Pending, c: byte, r: Rx)
    requires Agrees(table, p, r) && r.parseState in {GOT_COMPID, GOT_MSGID1, GOT_MSGID2}
    ensures IsPending(p + [c]) && Pend(p, c) == p + [c]
    ensures WithMsgid(r, c).msgid < 0x100_0000 && Agrees(table, p + [c], WithMsgid(r, c))
  {
    hide Crc, Absorb, Lookup;
    CrcExtend(p, c);
    assert 5 <= |p| < HeaderLen(p);
  }

  lemma PayloadStep(table: seq<MsgEntry>, p: Pending, c: byte, r: Rx)
    requires Agrees(table, p, r) && r.parseState == GOT_MSGID3
    ensures IsPending(p + [c]) && Pend(p, c) == p + [c] && r.packetIdx < r.len && |r.payload| == PAYLOAD_BYTES
    ensures Agrees(table, p + [c], r.(
      payload := r.payload[r.packetIdx := c], packetIdx := r.packetIdx + 1, checksum := Absorb(r.checksum, c),
      parseState := if r.packetIdx + 1 == r.len then GOT_PAYLOAD else GOT_MSGID3))
  {
    hide Crc, Absorb, Lookup;
    CrcExtend(p, c);
    assert r.payload[r.packetIdx := c][..r.packetIdx + 1] == r.payload[..r.packetIdx] + [c];
    assert p[HeaderLen(p)..] + [c] == (p + [c])[HeaderLen(p)..];
  }

  /** What the zero-fill must leave in the payload buffer. */
  predicate Filled(payload: seq<byte>, len: nat, to: nat, payload': seq<byte>) {
    && |payload'| == |payload| && len <= |payload| && to <= |payload|
    && if len < to then payload'[..to] == payload[..len] + Zeros(to - len) else payload'[..len] == payload[..len]
  }

  lemma UnknownMessageStep(table: seq<MsgEntry>, p: Pending, c: byte, r: Rx)
    requires Agrees(table, p, r) && r.parseState == GOT_PAYLOAD && Lookup(table, r.msgid) == None
    ensures IsPending(p + [c]) && Pend(p, c) == p + [c]
    ensures Agrees(table, p + [c], r.(parseState := GOT_BAD_CRC1, ck0 := c))
  {
    hide Crc, Absorb, Lookup;
    var q := p + [c];
    assert MsgidOf(q) == MsgidOf(p) == r.msgid;
    assert q[HeaderLen(p)..CrcAt(p)] == p[HeaderLen(p)..];
  }

  lemma FilledExtends(table: seq<MsgEntry>, p: Pending, c: byte, r: Rx, e: MsgEntry, payload': seq<byte>)
    requires Agrees(table, p, r) && r.parseState == GOT_PAYLOAD && Lookup(table, r.msgid) == Some(e)
    requires Filled(r.payload, r.len, e.maxMsgLen, payload')
    ensures var q := p + [c];
      && |payload'| == |r.payload| && |q| >= 2 && |q| > CrcAt(q) && MsgidOf(q) == MsgidOf(p) == r.msgid
      && |ZeroExtended(table, q)| <= |payload'| && payload'[..|ZeroExtended(table, q)|] == ZeroExtended(table, q)
  {
    hide Crc, Absorb, Lookup, Lo, Hi, CrcOf, CrcGood, FirstCrcByteGood;
    var q := p + [c];
    assert MsgidOf(q) == MsgidOf(p) == r.msgid && CrcAt(q) == CrcAt(p) == |p|;
    assert PayloadOf(q) == p[HeaderLen(p)..] == r.payload[..r.len] by {
      assert q[HeaderLen(p)..CrcAt(p)] == p[HeaderLen(p)..];
    }
    hide MsgidOf, PayloadOf, Agrees;
  }

  lemma SameCrcInputFirst(p: seq<byte>, c: byte, crcExtra: byte)
    requires |p| >= 2 && |p| == CrcAt(p)
    ensures CrcOf(p + [c], crcExtra) == CrcOf(p, crcExtra)
  {
    hide Crc;
    assert (p + [c])[1..CrcAt(p)] == p[1..] == p[1..CrcAt(p)];
  }

  lemma FirstCrcStep(table: seq<MsgEntry>, p: Pending, c: byte, r: Rx, e: MsgEntry, payload': seq<byte>)
    requires Agrees(table, p, r) && r.parseState == GOT_PAYLOAD && Lookup(table, r.msgid) == Some(e)
    requires Filled(r.payload, r.len, e.maxMsgLen, payload')
    ensures IsPending(p + [c]) && Pend(p, c) == p + [c] && r.packetIdx == r.len
    ensures var checksum := Absorb(r.checksum, e.crcExtra);
      Agrees(table, p + [c], r.(checksum := checksum, ck0 := c, payload := payload',
        parseState := if c != Lo(checksum) then GOT_BAD_CRC1 else GOT_CRC1))
  {
    hide Crc, Absorb, Lookup, Lo, Hi, ZeroExtended, CrcOf, Filled;
    FilledExtends(table, p, c, r, e, payload');
    CrcExtra(p, e.crcExtra);
    SameCrcInputFirst(p, c, e.crcExtra);
  }

  /** The receive buffer as the application gets it. */
  function Copied(r: Rx, badCrc: bool): Received {
    Received(if badCrc then JoinWire(r.ck0, r.ck1) else r.checksum, r.magic, r.len, r.incompatFlags, r.compatFlags,
             r.seqno, r.sysid, r.compid, r.msgid, r.payload, r.ck0, r.ck1, r.signature)
  }

  /** The second checksum byte: the verdict on the checksum, and whether a signature follows. */
  lemma SecondCrcStep(table: seq<MsgEntry>, p: Pending, c: byte, r: Rx)
    requires Agrees(table, p, r) && r.parseState in {GOT_CRC1, GOT_BAD_CRC1}
    ensures |p| >= 3 && |p| == CrcAt(p) + 1
    ensures var q := p + [c];
      && CrcGood(table, q) == (r.parseState == GOT_CRC1 && c == Hi(r.checksum))
      && IsSigned(q) == (r.incompatFlags % 2 == 1)
      && (IsSigned(q) ==> IsPending(q) && Pend(p, c) == q && Completes(p, c) == None)
      && (!IsSigned(q) ==> IsFrame(q) && Pend(p, c) == [] && Completes(p, c) == Some(q))
  {
    hide Crc, Absorb, Lo, Hi, Lookup;
    SameCrcInput(table, p, c);
  }

  lemma SignatureBegins(table: seq<MsgEntry>, p: Pending, c: byte, r: Rx)
    requires Agrees(table, p, r) && r.parseState in {GOT_CRC1, GOT_BAD_CRC1} && IsPending(p + [c])
    requires |p| >= 2 && |p| == CrcAt(p) + 1
    ensures Agrees(table, p + [c], r.(ck1 := c, signatureWait := SIGNATURE_BLOCK_LEN,
              parseState := if CrcGood(table, p + [c]) then SIGNATURE_WAIT else SIGNATURE_WAIT_BAD_CRC))
  {
    hide Crc, Absorb, Lo, Hi, Lookup, FirstCrcByteGood, CrcGood, ZeroExtended, CrcOf, MsgidOf;
    SameCrcInput(table, p, c);
    assert (p + [c])[CrcAt(p) + 2..] == [];
  }

  lemma UnsignedDelivered(table: seq<MsgEntry>, p: Pending, c: byte, r: Rx)
    requires Agrees(table, p, r) && r.parseState in {GOT_CRC1, GOT_BAD_CRC1}
    requires IsFrame(p + [c]) && !IsSigned(p + [c])
    ensures r.msgid == MsgidOf(p + [c]) && r.seqno == SeqOf(p + [c])
    ensures Delivers(table, Copied(r.(ck1 := c), !CrcGood(table, p + [c])), p + [c])
  {
    hide Crc, Absorb, Lo, Hi, Lookup, JoinWire;
    SameCrcInput(table, p, c);
  }

  /** A signature byte; after the thirteenth the frame is complete. */
  lemma SignatureStep(table: seq<MsgEntry>, p: Pending, c: byte, r: Rx)
    requires Agrees(table, p, r) && r.parseState in {SIGNATURE_WAIT, SIGNATURE_WAIT_BAD_CRC}
    ensures |p| >= 3 && CrcAt(p) + 2 <= |p| && 1 <= r.signatureWait <= SIGNATURE_BLOCK_LEN == |r.signature|
    ensures var q := p + [c];
      if r.signatureWait == 1
      then IsFrame(q) && IsSigned(q) && Pend(p, c) == [] && Completes(p, c) == Some(q)
      else IsPending(q) && Pend(p, c) == q && Completes(p, c) == None && Interim(table, p, c) == FRAMING_INCOMPLETE
  {
    hide Crc, Absorb, Lo, Hi, Lookup, FirstCrcByteGood, CrcGood, ZeroExtended, CrcOf, MsgidOf;
  }

  lemma SignatureContinues(table: seq<MsgEntry>, p: Pending, c: byte, r: Rx)
    requires Agrees(table, p, r) && r.parseState in {SIGNATURE_WAIT, SIGNATURE_WAIT_BAD_CRC}
    requires 1 < r.signatureWait <= SIGNATURE_BLOCK_LEN == |r.signature| && IsPending(p + [c])
    ensures Agrees(table, p + [c],
      r.(signature := r.signature[SIGNATURE_BLOCK_LEN - r.signatureWait := c], signatureWait := r.signatureWait - 1))
  {
    hide Crc, Absorb, Lo, Hi, Lookup, ZeroExtended, CrcOf, MsgidOf;
    SameCrcInput(table, p, c);
    var i := SIGNATURE_BLOCK_LEN - r.signatureWait;
    assert i == |p| - CrcAt(p) - 2;
    assert r.signature[i := c][..i + 1] == r.signature[..i] + [c];
    assert (p + [c])[CrcAt(p) + 2..] == p[CrcAt(p) + 2..] + [c];
  }

  lemma LastOfBlock(block: seq<byte>, p: seq<byte>, c: byte, at: nat)
    requires |block| == SIGNATURE_BLOCK_LEN && |p| == at + 12 && block[..12] == p[at..]
    ensures block[12 := c] == (p + [c])[at..]
  {
    assert block[12 := c] == block[..12] + [c] == p[at..] + [c];
  }

  lemma SignedDelivered(table: seq<MsgEntry>, p: Pending, c: byte, r: Rx)
    requires Agrees(table, p, r) && r.parseState in {SIGNATURE_WAIT, SIGNATURE_WAIT_BAD_CRC} && r.signatureWait == 1
    requires IsFrame(p + [c])
    ensures |r.signature| == SIGNATURE_BLOCK_LEN && r.msgid == MsgidOf(p + [c]) && r.seqno == SeqOf(p + [c])
    ensures CrcGood(table, p + [c]) == (r.parseState == SIGNATURE_WAIT)
    ensures Delivers(table, Copied(r.(signature := r.signature[12 := c], signatureWait := 0), !CrcGood(table, p + [c])), p + [c])
  {
    hide Crc, Absorb, Lo, Hi, Lookup, JoinWire, ZeroExtended, CrcOf, PayloadOf;
    SameCrcInput(table, p, c);
    LastOfBlock(r.signature, p, c, CrcAt(p) + 2);
  }

  /** The message struct as bytes, as the signature check reads it. */
  function StructBytes(r: Rx): seq<byte>
    requires r.len <= |r.payload|
  {
    HeaderV2(r.magic, r.len, r.incompatFlags, r.compatFlags, r.seqno, r.sysid, r.compid, r.msgid)
    + r.payload[..r.len] + [r.ck0, r.ck1] + r.signature
  }

  /** Read back, the struct is the signed frame that filled it. */
  lemma BytesReceived(table: seq<MsgEntry>, p: Pending, c: byte, r: Rx)
    requires Agrees(table, p, r) && r.parseState in {SIGNATURE_WAIT, SIGNATURE_WAIT_BAD_CRC} && r.signatureWait == 1
    requires IsFrame(p + [c])
    ensures |r.signature| == SIGNATURE_BLOCK_LEN && r.len <= |r.payload|
    ensures StructBytes(r.(signature := r.signature[12 := c], signatureWait := 0)) == p + [c]
  {
    hide Crc, Absorb, Lo, Hi, Lookup, MsgidBytes, CrcOf, CrcGood, FirstCrcByteGood, ZeroExtended, ChecksumSoFar;
    var q := p + [c];
    MsgidBytesUnique(r.msgid, p[7], p[8], p[9]);
    assert q[..10] == HeaderV2(r.magic, r.len, r.incompatFlags, r.compatFlags, r.seqno, r.sysid, r.compid, r.msgid);
    PayloadHeld(table, p, r.payload);
    assert q[10..CrcAt(p)] == PayloadOf(p) == r.payload[..r.len];
    assert q[CrcAt(p)..CrcAt(p) + 2] == [r.ck0, r.ck1];
    LastOfBlock(r.signature, p, c, CrcAt(p) + 2);
    FourPieces(q, 10, CrcAt(p), CrcAt(p) + 2);
  }

  /** Both together, for the buffer as the last signature byte leaves it. */
  lemma SignedWhole(table: seq<MsgEntry>, p: Pending, c: byte, before: Rx, r: Rx)
    requires Agrees(table, p, before) && before.parseState in {SIGNATURE_WAIT, SIGNATURE_WAIT_BAD_CRC} && before.signatureWait == 1
    requires IsFrame(p + [c]) && |before.signature| == SIGNATURE_BLOCK_LEN
    requires r == before.(signature := before.signature[12 := c], signatureWait := 0)
    ensures r.len <= |r.payload| && StructBytes(r) == p + [c] && r.msgid == MsgidOf(p + [c]) && r.seqno == SeqOf(p + [c])
    ensures r.parseState == if CrcGood(table, p + [c]) then SIGNATURE_WAIT else SIGNATURE_WAIT_BAD_CRC
    ensures Delivers(table, Copied(r, r.parseState == SIGNATURE_WAIT_BAD_CRC), p + [c])
  {
    hide Agrees, Delivers, CrcGood, IsFrame, MsgidOf, SeqOf, StructBytes, Copied;
    SignedDelivered(table, p, c, before);
    BytesReceived(table, p, c, before);
  }

  lemma PayloadHeld(table: seq<MsgEntry>, p: seq<byte>, payload: seq<byte>)
    requires |p| >= 2 && |p| >= CrcAt(p) && |ZeroExtended(table, p)| <= |payload|
    requires payload[..|ZeroExtended(table, p)|] == ZeroExtended(table, p)
    ensures p[1] <= |payload| && payload[..p[1]] == PayloadOf(p)
  {
    hide Lookup, MsgidOf;
    assert |PayloadOf(p)| == p[1];
    assert ZeroExtended(table, p)[..p[1]] == PayloadOf(p);
    assert payload[..|ZeroExtended(table, p)|][..p[1]] == payload[..p[1]];
  }

  lemma FourPieces(q: seq<byte>, i: nat, j: nat, k: nat)
    requires i <= j <= k <= |q|
    ensures q[..i] + q[i..j] + q[j..k] + q[k..] == q
  {}

  lemma MsgidBytesUnique(n: nat, b0: byte, b1: byte, b2: byte)
    requires n == (b0 as nat) + 0x100 * (b1 as nat) + 0x1_0000 * (b2 as nat)
    ensures MsgidBytes(n) == [b0, b1, b2]
  {
    assert n / 0x100 == (b1 as nat) + 0x100 * (b2 as nat);
    assert n / 0x1_0000 == b2;
  }

  /** Before the second checksum byte no frame can end. */
  lemma EarlyBytes(table: seq<MsgEntry>, p: Pending, c: byte, r: Rx)
    requires Agrees(table, p, r)
    requires r.parseState !in {GOT_CRC1, GOT_BAD_CRC1, SIGNATURE_WAIT, SIGNATURE_WAIT_BAD_CRC}
    ensures Completes(p, c) == None && Interim(table, p, c) == FRAMING_INCOMPLETE
  {
    hide Crc, Lookup, Lo, Hi;
  }
}
