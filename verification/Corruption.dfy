/** Which corruptions of an unsigned MAVLink 2 frame the checksum catches, and one kind it does not. */
module Corruption {
  import opened Bytes
  import opened ByteBits
  import opened Crc16
  import opened Framing
  import opened Packets
  import opened Reception
  import opened Signing
  import opened Transmission

  /** An unsigned version 2 frame with a good checksum. */
  predicate Plain(table: seq<MsgEntry>, f: Frame) {
    !IsV1(f) && !IsSigned(f) && CrcGood(table, f)
  }

  /** Bytes `at` to `at + n` lie together in compat_flags..compid, in the payload, or in the checksum. */
  predicate WithinRegion(f: Frame, at: nat, n: nat) {
    || 3 <= at <= at + n <= 7
    || 10 <= at <= at + n <= CrcAt(f)
    || CrcAt(f) <= at <= at + n <= |f|
  }

  /** `g` is `f` with the bytes from `at` to `at + n` overwritten. */
  predicate Overwrites(f: seq<byte>, g: seq<byte>, at: nat, n: nat) {
    at + n <= |f| == |g| && g[..at] == f[..at] && g[at + n..] == f[at + n..] && g != f
  }

  lemma OverwritePieces(f: seq<byte>, g: seq<byte>, at: nat, n: nat, i: nat, j: nat)
    requires Overwrites(f, g, at, n) && i <= at && at + n <= j <= |f|
    ensures f[at..at + n] != g[at..at + n]
    ensures f[i..j] == f[i..at] + f[at..at + n] + f[at + n..j]
    ensures g[i..j] == f[i..at] + g[at..at + n] + f[at + n..j]
  {
    assert f == f[..at] + f[at..at + n] + f[at + n..];
    assert g == g[..at] + g[at..at + n] + g[at + n..];
    assert g[i..at] == g[..at][i..] == f[i..at];
    assert g[at + n..j] == g[at + n..][..j - at - n] == f[at + n..j];
  }

  /** The frame's shape survives, and so do the message id and, outside the checksum, its two bytes. */
  lemma ShapeSurvives(f: Frame, g: seq<byte>, at: nat, n: nat)
    requires !IsV1(f) && Overwrites(f, g, at, n) && WithinRegion(f, at, n)
    ensures IsFrame(g) && !IsV1(g) && CrcAt(g) == CrcAt(f) && IsSigned(g) == IsSigned(f) && MsgidOf(g) == MsgidOf(f)
    ensures at + n <= CrcAt(f) ==> g[CrcAt(f)..] == f[CrcAt(f)..]
    ensures CrcAt(f) <= at ==> g[..CrcAt(f)] == f[..CrcAt(f)]
  {
    forall k | 0 <= k < |f| && (k < at || at + n <= k) ensures g[k] == f[k] {
      if k < at {
        assert g[..at][k] == f[..at][k];
      } else {
        assert g[at + n..][k - at - n] == f[at + n..][k - at - n];
      }
    }
  }

  lemma ChecksumChanges(f: Frame, g: Frame, at: nat, n: nat, crcExtra: byte)
    requires !IsV1(f) && 1 <= n <= 2 && Overwrites(f, g, at, n) && 1 <= at && at + n <= CrcAt(f) == CrcAt(g)
    ensures CrcOf(f, crcExtra) != CrcOf(g, crcExtra)
  {
    hide Crc;
    OverwritePieces(f, g, at, n, 1, CrcAt(f));
    var after := f[at + n..CrcAt(f)] + [crcExtra];
    assert f[1..CrcAt(f)] + [crcExtra] == f[1..at] + f[at..at + n] + after;
    assert g[1..CrcAt(f)] + [crcExtra] == f[1..at] + g[at..at + n] + after;
    BurstDetected(INIT_CRC, f[1..at], f[at..at + n], g[at..at + n], after);
  }

  /** One wrong byte, or two adjacent ones in the same region, always leave a frame with a bad checksum. */
  lemma BurstCaught(table: seq<MsgEntry>, f: Frame, g: seq<byte>, at: nat, n: nat)
    requires Plain(table, f) && 1 <= n <= 2 && Overwrites(f, g, at, n) && WithinRegion(f, at, n)
    ensures IsFrame(g) && !IsSigned(g) && !CrcGood(table, g)
  {
    hide Crc, Lookup, Lo, Hi, CrcOf;
    ShapeSurvives(f, g, at, n);
    var e := Lookup(table, MsgidOf(f)).value;
    if at + n <= CrcAt(f) {
      ChecksumChanges(f, g, at, n, e.crcExtra);
      assert g[CrcAt(f)] == f[CrcAt(f)..][0] && g[CrcAt(f) + 1] == f[CrcAt(f)..][1];
      if CrcGood(table, g) {
        HalvesDetermine(CrcOf(f, e.crcExtra), CrcOf(g, e.crcExtra));
      }
    } else {
      SameChecksum(f, g, e.crcExtra);
      SameEnds(f, g);
    }
  }

  lemma SameChecksum(f: Frame, g: Frame, crcExtra: byte)
    requires CrcAt(f) == CrcAt(g) && g[..CrcAt(f)] == f[..CrcAt(f)]
    ensures CrcOf(f, crcExtra) == CrcOf(g, crcExtra)
  {
    hide Crc;
    assert f[1..CrcAt(f)] == f[..CrcAt(f)][1..];
    assert g[1..CrcAt(f)] == g[..CrcAt(f)][1..];
  }

  lemma SameEnds(f: Frame, g: Frame)
    requires CrcAt(f) == CrcAt(g) && |f| == |g| == CrcAt(f) + 2 && g[..CrcAt(f)] == f[..CrcAt(f)]
    ensures f[CrcAt(f)] == g[CrcAt(f)] && f[CrcAt(f) + 1] == g[CrcAt(f) + 1] ==> f == g
  {
    forall k | 0 <= k < CrcAt(f) ensures f[k] == g[k] {
      assert f[..CrcAt(f)][k] == g[..CrcAt(f)][k];
    }
  }

  /** A channel fed such a frame answers FRAMING_BAD_CRC on its last byte and never FRAMING_OK. */
  lemma CorruptionDetected(table: seq<MsgEntry>, policy: Option<Policy>, l: Ledger, f: Frame, g: seq<byte>, at: nat, n: nat)
    requires Plain(table, f) && 1 <= n <= 2 && Overwrites(f, g, at, n) && WithinRegion(f, at, n)
    ensures |g| == |f| && Results(table, policy, [], l, g) == Silence(|g| - 1) + [FRAMING_BAD_CRC]
  {
    hide CrcGood, Results, Overwrites, WithinRegion;
    assert |g| == |f| by { OverwriteLength(f, g, at, n); }
    BurstCaught(table, f, g, at, n);
    FrameAnswered(table, policy, l, g);
  }

  lemma OverwriteLength(f: seq<byte>, g: seq<byte>, at: nat, n: nat)
    requires Overwrites(f, g, at, n)
    ensures |f| == |g|
  {}

  /** Turning on the signature flag is caught too: reported at the second checksum byte, where the frame
      used to end, and the channel goes on to wait for a signature. */
  lemma SignedFlagCaught(table: seq<MsgEntry>, policy: Option<Policy>, l: Ledger, f: Frame)
    requires Plain(table, f)
    ensures var g := f[2 := 1];
      Results(table, policy, [], l, g) == Silence(|g| - 1) + [FRAMING_BAD_CRC] && Feed([], g) == g
  {
    hide Crc, Lookup, Lo, Hi, CrcOf, Verdict;
    var g := f[2 := 1];
    var k := |g| - 1;
    SignedFlagBreaksCrc(table, f);
    var whole: Frame := g + SIGNATURE_ZEROS;
    assert whole[..k] == g[..k] && whole[..k + 1] == g;
    PartlySilent(table, policy, l, whole, k);
    FrameAccumulates(whole, k);
    FrameAccumulates(whole, k + 1);
    PrefixIsPending(whole, k);
    CutShort(table, policy, l, g, k);
  }

  /** The second checksum byte of a signed frame with a bad checksum, reported where an unsigned one ends. */
  lemma CutShort(table: seq<MsgEntry>, policy: Option<Policy>, l: Ledger, g: seq<byte>, k: nat)
    requires |g| == k + 1 && k >= 3 && k == CrcAt(g) + 1 && IsSigned(g) && !CrcGood(table, g)
    requires Feed([], g[..k]) == g[..k] && Results(table, policy, [], l, g[..k]) == Silence(k)
    ensures Results(table, policy, [], l, g) == Silence(k) + [FRAMING_BAD_CRC]
  {
    hide CrcGood, Verdict, Feed;
    assert g[..k] + [g[k]] == g;
  }

  const SIGNATURE_ZEROS: seq<byte> := [0, 0, 0, 0, 0, 0, 0, 0, 0, 0, 0, 0, 0]

  lemma SignedFlagBreaksCrc(table: seq<MsgEntry>, f: Frame)
    requires Plain(table, f)
    ensures var g := f[2 := 1];
      && IsSigned(g) && CrcAt(g) == CrcAt(f) && |g| == CrcAt(g) + 2 && !CrcGood(table, g) && IsFrame(g + SIGNATURE_ZEROS)
  {
    hide Crc, Lookup, Lo, Hi;
    var g := f[2 := 1];
    var e := Lookup(table, MsgidOf(f)).value;
    assert f[1..CrcAt(f)] + [e.crcExtra] == [f[1]] + [f[2]] + (f[3..CrcAt(f)] + [e.crcExtra]);
    assert g[1..CrcAt(f)] + [e.crcExtra] == [f[1]] + [1] + (f[3..CrcAt(f)] + [e.crcExtra]);
    BurstDetected(INIT_CRC, [f[1]], [f[2]], [1], f[3..CrcAt(f)] + [e.crcExtra]);
    if CrcGood(table, g) {
      HalvesDetermine(CrcOf(f, e.crcExtra), CrcOf(g, e.crcExtra));
    }
  }

  /* ---------- The message id is not protected the same way ---------- */

  /** What a difference in the register becomes after n more bytes. */
  function Propagate(d: bv16, n: nat): bv16 {
    if n == 0 then d else Shift8(Propagate(d, n - 1))
  }

  function Xor(c: bv16, d: bv16): bv16 { c ^ d }

  function Mix(c: bv16, t: bv16): bv16 {
    Xor(Xor(c >> 8, t << 8), Xor(t << 3, t >> 4))
  }

  lemma Mixed(c: bv16, t: bv16, shifted: bv16)
    requires shifted == (c >> 8) ^ (t << 8) ^ (t << 3) ^ (t >> 4)
    ensures shifted == Mix(c, t)
  {}

  lemma Shift8Mixes(c: bv16)
    ensures Shift8(c) == Mix(c, Smear(c))
  {
    hide *;
    Shift8Closed(c);
    Mixed(c, Smear(c), Shift8(c));
  }

  lemma SmearLinear(x: bv16, y: bv16)
    ensures Smear(Xor(x, y)) == Xor(Smear(x), Smear(y))
  {}

  lemma XorIs(a: bv16, b: bv16)
    ensures Xor(a, b) == a ^ b
  {}

  lemma Right8Linear(x: bv16, y: bv16)
    ensures Xor(x, y) >> 8 == Xor(x >> 8, y >> 8)
  {}

  lemma Right4Linear(x: bv16, y: bv16)
    ensures Xor(x, y) >> 4 == Xor(x >> 4, y >> 4)
  {}

  lemma Left8Linear(x: bv16, y: bv16)
    ensures Xor(x, y) << 8 == Xor(x << 8, y << 8)
  {}

  lemma Left3Linear(x: bv16, y: bv16)
    ensures Xor(x, y) << 3 == Xor(x << 3, y << 3)
  {}

  lemma SwapBits(a: bv16, b: bv16, c: bv16, d: bv16, ab: bv16, cd: bv16, ac: bv16, bd: bv16)
    requires ab == a ^ b && cd == c ^ d && ac == a ^ c && bd == b ^ d
    ensures ab ^ cd == ac ^ bd
  {}

  lemma XorSwap(a: bv16, b: bv16, c: bv16, d: bv16)
    ensures Xor(Xor(a, b), Xor(c, d)) == Xor(Xor(a, c), Xor(b, d))
  {
    hide *;
    XorIs(a, b);
    XorIs(c, d);
    XorIs(a, c);
    XorIs(b, d);
    XorIs(Xor(a, b), Xor(c, d));
    XorIs(Xor(a, c), Xor(b, d));
    SwapBits(a, b, c, d, Xor(a, b), Xor(c, d), Xor(a, c), Xor(b, d));
  }

  lemma MixLinear(x: bv16, y: bv16, t: bv16, u: bv16)
    ensures Mix(Xor(x, y), Xor(t, u)) == Xor(Mix(x, t), Mix(y, u))
  {
    hide Xor;
    Right8Linear(x, y);
    Left8Linear(t, u);
    Left3Linear(t, u);
    Right4Linear(t, u);
    XorSwap(x >> 8, y >> 8, t << 8, u << 8);
    XorSwap(t << 3, u << 3, t >> 4, u >> 4);
    XorSwap(Xor(x >> 8, t << 8), Xor(y >> 8, u << 8), Xor(t << 3, t >> 4), Xor(u << 3, u >> 4));
  }

  /** Eight shifts respect exclusive or. */
  lemma Shift8Linear(x: bv16, y: bv16)
    ensures Shift8(Xor(x, y)) == Xor(Shift8(x), Shift8(y))
  {
    hide *;
    Shift8Mixes(x);
    Shift8Mixes(y);
    Shift8Mixes(Xor(x, y));
    SmearLinear(x, y);
    MixLinear(x, y, Smear(x), Smear(y));
  }

  lemma AbsorbXor(c: bv16, b: byte)
    ensures Absorb(c, b) == Shift8(Xor(c, Bits(b) as bv16))
  {
    hide Shift8, Bits;
  }

  lemma XorShuffle(c: bv16, d: bv16, b: bv16)
    ensures Xor(Xor(c, d), b) == Xor(Xor(c, b), d)
  {}

  lemma AbsorbLinear(c: bv16, d: bv16, b: byte)
    ensures Absorb(Xor(c, d), b) == Xor(Absorb(c, b), Shift8(d))
  {
    hide *;
    AbsorbXor(Xor(c, d), b);
    AbsorbXor(c, b);
    XorShuffle(c, d, Bits(b) as bv16);
    Shift8Linear(Xor(c, Bits(b) as bv16), d);
  }

  /** Two registers that differ by d differ by Propagate(d, n) after the same n bytes. */
  lemma {:induction false} CrcLinear(c: bv16, d: bv16, s: seq<byte>)
    ensures Crc(Xor(c, d), s) == Xor(Crc(c, s), Propagate(d, |s|))
  {
    hide Xor, Absorb, Shift8;
    if s != [] {
      var n := |s| - 1;
      CrcLinear(c, d, s[..n]);
      AbsorbLinear(Crc(c, s[..n]), Propagate(d, n), s[n]);
    }
  }

  lemma {:induction false} PropagateFirst(d: bv16, n: nat)
    ensures Propagate(Shift8(d), n) == Propagate(d, n + 1)
  {
    hide Shift8;
    if n > 0 {
      PropagateFirst(d, n - 1);
    }
  }

  lemma RepairBits(a: bv16, b: bv16, c: bv16, ab: bv16, bc: bv16, ac: bv16)
    requires ab == a ^ b && bc == b ^ c && ac == a ^ c
    ensures ac == ab ^ bc
  {}

  lemma XorRepair(a: bv16, b: bv16, c: bv16)
    ensures Xor(a, c) == Xor(Xor(a, b), Xor(b, c))
  {
    hide *;
    XorIs(a, b);
    XorIs(b, c);
    XorIs(a, c);
    XorIs(Xor(a, b), Xor(b, c));
    RepairBits(a, b, c, Xor(a, b), Xor(b, c), Xor(a, c));
  }

  /** Replacing one byte, then absorbing the same bytes, leaves a difference that depends on nothing else. */
  lemma OneByteDifference(a: bv16, b: byte, c: byte, s: seq<byte>)
    ensures Crc(Absorb(a, c), s) == Xor(Crc(Absorb(a, b), s), Propagate(Xor(Bits(b) as bv16, Bits(c) as bv16), |s| + 1))
  {
    hide *;
    var d := Xor(Bits(b) as bv16, Bits(c) as bv16);
    AbsorbXor(a, b);
    AbsorbXor(a, c);
    XorRepair(a, Bits(b) as bv16, Bits(c) as bv16);
    Shift8Linear(Xor(a, Bits(b) as bv16), d);
    CrcLinear(Absorb(a, b), Shift8(d), s);
    PropagateFirst(d, |s|);
  }

  lemma BalanceBits(x: bv16, p: bv16, d: bv16, e: bv16, xp: bv16)
    requires xp == x ^ p && x ^ d == xp ^ e
    ensures p == d ^ e
  {}

  lemma XorBalance(x: bv16, p: bv16, d: bv16, e: bv16)
    requires Xor(x, d) == Xor(Xor(x, p), e)
    ensures p == Xor(d, e)
  {
    hide *;
    XorIs(x, d);
    XorIs(x, p);
    XorIs(Xor(x, p), e);
    BalanceBits(x, p, d, e, Xor(x, p));
    XorIs(d, e);
  }

  lemma UndoBits(x: bv16, d: bv16, e: bv16, de: bv16, y: bv16)
    requires de == d ^ e && y == x ^ de
    ensures x ^ d == y ^ e
  {}

  lemma XorUndo(x: bv16, d: bv16, e: bv16)
    ensures Xor(x, d) == Xor(Xor(x, Xor(d, e)), e)
  {
    hide *;
    XorIs(x, d);
    XorIs(d, e);
    XorIs(x, Xor(d, e));
    XorIs(Xor(x, Xor(d, e)), e);
    UndoBits(x, d, e, Xor(d, e), Xor(x, Xor(d, e)));
  }

  /** A later change of crc_extra repairs a difference exactly when it equals that difference. */
  lemma ExtraRepairs(x: bv16, p: bv16, d: byte, e: byte)
    ensures Absorb(x, d) == Absorb(Xor(x, p), e) <==> p == Xor(Bits(d) as bv16, Bits(e) as bv16)
  {
    hide *;
    AbsorbXor(x, d);
    AbsorbXor(Xor(x, p), e);
    XorUndo(x, Bits(d) as bv16, Bits(e) as bv16);
    if Shift8(Xor(x, Bits(d) as bv16)) == Shift8(Xor(Xor(x, p), Bits(e) as bv16)) {
      Shift8Injective(Xor(x, Bits(d) as bv16), Xor(Xor(x, p), Bits(e) as bv16));
      XorBalance(x, p, Bits(d) as bv16, Bits(e) as bv16);
    }
  }

  lemma CrcAfterByte(f: Frame, i: nat, e: byte)
    requires 1 <= i < CrcAt(f)
    ensures CrcOf(f, e) == Absorb(Crc(Absorb(Crc(INIT_CRC, f[1..i]), f[i]), f[i + 1..CrcAt(f)]), e)
  {
    hide Absorb, Crc;
    assert f[1..CrcAt(f)] + [e] == f[1..i] + [f[i]] + f[i + 1..CrcAt(f)] + [e];
    CrcConcat(INIT_CRC, f[1..i] + [f[i]] + f[i + 1..CrcAt(f)], [e]);
    CrcConcat(INIT_CRC, f[1..i] + [f[i]], f[i + 1..CrcAt(f)]);
    CrcConcat(INIT_CRC, f[1..i], [f[i]]);
    CrcOne(Crc(INIT_CRC, f[1..i]), [f[i]]);
    CrcOne(Crc(INIT_CRC, f[1..i] + [f[i]] + f[i + 1..CrcAt(f)]), [e]);
  }

  /** The difference of bytes b and c, n bytes further on, is the difference of d and e. */
  predicate Repaired(b: byte, c: byte, n: nat, d: byte, e: byte) {
    Propagate(Xor(Bits(b) as bv16, Bits(c) as bv16), n) == Xor(Bits(d) as bv16, Bits(e) as bv16)
  }

  lemma SameChecksumIff(f: Frame, i: nat, c: byte, d: byte, e: byte)
    requires !IsV1(f) && 7 <= i <= 9
    ensures var g := f[i := c];
      && IsFrame(g) && CrcAt(g) == CrcAt(f) && i < CrcAt(f)
      && (CrcOf(f, d) == CrcOf(g, e) <==> Repaired(f[i], c, CrcAt(f) - i, d, e))
  {
    hide Absorb, Crc, CrcOf, Bits, Xor, Propagate;
    var g := f[i := c];
    assert g[1..i] == f[1..i] && g[i + 1..CrcAt(f)] == f[i + 1..CrcAt(f)];
    var a, s := Crc(INIT_CRC, f[1..i]), f[i + 1..CrcAt(f)];
    CrcAfterByte(f, i, d);
    CrcAfterByte(g, i, e);
    OneByteDifference(a, f[i], c, s);
    ExtraRepairs(Crc(Absorb(a, f[i]), s), Propagate(Xor(Bits(f[i]) as bv16, Bits(c) as bv16), |s| + 1), d, e);
  }

  /** A change of one message id byte goes unnoticed exactly when the new id is in the table and the
      difference, carried to the end of the payload, is the difference of the two crc_extra bytes. */
  predicate Disguised(table: seq<MsgEntry>, f: Frame, i: nat, c: byte)
    requires !IsV1(f) && 7 <= i <= 9 && Lookup(table, MsgidOf(f)).Some?
  {
    var e, e' := Lookup(table, MsgidOf(f)), Lookup(table, MsgidOf(f[i := c]));
    e'.Some? && Repaired(f[i], c, CrcAt(f) - i, e.value.crcExtra, e'.value.crcExtra)
  }

  lemma MessageIdCrc(table: seq<MsgEntry>, f: Frame, i: nat, c: byte)
    requires Plain(table, f) && 7 <= i <= 9
    ensures IsFrame(f[i := c]) && (CrcGood(table, f[i := c]) <==> Disguised(table, f, i, c))
  {
    hide CrcGood, Lookup, CrcOf, Repaired;
    var g := f[i := c];
    var e, e' := Lookup(table, MsgidOf(f)), Lookup(table, MsgidOf(g));
    MatchingChecksum(table, f, i, c);
    if e'.Some? {
      SameChecksumIff(f, i, c, e.value.crcExtra, e'.value.crcExtra);
    }
  }

  /** The old checksum bytes fit the new message exactly if both have the same checksum. */
  lemma MatchingChecksum(table: seq<MsgEntry>, f: Frame, i: nat, c: byte)
    requires Plain(table, f) && 7 <= i <= 9
    ensures var g := f[i := c];
      var e, e' := Lookup(table, MsgidOf(f)), Lookup(table, MsgidOf(g));
      && IsFrame(g) && e.Some?
      && (CrcGood(table, g) <==> e'.Some? && CrcOf(f, e.value.crcExtra) == CrcOf(g, e'.value.crcExtra))
  {
    hide Lookup, Lo, Hi, CrcOf;
    var g := f[i := c];
    var e, e' := Lookup(table, MsgidOf(f)), Lookup(table, MsgidOf(g));
    assert g[CrcAt(f)] == f[CrcAt(f)] && g[CrcAt(f) + 1] == f[CrcAt(f) + 1];
    if CrcGood(table, g) {
      HalvesDetermine(CrcOf(f, e.value.crcExtra), CrcOf(g, e'.value.crcExtra));
    }
  }

  /** What a receiver without signing answers when one message id byte has been changed. */
  lemma MessageIdCorruption(table: seq<MsgEntry>, l: Ledger, f: Frame, i: nat, c: byte)
    requires Plain(table, f) && 7 <= i <= 9
    ensures Results(table, None, [], l, f[i := c])
         == Silence(|f| - 1) + [if Disguised(table, f, i, c) then FRAMING_OK else FRAMING_BAD_CRC]
  {
    hide CrcGood, Disguised, Results;
    MessageIdCrc(table, f, i, c);
    FrameAnswered(table, None, l, f[i := c]);
  }

  lemma Shift8Value(c: bv16, t: bv16, d: bv16)
    requires t == (c & 0xFF) ^ ((c & 0xF) << 4) && d == (c >> 8) ^ (t << 8) ^ (t << 3) ^ (t >> 4)
    ensures Shift8(c) == d
  {
    hide *;
    Shift8Closed(c);
    SmearIs(c);
  }

  lemma SmearIs(c: bv16)
    ensures Smear(c) == (c & 0xFF) ^ ((c & 0xF) << 4)
  {}

  lemma SevenSteps()
    ensures Propagate(0x8E, 7) == 0x3C
  {
    hide Shift8;
    Shift8Value(0x8E, 0x6E, 0x6D76);
    Shift8Value(0x6D76, 0x16, 0x16DC);
    Shift8Value(0x16DC, 0x1C, 0x1CF7);
    Shift8Value(0x1CF7, 0x87, 0x832C);
    Shift8Value(0x832C, 0xEC, 0xEBED);
    Shift8Value(0xEBED, 0x3D, 0x3C00);
    Shift8Value(0x3C00, 0, 0x3C);
    assert Propagate(0x8E, 3) == 0x1CF7;
    assert Propagate(0x8E, 5) == 0xEBED;
  }

  lemma BitsValue(b: byte, x: bv8)
    requires Unbits(x) == b
    ensures Bits(b) == x
  {
    hide *;
    UnbitsRoundTrip(x);
  }

  lemma BitValues()
    ensures Xor(Bits(2) as bv16, Bits(140) as bv16) == 0x8E && Xor(Bits(137) as bv16, Bits(181) as bv16) == 0x3C
  {
    hide Bits;
    BitsValue(2, 2);
    BitsValue(140, 140);
    BitsValue(137, 137);
    BitsValue(181, 181);
  }

  lemma SystemTimeFrame(table: seq<MsgEntry>, p: Packet)
    requires Lookup(table, 2) == Some(MsgEntry(2, 137, 12, 12))
    requires Sendable(p) && !p.v1 && !p.signed && p.msgid == 2 && |p.payload| == 4
    ensures IsFrame(Encode(p, 137, [])) && Plain(table, Encode(p, 137, []))
    ensures |Encode(p, 137, [])| == 16 && MsgidOf(Encode(p, 137, [])) == 2
  {
    hide Crc, Lookup, Lo, Hi, CrcGood;
    EncodeIsFrame(p, 137, []);
    EncodeChecks(table, p, MsgEntry(2, 137, 12, 12), []);
  }

  lemma FirstIdByte(f: Frame)
    requires !IsV1(f) && !IsSigned(f) && |f| == 16 && MsgidOf(f) == 2
    ensures f[7] == 2 && CrcAt(f) == 14 && MsgidOf(f[7 := 140]) == 140
  {}

  /** Such a disguise exists in the common message set: SYSTEM_TIME (2) with four payload bytes, any
      four, turns into ACTUATOR_CONTROL_TARGET (140) and is accepted. */
  lemma SystemTimeDisguised(table: seq<MsgEntry>, l: Ledger, seqno: byte, sysid: byte, compid: byte, payload: seq<byte>)
    requires Lookup(table, 2) == Some(MsgEntry(2, 137, 12, 12)) && Lookup(table, 140) == Some(MsgEntry(140, 181, 41, 41))
    requires |payload| == 4
    ensures var p := Packet(false, false, seqno, sysid, compid, 2, payload);
      var f := Encode(p, 137, []);
      f[7] == 2 && Results(table, None, [], l, f[7 := 140]) == Silence(15) + [FRAMING_OK]
  {
    hide CrcGood, Lookup, Results, Encode, Silence;
    var p := Packet(false, false, seqno, sysid, compid, 2, payload);
    SystemTimeFrame(table, p);
    var f: Frame := Encode(p, 137, []);
    FirstIdByte(f);
    MessageIdCorruption(table, l, f, 7, 140);
    SystemTimeCondition(table, f);
  }

  lemma SystemTimeCondition(table: seq<MsgEntry>, f: Frame)
    requires Lookup(table, 2) == Some(MsgEntry(2, 137, 12, 12)) && Lookup(table, 140) == Some(MsgEntry(140, 181, 41, 41))
    requires Plain(table, f) && f[7] == 2 && CrcAt(f) == 14 && MsgidOf(f) == 2 && MsgidOf(f[7 := 140]) == 140
    ensures Disguised(table, f, 7, 140)
  {
    hide Xor, Propagate, Lookup, Bits, CrcGood;
    SevenSteps();
    BitValues();
  }
}
