/** CRC-16/MCRF4XX (checksum.h): the byte-at-a-time code against the bit-serial definition. */
module Crc16 {
  import opened ByteBits
  import opened Bytes

  const INIT_CRC: bv16 := 0xFFFF

  /* ---------- Reference definition: one bit at a time, reflected polynomial 0x8408 ---------- */

  function ShiftBit(crc: bv16): bv16 {
    if crc & 1 == 1 then (crc >> 1) ^ 0x8408 else crc >> 1
  }

  function Shift2(crc: bv16): bv16 { ShiftBit(ShiftBit(crc)) }

  function Shift4(crc: bv16): bv16 { Shift2(Shift2(crc)) }

  function Shift8(crc: bv16): bv16 { Shift4(Shift4(crc)) }

  /** Absorb one byte: xor it into the low half of the register, then shift out eight bits. */
  function Absorb(crc: bv16, b: byte): bv16 {
    Shift8(crc ^ (Bits(b) as bv16))
  }

  /** The checksum register after absorbing all of `data`, starting from `crc`. */
  function Crc(crc: bv16, data: seq<byte>): bv16 {
    if data == [] then crc else Absorb(Crc(crc, data[..|data| - 1]), data[|data| - 1])
  }

  /** The two checksum bytes in transmission order: low half first. */
  function Lo(crc: bv16): byte { Unbits((crc & 0xFF) as bv8) }

  function Hi(crc: bv16): byte { Unbits((crc >> 8) as bv8) }

  /** The values of the digits' bits, and one step each of the check below. */
  lemma DigitBits()
    ensures Bits(0x31) == 0x31 && Bits(0x32) == 0x32 && Bits(0x33) == 0x33 && Bits(0x34) == 0x34 && Bits(0x35) == 0x35
    ensures Bits(0x36) == 0x36 && Bits(0x37) == 0x37 && Bits(0x38) == 0x38 && Bits(0x39) == 0x39
  {
    hide Bits;
    DigitValues();
    UnbitsRoundTrip(0x31);
    UnbitsRoundTrip(0x32);
    UnbitsRoundTrip(0x33);
    UnbitsRoundTrip(0x34);
    UnbitsRoundTrip(0x35);
    UnbitsRoundTrip(0x36);
    UnbitsRoundTrip(0x37);
    UnbitsRoundTrip(0x38);
    UnbitsRoundTrip(0x39);
  }

  lemma DigitValues()
    ensures Unbits(0x31) == 0x31 && Unbits(0x32) == 0x32 && Unbits(0x33) == 0x33 && Unbits(0x34) == 0x34 && Unbits(0x35) == 0x35
    ensures Unbits(0x36) == 0x36 && Unbits(0x37) == 0x37 && Unbits(0x38) == 0x38 && Unbits(0x39) == 0x39
  {}

  lemma DigitSteps()
    ensures Shift8(0xffff ^ 0x31) == 0x2f8d
    ensures Shift8(0x2f8d ^ 0x32) == 0x4d53
    ensures Shift8(0x4d53 ^ 0x33) == 0x634b
    ensures Shift8(0x634b ^ 0x34) == 0x8b13
    ensures Shift8(0x8b13 ^ 0x35) == 0x44bf
    ensures Shift8(0x44bf ^ 0x36) == 0x198d
    ensures Shift8(0x198d ^ 0x37) == 0x1ac8
    ensures Shift8(0x1ac8 ^ 0x38) == 0xf795
    ensures Shift8(0xf795 ^ 0x39) == 0x6f91
  {}

  lemma OneDigit(before: seq<byte>, b: byte, crc: bv16, bits: bv8, next: bv16)
    requires Crc(INIT_CRC, before) == crc && Bits(b) == bits && Shift8(crc ^ (bits as bv16)) == next
    ensures Crc(INIT_CRC, before + [b]) == next
  {
    hide Bits, Shift8;
    assert (before + [b])[..|before|] == before;
  }

  /** The published check value of this CRC: the digits 1 to 9, from 0xFFFF, give 0x6F91. */
  lemma CheckValue()
    ensures Crc(0xFFFF, [0x31, 0x32, 0x33, 0x34, 0x35, 0x36, 0x37, 0x38, 0x39]) == 0x6F91
    ensures Lo(0x6F91) == 0x91 && Hi(0x6F91) == 0x6F
  {
    hide Bits, Shift8, Crc;
    DigitBits();
    DigitSteps();
    NoBytes();
    OneDigit([], 0x31, 0xffff, 0x31, 0x2f8d);
    assert [] + [0x31] == [0x31];
    OneDigit([0x31], 0x32, 0x2f8d, 0x32, 0x4d53);
    assert [0x31] + [0x32] == [0x31, 0x32];
    OneDigit([0x31, 0x32], 0x33, 0x4d53, 0x33, 0x634b);
    assert [0x31, 0x32] + [0x33] == [0x31, 0x32, 0x33];
    OneDigit([0x31, 0x32, 0x33], 0x34, 0x634b, 0x34, 0x8b13);
    assert [0x31, 0x32, 0x33] + [0x34] == [0x31, 0x32, 0x33, 0x34];
    OneDigit([0x31, 0x32, 0x33, 0x34], 0x35, 0x8b13, 0x35, 0x44bf);
    assert [0x31, 0x32, 0x33, 0x34] + [0x35] == [0x31, 0x32, 0x33, 0x34, 0x35];
    OneDigit([0x31, 0x32, 0x33, 0x34, 0x35], 0x36, 0x44bf, 0x36, 0x198d);
    assert [0x31, 0x32, 0x33, 0x34, 0x35] + [0x36] == [0x31, 0x32, 0x33, 0x34, 0x35, 0x36];
    OneDigit([0x31, 0x32, 0x33, 0x34, 0x35, 0x36], 0x37, 0x198d, 0x37, 0x1ac8);
    assert [0x31, 0x32, 0x33, 0x34, 0x35, 0x36] + [0x37] == [0x31, 0x32, 0x33, 0x34, 0x35, 0x36, 0x37];
    OneDigit([0x31, 0x32, 0x33, 0x34, 0x35, 0x36, 0x37], 0x38, 0x1ac8, 0x38, 0xf795);
    assert [0x31, 0x32, 0x33, 0x34, 0x35, 0x36, 0x37] + [0x38] == [0x31, 0x32, 0x33, 0x34, 0x35, 0x36, 0x37, 0x38];
    OneDigit([0x31, 0x32, 0x33, 0x34, 0x35, 0x36, 0x37, 0x38], 0x39, 0xf795, 0x39, 0x6f91);
    assert [0x31, 0x32, 0x33, 0x34, 0x35, 0x36, 0x37, 0x38] + [0x39] == [0x31, 0x32, 0x33, 0x34, 0x35, 0x36, 0x37, 0x38, 0x39];
  }

  lemma NoBytes()
    ensures INIT_CRC == 0xFFFF && Crc(INIT_CRC, []) == 0xFFFF
  {}

  /* ---------- The code ---------- */

  function FoldNibble(x: bv8): bv8 { x ^ (x << 4) }

  function Spread(crc: bv16, tmp: bv8): bv16 {
    (crc >> 8) ^ ((tmp as bv16) << 8) ^ ((tmp as bv16) << 3) ^ ((tmp as bv16) >> 4)
  }

  /** The shift-and-xor on a whole byte, with no loop over bits. */
  function FastStep(d: bv8, crc: bv16): bv16 {
    Spread(crc, FoldNibble(d ^ ((crc & 0xFF) as bv8)))
  }

  /** crc_accumulate */
  method CrcAccumulate(data: byte, crcAccum: bv16) returns (crc: bv16)
    ensures crc == Absorb(crcAccum, data)
  {
    hide *;
    crc := FastStep(Bits(data), crcAccum);
    AbsorbShape(crcAccum, data);
    FastStepIsBitSerial(Bits(data), crcAccum);
  }

  /** crc_accumulate_buffer: `length` bytes of `buffer`, read from `start`. */
  method CrcAccumulateBuffer(crcAccum: bv16, buffer: array<byte>, start: nat, length: nat) returns (crc: bv16)
    requires start + length <= buffer.Length
    ensures crc == Crc(crcAccum, buffer[start..start + length])
  {
    hide Absorb;
    crc := crcAccum;
    var p, left := start, length;
    assert buffer[start..p] == [];
    while left > 0
      invariant start <= p <= start + length && p + left == start + length
      invariant crc == Crc(crcAccum, buffer[start..p])
    {
      assert buffer[start..p + 1][..p - start] == buffer[start..p];
      crc := CrcAccumulate(buffer[p], crc);
      p, left := p + 1, left - 1;
    }
  }

  /** crc_calculate: the same from the initial register value. */
  method CrcCalculate(buffer: array<byte>, start: nat, length: nat) returns (crc: bv16)
    requires start + length <= buffer.Length
    ensures crc == Crc(INIT_CRC, buffer[start..start + length])
  {
    crc := CrcAccumulateBuffer(INIT_CRC, buffer, start, length);
  }

  /* ---------- Closed forms of the bit-serial steps, by doubling ---------- */

  function Smear(c: bv16): bv16 { (c & 0xFF) ^ ((c & 0xF) << 4) }

  lemma LowBit(c: bv16)
    ensures c & 1 == 0 || c & 1 == 1
  {}

  lemma ShiftBitClosed(c: bv16)
    ensures ShiftBit(c) == (c >> 1) ^ ((c & 1) << 15) ^ ((c & 1) << 10) ^ ((c & 1) << 3)
  {
    LowBit(c);
    if c & 1 == 1 {
      assert 0x8408 == ((c & 1) << 15) ^ ((c & 1) << 10) ^ ((c & 1) << 3);
    } else {
      assert c & 1 == 0;
      assert 0 == ((c & 1) << 15) ^ ((c & 1) << 10) ^ ((c & 1) << 3);
    }
  }

  lemma ComposeClosed(c: bv16, d: bv16)
    requires d == (c >> 1) ^ ((c & 1) << 15) ^ ((c & 1) << 10) ^ ((c & 1) << 3)
    ensures (d >> 1) ^ ((d & 1) << 15) ^ ((d & 1) << 10) ^ ((d & 1) << 3)
         == (c >> 2) ^ ((c & 3) << 14) ^ ((c & 3) << 9) ^ ((c & 3) << 2)
  {}

  lemma Shift2Closed(c: bv16)
    ensures Shift2(c) == (c >> 2) ^ ((c & 3) << 14) ^ ((c & 3) << 9) ^ ((c & 3) << 2)
  {
    var d := (c >> 1) ^ ((c & 1) << 15) ^ ((c & 1) << 10) ^ ((c & 1) << 3);
    ShiftBitClosed(c);
    ShiftBitClosed(d);
    ComposeClosed(c, d);
  }

  lemma Shift4Closed(c: bv16)
    ensures Shift4(c) == (c >> 4) ^ ((c & 15) << 12) ^ ((c & 15) << 7) ^ (c & 15)
  {
    Shift2Closed(c);
    Shift2Closed((c >> 2) ^ ((c & 3) << 14) ^ ((c & 3) << 9) ^ ((c & 3) << 2));
  }

  lemma Shift8Closed(c: bv16)
    ensures Shift8(c) == (c >> 8) ^ (Smear(c) << 8) ^ (Smear(c) << 3) ^ (Smear(c) >> 4)
  {
    Shift4Closed(c);
    Shift4Closed((c >> 4) ^ ((c & 15) << 12) ^ ((c & 15) << 7) ^ (c & 15));
  }

  lemma SmearOfByte(d: bv8, crc: bv16)
    ensures Smear(crc ^ (d as bv16)) == FoldNibble(d ^ ((crc & 0xFF) as bv8)) as bv16
    ensures (crc ^ (d as bv16)) >> 8 == crc >> 8
  {}

  /** The shift-and-xor form of the code is eight bit-serial steps. */
  lemma FastStepIsBitSerial(d: bv8, crc: bv16)
    ensures FastStep(d, crc) == Shift8(crc ^ (d as bv16))
  {
    hide Shift8, Smear, FoldNibble;
    SmearOfByte(d, crc);
    Shift8Closed(crc ^ (d as bv16));
  }

  /* ---------- Splitting a buffer ---------- */

  /** However a buffer is cut, checksumming the parts in turn is checksumming the whole. */
  lemma {:induction false} CrcConcat(crc: bv16, a: seq<byte>, b: seq<byte>)
    ensures Crc(crc, a + b) == Crc(Crc(crc, a), b)
  {
    hide Absorb;
    if b == [] {
      assert a + b == a;
    } else {
      CrcConcat(crc, a, b[..|b| - 1]);
      assert (a + b)[..|a + b| - 1] == a + b[..|b| - 1];
    }
  }

  /* ---------- Residue ---------- */

  lemma ResidueBits(c: bv16, lo: bv8, hi: bv8)
    requires lo as bv16 == c & 0xFF && hi as bv16 == c >> 8
    ensures Shift8(Shift8(c ^ (lo as bv16)) ^ (hi as bv16)) == 0
  {
    Shift8Closed(c ^ (c & 0xFF));
    Shift8Closed((c >> 8) ^ (c >> 8));
  }

  lemma Narrow(c: bv16)
    ensures ((c & 0xFF) as bv8) as bv16 == c & 0xFF
    ensures ((c >> 8) as bv8) as bv16 == c >> 8
  {}

  lemma HalvesAsBits(c: bv16)
    ensures Bits(Lo(c)) as bv16 == c & 0xFF
    ensures Bits(Hi(c)) as bv16 == c >> 8
  {
    hide Bits, Unbits;
    UnbitsRoundTrip((c & 0xFF) as bv8);
    UnbitsRoundTrip((c >> 8) as bv8);
    Narrow(c);
  }

  lemma ResidueOfShifts(c: bv16, lo: bv8, hi: bv8, first: bv16, second: bv16)
    requires lo as bv16 == c & 0xFF && hi as bv16 == c >> 8
    requires first == Shift8(c ^ (lo as bv16)) && second == Shift8(first ^ (hi as bv16))
    ensures second == 0
  {
    hide *;
    ResidueBits(c, lo, hi);
  }

  lemma ResidueStep(c: bv16)
    ensures Absorb(Absorb(c, Lo(c)), Hi(c)) == 0
  {
    hide *;
    HalvesAsBits(c);
    var first := Absorb(c, Lo(c));
    AbsorbShape(c, Lo(c));
    AbsorbShape(first, Hi(c));
    ResidueOfShifts(c, Bits(Lo(c)), Bits(Hi(c)), first, Absorb(first, Hi(c)));
  }

  /** Appending the low, then the high checksum byte brings the register to zero. */
  lemma Residue(crc: bv16, data: seq<byte>)
    ensures var c := Crc(crc, data); Crc(crc, data + [Lo(c), Hi(c)]) == 0
  {
    hide *;
    var c := Crc(crc, data);
    CrcConcat(crc, data, [Lo(c), Hi(c)]);
    CrcTwo(c, [Lo(c), Hi(c)]);
    ResidueStep(c);
  }

  /** The two transmitted bytes determine the checksum. */
  lemma HalvesDetermine(c: bv16, d: bv16)
    requires Lo(c) == Lo(d) && Hi(c) == Hi(d)
    ensures c == d
  {
    hide Lo, Hi, Bits;
    HalvesAsBits(c);
    HalvesAsBits(d);
    JoinHalves(c);
    JoinHalves(d);
  }

  lemma JoinHalves(c: bv16)
    ensures c == (c & 0xFF) | ((c >> 8) << 8)
  {}

  /* ---------- Error detection ---------- */

  lemma ClosedFormInjective(c: bv16, d: bv16, t: bv16, u: bv16)
    requires t == (c & 0xFF) ^ ((c & 0xF) << 4)
    requires u == (d & 0xFF) ^ ((d & 0xF) << 4)
    requires (c >> 8) ^ (t << 8) ^ (t << 3) ^ (t >> 4) == (d >> 8) ^ (u << 8) ^ (u << 3) ^ (u >> 4)
    ensures c == d
  {}

  /** Eight shifts are a bijection on the register. */
  lemma Shift8Injective(c: bv16, d: bv16)
    requires Shift8(c) == Shift8(d)
    ensures c == d
  {
    Shift8Closed(c);
    Shift8Closed(d);
    ClosedFormInjective(c, d, Smear(c), Smear(d));
  }

  lemma XorCancels(c: bv16, d: bv16, x: bv16)
    ensures c ^ x == d ^ x ==> c == d
    ensures x ^ c == x ^ d ==> c == d
  {}

  lemma AbsorbStateInjective(c: bv16, d: bv16, b: byte)
    requires Absorb(c, b) == Absorb(d, b)
    ensures c == d
  {
    hide Shift8, Bits;
    Shift8Injective(c ^ (Bits(b) as bv16), d ^ (Bits(b) as bv16));
    XorCancels(c, d, Bits(b) as bv16);
  }

  lemma Widen(a: bv8, b: bv8)
    requires a as bv16 == b as bv16
    ensures a == b
  {}

  lemma AbsorbDataInjective(c: bv16, a: byte, b: byte)
    requires Absorb(c, a) == Absorb(c, b)
    ensures a == b
  {
    hide Shift8, Bits;
    Shift8Injective(c ^ (Bits(a) as bv16), c ^ (Bits(b) as bv16));
    XorCancels(Bits(a) as bv16, Bits(b) as bv16, c);
    Widen(Bits(a), Bits(b));
    BitsInjective(a, b);
  }

  /** Within the low byte, the high half of eight shifts already tells inputs apart. */
  lemma HighHalfInjective(c: bv16, x: bv8, y: bv8)
    requires Shift8(c ^ (x as bv16)) >> 8 == Shift8(c ^ (y as bv16)) >> 8
    ensures x == y
  {
    var p, q := c ^ (x as bv16), c ^ (y as bv16);
    Shift8Closed(p);
    Shift8Closed(q);
    HighHalfClosed(c, x, y, p, q, Smear(p), Smear(q));
  }

  lemma HighHalfClosed(c: bv16, x: bv8, y: bv8, p: bv16, q: bv16, t: bv16, u: bv16)
    requires p == c ^ (x as bv16) && q == c ^ (y as bv16)
    requires t == (p & 0xFF) ^ ((p & 0xF) << 4) && u == (q & 0xFF) ^ ((q & 0xF) << 4)
    requires ((p >> 8) ^ (t << 8) ^ (t << 3) ^ (t >> 4)) >> 8 == ((q >> 8) ^ (u << 8) ^ (u << 3) ^ (u >> 4)) >> 8
    ensures x == y
  {}

  lemma SameHigh(s: bv16, t: bv16, x: bv8, y: bv8)
    requires s ^ (x as bv16) == t ^ (y as bv16)
    ensures s >> 8 == t >> 8
  {}

  /** Two consecutive data bytes map injectively, for a fixed starting register. */
  lemma TwoBytesInjective(c: bv16, a0: byte, a1: byte, b0: byte, b1: byte)
    requires Absorb(Absorb(c, a0), a1) == Absorb(Absorb(c, b0), b1)
    ensures a0 == b0 && a1 == b1
  {
    hide *;
    SecondByteCannotRepair(c, a0, a1, b0, b1);
    AbsorbDataInjective(Absorb(c, a0), a1, b1);
  }

  lemma AbsorbShape(c: bv16, b: byte)
    ensures Absorb(c, b) == Shift8(c ^ (Bits(b) as bv16))
  {}

  lemma SecondByteCannotRepair(c: bv16, a0: byte, a1: byte, b0: byte, b1: byte)
    requires Absorb(Absorb(c, a0), a1) == Absorb(Absorb(c, b0), b1)
    ensures a0 == b0
  {
    hide *;
    var s, t := Absorb(c, a0), Absorb(c, b0);
    AbsorbShape(s, a1);
    AbsorbShape(t, b1);
    Shift8Injective(s ^ (Bits(a1) as bv16), t ^ (Bits(b1) as bv16));
    SameHigh(s, t, Bits(a1), Bits(b1));
    FirstByteFromHighHalf(c, a0, b0);
  }

  lemma FirstByteFromHighHalf(c: bv16, a: byte, b: byte)
    requires Absorb(c, a) >> 8 == Absorb(c, b) >> 8
    ensures a == b
  {
    hide *;
    AbsorbShape(c, a);
    AbsorbShape(c, b);
    HighHalfInjective(c, Bits(a), Bits(b));
    BitsInjective(a, b);
  }

  lemma {:induction false} CrcStateInjective(c: bv16, d: bv16, data: seq<byte>)
    requires Crc(c, data) == Crc(d, data)
    ensures c == d
  {
    hide Absorb;
    if data != [] {
      var n := |data| - 1;
      AbsorbStateInjective(Crc(c, data[..n]), Crc(d, data[..n]), data[n]);
      CrcStateInjective(c, d, data[..n]);
    }
  }

  lemma ShortBurst(c: bv16, x: seq<byte>, y: seq<byte>)
    requires 1 <= |x| == |y| <= 2 && x != y
    ensures Crc(c, x) != Crc(c, y)
  {
    hide Absorb, Crc;
    if Crc(c, x) == Crc(c, y) {
      if |x| == 1 {
        CrcOne(c, x);
        CrcOne(c, y);
        AbsorbDataInjective(c, x[0], y[0]);
      } else {
        CrcTwo(c, x);
        CrcTwo(c, y);
        TwoBytesInjective(c, x[0], x[1], y[0], y[1]);
      }
      assert false;
    }
  }

  /** Replacing one byte, or two adjacent bytes, always changes the checksum. */
  lemma BurstDetected(crc: bv16, before: seq<byte>, x: seq<byte>, y: seq<byte>, after: seq<byte>)
    requires 1 <= |x| == |y| <= 2 && x != y
    ensures Crc(crc, before + x + after) != Crc(crc, before + y + after)
  {
    hide Absorb, Crc;
    var c := Crc(crc, before);
    CrcConcat(crc, before + x, after);
    CrcConcat(crc, before + y, after);
    CrcConcat(crc, before, x);
    CrcConcat(crc, before, y);
    ShortBurst(c, x, y);
    if Crc(Crc(c, x), after) == Crc(Crc(c, y), after) {
      CrcStateInjective(Crc(c, x), Crc(c, y), after);
    }
  }

  lemma CrcOne(c: bv16, x: seq<byte>)
    requires |x| == 1
    ensures Crc(c, x) == Absorb(c, x[0])
  {
    hide Absorb;
    assert x[..0] == [];
  }

  lemma CrcTwo(c: bv16, x: seq<byte>)
    requires |x| == 2
    ensures Crc(c, x) == Absorb(Absorb(c, x[0]), x[1])
  {
    hide Absorb;
    CrcOne(c, x[..1]);
  }
}
