/** Conversion between bytes as integers and bytes as bit vectors, bit by bit. */
module ByteBits {
  import opened Bytes

  /** The byte's bits, one at a time from its halvings. */
  function Bits(b: byte): bv8 {
    Compose(Odd(b, 7), Odd(b, 6), Odd(b, 5), Odd(b, 4), Odd(b, 3), Odd(b, 2), Odd(b, 1), Odd(b, 0))
  }

  function Halve(n: nat, k: nat): nat { if k == 0 then n else Halve(n, k - 1) / 2 }

  function Odd(n: nat, k: nat): bool { Halve(n, k) % 2 == 1 }

  function Pick(p: bool, m: bv8): bv8 { if p then m else 0 }

  function Unit(p: bool): nat { if p then 1 else 0 }

  function Compose(p7: bool, p6: bool, p5: bool, p4: bool, p3: bool, p2: bool, p1: bool, p0: bool): bv8 {
    Pick(p7, 0x80) | Pick(p6, 0x40) | Pick(p5, 0x20) | Pick(p4, 0x10) | Pick(p3, 0x08) | Pick(p2, 0x04) | Pick(p1, 0x02) | Pick(p0, 0x01)
  }

  function Total(p7: bool, p6: bool, p5: bool, p4: bool, p3: bool, p2: bool, p1: bool, p0: bool): byte {
    128 * Unit(p7) + 64 * Unit(p6) + 32 * Unit(p5) + 16 * Unit(p4) + 8 * Unit(p3) + 4 * Unit(p2) + 2 * Unit(p1) + Unit(p0)
  }

  /** The sum of the weights of the bits that are set. */
  function Unbits(x: bv8): byte {
    Total(x & 0x80 != 0, x & 0x40 != 0, x & 0x20 != 0, x & 0x10 != 0, x & 0x08 != 0, x & 0x04 != 0, x & 0x02 != 0, x & 0x01 != 0)
  }

  lemma PickedBits(p7: bool, p6: bool, p5: bool, p4: bool, p3: bool, p2: bool, p1: bool, p0: bool)
    ensures var x := Compose(p7, p6, p5, p4, p3, p2, p1, p0);
    (x & 0x80 != 0) == p7 && (x & 0x40 != 0) == p6 && (x & 0x20 != 0) == p5 && (x & 0x10 != 0) == p4
    && (x & 0x08 != 0) == p3 && (x & 0x04 != 0) == p2 && (x & 0x02 != 0) == p1 && (x & 0x01 != 0) == p0
  {}

  lemma Step(n: nat, k: nat, m: nat)
    requires Halve(n, k) < 2 * m
    ensures Halve(n, k + 1) < m && Halve(n, k) == 2 * Halve(n, k + 1) + Unit(Odd(n, k))
  {}

  lemma Zeroth(b: nat)
    ensures Halve(b, 0) == b
  {}

  lemma HornerSum(h0: nat, h1: nat, h2: nat, h3: nat, h4: nat, h5: nat, h6: nat, h7: nat,
                  p7: bool, p6: bool, p5: bool, p4: bool, p3: bool, p2: bool, p1: bool, p0: bool)
    requires h0 == 2 * h1 + Unit(p0) && h1 == 2 * h2 + Unit(p1) && h2 == 2 * h3 + Unit(p2) && h3 == 2 * h4 + Unit(p3)
    requires h4 == 2 * h5 + Unit(p4) && h5 == 2 * h6 + Unit(p5) && h6 == 2 * h7 + Unit(p6) && h7 == Unit(p7)
    ensures h0 == Total(p7, p6, p5, p4, p3, p2, p1, p0)
  {
    hide Unit;
  }

  lemma LowDigits(b: byte)
    ensures b == 2 * Halve(b, 1) + Unit(Odd(b, 0)) && Halve(b, 1) == 2 * Halve(b, 2) + Unit(Odd(b, 1))
    ensures Halve(b, 2) == 2 * Halve(b, 3) + Unit(Odd(b, 2)) && Halve(b, 3) == 2 * Halve(b, 4) + Unit(Odd(b, 3))
    ensures Halve(b, 4) < 16
  {
    hide *;
    Zeroth(b);
    Step(b, 0, 128);
    Step(b, 1, 64);
    Step(b, 2, 32);
    Step(b, 3, 16);
  }

  lemma HighDigits(b: byte)
    requires Halve(b, 4) < 16
    ensures Halve(b, 4) == 2 * Halve(b, 5) + Unit(Odd(b, 4)) && Halve(b, 5) == 2 * Halve(b, 6) + Unit(Odd(b, 5))
    ensures Halve(b, 6) == 2 * Halve(b, 7) + Unit(Odd(b, 6)) && Halve(b, 7) == Unit(Odd(b, 7))
  {
    hide *;
    Step(b, 4, 8);
    Step(b, 5, 4);
    Step(b, 6, 2);
    Step(b, 7, 1);
  }

  lemma WeightedBits(b: byte)
    ensures b == Total(Odd(b, 7), Odd(b, 6), Odd(b, 5), Odd(b, 4), Odd(b, 3), Odd(b, 2), Odd(b, 1), Odd(b, 0))
  {
    hide *;
    LowDigits(b);
    HighDigits(b);
    HornerSum(b, Halve(b, 1), Halve(b, 2), Halve(b, 3), Halve(b, 4), Halve(b, 5), Halve(b, 6), Halve(b, 7),
              Odd(b, 7), Odd(b, 6), Odd(b, 5), Odd(b, 4), Odd(b, 3), Odd(b, 2), Odd(b, 1), Odd(b, 0));
  }

  lemma BitsRoundTrip(b: byte)
    ensures Unbits(Bits(b)) == b
  {
    hide Halve, Odd, Total, Compose;
    WeightedBits(b);
    PickedBits(Odd(b, 7), Odd(b, 6), Odd(b, 5), Odd(b, 4), Odd(b, 3), Odd(b, 2), Odd(b, 1), Odd(b, 0));
  }

  lemma Parity(x: nat, k: nat, h: nat, p: bool)
    requires Halve(x, k) == 2 * h + Unit(p)
    ensures Odd(x, k) == p && Halve(x, k + 1) == h
  {}

  /** Four digits on top of `high`, from bit k on. */
  lemma FourDigits(x: nat, k: nat, high: nat, p3: bool, p2: bool, p1: bool, p0: bool)
    requires Halve(x, k) == 16 * high + 8 * Unit(p3) + 4 * Unit(p2) + 2 * Unit(p1) + Unit(p0)
    ensures Odd(x, k) == p0 && Odd(x, k + 1) == p1 && Odd(x, k + 2) == p2 && Odd(x, k + 3) == p3
    ensures Halve(x, k + 4) == high
  {
    hide *;
    Parity(x, k, 8 * high + 4 * Unit(p3) + 2 * Unit(p2) + Unit(p1), p0);
    Parity(x, k + 1, 4 * high + 2 * Unit(p3) + Unit(p2), p1);
    Parity(x, k + 2, 2 * high + Unit(p3), p2);
    Parity(x, k + 3, high, p3);
  }

  lemma TotalBits(p7: bool, p6: bool, p5: bool, p4: bool, p3: bool, p2: bool, p1: bool, p0: bool)
    ensures var x := Total(p7, p6, p5, p4, p3, p2, p1, p0);
      && Odd(x, 7) == p7 && Odd(x, 6) == p6 && Odd(x, 5) == p5 && Odd(x, 4) == p4
      && Odd(x, 3) == p3 && Odd(x, 2) == p2 && Odd(x, 1) == p1 && Odd(x, 0) == p0
  {
    hide Halve, Odd, Unit;
    var x := Total(p7, p6, p5, p4, p3, p2, p1, p0);
    var high := 8 * Unit(p7) + 4 * Unit(p6) + 2 * Unit(p5) + Unit(p4);
    Zeroth(x);
    FourDigits(x, 0, high, p3, p2, p1, p0);
    FourDigits(x, 4, 0, p7, p6, p5, p4);
  }

  lemma MaskedBits(x: bv8)
    ensures x == Compose(x & 0x80 != 0, x & 0x40 != 0, x & 0x20 != 0, x & 0x10 != 0, x & 0x08 != 0, x & 0x04 != 0, x & 0x02 != 0, x & 0x01 != 0)
  {}

  lemma UnbitsRoundTrip(x: bv8)
    ensures Bits(Unbits(x)) == x
  {
    hide Halve, Odd, Total, Compose;
    MaskedBits(x);
    TotalBits(x & 0x80 != 0, x & 0x40 != 0, x & 0x20 != 0, x & 0x10 != 0, x & 0x08 != 0, x & 0x04 != 0, x & 0x02 != 0, x & 0x01 != 0);
  }

  lemma BitsInjective(a: byte, b: byte)
    requires Bits(a) == Bits(b)
    ensures a == b
  {
    hide *;
    BitsRoundTrip(a);
    BitsRoundTrip(b);
  }
}
