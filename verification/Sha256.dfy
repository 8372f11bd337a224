/** The streaming SHA-256 of mavlink_sha256.h, against sections 5 and 6.2 of FIPS 180-4. */
module Sha256 {
  import opened ByteBits
  import opened Bytes

  const TWO_29 := 0x2000_0000
  const TWO_32 := 0x1_0000_0000
  const TWO_64 := 0x1_0000_0000_0000_0000

  /* ---------- The compression function (FIPS 180-4, sections 4.1.2 and 6.2.2) ---------- */

  function Ch(x: bv32, y: bv32, z: bv32): bv32 { (x & y) ^ (!x & z) }

  function Maj(x: bv32, y: bv32, z: bv32): bv32 { (x & y) ^ (x & z) ^ (y & z) }

  function Xor3(x: bv32, y: bv32, z: bv32): bv32 { x ^ y ^ z }

  function BigSigma0(x: bv32): bv32 { Xor3(Rotr(x, 2), Rotr(x, 13), Rotr(x, 22)) }

  function BigSigma1(x: bv32): bv32 { Xor3(Rotr(x, 6), Rotr(x, 11), Rotr(x, 25)) }

  function Sigma0(x: bv32): bv32 { Xor3(Rotr(x, 7), Rotr(x, 18), x >> 3) }

  function Sigma1(x: bv32): bv32 { Xor3(Rotr(x, 17), Rotr(x, 19), x >> 10) }

  function Rotr(x: bv32, n: nat): bv32
    requires 0 < n < 32
  {
    (x >> n) | (x << (32 - n))
  }

  const K0: seq<bv32> := [
    0x428a2f98, 0x71374491, 0xb5c0fbcf, 0xe9b5dba5, 0x3956c25b, 0x59f111f1, 0x923f82a4, 0xab1c5ed5
  ]

  const K8: seq<bv32> := [
    0xd807aa98, 0x12835b01, 0x243185be, 0x550c7dc3, 0x72be5d74, 0x80deb1fe, 0x9bdc06a7, 0xc19bf174
  ]

  const K16: seq<bv32> := [
    0xe49b69c1, 0xefbe4786, 0x0fc19dc6, 0x240ca1cc, 0x2de92c6f, 0x4a7484aa, 0x5cb0a9dc, 0x76f988da
  ]

  const K24: seq<bv32> := [
    0x983e5152, 0xa831c66d, 0xb00327c8, 0xbf597fc7, 0xc6e00bf3, 0xd5a79147, 0x06ca6351, 0x14292967
  ]

  const K32: seq<bv32> := [
    0x27b70a85, 0x2e1b2138, 0x4d2c6dfc, 0x53380d13, 0x650a7354, 0x766a0abb, 0x81c2c92e, 0x92722c85
  ]

  const K40: seq<bv32> := [
    0xa2bfe8a1, 0xa81a664b, 0xc24b8b70, 0xc76c51a3, 0xd192e819, 0xd6990624, 0xf40e3585, 0x106aa070
  ]

  const K48: seq<bv32> := [
    0x19a4c116, 0x1e376c08, 0x2748774c, 0x34b0bcb5, 0x391c0cb3, 0x4ed8aa4a, 0x5b9cca4f, 0x682e6ff3
  ]

  const K56: seq<bv32> := [
    0x748f82ee, 0x78a5636f, 0x84c87814, 0x8cc70208, 0x90befffa, 0xa4506ceb, 0xbef9a3f7, 0xc67178f2
  ]

  const K := K0 + K8 + K16 + K24 + K32 + K40 + K48 + K56

  lemma KLength()
    ensures |K| == 64
  {}

  const H0: seq<bv32> := [
    0x6a09e667, 0xbb67ae85, 0x3c6ef372, 0xa54ff53a, 0x510e527f, 0x9b05688c, 0x1f83d9ab, 0x5be0cd19
  ]

  datatype Working = Working(a: bv32, b: bv32, c: bv32, d: bv32, e: bv32, f: bv32, g: bv32, h: bv32)

  type Words = s: seq<bv32> | |s| == 16 witness seq(16, i => 0)
  type Hash = s: seq<bv32> | |s| == 8 witness H0

  /** Message schedule word W_t. */
  function W(m: Words, t: nat): bv32
    requires t < 64
  {
    if t < 16 then m[t]
    else Expand(W(m, t - 2), W(m, t - 7), W(m, t - 15), W(m, t - 16))
  }

  function Expand(w2: bv32, w7: bv32, w15: bv32, w16: bv32): bv32 {
    Sigma1(w2) + w7 + Sigma0(w15) + w16
  }

  /** The new working variables from the old and the four function values: T1 and T2 of step 3. */
  function Mixed(s: Working, sum1: bv32, ch: bv32, k: bv32, w: bv32, sum0: bv32, maj: bv32): Working {
    var t1 := s.h + sum1 + ch + k + w;
    var t2 := sum0 + maj;
    Working(t1 + t2, s.a, s.b, s.c, s.d + t1, s.e, s.f, s.g)
  }

  function Round(s: Working, k: bv32, w: bv32): Working {
    Mixed(s, BigSigma1(s.e), Ch(s.e, s.f, s.g), k, w, BigSigma0(s.a), Maj(s.a, s.b, s.c))
  }

  function Rounds(h: Hash, m: Words, n: nat): Working
    requires n <= 64
  {
    if n == 0 then Working(h[0], h[1], h[2], h[3], h[4], h[5], h[6], h[7])
    else Round(Rounds(h, m, n - 1), K[n - 1], W(m, n - 1))
  }

  function Plus(x: bv32, y: bv32): bv32 { x + y }

  function AddWorking(h: Hash, s: Working): Hash {
    [Plus(h[0], s.a), Plus(h[1], s.b), Plus(h[2], s.c), Plus(h[3], s.d),
     Plus(h[4], s.e), Plus(h[5], s.f), Plus(h[6], s.g), Plus(h[7], s.h)]
  }

  function Compress(h: Hash, m: Words): Hash {
    AddWorking(h, Rounds(h, m, 64))
  }

  /* ---------- Blocks, padding and the truncated hash ---------- */

  /** Four bytes as a word, most significant first. */
  function Word(b3: byte, b2: byte, b1: byte, b0: byte): bv32 {
    ((Bits(b3) as bv32) << 24) | ((Bits(b2) as bv32) << 16) | ((Bits(b1) as bv32) << 8) | (Bits(b0) as bv32)
  }

  function BlockWords(block: seq<byte>): Words
    requires |block| == 64
  {
    seq(16, i requires 0 <= i < 16 => Word(block[4 * i], block[4 * i + 1], block[4 * i + 2], block[4 * i + 3]))
  }

  function HashBlocks(m: seq<byte>): Hash
    requires |m| % 64 == 0
  {
    if m == [] then H0
    else Compress(HashBlocks(m[..|m| - 64]), BlockWords(m[|m| - 64..]))
  }

  /** The byte of `n` whose weight is `unit`. */
  function ByteAt(n: nat, unit: nat): byte
    requires unit > 0
  {
    n / unit % 256
  }

  function BigEndian32(n: nat): (s: seq<byte>)
    ensures |s| == 4
  {
    [ByteAt(n, 0x100_0000), ByteAt(n, 0x1_0000), ByteAt(n, 0x100), ByteAt(n, 1)]
  }

  function BigEndian64(n: nat): (s: seq<byte>)
    ensures |s| == 8
  {
    [ByteAt(n, 0x100_0000_0000_0000), ByteAt(n, 0x1_0000_0000_0000),
     ByteAt(n, 0x100_0000_0000), ByteAt(n, 0x1_0000_0000)] + BigEndian32(n)
  }

  /** How many zero bytes stand between the 0x80 marker and the length (section 5.1.1). */
  function ZeroCount(n: nat): nat { (119 - n % 64) % 64 }

  function Padding(n: nat, bits: nat): (p: seq<byte>)
    ensures |p| == ZeroCount(n) + 9
  {
    [0x80] + Zeros(ZeroCount(n)) + BigEndian64(bits)
  }

  /** The padding is the shortest that leaves exactly eight bytes for the length in the last block. */
  lemma PaddingIsMinimal(n: nat, bits: nat, z: nat)
    ensures (n + |Padding(n, bits)|) % 64 == 0
    ensures (n + 1 + z) % 64 == 56 ==> ZeroCount(n) <= z
  {
    assert |Padding(n, bits)| == ZeroCount(n) + 9;
    hide Padding;
    var q, r := n / 64, n % 64;
    assert ZeroCount(n) == if r < 56 then 55 - r else 119 - r;
    assert n + ZeroCount(n) + 9 == 64 * (q + if r < 56 then 1 else 2);
  }

  function WordBytes(x: bv32): (s: seq<byte>)
    ensures |s| == 4
  {
    [Unbits(((x >> 24) & 0xFF) as bv8), Unbits(((x >> 16) & 0xFF) as bv8),
     Unbits(((x >> 8) & 0xFF) as bv8), Unbits((x & 0xFF) as bv8)]
  }

  function First48(h: Hash): (r: seq<byte>)
    ensures |r| == 6
  {
    WordBytes(h[0]) + WordBytes(h[1])[..2]
  }

  /** First 48 bits of the hash, with the padding's length field given separately. */
  function HashWithCount(m: seq<byte>, bits: nat): seq<byte> {
    PaddingIsMinimal(|m|, bits, 0);
    First48(HashBlocks(m + Padding(|m|, bits)))
  }

  /** The bit length of an n-byte message, as the 64-bit length field carries it. */
  function TrueCount(n: nat): nat { 8 * n % TWO_64 }

  /** First 48 bits of SHA-256 of `m`; section 5.1.1 defines it for messages under 2^64 bits. */
  function Sha48(m: seq<byte>): (r: seq<byte>)
    ensures |r| == 6
  {
    HashWithCount(m, TrueCount(|m|))
  }

  /* ---------- The context ---------- */

  function Floor(m: seq<byte>): (f: seq<byte>)
    ensures |f| % 64 == 0
  {
    m[..|m| - |m| % 64]
  }

  function Tail(m: seq<byte>): (t: seq<byte>)
    ensures |t| == |m| % 64
  {
    m[|m| - |m| % 64..]
  }

  lemma AbsorbPart(m: seq<byte>, x: seq<byte>)
    requires |m| % 64 + |x| < 64
    ensures Floor(m + x) == Floor(m) && Tail(m + x) == Tail(m) + x
  {
    assert |m + x| % 64 == |m| % 64 + |x|;
  }

  lemma HashOneMore(m: seq<byte>, block: seq<byte>)
    requires |m| % 64 == 0 && |block| == 64
    ensures |m + block| % 64 == 0
    ensures HashBlocks(m + block) == Compress(HashBlocks(m), BlockWords(block))
  {
    hide Compress, BlockWords;
    assert (m + block)[..|m|] == m;
    assert (m + block)[|m|..] == block;
  }

  lemma FullBlock(n: nat, k: nat)
    requires n % 64 + k == 64
    ensures (n + k) % 64 == 0
  {}

  lemma AbsorbBlock(m: seq<byte>, x: seq<byte>)
    requires |m| % 64 + |x| == 64
    ensures |m + x| % 64 == 0 && Floor(m + x) == m + x && Tail(m + x) == []
    ensures HashBlocks(m + x) == Compress(HashBlocks(Floor(m)), BlockWords(Tail(m) + x))
  {
    hide Compress, BlockWords, HashBlocks;
    FullBlock(|m|, |x|);
    assert m + x == Floor(m) + (Tail(m) + x);
    HashOneMore(Floor(m), Tail(m) + x);
  }

  lemma {:induction false} Gap(d: nat, a: nat, b: nat)
    ensures a < b ==> d * a + d <= d * b
  {
    if a < b {
      Gap(d, a, b - 1);
      assert d * b == d * (b - 1) + d;
    }
  }

  lemma Divide(n: nat, d: nat, q: nat, r: nat)
    requires n == d * q + r && r < d
    ensures n / d == q && n % d == r
  {
    Gap(d, q, n / d);
    Gap(d, n / d, q);
  }

  /** Bytes of the low word: the high word is a multiple of 2^32 and drops out. */
  lemma LowWordByte(lo: nat, hi: nat, d: nat, e: nat)
    requires lo < TWO_32 && d * e * 256 == TWO_32 && d > 0
    ensures (lo + TWO_32 * hi) / d % 256 == lo / d % 256
  {
    var q, r := lo / d, lo % d;
    assert lo + TWO_32 * hi == d * (q + 256 * (e * hi)) + r by {
      assert d * (256 * (e * hi)) == (d * e * 256) * hi;
    }
    Divide(lo + TWO_32 * hi, d, q + 256 * (e * hi), r);
    Divide(q + 256 * (e * hi), 256, q / 256 + e * hi, q % 256);
  }

  /** Bytes of the high word: dividing by 2^32 first removes the low word. */
  lemma HighWordByte(lo: nat, hi: nat, d: nat)
    requires lo < TWO_32 && d > 0
    ensures (lo + TWO_32 * hi) / (TWO_32 * d) == hi / d
  {
    var q, r := hi / d, hi % d;
    assert TWO_32 * hi == (TWO_32 * d) * q + TWO_32 * r;
    assert TWO_32 * r <= TWO_32 * (d - 1);
    Divide(lo + TWO_32 * hi, TWO_32 * d, q, lo + TWO_32 * r);
  }

  lemma SplitCount(lo: nat, hi: nat)
    requires lo < TWO_32
    ensures BigEndian64(lo + TWO_32 * hi) == BigEndian32(hi) + BigEndian32(lo)
  {
    HighWordByte(lo, hi, 0x100_0000);
    HighWordByte(lo, hi, 0x1_0000);
    HighWordByte(lo, hi, 0x100);
    HighWordByte(lo, hi, 1);
    LowWordByte(lo, hi, 0x100_0000, 1);
    LowWordByte(lo, hi, 0x1_0000, 0x100);
    LowWordByte(lo, hi, 0x100, 0x1_0000);
    LowWordByte(lo, hi, 1, 0x100_0000);
  }

  class Context {
    var sz0: nat
    var sz1: nat
    const counter: array<bv32>
    const save: array<byte>
    ghost var total: seq<byte>   // everything absorbed since init

    ghost predicate Valid()
      reads this, counter, save
    {
      && counter.Length == 8 && save.Length == 64
      && sz0 < TWO_32 && sz1 < TWO_32
      && (sz0 / 8) % 64 == |total| % 64
      && Holds(total)
    }

    /** The state words hash the full blocks of `m`, the buffer keeps what is left over. */
    ghost predicate Holds(m: seq<byte>)
      requires save.Length == 64
      reads counter, save
    {
      counter[..] == HashBlocks(Floor(m)) && save[..|m| % 64] == Tail(m)
    }

    /** The 64-bit count held in the two words. */
    ghost function BitCount(): nat
      reads this
    {
      sz0 + TWO_32 * sz1
    }

    constructor Init()
      ensures Valid() && fresh(counter) && fresh(save)
      ensures total == [] && BitCount() == 0
    {
      sz0, sz1 := 0, 0;
      counter := new bv32[8](i requires 0 <= i < 8 => H0[i]);
      save := new byte[64](_ => 0);
      total := [];
      new;
      assert counter[..] == H0;
    }

    /** mavlink_sha256_calc, first half: the message schedule. */
    method Schedule(block: array<bv32>) returns (data: array<bv32>)
      requires block.Length == 16
      ensures fresh(data) && data.Length == 64
      ensures forall j :: 0 <= j < 64 ==> data[j] == W(block[..], j)
    {
      hide Expand;
      data := new bv32[64];
      var i := 0;
      while i < 16
        invariant 0 <= i <= 16
        invariant forall j :: 0 <= j < i ==> data[j] == W(block[..], j)
      {
        data[i] := block[i];
        i := i + 1;
      }
      while i < 64
        invariant 16 <= i <= 64
        invariant forall j :: 0 <= j < i ==> data[j] == W(block[..], j)
      {
        data[i] := Expand(data[i - 2], data[i - 7], data[i - 15], data[i - 16]);
        i := i + 1;
      }
    }

    /** mavlink_sha256_calc, second half: sixty-four rounds, then add into the state. */
    method Calc(block: array<bv32>)
      requires counter.Length == 8 && block.Length == 16 && block != counter
      modifies counter
      ensures counter[..] == Compress(old(counter[..]), block[..])
    {
      hide K, Round, W, AddWorking;
      KLength();
      var data := Schedule(block);
      var s := Working(counter[0], counter[1], counter[2], counter[3],
                       counter[4], counter[5], counter[6], counter[7]);
      var i := 0;
      while i < 64
        invariant 0 <= i <= 64
        invariant counter[..] == old(counter[..])
        invariant s == Rounds(counter[..], block[..], i)
      {
        s := Round(s, K[i], data[i]);
        i := i + 1;
      }
      AddState(s);
    }

    method AddState(s: Working)
      requires counter.Length == 8
      modifies counter
      ensures counter[..] == AddWorking(old(counter[..]), s)
    {
      hide Plus;
      ghost var h := counter[..];
      AddFour(0, s.a, s.b, s.c, s.d);
      AddFour(4, s.e, s.f, s.g, s.h);
      assert counter[0] == Plus(h[0], s.a) && counter[1] == Plus(h[1], s.b) && counter[2] == Plus(h[2], s.c) && counter[3] == Plus(h[3], s.d);
      assert counter[4] == Plus(h[4], s.e) && counter[5] == Plus(h[5], s.f) && counter[6] == Plus(h[6], s.g) && counter[7] == Plus(h[7], s.h);
    }

    method AddFour(at: nat, w: bv32, x: bv32, y: bv32, z: bv32)
      requires at + 4 <= counter.Length
      modifies counter
      ensures counter[at] == Plus(old(counter[at]), w) && counter[at + 1] == Plus(old(counter[at + 1]), x)
      ensures counter[at + 2] == Plus(old(counter[at + 2]), y) && counter[at + 3] == Plus(old(counter[at + 3]), z)
      ensures forall i :: 0 <= i < counter.Length && !(at <= i < at + 4) ==> counter[i] == old(counter[i])
    {
      hide Plus;
      counter[at] := Plus(counter[at], w);
      counter[at + 1] := Plus(counter[at + 1], x);
      counter[at + 2] := Plus(counter[at + 2], y);
      counter[at + 3] := Plus(counter[at + 3], z);
    }

    /** Byte-swap the full buffer into words and compress it. */
    method CompressBuffer()
      requires counter.Length == 8 && save.Length == 64
      modifies counter
      ensures counter[..] == Compress(old(counter[..]), BlockWords(save[..]))
    {
      hide Word, Compress;
      var current := new bv32[16];
      var i := 0;
      while i < 16
        invariant 0 <= i <= 16
        invariant counter[..] == old(counter[..])
        invariant forall j :: 0 <= j < i ==>
          current[j] == Word(save[4 * j], save[4 * j + 1], save[4 * j + 2], save[4 * j + 3])
      {
        current[i] := Word(save[4 * i], save[4 * i + 1], save[4 * i + 2], save[4 * i + 3]);
        i := i + 1;
      }
      assert current[..] == BlockWords(save[..]);
      Calc(current);
      assert save[..] == old(save[..]);
    }

    method CopyIn(v: seq<byte>, offset: nat)
      requires offset + |v| <= save.Length == 64
      modifies save
      ensures save[..offset + |v|] == old(save[..offset]) + v
    {
      var i := 0;
      while i < |v|
        invariant 0 <= i <= |v|
        invariant save[..offset + i] == old(save[..offset]) + v[..i]
      {
        save[offset + i] := v[i];
        i := i + 1;
      }
      assert v[..i] == v;
    }

    /** One turn of the update loop: copy, and compress when the buffer is full. */
    method Turn(x: seq<byte>, offset: nat, ghost m: seq<byte>) returns (next: nat)
      requires counter.Length == 8 && save.Length == 64 && Holds(m)
      requires offset == |m| % 64 && offset + |x| <= 64
      modifies counter, save
      ensures Holds(m + x) && next == |m + x| % 64
    {
      hide HashBlocks, Compress, BlockWords;
      CopyIn(x, offset);
      next := offset + |x|;
      if next == 64 {
        AbsorbBlock(m, x);
        assert save[..] == Tail(m) + x;
        CompressBuffer();
        next := 0;
      } else {
        AbsorbPart(m, x);
      }
    }

    /** The length bookkeeping at the head of update; returns the buffer offset before it. */
    method Count(len: nat) returns (offset: nat)
      requires sz0 < TWO_32 && sz1 < TWO_32 && len < TWO_32
      modifies this`sz0, this`sz1
      ensures sz0 < TWO_32 && sz1 < TWO_32
      ensures BitCount() == CountAfter(old(BitCount()), len)
      ensures offset == (old(sz0) / 8) % 64 && (sz0 / 8) % 64 == (offset + len) % 64
    {
      var oldSz := sz0;
      sz0 := (sz0 + len * 8) % TWO_32;
      if sz0 < oldSz {
        sz1 := (sz1 + 1) % TWO_32;
      }
      CountAdds(oldSz, old(sz1), len, sz0, sz1);
      offset := (oldSz / 8) % 64;
    }

    method Update(v: seq<byte>)
      requires Valid() && |v| < TWO_32
      modifies this`sz0, this`sz1, this`total, counter, save
      ensures Valid() && total == old(total) + v
      ensures BitCount() == CountAfter(old(BitCount()), |v|)
    {
      hide Holds, CountAfter;
      var offset := Count(|v|);
      var n := 0;
      ghost var lo, hi := sz0, sz1;
      assert total + v[..0] == total;
      while n < |v|
        invariant 0 <= n <= |v|
        invariant sz0 == lo && sz1 == hi && total == old(total)
        invariant offset == |total + v[..n]| % 64
        invariant Holds(total + v[..n])
      {
        var l := if |v| - n < 64 - offset then |v| - n else 64 - offset;
        assert total + v[..n + l] == (total + v[..n]) + v[n..n + l];
        offset := Turn(v[n..n + l], offset, total + v[..n]);
        n := n + l;
      }
      assert v[..n] == v;
      LengthMod(|total|, |v|);
      assert Holds(total + v);
      total := total + v;
    }

    /** The local array of final_48: marker, zeros and the bit count, most significant byte first. */
    static method FillPad(dstart: nat, hi: nat, lo: nat) returns (pad: seq<byte>)
      requires 1 <= dstart <= 64
      ensures pad == [0x80] + Zeros(dstart - 1) + (BigEndian32(hi) + BigEndian32(lo))
    {
      hide BigEndian32;
      var zeros := new byte[72](_ => 0);
      zeros[0] := 0x80;
      ghost var blank := zeros[..];
      assert blank == [0x80] + Zeros(71);
      PutWord(zeros, dstart + 4, lo);
      ghost var low := zeros[..];
      PutWord(zeros, dstart, hi);
      pad := zeros[..dstart + 8];
      TwoWords(blank, low, zeros[..], dstart, BigEndian32(hi), BigEndian32(lo));
      assert blank[..dstart] == [0x80] + Zeros(dstart - 1);
    }

    /** Writing a second word in front of a first leaves both after what came before. */
    static lemma TwoWords<T>(blank: seq<T>, low: seq<T>, both: seq<T>, at: nat, hi: seq<T>, lo: seq<T>)
      requires |hi| == |lo| == 4 && at + 8 <= |blank| && |low| == |blank|
      requires low == blank[..at + 4] + lo + blank[at + 8..]
      requires both == low[..at] + hi + low[at + 4..]
      ensures both[..at + 8] == blank[..at] + (hi + lo)
    {
      assert low[..at] == blank[..at];
      assert low[at + 4..at + 8] == lo;
      assert both[..at + 8] == low[..at] + hi + low[at + 4..at + 8];
    }

    static method PutWord(a: array<byte>, at: nat, w: nat)
      requires at + 4 <= a.Length
      modifies a
      ensures a[..] == old(a[..at]) + BigEndian32(w) + old(a[at + 4..])
    {
      hide ByteAt;
      a[at + 3] := ByteAt(w, 1);
      a[at + 2] := ByteAt(w, 0x100);
      a[at + 1] := ByteAt(w, 0x1_0000);
      a[at] := ByteAt(w, 0x100_0000);
      assert a[..at] == old(a[..at]);
      assert a[at + 4..] == old(a[at + 4..]);
      assert a[at..at + 4] == BigEndian32(w);
    }

    method Pad() returns (pad: seq<byte>)
      requires sz0 < TWO_32 && sz1 < TWO_32
      ensures pad == Padding(sz0 / 8, BitCount())
    {
      hide BigEndian32, BigEndian64;
      var offset := (sz0 / 8) % 64;
      var dstart := (120 - offset - 1) % 64 + 1;
      SplitCount(sz0, sz1);
      pad := FillPad(dstart, sz1, sz0);
    }

    /** First 48 bits of the digest: pad through Update, then read the state big-endian first. */
    method Final48() returns (result: seq<byte>)
      requires Valid()
      modifies this`sz0, this`sz1, this`total, counter, save
      ensures Valid()
      ensures result == HashWithCount(old(total), old(BitCount()))
    {
      hide HashBlocks, WordBytes, Padding, Holds;
      ghost var m, bits := total, BitCount();
      var pad := Pad();
      PaddingDependsOnOffset(sz0 / 8, |m|, bits);
      PaddingIsMinimal(|m|, bits, 0);
      Update(pad);
      HoldsWhole(m + pad);
      var w0, w1 := WordBytes(counter[0]), WordBytes(counter[1]);
      result := [w0[0], w0[1], w0[2], w0[3], w1[0], w1[1]];
    }

    lemma HoldsWhole(m: seq<byte>)
      requires save.Length == 64 && |m| % 64 == 0 && Holds(m)
      ensures counter[..] == HashBlocks(m)
    {
      hide HashBlocks;
      assert Floor(m) == m;
    }
  }

  lemma PaddingDependsOnOffset(n: nat, k: nat, bits: nat)
    requires n % 64 == k % 64
    ensures Padding(n, bits) == Padding(k, bits)
  {}

  /** What the count becomes when `len` bytes are added: the product len * 8 is a 32-bit one. */
  function CountAfter(bits: nat, len: nat): nat {
    (bits + len * 8 % TWO_32) % TWO_64
  }

  /** The 64-bit addition, carried by hand between two 32-bit words. */
  lemma CountAdds(lo: nat, hi: nat, len: nat, lo': nat, hi': nat)
    requires lo < TWO_32 && hi < TWO_32 && len < TWO_32
    requires lo' == (lo + len * 8) % TWO_32
    requires hi' == if lo' < lo then (hi + 1) % TWO_32 else hi
    ensures lo' + TWO_32 * hi' == CountAfter(lo + TWO_32 * hi, len)
    ensures (lo' / 8) % 64 == ((lo / 8) % 64 + len) % 64
  {
    var p, k := len * 8 % TWO_32, len * 8 / TWO_32;
    assert len * 8 == TWO_32 * k + p;
    var c := if lo + p < TWO_32 then 0 else 1;
    Divide(lo + len * 8, TWO_32, k + c, lo + p - TWO_32 * c);
    assert lo' == lo + p - TWO_32 * c;
    assert hi' == (hi + c) % TWO_32;
    var w := (hi + c) / TWO_32;
    Divide(lo + TWO_32 * hi + p, TWO_64, w, lo' + TWO_32 * hi');
    CountLow(lo, len, lo', k + c);
  }

  lemma LengthMod(n: nat, k: nat)
    ensures (n % 64 + k) % 64 == (n + k) % 64
  {}

  lemma CountLow(lo: nat, len: nat, lo': nat, k: nat)
    requires lo' + TWO_32 * k == lo + len * 8
    ensures (lo' / 8) % 64 == ((lo / 8) % 64 + len) % 64
  {
    Divide(lo + len * 8, 8, lo / 8 + len, lo % 8);
    Divide(lo' + TWO_32 * k, 8, lo' / 8 + TWO_29 * k, lo' % 8);
    assert lo' / 8 + TWO_29 * k == lo / 8 + len;
    Divide(lo' / 8 + TWO_29 * k, 64, lo' / 8 / 64 + 0x80_0000 * k, lo' / 8 % 64);
  }

  /** The count stays the true bit length exactly when the update is under 2^29 bytes. */
  lemma CountIsExactIffShort(n: nat, len: nat)
    requires len < TWO_32
    ensures CountAfter(TrueCount(n), len) == TrueCount(n + len) <==> len < TWO_29
  {
    var k := len / TWO_29;
    var r := len % TWO_29;
    Divide(len * 8, TWO_32, k, 8 * r);
    var q := 8 * n / TWO_64;
    var c := 8 * n % TWO_64;
    assert 8 * (n + len) == TWO_64 * q + (c + 8 * r + TWO_32 * k);
    SameRemainder(c + 8 * r, TWO_32 * k, q);
  }

  lemma SameRemainder(a: nat, x: nat, q: nat)
    requires x < TWO_64
    ensures a % TWO_64 == (TWO_64 * q + (a + x)) % TWO_64 <==> x == 0
  {
    var u, v := a / TWO_64, a % TWO_64;
    if v + x < TWO_64 {
      Divide(TWO_64 * q + (a + x), TWO_64, q + u, v + x);
    } else {
      Divide(TWO_64 * q + (a + x), TWO_64, q + u + 1, v + x - TWO_64);
    }
  }

  lemma TrueCountZero()
    ensures TrueCount(0) == 0
  {}

  function Concat(parts: seq<seq<byte>>): seq<byte> {
    if parts == [] then [] else Concat(parts[..|parts| - 1]) + parts[|parts| - 1]
  }

  /** One init, any run of updates, one final: only the concatenation matters. */
  method HashParts(parts: seq<seq<byte>>) returns (result: seq<byte>)
    requires forall p :: p in parts ==> |p| < TWO_29
    ensures result == Sha48(Concat(parts))
  {
    hide HashWithCount, CountAfter, TrueCount, Context.Valid, Context.BitCount;
    assert TrueCount(0) == 0 by { TrueCountZero(); }
    var ctx := new Context.Init();
    var i := 0;
    assert parts[..0] == [];
    while i < |parts|
      invariant 0 <= i <= |parts|
      invariant ctx.Valid() && fresh(ctx) && fresh(ctx.counter) && fresh(ctx.save)
      invariant ctx.total == Concat(parts[..i])
      invariant ctx.BitCount() == TrueCount(|ctx.total|)
    {
      assert parts[i] in parts;
      assert parts[..i + 1][..i] == parts[..i];
      CountIsExactIffShort(|ctx.total|, |parts[i]|);
      ctx.Update(parts[i]);
      i := i + 1;
    }
    assert parts[..i] == parts;
    result := ctx.Final48();
  }
}
