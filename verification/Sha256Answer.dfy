/** What the functions and constants of SHA-256 are, and the hash of "abc" worked out step by step. */
module Sha256Answer {
  import opened ByteBits
  import opened Bytes
  import opened Sha256

  /* ---------- The functions (FIPS 180-4, sections 3.2 and 4.1.2) ---------- */

  /** Rotr turns the word by that many bit positions, for every amount in use. */
  lemma Rotation(x: bv32)
    ensures Rotr(x, 2) == x.RotateRight(2) && Rotr(x, 13) == x.RotateRight(13) && Rotr(x, 22) == x.RotateRight(22)
    ensures Rotr(x, 6) == x.RotateRight(6) && Rotr(x, 11) == x.RotateRight(11) && Rotr(x, 25) == x.RotateRight(25)
    ensures Rotr(x, 7) == x.RotateRight(7) && Rotr(x, 18) == x.RotateRight(18)
    ensures Rotr(x, 17) == x.RotateRight(17) && Rotr(x, 19) == x.RotateRight(19)
  {}

  /** Bit by bit (any mask m): Ch takes y where x is set and z where it is not. */
  lemma Choice(x: bv32, y: bv32, z: bv32, m: bv32)
    ensures x & m == m ==> Ch(x, y, z) & m == y & m
    ensures x & m == 0 ==> Ch(x, y, z) & m == z & m
  {}

  /** Bit by bit: Maj takes what two of the three agree on. */
  lemma Majority(x: bv32, y: bv32, z: bv32, m: bv32)
    ensures x & m == y & m ==> Maj(x, y, z) & m == x & m
  {}

  lemma MajorityLast(x: bv32, y: bv32, z: bv32, m: bv32)
    ensures y & m == z & m ==> Maj(x, y, z) & m == y & m
  {}

  lemma MajorityOuter(x: bv32, y: bv32, z: bv32, m: bv32)
    ensures x & m == z & m ==> Maj(x, y, z) & m == x & m
  {}

  /** The other four by the rotations and shifts of section 4.1.2. */
  function TurnedBig0(x: bv32): bv32 { Xor3(x.RotateRight(2), x.RotateRight(13), x.RotateRight(22)) }

  function TurnedBig1(x: bv32): bv32 { Xor3(x.RotateRight(6), x.RotateRight(11), x.RotateRight(25)) }

  function Turned0(x: bv32): bv32 { Xor3(x.RotateRight(7), x.RotateRight(18), x >> 3) }

  function Turned1(x: bv32): bv32 { Xor3(x.RotateRight(17), x.RotateRight(19), x >> 10) }

  lemma SumsByRotation(x: bv32)
    ensures BigSigma0(x) == TurnedBig0(x) && BigSigma1(x) == TurnedBig1(x) && Sigma0(x) == Turned0(x) && Sigma1(x) == Turned1(x)
  {
    hide Rotr, Xor3;
    Rotation(x);
  }

  /** One round and one schedule word in those terms. */
  function TurnedRound(s: Working, k: bv32, w: bv32): Working {
    Mixed(s, TurnedBig1(s.e), Ch(s.e, s.f, s.g), k, w, TurnedBig0(s.a), Maj(s.a, s.b, s.c))
  }

  function Added(a: bv32, b: bv32, c: bv32, d: bv32): bv32 { a + b + c + d }

  function TurnedWord(w2: bv32, w7: bv32, w15: bv32, w16: bv32): bv32 {
    Added(Turned1(w2), w7, Turned0(w15), w16)
  }

  lemma RoundIsTurned(s: Working, k: bv32, w: bv32)
    ensures Round(s, k, w) == TurnedRound(s, k, w)
  {
    hide BigSigma0, BigSigma1, Ch, Maj, Mixed, TurnedBig0, TurnedBig1;
    SumsByRotation(s.a);
    SumsByRotation(s.e);
  }

  lemma WordIsAdded(w2: bv32, w7: bv32, w15: bv32, w16: bv32)
    ensures Expand(w2, w7, w15, w16) == Added(Sigma1(w2), w7, Sigma0(w15), w16)
  {
    hide Sigma0, Sigma1;
  }

  lemma WordIsTurned(w2: bv32, w7: bv32, w15: bv32, w16: bv32)
    ensures Expand(w2, w7, w15, w16) == TurnedWord(w2, w7, w15, w16)
  {
    hide Sigma0, Sigma1, Added, Expand, Turned0, Turned1;
    WordIsAdded(w2, w7, w15, w16);
    SumsByRotation(w2);
    SumsByRotation(w15);
  }

  /* ---------- The constants (sections 4.2.2 and 5.3.3) ---------- */

  /** The first 32 bits of the fractional part of the cube root of p, whose whole part is n. */
  predicate CubeRootBits(p: nat, n: nat, fraction: nat) {
    var r := 0x1_0000_0000 * n + fraction;
    fraction < 0x1_0000_0000 && r * r * r <= p * 0x1_0000_0000_0000_0000_0000_0000 < (r + 1) * (r + 1) * (r + 1)
  }

  /** The same of the square root. */
  predicate SquareRootBits(p: nat, n: nat, fraction: nat) {
    var r := 0x1_0000_0000 * n + fraction;
    fraction < 0x1_0000_0000 && r * r <= p * 0x1_0000_0000_0000_0000 < (r + 1) * (r + 1)
  }

  /** From the first eight primes. */
  lemma CubeRoots0()
    ensures CubeRootBits(2, 1, K[0] as nat)
    ensures CubeRootBits(3, 1, K[1] as nat)
    ensures CubeRootBits(5, 1, K[2] as nat)
    ensures CubeRootBits(7, 1, K[3] as nat)
    ensures CubeRootBits(11, 2, K[4] as nat)
    ensures CubeRootBits(13, 2, K[5] as nat)
    ensures CubeRootBits(17, 2, K[6] as nat)
    ensures CubeRootBits(19, 2, K[7] as nat)
  {
    hide CubeRootBits;
    CubeRootLiterals0();
    Constants0();
  }

  lemma CubeRootLiterals0()
    ensures CubeRootBits(2, 1, 0x428a2f98)
    ensures CubeRootBits(3, 1, 0x71374491)
    ensures CubeRootBits(5, 1, 0xb5c0fbcf)
    ensures CubeRootBits(7, 1, 0xe9b5dba5)
    ensures CubeRootBits(11, 2, 0x3956c25b)
    ensures CubeRootBits(13, 2, 0x59f111f1)
    ensures CubeRootBits(17, 2, 0x923f82a4)
    ensures CubeRootBits(19, 2, 0xab1c5ed5)
  {}

  lemma Constants0()
    ensures K[0] == 0x428a2f98 && K[1] == 0x71374491 && K[2] == 0xb5c0fbcf && K[3] == 0xe9b5dba5
    ensures K[4] == 0x3956c25b && K[5] == 0x59f111f1 && K[6] == 0x923f82a4 && K[7] == 0xab1c5ed5
  {}

  /** From the next eight primes. */
  lemma CubeRoots8()
    ensures CubeRootBits(23, 2, K[8] as nat)
    ensures CubeRootBits(29, 3, K[9] as nat)
    ensures CubeRootBits(31, 3, K[10] as nat)
    ensures CubeRootBits(37, 3, K[11] as nat)
    ensures CubeRootBits(41, 3, K[12] as nat)
    ensures CubeRootBits(43, 3, K[13] as nat)
    ensures CubeRootBits(47, 3, K[14] as nat)
    ensures CubeRootBits(53, 3, K[15] as nat)
  {
    hide CubeRootBits;
    CubeRootLiterals8();
    Constants8();
  }

  lemma CubeRootLiterals8()
    ensures CubeRootBits(23, 2, 0xd807aa98)
    ensures CubeRootBits(29, 3, 0x12835b01)
    ensures CubeRootBits(31, 3, 0x243185be)
    ensures CubeRootBits(37, 3, 0x550c7dc3)
    ensures CubeRootBits(41, 3, 0x72be5d74)
    ensures CubeRootBits(43, 3, 0x80deb1fe)
    ensures CubeRootBits(47, 3, 0x9bdc06a7)
    ensures CubeRootBits(53, 3, 0xc19bf174)
  {}

  lemma Constants8()
    ensures K[8] == 0xd807aa98 && K[9] == 0x12835b01 && K[10] == 0x243185be && K[11] == 0x550c7dc3
    ensures K[12] == 0x72be5d74 && K[13] == 0x80deb1fe && K[14] == 0x9bdc06a7 && K[15] == 0xc19bf174
  {}

  /** From the next eight primes. */
  lemma CubeRoots16()
    ensures CubeRootBits(59, 3, K[16] as nat)
    ensures CubeRootBits(61, 3, K[17] as nat)
    ensures CubeRootBits(67, 4, K[18] as nat)
    ensures CubeRootBits(71, 4, K[19] as nat)
    ensures CubeRootBits(73, 4, K[20] as nat)
    ensures CubeRootBits(79, 4, K[21] as nat)
    ensures CubeRootBits(83, 4, K[22] as nat)
    ensures CubeRootBits(89, 4, K[23] as nat)
  {
    hide CubeRootBits;
    CubeRootLiterals16();
    Constants16();
  }

  lemma CubeRootLiterals16()
    ensures CubeRootBits(59, 3, 0xe49b69c1)
    ensures CubeRootBits(61, 3, 0xefbe4786)
    ensures CubeRootBits(67, 4, 0x0fc19dc6)
    ensures CubeRootBits(71, 4, 0x240ca1cc)
    ensures CubeRootBits(73, 4, 0x2de92c6f)
    ensures CubeRootBits(79, 4, 0x4a7484aa)
    ensures CubeRootBits(83, 4, 0x5cb0a9dc)
    ensures CubeRootBits(89, 4, 0x76f988da)
  {}

  lemma Constants16()
    ensures K[16] == 0xe49b69c1 && K[17] == 0xefbe4786 && K[18] == 0x0fc19dc6 && K[19] == 0x240ca1cc
    ensures K[20] == 0x2de92c6f && K[21] == 0x4a7484aa && K[22] == 0x5cb0a9dc && K[23] == 0x76f988da
  {}

  /** From the next eight primes. */
  lemma CubeRoots24()
    ensures CubeRootBits(97, 4, K[24] as nat)
    ensures CubeRootBits(101, 4, K[25] as nat)
    ensures CubeRootBits(103, 4, K[26] as nat)
    ensures CubeRootBits(107, 4, K[27] as nat)
    ensures CubeRootBits(109, 4, K[28] as nat)
    ensures CubeRootBits(113, 4, K[29] as nat)
    ensures CubeRootBits(127, 5, K[30] as nat)
    ensures CubeRootBits(131, 5, K[31] as nat)
  {
    hide CubeRootBits;
    CubeRootLiterals24();
    Constants24();
  }

  lemma CubeRootLiterals24()
    ensures CubeRootBits(97, 4, 0x983e5152)
    ensures CubeRootBits(101, 4, 0xa831c66d)
    ensures CubeRootBits(103, 4, 0xb00327c8)
    ensures CubeRootBits(107, 4, 0xbf597fc7)
    ensures CubeRootBits(109, 4, 0xc6e00bf3)
    ensures CubeRootBits(113, 4, 0xd5a79147)
    ensures CubeRootBits(127, 5, 0x06ca6351)
    ensures CubeRootBits(131, 5, 0x14292967)
  {}

  lemma Constants24()
    ensures K[24] == 0x983e5152 && K[25] == 0xa831c66d && K[26] == 0xb00327c8 && K[27] == 0xbf597fc7
    ensures K[28] == 0xc6e00bf3 && K[29] == 0xd5a79147 && K[30] == 0x06ca6351 && K[31] == 0x14292967
  {}

  /** From the next eight primes. */
  lemma CubeRoots32()
    ensures CubeRootBits(137, 5, K[32] as nat)
    ensures CubeRootBits(139, 5, K[33] as nat)
    ensures CubeRootBits(149, 5, K[34] as nat)
    ensures CubeRootBits(151, 5, K[35] as nat)
    ensures CubeRootBits(157, 5, K[36] as nat)
    ensures CubeRootBits(163, 5, K[37] as nat)
    ensures CubeRootBits(167, 5, K[38] as nat)
    ensures CubeRootBits(173, 5, K[39] as nat)
  {
    hide CubeRootBits;
    CubeRootLiterals32();
    Constants32();
  }

  lemma CubeRootLiterals32()
    ensures CubeRootBits(137, 5, 0x27b70a85)
    ensures CubeRootBits(139, 5, 0x2e1b2138)
    ensures CubeRootBits(149, 5, 0x4d2c6dfc)
    ensures CubeRootBits(151, 5, 0x53380d13)
    ensures CubeRootBits(157, 5, 0x650a7354)
    ensures CubeRootBits(163, 5, 0x766a0abb)
    ensures CubeRootBits(167, 5, 0x81c2c92e)
    ensures CubeRootBits(173, 5, 0x92722c85)
  {}

  lemma Constants32()
    ensures K[32] == 0x27b70a85 && K[33] == 0x2e1b2138 && K[34] == 0x4d2c6dfc && K[35] == 0x53380d13
    ensures K[36] == 0x650a7354 && K[37] == 0x766a0abb && K[38] == 0x81c2c92e && K[39] == 0x92722c85
  {}

  /** From the next eight primes. */
  lemma CubeRoots40()
    ensures CubeRootBits(179, 5, K[40] as nat)
    ensures CubeRootBits(181, 5, K[41] as nat)
    ensures CubeRootBits(191, 5, K[42] as nat)
    ensures CubeRootBits(193, 5, K[43] as nat)
    ensures CubeRootBits(197, 5, K[44] as nat)
    ensures CubeRootBits(199, 5, K[45] as nat)
    ensures CubeRootBits(211, 5, K[46] as nat)
    ensures CubeRootBits(223, 6, K[47] as nat)
  {
    hide CubeRootBits;
    CubeRootLiterals40();
    Constants40();
  }

  lemma CubeRootLiterals40()
    ensures CubeRootBits(179, 5, 0xa2bfe8a1)
    ensures CubeRootBits(181, 5, 0xa81a664b)
    ensures CubeRootBits(191, 5, 0xc24b8b70)
    ensures CubeRootBits(193, 5, 0xc76c51a3)
    ensures CubeRootBits(197, 5, 0xd192e819)
    ensures CubeRootBits(199, 5, 0xd6990624)
    ensures CubeRootBits(211, 5, 0xf40e3585)
    ensures CubeRootBits(223, 6, 0x106aa070)
  {}

  lemma Constants40()
    ensures K[40] == 0xa2bfe8a1 && K[41] == 0xa81a664b && K[42] == 0xc24b8b70 && K[43] == 0xc76c51a3
    ensures K[44] == 0xd192e819 && K[45] == 0xd6990624 && K[46] == 0xf40e3585 && K[47] == 0x106aa070
  {}

  /** From the next eight primes. */
  lemma CubeRoots48()
    ensures CubeRootBits(227, 6, K[48] as nat)
    ensures CubeRootBits(229, 6, K[49] as nat)
    ensures CubeRootBits(233, 6, K[50] as nat)
    ensures CubeRootBits(239, 6, K[51] as nat)
    ensures CubeRootBits(241, 6, K[52] as nat)
    ensures CubeRootBits(251, 6, K[53] as nat)
    ensures CubeRootBits(257, 6, K[54] as nat)
    ensures CubeRootBits(263, 6, K[55] as nat)
  {
    hide CubeRootBits;
    CubeRootLiterals48();
    Constants48();
  }

  lemma CubeRootLiterals48()
    ensures CubeRootBits(227, 6, 0x19a4c116)
    ensures CubeRootBits(229, 6, 0x1e376c08)
    ensures CubeRootBits(233, 6, 0x2748774c)
    ensures CubeRootBits(239, 6, 0x34b0bcb5)
    ensures CubeRootBits(241, 6, 0x391c0cb3)
    ensures CubeRootBits(251, 6, 0x4ed8aa4a)
    ensures CubeRootBits(257, 6, 0x5b9cca4f)
    ensures CubeRootBits(263, 6, 0x682e6ff3)
  {}

  lemma Constants48()
    ensures K[48] == 0x19a4c116 && K[49] == 0x1e376c08 && K[50] == 0x2748774c && K[51] == 0x34b0bcb5
    ensures K[52] == 0x391c0cb3 && K[53] == 0x4ed8aa4a && K[54] == 0x5b9cca4f && K[55] == 0x682e6ff3
  {}

  /** From the next eight primes. */
  lemma CubeRoots56()
    ensures CubeRootBits(269, 6, K[56] as nat)
    ensures CubeRootBits(271, 6, K[57] as nat)
    ensures CubeRootBits(277, 6, K[58] as nat)
    ensures CubeRootBits(281, 6, K[59] as nat)
    ensures CubeRootBits(283, 6, K[60] as nat)
    ensures CubeRootBits(293, 6, K[61] as nat)
    ensures CubeRootBits(307, 6, K[62] as nat)
    ensures CubeRootBits(311, 6, K[63] as nat)
  {
    hide CubeRootBits;
    CubeRootLiterals56();
    Constants56();
  }

  lemma CubeRootLiterals56()
    ensures CubeRootBits(269, 6, 0x748f82ee)
    ensures CubeRootBits(271, 6, 0x78a5636f)
    ensures CubeRootBits(277, 6, 0x84c87814)
    ensures CubeRootBits(281, 6, 0x8cc70208)
    ensures CubeRootBits(283, 6, 0x90befffa)
    ensures CubeRootBits(293, 6, 0xa4506ceb)
    ensures CubeRootBits(307, 6, 0xbef9a3f7)
    ensures CubeRootBits(311, 6, 0xc67178f2)
  {}

  lemma Constants56()
    ensures K[56] == 0x748f82ee && K[57] == 0x78a5636f && K[58] == 0x84c87814 && K[59] == 0x8cc70208
    ensures K[60] == 0x90befffa && K[61] == 0xa4506ceb && K[62] == 0xbef9a3f7 && K[63] == 0xc67178f2
  {}

  lemma SquareRootLiterals()
    ensures SquareRootBits(2, 1, 0x6a09e667)
    ensures SquareRootBits(3, 1, 0xbb67ae85)
    ensures SquareRootBits(5, 2, 0x3c6ef372)
    ensures SquareRootBits(7, 2, 0xa54ff53a)
    ensures SquareRootBits(11, 3, 0x510e527f)
    ensures SquareRootBits(13, 3, 0x9b05688c)
    ensures SquareRootBits(17, 4, 0x1f83d9ab)
    ensures SquareRootBits(19, 4, 0x5be0cd19)
  {}

  lemma SquareRoots()
    ensures SquareRootBits(2, 1, H0[0] as nat)
    ensures SquareRootBits(3, 1, H0[1] as nat)
    ensures SquareRootBits(5, 2, H0[2] as nat)
    ensures SquareRootBits(7, 2, H0[3] as nat)
    ensures SquareRootBits(11, 3, H0[4] as nat)
    ensures SquareRootBits(13, 3, H0[5] as nat)
    ensures SquareRootBits(17, 4, H0[6] as nat)
    ensures SquareRootBits(19, 4, H0[7] as nat)
  {
    hide SquareRootBits;
    SquareRootLiterals();
  }

  /* ---------- The hash of "abc" ---------- */

  /** The one block: the three letters, the marker, zeros, and 24 for the length. */
  const BLOCK: Words := [0x61626380, 0, 0, 0, 0, 0, 0, 0, 0, 0, 0, 0, 0, 0, 0, 24]

  lemma NextWord(t: nat, w2: bv32, w7: bv32, w15: bv32, w16: bv32, next: bv32)
    requires 16 <= t < 64 && W(BLOCK, t - 2) == w2 && W(BLOCK, t - 7) == w7 && W(BLOCK, t - 15) == w15 && W(BLOCK, t - 16) == w16
    requires TurnedWord(w2, w7, w15, w16) == next
    ensures W(BLOCK, t) == next
  {
    hide Expand, TurnedWord;
    WordIsTurned(w2, w7, w15, w16);
  }

  lemma NextRound(n: nat, s: Working, k: bv32, w: bv32, next: Working)
    requires n < 64 && Rounds(H0, BLOCK, n) == s && K[n] == k && W(BLOCK, n) == w && TurnedRound(s, k, w) == next
    ensures Rounds(H0, BLOCK, n + 1) == next
  {
    hide Round, TurnedRound, W;
    RoundIsTurned(s, k, w);
  }

  lemma FirstWords()
    ensures W(BLOCK, 0) == 0x61626380 && W(BLOCK, 15) == 24
    ensures forall t :: 1 <= t < 15 ==> W(BLOCK, t) == 0
  {}

  /** Eight schedule words from number t on. */
  predicate Scheduled(t: nat, w0: bv32, w1: bv32, w2: bv32, w3: bv32, w4: bv32, w5: bv32, w6: bv32, w7: bv32) {
    && t <= 56
    && W(BLOCK, t) == w0 && W(BLOCK, t + 1) == w1 && W(BLOCK, t + 2) == w2 && W(BLOCK, t + 3) == w3
    && W(BLOCK, t + 4) == w4 && W(BLOCK, t + 5) == w5 && W(BLOCK, t + 6) == w6 && W(BLOCK, t + 7) == w7
  }

  lemma Words16()
    ensures Scheduled(16, 0x61626380, 0x000f0000, 0x7da86405, 0x600003c6,
                      0x3e9d7b78, 0x0183fc00, 0x12dcbfdb, 0xe2e2c38e)
  {
    hide W, TurnedWord;
    FirstWords();
    TurnedWords16();
    NextWord(16, 0x00000000, 0x00000000, 0x00000000, 0x61626380, 0x61626380);
    NextWord(17, 0x00000018, 0x00000000, 0x00000000, 0x00000000, 0x000f0000);
    NextWord(18, 0x61626380, 0x00000000, 0x00000000, 0x00000000, 0x7da86405);
    NextWord(19, 0x000f0000, 0x00000000, 0x00000000, 0x00000000, 0x600003c6);
    NextWord(20, 0x7da86405, 0x00000000, 0x00000000, 0x00000000, 0x3e9d7b78);
    NextWord(21, 0x600003c6, 0x00000000, 0x00000000, 0x00000000, 0x0183fc00);
    NextWord(22, 0x3e9d7b78, 0x00000018, 0x00000000, 0x00000000, 0x12dcbfdb);
    NextWord(23, 0x0183fc00, 0x61626380, 0x00000000, 0x00000000, 0xe2e2c38e);
  }

  lemma TurnedWords16()
    ensures TurnedWord(0x00000000, 0x00000000, 0x00000000, 0x61626380) == 0x61626380
    ensures TurnedWord(0x00000018, 0x00000000, 0x00000000, 0x00000000) == 0x000f0000
    ensures TurnedWord(0x61626380, 0x00000000, 0x00000000, 0x00000000) == 0x7da86405
    ensures TurnedWord(0x000f0000, 0x00000000, 0x00000000, 0x00000000) == 0x600003c6
    ensures TurnedWord(0x7da86405, 0x00000000, 0x00000000, 0x00000000) == 0x3e9d7b78
    ensures TurnedWord(0x600003c6, 0x00000000, 0x00000000, 0x00000000) == 0x0183fc00
    ensures TurnedWord(0x3e9d7b78, 0x00000018, 0x00000000, 0x00000000) == 0x12dcbfdb
    ensures TurnedWord(0x0183fc00, 0x61626380, 0x00000000, 0x00000000) == 0xe2e2c38e
  {}

  lemma Words24()
    ensures Scheduled(24, 0xc8215c1a, 0xb73679a2, 0xe5bc3909, 0x32663c5b,
                      0x9d209d67, 0xec8726cb, 0x702138a4, 0xd3b7973b)
  {
    hide W, TurnedWord;
    FirstWords();
    Words16();
    TurnedWords24();
    NextWord(24, 0x12dcbfdb, 0x000f0000, 0x00000000, 0x00000000, 0xc8215c1a);
    NextWord(25, 0xe2e2c38e, 0x7da86405, 0x00000000, 0x00000000, 0xb73679a2);
    NextWord(26, 0xc8215c1a, 0x600003c6, 0x00000000, 0x00000000, 0xe5bc3909);
    NextWord(27, 0xb73679a2, 0x3e9d7b78, 0x00000000, 0x00000000, 0x32663c5b);
    NextWord(28, 0xe5bc3909, 0x0183fc00, 0x00000000, 0x00000000, 0x9d209d67);
    NextWord(29, 0x32663c5b, 0x12dcbfdb, 0x00000000, 0x00000000, 0xec8726cb);
    NextWord(30, 0x9d209d67, 0xe2e2c38e, 0x00000018, 0x00000000, 0x702138a4);
    NextWord(31, 0xec8726cb, 0xc8215c1a, 0x61626380, 0x00000018, 0xd3b7973b);
  }

  lemma TurnedWords24()
    ensures TurnedWord(0x12dcbfdb, 0x000f0000, 0x00000000, 0x00000000) == 0xc8215c1a
    ensures TurnedWord(0xe2e2c38e, 0x7da86405, 0x00000000, 0x00000000) == 0xb73679a2
    ensures TurnedWord(0xc8215c1a, 0x600003c6, 0x00000000, 0x00000000) == 0xe5bc3909
    ensures TurnedWord(0xb73679a2, 0x3e9d7b78, 0x00000000, 0x00000000) == 0x32663c5b
    ensures TurnedWord(0xe5bc3909, 0x0183fc00, 0x00000000, 0x00000000) == 0x9d209d67
    ensures TurnedWord(0x32663c5b, 0x12dcbfdb, 0x00000000, 0x00000000) == 0xec8726cb
    ensures TurnedWord(0x9d209d67, 0xe2e2c38e, 0x00000018, 0x00000000) == 0x702138a4
    ensures TurnedWord(0xec8726cb, 0xc8215c1a, 0x61626380, 0x00000018) == 0xd3b7973b
  {}

  lemma Words32()
    ensures Scheduled(32, 0x93f5997f, 0x3b68ba73, 0xaff4ffc1, 0xf10a5c62,
                      0x0a8b3996, 0x72af830a, 0x9409e33e, 0x24641522)
  {
    hide W, TurnedWord;
    Words16();
    Words24();
    TurnedWords32();
    NextWord(32, 0x702138a4, 0xb73679a2, 0x000f0000, 0x61626380, 0x93f5997f);
    NextWord(33, 0xd3b7973b, 0xe5bc3909, 0x7da86405, 0x000f0000, 0x3b68ba73);
    NextWord(34, 0x93f5997f, 0x32663c5b, 0x600003c6, 0x7da86405, 0xaff4ffc1);
    NextWord(35, 0x3b68ba73, 0x9d209d67, 0x3e9d7b78, 0x600003c6, 0xf10a5c62);
    NextWord(36, 0xaff4ffc1, 0xec8726cb, 0x0183fc00, 0x3e9d7b78, 0x0a8b3996);
    NextWord(37, 0xf10a5c62, 0x702138a4, 0x12dcbfdb, 0x0183fc00, 0x72af830a);
    NextWord(38, 0x0a8b3996, 0xd3b7973b, 0xe2e2c38e, 0x12dcbfdb, 0x9409e33e);
    NextWord(39, 0x72af830a, 0x93f5997f, 0xc8215c1a, 0xe2e2c38e, 0x24641522);
  }

  lemma TurnedWords32()
    ensures TurnedWord(0x702138a4, 0xb73679a2, 0x000f0000, 0x61626380) == 0x93f5997f
    ensures TurnedWord(0xd3b7973b, 0xe5bc3909, 0x7da86405, 0x000f0000) == 0x3b68ba73
    ensures TurnedWord(0x93f5997f, 0x32663c5b, 0x600003c6, 0x7da86405) == 0xaff4ffc1
    ensures TurnedWord(0x3b68ba73, 0x9d209d67, 0x3e9d7b78, 0x600003c6) == 0xf10a5c62
    ensures TurnedWord(0xaff4ffc1, 0xec8726cb, 0x0183fc00, 0x3e9d7b78) == 0x0a8b3996
    ensures TurnedWord(0xf10a5c62, 0x702138a4, 0x12dcbfdb, 0x0183fc00) == 0x72af830a
    ensures TurnedWord(0x0a8b3996, 0xd3b7973b, 0xe2e2c38e, 0x12dcbfdb) == 0x9409e33e
    ensures TurnedWord(0x72af830a, 0x93f5997f, 0xc8215c1a, 0xe2e2c38e) == 0x24641522
  {}

  lemma Words40()
    ensures Scheduled(40, 0x9f47bf94, 0xf0a64f5a, 0x3e246a79, 0x27333ba3,
                      0x0c4763f2, 0x840abf27, 0x7a290d5d, 0x065c43da)
  {
    hide W, TurnedWord;
    Words24();
    Words32();
    TurnedWords40();
    NextWord(40, 0x9409e33e, 0x3b68ba73, 0xb73679a2, 0xc8215c1a, 0x9f47bf94);
    NextWord(41, 0x24641522, 0xaff4ffc1, 0xe5bc3909, 0xb73679a2, 0xf0a64f5a);
    NextWord(42, 0x9f47bf94, 0xf10a5c62, 0x32663c5b, 0xe5bc3909, 0x3e246a79);
    NextWord(43, 0xf0a64f5a, 0x0a8b3996, 0x9d209d67, 0x32663c5b, 0x27333ba3);
    NextWord(44, 0x3e246a79, 0x72af830a, 0xec8726cb, 0x9d209d67, 0x0c4763f2);
    NextWord(45, 0x27333ba3, 0x9409e33e, 0x702138a4, 0xec8726cb, 0x840abf27);
    NextWord(46, 0x0c4763f2, 0x24641522, 0xd3b7973b, 0x702138a4, 0x7a290d5d);
    NextWord(47, 0x840abf27, 0x9f47bf94, 0x93f5997f, 0xd3b7973b, 0x065c43da);
  }

  lemma TurnedWords40()
    ensures TurnedWord(0x9409e33e, 0x3b68ba73, 0xb73679a2, 0xc8215c1a) == 0x9f47bf94
    ensures TurnedWord(0x24641522, 0xaff4ffc1, 0xe5bc3909, 0xb73679a2) == 0xf0a64f5a
    ensures TurnedWord(0x9f47bf94, 0xf10a5c62, 0x32663c5b, 0xe5bc3909) == 0x3e246a79
    ensures TurnedWord(0xf0a64f5a, 0x0a8b3996, 0x9d209d67, 0x32663c5b) == 0x27333ba3
    ensures TurnedWord(0x3e246a79, 0x72af830a, 0xec8726cb, 0x9d209d67) == 0x0c4763f2
    ensures TurnedWord(0x27333ba3, 0x9409e33e, 0x702138a4, 0xec8726cb) == 0x840abf27
    ensures TurnedWord(0x0c4763f2, 0x24641522, 0xd3b7973b, 0x702138a4) == 0x7a290d5d
    ensures TurnedWord(0x840abf27, 0x9f47bf94, 0x93f5997f, 0xd3b7973b) == 0x065c43da
  {}

  lemma Words48()
    ensures Scheduled(48, 0xfb3e89cb, 0xcc7617db, 0xb9e66c34, 0xa9993667,
                      0x84badedd, 0xc21462bc, 0x1487472c, 0xb20f7a99)
  {
    hide W, TurnedWord;
    Words32();
    Words40();
    TurnedWords48();
    NextWord(48, 0x7a290d5d, 0xf0a64f5a, 0x3b68ba73, 0x93f5997f, 0xfb3e89cb);
    NextWord(49, 0x065c43da, 0x3e246a79, 0xaff4ffc1, 0x3b68ba73, 0xcc7617db);
    NextWord(50, 0xfb3e89cb, 0x27333ba3, 0xf10a5c62, 0xaff4ffc1, 0xb9e66c34);
    NextWord(51, 0xcc7617db, 0x0c4763f2, 0x0a8b3996, 0xf10a5c62, 0xa9993667);
    NextWord(52, 0xb9e66c34, 0x840abf27, 0x72af830a, 0x0a8b3996, 0x84badedd);
    NextWord(53, 0xa9993667, 0x7a290d5d, 0x9409e33e, 0x72af830a, 0xc21462bc);
    NextWord(54, 0x84badedd, 0x065c43da, 0x24641522, 0x9409e33e, 0x1487472c);
    NextWord(55, 0xc21462bc, 0xfb3e89cb, 0x9f47bf94, 0x24641522, 0xb20f7a99);
  }

  lemma TurnedWords48()
    ensures TurnedWord(0x7a290d5d, 0xf0a64f5a, 0x3b68ba73, 0x93f5997f) == 0xfb3e89cb
    ensures TurnedWord(0x065c43da, 0x3e246a79, 0xaff4ffc1, 0x3b68ba73) == 0xcc7617db
    ensures TurnedWord(0xfb3e89cb, 0x27333ba3, 0xf10a5c62, 0xaff4ffc1) == 0xb9e66c34
    ensures TurnedWord(0xcc7617db, 0x0c4763f2, 0x0a8b3996, 0xf10a5c62) == 0xa9993667
    ensures TurnedWord(0xb9e66c34, 0x840abf27, 0x72af830a, 0x0a8b3996) == 0x84badedd
    ensures TurnedWord(0xa9993667, 0x7a290d5d, 0x9409e33e, 0x72af830a) == 0xc21462bc
    ensures TurnedWord(0x84badedd, 0x065c43da, 0x24641522, 0x9409e33e) == 0x1487472c
    ensures TurnedWord(0xc21462bc, 0xfb3e89cb, 0x9f47bf94, 0x24641522) == 0xb20f7a99
  {}

  lemma Words56()
    ensures Scheduled(56, 0xef57b9cd, 0xebe6b238, 0x9fe3095e, 0x78bc8d4b,
                      0xa43fcf15, 0x668b2ff8, 0xeeaba2cc, 0x12b1edeb)
  {
    hide W, TurnedWord;
    Words40();
    Words48();
    TurnedWords56();
    NextWord(56, 0x1487472c, 0xcc7617db, 0xf0a64f5a, 0x9f47bf94, 0xef57b9cd);
    NextWord(57, 0xb20f7a99, 0xb9e66c34, 0x3e246a79, 0xf0a64f5a, 0xebe6b238);
    NextWord(58, 0xef57b9cd, 0xa9993667, 0x27333ba3, 0x3e246a79, 0x9fe3095e);
    NextWord(59, 0xebe6b238, 0x84badedd, 0x0c4763f2, 0x27333ba3, 0x78bc8d4b);
    NextWord(60, 0x9fe3095e, 0xc21462bc, 0x840abf27, 0x0c4763f2, 0xa43fcf15);
    NextWord(61, 0x78bc8d4b, 0x1487472c, 0x7a290d5d, 0x840abf27, 0x668b2ff8);
    NextWord(62, 0xa43fcf15, 0xb20f7a99, 0x065c43da, 0x7a290d5d, 0xeeaba2cc);
    NextWord(63, 0x668b2ff8, 0xef57b9cd, 0xfb3e89cb, 0x065c43da, 0x12b1edeb);
  }

  lemma TurnedWords56()
    ensures TurnedWord(0x1487472c, 0xcc7617db, 0xf0a64f5a, 0x9f47bf94) == 0xef57b9cd
    ensures TurnedWord(0xb20f7a99, 0xb9e66c34, 0x3e246a79, 0xf0a64f5a) == 0xebe6b238
    ensures TurnedWord(0xef57b9cd, 0xa9993667, 0x27333ba3, 0x3e246a79) == 0x9fe3095e
    ensures TurnedWord(0xebe6b238, 0x84badedd, 0x0c4763f2, 0x27333ba3) == 0x78bc8d4b
    ensures TurnedWord(0x9fe3095e, 0xc21462bc, 0x840abf27, 0x0c4763f2) == 0xa43fcf15
    ensures TurnedWord(0x78bc8d4b, 0x1487472c, 0x7a290d5d, 0x840abf27) == 0x668b2ff8
    ensures TurnedWord(0xa43fcf15, 0xb20f7a99, 0x065c43da, 0x7a290d5d) == 0xeeaba2cc
    ensures TurnedWord(0x668b2ff8, 0xef57b9cd, 0xfb3e89cb, 0x065c43da) == 0x12b1edeb
  {}

  lemma NoRounds()
    ensures Rounds(H0, BLOCK, 0) == Working(0x6a09e667, 0xbb67ae85, 0x3c6ef372, 0xa54ff53a, 0x510e527f, 0x9b05688c, 0x1f83d9ab, 0x5be0cd19)
  {}

  lemma Rounds0()
    ensures Rounds(H0, BLOCK, 8)
         == Working(0x85a07b5f, 0xe5030380, 0x2b4209f5, 0x04409a6a, 0x0c657a79, 0x9b27a401, 0x714260ad, 0x43ada245)
  {
    hide W, Rounds;
    NoRounds();
    FirstWords();
    Constants0();
    NextRound(0, Working(0x6a09e667, 0xbb67ae85, 0x3c6ef372, 0xa54ff53a, 0x510e527f, 0x9b05688c, 0x1f83d9ab, 0x5be0cd19), 0x428a2f98, 0x61626380,
              Working(0x5d6aebcd, 0x6a09e667, 0xbb67ae85, 0x3c6ef372, 0xfa2a4622, 0x510e527f, 0x9b05688c, 0x1f83d9ab));
    NextRound(1, Working(0x5d6aebcd, 0x6a09e667, 0xbb67ae85, 0x3c6ef372, 0xfa2a4622, 0x510e527f, 0x9b05688c, 0x1f83d9ab), 0x71374491, 0x00000000,
              Working(0x5a6ad9ad, 0x5d6aebcd, 0x6a09e667, 0xbb67ae85, 0x78ce7989, 0xfa2a4622, 0x510e527f, 0x9b05688c));
    NextRound(2, Working(0x5a6ad9ad, 0x5d6aebcd, 0x6a09e667, 0xbb67ae85, 0x78ce7989, 0xfa2a4622, 0x510e527f, 0x9b05688c), 0xb5c0fbcf, 0x00000000,
              Working(0xc8c347a7, 0x5a6ad9ad, 0x5d6aebcd, 0x6a09e667, 0xf92939eb, 0x78ce7989, 0xfa2a4622, 0x510e527f));
    NextRound(3, Working(0xc8c347a7, 0x5a6ad9ad, 0x5d6aebcd, 0x6a09e667, 0xf92939eb, 0x78ce7989, 0xfa2a4622, 0x510e527f), 0xe9b5dba5, 0x00000000,
              Working(0xd550f666, 0xc8c347a7, 0x5a6ad9ad, 0x5d6aebcd, 0x24e00850, 0xf92939eb, 0x78ce7989, 0xfa2a4622));
    NextRound(4, Working(0xd550f666, 0xc8c347a7, 0x5a6ad9ad, 0x5d6aebcd, 0x24e00850, 0xf92939eb, 0x78ce7989, 0xfa2a4622), 0x3956c25b, 0x00000000,
              Working(0x04409a6a, 0xd550f666, 0xc8c347a7, 0x5a6ad9ad, 0x43ada245, 0x24e00850, 0xf92939eb, 0x78ce7989));
    NextRound(5, Working(0x04409a6a, 0xd550f666, 0xc8c347a7, 0x5a6ad9ad, 0x43ada245, 0x24e00850, 0xf92939eb, 0x78ce7989), 0x59f111f1, 0x00000000,
              Working(0x2b4209f5, 0x04409a6a, 0xd550f666, 0xc8c347a7, 0x714260ad, 0x43ada245, 0x24e00850, 0xf92939eb));
    NextRound(6, Working(0x2b4209f5, 0x04409a6a, 0xd550f666, 0xc8c347a7, 0x714260ad, 0x43ada245, 0x24e00850, 0xf92939eb), 0x923f82a4, 0x00000000,
              Working(0xe5030380, 0x2b4209f5, 0x04409a6a, 0xd550f666, 0x9b27a401, 0x714260ad, 0x43ada245, 0x24e00850));
    NextRound(7, Working(0xe5030380, 0x2b4209f5, 0x04409a6a, 0xd550f666, 0x9b27a401, 0x714260ad, 0x43ada245, 0x24e00850), 0xab1c5ed5, 0x00000000,
              Working(0x85a07b5f, 0xe5030380, 0x2b4209f5, 0x04409a6a, 0x0c657a79, 0x9b27a401, 0x714260ad, 0x43ada245));
  }

  lemma Rounds8()
    ensures Rounds(H0, BLOCK, 16)
         == Working(0xb0fa238e, 0xc0645fde, 0xd932eb16, 0x87912990, 0x07590dcd, 0x0b92f20c, 0x745a48de, 0x1e578218)
  {
    hide W, Rounds;
    Rounds0();
    FirstWords();
    Constants8();
    NextRound(8, Working(0x85a07b5f, 0xe5030380, 0x2b4209f5, 0x04409a6a, 0x0c657a79, 0x9b27a401, 0x714260ad, 0x43ada245), 0xd807aa98, 0x00000000,
              Working(0x8e04ecb9, 0x85a07b5f, 0xe5030380, 0x2b4209f5, 0x32ca2d8c, 0x0c657a79, 0x9b27a401, 0x714260ad));
    NextRound(9, Working(0x8e04ecb9, 0x85a07b5f, 0xe5030380, 0x2b4209f5, 0x32ca2d8c, 0x0c657a79, 0x9b27a401, 0x714260ad), 0x12835b01, 0x00000000,
              Working(0x8c87346b, 0x8e04ecb9, 0x85a07b5f, 0xe5030380, 0x1cc92596, 0x32ca2d8c, 0x0c657a79, 0x9b27a401));
    NextRound(10, Working(0x8c87346b, 0x8e04ecb9, 0x85a07b5f, 0xe5030380, 0x1cc92596, 0x32ca2d8c, 0x0c657a79, 0x9b27a401), 0x243185be, 0x00000000,
              Working(0x4798a3f4, 0x8c87346b, 0x8e04ecb9, 0x85a07b5f, 0x436b23e8, 0x1cc92596, 0x32ca2d8c, 0x0c657a79));
    NextRound(11, Working(0x4798a3f4, 0x8c87346b, 0x8e04ecb9, 0x85a07b5f, 0x436b23e8, 0x1cc92596, 0x32ca2d8c, 0x0c657a79), 0x550c7dc3, 0x00000000,
              Working(0xf71fc5a9, 0x4798a3f4, 0x8c87346b, 0x8e04ecb9, 0x816fd6e9, 0x436b23e8, 0x1cc92596, 0x32ca2d8c));
    NextRound(12, Working(0xf71fc5a9, 0x4798a3f4, 0x8c87346b, 0x8e04ecb9, 0x816fd6e9, 0x436b23e8, 0x1cc92596, 0x32ca2d8c), 0x72be5d74, 0x00000000,
              Working(0x87912990, 0xf71fc5a9, 0x4798a3f4, 0x8c87346b, 0x1e578218, 0x816fd6e9, 0x436b23e8, 0x1cc92596));
    NextRound(13, Working(0x87912990, 0xf71fc5a9, 0x4798a3f4, 0x8c87346b, 0x1e578218, 0x816fd6e9, 0x436b23e8, 0x1cc92596), 0x80deb1fe, 0x00000000,
              Working(0xd932eb16, 0x87912990, 0xf71fc5a9, 0x4798a3f4, 0x745a48de, 0x1e578218, 0x816fd6e9, 0x436b23e8));
    NextRound(14, Working(0xd932eb16, 0x87912990, 0xf71fc5a9, 0x4798a3f4, 0x745a48de, 0x1e578218, 0x816fd6e9, 0x436b23e8), 0x9bdc06a7, 0x00000000,
              Working(0xc0645fde, 0xd932eb16, 0x87912990, 0xf71fc5a9, 0x0b92f20c, 0x745a48de, 0x1e578218, 0x816fd6e9));
    NextRound(15, Working(0xc0645fde, 0xd932eb16, 0x87912990, 0xf71fc5a9, 0x0b92f20c, 0x745a48de, 0x1e578218, 0x816fd6e9), 0xc19bf174, 0x00000018,
              Working(0xb0fa238e, 0xc0645fde, 0xd932eb16, 0x87912990, 0x07590dcd, 0x0b92f20c, 0x745a48de, 0x1e578218));
  }

  lemma Rounds16()
    ensures Rounds(H0, BLOCK, 24)
         == Working(0xc5d53d8d, 0xa7a3623f, 0xc2606d6d, 0x9dc68b63, 0xaa47c347, 0x49f5114a, 0xe1257970, 0x8ada8930)
  {
    hide W, Rounds;
    Rounds8();
    Words16();
    Constants16();
    NextRound(16, Working(0xb0fa238e, 0xc0645fde, 0xd932eb16, 0x87912990, 0x07590dcd, 0x0b92f20c, 0x745a48de, 0x1e578218), 0xe49b69c1, 0x61626380,
              Working(0x21da9a9b, 0xb0fa238e, 0xc0645fde, 0xd932eb16, 0x8034229c, 0x07590dcd, 0x0b92f20c, 0x745a48de));
    NextRound(17, Working(0x21da9a9b, 0xb0fa238e, 0xc0645fde, 0xd932eb16, 0x8034229c, 0x07590dcd, 0x0b92f20c, 0x745a48de), 0xefbe4786, 0x000f0000,
              Working(0xc2fbd9d1, 0x21da9a9b, 0xb0fa238e, 0xc0645fde, 0x846ee454, 0x8034229c, 0x07590dcd, 0x0b92f20c));
    NextRound(18, Working(0xc2fbd9d1, 0x21da9a9b, 0xb0fa238e, 0xc0645fde, 0x846ee454, 0x8034229c, 0x07590dcd, 0x0b92f20c), 0x0fc19dc6, 0x7da86405,
              Working(0xfe777bbf, 0xc2fbd9d1, 0x21da9a9b, 0xb0fa238e, 0xcc899961, 0x846ee454, 0x8034229c, 0x07590dcd));
    NextRound(19, Working(0xfe777bbf, 0xc2fbd9d1, 0x21da9a9b, 0xb0fa238e, 0xcc899961, 0x846ee454, 0x8034229c, 0x07590dcd), 0x240ca1cc, 0x600003c6,
              Working(0xe1f20c33, 0xfe777bbf, 0xc2fbd9d1, 0x21da9a9b, 0xb0638179, 0xcc899961, 0x846ee454, 0x8034229c));
    NextRound(20, Working(0xe1f20c33, 0xfe777bbf, 0xc2fbd9d1, 0x21da9a9b, 0xb0638179, 0xcc899961, 0x846ee454, 0x8034229c), 0x2de92c6f, 0x3e9d7b78,
              Working(0x9dc68b63, 0xe1f20c33, 0xfe777bbf, 0xc2fbd9d1, 0x8ada8930, 0xb0638179, 0xcc899961, 0x846ee454));
    NextRound(21, Working(0x9dc68b63, 0xe1f20c33, 0xfe777bbf, 0xc2fbd9d1, 0x8ada8930, 0xb0638179, 0xcc899961, 0x846ee454), 0x4a7484aa, 0x0183fc00,
              Working(0xc2606d6d, 0x9dc68b63, 0xe1f20c33, 0xfe777bbf, 0xe1257970, 0x8ada8930, 0xb0638179, 0xcc899961));
    NextRound(22, Working(0xc2606d6d, 0x9dc68b63, 0xe1f20c33, 0xfe777bbf, 0xe1257970, 0x8ada8930, 0xb0638179, 0xcc899961), 0x5cb0a9dc, 0x12dcbfdb,
              Working(0xa7a3623f, 0xc2606d6d, 0x9dc68b63, 0xe1f20c33, 0x49f5114a, 0xe1257970, 0x8ada8930, 0xb0638179));
    NextRound(23, Working(0xa7a3623f, 0xc2606d6d, 0x9dc68b63, 0xe1f20c33, 0x49f5114a, 0xe1257970, 0x8ada8930, 0xb0638179), 0x76f988da, 0xe2e2c38e,
              Working(0xc5d53d8d, 0xa7a3623f, 0xc2606d6d, 0x9dc68b63, 0xaa47c347, 0x49f5114a, 0xe1257970, 0x8ada8930));
  }

  lemma Rounds24()
    ensures Rounds(H0, BLOCK, 32)
         == Working(0x73b33bf5, 0xea992a22, 0xa0060b30, 0x363482c9, 0xba591112, 0x0109ab3a, 0xade79437, 0x6112a3b7)
  {
    hide W, Rounds;
    Rounds16();
    Words24();
    Constants24();
    NextRound(24, Working(0xc5d53d8d, 0xa7a3623f, 0xc2606d6d, 0x9dc68b63, 0xaa47c347, 0x49f5114a, 0xe1257970, 0x8ada8930), 0x983e5152, 0xc8215c1a,
              Working(0x1c2c2838, 0xc5d53d8d, 0xa7a3623f, 0xc2606d6d, 0x2823ef91, 0xaa47c347, 0x49f5114a, 0xe1257970));
    NextRound(25, Working(0x1c2c2838, 0xc5d53d8d, 0xa7a3623f, 0xc2606d6d, 0x2823ef91, 0xaa47c347, 0x49f5114a, 0xe1257970), 0xa831c66d, 0xb73679a2,
              Working(0xcde8037d, 0x1c2c2838, 0xc5d53d8d, 0xa7a3623f, 0x14383d8e, 0x2823ef91, 0xaa47c347, 0x49f5114a));
    NextRound(26, Working(0xcde8037d, 0x1c2c2838, 0xc5d53d8d, 0xa7a3623f, 0x14383d8e, 0x2823ef91, 0xaa47c347, 0x49f5114a), 0xb00327c8, 0xe5bc3909,
              Working(0xb62ec4bc, 0xcde8037d, 0x1c2c2838, 0xc5d53d8d, 0xc74c6516, 0x14383d8e, 0x2823ef91, 0xaa47c347));
    NextRound(27, Working(0xb62ec4bc, 0xcde8037d, 0x1c2c2838, 0xc5d53d8d, 0xc74c6516, 0x14383d8e, 0x2823ef91, 0xaa47c347), 0xbf597fc7, 0x32663c5b,
              Working(0x77d37528, 0xb62ec4bc, 0xcde8037d, 0x1c2c2838, 0xedffbff8, 0xc74c6516, 0x14383d8e, 0x2823ef91));
    NextRound(28, Working(0x77d37528, 0xb62ec4bc, 0xcde8037d, 0x1c2c2838, 0xedffbff8, 0xc74c6516, 0x14383d8e, 0x2823ef91), 0xc6e00bf3, 0x9d209d67,
              Working(0x363482c9, 0x77d37528, 0xb62ec4bc, 0xcde8037d, 0x6112a3b7, 0xedffbff8, 0xc74c6516, 0x14383d8e));
    NextRound(29, Working(0x363482c9, 0x77d37528, 0xb62ec4bc, 0xcde8037d, 0x6112a3b7, 0xedffbff8, 0xc74c6516, 0x14383d8e), 0xd5a79147, 0xec8726cb,
              Working(0xa0060b30, 0x363482c9, 0x77d37528, 0xb62ec4bc, 0xade79437, 0x6112a3b7, 0xedffbff8, 0xc74c6516));
    NextRound(30, Working(0xa0060b30, 0x363482c9, 0x77d37528, 0xb62ec4bc, 0xade79437, 0x6112a3b7, 0xedffbff8, 0xc74c6516), 0x06ca6351, 0x702138a4,
              Working(0xea992a22, 0xa0060b30, 0x363482c9, 0x77d37528, 0x0109ab3a, 0xade79437, 0x6112a3b7, 0xedffbff8));
    NextRound(31, Working(0xea992a22, 0xa0060b30, 0x363482c9, 0x77d37528, 0x0109ab3a, 0xade79437, 0x6112a3b7, 0xedffbff8), 0x14292967, 0xd3b7973b,
              Working(0x73b33bf5, 0xea992a22, 0xa0060b30, 0x363482c9, 0xba591112, 0x0109ab3a, 0xade79437, 0x6112a3b7));
  }

  lemma Rounds32()
    ensures Rounds(H0, BLOCK, 40)
         == Working(0x79ea687a, 0x6dc57a8a, 0x34df1604, 0x41a65cb1, 0x1efbc0a0, 0xf0781bc8, 0xa507a53d, 0x0772a26b)
  {
    hide W, Rounds;
    Rounds24();
    Words32();
    Constants32();
    NextRound(32, Working(0x73b33bf5, 0xea992a22, 0xa0060b30, 0x363482c9, 0xba591112, 0x0109ab3a, 0xade79437, 0x6112a3b7), 0x27b70a85, 0x93f5997f,
              Working(0x98e12507, 0x73b33bf5, 0xea992a22, 0xa0060b30, 0x9cd9f5f6, 0xba591112, 0x0109ab3a, 0xade79437));
    NextRound(33, Working(0x98e12507, 0x73b33bf5, 0xea992a22, 0xa0060b30, 0x9cd9f5f6, 0xba591112, 0x0109ab3a, 0xade79437), 0x2e1b2138, 0x3b68ba73,
              Working(0xfe604df5, 0x98e12507, 0x73b33bf5, 0xea992a22, 0x59249dd3, 0x9cd9f5f6, 0xba591112, 0x0109ab3a));
    NextRound(34, Working(0xfe604df5, 0x98e12507, 0x73b33bf5, 0xea992a22, 0x59249dd3, 0x9cd9f5f6, 0xba591112, 0x0109ab3a), 0x4d2c6dfc, 0xaff4ffc1,
              Working(0xa9a7738c, 0xfe604df5, 0x98e12507, 0x73b33bf5, 0x085f3833, 0x59249dd3, 0x9cd9f5f6, 0xba591112));
    NextRound(35, Working(0xa9a7738c, 0xfe604df5, 0x98e12507, 0x73b33bf5, 0x085f3833, 0x59249dd3, 0x9cd9f5f6, 0xba591112), 0x53380d13, 0xf10a5c62,
              Working(0x65a0cfe4, 0xa9a7738c, 0xfe604df5, 0x98e12507, 0xf4b002d6, 0x085f3833, 0x59249dd3, 0x9cd9f5f6));
    NextRound(36, Working(0x65a0cfe4, 0xa9a7738c, 0xfe604df5, 0x98e12507, 0xf4b002d6, 0x085f3833, 0x59249dd3, 0x9cd9f5f6), 0x650a7354, 0x0a8b3996,
              Working(0x41a65cb1, 0x65a0cfe4, 0xa9a7738c, 0xfe604df5, 0x0772a26b, 0xf4b002d6, 0x085f3833, 0x59249dd3));
    NextRound(37, Working(0x41a65cb1, 0x65a0cfe4, 0xa9a7738c, 0xfe604df5, 0x0772a26b, 0xf4b002d6, 0x085f3833, 0x59249dd3), 0x766a0abb, 0x72af830a,
              Working(0x34df1604, 0x41a65cb1, 0x65a0cfe4, 0xa9a7738c, 0xa507a53d, 0x0772a26b, 0xf4b002d6, 0x085f3833));
    NextRound(38, Working(0x34df1604, 0x41a65cb1, 0x65a0cfe4, 0xa9a7738c, 0xa507a53d, 0x0772a26b, 0xf4b002d6, 0x085f3833), 0x81c2c92e, 0x9409e33e,
              Working(0x6dc57a8a, 0x34df1604, 0x41a65cb1, 0x65a0cfe4, 0xf0781bc8, 0xa507a53d, 0x0772a26b, 0xf4b002d6));
    NextRound(39, Working(0x6dc57a8a, 0x34df1604, 0x41a65cb1, 0x65a0cfe4, 0xf0781bc8, 0xa507a53d, 0x0772a26b, 0xf4b002d6), 0x92722c85, 0x24641522,
              Working(0x79ea687a, 0x6dc57a8a, 0x34df1604, 0x41a65cb1, 0x1efbc0a0, 0xf0781bc8, 0xa507a53d, 0x0772a26b));
  }

  lemma Rounds40()
    ensures Rounds(H0, BLOCK, 48)
         == Working(0x4172328d, 0xa14c14b0, 0x72ab4b91, 0x26628815, 0xfecf0bc6, 0xd57b94a9, 0xb7755da1, 0xa80f11f0)
  {
    hide W, Rounds;
    Rounds32();
    Words40();
    Constants40();
    NextRound(40, Working(0x79ea687a, 0x6dc57a8a, 0x34df1604, 0x41a65cb1, 0x1efbc0a0, 0xf0781bc8, 0xa507a53d, 0x0772a26b), 0xa2bfe8a1, 0x9f47bf94,
              Working(0xd6670766, 0x79ea687a, 0x6dc57a8a, 0x34df1604, 0x26352d63, 0x1efbc0a0, 0xf0781bc8, 0xa507a53d));
    NextRound(41, Working(0xd6670766, 0x79ea687a, 0x6dc57a8a, 0x34df1604, 0x26352d63, 0x1efbc0a0, 0xf0781bc8, 0xa507a53d), 0xa81a664b, 0xf0a64f5a,
              Working(0xdf46652f, 0xd6670766, 0x79ea687a, 0x6dc57a8a, 0x838b2711, 0x26352d63, 0x1efbc0a0, 0xf0781bc8));
    NextRound(42, Working(0xdf46652f, 0xd6670766, 0x79ea687a, 0x6dc57a8a, 0x838b2711, 0x26352d63, 0x1efbc0a0, 0xf0781bc8), 0xc24b8b70, 0x3e246a79,
              Working(0x17aa0dfe, 0xdf46652f, 0xd6670766, 0x79ea687a, 0xdecd4715, 0x838b2711, 0x26352d63, 0x1efbc0a0));
    NextRound(43, Working(0x17aa0dfe, 0xdf46652f, 0xd6670766, 0x79ea687a, 0xdecd4715, 0x838b2711, 0x26352d63, 0x1efbc0a0), 0xc76c51a3, 0x27333ba3,
              Working(0x9d4baf93, 0x17aa0dfe, 0xdf46652f, 0xd6670766, 0xfda24c2e, 0xdecd4715, 0x838b2711, 0x26352d63));
    NextRound(44, Working(0x9d4baf93, 0x17aa0dfe, 0xdf46652f, 0xd6670766, 0xfda24c2e, 0xdecd4715, 0x838b2711, 0x26352d63), 0xd192e819, 0x0c4763f2,
              Working(0x26628815, 0x9d4baf93, 0x17aa0dfe, 0xdf46652f, 0xa80f11f0, 0xfda24c2e, 0xdecd4715, 0x838b2711));
    NextRound(45, Working(0x26628815, 0x9d4baf93, 0x17aa0dfe, 0xdf46652f, 0xa80f11f0, 0xfda24c2e, 0xdecd4715, 0x838b2711), 0xd6990624, 0x840abf27,
              Working(0x72ab4b91, 0x26628815, 0x9d4baf93, 0x17aa0dfe, 0xb7755da1, 0xa80f11f0, 0xfda24c2e, 0xdecd4715));
    NextRound(46, Working(0x72ab4b91, 0x26628815, 0x9d4baf93, 0x17aa0dfe, 0xb7755da1, 0xa80f11f0, 0xfda24c2e, 0xdecd4715), 0xf40e3585, 0x7a290d5d,
              Working(0xa14c14b0, 0x72ab4b91, 0x26628815, 0x9d4baf93, 0xd57b94a9, 0xb7755da1, 0xa80f11f0, 0xfda24c2e));
    NextRound(47, Working(0xa14c14b0, 0x72ab4b91, 0x26628815, 0x9d4baf93, 0xd57b94a9, 0xb7755da1, 0xa80f11f0, 0xfda24c2e), 0x106aa070, 0x065c43da,
              Working(0x4172328d, 0xa14c14b0, 0x72ab4b91, 0x26628815, 0xfecf0bc6, 0xd57b94a9, 0xb7755da1, 0xa80f11f0));
  }

  lemma Rounds48()
    ensures Rounds(H0, BLOCK, 56)
         == Working(0x38cc9913, 0x3ec45cdb, 0xf5702fdb, 0x101fd28f, 0x54cb266b, 0xe50e1b4f, 0x9f4787c3, 0x529e7d00)
  {
    hide W, Rounds;
    Rounds40();
    Words48();
    Constants48();
    NextRound(48, Working(0x4172328d, 0xa14c14b0, 0x72ab4b91, 0x26628815, 0xfecf0bc6, 0xd57b94a9, 0xb7755da1, 0xa80f11f0), 0x19a4c116, 0xfb3e89cb,
              Working(0x05757ceb, 0x4172328d, 0xa14c14b0, 0x72ab4b91, 0xbd714038, 0xfecf0bc6, 0xd57b94a9, 0xb7755da1));
    NextRound(49, Working(0x05757ceb, 0x4172328d, 0xa14c14b0, 0x72ab4b91, 0xbd714038, 0xfecf0bc6, 0xd57b94a9, 0xb7755da1), 0x1e376c08, 0xcc7617db,
              Working(0xf11bfaa8, 0x05757ceb, 0x4172328d, 0xa14c14b0, 0x6e5c390c, 0xbd714038, 0xfecf0bc6, 0xd57b94a9));
    NextRound(50, Working(0xf11bfaa8, 0x05757ceb, 0x4172328d, 0xa14c14b0, 0x6e5c390c, 0xbd714038, 0xfecf0bc6, 0xd57b94a9), 0x2748774c, 0xb9e66c34,
              Working(0x7a0508a1, 0xf11bfaa8, 0x05757ceb, 0x4172328d, 0x52f1ccf7, 0x6e5c390c, 0xbd714038, 0xfecf0bc6));
    NextRound(51, Working(0x7a0508a1, 0xf11bfaa8, 0x05757ceb, 0x4172328d, 0x52f1ccf7, 0x6e5c390c, 0xbd714038, 0xfecf0bc6), 0x34b0bcb5, 0xa9993667,
              Working(0x886e7a22, 0x7a0508a1, 0xf11bfaa8, 0x05757ceb, 0x49231c1e, 0x52f1ccf7, 0x6e5c390c, 0xbd714038));
    NextRound(52, Working(0x886e7a22, 0x7a0508a1, 0xf11bfaa8, 0x05757ceb, 0x49231c1e, 0x52f1ccf7, 0x6e5c390c, 0xbd714038), 0x391c0cb3, 0x84badedd,
              Working(0x101fd28f, 0x886e7a22, 0x7a0508a1, 0xf11bfaa8, 0x529e7d00, 0x49231c1e, 0x52f1ccf7, 0x6e5c390c));
    NextRound(53, Working(0x101fd28f, 0x886e7a22, 0x7a0508a1, 0xf11bfaa8, 0x529e7d00, 0x49231c1e, 0x52f1ccf7, 0x6e5c390c), 0x4ed8aa4a, 0xc21462bc,
              Working(0xf5702fdb, 0x101fd28f, 0x886e7a22, 0x7a0508a1, 0x9f4787c3, 0x529e7d00, 0x49231c1e, 0x52f1ccf7));
    NextRound(54, Working(0xf5702fdb, 0x101fd28f, 0x886e7a22, 0x7a0508a1, 0x9f4787c3, 0x529e7d00, 0x49231c1e, 0x52f1ccf7), 0x5b9cca4f, 0x1487472c,
              Working(0x3ec45cdb, 0xf5702fdb, 0x101fd28f, 0x886e7a22, 0xe50e1b4f, 0x9f4787c3, 0x529e7d00, 0x49231c1e));
    NextRound(55, Working(0x3ec45cdb, 0xf5702fdb, 0x101fd28f, 0x886e7a22, 0xe50e1b4f, 0x9f4787c3, 0x529e7d00, 0x49231c1e), 0x682e6ff3, 0xb20f7a99,
              Working(0x38cc9913, 0x3ec45cdb, 0xf5702fdb, 0x101fd28f, 0x54cb266b, 0xe50e1b4f, 0x9f4787c3, 0x529e7d00));
  }

  lemma Rounds56()
    ensures Rounds(H0, BLOCK, 64)
         == Working(0x506e3058, 0xd39a2165, 0x04d24d6c, 0xb85e2ce9, 0x5ef50f24, 0xfb121210, 0x948d25b6, 0x961f4894)
  {
    hide W, Rounds;
    Rounds48();
    Words56();
    Constants56();
    NextRound(56, Working(0x38cc9913, 0x3ec45cdb, 0xf5702fdb, 0x101fd28f, 0x54cb266b, 0xe50e1b4f, 0x9f4787c3, 0x529e7d00), 0x748f82ee, 0xef57b9cd,
              Working(0xfcd1887b, 0x38cc9913, 0x3ec45cdb, 0xf5702fdb, 0x9b5e906c, 0x54cb266b, 0xe50e1b4f, 0x9f4787c3));
    NextRound(57, Working(0xfcd1887b, 0x38cc9913, 0x3ec45cdb, 0xf5702fdb, 0x9b5e906c, 0x54cb266b, 0xe50e1b4f, 0x9f4787c3), 0x78a5636f, 0xebe6b238,
              Working(0xc062d46f, 0xfcd1887b, 0x38cc9913, 0x3ec45cdb, 0x7e44008e, 0x9b5e906c, 0x54cb266b, 0xe50e1b4f));
    NextRound(58, Working(0xc062d46f, 0xfcd1887b, 0x38cc9913, 0x3ec45cdb, 0x7e44008e, 0x9b5e906c, 0x54cb266b, 0xe50e1b4f), 0x84c87814, 0x9fe3095e,
              Working(0xffb70472, 0xc062d46f, 0xfcd1887b, 0x38cc9913, 0x6d83bfc6, 0x7e44008e, 0x9b5e906c, 0x54cb266b));
    NextRound(59, Working(0xffb70472, 0xc062d46f, 0xfcd1887b, 0x38cc9913, 0x6d83bfc6, 0x7e44008e, 0x9b5e906c, 0x54cb266b), 0x8cc70208, 0x78bc8d4b,
              Working(0xb6ae8fff, 0xffb70472, 0xc062d46f, 0xfcd1887b, 0xb21bad3d, 0x6d83bfc6, 0x7e44008e, 0x9b5e906c));
    NextRound(60, Working(0xb6ae8fff, 0xffb70472, 0xc062d46f, 0xfcd1887b, 0xb21bad3d, 0x6d83bfc6, 0x7e44008e, 0x9b5e906c), 0x90befffa, 0xa43fcf15,
              Working(0xb85e2ce9, 0xb6ae8fff, 0xffb70472, 0xc062d46f, 0x961f4894, 0xb21bad3d, 0x6d83bfc6, 0x7e44008e));
    NextRound(61, Working(0xb85e2ce9, 0xb6ae8fff, 0xffb70472, 0xc062d46f, 0x961f4894, 0xb21bad3d, 0x6d83bfc6, 0x7e44008e), 0xa4506ceb, 0x668b2ff8,
              Working(0x04d24d6c, 0xb85e2ce9, 0xb6ae8fff, 0xffb70472, 0x948d25b6, 0x961f4894, 0xb21bad3d, 0x6d83bfc6));
    NextRound(62, Working(0x04d24d6c, 0xb85e2ce9, 0xb6ae8fff, 0xffb70472, 0x948d25b6, 0x961f4894, 0xb21bad3d, 0x6d83bfc6), 0xbef9a3f7, 0xeeaba2cc,
              Working(0xd39a2165, 0x04d24d6c, 0xb85e2ce9, 0xb6ae8fff, 0xfb121210, 0x948d25b6, 0x961f4894, 0xb21bad3d));
    NextRound(63, Working(0xd39a2165, 0x04d24d6c, 0xb85e2ce9, 0xb6ae8fff, 0xfb121210, 0x948d25b6, 0x961f4894, 0xb21bad3d), 0xc67178f2, 0x12b1edeb,
              Working(0x506e3058, 0xd39a2165, 0x04d24d6c, 0xb85e2ce9, 0x5ef50f24, 0xfb121210, 0x948d25b6, 0x961f4894));
  }

  lemma Compressed()
    ensures Compress(H0, BLOCK)[0] == 0xba7816bf && Compress(H0, BLOCK)[1] == 0x8f01cfea
  {
    hide Rounds;
    Rounds56();
  }

  /** The block is what the padding makes of the three letters. */
  lemma PaddedBlock()
    ensures var m: seq<byte> := [0x61, 0x62, 0x63]; var p := m + Padding(3, 24);
      |p| == 64 && BlockWords(p) == BLOCK
  {
    hide Word;
    var m: seq<byte> := [0x61, 0x62, 0x63];
    var p := m + Padding(3, 24);
    LastBytes();
    WordsOfBlock();
    assert p[3] == 0x80 && p[63] == 24 && forall i :: 4 <= i < 63 ==> p[i] == 0;
    assert forall i :: 1 <= i < 15 ==> BlockWords(p)[i] == Word(0, 0, 0, 0);
  }

  lemma LastBytes()
    ensures BigEndian64(24) == [0, 0, 0, 0, 0, 0, 0, 24]
  {}

  lemma WordsOfBlock()
    ensures Word(0x61, 0x62, 0x63, 0x80) == 0x61626380 && Word(0, 0, 0, 0) == 0 && Word(0, 0, 0, 24) == 24
  {
    hide Bits;
    BitsOfBlock();
  }

  lemma BitsOfBlock()
    ensures Bits(0x61) == 0x61 && Bits(0x62) == 0x62 && Bits(0x63) == 0x63 && Bits(0x80) == 0x80 && Bits(0) == 0 && Bits(24) == 24
  {
    hide Bits;
    ValuesOfBlock();
    UnbitsRoundTrip(0x61);
    UnbitsRoundTrip(0x62);
    UnbitsRoundTrip(0x63);
    UnbitsRoundTrip(0x80);
    UnbitsRoundTrip(0);
    UnbitsRoundTrip(24);
  }

  lemma ValuesOfBlock()
    ensures Unbits(0x61) == 0x61 && Unbits(0x62) == 0x62 && Unbits(0x63) == 0x63 && Unbits(0x80) == 0x80 && Unbits(0) == 0 && Unbits(24) == 24
  {}

  lemma FirstBytes()
    ensures WordBytes(0xba7816bf) == [0xba, 0x78, 0x16, 0xbf]
    ensures WordBytes(0x8f01cfea)[..2] == [0x8f, 0x01]
  {}

  /** The first 48 bits of the hash of "abc". */
  lemma HashOfAbc()
    ensures Sha48([0x61, 0x62, 0x63]) == [0xba, 0x78, 0x16, 0xbf, 0x8f, 0x01]
  {
    hide Compress, WordBytes, BlockWords, Padding;
    PaddedBlock();
    Compressed();
    FirstBytes();
    var m: seq<byte> := [0x61, 0x62, 0x63];
    var p := m + Padding(3, 24);
    PaddingIsMinimal(3, 24, 0);
    assert p[..|p| - 64] == [] && p[|p| - 64..] == p;
    assert HashBlocks(p) == Compress(HashBlocks([]), BlockWords(p));
  }
}
