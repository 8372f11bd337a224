/** One damaged byte anywhere in an unsigned MAVLink 2 frame, whatever follows it on the wire: exactly when
    it can go unnoticed. Where the damage hides the frame's extent, the receiver goes on inside it or takes
    bytes of what follows, and the question is what it finds. */
module Damage {
  import opened Bytes
  import opened Corruption
  import opened Crc16
  import opened Framing
  import opened Packets
  import opened Reception
  import opened Signing
  import opened Transmission

  /* ---------- What makes a receiver accept something in a stream ---------- */

  /** Bytes a to b of the stream are a frame with a good checksum, and the receiver is idle before them. */
  predicate EmbeddedAt(table: seq<MsgEntry>, s: seq<byte>, a: nat, b: nat) {
    a < b <= |s| && Feed([], s[..a]) == [] && IsFrame(s[a..b]) && CrcGood(table, s[a..b])
  }

  predicate Embedded(table: seq<MsgEntry>, s: seq<byte>) {
    exists a: nat, b: nat | a < b <= |s| :: EmbeddedAt(table, s, a, b)
  }

  lemma PendIsTail(q: Pending, c: byte)
    ensures Pend(q, c) == [] || Pend(q, c) == q + [c]
  {}

  lemma TailGrows(s: seq<byte>, a: nat)
    requires s != [] && a < |s|
    ensures s[..|s| - 1][..a] == s[..a] && s[..|s| - 1][a..] + [s[|s| - 1]] == s[a..]
  {}

  /** What is pending is always the end of the stream, from a place where the receiver was idle. */
  lemma {:induction false} PendingIsTail(s: seq<byte>) returns (a: nat)
    ensures a <= |s| && Feed([], s[..a]) == [] && Feed([], s) == s[a..]
  {
    hide Pend;
    if s == [] {
      a := 0;
    } else {
      var n := |s| - 1;
      a := PendingIsTail(s[..n]);
      TailGrows(s, a);
      PendIsTail(Feed([], s[..n]), s[n]);
      if Feed([], s) == [] {
        a := |s|;
        assert s[..a] == s;
      }
    }
  }

  lemma OkMeansGood(table: seq<MsgEntry>, policy: Option<Policy>, l: Ledger, f: Frame)
    requires Verdict(table, policy, l, f).0 == FRAMING_OK
    ensures CrcGood(table, f)
  {
    hide CrcGood, Verify;
  }

  lemma EmbeddedLonger(table: seq<MsgEntry>, s: seq<byte>, n: nat)
    requires n <= |s| && Embedded(table, s[..n])
    ensures Embedded(table, s)
  {
    hide CrcGood, IsFrame, Feed;
    var a: nat, b: nat :| a < b <= |s[..n]| && EmbeddedAt(table, s[..n], a, b);
    assert s[..n][..a] == s[..a] && s[..n][a..b] == s[a..b];
    assert EmbeddedAt(table, s, a, b);
  }

  /** Whatever the signing policy, only a good frame can make a receiver answer FRAMING_OK. */
  lemma {:induction false} AcceptedMeansEmbedded(table: seq<MsgEntry>, policy: Option<Policy>, l: Ledger, s: seq<byte>)
    requires FRAMING_OK in Results(table, policy, [], l, s)
    ensures Embedded(table, s)
  {
    hide Verdict, Interim, CrcGood, IsFrame, Embedded, LedgerAfter, Results, Pend;
    NothingHeard(table, policy, [], l);
    if s != [] {
      var n := |s| - 1;
      var q := Feed([], s[..n]);
      ByteHeard(table, policy, [], l, s);
      InterimNeverOk(table, q, s[n]);
      if FRAMING_OK in Results(table, policy, [], l, s[..n]) {
        AcceptedMeansEmbedded(table, policy, l, s[..n]);
        EmbeddedLonger(table, s, n);
      } else {
        var a := PendingIsTail(s[..n]);
        LastCompletes(table, policy, LedgerAfter(table, policy, [], l, s[..n]), s, a);
      }
    }
  }

  lemma LastCompletes(table: seq<MsgEntry>, policy: Option<Policy>, l: Ledger, s: seq<byte>, a: nat)
    requires s != [] && a < |s|
    requires Feed([], s[..|s| - 1][..a]) == [] && Feed([], s[..|s| - 1]) == s[..|s| - 1][a..]
    requires var c := Completes(s[..|s| - 1][a..], s[|s| - 1]); c.Some? && Verdict(table, policy, l, c.value).0 == FRAMING_OK
    ensures Embedded(table, s)
  {
    hide Verdict, CrcGood, IsFrame, Feed;
    var n := |s| - 1;
    assert s[..n][a..] + [s[n]] == s[a..] == s[a..|s|] && s[..n][..a] == s[..a];
    OkMeansGood(table, policy, l, s[a..]);
    assert EmbeddedAt(table, s, a, |s|);
  }

  /** Without signing a good frame found while idle is accepted. */
  lemma EmbeddedIsAccepted(table: seq<MsgEntry>, l: Ledger, s: seq<byte>)
    requires Embedded(table, s)
    ensures FRAMING_OK in Results(table, None, [], l, s)
  {
    hide CrcGood, IsFrame, Feed, Results, LedgerAfter, Verdict;
    var a: nat, b: nat :| a < b <= |s| && EmbeddedAt(table, s, a, b);
    var f: Frame := s[a..b];
    var l' := LedgerAfter(table, None, [], l, s[..a]);
    FrameAnswered(table, None, l', f);
    OpenVerdict(table, l', f);
    assert Uncommented(table, f);
    var tail := Results(table, None, Feed([], f), LedgerAfter(table, None, [], l', f), s[b..]);
    assert s == s[..a] + (f + s[b..]);
    ResultsConcat(table, None, [], l, s[..a], f + s[b..]);
    ResultsConcat(table, None, [], l', f, s[b..]);
    var before := Results(table, None, [], l, s[..a]);
    assert Results(table, None, [], l, s) == before + (Silence(|f| - 1) + [FRAMING_OK] + tail);
    assert (before + (Silence(|f| - 1) + [FRAMING_OK] + tail))[|before| + |f| - 1] == FRAMING_OK;
  }

  /* ---------- Where the receiver goes on ---------- */

  lemma IdleByte(table: seq<MsgEntry>, policy: Option<Policy>, l: Ledger, c: byte)
    requires c != STX && c != STX_MAVLINK1
    ensures Feed([], [c]) == [] && LedgerAfter(table, policy, [], l, [c]) == l && Results(table, policy, [], l, [c]) == Silence(1)
  {
    hide Verdict;
    var noise: seq<byte> := [c];
    NoiseIsSilent(table, policy, l, noise);
    QuietStaysIdle(noise);
  }

  /** A lost start byte: the receiver stays idle and reads on behind it. */
  lemma StartByteLost(table: seq<MsgEntry>, policy: Option<Policy>, l: Ledger, f: Frame, c: byte, rest: seq<byte>)
    requires c != STX && c != STX_MAVLINK1
    ensures var g := f[0 := c] + rest;
      Results(table, policy, [], l, g) == Silence(1) + Results(table, policy, [], l, g[1..])
  {
    hide Results, LedgerAfter, Feed, Silence;
    var g := f[0 := c] + rest;
    IdleByte(table, policy, l, c);
    assert g == [c] + g[1..];
    ResultsConcat(table, policy, [], l, [c], g[1..]);
  }

  /** Fewer bytes than the shortest frame has are taken in silence. */
  lemma {:induction false} ShortIsSilent(table: seq<MsgEntry>, policy: Option<Policy>, l: Ledger, s: seq<byte>)
    requires |s| < 8
    ensures LedgerAfter(table, policy, [], l, s) == l && Results(table, policy, [], l, s) == Silence(|s|)
  {
    hide Verdict, Interim, Completes;
    if s != [] {
      var n := |s| - 1;
      ShortIsSilent(table, policy, l, s[..n]);
      var a := PendingIsTail(s[..n]);
      ShortByte(table, Feed([], s[..n]), s[n]);
      SilenceAdds(n, 1);
    }
  }

  lemma ShortByte(table: seq<MsgEntry>, q: Pending, c: byte)
    requires |q| < 7
    ensures Completes(q, c) == None && Interim(table, q, c) == FRAMING_INCOMPLETE
  {
    hide CrcGood;
  }

  lemma ThreeBytes(len: byte, c: byte)
    requires c > 1
    ensures Feed([], [STX, len, c]) == []
  {
    var s: seq<byte> := [STX, len, c];
    assert s[..2] == [STX, len] && s[..2][..1] == [STX] && s[..2][..1][..0] == [];
    assert Feed([], s[..1]) == [STX];
    assert Feed([], s[..2]) == [STX, len];
  }

  /** An unknown incompatibility flag: the receiver is idle again after three bytes and reads on. */
  lemma FlagsUnknown(table: seq<MsgEntry>, policy: Option<Policy>, l: Ledger, f: Frame, c: byte, rest: seq<byte>)
    requires !IsV1(f) && c > 1
    ensures var g := f[2 := c] + rest;
      Results(table, policy, [], l, g) == Silence(3) + Results(table, policy, [], l, g[3..])
  {
    hide Results, LedgerAfter, Feed, Silence;
    var g := f[2 := c] + rest;
    ThreeBytes(f[1], c);
    ShortIsSilent(table, policy, l, [STX, f[1], c]);
    assert g == [STX, f[1], c] + g[3..];
    ResultsConcat(table, policy, [], l, [STX, f[1], c], g[3..]);
  }

  /** A frame that ends early: its verdict, and then whatever follows, read from idle. */
  lemma CutFrame(table: seq<MsgEntry>, policy: Option<Policy>, l: Ledger, g: seq<byte>, k: nat)
    requires k <= |g| && IsFrame(g[..k]) && !IsSigned(g[..k])
    ensures var v := Verdict(table, policy, l, g[..k]);
      && v.1 == l
      && Results(table, policy, [], l, g) == Silence(k - 1) + [v.0] + Results(table, policy, [], l, g[k..])
  {
    hide Results, LedgerAfter, Feed, CrcGood, Silence, IsFrame;
    var f: Frame := g[..k];
    FrameAnswered(table, policy, l, f);
    FrameReported(f);
    assert Uncommented(table, f);
    assert g == f + g[k..];
    ResultsConcat(table, policy, [], l, f, g[k..]);
  }

  /** A smaller length byte: the frame ends early and the receiver reads on behind that. */
  lemma LengthLowered(table: seq<MsgEntry>, policy: Option<Policy>, l: Ledger, f: Frame, len: byte, rest: seq<byte>)
    requires Plain(table, f) && len < f[1]
    ensures var g, k := f[1 := len] + rest, 12 + len as nat;
      && IsFrame(g[..k]) && !IsSigned(g[..k])
      && Results(table, policy, [], l, g) == Silence(k - 1) + [Verdict(table, policy, l, g[..k]).0] + Results(table, policy, [], l, g[k..])
  {
    hide Results, CrcGood, Verdict;
    CutFrame(table, policy, l, f[1 := len] + rest, 12 + len);
  }

  /** A larger length byte: no answer before the longer frame is complete, which takes bytes of what
      follows; then its verdict, and the rest is read from idle. */
  lemma LengthRaised(table: seq<MsgEntry>, policy: Option<Policy>, l: Ledger, f: Frame, len: byte, rest: seq<byte>)
    requires Plain(table, f) && len > f[1]
    ensures var g, k := f[1 := len] + rest, 12 + len as nat;
      if |g| < k then Results(table, policy, [], l, g) == Silence(|g|)
      else
        && IsFrame(g[..k]) && !IsSigned(g[..k])
        && Results(table, policy, [], l, g) == Silence(k - 1) + [Verdict(table, policy, l, g[..k]).0] + Results(table, policy, [], l, g[k..])
  {
    hide Results, CrcGood, Verdict;
    var g, k := f[1 := len] + rest, 12 + len as nat;
    if |g| < k {
      var whole: Frame := g + Zeros(k - |g|);
      assert whole[..|g|] == g;
      PartlySilent(table, policy, l, whole, |g|);
    } else {
      CutFrame(table, policy, l, g, k);
    }
  }

  /** The version 1 start byte: header and length are read by the rules of version 1, the frame ends four
      bytes early, and its last four bytes bring no answer of their own. */
  lemma StartByteOfV1(table: seq<MsgEntry>, policy: Option<Policy>, l: Ledger, f: Frame, rest: seq<byte>)
    requires Plain(table, f)
    ensures var g, k := f[0 := STX_MAVLINK1] + rest, 8 + f[1] as nat;
      && IsFrame(g[..k]) && !IsSigned(g[..k])
      && Results(table, policy, [], l, g) == Silence(k - 1) + [Verdict(table, policy, l, g[..k]).0] + Results(table, policy, [], l, g[k..])
      && Results(table, policy, [], l, g[k..k + 4]) == Silence(4)
  {
    hide Results, CrcGood, Verdict;
    var g, k := f[0 := STX_MAVLINK1] + rest, 8 + f[1] as nat;
    CutFrame(table, policy, l, g, k);
    ShortIsSilent(table, policy, l, g[k..k + 4]);
  }

  /** The signature flag, and the thirteen bytes behind the frame that are then taken for a signature. */
  lemma FlaggedFrame(table: seq<MsgEntry>, f: Frame, signature: seq<byte>)
    requires Plain(table, f) && |signature| == SIGNATURE_BLOCK_LEN
    ensures var w := f[2 := 1] + signature;
      IsFrame(w) && IsSigned(w) && CrcAt(w) == |f| - 2 && !CrcGood(table, w)
  {
    hide CrcGood;
    SignedFlagBreaksCrc(table, f);
    var w := f[2 := 1] + signature;
    assert w[..|f|] == f[2 := 1];
    CrcGoodByPrefix(table, w, |f|);
  }

  /** Turning the signature flag on: FRAMING_BAD_CRC where the frame used to end, and again thirteen bytes
      later if those come; then the receiver is idle. */
  lemma SignatureFlagged(table: seq<MsgEntry>, policy: Option<Policy>, l: Ledger, f: Frame, rest: seq<byte>)
    requires Plain(table, f)
    ensures var g, k := f[2 := 1] + rest, |f| + SIGNATURE_BLOCK_LEN;
      if |g| < k then Results(table, policy, [], l, g) == Silence(|f| - 1) + [FRAMING_BAD_CRC] + Silence(|rest|)
      else
        && IsFrame(g[..k])
        && Results(table, policy, [], l, g)
           == Silence(|f| - 1) + [FRAMING_BAD_CRC] + Silence(12) + [FRAMING_BAD_CRC]
            + Results(table, policy, [], Verdict(table, policy, l, g[..k]).1, g[k..])
  {
    hide Results, LedgerAfter, Feed, CrcGood, Verdict, Plain;
    var g, k := f[2 := 1] + rest, |f| + SIGNATURE_BLOCK_LEN;
    if |g| < k {
      var w: seq<byte> := rest + Zeros(k - |g|);
      FlaggedFrame(table, f, w);
      ReportedTwice(table, policy, l, f[2 := 1] + w);
      assert f[2 := 1] + w == g + Zeros(k - |g|);
      ResultsConcat(table, policy, [], l, g, Zeros(k - |g|));
      Prefix(Results(table, policy, [], l, g), Results(table, policy, Feed([], g), LedgerAfter(table, policy, [], l, g), Zeros(k - |g|)), |f|, |rest|);
    } else {
      FlaggedFrame(table, f, rest[..SIGNATURE_BLOCK_LEN]);
      var w: Frame := f[2 := 1] + rest[..SIGNATURE_BLOCK_LEN];
      assert g[..k] == w && g == w + g[k..];
      ReportedTwice(table, policy, l, w);
      FrameAnswered(table, policy, l, w);
      FrameReported(w);
      ResultsConcat(table, policy, [], l, w, g[k..]);
    }
  }

  lemma Prefix(a: seq<FramingResult>, b: seq<FramingResult>, n: nat, m: nat)
    requires |a| == n + m && m <= 12 && n > 0
    requires a + b == Silence(n - 1) + [FRAMING_BAD_CRC] + Silence(12) + [FRAMING_BAD_CRC]
    ensures a == Silence(n - 1) + [FRAMING_BAD_CRC] + Silence(m)
  {
    assert a == (a + b)[..n + m];
  }

  /* ---------- The exact condition ---------- */

  /** A frame that ends after k bytes is good, or the receiver meets a good one behind it. */
  predicate GoodFrom(table: seq<MsgEntry>, g: seq<byte>, k: nat)
    requires k <= |g| && IsFrame(g[..k])
  {
    CrcGood(table, g[..k]) || Embedded(table, g[k..])
  }

  /** When the receiver accepts something after byte i of the frame has turned into c and `rest` has
      followed. With an empty rest only the frame's own bytes matter, and a sender can check it: then it
      is impossible but for a start byte, a lowered length, an unknown flag or a message id byte. */
  predicate Unnoticed(table: seq<MsgEntry>, f: Frame, i: nat, c: byte, rest: seq<byte>)
    requires Plain(table, f) && i < |f|
  {
    var g := f[i := c] + rest;
    if i == 0 then
      if c == STX_MAVLINK1 then GoodFrom(table, g, 8 + f[1] as nat) else Embedded(table, g[1..])
    else if i == 1 then
      |g| >= 12 + c as nat && GoodFrom(table, g, 12 + c as nat)
    else if i == 2 then
      if c == 1 then |rest| >= SIGNATURE_BLOCK_LEN && Embedded(table, rest[SIGNATURE_BLOCK_LEN..]) else Embedded(table, g[3..])
    else
      (7 <= i <= 9 && Disguised(table, f, i, c)) || Embedded(table, rest)
  }

  lemma InSecond(a: seq<FramingResult>, b: seq<FramingResult>)
    requires FRAMING_OK !in a
    ensures FRAMING_OK in a + b <==> FRAMING_OK in b
  {
    if FRAMING_OK in b {
      var i :| 0 <= i < |b| && b[i] == FRAMING_OK;
      assert (a + b)[|a| + i] == FRAMING_OK;
    }
  }

  lemma SilentHasNoOk(n: nat)
    ensures FRAMING_OK !in Silence(n)
  {}

  lemma InTail(n: nat, v: FramingResult, tail: seq<FramingResult>)
    ensures FRAMING_OK in Silence(n) + [v] + tail <==> v == FRAMING_OK || FRAMING_OK in tail
  {
    assert FRAMING_OK in Silence(n) + [v] <==> v == FRAMING_OK by {
      InSecond(Silence(n), [v]);
    }
    if v == FRAMING_OK {
      assert (Silence(n) + [v] + tail)[n] == FRAMING_OK;
    } else {
      InSecond(Silence(n) + [v], tail);
    }
  }

  /** Only good frames are accepted, and without signing all of them: for one verdict and for a stream. */
  lemma AcceptedIff(table: seq<MsgEntry>, policy: Option<Policy>, l: Ledger, s: seq<byte>)
    ensures FRAMING_OK in Results(table, policy, [], l, s) ==> Embedded(table, s)
    ensures policy.None? ==> (FRAMING_OK in Results(table, policy, [], l, s) <==> Embedded(table, s))
  {
    hide Embedded, Results;
    if FRAMING_OK in Results(table, policy, [], l, s) {
      AcceptedMeansEmbedded(table, policy, l, s);
    } else if policy.None? && Embedded(table, s) {
      EmbeddedIsAccepted(table, l, s);
    }
  }

  lemma VerdictIff(table: seq<MsgEntry>, policy: Option<Policy>, l: Ledger, f: Frame)
    ensures Verdict(table, policy, l, f).0 == FRAMING_OK ==> CrcGood(table, f)
    ensures policy.None? ==> (Verdict(table, policy, l, f).0 == FRAMING_OK <==> CrcGood(table, f))
  {
    hide CrcGood, Verify;
  }

  /** What CutFrame means for acceptance. */
  lemma CutIff(table: seq<MsgEntry>, policy: Option<Policy>, l: Ledger, g: seq<byte>, k: nat)
    requires k <= |g| && IsFrame(g[..k]) && !IsSigned(g[..k])
    ensures FRAMING_OK in Results(table, policy, [], l, g) ==> GoodFrom(table, g, k)
    ensures policy.None? ==> (FRAMING_OK in Results(table, policy, [], l, g) <==> GoodFrom(table, g, k))
  {
    hide Embedded, Results, CrcGood, Verdict, Silence, IsFrame;
    CutFrame(table, policy, l, g, k);
    VerdictIff(table, policy, l, g[..k]);
    AcceptedIff(table, policy, l, g[k..]);
    InTail(k - 1, Verdict(table, policy, l, g[..k]).0, Results(table, policy, [], l, g[k..]));
  }

  lemma FirstByteDamaged(table: seq<MsgEntry>, policy: Option<Policy>, l: Ledger, f: Frame, c: byte, rest: seq<byte>)
    requires Plain(table, f) && c != f[0]
    ensures FRAMING_OK in Results(table, policy, [], l, f[0 := c] + rest) ==> Unnoticed(table, f, 0, c, rest)
    ensures policy.None? ==> (FRAMING_OK in Results(table, policy, [], l, f[0 := c] + rest) <==> Unnoticed(table, f, 0, c, rest))
  {
    hide Embedded, Results, CrcGood, Verdict, Silence, GoodFrom;
    var g := f[0 := c] + rest;
    if c == STX_MAVLINK1 {
      StartByteOfV1(table, policy, l, f, rest);
      CutIff(table, policy, l, g, 8 + f[1] as nat);
    } else {
      StartByteLost(table, policy, l, f, c, rest);
      AcceptedIff(table, policy, l, g[1..]);
      SilentHasNoOk(1);
      InSecond(Silence(1), Results(table, policy, [], l, g[1..]));
    }
  }

  lemma LengthDamaged(table: seq<MsgEntry>, policy: Option<Policy>, l: Ledger, f: Frame, c: byte, rest: seq<byte>)
    requires Plain(table, f) && c != f[1]
    ensures FRAMING_OK in Results(table, policy, [], l, f[1 := c] + rest) ==> Unnoticed(table, f, 1, c, rest)
    ensures policy.None? ==> (FRAMING_OK in Results(table, policy, [], l, f[1 := c] + rest) <==> Unnoticed(table, f, 1, c, rest))
  {
    hide Embedded, Results, CrcGood, Verdict, Silence, GoodFrom;
    var g, k := f[1 := c] + rest, 12 + c as nat;
    if |g| < k {
      LengthRaised(table, policy, l, f, c, rest);
      SilentHasNoOk(|g|);
    } else {
      assert IsFrame(g[..k]) && !IsSigned(g[..k]);
      CutIff(table, policy, l, g, k);
    }
  }

  lemma FlagsDamaged(table: seq<MsgEntry>, policy: Option<Policy>, l: Ledger, f: Frame, c: byte, rest: seq<byte>)
    requires Plain(table, f) && c != f[2]
    ensures FRAMING_OK in Results(table, policy, [], l, f[2 := c] + rest) ==> Unnoticed(table, f, 2, c, rest)
    ensures policy.None? ==> (FRAMING_OK in Results(table, policy, [], l, f[2 := c] + rest) <==> Unnoticed(table, f, 2, c, rest))
  {
    hide Embedded, Results, CrcGood, Verdict, Silence, GoodFrom;
    var g := f[2 := c] + rest;
    if c > 1 {
      FlagsUnknown(table, policy, l, f, c, rest);
      AcceptedIff(table, policy, l, g[3..]);
      SilentHasNoOk(3);
      InSecond(Silence(3), Results(table, policy, [], l, g[3..]));
    } else {
      FlagDamaged(table, policy, l, f, rest);
    }
  }

  lemma FlagDamaged(table: seq<MsgEntry>, policy: Option<Policy>, l: Ledger, f: Frame, rest: seq<byte>)
    requires Plain(table, f)
    ensures FRAMING_OK in Results(table, policy, [], l, f[2 := 1] + rest) ==> Unnoticed(table, f, 2, 1, rest)
    ensures policy.None? ==> (FRAMING_OK in Results(table, policy, [], l, f[2 := 1] + rest) <==> Unnoticed(table, f, 2, 1, rest))
  {
    hide Embedded, Results, CrcGood, Verdict, Silence, GoodFrom;
    var g, k := f[2 := 1] + rest, |f| + SIGNATURE_BLOCK_LEN;
    SignatureFlagged(table, policy, l, f, rest);
    var first := Silence(|f| - 1) + [FRAMING_BAD_CRC];
    SilentHasNoOk(|f| - 1);
    InSecond(Silence(|f| - 1), [FRAMING_BAD_CRC]);
    if |g| < k {
      SilentHasNoOk(|rest|);
      InSecond(first, Silence(|rest|));
    } else {
      assert g[k..] == rest[SIGNATURE_BLOCK_LEN..];
      var l' := Verdict(table, policy, l, g[..k]).1;
      SilentHasNoOk(12);
      InSecond(first, Silence(12));
      InSecond(first + Silence(12), [FRAMING_BAD_CRC]);
      InSecond(first + Silence(12) + [FRAMING_BAD_CRC], Results(table, policy, [], l', g[k..]));
      AcceptedIff(table, policy, l', g[k..]);
    }
  }

  /** Damage that leaves the frame's extent alone is all a matter of the checksum. */
  lemma WithinDamaged(table: seq<MsgEntry>, f: Frame, i: nat, c: byte)
    requires Plain(table, f) && 3 <= i < |f| && c != f[i]
    ensures var d := f[i := c];
      IsFrame(d) && !IsSigned(d) && (CrcGood(table, d) <==> 7 <= i <= 9 && Disguised(table, f, i, c))
  {
    hide CrcGood, Disguised;
    var d := f[i := c];
    if 7 <= i <= 9 {
      MessageIdCrc(table, f, i, c);
    } else {
      assert Overwrites(f, d, i, 1) by {
        assert d[..i] == f[..i] && d[i + 1..] == f[i + 1..] && d[i] != f[i];
      }
      BurstCaught(table, f, d, i, 1);
    }
  }

  lemma OtherDamaged(table: seq<MsgEntry>, policy: Option<Policy>, l: Ledger, f: Frame, i: nat, c: byte, rest: seq<byte>)
    requires Plain(table, f) && 3 <= i < |f| && c != f[i]
    ensures FRAMING_OK in Results(table, policy, [], l, f[i := c] + rest) ==> Unnoticed(table, f, i, c, rest)
    ensures policy.None? ==> (FRAMING_OK in Results(table, policy, [], l, f[i := c] + rest) <==> Unnoticed(table, f, i, c, rest))
  {
    hide Results, CrcGood, Disguised, Embedded, IsFrame, IsSigned;
    var g := f[i := c] + rest;
    WithinDamaged(table, f, i, c);
    assert g[..|f|] == f[i := c] && g[|f|..] == rest;
    CutIff(table, policy, l, g, |f|);
  }

  /** Any one damaged byte of an unsigned version 2 frame, whatever follows it: a receiver without signing
      answers FRAMING_OK somewhere if and only if the damage is one of those; with signing, only then. */
  lemma OneByteDamaged(table: seq<MsgEntry>, policy: Option<Policy>, l: Ledger, f: Frame, i: nat, c: byte, rest: seq<byte>)
    requires Plain(table, f) && i < |f| && c != f[i]
    ensures FRAMING_OK in Results(table, policy, [], l, f[i := c] + rest) ==> Unnoticed(table, f, i, c, rest)
    ensures policy.None? ==> (FRAMING_OK in Results(table, policy, [], l, f[i := c] + rest) <==> Unnoticed(table, f, i, c, rest))
  {
    hide Results, Unnoticed, Plain;
    if i == 0 {
      FirstByteDamaged(table, policy, l, f, c, rest);
    } else if i == 1 {
      LengthDamaged(table, policy, l, f, c, rest);
    } else if i == 2 {
      FlagsDamaged(table, policy, l, f, c, rest);
    } else {
      OtherDamaged(table, policy, l, f, i, c, rest);
    }
  }

  /* ---------- What a sender can do about it ---------- */

  lemma {:induction false} QuietPart(s: seq<byte>, k: nat)
    requires Quiet(s) && k <= |s|
    ensures Quiet(s[k..])
  {}

  /** The payload holds a checksum that fits the frame cut to a smaller length. */
  predicate ShorterFits(table: seq<MsgEntry>, f: Frame, len: byte)
    requires Plain(table, f) && len < f[1]
  {
    CrcGood(table, f[1 := len][..12 + len as nat])
  }

  /** A sender's precaution: no start byte behind the first, and no checksum in the payload that would fit
      the header with a smaller length or, read as version 1, with its own. */
  predicate Guarded(table: seq<MsgEntry>, f: Frame)
    requires Plain(table, f)
  {
    && Quiet(f[1..])
    && !CrcGood(table, f[0 := STX_MAVLINK1][..8 + f[1] as nat])
    && forall len: byte | len < f[1] :: !ShorterFits(table, f, len)
  }

  /** What follows happens to complete the frame with a larger length, checksum and all. */
  predicate LongerFits(table: seq<MsgEntry>, f: Frame, len: byte, rest: seq<byte>)
    requires Plain(table, f) && f[1] < len <= f[1] + |rest|
  {
    CrcGood(table, (f[1 := len] + rest)[..12 + len as nat])
  }

  /** How many of the following bytes the damaged frame takes for its own. */
  function Swallowed(f: Frame, i: nat, c: byte): nat {
    if i == 1 && c > f[1] then c - f[1] else if i == 2 && c == 1 then SIGNATURE_BLOCK_LEN else 0
  }

  /** The stretch brings no FRAMING_OK, and leaves the receiver idle with its ledger as it was. */
  ghost predicate Harmless(table: seq<MsgEntry>, policy: Option<Policy>, l: Ledger, w: seq<byte>) {
    FRAMING_OK !in Results(table, policy, [], l, w) && Feed([], w) == [] && LedgerAfter(table, policy, [], l, w) == l
  }

  lemma QuietIsHarmless(table: seq<MsgEntry>, policy: Option<Policy>, l: Ledger, w: seq<byte>)
    requires Quiet(w)
    ensures Harmless(table, policy, l, w)
  {
    hide Results, LedgerAfter, Feed, Quiet;
    NoiseIsSilent(table, policy, l, w);
    QuietStaysIdle(w);
    SilentHasNoOk(|w|);
  }

  lemma HarmlessConcat(table: seq<MsgEntry>, policy: Option<Policy>, l: Ledger, a: seq<byte>, b: seq<byte>)
    requires Harmless(table, policy, l, a) && Harmless(table, policy, l, b)
    ensures Harmless(table, policy, l, a + b)
  {
    hide Results, LedgerAfter, Feed;
    ResultsConcat(table, policy, [], l, a, b);
    FeedConcat([], a, b);
    InSecond(Results(table, policy, [], l, a), Results(table, policy, [], l, b));
  }

  /** A bad frame, and nothing that starts one behind it. */
  lemma BadFrameIsHarmless(table: seq<MsgEntry>, policy: Option<Policy>, l: Ledger, w: seq<byte>, k: nat)
    requires k <= |w| && IsFrame(w[..k]) && !IsSigned(w[..k]) && !CrcGood(table, w[..k]) && Quiet(w[k..])
    ensures Harmless(table, policy, l, w)
  {
    hide Results, LedgerAfter, Feed, CrcGood, Quiet, Harmless, IsFrame;
    var f: Frame := w[..k];
    FrameIsHarmless(table, policy, l, f);
    QuietIsHarmless(table, policy, l, w[k..]);
    HarmlessConcat(table, policy, l, f, w[k..]);
    assert f + w[k..] == w;
  }

  lemma FrameIsHarmless(table: seq<MsgEntry>, policy: Option<Policy>, l: Ledger, f: Frame)
    requires !IsSigned(f) && !CrcGood(table, f)
    ensures Harmless(table, policy, l, f)
  {
    hide Results, LedgerAfter, Feed, CrcGood, IsFrame;
    FrameAnswered(table, policy, l, f);
    FrameReported(f);
    SilentHasNoOk(|f| - 1);
    InSecond(Silence(|f| - 1), [FRAMING_BAD_CRC]);
  }

  lemma ShortIsHarmless(table: seq<MsgEntry>, policy: Option<Policy>, l: Ledger, len: byte, c: byte)
    requires c > 1
    ensures Harmless(table, policy, l, [STX, len, c])
  {
    hide Results, LedgerAfter, Feed;
    ThreeBytes(len, c);
    ShortIsSilent(table, policy, l, [STX, len, c]);
    SilentHasNoOk(3);
  }

  /** The damaged frame, with what it swallowed, where the frame was guarded. */
  lemma GuardedHarmless(table: seq<MsgEntry>, policy: Option<Policy>, l: Ledger, f: Frame, i: nat, c: byte, swallowed: seq<byte>)
    requires Plain(table, f) && i < |f| && c != f[i] && Guarded(table, f) && |swallowed| == Swallowed(f, i, c)
    requires 7 <= i <= 9 ==> !Disguised(table, f, i, c)
    requires i == 1 && c > f[1] ==> !LongerFits(table, f, c, swallowed)
    requires (i, c) != (2, 1)
    ensures Harmless(table, policy, l, f[i := c] + swallowed)
  {
    hide CrcGood, Disguised, Harmless, Quiet;
    var w := f[i := c] + swallowed;
    if i == 0 && c != STX_MAVLINK1 {
      QuietWhole(f, c);
      assert w == f[0 := c];
      QuietIsHarmless(table, policy, l, w);
    } else if i == 0 {
      QuietPart(f[1..], 7 + f[1] as nat);
      assert f[1..][7 + f[1] as nat..] == w[8 + f[1] as nat..] && w[..8 + f[1] as nat] == f[0 := c][..8 + f[1] as nat];
      BadFrameIsHarmless(table, policy, l, w, 8 + f[1] as nat);
    } else if i == 1 && c < f[1] {
      QuietPart(f[1..], 11 + c as nat);
      assert !ShorterFits(table, f, c);
      assert f[1..][11 + c as nat..] == w[12 + c as nat..] && w[..12 + c as nat] == f[1 := c][..12 + c as nat];
      BadFrameIsHarmless(table, policy, l, w, 12 + c as nat);
    } else if i == 1 {
      assert w[..12 + c as nat] == w;
      FrameIsHarmless(table, policy, l, w);
    } else if i == 2 {
      QuietPart(f[1..], 2);
      assert w == [STX, f[1], c] + f[1..][2..];
      ShortIsHarmless(table, policy, l, f[1], c);
      QuietIsHarmless(table, policy, l, f[1..][2..]);
      HarmlessConcat(table, policy, l, [STX, f[1], c], f[1..][2..]);
    } else {
      WithinDamaged(table, f, i, c);
      assert w == f[i := c];
      FrameIsHarmless(table, policy, l, w);
    }
  }

  lemma QuietWhole(f: Frame, c: byte)
    requires Quiet(f[1..]) && c != STX && c != STX_MAVLINK1
    ensures Quiet(f[0 := c])
  {
    var w := f[0 := c];
    forall k | 0 <= k < |w| ensures w[k] != STX && w[k] != STX_MAVLINK1 {
      if k > 0 {
        assert w[k] == f[1..][k - 1];
      }
    }
  }

  lemma StillNoFit(table: seq<MsgEntry>, f: Frame, c: byte, rest: seq<byte>)
    requires Plain(table, f) && f[1] < c <= f[1] + |rest|
    ensures LongerFits(table, f, c, rest[..c - f[1]]) == LongerFits(table, f, c, rest)
  {
    hide CrcGood;
    assert (f[1 := c] + rest)[..12 + c as nat] == (f[1 := c] + rest[..c - f[1]])[..12 + c as nat];
  }

  /** With that precaution a damaged byte (unless it is a message id byte that the table disguises, or a
      raised length that what follows fits) is never answered FRAMING_OK, and the receiver is idle again
      at the end of the frame, or of what the frame swallowed: what follows is answered as if nothing had
      happened. Only the signature flag may touch the ledger, because a signature is checked then. */
  lemma PrecautionHolds(table: seq<MsgEntry>, policy: Option<Policy>, l: Ledger, f: Frame, i: nat, c: byte, rest: seq<byte>)
    requires Plain(table, f) && i < |f| && c != f[i] && Guarded(table, f)
    requires 7 <= i <= 9 ==> !Disguised(table, f, i, c)
    requires i == 1 && f[1] < c <= f[1] + |rest| ==> !LongerFits(table, f, c, rest)
    ensures var n := Swallowed(f, i, c);
      if |rest| < n then FRAMING_OK !in Results(table, policy, [], l, f[i := c] + rest)
      else
        var w := f[i := c] + rest[..n];
        var l' := LedgerAfter(table, policy, [], l, w);
        && FRAMING_OK !in Results(table, policy, [], l, w) && Feed([], w) == []
        && ((i, c) != (2, 1) ==> l' == l)
        && Results(table, policy, [], l, f[i := c] + rest) == Results(table, policy, [], l, w) + Results(table, policy, [], l', rest[n..])
  {
    hide Results, LedgerAfter, Feed, CrcGood, Guarded, Disguised, Verdict, Plain, LongerFits;
    var n, d := Swallowed(f, i, c), f[i := c];
    if |rest| < n {
      TooShort(table, policy, l, f, i, c, rest);
    } else {
      var w := d + rest[..n];
      if (i, c) == (2, 1) {
        FlagSwallows(table, policy, l, f, rest[..n]);
      } else {
        if i == 1 && c > f[1] {
          StillNoFit(table, f, c, rest);
        }
        GuardedHarmless(table, policy, l, f, i, c, rest[..n]);
      }
      assert d + rest == w + rest[n..];
      ResultsConcat(table, policy, [], l, w, rest[n..]);
    }
  }

  lemma TooShort(table: seq<MsgEntry>, policy: Option<Policy>, l: Ledger, f: Frame, i: nat, c: byte, rest: seq<byte>)
    requires Plain(table, f) && i < |f| && c != f[i] && |rest| < Swallowed(f, i, c)
    ensures FRAMING_OK !in Results(table, policy, [], l, f[i := c] + rest)
  {
    hide Results, CrcGood, Embedded, Disguised, GoodFrom;
    OneByteDamaged(table, policy, l, f, i, c, rest);
  }

  lemma FlagSwallows(table: seq<MsgEntry>, policy: Option<Policy>, l: Ledger, f: Frame, signature: seq<byte>)
    requires Plain(table, f) && |signature| == SIGNATURE_BLOCK_LEN
    ensures var w := f[2 := 1] + signature; FRAMING_OK !in Results(table, policy, [], l, w) && Feed([], w) == []
  {
    hide Results, Feed, CrcGood, Verdict;
    FlaggedFrame(table, f, signature);
    FrameReported(f[2 := 1] + signature);
    ReportedTwice(table, policy, l, f[2 := 1] + signature);
    SilentHasNoOk(|f| - 1);
    SilentHasNoOk(12);
  }

  /* ---------- Frames that such damage opens ---------- */

  /** A packet whose payload is itself a good frame. */
  lemma PayloadOpened(table: seq<MsgEntry>, l: Ledger, p: Packet, e: MsgEntry, c: byte)
    requires Sendable(p) && !p.v1 && !p.signed && Lookup(table, p.msgid) == Some(e)
    requires IsFrame(p.payload) && CrcGood(table, p.payload) && Quiet(Header(p)[1..])
    ensures var f := Encode(p, e.crcExtra, []);
      && (c != STX && c != STX_MAVLINK1 ==> FRAMING_OK in Results(table, None, [], l, f[0 := c]))
      && (c > 1 ==> FRAMING_OK in Results(table, None, [], l, f[2 := c]))
  {
    hide Results, CrcGood, Embedded, Header, Lookup, Checksum;
    EncodeIsFrame(p, e.crcExtra, []);
    EncodeChecks(table, p, e, []);
    var f: Frame := Encode(p, e.crcExtra, []);
    PayloadEmbedded(table, p, e, 1);
    PayloadEmbedded(table, p, e, 3);
    if c != STX && c != STX_MAVLINK1 {
      FirstByteDamaged(table, None, l, f, c, []);
      assert f[0 := c] + [] == f[0 := c];
    }
    if c > 1 {
      FlagsDamaged(table, None, l, f, c, []);
      assert f[2 := c] + [] == f[2 := c];
    }
  }

  lemma MiddlePart<T>(head: seq<T>, middle: seq<T>, tail: seq<T>, k: nat)
    requires 1 <= k <= |head|
    ensures var s, a := (head + middle + tail)[k..], |head| - k;
      s[..a] == head[1..][k - 1..] && s[a..a + |middle|] == middle
  {}

  lemma PayloadEmbedded(table: seq<MsgEntry>, p: Packet, e: MsgEntry, k: nat)
    requires Sendable(p) && !p.v1 && !p.signed && 1 <= k <= 10
    requires IsFrame(p.payload) && CrcGood(table, p.payload) && Quiet(Header(p)[1..])
    ensures Embedded(table, Encode(p, e.crcExtra, [])[k..])
  {
    hide CrcGood, Checksum, Feed, Quiet, Lo, Hi, IsFrame;
    var head, ck := Header(p), [Lo(Checksum(p, e.crcExtra)), Hi(Checksum(p, e.crcExtra))];
    assert |head| == 10;
    hide Header;
    var s := Encode(p, e.crcExtra, [])[k..];
    var a, b := 10 - k, 10 - k + |p.payload|;
    assert Encode(p, e.crcExtra, []) == head + p.payload + ck;
    MiddlePart(head, p.payload, ck, k);
    QuietPart(head[1..], k - 1);
    QuietStaysIdle(s[..a]);
    FrameNotEmpty(p.payload);
    assert EmbeddedAt(table, s, a, b);
  }

  lemma ShorterFormInside(q: Packet, extra: byte)
    requires Sendable(q) && !q.v1 && !q.signed && |q.payload| <= 253
    ensures var p := q.(payload := q.payload + [Lo(Checksum(q, extra)), Hi(Checksum(q, extra))]);
      && Sendable(p) && |Encode(p, extra, [])| == |q.payload| + 14
      && Encode(p, extra, [])[1 := |q.payload|][..12 + |q.payload|] == Encode(q, extra, [])
  {
    hide Checksum, Lo, Hi, MsgidBytes;
    var ck := [Lo(Checksum(q, extra)), Hi(Checksum(q, extra))];
    var g := Encode(q.(payload := q.payload + ck), extra, [])[1 := |q.payload|];
    assert g[..10] == Header(q);
    assert g[10..12 + |q.payload|] == q.payload + ck;
    assert g[..12 + |q.payload|] == g[..10] + g[10..12 + |q.payload|];
  }

  /** A packet whose payload ends in the checksum of its own shorter form. */
  lemma ShorterFormOpened(table: seq<MsgEntry>, l: Ledger, q: Packet, e: MsgEntry)
    requires Sendable(q) && !q.v1 && !q.signed && |q.payload| <= 253 && Lookup(table, q.msgid) == Some(e)
    ensures var ck := [Lo(Checksum(q, e.crcExtra)), Hi(Checksum(q, e.crcExtra))];
      var p := q.(payload := q.payload + ck);
      Sendable(p) && FRAMING_OK in Results(table, None, [], l, Encode(p, e.crcExtra, [])[1 := |q.payload|])
  {
    hide Results, CrcGood, Embedded, Lookup, Checksum, Encode, Lo, Hi;
    ShorterFormInside(q, e.crcExtra);
    var p := q.(payload := q.payload + [Lo(Checksum(q, e.crcExtra)), Hi(Checksum(q, e.crcExtra))]);
    EncodeIsFrame(p, e.crcExtra, []);
    EncodeChecks(table, p, e, []);
    EncodeChecks(table, q, e, []);
    var f: Frame := Encode(p, e.crcExtra, []);
    assert f[1 := |q.payload|] + [] == f[1 := |q.payload|];
    LengthDamaged(table, None, l, f, |q.payload|, []);
  }

  /** Any frame, also a guarded one, whose length byte is raised by two while the checksum of the longer
      reading follows. */
  lemma LongerFormOpened(table: seq<MsgEntry>, l: Ledger, f: Frame)
    requires Plain(table, f) && f[1] <= 253
    ensures var g := f[1 := f[1] + 2];
      var checksum := Crc(INIT_CRC, g[1..] + [Lookup(table, MsgidOf(f)).value.crcExtra]);
      FRAMING_OK in Results(table, None, [], l, g + [Lo(checksum), Hi(checksum)])
  {
    hide Results, Embedded, Crc, Lookup, Lo, Hi;
    var g := f[1 := f[1] + 2];
    var e := Lookup(table, MsgidOf(f)).value;
    var checksum := Crc(INIT_CRC, g[1..] + [e.crcExtra]);
    var rest: seq<byte> := [Lo(checksum), Hi(checksum)];
    var h := g + rest;
    assert h[..14 + f[1] as nat] == h && CrcAt(h) == |g| && MsgidOf(h) == MsgidOf(f);
    assert h[1..CrcAt(h)] == g[1..];
    LengthDamaged(table, None, l, f, f[1] + 2, rest);
  }

  /** A version 1 packet, and the version 2 packet that turns into it behind the other start byte: its
      header fields move, its last four header bytes become payload, its payload begins with x and q's checksum. */
  function OldForm(seqno: byte, sysid: byte, compid: byte, msgid: nat, x: seq<byte>): Packet {
    Packet(true, false, 0, 0, seqno, sysid, [compid] + MsgidBytes(msgid) + x)
  }

  function NewForm(seqno: byte, sysid: byte, compid: byte, msgid: nat, x: seq<byte>, ck: seq<byte>): Packet {
    Packet(false, false, seqno, sysid, compid, msgid, x + ck)
  }

  lemma OldHeader(n: byte, seqno: byte, sysid: byte, compid: byte, msgid: nat)
    ensures HeaderV2(STX, n, 0, 0, seqno, sysid, compid, msgid)[0 := STX_MAVLINK1]
         == HeaderV1(STX_MAVLINK1, n, 0, 0, seqno, sysid) + [compid] + MsgidBytes(msgid)
  {
    hide MsgidBytes;
  }

  lemma HeadReplaced<T>(head: seq<T>, body: seq<T>, tail: seq<T>, first: T)
    requires head != []
    ensures (head + body + tail + [])[0 := first] == head[0 := first] + body + tail
  {}

  lemma Regroup<T>(a: seq<T>, b: seq<T>, c: seq<T>, d: seq<T>, e: seq<T>, f: seq<T>)
    ensures var whole, front := a + b + (c + (d + e)) + f, a + (b + c) + d + [];
      |front| <= |whole| && whole[..|front|] == front
  {
    assert a + b + (c + (d + e)) + f == (a + (b + c) + d + []) + (e + f);
  }

  lemma OldFormInside(seqno: byte, sysid: byte, compid: byte, msgid: nat, x: seq<byte>, tail: seq<byte>, oldExtra: byte, extra: byte)
    requires |x| <= 251 && msgid < 0x100_0000 && |tail| == 2
    ensures var q := OldForm(seqno, sysid, compid, msgid, x);
      Sendable(q) &&
      var p := NewForm(seqno, sysid, compid, msgid, x, [Lo(Checksum(q, oldExtra)), Hi(Checksum(q, oldExtra))] + tail);
      Sendable(p) && |Encode(p, extra, [])| == |x| + 16 && Encode(p, extra, [])[0 := STX_MAVLINK1][..12 + |x|] == Encode(q, oldExtra, [])
  {
    hide Checksum, Lo, Hi, MsgidBytes, HeaderV1, HeaderV2;
    var q := OldForm(seqno, sysid, compid, msgid, x);
    var ck := [Lo(Checksum(q, oldExtra)), Hi(Checksum(q, oldExtra))];
    var p := NewForm(seqno, sysid, compid, msgid, x, ck + tail);
    var ckp := [Lo(Checksum(p, extra)), Hi(Checksum(p, extra))];
    OldHeader(|x| + 4, seqno, sysid, compid, msgid);
    HeadReplaced(Header(p), p.payload, ckp, STX_MAVLINK1);
    Regroup(Header(q), [compid] + MsgidBytes(msgid), x, ck, tail, ckp);
  }

  lemma OldFormOpened(table: seq<MsgEntry>, l: Ledger, seqno: byte, sysid: byte, compid: byte, msgid: nat, x: seq<byte>,
                      tail: seq<byte>, d: MsgEntry, e: MsgEntry)
    requires |x| <= 251 && msgid < 0x100_0000 && |tail| == 2
    requires Lookup(table, sysid) == Some(d) && Lookup(table, msgid) == Some(e)
    ensures var q := OldForm(seqno, sysid, compid, msgid, x);
      Sendable(q) &&
      var p := NewForm(seqno, sysid, compid, msgid, x, [Lo(Checksum(q, d.crcExtra)), Hi(Checksum(q, d.crcExtra))] + tail);
      Sendable(p) && FRAMING_OK in Results(table, None, [], l, Encode(p, e.crcExtra, [])[0 := STX_MAVLINK1])
  {
    hide Results, CrcGood, Embedded, Lookup, Checksum, Encode, Lo, Hi, MsgidBytes;
    OldFormInside(seqno, sysid, compid, msgid, x, tail, d.crcExtra, e.crcExtra);
    var q := OldForm(seqno, sysid, compid, msgid, x);
    var p := NewForm(seqno, sysid, compid, msgid, x, [Lo(Checksum(q, d.crcExtra)), Hi(Checksum(q, d.crcExtra))] + tail);
    EncodeIsFrame(p, e.crcExtra, []);
    EncodeChecks(table, p, e, []);
    EncodeChecks(table, q, d, []);
    var f: Frame := Encode(p, e.crcExtra, []);
    assert f[0 := STX_MAVLINK1] + [] == f[0 := STX_MAVLINK1];
    FirstByteDamaged(table, None, l, f, STX_MAVLINK1, []);
  }
}
