/** A ULog stream cut into packets: message boundaries, packets and their first-message offsets. */
module UlogStream {
  import opened Bytes
  import opened Ulog

  const MAX_DATA := 249

  /** A file header, the messages behind it, and where the stream is cut: packet i is what lies between
      cuts i and i + 1. */
  datatype Stream = Stream(header: seq<byte>, messages: seq<seq<byte>>, cuts: seq<nat>)

  predicate IsMessage(m: seq<byte>) { |m| > 2 && MessageLength(m) == |m| }

  function Flat(ms: seq<seq<byte>>): seq<byte> {
    if ms == [] then [] else Flat(ms[..|ms| - 1]) + ms[|ms| - 1]
  }

  function Content(s: Stream): seq<byte> { s.header + Flat(s.messages) }

  predicate WellFormed(s: Stream) {
    && |s.header| == HEADER_LEN && (forall i :: 0 <= i < |s.messages| ==> IsMessage(s.messages[i]))
    && |s.cuts| >= 2 && s.cuts[0] == 0 && s.cuts[1] >= HEADER_LEN && s.cuts[|s.cuts| - 1] <= |Content(s)|
    && (forall i, j :: 0 <= i <= j < |s.cuts| ==> s.cuts[i] <= s.cuts[j])
    && (forall i :: 0 <= i < |s.cuts| - 1 ==> s.cuts[i + 1] <= s.cuts[i] + MAX_DATA)
  }

  type UlogFile = s: Stream | WellFormed(s)
    witness Stream([0, 0, 0, 0, 0, 0, 0, 0, 0, 0, 0, 0, 0, 0, 0, 0], [], [0, 16])

  predicate IsPacket(s: UlogFile, i: int) { 0 <= i < |s.cuts| - 1 }

  /* ---------- Boundaries ---------- */

  /** Where message k starts; where the last one ends, for k the number of messages. */
  function At(s: UlogFile, k: nat): (p: nat)
    requires k <= |s.messages|
    ensures p >= HEADER_LEN + 3 * k
  {
    if k == 0 then HEADER_LEN else At(s, k - 1) + |s.messages[k - 1]|
  }

  lemma {:induction false} AtGrows(s: UlogFile, j: nat, k: nat)
    requires j <= k <= |s.messages|
    ensures At(s, j) + 3 * (k - j) <= At(s, k)
  {
    if j < k {
      AtGrows(s, j, k - 1);
    }
  }

  lemma {:induction false} PrefixLength(s: UlogFile, k: nat)
    requires k <= |s.messages|
    ensures At(s, k) == HEADER_LEN + |Flat(s.messages[..k])|
    ensures At(s, k) <= |Content(s)| && Content(s)[..At(s, k)] == s.header + Flat(s.messages[..k])
    decreases |s.messages| - k
  {
    FlatLength(s, k);
    if k == |s.messages| {
      assert s.messages[..k] == s.messages;
    } else {
      PrefixLength(s, k + 1);
      FlatStep(s.messages, k);
    }
  }

  lemma FlatStep(ms: seq<seq<byte>>, k: nat)
    requires k < |ms|
    ensures Flat(ms[..k + 1]) == Flat(ms[..k]) + ms[k]
  {
    assert ms[..k + 1][..k] == ms[..k];
  }

  lemma {:induction false} FlatLength(s: UlogFile, k: nat)
    requires k <= |s.messages|
    ensures At(s, k) == HEADER_LEN + |Flat(s.messages[..k])|
  {
    if k > 0 {
      FlatLength(s, k - 1);
      FlatStep(s.messages, k - 1);
    }
  }

  /** The bytes from `from` up to `to`. */
  function Slice(s: UlogFile, from: nat, to: nat): seq<byte>
    requires from <= to <= |Content(s)|
  {
    Content(s)[from..to]
  }

  lemma MessageAt(s: UlogFile, k: nat)
    requires k < |s.messages|
    ensures At(s, k) < At(s, k + 1) <= |Content(s)| && Slice(s, At(s, k), At(s, k + 1)) == s.messages[k]
  {
    PrefixLength(s, k);
    PrefixLength(s, k + 1);
    FlatStep(s.messages, k);
    var p, q := Content(s)[..At(s, k)], Content(s)[..At(s, k + 1)];
    assert q == p + s.messages[k];
    assert Slice(s, At(s, k), At(s, k + 1)) == q[|p|..];
  }

  lemma LastEnd(s: UlogFile)
    ensures At(s, |s.messages|) == |Content(s)|
  {
    PrefixLength(s, |s.messages|);
    assert s.messages[..|s.messages|] == s.messages;
  }

  /** How many messages have ended by `pos`. */
  function Ended(s: UlogFile, pos: nat, k: nat := |s.messages|): (n: nat)
    requires k <= |s.messages| && pos >= HEADER_LEN
    ensures n <= k && At(s, n) <= pos && (n < k ==> At(s, n + 1) > pos)
  {
    if At(s, k) <= pos then k else Ended(s, pos, k - 1)
  }

  /** The first message that starts at `pos` or later (the number of messages if none does). */
  function Next(s: UlogFile, pos: nat, k: nat := 0): (n: nat)
    requires k <= |s.messages| && pos <= |Content(s)| && (k > 0 ==> At(s, k - 1) < pos)
    ensures k <= n <= |s.messages| && At(s, n) >= pos && (n > 0 ==> At(s, n - 1) < pos)
    decreases |s.messages| - k
  {
    LastEnd(s);
    if At(s, k) >= pos then k else Next(s, pos, k + 1)
  }

  /* ---------- Packets ---------- */

  lemma CutBounds(s: UlogFile, i: nat)
    requires IsPacket(s, i)
    ensures s.cuts[i] <= s.cuts[i + 1] <= |Content(s)| && HEADER_LEN <= s.cuts[i + 1] <= s.cuts[i] + MAX_DATA
    ensures i > 0 ==> s.cuts[i] >= HEADER_LEN
  {}

  function Packet(s: UlogFile, i: nat): seq<byte>
    requires IsPacket(s, i)
  {
    CutBounds(s, i);
    Slice(s, s.cuts[i], s.cuts[i + 1])
  }

  /** The offset the sender puts in packet i: 0 in the first, else that of the first message start in it. */
  function Offset(s: UlogFile, i: nat): byte
    requires IsPacket(s, i)
  {
    CutBounds(s, i);
    if i == 0 then 0
    else
      var at := At(s, Next(s, s.cuts[i]));
      if at < s.cuts[i + 1] then at - s.cuts[i] else NO_MESSAGE
  }

  /** The numbers of the format: the header is the first 16 bytes of the first packet, which has offset 0;
      any other has the offset of the first message that starts in it, and 255 if none does. */
  lemma PacketFormat(s: UlogFile, i: nat, k: nat)
    requires IsPacket(s, i) && k <= |s.messages|
    ensures |s.header| == 16 && |Packet(s, 0)| >= 16 && Packet(s, 0)[..16] == s.header && Offset(s, 0) == 0
    ensures i > 0 && s.cuts[i] <= At(s, k) < s.cuts[i + 1] && (k > 0 ==> At(s, k - 1) < s.cuts[i]) ==> Offset(s, i) == At(s, k) - s.cuts[i]
    ensures i > 0 && At(s, k) >= s.cuts[i + 1] && (k > 0 ==> At(s, k - 1) < s.cuts[i]) ==> Offset(s, i) == 255
  {
    hide Flat;
    CutBounds(s, 0);
    CutBounds(s, i);
    if i > 0 {
      var n := Next(s, s.cuts[i]);
      if n < k {
        AtGrows(s, n, k - 1);
      } else if k < n {
        AtGrows(s, k, n - 1);
      }
    }
  }

  /* ---------- What the receiver's splitting loop does at a boundary ---------- */

  lemma FirstMessage(s: UlogFile, k: nat, to: nat)
    requires k < |s.messages| && At(s, k) <= to <= |Content(s)|
    ensures var data := Slice(s, At(s, k), to);
      && (At(s, k + 1) <= to ==>
           && |data| > 2 && MessageLength(data) == |s.messages[k]| <= |data|
           && data[..MessageLength(data)] == s.messages[k] && data[MessageLength(data)..] == Slice(s, At(s, k + 1), to))
      && (At(s, k + 1) > to ==> |data| <= 2 || MessageLength(data) > |data|)
  {
    MessageAt(s, k);
    var data, m := Slice(s, At(s, k), to), s.messages[k];
    forall i | 0 <= i < |m| && i < |data| ensures data[i] == m[i] {
      assert m[i] == Content(s)[At(s, k) + i];
    }
    if At(s, k + 1) <= to {
      assert data[..|m|] == m;
    }
  }

  lemma EmptySlice(s: UlogFile, a: nat)
    requires a <= |Content(s)|
    ensures Slice(s, a, a) == []
  {}

  lemma SliceSplits(s: UlogFile, a: nat, b: nat, c: nat)
    requires a <= b <= c <= |Content(s)|
    ensures Slice(s, a, c) == Slice(s, a, b) + Slice(s, b, c)
    ensures TakeFirst(Slice(s, a, c), b - a) == Slice(s, a, b) && DropFirst(Slice(s, a, c), b - a) == Slice(s, b, c)
  {}

  lemma NothingToSplit()
    ensures Whole([]) == [] && Rest([]) == []
  {}

  /** From a boundary on, exactly the messages that end by `to` are split off. */
  lemma {:induction false} SplitAtBoundary(s: UlogFile, k: nat, to: nat)
    requires k <= |s.messages| && At(s, k) <= to <= |Content(s)|
    ensures k <= Ended(s, to) && At(s, k) <= At(s, Ended(s, to)) <= to
    ensures var n := Ended(s, to);
      && Whole(Slice(s, At(s, k), to)) == Slice(s, At(s, k), At(s, n))
      && Rest(Slice(s, At(s, k), to)) == Slice(s, At(s, n), to)
    decreases |s.messages| - k
  {
    hide Slice, Flat, TakeFirst, DropFirst, MessageLength;
    var n := Ended(s, to);
    EndedIs(s, to, k);
    AtGrows(s, k, n);
    if k == |s.messages| {
      LastEnd(s);
      EmptySlice(s, At(s, k));
      NothingToSplit();
    } else {
      FirstMessage(s, k, to);
      if At(s, k + 1) <= to {
        SplitAtBoundary(s, k + 1, to);
        MessageAt(s, k);
        AtGrows(s, k + 1, n);
        SliceSplits(s, At(s, k), At(s, k + 1), At(s, n));
      } else {
        EmptySlice(s, At(s, k));
      }
    }
  }

  lemma EndedIs(s: UlogFile, pos: nat, k: nat)
    requires k <= |s.messages| && At(s, k) <= pos
    ensures k <= Ended(s, pos) && (k < |s.messages| && At(s, k + 1) > pos ==> Ended(s, pos) == k)
  {
    var n := Ended(s, pos);
    if n < k {
      AtGrows(s, n + 1, k);
    }
    if k < n {
      AtGrows(s, k + 1, n);
    }
  }
}
