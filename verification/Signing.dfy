/** Packet signing and the table of stream timestamps (mavlink_sign_packet, mavlink_signature_check). */
module Signing {
  import opened Bytes
  import opened Framing
  import opened Messages
  import opened Sha256

  const MAX_SIGNING_STREAMS := 16
  const AGE_LIMIT := 60 * 100000       // one minute in units of 10 microseconds
  const TWO_48 := 0x1_0000_0000_0000
  const KEY_LEN := 32

  datatype SigningStatus =
    | STATUS_NONE | STATUS_OK | STATUS_BAD_SIGNATURE | STATUS_NO_STREAMS
    | STATUS_TOO_MANY_STREAMS | STATUS_OLD_TIMESTAMP | STATUS_REPLAY

  /** One logical stream and the six timestamp bytes last accepted on it. */
  datatype Stream = Stream(linkId: byte, sysid: byte, compid: byte, timestampBytes: seq<byte>)
  {
    function Key(): (byte, byte, byte) { (linkId, sysid, compid) }
    function Timestamp(): nat { FromLittleEndian(timestampBytes) }
  }

  /* ---------- The signature block ---------- */

  /** Link id and the low 48 bits of the timestamp, then the truncated hash over everything. */
  function SignatureBlock(key: seq<byte>, linkId: byte, timestamp: nat, covered: seq<byte>): (s: seq<byte>)
    ensures |s| == SIGNATURE_BLOCK_LEN
  {
    var stamp := [linkId] + LittleEndian(timestamp, 6);
    stamp + Sha48(key + covered + stamp)
  }

  predicate Genuine(key: seq<byte>, f: Frame)
    requires IsSigned(f)
  {
    Sha48(key + SignedPart(f)) == SignatureOf(f)
  }

  lemma Pow48()
    ensures Pow256(6) == TWO_48 == 0x1_0000_0000_0000
  {
    assert Pow256(6) == 256 * Pow256(5) == 256 * (256 * Pow256(4));
    assert Pow256(4) == 256 * Pow256(3) == 256 * (256 * Pow256(2));
    assert Pow256(2) == 256 * Pow256(1) == 256 * (256 * Pow256(0));
  }

  /** A frame that carries the block made for its own bytes is genuine and yields the timestamp back. */
  lemma SignedFrameIsGenuine(key: seq<byte>, linkId: byte, timestamp: nat, f: Frame)
    requires IsSigned(f) && timestamp < TWO_48
    requires f[CrcAt(f) + 2..] == SignatureBlock(key, linkId, timestamp, f[..CrcAt(f) + 2])
    ensures Genuine(key, f) && LinkOf(f) == linkId && TimestampOf(f) == timestamp
  {
    hide Sha48;
    var at := CrcAt(f) + 2;
    var stamp := [linkId] + LittleEndian(timestamp, 6);
    var tail := f[at..];
    assert tail == stamp + Sha48(key + f[..at] + stamp);
    assert f[at..at + 7] == tail[..7] == stamp;
    assert f[at + 7..] == tail[7..] == Sha48(key + f[..at] + stamp);
    assert key + f[..at] + stamp == key + f[..at + 7] by {
      assert f[..at + 7] == f[..at] + stamp;
    }
    assert tail[0] == f[at];
    assert f[at + 1..at + 7] == stamp[1..] == LittleEndian(timestamp, 6);
    Pow48();
    LittleEndianRoundTrip(timestamp, 6);
  }

  /** The last six bytes of a signed frame are the first 48 bits of the hash of the key and all bytes
      before them: exactly then it is genuine. */
  lemma GenuineIs(key: seq<byte>, f: Frame)
    requires IsSigned(f)
    ensures |f| == f[1] as nat + 25 && (Genuine(key, f) <==> f[|f| - 6..] == Sha48(key + f[..|f| - 6]))
  {
    hide Sha48;
  }

  lemma {:induction false} LittleEndianIs(n: nat, width: nat)
    ensures FromLittleEndian(LittleEndian(n, width)) == n % Pow256(width)
  {
    if width > 0 {
      LittleEndianIs(n / 256, width - 1);
      assert LittleEndian(n, width)[1..] == LittleEndian(n / 256, width - 1);
      SplitMod(n, Pow256(width - 1));
    }
  }

  lemma SplitMod(n: nat, m: nat)
    requires m > 0
    ensures n % (256 * m) == n % 256 + 256 * (n / 256 % m)
  {
    var a, r := n / 256 / m, n % 256 + 256 * (n / 256 % m);
    assert n == 256 * (n / 256) + n % 256 && n / 256 == m * a + n / 256 % m;
    assert n == 256 * m * a + r;
    Divide(n, 256 * m, a, r);
  }

  lemma SixBytes(s: seq<byte>)
    requires |s| == 6
    ensures FromLittleEndian(s) == s[0] as nat + 0x100 * s[1] as nat + 0x1_0000 * s[2] as nat
      + 0x100_0000 * s[3] as nat + 0x1_0000_0000 * s[4] as nat + 0x100_0000_0000 * s[5] as nat
  {
    var t := s[3..];
    ThreeBytes(t);
    assert s[1..][1..] == s[2..] && s[2..][1..] == t;
    assert FromLittleEndian(s[2..]) == s[2] as nat + 256 * FromLittleEndian(t);
    assert FromLittleEndian(s[1..]) == s[1] as nat + 256 * FromLittleEndian(s[2..]);
  }

  lemma ThreeBytes(t: seq<byte>)
    requires |t| == 3
    ensures FromLittleEndian(t) == t[0] as nat + 0x100 * t[1] as nat + 0x1_0000 * t[2] as nat
  {
    assert t[1..][1..] == t[2..] && t[2..][1..] == [];
    assert FromLittleEndian(t[2..]) == t[2] as nat;
  }

  /** The thirteen bytes: link, the clock's low 48 bits with the least significant byte first, and the hash
      of key, covered bytes, link and clock. */
  lemma SignatureLayout(key: seq<byte>, linkId: byte, timestamp: nat, covered: seq<byte>)
    ensures var s := SignatureBlock(key, linkId, timestamp, covered);
      && |s| == 13 && s[0] == linkId && s[7..] == Sha48(key + covered + s[..7])
      && s[1] as nat + 0x100 * s[2] as nat + 0x1_0000 * s[3] as nat + 0x100_0000 * s[4] as nat
         + 0x1_0000_0000 * s[5] as nat + 0x100_0000_0000 * s[6] as nat == timestamp % 0x1_0000_0000_0000
  {
    hide Sha48;
    var s := SignatureBlock(key, linkId, timestamp, covered);
    var stamp := [linkId] + LittleEndian(timestamp, 6);
    assert s[..7] == stamp && s[1..7] == stamp[1..] == LittleEndian(timestamp, 6);
    Pow48();
    LittleEndianIs(timestamp, 6);
    SixBytes(s[1..7]);
  }

  /* ---------- What accepting a signed frame does to the timestamps ---------- */

  /** The mutable part of the signing state: our clock, and the stream table if there is one. */
  datatype Ledger = Ledger(timestamp: nat, streams: Option<seq<Stream>>)

  predicate Distinct(streams: seq<Stream>) {
    forall i, j :: 0 <= i < j < |streams| ==> streams[i].Key() != streams[j].Key()
  }

  predicate WellFormed(l: Ledger) {
    l.streams.Some? ==>
      && |l.streams.value| <= MAX_SIGNING_STREAMS && Distinct(l.streams.value)
      && forall s :: s in l.streams.value ==> |s.timestampBytes| == 6
  }

  /** Index of the stream with this key, or the table's length. */
  function Find(streams: seq<Stream>, key: (byte, byte, byte)): (i: nat)
    ensures i <= |streams| && (i < |streams| ==> streams[i].Key() == key)
    ensures forall j :: 0 <= j < i ==> streams[j].Key() != key
  {
    if streams == [] then 0
    else
      var n := |streams| - 1;
      var i := Find(streams[..n], key);
      if i < n then i else if streams[n].Key() == key then n else |streams|
  }

  function Admit(l: Ledger, s: Stream): (r: (Ledger, SigningStatus)) {
    if l.streams.None? then (l, STATUS_NO_STREAMS)
    else
      var table := l.streams.value;
      var i := Find(table, s.Key());
      var clock := if s.Timestamp() > l.timestamp then s.Timestamp() else l.timestamp;
      if i == |table| then
        if |table| >= MAX_SIGNING_STREAMS then (l, STATUS_TOO_MANY_STREAMS)
        else if s.Timestamp() + AGE_LIMIT < l.timestamp then (l, STATUS_OLD_TIMESTAMP)
        else (Ledger(clock, Some(table + [s])), STATUS_OK)
      else if s.Timestamp() <= table[i].Timestamp() then (l, STATUS_REPLAY)
      else (Ledger(clock, Some(table[i := s])), STATUS_OK)
  }

  function StreamOf(f: Frame): Stream
    requires IsSigned(f)
  {
    Stream(LinkOf(f), SysidOf(f), CompidOf(f), f[CrcAt(f) + 3..CrcAt(f) + 9])
  }

  function Verify(key: seq<byte>, l: Ledger, f: Frame): (Ledger, SigningStatus)
    requires IsSigned(f)
  {
    if !Genuine(key, f) then (l, STATUS_BAD_SIGNATURE) else Admit(l, StreamOf(f))
  }

  /* ---------- Safety of the table over whole runs ---------- */

  /** The timestamp stored for a key, or -1. */
  function Stored(l: Ledger, key: (byte, byte, byte)): int {
    if l.streams.None? then -1
    else
      var i := Find(l.streams.value, key);
      if i < |l.streams.value| then l.streams.value[i].Timestamp() else -1
  }

  lemma FindUnique(streams: seq<Stream>, i: nat)
    requires Distinct(streams) && i < |streams|
    ensures Find(streams, streams[i].Key()) == i
  {}

  /** One check: what a rejected frame leaves alone, and what an accepted one moves forward. */
  lemma AdmitStep(l: Ledger, s: Stream, key: (byte, byte, byte))
    requires WellFormed(l) && |s.timestampBytes| == 6
    ensures var (l', status) := Admit(l, s);
      && WellFormed(l')
      && (status != STATUS_OK ==> l' == l)
      && l'.timestamp >= l.timestamp
      && Stored(l', key) >= Stored(l, key)
      && (status == STATUS_OK ==>
            && l'.timestamp >= s.Timestamp()
            && Stored(l, s.Key()) < s.Timestamp() == Stored(l', s.Key())
            && (key != s.Key() ==> Stored(l', key) == Stored(l, key)))
  {
    var (l', status) := Admit(l, s);
    if status == STATUS_OK {
      var table, table' := l.streams.value, l'.streams.value;
      var i := Find(table, s.Key());
      assert table'[i] == s;
      forall t | t in table' ensures |t.timestampBytes| == 6 {}
      FindUnique(table', i);
      var k := Find(table, key);
      if key != s.Key() {
        if k < |table| {
          assert table'[k] == table[k];
          FindUnique(table', k);
        } else {
          assert forall j :: 0 <= j < |table'| ==> table'[j].Key() != key;
        }
      }
    }
  }

  function Run(key: seq<byte>, l: Ledger, frames: seq<Frame>): Ledger
    requires forall f :: f in frames ==> IsSigned(f)
  {
    if frames == [] then l
    else Verify(key, Run(key, l, frames[..|frames| - 1]), frames[|frames| - 1]).0
  }

  predicate AcceptedAt(key: seq<byte>, l: Ledger, frames: seq<Frame>, i: nat)
    requires (forall f :: f in frames ==> IsSigned(f)) && i < |frames|
  {
    Verify(key, Run(key, l, frames[..i]), frames[i]).1 == STATUS_OK
  }

  lemma RunStep(key: seq<byte>, l: Ledger, frames: seq<Frame>, i: nat)
    requires (forall f :: f in frames ==> IsSigned(f)) && i < |frames|
    ensures Run(key, l, frames[..i + 1]) == Verify(key, Run(key, l, frames[..i]), frames[i]).0
  {
    assert frames[..i + 1][..i] == frames[..i];
  }

  /** Over any run the table stays well formed, and neither our clock nor a stored timestamp goes back. */
  lemma {:induction false} RunMonotone(key: seq<byte>, l: Ledger, frames: seq<Frame>, i: nat, j: nat, stream: (byte, byte, byte))
    requires (forall f :: f in frames ==> IsSigned(f)) && i <= j <= |frames| && WellFormed(l)
    ensures var a, b := Run(key, l, frames[..i]), Run(key, l, frames[..j]);
      WellFormed(a) && WellFormed(b) && a.timestamp <= b.timestamp && Stored(a, stream) <= Stored(b, stream)
    decreases j
  {
    hide Genuine, Admit, Stored;
    if i < j {
      RunMonotone(key, l, frames, i, j - 1, stream);
      RunStep(key, l, frames, j - 1);
      AdmitStep(Run(key, l, frames[..j - 1]), StreamOf(frames[j - 1]), stream);
    } else if j > 0 {
      RunMonotone(key, l, frames, j - 1, j - 1, stream);
      RunStep(key, l, frames, j - 1);
      AdmitStep(Run(key, l, frames[..j - 1]), StreamOf(frames[j - 1]), stream);
    }
  }

  /** Accepted timestamps of one stream strictly increase, and our clock is at least each of them. */
  lemma AcceptedInOrder(key: seq<byte>, l: Ledger, frames: seq<Frame>, i: nat, j: nat)
    requires (forall f :: f in frames ==> IsSigned(f)) && i < j < |frames| && WellFormed(l)
    requires AcceptedAt(key, l, frames, i) && AcceptedAt(key, l, frames, j)
    requires StreamOf(frames[i]).Key() == StreamOf(frames[j]).Key()
    ensures StreamOf(frames[i]).Timestamp() < StreamOf(frames[j]).Timestamp() <= Run(key, l, frames).timestamp
  {
    hide Genuine, Admit, Stored;
    var k := StreamOf(frames[i]).Key();
    RunMonotone(key, l, frames, i, i, k);
    RunMonotone(key, l, frames, i + 1, j, k);
    RunMonotone(key, l, frames, j + 1, |frames|, k);
    assert frames[..|frames|] == frames;
    RunStep(key, l, frames, i);
    RunStep(key, l, frames, j);
    AdmitStep(Run(key, l, frames[..i]), StreamOf(frames[i]), k);
    AdmitStep(Run(key, l, frames[..j]), StreamOf(frames[j]), k);
  }

  /** No frame that was accepted is ever accepted again. */
  lemma NoReplay(key: seq<byte>, l: Ledger, frames: seq<Frame>, i: nat, j: nat)
    requires (forall f :: f in frames ==> IsSigned(f)) && i < j < |frames| && WellFormed(l)
    requires AcceptedAt(key, l, frames, i) && frames[i] == frames[j]
    ensures !AcceptedAt(key, l, frames, j)
  {
    if AcceptedAt(key, l, frames, j) {
      AcceptedInOrder(key, l, frames, i, j);
      assert false;
    }
  }

  /** A sender's run: genuine frames on one stream with consecutive timestamps. */
  predicate SenderRun(key: seq<byte>, frames: seq<Frame>, stream: (byte, byte, byte), first: nat) {
    forall i :: 0 <= i < |frames| ==>
      && IsSigned(frames[i]) && Genuine(key, frames[i])
      && StreamOf(frames[i]).Key() == stream && StreamOf(frames[i]).Timestamp() == first + i
  }

  /** Ready for a stream: a known one must be older, a new one needs room and a recent timestamp. */
  predicate Ready(l: Ledger, stream: (byte, byte, byte), first: nat) {
    && l.streams.Some?
    && if Find(l.streams.value, stream) < |l.streams.value|
       then Stored(l, stream) < first
       else |l.streams.value| < MAX_SIGNING_STREAMS && l.timestamp <= first + AGE_LIMIT
  }

  /** A signed frame is accepted if and only if it is genuine and its stream is ready for its timestamp. */
  lemma VerifiedIff(key: seq<byte>, l: Ledger, f: Frame)
    requires IsSigned(f)
    ensures Verify(key, l, f).1 == STATUS_OK <==> Genuine(key, f) && Ready(l, StreamOf(f).Key(), StreamOf(f).Timestamp())
    ensures Verify(key, l, f).1 != STATUS_OK ==> Verify(key, l, f).0 == l
  {
    hide Genuine;
  }

  /** All of the rules: no table, a stream that is there, a full table, a stale newcomer, a fresh one. */
  lemma AdmitRules(l: Ledger, s: Stream)
    requires WellFormed(l)
    ensures l.streams.None? ==> Admit(l, s) == (l, STATUS_NO_STREAMS)
    ensures forall i :: l.streams.Some? && 0 <= i < |l.streams.value| && l.streams.value[i].Key() == s.Key() ==>
      Admit(l, s)
        == if s.Timestamp() <= l.streams.value[i].Timestamp() then (l, STATUS_REPLAY)
           else (Ledger(if s.Timestamp() > l.timestamp then s.Timestamp() else l.timestamp, Some(l.streams.value[i := s])), STATUS_OK)
    ensures l.streams.Some? && (forall i :: 0 <= i < |l.streams.value| ==> l.streams.value[i].Key() != s.Key()) ==>
      Admit(l, s)
        == if |l.streams.value| >= 16 then (l, STATUS_TOO_MANY_STREAMS)
           else if l.timestamp - s.Timestamp() > 6_000_000 then (l, STATUS_OLD_TIMESTAMP)
           else (Ledger(if s.Timestamp() > l.timestamp then s.Timestamp() else l.timestamp, Some(l.streams.value + [s])), STATUS_OK)
  {
    if l.streams.Some? {
      forall i | 0 <= i < |l.streams.value| && l.streams.value[i].Key() == s.Key() ensures Find(l.streams.value, s.Key()) == i {
        FindUnique(l.streams.value, i);
      }
    }
  }

  /** The first frame of a sender's run is accepted exactly when the receiver is ready for it. */
  lemma FirstAccepted(key: seq<byte>, l: Ledger, frames: seq<Frame>, stream: (byte, byte, byte), first: nat)
    requires |frames| == 1 && SenderRun(key, frames, stream, first)
    ensures AcceptedAt(key, l, frames, 0) <==> Ready(l, stream, first)
  {
    hide Genuine;
    assert frames[..0] == [];
  }

  /** Once one frame of the run is stored, the next is always accepted. */
  lemma NextAccepted(key: seq<byte>, l: Ledger, frames: seq<Frame>, stream: (byte, byte, byte), first: nat)
    requires |frames| > 1 && SenderRun(key, frames, stream, first)
    requires Stored(Run(key, l, frames[..|frames| - 1]), stream) == first + |frames| - 2
    ensures AcceptedAt(key, l, frames, |frames| - 1)
  {
    hide Genuine;
  }

  /** A sender's run is accepted in full exactly when the receiver is ready for its first frame. */
  lemma {:induction false} SenderRunAccepted(key: seq<byte>, l: Ledger, frames: seq<Frame>, stream: (byte, byte, byte), first: nat)
    requires WellFormed(l) && frames != [] && SenderRun(key, frames, stream, first)
    ensures (forall i :: 0 <= i < |frames| ==> AcceptedAt(key, l, frames, i)) <==> Ready(l, stream, first)
    ensures Ready(l, stream, first) ==> Stored(Run(key, l, frames), stream) == first + |frames| - 1
  {
    hide Genuine, Admit, Stored, Ready;
    var n := |frames| - 1;
    assert frames[..n + 1] == frames;
    RunStep(key, l, frames, n);
    RunMonotone(key, l, frames, n, n, stream);
    AdmitStep(Run(key, l, frames[..n]), StreamOf(frames[n]), stream);
    if n == 0 {
      FirstAccepted(key, l, frames, stream, first);
    } else {
      var rest := frames[..n];
      SenderRunAccepted(key, l, rest, stream, first);
      forall i | 0 <= i < n ensures AcceptedAt(key, l, frames, i) == AcceptedAt(key, l, rest, i) {
        assert rest[..i] == frames[..i];
      }
      if Ready(l, stream, first) {
        NextAccepted(key, l, frames, stream, first);
      } else {
        assert !forall i :: 0 <= i < n ==> AcceptedAt(key, l, rest, i);
      }
    }
  }
}
