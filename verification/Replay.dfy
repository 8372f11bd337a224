/** Signing over whole byte streams: what a channel with signing accepts, byte for byte, is a run of the
    signature check, so no stream of bytes gets a signed frame accepted twice. */
module Replay {
  import opened Bytes
  import opened Framing
  import opened Packets
  import opened Reception
  import opened Signing
  import opened Transmission

  /** The signed frames among those completed, in order. */
  function SignedOnes(outputs: seq<Option<Frame>>): (frames: seq<Frame>)
    ensures forall f :: f in frames ==> IsSigned(f)
  {
    if outputs == [] then []
    else
      var n := |outputs| - 1;
      SignedOnes(outputs[..n]) + if outputs[n].Some? && IsSigned(outputs[n].value) then [outputs[n].value] else []
  }

  /** Whatever the bytes, from any state: the ledger is that of the signature check run over the signed
      frames completed. Unsigned frames, noise and torn frames leave it alone. */
  lemma {:induction false} LedgerIsRun(table: seq<MsgEntry>, policy: Policy, p: Pending, l: Ledger, s: seq<byte>)
    ensures LedgerAfter(table, Some(policy), p, l, s) == Run(policy.key, l, SignedOnes(Outputs(p, s)))
  {
    hide Verify, CrcGood, Completes, Pend;
    if s != [] {
      var n := |s| - 1;
      LedgerIsRun(table, policy, p, l, s[..n]);
      var before := SignedOnes(Outputs(p, s[..n]));
      var c := Completes(Feed(p, s[..n]), s[n]);
      assert Outputs(p, s)[..n] == Outputs(p, s[..n]);
      if c.Some? && IsSigned(c.value) {
        assert (before + [c.value])[..|before|] == before;
      } else {
        assert before + [] == before;
      }
    }
  }

  /** The answer to byte i is the verdict on the frame it completes, after the bytes before it. */
  lemma {:induction false} AnswerAt(table: seq<MsgEntry>, policy: Option<Policy>, p: Pending, l: Ledger, s: seq<byte>, i: nat)
    requires i < |s| && Outputs(p, s)[i].Some?
    ensures Results(table, policy, p, l, s)[i]
         == Verdict(table, policy, LedgerAfter(table, policy, p, l, s[..i]), Outputs(p, s)[i].value).0
  {
    hide Verdict, Interim, Completes, Pend;
    var n := |s| - 1;
    if i < n {
      AnswerAt(table, policy, p, l, s[..n], i);
      assert s[..n][..i] == s[..i];
    }
  }

  /** Where in the run of the signature check the frame completed by byte i stands. */
  lemma {:induction false} PlaceInRun(p: Pending, s: seq<byte>, i: nat) returns (k: nat)
    requires i < |s| && Outputs(p, s)[i].Some? && IsSigned(Outputs(p, s)[i].value)
    ensures k == |SignedOnes(Outputs(p, s[..i]))| < |SignedOnes(Outputs(p, s))|
    ensures SignedOnes(Outputs(p, s))[k] == Outputs(p, s)[i].value
    ensures SignedOnes(Outputs(p, s))[..k] == SignedOnes(Outputs(p, s[..i]))
  {
    hide Completes, Pend, IsFrame, IsSigned;
    var n := |s| - 1;
    assert Outputs(p, s)[..n] == Outputs(p, s[..n]);
    if i < n {
      k := PlaceInRun(p, s[..n], i);
      assert s[..n][..i] == s[..i];
    } else {
      k := |SignedOnes(Outputs(p, s[..i]))|;
    }
  }

  /** A signed frame the application does not excuse is answered FRAMING_OK only where the run of the
      signature check over the frames completed so far accepts it. */
  lemma AnswerIsAcceptance(table: seq<MsgEntry>, policy: Policy, p: Pending, l: Ledger, s: seq<byte>, i: nat) returns (k: nat)
    requires i < |s| && Outputs(p, s)[i].Some? && IsSigned(Outputs(p, s)[i].value)
    requires Results(table, Some(policy), p, l, s)[i] == FRAMING_OK && !policy.overrides(MsgidOf(Outputs(p, s)[i].value))
    ensures k == |SignedOnes(Outputs(p, s[..i]))| < |SignedOnes(Outputs(p, s))|
    ensures SignedOnes(Outputs(p, s))[k] == Outputs(p, s)[i].value && AcceptedAt(policy.key, l, SignedOnes(Outputs(p, s)), k)
  {
    hide Verify, CrcGood, Results, LedgerAfter, Outputs, SignedOnes, IsSigned, IsFrame;
    AnswerAt(table, Some(policy), p, l, s, i);
    k := PlaceInRun(p, s, i);
    LedgerIsRun(table, policy, p, l, s[..i]);
  }

  lemma PlacesGrow(p: Pending, s: seq<byte>, i: nat, j: nat)
    requires i < j <= |s| && Outputs(p, s)[i].Some? && IsSigned(Outputs(p, s)[i].value)
    ensures |SignedOnes(Outputs(p, s[..i]))| < |SignedOnes(Outputs(p, s[..j]))|
  {
    hide Outputs, SignedOnes, IsFrame, IsSigned;
    OutputsPrefix(p, s, j);
    assert s[..j][..i] == s[..i];
    var k := PlaceInRun(p, s[..j], i);
  }

  lemma {:induction false} OutputsPrefix(p: Pending, s: seq<byte>, j: nat)
    requires j <= |s|
    ensures Outputs(p, s[..j]) == Outputs(p, s)[..j]
  {
    hide Completes, Pend;
    if j < |s| {
      var n := |s| - 1;
      OutputsPrefix(p, s[..n], j);
      assert s[..n][..j] == s[..j];
    } else {
      assert s[..j] == s;
    }
  }

  /** In any byte stream, from any state: timestamps accepted on one signing stream strictly increase, and
      our clock ends at least at each of them. */
  lemma StreamInOrder(table: seq<MsgEntry>, policy: Policy, p: Pending, l: Ledger, s: seq<byte>, i: nat, j: nat)
    requires WellFormed(l) && i < j < |s| && Outputs(p, s)[i].Some? && Outputs(p, s)[j].Some?
    requires var f, g := Outputs(p, s)[i].value, Outputs(p, s)[j].value;
      && IsSigned(f) && IsSigned(g) && StreamOf(f).Key() == StreamOf(g).Key()
      && !policy.overrides(MsgidOf(f)) && !policy.overrides(MsgidOf(g))
    requires Results(table, Some(policy), p, l, s)[i] == Results(table, Some(policy), p, l, s)[j] == FRAMING_OK
    ensures StreamOf(Outputs(p, s)[i].value).Timestamp() < StreamOf(Outputs(p, s)[j].value).Timestamp()
         <= LedgerAfter(table, Some(policy), p, l, s).timestamp
  {
    hide Results, LedgerAfter, Outputs, SignedOnes, AcceptedAt, WellFormed, IsFrame, IsSigned, MsgidOf, StreamOf;
    var a := AnswerIsAcceptance(table, policy, p, l, s, i);
    var b := AnswerIsAcceptance(table, policy, p, l, s, j);
    PlacesGrow(p, s, i, j);
    AcceptedInOrder(policy.key, l, SignedOnes(Outputs(p, s)), a, b);
    LedgerIsRun(table, policy, p, l, s);
  }

  /** A signed frame that a byte stream got accepted is accepted once more by the same stream if and only
      if the application excuses its message id from the signature check. */
  lemma AcceptedAgainIff(table: seq<MsgEntry>, policy: Policy, p: Pending, l: Ledger, s: seq<byte>, i: nat, j: nat)
    requires WellFormed(l) && i < j < |s| && Outputs(p, s)[i].Some? && IsSigned(Outputs(p, s)[i].value)
    requires Outputs(p, s)[i] == Outputs(p, s)[j] && Results(table, Some(policy), p, l, s)[i] == FRAMING_OK
    ensures Results(table, Some(policy), p, l, s)[j] == FRAMING_OK <==> policy.overrides(MsgidOf(Outputs(p, s)[i].value))
  {
    hide Results, LedgerAfter, Outputs, CrcGood, Verify, WellFormed, StreamOf;
    AnswerAt(table, Some(policy), p, l, s, i);
    AnswerAt(table, Some(policy), p, l, s, j);
    if Results(table, Some(policy), p, l, s)[j] == FRAMING_OK && !policy.overrides(MsgidOf(Outputs(p, s)[i].value)) {
      StreamInOrder(table, policy, p, l, s, i, j);
      assert false;
    }
  }

  /** Over any byte stream the table stays well formed, and neither our clock nor a stored timestamp goes back. */
  lemma StreamMonotone(table: seq<MsgEntry>, policy: Policy, p: Pending, l: Ledger, s: seq<byte>, stream: (byte, byte, byte))
    requires WellFormed(l)
    ensures var l' := LedgerAfter(table, Some(policy), p, l, s);
      WellFormed(l') && l.timestamp <= l'.timestamp && Stored(l, stream) <= Stored(l', stream)
  {
    hide LedgerAfter, Outputs, SignedOnes, Stored, WellFormed;
    var frames := SignedOnes(Outputs(p, s));
    LedgerIsRun(table, policy, p, l, s);
    RunMonotone(policy.key, l, frames, 0, |frames|, stream);
    assert frames[..|frames|] == frames && frames[..0] == [];
  }
}
