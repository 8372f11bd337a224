/** Which messages the ULog receiver saves: exactly those of which every packet was accepted. */
module UlogIntact {
  import opened Bytes
  import opened Ulog
  import opened UlogStream
  import opened UlogLoss

  /** Packet j has bytes between the positions, or lies empty between them. */
  predicate Carries(s: UlogFile, j: int, from: nat, to: nat) {
    IsPacket(s, j) && s.cuts[j] < to && from < s.cuts[j + 1]
  }

  ghost predicate Has(kept: seq<Arrival>, j: int) {
    exists i :: 0 <= i < |kept| && kept[i].packet == j
  }

  /** Every packet up to `last` that reaches beyond position `from` was accepted. */
  ghost predicate Covered(s: UlogFile, kept: seq<Arrival>, from: nat, last: int) {
    forall j :: 0 <= j <= last && IsPacket(s, j) && from < s.cuts[j + 1] ==> Has(kept, j)
  }

  /** All packets that carry a part of message m were accepted. */
  ghost predicate Intact(s: UlogFile, kept: seq<Arrival>, m: nat)
    requires m < |s.messages|
  {
    forall j :: Carries(s, j, At(s, m), At(s, m + 1)) ==> Has(kept, j)
  }

  ghost predicate Listed(items: seq<Item>, m: nat) {
    exists i :: 0 <= i < |items| && items[i] == Src(m)
  }

  /** Everything listed has ended by `pos`, arrived whole, and stands in order. */
  ghost predicate Sound(s: UlogFile, kept: seq<Arrival>, items: seq<Item>, pos: nat) {
    && AreItems(s, items) && InOrder(items)
    && forall m: nat :: Listed(items, m) ==> m < |s.messages| && At(s, m + 1) <= pos && Intact(s, kept, m)
  }

  /** Every message that has ended by `pos` and arrived whole is listed, or pending and complete. */
  ghost predicate Saving(s: UlogFile, kept: seq<Arrival>, v: View, pos: nat) {
    forall m: nat :: m < |s.messages| && At(s, m + 1) <= pos && Intact(s, kept, m) ==> Listed(v.items, m) || v.open == Some(m)
  }

  /** The open message arrived whole so far; if none is open, none that spans `pos` did. */
  ghost predicate Tracking(s: UlogFile, kept: seq<Arrival>, v: View, pos: nat, last: int) {
    match v.open
    case Some(b) =>
      && b < |s.messages| && At(s, b) < pos <= At(s, b + 1) && Covered(s, kept, At(s, b), last)
      && (forall m: nat :: Listed(v.items, m) ==> m < b)
    case None =>
      forall p: nat :: p < |s.messages| && At(s, p) < pos < At(s, p + 1) ==> !Covered(s, kept, At(s, p), last)
  }

  /** What a view at position `pos`, with packets up to `last` accepted or lost, says about them. */
  ghost predicate Faithful(s: UlogFile, kept: seq<Arrival>, v: View, pos: nat, last: int) {
    Sound(s, kept, v.items, pos) && Saving(s, kept, v, pos) && Tracking(s, kept, v, pos, last)
  }

  /* ---------- Lists of items ---------- */

  lemma ListedAppend(a: seq<Item>, b: seq<Item>, m: nat)
    ensures Listed(a + b, m) <==> Listed(a, m) || Listed(b, m)
  {
    if Listed(a, m) {
      var i :| 0 <= i < |a| && a[i] == Src(m);
      assert (a + b)[i] == Src(m);
    }
    if Listed(b, m) {
      var i :| 0 <= i < |b| && b[i] == Src(m);
      assert (a + b)[|a| + i] == Src(m);
    }
  }

  lemma ListedRange(k: nat, n: nat, m: nat)
    requires k <= n
    ensures Listed(Range(k, n), m) <==> k <= m < n
  {
    if k <= m < n {
      assert Range(k, n)[m - k] == Src(m);
    }
  }

  lemma ListedOne(b: nat, m: nat)
    ensures Listed([Src(b)], m) <==> m == b
    ensures !Listed([], m) && forall lost :: !Listed([Dropout(lost)], m)
  {
    assert [Src(b)][0] == Src(b);
  }

  lemma InOrderAppend(a: seq<Item>, b: seq<Item>, k: nat)
    requires InOrder(a) && InOrder(b)
    requires forall m: nat :: Listed(a, m) ==> m < k
    requires forall m: nat :: Listed(b, m) ==> k <= m
    ensures InOrder(a + b)
  {
    forall i, j | 0 <= i < j < |a + b| && (a + b)[i].Src? && (a + b)[j].Src?
      ensures (a + b)[i].k < (a + b)[j].k
    {
      if i < |a| <= j {
        assert Listed(a, a[i].k) && Listed(b, b[j - |a|].k);
      }
    }
  }

  /* ---------- Coverage ---------- */

  lemma FindPacket(s: UlogFile, q: nat, lo: nat, hi: nat) returns (j: nat)
    requires lo < hi < |s.cuts| && s.cuts[lo] <= q < s.cuts[hi]
    ensures lo <= j < hi && s.cuts[j] <= q < s.cuts[j + 1]
    decreases hi - lo
  {
    if s.cuts[lo + 1] <= q {
      j := FindPacket(s, q, lo + 1, hi);
    } else {
      j := lo;
    }
  }

  lemma HasAppend(kept: seq<Arrival>, x: Arrival, j: int)
    ensures Has(kept + [x], j) <==> Has(kept, j) || j == x.packet
  {
    if Has(kept, j) {
      var i :| 0 <= i < |kept| && kept[i].packet == j;
      assert (kept + [x])[i].packet == j;
    }
    assert (kept + [x])[|kept|] == x;
  }

  /** Accepting packet x covers it. */
  lemma CoverMore(s: UlogFile, kept: seq<Arrival>, x: Arrival, from: nat)
    ensures Covered(s, kept + [x], from, x.packet) <==> Covered(s, kept, from, x.packet - 1)
  {
    forall j {:trigger Has(kept, j)} {:trigger Has(kept + [x], j)} ensures Has(kept + [x], j) <==> Has(kept, j) || j == x.packet {
      HasAppend(kept, x, j);
    }
  }

  /** Accepting packet x changes nothing for messages that ended before it. */
  lemma SameIntact(s: UlogFile, kept: seq<Arrival>, x: Arrival, m: nat)
    requires IsPacket(s, x.packet) && m < |s.messages| && At(s, m + 1) <= s.cuts[x.packet]
    ensures Intact(s, kept + [x], m) <==> Intact(s, kept, m)
  {
    forall j {:trigger Has(kept, j)} {:trigger Has(kept + [x], j)} ensures Has(kept + [x], j) <==> Has(kept, j) || j == x.packet {
      HasAppend(kept, x, j);
    }
  }

  /** A message that ends in packet x is whole exactly if it was covered up to the packet before. */
  lemma IntactInPacket(s: UlogFile, kept: seq<Arrival>, x: Arrival, m: nat)
    requires IsPacket(s, x.packet) && m < |s.messages|
    requires s.cuts[x.packet] < At(s, m + 1) <= s.cuts[x.packet + 1]
    ensures Intact(s, kept + [x], m) <==> Covered(s, kept, At(s, m), x.packet - 1)
  {
    forall j {:trigger Has(kept, j)} {:trigger Has(kept + [x], j)} ensures Has(kept + [x], j) <==> Has(kept, j) || j == x.packet {
      HasAppend(kept, x, j);
    }
    if Intact(s, kept + [x], m) {
      forall j | 0 <= j <= x.packet - 1 && IsPacket(s, j) && At(s, m) < s.cuts[j + 1] ensures Has(kept, j) {
        assert Carries(s, j, At(s, m), At(s, m + 1));
      }
    }
  }

  lemma CoveredFromHere(s: UlogFile, kept: seq<Arrival>, x: Arrival, from: nat)
    requires IsPacket(s, x.packet) && from >= s.cuts[x.packet]
    ensures Covered(s, kept, from, x.packet - 1)
  {}

  /* ---------- A loss ---------- */

  /** Packets after i and before j were not accepted. */
  ghost predicate LostBetween(kept: seq<Arrival>, i: nat, j: nat) {
    forall n: nat :: i < n < j ==> !Has(kept, n)
  }

  /** A message that ended in a lost packet is not whole. */
  lemma LossBreaks(s: UlogFile, kept: seq<Arrival>, i: nat, j: nat, m: nat)
    requires IsPacket(s, i) && IsPacket(s, j) && i + 1 < j && LostBetween(kept, i, j) && m < |s.messages|
    requires s.cuts[i + 1] < At(s, m + 1) <= s.cuts[j]
    ensures !Intact(s, kept, m)
  {
    AtGrows(s, m, m + 1);
    var n := FindPacket(s, At(s, m + 1) - 1, i + 1, j);
    assert Carries(s, n, At(s, m), At(s, m + 1)) && !Has(kept, n);
  }

  /** One that spans the end of the loss is not covered. */
  lemma LossUncovers(s: UlogFile, kept: seq<Arrival>, i: nat, j: nat, from: nat)
    requires IsPacket(s, i) && IsPacket(s, j) && i + 1 < j && LostBetween(kept, i, j) && from < s.cuts[j]
    ensures !Covered(s, kept, from, j - 1)
  {
    assert !Has(kept, j - 1);
  }

  lemma FlushListed(s: UlogFile, v: View, section: bool, pos: nat, lost: nat, m: nat)
    requires lost > 0
    ensures Listed(Flushed(s, v, section, pos, lost).items, m) <==> Listed(v.items, m) || (Complete(s, v, pos) && m == v.open.value)
  {
    var record := if section then [Dropout(lost)] else [];
    var last := if Complete(s, v, pos) then [Src(v.open.value)] else [];
    ListedAppend(v.items, record, m);
    ListedAppend(v.items + record, last, m);
    ListedOne(if v.open.Some? then v.open.value else 0, m);
    ListedRecord(record, m);
  }

  lemma FlushOrder(s: UlogFile, v: View, section: bool, pos: nat, lost: nat)
    requires lost > 0 && AreItems(s, v.items) && InOrder(v.items)
    requires v.open.Some? ==> v.open.value < |s.messages| && forall m: nat :: Listed(v.items, m) ==> m < v.open.value
    ensures var w := Flushed(s, v, section, pos, lost); AreItems(s, w.items) && InOrder(w.items)
  {
    hide At, WellFormed;
    var record := if section then [Dropout(lost)] else [];
    OrderWithRecord(v.items, record);
    if Complete(s, v, pos) {
      forall m: nat | Listed(v.items + record, m) ensures m < v.open.value {
        ListedAppend(v.items, record, m);
        ListedRecord(record, m);
      }
      forall m: nat | Listed([Src(v.open.value)], m) ensures v.open.value <= m {
        ListedOne(v.open.value, m);
      }
      InOrderAppend(v.items + record, [Src(v.open.value)], v.open.value);
    } else {
      assert v.items + record + [] == v.items + record;
    }
  }

  lemma FlushSound(s: UlogFile, kept: seq<Arrival>, v: View, section: bool, pos: nat, at: nat, lost: nat)
    requires Faithful(s, kept, v, pos, at) && lost > 0 && IsPacket(s, at) && pos == s.cuts[at + 1]
    ensures var w := Flushed(s, v, section, pos, lost);
      && Sound(s, kept, w.items, pos)
      && forall m: nat :: Listed(w.items, m) <==> Listed(v.items, m) || (Complete(s, v, pos) && m == v.open.value)
  {
    hide Intact, Covered, InOrder, AreItems, Listed, Flushed, WellFormed, At;
    var w := Flushed(s, v, section, pos, lost);
    FlushOrder(s, v, section, pos, lost);
    forall m: nat ensures Listed(w.items, m) <==> Listed(v.items, m) || (Complete(s, v, pos) && m == v.open.value) {
      FlushListed(s, v, section, pos, lost, m);
    }
    if Complete(s, v, pos) {
      IntactWhenComplete(s, kept, v.open.value, at);
    }
  }

  lemma ListedRecord(record: seq<Item>, m: nat)
    requires forall i :: 0 <= i < |record| ==> record[i].Dropout?
    ensures !Listed(record, m)
  {}

  lemma OrderWithRecord(items: seq<Item>, record: seq<Item>)
    requires InOrder(items) && forall i :: 0 <= i < |record| ==> record[i].Dropout?
    ensures InOrder(items + record)
  {}

  lemma IntactWhenComplete(s: UlogFile, kept: seq<Arrival>, b: nat, last: nat)
    requires b < |s.messages| && IsPacket(s, last) && At(s, b + 1) == s.cuts[last + 1] && Covered(s, kept, At(s, b), last)
    ensures Intact(s, kept, b)
  {}

  /** After a loss the view is faithful at the start of the next accepted packet. */
  lemma FlushFaithful(s: UlogFile, kept: seq<Arrival>, v: View, section: bool, i: nat, j: nat)
    requires IsPacket(s, i) && IsPacket(s, j) && i + 1 < j && LostBetween(kept, i, j)
    requires Faithful(s, kept, v, s.cuts[i + 1], i)
    ensures Faithful(s, kept, Flushed(s, v, section, s.cuts[i + 1], j - i - 1), s.cuts[j], j - 1)
  {
    hide Covered, Intact, InOrder, AreItems, LostBetween;
    var e, from := s.cuts[i + 1], s.cuts[j];
    var w := Flushed(s, v, section, e, j - i - 1);
    FlushSound(s, kept, v, section, e, i, j - i - 1);
    forall m: nat | m < |s.messages| && At(s, m + 1) <= from && Intact(s, kept, m)
      ensures Listed(w.items, m)
    {
      if At(s, m + 1) > e {
        LossBreaks(s, kept, i, j, m);
      } else if v.open == Some(m) {
        assert Complete(s, v, e);
      }
    }
    forall p: nat | p < |s.messages| && At(s, p) < from < At(s, p + 1)
      ensures !Covered(s, kept, At(s, p), j - 1)
    {
      LossUncovers(s, kept, i, j, At(s, p));
    }
  }

  /* ---------- A packet ---------- */

  lemma SoundLater(s: UlogFile, kept: seq<Arrival>, x: Arrival, items: seq<Item>, pos: nat)
    requires IsPacket(s, x.packet) && pos == s.cuts[x.packet] && Sound(s, kept, items, pos)
    ensures Sound(s, kept + [x], items, s.cuts[x.packet + 1])
  {
    hide Intact, InOrder, AreItems;
    forall m: nat | Listed(items, m) ensures Intact(s, kept + [x], m) {
      SameIntact(s, kept, x, m);
    }
  }

  lemma StartsBefore(s: UlogFile, pos: nat, m: nat)
    requires pos <= |Content(s)| && m <= |s.messages|
    ensures m < Next(s, pos) <==> At(s, m) < pos
  {
    var k := Next(s, pos);
    if m < k {
      AtGrows(s, m, k - 1);
    } else {
      AtGrows(s, k, m);
    }
  }

  lemma EndsBy(s: UlogFile, pos: nat, m: nat)
    requires pos >= HEADER_LEN && m <= |s.messages|
    ensures m <= Ended(s, pos) <==> At(s, m) <= pos
  {
    var n := Ended(s, pos);
    if m <= n {
      AtGrows(s, m, n);
    } else {
      AtGrows(s, n + 1, m);
    }
  }

  /** At most one message spans a position. */
  lemma SpanUnique(s: UlogFile, pos: nat, b: nat, m: nat)
    requires b < |s.messages| && m < |s.messages|
    requires At(s, b) < pos <= At(s, b + 1) && At(s, m) < pos <= At(s, m + 1)
    ensures b == m
  {
    if b < m {
      AtGrows(s, b + 1, m);
    } else if m < b {
      AtGrows(s, m + 1, b);
    }
  }

  /** Whatever was saved before, the message the packet completes, and those inside it. */
  lemma TakenListed(s: UlogFile, v: View, from: nat, to: nat, m: nat)
    requires Positions(s, from, to) && At(s, Next(s, from)) < to
    ensures Next(s, from) <= Ended(s, to)
    ensures Listed(Taken(s, v, from, to).items, m) <==>
      Listed(v.items, m) || v.open == Some(m) || Next(s, from) <= m < Ended(s, to)
  {
    var k, n := Next(s, from), Ended(s, to);
    EndedIs(s, to, k);
    var spanned := if v.open.Some? then [Src(v.open.value)] else [];
    ListedAppend(v.items, spanned, m);
    ListedAppend(v.items + spanned, Range(k, n), m);
    ListedRange(k, n, m);
    ListedOne(if v.open.Some? then v.open.value else 0, m);
  }

  lemma TakenOrder(s: UlogFile, kept: seq<Arrival>, v: View, from: nat, to: nat, last: int)
    requires Positions(s, from, to) && At(s, Next(s, from)) < to && Faithful(s, kept, v, from, last)
    ensures AreItems(s, Taken(s, v, from, to).items) && InOrder(Taken(s, v, from, to).items)
  {
    hide Covered, Intact;
    var k, n := Next(s, from), Ended(s, to);
    EndedIs(s, to, k);
    var spanned := if v.open.Some? then [Src(v.open.value)] else [];
    forall m: nat | Listed(v.items, m) ensures m < k {
      AtGrows(s, m, m + 1);
      StartsBefore(s, from, m);
    }
    if v.open.Some? {
      StartsBefore(s, from, v.open.value);
      forall m: nat ensures Listed(spanned, m) <==> m == v.open.value {
        ListedOne(v.open.value, m);
      }
      InOrderAppend(v.items, spanned, v.open.value);
      forall m: nat | Listed(v.items + spanned, m) ensures m < k {
        ListedAppend(v.items, spanned, m);
      }
    } else {
      assert v.items + spanned == v.items;
    }
    forall m: nat ensures Listed(Range(k, n), m) <==> k <= m < n {
      ListedRange(k, n, m);
    }
    InOrderAppend(v.items + spanned, Range(k, n), k);
  }

  /** Every message that ends in the packet and arrived whole is saved. */
  lemma SavedInPacket(s: UlogFile, kept: seq<Arrival>, x: Arrival, v: View, m: nat)
    requires IsPacket(s, x.packet) && x.packet > 0 && m < |s.messages|
    requires var (from, to) := PositionsOf(s, x.packet); Faithful(s, kept, v, from, x.packet - 1) && At(s, m + 1) <= to
    requires Intact(s, kept + [x], m)
    ensures Listed(v.items, m) || v.open == Some(m) || At(s, m) >= s.cuts[x.packet]
  {
    hide Covered, Sound, Intact;
    var from := s.cuts[x.packet];
    if At(s, m + 1) <= from {
      SameIntact(s, kept, x, m);
    } else if At(s, m) < from {
      IntactInPacket(s, kept, x, m);
      if v.open.Some? {
        SpanUnique(s, from, v.open.value, m);
      }
    }
  }

  /** What is saved arrived whole. */
  lemma WholeInPacket(s: UlogFile, kept: seq<Arrival>, x: Arrival, v: View, m: nat)
    requires IsPacket(s, x.packet) && x.packet > 0
    requires var (from, to) := PositionsOf(s, x.packet);
      && Faithful(s, kept, v, from, x.packet - 1) && At(s, Next(s, from)) < to
      && (Listed(v.items, m) || v.open == Some(m) || Next(s, from) <= m < Ended(s, to))
    ensures m < |s.messages| && At(s, m + 1) <= s.cuts[x.packet + 1] && Intact(s, kept + [x], m)
  {
    hide Covered, Intact, InOrder, AreItems, At, WellFormed;
    var (from, to) := PositionsOf(s, x.packet);
    if Listed(v.items, m) {
      SameIntact(s, kept, x, m);
    } else if v.open == Some(m) {
      OpenWhole(s, kept, x, m);
    } else {
      InsideWhole(s, kept, x, m);
    }
  }

  lemma OpenWhole(s: UlogFile, kept: seq<Arrival>, x: Arrival, m: nat)
    requires IsPacket(s, x.packet) && x.packet > 0 && m < |s.messages|
    requires var (from, to) := PositionsOf(s, x.packet);
      At(s, m) < from <= At(s, m + 1) && Covered(s, kept, At(s, m), x.packet - 1) && At(s, Next(s, from)) < to
    ensures At(s, m + 1) <= s.cuts[x.packet + 1] && Intact(s, kept + [x], m)
  {
    hide Covered, Intact;
    var (from, to) := PositionsOf(s, x.packet);
    NextIs(s, from, m);
    if At(s, m + 1) == from {
      SameIntact(s, kept, x, m);
      IntactWhenComplete(s, kept, m, x.packet - 1);
    } else {
      IntactInPacket(s, kept, x, m);
    }
  }

  lemma InsideWhole(s: UlogFile, kept: seq<Arrival>, x: Arrival, m: nat)
    requires IsPacket(s, x.packet) && x.packet > 0
    requires var (from, to) := PositionsOf(s, x.packet); Next(s, from) <= m < Ended(s, to)
    ensures m < |s.messages| && At(s, m + 1) <= s.cuts[x.packet + 1] && Intact(s, kept + [x], m)
  {
    hide Covered, Intact;
    var (from, to) := PositionsOf(s, x.packet);
    EndsBy(s, to, m + 1);
    StartsBefore(s, from, m);
    AtGrows(s, m, m + 1);
    CoveredFromHere(s, kept, x, At(s, m));
    IntactInPacket(s, kept, x, m);
  }

  lemma NoneSpans(s: UlogFile, to: nat)
    requires HEADER_LEN <= to <= |Content(s)| && At(s, Ended(s, to)) == to
    ensures forall p: nat :: p < |s.messages| && At(s, p) < to ==> At(s, p + 1) <= to
  {
    forall p: nat | p < |s.messages| && At(s, p) < to ensures At(s, p + 1) <= to {
      EndsBy(s, to, p);
      AtGrows(s, p, p + 1);
      EndsBy(s, to, p + 1);
      if p == Ended(s, to) {
        assert false;
      }
    }
  }

  lemma TakenOpen(s: UlogFile, v: View, from: nat, to: nat)
    requires Positions(s, from, to) && At(s, Next(s, from)) < to
    ensures Taken(s, v, from, to).open == Spanning(s, to)
  {}

  lemma SpanningTracked(s: UlogFile, kept: seq<Arrival>, x: Arrival, v: View)
    requires IsPacket(s, x.packet) && x.packet > 0
    requires var (from, to) := PositionsOf(s, x.packet); Faithful(s, kept, v, from, x.packet - 1) && At(s, Next(s, from)) < to
    ensures var (from, to) := PositionsOf(s, x.packet); Tracking(s, kept + [x], Taken(s, v, from, to), to, x.packet)
  {
    hide Covered, Intact, InOrder, AreItems, Faithful, Taken, At, Content, Listed;
    var (from, to) := PositionsOf(s, x.packet);
    var k, n := Next(s, from), Ended(s, to);
    var w := Taken(s, v, from, to);
    TakenOpen(s, v, from, to);
    SpanningShows(s, to);
    if At(s, n) < to {
      EndsBy(s, to, k);
      AtGrows(s, k, n);
      CoveredFromHere(s, kept, x, At(s, n));
      CoverMore(s, kept, x, At(s, n));
      forall m: nat | Listed(w.items, m) ensures m < n {
        TakenListed(s, v, from, to, m);
        WholeInPacket(s, kept, x, v, m);
        EndsBy(s, to, m + 1);
      }
    } else {
      NoneSpans(s, to);
    }
  }

  /** A packet in which a message starts. */
  lemma TakeWithStartFaithful(s: UlogFile, kept: seq<Arrival>, x: Arrival, v: View)
    requires IsPacket(s, x.packet) && x.packet > 0
    requires var (from, to) := PositionsOf(s, x.packet); Faithful(s, kept, v, from, x.packet - 1) && At(s, Next(s, from)) < to
    ensures var (from, to) := PositionsOf(s, x.packet); Faithful(s, kept + [x], Taken(s, v, from, to), to, x.packet)
  {
    hide Covered, Intact, InOrder, AreItems, Faithful, Taken, Tracking;
    var (from, to) := PositionsOf(s, x.packet);
    var w := Taken(s, v, from, to);
    TakenOrder(s, kept, v, from, to, x.packet - 1);
    SpanningTracked(s, kept, x, v);
    forall m: nat | Listed(w.items, m)
      ensures m < |s.messages| && At(s, m + 1) <= to && Intact(s, kept + [x], m)
    {
      TakenListed(s, v, from, to, m);
      WholeInPacket(s, kept, x, v, m);
    }
    forall m: nat | m < |s.messages| && At(s, m + 1) <= to && Intact(s, kept + [x], m)
      ensures Listed(w.items, m)
    {
      TakenListed(s, v, from, to, m);
      SavedInPacket(s, kept, x, v, m);
      StartsBefore(s, from, m);
      EndsBy(s, to, m + 1);
    }
    Conclude(s, kept + [x], w, to, x.packet);
  }

  lemma Conclude(s: UlogFile, kept: seq<Arrival>, v: View, pos: nat, last: int)
    requires Sound(s, kept, v.items, pos) && Saving(s, kept, v, pos) && Tracking(s, kept, v, pos, last)
    ensures Faithful(s, kept, v, pos, last)
  {}

  /** A packet from inside one message, or with none. */
  lemma TakeWithoutStartFaithful(s: UlogFile, kept: seq<Arrival>, x: Arrival, v: View)
    requires IsPacket(s, x.packet) && x.packet > 0
    requires var (from, to) := PositionsOf(s, x.packet); Faithful(s, kept, v, from, x.packet - 1) && At(s, Next(s, from)) >= to
    ensures var (from, to) := PositionsOf(s, x.packet); Faithful(s, kept + [x], v, to, x.packet)
  {
    hide Covered, Intact, InOrder, AreItems;
    var (from, to) := PositionsOf(s, x.packet);
    var k := Next(s, from);
    SoundLater(s, kept, x, v.items, from);
    forall m: nat | m < |s.messages| && At(s, m + 1) <= to && Intact(s, kept + [x], m)
      ensures Listed(v.items, m) || v.open == Some(m)
    {
      SavedInPacket(s, kept, x, v, m);
      AtGrows(s, m, m + 1);
      StartsBefore(s, from, m);
      if m >= k {
        AtGrows(s, k, m);
      }
    }
    match v.open
    case Some(b) =>
      NextIs(s, from, b);
      CoverMore(s, kept, x, At(s, b));
    case None =>
      forall p: nat | p < |s.messages| && At(s, p) < to < At(s, p + 1)
        ensures !Covered(s, kept + [x], At(s, p), x.packet)
      {
        StartsBefore(s, from, p);
        if p >= k {
          AtGrows(s, k, p);
        }
        CoverMore(s, kept, x, At(s, p));
      }
  }

  /* ---------- Whole runs ---------- */

  lemma FirstFaithful(s: UlogFile, x: Arrival)
    requires x.packet == 0
    ensures IsPacket(s, 0) && Faithful(s, [x], FirstView(s), s.cuts[1], 0)
  {
    hide Intact, At, Content;
    var to := s.cuts[1];
    CutBounds(s, 0);
    var n := Ended(s, to);
    assert [x][0] == x;
    forall m: nat | Listed(Range(0, n), m) ensures m < n && At(s, m + 1) <= to && Intact(s, [x], m) {
      ListedRange(0, n, m);
      EndsBy(s, to, m + 1);
      FirstPacketIntact(s, [x], m);
    }
    forall m: nat | m < |s.messages| && At(s, m + 1) <= to ensures Listed(Range(0, n), m) {
      ListedRange(0, n, m);
      EndsBy(s, to, m + 1);
    }
    SpanningShows(s, to);
    if At(s, n) < to {
      FirstPacketCovers(s, [x], At(s, n));
    } else {
      NoneSpans(s, to);
    }
  }

  lemma FirstPacketIntact(s: UlogFile, kept: seq<Arrival>, m: nat)
    requires m < |s.messages| && At(s, m + 1) <= s.cuts[1] && Has(kept, 0)
    ensures Intact(s, kept, m)
  {}

  lemma FirstPacketCovers(s: UlogFile, kept: seq<Arrival>, from: nat)
    requires Has(kept, 0)
    ensures Covered(s, kept, from, 0)
  {}

  lemma AdvanceFaithful(s: UlogFile, kept: seq<Arrival>, x: Arrival, v: View, section: bool, i: nat)
    requires IsPacket(s, i) && IsPacket(s, x.packet) && i < x.packet && LostBetween(kept, i, x.packet)
    requires Faithful(s, kept, v, s.cuts[i + 1], i)
    ensures Faithful(s, kept + [x], Advanced(s, v, section, i, x.packet), s.cuts[x.packet + 1], x.packet)
  {
    hide Faithful, LostBetween, At, Content, Range, WellFormed;
    var (from, to) := PositionsOf(s, x.packet);
    var lost := x.packet - i - 1;
    var w := Flushed(s, v, section, s.cuts[i + 1], lost);
    if lost > 0 {
      FlushFaithful(s, kept, v, section, i, x.packet);
    }
    if At(s, Next(s, from)) < to {
      TakeWithStartFaithful(s, kept, x, w);
    } else {
      TakeWithoutStartFaithful(s, kept, x, w);
    }
  }

  lemma {:induction false} RunFaithful(s: UlogFile, kept: seq<Arrival>)
    requires FromFirst(s, kept)
    ensures Faithful(s, kept, Reassembled(s, kept), s.cuts[kept[|kept| - 1].packet + 1], kept[|kept| - 1].packet)
  {
    hide Faithful, Advanced, FirstView, Section;
    var n := |kept| - 1;
    if n == 0 {
      assert kept == [kept[0]];
      FirstFaithful(s, kept[0]);
    } else {
      RunFaithful(s, kept[..n]);
      assert kept == kept[..n] + [kept[n]];
      AdvanceFaithful(s, kept[..n], kept[n], Reassembled(s, kept[..n]), Section(kept), kept[n - 1].packet);
    }
  }

  /** The bytes behind the file's header are whole source messages in source order, with dropout records
      between them; and of the messages that have ended, exactly those of which every packet was accepted
      are in the file, or complete in the pending buffer. */
  lemma SavedExactly(s: UlogFile, arrivals: seq<Arrival>)
    requires forall i :: 0 <= i < |arrivals| ==> IsPacket(s, arrivals[i].packet)
    requires arrivals != [] && arrivals[0].packet == 0 && Near(arrivals)
    ensures var kept := Newest(arrivals);
      && FromFirst(s, kept) && ReceivedAll(s, arrivals).Some?
      && var v, st, end := Reassembled(s, kept), ReceivedAll(s, arrivals).value.st, s.cuts[kept[|kept| - 1].packet + 1];
         && AreItems(s, v.items) && InOrder(v.items) && st.file == s.header + Render(s, v.items)
         && (forall m: nat :: m < |s.messages| && At(s, m + 1) <= end ==>
              (Intact(s, kept, m) <==> Listed(v.items, m) || v.open == Some(m)))
         && (forall m: nat :: m < |s.messages| && At(s, m + 1) <= end && v.open == Some(m) ==> st.pending == s.messages[m])
  {
    hide ReceivedAll, Newest, Reassembled, Covered, Near, Render, FromFirst, Slice, At, Content, Intact;
    var kept := Newest(arrivals);
    Reassembly(s, arrivals);
    RunFaithful(s, kept);
    LastIsPacket(s, kept);
    var v, st, end := Reassembled(s, kept), ReceivedAll(s, arrivals).value.st, s.cuts[kept[|kept| - 1].packet + 1];
    forall m: nat | m < |s.messages| && At(s, m + 1) <= end && v.open == Some(m)
      ensures st.pending == s.messages[m] && Intact(s, kept, m)
    {
      MessageAt(s, m);
      IntactWhenComplete(s, kept, m, kept[|kept| - 1].packet);
    }
  }

  /* ---------- No loss ---------- */

  lemma RangeConcat(a: nat, b: nat, c: nat)
    requires a <= b <= c
    ensures Range(a, b) + Range(b, c) == Range(a, c)
  {}

  /** The first n messages, and the one behind them open if it has begun. */
  predicate Front(s: UlogFile, v: View, pos: nat, n: nat) {
    n <= |s.messages| && v.items == Range(0, n) &&
    if v.open.Some? then v.open == Some(n) && n < |s.messages| && At(s, n) < pos <= At(s, n + 1) else At(s, n) == pos
  }

  lemma TakeFrontWithStart(s: UlogFile, v: View, from: nat, to: nat, n: nat)
    requires Positions(s, from, to) && Front(s, v, from, n) && At(s, Next(s, from)) < to
    ensures Front(s, Taken(s, v, from, to), to, Ended(s, to))
  {
    hide At, Content, Range;
    var k := Next(s, from);
    EndsBy(s, to, k);
    SpanningShows(s, to);
    if v.open.Some? {
      NextIs(s, from, n);
      RangeOne(n);
      RangeConcat(0, n, k);
    } else {
      StartsBefore(s, from, n);
      AtBoundary(s, from, n);
      assert v.items + [] == v.items;
    }
    RangeConcat(0, k, Ended(s, to));
  }

  lemma RangeOne(n: nat)
    ensures Range(n, n + 1) == [Src(n)]
  {}

  lemma AtBoundary(s: UlogFile, pos: nat, n: nat)
    requires n <= |s.messages| && At(s, n) == pos <= |Content(s)|
    ensures Next(s, pos) == n
  {
    var k := Next(s, pos);
    StartsBefore(s, pos, n);
    if k < n {
      AtGrows(s, k, n);
    }
  }

  lemma TakeFront(s: UlogFile, v: View, from: nat, to: nat, n: nat) returns (m: nat)
    requires Positions(s, from, to) && Front(s, v, from, n)
    ensures Front(s, Taken(s, v, from, to), to, m)
  {
    hide At, Content, Range;
    if At(s, Next(s, from)) < to {
      m := Ended(s, to);
      TakeFrontWithStart(s, v, from, to, n);
    } else {
      m := n;
      if v.open.Some? {
        NextIs(s, from, n);
      } else {
        AtBoundary(s, from, n);
      }
    }
  }

  lemma LosslessBytes(s: UlogFile, v: View, pos: nat, st: State, n: nat)
    requires Shows(s, v, pos, st) && Front(s, v, pos, n)
    ensures st.file + st.pending == Content(s)[..pos]
  {
    hide Render, At, Flat;
    assert st.pending == Slice(s, At(s, n), pos);
    RenderRange(s, 0, n);
    StartOfMessages(s);
    assert st.file == s.header + Slice(s, HEADER_LEN, At(s, n));
    assert Content(s)[..HEADER_LEN] == s.header;
  }

  lemma StartOfMessages(s: UlogFile)
    ensures At(s, 0) == HEADER_LEN
  {}

  predicate Consecutive(arrivals: seq<Arrival>) {
    forall i :: 0 <= i < |arrivals| ==> arrivals[i].packet == i
  }

  lemma NewestNext(before: seq<Arrival>, x: Arrival)
    requires Near(before) && Newest(before) == before && before != [] && x.packet == before[|before| - 1].packet + 1
    ensures Newest(before + [x]) == before + [x] && Near(before + [x])
  {
    assert (before + [x])[..|before|] == before;
  }

  lemma NewestOne(x: Arrival)
    ensures Newest([x]) == [x] && Near([x])
  {
    assert [x][..0] == [];
  }

  lemma {:induction false} AllNewest(arrivals: seq<Arrival>)
    requires Consecutive(arrivals) && arrivals != []
    ensures Newest(arrivals) == arrivals && Near(arrivals)
  {
    hide Newest, Near;
    var n := |arrivals| - 1;
    if n == 0 {
      assert arrivals == [arrivals[0]];
      NewestOne(arrivals[0]);
    } else {
      AllNewest(arrivals[..n]);
      assert arrivals == arrivals[..n] + [arrivals[n]];
      NewestNext(arrivals[..n], arrivals[n]);
    }
  }

  lemma NothingFlushed(s: UlogFile, v: View, section: bool, pos: nat)
    ensures Flushed(s, v, section, pos, 0) == v
  {}

  lemma {:induction false} RunLossless(s: UlogFile, kept: seq<Arrival>) returns (m: nat)
    requires FromFirst(s, kept) && Consecutive(kept)
    ensures |kept| < |s.cuts| && Front(s, Reassembled(s, kept), s.cuts[|kept|], m)
  {
    hide Front, Taken, Section, Flushed;
    var n := |kept| - 1;
    assert IsPacket(s, kept[n].packet) && kept[n].packet == n;
    if n == 0 {
      m := Ended(s, s.cuts[1]);
      FirstLossless(s);
    } else {
      var l := RunLossless(s, kept[..n]);
      assert kept[n - 1].packet == n - 1;
      NothingFlushed(s, Reassembled(s, kept[..n]), Section(kept), s.cuts[n]);
      m := TakeFront(s, Reassembled(s, kept[..n]), PositionsOf(s, n).0, PositionsOf(s, n).1, l);
    }
  }

  lemma FirstLossless(s: UlogFile)
    ensures IsPacket(s, 0) && Front(s, FirstView(s), s.cuts[1], Ended(s, s.cuts[1]))
  {
    CutBounds(s, 0);
    SpanningShows(s, s.cuts[1]);
  }

  /** With nothing lost the file and the pending bytes are, after every packet, exactly what was sent,
      however the stream was cut. */
  lemma LosslessReassembly(s: UlogFile, arrivals: seq<Arrival>)
    requires arrivals != [] && |arrivals| < |s.cuts| && Consecutive(arrivals)
    ensures (forall i :: 0 <= i < |arrivals| ==> IsPacket(s, arrivals[i].packet))
    ensures var r := ReceivedAll(s, arrivals);
      && r.Some? && r.value.drops == 0
      && r.value.st.file + r.value.st.pending == Content(s)[..s.cuts[|arrivals|]]
  {
    hide Front, ReceivedAll, Newest, Reassembled, Near, Shows;
    AllNewest(arrivals);
    Reassembly(s, arrivals);
    Accounting(s, arrivals);
    var n := RunLossless(s, arrivals);
    LosslessBytes(s, Reassembled(s, arrivals), s.cuts[|arrivals|], ReceivedAll(s, arrivals).value.st, n);
  }
}
