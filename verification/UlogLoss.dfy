/** What the ULog receiver writes when packets are lost, repeated or late. */
module UlogLoss {
  import opened Bytes
  import opened Ulog
  import opened UlogStream

  /* ---------- What is in the file ---------- */

  /** After its header the file is a list of source messages, by number, and dropout records. */
  datatype Item = Src(k: nat) | Dropout(drops: nat)

  predicate IsItem(s: UlogFile, x: Item) { x.Src? ==> x.k < |s.messages| }

  function Spell(s: UlogFile, x: Item): seq<byte>
    requires IsItem(s, x)
  {
    match x
    case Src(k) => s.messages[k]
    case Dropout(drops) => DropoutRecord(drops)
  }

  predicate AreItems(s: UlogFile, items: seq<Item>) {
    forall i :: 0 <= i < |items| ==> IsItem(s, items[i])
  }

  function Render(s: UlogFile, items: seq<Item>): seq<byte>
    requires AreItems(s, items)
  {
    if items == [] then [] else Render(s, items[..|items| - 1]) + Spell(s, items[|items| - 1])
  }

  /** Source messages appear in order, and none twice. */
  predicate InOrder(items: seq<Item>) {
    forall i, j :: 0 <= i < j < |items| && items[i].Src? && items[j].Src? ==> items[i].k < items[j].k
  }

  function Range(k: nat, n: nat): (r: seq<Item>)
    requires k <= n
    ensures |r| == n - k && forall i :: 0 <= i < |r| ==> r[i] == Src(k + i)
    decreases n - k
  {
    if k == n then [] else Range(k, n - 1) + [Src(n - 1)]
  }

  lemma {:induction false} RenderConcat(s: UlogFile, a: seq<Item>, b: seq<Item>)
    requires AreItems(s, a) && AreItems(s, b)
    ensures AreItems(s, a + b) && Render(s, a + b) == Render(s, a) + Render(s, b)
  {
    hide Spell, WellFormed;
    if b == [] {
      assert a + b == a;
    } else {
      var n := |b| - 1;
      RenderConcat(s, a, b[..n]);
      assert (a + b)[..|a + b| - 1] == a + b[..n];
    }
  }

  lemma {:induction false} RenderRange(s: UlogFile, k: nat, n: nat)
    requires k <= n <= |s.messages|
    ensures At(s, k) <= At(s, n) <= |Content(s)|
    ensures AreItems(s, Range(k, n)) && Render(s, Range(k, n)) == Slice(s, At(s, k), At(s, n))
    decreases n - k
  {
    hide Slice, Flat, At, Content, WellFormed;
    AtGrows(s, k, n);
    PrefixLength(s, n);
    if k == n {
      EmptySlice(s, At(s, k));
    } else {
      RenderRange(s, k, n - 1);
      MessageAt(s, n - 1);
      SliceSplits(s, At(s, k), At(s, n - 1), At(s, n));
      assert Range(k, n)[..n - k - 1] == Range(k, n - 1);
    }
  }

  /* ---------- Reassembly on message numbers ---------- */

  /** What has been written, and the message, if any, of which bytes are pending. */
  datatype View = View(items: seq<Item>, open: Option<nat>)

  /** All of the pending message has come: it ends where the packet did. */
  predicate Complete(s: UlogFile, v: View, to: nat) {
    v.open.Some? && v.open.value < |s.messages| && At(s, v.open.value + 1) == to
  }

  /** A loss after position `to`: a dropout record, and the pending message is written or forgotten. */
  function Flushed(s: UlogFile, v: View, section: bool, to: nat, lost: nat): View {
    if lost == 0 then v
    else
      View(v.items + (if section then [Dropout(lost)] else []) + (if Complete(s, v, to) then [Src(v.open.value)] else []), None)
  }

  /** The message that spans position `to`, if any. */
  function Spanning(s: UlogFile, to: nat): Option<nat>
    requires to >= HEADER_LEN
  {
    if At(s, Ended(s, to)) < to then Some(Ended(s, to)) else None
  }

  predicate Positions(s: UlogFile, from: nat, to: nat) {
    HEADER_LEN <= from <= to <= |Content(s)| && to <= from + MAX_DATA
  }

  /** The bytes between two positions: the pending message is completed and those behind it split off. */
  function Taken(s: UlogFile, v: View, from: nat, to: nat): View
    requires Positions(s, from, to)
  {
    var k := Next(s, from);
    if At(s, k) < to then
      EndedIs(s, to, k);
      View(v.items + (if v.open.Some? then [Src(v.open.value)] else []) + Range(k, Ended(s, to)), Spanning(s, to))
    else v
  }

  /** The receiver's state `st`, read as a view at position `to`. */
  ghost predicate Shows(s: UlogFile, v: View, to: nat, st: State)
  {
    && to <= |Content(s)|
    && st.gotHeader && AreItems(s, v.items) && st.file == s.header + Render(s, v.items)
    && match v.open
       case None => st.pending == []
       case Some(b) => b < |s.messages| && At(s, b) < to <= At(s, b + 1) && st.pending == Slice(s, At(s, b), to)
  }

  lemma RenderOne(s: UlogFile, x: Item)
    requires IsItem(s, x)
    ensures AreItems(s, [x]) && Render(s, [x]) == Spell(s, x)
  {
    assert [x][..0] == [];
  }

  lemma RenderMore(s: UlogFile, items: seq<Item>, x: Item)
    requires AreItems(s, items) && IsItem(s, x)
    ensures AreItems(s, items + [x]) && Render(s, items + [x]) == Render(s, items) + Spell(s, x)
  {
    RenderOne(s, x);
    RenderConcat(s, items, [x]);
  }

  /** The pending bytes hold a whole message exactly when the pending message is complete. */
  lemma WholePending(s: UlogFile, b: nat, to: nat)
    requires b < |s.messages| && At(s, b) < to <= At(s, b + 1) && to <= |Content(s)|
    ensures Whole(Slice(s, At(s, b), to)) == if At(s, b + 1) == to then s.messages[b] else []
  {
    SplitAtBoundary(s, b, to);
    EndedIs(s, to, b);
    if At(s, b + 1) == to {
      EndedIs(s, to, b + 1);
      FirstMessage(s, b, to);
      MessageAt(s, b);
      AtGrows(s, b + 1, Ended(s, to));
    }
  }

  lemma FlushShows(s: UlogFile, v: View, to: nat, st: State, lost: nat)
    requires Shows(s, v, to, st) && lost > 0
    ensures var record := if st.section then DropoutRecord(lost) else [];
      Shows(s, Flushed(s, v, st.section, to, lost), to, st.(file := st.file + record + Whole(st.pending), pending := []))
  {
    hide Whole, DropoutRecord, Render, Slice;
    var items := v.items;
    if st.section {
      RenderMore(s, items, Dropout(lost));
      items := items + [Dropout(lost)];
    } else {
      assert items + [] == items;
    }
    match v.open
    case None =>
      NothingToSplit();
      assert items + [] == items;
    case Some(b) =>
      WholePending(s, b, to);
      if At(s, b + 1) == to {
        RenderMore(s, items, Src(b));
      } else {
        assert items + [] == items;
      }
  }

  lemma NextIs(s: UlogFile, pos: nat, b: nat)
    requires b < |s.messages| && At(s, b) < pos <= At(s, b + 1) && pos <= |Content(s)|
    ensures Next(s, pos) == b + 1
  {
    var n := Next(s, pos);
    if n <= b {
      AtGrows(s, n, b);
    } else if n > b + 1 {
      AtGrows(s, b + 1, n - 1);
    }
  }

  /** The offset that goes with the bytes between two positions. */
  function StartIn(s: UlogFile, from: nat, to: nat): byte
    requires Positions(s, from, to)
  {
    var at := At(s, Next(s, from));
    if at < to then at - from else NO_MESSAGE
  }

  /** Splitting from message k on. */
  lemma SplitShows(s: UlogFile, items: seq<Item>, k: nat, to: nat, st: State)
    requires k <= |s.messages| && At(s, k) <= to <= |Content(s)| && AreItems(s, items)
    requires st.gotHeader && st.file == s.header + Render(s, items) + Whole(Slice(s, At(s, k), to))
    requires st.pending == Rest(Slice(s, At(s, k), to))
    ensures k <= Ended(s, to) && Shows(s, View(items + Range(k, Ended(s, to)), Spanning(s, to)), to, st)
  {
    hide Whole, Rest, Render, Slice, At;
    var n := Ended(s, to);
    SplitAtBoundary(s, k, to);
    RenderRange(s, k, n);
    RenderConcat(s, items, Range(k, n));
    SpanningShows(s, to);
  }

  /** What is pending, with the first bytes of the packet, makes the spanning message whole. */
  lemma CompletedShows(s: UlogFile, b: nat, from: nat, to: nat)
    requires Positions(s, from, to) && b < |s.messages| && At(s, b) < from <= At(s, b + 1) && At(s, Next(s, from)) < to
    ensures Next(s, from) == b + 1 && Slice(s, At(s, b), from) != []
    ensures Slice(s, At(s, b), from) + TakeFirst(Slice(s, from, to), At(s, b + 1) - from) == s.messages[b]
  {
    hide Slice, TakeFirst, DropFirst;
    NextIs(s, from, b);
    MessageAt(s, b);
    NotEmpty(s, At(s, b), from);
    SliceSplits(s, At(s, b), from, At(s, b + 1));
    SliceSplits(s, from, At(s, b + 1), to);
  }

  /** Bytes with a message start in them. */
  lemma TakeWithStart(s: UlogFile, v: View, from: nat, to: nat, st: State)
    requires Positions(s, from, to) && Shows(s, v, from, st) && At(s, Next(s, from)) < to
    ensures Shows(s, Taken(s, v, from, to), to, Splice(st, Slice(s, from, to), StartIn(s, from, to)))
  {
    hide Whole, Rest, Render, Slice, TakeFirst, DropFirst, At, Flat, Content;
    var k := Next(s, from);
    SliceSplits(s, from, At(s, k), to);
    var items := v.items + if v.open.Some? then [Src(v.open.value)] else [];
    match v.open {
      case None =>
        assert items == v.items;
      case Some(b) =>
        CompletedShows(s, b, from, to);
        RenderMore(s, v.items, Src(b));
    }
    SplitShows(s, items, k, to, Splice(st, Slice(s, from, to), StartIn(s, from, to)));
  }

  lemma NotEmpty(s: UlogFile, a: nat, b: nat)
    requires a < b <= |Content(s)|
    ensures Slice(s, a, b) != []
  {
    assert |Slice(s, a, b)| == b - a;
  }

  lemma SpanningShows(s: UlogFile, to: nat)
    requires HEADER_LEN <= to <= |Content(s)|
    ensures var n := Ended(s, to);
      && At(s, n) <= to
      && (At(s, n) < to ==> n < |s.messages| && to <= At(s, n + 1))
      && (At(s, n) == to ==> Slice(s, At(s, n), to) == [])
  {
    LastEnd(s);
  }

  /** Bytes from inside one message. */
  lemma TakeWithoutStart(s: UlogFile, v: View, from: nat, to: nat, st: State)
    requires Positions(s, from, to) && Shows(s, v, from, st) && At(s, Next(s, from)) >= to
    ensures Shows(s, Taken(s, v, from, to), to, Splice(st, Slice(s, from, to), StartIn(s, from, to)))
  {
    hide Whole, Rest, Render, Slice;
    NothingToSplit();
    ShortSlice(s, from, to);
    match v.open
    case None =>
    case Some(b) =>
      NextIs(s, from, b);
      SliceSplits(s, At(s, b), from, to);
      NotEmpty(s, At(s, b), from);
  }

  lemma ShortSlice(s: UlogFile, from: nat, to: nat)
    requires Positions(s, from, to)
    ensures DropFirst(Slice(s, from, to), NO_MESSAGE) == []
  {}

  lemma TakeShows(s: UlogFile, v: View, from: nat, to: nat, st: State)
    requires Positions(s, from, to) && Shows(s, v, from, st)
    ensures Shows(s, Taken(s, v, from, to), to, Splice(st, Slice(s, from, to), StartIn(s, from, to)))
  {
    hide Whole, Rest, Render, Slice, TakeFirst, DropFirst, At, Flat, Content, Splice, Taken, Shows, StartIn;
    if At(s, Next(s, from)) < to {
      TakeWithStart(s, v, from, to, st);
    } else {
      TakeWithoutStart(s, v, from, to, st);
    }
  }

  /* ---------- One packet ---------- */

  function PositionsOf(s: UlogFile, j: nat): (p: (nat, nat))
    requires IsPacket(s, j) && j > 0
    ensures Positions(s, p.0, p.1) && p == (s.cuts[j], s.cuts[j + 1])
  {
    CutBounds(s, j);
    (s.cuts[j], s.cuts[j + 1])
  }

  function FirstView(s: UlogFile): View {
    CutBounds(s, 0);
    View(Range(0, Ended(s, s.cuts[1])), Spanning(s, s.cuts[1]))
  }

  /** The first packet is the header and the stretch behind it. */
  lemma FirstPacketSplit(s: UlogFile, st: State)
    requires !st.gotHeader && st.file == [] && st.pending == []
    ensures Positions(s, At(s, 0), s.cuts[1])
    ensures var d := Slice(s, At(s, 0), s.cuts[1]);
      Process(st, Packet(s, 0), 0, 0) == Some(State(true, st.section, Rest(d), s.header + Whole(d)))
  {
    hide Whole, Rest;
    CutBounds(s, 0);
    var d := Packet(s, 0);
    assert d[..HEADER_LEN] == s.header;
    assert d[HEADER_LEN..] == Slice(s, At(s, 0), s.cuts[1]);
    assert st.file + s.header == s.header == s.header + [];
    assert DropFirst(d[HEADER_LEN..], 0) == d[HEADER_LEN..];
  }

  lemma FirstPacketShows(s: UlogFile, st: State)
    requires !st.gotHeader && st.file == [] && st.pending == []
    ensures var r := Process(st, Packet(s, 0), 0, 0); r.Some? && Shows(s, FirstView(s), s.cuts[1], r.value)
  {
    hide Whole, Rest, Render, Process, Packet, Slice, Shows;
    CutBounds(s, 0);
    var to := s.cuts[1];
    FirstPacketSplit(s, st);
    NoItems(s);
    SplitShows(s, [], 0, to, State(true, st.section, Rest(Slice(s, At(s, 0), to)), s.header + Whole(Slice(s, At(s, 0), to))));
    assert [] + Range(0, Ended(s, to)) == Range(0, Ended(s, to));
  }

  lemma NoItems(s: UlogFile)
    ensures AreItems(s, []) && Render(s, []) == []
  {}

  /** Packet j, accepted after packet i. */
  function Advanced(s: UlogFile, v: View, section: bool, i: nat, j: nat): View
    requires IsPacket(s, i) && IsPacket(s, j) && i < j
  {
    Taken(s, Flushed(s, v, section, s.cuts[i + 1], j - i - 1), PositionsOf(s, j).0, PositionsOf(s, j).1)
  }

  lemma SpliceAfterLoss(st: State, data: seq<byte>, start: nat)
    requires st.pending == [] && |data| <= MAX_DATA
    ensures Splice(st, data, start) == if start == NO_MESSAGE then st else Splice(st, DropFirst(data, start), 0)
  {}

  lemma StillShows(s: UlogFile, v: View, to: nat, later: nat, st: State)
    requires Shows(s, v, to, st) && v.open.None? && to <= later <= |Content(s)|
    ensures Shows(s, v, later, st)
  {}

  lemma PacketShows(s: UlogFile, v: View, i: nat, j: nat, st: State)
    requires IsPacket(s, i) && IsPacket(s, j) && i < j && Shows(s, v, s.cuts[i + 1], st)
    ensures var r := Process(st, Packet(s, j), Offset(s, j), j - i - 1);
      r.Some? && Shows(s, Advanced(s, v, st.section, i, j), s.cuts[j + 1], r.value)
  {
    hide Whole, Rest, Render, Splice, Taken, DropoutRecord, Slice, At, Content, Flat;
    CutBounds(s, i);
    CutBounds(s, j);
    var (from, to) := PositionsOf(s, j);
    var lost, d, start := j - i - 1, Packet(s, j), Offset(s, j);
    if lost == 0 {
      TakeShows(s, v, from, to, st);
    } else {
      FlushShows(s, v, s.cuts[i + 1], st, lost);
      var record := if st.section then DropoutRecord(lost) else [];
      var st2 := st.(file := st.file + record + Whole(st.pending), pending := []);
      var v2 := Flushed(s, v, st.section, s.cuts[i + 1], lost);
      StillShows(s, v2, s.cuts[i + 1], from, st2);
      TakeShows(s, v2, from, to, st2);
      PacketSize(s, j);
      SpliceAfterLoss(st2, d, start);
    }
  }

  lemma PacketSize(s: UlogFile, j: nat)
    requires IsPacket(s, j)
    ensures |Packet(s, j)| <= MAX_DATA
  {}

  /* ---------- Many arrivals ---------- */

  /** A data message as it arrives: which packet it carries, and whether it asked for an acknowledgement. */
  datatype Arrival = Arrival(packet: nat, acked: bool)

  function ReceivedAll(s: UlogFile, arrivals: seq<Arrival>): (r: Option<Status>)
    requires forall i :: 0 <= i < |arrivals| ==> IsPacket(s, arrivals[i].packet)
    ensures r.Some? ==> -1 <= r.value.last < WRAP
  {
    if arrivals == [] then Some(Status(State(false, false, [], []), -1, 0))
    else
      var n := |arrivals| - 1;
      var x := arrivals[n];
      match ReceivedAll(s, arrivals[..n])
      case None => None
      case Some(r) => Received(r, x.acked, Numbered(x.packet), Packet(s, x.packet), Offset(s, x.packet))
  }

  /** The arrivals that carry something newer than all before them. */
  function Newest(arrivals: seq<Arrival>): (kept: seq<Arrival>)
    ensures arrivals != [] ==> kept != [] && kept[0] == arrivals[0]
  {
    if arrivals == [] then []
    else
      var n := |arrivals| - 1;
      var kept := Newest(arrivals[..n]);
      if kept == [] || arrivals[n].packet > kept[|kept| - 1].packet then kept + [arrivals[n]] else kept
  }

  /** No arrival is 2^15 packets or more away from the newest before it. */
  predicate Near(arrivals: seq<Arrival>) {
    arrivals == [] ||
    var n := |arrivals| - 1;
    var kept := Newest(arrivals[..n]);
    Near(arrivals[..n]) && (kept != [] ==> -HALF < arrivals[n].packet - kept[|kept| - 1].packet < HALF)
  }

  lemma FirstAccepted(seqno: nat)
    requires seqno < WRAP
    ensures Check(-1, seqno) == (true, 0)
  {}

  lemma ReceivedFirst(s: UlogFile, x: Arrival)
    requires IsPacket(s, x.packet)
    ensures Newest([x]) == [x]
    ensures ReceivedAll(s, [x]) == match Process(State(false, !x.acked, [], []), Packet(s, x.packet), Offset(s, x.packet), 0)
      case None => None
      case Some(st) => Some(Status(st, Numbered(x.packet), 0))
  {
    hide Process, Packet, Offset;
    FirstAccepted(Numbered(x.packet));
    assert [x][..0] == [];
  }

  lemma ReceivedNext(s: UlogFile, before: seq<Arrival>, x: Arrival, r: Status, i: nat)
    requires (forall k :: 0 <= k < |before| ==> IsPacket(s, before[k].packet)) && IsPacket(s, x.packet)
    requires ReceivedAll(s, before) == Some(r) && Newest(before) != [] && Newest(before)[|Newest(before)| - 1].packet == i
    requires r.last == Numbered(i) && -HALF < x.packet - i < HALF
    ensures x.packet <= i ==> ReceivedAll(s, before + [x]) == Some(r) && Newest(before + [x]) == Newest(before)
    ensures x.packet > i ==>
      && Newest(before + [x]) == Newest(before) + [x]
      && ReceivedAll(s, before + [x]) ==
           match Process(r.st.(section := r.st.section || !x.acked), Packet(s, x.packet), Offset(s, x.packet), x.packet - i - 1)
           case None => None
           case Some(st) => Some(Status(st, Numbered(x.packet), r.drops + (x.packet - i - 1)))
  {
    hide Process, Check, Packet, Offset;
    assert (before + [x])[..|before|] == before;
    SequenceExact(i, x.packet);
  }

  lemma FailureStays(s: UlogFile, before: seq<Arrival>, x: Arrival)
    requires (forall k :: 0 <= k < |before| ==> IsPacket(s, before[k].packet)) && IsPacket(s, x.packet)
    requires ReceivedAll(s, before).None?
    ensures ReceivedAll(s, before + [x]).None?
  {
    assert (before + [x])[..|before|] == before;
  }

  /** Exactly the newest arrivals are accepted, and accepted and dropped packets together make up the
      whole span of packet numbers. */
  lemma {:induction false} Accounting(s: UlogFile, arrivals: seq<Arrival>)
    requires forall i :: 0 <= i < |arrivals| ==> IsPacket(s, arrivals[i].packet)
    requires arrivals != [] && Near(arrivals) && ReceivedAll(s, arrivals).Some?
    ensures var r, kept := ReceivedAll(s, arrivals).value, Newest(arrivals);
      && r.last == Numbered(kept[|kept| - 1].packet)
      && |kept| + r.drops == kept[|kept| - 1].packet - kept[0].packet + 1
  {
    hide Process, Check, Packet, Offset, ReceivedAll, Newest, Received;
    var n := |arrivals| - 1;
    var before, x := arrivals[..n], arrivals[n];
    assert arrivals == before + [x];
    if n == 0 {
      assert arrivals == [x];
      ReceivedFirst(s, x);
    } else {
      if ReceivedAll(s, before).None? {
        FailureStays(s, before, x);
      }
      Accounting(s, before);
      var kept := Newest(before);
      ReceivedNext(s, before, x, ReceivedAll(s, before).value, kept[|kept| - 1].packet);
    }
  }

  predicate Section(kept: seq<Arrival>) {
    exists i :: 0 <= i < |kept| && !kept[i].acked
  }

  predicate FromFirst(s: UlogFile, kept: seq<Arrival>) {
    && kept != [] && kept[0].packet == 0 && (forall i :: 0 <= i < |kept| ==> IsPacket(s, kept[i].packet))
    && (forall i, j :: 0 <= i < j < |kept| ==> kept[i].packet < kept[j].packet)
  }

  function Reassembled(s: UlogFile, kept: seq<Arrival>): View
    requires FromFirst(s, kept)
  {
    if |kept| == 1 then FirstView(s)
    else
      var n := |kept| - 1;
      Advanced(s, Reassembled(s, kept[..n]), Section(kept), kept[n - 1].packet, kept[n].packet)
  }

  lemma SectionStep(kept: seq<Arrival>, x: Arrival)
    ensures Section(kept + [x]) == (Section(kept) || !x.acked)
  {
    if Section(kept) {
      var i :| 0 <= i < |kept| && !kept[i].acked;
      assert (kept + [x])[i] == kept[i];
    }
    assert (kept + [x])[|kept|] == x;
  }

  lemma SectionKept(st: State, data: seq<byte>, start: nat, drops: nat)
    ensures var r := Process(st, data, start, drops); r.Some? ==> r.value.section == st.section
  {
    hide Whole, Rest, DropoutRecord;
  }

  lemma ShowsAnySection(s: UlogFile, v: View, to: nat, st: State, section: bool)
    requires Shows(s, v, to, st)
    ensures Shows(s, v, to, st.(section := section))
  {}

  lemma FirstReassembled(s: UlogFile, x: Arrival)
    requires x.packet == 0
    ensures var r, kept := ReceivedAll(s, [x]), Newest([x]);
      && kept == [x] && FromFirst(s, kept) && r.Some? && r.value.st.section == Section(kept) && r.value.last == 0
      && Shows(s, Reassembled(s, kept), s.cuts[1], r.value.st)
  {
    hide Process, Packet, Offset, Shows, Section, FirstView, ReceivedAll, Newest;
    var st := State(false, !x.acked, [], []);
    ReceivedFirst(s, x);
    FirstPacketShows(s, st);
    FirstOffset(s);
    SectionKept(st, Packet(s, 0), 0, 0);
    SectionStep([], x);
    assert [] + [x] == [x];
    NoSection();
  }

  lemma ReassembledNext(s: UlogFile, kept: seq<Arrival>, x: Arrival)
    requires FromFirst(s, kept) && IsPacket(s, x.packet) && kept[|kept| - 1].packet < x.packet
    ensures FromFirst(s, kept + [x])
    ensures Reassembled(s, kept + [x]) == Advanced(s, Reassembled(s, kept), Section(kept + [x]), kept[|kept| - 1].packet, x.packet)
  {
    hide Section, Advanced, FirstView;
    assert (kept + [x])[..|kept|] == kept;
  }

  lemma NextReassembled(s: UlogFile, kept: seq<Arrival>, x: Arrival, st: State)
    requires FromFirst(s, kept) && IsPacket(s, x.packet) && kept[|kept| - 1].packet < x.packet
    requires st.section == Section(kept) && Shows(s, Reassembled(s, kept), s.cuts[kept[|kept| - 1].packet + 1], st)
    ensures FromFirst(s, kept + [x])
    ensures var st' := st.(section := st.section || !x.acked);
      var r := Process(st', Packet(s, x.packet), Offset(s, x.packet), x.packet - kept[|kept| - 1].packet - 1);
      r.Some? && r.value.section == Section(kept + [x]) && Shows(s, Reassembled(s, kept + [x]), s.cuts[x.packet + 1], r.value)
  {
    hide Process, Packet, Offset, Shows, Section, Advanced, Reassembled, FromFirst;
    LastIsPacket(s, kept);
    var i := kept[|kept| - 1].packet;
    var st' := st.(section := st.section || !x.acked);
    ShowsAnySection(s, Reassembled(s, kept), s.cuts[i + 1], st, st'.section);
    PacketShows(s, Reassembled(s, kept), i, x.packet, st');
    SectionKept(st', Packet(s, x.packet), Offset(s, x.packet), x.packet - i - 1);
    SectionStep(kept, x);
    ReassembledNext(s, kept, x);
  }

  lemma LastIsPacket(s: UlogFile, kept: seq<Arrival>)
    requires FromFirst(s, kept)
    ensures kept != [] && IsPacket(s, kept[|kept| - 1].packet)
  {}

  lemma NearStep(before: seq<Arrival>, x: Arrival)
    requires Near(before + [x])
    ensures Near(before)
    ensures Newest(before) != [] ==> -HALF < x.packet - Newest(before)[|Newest(before)| - 1].packet < HALF
  {
    hide Newest;
    assert (before + [x])[..|before|] == before;
  }

  lemma RebuiltParts(s: UlogFile, kept: seq<Arrival>, r: Option<Status>)
    requires Rebuilt(s, kept, r)
    ensures FromFirst(s, kept) && r.Some? && kept != [] && IsPacket(s, kept[|kept| - 1].packet)
    ensures r.value.st.section == Section(kept) && r.value.last == Numbered(kept[|kept| - 1].packet)
    ensures Shows(s, Reassembled(s, kept), s.cuts[kept[|kept| - 1].packet + 1], r.value.st)
  {
    hide Shows, Section, Reassembled;
  }

  lemma RebuiltFrom(s: UlogFile, kept: seq<Arrival>, x: Arrival, st: State, drops: nat)
    requires IsPacket(s, x.packet)
    requires FromFirst(s, kept + [x]) && st.section == Section(kept + [x]) && Shows(s, Reassembled(s, kept + [x]), s.cuts[x.packet + 1], st)
    ensures Rebuilt(s, kept + [x], Some(Status(st, Numbered(x.packet), drops)))
  {
    hide Shows, Section, Reassembled, FromFirst, WellFormed;
    assert (kept + [x])[|kept + [x]| - 1] == x;
  }

  lemma ReassemblyStep(s: UlogFile, before: seq<Arrival>, x: Arrival)
    requires (forall i :: 0 <= i < |before| ==> IsPacket(s, before[i].packet)) && IsPacket(s, x.packet) && before != []
    requires Near(before + [x]) && Rebuilt(s, Newest(before), ReceivedAll(s, before))
    ensures Rebuilt(s, Newest(before + [x]), ReceivedAll(s, before + [x]))
  {
    hide Shows, Section, ReceivedAll, Newest, Reassembled, Near, Process, Packet, Offset, FromFirst, WellFormed, Rebuilt;
    var kept := Newest(before);
    RebuiltParts(s, kept, ReceivedAll(s, before));
    var r, i := ReceivedAll(s, before).value, kept[|kept| - 1].packet;
    NearStep(before, x);
    ReceivedNext(s, before, x, r, i);
    if x.packet > i {
      NextReassembled(s, kept, x, r.st);
      var st := Process(r.st.(section := r.st.section || !x.acked), Packet(s, x.packet), Offset(s, x.packet), x.packet - i - 1);
      RebuiltFrom(s, kept, x, st.value, r.drops + (x.packet - i - 1));
    }
  }

  /** The receiver has gone through, and its state is what the accepted packets make it. */
  ghost predicate Rebuilt(s: UlogFile, kept: seq<Arrival>, r: Option<Status>) {
    && FromFirst(s, kept) && r.Some? && r.value.st.section == Section(kept)
    && r.value.last == Numbered(kept[|kept| - 1].packet)
    && Shows(s, Reassembled(s, kept), s.cuts[kept[|kept| - 1].packet + 1], r.value.st)
  }

  /** If the first packet arrives first, then whatever else is lost, repeated or late, the file is the
      header followed by whole source messages and dropout records, as computed on message numbers. */
  lemma {:induction false} Reassembly(s: UlogFile, arrivals: seq<Arrival>)
    requires forall i :: 0 <= i < |arrivals| ==> IsPacket(s, arrivals[i].packet)
    requires arrivals != [] && arrivals[0].packet == 0 && Near(arrivals)
    ensures Rebuilt(s, Newest(arrivals), ReceivedAll(s, arrivals))
  {
    var n := |arrivals| - 1;
    var before, x := arrivals[..n], arrivals[n];
    assert arrivals == before + [x];
    if n == 0 {
      hide Shows, Section, FirstView, Advanced, ReceivedAll, Newest, Reassembled;
      assert arrivals == [x];
      FirstReassembled(s, x);
    } else {
      hide ReceivedAll, Newest, Rebuilt, Near;
      NearStep(before, x);
      Reassembly(s, before);
      ReassemblyStep(s, before, x);
    }
  }

  lemma NoSection()
    ensures !Section([])
  {}

  lemma FirstOffset(s: UlogFile)
    ensures Offset(s, 0) == 0
  {}

  lemma {:induction false} FailureLasts(s: UlogFile, arrivals: seq<Arrival>, i: nat)
    requires (forall k :: 0 <= k < |arrivals| ==> IsPacket(s, arrivals[k].packet)) && i <= |arrivals|
    requires ReceivedAll(s, arrivals[..i]).None?
    ensures ReceivedAll(s, arrivals).None?
  {
    hide ReceivedAll;
    if i < |arrivals| {
      var n := |arrivals| - 1;
      assert arrivals == arrivals[..n] + [arrivals[n]] && arrivals[..n][..i] == arrivals[..i];
      FailureLasts(s, arrivals[..n], i);
      FailureStays(s, arrivals[..n], arrivals[n]);
    } else {
      assert arrivals[..i] == arrivals;
    }
  }

  lemma ReceivedStep(s: UlogFile, arrivals: seq<Arrival>, i: nat, r: Status)
    requires (forall k :: 0 <= k < |arrivals| ==> IsPacket(s, arrivals[k].packet)) && i < |arrivals|
    requires ReceivedAll(s, arrivals[..i]) == Some(r)
    ensures -1 <= r.last < WRAP
    ensures var x := arrivals[i];
      ReceivedAll(s, arrivals[..i + 1]) == Received(r, x.acked, Numbered(x.packet), Packet(s, x.packet), Offset(s, x.packet))
  {
    hide Received, Packet, Offset;
    assert arrivals[..i + 1][..i] == arrivals[..i];
  }

  /** read_messages, for as long as data messages arrive: the receiver object ends in the state that the
      arrivals determine, or stops where the tool raises its exception. */
  method ReadMessages(s: UlogFile, arrivals: seq<Arrival>) returns (ok: bool, r: Receiver)
    requires forall i :: 0 <= i < |arrivals| ==> IsPacket(s, arrivals[i].packet)
    ensures fresh(r) && -1 <= r.lastSequence < WRAP
    ensures ok <==> ReceivedAll(s, arrivals).Some?
    ensures ok ==> r.Overall() == ReceivedAll(s, arrivals).value
  {
    hide ReceivedAll, Received, Packet, Offset;
    r := new Receiver();
    NothingReceived(s);
    assert arrivals[..0] == [];
    for i := 0 to |arrivals|
      invariant fresh(r) && -1 <= r.lastSequence < WRAP && ReceivedAll(s, arrivals[..i]) == Some(r.Overall())
    {
      ReceivedStep(s, arrivals, i, r.Overall());
      var x := arrivals[i];
      ok := r.Receive(x.acked, Numbered(x.packet), Packet(s, x.packet), Offset(s, x.packet));
      if !ok {
        FailureLasts(s, arrivals, i + 1);
        return;
      }
    }
    assert arrivals[..|arrivals|] == arrivals;
    ok := true;
  }

  lemma NothingReceived(s: UlogFile)
    ensures ReceivedAll(s, []) == Some(Status(State(false, false, [], []), -1, 0))
  {}
}
