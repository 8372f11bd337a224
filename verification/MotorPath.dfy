/** The dual-core motor path as a transition system: Core 0's bridge calls, the seqlock word by word,
    Core 1's loop, one clock, in any interleaving and for runs of any length. */
module MotorPath {
  import opened Bytes
  import opened MotorCommands
  import SL = Seqlock

  /* ---------- State ---------- */

  /** A bridge call that wrote a command (or, first of all, the zeroed memory at start). */
  datatype Call = Initially | Call(gate: Armed, sample: Option<seq<Float>>, stamp: nat)

  /** It saw armed, and not lockdown, kill or termination. */
  predicate SawOpen(c: Call) { c.Call? && MotorsAllowed(c.gate) }

  predicate IsCall(c: Call) {
    c.Call? ==> (c.sample.Some? ==> |c.sample.value| >= MOTORS) && (SawOpen(c) ==> c.sample.Some?)
  }

  function CommandOf(c: Call): (m: Command)
    requires IsCall(c)
    ensures IsCommand(m)
  {
    match c
    case Initially => Command(0, Idle(), false)
    case Call(gate, sample, stamp) => Forwarded(gate, sample, stamp).value
  }

  /** Where Core 0 stands: between calls, past the gate, holding a new sample, about to write, writing. */
  datatype Core0 = Between | PastGate(gate: Armed) | Sampled(gate: Armed, controls: seq<Float>) | Stamped(call: Call) | Writing(call: Call)

  /** Where Core 1 stands: in the seqlock read, or past the clock read. `source`, the call whose command a
      successful read returned, is history. */
  datatype Core1 =
    | Fetching(reader: SL.Reader<Word>)
    | Clocked(ok: bool, cmd: Command, at: nat, source: nat)

  /** One pass of Core 1's motor output. */
  datatype Drive = Drive(at: nat, throttles: seq<int>, ok: bool, source: nat)

  /** `calls` and `driven` are history: no step depends on them. */
  datatype World = World(now: nat, lock: SL.Lock<Word>, core0: Core0, core1: Core1, calls: seq<Call>, driven: seq<Drive>)

  function Initial(now: nat): World {
    var zero := Words(CommandOf(Initially));
    var l := SL.Lock(0, zero, SL.Resting, 0, [zero]);
    World(now, l, Between, Fetching(SL.StartRead(l)), [Initially], [])
  }

  /* ---------- Steps ---------- */

  datatype Step =
    | Tick(d: nat)
    | ReadGate(gate: Armed)
    | Update(sample: Option<seq<Float>>)
    | Stamp
    | WriterStep(w: SL.WriterStep<Word>)
    | ReaderStep(r: SL.ReaderStep)
    | ReadClock
    | Output

  predicate ByCore0(s: Step) { s.ReadGate? || s.Update? || s.Stamp? || s.WriterStep? }

  predicate Can(w: World, s: Step) {
    match s
    case Tick(d) => true
    case ReadGate(gate) => w.core0.Between?
    case Update(sample) => w.core0.PastGate? && MotorsAllowed(w.core0.gate) && (sample.Some? ==> |sample.value| >= MOTORS)
    case Stamp => (w.core0.PastGate? && !MotorsAllowed(w.core0.gate)) || w.core0.Sampled?
    case WriterStep(ws) =>
      && SL.CanWrite(w.lock, ws)
      && (if ws.Begin? then w.core0.Stamped? && IsCall(w.core0.call) && ws.src == Words(CommandOf(w.core0.call))
          else w.core0.Writing?)
    case ReaderStep(rs) => w.core1.Fetching? && SL.CanRead(w.lock, w.core1.reader, rs)
    case ReadClock => w.core1.Fetching? && w.core1.reader.phase.Returned?
    case Output => w.core1.Clocked? && IsCommand(w.core1.cmd)
  }

  function Decoded(copy: seq<Word>): (c: Command)
    ensures IsCommand(c)
  {
    if AreWords(copy) then FromWords(copy) else Command(0, Idle(), false)
  }

  function Do(w: World, s: Step): World
    requires Can(w, s)
  {
    match s
    case Tick(d) => w.(now := w.now + d)
    case ReadGate(gate) => w.(core0 := PastGate(gate))
    case Update(sample) => w.(core0 := if sample.Some? then Sampled(w.core0.gate, sample.value) else Between)
    case Stamp =>
      w.(core0 := Stamped(Call(w.core0.gate, if w.core0.Sampled? then Some(w.core0.controls) else None, w.now)))
    case WriterStep(ws) =>
      var l := SL.Write(w.lock, ws);
      (match ws
       case Begin(src) => w.(lock := l, core0 := Writing(w.core0.call))
       case Store(i) => w.(lock := l)
       case End => w.(lock := l, core0 := Between, calls := w.calls + [w.core0.call]))
    case ReaderStep(rs) => w.(core1 := Fetching(SL.Read(w.lock, w.core1.reader, rs)))
    case ReadClock =>
      var r := w.core1.reader;
      w.(core1 := Clocked(r.phase.ok, Decoded(r.copy), w.now, r.seen / 2))
    case Output =>
      var c := w.core1;
      w.(core1 := Fetching(SL.StartRead(w.lock)),
         driven := w.driven + [Drive(c.at, Throttles(c.ok, c.cmd, c.at), c.ok, c.source)])
  }

  /** Fewer than 2^31 writes between the two sequence loads of one try. */
  predicate Paced(w: World, s: Step) {
    s.ReaderStep? && w.core1.Fetching? ==> SL.Unaliased(w.lock, w.core1.reader, s.r)
  }

  /* ---------- The invariant ---------- */

  ghost predicate CallsInv(w: World) {
    && |w.calls| == |w.lock.log| >= 1 && w.calls[0] == Initially && |w.lock.data| == WORDS
    && (forall k :: 0 <= k < |w.calls| ==> IsCall(w.calls[k]) && w.lock.log[k] == Words(CommandOf(w.calls[k])))
    && (forall k :: 1 <= k < |w.calls| ==> w.calls[k].Call? && w.calls[k].stamp <= w.now)
  }

  predicate Pending(w: World, c: Call) { c.Call? && IsCall(c) && c.stamp <= w.now }

  ghost predicate Core0Inv(w: World) {
    match w.core0
    case Between => w.lock.writer.Resting?
    case PastGate(gate) => w.lock.writer.Resting?
    case Sampled(gate, controls) => w.lock.writer.Resting? && |controls| >= MOTORS
    case Stamped(c) => w.lock.writer.Resting? && Pending(w, c)
    case Writing(c) => Pending(w, c) && w.lock.writer.Storing? && w.lock.writer.src == Words(CommandOf(c))
  }

  ghost predicate Core1Inv(w: World) {
    match w.core1
    case Fetching(r) => SL.ReaderInv(w.lock, r)
    case Clocked(ok, cmd, at, source) =>
      && IsCommand(cmd) && at <= w.now
      && (ok ==> source < |w.calls| && IsCall(w.calls[source]) && cmd == CommandOf(w.calls[source]))
  }

  /** The throttles are those of the call that was read, at the clock reading; of none, the minimum. */
  ghost predicate Justified(calls: seq<Call>, d: Drive) {
    && (d.ok ==> d.source < |calls| && IsCall(calls[d.source]) && d.throttles == Throttles(true, CommandOf(calls[d.source]), d.at))
    && (!d.ok ==> d.throttles == [THROTTLE_MIN, THROTTLE_MIN, THROTTLE_MIN, THROTTLE_MIN])
  }

  ghost predicate DrivenInv(w: World) {
    forall k :: 0 <= k < |w.driven| ==> Justified(w.calls, w.driven[k])
  }

  ghost predicate Inv(w: World) {
    SL.LockInv(w.lock) && CallsInv(w) && Core0Inv(w) && Core1Inv(w) && DrivenInv(w)
  }

  lemma InitialInv(now: nat)
    ensures Inv(Initial(now))
  {
    SL.StartReadIsSound(Initial(now).lock);
  }

  lemma MoreCalls(calls: seq<Call>, c: Call, d: Drive)
    requires Justified(calls, d)
    ensures Justified(calls + [c], d)
  {
    hide Throttles, CommandOf;
    assert d.ok ==> (calls + [c])[d.source] == calls[d.source];
  }

  lemma BeginKeeps(w: World, src: seq<Word>)
    requires Inv(w) && Can(w, WriterStep(SL.Begin(src)))
    ensures Inv(Do(w, WriterStep(SL.Begin(src))))
  {
    hide SL.LockInv, SL.ReaderInv, SL.Indices, Words, CommandOf, Justified, Throttles;
    var ws: SL.WriterStep<Word> := SL.Begin(src);
    SL.WriteKeepsLock(w.lock, ws);
    if w.core1.Fetching? {
      SL.WriteKeepsReader(w.lock, ws, w.core1.reader);
    }
  }

  lemma StoreKeeps(w: World, i: nat)
    requires Inv(w) && Can(w, WriterStep(SL.Store(i)))
    ensures Inv(Do(w, WriterStep(SL.Store(i))))
  {
    hide SL.LockInv, SL.ReaderInv, SL.Indices, Words, CommandOf, Justified, Throttles;
    var ws: SL.WriterStep<Word> := SL.Store(i);
    SL.WriteKeepsLock(w.lock, ws);
    if w.core1.Fetching? {
      SL.WriteKeepsReader(w.lock, ws, w.core1.reader);
    }
  }

  lemma EndKeeps(w: World)
    requires Inv(w) && Can(w, WriterStep(SL.End))
    ensures Inv(Do(w, WriterStep(SL.End)))
  {
    hide SL.LockInv, SL.ReaderInv, SL.Indices, Words, CommandOf, Justified, Throttles;
    var ws: SL.WriterStep<Word> := SL.End;
    SL.WriteKeepsLock(w.lock, ws);
    if w.core1.Fetching? {
      SL.WriteKeepsReader(w.lock, ws, w.core1.reader);
    }
    forall k | 0 <= k < |w.driven| ensures Justified(w.calls + [w.core0.call], w.driven[k]) {
      MoreCalls(w.calls, w.core0.call, w.driven[k]);
    }
  }

  lemma ReaderStepKeeps(w: World, rs: SL.ReaderStep)
    requires Inv(w) && Can(w, ReaderStep(rs)) && Paced(w, ReaderStep(rs))
    ensures Inv(Do(w, ReaderStep(rs)))
  {
    hide SL.LockInv, SL.ReaderInv, SL.Unaliased, SL.CanRead, SL.Read, Words, CommandOf, Justified, Throttles;
    SL.ReadKeepsReader(w.lock, w.core1.reader, rs);
  }

  lemma ReturnedCall(w: World)
    requires Inv(w) && w.core1.Fetching? && w.core1.reader.phase == SL.Returned(true)
    ensures var r := w.core1.reader;
      && r.seen / 2 < |w.calls| && IsCall(w.calls[r.seen / 2]) && r.copy == Words(CommandOf(w.calls[r.seen / 2]))
  {
    hide SL.LockInv, Core0Inv, DrivenInv, Words, CommandOf, SL.Indices;
  }

  /** What a successful read hands on is the command of the call numbered by its first sequence load. */
  lemma ReadClockKeeps(w: World)
    requires Inv(w) && Can(w, ReadClock)
    ensures Inv(Do(w, ReadClock))
  {
    hide SL.LockInv, SL.ReaderInv, Words, CommandOf, Justified, Throttles, AreWords, FromWords;
    var r := w.core1.reader;
    if r.phase.ok {
      ReturnedCall(w);
      WordsRoundTrip(CommandOf(w.calls[r.seen / 2]));
    }
  }

  lemma FailedReadIdles(c: Command, at: nat)
    requires IsCommand(c)
    ensures Throttles(false, c, at) == [THROTTLE_MIN, THROTTLE_MIN, THROTTLE_MIN, THROTTLE_MIN]
  {}

  lemma OutputKeeps(w: World)
    requires Inv(w) && Can(w, Output)
    ensures Inv(Do(w, Output))
  {
    hide SL.LockInv, SL.ReaderInv, SL.StartRead, Words, CommandOf, Throttles;
    FailedReadIdles(w.core1.cmd, w.core1.at);
    SL.StartReadIsSound(w.lock);
  }

  /** Every step of either core, and every tick, keeps the invariant. */
  lemma StepKeeps(w: World, s: Step)
    requires Inv(w) && Can(w, s) && Paced(w, s)
    ensures Inv(Do(w, s))
  {
    hide Inv, Do, Paced;
    match s
    case WriterStep(Begin(src)) => BeginKeeps(w, src);
    case WriterStep(Store(j)) => StoreKeeps(w, j);
    case WriterStep(End) => EndKeeps(w);
    case ReaderStep(rs) => ReaderStepKeeps(w, rs);
    case ReadClock => ReadClockKeeps(w);
    case Output => OutputKeeps(w);
    case _ => Core0LocalKeeps(w, s);
  }

  lemma Core0LocalKeeps(w: World, s: Step)
    requires Inv(w) && Can(w, s) && (s.Tick? || s.ReadGate? || s.Update? || s.Stamp?)
    ensures Inv(Do(w, s))
  {
    hide SL.LockInv, SL.ReaderInv, Words, CommandOf, Justified, Throttles;
  }

  /* ---------- Runs ---------- */

  predicate Run(w: World, steps: seq<Step>)
    decreases |steps|, 0
  {
    steps == [] ||
    var n := |steps| - 1;
    Run(w, steps[..n]) && Can(After(w, steps[..n]), steps[n]) && Paced(After(w, steps[..n]), steps[n])
  }

  function After(w: World, steps: seq<Step>): World
    requires Run(w, steps)
    decreases |steps|, 1
  {
    if steps == [] then w
    else var n := |steps| - 1; Do(After(w, steps[..n]), steps[n])
  }

  lemma {:induction false} RunKeeps(w: World, steps: seq<Step>)
    requires Inv(w) && Run(w, steps)
    ensures Inv(After(w, steps))
  {
    hide Inv, Can, Do, Paced;
    if steps != [] {
      var n := |steps| - 1;
      RunKeeps(w, steps[..n]);
      StepKeeps(After(w, steps[..n]), steps[n]);
    }
  }

  lemma StepGrows(w: World, s: Step)
    requires Can(w, s)
    ensures var v := Do(w, s);
      w.now <= v.now && w.calls <= v.calls && w.driven <= v.driven && (!ByCore0(s) ==> v.calls == w.calls)
  {}

  lemma {:induction false} RunGrows(w: World, steps: seq<Step>)
    requires Run(w, steps)
    ensures var v := After(w, steps);
      && w.now <= v.now && w.calls <= v.calls && w.driven <= v.driven
      && ((forall i :: 0 <= i < |steps| ==> !ByCore0(steps[i])) ==> v.calls == w.calls)
  {
    hide Can, Do, Paced, ByCore0;
    if steps != [] {
      var n := |steps| - 1;
      RunGrows(w, steps[..n]);
      StepGrows(After(w, steps[..n]), steps[n]);
    }
  }

  /* ---------- What is guaranteed ---------- */

  /** In every run each pass drove exactly what the call it read asks for at that clock reading: each
      control's own throttle for a call that saw the gate open and was stamped less than 100 ms before,
      and 48 on every motor for any other call, or when the read failed. */
  lemma DrivenAsCommanded(now: nat, steps: seq<Step>, k: nat, i: nat)
    requires Run(Initial(now), steps) && k < |After(Initial(now), steps).driven| && i < 4
    ensures var w := After(Initial(now), steps); var d := w.driven[k];
      && |d.throttles| == 4 && (d.ok ==> d.source < |w.calls|)
      && (d.ok && w.calls[d.source].Call? && 0 <= d.at - w.calls[d.source].stamp < 100_000 ==>
            var c := w.calls[d.source];
            if c.gate.armed && !c.gate.lockdown && !c.gate.kill && !c.gate.termination
            then c.sample.Some? && |c.sample.value| >= 4 && d.throttles[i] == ThrottleFor(c.sample.value[i])
            else d.throttles[i] == 48)
      && (!d.ok || w.calls[d.source] == Initially || !(0 <= d.at - w.calls[d.source].stamp < 100_000) ==> d.throttles[i] == 48)
  {
    hide Run, After, Initial, Justified, ThrottleFor;
    InitialInv(now);
    RunKeeps(Initial(now), steps);
    JustifiedDrive(After(Initial(now), steps), After(Initial(now), steps).driven[k], i);
  }

  lemma JustifiedDrive(w: World, d: Drive, i: nat)
    requires CallsInv(w) && Justified(w.calls, d) && i < 4
    ensures |d.throttles| == 4 && (d.ok ==> d.source < |w.calls|)
    ensures d.ok && w.calls[d.source].Call? && 0 <= d.at - w.calls[d.source].stamp < 100_000 ==>
      var c := w.calls[d.source];
      if c.gate.armed && !c.gate.lockdown && !c.gate.kill && !c.gate.termination
      then c.sample.Some? && |c.sample.value| >= 4 && d.throttles[i] == ThrottleFor(c.sample.value[i])
      else d.throttles[i] == 48
    ensures !d.ok || w.calls[d.source] == Initially || !(0 <= d.at - w.calls[d.source].stamp < 100_000) ==> d.throttles[i] == 48
  {
    hide ThrottleFor, Throttles, Words;
    ZeroIsMinimum();
    ThrottleValue(NaN);
    if d.ok {
      ThrottlesAre(true, CommandOf(w.calls[d.source]), d.at, i);
    }
  }

  /** The only ground for driving a motor: a call that saw the gate open and asked for that throttle. */
  predicate Grounds(calls: seq<Call>, d: Drive, i: nat, k: nat) {
    && 1 <= k < |calls| && SawOpen(calls[k]) && calls[k].sample.Some? && |calls[k].sample.value| >= MOTORS && i < MOTORS == |d.throttles|
    && 0 <= d.at - calls[k].stamp < MAX_AGE_US
    && d.throttles[i] == ThrottleFor(Cleaned(calls[k].sample.value[i]))
  }

  lemma DriveGrounds(w: World, d: Drive, i: nat)
    requires CallsInv(w) && Justified(w.calls, d) && i < |d.throttles| && d.throttles[i] > THROTTLE_MIN
    ensures Grounds(w.calls, d, i, d.source) && d.ok
  {
    var c := CommandOf(w.calls[d.source]);
    DrivenMeansFresh(true, c, d.at, i);
  }

  /** In every run: whenever Core 1 drove a motor above the minimum, the command came whole from a bridge
      call that saw armed and not lockdown, kill or termination, stamped less than 100 ms before, and the
      throttle is the one its sample asked for. */
  lemma Traceability(now: nat, steps: seq<Step>, k: nat, i: nat)
    requires Run(Initial(now), steps) && k < |After(Initial(now), steps).driven|
    requires var d := After(Initial(now), steps).driven[k]; i < |d.throttles| && d.throttles[i] > 48
    ensures var w := After(Initial(now), steps); var d := w.driven[k];
      && d.ok && d.source < |w.calls| && w.calls[d.source].Call?
      && var c := w.calls[d.source];
      && c.gate.armed && !c.gate.lockdown && !c.gate.kill && !c.gate.termination
      && 0 <= d.at - c.stamp < 100_000
      && c.sample.Some? && i < 4 <= |c.sample.value| && d.throttles[i] == ThrottleFor(c.sample.value[i])
  {
    hide Run, After, Justified, CallsInv, ThrottleFor, Initial;
    InitialInv(now);
    RunKeeps(Initial(now), steps);
    var w := After(Initial(now), steps);
    DriveGrounds(w, w.driven[k], i);
    JustifiedDrive(w, w.driven[k], i);
  }

  /** If Core 0 takes no step after time T, wherever it stopped, every pass of Core 1 that reads the clock
      at T + 100 ms or later drives all four motors at the minimum. */
  lemma Core0Death(now: nat, before: seq<Step>, after: seq<Step>, k: nat, i: nat)
    requires Run(Initial(now), before) && Run(After(Initial(now), before), after)
    requires forall j :: 0 <= j < |after| ==> !ByCore0(after[j])
    requires var w := After(After(Initial(now), before), after);
      k < |w.driven| && i < |w.driven[k].throttles| && w.driven[k].at >= After(Initial(now), before).now + 100_000
    ensures After(After(Initial(now), before), after).driven[k].throttles[i] == 48
  {
    hide Run, After, Grounds, Justified, CallsInv, ByCore0, Initial;
    InitialInv(now);
    var w0 := After(Initial(now), before);
    var w := After(w0, after);
    RunKeeps(Initial(now), before);
    RunKeeps(w0, after);
    RunGrows(w0, after);
    NeverBelowMinimum(w.calls, w.driven[k], i);
    if w.driven[k].throttles[i] > THROTTLE_MIN {
      DriveGrounds(w, w.driven[k], i);
      StaleGrounds(w0, w.driven[k], i);
    }
  }

  lemma NeverBelowMinimum(calls: seq<Call>, d: Drive, i: nat)
    requires Justified(calls, d) && i < |d.throttles|
    ensures d.throttles[i] >= THROTTLE_MIN
  {
    if d.ok {
      var v := Guarded(true, CommandOf(calls[d.source]), d.at)[i];
      ThrottleShape(v, v);
    }
  }

  lemma StaleGrounds(w: World, d: Drive, i: nat)
    requires CallsInv(w) && d.at >= w.now + MAX_AGE_US
    ensures !Grounds(w.calls, d, i, d.source)
  {}

  /* ---------- A gate that was seen shut ---------- */

  /** Pass k has not loaded its s1 yet: it lies ahead, or its read stands at the start of a try. */
  predicate YetToRead(w: World, k: nat) {
    |w.driven| < k || (|w.driven| == k && w.core1.Fetching? && w.core1.reader.phase == SL.Retry)
  }

  /** Pass `from` and those after it took nothing older than call g. */
  ghost predicate NotOlder(w: World, g: nat, from: nat) {
    && (forall k :: from <= k < |w.driven| && w.driven[k].ok ==> w.driven[k].source >= g)
    && (|w.driven| >= from ==> match w.core1
        case Fetching(r) => r.phase in {SL.Retry, SL.Returned(false)} || r.seen / 2 >= g
        case Clocked(ok, cmd, at, source) => ok ==> source >= g)
  }

  lemma StepKeepsNotOlder(w: World, s: Step, g: nat, from: nat)
    requires Inv(w) && Can(w, s) && NotOlder(w, g, from) && g < |w.calls|
    ensures NotOlder(Do(w, s), g, from)
  {
    hide Words, CommandOf, Justified, Throttles, SL.ReaderInv;
  }

  lemma {:induction false} RunKeepsNotOlder(w: World, steps: seq<Step>, g: nat, from: nat)
    requires Inv(w) && Run(w, steps) && g < |w.calls| && YetToRead(w, from)
    ensures NotOlder(After(w, steps), g, from)
  {
    hide Inv, Can, Do, Paced;
    if steps != [] {
      var n := |steps| - 1;
      RunKeepsNotOlder(w, steps[..n], g, from);
      RunKeeps(w, steps[..n]);
      RunGrows(w, steps[..n]);
      StepKeepsNotOlder(After(w, steps[..n]), steps[n], g, from);
    }
  }

  /** Once a bridge call that saw a gate not armed, or locked down, killed or terminated, has finished its
      write, every pass that loads its s1 afterwards (also one that was spinning, or about to try again,
      when the write ended) takes that call's stop command or a later one, and drives a motor above the
      minimum only for a later call that saw the gate open with a new sample. */
  lemma ShutStaysShut(now: nat, before: seq<Step>, after: seq<Step>, g: nat, k: nat)
    requires Run(Initial(now), before) && Run(After(Initial(now), before), after)
    requires var w := After(Initial(now), before);
      && g < |w.calls| && w.calls[g].Call? && YetToRead(w, k)
      && (!w.calls[g].gate.armed || w.calls[g].gate.lockdown || w.calls[g].gate.kill || w.calls[g].gate.termination)
    requires k < |After(After(Initial(now), before), after).driven|
    ensures var w := After(After(Initial(now), before), after); var d := w.driven[k];
      && g < |w.calls| && w.calls[g].Call? && IsCall(w.calls[g])
      && CommandOf(w.calls[g]) == Command(w.calls[g].stamp, [Num(0.0), Num(0.0), Num(0.0), Num(0.0)], true)
      && (d.ok ==> d.source >= g)
      && forall i :: 0 <= i < |d.throttles| ==>
        || d.throttles[i] == 48
        || (g < d.source < |w.calls| && w.calls[d.source].Call?
            && var c := w.calls[d.source].gate; c.armed && !c.lockdown && !c.kill && !c.termination)
  {
    hide Run, After, Grounds, Justified, CallsInv, Initial, YetToRead, CommandOf, ThrottleFor;
    InitialInv(now);
    var w0 := After(Initial(now), before);
    var w := After(w0, after);
    RunKeeps(Initial(now), before);
    RunKeeps(w0, after);
    RunGrows(w0, after);
    RunKeepsNotOlder(w0, after, g, k);
    StopCommand(w, g);
    forall i | 0 <= i < |w.driven[k].throttles| && w.driven[k].throttles[i] != 48
      ensures g < w.driven[k].source && Grounds(w.calls, w.driven[k], i, w.driven[k].source)
    {
      NeverBelowMinimum(w.calls, w.driven[k], i);
      DriveGrounds(w, w.driven[k], i);
    }
    forall i | 0 <= i < |w.driven[k].throttles| && w.driven[k].throttles[i] != 48
      ensures var d := w.driven[k]; d.source < |w.calls| && SawOpen(w.calls[d.source])
    {
      OpenGrounds(w.calls, w.driven[k], i);
    }
  }

  lemma StopCommand(w: World, g: nat)
    requires CallsInv(w) && g < |w.calls| && w.calls[g].Call? && !SawOpen(w.calls[g])
    ensures IsCall(w.calls[g]) && CommandOf(w.calls[g]) == Command(w.calls[g].stamp, Idle(), true)
  {}

  lemma OpenGrounds(calls: seq<Call>, d: Drive, i: nat)
    requires Grounds(calls, d, i, d.source)
    ensures d.source < |calls| && SawOpen(calls[d.source])
  {}

  /* ---------- When a pass goes without a command ---------- */

  /** The accesses to the seqlock among the steps of both cores. */
  function Accesses(steps: seq<Step>): seq<SL.Step<Word>> {
    if steps == [] then []
    else
      var s := steps[|steps| - 1];
      Accesses(steps[..|steps| - 1])
      + match s
        case WriterStep(ws) => [SL.ByWriter(ws)]
        case ReaderStep(rs) => [SL.ByReader(rs)]
        case _ => []
  }

  predicate Reading(w: World, lock: SL.Lock<Word>, reader: SL.Reader<Word>) {
    w.lock == lock && w.core1 == Fetching(reader)
  }

  lemma AccessStep(w: World, s: Step, t: SL.Shared<Word>)
    requires Can(w, s) && Reading(w, t.lock, t.reader) && !s.ReadClock?
    ensures match s
      case WriterStep(ws) =>
        var a: SL.Step<Word> := SL.ByWriter(ws);
        SL.Can(t, a) && Reading(Do(w, s), SL.Do(t, a).lock, SL.Do(t, a).reader)
      case ReaderStep(rs) =>
        var a: SL.Step<Word> := SL.ByReader(rs);
        SL.Can(t, a) && Reading(Do(w, s), SL.Do(t, a).lock, SL.Do(t, a).reader)
      case _ => Reading(Do(w, s), t.lock, t.reader)
  {
    hide SL.Write, SL.Read, SL.CanWrite, SL.CanRead, Words, CommandOf;
  }

  lemma NoAccess(accesses: seq<SL.Step<Word>>)
    ensures accesses + [] == accesses
  {}

  /** During one read, whatever else the cores do, the seqlock sees one of its own interleavings. */
  lemma {:induction false} ReadIsInterleaved(w: World, steps: seq<Step>, reader: SL.Reader<Word>)
    requires Run(w, steps) && w.core1 == Fetching(reader) && forall i :: 0 <= i < |steps| ==> !steps[i].ReadClock?
    ensures var s := SL.Shared(w.lock, reader);
      && SL.Interleaving(s, Accesses(steps))
      && var t := SL.After(s, Accesses(steps)); Reading(After(w, steps), t.lock, t.reader)
  {
    hide Can, Do, Paced, SL.Can, SL.Do;
    var s := SL.Shared(w.lock, reader);
    if steps == [] {
      SL.NoSteps(s);
    } else {
      var n := |steps| - 1;
      ReadIsInterleaved(w, steps[..n], reader);
      AccessStep(After(w, steps[..n]), steps[n], SL.After(s, Accesses(steps[..n])));
      if steps[n].WriterStep? {
        SL.Extend(s, Accesses(steps[..n]), SL.ByWriter(steps[n].w));
      } else if steps[n].ReaderStep? {
        SL.Extend(s, Accesses(steps[..n]), SL.ByReader(steps[n].r));
      } else {
        NoAccess(Accesses(steps[..n]));
      }
    }
  }

  /** In any run a pass is left without a command only after sixteen tries since its read began, each of
      which the writer failed: it loaded an odd sequence number or two different ones. */
  lemma NoCommandAfterSixteen(w: World, steps: seq<Step>) returns (failed: seq<(int, int)>)
    requires Run(w, steps) && w.core1 == Fetching(SL.StartRead(w.lock)) && forall i :: 0 <= i < |steps| ==> !steps[i].ReadClock?
    requires var v := After(w, steps).core1; v.Fetching? && v.reader.phase == SL.Returned(false)
    ensures var s := SL.Shared(w.lock, SL.StartRead(w.lock));
      && SL.Interleaving(s, Accesses(steps)) && |failed| == 16
      && (forall k :: 0 <= k < 16 ==> SL.FailedTry(s, Accesses(steps), failed[k].0, failed[k].1))
      && (forall k :: 0 <= k < 15 ==> failed[k].1 < failed[k + 1].0)
  {
    hide Run, After, SL.Interleaving, SL.After, SL.FailedTry, SL.StartRead;
    ReadIsInterleaved(w, steps, SL.StartRead(w.lock));
    failed := SL.GivesUpAfterSixteen(SL.Shared(w.lock, SL.StartRead(w.lock)), Accesses(steps));
  }

  /* ---------- One bridge call, in any interleaving ---------- */

  /** Core 0's own steps, in order. */
  function OwnSteps(steps: seq<Step>): (own: seq<Step>)
    ensures forall s :: s in own ==> s in steps
  {
    if steps == [] then []
    else
      var n := |steps| - 1;
      OwnSteps(steps[..n]) + if ByCore0(steps[n]) then [steps[n]] else []
  }

  /** The steps of one call, or its first ones: it saw this gate and, past an open one, this sample. */
  predicate OneCall(own: seq<Step>, gate: Armed, sample: Option<seq<Float>>) {
    && (own != [] ==> own[0] == ReadGate(gate))
    && forall i :: 0 < i < |own| ==> !own[i].ReadGate? && (own[i].Update? ==> own[i].sample == sample)
  }

  predicate Saw(c: Call, gate: Armed, sample: Option<seq<Float>>, from: nat, to: nat) {
    && c.Call? && c.gate == gate && c.sample == (if MotorsAllowed(gate) then sample else None)
    && from <= c.stamp <= to
  }

  /** How far a call that began in `w0` has come. */
  ghost predicate Underway(w0: World, w: World, gate: Armed, sample: Option<seq<Float>>) {
    match w.core0
    case Between =>
      if MotorsAllowed(gate) && sample.None? then w.calls == w0.calls
      else w.calls != [] && w.calls[..|w.calls| - 1] == w0.calls && Saw(w.calls[|w.calls| - 1], gate, sample, w0.now, w.now)
    case PastGate(g) => w.calls == w0.calls && g == gate
    case Sampled(g, controls) => w.calls == w0.calls && g == gate && MotorsAllowed(gate) && sample == Some(controls)
    case Stamped(c) => w.calls == w0.calls && Saw(c, gate, sample, w0.now, w.now) && (MotorsAllowed(gate) ==> sample.Some?)
    case Writing(c) => w.calls == w0.calls && Saw(c, gate, sample, w0.now, w.now) && (MotorsAllowed(gate) ==> sample.Some?)
  }

  lemma OwnStepUnderway(w0: World, w: World, s: Step, gate: Armed, sample: Option<seq<Float>>)
    requires Can(w, s) && Underway(w0, w, gate, sample) && w0.now <= w.now && ByCore0(s)
    requires !s.ReadGate? && (s.Update? ==> s.sample == sample)
    ensures Underway(w0, Do(w, s), gate, sample)
  {
    hide Words, CommandOf, IsCall, MotorsAllowed, SL.CanWrite, SL.Write;
    match s
    case Update(_) =>
    case Stamp =>
    case WriterStep(ws) => WriteUnderway(w0, w, ws, gate, sample);
  }

  lemma WriteUnderway(w0: World, w: World, ws: SL.WriterStep<Word>, gate: Armed, sample: Option<seq<Float>>)
    requires Can(w, WriterStep(ws)) && Underway(w0, w, gate, sample)
    ensures Underway(w0, Do(w, WriterStep(ws)), gate, sample)
  {
    hide Words, CommandOf, IsCall, MotorsAllowed, SL.CanWrite, SL.Write, Saw;
    var v := Do(w, WriterStep(ws));
    if ws.End? {
      assert v.calls == w.calls + [w.core0.call];
    }
  }

  lemma OtherStep(w: World, s: Step)
    requires Can(w, s) && !ByCore0(s)
    ensures var v := Do(w, s); v.core0 == w.core0 && v.calls == w.calls && w.now <= v.now
  {}

  lemma StillUnderway(w0: World, w: World, v: World, gate: Armed, sample: Option<seq<Float>>)
    requires Underway(w0, w, gate, sample) && v.core0 == w.core0 && v.calls == w.calls && w.now <= v.now
    ensures Underway(w0, v, gate, sample)
  {
    hide MotorsAllowed;
  }

  lemma {:induction false} CallUnderway(w: World, steps: seq<Step>, gate: Armed, sample: Option<seq<Float>>)
    requires Run(w, steps) && w.core0.Between? && OneCall(OwnSteps(steps), gate, sample)
    ensures var v := After(w, steps);
      if OwnSteps(steps) == [] then v.core0.Between? && v.calls == w.calls else Underway(w, v, gate, sample)
  {
    hide Can, Do, Paced, Underway, ByCore0;
    if steps != [] {
      var n := |steps| - 1;
      var own, s, v := OwnSteps(steps[..n]), steps[n], After(w, steps[..n]);
      RunGrows(w, steps[..n]);
      assert OneCall(own, gate, sample) by {
        assert forall i :: 0 <= i < |own| ==> own[i] == OwnSteps(steps)[i];
      }
      CallUnderway(w, steps[..n], gate, sample);
      if ByCore0(s) {
        assert OwnSteps(steps)[|own|] == s;
        if own == [] {
          GateRead(w, v, s, gate, sample);
        } else {
          OwnStepUnderway(w, v, s, gate, sample);
        }
      } else {
        OtherStep(v, s);
        if own != [] {
          StillUnderway(w, v, Do(v, s), gate, sample);
        }
      }
    }
  }

  lemma GateRead(w0: World, w: World, s: Step, gate: Armed, sample: Option<seq<Float>>)
    requires Can(w, s) && s == ReadGate(gate) && w.calls == w0.calls
    ensures Underway(w0, Do(w, s), gate, sample)
  {}

  /** A whole bridge call, its steps interleaved with Core 1's and the clock's in any way: it writes nothing,
      or exactly one command, the one that ActuatorToSeqlock returns for the gate and the sample it saw and
      some clock reading in between, and the seqlock has it as the last value written. */
  lemma CallWrites(w: World, steps: seq<Step>, gate: Armed, sample: Option<seq<Float>>) returns (stamp: nat)
    requires Inv(w) && Run(w, steps) && w.core0.Between? && After(w, steps).core0.Between?
    requires OwnSteps(steps) != [] && OneCall(OwnSteps(steps), gate, sample) && (sample.Some? ==> |sample.value| >= MOTORS)
    ensures w.now <= stamp <= After(w, steps).now
    ensures var v := After(w, steps);
      match Forwarded(gate, sample, stamp)
      case None => v.lock.log == w.lock.log
      case Some(c) => v.lock.log == w.lock.log + [Words(c)]
  {
    hide Run, After, OwnSteps, OneCall, Words;
    var v := After(w, steps);
    CallUnderway(w, steps, gate, sample);
    RunKeeps(w, steps);
    RunGrows(w, steps);
    if Forwarded(gate, sample, w.now).None? {
      stamp := w.now;
      assert v.calls == w.calls;
    } else {
      var n := |v.calls| - 1;
      stamp := v.calls[n].stamp;
      assert v.lock.log[n] == Words(CommandOf(v.calls[n])) && v.calls[..n] == w.calls;
      assert forall k :: 0 <= k < n ==> v.calls[..n][k] == v.calls[k];
    }
  }
}
