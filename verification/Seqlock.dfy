/** The seqlock (fc_core.h): one writer and one reader interleaved word by word, and the capped read. */
module Seqlock {
  const MAX_TRIES := 16
  const WRAP := 0x1_0000_0000

  /* ---------- The two programs, one shared access per step ---------- */

  datatype Writer<T> = Resting | Storing(src: seq<T>, todo: set<nat>)

  /** `sequence` and `data` are the shared memory. `count` (all increments ever made) and `log` (the
      initial data, then every completely written value) are history: no step depends on them. */
  datatype Lock<T> = Lock(sequence: nat, data: seq<T>, writer: Writer<T>, count: nat, log: seq<seq<T>>)

  datatype WriterStep<T> = Begin(src: seq<T>) | Store(i: nat) | End

  function Indices(n: nat): (s: set<nat>)
    ensures |s| == n && forall i: nat :: i in s <==> i < n
  {
    if n == 0 then {} else Indices(n - 1) + {n - 1}
  }

  predicate CanWrite<T>(l: Lock<T>, s: WriterStep<T>) {
    match s
    case Begin(src) => l.writer.Resting? && |src| == |l.data|
    case Store(i) => l.writer.Storing? && i in l.writer.todo && i < |l.data| == |l.writer.src|
    case End => l.writer.Storing? && l.writer.todo == {}
  }

  /** fc_motor_cmd_seqlock_write: odd sequence, the words in any order, even sequence. */
  function Write<T>(l: Lock<T>, s: WriterStep<T>): Lock<T>
    requires CanWrite(l, s)
  {
    match s
    case Begin(src) => l.(sequence := (l.sequence + 1) % WRAP, count := l.count + 1, writer := Storing(src, Indices(|src|)))
    case Store(i) => l.(data := l.data[i := l.writer.src[i]], writer := Storing(l.writer.src, l.writer.todo - {i}))
    case End => l.(sequence := (l.sequence + 1) % WRAP, count := l.count + 1, writer := Resting, log := l.log + [l.writer.src])
  }

  datatype Phase = Retry | Copying | Returned(ok: bool)

  /** `seen` (the count when s1 was loaded) is history. */
  datatype Reader<T> = Reader(tries: nat, phase: Phase, s1: nat, copy: seq<T>, todo: set<nat>, seen: nat)

  datatype ReaderStep = LoadS1 | Copy(i: nat) | LoadS2

  function StartRead<T>(l: Lock<T>): Reader<T> {
    Reader(0, Retry, 0, l.data, {}, l.count)
  }

  predicate CanRead<T>(l: Lock<T>, r: Reader<T>, s: ReaderStep) {
    match s
    case LoadS1 => r.phase == Retry
    case Copy(i) => r.phase == Copying && i in r.todo && i < |l.data| == |r.copy|
    case LoadS2 => r.phase == Copying && r.todo == {}
  }

  /** fc_motor_cmd_seqlock_read: give up after MAX_TRIES, else accept two equal even sequence numbers. */
  function Read<T>(l: Lock<T>, r: Reader<T>, s: ReaderStep): Reader<T>
    requires CanRead(l, r, s)
  {
    match s
    case LoadS1 =>
      if r.tries + 1 > MAX_TRIES then r.(tries := r.tries + 1, phase := Returned(false))
      else r.(tries := r.tries + 1, phase := Copying, s1 := l.sequence, todo := Indices(|l.data|), seen := l.count)
    case Copy(i) => r.(copy := r.copy[i := l.data[i]], todo := r.todo - {i})
    case LoadS2 =>
      if r.s1 % 2 == 1 || r.s1 != l.sequence then r.(phase := Retry) else r.(phase := Returned(true))
  }

  /** Fewer than 2^31 writes, that is 2^32 increments, between the two sequence loads of a try. */
  predicate Unaliased<T>(l: Lock<T>, r: Reader<T>, s: ReaderStep) {
    s == LoadS2 ==> l.count < r.seen + WRAP
  }

  /* ---------- What every step keeps ---------- */

  ghost predicate LockInv<T>(l: Lock<T>) {
    && l.sequence == l.count % WRAP
    && |l.log| >= 1 && (forall k :: 0 <= k < |l.log| ==> |l.log[k]| == |l.data|)
    && match l.writer
       case Resting => l.count == 2 * (|l.log| - 1) && l.data == l.log[|l.log| - 1]
       case Storing(src, todo) =>
         && l.count == 2 * (|l.log| - 1) + 1 && |src| == |l.data| && todo <= Indices(|src|)
         && forall i :: 0 <= i < |src| && i !in todo ==> l.data[i] == src[i]
  }

  /** As long as the sequence that was loaded, if even, has not moved, the words copied so far are those
      of the last value completely written before. */
  ghost predicate ReaderInv<T>(l: Lock<T>, r: Reader<T>) {
    && |r.copy| == |l.data| && r.seen <= l.count && r.seen / 2 < |l.log|
    && match r.phase
       case Retry => r.tries <= MAX_TRIES
       case Copying =>
         && r.tries <= MAX_TRIES && r.s1 == r.seen % WRAP && r.todo <= Indices(|l.data|)
         && |l.log[r.seen / 2]| == |r.copy|
         && (r.seen % 2 == 0 && l.count == r.seen ==>
               forall i :: 0 <= i < |r.copy| && i !in r.todo ==> r.copy[i] == l.log[r.seen / 2][i])
       case Returned(ok) => ok ==> r.seen % 2 == 0 && r.copy == l.log[r.seen / 2]
  }

  lemma NextInSequence(n: nat)
    ensures (n % WRAP + 1) % WRAP == (n + 1) % WRAP
  {}

  lemma WriteKeepsLock<T>(l: Lock<T>, s: WriterStep<T>)
    requires LockInv(l) && CanWrite(l, s)
    ensures var m := Write(l, s); LockInv(m) && |m.data| == |l.data| && l.log <= m.log && l.count <= m.count
  {
    hide Indices;
    NextInSequence(l.count);
    var m := Write(l, s);
    assert m.sequence == m.count % WRAP;
  }

  lemma WriteKeepsReader<T>(l: Lock<T>, s: WriterStep<T>, r: Reader<T>)
    requires LockInv(l) && CanWrite(l, s) && ReaderInv(l, r)
    ensures ReaderInv(Write(l, s), r)
  {
    hide Indices;
  }

  lemma ParityOfSequence(n: nat)
    ensures n % WRAP % 2 == n % 2
  {}

  lemma NoAlias(m: nat, n: nat)
    requires m <= n < m + WRAP && m % WRAP == n % WRAP
    ensures m == n
  {}

  lemma ReadKeepsReader<T>(l: Lock<T>, r: Reader<T>, s: ReaderStep)
    requires LockInv(l) && CanRead(l, r, s) && ReaderInv(l, r) && Unaliased(l, r, s)
    ensures ReaderInv(l, Read(l, r, s))
  {
    hide Indices;
    if s == LoadS2 && r.s1 % 2 == 0 && r.s1 == l.sequence {
      ParityOfSequence(r.seen);
      NoAlias(r.seen, l.count);
      assert r.copy == l.log[r.seen / 2];
    }
  }

  lemma StartReadIsSound<T>(l: Lock<T>)
    requires LockInv(l)
    ensures ReaderInv(l, StartRead(l))
  {}

  /* ---------- Every interleaving ---------- */

  datatype Step<T> = ByWriter(w: WriterStep<T>) | ByReader(r: ReaderStep)

  datatype Shared<T> = Shared(lock: Lock<T>, reader: Reader<T>)

  predicate Can<T>(s: Shared<T>, step: Step<T>) {
    match step
    case ByWriter(w) => CanWrite(s.lock, w)
    case ByReader(r) => CanRead(s.lock, s.reader, r)
  }

  function Do<T>(s: Shared<T>, step: Step<T>): Shared<T>
    requires Can(s, step)
  {
    match step
    case ByWriter(w) => s.(lock := Write(s.lock, w))
    case ByReader(r) => s.(reader := Read(s.lock, s.reader, r))
  }

  /** The steps can be taken one after the other, in any order the two programs allow. */
  predicate Interleaving<T>(s: Shared<T>, steps: seq<Step<T>>)
    decreases |steps|, 0
  {
    steps == [] ||
    var n := |steps| - 1;
    Interleaving(s, steps[..n]) && Can(After(s, steps[..n]), steps[n])
  }

  function After<T>(s: Shared<T>, steps: seq<Step<T>>): Shared<T>
    requires Interleaving(s, steps)
    decreases |steps|, 1
  {
    if steps == [] then s
    else var n := |steps| - 1; Do(After(s, steps[..n]), steps[n])
  }

  predicate NeverAliased<T>(s: Shared<T>, steps: seq<Step<T>>)
    requires Interleaving(s, steps)
  {
    steps == [] ||
    var n := |steps| - 1;
    var t := After(s, steps[..n]);
    NeverAliased(s, steps[..n]) && (steps[n].ByReader? ==> Unaliased(t.lock, t.reader, steps[n].r))
  }

  /** Both programs are where they should be, and the history has only grown. */
  lemma {:induction false} InterleavingKeeps<T>(s: Shared<T>, steps: seq<Step<T>>)
    requires Interleaving(s, steps) && NeverAliased(s, steps) && LockInv(s.lock) && ReaderInv(s.lock, s.reader)
    ensures var t := After(s, steps);
      LockInv(t.lock) && ReaderInv(t.lock, t.reader) && s.lock.log <= t.lock.log && s.lock.count <= t.lock.count
  {
    hide LockInv, ReaderInv, Unaliased;
    if steps != [] {
      var n := |steps| - 1;
      InterleavingKeeps(s, steps[..n]);
      var t := After(s, steps[..n]);
      match steps[n]
      case ByWriter(w) =>
        WriteKeepsLock(t.lock, w);
        WriteKeepsReader(t.lock, w, t.reader);
      case ByReader(r) =>
        ReadKeepsReader(t.lock, t.reader, r);
    }
  }

  /** Step j is the last load of s1. */
  predicate LastLoad<T>(steps: seq<Step<T>>, j: int) {
    0 <= j < |steps| && steps[j] == ByReader(LoadS1) && forall i :: j < i < |steps| ==> steps[i] != ByReader(LoadS1)
  }

  lemma FreshLoad<T>(s: Shared<T>)
    requires CanRead(s.lock, s.reader, LoadS1) && Read(s.lock, s.reader, LoadS1).phase != Returned(false)
    ensures Read(s.lock, s.reader, LoadS1).seen == s.lock.count
  {}

  lemma OlderLoad<T>(s: Shared<T>, step: ReaderStep)
    requires CanRead(s.lock, s.reader, step) && step != LoadS1
    ensures var r := Read(s.lock, s.reader, step);
      r.seen == s.reader.seen && s.reader.phase == Copying
  {}

  lemma {:induction false} LoadedWhen<T>(s: Shared<T>, steps: seq<Step<T>>) returns (j: nat)
    requires Interleaving(s, steps) && s.reader.phase == Retry
    requires After(s, steps).reader.phase in {Copying, Returned(true)}
    ensures LastLoad(steps, j) && Interleaving(s, steps[..j])
    ensures After(s, steps).reader.seen == After(s, steps[..j]).lock.count
  {
    hide Read, Write, CanRead, CanWrite;
    var n := |steps| - 1;
    if steps[n] == ByReader(LoadS1) {
      FreshLoad(After(s, steps[..n]));
      j := n;
    } else {
      if steps[n].ByReader? {
        OlderLoad(After(s, steps[..n]), steps[n].r);
      }
      j := LoadedWhen(s, steps[..n]);
      assert steps[..n][..j] == steps[..j];
    }
  }

  lemma PrefixNeverAliased<T>(s: Shared<T>, steps: seq<Step<T>>, j: nat)
    requires Interleaving(s, steps) && NeverAliased(s, steps) && j <= |steps|
    ensures Interleaving(s, steps[..j]) && NeverAliased(s, steps[..j])
  {
    if j < |steps| {
      PrefixNeverAliased(s, steps[..|steps| - 1], j);
      assert steps[..|steps| - 1][..j] == steps[..j];
    } else {
      assert steps[..j] == steps;
    }
  }

  lemma {:induction false} LogGrows<T>(s: Shared<T>, steps: seq<Step<T>>, j: nat)
    requires Interleaving(s, steps) && j <= |steps|
    ensures Interleaving(s, steps[..j]) && After(s, steps[..j]).lock.log <= After(s, steps).lock.log
  {
    if j < |steps| {
      var n := |steps| - 1;
      LogGrows(s, steps[..n], j);
      assert steps[..n][..j] == steps[..j];
    } else {
      assert steps[..j] == steps;
    }
  }

  lemma EvenCountRests<T>(l: Lock<T>, seen: nat)
    requires LockInv(l) && l.count == seen && seen % 2 == 0
    ensures l.writer.Resting? && l.log != [] && seen / 2 == |l.log| - 1
  {}

  lemma ReturnedCopy<T>(l: Lock<T>, r: Reader<T>)
    requires LockInv(l) && ReaderInv(l, r) && r.phase == Returned(true)
    ensures r.seen % 2 == 0 && r.seen / 2 < |l.log| && r.copy == l.log[r.seen / 2]
  {}

  /** A read that returns true has copied exactly the value last completely written when its s1 was
      loaded, and no write was under way then. */
  lemma ReadIsAtomic<T>(s: Shared<T>, steps: seq<Step<T>>)
    requires LockInv(s.lock) && ReaderInv(s.lock, s.reader) && s.reader.phase == Retry
    requires Interleaving(s, steps) && NeverAliased(s, steps) && After(s, steps).reader.phase == Returned(true)
    ensures exists j ::
      LastLoad(steps, j) && Interleaving(s, steps[..j]) &&
      var at := After(s, steps[..j]).lock;
      at.writer.Resting? && at.log != [] && After(s, steps).reader.copy == at.log[|at.log| - 1]
  {
    hide LockInv, ReaderInv, Interleaving, NeverAliased, After, Do, Can;
    var j := LoadedWhen(s, steps);
    InterleavingKeeps(s, steps);
    PrefixNeverAliased(s, steps, j);
    InterleavingKeeps(s, steps[..j]);
    LogGrows(s, steps, j);
    var t, at := After(s, steps), After(s, steps[..j]).lock;
    ReturnedCopy(t.lock, t.reader);
    EvenCountRests(at, t.reader.seen);
  }

  /* ---------- Progress ---------- */

  /** Steps a read still has to take, at most, whatever the writer does. */
  function ReadBudget<T>(words: nat, r: Reader<T>): nat {
    match r.phase
    case Retry => Slots(MAX_TRIES - r.tries, words) + 1
    case Copying => Slots(MAX_TRIES - r.tries, words) + 2 + |r.todo|
    case Returned(ok) => 0
  }

  /** Each further try takes two sequence loads and a copy of every word. */
  function Slots(tries: int, words: nat): nat {
    if tries <= 0 then 0 else Slots(tries - 1, words) + words + 2
  }

  /** Every step of the reader brings it closer to returning; steps of the writer cost it nothing, so a
      read ends within its cap of tries even if the writer has stopped in the middle of a write. */
  lemma ReadEnds<T>(l: Lock<T>, r: Reader<T>, s: ReaderStep)
    requires CanRead(l, r, s) && r.tries <= MAX_TRIES
    ensures var r' := Read(l, r, s);
      ReadBudget(|l.data|, r') < ReadBudget(|l.data|, r) && (r'.tries <= MAX_TRIES || r'.phase == Returned(false))
  {
    hide Indices;
  }

  lemma OddWhileStoring<T>(l: Lock<T>)
    requires LockInv(l)
    ensures l.sequence % 2 == if l.writer.Storing? then 1 else 0
  {
    ParityOfSequence(l.count);
  }

  /** A writer stopped between its two increments: every read from then on returns false. */
  lemma {:induction false} StuckWriterFails<T>(s: Shared<T>, steps: seq<Step<T>>)
    requires Interleaving(s, steps) && (forall i :: 0 <= i < |steps| ==> steps[i].ByReader?)
    requires LockInv(s.lock) && s.lock.writer.Storing? && s.reader.phase == Retry
    ensures After(s, steps).lock == s.lock && After(s, steps).reader.phase != Returned(true)
    ensures After(s, steps).reader.phase == Copying ==> After(s, steps).reader.s1 == s.lock.sequence
  {
    hide LockInv, Indices;
    OddWhileStoring(s.lock);
    if steps != [] {
      StuckWriterFails(s, steps[..|steps| - 1]);
    }
  }

  /** A writer at rest: a read succeeds on its first try. */
  lemma {:induction false} RestingWriterSucceeds<T>(s: Shared<T>, steps: seq<Step<T>>)
    requires Interleaving(s, steps) && (forall i :: 0 <= i < |steps| ==> steps[i].ByReader?)
    requires LockInv(s.lock) && s.lock.writer.Resting? && s.reader == StartRead(s.lock)
    ensures var t := After(s, steps);
      && t.lock == s.lock && t.reader.tries <= 1 && t.reader.phase != Returned(false)
      && (t.reader.phase == Retry ==> t.reader.tries == 0)
      && (t.reader.phase == Copying ==> t.reader.s1 == s.lock.sequence)
  {
    hide LockInv, Indices;
    OddWhileStoring(s.lock);
    if steps != [] {
      RestingWriterSucceeds(s, steps[..|steps| - 1]);
    }
  }

  /* ---------- When a read may give up ---------- */

  /** Steps i and j are the two sequence loads of one try, and what they loaded fails it: an odd number,
      or two different ones. */
  predicate FailedTry<T>(s: Shared<T>, steps: seq<Step<T>>, i: int, j: int)
    requires Interleaving(s, steps)
  {
    && 0 <= i < j < |steps| && steps[i] == ByReader(LoadS1) && steps[j] == ByReader(LoadS2)
    && (forall k :: i < k < j ==> steps[k] != ByReader(LoadS1))
    && Interleaving(s, steps[..i]) && Interleaving(s, steps[..j])
    && var first, second := After(s, steps[..i]).lock.sequence, After(s, steps[..j]).lock.sequence;
       first % 2 == 1 || first != second
  }

  /** The tries listed failed, one after the other. */
  ghost predicate Failures<T>(s: Shared<T>, steps: seq<Step<T>>, failed: seq<(int, int)>)
    requires Interleaving(s, steps)
  {
    && (forall k :: 0 <= k < |failed| ==> FailedTry(s, steps, failed[k].0, failed[k].1))
    && forall k, m :: 0 <= k < m < |failed| ==> failed[k].1 < failed[m].0
  }

  lemma FailuresLater<T>(s: Shared<T>, steps: seq<Step<T>>, failed: seq<(int, int)>)
    requires steps != [] && Interleaving(s, steps) && Interleaving(s, steps[..|steps| - 1])
    requires Failures(s, steps[..|steps| - 1], failed)
    ensures Failures(s, steps, failed)
  {
    hide Interleaving, After;
    var before := steps[..|steps| - 1];
    forall k | 0 <= k < |failed| ensures FailedTry(s, steps, failed[k].0, failed[k].1) {
      var (i, j) := failed[k];
      assert FailedTry(s, before, i, j);
      assert before[..i] == steps[..i] && before[..j] == steps[..j];
      assert forall m :: i < m < j ==> before[m] == steps[m];
    }
  }

  /** How many tries have been begun. */
  function Loads<T>(steps: seq<Step<T>>): nat {
    if steps == [] then 0
    else Loads(steps[..|steps| - 1]) + if steps[|steps| - 1] == ByReader(LoadS1) then 1 else 0
  }

  /** Where a read stands, by the tries that have failed so far. */
  ghost predicate Accounted<T>(s: Shared<T>, steps: seq<Step<T>>, failed: seq<(int, int)>, at: int)
    requires Interleaving(s, steps)
  {
    && Failures(s, steps, failed)
    && (forall k :: 0 <= k < |failed| ==> failed[k].1 < |steps|)
    && match After(s, steps).reader.phase
       case Retry => |failed| == After(s, steps).reader.tries <= 16
       case Copying =>
         && |failed| + 1 == After(s, steps).reader.tries <= 16 && LastLoad(steps, at) && Interleaving(s, steps[..at])
         && After(s, steps).reader.s1 == After(s, steps[..at]).lock.sequence
         && (forall k :: 0 <= k < |failed| ==> failed[k].1 < at)
       case Returned(true) => |failed| < 16
       case Returned(false) => |failed| == 16
  }

  lemma LoadAccounted<T>(s: Shared<T>, steps: seq<Step<T>>, failed: seq<(int, int)>, at: int)
    requires steps != [] && steps[|steps| - 1] == ByReader(LoadS1)
    requires Interleaving(s, steps) && Interleaving(s, steps[..|steps| - 1]) && Accounted(s, steps[..|steps| - 1], failed, at)
    requires Can(After(s, steps[..|steps| - 1]), ByReader(LoadS1))
    requires After(s, steps) == Do(After(s, steps[..|steps| - 1]), ByReader(LoadS1))
    ensures Accounted(s, steps, failed, |steps| - 1)
  {
    hide Interleaving, After, Failures, Indices;
    FailuresLater(s, steps, failed);
  }

  lemma CheckAccounted<T>(s: Shared<T>, steps: seq<Step<T>>, failed: seq<(int, int)>, at: int) returns (more: seq<(int, int)>)
    requires steps != [] && steps[|steps| - 1] == ByReader(LoadS2)
    requires Interleaving(s, steps) && Interleaving(s, steps[..|steps| - 1]) && Accounted(s, steps[..|steps| - 1], failed, at)
    requires Can(After(s, steps[..|steps| - 1]), ByReader(LoadS2))
    requires After(s, steps) == Do(After(s, steps[..|steps| - 1]), ByReader(LoadS2))
    ensures Accounted(s, steps, more, at)
  {
    hide Interleaving, After, Failures, Indices;
    var n := |steps| - 1;
    FailuresLater(s, steps, failed);
    if After(s, steps).reader.phase == Retry {
      assert steps[..n][..at] == steps[..at];
      assert FailedTry(s, steps, at, n) by {
        assert forall k :: at < k < n ==> steps[..n][k] == steps[k];
      }
      OneMoreFailure(s, steps, failed, at, n);
      more := failed + [(at, n)];
    } else {
      more := failed;
    }
  }

  lemma OneMoreFailure<T>(s: Shared<T>, steps: seq<Step<T>>, failed: seq<(int, int)>, i: int, j: int)
    requires Interleaving(s, steps) && Failures(s, steps, failed) && FailedTry(s, steps, i, j)
    requires forall k :: 0 <= k < |failed| ==> failed[k].1 < i
    ensures Failures(s, steps, failed + [(i, j)])
  {
    hide FailedTry, Interleaving;
  }

  lemma OtherAccounted<T>(s: Shared<T>, steps: seq<Step<T>>, failed: seq<(int, int)>, at: int)
    requires steps != [] && steps[|steps| - 1] !in {ByReader(LoadS1), ByReader(LoadS2)}
    requires Interleaving(s, steps) && Interleaving(s, steps[..|steps| - 1]) && Accounted(s, steps[..|steps| - 1], failed, at)
    requires Can(After(s, steps[..|steps| - 1]), steps[|steps| - 1])
    requires After(s, steps) == Do(After(s, steps[..|steps| - 1]), steps[|steps| - 1])
    ensures Accounted(s, steps, failed, at)
  {
    hide Interleaving, After, Failures, Indices, CanWrite, Write;
    var n := |steps| - 1;
    FailuresLater(s, steps, failed);
    if After(s, steps).reader.phase == Copying {
      assert steps[..n][..at] == steps[..at];
      assert forall k :: 0 <= k < n ==> steps[..n][k] == steps[k];
    }
  }

  /** In any interleaving every try that did not succeed was failed by the writer. */
  lemma {:induction false} TriesFail<T>(s: Shared<T>, steps: seq<Step<T>>) returns (failed: seq<(int, int)>, at: int)
    requires Interleaving(s, steps) && s.reader == StartRead(s.lock)
    ensures Accounted(s, steps, failed, at)
  {
    hide Can, Do, Failures, LastLoad;
    if steps == [] {
      failed, at := [], 0;
      NoFailures(s);
    } else {
      var n := |steps| - 1;
      var last := steps[n];
      failed, at := TriesFail(s, steps[..n]);
      hide Interleaving, After, Accounted;
      OneStep(s, steps);
      if last == ByReader(LoadS1) {
        LoadAccounted(s, steps, failed, at);
        at := n;
      } else if last == ByReader(LoadS2) {
        failed := CheckAccounted(s, steps, failed, at);
      } else {
        OtherAccounted(s, steps, failed, at);
      }
    }
  }

  lemma NoFailures<T>(s: Shared<T>)
    ensures Interleaving(s, []) && Failures(s, [], [])
  {}

  lemma OneStep<T>(s: Shared<T>, steps: seq<Step<T>>)
    requires Interleaving(s, steps) && steps != []
    ensures var n := |steps| - 1;
      && Interleaving(s, steps[..n]) && Can(After(s, steps[..n]), steps[n])
      && After(s, steps) == Do(After(s, steps[..n]), steps[n])
  {
    hide Can, Do;
  }

  /** A read gives up only after sixteen tries, one after the other, each of which loaded an odd sequence
      number or two different ones. */
  lemma GivesUpAfterSixteen<T>(s: Shared<T>, steps: seq<Step<T>>) returns (failed: seq<(int, int)>)
    requires Interleaving(s, steps) && s.reader == StartRead(s.lock)
    requires After(s, steps).reader.phase == Returned(false)
    ensures |failed| == 16 && (forall k :: 0 <= k < 16 ==> FailedTry(s, steps, failed[k].0, failed[k].1))
    ensures forall k :: 0 <= k < 15 ==> failed[k].1 < failed[k + 1].0
  {
    hide Interleaving, After, FailedTry;
    var at;
    failed, at := TriesFail(s, steps);
  }

  lemma {:induction false} LoadsAreTries<T>(s: Shared<T>, steps: seq<Step<T>>)
    requires Interleaving(s, steps) && s.reader == StartRead(s.lock)
    ensures After(s, steps).reader.tries == Loads(steps)
  {
    hide CanWrite, Write, Indices;
    if steps != [] {
      LoadsAreTries(s, steps[..|steps| - 1]);
    }
  }

  lemma {:induction false} LockKept<T>(s: Shared<T>, steps: seq<Step<T>>)
    requires Interleaving(s, steps) && LockInv(s.lock)
    ensures LockInv(After(s, steps).lock)
  {
    hide LockInv, Read, CanRead, Write, CanWrite;
    if steps != [] {
      var n := |steps| - 1;
      LockKept(s, steps[..n]);
      if steps[n].ByWriter? {
        WriteKeepsLock(After(s, steps[..n]).lock, steps[n].w);
      }
    }
  }

  /** With the writer at rest: fifteen tries at most are used up, or the sixteenth is bound to succeed. */
  predicate Served<T>(l: Lock<T>, r: Reader<T>) {
    match r.phase
    case Retry => r.tries <= 15
    case Copying => r.tries <= 15 || r.s1 == l.sequence
    case Returned(ok) => ok
  }

  lemma ServedStep<T>(l: Lock<T>, r: Reader<T>, rs: ReaderStep)
    requires LockInv(l) && l.writer.Resting? && Served(l, r) && CanRead(l, r, rs)
    ensures Served(l, Read(l, r, rs))
  {
    hide LockInv, Indices;
    OddWhileStoring(l);
  }

  /** The value taken is the one there when the second load agreed. */
  lemma TakenNow<T>(l: Lock<T>, r: Reader<T>, rs: ReaderStep)
    requires LockInv(l) && ReaderInv(l, r) && CanRead(l, r, rs) && Unaliased(l, r, rs) && Read(l, r, rs).phase == Returned(true)
    ensures Read(l, r, rs).copy == l.log[|l.log| - 1]
  {
    hide Indices;
    ParityOfSequence(r.seen);
    NoAlias(r.seen, l.count);
  }

  lemma GoesOn<T>(l: Lock<T>, r: Reader<T>)
    requires ReaderInv(l, r) && !r.phase.Returned?
    ensures exists rs :: CanRead(l, r, rs)
  {
    if r.phase == Retry {
      assert CanRead(l, r, LoadS1);
    } else if r.todo == {} {
      assert CanRead(l, r, LoadS2);
    } else {
      var i :| i in r.todo;
      assert i in Indices(|l.data|);
      assert CanRead(l, r, Copy(i));
    }
  }

  /** The writer rests from some point on, and fewer than sixteen tries have been begun by then: whatever
      came before, the read does not give up, it always has a next step until it returns true, and then it
      has copied the last completed value. */
  lemma {:induction false} RestingWriterServes<T>(s: Shared<T>, before: seq<Step<T>>, after: seq<Step<T>>)
    requires Interleaving(s, before) && s.reader == StartRead(s.lock) && LockInv(s.lock)
    requires Loads(before) <= 15 && After(s, before).lock.writer.Resting? && !After(s, before).reader.phase.Returned?
    requires Interleaving(s, before + after) && NeverAliased(s, before + after)
    requires forall i :: 0 <= i < |after| ==> after[i].ByReader?
    ensures var t := After(s, before + after);
      && t.lock == After(s, before).lock && Served(t.lock, t.reader) && t.reader.phase != Returned(false)
      && t.lock.log != [] && (t.reader.phase == Returned(true) ==> t.reader.copy == t.lock.log[|t.lock.log| - 1])
      && (!t.reader.phase.Returned? ==> exists rs :: CanRead(t.lock, t.reader, rs))
    decreases |after|
  {
    hide LockInv, ReaderInv, Indices, Read, CanRead, Write, CanWrite;
    var steps := before + after;
    StartReadIsSound(s.lock);
    InterleavingKeeps(s, steps);
    LogStarts(After(s, steps).lock);
    if !After(s, steps).reader.phase.Returned? {
      GoesOn(After(s, steps).lock, After(s, steps).reader);
    }
    if after == [] {
      assert steps == before;
      LoadsAreTries(s, before);
      FreshlyServed(After(s, before).lock, After(s, before).reader);
    } else {
      var n := |after| - 1;
      assert steps[..|steps| - 1] == before + after[..n];
      RestingWriterServes(s, before, after[..n]);
      var t := After(s, before + after[..n]);
      LockKept(s, before);
      InterleavingKeeps(s, before + after[..n]);
      ServedStep(t.lock, t.reader, after[n].r);
      if After(s, steps).reader.phase == Returned(true) {
        TakenNow(t.lock, t.reader, after[n].r);
      }
    }
  }

  lemma FreshlyServed<T>(l: Lock<T>, r: Reader<T>)
    requires r.tries <= 15 && !r.phase.Returned?
    ensures Served(l, r)
  {}

  lemma LogStarts<T>(l: Lock<T>)
    requires LockInv(l)
    ensures l.log != []
  {}

  /* ---------- The bound on writes per try is needed ---------- */

  lemma Extend<T>(s: Shared<T>, steps: seq<Step<T>>, step: Step<T>)
    requires Interleaving(s, steps) && Can(After(s, steps), step)
    ensures Interleaving(s, steps + [step]) && After(s, steps + [step]) == Do(After(s, steps), step)
  {
    hide Can, Do;
    assert (steps + [step])[..|steps|] == steps;
  }

  /** One complete write of a two-word value. */
  function WriteSteps<T>(v: seq<T>): seq<Step<T>> {
    [ByWriter(Begin(v)), ByWriter(Store(0)), ByWriter(Store(1)), ByWriter(End)]
  }

  function Written<T>(l: Lock<T>, v: seq<T>): Lock<T> {
    Lock((l.sequence + 2) % WRAP, v, Resting, l.count + 2, l.log + [v])
  }

  lemma TwoIndices()
    ensures Indices(2) == {0, 1} && Indices(2) - {0} - {1} == {}
  {
    assert Indices(1) == {0};
  }

  lemma FourSteps<T>(s: Shared<T>, v: seq<T>)
    requires s.lock.writer.Resting? && |v| == |s.lock.data| == 2
    ensures var l0 := s.lock;
      && CanWrite(l0, Begin(v)) && var l1 := Write(l0, Begin(v));
         CanWrite(l1, Store(0)) && var l2 := Write(l1, Store(0));
         CanWrite(l2, Store(1)) && var l3 := Write(l2, Store(1));
         CanWrite(l3, End) && Write(l3, End) == Written(l0, v)
  {
    TwoIndices();
    hide Indices;
    assert s.lock.data[0 := v[0]][1 := v[1]] == v;
  }

  lemma OneWrite<T>(s: Shared<T>, steps: seq<Step<T>>, v: seq<T>)
    requires Interleaving(s, steps) && After(s, steps).lock.writer.Resting? && |v| == |After(s, steps).lock.data| == 2
    ensures Interleaving(s, steps + WriteSteps(v))
    ensures After(s, steps + WriteSteps(v)) == After(s, steps).(lock := Written(After(s, steps).lock, v))
  {
    hide Interleaving, After, Written, Write, CanWrite;
    FourSteps(After(s, steps), v);
    var w := WriteSteps(v);
    Extend(s, steps, w[0]);
    Extend(s, steps + [w[0]], w[1]);
    Extend(s, steps + [w[0]] + [w[1]], w[2]);
    Extend(s, steps + [w[0]] + [w[1]] + [w[2]], w[3]);
    assert steps + [w[0]] + [w[1]] + [w[2]] + [w[3]] == steps + w;
  }

  function Repeat<T>(v: seq<T>, n: nat): seq<Step<T>> {
    if n == 0 then [] else Repeat(v, n - 1) + WriteSteps(v)
  }

  lemma TwoMore(a: nat, n: nat)
    requires n > 0
    ensures ((a + 2 * (n - 1)) % WRAP + 2) % WRAP == (a + 2 * n) % WRAP
  {}

  /** After n writes of v only v is new in the log, and the sequence number has moved by 2n. */
  lemma {:induction false} ManyWrites<T>(s: Shared<T>, steps: seq<Step<T>>, v: seq<T>, n: nat)
    requires Interleaving(s, steps) && After(s, steps).lock.writer.Resting? && |v| == |After(s, steps).lock.data| == 2
    requires After(s, steps).lock.sequence < WRAP
    ensures Interleaving(s, steps + Repeat(v, n))
    ensures var t, u := After(s, steps), After(s, steps + Repeat(v, n));
      && u.reader == t.reader && u.lock.writer.Resting? && |u.lock.data| == 2 && (n > 0 ==> u.lock.data == v)
      && u.lock.sequence == (t.lock.sequence + 2 * n) % WRAP
      && (forall x :: x in u.lock.log ==> x in t.lock.log || x == v)
  {
    hide Interleaving, After, WriteSteps, Can, Do, CanRead, Read, CanWrite, Write, Indices;
    if n == 0 {
      assert steps + Repeat(v, 0) == steps;
    } else {
      ManyWrites(s, steps, v, n - 1);
      OneWrite(s, steps + Repeat(v, n - 1), v);
      TwoMore(After(s, steps).lock.sequence, n);
      assert steps + Repeat(v, n - 1) + WriteSteps(v) == steps + Repeat(v, n);
    }
  }

  /** With exactly 2^31 writes between the two loads of a try the read can return a value nobody wrote. */
  lemma AliasedReadIsTorn<T>(x: T, y: T) returns (s: Shared<T>, steps: seq<Step<T>>)
    requires x != y
    ensures s.lock == Lock(0, [x, x], Resting, 0, [[x, x]]) && s.reader == StartRead(s.lock)
    ensures Interleaving(s, steps) && After(s, steps).reader.phase == Returned(true)
    ensures After(s, steps).reader.copy == [x, y] && [x, y] !in After(s, steps).lock.log
  {
    hide Interleaving, After, Repeat;
    var l := Lock(0, [x, x], Resting, 0, [[x, x]]);
    s := Shared(l, StartRead(l));
    var load: Step<T>, first: Step<T>, second: Step<T>, check: Step<T> := ByReader(LoadS1), ByReader(Copy(0)), ByReader(Copy(1)), ByReader(LoadS2);
    TwoIndices();
    NoSteps(s);
    Extend(s, [], load);
    Extend(s, [] + [load], first);
    steps := [] + [load] + [first];
    ManyWrites(s, steps, [y, y], 0x8000_0000);
    steps := steps + Repeat([y, y], 0x8000_0000);
    Extend(s, steps, second);
    Extend(s, steps + [second], check);
    steps := steps + [second] + [check];
  }

  lemma NoSteps<T>(s: Shared<T>)
    ensures Interleaving(s, []) && After(s, []) == s
  {}
}
