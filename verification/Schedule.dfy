/** The 8 kHz loop's timing (fc_task_main): a cycle counter that wraps at 2^32 against exact time. */
module Schedule {
  const WRAP := 0x1_0000_0000
  const HALF := 0x8000_0000
  const TARGET_CYCLES := 45_000
  const CYCLES_PER_US := 360
  const WINDOW := 40_000
  const UINT32_MAX := 0xFFFF_FFFF

  /** The difference of two counter readings, read as a signed 32-bit number. */
  function SignedDifference(a: nat, b: nat): int {
    var d := (a - b) % WRAP;
    if d < HALF then d else d - WRAP
  }

  /** It is the exact difference of the two times exactly when that fits in 32 signed bits. */
  lemma SignedDifferenceExact(t: nat, u: nat)
    ensures SignedDifference(t % 0x1_0000_0000, u % 0x1_0000_0000) == t - u <==> -0x8000_0000 <= t - u < 0x8000_0000
  {
    var q := t / WRAP - u / WRAP;
    assert t % WRAP - u % WRAP == t - u - q * WRAP;
    ModShift(t - u, q);
    Residues(t - u);
  }

  lemma ModShift(n: int, q: int)
    ensures (n - q * WRAP) % WRAP == n % WRAP
  {}

  lemma Residues(n: int)
    ensures n % WRAP < HALF ==> (n % WRAP == n <==> 0 <= n < HALF)
    ensures n % WRAP >= HALF ==> (n % WRAP - WRAP == n <==> -HALF <= n < 0)
    ensures 0 <= n < HALF ==> n % WRAP < HALF
    ensures -HALF <= n < 0 ==> n % WRAP >= HALF
  {}

  lemma CounterAdds(n: nat, d: nat)
    ensures (n % WRAP + d) % WRAP == (n + d) % WRAP
  {}

  /** When iteration k should wake. */
  function Ideal(start: nat, k: nat): nat {
    start + (k + 1) * TARGET_CYCLES
  }

  /* ---------- Window statistics ---------- */

  function Sum(s: seq<nat>): nat { if s == [] then 0 else Sum(s[..|s| - 1]) + s[|s| - 1] }

  predicate IsMin(s: seq<nat>, m: nat) {
    (forall i :: 0 <= i < |s| ==> m <= s[i]) && (exists i :: 0 <= i < |s| && s[i] == m)
  }

  predicate IsMax(s: seq<nat>, m: nat) {
    (forall i :: 0 <= i < |s| ==> s[i] <= m) && (exists i :: 0 <= i < |s| && s[i] == m)
  }

  lemma SumExtend(s: seq<nat>, x: nat)
    ensures Sum(s + [x]) == Sum(s) + x && Sum([]) == 0
  {
    assert (s + [x])[..|s|] == s;
  }

  lemma ExtremesExtend(s: seq<nat>, x: nat, m: nat)
    ensures s == [] ==> IsMin(s + [x], x) && IsMax(s + [x], x)
    ensures IsMin(s, m) ==> IsMin(s + [x], if x < m then x else m)
    ensures IsMax(s, m) ==> IsMax(s + [x], if x > m then x else m)
  {
    var t := s + [x];
    assert t[|s|] == x;
    if IsMin(s, m) {
      var i :| 0 <= i < |s| && s[i] == m;
      assert t[i] == m;
    }
    if IsMax(s, m) {
      var i :| 0 <= i < |s| && s[i] == m;
      assert t[i] == m;
    }
  }

  /* ---------- The loop ---------- */

  /** Cycle times at which the counter is read in one iteration: in order, the last spin read at the
      ideal time or later, then the wake-up read, and none 2^31 cycles or more behind the ideal. */
  predicate Reads(polls: seq<nat>, from: nat, ideal: nat) {
    && |polls| >= 2 && polls[0] >= from && polls[|polls| - 2] >= ideal
    && (forall i, j :: 0 <= i <= j < |polls| ==> polls[i] <= polls[j])
    && forall i :: 0 <= i < |polls| ==> polls[i] < ideal + HALF
  }

  /** Poll `woke` is the first read after the first poll at the ideal time or later. */
  predicate WakesAt(polls: seq<nat>, ideal: nat, woke: nat) {
    && 1 <= woke < |polls| && ideal <= polls[woke - 1] <= polls[woke]
    && forall i :: 0 <= i < woke - 1 ==> polls[i] < ideal
  }

  /** The spin loop, on wrapped readings, followed by the wake-up read. */
  method Spin(polls: seq<nat>, nextCycle: nat, ghost ideal: nat) returns (woke: nat)
    requires ideal >= TARGET_CYCLES && nextCycle == ideal % WRAP && Reads(polls, ideal - TARGET_CYCLES, ideal)
    ensures WakesAt(polls, ideal, woke)
  {
    hide SignedDifference;
    var i := 0;
    SignedDifferenceExact(polls[0], ideal);
    while SignedDifference(polls[i] % WRAP, nextCycle) < 0
      invariant 0 <= i <= |polls| - 2
      invariant polls[i] == ideal + SignedDifference(polls[i] % WRAP, nextCycle)
      invariant forall j :: 0 <= j < i ==> polls[j] < ideal
      decreases |polls| - i
    {
      i := i + 1;
      SignedDifferenceExact(polls[i], ideal);
    }
    woke := i + 1;
  }

  /** The jitter computation, on wrapped readings: the exact distance from the ideal in whole microseconds. */
  method TrueJitter(loopWake: nat, target: nat, ghost wake: nat, ghost ideal: nat) returns (us: nat)
    requires loopWake == wake % WRAP && target == ideal % WRAP && ideal - HALF < wake < ideal + HALF
    ensures us == (if wake < ideal then ideal - wake else wake - ideal) / 360 && us < UINT32_MAX
  {
    hide SignedDifference;
    SignedDifferenceExact(wake, ideal);
    var cycles := SignedDifference(loopWake, target);
    us := if cycles < 0 then (-cycles) / CYCLES_PER_US else cycles / CYCLES_PER_US;
    Quotient(if wake < ideal then ideal - wake else wake - ideal);
  }

  class Loop {
    var nextCycle: nat
    var tjmin: nat
    var tjmax: nat
    var tjsum: nat
    var tjsamples: nat
    var slow: nat
    var trueJitterMin: nat
    var trueJitterMax: nat
    var trueJitterAvg: nat

    /** History: exact start time, iterations made, last counter read, and the jitters of the current
        and of the last reported window. */
    ghost var start: nat
    ghost var iterations: nat
    ghost var lastRead: nat
    ghost var window: seq<nat>
    ghost var reported: seq<nat>

    ghost predicate OnSchedule()
      reads `nextCycle, `start, `iterations, `lastRead
    {
      nextCycle == Ideal(start, iterations) % WRAP && Ideal(start, iterations) <= lastRead + TARGET_CYCLES
    }

    ghost predicate Counting()
      reads `tjmin, `tjmax, `tjsum, `tjsamples, `slow, `window
    {
      && slow == tjsamples == |window| <= WINDOW && tjsum == Sum(window)
      && (if window == [] then tjmin == UINT32_MAX && tjmax == 0 else IsMin(window, tjmin) && IsMax(window, tjmax))
      && (forall i :: 0 <= i < |window| ==> window[i] < UINT32_MAX)
    }

    ghost predicate Reporting()
      reads `trueJitterMin, `trueJitterMax, `trueJitterAvg, `reported
    {
      reported != [] ==>
        && |reported| == WINDOW && IsMin(reported, trueJitterMin) && IsMax(reported, trueJitterMax)
        && trueJitterAvg == Sum(reported) / WINDOW
    }

    ghost predicate Valid()
      reads this
    {
      OnSchedule() && Counting() && |window| < WINDOW && Reporting()
    }

    constructor (now: nat)
      ensures Valid() && start == now == lastRead && iterations == 0
    {
      nextCycle := (now % WRAP + TARGET_CYCLES) % WRAP;
      tjmin, tjmax, tjsum, tjsamples, slow := UINT32_MAX, 0, 0, 0, 0;
      trueJitterMin, trueJitterMax, trueJitterAvg := 0, 0, 0;
      start, iterations, lastRead, window, reported := now, 0, now, [], [];
      new;
      CounterAdds(now, TARGET_CYCLES);
    }

    /** One pass: spin until the target, note the wake-up, account for the jitter. The pass wakes at its
        ideal time or later, on the first poll that is not early, and reports exactly how late it was. */
    method Iterate(polls: seq<nat>) returns (woke: nat, jitterUs: nat)
      requires Valid() && Reads(polls, lastRead, Ideal(start, iterations))
      modifies this
      ensures Valid() && start == old(start) && iterations == old(iterations) + 1
      ensures WakesAt(polls, Ideal(start, old(iterations)), woke) && lastRead == polls[woke]
      ensures jitterUs == (polls[woke] - Ideal(start, old(iterations))) / CYCLES_PER_US
      ensures |old(window)| + 1 < 40_000 ==> window == old(window) + [jitterUs] && reported == old(reported)
      ensures |old(window)| + 1 == 40_000 ==> window == [] && reported == old(window) + [jitterUs]
    {
      hide SignedDifference, Counting, Reporting;
      ghost var ideal := Ideal(start, iterations);
      woke := Spin(polls, nextCycle, ideal);
      var loopWake := polls[woke] % WRAP;
      nextCycle := (nextCycle + TARGET_CYCLES) % WRAP;
      CounterAdds(ideal, TARGET_CYCLES);
      CounterSubtracts(ideal);
      jitterUs := TrueJitter(loopWake, (nextCycle - TARGET_CYCLES) % WRAP, polls[woke], ideal);
      iterations, lastRead := iterations + 1, polls[woke];
      Count(jitterUs);
      Report();
    }

    /** The statistics of the pass. */
    method Count(jitterUs: nat)
      requires jitterUs < UINT32_MAX && Counting() && |window| < WINDOW
      modifies `tjmin, `tjmax, `tjsum, `tjsamples, `slow, `window
      ensures Counting() && window == old(window) + [jitterUs]
    {
      hide Sum, IsMin, IsMax;
      SumExtend(window, jitterUs);
      ExtremesExtend(window, jitterUs, tjmin);
      ExtremesExtend(window, jitterUs, tjmax);
      slow := slow + 1;
      if jitterUs < tjmin {
        tjmin := jitterUs;
      }
      if jitterUs > tjmax {
        tjmax := jitterUs;
      }
      tjsum, tjsamples, window := tjsum + jitterUs, tjsamples + 1, window + [jitterUs];
    }

    /** Every 40000 passes the statistics of exactly those passes are published and a new window begins. */
    method Report()
      requires Counting() && Reporting()
      modifies `tjmin, `tjmax, `tjsum, `tjsamples, `slow, `window, `trueJitterMin, `trueJitterMax, `trueJitterAvg, `reported
      ensures Counting() && |window| < WINDOW && Reporting()
      ensures |old(window)| < WINDOW ==> window == old(window) && reported == old(reported)
      ensures |old(window)| == WINDOW ==> window == [] && reported == old(window)
    {
      hide IsMin, IsMax;
      if slow >= WINDOW {
        trueJitterMin, trueJitterMax, trueJitterAvg, reported := tjmin, tjmax, tjsum / tjsamples, window;
        tjmin, tjmax, tjsum, tjsamples, slow, window := UINT32_MAX, 0, 0, 0, 0, [];
      }
    }
  }

  /** The counter reads of successive passes: in order, and every pass within 2^31 cycles of its ideal. */
  predicate Timely(start: nat, passes: seq<seq<nat>>) {
    forall k :: 0 <= k < |passes| ==> Reads(passes[k], Before(start, passes, k), Ideal(start, k))
  }

  function Before(start: nat, passes: seq<seq<nat>>, k: nat): nat
    requires k <= |passes|
  {
    if k == 0 || passes[k - 1] == [] then start else passes[k - 1][|passes[k - 1]| - 1]
  }

  /** The pass woke on time or later, and reported its exact lag. */
  predicate OnTime(polls: seq<nat>, ideal: nat, woke: nat, us: nat) {
    WakesAt(polls, ideal, woke) && us == (polls[woke] - ideal) / CYCLES_PER_US
  }

  lemma PassFacts(start: nat, passes: seq<seq<nat>>, k: nat)
    requires Timely(start, passes) && k < |passes|
    ensures Reads(passes[k], Before(start, passes, k), Ideal(start, k))
    ensures passes[k] != [] && Before(start, passes, k + 1) == passes[k][|passes[k]| - 1]
    ensures forall i :: 0 <= i < |passes[k]| ==> passes[k][i] <= passes[k][|passes[k]| - 1]
  {}

  lemma EarlierFrom(polls: seq<nat>, from: nat, from': nat, ideal: nat)
    requires Reads(polls, from, ideal) && from' <= from
    ensures Reads(polls, from', ideal)
  {}

  /** fc_task_main's loop, for as many passes as there are reads: pass k never wakes before start plus
      (k + 1) * 45000 cycles, however late the passes before it were, and its jitter is its exact lag. */
  method RunLoop(start: nat, passes: seq<seq<nat>>) returns (wakes: seq<nat>, jitters: seq<nat>)
    requires Timely(start, passes)
    ensures |wakes| == |jitters| == |passes|
    ensures forall k :: 0 <= k < |passes| ==>
      var ideal, woke := start + (k + 1) * 45_000, wakes[k];
      && 1 <= woke < |passes[k]| && ideal <= passes[k][woke - 1] <= passes[k][woke]
      && (forall i :: 0 <= i < woke - 1 ==> passes[k][i] < ideal)
      && jitters[k] == (passes[k][woke] - ideal) / 360
  {
    hide Ideal, Timely, Reads, OnTime, Before;
    var l := new Loop(start);
    wakes, jitters := [], [];
    StartsBefore(start, passes);
    for k := 0 to |passes|
      invariant fresh(l) && l.Valid() && l.start == start && l.iterations == k && |wakes| == |jitters| == k
      invariant l.lastRead <= Before(start, passes, k)
      invariant forall j :: 0 <= j < k ==> OnTime(passes[j], Ideal(start, j), wakes[j], jitters[j])
    {
      PassFacts(start, passes, k);
      EarlierFrom(passes[k], Before(start, passes, k), l.lastRead, Ideal(start, k));
      var woke, us := l.Iterate(passes[k]);
      IsOnTime(passes[k], Ideal(start, k), woke, us);
      wakes, jitters := wakes + [woke], jitters + [us];
    }
    forall k | 0 <= k < |passes|
      ensures var ideal, woke := start + (k + 1) * 45_000, wakes[k];
        && 1 <= woke < |passes[k]| && ideal <= passes[k][woke - 1] <= passes[k][woke]
        && (forall i :: 0 <= i < woke - 1 ==> passes[k][i] < ideal)
        && jitters[k] == (passes[k][woke] - ideal) / 360
    {
      OnTimeIs(start, k, passes[k], wakes[k], jitters[k]);
    }
  }

  lemma OnTimeIs(start: nat, k: nat, polls: seq<nat>, woke: nat, us: nat)
    requires OnTime(polls, Ideal(start, k), woke, us)
    ensures var ideal := start + (k + 1) * 45_000;
      && 1 <= woke < |polls| && ideal <= polls[woke - 1] <= polls[woke]
      && (forall i :: 0 <= i < woke - 1 ==> polls[i] < ideal)
      && us == (polls[woke] - ideal) / 360
  {}

  lemma StartsBefore(start: nat, passes: seq<seq<nat>>)
    ensures Before(start, passes, 0) == start
  {}

  lemma IsOnTime(polls: seq<nat>, ideal: nat, woke: nat, us: nat)
    requires WakesAt(polls, ideal, woke) && us == (polls[woke] - ideal) / CYCLES_PER_US
    ensures OnTime(polls, ideal, woke, us)
  {}

  lemma Quotient(n: nat)
    ensures n / CYCLES_PER_US <= n
  {}

  lemma CounterSubtracts(n: nat)
    ensures ((n % WRAP + TARGET_CYCLES) % WRAP - TARGET_CYCLES) % WRAP == n % WRAP
  {}
}
