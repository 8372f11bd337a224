/** The motor command that crosses from Core 0 to Core 1: how it is made, checked for age and used. */
module MotorCommands {
  import opened Bytes

  const MOTORS := 4
  const MAX_AGE_US := 100_000
  const THROTTLE_MIN := 48
  const THROTTLE_MAX := 2047

  /** A float, exact where it is a number. */
  datatype Float = NaN | NegInf | PosInf | Num(r: real)

  const ZERO := Num(0.0)

  datatype Command = Command(timeUs: nat, motor: seq<Float>, valid: bool)

  predicate IsCommand(c: Command) { |c.motor| == MOTORS }

  function Idle(): seq<Float> { [ZERO, ZERO, ZERO, ZERO] }

  /* ---------- Core 0: the bridge ---------- */

  datatype Armed = Armed(armed: bool, lockdown: bool, kill: bool, termination: bool)

  predicate MotorsAllowed(a: Armed) {
    a.armed && !a.lockdown && !a.kill && !a.termination
  }

  function Cleaned(v: Float): Float { if v.NaN? then ZERO else v }

  /** The first four controls, with a stopped motor (NaN) made zero. */
  function CleanedControls(controls: seq<Float>): (m: seq<Float>)
    requires |controls| >= MOTORS
    ensures |m| == MOTORS && forall i :: 0 <= i < MOTORS ==> m[i] == Cleaned(controls[i])
  {
    seq(MOTORS, i requires 0 <= i < MOTORS => Cleaned(controls[i]))
  }

  /** What one bridge call writes, if anything, from the gate and the sample it saw and its clock reading. */
  function Forwarded(gate: Armed, sample: Option<seq<Float>>, now: nat): (written: Option<Command>)
    requires sample.Some? ==> |sample.value| >= MOTORS
    ensures written.Some? ==> IsCommand(written.value)
  {
    if !MotorsAllowed(gate) then Some(Command(now, Idle(), true))
    else match sample
      case None => None
      case Some(controls) => Some(Command(now, CleanedControls(controls), true))
  }

  /** fc_px4_actuator_to_seqlock, with the subscription's last sample as its only state. */
  class Bridge {
    var actuatorMotors: seq<Float>

    /** `sample` is one published since the last call; `now` is read when the command is stamped.
        A closed gate always yields a stamped stop command; an open one forwards only fresh samples. */
    method ActuatorToSeqlock(gate: Armed, sample: Option<seq<Float>>, now: nat) returns (written: Option<Command>)
      requires sample.Some? ==> |sample.value| >= MOTORS
      modifies this
      ensures written == Forwarded(gate, sample, now)
      ensures !gate.armed || gate.lockdown || gate.kill || gate.termination ==>
        && written == Some(Command(now, [Num(0.0), Num(0.0), Num(0.0), Num(0.0)], true))
        && actuatorMotors == old(actuatorMotors)
      ensures gate.armed && !gate.lockdown && !gate.kill && !gate.termination && sample.None? ==>
        written == None && actuatorMotors == old(actuatorMotors)
      ensures gate.armed && !gate.lockdown && !gate.kill && !gate.termination && sample.Some? ==>
        && written.Some? && written.value.timeUs == now && written.value.valid && |written.value.motor| == 4
        && (forall i :: 0 <= i < 4 ==> written.value.motor[i] == if sample.value[i].NaN? then Num(0.0) else sample.value[i])
        && actuatorMotors == sample.value
    {
      if !MotorsAllowed(gate) {
        return Some(Command(now, Idle(), true));
      }
      if sample.None? {
        return None;
      }
      actuatorMotors := sample.value;
      var motor: seq<Float> := Idle();
      for i := 0 to MOTORS
        invariant |motor| == MOTORS && actuatorMotors == sample.value
        invariant forall k :: 0 <= k < i ==> motor[k] == Cleaned(actuatorMotors[k])
      {
        var v := actuatorMotors[i];
        motor := motor[i := if v.NaN? then ZERO else v];
      }
      assert motor == CleanedControls(sample.value);
      return Some(Command(now, motor, true));
    }
  }

  /* ---------- In shared memory ---------- */

  /** The words the compiler copies: on a 32-bit core the time stamp is two of them. */
  datatype Word = Low(n: nat) | High(n: nat) | Motor(v: Float) | Flag(b: bool)

  const WORDS := 7

  function Words(c: Command): (w: seq<Word>)
    requires IsCommand(c)
    ensures |w| == WORDS
  {
    [Low(c.timeUs % 0x1_0000_0000), High(c.timeUs / 0x1_0000_0000)]
    + [Motor(c.motor[0]), Motor(c.motor[1]), Motor(c.motor[2]), Motor(c.motor[3]), Flag(c.valid)]
  }

  predicate AreWords(w: seq<Word>) {
    && |w| == WORDS && w[0].Low? && w[1].High? && w[6].Flag?
    && forall i :: 2 <= i < 6 ==> w[i].Motor?
  }

  function FromWords(w: seq<Word>): (c: Command)
    requires AreWords(w)
    ensures IsCommand(c)
  {
    Command(0x1_0000_0000 * w[1].n + w[0].n, [w[2].v, w[3].v, w[4].v, w[5].v], w[6].b)
  }

  lemma WordsRoundTrip(c: Command)
    requires IsCommand(c)
    ensures AreWords(Words(c)) && FromWords(Words(c)) == c
  {
    assert c.motor == [c.motor[0], c.motor[1], c.motor[2], c.motor[3]];
  }

  /* ---------- Core 1: what is driven ---------- */

  /** The freshness test, and the guard against NaN. */
  predicate IsFresh(ok: bool, c: Command, now: nat) {
    ok && c.valid && 0 <= now - c.timeUs < MAX_AGE_US
  }

  function Guarded(ok: bool, c: Command, now: nat): (m: seq<Float>)
    requires IsCommand(c)
    ensures |m| == MOTORS && forall i :: 0 <= i < MOTORS ==> m[i] == if IsFresh(ok, c, now) then Cleaned(c.motor[i]) else ZERO
  {
    seq(MOTORS, i requires 0 <= i < MOTORS => if IsFresh(ok, c, now) then Cleaned(c.motor[i]) else ZERO)
  }

  function Clamped(v: Float): (n: real)
    ensures 0.0 <= n <= 1.0
  {
    match v
    case NaN => 0.0
    case NegInf => 0.0
    case PosInf => 1.0
    case Num(r) => if r < 0.0 then 0.0 else if r > 1.0 then 1.0 else r
  }

  /** The throttle for a control value: 48 plus the clamped value's share of 1999 steps, truncated. */
  function ThrottleFor(v: Float): int {
    (THROTTLE_MIN as real + Clamped(v) * ((THROTTLE_MAX - THROTTLE_MIN) as real)).Floor
  }

  /** By the numbers: 48 plus the control's share of 1999, rounded down, for a control from 0 to 1; 48 below
      that and for a NaN, 2047 above. */
  lemma ThrottleValue(v: Float)
    ensures v.Num? && 0.0 <= v.r <= 1.0 ==> 47.0 + 1999.0 * v.r < ThrottleFor(v) as real <= 48.0 + 1999.0 * v.r
    ensures v.NaN? || v.NegInf? || (v.Num? && v.r < 0.0) ==> ThrottleFor(v) == 48
    ensures v.PosInf? || (v.Num? && v.r > 1.0) ==> ThrottleFor(v) == 2047
  {}

  /** In range always; at the minimum exactly for values below one step; never falling as values rise. */
  lemma ThrottleShape(v: Float, w: Float)
    ensures THROTTLE_MIN <= ThrottleFor(v) <= THROTTLE_MAX
    ensures ThrottleFor(v) == THROTTLE_MIN <==> Clamped(v) * 1999.0 < 1.0
    ensures Clamped(v) <= Clamped(w) ==> ThrottleFor(v) <= ThrottleFor(w)
  {
    var n, m := Clamped(v), Clamped(w);
    assert 0.0 <= n * 1999.0 <= 1999.0;
  }

  function Throttles(ok: bool, c: Command, now: nat): (t: seq<int>)
    requires IsCommand(c)
    ensures |t| == MOTORS && forall i :: 0 <= i < MOTORS ==> t[i] == ThrottleFor(Guarded(ok, c, now)[i])
  {
    seq(MOTORS, i requires 0 <= i < MOTORS => ThrottleFor(Guarded(ok, c, now)[i]))
  }

  /** What is driven, by the numbers: a valid command whose age is from 0 to below 100 ms gets each control's
      own throttle, anything else 48. */
  lemma ThrottlesAre(ok: bool, c: Command, now: nat, i: nat)
    requires IsCommand(c) && i < 4
    ensures Throttles(ok, c, now)[i]
         == if ok && c.valid && 0 <= now - c.timeUs < 100_000 then ThrottleFor(c.motor[i]) else 48
  {
    ThrottleValue(c.motor[i]);
    ThrottleValue(Num(0.0));
    ZeroIsMinimum();
  }

  lemma ZeroIsMinimum()
    ensures ThrottleFor(Num(0.0)) == 48
  {}

  /** A motor is driven above the minimum only from a fresh, valid command asking for it. */
  lemma DrivenMeansFresh(ok: bool, c: Command, now: nat, i: nat)
    requires IsCommand(c) && i < MOTORS && Throttles(ok, c, now)[i] > THROTTLE_MIN
    ensures IsFresh(ok, c, now) && Throttles(ok, c, now)[i] == ThrottleFor(c.motor[i]) && c.motor[i] != ZERO
  {}
}
