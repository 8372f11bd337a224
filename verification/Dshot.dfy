/** DShot output (fc_core.c): frames, pulse symbols, the mixer and Core 1's motor output. */
module Dshot {
  import opened MotorCommands

  const T1H := 50
  const T1L := 17
  const T0H := 25
  const T0L := 42
  const FRAME_BITS := 16

  datatype Symbol = Symbol(duration0: nat, level0: bool, duration1: nat, level1: bool)

  function SymbolFor(bit: bool): Symbol {
    if bit then Symbol(T1H, true, T1L, false) else Symbol(T0H, true, T0L, false)
  }

  function Clip(throttle: nat): nat {
    if throttle > THROTTLE_MAX then THROTTLE_MAX else if throttle < THROTTLE_MIN then THROTTLE_MIN else throttle
  }

  /* ---------- Frames ---------- */

  /** Exclusive or with 0x0D. */
  function Toggle(crc: nat): nat {
    crc + (1 - 2 * (crc % 2)) + 4 * (1 - 2 * (crc / 4 % 2)) + 8 * (1 - 2 * (crc / 8 % 2))
  }

  function Round(crc: nat, data: nat): nat {
    var c := crc * 2 % 0x1_0000;
    if c / 0x10 % 2 == 1 || data / 0x800 % 2 == 1 then Toggle(c) else c
  }

  /** The register after n rounds over the bits of `data`, most significant first. */
  function Rounds(crc: nat, data: nat, n: nat): nat
    decreases n
  {
    if n == 0 then crc else Rounds(Round(crc, data), data * 2 % 0x1_0000, n - 1)
  }

  lemma FrameParts(thr: nat, bit: nat, nibble: nat)
    requires bit <= 1 && nibble < 16
    ensures var frame := 32 * thr + 16 * bit + nibble;
      frame / 32 == thr && frame / 16 == 2 * thr + bit && frame / 16 % 2 == bit && frame % 16 == nibble
  {}

  /** It flips the bits worth 1, 4 and 8. */
  lemma ToggleFlips(crc: nat, high: nat, b3: nat, b2: nat, b1: nat, b0: nat)
    requires b3 <= 1 && b2 <= 1 && b1 <= 1 && b0 <= 1 && crc == 16 * high + 8 * b3 + 4 * b2 + 2 * b1 + b0
    ensures Toggle(crc) == 16 * high + 8 * (1 - b3) + 4 * (1 - b2) + 2 * b1 + (1 - b0)
  {
    assert crc % 2 == b0;
    assert crc / 4 == 4 * high + 2 * b3 + b2;
    assert crc / 8 == 2 * high + b3;
  }

  /** fc_dshot_encode_frame: the clipped throttle and the telemetry bit can be read back from the frame. */
  method EncodeFrame(throttle: nat, telemetry: bool) returns (frame: nat)
    ensures frame < 0x1_0000 && frame / 32 == Clip(throttle)
    ensures Clip(throttle) == if throttle < 48 then 48 else if throttle <= 2047 then throttle else 2047
    ensures frame / 16 % 2 == (if telemetry then 1 else 0)
    ensures frame % 16 == Rounds(0, frame / 16, 12) % 16
  {
    hide Rounds, Toggle;
    var thr := throttle;
    if thr > THROTTLE_MAX {
      thr := THROTTLE_MAX;
    }
    if thr < THROTTLE_MIN {
      thr := THROTTLE_MIN;
    }
    var bit: nat := if telemetry then 1 else 0;
    frame := 32 * thr + 16 * bit;
    FrameParts(thr, bit, 0);
    var crc: nat, data: nat := 0, frame / 16;
    for i := 0 to 12
      invariant Rounds(crc, data, 12 - i) == Rounds(0, frame / 16, 12)
    {
      RoundsNext(crc, data, 12 - i);
      crc := crc * 2 % 0x1_0000;
      if crc / 0x10 % 2 == 1 || data / 0x800 % 2 == 1 {
        crc := Toggle(crc);
      }
      data := data * 2 % 0x1_0000;
    }
    RoundsDone(crc, data);
    frame := frame + crc % 16;
    FrameParts(thr, bit, crc % 16);
  }

  lemma RoundsNext(crc: nat, data: nat, n: nat)
    requires n > 0
    ensures Rounds(crc, data, n) == Rounds(Round(crc, data), data * 2 % 0x1_0000, n - 1)
  {}

  lemma RoundsDone(crc: nat, data: nat)
    ensures Rounds(crc, data, 0) == crc
  {}

  lemma OneRound(crc: nat, data: nat, n: nat, next: nat)
    requires n > 0 && crc < 0x8000 && data < 0x1_0000
    requires next == if 2 * crc / 16 % 2 == 1 || data / 2048 % 2 == 1 then Toggle(2 * crc) else 2 * crc
    ensures Rounds(crc, data, n) == Rounds(next, data * 2 % 0x1_0000, n - 1)
  {
    hide Toggle;
  }

  /** What is left for throttle 1046 without and for 48 with the telemetry bit. */
  lemma ChecksumOf1046()
    ensures Rounds(0, 2092, 12) == 20710
  {
    hide Rounds, Round;
    OneRound(0, 2092, 12, 13);
    OneRound(13, 4184, 11, 23);
    OneRound(23, 8368, 10, 46);
    OneRound(46, 16736, 9, 81);
    OneRound(81, 33472, 8, 162);
    OneRound(162, 1408, 7, 324);
    OneRound(324, 2816, 6, 645);
    OneRound(645, 5632, 5, 1290);
    OneRound(1290, 11264, 4, 2585);
    OneRound(2585, 22528, 3, 5183);
    OneRound(5183, 45056, 2, 10355);
    OneRound(10355, 24576, 1, 20710);
    RoundsDone(20710, 49152);
  }

  lemma ChecksumOf48()
    ensures Rounds(0, 97, 12) == 645
  {
    hide Rounds, Round;
    OneRound(0, 97, 12, 0);
    OneRound(0, 194, 11, 0);
    OneRound(0, 388, 10, 0);
    OneRound(0, 776, 9, 0);
    OneRound(0, 1552, 8, 0);
    OneRound(0, 3104, 7, 13);
    OneRound(13, 6208, 6, 23);
    OneRound(23, 12416, 5, 46);
    OneRound(46, 24832, 4, 81);
    OneRound(81, 49664, 3, 162);
    OneRound(162, 33792, 2, 324);
    OneRound(324, 2048, 1, 645);
    RoundsDone(645, 4096);
  }

  /* ---------- Pulses ---------- */

  /** Right shift. */
  function Shifted(frame: nat, n: nat): nat {
    if n == 0 then frame else Shifted(frame, n - 1) / 2
  }

  predicate BitAt(frame: nat, n: nat) { Shifted(frame, n) % 2 == 1 }

  function Symbols(frame: nat): (s: seq<Symbol>)
    ensures |s| == FRAME_BITS
  {
    seq(FRAME_BITS, i requires 0 <= i < FRAME_BITS => SymbolFor(BitAt(frame, 15 - i)))
  }

  /** What an ESC reads from the pulses: long pulses are ones, the first bit is the highest. */
  function Decode(s: seq<Symbol>): nat {
    if s == [] then 0
    else 2 * Decode(s[..|s| - 1]) + if s[|s| - 1].duration0 == T1H then 1 else 0
  }

  function Pow2(n: nat): nat { if n == 0 then 1 else 2 * Pow2(n - 1) }

  lemma {:induction false} ShiftedOut(frame: nat, n: nat, width: nat)
    requires frame < Pow2(width) && n <= width
    ensures Shifted(frame, n) < Pow2(width - n)
  {
    if n > 0 {
      ShiftedOut(frame, n - 1, width);
    }
  }

  lemma {:induction false} DecodePrefix(frame: nat, k: nat)
    requires frame < Pow2(FRAME_BITS) && k <= FRAME_BITS
    ensures Decode(Symbols(frame)[..k]) == Shifted(frame, FRAME_BITS - k)
  {
    if k == 0 {
      ShiftedOut(frame, FRAME_BITS, FRAME_BITS);
    } else {
      DecodePrefix(frame, k - 1);
      assert Symbols(frame)[..k][..k - 1] == Symbols(frame)[..k - 1];
    }
  }

  lemma FrameWidth()
    ensures Pow2(FRAME_BITS) == 0x1_0000
  {
    assert Pow2(4) == 16;
    assert Pow2(8) == 256;
    assert Pow2(12) == 4096;
  }

  /** The sixteen pulses spell the frame. */
  lemma PulsesSpellFrame(frame: nat)
    requires frame < 0x1_0000
    ensures Decode(Symbols(frame)) == frame
  {
    FrameWidth();
    DecodePrefix(frame, FRAME_BITS);
    assert Symbols(frame)[..FRAME_BITS] == Symbols(frame);
  }

  /** Shifted by n is the quotient by 2^n. */
  lemma {:induction false} ShiftedIs(frame: nat, n: nat)
    ensures Pow2(n) * Shifted(frame, n) <= frame < Pow2(n) * (Shifted(frame, n) + 1)
  {
    if n > 0 {
      ShiftedIs(frame, n - 1);
      Halved(frame, Pow2(n - 1), Shifted(frame, n - 1));
    }
  }

  lemma Halved(frame: nat, unit: nat, q: nat)
    requires unit * q <= frame < unit * (q + 1)
    ensures 2 * unit * (q / 2) <= frame < 2 * unit * (q / 2 + 1)
  {
    var r := q % 2;
    assert q == 2 * (q / 2) + r;
    assert unit * q == 2 * unit * (q / 2) + unit * r;
    if r == 0 {
      assert unit * (q + 1) == 2 * unit * (q / 2) + unit;
    } else {
      assert unit * (q + 1) == 2 * unit * (q / 2) + 2 * unit;
    }
  }

  /** Pulse i shows the frame's bit of weight 2^(15 - i): high and then low, for 50 and 17 ticks if it is
      one, for 25 and 42 if it is zero. */
  lemma PulseShape(frame: nat, i: nat)
    requires i < 16
    ensures var q := Shifted(frame, 15 - i);
      && Pow2(15 - i) * q <= frame < Pow2(15 - i) * (q + 1)
      && Symbols(frame)[i] == if q % 2 == 1 then Symbol(50, true, 17, false) else Symbol(25, true, 42, false)
  {
    ShiftedIs(frame, 15 - i);
  }

  /* ---------- Motors ---------- */

  /** One DShot channel. `transmitted` is what has been handed to the peripheral so far. */
  class Motor {
    var ready: bool
    var telemetryRequest: bool
    var throttleValue: nat
    const syms: array<Symbol>
    var transmitted: seq<seq<Symbol>>

    constructor (ready: bool)
      ensures this.ready == ready && syms.Length == FRAME_BITS && fresh(syms) && transmitted == []
    {
      this.ready, telemetryRequest, throttleValue, transmitted := ready, false, 0, [];
      syms := new Symbol[FRAME_BITS](i => SymbolFor(false));
    }

    /** What an ESC last read on this channel, throttle and telemetry bit. */
    ghost predicate Drives(throttle: nat)
      reads this
    {
      transmitted != [] && Decode(transmitted[|transmitted| - 1]) / 32 == throttle
    }

    /** fc_dshot_set_throttle, on a channel that may not exist. */
    method SetThrottle(throttle: nat)
      requires syms.Length == FRAME_BITS
      modifies this`throttleValue, this`transmitted, syms
      ensures !ready ==> throttleValue == old(throttleValue) && transmitted == old(transmitted)
      ensures ready ==>
        && throttleValue == Clip(throttle) && Drives(Clip(throttle))
        && |transmitted| == |old(transmitted)| + 1 && transmitted[..|old(transmitted)|] == old(transmitted)
        && (exists frame: nat :: frame < 0x1_0000 && transmitted[|old(transmitted)|] == Symbols(frame))
        && Decode(transmitted[|old(transmitted)|]) / 16 % 2 == if telemetryRequest then 1 else 0
    {
      hide Decode, Rounds, Shifted, SymbolFor;
      if !ready {
        return;
      }
      var thr := throttle;
      if thr > THROTTLE_MAX {
        thr := THROTTLE_MAX;
      }
      if thr < THROTTLE_MIN {
        thr := THROTTLE_MIN;
      }
      throttleValue := thr;
      var frame := EncodeFrame(thr, telemetryRequest);
      for i := 0 to FRAME_BITS
        invariant throttleValue == thr && transmitted == old(transmitted)
        invariant forall k :: 0 <= k < i ==> syms[k] == SymbolFor(BitAt(frame, 15 - k))
      {
        syms[i] := SymbolFor(Shifted(frame, 15 - i) % 2 == 1);
      }
      var payload := syms[..];
      assert payload == Symbols(frame);
      PulsesSpellFrame(frame);
      transmitted := transmitted + [payload];
    }
  }

  /** Four channels, no two sharing state. */
  ghost predicate Bank(motors: seq<Motor>) {
    && |motors| == MOTORS && (forall i :: 0 <= i < MOTORS ==> motors[i].syms.Length == FRAME_BITS)
    && forall i, j :: 0 <= i < j < MOTORS ==> motors[i] != motors[j] && motors[i].syms != motors[j].syms
  }

  /** fc_mixer_apply: one new transmission per existing channel, carrying its control's throttle. */
  method MixerApply(output: seq<Float>, motors: seq<Motor>)
    requires Bank(motors) && |output| == MOTORS && forall i :: 0 <= i < MOTORS ==> !output[i].NaN?
    modifies set m | m in motors, set m | m in motors :: m.syms
    ensures forall i :: 0 <= i < MOTORS ==>
      && motors[i].ready == old(motors[i].ready)
      && (motors[i].ready ==> motors[i].Drives(ThrottleFor(output[i])) && |motors[i].transmitted| == |old(motors[i].transmitted)| + 1)
      && (!motors[i].ready ==> motors[i].transmitted == old(motors[i].transmitted))
    ensures forall i :: 0 <= i < 4 && motors[i].ready && output[i].Num? && 0.0 <= output[i].r <= 1.0 ==>
      motors[i].Drives((48.0 + 1999.0 * output[i].r).Floor)
  {
    hide Decode;
    for i := 0 to MOTORS
      invariant forall k :: 0 <= k < MOTORS ==> motors[k].ready == old(motors[k].ready)
      invariant forall k :: i <= k < MOTORS ==> motors[k].transmitted == old(motors[k].transmitted)
      invariant forall k :: 0 <= k < i ==>
        && (motors[k].ready ==> motors[k].Drives(ThrottleFor(output[k])) && |motors[k].transmitted| == |old(motors[k].transmitted)| + 1)
        && (!motors[k].ready ==> motors[k].transmitted == old(motors[k].transmitted))
    {
      var n := output[i];
      if n.NegInf? || (n.Num? && n.r < 0.0) {
        n := Num(0.0);
      }
      if n.PosInf? || (n.Num? && n.r > 1.0) {
        n := Num(1.0);
      }
      assert n.r == Clamped(output[i]);
      var thr := (THROTTLE_MIN as real + n.r * ((THROTTLE_MAX - THROTTLE_MIN) as real)).Floor;
      assert thr == ThrottleFor(output[i]);
      ThrottleShape(output[i], output[i]);
      motors[i].SetThrottle(thr);
    }
  }

  /** The motor-output block of fc_task_main, after the read and the clock: what each existing channel
      drives is what the freshness test and the guard allow. */
  method DriveMotors(ok: bool, mc: Command, now: nat, motors: seq<Motor>)
    requires Bank(motors) && IsCommand(mc)
    modifies set m | m in motors, set m | m in motors :: m.syms
    ensures forall i :: 0 <= i < MOTORS ==> motors[i].ready == old(motors[i].ready)
    ensures forall i :: 0 <= i < 4 && motors[i].ready ==>
      motors[i].Drives(if ok && mc.valid && 0 <= now - mc.timeUs < 100_000 then ThrottleFor(mc.motor[i]) else 48)
  {
    var age := now - mc.timeUs;
    var mcFresh := ok && mc.valid && age >= 0 && age < MAX_AGE_US;
    var mo: seq<Float> := Idle();
    for i := 0 to MOTORS
      invariant |mo| == MOTORS && forall k :: 0 <= k < i ==> mo[k] == Guarded(ok, mc, now)[k]
      invariant forall k :: 0 <= k < MOTORS ==> motors[k].ready == old(motors[k].ready)
    {
      var v := if mcFresh then mc.motor[i] else ZERO;
      if v.NaN? {
        v := ZERO;
      }
      mo := mo[i := v];
    }
    forall i | 0 <= i < MOTORS
      ensures ThrottleFor(mo[i]) == if ok && mc.valid && 0 <= now - mc.timeUs < 100_000 then ThrottleFor(mc.motor[i]) else 48
    {
      ThrottlesAre(ok, mc, now, i);
    }
    MixerApply(mo, motors);
  }
}
