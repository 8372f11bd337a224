/** Programming through the bootloader (px4_uploader.py), with acknowledgements read one by one or in windows. */
module Uploader {
  import opened Bytes

  const INSYNC: byte := 0x12
  const OK: byte := 0x10
  const FAILED: byte := 0x11
  const INVALID: byte := 0x13
  const BAD_SILICON_REV: byte := 0x14
  const EOC: byte := 0x20
  const PROG_MULTI: byte := 0x27
  const PROG_MULTI_MAX := 252
  const WINDOW_CHUNKS := 256

  /* ---------- Chunks and frames ---------- */

  function Chunks(image: seq<byte>): (c: seq<seq<byte>>)
    ensures forall i :: 0 <= i < |c| ==> 0 < |c[i]| <= PROG_MULTI_MAX
  {
    if image == [] then []
    else if |image| <= PROG_MULTI_MAX then [image]
    else [image[..PROG_MULTI_MAX]] + Chunks(image[PROG_MULTI_MAX..])
  }

  function Frame(chunk: seq<byte>): seq<byte>
    requires |chunk| < 256
  {
    [PROG_MULTI, |chunk|] + chunk + [EOC]
  }

  function Payload(frame: seq<byte>): seq<byte> { if |frame| >= 3 then frame[2..|frame| - 1] else [] }

  /** What the bootloader flashes: the payloads of the frames it gets, one after the other. */
  function Flashed(frames: seq<seq<byte>>): seq<byte> {
    if frames == [] then []
    else Flashed(frames[..|frames| - 1]) + Payload(frames[|frames| - 1])
  }

  function Frames(chunks: seq<seq<byte>>): (f: seq<seq<byte>>)
    requires forall i :: 0 <= i < |chunks| ==> |chunks[i]| < 256
    ensures |f| == |chunks| && forall i :: 0 <= i < |f| ==> f[i] == Frame(chunks[i])
  {
    seq(|chunks|, i requires 0 <= i < |chunks| => Frame(chunks[i]))
  }

  lemma {:induction false} FlashedConcat(a: seq<seq<byte>>, b: seq<seq<byte>>)
    ensures Flashed(a + b) == Flashed(a) + Flashed(b)
  {
    hide Payload;
    if b == [] {
      assert a + b == a;
    } else {
      FlashedConcat(a, b[..|b| - 1]);
      assert (a + b)[..|a + b| - 1] == a + b[..|b| - 1];
    }
  }

  lemma FlashedOne(chunk: seq<byte>)
    requires |chunk| < 256
    ensures Flashed([Frame(chunk)]) == chunk
  {
    assert [Frame(chunk)][..0] == [];
  }

  lemma FlashedFirst(first: seq<byte>, rest: seq<seq<byte>>)
    requires |first| < 256 && forall i :: 0 <= i < |rest| ==> |rest[i]| < 256
    ensures Flashed(Frames([first] + rest)) == first + Flashed(Frames(rest))
  {
    hide Flashed, Frame;
    FlashedOne(first);
    assert Frames([first] + rest) == [Frame(first)] + Frames(rest);
    FlashedConcat([Frame(first)], Frames(rest));
  }

  /** The frames for an image flash exactly that image. */
  lemma {:induction false} FlashesImage(image: seq<byte>)
    ensures Flashed(Frames(Chunks(image))) == image
  {
    hide Frames, Frame, Payload;
    if image == [] {
    } else if |image| <= PROG_MULTI_MAX {
      FlashedFirst(image, []);
      assert [image] + [] == [image];
    } else {
      var first, rest := image[..PROG_MULTI_MAX], image[PROG_MULTI_MAX..];
      FlashesImage(rest);
      FlashedFirst(first, Chunks(rest));
      assert image == first + rest;
    }
  }

  /** Frame i is the command 0x27, a length byte, at most 252 bytes of the image from 252 * i on, as many
      as are left, and 0x20; and there is one for every 252 bytes or part of them. */
  lemma {:induction false} FrameAt(image: seq<byte>, i: nat)
    requires i < |Chunks(image)|
    ensures 252 * i < |image| && 252 * (|Chunks(image)| - 1) < |image| <= 252 * |Chunks(image)|
    ensures var n := if |image| - 252 * i < 252 then |image| - 252 * i else 252;
      Frames(Chunks(image))[i] == [0x27, n] + image[252 * i..252 * i + n] + [0x20]
  {
    if |image| > 252 {
      var rest := image[252..];
      FrameAt(rest, if i == 0 then 0 else i - 1);
      if i > 0 {
        var n := if |image| - 252 * i < 252 then |image| - 252 * i else 252;
        assert rest[252 * (i - 1)..252 * (i - 1) + n] == image[252 * i..252 * i + n];
      }
    }
  }

  /* ---------- Acknowledgements ---------- */

  predicate PairAt(incoming: seq<byte>, i: int) {
    0 <= 2 * i && 2 * i + 1 < |incoming| && incoming[2 * i] == INSYNC && incoming[2 * i + 1] == OK
  }

  /** The bytes to come begin with n pairs of INSYNC and OK. */
  predicate Acked(incoming: seq<byte>, n: nat) {
    2 * n <= |incoming| && forall i :: 0 <= i < n ==> PairAt(incoming, i)
  }

  lemma PairLater(incoming: seq<byte>, m: nat, i: nat)
    requires 2 * m <= |incoming|
    ensures PairAt(incoming[2 * m..], i) <==> PairAt(incoming, m + i)
  {}

  lemma AckedSplit(incoming: seq<byte>, m: nat, n: nat)
    requires 2 * m <= |incoming|
    ensures Acked(incoming, m + n) <==> Acked(incoming, m) && Acked(incoming[2 * m..], n)
  {
    var rest := incoming[2 * m..];
    forall i | 0 <= i < n ensures PairAt(rest, i) <==> PairAt(incoming, m + i) {
      PairLater(incoming, m, i);
    }
    if Acked(incoming, m) && Acked(rest, n) {
      forall i | 0 <= i < m + n ensures PairAt(incoming, i) {
        if i >= m {
          assert PairAt(rest, i - m);
        }
      }
    }
  }

  /** The pairs are 0x12, 0x10. */
  lemma AckedIs(incoming: seq<byte>, n: nat)
    ensures Acked(incoming, n) <==>
      2 * n <= |incoming| && forall i :: 0 <= i < n ==> incoming[2 * i] == 0x12 && incoming[2 * i + 1] == 0x10
  {
    if 2 * n <= |incoming| {
      forall i | 0 <= i < n ensures PairAt(incoming, i) <==> incoming[2 * i] == 0x12 && incoming[2 * i + 1] == 0x10 {}
    }
  }

  lemma AckedOne(incoming: seq<byte>)
    ensures Acked(incoming, 1) <==> PairAt(incoming, 0)
  {}

  /** How one exchange, or the whole upload, ended: normally or with one of the exceptions. */
  datatype Outcome = Fine | TimedOut | NotInSync | InvalidOperation | OperationFailed | SiliconErrata | NotOk

  /** What is wrong with pair n, when the pairs before it are good. */
  function Complaint(incoming: seq<byte>, n: nat): Outcome
    requires 2 * n + 1 < |incoming|
  {
    if incoming[2 * n] != 0x12 then NotInSync
    else match incoming[2 * n + 1]
      case 0x10 => Fine
      case 0x13 => InvalidOperation
      case 0x11 => OperationFailed
      case _ => NotOk
  }

  class BootloaderProtocol {
    const windowedMode: bool
    var windowSize: nat
    var sent: seq<seq<byte>>
    var incoming: seq<byte>

    constructor (windowed: bool, incoming: seq<byte>)
      ensures windowedMode == windowed && windowSize == 0 && sent == [] && this.incoming == incoming
    {
      windowedMode, windowSize, sent := windowed, 0, [];
      this.incoming := incoming;
    }

    /** The transport's recv: all the bytes asked for, or a timeout. */
    method Recv(count: nat) returns (data: Option<seq<byte>>)
      modifies `incoming
      ensures data.Some? <==> count <= |old(incoming)|
      ensures data.Some? ==> data.value == old(incoming)[..count] && incoming == old(incoming)[count..]
    {
      if count > |incoming| {
        return None;
      }
      data := Some(incoming[..count]);
      incoming := incoming[count..];
    }

    /** _get_sync, without flushing */
    method GetSync() returns (r: Outcome)
      modifies `incoming
      ensures r.Fine? <==> Acked(old(incoming), 1)
      ensures r.Fine? ==> incoming == old(incoming)[2..]
      ensures |old(incoming)| == 0 ==> r.TimedOut?
      ensures |old(incoming)| > 0 && old(incoming)[0] != 0x12 ==> r.NotInSync?
      ensures |old(incoming)| == 1 && old(incoming)[0] == 0x12 ==> r.TimedOut?
      ensures |old(incoming)| > 1 && old(incoming)[0] == 0x12 ==>
        r == match old(incoming)[1] case 0x10 => Fine case 0x13 => InvalidOperation case 0x11 => OperationFailed case 0x14 => SiliconErrata case _ => NotOk
    {
      AckedOne(incoming);
      var insync := Recv(1);
      if insync.None? {
        return TimedOut;
      }
      if insync.value[0] != INSYNC {
        return NotInSync;
      }
      var result := Recv(1);
      if result.None? {
        return TimedOut;
      }
      if result.value[0] == INVALID {
        return InvalidOperation;
      }
      if result.value[0] == FAILED {
        return OperationFailed;
      }
      if result.value[0] == BAD_SILICON_REV {
        return SiliconErrata;
      }
      if result.value[0] != OK {
        return NotOk;
      }
      return Fine;
    }

    /** _validate_sync_window */
    method ValidateSyncWindow(count: nat) returns (r: Outcome)
      requires count % 2 == 0
      modifies `incoming
      ensures r.Fine? <==> Acked(old(incoming), count / 2)
      ensures r.Fine? ==> incoming == old(incoming)[count..]
      ensures |old(incoming)| < count <==> r.TimedOut?
      ensures !r.Fine? && !r.TimedOut? ==> exists n: nat :: 2 * n + 1 < count && Acked(old(incoming), n) && r == Complaint(old(incoming), n)
    {
      if count == 0 {
        return Fine;
      }
      var data := Recv(count);
      if data.None? {
        return TimedOut;
      }
      var d := data.value;
      ghost var n := 0;
      var i := 0;
      while i < |d|
        invariant i == 2 * n <= |d| && |d| == count && d == old(incoming)[..count] && incoming == old(incoming)[count..]
        invariant Acked(old(incoming), n)
      {
        assert PairAt(old(incoming), n) <==> d[i] == INSYNC && d[i + 1] == OK;
        if d[i] != INSYNC {
          return NotInSync;
        }
        if d[i + 1] == INVALID {
          return InvalidOperation;
        }
        if d[i + 1] == FAILED {
          return OperationFailed;
        }
        if d[i + 1] != OK {
          return NotOk;
        }
        i, n := i + 2, n + 1;
      }
      return Fine;
    }

    /** _program_multi */
    method ProgramMulti(data: seq<byte>)
      requires |data| < 256
      modifies `sent
      ensures sent == old(sent) + [Frame(data)]
    {
      var cmd: seq<byte> := [PROG_MULTI, |data|] + data;
      cmd := cmd + [EOC];
      sent := sent + [cmd];
    }

    /** Acknowledgements still due from before, when windows are used. */
    ghost function Due(): nat
      reads `windowSize
    {
      if windowedMode then windowSize / 2 else 0
    }

    /** After chunk `sending` has been sent: the acknowledgement is read at once, or, when windows are
        used, with those of up to 256 chunks. `taken` pairs had been read before. */
    method Acknowledge(sending: nat, ghost answers: seq<byte>, ghost taken: nat) returns (r: Outcome, ghost now: nat)
      requires windowSize % 2 == 0 && Reading(answers, taken)
      modifies `windowSize, `incoming
      ensures r.Fine? ==> windowSize % 2 == 0 && Reading(answers, now) && now + Due() == taken + old(Due()) + 1
      ensures !windowedMode ==> windowSize == old(windowSize)
      ensures windowedMode && r.Fine? ==> windowSize == if (sending + 1) % 256 == 0 then 0 else old(windowSize) + 2
      ensures !r.Fine? ==> !Acked(answers, taken + old(Due()) + 1)
    {
      hide Acked;
      now := taken;
      if windowedMode {
        windowSize := windowSize + 2;
        if (sending + 1) % WINDOW_CHUNKS == 0 {
          r, now := EmptyWindow(answers, taken);
        } else {
          r := Fine;
        }
      } else {
        AckedSplit(answers, taken, 1);
        r := GetSync();
        now := taken + 1;
        if r.Fine? {
          AckedEnough(answers, now);
        }
      }
    }

    /** The acknowledgements of a window, all at once. */
    method EmptyWindow(ghost answers: seq<byte>, ghost taken: nat) returns (r: Outcome, ghost now: nat)
      requires windowedMode && windowSize % 2 == 0 && Reading(answers, taken)
      modifies `windowSize, `incoming
      ensures r.Fine? ==> windowSize == 0 && now == taken + old(Due()) && Reading(answers, now)
      ensures !r.Fine? ==> !Acked(answers, taken + old(Due()))
    {
      hide Acked;
      AckedSplit(answers, taken, windowSize / 2);
      now := taken + windowSize / 2;
      r := ValidateSyncWindow(windowSize);
      if r.Fine? {
        AckedEnough(answers, now);
        windowSize := 0;
      }
    }

    /** `taken` good pairs of the answers have been read, the rest is to come. */
    ghost predicate Reading(answers: seq<byte>, taken: nat)
      reads `incoming
    {
      2 * taken <= |answers| && incoming == answers[2 * taken..] && Acked(answers, taken)
    }

    /** program: in both modes the upload succeeds exactly when the bytes to come begin with one INSYNC, OK
        pair for every chunk (and for every one still due); then it has sent the image's frames and
        nothing else, and used up exactly those bytes. If it fails it has sent a part of the frames. */
    method Program(image: seq<byte>) returns (r: Outcome)
      requires windowSize % 2 == 0
      modifies `windowSize, `sent, `incoming
      ensures r.Fine? <==> Acked(old(incoming), old(Due()) + |Chunks(image)|)
      ensures r.Fine? ==> Due() == 0 && sent == old(sent) + Frames(Chunks(image)) && Reading(old(incoming), old(Due()) + |Chunks(image)|)
      ensures exists n :: 0 <= n <= |Chunks(image)| && sent == old(sent) + Frames(Chunks(image))[..n]
    {
      hide Acked, Chunks;
      var chunks := Chunks(image);
      ghost var frames := Frames(chunks);
      ghost var answers, due := incoming, Due();
      ghost var taken: nat := 0;
      AckedNone(answers);
      assert sent == old(sent) + frames[..0];
      for i := 0 to |chunks|
        invariant windowSize % 2 == 0 && sent == old(sent) + frames[..i]
        invariant Reading(answers, taken) && taken + Due() == due + i
      {
        ProgramMulti(chunks[i]);
        assert sent == old(sent) + frames[..i + 1];
        r, taken := Acknowledge(i, answers, taken);
        if !r.Fine? {
          AckedFewer(answers, due + i + 1, due + |chunks|);
          return;
        }
      }
      assert frames[..|chunks|] == frames;
      if windowedMode && windowSize > 0 {
        r, taken := EmptyWindow(answers, taken);
        if !r.Fine? {
          return;
        }
      }
      return Fine;
    }
  }

  lemma AckedNone(incoming: seq<byte>)
    ensures Acked(incoming, 0)
  {}

  lemma AckedEnough(incoming: seq<byte>, n: nat)
    requires Acked(incoming, n)
    ensures 2 * n <= |incoming|
  {}

  lemma AckedFewer(incoming: seq<byte>, m: nat, n: nat)
    requires m <= n
    ensures Acked(incoming, n) ==> Acked(incoming, m)
  {}

  /** Whatever the bootloader will answer, both modes accept the same uploads, and after an accepted one
      the flash holds the image. */
  method BothModes(image: seq<byte>, answers: seq<byte>) returns (single: Outcome, windowed: Outcome, flash: seq<byte>)
    ensures single.Fine? <==> windowed.Fine?
    ensures single.Fine? <==> Acked(answers, |Chunks(image)|)
    ensures windowed.Fine? ==> flash == image
  {
    hide Acked, Chunks, Frames;
    var p := new BootloaderProtocol(false, answers);
    single := p.Program(image);
    var q := new BootloaderProtocol(true, answers);
    windowed := q.Program(image);
    flash := Flashed(q.sent);
    FlashesImage(image);
    if windowed.Fine? {
      assert q.sent == Frames(Chunks(image));
    }
  }
}
