/**
 * The frame counter the metadata path keeps: outside AUTO trigger it counts
 * calls; in AUTO trigger it estimates how many frames the camera produced from
 * the clock ticks elapsed since the last baseline.
 */
module FrameSequence {

  /** `UCA_CAMERA_TRIGGER_SOURCE_AUTO`, the first trigger source of libuca. */
  const TriggerAuto: int := 0

  /** The counter fields of the camera's private state. */
  datatype SequenceState = SequenceState(frameNumber: int, lastFrameNumber: int, lastFrameClock: int)

  /** The camera settings the estimate reads. */
  datatype ClockSettings = ClockSettings(
    triggerMode: int, frameRate: real, accumulateCount: nat, clockFrequency: nat)

  /** The counters of a freshly constructed camera. */
  const Initial: SequenceState := SequenceState(0, 0, 0)

  /** Settings the estimate can divide by: positive clock frequency and accumulate count. */
  predicate Usable(settings: ClockSettings)
  {
    settings.clockFrequency > 0 && settings.accumulateCount > 0
  }

  /** A C conversion of a `double` to `gint`: truncation toward zero. */
  function Trunc(x: real): (n: int)
    ensures x >= 0.0 ==> n >= 0 && n as real <= x < n as real + 1.0
    ensures x < 0.0 ==> n <= 0 && n as real - 1.0 < x <= n as real
  {
    if x >= 0.0 then x.Floor else -((-x).Floor)
  }

  /** Frames elapsed between clock values, at `frameRate` frames per second of `accumulateCount` images. */
  function ElapsedFrames(settings: ClockSettings, ticks: int): real
    requires Usable(settings)
  {
    (ticks as real / settings.clockFrequency as real) * settings.frameRate / settings.accumulateCount as real
  }

  /**
   * The counters after one frame with clock value `timestamp`. Only a later AUTO
   * frame divides by the clock frequency and the accumulate count.
   */
  function NextFrame(st: SequenceState, settings: ClockSettings, timestamp: int): (r: SequenceState)
    requires settings.triggerMode == TriggerAuto && st.lastFrameNumber != 0 ==> Usable(settings)
    ensures settings.triggerMode != TriggerAuto ==>
      r.frameNumber == st.frameNumber + 1 &&
      r.lastFrameNumber == st.lastFrameNumber && r.lastFrameClock == st.lastFrameClock
    ensures settings.triggerMode == TriggerAuto ==>
      r.frameNumber == r.lastFrameNumber && r.lastFrameClock == timestamp
    ensures settings.triggerMode == TriggerAuto && st.lastFrameNumber == 0 ==> r.frameNumber == 1
    // later AUTO frames add the whole number of frame periods since the baseline
    ensures settings.triggerMode == TriggerAuto && st.lastFrameNumber != 0 ==>
      var elapsed := ElapsedFrames(settings, timestamp - st.lastFrameClock);
      var added := (r.frameNumber - st.lastFrameNumber) as real;
      (elapsed >= 0.0 ==> added <= elapsed < added + 1.0) &&
      (elapsed < 0.0 ==> added - 1.0 < elapsed <= added)
  {
    if settings.triggerMode == TriggerAuto then
      if st.lastFrameNumber == 0 then
        SequenceState(1, 1, timestamp)
      else
        var frameNumber := st.lastFrameNumber + Trunc(ElapsedFrames(settings, timestamp - st.lastFrameClock));
        SequenceState(frameNumber, frameNumber, timestamp)
    else
      st.(frameNumber := st.frameNumber + 1)
  }

  /** The counters after one frame per clock value in `timestamps`, in order. */
  function Run(st: SequenceState, settings: ClockSettings, timestamps: seq<int>): SequenceState
    requires settings.triggerMode == TriggerAuto ==> Usable(settings)
    decreases |timestamps|
  {
    if timestamps == [] then st
    else Run(NextFrame(st, settings, timestamps[0]), settings, timestamps[1..])
  }

  /** Outside AUTO trigger, `n` frames add exactly `n` and leave the baseline alone. */
  lemma {:induction false} CountingRun(st: SequenceState, settings: ClockSettings, timestamps: seq<int>)
    requires settings.triggerMode != TriggerAuto
    ensures Run(st, settings, timestamps) ==
      st.(frameNumber := st.frameNumber + |timestamps|)
    decreases |timestamps|
  {
    if timestamps != [] {
      CountingRun(NextFrame(st, settings, timestamps[0]), settings, timestamps[1..]);
    }
  }

  /** In AUTO trigger a frame whose clock value is not earlier than the baseline never lowers the count. */
  lemma AutoStepMonotone(st: SequenceState, settings: ClockSettings, timestamp: int)
    requires Usable(settings) && settings.triggerMode == TriggerAuto && settings.frameRate >= 0.0
    requires st.frameNumber == st.lastFrameNumber && st.lastFrameNumber >= 0
    requires st.lastFrameNumber != 0 ==> timestamp >= st.lastFrameClock
    ensures NextFrame(st, settings, timestamp).frameNumber >= st.frameNumber
  {
    if st.lastFrameNumber != 0 {
      var ticks := timestamp - st.lastFrameClock;
      var q := ticks as real / settings.clockFrequency as real;
      assert q >= 0.0;
      assert q * settings.frameRate >= 0.0;
    }
  }

  /** Clock values that never go back in time. */
  predicate Ascending(timestamps: seq<int>)
  {
    forall i, j :: 0 <= i < j < |timestamps| ==> timestamps[i] <= timestamps[j]
  }

  /**
   * In AUTO trigger, from counters that agree with their baseline (as at
   * construction), a run over ascending clock values that start at or after the
   * baseline ends with a count no lower than the start, and with counters that
   * again agree with their baseline.
   */
  lemma {:induction false} AutoRunMonotone(st: SequenceState, settings: ClockSettings, timestamps: seq<int>)
    requires Usable(settings) && settings.triggerMode == TriggerAuto && settings.frameRate >= 0.0
    requires st.frameNumber == st.lastFrameNumber && st.lastFrameNumber >= 0
    requires Ascending(timestamps)
    requires st.lastFrameNumber != 0 && timestamps != [] ==> timestamps[0] >= st.lastFrameClock
    ensures var r := Run(st, settings, timestamps);
      r.frameNumber >= st.frameNumber && r.frameNumber == r.lastFrameNumber
    decreases |timestamps|
  {
    if timestamps != [] {
      AutoStepMonotone(st, settings, timestamps[0]);
      var next := NextFrame(st, settings, timestamps[0]);
      assert next.lastFrameClock == timestamps[0];
      var rest := timestamps[1..];
      assert Ascending(rest) by {
        forall i, j | 0 <= i < j < |rest| ensures rest[i] <= rest[j] {
          assert rest[i] == timestamps[i + 1] && rest[j] == timestamps[j + 1];
        }
      }
      if rest != [] {
        assert rest[0] == timestamps[1];
      }
      AutoRunMonotone(next, settings, rest);
    }
  }

  /**
   * The clock frequency and the accumulate count as the plugin holds them: no line
   * assigns either, so both keep the zero of the zero-filled private state. In AUTO
   * trigger the first frame only sets the baseline, and the second frame's
   * estimate then divides by that zero clock frequency.
   */
  lemma AutoDividesByZeroAsWritten(frameRate: real, firstClock: int)
    ensures var settings := ClockSettings(TriggerAuto, frameRate, 0, 0);
      var afterFirst := NextFrame(Initial, settings, firstClock);
      afterFirst.lastFrameNumber != 0 && settings.clockFrequency == 0 && !Usable(settings)
  {
  }

  /**
   * 30 frames per second, one image per frame, a 1 MHz clock, and 500000 ticks
   * since the baseline: half a second is 15 more frames.
   */
  lemma AutoEstimateExample()
    ensures NextFrame(SequenceState(1, 1, 0), ClockSettings(TriggerAuto, 30.0, 1, 1_000_000), 500_000)
      == SequenceState(16, 16, 500_000)
  {
    var settings := ClockSettings(TriggerAuto, 30.0, 1, 1_000_000);
    assert ElapsedFrames(settings, 500_000) == 15.0;
  }
}
