/**
 * Access checks and range-checked writes on camera features. The SDK is an
 * oracle: a `Feature` holds what each query on one feature would return.
 */
module FeatureAccess {
  import opened AndorErrors
  import opened Bytes

  /** The `access` argument of the access check. */
  const AccessWrite: int := 0
  const AccessRead: int := 1

  datatype Option<T> = None | Some(value: T)

  /** What one SDK query returns: a status and, when the status is `Success`, a value. */
  datatype Query<T> = Query(status: int, value: T)

  /** The answers the SDK gives for one feature. */
  datatype Feature = Feature(
    isImplemented: Query<bool>,
    isReadable: Query<bool>,
    isReadOnly: Query<bool>,
    isWritable: Query<bool>,
    intMin: Query<int>,     // AT_64
    intMax: Query<int>,     // AT_64
    enumCount: Query<int>,  // int
    setStatus: int)         // what AT_SetInt / AT_SetEnumIndex return

  /** A query that succeeds with `expected`. */
  predicate Answers(q: Query<bool>, expected: bool)
  {
    q.status == Success && q.value == expected
  }

  /**
   * When access is granted: the feature is implemented, and it is readable for a
   * read; not read-only and writable for a write. Any other access mode only
   * needs the feature to be implemented.
   */
  predicate AccessAllowed(f: Feature, access: int)
  {
    Answers(f.isImplemented, true) &&
    (access == AccessRead ==> Answers(f.isReadable, true)) &&
    (access == AccessWrite ==> Answers(f.isReadOnly, false) && Answers(f.isWritable, true))
  }

  /** Which message, if any, the check logs. */
  datatype Warning =
    | NoWarning
    | NotReadable | ReadOnly | NotWritable | NotImplemented
    | AccessNotRecognised
    | QueryFailed(status: int)
    | OutOfRange(min: int, max: int)   // a writer's value outside [min, max]

  datatype Decision = Decision(granted: bool, warning: Warning)

  /**
   * The access check. `warn` and `isSimCam` only decide whether refusals are
   * logged; query failures and unknown modes are always logged.
   */
  function CheckAccess(f: Feature, access: int, warn: bool, isSimCam: bool): (d: Decision)
    ensures d.granted <==> AccessAllowed(f, access)
    ensures d.warning.QueryFailed? ==> !d.granted && d.warning.status != Success
    ensures d.warning == AccessNotRecognised <==>
      d.granted && access != AccessRead && access != AccessWrite
    ensures d.warning in {NotReadable, ReadOnly, NotWritable} ==> warn && !d.granted
    ensures d.warning == NotImplemented <==> Answers(f.isImplemented, false) && warn && !(isSimCam && access == AccessRead)
  {
    var imp := f.isImplemented;
    if imp.status == Success && imp.value then
      if access == AccessRead then
        var rd := f.isReadable;
        if rd.status == Success && !rd.value then Decision(false, if warn then NotReadable else NoWarning)
        else if rd.status != Success then Decision(false, QueryFailed(rd.status))
        else Decision(true, NoWarning)
      else if access == AccessWrite then
        var ro := f.isReadOnly;
        if ro.status == Success && ro.value then Decision(false, if warn then ReadOnly else NoWarning)
        else if ro.status != Success then Decision(false, QueryFailed(ro.status))
        else
          var wr := f.isWritable;
          if wr.status == Success && !wr.value then Decision(false, if warn then NotWritable else NoWarning)
          else if wr.status != Success then Decision(false, QueryFailed(wr.status))
          else Decision(true, NoWarning)
      else Decision(true, AccessNotRecognised)
    else if imp.status == Success && !imp.value then
      Decision(false, if warn && !(isSimCam && access == AccessRead) then NotImplemented else NoWarning)
    else
      Decision(false, QueryFailed(imp.status))
  }

  /** The decision never depends on `warn` or on whether the camera is the simulator. */
  lemma GrantIgnoresLogging(f: Feature, access: int, warn1: bool, sim1: bool, warn2: bool, sim2: bool)
    ensures CheckAccess(f, access, warn1, sim1).granted == CheckAccess(f, access, warn2, sim2).granted
  {
  }

  /** What a write helper returns, which value it sent to the device, if any, and what it logged. */
  datatype WriteOutcome<T> = WriteOutcome(ok: bool, issued: Option<T>, warning: Warning)

  /** A C `AT_64` seen as a `guint64`: the same bits, read modulo 2^64. */
  function AsUnsigned64(v: int): (u: nat)
    requires -0x8000_0000_0000_0000 <= v < 0x8000_0000_0000_0000
    ensures u < TwoTo64 && (u - v) % TwoTo64 == 0
  {
    if v < 0 then v + TwoTo64 else v
  }

  /** A C `guint64` passed as an `AT_64`: values from 2^63 up become negative. */
  function AsSigned64(u: nat): (v: int)
    requires u < TwoTo64
    ensures -0x8000_0000_0000_0000 <= v < 0x8000_0000_0000_0000 && AsUnsigned64(v) == u
  {
    if u < 0x8000_0000_0000_0000 then u else u - TwoTo64
  }

  predicate IsInt64(v: int)
  {
    -0x8000_0000_0000_0000 <= v < 0x8000_0000_0000_0000
  }

  /**
   * The range test of the integer writer: the `guint64` value against `AT_64`
   * bounds, which C compares as unsigned 64-bit numbers.
   */
  predicate InIntRange(value: nat, min: int, max: int)
    requires value < TwoTo64 && IsInt64(min) && IsInt64(max)
  {
    !(value < AsUnsigned64(min) || value > AsUnsigned64(max))
  }

  /**
   * Writes an integer feature: access check for writing (with warnings), then
   * the maximum and the minimum are read, the value is range checked, and only
   * then `AT_SetInt` is issued; the result is whether it succeeded.
   */
  function WriteInteger(f: Feature, value: nat, isSimCam: bool): (r: WriteOutcome<int>)
    requires value < TwoTo64 && IsInt64(f.intMin.value) && IsInt64(f.intMax.value)
    ensures r.issued.Some? <==>
      AccessAllowed(f, AccessWrite) && f.intMax.status == Success && f.intMin.status == Success &&
      InIntRange(value, f.intMin.value, f.intMax.value)
    ensures r.issued.Some? ==> IsInt64(r.issued.value) && AsUnsigned64(r.issued.value) == value
    ensures r.ok <==> r.issued.Some? && f.setStatus == Success
    ensures r.warning.OutOfRange? <==>
      AccessAllowed(f, AccessWrite) && f.intMax.status == Success && f.intMin.status == Success &&
      !InIntRange(value, f.intMin.value, f.intMax.value)
    ensures r.warning.OutOfRange? ==> r.warning == OutOfRange(f.intMin.value, f.intMax.value)
  {
    var access := CheckAccess(f, AccessWrite, true, isSimCam);
    if !access.granted then WriteOutcome(false, None, access.warning)
    else if f.intMax.status != Success then WriteOutcome(false, None, QueryFailed(f.intMax.status))
    else if f.intMin.status != Success then WriteOutcome(false, None, QueryFailed(f.intMin.status))
    else if value < AsUnsigned64(f.intMin.value) || value > AsUnsigned64(f.intMax.value) then
      WriteOutcome(false, None, OutOfRange(f.intMin.value, f.intMax.value))
    else if f.setStatus != Success then
      WriteOutcome(false, Some(AsSigned64(value)), QueryFailed(f.setStatus))
    else WriteOutcome(true, Some(AsSigned64(value)), NoWarning)
  }

  /** For nonnegative bounds the unsigned test is the ordinary range [min, max]. */
  lemma NonNegativeBoundsRange(value: nat, min: int, max: int)
    requires value < TwoTo64 && IsInt64(min) && IsInt64(max)
    requires 0 <= min && 0 <= max
    ensures InIntRange(value, min, max) <==> min <= value <= max
  {
  }

  /**
   * A feature whose range straddles zero accepts no value at all: a negative
   * minimum compares as a number of at least 2^63, above every nonnegative maximum.
   */
  lemma StraddlingRangeRejectsAll(value: nat, min: int, max: int)
    requires value < TwoTo64 && IsInt64(min) && IsInt64(max)
    requires min < 0 <= max
    ensures !InIntRange(value, min, max)
  {
  }

  /**
   * Writes an enumerated feature by index: access check for writing, then the
   * count is read, the index must lie in [0, count), and only then
   * `AT_SetEnumIndex` is issued.
   */
  function WriteEnumIndex(f: Feature, value: int, isSimCam: bool): (r: WriteOutcome<int>)
    ensures r.issued.Some? <==>
      AccessAllowed(f, AccessWrite) && f.enumCount.status == Success && 0 <= value < f.enumCount.value
    ensures r.issued.Some? ==> r.issued.value == value
    ensures r.ok <==> r.issued.Some? && f.setStatus == Success
    ensures r.warning.OutOfRange? <==>
      AccessAllowed(f, AccessWrite) && f.enumCount.status == Success && !(0 <= value < f.enumCount.value)
    ensures r.warning.OutOfRange? ==> r.warning == OutOfRange(0, f.enumCount.value - 1)
  {
    var access := CheckAccess(f, AccessWrite, true, isSimCam);
    if !access.granted then WriteOutcome(false, None, access.warning)
    else if f.enumCount.status != Success then WriteOutcome(false, None, QueryFailed(f.enumCount.status))
    else if value >= f.enumCount.value || value < 0 then
      WriteOutcome(false, None, OutOfRange(0, f.enumCount.value - 1))
    else if f.setStatus != Success then WriteOutcome(false, Some(value), QueryFailed(f.setStatus))
    else WriteOutcome(true, Some(value), NoWarning)
  }

  /**
   * A write that the helpers refuse sends nothing: a read-only feature is never
   * written, whatever the value.
   */
  lemma ReadOnlyNeverWritten(f: Feature, value: nat, index: int, isSimCam: bool)
    requires value < TwoTo64 && IsInt64(f.intMin.value) && IsInt64(f.intMax.value)
    requires Answers(f.isReadOnly, true)
    ensures !WriteInteger(f, value, isSimCam).ok && WriteInteger(f, value, isSimCam).issued == None
    ensures !WriteEnumIndex(f, index, isSimCam).ok && WriteEnumIndex(f, index, isSimCam).issued == None
  {
  }
}
