/** The SDK status codes and the text the camera plugin reports for them. */
module AndorErrors {

  /** `AT_SUCCESS`: the status every SDK call returns when it succeeds. */
  const Success: int := 0

  /** Returned by the metadata decoder when a block identifier is not the expected one. */
  const CorruptedMetadata: int := 1005

  const UnknownError: string := "Unknown error..."

  /** The codes the table knows: `atcore.h` codes 0-39 and 100, `atutility.h` codes 1002-1006. */
  predicate IsKnownCode(code: int)
  {
    0 <= code <= 39 || code == 100 || 1002 <= code <= 1006
  }

  /**
   * The description of an SDK status code; every code outside the table gets
   * `UnknownError`, and no code inside it does.
   */
  function IdentifyAndorError(code: int): (s: string)
    ensures s == UnknownError <==> !IsKnownCode(code)
  {
    if 0 <= code <= 9 then CoreText0(code)
    else if 10 <= code <= 19 then CoreText10(code)
    else if 20 <= code <= 29 then CoreText20(code)
    else if 30 <= code <= 39 then CoreText30(code)
    else if code == 100 then BufferOverflowText()
    else if 1002 <= code <= 1006 then UtilityText(code)
    else UnknownError
  }


  /** `atcore.h` codes 0-9. */
  function CoreText0(code: int): (s: string)
    requires 0 <= code <= 9
    ensures s != UnknownError
  {
    match code
    case 0 => "No error ... (identify_andor_error " +
      "function has been called for " +
      "a bad reason, please fix)"
    case 1 => "Camera Handle uninitialized"
    case 2 => "Feature is not implemented for this camera"
    case 3 => "Feature is read only"
    case 4 => "Feature is currently not readable"
    case 5 => "Feature is currently not writable / " + "Command is not currently executable"
    case 6 => "Value is either out of range or unavailable"
    case 7 => "Index is currently not available"
    case 8 => "Index is not implemented on this camera"
    case _ => "String value exceed maximum allowed length"
  }

  /** `atcore.h` codes 10-19. */
  function CoreText10(code: int): (s: string)
    requires 10 <= code <= 19
    ensures s != UnknownError
  {
    match code
    case 10 => "Connection or Disconnection error"
    case 11 => "No Internal Event or Internal Error"
    case 12 => "Invalid handle"
    case 13 => "Waiting for buffer timed out"
    case 14 => "Input buffer queue reached maximum capacity"
    case 15 => "Queued buffer / returned frame size conflict"
    case 16 => "A queued buffer was not " + "aligned on an 8-byte boundary"
    case 17 => "An error has occurred while " + "communicating with hardware"
    case 18 => "Index / String is not currently available"
    case _ => "Index / String is not " + "implemented on this camera"
  }

  /** `atcore.h` codes 20-29 (null-argument and unset-flag errors). */
  function CoreText20(code: int): (s: string)
    requires 20 <= code <= 29
    ensures s != UnknownError
  {
    match code
    case 20 => "Passed feature = NULL"
    case 21 => "Passed handle = NULL"
    case 22 => "Feature not implemented"
    case 23 => "Readable not set"
    case 24 => "Readonly not set"
    case 25 => "Writable not set"
    case 26 => "Min value = NULL"
    case 27 => "Max value = NULL"
    case 28 => "Function returned NULL value"
    case _ => "Function returned NULL string"
  }

  /** `atcore.h` codes 30-39. */
  function CoreText30(code: int): (s: string)
    requires 30 <= code <= 39
    ensures s != UnknownError
  {
    match code
    case 30 => "Feature index count = NULL"
    case 31 => "Available not set"
    case 32 => "Passed string lenght = NULL"
    case 33 => "EvCallBack parameter = NULL"
    case 34 => "Pointer to queue = NULL"
    case 35 => "Wait pointer = NULL"
    case 36 => "Pointer size = NULL"
    case 37 => "No memory allocated for current action"
    case 38 => "Unable to connect, device already in use"
    case _ => "Device not found"
  }

  /** `atutility.h` codes 1002-1006 (conversion and metadata errors). */
  function UtilityText(code: int): (s: string)
    requires 1002 <= code <= 1006
    ensures s != UnknownError
  {
    match code
    case 1002 => "Invalid output pixel encoding"
    case 1003 => "Invalid input pixel encoding"
    case 1004 => "Input buffer does not include metadata"
    case 1005 => "Corrupted metadata"
    case _ => "Metadata not found"
  }


  /** Code 100: the host did not read frames fast enough and the camera's buffer overflowed. */
  function BufferOverflowText(): (s: string)
    ensures s != UnknownError
  {
    "The software was not able to retrieve data " +
      "from the card or camera fast enough to " +
      "avoid the internal hardware buffer bursting"
  }

  /**
   * The outcome `check_error` reports for a status: a failure carries the code,
   * whose description is `IdentifyAndorError(code)`.
   */
  datatype Check = Passed | Failed(code: int)

  /** A nonzero status fails, and the failure carries that status. */
  function CheckError(code: int): (r: Check)
    ensures r.Passed? <==> code == Success
    ensures r.Failed? ==> r.code == code
  {
    if code == Success then Passed else Failed(code)
  }
}
