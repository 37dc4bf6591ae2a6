# uca-andor camera plugin: a verified model of its core

This project models the logic of the libuca plugin for Andor sCMOS cameras,
`uca-andor-camera.c`. Everything the plugin does through the Andor SDK enters
the model only as status codes and answers passed in as parameters. Five pieces
are modelled:

- **Frame header encoder.** In a decoded Mono16 frame, the low byte of each of
  the first 14 pixels is overwritten with packed decimal digits: the frame
  number (8 digits) and the metadata timestamp (20 digits).
  - Module: `BcdHeader`, file `bcd_header.dfy`.
  - The encoder is imperative: `AddTimeToFrame` works in place on an `array`.
  - It is proved against `WithHeader`, a function giving the frame after both
    fields have been written.
- **Metadata trailer.** Reads the trailer backwards from the end of an
  acquired slot: Ticks CID, clock ticks, FrameData length and FrameData CID.
  - Module: `MetadataTrailer`, file `metadata_trailer.dfy`.
  - Little-endian field access lives in `Bytes`, file `bytes.dfy`.
- **Frame counter.** The frame number is counted outside AUTO trigger. In
  AUTO trigger it is estimated from the clock.
  - Module: `FrameSequence`, file `frame_sequence.dfy`.
  - Exact `real` arithmetic and truncation toward zero are used.
- **Feature access.** The capability check and the range-checked integer and
  enumeration writers. They are evaluated against a `Feature` value holding
  the SDK's answers for one feature.
  - Module: `FeatureAccess`, file `feature_access.dfy`.
- **Acquisition ring.** One allocation aligned to 8 bytes holds `NumBuffers`
  slots. They are queued on the device and handed back by `Grab`.
  - Modules: `Acquisition` (address arithmetic) and `AndorCamera` (files
    `acquisition.dfy` and `andor_camera.dfy`).
  - The camera is a class whose methods update the counters, the ring and the
    device queue in place.

Two small helpers are modelled as well:

- the error-code table, `AndorErrors` (`andor_errors.dfy`);
- the bit-depth text parser, `BitDepth` (`bit_depth.dfy`).

Inputs that come from outside the plugin are parameters:

- SDK statuses and query answers;
- the address `g_malloc0` returns;
- the buffer conversion, a function `seq<byte> -> Conversion`.

Some constants are not defined in the plugin's own files:

- CID Ticks = 1 and CID FrameData = 0 are the values the warnings at lines
  756 and 767 name;
- `METADATA_LENGTH_SIZE` = 4, `METADATA_CID_SIZE` = 4 and
  `METADATA_TIMESTAMP_SIZE` = 8 are stated by no line of the plugin. They are
  the Andor SDK's metadata layout (4-byte lengths and CIDs, a 64-bit clock
  value), taken as given.

The plugin's private structure (lines 79-110) does not declare the fields the
frame counter uses at lines 661-673: `frame_number`, `last_frame_number`,
`last_frame_clock`, `timestamp_clock_frequency` and `accumulate_count`. The
model adds them to `AndorCamera.Camera`:

- the three counters are integers, zero when the camera is created, as GObject
  zero-fills its private structure;
- the two settings are natural numbers taken as constructor parameters. No line
  of the plugin assigns them, so as written they stay zero and the AUTO
  estimate divides by zero (see Findings).

`UCA_CAMERA_TRIGGER_SOURCE_AUTO` is taken as 0, the first trigger source of
libuca. libuca's `uca-camera.h` is not part of this model.

Where the code and its documentation disagree, the model follows the code:

- `uca_andor_camera_start_recording` resets no frame counters.
- It ignores the statuses of `AT_GetInt(ImageSizeBytes)`, `AT_Flush` and
  `AT_QueueBuffer`. The model takes each status as a parameter and starts the
  acquisition whatever they are: a failed flush keeps the old queue, whose slots
  point into the ring just freed; a failed queue call leaves its slot out; a
  failed size read keeps the old size.
- `AT_SetEnumString(CycleMode, Continuous)` at line 860 sets the device only.
  `priv->cycle_mode` changes only through the property setter (lines 995-997),
  so `StartRecording` leaves `cycleMode` as it was.
- `uca_andor_camera_grab` does not go through the metadata path.
- The diagram in `add_time_to_frame`'s comment (lines 688-690) draws the
  other byte of each header pixel as zero. The code writes only the byte at
  offset `2i` and leaves the other one as the conversion produced it.

## Model

| member | source | states |
|---|---|---|
| `BcdHeader.AddTimeToFrame` | uca-andor-camera.c:683-735 | the decoded frame afterwards is `WithHeader(old frame, frameNumber, timestamp)`: bytes 0, 2, ..., 26 hold the packed digit pairs and every other byte keeps its value |
| `BcdHeader.TakeDigitPair` | uca-andor-camera.c:703-707 | when `value - offset` is the `e + 2` lowest digits of `value`, one turn of the packing loop yields the digits at powers `e + 1` and `e`, and `value - newOffset` is the `e` lowest digits |
| `BcdHeader.WritePacked` | uca-andor-camera.c:708-709 | storing the digit pair of pixel `i` as `hi * 16 + lo` extends the written header by byte `2i` and changes no other byte |
| `BcdHeader.PackFrameNumber` | uca-andor-camera.c:701-711 | the frame-number loop leaves bytes 0, 2, 4, 6 as in `WithHeader` and every other byte as it was |
| `BcdHeader.PackTimestamp` | uca-andor-camera.c:713-733 | the timestamp pixels, the first one taken off at 10^19 and 10^18, complete the frame to `WithHeader` |
| `BcdHeader.PackedByte` | uca-andor-camera.c:685-696 | byte `2i` has digit `2i` in its high nibble and digit `2i+1` in its low nibble; both nibbles are at most 9 |
| `BcdHeader.HeaderLayout` | uca-andor-camera.c:701-733 | byte `2i` equals `16*d[2i] + d[2i+1]`; odd bytes and every byte from 28 on are unchanged |
| `BcdHeader.DecodeWithHeader` | uca-andor-camera.c:685-696 | unpacking the 28 nibbles of a written header gives back the frame number and the timestamp (frame number below 10^8, timestamp below 10^20) |
| `BcdHeader.FrameNumberExample` | uca-andor-camera.c:690 | frame number 1042 puts 0x00, 0x00, 0x10, 0x42 at bytes 0, 2, 4, 6 |
| `BcdHeader.PackedByteDigits` | uca-andor-camera.c:701-733 | pixel `i` holds the digits of the frame number at powers `7-2i` and `6-2i`, or of the timestamp at powers `27-2i` and `26-2i` |
| `BcdHeader.DigitsAt` | uca-andor-camera.c:685-696 | digit `j` of the `count` zero-padded digits is the digit of `n` at power `count-1-j` |
| `BcdHeader.DigitIsDiv` | uca-andor-camera.c:703-705 | the digit at power `k` is `(n / 10^k) % 10` |
| `BcdHeader.LowIsMod` | uca-andor-camera.c:707 | the `k` lowest digits of `n` are `n % 10^k` |
| `BcdHeader.FromDigitsOfDigits` | uca-andor-camera.c:685-696 | reading `count` zero-padded digits back gives the number whenever it is below `10^count` |
| `BcdHeader.FirstPixelOffsetAsWritten` | uca-andor-camera.c:719-721 | the offset after the first timestamp pixel as written: the two top digits scaled by 10^17 instead of 10^18 |
| `BcdHeader.TimestampOffsetCounterexample` | uca-andor-camera.c:715-733 | for the timestamp 10^18, the code as written puts 0x90 at byte 10, where the encoder puts 0x00 |
| `Bytes.LeI32` | uca-andor-camera.c:754 | a C `int` read from four little-endian bytes lies in the 32-bit two's-complement range |
| `Bytes.LeU64` | uca-andor-camera.c:760 | an 8-byte little-endian read is below 2^64 |
| `Bytes.DecodeEncodeU64` | uca-andor-camera.c:760 | an 8-byte field written little-endian reads back as the same value |
| `MetadataTrailer.ParseTrailer` | uca-andor-camera.c:750-772 | the trailer is corrupt exactly when the CID at end-8 is not Ticks, or when it is Ticks and the CID at end-24 is not FrameData; it is parsed exactly when both CIDs match and `framedata_size` is nonnegative and fits the slot; a parsed trailer holds the 8-byte timestamp at end-16, and its payload starts `20 + framedata_size` bytes before the end of the slot |
| `MetadataTrailer.ParseEncodedSlot` | uca-andor-camera.c:750-772 | a slot of any leading bytes, pixels and a well-formed trailer parses back to the timestamp, and its payload starts exactly at the pixels |
| `MetadataTrailer.TrailerFields` | uca-andor-camera.c:754-765 | each trailer field reads back, at its offset from the end, as the value it was written with |
| `MetadataTrailer.SwappedBlocksAreCorrupt` | uca-andor-camera.c:754-758 | a slot whose last block is FrameData rather than Ticks is reported as corrupt |
| `FrameSequence.Trunc` | uca-andor-camera.c:671 | a `(gint)` conversion truncates toward zero: the result is within one of its argument and on the same side of zero |
| `FrameSequence.NextFrame` | uca-andor-camera.c:648-681 | defined for any settings except a later AUTO frame, which needs a positive clock frequency and accumulate count; outside AUTO one is added and the baseline is kept; AUTO from `last_frame_number == 0` gives frame 1 with clock `t`, later AUTO frames add the whole number of frame periods since the baseline and store the new frame and clock as baseline |
| `FrameSequence.CountingRun` | uca-andor-camera.c:676-678 | outside AUTO, whatever the settings, `n` frames add exactly `n` and leave the baseline untouched |
| `FrameSequence.AutoDividesByZeroAsWritten` | uca-andor-camera.c:661-670 | with the two settings left at zero, as the plugin leaves them, the first AUTO frame sets a nonzero baseline and the second frame's estimate has a zero divisor |
| `FrameSequence.AutoStepMonotone` | uca-andor-camera.c:661-674 | in AUTO, with a nonnegative frame rate, a clock value not earlier than the baseline never lowers the frame number |
| `FrameSequence.AutoRunMonotone` | uca-andor-camera.c:661-674 | in AUTO, over ascending clock values, the frame number never decreases and stays equal to its baseline |
| `FrameSequence.AutoEstimateExample` | uca-andor-camera.c:667-671 | 500000 ticks of a 1 MHz clock at 30 frames per second add 15 frames |
| `FeatureAccess.CheckAccess` | uca-andor-camera.c:303-366 | access is granted iff `AccessAllowed`: implemented, and readable for reads, or not read-only and writable for writes; any query error refuses; an unknown mode is granted with a warning; `warn` and `isSimCam` only gate the refusal warnings |
| `FeatureAccess.GrantIgnoresLogging` | uca-andor-camera.c:303-366 | the decision is the same whatever `warn` and `isSimCam` are |
| `FeatureAccess.WriteInteger` | uca-andor-camera.c:368-399 | `AT_SetInt` is issued iff write access is granted, both bound queries succeed and the value passes the unsigned range test; the value sent has the same 64 bits; the result is TRUE iff it was issued and succeeded; the out-of-range warning, carrying both bounds, is logged exactly when the bounds were read and the value fails the test |
| `FeatureAccess.AsSigned64` | uca-andor-camera.c:393 | a `guint64` passed as `AT_64` keeps its 64 bits |
| `FeatureAccess.NonNegativeBoundsRange` | uca-andor-camera.c:388 | with nonnegative bounds the unsigned test is the ordinary test `min <= value <= max` |
| `FeatureAccess.StraddlingRangeRejectsAll` | uca-andor-camera.c:388 | a range with negative minimum and nonnegative maximum rejects every value |
| `FeatureAccess.WriteEnumIndex` | uca-andor-camera.c:490-513 | `AT_SetEnumIndex` is issued iff write access is granted, the count query succeeds and `0 <= value < count`; the result is TRUE iff it was issued and succeeded; the out-of-range warning for `[0, count - 1]` is logged exactly when the count was read and the index lies outside it |
| `FeatureAccess.ReadOnlyNeverWritten` | uca-andor-camera.c:332-336 | a read-only feature is never written by either writer |
| `Acquisition.AlignUp8` | uca-andor-camera.c:853 | the aligned start is a multiple of 8 within 7 bytes above the allocation start |
| `Acquisition.AlignUp8Least` | uca-andor-camera.c:853 | no multiple of 8 at or above the allocation start lies below the aligned start |
| `Acquisition.SlotLayout` | uca-andor-camera.c:852-858 | the 10 slot addresses start at the aligned address, and the last slot ends `NUM_BUFFERS * image_size` bytes after it |
| `Acquisition.SlotsContiguous` | uca-andor-camera.c:857-858 | each slot starts where the previous one ends |
| `Acquisition.AcceptedStep` | uca-andor-camera.c:857-858 | one more queue call adds its slot at the end exactly when its status is success |
| `Acquisition.AcceptedAll` | uca-andor-camera.c:857-858 | when every queue call succeeds, the device queue receives every slot in order |
| `Acquisition.AcceptedMembers` | uca-andor-camera.c:857-858 | an address is queued exactly when it is a slot whose own queue call succeeded |
| `Acquisition.AcceptedDistinct` | uca-andor-camera.c:857-858 | queuing distinct slots never queues one twice |
| `Acquisition.AcceptedFromRing` | uca-andor-camera.c:852-858 | for a positive image size, whatever the queue calls return, the queued addresses are distinct slots of the ring |
| `Acquisition.SlotsDisjointInside` | uca-andor-camera.c:852-858 | for a positive image size the 10 slots are pairwise disjoint and lie inside the `NUM_BUFFERS * image_size + 8` bytes allocated |
| `Acquisition.SlotsAligned` | uca-andor-camera.c:853-858 | when the image size is a multiple of 8, every slot starts on an 8-byte boundary |
| `AndorCamera.Camera.constructor` | uca-andor-camera.c:1323-1342 | a new camera holds the trigger mode, frame rate and CameraAcquiring read from the device, the clock frequency and accumulate count it is given (usable for the AUTO estimate when both are positive), zero counters, no allocation and an empty queue |
| `AndorCamera.Camera.CalculateFrameNumber` | uca-andor-camera.c:648-681 | the counters afterwards are `NextFrame` of the counters before; only a later AUTO frame needs usable settings |
| `AndorCamera.Camera.ConvertAndConcatenateBuffer` | uca-andor-camera.c:737-783 | the slot is the `image_size` bytes whose end the trailer is read back from; a corrupt or truncated trailer returns 1005, and a failed conversion returns its status; both leave the counters and the output unchanged; otherwise the result is 0, the counters advance by `NextFrame` with the trailer's clock value, and the output is the converted frame with the header written |
| `AndorCamera.Camera.StartRecording` | uca-andor-camera.c:840-868 | after the call, the image size is the one read (the old one if the read failed), the ring is the new allocation aligned up to 8 bytes, and the queue is the old queue if the flush failed (else empty) followed by the slots whose queue call succeeded; with every call succeeding it is the 10 slots in order; `cycle_mode` is unchanged; the call fails iff AcquisitionStart or the CameraAcquiring read fails; `is_cam_acquiring` changes only when both succeed; a positive image size and a successful flush give a valid ring |
| `AndorCamera.Camera.QueueSlots` | uca-andor-camera.c:857-858 | the queue afterwards is the old queue followed by the slots whose queue call succeeded, in order |
| `AndorCamera.Camera.StopRecording` | uca-andor-camera.c:870-886 | a failed AcquisitionStop changes nothing; otherwise a successful flush empties the queue and a successful read sets `is_cam_acquiring`, and either failure is reported; a valid ring stays valid |
| `AndorCamera.Camera.Grab` | uca-andor-camera.c:888-912 | the slot handed back is the queue's head; it goes back to the tail only when conversion and requeue both succeed; a successful grab keeps the queue's contents (a rotation), and a valid ring stays valid |
| `AndorErrors.IdentifyAndorError` | uca-andor-camera.c:147-301 | "Unknown error..." is returned exactly for the codes outside 0-39, 100 and 1002-1006 |
| `BitDepth.ExtractUintFromString` | uca-andor-camera.c:615-646 | the result is the one- or two-numeral number at the first numeral of the string, or 0 when there is none, and lies in 0..99 |
| `BitDepth.NumberAfterText` | uca-andor-camera.c:615-646 | a number below 100 written after text without numerals (and not followed by a numeral) is found as the string's first number |

## Left out

- SDK calls are not modelled:
  - `AT_Open`, `AT_Get*`, `AT_Set*`, `AT_Command`, `AT_Flush`, `AT_QueueBuffer`, `AT_WaitBuffer` and `AT_ConvertBuffer` are foreign code;
  - their results enter as parameters, and the device queue is modelled as a FIFO of slot addresses;
  - pixel conversion is an arbitrary function.
- `g_warning` and the GError text are not modelled. Warnings appear only as a `Warning` value in `FeatureAccess`: the access check's warnings and the writers' query-failure and out-of-range warnings. The out-of-range warning carries the bounds exactly; the `(int)` casts in its text at line 389 are not modelled.
- `check_error` (lines 800-810) is kept only as its pass/fail rule, `AndorErrors.CheckError`, which the camera methods use to test each status. The message it builds from `identify_andor_error` is not modelled, so the function has nothing to prove beyond its definition.
- The GObject glue is not modelled: class and property registration, `set_property`/`get_property`, the initable interface, finalize and `uca_andor_camera_init`. These are framework plumbing and a sequence of SDK reads.
- The floating-point writers and readers are not modelled: `write_double`, `read_double`, `read_double_min`, `read_double_max`, the pixel-size scaling and the frame-rate property.
- `write_string`/`read_string` are not modelled: their work is wide-character conversion in libc.
- `read_integer`, `read_enum_index`, `read_boolean` and `write_boolean` are not modelled on their own. They share `CheckAccess`. `StartRecording` receives the outcome of its CameraAcquiring read as a parameter.
- `watch_for_PixelEncoding` is not modelled: it is an asynchronous callback on a driver thread.
- `uca-andor-camera.h` is not part of this model: it holds only type macros and enum declarations.
- The `data` pointer of `Grab` is not modelled: it receives the converted pixels from the foreign converter.
- Memory release is not modelled: `g_free` of the previous ring is not observable in the model.
- `BcdHeader.AddTimeToFrame` needs a frame number below 10^8 and a timestamp below 10^20:
  - the function's own comment at line 694 states the 8-digit limit;
  - every 64-bit timestamp is below 10^20;
  - a negative frame number or one of 9 or more digits is not modelled.
- `BcdHeader.AddTimeToFrame` uses exact integer powers of ten for the first timestamp pixel:
  - lines 719-720 convert 1e19 and 1e18 to a C `int`, which is out of range and undefined behaviour;
  - line 721 scales the offset by 10^17 (see Findings);
  - the model writes what the doc comment describes.
- `AndorCamera.Camera.ConvertAndConcatenateBuffer` requires the frame number the counters produce to fit in 8 digits, for the same reason.
- `AndorCamera.Camera.ConvertAndConcatenateBuffer` returns 1005 for a trailer that does not fit the slot. This is an addition: the source reads the fields without checking the slot size or `framedata_size`.
- `AndorCamera.Camera.ConvertAndConcatenateBuffer` models a failed conversion as writing nothing to the output. Partial writes by the converter are not modelled.
- `MetadataTrailer.ParseTrailer` reads the timestamp as an unsigned 64-bit value. `AT_64` is signed, so a clock value from 2^63 up would be negative in C. That is not modelled.
- `FrameSequence.NextFrame` uses exact rationals for the `double` estimate. Its rounding, and a `gint` overflow of the frame number, are not modelled.
- `FrameSequence.NextFrame` requires a positive clock frequency and accumulate count for a later AUTO frame only. A zero there is a division by zero in C (see Findings); inside the `double` arithmetic it would give an infinity or NaN, and its conversion to `gint` is not modelled.
- `BitDepth.ExtractUintFromString` models the intended two-numeral value. Lines 631-632 hand `atoi` a two-byte array with no terminator.
- `AndorCamera.Camera.constructor` models the result of `uca_andor_camera_init` after every read succeeded. A failed read in init, and `cycle_mode` starting as NULL (an empty string here), are not modelled.
- `AndorCamera.Camera.StopRecording` assumes a failed `AT_GetBool(CameraAcquiring)` at line 884 leaves `is_cam_acquiring` as it was. The SDK does not document what it writes on failure.
- `AndorCamera.Camera.StartRecording` assumes a failed `AT_GetInt(ImageSizeBytes)` leaves `image_size` as it was. The SDK does not document what it writes on failure.
- `AndorCamera.Camera.StartRecording` promises a valid ring only after a successful flush. After a failed flush the old queue stays, and its slots point into the freed ring.
- `AndorCamera.Camera.StartRecording` takes the image size as a natural number and the allocation's address as a parameter. Address wrap-around (`(unsigned long) image_buffer + 7` overflowing) is not modelled.

## Findings

| source | as written | input that shows it | evidently intended | confidence | as-written member | corrected member |
|---|---|---|---|---|---|---|
| uca-andor-camera.c:721 | after the first timestamp pixel, the offset is scaled by `pow`, which still holds 10^17, so the two top digits are taken off at a tenth of their weight | timestamp 10^18: byte 10 becomes 0x90 instead of 0x00, provided lines 719-720 give the two top digits exactly. As written they convert 1e19 and 1e18 to `int`, which is undefined behaviour; the as-written member takes exact powers there | scale the first pair by 10^18, so that the loop continues from `timestamp % 10^18` | high (not executed) | `BcdHeader.TimestampOffsetCounterexample` | `BcdHeader.AddTimeToFrame` |
| uca-andor-camera.c:669-670 | the AUTO estimate divides by `timestamp_clock_frequency` and `accumulate_count`, which no line of the plugin assigns (nor does the private structure at lines 79-110 declare them), so they keep the zero of the zero-filled state | trigger AUTO, any second frame: the first frame sets `last_frame_number` to 1, and the next call divides by 0 | read both settings from the device when the camera is opened, so that they are positive | medium (not executed) | `FrameSequence.AutoDividesByZeroAsWritten` | `AndorCamera.Camera.constructor` |
