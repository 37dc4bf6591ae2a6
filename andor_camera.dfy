/**
 * The camera object: the frame counters the metadata path updates, the
 * acquisition ring it allocates and queues, and the device's input queue of
 * slot addresses. SDK calls are oracles whose statuses come in as parameters.
 */
module AndorCamera {
  import opened Bytes
  import opened AndorErrors
  import opened BcdHeader
  import opened MetadataTrailer
  import opened FrameSequence
  import opened Acquisition
  import opened FeatureAccess

  /** What the SDK's pixel conversion gives for the bytes it is handed. */
  datatype Conversion = Conversion(status: int, frame: seq<byte>)

  class Camera {
    // settings read from the device when the camera is opened
    var triggerMode: int
    var frameRate: real
    var accumulateCount: nat
    var timestampClockFrequency: nat
    var isSimCam: bool

    // frame counters
    var frameNumber: int
    var lastFrameNumber: int
    var lastFrameClock: int

    // acquisition
    var imageSize: nat
    var imageBuffer: Option<nat>   // start address of the ring's allocation
    var alignedBuffer: nat
    var cycleMode: string
    var isCamAcquiring: bool

    /** The slot addresses queued on the device, in the order it hands them back. */
    var queue: seq<nat>

    function Sequence(): SequenceState
      reads this
    {
      SequenceState(frameNumber, lastFrameNumber, lastFrameClock)
    }

    function Settings(): ClockSettings
      reads this
    {
      ClockSettings(triggerMode, frameRate, accumulateCount, timestampClockFrequency)
    }

    /** The ring's allocation exists, and the queue holds distinct slots of that ring. */
    predicate RingValid()
      reads this
    {
      imageSize > 0 && imageBuffer.Some? && alignedBuffer == AlignUp8(imageBuffer.value) &&
      (forall k :: 0 <= k < |queue| ==> queue[k] in SlotLayout(alignedBuffer, imageSize)) &&
      Distinct(queue)
    }

    /**
     * A camera just opened: trigger mode, frame rate and CameraAcquiring as read
     * from the device, counters at zero, nothing allocated or queued. The clock
     * frequency and the accumulate count are parameters: no line of the plugin
     * sets them.
     */
    constructor(triggerMode: int, frameRate: real, accumulateCount: nat, clockFrequency: nat, isSimCam: bool,
                acquiring: bool)
      ensures Settings() == ClockSettings(triggerMode, frameRate, accumulateCount, clockFrequency)
      ensures this.isSimCam == isSimCam && isCamAcquiring == acquiring
      ensures Sequence() == Initial
      ensures imageSize == 0 && imageBuffer == None && queue == []
      ensures clockFrequency > 0 && accumulateCount > 0 ==> Usable(Settings())
    {
      this.triggerMode := triggerMode;
      this.frameRate := frameRate;
      this.accumulateCount := accumulateCount;
      this.timestampClockFrequency := clockFrequency;
      this.isSimCam := isSimCam;
      frameNumber, lastFrameNumber, lastFrameClock := 0, 0, 0;
      imageSize := 0;
      imageBuffer := None;
      alignedBuffer := 0;
      cycleMode := "";
      isCamAcquiring := acquiring;
      queue := [];
    }

    /** Updates the counters for a frame with clock value `timestamp`. */
    method CalculateFrameNumber(timestamp: int)
      requires triggerMode == TriggerAuto && lastFrameNumber != 0 ==> Usable(Settings())
      modifies this`frameNumber, this`lastFrameNumber, this`lastFrameClock
      ensures Sequence() == NextFrame(old(Sequence()), Settings(), timestamp)
    {
      if triggerMode == TriggerAuto {
        if lastFrameNumber == 0 {
          lastFrameNumber := 1;
          lastFrameClock := timestamp;
          frameNumber := 1;
        } else {
          var tempFloat := ElapsedFrames(Settings(), timestamp - lastFrameClock);
          frameNumber := lastFrameNumber + Trunc(tempFloat);
          lastFrameNumber := frameNumber;
          lastFrameClock := timestamp;
        }
      } else {
        frameNumber := frameNumber + 1;
      }
    }

    /**
     * Decodes a slot with metadata into `data`. The slot is the `imageSize` bytes
     * the device filled, so its end is where the trailer ends: the trailer is read, the pixels
     * are converted by `convert`, the counters advance with the trailer's clock
     * value and the header is written over the first 14 pixels. A bad trailer
     * returns 1005 and a failed conversion its status; neither touches the
     * counters or `data`.
     */
    method ConvertAndConcatenateBuffer(slot: seq<byte>, convert: seq<byte> -> Conversion, data: array<byte>)
      returns (status: int)
      requires |slot| == imageSize
      requires (triggerMode == TriggerAuto && lastFrameNumber != 0 ==> Usable(Settings())) &&
        data.Length >= HeaderBytes
      requires ParseTrailer(slot).Parsed? ==>
        var t := ParseTrailer(slot).trailer;
        |convert(slot[t.payloadStart..]).frame| == data.Length &&
        0 <= NextFrame(Sequence(), Settings(), t.timestamp).frameNumber < Pow10(FrameDigits)
      modifies this`frameNumber, this`lastFrameNumber, this`lastFrameClock, data
      ensures !ParseTrailer(slot).Parsed? ==>
        status == CorruptedMetadata && Sequence() == old(Sequence()) && data[..] == old(data[..])
      ensures ParseTrailer(slot).Parsed? ==>
        var t := ParseTrailer(slot).trailer;
        var c := convert(slot[t.payloadStart..]);
        if c.status != Success then
          status == c.status && Sequence() == old(Sequence()) && data[..] == old(data[..])
        else
          status == Success &&
          Sequence() == NextFrame(old(Sequence()), Settings(), t.timestamp) &&
          data[..] == WithHeader(c.frame, frameNumber, t.timestamp)
    {
      var trailer := ParseTrailer(slot);
      if !trailer.Parsed? {
        return CorruptedMetadata;
      }
      var timestamp := trailer.trailer.timestamp;
      var c := convert(slot[trailer.trailer.payloadStart..]);
      if c.status != Success {
        return c.status;
      }
      forall k | 0 <= k < data.Length {
        data[k] := c.frame[k];
      }
      assert data[..] == c.frame;
      CalculateFrameNumber(timestamp);
      Pow10Values();
      AddTimeToFrame(timestamp, data, frameNumber);
      return Success;
    }

    /**
     * Starts an acquisition: the ImageSizeBytes read (`None` when it fails, which
     * keeps the old size), a new ring of `NumBuffers` slots at the allocation
     * `allocation` returned, a flush of the device queue, one queue call per slot in
     * order, continuous cycling, then the AcquisitionStart command and the read of
     * CameraAcquiring (`None` when that read fails). The statuses of the flush and
     * the queue calls are not checked: a failed flush keeps the old queue, and a
     * failed queue call leaves its slot out. The CycleMode write goes to the device
     * only and leaves `cycleMode` as it was. The result says whether an error was
     * reported.
     */
    method StartRecording(sizeRead: Option<nat>, allocation: nat, flushStatus: int, queueStatuses: seq<int>,
                          startStatus: int, acquiringRead: Option<bool>)
      returns (failed: bool)
      requires |queueStatuses| == NumBuffers
      modifies this`imageSize, this`imageBuffer, this`alignedBuffer, this`queue, this`isCamAcquiring
      ensures imageSize == (if sizeRead.Some? then sizeRead.value else old(imageSize))
      ensures imageBuffer == Some(allocation) && alignedBuffer == AlignUp8(allocation)
      ensures queue == (if flushStatus == Success then [] else old(queue)) +
        Accepted(SlotLayout(alignedBuffer, imageSize), queueStatuses)
      ensures cycleMode == old(cycleMode)
      ensures failed <==> startStatus != Success || acquiringRead.None?
      ensures isCamAcquiring ==
        if startStatus == Success && acquiringRead.Some? then acquiringRead.value else old(isCamAcquiring)
      ensures flushStatus == Success && AllSucceeded(queueStatuses) ==>
        queue == SlotLayout(alignedBuffer, imageSize)
      ensures imageSize > 0 && flushStatus == Success ==> RingValid()
    {
      if sizeRead.Some? {
        imageSize := sizeRead.value;
      }
      imageBuffer := Some(allocation);
      alignedBuffer := AlignUp8(allocation);
      if flushStatus == Success {
        queue := [];
      }
      QueueSlots(queueStatuses);
      ghost var slots := SlotLayout(alignedBuffer, imageSize);
      if imageSize > 0 && flushStatus == Success {
        AcceptedFromRing(allocation, imageSize, queueStatuses);
        assert queue == Accepted(slots, queueStatuses);
      }
      if CheckError(startStatus).Failed? || acquiringRead.None? {
        failed := true;
      } else {
        isCamAcquiring := acquiringRead.value;
        failed := false;
      }
    }

    /**
     * The queueing loop of `StartRecording`: one queue call per slot of the ring,
     * in order, each with its status; a slot whose call fails is not queued.
     */
    method QueueSlots(statuses: seq<int>)
      requires |statuses| == NumBuffers
      modifies this`queue
      ensures queue == old(queue) + Accepted(SlotLayout(alignedBuffer, imageSize), statuses)
      ensures AllSucceeded(statuses) ==> queue == old(queue) + SlotLayout(alignedBuffer, imageSize)
    {
      ghost var slots := SlotLayout(alignedBuffer, imageSize);
      for i := 0 to NumBuffers
        invariant queue == old(queue) + Accepted(slots[..i], statuses[..i])
      {
        AcceptedStep(slots, statuses, i);
        if statuses[i] == Success {
          queue := queue + [alignedBuffer + i * imageSize];
        }
      }
      assert slots[..NumBuffers] == slots && statuses[..NumBuffers] == statuses;
      if AllSucceeded(statuses) {
        AcceptedAll(slots, statuses);
      }
    }

    /**
     * Stops an acquisition: the AcquisitionStop command, then a flush of the
     * device queue, then a read of CameraAcquiring. A failed stop does nothing
     * more; the other two report their failure and go on.
     */
    method StopRecording(stopStatus: int, flushStatus: int, acquiring: Query<bool>) returns (failed: bool)
      modifies this`queue, this`isCamAcquiring
      ensures old(RingValid()) ==> RingValid()
      ensures stopStatus != Success ==> failed && queue == old(queue) && isCamAcquiring == old(isCamAcquiring)
      ensures stopStatus == Success ==>
        (failed <==> flushStatus != Success || acquiring.status != Success) &&
        queue == (if flushStatus == Success then [] else old(queue)) &&
        isCamAcquiring == (if acquiring.status == Success then acquiring.value else old(isCamAcquiring))
    {
      if CheckError(stopStatus).Failed? {
        return true;
      }
      failed := false;
      if CheckError(flushStatus).Passed? {
        queue := [];
      } else {
        failed := true;
      }
      if CheckError(acquiring.status).Passed? {
        isCamAcquiring := acquiring.value;
      } else {
        failed := true;
      }
    }

    /**
     * Takes the next filled slot from the device, converts it, and queues the
     * slot again. Waiting on an empty queue times out. A conversion or requeue
     * failure leaves the slot out of the queue.
     */
    method Grab(waitStatus: int, convertStatus: int, queueStatus: int) returns (ok: bool, buffer: Option<nat>)
      modifies this`queue
      ensures old(RingValid()) ==> RingValid()
      ensures waitStatus != Success || old(queue) == [] ==> !ok && buffer == None && queue == old(queue)
      ensures waitStatus == Success && old(queue) != [] ==>
        buffer == Some(old(queue)[0]) &&
        (ok <==> convertStatus == Success && queueStatus == Success) &&
        queue == old(queue)[1..] + (if ok then [old(queue)[0]] else [])
      ensures ok ==> multiset(queue) == multiset(old(queue))
    {
      if CheckError(waitStatus).Failed? || queue == [] {
        return false, None;
      }
      var slot := queue[0];
      queue := queue[1..];
      buffer := Some(slot);
      if CheckError(convertStatus).Failed? {
        return false, buffer;
      }
      if CheckError(queueStatus).Failed? {
        return false, buffer;
      }
      queue := queue + [slot];
      assert old(queue) == [slot] + old(queue)[1..];
      ok := true;
    }
  }
}
