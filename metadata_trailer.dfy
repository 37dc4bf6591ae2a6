/**
 * The metadata trailer the camera appends to every acquired slot when
 * metadata is enabled, read backwards from the end of the slot:
 *
 *   [end-4,  end)     length of the Ticks block
 *   [end-8,  end-4)   CID of the Ticks block (must be 1)
 *   [end-16, end-8)   64-bit clock ticks (the frame timestamp)
 *   [end-20, end-16)  length of the FrameData block (pixels + its CID)
 *   [end-24, end-20)  CID of the FrameData block (must be 0)
 *   the pixels start `20 + length` bytes before the end
 */
module MetadataTrailer {
  import opened Bytes

  const LengthSize: nat := 4
  const CidSize: nat := 4
  const TimestampSize: nat := 8
  const CidTicks: int := 1
  const CidFrameData: int := 0

  /** Offset from the end of the slot to the start of the Ticks block's timestamp. */
  const TicksOffset: nat := LengthSize + CidSize + TimestampSize

  datatype Trailer = Trailer(timestamp: nat, payloadStart: nat)

  /**
   * What reading the trailer gives. `OutOfBounds` covers slots too short to hold
   * the fields and FrameData lengths that point before the slot's start.
   */
  datatype Parse = Parsed(trailer: Trailer) | CorruptMetadata | OutOfBounds

  /** The CID read at end-8, where the Ticks block's identifier sits. */
  function TicksCid(slot: seq<byte>): int
    requires |slot| >= LengthSize + CidSize
  {
    LeI32(slot, |slot| - LengthSize - CidSize)
  }

  /** The CID read at end-24, where the FrameData block's identifier sits. */
  function FrameDataCid(slot: seq<byte>): int
    requires |slot| >= TicksOffset + LengthSize + CidSize
  {
    LeI32(slot, |slot| - TicksOffset - LengthSize - CidSize)
  }

  /** The FrameData block's length, read at end-20. */
  function FrameDataSize(slot: seq<byte>): int
    requires |slot| >= TicksOffset + LengthSize
  {
    LeI32(slot, |slot| - TicksOffset - LengthSize)
  }

  /**
   * Reads the trailer of a slot: the Ticks CID is checked first, then the
   * timestamp and the FrameData length are read, then the FrameData CID is
   * checked. Either CID mismatch is corrupt metadata.
   */
  function ParseTrailer(slot: seq<byte>): (r: Parse)
    ensures r.CorruptMetadata? <==>
      (|slot| >= 8 && TicksCid(slot) != CidTicks) ||
      (|slot| >= 24 && TicksCid(slot) == CidTicks && FrameDataCid(slot) != CidFrameData)
    ensures r.Parsed? ==>
      |slot| >= 24 && TicksCid(slot) == CidTicks && FrameDataCid(slot) == CidFrameData &&
      r.trailer.timestamp == LeU64(slot, |slot| - 16) &&
      r.trailer.payloadStart + 20 + FrameDataSize(slot) == |slot|
    ensures r.Parsed? ==> r.trailer.payloadStart + 20 <= |slot|
    ensures r.Parsed? <==>
      |slot| >= 24 && TicksCid(slot) == CidTicks && FrameDataCid(slot) == CidFrameData &&
      0 <= FrameDataSize(slot) && 20 + FrameDataSize(slot) <= |slot|
  {
    if |slot| < LengthSize + CidSize then OutOfBounds
    else if TicksCid(slot) != CidTicks then CorruptMetadata
    else if |slot| < TicksOffset + LengthSize + CidSize then OutOfBounds
    else
      var timestamp := LeU64(slot, |slot| - TicksOffset);
      var frameDataSize := FrameDataSize(slot);
      if FrameDataCid(slot) != CidFrameData then CorruptMetadata
      else
        var frameDataOffset := TicksOffset + LengthSize + frameDataSize;
        if frameDataSize < 0 || frameDataOffset > |slot| then OutOfBounds
        else Parsed(Trailer(timestamp, |slot| - frameDataOffset))
  }

  /**
   * The trailer a camera writes after `pixels`: the FrameData block (CID 0 and
   * its length, which counts the CID), then the Ticks block (the clock value, CID 1
   * and its length).
   */
  function EncodeTrailer(pixelCount: nat, timestamp: nat): (s: seq<byte>)
    requires pixelCount + CidSize < 0x8000_0000 && timestamp < TwoTo64
    ensures |s| == 24
  {
    EncodeI32(CidFrameData) + EncodeI32(pixelCount + CidSize) +
    EncodeU64(timestamp) + EncodeI32(CidTicks) + EncodeI32(CidSize + TimestampSize)
  }

  /** The trailer's fields read back from where `EncodeTrailer` put them. */
  lemma TrailerFields(lead: seq<byte>, pixels: seq<byte>, timestamp: nat)
    requires |pixels| + CidSize < 0x8000_0000 && timestamp < TwoTo64
    ensures var slot := lead + pixels + EncodeTrailer(|pixels|, timestamp);
      TicksCid(slot) == CidTicks && FrameDataCid(slot) == CidFrameData &&
      FrameDataSize(slot) == |pixels| + CidSize && LeU64(slot, |slot| - 16) == timestamp
  {
    var slot := lead + pixels + EncodeTrailer(|pixels|, timestamp);
    var n := |slot|;
    var t := EncodeTrailer(|pixels|, timestamp);
    assert slot[n - 24..n] == t;
    assert slot[n - 24..n - 20] == t[0..4] == EncodeI32(CidFrameData);
    assert slot[n - 20..n - 16] == t[4..8] == EncodeI32(|pixels| + CidSize);
    assert slot[n - 16..n - 8] == t[8..16] == EncodeU64(timestamp);
    assert slot[n - 8..n - 4] == t[16..20] == EncodeI32(CidTicks);
    DecodeEncodeI32(slot, n - 24, CidFrameData);
    DecodeEncodeI32(slot, n - 20, |pixels| + CidSize);
    DecodeEncodeU64(slot, n - 16, timestamp);
    DecodeEncodeI32(slot, n - 8, CidTicks);
  }

  /**
   * A slot made of any leading bytes, the pixels and a well-formed trailer parses
   * back to the timestamp, and the payload starts exactly at the pixels.
   */
  lemma {:induction false} ParseEncodedSlot(lead: seq<byte>, pixels: seq<byte>, timestamp: nat)
    requires |pixels| + CidSize < 0x8000_0000 && timestamp < TwoTo64
    ensures var slot := lead + pixels + EncodeTrailer(|pixels|, timestamp);
      ParseTrailer(slot) == Parsed(Trailer(timestamp, |lead|)) &&
      slot[ParseTrailer(slot).trailer.payloadStart..|slot| - 24] == pixels
  {
    var slot := lead + pixels + EncodeTrailer(|pixels|, timestamp);
    TrailerFields(lead, pixels, timestamp);
    assert slot[|lead|..|slot| - 24] == pixels;
  }

  /**
   * The ticks and frame-data blocks in the wrong order - the slot's last CID is
   * FrameData (0), not Ticks - is reported as corrupt metadata.
   */
  lemma SwappedBlocksAreCorrupt(pixels: seq<byte>, timestamp: nat)
    requires |pixels| + CidSize < 0x8000_0000 && timestamp < TwoTo64
    ensures var slot := EncodeU64(timestamp) + EncodeI32(CidTicks) + EncodeI32(12) +
      pixels + EncodeI32(CidFrameData) + EncodeI32(|pixels| + CidSize);
      ParseTrailer(slot) == CorruptMetadata
  {
    var tail := EncodeI32(CidFrameData) + EncodeI32(|pixels| + CidSize);
    var slot := EncodeU64(timestamp) + EncodeI32(CidTicks) + EncodeI32(12) + pixels + tail;
    var n := |slot|;
    assert slot[n - 8..n - 4] == tail[0..4] == EncodeI32(CidFrameData);
    DecodeEncodeI32(slot, n - 8, CidFrameData);
  }

  /** Every timestamp the trailer can hold fits the 20 BCD digits of the frame header. */
  lemma TimestampFitsHeader(slot: seq<byte>)
    requires ParseTrailer(slot).Parsed?
    ensures ParseTrailer(slot).trailer.timestamp < 100_000_000_000_000_000_000
  {
  }
}
