/**
 * The 14-pixel header that the metadata path of the Andor plugin writes into
 * every decoded Mono16 frame: pixels 0-3 carry the frame number as 8 packed
 * decimal digits, pixels 4-13 the hardware timestamp as 20 packed decimal
 * digits, most significant first.  A pixel is two bytes; only its first byte
 * (the low byte) is written, with one digit in each nibble.
 */
module BcdHeader {
  import opened Bytes

  /** Number of bytes covered by the header (14 pixels of 2 bytes). */
  const HeaderBytes: nat := 28
  const FrameDigits: nat := 8
  const TimestampDigits: nat := 20

  // ---------------------------------------------------------------------------
  // Decimal digits

  function Pow10(k: nat): (p: nat)
    ensures p >= 1
  {
    if k == 0 then 1 else 10 * Pow10(k - 1)
  }

  /** The `count` decimal digits of `n`, zero-padded, most significant first. */
  function Digits(n: nat, count: nat): (ds: seq<nat>)
    ensures |ds| == count
  {
    if count == 0 then [] else Digits(n / 10, count - 1) + [n % 10]
  }

  /** The number a sequence of decimal digits denotes, most significant first. */
  function FromDigits(ds: seq<nat>): nat
  {
    if ds == [] then 0 else 10 * FromDigits(ds[..|ds| - 1]) + ds[|ds| - 1]
  }

  /** The decimal digit of `n` at power `k`. */
  function Digit(n: nat, k: nat): (d: nat)
    ensures d < 10
  {
    if k == 0 then n % 10 else Digit(n / 10, k - 1)
  }

  /** The part of `n` written by its `k` lowest decimal digits. */
  function Low(n: nat, k: nat): nat
  {
    if k == 0 then 0 else n % 10 + 10 * Low(n / 10, k - 1)
  }

  /** Digit `j` of `Digits(n, count)` is the digit of `n` at power `count - 1 - j`. */
  lemma {:induction false} DigitsAt(n: nat, count: nat, j: nat)
    requires j < count
    ensures Digits(n, count)[j] == Digit(n, count - 1 - j)
    decreases count
  {
    if j < count - 1 {
      DigitsAt(n / 10, count - 1, j);
    }
  }

  lemma {:induction false} DigitsAreDecimal(n: nat, count: nat)
    ensures forall j :: 0 <= j < count ==> Digits(n, count)[j] < 10
  {
    forall j | 0 <= j < count ensures Digits(n, count)[j] < 10 {
      DigitsAt(n, count, j);
    }
  }

  lemma {:induction false} FromDigitsOfDigits(n: nat, count: nat)
    requires n < Pow10(count)
    ensures FromDigits(Digits(n, count)) == n
    decreases count
  {
    if count == 0 {
    } else {
      var ds := Digits(n, count);
      assert ds[..|ds| - 1] == Digits(n / 10, count - 1);
      FromDigitsOfDigits(n / 10, count - 1);
    }
  }

  // ---------------------------------------------------------------------------
  // Division facts used by the digit extraction

  lemma MulMono(d: int, a: int, b: int)
    ensures d > 0 && a <= b ==> d * a <= d * b
  {
  }

  lemma MulDistrib(a: int, b: int, c: int)
    ensures a * (b + c) == a * b + a * c
  {
  }

  lemma MulRotate(a: int, b: int, c: int)
    ensures a * (b * c) == (b * a) * c
  {
  }

  lemma DivUnique(x: int, d: int, q: int, r: int)
    requires d > 0 && 0 <= r < d && x == d * q + r
    ensures x / d == q && x % d == r
  {
    var q', r' := x / d, x % d;
    MulMono(d, q + 1, q');
    MulMono(d, q' + 1, q);
    MulDistrib(d, q, 1);
    MulDistrib(d, q', 1);
  }

  /** `n` split at `m * a`: quotient `(n / a) / m`, remainder `a * ((n / a) % m) + n % a`. */
  lemma SplitAt(n: nat, a: nat, m: nat)
    requires a > 0 && m > 0
    ensures n == (m * a) * ((n / a) / m) + (a * ((n / a) % m) + n % a)
    ensures 0 <= a * ((n / a) % m) + n % a < m * a
  {
    var q, r := n / a, n % a;
    var q2, r2 := q / m, q % m;
    MulDistrib(a, m * q2, r2);
    MulRotate(a, m, q2);
    MulMono(a, r2, m - 1);
    MulDistrib(a, m - 1, 1);
    assert a * m == m * a;
  }

  lemma DivDiv(n: nat, a: nat, b: nat)
    requires a > 0 && b > 0
    ensures n / a / b == n / (a * b)
  {
    SplitAt(n, a, b);
    assert b * a == a * b;
    DivUnique(n, b * a, (n / a) / b, a * ((n / a) % b) + n % a);
  }

  /** The digit at power `k` is the quotient by `10^k`, modulo 10. */
  lemma {:induction false} DigitIsDiv(n: nat, k: nat)
    ensures Digit(n, k) == (n / Pow10(k)) % 10
  {
    if k > 0 {
      DigitIsDiv(n / 10, k - 1);
      DivDiv(n, 10, Pow10(k - 1));
    }
  }

  /** The `k` lowest digits are the remainder modulo `10^k`. */
  lemma {:induction false} LowIsMod(n: nat, k: nat)
    ensures Low(n, k) == n % Pow10(k)
  {
    if k > 0 {
      var p := Pow10(k - 1);
      LowIsMod(n / 10, k - 1);
      SplitAt(n, 10, p);
      DivUnique(n, p * 10, (n / 10) / p, 10 * ((n / 10) % p) + n % 10);
    }
  }

  /** A number with at most `k` digits is its own `k` lowest digits. */
  lemma LowOfSmall(n: nat, k: nat)
    requires n < Pow10(k)
    ensures Low(n, k) == n
  {
    LowIsMod(n, k);
    DivUnique(n, Pow10(k), 0, n);
  }

  /** One more low digit: the digit at power `k` joins the `k` digits below it. */
  lemma {:induction false} LowStep(n: nat, k: nat)
    ensures Low(n, k) < Pow10(k)
    ensures Low(n, k + 1) == Low(n, k) + Pow10(k) * Digit(n, k)
  {
    if k > 0 {
      LowStep(n / 10, k - 1);
      MulDistrib(10, Low(n / 10, k - 1), Pow10(k - 1) * Digit(n, k));
      MulRotate(10, Pow10(k - 1), Digit(n, k));
    }
  }

  /**
   * The C formulas for one digit pair, on the remainder `x` whose two top digits
   * are `d1` and `d0` at powers `10b` and `b`, over the lower part `l`.
   */
  lemma PairFormulas(x: nat, l: nat, b: nat, d0: nat, d1: nat)
    requires 0 <= l < b && d0 < 10 && d1 < 10
    requires x == l + b * d0 + (10 * b) * d1
    ensures (x - x % (10 * b)) / (10 * b) == d1
    ensures (x - x % b) / b - d1 * 10 == d0
    ensures x - (d1 * 10 + d0) * b == l && l <= x
  {
    MulMono(b, d0, 9);
    MulDistrib(b, 9, 1);
    DivUnique(x, 10 * b, d1, l + b * d0);
    DivUnique(x - x % (10 * b), 10 * b, d1, 0);
    MulRotate(b, 10, d1);
    MulDistrib(b, d0, 10 * d1);
    DivUnique(x, b, d0 + 10 * d1, l);
    DivUnique(x - x % b, b, d0 + 10 * d1, 0);
  }

  lemma Pow10Values()
    ensures Pow10(6) == 1_000_000 && Pow10(7) == 10_000_000 && Pow10(8) == 100_000_000
    ensures Pow10(16) == 10_000_000_000_000_000 && Pow10(17) == 100_000_000_000_000_000
    ensures Pow10(18) == 1_000_000_000_000_000_000 && Pow10(19) == 10_000_000_000_000_000_000
    ensures Pow10(20) == 100_000_000_000_000_000_000
  {
    assert Pow10(2) == 100;
    assert Pow10(4) == 10_000;
    assert Pow10(6) == 1_000_000;
    assert Pow10(8) == 100_000_000;
    assert Pow10(10) == 10_000_000_000;
    assert Pow10(12) == 1_000_000_000_000;
    assert Pow10(14) == 100_000_000_000_000;
    assert Pow10(16) == 10_000_000_000_000_000;
    assert Pow10(18) == 1_000_000_000_000_000_000;
  }

  lemma Pow10Shift(e: nat)
    ensures Pow10(e + 2) / 10 == Pow10(e + 1)
    ensures Pow10(e + 1) / 10 / 10 == Pow10(e) / 10
  {
    if e > 0 {
      assert Pow10(e + 1) == 100 * Pow10(e - 1);
    }
  }

  // ---------------------------------------------------------------------------
  // The header layout

  /** The 28 digits of the header: 8 of the frame number, then 20 of the timestamp. */
  function HeaderDigits(frameNumber: nat, timestamp: nat): (ds: seq<nat>)
    ensures |ds| == HeaderBytes
  {
    Digits(frameNumber, FrameDigits) + Digits(timestamp, TimestampDigits)
  }

  /** The byte written at offset `2 * i`: digit `2i` in the high nibble, digit `2i + 1` in the low one. */
  function PackedByte(frameNumber: nat, timestamp: nat, i: nat): (b: byte)
    requires i < HeaderBytes / 2
    ensures b / 16 == HeaderDigits(frameNumber, timestamp)[2 * i]
    ensures b % 16 == HeaderDigits(frameNumber, timestamp)[2 * i + 1]
    ensures b / 16 <= 9 && b % 16 <= 9
  {
    var ds := HeaderDigits(frameNumber, timestamp);
    DigitsAreDecimal(frameNumber, FrameDigits);
    DigitsAreDecimal(timestamp, TimestampDigits);
    assert ds[2 * i] < 10 && ds[2 * i + 1] < 10;
    16 * ds[2 * i] + ds[2 * i + 1]
  }

  /** The frame after the header is written: bytes 0, 2, ..., 26 replaced, all others kept. */
  function WithHeader(frame: seq<byte>, frameNumber: nat, timestamp: nat): (r: seq<byte>)
    requires |frame| >= HeaderBytes
    ensures |r| == |frame|
  {
    seq(|frame|, k requires 0 <= k < |frame| =>
      if k < HeaderBytes && k % 2 == 0 then PackedByte(frameNumber, timestamp, k / 2) else frame[k])
  }

  /** The digits held in the nibbles of the header's even bytes. */
  function HeaderNibbles(frame: seq<byte>): (ds: seq<nat>)
    requires |frame| >= HeaderBytes
    ensures |ds| == HeaderBytes
  {
    seq(HeaderBytes, j requires 0 <= j < HeaderBytes =>
      if j % 2 == 0 then frame[j] / 16 else frame[j - 1] % 16)
  }

  /** Reads a header back: the frame number and the timestamp it carries. */
  function DecodeHeader(frame: seq<byte>): (r: (nat, nat))
    requires |frame| >= HeaderBytes
  {
    var ds := HeaderNibbles(frame);
    (FromDigits(ds[..FrameDigits]), FromDigits(ds[FrameDigits..]))
  }

  // ---------------------------------------------------------------------------
  // Properties of the layout

  /** Byte `2i` holds `16 * d[2i] + d[2i+1]`; odd bytes and bytes from 28 on keep their values. */
  lemma HeaderLayout(frame: seq<byte>, frameNumber: nat, timestamp: nat)
    requires |frame| >= HeaderBytes
    ensures forall i :: 0 <= i < HeaderBytes / 2 ==>
      WithHeader(frame, frameNumber, timestamp)[2 * i]
        == 16 * HeaderDigits(frameNumber, timestamp)[2 * i] + HeaderDigits(frameNumber, timestamp)[2 * i + 1]
    ensures forall k :: 0 <= k < |frame| && (k % 2 == 1 || k >= HeaderBytes) ==>
      WithHeader(frame, frameNumber, timestamp)[k] == frame[k]
  {
  }

  /** The nibbles of the written header are exactly the 28 header digits. */
  lemma NibblesOfHeader(frame: seq<byte>, frameNumber: nat, timestamp: nat)
    requires |frame| >= HeaderBytes
    ensures HeaderNibbles(WithHeader(frame, frameNumber, timestamp)) == HeaderDigits(frameNumber, timestamp)
  {
    var w := WithHeader(frame, frameNumber, timestamp);
    var hd := HeaderDigits(frameNumber, timestamp);
    var ns := HeaderNibbles(w);
    forall j | 0 <= j < HeaderBytes ensures ns[j] == hd[j] {
      var i := j / 2;
      var b := PackedByte(frameNumber, timestamp, i);
      assert w[2 * i] == b;
    }
  }

  /** Unpacking the nibbles gives back the frame number and the timestamp. */
  lemma {:induction false} DecodeWithHeader(frame: seq<byte>, frameNumber: nat, timestamp: nat)
    requires |frame| >= HeaderBytes
    requires frameNumber < Pow10(FrameDigits) && timestamp < Pow10(TimestampDigits)
    ensures DecodeHeader(WithHeader(frame, frameNumber, timestamp)) == (frameNumber, timestamp)
  {
    var ns := HeaderNibbles(WithHeader(frame, frameNumber, timestamp));
    NibblesOfHeader(frame, frameNumber, timestamp);
    assert ns[..FrameDigits] == Digits(frameNumber, FrameDigits);
    assert ns[FrameDigits..] == Digits(timestamp, TimestampDigits);
    FromDigitsOfDigits(frameNumber, FrameDigits);
    FromDigitsOfDigits(timestamp, TimestampDigits);
  }

  /** Frame number 1042 gives 0x00, 0x00, 0x10, 0x42 in the four frame-number pixels. */
  lemma FrameNumberExample(frame: seq<byte>, timestamp: nat)
    requires |frame| >= HeaderBytes
    ensures var w := WithHeader(frame, 1042, timestamp);
      w[0] == 0x00 && w[2] == 0x00 && w[4] == 0x10 && w[6] == 0x42
  {
    var ds := Digits(1042, FrameDigits);
    assert ds == [0, 0, 0, 0, 1, 0, 4, 2];
    var w := WithHeader(frame, 1042, timestamp);
    assert w[4] == PackedByte(1042, timestamp, 2);
    assert w[6] == PackedByte(1042, timestamp, 3);
  }

  /** Pixel `i` of the header in terms of the decimal digits of the number it carries. */
  lemma PackedByteDigits(frameNumber: nat, timestamp: nat, i: nat)
    requires i < HeaderBytes / 2
    ensures i < 4 ==> (PackedByte(frameNumber, timestamp, i)
      == 16 * Digit(frameNumber, 7 - 2 * i) + Digit(frameNumber, 6 - 2 * i))
    ensures i >= 4 ==> (PackedByte(frameNumber, timestamp, i)
      == 16 * Digit(timestamp, 27 - 2 * i) + Digit(timestamp, 26 - 2 * i))
  {
    var b := PackedByte(frameNumber, timestamp, i);
    assert b == 16 * (b / 16) + b % 16;
    if i < 4 {
      DigitsAt(frameNumber, FrameDigits, 2 * i);
      DigitsAt(frameNumber, FrameDigits, 2 * i + 1);
    } else {
      DigitsAt(timestamp, TimestampDigits, 2 * i - 8);
      DigitsAt(timestamp, TimestampDigits, 2 * i - 7);
    }
  }

  /** `frame` with its even bytes below `n` taken from `target`. */
  function WrittenUpTo(frame: seq<byte>, target: seq<byte>, n: nat): (r: seq<byte>)
    requires |target| == |frame|
    ensures |r| == |frame|
  {
    seq(|frame|, k requires 0 <= k < |frame| => if k < n && k % 2 == 0 then target[k] else frame[k])
  }

  lemma WrittenUpToStep(frame: seq<byte>, target: seq<byte>, n: nat)
    requires |target| == |frame| && n % 2 == 0 && n < |frame|
    ensures WrittenUpTo(frame, target, n)[n := target[n]] == WrittenUpTo(frame, target, n + 2)
  {
  }

  lemma WrittenUpToAll(frame: seq<byte>, frameNumber: nat, timestamp: nat)
    requires |frame| >= HeaderBytes
    ensures WrittenUpTo(frame, WithHeader(frame, frameNumber, timestamp), HeaderBytes)
      == WithHeader(frame, frameNumber, timestamp)
  {
  }

  // ---------------------------------------------------------------------------
  // The encoder

  /**
   * One turn of the packing loops, with `pow` at 10^(e+1) and `offset` holding
   * the part of `value` above its `e + 2` lowest digits: the digits at powers
   * `e + 1` and `e`, and the offset once these two are taken off too.
   */
  method TakeDigitPair(value: nat, offset: nat, pow: nat, ghost e: nat) returns (hi: int, lo: int, newOffset: int)
    requires pow == Pow10(e + 1)
    requires offset <= value && value - offset == Low(value, e + 2)
    ensures hi == Digit(value, e + 1) && lo == Digit(value, e)
    ensures 0 <= newOffset <= value && value - newOffset == Low(value, e)
  {
    var x := value - offset;
    var p := pow / 10;
    assert p == Pow10(e) && pow == 10 * p;
    assert (x - x % pow) / pow == Digit(value, e + 1) &&
      (x - x % p) / p - Digit(value, e + 1) * 10 == Digit(value, e) &&
      x - (Digit(value, e + 1) * 10 + Digit(value, e)) * p == Low(value, e) <= x by {
      LowStep(value, e);
      LowStep(value, e + 1);
      PairFormulas(x, Low(value, e), p, Digit(value, e), Digit(value, e + 1));
    }
    hi := (x - x % pow) / pow;
    lo := (x - x % p) / p - hi * 10;
    newOffset := offset + (hi * 10 + lo) * p;
  }

  /** Writes pixel `i` of the header, whose digits are `hi` and `lo`, as the byte `hi * 16 + lo`. */
  method WritePacked(data: array<byte>, i: nat, hi: int, lo: int,
                     ghost frameNumber: nat, ghost timestamp: nat, ghost frame: seq<byte>)
    requires data.Length == |frame| >= HeaderBytes && i < HeaderBytes / 2
    requires i < 4 ==> hi == Digit(frameNumber, 7 - 2 * i) && lo == Digit(frameNumber, 6 - 2 * i)
    requires i >= 4 ==> hi == Digit(timestamp, 27 - 2 * i) && lo == Digit(timestamp, 26 - 2 * i)
    requires data[..] == WrittenUpTo(frame, WithHeader(frame, frameNumber, timestamp), 2 * i)
    modifies data
    ensures data[..] == WrittenUpTo(frame, WithHeader(frame, frameNumber, timestamp), 2 * i + 2)
  {
    ghost var target := WithHeader(frame, frameNumber, timestamp);
    PackedByteDigits(frameNumber, timestamp, i);
    assert target[2 * i] == PackedByte(frameNumber, timestamp, i);
    WrittenUpToStep(frame, target, 2 * i);
    data[2 * i] := hi * 16 + lo;
  }

  /**
   * Overwrites bytes 0, 2, ..., 26 of the decoded frame `data` with the packed
   * digits of `frameNumber` (pixels 0-3) and `timestamp` (pixels 4-13).
   * The timestamp's first pixel is taken with the powers 10^19 and 10^18, and
   * its digits are taken off at 10^18, as the layout requires.
   */
  method AddTimeToFrame(timestamp: nat, data: array<byte>, frameNumber: nat)
    requires data.Length >= HeaderBytes
    requires frameNumber < Pow10(FrameDigits) && timestamp < Pow10(TimestampDigits)
    modifies data
    ensures data[..] == WithHeader(old(data[..]), frameNumber, timestamp)
  {
    ghost var frame := data[..];
    PackFrameNumber(data, frameNumber, timestamp, frame);
    PackTimestamp(timestamp, data, frameNumber, frame);
  }

  /** The first section of `AddTimeToFrame`: frame number on pixels 0-3 (bytes 0-7). */
  method PackFrameNumber(data: array<byte>, frameNumber: nat, ghost timestamp: nat, ghost frame: seq<byte>)
    requires data.Length >= HeaderBytes && data[..] == frame
    requires frameNumber < Pow10(FrameDigits)
    modifies data
    ensures data[..] == WrittenUpTo(frame, WithHeader(frame, frameNumber, timestamp), 2 * 4)
  {
    var hi, lo: int;
    var pow: nat := 10_000_000;
    var offset: nat := 0;
    assert pow == Pow10(FrameDigits) / 10 by {
      Pow10Values();
    }
    LowOfSmall(frameNumber, FrameDigits);
    for i := 0 to 4
      invariant pow == Pow10(FrameDigits - 2 * i) / 10
      invariant offset <= frameNumber && frameNumber - offset == Low(frameNumber, FrameDigits - 2 * i)
      invariant data[..] == WrittenUpTo(frame, WithHeader(frame, frameNumber, timestamp), 2 * i)
    {
      ghost var e := 6 - 2 * i;
      assert FrameDigits - 2 * i == e + 2 && FrameDigits - 2 * (i + 1) == e && 7 - 2 * i == e + 1;
      Pow10Shift(e);
      hi, lo, offset := TakeDigitPair(frameNumber, offset, pow, e);
      WritePacked(data, i, hi, lo, frameNumber, timestamp, frame);
      pow := pow / 10 / 10;
    }
  }

  /** The second section of `AddTimeToFrame`: timestamp on pixels 4-13 (bytes 8-27). */
  method PackTimestamp(timestamp: nat, data: array<byte>, ghost frameNumber: nat, ghost frame: seq<byte>)
    requires data.Length == |frame| >= HeaderBytes
    requires timestamp < Pow10(TimestampDigits)
    requires data[..] == WrittenUpTo(frame, WithHeader(frame, frameNumber, timestamp), 2 * 4)
    modifies data
    ensures data[..] == WithHeader(frame, frameNumber, timestamp)
  {
    var hi, lo: int;
    var pow: nat := 100_000_000_000_000_000;
    var offset: nat := 0;

    // the first pixel, with the powers 10^19 and 10^18
    assert pow == Pow10(18) / 10 && 10_000_000_000_000_000_000 == Pow10(19) by {
      Pow10Values();
    }
    LowOfSmall(timestamp, TimestampDigits);
    hi, lo, offset := TakeDigitPair(timestamp, offset, 10_000_000_000_000_000_000, 18);
    WritePacked(data, 4, hi, lo, frameNumber, timestamp, frame);

    for i := 0 to 9
      invariant pow == Pow10(18 - 2 * i) / 10
      invariant offset <= timestamp && timestamp - offset == Low(timestamp, 18 - 2 * i)
      invariant data[..] == WrittenUpTo(frame, WithHeader(frame, frameNumber, timestamp), 2 * (5 + i))
    {
      ghost var e := 16 - 2 * i;
      assert 18 - 2 * i == e + 2 && 18 - 2 * (i + 1) == e && 27 - 2 * (5 + i) == e + 1;
      Pow10Shift(e);
      hi, lo, offset := TakeDigitPair(timestamp, offset, pow, e);
      WritePacked(data, 5 + i, hi, lo, frameNumber, timestamp, frame);
      pow := pow / 10 / 10;
    }
    WrittenUpToAll(frame, frameNumber, timestamp);
  }

  // ---------------------------------------------------------------------------
  // The timestamp's first pixel as the plugin writes it

  /**
   * The offset the timestamp loop starts from when the first pixel is taken as
   * the plugin writes it: the two digits at 10^19 and 10^18 are scaled back by
   * `pow`, which still holds 10^17 there, so they are taken off ten times too small.
   */
  function FirstPixelOffsetAsWritten(timestamp: nat): (offset: int)
  {
    var hi := timestamp / Pow10(19);
    var lo := timestamp / Pow10(18) - hi * 10;
    (hi * 10 + lo) * Pow10(17)
  }

  /** Byte 10 as the plugin writes it: the timestamp loop's first turn, from that offset. */
  function SecondTimestampByteAsWritten(timestamp: nat): (b: byte)
  {
    var x := timestamp - FirstPixelOffsetAsWritten(timestamp);
    var pow := Pow10(17);
    var hi := (x - x % pow) / pow;
    var lo := (x - x % (pow / 10)) / (pow / 10) - hi * 10;
    (hi * 16 + lo) % 256
  }

  lemma AsWrittenAtPow18()
    ensures SecondTimestampByteAsWritten(Pow10(18)) == 0x90
  {
    Pow10Values();
    assert FirstPixelOffsetAsWritten(Pow10(18)) == Pow10(17);
  }

  /** Below its leading 1, every digit of a power of ten is 0. */
  lemma {:induction false} DigitOfPower(j: nat, k: nat)
    requires k < j
    ensures Digit(Pow10(j), k) == 0
  {
    if k > 0 {
      DigitOfPower(j - 1, k - 1);
    }
  }

  /**
   * For the timestamp 10^18 (digits 01 followed by eighteen zeros) the plugin
   * writes 0x90 at byte 10, where the packed digits 0 and 0 belong.
   */
  lemma TimestampOffsetCounterexample(frame: seq<byte>, frameNumber: nat)
    requires |frame| >= HeaderBytes
    ensures SecondTimestampByteAsWritten(Pow10(18)) == 0x90
    ensures WithHeader(frame, frameNumber, Pow10(18))[10] == 0x00
  {
    AsWrittenAtPow18();
    DigitOfPower(18, 17);
    DigitOfPower(18, 16);
    PackedByteDigits(frameNumber, Pow10(18), 5);
  }
}
