/**
 * The bit depth the SDK reports as text ("12 Bit", "16 bit", ...): the first
 * number of one or two numerals in the string.
 */
module BitDepth {

  predicate IsNumeral(c: char)
  {
    '0' <= c <= '9'
  }

  function NumeralValue(c: char): (v: nat)
    requires IsNumeral(c)
    ensures v <= 9
  {
    c as int - '0' as int
  }

  /** `i` is where the first numeral of `s` is. */
  predicate FirstNumeralAt(s: string, i: int)
  {
    0 <= i < |s| && IsNumeral(s[i]) && forall j :: 0 <= j < i ==> !IsNumeral(s[j])
  }

  /** The number of one or two numerals that starts at `i`. */
  function NumberAt(s: string, i: nat): (n: nat)
    requires i < |s| && IsNumeral(s[i])
    ensures n <= 99
  {
    if i + 1 < |s| && IsNumeral(s[i + 1]) then 10 * NumeralValue(s[i]) + NumeralValue(s[i + 1])
    else NumeralValue(s[i])
  }

  /**
   * Scans a C string (no NUL inside) for its first numeral and returns the one-
   * or two-numeral number that starts there; 0 when the string has no numeral.
   */
  method ExtractUintFromString(s: string) returns (num: int)
    requires forall k :: 0 <= k < |s| ==> s[k] != '\0'
    ensures 0 <= num <= 99
    ensures (forall k :: 0 <= k < |s| ==> !IsNumeral(s[k])) ==> num == 0
    ensures forall i :: FirstNumeralAt(s, i) ==> num == NumberAt(s, i)
  {
    var i := 0;
    while i < |s|
      invariant 0 <= i <= |s|
      invariant forall j :: 0 <= j < i ==> !IsNumeral(s[j])
    {
      if IsNumeral(s[i]) {
        if i + 1 < |s| && IsNumeral(s[i + 1]) {
          num := 10 * NumeralValue(s[i]) + NumeralValue(s[i + 1]);
        } else {
          num := NumeralValue(s[i]);
        }
        assert forall k :: FirstNumeralAt(s, k) ==> k == i;
        return;
      }
      i := i + 1;
    }
    return 0;
  }

  /** The decimal text of a number below 100, without leading zero. */
  function Decimal(n: nat): (t: string)
    requires n <= 99
    ensures 1 <= |t| <= 2 && forall k :: 0 <= k < |t| ==> IsNumeral(t[k])
  {
    if n < 10 then ['0' + n as char]
    else ['0' + (n / 10) as char, '0' + (n % 10) as char]
  }

  /**
   * A number written after text without numerals and followed by anything that
   * does not start with a numeral is the first number of the string.
   */
  lemma {:induction false} NumberAfterText(prefix: string, n: nat, suffix: string)
    requires n <= 99
    requires forall k :: 0 <= k < |prefix| ==> !IsNumeral(prefix[k])
    requires suffix != [] ==> !IsNumeral(suffix[0])
    ensures var s := prefix + Decimal(n) + suffix;
      FirstNumeralAt(s, |prefix|) && NumberAt(s, |prefix|) == n
  {
    var s := prefix + Decimal(n) + suffix;
    var d := Decimal(n);
    assert s[|prefix|] == d[0];
    forall j | 0 <= j < |prefix| ensures !IsNumeral(s[j]) {
      assert s[j] == prefix[j];
    }
    if n < 10 {
      if |prefix| + 1 < |s| {
        assert s[|prefix| + 1] == suffix[0];
      }
    } else {
      assert s[|prefix| + 1] == d[1];
    }
  }
}
