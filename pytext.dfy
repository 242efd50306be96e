/**
 * The parts of Python's `str` and `int` that the file stager relies on:
 * `str.isdigit`, `str.isdecimal`, `int(s)` on a string of digits, and
 * `str(n)` (an f-string of a non-negative integer).
 *
 * Python classifies characters by their Unicode numeric type. A character
 * of type Decimal (category Nd) is accepted both by `isdigit` and by `int`;
 * a character of type Digit (superscripts, subscripts, circled digits) is
 * accepted by `isdigit` but rejected by `int`. The tables below hold a
 * representative part of each class.
 */
module PyText {
  import opened Wrappers

  /** The value of `c` as a decimal digit, when Python's `int()` accepts it as one. */
  function DecimalValue(c: char): (r: Option<nat>)
    ensures r.Some? ==> r.value < 10
    ensures '0' <= c <= '9' ==> r == Some(c as int - '0' as int)
  {
    var k := c as int;
    if 0x30 <= k < 0x3A then Some(k - 0x30)            // ASCII
    else if 0x660 <= k < 0x66A then Some(k - 0x660)    // Arabic-Indic
    else if 0x6F0 <= k < 0x6FA then Some(k - 0x6F0)    // Extended Arabic-Indic
    else if 0x966 <= k < 0x970 then Some(k - 0x966)    // Devanagari
    else if 0xFF10 <= k < 0xFF1A then Some(k - 0xFF10) // Fullwidth
    else None
  }

  /** Unicode numeric type Decimal: what `str.isdecimal` accepts. */
  predicate IsDecimalChar(c: char) {
    DecimalValue(c).Some?
  }

  /** Numeric type Digit but not Decimal: superscript and subscript digits, circled digits. */
  predicate IsDigitOnlyChar(c: char) {
    var k := c as int;
    k == 0xB2 || k == 0xB3 || k == 0xB9 || k == 0x2070
    || (0x2074 <= k <= 0x2079) || (0x2080 <= k <= 0x2089) || (0x2460 <= k <= 0x2468)
  }

  /** What `str.isdigit` accepts, character by character. */
  predicate IsDigitChar(c: char) {
    IsDecimalChar(c) || IsDigitOnlyChar(c)
  }

  predicate AllDecimalChars(s: string) {
    forall i :: 0 <= i < |s| ==> IsDecimalChar(s[i])
  }

  /** `s.isdigit()`: non-empty and every character a digit. */
  predicate IsDigitString(s: string) {
    |s| > 0 && forall i :: 0 <= i < |s| ==> IsDigitChar(s[i])
  }

  /** `s.isdecimal()`: non-empty and every character a decimal digit. */
  predicate IsDecimalString(s: string) {
    |s| > 0 && AllDecimalChars(s)
  }

  /** The value `int(s)` gives for a string of decimal digits (leading zeros allowed). */
  function ParseDecimal(s: string): (n: nat)
    requires AllDecimalChars(s)
    ensures s == [] ==> n == 0
  {
    if s == [] then 0
    else 10 * ParseDecimal(s[..|s| - 1]) + DecimalValue(s[|s| - 1]).value
  }

  /** `int(s)` for a string that passed `isdigit`: a ValueError (None) unless every digit is decimal. */
  function IntOfDigits(s: string): (r: Option<nat>)
    requires IsDigitString(s)
    ensures r.Some? <==> IsDecimalString(s)
  {
    if AllDecimalChars(s) then Some(ParseDecimal(s)) else None
  }

  /** The ASCII digit for `d`. */
  function DigitChar(d: nat): (c: char)
    requires d < 10
    ensures '0' <= c <= '9' && DecimalValue(c) == Some(d)
  {
    (d + '0' as int) as char
  }

  /** `str(n)` / `f"{n}"`: ASCII digits, no leading zero. */
  function DecimalString(n: nat): (s: string)
    ensures |s| > 0
    ensures forall i :: 0 <= i < |s| ==> '0' <= s[i] <= '9'
    ensures s[0] == '0' <==> n == 0
    decreases n
  {
    if n < 10 then [DigitChar(n)] else DecimalString(n / 10) + [DigitChar(n % 10)]
  }

  lemma DecimalStringIsDecimal(n: nat)
    ensures IsDecimalString(DecimalString(n))
  {
    var s := DecimalString(n);
    forall i | 0 <= i < |s| ensures IsDecimalChar(s[i]) {
      assert '0' <= s[i] <= '9';
    }
  }

  /** Round trip: `int(str(n)) == n`. */
  lemma {:induction false} ParseDecimalString(n: nat)
    ensures AllDecimalChars(DecimalString(n))
    ensures ParseDecimal(DecimalString(n)) == n
    decreases n
  {
    DecimalStringIsDecimal(n);
    var s := DecimalString(n);
    if n < 10 {
      assert s[..0] == [];
    } else {
      var prefix := DecimalString(n / 10);
      assert s == prefix + [DigitChar(n % 10)];
      assert s[..|s| - 1] == prefix;
      ParseDecimalString(n / 10);
    }
  }

  /** `str` is injective: distinct numbers have distinct decimal names. */
  lemma DecimalStringInjective(m: nat, n: nat)
    requires DecimalString(m) == DecimalString(n)
    ensures m == n
  {
    ParseDecimalString(m);
    ParseDecimalString(n);
  }
}
