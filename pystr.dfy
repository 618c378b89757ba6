/** The pieces of Python's `str` type and `string` module that the notebook uses:
    the character-class constants, `str.isspace` and `str.strip()`, `str(n)` for a
    non-negative integer, and `str.zfill`. */
module PyStr {

  /** `string.digits`. */
  const Digits: string := "0123456789"

  /** `string.ascii_letters`, i.e. `ascii_lowercase + ascii_uppercase`. */
  const AsciiLetters: string := AsciiLowercase + AsciiUppercase

  /** `string.ascii_lowercase`. */
  const AsciiLowercase: string := "abcdefghijklmnopqrstuvwxyz"

  /** `string.ascii_uppercase`. */
  const AsciiUppercase: string := "ABCDEFGHIJKLMNOPQRSTUVWXYZ"

  predicate IsDigit(c: char) {
    '0' <= c <= '9'
  }

  predicate IsAsciiLetter(c: char) {
    'a' <= c <= 'z' || 'A' <= c <= 'Z'
  }

  /** A string made only of decimal digits (possibly empty). */
  predicate IsDecimal(s: string) {
    forall k :: 0 <= k < |s| ==> IsDigit(s[k])
  }

  lemma DigitsMembers(c: char)
    ensures c in Digits <==> IsDigit(c)
  {
    if IsDigit(c) {
      assert Digits[c as int - '0' as int] == c;
    }
  }

  lemma LowercaseAt()
    ensures forall k :: 0 <= k < 26 ==> AsciiLowercase[k] as int == 'a' as int + k
  {
  }

  lemma UppercaseAt()
    ensures forall k :: 0 <= k < 26 ==> AsciiUppercase[k] as int == 'A' as int + k
  {
  }

  lemma AsciiLettersMembers(c: char)
    ensures c in AsciiLetters <==> IsAsciiLetter(c)
  {
    LowercaseAt();
    UppercaseAt();
    if 'a' <= c <= 'z' {
      assert AsciiLetters[c as int - 'a' as int] == c;
    } else if 'A' <= c <= 'Z' {
      assert AsciiLetters[26 + c as int - 'A' as int] == c;
    }
  }

  // ---------------------------------------------------------------------------
  // str.isspace and str.strip()
  // ---------------------------------------------------------------------------

  /** Python's `str.isspace` on one character: the ASCII separators and controls
      U+0009..U+000D, U+001C..U+001F and U+0020, and the Unicode white space
      U+0085, U+00A0, U+1680, U+2000..U+200A, U+2028, U+2029, U+202F, U+205F and U+3000. */
  predicate IsSpace(c: char) {
    ('\t' <= c <= '\r') || ('\U{1C}' <= c <= ' ') ||
    c == '\U{85}' || c == '\U{A0}' || c == '\U{1680}' ||
    ('\U{2000}' <= c <= '\U{200A}') || c == '\U{2028}' || c == '\U{2029}' ||
    c == '\U{202F}' || c == '\U{205F}' || c == '\U{3000}'
  }

  predicate AllSpace(s: string) {
    forall k :: 0 <= k < |s| ==> IsSpace(s[k])
  }

  /** The index of the first non-space character at or after `i` (`|s|` if none):
      the forward scan of `str.strip`. */
  function SpanStart(s: string, i: nat): (r: nat)
    requires i <= |s|
    ensures i <= r <= |s|
    ensures forall k :: i <= k < r ==> IsSpace(s[k])
    ensures r < |s| ==> !IsSpace(s[r])
    decreases |s| - i
  {
    if i < |s| && IsSpace(s[i]) then SpanStart(s, i + 1) else i
  }

  /** Moving `j` down past spaces but never below `lo`: the backward scan of `str.strip`. */
  function SpanEnd(s: string, lo: nat, j: nat): (r: nat)
    requires lo <= j <= |s|
    ensures lo <= r <= j
    ensures forall k :: r <= k < j ==> IsSpace(s[k])
    ensures r > lo ==> !IsSpace(s[r - 1])
  {
    if j > lo && IsSpace(s[j - 1]) then SpanEnd(s, lo, j - 1) else j
  }

  /** The slice bounds `(i, j)` that `s.strip()` keeps: everything before `i` and
      from `j` on is space, and a non-empty kept slice starts and ends with a
      non-space character. */
  function StripBounds(s: string): (b: (nat, nat))
    ensures b.0 <= b.1 <= |s|
    ensures forall k :: 0 <= k < b.0 ==> IsSpace(s[k])
    ensures forall k :: b.1 <= k < |s| ==> IsSpace(s[k])
    ensures b.0 < b.1 ==> !IsSpace(s[b.0]) && !IsSpace(s[b.1 - 1])
    ensures b.0 == b.1 <==> AllSpace(s)
  {
    var i := SpanStart(s, 0);
    (i, SpanEnd(s, i, |s|))
  }

  /** `s.strip()`: the result is empty exactly when `s` is all space, and otherwise
      neither starts nor ends with a space and is `s` with only space removed
      from its two ends. */
  function Strip(s: string): (r: string)
    ensures r == s[StripBounds(s).0..StripBounds(s).1]
    ensures r == [] <==> AllSpace(s)
    ensures r != [] ==> !IsSpace(r[0]) && !IsSpace(r[|r| - 1])
  {
    var b := StripBounds(s);
    s[b.0..b.1]
  }

  lemma {:induction false} StripIdempotent(s: string)
    ensures Strip(Strip(s)) == Strip(s)
  {
    var r := Strip(s);
    var b := StripBounds(r);
    if r != [] {
      assert b.0 == 0 && b.1 == |r|;
      assert r[0..|r|] == r;
    }
  }

  // ---------------------------------------------------------------------------
  // str(n) for n >= 0 and its inverse, the value of a digit string
  // ---------------------------------------------------------------------------

  /** `str(n)`: the shortest decimal spelling, with a leading `'0'` only for zero. */
  function DecimalString(n: nat): (s: string)
    ensures s != [] && IsDecimal(s)
    ensures s[0] == '0' <==> n == 0
  {
    if n < 10 then [Digits[n]] else DecimalString(n / 10) + [Digits[n % 10]]
  }

  /** `str(n)` has one digit below 10, at most two below 100, at most three below 1000. */
  lemma {:induction false} DecimalStringLength(n: nat)
    ensures n < 10 <==> |DecimalString(n)| == 1
    ensures n < 100 <==> |DecimalString(n)| <= 2
    ensures n < 1000 <==> |DecimalString(n)| <= 3
  {
    if n >= 10 {
      DecimalStringLength(n / 10);
    }
  }

  function DigitValue(c: char): (d: nat)
    requires IsDigit(c)
    ensures d < 10 && Digits[d] == c
  {
    c as int - '0' as int
  }

  /** The number a string of decimal digits denotes (the empty string denotes 0). */
  function DecimalValue(s: string): nat
    requires IsDecimal(s)
  {
    if s == [] then 0 else 10 * DecimalValue(s[..|s| - 1]) + DigitValue(s[|s| - 1])
  }

  lemma {:induction false} DecimalRoundTrip(n: nat)
    ensures DecimalValue(DecimalString(n)) == n
  {
    var s := DecimalString(n);
    if n >= 10 {
      DecimalRoundTrip(n / 10);
      assert s[..|s| - 1] == DecimalString(n / 10);
    } else {
      assert s[..|s| - 1] == [];
    }
  }

  /** `str` is injective on non-negative integers. */
  lemma DecimalStringInjective(m: nat, n: nat)
    ensures DecimalString(m) == DecimalString(n) ==> m == n
  {
    DecimalRoundTrip(m);
    DecimalRoundTrip(n);
  }

  function Zeros(k: nat): (z: string)
    ensures |z| == k && forall i :: 0 <= i < k ==> z[i] == '0'
  {
    seq(k, _ => '0')
  }

  lemma {:induction false} LeadingZeroValue(s: string)
    requires IsDecimal(s)
    ensures IsDecimal("0" + s) && DecimalValue("0" + s) == DecimalValue(s)
  {
    var t := "0" + s;
    if s == [] {
      assert t[..|t| - 1] == [];
    } else {
      assert t[..|t| - 1] == "0" + s[..|s| - 1];
      LeadingZeroValue(s[..|s| - 1]);
    }
  }

  lemma {:induction false} LeadingZerosValue(k: nat, s: string)
    requires IsDecimal(s)
    ensures IsDecimal(Zeros(k) + s) && DecimalValue(Zeros(k) + s) == DecimalValue(s)
  {
    if k > 0 {
      var t := Zeros(k - 1) + s;
      LeadingZerosValue(k - 1, s);
      LeadingZeroValue(t);
      assert Zeros(k) + s == "0" + t;
    } else {
      assert Zeros(k) + s == s;
    }
  }

  // ---------------------------------------------------------------------------
  // str.zfill
  // ---------------------------------------------------------------------------

  /** `s.zfill(width)`: pads `s` on the left with `'0'` up to `width` characters,
      keeping a leading `'+'` or `'-'` in front of the padding; a string that is
      already `width` long or longer comes back unchanged. */
  function ZFill(s: string, width: nat): (r: string)
    ensures |r| == if |s| >= width then |s| else width
    ensures |s| >= width ==> r == s
    ensures s == [] || s[0] !in "+-" ==>
      r[|r| - |s|..] == s && forall k :: 0 <= k < |r| - |s| ==> r[k] == '0'
  {
    if |s| >= width then s
    else if s != [] && (s[0] == '+' || s[0] == '-') then [s[0]] + Zeros(width - |s|) + s[1..]
    else Zeros(width - |s|) + s
  }

  /** Zero-padding a digit string keeps its numeric value. */
  lemma ZFillKeepsValue(s: string, width: nat)
    requires IsDecimal(s)
    ensures IsDecimal(ZFill(s, width)) && DecimalValue(ZFill(s, width)) == DecimalValue(s)
  {
    if |s| < width {
      LeadingZerosValue(width - |s|, s);
    }
  }
}
