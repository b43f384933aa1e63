/** Character classes and case mappings used by the recognizers, over ASCII:
    the invariant culture's case mapping and ordinal-ignore-case comparison
    are taken for their ASCII part only. */
module Chars {

  predicate IsAsciiDigit(c: char) { '0' <= c <= '9' }
  predicate IsAsciiUpper(c: char) { 'A' <= c <= 'Z' }
  predicate IsAsciiLower(c: char) { 'a' <= c <= 'z' }
  predicate IsAsciiLetter(c: char) { IsAsciiUpper(c) || IsAsciiLower(c) }
  predicate IsAsciiAlnum(c: char) { IsAsciiLetter(c) || IsAsciiDigit(c) }

  predicate AllDigits(s: string) { forall i :: 0 <= i < |s| ==> IsAsciiDigit(s[i]) }

  /** `c - '0'`, the source's digit conversion. */
  function DigitVal(c: char): int { c as int - '0' as int }

  function ToUpper(c: char): (u: char)
    ensures IsAsciiLower(c) ==> IsAsciiUpper(u) && u as int == c as int - 32
    ensures !IsAsciiLower(c) ==> u == c
  {
    if IsAsciiLower(c) then (c as int - 32) as char else c
  }

  function ToLower(c: char): (l: char)
    ensures IsAsciiUpper(c) ==> IsAsciiLower(l) && l as int == c as int + 32
    ensures !IsAsciiUpper(c) ==> l == c
  {
    if IsAsciiUpper(c) then (c as int + 32) as char else c
  }

  /** ToUpperInvariant: length-preserving, character by character. */
  function Upper(s: string): (u: string)
    ensures |u| == |s| && forall i :: 0 <= i < |s| ==> u[i] == ToUpper(s[i])
  {
    seq(|s|, i requires 0 <= i < |s| => ToUpper(s[i]))
  }

  /** ToLowerInvariant: length-preserving, character by character. */
  function Lower(s: string): (l: string)
    ensures |l| == |s| && forall i :: 0 <= i < |s| ==> l[i] == ToLower(s[i])
  {
    seq(|s|, i requires 0 <= i < |s| => ToLower(s[i]))
  }

  /** Lower-casing twice is lower-casing once, and lower-casing after
      upper-casing is plain lower-casing. */
  lemma LowerAbsorbs(s: string)
    ensures Lower(Lower(s)) == Lower(s)
    ensures Lower(Upper(s)) == Lower(s)
  {
  }

  /** `s.StartsWith(p, StringComparison.OrdinalIgnoreCase)`. */
  predicate StartsWithIgnoreCase(s: string, p: string)
    ensures StartsWithIgnoreCase(s, p) ==> |p| <= |s|
    ensures p <= s ==> StartsWithIgnoreCase(s, p)
  {
    |p| <= |s| && Upper(s[..|p|]) == Upper(p)
  }

  /** `char.IsWhiteSpace`: the Unicode White_Space characters. */
  predicate IsWhiteSpace(c: char)
    ensures IsWhiteSpace(c) ==> !IsAsciiAlnum(c)
    ensures c < '\U{0080}' ==> (IsWhiteSpace(c) <==> c == ' ' || '\t' <= c <= '\r')
  {
    ('\t' <= c <= '\r') || c == ' ' || c == '\U{0085}' || c == '\U{00A0}' || c == '\U{1680}'
    || ('\U{2000}' <= c <= '\U{200A}') || c == '\U{2028}' || c == '\U{2029}'
    || c == '\U{202F}' || c == '\U{205F}' || c == '\U{3000}'
  }

  /** `string.IsNullOrWhiteSpace`, a null string being the empty one. */
  predicate IsBlank(s: string)
  {
    forall i :: 0 <= i < |s| ==> IsWhiteSpace(s[i])
  }

  function Pow10(n: nat): (p: nat)
    ensures p >= 1
  {
    if n == 0 then 1 else 10 * Pow10(n - 1)
  }

  /** The value of a decimal numeral, read left to right (Horner's rule);
      this is also what `int.Parse` yields on a string of ASCII digits. */
  function NumeralValue(ds: string): int
  {
    if ds == [] then 0 else NumeralValue(ds[..|ds| - 1]) * 10 + DigitVal(ds[|ds| - 1])
  }

  /** A numeral of digits has a value in [0, 10^n). */
  lemma {:induction false} NumeralValueBounds(ds: string)
    requires AllDigits(ds)
    ensures 0 <= NumeralValue(ds) < Pow10(|ds|)
  {
    if ds != [] {
      NumeralValueBounds(ds[..|ds| - 1]);
    }
  }

  /** Reading a concatenation: the left part is shifted by the right part's
      length. */
  lemma {:induction false} NumeralValueConcat(a: string, b: string)
    ensures NumeralValue(a + b) == NumeralValue(a) * Pow10(|b|) + NumeralValue(b)
    decreases |b|
  {
    if b == [] {
      assert a + b == a;
    } else {
      var b' := b[..|b| - 1];
      assert (a + b)[..|a + b| - 1] == a + b';
      NumeralValueConcat(a, b');
      calc {
        NumeralValue(a + b);
        NumeralValue(a + b') * 10 + DigitVal(b[|b| - 1]);
        (NumeralValue(a) * Pow10(|b'|) + NumeralValue(b')) * 10 + DigitVal(b[|b| - 1]);
        { assert (NumeralValue(a) * Pow10(|b'|)) * 10 == NumeralValue(a) * (10 * Pow10(|b'|)); }
        NumeralValue(a) * Pow10(|b|) + NumeralValue(b);
      }
    }
  }
}
