/** The Turkish national ID (TCKN) recognizer: active only for the language
    "tr"; each match of `\b[1-9]\d{10}\b` is reported when its two check
    digits agree with the published weighted sums. */
module Tckn {
  import opened Models
  import opened Chars

  /** What the pattern guarantees of a match. */
  predicate TcknShape(v: string)
  {
    |v| == 11 && '1' <= v[0] <= '9' && AllDigits(v)
  }

  /** C#'s `x % 10` on int, which truncates toward zero: the result takes
      the sign of `x`. */
  function TruncRem10(x: int): (r: int)
    ensures x >= 0 ==> r == x % 10
    ensures x < 0 ==> -10 < r <= 0 && (r == 0 || r + 10 == x % 10)
  {
    if x >= 0 then x % 10 else -((-x) % 10)
  }

  /** `s.Select(c => c - '0')`. */
  function DigitsOf(s: string): (d: seq<int>)
    ensures |d| == |s| && forall i :: 0 <= i < |s| ==> d[i] == DigitVal(s[i])
  {
    seq(|s|, i requires 0 <= i < |s| => DigitVal(s[i]))
  }

  function OddSum(d: seq<int>): int
    requires |d| >= 9
  {
    d[0] + d[2] + d[4] + d[6] + d[8]
  }

  function EvenSum(d: seq<int>): int
    requires |d| >= 8
  {
    d[1] + d[3] + d[5] + d[7]
  }

  /** The expected tenth digit as the source computes it: the truncated
      remainder, with 10 added when negative. That is exactly the
      mathematical (non-negative) remainder. */
  function TenthDigit(d: seq<int>): (r: int)
    requires |d| >= 9
    ensures r == (7 * OddSum(d) - EvenSum(d)) % 10
    ensures 0 <= r < 10
  {
    var d10 := TruncRem10(OddSum(d) * 7 - EvenSum(d));
    if d10 < 0 then d10 + 10 else d10
  }

  /** `d.Take(10).Sum()`. */
  function SumFirstTen(d: seq<int>): int
    requires |d| >= 10
  {
    d[0] + d[1] + d[2] + d[3] + d[4] + d[5] + d[6] + d[7] + d[8] + d[9]
  }

  /** `IsValid`: the tenth digit must match the weighted rule, then the
      eleventh must be the sum of the first ten modulo 10. */
  predicate IsValid(s: string)
    requires |s| >= 11
    ensures IsValid(s) ==> '0' <= s[9] <= '9'
  {
    var d := DigitsOf(s);
    d[9] == TenthDigit(d) && d[10] == TruncRem10(SumFirstTen(d))
  }

  /** The per-match decision: the pattern fixes the length at 11, which is
      what the indexing of `IsValid` needs. */
  predicate Accepts(v: string)
  {
    |v| >= 11 && IsValid(v)
  }

  /** What `Analyze` reports for a language and the pattern's matches. */
  function Hits(lang: string, matches: seq<RegexMatch>): (r: seq<PiiHit>)
    ensures forall h :: h in r ==> h.kind == "TCKN"
  {
    if lang != "tr" then [] else HitsOf(matches, Accepts, "TCKN")
  }

  /** `Analyze`: nothing at all unless the language is "tr"; otherwise the
      accepted matches, in order, as TCKN hits of length 11. */
  method Analyze(text: string, lang: string, matches: seq<RegexMatch>) returns (hits: seq<PiiHit>)
    requires forall i :: 0 <= i < |matches| ==> MatchIn(text, matches[i]) && TcknShape(matches[i].value)
    ensures hits == Hits(lang, matches)
    ensures lang != "tr" ==> hits == []
    ensures forall h :: h in hits ==> h.kind == "TCKN" && h.length == 11 && Within(text, h)
  {
    if lang != "tr" {
      return [];
    }
    hits := [];
    for i := 0 to |matches|
      invariant hits == HitsOf(matches[..i], Accepts, "TCKN")
    {
      var m := matches[i];
      HitsOfStep(matches, i, Accepts, "TCKN");
      if IsValid(m.value) {
        hits := hits + [PiiHit("TCKN", m.index, |m.value|)];
      }
    }
    assert matches[..|matches|] == matches;
    HitsOfWithin(text, matches, Accepts, "TCKN");
    forall h | h in hits
      ensures h.length == 11
    {
      HitsOfIff(matches, Accepts, "TCKN", h);
    }
  }

  /** For a string of digits the two checks read as the published rules:
      d10 = (7(d1+d3+d5+d7+d9) - (d2+d4+d6+d8)) mod 10 and
      d11 = (d1+...+d10) mod 10, counting digits from 1. */
  lemma {:induction false} IsValidIff(s: string)
    requires |s| >= 11 && AllDigits(s)
    ensures IsValid(s) <==> RulesHold(DigitsOf(s))
  {
    var d := DigitsOf(s);
    assert forall i :: 0 <= i < 10 ==> d[i] >= 0;
    assert SumFirstTen(d) >= 0;
  }

  function DigitChar(n: int): (c: char)
    requires 0 <= n < 10
    ensures IsAsciiDigit(c) && DigitVal(c) == n
  {
    (n + '0' as int) as char
  }

  /** The two check digits the scheme appends to nine leading digits. */
  function Complete(first: string): (s: string)
    requires |first| == 9 && AllDigits(first)
    ensures |s| == 11 && AllDigits(s) && s[..9] == first
  {
    var d := DigitsOf(first);
    var d10 := (7 * OddSum(d) - EvenSum(d)) % 10;
    var d11 := (d[0] + d[1] + d[2] + d[3] + d[4] + d[5] + d[6] + d[7] + d[8] + d10) % 10;
    first + [DigitChar(d10), DigitChar(d11)]
  }

  /** Completing nine digits with their check digits always yields an ID the
      recognizer accepts. */
  lemma {:induction false} CompleteIsValid(first: string)
    requires |first| == 9 && AllDigits(first)
    ensures IsValid(Complete(first))
  {
    var s := Complete(first);
    var d := DigitsOf(s);
    var d0 := DigitsOf(first);
    assert forall i :: 0 <= i < 9 ==> d[i] == d0[i];
    IsValidIff(s);
  }

  /** Adding a shift that is not a multiple of 10 changes the remainder. */
  lemma ShiftChangesRemainder(x: int, k: int)
    requires k % 10 != 0
    ensures (x + k) % 10 != x % 10
  {
    var q, p := x / 10, (x + k) / 10;
    assert x == q * 10 + x % 10;
    assert x + k == p * 10 + (x + k) % 10;
  }

  /** The two published rules on a sequence of digit values. */
  predicate RulesHold(d: seq<int>)
    requires |d| >= 11
  {
    d[9] == (7 * OddSum(d) - EvenSum(d)) % 10 && d[10] == SumFirstTen(d) % 10
  }

  /** Changing a digit at an odd position (0, 2, …, 8 counting from 0)
      moves the odd sum by the change and leaves the even sum. */
  lemma OddPositionChange(d: seq<int>, i: int, v: int)
    requires |d| == 11 && 0 <= i < 9 && i % 2 == 0
    ensures OddSum(d[i := v]) == OddSum(d) + (v - d[i]) && EvenSum(d[i := v]) == EvenSum(d)
  {
  }

  /** Changing a digit at an even position (1, 3, 5, 7) moves the even sum
      by the change and leaves the odd sum. */
  lemma EvenPositionChange(d: seq<int>, i: int, v: int)
    requires |d| == 11 && 0 <= i < 9 && i % 2 == 1
    ensures OddSum(d[i := v]) == OddSum(d) && EvenSum(d[i := v]) == EvenSum(d) + (v - d[i])
  {
  }

  /** 7 is prime to 10: seven times a non-zero change of one digit is not
      a multiple of 10. */
  lemma SevenTimesChange(delta: int)
    requires -9 <= delta <= 9 && delta != 0
    ensures (7 * delta) % 10 != 0
  {
  }

  lemma {:induction false} RulesBreakOnOneChange(d: seq<int>, i: int, v: int)
    requires |d| == 11 && RulesHold(d)
    requires 0 <= i < 11 && 0 <= v <= 9 && 0 <= d[i] <= 9 && v != d[i]
    ensures !RulesHold(d[i := v])
  {
    var e := d[i := v];
    var delta := v - d[i];
    var x := 7 * OddSum(d) - EvenSum(d);
    if i == 10 {
      assert SumFirstTen(e) == SumFirstTen(d);
    } else if i == 9 {
      assert OddSum(e) == OddSum(d) && EvenSum(e) == EvenSum(d);
    } else if i % 2 == 0 {
      OddPositionChange(d, i, v);
      SevenTimesChange(delta);
      ShiftChangesRemainder(x, 7 * delta);
      assert 7 * OddSum(e) - EvenSum(e) == x + 7 * delta;
    } else {
      EvenPositionChange(d, i, v);
      ShiftChangesRemainder(x, -delta);
      assert 7 * OddSum(e) - EvenSum(e) == x - delta;
    }
  }

  lemma DigitsOfUpdate(s: string, i: int, c: char)
    requires 0 <= i < |s|
    ensures DigitsOf(s[i := c]) == DigitsOf(s)[i := DigitVal(c)]
  {
  }

  /** The two checks catch every single-digit error: changing any one digit
      of a valid ID makes it invalid. The weight 7 of the odd positions is
      prime to 10, so no change of one digit leaves the tenth digit's rule
      satisfied. */
  lemma {:induction false} SingleDigitErrorDetected(s: string, i: int, c: char)
    requires |s| == 11 && AllDigits(s) && IsValid(s)
    requires 0 <= i < 11 && IsAsciiDigit(c) && c != s[i]
    ensures !IsValid(s[i := c])
  {
    var t := s[i := c];
    var d := DigitsOf(s);
    DigitsOfUpdate(s, i, c);
    IsValidIff(s);
    assert RulesHold(d);
    assert 0 <= d[i] <= 9 && DigitVal(c) != d[i];
    assert AllDigits(t);
    IsValidIff(t);
    RulesBreakOnOneChange(d, i, DigitVal(c));
  }

  /** `10000000146` satisfies both checks (d10 = 7·2 mod 10 = 4,
      d11 = 6 mod 10 = 6). */
  lemma Accepts10000000146()
    ensures IsValid("10000000146")
  {
    var d := DigitsOf("10000000146");
    assert d == [1, 0, 0, 0, 0, 0, 0, 0, 1, 4, 6];
  }

  /** `10000000145` fails the eleventh-digit check. */
  lemma Rejects10000000145()
    ensures !IsValid("10000000145")
  {
    var d := DigitsOf("10000000145");
    assert d == [1, 0, 0, 0, 0, 0, 0, 0, 1, 4, 5];
  }

  /** `00000000000` passes both checks; only the pattern's leading [1-9]
      keeps it out. */
  lemma AllZerosOnlyExcludedByPattern()
    ensures IsValid("00000000000") && !TcknShape("00000000000")
  {
    var d := DigitsOf("00000000000");
    assert d == [0, 0, 0, 0, 0, 0, 0, 0, 0, 0, 0];
  }

  /** On the test text "00000000000 10000000146 10000000145" with language
      "tr", the pattern matches at offsets 12 and 24, and the first match is
      reported: the recognizer does not return the empty list the test
      expects. */
  lemma TestTextYieldsHit()
    ensures Hits("tr", [RegexMatch(12, "10000000146"), RegexMatch(24, "10000000145")])
            == [PiiHit("TCKN", 12, 11)]
  {
    Accepts10000000146();
    Rejects10000000145();
    var ms := [RegexMatch(12, "10000000146"), RegexMatch(24, "10000000145")];
    assert ms[..1] == [RegexMatch(12, "10000000146")];
    assert ms[..1][..0] == [];
  }
}
