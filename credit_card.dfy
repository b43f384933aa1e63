/** The credit-card recognizer: each match of `\b(?:\d[ \-]*?){13,19}\b` is
    stripped to its digits and reported when the digits pass the Luhn check
    of ISO/IEC 7812-1 (Annex B) and an issuer prefix/length rule. */
module CreditCard {
  import opened Models
  import opened Chars

  /** What the pattern guarantees of a match: it starts with a digit, holds
      only digits, spaces and dashes, and 13 to 19 digits in all. */
  predicate CardShape(v: string)
  {
    |v| > 0 && IsAsciiDigit(v[0])
    && (forall i :: 0 <= i < |v| ==> IsAsciiDigit(v[i]) || v[i] == ' ' || v[i] == '-')
    && 13 <= |Digits(v)| <= 19
  }

  /** `Where(char.IsDigit)`: the digits of `v`, in order. */
  function Digits(v: string): (ds: string)
    ensures |ds| <= |v| && AllDigits(ds)
  {
    if v == [] then []
    else (if IsAsciiDigit(v[0]) then [v[0]] else []) + Digits(v[1..])
  }

  lemma {:induction false} DigitsConcat(a: string, b: string)
    ensures Digits(a + b) == Digits(a) + Digits(b)
  {
    if a == [] {
      assert a + b == b;
    } else {
      assert (a + b)[0] == a[0] && (a + b)[1..] == a[1..] + b;
      DigitsConcat(a[1..], b);
    }
  }

  /** The contribution of one digit: doubled digits above 9 lose 9. */
  function Contribution(n: int, doubled: bool): int
  {
    if doubled then (if 2 * n > 9 then 2 * n - 9 else 2 * n) else n
  }

  /** The Luhn sum: counting from the rightmost digit (position 0), every
      digit at an odd position is doubled. */
  function LuhnSum(ds: string): int
  {
    if ds == [] then 0
    else Contribution(DigitVal(ds[0]), (|ds| - 1) % 2 == 1) + LuhnSum(ds[1..])
  }

  predicate LuhnValid(ds: string)
  {
    LuhnSum(ds) % 10 == 0
  }

  /** `IsLuhnValid`: walks from the last digit to the first, alternating
      the doubling, and tests the sum modulo 10. */
  method IsLuhnValid(s: string) returns (valid: bool)
    requires AllDigits(s)
    ensures valid <==> LuhnValid(s)
  {
    var sum := 0;
    var alt := false;
    var i := |s| - 1;
    while i >= 0
      invariant -1 <= i < |s|
      invariant sum == LuhnSum(s[i + 1..])
      invariant alt <==> (|s| - 1 - i) % 2 == 1
    {
      var n := DigitVal(s[i]);
      if alt {
        n := n * 2;
        if n > 9 {
          n := n - 9;
        }
      }
      assert s[i..][1..] == s[i + 1..];
      sum := sum + n;
      alt := !alt;
      i := i - 1;
    }
    valid := sum % 10 == 0;
  }

  /** The issuer rules: Visa (16 digits, leading 4), Mastercard (16 digits,
      first two in 51..55 or first four in 2221..2720), Amex (15 digits,
      leading 34 or 37). */
  function IsKnownCardType(ds: string): (known: bool)
    ensures known ==> |ds| == 15 || |ds| == 16
  {
    if |ds| == 16 && ds[0] == '4' then true
    else if |ds| == 16 && (51 <= NumeralValue(ds[..2]) <= 55 || 2221 <= NumeralValue(ds[..4]) <= 2720) then true
    else |ds| == 15 && (ds[..2] == "34" || ds[..2] == "37")
  }

  /** Every 16-digit number starting with 4 passes the issuer rules. */
  lemma VisaIsKnown(ds: string)
    requires |ds| == 16 && ds[0] == '4'
    ensures IsKnownCardType(ds)
  {
  }

  /** The per-match decision of `Analyze`. */
  predicate Accepts(v: string)
  {
    var ds := Digits(v);
    13 <= |ds| <= 19 && LuhnValid(ds) && IsKnownCardType(ds)
  }

  /** `Analyze`: the accepted matches, in match order, as CREDIT_CARD hits
      spanning the whole match, separators included. */
  method Analyze(text: string, matches: seq<RegexMatch>) returns (hits: seq<PiiHit>)
    requires forall i :: 0 <= i < |matches| ==> MatchIn(text, matches[i]) && CardShape(matches[i].value)
    ensures hits == HitsOf(matches, Accepts, "CREDIT_CARD")
    ensures forall h :: h in hits ==> h.kind == "CREDIT_CARD" && Within(text, h)
  {
    hits := [];
    for i := 0 to |matches|
      invariant hits == HitsOf(matches[..i], Accepts, "CREDIT_CARD")
    {
      var m := matches[i];
      HitsOfStep(matches, i, Accepts, "CREDIT_CARD");
      var digits := Digits(m.value);
      if |digits| < 13 || |digits| > 19 {
        continue;
      }
      var luhn := IsLuhnValid(digits);
      if luhn && IsKnownCardType(digits) {
        hits := hits + [PiiHit("CREDIT_CARD", m.index, |m.value|)];
      }
    }
    assert matches[..|matches|] == matches;
    HitsOfWithin(text, matches, Accepts, "CREDIT_CARD");
  }

  /** Only 15- and 16-digit numbers are ever reported: a Luhn-valid number
      of 13, 14 or 17 to 19 digits is not. */
  lemma AcceptedLengths(v: string)
    requires Accepts(v)
    ensures |Digits(v)| == 15 || |Digits(v)| == 16
  {
  }

  /** Replacing the digit at position i changes the Luhn sum by the change
      of that one contribution. */
  lemma {:induction false} LuhnSumUpdate(s: string, i: int, c: char)
    requires 0 <= i < |s|
    ensures LuhnSum(s[i := c]) == LuhnSum(s) - Contribution(DigitVal(s[i]), (|s| - 1 - i) % 2 == 1)
                                              + Contribution(DigitVal(c), (|s| - 1 - i) % 2 == 1)
  {
    if i == 0 {
      assert s[i := c][1..] == s[1..];
    } else {
      assert s[i := c][1..] == s[1..][i - 1 := c];
      LuhnSumUpdate(s[1..], i - 1, c);
    }
  }

  /** Distinct digits contribute differently modulo 10, doubled or not. */
  lemma ContributionInjective(a: int, b: int, doubled: bool)
    requires 0 <= a <= 9 && 0 <= b <= 9 && a != b
    ensures 0 <= Contribution(a, doubled) <= 9 && 0 <= Contribution(b, doubled) <= 9
    ensures Contribution(a, doubled) != Contribution(b, doubled)
  {
  }

  /** The Luhn check catches every single-digit error: changing any one
      digit of a valid number makes it invalid. */
  lemma SingleDigitErrorDetected(s: string, i: int, c: char)
    requires AllDigits(s) && 0 <= i < |s| && IsAsciiDigit(c) && c != s[i]
    requires LuhnValid(s)
    ensures !LuhnValid(s[i := c])
  {
    var doubled := (|s| - 1 - i) % 2 == 1;
    LuhnSumUpdate(s, i, c);
    ContributionInjective(DigitVal(s[i]), DigitVal(c), doubled);
    var old_ := Contribution(DigitVal(s[i]), doubled);
    var new_ := Contribution(DigitVal(c), doubled);
    NonzeroShiftBreaksCheck(LuhnSum(s), new_ - old_);
  }

  lemma NonzeroShiftBreaksCheck(sum: int, d: int)
    requires sum % 10 == 0 && -9 <= d <= 9 && d != 0
    ensures (sum + d) % 10 != 0
  {
    var q := sum / 10;
    assert sum + d == q * 10 + d;
    if d > 0 {
      assert (q * 10 + d) % 10 == d;
    } else {
      assert q * 10 + d == (q - 1) * 10 + (d + 10);
      assert (q * 10 + d) % 10 == d + 10;
    }
  }

  function Ones(n: nat): (s: string)
    ensures |s| == n && AllDigits(s)
  {
    seq(n, _ => '1')
  }

  /** Among n ones, the n/2 at odd positions are doubled. */
  lemma {:induction false} LuhnSumOnes(n: nat)
    ensures LuhnSum(Ones(n)) == n + n / 2
  {
    if n > 0 {
      assert Ones(n)[1..] == Ones(n - 1);
      LuhnSumOnes(n - 1);
    }
  }

  lemma OnesConcat(a: nat, b: nat)
    ensures Ones(a) + Ones(b) == Ones(a + b)
  {
  }

  /** The card number of the recognizer test, "4111 1111 1111 1111": a
      first group and three groups each led by a space. */
  const Block: string := " 1111"
  const TestCard: string := "4111" + Block + Block + Block

  lemma BlockDigits()
    ensures Digits(Block) == Ones(4) && Digits("4111") == "4" + Ones(3)
  {
    assert Block[1..] == "1111" && "1111"[1..] == "111" && "111"[1..] == "11";
    assert "11"[1..] == "1" && "1"[1..] == [];
    assert "4111"[1..] == "111";
  }

  lemma TestCardDigits()
    ensures Digits(TestCard) == "4" + Ones(15)
  {
    BlockDigits();
    DigitsConcat("4111" + Block + Block, Block);
    DigitsConcat("4111" + Block, Block);
    DigitsConcat("4111", Block);
    OnesConcat(3, 4);
    OnesConcat(7, 4);
    OnesConcat(11, 4);
  }

  lemma TestCardLuhn()
    ensures LuhnSum("4" + Ones(15)) == 30 && LuhnValid("4" + Ones(15))
  {
    var ds := "4" + Ones(15);
    assert ds[1..] == Ones(15);
    LuhnSumOnes(15);
  }

  /** The test card: its digits are 4 followed by fifteen ones, with Luhn
      sum 8 + 22 = 30, and it is a Visa number. */
  lemma TestCardAccepted()
    ensures Accepts(TestCard)
  {
    TestCardDigits();
    TestCardLuhn();
    var ds := "4" + Ones(15);
    assert |ds| == 16 && ds[0] == '4';
    VisaIsKnown(ds);
  }

  /** In "My card 4111 1111 1111 1111 ok?" the card matched at offset 8 is
      reported as one hit of length 19, covering its separators. */
  lemma TestCardHit()
    ensures HitsOf([RegexMatch(8, TestCard)], Accepts, "CREDIT_CARD")
            == [PiiHit("CREDIT_CARD", 8, 19)]
  {
    TestCardAccepted();
    var ms := [RegexMatch(8, TestCard)];
    assert ms[..0] == [];
  }
}
