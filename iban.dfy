/** The IBAN recognizer: a country-length table and the MOD 97-10 check of
    ISO 13616-1 (ISO/IEC 7064), applied to each match of the pattern
    `\b([A-Z]{2})(\d{2})([A-Z0-9]{11,30})\b` (ignoring case). */
module Iban {
  import opened Models
  import opened Chars

  /** The country-length table: `TryGetValue` on the expected total IBAN
      length per country code, None for a code the table does not list. */
  function ExpectedLength(cc: string): (r: Option<int>)
    ensures r.Some? ==> 15 <= r.value <= 31 && |cc| == 2 && IsAsciiUpper(cc[0]) && IsAsciiUpper(cc[1])
  {
    if cc == "AL" then Some(28) else if cc == "AD" then Some(24) else if cc == "AT" then Some(20) else
    if cc == "AZ" then Some(28) else if cc == "BH" then Some(22) else if cc == "BE" then Some(16) else
    if cc == "BA" then Some(20) else if cc == "BR" then Some(29) else if cc == "BG" then Some(22) else
    if cc == "CR" then Some(22) else if cc == "HR" then Some(21) else if cc == "CY" then Some(28) else
    if cc == "CZ" then Some(24) else if cc == "DK" then Some(18) else if cc == "DO" then Some(28) else
    if cc == "EE" then Some(20) else if cc == "FO" then Some(18) else if cc == "FI" then Some(18) else
    if cc == "FR" then Some(27) else if cc == "GE" then Some(22) else if cc == "DE" then Some(22) else
    if cc == "GI" then Some(23) else if cc == "GR" then Some(27) else if cc == "GL" then Some(18) else
    if cc == "GT" then Some(28) else if cc == "HU" then Some(28) else if cc == "IS" then Some(26) else
    if cc == "IE" then Some(22) else if cc == "IL" then Some(23) else if cc == "IT" then Some(27) else
    if cc == "JO" then Some(30) else if cc == "KZ" then Some(20) else if cc == "KW" then Some(30) else
    if cc == "LV" then Some(21) else if cc == "LB" then Some(28) else if cc == "LI" then Some(21) else
    if cc == "LT" then Some(20) else if cc == "LU" then Some(20) else if cc == "MK" then Some(19) else
    if cc == "MT" then Some(31) else if cc == "MR" then Some(27) else if cc == "MU" then Some(30) else
    if cc == "MC" then Some(27) else if cc == "MD" then Some(24) else if cc == "ME" then Some(22) else
    if cc == "NL" then Some(18) else if cc == "NO" then Some(15) else if cc == "PK" then Some(24) else
    if cc == "PS" then Some(29) else if cc == "PL" then Some(28) else if cc == "PT" then Some(25) else
    if cc == "QA" then Some(29) else if cc == "RO" then Some(24) else if cc == "SM" then Some(27) else
    if cc == "SA" then Some(24) else if cc == "RS" then Some(22) else if cc == "SK" then Some(24) else
    if cc == "SI" then Some(19) else if cc == "ES" then Some(24) else if cc == "SE" then Some(24) else
    if cc == "CH" then Some(21) else if cc == "TN" then Some(24) else if cc == "TR" then Some(26) else
    if cc == "AE" then Some(23) else if cc == "GB" then Some(22) else if cc == "VG" then Some(24) else
    None
  }

  /** What the pattern guarantees of a match (ASCII letters of either case). */
  predicate IbanShape(v: string)
  {
    15 <= |v| <= 34
    && IsAsciiLetter(v[0]) && IsAsciiLetter(v[1]) && IsAsciiDigit(v[2]) && IsAsciiDigit(v[3])
    && forall i :: 4 <= i < |v| ==> IsAsciiAlnum(v[i])
  }

  /** Upper-case ASCII letters and digits only. */
  predicate IbanChars(s: string)
  {
    forall i :: 0 <= i < |s| ==> IsAsciiUpper(s[i]) || IsAsciiDigit(s[i])
  }

  /** `Replace(" ", "")`. */
  function RemoveSpaces(s: string): (r: string)
    ensures |r| <= |s|
    ensures forall i :: 0 <= i < |r| ==> r[i] != ' '
    ensures (forall i :: 0 <= i < |s| ==> s[i] != ' ') ==> r == s
  {
    if s == [] then []
    else (if s[0] == ' ' then [] else [s[0]]) + RemoveSpaces(s[1..])
  }

  /** The candidate as the recognizer checks it: spaces removed, upper-cased. */
  function Normalize(v: string): string
  {
    Upper(RemoveSpaces(v))
  }

  /** A match of the pattern normalizes to itself upper-cased, and that
      consists of upper-case letters and digits only. */
  lemma NormalizeShaped(v: string)
    requires IbanShape(v)
    ensures Normalize(v) == Upper(v) && IbanChars(Normalize(v))
  {
    assert forall i :: 0 <= i < |v| ==> IsAsciiAlnum(v[i]);
    assert RemoveSpaces(v) == v;
  }

  /** The first four characters moved to the end. */
  function Rearranged(iban: string): (r: string)
    requires |iban| >= 4
    ensures |r| == |iban| && multiset(r) == multiset(iban)
  {
    assert iban == iban[..4] + iban[4..];
    iban[4..] + iban[..4]
  }

  function LetterCount(s: string): nat
  {
    if s == [] then 0 else (if IsAsciiUpper(s[0]) then 1 else 0) + LetterCount(s[1..])
  }

  /** A number below 100 written as two decimal digits. */
  function TwoDigits(n: int): (ds: string)
    requires 0 <= n < 100
    ensures |ds| == 2 && AllDigits(ds) && NumeralValue(ds) == n
  {
    var hi := (n / 10 + '0' as int) as char;
    var lo := (n % 10 + '0' as int) as char;
    var ds := [hi, lo];
    assert ds[..1] == [hi] && [hi][..0] == [];
    assert NumeralValue([hi]) == DigitVal(hi);
    assert NumeralValue(ds) == NumeralValue([hi]) * 10 + DigitVal(lo);
    assert DigitVal(hi) == n / 10 && DigitVal(lo) == n % 10;
    ds
  }

  /** An upper-case letter stands for `c - 'A' + 10`, a two-digit number;
      any other character stands for itself. */
  function ExpandChar(c: char): (ds: string)
    ensures IsAsciiUpper(c) ==> |ds| == 2 && AllDigits(ds)
                                && NumeralValue(ds) == c as int - 'A' as int + 10
                                && 10 <= NumeralValue(ds) <= 35
    ensures !IsAsciiUpper(c) ==> ds == [c]
  {
    if IsAsciiUpper(c) then TwoDigits(c as int - 'A' as int + 10) else [c]
  }

  /** The digit string the check reads: the expansions of all characters,
      in order. */
  function Expand(s: string): (ds: string)
    ensures |ds| == |s| + LetterCount(s)
    ensures IbanChars(s) ==> AllDigits(ds)
  {
    if s == [] then []
    else
      var rest := Expand(s[1..]);
      assert IbanChars(s) ==> IbanChars(s[1..]);
      ExpandChar(s[0]) + rest
  }

  lemma {:induction false} ExpandConcat(a: string, b: string)
    ensures Expand(a + b) == Expand(a) + Expand(b)
  {
    if a == [] {
      assert a + b == b;
    } else {
      assert (a + b)[0] == a[0] && (a + b)[1..] == a[1..] + b;
      ExpandConcat(a[1..], b);
    }
  }

  /** The MOD 97-10 check: the rearranged, expanded numeral is 1 mod 97. */
  predicate Mod97Valid(iban: string)
    requires |iban| >= 4
  {
    NumeralValue(Expand(Rearranged(iban))) % 97 == 1
  }

  lemma ModStep(a: int, d: int)
    ensures ((a % 97) * 10 + d) % 97 == (a * 10 + d) % 97
  {
    var q := a / 97;
    assert a * 10 + d == ((a % 97) * 10 + d) + 97 * (10 * q);
  }

  /** `IsIbanValid`: the remainder is kept below 97 while the numeral is
      read digit by digit, and the IBAN passes iff the final remainder is 1. */
  method IsIbanValid(iban: string) returns (valid: bool)
    requires |iban| >= 4 && IbanChars(iban)
    ensures valid <==> Mod97Valid(iban)
  {
    var rearranged := iban[4..] + iban[..4];
    var numeric := Expand(rearranged);
    var remainder := 0;
    for i := 0 to |numeric|
      invariant remainder == NumeralValue(numeric[..i]) % 97
    {
      assert numeric[..i + 1][..i] == numeric[..i];
      ModStep(NumeralValue(numeric[..i]), DigitVal(numeric[i]));
      remainder := (remainder * 10 + DigitVal(numeric[i])) % 97;
    }
    assert numeric[..|numeric|] == numeric;
    valid := remainder == 1;
  }

  /** The per-match decision of `Analyze`. */
  predicate Accepts(v: string)
  {
    var iban := Normalize(v);
    15 <= |iban| <= 34
    && ExpectedLength(iban[..2]) == Some(|iban|)
    && Mod97Valid(iban)
  }

  /** `Analyze`: the accepted matches, in match order, as IBAN hits. */
  method Analyze(text: string, matches: seq<RegexMatch>) returns (hits: seq<PiiHit>)
    requires forall i :: 0 <= i < |matches| ==> MatchIn(text, matches[i]) && IbanShape(matches[i].value)
    ensures hits == HitsOf(matches, Accepts, "IBAN")
    ensures forall h :: h in hits ==> h.kind == "IBAN" && Within(text, h)
  {
    hits := [];
    for i := 0 to |matches|
      invariant hits == HitsOf(matches[..i], Accepts, "IBAN")
    {
      var m := matches[i];
      HitsOfStep(matches, i, Accepts, "IBAN");
      var iban := Normalize(m.value);
      NormalizeShaped(m.value);
      if |iban| < 15 || |iban| > 34 {
        continue;
      }
      var country := iban[..2];
      var expected := ExpectedLength(country);
      if expected.Some? && |iban| == expected.value {
        var valid := IsIbanValid(iban);
        if valid {
          hits := hits + [PiiHit("IBAN", m.index, |m.value|)];
        }
      }
    }
    assert matches[..|matches|] == matches;
    HitsOfWithin(text, matches, Accepts, "IBAN");
  }

  /** Only candidates of 15 to 34 characters, with a known country code and
      exactly that country's length, can be accepted. */
  lemma AcceptedHasCountryLength(v: string)
    requires Accepts(v)
    ensures 15 <= |Normalize(v)| <= 34
    ensures ExpectedLength(Normalize(v)[..2]) == Some(|Normalize(v)|)
  {
  }

  /** The check digits ISO 7064 assigns to a country code and a BBAN:
      98 minus the remainder of the BBAN, the country and "00". */
  function CheckDigits(country: string, bban: string): (cd: string)
    ensures |cd| == 2 && AllDigits(cd)
  {
    var r := NumeralValue(Expand(bban + country + "00")) % 97;
    TwoDigits(98 - r)
  }

  lemma {:induction false} ExpandDigits(ds: string)
    requires AllDigits(ds)
    ensures Expand(ds) == ds
  {
    if ds != [] {
      ExpandDigits(ds[1..]);
      assert ds == [ds[0]] + ds[1..];
    }
  }

  lemma CheckRemainder(y: int)
    ensures (y + (98 - y % 97)) % 97 == 1
  {
    assert y + (98 - y % 97) == (y / 97 + 1) * 97 + 1;
  }

  /** Appending two digits to an expanded numeral multiplies its value by
      100 and adds theirs. */
  lemma AppendTwoDigits(x: string, cd: string)
    requires |cd| == 2 && AllDigits(cd)
    ensures NumeralValue(x + cd) == NumeralValue(x) * 100 + NumeralValue(cd)
  {
    NumeralValueConcat(x, cd);
    assert Pow10(2) == 100;
  }

  lemma RearrangedBuilt(country: string, cd: string, bban: string)
    requires |country| == 2 && |cd| == 2
    ensures Rearranged(country + cd + bban) == (bban + country) + cd
  {
    var iban := country + cd + bban;
    assert iban[4..] == bban && iban[..4] == country + cd;
  }

  /** Expanding a string followed by digits leaves the digits as they are. */
  lemma ExpandThenDigits(x: string, ds: string)
    requires AllDigits(ds)
    ensures Expand(x + ds) == Expand(x) + ds
  {
    ExpandConcat(x, ds);
    ExpandDigits(ds);
  }

  /** Check digits computed by ISO 7064 always pass the recognizer's MOD-97
      check: generating and validating are inverse. */
  lemma {:induction false} CheckDigitsValidate(country: string, bban: string)
    requires |country| == 2 && IbanChars(country)
    ensures Mod97Valid(country + CheckDigits(country, bban) + bban)
  {
    var cd := CheckDigits(country, bban);
    var x := Expand(bban + country);
    RearrangedBuilt(country, cd, bban);
    ExpandThenDigits(bban + country, cd);
    AppendTwoDigits(x, cd);
    CheckDigitsValue(country, bban);
    CheckRemainder(NumeralValue(x) * 100);
  }

  /** The check digits, read as a number, are 98 minus the remainder of the
      expanded BBAN and country followed by "00". */
  lemma CheckDigitsValue(country: string, bban: string)
    ensures NumeralValue(CheckDigits(country, bban)) == 98 - (NumeralValue(Expand(bban + country)) * 100) % 97
  {
    CheckDigitsNumeral(country, bban);
    ZerosAppended(bban + country);
  }

  lemma CheckDigitsNumeral(country: string, bban: string)
    ensures NumeralValue(CheckDigits(country, bban)) == 98 - NumeralValue(Expand(bban + country + "00")) % 97
  {
  }

  /** Appending "00" multiplies the expanded numeral by 100. */
  lemma ZerosAppended(y: string)
    ensures NumeralValue(Expand(y + "00")) == NumeralValue(Expand(y)) * 100
  {
    ZerosValue("00");
    ExpandConcat(y, "00");
    AppendTwoDigits(Expand(y), "00");
  }

  lemma UpperKeeps(s: string)
    requires IbanChars(s)
    ensures Upper(s) == s
  {
  }

  lemma {:induction false} TurkishZerosNumeral(zs: string)
    requires |zs| == 24 && forall i :: 0 <= i < |zs| ==> zs[i] == '0'
    ensures NumeralValue(Expand(Rearranged("TR" + zs))) == 292700
  {
    var v := "TR" + zs;
    var z22 := zs[2..];
    assert Rearranged(v) == z22 + "TR00" by {
      assert v[4..] == z22 && v[..4] == "TR00";
    }
    ExpandConcat(z22, "TR00");
    ZerosValue(z22);
    TurkishTail();
    NumeralValueConcat(z22, Expand("TR00"));
  }

  /** "TR" followed by 24 zeros: Turkey's length, but its rearranged numeral
      is 0...0292700, which leaves 51 modulo 97. */
  lemma TurkishZerosRejected(zs: string)
    requires |zs| == 24 && forall i :: 0 <= i < |zs| ==> zs[i] == '0'
    ensures Normalize("TR" + zs) == "TR" + zs
    ensures ExpectedLength("TR") == Some(26)
    ensures NumeralValue(Expand(Rearranged("TR" + zs))) % 97 == 51
    ensures !Accepts("TR" + zs)
  {
    TurkishZerosNormal(zs);
    TurkishZerosNumeral(zs);
    Remainder51(NumeralValue(Expand(Rearranged("TR" + zs))));
    TurkeyLength();
    CheckRejects("TR" + zs);
  }

  lemma Remainder51(n: int)
    requires n == 292700
    ensures n % 97 == 51
  {
  }

  /** A candidate that fails the MOD 97-10 check is not accepted, whatever
      its length and country. */
  lemma CheckRejects(v: string)
    requires |Normalize(v)| >= 4 && !Mod97Valid(Normalize(v))
    ensures !Accepts(v)
  {
  }

  lemma TurkishZerosNormal(zs: string)
    requires forall i :: 0 <= i < |zs| ==> zs[i] == '0'
    ensures Normalize("TR" + zs) == "TR" + zs
  {
    var v := "TR" + zs;
    assert forall i :: 2 <= i < |v| ==> v[i] == zs[i - 2];
    assert IbanChars(v);
    UpperKeeps(v);
  }

  lemma TurkeyLength()
    ensures ExpectedLength("TR") == Some(26)
  {
  }

  /** "TR00" expands to the numeral 292700 (T = 29, R = 27). */
  lemma TurkishTail()
    ensures NumeralValue(Expand("TR00")) == 292700
  {
    var t, r, zz := ExpandChar('T'), ExpandChar('R'), "00";
    assert "TR00"[1..] == "R00" && "R00"[1..] == zz;
    ZerosValue(zz);
    assert Expand("TR00") == t + (r + zz);
    NumeralOfThree(t, r, zz);
  }

  /** Three numerals side by side, the last two of two digits each. */
  lemma NumeralOfThree(a: string, b: string, c: string)
    requires |b| == 2 && |c| == 2
    ensures NumeralValue(a + (b + c)) == NumeralValue(a) * 10000 + NumeralValue(b) * 100 + NumeralValue(c)
  {
    NumeralValueConcat(b, c);
    NumeralValueConcat(a, b + c);
    assert Pow10(2) == 100 && Pow10(4) == 10000;
  }

  /** The engine test's `TR000000000000000000000000` produces no IBAN hit. */
  lemma TestIbanRejected()
    ensures !Accepts("TR000000000000000000000000")
  {
    var zs := "000000000000000000000000";
    assert "TR000000000000000000000000" == "TR" + zs;
    TurkishZerosRejected(zs);
  }

  lemma {:induction false} ZerosValue(zs: string)
    requires forall i :: 0 <= i < |zs| ==> zs[i] == '0'
    ensures Expand(zs) == zs && NumeralValue(zs) == 0
  {
    if zs != [] {
      ZerosValue(zs[1..]);
      ZerosValue(zs[..|zs| - 1]);
      assert zs == [zs[0]] + zs[1..];
    }
  }
}
