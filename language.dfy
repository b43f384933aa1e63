/** The language guess: a text is Turkish as soon as it holds one of the
    letters specific to Turkish, English otherwise. */
module Language {

  /** ğ Ğ ş Ş ı İ ç Ç ö Ö ü Ü */
  const TurkishLetters: seq<char> :=
    ['\U{011F}', '\U{011E}', '\U{015F}', '\U{015E}', '\U{0131}', '\U{0130}',
     '\U{00E7}', '\U{00C7}', '\U{00F6}', '\U{00D6}', '\U{00FC}', '\U{00DC}']

  predicate IsTurkishLetter(c: char) { c in TurkishLetters }

  /** The number of Turkish-specific letters in `text`; it is positive
      exactly when one occurs. */
  function TurkishScore(text: string): (n: nat)
    ensures n <= |text|
    ensures n > 0 <==> exists i :: 0 <= i < |text| && IsTurkishLetter(text[i])
  {
    if text == [] then 0
    else
      var rest := TurkishScore(text[1..]);
      assert forall i :: 0 <= i < |text[1..]| ==> text[1..][i] == text[i + 1];
      (if IsTurkishLetter(text[0]) then 1 else 0) + rest
  }

  /** `SimpleLanguage.Guess`: "en" for an empty text, else "tr" iff the
      score is positive. */
  function Guess(text: string): (tag: string)
    ensures tag == "tr" || tag == "en"
    ensures tag == "tr" <==> exists i :: 0 <= i < |text| && IsTurkishLetter(text[i])
  {
    if |text| == 0 then "en"
    else if TurkishScore(text) > 0 then "tr" else "en"
  }

  /** Appending anything to a Turkish text keeps it Turkish. */
  lemma AppendKeepsTurkish(a: string, b: string)
    requires Guess(a) == "tr"
    ensures Guess(a + b) == "tr"
  {
    var i :| 0 <= i < |a| && IsTurkishLetter(a[i]);
    assert (a + b)[i] == a[i];
  }

  /** A text made only of ASCII characters is English. */
  lemma AsciiIsEnglish(text: string)
    requires forall i :: 0 <= i < |text| ==> text[i] as int < 128
    ensures Guess(text) == "en"
  {
  }
}
