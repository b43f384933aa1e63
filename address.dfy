/** The address recognizer: a keyword search. The text is lower-cased, and
    every non-overlapping occurrence of each keyword of the language's list
    is reported, keyword by keyword, left to right. */
module Address {
  import opened Models
  import opened Chars

  const TrKeys: seq<string> :=
    ["mah.", "mahalle", "cad.", "caddesi", "sok.", "sokak", "bulvar", "no:", "daire", "kat"]
  const EnKeys: seq<string> :=
    ["street", "st.", "avenue", "ave", "road", "rd", "no.", "apartment", "zip", "suite"]

  /** The keyword list: Turkish for "tr", English for every other tag. */
  function Keys(lang: string): (keys: seq<string>)
    ensures |keys| == 10 && forall i :: 0 <= i < |keys| ==> |keys[i]| > 0
  {
    if lang == "tr" then TrKeys else EnKeys
  }

  /** `k` occurs in `s` at position `i`. */
  predicate OccursAt(s: string, k: string, i: int)
  {
    0 <= i && i + |k| <= |s| && s[i..i + |k|] == k
  }

  /** `s.IndexOf(k, from, StringComparison.Ordinal)`: the first occurrence
      of `k` at or after `from`, or -1 when there is none. */
  function IndexOf(s: string, k: string, from: int): (r: int)
    requires 0 <= from <= |s|
    ensures r == -1 || (from <= r && OccursAt(s, k, r))
    ensures forall j :: from <= j && (r == -1 || j < r) ==> !OccursAt(s, k, j)
    decreases |s| - from
  {
    if OccursAt(s, k, from) then from
    else if from == |s| then -1
    else IndexOf(s, k, from + 1)
  }

  /** The hits the inner loop adds for one keyword, scanning from `from`:
      each occurrence found resumes the search just past its end. */
  function KeyHits(s: string, k: string, from: int): seq<PiiHit>
    requires |k| > 0 && 0 <= from <= |s|
    decreases |s| - from
  {
    var i := IndexOf(s, k, from);
    if i < 0 then [] else [PiiHit("ADDRESS", i, |k|)] + KeyHits(s, k, i + |k|)
  }

  /** The hits of all keywords, in keyword order. */
  function AllKeyHits(s: string, keys: seq<string>): seq<PiiHit>
    requires forall i :: 0 <= i < |keys| ==> |keys[i]| > 0
  {
    if keys == [] then []
    else AllKeyHits(s, keys[..|keys| - 1]) + KeyHits(s, keys[|keys| - 1], 0)
  }

  /** What `Analyze` reports for a text and a language. */
  function Hits(text: string, lang: string): (r: seq<PiiHit>)
    ensures forall h :: h in r ==> h.kind == "ADDRESS" && Within(text, h) && h.length > 0
  {
    AllKeyHitsWithin(Lower(text), Keys(lang));
    AllKeyHits(Lower(text), Keys(lang))
  }

  /** Every hit of a keyword list is a non-empty ADDRESS span of `s`. */
  lemma {:induction false} AllKeyHitsWithin(s: string, keys: seq<string>)
    requires forall i :: 0 <= i < |keys| ==> |keys[i]| > 0
    ensures forall h :: h in AllKeyHits(s, keys) ==>
              h.kind == "ADDRESS" && 0 <= h.start && 0 < h.length && h.start + h.length <= |s|
  {
    if keys != [] {
      AllKeyHitsWithin(s, keys[..|keys| - 1]);
      KeyHitsSound(s, keys[|keys| - 1], 0);
    }
  }

  /** `Analyze`: for each keyword in turn, repeatedly find the next
      occurrence in the lower-cased text, report it and continue after it. */
  method Analyze(text: string, lang: string) returns (hits: seq<PiiHit>)
    ensures hits == Hits(text, lang)
  {
    hits := AddAllKeyHits(Lower(text), Keys(lang));
  }

  /** The outer loop of `Analyze`: the keywords in list order. */
  method AddAllKeyHits(low: string, keys: seq<string>) returns (hits: seq<PiiHit>)
    requires forall i :: 0 <= i < |keys| ==> |keys[i]| > 0
    ensures hits == AllKeyHits(low, keys)
  {
    hits := [];
    for n := 0 to |keys|
      invariant hits == AllKeyHits(low, keys[..n])
    {
      assert keys[..n + 1][..n] == keys[..n];
      hits := AddKeyHits(low, keys[n], hits);
    }
    assert keys[..|keys|] == keys;
  }

  /** The inner loop of `Analyze` for one keyword `k`, appending to `hits`. */
  method AddKeyHits(low: string, k: string, hits0: seq<PiiHit>) returns (hits: seq<PiiHit>)
    requires |k| > 0
    ensures hits == hits0 + KeyHits(low, k, 0)
  {
    hits := hits0;
    var from := 0;
    while true
      invariant 0 <= from <= |low|
      invariant hits + KeyHits(low, k, from) == hits0 + KeyHits(low, k, 0)
      decreases |low| - from
    {
      var idx := IndexOf(low, k, from);
      if idx < 0 {
        break;
      }
      hits := hits + [PiiHit("ADDRESS", idx, |k|)];
      from := idx + |k|;
    }
  }

  /** `hs` are ADDRESS hits on occurrences of `k` in `s` at or after
      `from`, in increasing order and without overlap. */
  predicate SpacedOccurrences(s: string, k: string, from: int, hs: seq<PiiHit>)
  {
    (forall a :: 0 <= a < |hs| ==>
       hs[a].kind == "ADDRESS" && hs[a].length == |k| && from <= hs[a].start
       && OccursAt(s, k, hs[a].start))
    && (forall a, b :: 0 <= a < b < |hs| ==> hs[a].start + |k| <= hs[b].start)
  }

  /** Every hit for one keyword is an occurrence of it, and the hits are in
      increasing order without overlap. */
  lemma {:induction false} KeyHitsSound(s: string, k: string, from: int)
    requires |k| > 0 && 0 <= from <= |s|
    ensures SpacedOccurrences(s, k, from, KeyHits(s, k, from))
    ensures forall h :: h in KeyHits(s, k, from) ==>
              h.kind == "ADDRESS" && h.length == |k| && OccursAt(s, k, h.start)
    decreases |s| - from
  {
    var i := IndexOf(s, k, from);
    if i < 0 {
      assert KeyHits(s, k, from) == [];
    } else {
      var rest := KeyHits(s, k, i + |k|);
      var hs := KeyHits(s, k, from);
      KeyHitsSound(s, k, i + |k|);
      assert hs == [PiiHit("ADDRESS", i, |k|)] + rest;
      assert forall a :: 0 < a < |hs| ==> hs[a] == rest[a - 1];
    }
  }

  /** The scan misses nothing: every occurrence of the keyword at or after
      `from` lies inside some reported hit (it is either reported itself or
      overlaps an occurrence reported before it). */
  lemma {:induction false} KeyHitsCover(s: string, k: string, from: int, j: int)
    requires |k| > 0 && 0 <= from <= |s|
    requires from <= j && OccursAt(s, k, j)
    ensures exists h :: h in KeyHits(s, k, from) && h.start <= j < h.start + h.length
    decreases |s| - from
  {
    var i := IndexOf(s, k, from);
    var hs := KeyHits(s, k, from);
    assert i >= 0 && i <= j;
    if j < i + |k| {
      assert hs[0] == PiiHit("ADDRESS", i, |k|);
    } else {
      KeyHitsCover(s, k, i + |k|, j);
      var h :| h in KeyHits(s, k, i + |k|) && h.start <= j < h.start + h.length;
      assert h in hs;
    }
  }

  /** A hit of all keywords is a hit of one of them. */
  lemma {:induction false} AllKeyHitsMember(s: string, keys: seq<string>, h: PiiHit)
    requires forall i :: 0 <= i < |keys| ==> |keys[i]| > 0
    requires h in AllKeyHits(s, keys)
    ensures exists n :: 0 <= n < |keys| && h in KeyHits(s, keys[n], 0)
  {
    var m := |keys| - 1;
    if h !in KeyHits(s, keys[m], 0) {
      AllKeyHitsMember(s, keys[..m], h);
      var n :| 0 <= n < m && h in KeyHits(s, keys[..m][n], 0);
      assert keys[..m][n] == keys[n];
    }
  }

  /** A keyword's hits are all among the hits of a list that holds it. */
  lemma {:induction false} AllKeyHitsIncludes(s: string, keys: seq<string>, n: int)
    requires forall i :: 0 <= i < |keys| ==> |keys[i]| > 0
    requires 0 <= n < |keys|
    ensures forall h :: h in KeyHits(s, keys[n], 0) ==> h in AllKeyHits(s, keys)
  {
    var m := |keys| - 1;
    if n < m {
      assert keys[..m][n] == keys[n];
      AllKeyHitsIncludes(s, keys[..m], n);
    }
  }

  /** Every hit of a keyword list is an ADDRESS span of `s` holding one of
      the keywords. */
  lemma AllKeyHitsAreKeys(s: string, keys: seq<string>, h: PiiHit)
    requires forall i :: 0 <= i < |keys| ==> |keys[i]| > 0
    requires h in AllKeyHits(s, keys)
    ensures h.kind == "ADDRESS" && 0 <= h.start && 0 <= h.length && h.start + h.length <= |s|
    ensures s[h.start..h.start + h.length] in keys
  {
    AllKeyHitsMember(s, keys, h);
    var n :| 0 <= n < |keys| && h in KeyHits(s, keys[n], 0);
    KeyHitsSound(s, keys[n], 0);
    assert s[h.start..h.start + h.length] == keys[n];
  }

  /** Every hit is an ADDRESS span of the text whose lower-cased content is
      one of the language's keywords. */
  lemma HitsAreKeywords(text: string, lang: string, h: PiiHit)
    requires h in Hits(text, lang)
    ensures h.kind == "ADDRESS" && Within(text, h)
    ensures Lower(text)[h.start..h.start + h.length] in Keys(lang)
  {
    AllKeyHitsAreKeys(Lower(text), Keys(lang), h);
  }

  /** Every occurrence of a keyword in the lower-cased text is covered by a
      hit of that keyword. */
  lemma HitsCoverKeywords(text: string, lang: string, n: int, j: int)
    requires 0 <= n < 10 && OccursAt(Lower(text), Keys(lang)[n], j)
    ensures exists h :: h in Hits(text, lang) && h.length == |Keys(lang)[n]|
                        && h.start <= j < h.start + h.length
  {
    var low, keys := Lower(text), Keys(lang);
    KeyHitsCover(low, keys[n], 0, j);
    var h :| h in KeyHits(low, keys[n], 0) && h.start <= j < h.start + h.length;
    KeyHitsSound(low, keys[n], 0);
    AllKeyHitsIncludes(low, keys, n);
  }

  /** Keywords are searched independently, so one word can be reported
      more than once: in an English text every "avenue" lies inside both an
      "avenue" hit and an "ave" hit. */
  lemma AvenueReportedTwice(text: string, lang: string, j: int)
    requires lang != "tr" && OccursAt(Lower(text), "avenue", j)
    ensures exists h :: h in Hits(text, lang) && h.length == 6 && h.start <= j < h.start + 6
    ensures exists h :: h in Hits(text, lang) && h.length == 3 && h.start <= j < h.start + 3
  {
    var low := Lower(text);
    assert Keys(lang)[2] == "avenue" && Keys(lang)[3] == "ave";
    assert low[j..j + 3] == low[j..j + 6][..3];
    HitsCoverKeywords(text, lang, 2, j);
    HitsCoverKeywords(text, lang, 3, j);
  }

  /** The search ignores case: upper-casing or lower-casing the text first
      changes nothing. */
  lemma CaseInsensitive(text: string, lang: string)
    ensures Hits(Upper(text), lang) == Hits(text, lang)
    ensures Hits(Lower(text), lang) == Hits(text, lang)
  {
    LowerAbsorbs(text);
  }
}
