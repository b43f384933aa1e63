/** The engine's `AnalyzeDetailed`: run the seven recognizers in a fixed
    order, filter the hits by type, append the confident entities of the
    optional named-entity recognizer, count hits per type and score the
    counts with capped, weighted sums.

    The regular expressions are not modelled: `Scan` carries each
    recognizer's matches, as the regex engine would produce them for the
    text. The phone-number library is the predicate `phoneValid`, the
    entity recognizer is `nerOut` (language to entities) with `nerReady`
    standing for "a recognizer is configured and its model file exists",
    and `10·(1 − exp(−K·sum))` rounded to two places, for the option K
    (default 0.15) taken as non-negative, is the curve `curve`. */
module Engine {
  import opened Models
  import opened Chars
  import Language
  import Iban
  import CreditCard
  import Tckn
  import Address

  /** The matches of each recognizer's regular expression on one text. */
  datatype Scan = Scan(
    email: seq<RegexMatch>,
    phone: seq<RegexMatch>,
    iban: seq<RegexMatch>,
    card: seq<RegexMatch>,
    tckn: seq<RegexMatch>,
    dob: seq<RegexMatch>)

  predicate AllIn(text: string, ms: seq<RegexMatch>)
  {
    forall i :: 0 <= i < |ms| ==> MatchIn(text, ms[i])
  }

  /** The matches really are slices of the text, and those the validating
      recognizers receive have their patterns' shapes. */
  predicate ScanOf(text: string, sc: Scan)
  {
    AllIn(text, sc.email) && AllIn(text, sc.phone) && AllIn(text, sc.iban)
    && AllIn(text, sc.card) && AllIn(text, sc.tckn) && AllIn(text, sc.dob)
    && (forall i :: 0 <= i < |sc.iban| ==> Iban.IbanShape(sc.iban[i].value))
    && (forall i :: 0 <= i < |sc.card| ==> CreditCard.CardShape(sc.card[i].value))
    && (forall i :: 0 <= i < |sc.tckn| ==> Tckn.TcknShape(sc.tckn[i].value))
  }

  /** The types the seven pattern recognizers emit. */
  const PatternKinds: set<string> := {"EMAIL", "PHONE", "IBAN", "CREDIT_CARD", "TCKN", "DOB", "ADDRESS"}

  /** The e-mail and date recognizers report every match. */
  predicate AnyValue(v: string) { true }

  /** `LanguageOverride ?? SimpleLanguage.Guess(text)`. */
  function LanguageOf(text: string, opts: Options): (lang: string)
    ensures opts.languageOverride.Some? ==> lang == opts.languageOverride.value
    ensures opts.languageOverride.None? ==> lang == Language.Guess(text)
  {
    match opts.languageOverride
    case Some(l) => l
    case None => Language.Guess(text)
  }

  /** The `SelectMany` over the recognizers, in their registration order:
      Email, Phone, Iban, CreditCard, Tckn, Dob, Address. */
  function PatternHits(text: string, lang: string, sc: Scan, phoneValid: string -> bool): (r: seq<PiiHit>)
    ensures forall h :: h in r ==> h.kind in PatternKinds
  {
    HitsOf(sc.email, AnyValue, "EMAIL")
    + HitsOf(sc.phone, phoneValid, "PHONE")
    + HitsOf(sc.iban, Iban.Accepts, "IBAN")
    + HitsOf(sc.card, CreditCard.Accepts, "CREDIT_CARD")
    + Tckn.Hits(lang, sc.tckn)
    + HitsOf(sc.dob, AnyValue, "DOB")
    + Address.Hits(text, lang)
  }

  /** `hs.Where(keep)`: the hits `keep` admits, in order. */
  function Keep(hs: seq<PiiHit>, types: set<string>, inside: bool): (r: seq<PiiHit>)
    ensures |r| <= |hs|
    ensures forall h :: h in r ==> h in hs && (h.kind in types) == inside
  {
    if hs == [] then []
    else
      var h := hs[|hs| - 1];
      Keep(hs[..|hs| - 1], types, inside) + (if (h.kind in types) == inside then [h] else [])
  }

  /** A hit survives exactly when it was there and its type is inside
      (`inside`) or outside (`!inside`) the set. */
  lemma {:induction false} KeepIff(hs: seq<PiiHit>, types: set<string>, inside: bool, h: PiiHit)
    ensures h in Keep(hs, types, inside) <==> h in hs && (h.kind in types) == inside
  {
    if hs != [] {
      var init := hs[..|hs| - 1];
      KeepIff(init, types, inside, h);
      assert hs == init + [hs[|hs| - 1]];
    }
  }

  /** The two entity filters: the include set applies only when it is not
      empty, the exclude set removes what it lists. */
  function TypeFilter(hs: seq<PiiHit>, includeTypes: set<string>, excludeTypes: set<string>): seq<PiiHit>
  {
    var included := if |includeTypes| > 0 then Keep(hs, includeTypes, true) else hs;
    if |excludeTypes| > 0 then Keep(included, excludeTypes, false) else included
  }

  /** A hit passes the filters iff it is a pattern hit whose type is allowed. */
  lemma TypeFilterIff(hs: seq<PiiHit>, includeTypes: set<string>, excludeTypes: set<string>, h: PiiHit)
    ensures h in TypeFilter(hs, includeTypes, excludeTypes) <==>
            h in hs && (|includeTypes| > 0 ==> h.kind in includeTypes) && h.kind !in excludeTypes
  {
    var included := if |includeTypes| > 0 then Keep(hs, includeTypes, true) else hs;
    KeepIff(hs, includeTypes, true, h);
    KeepIff(included, excludeTypes, false, h);
  }

  /** The entities at or above the confidence threshold, as hits spanning
      `start` to `stop`; no check that `stop` is after `start`. */
  function NerHits(es: seq<NerEntity>, minConfidence: real): (r: seq<PiiHit>)
    ensures |r| <= |es|
  {
    if es == [] then []
    else
      var e := es[|es| - 1];
      NerHits(es[..|es| - 1], minConfidence)
      + (if e.confidence >= minConfidence then [PiiHit(e.kind, e.start, e.stop - e.start)] else [])
  }

  /** An entity becomes a hit exactly when its confidence reaches the
      threshold. */
  lemma {:induction false} NerHitsIff(es: seq<NerEntity>, minConfidence: real, h: PiiHit)
    ensures h in NerHits(es, minConfidence) <==>
            exists i :: 0 <= i < |es| && es[i].confidence >= minConfidence
                        && h == PiiHit(es[i].kind, es[i].start, es[i].stop - es[i].start)
  {
    if es != [] {
      var init := es[..|es| - 1];
      NerHitsIff(init, minConfidence, h);
      if exists i :: 0 <= i < |es| && es[i].confidence >= minConfidence
                     && h == PiiHit(es[i].kind, es[i].start, es[i].stop - es[i].start) {
        var i :| 0 <= i < |es| && es[i].confidence >= minConfidence
                 && h == PiiHit(es[i].kind, es[i].start, es[i].stop - es[i].start);
        if i < |es| - 1 {
          assert init[i] == es[i];
        }
      }
    }
  }

  /** The hits `AnalyzeDetailed` returns. */
  function DetectedHits(text: string, opts: Options, sc: Scan, phoneValid: string -> bool,
                        nerReady: bool, nerOut: string -> seq<NerEntity>): (r: seq<PiiHit>)
    ensures IsBlank(text) ==> r == []
    ensures forall h :: h in r && h.kind !in PatternKinds ==> opts.enableNer && nerReady
  {
    if IsBlank(text) then []
    else
      var lang := LanguageOf(text, opts);
      TypeFilter(PatternHits(text, lang, sc, phoneValid), opts.includeEntityTypes, opts.excludeEntityTypes)
      + (if opts.enableNer && nerReady then NerHits(nerOut(lang), opts.minNerConfidence) else [])
  }

  /** The number of hits of type `t` (uncapped): zero exactly when no hit
      has that type. */
  function Count(hs: seq<PiiHit>, t: string): (n: nat)
    ensures n <= |hs|
    ensures n == 0 <==> forall i :: 0 <= i < |hs| ==> hs[i].kind != t
  {
    if hs == [] then 0
    else
      var n := Count(hs[..|hs| - 1], t);
      assert forall i :: 0 <= i < |hs| - 1 ==> hs[..|hs| - 1][i] == hs[i];
      n + (if hs[|hs| - 1].kind == t then 1 else 0)
  }

  /** The types present, in order of first occurrence (the order of the
      `GroupBy` groups), each once. */
  function KindOrder(hs: seq<PiiHit>): (ks: seq<string>)
    ensures forall a, b :: 0 <= a < b < |ks| ==> ks[a] != ks[b]
    ensures forall t :: t in ks <==> exists i :: 0 <= i < |hs| && hs[i].kind == t
  {
    if hs == [] then []
    else
      var ks := KindOrder(hs[..|hs| - 1]);
      assert forall i :: 0 <= i < |hs| - 1 ==> hs[..|hs| - 1][i] == hs[i];
      var k := hs[|hs| - 1].kind;
      if k in ks then ks else ks + [k]
  }

  /** The `counts` dictionary: one entry per type present, holding how many
      hits have that type. */
  function Groups(hs: seq<PiiHit>): (counts: map<string, nat>)
    ensures forall t :: t in counts <==> exists i :: 0 <= i < |hs| && hs[i].kind == t
    ensures forall t :: t in counts ==> counts[t] == Count(hs, t) && counts[t] > 0
  {
    map t | t in KindOrder(hs) :: Count(hs, t)
  }

  function Min(a: int, b: int): (m: int)
    ensures m <= a && m <= b && (m == a || m == b)
  {
    if a <= b then a else b
  }

  /** `TryGetValue` then `if (w <= 0) w = 1`: a missing or non-positive
      weight counts as 1, any other is used as configured. */
  function WeightOf(weights: map<string, real>, t: string): (w: real)
    ensures w > 0.0
    ensures t in weights && weights[t] > 0.0 ==> w == weights[t]
    ensures !(t in weights && weights[t] > 0.0) ==> w == 1.0
  {
    var w := if t in weights then weights[t] else 0.0;
    if w <= 0.0 then 1.0 else w
  }

  /** `n * w` with the count converted to a double. */
  function Scale(n: int, w: real): real
  {
    n as real * w
  }

  /** One type's share of the sum: its count, capped, times its weight. */
  function Term(hs: seq<PiiHit>, opts: Options, t: string): real
  {
    Scale(Min(Count(hs, t), opts.maxCountPerType), WeightOf(opts.weights, t))
  }

  function SumTerms(ks: seq<string>, hs: seq<PiiHit>, opts: Options): real
  {
    if ks == [] then 0.0
    else SumTerms(ks[..|ks| - 1], hs, opts) + Term(hs, opts, ks[|ks| - 1])
  }

  /** The weighted sum over the groups. */
  function WeightedSum(hs: seq<PiiHit>, opts: Options): real
  {
    SumTerms(KindOrder(hs), hs, opts)
  }

  /** What the risk transform must satisfy: zero at zero, non-decreasing,
      and at most 10 for a non-negative sum. `10·(1 − exp(−K·sum))` rounded
      to two places is such a curve for every K >= 0 (for K = 0 it is
      constantly 0); for K < 0 it is decreasing. */
  ghost predicate ValidCurve(curve: real -> real)
  {
    curve(0.0) == 0.0
    && (forall x, y :: x <= y ==> curve(x) <= curve(y))
    && (forall x :: 0.0 <= x ==> curve(x) <= 10.0)
  }

  /** `AnalyzeDetailed`: the hits, their per-type counts and the risk. A
      blank text yields no hits, no counts and the risk of a zero sum. */
  method AnalyzeDetailed(text: string, opts: Options, sc: Scan, phoneValid: string -> bool,
                         nerReady: bool, nerOut: string -> seq<NerEntity>, curve: real -> real)
    returns (risk: real, counts: map<string, nat>, hits: seq<PiiHit>)
    requires ScanOf(text, sc)
    ensures hits == DetectedHits(text, opts, sc, phoneValid, nerReady, nerOut)
    ensures counts == Groups(hits)
    ensures risk == curve(WeightedSum(hits, opts))
    ensures IsBlank(text) ==> hits == [] && counts == map[] && risk == curve(0.0)
    // The corollary a caller reads: under a valid curve a blank text carries no risk.
    ensures IsBlank(text) && ValidCurve(curve) ==> risk == 0.0
  {
    hits := Detect(text, opts, sc, phoneValid, nerReady, nerOut);
    counts := Groups(hits);
    var sum := SumGroups(hits, counts, opts);
    risk := curve(sum);
  }

  /** The detection half of `AnalyzeDetailed`: nothing for a blank text;
      otherwise the recognizers, the two type filters, then the NER hits. */
  method Detect(text: string, opts: Options, sc: Scan, phoneValid: string -> bool,
                nerReady: bool, nerOut: string -> seq<NerEntity>) returns (hits: seq<PiiHit>)
    requires ScanOf(text, sc)
    ensures hits == DetectedHits(text, opts, sc, phoneValid, nerReady, nerOut)
  {
    hits := [];
    if !IsBlank(text) {
      var lang := match opts.languageOverride
        case Some(l) => l
        case None => Language.Guess(text);
      assert lang == LanguageOf(text, opts);
      var pattern := RunRecognizers(text, lang, sc, phoneValid);
      hits := FilterTypes(pattern, opts.includeEntityTypes, opts.excludeEntityTypes);
      if opts.enableNer && nerReady {
        hits := AddNerHits(hits, nerOut(lang), opts.minNerConfidence);
      }
    }
  }

  /** The two entity filters, each applied only when its set is non-empty. */
  method FilterTypes(hs: seq<PiiHit>, includeTypes: set<string>, excludeTypes: set<string>)
    returns (r: seq<PiiHit>)
    ensures r == TypeFilter(hs, includeTypes, excludeTypes)
  {
    r := hs;
    if |includeTypes| > 0 {
      r := Keep(r, includeTypes, true);
    }
    if |excludeTypes| > 0 {
      r := Keep(r, excludeTypes, false);
    }
  }

  /** The recognizers, run in registration order and concatenated. */
  method RunRecognizers(text: string, lang: string, sc: Scan, phoneValid: string -> bool)
    returns (hits: seq<PiiHit>)
    requires ScanOf(text, sc)
    ensures hits == PatternHits(text, lang, sc, phoneValid)
    ensures forall h :: h in hits ==> Within(text, h)
  {
    var email := HitsOf(sc.email, AnyValue, "EMAIL");
    HitsOfWithin(text, sc.email, AnyValue, "EMAIL");
    var phone := HitsOf(sc.phone, phoneValid, "PHONE");
    HitsOfWithin(text, sc.phone, phoneValid, "PHONE");
    var iban := Iban.Analyze(text, sc.iban);
    var card := CreditCard.Analyze(text, sc.card);
    var tckn := Tckn.Analyze(text, lang, sc.tckn);
    var dob := HitsOf(sc.dob, AnyValue, "DOB");
    HitsOfWithin(text, sc.dob, AnyValue, "DOB");
    var address := Address.Analyze(text, lang);
    forall h | h in address
      ensures Within(text, h)
    {
      Address.HitsAreKeywords(text, lang, h);
    }
    hits := email + phone + iban + card + tckn + dob + address;
  }

  /** The `foreach` over the confident entities, appending one hit each. */
  method AddNerHits(hits0: seq<PiiHit>, ents: seq<NerEntity>, minConfidence: real)
    returns (hits: seq<PiiHit>)
    ensures hits == hits0 + NerHits(ents, minConfidence)
  {
    hits := hits0;
    for i := 0 to |ents|
      invariant hits == hits0 + NerHits(ents[..i], minConfidence)
    {
      var e := ents[i];
      assert ents[..i + 1][..i] == ents[..i];
      if e.confidence >= minConfidence {
        hits := hits + [PiiHit(e.kind, e.start, e.stop - e.start)];
      }
    }
    assert ents[..|ents|] == ents;
  }

  lemma SumTermsStep(ks: seq<string>, i: int, hs: seq<PiiHit>, opts: Options)
    requires 0 <= i < |ks|
    ensures SumTerms(ks[..i + 1], hs, opts) == SumTerms(ks[..i], hs, opts) + Term(hs, opts, ks[i])
  {
    assert ks[..i + 1][..i] == ks[..i];
  }

  /** The `foreach` over the groups accumulating the weighted sum. */
  method SumGroups(hits: seq<PiiHit>, counts: map<string, nat>, opts: Options) returns (sum: real)
    requires counts == Groups(hits)
    ensures sum == WeightedSum(hits, opts)
  {
    var kinds := KindOrder(hits);
    sum := 0.0;
    for i := 0 to |kinds|
      invariant sum == SumTerms(kinds[..i], hits, opts)
    {
      var t := kinds[i];
      SumTermsStep(kinds, i, hits, opts);
      assert t in counts && counts[t] == Count(hits, t);
      var w := if t in opts.weights then opts.weights[t] else 0.0;
      if w <= 0.0 {
        w := 1.0;
      }
      sum := sum + Scale(Min(counts[t], opts.maxCountPerType), w);
    }
    assert kinds[..|kinds|] == kinds;
  }

  /** With the entity recognizer off, every hit obeys the type filters. */
  lemma FiltersObeyedWithoutNer(text: string, opts: Options, sc: Scan, phoneValid: string -> bool,
                                nerReady: bool, nerOut: string -> seq<NerEntity>, h: PiiHit)
    requires !(opts.enableNer && nerReady)
    requires h in DetectedHits(text, opts, sc, phoneValid, nerReady, nerOut)
    ensures |opts.includeEntityTypes| > 0 ==> h.kind in opts.includeEntityTypes
    ensures h.kind !in opts.excludeEntityTypes
  {
    var lang := LanguageOf(text, opts);
    TypeFilterIff(PatternHits(text, lang, sc, phoneValid), opts.includeEntityTypes, opts.excludeEntityTypes, h);
  }

  /** Entity hits are appended after the filters and bypass them: every
      confident entity becomes a hit, whatever its type and whatever the
      include and exclude sets say. */
  lemma NerBypassesFilters(text: string, opts: Options, sc: Scan, phoneValid: string -> bool,
                           nerReady: bool, nerOut: string -> seq<NerEntity>, e: NerEntity)
    requires !IsBlank(text) && opts.enableNer && nerReady
    requires e in nerOut(LanguageOf(text, opts)) && e.confidence >= opts.minNerConfidence
    ensures PiiHit(e.kind, e.start, e.stop - e.start) in DetectedHits(text, opts, sc, phoneValid, nerReady, nerOut)
  {
    var es := nerOut(LanguageOf(text, opts));
    var i :| 0 <= i < |es| && es[i] == e;
    NerHitsIff(es, opts.minNerConfidence, PiiHit(e.kind, e.start, e.stop - e.start));
  }

  /** Appending a hit raises its type's count by one and leaves the others. */
  lemma CountAppend(hs: seq<PiiHit>, h: PiiHit, t: string)
    ensures Count(hs + [h], t) == Count(hs, t) + (if h.kind == t then 1 else 0)
  {
    assert (hs + [h])[..|hs|] == hs;
  }

  lemma ScaleMonotone(a: int, b: int, w: real)
    requires a <= b && w >= 0.0
    ensures Scale(a, w) <= Scale(b, w)
  {
  }

  /** One more hit never lowers a type's share when the cap is not
      negative; a type that was absent gets a share of at least 0. */
  lemma TermMonotone(hs: seq<PiiHit>, h: PiiHit, opts: Options, t: string)
    requires opts.maxCountPerType >= 0
    ensures Term(hs, opts, t) <= Term(hs + [h], opts, t)
    ensures 0.0 <= Term(hs, opts, t)
  {
    CountAppend(hs, h, t);
    var w := WeightOf(opts.weights, t);
    var a := Min(Count(hs, t), opts.maxCountPerType);
    var b := Min(Count(hs + [h], t), opts.maxCountPerType);
    ScaleMonotone(a, b, w);
    ScaleMonotone(0, a, w);
  }

  lemma {:induction false} SumTermsMonotone(ks: seq<string>, hs: seq<PiiHit>, hs': seq<PiiHit>, opts: Options)
    requires forall t :: t in ks ==> Term(hs, opts, t) <= Term(hs', opts, t)
    ensures SumTerms(ks, hs, opts) <= SumTerms(ks, hs', opts)
  {
    if ks != [] {
      SumTermsMonotone(ks[..|ks| - 1], hs, hs', opts);
    }
  }

  /** One more hit never lowers the weighted sum, provided the cap is not
      negative (a negative cap makes every new type subtract). */
  lemma WeightedSumMonotone(hs: seq<PiiHit>, h: PiiHit, opts: Options)
    requires opts.maxCountPerType >= 0
    ensures WeightedSum(hs, opts) <= WeightedSum(hs + [h], opts)
  {
    var hs' := hs + [h];
    assert hs'[..|hs'| - 1] == hs;
    var ks := KindOrder(hs);
    forall t | t in ks
      ensures Term(hs, opts, t) <= Term(hs', opts, t)
    {
      TermMonotone(hs, h, opts, t);
    }
    SumTermsMonotone(ks, hs, hs', opts);
    if h.kind !in ks {
      TermMonotone(hs, h, opts, h.kind);
      assert KindOrder(hs') == ks + [h.kind];
      assert (ks + [h.kind])[..|ks|] == ks;
    }
  }

  /** Hence one more hit never lowers the risk. */
  lemma RiskMonotone(hs: seq<PiiHit>, h: PiiHit, opts: Options, curve: real -> real)
    requires opts.maxCountPerType >= 0 && ValidCurve(curve)
    ensures curve(WeightedSum(hs, opts)) <= curve(WeightedSum(hs + [h], opts))
  {
    WeightedSumMonotone(hs, h, opts);
  }

  /** The sum of the hits' counts over the distinct types `ks`. */
  function CountTotal(ks: seq<string>, hs: seq<PiiHit>): nat
  {
    if ks == [] then 0 else CountTotal(ks[..|ks| - 1], hs) + Count(hs, ks[|ks| - 1])
  }

  lemma {:induction false} CountTotalAppend(ks: seq<string>, hs: seq<PiiHit>, h: PiiHit)
    requires forall a, b :: 0 <= a < b < |ks| ==> ks[a] != ks[b]
    ensures CountTotal(ks, hs + [h]) == CountTotal(ks, hs) + (if h.kind in ks then 1 else 0)
  {
    if ks != [] {
      var init := ks[..|ks| - 1];
      CountTotalAppend(init, hs, h);
      CountAppend(hs, h, ks[|ks| - 1]);
      assert h.kind in ks <==> h.kind in init || h.kind == ks[|ks| - 1];
      assert ks[|ks| - 1] !in init;
    }
  }

  /** The groups partition the hits: the counts add up to the number of
      hits. */
  lemma {:induction false} CountsPartitionHits(hs: seq<PiiHit>)
    ensures CountTotal(KindOrder(hs), hs) == |hs|
  {
    if hs != [] {
      var init := hs[..|hs| - 1];
      var h := hs[|hs| - 1];
      assert hs == init + [h];
      var ks := KindOrder(init);
      CountsPartitionHits(init);
      CountTotalAppend(ks, init, h);
      if h.kind !in ks {
        assert Count(init, h.kind) == 0;
        CountAppend(init, h, h.kind);
        assert KindOrder(hs) == ks + [h.kind];
        assert (ks + [h.kind])[..|ks|] == ks;
      }
    }
  }

  /** With the defaults as written, an IBAN hit weighs 1 and is not among
      the redacted types: the defaults name the type "IBAN_TR", which no
      recognizer emits. */
  lemma DefaultIbanWeightAsWritten(start: int, length: int)
    ensures WeightOf(DefaultOptions().weights, "IBAN") == 1.0
    ensures WeightedSum([PiiHit("IBAN", start, length)], DefaultOptions()) == 1.0
    ensures "IBAN" !in DefaultOptions().redactTypes
  {
    var opts := DefaultOptions();
    var hs := [PiiHit("IBAN", start, length)];
    assert hs[..0] == [];
    assert KindOrder(hs) == ["IBAN"];
    assert ["IBAN"][..0] == [];
    assert Count(hs, "IBAN") == 1;
    assert SumTerms(["IBAN"], hs, opts) == SumTerms([], hs, opts) + Term(hs, opts, "IBAN");
  }

  /** With the defaults keyed by the emitted type, an IBAN hit weighs 8 and
      is redacted. */
  lemma DefaultIbanWeightCorrected(start: int, length: int)
    ensures WeightOf(CorrectedDefaultOptions().weights, "IBAN") == 8.0
    ensures WeightedSum([PiiHit("IBAN", start, length)], CorrectedDefaultOptions()) == 8.0
    ensures "IBAN" in CorrectedDefaultOptions().redactTypes
  {
    var opts := CorrectedDefaultOptions();
    var hs := [PiiHit("IBAN", start, length)];
    assert hs[..0] == [];
    assert KindOrder(hs) == ["IBAN"];
    assert ["IBAN"][..0] == [];
    assert Count(hs, "IBAN") == 1;
    assert SumTerms(["IBAN"], hs, opts) == SumTerms([], hs, opts) + Term(hs, opts, "IBAN");
  }
}
