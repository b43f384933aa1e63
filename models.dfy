/** Plain data shared by the recognizers, the engine and the middleware:
    the records PiiHit and NerEntity, a regex match as handed over by the
    regex engine, and the option fields the core reads. */
module Models {

  datatype Option<T> = None | Some(value: T)

  /** A located PII occurrence: type tag, character offset and length. */
  datatype PiiHit = PiiHit(kind: string, start: int, length: int)

  /** An entity reported by a named-entity recognizer; `stop` is exclusive. */
  datatype NerEntity = NerEntity(kind: string, start: int, stop: int, confidence: real)

  /** One match of a recognizer's regular expression: where it starts and
      the matched characters. The regex engine itself is not modelled. */
  datatype RegexMatch = RegexMatch(index: int, value: string)

  /** The match really is the slice of `text` it claims to be. */
  predicate MatchIn(text: string, m: RegexMatch)
  {
    0 <= m.index && m.index + |m.value| <= |text| && text[m.index..m.index + |m.value|] == m.value
  }

  /** The hit's span lies inside `text`. */
  predicate Within(text: string, h: PiiHit)
  {
    0 <= h.start && 0 <= h.length && h.start + h.length <= |text|
  }

  datatype ActionMode = NoAction | Tag | Redact | Block

  datatype RedactionStyle = MaskAll | Partial | Hash

  /** The option fields the engine and the middleware read. Weights and
      thresholds are the source's doubles, taken here as exact reals. */
  datatype Options = Options(
    analyzableContentTypes: seq<string>,
    weights: map<string, real>,
    maxCountPerType: int,
    blockAt: real,
    enableNer: bool,
    minNerConfidence: real,
    includePaths: seq<string>,
    excludePaths: seq<string>,
    includeMethods: seq<string>,
    excludeMethods: seq<string>,
    includeEntityTypes: set<string>,
    excludeEntityTypes: set<string>,
    action: ActionMode,
    redactAt: real,
    redactTypes: set<string>,
    redaction: RedactionStyle,
    languageOverride: Option<string>)

  /** The defaults of the options class, as written. */
  function DefaultOptions(): (o: Options)
    ensures o.action == Tag && o.blockAt < 0.0 && !o.enableNer
    ensures o.maxCountPerType >= 0 && forall t :: t in o.weights ==> o.weights[t] > 0.0
    ensures o.redactTypes <= o.weights.Keys
    ensures "IBAN" !in o.weights && "IBAN" !in o.redactTypes
  {
    Options(
      ["application/json", "text/plain", "application/xml", "application/x-www-form-urlencoded"],
      map["TCKN" := 10.0, "CREDIT_CARD" := 9.0, "IBAN_TR" := 8.0, "DOB" := 7.0,
          "ADDRESS" := 6.0, "PHONE" := 5.0, "EMAIL" := 4.0, "PERSON" := 3.0],
      5, -1.0, false, 0.6, [], [], [], [], {}, {}, Tag, 0.0,
      {"EMAIL", "PHONE", "TCKN", "CREDIT_CARD", "IBAN_TR", "DOB"}, MaskAll, None)
  }

  /** The defaults with the IBAN weight and redaction entry keyed by the tag
      the IBAN recognizer actually emits. */
  function CorrectedDefaultOptions(): Options
  {
    DefaultOptions().(
      weights := map["TCKN" := 10.0, "CREDIT_CARD" := 9.0, "IBAN" := 8.0, "DOB" := 7.0,
                     "ADDRESS" := 6.0, "PHONE" := 5.0, "EMAIL" := 4.0, "PERSON" := 3.0],
      redactTypes := {"EMAIL", "PHONE", "TCKN", "CREDIT_CARD", "IBAN", "DOB"})
  }

  /** The recognizers' shared accept loop: every match whose value `accept`
      admits becomes a hit of type `kind` with the match's index and length,
      in match order. */
  function HitsOf(ms: seq<RegexMatch>, accept: string -> bool, kind: string): (hs: seq<PiiHit>)
    ensures |hs| <= |ms|
    ensures forall h :: h in hs ==> h.kind == kind
  {
    if ms == [] then []
    else
      var m := ms[|ms| - 1];
      HitsOf(ms[..|ms| - 1], accept, kind) + (if accept(m.value) then [PiiHit(kind, m.index, |m.value|)] else [])
  }

  /** One more match read: its hit, if accepted, comes after the others. */
  lemma HitsOfStep(ms: seq<RegexMatch>, i: int, accept: string -> bool, kind: string)
    requires 0 <= i < |ms|
    ensures HitsOf(ms[..i + 1], accept, kind)
            == HitsOf(ms[..i], accept, kind) + (if accept(ms[i].value) then [PiiHit(kind, ms[i].index, |ms[i].value|)] else [])
  {
    assert ms[..i + 1][..i] == ms[..i];
  }

  /** A hit is reported exactly when some match is accepted, and it carries
      that match's index and length. */
  lemma {:induction false} HitsOfIff(ms: seq<RegexMatch>, accept: string -> bool, kind: string, h: PiiHit)
    ensures h in HitsOf(ms, accept, kind) <==>
            exists i :: 0 <= i < |ms| && accept(ms[i].value) && h == PiiHit(kind, ms[i].index, |ms[i].value|)
  {
    if ms != [] {
      var init := ms[..|ms| - 1];
      HitsOfIff(init, accept, kind, h);
      if h in HitsOf(ms, accept, kind) && h !in HitsOf(init, accept, kind) {
        assert accept(ms[|ms| - 1].value) && h == PiiHit(kind, ms[|ms| - 1].index, |ms[|ms| - 1].value|);
      }
      if exists i :: 0 <= i < |ms| && accept(ms[i].value) && h == PiiHit(kind, ms[i].index, |ms[i].value|) {
        var i :| 0 <= i < |ms| && accept(ms[i].value) && h == PiiHit(kind, ms[i].index, |ms[i].value|);
        if i < |ms| - 1 {
          assert init[i] == ms[i];
        }
      }
    }
  }

  /** Every hit of the accept loop has the recognizer's type and lies in the
      text whose matches were scanned. */
  lemma HitsOfWithin(text: string, ms: seq<RegexMatch>, accept: string -> bool, kind: string)
    requires forall i :: 0 <= i < |ms| ==> MatchIn(text, ms[i])
    ensures forall h :: h in HitsOf(ms, accept, kind) ==> h.kind == kind && Within(text, h)
  {
    forall h | h in HitsOf(ms, accept, kind)
      ensures h.kind == kind && Within(text, h)
    {
      HitsOfIff(ms, accept, kind, h);
    }
  }

  /** Concatenation regroups; stated once so that proofs can cite it. */
  lemma AppendAssoc<T>(a: seq<T>, b: seq<T>, c: seq<T>)
    ensures a + (b + c) == (a + b) + c
  {
  }
}
