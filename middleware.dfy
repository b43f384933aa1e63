/** The middleware's policy: which requests are inspected (`IsAllowed`),
    which bodies count as text (`IsTextContent`), and when an analysed body
    is blocked or redacted. The HTTP pipeline around them is not modelled. */
module Middleware {
  import opened Models
  import opened Chars

  /** `IsTextContent`: a missing or empty content type is not text;
      otherwise some configured type must be a case-insensitive prefix of it
      (so parameters such as "; charset=utf-8" are allowed). */
  predicate IsTextContent(contentType: Option<string>, types: seq<string>)
    ensures IsTextContent(contentType, types) ==> contentType.Some? && |contentType.value| > 0 && |types| > 0
    ensures contentType.Some? && |contentType.value| > 0 && contentType.value in types ==> IsTextContent(contentType, types)
  {
    match contentType
    case None => false
    case Some(ct) => |ct| > 0 && exists i :: 0 <= i < |types| && StartsWithIgnoreCase(ct, types[i])
  }

  lemma UpperTwice(s: string)
    ensures Upper(Upper(s)) == Upper(s)
  {
    assert forall i :: 0 <= i < |s| ==> ToUpper(ToUpper(s[i])) == ToUpper(s[i]);
  }

  /** The content-type test ignores case. */
  lemma TextContentIgnoresCase(ct: string, types: seq<string>)
    ensures IsTextContent(Some(Upper(ct)), types) == IsTextContent(Some(ct), types)
  {
    forall i | 0 <= i < |types| && |types[i]| <= |ct|
      ensures StartsWithIgnoreCase(Upper(ct), types[i]) == StartsWithIgnoreCase(ct, types[i])
    {
      assert Upper(ct)[..|types[i]|] == Upper(ct[..|types[i]|]);
      UpperTwice(ct[..|types[i]|]);
    }
  }

  /** A JSON body with a charset parameter is text under the default
      configuration. */
  lemma JsonWithCharsetIsText()
    ensures IsTextContent(Some("application/json; charset=utf-8"), DefaultOptions().analyzableContentTypes)
  {
    var ct := "application/json; charset=utf-8";
    var types := DefaultOptions().analyzableContentTypes;
    assert types[0] == "application/json";
    assert ct[..16] == "application/json";
    assert StartsWithIgnoreCase(ct, types[0]);
  }

  /** A configured empty type makes every non-empty content type text. */
  lemma EmptyTypeMatchesAll(ct: string, types: seq<string>)
    requires |ct| > 0 && "" in types
    ensures IsTextContent(Some(ct), types)
  {
    var i :| 0 <= i < |types| && types[i] == "";
    assert StartsWithIgnoreCase(ct, types[i]);
  }

  predicate AnyPrefix(path: string, prefixes: seq<string>)
  {
    exists i :: 0 <= i < |prefixes| && StartsWithIgnoreCase(path, prefixes[i])
  }

  /** `Request.Path` when it has a value, else "". */
  function PathOf(path: Option<string>): string
  {
    match path
    case Some(v) => v
    case None => ""
  }

  /** `Request.Method?.ToUpperInvariant() ?? ""`. */
  function VerbOf(verb: Option<string>): string
  {
    match verb
    case Some(v) => Upper(v)
    case None => ""
  }

  /** `IsAllowed`: the early returns, in the source's order. */
  predicate IsAllowed(path: Option<string>, verb: Option<string>, opts: Options)
    ensures opts.includePaths == [] && opts.excludePaths == [] && opts.includeMethods == [] && opts.excludeMethods == []
            ==> IsAllowed(path, verb, opts)
    ensures AnyPrefix(PathOf(path), opts.excludePaths) || VerbOf(verb) in opts.excludeMethods
            ==> !IsAllowed(path, verb, opts)
  {
    var p := PathOf(path);
    var m := VerbOf(verb);
    if |opts.includePaths| > 0 && !AnyPrefix(p, opts.includePaths) then false
    else if AnyPrefix(p, opts.excludePaths) then false
    else if |opts.includeMethods| > 0 && m !in opts.includeMethods then false
    else if m in opts.excludeMethods then false
    else true
  }

  /** A request is inspected exactly when its path passes the include list
      (if any) and no exclude prefix, and its upper-cased method passes the
      include list (if any) and is not excluded; an exclusion wins over an
      inclusion. */
  lemma IsAllowedIff(path: Option<string>, verb: Option<string>, opts: Options)
    ensures IsAllowed(path, verb, opts) <==>
              (|opts.includePaths| == 0 || AnyPrefix(PathOf(path), opts.includePaths))
              && !AnyPrefix(PathOf(path), opts.excludePaths)
              && (|opts.includeMethods| == 0 || VerbOf(verb) in opts.includeMethods)
              && VerbOf(verb) !in opts.excludeMethods
  {
  }

  predicate HasLower(s: string)
  {
    exists i :: 0 <= i < |s| && IsAsciiLower(s[i])
  }

  lemma VerbHasNoLower(verb: Option<string>)
    ensures !HasLower(VerbOf(verb))
  {
    if verb.Some? {
      var u := Upper(verb.value);
      assert forall i :: 0 <= i < |u| ==> u[i] == ToUpper(verb.value[i]);
    }
  }

  /** Methods are compared after upper-casing, with ordinal equality: an
      include list whose entries are all written with lower-case letters
      (such as "post") lets no request through. */
  lemma LowercaseIncludeMethodsAllowNothing(path: Option<string>, verb: Option<string>, opts: Options)
    requires |opts.includeMethods| > 0
    requires forall i :: 0 <= i < |opts.includeMethods| ==> HasLower(opts.includeMethods[i])
    ensures !IsAllowed(path, verb, opts)
  {
    VerbHasNoLower(verb);
  }

  /** Likewise a lower-case exclude entry never excludes anything. */
  lemma LowercaseExcludeMethodsIgnored(path: Option<string>, verb: Option<string>, opts: Options)
    requires forall i :: 0 <= i < |opts.excludeMethods| ==> HasLower(opts.excludeMethods[i])
    ensures IsAllowed(path, verb, opts) == IsAllowed(path, verb, opts.(excludeMethods := []))
  {
    VerbHasNoLower(verb);
  }

  /** The block condition, shared by the request and the response. */
  predicate ShouldBlock(opts: Options, risk: real)
    ensures ShouldBlock(opts, risk) ==> risk >= 0.0
    ensures opts.action != Block || opts.blockAt < 0.0 ==> !ShouldBlock(opts, risk)
  {
    opts.action == Block && opts.blockAt >= 0.0 && risk >= opts.blockAt
  }

  /** The redact condition on the response. */
  predicate ShouldRedact(opts: Options, risk: real, hits: seq<PiiHit>)
    ensures ShouldRedact(opts, risk, hits) ==> hits != [] && forall r :: !ShouldBlock(opts, r)
  {
    opts.action == Redact && risk >= opts.redactAt && |hits| > 0
  }

  datatype Verdict = Blocked | RedactedBody | PassedThrough

  /** What happens to an analysed response: the block test comes first,
      then the redact test. */
  function ResponseVerdict(opts: Options, risk: real, hits: seq<PiiHit>): (v: Verdict)
    ensures v == Blocked <==> ShouldBlock(opts, risk)
    ensures v == RedactedBody <==> ShouldRedact(opts, risk, hits)
  {
    if ShouldBlock(opts, risk) then Blocked
    else if ShouldRedact(opts, risk, hits) then RedactedBody
    else PassedThrough
  }

  /** A higher risk never lifts a block or a redaction. */
  lemma VerdictMonotone(opts: Options, risk: real, risk': real, hits: seq<PiiHit>)
    requires risk <= risk'
    ensures ShouldBlock(opts, risk) ==> ShouldBlock(opts, risk')
    ensures ShouldRedact(opts, risk, hits) ==> ShouldRedact(opts, risk', hits)
  {
  }

  /** A negative threshold (the default -1) disables blocking, and with the
      default action (Tag) a response is never blocked or redacted. */
  lemma DefaultsOnlyTag(risk: real, hits: seq<PiiHit>)
    ensures !ShouldBlock(DefaultOptions(), risk)
    ensures ResponseVerdict(DefaultOptions(), risk, hits) == PassedThrough
  {
  }

  /** Nothing is redacted when nothing was found, whatever the risk. */
  lemma NoHitsNoRedaction(opts: Options, risk: real)
    ensures !ShouldRedact(opts, risk, [])
  {
  }
}
