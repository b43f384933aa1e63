/** The middleware's `Redact`: the hits of the configured types are applied
    to a copy of the text in descending start order, each as a mask, a
    partial mask or a replacement by a 12-character hash token.

    The `StringBuilder` is the local `sb`, a sequence of characters updated
    character by character (`sb[i] = c`) or by remove-then-insert. The
    SHA-256 digest in hexadecimal is the parameter `hex`, a function giving
    64 characters for every input; only its first 12 are used. */
module Redaction {
  import opened Models
  import Engine

  // ---------------------------------------------------------------------
  // OrderByDescending(h => h.Start): a stable sort.

  predicate SortedDesc(hs: seq<PiiHit>)
  {
    forall a, b :: 0 <= a < b < |hs| ==> hs[a].start >= hs[b].start
  }

  /** Inserts `h` before the first element starting strictly before it, so
      it lands after every element with the same start. */
  function Insert(h: PiiHit, hs: seq<PiiHit>): (r: seq<PiiHit>)
    ensures |r| == |hs| + 1
    ensures multiset(r) == multiset(hs) + multiset{h}
  {
    if hs == [] then [h]
    else if hs[0].start < h.start then [h] + hs
    else
      assert hs == [hs[0]] + hs[1..];
      [hs[0]] + Insert(h, hs[1..])
  }

  /** Insertion sort over the hits in list order: every hit is inserted
      after the hits before it that have the same start. */
  function SortDesc(hs: seq<PiiHit>): (r: seq<PiiHit>)
    ensures multiset(r) == multiset(hs)
  {
    if hs == [] then []
    else
      assert hs == hs[..|hs| - 1] + [hs[|hs| - 1]];
      Insert(hs[|hs| - 1], SortDesc(hs[..|hs| - 1]))
  }

  lemma {:induction false} InsertSorted(h: PiiHit, hs: seq<PiiHit>)
    requires SortedDesc(hs)
    ensures SortedDesc(Insert(h, hs))
  {
    if hs != [] && hs[0].start >= h.start {
      SortedTail(hs);
      InsertSorted(h, hs[1..]);
      var tail := Insert(h, hs[1..]);
      InsertBounded(h, hs[1..], hs[0].start);
      ConsSorted(hs[0], tail);
    }
  }

  /** Inserting keeps every start at most `m` when `h` and `hs` do. */
  lemma {:induction false} InsertBounded(h: PiiHit, hs: seq<PiiHit>, m: int)
    requires h.start <= m && forall i :: 0 <= i < |hs| ==> hs[i].start <= m
    ensures forall i :: 0 <= i < |Insert(h, hs)| ==> Insert(h, hs)[i].start <= m
  {
    if hs != [] && hs[0].start >= h.start {
      InsertBounded(h, hs[1..], m);
    }
  }

  lemma ConsSorted(x: PiiHit, t: seq<PiiHit>)
    requires SortedDesc(t) && forall i :: 0 <= i < |t| ==> t[i].start <= x.start
    ensures SortedDesc([x] + t)
  {
    assert forall b :: 0 < b <= |t| ==> ([x] + t)[b] == t[b - 1];
  }

  /** The sorted hits are in descending order of start. */
  lemma {:induction false} SortDescSorted(hs: seq<PiiHit>)
    ensures SortedDesc(SortDesc(hs))
  {
    if hs != [] {
      SortDescSorted(hs[..|hs| - 1]);
      InsertSorted(hs[|hs| - 1], SortDesc(hs[..|hs| - 1]));
    }
  }

  /** The hits starting at `v`, in list order. */
  function ByStart(hs: seq<PiiHit>, v: int): seq<PiiHit>
  {
    if hs == [] then []
    else (if hs[0].start == v then [hs[0]] else []) + ByStart(hs[1..], v)
  }

  lemma {:induction false} ByStartConcat(a: seq<PiiHit>, b: seq<PiiHit>, v: int)
    ensures ByStart(a + b, v) == ByStart(a, v) + ByStart(b, v)
  {
    if a == [] {
      assert a + b == b;
    } else {
      assert (a + b)[0] == a[0] && (a + b)[1..] == a[1..] + b;
      ByStartConcat(a[1..], b, v);
      AppendAssoc(if a[0].start == v then [a[0]] else [], ByStart(a[1..], v), ByStart(b, v));
    }
  }

  /** The tail of a sorted list is sorted. */
  lemma SortedTail(hs: seq<PiiHit>)
    requires SortedDesc(hs) && hs != []
    ensures SortedDesc(hs[1..])
  {
    assert forall a :: 0 <= a < |hs| - 1 ==> hs[1..][a] == hs[a + 1];
  }

  lemma ByStartCons(x: PiiHit, rest: seq<PiiHit>, v: int)
    ensures ByStart([x] + rest, v) == (if x.start == v then [x] else []) + ByStart(rest, v)
  {
    assert ([x] + rest)[0] == x && ([x] + rest)[1..] == rest;
  }

  lemma {:induction false} InsertByStart(h: PiiHit, hs: seq<PiiHit>, v: int)
    requires SortedDesc(hs)
    ensures ByStart(Insert(h, hs), v) == ByStart(hs, v) + (if h.start == v then [h] else [])
  {
    if hs == [] {
      ByStartCons(h, [], v);
    } else if hs[0].start < h.start {
      // Every element of hs starts before h, so none of them starts at h.start.
      ByStartCons(h, hs, v);
      if h.start == v {
        NoneStartAt(hs, v);
      }
    } else {
      SortedTail(hs);
      InsertByStart(h, hs[1..], v);
      InsertByStartStep(h, hs, v);
    }
  }

  /** The step of `InsertByStart` where `h` goes past the head of `hs`. */
  lemma InsertByStartStep(h: PiiHit, hs: seq<PiiHit>, v: int)
    requires hs != [] && hs[0].start >= h.start
    requires ByStart(Insert(h, hs[1..]), v) == ByStart(hs[1..], v) + (if h.start == v then [h] else [])
    ensures ByStart(Insert(h, hs), v) == ByStart(hs, v) + (if h.start == v then [h] else [])
  {
    var tail := Insert(h, hs[1..]);
    assert Insert(h, hs) == [hs[0]] + tail;
    ByStartCons(hs[0], tail, v);
    AppendAssoc(if hs[0].start == v then [hs[0]] else [], ByStart(hs[1..], v), if h.start == v then [h] else []);
  }

  lemma {:induction false} NoneStartAt(hs: seq<PiiHit>, v: int)
    requires SortedDesc(hs) && hs != [] && hs[0].start < v
    ensures ByStart(hs, v) == []
  {
    if |hs| > 1 {
      SortedTail(hs);
      NoneStartAt(hs[1..], v);
    } else {
      assert hs[1..] == [];
    }
  }

  /** The sort is stable: the hits with one start keep their list order. */
  lemma {:induction false} SortDescStable(hs: seq<PiiHit>, v: int)
    ensures ByStart(SortDesc(hs), v) == ByStart(hs, v)
  {
    if hs != [] {
      var init, last := hs[..|hs| - 1], hs[|hs| - 1];
      var tail := if last.start == v then [last] else [];
      SortDescStable(init, v);
      SortDescSorted(init);
      InsertByStart(last, SortDesc(init), v);
      assert SortDesc(hs) == Insert(last, SortDesc(init));
      assert ByStart(SortDesc(hs), v) == ByStart(init, v) + tail;
      ByStartSnoc(hs, v);
    }
  }

  lemma ByStartSnoc(hs: seq<PiiHit>, v: int)
    requires hs != []
    ensures ByStart(hs, v) == ByStart(hs[..|hs| - 1], v) + (if hs[|hs| - 1].start == v then [hs[|hs| - 1]] else [])
  {
    var init, last := hs[..|hs| - 1], hs[|hs| - 1];
    assert hs == init + [last];
    ByStartConcat(init, [last], v);
    assert ByStart([last], v) == (if last.start == v then [last] else []) + ByStart([], v);
  }

  // ---------------------------------------------------------------------
  // Applying the hits.

  /** The digest function yields 64 hexadecimal characters for any text. */
  ghost predicate HexDigest(hex: string -> string)
  {
    forall x :: |hex(x)| == 64
  }

  /** The hit's span fits a buffer of length `n` (the skip test fails). */
  predicate Fits(h: PiiHit, n: int)
  {
    0 <= h.start && h.start + h.length <= n
  }

  /** Position `p` is overwritten with '*' by hit `h`: anywhere in its span
      for MaskAll; for Partial only from the third character of the span up
      to the third-last. */
  predicate Starred(style: RedactionStyle, h: PiiHit, p: int)
  {
    h.start <= p < h.start + h.length
    && (style == Partial ==> 2 <= p - h.start < h.length - 2)
  }

  /** The MaskAll and Partial loops on one hit. */
  function Star(s: string, h: PiiHit, style: RedactionStyle): (r: string)
    ensures |r| == |s|
    ensures forall p :: 0 <= p < |s| ==> r[p] == s[p] || r[p] == '*'
    ensures forall p :: 0 <= p < |s| && !(h.start <= p < h.start + h.length) ==> r[p] == s[p]
  {
    seq(|s|, p requires 0 <= p < |s| => if Starred(style, h, p) then '*' else s[p])
  }

  /** The Hash branch on one hit: the span is removed and the first 12
      characters of the segment's digest are inserted in its place. */
  function HashSpan(s: string, h: PiiHit, hex: string -> string): (r: string)
    requires HexDigest(hex) && Fits(h, |s|) && h.length >= 0
    ensures |r| == |s| - h.length + 12
    ensures r[..h.start] == s[..h.start] && r[h.start + 12..] == s[h.start + h.length..]
  {
    s[..h.start] + hex(s[h.start..h.start + h.length])[..12] + s[h.start + h.length..]
  }

  /** One iteration of the `foreach`: a hit that does not fit is skipped;
      a Hash hit of negative length makes `ToString(start, length)` throw,
      which is `None`. */
  function ApplyHit(s: string, h: PiiHit, style: RedactionStyle, hex: string -> string): (r: Option<string>)
    requires HexDigest(hex)
    ensures r.None? <==> style == Hash && Fits(h, |s|) && h.length < 0
    ensures !Fits(h, |s|) ==> r == Some(s)
    ensures style != Hash ==> r.Some? && |r.value| == |s|
  {
    if h.start < 0 || h.start + h.length > |s| then Some(s)
    else if style == Hash then (if h.length < 0 then None else Some(HashSpan(s, h, hex)))
    else Some(Star(s, h, style))
  }

  /** The hits applied one after the other, each to the result of the
      previous ones. */
  function ApplyAll(s: string, hs: seq<PiiHit>, style: RedactionStyle, hex: string -> string): Option<string>
    requires HexDigest(hex)
    decreases |hs|
  {
    if hs == [] then Some(s)
    else
      match ApplyHit(s, hs[0], style, hex)
      case None => None
      case Some(s') => ApplyAll(s', hs[1..], style, hex)
  }

  /** What `Redact` returns: the hits of the redacted types, sorted by
      descending start, applied in that order. */
  function Redacted(text: string, hits: seq<PiiHit>, opts: Options, hex: string -> string): (r: Option<string>)
    requires HexDigest(hex)
    ensures opts.redaction != Hash ==> r.Some? && |r.value| == |text|
  {
    var hs := SortDesc(Engine.Keep(hits, opts.redactTypes, true));
    if opts.redaction == Hash then ApplyAll(text, hs, Hash, hex)
    else
      ApplyAllStars(text, hs, opts.redaction, hex);
      ApplyAll(text, hs, opts.redaction, hex)
  }

  /** The MaskAll loop: every character of the span becomes '*'. */
  method MaskAllSpan(sb: string, h: PiiHit) returns (out: string)
    requires Fits(h, |sb|)
    ensures out == Star(sb, h, MaskAll)
  {
    out := sb;
    var i := 0;
    while i < h.length
      invariant 0 <= i && (i <= h.length || i == 0)
      invariant |out| == |sb|
      invariant forall p :: 0 <= p < |out| ==> out[p] == if h.start <= p < h.start + i then '*' else sb[p]
    {
      out := out[h.start + i := '*'];
      i := i + 1;
    }
  }

  /** The Partial loop: the first two and the last two characters of the
      span are written back, the others become '*'. */
  method PartialSpan(sb: string, h: PiiHit) returns (out: string)
    requires Fits(h, |sb|)
    ensures out == Star(sb, h, Partial)
  {
    out := sb;
    var i := 0;
    while i < h.length
      invariant 0 <= i && (i <= h.length || i == 0)
      invariant |out| == |sb|
      invariant forall p :: 0 <= p < |out| ==>
                  out[p] == if h.start <= p < h.start + i && 2 <= p - h.start < h.length - 2 then '*' else sb[p]
    {
      out := out[h.start + i := if i < 2 || i >= h.length - 2 then out[h.start + i] else '*'];
      i := i + 1;
    }
  }

  /** The Hash branch: the span is removed from the buffer and the first 12
      characters of its digest are inserted where it began. */
  method HashReplace(sb: string, h: PiiHit, hex: string -> string) returns (out: string)
    requires HexDigest(hex) && Fits(h, |sb|) && h.length >= 0
    ensures out == HashSpan(sb, h, hex)
  {
    var segment := sb[h.start..h.start + h.length];
    var repl := hex(segment)[..12];
    out := sb[..h.start] + sb[h.start + h.length..];
    assert out[..h.start] == sb[..h.start] && out[h.start..] == sb[h.start + h.length..];
    out := out[..h.start] + repl + out[h.start..];
  }

  /** `Redact`: the buffer starts as the text; each selected hit, in
      descending start order, is skipped when it does not fit the current
      buffer, else masked character by character, partially masked, or
      replaced by its hash token. */
  method Redact(text: string, hits: seq<PiiHit>, opts: Options, hex: string -> string)
    returns (r: Option<string>)
    requires HexDigest(hex)
    ensures r == Redacted(text, hits, opts, hex)
  {
    var sb := text;
    var toRedact := SortDesc(Engine.Keep(hits, opts.redactTypes, true));
    for n := 0 to |toRedact|
      invariant ApplyAll(sb, toRedact[n..], opts.redaction, hex) == Redacted(text, hits, opts, hex)
    {
      var h := toRedact[n];
      assert toRedact[n..][0] == h && toRedact[n..][1..] == toRedact[n + 1..];
      if h.start < 0 || h.start + h.length > |sb| {
        continue;
      }
      if opts.redaction == MaskAll {
        sb := MaskAllSpan(sb, h);
      } else if opts.redaction == Partial {
        sb := PartialSpan(sb, h);
      } else {
        if h.length < 0 {
          return None;
        }
        sb := HashReplace(sb, h, hex);
      }
    }
    r := Some(sb);
  }

  // ---------------------------------------------------------------------
  // Properties of the three styles.

  /** The text with every position starred that some fitting hit stars. */
  function StarAll(s: string, hs: seq<PiiHit>, style: RedactionStyle): string
  {
    seq(|s|, p requires 0 <= p < |s| =>
      if exists h :: h in hs && Fits(h, |s|) && Starred(style, h, p) then '*' else s[p])
  }

  /** MaskAll and Partial never fail and keep the length: the result stars
      exactly the positions some fitting hit stars and keeps every other
      character, whatever the order of the hits. */
  lemma {:induction false} ApplyAllStars(s: string, hs: seq<PiiHit>, style: RedactionStyle, hex: string -> string)
    requires HexDigest(hex) && style != Hash
    ensures ApplyAll(s, hs, style, hex) == Some(StarAll(s, hs, style))
    decreases |hs|
  {
    if hs == [] {
      assert StarAll(s, hs, style) == s;
    } else {
      var h := hs[0];
      var s' := if Fits(h, |s|) then Star(s, h, style) else s;
      assert ApplyHit(s, h, style, hex) == Some(s');
      ApplyAllStars(s', hs[1..], style, hex);
      assert forall x :: x in hs <==> x == h || x in hs[1..] by {
        assert hs == [h] + hs[1..];
      }
      assert StarAll(s', hs[1..], style) == StarAll(s, hs, style);
    }
  }

  /** Redacting a redacted text again with MaskAll or Partial changes
      nothing. */
  lemma StarIdempotent(s: string, hs: seq<PiiHit>, style: RedactionStyle, hex: string -> string)
    requires HexDigest(hex) && style != Hash
    ensures ApplyAll(StarAll(s, hs, style), hs, style, hex) == ApplyAll(s, hs, style, hex)
  {
    ApplyAllStars(s, hs, style, hex);
    ApplyAllStars(StarAll(s, hs, style), hs, style, hex);
    assert StarAll(StarAll(s, hs, style), hs, style) == StarAll(s, hs, style);
  }

  /** For MaskAll and Partial the order of the hits does not matter. */
  lemma StarOrderIrrelevant(s: string, hs: seq<PiiHit>, hs': seq<PiiHit>, style: RedactionStyle,
                            hex: string -> string)
    requires HexDigest(hex) && style != Hash && multiset(hs) == multiset(hs')
    ensures ApplyAll(s, hs, style, hex) == ApplyAll(s, hs', style, hex)
  {
    ApplyAllStars(s, hs, style, hex);
    ApplyAllStars(s, hs', style, hex);
    assert forall x :: x in hs <==> x in hs' by {
      forall x
        ensures x in hs <==> x in hs'
      {
        assert x in hs <==> x in multiset(hs);
        assert x in hs' <==> x in multiset(hs');
      }
    }
    assert StarAll(s, hs, style) == StarAll(s, hs', style);
  }

  /** Partial masking leaves spans of four characters or fewer untouched. */
  lemma PartialShortSpansUnchanged(s: string, hs: seq<PiiHit>, hex: string -> string)
    requires HexDigest(hex) && forall h :: h in hs ==> h.length <= 4
    ensures ApplyAll(s, hs, Partial, hex) == Some(s)
  {
    ApplyAllStars(s, hs, Partial, hex);
    assert StarAll(s, hs, Partial) == s;
  }

  /** MaskAll stars every position of every hit that fits, and nothing
      else. */
  lemma MaskAllStarsSpans(s: string, hs: seq<PiiHit>, hex: string -> string, r: string)
    requires HexDigest(hex) && ApplyAll(s, hs, MaskAll, hex) == Some(r)
    ensures |r| == |s|
    ensures forall h, p :: h in hs && Fits(h, |s|) && h.start <= p < h.start + h.length ==> r[p] == '*'
    ensures forall p :: 0 <= p < |s| && (forall h :: h in hs && Fits(h, |s|) ==> !(h.start <= p < h.start + h.length))
                        ==> r[p] == s[p]
  {
    ApplyAllStars(s, hs, MaskAll, hex);
  }

  /** A hash replacement shifts what follows by 12 − length: the span
      becomes the 12-character token; a fitting hit of negative length
      throws. */
  lemma HashReplaces(s: string, h: PiiHit, hex: string -> string)
    requires HexDigest(hex) && Fits(h, |s|)
    ensures h.length < 0 ==> ApplyHit(s, h, Hash, hex).None?
    ensures h.length >= 0 ==>
              var r := ApplyHit(s, h, Hash, hex).value;
              |r| == |s| - h.length + 12
              && r[..h.start] == s[..h.start]
              && r[h.start..h.start + 12] == hex(s[h.start..h.start + h.length])[..12]
              && r[h.start + 12..] == s[h.start + h.length..]
  {
  }

  /** A hit that starts before the buffer or runs past its end leaves the
      buffer as it is, in every style; it is not an error. */
  lemma SkipLeavesUnchanged(s: string, h: PiiHit, style: RedactionStyle, hex: string -> string)
    requires HexDigest(hex) && !Fits(h, |s|)
    ensures ApplyHit(s, h, style, hex) == Some(s)
  {
  }

  /** Whatever the style, the text below the smallest start of the applied
      hits is left as it was. */
  lemma {:induction false} PrefixPreserved(s: string, hs: seq<PiiHit>, style: RedactionStyle,
                                           hex: string -> string, m: int)
    requires HexDigest(hex) && 0 <= m <= |s|
    requires forall h :: h in hs ==> h.start < 0 || h.start >= m
    requires ApplyAll(s, hs, style, hex).Some?
    ensures var r := ApplyAll(s, hs, style, hex).value;
            m <= |r| && r[..m] == s[..m]
    decreases |hs|
  {
    if hs != [] {
      var h := hs[0];
      var s' := ApplyHit(s, h, style, hex).value;
      assert m <= |s'| && s'[..m] == s[..m] by {
        if Fits(h, |s|) {
          if style == Hash {
            assert s'[..m] == s[..h.start][..m];
          } else {
            assert forall p :: 0 <= p < m ==> s'[p] == s[p];
          }
        }
      }
      assert forall x :: x in hs[1..] ==> x in hs;
      PrefixPreserved(s', hs[1..], style, hex, m);
    }
  }

  /** With MaskAll or Partial, `Redact` succeeds and stars exactly what the
      fitting hits of the redacted types star: the descending order the
      source sorts into does not matter for these two styles. */
  lemma RedactStarsSelected(text: string, hits: seq<PiiHit>, opts: Options, hex: string -> string)
    requires HexDigest(hex) && opts.redaction != Hash
    ensures Redacted(text, hits, opts, hex)
            == Some(StarAll(text, Engine.Keep(hits, opts.redactTypes, true), opts.redaction))
  {
    var selected := Engine.Keep(hits, opts.redactTypes, true);
    StarOrderIrrelevant(text, SortDesc(selected), selected, opts.redaction, hex);
    ApplyAllStars(text, selected, opts.redaction, hex);
  }
}
