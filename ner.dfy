/** Post-processing of the named-entity recognizer: mapping a BIO label to
    an entity type, turning per-token labels into one-token entities, and
    merging runs of adjacent entities of the same type. The tokenizer and the
    network that produce the per-token labels are not modelled. */
module Ner {
  import opened Models

  /** The text before the first '-', or all of `s` when it has none. */
  function BeforeDash(s: string): (p: string)
    ensures '-' !in p && p <= s
    ensures '-' !in s ==> p == s
  {
    if s == [] || s[0] == '-' then [] else [s[0]] + BeforeDash(s[1..])
  }

  /** The text after the first '-'. */
  function AfterDash(s: string): (r: string)
    requires '-' in s
    ensures s == BeforeDash(s) + "-" + r
  {
    if s[0] == '-' then s[1..] else AfterDash(s[1..])
  }

  /** `label.Contains('-') ? label.Split('-')[1] : label`: the segment
      between the first and the second dash, if there is a dash. */
  function BaseLabel(tag: string): (b: string)
    ensures '-' !in b
  {
    if '-' in tag then BeforeDash(AfterDash(tag)) else tag
  }

  /** The renaming of the `switch`: PER, ADDR and DATE get the engine's type
      names; every other base label is kept. */
  function Canonical(b: string): (c: string)
    ensures c != b <==> b == "PER" || b == "ADDR" || b == "DATE"
  {
    if b == "PER" then "PERSON"
    else if b == "ADDR" then "ADDRESS"
    else if b == "EMAIL" then "EMAIL"
    else if b == "PHONE" then "PHONE"
    else if b == "DATE" then "DOB"
    else b
  }

  /** `TypeFromLabel`: never contains a dash. */
  function TypeFromLabel(tag: string): (t: string)
    ensures '-' !in t
  {
    Canonical(BaseLabel(tag))
  }

  lemma {:induction false} AfterDashOfTagged(prefix: string, rest: string)
    requires '-' !in prefix
    ensures '-' in prefix + "-" + rest && AfterDash(prefix + "-" + rest) == rest
  {
    var s := prefix + "-" + rest;
    assert s[|prefix|] == '-';
    if prefix != [] {
      assert s[1..] == prefix[1..] + "-" + rest;
      AfterDashOfTagged(prefix[1..], rest);
    }
  }

  lemma {:induction false} BeforeDashOfSegment(x: string, suffix: string)
    requires '-' !in x && (suffix == [] || suffix[0] == '-')
    ensures BeforeDash(x + suffix) == x
  {
    if x == [] {
      assert x + suffix == suffix;
    } else {
      assert (x + suffix)[0] == x[0] && (x + suffix)[1..] == x[1..] + suffix;
      BeforeDashOfSegment(x[1..], suffix);
    }
  }

  /** A tagged label `P-X` or `P-X-…` has the type of its segment X, so the
      begin and inside tags of one entity class give the same type. */
  lemma TaggedLabel(prefix: string, x: string, suffix: string)
    requires '-' !in prefix && '-' !in x && (suffix == [] || suffix[0] == '-')
    ensures TypeFromLabel(prefix + "-" + x + suffix) == Canonical(x) == TypeFromLabel(x)
  {
    AfterDashOfTagged(prefix, x + suffix);
    assert prefix + "-" + x + suffix == prefix + "-" + (x + suffix);
    BeforeDashOfSegment(x, suffix);
  }

  /** The person labels of a BIO tag set. */
  lemma PersonLabels()
    ensures TypeFromLabel("B-PER") == "PERSON" && TypeFromLabel("I-PER") == "PERSON"
  {
    assert AfterDash("B-PER") == "PER" by {
      assert "B-PER"[1..] == "-PER" && "-PER"[1..] == "PER";
    }
    assert AfterDash("I-PER") == "PER" by {
      assert "I-PER"[1..] == "-PER" && "-PER"[1..] == "PER";
    }
    assert BaseLabel("B-PER") == "PER" && BaseLabel("I-PER") == "PER";
  }

  /** A date label becomes the date-of-birth type. */
  lemma DateLabel()
    ensures TypeFromLabel("B-DATE") == "DOB"
  {
    assert AfterDash("B-DATE") == "DATE" by {
      assert "B-DATE"[1..] == "-DATE" && "-DATE"[1..] == "DATE";
    }
    assert BaseLabel("B-DATE") == "DATE";
  }

  /** A class outside the renaming keeps its own name. */
  lemma OtherLabel()
    ensures TypeFromLabel("B-ORG") == "ORG"
  {
    assert AfterDash("B-ORG") == "ORG" by {
      assert "B-ORG"[1..] == "-ORG" && "-ORG"[1..] == "ORG";
    }
    assert BaseLabel("B-ORG") == "ORG";
  }

  /** Token `t` read as a one-token entity: its label is not "O", and the
      entity spans t to t + 1 with the label's type and probability. */
  predicate TokenEntity(labels: seq<string>, probs: seq<real>, e: NerEntity)
  {
    0 <= e.start < |labels| && e.start < |probs| && e.stop == e.start + 1
    && labels[e.start] != "O"
    && e.kind == TypeFromLabel(labels[e.start])
    && e.confidence == probs[e.start]
  }

  /** The entities the loop of `Recognize` has produced after the first
      `t` tokens. */
  function TaggedUpTo(labels: seq<string>, probs: seq<real>, t: int): seq<NerEntity>
    requires |probs| == |labels| && 0 <= t <= |labels|
  {
    if t == 0 then []
    else
      TaggedUpTo(labels, probs, t - 1)
      + (if labels[t - 1] != "O" then [NerEntity(TypeFromLabel(labels[t - 1]), t - 1, t, probs[t - 1])] else [])
  }

  /** Each produced entity reads one token before `t`. */
  lemma {:induction false} TaggedSound(labels: seq<string>, probs: seq<real>, t: int)
    requires |probs| == |labels| && 0 <= t <= |labels|
    ensures forall a :: 0 <= a < |TaggedUpTo(labels, probs, t)| ==>
              TokenEntity(labels, probs, TaggedUpTo(labels, probs, t)[a])
              && TaggedUpTo(labels, probs, t)[a].start < t
  {
    if t > 0 {
      TaggedSound(labels, probs, t - 1);
      var prev := TaggedUpTo(labels, probs, t - 1);
      assert forall a :: 0 <= a < |prev| ==> TaggedUpTo(labels, probs, t)[a] == prev[a];
    }
  }

  /** The produced entities are in strictly increasing token order. */
  lemma {:induction false} TaggedOrdered(labels: seq<string>, probs: seq<real>, t: int)
    requires |probs| == |labels| && 0 <= t <= |labels|
    ensures forall a, b :: 0 <= a < b < |TaggedUpTo(labels, probs, t)| ==>
              TaggedUpTo(labels, probs, t)[a].start < TaggedUpTo(labels, probs, t)[b].start
  {
    if t > 0 {
      TaggedOrdered(labels, probs, t - 1);
      TaggedSound(labels, probs, t - 1);
      var prev := TaggedUpTo(labels, probs, t - 1);
      var es := TaggedUpTo(labels, probs, t);
      assert forall a :: 0 <= a < |prev| ==> es[a] == prev[a];
      assert forall a :: |prev| <= a < |es| ==> es[a].start == t - 1;
    }
  }

  /** Some entity of `es` starts at token `u`. */
  predicate Covers(es: seq<NerEntity>, u: int)
  {
    exists a :: 0 <= a < |es| && es[a].start == u
  }

  lemma CoversAppend(es: seq<NerEntity>, ext: seq<NerEntity>, u: int)
    requires Covers(es, u)
    ensures Covers(es + ext, u)
  {
    var a :| 0 <= a < |es| && es[a].start == u;
    assert (es + ext)[a] == es[a];
  }

  lemma CoversLast(es: seq<NerEntity>, e: NerEntity)
    ensures Covers(es + [e], e.start)
  {
    assert (es + [e])[|es|] == e;
  }

  /** Every token before `t` whose label is not "O" has produced an entity. */
  lemma {:induction false} TaggedComplete(labels: seq<string>, probs: seq<real>, t: int, u: int)
    requires |probs| == |labels| && 0 <= u < t <= |labels| && labels[u] != "O"
    ensures Covers(TaggedUpTo(labels, probs, t), u)
  {
    var prev := TaggedUpTo(labels, probs, t - 1);
    if u == t - 1 {
      CoversLast(prev, NerEntity(TypeFromLabel(labels[u]), u, t, probs[u]));
    } else {
      TaggedComplete(labels, probs, t - 1, u);
      CoversAppend(prev, if labels[t - 1] != "O" then [NerEntity(TypeFromLabel(labels[t - 1]), t - 1, t, probs[t - 1])] else [], u);
    }
  }

  /** The entity loop of `Recognize`, given each token's most probable
      label and its probability: every token whose label is not "O" becomes
      an entity spanning token t to t + 1, no other token does, and the
      entities are in token order. */
  method TokenEntities(labels: seq<string>, probs: seq<real>) returns (es: seq<NerEntity>)
    requires |probs| == |labels|
    ensures forall a :: 0 <= a < |es| ==> TokenEntity(labels, probs, es[a])
    ensures forall a, b :: 0 <= a < b < |es| ==> es[a].start < es[b].start
    ensures forall t :: 0 <= t < |labels| && labels[t] != "O" ==>
              exists a :: 0 <= a < |es| && es[a].start == t
  {
    es := [];
    for t := 0 to |labels|
      invariant es == TaggedUpTo(labels, probs, t)
    {
      if labels[t] != "O" {
        es := es + [NerEntity(TypeFromLabel(labels[t]), t, t + 1, probs[t])];
      }
    }
    TaggedAll(labels, probs);
  }

  /** The tagged tokens of the whole sequence are sound, ordered and
      complete. */
  lemma TaggedAll(labels: seq<string>, probs: seq<real>)
    requires |probs| == |labels|
    ensures var es := TaggedUpTo(labels, probs, |labels|);
      (forall a :: 0 <= a < |es| ==> TokenEntity(labels, probs, es[a]))
      && (forall a, b :: 0 <= a < b < |es| ==> es[a].start < es[b].start)
      && (forall t :: 0 <= t < |labels| && labels[t] != "O" ==>
            exists a :: 0 <= a < |es| && es[a].start == t)
  {
    TaggedSound(labels, probs, |labels|);
    TaggedOrdered(labels, probs, |labels|);
    forall t | 0 <= t < |labels| && labels[t] != "O"
      ensures exists a :: 0 <= a < |TaggedUpTo(labels, probs, |labels|)|
                && TaggedUpTo(labels, probs, |labels|)[a].start == t
    {
      TaggedComplete(labels, probs, |labels|, t);
    }
  }

  function Max(a: real, b: real): (m: real)
    ensures m >= a && m >= b && (m == a || m == b)
  {
    if a >= b then a else b
  }

  /** `t` continues `cur`: same type and starting where `cur` stops. */
  predicate Joins(cur: NerEntity, t: NerEntity)
  {
    t.kind == cur.kind && t.start == cur.stop
  }

  /** `cur` extended over `t`: it stops where `t` stops and keeps the higher
      confidence. */
  function Extend(cur: NerEntity, t: NerEntity): NerEntity
  {
    cur.(stop := t.stop, confidence := Max(cur.confidence, t.confidence))
  }

  /** The merge loop from the current entity `cur` over the entities still
      to be read. The first output keeps `cur`'s type and start, the last
      output stops where the last input stops, and no entity is created. */
  function MergeFrom(cur: NerEntity, rest: seq<NerEntity>): (r: seq<NerEntity>)
    ensures 1 <= |r| <= |rest| + 1
    ensures r[0].kind == cur.kind && r[0].start == cur.start
    ensures r[|r| - 1].stop == (if rest == [] then cur.stop else rest[|rest| - 1].stop)
    decreases |rest|
  {
    if rest == [] then [cur]
    else if Joins(cur, rest[0]) then MergeFrom(Extend(cur, rest[0]), rest[1..])
    else [cur] + MergeFrom(rest[0], rest[1..])
  }

  /** What `MergeEntities` returns: empty for an empty input; otherwise no
      longer than the input, starting where the input starts and stopping
      where it stops. */
  function Merge(tokens: seq<NerEntity>): (r: seq<NerEntity>)
    ensures r == [] <==> tokens == []
    ensures |r| <= |tokens|
    ensures tokens != [] ==> r[0].start == tokens[0].start && r[|r| - 1].stop == tokens[|tokens| - 1].stop
  {
    if tokens == [] then [] else MergeFrom(tokens[0], tokens[1..])
  }

  /** `MergeEntities`: carries a current entity, extends it over each
      continuing entity and emits it when the run breaks. */
  method MergeEntities(tokens: seq<NerEntity>) returns (merged: seq<NerEntity>)
    ensures merged == Merge(tokens)
  {
    if |tokens| == 0 {
      return tokens;
    }
    merged := [];
    var cur := tokens[0];
    for i := 1 to |tokens|
      invariant merged + MergeFrom(cur, tokens[i..]) == Merge(tokens)
    {
      var t := tokens[i];
      MergeInvariant(merged, cur, tokens, i);
      if Joins(cur, t) {
        cur := Extend(cur, t);
      } else {
        merged := merged + [cur];
        cur := t;
      }
    }
    assert tokens[|tokens|..] == [];
    merged := merged + [cur];
  }

  /** One step of the merge loop keeps its invariant: entity `i` either
      extends `cur` or closes it. */
  lemma MergeInvariant(merged: seq<NerEntity>, cur: NerEntity, tokens: seq<NerEntity>, i: int)
    requires 1 <= i < |tokens| && merged + MergeFrom(cur, tokens[i..]) == Merge(tokens)
    ensures Joins(cur, tokens[i]) ==> merged + MergeFrom(Extend(cur, tokens[i]), tokens[i + 1..]) == Merge(tokens)
    ensures !Joins(cur, tokens[i]) ==> (merged + [cur]) + MergeFrom(tokens[i], tokens[i + 1..]) == Merge(tokens)
  {
    assert tokens[i..][0] == tokens[i] && tokens[i..][1..] == tokens[i + 1..];
    AppendAssoc(merged, [cur], MergeFrom(tokens[i], tokens[i + 1..]));
  }

  /** No two neighbours could have been merged. */
  predicate NoJoinable(es: seq<NerEntity>)
  {
    forall a :: 0 <= a < |es| - 1 ==> !Joins(es[a], es[a + 1])
  }

  lemma {:induction false} MergeFromNoJoinable(cur: NerEntity, rest: seq<NerEntity>)
    ensures NoJoinable(MergeFrom(cur, rest))
    decreases |rest|
  {
    if rest != [] {
      MergeFromNoJoinable(if Joins(cur, rest[0]) then Extend(cur, rest[0]) else rest[0], rest[1..]);
      if !Joins(cur, rest[0]) {
        var tail := MergeFrom(rest[0], rest[1..]);
        assert MergeFrom(cur, rest) == [cur] + tail;
        assert forall a :: 0 < a < |tail| + 1 ==> ([cur] + tail)[a] == tail[a - 1];
      }
    }
  }

  /** The merge leaves no adjacent pair of the same type with touching
      spans. */
  lemma MergeNoJoinable(tokens: seq<NerEntity>)
    ensures NoJoinable(Merge(tokens))
  {
    if tokens != [] {
      MergeFromNoJoinable(tokens[0], tokens[1..]);
    }
  }

  lemma {:induction false} MergeFromUnchanged(es: seq<NerEntity>)
    requires es != [] && NoJoinable(es)
    ensures MergeFrom(es[0], es[1..]) == es
    decreases |es|
  {
    if |es| > 1 {
      var tail := es[1..];
      assert tail[0] == es[1] && !Joins(es[0], es[1]);
      assert NoJoinable(tail) by {
        forall a | 0 <= a < |tail| - 1
          ensures !Joins(tail[a], tail[a + 1])
        {
          assert tail[a] == es[a + 1] && tail[a + 1] == es[a + 2];
        }
      }
      MergeFromUnchanged(tail);
      assert MergeFrom(es[0], tail) == [es[0]] + tail;
      assert es == [es[0]] + tail;
    }
  }

  /** Merging is idempotent: a merged list is merged again unchanged. */
  lemma MergeIdempotent(tokens: seq<NerEntity>)
    ensures Merge(Merge(tokens)) == Merge(tokens)
  {
    MergeNoJoinable(tokens);
    if tokens != [] {
      MergeFromUnchanged(Merge(tokens));
    }
  }

  /** The highest confidence among `c` and the confidences of `rest`. */
  function MaxConfidence(c: real, rest: seq<NerEntity>): (m: real)
    ensures m >= c && forall i :: 0 <= i < |rest| ==> m >= rest[i].confidence
    ensures m == c || exists i :: 0 <= i < |rest| && m == rest[i].confidence
    decreases |rest|
  {
    if rest == [] then c
    else
      var m := MaxConfidence(Max(c, rest[0].confidence), rest[1..]);
      assert forall i :: 0 < i < |rest| ==> rest[1..][i - 1] == rest[i];
      m
  }

  /** Each entity continues the previous one, starting from `cur`. */
  predicate IsRun(cur: NerEntity, rest: seq<NerEntity>)
  {
    (forall i :: 0 <= i < |rest| ==> rest[i].kind == cur.kind)
    && (rest != [] ==> rest[0].start == cur.stop)
    && (forall i :: 0 < i < |rest| ==> rest[i].start == rest[i - 1].stop)
  }

  lemma {:induction false} MergeFromRun(cur: NerEntity, rest: seq<NerEntity>)
    requires IsRun(cur, rest)
    ensures MergeFrom(cur, rest)
            == [NerEntity(cur.kind, cur.start, if rest == [] then cur.stop else rest[|rest| - 1].stop,
                          MaxConfidence(cur.confidence, rest))]
    decreases |rest|
  {
    if rest != [] {
      var next := Extend(cur, rest[0]);
      assert forall i :: 0 <= i < |rest| - 1 ==> rest[1..][i] == rest[i + 1];
      assert IsRun(next, rest[1..]);
      MergeFromRun(next, rest[1..]);
    }
  }

  /** A run of contiguous entities of one type collapses into a single
      entity: the first start, the last stop and the highest confidence. */
  lemma RunCollapses(tokens: seq<NerEntity>)
    requires tokens != [] && IsRun(tokens[0], tokens[1..])
    ensures Merge(tokens)
            == [NerEntity(tokens[0].kind, tokens[0].start, tokens[|tokens| - 1].stop,
                          MaxConfidence(tokens[0].confidence, tokens[1..]))]
  {
    MergeFromRun(tokens[0], tokens[1..]);
  }
}
