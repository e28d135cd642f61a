/** One request: every field of every iteration sanitized in one marker namespace. */
module Context {
  import opened Common
  import opened Text
  import opened Scanner
  import opened Markers
  import opened Sorting
  import opened Spans
  import opened Alphabet
  import opened Surnames
  import opened Vaults
  import opened Weaving
  import opened Gateway
  import opened RoundTrip
  import opened Propagation

  /** A value learned from some field: its label, its text and the priority it carries. */
  datatype Known = Known(tag: string, value: string, priority: int)

  /** What one detected span contributes to the known values. */
  function KnownOf(u: Alphabet, text: string, s: EntitySpan): seq<Known> {
    var value := Slice(text, s.start, s.end);
    var canonical := CanonicalValue(u, s.tag, value);
    [Known(s.tag, value, s.priority)]
    + (if Fold(u, canonical) != Fold(u, Strip(value)) then [Known(s.tag, canonical, -1)] else [])
  }

  function KnownOfField(u: Alphabet, text: string, spans: seq<EntitySpan>): seq<Known> {
    if spans == [] then [] else KnownOf(u, text, spans[0]) + KnownOfField(u, text, spans[1..])
  }

  function KnownOfFields(u: Alphabet, fields: seq<Field>): seq<Known> {
    if fields == [] then []
    else KnownOfField(u, fields[0].text, fields[0].spans) + KnownOfFields(u, fields[1..])
  }

  /** The spans of one known value; an extent already reported for the label is skipped. */
  function SpansAt(k: Known, found: seq<Range>, seen: set<(nat, nat, string)>): seq<EntitySpan>
    requires forall x :: x in found ==> x.lo < x.hi
  {
    if found == [] then []
    else
      assert found[0] in found;
      var key := (found[0].lo, found[0].hi, k.tag);
      if key in seen then SpansAt(k, found[1..], seen)
      else [Span(found[0].lo, found[0].hi, k.tag, 1.0, "known-value-propagation", k.priority)]
           + SpansAt(k, found[1..], seen + {key})
  }

  function SeenAfter(k: Known, found: seq<Range>, seen: set<(nat, nat, string)>): set<(nat, nat, string)> {
    seen + set x | x in found :: (x.lo, x.hi, k.tag)
  }

  lemma KnownRangesProper(u: Alphabet, text: string, value: string)
    ensures forall x :: x in KnownRanges(u, text, value) ==> x.lo < x.hi
  {
  }

  /** `propagate_known` from the given `seen` set on. */
  function PropagateKnown(u: Alphabet, text: string, known: seq<Known>, seen: set<(nat, nat, string)>): seq<EntitySpan>
  {
    if known == [] then []
    else
      var found := KnownRanges(u, text, known[0].value);
      KnownRangesProper(u, text, known[0].value);
      SpansAt(known[0], found, seen) + PropagateKnown(u, text, known[1..], SeenAfter(known[0], found, seen))
  }

  /** The spans a field is finally replaced by: its own and the known values found in it. */
  function Completed(u: Alphabet, f: Field, known: seq<Known>): Field {
    Field(f.text, Merge(f.spans + PropagateKnown(u, f.text, known, {})))
  }

  function CompletedAll(u: Alphabet, fields: seq<Field>, known: seq<Known>): (r: seq<Field>)
    ensures |r| == |fields|
    ensures forall i :: 0 <= i < |fields| ==> r[i] == Completed(u, fields[i], known)
  {
    seq(|fields|, i requires 0 <= i < |fields| => Completed(u, fields[i], known))
  }

  /** `ContextAssembler.sanitize` after detection, before aliases are re-applied. */
  function Marked(u: Alphabet, st: Vault, fields: seq<Field>): (seq<string>, Vault) {
    SanitizeFields(MarkingOf(u), st, CompletedAll(u, fields, KnownOfFields(u, fields)))
  }

  // ---- every known value is found, by positions ----

  lemma {:induction false} SpansAtHas(k: Known, found: seq<Range>, seen: set<(nat, nat, string)>, r: Range)
    requires (forall x :: x in found ==> x.lo < x.hi) && r in found
    ensures (r.lo, r.hi, k.tag) in seen || exists s <- SpansAt(k, found, seen) :: s.start == r.lo && s.end == r.hi
  {
    assert found[0] in found;
    var key := (found[0].lo, found[0].hi, k.tag);
    if found[0] != r {
      SpansAtHas(k, found[1..], if key in seen then seen else seen + {key}, r);
    } else if key !in seen {
      assert SpansAt(k, found, seen)[0] in SpansAt(k, found, seen);
    }
  }

  /** A range taken for a known value is the extent of a propagated span, or was seen before. */
  lemma {:induction false} PropagatedHas(u: Alphabet, text: string, known: seq<Known>,
                                         seen: set<(nat, nat, string)>, k: Known, r: Range)
    requires k in known && r in KnownRanges(u, text, k.value)
    ensures (r.lo, r.hi, k.tag) in seen
            || exists s <- PropagateKnown(u, text, known, seen) :: s.start == r.lo && s.end == r.hi
  {
    hide KnownRanges;
    var first := known[0];
    var found := KnownRanges(u, text, first.value);
    KnownRangesProper(u, text, first.value);
    if k == first {
      SpansAtHas(k, found, seen, r);
    } else {
      var seen' := SeenAfter(first, found, seen);
      PropagatedHas(u, text, known[1..], seen', k, r);
      if (r.lo, r.hi, k.tag) in seen' && (r.lo, r.hi, k.tag) !in seen {
        SpansAtHas(first, found, seen, r);
      }
    }
  }

  /** Some span of the field shares a character with the range. */
  ghost predicate Spanned(f: Field, lo: nat, hi: nat) {
    exists s <- f.spans :: s.start < hi && lo < s.end
  }

  /** An occurrence of a known value in a field shares a character with a span of the completed
      field, unless an earlier occurrence of the same value reaches over it. */
  lemma KnownCovered(u: Alphabet, f: Field, known: seq<Known>, k: Known, i: nat)
    requires k in known && |Strip(k.value)| >= 3 && OccursAt(u, f.text, i, Strip(k.value))
    ensures Spanned(Completed(u, f, known), i, i + |Strip(k.value)|) || Shadowed(u, f.text, i, Strip(k.value))
  {
    hide OccursAt, Strip, KnownRanges, Merge;
    var n := |Strip(k.value)|;
    if !Shadowed(u, f.text, i, Strip(k.value)) {
      UnshadowedFound(u, f.text, k.value, i);
      PropagatedHas(u, f.text, known, {}, k, Range(i, i + n));
      var s :| s in PropagateKnown(u, f.text, known, {}) && s.start == i && s.end == i + n;
      var all := f.spans + PropagateKnown(u, f.text, known, {});
      assert s in all;
      MergeByFields(all);
    }
  }

  /** A span detected in a field shares a character with a span of the completed field. */
  lemma OwnSpanned(u: Alphabet, f: Field, known: seq<Known>, s: EntitySpan)
    requires s in f.spans
    ensures Spanned(Completed(u, f, known), s.start, s.end)
  {
    hide Merge, PropagateKnown;
    var all := f.spans + PropagateKnown(u, f.text, known, {});
    assert s in all;
    MergeByFields(all);
  }

  /** What was detected in one field is known for all of them, as it stands and in its canonical
      form when that differs by more than letter case and outer white space. */
  lemma {:induction false} DetectedIsKnown(u: Alphabet, fields: seq<Field>, g: Field, s: EntitySpan)
    requires g in fields && s in g.spans
    ensures var value := Slice(g.text, s.start, s.end);
            var canonical := CanonicalValue(u, s.tag, value);
            && Known(s.tag, value, s.priority) in KnownOfFields(u, fields)
            && (Fold(u, canonical) != Fold(u, Strip(value)) ==>
                  Known(s.tag, canonical, -1) in KnownOfFields(u, fields))
  {
    hide CanonicalValue, Slice, Strip, Fold;
    if g == fields[0] {
      DetectedInField(u, g.text, g.spans, s);
    } else {
      DetectedIsKnown(u, fields[1..], g, s);
    }
  }

  lemma {:induction false} DetectedInField(u: Alphabet, text: string, spans: seq<EntitySpan>, s: EntitySpan)
    requires s in spans
    ensures forall k :: k in KnownOf(u, text, s) ==> k in KnownOfField(u, text, spans)
  {
    hide KnownOf;
    if s != spans[0] {
      DetectedInField(u, text, spans[1..], s);
    }
  }

  /** A value detected in any field is spanned wherever it occurs in any field. */
  lemma DetectedCovered(u: Alphabet, fields: seq<Field>, g: Field, s: EntitySpan, j: nat, i: nat)
    requires g in fields && s in g.spans && j < |fields|
    requires var c := Strip(Slice(g.text, s.start, s.end));
             |c| >= 3 && OccursAt(u, fields[j].text, i, c) && !Shadowed(u, fields[j].text, i, c)
    ensures Spanned(CompletedField(u, fields, j), i, i + |Strip(Slice(g.text, s.start, s.end))|)
  {
    hide OccursAt, Strip, Spanned, Slice, Shadowed, Completed, KnownOfFields;
    var value := Slice(g.text, s.start, s.end);
    DetectedIsKnown(u, fields, g, s);
    KnownCovered(u, fields[j], KnownOfFields(u, fields), Known(s.tag, value, s.priority), i);
  }

  // ---- raw markers stay on top through known-value propagation ----

  /** The priority of the RAW_MARKER rule. */
  const RAW_MARKER_PRIORITY := 2000

  /** Detection as the shipped rules do it: every marker-like token is a span of the RAW_MARKER
      priority, and only marker-like tokens reach that priority. */
  ghost predicate RawMarkerRule(f: Field) {
    && (forall lo, hi :: TokenAt(MarkerLikeRe, f.text, lo, hi) ==> RawSpanAt(f.spans, lo, hi))
    && (forall s :: s in f.spans && s.priority >= RAW_MARKER_PRIORITY ==> TokenAt(MarkerLikeRe, f.text, s.start, s.end))
  }

  ghost predicate RawSpanAt(spans: seq<EntitySpan>, lo: nat, hi: nat) {
    exists c :: c in spans && c.start == lo && c.end == hi && c.priority == RAW_MARKER_PRIORITY
  }

  function RawSpans(found: seq<Range>): (r: seq<EntitySpan>)
    requires forall x :: x in found ==> x.lo < x.hi
    ensures forall s :: s in r ==> s.priority == RAW_MARKER_PRIORITY && Range(s.start, s.end) in found
    ensures forall x :: x in found ==> RawSpanAt(r, x.lo, x.hi)
  {
    if found == [] then []
    else
      assert found == [found[0]] + found[1..];
      var first: EntitySpan := Span(found[0].lo, found[0].hi, "RAW_MARKER", 1.0, "regex", RAW_MARKER_PRIORITY);
      var rest := RawSpans(found[1..]);
      assert forall x :: x in found[1..] ==> RawSpanAt([first] + rest, x.lo, x.hi) by {
        forall x | x in found[1..] ensures RawSpanAt([first] + rest, x.lo, x.hi) {
          var c :| c in rest && c.start == x.lo && c.end == x.hi && c.priority == RAW_MARKER_PRIORITY;
          assert c in [first] + rest;
        }
      }
      assert first in [first] + rest;
      [first] + rest
  }

  lemma TokensProper(text: string)
    ensures forall x :: x in FindIter(MatcherOf(MarkerLikeRe), text, 0) ==> x.lo < x.hi
  {
    FindIterSound(MatcherOf(MarkerLikeRe), text, 0);
  }

  /** The spans of the RAW_MARKER rule. */
  function RuleSpans(text: string): seq<EntitySpan> {
    TokensProper(text);
    RawSpans(FindIter(MatcherOf(MarkerLikeRe), text, 0))
  }

  /** Whatever other detectors of lower priority find, in whatever order all spans are delivered,
      the merged spans of a text obey the rule. */
  lemma DetectionObeysRule(text: string, detected: seq<EntitySpan>)
    requires forall s :: s in RuleSpans(text) ==> s in detected
    requires forall s :: s in detected && s !in RuleSpans(text) ==> s.priority < RAW_MARKER_PRIORITY
    ensures RawMarkerRule(Field(text, Merge(detected)))
  {
    hide Merge, RuleSpans, TokenAt;
    var merged := Merge(detected);
    MergeProperties(detected);
    forall s | s in merged && s.priority >= RAW_MARKER_PRIORITY ensures TokenAt(MarkerLikeRe, text, s.start, s.end) {
      RuleSpanIsToken(text, s);
    }
    forall lo, hi | TokenAt(MarkerLikeRe, text, lo, hi) ensures RawSpanAt(merged, lo, hi) {
      var c := TokenHasSpan(text, lo, hi);
      KeptOverToken(text, detected, c);
    }
  }

  lemma RuleSpanIsToken(text: string, s: EntitySpan)
    ensures s in RuleSpans(text) ==> TokenAt(MarkerLikeRe, text, s.start, s.end) && s.priority == RAW_MARKER_PRIORITY
  {
    TokensProper(text);
    FindIterSound(MatcherOf(MarkerLikeRe), text, 0);
  }

  lemma TokenHasSpan(text: string, lo: nat, hi: nat) returns (c: EntitySpan)
    requires TokenAt(MarkerLikeRe, text, lo, hi)
    ensures c in RuleSpans(text) && c.start == lo && c.end == hi
  {
    TokensProper(text);
    FindIterAll(MarkerLikeRe, text, lo, hi);
    assert RawSpanAt(RuleSpans(text), lo, hi);
    c :| c in RuleSpans(text) && c.start == lo && c.end == hi;
  }

  lemma KeptOverToken(text: string, detected: seq<EntitySpan>, c: EntitySpan)
    requires c in RuleSpans(text) && c in detected
    requires forall s :: s in detected && s !in RuleSpans(text) ==> s.priority < RAW_MARKER_PRIORITY
    ensures RawSpanAt(Merge(detected), c.start, c.end)
  {
    hide Merge, RuleSpans, TokenAt;
    MergeProperties(detected);
    RuleSpanIsToken(text, c);
    if c !in Merge(detected) {
      var a :| a in Merge(detected) && RankLeq(a, c) && Overlap(a, c);
      assert a in RuleSpans(text);
      RuleSpanIsToken(text, a);
      TokensDisjoint(MarkerLikeRe, MarkerLikeRe, text, a.start, a.end, c.start, c.end);
    }
  }

  /** A known value of the RAW_MARKER priority is a marker-like token. */
  predicate TopIsToken(k: Known) {
    k.priority >= RAW_MARKER_PRIORITY ==> k.value != "" && MatchLen(MarkerLikeRe, k.value) == |k.value|
  }

  lemma KnownOfTop(u: Alphabet, text: string, s: EntitySpan)
    ensures forall k :: k in KnownOf(u, text, s) && k.priority >= RAW_MARKER_PRIORITY ==>
              k.value == Slice(text, s.start, s.end) && s.priority >= RAW_MARKER_PRIORITY
  {
    hide CanonicalValue, Fold, Strip, Slice;
  }

  lemma {:induction false} FieldKnownTokens(u: Alphabet, text: string, spans: seq<EntitySpan>)
    requires forall s :: s in spans && s.priority >= RAW_MARKER_PRIORITY ==> TokenAt(MarkerLikeRe, text, s.start, s.end)
    ensures forall k :: k in KnownOfField(u, text, spans) ==> TopIsToken(k)
  {
    if spans != [] {
      FieldKnownTokens(u, text, spans[1..]);
      KnownOfTop(u, text, spans[0]);
      var s := spans[0];
      assert s in spans;
      if s.priority >= RAW_MARKER_PRIORITY {
        TokenText(text, s.start, s.end);
      }
    }
  }

  lemma TokenText(text: string, lo: nat, hi: nat)
    requires TokenAt(MarkerLikeRe, text, lo, hi)
    ensures Slice(text, lo, hi) != "" && MatchLen(MarkerLikeRe, Slice(text, lo, hi)) == |Slice(text, lo, hi)|
  {
    var t := text[lo..hi];
    assert t + text[hi..] == text[lo..];
    MatchTruncates(MarkerLikeRe, t, text[hi..]);
  }

  lemma {:induction false} KnownTokens(u: Alphabet, fields: seq<Field>)
    requires forall f :: f in fields ==> RawMarkerRule(f)
    ensures forall k :: k in KnownOfFields(u, fields) ==> TopIsToken(k)
  {
    if fields != [] {
      assert fields[0] in fields;
      FieldKnownTokens(u, fields[0].text, fields[0].spans);
      KnownTokens(u, fields[1..]);
    }
  }

  /** Wherever a marker-like token occurs, in any letter case, there is a marker-like token. */
  lemma OccurrenceOfToken(u: Alphabet, text: string, lo: nat, v: string)
    requires Lawful(u) && v != "" && MatchLen(MarkerLikeRe, v) == |v|
    requires OccursAt(u, text, lo, v)
    ensures TokenAt(MarkerLikeRe, text, lo, lo + |v|)
  {
    hide MatchLen;
    var w := text[lo..lo + |v|];
    forall i | 0 <= i < |v| ensures SamePunctuation(w[i], v[i]) {
      assert u.fold(w[i]) == Fold(u, w)[i] == Fold(u, v)[i] == u.fold(v[i]);
      FoldKeepsPunctuation(u, w[i], v[i]);
    }
    TokenShape(w, v);
    assert w + text[lo + |v|..] == text[lo..];
    MatchExtends(MarkerLikeRe, w, text[lo + |v|..]);
  }

  predicate SamePunctuation(a: char, b: char) {
    IsFixedPunctuation(a) || IsFixedPunctuation(b) ==> a == b
  }

  lemma FoldKeepsPunctuation(u: Alphabet, a: char, b: char)
    requires Lawful(u) && u.fold(a) == u.fold(b)
    ensures SamePunctuation(a, b)
  {
    if IsFixedPunctuation(a) {
      assert u.fold(a) == a;
      assert IsFixedPunctuation(u.fold(b));
    }
    if IsFixedPunctuation(b) {
      assert u.fold(b) == b;
      assert IsFixedPunctuation(u.fold(a));
    }
  }

  lemma TokenShape(w: string, v: string)
    requires |w| == |v| && v != "" && MatchLen(MarkerLikeRe, v) == |v|
    requires forall i :: 0 <= i < |v| ==> SamePunctuation(w[i], v[i])
    ensures MatchLen(MarkerLikeRe, w) == |w|
  {
    var k := |v| - 4;
    BodyLenStops(v[2..]);
    assert v[0] == '[' && v[1] == '[' && v[k + 2] == ']' && v[k + 3] == ']';
    assert SamePunctuation(w[0], v[0]) && SamePunctuation(w[1], v[1]);
    assert SamePunctuation(w[k + 2], v[k + 2]) && SamePunctuation(w[k + 3], v[k + 3]);
    forall i | 0 <= i < k ensures !IsBracket(w[2..][i]) && w[2..][i] != '\r' && w[2..][i] != '\n' {
      assert v[2..k + 2][i] == v[2..][i] == v[i + 2];
      assert SamePunctuation(w[i + 2], v[i + 2]);
    }
    BodyLenIs(w[2..], k);
    assert forall i :: 0 <= i < k ==> w[2..k + 2][i] == w[2..][i];
  }

  lemma {:induction false} SpansAtAre(k: Known, found: seq<Range>, seen: set<(nat, nat, string)>)
    requires forall x :: x in found ==> x.lo < x.hi
    ensures forall s :: s in SpansAt(k, found, seen) ==>
              s.priority == k.priority && s.tag == k.tag && Range(s.start, s.end) in found
  {
    if found != [] {
      assert found[0] in found;
      var key := (found[0].lo, found[0].hi, k.tag);
      SpansAtAre(k, found[1..], if key in seen then seen else seen + {key});
    }
  }

  /** A propagated span of top priority is a marker-like token of the text. */
  lemma {:induction false} PropagatedTokens(u: Alphabet, text: string, known: seq<Known>, seen: set<(nat, nat, string)>)
    requires Lawful(u) && forall k :: k in known ==> TopIsToken(k)
    ensures forall s :: s in PropagateKnown(u, text, known, seen) && s.priority >= RAW_MARKER_PRIORITY ==>
              TokenAt(MarkerLikeRe, text, s.start, s.end)
  {
    if known != [] {
      var k := known[0];
      var found := KnownRanges(u, text, k.value);
      KnownRangesProper(u, text, k.value);
      PropagatedTokens(u, text, known[1..], SeenAfter(k, found, seen));
      SpansAtAre(k, found, seen);
      assert k in known;
      forall s | s in SpansAt(k, found, seen) && s.priority >= RAW_MARKER_PRIORITY
        ensures TokenAt(MarkerLikeRe, text, s.start, s.end)
      {
        KnownRangeIsToken(u, text, k.value, Range(s.start, s.end));
      }
    }
  }

  lemma KnownRangeIsToken(u: Alphabet, text: string, v: string, r: Range)
    requires Lawful(u) && v != "" && MatchLen(MarkerLikeRe, v) == |v|
    requires r in KnownRanges(u, text, v)
    ensures TokenAt(MarkerLikeRe, text, r.lo, r.hi)
  {
    KnownRangeOccurs(u, text, v, r);
    TokenTrimmed(v);
    StripTrimmed(v);
    OccurrenceOfToken(u, text, r.lo, v);
  }

  lemma TokenTrimmed(v: string)
    requires v != "" && MatchLen(MarkerLikeRe, v) == |v|
    ensures !IsSpace(v[0]) && !IsSpace(v[|v| - 1])
  {
    assert v[0] == '[' && v[|v| - 1] == ']';
  }

  /** The labels of the propagated spans are labels of the known values. */
  lemma {:induction false} PropagatedTags(u: Alphabet, text: string, known: seq<Known>, seen: set<(nat, nat, string)>)
    ensures forall s :: s in PropagateKnown(u, text, known, seen) ==> exists k :: k in known && k.tag == s.tag
  {
    if known != [] {
      var k := known[0];
      var found := KnownRanges(u, text, k.value);
      KnownRangesProper(u, text, k.value);
      SpansAtAre(k, found, seen);
      PropagatedTags(u, text, known[1..], SeenAfter(k, found, seen));
      assert k in known;
    }
  }

  lemma KnownOfTags(u: Alphabet, text: string, s: EntitySpan)
    ensures forall k :: k in KnownOf(u, text, s) ==> k.tag == s.tag
  {
  }

  lemma {:induction false} FieldKnownTags(u: Alphabet, text: string, spans: seq<EntitySpan>)
    ensures forall k :: k in KnownOfField(u, text, spans) ==> exists s :: s in spans && s.tag == k.tag
  {
    if spans != [] {
      FieldKnownTags(u, text, spans[1..]);
      KnownOfTags(u, text, spans[0]);
      assert spans[0] in spans;
    }
  }

  /** Every detected label prints a marker that MARKER_RE matches. */
  ghost predicate PrintableLabels(u: Alphabet, fields: seq<Field>) {
    forall f, s :: f in fields && s in f.spans ==> Printable(u, s.tag)
  }

  lemma {:induction false} KnownPrintable(u: Alphabet, fields: seq<Field>)
    requires PrintableLabels(u, fields)
    ensures forall k :: k in KnownOfFields(u, fields) ==> Printable(u, k.tag)
  {
    if fields != [] {
      var f := fields[0];
      assert f in fields;
      FieldKnownTags(u, f.text, f.spans);
      assert PrintableLabels(u, fields[1..]);
      KnownPrintable(u, fields[1..]);
      forall k | k in KnownOfField(u, f.text, f.spans) ensures Printable(u, k.tag) {
        var s :| s in f.spans && s.tag == k.tag;
      }
    }
  }

  /** After completion the field is one the gateway restores. */
  lemma CompletedRestorable(u: Alphabet, f: Field, known: seq<Known>)
    requires Lawful(u) && RawMarkerRule(f)
    requires forall k :: k in known ==> TopIsToken(k) && Printable(u, k.tag)
    requires forall s :: s in f.spans ==> Printable(u, s.tag)
    ensures Restorable(LawsOf(u), Completed(u, f, known))
  {
    var extra := PropagateKnown(u, f.text, known, {});
    var all := f.spans + extra;
    PropagatedTokens(u, f.text, known, {});
    PropagatedTags(u, f.text, known, {});
    MergeProperties(all);
    MergeIdempotent(all);
    forall lo, hi | TokenAt(MarkerLikeRe, f.text, lo, hi) ensures TopSpan(Merge(all), lo, hi) {
      assert RawSpanAt(f.spans, lo, hi);
      var c :| c in f.spans && c.start == lo && c.end == hi && c.priority == RAW_MARKER_PRIORITY;
      TopTokenWins(f.text, all, c);
    }
    forall s | s in Merge(all) ensures Printable(u, s.tag) {
      assert s in f.spans || s in extra;
    }
  }

  lemma TopTokenWins(text: string, all: seq<EntitySpan>, c: EntitySpan)
    requires c in all && c.priority == RAW_MARKER_PRIORITY && TokenAt(MarkerLikeRe, text, c.start, c.end)
    requires forall s :: s in all && s.priority >= RAW_MARKER_PRIORITY ==> TokenAt(MarkerLikeRe, text, s.start, s.end)
    ensures TopSpan(Merge(all), c.start, c.end)
  {
    forall s | s in all && Overlap(s, c)
      ensures Before(RankOf(c), RankOf(s)) || (s.start == c.start && s.end == c.end)
    {
      if s.priority >= RAW_MARKER_PRIORITY {
        TokensDisjoint(MarkerLikeRe, MarkerLikeRe, text, s.start, s.end, c.start, c.end);
      }
    }
    assert Unbeatable(c, all);
    UnbeatableKept(c, all);
    MergeProperties(all);
    var k :| k in Merge(all) && k.start == c.start && k.end == c.end;
    KeptUnbeatable(Merge(all), k);
  }

  lemma KeptUnbeatable(merged: seq<EntitySpan>, k: EntitySpan)
    requires SortedBy(merged, Precedes) && k in merged
    ensures Unbeatable(k, merged)
  {
    var i :| 0 <= i < |merged| && merged[i] == k;
    forall s | s in merged && Overlap(s, k) ensures s == k {
      var j :| 0 <= j < |merged| && merged[j] == s;
      assert j < i ==> Precedes(merged[j], merged[i]);
      assert i < j ==> Precedes(merged[i], merged[j]);
    }
  }

  // ---- the whole request ----

  /** All aliases of all markers of the vault, in whatever order the dictionaries give them. */
  ghost predicate Enumerates(entries: seq<Alias>, st: Vault) {
    forall e ::
      e in entries <==> e.marker in st.markerToValue && e.marker in st.aliases && e.value in st.aliases[e.marker]
  }

  /** `ContextAssembler.sanitize`: the outgoing text of every field, and the vault afterwards. */
  function Assemble(u: Alphabet, st: Vault, fields: seq<Field>, entries: seq<Alias>): (seq<string>, Vault) {
    var (marked, st') := Marked(u, st, fields);
    (PropagateAll(u, marked, entries), st')
  }

  function PropagateAll(u: Alphabet, marked: seq<string>, entries: seq<Alias>): (r: seq<string>)
    ensures |r| == |marked|
    ensures forall i :: 0 <= i < |marked| ==> r[i] == Propagate(u, marked[i], entries)
  {
    seq(|marked|, i requires 0 <= i < |marked| => Propagate(u, marked[i], entries))
  }

  lemma {:induction false} FieldsMatched(mark: Marking, laws: Laws, st: Vault, fields: seq<Field>)
    requires Obeys(mark, laws) && laws.valid(st) && AllMatched(st)
    requires forall f :: f in fields ==> Markable(laws, f.text, Merge(f.spans))
    ensures AllMatched(SanitizeFields(mark, st, fields).1)
    decreases |fields|
  {
    if fields != [] {
      var f := fields[0];
      assert f in fields;
      FieldKeepsNamespace(mark, laws, st, f);
      SanitizeIsWeave(mark, st, f.text, 0, Merge(f.spans));
      MarkSpansMatched(mark, laws, st, f.text, 0, Merge(f.spans));
      FieldsMatched(mark, laws, Sanitize(mark, st, f.text, f.spans).1, fields[1..]);
    }
  }

  lemma CompletedAllRestorable(u: Alphabet, fields: seq<Field>)
    requires Lawful(u) && PrintableLabels(u, fields)
    requires forall f :: f in fields ==> RawMarkerRule(f)
    ensures forall f :: f in CompletedAll(u, fields, KnownOfFields(u, fields)) ==> Restorable(LawsOf(u), f)
  {
    var known := KnownOfFields(u, fields);
    KnownTokens(u, fields);
    KnownPrintable(u, fields);
    forall f | f in CompletedAll(u, fields, known) ensures Restorable(LawsOf(u), f) {
      var i :| 0 <= i < |fields| && f == Completed(u, fields[i], known);
      CompletedRestorable(u, fields[i], known);
    }
  }

  /** One iteration keeps the namespace: the vault stays valid, every marker stays matchable,
      and nothing issued before changes. */
  lemma IterationKeepsNamespace(u: Alphabet, st: Vault, fields: seq<Field>, entries: seq<Alias>)
    requires Lawful(u) && ValidVault(u, st) && AllMatched(st)
    requires PrintableLabels(u, fields) && forall f :: f in fields ==> RawMarkerRule(f)
    ensures var st' := Assemble(u, st, fields, entries).1;
            ValidVault(u, st') && AllMatched(st') && Extends(st, st')
  {
    var completed := CompletedAll(u, fields, KnownOfFields(u, fields));
    MarkingObeys(u);
    CompletedAllRestorable(u, fields);
    FieldsKeepNamespace(MarkingOf(u), LawsOf(u), st, completed);
    FieldsMatched(MarkingOf(u), LawsOf(u), st, completed);
  }

  /** What leaves for the provider can always be restored: under the vault of this iteration or
      any later one, no marker of an outgoing field is unknown. The marked field restores to the
      raw question or hit with its accepted spans set to their markers' values, and the outgoing
      field to the same with the re-applied alias ranges set to their markers' values as well. */
  lemma RequestRestores(u: Alphabet, st: Vault, fields: seq<Field>, entries: seq<Alias>,
                        later: map<string, string>, i: nat)
    requires Lawful(u) && ValidVault(u, st) && AllMatched(st) && i < |fields|
    requires PrintableLabels(u, fields) && forall f :: f in fields ==> RawMarkerRule(f)
    requires Enumerates(entries, Marked(u, st, fields).1)
    requires StillStored(Marked(u, st, fields).1, later) && ShortMarkers(later)
    ensures |Assemble(u, st, fields, entries).0| == |Marked(u, st, fields).0| == |fields|
    ensures var marked := Marked(u, st, fields).0[i];
            var ps := Accepted(u, marked, entries);
            && Ordered(ps, 0, |marked|)
            && Restore(marked, later, true) == Ok(RestoredAround(marked, 0, ps, Originals(marked, ps), later))
            && Restore(Assemble(u, st, fields, entries).0[i], later, true)
               == Ok(RestoredAround(marked, 0, ps, Stored(ps, later), later))
    ensures var raw := fields[i].text;
            var replaced := RequestPatches(u, st, fields, i);
            && PatchesSpans(raw, replaced, CompletedField(u, fields, i).spans)
            && Restore(Marked(u, st, fields).0[i], later, true) == Ok(Filled(raw, 0, replaced, later))
  {
    MarkedRestores(u, st, fields, later, i);
    IterationKeepsNamespace(u, st, fields, entries);
    var marked := Marked(u, st, fields).0[i];
    forall e | e in entries ensures IsMarker(e.marker) && e.marker in later {
    }
    PropagatedRestores(u, marked, entries, later);
  }

  lemma MarkedRestores(u: Alphabet, st: Vault, fields: seq<Field>, later: map<string, string>, i: nat)
    requires Lawful(u) && ValidVault(u, st) && i < |fields|
    requires PrintableLabels(u, fields) && forall f :: f in fields ==> RawMarkerRule(f)
    requires StillStored(Marked(u, st, fields).1, later) && ShortMarkers(later)
    ensures |Marked(u, st, fields).0| == |fields|
    ensures var f := CompletedField(u, fields, i);
            var ps := RequestPatches(u, st, fields, i);
            && PatchesSpans(f.text, ps, f.spans) && f.text == fields[i].text
            && Restore(Marked(u, st, fields).0[i], later, true) == Ok(Filled(f.text, 0, ps, later))
  {
    hide Restore, Filled, PatchesSpans, Completed, Sanitize, MarkSpans;
    hide StillStored, ShortMarkers, RawMarkerRule, ValidVault;
    var completed := CompletedAll(u, fields, KnownOfFields(u, fields));
    MarkingObeys(u);
    CompletedAllRestorable(u, fields);
    FieldsFilled(MarkingOf(u), LawsOf(u), st, completed, later, i);
    CompletedIsMerged(u, fields[i], KnownOfFields(u, fields));
  }

  /** Field `i` with its own spans and the known values found in it. */
  function CompletedField(u: Alphabet, fields: seq<Field>, i: nat): Field
    requires i < |fields|
  {
    Completed(u, fields[i], KnownOfFields(u, fields))
  }

  /** What the request replaces in its field `i`. */
  function RequestPatches(u: Alphabet, st: Vault, fields: seq<Field>, i: nat): seq<Patch>
    requires i < |fields|
  {
    FieldPatches(MarkingOf(u), st, CompletedAll(u, fields, KnownOfFields(u, fields)), i)
  }

  lemma CompletedIsMerged(u: Alphabet, f: Field, known: seq<Known>)
    ensures Completed(u, f, known).text == f.text
    ensures Merge(Completed(u, f, known).spans) == Completed(u, f, known).spans
  {
    MergeIdempotent(f.spans + PropagateKnown(u, f.text, known, {}));
  }

  /** A restorable text stays restorable when aliases are re-applied. */
  lemma PropagatedRestores(u: Alphabet, marked: string, entries: seq<Alias>, later: map<string, string>)
    requires Restore(marked, later, true).Ok? && ShortMarkers(later)
    requires forall e :: e in entries ==> IsMarker(e.marker) && e.marker in later
    ensures var ps := Accepted(u, marked, entries);
            && Ordered(ps, 0, |marked|)
            && Restore(marked, later, true) == Ok(RestoredAround(marked, 0, ps, Originals(marked, ps), later))
            && Restore(Propagate(u, marked, entries), later, true)
               == Ok(RestoredAround(marked, 0, ps, Stored(ps, later), later))
  {
    PropagateRestores(u, marked, entries, later);
    PropagateKeepsKnown(u, marked, entries, later);
  }

  // ---- the same request, step by step on the mutable state ----

  /** Visits every alias of every marker once. */
  method ListAliases(st: Vault) returns (entries: seq<Alias>)
    ensures Enumerates(entries, st)
  {
    entries := [];
    var markers := st.markerToValue.Keys * st.aliases.Keys;
    ghost var done: set<string> := {};
    while markers != {}
      invariant markers + done == st.markerToValue.Keys * st.aliases.Keys && markers !! done
      invariant forall e :: e in entries <==> e.marker in done && e.value in st.aliases[e.marker]
      decreases markers
    {
      var marker :| marker in markers;
      var values := st.aliases[marker];
      ghost var before := entries;
      while values != {}
        invariant values <= st.aliases[marker]
        invariant forall e ::
                    e in entries <==> e in before || (e.marker == marker && e.value in st.aliases[marker] - values)
        decreases values
      {
        var value :| value in values;
        entries := entries + [Alias(value, marker)];
        values := values - {value};
      }
      markers := markers - {marker};
      done := done + {marker};
    }
  }

  /** `ContextAssembler.sanitize` after detection: known values are collected, every field is
      marked in turn on the shared state, then all learned aliases are re-applied. */
  method AssembleRequest(u: Alphabet, state: MarkerState, fields: seq<Field>)
    returns (texts: seq<string>, ghost entries: seq<Alias>)
    modifies state
    ensures Enumerates(entries, state.View())
    ensures (texts, state.View()) == Assemble(u, old(state.View()), fields, entries)
  {
    var completed := CompletedAll(u, fields, KnownOfFields(u, fields));
    var marked := MarkFields(u, state, completed);
    var aliases := ListAliases(state.View());
    entries := aliases;
    texts := ReapplyAliases(u, marked, aliases);
  }

  method ReapplyAliases(u: Alphabet, marked: seq<string>, aliases: seq<Alias>) returns (texts: seq<string>)
    ensures texts == PropagateAll(u, marked, aliases)
  {
    hide Propagate;
    ghost var wanted := PropagateAll(u, marked, aliases);
    texts := [];
    for i := 0 to |marked|
      invariant texts == wanted[..i]
    {
      assert wanted[i] == Propagate(u, marked[i], aliases);
      var rewritten := PropagateStateMarkers(u, marked[i], aliases);
      texts := texts + [rewritten];
    }
  }

  method MarkFields(u: Alphabet, state: MarkerState, fields: seq<Field>) returns (marked: seq<string>)
    modifies state
    ensures (marked, state.View()) == SanitizeFields(MarkingOf(u), old(state.View()), fields)
  {
    ghost var mark := MarkingOf(u);
    ghost var final := SanitizeFields(mark, state.View(), fields);
    marked := [];
    assert fields[0..] == fields && [] + final.0 == final.0;
    for i := 0 to |fields|
      invariant FieldsContinue(mark, state.View(), fields[i..], marked, final)
    {
      assert fields[i..][0] == fields[i] && fields[i..][1..] == fields[i + 1..];
      ghost var before := state.View();
      NextField(mark, before, fields[i..], marked, final);
      var text, detected := SanitizeWithSpans(u, state, fields[i].text, fields[i].spans);
      marked := marked + [text];
    }
    assert fields[|fields|..] == [] && marked + [] == marked;
  }

  ghost predicate FieldsContinue(mark: Marking, st: Vault, fields: seq<Field>, done: seq<string>,
                                 final: (seq<string>, Vault)) {
    var (rest, st') := SanitizeFields(mark, st, fields);
    (done + rest, st') == final
  }

  lemma NextField(mark: Marking, st: Vault, fields: seq<Field>, done: seq<string>, final: (seq<string>, Vault))
    requires fields != [] && FieldsContinue(mark, st, fields, done, final)
    ensures var (out, st1) := Sanitize(mark, st, fields[0].text, fields[0].spans);
            FieldsContinue(mark, st1, fields[1..], done + [out], final)
  {
    var (out, st1) := Sanitize(mark, st, fields[0].text, fields[0].spans);
    var rest := SanitizeFields(mark, st1, fields[1..]).0;
    assert done + ([out] + rest) == (done + [out]) + rest;
  }
}
