/** Replacing ranges of a text by markers, and what restoring the result gives. */
module Weaving {
  import opened Scanner
  import opened Markers

  /** Half-open range of a text and the marker written in its place. */
  datatype Patch = Patch(lo: nat, hi: nat, marker: string)

  /** Patches in reading order, disjoint, non-empty and inside `[cursor, size)`. */
  predicate Ordered(ps: seq<Patch>, cursor: nat, size: nat) {
    if ps == [] then cursor <= size
    else cursor <= ps[0].lo < ps[0].hi <= size && Ordered(ps[1..], ps[0].hi, size)
  }

  /** The text from `cursor` on with every patch applied. */
  function Weave(text: string, cursor: nat, ps: seq<Patch>): string
    requires Ordered(ps, cursor, |text|)
    decreases |ps|
  {
    if ps == [] then text[cursor..]
    else text[cursor..ps[0].lo] + ps[0].marker + Weave(text, ps[0].hi, ps[1..])
  }

  function Value(values: map<string, string>, marker: string): string {
    if marker in values then values[marker] else marker
  }

  /** The text from `cursor` on with every patched range set to its marker's value. */
  function Filled(text: string, cursor: nat, ps: seq<Patch>, values: map<string, string>): string
    requires Ordered(ps, cursor, |text|)
    decreases |ps|
  {
    if ps == [] then text[cursor..]
    else text[cursor..ps[0].lo] + Value(values, ps[0].marker) + Filled(text, ps[0].hi, ps[1..], values)
  }

  /** The same with the text between the patches restored as well. */
  function FilledRestored(text: string, cursor: nat, ps: seq<Patch>, values: map<string, string>): string
    requires Ordered(ps, cursor, |text|)
    decreases |ps|
  {
    if ps == [] then Substitute(text[cursor..], values)
    else Substitute(text[cursor..ps[0].lo], values) + Value(values, ps[0].marker)
         + FilledRestored(text, ps[0].hi, ps[1..], values)
  }

  /** The matches between the patches, with each patch's marker at its place. */
  function WovenTokens(p: Pattern, text: string, cursor: nat, ps: seq<Patch>): seq<string>
    requires Ordered(ps, cursor, |text|)
    decreases |ps|
  {
    if ps == [] then FindAll(p, text[cursor..])
    else FindAll(p, text[cursor..ps[0].lo]) + [ps[0].marker] + WovenTokens(p, text, ps[0].hi, ps[1..])
  }

  /** A marker that the pattern matches as a whole. */
  predicate Insertable(p: Pattern, m: string) {
    IsMarker(m) && IsBody(p, m[2..|m| - 2])
  }

  predicate WellFormed(p: Pattern, ps: seq<Patch>) {
    forall q :: q in ps ==> Insertable(p, q.marker)
  }

  lemma MarkerBody(m: string)
    requires IsMarker(m)
    ensures |m| >= 5 && IsMarkerBody(m[2..|m| - 2])
  {
  }

  /** Restoring a woven text restores the gaps and sets each patch to its value. */
  lemma {:induction false} SubstituteWeave(text: string, cursor: nat, ps: seq<Patch>, values: map<string, string>)
    requires Ordered(ps, cursor, |text|)
    requires forall q :: q in ps ==> IsMarker(q.marker)
    ensures Substitute(Weave(text, cursor, ps), values) == FilledRestored(text, cursor, ps, values)
    decreases |ps|
  {
    if ps != [] {
      SubstituteWeave(text, ps[0].hi, ps[1..], values);
      SubstituteAround(text[cursor..ps[0].lo], ps[0].marker, Weave(text, ps[0].hi, ps[1..]), values);
    }
  }

  lemma SubstituteAround(g: string, m: string, rest: string, values: map<string, string>)
    requires IsMarker(m)
    ensures Substitute(g + m + rest, values) == Substitute(g, values) + Value(values, m) + Substitute(rest, values)
  {
    MarkerOpens(m, rest);
    assert g + m + rest == g + (m + rest);
    SubstituteGap(g, m + rest, values);
    SubstituteMarker(m, rest, values);
  }

  lemma {:induction false} TokensOfWeave(p: Pattern, text: string, cursor: nat, ps: seq<Patch>)
    requires Ordered(ps, cursor, |text|) && WellFormed(p, ps)
    ensures FindAll(p, Weave(text, cursor, ps)) == WovenTokens(p, text, cursor, ps)
    decreases |ps|
  {
    if ps != [] {
      assert WellFormed(p, ps[1..]);
      TokensOfWeave(p, text, ps[0].hi, ps[1..]);
      assert Insertable(p, ps[0].marker);
      TokensAround(p, text[cursor..ps[0].lo], ps[0].marker, Weave(text, ps[0].hi, ps[1..]));
    }
  }

  lemma TokensAround(p: Pattern, g: string, m: string, rest: string)
    requires Insertable(p, m)
    ensures FindAll(p, g + m + rest) == FindAll(p, g) + [m] + FindAll(p, rest)
  {
    MarkerOpens(m, rest);
    assert g + m + rest == g + (m + rest);
    FindAllGap(p, g, m + rest);
    FindAllMarker(p, m, rest);
  }

  // ---- texts whose marker-like tokens are all patched away ----

  predicate PatchFor(ps: seq<Patch>, lo: nat, hi: nat) {
    exists i :: 0 <= i < |ps| && ps[i].lo == lo && ps[i].hi == hi
  }

  /** Every marker-like token from `cursor` on is exactly one patched range. */
  ghost predicate TokensPatched(text: string, cursor: nat, ps: seq<Patch>) {
    forall lo, hi :: cursor <= lo && TokenAt(MarkerLikeRe, text, lo, hi) ==> PatchFor(ps, lo, hi)
  }

  /** Issued markers are themselves marker-like: their bodies have at most 80 characters. */
  predicate ShortMarkers(values: map<string, string>) {
    forall m :: m in values ==> |m| <= 84
  }

  lemma {:induction false} OrderedBounds(ps: seq<Patch>, cursor: nat, size: nat)
    requires Ordered(ps, cursor, size)
    ensures cursor <= size
    ensures forall i :: 0 <= i < |ps| ==> cursor <= ps[i].lo < ps[i].hi <= size
  {
    if ps != [] {
      OrderedBounds(ps[1..], ps[0].hi, size);
    }
  }

  lemma FoundToken(p: Pattern, t: string, m: string) returns (lo: nat)
    requires m in FindAll(p, t)
    ensures TokenAt(p, t, lo, lo + |m|) && t[lo..lo + |m|] == m
  {
    lo := TokenOccurs(MatcherOf(p), t, m);
  }

  lemma TokenFound(p: Pattern, text: string, lo: nat, hi: nat)
    requires TokenAt(p, text, lo, hi)
    ensures text[lo..hi] in FindAll(p, text)
  {
    FindIterAll(p, text, lo, hi);
    FindIterSpells(MatcherOf(p), text);
  }

  lemma TokenOfSlice(p: Pattern, text: string, a: nat, b: nat, m: string) returns (lo: nat)
    requires a <= b <= |text| && m in FindAll(p, text[a..b])
    ensures a <= lo && lo + |m| <= b && TokenAt(p, text, lo, lo + |m|)
  {
    hide FindAll;
    var at := FoundToken(p, text[a..b], m);
    TokenInSlice(p, text, a, b, at, at + |m|);
    lo := a + at;
  }

  lemma TokenInSlice(p: Pattern, text: string, a: nat, b: nat, lo: nat, hi: nat)
    requires a <= b <= |text| && TokenAt(p, text[a..b], lo, hi)
    ensures TokenAt(p, text, a + lo, a + hi)
  {
    assert text[a + lo..] == text[a..b][lo..] + text[b..];
    MatchExtends(p, text[a..b][lo..], text[b..]);
  }

  lemma ShortMarkerIsLike(text: string, lo: nat, hi: nat)
    requires TokenAt(MarkerRe, text, lo, hi) && hi - lo <= 84
    ensures TokenAt(MarkerLikeRe, text, lo, hi)
  {
    var s := text[lo..];
    var n := hi - lo;
    BodyHasNoBreaks(s[2..n - 2]);
    assert s[..n] + s[n..] == s;
  }

  lemma ShortInsertable(m: string)
    requires IsMarker(m) && |m| <= 84
    ensures Insertable(MarkerLikeRe, m)
  {
    assert m[0..] == m;
    assert TokenAt(MarkerRe, m, 0, |m|);
    ShortMarkerIsLike(m, 0, |m|);
  }

  lemma BodyHasNoBreaks(b: string)
    requires IsMarkerBody(b)
    ensures '\r' !in b && '\n' !in b && |b| >= 1
  {
    var k :| 0 <= k < |b| && SplitsAt(b, k);
    forall i | 0 <= i < |b| ensures b[i] != '\r' && b[i] != '\n' {
      if i < k {
        assert b[i] == b[..k][i];
        assert IsLabelChar(b[..k][i]);
      } else if i > k {
        assert IsDigit(b[i]);
      }
    }
  }

  /** No gap of a fully patched text holds a marker-like token. */
  lemma GapHasNoTokens(text: string, cursor: nat, ps: seq<Patch>, end: nat)
    requires Ordered(ps, cursor, |text|) && TokensPatched(text, cursor, ps)
    requires cursor <= end <= if ps == [] then |text| else ps[0].lo
    ensures FindAll(MarkerLikeRe, text[cursor..end]) == []
  {
    var g := text[cursor..end];
    if FindAll(MarkerLikeRe, g) != [] {
      var m := FindAll(MarkerLikeRe, g)[0];
      var lo := TokenOfSlice(MarkerLikeRe, text, cursor, end, m);
      OrderedBounds(ps, cursor, |text|);
      FirstPatchFirst(ps, cursor, |text|);
    }
  }

  lemma FirstPatchFirst(ps: seq<Patch>, cursor: nat, size: nat)
    requires Ordered(ps, cursor, size)
    ensures forall i :: 0 < i < |ps| ==> ps[0].hi <= ps[i].lo
  {
    if ps != [] {
      OrderedBounds(ps[1..], ps[0].hi, size);
      assert forall i :: 0 < i < |ps| ==> ps[i] == ps[1..][i - 1];
    }
  }

  /** In such a gap nothing is restored: longer marker tokens are never issued. */
  lemma GapUntouched(text: string, cursor: nat, ps: seq<Patch>, end: nat, values: map<string, string>)
    requires Ordered(ps, cursor, |text|) && TokensPatched(text, cursor, ps) && ShortMarkers(values)
    requires cursor <= end <= if ps == [] then |text| else ps[0].lo
    ensures Substitute(text[cursor..end], values) == text[cursor..end]
  {
    var g := text[cursor..end];
    GapHasNoTokens(text, cursor, ps, end);
    forall m | m in FindAll(MarkerRe, g) ensures m !in values {
      if |m| <= 84 {
        var lo := FoundToken(MarkerRe, g, m);
        ShortMarkerIsLike(g, lo, lo + |m|);
        FindIterAll(MarkerLikeRe, g, lo, lo + |m|);
        FindIterSpells(MatcherOf(MarkerLikeRe), g);
      }
    }
    RenderUnknown(MatcherOf(MarkerRe), g, values);
  }

  lemma PatchedRest(text: string, cursor: nat, ps: seq<Patch>)
    requires Ordered(ps, cursor, |text|) && TokensPatched(text, cursor, ps) && ps != []
    ensures TokensPatched(text, ps[0].hi, ps[1..])
  {
    forall lo, hi | ps[0].hi <= lo && TokenAt(MarkerLikeRe, text, lo, hi) ensures PatchFor(ps[1..], lo, hi) {
      assert PatchFor(ps, lo, hi);
      var i :| 0 <= i < |ps| && ps[i].lo == lo && ps[i].hi == hi;
      assert ps[1..][i - 1] == ps[i];
    }
  }

  /** Restoring a text whose marker-like tokens were all patched fills the patches and
      changes nothing else. */
  lemma {:induction false} RestoreFills(text: string, cursor: nat, ps: seq<Patch>, values: map<string, string>)
    requires Ordered(ps, cursor, |text|) && TokensPatched(text, cursor, ps) && ShortMarkers(values)
    ensures FilledRestored(text, cursor, ps, values) == Filled(text, cursor, ps, values)
    decreases |ps|
  {
    if ps == [] {
      assert text[cursor..] == text[cursor..|text|];
      GapUntouched(text, cursor, ps, |text|, values);
    } else {
      GapUntouched(text, cursor, ps, ps[0].lo, values);
      PatchedRest(text, cursor, ps);
      RestoreFills(text, ps[0].hi, ps[1..], values);
    }
  }

  /** Every marker-like token of such a woven text is one of the inserted markers. */
  lemma {:induction false} WovenTokensKnown(text: string, cursor: nat, ps: seq<Patch>, values: map<string, string>)
    requires Ordered(ps, cursor, |text|) && TokensPatched(text, cursor, ps)
    requires forall q :: q in ps ==> q.marker in values
    ensures forall m :: m in WovenTokens(MarkerLikeRe, text, cursor, ps) ==> m in values
    decreases |ps|
  {
    if ps == [] {
      assert text[cursor..] == text[cursor..|text|];
      GapHasNoTokens(text, cursor, ps, |text|);
    } else {
      GapHasNoTokens(text, cursor, ps, ps[0].lo);
      PatchedRest(text, cursor, ps);
      WovenTokensKnown(text, ps[0].hi, ps[1..], values);
    }
  }

  /** Filling every patch with the text it replaced gives the text back. */
  lemma {:induction false} FilledWithOriginals(text: string, cursor: nat, ps: seq<Patch>, values: map<string, string>)
    requires Ordered(ps, cursor, |text|)
    requires forall i :: 0 <= i < |ps| ==>
               cursor <= ps[i].lo <= ps[i].hi <= |text| && Value(values, ps[i].marker) == text[ps[i].lo..ps[i].hi]
    ensures Filled(text, cursor, ps, values) == text[cursor..]
    decreases |ps|
  {
    if ps != [] {
      OrderedBounds(ps[1..], ps[0].hi, |text|);
      FilledWithOriginals(text, ps[0].hi, ps[1..], values);
      var p := ps[0];
      assert text[cursor..] == text[cursor..p.lo] + text[p.lo..p.hi] + text[p.hi..];
    }
  }
}
