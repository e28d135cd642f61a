/** The two marker regexes of the sanitizer as scanners, and the lexical law that makes
    replacing markers compositional: text put next to a marker never joins it. */
module Markers {
  import opened Text
  import opened Scanner

  /** Code points of the non-ASCII digit zeros matched by `\d` (general category Nd); each
      starts a run of ten. */
  const OTHER_ZEROS: set<int> := {
    0x660, 0x6f0, 0x7c0, 0x966, 0x9e6, 0xa66, 0xae6, 0xb66, 0xbe6, 0xc66, 0xce6, 0xd66, 0xde6,
    0xe50, 0xed0, 0xf20, 0x1040, 0x1090, 0x17e0, 0x1810, 0x1946, 0x19d0, 0x1a80, 0x1a90, 0x1b50,
    0x1bb0, 0x1c40, 0x1c50, 0xa620, 0xa8d0, 0xa900, 0xa9d0, 0xa9f0, 0xaa50, 0xabf0, 0xff10,
    0x104a0, 0x10d30, 0x11066, 0x110f0, 0x11136, 0x111d0, 0x112f0, 0x11450, 0x114d0, 0x11650,
    0x116c0, 0x11730, 0x118e0, 0x11950, 0x11c50, 0x11d50, 0x11da0, 0x11f50, 0x16a60, 0x16ac0,
    0x16b50, 0x1d7ce, 0x1d7d8, 0x1d7e2, 0x1d7ec, 0x1d7f6, 0x1e140, 0x1e2f0, 0x1e4f0, 0x1e950,
    0x1fbf0 }

  predicate IsDigit(c: char) {
    IsAsciiDigit(c) || (c as int > 0x7f && exists z :: z in OTHER_ZEROS && z <= c as int <= z + 9)
  }

  predicate IsUpperAscii(c: char) { 'A' <= c <= 'Z' }

  predicate IsLabelChar(c: char) { IsUpperAscii(c) || IsAsciiDigit(c) || c == '_' }

  /** `[A-Z][A-Z0-9_]*` */
  predicate IsMarkerLabel(s: string) {
    s != "" && IsUpperAscii(s[0]) && forall i :: 0 <= i < |s| ==> IsLabelChar(s[i])
  }

  predicate SplitsAt(b: string, k: int) {
    && 0 <= k < |b|
    && b[k] == '_'
    && IsMarkerLabel(b[..k])
    && |b| - k - 1 >= 4
    && forall i :: k < i < |b| ==> IsDigit(b[i])
  }

  /** `[A-Z][A-Z0-9_]*_\d{4,}`: some underscore splits the body into a label and digits. */
  predicate IsMarkerBody(b: string) {
    exists k :: 0 <= k < |b| && SplitsAt(b, k)
  }

  /** `[^\[\]\r\n]{1,80}` over a bracket-free body. */
  predicate IsMarkerLikeBody(b: string) {
    1 <= |b| <= 80 && '\r' !in b && '\n' !in b
  }

  datatype Pattern = MarkerRe | MarkerLikeRe

  predicate IsBody(p: Pattern, b: string) {
    match p
    case MarkerRe => IsMarkerBody(b)
    case MarkerLikeRe => IsMarkerLikeBody(b)
  }

  predicate IsBracket(c: char) { c == '[' || c == ']' }

  /** Length of the longest bracket-free prefix. */
  function BodyLen(t: string): (n: nat)
    ensures n <= |t|
  {
    if t == "" || IsBracket(t[0]) then 0 else 1 + BodyLen(t[1..])
  }

  lemma {:induction false} BodyLenStops(t: string)
    ensures forall i :: 0 <= i < BodyLen(t) ==> !IsBracket(t[i])
    ensures BodyLen(t) < |t| ==> IsBracket(t[BodyLen(t)])
  {
    if t != "" && !IsBracket(t[0]) {
      BodyLenStops(t[1..]);
      assert forall i :: 0 < i < |t| ==> t[i] == t[1..][i - 1];
    }
  }

  /** Length of the match of `p` anchored at the start of `t`, 0 when there is none. */
  function MatchLen(p: Pattern, t: string): (n: nat)
    ensures n <= |t|
    ensures n > 0 ==> n >= 5
  {
    if |t| >= 2 && t[0] == '[' && t[1] == '[' then
      var k := BodyLen(t[2..]);
      if k > 0 && k + 3 < |t| && t[k + 2] == ']' && t[k + 3] == ']' && IsBody(p, t[2..k + 2]) then k + 4 else 0
    else 0
  }

  function MatcherOf(p: Pattern): Matcher {
    (t: string) => MatchLen(p, t)
  }

  /** `p.findall(t)`: the matched strings, leftmost first, without overlap. */
  function FindAll(p: Pattern, t: string): seq<string> {
    Tokens(Lex(MatcherOf(p), t))
  }

  /** `MARKER_RE.sub(lambda m: values.get(m.group(0), m.group(0)), t)` */
  function Substitute(t: string, values: map<string, string>): string {
    Render(Lex(MatcherOf(MarkerRe), t), values)
  }

  /** A string that is exactly one match of MARKER_RE. */
  predicate IsMarker(m: string) {
    m != "" && MatchLen(MarkerRe, m) == |m|
  }

  /** Text that may follow a gap without disturbing it: nothing, or something led by `[[`. */
  predicate Opens(x: string) {
    x == "" || (|x| >= 2 && x[0] == '[' && x[1] == '[')
  }

  lemma {:induction false} BodyLenIs(t: string, n: nat)
    requires n <= |t|
    requires forall i :: 0 <= i < n ==> !IsBracket(t[i])
    requires n < |t| ==> IsBracket(t[n])
    ensures BodyLen(t) == n
  {
    BodyLenStops(t);
  }

  /** A match depends only on the matched prefix. */
  lemma MatchExtends(p: Pattern, t: string, x: string)
    requires MatchLen(p, t) > 0
    ensures MatchLen(p, t + x) == MatchLen(p, t)
  {
    var k := BodyLen(t[2..]);
    BodyLenStops(t[2..]);
    assert (t + x)[2..] == t[2..] + x;
    BodyLenIs(t[2..] + x, k);
    assert (t + x)[2..k + 2] == t[2..k + 2];
  }

  /** No match starts in a gap and reaches into what follows it. */
  lemma MatchInGap(p: Pattern, g: string, x: string)
    requires g != "" && Opens(x)
    ensures MatchLen(p, g + x) == MatchLen(p, g)
  {
    var t := g + x;
    if x == "" {
      assert t == g;
    } else if MatchLen(p, g) > 0 {
      MatchExtends(p, g, x);
    } else if |g| >= 2 && g[0] == '[' && g[1] == '[' {
      var k := BodyLen(g[2..]);
      BodyLenStops(g[2..]);
      assert t[2..] == g[2..] + x;
      BodyLenIs(t[2..], k);
      if k + 3 < |g| {
        assert t[2..k + 2] == g[2..k + 2];
      }
    } else if |g| == 1 && g[0] == '[' {
      BodyLenIs(t[2..], 0);
    }
  }

  lemma MatchOfMarker(p: Pattern, m: string, x: string)
    requires IsMarker(m)
    ensures MatchLen(p, m + x) == if IsBody(p, m[2..|m| - 2]) then |m| else 0
  {
    var k := BodyLen(m[2..]);
    BodyLenStops(m[2..]);
    assert (m + x)[2..] == m[2..] + x;
    BodyLenIs(m[2..] + x, k);
    assert (m + x)[2..k + 2] == m[2..k + 2];
  }

  lemma MarkerOpens(m: string, x: string)
    requires IsMarker(m)
    ensures Opens(m + x)
  {
  }

  lemma LexAroundMarkers(p: Pattern, g: string, x: string)
    requires Opens(x)
    ensures Lex(MatcherOf(p), g + x) == Lex(MatcherOf(p), g) + Lex(MatcherOf(p), x)
  {
    forall i | 0 <= i < |g| ensures MatchLen(p, g[i..] + x) == MatchLen(p, g[i..]) {
      MatchInGap(p, g[i..], x);
    }
    LexGap(MatcherOf(p), g, x);
  }

  lemma SubstituteGap(g: string, x: string, values: map<string, string>)
    requires Opens(x)
    ensures Substitute(g + x, values) == Substitute(g, values) + Substitute(x, values)
  {
    LexAroundMarkers(MarkerRe, g, x);
    RenderConcat(Lex(MatcherOf(MarkerRe), g), Lex(MatcherOf(MarkerRe), x), values);
  }

  lemma SubstituteMarker(m: string, x: string, values: map<string, string>)
    requires IsMarker(m)
    ensures Substitute(m + x, values) == (if m in values then values[m] else m) + Substitute(x, values)
  {
    MatchOfMarker(MarkerRe, m, x);
    LexToken(MatcherOf(MarkerRe), m, x);
  }

  lemma FindAllGap(p: Pattern, g: string, x: string)
    requires Opens(x)
    ensures FindAll(p, g + x) == FindAll(p, g) + FindAll(p, x)
  {
    LexAroundMarkers(p, g, x);
    TokensConcat(Lex(MatcherOf(p), g), Lex(MatcherOf(p), x));
  }

  lemma FindAllMarker(p: Pattern, m: string, x: string)
    requires IsMarker(m) && IsBody(p, m[2..|m| - 2])
    ensures FindAll(p, m + x) == [m] + FindAll(p, x)
  {
    MatchOfMarker(p, m, x);
    LexToken(MatcherOf(p), m, x);
  }

  predicate TokenAt(p: Pattern, t: string, lo: nat, hi: nat) {
    MatchesAt(MatcherOf(p), t, lo, hi)
  }

  /** The only brackets of a match are its two opening and two closing ones. */
  lemma TokenChars(p: Pattern, t: string, a: nat, b: nat)
    requires TokenAt(p, t, a, b)
    ensures a + 5 <= b
    ensures t[a] == '[' && t[a + 1] == '[' && t[b - 2] == ']' && t[b - 1] == ']'
    ensures forall i :: a + 2 <= i < b - 2 ==> !IsBracket(t[i])
  {
    var s := t[a..];
    var k := BodyLen(s[2..]);
    BodyLenStops(s[2..]);
    forall i | a + 2 <= i < b - 2 ensures !IsBracket(t[i]) {
      assert t[i] == s[2..][i - a - 2];
    }
  }

  /** Two matches anywhere in a text coincide or are disjoint, so leftmost-first scanning
      loses none of them. */
  lemma TokensDisjoint(p: Pattern, q: Pattern, t: string, a: nat, b: nat, c: nat, d: nat)
    requires TokenAt(p, t, a, b) && TokenAt(q, t, c, d)
    ensures (a == c && b == d) || b <= c || d <= a
  {
    TokenChars(p, t, a, b);
    TokenChars(q, t, c, d);
  }

  /** A match spelled out: two opening brackets, a body without brackets, two closing ones. */
  lemma TokenAtIff(p: Pattern, t: string, lo: nat, hi: nat)
    ensures TokenAt(p, t, lo, hi) <==>
            && lo + 5 <= hi <= |t|
            && t[lo] == '[' && t[lo + 1] == '[' && t[hi - 2] == ']' && t[hi - 1] == ']'
            && (forall i :: lo + 2 <= i < hi - 2 ==> !IsBracket(t[i]))
            && IsBody(p, t[lo + 2..hi - 2])
  {
    if TokenAt(p, t, lo, hi) {
      TokenChars(p, t, lo, hi);
      assert t[lo..][2..hi - lo - 2] == t[lo + 2..hi - 2];
    } else if lo + 5 <= hi <= |t| && t[lo] == '[' && t[lo + 1] == '[' && t[hi - 2] == ']' && t[hi - 1] == ']'
              && (forall i :: lo + 2 <= i < hi - 2 ==> !IsBracket(t[i])) {
      var s := t[lo..];
      BodyLenIs(s[2..], hi - lo - 4);
      assert s[2..hi - lo - 2] == t[lo + 2..hi - 2];
    }
  }

  /** What MARKER_LIKE_RE matches: 1 to 80 characters other than brackets and line ends. */
  lemma MarkerLikeIff(t: string, lo: nat, hi: nat)
    ensures TokenAt(MarkerLikeRe, t, lo, hi) <==>
            && lo + 5 <= hi <= |t| && hi - lo <= 84
            && t[lo..lo + 2] == "[[" && t[hi - 2..hi] == "]]"
            && (forall i :: lo + 2 <= i < hi - 2 ==> t[i] !in {'[', ']', '\r', '\n'})
  {
    TokenAtIff(MarkerLikeRe, t, lo, hi);
    if lo + 5 <= hi <= |t| {
      var b := t[lo + 2..hi - 2];
      assert forall i :: lo + 2 <= i < hi - 2 ==> t[i] == b[i - lo - 2];
      assert t[lo..lo + 2] == [t[lo], t[lo + 1]] && t[hi - 2..hi] == [t[hi - 2], t[hi - 1]];
    }
  }

  /** Label characters before `k`, an underscore there, and at least four decimal digits after. */
  predicate MarkerParts(b: string, k: int) {
    && 0 < k < |b| - 4 && b[k] == '_' && 'A' <= b[0] <= 'Z'
    && (forall i :: 0 <= i < k ==> 'A' <= b[i] <= 'Z' || '0' <= b[i] <= '9' || b[i] == '_')
    && (forall i :: k < i < |b| ==> IsDigit(b[i]))
  }

  predicate HasParts(b: string) {
    exists k :: 0 <= k < |b| && MarkerParts(b, k)
  }

  /** What MARKER_RE matches: a label that begins with A-Z, an underscore, and digits. */
  lemma MarkerIff(t: string, lo: nat, hi: nat)
    ensures TokenAt(MarkerRe, t, lo, hi) <==>
            && lo + 5 <= hi <= |t|
            && t[lo..lo + 2] == "[[" && t[hi - 2..hi] == "]]"
            && HasParts(t[lo + 2..hi - 2])
  {
    TokenAtIff(MarkerRe, t, lo, hi);
    if lo + 5 <= hi <= |t| {
      assert t[lo..lo + 2] == [t[lo], t[lo + 1]] && t[hi - 2..hi] == [t[hi - 2], t[hi - 1]];
      var b := t[lo + 2..hi - 2];
      assert forall i :: lo + 2 <= i < hi - 2 ==> t[i] == b[i - lo - 2];
      forall k ensures (0 <= k < |b| && SplitsAt(b, k)) <==> MarkerParts(b, k) {
        PartsSplit(b, k);
      }
      forall k | MarkerParts(b, k) ensures forall i :: 0 <= i < |b| ==> !IsBracket(b[i]) {
        assert forall i :: 0 <= i < |b| ==> i < k || i == k || IsDigit(b[i]);
      }
    }
  }

  lemma PartsSplit(b: string, k: int)
    ensures (0 <= k < |b| && SplitsAt(b, k)) <==> MarkerParts(b, k)
  {
    if 0 <= k < |b| {
      assert forall i :: 0 <= i < k ==> b[..k][i] == b[i];
    }
  }

  lemma FindIterAll(p: Pattern, t: string, lo: nat, hi: nat)
    requires TokenAt(p, t, lo, hi)
    ensures Range(lo, hi) in FindIter(MatcherOf(p), t, 0)
  {
    forall a | 0 <= a < lo && Hits(MatcherOf(p), t[a..]) ensures a + MatcherOf(p)(t[a..]) <= lo {
      TokensDisjoint(p, p, t, a, a + MatchLen(p, t[a..]), lo, hi);
    }
    FindIterComplete(MatcherOf(p), t, 0, lo, hi);
  }

  // ---- issued markers ----

  /** `f"[[{safe_label}_{number:04d}]]"` */
  function MarkerText(tag: string, number: nat): string {
    "[[" + tag + "_" + Pad4(number) + "]]"
  }

  /** `marker[2:].rsplit("_", 1)[0]`, the label a reloaded vault reads from a marker. */
  function LabelOf(marker: string): string {
    var s := if |marker| >= 2 then marker[2..] else "";
    var k := LastIndex(s, '_');
    if k < 0 then s else s[..k]
  }

  lemma LabelOfMarker(tag: string, number: nat)
    ensures LabelOf(MarkerText(tag, number)) == tag
  {
    var s := tag + "_" + Pad4(number) + "]]";
    assert MarkerText(tag, number)[2..] == s;
    assert s[|tag| + 1..] == Pad4(number) + "]]";
    LastIndexUnique(s, '_', |tag|);
  }

  /** Distinct (label, number) pairs print distinct markers, whatever digits and underscores
      the tag ends in. */
  lemma MarkerTextInjective(l1: string, n1: nat, l2: string, n2: nat)
    requires MarkerText(l1, n1) == MarkerText(l2, n2)
    ensures l1 == l2 && n1 == n2
  {
    LabelOfMarker(l1, n1);
    LabelOfMarker(l2, n2);
    var m1, m2 := MarkerText(l1, n1), MarkerText(l2, n2);
    assert m1[|l1| + 3..|m1| - 2] == Pad4(n1);
    assert m2[|l2| + 3..|m2| - 2] == Pad4(n2);
    Pad4Injective(n1, n2);
  }

  /** An issued marker is matched by MARKER_RE exactly when its label begins with A-Z. */
  lemma MarkerTextMatches(tag: string, number: nat)
    requires tag != "" && forall i :: 0 <= i < |tag| ==> IsLabelChar(tag[i])
    ensures IsMarker(MarkerText(tag, number)) <==> IsUpperAscii(tag[0])
  {
    var m := MarkerText(tag, number);
    var d := Pad4(number);
    var b := tag + "_" + d;
    assert m[2..] == b + "]]";
    BodyLenIs(m[2..], |b|);
    assert m[2..|b| + 2] == b;
    if IsUpperAscii(tag[0]) {
      assert b[..|tag|] == tag;
      assert SplitsAt(b, |tag|);
    } else {
      assert b[0] == tag[0];
      assert forall k :: 0 < k <= |b| ==> b[..k][0] == b[0];
    }
  }
}
