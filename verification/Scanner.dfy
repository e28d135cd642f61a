/** Leftmost, non-overlapping scanning with an arbitrary anchored matcher: what `re.findall`,
    `re.finditer` and `re.sub` do around a compiled pattern. */
module Scanner {

  /** Length of the match anchored at the start of a string; 0 means no match. */
  type Matcher = string -> nat

  datatype Piece = Other(c: char) | Token(text: string)

  datatype Range = Range(lo: nat, hi: nat)

  predicate Hits(f: Matcher, t: string) {
    0 < f(t) <= |t|
  }

  function Lex(f: Matcher, t: string): seq<Piece>
    decreases |t|
  {
    if t == "" then []
    else if Hits(f, t) then [Token(t[..f(t)])] + Lex(f, t[f(t)..])
    else [Other(t[0])] + Lex(f, t[1..])
  }

  /** The token texts, in order. */
  function Tokens(ps: seq<Piece>): seq<string> {
    if ps == [] then []
    else (if ps[0].Token? then [ps[0].text] else []) + Tokens(ps[1..])
  }

  /** The text with each token mapped through `values`, and kept when it has no entry. */
  function Render(ps: seq<Piece>, values: map<string, string>): string {
    if ps == [] then ""
    else
      (match ps[0]
       case Other(c) => [c]
       case Token(m) => if m in values then values[m] else m) + Render(ps[1..], values)
  }

  /** How far the scan moves from the start of a text. */
  function Advance(f: Matcher, t: string): (d: nat)
    requires t != ""
    ensures 0 < d <= |t|
  {
    if Hits(f, t) then f(t) else 1
  }

  lemma ScanHead(f: Matcher, t: string, values: map<string, string>)
    requires t != ""
    ensures var d := Advance(f, t);
            && Render(Lex(f, t), values)
               == (if Hits(f, t) then (if t[..d] in values then values[t[..d]] else t[..d]) else [t[0]])
                  + Render(Lex(f, t[d..]), values)
            && Tokens(Lex(f, t)) == (if Hits(f, t) then [t[..d]] else []) + Tokens(Lex(f, t[d..]))
  {
    assert Lex(f, t)[1..] == Lex(f, t[Advance(f, t)..]);
  }

  lemma {:induction false} TokensConcat(a: seq<Piece>, b: seq<Piece>)
    ensures Tokens(a + b) == Tokens(a) + Tokens(b)
  {
    if a == [] {
      assert a + b == b;
    } else {
      assert (a + b)[1..] == a[1..] + b;
      TokensConcat(a[1..], b);
    }
  }

  lemma {:induction false} RenderConcat(a: seq<Piece>, b: seq<Piece>, values: map<string, string>)
    ensures Render(a + b, values) == Render(a, values) + Render(b, values)
  {
    if a == [] {
      assert a + b == b;
    } else {
      assert (a + b)[1..] == a[1..] + b;
      RenderConcat(a[1..], b, values);
    }
  }

  /** With no entry for any of its tokens a text is left alone. */
  lemma {:induction false} RenderUnknown(f: Matcher, t: string, values: map<string, string>)
    requires forall m :: m in Tokens(Lex(f, t)) ==> m !in values
    ensures Render(Lex(f, t), values) == t
    decreases |t|
  {
    if t == "" {
    } else if Hits(f, t) {
      var rest := t[f(t)..];
      assert Lex(f, t)[0] == Token(t[..f(t)]) && Lex(f, t)[1..] == Lex(f, rest);
      assert Tokens(Lex(f, t)) == [t[..f(t)]] + Tokens(Lex(f, rest));
      RenderUnknown(f, rest, values);
    } else {
      assert Lex(f, t)[0] == Other(t[0]) && Lex(f, t)[1..] == Lex(f, t[1..]);
      RenderUnknown(f, t[1..], values);
    }
  }

  /** When no match that starts in `g` is changed by what follows, `g` is scanned on its own. */
  lemma {:induction false} LexGap(f: Matcher, g: string, x: string)
    requires forall i :: 0 <= i < |g| ==> f(g[i..]) <= |g| - i && f(g[i..] + x) == f(g[i..])
    ensures Lex(f, g + x) == Lex(f, g) + Lex(f, x)
    decreases |g|
  {
    if g == "" {
      assert g + x == x;
    } else {
      assert g[0..] == g;
      var d := if Hits(f, g) then f(g) else 1;
      assert (g + x)[..d] == g[..d] && (g + x)[d..] == g[d..] + x;
      forall i | 0 <= i < |g[d..]|
        ensures f(g[d..][i..]) <= |g[d..]| - i && f(g[d..][i..] + x) == f(g[d..][i..])
      {
        assert g[d..][i..] == g[d + i..];
      }
      LexGap(f, g[d..], x);
    }
  }

  lemma LexToken(f: Matcher, m: string, x: string)
    requires m != "" && f(m + x) == |m|
    ensures Lex(f, m + x) == [Token(m)] + Lex(f, x)
  {
    assert (m + x)[..|m|] == m && (m + x)[|m|..] == x;
  }

  /** `[(m.start(), m.end()) for m in p.finditer(t)]`, scanning from `at`. */
  function FindIter(f: Matcher, t: string, at: nat): seq<Range>
    requires at <= |t|
    decreases |t| - at
  {
    if at == |t| then []
    else if Hits(f, t[at..]) then [Range(at, at + f(t[at..]))] + FindIter(f, t, at + f(t[at..]))
    else FindIter(f, t, at + 1)
  }

  predicate MatchesAt(f: Matcher, t: string, lo: nat, hi: nat) {
    lo < hi <= |t| && f(t[lo..]) == hi - lo
  }

  lemma {:induction false} FindIterSound(f: Matcher, t: string, at: nat)
    requires at <= |t|
    ensures forall r :: r in FindIter(f, t, at) ==> at <= r.lo && MatchesAt(f, t, r.lo, r.hi)
    decreases |t| - at
  {
    if at < |t| {
      FindIterSound(f, t, if Hits(f, t[at..]) then at + f(t[at..]) else at + 1);
    }
  }

  lemma {:induction false} FindIterOrdered(f: Matcher, t: string, at: nat)
    requires at <= |t|
    ensures forall i, j :: 0 <= i < j < |FindIter(f, t, at)| ==>
              FindIter(f, t, at)[i].hi <= FindIter(f, t, at)[j].lo
    decreases |t| - at
  {
    if at < |t| {
      var next := if Hits(f, t[at..]) then at + f(t[at..]) else at + 1;
      FindIterOrdered(f, t, next);
      FindIterSound(f, t, next);
    }
  }

  /** A match that no earlier match reaches into is found. */
  lemma {:induction false} FindIterComplete(f: Matcher, t: string, at: nat, lo: nat, hi: nat)
    requires at <= lo && MatchesAt(f, t, lo, hi)
    requires forall a :: at <= a < lo && Hits(f, t[a..]) ==> a + f(t[a..]) <= lo
    ensures Range(lo, hi) in FindIter(f, t, at)
    decreases |t| - at
  {
    if at < lo {
      FindIterComplete(f, t, if Hits(f, t[at..]) then at + f(t[at..]) else at + 1, lo, hi);
    }
  }

  /** Every token occurs in the text as a match. */
  lemma {:induction false} TokenOccurs(f: Matcher, t: string, m: string) returns (lo: nat)
    requires m in Tokens(Lex(f, t))
    ensures lo + |m| <= |t| && MatchesAt(f, t, lo, lo + |m|) && t[lo..lo + |m|] == m
    decreases |t|
  {
    if Hits(f, t) && m == t[..f(t)] {
      assert t[0..] == t;
      lo := 0;
    } else {
      var d := if Hits(f, t) then f(t) else 1;
      assert Lex(f, t)[1..] == Lex(f, t[d..]);
      var at := TokenOccurs(f, t[d..], m);
      assert t[d..][at..] == t[d + at..];
      lo := d + at;
    }
  }

  /** Every matched range is spelled among the tokens. */
  lemma FindIterSpells(f: Matcher, t: string)
    ensures forall r :: r in FindIter(f, t, 0) ==> r.lo <= r.hi <= |t| && t[r.lo..r.hi] in Tokens(Lex(f, t))
  {
    assert t[0..] == t;
    FindIterSpellsFrom(f, t, 0);
  }

  lemma {:induction false} FindIterSpellsFrom(f: Matcher, t: string, at: nat)
    requires at <= |t|
    ensures forall r :: r in FindIter(f, t, at) ==> r.lo <= r.hi <= |t| && t[r.lo..r.hi] in Tokens(Lex(f, t[at..]))
    decreases |t| - at
  {
    if at < |t| {
      var d := if Hits(f, t[at..]) then f(t[at..]) else 1;
      FindIterSpellsFrom(f, t, at + d);
      assert t[at..][d..] == t[at + d..] && t[at..][..d] == t[at..at + d];
      assert Lex(f, t[at..])[1..] == Lex(f, t[at + d..]);
    }
  }

  /** A text cut around a range without tokens, at two places no token crosses. */
  ghost predicate Cuts(f: Matcher, t: string, a: nat, lo: nat, hi: nat) {
    && a <= lo <= hi <= |t|
    && Lex(f, t[a..]) == Lex(f, t[a..lo]) + (Lex(f, t[lo..hi]) + Lex(f, t[hi..]))
    && Tokens(Lex(f, t[lo..hi])) == []
  }

  lemma CutTokens(f: Matcher, t: string, a: nat, lo: nat, hi: nat)
    requires Cuts(f, t, a, lo, hi)
    ensures Tokens(Lex(f, t[a..])) == Tokens(Lex(f, t[a..lo])) + Tokens(Lex(f, t[hi..]))
  {
    TokensConcat(Lex(f, t[a..lo]), Lex(f, t[lo..hi]) + Lex(f, t[hi..]));
    TokensConcat(Lex(f, t[lo..hi]), Lex(f, t[hi..]));
  }

  lemma RenderThree(p: seq<Piece>, q: seq<Piece>, r: seq<Piece>, values: map<string, string>)
    ensures Render(p + (q + r), values) == Render(p, values) + Render(q, values) + Render(r, values)
  {
    RenderConcat(p, q + r, values);
    RenderConcat(q, r, values);
  }

  lemma CutRender(f: Matcher, t: string, a: nat, lo: nat, hi: nat, values: map<string, string>)
    requires Cuts(f, t, a, lo, hi)
    ensures Render(Lex(f, t[a..]), values)
            == Render(Lex(f, t[a..lo]), values) + t[lo..hi] + Render(Lex(f, t[hi..]), values)
  {
    RenderThree(Lex(f, t[a..lo]), Lex(f, t[lo..hi]), Lex(f, t[hi..]), values);
    RenderUnknown(f, t[lo..hi], values);
  }
}
