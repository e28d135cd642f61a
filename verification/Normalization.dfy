/** Letter classes, letterwise case mapping and the surname table: an arbitrary alphabet with
    the laws the surname policy relies on. */
module Alphabet {
  import opened Text
  import Markers

  datatype Alphabet = Alphabet(
    fold: char -> char,          // casefold of one letter
    upper: char -> char,         // upper of one letter
    isUpper: char -> bool,       // an upper-case letter
    isCased: char -> bool,       // a letter that has case
    isAlpha: char -> bool,       // str.isalpha
    isWord: char -> bool,        // \w
    isLetter: char -> bool,      // [^\W\d_]
    hints: seq<string>,          // _SURNAME_HINTS
    endings: seq<(string, string)>  // _NOMINATIVE_SUFFIXES: inflected ending, nominative ending
  )

  function Map(f: char -> char, s: string): (r: string)
    ensures |r| == |s| && forall i :: 0 <= i < |s| ==> r[i] == f(s[i])
  {
    seq(|s|, i requires 0 <= i < |s| => f(s[i]))
  }

  function Fold(u: Alphabet, s: string): string { Map(u.fold, s) }

  function Upper(u: Alphabet, s: string): string { Map(u.upper, s) }

  /** `str.isupper()` */
  predicate AllUpper(u: Alphabet, s: string) {
    && (exists i :: 0 <= i < |s| && u.isUpper(s[i]))
    && (forall i :: 0 <= i < |s| && u.isCased(s[i]) ==> u.isUpper(s[i]))
  }

  /** The separators allowed once inside a name: hyphen, apostrophe, right quotation mark. */
  predicate IsJoiner(c: char) { c == '-' || c == '\'' || c == '\U{2019}' }

  predicate IsSmallCyrillic(c: char) { '\U{0430}' <= c <= '\U{044F}' || c == '\U{0451}' }

  predicate IsFixedPunctuation(c: char) { Markers.IsBracket(c) || c == '\r' || c == '\n' || IsJoiner(c) }

  /** What a table of endings must satisfy: no inflected ending looks like a nominative one. */
  predicate GoodEndings(table: seq<(string, string)>) {
    forall k :: 0 <= k < |table| ==> GoodPair(table[k].0, table[k].1)
  }

  predicate GoodPair(e: string, r: string) {
    && |e| >= 2 && |r| >= 2
    && (forall i :: 0 <= i < |e| ==> IsSmallCyrillic(e[i]))
    && (forall i :: 0 <= i < |r| ==> IsSmallCyrillic(r[i]))
    && !NominativeEnd(e[|e| - 2], e[|e| - 1])
    && NominativeEnd(r[|r| - 2], r[|r| - 1])
  }

  /** Nominative endings of the table close in -в, -н or -ий. */
  predicate NominativeEnd(c: char, d: char) {
    d == 'в' || d == 'н' || (c == 'и' && d == 'й')
  }

  /** What the policy needs of letters: folding is a projection, an upper-case or caseless letter
      survives being folded and raised again, letters stay letters, and small Cyrillic letters,
      fixed punctuation and label characters behave as they do in Unicode. */
  ghost predicate Lawful(u: Alphabet) {
    && GoodEndings(u.endings)
    && (forall c {:trigger u.fold(u.fold(c))} :: u.fold(u.fold(c)) == u.fold(c))
    && (forall c {:trigger u.upper(u.fold(c))} ::
          u.isUpper(c) || !u.isCased(c) ==> u.fold(u.upper(u.fold(c))) == u.fold(c))
    && (forall c {:trigger IsSpace(u.fold(c))} :: IsSpace(u.fold(c)) == IsSpace(c))
    && (forall c {:trigger IsSpace(u.upper(c))} :: IsSpace(u.upper(c)) == IsSpace(c))
    && (forall c {:trigger u.isLetter(u.fold(c))} :: u.isLetter(c) ==> u.isLetter(u.fold(c)))
    && (forall c {:trigger u.isLetter(u.upper(c))} :: u.isLetter(c) ==> u.isLetter(u.upper(c)))
    && (forall c {:trigger u.isLetter(c)} :: u.isLetter(c) ==> !IsSpace(c) && !IsFixedPunctuation(c))
    && (forall c {:trigger IsSmallCyrillic(c)} ::
          IsSmallCyrillic(c) ==> u.isLetter(c) && u.fold(c) == u.fold(u.upper(c)) == c)
    && (forall c {:trigger IsFixedPunctuation(c)} :: IsFixedPunctuation(c) ==> u.fold(c) == u.upper(c) == c)
    && (forall c {:trigger IsFixedPunctuation(u.fold(c))} :: IsFixedPunctuation(u.fold(c)) ==> u.fold(c) == c)
    && (forall c {:trigger Markers.IsLabelChar(c)} :: Markers.IsLabelChar(c) ==> u.upper(c) == c)
  }
}

/** Surname-level identity of PER values. */
module Surnames {
  import opened Text
  import opened Scanner
  import opened Alphabet

  predicate EndsWith(s: string, e: string) {
    |e| <= |s| && s[|s| - |e|..] == e
  }

  function RestoreCase(u: Alphabet, source: string, normalized: string): string {
    if AllUpper(u, source) then Upper(u, normalized)
    else if source != "" && u.isUpper(source[0]) && normalized != "" then
      [u.upper(normalized[0])] + normalized[1..]
    else normalized
  }

  predicate Applies(u: Alphabet, folded: string, k: nat)
    requires k < |u.endings|
  {
    EndsWith(folded, u.endings[k].0) && |folded| > |u.endings[k].0| + 1
  }

  /** Index of the first ending that applies, from `k` on; `|u.endings|` when none does. */
  function FirstSuffix(u: Alphabet, folded: string, k: nat): (r: nat)
    requires k <= |u.endings|
    ensures k <= r <= |u.endings|
    ensures r < |u.endings| ==> Applies(u, folded, r)
    decreases |u.endings| - k
  {
    if k == |u.endings| || Applies(u, folded, k) then k else FirstSuffix(u, folded, k + 1)
  }

  /** The folded nominative form that replaces the ending of `value`. */
  function Nominative(u: Alphabet, folded: string, k: nat): string
    requires k < |u.endings| && Applies(u, folded, k)
  {
    folded[..|folded| - |u.endings[k].0|] + u.endings[k].1
  }

  function NormalizeSurname(u: Alphabet, surname: string): string {
    NormalizeTrimmed(u, Strip(surname))
  }

  function NormalizeTrimmed(u: Alphabet, value: string): string {
    var folded := Fold(u, value);
    var k := FirstSuffix(u, folded, 0);
    if k < |u.endings| then
      RestoreCase(u, value, Nominative(u, folded, k))
    else value
  }

  // ---- normalization is a projection ----

  lemma LastTwo(s: string, e: string)
    requires |e| >= 2
    ensures EndsWith(s, e) ==> s[|s| - 2] == e[|e| - 2] && s[|s| - 1] == e[|e| - 1]
  {
    if EndsWith(s, e) {
      assert s[|s| - |e|..][|e| - 2] == s[|s| - 2] && s[|s| - |e|..][|e| - 1] == s[|s| - 1];
    }
  }

  lemma NoSuffixOnNominative(u: Alphabet, folded: string, k: nat)
    requires GoodEndings(u.endings) && k < |u.endings| && EndsWith(folded, u.endings[k].1)
    ensures FirstSuffix(u, folded, 0) == |u.endings|
  {
    LastTwo(folded, u.endings[k].1);
    forall j | 0 <= j < |u.endings| ensures !Applies(u, folded, j) {
      LastTwo(folded, u.endings[j].0);
    }
  }

  /** Every letter is a folded letter of the source at its place, or a small Cyrillic one. */
  predicate Raisable(u: Alphabet, source: string, normalized: string) {
    && (source != "" && normalized != "" ==> normalized[0] == u.fold(source[0]))
    && forall i :: 0 <= i < |normalized| ==>
         IsSmallCyrillic(normalized[i]) || (i < |source| && normalized[i] == u.fold(source[i]))
  }

  lemma FoldOfRestoreCase(u: Alphabet, source: string, normalized: string)
    requires Lawful(u) && Raisable(u, source, normalized) && Fold(u, normalized) == normalized
    ensures Fold(u, RestoreCase(u, source, normalized)) == normalized
  {
    var r := RestoreCase(u, source, normalized);
    assert |r| == |normalized|;
    forall i | 0 <= i < |r| ensures u.fold(r[i]) == normalized[i] {
      assert Fold(u, normalized)[i] == normalized[i];
      if i < |source| && normalized[i] == u.fold(source[i]) {
        assert u.isUpper(source[i]) || !u.isCased(source[i]) ==> u.fold(u.upper(normalized[i])) == normalized[i];
      }
    }
    assert Fold(u, r) == normalized;
  }

  lemma NominativeIsFolded(u: Alphabet, value: string, k: nat)
    requires Lawful(u) && k < |u.endings| && Applies(u, Fold(u, value), k)
    ensures Fold(u, Nominative(u, Fold(u, value), k)) == Nominative(u, Fold(u, value), k)
    ensures Raisable(u, value, Nominative(u, Fold(u, value), k))
  {
    var n := Nominative(u, Fold(u, value), k);
    var e := u.endings[k].1;
    assert GoodPair(u.endings[k].0, u.endings[k].1);
    forall i | 0 <= i < |n| ensures u.fold(n[i]) == n[i] {
      if i >= |n| - |e| {
        assert n[i] == e[i - (|n| - |e|)];
      }
    }
  }

  lemma NormalizeIdempotent(u: Alphabet, s: string)
    requires Lawful(u)
    ensures NormalizeSurname(u, NormalizeSurname(u, s)) == NormalizeSurname(u, s)
  {
    StripIsTrimmed(s);
    NormalForm(u, Strip(s));
  }

  /** What normalization returns is trimmed and has no ending left to replace. */
  lemma NormalForm(u: Alphabet, value: string)
    requires Lawful(u)
    requires value == "" || (!IsSpace(value[0]) && !IsSpace(value[|value| - 1]))
    ensures var r := NormalizeTrimmed(u, value); Strip(r) == r && NormalizeTrimmed(u, r) == r
  {
    var k := FirstSuffix(u, Fold(u, value), 0);
    if k < |u.endings| {
      NominativeFixed(u, value, k);
    } else {
      StripTrimmed(value);
    }
  }

  lemma NominativeFixed(u: Alphabet, value: string, k: nat)
    requires Lawful(u) && k < |u.endings| && Applies(u, Fold(u, value), k)
    requires !IsSpace(value[0])
    ensures var r := RestoreCase(u, value, Nominative(u, Fold(u, value), k));
            Strip(r) == r && NormalizeTrimmed(u, r) == r
  {
    var n := Nominative(u, Fold(u, value), k);
    var r := RestoreCase(u, value, n);
    NominativeIsFolded(u, value, k);
    FoldOfRestoreCase(u, value, n);
    NominativeTrimmed(u, value, k);
    StripTrimmed(r);
    assert EndsWith(n, u.endings[k].1);
    NoSuffixOnNominative(u, n, k);
  }

  /** Ending `k` closes the folded value with more than one letter before it, and no earlier
      ending does. */
  predicate LeastEnding(u: Alphabet, folded: string, k: nat) {
    && k < |u.endings|
    && Closes(folded, u.endings[k].0)
    && forall j :: 0 <= j < k ==> !Closes(folded, u.endings[j].0)
  }

  predicate Closes(folded: string, e: string) {
    |folded| >= |e| + 2 && folded[|folded| - |e|..] == e
  }

  lemma {:induction false} FirstSuffixIs(u: Alphabet, folded: string, k: nat)
    requires k <= |u.endings|
    ensures forall j :: k <= j < FirstSuffix(u, folded, k) ==> !Closes(folded, u.endings[j].0)
    ensures FirstSuffix(u, folded, k) < |u.endings| ==> Closes(folded, u.endings[FirstSuffix(u, folded, k)].0)
    decreases |u.endings| - k
  {
    if k < |u.endings| && !Applies(u, folded, k) {
      FirstSuffixIs(u, folded, k + 1);
    }
  }

  /** The folded value with ending `k` replaced by its nominative one. */
  function Replaced(u: Alphabet, folded: string, k: nat): string
    requires k < |u.endings| && |folded| >= |u.endings[k].0|
  {
    folded[..|folded| - |u.endings[k].0|] + u.endings[k].1
  }

  lemma LeastIsFirst(u: Alphabet, folded: string, k: nat)
    requires LeastEnding(u, folded, k)
    ensures k < |u.endings| && |folded| >= |u.endings[k].0| + 2
    ensures FirstSuffix(u, folded, 0) == k && Applies(u, folded, k)
    ensures Nominative(u, folded, k) == Replaced(u, folded, k)
  {
    FirstSuffixIs(u, folded, 0);
  }

  /** What normalization computes: the first listed ending that closes the folded value gives way
      to its nominative one. */
  lemma NormalizedIs(u: Alphabet, surname: string, k: nat)
    requires Lawful(u) && LeastEnding(u, Fold(u, Strip(surname)), k)
    ensures Fold(u, NormalizeSurname(u, surname)) == Replaced(u, Fold(u, Strip(surname)), k)
  {
    hide LeastEnding, Strip, Fold, RestoreCase, Nominative, Raisable, Replaced;
    var v := Strip(surname);
    var f := Fold(u, v);
    LeastIsFirst(u, f, k);
    NominativeIsFolded(u, v, k);
    FoldOfRestoreCase(u, v, Nominative(u, f, k));
  }

  /** A value all in upper case stays so; of any other only the case of its first letter is kept. */
  lemma NormalizedCase(u: Alphabet, surname: string, k: nat, i: nat)
    requires LeastEnding(u, Fold(u, Strip(surname)), k) && i < |NormalizeSurname(u, surname)|
    ensures var v, r := Strip(surname), NormalizeSurname(u, surname);
            var n := Replaced(u, Fold(u, v), k);
            && v != "" && |r| == |n|
            && r[i] == if AllUpper(u, v) || (i == 0 && u.isUpper(v[0])) then u.upper(n[i]) else n[i]
  {
    hide LeastEnding, Strip, AllUpper, Nominative, Replaced;
    LeastIsFirst(u, Fold(u, Strip(surname)), k);
  }

  /** A value that no listed ending closes is only stripped. */
  lemma NothingReplaced(u: Alphabet, surname: string)
    requires forall j :: 0 <= j < |u.endings| ==> !Closes(Fold(u, Strip(surname)), u.endings[j].0)
    ensures NormalizeSurname(u, surname) == Strip(surname)
  {
    FirstSuffixIs(u, Fold(u, Strip(surname)), 0);
  }

  /** Restoring letter case turns no visible character into white space. */
  lemma CaseKeepsSpace(u: Alphabet, source: string, normalized: string, i: nat)
    requires Lawful(u) && i < |normalized|
    ensures |RestoreCase(u, source, normalized)| == |normalized|
    ensures IsSpace(RestoreCase(u, source, normalized)[i]) <==> IsSpace(normalized[i])
  {
    hide IsSpace, AllUpper;
    assert IsSpace(u.upper(normalized[i])) == IsSpace(normalized[i]);
  }

  lemma NominativeEnds(u: Alphabet, value: string, k: nat)
    requires Lawful(u) && k < |u.endings| && Applies(u, Fold(u, value), k)
    requires !IsSpace(value[0])
    ensures var n := Nominative(u, Fold(u, value), k);
            n != "" && !IsSpace(n[0]) && !IsSpace(n[|n| - 1])
  {
    var n := Nominative(u, Fold(u, value), k);
    var e := u.endings[k].1;
    assert GoodPair(u.endings[k].0, u.endings[k].1);
    assert n[0] == u.fold(value[0]);
    assert n[|n| - 1] == e[|e| - 1] && u.isLetter(e[|e| - 1]);
  }

  lemma NominativeTrimmed(u: Alphabet, value: string, k: nat)
    requires Lawful(u) && k < |u.endings| && Applies(u, Fold(u, value), k)
    requires !IsSpace(value[0])
    ensures var r := RestoreCase(u, value, Nominative(u, Fold(u, value), k));
            r != "" && !IsSpace(r[0]) && !IsSpace(r[|r| - 1])
  {
    hide Lawful, RestoreCase, Nominative, IsSpace;
    var n := Nominative(u, Fold(u, value), k);
    NominativeEnds(u, value, k);
    CaseKeepsSpace(u, value, n, 0);
    CaseKeepsSpace(u, value, n, |n| - 1);
  }

  // ---- words of a PER span ----

  function LetterRun(u: Alphabet, t: string): (n: nat)
    ensures n <= |t|
    ensures forall i :: 0 <= i < n ==> u.isLetter(t[i])
    ensures n < |t| ==> !u.isLetter(t[n])
  {
    if t == "" || !u.isLetter(t[0]) then 0 else 1 + LetterRun(u, t[1..])
  }

  /** `[^\W\d_]+(?:[-'’][^\W\d_]+)?` anchored at the start of `t`. */
  function WordLen(u: Alphabet, t: string): (n: nat)
    ensures n <= |t|
  {
    var a := LetterRun(u, t);
    if a > 0 && a + 1 < |t| && IsJoiner(t[a]) && u.isLetter(t[a + 1]) then
      a + 1 + LetterRun(u, t[a + 1..])
    else a
  }

  function WordMatcher(u: Alphabet): Matcher {
    (t: string) => WordLen(u, t)
  }

  /** `_WORD_RE.findall(value)` */
  function Words(u: Alphabet, value: string): seq<string> {
    Tokens(Lex(WordMatcher(u), value))
  }

  /** Letters, optionally one joiner followed by letters; `k` is the length of the first run. */
  predicate WordShape(u: Alphabet, w: string, k: nat) {
    && 0 < k <= |w|
    && (forall i :: 0 <= i < k ==> u.isLetter(w[i]))
    && (k < |w| ==> IsJoiner(w[k]) && k + 1 < |w| && forall i :: k < i < |w| ==> u.isLetter(w[i]))
  }

  lemma {:induction false} LetterRunIs(u: Alphabet, t: string, n: nat)
    requires n <= |t|
    requires forall i :: 0 <= i < n ==> u.isLetter(t[i])
    requires n < |t| ==> !u.isLetter(t[n])
    ensures LetterRun(u, t) == n
  {
  }

  lemma WordShapeMatches(u: Alphabet, w: string, k: nat)
    requires Lawful(u) && WordShape(u, w, k)
    ensures WordLen(u, w) == |w|
    ensures Words(u, w) == [w]
  {
    LetterRunIs(u, w, k);
    if k < |w| {
      LetterRunIs(u, w[k + 1..], |w| - k - 1);
    }
    assert w + "" == w;
    LexToken(WordMatcher(u), w, "");
    assert Tokens([Token(w)]) == [w];
  }

  /** What is a word at the start of a text: as many letters as there are, and when a hyphen, an
      apostrophe or a right quotation mark and a letter follow, those and the letters after. */
  lemma WordLenIs(u: Alphabet, t: string)
    ensures var a := LetterRun(u, t);
            var joined := a > 0 && a + 1 < |t| && t[a] in {'-', '\'', '\U{2019}'} && u.isLetter(t[a + 1]);
            var n := WordLen(u, t);
            && (forall i :: 0 <= i < a ==> u.isLetter(t[i])) && (a < |t| ==> !u.isLetter(t[a]))
            && (!joined ==> n == a)
            && (joined ==>
                  && n > a + 1 && (forall i :: a < i < n ==> u.isLetter(t[i])) && (n < |t| ==> !u.isLetter(t[n])))
  {
    hide LetterRun;
    var a := LetterRun(u, t);
    if a > 0 && a + 1 < |t| && IsJoiner(t[a]) && u.isLetter(t[a + 1]) {
      var rest := t[a + 1..];
      var m := LetterRun(u, rest);
      LetterRunPositive(u, rest);
      forall i | a < i < a + 1 + m ensures u.isLetter(t[i]) {
        assert t[i] == rest[i - a - 1];
      }
      assert m < |rest| ==> t[a + 1 + m] == rest[m];
    }
  }

  lemma WordMatchShape(u: Alphabet, t: string)
    requires WordLen(u, t) > 0
    ensures WordShape(u, t[..WordLen(u, t)], LetterRun(u, t))
  {
    var a, n := LetterRun(u, t), WordLen(u, t);
    forall i | a < i < n ensures u.isLetter(t[i]) {
      assert t[i] == t[a + 1..][i - a - 1];
    }
    if a < n {
      LetterRunPositive(u, t[a + 1..]);
    }
  }

  lemma LetterRunPositive(u: Alphabet, t: string)
    requires t != "" && u.isLetter(t[0])
    ensures LetterRun(u, t) > 0
  {
  }

  /** Every word of a text has the shape of one. */
  lemma WordsShaped(u: Alphabet, value: string, w: string) returns (k: nat)
    requires w in Words(u, value)
    ensures WordShape(u, w, k)
  {
    var lo := TokenOccurs(WordMatcher(u), value, w);
    WordMatchShape(u, value[lo..]);
    assert value[lo..][..|w|] == w;
    k := LetterRun(u, value[lo..]);
  }

  // ---- canonical, display and identity values ----

  predicate LooksLikeSurname(u: Alphabet, token: string) {
    var folded := Fold(u, token);
    |folded| >= 4 &&
    ((exists k :: 0 <= k < |u.hints| && EndsWith(folded, u.hints[k]))
     || (exists k :: 0 <= k < |u.endings| && EndsWith(folded, u.endings[k].0)))
  }

  /** The first surname-like token, else the first longer than a letter, else the first. */
  function PickSurname(u: Alphabet, tokens: seq<string>): (w: string)
    requires tokens != []
    ensures w in tokens
  {
    var i := FirstLike(u, tokens, 0);
    if i < |tokens| then tokens[i]
    else
      var j := FirstLong(tokens, 0);
      if j < |tokens| then tokens[j] else tokens[0]
  }

  function FirstLike(u: Alphabet, tokens: seq<string>, i: nat): (r: nat)
    requires i <= |tokens|
    ensures i <= r <= |tokens|
    decreases |tokens| - i
  {
    if i == |tokens| || LooksLikeSurname(u, tokens[i]) then i else FirstLike(u, tokens, i + 1)
  }

  function FirstLong(tokens: seq<string>, i: nat): (r: nat)
    requires i <= |tokens|
    ensures i <= r <= |tokens|
    decreases |tokens| - i
  {
    if i == |tokens| || |tokens[i]| > 1 then i else FirstLong(tokens, i + 1)
  }

  /** At least four letters, ending in a hint or in an inflected ending. */
  predicate SurnameLike(u: Alphabet, token: string) {
    var n := |token|;
    && n >= 4
    && ((exists k :: 0 <= k < |u.hints| && |u.hints[k]| <= n && Fold(u, token)[n - |u.hints[k]|..] == u.hints[k])
        || (exists k :: 0 <= k < |u.endings| && |u.endings[k].0| <= n
                        && Fold(u, token)[n - |u.endings[k].0|..] == u.endings[k].0))
  }

  /** Token `i` is the first surname-like one; failing that the first longer than a letter; failing
      that the first. */
  predicate Chosen(u: Alphabet, tokens: seq<string>, i: nat) {
    && i < |tokens|
    && if exists j :: 0 <= j < |tokens| && SurnameLike(u, tokens[j]) then
         SurnameLike(u, tokens[i]) && forall j :: 0 <= j < i ==> !SurnameLike(u, tokens[j])
       else if exists j :: 0 <= j < |tokens| && |tokens[j]| > 1 then
         |tokens[i]| > 1 && forall j :: 0 <= j < i ==> |tokens[j]| <= 1
       else i == 0
  }

  lemma {:induction false} FirstLikeIs(u: Alphabet, tokens: seq<string>, i: nat)
    requires i <= |tokens|
    ensures var r := FirstLike(u, tokens, i);
            && (r < |tokens| ==> SurnameLike(u, tokens[r]))
            && forall j :: i <= j < r ==> !SurnameLike(u, tokens[j])
    decreases |tokens| - i
  {
    if i < |tokens| && !LooksLikeSurname(u, tokens[i]) {
      FirstLikeIs(u, tokens, i + 1);
    }
  }

  lemma {:induction false} FirstLongIs(tokens: seq<string>, i: nat)
    requires i <= |tokens|
    ensures var r := FirstLong(tokens, i);
            && (r < |tokens| ==> |tokens[r]| > 1)
            && forall j :: i <= j < r ==> |tokens[j]| <= 1
    decreases |tokens| - i
  {
    if i < |tokens| && |tokens[i]| <= 1 {
      FirstLongIs(tokens, i + 1);
    }
  }

  /** The canonical value of a person is the normal form of the chosen word, or the stripped value
      when there is no word. */
  lemma CanonicalIs(u: Alphabet, value: string) returns (i: nat)
    ensures Words(u, value) == [] ==> CanonicalPerson(u, value) == Strip(value)
    ensures Words(u, value) != [] ==>
              Chosen(u, Words(u, value), i) && CanonicalPerson(u, value) == NormalizeSurname(u, Words(u, value)[i])
  {
    hide LooksLikeSurname, SurnameLike, Words;
    var tokens := Words(u, value);
    if tokens != [] {
      FirstLikeIs(u, tokens, 0);
      FirstLongIs(tokens, 0);
      var like, long := FirstLike(u, tokens, 0), FirstLong(tokens, 0);
      i := if like < |tokens| then like else if long < |tokens| then long else 0;
    } else {
      i := 0;
    }
  }

  /** Only one token is the chosen one. */
  lemma ChosenUnique(u: Alphabet, tokens: seq<string>, i: nat, j: nat)
    requires Chosen(u, tokens, i) && Chosen(u, tokens, j)
    ensures i == j
  {
    hide SurnameLike;
  }

  function CanonicalPerson(u: Alphabet, value: string): string {
    var tokens := Words(u, value);
    if tokens == [] then Strip(value) else NormalizeSurname(u, PickSurname(u, tokens))
  }

  predicate IsPerson(u: Alphabet, tag: string) {
    Upper(u, tag) in {"PER", "PERSON", "PERS"}
  }

  function CanonicalValue(u: Alphabet, tag: string, value: string): string {
    if IsPerson(u, tag) then CanonicalPerson(u, value) else value
  }

  function DisplayValue(u: Alphabet, tag: string, value: string): string {
    if IsPerson(u, tag) then
      var tokens := Words(u, value);
      if |tokens| == 1 then NormalizeSurname(u, tokens[0]) else value
    else value
  }

  function IdentityKey(u: Alphabet, tag: string, value: string): (string, string) {
    var canonical := CanonicalValue(u, tag, value);
    (Upper(u, tag), if IsPerson(u, tag) then Fold(u, canonical) else canonical)
  }

  /** A normalized word is again one word, and is its own normal form. */
  lemma NormalizedWord(u: Alphabet, w: string, k: nat)
    requires Lawful(u) && WordShape(u, w, k)
    ensures var n := NormalizeSurname(u, w);
            Words(u, n) == [n] && NormalizeSurname(u, n) == n
  {
    assert IsSpace(w[0]) ==> false;
    assert !IsSpace(w[|w| - 1]);
    StripTrimmed(w);
    NormalizeIdempotent(u, w);
    var folded := Fold(u, w);
    var i := FirstSuffix(u, folded, 0);
    if i < |u.endings| {
      NominativeShape(u, w, k, i);
    } else {
      WordShapeMatches(u, w, k);
    }
  }

  lemma NominativeShape(u: Alphabet, w: string, k: nat, i: nat)
    requires Lawful(u) && WordShape(u, w, k) && i < |u.endings| && Applies(u, Fold(u, w), i)
    ensures var n := RestoreCase(u, w, Nominative(u, Fold(u, w), i));
            Words(u, n) == [n]
  {
    var m := Nominative(u, Fold(u, w), i);
    var n := RestoreCase(u, w, m);
    var k' := if k < |w| then k else |m|;
    NominativeLetters(u, w, k, i);
    assert k < |w| ==> IsFixedPunctuation(w[k]);
    forall j | 0 <= j < |n| && j != k' ensures u.isLetter(n[j]) {
      assert u.isLetter(m[j]);
    }
    WordShapeMatches(u, n, k');
  }

  /** Replacing the ending leaves the joiner in place and everything else a letter. */
  lemma NominativeLetters(u: Alphabet, w: string, k: nat, i: nat)
    requires Lawful(u) && WordShape(u, w, k) && i < |u.endings| && Applies(u, Fold(u, w), i)
    ensures var m := Nominative(u, Fold(u, w), i);
            && |m| > 1
            && (forall j :: 0 <= j < |m| && (k == |w| || j != k) ==> u.isLetter(m[j]))
            && (k < |w| ==> k + 1 < |m| && m[k] == w[k])
  {
    assert GoodPair(u.endings[i].0, u.endings[i].1);
    var folded, e, r := Fold(u, w), u.endings[i].0, u.endings[i].1;
    var base := |w| - |e|;
    var m := Nominative(u, folded, i);
    forall j | base <= j < |w| ensures u.isLetter(folded[j]) {
      assert folded[j] == e[j - base];
    }
    if k < |w| {
      assert IsFixedPunctuation(w[k]);
      assert folded[k] == w[k] && k < base;
    }
    forall j | 0 <= j < |m| && (k == |w| || j != k) ensures u.isLetter(m[j]) {
      if j >= base {
        assert m[j] == r[j - base];
      }
    }
  }

  lemma SingleWordCanonical(u: Alphabet, n: string)
    requires Words(u, n) == [n]
    ensures CanonicalPerson(u, n) == NormalizeSurname(u, n)
  {
  }

  lemma CanonicalFixed(u: Alphabet, value: string)
    requires Lawful(u)
    ensures CanonicalPerson(u, CanonicalPerson(u, value)) == CanonicalPerson(u, value)
  {
    var tokens := Words(u, value);
    if tokens == [] {
      StripIsTrimmed(value);
      StripTrimmed(Strip(value));
      NoWordsInStripped(u, value);
    } else {
      var w := PickSurname(u, tokens);
      var k := WordsShaped(u, value, w);
      NormalizedWord(u, w, k);
      SingleWordCanonical(u, NormalizeSurname(u, w));
    }
  }

  lemma NoWordsInStripped(u: Alphabet, value: string)
    requires Words(u, value) == []
    ensures Words(u, Strip(value)) == []
  {
    WordsNeedLetters(u, value);
    var lo := StripIsSlice(value);
    WordsNeedLetters(u, Strip(value));
  }

  lemma {:induction false} WordsNeedLetters(u: Alphabet, t: string)
    ensures Words(u, t) == [] <==> forall i :: 0 <= i < |t| ==> !u.isLetter(t[i])
    decreases |t|
  {
    var f := WordMatcher(u);
    if t == "" {
    } else if u.isLetter(t[0]) {
      LetterRunPositive(u, t);
      assert Lex(f, t)[0] == Token(t[..f(t)]);
    } else {
      assert Lex(f, t)[1..] == Lex(f, t[1..]);
      WordsNeedLetters(u, t[1..]);
      assert forall i :: 0 < i < |t| ==> t[i] == t[1..][i - 1];
    }
  }

  /** A stem with an inflected ending and with its nominative one have one canonical value, up to
      letter case. */
  lemma InflectedCanonical(u: Alphabet, stem: string, k: nat)
    requires Lawful(u) && k < |u.endings|
    requires var w := stem + u.endings[k].0; LeastEnding(u, Fold(u, w), k) && exists n :: WordShape(u, w, n)
    requires exists n :: WordShape(u, stem + u.endings[k].1, n)
    ensures var w, w' := stem + u.endings[k].0, stem + u.endings[k].1;
            Fold(u, CanonicalPerson(u, w)) == Fold(u, CanonicalPerson(u, w')) == Fold(u, w')
  {
    hide LeastEnding, WordShape, Lawful, Fold, Strip, CanonicalPerson, NormalizeSurname, Closes;
    var e, r := u.endings[k].0, u.endings[k].1;
    var w, w' := stem + e, stem + r;
    SingleWordIs(u, w);
    SingleWordIs(u, w');
    EndingsFolded(u, stem, k);
    NormalizedIs(u, w, k);
    NothingCloses(u, stem, k);
    NothingReplaced(u, w');
  }

  lemma SingleWordIs(u: Alphabet, w: string)
    requires Lawful(u) && exists n :: WordShape(u, w, n)
    ensures Strip(w) == w && CanonicalPerson(u, w) == NormalizeSurname(u, w)
  {
    var n :| WordShape(u, w, n);
    WordShapeMatches(u, w, n);
    SingleWordCanonical(u, w);
    assert u.isLetter(w[0]) && u.isLetter(w[|w| - 1]);
    StripTrimmed(w);
  }

  lemma EndingsFolded(u: Alphabet, stem: string, k: nat)
    requires Lawful(u) && k < |u.endings|
    ensures Fold(u, stem + u.endings[k].0) == Fold(u, stem) + u.endings[k].0
    ensures Fold(u, stem + u.endings[k].1) == Fold(u, stem) + u.endings[k].1
  {
    assert GoodPair(u.endings[k].0, u.endings[k].1);
  }

  lemma NothingCloses(u: Alphabet, stem: string, k: nat)
    requires Lawful(u) && k < |u.endings|
    ensures forall j :: 0 <= j < |u.endings| ==> !Closes(Fold(u, stem + u.endings[k].1), u.endings[j].0)
  {
    var folded := Fold(u, stem + u.endings[k].1);
    EndingsFolded(u, stem, k);
    assert EndsWith(folded, u.endings[k].1);
    assert GoodPair(u.endings[k].0, u.endings[k].1);
    LastTwo(folded, u.endings[k].1);
    forall j | 0 <= j < |u.endings| ensures !Closes(folded, u.endings[j].0) {
      assert GoodPair(u.endings[j].0, u.endings[j].1);
      LastTwo(folded, u.endings[j].0);
    }
  }

  lemma DisplayIsSurfaceOrCanonical(u: Alphabet, tag: string, value: string)
    requires IsPerson(u, tag)
    ensures DisplayValue(u, tag, value) == value || DisplayValue(u, tag, value) == CanonicalPerson(u, value)
  {
    var tokens := Words(u, value);
    if |tokens| == 1 {
      assert PickSurname(u, tokens) == tokens[0];
    }
  }

  /** Marking a PER surface form, its canonical form or its display form uses one identity. */
  lemma IdentityFixed(u: Alphabet, tag: string, value: string)
    requires Lawful(u)
    ensures IdentityKey(u, tag, CanonicalValue(u, tag, value)) == IdentityKey(u, tag, value)
    ensures IdentityKey(u, tag, DisplayValue(u, tag, value)) == IdentityKey(u, tag, value)
  {
    if IsPerson(u, tag) {
      var c := CanonicalPerson(u, value);
      assert CanonicalValue(u, tag, c) == c by { CanonicalFixed(u, value); }
      DisplayIsSurfaceOrCanonical(u, tag, value);
    } else {
      assert CanonicalValue(u, tag, value) == value == DisplayValue(u, tag, value);
    }
  }
}

/** The shipped tables. */
module Russian {
  import opened Text
  import opened Alphabet
  import Markers

  const HINTS: seq<string> := [
    "ов", "ев", "ёв", "ин", "ын", "ский", "цкий", "ской", "цкой", "ова", "ева",
    "ёва", "ина", "ына", "енко", "чук", "ук", "юк", "ян", "дзе", "ых", "их"
  ]

  // The suffix table in its own order, in rows of at most ten.

  const OV_1: seq<(string, string)> := [
    ("евыми", "ев"), ("ёвыми", "ёв"), ("овыми", "ов"), ("евых", "ев"), ("ёвых", "ёв"),
    ("овых", "ов"), ("евы", "ев"), ("ёвы", "ёв"), ("овы", "ов"), ("евому", "ев") ]

  const OV_2: seq<(string, string)> := [
    ("ёвому", "ёв"), ("овому", "ов"), ("овами", "ов"), ("евого", "ев"), ("ёвого", "ёв"),
    ("ового", "ов"), ("евым", "ев"), ("ёвым", "ёв"), ("овым", "ов"), ("евую", "ев") ]

  const OV_3: seq<(string, string)> := [
    ("ёвую", "ёв"), ("овую", "ов"), ("евой", "ев"), ("ёвой", "ёв"), ("овой", "ов"),
    ("еву", "ев"), ("ёву", "ёв"), ("ову", "ов"), ("еве", "ев"), ("ёве", "ёв") ]

  const OV_4: seq<(string, string)> := [
    ("ове", "ов"), ("евом", "ев"), ("ёвом", "ёв"), ("овом", "ов"), ("ева", "ев"),
    ("ёва", "ёв"), ("ова", "ов") ]

  const IN_1: seq<(string, string)> := [
    ("иными", "ин"), ("ыными", "ын"), ("иному", "ин"), ("ыному", "ын"), ("иного", "ин"),
    ("ыного", "ын"), ("иным", "ин"), ("ыным", "ын"), ("иную", "ин"), ("ыную", "ын") ]

  const IN_2: seq<(string, string)> := [
    ("иной", "ин"), ("ыной", "ын"), ("ину", "ин"), ("ыну", "ын"), ("ине", "ин"),
    ("ыне", "ын"), ("ином", "ин"), ("ыном", "ын"), ("ина", "ин"), ("ына", "ын") ]

  const SKY_1: seq<(string, string)> := [
    ("скими", "ский"), ("цкими", "цкий"), ("скому", "ский"), ("цкому", "цкий"), ("ского", "ский"),
    ("цкого", "цкий"), ("ским", "ский"), ("цким", "цкий"), ("скую", "ский"), ("цкую", "цкий") ]

  const SKY_2: seq<(string, string)> := [
    ("ской", "ский"), ("цкой", "цкий"), ("ском", "ский"), ("цком", "цкий"), ("ская", "ский"),
    ("цкая", "цкий"), ("ские", "ский"), ("цкие", "цкий") ]

  /** Inflected ending and the nominative ending that replaces it, tried in this order. */
  const SUFFIXES: seq<(string, string)> :=
    OV_1 + OV_2 + OV_3 + OV_4 + IN_1 + IN_2 + SKY_1 + SKY_2

  lemma GoodOV1(e: string, r: string) requires (e, r) in OV_1 ensures GoodPair(e, r) { }
  lemma GoodOV2(e: string, r: string) requires (e, r) in OV_2 ensures GoodPair(e, r) { }
  lemma GoodOV3(e: string, r: string) requires (e, r) in OV_3 ensures GoodPair(e, r) { }
  lemma GoodOV4(e: string, r: string) requires (e, r) in OV_4 ensures GoodPair(e, r) { }
  lemma GoodIN1(e: string, r: string) requires (e, r) in IN_1 ensures GoodPair(e, r) { }
  lemma GoodIN2(e: string, r: string) requires (e, r) in IN_2 ensures GoodPair(e, r) { }
  lemma GoodSKY1(e: string, r: string) requires (e, r) in SKY_1 ensures GoodPair(e, r) { }
  lemma GoodSKY2(e: string, r: string) requires (e, r) in SKY_2 ensures GoodPair(e, r) { }

  lemma ShippedEndingsAreGood()
    ensures GoodEndings(SUFFIXES)
  {
    forall k | 0 <= k < |SUFFIXES| ensures GoodPair(SUFFIXES[k].0, SUFFIXES[k].1) {
      ShippedPairIsGood(SUFFIXES[k].0, SUFFIXES[k].1);
    }
  }

  lemma ShippedPairIsGood(e: string, r: string)
    requires (e, r) in SUFFIXES
    ensures GoodPair(e, r)
  {
    if (e, r) in OV_1 { GoodOV1(e, r); }
    else if (e, r) in OV_2 { GoodOV2(e, r); }
    else if (e, r) in OV_3 { GoodOV3(e, r); }
    else if (e, r) in OV_4 { GoodOV4(e, r); }
    else if (e, r) in IN_1 { GoodIN1(e, r); }
    else if (e, r) in IN_2 { GoodIN2(e, r); }
    else if (e, r) in SKY_1 { GoodSKY1(e, r); }
    else if (e, r) in SKY_2 { GoodSKY2(e, r); }
  }

  // ---- an alphabet with these tables ----

  predicate IsSmallLatin(c: char) { 'a' <= c <= 'z' }

  predicate IsGreatLatin(c: char) { 'A' <= c <= 'Z' }

  predicate IsGreatCyrillic(c: char) { '\U{0410}' <= c <= '\U{042F}' || c == '\U{0401}' }

  function FoldLetter(c: char): char {
    if IsGreatLatin(c) || '\U{0410}' <= c <= '\U{042F}' then (c as int + 0x20) as char
    else if c == '\U{0401}' then '\U{0451}'
    else c
  }

  function UpperLetter(c: char): char {
    if IsSmallLatin(c) || '\U{0430}' <= c <= '\U{044F}' then (c as int - 0x20) as char
    else if c == '\U{0451}' then '\U{0401}'
    else c
  }

  predicate IsGreat(c: char) { IsGreatLatin(c) || IsGreatCyrillic(c) }

  predicate IsEither(c: char) { IsGreat(c) || IsSmallLatin(c) || IsSmallCyrillic(c) }

  predicate IsWordChar(c: char) { IsEither(c) || '0' <= c <= '9' || c == '_' }

  /** The Latin and Russian letters with the shipped tables. */
  function Letters(): Alphabet {
    Alphabet(FoldLetter, UpperLetter, IsGreat, IsEither, IsEither, IsWordChar, IsEither, HINTS, SUFFIXES)
  }

  lemma CaseOfLetter(c: char)
    ensures FoldLetter(FoldLetter(c)) == FoldLetter(c) && FoldLetter(UpperLetter(FoldLetter(c))) == FoldLetter(c)
    ensures IsEither(c) <==> IsEither(FoldLetter(c))
    ensures IsEither(c) <==> IsEither(UpperLetter(c))
    ensures !IsEither(c) ==> FoldLetter(c) == UpperLetter(c) == c
    ensures IsSmallCyrillic(c) ==> FoldLetter(c) == FoldLetter(UpperLetter(c)) == c
  {
  }

  lemma LetterIsPlain(c: char)
    ensures IsEither(c) ==> !IsSpace(c) && !IsFixedPunctuation(c)
    ensures Markers.IsLabelChar(c) ==> UpperLetter(c) == c
  {
  }

  lemma LetterLaws(c: char)
    ensures IsSpace(FoldLetter(c)) == IsSpace(c) && IsSpace(UpperLetter(c)) == IsSpace(c)
    ensures IsFixedPunctuation(c) ==> FoldLetter(c) == UpperLetter(c) == c
    ensures IsFixedPunctuation(FoldLetter(c)) ==> FoldLetter(c) == c
  {
    hide FoldLetter, UpperLetter, IsEither, IsSpace, IsFixedPunctuation;
    CaseOfLetter(c);
    LetterIsPlain(c);
    LetterIsPlain(FoldLetter(c));
    LetterIsPlain(UpperLetter(c));
  }

  /** The laws of one letter, for the letters given as an alphabet. */
  lemma LawsAt(u: Alphabet, c: char)
    requires u == Letters()
    ensures u.fold(u.fold(c)) == u.fold(c)
    ensures u.isUpper(c) || !u.isCased(c) ==> u.fold(u.upper(u.fold(c))) == u.fold(c)
    ensures IsSpace(u.fold(c)) == IsSpace(c) && IsSpace(u.upper(c)) == IsSpace(c)
    ensures u.isLetter(c) ==> u.isLetter(u.fold(c)) && u.isLetter(u.upper(c)) && !IsSpace(c) && !IsFixedPunctuation(c)
    ensures IsSmallCyrillic(c) ==> u.isLetter(c) && u.fold(c) == u.fold(u.upper(c)) == c
    ensures IsFixedPunctuation(c) ==> u.fold(c) == u.upper(c) == c
    ensures IsFixedPunctuation(u.fold(c)) ==> u.fold(c) == c
    ensures Markers.IsLabelChar(c) ==> u.upper(c) == c
  {
    hide FoldLetter, UpperLetter, IsEither, IsSpace, IsFixedPunctuation, IsGreat, IsSmallCyrillic, Markers.IsLabelChar;
    CaseOfLetter(c);
    LetterIsPlain(c);
    LetterLaws(c);
    SmallIsEither(c);
  }

  lemma SmallIsEither(c: char)
    ensures IsSmallCyrillic(c) ==> IsEither(c)
  {
  }

  /** The laws can be met together with the shipped tables. */
  lemma LettersLawful()
    ensures Lawful(Letters()) && Letters().endings == SUFFIXES && Letters().hints == HINTS
  {
    hide IsSpace, IsFixedPunctuation, GoodEndings, IsSmallCyrillic, Markers.IsLabelChar;
    ShippedEndingsAreGood();
    var u := Letters();
    forall c: char ensures u.fold(u.fold(c)) == u.fold(c) { LawsAt(u, c); }
    forall c: char | u.isUpper(c) || !u.isCased(c) ensures u.fold(u.upper(u.fold(c))) == u.fold(c) { LawsAt(u, c); }
    forall c: char ensures IsSpace(u.fold(c)) == IsSpace(c) && IsSpace(u.upper(c)) == IsSpace(c) { LawsAt(u, c); }
    forall c: char | u.isLetter(c)
      ensures u.isLetter(u.fold(c)) && u.isLetter(u.upper(c)) && !IsSpace(c) && !IsFixedPunctuation(c)
    {
      LawsAt(u, c);
    }
    forall c: char | IsSmallCyrillic(c) ensures u.isLetter(c) && u.fold(c) == u.fold(u.upper(c)) == c { LawsAt(u, c); }
    forall c: char | IsFixedPunctuation(c) ensures u.fold(c) == u.upper(c) == c { LawsAt(u, c); }
    forall c: char | IsFixedPunctuation(u.fold(c)) ensures u.fold(c) == c { LawsAt(u, c); }
    forall c: char | Markers.IsLabelChar(c) ensures u.upper(c) == c { LawsAt(u, c); }
  }
}
