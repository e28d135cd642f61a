/** Finding known values in a text, and re-applying learned aliases to a sanitized text. */
module Propagation {
  import opened Common
  import opened Text
  import opened Scanner
  import opened Markers
  import opened Sorting
  import opened Spans
  import opened Alphabet
  import opened Weaving

  /** `_known_value_pattern(value)` searched at position `i`: the stripped value, ignoring case,
      not glued to a word character at an end that is a letter. */
  predicate OccursAt(u: Alphabet, text: string, i: nat, candidate: string)
    requires candidate != ""
  {
    var n := |candidate|;
    && i + n <= |text|
    && Fold(u, text[i..i + n]) == Fold(u, candidate)
    && (u.isAlpha(candidate[0]) && i > 0 ==> !u.isWord(text[i - 1]))
    && (u.isAlpha(candidate[n - 1]) && i + n < |text| ==> !u.isWord(text[i + n]))
  }

  /** `pattern.finditer(text)` from `at` on. */
  function Occurrences(u: Alphabet, text: string, candidate: string, at: nat): (r: seq<Range>)
    requires candidate != ""
    ensures forall x :: x in r ==> at <= x.lo && x.hi == x.lo + |candidate| && OccursAt(u, text, x.lo, candidate)
    decreases |text| - at
  {
    if at + |candidate| > |text| then []
    else if OccursAt(u, text, at, candidate) then
      [Range(at, at + |candidate|)] + Occurrences(u, text, candidate, at + |candidate|)
    else Occurrences(u, text, candidate, at + 1)
  }

  /** Where a value occurs; values shorter than three characters have no pattern. */
  function KnownRanges(u: Alphabet, text: string, value: string): seq<Range> {
    var candidate := Strip(value);
    if |candidate| < 3 then [] else Occurrences(u, text, candidate, 0)
  }

  lemma KnownRangeOccurs(u: Alphabet, text: string, value: string, r: Range)
    requires r in KnownRanges(u, text, value)
    ensures var c := Strip(value); |c| >= 3 && r.hi == r.lo + |c| && OccursAt(u, text, r.lo, c)
  {
  }

  /** `MARKER_RE.sub("", text)` */
  function Bare(text: string): string {
    Substitute(text, map m | m in FindAll(MarkerRe, text) :: "")
  }

  /** `validate_outbound`: no alias of any marker is left outside the marker tokens. */
  predicate OutboundClean(u: Alphabet, text: string, aliases: map<string, set<string>>) {
    forall m :: m in aliases ==> forall a :: a in aliases[m] ==> KnownRanges(u, Bare(text), a) == []
  }

  // ---- what the scan for a value finds, by positions ----

  /** An occurrence spelled out: the same characters but for case, and where the value begins or ends
      with a letter, no word character beside it. */
  lemma OccursAtIff(u: Alphabet, before: string, spelled: string, after: string, c: string)
    requires c != "" && |spelled| == |c|
    ensures OccursAt(u, before + spelled + after, |before|, c) <==>
            && (forall k :: 0 <= k < |c| ==> u.fold(spelled[k]) == u.fold(c[k]))
            && (u.isAlpha(c[0]) && before != "" ==> !u.isWord(before[|before| - 1]))
            && (u.isAlpha(c[|c| - 1]) && after != "" ==> !u.isWord(after[0]))
  {
    hide Fold;
    var text, i, n := before + spelled + after, |before|, |c|;
    assert text[i..i + n] == spelled;
    assert before != "" ==> text[i - 1] == before[i - 1];
    assert after != "" ==> text[i + n] == after[0];
    SameFold(u, spelled, c);
  }

  lemma SameFold(u: Alphabet, a: string, b: string)
    requires |a| == |b|
    ensures Fold(u, a) == Fold(u, b) <==> forall k :: 0 <= k < |b| ==> u.fold(a[k]) == u.fold(b[k])
  {
    if Fold(u, a) == Fold(u, b) {
      forall k | 0 <= k < |b| ensures u.fold(a[k]) == u.fold(b[k]) {
        assert Fold(u, a)[k] == Fold(u, b)[k];
      }
    }
  }

  lemma OccursInside(u: Alphabet, text: string, i: nat, candidate: string)
    requires candidate != "" && OccursAt(u, text, i, candidate)
    ensures i + |candidate| <= |text|
  {
  }

  /** Every occurrence from `at` on begins inside a range that the scan took. */
  lemma {:induction false} OccurrenceCovered(u: Alphabet, text: string, candidate: string, at: nat, i: nat)
    requires candidate != "" && at <= i && OccursAt(u, text, i, candidate)
    ensures exists r :: r in Occurrences(u, text, candidate, at) && r.lo <= i < r.hi
    decreases |text| - at
  {
    hide OccursAt;
    var n := |candidate|;
    var found := Occurrences(u, text, candidate, at);
    OccursInside(u, text, i, candidate);
    if OccursAt(u, text, at, candidate) {
      assert found[0] == Range(at, at + n) && found[0] in found;
      if i >= at + n {
        OccurrenceCovered(u, text, candidate, at + n, i);
      }
    } else {
      OccurrenceCovered(u, text, candidate, at + 1, i);
    }
  }

  ghost predicate InOrder(rs: seq<Range>) {
    forall j, k :: 0 <= j < k < |rs| ==> rs[j].hi <= rs[k].lo
  }

  /** The ranges it took are in order and disjoint. */
  lemma {:induction false} OccurrencesInOrder(u: Alphabet, text: string, candidate: string, at: nat)
    requires candidate != ""
    ensures InOrder(Occurrences(u, text, candidate, at))
    decreases |text| - at
  {
    hide OccursAt;
    if at + |candidate| <= |text| {
      var next := if OccursAt(u, text, at, candidate) then at + |candidate| else at + 1;
      var rest := Occurrences(u, text, candidate, next);
      OccurrencesInOrder(u, text, candidate, next);
      forall k | 0 <= k < |rest| ensures next <= rest[k].lo {
        assert rest[k] in rest;
      }
    }
  }

  /** Everywhere that a value occurs, some range of the list reaches over the place. */
  ghost predicate CoversAll(u: Alphabet, text: string, c: string, found: seq<Range>)
    requires c != ""
  {
    forall i: nat :: OccursAt(u, text, i, c) ==> exists r :: r in found && r.lo <= i < r.hi
  }

  /** What the scan for a value finds, by positions: occurrences of the stripped value, in order
      and disjoint, so that every occurrence begins inside one of them. A value of fewer than
      three characters is found nowhere. */
  lemma KnownRangesAre(u: Alphabet, text: string, value: string)
    ensures var found, c := KnownRanges(u, text, value), Strip(value);
            && InOrder(found)
            && (|c| < 3 ==> found == [])
            && (|c| >= 3 ==>
                  && (forall r :: r in found ==> r.hi == r.lo + |c| && OccursAt(u, text, r.lo, c))
                  && CoversAll(u, text, c, found))
  {
    hide OccursAt, Strip, InOrder;
    var c := Strip(value);
    if |c| < 3 {
      assert InOrder([]) by { NoRange(); }
    } else {
      OccurrencesInOrder(u, text, c, 0);
      forall i: nat | OccursAt(u, text, i, c) ensures exists r :: r in KnownRanges(u, text, value) && r.lo <= i < r.hi {
        OccurrenceCovered(u, text, c, 0, i);
      }
    }
  }

  lemma NoRange()
    ensures InOrder([])
  {
  }

  /** The range that the scan took over an occurrence. */
  lemma TakenOver(u: Alphabet, text: string, value: string, i: nat) returns (r: Range)
    requires |Strip(value)| >= 3 && OccursAt(u, text, i, Strip(value))
    ensures r in KnownRanges(u, text, value) && r.lo <= i < r.hi && r.hi == r.lo + |Strip(value)|
    ensures OccursAt(u, text, r.lo, Strip(value))
  {
    hide OccursAt, Strip, KnownRanges, InOrder;
    KnownRangesAre(u, text, value);
    r :| r in KnownRanges(u, text, value) && r.lo <= i < r.hi;
  }

  /** An earlier occurrence of the same value reaches over position `i`. */
  ghost predicate Shadowed(u: Alphabet, text: string, i: nat, candidate: string)
    requires candidate != ""
  {
    exists j: nat :: j < i < j + |candidate| && OccursAt(u, text, j, candidate)
  }

  /** An occurrence that no earlier one reaches over is found at its own place. */
  lemma UnshadowedFound(u: Alphabet, text: string, value: string, i: nat)
    requires |Strip(value)| >= 3 && OccursAt(u, text, i, Strip(value)) && !Shadowed(u, text, i, Strip(value))
    ensures Range(i, i + |Strip(value)|) in KnownRanges(u, text, value)
  {
    hide OccursAt, Strip, KnownRanges;
    var r := TakenOver(u, text, value, i);
    assert r.lo == i;
  }

  /** The value, stripped, has at least three characters and occurs somewhere in the text. */
  ghost predicate Leaks(u: Alphabet, text: string, value: string) {
    |Strip(value)| >= 3 && exists i: nat :: OccursAt(u, text, i, Strip(value))
  }

  lemma LeaksIff(u: Alphabet, text: string, value: string)
    ensures Leaks(u, text, value) <==> KnownRanges(u, text, value) != []
  {
    hide OccursAt, Strip, KnownRanges;
    KnownRangesAre(u, text, value);
    var found := KnownRanges(u, text, value);
    if found != [] {
      assert found[0] in found;
    }
  }

  /** A text is clean exactly when no alias of at least three characters occurs anywhere among its
      characters outside marker tokens. */
  lemma OutboundCleanIff(u: Alphabet, text: string, aliases: map<string, set<string>>)
    ensures OutboundClean(u, text, aliases) <==>
            forall m, a :: m in aliases && a in aliases[m] ==> !Leaks(u, Outside(text, 0), a)
  {
    hide Leaks, KnownRanges, Outside, Bare;
    BareIsOutside(text);
    forall m, a | m in aliases && a in aliases[m]
      ensures Leaks(u, Bare(text), a) <==> KnownRanges(u, Bare(text), a) != []
    {
      LeaksIff(u, Bare(text), a);
    }
  }

  // ---- a text without its marker tokens, character by character ----

  ghost predicate InToken(text: string, k: nat) {
    exists lo: nat, hi: nat :: TokenAt(MarkerRe, text, lo, hi) && lo <= k < hi
  }

  /** The characters from `k` on that lie in no marker token. */
  ghost function Outside(text: string, k: nat): string
    requires k <= |text|
    decreases |text| - k
  {
    if k == |text| then "" else (if InToken(text, k) then "" else [text[k]]) + Outside(text, k + 1)
  }

  lemma {:induction false} OutsideToken(text: string, lo: nat, k: nat, hi: nat)
    requires TokenAt(MarkerRe, text, lo, hi) && lo <= k <= hi
    ensures Outside(text, k) == Outside(text, hi)
    decreases hi - k
  {
    if k < hi {
      OutsideToken(text, lo, k + 1, hi);
      assert InToken(text, k);
    }
  }

  /** No marker token crosses the place. */
  ghost predicate Uncrossed(text: string, at: nat) {
    forall lo: nat, hi: nat :: TokenAt(MarkerRe, text, lo, hi) ==> hi <= at || at <= lo
  }

  lemma NextUncrossed(text: string, at: nat)
    requires at < |text| && Uncrossed(text, at)
    ensures Uncrossed(text, at + Advance(MatcherOf(MarkerRe), text[at..]))
  {
    hide MatchLen;
    var f, t := MatcherOf(MarkerRe), text[at..];
    var d := Advance(f, t);
    forall lo: nat, hi: nat | TokenAt(MarkerRe, text, lo, hi) ensures hi <= at + d || at + d <= lo {
      if Hits(f, t) {
        assert TokenAt(MarkerRe, text, at, at + d);
        TokensDisjoint(MarkerRe, MarkerRe, text, at, at + d, lo, hi);
      }
    }
  }

  lemma NotInToken(text: string, at: nat)
    requires at < |text| && Uncrossed(text, at) && !Hits(MatcherOf(MarkerRe), text[at..])
    ensures !InToken(text, at)
  {
    hide MatchLen;
  }

  lemma NothingRendered(f: Matcher, values: map<string, string>)
    ensures Render(Lex(f, ""), values) == ""
  {
  }

  /** Dropping the tokens that a scan finds drops exactly the characters inside tokens. */
  lemma {:induction false} RenderedOutside(text: string, at: nat, empty: map<string, string>)
    requires at <= |text|
    requires Uncrossed(text, at)
    requires forall m :: m in FindAll(MarkerRe, text[at..]) ==> m in empty && empty[m] == ""
    ensures Substitute(text[at..], empty) == Outside(text, at)
    decreases |text| - at
  {
    hide Lex, MatchLen, Render, InToken;
    var f, t := MatcherOf(MarkerRe), text[at..];
    if at < |text| {
      var d := Advance(f, t);
      ScanHead(f, t, empty);
      assert t[d..] == text[at + d..];
      NextUncrossed(text, at);
      if Hits(f, t) {
        OutsideToken(text, at, at, at + d);
        assert t[..d] in FindAll(MarkerRe, t);
      } else {
        assert !InToken(text, at) by { NotInToken(text, at); }
      }
      RenderedOutside(text, at + d, empty);
    } else {
      assert t == "";
      NothingRendered(f, empty);
    }
  }

  /** What `validate_outbound` looks at are the characters outside the marker tokens. */
  lemma BareIsOutside(text: string)
    ensures Bare(text) == Outside(text, 0)
  {
    assert text[0..] == text;
    RenderedOutside(text, 0, map m | m in FindAll(MarkerRe, text) :: "");
  }

  // ---- candidates ----

  /** One alias of one marker, as the nested dictionary loops visit them. */
  datatype Alias = Alias(value: string, marker: string)

  predicate TouchesAny(r: Range, marked: seq<Range>) {
    exists k :: 0 <= k < |marked| && r.lo < marked[k].hi && marked[k].lo < r.hi
  }

  function Free(found: seq<Range>, marked: seq<Range>, marker: string): seq<Patch> {
    if found == [] then []
    else
      (if TouchesAny(found[0], marked) then [] else [Patch(found[0].lo, found[0].hi, marker)])
      + Free(found[1..], marked, marker)
  }

  /** The occurrences of a value in a fixed text. */
  type Finder = string -> seq<Range>

  function FinderOf(u: Alphabet, text: string): Finder {
    (value: string) => KnownRanges(u, text, value)
  }

  function Candidates(find: Finder, entries: seq<Alias>, marked: seq<Range>): seq<Patch> {
    if entries == [] then []
    else Free(find(entries[0].value), marked, entries[0].marker) + Candidates(find, entries[1..], marked)
  }

  // ---- the order of candidates: (start, -(end - start), marker) ----

  predicate StringLess(a: string, b: string) {
    if b == "" then false
    else if a == "" then true
    else if a[0] != b[0] then a[0] < b[0]
    else StringLess(a[1..], b[1..])
  }

  predicate PatchLess(a: Patch, b: Patch) {
    if a.lo != b.lo then a.lo < b.lo
    else if a.hi - a.lo != b.hi - b.lo then a.hi - a.lo > b.hi - b.lo
    else StringLess(a.marker, b.marker)
  }

  predicate PatchLeq(a: Patch, b: Patch) {
    !PatchLess(b, a)
  }

  /** The greedy pass: keep a candidate that starts at or after the end of the last kept one. */
  function Accept(candidates: seq<Patch>, occupiedUntil: int): seq<Patch> {
    if candidates == [] then []
    else if candidates[0].lo < occupiedUntil then Accept(candidates[1..], occupiedUntil)
    else [candidates[0]] + Accept(candidates[1..], candidates[0].hi)
  }

  function MarkedRanges(text: string): seq<Range> {
    FindIter(MatcherOf(MarkerRe), text, 0)
  }

  function Accepted(u: Alphabet, text: string, entries: seq<Alias>): seq<Patch> {
    Accept(Sorted(Candidates(FinderOf(u, text), entries, MarkedRanges(text)), PatchLeq), -1)
  }

  // ---- what the accepted patches satisfy ----

  predicate Sound(c: Patch, text: string) {
    c.lo < c.hi <= |text|
  }

  /** The patch touches no marker token of the text. */
  ghost predicate Apart(c: Patch, text: string) {
    forall lo: nat, hi: nat :: TokenAt(MarkerRe, text, lo, hi) ==> hi <= c.lo || c.hi <= lo
  }

  predicate Clash(a: Patch, b: Patch) {
    a.lo < b.hi && b.lo < a.hi
  }

  lemma {:induction false} FreeSound(text: string, found: seq<Range>, marker: string)
    requires forall x :: x in found ==> x.lo < x.hi <= |text|
    ensures forall c :: c in Free(found, MarkedRanges(text), marker) ==> Sound(c, text) && Apart(c, text)
  {
    if found != [] {
      FreeSound(text, found[1..], marker);
      if !TouchesAny(found[0], MarkedRanges(text)) {
        UntouchedApart(text, Patch(found[0].lo, found[0].hi, marker));
      }
    }
  }

  lemma UntouchedApart(text: string, c: Patch)
    requires c.lo < c.hi && !TouchesAny(Range(c.lo, c.hi), MarkedRanges(text))
    ensures Apart(c, text)
  {
    forall lo: nat, hi: nat | TokenAt(MarkerRe, text, lo, hi) ensures hi <= c.lo || c.hi <= lo {
      FindIterAll(MarkerRe, text, lo, hi);
      var k :| 0 <= k < |MarkedRanges(text)| && MarkedRanges(text)[k] == Range(lo, hi);
    }
  }

  lemma {:induction false} FoundSound(find: Finder, text: string, entries: seq<Alias>)
    requires forall v, x :: x in find(v) ==> x.lo < x.hi <= |text|
    ensures forall c :: c in Candidates(find, entries, MarkedRanges(text)) ==> Sound(c, text) && Apart(c, text)
  {
    if entries != [] {
      FoundSound(find, text, entries[1..]);
      FreeSound(text, find(entries[0].value), entries[0].marker);
    }
  }

  lemma CandidatesSound(u: Alphabet, text: string, entries: seq<Alias>)
    ensures forall c :: c in Candidates(FinderOf(u, text), entries, MarkedRanges(text)) ==>
              Sound(c, text) && Apart(c, text)
  {
    forall v, x | x in KnownRanges(u, text, v) ensures x.lo < x.hi <= |text| {
    }
    FoundSound(FinderOf(u, text), text, entries);
  }

  /** Every candidate carries the marker of one of the aliases. */
  lemma {:induction false} FreeMarker(found: seq<Range>, marked: seq<Range>, marker: string)
    ensures forall c :: c in Free(found, marked, marker) ==> c.marker == marker
  {
    if found != [] {
      FreeMarker(found[1..], marked, marker);
    }
  }

  lemma {:induction false} CandidateMarkers(find: Finder, entries: seq<Alias>, marked: seq<Range>)
    ensures forall c :: c in Candidates(find, entries, marked) ==> exists e :: e in entries && e.marker == c.marker
  {
    if entries != [] {
      CandidateMarkers(find, entries[1..], marked);
      FreeMarker(find(entries[0].value), marked, entries[0].marker);
      assert entries[0] in entries;
    }
  }

  /** Accepted patches are candidates in strict reading order. */
  lemma {:induction false} AcceptOrdered(candidates: seq<Patch>, occupied: int, text: string)
    requires forall c :: c in candidates ==> Sound(c, text)
    requires occupied <= |text|
    ensures forall c :: c in Accept(candidates, occupied) ==> c in candidates && occupied <= c.lo
    ensures Ordered(Accept(candidates, occupied), if occupied < 0 then 0 else occupied, |text|)
  {
    if candidates != [] {
      var c := candidates[0];
      assert c in candidates;
      if c.lo < occupied {
        AcceptOrdered(candidates[1..], occupied, text);
      } else {
        AcceptOrdered(candidates[1..], c.hi, text);
      }
    }
  }

  /** A candidate that was not kept clashes with a kept one that precedes it in the order. */
  lemma {:induction false} AcceptComplete(candidates: seq<Patch>, occupied: int, text: string, c: Patch)
    requires forall x :: x in candidates ==> Sound(x, text)
    requires SortedBy(candidates, PatchLeq)
    requires c in candidates && c !in Accept(candidates, occupied) && c.lo >= occupied
    ensures exists a :: a in Accept(candidates, occupied) && PatchLeq(a, c) && Clash(a, c)
  {
    var first := candidates[0];
    assert candidates == [first] + candidates[1..];
    if first.lo < occupied {
      AcceptComplete(candidates[1..], occupied, text, c);
    } else {
      assert first in Accept(candidates, occupied);
      var i :| 0 <= i < |candidates| && candidates[i] == c;
      assert PatchLeq(candidates[0], candidates[i]);
      if c.lo >= first.hi {
        AcceptComplete(candidates[1..], first.hi, text, c);
        var a :| a in Accept(candidates[1..], first.hi) && PatchLeq(a, c) && Clash(a, c);
        assert a in Accept(candidates, occupied);
      } else {
        assert Clash(first, c);
      }
    }
  }

  // ---- string and patch orders ----

  lemma {:induction false} StringTotal(a: string, b: string)
    ensures a != b ==> StringLess(a, b) || StringLess(b, a)
    ensures StringLess(a, b) ==> !StringLess(b, a)
  {
    if a != "" && b != "" && a[0] == b[0] {
      StringTotal(a[1..], b[1..]);
      assert a == [a[0]] + a[1..] && b == [b[0]] + b[1..];
    }
  }

  lemma {:induction false} StringTransitive(a: string, b: string, c: string)
    ensures StringLess(a, b) && StringLess(b, c) ==> StringLess(a, c)
  {
    if a != "" && b != "" && c != "" && a[0] == b[0] == c[0] {
      StringTransitive(a[1..], b[1..], c[1..]);
    }
  }

  lemma PatchOrder()
    ensures IsStrictOrder(PatchLess)
    ensures IsKeyOrder(PatchLeq)
  {
    forall a: Patch, b: Patch
      ensures a != b ==> PatchLess(a, b) || PatchLess(b, a)
      ensures PatchLess(a, b) ==> !PatchLess(b, a)
    {
      StringTotal(a.marker, b.marker);
    }
    forall a: Patch, b: Patch, c: Patch ensures PatchLess(a, b) && PatchLess(b, c) ==> PatchLess(a, c) {
      StringTransitive(a.marker, b.marker, c.marker);
    }
    StrictGivesKeyOrder(PatchLess, PatchLeq);
  }

  lemma StrictGivesKeyOrder(less: Order<Patch>, leq: Order<Patch>)
    requires IsStrictOrder(less) && forall a, b :: leq(a, b) == !less(b, a)
    ensures IsKeyOrder(leq)
  {
    forall a, b, c | leq(a, b) && leq(b, c) ensures leq(a, c) {
      if a != b && b != c {
        assert less(a, b) && less(b, c);
      }
    }
  }

  /** The accepted ranges do not depend on the order in which markers and alias sets are
      visited: they are the greedy choice among all candidates. */
  lemma AcceptedIsGreedy(u: Alphabet, text: string, entries: seq<Alias>)
    ensures GreedySet((set c | c in Accepted(u, text, entries)),
                      (set c | c in Candidates(FinderOf(u, text), entries, MarkedRanges(text))), PatchLess, Clash)
  {
    var candidates := Candidates(FinderOf(u, text), entries, MarkedRanges(text));
    var sorted := Sorted(candidates, PatchLeq);
    var kept := Accept(sorted, -1);
    CandidatesSound(u, text, entries);
    PatchOrder();
    SortedIsSorted(candidates, PatchLeq);
    SameElements(sorted, candidates);
    AcceptOrdered(sorted, -1, text);
    KeptArePicked(kept, 0, |text|);
    forall c | c in candidates ensures c in kept <==> Picked(c, (set k | k in kept), PatchLess, Clash) {
      if c !in kept {
        AcceptComplete(sorted, -1, text, c);
        var a :| a in kept && PatchLeq(a, c) && Clash(a, c);
        assert a != c && PatchLess(a, c);
      }
    }
  }

  lemma KeptArePicked(kept: seq<Patch>, cursor: nat, size: nat)
    requires Ordered(kept, cursor, size)
    ensures forall a, c :: a in kept && c in kept && a != c ==> !Clash(a, c)
  {
    OrderedApart(kept, cursor, size);
  }

  lemma {:induction false} OrderedApart(ps: seq<Patch>, cursor: nat, size: nat)
    requires Ordered(ps, cursor, size)
    ensures forall i, j :: 0 <= i < j < |ps| ==> ps[i].hi <= ps[j].lo
    ensures forall i :: 0 <= i < |ps| ==> ps[i].lo < ps[i].hi
  {
    if ps != [] {
      OrderedApart(ps[1..], ps[0].hi, size);
      FirstPatchFirst(ps, cursor, size);
      assert forall i :: 0 < i < |ps| ==> ps[i] == ps[1..][i - 1];
    }
  }

  predicate PatchPrecedes(a: Patch, b: Patch) {
    a.hi <= b.lo && a.lo < a.hi && b.lo < b.hi
  }

  lemma AcceptedOrderIndependent(u: Alphabet, text: string, xs: seq<Alias>, ys: seq<Alias>)
    requires forall e :: e in xs <==> e in ys
    ensures Accepted(u, text, xs) == Accepted(u, text, ys)
  {
    var marked := MarkedRanges(text);
    AcceptedIsGreedy(u, text, xs);
    AcceptedIsGreedy(u, text, ys);
    CandidatesSame(FinderOf(u, text), xs, ys, marked);
    AcceptedInOrder(u, text, xs);
    AcceptedInOrder(u, text, ys);
    SameGreedyPatches(Accepted(u, text, xs), Accepted(u, text, ys),
                      set c | c in Candidates(FinderOf(u, text), xs, marked));
  }

  lemma SameGreedyPatches(a: seq<Patch>, b: seq<Patch>, offered: set<Patch>)
    requires GreedySet((set c | c in a), offered, PatchLess, Clash)
    requires GreedySet((set c | c in b), offered, PatchLess, Clash)
    requires SortedBy(a, PatchPrecedes) && SortedBy(b, PatchPrecedes)
    ensures a == b
  {
    PatchOrder();
    var sa, sb := set c | c in a, set c | c in b;
    GreedySetUnique(sa, sb, offered, PatchLess, Clash);
    forall c ensures c in a <==> c in b {
      assert c in a <==> c in sa;
      assert c in b <==> c in sb;
    }
    StrictlySortedUnique(a, b, PatchPrecedes);
  }

  lemma CandidatesSame(find: Finder, xs: seq<Alias>, ys: seq<Alias>, marked: seq<Range>)
    requires forall e :: e in xs <==> e in ys
    ensures (set c | c in Candidates(find, xs, marked)) == (set c | c in Candidates(find, ys, marked))
  {
    CandidateSet(find, xs, marked);
    CandidateSet(find, ys, marked);
    forall c ensures c in Candidates(find, xs, marked) <==> c in Candidates(find, ys, marked) {
      assert (exists e :: e in xs && c in Free(find(e.value), marked, e.marker)) <==>
             (exists e :: e in ys && c in Free(find(e.value), marked, e.marker));
    }
  }

  /** A candidate comes from some alias, whatever its place in the enumeration. */
  lemma {:induction false} CandidateSet(find: Finder, entries: seq<Alias>, marked: seq<Range>)
    ensures forall c :: c in Candidates(find, entries, marked) <==>
              exists e :: e in entries && c in Free(find(e.value), marked, e.marker)
  {
    if entries != [] {
      CandidateSet(find, entries[1..], marked);
      assert entries == [entries[0]] + entries[1..];
    }
  }

  lemma AcceptedInOrder(u: Alphabet, text: string, entries: seq<Alias>)
    ensures Ordered(Accepted(u, text, entries), 0, |text|)
    ensures SortedBy(Accepted(u, text, entries), PatchPrecedes)
    ensures forall c :: c in Accepted(u, text, entries) ==>
              Apart(c, text) && c in Candidates(FinderOf(u, text), entries, MarkedRanges(text))
  {
    var candidates := Candidates(FinderOf(u, text), entries, MarkedRanges(text));
    CandidatesSound(u, text, entries);
    SameElements(Sorted(candidates, PatchLeq), candidates);
    AcceptOrdered(Sorted(candidates, PatchLeq), -1, text);
    OrderedApart(Accepted(u, text, entries), 0, |text|);
  }

  // ---- the rewritten text ----

  /** `propagate_state_markers` for the aliases listed in `entries`. */
  function Propagate(u: Alphabet, text: string, entries: seq<Alias>): string {
    AcceptedInOrder(u, text, entries);
    Weave(text, 0, Accepted(u, text, entries))
  }

  method PropagateStateMarkers(u: Alphabet, text: string, entries: seq<Alias>) returns (rewritten: string)
    ensures rewritten == Propagate(u, text, entries)
  {
    var candidates := CollectCandidates(FinderOf(u, text), entries, MarkedRanges(text));
    var accepted := KeepDisjoint(Sorted(candidates, PatchLeq));
    AcceptedInOrder(u, text, entries);
    if accepted == [] {
      return text;
    }
    rewritten := Rewrite(text, accepted);
  }

  method CollectCandidates(find: Finder, entries: seq<Alias>, marked: seq<Range>) returns (candidates: seq<Patch>)
    ensures candidates == Candidates(find, entries, marked)
  {
    candidates := [];
    assert entries[0..] == entries;
    for i := 0 to |entries|
      invariant candidates + Candidates(find, entries[i..], marked) == Candidates(find, entries, marked)
    {
      assert entries[i..][0] == entries[i] && entries[i..][1..] == entries[i + 1..];
      candidates := candidates + Free(find(entries[i].value), marked, entries[i].marker);
    }
    assert entries[|entries|..] == [];
  }

  method KeepDisjoint(candidates: seq<Patch>) returns (accepted: seq<Patch>)
    ensures accepted == Accept(candidates, -1)
  {
    accepted := [];
    var occupiedUntil: int := -1;
    for i := 0 to |candidates|
      invariant accepted + Accept(candidates[i..], occupiedUntil) == Accept(candidates, -1)
    {
      var c := candidates[i];
      assert candidates[i..][0] == c && candidates[i..][1..] == candidates[i + 1..];
      if c.lo >= occupiedUntil {
        assert accepted + ([c] + Accept(candidates[i + 1..], c.hi))
          == (accepted + [c]) + Accept(candidates[i + 1..], c.hi);
        accepted := accepted + [c];
        occupiedUntil := c.hi;
      }
    }
    assert candidates[|candidates|..] == [];
  }

  method Rewrite(text: string, accepted: seq<Patch>) returns (rewritten: string)
    requires Ordered(accepted, 0, |text|)
    ensures rewritten == Weave(text, 0, accepted)
  {
    var cursor: nat := 0;
    rewritten := "";
    assert accepted[0..] == accepted;
    for i := 0 to |accepted|
      invariant Ordered(accepted[i..], cursor, |text|)
      invariant rewritten + Weave(text, cursor, accepted[i..]) == Weave(text, 0, accepted)
    {
      var p := accepted[i];
      assert accepted[i..][0] == p && accepted[i..][1..] == accepted[i + 1..];
      var step := text[cursor..p.lo] + p.marker;
      assert rewritten + (step + Weave(text, p.hi, accepted[i + 1..]))
        == (rewritten + step) + Weave(text, p.hi, accepted[i + 1..]);
      rewritten := rewritten + step;
      cursor := p.hi;
    }
    assert accepted[|accepted|..] == [];
    rewritten := rewritten + text[cursor..];
  }

  // ---- existing markers stay, and restoring commutes with propagation ----

  /** Restoring around the patches, with `fills[i]` written for patch `i`. */
  function RestoredAround(text: string, cursor: nat, ps: seq<Patch>, fills: seq<string>,
                          values: map<string, string>): string
    requires Ordered(ps, cursor, |text|) && |fills| == |ps|
    decreases |ps|
  {
    if ps == [] then Substitute(text[cursor..], values)
    else Substitute(text[cursor..ps[0].lo], values) + fills[0]
         + RestoredAround(text, ps[0].hi, ps[1..], fills[1..], values)
  }

  /** The texts of the patched ranges (empty for a range outside the text). */
  function Originals(text: string, ps: seq<Patch>): (r: seq<string>)
    ensures |r| == |ps|
  {
    seq(|ps|, i requires 0 <= i < |ps| => if ps[i].lo <= ps[i].hi <= |text| then text[ps[i].lo..ps[i].hi] else "")
  }

  function Stored(ps: seq<Patch>, values: map<string, string>): (r: seq<string>)
    ensures |r| == |ps|
  {
    seq(|ps|, i requires 0 <= i < |ps| => Value(values, ps[i].marker))
  }

  /** The marker tokens of the gaps between the patches, in order. */
  function GapTokens(text: string, cursor: nat, ps: seq<Patch>): seq<string>
    requires Ordered(ps, cursor, |text|)
    decreases |ps|
  {
    if ps == [] then FindAll(MarkerRe, text[cursor..])
    else FindAll(MarkerRe, text[cursor..ps[0].lo]) + GapTokens(text, ps[0].hi, ps[1..])
  }

  lemma MatchTruncates(p: Pattern, t: string, x: string)
    requires 0 < MatchLen(p, t + x) <= |t|
    ensures MatchLen(p, t) == MatchLen(p, t + x)
  {
    var n := MatchLen(p, t + x);
    var k := n - 4;
    BodyLenStops((t + x)[2..]);
    assert forall i :: 0 <= i <= k ==> t[2..][i] == (t + x)[2..][i];
    BodyLenIs(t[2..], k);
    assert t[2..k + 2] == (t + x)[2..k + 2];
  }

  /** A text may be lexed in two halves wherever no marker token crosses the cut. */
  lemma LexSplits(text: string, a: nat, b: nat)
    requires a <= b <= |text|
    requires forall lo: nat, hi: nat :: TokenAt(MarkerRe, text, lo, hi) ==> hi <= b || b <= lo
    ensures Lex(MatcherOf(MarkerRe), text[a..])
      == Lex(MatcherOf(MarkerRe), text[a..b]) + Lex(MatcherOf(MarkerRe), text[b..])
  {
    var g, x := text[a..b], text[b..];
    assert text[a..] == g + x;
    var f := MatcherOf(MarkerRe);
    forall i | 0 <= i < |g| ensures f(g[i..]) <= |g| - i && f(g[i..] + x) == f(g[i..]) {
      assert g[i..] + x == text[a + i..];
      var n := MatchLen(MarkerRe, text[a + i..]);
      if MatchLen(MarkerRe, g[i..]) > 0 {
        MatchExtends(MarkerRe, g[i..], x);
      } else if n > 0 {
        assert TokenAt(MarkerRe, text, a + i, a + i + n);
        MatchTruncates(MarkerRe, g[i..], x);
      }
    }
    LexGap(f, g, x);
  }

  /** A patched range that touches no marker holds none. */
  lemma RangeHasNoTokens(text: string, c: Patch)
    requires Sound(c, text) && Apart(c, text)
    ensures FindAll(MarkerRe, text[c.lo..c.hi]) == []
  {
    var r := text[c.lo..c.hi];
    if FindAll(MarkerRe, r) != [] {
      var m := FindAll(MarkerRe, r)[0];
      var lo := TokenOfSlice(MarkerRe, text, c.lo, c.hi, m);
    }
  }

  /** Cutting the text at the ends of a patch that touches no marker. */
  lemma CutAroundPatch(text: string, cursor: nat, c: Patch)
    requires cursor <= c.lo && Sound(c, text) && Apart(c, text)
    ensures Cuts(MatcherOf(MarkerRe), text, cursor, c.lo, c.hi)
  {
    LexSplits(text, cursor, c.lo);
    LexSplits(text, c.lo, c.hi);
    RangeHasNoTokens(text, c);
  }

  ghost predicate AllApart(text: string, ps: seq<Patch>) {
    forall c :: c in ps ==> Sound(c, text) && Apart(c, text)
  }

  lemma TokensAroundPatch(text: string, cursor: nat, c: Patch)
    requires cursor <= c.lo && Sound(c, text) && Apart(c, text)
    ensures FindAll(MarkerRe, text[cursor..]) == FindAll(MarkerRe, text[cursor..c.lo]) + FindAll(MarkerRe, text[c.hi..])
  {
    CutAroundPatch(text, cursor, c);
    CutTokens(MatcherOf(MarkerRe), text, cursor, c.lo, c.hi);
  }

  lemma RestoreAroundPatch(text: string, cursor: nat, c: Patch, values: map<string, string>)
    requires cursor <= c.lo && Sound(c, text) && Apart(c, text)
    ensures Substitute(text[cursor..], values)
            == Substitute(text[cursor..c.lo], values) + text[c.lo..c.hi] + Substitute(text[c.hi..], values)
  {
    CutAroundPatch(text, cursor, c);
    CutRender(MatcherOf(MarkerRe), text, cursor, c.lo, c.hi, values);
  }

  lemma {:induction false} GapTokensAreAll(text: string, cursor: nat, ps: seq<Patch>)
    requires Ordered(ps, cursor, |text|) && AllApart(text, ps)
    ensures GapTokens(text, cursor, ps) == FindAll(MarkerRe, text[cursor..])
    decreases |ps|
  {
    if ps != [] {
      assert ps[0] in ps;
      GapTokensAreAll(text, ps[0].hi, ps[1..]);
      TokensAroundPatch(text, cursor, ps[0]);
    }
  }

  lemma {:induction false} RestoreAroundOriginals(text: string, cursor: nat, ps: seq<Patch>,
                                                  values: map<string, string>)
    requires Ordered(ps, cursor, |text|) && AllApart(text, ps)
    ensures Substitute(text[cursor..], values) == RestoredAround(text, cursor, ps, Originals(text, ps), values)
    decreases |ps|
  {
    hide Substitute, Sound, Apart;
    if ps != [] {
      assert ps[0] in ps;
      RestoreAroundOriginals(text, ps[0].hi, ps[1..], values);
      assert Originals(text, ps)[1..] == Originals(text, ps[1..]);
      RestoreAroundPatch(text, cursor, ps[0], values);
    }
  }

  lemma {:induction false} FilledIsAround(text: string, cursor: nat, ps: seq<Patch>, values: map<string, string>)
    requires Ordered(ps, cursor, |text|)
    ensures FilledRestored(text, cursor, ps, values) == RestoredAround(text, cursor, ps, Stored(ps, values), values)
    decreases |ps|
  {
    if ps != [] {
      FilledIsAround(text, ps[0].hi, ps[1..], values);
      assert Stored(ps, values)[1..] == Stored(ps[1..], values);
    }
  }

  /** Restoring a propagated text is restoring the input with exactly the accepted alias
      ranges set to their markers' values; the input's marker tokens are all still there, in
      order, between the new ones. */
  lemma PropagateRestores(u: Alphabet, text: string, entries: seq<Alias>, values: map<string, string>)
    requires forall e :: e in entries ==> IsMarker(e.marker)
    ensures var ps := Accepted(u, text, entries);
            && Ordered(ps, 0, |text|) && AllApart(text, ps)
            && Substitute(text, values) == RestoredAround(text, 0, ps, Originals(text, ps), values)
            && Substitute(Propagate(u, text, entries), values)
              == RestoredAround(text, 0, ps, Stored(ps, values), values)
            && GapTokens(text, 0, ps) == FindAll(MarkerRe, text)
            && WovenTokens(MarkerRe, text, 0, ps) == FindAll(MarkerRe, Propagate(u, text, entries))
  {
    hide Accepted, Weave, Substitute, FindAll, AllApart;
    var ps := Accepted(u, text, entries);
    AcceptedInOrder(u, text, entries);
    AcceptedSound(u, text, entries);
    AcceptedMarkers(u, text, entries);
    PatchesRestore(text, ps, values);
  }

  lemma PatchesRestore(text: string, ps: seq<Patch>, values: map<string, string>)
    requires Ordered(ps, 0, |text|) && AllApart(text, ps) && forall p :: p in ps ==> IsMarker(p.marker)
    ensures Substitute(text, values) == RestoredAround(text, 0, ps, Originals(text, ps), values)
    ensures Substitute(Weave(text, 0, ps), values) == RestoredAround(text, 0, ps, Stored(ps, values), values)
    ensures GapTokens(text, 0, ps) == FindAll(MarkerRe, text)
    ensures WovenTokens(MarkerRe, text, 0, ps) == FindAll(MarkerRe, Weave(text, 0, ps))
  {
    hide Substitute, FindAll, AllApart, Weave, IsMarker, RestoredAround, FilledRestored;
    assert text[0..] == text;
    RestoreAroundOriginals(text, 0, ps, values);
    FilledIsAround(text, 0, ps, values);
    SubstituteWeave(text, 0, ps, values);
    GapTokensAreAll(text, 0, ps);
    forall p | p in ps ensures Insertable(MarkerRe, p.marker) {
      MarkerBody(p.marker);
    }
    TokensOfWeave(MarkerRe, text, 0, ps);
  }

  lemma AcceptedSound(u: Alphabet, text: string, entries: seq<Alias>)
    ensures AllApart(text, Accepted(u, text, entries))
  {
    AcceptedInOrder(u, text, entries);
    CandidatesSound(u, text, entries);
  }

  lemma AcceptedMarkers(u: Alphabet, text: string, entries: seq<Alias>)
    requires forall e :: e in entries ==> IsMarker(e.marker)
    ensures forall p :: p in Accepted(u, text, entries) ==>
              IsMarker(p.marker) && exists e :: e in entries && e.marker == p.marker
  {
    AcceptedInOrder(u, text, entries);
    CandidateMarkers(FinderOf(u, text), entries, MarkedRanges(text));
  }

  /** Every alias occurrence outside the markers is replaced or overlaps a replaced one. */
  lemma PropagateComplete(u: Alphabet, text: string, entries: seq<Alias>, c: Patch)
    requires c in Candidates(FinderOf(u, text), entries, MarkedRanges(text))
    ensures c in Accepted(u, text, entries) || exists a :: a in Accepted(u, text, entries) && Clash(a, c)
  {
    AcceptedIsGreedy(u, text, entries);
    var kept := set k | k in Accepted(u, text, entries);
    if c !in kept {
      assert !Picked(c, kept, PatchLess, Clash);
      var a :| a in kept && PatchLess(a, c) && Clash(a, c);
    }
  }

  /** Comparison of strings: at the first difference, or a proper beginning is less. */
  lemma {:induction false} StringLessIff(a: string, b: string)
    ensures StringLess(a, b) <==>
            exists k: nat :: k <= |a| && k < |b| && a[..k] == b[..k] && (k == |a| || a[k] < b[k])
  {
    if a == "" || b == "" {
      assert a[..0] == b[..0];
    } else if a[0] != b[0] {
      assert a[..0] == b[..0];
      forall k: nat | 0 < k <= |a| && k < |b| ensures a[..k] != b[..k] {
        assert a[..k][0] != b[..k][0];
      }
    } else {
      var a', b' := a[1..], b[1..];
      StringLessIff(a', b');
      forall k: nat | k <= |a'| && k < |b'| && a'[..k] == b'[..k] && (k == |a'| || a'[k] < b'[k])
        ensures a[..k + 1] == b[..k + 1] && (k + 1 == |a| || a[k + 1] < b[k + 1])
      {
        assert a[..k + 1] == [a[0]] + a'[..k] && b[..k + 1] == [b[0]] + b'[..k];
      }
      forall k: nat | k <= |a| && k < |b| && a[..k] == b[..k] && (k == |a| || a[k] < b[k])
        ensures k > 0 && a'[..k - 1] == b'[..k - 1] && (k - 1 == |a'| || a'[k - 1] < b'[k - 1])
      {
        assert k > 0 ==> a'[..k - 1] == a[..k][1..] && b'[..k - 1] == b[..k][1..];
      }
    }
  }

  /** A candidate that is not replaced overlaps a replaced one that begins earlier, or with it and
      is longer, or has its extent and a smaller marker. */
  lemma RejectedByFields(u: Alphabet, text: string, entries: seq<Alias>, c: Patch)
    requires c in Candidates(FinderOf(u, text), entries, MarkedRanges(text)) && c !in Accepted(u, text, entries)
    ensures exists a ::
              && a in Accepted(u, text, entries) && a.lo < c.hi && c.lo < a.hi
              && (a.lo < c.lo || (a.lo == c.lo && a.hi > c.hi)
                  || (a.lo == c.lo && a.hi == c.hi && StringLess(a.marker, c.marker)))
  {
    hide Accepted, Candidates, StringLess;
    AcceptedIsGreedy(u, text, entries);
    var kept := set k | k in Accepted(u, text, entries);
    assert !Picked(c, kept, PatchLess, Clash);
    var a :| a in kept && PatchLess(a, c) && Clash(a, c);
  }

  lemma FreeHas(found: seq<Range>, marked: seq<Range>, marker: string, r: Range)
    requires r in found && !TouchesAny(r, marked)
    ensures Patch(r.lo, r.hi, marker) in Free(found, marked, marker)
  {
    if found[0] != r {
      FreeHas(found[1..], marked, marker, r);
    }
  }

  lemma ApartUntouched(text: string, r: Range, marker: string)
    requires Apart(Patch(r.lo, r.hi, marker), text)
    ensures !TouchesAny(r, MarkedRanges(text))
  {
    FindIterSound(MatcherOf(MarkerRe), text, 0);
    var marked := MarkedRanges(text);
    forall k | 0 <= k < |marked| ensures !(r.lo < marked[k].hi && marked[k].lo < r.hi) {
      assert marked[k] in marked;
      assert TokenAt(MarkerRe, text, marked[k].lo, marked[k].hi);
    }
  }

  /** A range that the scan for an alias takes outside the markers is replaced or clashes with a
      replaced one. */
  lemma ScannedCovered(u: Alphabet, text: string, entries: seq<Alias>, e: Alias, r: Range)
    requires e in entries && r in KnownRanges(u, text, e.value)
    requires Apart(Patch(r.lo, r.hi, e.marker), text)
    ensures var c := Patch(r.lo, r.hi, e.marker);
            c in Accepted(u, text, entries) || exists a :: a in Accepted(u, text, entries) && Clash(a, c)
  {
    hide KnownRanges, Accepted;
    var find, marked := FinderOf(u, text), MarkedRanges(text);
    ApartUntouched(text, r, e.marker);
    FreeHas(find(e.value), marked, e.marker, r);
    CandidateSet(find, entries, marked);
    PropagateComplete(u, text, entries, Patch(r.lo, r.hi, e.marker));
  }

  /** Some replaced range shares a character with the range. */
  ghost predicate Covered(u: Alphabet, text: string, entries: seq<Alias>, lo: nat, hi: nat) {
    exists p :: p in Accepted(u, text, entries) && p.lo < hi && lo < p.hi
  }

  ghost predicate FreeOfMarkers(text: string, a: nat, b: nat) {
    forall lo: nat, hi: nat :: TokenAt(MarkerRe, text, lo, hi) ==> hi <= a || b <= lo
  }

  /** An earlier occurrence at `j` reaches over position `i`, and touches a marker or loses to a
      replaced range that ends before `i` or there. */
  ghost predicate LosesBefore(u: Alphabet, text: string, entries: seq<Alias>, c: string, j: nat, i: nat)
    requires c != ""
  {
    && j < i < j + |c| && OccursAt(u, text, j, c)
    && (!FreeOfMarkers(text, j, j + |c|) || Covered(u, text, entries, j, i))
  }

  /** An occurrence of an alias outside the markers, at any position, shares a character with a
      replaced range, unless an earlier occurrence of the same alias reaches over it: one that
      touches a marker, or loses to a replaced range that begins before the later one. */
  lemma AliasCovered(u: Alphabet, text: string, entries: seq<Alias>, e: Alias, i: nat)
    requires e in entries && |Strip(e.value)| >= 3 && OccursAt(u, text, i, Strip(e.value))
    requires FreeOfMarkers(text, i, i + |Strip(e.value)|)
    ensures || Covered(u, text, entries, i, i + |Strip(e.value)|)
            || exists j: nat :: LosesBefore(u, text, entries, Strip(e.value), j, i)
  {
    var r := TakenOver(u, text, e.value, i);
    AliasCoveredBy(u, text, entries, e, i, r);
  }

  lemma AliasCoveredBy(u: Alphabet, text: string, entries: seq<Alias>, e: Alias, i: nat, r: Range)
    requires e in entries && |Strip(e.value)| >= 3 && FreeOfMarkers(text, i, i + |Strip(e.value)|)
    requires r in KnownRanges(u, text, e.value) && r.lo <= i < r.hi == r.lo + |Strip(e.value)|
    requires OccursAt(u, text, r.lo, Strip(e.value))
    ensures || Covered(u, text, entries, i, i + |Strip(e.value)|)
            || LosesBefore(u, text, entries, Strip(e.value), r.lo, i)
  {
    hide OccursAt, Strip, KnownRanges, Covered, FreeOfMarkers;
    if FreeOfMarkers(text, r.lo, r.hi) {
      ScannedReaches(u, text, entries, e, r, i);
    }
  }

  /** A range that the scan took outside the markers is reached by a replaced range, at or before
      a place inside it or after. */
  lemma ScannedReaches(u: Alphabet, text: string, entries: seq<Alias>, e: Alias, r: Range, i: nat)
    requires e in entries && r in KnownRanges(u, text, e.value) && FreeOfMarkers(text, r.lo, r.hi)
    requires r.lo <= i < r.hi
    ensures Covered(u, text, entries, i, i + (r.hi - r.lo)) || (r.lo < i && Covered(u, text, entries, r.lo, i))
  {
    hide KnownRanges, Accepted;
    assert Apart(Patch(r.lo, r.hi, e.marker), text);
    ScannedCovered(u, text, entries, e, r);
    AcceptedInOrder(u, text, entries);
    OrderedApart(Accepted(u, text, entries), 0, |text|);
    var p :| p in Accepted(u, text, entries) && Clash(p, Patch(r.lo, r.hi, e.marker));
  }

  /** With one alias alone the exception is exact: the occurrence is left as it is exactly when every
      range that the scan took and that overlaps it touches a marker. */
  lemma LoneAliasCoveredIff(u: Alphabet, text: string, e: Alias, lo: nat, hi: nat)
    ensures Covered(u, text, [e], lo, hi) <==>
            exists r :: r in KnownRanges(u, text, e.value) && r.lo < hi && lo < r.hi && FreeOfMarkers(text, r.lo, r.hi)
  {
    hide KnownRanges, Accepted, Candidates;
    LoneCandidates(u, text, e);
    AcceptedInOrder(u, text, [e]);
    forall r | r in KnownRanges(u, text, e.value) && FreeOfMarkers(text, r.lo, r.hi)
      ensures Patch(r.lo, r.hi, e.marker) in Accepted(u, text, [e])
    {
      LoneAccepted(u, text, e, r);
    }
    forall p | p in Accepted(u, text, [e])
      ensures Range(p.lo, p.hi) in KnownRanges(u, text, e.value) && FreeOfMarkers(text, p.lo, p.hi)
    {
    }
  }

  lemma LoneCandidates(u: Alphabet, text: string, e: Alias)
    ensures forall c :: c in Candidates(FinderOf(u, text), [e], MarkedRanges(text)) ==>
              Range(c.lo, c.hi) in KnownRanges(u, text, e.value) && c.marker == e.marker
  {
    hide KnownRanges;
    var find, marked := FinderOf(u, text), MarkedRanges(text);
    CandidateSet(find, [e], marked);
    FreeFrom(find(e.value), marked, e.marker);
  }

  /** A free range that the scan took for a lone alias is replaced: the others it took are apart. */
  lemma LoneAccepted(u: Alphabet, text: string, e: Alias, r: Range)
    requires r in KnownRanges(u, text, e.value) && FreeOfMarkers(text, r.lo, r.hi)
    ensures Patch(r.lo, r.hi, e.marker) in Accepted(u, text, [e])
  {
    hide KnownRanges, Accepted, Candidates;
    assert Apart(Patch(r.lo, r.hi, e.marker), text);
    ScannedCovered(u, text, [e], e, r);
    LoneCandidates(u, text, e);
    AcceptedInOrder(u, text, [e]);
    KnownRangesAre(u, text, e.value);
    forall a | a in Accepted(u, text, [e]) && Clash(a, Patch(r.lo, r.hi, e.marker))
      ensures a == Patch(r.lo, r.hi, e.marker)
    {
      SameOrApart(KnownRanges(u, text, e.value), Range(a.lo, a.hi), r);
    }
  }

  lemma SameOrApart(found: seq<Range>, a: Range, r: Range)
    requires InOrder(found) && a in found && r in found && a.lo < r.hi && r.lo < a.hi
    ensures a == r || a.lo > a.hi || r.lo > r.hi
  {
    var j :| 0 <= j < |found| && found[j] == a;
    var k :| 0 <= k < |found| && found[k] == r;
  }

  lemma {:induction false} FreeFrom(found: seq<Range>, marked: seq<Range>, marker: string)
    ensures forall p :: p in Free(found, marked, marker) ==> Range(p.lo, p.hi) in found && p.marker == marker
  {
    if found != [] {
      FreeFrom(found[1..], marked, marker);
      assert found == [found[0]] + found[1..];
    }
  }

  /** Without such an earlier occurrence it always does. */
  lemma UnshadowedCovered(u: Alphabet, text: string, entries: seq<Alias>, e: Alias, i: nat)
    requires e in entries && |Strip(e.value)| >= 3 && OccursAt(u, text, i, Strip(e.value))
    requires FreeOfMarkers(text, i, i + |Strip(e.value)|) && !Shadowed(u, text, i, Strip(e.value))
    ensures Covered(u, text, entries, i, i + |Strip(e.value)|)
  {
    hide OccursAt, Strip, Covered, FreeOfMarkers;
    AliasCovered(u, text, entries, e, i);
  }

  /** Propagation introduces no marker-like token that is not an inserted or an old one. */
  lemma {:induction false} WovenTokensOld(text: string, cursor: nat, ps: seq<Patch>, known: set<string>)
    requires Ordered(ps, cursor, |text|)
    requires forall p :: p in ps ==> p.marker in known
    requires forall m :: m in FindAll(MarkerLikeRe, text) ==> m in known
    ensures forall m :: m in WovenTokens(MarkerLikeRe, text, cursor, ps) ==> m in known
    decreases |ps|
  {
    if ps == [] {
      assert text[cursor..] == text[cursor..|text|];
      GapTokensOld(text, cursor, |text|);
    } else {
      OrderedBounds(ps, cursor, |text|);
      GapTokensOld(text, cursor, ps[0].lo);
      WovenTokensOld(text, ps[0].hi, ps[1..], known);
    }
  }

  lemma GapTokensOld(text: string, a: nat, b: nat)
    requires a <= b <= |text|
    ensures forall m :: m in FindAll(MarkerLikeRe, text[a..b]) ==> m in FindAll(MarkerLikeRe, text)
  {
    forall m | m in FindAll(MarkerLikeRe, text[a..b]) ensures m in FindAll(MarkerLikeRe, text) {
      var at := FoundToken(MarkerLikeRe, text[a..b], m);
      SliceTokenFound(text, a, b, at, m);
    }
  }

  lemma SliceTokenFound(text: string, a: nat, b: nat, at: nat, m: string)
    requires a <= b <= |text| && TokenAt(MarkerLikeRe, text[a..b], at, at + |m|) && text[a..b][at..at + |m|] == m
    ensures m in FindAll(MarkerLikeRe, text)
  {
    hide FindAll, MatcherOf, MatchLen;
    TokenInSlice(MarkerLikeRe, text, a, b, at, at + |m|);
    SliceOfSlice(text, a, b, at, at + |m|);
    TokenFound(MarkerLikeRe, text, a + at, a + at + |m|);
  }

  /** Markers known before are known after, so a restorable text stays restorable. */
  lemma PropagateKeepsKnown(u: Alphabet, text: string, entries: seq<Alias>, values: map<string, string>)
    requires forall e :: e in entries ==> IsMarker(e.marker) && e.marker in values
    requires ShortMarkers(values)
    requires forall m :: m in FindAll(MarkerLikeRe, text) ==> m in values
    ensures forall m :: m in FindAll(MarkerLikeRe, Propagate(u, text, entries)) ==> m in values
  {
    var ps := Accepted(u, text, entries);
    AcceptedInOrder(u, text, entries);
    AcceptedMarkers(u, text, entries);
    forall p | p in ps ensures Insertable(MarkerLikeRe, p.marker) && p.marker in values.Keys {
      var e :| e in entries && e.marker == p.marker;
      ShortInsertable(p.marker);
    }
    TokensOfWeave(MarkerLikeRe, text, 0, ps);
    WovenTokensOld(text, 0, ps, values.Keys);
  }
}
