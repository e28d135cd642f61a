/** An occurrence of a known value that neither propagation replaces: it overlaps an earlier
    occurrence of the same value, which loses its place to another value. */
module Shadows {
  import opened Common
  import opened Text
  import opened Scanner
  import opened Markers
  import opened Sorting
  import opened Spans
  import opened Alphabet
  import opened Weaving
  import opened Gateway
  import opened RoundTrip
  import opened Propagation
  import opened Context

  const TEXT := "7-12-12-12"
  const LATER := "12-12"
  const FIRST := "7-12"

  /** Digits and hyphens are not letters and have no case. */
  predicate Plain(u: Alphabet) {
    forall c :: c in {'1', '2', '7', '-'} ==> !u.isAlpha(c) && u.fold(c) == c
  }

  function Entries(m: string, m': string): seq<Alias> {
    [Alias(LATER, m), Alias(FIRST, m')]
  }

  lemma PlainChars(c: string)
    requires c in {TEXT, LATER, FIRST}
    ensures forall i :: 0 <= i < |c| ==> c[i] in {'1', '2', '7', '-'}
  {
  }

  lemma PlainFold(u: Alphabet, c: string)
    requires Plain(u) && forall i :: 0 <= i < |c| ==> c[i] in {'1', '2', '7', '-'}
    ensures Fold(u, c) == c
  {
  }

  /** A plain value occurs where it is spelled. */
  lemma OccursSpelled(u: Alphabet, i: nat, c: string)
    requires Plain(u) && c in {LATER, FIRST}
    ensures OccursAt(u, TEXT, i, c) <==> i + |c| <= |TEXT| && TEXT[i..i + |c|] == c
  {
    PlainChars(TEXT);
    PlainChars(c);
    PlainFold(u, c);
    if i + |c| <= |TEXT| {
      PlainFold(u, TEXT[i..i + |c|]);
    }
  }

  lemma Spelled(i: nat)
    ensures i + 5 <= |TEXT| && TEXT[i..i + 5] == LATER <==> i == 2 || i == 5
    ensures i + 4 <= |TEXT| && TEXT[i..i + 4] == FIRST <==> i == 0
  {
    if i + 5 <= |TEXT| && TEXT[i..i + 5] == LATER {
      assert TEXT[i] == TEXT[i..i + 5][0] && TEXT[i + 2] == TEXT[i..i + 5][2];
    }
    if i + 4 <= |TEXT| && TEXT[i..i + 4] == FIRST {
      assert TEXT[i] == TEXT[i..i + 4][0];
    }
  }

  lemma Trimmed()
    ensures Strip(LATER) == LATER && Strip(FIRST) == FIRST
  {
    hide Strip;
    StripTrimmed(LATER);
    StripTrimmed(FIRST);
  }

  /** Where the two values occur. */
  lemma Places(u: Alphabet, i: nat)
    requires Plain(u)
    ensures OccursAt(u, TEXT, i, LATER) <==> i == 2 || i == 5
    ensures OccursAt(u, TEXT, i, FIRST) <==> i == 0
  {
    hide OccursAt;
    OccursSpelled(u, i, LATER);
    OccursSpelled(u, i, FIRST);
    Spelled(i);
  }

  /** The scan takes the first of the two overlapping occurrences. */
  lemma TakenLater(u: Alphabet)
    requires Plain(u)
    ensures forall r :: r in KnownRanges(u, TEXT, LATER) <==> r == Range(2, 7)
  {
    hide KnownRanges, OccursAt, Strip, Plain;
    Trimmed();
    Places(u, 2);
    KnownRangesAre(u, TEXT, LATER);
    var found := KnownRanges(u, TEXT, LATER);
    var a :| a in found && a.lo <= 2 < a.hi;
    Places(u, a.lo);
    forall r | r in found ensures r == a {
      Places(u, r.lo);
      OnlyOne(found, a, r);
    }
  }

  lemma OnlyOne(found: seq<Range>, a: Range, r: Range)
    requires InOrder(found) && a in found && r in found && a.lo < r.hi && r.lo < a.hi && a.lo <= a.hi && r.lo <= r.hi
    ensures a == r
  {
    var j :| 0 <= j < |found| && found[j] == a;
    var k :| 0 <= k < |found| && found[k] == r;
  }

  lemma TakenFirst(u: Alphabet)
    requires Plain(u)
    ensures forall r :: r in KnownRanges(u, TEXT, FIRST) <==> r == Range(0, 4)
  {
    hide KnownRanges, OccursAt, Strip, Plain, InOrder;
    Trimmed();
    Places(u, 0);
    KnownRangesAre(u, TEXT, FIRST);
    var b :| b in KnownRanges(u, TEXT, FIRST) && b.lo <= 0 < b.hi;
    Places(u, b.lo);
    forall r | r in KnownRanges(u, TEXT, FIRST) ensures r == b {
      Places(u, r.lo);
    }
  }

  lemma Taken(u: Alphabet)
    requires Plain(u)
    ensures forall r :: r in KnownRanges(u, TEXT, LATER) <==> r == Range(2, 7)
    ensures forall r :: r in KnownRanges(u, TEXT, FIRST) <==> r == Range(0, 4)
  {
    hide KnownRanges, Plain;
    TakenLater(u);
    TakenFirst(u);
  }

  // ---- re-applied aliases ----

  lemma NoBrackets(lo: nat, hi: nat)
    ensures !TokenAt(MarkerRe, TEXT, lo, hi)
  {
    hide TokenAt;
    TokenAtIff(MarkerRe, TEXT, lo, hi);
    PlainChars(TEXT);
  }

  lemma Offered(u: Alphabet, m: string, m': string)
    requires Plain(u)
    ensures forall p :: p in Candidates(FinderOf(u, TEXT), Entries(m, m'), MarkedRanges(TEXT)) ==>
              p == Patch(2, 7, m) || p == Patch(0, 4, m')
    ensures Patch(0, 4, m') in Candidates(FinderOf(u, TEXT), Entries(m, m'), MarkedRanges(TEXT))
  {
    hide KnownRanges;
    Taken(u);
    var find, marked := FinderOf(u, TEXT), MarkedRanges(TEXT);
    CandidateSet(find, Entries(m, m'), marked);
    FreeFrom(find(LATER), marked, m);
    FreeFrom(find(FIRST), marked, m');
    forall lo: nat, hi: nat ensures !TokenAt(MarkerRe, TEXT, lo, hi) {
      NoBrackets(lo, hi);
    }
    ApartUntouched(TEXT, Range(0, 4), m');
    FreeHas(find(FIRST), marked, m', Range(0, 4));
    assert Entries(m, m')[1] in Entries(m, m');
  }

  /** Re-applying the two aliases leaves the second occurrence of the first one as it is. */
  lemma AliasLeft(u: Alphabet, m: string, m': string)
    requires Plain(u)
    ensures OccursAt(u, TEXT, 5, Strip(LATER)) && Alias(LATER, m) in Entries(m, m')
    ensures FreeOfMarkers(TEXT, 5, 10) && !Covered(u, TEXT, Entries(m, m'), 5, 10)
  {
    hide OccursAt, Strip, Accepted, Candidates, KnownRanges;
    Trimmed();
    Places(u, 5);
    Offered(u, m, m');
    var es := Entries(m, m');
    assert es[0] in es;
    var kept := set p | p in Accepted(u, TEXT, es);
    AcceptedIsGreedy(u, TEXT, es);
    AcceptedInOrder(u, TEXT, es);
    var first := Patch(0, 4, m');
    forall p | p in kept && PatchLess(p, first) ensures !Clash(p, first) {
      assert p == Patch(2, 7, m) || p == first;
      StringTotal(m', m');
    }
    assert first in kept;
    OrderedApart(Accepted(u, TEXT, es), 0, |TEXT|);
    forall p | p in Accepted(u, TEXT, es) ensures p == first {
      if p == Patch(2, 7, m) {
        KeptArePicked(Accepted(u, TEXT, es), 0, |TEXT|);
        assert Clash(p, first);
      }
    }
    forall lo: nat, hi: nat ensures !TokenAt(MarkerRe, TEXT, lo, hi) {
      NoBrackets(lo, hi);
    }
  }

  // ---- known values ----

  /** The same two values, the other one with the higher priority, propagated to a field in which
      nothing was detected. */
  lemma KnownLeft(u: Alphabet, tag: string)
    requires Plain(u)
    ensures var known := [Known(tag, LATER, 0), Known(tag, FIRST, 1)];
            OccursAt(u, TEXT, 5, Strip(LATER)) && !Spanned(Completed(u, Field(TEXT, []), known), 5, 10)
  {
    hide OccursAt, Strip, KnownRanges, Merge, PropagateKnown;
    Trimmed();
    Places(u, 5);
    var known := [Known(tag, LATER, 0), Known(tag, FIRST, 1)];
    var all := [] + PropagateKnown(u, TEXT, known, {});
    KnownExtents(u, known, tag);
    FirstWins(all);
  }

  lemma KnownExtents(u: Alphabet, known: seq<Known>, tag: string)
    requires Plain(u) && known == [Known(tag, LATER, 0), Known(tag, FIRST, 1)]
    ensures forall s <- PropagateKnown(u, TEXT, known, {}) ::
              (s.start == 2 && s.end == 7 && s.priority == 0) || (s.start == 0 && s.end == 4 && s.priority == 1)
    ensures exists s <- PropagateKnown(u, TEXT, known, {}) :: s.start == 0 && s.end == 4
  {
    hide KnownRanges, PropagateKnown, Plain;
    Taken(u);
    PropagatedFrom(u, TEXT, known, {});
    assert known[1] in known;
    PropagatedHas(u, TEXT, known, {}, known[1], Range(0, 4));
  }

  lemma FirstWins(all: seq<EntitySpan>)
    requires forall s :: s in all ==>
               (s.start == 2 && s.end == 7 && s.priority == 0) || (s.start == 0 && s.end == 4 && s.priority == 1)
    requires exists s :: s in all && s.start == 0 && s.end == 4
    ensures forall s :: s in Merge(all) ==> s.end == 4
  {
    hide Merge;
    var s :| s in all && s.start == 0 && s.end == 4;
    MergeByFields(all);
    MergeProperties(all);
    var k :| k in Merge(all) && (k == s || (k.start < s.end && s.start < k.end && WinsOver(k, s)));
    assert k in all && k.end == 4;
    forall x | x in Merge(all) ensures x.end == 4 {
      assert x in all;
      ApartOrSame(Merge(all), k, x);
    }
  }

  lemma ApartOrSame(merged: seq<EntitySpan>, k: EntitySpan, x: EntitySpan)
    requires SortedBy(merged, Precedes) && k in merged && x in merged
    ensures k == x || k.end <= x.start || x.end <= k.start
  {
    var i :| 0 <= i < |merged| && merged[i] == k;
    var j :| 0 <= j < |merged| && merged[j] == x;
    assert i < j ==> Precedes(merged[i], merged[j]);
    assert j < i ==> Precedes(merged[j], merged[i]);
  }

  /** A propagated span has the extent, the label and the priority of a known value. */
  lemma {:induction false} PropagatedFrom(u: Alphabet, text: string, known: seq<Known>, seen: set<(nat, nat, string)>)
    ensures forall s :: s in PropagateKnown(u, text, known, seen) ==>
              exists k :: k in known && s.tag == k.tag && s.priority == k.priority
                          && Range(s.start, s.end) in KnownRanges(u, text, k.value)
  {
    if known != [] {
      var found := KnownRanges(u, text, known[0].value);
      KnownRangesProper(u, text, known[0].value);
      SpansAtAre(known[0], found, seen);
      PropagatedFrom(u, text, known[1..], SeenAfter(known[0], found, seen));
      assert known[0] in known;
    }
  }
}
