/** Entity spans and the ranked greedy pass that makes them disjoint. */
module Spans {
  import opened Sorting

  datatype RawSpan = Span(start: nat, end: nat, tag: string, score: real, source: string, priority: int)

  /** `EntitySpan.__post_init__` refuses empty spans. */
  type EntitySpan = s: RawSpan | s.start < s.end witness Span(0, 1, "", 0.0, "", 0)

  /** The sort key of the greedy pass; its components determine the extent. */
  datatype Rank = Rank(priority: int, score: real, start: nat, end: nat)

  function RankOf(s: EntitySpan): Rank {
    Rank(s.priority, s.score, s.start, s.end)
  }

  /** Lexicographic `(-priority, -score, -(end - start), start, end)`. */
  predicate Before(a: Rank, b: Rank) {
    if a.priority != b.priority then a.priority > b.priority
    else if a.score != b.score then a.score > b.score
    else if a.end - a.start != b.end - b.start then a.end - a.start > b.end - b.start
    else if a.start != b.start then a.start < b.start
    else a.end < b.end
  }

  predicate RankLeq(a: EntitySpan, b: EntitySpan) {
    !Before(RankOf(b), RankOf(a))
  }

  predicate PositionLeq(a: EntitySpan, b: EntitySpan) {
    a.start < b.start || (a.start == b.start && a.end <= b.end)
  }

  predicate Overlap(a: EntitySpan, b: EntitySpan) {
    a.start < b.end && b.start < a.end
  }

  predicate Precedes(a: EntitySpan, b: EntitySpan) {
    a.end <= b.start
  }

  function Greedy(candidates: seq<EntitySpan>, accepted: seq<EntitySpan>): seq<EntitySpan> {
    if candidates == [] then accepted
    else if exists existing :: existing in accepted && Overlap(candidates[0], existing) then
      Greedy(candidates[1..], accepted)
    else Greedy(candidates[1..], accepted + [candidates[0]])
  }

  function Merge(spans: seq<EntitySpan>): seq<EntitySpan> {
    Sorted(Greedy(Sorted(spans, RankLeq), []), PositionLeq)
  }

  method MergeSpans(spans: seq<EntitySpan>) returns (merged: seq<EntitySpan>)
    ensures merged == Merge(spans)
  {
    var candidates := Sorted(spans, RankLeq);
    var accepted: seq<EntitySpan> := [];
    for i := 0 to |candidates|
      invariant Greedy(candidates[i..], accepted) == Greedy(candidates, [])
    {
      var candidate := candidates[i];
      var clash := false;
      for j := 0 to |accepted|
        invariant clash <==> exists k :: 0 <= k < j && Overlap(candidate, accepted[k])
      {
        clash := clash || Overlap(candidate, accepted[j]);
      }
      assert candidates[i..][1..] == candidates[i + 1..];
      if !clash {
        accepted := accepted + [candidate];
      }
    }
    merged := Sorted(accepted, PositionLeq);
  }

  ghost predicate Disjoint(s: seq<EntitySpan>) {
    forall i, j :: 0 <= i < j < |s| ==> !Overlap(s[i], s[j])
  }

  lemma RankOrder()
    ensures IsKeyOrder(RankLeq) && IsKeyOrder(PositionLeq)
  {
  }

  /** `c` is kept, or loses to a kept span that overlaps it and ranks no lower. */
  ghost predicate Settled(c: EntitySpan, kept: seq<EntitySpan>) {
    c in kept || exists a :: a in kept && RankLeq(a, c) && Overlap(a, c)
  }

  /** Without its first candidate the list is still sorted, and that candidate is behind
      everything accepted. */
  lemma DropOne(accepted: seq<EntitySpan>, candidates: seq<EntitySpan>, existing: EntitySpan)
    requires SortedBy(accepted + candidates, RankLeq) && candidates != [] && existing in accepted
    ensures SortedBy(accepted + candidates[1..], RankLeq) && RankLeq(existing, candidates[0])
  {
    var all, rest := accepted + candidates, accepted + candidates[1..];
    var i :| 0 <= i < |accepted| && accepted[i] == existing;
    assert RankLeq(all[i], all[|accepted|]);
    forall i, j | 0 <= i < j < |rest| ensures RankLeq(rest[i], rest[j]) {
      var i', j' := if i < |accepted| then i else i + 1, if j < |accepted| then j else j + 1;
      assert RankLeq(all[i'], all[j']);
    }
  }

  lemma {:induction false} GreedyProperties(candidates: seq<EntitySpan>, accepted: seq<EntitySpan>)
    requires SortedBy(accepted + candidates, RankLeq)
    requires Disjoint(accepted)
    ensures accepted <= Greedy(candidates, accepted)
    ensures Disjoint(Greedy(candidates, accepted))
    ensures forall x :: x in Greedy(candidates, accepted) ==> x in accepted || x in candidates
    ensures forall c :: c in candidates ==> Settled(c, Greedy(candidates, accepted))
  {
    if candidates != [] {
      var c, rest := candidates[0], candidates[1..];
      assert accepted + candidates == (accepted + [c]) + rest;
      if existing :| existing in accepted && Overlap(c, existing) {
        DropOne(accepted, candidates, existing);
        GreedyProperties(rest, accepted);
        assert existing in Greedy(candidates, accepted);
        assert Settled(c, Greedy(candidates, accepted));
      } else {
        forall i | 0 <= i < |accepted| ensures !Overlap(accepted[i], c) {
          assert accepted[i] in accepted;
        }
        GreedyProperties(rest, accepted + [c]);
        assert c in accepted + [c];
      }
    }
  }

  /** The result is in strict reading order, drawn from the input, and every input span is
      kept or loses to a kept overlapping span of no lower rank. */
  lemma MergeProperties(spans: seq<EntitySpan>)
    ensures SortedBy(Merge(spans), Precedes)
    ensures forall x :: x in Merge(spans) ==> x in spans
    ensures forall c :: c in spans ==> Settled(c, Merge(spans))
  {
    RankOrder();
    var candidates := Sorted(spans, RankLeq);
    SortedIsSorted(spans, RankLeq);
    SameElements(candidates, spans);
    assert [] + candidates == candidates;
    GreedyProperties(candidates, []);
    var kept := Greedy(candidates, []);
    SortedIsSorted(kept, PositionLeq);
    SameElements(Merge(spans), kept);
    DisjointPermutation(kept, Merge(spans));
    forall c | c in spans ensures Settled(c, Merge(spans)) {
      assert Settled(c, kept);
    }
  }

  /** `k` wins over `c`: a higher priority; or as high a one and a higher score; or both as high
      and longer; or as long and earlier; or the same extent. */
  predicate WinsOver(k: EntitySpan, c: EntitySpan) {
    || k.priority > c.priority
    || (k.priority == c.priority && k.score > c.score)
    || (k.priority == c.priority && k.score == c.score &&
        var n, m := k.end - k.start, c.end - c.start;
        n > m || (n == m && k.start <= c.start))
  }

  /** The same in terms of the fields: of two accepted spans one ends where or before the other
      begins, and every span offered is accepted or shares a character with an accepted one that
      wins over it. */
  lemma MergeByFields(spans: seq<EntitySpan>)
    ensures forall i, j :: 0 <= i < j < |Merge(spans)| ==> Merge(spans)[i].end <= Merge(spans)[j].start
    ensures forall c :: c in spans ==>
              c in Merge(spans)
              || exists k :: k in Merge(spans) && k.start < c.end && c.start < k.end && WinsOver(k, c)
  {
    hide Merge;
    MergeProperties(spans);
    forall c | c in spans && c !in Merge(spans)
      ensures exists k :: k in Merge(spans) && k.start < c.end && c.start < k.end && WinsOver(k, c)
    {
      var k :| k in Merge(spans) && RankLeq(k, c) && Overlap(k, c);
      assert WinsOver(k, c);
    }
    forall i, j | 0 <= i < j < |Merge(spans)| ensures Merge(spans)[i].end <= Merge(spans)[j].start {
      assert Precedes(Merge(spans)[i], Merge(spans)[j]);
    }
  }

  lemma DisjointPermutation(a: seq<EntitySpan>, b: seq<EntitySpan>)
    requires Disjoint(a) && multiset(a) == multiset(b) && SortedBy(b, PositionLeq)
    ensures SortedBy(b, Precedes)
  {
    forall i, j | 0 <= i < j < |b| ensures Precedes(b[i], b[j]) {
      TwoOccurrences(a, b, i, j);
    }
  }

  lemma TwoOccurrences(a: seq<EntitySpan>, b: seq<EntitySpan>, i: nat, j: nat)
    requires i < j < |b| && multiset(a) == multiset(b)
    requires Disjoint(a)
    ensures !Overlap(b[i], b[j])
  {
    SameElements(a, b);
    if b[i] == b[j] {
      assert b == b[..j] + [b[j]] + b[j + 1..];
      assert b[i] in b[..j];
      assert multiset(b)[b[i]] >= 2;
      NoDuplicates(a, b[i]);
    } else {
      assert b[i] in a && b[j] in a;
    }
  }

  lemma NoDuplicates(a: seq<EntitySpan>, x: EntitySpan)
    requires Disjoint(a)
    ensures multiset(a)[x] <= 1
  {
    if x in a {
      var k :| 0 <= k < |a| && a[k] == x;
      assert a == a[..k] + [a[k]] + a[k + 1..];
      assert x !in a[..k] && x !in a[k + 1..];
    }
  }

  lemma {:induction false} GreedyKeepsDisjoint(candidates: seq<EntitySpan>, accepted: seq<EntitySpan>)
    requires Disjoint(accepted + candidates)
    ensures Greedy(candidates, accepted) == accepted + candidates
  {
    if candidates != [] {
      var c := candidates[0];
      assert accepted + candidates == (accepted + [c]) + candidates[1..];
      forall existing | existing in accepted ensures !Overlap(c, existing) {
        var i :| 0 <= i < |accepted| && accepted[i] == existing;
        assert !Overlap((accepted + candidates)[i], (accepted + candidates)[|accepted|]);
      }
      GreedyKeepsDisjoint(candidates[1..], accepted + [c]);
    }
  }

  lemma MergeIdempotent(spans: seq<EntitySpan>)
    ensures Merge(Merge(spans)) == Merge(spans)
  {
    var r := Merge(spans);
    MergeProperties(spans);
    MergeFixesOrdered(r);
  }

  /** Spans already in strict reading order pass through unchanged. */
  lemma MergeFixesOrdered(r: seq<EntitySpan>)
    requires SortedBy(r, Precedes)
    ensures Merge(r) == r
  {
    var s := Sorted(r, RankLeq);
    forall i, j | 0 <= i < j < |s| ensures !Overlap(s[i], s[j]) {
      TwoOccurrences(r, s, i, j);
    }
    assert [] + s == s;
    GreedyKeepsDisjoint(s, []);
    RankOrder();
    SortedIsSorted(s, PositionLeq);
    DisjointPermutation(s, Sorted(s, PositionLeq));
    SameElements(Merge(r), r);
    StrictlySortedUnique(Merge(r), r, Precedes);
  }

  // ---- the accepted extents do not depend on the order of arrival ----

  function RanksOf(s: seq<EntitySpan>): (r: seq<Rank>)
    ensures |r| == |s| && forall i :: 0 <= i < |s| ==> r[i] == RankOf(s[i])
  {
    seq(|s|, i requires 0 <= i < |s| => RankOf(s[i]))
  }

  predicate RanksOverlap(a: Rank, b: Rank) {
    a.start < b.end && b.start < a.end
  }

  lemma BeforeIsStrict()
    ensures IsStrictOrder(Before)
  {
    assert forall a: Rank, b: Rank :: a.end - a.start == b.end - b.start && a.start == b.start ==> a.end == b.end;
  }

  lemma MergeIsGreedySet(spans: seq<EntitySpan>)
    ensures GreedySet(set s | s in Merge(spans) :: RankOf(s), set s | s in spans :: RankOf(s),
                      Before, RanksOverlap)
  {
    var r := Merge(spans);
    MergeProperties(spans);
    var accepted := set s | s in r :: RankOf(s);
    forall c | c in spans
      ensures RankOf(c) in accepted <==> Picked(RankOf(c), accepted, Before, RanksOverlap)
    {
      KeptIffPicked(r, c);
    }
  }

  lemma KeptIffPicked(r: seq<EntitySpan>, c: EntitySpan)
    requires SortedBy(r, Precedes) && Settled(c, r)
    ensures var accepted := set s | s in r :: RankOf(s);
            RankOf(c) in accepted <==> Picked(RankOf(c), accepted, Before, RanksOverlap)
  {
    var accepted := set s | s in r :: RankOf(s);
    if RankOf(c) in accepted {
      var k :| 0 <= k < |r| && RankOf(r[k]) == RankOf(c);
      forall a | a in accepted && Before(a, RankOf(c)) ensures !RanksOverlap(a, RankOf(c)) {
        var j :| 0 <= j < |r| && RankOf(r[j]) == a;
        assert if j < k then Precedes(r[j], r[k]) else Precedes(r[k], r[j]);
      }
    } else {
      var a :| a in r && RankLeq(a, c) && Overlap(a, c);
      assert RankOf(a) in accepted && RankOf(a) != RankOf(c);
      BeforeIsStrict();
      assert RanksOverlap(RankOf(a), RankOf(c));
    }
  }

  predicate RankPrecedes(a: Rank, b: Rank) {
    a.end <= b.start && a.start < a.end && b.start < b.end
  }

  /** Detectors may deliver the same spans in any order, with any multiplicity and with any
      labels on tied spans: the accepted priorities, scores and extents are the same. */
  lemma MergeOrderIndependent(xs: seq<EntitySpan>, ys: seq<EntitySpan>)
    requires (set s | s in xs :: RankOf(s)) == (set s | s in ys :: RankOf(s))
    ensures RanksOf(Merge(xs)) == RanksOf(Merge(ys))
  {
    MergeIsGreedySet(xs);
    MergeIsGreedySet(ys);
    var a, b := RanksOf(Merge(xs)), RanksOf(Merge(ys));
    var sa, sb := set s | s in Merge(xs) :: RankOf(s), set s | s in Merge(ys) :: RankOf(s);
    BeforeIsStrict();
    GreedySetUnique(sa, sb, set s | s in xs :: RankOf(s), Before, RanksOverlap);
    MergeProperties(xs);
    MergeProperties(ys);
    RanksAreSet(Merge(xs));
    RanksAreSet(Merge(ys));
    forall k ensures k in a <==> k in b {
      assert k in a <==> k in sa;
      assert k in b <==> k in sb;
    }
    StrictlySortedUnique(a, b, RankPrecedes);
  }

  lemma RanksAreSet(r: seq<EntitySpan>)
    requires SortedBy(r, Precedes)
    ensures SortedBy(RanksOf(r), RankPrecedes)
    ensures forall k :: k in RanksOf(r) <==> k in set s | s in r :: RankOf(s)
  {
    var ks := RanksOf(r);
    forall i, j | 0 <= i < j < |ks| ensures RankPrecedes(ks[i], ks[j]) {
      assert Precedes(r[i], r[j]);
    }
    forall k ensures k in ks <==> k in set s | s in r :: RankOf(s) {
      if k in ks {
        var i :| 0 <= i < |ks| && ks[i] == k;
        assert r[i] in r;
      }
    }
  }

  // ---- spans nothing can displace ----

  /** Every offered span that overlaps `c` ranks strictly behind it or has its extent. */
  ghost predicate Unbeatable(c: EntitySpan, spans: seq<EntitySpan>) {
    c in spans && forall s :: s in spans && Overlap(s, c) ==>
      Before(RankOf(c), RankOf(s)) || (s.start == c.start && s.end == c.end)
  }

  lemma UnbeatableKept(c: EntitySpan, spans: seq<EntitySpan>)
    requires Unbeatable(c, spans)
    ensures exists k :: k in Merge(spans) && k.start == c.start && k.end == c.end
  {
    MergeProperties(spans);
    assert Settled(c, Merge(spans));
  }
}
