/** Lists of retrieved hits: merging, cutting, and how they grow. */
module Pipeline {
  import opened Common

  datatype Hit = Hit(chunkId: string, content: string)

  predicate Holds(hits: seq<Hit>, id: string) {
    exists i :: 0 <= i < |hits| && hits[i].chunkId == id
  }

  /** The hits of a list whose chunk is not already in `seen`, each chunk once. */
  function Fresh(seen: seq<Hit>, hits: seq<Hit>): seq<Hit>
    decreases |hits|
  {
    if hits == [] then seen
    else if Holds(seen, hits[0].chunkId) then Fresh(seen, hits[1..])
    else Fresh(seen + [hits[0]], hits[1..])
  }

  function Merge(primary: seq<Hit>, secondary: seq<Hit>): seq<Hit> {
    Fresh([], primary + secondary)
  }

  /** `_merge_hits` */
  method MergeHits(primary: seq<Hit>, secondary: seq<Hit>) returns (merged: seq<Hit>)
    ensures merged == Merge(primary, secondary)
  {
    var all := primary + secondary;
    var seen: set<string> := {};
    merged := [];
    for i := 0 to |all|
      invariant Fresh(merged, all[i..]) == Fresh([], all)
      invariant forall id :: id in seen <==> Holds(merged, id)
    {
      assert all[i..][0] == all[i] && all[i..][1..] == all[i + 1..];
      if all[i].chunkId !in seen {
        SeenSnoc(merged, all[i]);
        seen := seen + {all[i].chunkId};
        merged := merged + [all[i]];
      }
    }
  }

  lemma SeenSnoc(hits: seq<Hit>, h: Hit)
    ensures forall id :: Holds(hits + [h], id) <==> Holds(hits, id) || id == h.chunkId
  {
    forall id ensures Holds(hits + [h], id) <==> Holds(hits, id) || id == h.chunkId {
      if Holds(hits, id) {
        var i :| 0 <= i < |hits| && hits[i].chunkId == id;
        assert (hits + [h])[i].chunkId == id;
      }
      assert (hits + [h])[|hits|] == h;
    }
  }

  function Cut(hits: seq<Hit>, max: nat): seq<Hit> {
    if |hits| <= max then hits else hits[..max]
  }

  ghost predicate Unique(hits: seq<Hit>) {
    forall i, j :: 0 <= i < j < |hits| ==> hits[i].chunkId != hits[j].chunkId
  }

  // ---- merging ----

  lemma {:induction false} FreshIs(seen: seq<Hit>, hits: seq<Hit>)
    requires Unique(seen)
    ensures Unique(Fresh(seen, hits)) && seen <= Fresh(seen, hits)
    ensures forall id :: Holds(Fresh(seen, hits), id) <==> Holds(seen, id) || Holds(hits, id)
    decreases |hits|
  {
    if hits != [] {
      var h := hits[0];
      SeenCons(hits);
      SeenSnoc(seen, h);
      if Holds(seen, h.chunkId) {
        FreshIs(seen, hits[1..]);
      } else {
        UniqueSnoc(seen, h);
        FreshIs(seen + [h], hits[1..]);
      }
    }
  }

  lemma UniqueSnoc(seen: seq<Hit>, h: Hit)
    requires Unique(seen) && !Holds(seen, h.chunkId)
    ensures Unique(seen + [h])
  {
  }

  lemma SeenCons(hits: seq<Hit>)
    requires hits != []
    ensures forall id :: Holds(hits, id) <==> hits[0].chunkId == id || Holds(hits[1..], id)
  {
    forall id ensures Holds(hits, id) <==> hits[0].chunkId == id || Holds(hits[1..], id) {
      if Holds(hits[1..], id) {
        var i :| 0 <= i < |hits[1..]| && hits[1..][i].chunkId == id;
        assert hits[i + 1].chunkId == id;
      }
      if Holds(hits, id) && hits[0].chunkId != id {
        var i :| 0 <= i < |hits| && hits[i].chunkId == id;
        assert hits[1..][i - 1].chunkId == id;
      }
    }
  }

  lemma {:induction false} FreshConcat(seen: seq<Hit>, a: seq<Hit>, b: seq<Hit>)
    ensures Fresh(seen, a + b) == Fresh(Fresh(seen, a), b)
    decreases |a|
  {
    if a == [] {
      assert a + b == b;
    } else {
      assert (a + b)[1..] == a[1..] + b;
      FreshConcat(if Holds(seen, a[0].chunkId) then seen else seen + [a[0]], a[1..], b);
    }
  }

  /** A list of distinct chunks passes unchanged. */
  lemma {:induction false} FreshKeeps(seen: seq<Hit>, hits: seq<Hit>)
    requires Unique(seen + hits)
    ensures Fresh(seen, hits) == seen + hits
    decreases |hits|
  {
    if hits == [] {
      assert seen + hits == seen;
    } else {
      assert !Holds(seen, hits[0].chunkId) by {
        forall i | 0 <= i < |seen| ensures seen[i].chunkId != hits[0].chunkId {
          assert (seen + hits)[i] == seen[i] && (seen + hits)[|seen|] == hits[0];
        }
      }
      assert seen + hits == (seen + [hits[0]]) + hits[1..];
      FreshKeeps(seen + [hits[0]], hits[1..]);
    }
  }

  lemma MergeIs(primary: seq<Hit>, secondary: seq<Hit>)
    ensures Unique(Merge(primary, secondary))
    ensures forall id :: Holds(Merge(primary, secondary), id) <==> Holds(primary + secondary, id)
    ensures Unique(primary) ==>
              primary <= Merge(primary, secondary) && Merge(primary, secondary) == Fresh(primary, secondary)
  {
    FreshIs([], primary + secondary);
    FreshConcat([], primary, secondary);
    if Unique(primary) {
      assert [] + primary == primary;
      FreshKeeps([], primary);
      FreshIs(primary, secondary);
    }
  }

  /** The first place of each chunk in a list, in order. */
  ghost predicate Firsts(all: seq<Hit>, merged: seq<Hit>, at: seq<nat>) {
    && |at| == |merged|
    && (forall p :: 0 <= p < |at| ==> at[p] < |all| && all[at[p]] == merged[p])
    && (forall p, q :: 0 <= p < q < |at| ==> at[p] < at[q])
    && (forall p, j :: 0 <= p < |at| && 0 <= j < at[p] ==> all[j].chunkId != all[at[p]].chunkId)
  }

  lemma {:induction false} FreshFirsts(all: seq<Hit>, n: nat, seen: seq<Hit>, at: seq<nat>) returns (at': seq<nat>)
    requires n <= |all| && Firsts(all, seen, at) && (forall p :: 0 <= p < |at| ==> at[p] < n)
    requires forall id :: Holds(seen, id) <==> Holds(all[..n], id)
    ensures Firsts(all, Fresh(seen, all[n..]), at')
    decreases |all| - n
  {
    if n == |all| {
      at' := at;
    } else {
      var h := all[n];
      assert all[n..][0] == h && all[n..][1..] == all[n + 1..];
      assert all[..n + 1] == all[..n] + [h];
      SeenSnoc(all[..n], h);
      SeenSnoc(seen, h);
      if Holds(seen, h.chunkId) {
        at' := FreshFirsts(all, n + 1, seen, at);
      } else {
        forall j | 0 <= j < n ensures all[j].chunkId != h.chunkId {
          assert all[..n][j] == all[j];
        }
        at' := FreshFirsts(all, n + 1, seen + [h], at + [n]);
      }
    }
  }

  /** A merge is the two lists one after the other, with only the first hit of each chunk kept. */
  lemma MergeKeepsFirsts(primary: seq<Hit>, secondary: seq<Hit>) returns (at: seq<nat>)
    ensures Firsts(primary + secondary, Merge(primary, secondary), at)
    ensures forall id :: Holds(Merge(primary, secondary), id) <==> Holds(primary + secondary, id)
  {
    var all := primary + secondary;
    assert all[0..] == all;
    at := FreshFirsts(all, 0, [], []);
    MergeIs(primary, secondary);
  }

  /** The next evidence list extends the old one exactly when the old one repeats no chunk. */
  lemma EvidenceGrowsIff(hits: seq<Hit>, found: seq<Hit>, max: nat)
    requires |hits| <= max
    ensures hits <= Cut(Merge(hits, found), max) <==> Unique(hits)
    ensures Unique(Cut(Merge(hits, found), max))
  {
    MergeIs(hits, found);
    var merged := Merge(hits, found);
    var cut := Cut(merged, max);
    assert cut <= merged;
  }

  lemma CutMerge(hits: seq<Hit>, a: seq<Hit>, b: seq<Hit>, max: nat)
    requires Unique(hits) && |hits| <= max
    ensures Cut(Merge(Cut(Merge(hits, a), max), b), max) == Cut(Merge(hits, a + b), max)
  {
    var first := Merge(hits, a);
    MergeIs(hits, a);
    MergeIs(hits, a + b);
    FreshConcat(hits, a, b);
    FreshIs(first, b);
    var cut := Cut(first, max);
    MergeIs(cut, b);
  }

  /** The first list: cut to the limit, after the attachment's own hits when there is one. */
  function FirstEvidence(attached: Option<seq<Hit>>, searched: seq<Hit>, maxContexts: nat): seq<Hit> {
    Cut(match attached case None => searched case Some(direct) => Merge(direct, searched), maxContexts)
  }

  /** The first list is the beginning of the search's hits, or with an attachment of its hits and
      then the search's, each chunk at its first place. */
  lemma FirstEvidenceIs(attached: Option<seq<Hit>>, searched: seq<Hit>, maxContexts: nat) returns (at: seq<nat>)
    ensures attached.None? ==> FirstEvidence(attached, searched, maxContexts) <= searched
    ensures attached.None? && |searched| > maxContexts ==>
              |FirstEvidence(attached, searched, maxContexts)| == maxContexts
    ensures attached.None? && |searched| <= maxContexts ==> FirstEvidence(attached, searched, maxContexts) == searched
    ensures attached.Some? ==>
              var merged := Merge(attached.value, searched);
              && Firsts(attached.value + searched, merged, at)
              && FirstEvidence(attached, searched, maxContexts)
                 == if |merged| > maxContexts then merged[..maxContexts] else merged
  {
    at := [];
    if attached.Some? {
      at := MergeKeepsFirsts(attached.value, searched);
    }
  }

  lemma FirstEvidenceUnique(attached: Option<seq<Hit>>, searched: seq<Hit>, maxContexts: nat)
    ensures |FirstEvidence(attached, searched, maxContexts)| <= maxContexts
    ensures attached.Some? || Unique(searched) ==> Unique(FirstEvidence(attached, searched, maxContexts))
  {
    if attached.Some? {
      MergeIs(attached.value, searched);
    }
  }
}
