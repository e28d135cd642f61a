/** The bounded document context of a retrieval, document by document. */
module ParentContext {
  import opened Common
  import opened Parents

  // ---- the whole context ----

  datatype Settings = Settings(enabled: bool, total: int, maxWhole: int, wholeMax: int, logicalMax: nat)

  /** Reading a hit's document back, verified against its revision; None when it cannot be. */
  type Loader = Hit -> Option<Extracted>

  ghost predicate Sound(load: Loader) {
    forall h :: load(h).Some? ==> Located(load(h).value.locations)
  }

  /** `groups.setdefault((document_id, revision), []).append(hit)` */
  function AddToGroup(groups: seq<seq<Hit>>, hit: Hit): seq<seq<Hit>> {
    if groups == [] then [[hit]]
    else if groups[0] != [] && SameDocument(groups[0][0], hit) then [groups[0] + [hit]] + groups[1..]
    else [groups[0]] + AddToGroup(groups[1..], hit)
  }

  predicate SameDocument(a: Hit, b: Hit) {
    a.documentId == b.documentId && a.revision == b.revision
  }

  function Groups(hits: seq<Hit>): seq<seq<Hit>> {
    if hits == [] then [] else AddToGroup(Groups(hits[..|hits| - 1]), hits[|hits| - 1])
  }

  /** The hits of one document, each cut to what is left. */
  function Fallback(group: seq<Hit>, remaining: int): seq<Hit> {
    if group == [] || remaining <= 0 then []
    else
      var text := Slice(group[0].text, 0, remaining);
      if text == "" then Fallback(group[1..], remaining)
      else [group[0].(text := text, scope := RetrievedChunk)] + Fallback(group[1..], remaining - |text|)
  }

  predicate FitsWhole(s: Settings, doc: Extracted, remaining: int, whole: nat) {
    !doc.truncated && whole < s.maxWhole && |doc.text| <= s.wholeMax && |doc.text| <= remaining
  }

  /** What one group contributes. */
  ghost function GroupContext(s: Settings, load: Loader, group: seq<Hit>, remaining: int, whole: nat): seq<Hit>
    requires group != [] && remaining > 0 && Sound(load)
  {
    var best := group[0];
    var doc := load(best);
    if doc.None? || doc.value.text == "" then Fallback(group, remaining)
    else if FitsWhole(s, doc.value, remaining, whole) then
      [best.(start := 0, end := |doc.value.text|, text := doc.value.text, scope := WholeDocument)]
    else
      var e := Parent(doc.value, group, Min(s.logicalMax, remaining));
      if e.text == "" then [] else [best.(start := e.start, end := e.end, text := e.text, scope := LogicalParent)]
  }

  function Chars(hits: seq<Hit>): nat {
    if hits == [] then 0 else |hits[0].text| + Chars(hits[1..])
  }

  function Wholes(hits: seq<Hit>): nat {
    if hits == [] then 0 else (if hits[0].scope == WholeDocument then 1 else 0) + Wholes(hits[1..])
  }

  ghost function ContextFrom(s: Settings, load: Loader, groups: seq<seq<Hit>>, remaining: int, whole: nat): seq<Hit>
    requires (forall i :: 0 <= i < |groups| ==> groups[i] != []) && Sound(load)
    decreases |groups|
  {
    if groups == [] || remaining <= 0 then []
    else
      var here := GroupContext(s, load, groups[0], remaining, whole);
      here + ContextFrom(s, load, groups[1..], remaining - Chars(here), whole + Wholes(here))
  }

  /** `build`, for hits already grouped by document. */
  ghost function Context(s: Settings, load: Loader, hits: seq<Hit>): seq<Hit>
    requires Sound(load)
  {
    GroupsPartition(hits);
    if !s.enabled then hits else ContextFrom(s, load, Groups(hits), s.total, 0)
  }

  method GroupHits(hits: seq<Hit>) returns (groups: seq<seq<Hit>>)
    ensures groups == Groups(hits)
  {
    groups := [];
    for i := 0 to |hits|
      invariant groups == Groups(hits[..i])
    {
      assert hits[..i + 1][..i] == hits[..i];
      groups := AddToGroup(groups, hits[i]);
    }
    assert hits[..|hits|] == hits;
  }

  method FallbackChunks(group: seq<Hit>, remaining: int) returns (kept: seq<Hit>)
    ensures kept == Fallback(group, remaining)
  {
    hide Slice;
    kept := [];
    var left := remaining;
    for i := 0 to |group|
      invariant kept + Fallback(group[i..], left) == Fallback(group, remaining)
    {
      assert group[i..] != [] && group[i..][0] == group[i] && group[i..][1..] == group[i + 1..];
      if left <= 0 {
        return;
      }
      var text := Slice(group[i].text, 0, left);
      if text != "" {
        var cut := group[i].(text := text, scope := RetrievedChunk);
        Regroup(kept, cut, Fallback(group[i + 1..], left - |text|));
        kept := kept + [cut];
        left := left - |text|;
      }
    }
  }

  method Build(s: Settings, load: Loader, hits: seq<Hit>) returns (result: seq<Hit>)
    requires Sound(load)
    ensures result == Context(s, load, hits)
  {
    hide GroupContext, Groups, OneDocumentEach, Chars, Wholes, Described, Flatten;
    GroupsPartition(hits);
    if !s.enabled {
      return hits;
    }
    var groups := GroupHits(hits);
    var remaining, whole := s.total, 0;
    result := [];
    for i := 0 to |groups|
      invariant whole >= 0
      invariant result + ContextFrom(s, load, groups[i..], remaining, whole) == ContextFrom(s, load, groups, s.total, 0)
    {
      assert groups[i..] != [] && groups[i..][0] == groups[i] && groups[i..][1..] == groups[i + 1..];
      if remaining <= 0 {
        return;
      }
      var here := BuildGroup(s, load, groups[i], remaining, whole);
      Rejoin(result, here, ContextFrom(s, load, groups[i + 1..], remaining - Chars(here), whole + Wholes(here)));
      result := result + here;
      remaining := remaining - Chars(here);
      whole := whole + Wholes(here);
    }
  }

  method BuildGroup(s: Settings, load: Loader, group: seq<Hit>, remaining: int, whole: nat) returns (here: seq<Hit>)
    requires group != [] && remaining > 0 && Sound(load)
    ensures here == GroupContext(s, load, group, remaining, whole)
  {
    var best := group[0];
    var doc := load(best);
    if doc.None? || doc.value.text == "" {
      here := FallbackChunks(group, remaining);
      return;
    }
    if FitsWhole(s, doc.value, remaining, whole) {
      return [best.(start := 0, end := |doc.value.text|, text := doc.value.text, scope := WholeDocument)];
    }
    var e := LogicalParentOf(doc.value, group, Min(s.logicalMax, remaining));
    if e.text == "" {
      return [];
    }
    return [best.(start := e.start, end := e.end, text := e.text, scope := LogicalParent)];
  }

  // ---- budgets ----

  /** `x` is `hit` with a non-empty beginning of its text. */
  predicate CutFrom(x: Hit, hit: Hit) {
    x.text != "" && x.text <= hit.text && x == hit.(text := x.text, scope := RetrievedChunk)
  }

  lemma {:induction false} FallbackWithin(group: seq<Hit>, remaining: int)
    ensures var r := Fallback(group, remaining);
            Chars(r) <= Max(0, remaining) && Wholes(r) == 0
  {
    if group != [] && remaining > 0 {
      var text := Slice(group[0].text, 0, remaining);
      FallbackWithin(group[1..], if text == "" then remaining else remaining - |text|);
    }
  }

  /** What is kept of a group is cut from its hits. */
  lemma {:induction false} FallbackCuts(group: seq<Hit>, remaining: int, x: Hit)
    requires x in Fallback(group, remaining)
    ensures exists hit <- group :: CutFrom(x, hit)
  {
    var hit, text := group[0], Slice(group[0].text, 0, remaining);
    assert hit in group && (text != "" ==> CutFrom(hit.(text := text, scope := RetrievedChunk), hit));
    if !CutFrom(x, hit) {
      FallbackCuts(group[1..], if text == "" then remaining else remaining - |text|, x);
      var other :| other in group[1..] && CutFrom(x, other);
      assert other in group;
    }
  }

  /** `x` is the best hit with the logical parent of its group for a budget. */
  ghost predicate ParentFrom(x: Hit, doc: Extracted, group: seq<Hit>, budget: nat)
    requires group != [] && Located(doc.locations)
  {
    var e := Parent(doc, group, budget);
    x == group[0].(start := e.start, end := e.end, text := e.text, scope := LogicalParent)
  }

  lemma GroupWithin(s: Settings, load: Loader, group: seq<Hit>, remaining: int, whole: nat)
    requires group != [] && remaining > 0 && Sound(load)
    ensures var r := GroupContext(s, load, group, remaining, whole);
            && Chars(r) <= remaining && whole + Wholes(r) <= Max(whole, s.maxWhole)
            && forall x <- r :: x.text != "" && Described(s, load, group, x)
  {
    hide Parent, Fallback;
    FallbackWithin(group, remaining);
    forall x | x in Fallback(group, remaining) ensures exists hit <- group :: CutFrom(x, hit) {
      FallbackCuts(group, remaining, x);
    }
    var doc := load(group[0]);
    if doc.Some? {
      var budget := Min(s.logicalMax, remaining);
      ParentWithinBudget(doc.value, group, budget);
      forall x | x in GroupContext(s, load, group, remaining, whole) && x.scope == LogicalParent
        && doc.value.text != ""
        ensures ParentFrom(x, doc.value, group, budget)
      {
      }
    }
  }

  /** What a context of each scope holds: a cut hit of a document that cannot be read, a whole
      document within its limit, or the logical parent of the group for a budget within its own. */
  ghost predicate Described(s: Settings, load: Loader, group: seq<Hit>, x: Hit)
    requires group != [] && Sound(load)
  {
    var doc := load(group[0]);
    match x.scope
    case RetrievedChunk => (doc.None? || doc.value.text == "") && exists hit <- group :: CutFrom(x, hit)
    case WholeDocument =>
      && doc.Some? && !doc.value.truncated && |x.text| <= s.wholeMax
      && x == group[0].(start := 0, end := |x.text|, text := doc.value.text, scope := WholeDocument)
    case LogicalParent =>
      && doc.Some? && |x.text| <= s.logicalMax
      && exists budget: nat :: budget <= s.logicalMax && ParentFrom(x, doc.value, group, budget)
  }

  lemma {:induction false} CharsConcat(a: seq<Hit>, b: seq<Hit>)
    ensures Chars(a + b) == Chars(a) + Chars(b) && Wholes(a + b) == Wholes(a) + Wholes(b)
  {
    if a == [] {
      assert a + b == b;
    } else {
      assert (a + b)[1..] == a[1..] + b;
      CharsConcat(a[1..], b);
    }
  }

  lemma ContextStep(s: Settings, load: Loader, groups: seq<seq<Hit>>, remaining: int, whole: nat)
    requires (forall i :: 0 <= i < |groups| ==> groups[i] != []) && Sound(load) && groups != [] && remaining > 0
    ensures var here := GroupContext(s, load, groups[0], remaining, whole);
            ContextFrom(s, load, groups, remaining, whole)
            == here + ContextFrom(s, load, groups[1..], remaining - Chars(here), whole + Wholes(here))
  {
    hide GroupContext, Chars, Wholes;
  }

  lemma {:induction false} ContextWithin(s: Settings, load: Loader, groups: seq<seq<Hit>>, remaining: int, whole: nat)
    requires (forall i :: 0 <= i < |groups| ==> groups[i] != []) && Sound(load)
    ensures var r := ContextFrom(s, load, groups, remaining, whole);
            Chars(r) <= Max(0, remaining) && whole + Wholes(r) <= Max(whole, s.maxWhole)
    decreases |groups|
  {
    hide Described, GroupContext, ContextFrom;
    if groups != [] && remaining > 0 {
      var here := GroupContext(s, load, groups[0], remaining, whole);
      GroupWithin(s, load, groups[0], remaining, whole);
      var left, whole' := remaining - Chars(here), whole + Wholes(here);
      ContextWithin(s, load, groups[1..], left, whole');
      CharsConcat(here, ContextFrom(s, load, groups[1..], left, whole'));
      ContextStep(s, load, groups, remaining, whole);
    } else {
      NoContext(s, load, groups, remaining, whole);
    }
  }

  lemma NoContext(s: Settings, load: Loader, groups: seq<seq<Hit>>, remaining: int, whole: nat)
    requires (forall i :: 0 <= i < |groups| ==> groups[i] != []) && Sound(load) && (groups == [] || remaining <= 0)
    ensures ContextFrom(s, load, groups, remaining, whole) == []
  {
  }

  ghost predicate DescribedByOne(s: Settings, load: Loader, groups: seq<seq<Hit>>, x: Hit)
    requires Sound(load)
  {
    x.text != "" && exists i :: 0 <= i < |groups| && groups[i] != [] && Described(s, load, groups[i], x)
  }

  lemma {:induction false} ContextDescribed(s: Settings, load: Loader, groups: seq<seq<Hit>>, remaining: int,
                                            whole: nat, x: Hit)
    requires (forall i :: 0 <= i < |groups| ==> groups[i] != []) && Sound(load)
    requires x in ContextFrom(s, load, groups, remaining, whole)
    ensures DescribedByOne(s, load, groups, x)
    decreases |groups|
  {
    hide Described, GroupContext, Chars, Wholes;
    var here := GroupContext(s, load, groups[0], remaining, whole);
    GroupWithin(s, load, groups[0], remaining, whole);
    ContextStep(s, load, groups, remaining, whole);
    if x !in here {
      ContextDescribed(s, load, groups[1..], remaining - Chars(here), whole + Wholes(here), x);
      var i :| 0 <= i < |groups[1..]| && groups[1..][i] != [] && Described(s, load, groups[1..][i], x);
      assert groups[1..][i] == groups[i + 1];
    }
  }

  /** The context never holds more characters than its total nor more whole documents than
      allowed; no context is empty, and each is what its scope says. */
  lemma ContextBounds(s: Settings, load: Loader, hits: seq<Hit>)
    requires s.enabled && Sound(load)
    ensures var r := Context(s, load, hits);
            && Chars(r) <= Max(0, s.total) && Wholes(r) <= Max(0, s.maxWhole)
            && forall x <- r :: DescribedByOne(s, load, Groups(hits), x)
  {
    hide DescribedByOne, ContextFrom, Groups, Chars, Wholes, OneDocumentEach;
    GroupsPartition(hits);
    ContextWithin(s, load, Groups(hits), s.total, 0);
    forall x | x in Context(s, load, hits) ensures DescribedByOne(s, load, Groups(hits), x) {
      ContextDescribed(s, load, Groups(hits), s.total, 0, x);
    }
  }

  // ---- which groups contribute what ----

  function Texts(hits: seq<Hit>): string {
    if hits == [] then "" else hits[0].text + Texts(hits[1..])
  }

  /** The hits kept of a document that cannot be read spell the beginning of all its hits' texts, as
      long as there is room. */
  lemma {:induction false} FallbackSpells(group: seq<Hit>, remaining: int)
    ensures Texts(Fallback(group, remaining)) == Slice(Texts(group), 0, Max(0, remaining))
  {
    if group != [] && remaining > 0 {
      var text := Slice(group[0].text, 0, remaining);
      FallbackSpells(group[1..], remaining - |text|);
      assert text == "" ==> Texts(Fallback(group, remaining)) == Texts(Fallback(group[1..], remaining));
      SliceOfBoth(group[0].text, Texts(group[1..]), remaining);
    }
  }

  lemma SliceOfBoth(a: string, b: string, n: nat)
    ensures Slice(a + b, 0, n) == Slice(a, 0, n) + Slice(b, 0, n - |Slice(a, 0, n)|)
  {
  }

  /** What a group contributes when `remaining` characters are left and `whole` whole documents are
      in the context: a document that cannot be read its own hits, as far as there is room; one that
      is complete, within its limit and the room, while whole documents are allowed, itself; any
      other its logical parent for the smaller of its limit and the room, unless that is empty. */
  ghost predicate Contributes(s: Settings, load: Loader, group: seq<Hit>, remaining: int, whole: nat, part: seq<Hit>)
    requires group != [] && remaining > 0 && Sound(load)
  {
    var best, doc := group[0], load(group[0]);
    if doc.None? || doc.value.text == "" then
      Texts(part) == Slice(Texts(group), 0, remaining) && forall x <- part :: exists hit <- group :: CutFrom(x, hit)
    else if !doc.value.truncated && whole < s.maxWhole && |doc.value.text| <= s.wholeMax
            && |doc.value.text| <= remaining then
      part == [best.(start := 0, end := |doc.value.text|, text := doc.value.text, scope := WholeDocument)]
    else
      var e := Parent(doc.value, group, if remaining < s.logicalMax then remaining else s.logicalMax);
      part == if e.text == "" then []
              else [best.(start := e.start, end := e.end, text := e.text, scope := LogicalParent)]
  }

  lemma GroupContributes(s: Settings, load: Loader, group: seq<Hit>, remaining: int, whole: nat)
    requires group != [] && remaining > 0 && Sound(load)
    ensures Contributes(s, load, group, remaining, whole, GroupContext(s, load, group, remaining, whole))
  {
    hide Parent, Fallback, Texts, Slice;
    FallbackSpells(group, remaining);
    forall x | x in Fallback(group, remaining) ensures exists hit <- group :: CutFrom(x, hit) {
      FallbackCuts(group, remaining, x);
    }
  }

  /** The context group by group: each contributes for the room and the number of whole documents
      that those before it leave, until no room is left. */
  ghost predicate PartsFrom(s: Settings, load: Loader, groups: seq<seq<Hit>>, remaining: int, whole: nat,
                            parts: seq<seq<Hit>>)
    requires (forall i :: 0 <= i < |groups| ==> groups[i] != []) && Sound(load)
    decreases |groups|
  {
    if groups == [] || remaining <= 0 then parts == []
    else
      && parts != [] && Contributes(s, load, groups[0], remaining, whole, parts[0])
      && PartsFrom(s, load, groups[1..], remaining - Chars(parts[0]), whole + Wholes(parts[0]), parts[1..])
  }

  lemma {:induction false} PartsOf(s: Settings, load: Loader, groups: seq<seq<Hit>>, remaining: int, whole: nat)
    returns (parts: seq<seq<Hit>>)
    requires (forall i :: 0 <= i < |groups| ==> groups[i] != []) && Sound(load)
    ensures PartsFrom(s, load, groups, remaining, whole, parts)
    ensures Flatten(parts) == ContextFrom(s, load, groups, remaining, whole)
    decreases |groups|
  {
    hide Contributes, GroupContext, Chars, Wholes;
    if groups == [] || remaining <= 0 {
      parts := [];
    } else {
      var here := GroupContext(s, load, groups[0], remaining, whole);
      GroupContributes(s, load, groups[0], remaining, whole);
      var rest := PartsOf(s, load, groups[1..], remaining - Chars(here), whole + Wholes(here));
      parts := [here] + rest;
      ContextStep(s, load, groups, remaining, whole);
    }
  }

  /** The context of a retrieval: the hits themselves when parents are switched off, otherwise what
      the documents contribute one after another, beginning with the whole room. */
  lemma ContextParts(s: Settings, load: Loader, hits: seq<Hit>) returns (parts: seq<seq<Hit>>)
    requires Sound(load)
    ensures !s.enabled ==> Context(s, load, hits) == hits
    ensures forall i :: 0 <= i < |Groups(hits)| ==> Groups(hits)[i] != []
    ensures s.enabled ==>
              PartsFrom(s, load, Groups(hits), s.total, 0, parts) && Context(s, load, hits) == Flatten(parts)
  {
    hide Groups, PartsFrom, Flatten, ContextFrom, OneDocumentEach;
    GroupsPartition(hits);
    parts := PartsOf(s, load, Groups(hits), s.total, 0);
  }

  // ---- grouping ----

  function Flatten(groups: seq<seq<Hit>>): seq<Hit> {
    if groups == [] then [] else groups[0] + Flatten(groups[1..])
  }

  predicate NoGroupFor(groups: seq<seq<Hit>>, hit: Hit) {
    forall i :: 0 <= i < |groups| ==>
      groups[i] != [] && (groups[i][0].documentId != hit.documentId || groups[i][0].revision != hit.revision)
  }

  /** Each group is of one document, and each document has one group. */
  predicate OneDocumentEach(groups: seq<seq<Hit>>) {
    groups == []
    || (&& groups[0] != []
        && (forall i :: 0 <= i < |groups[0]| ==>
              groups[0][i].documentId == groups[0][0].documentId && groups[0][i].revision == groups[0][0].revision)
        && NoGroupFor(groups[1..], groups[0][0])
        && OneDocumentEach(groups[1..]))
  }

  lemma {:induction false} GroupsNonEmpty(groups: seq<seq<Hit>>)
    requires OneDocumentEach(groups)
    ensures forall i :: 0 <= i < |groups| ==> groups[i] != []
  {
    if groups != [] {
      forall i | 0 <= i < |groups| ensures groups[i] != [] {
        if i > 0 {
          assert groups[1..][i - 1] == groups[i];
        }
      }
    }
  }

  lemma {:induction false} AddKeepsHits(groups: seq<seq<Hit>>, hit: Hit)
    ensures multiset(Flatten(AddToGroup(groups, hit))) == multiset(Flatten(groups)) + multiset{hit}
  {
    if groups == [] {
      assert Flatten([[hit]]) == [hit] + [];
    } else if groups[0] != [] && SameDocument(groups[0][0], hit) {
      var rest := Flatten(groups[1..]);
      assert Flatten([groups[0] + [hit]] + groups[1..]) == (groups[0] + [hit]) + rest;
    } else {
      AddKeepsHits(groups[1..], hit);
      var tail := AddToGroup(groups[1..], hit);
      assert Flatten([groups[0]] + tail) == groups[0] + Flatten(tail);
    }
  }

  lemma {:induction false} AddElsewhere(groups: seq<seq<Hit>>, hit: Hit, other: Hit)
    requires NoGroupFor(groups, other) && !SameDocument(other, hit)
    ensures NoGroupFor(AddToGroup(groups, hit), other)
  {
    var r := AddToGroup(groups, hit);
    if groups != [] && !SameDocument(groups[0][0], hit) {
      AddElsewhere(groups[1..], hit, other);
      var tail := AddToGroup(groups[1..], hit);
      forall i | 0 <= i < |r| ensures r[i] != [] && !SameDocument(r[i][0], other) {
        assert i > 0 ==> r[i] == tail[i - 1];
      }
    } else if groups != [] {
      forall i | 0 <= i < |r| ensures r[i] != [] && !SameDocument(r[i][0], other) {
        assert i > 0 ==> r[i] == groups[i];
        assert i == 0 ==> r[i] == groups[0] + [hit];
      }
    }
  }

  lemma {:induction false} AddKeepsGroups(groups: seq<seq<Hit>>, hit: Hit)
    requires OneDocumentEach(groups)
    ensures OneDocumentEach(AddToGroup(groups, hit))
  {
    var r := AddToGroup(groups, hit);
    if groups != [] && !SameDocument(groups[0][0], hit) {
      AddKeepsGroups(groups[1..], hit);
      AddElsewhere(groups[1..], hit, groups[0][0]);
      assert r[1..] == AddToGroup(groups[1..], hit);
    } else if groups != [] {
      assert r[0] == groups[0] + [hit] && r[1..] == groups[1..];
    }
  }

  /** The hit, if it is of the document. */
  function IfOf(hit: Hit, document: string, revision: string): seq<Hit> {
    if hit.documentId == document && hit.revision == revision then [hit] else []
  }

  /** The hits of one document, in order. */
  function OfDocument(hits: seq<Hit>, document: string, revision: string): seq<Hit> {
    if hits == [] then [] else IfOf(hits[0], document, revision) + OfDocument(hits[1..], document, revision)
  }

  lemma {:induction false} OfDocumentSnoc(hits: seq<Hit>, hit: Hit, document: string, revision: string)
    ensures OfDocument(hits + [hit], document, revision) ==
            OfDocument(hits, document, revision) + IfOf(hit, document, revision)
  {
    hide IfOf;
    if hits == [] {
      assert [hit][1..] == [] && hits + [hit] == [hit];
      NoneBeside(IfOf(hit, document, revision));
    } else {
      assert (hits + [hit])[1..] == hits[1..] + [hit];
      OfDocumentSnoc(hits[1..], hit, document, revision);
      Rejoin(IfOf(hits[0], document, revision), OfDocument(hits[1..], document, revision),
             IfOf(hit, document, revision));
    }
  }

  lemma NoneBeside<T>(s: seq<T>)
    ensures s + [] == s && [] + s == s
  {
  }

  /** Each group holds the hits of its document in their order. */
  ghost predicate GroupsOf(groups: seq<seq<Hit>>, hits: seq<Hit>) {
    forall i :: 0 <= i < |groups| ==>
      groups[i] != [] && groups[i] == OfDocument(hits, groups[i][0].documentId, groups[i][0].revision)
  }

  /** The groups in order of the first hits of their documents. */
  ghost predicate ByFirst(groups: seq<seq<Hit>>, hits: seq<Hit>, at: seq<nat>) {
    && |at| == |groups|
    && (forall i :: 0 <= i < |at| ==> at[i] < |hits| && groups[i] != [] && hits[at[i]] == groups[i][0])
    && (forall i, j :: 0 <= i < j < |at| ==> at[i] < at[j])
  }

  lemma {:induction false} AddToGroupIs(groups: seq<seq<Hit>>, hit: Hit) returns (k: nat)
    requires forall i :: 0 <= i < |groups| ==> groups[i] != []
    ensures k <= |groups|
    ensures forall i :: 0 <= i < k ==> !SameDocument(groups[i][0], hit)
    ensures k < |groups| ==>
              SameDocument(groups[k][0], hit) && AddToGroup(groups, hit) == groups[k := groups[k] + [hit]]
    ensures k == |groups| ==> AddToGroup(groups, hit) == groups + [[hit]]
  {
    if groups == [] {
      k := 0;
    } else if SameDocument(groups[0][0], hit) {
      assert [groups[0] + [hit]] + groups[1..] == groups[0 := groups[0] + [hit]];
      k := 0;
    } else {
      var j := AddToGroupIs(groups[1..], hit);
      k := j + 1;
    }
  }

  /** Every hit has a group. */
  ghost predicate AllGrouped(groups: seq<seq<Hit>>, hits: seq<Hit>) {
    forall h :: h in hits ==> exists i :: 0 <= i < |groups| && groups[i] != [] && SameDocument(groups[i][0], h)
  }

  lemma {:induction false} NoneOfDocument(hits: seq<Hit>, document: string, revision: string)
    requires forall h :: h in hits ==> h.documentId != document || h.revision != revision
    ensures OfDocument(hits, document, revision) == []
  {
    if hits != [] {
      assert hits[0] in hits;
      NoneOfDocument(hits[1..], document, revision);
    }
  }

  lemma {:induction false} GroupsDiffer(groups: seq<seq<Hit>>)
    requires OneDocumentEach(groups)
    ensures forall i, j :: 0 <= i < j < |groups| ==>
              groups[i] != [] && groups[j] != [] && !SameDocument(groups[i][0], groups[j][0])
  {
    if groups != [] {
      GroupsDiffer(groups[1..]);
      forall i, j | 0 <= i < j < |groups|
        ensures groups[i] != [] && groups[j] != [] && !SameDocument(groups[i][0], groups[j][0])
      {
        assert groups[j] == groups[1..][j - 1];
        assert i > 0 ==> groups[i] == groups[1..][i - 1];
      }
    }
  }

  /** Documents come in the order of their first hits, the hits of each in their own order. */
  lemma {:induction false} GroupsInOrder(hits: seq<Hit>) returns (at: seq<nat>)
    ensures GroupsOf(Groups(hits), hits) && ByFirst(Groups(hits), hits, at) && AllGrouped(Groups(hits), hits)
  {
    if hits == [] {
      at := [];
    } else {
      hide GroupsOf, ByFirst, AllGrouped, OneDocumentEach, AddToGroup, Flatten;
      var front, last := hits[..|hits| - 1], hits[|hits| - 1];
      assert hits == front + [last];
      var before := GroupsInOrder(front);
      GroupsPartition(front);
      var groups := Groups(front);
      var k := AddToGroupIs(groups, last);
      if k < |groups| {
        GroupGrown(groups, front, last, before, k);
        at := before;
      } else {
        GroupNew(groups, front, last, before);
        at := before + [|front|];
      }
    }
  }

  lemma GroupGrown(groups: seq<seq<Hit>>, front: seq<Hit>, last: Hit, at: seq<nat>, k: nat)
    requires GroupsOf(groups, front) && ByFirst(groups, front, at) && AllGrouped(groups, front)
    requires OneDocumentEach(groups) && k < |groups| && groups[k] != [] && SameDocument(groups[k][0], last)
    ensures var grown, all := groups[k := groups[k] + [last]], front + [last];
            GroupsOf(grown, all) && ByFirst(grown, all, at) && AllGrouped(grown, all)
  {
    hide OneDocumentEach, OfDocument;
    GroupsDiffer(groups);
    GrownGroups(groups, front, last, k);
    GrownCovers(groups, front, last, k);
  }

  lemma GrownGroups(groups: seq<seq<Hit>>, front: seq<Hit>, last: Hit, k: nat)
    requires GroupsOf(groups, front) && k < |groups| && groups[k] != [] && SameDocument(groups[k][0], last)
    requires forall i :: 0 <= i < |groups| && i != k ==> groups[i] != [] && !SameDocument(groups[i][0], groups[k][0])
    ensures GroupsOf(groups[k := groups[k] + [last]], front + [last])
  {
    hide OfDocument;
    var grown: seq<seq<Hit>> := groups[k := groups[k] + [last]];
    var all := front + [last];
    forall i | 0 <= i < |grown|
      ensures grown[i] != [] && grown[i] == OfDocument(all, grown[i][0].documentId, grown[i][0].revision)
    {
      OfDocumentSnoc(front, last, groups[i][0].documentId, groups[i][0].revision);
    }
  }

  lemma GrownCovers(groups: seq<seq<Hit>>, front: seq<Hit>, last: Hit, k: nat)
    requires AllGrouped(groups, front) && k < |groups| && groups[k] != [] && SameDocument(groups[k][0], last)
    ensures AllGrouped(groups[k := groups[k] + [last]], front + [last])
  {
    var grown: seq<seq<Hit>> := groups[k := groups[k] + [last]];
    forall h | h in front + [last]
      ensures exists i :: 0 <= i < |grown| && grown[i] != [] && SameDocument(grown[i][0], h)
    {
      if h in front {
        var i :| 0 <= i < |groups| && groups[i] != [] && SameDocument(groups[i][0], h);
        assert SameDocument(grown[i][0], h);
      } else {
        assert SameDocument(grown[k][0], h);
      }
    }
  }

  lemma GroupNew(groups: seq<seq<Hit>>, front: seq<Hit>, last: Hit, at: seq<nat>)
    requires GroupsOf(groups, front) && ByFirst(groups, front, at) && AllGrouped(groups, front)
    requires forall i :: 0 <= i < |groups| ==> groups[i] != [] && !SameDocument(groups[i][0], last)
    ensures var more, all := groups + [[last]], front + [last];
            GroupsOf(more, all) && ByFirst(more, all, at + [|front|]) && AllGrouped(more, all)
  {
    hide OfDocument;
    var more: seq<seq<Hit>> := groups + [[last]];
    var all := front + [last];
    forall h | h in front ensures h.documentId != last.documentId || h.revision != last.revision {
      var i :| 0 <= i < |groups| && groups[i] != [] && SameDocument(groups[i][0], h);
    }
    NoneOfDocument(front, last.documentId, last.revision);
    forall i | 0 <= i < |more|
      ensures more[i] != [] && more[i] == OfDocument(all, more[i][0].documentId, more[i][0].revision)
    {
      OfDocumentSnoc(front, last, more[i][0].documentId, more[i][0].revision);
    }
    forall h | h in all ensures exists i :: 0 <= i < |more| && more[i] != [] && SameDocument(more[i][0], h) {
      if h in front {
        var i :| 0 <= i < |groups| && groups[i] != [] && SameDocument(groups[i][0], h);
        assert SameDocument(more[i][0], h);
      } else {
        assert SameDocument(more[|groups|][0], h);
      }
    }
  }

  /** Grouping keeps every hit once, and each document has one group. */
  lemma GroupsPartition(hits: seq<Hit>)
    ensures OneDocumentEach(Groups(hits))
    ensures forall i :: 0 <= i < |Groups(hits)| ==> Groups(hits)[i] != []
    ensures multiset(Flatten(Groups(hits))) == multiset(hits)
  {
    hide Groups, OneDocumentEach, Flatten;
    GroupsApart(hits);
    GroupsKeepHits(hits);
    GroupsNonEmpty(Groups(hits));
  }

  lemma {:induction false} GroupsApart(hits: seq<Hit>)
    ensures OneDocumentEach(Groups(hits))
  {
    hide AddToGroup;
    if hits != [] {
      GroupsApart(hits[..|hits| - 1]);
      AddKeepsGroups(Groups(hits[..|hits| - 1]), hits[|hits| - 1]);
    }
  }

  lemma {:induction false} GroupsKeepHits(hits: seq<Hit>)
    ensures multiset(Flatten(Groups(hits))) == multiset(hits)
  {
    hide AddToGroup;
    if hits != [] {
      var front, last := hits[..|hits| - 1], hits[|hits| - 1];
      GroupsKeepHits(front);
      AddKeepsHits(Groups(front), last);
      assert hits == front + [last];
    }
  }
}
