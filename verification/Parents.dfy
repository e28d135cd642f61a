/** Excerpts of a document around what was found in it, within character budgets. */
module Parents {
  import opened Common
  import opened Pages

  const SECTION_SEPARATOR := "\n\n[... другая логическая часть документа ...]\n\n"
  const TABLE_SEPARATOR := "\n\n[... строки между заголовком и найденным фрагментом опущены ...]\n\n"
  const TABLE_HEADER_CHARS := 3000

  datatype Excerpt = Excerpt(text: string, start: nat, end: nat)

  // ---- windows ----

  /** `_window`: the bounds, or as much around the focus as the budget allows. */
  function Window(text: string, lo: nat, hi: nat, focusStart: nat, focusEnd: nat, budget: nat): Excerpt {
    var end := Min(|text|, hi);
    var fs := Min(Max(focusStart, lo), end);
    var fe := Min(Max(focusEnd, fs), end);
    if end - lo <= budget then Excerpt(Slice(text, lo, end), lo, end)
    else if fe - fs >= budget then
      var stop := Min(end, fs + budget);
      Excerpt(Slice(text, fs, stop), fs, stop)
    else
      var remaining := budget - (fe - fs);
      var half := Min(fs - lo, remaining / 2);
      var after := Min(end - fe, remaining - half);
      var before := Min(fs - lo, remaining - after);
      Excerpt(Slice(text, fs - before, fe + after), fs - before, fe + after)
  }

  /** A window is a slice inside the bounds of exactly the smaller of budget and bounds. */
  lemma WindowExact(text: string, lo: nat, hi: nat, focusStart: nat, focusEnd: nat, budget: nat)
    ensures var w, end := Window(text, lo, hi, focusStart, focusEnd, budget), Min(|text|, hi);
            && |w.text| == Min(budget, Max(0, end - lo))
            && (lo <= end ==> lo <= w.start <= w.end <= end && w.text == text[w.start..w.end])
  {
  }

  /** A focus inside the bounds is wholly in the window exactly when it fits the budget; what
      room is left is shared evenly between both sides unless a side runs out of text. */
  lemma WindowFocus(text: string, lo: nat, hi: nat, focusStart: nat, focusEnd: nat, budget: nat)
    requires lo <= focusStart <= focusEnd <= hi <= |text|
    ensures var w := Window(text, lo, hi, focusStart, focusEnd, budget);
            && (w.start <= focusStart && focusEnd <= w.end <==> focusEnd - focusStart <= budget)
            && (focusEnd - focusStart > budget ==> w.start == focusStart && w.end == focusStart + budget)
            && (focusEnd - focusStart <= budget ==>
                  || w.start == lo || w.end == hi
                  || focusStart - w.start == (budget - (focusEnd - focusStart)) / 2)
  {
  }

  // ---- tables ----

  function HeaderChars(budget: nat): nat {
    Min(TABLE_HEADER_CHARS, Max(1, budget / 3))
  }

  /** `_table_excerpt`: the header, and the found rows after a separator. */
  function TableExcerpt(text: string, lo: nat, hi: nat, focusStart: nat, focusEnd: nat, budget: nat): Excerpt {
    if hi - lo <= budget then Excerpt(Slice(text, lo, hi), lo, hi)
    else
      var headerEnd := Min(hi, lo + HeaderChars(budget));
      if focusStart <= headerEnd then
        var end := Min(hi, lo + budget);
        Excerpt(Slice(text, lo, end), lo, end)
      else
        var room := Max(1, budget - HeaderChars(budget) - |TABLE_SEPARATOR|);
        var match_ := Window(text, lo, hi, focusStart, focusEnd, room);
        var combined := Slice(text, lo, headerEnd) + TABLE_SEPARATOR + match_.text;
        Excerpt(Slice(combined, 0, budget), lo, match_.end)
  }

  lemma TableWithinBudget(text: string, lo: nat, hi: nat, focusStart: nat, focusEnd: nat, budget: nat)
    ensures |TableExcerpt(text, lo, hi, focusStart, focusEnd, budget).text| <= budget
  {
  }

  /** The excerpt begins with the header, or with the whole table when that fits. */
  lemma TableBeginsWithHeader(text: string, lo: nat, hi: nat, focusStart: nat, focusEnd: nat, budget: nat)
    requires budget >= 1 && lo <= hi <= |text|
    ensures var t := TableExcerpt(text, lo, hi, focusStart, focusEnd, budget);
            text[lo..Min(hi, lo + HeaderChars(budget))] <= t.text
  {
    hide Window;
    var header := text[lo..Min(hi, lo + HeaderChars(budget))];
    if hi - lo > budget && focusStart > Min(hi, lo + HeaderChars(budget)) {
      assert header == Slice(text, lo, Min(hi, lo + HeaderChars(budget)));
      var w := Window(text, lo, hi, focusStart, focusEnd, Max(1, budget - HeaderChars(budget) - |TABLE_SEPARATOR|));
      PrefixOfCut(header, TABLE_SEPARATOR + w.text, budget);
      assert header + (TABLE_SEPARATOR + w.text) == header + TABLE_SEPARATOR + w.text;
    }
  }

  lemma PrefixOfCut(a: string, b: string, budget: nat)
    requires |a| <= budget
    ensures a <= Slice(a + b, 0, budget)
  {
  }

  /** When the header, the separator and the focus fit together, the focus is in the excerpt. */
  lemma TableContainsFocus(text: string, lo: nat, hi: nat, focusStart: nat, focusEnd: nat, budget: nat) returns (k: nat)
    requires lo <= focusStart <= focusEnd <= hi <= |text|
    requires HeaderChars(budget) + |TABLE_SEPARATOR| + (focusEnd - focusStart) <= budget
    ensures var t := TableExcerpt(text, lo, hi, focusStart, focusEnd, budget);
            && k + (focusEnd - focusStart) <= |t.text|
            && t.text[k..k + (focusEnd - focusStart)] == text[focusStart..focusEnd]
  {
    hide Window, Slice, HeaderChars;
    var h := HeaderChars(budget);
    if hi - lo <= budget || focusStart <= Min(hi, lo + h) {
      k := focusStart - lo;
      SliceContains(text, lo, Min(hi, lo + budget), focusStart, focusEnd);
    } else if focusEnd == focusStart {
      k := 0;
    } else {
      k := FarContainsFocus(text, lo, hi, focusStart, focusEnd, budget);
    }
  }

  lemma FarContainsFocus(text: string, lo: nat, hi: nat, focusStart: nat, focusEnd: nat, budget: nat) returns (k: nat)
    requires lo <= focusStart < focusEnd <= hi <= |text|
    requires HeaderChars(budget) + |TABLE_SEPARATOR| + (focusEnd - focusStart) <= budget
    requires hi - lo > budget && focusStart > Min(hi, lo + HeaderChars(budget))
    ensures var t := TableExcerpt(text, lo, hi, focusStart, focusEnd, budget);
            && k + (focusEnd - focusStart) <= |t.text|
            && t.text[k..k + (focusEnd - focusStart)] == text[focusStart..focusEnd]
  {
    hide Window, Slice, HeaderChars, TableExcerpt;
    var h := HeaderChars(budget);
    var room := budget - h - |TABLE_SEPARATOR|;
    var w := Window(text, lo, hi, focusStart, focusEnd, room);
    WindowFocus(text, lo, hi, focusStart, focusEnd, room);
    WindowExact(text, lo, hi, focusStart, focusEnd, room);
    FarExcerpt(text, lo, hi, focusStart, focusEnd, budget);
    k := FocusAfterHeader(text, text[lo..lo + h] + TABLE_SEPARATOR, w, focusStart, focusEnd, budget);
  }

  /** The excerpt when the focus lies beyond the header. */
  lemma FarExcerpt(text: string, lo: nat, hi: nat, focusStart: nat, focusEnd: nat, budget: nat)
    requires lo <= hi <= |text| && hi - lo > budget && focusStart > Min(hi, lo + HeaderChars(budget))
    requires HeaderChars(budget) + |TABLE_SEPARATOR| < budget
    ensures lo + HeaderChars(budget) <= hi
    ensures var room := budget - HeaderChars(budget) - |TABLE_SEPARATOR|;
            TableExcerpt(text, lo, hi, focusStart, focusEnd, budget).text
            == Slice(text[lo..lo + HeaderChars(budget)] + TABLE_SEPARATOR
                     + Window(text, lo, hi, focusStart, focusEnd, room).text, 0, budget)
  {
    hide Window;
    assert Slice(text, lo, lo + HeaderChars(budget)) == text[lo..lo + HeaderChars(budget)];
  }

  lemma SliceContains(text: string, lo: nat, end: nat, focusStart: nat, focusEnd: nat)
    requires lo <= focusStart <= focusEnd <= end <= |text|
    ensures |Slice(text, lo, end)| == end - lo
    ensures Slice(text, lo, end)[focusStart - lo..focusEnd - lo] == text[focusStart..focusEnd]
  {
    assert Slice(text, lo, end) == text[lo..end];
    SliceOfSlice(text, lo, end, focusStart - lo, focusEnd - lo);
  }

  lemma SliceOfTail(front: string, s: string, a: nat, b: nat)
    requires a <= b <= |s|
    ensures (front + s)[|front| + a..|front| + b] == s[a..b]
  {
  }

  lemma WholeSlice(s: string, end: nat)
    requires |s| <= end
    ensures Slice(s, 0, end) == s
  {
  }

  lemma FocusAfterHeader(text: string, front: string, w: Excerpt, focusStart: nat, focusEnd: nat, budget: nat)
    returns (k: nat)
    requires w.start <= focusStart <= focusEnd <= w.end <= |text| && w.text == text[w.start..w.end]
    requires |front| + |w.text| <= budget
    ensures k + (focusEnd - focusStart) <= |Slice(front + w.text, 0, budget)|
    ensures Slice(front + w.text, 0, budget)[k..k + (focusEnd - focusStart)] == text[focusStart..focusEnd]
  {
    hide Slice;
    var all := front + w.text;
    k := |front| + focusStart - w.start;
    var a, b := focusStart - w.start, focusEnd - w.start;
    SliceOfSlice(text, w.start, w.end, a, b);
    SliceOfTail(front, w.text, a, b);
    WholeSlice(all, budget);
  }

  // ---- sections ----

  datatype Scope = RetrievedChunk | WholeDocument | LogicalParent

  datatype Hit = Hit(
    chunkId: string,
    documentId: string,
    revision: string,
    start: nat,
    end: nat,
    text: string,
    sourceType: string,
    scope: Scope
  )

  predicate Touches(l: Location, hit: Hit) {
    !(l.end <= hit.start || l.start >= hit.end)
  }

  predicate SeenExtent(ls: seq<Location>, l: Location) {
    exists i :: 0 <= i < |ls| && ls[i].start == l.start && ls[i].end == l.end
  }

  /** The inner loop of `_relevant_locations`, over one hit. */
  function AddTouched(ls: seq<Location>, hit: Hit, found: seq<Location>): seq<Location> {
    if ls == [] then found
    else if Touches(ls[0], hit) && !SeenExtent(found, ls[0]) then AddTouched(ls[1..], hit, found + [ls[0]])
    else AddTouched(ls[1..], hit, found)
  }

  function Relevant(ls: seq<Location>, hits: seq<Hit>, found: seq<Location>): seq<Location>
    decreases |hits|
  {
    if hits == [] then found else Relevant(ls, hits[1..], AddTouched(ls, hits[0], found))
  }

  method RelevantLocations(ls: seq<Location>, hits: seq<Hit>) returns (found: seq<Location>)
    ensures found == Relevant(ls, hits, [])
  {
    found := [];
    for i := 0 to |hits|
      invariant Relevant(ls, hits[i..], found) == Relevant(ls, hits, [])
    {
      ghost var before := found;
      for j := 0 to |ls|
        invariant AddTouched(ls[j..], hits[i], found) == AddTouched(ls, hits[i], before)
      {
        assert ls[j..][0] == ls[j] && ls[j..][1..] == ls[j + 1..];
        if Touches(ls[j], hits[i]) && !SeenExtent(found, ls[j]) {
          found := found + [ls[j]];
        }
      }
      assert hits[i..][0] == hits[i] && hits[i..][1..] == hits[i + 1..];
    }
  }

  /** Every list of locations without a repeated extent. */
  ghost predicate DistinctExtents(ls: seq<Location>) {
    forall i, j :: 0 <= i < j < |ls| ==> ls[i].start != ls[j].start || ls[i].end != ls[j].end
  }

  lemma {:induction false} AddTouchedKeeps(ls: seq<Location>, hit: Hit, found: seq<Location>)
    requires DistinctExtents(found)
    ensures var r := AddTouched(ls, hit, found);
            && DistinctExtents(r) && found <= r
            && (forall i :: |found| <= i < |r| ==> r[i] in ls && Touches(r[i], hit))
            && (forall l <- ls :: Touches(l, hit) ==> SeenExtent(r, l))
  {
    hide DistinctExtents, SeenExtent;
    if ls != [] {
      var isNew := Touches(ls[0], hit) && !SeenExtent(found, ls[0]);
      var next := if isNew then found + [ls[0]] else found;
      NextExtent(found, ls[0]);
      AddTouchedKeeps(ls[1..], hit, next);
      var r := AddTouched(ls, hit, found);
      assert ls == [ls[0]] + ls[1..];
      forall i | |found| <= i < |r| ensures r[i] in ls && Touches(r[i], hit) {
        assert isNew && i == |found| ==> r[i] == next[i];
      }
      if Touches(ls[0], hit) {
        StillSeen(next, r, ls[0]);
      }
    }
  }

  lemma NextExtent(found: seq<Location>, l: Location)
    requires DistinctExtents(found)
    ensures !SeenExtent(found, l) ==> DistinctExtents(found + [l]) && SeenExtent(found + [l], l)
  {
    assert (found + [l])[|found|] == l;
  }

  lemma StillSeen(a: seq<Location>, b: seq<Location>, l: Location)
    requires SeenExtent(a, l) && a <= b
    ensures SeenExtent(b, l)
  {
    var i :| 0 <= i < |a| && a[i].start == l.start && a[i].end == l.end;
    assert b[i] == a[i];
  }

  /** The relevant locations: no extent twice, each touches a hit, and every touched extent is
      among them. */
  lemma {:induction false} RelevantIs(ls: seq<Location>, hits: seq<Hit>, found: seq<Location>)
    requires DistinctExtents(found)
    ensures var r := Relevant(ls, hits, found);
            && DistinctExtents(r) && found <= r
            && (forall i :: |found| <= i < |r| ==>
                  r[i] in ls && exists h :: h in hits && h.start < r[i].end && r[i].start < h.end)
            && (forall l, h :: l in ls && h in hits && h.start < l.end && l.start < h.end ==> SeenExtent(r, l))
    decreases |hits|
  {
    if hits != [] {
      var next := AddTouched(ls, hits[0], found);
      AddTouchedKeeps(ls, hits[0], found);
      RelevantIs(ls, hits[1..], next);
      var r := Relevant(ls, hits, found);
      assert hits == [hits[0]] + hits[1..];
      forall i | |found| <= i < |r|
        ensures r[i] in ls && exists h :: h in hits && h.start < r[i].end && r[i].start < h.end
      {
        if i < |next| {
          assert r[i] == next[i] && hits[0] in hits;
        }
      }
      forall l, h | l in ls && h in hits && h.start < l.end && l.start < h.end ensures SeenExtent(r, l) {
        if h == hits[0] {
          StillSeen(next, r, l);
        }
      }
    }
  }

  /** Sections in order, each taken when it still fits. */
  function Select(ls: seq<Location>, budget: nat, used: nat, any: bool): seq<Location>
    requires forall i :: 0 <= i < |ls| ==> ls[i].start < ls[i].end
  {
    if ls == [] then []
    else
      var cost := (if any then |SECTION_SEPARATOR| else 0) + (ls[0].end - ls[0].start);
      if used + cost > budget then Select(ls[1..], budget, used, any)
      else [ls[0]] + Select(ls[1..], budget, used + cost, true)
  }

  /** What the sections cost together, each after the first with a separator. */
  function Cost(ls: seq<Location>, any: bool): int {
    if ls == [] then 0
    else (if any then |SECTION_SEPARATOR| else 0) + (ls[0].end - ls[0].start) + Cost(ls[1..], true)
  }

  lemma {:induction false} SelectFits(ls: seq<Location>, budget: nat, used: nat, any: bool)
    requires used <= budget && forall i :: 0 <= i < |ls| ==> ls[i].start < ls[i].end
    ensures used + Cost(Select(ls, budget, used, any), any) <= budget
    ensures Cost(Select(ls, budget, used, any), any) >= 0
    ensures forall s <- Select(ls, budget, used, any) :: s in ls
  {
    if ls != [] {
      var cost := (if any then |SECTION_SEPARATOR| else 0) + (ls[0].end - ls[0].start);
      assert ls == [ls[0]] + ls[1..];
      if used + cost > budget {
        SelectFits(ls[1..], budget, used, any);
      } else {
        SelectFits(ls[1..], budget, used + cost, true);
      }
    }
  }

  /** No section left out would have fitted beside the selected ones. */
  lemma {:induction false} SelectMaximal(ls: seq<Location>, budget: nat, used: nat, any: bool, i: nat)
    requires used <= budget && forall j :: 0 <= j < |ls| ==> ls[j].start < ls[j].end
    requires i < |ls| && ls[i] !in Select(ls, budget, used, any)
    ensures var chosen := Select(ls, budget, used, any);
            used + Cost(chosen, any)
            + (if any || chosen != [] then |SECTION_SEPARATOR| else 0) + (ls[i].end - ls[i].start) > budget
  {
    var cost := (if any then |SECTION_SEPARATOR| else 0) + (ls[0].end - ls[0].start);
    if used + cost > budget {
      SelectFits(ls[1..], budget, used, any);
      if i > 0 {
        SelectMaximal(ls[1..], budget, used, any, i - 1);
      }
    } else {
      assert ls[0] in Select(ls, budget, used, any);
      SelectMaximal(ls[1..], budget, used + cost, true, i - 1);
    }
  }

  /** A section is taken exactly when it fits beside those taken before it. */
  lemma {:induction false} SelectSnoc(ls: seq<Location>, x: Location, budget: nat, used: nat, any: bool)
    requires (forall j :: 0 <= j < |ls| ==> ls[j].start < ls[j].end) && x.start < x.end
    ensures var taken := Select(ls, budget, used, any);
            Select(ls + [x], budget, used, any) ==
            if used + Cost(taken, any) + (if any || taken != [] then |SECTION_SEPARATOR| else 0) + (x.end - x.start)
               <= budget
            then taken + [x] else taken
  {
    var all := ls + [x];
    if ls == [] {
      assert all[1..] == [] && all[0] == x;
    } else {
      assert all[1..] == ls[1..] + [x];
      var cost := (if any then |SECTION_SEPARATOR| else 0) + (ls[0].end - ls[0].start);
      if used + cost > budget {
        SelectSnoc(ls[1..], x, budget, used, any);
      } else {
        SelectSnoc(ls[1..], x, budget, used + cost, true);
        var rest := Select(ls[1..], budget, used + cost, true);
        assert ([ls[0]] + rest)[1..] == rest;
        assert Cost([ls[0]] + rest, any) == cost + Cost(rest, true);
        assert [ls[0]] + (rest + [x]) == [ls[0]] + rest + [x];
      }
    }
  }

  /** Where section `i` is in the joined text. */
  function Place(ls: seq<Location>, i: nat): int
    requires i < |ls|
    decreases i
  {
    if i == 0 then 0 else (ls[0].end - ls[0].start) + |SECTION_SEPARATOR| + Place(ls[1..], i - 1)
  }

  /** The joined text holds every section at its place, in order. */
  lemma {:induction false} JoinHolds(text: string, ls: seq<Location>, i: nat)
    requires i < |ls| && forall j :: 0 <= j < |ls| ==> ls[j].start < ls[j].end <= |text|
    ensures var n, at := ls[i].end - ls[i].start, Place(ls, i);
            0 <= at && at + n <= |Join(text, ls)| && Join(text, ls)[at..at + n] == text[ls[i].start..ls[i].end]
    decreases i
  {
    hide Join, Slice;
    JoinHead(text, ls);
    if i > 0 {
      var front, rest := text[ls[0].start..ls[0].end] + SECTION_SEPARATOR, Join(text, ls[1..]);
      JoinHolds(text, ls[1..], i - 1);
      ShiftedSlice(front, rest, Place(ls[1..], i - 1), ls[i].end - ls[i].start);
    }
  }

  /** Between two neighbouring sections there is one separator and nothing else. */
  lemma {:induction false} JoinSeparates(text: string, ls: seq<Location>, i: nat)
    requires i + 1 < |ls| && forall j :: 0 <= j < |ls| ==> ls[j].start < ls[j].end <= |text|
    ensures var end := Place(ls, i) + (ls[i].end - ls[i].start);
            && 0 <= end && end + |SECTION_SEPARATOR| == Place(ls, i + 1) <= |Join(text, ls)|
            && Join(text, ls)[end..Place(ls, i + 1)] == SECTION_SEPARATOR
    decreases i
  {
    hide Join, Slice;
    JoinHead(text, ls);
    if i > 0 {
      var front, rest := text[ls[0].start..ls[0].end] + SECTION_SEPARATOR, Join(text, ls[1..]);
      JoinSeparates(text, ls[1..], i - 1);
      ShiftedSlice(front, rest, Place(ls[1..], i - 1) + (ls[i].end - ls[i].start), |SECTION_SEPARATOR|);
    } else {
      assert Place(ls, 1) == ls[0].end - ls[0].start + |SECTION_SEPARATOR| + Place(ls[1..], 0);
    }
  }

  lemma JoinHead(text: string, ls: seq<Location>)
    requires ls != [] && ls[0].start < ls[0].end <= |text|
    ensures var first := text[ls[0].start..ls[0].end];
            && first <= Join(text, ls)
            && (|ls| > 1 ==>
                  && Join(text, ls) == first + SECTION_SEPARATOR + Join(text, ls[1..])
                  && Join(text, ls)[|first|..|first| + |SECTION_SEPARATOR|] == SECTION_SEPARATOR)
  {
    assert Slice(text, ls[0].start, ls[0].end) == text[ls[0].start..ls[0].end];
  }

  lemma ShiftedSlice(front: string, s: string, a: nat, n: nat)
    requires a + n <= |s|
    ensures (front + s)[|front| + a..|front| + a + n] == s[a..a + n]
  {
  }

  function Join(text: string, ls: seq<Location>): string {
    if ls == [] then ""
    else if |ls| == 1 then Slice(text, ls[0].start, ls[0].end)
    else Slice(text, ls[0].start, ls[0].end) + SECTION_SEPARATOR + Join(text, ls[1..])
  }

  lemma {:induction false} JoinLength(text: string, ls: seq<Location>, any: bool)
    requires forall i :: 0 <= i < |ls| ==> ls[i].start < ls[i].end
    ensures |Join(text, ls)| <= Cost(ls, false) && Cost(ls, false) <= Cost(ls, any)
    ensures ls != [] && (forall i :: 0 <= i < |ls| ==> ls[i].end <= |text|) ==> |Join(text, ls)| == Cost(ls, false)
  {
    if |ls| > 1 {
      JoinLength(text, ls[1..], true);
      assert Cost(ls[1..], true) == |SECTION_SEPARATOR| + Cost(ls[1..], false);
    } else if |ls| == 1 {
      assert Cost(ls[1..], true) == 0;
    }
  }

  function MinStart(ls: seq<Location>): (m: nat)
    requires ls != []
    ensures (forall i :: 0 <= i < |ls| ==> m <= ls[i].start) && exists i :: 0 <= i < |ls| && m == ls[i].start
  {
    if |ls| == 1 then ls[0].start
    else
      var rest := MinStart(ls[1..]);
      assert exists i :: 0 <= i < |ls[1..]| && rest == ls[1..][i].start;
      assert forall i :: 0 <= i < |ls| ==> i > 0 ==> ls[i] == ls[1..][i - 1];
      Min(ls[0].start, rest)
  }

  function MaxEnd(ls: seq<Location>): (m: nat)
    requires ls != []
    ensures (forall i :: 0 <= i < |ls| ==> m >= ls[i].end) && exists i :: 0 <= i < |ls| && m == ls[i].end
  {
    if |ls| == 1 then ls[0].end
    else
      var rest := MaxEnd(ls[1..]);
      assert exists i :: 0 <= i < |ls[1..]| && rest == ls[1..][i].end;
      assert forall i :: 0 <= i < |ls| ==> i > 0 ==> ls[i] == ls[1..][i - 1];
      Max(ls[0].end, rest)
  }

  // ---- one document ----

  const TABLE_TYPES: set<string> := {"csv", "xls", "xlsx"}

  function LowerAscii(c: char): char {
    if 'A' <= c <= 'Z' then (c as int + 32) as char else c
  }

  /** `source_type.lower().lstrip(".")`; no other letter lower-cases into a table type. */
  function FileType(s: string): string {
    if s != "" && s[0] == '.' then FileType(s[1..]) else seq(|s|, i requires 0 <= i < |s| => LowerAscii(s[i]))
  }

  const SMALL := "abcdefghijklmnopqrstuvwxyz"

  /** A file type is the name behind the leading dots, with A-Z in small letters. */
  lemma {:induction false} FileTypeIs(s: string, dots: nat, i: nat)
    requires dots <= |s| && (forall k :: 0 <= k < dots ==> s[k] == '.') && (dots < |s| ==> s[dots] != '.')
    requires dots + i < |s|
    ensures |FileType(s)| == |s| - dots
    ensures FileType(s)[i] ==
            var c := s[dots + i]; if 'A' <= c <= 'Z' then SMALL[c as int - 'A' as int] else c
    decreases dots
  {
    var c := s[dots + i];
    assert 'A' <= c <= 'Z' ==> LowerAscii(c) == SMALL[c as int - 'A' as int];
    if dots > 0 {
      FileTypeIs(s[1..], dots - 1, i);
    }
  }

  datatype Extracted = Extracted(text: string, truncated: bool, locations: seq<Location>)

  ghost predicate Located(ls: seq<Location>) {
    forall i :: 0 <= i < |ls| ==> ls[i].start < ls[i].end
  }

  function FirstStart(hits: seq<Hit>): nat
    requires hits != []
  {
    if |hits| == 1 then hits[0].start else Min(hits[0].start, FirstStart(hits[1..]))
  }

  function LastEnd(hits: seq<Hit>): nat
    requires hits != []
  {
    if |hits| == 1 then hits[0].end else Max(hits[0].end, LastEnd(hits[1..]))
  }

  /** `_logical_parent` once the relevant and the selected sections are known. */
  function ParentOf(text: string, relevant: seq<Location>, selected: seq<Location>, hits: seq<Hit>,
                    budget: nat): Excerpt
    requires hits != []
  {
    if selected != [] then Excerpt(Join(text, selected), MinStart(selected), MaxEnd(selected))
    else
      var lo := if relevant != [] then relevant[0].start else 0;
      var hi := if relevant != [] then relevant[0].end else |text|;
      if FileType(hits[0].sourceType) in TABLE_TYPES then
        TableExcerpt(text, lo, hi, hits[0].start, hits[0].end, budget)
      else Window(text, lo, hi, FirstStart(hits), LastEnd(hits), budget)
  }

  ghost function Parent(doc: Extracted, hits: seq<Hit>, budget: nat): Excerpt
    requires hits != [] && Located(doc.locations)
  {
    RelevantLocated(doc.locations, hits);
    var relevant := Relevant(doc.locations, hits, []);
    ParentOf(doc.text, relevant, Select(relevant, budget, 0, false), hits, budget)
  }

  lemma RelevantLocated(ls: seq<Location>, hits: seq<Hit>)
    requires Located(ls)
    ensures Located(Relevant(ls, hits, []))
  {
    RelevantIs(ls, hits, []);
  }

  /** The loop over the relevant locations of `_logical_parent`. */
  method SelectSections(relevant: seq<Location>, budget: nat) returns (selected: seq<Location>)
    requires Located(relevant)
    ensures selected == Select(relevant, budget, 0, false)
  {
    selected := [];
    var used: nat := 0;
    for i := 0 to |relevant|
      invariant selected + Select(relevant[i..], budget, used, selected != []) == Select(relevant, budget, 0, false)
    {
      assert relevant[i..][0] == relevant[i] && relevant[i..][1..] == relevant[i + 1..];
      var cost := (if selected != [] then |SECTION_SEPARATOR| else 0) + (relevant[i].end - relevant[i].start);
      if used + cost <= budget {
        Regroup(selected, relevant[i], Select(relevant[i + 1..], budget, used + cost, true));
        selected := selected + [relevant[i]];
        used := used + cost;
      }
    }
  }

  method LogicalParentOf(doc: Extracted, hits: seq<Hit>, budget: nat) returns (e: Excerpt)
    requires hits != [] && Located(doc.locations)
    ensures e == Parent(doc, hits, budget)
  {
    hide ParentOf;
    RelevantLocated(doc.locations, hits);
    var relevant := RelevantLocations(doc.locations, hits);
    var selected := SelectSections(relevant, budget);
    e := ParentOf(doc.text, relevant, selected, hits, budget);
  }

  lemma {:induction false} SpanOfHits(hits: seq<Hit>)
    requires hits != []
    ensures forall h <- hits :: FirstStart(hits) <= h.start && h.end <= LastEnd(hits)
    ensures (exists h <- hits :: h.start == FirstStart(hits)) && exists h <- hits :: h.end == LastEnd(hits)
  {
    assert hits == [hits[0]] + hits[1..];
    assert hits[0] in hits;
    if |hits| > 1 {
      SpanOfHits(hits[1..]);
    }
  }

  /** The part of the text that a parent without selected sections is taken from: the first
      relevant section, or the whole text. */
  ghost function BoundsOf(doc: Extracted, hits: seq<Hit>): (nat, nat)
    requires Located(doc.locations)
  {
    var relevant := Relevant(doc.locations, hits, []);
    if relevant == [] then (0, |doc.text|) else (relevant[0].start, relevant[0].end)
  }

  /** Without a section that fits, a table's parent begins with the header of its part. */
  lemma TableParentHeader(doc: Extracted, hits: seq<Hit>, budget: nat)
    requires hits != [] && Located(doc.locations) && budget >= 1
    requires forall r <- Relevant(doc.locations, hits, []) :: r.end - r.start > budget
    requires FileType(hits[0].sourceType) in TABLE_TYPES
    requires BoundsOf(doc, hits).0 <= BoundsOf(doc, hits).1 <= |doc.text|
    ensures var (lo, hi) := BoundsOf(doc, hits);
            doc.text[lo..Min(hi, lo + Min(TABLE_HEADER_CHARS, Max(1, budget / 3)))] <= Parent(doc, hits, budget).text
  {
    hide Window, TableExcerpt, FileType, Relevant, Select;
    var (lo, hi) := BoundsOf(doc, hits);
    RelevantLocated(doc.locations, hits);
    NothingSelected(Relevant(doc.locations, hits, []), budget);
    TableBeginsWithHeader(doc.text, lo, hi, hits[0].start, hits[0].end, budget);
  }

  lemma UnselectedWindow(doc: Extracted, hits: seq<Hit>, budget: nat)
    requires hits != [] && Located(doc.locations)
    requires forall r <- Relevant(doc.locations, hits, []) :: r.end - r.start > budget
    requires FileType(hits[0].sourceType) !in TABLE_TYPES
    ensures var (lo, hi) := BoundsOf(doc, hits);
            Parent(doc, hits, budget) == Window(doc.text, lo, hi, FirstStart(hits), LastEnd(hits), budget)
  {
    hide Window, TableExcerpt, FileType, Relevant, Select;
    RelevantLocated(doc.locations, hits);
    NothingSelected(Relevant(doc.locations, hits, []), budget);
  }

  /** Without a section that fits, any other parent is one slice of its part, as long as budget and
      part allow, and holds all hits when they lie there and fit. */
  lemma SliceParent(doc: Extracted, hits: seq<Hit>, budget: nat)
    requires hits != [] && Located(doc.locations)
    requires forall r <- Relevant(doc.locations, hits, []) :: r.end - r.start > budget
    requires FileType(hits[0].sourceType) !in TABLE_TYPES
    requires BoundsOf(doc, hits).0 <= BoundsOf(doc, hits).1 <= |doc.text|
    ensures var (lo, hi) := BoundsOf(doc, hits);
            var e := Parent(doc, hits, budget);
            && lo <= e.start <= e.end <= hi && e.text == doc.text[e.start..e.end]
            && |e.text| == Min(budget, hi - lo)
            && (lo <= FirstStart(hits) <= LastEnd(hits) <= hi && LastEnd(hits) - FirstStart(hits) <= budget ==>
                  forall h <- hits :: e.start <= h.start && h.end <= e.end)
  {
    hide Window, Parent, BoundsOf, FileType, Relevant;
    var (lo, hi) := BoundsOf(doc, hits);
    UnselectedWindow(doc, hits, budget);
    WindowExact(doc.text, lo, hi, FirstStart(hits), LastEnd(hits), budget);
    SpanOfHits(hits);
    if lo <= FirstStart(hits) <= LastEnd(hits) <= hi {
      WindowFocus(doc.text, lo, hi, FirstStart(hits), LastEnd(hits), budget);
    }
  }

  /** A table's parent holds the best hit when header, separator and hit fit together. */
  lemma TableParentHoldsBest(doc: Extracted, hits: seq<Hit>, budget: nat) returns (k: nat)
    requires hits != [] && Located(doc.locations) && FileType(hits[0].sourceType) in TABLE_TYPES
    requires forall r <- Relevant(doc.locations, hits, []) :: r.end - r.start > budget
    requires var (lo, hi) := BoundsOf(doc, hits); lo <= hits[0].start <= hits[0].end <= hi <= |doc.text|
    requires HeaderChars(budget) + |TABLE_SEPARATOR| + (hits[0].end - hits[0].start) <= budget
    ensures var e, best := Parent(doc, hits, budget), hits[0];
            && k + (best.end - best.start) <= |e.text|
            && e.text[k..k + (best.end - best.start)] == doc.text[best.start..best.end]
  {
    hide Window, TableExcerpt, FileType, Relevant, Select, HeaderChars;
    var (lo, hi) := BoundsOf(doc, hits);
    RelevantLocated(doc.locations, hits);
    NothingSelected(Relevant(doc.locations, hits, []), budget);
    k := TableContainsFocus(doc.text, lo, hi, hits[0].start, hits[0].end, budget);
  }

  /** In a document without relevant sections that is not a table, the parent is one slice of
      the text and holds all hits, whenever they fit the budget together. */
  lemma ParentHoldsHits(doc: Extracted, hits: seq<Hit>, budget: nat)
    requires hits != [] && Located(doc.locations) && Relevant(doc.locations, hits, []) == []
    requires FileType(hits[0].sourceType) !in TABLE_TYPES
    requires forall h <- hits :: h.start <= h.end <= |doc.text|
    requires LastEnd(hits) - FirstStart(hits) <= budget
    ensures var e := Parent(doc, hits, budget);
            && e.start <= e.end <= |doc.text| && e.text == doc.text[e.start..e.end]
            && forall h <- hits :: e.start <= h.start && h.end <= e.end
  {
    hide Window, FileType, Relevant;
    SpanOfHits(hits);
    WindowFocus(doc.text, 0, |doc.text|, FirstStart(hits), LastEnd(hits), budget);
    WindowExact(doc.text, 0, |doc.text|, FirstStart(hits), LastEnd(hits), budget);
  }

  /** When relevant sections fit, the parent reports a range that covers every section it
      holds, and only relevant ones are held. */
  lemma ParentCoversSections(doc: Extracted, hits: seq<Hit>, budget: nat)
    requires hits != [] && Located(doc.locations)
    ensures var relevant := Relevant(doc.locations, hits, []);
            && Located(relevant)
            && var held := Select(relevant, budget, 0, false);
            && (held == [] <==> forall r <- relevant :: r.end - r.start > budget)
            && (held != [] ==>
                  var e := Parent(doc, hits, budget);
                  && e.text == Join(doc.text, held)
                  && forall s <- held :: s in relevant && e.start <= s.start && s.end <= e.end)
  {
    hide Join, Relevant, Window, TableExcerpt, FileType;
    RelevantLocated(doc.locations, hits);
    var relevant := Relevant(doc.locations, hits, []);
    var held := Select(relevant, budget, 0, false);
    SelectFits(relevant, budget, 0, false);
    NothingSelected(relevant, budget);
    if held != [] {
      forall s | s in held ensures MinStart(held) <= s.start && s.end <= MaxEnd(held) {
        var i :| 0 <= i < |held| && held[i] == s;
      }
    }
  }

  lemma {:induction false} NothingSelected(ls: seq<Location>, budget: nat)
    requires Located(ls)
    ensures Select(ls, budget, 0, false) == [] <==> forall l <- ls :: l.end - l.start > budget
  {
    if ls != [] {
      assert ls == [ls[0]] + ls[1..];
      if ls[0].end - ls[0].start > budget {
        NothingSelected(ls[1..], budget);
      } else {
        assert ls[0] in ls;
      }
    }
  }

  /** A logical parent never exceeds its budget. */
  lemma ParentWithinBudget(doc: Extracted, hits: seq<Hit>, budget: nat)
    requires hits != [] && Located(doc.locations)
    ensures |Parent(doc, hits, budget).text| <= budget
  {
    hide Window, TableExcerpt, Join, Select;
    var text := doc.text;
    var relevant := Relevant(doc.locations, hits, []);
    RelevantLocated(doc.locations, hits);
    var selected := Select(relevant, budget, 0, false);
    SelectFits(relevant, budget, 0, false);
    forall i | 0 <= i < |selected| ensures selected[i].start < selected[i].end {
      assert selected[i] in selected;
    }
    JoinLength(text, selected, false);
    var lo := if relevant != [] then relevant[0].start else 0;
    var hi := if relevant != [] then relevant[0].end else |text|;
    TableWithinBudget(text, lo, hi, hits[0].start, hits[0].end, budget);
    WindowExact(text, lo, hi, FirstStart(hits), LastEnd(hits), budget);
  }
}
