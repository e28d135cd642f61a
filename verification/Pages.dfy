/** Where a stretch of text comes from: named intervals of the text and estimated pages. */
module Pages {
  import opened Common
  import opened Text

  datatype Location = Location(start: nat, end: nat, kind: string, value: string)

  /** The source of a span: a kind, the first place and, when different, the last. */
  datatype Source = Source(kind: string, first: Option<string>, last: Option<string>)

  const NOWHERE := Source("", None, None)

  function Overlapping(ls: seq<Location>, start: nat, end: nat): seq<Location> {
    if ls == [] then []
    else if ls[0].start < end && ls[0].end > start then [ls[0]] + Overlapping(ls[1..], start, end)
    else Overlapping(ls[1..], start, end)
  }

  /** `source_location_for_span` */
  function SourceOf(ls: seq<Location>, start: nat, end: nat): Source {
    var over := Overlapping(ls, start, end);
    if over == [] then NOWHERE
    else
      var first, last := over[0], over[|over| - 1];
      if exists l :: l in over && l.kind != first.kind then NOWHERE
      else Source(first.kind, Some(first.value), if last.value != first.value then Some(last.value) else None)
  }

  /** Adjacent non-empty intervals from `lo` to `hi`. */
  ghost predicate Tiles(ls: seq<Location>, lo: nat, hi: nat) {
    if ls == [] then lo == hi
    else ls[0].start == lo && lo < ls[0].end && Tiles(ls[1..], ls[0].end, hi)
  }

  /** The tiles one by one: each starts where the one before it ends. */
  lemma {:induction false} TileBounds(ls: seq<Location>, lo: nat, hi: nat, i: nat)
    requires Tiles(ls, lo, hi) && i < |ls|
    ensures lo <= ls[i].start < ls[i].end <= hi
    ensures ls[i].start == if i == 0 then lo else ls[i - 1].end
    ensures i == |ls| - 1 ==> ls[i].end == hi
  {
    if i > 0 {
      TileBounds(ls[1..], ls[0].end, hi, i - 1);
    } else if |ls| > 1 {
      TileBounds(ls[1..], ls[0].end, hi, |ls| - 2);
    }
  }

  lemma {:induction false} TilesApart(ls: seq<Location>, lo: nat, hi: nat, i: nat, j: nat)
    requires Tiles(ls, lo, hi) && i < |ls| && j < |ls|
    ensures i < j ==> ls[i].end <= ls[j].start
  {
    if 0 == i < j {
      TileBounds(ls[1..], ls[0].end, hi, j - 1);
    } else if i < j {
      TilesApart(ls[1..], ls[0].end, hi, i - 1, j - 1);
    }
  }

  /** Every position of a tiled text lies in exactly one tile. */
  lemma {:induction false} TileOf(ls: seq<Location>, lo: nat, hi: nat, k: nat) returns (i: nat)
    requires Tiles(ls, lo, hi) && lo <= k < hi
    ensures i < |ls| && ls[i].start <= k < ls[i].end
    ensures forall j :: 0 <= j < |ls| && ls[j].start <= k < ls[j].end ==> j == i
  {
    if k < ls[0].end {
      i := 0;
    } else {
      var r := TileOf(ls[1..], ls[0].end, hi, k);
      i := r + 1;
    }
    forall j | 0 <= j < |ls| && ls[j].start <= k < ls[j].end ensures j == i {
      TilesApart(ls, lo, hi, i, j);
      TilesApart(ls, lo, hi, j, i);
    }
  }

  /** The tiles a span touches are those from its first character's to its last character's. */
  lemma {:induction false} OverlappingTiles(ls: seq<Location>, lo: nat, hi: nat, start: nat, end: nat, i: nat, j: nat)
    requires Tiles(ls, lo, hi) && lo <= start < end <= hi
    requires i <= j < |ls| && ls[i].start <= start < ls[i].end && ls[j].start <= end - 1 < ls[j].end
    ensures Overlapping(ls, start, end) == ls[i..j + 1]
  {
    if i > 0 {
      TilesApart(ls, lo, hi, 0, i);
      OverlappingTiles(ls[1..], ls[0].end, hi, start, end, i - 1, j - 1);
      assert ls[1..][i - 1..j] == ls[i..j + 1];
    } else {
      OverlappingPrefix(ls, lo, hi, start, end, j);
      assert ls[0..j + 1] == ls[..j + 1];
    }
  }

  lemma {:induction false} OverlappingPrefix(ls: seq<Location>, lo: nat, hi: nat, start: nat, end: nat, j: nat)
    requires Tiles(ls, lo, hi) && start < end
    requires j < |ls| && start < ls[0].end && ls[j].start <= end - 1 < ls[j].end
    ensures Overlapping(ls, start, end) == ls[..j + 1]
  {
    if j > 0 {
      TilesApart(ls, lo, hi, 0, j);
      OverlappingPrefix(ls[1..], ls[0].end, hi, start, end, j - 1);
      assert ls[..j + 1] == [ls[0]] + ls[1..][..j];
    } else {
      forall x | 0 <= x < |ls[1..]| ensures ls[1..][x].start >= end {
        TilesApart(ls, lo, hi, 0, x + 1);
      }
      OverlappingNone(ls[1..], start, end);
      assert ls[..1] == [ls[0]];
    }
  }

  lemma {:induction false} OverlappingNone(ls: seq<Location>, start: nat, end: nat)
    requires forall i :: 0 <= i < |ls| ==> ls[i].start >= end
    ensures Overlapping(ls, start, end) == []
  {
    if ls != [] {
      OverlappingNone(ls[1..], start, end);
    }
  }

  // ---- estimated pages ----

  function Start(n: nat, m: nat, i: nat): nat
    requires m > 0
  {
    (n * i) / m
  }

  function Page(pageCount: nat, m: nat, i: nat): nat
    requires m > 0
  {
    (pageCount * i) / m + 1
  }

  /** `_approximate_page_locations` for a text of `n` characters. */
  function ApproximatePages(n: nat, pageCount: Option<int>): seq<Location> {
    if n == 0 || pageCount.None? || pageCount.value < 1 then []
    else
      var m := if pageCount.value < n then pageCount.value else n;
      seq(m, i requires 0 <= i < m =>
        Location(Start(n, m, i), Start(n, m, i + 1), "approx_page", Decimal(Page(pageCount.value, m, i))))
  }

  /** Dividing a multiple of at least `m` into `m` equal parts, rounded down, makes every part
      at least one long. */
  lemma PartsGrow(n: nat, m: nat, i: nat)
    requires 0 < m <= n
    ensures (n * i) / m < (n * (i + 1)) / m
  {
    assert n * (i + 1) == n * i + n;
    var q := (n * i) / m;
    assert n * i >= q * m;
    assert n * (i + 1) >= q * m + m == (q + 1) * m;
    AtLeast(n * (i + 1), m, q + 1);
  }

  lemma {:induction false} Scale(x: nat, y: nat, m: nat)
    requires x <= y
    ensures x * m <= y * m
  {
    if m > 0 {
      Scale(x, y, m - 1);
      assert x * m == x * (m - 1) + x && y * m == y * (m - 1) + y;
    }
  }

  lemma Cancel(x: nat, y: nat, m: nat)
    requires m > 0
    ensures x * m < y * m <==> x < y
  {
    if x < y {
      Scale(x + 1, y, m);
      assert (x + 1) * m == x * m + m;
    } else {
      Scale(y, x, m);
    }
  }

  lemma AtLeast(a: nat, m: nat, q: nat)
    requires m > 0 && a >= q * m
    ensures a / m >= q
  {
    var d := a / m;
    assert a < (d + 1) * m;
    Cancel(q, d + 1, m);
  }

  lemma ExactPart(n: nat, m: nat)
    requires m > 0
    ensures (n * m) / m == n && (n * 0) / m == 0
  {
    AtLeast(n * m, m, n);
    var d := (n * m) / m;
    assert d * m <= n * m < (n + 1) * m;
    Cancel(d, n + 1, m);
  }

  lemma {:induction false} PagesGrow(p: nat, m: nat, i: nat, j: nat)
    requires 0 < m <= p && i < j
    ensures Page(p, m, i) < Page(p, m, j)
    decreases j - i
  {
    PartsGrow(p, m, j - 1);
    if i < j - 1 {
      PagesGrow(p, m, i, j - 1);
    }
  }

  /** The estimated pages tile the whole text with non-empty intervals. */
  lemma PagesTile(n: nat, pageCount: Option<int>)
    requires n > 0 && pageCount.Some? && pageCount.value >= 1
    ensures Tiles(ApproximatePages(n, pageCount), 0, n)
    ensures forall l <- ApproximatePages(n, pageCount) :: l.kind == "approx_page"
  {
    var m := if pageCount.value < n then pageCount.value else n;
    var ls := ApproximatePages(n, pageCount);
    forall i | 0 <= i < m ensures Start(n, m, i) < Start(n, m, i + 1) {
      PartsGrow(n, m, i);
    }
    ExactPart(n, m);
    LinkedTile(ls, 0, n);
  }

  /** They are even: page `i` of `m` begins at `n * i / m` and ends at `n * (i + 1) / m`, rounded
      down, and its number is one more than `pageCount * i / m`. */
  lemma PagesEven(n: nat, pageCount: Option<int>, i: nat) returns (number: nat)
    requires n > 0 && pageCount.Some? && pageCount.value >= 1 && i < |ApproximatePages(n, pageCount)|
    ensures var p, m := pageCount.value, |ApproximatePages(n, pageCount)|;
            var l := ApproximatePages(n, pageCount)[i];
            && m == (if p < n then p else n)
            && RoundedTo(l.start, n * i, m) && RoundedTo(l.end, n * (i + 1), m)
            && number >= 1 && RoundedTo(number - 1, p * i, m) && l.value == Decimal(number)
  {
    hide Start, Page, RoundedTo, Decimal;
    var p := pageCount.value;
    var m := if p < n then p else n;
    StartRounds(n, m, i);
    StartRounds(n, m, i + 1);
    number := PageRounds(p, m, i);
  }

  /** `q` is `x / m` rounded down. */
  predicate RoundedTo(q: int, x: int, m: int) {
    q * m <= x < q * m + m
  }

  lemma StartRounds(n: nat, m: nat, i: nat)
    requires m > 0
    ensures RoundedTo(Start(n, m, i), n * i, m)
  {
  }

  lemma PageRounds(p: nat, m: nat, i: nat) returns (number: nat)
    requires m > 0
    ensures number == Page(p, m, i) && number >= 1 && RoundedTo(number - 1, p * i, m)
  {
    number := Page(p, m, i);
  }

  lemma {:induction false} LinkedTile(ls: seq<Location>, lo: nat, hi: nat)
    requires ls == [] ==> lo == hi
    requires ls != [] ==> ls[0].start == lo && ls[|ls| - 1].end == hi
    requires forall i :: 0 <= i < |ls| ==> ls[i].start < ls[i].end && (i > 0 ==> ls[i - 1].end == ls[i].start)
    ensures Tiles(ls, lo, hi)
  {
    if ls != [] {
      var rest := ls[1..];
      forall i | 0 <= i < |rest|
        ensures rest[i].start < rest[i].end && (i > 0 ==> rest[i - 1].end == rest[i].start)
      {
        assert rest[i] == ls[i + 1];
      }
      LinkedTile(rest, ls[0].end, hi);
    }
  }

  /** Page numbers start at 1, increase strictly and never pass the saved page count. */
  lemma PageNumbers(n: nat, pageCount: Option<int>) returns (numbers: seq<nat>)
    requires n > 0 && pageCount.Some? && pageCount.value >= 1
    ensures var ls := ApproximatePages(n, pageCount);
            && |numbers| == |ls| && |ls| == (if pageCount.value < n then pageCount.value else n)
            && (forall i :: 0 <= i < |ls| ==> ls[i].value == Decimal(numbers[i]))
            && numbers[0] == 1
            && (forall i, j :: 0 <= i < j < |ls| ==> numbers[i] < numbers[j])
            && (forall i :: 0 <= i < |ls| ==> 1 <= numbers[i] <= pageCount.value)
  {
    var p := pageCount.value;
    var m := if p < n then p else n;
    numbers := seq(m, i requires 0 <= i < m => Page(p, m, i));
    ExactPart(p, m);
    forall i, j | 0 <= i < j <= m ensures Page(p, m, i) < Page(p, m, j) {
      PagesGrow(p, m, i, j);
    }
    assert Page(p, m, m) == p + 1;
  }

  /** Over estimated pages, the source of a span names exactly the pages of its first and last
      characters, the last one only when it is another page. */
  lemma SpanPages(n: nat, pageCount: Option<int>, start: nat, end: nat) returns (i: nat, j: nat)
    requires n > 0 && pageCount.Some? && pageCount.value >= 1 && start < end <= n
    ensures var ls := ApproximatePages(n, pageCount);
            && i <= j < |ls|
            && ls[i].start <= start < ls[i].end && ls[j].start <= end - 1 < ls[j].end
            && SourceOf(ls, start, end)
               == Source("approx_page", Some(ls[i].value), if i == j then None else Some(ls[j].value))
  {
    PagesTile(n, pageCount);
    PagesDiffer(n, pageCount);
    i, j := TiledSource(ApproximatePages(n, pageCount), n, "approx_page", start, end);
  }

  lemma PagesDiffer(n: nat, pageCount: Option<int>)
    requires n > 0 && pageCount.Some? && pageCount.value >= 1
    ensures var ls := ApproximatePages(n, pageCount);
            forall i, j :: 0 <= i < j < |ls| ==> ls[i].value != ls[j].value
  {
    var ls := ApproximatePages(n, pageCount);
    var numbers := PageNumbers(n, pageCount);
    forall i, j | 0 <= i < j < |ls| ensures ls[i].value != ls[j].value {
      if ls[i].value == ls[j].value {
        DecimalInjective(numbers[i], numbers[j]);
      }
    }
  }

  /** The source of a span over tiles of one kind with distinct values. */
  lemma TiledSource(ls: seq<Location>, n: nat, kind: string, start: nat, end: nat) returns (i: nat, j: nat)
    requires Tiles(ls, 0, n) && start < end <= n && forall l <- ls :: l.kind == kind
    requires forall i, j :: 0 <= i < j < |ls| ==> ls[i].value != ls[j].value
    ensures i <= j < |ls|
    ensures ls[i].start <= start < ls[i].end && ls[j].start <= end - 1 < ls[j].end
    ensures SourceOf(ls, start, end) == Source(kind, Some(ls[i].value), if i == j then None else Some(ls[j].value))
  {
    i := TileOf(ls, 0, n, start);
    j := TileOf(ls, 0, n, end - 1);
    TilesApart(ls, 0, n, j, i);
    OverlappingTiles(ls, 0, n, start, end, i, j);
    var over := ls[i..j + 1];
    assert over[0] == ls[i] && over[|over| - 1] == ls[j];
    forall l | l in over ensures l.kind == kind {
      assert l in ls;
    }
  }

  /** Intervals of different kinds name no source, and neither does a span outside them all. */
  lemma SourceUnknownIff(ls: seq<Location>, start: nat, end: nat)
    ensures SourceOf(ls, start, end).first.None? <==>
            || (forall l <- ls :: !(l.start < end && l.end > start))
            || (exists a, b :: a in ls && b in ls && a.start < end && a.end > start && b.start < end && b.end > start
                               && a.kind != b.kind)
  {
    OverlappingIs(ls, start, end);
    var over := Overlapping(ls, start, end);
    if over != [] {
      assert over[0] in over;
    }
  }

  lemma {:induction false} OverlappingIs(ls: seq<Location>, start: nat, end: nat)
    ensures forall l :: l in Overlapping(ls, start, end) ==> l in ls && l.start < end && l.end > start
    ensures forall l :: l in ls && l.start < end && l.end > start ==> l in Overlapping(ls, start, end)
  {
    if ls != [] {
      OverlappingIs(ls[1..], start, end);
      assert ls == [ls[0]] + ls[1..];
    }
  }
}
