/** Cutting a text into overlapping chunks. */
module Chunking {
  import opened Common
  import opened Text
  import opened Pages

  datatype Chunk = Chunk(ordinal: nat, start: nat, end: nat, text: string, source: Source)

  /** Sizes as configured, and `share`, the truncated product with 0.65. */
  datatype Settings = Settings(size: int, overlap: int, minimum: int, share: nat -> nat)

  ghost predicate Fractional(p: Settings) {
    forall n :: p.share(n) <= n
  }

  predicate Invalid(p: Settings) {
    p.size <= 0 || p.overlap < 0 || p.overlap >= p.size
  }

  const SEPARATORS: seq<string> := ["\n\n", ". ", "\n", "; ", ", ", " "]

  predicate At(text: string, q: nat, sep: string) {
    q + |sep| <= |text| && text[q..q + |sep|] == sep
  }

  /** `text.rfind(sep, lower, upper)`, or -1. */
  function RFind(text: string, sep: string, lower: nat, upper: nat): (p: int)
    requires upper <= |text| && sep != ""
    ensures p == -1 || (lower <= p && p + |sep| <= upper && At(text, p, sep))
    ensures forall q :: lower <= q && q + |sep| <= upper && At(text, q, sep) ==> q <= p
    decreases upper
  {
    if lower + |sep| > upper then -1
    else if At(text, upper - |sep|, sep) then upper - |sep|
    else RFind(text, sep, lower, upper - 1)
  }

  /** The first separator of the list with an occurrence in the window ends the chunk. */
  function EndAfter(text: string, seps: seq<string>, lower: nat, target: nat): (r: nat)
    requires target <= |text| && forall i :: 0 <= i < |seps| ==> seps[i] != ""
    ensures r <= target
  {
    if seps == [] then target
    else
      var p := RFind(text, seps[0], lower, target);
      if p >= lower then p + |seps[0]| else EndAfter(text, seps[1..], lower, target)
  }

  /** `_choose_end` */
  function ChooseEnd(text: string, p: Settings, start: nat, target: nat): nat
    requires start <= target <= |text|
  {
    if target >= |text| then |text|
    else EndAfter(text, SEPARATORS, Max(start + p.minimum, start + p.share(target - start)), target)
  }

  function SkipSpace(text: string, i: nat): (r: nat)
    requires i <= |text|
    ensures i <= r <= |text| && (r < |text| ==> !IsSpace(text[r]))
    ensures forall k :: i <= k < r ==> IsSpace(text[k])
    decreases |text| - i
  {
    if i < |text| && IsSpace(text[i]) then SkipSpace(text, i + 1) else i
  }

  function TrimSpace(text: string, start: nat, end: nat): (r: nat)
    requires start <= end <= |text|
    ensures start <= r <= end && (r > start ==> !IsSpace(text[r - 1]))
    ensures forall k :: r <= k < end ==> IsSpace(text[k])
  {
    if end > start && IsSpace(text[end - 1]) then TrimSpace(text, start, end - 1) else end
  }

  /** The end of the chunk that starts at `start`. */
  function ChunkEnd(text: string, p: Settings, start: nat): (end: nat)
    requires !Invalid(p) && start < |text| && !IsSpace(text[start]) && Fractional(p)
    ensures start < end <= |text| && end <= start + p.size
    ensures !IsSpace(text[end - 1])
  {
    var target := if start + p.size <= |text| then start + p.size else |text|;
    var chosen := ChooseEnd(text, p, start, target);
    ChosenAfterStart(text, p, start, target);
    TrimSpace(text, start, chosen)
  }

  /** Where the search for the next chunk begins. */
  function NextStart(p: Settings, start: nat, end: nat): (next: nat)
    requires !Invalid(p) && start < end
    ensures start < next <= end && end - next <= p.overlap
  {
    Max(end - p.overlap, start + 1)
  }

  /** All chunks from a position on. */
  function ChunksFrom(text: string, p: Settings, places: seq<Location>, start: nat, ordinal: nat): seq<Chunk>
    requires !Invalid(p) && start <= |text| && Fractional(p)
    decreases |text| - start
  {
    var s := SkipSpace(text, start);
    if s >= |text| then []
    else
      var e := ChunkEnd(text, p, s);
      [Chunk(ordinal, s, e, text[s..e], SourceOf(places, s, e))]
      + (if e >= |text| then [] else ChunksFrom(text, p, places, NextStart(p, s, e), ordinal + 1))
  }

  datatype Outcome = Chunked(chunks: seq<Chunk>) | InvalidSize

  /** `chunk_text` */
  method ChunkText(text: string, p: Settings, places: seq<Location>) returns (r: Outcome)
    requires Fractional(p)
    ensures r.InvalidSize? <==> p.size < 1 || p.overlap < 0 || p.size <= p.overlap
    ensures r.Chunked? ==> r.chunks == ChunksFrom(text, p, places, 0, 0)
  {
    hide ChooseEnd, ChunkEnd, SourceOf, ChunksFrom, IsSpace, NextStart;
    if p.size <= 0 || p.overlap < 0 || p.overlap >= p.size {
      return InvalidSize;
    }
    if text == "" {
      ChunksStep(text, p, places, 0, 0);
      return Chunked([]);
    }
    var chunks: seq<Chunk> := [];
    ghost var all := ChunksFrom(text, p, places, 0, 0);
    var start, ordinal := 0, 0;
    while start < |text|
      invariant 0 <= start <= |text| && 0 <= ordinal
      invariant chunks + ChunksFrom(text, p, places, start, ordinal) == all
      decreases |text| - start
    {
      ghost var from := start;
      while start < |text| && IsSpace(text[start])
        invariant from <= start <= |text|
        invariant SkipSpace(text, start) == SkipSpace(text, from)
      {
        start := start + 1;
      }
      ChunksStep(text, p, places, from, ordinal);
      if start >= |text| {
        break;
      }
      var target := if start + p.size <= |text| then start + p.size else |text|;
      var end := ChooseEnd(text, p, start, target);
      ghost var chosen := end;
      ChosenAfterStart(text, p, start, target);
      while end > start && IsSpace(text[end - 1])
        invariant start < end <= |text|
        invariant TrimSpace(text, start, end) == TrimSpace(text, start, chosen)
      {
        end := end - 1;
      }
      // The chunk begins with a visible character, so the source's `end <= start` never holds.
      ChunkEndIs(text, p, start);
      ghost var c := Chunk(ordinal, start, end, text[start..end], SourceOf(places, start, end));
      ghost var rest :=
        if end >= |text| then [] else ChunksFrom(text, p, places, NextStart(p, start, end), ordinal + 1);
      Regroup(chunks, c, rest);
      chunks := chunks + [Chunk(ordinal, start, end, text[start..end], SourceOf(places, start, end))];
      if end >= |text| {
        return Chunked(chunks);
      }
      start := NextStart(p, start, end);
      ordinal := ordinal + 1;
    }
    ChunksStep(text, p, places, start, ordinal);
    return Chunked(chunks);
  }

  lemma ChunkEndIs(text: string, p: Settings, start: nat)
    requires !Invalid(p) && start < |text| && !IsSpace(text[start]) && Fractional(p)
    ensures var target := if start + p.size <= |text| then start + p.size else |text|;
            && start < ChooseEnd(text, p, start, target) <= target
            && ChunkEnd(text, p, start) == TrimSpace(text, start, ChooseEnd(text, p, start, target))
  {
    ChosenAfterStart(text, p, start, if start + p.size <= |text| then start + p.size else |text|);
  }

  lemma ChunksStep(text: string, p: Settings, places: seq<Location>, from: nat, ordinal: nat)
    requires !Invalid(p) && from <= |text| && Fractional(p)
    ensures var s := SkipSpace(text, from);
            && (s >= |text| ==> ChunksFrom(text, p, places, from, ordinal) == [])
            && (s < |text| ==>
                  var e := ChunkEnd(text, p, s);
                  ChunksFrom(text, p, places, from, ordinal)
                  == [Chunk(ordinal, s, e, text[s..e], SourceOf(places, s, e))]
                     + if e >= |text| then [] else ChunksFrom(text, p, places, NextStart(p, s, e), ordinal + 1))
  {
    hide ChunkEnd, SkipSpace, NextStart, SourceOf, IsSpace;
  }

  lemma ChosenAfterStart(text: string, p: Settings, start: nat, target: nat)
    requires start < target <= |text| && Fractional(p)
    ensures start < ChooseEnd(text, p, start, target) <= target
  {
    if target < |text| {
      EndAfterLower(text, SEPARATORS, Max(start + p.minimum, start + p.share(target - start)), target);
    }
  }

  lemma {:induction false} EndAfterLower(text: string, seps: seq<string>, lower: nat, target: nat)
    requires target <= |text| && forall i :: 0 <= i < |seps| ==> seps[i] != ""
    ensures EndAfter(text, seps, lower, target) == target || EndAfter(text, seps, lower, target) > lower
  {
    if seps != [] {
      EndAfterLower(text, seps[1..], lower, target);
    }
  }

  /** Inside the text a chunk is cut at a separator only beyond both the minimum and the share
      of the target; otherwise it runs to the target. */
  lemma CutNotEarly(text: string, p: Settings, start: nat, target: nat)
    requires start < target < |text| && Fractional(p)
    ensures var end := ChooseEnd(text, p, start, target);
            end == target || (end > start + p.minimum && end > start + p.share(target - start))
  {
    EndAfterLower(text, SEPARATORS, Max(start + p.minimum, start + p.share(target - start)), target);
  }

  predicate OccursIn(text: string, sep: string, lower: nat, upper: nat)
    requires upper <= |text|
  {
    exists q: nat, e: nat :: lower <= q <= e <= upper && text[q..e] == sep
  }

  /** Where the separator is found, spelled out. */
  lemma Spelled(text: string, sep: string)
    ensures forall q: nat, e: nat :: q <= e <= |text| && text[q..e] == sep ==> At(text, q, sep) && e == q + |sep|
    ensures forall q: nat :: At(text, q, sep) ==> q + |sep| <= |text| && text[q..q + |sep|] == sep
  {
    forall q: nat, e: nat | q <= e <= |text| && text[q..e] == sep ensures At(text, q, sep) && e == q + |sep| {
      assert |text[q..e]| == e - q;
    }
  }

  /** Where a chunk inside the text is cut: after the last occurrence, in the window, of the
      first separator that has one; at the target when none has. */
  lemma {:induction false} CutRule(text: string, seps: seq<string>, lower: nat, target: nat)
    requires target <= |text| && forall i :: 0 <= i < |seps| ==> seps[i] != ""
    ensures var r := EndAfter(text, seps, lower, target);
            || (r == target && forall i :: 0 <= i < |seps| ==> !OccursIn(text, seps[i], lower, target))
            || (exists i :: 0 <= i < |seps| && CutAfter(text, seps, i, lower, target, r))
  {
    if seps != [] {
      var p := RFind(text, seps[0], lower, target);
      Spelled(text, seps[0]);
      if p >= lower {
        assert CutAfter(text, seps, 0, lower, target, p + |seps[0]|);
      } else {
        var r := EndAfter(text, seps, lower, target);
        assert !OccursIn(text, seps[0], lower, target);
        CutRule(text, seps[1..], lower, target);
        if i :| 0 <= i < |seps[1..]| && CutAfter(text, seps[1..], i, lower, target, r) {
          CutLater(text, seps, i, lower, target, r);
        } else {
          forall j | 0 <= j < |seps| ensures !OccursIn(text, seps[j], lower, target) {
            assert j > 0 ==> seps[1..][j - 1] == seps[j];
          }
        }
      }
    }
  }

  /** Where the chunk itself ends: at the cut, less the white space before it. Inside the text the
      cut is where the rule puts it, with the window the settings give; at its end there is none. */
  lemma ChunkCut(text: string, p: Settings, start: nat) returns (cut: nat)
    requires !Invalid(p) && start < |text| && !IsSpace(text[start]) && Fractional(p)
    ensures var target := if start + p.size <= |text| then start + p.size else |text|;
            var lower: nat := Max(start + p.minimum, start + p.share(target - start));
            var end := ChunkEnd(text, p, start);
            && start < end <= cut <= target && !IsSpace(text[end - 1])
            && (forall k :: end <= k < cut ==> IsSpace(text[k]))
            && (target == |text| ==> cut == target)
            && (target < |text| ==>
                  || (cut == target
                      && forall i :: 0 <= i < |SEPARATORS| ==> !OccursIn(text, SEPARATORS[i], lower, target))
                  || (exists i :: 0 <= i < |SEPARATORS| && CutAfter(text, SEPARATORS, i, lower, target, cut)))
  {
    hide IsSpace, OccursIn, CutAfter, EndAfter;
    var target := if start + p.size <= |text| then start + p.size else |text|;
    cut := ChooseEnd(text, p, start, target);
    ChunkEndIs(text, p, start);
    if target < |text| {
      CutRule(text, SEPARATORS, Max(start + p.minimum, start + p.share(target - start)), target);
    }
  }

  ghost predicate CutAfter(text: string, seps: seq<string>, i: nat, lower: nat, target: nat, r: nat)
    requires target <= |text| && i < |seps|
  {
    var sep := seps[i];
    && lower + |sep| <= r <= target && text[r - |sep|..r] == sep
    && (forall q: nat, e: nat :: r - |sep| < q <= e <= target ==> text[q..e] != sep)
    && (forall j :: 0 <= j < i ==> !OccursIn(text, seps[j], lower, target))
  }

  lemma CutLater(text: string, seps: seq<string>, i: nat, lower: nat, target: nat, r: nat)
    requires target <= |text| && seps != [] && i < |seps[1..]| && CutAfter(text, seps[1..], i, lower, target, r)
    requires !OccursIn(text, seps[0], lower, target)
    ensures CutAfter(text, seps, i + 1, lower, target, r)
  {
    forall j | 0 <= j < i + 1 ensures !OccursIn(text, seps[j], lower, target) {
      if j > 0 {
        assert seps[1..][j - 1] == seps[j];
      }
    }
  }

  // ---- what the chunks are ----

  /** One chunk: a slice no longer than the size, visible at both ends, with its own source. */
  ghost predicate WellCut(text: string, p: Settings, places: seq<Location>, from: nat, c: Chunk) {
    && from <= c.start < c.end <= |text| && c.end - c.start <= p.size
    && c.text == text[c.start..c.end] && !IsSpace(text[c.start]) && !IsSpace(text[c.end - 1])
    && c.source == SourceOf(places, c.start, c.end)
  }

  lemma {:induction false} ChunksWellCut(text: string, p: Settings, places: seq<Location>, start: nat, ordinal: nat)
    requires !Invalid(p) && start <= |text| && Fractional(p)
    ensures forall c <- ChunksFrom(text, p, places, start, ordinal) :: WellCut(text, p, places, start, c)
    decreases |text| - start
  {
    hide ChunkEnd, SkipSpace, NextStart, SourceOf, IsSpace;
    var s := SkipSpace(text, start);
    if s < |text| {
      var e := ChunkEnd(text, p, s);
      if e < |text| {
        ChunksWellCut(text, p, places, NextStart(p, s, e), ordinal + 1);
      }
    }
  }

  /** Consecutive chunks: numbered in order, and the later one begins at the first visible
      character from one overlap before the end of the earlier one, or from one character after
      its start when that is later. So starts increase and at most the overlap is shared. */
  ghost predicate Follows(text: string, p: Settings, a: Chunk, b: Chunk)
    requires b.start <= |text|
  {
    var from := if a.end - p.overlap > a.start then a.end - p.overlap else a.start + 1;
    && b.ordinal == a.ordinal + 1 && a.start < from <= b.start && a.end - b.start <= p.overlap
    && (b.start < |text| ==> !IsSpace(text[b.start]))
    && forall k :: from <= k < b.start ==> IsSpace(text[k])
  }

  /** The chunks from a position on begin at its first visible character. */
  lemma FirstChunk(text: string, p: Settings, places: seq<Location>, start: nat, ordinal: nat)
    requires !Invalid(p) && start <= |text| && Fractional(p)
    ensures var cs := ChunksFrom(text, p, places, start, ordinal);
            cs != [] ==>
              && start <= cs[0].start < |text| && cs[0].ordinal == ordinal && !IsSpace(text[cs[0].start])
              && forall k :: start <= k < cs[0].start ==> IsSpace(text[k])
  {
    hide ChunkEnd, SourceOf, NextStart, IsSpace, ChunksFrom;
    ChunksStep(text, p, places, start, ordinal);
  }

  lemma NextIs(p: Settings, start: nat, end: nat)
    requires !Invalid(p) && start < end
    ensures NextStart(p, start, end) == if end - p.overlap > start then end - p.overlap else start + 1
  {
  }

  lemma {:induction false} ChunksFollow(text: string, p: Settings, places: seq<Location>, start: nat, ordinal: nat,
                                        i: nat)
    requires !Invalid(p) && start <= |text| && Fractional(p)
    requires i + 1 < |ChunksFrom(text, p, places, start, ordinal)|
    ensures var cs := ChunksFrom(text, p, places, start, ordinal);
            cs[i + 1].start <= |text| && Follows(text, p, cs[i], cs[i + 1])
    decreases i
  {
    hide ChunkEnd, SkipSpace, NextStart, SourceOf, IsSpace;
    var s := SkipSpace(text, start);
    var e := ChunkEnd(text, p, s);
    var next := NextStart(p, s, e);
    if i > 0 {
      ChunksFollow(text, p, places, next, ordinal + 1, i - 1);
    } else {
      FirstChunk(text, p, places, next, ordinal + 1);
      NextIs(p, s, e);
    }
  }

  /** Every visible character lies in some chunk. */
  lemma {:induction false} ChunksCover(text: string, p: Settings, places: seq<Location>, start: nat, ordinal: nat,
                                       k: nat)
    returns (i: nat)
    requires !Invalid(p) && start <= k < |text| && Fractional(p) && !IsSpace(text[k])
    ensures var cs := ChunksFrom(text, p, places, start, ordinal);
            i < |cs| && cs[i].start <= k < cs[i].end
    decreases |text| - start
  {
    hide ChunkEnd, SkipSpace, NextStart, SourceOf, IsSpace;
    var s := SkipSpace(text, start);
    var e := ChunkEnd(text, p, s);
    if k < e {
      i := 0;
    } else {
      var r := ChunksCover(text, p, places, NextStart(p, s, e), ordinal + 1, k);
      i := r + 1;
    }
  }

  /** There is a chunk exactly when there is a visible character; the first has ordinal 0. */
  lemma ChunkedIffVisible(text: string, p: Settings, places: seq<Location>)
    requires !Invalid(p) && Fractional(p)
    ensures ChunksFrom(text, p, places, 0, 0) == [] <==> forall k :: 0 <= k < |text| ==> IsSpace(text[k])
    ensures ChunksFrom(text, p, places, 0, 0) != [] ==> ChunksFrom(text, p, places, 0, 0)[0].ordinal == 0
  {
    var s := SkipSpace(text, 0);
  }

  /** Chunk ordinals are positions, so the identities hashed into chunk ids never repeat. */
  lemma {:induction false} OrdinalsArePositions(text: string, p: Settings, places: seq<Location>, i: nat)
    requires !Invalid(p) && Fractional(p) && i < |ChunksFrom(text, p, places, 0, 0)|
    ensures ChunksFrom(text, p, places, 0, 0)[i].ordinal == i
  {
    if i > 0 {
      OrdinalsArePositions(text, p, places, i - 1);
      ChunksFollow(text, p, places, 0, 0, i - 1);
    }
  }
}
