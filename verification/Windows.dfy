/** Overlapping token windows over a long text. */
module Windows {
  import opened Common

  /** Tokens per window for a tokenizer of the given model length. */
  function Width(modelMaxLength: int): (w: nat)
    ensures 32 <= w <= 510
  {
    Max(32, Min(modelMaxLength, 512) - 2)
  }

  /** A window and two special tokens fill the model's length, up to 512; never fewer than 32 tokens. */
  lemma WidthIs(modelMaxLength: int)
    ensures Width(modelMaxLength) == 32 || Width(modelMaxLength) + 2 == Min(modelMaxLength, 512)
    ensures Width(modelMaxLength) == 32 <==> modelMaxLength <= 34
  {
  }

  function Overlap(width: nat): (o: nat)
    ensures width >= 32 ==> 8 <= o < width
  {
    Min(64, width / 4)
  }

  /** A window of tokens, from the first up to but not including `end`. */
  datatype Window = Window(start: nat, end: nat)

  function TokenWindows(n: nat, width: nat, overlap: nat, start: nat): seq<Window>
    requires overlap < width
    decreases n - start
  {
    if start >= n then []
    else if start + width >= n then [Window(start, n)]
    else [Window(start, start + width)] + TokenWindows(n, width, overlap, start + width - overlap)
  }

  /** A stretch of characters: of one token, or of one window. */
  datatype Offset = Offset(first: nat, last: nat)

  /** The character windows from a token on. */
  function WindowsFrom(offsets: seq<Offset>, width: nat, overlap: nat, start: nat): seq<Offset>
    requires overlap < width
    decreases |offsets| - start
  {
    if start >= |offsets| then []
    else if start + width >= |offsets| then [Offset(offsets[start].first, offsets[|offsets| - 1].last)]
    else
      [Offset(offsets[start].first, offsets[start + width - 1].last)]
      + WindowsFrom(offsets, width, overlap, start + width - overlap)
  }

  /** `_character_windows`, over the offsets of the non-empty tokens. */
  method CharacterWindows(offsets: seq<Offset>, textLength: nat, width: nat, overlap: nat)
    returns (windows: seq<Offset>)
    requires overlap < width
    ensures windows == if offsets == [] then [Offset(0, textLength)] else WindowsFrom(offsets, width, overlap, 0)
  {
    if offsets == [] {
      return [Offset(0, textLength)];
    }
    windows := [];
    var start: nat := 0;
    while start < |offsets|
      invariant windows + WindowsFrom(offsets, width, overlap, start) == WindowsFrom(offsets, width, overlap, 0)
      decreases |offsets| - start
    {
      var end := Min(start + width, |offsets|);
      ghost var before := windows;
      windows := windows + [Offset(offsets[start].first, offsets[end - 1].last)];
      if end >= |offsets| {
        return;
      }
      Regroup(before, Offset(offsets[start].first, offsets[end - 1].last),
              WindowsFrom(offsets, width, overlap, end - overlap));
      start := end - overlap;
    }
  }

  predicate Within(w: Window, start: nat, n: nat, width: nat) {
    start <= w.start < w.end <= n && w.end - w.start <= width
  }

  lemma {:induction false} WindowInRange(n: nat, width: nat, overlap: nat, start: nat, i: nat)
    requires overlap < width && i < |TokenWindows(n, width, overlap, start)|
    ensures Within(TokenWindows(n, width, overlap, start)[i], start, n, width)
    decreases i
  {
    if i > 0 {
      var next := start + width - overlap;
      WindowInRange(n, width, overlap, next, i - 1);
      Shift(Window(start, start + width), TokenWindows(n, width, overlap, next), i);
    }
  }

  lemma {:induction false} LastWindow(n: nat, width: nat, overlap: nat, start: nat)
    requires overlap < width && start < n
    ensures var ws := TokenWindows(n, width, overlap, start); ws != [] && ws[|ws| - 1].end == n
    decreases n - start
  {
    if start + width < n {
      var next := start + width - overlap;
      LastWindow(n, width, overlap, next);
      var rest := TokenWindows(n, width, overlap, next);
      Shift(Window(start, start + width), rest, |rest|);
    }
  }

  /** Windows lie in the text, are at most `width` long, and the last one reaches its end. */
  lemma WindowsInRange(n: nat, width: nat, overlap: nat, start: nat)
    requires overlap < width
    ensures var ws := TokenWindows(n, width, overlap, start);
            && (forall i :: 0 <= i < |ws| ==> Within(ws[i], start, n, width))
            && (start < n ==> ws != [] && ws[|ws| - 1].end == n)
  {
    hide TokenWindows, Within;
    var ws := TokenWindows(n, width, overlap, start);
    forall i | 0 <= i < |ws| ensures Within(ws[i], start, n, width) {
      WindowInRange(n, width, overlap, start, i);
    }
    if start < n {
      LastWindow(n, width, overlap, start);
    }
  }

  /** The characters from the first to the last token of a window. */
  predicate Spans(offsets: seq<Offset>, w: Window, chars: Offset) {
    w.start < w.end <= |offsets| && chars == Offset(offsets[w.start].first, offsets[w.end - 1].last)
  }

  /** The character windows are those of the token windows, one by one. */
  lemma {:induction false} CharactersOfTokens(offsets: seq<Offset>, width: nat, overlap: nat, start: nat, i: nat)
    requires overlap < width && i < |TokenWindows(|offsets|, width, overlap, start)|
    ensures i < |WindowsFrom(offsets, width, overlap, start)|
    ensures Spans(offsets, TokenWindows(|offsets|, width, overlap, start)[i],
                  WindowsFrom(offsets, width, overlap, start)[i])
    decreases i
  {
    if i > 0 {
      var next := start + width - overlap;
      CharactersOfTokens(offsets, width, overlap, next, i - 1);
      Shift(Window(start, start + width), TokenWindows(|offsets|, width, overlap, next), i);
      Shift(Offset(offsets[start].first, offsets[start + width - 1].last),
            WindowsFrom(offsets, width, overlap, next), i);
    }
  }

  lemma Shift<T>(x: T, xs: seq<T>, i: nat)
    requires 0 < i <= |xs|
    ensures ([x] + xs)[i] == xs[i - 1]
  {
  }

  predicate Contains(w: Window, a: nat, length: nat) {
    w.start <= a && a + length <= w.end
  }

  /** Some window holds the run of tokens that begins at `a`. */
  ghost predicate Held(ws: seq<Window>, a: nat, length: nat) {
    exists i :: 0 <= i < |ws| && Contains(ws[i], a, length)
  }

  lemma {:induction false} RunHeld(n: nat, width: nat, overlap: nat, start: nat, a: nat, length: nat)
    requires overlap < width && start <= a && a + length <= n && 1 <= length <= overlap + 1
    ensures Held(TokenWindows(n, width, overlap, start), a, length)
    decreases n - start
  {
    var ws := TokenWindows(n, width, overlap, start);
    var end := Min(start + width, n);
    if a + length <= end {
      assert Contains(ws[0], a, length);
    } else {
      RunHeld(n, width, overlap, end - overlap, a, length);
      var rest := TokenWindows(n, width, overlap, end - overlap);
      var i :| 0 <= i < |rest| && Contains(rest[i], a, length);
      assert ws[i + 1] == rest[i];
    }
  }

  ghost predicate AllRunsHeld(ws: seq<Window>, n: nat, length: nat) {
    forall a: nat :: a <= n - length ==> Held(ws, a, length)
  }

  /** In a text longer than one window, the runs of a given length all lie wholly inside single
      windows exactly when the length is at most the overlap and one. */
  lemma RunsHeldIff(n: nat, width: nat, overlap: nat, length: nat)
    requires overlap < width < n && 1 <= length <= n
    ensures AllRunsHeld(TokenWindows(n, width, overlap, 0), n, length) <==> length <= overlap + 1
  {
    if length <= overlap + 1 {
      forall a: nat | a <= n - length ensures Held(TokenWindows(n, width, overlap, 0), a, length) {
        RunHeld(n, width, overlap, 0, a, length);
      }
    } else {
      SplitRun(n, width, overlap, Min(width - overlap - 1, n - length), length);
    }
  }

  /** With the configured sizes, for any tokenizer: beyond one window all runs of a length are held
      exactly up to the smaller of 64 and a quarter of the window, and one. */
  lemma ConfiguredRuns(modelMaxLength: int, n: nat, length: nat)
    requires Width(modelMaxLength) < n && 1 <= length <= n
    ensures var w := Width(modelMaxLength);
            && AllRunsHeld(TokenWindows(n, w, Overlap(w), 0), n, length) <==> length <= Min(64, w / 4) + 1
  {
    RunsHeldIff(n, Width(modelMaxLength), Overlap(Width(modelMaxLength)), length);
  }

  /** A run reaching from before the second window past the first is in no window. */
  lemma SplitRun(n: nat, width: nat, overlap: nat, a: nat, length: nat)
    requires overlap < width < n && a < width - overlap && width < a + length
    ensures !Held(TokenWindows(n, width, overlap, 0), a, length)
  {
    var ws := TokenWindows(n, width, overlap, 0);
    var rest := TokenWindows(n, width, overlap, width - overlap);
    WindowsInRange(n, width, overlap, width - overlap);
    forall i | 0 <= i < |ws| ensures !Contains(ws[i], a, length) {
      assert i > 0 ==> ws[i] == rest[i - 1] && Within(rest[i - 1], width - overlap, n, width);
    }
  }

  /** Tokens in reading order: neither starts nor ends go back. */
  ghost predicate Ordered(offsets: seq<Offset>) {
    forall i, j :: 0 <= i <= j < |offsets| ==>
      offsets[i].first <= offsets[j].first && offsets[i].last <= offsets[j].last
  }

  /** An entity of at most `overlap + 1` tokens lies, character by character, inside one of the
      windows given to the model; so no token is left out. */
  lemma EntityInOneWindow(offsets: seq<Offset>, width: nat, overlap: nat, a: nat, length: nat) returns (i: nat)
    requires overlap < width && Ordered(offsets) && a + length <= |offsets| && 1 <= length <= overlap + 1
    ensures var ws := WindowsFrom(offsets, width, overlap, 0);
            && i < |ws|
            && forall k :: a <= k < a + length ==> ws[i].first <= offsets[k].first && offsets[k].last <= ws[i].last
  {
    RunHeld(|offsets|, width, overlap, 0, a, length);
    var ws := TokenWindows(|offsets|, width, overlap, 0);
    i :| 0 <= i < |ws| && Contains(ws[i], a, length);
    CharactersOfTokens(offsets, width, overlap, 0, i);
  }
}
