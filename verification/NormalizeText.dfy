/** Cleaning extracted text. Texts here are sequences of code points, which may be surrogates
    that no valid text holds. */
module NormalizeText {
  import opened Common
  import opened Text

  type Codes = seq<int>

  const NL := 0x0a
  const CR := 0x0d
  const NUL := 0
  const REPLACEMENT := 0xfffd

  predicate IsSurrogate(c: int) {
    0xd800 <= c <= 0xdfff
  }

  /** `re.sub` over the surrogates, and `replace("\x00", "")`. */
  function Legal(t: Codes): (r: Codes)
    ensures forall i :: 0 <= i < |r| ==> !IsSurrogate(r[i]) && r[i] != NUL
  {
    if t == [] then []
    else if t[0] == NUL then Legal(t[1..])
    else [if IsSurrogate(t[0]) then REPLACEMENT else t[0]] + Legal(t[1..])
  }

  /** `replace("\r\n", "\n").replace("\r", "\n")` */
  function Breaks(t: Codes): Codes {
    if t == [] then []
    else if t[0] == CR && |t| > 1 && t[1] == NL then [NL] + Breaks(t[2..])
    else [if t[0] == CR then NL else t[0]] + Breaks(t[1..])
  }

  /** `split("\n")` */
  function Split(t: Codes): (r: seq<Codes>)
    ensures r != []
  {
    if t == [] then [[]]
    else
      var rest := Split(t[1..]);
      if t[0] == NL then [[]] + rest else [[t[0]] + rest[0]] + rest[1..]
  }

  /** `"\n".join(lines)` */
  function Join(lines: seq<Codes>): Codes
    requires lines != []
  {
    if |lines| == 1 then lines[0] else lines[0] + [NL] + Join(lines[1..])
  }

  function TrimEnd(t: Codes): (r: Codes)
    ensures r <= t && (r != [] ==> !IsSpaceCode(r[|r| - 1]))
  {
    if t != [] && IsSpaceCode(t[|t| - 1]) then TrimEnd(t[..|t| - 1]) else t
  }

  function TrimStart(t: Codes): (r: Codes)
    ensures |r| <= |t| && r == t[|t| - |r|..] && (r != [] ==> !IsSpaceCode(r[0]))
  {
    if t != [] && IsSpaceCode(t[0]) then TrimStart(t[1..]) else t
  }

  function TrimLines(lines: seq<Codes>): (r: seq<Codes>)
    ensures |r| == |lines| && forall i :: 0 <= i < |r| ==> r[i] == TrimEnd(lines[i])
  {
    if lines == [] then [] else [TrimEnd(lines[0])] + TrimLines(lines[1..])
  }

  predicate Blank(line: Codes) {
    TrimEnd(TrimStart(line)) == []
  }

  /** The loop with the `blank` flag: a blank line after a blank line is dropped. */
  function Squeeze(lines: seq<Codes>, blank: bool): seq<Codes> {
    if lines == [] then []
    else if Blank(lines[0]) && blank then Squeeze(lines[1..], blank)
    else [lines[0]] + Squeeze(lines[1..], Blank(lines[0]))
  }

  /** The lines of a text, each trimmed at its end, without repeated blanks. */
  function Lines(t: Codes): (r: seq<Codes>)
    ensures r != []
  {
    var lines := TrimLines(Split(Breaks(Legal(t))));
    [lines[0]] + Squeeze(lines[1..], Blank(lines[0]))
  }

  /** `normalize_text` */
  function Normalize(t: Codes): Codes {
    TrimEnd(TrimStart(Join(Lines(t))))
  }

  method NormalizeText(t: Codes) returns (r: Codes)
    ensures r == Normalize(t)
  {
    var lines := TrimLines(Split(Breaks(Legal(t))));
    var normalized: seq<Codes> := [];
    var blank := false;
    for i := 0 to |lines|
      invariant normalized + Squeeze(lines[i..], blank) == Squeeze(lines, false)
    {
      assert lines[i..][0] == lines[i] && lines[i..][1..] == lines[i + 1..];
      var isBlank := Blank(lines[i]);
      if !(isBlank && blank) {
        Regroup(normalized, lines[i], Squeeze(lines[i + 1..], isBlank));
        normalized := normalized + [lines[i]];
        blank := isBlank;
      }
    }
    assert normalized == Lines(t);
    r := TrimEnd(TrimStart(Join(normalized)));
  }

  // ---- what a normalized text looks like ----

  /** Every line ends in a visible character or is empty, and no two empty lines are neighbours. */
  predicate Tidy(lines: seq<Codes>) {
    && (forall i :: 0 <= i < |lines| ==> Trimmed(lines[i]))
    && (forall i :: 0 <= i < |lines| - 1 ==> !EmptyPair(lines, i))
  }

  predicate Trimmed(line: Codes) {
    line != [] ==> !IsSpaceCode(line[|line| - 1])
  }

  predicate EmptyPair(lines: seq<Codes>, i: nat)
    requires i < |lines| - 1
  {
    lines[i] == [] && lines[i + 1] == []
  }

  predicate Visible(c: int) {
    !IsSurrogate(c) && c != NUL && c != CR
  }

  /** A text that normalization leaves alone. */
  predicate Normal(t: Codes) {
    && (forall i :: 0 <= i < |t| ==> Visible(t[i]))
    && (t != [] ==> !IsSpaceCode(t[0]) && !IsSpaceCode(t[|t| - 1]))
    && Tidy(Split(t))
  }

  // ---- the steps, by concatenation ----

  /** Line ends are made uniform piece by piece, wherever a text is not cut inside CR LF. */
  lemma {:induction false} BreaksConcat(a: Codes, b: Codes)
    requires a == [] || b == [] || !(a[|a| - 1] == CR && b[0] == NL)
    ensures Breaks(a + b) == Breaks(a) + Breaks(b)
    decreases |a|
  {
    if a == [] {
      assert a + b == b;
    } else if a[0] == CR && |a| > 1 && a[1] == NL {
      assert (a + b)[2..] == a[2..] + b;
      BreaksConcat(a[2..], b);
    } else {
      assert (a + b)[1..] == a[1..] + b;
      BreaksConcat(a[1..], b);
    }
  }

  /** CR LF and CR become one line feed, everything else stays. */
  lemma BreaksOfOne(c: int)
    ensures Breaks([CR, NL]) == [NL]
    ensures Breaks([c]) == [if c == CR then NL else c]
  {
    assert [CR, NL][2..] == [] && [c][1..] == [];
  }

  /** Lines that are not blank all stay. */
  lemma {:induction false} SqueezeKeepsText(lines: seq<Codes>, blank: bool)
    requires forall i :: 0 <= i < |lines| ==> !Blank(lines[i])
    ensures Squeeze(lines, blank) == lines
  {
    hide Blank;
    if lines != [] {
      SqueezeKeepsText(lines[1..], false);
    }
  }

  /** A run of blank lines between others becomes its first line. */
  lemma {:induction false} SqueezeRun(a: seq<Codes>, run: seq<Codes>, b: seq<Codes>, blank: bool)
    requires a != [] && !Blank(a[|a| - 1]) && run != [] && (forall i :: 0 <= i < |run| ==> Blank(run[i]))
    requires b != [] && !Blank(b[0])
    ensures Squeeze(a + run + b, blank) == Squeeze(a, blank) + [run[0]] + Squeeze(b, false)
    decreases |a|
  {
    hide Blank;
    var all := a + run + b;
    if |a| == 1 {
      assert all[1..] == [run[0]] + (run[1..] + b) && a[1..] == [];
      assert all[1..][1..] == run[1..] + b;
      RunDropped(run[1..], b);
      assert Squeeze(all[1..], false) == [run[0]] + Squeeze(b, false);
    } else {
      assert all[1..] == a[1..] + run + b;
      if Blank(a[0]) && blank {
        SqueezeRun(a[1..], run, b, blank);
      } else {
        SqueezeRun(a[1..], run, b, Blank(a[0]));
        Regroup([a[0]], run[0], Squeeze(b, false));
        ThreeParts(a[0], Squeeze(a[1..], Blank(a[0])), run[0], Squeeze(b, false));
      }
    }
  }

  lemma ThreeParts<T>(x: T, s: seq<T>, y: T, t: seq<T>)
    ensures [x] + (s + [y] + t) == [x] + s + [y] + t
  {
  }

  lemma {:induction false} RunDropped(run: seq<Codes>, b: seq<Codes>)
    requires (forall i :: 0 <= i < |run| ==> Blank(run[i])) && b != [] && !Blank(b[0])
    ensures Squeeze(run + b, true) == Squeeze(b, false)
  {
    hide Blank;
    if run == [] {
      assert run + b == b;
    } else {
      assert (run + b)[1..] == run[1..] + b;
      RunDropped(run[1..], b);
    }
  }

  // ---- splitting and joining ----

  lemma {:induction false} JoinSplit(t: Codes)
    ensures Join(Split(t)) == t
  {
    if t != [] {
      JoinSplit(t[1..]);
      var rest := Split(t[1..]);
      if t[0] == NL {
        assert ([[]] + rest)[1..] == rest;
      } else if |rest| > 1 {
        var lines := [[t[0]] + rest[0]] + rest[1..];
        assert lines[1..] == rest[1..];
        assert [t[0]] + rest[0] + [NL] + Join(rest[1..]) == [t[0]] + (rest[0] + [NL] + Join(rest[1..]));
      }
    }
  }

  predicate PlainLine(line: Codes) {
    forall k :: 0 <= k < |line| ==> line[k] != NL && Visible(line[k])
  }

  lemma {:induction false} SplitPlain(t: Codes)
    requires forall i :: 0 <= i < |t| ==> Visible(t[i])
    ensures forall i :: 0 <= i < |Split(t)| ==> PlainLine(Split(t)[i])
  {
    if t != [] {
      assert Visible(t[0]);
      SplitPlain(t[1..]);
      assert PlainLine(Split(t[1..])[0]);
    }
  }

  lemma {:induction false} SplitLine(line: Codes, t: Codes)
    requires NL !in line
    ensures Split(line + [NL] + t) == [line] + Split(t)
    ensures Split(line) == [line]
  {
    if line == [] {
      assert ([NL] + t)[1..] == t;
      assert line + [NL] + t == [NL] + t;
    } else {
      var s := line + [NL] + t;
      assert line[0] in line;
      assert forall c :: c in line[1..] ==> c in line;
      SplitLine(line[1..], t);
      assert s[1..] == line[1..] + [NL] + t;
      assert [line[0]] + line[1..] == line;
      assert ([line[1..]] + Split(t))[1..] == Split(t);
    }
  }

  lemma {:induction false} SplitJoin(lines: seq<Codes>)
    requires lines != [] && forall i :: 0 <= i < |lines| ==> NL !in lines[i]
    ensures Split(Join(lines)) == lines
  {
    if |lines| == 1 {
      SplitLine(lines[0], []);
    } else {
      SplitJoin(lines[1..]);
      SplitLine(lines[0], Join(lines[1..]));
    }
  }

  // ---- a normal text is a fixed point ----

  lemma {:induction false} LegalKeeps(t: Codes)
    requires forall i :: 0 <= i < |t| ==> Visible(t[i])
    ensures Legal(t) == t && Breaks(t) == t
  {
    if t != [] {
      assert Visible(t[0]);
      LegalKeeps(t[1..]);
    }
  }

  lemma BlankIff(line: Codes)
    requires Trimmed(line)
    ensures TrimEnd(line) == line && (Blank(line) <==> line == [])
  {
    if line != [] {
      LastSurvives(line);
    }
  }

  lemma {:induction false} LastSurvives(line: Codes)
    requires line != [] && !IsSpaceCode(line[|line| - 1])
    ensures TrimStart(line) != [] && TrimStart(line)[|TrimStart(line)| - 1] == line[|line| - 1]
  {
    if IsSpaceCode(line[0]) {
      LastSurvives(line[1..]);
    }
  }

  lemma TidyHead(lines: seq<Codes>)
    requires Tidy(lines) && lines != []
    ensures Trimmed(lines[0]) && (|lines| > 1 && lines[0] == [] ==> lines[1] != [])
  {
    if |lines| > 1 {
      assert !EmptyPair(lines, 0);
    }
  }

  lemma {:induction false} SqueezeKeeps(lines: seq<Codes>, blank: bool)
    requires Tidy(lines) && (blank && lines != [] ==> lines[0] != [])
    ensures Squeeze(lines, blank) == lines
  {
    hide Tidy, Blank;
    if lines != [] {
      TidyHead(lines);
      BlankIff(lines[0]);
      TidyTail(lines);
      SqueezeKeeps(lines[1..], Blank(lines[0]));
    }
  }

  lemma TidyTail(lines: seq<Codes>)
    requires Tidy(lines) && lines != []
    ensures Tidy(lines[1..])
  {
    var rest := lines[1..];
    forall i | 0 <= i < |rest| ensures Trimmed(rest[i]) {
      assert rest[i] == lines[i + 1];
    }
    forall i | 0 <= i < |rest| - 1 ensures !EmptyPair(rest, i) {
      assert !EmptyPair(lines, i + 1);
    }
  }

  lemma TrimLinesKeeps(lines: seq<Codes>)
    requires forall i :: 0 <= i < |lines| ==> Trimmed(lines[i])
    ensures TrimLines(lines) == lines
  {
    forall i | 0 <= i < |lines| ensures TrimEnd(lines[i]) == lines[i] {
      BlankIff(lines[i]);
    }
  }

  lemma NormalIsFixed(t: Codes)
    requires Normal(t)
    ensures Normalize(t) == t
  {
    LegalKeeps(t);
    var lines := Split(t);
    TrimLinesKeeps(lines);
    SqueezeKeeps(lines, false);
    assert Lines(t) == lines;
    JoinSplit(t);
  }

  // ---- normalization yields a normal text ----

  lemma {:induction false} BreaksHasNoReturn(t: Codes)
    requires forall i :: 0 <= i < |t| ==> !IsSurrogate(t[i]) && t[i] != NUL
    ensures forall i :: 0 <= i < |Breaks(t)| ==> Visible(Breaks(t)[i])
  {
    if t != [] {
      assert !IsSurrogate(t[0]) && t[0] != NUL;
      if t[0] == CR && |t| > 1 && t[1] == NL {
        BreaksHasNoReturn(t[2..]);
      } else {
        BreaksHasNoReturn(t[1..]);
      }
    }
  }

  lemma {:induction false} SqueezeTidies(lines: seq<Codes>, blank: bool)
    requires forall i :: 0 <= i < |lines| ==> Trimmed(lines[i])
    ensures Tidy(Squeeze(lines, blank))
    ensures blank && Squeeze(lines, blank) != [] ==> Squeeze(lines, blank)[0] != []
    ensures forall l <- Squeeze(lines, blank) :: l in lines
  {
    hide Blank, Trimmed, IsSpaceCode;
    if lines != [] {
      assert Trimmed(lines[0]);
      BlankIff(lines[0]);
      assert lines == [lines[0]] + lines[1..];
      if Blank(lines[0]) && blank {
        SqueezeTidies(lines[1..], blank);
      } else {
        SqueezeTidies(lines[1..], Blank(lines[0]));
        TidyCons(lines[0], Squeeze(lines[1..], Blank(lines[0])));
      }
    }
  }

  lemma TidyCons(line: Codes, rest: seq<Codes>)
    requires Trimmed(line) && Tidy(rest) && (line == [] && rest != [] ==> rest[0] != [])
    ensures Tidy([line] + rest)
  {
    var lines := [line] + rest;
    forall i | 0 <= i < |lines| - 1 ensures !EmptyPair(lines, i) {
      if i > 0 {
        assert !EmptyPair(rest, i - 1);
      }
    }
  }

  lemma TidyFront(lines: seq<Codes>)
    requires Tidy(lines) && lines != []
    ensures Tidy(lines[..|lines| - 1])
  {
    var front := lines[..|lines| - 1];
    forall i | 0 <= i < |front| ensures Trimmed(front[i]) {
      assert Trimmed(lines[i]);
    }
    forall i | 0 <= i < |front| - 1 ensures !EmptyPair(front, i) {
      assert !EmptyPair(lines, i);
    }
  }

  /** Cutting leading white space from tidy lines leaves tidy lines. */
  lemma {:induction false} TrimStartTidy(t: Codes)
    requires Tidy(Split(t))
    ensures Tidy(Split(TrimStart(t)))
  {
    if t != [] && IsSpaceCode(t[0]) {
      var lines, rest := Split(t), Split(t[1..]);
      TidyTail(lines);
      if t[0] == NL {
        assert lines[1..] == rest;
      } else {
        assert Trimmed(lines[0]) && lines[0] == [t[0]] + rest[0];
        assert lines[0][|lines[0]| - 1] == rest[0][|rest[0]| - 1];
        assert lines[1..] == rest[1..];
        TidyCons(rest[0], rest[1..]);
        assert rest == [rest[0]] + rest[1..];
      }
      TrimStartTidy(t[1..]);
    }
  }

  /** The lines with one more character on the last. */
  function Append(lines: seq<Codes>, c: int): (r: seq<Codes>)
    requires lines != []
    ensures |r| == |lines| && r[|r| - 1] == lines[|lines| - 1] + [c]
  {
    if |lines| == 1 then [lines[0] + [c]] else [lines[0]] + Append(lines[1..], c)
  }

  lemma {:induction false} SplitSnocBreak(t: Codes)
    ensures Split(t + [NL]) == Split(t) + [[]]
  {
    if t == [] {
      assert t + [NL] == [NL] && [NL][1..] == [];
    } else {
      assert (t + [NL])[1..] == t[1..] + [NL];
      SplitSnocBreak(t[1..]);
      var rest := Split(t[1..]);
      assert (rest + [[]])[1..] == rest[1..] + [[]];
    }
  }

  lemma {:induction false} SplitSnocChar(t: Codes, c: int)
    requires c != NL
    ensures Split(t + [c]) == Append(Split(t), c)
  {
    if t == [] {
      assert t + [c] == [c];
      SplitLine([c], []);
    } else {
      assert (t + [c])[1..] == t[1..] + [c];
      SplitSnocChar(t[1..], c);
      var rest := Split(t[1..]);
      if t[0] == NL {
        assert ([[]] + rest)[1..] == rest;
      } else {
        var lines := [[t[0]] + rest[0]] + rest[1..];
        assert lines[1..] == rest[1..];
        assert [t[0]] + (rest[0] + [c]) == ([t[0]] + rest[0]) + [c];
      }
    }
  }

  /** White space at the end of a text whose lines are trimmed is a line break. */
  lemma LastIsBreak(front: Codes, c: int)
    requires Tidy(Split(front + [c]))
    ensures c == NL || !IsSpaceCode(c)
  {
    if c != NL {
      SplitSnocChar(front, c);
      var lines := Split(front + [c]);
      assert Trimmed(lines[|lines| - 1]);
    }
  }

  /** Cutting trailing white space from tidy lines removes whole empty lines only. */
  lemma {:induction false} TrimEndTidy(t: Codes)
    requires Tidy(Split(t))
    ensures Tidy(Split(TrimEnd(t)))
  {
    if t != [] && IsSpaceCode(t[|t| - 1]) {
      var front, c := t[..|t| - 1], t[|t| - 1];
      assert t == front + [c];
      LastIsBreak(front, c);
      SplitSnocBreak(front);
      assert Split(t)[..|Split(t)| - 1] == Split(front);
      TidyFront(Split(t));
      TrimEndTidy(front);
    }
  }

  lemma TrimKeepsVisible(t: Codes)
    requires forall k :: 0 <= k < |t| ==> Visible(t[k])
    ensures var r := TrimEnd(TrimStart(t)); forall k :: 0 <= k < |r| ==> Visible(r[k])
  {
    hide Visible, IsSpaceCode;
    var s := TrimStart(t);
    var cut := |t| - |s|;
    forall k | 0 <= k < |s| ensures Visible(s[k]) {
      assert s[k] == t[cut + k];
    }
  }

  lemma {:induction false} TrimEndKeepsFirst(t: Codes)
    requires t != [] && !IsSpaceCode(t[0])
    ensures TrimEnd(t) != [] && TrimEnd(t)[0] == t[0]
  {
    if IsSpaceCode(t[|t| - 1]) {
      TrimEndKeepsFirst(t[..|t| - 1]);
    }
  }

  lemma {:induction false} JoinVisible(lines: seq<Codes>)
    requires lines != [] && forall i :: 0 <= i < |lines| ==> PlainLine(lines[i])
    ensures forall k :: 0 <= k < |Join(lines)| ==> Visible(Join(lines)[k])
  {
    assert PlainLine(lines[0]);
    if |lines| > 1 {
      JoinVisible(lines[1..]);
    }
  }

  lemma SqueezedPlain(lines: seq<Codes>, blank: bool)
    requires forall i :: 0 <= i < |lines| ==> Trimmed(lines[i]) && PlainLine(lines[i])
    ensures forall i :: 0 <= i < |Squeeze(lines, blank)| ==> PlainLine(Squeeze(lines, blank)[i])
  {
    SqueezeTidies(lines, blank);
    var kept := Squeeze(lines, blank);
    forall i | 0 <= i < |kept| ensures PlainLine(kept[i]) {
      assert kept[i] in lines;
    }
  }

  lemma LinesAreSqueezed(t: Codes)
    ensures Lines(t) == Squeeze(TrimLines(Split(Breaks(Legal(t)))), false)
  {
  }

  /** The lines of any text are tidy, hold no line break and only visible code points. */
  lemma LinesTidy(t: Codes)
    ensures Tidy(Lines(t)) && forall i :: 0 <= i < |Lines(t)| ==> PlainLine(Lines(t)[i])
  {
    hide Squeeze, Lines, Tidy;
    var clean := Breaks(Legal(t));
    BreaksHasNoReturn(Legal(t));
    SplitPlain(clean);
    var lines := TrimLines(Split(clean));
    forall i | 0 <= i < |lines| ensures Trimmed(lines[i]) && PlainLine(lines[i]) {
      assert PlainLine(Split(clean)[i]);
      assert lines[i] <= Split(clean)[i];
    }
    LinesAreSqueezed(t);
    SqueezeTidies(lines, false);
    SqueezedPlain(lines, false);
  }

  lemma PlainHasNoBreak(line: Codes)
    requires PlainLine(line)
    ensures NL !in line
  {
  }

  lemma NormalizeIsNormal(t: Codes)
    ensures Normal(Normalize(t))
    ensures forall c :: c in Normalize(t) ==> !(0xd800 <= c <= 0xdfff) && c != 0 && c != 0x0d
  {
    hide Tidy, Lines, Split, Join;
    var lines := Lines(t);
    LinesTidy(t);
    forall i | 0 <= i < |lines| ensures NL !in lines[i] {
      PlainHasNoBreak(lines[i]);
    }
    SplitJoin(lines);
    var joined := Join(lines);
    JoinVisible(lines);
    TrimStartTidy(joined);
    TrimEndTidy(TrimStart(joined));
    TrimKeepsVisible(joined);
    if TrimStart(joined) != [] {
      TrimEndKeepsFirst(TrimStart(joined));
    }
  }

  /** The normal texts are exactly the fixed points, and normalizing twice is normalizing once. */
  lemma FixedIffNormal(t: Codes)
    ensures Normalize(t) == t <==> Normal(t)
    ensures Normalize(Normalize(t)) == Normalize(t)
  {
    NormalizeIsNormal(t);
    NormalIsFixed(Normalize(t));
    if Normal(t) {
      NormalIsFixed(t);
    }
  }

  // ---- what normalization keeps ----

  /** The characters that are not white space, in order. */
  function Ink(t: Codes): Codes {
    if t == [] then [] else if IsSpaceCode(t[0]) then Ink(t[1..]) else [t[0]] + Ink(t[1..])
  }

  lemma {:induction false} InkConcat(a: Codes, b: Codes)
    ensures Ink(a + b) == Ink(a) + Ink(b)
  {
    if a == [] {
      assert a + b == b;
    } else {
      assert (a + b)[1..] == a[1..] + b;
      InkConcat(a[1..], b);
      if !IsSpaceCode(a[0]) {
        assert [a[0]] + (Ink(a[1..]) + Ink(b)) == [a[0]] + Ink(a[1..]) + Ink(b);
      }
    }
  }

  lemma {:induction false} InkTrimEnd(t: Codes)
    ensures Ink(TrimEnd(t)) == Ink(t)
  {
    if t != [] && IsSpaceCode(t[|t| - 1]) {
      InkTrimEnd(t[..|t| - 1]);
      InkConcat(t[..|t| - 1], [t[|t| - 1]]);
      assert t == t[..|t| - 1] + [t[|t| - 1]];
    }
  }

  lemma {:induction false} InkTrimStart(t: Codes)
    ensures Ink(TrimStart(t)) == Ink(t)
  {
    if t != [] && IsSpaceCode(t[0]) {
      InkTrimStart(t[1..]);
    }
  }

  lemma {:induction false} InkBreaks(t: Codes)
    ensures Ink(Breaks(t)) == Ink(t)
  {
    if t != [] {
      if t[0] == CR && |t| > 1 && t[1] == NL {
        InkBreaks(t[2..]);
        assert t[1..][1..] == t[2..];
        assert Breaks(t)[1..] == Breaks(t[2..]);
      } else {
        InkBreaks(t[1..]);
        assert Breaks(t)[1..] == Breaks(t[1..]);
      }
    }
  }

  function InkLines(lines: seq<Codes>): Codes {
    if lines == [] then [] else Ink(lines[0]) + InkLines(lines[1..])
  }

  lemma InkBreak(line: Codes)
    ensures Ink(line + [NL]) == Ink(line)
  {
    InkConcat(line, [NL]);
    assert Ink([NL]) == [];
  }

  lemma {:induction false} InkJoin(lines: seq<Codes>)
    requires lines != []
    ensures Ink(Join(lines)) == InkLines(lines)
  {
    if |lines| == 1 {
      assert InkLines(lines[1..]) == [];
    } else {
      InkJoin(lines[1..]);
      InkConcat(lines[0] + [NL], Join(lines[1..]));
      InkBreak(lines[0]);
    }
  }

  lemma {:induction false} InkTrimLines(lines: seq<Codes>)
    ensures InkLines(TrimLines(lines)) == InkLines(lines)
  {
    if lines != [] {
      InkTrimEnd(lines[0]);
      InkTrimLines(lines[1..]);
    }
  }

  lemma {:induction false} InkSqueeze(lines: seq<Codes>, blank: bool)
    ensures InkLines(Squeeze(lines, blank)) == InkLines(lines)
  {
    if lines != [] {
      if Blank(lines[0]) && blank {
        InkTrimStart(lines[0]);
        InkTrimEnd(TrimStart(lines[0]));
        InkSqueeze(lines[1..], blank);
      } else {
        InkSqueeze(lines[1..], Blank(lines[0]));
      }
    }
  }

  /** Normalization keeps every character that is not white space, in order, apart from NULs
      dropped and surrogates replaced one for one. */
  lemma NormalizeKeepsInk(t: Codes)
    ensures Ink(Normalize(t)) == Ink(Legal(t))
  {
    var clean := Breaks(Legal(t));
    var lines := TrimLines(Split(clean));
    InkBreaks(Legal(t));
    JoinSplit(clean);
    InkJoin(Split(clean));
    InkTrimLines(Split(clean));
    assert Squeeze(lines, false) == Lines(t);
    InkSqueeze(lines, false);
    InkJoin(Lines(t));
    InkTrimStart(Join(Lines(t)));
    InkTrimEnd(TrimStart(Join(Lines(t))));
  }

  /** Replacing surrogates changes no offset: only NULs shorten the text. */
  lemma {:induction false} LegalLength(t: Codes)
    ensures |Legal(t)| + multiset(t)[NUL] == |t|
    ensures NUL !in t ==> forall i :: 0 <= i < |t| ==> Legal(t)[i] == if IsSurrogate(t[i]) then REPLACEMENT else t[i]
  {
    if t != [] {
      LegalLength(t[1..]);
      assert t == [t[0]] + t[1..];
    }
  }
}
