/** The privacy gateway: spans out, markers in, and values back. */
module Gateway {
  import opened Scanner
  import opened Markers
  import opened Sorting
  import opened Spans
  import opened Alphabet
  import opened Surnames
  import opened Vaults
  import opened Weaving

  datatype Outcome<+T> = Ok(value: T) | Refused

  /** `PrivacyGateway.restore` */
  function Restore(text: string, values: map<string, string>, failOnUnknown: bool): Outcome<string> {
    if failOnUnknown && exists m :: m in FindAll(MarkerLikeRe, text) && m !in values then Refused
    else Ok(Substitute(text, values))
  }

  /** Some marker-like token of the text has no value. */
  ghost predicate Foreign(text: string, values: map<string, string>) {
    exists lo: nat, hi: nat :: TokenAt(MarkerLikeRe, text, lo, hi) && text[lo..hi] !in values
  }

  /** Restoring is refused exactly when unknown markers are refused and the text holds one; else
      it substitutes. */
  lemma RestoreRefusedIff(text: string, values: map<string, string>, failOnUnknown: bool)
    ensures Restore(text, values, failOnUnknown).Refused? <==> failOnUnknown && Foreign(text, values)
    ensures Restore(text, values, failOnUnknown).Ok? ==>
              Restore(text, values, failOnUnknown) == Ok(Substitute(text, values))
  {
    hide FindAll, TokenAt;
    forall m | m in FindAll(MarkerLikeRe, text) && m !in values ensures Foreign(text, values) {
      var lo := FoundToken(MarkerLikeRe, text, m);
    }
    forall lo: nat, hi: nat | TokenAt(MarkerLikeRe, text, lo, hi) ensures hi <= |text| && lo <= hi {
      TokenAtIff(MarkerLikeRe, text, lo, hi);
    }
    forall lo: nat, hi: nat | TokenAt(MarkerLikeRe, text, lo, hi) && text[lo..hi] !in values
      ensures exists m :: m in FindAll(MarkerLikeRe, text) && m !in values
    {
      TokenFound(MarkerLikeRe, text, lo, hi);
    }
  }

  /** What `mark_literal` does to a vault for a value and a label. */
  type Marking = (Vault, string, string) -> (string, Vault)

  function MarkingOf(u: Alphabet): Marking {
    (st: Vault, value: string, raw: string) => Mark(u, st, value, raw)
  }

  /** The loop of `sanitize_with_spans` over merged spans: where markers go, and the vault after. */
  function MarkSpans(mark: Marking, st: Vault, text: string, cursor: nat, spans: seq<EntitySpan>): (seq<Patch>, Vault)
    decreases |spans|
  {
    if spans == [] then ([], st)
    else
      var s := spans[0];
      if s.start < cursor || s.end > |text| then MarkSpans(mark, st, text, cursor, spans[1..])
      else
        var (marker, st1) := mark(st, text[s.start..s.end], s.tag);
        var (rest, st2) := MarkSpans(mark, st1, text, s.end, spans[1..]);
        ([Patch(s.start, s.end, marker)] + rest, st2)
  }

  /** The text and the vault that `sanitize_with_spans` leaves after its merged spans. */
  function SanitizeFrom(mark: Marking, st: Vault, text: string, cursor: nat, spans: seq<EntitySpan>): (string, Vault)
    requires cursor <= |text|
    decreases |spans|
  {
    if spans == [] then (text[cursor..], st)
    else
      var s := spans[0];
      if s.start < cursor || s.end > |text| then SanitizeFrom(mark, st, text, cursor, spans[1..])
      else
        var (marker, st1) := mark(st, text[s.start..s.end], s.tag);
        var (rest, st2) := SanitizeFrom(mark, st1, text, s.end, spans[1..]);
        (text[cursor..s.start] + marker + rest, st2)
  }

  function Sanitize(mark: Marking, st: Vault, text: string, spans: seq<EntitySpan>): (string, Vault) {
    SanitizeFrom(mark, st, text, 0, Merge(spans))
  }

  /** `sanitize_with_spans`; the second result is the field's `detected_count`. */
  method SanitizeWithSpans(u: Alphabet, state: MarkerState, text: string, spans: seq<EntitySpan>)
    returns (sanitized: string, detected: nat)
    modifies state
    ensures (sanitized, state.View()) == Sanitize(MarkingOf(u), old(state.View()), text, spans)
    ensures detected == |Merge(spans)|
  {
    var merged := MergeSpans(spans);
    sanitized := ReplaceSpans(u, state, text, merged);
    detected := |merged|;
  }

  method ReplaceSpans(u: Alphabet, state: MarkerState, text: string, merged: seq<EntitySpan>)
    returns (sanitized: string)
    modifies state
    ensures (sanitized, state.View()) == SanitizeFrom(MarkingOf(u), old(state.View()), text, 0, merged)
  {
    var cursor: nat := 0;
    sanitized := "";
    ghost var mark := MarkingOf(u);
    ghost var final := SanitizeFrom(mark, state.View(), text, 0, merged);
    assert merged[0..] == merged && "" + final.0 == final.0;
    for i := 0 to |merged|
      invariant cursor <= |text|
      invariant Continues(mark, state.View(), text, cursor, merged[i..], sanitized, final)
    {
      var span := merged[i];
      assert merged[i..][0] == span && merged[i..][1..] == merged[i + 1..];
      ghost var before := state.View();
      if span.start < cursor || span.end > |text| {
        SkipSpan(mark, before, text, cursor, merged[i..], sanitized, final);
      } else {
        ReplaceSpan(mark, before, text, cursor, merged[i..], sanitized, final);
        var marker := state.MarkLiteral(u, text[span.start..span.end], span.tag);
        assert (marker, state.View()) == mark(before, text[span.start..span.end], span.tag);
        sanitized := sanitized + (text[cursor..span.start] + marker);
        cursor := span.end;
      }
    }
    assert merged[|merged|..] == [];
    sanitized := sanitized + text[cursor..];
  }

  /** What is written so far and what the remaining spans will add make the final result. */
  ghost predicate Continues(mark: Marking, st: Vault, text: string, cursor: nat, spans: seq<EntitySpan>,
                            written: string, final: (string, Vault))
    requires cursor <= |text|
  {
    var (rest, st') := SanitizeFrom(mark, st, text, cursor, spans);
    (written + rest, st') == final
  }

  lemma SkipSpan(mark: Marking, st: Vault, text: string, cursor: nat, spans: seq<EntitySpan>,
                 written: string, final: (string, Vault))
    requires cursor <= |text| && Continues(mark, st, text, cursor, spans, written, final)
    requires spans != [] && (spans[0].start < cursor || spans[0].end > |text|)
    ensures Continues(mark, st, text, cursor, spans[1..], written, final)
  {
  }

  lemma ReplaceSpan(mark: Marking, st: Vault, text: string, cursor: nat, spans: seq<EntitySpan>,
                    written: string, final: (string, Vault))
    requires cursor <= |text| && Continues(mark, st, text, cursor, spans, written, final)
    requires spans != [] && cursor <= spans[0].start && spans[0].end <= |text|
    ensures var s := spans[0];
            var (marker, st1) := mark(st, text[s.start..s.end], s.tag);
            Continues(mark, st1, text, s.end, spans[1..], written + (text[cursor..s.start] + marker), final)
  {
    var s := spans[0];
    var (marker, st1) := mark(st, text[s.start..s.end], s.tag);
    var rest := SanitizeFrom(mark, st1, text, s.end, spans[1..]).0;
    var gap := text[cursor..s.start] + marker;
    assert written + (gap + rest) == (written + gap) + rest;
  }

  lemma {:induction false} SanitizeIsWeave(mark: Marking, st: Vault, text: string, cursor: nat, spans: seq<EntitySpan>)
    requires cursor <= |text|
    ensures var (ps, st') := MarkSpans(mark, st, text, cursor, spans);
            Ordered(ps, cursor, |text|) && SanitizeFrom(mark, st, text, cursor, spans) == (Weave(text, cursor, ps), st')
    decreases |spans|
  {
    if spans != [] {
      var s := spans[0];
      if s.start < cursor || s.end > |text| {
        SanitizeIsWeave(mark, st, text, cursor, spans[1..]);
      } else {
        var (marker, st1) := mark(st, text[s.start..s.end], s.tag);
        SanitizeIsWeave(mark, st1, text, s.end, spans[1..]);
        var rest := MarkSpans(mark, st1, text, s.end, spans[1..]).0;
        assert ([Patch(s.start, s.end, marker)] + rest)[1..] == rest;
      }
    }
  }

  // ---- what marking leaves behind ----

  /** The facts about a marking that the round trip rests on: which vaults it accepts, which
      labels print a marker MARKER_RE can match, and which labels store the value itself. */
  datatype Laws = Laws(valid: Vault -> bool, printable: string -> bool, plain: string -> bool)

  ghost predicate Obeys(mark: Marking, laws: Laws) {
    forall st, value, raw {:trigger mark(st, value, raw)} ::
      laws.valid(st) ==> ObeysAt(mark(st, value, raw), laws, st, value, raw)
  }

  ghost predicate ObeysAt(result: (string, Vault), laws: Laws, st: Vault, value: string, raw: string) {
    var (m, st') := result;
    && laws.valid(st') && Extends(st, st')
    && st'.markerToValue.Keys == st.markerToValue.Keys + {m}
    && (laws.printable(raw) <==> IsMarker(m))
    && (laws.plain(raw) ==> st'.markerToValue[m] == value)
  }

  ghost function LawsOf(u: Alphabet): Laws {
    Laws(st => ValidVault(u, st),
         (raw: string) => Printable(u, raw),
         (raw: string) => StoresItself(u, raw))
  }

  lemma MarkingObeys(u: Alphabet)
    requires Lawful(u)
    ensures Obeys(MarkingOf(u), LawsOf(u))
  {
    forall st, value, raw | LawsOf(u).valid(st)
      ensures ObeysAt(MarkingOf(u)(st, value, raw), LawsOf(u), st, value, raw)
    {
      MarkObeys(u, st, value, raw);
    }
  }

  lemma MarkObeys(u: Alphabet, st: Vault, value: string, raw: string)
    requires Lawful(u) && ValidVault(u, st)
    ensures ObeysAt(Mark(u, st, value, raw), LawsOf(u), st, value, raw)
  {
    MarkKeepsNamespace(u, st, value, raw);
  }

  predicate InRange(text: string, s: EntitySpan) {
    s.end <= |text|
  }

  /** Every span that is replaced has a label whose marker MARKER_RE can match. */
  ghost predicate Markable(laws: Laws, text: string, spans: seq<EntitySpan>) {
    forall s :: s in spans && InRange(text, s) ==> laws.printable(s.tag)
  }

  /** Patch `p` stands for span `s` in the vault `st`. */
  ghost predicate Replaces(laws: Laws, text: string, p: Patch, s: EntitySpan, st: Vault) {
    && InRange(text, s) && p.lo == s.start && p.hi == s.end
    && IsMarker(p.marker) && p.marker in st.markerToValue
    && (laws.plain(s.tag) ==> st.markerToValue[p.marker] == text[s.start..s.end])
  }

  ghost predicate Stands(laws: Laws, text: string, p: Patch, spans: seq<EntitySpan>, st: Vault) {
    exists s :: s in spans && Replaces(laws, text, p, s, st)
  }

  lemma {:induction false} MarkSpansKeepsNamespace(mark: Marking, laws: Laws, st: Vault, text: string,
                                                   cursor: nat, spans: seq<EntitySpan>)
    requires Obeys(mark, laws) && laws.valid(st)
    ensures var st' := MarkSpans(mark, st, text, cursor, spans).1; laws.valid(st') && Extends(st, st')
    decreases |spans|
  {
    if spans != [] {
      var s := spans[0];
      if s.start < cursor || s.end > |text| {
        MarkSpansKeepsNamespace(mark, laws, st, text, cursor, spans[1..]);
      } else {
        var st1 := mark(st, text[s.start..s.end], s.tag).1;
        MarkSpansKeepsNamespace(mark, laws, st1, text, s.end, spans[1..]);
        ExtendsTransitive(st, st1, MarkSpans(mark, st1, text, s.end, spans[1..]).1);
      }
    }
  }

  /** Every issued marker can be matched by MARKER_RE. */
  ghost predicate AllMatched(st: Vault) {
    forall m :: m in st.markerToValue ==> IsMarker(m)
  }

  lemma {:induction false} MarkSpansMatched(mark: Marking, laws: Laws, st: Vault, text: string,
                                            cursor: nat, spans: seq<EntitySpan>)
    requires Obeys(mark, laws) && laws.valid(st) && AllMatched(st)
    requires Markable(laws, text, spans)
    ensures AllMatched(MarkSpans(mark, st, text, cursor, spans).1)
    decreases |spans|
  {
    if spans != [] {
      var s := spans[0];
      assert s in spans;
      if s.start < cursor || s.end > |text| {
        MarkSpansMatched(mark, laws, st, text, cursor, spans[1..]);
      } else {
        var st1 := mark(st, text[s.start..s.end], s.tag).1;
        MarkSpansMatched(mark, laws, st1, text, s.end, spans[1..]);
      }
    }
  }

  /** Each patch replaces one of `all` spans, and each span inside the text is replaced. */
  lemma {:induction false} MarkSpansReplace(mark: Marking, laws: Laws, st: Vault, text: string,
                                            cursor: nat, spans: seq<EntitySpan>, all: seq<EntitySpan>)
    requires Obeys(mark, laws) && laws.valid(st)
    requires SortedBy(spans, Precedes) && (spans != [] ==> cursor <= spans[0].start)
    requires Markable(laws, text, spans) && forall s :: s in spans ==> s in all
    ensures var r := MarkSpans(mark, st, text, cursor, spans);
            && (forall p :: p in r.0 ==> Stands(laws, text, p, all, r.1))
            && (forall s :: s in spans && InRange(text, s) ==> PatchFor(r.0, s.start, s.end))
    decreases |spans|
  {
    if spans != [] {
      var s := spans[0];
      assert |spans| > 1 ==> Precedes(spans[0], spans[1]);
      assert spans == [s] + spans[1..];
      if s.end > |text| {
        MarkSpansReplace(mark, laws, st, text, cursor, spans[1..], all);
        var r := MarkSpans(mark, st, text, cursor, spans);
        assert r == MarkSpans(mark, st, text, cursor, spans[1..]);
        forall p | p in r.0 ensures Stands(laws, text, p, all, r.1) {
        }
      } else {
        var (marker, st1) := mark(st, text[s.start..s.end], s.tag);
        var (rest, st2) := MarkSpans(mark, st1, text, s.end, spans[1..]);
        MarkSpansKeepsNamespace(mark, laws, st1, text, s.end, spans[1..]);
        MarkSpansReplace(mark, laws, st1, text, s.end, spans[1..], all);
        var p := Patch(s.start, s.end, marker);
        assert Replaces(laws, text, p, s, st2);
        PatchesGrow(p, rest, spans, text);
      }
    }
  }

  lemma PatchesGrow(p: Patch, rest: seq<Patch>, spans: seq<EntitySpan>, text: string)
    requires spans != [] && p.lo == spans[0].start && p.hi == spans[0].end
    requires forall s :: s in spans[1..] && InRange(text, s) ==> PatchFor(rest, s.start, s.end)
    ensures forall s :: s in spans && InRange(text, s) ==> PatchFor([p] + rest, s.start, s.end)
  {
    forall s | s in spans && InRange(text, s) ensures PatchFor([p] + rest, s.start, s.end) {
      if s == spans[0] {
        assert ([p] + rest)[0] == p;
      } else {
        assert s in spans[1..] && PatchFor(rest, s.start, s.end);
        var i :| 0 <= i < |rest| && rest[i].lo == s.start && rest[i].hi == s.end;
        assert ([p] + rest)[i + 1] == rest[i];
      }
    }
  }
}
