/** Sanitizing and restoring: what a provider's unchanged answer is turned back into. */
module RoundTrip {
  import opened Scanner
  import opened Markers
  import opened Sorting
  import opened Spans
  import opened Alphabet
  import opened Vaults
  import opened Weaving
  import opened Gateway

  /** Every marker-like token of the text was detected as a span nothing can displace, as the
      RAW_MARKER rule does with its top priority. */
  ghost predicate RawMarkersOnTop(text: string, spans: seq<EntitySpan>) {
    forall lo, hi :: TokenAt(MarkerLikeRe, text, lo, hi) ==> TopSpan(spans, lo, hi)
  }

  ghost predicate TopSpan(spans: seq<EntitySpan>, lo: nat, hi: nat) {
    exists c :: c in spans && c.start == lo && c.end == hi && Unbeatable(c, spans)
  }

  /** The stored values of `st` are still there, unchanged, in `later`. */
  ghost predicate StillStored(st: Vault, later: map<string, string>) {
    forall m :: m in st.markerToValue ==> m in later && later[m] == st.markerToValue[m]
  }

  lemma RawMarkersPatched(mark: Marking, laws: Laws, st: Vault, text: string, spans: seq<EntitySpan>)
    requires Obeys(mark, laws) && laws.valid(st)
    requires RawMarkersOnTop(text, spans) && Markable(laws, text, Merge(spans))
    ensures TokensPatched(text, 0, MarkSpans(mark, st, text, 0, Merge(spans)).0)
  {
    var merged := Merge(spans);
    MergeProperties(spans);
    MarkSpansReplace(mark, laws, st, text, 0, merged, merged);
    forall lo, hi | TokenAt(MarkerLikeRe, text, lo, hi)
      ensures PatchFor(MarkSpans(mark, st, text, 0, merged).0, lo, hi)
    {
      assert TopSpan(spans, lo, hi);
      var c :| c in spans && c.start == lo && c.end == hi && Unbeatable(c, spans);
      UnbeatableKept(c, spans);
      var k :| k in merged && k.start == c.start && k.end == c.end;
      assert InRange(text, k);
    }
  }

  /** Sanitizing one field and restoring the result under any later vault meets no unknown
      marker and sets every accepted span to its marker's stored value. */
  lemma SanitizeRestores(mark: Marking, laws: Laws, st: Vault, text: string, spans: seq<EntitySpan>,
                         later: map<string, string>)
    requires Obeys(mark, laws) && laws.valid(st)
    requires RawMarkersOnTop(text, spans) && Markable(laws, text, Merge(spans))
    requires StillStored(Sanitize(mark, st, text, spans).1, later) && ShortMarkers(later)
    ensures var ps := MarkSpans(mark, st, text, 0, Merge(spans)).0;
            Ordered(ps, 0, |text|) &&
            Restore(Sanitize(mark, st, text, spans).0, later, true) == Ok(Filled(text, 0, ps, later))
  {
    var (ps, st') := MarkSpans(mark, st, text, 0, Merge(spans));
    SanitizeIsWeave(mark, st, text, 0, Merge(spans));
    RawMarkersPatched(mark, laws, st, text, spans);
    PatchMarkersIssued(mark, laws, st, text, spans);
    WeaveRestores(text, ps, later);
  }

  lemma PatchMarkersIssued(mark: Marking, laws: Laws, st: Vault, text: string, spans: seq<EntitySpan>)
    requires Obeys(mark, laws) && laws.valid(st) && Markable(laws, text, Merge(spans))
    ensures var (ps, st') := MarkSpans(mark, st, text, 0, Merge(spans));
            forall p :: p in ps ==> Stands(laws, text, p, Merge(spans), st')
  {
    MergeProperties(spans);
    MarkSpansReplace(mark, laws, st, text, 0, Merge(spans), Merge(spans));
  }

  lemma WeaveRestores(text: string, ps: seq<Patch>, later: map<string, string>)
    requires Ordered(ps, 0, |text|) && TokensPatched(text, 0, ps) && ShortMarkers(later)
    requires forall p :: p in ps ==> IsMarker(p.marker) && p.marker in later
    ensures Restore(Weave(text, 0, ps), later, true) == Ok(Filled(text, 0, ps, later))
  {
    SubstituteWeave(text, 0, ps, later);
    RestoreFills(text, 0, ps, later);
    forall p | p in ps ensures Insertable(MarkerLikeRe, p.marker) {
      ShortInsertable(p.marker);
    }
    TokensOfWeave(MarkerLikeRe, text, 0, ps);
    WovenTokensKnown(text, 0, ps, later);
  }

  /** When no accepted span is PER, the original text comes back, character for character. */
  lemma SanitizeRestoresOriginal(mark: Marking, laws: Laws, st: Vault, text: string, spans: seq<EntitySpan>,
                                 later: map<string, string>)
    requires Obeys(mark, laws) && laws.valid(st)
    requires RawMarkersOnTop(text, spans) && Markable(laws, text, Merge(spans))
    requires StillStored(Sanitize(mark, st, text, spans).1, later) && ShortMarkers(later)
    requires forall s :: s in Merge(spans) && InRange(text, s) ==> laws.plain(s.tag)
    ensures Restore(Sanitize(mark, st, text, spans).0, later, true) == Ok(text)
  {
    SanitizeRestores(mark, laws, st, text, spans, later);
    var (ps, st') := MarkSpans(mark, st, text, 0, Merge(spans));
    SanitizeIsWeave(mark, st, text, 0, Merge(spans));
    PatchMarkersIssued(mark, laws, st, text, spans);
    OrderedBounds(ps, 0, |text|);
    forall i | 0 <= i < |ps| ensures Value(later, ps[i].marker) == text[ps[i].lo..ps[i].hi] {
      assert Stands(laws, text, ps[i], Merge(spans), st');
    }
    FilledWithOriginals(text, 0, ps, later);
    assert text[0..] == text;
  }

  // ---- all fields of a request share one vault ----

  datatype Field = Field(text: string, spans: seq<EntitySpan>)

  /** The fields sanitized one after another on one vault. */
  function SanitizeFields(mark: Marking, st: Vault, fields: seq<Field>): (seq<string>, Vault)
    decreases |fields|
  {
    if fields == [] then ([], st)
    else
      var (out, st1) := Sanitize(mark, st, fields[0].text, fields[0].spans);
      var (rest, st2) := SanitizeFields(mark, st1, fields[1..]);
      ([out] + rest, st2)
  }

  ghost predicate Restorable(laws: Laws, f: Field) {
    RawMarkersOnTop(f.text, f.spans) && Markable(laws, f.text, Merge(f.spans))
  }

  lemma FieldKeepsNamespace(mark: Marking, laws: Laws, st: Vault, f: Field)
    requires Obeys(mark, laws) && laws.valid(st)
    ensures var st' := Sanitize(mark, st, f.text, f.spans).1; laws.valid(st') && Extends(st, st')
  {
    SanitizeIsWeave(mark, st, f.text, 0, Merge(f.spans));
    MarkSpansKeepsNamespace(mark, laws, st, f.text, 0, Merge(f.spans));
  }

  lemma {:induction false} FieldsKeepNamespace(mark: Marking, laws: Laws, st: Vault, fields: seq<Field>)
    requires Obeys(mark, laws) && laws.valid(st)
    ensures laws.valid(SanitizeFields(mark, st, fields).1)
    ensures Extends(st, SanitizeFields(mark, st, fields).1)
    ensures |SanitizeFields(mark, st, fields).0| == |fields|
    decreases |fields|
  {
    if fields != [] {
      var st1 := Sanitize(mark, st, fields[0].text, fields[0].spans).1;
      FieldKeepsNamespace(mark, laws, st, fields[0]);
      FieldsKeepNamespace(mark, laws, st1, fields[1..]);
      ExtendsTransitive(st, st1, SanitizeFields(mark, st1, fields[1..]).1);
    }
  }

  lemma StoredStays(a: Vault, b: Vault, later: map<string, string>)
    requires Extends(a, b) && StillStored(b, later)
    ensures StillStored(a, later)
  {
    forall m | m in a.markerToValue ensures m in later && later[m] == a.markerToValue[m] {
      assert m in b.markerToValue;
    }
  }

  /** `out` restores without an unknown marker, and to the field's own text when the field
      holds no PER span. */
  ghost predicate Recovers(laws: Laws, f: Field, out: string, later: map<string, string>) {
    && Restore(out, later, true).Ok?
    && ((forall s :: s in Merge(f.spans) && InRange(f.text, s) ==> laws.plain(s.tag)) ==>
          Restore(out, later, true) == Ok(f.text))
  }

  lemma FieldRecovers(mark: Marking, laws: Laws, st: Vault, f: Field, later: map<string, string>)
    requires Obeys(mark, laws) && laws.valid(st) && Restorable(laws, f)
    requires StillStored(Sanitize(mark, st, f.text, f.spans).1, later) && ShortMarkers(later)
    ensures Recovers(laws, f, Sanitize(mark, st, f.text, f.spans).0, later)
  {
    SanitizeRestores(mark, laws, st, f.text, f.spans, later);
    if forall s :: s in Merge(f.spans) && InRange(f.text, s) ==> laws.plain(s.tag) {
      SanitizeRestoresOriginal(mark, laws, st, f.text, f.spans, later);
    }
  }

  /** What is replaced in field `i` when the fields are sanitized one after another. */
  function FieldPatches(mark: Marking, st: Vault, fields: seq<Field>, i: nat): seq<Patch>
    requires i < |fields|
    decreases i
  {
    if i == 0 then MarkSpans(mark, st, fields[0].text, 0, Merge(fields[0].spans)).0
    else FieldPatches(mark, Sanitize(mark, st, fields[0].text, fields[0].spans).1, fields[1..], i - 1)
  }

  /** Each patch lies where an accepted span lies, and each accepted span inside the text has one. */
  ghost predicate PatchesSpans(text: string, ps: seq<Patch>, spans: seq<EntitySpan>) {
    && Ordered(ps, 0, |text|)
    && (forall p :: p in ps ==> exists s :: s in spans && s.start == p.lo && s.end == p.hi)
    && (forall s :: s in spans && InRange(text, s) ==> PatchFor(ps, s.start, s.end))
  }

  /** Every field of a request is restored, by the vault the request ends with or any later one,
      to its own text with each accepted span set to its marker's stored value. */
  lemma {:induction false} FieldsFilled(mark: Marking, laws: Laws, st: Vault, fields: seq<Field>,
                                        later: map<string, string>, i: nat)
    requires Obeys(mark, laws) && laws.valid(st) && i < |fields|
    requires forall f :: f in fields ==> Restorable(laws, f)
    requires StillStored(SanitizeFields(mark, st, fields).1, later) && ShortMarkers(later)
    ensures |SanitizeFields(mark, st, fields).0| == |fields|
    ensures var ps := FieldPatches(mark, st, fields, i);
            && PatchesSpans(fields[i].text, ps, Merge(fields[i].spans))
            && Restore(SanitizeFields(mark, st, fields).0[i], later, true) == Ok(Filled(fields[i].text, 0, ps, later))
    decreases |fields|
  {
    hide Obeys, Restore, Filled, PatchesSpans, Restorable, StillStored, ShortMarkers, MarkSpans, Sanitize, Merge;
    var st1 := Sanitize(mark, st, fields[0].text, fields[0].spans).1;
    FieldKeepsNamespace(mark, laws, st, fields[0]);
    FieldsKeepNamespace(mark, laws, st1, fields[1..]);
    if i == 0 {
      StoredStays(st1, SanitizeFields(mark, st1, fields[1..]).1, later);
      FieldFilled(mark, laws, st, fields[0], later);
    } else {
      FieldsFilled(mark, laws, st1, fields[1..], later, i - 1);
    }
  }

  lemma FieldFilled(mark: Marking, laws: Laws, st: Vault, f: Field, later: map<string, string>)
    requires Obeys(mark, laws) && laws.valid(st) && Restorable(laws, f)
    requires StillStored(Sanitize(mark, st, f.text, f.spans).1, later) && ShortMarkers(later)
    ensures var ps := MarkSpans(mark, st, f.text, 0, Merge(f.spans)).0;
            && PatchesSpans(f.text, ps, Merge(f.spans))
            && Restore(Sanitize(mark, st, f.text, f.spans).0, later, true) == Ok(Filled(f.text, 0, ps, later))
  {
    SanitizeRestores(mark, laws, st, f.text, f.spans, later);
    var merged := Merge(f.spans);
    MergeProperties(f.spans);
    MarkSpansReplace(mark, laws, st, f.text, 0, merged, merged);
    PatchMarkersIssued(mark, laws, st, f.text, f.spans);
  }

  /** Every field of a request, and every field of an earlier iteration, is restored by the
      vault the request ends with. */
  lemma {:induction false} FieldsRecover(mark: Marking, laws: Laws, st: Vault, fields: seq<Field>,
                                         later: map<string, string>, i: nat)
    requires Obeys(mark, laws) && laws.valid(st) && i < |fields|
    requires forall f :: f in fields ==> Restorable(laws, f)
    requires StillStored(SanitizeFields(mark, st, fields).1, later) && ShortMarkers(later)
    ensures |SanitizeFields(mark, st, fields).0| == |fields|
    ensures Recovers(laws, fields[i], SanitizeFields(mark, st, fields).0[i], later)
    decreases |fields|
  {
    var st1 := Sanitize(mark, st, fields[0].text, fields[0].spans).1;
    FieldKeepsNamespace(mark, laws, st, fields[0]);
    FieldsKeepNamespace(mark, laws, st1, fields[1..]);
    if i == 0 {
      StoredStays(st1, SanitizeFields(mark, st1, fields[1..]).1, later);
      FieldRecovers(mark, laws, st, fields[0], later);
    } else {
      FieldsRecover(mark, laws, st1, fields[1..], later, i - 1);
    }
  }

  /** The statement for the gateway's own marking. */
  lemma GatewayRoundTrip(u: Alphabet, fields: seq<Field>, later: map<string, string>, i: nat)
    requires Lawful(u) && i < |fields|
    requires forall f :: f in fields ==> Restorable(LawsOf(u), f)
    requires StillStored(SanitizeFields(MarkingOf(u), EMPTY, fields).1, later) && ShortMarkers(later)
    ensures |SanitizeFields(MarkingOf(u), EMPTY, fields).0| == |fields|
    ensures Recovers(LawsOf(u), fields[i], SanitizeFields(MarkingOf(u), EMPTY, fields).0[i], later)
  {
    MarkingObeys(u);
    EmptyValid(u);
    FieldsRecover(MarkingOf(u), LawsOf(u), EMPTY, fields, later, i);
  }
}
