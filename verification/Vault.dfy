/** The marker namespace of one request: which marker stands for which value. */
module Vaults {
  import opened Text
  import opened Markers
  import opened Alphabet
  import opened Surnames

  datatype Vault = Vault(
    markerToValue: map<string, string>,
    valueToMarker: map<(string, string), string>,
    counters: map<string, nat>,
    aliases: map<string, set<string>>
  )

  const EMPTY := Vault(map[], map[], map[], map[])

  /** `SAFE_LABEL_RE.sub("_", s)`: every run of other characters becomes one underscore. */
  function CollapseUnsafe(s: string, inRun: bool): (r: string)
    ensures forall i :: 0 <= i < |r| ==> IsLabelChar(r[i])
  {
    if s == "" then ""
    else if IsLabelChar(s[0]) then [s[0]] + CollapseUnsafe(s[1..], false)
    else (if inRun then "" else "_") + CollapseUnsafe(s[1..], true)
  }

  function TrimUnderscores(s: string): (r: string)
    ensures r != "" ==> r[0] != '_' && r[|r| - 1] != '_'
    ensures (forall i :: 0 <= i < |s| ==> IsLabelChar(s[i])) ==> forall i :: 0 <= i < |r| ==> IsLabelChar(r[i])
    decreases |s|
  {
    if s == "" then ""
    else if s[0] == '_' then TrimUnderscores(s[1..])
    else if s[|s| - 1] == '_' then TrimUnderscores(s[..|s| - 1])
    else s
  }

  predicate IsSafeLabel(t: string) {
    t != "" && forall i :: 0 <= i < |t| ==> IsLabelChar(t[i])
  }

  /** `PrivacyGateway._safe_label` */
  function SafeLabel(u: Alphabet, raw: string): (t: string)
    ensures IsSafeLabel(t) && t[0] != '_' && t[|t| - 1] != '_'
  {
    var normalized := TrimUnderscores(CollapseUnsafe(Upper(u, raw), false));
    if normalized == "" then "ENTITY" else normalized
  }

  function KeyOf(u: Alphabet, value: string, raw: string): (string, string) {
    var safe := SafeLabel(u, raw);
    (safe, IdentityKey(u, safe, value).1)
  }

  function FormsOf(u: Alphabet, value: string, raw: string): set<string> {
    var safe := SafeLabel(u, raw);
    {value, CanonicalValue(u, safe, value), DisplayValue(u, safe, value)}
  }

  /** The vault update of `mark_literal` once key, display value and alias forms are known. */
  function Record(st: Vault, key: (string, string), display: string, forms: set<string>): (string, Vault) {
    if key in st.valueToMarker then
      var marker := st.valueToMarker[key];
      var known := if marker in st.aliases then st.aliases[marker] else {};
      (marker, st.(aliases := st.aliases[marker := known + forms]))
    else
      var number := (if key.0 in st.counters then st.counters[key.0] else 0) + 1;
      var marker := MarkerText(key.0, number);
      (marker, Vault(
         st.markerToValue[marker := display],
         st.valueToMarker[key := marker],
         st.counters[key.0 := number],
         st.aliases[marker := forms]))
  }

  /** The marker given to `value` and the vault afterwards. */
  function Mark(u: Alphabet, st: Vault, value: string, raw: string): (string, Vault) {
    Record(st, KeyOf(u, value, raw), DisplayValue(u, SafeLabel(u, raw), value), FormsOf(u, value, raw))
  }

  /** The mutable dictionaries of `MarkerState`, updated in place by `mark_literal`. */
  class MarkerState {
    var markerToValue: map<string, string>
    var valueToMarker: map<(string, string), string>
    var counters: map<string, nat>
    var aliases: map<string, set<string>>

    function View(): Vault
      reads this
    {
      Vault(markerToValue, valueToMarker, counters, aliases)
    }

    constructor ()
      ensures View() == EMPTY
    {
      markerToValue := map[];
      valueToMarker := map[];
      counters := map[];
      aliases := map[];
    }

    method MarkLiteral(u: Alphabet, value: string, raw: string) returns (marker: string)
      modifies this
      ensures (marker, View()) == Mark(u, old(View()), value, raw)
    {
      hide DisplayValue, FormsOf, SafeLabel, MarkerText, IdentityKey;
      var display := DisplayValue(u, SafeLabel(u, raw), value);
      var key := KeyOf(u, value, raw);
      var forms := FormsOf(u, value, raw);
      if key in valueToMarker {
        marker := valueToMarker[key];
        var known := if marker in aliases then aliases[marker] else {};
        aliases := aliases[marker := known + forms];
        return;
      }
      var number := (if key.0 in counters then counters[key.0] else 0) + 1;
      counters := counters[key.0 := number];
      marker := MarkerText(key.0, number);
      valueToMarker := valueToMarker[key := marker];
      markerToValue := markerToValue[marker := display];
      aliases := aliases[marker := forms];
    }
  }

  // ---- what every reachable vault satisfies, for any identity function ----

  type Identity = (string, string) -> (string, string)

  function IdentityOf(u: Alphabet): Identity {
    (tag: string, value: string) => IdentityKey(u, tag, value)
  }

  /** The marker of key `k` carries the label of `k` and a number already counted. */
  ghost predicate Numbered(st: Vault, k: (string, string))
    requires k in st.valueToMarker
  {
    && IsSafeLabel(k.0) && k.0 in st.counters
    && exists n :: 1 <= n <= st.counters[k.0] && st.valueToMarker[k] == MarkerText(k.0, n)
  }

  /** The stored value of the marker of `k` has identity `k`. */
  ghost predicate Faithful(id: Identity, st: Vault, k: (string, string))
    requires k in st.valueToMarker
  {
    var m := st.valueToMarker[k];
    && m in st.markerToValue && m in st.aliases
    && st.markerToValue[m] in st.aliases[m]
    && id(k.0, st.markerToValue[m]) == k
  }

  ghost predicate KeysGood(id: Identity, st: Vault) {
    forall k :: k in st.valueToMarker ==> Numbered(st, k) && Faithful(id, st, k)
  }

  ghost predicate Injective(st: Vault) {
    forall j, k :: j in st.valueToMarker && k in st.valueToMarker ==>
      st.valueToMarker[j] == st.valueToMarker[k] ==> j == k
  }

  /** Every stored marker belongs to a key. */
  ghost predicate Covered(st: Vault) {
    forall m :: m in st.markerToValue ==> HasKey(st, m)
  }

  ghost predicate HasKey(st: Vault, m: string) {
    exists k :: k in st.valueToMarker && st.valueToMarker[k] == m
  }

  /** Numbering has no gaps. */
  ghost predicate Dense(st: Vault) {
    forall tag, n :: Counted(st, tag, n) ==> MarkerText(tag, n) in st.markerToValue
  }

  predicate Counted(st: Vault, tag: string, n: nat) {
    tag in st.counters && 1 <= n <= st.counters[tag]
  }

  ghost predicate Valid(id: Identity, st: Vault) {
    && KeysGood(id, st) && Injective(st) && Covered(st) && Dense(st)
    && st.markerToValue.Keys == st.aliases.Keys
  }

  /** `b` is a later vault of the same request: nothing issued in `a` was changed. */
  ghost predicate Extends(a: Vault, b: Vault) {
    && (forall m :: m in a.markerToValue ==> m in b.markerToValue && b.markerToValue[m] == a.markerToValue[m])
    && (forall k :: k in a.valueToMarker ==> k in b.valueToMarker && b.valueToMarker[k] == a.valueToMarker[k])
    && (forall m :: m in a.aliases ==> m in b.aliases && a.aliases[m] <= b.aliases[m])
  }

  lemma ExtendsTransitive(a: Vault, b: Vault, c: Vault)
    requires Extends(a, b) && Extends(b, c)
    ensures Extends(a, c)
  {
  }

  /** A number not yet counted gives a marker that was never issued. */
  lemma FreshMarker(id: Identity, st: Vault, tag: string, number: nat)
    requires Valid(id, st)
    requires number == (if tag in st.counters then st.counters[tag] else 0) + 1
    ensures MarkerText(tag, number) !in st.markerToValue
    ensures forall k :: k in st.valueToMarker ==> st.valueToMarker[k] != MarkerText(tag, number)
  {
    var m := MarkerText(tag, number);
    forall k | k in st.valueToMarker ensures st.valueToMarker[k] != m {
      assert Numbered(st, k);
      var n :| 1 <= n <= st.counters[k.0] && st.valueToMarker[k] == MarkerText(k.0, n);
      if MarkerText(k.0, n) == m {
        MarkerTextInjective(k.0, n, tag, number);
      }
    }
  }

  lemma RecordReused(id: Identity, st: Vault, key: (string, string), display: string, forms: set<string>)
    requires Valid(id, st) && key in st.valueToMarker
    ensures Valid(id, Record(st, key, display, forms).1)
    ensures Extends(st, Record(st, key, display, forms).1)
  {
    assert Faithful(id, st, key);
    var m := st.valueToMarker[key];
    AliasesGrow(id, st, m, st.aliases[m] + forms);
  }

  lemma AliasesGrow(id: Identity, st: Vault, m: string, forms: set<string>)
    requires Valid(id, st) && m in st.aliases && st.aliases[m] <= forms
    ensures Valid(id, st.(aliases := st.aliases[m := forms]))
    ensures Extends(st, st.(aliases := st.aliases[m := forms]))
  {
    hide KeysGood, Covered;
    var st' := st.(aliases := st.aliases[m := forms]);
    KeysUnchanged(id, st, st');
    assert Dense(st') by {
      assert forall tag, n :: Counted(st', tag, n) ==> Counted(st, tag, n);
    }
    assert st'.aliases.Keys == st.aliases.Keys;
    ValidIntro(id, st');
  }

  lemma KeysUnchanged(id: Identity, st: Vault, st': Vault)
    requires KeysGood(id, st) && Covered(st)
    requires st'.valueToMarker == st.valueToMarker && st'.markerToValue == st.markerToValue
    requires st'.counters == st.counters
    requires forall m :: m in st.aliases ==> m in st'.aliases && st.aliases[m] <= st'.aliases[m]
    ensures KeysGood(id, st') && Covered(st')
  {
    forall k | k in st'.valueToMarker ensures Numbered(st', k) && Faithful(id, st', k) {
      assert Numbered(st, k) && Faithful(id, st, k);
    }
    forall v | v in st'.markerToValue ensures HasKey(st', v) {
      assert HasKey(st, v);
    }
  }

  lemma RecordNew(id: Identity, st: Vault, key: (string, string), display: string, forms: set<string>)
    requires Valid(id, st) && key !in st.valueToMarker
    requires IsSafeLabel(key.0) && id(key.0, display) == key && display in forms
    ensures Valid(id, Record(st, key, display, forms).1)
    ensures Extends(st, Record(st, key, display, forms).1)
  {
    var (m, st') := Record(st, key, display, forms);
    assert m !in st.markerToValue && forall k :: k in st.valueToMarker ==> st.valueToMarker[k] != m by {
      FreshMarker(id, st, key.0, st'.counters[key.0]);
    }
    assert KeysGood(id, st') by { RecordNewKeys(id, st, key, display, forms); }
    assert Covered(st') by { RecordNewCovered(st, key, display, forms); }
    assert Dense(st') by { RecordNewDense(st, key, display, forms); }
    RecordNewInjective(st, key, display, forms);
    RecordNewAliases(st, key, display, forms);
    ValidIntro(id, st');
  }

  lemma RecordNewAliases(st: Vault, key: (string, string), display: string, forms: set<string>)
    requires st.markerToValue.Keys == st.aliases.Keys && key !in st.valueToMarker
    ensures var st' := Record(st, key, display, forms).1; st'.markerToValue.Keys == st'.aliases.Keys
  {
    var (m, st') := Record(st, key, display, forms);
    assert st'.markerToValue.Keys == st.markerToValue.Keys + {m};
    assert st'.aliases.Keys == st.aliases.Keys + {m};
  }

  lemma ValidIntro(id: Identity, st: Vault)
    requires KeysGood(id, st) && Injective(st) && Covered(st) && Dense(st)
    requires st.markerToValue.Keys == st.aliases.Keys
    ensures Valid(id, st)
  {
  }

  lemma RecordNewInjective(st: Vault, key: (string, string), display: string, forms: set<string>)
    requires Injective(st) && key !in st.valueToMarker
    requires Record(st, key, display, forms).0 !in st.markerToValue
    requires Record(st, key, display, forms).0 !in st.aliases
    requires forall k :: k in st.valueToMarker ==> st.valueToMarker[k] != Record(st, key, display, forms).0
    ensures Injective(Record(st, key, display, forms).1)
    ensures Extends(st, Record(st, key, display, forms).1)
  {
  }

  lemma RecordNewKeys(id: Identity, st: Vault, key: (string, string), display: string, forms: set<string>)
    requires KeysGood(id, st) && key !in st.valueToMarker
    requires IsSafeLabel(key.0) && id(key.0, display) == key && display in forms
    requires Record(st, key, display, forms).0 !in st.markerToValue
    ensures KeysGood(id, Record(st, key, display, forms).1)
  {
    var st' := Record(st, key, display, forms).1;
    forall k | k in st'.valueToMarker ensures Numbered(st', k) && Faithful(id, st', k) {
      if k == key {
        assert st'.valueToMarker[k] == MarkerText(k.0, st'.counters[k.0]);
      } else {
        assert Numbered(st, k) && Faithful(id, st, k);
        var n :| 1 <= n <= st.counters[k.0] && st.valueToMarker[k] == MarkerText(k.0, n);
        assert st'.valueToMarker[k] == MarkerText(k.0, n);
      }
    }
  }

  lemma RecordNewCovered(st: Vault, key: (string, string), display: string, forms: set<string>)
    requires Covered(st) && key !in st.valueToMarker
    ensures Covered(Record(st, key, display, forms).1)
  {
    var (m, st') := Record(st, key, display, forms);
    forall v | v in st'.markerToValue ensures HasKey(st', v) {
      if v == m {
        assert st'.valueToMarker[key] == v;
      } else {
        assert HasKey(st, v);
        var k :| k in st.valueToMarker && st.valueToMarker[k] == v;
        assert st'.valueToMarker[k] == v;
      }
    }
  }

  lemma RecordNewDense(st: Vault, key: (string, string), display: string, forms: set<string>)
    requires Dense(st) && key !in st.valueToMarker
    ensures Dense(Record(st, key, display, forms).1)
  {
    var st' := Record(st, key, display, forms).1;
    forall tag, n | Counted(st', tag, n) ensures MarkerText(tag, n) in st'.markerToValue {
      assert Counted(st, tag, n) || (tag == key.0 && n == st'.counters[key.0]);
    }
  }

  lemma RecordKeys(id: Identity, st: Vault, key: (string, string), display: string, forms: set<string>)
    requires KeysGood(id, st)
    ensures var (m, st') := Record(st, key, display, forms);
            st'.markerToValue.Keys == st.markerToValue.Keys + {m}
  {
    if key in st.valueToMarker {
      assert Faithful(id, st, key);
    }
  }

  lemma KeyFacts(u: Alphabet, value: string, raw: string)
    requires Lawful(u)
    ensures var key := KeyOf(u, value, raw);
            && key.0 == SafeLabel(u, raw) && IsSafeLabel(key.0)
            && IdentityOf(u)(key.0, DisplayValue(u, key.0, value)) == key
            && DisplayValue(u, key.0, value) in FormsOf(u, value, raw)
            && (!IsPerson(u, key.0) ==> DisplayValue(u, key.0, value) == value)
            && (!IsPerson(u, key.0) ==> forall v :: IdentityOf(u)(key.0, v).1 == v)
  {
    var safe := SafeLabel(u, raw);
    IdentityFixed(u, safe, value);
    forall i | 0 <= i < |safe| ensures u.upper(safe[i]) == safe[i] {
      assert IsLabelChar(safe[i]);
    }
    assert Upper(u, safe) == safe;
  }

  ghost predicate ValidVault(u: Alphabet, st: Vault) {
    Valid(IdentityOf(u), st)
  }

  lemma EmptyValid(u: Alphabet)
    ensures ValidVault(u, EMPTY)
  {
  }

  /** Labels outside PER: the marker stores the value itself. */
  predicate StoresItself(u: Alphabet, raw: string) {
    !IsPerson(u, SafeLabel(u, raw))
  }

  /** Labels whose markers MARKER_RE matches: the safe label begins with A-Z. */
  predicate Printable(u: Alphabet, raw: string) {
    IsUpperAscii(SafeLabel(u, raw)[0])
  }

  /** One `mark_literal` call: nothing issued before is touched, the returned marker stands
      for the identity of the value, and outside PER it stores the value itself. */
  lemma MarkKeepsNamespace(u: Alphabet, st: Vault, value: string, raw: string)
    requires Lawful(u) && ValidVault(u, st)
    ensures var (m, st') := Mark(u, st, value, raw);
            && ValidVault(u, st') && Extends(st, st')
            && KeyOf(u, value, raw) in st'.valueToMarker && st'.valueToMarker[KeyOf(u, value, raw)] == m
            && st'.markerToValue.Keys == st.markerToValue.Keys + {m}
            && (StoresItself(u, raw) ==> st'.markerToValue[m] == value)
            && LabelOf(m) == SafeLabel(u, raw)
            && (IsMarker(m) <==> Printable(u, raw))
  {
    hide DisplayValue, FormsOf, IsMarker, LabelOf, MarkerText, Injective, Covered, Dense;
    var key := KeyOf(u, value, raw);
    KeyFacts(u, value, raw);
    var display, forms := DisplayValue(u, key.0, value), FormsOf(u, value, raw);
    if key in st.valueToMarker {
      RecordReused(IdentityOf(u), st, key, display, forms);
    } else {
      RecordNew(IdentityOf(u), st, key, display, forms);
    }
    var (m, st') := Record(st, key, display, forms);
    RecordKeys(IdentityOf(u), st, key, display, forms);
    assert Numbered(st', key) && Faithful(IdentityOf(u), st', key);
    var n :| 1 <= n <= st'.counters[key.0] && m == MarkerText(key.0, n);
    LabelOfMarker(key.0, n);
    MarkerTextMatches(key.0, n);
    if !IsPerson(u, key.0) {
      KeyIsValue(u, value, raw);
    }
  }

  lemma KeyIsValue(u: Alphabet, value: string, raw: string)
    requires !IsPerson(u, SafeLabel(u, raw))
    ensures KeyOf(u, value, raw).1 == value
  {
  }

  /** Two marks of one request share a marker exactly when label and identity agree, however
      many marks lie between them. */
  lemma SameMarkerIffSameIdentity(u: Alphabet, st: Vault, v1: string, l1: string,
                                  later: Vault, v2: string, l2: string)
    requires Lawful(u) && ValidVault(u, st) && ValidVault(u, later)
    requires Extends(Mark(u, st, v1, l1).1, later)
    ensures Mark(u, st, v1, l1).0 == Mark(u, later, v2, l2).0 <==> KeyOf(u, v1, l1) == KeyOf(u, v2, l2)
  {
    MarkKeepsNamespace(u, st, v1, l1);
    MarkKeepsNamespace(u, later, v2, l2);
  }

  /** The labels of persons. */
  const PERSON_LABELS := {"PER", "PERSON", "PERS"}

  lemma SafeLabelIsUpper(u: Alphabet, raw: string)
    requires Lawful(u)
    ensures Upper(u, SafeLabel(u, raw)) == SafeLabel(u, raw)
    ensures IsPerson(u, SafeLabel(u, raw)) <==> SafeLabel(u, raw) in PERSON_LABELS
  {
    var safe := SafeLabel(u, raw);
    assert forall i :: 0 <= i < |safe| ==> IsLabelChar(safe[i]);
  }

  /** When two marks share a marker, told by label and value: the safe labels are equal, and the
      values are, or for persons the normal forms of their chosen words but for letter case. */
  lemma SharedMarkerIff(u: Alphabet, st: Vault, v1: string, l1: string, later: Vault, v2: string, l2: string)
    requires Lawful(u) && ValidVault(u, st) && ValidVault(u, later)
    requires Extends(Mark(u, st, v1, l1).1, later)
    ensures Mark(u, st, v1, l1).0 == Mark(u, later, v2, l2).0 <==>
            && SafeLabel(u, l1) == SafeLabel(u, l2)
            && if SafeLabel(u, l1) in PERSON_LABELS then
                 Fold(u, CanonicalPerson(u, v1)) == Fold(u, CanonicalPerson(u, v2))
               else v1 == v2
  {
    hide Mark, CanonicalPerson, SafeLabel;
    SameMarkerIffSameIdentity(u, st, v1, l1, later, v2, l2);
    SafeLabelIsUpper(u, l1);
    SafeLabelIsUpper(u, l2);
  }

  /** An inflected surname gets the marker of its nominative, however many marks lie between. */
  lemma InflectedSharesMarker(u: Alphabet, st: Vault, stem: string, k: nat, raw: string, later: Vault)
    requires Lawful(u) && ValidVault(u, st) && ValidVault(u, later) && k < |u.endings|
    requires SafeLabel(u, raw) in PERSON_LABELS
    requires var w := stem + u.endings[k].0; LeastEnding(u, Fold(u, w), k) && exists n :: WordShape(u, w, n)
    requires exists n :: WordShape(u, stem + u.endings[k].1, n)
    requires Extends(Mark(u, st, stem + u.endings[k].0, raw).1, later)
    ensures Mark(u, st, stem + u.endings[k].0, raw).0 == Mark(u, later, stem + u.endings[k].1, raw).0
  {
    hide Mark, CanonicalPerson, SafeLabel, LeastEnding, WordShape, ValidVault, Lawful;
    InflectedCanonical(u, stem, k);
    SharedMarkerIff(u, st, stem + u.endings[k].0, raw, later, stem + u.endings[k].1, raw);
  }

  /** What a mark learns and stores. The value, its canonical and its display form become aliases
      of the marker; a new marker stores the value itself, or for a person of one word that word's
      normal form; a known one keeps what it stores. */
  lemma MarkLearns(u: Alphabet, st: Vault, value: string, raw: string)
    requires Lawful(u) && ValidVault(u, st)
    ensures var (m, st') := Mark(u, st, value, raw);
            var person := SafeLabel(u, raw) in PERSON_LABELS;
            var display := if person && |Words(u, value)| == 1 then NormalizeSurname(u, Words(u, value)[0]) else value;
            var canonical := if person then CanonicalPerson(u, value) else value;
            && m in st'.aliases && m in st'.markerToValue
            && st'.aliases[m] == (if m in st.aliases then st.aliases[m] else {}) + {value, canonical, display}
            && st'.markerToValue[m] == (if m in st.markerToValue then st.markerToValue[m] else display)
            && (forall x :: x in st.markerToValue && x != m ==> x in st'.aliases && st'.aliases[x] == st.aliases[x])
  {
    hide CanonicalPerson, NormalizeSurname, Words, SafeLabel, Record, KeyOf, FormsOf, DisplayValue, ValidVault, Lawful;
    SafeLabelIsUpper(u, raw);
    FormsAre(u, value, raw);
    RecordLearns(u, st, KeyOf(u, value, raw), DisplayValue(u, SafeLabel(u, raw), value), FormsOf(u, value, raw));
  }

  lemma FormsAre(u: Alphabet, value: string, raw: string)
    ensures var safe := SafeLabel(u, raw);
            var display := if IsPerson(u, safe) && |Words(u, value)| == 1 then NormalizeSurname(u, Words(u, value)[0])
                           else value;
            && DisplayValue(u, safe, value) == display
            && FormsOf(u, value, raw)
               == {value, if IsPerson(u, safe) then CanonicalPerson(u, value) else value, display}
  {
    hide CanonicalPerson, NormalizeSurname, Words, SafeLabel;
  }

  lemma RecordLearns(u: Alphabet, st: Vault, key: (string, string), display: string, forms: set<string>)
    requires ValidVault(u, st)
    ensures var (m, st') := Record(st, key, display, forms);
            && m in st'.aliases && m in st'.markerToValue
            && st'.aliases[m] == (if m in st.aliases then st.aliases[m] else {}) + forms
            && st'.markerToValue[m] == (if m in st.markerToValue then st.markerToValue[m] else display)
            && (forall x :: x in st.markerToValue && x != m ==> x in st'.aliases && st'.aliases[x] == st.aliases[x])
  {
    hide MarkerText, Injective, Covered, Dense;
    if key in st.valueToMarker {
      assert Numbered(st, key) && Faithful(IdentityOf(u), st, key);
    } else {
      var number := (if key.0 in st.counters then st.counters[key.0] else 0) + 1;
      FreshMarker(IdentityOf(u), st, key.0, number);
    }
  }

  // ---- what the safe label is ----

  /** The label characters of a string other than underscores, in order. */
  function Letters(s: string): string {
    if s == "" then ""
    else (if IsLabelChar(s[0]) && s[0] != '_' then [s[0]] else "") + Letters(s[1..])
  }

  /** Safe labels keep the label characters of the upper-cased label; one without any becomes
      ENTITY. */
  lemma SafeLabelKeepsLetters(u: Alphabet, raw: string)
    ensures Letters(SafeLabel(u, raw)) == if Letters(Upper(u, raw)) == "" then "ENTITY" else Letters(Upper(u, raw))
  {
    var s := Upper(u, raw);
    var c := CollapseUnsafe(s, false);
    CollapseKeepsLetters(s, false);
    TrimKeepsLetters(c);
    var t := TrimUnderscores(c);
    if t == "" {
      assert Letters(['E', 'N', 'T', 'I', 'T', 'Y']) == "ENTITY" by { AllLetters("ENTITY"); }
    } else {
      assert Letters(t) != "" by { assert t[0] != '_' && IsLabelChar(t[0]); }
    }
  }

  lemma {:induction false} AllLetters(s: string)
    requires forall i :: 0 <= i < |s| ==> IsLabelChar(s[i]) && s[i] != '_'
    ensures Letters(s) == s
  {
    if s != "" {
      AllLetters(s[1..]);
    }
  }

  lemma {:induction false} LettersConcat(a: string, b: string)
    ensures Letters(a + b) == Letters(a) + Letters(b)
  {
    if a == "" {
      assert a + b == b;
    } else {
      assert (a + b)[1..] == a[1..] + b;
      LettersConcat(a[1..], b);
    }
  }

  lemma {:induction false} CollapseKeepsLetters(s: string, inRun: bool)
    ensures Letters(CollapseUnsafe(s, inRun)) == Letters(s)
  {
    if s != "" {
      var safe := IsLabelChar(s[0]);
      CollapseKeepsLetters(s[1..], !safe);
      var rest := CollapseUnsafe(s[1..], !safe);
      LettersConcat(if safe then [s[0]] else if inRun then "" else "_", rest);
    }
  }

  lemma {:induction false} TrimKeepsLetters(s: string)
    ensures Letters(TrimUnderscores(s)) == Letters(s)
    decreases |s|
  {
    if s != "" && s[0] == '_' {
      TrimKeepsLetters(s[1..]);
    } else if s != "" && s[|s| - 1] == '_' {
      TrimKeepsLetters(s[..|s| - 1]);
      assert s == s[..|s| - 1] + "_";
      LettersConcat(s[..|s| - 1], "_");
    }
  }

  /** A label that is safe already stays itself. */
  lemma SafeLabelFixed(u: Alphabet, raw: string)
    requires IsSafeLabel(Upper(u, raw)) && Upper(u, raw)[0] != '_' && Upper(u, raw)[|raw| - 1] != '_'
    ensures SafeLabel(u, raw) == Upper(u, raw)
  {
    CollapseSafe(Upper(u, raw), false);
  }

  lemma {:induction false} CollapseSafe(s: string, inRun: bool)
    requires forall i :: 0 <= i < |s| ==> IsLabelChar(s[i])
    ensures CollapseUnsafe(s, inRun) == s
  {
    if s != "" {
      CollapseSafe(s[1..], false);
    }
  }

  /** A run of other characters between safe ones becomes one underscore. */
  lemma {:induction false} CollapseRun(a: string, run: string, b: string, inRun: bool)
    requires a != "" && run != "" && b != ""
    requires forall i :: 0 <= i < |run| ==> !IsLabelChar(run[i])
    requires IsLabelChar(a[|a| - 1]) && IsLabelChar(b[0])
    ensures CollapseUnsafe(a + run + b, inRun) == CollapseUnsafe(a, inRun) + "_" + CollapseUnsafe(b, false)
    decreases |a|
  {
    var t := a + run + b;
    if |a| == 1 {
      assert t[1..] == run + b;
      assert a[1..] == "";
      RunCollapses(run, b, false);
    } else {
      var safe := IsLabelChar(a[0]);
      assert t[1..] == a[1..] + run + b;
      CollapseRun(a[1..], run, b, !safe);
      var head := if safe then [a[0]] else if inRun then "" else "_";
      var rest := CollapseUnsafe(a[1..], !safe);
      assert head + (rest + "_" + CollapseUnsafe(b, false)) == (head + rest) + "_" + CollapseUnsafe(b, false);
    }
  }

  lemma {:induction false} RunCollapses(run: string, b: string, inRun: bool)
    requires forall i :: 0 <= i < |run| ==> !IsLabelChar(run[i])
    requires b != "" && IsLabelChar(b[0])
    ensures CollapseUnsafe(run + b, inRun) ==
            (if inRun || run == "" then "" else "_") + CollapseUnsafe(b, false)
  {
    if run == "" {
      assert run + b == b;
    } else {
      assert (run + b)[1..] == run[1..] + b;
      RunCollapses(run[1..], b, true);
    }
  }

  /** A PER surface form, its canonical form and its display form get one marker. */
  lemma PersonFormsShareMarker(u: Alphabet, st: Vault, value: string, raw: string)
    requires Lawful(u) && ValidVault(u, st)
    ensures var (m, st') := Mark(u, st, value, raw);
            var safe := SafeLabel(u, raw);
            && Mark(u, st', CanonicalValue(u, safe, value), raw).0 == m
            && Mark(u, st', DisplayValue(u, safe, value), raw).0 == m
  {
    var safe := SafeLabel(u, raw);
    MarkKeepsNamespace(u, st, value, raw);
    IdentityFixed(u, safe, value);
    assert KeyOf(u, CanonicalValue(u, safe, value), raw) == KeyOf(u, value, raw);
    assert KeyOf(u, DisplayValue(u, safe, value), raw) == KeyOf(u, value, raw);
  }

  // ---- reloading a stored vault ----

  /** The loop of `load_state` over the stored mapping, in the order `order`. */
  function ReloadKeys(id: Identity, stored: map<string, string>, order: seq<string>): map<(string, string), string>
    requires forall m :: m in order ==> m in stored
  {
    if order == [] then map[]
    else
      var m := order[|order| - 1];
      ReloadKeys(id, stored, order[..|order| - 1])[id(LabelOf(m), stored[m]) := m]
  }

  /** `load_state` on the mapping and aliases written by the bridge: counters are not stored. */
  function Reload(id: Identity, stored: map<string, string>, aliases: map<string, set<string>>,
                  order: seq<string>): Vault
    requires forall m :: m in order ==> m in stored
  {
    Vault(stored,
          ReloadKeys(id, stored, order),
          map[],
          ReloadAliases(stored, aliases))
  }

  /** The stored alias sets, each marker's set joined by its display value. */
  function ReloadAliases(stored: map<string, string>, aliases: map<string, set<string>>): map<string, set<string>> {
    map m | m in stored.Keys + aliases.Keys ::
      (if m in aliases then aliases[m] else {}) + (if m in stored then {stored[m]} else {})
  }

  lemma StoredKey(id: Identity, st: Vault, m: string) returns (k: (string, string))
    requires Valid(id, st) && m in st.markerToValue
    ensures k in st.valueToMarker && st.valueToMarker[k] == m
    ensures id(LabelOf(m), st.markerToValue[m]) == k
    ensures st.markerToValue[m] in st.aliases[m]
  {
    assert HasKey(st, m);
    k :| k in st.valueToMarker && st.valueToMarker[k] == m;
    assert Numbered(st, k) && Faithful(id, st, k);
    var n :| 1 <= n <= st.counters[k.0] && m == MarkerText(k.0, n);
    LabelOfMarker(k.0, n);
  }

  /** The identity computed from a stored marker is its key. */
  ghost predicate KeyedBack(id: Identity, st: Vault, m: string)
    requires m in st.markerToValue
  {
    var k := id(LabelOf(m), st.markerToValue[m]);
    k in st.valueToMarker && st.valueToMarker[k] == m
  }

  lemma {:induction false} ReloadedKeys(id: Identity, st: Vault, order: seq<string>)
    requires Injective(st)
    requires forall m :: m in order ==> m in st.markerToValue && KeyedBack(id, st, m)
    ensures var r := ReloadKeys(id, st.markerToValue, order);
            && (forall k :: k in r ==> k in st.valueToMarker && st.valueToMarker[k] == r[k])
            && (forall k :: k in st.valueToMarker && st.valueToMarker[k] in order ==> k in r)
  {
    if order != [] {
      var front, m := order[..|order| - 1], order[|order| - 1];
      ReloadedKeys(id, st, front);
      assert KeyedBack(id, st, m);
      assert order == front + [m];
    }
  }

  /** A vault written by the bridge and loaded again is the same vault without its counters,
      whatever order the mapping is read in. */
  lemma ReloadRoundTrip(u: Alphabet, st: Vault, order: seq<string>)
    requires ValidVault(u, st)
    requires forall m :: m in order <==> m in st.markerToValue
    ensures Reload(IdentityOf(u), st.markerToValue, st.aliases, order) == st.(counters := map[])
  {
    ReloadEverything(IdentityOf(u), st, order);
  }

  lemma ReloadEverything(id: Identity, st: Vault, order: seq<string>)
    requires Valid(id, st)
    requires forall m :: m in order <==> m in st.markerToValue
    ensures Reload(id, st.markerToValue, st.aliases, order) == st.(counters := map[])
  {
    forall m | m in order ensures KeyedBack(id, st, m) {
      var k := StoredKey(id, st, m);
    }
    ReloadedKeys(id, st, order);
    ReloadsAllKeys(id, st, order, ReloadKeys(id, st.markerToValue, order));
    ReloadsAliases(id, st);
  }

  lemma ReloadsAllKeys(id: Identity, st: Vault, order: seq<string>, r: map<(string, string), string>)
    requires Valid(id, st)
    requires forall m :: m in order <==> m in st.markerToValue
    requires forall k :: k in r ==> k in st.valueToMarker && st.valueToMarker[k] == r[k]
    requires forall k :: k in st.valueToMarker && st.valueToMarker[k] in order ==> k in r
    ensures r == st.valueToMarker
  {
    forall k | k in st.valueToMarker ensures k in r {
      assert Faithful(id, st, k);
    }
  }

  lemma ReloadsAliases(id: Identity, st: Vault)
    requires Valid(id, st)
    ensures ReloadAliases(st.markerToValue, st.aliases) == st.aliases
  {
    forall m | m in st.markerToValue ensures st.markerToValue[m] in st.aliases[m] {
      var k := StoredKey(id, st, m);
    }
    AliasesAbsorb(st.markerToValue, st.aliases);
  }

  lemma AliasesAbsorb(stored: map<string, string>, aliases: map<string, set<string>>)
    requires stored.Keys == aliases.Keys
    requires forall m :: m in stored ==> stored[m] in aliases[m]
    ensures ReloadAliases(stored, aliases) == aliases
  {
    var r := ReloadAliases(stored, aliases);
    forall m | m in r ensures r[m] == aliases[m] {
    }
  }

  /** Reloading forgets the counters, so numbering restarts: a value the vault has not seen can
      be marked on a reloaded vault without sharing an issued marker exactly when its label had
      issued none. */
  lemma MarkingAfterReload(u: Alphabet, st: Vault, value: string, raw: string, order: seq<string>)
    requires ValidVault(u, st)
    requires forall m :: m in order <==> m in st.markerToValue
    requires KeyOf(u, value, raw) !in st.valueToMarker
    ensures Injective(Mark(u, Reload(IdentityOf(u), st.markerToValue, st.aliases, order), value, raw).1)
            <==> !Counted(st, SafeLabel(u, raw), 1)
  {
    ReloadRoundTrip(u, st, order);
    RecordWithoutCounters(IdentityOf(u), st, KeyOf(u, value, raw),
                          DisplayValue(u, SafeLabel(u, raw), value), FormsOf(u, value, raw));
  }

  lemma RecordWithoutCounters(id: Identity, st: Vault, key: (string, string), display: string, forms: set<string>)
    requires Valid(id, st) && key !in st.valueToMarker
    ensures Injective(Record(st.(counters := map[]), key, display, forms).1) <==> !Counted(st, key.0, 1)
  {
    var (m, st') := Record(st.(counters := map[]), key, display, forms);
    assert m == MarkerText(key.0, 1) && st'.valueToMarker == st.valueToMarker[key := m];
    if Counted(st, key.0, 1) {
      assert HasKey(st, m);
      var k :| k in st.valueToMarker && st.valueToMarker[k] == m;
      assert st'.valueToMarker[k] == st'.valueToMarker[key];
    } else {
      forall k | k in st.valueToMarker ensures st.valueToMarker[k] != m {
        assert Numbered(st, k);
        var n :| 1 <= n <= st.counters[k.0] && st.valueToMarker[k] == MarkerText(k.0, n);
        assert !(k.0 == key.0 && n == 1);
        if MarkerText(k.0, n) == m {
          MarkerTextInjective(k.0, n, key.0, 1);
        }
      }
    }
  }
}
