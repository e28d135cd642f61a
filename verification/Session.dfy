/** A whole run: requests assembled call after call on one vault, sent through the provider loop. */
module Session {
  import opened Common
  import opened Alphabet
  import opened Vaults
  import opened Weaving
  import opened Gateway
  import opened RoundTrip
  import opened Propagation
  import opened Context
  import Bridge
  import Pipeline
  import ProviderLoop

  /** What goes into the request of one call: the question and the hits with their detected
      spans, the aliases in the order the dictionaries give them, the other strings of the
      contexts, and the rendered payload. */
  datatype Call = Call(fields: seq<Field>, entries: seq<Alias>, others: seq<string>, rendered: string)

  /** The vault before call `n`; a run begins with an empty one. */
  function VaultAt(u: Alphabet, calls: nat -> Call, n: nat): Vault {
    if n == 0 then EMPTY
    else Assemble(u, VaultAt(u, calls, n - 1), calls(n - 1).fields, calls(n - 1).entries).1
  }

  /** What the bridge is given for call `n`. */
  function RequestAt(u: Alphabet, calls: nat -> Call, n: nat): Bridge.Request {
    var (texts, st) := Assemble(u, VaultAt(u, calls, n), calls(n).fields, calls(n).entries);
    Bridge.Request(texts + calls(n).others, calls(n).rendered, st.markerToValue, st.aliases)
  }

  /** What detection and the alias listing give at every call. */
  ghost predicate WellDetected(u: Alphabet, calls: nat -> Call) {
    forall n: nat ::
      && PrintableLabels(u, calls(n).fields) && (forall f :: f in calls(n).fields ==> RawMarkerRule(f))
      && Enumerates(calls(n).entries, VaultAt(u, calls, n + 1))
  }

  lemma NextVault(u: Alphabet, calls: nat -> Call, n: nat)
    ensures VaultAt(u, calls, n + 1) == Assemble(u, VaultAt(u, calls, n), calls(n).fields, calls(n).entries).1
    ensures VaultAt(u, calls, n + 1) == Marked(u, VaultAt(u, calls, n), calls(n).fields).1
    ensures RequestAt(u, calls, n).mapping == VaultAt(u, calls, n + 1).markerToValue
  {
    hide Marked, PropagateAll;
  }

  /** A call keeps the vault valid and its markers matchable, and changes nothing issued. */
  lemma CallKeeps(u: Alphabet, calls: nat -> Call, n: nat)
    requires Lawful(u) && WellDetected(u, calls)
    requires ValidVault(u, VaultAt(u, calls, n)) && AllMatched(VaultAt(u, calls, n))
    ensures ValidVault(u, VaultAt(u, calls, n + 1)) && AllMatched(VaultAt(u, calls, n + 1))
    ensures Extends(VaultAt(u, calls, n), VaultAt(u, calls, n + 1))
  {
    hide ValidVault, AllMatched, Extends, Assemble, Marked, VaultAt, RequestAt, Enumerates, RawMarkerRule, Lawful;
    NextVault(u, calls, n);
    IterationKeepsNamespace(u, VaultAt(u, calls, n), calls(n).fields, calls(n).entries);
  }

  /** The vault of every call is valid and its markers are matchable. */
  lemma {:induction false} VaultsValid(u: Alphabet, calls: nat -> Call, n: nat)
    requires Lawful(u) && WellDetected(u, calls)
    ensures ValidVault(u, VaultAt(u, calls, n)) && AllMatched(VaultAt(u, calls, n))
  {
    hide ValidVault, Assemble, Lawful, WellDetected;
    if n == 0 {
      EmptyValid(u);
    } else {
      VaultsValid(u, calls, n - 1);
      CallKeeps(u, calls, n - 1);
    }
  }

  /** Nothing issued before a call is changed by it or by any later one. */
  lemma {:induction false} VaultsExtend(u: Alphabet, calls: nat -> Call, m: nat, n: nat)
    requires Lawful(u) && WellDetected(u, calls) && m <= n
    ensures Extends(VaultAt(u, calls, m), VaultAt(u, calls, n))
    decreases n - m
  {
    hide ValidVault, AllMatched, VaultAt, Lawful, WellDetected;
    if m < n {
      VaultsExtend(u, calls, m, n - 1);
      VaultsValid(u, calls, n - 1);
      CallKeeps(u, calls, n - 1);
      ExtendsTransitive(VaultAt(u, calls, m), VaultAt(u, calls, n - 1), VaultAt(u, calls, n));
    }
  }

  /** Field `i` of call `n` under a mapping: what was marked restores to the raw question or hit
      with its accepted spans set to stored values, what was sent to that with the alias ranges
      set as well. */
  ghost predicate FieldRestores(u: Alphabet, calls: nat -> Call, n: nat, i: nat, later: Bridge.Mapping) {
    var st, fields := VaultAt(u, calls, n), calls(n).fields;
    && i < |fields| == |Marked(u, st, fields).0| && i < |RequestAt(u, calls, n).fields|
    && var marked := Marked(u, st, fields).0[i];
    var ps := Accepted(u, marked, calls(n).entries);
    && Ordered(ps, 0, |marked|)
    && PatchesSpans(fields[i].text, RequestPatches(u, st, fields, i), CompletedField(u, fields, i).spans)
    && Restore(marked, later, true) == Ok(Filled(fields[i].text, 0, RequestPatches(u, st, fields, i), later))
    && Restore(RequestAt(u, calls, n).fields[i], later, true)
       == Ok(RestoredAround(marked, 0, ps, Stored(ps, later), later))
  }

  lemma SentFields(u: Alphabet, calls: nat -> Call, n: nat, i: nat)
    requires i < |Assemble(u, VaultAt(u, calls, n), calls(n).fields, calls(n).entries).0|
    ensures i < |RequestAt(u, calls, n).fields|
    ensures RequestAt(u, calls, n).fields[i]
            == Assemble(u, VaultAt(u, calls, n), calls(n).fields, calls(n).entries).0[i]
  {
    hide Assemble;
  }

  lemma StoredLater(a: Vault, b: Vault)
    requires Extends(a, b)
    ensures StillStored(a, b.markerToValue)
  {
  }

  lemma EarlierFieldRestores(u: Alphabet, calls: nat -> Call, n: nat, i: nat, last: nat)
    requires Lawful(u) && WellDetected(u, calls) && i < |calls(n).fields| && n <= last
    requires ShortMarkers(RequestAt(u, calls, last).mapping)
    ensures FieldRestores(u, calls, n, i, RequestAt(u, calls, last).mapping)
  {
    hide ValidVault, AllMatched, Restore, Filled, RestoredAround, PatchesSpans, Accepted, RequestPatches, Marked;
    hide Assemble, VaultAt, RequestAt, Enumerates, RawMarkerRule, Lawful, Extends, StillStored, ShortMarkers;
    hide Ordered, CompletedField, Stored;
    var st, c := VaultAt(u, calls, n), calls(n);
    VaultsValid(u, calls, n);
    NextVault(u, calls, n);
    NextVault(u, calls, last);
    VaultsExtend(u, calls, n + 1, last + 1);
    StoredLater(VaultAt(u, calls, n + 1), VaultAt(u, calls, last + 1));
    RequestRestores(u, st, c.fields, c.entries, RequestAt(u, calls, last).mapping, i);
    SentFields(u, calls, n, i);
  }

  /** Every field of every request that a run sends restores under the mapping that is published
      when the run ends, whatever the provider does and however the run ends. */
  lemma EverySentFieldRestores(calls: nat -> Call, l: ProviderLoop.Loop, first: seq<Pipeline.Hit>, n: nat, i: nat)
    requires Lawful(l.cfg.u) && WellDetected(l.cfg.u, calls)
    requires forall k: nat :: l.requests(k) == RequestAt(l.cfg.u, calls, k)
    requires n < ProviderLoop.WholeRun(l, first).calls && i < |calls(n).fields|
    requires ShortMarkers(l.requests(ProviderLoop.WholeRun(l, first).calls - 1).mapping)
    ensures var published := Bridge.Published(l.cfg, ProviderLoop.WholeRun(l, first).trail);
            published.Some? && FieldRestores(l.cfg.u, calls, n, i, published.value.mapping)
  {
    hide FieldRestores, WellDetected, Bridge.Published, ProviderLoop.WholeRun, RequestAt;
    ProviderLoop.RunRestoresAnswer(l, first);
    EarlierFieldRestores(l.cfg.u, calls, n, i, ProviderLoop.WholeRun(l, first).calls - 1);
  }
}
