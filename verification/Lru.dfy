/** Recency lists with two limits at once: number of entries and total weight. */
module Lru {
  import opened Common

  datatype Entry<K, V> = Entry(key: K, value: V, weight: nat)

  /** `dropOversized`: an entry too large to store still displaces the old one of its key. */
  datatype Limits = Limits(maxEntries: nat, maxTotal: nat, maxEntry: nat, dropOversized: bool)

  predicate Sensible(lim: Limits) {
    lim.maxEntries >= 1 && lim.maxEntry <= lim.maxTotal
  }

  function Total<K, V>(es: seq<Entry<K, V>>): nat {
    if es == [] then 0 else es[0].weight + Total(es[1..])
  }

  /** The list without the entry of `key` (an `OrderedDict.pop`). */
  function Without<K(==), V>(es: seq<Entry<K, V>>, key: K): seq<Entry<K, V>> {
    if es == [] then []
    else if es[0].key == key then Without(es[1..], key)
    else [es[0]] + Without(es[1..], key)
  }

  function Find<K(==), V>(es: seq<Entry<K, V>>, key: K): Option<Entry<K, V>> {
    if es == [] then None else if es[0].key == key then Some(es[0]) else Find(es[1..], key)
  }

  predicate Room<K, V>(es: seq<Entry<K, V>>, lim: Limits, weight: nat) {
    |es| < lim.maxEntries && Total(es) + weight <= lim.maxTotal
  }

  /** The eviction loop: oldest entries go until one of the given weight fits. */
  function Evict<K, V>(es: seq<Entry<K, V>>, lim: Limits, weight: nat): seq<Entry<K, V>> {
    if es == [] || Room(es, lim, weight) then es else Evict(es[1..], lim, weight)
  }

  predicate Oversized<K, V>(e: Entry<K, V>, lim: Limits) {
    e.weight > lim.maxEntry
  }

  function Touched<K(==), V>(es: seq<Entry<K, V>>, key: K): seq<Entry<K, V>> {
    match Find(es, key)
    case None => es
    case Some(e) => Without(es, key) + [e]
  }

  function Stored<K(==), V>(es: seq<Entry<K, V>>, lim: Limits, e: Entry<K, V>): seq<Entry<K, V>> {
    if Oversized(e, lim) then (if lim.dropOversized then Without(es, e.key) else es)
    else Evict(Without(es, e.key), lim, e.weight) + [e]
  }

  // ---- histories ----

  datatype Op<K, V> = Load(key: K) | Store(entry: Entry<K, V>) | Clear

  /** The cache after a history, oldest use first. */
  function Cached<K(==), V>(lim: Limits, ops: seq<Op<K, V>>): seq<Entry<K, V>> {
    if ops == [] then []
    else
      var before := Cached(lim, ops[..|ops| - 1]);
      match ops[|ops| - 1]
      case Load(key) => Touched(before, key)
      case Store(e) => Stored(before, lim, e)
      case Clear => []
  }

  /** The same history on a list that never evicts: all entries, by last use. A load counts
      as a use only when the bounded cache answers it. */
  function Unbounded<K(==), V>(lim: Limits, ops: seq<Op<K, V>>): seq<Entry<K, V>> {
    if ops == [] then []
    else
      var front := ops[..|ops| - 1];
      var before := Unbounded(lim, front);
      match ops[|ops| - 1]
      case Load(key) => if Find(Cached(lim, front), key).Some? then Touched(before, key) else before
      case Store(e) =>
        if Oversized(e, lim) then (if lim.dropOversized then Without(before, e.key) else before)
        else Without(before, e.key) + [e]
      case Clear => []
  }

  /** The value of the last accepted store of `key` not cleared or displaced since. */
  function LatestStore<K(==), V>(lim: Limits, ops: seq<Op<K, V>>, key: K): Option<Entry<K, V>> {
    if ops == [] then None
    else
      var before := LatestStore(lim, ops[..|ops| - 1], key);
      match ops[|ops| - 1]
      case Load(_) => before
      case Store(e) =>
        if e.key != key then before
        else if !Oversized(e, lim) then Some(e)
        else if lim.dropOversized then None else before
      case Clear => None
  }

  ghost predicate Distinct<K, V>(es: seq<Entry<K, V>>) {
    forall i, j :: 0 <= i < j < |es| ==> es[i].key != es[j].key
  }

  predicate Within<K, V>(es: seq<Entry<K, V>>, lim: Limits) {
    |es| <= lim.maxEntries && Total(es) <= lim.maxTotal
  }

  // ---- list lemmas ----

  lemma {:induction false} TotalConcat<K, V>(a: seq<Entry<K, V>>, b: seq<Entry<K, V>>)
    ensures Total(a + b) == Total(a) + Total(b)
  {
    if a == [] {
      assert a + b == b;
    } else {
      assert (a + b)[1..] == a[1..] + b;
      TotalConcat(a[1..], b);
    }
  }

  lemma {:induction false} WithoutConcat<K, V>(a: seq<Entry<K, V>>, b: seq<Entry<K, V>>, key: K)
    ensures Without(a + b, key) == Without(a, key) + Without(b, key)
  {
    if a == [] {
      assert a + b == b;
    } else {
      assert (a + b)[1..] == a[1..] + b;
      WithoutConcat(a[1..], b, key);
      var ra, rb := Without(a[1..], key), Without(b, key);
      assert [a[0]] + (ra + rb) == [a[0]] + ra + rb;
    }
  }

  lemma {:induction false} WithoutKeys<K, V>(es: seq<Entry<K, V>>, key: K)
    ensures forall e :: e in Without(es, key) ==> e in es && e.key != key
    ensures forall e :: e in es && e.key != key ==> e in Without(es, key)
    ensures |Without(es, key)| <= |es| && Total(Without(es, key)) <= Total(es)
  {
    if es != [] {
      WithoutKeys(es[1..], key);
      assert es == [es[0]] + es[1..];
      TotalConcat([es[0]], Without(es[1..], key));
    }
  }

  lemma {:induction false} WithoutDistinct<K, V>(es: seq<Entry<K, V>>, key: K)
    requires Distinct(es)
    ensures Distinct(Without(es, key))
  {
    if es != [] {
      WithoutDistinct(es[1..], key);
      var rest := Without(es[1..], key);
      WithoutKeys(es[1..], key);
      forall j | 0 <= j < |rest| ensures rest[j].key != es[0].key {
        assert rest[j] in rest;
        assert rest[j] in es[1..];
        var i :| 0 <= i < |es[1..]| && es[1..][i] == rest[j];
        assert es[i + 1] == rest[j];
      }
    }
  }

  lemma DistinctSnoc<K, V>(es: seq<Entry<K, V>>, e: Entry<K, V>)
    requires Distinct(es) && forall x :: x in es ==> x.key != e.key
    ensures Distinct(es + [e])
  {
    forall i | 0 <= i < |es| ensures es[i].key != e.key {
      assert es[i] in es;
    }
  }

  /** Removing a key that is present takes away one entry and its weight. */
  lemma {:induction false} WithoutFound<K, V>(es: seq<Entry<K, V>>, key: K)
    requires Distinct(es) && Find(es, key).Some?
    ensures |Without(es, key)| + 1 == |es|
    ensures Total(Without(es, key)) + Find(es, key).value.weight == Total(es)
  {
    if es[0].key == key {
      forall x | x in es[1..] ensures x.key != key {
        var i :| 0 <= i < |es[1..]| && es[1..][i] == x;
        assert es[i + 1] == x;
      }
      WithoutAbsent(es[1..], key);
    } else {
      WithoutFound(es[1..], key);
      TotalConcat([es[0]], Without(es[1..], key));
    }
  }

  lemma {:induction false} WithoutAbsent<K, V>(es: seq<Entry<K, V>>, key: K)
    requires forall e :: e in es ==> e.key != key
    ensures Without(es, key) == es
  {
    if es != [] {
      assert es[0] in es;
      WithoutAbsent(es[1..], key);
    }
  }

  lemma {:induction false} FindIn<K, V>(es: seq<Entry<K, V>>, key: K)
    ensures Find(es, key).None? <==> forall e :: e in es ==> e.key != key
    ensures Find(es, key).Some? ==> Find(es, key).value in es && Find(es, key).value.key == key
    ensures Distinct(es) ==> forall e :: e in es && e.key == key ==> Find(es, key) == Some(e)
  {
    if es != [] {
      FindIn(es[1..], key);
      assert es == [es[0]] + es[1..];
    }
  }

  /** Eviction keeps the longest suffix that leaves room. */
  lemma {:induction false} EvictSuffix<K, V>(es: seq<Entry<K, V>>, lim: Limits, weight: nat)
    requires Sensible(lim) && weight <= lim.maxEntry
    ensures var kept := Evict(es, lim, weight);
            && |kept| <= |es| && kept == es[|es| - |kept|..] && Room(kept, lim, weight)
            && forall i :: 0 <= i <= |es| && Room(es[i..], lim, weight) ==> |es| - i <= |kept|
  {
    if es == [] || Room(es, lim, weight) {
    } else {
      EvictSuffix(es[1..], lim, weight);
      var kept := Evict(es[1..], lim, weight);
      assert es[1..][|es| - 1 - |kept|..] == es[|es| - |kept|..];
      assert es[0..] == es;
      forall i | 0 < i <= |es| && Room(es[i..], lim, weight) ensures |es| - i <= |kept| {
        assert es[i..] == es[1..][i - 1..];
      }
    }
  }

  // ---- what every history keeps ----

  lemma StoredWithin<K, V>(es: seq<Entry<K, V>>, lim: Limits, e: Entry<K, V>)
    requires Sensible(lim) && Within(es, lim) && Distinct(es)
    ensures Within(Stored(es, lim, e), lim) && Distinct(Stored(es, lim, e))
  {
    WithoutKeys(es, e.key);
    WithoutDistinct(es, e.key);
    if !Oversized(e, lim) {
      var rest := Without(es, e.key);
      var kept := Evict(rest, lim, e.weight);
      EvictSuffix(rest, lim, e.weight);
      TotalConcat(kept, [e]);
      forall x | x in kept ensures x.key != e.key {
        assert x in rest;
      }
      DistinctSnoc(kept, e);
    }
  }

  lemma TouchedWithin<K, V>(es: seq<Entry<K, V>>, lim: Limits, key: K)
    requires Within(es, lim) && Distinct(es)
    ensures Within(Touched(es, key), lim) && Distinct(Touched(es, key))
  {
    if Find(es, key).Some? {
      FindIn(es, key);
      WithoutFound(es, key);
      TotalConcat(Without(es, key), [Find(es, key).value]);
      TouchedDistinct(es, key);
    }
  }

  lemma TouchedDistinct<K, V>(es: seq<Entry<K, V>>, key: K)
    requires Distinct(es)
    ensures Distinct(Touched(es, key))
  {
    if Find(es, key).Some? {
      FindIn(es, key);
      WithoutKeys(es, key);
      WithoutDistinct(es, key);
      DistinctSnoc(Without(es, key), Find(es, key).value);
    }
  }

  /** Both limits hold after every history, and no key is held twice. */
  lemma {:induction false} LimitsHold<K, V>(lim: Limits, ops: seq<Op<K, V>>)
    requires Sensible(lim)
    ensures Within(Cached(lim, ops), lim) && Distinct(Cached(lim, ops))
  {
    if ops != [] {
      var before := Cached(lim, ops[..|ops| - 1]);
      LimitsHold(lim, ops[..|ops| - 1]);
      match ops[|ops| - 1]
      case Load(key) => TouchedWithin(before, lim, key);
      case Store(e) => StoredWithin(before, lim, e);
      case Clear =>
    }
  }

  ghost predicate IsSuffix<T>(a: seq<T>, b: seq<T>) {
    |a| <= |b| && a == b[|b| - |a|..]
  }

  lemma SuffixParts<T>(a: seq<T>, b: seq<T>) returns (front: seq<T>)
    requires IsSuffix(a, b)
    ensures b == front + a
  {
    front := b[..|b| - |a|];
  }

  lemma {:induction false} UnboundedDistinct<K, V>(lim: Limits, ops: seq<Op<K, V>>)
    ensures Distinct(Unbounded(lim, ops))
  {
    if ops != [] {
      var before := Unbounded(lim, ops[..|ops| - 1]);
      UnboundedDistinct(lim, ops[..|ops| - 1]);
      match ops[|ops| - 1]
      case Load(key) => TouchedDistinct(before, key);
      case Store(e) =>
        WithoutKeys(before, e.key);
        WithoutDistinct(before, e.key);
        DistinctSnoc(Without(before, e.key), e);
      case Clear =>
    }
  }

  /** The bounded cache is always the most recent part of the unbounded list: eviction never
      takes an entry out of order. */
  lemma {:induction false} CachedIsSuffix<K, V>(lim: Limits, ops: seq<Op<K, V>>)
    requires Sensible(lim)
    ensures IsSuffix(Cached(lim, ops), Unbounded(lim, ops))
  {
    if ops != [] {
      var prior := ops[..|ops| - 1];
      CachedIsSuffix(lim, prior);
      UnboundedDistinct(lim, prior);
      var es, all := Cached(lim, prior), Unbounded(lim, prior);
      match ops[|ops| - 1]
      case Load(key) => TouchSuffix(es, all, key);
      case Store(e) => StoreSuffix(lim, es, all, e);
      case Clear =>
    }
  }

  lemma WithoutSuffix<K, V>(es: seq<Entry<K, V>>, all: seq<Entry<K, V>>, key: K)
    requires IsSuffix(es, all)
    ensures IsSuffix(Without(es, key), Without(all, key))
  {
    var front := SuffixParts(es, all);
    WithoutConcat(front, es, key);
  }

  lemma SnocSuffix<T>(a: seq<T>, b: seq<T>, x: T)
    requires IsSuffix(a, b)
    ensures IsSuffix(a + [x], b + [x])
  {
  }

  lemma SuffixTransitive<T>(a: seq<T>, b: seq<T>, c: seq<T>)
    requires IsSuffix(a, b) && IsSuffix(b, c)
    ensures IsSuffix(a, c)
  {
  }

  lemma TouchSuffix<K, V>(es: seq<Entry<K, V>>, all: seq<Entry<K, V>>, key: K)
    requires IsSuffix(es, all) && Distinct(all)
    ensures Find(es, key).Some? ==> IsSuffix(Touched(es, key), Touched(all, key))
  {
    if Find(es, key).Some? {
      FindIn(es, key);
      FindIn(all, key);
      var e := Find(es, key).value;
      assert e in all;
      WithoutSuffix(es, all, key);
      SnocSuffix(Without(es, key), Without(all, key), e);
    }
  }

  lemma StoreSuffix<K, V>(lim: Limits, es: seq<Entry<K, V>>, all: seq<Entry<K, V>>, e: Entry<K, V>)
    requires Sensible(lim) && IsSuffix(es, all)
    ensures Oversized(e, lim) && !lim.dropOversized ==> IsSuffix(Stored(es, lim, e), all)
    ensures Oversized(e, lim) && lim.dropOversized ==> IsSuffix(Stored(es, lim, e), Without(all, e.key))
    ensures !Oversized(e, lim) ==> IsSuffix(Stored(es, lim, e), Without(all, e.key) + [e])
  {
    WithoutSuffix(es, all, e.key);
    if !Oversized(e, lim) {
      var rest := Without(es, e.key);
      EvictSuffix(rest, lim, e.weight);
      SuffixTransitive(Evict(rest, lim, e.weight), rest, Without(all, e.key));
      SnocSuffix(Evict(rest, lim, e.weight), Without(all, e.key), e);
    }
  }

  lemma FindOther<K, V>(es: seq<Entry<K, V>>, k: K, key: K)
    requires Distinct(es)
    ensures Find(Without(es, k), key) == if key == k then None else Find(es, key)
  {
    FindIn(es, key);
    FindIn(Without(es, k), key);
    WithoutKeys(es, k);
    WithoutDistinct(es, k);
  }

  lemma {:induction false} FindSnoc<K, V>(es: seq<Entry<K, V>>, e: Entry<K, V>, key: K)
    ensures Find(es + [e], key) == if Find(es, key).Some? then Find(es, key) else if e.key == key then Some(e) else None
  {
    if es != [] {
      assert (es + [e])[1..] == es[1..] + [e];
      FindSnoc(es[1..], e, key);
    }
  }

  lemma FindTouched<K, V>(es: seq<Entry<K, V>>, k: K, key: K)
    requires Distinct(es)
    ensures Find(Touched(es, k), key) == Find(es, key)
  {
    if Find(es, k).Some? {
      FindIn(es, k);
      FindOther(es, k, key);
      FindSnoc(Without(es, k), Find(es, k).value, key);
    }
  }

  /** The unbounded list holds the latest accepted store of every key. */
  lemma {:induction false} UnboundedIsLatest<K, V>(lim: Limits, ops: seq<Op<K, V>>, key: K)
    ensures Find(Unbounded(lim, ops), key) == LatestStore(lim, ops, key)
  {
    if ops != [] {
      var prior := ops[..|ops| - 1];
      var before := Unbounded(lim, prior);
      UnboundedIsLatest(lim, prior, key);
      UnboundedDistinct(lim, prior);
      match ops[|ops| - 1]
      case Load(k) => FindTouched(before, k, key);
      case Store(e) =>
        FindOther(before, e.key, key);
        FindSnoc(Without(before, e.key), e, key);
      case Clear =>
    }
  }

  /** A hit returns the latest accepted store of its key. */
  lemma HitIsLatestStore<K, V>(lim: Limits, ops: seq<Op<K, V>>, key: K)
    requires Sensible(lim) && Find(Cached(lim, ops), key).Some?
    ensures LatestStore(lim, ops, key) == Find(Cached(lim, ops), key)
  {
    CachedIsSuffix(lim, ops);
    UnboundedDistinct(lim, ops);
    UnboundedIsLatest(lim, ops, key);
    FindIn(Cached(lim, ops), key);
    FindIn(Unbounded(lim, ops), key);
  }

  // ---- recency, told by the history alone ----

  /** Operation `i` uses the key: an accepted store of it, or a load of it that is answered. */
  predicate Uses<K(==), V(==)>(lim: Limits, ops: seq<Op<K, V>>, i: nat, key: K)
    requires i < |ops|
  {
    match ops[i]
    case Load(k) => k == key && Find(Cached(lim, ops[..i]), key).Some?
    case Store(e) => e.key == key && !Oversized(e, lim)
    case Clear => false
  }

  /** Operation `i` is the last one that uses the key. */
  ghost predicate LastUse<K, V>(lim: Limits, ops: seq<Op<K, V>>, i: nat, key: K) {
    i < |ops| && Uses(lim, ops, i, key) && forall j :: i < j < |ops| ==> !Uses(lim, ops, j, key)
  }

  lemma UsesPrefix<K, V>(lim: Limits, ops: seq<Op<K, V>>, i: nat, key: K)
    requires i < |ops| - 1
    ensures Uses(lim, ops, i, key) <==> Uses(lim, ops[..|ops| - 1], i, key)
  {
    assert ops[..|ops| - 1][..i] == ops[..i];
  }

  /** The last use of a key before the last operation is its last use after it, unless that
      operation uses the key as well. */
  lemma LastUseStays<K, V>(lim: Limits, ops: seq<Op<K, V>>, i: nat, key: K)
    requires ops != [] && LastUse(lim, ops[..|ops| - 1], i, key) && !Uses(lim, ops, |ops| - 1, key)
    ensures LastUse(lim, ops, i, key)
  {
    hide Uses;
    forall j | 0 <= j < |ops| - 1 ensures Uses(lim, ops, j, key) <==> Uses(lim, ops[..|ops| - 1], j, key) {
      UsesPrefix(lim, ops, j, key);
    }
  }

  /** The entries in order, each with an index of its last use, and the indexes increase. */
  ghost predicate ByLastUse<K, V>(lim: Limits, ops: seq<Op<K, V>>, es: seq<Entry<K, V>>, at: seq<nat>) {
    && |at| == |es|
    && (forall p :: 0 <= p < |es| ==> LastUse(lim, ops, at[p], es[p].key))
    && (forall p, q :: 0 <= p < q < |es| ==> at[p] < at[q])
  }

  /** Which entries survive an operation: some positions, in order, none used by it. */
  ghost predicate Survivors<K, V>(es: seq<Entry<K, V>>, kept: seq<Entry<K, V>>, where: seq<nat>) {
    && |where| == |kept|
    && (forall p :: 0 <= p < |kept| ==> where[p] < |es| && es[where[p]] == kept[p])
    && (forall p, q :: 0 <= p < q < |kept| ==> where[p] < where[q])
  }

  function Shifted(where: seq<nat>): (r: seq<nat>)
    ensures |r| == |where| && forall p :: 0 <= p < |r| ==> r[p] == where[p] + 1
  {
    seq(|where|, p requires 0 <= p < |where| => where[p] + 1)
  }

  lemma ShiftedSurvives<K, V>(es: seq<Entry<K, V>>, kept: seq<Entry<K, V>>, where: seq<nat>)
    requires es != [] && Survivors(es[1..], kept, where)
    ensures Survivors(es, kept, Shifted(where))
    ensures Survivors(es, [es[0]] + kept, [0] + Shifted(where))
  {
    ShiftedPlaces(es, kept, where);
    FirstSurvives(es, kept, Shifted(where));
  }

  lemma ShiftedPlaces<K, V>(es: seq<Entry<K, V>>, kept: seq<Entry<K, V>>, where: seq<nat>)
    requires es != [] && Survivors(es[1..], kept, where)
    ensures Survivors(es, kept, Shifted(where)) && forall p :: 0 <= p < |where| ==> Shifted(where)[p] > 0
  {
    forall p | 0 <= p < |kept| ensures Shifted(where)[p] < |es| && es[Shifted(where)[p]] == kept[p] {
      assert es[1..][where[p]] == kept[p];
    }
  }

  lemma FirstSurvives<K, V>(es: seq<Entry<K, V>>, kept: seq<Entry<K, V>>, where: seq<nat>)
    requires es != [] && Survivors(es, kept, where) && forall p :: 0 <= p < |where| ==> where[p] > 0
    ensures Survivors(es, [es[0]] + kept, [0] + where)
  {
  }

  lemma {:induction false} WithoutSurvives<K, V>(es: seq<Entry<K, V>>, key: K) returns (where: seq<nat>)
    ensures Survivors(es, Without(es, key), where)
  {
    if es == [] {
      where := [];
    } else {
      hide Survivors;
      var rest := WithoutSurvives(es[1..], key);
      ShiftedSurvives(es, Without(es[1..], key), rest);
      where := if es[0].key == key then Shifted(rest) else [0] + Shifted(rest);
    }
  }

  lemma SuffixSurvives<K, V>(es: seq<Entry<K, V>>, kept: seq<Entry<K, V>>) returns (where: seq<nat>)
    requires IsSuffix(kept, es)
    ensures Survivors(es, kept, where)
  {
    where := seq(|kept|, p requires 0 <= p < |kept| => |es| - |kept| + p);
  }

  /** What survives an operation that does not use it stays ordered by last use. */
  lemma SurvivorsOrdered<K, V>(lim: Limits, ops: seq<Op<K, V>>, es: seq<Entry<K, V>>, at: seq<nat>,
                               kept: seq<Entry<K, V>>, where: seq<nat>) returns (at': seq<nat>)
    requires ops != [] && ByLastUse(lim, ops[..|ops| - 1], es, at) && Survivors(es, kept, where)
    requires forall e :: e in kept ==> !Uses(lim, ops, |ops| - 1, e.key)
    ensures ByLastUse(lim, ops, kept, at') && forall p :: 0 <= p < |at'| ==> at'[p] < |ops| - 1
  {
    hide LastUse, Uses;
    at' := seq(|kept|, p requires 0 <= p < |kept| => at[where[p]]);
    forall p | 0 <= p < |kept| ensures LastUse(lim, ops, at'[p], kept[p].key) && at'[p] < |ops| - 1 {
      assert kept[p] in kept;
      LastUseStays(lim, ops, at[where[p]], kept[p].key);
      LastUseBound(lim, ops[..|ops| - 1], at[where[p]], kept[p].key);
    }
  }

  lemma LastUseBound<K, V>(lim: Limits, ops: seq<Op<K, V>>, i: nat, key: K)
    requires LastUse(lim, ops, i, key)
    ensures i < |ops|
  {
  }

  lemma SnocOrdered<K, V>(lim: Limits, ops: seq<Op<K, V>>, es: seq<Entry<K, V>>, at: seq<nat>, e: Entry<K, V>)
    requires ops != [] && ByLastUse(lim, ops, es, at) && forall p :: 0 <= p < |at| ==> at[p] < |ops| - 1
    requires Uses(lim, ops, |ops| - 1, e.key)
    ensures ByLastUse(lim, ops, es + [e], at + [|ops| - 1])
  {
  }

  lemma SurvivorsCompose<K, V>(a: seq<Entry<K, V>>, b: seq<Entry<K, V>>, c: seq<Entry<K, V>>,
                               ab: seq<nat>, bc: seq<nat>)
    returns (ac: seq<nat>)
    requires Survivors(a, b, ab) && Survivors(b, c, bc)
    ensures Survivors(a, c, ac)
  {
    ac := seq(|c|, p requires 0 <= p < |c| => ab[bc[p]]);
  }

  /** The entries an accepted store keeps. */
  lemma StoreSurvives<K, V>(es: seq<Entry<K, V>>, lim: Limits, e: Entry<K, V>) returns (where: seq<nat>)
    requires Sensible(lim) && !Oversized(e, lim)
    ensures Survivors(es, Evict(Without(es, e.key), lim, e.weight), where)
    ensures forall x :: x in Evict(Without(es, e.key), lim, e.weight) ==> x.key != e.key
  {
    hide Survivors;
    var rest := Without(es, e.key);
    EvictSuffix(rest, lim, e.weight);
    WithoutKeys(es, e.key);
    var ab := WithoutSurvives(es, e.key);
    var bc := SuffixSurvives(rest, Evict(rest, lim, e.weight));
    where := SurvivorsCompose(es, rest, Evict(rest, lim, e.weight), ab, bc);
  }

  /** The cache is ordered by last use: every entry was stored or answered, and the entry behind
      another one was used later. */
  lemma {:induction false} OrderedByLastUse<K, V>(lim: Limits, ops: seq<Op<K, V>>) returns (at: seq<nat>)
    requires Sensible(lim)
    ensures ByLastUse(lim, ops, Cached(lim, ops), at)
  {
    hide ByLastUse, Survivors, Without, Evict, Find;
    if ops == [] {
      at := NothingOrdered(lim, ops);
    } else {
      var prior, last := ops[..|ops| - 1], ops[|ops| - 1];
      var es := Cached(lim, prior);
      var before := OrderedByLastUse(lim, prior);
      match last
      case Load(key) =>
        FindIn(es, key);
        if Find(es, key).Some? {
          WithoutKeys(es, key);
          var where := WithoutSurvives(es, key);
          at := SurvivorsOrdered(lim, ops, es, before, Without(es, key), where);
          SnocOrdered(lim, ops, Without(es, key), at, Find(es, key).value);
          at := at + [|prior|];
        } else {
          var where := SuffixSurvives(es, es);
          at := SurvivorsOrdered(lim, ops, es, before, es, where);
        }
      case Store(e) =>
        if !Oversized(e, lim) {
          var kept := Evict(Without(es, e.key), lim, e.weight);
          var where := StoreSurvives(es, lim, e);
          at := SurvivorsOrdered(lim, ops, es, before, kept, where);
          SnocOrdered(lim, ops, kept, at, e);
          at := at + [|prior|];
        } else if lim.dropOversized {
          WithoutKeys(es, e.key);
          var where := WithoutSurvives(es, e.key);
          at := SurvivorsOrdered(lim, ops, es, before, Without(es, e.key), where);
        } else {
          var where := SuffixSurvives(es, es);
          at := SurvivorsOrdered(lim, ops, es, before, es, where);
        }
      case Clear => at := NothingOrdered(lim, ops);
    }
  }

  lemma NothingOrdered<K, V>(lim: Limits, ops: seq<Op<K, V>>) returns (at: seq<nat>)
    ensures ByLastUse(lim, ops, [], at)
  {
    at := [];
  }

  /** An answered load moves its entry to the end, leaves the others in their order, and changes
      nothing else. */
  lemma AnsweredMovesToEnd<K, V>(lim: Limits, ops: seq<Op<K, V>>, key: K)
    returns (front: seq<Entry<K, V>>, e: Entry<K, V>, rest: seq<Entry<K, V>>)
    requires Sensible(lim) && Find(Cached(lim, ops), key).Some?
    ensures e.key == key && Cached(lim, ops) == front + [e] + rest
    ensures Cached(lim, ops + [Load(key)]) == front + rest + [e]
  {
    var es := Cached(lim, ops);
    LimitsHold(lim, ops);
    assert (ops + [Load(key)])[..|ops|] == ops;
    front, e, rest := SplitAt(es, key);
    WithoutConcat(front + [e], rest, key);
    WithoutConcat(front, [e], key);
    WithoutAbsent(front, key);
    WithoutAbsent(rest, key);
  }

  /** A load that is not answered changes nothing. */
  lemma MissChangesNothing<K, V>(lim: Limits, ops: seq<Op<K, V>>, key: K)
    requires Find(Cached(lim, ops), key).None?
    ensures Cached(lim, ops + [Load(key)]) == Cached(lim, ops)
  {
    assert (ops + [Load(key)])[..|ops|] == ops;
  }

  /** What was just answered stays when another key is stored, exactly when the two fit together. */
  lemma AnsweredStaysIff<K, V>(lim: Limits, ops: seq<Op<K, V>>, key: K, other: Entry<K, V>)
    requires Sensible(lim) && Find(Cached(lim, ops), key).Some? && other.key != key && !Oversized(other, lim)
    ensures Find(Cached(lim, ops + [Load(key)] + [Store(other)]), key).Some? <==>
            && lim.maxEntries >= 2
            && Find(Cached(lim, ops), key).value.weight + other.weight <= lim.maxTotal
  {
    var front, e, rest := AnsweredMovesToEnd(lim, ops, key);
    var loaded := ops + [Load(key)];
    LimitsHold(lim, ops);
    LimitsHold(lim, loaded);
    assert (loaded + [Store(other)])[..|loaded|] == loaded;
    FindIn(Cached(lim, ops), key);
    assert e in Cached(lim, ops);
    forall x: Entry<K, V> | x in front + rest ensures x.key != key {
      OtherKeys(front, e, rest, x);
    }
    LastStays(lim, front + rest, e, other);
  }

  lemma LastStays<K, V>(lim: Limits, front: seq<Entry<K, V>>, e: Entry<K, V>, other: Entry<K, V>)
    requires Sensible(lim) && Distinct(front + [e]) && other.key != e.key && !Oversized(other, lim)
    requires forall x :: x in front ==> x.key != e.key
    ensures Find(Stored(front + [e], lim, other), e.key).Some? <==>
            lim.maxEntries >= 2 && e.weight + other.weight <= lim.maxTotal
  {
    hide Stored, Find, Since, Without;
    var es := front + [e];
    FindIn(es, e.key);
    assert e in es;
    StoreKeepsIff(es, lim, other, e.key);
    WithoutConcat(front, [e], other.key);
    WithoutAbsent([e], other.key);
    WithoutKeys(front, other.key);
    SinceIs(Without(front, other.key), e, []);
    assert Without(front, other.key) + [e] + [] == Without(es, other.key);
    assert [e] + [] == [e];
    assert Total([e]) == e.weight;
  }

  lemma OtherKeys<K, V>(front: seq<Entry<K, V>>, e: Entry<K, V>, rest: seq<Entry<K, V>>, x: Entry<K, V>)
    requires Distinct(front + [e] + rest) && x in front + rest
    ensures x.key != e.key
  {
    var all := front + [e] + rest;
    if x in front {
      var i :| 0 <= i < |front| && front[i] == x;
      assert all[i] == x && all[|front|] == e;
    } else {
      var i :| 0 <= i < |rest| && rest[i] == x;
      assert all[|front| + 1 + i] == x && all[|front|] == e;
    }
  }

  // ---- survival ----

  /** The entry of `key` and everything used after it. */
  function Since<K(==), V>(es: seq<Entry<K, V>>, key: K): seq<Entry<K, V>> {
    if es == [] then [] else if es[0].key == key then es else Since(es[1..], key)
  }

  /** From the store of `key` on, it and the distinct entries used since its last use fitted
      both limits after every operation, and it was neither cleared nor displaced. */
  ghost predicate AlwaysFitted<K, V>(lim: Limits, ops: seq<Op<K, V>>, key: K) {
    ops != [] &&
    var last, front := ops[|ops| - 1], ops[..|ops| - 1];
    (last.Store? && last.entry.key == key && !Oversized(last.entry, lim))
    || (AlwaysFitted(lim, front, key)
        && Find(Unbounded(lim, ops), key).Some?
        && Within(Since(Unbounded(lim, ops), key), lim))
  }

  lemma {:induction false} SinceIs<K, V>(front: seq<Entry<K, V>>, e: Entry<K, V>, rest: seq<Entry<K, V>>)
    requires forall x :: x in front ==> x.key != e.key
    ensures Since(front + [e] + rest, e.key) == [e] + rest
  {
    var all := front + [e] + rest;
    if front != [] {
      assert all[1..] == front[1..] + [e] + rest;
      assert front[0] in front;
      SinceIs(front[1..], e, rest);
    } else {
      assert all == [e] + rest;
    }
  }

  lemma SplitAt<K, V>(es: seq<Entry<K, V>>, key: K)
    returns (front: seq<Entry<K, V>>, e: Entry<K, V>, rest: seq<Entry<K, V>>)
    requires Distinct(es) && Find(es, key).Some?
    ensures es == front + [e] + rest && e.key == key && Find(es, key) == Some(e)
    ensures forall x :: x in front || x in rest ==> x.key != key
    ensures Since(es, key) == [e] + rest
  {
    FindIn(es, key);
    var k :| 0 <= k < |es| && es[k].key == key;
    front, e, rest := es[..k], es[k], es[k + 1..];
    SinceIs(front, e, rest);
  }

  /** A suffix that begins at or before an entry holds everything since that entry. */
  lemma SuffixHolds<K, V>(a: seq<Entry<K, V>>, front: seq<Entry<K, V>>, e: Entry<K, V>, rest: seq<Entry<K, V>>)
    requires |front + [e] + rest| - |a| <= |front| && IsSuffix(a, front + [e] + rest)
    requires forall x :: x in front ==> x.key != e.key
    ensures Find(a, e.key).Some? && Since(a, e.key) == [e] + rest
  {
    hide Find, Since;
    var cut := |front + [e] + rest| - |a|;
    assert a == front[cut..] + [e] + rest;
    assert a[|front| - cut] == e;
    SinceIs(front[cut..], e, rest);
    FindIn(a, e.key);
  }

  /** A suffix that begins after an entry does not hold its key. */
  lemma SuffixLacks<K, V>(a: seq<Entry<K, V>>, front: seq<Entry<K, V>>, e: Entry<K, V>, rest: seq<Entry<K, V>>)
    requires |front + [e] + rest| - |a| > |front| && IsSuffix(a, front + [e] + rest)
    requires forall x :: x in rest ==> x.key != e.key
    ensures Find(a, e.key).None?
  {
    hide Find;
    FindIn(a, e.key);
    var cut := |front + [e] + rest| - |a|;
    assert a == rest[cut - |front| - 1..];
  }

  /** A suffix of a list contains a key exactly when it contains everything since that key. */
  lemma SuffixHasIff<K, V>(a: seq<Entry<K, V>>, b: seq<Entry<K, V>>, key: K)
    requires IsSuffix(a, b) && Distinct(b) && Find(b, key).Some?
    ensures Find(a, key).Some? <==> |Since(b, key)| <= |a|
    ensures Find(a, key).Some? ==> Since(a, key) == Since(b, key)
  {
    hide Find, Since, IsSuffix;
    var front, e, rest := SplitAt(b, key);
    if |b| - |a| <= |front| {
      SuffixHolds(a, front, e, rest);
    } else {
      SuffixLacks(a, front, e, rest);
    }
  }

  /** One accepted store keeps another cached entry exactly when it, what was used after it
      and the new entry fit both limits. */
  lemma StoreKeepsIff<K, V>(es: seq<Entry<K, V>>, lim: Limits, e: Entry<K, V>, key: K)
    requires Sensible(lim) && Distinct(es) && !Oversized(e, lim) && key != e.key
    requires Find(es, key).Some?
    ensures Find(Stored(es, lim, e), key).Some? <==> Room(Since(Without(es, e.key), key), lim, e.weight)
  {
    FindOther(es, e.key, key);
    WithoutDistinct(es, e.key);
    var rest := Without(es, e.key);
    FindSnoc(Evict(rest, lim, e.weight), e, key);
    EvictKeepsIff(rest, lim, e.weight, key);
  }

  lemma EvictKeepsIff<K, V>(rest: seq<Entry<K, V>>, lim: Limits, weight: nat, key: K)
    requires Sensible(lim) && weight <= lim.maxEntry && Distinct(rest) && Find(rest, key).Some?
    ensures Find(Evict(rest, lim, weight), key).Some? <==> Room(Since(rest, key), lim, weight)
  {
    hide Find, Since, Evict;
    var kept := Evict(rest, lim, weight);
    var part := Since(rest, key);
    EvictSuffix(rest, lim, weight);
    SuffixHasIff(kept, rest, key);
    var front, x, after := SplitAt(rest, key);
    assert rest[|front|..] == part;
    if |part| <= |kept| {
      assert kept[|kept| - |part|..] == part;
      var older := SuffixParts(part, kept);
      TotalConcat(older, part);
    }
  }

  lemma {:induction false} SinceSnoc<K, V>(es: seq<Entry<K, V>>, e: Entry<K, V>, key: K)
    requires Find(es, key).Some?
    ensures Since(es + [e], key) == Since(es, key) + [e]
  {
    assert (es + [e])[1..] == es[1..] + [e];
    if es[0].key != key {
      SinceSnoc(es[1..], e, key);
    }
  }

  predicate StoresKey<K(==), V>(last: Op<K, V>, lim: Limits, key: K) {
    last.Store? && last.entry.key == key && !Oversized(last.entry, lim)
  }

  /** An operation other than an accepted store of the key itself leaves the key cached exactly
      when it was cached and still fits. */
  lemma StillCachedIff<K, V>(lim: Limits, ops: seq<Op<K, V>>, key: K)
    requires Sensible(lim) && ops != [] && !StoresKey(ops[|ops| - 1], lim, key)
    ensures Find(Cached(lim, ops), key).Some? <==>
            (&& Find(Cached(lim, ops[..|ops| - 1]), key).Some?
             && Find(Unbounded(lim, ops), key).Some?
             && Within(Since(Unbounded(lim, ops), key), lim))
  {
    var prior, last := ops[..|ops| - 1], ops[|ops| - 1];
    LimitsHold(lim, prior);
    CachedFits(lim, ops, key);
    var es, all := Cached(lim, prior), Unbounded(lim, prior);
    match last
    case Load(k) => FindTouched(es, k, key);
    case Clear =>
    case Store(e) =>
      UnboundedDistinct(lim, prior);
      FindOther(es, e.key, key);
      FindOther(all, e.key, key);
      FindSnoc(Without(all, e.key), e, key);
      FindSnoc(Evict(Without(es, e.key), lim, e.weight), e, key);
      if !Oversized(e, lim) {
        CachedIsSuffix(lim, prior);
        EvictedKeys(Without(es, e.key), lim, e.weight, key);
        if Find(es, key).Some? {
          StoreFitsIff(es, all, lim, e, key);
        }
      }
  }

  /** What is cached is in the unbounded list, and fits from there on. */
  lemma CachedFits<K, V>(lim: Limits, ops: seq<Op<K, V>>, key: K)
    requires Sensible(lim)
    ensures Find(Cached(lim, ops), key).Some? ==>
              Find(Unbounded(lim, ops), key).Some? && Within(Since(Unbounded(lim, ops), key), lim)
  {
    hide Unbounded, Cached;
    var es, all := Cached(lim, ops), Unbounded(lim, ops);
    LimitsHold(lim, ops);
    CachedIsSuffix(lim, ops);
    UnboundedDistinct(lim, ops);
    if Find(es, key).Some? {
      FindIn(es, key);
      FindIn(all, key);
      assert Find(es, key).value in all;
      SuffixHasIff(es, all, key);
      var front, e, rest := SplitAt(es, key);
      assert es == front + Since(es, key);
      TotalConcat(front, Since(es, key));
    }
  }

  lemma EvictedKeys<K, V>(es: seq<Entry<K, V>>, lim: Limits, weight: nat, key: K)
    requires Sensible(lim) && weight <= lim.maxEntry
    ensures Find(Evict(es, lim, weight), key).Some? ==> Find(es, key).Some?
  {
    EvictSuffix(es, lim, weight);
    FindIn(es, key);
    FindIn(Evict(es, lim, weight), key);
  }

  lemma StoreFitsIff<K, V>(es: seq<Entry<K, V>>, all: seq<Entry<K, V>>, lim: Limits, e: Entry<K, V>, key: K)
    requires Sensible(lim) && IsSuffix(es, all) && Distinct(all) && Distinct(es)
    requires !Oversized(e, lim) && key != e.key && Find(es, key).Some?
    ensures Find(Stored(es, lim, e), key).Some? <==> Within(Since(Without(all, e.key) + [e], key), lim)
  {
    StoreKeepsIff(es, lim, e, key);
    WithoutSuffix(es, all, e.key);
    WithoutDistinct(all, e.key);
    FindOther(es, e.key, key);
    var part, whole := Without(es, e.key), Without(all, e.key);
    FindIn(part, key);
    FindIn(whole, key);
    assert Find(part, key).value in whole;
    SuffixHasIff(part, whole, key);
    SinceSnoc(whole, e, key);
    TotalConcat(Since(whole, key), [e]);
  }

  /** An entry is cached exactly when it has always fitted since it was stored. */
  lemma {:induction false} CachedIffAlwaysFitted<K, V>(lim: Limits, ops: seq<Op<K, V>>, key: K)
    requires Sensible(lim)
    ensures Find(Cached(lim, ops), key).Some? <==> AlwaysFitted(lim, ops, key)
  {
    if ops != [] {
      var last, prior := ops[|ops| - 1], ops[..|ops| - 1];
      if StoresKey(last, lim, key) {
        FindSnoc(Evict(Without(Cached(lim, prior), key), lim, last.entry.weight), last.entry, key);
      } else {
        CachedIffAlwaysFitted(lim, prior, key);
        StillCachedIff(lim, ops, key);
      }
    }
  }
}
