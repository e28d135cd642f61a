/** The two in-memory caches: extracted texts by revision, and detected spans by passage. */
module Caches {
  import opened Common
  import opened Lru

  datatype Document = Document(text: string, pageCount: nat, truncated: bool)

  datatype StoreOutcome = Refused | Skipped | Kept

  /** Extracted texts, bounded by entry count and by characters. */
  class ExtractedTextCache<K(==)> {
    const maxEntries: nat
    const maxTotalChars: nat
    const maxEntryChars: nat
    /** An `OrderedDict`: the least recently used entry first. */
    var entries: seq<Entry<K, Document>>
    var totalChars: int

    ghost predicate Valid()
      reads this
    {
      && Sensible(Bounds()) && Within(entries, Bounds()) && Distinct(entries)
      && totalChars == Total(entries)
      && forall e <- entries :: e.weight == |e.value.text|
    }

    function Bounds(): Limits {
      Limits(maxEntries, maxTotalChars, maxEntryChars, true)
    }

    constructor (maxEntries: nat, maxTotalChars: nat, maxEntryChars: nat)
      requires maxEntries >= 1 && 1 <= maxEntryChars <= maxTotalChars
      ensures Valid() && entries == []
      ensures Bounds() == Limits(maxEntries, maxTotalChars, maxEntryChars, true)
    {
      this.maxEntries := maxEntries;
      this.maxTotalChars := maxTotalChars;
      this.maxEntryChars := maxEntryChars;
      entries := [];
      totalChars := 0;
    }

    /** Construction from configured limits, refusing the ones the class rejects. */
    static method Create(maxEntries: int, maxTotalChars: int, maxEntryChars: int)
      returns (cache: ExtractedTextCache?<K>)
      ensures cache != null <==> maxEntries >= 1 && 1 <= maxEntryChars <= maxTotalChars
      ensures cache != null ==>
                && fresh(cache) && cache.Valid() && cache.entries == []
                && cache.Bounds() == Limits(maxEntries, maxTotalChars, maxEntryChars, true)
    {
      if maxEntries < 1 || maxTotalChars < 1 || maxEntryChars < 1 || maxEntryChars > maxTotalChars {
        return null;
      }
      cache := new ExtractedTextCache(maxEntries, maxTotalChars, maxEntryChars);
    }

    method Load(key: K) returns (found: Option<Document>)
      requires Valid()
      modifies this`entries
      ensures Valid() && entries == Touched(old(entries), key)
      ensures found.None? <==> Find(old(entries), key).None?
      ensures found.Some? ==> Find(old(entries), key) == Some(Entry(key, found.value, |found.value.text|))
      ensures found.Some? ==> entries != [] && entries[|entries| - 1] == Entry(key, found.value, |found.value.text|)
      ensures found.None? ==> entries == old(entries)
    {
      TouchedWithin(entries, Bounds(), key);
      TouchedKeeps(entries, key);
      FindIn(entries, key);
      var e := Find(entries, key);
      if e.Some? {
        entries := Without(entries, key) + [e.value];
        return Some(e.value.value);
      }
      return None;
    }

    method Store(key: K, maxExtractedChars: nat, document: Document) returns (outcome: StoreOutcome)
      requires Valid()
      modifies this`entries, this`totalChars
      ensures Valid()
      ensures outcome == Refused <==> document.text == [] || |document.text| > maxExtractedChars
      ensures outcome == Refused ==> entries == old(entries)
      ensures outcome != Refused ==>
                entries == Stored(old(entries), Bounds(), Entry(key, document, |document.text|))
      ensures outcome == Kept ==> Find(entries, key) == Some(Entry(key, document, |document.text|))
      ensures outcome == Skipped ==> Find(entries, key).None? && |document.text| > maxEntryChars
    {
      if document.text == [] || |document.text| > maxExtractedChars {
        return Refused;
      }
      ghost var lim := Bounds();
      ghost var before := entries;
      var size := |document.text|;
      ghost var e := Entry(key, document, size);
      StoredWithin(before, lim, e);
      StoredKeeps(before, lim, e);
      PopTotal(entries, key);
      var previous := Find(entries, key);
      if previous.Some? {
        entries := Without(entries, key);
        totalChars := totalChars - previous.value.weight;
      }
      ghost var rest := entries;
      FindAfterPop(before, key);
      if size > maxEntryChars || size > maxTotalChars {
        return Skipped;
      }
      while entries != [] && (|entries| >= maxEntries || totalChars + size > maxTotalChars)
        invariant Evict(entries, lim, size) == Evict(rest, lim, size)
        invariant totalChars == Total(entries)
        decreases |entries|
      {
        var evicted := entries[0];
        entries := entries[1..];
        totalChars := totalChars - evicted.weight;
      }
      FindStored(before, lim, e);
      TotalConcat(entries, [e]);
      entries := entries + [Entry(key, document, size)];
      totalChars := totalChars + size;
      return Kept;
    }

    method Clear()
      requires Valid()
      modifies this`entries, this`totalChars
      ensures Valid() && entries == []
    {
      entries := [];
      totalChars := 0;
    }
  }

  /** Spans found by the recognizer, bounded by entry count and by spans. A list longer than the
      whole budget is not stored and leaves the entry of its key in place. */
  class SpanCache<K(==), Span> {
    const maxEntries: nat
    const maxTotalSpans: nat
    var entries: seq<Entry<K, seq<Span>>>
    var totalSpans: int

    ghost predicate Valid()
      reads this
    {
      && Sensible(Bounds()) && Within(entries, Bounds()) && Distinct(entries)
      && totalSpans == Total(entries)
      && forall e <- entries :: e.weight == |e.value|
    }

    function Bounds(): Limits {
      Limits(maxEntries, maxTotalSpans, maxTotalSpans, false)
    }

    constructor (maxEntries: nat, maxTotalSpans: nat)
      requires maxEntries >= 1 && maxTotalSpans >= 1
      ensures Valid() && entries == []
      ensures Bounds() == Limits(maxEntries, maxTotalSpans, maxTotalSpans, false)
    {
      this.maxEntries := maxEntries;
      this.maxTotalSpans := maxTotalSpans;
      entries := [];
      totalSpans := 0;
    }

    method Load(key: K) returns (found: Option<seq<Span>>)
      requires Valid()
      modifies this`entries
      ensures Valid() && entries == Touched(old(entries), key)
      ensures found.None? <==> Find(old(entries), key).None?
      ensures found.Some? ==> Find(old(entries), key) == Some(Entry(key, found.value, |found.value|))
      ensures found.Some? ==> entries != [] && entries[|entries| - 1] == Entry(key, found.value, |found.value|)
      ensures found.None? ==> entries == old(entries)
    {
      TouchedWithin(entries, Bounds(), key);
      TouchedKeeps(entries, key);
      FindIn(entries, key);
      var e := Find(entries, key);
      if e.Some? {
        entries := Without(entries, key) + [e.value];
        return Some(e.value.value);
      }
      return None;
    }

    method Store(key: K, spans: seq<Span>)
      requires Valid()
      modifies this`entries, this`totalSpans
      ensures Valid() && entries == Stored(old(entries), Bounds(), Entry(key, spans, |spans|))
      ensures |spans| > maxTotalSpans ==> entries == old(entries)
      ensures |spans| <= maxTotalSpans ==> Find(entries, key) == Some(Entry(key, spans, |spans|))
    {
      if |spans| > maxTotalSpans {
        return;
      }
      ghost var lim := Bounds();
      ghost var before := entries;
      ghost var e := Entry(key, spans, |spans|);
      StoredWithin(before, lim, e);
      StoredKeeps(before, lim, e);
      FindStored(before, lim, e);
      PopTotal(entries, key);
      var previous := Find(entries, key);
      if previous.Some? {
        entries := Without(entries, key);
        totalSpans := totalSpans - previous.value.weight;
      }
      ghost var rest := entries;
      while entries != [] && (|entries| >= maxEntries || totalSpans + |spans| > maxTotalSpans)
        invariant Evict(entries, lim, |spans|) == Evict(rest, lim, |spans|)
        invariant totalSpans == Total(entries)
        decreases |entries|
      {
        var evicted := entries[0];
        entries := entries[1..];
        totalSpans := totalSpans - evicted.weight;
      }
      TotalConcat(entries, [e]);
      entries := entries + [Entry(key, spans, |spans|)];
      totalSpans := totalSpans + |spans|;
    }
  }

  lemma TouchedKeeps<K, V>(es: seq<Entry<K, V>>, key: K)
    requires Distinct(es)
    ensures forall x :: x in Touched(es, key) ==> x in es
    ensures Total(Touched(es, key)) == Total(es)
  {
    FindIn(es, key);
    WithoutKeys(es, key);
    if Find(es, key).Some? {
      WithoutFound(es, key);
      TotalConcat(Without(es, key), [Find(es, key).value]);
    }
  }

  lemma StoredKeeps<K, V>(es: seq<Entry<K, V>>, lim: Limits, e: Entry<K, V>)
    requires Sensible(lim)
    ensures forall x :: x in Stored(es, lim, e) ==> x in es || x == e
  {
    WithoutKeys(es, e.key);
    if !Oversized(e, lim) {
      EvictSuffix(Without(es, e.key), lim, e.weight);
    }
  }

  /** Popping a key removes exactly its weight; popping a missing key changes nothing. */
  lemma PopTotal<K, V>(es: seq<Entry<K, V>>, key: K)
    requires Distinct(es)
    ensures Total(Without(es, key)) == Total(es) - (match Find(es, key) case None => 0 case Some(e) => e.weight)
    ensures Find(es, key).None? ==> Without(es, key) == es
  {
    FindIn(es, key);
    if Find(es, key).Some? {
      WithoutFound(es, key);
    } else {
      WithoutAbsent(es, key);
    }
  }

  lemma FindAfterPop<K, V>(es: seq<Entry<K, V>>, key: K)
    requires Distinct(es)
    ensures Find(Without(es, key), key).None?
  {
    FindOther(es, key, key);
  }

  lemma FindStored<K, V>(es: seq<Entry<K, V>>, lim: Limits, e: Entry<K, V>)
    requires Sensible(lim) && Distinct(es) && !Oversized(e, lim)
    ensures Find(Stored(es, lim, e), e.key) == Some(e)
  {
    FindOther(es, e.key, e.key);
    EvictedKeys(Without(es, e.key), lim, e.weight, e.key);
    FindSnoc(Evict(Without(es, e.key), lim, e.weight), e, e.key);
  }
}
