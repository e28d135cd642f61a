/** The build on mutable stores, write by write, equal to the protocol functions. */
module IndexBuild {
  import opened Common
  import opened Stores
  import opened Indexing

  /** The outside world: the faults that will strike the coming write attempts. */
  class Environment {
    var faults: seq<Fault>

    constructor (script: seq<Fault>)
      ensures faults == script
    {
      faults := script;
    }

    method NextFault() returns (fault: Fault)
      modifies this
      ensures fault == Next(old(faults)) && faults == Rest(old(faults))
    {
      fault := Next(faults);
      faults := Rest(faults);
    }
  }

  /** The documents and chunks tables. */
  class ManifestStore {
    var docs: map<string, Record>
    var chunks: set<ChunkId>

    constructor ()
      ensures docs == map[] && chunks == {}
    {
      docs := map[];
      chunks := {};
    }

    /** Runs one transaction that would leave the given tables. */
    method Commit(env: Environment, docs': map<string, Record>, chunks': set<ChunkId>) returns (ended: Ended)
      modifies this, env
      ensures forall points ::
                Step(World(docs, chunks, points), env.faults, ended)
                == Stores.Commit(World(old(docs), old(chunks), points), World(docs', chunks', points), old(env.faults))
    {
      var fault := env.NextFault();
      match fault
      case Fine => docs, chunks, ended := docs', chunks', Done;
      case Lost(t) => ended := Raised(t);
      case Late(t) => ended := Raised(t);
      case DieBefore => ended := Died;
      case DieAfter => docs, chunks, ended := docs', chunks', Died;
    }

    method UpsertDocument(env: Environment, doc: string, record: Record) returns (ended: Ended)
      modifies this, env
      ensures forall points ::
                Step(World(docs, chunks, points), env.faults, ended)
                == Stores.Commit(World(old(docs), old(chunks), points),
                                 UpsertRecord(World(old(docs), old(chunks), points), doc, record), old(env.faults))
    {
      ended := Commit(env, docs[doc := record], chunks);
    }

    method ReplaceChunks(env: Environment, doc: string, ids: seq<ChunkId>) returns (ended: Ended)
      modifies this, env
      ensures forall points ::
                Step(World(docs, chunks, points), env.faults, ended)
                == Stores.Commit(World(old(docs), old(chunks), points),
                                 Stores.ReplaceChunks(World(old(docs), old(chunks), points), doc, ids), old(env.faults))
    {
      ended := Commit(env, docs, (set c | c in chunks && c.doc != doc) + (set c | c in ids));
    }
  }

  /** The remote points and the bounded retry around every write to them. */
  class QdrantStore {
    var points: map<ChunkId, Point>
    const writeMaxAttempts: nat

    constructor (attempts: nat)
      requires attempts >= 1
      ensures points == map[] && writeMaxAttempts == attempts
    {
      points := map[];
      writeMaxAttempts := attempts;
    }

    method Try(env: Environment, e: Write, ghost w: World) returns (ended: Ended)
      requires w.points == points
      modifies this, env
      ensures Step(w.(points := points), env.faults, ended) == Attempt(w, Apply(w, e), old(env.faults))
    {
      var after: map<ChunkId, Point>;
      match e {
        case DeleteDocument(doc) => after := map c | c in points && points[c].doc != doc :: points[c];
        case UpsertBatch(ids, signature) => after := points + map c | c in ids :: Point(c.doc, c.revision, signature);
      }
      assert Apply(w, e) == w.(points := after);
      var fault := env.NextFault();
      match fault
      case Fine => points, ended := after, Done;
      case Lost(t) => ended := Raised(t);
      case Late(t) => points, ended := after, Raised(t);
      case DieBefore => ended := Died;
      case DieAfter => points, ended := after, Died;
    }

    method WriteWithRetry(env: Environment, e: Write, ghost w: World) returns (ended: Ended)
      requires w.points == points && writeMaxAttempts >= 1
      modifies this, env
      ensures Step(w.(points := points), env.faults, ended)
              == Stores.WriteWithRetry(w, e, writeMaxAttempts, old(env.faults))
    {
      var attempt := 0;
      ended := Raised(true);
      while true
        invariant 0 <= attempt < writeMaxAttempts
        invariant Stores.WriteWithRetry(w.(points := points), e, writeMaxAttempts - attempt, env.faults)
                  == Stores.WriteWithRetry(w, e, writeMaxAttempts, old(env.faults))
        decreases writeMaxAttempts - attempt
      {
        ended := Try(env, e, w.(points := points));
        if ended != Raised(true) || attempt + 1 >= writeMaxAttempts {
          return;
        }
        attempt := attempt + 1;
      }
    }

    method DeleteDocument(env: Environment, doc: string, ghost w: World) returns (ended: Ended)
      requires w.points == points && writeMaxAttempts >= 1
      modifies this, env
      ensures Step(w.(points := points), env.faults, ended)
              == Stores.WriteWithRetry(w, Write.DeleteDocument(doc), writeMaxAttempts, old(env.faults))
    {
      ended := WriteWithRetry(env, Write.DeleteDocument(doc), w);
    }

    method Upsert(env: Environment, ids: seq<ChunkId>, signature: string, ghost w: World) returns (ended: Ended)
      requires w.points == points && writeMaxAttempts >= 1
      modifies this, env
      ensures Step(w.(points := points), env.faults, ended)
              == UpsertAll(w, ids, signature, writeMaxAttempts, old(env.faults))
    {
      var batchStart := 0;
      while batchStart < |ids|
        invariant batchStart <= |ids|
        invariant UpsertAll(w.(points := points), ids[batchStart..], signature, writeMaxAttempts, env.faults)
                  == UpsertAll(w, ids, signature, writeMaxAttempts, old(env.faults))
      {
        var rest := ids[batchStart..];
        var n := if |rest| < UPSERT_BATCH_SIZE then |rest| else UPSERT_BATCH_SIZE;
        ended := WriteWithRetry(env, UpsertBatch(rest[..n], signature), w.(points := points));
        if ended != Done {
          return;
        }
        assert rest[n..] == ids[batchStart + n..];
        batchStart := batchStart + n;
      }
      ended := Done;
    }
  }

  /** The results of the files, up to the one that ends the loop. */
  function ResultsOf(w: World, files: seq<File>, signature: string, fast: bool, attempts: nat,
                     script: seq<Fault>): (r: seq<Result>)
    requires attempts >= 1
    ensures files != [] ==> r != []
    decreases |files|
  {
    if files == [] then []
    else
      var o := Indexing.ProcessFile(w, files[0], signature, fast, attempts, script);
      [o.result] + if o.result == Aborted || o.result == Dead then []
                   else ResultsOf(o.w, files[1..], signature, fast, attempts, o.rest)
  }

  function Count(results: seq<Result>, wanted: Result): nat {
    if results == [] then 0
    else Count(results[..|results| - 1], wanted) + if results[|results| - 1] == wanted then 1 else 0
  }

  /** The counters of the report. */
  predicate Tallied(results: seq<Result>, indexed: nat, skipped: nat, failed: nat) {
    indexed == Count(results, IndexedNow) && skipped == Count(results, Skipped) && failed == Count(results, FailedNow)
  }

  lemma NoneTallied()
    ensures Tallied([], 0, 0, 0)
  {
  }

  lemma OneMoreTallied(results: seq<Result>, result: Result, indexed: nat, skipped: nat, failed: nat)
    requires Tallied(results, indexed, skipped, failed)
    ensures Tallied(results + [result], indexed + (if result == IndexedNow then 1 else 0),
                    skipped + (if result == Skipped then 1 else 0), failed + if result == FailedNow then 1 else 0)
  {
    assert (results + [result])[..|results|] == results;
  }

  lemma ResultsStep(w: World, files: seq<File>, signature: string, fast: bool, attempts: nat, script: seq<Fault>)
    requires attempts >= 1
    ensures files == [] ==> ResultsOf(w, files, signature, fast, attempts, script) == []
    ensures files != [] ==>
              var o := Indexing.ProcessFile(w, files[0], signature, fast, attempts, script);
              ResultsOf(w, files, signature, fast, attempts, script)
              == [o.result] + if o.result == Aborted || o.result == Dead then []
                              else ResultsOf(o.w, files[1..], signature, fast, attempts, o.rest)
  {
    hide Indexing.ProcessFile;
  }

  class Indexer {
    const manifest: ManifestStore
    const store: QdrantStore
    const env: Environment

    constructor (manifest: ManifestStore, store: QdrantStore, env: Environment)
      ensures this.manifest == manifest && this.store == store && this.env == env
    {
      this.manifest, this.store, this.env := manifest, store, env;
    }

    function View(): World
      reads manifest, store
    {
      World(manifest.docs, manifest.chunks, store.points)
    }

    predicate Ready()
    {
      store.writeMaxAttempts >= 1
    }

    /** Best-effort cleanup, then the record is marked failed. */
    method HandleFailure(doc: string, replacing: bool) returns (result: Result)
      requires Ready()
      modifies manifest, store, env
      ensures Outcome(View(), env.faults, result)
              == Indexing.HandleFailure(old(View()), doc, replacing, store.writeMaxAttempts, old(env.faults))
    {
      if replacing {
        var cleaned := store.DeleteDocument(env, doc, View());
        if cleaned == Died {
          return Dead;
        }
      }
      if doc !in manifest.docs {
        return FailedNow;
      }
      var ended := manifest.UpsertDocument(env, doc, manifest.docs[doc].(status := Failed));
      result := match ended case Done => FailedNow case Raised(_) => Aborted case Died => Dead;
    }

    method AfterWrite(ended: Ended, f: File) returns (result: Result)
      requires Ready() && ended != Done
      modifies manifest, store, env
      ensures Outcome(View(), env.faults, result)
              == Recover(Step(old(View()), old(env.faults), ended), f, store.writeMaxAttempts)
    {
      if ended == Died {
        return Dead;
      }
      result := HandleFailure(f.id, true);
    }

    method ReplaceDocument(f: File, finished: Record, signature: string) returns (result: Result)
      requires Ready()
      modifies manifest, store, env
      ensures Outcome(View(), env.faults, result)
              == Indexing.ReplaceDocument(old(View()), f, finished, signature, store.writeMaxAttempts, old(env.faults))
    {
      var ended := store.DeleteDocument(env, f.id, View());
      if ended != Done {
        result := AfterWrite(ended, f);
        return;
      }
      if !f.prepared.Chunks? || !f.prepared.vectorsMatch {
        result := HandleFailure(f.id, true);
        return;
      }
      ended := store.Upsert(env, ChunkIds(f), signature, View());
      if ended != Done {
        result := AfterWrite(ended, f);
        return;
      }
      ended := manifest.ReplaceChunks(env, f.id, ChunkIds(f));
      if ended != Done {
        result := AfterWrite(ended, f);
        return;
      }
      ended := manifest.UpsertDocument(env, f.id, finished);
      if ended != Done {
        result := AfterWrite(ended, f);
        return;
      }
      result := IndexedNow;
    }

    /** One iteration of the file loop. */
    method ProcessFile(f: File, signature: string, fast: bool) returns (result: Result)
      requires Ready()
      modifies manifest, store, env
      ensures Outcome(View(), env.faults, result)
              == Indexing.ProcessFile(old(View()), f, signature, fast, store.writeMaxAttempts, old(env.faults))
    {
      var previous := if f.id in manifest.docs then Some(manifest.docs[f.id]) else None;
      if f.prepared.EarlyFailure? {
        result := HandleFailure(f.id, false);
        return;
      }
      if CanSkip(previous, f, signature, fast) {
        if previous.value.path != f.path || previous.value.relative != f.relative {
          var moved := manifest.UpsertDocument(env, f.id, previous.value.(path := f.path, relative := f.relative));
          match moved
          case Done =>
          case Raised(_) => result := HandleFailure(f.id, false); return;
          case Died => return Dead;
        }
        return Skipped;
      }
      var ended := manifest.UpsertDocument(env, f.id, StartedRecord(previous, f, signature));
      if ended == Died {
        return Dead;
      }
      if ended.Raised? || ChunkIds(f) == [] {
        result := HandleFailure(f.id, false);
        return;
      }
      result := ReplaceDocument(f, FinishedRecord(previous, f, signature), signature);
    }

    /** The file loop with the counters of the report. */
    method ProcessFiles(files: seq<File>, signature: string, fast: bool)
      returns (ended: Ended, indexed: nat, skipped: nat, failed: nat)
      requires Ready()
      modifies manifest, store, env
      ensures Step(View(), env.faults, ended)
              == Indexing.ProcessFiles(old(View()), files, signature, fast, store.writeMaxAttempts, old(env.faults))
      ensures ended == Done ==>
                var results := ResultsOf(old(View()), files, signature, fast, store.writeMaxAttempts, old(env.faults));
                Tallied(results, indexed, skipped, failed) && indexed + skipped + failed == |files|
    {
      hide Indexing.ProcessFile, ResultsOf, Tallied;
      NoneTallied();
      indexed, skipped, failed := 0, 0, 0;
      assert files[0..] == files;
      ghost var all := ResultsOf(View(), files, signature, fast, store.writeMaxAttempts, env.faults);
      ghost var done: seq<Result> := [];
      for i := 0 to |files|
        invariant indexed + skipped + failed == i && Tallied(done, indexed, skipped, failed)
        invariant done + ResultsOf(View(), files[i..], signature, fast, store.writeMaxAttempts, env.faults) == all
        invariant Indexing.ProcessFiles(View(), files[i..], signature, fast, store.writeMaxAttempts, env.faults)
                  == Indexing.ProcessFiles(old(View()), files, signature, fast, store.writeMaxAttempts, old(env.faults))
      {
        assert files[i..][0] == files[i] && files[i..][1..] == files[i + 1..];
        ResultsStep(View(), files[i..], signature, fast, store.writeMaxAttempts, env.faults);
        var result := ProcessFile(files[i], signature, fast);
        OneMoreTallied(done, result, indexed, skipped, failed);
        Rejoin(done, [result], ResultsOf(View(), files[i + 1..], signature, fast, store.writeMaxAttempts, env.faults));
        done := done + [result];
        match result
        case Skipped => skipped := skipped + 1;
        case IndexedNow => indexed := indexed + 1;
        case FailedNow => failed := failed + 1;
        case Aborted => ended := Raised(false); return;
        case Dead => ended := Died; return;
      }
      assert files[|files|..] == [];
      ResultsStep(View(), [], signature, fast, store.writeMaxAttempts, env.faults);
      assert done + [] == done;
      ended := Done;
    }

    method PruneOne(doc: string) returns (ended: Ended)
      requires Ready() && doc in manifest.docs
      modifies manifest, store, env
      ensures Step(View(), env.faults, ended)
              == Indexing.PruneOne(old(View()), doc, store.writeMaxAttempts, old(env.faults))
    {
      var record := manifest.docs[doc];
      ended := store.DeleteDocument(env, doc, View());
      if ended != Done {
        return;
      }
      ended := manifest.ReplaceChunks(env, doc, []);
      if ended != Done {
        return;
      }
      ended := manifest.UpsertDocument(env, doc, PrunedRecord(record));
    }

    /** `_remove_missing`; `order` is the order in which `all_documents` listed the records. */
    method RemoveMissing(seen: set<string>, order: seq<string>) returns (ended: Ended)
      requires Ready()
      modifies manifest, store, env
      ensures Step(View(), env.faults, ended)
              == Indexing.RemoveMissing(old(View()), seen, order, store.writeMaxAttempts, old(env.faults))
    {
      assert order[0..] == order;
      for i := 0 to |order|
        invariant Indexing.RemoveMissing(View(), seen, order[i..], store.writeMaxAttempts, env.faults)
                  == Indexing.RemoveMissing(old(View()), seen, order, store.writeMaxAttempts, old(env.faults))
      {
        assert order[i..][0] == order[i] && order[i..][1..] == order[i + 1..];
        if ToPrune(View(), seen, order[i]) {
          ended := PruneOne(order[i]);
          if ended != Done {
            return;
          }
        }
      }
      assert order[|order|..] == [];
      ended := Done;
    }

    /** A whole build. */
    method Run(files: seq<File>, signature: string, prune: bool, order: seq<string>) returns (ended: Ended)
      requires Ready()
      modifies manifest, store, env
      ensures Step(View(), env.faults, ended)
              == Build(old(View()), files, signature, prune, order, store.writeMaxAttempts, old(env.faults))
    {
      var fast := CountsAgree(View(), signature);
      var indexed, skipped, failed;
      ended, indexed, skipped, failed := ProcessFiles(files, signature, fast);
      if ended == Done && prune {
        ended := RemoveMissing(Seen(files), order);
      }
    }
  }
}
