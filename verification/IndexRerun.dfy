/** A run in which nothing fails repairs what earlier failures left, and a second one is idle. */
module IndexRerun {
  import opened Common
  import opened Stores
  import opened Indexing
  import opened IndexSafety
  import opened IndexRecovery

  // ---- writes without faults ----

  lemma CleanWrite(w: World, e: Write, attempts: nat)
    requires attempts >= 1
    ensures WriteWithRetry(w, e, attempts, []) == Step(Apply(w, e), [], Done)
  {
  }

  lemma {:induction false} CleanUpsert(w: World, ids: seq<ChunkId>, signature: string, attempts: nat)
    requires attempts >= 1
    ensures UpsertAll(w, ids, signature, attempts, []) == Step(Apply(w, UpsertBatch(ids, signature)), [], Done)
    decreases |ids|
  {
    if ids == [] {
      assert Apply(w, UpsertBatch(ids, signature)).points == w.points;
    } else {
      var n := if |ids| < UPSERT_BATCH_SIZE then |ids| else UPSERT_BATCH_SIZE;
      CleanWrite(w, UpsertBatch(ids[..n], signature), attempts);
      CleanUpsert(Apply(w, UpsertBatch(ids[..n], signature)), ids[n..], signature, attempts);
      BatchesAdd(w, ids, n, signature);
    }
  }

  /** The file can be prepared: it has chunks and one vector for each. */
  predicate Preparable(f: File) {
    f.prepared.Chunks? && f.prepared.extents != [] && f.prepared.vectorsMatch
  }

  lemma CleanReplace(w: World, f: File, finished: Record, signature: string, attempts: nat)
    requires attempts >= 1 && Preparable(f)
    ensures ReplaceDocument(w, f, finished, signature, attempts, [])
            == Outcome(UpsertRecord(Rewritten(w, f, signature), f.id, finished), [], IndexedNow)
  {
    CleanWrite(w, DeleteDocument(f.id), attempts);
    CleanUpsert(Apply(w, DeleteDocument(f.id)), ChunkIds(f), signature, attempts);
  }

  // ---- one file without faults ----

  /** Rows and points are exactly the file's chunks. */
  ghost predicate Held(w: World, f: File, signature: string) {
    RowsAre(w, f.id, ChunkIds(f)) && PointsAre(w, f.id, ChunkIds(f), Point(f.id, f.revision, signature))
  }

  /** The record says the file is indexed as it is now, and both stores hold its chunks. */
  ghost predicate Settled(w: World, f: File, signature: string) {
    && f.id in w.docs
    && w.docs[f.id] == Record(f.path, f.relative, f.size, f.mtime, f.revision, Indexed, Some(f.revision),
                              Some(signature))
    && Held(w, f, signature)
  }

  lemma RewrittenOthers(w: World, f: File, r: Record, signature: string)
    requires WellFormed(w)
    ensures OthersUntouched(w, UpsertRecord(Rewritten(w, f, signature), f.id, r), f.id)
  {
  }

  /** The skip test takes the file for one that is indexed as it is. */
  predicate LooksIndexed(w: World, f: File, signature: string) {
    CanSkip(Previous(w, f.id), f, signature, true)
  }

  /** A file that looks indexed and whose chunks the stores do not hold. */
  ghost predicate Hidden(w: World, f: File, signature: string) {
    LooksIndexed(w, f, signature) && !Held(w, f, signature)
  }

  /** A file that looks indexed and has lost its points. */
  ghost predicate TornFile(w: World, f: File, signature: string) {
    LooksIndexed(w, f, signature) && RowsAre(w, f.id, ChunkIds(f)) && NoPoints(w, f.id)
  }

  /** A file that looks indexed and has lost its points and its rows. */
  ghost predicate EmptiedFile(w: World, f: File, signature: string) {
    LooksIndexed(w, f, signature) && NoRows(w, f.id) && NoPoints(w, f.id)
  }

  lemma FirstChunk(f: File)
    requires Preparable(f)
    ensures exists c :: c in ChunkIds(f) && c.doc == f.id
  {
    assert ChunkIds(f)[0] in ChunkIds(f);
  }

  /** What hides in a reachable state is torn or emptied. */
  lemma HiddenKinds(ex: Extraction, w: World, f: File, signature: string, exempt: set<string>)
    requires Inv(ex, w, exempt) && Preparable(f) && Faithful(ex, f, signature)
    ensures Hidden(w, f, signature) <==> TornFile(w, f, signature) || EmptiedFile(w, f, signature)
  {
    FirstChunk(f);
    if LooksIndexed(w, f, signature) {
      assert DocOk(ex, w, f.id, exempt);
      assert Expected(ex, f.id, w.docs[f.id]) == ChunkIds(f);
    }
  }

  lemma HeldApart(w: World, f: File, signature: string)
    requires Preparable(f)
    ensures Held(w, f, signature) ==> !NoPoints(w, f.id)
  {
    FirstChunk(f);
  }

  lemma FreshFile(w: World, f: File, signature: string)
    requires WellFormed(w) && Preparable(f)
    ensures var r := FinishedRecord(Previous(w, f.id), f, signature);
            var started := UpsertRecord(w, f.id, StartedRecord(Previous(w, f.id), f, signature));
            var w' := UpsertRecord(Rewritten(started, f, signature), f.id, r);
            Settled(w', f, signature) && OthersUntouched(w, w', f.id)
  {
    hide Rewritten;
    var started := UpsertRecord(w, f.id, StartedRecord(Previous(w, f.id), f, signature));
    assert WellFormed(started);
    RewrittenHolds(started, f, signature);
    RewrittenOthers(started, f, FinishedRecord(Previous(w, f.id), f, signature), signature);
  }

  /** The record is the one of the file as it is now; nothing is said of the stores. */
  predicate Registered(w: World, f: File, signature: string) {
    LooksIndexed(w, f, signature) && w.docs[f.id].path == f.path && w.docs[f.id].relative == f.relative
  }

  /** What processing makes of a file: it is settled, unless equal totals make the build skip a
      hidden loss, which then stays as it is. */
  ghost predicate Processed(w: World, w': World, f: File, signature: string, fast: bool) {
    && Registered(w', f, signature)
    && (Settled(w', f, signature) <==> !(fast && Hidden(w, f, signature)))
    && (TornFile(w', f, signature) <==> fast && TornFile(w, f, signature))
    && (EmptiedFile(w', f, signature) <==> fast && EmptiedFile(w, f, signature))
  }

  /** Nothing about the file has changed. */
  ghost predicate SameFate(w: World, w': World, f: File, signature: string) {
    && (Registered(w', f, signature) <==> Registered(w, f, signature))
    && (Settled(w', f, signature) <==> Settled(w, f, signature))
    && (Hidden(w', f, signature) <==> Hidden(w, f, signature))
    && (TornFile(w', f, signature) <==> TornFile(w, f, signature))
    && (EmptiedFile(w', f, signature) <==> EmptiedFile(w, f, signature))
  }

  /** A faultless write sequence processes the file and leaves all others alone. */
  lemma CleanFile(w: World, f: File, signature: string, fast: bool, attempts: nat)
    requires attempts >= 1 && Preparable(f) && WellFormed(w)
    ensures var o := ProcessFile(w, f, signature, fast, attempts, []);
            && o.rest == [] && (o.result == Skipped || o.result == IndexedNow)
            && Processed(w, o.w, f, signature, fast) && OthersUntouched(w, o.w, f.id)
  {
    hide RowsAre, PointsAre, NoRows, NoPoints, Rewritten, WellFormed;
    var previous := Previous(w, f.id);
    var o := ProcessFile(w, f, signature, fast, attempts, []);
    if CanSkip(previous, f, signature, fast) {
      SkippedFile(w, f, signature, attempts);
    } else {
      var started := UpsertRecord(w, f.id, StartedRecord(previous, f, signature));
      assert |ChunkIds(f)| == |f.prepared.extents|;
      CleanReplace(started, f, FinishedRecord(previous, f, signature), signature, attempts);
      FreshFile(w, f, signature);
      HeldApart(o.w, f, signature);
      assert OthersUntouched(w, o.w, f.id);
    }
  }

  /** A skip changes at most the file's paths. */
  lemma SkippedFile(w: World, f: File, signature: string, attempts: nat)
    requires attempts >= 1 && LooksIndexed(w, f, signature)
    ensures var o := SkipFile(w, f, attempts, []);
            && o.rest == [] && o.result == Skipped && Registered(o.w, f, signature)
            && o.w.chunks == w.chunks && o.w.points == w.points && OthersUntouched(w, o.w, f.id)
            && (Held(o.w, f, signature) <==> Held(w, f, signature))
            && (NoRows(o.w, f.id) <==> NoRows(w, f.id))
            && (NoPoints(o.w, f.id) <==> NoPoints(w, f.id))
            && (RowsAre(o.w, f.id, ChunkIds(f)) <==> RowsAre(w, f.id, ChunkIds(f)))
  {
  }

  lemma UntouchedFile(w: World, w': World, f: File, doc: string, signature: string)
    requires doc != f.id && OthersUntouched(w, w', doc)
    ensures SameFate(w, w', f, signature)
  {
  }

  ghost predicate DistinctIds(files: seq<File>) {
    forall i, j :: 0 <= i < j < |files| ==> files[i].id != files[j].id
  }

  lemma {:induction false} CleanLoop(ex: Extraction, w: World, files: seq<File>, signature: string, fast: bool,
                                     attempts: nat, exempt: set<string>)
    requires attempts >= 1 && Inv(ex, w, exempt) && DistinctIds(files)
    requires forall f :: f in files ==> Preparable(f) && Faithful(ex, f, signature)
    ensures var s := ProcessFiles(w, files, signature, fast, attempts, []);
            && s.rest == [] && s.ended == Done && Inv(ex, s.w, exempt)
            && (forall f :: f in files ==> Processed(w, s.w, f, signature, fast))
            && (forall g: File :: g.id !in Seen(files) ==> SameFate(w, s.w, g, signature))
    decreases |files|
  {
    hide Inv, Registered, Settled, Hidden, TornFile, EmptiedFile, OthersUntouched, ProcessFile;
    if files != [] {
      var f, rest := files[0], files[1..];
      assert f in files;
      InvWellFormed(ex, w, exempt);
      CleanFile(w, f, signature, fast, attempts);
      FileKeepsInv(ex, w, f, signature, fast, attempts, [], exempt);
      var o := ProcessFile(w, f, signature, fast, attempts, []);
      assert DistinctIds(rest);
      CleanLoop(ex, o.w, rest, signature, fast, attempts, exempt);
      assert f.id !in Seen(rest);
      forall g: File | g.id != f.id ensures SameFate(w, o.w, g, signature) {
        UntouchedFile(w, o.w, g, f.id, signature);
      }
      SplitFiles(files);
      assert Seen(files) == {f.id} + Seen(rest);
    }
  }

  lemma SplitFiles(files: seq<File>)
    requires files != []
    ensures forall f :: f in files <==> f == files[0] || f in files[1..]
  {
    assert files == [files[0]] + files[1..];
  }

  // ---- pruning without faults ----

  lemma CleanPrune(w: World, doc: string, attempts: nat)
    requires attempts >= 1 && doc in w.docs
    ensures PruneOne(w, doc, attempts, []) == Step(Pruned(w, doc), [], Done)
  {
    CleanWrite(w, DeleteDocument(doc), attempts);
  }

  /** After pruning, every document of `order` is one of the seen ones or is gone. */
  lemma {:induction false} CleanRemove(ex: Extraction, w: World, seen: set<string>, order: seq<string>, attempts: nat,
                                       exempt: set<string>)
    requires attempts >= 1 && Inv(ex, w, exempt)
    ensures var s := RemoveMissing(w, seen, order, attempts, []);
            && s.rest == [] && s.ended == Done && Inv(ex, s.w, exempt) && s.w.docs.Keys == w.docs.Keys
            && (forall d :: d in order && d in w.docs && d !in seen ==> s.w.docs[d].status == Deleted)
            && (forall d :: d in w.docs && w.docs[d].status == Deleted ==> s.w.docs[d].status == Deleted)
            && (forall f: File, signature :: f.id in seen ==> SameFate(w, s.w, f, signature))
    decreases |order|
  {
    hide Inv, Registered, Settled, Hidden, TornFile, EmptiedFile, OthersUntouched, PruneOne;
    if order != [] {
      var doc := order[0];
      assert order == [doc] + order[1..];
      if ToPrune(w, seen, doc) {
        CleanPrune(w, doc, attempts);
        PrunedKeepsInv(ex, w, doc, exempt);
        var w1 := Pruned(w, doc);
        assert w1.docs.Keys == w.docs.Keys;
        InvWellFormed(ex, w, exempt);
        HalfWellFormed(w, doc);
        forall f: File, signature | f.id in seen ensures SameFate(w, w1, f, signature) {
          UntouchedFile(w, w1, f, doc, signature);
        }
        CleanRemove(ex, w1, seen, order[1..], attempts, exempt);
        var s := RemoveMissing(w1, seen, order[1..], attempts, []);
        forall f: File, signature | f.id in seen ensures SameFate(w, s.w, f, signature) {
          assert SameFate(w, w1, f, signature) && SameFate(w1, s.w, f, signature);
        }
      } else {
        CleanRemove(ex, w, seen, order[1..], attempts, exempt);
      }
    }
  }

  // ---- recovery ----

  /** Every discovered file is indexed as it is, with its chunks in both stores, and of
      everything else nothing is left. */
  ghost predicate Recovered(w: World, files: seq<File>, signature: string) {
    && WellFormed(w)
    && (forall f :: f in files ==> Settled(w, f, signature))
    && (forall d :: d in w.docs && d !in Seen(files) ==> Gone(w, d))
  }

  ghost predicate Gone(w: World, doc: string)
    requires doc in w.docs
  {
    w.docs[doc].status == Deleted && NoPoints(w, doc) && NoRows(w, doc)
  }

  /** All files can be prepared and are cut as the extraction says, and `order` lists every
      record. */
  ghost predicate Runnable(ex: Extraction, w: World, files: seq<File>, signature: string, order: seq<string>) {
    && DistinctIds(files)
    && (forall f :: f in files ==> Preparable(f) && Faithful(ex, f, signature))
    && (forall d :: d in w.docs ==> d in order)
  }

  /** A pruning run in which nothing fails processes every file and clears everything else. */
  lemma CleanRun(ex: Extraction, w: World, files: seq<File>, signature: string, order: seq<string>, attempts: nat,
                 exempt: set<string>)
    requires attempts >= 1 && Inv(ex, w, exempt) && Runnable(ex, w, files, signature, order)
    ensures var s := Build(w, files, signature, true, order, attempts, []);
            && s.ended == Done && Inv(ex, s.w, exempt)
            && (forall f :: f in files ==> Processed(w, s.w, f, signature, CountsAgree(w, signature)))
            && (forall d :: d in s.w.docs && d !in Seen(files) ==> Gone(s.w, d))
  {
    hide Registered, Settled, Hidden, TornFile, EmptiedFile, CountsAgree;
    var fast := CountsAgree(w, signature);
    CleanLoop(ex, w, files, signature, fast, attempts, exempt);
    var s := ProcessFiles(w, files, signature, fast, attempts, []);
    LoopDocs(w, files, signature, fast, attempts, []);
    CleanRemove(ex, s.w, Seen(files), order, attempts, exempt);
    var s' := RemoveMissing(s.w, Seen(files), order, attempts, []);
    forall d | d in s'.w.docs && d !in Seen(files) ensures Gone(s'.w, d) {
      assert d in w.docs && d in order;
      assert DocOk(ex, s'.w, d, exempt);
    }
    forall f | f in files ensures Processed(w, s'.w, f, signature, fast) {
      assert f.id in Seen(files);
      assert Processed(w, s.w, f, signature, fast) && SameFate(s.w, s'.w, f, signature);
    }
  }

  /** Such a run repairs every state earlier faults and deaths can leave, with one exact
      exception: equal totals and a discovered file that looks indexed and is torn or emptied. */
  lemma CleanRunRecovers(ex: Extraction, w: World, files: seq<File>, signature: string, order: seq<string>,
                         attempts: nat, exempt: set<string>)
    requires attempts >= 1 && Inv(ex, w, exempt) && Runnable(ex, w, files, signature, order)
    ensures var s := Build(w, files, signature, true, order, attempts, []);
            && s.ended == Done
            && (Recovered(s.w, files, signature) <==>
                !(CountsAgree(w, signature) &&
                  exists f :: f in files && (TornFile(w, f, signature) || EmptiedFile(w, f, signature))))
  {
    hide Registered, Settled, Hidden, TornFile, EmptiedFile, CountsAgree, Gone, Build, Inv;
    CleanRun(ex, w, files, signature, order, attempts, exempt);
    var s := Build(w, files, signature, true, order, attempts, []);
    InvWellFormed(ex, s.w, exempt);
    forall f | f in files
      ensures Settled(s.w, f, signature) <==>
              !(CountsAgree(w, signature) && (TornFile(w, f, signature) || EmptiedFile(w, f, signature)))
    {
      HiddenKinds(ex, w, f, signature, exempt);
    }
  }

  /** Without prunings stopped half-way there is no such file, and the run always recovers. */
  lemma LoopFailuresRecover(ex: Extraction, w: World, files: seq<File>, signature: string, order: seq<string>,
                            attempts: nat)
    requires attempts >= 1 && Inv(ex, w, {}) && Runnable(ex, w, files, signature, order)
    ensures var s := Build(w, files, signature, true, order, attempts, []);
            s.ended == Done && Recovered(s.w, files, signature)
  {
    hide Build, Recovered, CountsAgree;
    CleanRunRecovers(ex, w, files, signature, order, attempts, {});
    forall f | f in files ensures !TornFile(w, f, signature) && !EmptiedFile(w, f, signature) {
      if f.id in w.docs {
        assert DocOk(ex, w, f.id, {});
        KindsApart(ex, w, f.id);
      }
    }
  }

  // ---- a second run ----

  /** Every record is current or deleted. */
  predicate CurrentOrDeleted(w: World, signature: string) {
    forall d :: d in w.docs ==> IsCurrent(w.docs[d], signature) || w.docs[d].status == Deleted
  }

  lemma CleanRunCurrent(ex: Extraction, w: World, files: seq<File>, signature: string, order: seq<string>,
                        attempts: nat, exempt: set<string>)
    requires attempts >= 1 && Inv(ex, w, exempt) && Runnable(ex, w, files, signature, order)
    ensures CurrentOrDeleted(Build(w, files, signature, true, order, attempts, []).w, signature)
  {
    hide Settled, Hidden, TornFile, EmptiedFile, CountsAgree, Build, Inv;
    CleanRun(ex, w, files, signature, order, attempts, exempt);
    var s := Build(w, files, signature, true, order, attempts, []);
    forall d | d in s.w.docs && d in Seen(files) ensures IsCurrent(s.w.docs[d], signature) {
      var f :| f in files && f.id == d;
      assert Processed(w, s.w, f, signature, CountsAgree(w, signature));
    }
  }

  ghost predicate SomeTorn(ex: Extraction, w: World) {
    exists d :: IsIndexed(w, d) && Torn(ex, w, d)
  }

  lemma TornShows(ex: Extraction, w: World, signature: string, exempt: set<string>)
    requires Inv(ex, w, exempt) && CurrentOrDeleted(w, signature)
    ensures ManifestRows(w, signature) <= SignaturePoints(w, signature) <==> !SomeTorn(ex, w)
  {
    var rows, points := ManifestRows(w, signature), SignaturePoints(w, signature);
    if d :| IsIndexed(w, d) && Torn(ex, w, d) {
      var c := Expected(ex, d, w.docs[d])[0];
      assert c in Expected(ex, d, w.docs[d]) && c.doc == d;
      assert c in rows && c !in points;
    } else {
      forall c | c in rows ensures c in points {
        assert DocOk(ex, w, c.doc, exempt);
      }
    }
  }

  /** When every record is current or deleted, points are never in excess: the totals agree
      exactly when no document is torn. An emptied one does not show. */
  lemma TotalsAgreeIff(ex: Extraction, w: World, signature: string, exempt: set<string>)
    requires Inv(ex, w, exempt) && CurrentOrDeleted(w, signature)
    ensures CountsAgree(w, signature) <==> !SomeTorn(ex, w)
  {
    var rows, points := ManifestRows(w, signature), SignaturePoints(w, signature);
    forall c | c in points ensures c in rows {
      assert DocOk(ex, w, c.doc, exempt);
    }
    SubsetSameSize(points, rows);
    TornShows(ex, w, signature, exempt);
  }

  lemma TornFileTorn(ex: Extraction, w: World, f: File, signature: string)
    requires Preparable(f) && Faithful(ex, f, signature) && LooksIndexed(w, f, signature)
    ensures TornFile(w, f, signature) <==> Torn(ex, w, f.id)
  {
    assert Expected(ex, f.id, w.docs[f.id]) == ChunkIds(f);
    FirstChunk(f);
  }

  /** Where every record is current or deleted, as after a faultless run, another such run
      recovers exactly when no discovered file is emptied or some document is torn: a torn
      document shows in the totals and nothing is skipped, an emptied one does not. */
  lemma SecondRunRecovers(ex: Extraction, w: World, before: string, files: seq<File>, signature: string,
                          order: seq<string>, attempts: nat, exempt: set<string>)
    requires attempts >= 1 && Inv(ex, w, exempt) && CurrentOrDeleted(w, before)
    requires Runnable(ex, w, files, signature, order)
    ensures var s := Build(w, files, signature, true, order, attempts, []);
            && s.ended == Done
            && (Recovered(s.w, files, signature) <==>
                SomeTorn(ex, w) || forall f :: f in files ==> !EmptiedFile(w, f, signature))
  {
    hide Build, Recovered, CountsAgree, Inv, TornFile, EmptiedFile, Torn;
    CleanRunRecovers(ex, w, files, signature, order, attempts, exempt);
    forall f | f in files && (TornFile(w, f, signature) || EmptiedFile(w, f, signature))
      ensures CountsAgree(w, signature) <==> !SomeTorn(ex, w)
      ensures TornFile(w, f, signature) ==> SomeTorn(ex, w)
    {
      assert LooksIndexed(w, f, signature) by { KindsLookIndexed(w, f, signature); }
      assert before == signature;
      TotalsAgreeIff(ex, w, signature, exempt);
      TornFileTorn(ex, w, f, signature);
    }
  }

  lemma KindsLookIndexed(w: World, f: File, signature: string)
    ensures TornFile(w, f, signature) || EmptiedFile(w, f, signature) ==> LooksIndexed(w, f, signature)
  {
  }

  /** Two pruning runs without faults, one after the other, whatever files and signature each is
      given: a torn document is always repaired; the second run leaves damage exactly when the
      first left a file of the second emptied and no document torn. */
  lemma TwoCleanRunsRecover(ex: Extraction, w: World, files1: seq<File>, signature1: string, order1: seq<string>,
                            files2: seq<File>, signature2: string, order2: seq<string>,
                            attempts: nat, exempt: set<string>)
    requires attempts >= 1 && Inv(ex, w, exempt) && Runnable(ex, w, files1, signature1, order1)
    requires Runnable(ex, Build(w, files1, signature1, true, order1, attempts, []).w, files2, signature2, order2)
    ensures var s1 := Build(w, files1, signature1, true, order1, attempts, []);
            var s2 := Build(s1.w, files2, signature2, true, order2, attempts, []);
            && s1.ended == Done && s2.ended == Done
            && (Recovered(s2.w, files2, signature2) <==>
                SomeTorn(ex, s1.w) || forall f :: f in files2 ==> !EmptiedFile(s1.w, f, signature2))
  {
    hide Build, Recovered, Inv, EmptiedFile, Processed, Gone, Runnable;
    CleanRun(ex, w, files1, signature1, order1, attempts, exempt);
    CleanRunCurrent(ex, w, files1, signature1, order1, attempts, exempt);
    var s1 := Build(w, files1, signature1, true, order1, attempts, []);
    SecondRunRecovers(ex, s1.w, signature1, files2, signature2, order2, attempts, exempt);
  }

  /** After a faultless run, some document is torn exactly when a file was torn before and equal
      totals made the run skip it. */
  lemma TornAfter(ex: Extraction, w: World, files: seq<File>, signature: string, order: seq<string>, attempts: nat,
                  exempt: set<string>)
    requires attempts >= 1 && Inv(ex, w, exempt) && Runnable(ex, w, files, signature, order)
    ensures SomeTorn(ex, Build(w, files, signature, true, order, attempts, []).w) <==>
            CountsAgree(w, signature) && exists f :: f in files && TornFile(w, f, signature)
  {
    hide Build, CountsAgree, Inv, TornFile, EmptiedFile, Torn, Hidden, Settled;
    CleanRun(ex, w, files, signature, order, attempts, exempt);
    var w' := Build(w, files, signature, true, order, attempts, []).w;
    forall f | f in files
      ensures f.id in w'.docs && w'.docs[f.id].status == Indexed
      ensures Torn(ex, w', f.id) <==> CountsAgree(w, signature) && TornFile(w, f, signature)
    {
      assert Processed(w, w', f, signature, CountsAgree(w, signature));
      TornFileTorn(ex, w', f, signature);
    }
    if d :| IsIndexed(w', d) && Torn(ex, w', d) {
      assert d in Seen(files);
      var f :| f in files && f.id == d;
      assert TornFile(w, f, signature);
    }
  }

  /** The same files indexed twice without faults: a loss remains exactly when the totals were
      equal, a file was emptied and none was torn. */
  lemma SameRunTwice(ex: Extraction, w: World, files: seq<File>, signature: string, order: seq<string>,
                     order': seq<string>, attempts: nat, exempt: set<string>)
    requires attempts >= 1 && Inv(ex, w, exempt) && Runnable(ex, w, files, signature, order)
    requires Runnable(ex, Build(w, files, signature, true, order, attempts, []).w, files, signature, order')
    ensures var s1 := Build(w, files, signature, true, order, attempts, []);
            var s2 := Build(s1.w, files, signature, true, order', attempts, []);
            Recovered(s2.w, files, signature) <==>
            !(&& CountsAgree(w, signature)
              && (exists f :: f in files && EmptiedFile(w, f, signature))
              && (forall f :: f in files ==> !TornFile(w, f, signature)))
  {
    hide Build, CountsAgree, Inv, TornFile, EmptiedFile, Hidden, Settled, Recovered, SomeTorn, Gone, Runnable;
    TwoCleanRunsRecover(ex, w, files, signature, order, files, signature, order', attempts, exempt);
    TornAfter(ex, w, files, signature, order, attempts, exempt);
    CleanRun(ex, w, files, signature, order, attempts, exempt);
    var w' := Build(w, files, signature, true, order, attempts, []).w;
    forall f | f in files
      ensures EmptiedFile(w', f, signature) <==> CountsAgree(w, signature) && EmptiedFile(w, f, signature)
    {
      assert Processed(w, w', f, signature, CountsAgree(w, signature));
    }
  }

  /** When no file was torn, no later build of the same files changes what the first run left,
      whatever faults are waiting: an emptied file that it skipped stays empty for ever. */
  lemma NothingMoreRepaired(ex: Extraction, w: World, files: seq<File>, signature: string, order: seq<string>,
                            attempts: nat, exempt: set<string>, prune: bool, later: seq<string>, attempts': nat,
                            script: seq<Fault>)
    requires attempts >= 1 && attempts' >= 1 && Inv(ex, w, exempt) && Runnable(ex, w, files, signature, order)
    requires forall f :: f in files ==> !TornFile(w, f, signature)
    ensures var s := Build(w, files, signature, true, order, attempts, []);
            Build(s.w, files, signature, prune, later, attempts', script) == Step(s.w, script, Done)
  {
    hide Build, CountsAgree, Inv, TornFile, EmptiedFile, Hidden, Settled, SomeTorn, Torn, Registered;
    CleanRun(ex, w, files, signature, order, attempts, exempt);
    CleanRunCurrent(ex, w, files, signature, order, attempts, exempt);
    TornAfter(ex, w, files, signature, order, attempts, exempt);
    var w' := Build(w, files, signature, true, order, attempts, []).w;
    TotalsAgreeIff(ex, w', signature, exempt);
    IdleBuild(w', files, signature, prune, later, attempts', script);
  }

  /** Only discovered files get new records. */
  lemma {:induction false} LoopDocs(w: World, files: seq<File>, signature: string, fast: bool, attempts: nat,
                                    script: seq<Fault>)
    requires attempts >= 1
    ensures ProcessFiles(w, files, signature, fast, attempts, script).w.docs.Keys <= w.docs.Keys + Seen(files)
    decreases |files|
  {
    if files != [] {
      FileDocs(w, files[0], signature, fast, attempts, script);
      var o := ProcessFile(w, files[0], signature, fast, attempts, script);
      LoopDocs(o.w, files[1..], signature, fast, attempts, o.rest);
      SplitFiles(files);
    }
  }

  lemma {:induction false} WriteDocs(w: World, e: Write, attempts: nat, script: seq<Fault>)
    requires attempts >= 1
    ensures WriteWithRetry(w, e, attempts, script).w.docs == w.docs
  {
    RetriedWrite(w, e, attempts, script);
  }

  lemma {:induction false} UpsertDocs(w: World, ids: seq<ChunkId>, signature: string, attempts: nat, script: seq<Fault>)
    requires attempts >= 1
    ensures UpsertAll(w, ids, signature, attempts, script).w.docs == w.docs
    decreases |ids|
  {
    if ids != [] {
      var n := if |ids| < UPSERT_BATCH_SIZE then |ids| else UPSERT_BATCH_SIZE;
      var s := WriteWithRetry(w, UpsertBatch(ids[..n], signature), attempts, script);
      WriteDocs(w, UpsertBatch(ids[..n], signature), attempts, script);
      UpsertDocs(s.w, ids[n..], signature, attempts, s.rest);
    }
  }

  lemma HandlerDocs(w: World, doc: string, replacing: bool, attempts: nat, script: seq<Fault>)
    requires attempts >= 1
    ensures HandleFailure(w, doc, replacing, attempts, script).w.docs.Keys == w.docs.Keys
  {
    if replacing {
      WriteDocs(w, DeleteDocument(doc), attempts, script);
    }
  }

  lemma FileDocs(w: World, f: File, signature: string, fast: bool, attempts: nat, script: seq<Fault>)
    requires attempts >= 1
    ensures ProcessFile(w, f, signature, fast, attempts, script).w.docs.Keys <= w.docs.Keys + {f.id}
  {
    var previous := Previous(w, f.id);
    if f.prepared.EarlyFailure? {
      HandlerDocs(w, f.id, false, attempts, script);
    } else if CanSkip(previous, f, signature, fast) {
      var r := w.docs[f.id];
      var s := Commit(w, UpsertRecord(w, f.id, r.(path := f.path, relative := f.relative)), script);
      HandlerDocs(s.w, f.id, false, attempts, s.rest);
    } else {
      var s := Commit(w, UpsertRecord(w, f.id, StartedRecord(previous, f, signature)), script);
      HandlerDocs(s.w, f.id, false, attempts, s.rest);
      ReplaceDocs(s.w, f, FinishedRecord(previous, f, signature), signature, attempts, s.rest);
    }
  }

  lemma ReplaceDocs(w: World, f: File, finished: Record, signature: string, attempts: nat, script: seq<Fault>)
    requires attempts >= 1
    ensures ReplaceDocument(w, f, finished, signature, attempts, script).w.docs.Keys <= w.docs.Keys + {f.id}
  {
    WriteDocs(w, DeleteDocument(f.id), attempts, script);
    var s1 := WriteWithRetry(w, DeleteDocument(f.id), attempts, script);
    RecoverDocs(s1, f, attempts);
    HandlerDocs(s1.w, f.id, true, attempts, s1.rest);
    UpsertDocs(s1.w, ChunkIds(f), signature, attempts, s1.rest);
    var s2 := UpsertAll(s1.w, ChunkIds(f), signature, attempts, s1.rest);
    RecoverDocs(s2, f, attempts);
    FinalDocs(s2, f, finished, attempts);
  }

  lemma FinalDocs(s2: Step, f: File, finished: Record, attempts: nat)
    requires attempts >= 1
    ensures var s3 := Commit(s2.w, ReplaceChunks(s2.w, f.id, ChunkIds(f)), s2.rest);
            var s4 := Commit(s3.w, UpsertRecord(s3.w, f.id, finished), s3.rest);
            && Recover(s3, f, attempts).w.docs.Keys == s2.w.docs.Keys
            && Recover(s4, f, attempts).w.docs.Keys <= s2.w.docs.Keys + {f.id}
            && s4.w.docs.Keys <= s2.w.docs.Keys + {f.id}
  {
    var s3 := Commit(s2.w, ReplaceChunks(s2.w, f.id, ChunkIds(f)), s2.rest);
    var s4 := Commit(s3.w, UpsertRecord(s3.w, f.id, finished), s3.rest);
    RecoverDocs(s3, f, attempts);
    RecoverDocs(s4, f, attempts);
  }

  lemma RecoverDocs(s: Step, f: File, attempts: nat)
    requires attempts >= 1
    ensures Recover(s, f, attempts).w.docs.Keys == s.w.docs.Keys
  {
    HandlerDocs(s.w, f.id, true, attempts, s.rest);
  }

  // ---- afterwards the stores agree everywhere and an unchanged rerun is idle ----

  lemma RecoveredStoresAgree(w: World, files: seq<File>, signature: string)
    requires Recovered(w, files, signature)
    ensures w.points.Keys == w.chunks
    ensures CountsAgree(w, signature)
  {
    forall c: ChunkId | c in w.points || c in w.chunks
      ensures c in w.points && c in w.chunks && c in ManifestRows(w, signature) && c in SignaturePoints(w, signature)
    {
      assert c.doc in w.docs;
      assert c.doc in Seen(files);
      var f :| f in files && f.id == c.doc;
      assert Settled(w, f, signature);
    }
    assert ManifestRows(w, signature) == w.chunks;
    assert SignaturePoints(w, signature) == w.points.Keys;
  }

  lemma {:induction false} IdleLoop(w: World, files: seq<File>, signature: string, attempts: nat, script: seq<Fault>)
    requires attempts >= 1
    requires forall f :: f in files ==> Registered(w, f, signature) && !f.prepared.EarlyFailure?
    ensures ProcessFiles(w, files, signature, true, attempts, script) == Step(w, script, Done)
    decreases |files|
  {
    if files != [] {
      assert files[0] in files;
      assert ProcessFile(w, files[0], signature, true, attempts, script) == Outcome(w, script, Skipped);
      IdleLoop(w, files[1..], signature, attempts, script);
    }
  }

  lemma {:induction false} IdleRemove(w: World, seen: set<string>, order: seq<string>, attempts: nat,
                                      script: seq<Fault>)
    requires attempts >= 1
    requires forall d :: d in w.docs && d !in seen ==> w.docs[d].status == Deleted
    ensures RemoveMissing(w, seen, order, attempts, script) == Step(w, script, Done)
    decreases |order|
  {
    if order != [] {
      IdleRemove(w, seen, order[1..], attempts, script);
    }
  }

  /** With equal totals, every file registered and every other record deleted, a build attempts
      no write at all. */
  lemma IdleBuild(w: World, files: seq<File>, signature: string, prune: bool, order: seq<string>, attempts: nat,
                  script: seq<Fault>)
    requires attempts >= 1 && CountsAgree(w, signature)
    requires forall f :: f in files ==> Registered(w, f, signature) && !f.prepared.EarlyFailure?
    requires forall d :: d in w.docs && d !in Seen(files) ==> w.docs[d].status == Deleted
    ensures Build(w, files, signature, prune, order, attempts, script) == Step(w, script, Done)
  {
    IdleLoop(w, files, signature, attempts, script);
    IdleRemove(w, Seen(files), order, attempts, script);
  }

  /** Run again on unchanged files, the build skips every one of them: the stores stay as they
      are whatever faults are waiting. */
  lemma RerunIsIdle(w: World, files: seq<File>, signature: string, prune: bool, order: seq<string>, attempts: nat,
                    script: seq<Fault>)
    requires attempts >= 1 && Recovered(w, files, signature)
    requires forall f :: f in files ==> !f.prepared.EarlyFailure?
    ensures Build(w, files, signature, prune, order, attempts, script) == Step(w, script, Done)
  {
    RecoveredStoresAgree(w, files, signature);
    forall f | f in files ensures Registered(w, f, signature) {
      assert Settled(w, f, signature);
    }
    IdleBuild(w, files, signature, prune, order, attempts, script);
  }
}
