/** What the file loop records: each result is told by the record it leaves. */
module IndexFailures {
  import opened Common
  import opened Stores
  import opened Indexing
  import opened IndexSafety
  import opened IndexRecovery
  import opened IndexRerun

  // ---- the handler ----

  /** A handler that gives the file up leaves its record as it was but for the status, and
      everything else alone; when it cleans up and some attempt takes effect, no point is left. */
  lemma HandlerRecords(w: World, doc: string, replacing: bool, attempts: nat, script: seq<Fault>)
    requires attempts >= 1
    ensures var o := HandleFailure(w, doc, replacing, attempts, script);
            && (o.result == FailedNow || o.result == Aborted || o.result == Dead)
            && o.w.chunks == w.chunks
            && (o.result == FailedNow ==>
                  o.w.docs == if doc in w.docs then w.docs[doc := w.docs[doc].(status := Failed)] else w.docs)
            && (!replacing ==> o.w.points == w.points)
            && (replacing && TakesEffect(attempts, script) ==> o.w.points == Apply(w, DeleteDocument(doc)).points)
  {
    if replacing {
      RetriedWrite(w, DeleteDocument(doc), attempts, script);
    }
  }

  lemma DeletedHasNoPoints(w: World, doc: string)
    requires PointsTell(w)
    ensures NoPoints(Apply(w, DeleteDocument(doc)), doc)
  {
  }

  // ---- one file ----

  /** The record of a file, whatever its status. */
  function RecordOf(f: File, status: Status, indexed: Option<string>, signature: string): Record {
    Record(f.path, f.relative, f.size, f.mtime, f.revision, status, indexed, Some(signature))
  }

  predicate Raises(fault: Fault) {
    fault.Lost? || fault.Late?
  }

  /** The file is given up before its own record was written. */
  predicate EarlyGivenUp(f: File, script: seq<Fault>) {
    f.prepared.EarlyFailure? || Raises(Next(script))
  }

  /** Every point says which document it is of. */
  ghost predicate PointsTell(w: World) {
    forall c :: c in w.points ==> w.points[c].doc == c.doc
  }

  ghost predicate Leftover(rest: seq<Fault>, script: seq<Fault>) {
    |rest| <= |script| && rest == script[|script| - |rest|..]
  }

  lemma LeftoverOf(a: seq<Fault>, b: seq<Fault>, c: seq<Fault>)
    requires Leftover(a, b) && Leftover(b, c)
    ensures Leftover(a, c)
  {
  }

  /** What the writes before the final record leave: the records as they were, points that tell
      their documents, and the end of the script. */
  ghost predicate Midway(w: World, script: seq<Fault>, s: Step) {
    s.w.docs == w.docs && (PointsTell(w) ==> PointsTell(s.w)) && Leftover(s.rest, script)
  }

  lemma MidwayTwice(w: World, script: seq<Fault>, s: Step, t: Step)
    requires Midway(w, script, s) && Midway(s.w, s.rest, t)
    ensures Midway(w, script, t)
  {
  }

  lemma {:induction false} WriteMidway(w: World, e: Write, attempts: nat, script: seq<Fault>)
    requires attempts >= 1
    ensures Midway(w, script, WriteWithRetry(w, e, attempts, script))
    decreases attempts
  {
    var s := Attempt(w, Apply(w, e), script);
    assert PointsTell(w) ==> PointsTell(Apply(w, e));
    assert Midway(w, script, s);
    if s.ended == Raised(true) && attempts > 1 {
      WriteMidway(s.w, e, attempts - 1, s.rest);
      MidwayTwice(w, script, s, WriteWithRetry(w, e, attempts, script));
    }
  }

  lemma {:induction false} UpsertMidway(w: World, ids: seq<ChunkId>, signature: string, attempts: nat,
                                        script: seq<Fault>)
    requires attempts >= 1
    ensures Midway(w, script, UpsertAll(w, ids, signature, attempts, script))
    decreases |ids|
  {
    hide Midway, WriteWithRetry;
    if ids == [] {
      NoWrite(w, script);
    } else {
      var n := if |ids| < UPSERT_BATCH_SIZE then |ids| else UPSERT_BATCH_SIZE;
      var s := WriteWithRetry(w, UpsertBatch(ids[..n], signature), attempts, script);
      WriteMidway(w, UpsertBatch(ids[..n], signature), attempts, script);
      if s.ended == Done {
        UpsertMidway(s.w, ids[n..], signature, attempts, s.rest);
        MidwayTwice(w, script, s, UpsertAll(s.w, ids[n..], signature, attempts, s.rest));
      }
    }
  }

  lemma NoWrite(w: World, script: seq<Fault>)
    ensures Midway(w, script, Step(w, script, Done))
  {
  }

  lemma RowsMidway(w: World, doc: string, ids: seq<ChunkId>, script: seq<Fault>)
    ensures Midway(w, script, Commit(w, ReplaceChunks(w, doc, ids), script))
  {
  }

  lemma LastCommit(w: World, doc: string, r: Record, script: seq<Fault>)
    ensures var s := Commit(w, UpsertRecord(w, doc, r), script);
            && (s.ended.Raised? ==> Midway(w, script, s))
            && (s.ended == Done ==> s.w.docs == w.docs[doc := r])
  {
    hide Midway, UpsertRecord;
    NextMidway(w, script, true);
    NextMidway(w, script, false);
    assert UpsertRecord(w, doc, r).docs == w.docs[doc := r] by { RecordDocs(w, doc, r); }
  }

  lemma NextMidway(w: World, script: seq<Fault>, transient: bool)
    ensures Midway(w, script, Step(w, Rest(script), Raised(transient)))
  {
  }

  lemma RecordDocs(w: World, doc: string, r: Record)
    ensures UpsertRecord(w, doc, r).docs == w.docs[doc := r]
  {
  }

  /** How a replacement ends without dying: with its final record, or with the handler run on what
      the writes up to some point left. */
  lemma ReplaceEnds(w: World, f: File, finished: Record, signature: string, attempts: nat, script: seq<Fault>)
    returns (s: Step)
    requires attempts >= 1
    ensures var o := ReplaceDocument(w, f, finished, signature, attempts, script);
            || o.result == Dead
            || (o.result == IndexedNow && o.w.docs == w.docs[f.id := finished])
            || (o == HandleFailure(s.w, f.id, true, attempts, s.rest) && Midway(w, script, s))
  {
    hide HandleFailure, WriteWithRetry, UpsertAll, Commit, ReplaceChunks, UpsertRecord, Midway, ChunkIds;
    var s1 := WriteWithRetry(w, DeleteDocument(f.id), attempts, script);
    WriteMidway(w, DeleteDocument(f.id), attempts, script);
    if s1.ended != Done || !f.prepared.Chunks? || !f.prepared.vectorsMatch {
      return s1;
    }
    var s2 := UpsertAll(s1.w, ChunkIds(f), signature, attempts, s1.rest);
    UpsertMidway(s1.w, ChunkIds(f), signature, attempts, s1.rest);
    MidwayTwice(w, script, s1, s2);
    if s2.ended != Done {
      return s2;
    }
    var s3 := Commit(s2.w, ReplaceChunks(s2.w, f.id, ChunkIds(f)), s2.rest);
    RowsMidway(s2.w, f.id, ChunkIds(f), s2.rest);
    MidwayTwice(w, script, s2, s3);
    if s3.ended != Done {
      return s3;
    }
    var s4 := Commit(s3.w, UpsertRecord(s3.w, f.id, finished), s3.rest);
    LastCommit(s3.w, f.id, finished, s3.rest);
    if s4.ended.Raised? {
      MidwayTwice(w, script, s3, s4);
    } else if s4.ended == Done {
      MidwayDocs(w, script, s3);
    }
    s := s4;
  }

  lemma MidwayDocs(w: World, script: seq<Fault>, s: Step)
    requires Midway(w, script, s)
    ensures s.w.docs == w.docs
  {
  }

  lemma ReplaceRecords(w: World, f: File, finished: Record, signature: string, attempts: nat, script: seq<Fault>)
    requires attempts >= 1 && f.id in w.docs
    ensures var o := ReplaceDocument(w, f, finished, signature, attempts, script);
            && o.result != Skipped
            && (o.result == IndexedNow ==> o.w.docs == w.docs[f.id := finished])
            && (o.result == FailedNow ==> o.w.docs == w.docs[f.id := w.docs[f.id].(status := Failed)])
  {
    hide HandleFailure, ReplaceDocument;
    var s := ReplaceEnds(w, f, finished, signature, attempts, script);
    HandlerRecords(s.w, f.id, true, attempts, s.rest);
  }

  /** What a file's result says of its record. A failed file that has a record is marked failed:
      given up early it keeps every other field, and stays unknown if it was; given up later its
      record is the new one, with the old indexed revision. An indexed file has the new record, a
      skipped one the old record with the file's paths. */
  lemma FileRecords(w: World, f: File, signature: string, fast: bool, attempts: nat, script: seq<Fault>)
    requires attempts >= 1
    ensures var o := ProcessFile(w, f, signature, fast, attempts, script);
            var before := if f.id in w.docs then w.docs[f.id].indexedRevision else None;
            && (o.result == FailedNow && EarlyGivenUp(f, script) ==>
                  o.w.docs == if f.id in w.docs then w.docs[f.id := w.docs[f.id].(status := Failed)] else w.docs)
            && (o.result == FailedNow && !EarlyGivenUp(f, script) ==>
                  o.w.docs == w.docs[f.id := RecordOf(f, Failed, before, signature)])
            && (o.result == IndexedNow ==>
                  o.w.docs == w.docs[f.id := RecordOf(f, Indexed, Some(f.revision), signature)])
            && (o.result == Skipped ==>
                  && f.id in w.docs && w.docs[f.id].status == Indexed
                  && o.w.docs == w.docs[f.id := w.docs[f.id].(path := f.path, relative := f.relative)])
  {
    hide HandleFailure, ReplaceDocument, ChunkIds;
    var previous := Previous(w, f.id);
    HandlerRecords(w, f.id, false, attempts, script);
    if f.prepared.EarlyFailure? {
    } else if CanSkip(previous, f, signature, fast) {
      SkipRecords(w, f, attempts, script);
    } else {
      var s := Commit(w, UpsertRecord(w, f.id, StartedRecord(previous, f, signature)), script);
      HandlerRecords(s.w, f.id, false, attempts, s.rest);
      if !Raises(Next(script)) && s.ended != Died {
        ReplaceRecords(s.w, f, FinishedRecord(previous, f, signature), signature, attempts, s.rest);
      }
    }
  }

  lemma SkipRecords(w: World, f: File, attempts: nat, script: seq<Fault>)
    requires attempts >= 1 && f.id in w.docs
    ensures var o := SkipFile(w, f, attempts, script);
            && o.result != IndexedNow
            && (o.result == FailedNow ==>
                  Raises(Next(script)) && o.w.docs == w.docs[f.id := w.docs[f.id].(status := Failed)])
            && (o.result == Skipped ==>
                  o.w.docs == w.docs[f.id := w.docs[f.id].(path := f.path, relative := f.relative)])
  {
    hide HandleFailure;
    var r := w.docs[f.id];
    var s := Commit(w, UpsertRecord(w, f.id, r.(path := f.path, relative := f.relative)), script);
    HandlerRecords(s.w, f.id, false, attempts, s.rest);
  }

  /** A completed pruning leaves no point and no row, and the record as it was but for its status,
      indexed revision and signature. */
  lemma PruneRecords(w: World, doc: string, attempts: nat, script: seq<Fault>)
    requires attempts >= 1 && doc in w.docs && PointsTell(w) && PruneOne(w, doc, attempts, script).ended == Done
    ensures var w' := PruneOne(w, doc, attempts, script).w;
            && w'.docs == w.docs[doc := w.docs[doc].(status := Deleted, indexedRevision := None, signature := None)]
            && NoPoints(w', doc) && NoRows(w', doc)
            && forall c: ChunkId :: c.doc != doc ==>
                 (c in w'.points <==> c in w.points) && (c in w'.chunks <==> c in w.chunks)
  {
    hide TakesEffect, Succeeds;
    PruneOneWorld(w, doc, attempts, script);
    DeletedHasNoPoints(w, doc);
  }

  // ---- the whole loop ----

  /** When the loop ends, every file of the run that has a record is indexed or failed. */
  lemma {:induction false} LoopRecords(w: World, files: seq<File>, signature: string, fast: bool, attempts: nat,
                                       script: seq<Fault>)
    requires attempts >= 1 && ProcessFiles(w, files, signature, fast, attempts, script).ended == Done
    ensures var w' := ProcessFiles(w, files, signature, fast, attempts, script).w;
            && (forall f :: f in files && f.id in w'.docs ==>
                  w'.docs[f.id].status == Indexed || w'.docs[f.id].status == Failed)
            && (forall d :: d !in Seen(files) ==> (d in w'.docs <==> d in w.docs))
            && (forall d :: d !in Seen(files) && d in w.docs ==> w'.docs[d] == w.docs[d])
    decreases |files|
  {
    hide ProcessFile;
    if files != [] {
      var f, o := files[0], ProcessFile(w, files[0], signature, fast, attempts, script);
      FileRecords(w, f, signature, fast, attempts, script);
      LoopRecords(o.w, files[1..], signature, fast, attempts, o.rest);
      SplitFiles(files);
      assert Seen(files) == {f.id} + Seen(files[1..]);
    }
  }

  // ---- cleaning up ----

  lemma ReplacementCleanup(w: World, f: File, finished: Record, signature: string, attempts: nat, script: seq<Fault>)
    returns (left: seq<Fault>)
    requires attempts >= 1 && PointsTell(w)
    requires ReplaceDocument(w, f, finished, signature, attempts, script).result == FailedNow
    ensures Leftover(left, script)
    ensures TakesEffect(attempts, left) ==>
              NoPoints(ReplaceDocument(w, f, finished, signature, attempts, script).w, f.id)
  {
    hide HandleFailure, ReplaceDocument, TakesEffect;
    var s := ReplaceEnds(w, f, finished, signature, attempts, script);
    left := s.rest;
    HandlerRecords(s.w, f.id, true, attempts, left);
    DeletedHasNoPoints(s.w, f.id);
  }

  /** A file with chunks that is given up after its record was written has run its cleanup on what
      was left of the script by then: when some attempt of it took effect, no point is left. */
  lemma CleanupClears(w: World, f: File, signature: string, fast: bool, attempts: nat, script: seq<Fault>)
    returns (left: seq<Fault>)
    requires attempts >= 1 && WellFormed(w) && ChunkIds(f) != []
    requires ProcessFile(w, f, signature, fast, attempts, script).result == FailedNow && !EarlyGivenUp(f, script)
    ensures Leftover(left, script)
    ensures TakesEffect(attempts, left) ==> NoPoints(ProcessFile(w, f, signature, fast, attempts, script).w, f.id)
  {
    hide HandleFailure, ReplaceDocument, ChunkIds, TakesEffect, NoPoints;
    var previous := Previous(w, f.id);
    if CanSkip(previous, f, signature, fast) {
      SkipRecords(w, f, attempts, script);
    }
    var s := Commit(w, UpsertRecord(w, f.id, StartedRecord(previous, f, signature)), script);
    left := ReplacementCleanup(s.w, f, FinishedRecord(previous, f, signature), signature, attempts, s.rest);
    LeftoverOf(left, s.rest, script);
  }
}
