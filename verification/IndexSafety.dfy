/** What every build keeps, however its writes fail. */
module IndexSafety {
  import opened Common
  import opened Stores
  import opened Indexing

  /** Points and rows belong to documents the manifest knows, and say so. */
  ghost predicate WellFormed(w: World) {
    && (forall c :: c in w.points ==> w.points[c].doc == c.doc && c.doc in w.docs)
    && (forall c :: c in w.chunks ==> c.doc in w.docs)
  }

  ghost predicate NoPoints(w: World, doc: string) {
    forall c :: c in w.points ==> c.doc != doc
  }

  ghost predicate NoRows(w: World, doc: string) {
    forall c :: c in w.chunks ==> c.doc != doc
  }

  /** The chunk extents that a document's revision is cut into under an index signature. */
  type Extraction = (string, string, string) -> seq<(nat, nat)>

  predicate Faithful(ex: Extraction, f: File, signature: string) {
    f.prepared.Chunks? ==> f.prepared.extents == ex(f.id, f.revision, signature)
  }

  /** The document's chunk rows are exactly `ids`. */
  ghost predicate RowsAre(w: World, doc: string, ids: seq<ChunkId>) {
    forall c: ChunkId :: c.doc == doc ==> (c in w.chunks <==> c in ids)
  }

  /** The document's points are exactly `ids`, all with the payload `p`. */
  ghost predicate PointsAre(w: World, doc: string, ids: seq<ChunkId>, p: Point) {
    && (forall c: ChunkId :: c.doc == doc ==> (c in w.points <==> c in ids))
    && (forall c :: c in w.points && c.doc == doc ==> w.points[c] == p)
  }

  /** The record says that its revision is indexed under its signature. */
  predicate Stamped(r: Record) {
    r.indexedRevision == Some(r.revision) && r.signature.Some?
  }

  /** The chunks of the revision and signature that a record names. */
  function Expected(ex: Extraction, doc: string, r: Record): seq<ChunkId>
    requires r.signature.Some?
  {
    ExtentIds(doc, r.revision, ex(doc, r.revision, r.signature.value))
  }

  /** Rows and points are exactly the chunks of the recorded revision and signature, and there
      are some. */
  ghost predicate Complete(ex: Extraction, w: World, doc: string)
    requires doc in w.docs
  {
    var r := w.docs[doc];
    && Stamped(r) && Expected(ex, doc, r) != []
    && RowsAre(w, doc, Expected(ex, doc, r))
    && PointsAre(w, doc, Expected(ex, doc, r), Point(doc, r.revision, r.signature.value))
  }

  /** All rows and no point. */
  ghost predicate Torn(ex: Extraction, w: World, doc: string)
    requires doc in w.docs
  {
    var r := w.docs[doc];
    Stamped(r) && Expected(ex, doc, r) != [] && RowsAre(w, doc, Expected(ex, doc, r)) && NoPoints(w, doc)
  }

  /** Neither row nor point. */
  ghost predicate Emptied(w: World, doc: string)
    requires doc in w.docs
  {
    Stamped(w.docs[doc]) && NoRows(w, doc) && NoPoints(w, doc)
  }

  /** Status `indexed` means complete, except that documents in `exempt` may be torn or emptied;
      status `deleted` means nothing is left. */
  ghost predicate DocOk(ex: Extraction, w: World, doc: string, exempt: set<string>)
    requires doc in w.docs
  {
    && (w.docs[doc].status == Indexed ==>
          Complete(ex, w, doc) || (doc in exempt && (Torn(ex, w, doc) || Emptied(w, doc))))
    && (w.docs[doc].status == Deleted ==> NoPoints(w, doc) && NoRows(w, doc))
  }

  ghost predicate Inv(ex: Extraction, w: World, exempt: set<string>) {
    WellFormed(w) && forall doc :: doc in w.docs ==> DocOk(ex, w, doc, exempt)
  }

  /** The document is neither indexed nor deleted: its points and rows are free to change. */
  predicate Busy(w: World, doc: string) {
    doc in w.docs && w.docs[doc].status != Indexed && w.docs[doc].status != Deleted
  }

  /** `w'` differs from `w` only in the points and rows of `doc`. */
  ghost predicate OnlyTouches(w: World, w': World, doc: string) {
    && w'.docs == w.docs
    && (forall c: ChunkId :: c.doc != doc ==> (c in w'.chunks <==> c in w.chunks))
    && (forall c: ChunkId :: c.doc != doc ==> (c in w'.points <==> c in w.points))
    && (forall c: ChunkId :: c.doc != doc && c in w.points && c in w'.points ==> w'.points[c] == w.points[c])
    && (forall c: ChunkId :: c.doc == doc && c in w'.points ==> w'.points[c].doc == doc)
  }

  /** Rows, points and what the record says about them are the same in both worlds. */
  ghost predicate AlikeOn(w: World, w': World, doc: string) {
    && doc in w.docs && doc in w'.docs
    && w'.docs[doc].revision == w.docs[doc].revision
    && w'.docs[doc].indexedRevision == w.docs[doc].indexedRevision
    && w'.docs[doc].signature == w.docs[doc].signature
    && (forall c: ChunkId :: c.doc == doc ==> (c in w'.chunks <==> c in w.chunks))
    && (forall c: ChunkId :: c.doc == doc ==> (c in w'.points <==> c in w.points))
    && (forall c: ChunkId :: c.doc == doc && c in w.points && c in w'.points ==> w'.points[c] == w.points[c])
  }

  lemma AlikeKinds(ex: Extraction, w: World, w': World, doc: string)
    requires AlikeOn(w, w', doc)
    ensures Complete(ex, w', doc) <==> Complete(ex, w, doc)
    ensures Torn(ex, w', doc) <==> Torn(ex, w, doc)
    ensures Emptied(w', doc) <==> Emptied(w, doc)
    ensures NoPoints(w', doc) <==> NoPoints(w, doc)
    ensures NoRows(w', doc) <==> NoRows(w, doc)
  {
  }

  lemma AlikeOk(ex: Extraction, w: World, w': World, doc: string, exempt: set<string>)
    requires AlikeOn(w, w', doc) && w'.docs[doc].status == w.docs[doc].status
    ensures DocOk(ex, w', doc, exempt) <==> DocOk(ex, w, doc, exempt)
  {
    hide Complete, Torn, Emptied, NoPoints, NoRows, AlikeOn;
    AlikeKinds(ex, w, w', doc);
  }

  lemma BusyDocMayChange(ex: Extraction, w: World, w': World, doc: string, exempt: set<string>)
    requires Inv(ex, w, exempt) && Busy(w, doc) && OnlyTouches(w, w', doc)
    ensures Inv(ex, w', exempt) && Busy(w', doc)
  {
    forall other | other in w'.docs ensures DocOk(ex, w', other, exempt) {
      if other != doc {
        AlikeOk(ex, w, w', other, exempt);
      }
    }
  }

  /** Writes a record and leaves both stores otherwise alone. */
  lemma RecordChange(ex: Extraction, w: World, doc: string, r: Record, exempt: set<string>)
    requires Inv(ex, w, exempt)
    requires DocOk(ex, UpsertRecord(w, doc, r), doc, exempt)
    ensures Inv(ex, UpsertRecord(w, doc, r), exempt)
  {
    var w' := UpsertRecord(w, doc, r);
    forall other | other in w'.docs ensures DocOk(ex, w', other, exempt) {
      if other != doc {
        AlikeOk(ex, w, w', other, exempt);
      }
    }
  }

  lemma BusyRecord(ex: Extraction, w: World, doc: string, r: Record, exempt: set<string>)
    requires Inv(ex, w, exempt) && r.status != Indexed && r.status != Deleted
    ensures Inv(ex, UpsertRecord(w, doc, r), exempt) && Busy(UpsertRecord(w, doc, r), doc)
  {
    RecordChange(ex, w, doc, r, exempt);
  }

  // ---- single writes on a busy document ----

  predicate TargetsOnly(e: Write, doc: string) {
    match e
    case DeleteDocument(d) => d == doc
    case UpsertBatch(ids, _) => forall c :: c in ids ==> c.doc == doc
  }

  lemma WriteTouches(w: World, e: Write, doc: string)
    requires WellFormed(w) && TargetsOnly(e, doc)
    ensures OnlyTouches(w, Apply(w, e), doc)
  {
  }

  lemma InvWellFormed(ex: Extraction, w: World, exempt: set<string>)
    requires Inv(ex, w, exempt)
    ensures WellFormed(w)
  {
  }

  lemma AttemptKeepsInv(ex: Extraction, w: World, e: Write, doc: string, script: seq<Fault>, exempt: set<string>)
    requires Inv(ex, w, exempt) && Busy(w, doc) && TargetsOnly(e, doc)
    ensures var s := Attempt(w, Apply(w, e), script);
            Inv(ex, s.w, exempt) && Busy(s.w, doc) && s.w.docs == w.docs && s.w.chunks == w.chunks
  {
    hide Inv;
    InvWellFormed(ex, w, exempt);
    WriteTouches(w, e, doc);
    BusyDocMayChange(ex, w, Apply(w, e), doc, exempt);
  }

  /** A write to a busy document, with every fault and retry, keeps the invariant. */
  lemma {:induction false} WriteKeepsInv(ex: Extraction, w: World, e: Write, doc: string, attempts: nat,
                                         script: seq<Fault>, exempt: set<string>)
    requires attempts >= 1 && Inv(ex, w, exempt) && Busy(w, doc) && TargetsOnly(e, doc)
    ensures var s := WriteWithRetry(w, e, attempts, script);
            Inv(ex, s.w, exempt) && Busy(s.w, doc) && s.w.docs == w.docs && s.w.chunks == w.chunks
    decreases attempts
  {
    AttemptKeepsInv(ex, w, e, doc, script, exempt);
    var s := Attempt(w, Apply(w, e), script);
    if s.ended == Raised(true) && attempts > 1 {
      WriteKeepsInv(ex, s.w, e, doc, attempts - 1, s.rest, exempt);
    }
  }

  /** When a retried write ends well its effect holds: the effect of one application. */
  lemma {:induction false} WriteTakesEffect(w: World, e: Write, attempts: nat, script: seq<Fault>)
    requires attempts >= 1 && WriteWithRetry(w, e, attempts, script).ended == Done
    ensures WriteWithRetry(w, e, attempts, script).w == Apply(w, e)
    decreases attempts
  {
    var s := Attempt(w, Apply(w, e), script);
    if s.ended == Raised(true) && attempts > 1 {
      WriteTakesEffect(s.w, e, attempts - 1, s.rest);
      ApplyTwice(w, e);
    }
  }

  lemma ApplyTwice(w: World, e: Write)
    ensures Apply(Apply(w, e), e) == Apply(w, e)
  {
    match e
    case DeleteDocument(d) =>
      assert Apply(Apply(w, e), e).points == Apply(w, e).points;
    case UpsertBatch(ids, signature) =>
      assert Apply(Apply(w, e), e).points == Apply(w, e).points;
  }

  lemma {:induction false} UpsertKeepsInv(ex: Extraction, w: World, ids: seq<ChunkId>, signature: string,
                                          doc: string, attempts: nat, script: seq<Fault>, exempt: set<string>)
    requires attempts >= 1 && Inv(ex, w, exempt) && Busy(w, doc) && forall c :: c in ids ==> c.doc == doc
    ensures var s := UpsertAll(w, ids, signature, attempts, script);
            Inv(ex, s.w, exempt) && Busy(s.w, doc) && s.w.docs == w.docs && s.w.chunks == w.chunks
    decreases |ids|
  {
    if ids != [] {
      var n := if |ids| < UPSERT_BATCH_SIZE then |ids| else UPSERT_BATCH_SIZE;
      var e := UpsertBatch(ids[..n], signature);
      WriteKeepsInv(ex, w, e, doc, attempts, script, exempt);
      var s := WriteWithRetry(w, e, attempts, script);
      if s.ended == Done {
        UpsertKeepsInv(ex, s.w, ids[n..], signature, doc, attempts, s.rest, exempt);
      }
    }
  }

  /** Batches that all succeed add exactly the listed points. */
  lemma {:induction false} UpsertTakesEffect(w: World, ids: seq<ChunkId>, signature: string, attempts: nat,
                                             script: seq<Fault>)
    requires attempts >= 1 && UpsertAll(w, ids, signature, attempts, script).ended == Done
    ensures UpsertAll(w, ids, signature, attempts, script).w == Apply(w, UpsertBatch(ids, signature))
    decreases |ids|
  {
    if ids == [] {
      assert Apply(w, UpsertBatch(ids, signature)).points == w.points;
    } else {
      var n := if |ids| < UPSERT_BATCH_SIZE then |ids| else UPSERT_BATCH_SIZE;
      var e := UpsertBatch(ids[..n], signature);
      var s := WriteWithRetry(w, e, attempts, script);
      WriteTakesEffect(w, e, attempts, script);
      UpsertTakesEffect(s.w, ids[n..], signature, attempts, s.rest);
      BatchesAdd(w, ids, n, signature);
    }
  }

  lemma BatchPoints(points: map<ChunkId, Point>, ids: seq<ChunkId>, a: seq<ChunkId>, b: seq<ChunkId>, signature: string)
    requires forall c :: c in ids <==> c in a || c in b
    ensures (points + map c | c in a :: Point(c.doc, c.revision, signature))
            + (map c | c in b :: Point(c.doc, c.revision, signature))
            == points + map c | c in ids :: Point(c.doc, c.revision, signature)
  {
  }

  lemma BatchesAdd(w: World, ids: seq<ChunkId>, n: nat, signature: string)
    requires n <= |ids|
    ensures Apply(Apply(w, UpsertBatch(ids[..n], signature)), UpsertBatch(ids[n..], signature))
            == Apply(w, UpsertBatch(ids, signature))
  {
    assert forall c :: c in ids <==> c in ids[..n] || c in ids[n..] by {
      assert ids == ids[..n] + ids[n..];
    }
    BatchPoints(w.points, ids, ids[..n], ids[n..], signature);
  }

  // ---- one file ----

  lemma HandlerKeepsInv(ex: Extraction, w: World, doc: string, replacing: bool, attempts: nat, script: seq<Fault>,
                        exempt: set<string>)
    requires attempts >= 1 && Inv(ex, w, exempt) && (replacing ==> Busy(w, doc))
    ensures Inv(ex, HandleFailure(w, doc, replacing, attempts, script).w, exempt)
  {
    if replacing {
      WriteKeepsInv(ex, w, DeleteDocument(doc), doc, attempts, script, exempt);
    }
    var s := if replacing then WriteWithRetry(w, DeleteDocument(doc), attempts, script) else Step(w, script, Done);
    if doc in s.w.docs {
      BusyRecord(ex, s.w, doc, s.w.docs[doc].(status := Failed), exempt);
    }
  }

  lemma RecoverKeepsInv(ex: Extraction, s: Step, f: File, attempts: nat, exempt: set<string>)
    requires attempts >= 1 && Inv(ex, s.w, exempt) && Busy(s.w, f.id)
    ensures Inv(ex, Recover(s, f, attempts).w, exempt)
  {
    if s.ended != Died {
      HandlerKeepsInv(ex, s.w, f.id, true, attempts, s.rest, exempt);
    }
  }

  /** The stores right before the final record: exactly the new chunks, in both. */
  function Rewritten(w: World, f: File, signature: string): World {
    ReplaceChunks(Apply(Apply(w, DeleteDocument(f.id)), UpsertBatch(ChunkIds(f), signature)), f.id, ChunkIds(f))
  }

  /** The final record of a file. */
  predicate Finished(r: Record, f: File, signature: string) {
    r.revision == f.revision && r.indexedRevision == Some(f.revision) && r.signature == Some(signature)
    && r.status == Indexed
  }

  lemma RewrittenHolds(w: World, f: File, signature: string)
    requires WellFormed(w)
    ensures RowsAre(Rewritten(w, f, signature), f.id, ChunkIds(f))
    ensures PointsAre(Rewritten(w, f, signature), f.id, ChunkIds(f), Point(f.id, f.revision, signature))
  {
  }

  lemma RewrittenComplete(ex: Extraction, w: World, f: File, finished: Record, signature: string)
    requires WellFormed(w) && Finished(finished, f, signature) && Faithful(ex, f, signature) && ChunkIds(f) != []
    ensures Complete(ex, UpsertRecord(Rewritten(w, f, signature), f.id, finished), f.id)
  {
    hide Rewritten;
    RewrittenHolds(w, f, signature);
    assert Expected(ex, f.id, finished) == ChunkIds(f);
  }

  lemma FinishKeepsInv(ex: Extraction, w: World, f: File, finished: Record, signature: string, exempt: set<string>)
    requires WellFormed(w) && Inv(ex, Rewritten(w, f, signature), exempt)
    requires Finished(finished, f, signature) && Faithful(ex, f, signature) && ChunkIds(f) != []
    ensures Inv(ex, UpsertRecord(Rewritten(w, f, signature), f.id, finished), exempt)
  {
    RewrittenComplete(ex, w, f, finished, signature);
    RecordChange(ex, Rewritten(w, f, signature), f.id, finished, exempt);
  }

  lemma ReplaceKeepsInv(ex: Extraction, w: World, f: File, finished: Record, signature: string, attempts: nat,
                        script: seq<Fault>, exempt: set<string>)
    requires attempts >= 1 && Inv(ex, w, exempt) && Busy(w, f.id)
    requires Finished(finished, f, signature) && Faithful(ex, f, signature) && ChunkIds(f) != []
    ensures Inv(ex, ReplaceDocument(w, f, finished, signature, attempts, script).w, exempt)
  {
    var ids := ChunkIds(f);
    var s1 := WriteWithRetry(w, DeleteDocument(f.id), attempts, script);
    WriteKeepsInv(ex, w, DeleteDocument(f.id), f.id, attempts, script, exempt);
    if s1.ended != Done {
      RecoverKeepsInv(ex, s1, f, attempts, exempt);
    } else if !f.prepared.Chunks? || !f.prepared.vectorsMatch {
      HandlerKeepsInv(ex, s1.w, f.id, true, attempts, s1.rest, exempt);
    } else {
      WriteTakesEffect(w, DeleteDocument(f.id), attempts, script);
      UpsertKeepsInv(ex, s1.w, ids, signature, f.id, attempts, s1.rest, exempt);
      var s2 := UpsertAll(s1.w, ids, signature, attempts, s1.rest);
      if s2.ended != Done {
        RecoverKeepsInv(ex, s2, f, attempts, exempt);
      } else {
        UpsertTakesEffect(s1.w, ids, signature, attempts, s1.rest);
        FinalWritesKeepInv(ex, w, s2, f, finished, signature, attempts, exempt);
      }
    }
  }

  lemma RowsTouch(w: World, f: File)
    requires WellFormed(w)
    ensures OnlyTouches(w, ReplaceChunks(w, f.id, ChunkIds(f)), f.id)
  {
  }

  /** After death nothing more is done. */
  lemma RecoverOfDead(s: Step, f: File, attempts: nat)
    requires attempts >= 1
    ensures s.ended == Died ==> Recover(s, f, attempts).w == s.w
  {
  }

  lemma FinalWritesKeepInv(ex: Extraction, w: World, s2: Step, f: File, finished: Record, signature: string,
                           attempts: nat, exempt: set<string>)
    requires attempts >= 1 && WellFormed(w) && Inv(ex, s2.w, exempt) && Busy(s2.w, f.id)
    requires s2.w == Apply(Apply(w, DeleteDocument(f.id)), UpsertBatch(ChunkIds(f), signature))
    requires Finished(finished, f, signature) && Faithful(ex, f, signature) && ChunkIds(f) != []
    ensures var s3 := Commit(s2.w, ReplaceChunks(s2.w, f.id, ChunkIds(f)), s2.rest);
            var s4 := Commit(s3.w, UpsertRecord(s3.w, f.id, finished), s3.rest);
            && (s3.ended != Done ==> Inv(ex, Recover(s3, f, attempts).w, exempt))
            && (s3.ended == Done && s4.ended != Done ==> Inv(ex, Recover(s4, f, attempts).w, exempt))
            && (s3.ended == Done && s4.ended == Done ==> Inv(ex, s4.w, exempt))
  {
    hide Recover, Inv, Apply;
    var rows := ReplaceChunks(s2.w, f.id, ChunkIds(f));
    InvWellFormed(ex, s2.w, exempt);
    RowsTouch(s2.w, f);
    BusyDocMayChange(ex, s2.w, rows, f.id, exempt);
    var s3 := Commit(s2.w, rows, s2.rest);
    var s4 := Commit(s3.w, UpsertRecord(s3.w, f.id, finished), s3.rest);
    if s3.ended != Done {
      RecoverKeepsInv(ex, s3, f, attempts, exempt);
    } else {
      FinishKeepsInv(ex, w, f, finished, signature, exempt);
      if s4.ended == Raised(true) || s4.ended == Raised(false) {
        RecoverKeepsInv(ex, s4, f, attempts, exempt);
      } else {
        RecoverOfDead(s4, f, attempts);
      }
    }
  }

  lemma SkipKeepsInv(ex: Extraction, w: World, f: File, attempts: nat, script: seq<Fault>, exempt: set<string>)
    requires attempts >= 1 && Inv(ex, w, exempt) && f.id in w.docs
    ensures Inv(ex, SkipFile(w, f, attempts, script).w, exempt)
  {
    var r := w.docs[f.id];
    var r' := r.(path := f.path, relative := f.relative);
    SameStatusRecord(ex, w, f.id, r', exempt);
    var s := Commit(w, UpsertRecord(w, f.id, r'), script);
    if s.ended.Raised? {
      HandlerKeepsInv(ex, s.w, f.id, false, attempts, s.rest, exempt);
    }
  }

  lemma SameStatusRecord(ex: Extraction, w: World, doc: string, r: Record, exempt: set<string>)
    requires Inv(ex, w, exempt) && doc in w.docs
    requires r == w.docs[doc].(path := r.path, relative := r.relative)
    ensures Inv(ex, UpsertRecord(w, doc, r), exempt)
  {
    AlikeOk(ex, w, UpsertRecord(w, doc, r), doc, exempt);
    RecordChange(ex, w, doc, r, exempt);
  }

  lemma FileKeepsInv(ex: Extraction, w: World, f: File, signature: string, fast: bool, attempts: nat,
                     script: seq<Fault>, exempt: set<string>)
    requires attempts >= 1 && Inv(ex, w, exempt) && Faithful(ex, f, signature)
    ensures Inv(ex, ProcessFile(w, f, signature, fast, attempts, script).w, exempt)
  {
    var previous := Previous(w, f.id);
    if f.prepared.EarlyFailure? {
      HandlerKeepsInv(ex, w, f.id, false, attempts, script, exempt);
    } else if CanSkip(previous, f, signature, fast) {
      SkipKeepsInv(ex, w, f, attempts, script, exempt);
    } else {
      var started := StartedRecord(previous, f, signature);
      BusyRecord(ex, w, f.id, started, exempt);
      var s := Commit(w, UpsertRecord(w, f.id, started), script);
      if s.ended == Died {
      } else if s.ended.Raised? || ChunkIds(f) == [] {
        HandlerKeepsInv(ex, s.w, f.id, false, attempts, s.rest, exempt);
      } else {
        ReplaceKeepsInv(ex, s.w, f, FinishedRecord(previous, f, signature), signature, attempts, s.rest, exempt);
      }
    }
  }

  /** The file loop: for every script of faults and every point of death, an indexed document
      has exactly the chunks of its revision and signature as rows and as points. */
  lemma {:induction false} LoopKeepsInv(ex: Extraction, w: World, files: seq<File>, signature: string, fast: bool,
                                        attempts: nat, script: seq<Fault>, exempt: set<string>)
    requires attempts >= 1 && Inv(ex, w, exempt) && forall f :: f in files ==> Faithful(ex, f, signature)
    ensures Inv(ex, ProcessFiles(w, files, signature, fast, attempts, script).w, exempt)
    decreases |files|
  {
    if files != [] {
      var o := ProcessFile(w, files[0], signature, fast, attempts, script);
      FileKeepsInv(ex, w, files[0], signature, fast, attempts, script, exempt);
      LoopKeepsInv(ex, o.w, files[1..], signature, fast, attempts, o.rest, exempt);
    }
  }
}
