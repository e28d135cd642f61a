/** The two stores an index build steps over: the SQLite manifest and the Qdrant points. */
module Stores {
  import opened Common

  /** `uuid5` of document, revision, ordinal and extent: distinct inputs give distinct ids. */
  datatype ChunkId = ChunkId(doc: string, revision: string, ordinal: nat, start: nat, end: nat)

  datatype Status = Discovered | Extracting | Indexed | Failed | Deleted

  datatype Record = Record(path: string, relative: string, size: nat, mtime: int, revision: string,
                           status: Status, indexedRevision: Option<string>, signature: Option<string>)

  /** The payload fields of a point that the build relies on. */
  datatype Point = Point(doc: string, revision: string, signature: string)

  datatype World = World(docs: map<string, Record>, chunks: set<ChunkId>, points: map<ChunkId, Point>)

  // ---- effects of single writes ----

  /** `ManifestStore.upsert_document` */
  function UpsertRecord(w: World, doc: string, record: Record): World {
    w.(docs := w.docs[doc := record])
  }

  /** `ManifestStore.replace_chunks`, one transaction. */
  function ReplaceChunks(w: World, doc: string, ids: seq<ChunkId>): World {
    w.(chunks := (set c | c in w.chunks && c.doc != doc) + (set c | c in ids))
  }

  /** A Qdrant write: delete by document, or upsert one batch. */
  datatype Write = DeleteDocument(doc: string) | UpsertBatch(ids: seq<ChunkId>, signature: string)

  function Apply(w: World, e: Write): World {
    match e
    case DeleteDocument(doc) => w.(points := map c | c in w.points && w.points[c].doc != doc :: w.points[c])
    case UpsertBatch(ids, signature) =>
      w.(points := w.points + map c | c in ids :: Point(c.doc, c.revision, signature))
  }

  // ---- what can happen to a write ----

  /** `Lost` raises without effect, `Late` raises after the effect; a transient error may be
      retried. The process may die just before or just after the effect. */
  datatype Fault = Fine | Lost(transient: bool) | Late(transient: bool) | DieBefore | DieAfter

  datatype Ended = Done | Raised(transient: bool) | Died

  /** The stores after some writes, the faults still to come, and how the writes ended. */
  datatype Step = Step(w: World, rest: seq<Fault>, ended: Ended)

  /** The next fault of a script; past its end nothing fails. */
  function Next(script: seq<Fault>): Fault {
    if script == [] then Fine else script[0]
  }

  function Rest(script: seq<Fault>): (r: seq<Fault>)
    ensures |r| <= |script|
  {
    if script == [] then [] else script[1..]
  }

  /** One write from `w` to `w'`. */
  function Attempt(w: World, w': World, script: seq<Fault>): Step {
    match Next(script)
    case Fine => Step(w', Rest(script), Done)
    case Lost(t) => Step(w, Rest(script), Raised(t))
    case Late(t) => Step(w', Rest(script), Raised(t))
    case DieBefore => Step(w, Rest(script), Died)
    case DieAfter => Step(w', Rest(script), Died)
  }

  /** A manifest write is a transaction: when it raises it has not happened. */
  function Commit(w: World, w': World, script: seq<Fault>): Step {
    match Next(script)
    case Late(t) => Step(w, Rest(script), Raised(t))
    case _ => Attempt(w, w', script)
  }

  /** `_write_with_retry` with `attempts` tries left. */
  function WriteWithRetry(w: World, e: Write, attempts: nat, script: seq<Fault>): Step
    requires attempts >= 1
    decreases attempts
  {
    var s := Attempt(w, Apply(w, e), script);
    if s.ended == Raised(true) && attempts > 1 then WriteWithRetry(s.w, e, attempts - 1, s.rest) else s
  }

  const UPSERT_BATCH_SIZE := 512

  /** `QdrantStore.upsert`: batches in order, stopping at the first that fails. */
  function UpsertAll(w: World, ids: seq<ChunkId>, signature: string, attempts: nat, script: seq<Fault>): Step
    requires attempts >= 1
    decreases |ids|
  {
    if ids == [] then Step(w, script, Done)
    else
      var n := if |ids| < UPSERT_BATCH_SIZE then |ids| else UPSERT_BATCH_SIZE;
      var s := WriteWithRetry(w, UpsertBatch(ids[..n], signature), attempts, script);
      if s.ended == Done then UpsertAll(s.w, ids[n..], signature, attempts, s.rest) else s
  }

  // ---- the counts of the preflight ----

  /** Chunk rows of documents indexed under a signature. */
  function ManifestRows(w: World, signature: string): set<ChunkId> {
    set c | c in w.chunks && c.doc in w.docs && IsCurrent(w.docs[c.doc], signature)
  }

  predicate IsCurrent(r: Record, signature: string) {
    r.status == Indexed && r.signature == Some(signature) && r.indexedRevision == Some(r.revision)
  }

  /** Points that carry a signature. */
  function SignaturePoints(w: World, signature: string): set<ChunkId> {
    set c | c in w.points && w.points[c].signature == signature
  }

  /** `fast_skip_safe`: `indexed_chunk_count` equals `count_signature`. */
  predicate CountsAgree(w: World, signature: string) {
    |ManifestRows(w, signature)| == |SignaturePoints(w, signature)|
  }

  /** One more point counts exactly when it carries the signature. */
  lemma PointCounts(w: World, signature: string, c: ChunkId, p: Point)
    requires c !in w.points
    ensures |SignaturePoints(w.(points := w.points[c := p]), signature)|
            == |SignaturePoints(w, signature)| + if p.signature == signature then 1 else 0
  {
    var more := if p.signature == signature then {c} else {};
    var before, after := SignaturePoints(w, signature), SignaturePoints(w.(points := w.points[c := p]), signature);
    assert c !in before;
    forall x ensures x in after <==> x in before + more {
    }
    assert after == before + more;
  }

  /** One more chunk row counts exactly when its document is indexed as it is under the signature. */
  lemma RowCounts(w: World, signature: string, c: ChunkId)
    requires c !in w.chunks
    ensures |ManifestRows(w.(chunks := w.chunks + {c}), signature)|
            == |ManifestRows(w, signature)|
               + if c.doc in w.docs && w.docs[c.doc].status == Indexed && w.docs[c.doc].signature == Some(signature)
                    && w.docs[c.doc].indexedRevision == Some(w.docs[c.doc].revision) then 1 else 0
  {
    var more := if c.doc in w.docs && IsCurrent(w.docs[c.doc], signature) then {c} else {};
    var before, after := ManifestRows(w, signature), ManifestRows(w.(chunks := w.chunks + {c}), signature);
    assert c !in before;
    forall x ensures x in after <==> x in before + more {
    }
    assert after == before + more;
  }

  lemma SubsetSameSize<T>(a: set<T>, b: set<T>)
    requires a <= b
    ensures |a| <= |b|
    ensures |a| == |b| <==> a == b
  {
    assert b == a + (b - a);
    assert |b| == |a| + |b - a|;
    if |a| == |b| {
      assert |b - a| == 0;
      assert b - a == {};
    }
  }
}
