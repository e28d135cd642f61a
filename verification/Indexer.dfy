/** The incremental index build as a protocol of failing writes. */
module Indexing {
  import opened Common
  import opened Stores

  /** What preparing a file's content comes to: a failure before or after its record is
      written, or chunk extents together with whether the embedder returned one vector each. */
  datatype Preparation = EarlyFailure | LateFailure | Chunks(extents: seq<(nat, nat)>, vectorsMatch: bool)

  datatype File = File(id: string, path: string, relative: string, size: nat, mtime: int, revision: string,
                       prepared: Preparation)

  datatype Result = Skipped | IndexedNow | FailedNow | Aborted | Dead

  datatype Outcome = Outcome(w: World, rest: seq<Fault>, result: Result)

  function ExtentIds(doc: string, revision: string, extents: seq<(nat, nat)>): (ids: seq<ChunkId>)
    ensures forall c :: c in ids ==> c.doc == doc && c.revision == revision
    ensures |ids| == |extents|
  {
    seq(|extents|, i requires 0 <= i < |extents| => ChunkId(doc, revision, i, extents[i].0, extents[i].1))
  }

  function ChunkIds(f: File): (ids: seq<ChunkId>)
    ensures forall c :: c in ids ==> c.doc == f.id && c.revision == f.revision
  {
    if f.prepared.Chunks? then ExtentIds(f.id, f.revision, f.prepared.extents) else []
  }

  function Previous(w: World, doc: string): Option<Record> {
    if doc in w.docs then Some(w.docs[doc]) else None
  }

  /** The condition under which an unchanged file is not indexed again. */
  predicate CanSkip(previous: Option<Record>, f: File, signature: string, fast: bool) {
    && fast && previous.Some?
    && previous.value.size == f.size && previous.value.mtime == f.mtime
    && previous.value.status == Indexed
    && previous.value.indexedRevision == Some(f.revision)
    && previous.value.revision == f.revision
    && previous.value.signature == Some(signature)
  }

  /** The record written before extraction. */
  function StartedRecord(previous: Option<Record>, f: File, signature: string): Record {
    Record(f.path, f.relative, f.size, f.mtime, f.revision, Extracting,
           if previous.Some? then previous.value.indexedRevision else None, Some(signature))
  }

  function FinishedRecord(previous: Option<Record>, f: File, signature: string): Record {
    StartedRecord(previous, f, signature).(status := Indexed, indexedRevision := Some(f.revision))
  }

  /** The except branches: best-effort cleanup, then the record is marked failed. */
  function HandleFailure(w: World, doc: string, replacing: bool, attempts: nat, script: seq<Fault>): Outcome
    requires attempts >= 1
  {
    var s := if replacing then WriteWithRetry(w, DeleteDocument(doc), attempts, script) else Step(w, script, Done);
    if s.ended == Died then Outcome(s.w, s.rest, Dead)
    else if doc !in s.w.docs then Outcome(s.w, s.rest, FailedNow)
    else Settle(Commit(s.w, UpsertRecord(s.w, doc, s.w.docs[doc].(status := Failed)), s.rest))
  }

  /** A manifest write of the handler: when it raises, the exception leaves the loop. */
  function Settle(s: Step): Outcome {
    Outcome(s.w, s.rest, match s.ended case Done => FailedNow case Raised(_) => Aborted case Died => Dead)
  }

  /** One iteration of the file loop. */
  function ProcessFile(w: World, f: File, signature: string, fast: bool, attempts: nat, script: seq<Fault>): Outcome
    requires attempts >= 1
  {
    var previous := Previous(w, f.id);
    if f.prepared.EarlyFailure? then HandleFailure(w, f.id, false, attempts, script)
    else if CanSkip(previous, f, signature, fast) then SkipFile(w, f, attempts, script)
    else
      var s := Commit(w, UpsertRecord(w, f.id, StartedRecord(previous, f, signature)), script);
      if s.ended == Died then Outcome(s.w, s.rest, Dead)
      else if s.ended.Raised? || ChunkIds(f) == [] then HandleFailure(s.w, f.id, false, attempts, s.rest)
      else ReplaceDocument(s.w, f, FinishedRecord(previous, f, signature), signature, attempts, s.rest)
  }

  function SkipFile(w: World, f: File, attempts: nat, script: seq<Fault>): Outcome
    requires attempts >= 1 && f.id in w.docs
  {
    var r := w.docs[f.id];
    if r.path == f.path && r.relative == f.relative then Outcome(w, script, Skipped)
    else
      var s := Commit(w, UpsertRecord(w, f.id, r.(path := f.path, relative := f.relative)), script);
      match s.ended
      case Done => Outcome(s.w, s.rest, Skipped)
      case Raised(_) => HandleFailure(s.w, f.id, false, attempts, s.rest)
      case Died => Outcome(s.w, s.rest, Dead)
  }

  /** The writes from the Qdrant delete to the final record. */
  function ReplaceDocument(w: World, f: File, finished: Record, signature: string, attempts: nat,
                           script: seq<Fault>): Outcome
    requires attempts >= 1
  {
    var s1 := WriteWithRetry(w, DeleteDocument(f.id), attempts, script);
    if s1.ended != Done then Recover(s1, f, attempts)
    else if !f.prepared.Chunks? || !f.prepared.vectorsMatch then HandleFailure(s1.w, f.id, true, attempts, s1.rest)
    else
      var s2 := UpsertAll(s1.w, ChunkIds(f), signature, attempts, s1.rest);
      if s2.ended != Done then Recover(s2, f, attempts)
      else
        var s3 := Commit(s2.w, ReplaceChunks(s2.w, f.id, ChunkIds(f)), s2.rest);
        if s3.ended != Done then Recover(s3, f, attempts)
        else
          var s4 := Commit(s3.w, UpsertRecord(s3.w, f.id, finished), s3.rest);
          if s4.ended != Done then Recover(s4, f, attempts) else Outcome(s4.w, s4.rest, IndexedNow)
  }

  function Recover(s: Step, f: File, attempts: nat): Outcome
    requires attempts >= 1
  {
    if s.ended == Died then Outcome(s.w, s.rest, Dead) else HandleFailure(s.w, f.id, true, attempts, s.rest)
  }

  /** The file loop; it ends early when a handler raises or the process dies. */
  function ProcessFiles(w: World, files: seq<File>, signature: string, fast: bool, attempts: nat,
                        script: seq<Fault>): Step
    requires attempts >= 1
    decreases |files|
  {
    if files == [] then Step(w, script, Done)
    else
      var o := ProcessFile(w, files[0], signature, fast, attempts, script);
      match o.result
      case Aborted => Step(o.w, o.rest, Raised(false))
      case Dead => Step(o.w, o.rest, Died)
      case _ => ProcessFiles(o.w, files[1..], signature, fast, attempts, o.rest)
  }

  predicate ToPrune(w: World, seen: set<string>, doc: string) {
    doc in w.docs && doc !in seen && w.docs[doc].status != Deleted
  }

  function PrunedRecord(r: Record): Record {
    r.(status := Deleted, indexedRevision := None, signature := None)
  }

  /** Removing one record: points, then chunk rows, then the record's status. */
  function PruneOne(w: World, doc: string, attempts: nat, script: seq<Fault>): Step
    requires attempts >= 1 && doc in w.docs
  {
    var s1 := WriteWithRetry(w, DeleteDocument(doc), attempts, script);
    if s1.ended != Done then s1
    else
      var s2 := Commit(s1.w, ReplaceChunks(s1.w, doc, []), s1.rest);
      if s2.ended != Done then s2
      else Commit(s2.w, UpsertRecord(s2.w, doc, PrunedRecord(w.docs[doc])), s2.rest)
  }

  /** `_remove_missing` over the documents in `order`. */
  function RemoveMissing(w: World, seen: set<string>, order: seq<string>, attempts: nat, script: seq<Fault>): Step
    requires attempts >= 1
    decreases |order|
  {
    if order == [] then Step(w, script, Done)
    else if !ToPrune(w, seen, order[0]) then RemoveMissing(w, seen, order[1..], attempts, script)
    else
      var s := PruneOne(w, order[0], attempts, script);
      if s.ended == Done then RemoveMissing(s.w, seen, order[1..], attempts, s.rest) else s
  }

  function Seen(files: seq<File>): set<string> {
    set f | f in files :: f.id
  }

  /** A whole build: preflight counts, the file loop, and pruning when asked for. */
  function Build(w: World, files: seq<File>, signature: string, prune: bool, order: seq<string>, attempts: nat,
                 script: seq<Fault>): Step
    requires attempts >= 1
  {
    var s := ProcessFiles(w, files, signature, CountsAgree(w, signature), attempts, script);
    if s.ended == Done && prune then RemoveMissing(s.w, Seen(files), order, attempts, s.rest) else s
  }
}
