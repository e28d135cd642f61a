/** The two kinds of state that runs without faults do not repair at once are reached by two builds
    each. */
module IndexMasked {
  import opened Common
  import opened Stores
  import opened Indexing
  import opened IndexSafety
  import opened IndexRecovery
  import opened IndexRerun

  /** A one-chunk file under its own path. */
  function OneChunk(id: string, relative: string): File {
    File(id, "/source/" + relative, relative, 1, 1, "r", Chunks([(0, 1)], true))
  }

  function OnlyId(f: File): ChunkId {
    ChunkId(f.id, f.revision, 0, 0, 1)
  }

  function OnlyPoint(f: File): Point {
    Point(f.id, f.revision, "g")
  }

  function CurrentRecord(f: File): Record {
    Record(f.path, f.relative, f.size, f.mtime, f.revision, Indexed, Some(f.revision), Some("g"))
  }

  /** First build: every write of `a` succeeds; the rows of `b` are not written after its points
      were, and those points cannot be cleaned up. */
  function FirstRun(a: File, b: File): Run {
    Run([a, b], "g", false, [], 1, AllFine(AllLost([])))
  }

  function AllFine(tail: seq<Fault>): seq<Fault> {
    [Fine] + ([Fine] + ([Fine] + ([Fine] + ([Fine] + tail))))
  }

  function AllLost(tail: seq<Fault>): seq<Fault> {
    [Fine] + ([Fine] + ([Fine] + ([Lost(false)] + ([Lost(false)] + tail))))
  }

  /** Second build: both files are gone, and the process dies right after deleting the points of
      `a`. */
  function SecondRun(a: File, b: File): Run {
    Run([], "g", true, [a.id, b.id], 1, [DieAfter])
  }

  function OnlyFirst(a: File): World {
    World(map[a.id := CurrentRecord(a)], {OnlyId(a)}, map[OnlyId(a) := OnlyPoint(a)])
  }

  function AfterFirst(a: File, b: File): World {
    World(map[a.id := CurrentRecord(a), b.id := CurrentRecord(b).(status := Failed, indexedRevision := None)],
          {OnlyId(a)}, map[OnlyId(a) := OnlyPoint(a), OnlyId(b) := OnlyPoint(b)])
  }

  function AfterSecond(a: File, b: File): World {
    AfterFirst(a, b).(points := map[OnlyId(b) := OnlyPoint(b)])
  }

  // ---- single writes ----

  lemma FineCommit(w: World, w': World, tail: seq<Fault>)
    ensures Commit(w, w', [Fine] + tail) == Step(w', tail, Done)
  {
  }

  lemma LostCommit(w: World, w': World, tail: seq<Fault>)
    ensures Commit(w, w', [Lost(false)] + tail) == Step(w, tail, Raised(false))
  {
  }

  lemma FineWrite(w: World, e: Write, tail: seq<Fault>)
    ensures WriteWithRetry(w, e, 1, [Fine] + tail) == Step(Apply(w, e), tail, Done)
  {
  }

  lemma LostWrite(w: World, e: Write, tail: seq<Fault>)
    ensures WriteWithRetry(w, e, 1, [Lost(false)] + tail) == Step(w, tail, Raised(false))
  {
  }

  lemma FineUpsert(w: World, id: ChunkId, tail: seq<Fault>)
    ensures UpsertAll(w, [id], "g", 1, [Fine] + tail) == Step(Apply(w, UpsertBatch([id], "g")), tail, Done)
  {
    assert [id][..1] == [id] && [id][1..] == [];
    FineWrite(w, UpsertBatch([id], "g"), tail);
  }

  // ---- the first build ----

  function Upserted(w: World, f: File): World {
    Apply(Apply(w, DeleteDocument(f.id)), UpsertBatch([OnlyId(f)], "g"))
  }

  lemma GoodReplace(w: World, f: File, finished: Record, tail: seq<Fault>)
    requires f == OneChunk(f.id, f.relative)
    ensures ReplaceDocument(w, f, finished, "g", 1, [Fine] + ([Fine] + ([Fine] + ([Fine] + tail))))
            == Outcome(UpsertRecord(ReplaceChunks(Upserted(w, f), f.id, [OnlyId(f)]), f.id, finished), tail, IndexedNow)
  {
    hide Apply, ReplaceChunks, UpsertRecord, WriteWithRetry, UpsertAll, Commit;
    assert ChunkIds(f) == [OnlyId(f)];
    FineWrite(w, DeleteDocument(f.id), [Fine] + ([Fine] + ([Fine] + tail)));
    FineUpsert(Apply(w, DeleteDocument(f.id)), OnlyId(f), [Fine] + ([Fine] + tail));
    var w3 := Upserted(w, f);
    var w4 := ReplaceChunks(w3, f.id, [OnlyId(f)]);
    FineCommit(w3, w4, [Fine] + tail);
    FineCommit(w4, UpsertRecord(w4, f.id, finished), tail);
  }

  lemma FailedReplace(w: World, f: File, finished: Record, tail: seq<Fault>)
    requires f == OneChunk(f.id, f.relative) && tail == [Lost(false)] + ([Lost(false)] + [])
    requires f.id in Upserted(w, f).docs
    ensures ReplaceDocument(w, f, finished, "g", 1, [Fine] + ([Fine] + tail)) ==
            var w3 := Upserted(w, f);
            Outcome(UpsertRecord(w3, f.id, w3.docs[f.id].(status := Failed)), [], FailedNow)
  {
    hide Apply, ReplaceChunks, UpsertRecord, WriteWithRetry, UpsertAll;
    assert ChunkIds(f) == [OnlyId(f)];
    FineWrite(w, DeleteDocument(f.id), [Fine] + tail);
    FineUpsert(Apply(w, DeleteDocument(f.id)), OnlyId(f), tail);
    var w3 := Upserted(w, f);
    LostCommit(w3, ReplaceChunks(w3, f.id, [OnlyId(f)]), [Lost(false)] + []);
    LostWrite(w3, DeleteDocument(f.id), []);
  }

  lemma Starts(w: World, f: File, fast: bool, script: seq<Fault>)
    requires f == OneChunk(f.id, f.relative) && f.id !in w.docs
    ensures ProcessFile(w, f, "g", fast, 1, [Fine] + script)
            == ReplaceDocument(UpsertRecord(w, f.id, StartedRecord(None, f, "g")), f, FinishedRecord(None, f, "g"),
                               "g", 1, script)
  {
    hide ReplaceDocument, UpsertRecord, Commit;
    assert ChunkIds(f) == [OnlyId(f)];
    FineCommit(w, UpsertRecord(w, f.id, StartedRecord(None, f, "g")), script);
  }

  lemma FirstFile(a: File, fast: bool, tail: seq<Fault>)
    requires a == OneChunk(a.id, a.relative)
    ensures ProcessFile(NEW, a, "g", fast, 1, AllFine(tail)) == Outcome(OnlyFirst(a), tail, IndexedNow)
  {
    hide ProcessFile, ReplaceDocument;
    var started := UpsertRecord(NEW, a.id, StartedRecord(None, a, "g"));
    Starts(NEW, a, fast, [Fine] + ([Fine] + ([Fine] + ([Fine] + tail))));
    GoodReplace(started, a, FinishedRecord(None, a, "g"), tail);
    FirstWorld(a);
  }

  lemma FirstWorld(a: File)
    requires a == OneChunk(a.id, a.relative)
    ensures var w := Upserted(UpsertRecord(NEW, a.id, StartedRecord(None, a, "g")), a);
            UpsertRecord(ReplaceChunks(w, a.id, [OnlyId(a)]), a.id, FinishedRecord(None, a, "g")) == OnlyFirst(a)
  {
    var w := Upserted(UpsertRecord(NEW, a.id, StartedRecord(None, a, "g")), a);
    assert w.docs[a.id := CurrentRecord(a)] == OnlyFirst(a).docs;
    assert ReplaceChunks(w, a.id, [OnlyId(a)]).chunks == OnlyFirst(a).chunks;
    assert w.points == OnlyFirst(a).points;
  }

  lemma SecondFile(a: File, b: File, fast: bool)
    requires a == OneChunk(a.id, a.relative) && b == OneChunk(b.id, b.relative) && a.id != b.id
    ensures ProcessFile(OnlyFirst(a), b, "g", fast, 1, AllLost([])) == Outcome(AfterFirst(a, b), [], FailedNow)
  {
    hide ProcessFile, ReplaceDocument;
    var tail: seq<Fault> := [Lost(false)] + ([Lost(false)] + []);
    var started := UpsertRecord(OnlyFirst(a), b.id, StartedRecord(None, b, "g"));
    Starts(OnlyFirst(a), b, fast, [Fine] + ([Fine] + tail));
    SecondWorld(a, b);
    FailedReplace(started, b, FinishedRecord(None, b, "g"), tail);
  }

  lemma SecondWorld(a: File, b: File)
    requires a == OneChunk(a.id, a.relative) && b == OneChunk(b.id, b.relative) && a.id != b.id
    ensures var w := Upserted(UpsertRecord(OnlyFirst(a), b.id, StartedRecord(None, b, "g")), b);
            b.id in w.docs && UpsertRecord(w, b.id, w.docs[b.id].(status := Failed)) == AfterFirst(a, b)
  {
    var w := Upserted(UpsertRecord(OnlyFirst(a), b.id, StartedRecord(None, b, "g")), b);
    assert w.docs[b.id := w.docs[b.id].(status := Failed)] == AfterFirst(a, b).docs;
    assert w.points == AfterFirst(a, b).points;
  }

  lemma FirstBuild(a: File, b: File)
    requires a == OneChunk(a.id, a.relative) && b == OneChunk(b.id, b.relative) && a.id != b.id
    ensures After(NEW, FirstRun(a, b)).w == AfterFirst(a, b)
  {
    hide ProcessFile, AllFine, AllLost, AfterFirst, OnlyFirst;
    var fast := CountsAgree(NEW, "g");
    FirstFile(a, fast, AllLost([]));
    SecondFile(a, b, fast);
    assert [a, b][1..] == [b] && [b][1..] == [];
    assert ProcessFiles(OnlyFirst(a), [b], "g", fast, 1, AllLost([])).w == AfterFirst(a, b);
  }

  // ---- the second build ----

  lemma SecondBuild(a: File, b: File)
    requires a == OneChunk(a.id, a.relative) && b == OneChunk(b.id, b.relative) && a.id != b.id
    ensures After(AfterFirst(a, b), SecondRun(a, b)).w == AfterSecond(a, b)
  {
    var w := AfterFirst(a, b);
    assert ToPrune(w, {}, a.id);
    assert Seen([]) == {};
    var s := WriteWithRetry(w, DeleteDocument(a.id), 1, [DieAfter]);
    assert s.ended == Died;
    assert s.w.points == AfterSecond(a, b).points;
    assert PruneOne(w, a.id, 1, [DieAfter]) == s;
  }

  // ---- what the two builds leave ----

  lemma CountsMatch(a: File, b: File)
    requires a == OneChunk(a.id, a.relative) && b == OneChunk(b.id, b.relative) && a.id != b.id
    ensures CountsAgree(AfterSecond(a, b), "g")
  {
    var w := AfterSecond(a, b);
    assert ManifestRows(w, "g") == {OnlyId(a)};
    assert SignaturePoints(w, "g") == {OnlyId(b)};
  }

  lemma LossHidden(a: File, b: File)
    requires a == OneChunk(a.id, a.relative) && b == OneChunk(b.id, b.relative) && a.id != b.id
    ensures TornFile(AfterSecond(a, b), a, "g")
  {
    hide AfterFirst;
    assert ChunkIds(a) == [OnlyId(a)];
    TornStores(a, b);
  }

  lemma TornStores(a: File, b: File)
    requires a.id != b.id
    ensures var w := AfterSecond(a, b);
            && Previous(w, a.id) == Some(CurrentRecord(a)) && RowsAre(w, a.id, [OnlyId(a)]) && NoPoints(w, a.id)
  {
  }

  /** Every revision has one chunk. */
  function OneEach(): Extraction {
    (_, _, _) => [(0, 1)]
  }

  lemma ReachedInv(a: File, b: File)
    requires a == OneChunk(a.id, a.relative) && b == OneChunk(b.id, b.relative) && a.id != b.id
    ensures exists exempt :: Inv(OneEach(), AfterSecond(a, b), exempt)
  {
    hide Inv, AfterSecond, History, Damaged;
    var runs := [FirstRun(a, b), SecondRun(a, b)];
    TwoBuilds(a, b);
    HistoryKeepsInv(OneEach(), runs);
    assert Inv(OneEach(), AfterSecond(a, b), Damaged(runs));
  }

  /** Two builds lead from empty stores to a lost point of `a` and a stray point of `b`, which
      cancel in the totals. A faultless pruning run that finds `a` unchanged then leaves it
      indexed with its point missing; one more such run repairs it. */
  lemma MaskedLoss(a: File, b: File, attempts: nat)
    requires attempts >= 1 && a.relative != b.relative && a.id != b.id
    requires a == OneChunk(a.id, a.relative) && b == OneChunk(b.id, b.relative)
    ensures var w := History([FirstRun(a, b), SecondRun(a, b)]);
            var s := Build(w, [a], "g", true, [a.id, b.id], attempts, []);
            && CountsAgree(w, "g") && TornFile(w, a, "g")
            && s.ended == Done && !Recovered(s.w, [a], "g")
            && Recovered(Build(s.w, [a], "g", true, [a.id, b.id], attempts, []).w, [a], "g")
  {
    hide Inv, CountsAgree, TornFile, Build, Recovered, History, AfterSecond;
    TwoBuilds(a, b);
    CountsMatch(a, b);
    LossHidden(a, b);
    ReachedInv(a, b);
    var exempt :| Inv(OneEach(), AfterSecond(a, b), exempt);
    SecondDocs(a, b);
    Unrepaired(OneEach(), AfterSecond(a, b), a, b, attempts, exempt);
  }

  lemma SecondDocs(a: File, b: File)
    ensures AfterSecond(a, b).docs.Keys == {a.id, b.id}
  {
  }

  lemma TwoBuilds(a: File, b: File)
    requires a == OneChunk(a.id, a.relative) && b == OneChunk(b.id, b.relative) && a.id != b.id
    ensures History([FirstRun(a, b), SecondRun(a, b)]) == AfterSecond(a, b)
  {
    hide After, AfterFirst, AfterSecond, FirstRun, SecondRun;
    var one := [FirstRun(a, b)];
    assert FirstRun(a, b).attempts == 1 && SecondRun(a, b).attempts == 1 by {
      Attempts(a, b);
    }
    assert [FirstRun(a, b), SecondRun(a, b)][..1] == one && one[..0] == [];
    FirstBuild(a, b);
    SecondBuild(a, b);
    assert History(one) == AfterFirst(a, b);
  }

  lemma Attempts(a: File, b: File)
    ensures FirstRun(a, b).attempts == 1 && SecondRun(a, b).attempts == 1
  {
  }

  lemma Unrepaired(ex: Extraction, w: World, a: File, b: File, attempts: nat, exempt: set<string>)
    requires attempts >= 1 && Inv(ex, w, exempt) && w.docs.Keys == {a.id, b.id}
    requires Preparable(a) && Faithful(ex, a, "g")
    requires CountsAgree(w, "g") && TornFile(w, a, "g")
    ensures var s := Build(w, [a], "g", true, [a.id, b.id], attempts, []);
            && s.ended == Done && !Recovered(s.w, [a], "g")
            && Recovered(Build(s.w, [a], "g", true, [a.id, b.id], attempts, []).w, [a], "g")
  {
    hide Inv, CountsAgree, TornFile, EmptiedFile, Build, Recovered;
    var files, order := [a], [a.id, b.id];
    assert a in files;
    CleanRunRecovers(ex, w, files, "g", order, attempts, exempt);
    BuildDocs(ex, w, files, "g", order, attempts, exempt);
    SameRunTwice(ex, w, files, "g", order, order, attempts, exempt);
  }

  lemma BuildDocs(ex: Extraction, w: World, files: seq<File>, signature: string, order: seq<string>, attempts: nat,
                  exempt: set<string>)
    requires attempts >= 1 && Inv(ex, w, exempt) && Runnable(ex, w, files, signature, order)
    ensures Build(w, files, signature, true, order, attempts, []).w.docs.Keys <= w.docs.Keys + Seen(files)
  {
    hide Inv, CountsAgree;
    var fast := CountsAgree(w, signature);
    LoopDocs(w, files, signature, fast, attempts, []);
    CleanLoop(ex, w, files, signature, fast, attempts, exempt);
    CleanRemove(ex, ProcessFiles(w, files, signature, fast, attempts, []).w, Seen(files), order, attempts, exempt);
  }

  // ---- an emptied document ----

  /** A build of `a` in which every write succeeds. */
  function WholeRun(a: File): Run {
    Run([a], "g", false, [], 1, AllFine([]))
  }

  /** A build that does not find `a`, whose process dies right after deleting its rows. */
  function EmptyingRun(a: File): Run {
    Run([], "g", true, [a.id], 1, [Fine, DieAfter])
  }

  function OnlyRecord(a: File): World {
    World(map[a.id := CurrentRecord(a)], {}, map[])
  }

  lemma WholeBuild(a: File)
    requires a == OneChunk(a.id, a.relative)
    ensures After(NEW, WholeRun(a)).w == OnlyFirst(a)
  {
    hide ProcessFile, AllFine, OnlyFirst;
    var fast := CountsAgree(NEW, "g");
    FirstFile(a, fast, []);
    assert [a][0] == a && [a][1..] == [];
    assert ProcessFiles(OnlyFirst(a), [], "g", fast, 1, []) == Step(OnlyFirst(a), [], Done);
    assert ProcessFiles(NEW, [a], "g", fast, 1, AllFine([])) == Step(OnlyFirst(a), [], Done);
  }

  lemma EmptyingBuild(a: File)
    ensures After(OnlyFirst(a), EmptyingRun(a)).w == OnlyRecord(a)
  {
    var w := OnlyFirst(a);
    assert ToPrune(w, {}, a.id);
    assert Seen([]) == {};
    assert [Fine, DieAfter] == [Fine] + [DieAfter];
    FineWrite(w, DeleteDocument(a.id), [DieAfter]);
    var w1 := Unpointed(w, a.id);
    assert w1.points == map[];
    assert Commit(w1, Cleared(w, a.id), [DieAfter]) == Step(Cleared(w, a.id), [], Died);
    assert Cleared(w, a.id).chunks == {};
    assert PruneOne(w, a.id, 1, [Fine, DieAfter]) == Step(OnlyRecord(a), [], Died);
  }

  lemma EmptyingHistory(a: File)
    requires a == OneChunk(a.id, a.relative)
    ensures History([WholeRun(a), EmptyingRun(a)]) == OnlyRecord(a)
  {
    hide After, OnlyFirst, OnlyRecord, AllFine;
    var one := [WholeRun(a)];
    assert [WholeRun(a), EmptyingRun(a)][..1] == one && one[..0] == [];
    WholeBuild(a);
    EmptyingBuild(a);
    assert History(one) == OnlyFirst(a);
  }

  lemma EmptiedStores(a: File)
    requires a == OneChunk(a.id, a.relative)
    ensures var w := OnlyRecord(a);
            && CountsAgree(w, "g") && EmptiedFile(w, a, "g") && Registered(w, a, "g") && !Held(w, a, "g")
  {
    var w := OnlyRecord(a);
    assert ManifestRows(w, "g") == {} && SignaturePoints(w, "g") == {};
    assert ChunkIds(a) == [OnlyId(a)];
    assert OnlyId(a) in ChunkIds(a) && OnlyId(a) !in w.chunks;
  }

  /** A whole build of `a`, then a build that does not find it and dies between its rows and its
      record, lead from empty stores to a record that says `a` is indexed, with nothing in either
      store. Found again unchanged, `a` is skipped by every later build. */
  lemma EmptiedLoss(a: File, prune: bool, order: seq<string>, attempts: nat, script: seq<Fault>)
    requires attempts >= 1 && a == OneChunk(a.id, a.relative)
    ensures var w := History([WholeRun(a), EmptyingRun(a)]);
            && CountsAgree(w, "g") && EmptiedFile(w, a, "g") && !Recovered(w, [a], "g")
            && Build(w, [a], "g", prune, order, attempts, script) == Step(w, script, Done)
  {
    hide History, Build, CountsAgree, EmptiedFile, Held, Registered;
    EmptyingHistory(a);
    EmptiedStores(a);
    assert a in [a] && a.id in Seen([a]);
    IdleBuild(OnlyRecord(a), [a], "g", prune, order, attempts, script);
  }
}
