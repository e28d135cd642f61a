/** Pruning, whole runs, the count test, and recovery by a run without faults. */
module IndexRecovery {
  import opened Common
  import opened Stores
  import opened Indexing
  import opened IndexSafety

  // ---- pruning one record, write by write ----

  function Unpointed(w: World, doc: string): World {
    Apply(w, DeleteDocument(doc))
  }

  function Cleared(w: World, doc: string): World {
    ReplaceChunks(Unpointed(w, doc), doc, [])
  }

  function Pruned(w: World, doc: string): World
    requires doc in w.docs
  {
    UpsertRecord(Cleared(w, doc), doc, PrunedRecord(w.docs[doc]))
  }

  /** Some attempt of a retried write takes effect. */
  predicate TakesEffect(attempts: nat, script: seq<Fault>)
    decreases attempts
  {
    match Next(script)
    case Fine => true
    case Late(_) => true
    case DieAfter => true
    case DieBefore => false
    case Lost(transient) => transient && attempts > 1 && TakesEffect(attempts - 1, Rest(script))
  }

  /** The last attempt of a retried write succeeds. */
  predicate Succeeds(attempts: nat, script: seq<Fault>)
    decreases attempts
  {
    match Next(script)
    case Fine => true
    case Lost(transient) => transient && attempts > 1 && Succeeds(attempts - 1, Rest(script))
    case Late(transient) => transient && attempts > 1 && Succeeds(attempts - 1, Rest(script))
    case _ => false
  }

  /** The faults left over after the attempts of a retried write. */
  function Remaining(attempts: nat, script: seq<Fault>): seq<Fault>
    decreases attempts
  {
    if attempts > 1 && (Next(script) == Lost(true) || Next(script) == Late(true)) then
      Remaining(attempts - 1, Rest(script))
    else Rest(script)
  }

  /** A manifest write is committed. */
  predicate Commits(script: seq<Fault>) {
    Next(script) == Fine || Next(script) == DieAfter
  }

  lemma {:induction false} RetriedWrite(w: World, e: Write, attempts: nat, script: seq<Fault>)
    requires attempts >= 1
    ensures var s := WriteWithRetry(w, e, attempts, script);
            && s.w == (if TakesEffect(attempts, script) then Apply(w, e) else w)
            && (s.ended == Done <==> Succeeds(attempts, script))
            && s.rest == Remaining(attempts, script)
    ensures Succeeds(attempts, script) ==> TakesEffect(attempts, script)
    decreases attempts
  {
    ApplyTwice(w, e);
    var s := Attempt(w, Apply(w, e), script);
    if s.ended == Raised(true) && attempts > 1 {
      RetriedWrite(s.w, e, attempts - 1, s.rest);
    }
  }

  /** The faults that stop the pruning of a record between the removal of its points and that
      of its rows. */
  predicate TornPrune(attempts: nat, script: seq<Fault>) {
    TakesEffect(attempts, script) && !(Succeeds(attempts, script) && Commits(Remaining(attempts, script)))
  }

  /** The faults that stop it between the removal of its rows and the change of its record. */
  predicate EmptiedPrune(attempts: nat, script: seq<Fault>) {
    var left := Remaining(attempts, script);
    Succeeds(attempts, script) && Commits(left) && !(Next(left) == Fine && Commits(Rest(left)))
  }

  /** The pruning of a record is stopped after its points and before its record. */
  predicate HalfPruned(attempts: nat, script: seq<Fault>) {
    TornPrune(attempts, script) || EmptiedPrune(attempts, script)
  }

  predicate IsIndexed(w: World, doc: string) {
    doc in w.docs && w.docs[doc].status == Indexed
  }

  lemma PruneOneWorld(w: World, doc: string, attempts: nat, script: seq<Fault>)
    requires attempts >= 1 && doc in w.docs
    ensures var s := PruneOne(w, doc, attempts, script);
            && (s.ended == Done ==> s.w == Pruned(w, doc) && !HalfPruned(attempts, script))
            && (TornPrune(attempts, script) ==> s.w == Unpointed(w, doc))
            && (EmptiedPrune(attempts, script) ==> s.w == Cleared(w, doc))
            && (!HalfPruned(attempts, script) ==> s.w == w || s.w == Pruned(w, doc))
  {
    RetriedWrite(w, DeleteDocument(doc), attempts, script);
  }

  /** Points of other documents, their rows and records are as before. */
  ghost predicate OthersUntouched(w: World, w': World, doc: string) {
    && (forall d :: d != doc ==> (d in w'.docs <==> d in w.docs))
    && (forall d :: d != doc && d in w.docs && d in w'.docs ==> w'.docs[d] == w.docs[d])
    && (forall c: ChunkId :: c.doc != doc ==> (c in w'.chunks <==> c in w.chunks))
    && (forall c: ChunkId :: c.doc != doc ==> (c in w'.points <==> c in w.points))
    && (forall c: ChunkId :: c.doc != doc && c in w.points && c in w'.points ==> w'.points[c] == w.points[c])
  }

  lemma OthersOk(ex: Extraction, w: World, w': World, doc: string, exempt: set<string>)
    requires Inv(ex, w, exempt) && OthersUntouched(w, w', doc)
    requires WellFormed(w') && (doc in w'.docs ==> DocOk(ex, w', doc, exempt))
    ensures Inv(ex, w', exempt)
  {
    forall d | d in w'.docs ensures DocOk(ex, w', d, exempt) {
      if d != doc {
        AlikeOk(ex, w, w', d, exempt);
      }
    }
  }

  /** Without its points a complete document is torn, without its rows as well it is emptied. */
  lemma PartlyPruned(ex: Extraction, w: World, doc: string)
    requires WellFormed(w) && doc in w.docs && DocOk(ex, w, doc, {doc})
    ensures NoPoints(Unpointed(w, doc), doc) && NoPoints(Cleared(w, doc), doc) && NoRows(Cleared(w, doc), doc)
    ensures w.docs[doc].status == Deleted ==> NoRows(Unpointed(w, doc), doc)
    ensures IsIndexed(w, doc) ==> Emptied(Cleared(w, doc), doc)
    ensures IsIndexed(w, doc) ==> Torn(ex, Unpointed(w, doc), doc) || Emptied(Unpointed(w, doc), doc)
  {
  }

  /** A document with points and rows is neither torn nor emptied. */
  lemma KindsApart(ex: Extraction, w: World, doc: string)
    requires doc in w.docs
    ensures Complete(ex, w, doc) ==> !NoPoints(w, doc) && !NoRows(w, doc)
    ensures Torn(ex, w, doc) ==> NoPoints(w, doc) && !NoRows(w, doc)
  {
    var r := w.docs[doc];
    if Stamped(r) && Expected(ex, doc, r) != [] {
      var c := Expected(ex, doc, r)[0];
      assert c.doc == doc && c in Expected(ex, doc, r);
    }
  }

  lemma HalfWellFormed(w: World, doc: string)
    requires WellFormed(w) && doc in w.docs
    ensures WellFormed(Unpointed(w, doc)) && OthersUntouched(w, Unpointed(w, doc), doc)
    ensures WellFormed(Cleared(w, doc)) && OthersUntouched(w, Cleared(w, doc), doc)
    ensures WellFormed(Pruned(w, doc)) && OthersUntouched(w, Pruned(w, doc), doc)
  {
  }

  lemma PrunedKeepsInv(ex: Extraction, w: World, doc: string, exempt: set<string>)
    requires Inv(ex, w, exempt) && doc in w.docs
    ensures Inv(ex, Pruned(w, doc), exempt)
  {
    HalfWellFormed(w, doc);
    assert NoPoints(Pruned(w, doc), doc) && NoRows(Pruned(w, doc), doc);
    OthersOk(ex, w, Pruned(w, doc), doc, exempt);
  }

  /** Stopped half-way, pruning costs exactly the document being pruned, if that is indexed. */
  lemma HalfPrunedWorlds(ex: Extraction, w: World, doc: string, exempt: set<string>)
    requires Inv(ex, w, exempt) && doc in w.docs
    ensures Inv(ex, Unpointed(w, doc), exempt + {doc}) && Inv(ex, Cleared(w, doc), exempt + {doc})
    ensures !IsIndexed(w, doc) ==> Inv(ex, Unpointed(w, doc), exempt) && Inv(ex, Cleared(w, doc), exempt)
    ensures IsIndexed(w, doc) && doc !in exempt ==>
              !Inv(ex, Unpointed(w, doc), exempt) && !Inv(ex, Cleared(w, doc), exempt)
  {
    hide Complete, Torn, Emptied, NoPoints, NoRows, WellFormed, OthersUntouched;
    ExemptMore(ex, w, exempt, doc);
    assert DocOk(ex, w, doc, exempt) && WellFormed(w);
    PartlyPruned(ex, w, doc);
    HalfWellFormed(w, doc);
    var a, b := Unpointed(w, doc), Cleared(w, doc);
    assert a.docs == w.docs && b.docs == w.docs;
    KindsApart(ex, a, doc);
    KindsApart(ex, b, doc);
    OthersOk(ex, w, a, doc, exempt + {doc}) by { assert DocOk(ex, a, doc, exempt + {doc}); }
    OthersOk(ex, w, b, doc, exempt + {doc}) by { assert DocOk(ex, b, doc, exempt + {doc}); }
    if !IsIndexed(w, doc) {
      OthersOk(ex, w, a, doc, exempt);
      OthersOk(ex, w, b, doc, exempt);
    } else if doc !in exempt {
      assert !DocOk(ex, a, doc, exempt) && !DocOk(ex, b, doc, exempt);
    }
  }

  /** Pruning is the one place where an indexed document can lose its points or rows: it stays
      complete exactly when it was not indexed or its pruning was not stopped half-way. */
  lemma PruneKeepsInvIff(ex: Extraction, w: World, doc: string, attempts: nat, script: seq<Fault>)
    requires attempts >= 1 && Inv(ex, w, {}) && doc in w.docs
    ensures Inv(ex, PruneOne(w, doc, attempts, script).w, {}) <==>
            !(IsIndexed(w, doc) && HalfPruned(attempts, script))
  {
    hide Inv, PruneOne, TornPrune, EmptiedPrune;
    PruneOneWorld(w, doc, attempts, script);
    PrunedKeepsInv(ex, w, doc, {});
    HalfPrunedWorlds(ex, w, doc, {});
  }

  lemma PruneOneExempts(ex: Extraction, w: World, doc: string, attempts: nat, script: seq<Fault>,
                        exempt: set<string>)
    requires attempts >= 1 && Inv(ex, w, exempt) && doc in w.docs
    ensures var s := PruneOne(w, doc, attempts, script);
            && Inv(ex, s.w, exempt + {doc})
            && (!(IsIndexed(w, doc) && HalfPruned(attempts, script)) ==> Inv(ex, s.w, exempt))
  {
    hide Inv, PruneOne, TornPrune, EmptiedPrune;
    PruneOneWorld(w, doc, attempts, script);
    PrunedKeepsInv(ex, w, doc, exempt);
    HalfPrunedWorlds(ex, w, doc, exempt);
    ExemptMore(ex, w, exempt, doc);
    ExemptMore(ex, Pruned(w, doc), exempt, doc);
  }

  lemma ExemptMore(ex: Extraction, w: World, exempt: set<string>, doc: string)
    requires Inv(ex, w, exempt)
    ensures Inv(ex, w, exempt + {doc})
  {
    forall d | d in w.docs ensures DocOk(ex, w, d, exempt + {doc}) {
      assert DocOk(ex, w, d, exempt);
    }
  }

  // ---- pruning everything unseen ----

  /** The documents that pruning damages: none, or the indexed one it is stopped half-way in. */
  function DamagedIn(w: World, seen: set<string>, order: seq<string>, attempts: nat,
                     script: seq<Fault>): (damaged: set<string>)
    requires attempts >= 1
    ensures |damaged| <= 1
    ensures damaged != {} ==> RemoveMissing(w, seen, order, attempts, script).ended != Done
    decreases |order|
  {
    if order == [] then {}
    else if !ToPrune(w, seen, order[0]) then DamagedIn(w, seen, order[1..], attempts, script)
    else
      var s := PruneOne(w, order[0], attempts, script);
      PruneOneWorld(w, order[0], attempts, script);
      if s.ended == Done then DamagedIn(s.w, seen, order[1..], attempts, s.rest)
      else if HalfPruned(attempts, script) && IsIndexed(w, order[0]) then {order[0]}
      else {}
  }

  /** Pruning everything unseen damages at most the document it is stopped half-way in. */
  lemma {:induction false} RemoveMissingExempts(ex: Extraction, w: World, seen: set<string>, order: seq<string>,
                                                attempts: nat, script: seq<Fault>, exempt: set<string>)
    requires attempts >= 1 && Inv(ex, w, exempt)
    ensures Inv(ex, RemoveMissing(w, seen, order, attempts, script).w,
                exempt + DamagedIn(w, seen, order, attempts, script))
    decreases |order|
  {
    hide Inv;
    if order == [] {
      assert exempt + {} == exempt;
    } else if !ToPrune(w, seen, order[0]) {
      RemoveMissingExempts(ex, w, seen, order[1..], attempts, script, exempt);
    } else {
      var s := PruneOne(w, order[0], attempts, script);
      PruneOneExempts(ex, w, order[0], attempts, script, exempt);
      PruneOneWorld(w, order[0], attempts, script);
      assert exempt + {} == exempt;
      if s.ended == Done {
        RemoveMissingExempts(ex, s.w, seen, order[1..], attempts, s.rest, exempt);
      }
    }
  }

  /** Pruning everything unseen keeps every indexed document complete exactly when it damages none. */
  lemma {:induction false} RemoveMissingKeepsInvIff(ex: Extraction, w: World, seen: set<string>, order: seq<string>,
                                                    attempts: nat, script: seq<Fault>)
    requires attempts >= 1 && Inv(ex, w, {})
    ensures Inv(ex, RemoveMissing(w, seen, order, attempts, script).w, {}) <==>
            DamagedIn(w, seen, order, attempts, script) == {}
    decreases |order|
  {
    hide Inv;
    if order == [] {
    } else if !ToPrune(w, seen, order[0]) {
      RemoveMissingKeepsInvIff(ex, w, seen, order[1..], attempts, script);
    } else {
      var s := PruneOne(w, order[0], attempts, script);
      PruneKeepsInvIff(ex, w, order[0], attempts, script);
      PruneOneWorld(w, order[0], attempts, script);
      if s.ended == Done {
        RemoveMissingKeepsInvIff(ex, s.w, seen, order[1..], attempts, s.rest);
      }
    }
  }

  // ---- whole runs ----

  datatype Run = Run(files: seq<File>, signature: string, prune: bool, order: seq<string>, attempts: nat,
                     script: seq<Fault>)

  function After(w: World, r: Run): Step
    requires r.attempts >= 1
  {
    Build(w, r.files, r.signature, r.prune, r.order, r.attempts, r.script)
  }

  /** Every file of the run is cut into the chunks of its revision and the run's signature. */
  ghost predicate FaithfulRun(ex: Extraction, r: Run) {
    forall f :: f in r.files ==> Faithful(ex, f, r.signature)
  }

  /** How the file loop of a build ends. */
  function AfterLoop(w: World, r: Run): Step
    requires r.attempts >= 1
  {
    ProcessFiles(w, r.files, r.signature, CountsAgree(w, r.signature), r.attempts, r.script)
  }

  /** The documents that a build damages: those its pruning does, when it comes to pruning. */
  function DamagedBy(w: World, r: Run): (damaged: set<string>)
    requires r.attempts >= 1
    ensures |damaged| <= 1
    ensures damaged != {} ==> r.prune && AfterLoop(w, r).ended == Done && After(w, r).ended != Done
  {
    var s := AfterLoop(w, r);
    if s.ended == Done && r.prune then DamagedIn(s.w, Seen(r.files), r.order, r.attempts, s.rest) else {}
  }

  /** A build damages at most the document its pruning is stopped in: none when it does not
      prune, completes, or stops in its file loop. */
  lemma BuildExempts(ex: Extraction, w: World, r: Run, exempt: set<string>)
    requires r.attempts >= 1 && Inv(ex, w, exempt) && FaithfulRun(ex, r)
    ensures Inv(ex, After(w, r).w, exempt + DamagedBy(w, r))
    ensures !r.prune || AfterLoop(w, r).ended != Done || After(w, r).ended == Done ==> Inv(ex, After(w, r).w, exempt)
  {
    hide Inv;
    var s := AfterLoop(w, r);
    LoopKeepsInv(ex, w, r.files, r.signature, CountsAgree(w, r.signature), r.attempts, r.script, exempt);
    assert exempt + {} == exempt;
    if s.ended == Done && r.prune {
      RemoveMissingExempts(ex, s.w, Seen(r.files), r.order, r.attempts, s.rest, exempt);
    }
  }

  /** A build keeps every indexed document complete exactly when it damages none. */
  lemma BuildKeepsInvIff(ex: Extraction, w: World, r: Run)
    requires r.attempts >= 1 && Inv(ex, w, {}) && FaithfulRun(ex, r)
    ensures Inv(ex, After(w, r).w, {}) <==> DamagedBy(w, r) == {}
  {
    hide Inv;
    var s := AfterLoop(w, r);
    LoopKeepsInv(ex, w, r.files, r.signature, CountsAgree(w, r.signature), r.attempts, r.script, {});
    if s.ended == Done && r.prune {
      RemoveMissingKeepsInvIff(ex, s.w, Seen(r.files), r.order, r.attempts, s.rest);
    }
  }

  const NEW := World(map[], {}, map[])

  /** The stores after a history of builds, each with its own files, faults and point of death. */
  function History(runs: seq<Run>): World
    requires forall r :: r in runs ==> r.attempts >= 1
  {
    if runs == [] then NEW
    else
      var last := runs[|runs| - 1];
      assert last in runs;
      After(History(runs[..|runs| - 1]), last).w
  }

  /** How many builds of the history were cut short while pruning. */
  function InterruptedPrunes(runs: seq<Run>): nat
    requires forall r :: r in runs ==> r.attempts >= 1
  {
    if runs == [] then 0
    else
      var front, last := runs[..|runs| - 1], runs[|runs| - 1];
      assert last in runs;
      InterruptedPrunes(front) + (if CutWhilePruning(History(front), last) then 1 else 0)
  }

  /** The build finished its file loop and did not finish its pruning. */
  predicate CutWhilePruning(w: World, r: Run)
    requires r.attempts >= 1
  {
    r.prune && AfterLoop(w, r).ended == Done && After(w, r).ended != Done
  }

  /** The documents that the builds of a history damaged. */
  function Damaged(runs: seq<Run>): set<string>
    requires forall r :: r in runs ==> r.attempts >= 1
  {
    if runs == [] then {}
    else
      var front, last := runs[..|runs| - 1], runs[|runs| - 1];
      assert last in runs;
      Damaged(front) + DamagedBy(History(front), last)
  }

  /** In every reachable state an indexed document's rows and points are exactly its chunks,
      except for the damaged documents: at most one per build that was cut short while pruning. */
  lemma {:induction false} HistoryKeepsInv(ex: Extraction, runs: seq<Run>)
    requires forall r :: r in runs ==> r.attempts >= 1 && FaithfulRun(ex, r)
    ensures Inv(ex, History(runs), Damaged(runs)) && |Damaged(runs)| <= InterruptedPrunes(runs)
    decreases |runs|
  {
    hide Inv, DamagedBy, CutWhilePruning, After, FaithfulRun;
    if runs == [] {
      NothingYet(ex);
    } else {
      var front, last := runs[..|runs| - 1], runs[|runs| - 1];
      assert last in runs;
      HistoryKeepsInv(ex, front);
      BuildExempts(ex, History(front), last, Damaged(front));
      DamageCounted(History(front), last);
      UnionSize(Damaged(front), DamagedBy(History(front), last));
      HistoryStep(runs);
    }
  }

  lemma NothingYet(ex: Extraction)
    ensures Inv(ex, NEW, {})
  {
  }

  lemma HistoryStep(runs: seq<Run>)
    requires runs != [] && forall r :: r in runs ==> r.attempts >= 1
    ensures runs[|runs| - 1] in runs
    ensures History(runs) == After(History(runs[..|runs| - 1]), runs[|runs| - 1]).w
  {
  }

  lemma DamageCounted(w: World, r: Run)
    requires r.attempts >= 1
    ensures |DamagedBy(w, r)| <= if CutWhilePruning(w, r) then 1 else 0
  {
  }

  lemma UnionSize(a: set<string>, b: set<string>)
    ensures |a + b| <= |a| + |b|
  {
    assert a + b == a + (b - a);
    assert b == (b - a) + (b * a);
  }

  /** Without a build cut short while pruning every indexed document is complete. */
  lemma UninterruptedHistory(ex: Extraction, runs: seq<Run>)
    requires forall r :: r in runs ==> r.attempts >= 1 && FaithfulRun(ex, r)
    requires InterruptedPrunes(runs) == 0
    ensures Inv(ex, History(runs), {})
  {
    HistoryKeepsInv(ex, runs);
    assert Damaged(runs) == {};
  }

  // ---- the count test ----

  /** The file loop's own failures leave strays only: every counted row has its point. */
  lemma StraysOnly(ex: Extraction, w: World, signature: string)
    requires Inv(ex, w, {})
    ensures ManifestRows(w, signature) <= SignaturePoints(w, signature)
  {
    forall c | c in ManifestRows(w, signature) ensures c in SignaturePoints(w, signature) {
      assert DocOk(ex, w, c.doc, {});
    }
  }

  /** With differences in one direction only, equal totals mean agreement point for point. */
  lemma CountTestExact(w: World, signature: string)
    requires ManifestRows(w, signature) <= SignaturePoints(w, signature)
             || SignaturePoints(w, signature) <= ManifestRows(w, signature)
    ensures CountsAgree(w, signature) <==> ManifestRows(w, signature) == SignaturePoints(w, signature)
  {
    if ManifestRows(w, signature) <= SignaturePoints(w, signature) {
      SubsetSameSize(ManifestRows(w, signature), SignaturePoints(w, signature));
    } else {
      SubsetSameSize(SignaturePoints(w, signature), ManifestRows(w, signature));
    }
  }

  lemma CountTestAfterLoop(ex: Extraction, w: World, signature: string)
    requires Inv(ex, w, {})
    ensures CountsAgree(w, signature) <==> ManifestRows(w, signature) == SignaturePoints(w, signature)
  {
    StraysOnly(ex, w, signature);
    CountTestExact(w, signature);
  }
}
