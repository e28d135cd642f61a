/** The retrieval loop that an untrusted provider drives, over the files of its request. */
module ProviderLoop {
  import opened Common
  import opened Text
  import opened Markers
  import opened Gateway
  import opened Vaults
  import opened Bridge
  import opened BridgeSafety
  import opened Pipeline

  /** What one provider call and the searches it asks for come to. */
  datatype Reply =
    | Fails                              // the provider, or the check of its output, raises
    | Malformed                          // an unreadable control message
    | Answer(text: string)
    | MoreContext(found: seq<Hit>)       // a retrieval request, with everything its searches found
    | SearchFails                        // a retrieval request whose searches raise

  datatype Ending = Raised | Answered(text: string)

  /** `calls`: provider calls made; `evidence`: the hits before each of them; `iteration`: that of
      the last call; `trail`: the bridge calls that were not refused, from the creation on. */
  datatype Outcome = Outcome(ending: Ending, calls: nat, evidence: seq<seq<Hit>>, iteration: int, trail: History)

  const INSUFFICIENT_CONTEXT :=
    "Недостаточно данных в доступных локальных документах после исчерпания "
    + "итераций поиска. Уточните вопрос или добавьте документы.\n"

  /** One run: the provider may answer its n-th call in any way, and `requests(n)` is what the
      context assembled before that call puts into the request files. */
  datatype Loop = Loop(
    provider: nat -> Reply,
    requests: nat -> Request,
    cfg: Config,
    maxIterations: int,
    maxContexts: nat
  )

  /** The text that a reply makes the loop stage, if any. */
  function Offer(reply: Reply, iteration: int, maxIterations: int): Option<string> {
    match reply
    case Fails => None
    case Malformed => Some(INSUFFICIENT_CONTEXT)
    case Answer(text) => Some(text)
    case _ => if iteration >= maxIterations then Some(INSUFFICIENT_CONTEXT) else None
  }

  /** The text that the loop stages after a reply, told reply by reply: an answer as it stands, the
      fixed text for an unreadable one, and for a request for more context only when no iteration
      is left. */
  predicate Stages(reply: Reply, spent: bool, text: string) {
    || reply == Answer(text)
    || (reply == Malformed && text == INSUFFICIENT_CONTEXT)
    || ((reply.MoreContext? || reply.SearchFails?) && spent && text == INSUFFICIENT_CONTEXT)
  }

  lemma OfferIs(reply: Reply, iteration: int, maxIterations: int)
    ensures forall text ::
              Offer(reply, iteration, maxIterations) == Some(text) <==> Stages(reply, iteration >= maxIterations, text)
  {
  }

  /** `stage_response`, then `restore_staged`; either may refuse, which raises. */
  function Finish(cfg: Config, h: History, text: string): (Ending, History) {
    if Plan(cfg, After(cfg, h), StageResponse(text)).Refused? then (Raised, h)
    else
      var staged := h + [Event(StageResponse(text), 2)];
      if Plan(cfg, After(cfg, staged), RestoreStaged).Refused? then (Raised, staged)
      else (Answered(text), staged + [Event(RestoreStaged, 2)])
  }

  function NextHits(l: Loop, hits: seq<Hit>, found: seq<Hit>): seq<Hit> {
    Cut(Merge(hits, found), l.maxContexts)
  }

  /** A refinement that finds nothing new spends all iterations that are left. */
  function NextIteration(l: Loop, iteration: int, hits: seq<Hit>, found: seq<Hit>): int {
    if |NextHits(l, hits, found)| > |hits| then iteration + 1 else l.maxIterations
  }

  function Rounds(l: Loop, iteration: int, call: nat, hits: seq<Hit>, h: History): Outcome
    requires iteration >= 1
    decreases l.maxIterations - iteration
  {
    var reply := l.provider(call);
    var offer := Offer(reply, iteration, l.maxIterations);
    if offer.Some? then
      var end := Finish(l.cfg, h, offer.value);
      Outcome(end.0, 1, [hits], iteration, end.1)
    else if !reply.MoreContext? then Outcome(Raised, 1, [hits], iteration, h)
    else
      var next := NextIteration(l, iteration, hits, reply.found);
      var update := UpdatePrepared(l.requests(call + 1));
      if Plan(l.cfg, After(l.cfg, h), update).Refused? then Outcome(Raised, 1, [hits], iteration, h)
      else
        var rest := Rounds(l, next, call + 1, NextHits(l, hits, reply.found), h + [Event(update, 4)]);
        Outcome(rest.ending, 1 + rest.calls, [hits] + rest.evidence, rest.iteration, rest.trail)
  }

  function Created(req: Request): History {
    [Event(Create(req, Automatic), 9)]
  }

  /** A whole run: the request is created, unless that is refused, and the loop answers it. */
  function WholeRun(l: Loop, first: seq<Hit>): Outcome {
    if Plan(l.cfg, BLANK, Create(l.requests(0), Automatic)).Refused? then Outcome(Raised, 0, [], 1, [])
    else Rounds(l, 1, 0, first, Created(l.requests(0)))
  }

  /** The provider loop of `run`, after the request was created. */
  method RunLoop(l: Loop, first: seq<Hit>, created: History) returns (r: Outcome)
    ensures r == Rounds(l, 1, 0, first, created)
  {
    hide Finish, Plan, After, Merge, Cut;
    var iteration, hits, trail := 1, first, created;
    var calls := 0;
    var evidence: seq<seq<Hit>> := [];
    ghost var final := Rounds(l, 1, 0, first, created);
    while true
      invariant iteration >= 1 && calls >= 0
      invariant Ahead(final, calls, evidence, Rounds(l, iteration, calls, hits, trail))
      decreases l.maxIterations - iteration
    {
      ghost var here := Rounds(l, iteration, calls, hits, trail);
      ghost var before, seen := hits, evidence;
      var called := iteration;
      var reply := l.provider(calls);
      calls := calls + 1;
      evidence := evidence + [hits];
      if reply.Fails? {
        return Outcome(Raised, calls, evidence, iteration, trail);
      }
      if reply.Answer? || reply.Malformed? || iteration >= l.maxIterations {
        var text := if reply.Answer? then reply.text else INSUFFICIENT_CONTEXT;
        var (ending, ended) := Finish(l.cfg, trail, text);
        return Outcome(ending, calls, evidence, iteration, ended);
      }
      if reply.SearchFails? {
        return Outcome(Raised, calls, evidence, iteration, trail);
      }
      var previousCount := |hits|;
      var merged := MergeHits(hits, reply.found);
      hits := Cut(merged, l.maxContexts);
      iteration := if |hits| > previousCount then iteration + 1 else l.maxIterations;
      var update := UpdatePrepared(l.requests(calls));
      if Plan(l.cfg, After(l.cfg, trail), update).Refused? {
        return Outcome(Raised, calls, evidence, called, trail);
      }
      trail := trail + [Event(update, 4)];
      AheadStep(final, calls - 1, seen, before, here, Rounds(l, iteration, calls, hits, trail));
    }
  }

  /** What is done so far, followed by `rest`, is the final outcome. */
  ghost predicate Ahead(final: Outcome, calls: nat, evidence: seq<seq<Hit>>, rest: Outcome) {
    final == Outcome(rest.ending, calls + rest.calls, evidence + rest.evidence, rest.iteration, rest.trail)
  }

  lemma AheadStep(final: Outcome, calls: nat, evidence: seq<seq<Hit>>, hits: seq<Hit>, here: Outcome, rest: Outcome)
    requires Ahead(final, calls, evidence, here)
    requires here == Outcome(rest.ending, 1 + rest.calls, [hits] + rest.evidence, rest.iteration, rest.trail)
    ensures Ahead(final, calls + 1, evidence + [hits], rest)
  {
    assert evidence + ([hits] + rest.evidence) == (evidence + [hits]) + rest.evidence;
  }

  // ---- bounds over the whole loop ----

  /** The loop goes on after this round. */
  predicate Continues(l: Loop, iteration: int, call: nat, h: History) {
    && l.provider(call).MoreContext? && iteration < l.maxIterations
    && Plan(l.cfg, After(l.cfg, h), UpdatePrepared(l.requests(call + 1))).Ok?
  }

  function Updated(l: Loop, call: nat, h: History): History {
    h + [Event(UpdatePrepared(l.requests(call + 1)), 4)]
  }

  lemma RoundStep(l: Loop, iteration: int, call: nat, hits: seq<Hit>, h: History)
    requires iteration >= 1
    ensures var r := Rounds(l, iteration, call, hits, h);
            && (!Continues(l, iteration, call, h) ==> r.calls == 1 && r.evidence == [hits])
            && (Continues(l, iteration, call, h) ==>
                  var found := l.provider(call).found;
                  var next := NextIteration(l, iteration, hits, found);
                  && next > iteration
                  && var rest := Rounds(l, next, call + 1, NextHits(l, hits, found), Updated(l, call, h));
                  r == Outcome(rest.ending, 1 + rest.calls, [hits] + rest.evidence, rest.iteration, rest.trail))
  {
    hide Finish, Plan, After, Merge, Cut;
  }

  /** Never more than `max_iterations` calls, and one when that limit is not positive; each list
      but the last two adds a chunk, so never more than two calls beyond the room for evidence. */
  lemma {:induction false} CallsBounded(l: Loop, iteration: int, call: nat, hits: seq<Hit>, h: History)
    requires iteration >= 1 && |hits| <= l.maxContexts
    ensures var r := Rounds(l, iteration, call, hits, h);
            && 1 <= r.calls == |r.evidence|
            && (iteration >= l.maxIterations ==> r.calls == 1)
            && (iteration < l.maxIterations ==> r.calls <= l.maxIterations - iteration + 1)
            && r.calls <= l.maxContexts - |hits| + 2
    decreases l.maxIterations - iteration
  {
    hide Rounds, Plan, After, Merge;
    RoundStep(l, iteration, call, hits, h);
    if Continues(l, iteration, call, h) {
      var found := l.provider(call).found;
      var next := NextIteration(l, iteration, hits, found);
      CallsBounded(l, next, call + 1, NextHits(l, hits, found), Updated(l, call, h));
    }
  }

  /** The list before call `i` is no longer than the one before the call before it. */
  predicate Stalled(lists: seq<seq<Hit>>, i: nat)
    requires 0 < i < |lists|
  {
    |lists[i]| <= |lists[i - 1]|
  }

  /** The iteration counts the calls: every refinement that adds a chunk is one more, and one that
      adds none makes the next call the last, with no iteration left. */
  lemma {:induction false} IterationCounts(l: Loop, iteration: int, call: nat, hits: seq<Hit>, h: History)
    requires iteration >= 1
    ensures var r := Rounds(l, iteration, call, hits, h);
            && r.calls == |r.evidence| >= 1 && r.evidence[0] == hits
            && r.iteration == (if r.calls >= 2 && Stalled(r.evidence, r.calls - 1) then l.maxIterations
                               else iteration + r.calls - 1)
            && (forall i :: 1 <= i < r.calls - 1 ==> !Stalled(r.evidence, i))
    decreases l.maxIterations - iteration
  {
    hide Plan, After, Merge, Cut, Finish;
    RoundStep(l, iteration, call, hits, h);
    if Continues(l, iteration, call, h) {
      var r, found := Rounds(l, iteration, call, hits, h), l.provider(call).found;
      var next, more := NextIteration(l, iteration, hits, found), NextHits(l, hits, found);
      IterationCounts(l, next, call + 1, more, Updated(l, call, h));
      var rest := Rounds(l, next, call + 1, more, Updated(l, call, h));
      RoundStep(l, next, call + 1, more, Updated(l, call, h));
      forall i | 2 <= i < r.calls ensures Stalled(r.evidence, i) <==> Stalled(rest.evidence, i - 1) {
      }
    }
  }

  /** How the loop ends: every call but the last was a retrieval request, and the last reply
      decides. An answer is the provider's own text for a plain reply and the fixed text for a
      malformed one or a request that comes when no iteration is left; nothing else is answered. */
  lemma {:induction false} LastReplyDecides(l: Loop, iteration: int, call: nat, hits: seq<Hit>, h: History)
    requires iteration >= 1
    ensures var r := Rounds(l, iteration, call, hits, h);
            && r.calls >= 1
            && (forall k :: call <= k < call + r.calls - 1 ==> l.provider(k).MoreContext?)
            && (r.ending.Answered? ==>
                  Stages(l.provider(call + r.calls - 1), r.iteration >= l.maxIterations, r.ending.text))
    decreases l.maxIterations - iteration
  {
    hide Plan, After, Merge, Cut;
    OfferIs(l.provider(call), iteration, l.maxIterations);
    if Continues(l, iteration, call, h) {
      var found := l.provider(call).found;
      var next := NextIteration(l, iteration, hits, found);
      RoundStep(l, iteration, call, hits, h);
      LastReplyDecides(l, next, call + 1, NextHits(l, hits, found), Updated(l, call, h));
    }
  }

  ghost predicate Grows(lists: seq<seq<Hit>>, max: nat) {
    && (forall i :: 0 <= i < |lists| ==> Unique(lists[i]) && |lists[i]| <= max)
    && (forall i, j :: 0 <= i <= j < |lists| ==> lists[i] <= lists[j])
  }

  /** For any provider: every evidence list repeats no chunk, stays within the limit and extends
      all earlier ones. */
  lemma {:induction false} EvidenceGrows(l: Loop, iteration: int, call: nat, hits: seq<Hit>, h: History)
    requires iteration >= 1 && |hits| <= l.maxContexts && Unique(hits)
    ensures var r := Rounds(l, iteration, call, hits, h);
            Grows(r.evidence, l.maxContexts) && r.evidence != [] && r.evidence[0] == hits
    decreases l.maxIterations - iteration
  {
    hide Rounds, Plan, After, Merge;
    RoundStep(l, iteration, call, hits, h);
    if Continues(l, iteration, call, h) {
      var found := l.provider(call).found;
      var next := NextIteration(l, iteration, hits, found);
      EvidenceGrowsIff(hits, found, l.maxContexts);
      EvidenceGrows(l, next, call + 1, NextHits(l, hits, found), Updated(l, call, h));
      GrowsCons(hits, Rounds(l, next, call + 1, NextHits(l, hits, found), Updated(l, call, h)).evidence, l.maxContexts);
    }
  }

  lemma GrowsCons(hits: seq<Hit>, lists: seq<seq<Hit>>, max: nat)
    requires Grows(lists, max) && lists != [] && hits <= lists[0] && Unique(hits)
    ensures Grows([hits] + lists, max)
  {
    var all := [hits] + lists;
    forall i, j | 0 <= i <= j < |all| ensures all[i] <= all[j] {
      if i == 0 && j > 0 {
        assert lists[0] <= lists[j - 1];
      }
    }
  }

  /** Everything the searches of `n` calls found, in order. */
  function Found(l: Loop, call: nat, n: nat): seq<Hit>
    decreases n
  {
    if n == 0 then []
    else (if l.provider(call).MoreContext? then l.provider(call).found else []) + Found(l, call + 1, n - 1)
  }

  /** Merging and cutting after every search is merging everything found and cutting once. */
  lemma {:induction false} EvidenceIsOneMerge(l: Loop, iteration: int, call: nat, hits: seq<Hit>, h: History, i: nat)
    requires iteration >= 1 && |hits| <= l.maxContexts && Unique(hits)
    requires i < |Rounds(l, iteration, call, hits, h).evidence|
    ensures Rounds(l, iteration, call, hits, h).evidence[i] == Cut(Merge(hits, Found(l, call, i)), l.maxContexts)
    decreases i
  {
    hide Rounds, Plan, After, Merge;
    RoundStep(l, iteration, call, hits, h);
    if i == 0 {
      NoneFound(hits, l.maxContexts);
    } else {
      var found := l.provider(call).found;
      var next := NextIteration(l, iteration, hits, found);
      EvidenceGrowsIff(hits, found, l.maxContexts);
      EvidenceIsOneMerge(l, next, call + 1, NextHits(l, hits, found), Updated(l, call, h), i - 1);
      CutMerge(hits, found, Found(l, call + 1, i - 1), l.maxContexts);
    }
  }

  lemma NoneFound(hits: seq<Hit>, max: nat)
    requires Unique(hits) && |hits| <= max
    ensures Cut(Merge(hits, []), max) == hits
  {
    assert hits + [] == hits;
    MergeIs(hits, []);
  }

  // ---- the loop and the request files ----

  /** Published, loadable, still waiting for its answer and with nothing restored. */
  ghost predicate Ready(cfg: Config, h: History, req: Request) {
    var d := After(cfg, h);
    && Published(cfg, h) == Some(req)
    && LoadState(d) == Ok((req.mapping, ReloadAliases(req.mapping, req.aliases)))
    && d.manifest.Content? && d.manifest.value.status == Prepared && d.restored.None?
  }

  lemma CreateReady(cfg: Config, req: Request)
    ensures Plan(cfg, BLANK, Create(req, Automatic)).Ok? <==> CleanRequest(cfg.u, req)
    ensures CleanRequest(cfg.u, req) ==> Ready(cfg, Created(req), req)
  {
    hide CleanRequest, LoadState;
    if CleanRequest(cfg.u, req) {
      var create := Event(Create(req, Automatic), 9);
      assert [] + [create] == [create];
      CompletionLoads(cfg, [], create);
      CreateLeaves(cfg, BLANK, req, Automatic, 9);
      BridgeSafety.Snoc(cfg, [], create);
    }
  }

  /** An update is refused by a prepared request only when its fields are not clean. */
  lemma UpdateReady(cfg: Config, h: History, before: Request, req: Request)
    requires Ready(cfg, h, before)
    ensures Plan(cfg, After(cfg, h), UpdatePrepared(req)).Ok? <==> CleanRequest(cfg.u, req)
    ensures CleanRequest(cfg.u, req) ==> Ready(cfg, h + [Event(UpdatePrepared(req), 4)], req)
  {
    hide CleanRequest, LoadState;
    var e := Event(UpdatePrepared(req), 4);
    if CleanRequest(cfg.u, req) {
      CompletionLoads(cfg, h, e);
      UpdateLeaves(cfg, After(cfg, h), req, 4);
      BridgeSafety.Snoc(cfg, h, e);
    }
  }

  /** The bridge accepts and restores a text under the markers of a request. */
  ghost predicate Restorable(cfg: Config, req: Request, text: string) {
    Acceptable(cfg, req, text) && Strip(text) != "" && !(cfg.failOnUnknown && Foreign(text, req.mapping))
  }

  /** The last two bridge calls of a run that answers. */
  function Ended(text: string): History {
    [Event(StageResponse(text), 2), Event(RestoreStaged, 2)]
  }

  lemma FinishOutcome(cfg: Config, h: History, req: Request, text: string)
    requires Ready(cfg, h, req)
    ensures var (ending, trail) := Finish(cfg, h, text);
            && Published(cfg, trail) == Some(req)
            && (Restorable(cfg, req, text) ==>
                  && ending == Answered(text)
                  && After(cfg, trail).restored == Some(Substitute(text, req.mapping))
                  && trail == h + [] + Ended(text))
            && (!Restorable(cfg, req, text) ==> ending == Raised && After(cfg, trail).restored.None?)
  {
    hide Clean, Restore, Strip, Foreign, Substitute;
    RestoreRefusedIff(text, req.mapping, cfg.failOnUnknown);
    var stage, restore := Event(StageResponse(text), 2), Event(RestoreStaged, 2);
    BridgeSafety.Snoc(cfg, h, stage);
    BridgeSafety.Snoc(cfg, h + [stage], restore);
    assert h + [stage] + [restore] == h + [] + Ended(text);
    if Acceptable(cfg, req, text) {
      StageLeaves(cfg, After(cfg, h), text, 2);
      if Restorable(cfg, req, text) {
        RestoreLeaves(cfg, After(cfg, h + [stage]), 2);
      }
    }
  }

  /** The updates of a run: one before each further call. */
  function UpdatesFrom(l: Loop, call: nat, n: nat): History
    decreases n
  {
    if n == 0 then [] else [Event(UpdatePrepared(l.requests(call)), 4)] + UpdatesFrom(l, call + 1, n - 1)
  }

  /** A text is offered, and the bridge accepts and restores it under the last request. */
  ghost predicate Succeeds(l: Loop, call: nat, r: Outcome)
    requires r.calls >= 1
  {
    var last := call + r.calls - 1;
    exists text ::
      Stages(l.provider(last), r.iteration >= l.maxIterations, text) && Restorable(l.cfg, l.requests(last), text)
  }

  lemma SucceedsIff(l: Loop, call: nat, r: Outcome)
    requires r.calls >= 1
    ensures var last := call + r.calls - 1;
            var offer := Offer(l.provider(last), r.iteration, l.maxIterations);
            Succeeds(l, call, r) <==> offer.Some? && Restorable(l.cfg, l.requests(last), offer.value)
  {
    hide Restorable;
    OfferIs(l.provider(call + r.calls - 1), r.iteration, l.maxIterations);
  }

  lemma NothingYet(cfg: Config, h: History, req: Request)
    requires Ready(cfg, h, req)
    ensures After(cfg, h).restored.None? && Published(cfg, h) == Some(req)
  {
  }

  lemma OneMoreUpdate(l: Loop, call: nat, calls: nat, h: History, tail: History)
    requires calls >= 1
    ensures Updated(l, call, h) + UpdatesFrom(l, call + 2, calls - 1) + tail
      == h + UpdatesFrom(l, call + 1, calls) + tail
  {
    var e := [Event(UpdatePrepared(l.requests(call + 1)), 4)];
    var more := UpdatesFrom(l, call + 2, calls - 1);
    assert UpdatesFrom(l, call + 1, calls) == e + more;
    assert h + e + more == h + (e + more);
  }

  /** What a run without crashes comes to, for any provider and any requests: it answers exactly
      when its last reply offers a text that the bridge accepts and restores under the last
      request, and then that restoration is on disk after one create, one update per further call,
      one staging and one restoring; otherwise nothing is. An update with fields that are not
      clean is refused, and the run raises. */
  lemma {:induction false} LoopOutcome(l: Loop, iteration: int, call: nat, hits: seq<Hit>, h: History)
    requires iteration >= 1 && Ready(l.cfg, h, l.requests(call)) && CleanRequest(l.cfg.u, l.requests(call))
    ensures var r := Rounds(l, iteration, call, hits, h);
            && r.calls >= 1 && Published(l.cfg, r.trail) == Some(l.requests(call + r.calls - 1))
            && (forall n :: call <= n < call + r.calls ==> CleanRequest(l.cfg.u, l.requests(n)))
            && (l.provider(call + r.calls - 1).MoreContext? && r.iteration < l.maxIterations ==>
                  !CleanRequest(l.cfg.u, l.requests(call + r.calls)))
            && (r.ending.Answered? <==> Succeeds(l, call, r))
            && (r.ending.Answered? ==>
                  var req := l.requests(call + r.calls - 1);
                  && Restorable(l.cfg, req, r.ending.text)
                  && After(l.cfg, r.trail).restored == Some(Substitute(r.ending.text, req.mapping))
                  && r.trail == h + UpdatesFrom(l, call + 1, r.calls - 1) + Ended(r.ending.text))
            && (r.ending.Raised? ==> After(l.cfg, r.trail).restored.None?)
    decreases l.maxIterations - iteration
  {
    hide Restorable, Ready, CleanRequest, Plan, After, Published, Merge, Cut, Substitute, Finish, Ended, Succeeds;
    var req := l.requests(call);
    NothingYet(l.cfg, h, req);
    UpdateReady(l.cfg, h, req, l.requests(call + 1));
    RoundStep(l, iteration, call, hits, h);
    SucceedsIff(l, call, Rounds(l, iteration, call, hits, h));
    if Continues(l, iteration, call, h) {
      var found := l.provider(call).found;
      var next := NextIteration(l, iteration, hits, found);
      LoopOutcome(l, next, call + 1, NextHits(l, hits, found), Updated(l, call, h));
      var rest := Rounds(l, next, call + 1, NextHits(l, hits, found), Updated(l, call, h));
      SucceedsIff(l, call + 1, rest);
      if rest.ending.Answered? {
        OneMoreUpdate(l, call, rest.calls, h, Ended(rest.ending.text));
      }
    } else {
      var offer := Offer(l.provider(call), iteration, l.maxIterations);
      if offer.Some? {
        FinishOutcome(l.cfg, h, req, offer.value);
      }
    }
  }

  /** The same for the whole run: it creates nothing exactly when the first request is not clean;
      otherwise the last request is the published one, every request sent was clean, and a
      request for more context ends the run only when no iteration is left or the next request is
      not clean. */
  lemma RunRestoresAnswer(l: Loop, first: seq<Hit>)
    ensures var r := WholeRun(l, first);
            && (r.calls == 0 <==> !CleanRequest(l.cfg.u, l.requests(0)))
            && (forall n :: 0 <= n < r.calls ==> CleanRequest(l.cfg.u, l.requests(n)))
            && (r.calls >= 1 && l.provider(r.calls - 1).MoreContext? && r.iteration < l.maxIterations ==>
                  !CleanRequest(l.cfg.u, l.requests(r.calls)))
            && Published(l.cfg, r.trail) == (if r.calls == 0 then None else Some(l.requests(r.calls - 1)))
            && (r.ending.Answered? <==> r.calls >= 1 && Succeeds(l, 0, r))
            && (r.ending.Answered? ==>
                  var req := l.requests(r.calls - 1);
                  && Restorable(l.cfg, req, r.ending.text)
                  && After(l.cfg, r.trail).restored == Some(Substitute(r.ending.text, req.mapping))
                  && r.trail == Created(l.requests(0)) + UpdatesFrom(l, 1, r.calls - 1) + Ended(r.ending.text))
            && (r.ending.Raised? ==> After(l.cfg, r.trail).restored.None?)
  {
    hide Restorable, Ready, CleanRequest, Plan, Rounds, Substitute, Ended, Succeeds;
    CreateReady(l.cfg, l.requests(0));
    if CleanRequest(l.cfg.u, l.requests(0)) {
      hide After, Published;
      LoopOutcome(l, 1, 0, first, Created(l.requests(0)));
    }
  }

  /** In a whole run the iteration of the last call is its number, or the greatest when the
      refinement before it added nothing. */
  lemma RunCounts(l: Loop, first: seq<Hit>)
    ensures var r := WholeRun(l, first);
            && |r.evidence| == r.calls
            && (r.calls >= 1 ==>
                  && r.evidence[0] == first
                  && r.iteration == if r.calls >= 2 && Stalled(r.evidence, r.calls - 1) then l.maxIterations
                                    else r.calls)
  {
    hide Rounds, Plan;
    IterationCounts(l, 1, 0, first, Created(l.requests(0)));
  }
}
