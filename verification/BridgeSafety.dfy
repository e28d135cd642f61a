/** What every run of the bridge keeps, wherever each operation is cut off. */
module BridgeSafety {
  import opened Common
  import opened Text
  import opened Alphabet
  import opened Markers
  import opened Gateway
  import opened Vaults
  import Propagation
  import opened Bridge

  predicate Staged(s: Status) {
    s == ResponseReceived || s == Restored
  }

  /** The manifest records exactly the last completed publication and the last accepted
      response, and the response was validated under that publication. */
  ghost predicate ManifestAgrees(cfg: Config, d: Disk, published: Option<Request>, accepted: Option<string>) {
    && (published.Some? <==> d.manifest.Content?)
    && (accepted.Some? ==> published.Some?)
    && (published.Some? ==>
          var p, m := published.value, d.manifest.value;
          && m.payloadSum == p.rendered && m.mappingSum == p.mapping && m.aliasesSum == p.aliases
          && m.responseSum == accepted
          && (accepted.Some? <==> Staged(m.status))
          && (accepted.Some? ==> Acceptable(cfg, p, accepted.value)))
  }

  predicate Acceptable(cfg: Config, p: Request, text: string) {
    |text| <= cfg.maxOutputChars && Clean(cfg.u, text, p.mapping, ReloadAliases(p.mapping, p.aliases))
  }

  ghost predicate FilesAgree(d: Disk, published: Option<Request>, sent: Option<Request>, vaulted: Option<Request>) {
    && (!d.made ==> d == BLANK)
    && (sent.Some? <==> d.input.Content?)
    && (sent.Some? ==> d.input == Content(sent.value.rendered))
    && (vaulted.Some? <==> d.vault.Content?)
    && (vaulted.Some? ==> d.vault == Content(VaultOf(vaulted.value)))
    && (published.Some? ==> sent.Some? && vaulted.Some?)
  }

  lemma UpdateAgrees(cfg: Config, d: Disk, req: Request, k: nat, p: Option<Request>, a: Option<string>)
    requires ManifestAgrees(cfg, d, p, a) && Plan(cfg, d, UpdatePrepared(req)).Ok?
    ensures var d' := Attempt(cfg, d, Event(UpdatePrepared(req), k));
            ManifestAgrees(cfg, d', if k >= 4 then Some(req) else p, a)
  {
    UpdateLeaves(cfg, d, req, k);
  }

  lemma CreateAgrees(cfg: Config, d: Disk, req: Request, provider: Provider, k: nat)
    requires d == BLANK && Plan(cfg, d, Create(req, provider)).Ok?
    ensures var d' := Attempt(cfg, d, Event(Create(req, provider), k));
            ManifestAgrees(cfg, d', if k >= 9 then Some(req) else None, None)
  {
    CreateLeaves(cfg, d, req, provider, k);
  }

  /** A vault that loads is the published one. */
  lemma LoadsPublished(cfg: Config, d: Disk, p: Option<Request>, a: Option<string>)
    requires ManifestAgrees(cfg, d, p, a) && LoadState(d).Ok?
    ensures p.Some? && LoadState(d).value == (p.value.mapping, ReloadAliases(p.value.mapping, p.value.aliases))
  {
  }

  lemma StageAgrees(cfg: Config, d: Disk, text: string, k: nat, p: Option<Request>, a: Option<string>)
    requires ManifestAgrees(cfg, d, p, a) && Plan(cfg, d, StageResponse(text)).Ok?
    ensures var d' := Attempt(cfg, d, Event(StageResponse(text), k));
            ManifestAgrees(cfg, d', p, if k >= 2 then Some(text) else a)
  {
    StageLeaves(cfg, d, text, k);
    LoadsPublished(cfg, d, p, a);
  }

  lemma RestoreAgrees(cfg: Config, d: Disk, k: nat, p: Option<Request>, a: Option<string>)
    requires ManifestAgrees(cfg, d, p, a) && Plan(cfg, d, RestoreStaged).Ok?
    ensures ManifestAgrees(cfg, Attempt(cfg, d, Event(RestoreStaged, k)), p, a)
  {
    RestoreLeaves(cfg, d, k);
  }

  lemma PlanLength(cfg: Config, d: Disk, op: Op)
    requires Plan(cfg, d, op).Ok?
    ensures |Plan(cfg, d, op).value| ==
            match op
            case Create(_, _) => 9
            case UpdatePrepared(_) => 4
            case StageResponse(_) => 2
            case RestoreStaged => 2
            case Overwrite(_) => 0
  {
  }

  lemma EventAgrees(cfg: Config, d: Disk, e: Event, p: Option<Request>, a: Option<string>)
    requires ManifestAgrees(cfg, d, p, a) && (!d.made ==> d == BLANK)
    ensures var done := Completes(cfg, d, e);
            ManifestAgrees(cfg, Attempt(cfg, d, e),
                           if Sends(e.op) && done then Some(e.op.req) else p,
                           if e.op.StageResponse? && done then Some(e.op.text) else a)
  {
    if Plan(cfg, d, e.op).Ok? {
      PlanLength(cfg, d, e.op);
      match e.op
      case Create(req, provider) => CreateAgrees(cfg, d, req, provider, e.writes);
      case UpdatePrepared(req) => UpdateAgrees(cfg, d, req, e.writes, p, a);
      case StageResponse(text) => StageAgrees(cfg, d, text, e.writes, p, a);
      case RestoreStaged => RestoreAgrees(cfg, d, e.writes, p, a);
    }
  }

  function Reaches(cfg: Config, d: Disk, e: Event, onCreate: nat, onUpdate: nat,
                   before: Option<Request>): Option<Request>
  {
    var need := if e.op.Create? then onCreate else onUpdate;
    if Sends(e.op) && Plan(cfg, d, e.op).Ok? && e.writes >= need then Some(e.op.req) else before
  }

  lemma EventFiles(cfg: Config, d: Disk, e: Event, p: Option<Request>, s: Option<Request>, v: Option<Request>)
    requires FilesAgree(d, p, s, v) && (d == BLANK ==> p.None? && s.None?)
    ensures FilesAgree(Attempt(cfg, d, e), if Sends(e.op) && Completes(cfg, d, e) then Some(e.op.req) else p,
                       Reaches(cfg, d, e, 3, 1, s), Reaches(cfg, d, e, 6, 2, v))
    ensures Attempt(cfg, d, e) == BLANK ==> d == BLANK
  {
    if Plan(cfg, d, e.op).Ok? {
      PlanLength(cfg, d, e.op);
      match e.op
      case Create(req, provider) => CreateLeaves(cfg, d, req, provider, e.writes);
      case UpdatePrepared(req) => UpdateLeaves(cfg, d, req, e.writes);
      case StageResponse(text) => StageLeaves(cfg, d, text, e.writes);
      case RestoreStaged => RestoreLeaves(cfg, d, e.writes);
    }
  }

  /** Every run, every crash: the manifest and the files tell the history. */
  lemma {:induction false} RunAgrees(cfg: Config, h: History)
    ensures ManifestAgrees(cfg, After(cfg, h), Published(cfg, h), Accepted(cfg, h))
    ensures FilesAgree(After(cfg, h), Published(cfg, h), LastSent(cfg, h), LastVaulted(cfg, h))
    ensures After(cfg, h) == BLANK ==> LastSent(cfg, h).None?
  {
    if h != [] {
      var prior, e := h[..|h| - 1], h[|h| - 1];
      RunAgrees(cfg, prior);
      EventAgrees(cfg, After(cfg, prior), e, Published(cfg, prior), Accepted(cfg, prior));
      EventFiles(cfg, After(cfg, prior), e, Published(cfg, prior), LastSent(cfg, prior), LastVaulted(cfg, prior));
    }
  }

  /** The state loads after exactly those runs in which the markers that last reached the vault
      are the last published ones: not between an update's vault and manifest writes. */
  lemma LoadsIff(cfg: Config, h: History)
    ensures LoadState(After(cfg, h)).Ok? <==>
            && Published(cfg, h).Some? && LastVaulted(cfg, h).Some?
            && LastVaulted(cfg, h).value.mapping == Published(cfg, h).value.mapping
            && LastVaulted(cfg, h).value.aliases == Published(cfg, h).value.aliases
    ensures LoadState(After(cfg, h)).Ok? ==>
            var p := Published(cfg, h).value;
            LoadState(After(cfg, h)).value == (p.mapping, ReloadAliases(p.mapping, p.aliases))
  {
    RunAgrees(cfg, h);
  }

  /** `restore_staged` either changes nothing or begins by writing the restoration of the last
      accepted response under the mapping of the last completed create or update. */
  lemma RestoredIsAccepted(cfg: Config, h: History, k: nat)
    ensures var d, d' := After(cfg, h), After(cfg, h + [Event(RestoreStaged, k)]);
            || d' == d
            || (&& Published(cfg, h).Some? && Accepted(cfg, h).Some?
                && var p, r := Published(cfg, h).value, Accepted(cfg, h).value;
                && Strip(r) != "" && Acceptable(cfg, p, r) && d.output == Some(r)
                && var answer := Restore(r, p.mapping, cfg.failOnUnknown);
                && answer.Ok? && d'.restored == Some(answer.value)
                && (k >= 2 ==> d'.manifest.Content? && d'.manifest.value.status == Restored)
                && d'.input == d.input && d'.vault == d.vault && d'.output == d.output)
  {
    var d, e := After(cfg, h), Event(RestoreStaged, k);
    assert (h + [e])[..|h|] == h;
    assert After(cfg, h + [e]) == Attempt(cfg, d, e);
    if Plan(cfg, d, RestoreStaged).Ok? {
      RunAgrees(cfg, h);
      LoadsPublished(cfg, d, Published(cfg, h), Accepted(cfg, h));
      RestoreLeaves(cfg, d, k);
    }
  }

  /** A text passes the outbound check exactly when no value that one of its markers may stand
      for, of at least three characters, occurs among its characters outside marker tokens. */
  lemma CleanIff(u: Alphabet, text: string, mapping: Mapping, aliases: Aliases)
    ensures Clean(u, text, mapping, aliases) <==>
            forall m, a :: m in mapping && a in (if m in aliases then aliases[m] else {mapping[m]}) ==>
              !Propagation.Leaks(u, Propagation.Outside(text, 0), a)
  {
    hide Propagation.Leaks, Propagation.OutboundClean, Propagation.Outside;
    Propagation.OutboundCleanIff(u, text, Meant(mapping, aliases));
    assert forall m :: m in mapping ==> Meant(mapping, aliases)[m] == if m in aliases then aliases[m] else {mapping[m]};
  }

  lemma RestorePlanned(cfg: Config, h: History)
    ensures Plan(cfg, After(cfg, h), RestoreStaged).Ok? <==>
            && Accepted(cfg, h).Some? && Published(cfg, h).Some?
            && After(cfg, h).output == Accepted(cfg, h)
            && Strip(Accepted(cfg, h).value) != ""
            && LoadState(After(cfg, h)).Ok?
            && Restore(Accepted(cfg, h).value, Published(cfg, h).value.mapping, cfg.failOnUnknown).Ok?
  {
    RunAgrees(cfg, h);
    if LoadState(After(cfg, h)).Ok? {
      LoadsPublished(cfg, After(cfg, h), Published(cfg, h), Accepted(cfg, h));
    }
  }

  /** Restoring works exactly when the accepted response is still on disk, is not blank, the
      vault is the published one and every marker-like token in it is known or tolerated. */
  lemma RestoresIff(cfg: Config, h: History)
    ensures Plan(cfg, After(cfg, h), RestoreStaged).Ok? <==>
            && Accepted(cfg, h).Some? && Published(cfg, h).Some?
            && After(cfg, h).output == Accepted(cfg, h)
            && Strip(Accepted(cfg, h).value) != ""
            && LoadState(After(cfg, h)).Ok?
            && !(cfg.failOnUnknown && Foreign(Accepted(cfg, h).value, Published(cfg, h).value.mapping))
  {
    hide Restore, Foreign, Plan, After, Accepted, Published, LoadState, Strip;
    RestorePlanned(cfg, h);
    if Accepted(cfg, h).Some? && Published(cfg, h).Some? {
      RestoreRefusedIff(Accepted(cfg, h).value, Published(cfg, h).value.mapping, cfg.failOnUnknown);
    }
  }

  /** Staging works exactly when the state loads and the text is short enough and clean under the
      published markers. */
  lemma StagesIff(cfg: Config, h: History, text: string)
    ensures Plan(cfg, After(cfg, h), StageResponse(text)).Ok? <==>
            && Published(cfg, h).Some? && LoadState(After(cfg, h)).Ok?
            && |text| <= cfg.maxOutputChars
            && var p := Published(cfg, h).value;
            Clean(cfg.u, text, p.mapping, ReloadAliases(p.mapping, p.aliases))
  {
    hide Clean;
    RunAgrees(cfg, h);
    if LoadState(After(cfg, h)).Ok? {
      LoadsPublished(cfg, After(cfg, h), Published(cfg, h), Accepted(cfg, h));
    }
  }

  /** Who the last completed create of a run was for. */
  function CreatedFor(cfg: Config, h: History): Provider {
    if h == [] then Unsupported
    else
      var prior, e := h[..|h| - 1], h[|h| - 1];
      if e.op.Create? && Completes(cfg, After(cfg, prior), e) then e.op.provider else CreatedFor(cfg, prior)
  }

  lemma CreatedForSnoc(cfg: Config, h: History, e: Event)
    ensures CreatedFor(cfg, h + [e]) ==
            if e.op.Create? && Completes(cfg, After(cfg, h), e) then e.op.provider else CreatedFor(cfg, h)
  {
    assert (h + [e])[..|h|] == h;
  }

  /** Before a response is accepted the manifest says whom the request waits for. */
  ghost predicate Waits(d: Disk, provider: Provider) {
    d.manifest.Content? ==>
      || Staged(d.manifest.value.status)
      || (provider == Manual && d.manifest.value.status == AwaitingResponse)
      || (provider == Automatic && d.manifest.value.status == Prepared)
  }

  lemma EventWaits(cfg: Config, d: Disk, e: Event, provider: Provider)
    requires Waits(d, provider) && (!d.made ==> d == BLANK)
    ensures Waits(Attempt(cfg, d, e), if e.op.Create? && Completes(cfg, d, e) then e.op.provider else provider)
  {
    hide Clean, CleanRequest, Restore;
    if Plan(cfg, d, e.op).Ok? {
      PlanLength(cfg, d, e.op);
      match e.op
      case Create(req, p) => CreateLeaves(cfg, d, req, p, e.writes);
      case UpdatePrepared(req) => UpdateLeaves(cfg, d, req, e.writes);
      case StageResponse(text) => StageLeaves(cfg, d, text, e.writes);
      case RestoreStaged => RestoreLeaves(cfg, d, e.writes);
    }
  }

  lemma {:induction false} RunWaits(cfg: Config, h: History)
    ensures Waits(After(cfg, h), CreatedFor(cfg, h))
  {
    if h != [] {
      var prior, e := h[..|h| - 1], h[|h| - 1];
      assert h == prior + [e];
      RunWaits(cfg, prior);
      RunAgrees(cfg, prior);
      EventWaits(cfg, After(cfg, prior), e, CreatedFor(cfg, prior));
      Snoc(cfg, prior, e);
      CreatedForSnoc(cfg, prior, e);
    }
  }

  /** An update works exactly on a published request of an automatic provider, before a response is
      accepted, with clean fields. */
  lemma UpdatesIff(cfg: Config, h: History, req: Request)
    ensures Plan(cfg, After(cfg, h), UpdatePrepared(req)).Ok? <==>
            && Published(cfg, h).Some? && Accepted(cfg, h).None? && CreatedFor(cfg, h) == Automatic
            && forall f <- req.fields :: Clean(cfg.u, f, req.mapping, req.aliases)
  {
    hide Clean;
    RunAgrees(cfg, h);
    RunWaits(cfg, h);
  }

  // ---- a staged response freezes the request ----

  lemma Snoc(cfg: Config, h: History, e: Event)
    ensures After(cfg, h + [e]) == Attempt(cfg, After(cfg, h), e)
    ensures Published(cfg, h + [e]) ==
            if Sends(e.op) && Completes(cfg, After(cfg, h), e) then Some(e.op.req) else Published(cfg, h)
    ensures Accepted(cfg, h + [e]) ==
            if e.op.StageResponse? && Completes(cfg, After(cfg, h), e) then Some(e.op.text) else Accepted(cfg, h)
  {
    assert (h + [e])[..|h|] == h;
  }

  /** Once a response is accepted, no create or update runs, so one more event changes neither
      the payload, nor the vault, nor what is published. */
  lemma StagedStep(cfg: Config, h: History, e: Event)
    requires Accepted(cfg, h).Some?
    ensures Accepted(cfg, h + [e]).Some? && Published(cfg, h + [e]) == Published(cfg, h)
    ensures After(cfg, h + [e]).input == After(cfg, h).input && After(cfg, h + [e]).vault == After(cfg, h).vault
  {
    RunAgrees(cfg, h);
    Snoc(cfg, h, e);
    var d := After(cfg, h);
    if Plan(cfg, d, e.op).Ok? {
      match e.op
      case StageResponse(text) => StageLeaves(cfg, d, text, e.writes);
      case RestoreStaged => RestoreLeaves(cfg, d, e.writes);
      case _ =>
    }
  }

  /** After a response is staged the payload, the vault and the published mapping never change
      again, whatever follows. */
  lemma {:induction false} StagedForever(cfg: Config, h: History, later: History)
    requires Accepted(cfg, h).Some?
    ensures Accepted(cfg, h + later).Some? && Published(cfg, h + later) == Published(cfg, h)
    ensures After(cfg, h + later).input == After(cfg, h).input && After(cfg, h + later).vault == After(cfg, h).vault
  {
    hide Attempt, Completes;
    if later == [] {
      assert h + later == h;
    } else {
      var front, e := later[..|later| - 1], later[|later| - 1];
      StagedForever(cfg, h, front);
      assert h + later == h + front + [e];
      StagedStep(cfg, h + front, e);
    }
  }

  /** The answer file always holds the restoration of some accepted response under the mapping
      that is still the published one: that response with its markers substituted, and with no
      marker-like token outside the mapping when such tokens are refused. */
  lemma {:induction false} AnswerIsRestoration(cfg: Config, h: History) returns (n: nat)
    requires After(cfg, h).restored.Some?
    ensures n <= |h| && Accepted(cfg, h[..n]).Some? && Published(cfg, h).Some?
    ensures var r, mapping := Accepted(cfg, h[..n]).value, Published(cfg, h).value.mapping;
            && Restore(r, mapping, cfg.failOnUnknown) == Ok(After(cfg, h).restored.value)
            && After(cfg, h).restored.value == Substitute(r, mapping)
            && (cfg.failOnUnknown ==> !Foreign(r, mapping))
  {
    hide Restore, Foreign;
    var prior, e := h[..|h| - 1], h[|h| - 1];
    assert h == prior + [e];
    if e.op.RestoreStaged? && After(cfg, h) != After(cfg, prior) {
      n := |prior|;
      RestoredIsAccepted(cfg, prior, e.writes);
      Snoc(cfg, prior, e);
      RestoreRefusedIff(Accepted(cfg, prior).value, Published(cfg, prior).value.mapping, cfg.failOnUnknown);
      assert h[..n] == prior;
    } else {
      RestoredUnchanged(cfg, prior, e);
      n := AnswerIsRestoration(cfg, prior);
      assert h[..n] == prior[..n];
      assert h == h[..n] + h[n..] && prior == prior[..n] + prior[n..];
      StagedForever(cfg, h[..n], h[n..]);
      StagedForever(cfg, h[..n], prior[n..]);
    }
  }

  lemma RestoredUnchanged(cfg: Config, h: History, e: Event)
    requires e.op.RestoreStaged? ==> After(cfg, h + [e]) == After(cfg, h)
    ensures After(cfg, h + [e]).restored == After(cfg, h).restored
  {
    Snoc(cfg, h, e);
    var d := After(cfg, h);
    if Plan(cfg, d, e.op).Ok? {
      match e.op
      case Create(req, provider) => CreateLeaves(cfg, d, req, provider, e.writes);
      case UpdatePrepared(req) => UpdateLeaves(cfg, d, req, e.writes);
      case StageResponse(text) => StageLeaves(cfg, d, text, e.writes);
      case RestoreStaged =>
    }
  }

  // ---- interrupted updates ----

  /** A completed create or update leaves files that agree: the state loads, and it is the
      marker state that was passed in. */
  lemma CompletionLoads(cfg: Config, h: History, e: Event)
    requires Sends(e.op) && Completes(cfg, After(cfg, h), e)
    ensures var d, req := After(cfg, h + [e]), e.op.req;
            && d.input == Content(req.rendered) && Published(cfg, h + [e]) == Some(req)
            && LoadState(d) == Ok((req.mapping, ReloadAliases(req.mapping, req.aliases)))
  {
    Snoc(cfg, h, e);
    var d := After(cfg, h);
    PlanLength(cfg, d, e.op);
    match e.op
    case Create(req, provider) => CreateLeaves(cfg, d, req, provider, e.writes);
    case UpdatePrepared(req) => UpdateLeaves(cfg, d, req, e.writes);
  }

  /** For a marker state built by the gateway, what loads is that state without its counters. */
  lemma CompletionRoundTrip(cfg: Config, h: History, e: Event, st: Vault, order: seq<string>)
    requires Sends(e.op) && Completes(cfg, After(cfg, h), e)
    requires ValidVault(cfg.u, st) && e.op.req.mapping == st.markerToValue && e.op.req.aliases == st.aliases
    requires forall m :: m in order <==> m in st.markerToValue
    ensures var loaded := LoadState(After(cfg, h + [e]));
            && loaded == Ok((st.markerToValue, st.aliases))
            && Reload(IdentityOf(cfg.u), loaded.value.0, loaded.value.1, order) == st.(counters := map[])
  {
    CompletionLoads(cfg, h, e);
    ReloadRoundTrip(cfg.u, st, order);
    assert Reload(IdentityOf(cfg.u), st.markerToValue, st.aliases, order).aliases
        == ReloadAliases(st.markerToValue, st.aliases);
  }

  /** An update cut off anywhere can be made again, with the same or another request: it is not
      refused, and all its writes bring the files back into agreement. */
  lemma InterruptedUpdateRecovers(cfg: Config, h: History, cut: Event, again: Request, k: nat)
    requires cut.op.UpdatePrepared? && Plan(cfg, After(cfg, h), cut.op).Ok?
    requires CleanRequest(cfg.u, again) && k >= 4
    ensures var h' := h + [cut] + [Event(UpdatePrepared(again), k)];
            && Published(cfg, h') == Some(again) && LoadState(After(cfg, h')).Ok?
            && After(cfg, h').input == Content(again.rendered)
  {
    Snoc(cfg, h, cut);
    UpdateLeaves(cfg, After(cfg, h), cut.op.req, cut.writes);
    PlanLength(cfg, After(cfg, h + [cut]), UpdatePrepared(again));
    CompletionLoads(cfg, h + [cut], Event(UpdatePrepared(again), k));
  }

  /** The payload file is the one the manifest records exactly when no update was cut off after
      writing a different payload. Nothing checks this before a response is staged. */
  lemma PayloadAgreesIff(cfg: Config, h: History)
    requires Published(cfg, h).Some?
    ensures LastSent(cfg, h).Some? && After(cfg, h).manifest.Content?
    ensures After(cfg, h).input == Content(After(cfg, h).manifest.value.payloadSum)
            <==> LastSent(cfg, h).value.rendered == Published(cfg, h).value.rendered
  {
    RunAgrees(cfg, h);
  }

  lemma NothingToLeak(u: Alphabet, text: string)
    ensures Clean(u, text, map[], map[])
  {
  }

  lemma MarkerlessIsClean(u: Alphabet, req: Request)
    requires req.mapping == map[] && req.aliases == map[]
    ensures CleanRequest(u, req)
  {
    hide Clean;
    forall f | f in req.fields ensures Clean(u, f, req.mapping, req.aliases) {
      NothingToLeak(u, f);
    }
  }

  lemma OverOtherPayload(cfg: Config, d: Disk, first: Request, second: Request, text: string)
    requires d.manifest == Content(CreatedManifest(first, Automatic)) && d.vault == Content(VaultOf(first))
    requires first.mapping == map[] && first.aliases == map[] && second.mapping == map[] && second.aliases == map[]
    requires |text| <= cfg.maxOutputChars
    ensures var d' := Attempt(cfg, d, Event(UpdatePrepared(second), 1));
            && d' == d.(input := Content(second.rendered))
            && Completes(cfg, d', Event(StageResponse(text), 2))
            && Attempt(cfg, d', Event(StageResponse(text), 2))
               == d'.(output := Some(text), manifest := Content(StagedManifest(d.manifest.value, text)))
  {
    MarkerlessIsClean(cfg.u, second);
    UpdateLeaves(cfg, d, second, 1);
    var d' := Attempt(cfg, d, Event(UpdatePrepared(second), 1));
    var state := LoadState(d');
    assert state.value.1 == map[];
    NothingToLeak(cfg.u, text);
    StageLeaves(cfg, d', text, 2);
  }

  lemma CreatedOnly(cfg: Config, h: History, first: Request)
    requires h == [Event(Create(first, Automatic), 9)] && CleanRequest(cfg.u, first)
    ensures Published(cfg, h) == Some(first)
    ensures After(cfg, h).manifest == Content(CreatedManifest(first, Automatic))
    ensures After(cfg, h).vault == Content(VaultOf(first))
  {
    hide CleanRequest;
    CreateLeaves(cfg, BLANK, first, Automatic, 9);
    assert h == [] + [h[0]];
    Snoc(cfg, [], h[0]);
  }

  /** An update cut off after its payload, then a response: the response is accepted and frozen
      although the payload file is not the recorded one. */
  lemma StagedOverOtherPayload(cfg: Config, h: History, first: Request, second: Request, text: string)
    requires first.mapping == map[] && first.aliases == map[] && second.mapping == map[] && second.aliases == map[]
    requires |text| <= cfg.maxOutputChars && first.rendered != second.rendered
    requires h == [Event(Create(first, Automatic), 9), Event(UpdatePrepared(second), 1), Event(StageResponse(text), 2)]
    ensures Accepted(cfg, h) == Some(text) && Published(cfg, h) == Some(first)
    ensures After(cfg, h).input == Content(second.rendered) && After(cfg, h).manifest.Content?
    ensures After(cfg, h).manifest.value.payloadSum == first.rendered
  {
    hide Attempt, VaultOf, CleanRequest;
    assert h[..1] == [h[0]] && h[..2] == h[..1] + [h[1]] && h == h[..2] + [h[2]];
    MarkerlessIsClean(cfg.u, first);
    CreatedOnly(cfg, h[..1], first);
    Snoc(cfg, h[..1], h[1]);
    Snoc(cfg, h[..2], h[2]);
    OverOtherPayload(cfg, After(cfg, h[..1]), first, second, text);
  }
}
