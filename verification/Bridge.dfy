/** The request bridge: one request's files, written in a fixed order by a process that may die
    between any two writes. A checksum is modelled by the value it is computed from. */
module Bridge {
  import opened Common
  import opened Text
  import opened Alphabet
  import opened Propagation
  import opened Gateway
  import opened Vaults

  /** A file written in place is torn between its truncation and its last byte. */
  datatype File<+T> = Absent | Torn | Content(value: T)

  datatype Status = Prepared | AwaitingResponse | ResponseReceived | Restored

  type Mapping = map<string, string>
  type Aliases = map<string, set<string>>

  datatype VaultFile = VaultFile(mappingSum: Mapping, mapping: Mapping, aliasesSum: Aliases, aliases: Aliases)

  datatype Manifest = Manifest(
    status: Status,
    payloadSum: string,
    mappingSum: Mapping,
    aliasesSum: Aliases,
    responseSum: Option<string>
  )

  datatype Disk = Disk(
    made: bool,                   // the request directory exists
    input: File<string>,          // codex_input.txt
    output: Option<string>,       // codex_output.txt
    vault: File<VaultFile>,
    sources: bool,                // sources.json
    manifest: File<Manifest>,
    restored: Option<string>      // restored_answer.txt
  )

  const BLANK := Disk(false, Absent, None, Absent, false, Absent, None)

  datatype Config = Config(u: Alphabet, maxOutputChars: nat, failOnUnknown: bool)

  datatype Provider = Manual | Automatic | Unsupported

  /** What a create or update publishes: the request-derived fields, the rendered payload and
      the markers. */
  datatype Request = Request(fields: seq<string>, rendered: string, mapping: Mapping, aliases: Aliases)

  // ---- reading ----

  /** The values that each marker may stand for. */
  function Meant(mapping: Mapping, aliases: Aliases): map<string, set<string>> {
    map m | m in mapping :: if m in aliases then aliases[m] else {mapping[m]}
  }

  /** `validate_outbound` for the markers of a mapping and their alias sets. */
  predicate Clean(u: Alphabet, text: string, mapping: Mapping, aliases: Aliases) {
    OutboundClean(u, text, Meant(mapping, aliases))
  }

  predicate CleanRequest(u: Alphabet, req: Request) {
    forall f <- req.fields :: Clean(u, f, req.mapping, req.aliases)
  }

  /** `load_state`: the mapping and aliases, when the vault agrees with itself and the manifest. */
  function LoadState(disk: Disk): (r: Outcome<(Mapping, Aliases)>)
    ensures r.Ok? ==> disk.vault.Content? && disk.manifest.Content?
  {
    if !disk.vault.Content? || !disk.manifest.Content? then Refused
    else
      var v, m := disk.vault.value, disk.manifest.value;
      if v.mapping != v.mappingSum || v.mapping != m.mappingSum then Refused
      else if v.aliases != v.aliasesSum || v.aliasesSum != m.aliasesSum then Refused
      else Ok((v.mapping, ReloadAliases(v.mapping, v.aliases)))
  }

  // ---- writing ----

  datatype Write =
    | MakeDirectory
    | TearInput | PutInput(payload: string)
    | PutOutput(text: string)
    | TearVault | PutVault(file: VaultFile)
    | PutSources
    | TearManifest | PutManifest(record: Manifest)
    | PutRestored(answer: string)

  function Apply(disk: Disk, w: Write): Disk {
    match w
    case MakeDirectory => disk.(made := true)
    case TearInput => disk.(input := Torn)
    case PutInput(t) => disk.(input := Content(t))
    case PutOutput(t) => disk.(output := Some(t))
    case TearVault => disk.(vault := Torn)
    case PutVault(v) => disk.(vault := Content(v))
    case PutSources => disk.(sources := true)
    case TearManifest => disk.(manifest := Torn)
    case PutManifest(m) => disk.(manifest := Content(m))
    case PutRestored(t) => disk.(restored := Some(t))
  }

  /** The disk after the first `k` of the writes, when the process dies after `k`. */
  function Run(disk: Disk, ws: seq<Write>, k: nat): Disk
    decreases k
  {
    if ws == [] || k == 0 then disk else Run(Apply(disk, ws[0]), ws[1..], k - 1)
  }

  function VaultOf(req: Request): VaultFile {
    VaultFile(req.mapping, req.mapping, req.aliases, req.aliases)
  }

  datatype Op =
    | Create(req: Request, provider: Provider)
    | UpdatePrepared(req: Request)
    | StageResponse(text: string)
    | RestoreStaged
    | Overwrite(found: Option<string>)   // somebody else rewrites or removes codex_output.txt

  /** The writes an operation will make, or its refusal. */
  function Plan(cfg: Config, disk: Disk, op: Op): Outcome<seq<Write>> {
    match op
    case Create(req, provider) => PlanCreate(cfg, disk, req, provider)
    case UpdatePrepared(req) => PlanUpdate(cfg, disk, req)
    case StageResponse(text) => PlanStage(cfg, disk, text)
    case RestoreStaged => PlanRestore(cfg, disk)
    case Overwrite(_) => Refused
  }

  function PlanCreate(cfg: Config, disk: Disk, req: Request, provider: Provider): Outcome<seq<Write>> {
    if provider.Unsupported? || !CleanRequest(cfg.u, req) || disk.made then Refused
    else Ok(TextFiles(req) + RecordFiles(req, provider))
  }

  function TextFiles(req: Request): seq<Write> {
    [MakeDirectory, TearInput, PutInput(req.rendered), PutOutput("")]
  }

  function RecordFiles(req: Request, provider: Provider): seq<Write> {
    [TearVault, PutVault(VaultOf(req)), PutSources, TearManifest, PutManifest(CreatedManifest(req, provider))]
  }

  function CreatedManifest(req: Request, provider: Provider): Manifest {
    Manifest(if provider.Manual? then AwaitingResponse else Prepared, req.rendered, req.mapping, req.aliases, None)
  }

  function PlanUpdate(cfg: Config, disk: Disk, req: Request): Outcome<seq<Write>> {
    if !disk.manifest.Content? || disk.manifest.value.status != Prepared || !CleanRequest(cfg.u, req) then Refused
    else
      Ok([PutInput(req.rendered), PutVault(VaultOf(req)), PutSources,
          PutManifest(UpdatedManifest(disk.manifest.value, req))])
  }

  function UpdatedManifest(m: Manifest, req: Request): Manifest {
    m.(payloadSum := req.rendered, mappingSum := req.mapping, aliasesSum := req.aliases)
  }

  function PlanStage(cfg: Config, disk: Disk, text: string): Outcome<seq<Write>> {
    var state := LoadState(disk);
    if |text| > cfg.maxOutputChars || state.Refused? || !Clean(cfg.u, text, state.value.0, state.value.1) then Refused
    else Ok([PutOutput(text), PutManifest(StagedManifest(disk.manifest.value, text))])
  }

  function StagedManifest(m: Manifest, text: string): Manifest {
    m.(status := ResponseReceived, responseSum := Some(text))
  }

  function PlanRestore(cfg: Config, disk: Disk): Outcome<seq<Write>> {
    if disk.output.None? || !disk.manifest.Content? then Refused
    else
      var text, state := disk.output.value, LoadState(disk);
      if Strip(text) == "" || disk.manifest.value.responseSum != Some(text) || state.Refused? then Refused
      else if !Clean(cfg.u, text, state.value.0, state.value.1) then Refused
      else
        match Restore(text, state.value.0, cfg.failOnUnknown)
        case Refused => Refused
        case Ok(answer) => Ok([PutRestored(answer), PutManifest(disk.manifest.value.(status := Restored))])
  }

  /** An operation cut off after `writes` writes. */
  datatype Event = Event(op: Op, writes: nat)

  function Attempt(cfg: Config, disk: Disk, e: Event): Disk {
    if e.op.Overwrite? then (if disk.made then disk.(output := e.op.found) else disk)
    else
      match Plan(cfg, disk, e.op)
      case Refused => disk
      case Ok(ws) => Run(disk, ws, e.writes)
  }

  /** The operation was not refused and made all its writes. */
  predicate Completes(cfg: Config, disk: Disk, e: Event) {
    var plan := Plan(cfg, disk, e.op);
    plan.Ok? && |plan.value| <= e.writes
  }

  // ---- whole runs ----

  type History = seq<Event>

  function After(cfg: Config, h: History): Disk {
    if h == [] then BLANK else Attempt(cfg, After(cfg, h[..|h| - 1]), h[|h| - 1])
  }

  /** The last completed create or update of a run. */
  function Published(cfg: Config, h: History): Option<Request> {
    if h == [] then None
    else
      var prior, e := h[..|h| - 1], h[|h| - 1];
      if (e.op.Create? || e.op.UpdatePrepared?) && Completes(cfg, After(cfg, prior), e) then Some(e.op.req)
      else Published(cfg, prior)
  }

  /** The last response that a completed `stage_response` accepted. */
  function Accepted(cfg: Config, h: History): Option<string> {
    if h == [] then None
    else
      var prior, e := h[..|h| - 1], h[|h| - 1];
      if e.op.StageResponse? && Completes(cfg, After(cfg, prior), e) then Some(e.op.text) else Accepted(cfg, prior)
  }

  predicate Sends(op: Op) {
    op.Create? || op.UpdatePrepared?
  }

  /** The request whose payload last reached codex_input.txt, complete or not afterwards. */
  function LastSent(cfg: Config, h: History): Option<Request> {
    if h == [] then None
    else
      var prior, e := h[..|h| - 1], h[|h| - 1];
      var need := if e.op.Create? then 3 else 1;
      if Sends(e.op) && Plan(cfg, After(cfg, prior), e.op).Ok? && e.writes >= need then Some(e.op.req)
      else LastSent(cfg, prior)
  }

  /** The request whose markers last reached the vault. */
  function LastVaulted(cfg: Config, h: History): Option<Request> {
    if h == [] then None
    else
      var prior, e := h[..|h| - 1], h[|h| - 1];
      var need := if e.op.Create? then 6 else 2;
      if Sends(e.op) && Plan(cfg, After(cfg, prior), e.op).Ok? && e.writes >= need then Some(e.op.req)
      else LastVaulted(cfg, prior)
  }

  // ---- the disk after a cut-off operation ----

  lemma RunStep(disk: Disk, ws: seq<Write>, k: nat)
    requires ws != [] && k > 0
    ensures Run(disk, ws, k) == Run(Apply(disk, ws[0]), ws[1..], k - 1)
  {
  }

  /** What each prefix of four writes leaves. */
  lemma RunFour(disk: Disk, a: Write, b: Write, c: Write, d: Write, k: nat)
    ensures Run(disk, [a, b, c, d], k) ==
            if k == 0 then disk
            else if k == 1 then Apply(disk, a)
            else if k == 2 then Apply(Apply(disk, a), b)
            else if k == 3 then Apply(Apply(Apply(disk, a), b), c)
            else Apply(Apply(Apply(Apply(disk, a), b), c), d)
  {
    assert [a, b] + [c, d] == [a, b, c, d];
    RunAppend(disk, [a, b], [c, d], k);
    RunTwo(disk, a, b, if k <= 2 then k else 2);
    if k > 2 {
      RunTwo(Apply(Apply(disk, a), b), c, d, k - 2);
    }
  }

  lemma RunTwo(disk: Disk, a: Write, b: Write, k: nat)
    ensures Run(disk, [a, b], k) ==
            if k == 0 then disk else if k == 1 then Apply(disk, a) else Apply(Apply(disk, a), b)
  {
    assert [a, b][1..] == [b] && [b][1..] == [];
    if k > 0 {
      RunStep(disk, [a, b], k);
      if k > 1 {
        RunStep(Apply(disk, a), [b], k - 1);
      }
    }
  }

  lemma {:induction false} RunAppend(disk: Disk, p: seq<Write>, q: seq<Write>, k: nat)
    ensures Run(disk, p + q, k) == if k <= |p| then Run(disk, p, k) else Run(Run(disk, p, |p|), q, k - |p|)
    decreases k
  {
    if p == [] {
      assert p + q == q;
    } else if k > 0 {
      assert (p + q)[1..] == p[1..] + q;
      RunAppend(Apply(disk, p[0]), p[1..], q, k - 1);
    }
  }

  lemma UpdateLeaves(cfg: Config, disk: Disk, req: Request, k: nat)
    requires Plan(cfg, disk, UpdatePrepared(req)).Ok?
    ensures Attempt(cfg, disk, Event(UpdatePrepared(req), k)) ==
            disk.(input := if k >= 1 then Content(req.rendered) else disk.input,
                  vault := if k >= 2 then Content(VaultOf(req)) else disk.vault,
                  sources := k >= 3 || disk.sources,
                  manifest := if k >= 4 then Content(UpdatedManifest(disk.manifest.value, req)) else disk.manifest)
  {
    RunFour(disk, PutInput(req.rendered), PutVault(VaultOf(req)), PutSources,
            PutManifest(UpdatedManifest(disk.manifest.value, req)), k);
  }

  lemma CreateLeaves(cfg: Config, disk: Disk, req: Request, provider: Provider, k: nat)
    requires Plan(cfg, disk, Create(req, provider)).Ok?
    ensures Attempt(cfg, disk, Event(Create(req, provider), k)) ==
            disk.(made := k >= 1 || disk.made,
                  input := if k >= 3 then Content(req.rendered) else if k == 2 then Torn else disk.input,
                  output := if k >= 4 then Some("") else disk.output,
                  vault := if k >= 6 then Content(VaultOf(req)) else if k == 5 then Torn else disk.vault,
                  sources := k >= 7 || disk.sources,
                  manifest := if k >= 9 then Content(CreatedManifest(req, provider))
                              else if k == 8 then Torn else disk.manifest)
  {
    RunAppend(disk, TextFiles(req), RecordFiles(req, provider), k);
    TextFilesLeave(disk, req, if k <= 4 then k else 4);
    if k > 4 {
      RecordFilesLeave(Run(disk, TextFiles(req), 4), req, provider, k - 4);
    }
  }

  lemma TextFilesLeave(disk: Disk, req: Request, k: nat)
    ensures Run(disk, TextFiles(req), k) ==
            disk.(made := k >= 1 || disk.made,
                  input := if k >= 3 then Content(req.rendered) else if k == 2 then Torn else disk.input,
                  output := if k >= 4 then Some("") else disk.output)
  {
    RunFour(disk, MakeDirectory, TearInput, PutInput(req.rendered), PutOutput(""), k);
  }

  lemma RecordFilesLeave(disk: Disk, req: Request, provider: Provider, k: nat)
    ensures Run(disk, RecordFiles(req, provider), k) ==
            disk.(vault := if k >= 2 then Content(VaultOf(req)) else if k == 1 then Torn else disk.vault,
                  sources := k >= 3 || disk.sources,
                  manifest := if k >= 5 then Content(CreatedManifest(req, provider))
                              else if k == 4 then Torn else disk.manifest)
  {
    var v, m := PutVault(VaultOf(req)), PutManifest(CreatedManifest(req, provider));
    assert RecordFiles(req, provider) == [TearVault, v, PutSources, TearManifest] + [m];
    RunAppend(disk, [TearVault, v, PutSources, TearManifest], [m], k);
    RunFour(disk, TearVault, v, PutSources, TearManifest, if k <= 4 then k else 4);
    if k > 4 {
      RunStep(Run(disk, [TearVault, v, PutSources, TearManifest], 4), [m], k - 4);
    }
  }

  lemma StageLeaves(cfg: Config, disk: Disk, text: string, k: nat)
    requires Plan(cfg, disk, StageResponse(text)).Ok?
    ensures Attempt(cfg, disk, Event(StageResponse(text), k)) ==
            disk.(output := if k >= 1 then Some(text) else disk.output,
                  manifest := if k >= 2 then Content(StagedManifest(disk.manifest.value, text)) else disk.manifest)
  {
    RunTwo(disk, PutOutput(text), PutManifest(StagedManifest(disk.manifest.value, text)), k);
  }

  lemma RestoreLeaves(cfg: Config, disk: Disk, k: nat)
    requires Plan(cfg, disk, RestoreStaged).Ok?
    ensures var state, m := LoadState(disk), disk.manifest.value;
            && disk.output.Some? && state.Ok?
            && var answer := Restore(disk.output.value, state.value.0, cfg.failOnUnknown);
            && answer.Ok?
            && Attempt(cfg, disk, Event(RestoreStaged, k)) ==
               disk.(restored := if k >= 1 then Some(answer.value) else disk.restored,
                     manifest := if k >= 2 then Content(m.(status := Restored)) else disk.manifest)
  {
    hide Clean, Restore;
    var answer := Restore(disk.output.value, LoadState(disk).value.0, cfg.failOnUnknown);
    RunTwo(disk, PutRestored(answer.value), PutManifest(disk.manifest.value.(status := Restored)), k);
  }
}
