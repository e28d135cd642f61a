/** The bridge on mutable files, write by write, equal to the plans of the protocol. */
module BridgeManager {
  import opened Common
  import opened Text
  import opened Alphabet
  import opened Gateway
  import opened Vaults
  import opened Bridge

  datatype Ended = Done | Raised | Died

  /** One request's files, in a process that has `writesLeft` writes to live. */
  class RequestFiles {
    var made: bool
    var input: File<string>
    var output: Option<string>
    var vault: File<VaultFile>
    var sources: bool
    var manifest: File<Manifest>
    var restored: Option<string>
    var writesLeft: nat

    constructor (lifetime: nat)
      ensures View() == BLANK && writesLeft == lifetime
    {
      made, input, output, vault := false, Absent, None, Absent;
      sources, manifest, restored := false, Absent, None;
      writesLeft := lifetime;
    }

    function View(): Disk
      reads this
    {
      Disk(made, input, output, vault, sources, manifest, restored)
    }

    /** Makes one write, if the process still lives. */
    method Put(w: Write) returns (alive: bool)
      modifies this
      ensures alive <==> old(writesLeft) > 0
      ensures alive ==> View() == Apply(old(View()), w) && writesLeft == old(writesLeft) - 1
      ensures !alive ==> View() == old(View()) && writesLeft == 0
    {
      if writesLeft == 0 {
        return false;
      }
      writesLeft := writesLeft - 1;
      match w {
        case MakeDirectory => made := true;
        case TearInput => input := Torn;
        case PutInput(t) => input := Content(t);
        case PutOutput(t) => output := Some(t);
        case TearVault => vault := Torn;
        case PutVault(v) => vault := Content(v);
        case PutSources => sources := true;
        case TearManifest => manifest := Torn;
        case PutManifest(m) => manifest := Content(m);
        case PutRestored(t) => restored := Some(t);
      }
      return true;
    }
  }

  /** The writes still to make lead from here to where the whole plan leads. */
  ghost predicate Leads(start: Disk, plan: seq<Write>, life: nat, files: RequestFiles, rest: seq<Write>)
    reads files
  {
    && Run(start, plan, life) == Run(files.View(), rest, files.writesLeft)
    && |rest| <= |plan|
    && (life >= |plan| <==> files.writesLeft >= |rest|)
  }

  class Manager {
    const cfg: Config
    const files: RequestFiles

    constructor (cfg: Config, files: RequestFiles)
      ensures this.cfg == cfg && this.files == files
    {
      this.cfg := cfg;
      this.files := files;
    }

    /** What an operation did: refused, or its whole plan, or as much as the process lived for. */
    twostate predicate Did(op: Op, ended: Ended)
      reads this, files
    {
      var plan := Plan(cfg, old(files.View()), op);
      && files.View() == Attempt(cfg, old(files.View()), Event(op, old(files.writesLeft)))
      && (ended == Raised <==> plan.Refused?)
      && (ended == Done <==> Completes(cfg, old(files.View()), Event(op, old(files.writesLeft))))
    }

    method ValidateDynamicPayload(req: Request) returns (clean: bool)
      ensures clean <==> CleanRequest(cfg.u, req)
    {
      hide Clean;
      for i := 0 to |req.fields|
        invariant forall j :: 0 <= j < i ==> Clean(cfg.u, req.fields[j], req.mapping, req.aliases)
      {
        if !Clean(cfg.u, req.fields[i], req.mapping, req.aliases) {
          return false;
        }
      }
      return true;
    }

    /** One write of a plan. */
    method Follow(ghost start: Disk, ghost plan: seq<Write>, ghost life: nat, w: Write, ghost rest: seq<Write>)
      returns (alive: bool)
      requires Leads(start, plan, life, files, [w] + rest)
      modifies files
      ensures alive ==> files.View() == Apply(old(files.View()), w)
      ensures alive ==> Leads(start, plan, life, files, rest)
      ensures alive && rest == [] ==> files.View() == Run(start, plan, life) && life >= |plan|
      ensures !alive ==> files.View() == Run(start, plan, life) && life < |plan|
    {
      if files.writesLeft > 0 {
        RunStep(files.View(), [w] + rest, files.writesLeft);
        assert ([w] + rest)[1..] == rest;
      }
      alive := files.Put(w);
    }

    /** `Path.write_text`: truncates the file, then fills it. */
    method WriteInPlace(ghost start: Disk, ghost plan: seq<Write>, ghost life: nat, tear: Write, fill: Write,
                        ghost rest: seq<Write>) returns (alive: bool)
      requires Leads(start, plan, life, files, [tear, fill] + rest)
      modifies files
      ensures alive ==> Leads(start, plan, life, files, rest)
      ensures alive && rest == [] ==> files.View() == Run(start, plan, life) && life >= |plan|
      ensures !alive ==> files.View() == Run(start, plan, life) && life < |plan|
    {
      hide Run;
      assert [tear] + ([fill] + rest) == [tear, fill] + rest;
      alive := Follow(start, plan, life, tear, [fill] + rest);
      if alive {
        alive := Follow(start, plan, life, fill, rest);
      }
    }

    method Create(req: Request, provider: Provider) returns (ended: Ended)
      modifies files
      ensures Did(Op.Create(req, provider), ended)
    {
      hide CleanRequest, Run, RecordFiles;
      if provider == Unsupported {
        return Raised;
      }
      var clean := ValidateDynamicPayload(req);
      if !clean || files.made {
        return Raised;
      }
      ghost var start, life := files.View(), files.writesLeft;
      ghost var plan := TextFiles(req) + RecordFiles(req, provider);
      var input := PutInput(req.rendered);
      assert plan == [MakeDirectory] + ([TearInput, input] + ([PutOutput("")] + RecordFiles(req, provider)));
      var alive := Follow(start, plan, life, MakeDirectory,
                          [TearInput, input] + ([PutOutput("")] + RecordFiles(req, provider)));
      if !alive { return Died; }
      alive := WriteInPlace(start, plan, life, TearInput, input, [PutOutput("")] + RecordFiles(req, provider));
      if !alive { return Died; }
      alive := Follow(start, plan, life, PutOutput(""), RecordFiles(req, provider));
      if !alive { return Died; }
      alive := WriteRecords(start, plan, life, req, provider);
      if !alive { return Died; }
      return Done;
    }

    method WriteRecords(ghost start: Disk, ghost plan: seq<Write>, ghost life: nat, req: Request, provider: Provider)
      returns (alive: bool)
      requires Leads(start, plan, life, files, RecordFiles(req, provider))
      modifies files
      ensures files.View() == Run(start, plan, life)
      ensures alive <==> life >= |plan|
    {
      hide Run, VaultOf, CreatedManifest;
      var vault, manifest := VaultOf(req), CreatedManifest(req, provider);
      assert RecordFiles(req, provider)
          == [TearVault, PutVault(vault)] + ([PutSources] + ([TearManifest, PutManifest(manifest)] + []));
      alive := WriteInPlace(start, plan, life, TearVault, PutVault(vault),
                            [PutSources] + ([TearManifest, PutManifest(manifest)] + []));
      if alive {
        alive := Follow(start, plan, life, PutSources, [TearManifest, PutManifest(manifest)] + []);
      }
      if alive {
        alive := WriteInPlace(start, plan, life, TearManifest, PutManifest(manifest), []);
      }
    }

    method UpdatePrepared(req: Request) returns (ended: Ended)
      modifies files
      ensures Did(Op.UpdatePrepared(req), ended)
    {
      if !files.manifest.Content? || files.manifest.value.status != Prepared {
        return Raised;
      }
      var clean := ValidateDynamicPayload(req);
      if !clean {
        return Raised;
      }
      ghost var start, life := files.View(), files.writesLeft;
      var vault := VaultOf(req);
      var manifest := UpdatedManifest(files.manifest.value, req);
      ghost var plan := [PutInput(req.rendered), PutVault(vault), PutSources, PutManifest(manifest)];
      assert [PutInput(req.rendered)] + plan[1..] == plan;
      var alive := Follow(start, plan, life, PutInput(req.rendered), plan[1..]);
      if !alive { return Died; }
      assert [PutVault(vault)] + plan[2..] == plan[1..];
      alive := Follow(start, plan, life, PutVault(vault), plan[2..]);
      if !alive { return Died; }
      assert [PutSources] + plan[3..] == plan[2..];
      alive := Follow(start, plan, life, PutSources, plan[3..]);
      if !alive { return Died; }
      assert [PutManifest(manifest)] + plan[4..] == plan[3..];
      alive := Follow(start, plan, life, PutManifest(manifest), plan[4..]);
      if !alive { return Died; }
      return Done;
    }

    method StageResponse(text: string) returns (ended: Ended)
      modifies files
      ensures Did(Op.StageResponse(text), ended)
    {
      hide Clean, LoadState, Run;
      if |text| > cfg.maxOutputChars {
        return Raised;
      }
      var state := LoadState(files.View());
      if state.Refused? || !Clean(cfg.u, text, state.value.0, state.value.1) {
        return Raised;
      }
      ghost var start, life := files.View(), files.writesLeft;
      ghost var plan := [PutOutput(text), PutManifest(StagedManifest(files.manifest.value, text))];
      assert [PutOutput(text)] + plan[1..] == plan;
      var alive := Follow(start, plan, life, PutOutput(text), plan[1..]);
      if !alive { return Died; }
      var manifest := StagedManifest(files.manifest.value, text);
      assert [PutManifest(manifest)] + plan[2..] == plan[1..];
      alive := Follow(start, plan, life, PutManifest(manifest), plan[2..]);
      if !alive { return Died; }
      return Done;
    }

    method RestoreStaged() returns (ended: Ended)
      modifies files
      ensures Did(Op.RestoreStaged, ended)
    {
      hide Clean, LoadState, Restore, Run;
      if files.output.None? || !files.manifest.Content? {
        return Raised;
      }
      var text, manifest := files.output.value, files.manifest.value;
      if Strip(text) == "" || manifest.responseSum != Some(text) {
        return Raised;
      }
      var state := LoadState(files.View());
      if state.Refused? || !Clean(cfg.u, text, state.value.0, state.value.1) {
        return Raised;
      }
      var answer := Restore(text, state.value.0, cfg.failOnUnknown);
      if answer.Refused? {
        return Raised;
      }
      ghost var start, life := files.View(), files.writesLeft;
      var restored := manifest.(status := Restored);
      ghost var plan := [PutRestored(answer.value), PutManifest(restored)];
      assert [PutRestored(answer.value)] + plan[1..] == plan;
      var alive := Follow(start, plan, life, PutRestored(answer.value), plan[1..]);
      if !alive { return Died; }
      assert [PutManifest(restored)] + plan[2..] == plan[1..];
      alive := Follow(start, plan, life, PutManifest(restored), plan[2..]);
      if !alive { return Died; }
      return Done;
    }
  }
}
