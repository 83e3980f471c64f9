/** The tracer path: runs advanced step by step by commands, and what every history of commands guarantees. */
module Tracer {
  import opened Wrappers
  import opened Contracts
  import opened Decimal
  import opened Fields

  datatype Principal = Principal(id: string, tenant: string, session: string)

  datatype StepName = Session | Ingest | Ask | Intent | Plan | Review | DraftPr | Outcome | Unrecognised

  datatype Variant = Unspecified | Authorized | Absent | Stale | Unauthorized | Revoked | Unknown

  datatype State =
    | ManifestPinned | Ready | Answered | Abstained | IntentApproved | Planned | Reviewing | EffectPending | DraftPrCreated
    | Complete

  datatype Error = UnknownScope | IdempotencyConflict

  datatype Command = Command(step: StepName, principal: Principal, key: string, runId: Option<Identifier>,
                             manifest: Option<Digest>, variant: Variant, baseGitOid: string, effectApproval: string,
                             changeSet: string)

  /** What the workflow compiler, the workflow checks, the broker and the outcome admission answer. */
  datatype Answers = Answers(workflow: Option<string>, noRedispatch: bool, sealed: bool, published: Option<string>,
                             admitted: Option<string>)

  datatype Config = Config(manifestHex: string, denied: string, baseGitOid: string, digest: string -> string)

  datatype Run = Run(id: string, principal: Principal, state: State, variant: Variant, watermark: nat,
                     workflow: Option<string>, draft: Option<string>, outcome: Option<string>,
                     idempotency: map<string, string>, effectApproval: string, changeSet: string)

  type Runs = map<string, Run>

  // ----- the steps of one run ------------------------------------------------------------------------

  /** A step leaves the run in some state whether it succeeds, with a reason code, or fails. */
  datatype Effect = Effect(run: Run, result: Result<string, Error>)

  /** Watermarks are 64-bit. */
  function Successor(watermark: nat): nat {
    (watermark + 1) % (MAX_UINT64 + 1)
  }

  function Tick(run: Run): Run {
    run.(watermark := Successor(run.watermark))
  }

  function Enter(run: Run, state: State): Effect {
    Effect(Tick(run.(state := state)), Ok(""))
  }

  function Refuse(run: Run): Effect {
    Effect(run, Err(UnknownScope))
  }

  /** Binds a key to a step, unless it is bound to another one. */
  function Remember(run: Run, key: string, step: string): Option<Run> {
    if key == "" then Some(run)
    else if key in run.idempotency && run.idempotency[key] != step then None
    else Some(run.(idempotency := run.idempotency[key := step]))
  }

  function StepIngest(cfg: Config, run: Run, cmd: Command): Effect {
    if cmd.manifest != Some(Digest("sha256", cfg.manifestHex)) then Refuse(run)
    else
      match Remember(run, cmd.key, "ingest")
      case None => Effect(run, Err(IdempotencyConflict))
      case Some(r) => Enter(r, Ready)
  }

  function ReasonOf(v: Variant): Option<string> {
    match v
    case Authorized => Some("")
    case Absent => Some("SPAN_ABSENT")
    case Stale => Some("SPAN_STALE")
    case Unauthorized => Some("SPAN_UNAUTHORIZED")
    case Revoked => Some("SPAN_REVOKED")
    case _ => None
  }

  function StepAsk(run: Run, cmd: Command): Effect {
    if !run.state.Ready? && !run.state.Answered? && !run.state.Abstained? then Refuse(run)
    else
      match Remember(run, cmd.key, "ask")
      case None => Effect(run, Err(IdempotencyConflict))
      case Some(r) =>
        var variant := if cmd.variant.Unspecified? then Authorized else cmd.variant;
        var asked := Tick(r.(variant := variant));
        if ReasonOf(variant).None? then Refuse(asked)
        else Effect(asked.(state := if variant.Authorized? then Answered else Abstained), Ok(ReasonOf(variant).value))
  }

  function StepIntent(cfg: Config, run: Run, cmd: Command, ans: Answers): Effect {
    if !run.state.Answered? || cmd.baseGitOid != cfg.baseGitOid then Refuse(run)
    else
      match Remember(run, cmd.key, "intent")
      case None => Effect(run, Err(IdempotencyConflict))
      case Some(r) => if ans.workflow.None? then Refuse(r) else Enter(r.(workflow := ans.workflow), IntentApproved)
  }

  function StepPlan(run: Run, ans: Answers): Effect {
    if run.workflow.None? || !ans.noRedispatch || !ans.sealed then Refuse(run) else Enter(run, Planned)
  }

  function StepReview(run: Run): Effect {
    if !run.state.Planned? && !run.state.Reviewing? && !run.state.EffectPending? then Refuse(run)
    else Enter(run, EffectPending)
  }

  function StepDraftPr(run: Run, cmd: Command, ans: Answers): Effect {
    if !run.state.EffectPending? && !run.state.DraftPrCreated? then Refuse(run)
    else if cmd.effectApproval == "" || cmd.changeSet == "" then Refuse(run)
    else
      match Remember(run, cmd.key, "draft-pr")
      case None => Effect(run, Err(IdempotencyConflict))
      case Some(r) =>
        if r.draft.Some? && r.state.DraftPrCreated? then Effect(Tick(r), Ok(""))
        else if ans.published.None? then Refuse(r)
        else
          Enter(r.(draft := ans.published, effectApproval := cmd.effectApproval, changeSet := cmd.changeSet), DraftPrCreated)
  }

  function StepOutcome(run: Run, cmd: Command, ans: Answers): Effect {
    if run.outcome.Some? && run.state.Complete? then Effect(Tick(run), Ok(""))
    else if run.draft.None? || !run.state.DraftPrCreated? then Refuse(run)
    else
      match Remember(run, cmd.key, "outcome")
      case None => Effect(run, Err(IdempotencyConflict))
      case Some(r) => if ans.admitted.None? then Refuse(r) else Enter(r.(outcome := ans.admitted), Complete)
  }

  /** A step other than opening a session, on the run it names. */
  function StepOn(cfg: Config, run: Run, cmd: Command, ans: Answers): Effect {
    match cmd.step
    case Ingest => StepIngest(cfg, run, cmd)
    case Ask => StepAsk(run, cmd)
    case Intent => StepIntent(cfg, run, cmd, ans)
    case Plan => StepPlan(run, ans)
    case Review => StepReview(run)
    case DraftPr => StepDraftPr(run, cmd, ans)
    case Outcome => StepOutcome(run, cmd, ans)
    case _ => Refuse(run)
  }

  // ----- runs and commands ---------------------------------------------------------------------------

  function RunMaterial(p: Principal, key: string): string {
    Join([p.tenant, p.id, p.session, key])
  }

  function RunId(cfg: Config, p: Principal, key: string): string {
    cfg.digest(RunMaterial(p, key))
  }

  function NewRun(cfg: Config, cmd: Command): Run {
    Run(RunId(cfg, cmd.principal, cmd.key), cmd.principal, ManifestPinned, Authorized, 1, None, None, None,
        map[cmd.key := "session"], "", "")
  }

  /** The run a command names, if it is the command's principal's. */
  function RequireRun(runs: Runs, cmd: Command): Option<string> {
    if cmd.runId.None? || cmd.runId.value.namespace != "run" then None
    else
      var id := cmd.runId.value.value;
      if id !in runs || runs[id].principal != cmd.principal then None else Some(id)
  }

  /** The run a command is about: for a session the one it opens or resumes. */
  function Target(cfg: Config, runs: Runs, cmd: Command): Option<string> {
    if cmd.principal.id == cfg.denied || cmd.step.Unrecognised? then None
    else if cmd.step.Session? then Some(RunId(cfg, cmd.principal, cmd.key))
    else RequireRun(runs, cmd)
  }

  function EffectOn(cfg: Config, runs: Runs, cmd: Command, ans: Answers, id: string): Effect
    requires Target(cfg, runs, cmd) == Some(id)
  {
    if !cmd.step.Session? then StepOn(cfg, runs[id], cmd, ans)
    else if id in runs then Effect(Tick(runs[id]), Ok(""))
    else Effect(NewRun(cfg, cmd), Ok(""))
  }

  /** What a successful step adds to the history of its run. */
  datatype Mark =
    | Opened
    | Ingested(manifest: string)
    | AnsweredAuthorized
    | AbstainedBecause(reason: string)
    | IntentAdmitted(base: string)
    | PlanChecked
    | ReviewPassed
    | DraftPublished(approval: string, changeSet: string)
    | OutcomeAdmitted

  datatype Event = Event(run: string, mark: Mark)

  /** The runs, and the successful steps so far. */
  datatype Trace = Trace(runs: Runs, log: seq<Event>)

  function MarkOf(cmd: Command, e: Effect): Mark
    requires e.result.Ok?
  {
    match cmd.step
    case Ingest => Ingested(if cmd.manifest.Some? then cmd.manifest.value.hex else "")
    case Ask => if e.result.value == "" then AnsweredAuthorized else AbstainedBecause(e.result.value)
    case Intent => IntentAdmitted(cmd.baseGitOid)
    case Plan => PlanChecked
    case Review => ReviewPassed
    case DraftPr => DraftPublished(e.run.effectApproval, e.run.changeSet)
    case Outcome => OutcomeAdmitted
    case _ => Opened
  }

  /** One command. */
  function Next(cfg: Config, t: Trace, cmd: Command, ans: Answers): Trace {
    match Target(cfg, t.runs, cmd)
    case None => t
    case Some(id) =>
      var e := EffectOn(cfg, t.runs, cmd, ans, id);
      Trace(t.runs[id := e.run], if e.result.Ok? then t.log + [Event(id, MarkOf(cmd, e))] else t.log)
  }

  function ResultOf(cfg: Config, runs: Runs, cmd: Command, ans: Answers): Result<string, Error> {
    match Target(cfg, runs, cmd)
    case None => Err(UnknownScope)
    case Some(id) => EffectOn(cfg, runs, cmd, ans, id).result
  }

  /** The run states, kept and changed in place. */
  class TracerPath {
    const config: Config
    var runs: Runs
    ghost var log: seq<Event>

    constructor (config: Config)
      ensures this.config == config && runs == map[] && log == []
    {
      this.config := config;
      runs, log := map[], [];
    }

    /** Serves one command: the trace takes the step that the command asks for. */
    method Advance(cmd: Command, ans: Answers) returns (result: Result<string, Error>)
      modifies this
      ensures Trace(runs, log) == Next(config, Trace(old(runs), old(log)), cmd, ans)
      ensures result == ResultOf(config, old(runs), cmd, ans)
    {
      hide StepOn;
      if cmd.principal.id == config.denied {
        return Err(UnknownScope);
      }
      if cmd.step.Unrecognised? {
        return Err(UnknownScope);
      }
      if cmd.step.Session? {
        result := StepSession(cmd);
        return;
      }
      var named := RequireRun(runs, cmd);
      if named.None? {
        return Err(UnknownScope);
      }
      var effect := StepOn(config, runs[named.value], cmd, ans);
      runs := runs[named.value := effect.run];
      if effect.result.Ok? {
        log := log + [Event(named.value, MarkOf(cmd, effect))];
      }
      return effect.result;
    }

    /** Opens a session, or resumes the run of the same principal and key. */
    method StepSession(cmd: Command) returns (result: Result<string, Error>)
      requires cmd.step.Session? && cmd.principal.id != config.denied
      modifies this
      ensures var id := RunId(config, cmd.principal, cmd.key);
              && runs == old(runs)[id := if id in old(runs) then Tick(old(runs)[id]) else NewRun(config, cmd)]
              && log == old(log) + [Event(id, Opened)]
      ensures result == Ok("")
    {
      var id := RunId(config, cmd.principal, cmd.key);
      if id in runs {
        runs := runs[id := Tick(runs[id])];
      } else {
        runs := runs[id := NewRun(config, cmd)];
      }
      log := log + [Event(id, Opened)];
      return Ok("");
    }
  }
}
