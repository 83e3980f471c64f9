/** What each tracer step asks for, answers and records, stated of commands and traces. */
module TracerSteps {
  import opened Wrappers
  import opened Contracts
  import opened Fields
  import opened Tracer
  import opened TracerHistory

  /** The command is one of the run's own principal, tenant and session, and names it. */
  predicate AddressedTo(cfg: Config, runs: Runs, cmd: Command, id: string) {
    && cmd.principal.id != cfg.denied && cmd.runId == Some(Identifier("run", id))
    && id in runs && runs[id].principal == cmd.principal
  }

  /** A command other than a session reaches exactly the run it is addressed to. */
  lemma ReachesItsRun(cfg: Config, runs: Runs, cmd: Command, id: string)
    requires !cmd.step.Session? && !cmd.step.Unrecognised?
    ensures Target(cfg, runs, cmd) == Some(id) <==> AddressedTo(cfg, runs, cmd, id)
  {
  }

  predicate TakesQuestions(r: Run) {
    r.state.Ready? || r.state.Answered? || r.state.Abstained?
  }

  /** A question asked of a run that takes questions, under a key that is free, is answered by its kind. */
  lemma QuestionsAreAnswered(cfg: Config, t: Trace, cmd: Command, ans: Answers, id: string)
    requires cmd.step.Ask? && AddressedTo(cfg, t.runs, cmd, id)
    requires TakesQuestions(t.runs[id]) && Free(t.runs[id], cmd.key, "ask")
    ensures ResultOf(cfg, t.runs, cmd, ans) ==
            match cmd.variant
            case Unspecified => Ok("")
            case Authorized => Ok("")
            case Absent => Ok("SPAN_ABSENT")
            case Stale => Ok("SPAN_STALE")
            case Unauthorized => Ok("SPAN_UNAUTHORIZED")
            case Revoked => Ok("SPAN_REVOKED")
            case Unknown => Err(UnknownScope)
    ensures var s := Next(cfg, t, cmd, ans).runs[id];
            && (cmd.variant.Unspecified? || cmd.variant.Authorized? ==> s.state.Answered? && s.variant.Authorized?)
            && (cmd.variant.Absent? || cmd.variant.Stale? || cmd.variant.Unauthorized? || cmd.variant.Revoked? ==>
                  s.state.Abstained? && s.variant == cmd.variant)
  {
    hide Successor;
  }

  /** When a step of a run succeeds. */
  lemma SucceedsExactly(cfg: Config, r: Run, cmd: Command, ans: Answers)
    ensures StepOn(cfg, r, cmd, ans).result.Ok? <==>
            match cmd.step
            case Ingest => cmd.manifest == Some(Digest("sha256", cfg.manifestHex)) && Free(r, cmd.key, "ingest")
            case Ask => TakesQuestions(r) && Free(r, cmd.key, "ask") && !cmd.variant.Unknown?
            case Intent =>
              r.state.Answered? && cmd.baseGitOid == cfg.baseGitOid && Free(r, cmd.key, "intent") && ans.workflow.Some?
            case Plan => r.workflow.Some? && ans.noRedispatch && ans.sealed
            case Review => r.state.Planned? || r.state.Reviewing? || r.state.EffectPending?
            case DraftPr =>
              && (r.state.EffectPending? || r.state.DraftPrCreated?) && cmd.effectApproval != "" && cmd.changeSet != ""
              && Free(r, cmd.key, "draft-pr") && (ans.published.Some? || (r.state.DraftPrCreated? && r.draft.Some?))
            case Outcome =>
              || (r.state.Complete? && r.outcome.Some?)
              || (r.state.DraftPrCreated? && r.draft.Some? && Free(r, cmd.key, "outcome") && ans.admitted.Some?)
            case _ => false
  {
    hide Successor;
  }

  /** The step of a run that has been taken already is answered again, and records nothing. */
  predicate AnswersAgain(r: Run, step: StepName) {
    (step.DraftPr? && r.state.DraftPrCreated? && r.draft.Some?) || (step.Outcome? && r.state.Complete? && r.outcome.Some?)
  }

  /** Where a successful step leads. */
  lemma LeadsTo(cfg: Config, r: Run, cmd: Command, ans: Answers)
    requires StepOn(cfg, r, cmd, ans).result.Ok? && !cmd.step.Ask?
    ensures StepOn(cfg, r, cmd, ans).result == Ok("")
    ensures StepOn(cfg, r, cmd, ans).run.state ==
            match cmd.step
            case Ingest => Ready
            case Intent => IntentApproved
            case Plan => Planned
            case Review => EffectPending
            case DraftPr => DraftPrCreated
            case _ => Complete
  {
    hide Remember, Successor;
    if KeyedName(cmd.step).Some? {
      RememberKeeps(r, cmd.key, KeyedName(cmd.step).value);
    }
  }

  /** What a successful step records: an intent the compiled workflow, a first draft what the broker published and the
      digests it was approved under, a first outcome what was admitted, and no step anything else. */
  lemma Records(cfg: Config, r: Run, cmd: Command, ans: Answers)
    requires StepOn(cfg, r, cmd, ans).result.Ok?
    ensures var s, first := StepOn(cfg, r, cmd, ans).run, !AnswersAgain(r, cmd.step);
            && s.workflow == (if cmd.step.Intent? then ans.workflow else r.workflow)
            && s.draft == (if cmd.step.DraftPr? && first then ans.published else r.draft)
            && s.effectApproval == (if cmd.step.DraftPr? && first then cmd.effectApproval else r.effectApproval)
            && s.changeSet == (if cmd.step.DraftPr? && first then cmd.changeSet else r.changeSet)
            && s.outcome == (if cmd.step.Outcome? && first then ans.admitted else r.outcome)
  {
    hide Remember, Successor;
    if KeyedName(cmd.step).Some? {
      RememberKeeps(r, cmd.key, KeyedName(cmd.step).value);
    }
  }

  /** A step is a conflict exactly when everything but its key is in order: the key is bound to another step. */
  lemma ConflictsExactly(cfg: Config, r: Run, cmd: Command, ans: Answers)
    ensures StepOn(cfg, r, cmd, ans).result == Err(IdempotencyConflict) <==>
            match cmd.step
            case Ingest => cmd.manifest == Some(Digest("sha256", cfg.manifestHex)) && !Free(r, cmd.key, "ingest")
            case Ask => TakesQuestions(r) && !Free(r, cmd.key, "ask")
            case Intent => r.state.Answered? && cmd.baseGitOid == cfg.baseGitOid && !Free(r, cmd.key, "intent")
            case DraftPr =>
              && (r.state.EffectPending? || r.state.DraftPrCreated?) && cmd.effectApproval != "" && cmd.changeSet != ""
              && !Free(r, cmd.key, "draft-pr")
            case Outcome => r.state.DraftPrCreated? && r.draft.Some? && !Free(r, cmd.key, "outcome")
            case _ => false
  {
    hide Successor;
  }

  /** A session opens a run of its own, pinned and with nothing recorded, or else only ticks the run it opened before. */
  lemma SessionsOpen(cfg: Config, t: Trace, cmd: Command, ans: Answers)
    requires cmd.step.Session? && cmd.principal.id != cfg.denied
    ensures var p := cmd.principal;
            var id := cfg.digest(p.tenant + "\0" + p.id + "\0" + p.session + "\0" + cmd.key);
            var u := Next(cfg, t, cmd, ans);
            && ResultOf(cfg, t.runs, cmd, ans) == Ok("") && id in u.runs
            && (forall k :: k in t.runs && k != id ==> k in u.runs && u.runs[k] == t.runs[k])
            && (id in t.runs ==> u.runs[id] == t.runs[id].(watermark := (t.runs[id].watermark + 1) % 0x1_0000_0000_0000_0000))
            && (id !in t.runs ==>
                  u.runs[id] == Run(id, p, ManifestPinned, Authorized, 1, None, None, None, map[cmd.key := "session"], "", ""))
  {
    MaterialLayout(cmd.principal, cmd.key);
  }

  lemma MaterialLayout(p: Principal, key: string)
    ensures RunMaterial(p, key) == p.tenant + "\0" + p.id + "\0" + p.session + "\0" + key
  {
    var two, three := [p.session, key], [p.id, p.session, key];
    assert two[1..] == [key] && three[1..] == two && [p.tenant, p.id, p.session, key][1..] == three;
    assert Join(two) == p.session + "\0" + key;
    assert Join(three) == p.id + "\0" + Join(two) == p.id + "\0" + p.session + "\0" + key;
    assert RunMaterial(p, key) == p.tenant + "\0" + Join(three);
  }
}
