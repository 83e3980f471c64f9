/** What holds of every history of tracer commands. */
module TracerHistory {
  import opened Wrappers
  import opened Contracts
  import opened Decimal
  import opened Fields
  import opened Tracer

  datatype Call = Call(cmd: Command, ans: Answers)

  /** The trace after some calls, from any starting point. */
  ghost function After(cfg: Config, t: Trace, calls: seq<Call>): Trace
    decreases |calls|
  {
    if calls == [] then t
    else
      var last := calls[|calls| - 1];
      Next(cfg, After(cfg, t, calls[..|calls| - 1]), last.cmd, last.ans)
  }

  const EMPTY := Trace(map[], [])

  // ----- ordered marks -------------------------------------------------------------------------------

  /** The marks occur in the log of a run, in this order. */
  ghost predicate Occurs(log: seq<Event>, id: string, marks: seq<Mark>)
    decreases |marks|, 1
  {
    marks == [] || exists k :: OccursAt(log, id, marks, k)
  }

  /** The last of the marks is the event at k, and the others occur before it. */
  ghost predicate OccursAt(log: seq<Event>, id: string, marks: seq<Mark>, k: int)
    requires marks != []
    decreases |marks|, 0
  {
    && 0 <= k < |log| && log[k] == Event(id, marks[|marks| - 1])
    && Occurs(log[..k], id, marks[..|marks| - 1])
  }

  lemma {:induction false} OccursLater(log: seq<Event>, id: string, marks: seq<Mark>, e: Event)
    requires Occurs(log, id, marks)
    ensures Occurs(log + [e], id, marks)
  {
    if marks != [] {
      var k :| OccursAt(log, id, marks, k);
      assert (log + [e])[..k] == log[..k] && (log + [e])[k] == log[k];
      assert OccursAt(log + [e], id, marks, k);
    }
  }

  lemma {:induction false} OccursThen(log: seq<Event>, id: string, marks: seq<Mark>, m: Mark)
    requires Occurs(log, id, marks)
    ensures Occurs(log + [Event(id, m)], id, marks + [m])
  {
    var more, all := log + [Event(id, m)], marks + [m];
    assert more[..|log|] == log && all[..|marks|] == marks;
    assert OccursAt(more, id, all, |log|);
  }

  // ----- provenance ----------------------------------------------------------------------------------

  ghost function UpToIngest(cfg: Config): seq<Mark> {
    [Ingested(cfg.manifestHex)]
  }

  ghost function UpToAnswer(cfg: Config): seq<Mark> {
    UpToIngest(cfg) + [AnsweredAuthorized]
  }

  ghost function UpToIntent(cfg: Config): seq<Mark> {
    UpToAnswer(cfg) + [IntentAdmitted(cfg.baseGitOid)]
  }

  ghost function UpToPlan(cfg: Config): seq<Mark> {
    UpToIntent(cfg) + [PlanChecked]
  }

  ghost function UpToReview(cfg: Config): seq<Mark> {
    UpToPlan(cfg) + [ReviewPassed]
  }

  ghost function UpToDraft(cfg: Config, approval: string, changeSet: string): seq<Mark> {
    UpToReview(cfg) + [DraftPublished(approval, changeSet)]
  }

  ghost function UpToOutcome(cfg: Config, approval: string, changeSet: string): seq<Mark> {
    UpToDraft(cfg, approval, changeSet) + [OutcomeAdmitted]
  }

  /** Some draft was published and its outcome admitted after it. */
  ghost predicate OutcomeFollows(cfg: Config, log: seq<Event>, id: string) {
    exists a, c :: Occurs(log, id, UpToOutcome(cfg, a, c))
  }

  /** Everything a run holds was come by in order. */
  ghost predicate Earned(cfg: Config, log: seq<Event>, id: string, r: Run) {
    && r.id == id && !r.state.Reviewing?
    && (r.state.Ready? || r.state.Answered? || r.state.Abstained? ==> Occurs(log, id, UpToIngest(cfg)))
    && (r.state.Answered? ==> Occurs(log, id, UpToAnswer(cfg)))
    && (r.workflow.Some? ==> Occurs(log, id, UpToIntent(cfg)))
    && (r.state.Planned? ==> Occurs(log, id, UpToPlan(cfg)))
    && (r.state.EffectPending? ==> Occurs(log, id, UpToReview(cfg)))
    && (r.draft.Some? ==> Occurs(log, id, UpToDraft(cfg, r.effectApproval, r.changeSet)))
    && (r.draft.Some? ==> r.effectApproval != "" && r.changeSet != "")
    && (r.outcome.Some? ==> OutcomeFollows(cfg, log, id))
    && (r.state.DraftPrCreated? ==> r.draft.Some?) && (r.state.Complete? ==> r.outcome.Some?)
  }

  ghost predicate AllEarned(cfg: Config, t: Trace) {
    forall id :: id in t.runs ==> Earned(cfg, t.log, id, t.runs[id])
  }

  lemma OutcomeLater(cfg: Config, log: seq<Event>, id: string, e: Event)
    requires OutcomeFollows(cfg, log, id)
    ensures OutcomeFollows(cfg, log + [e], id)
  {
    hide Occurs, UpToOutcome;
    var a, c :| Occurs(log, id, UpToOutcome(cfg, a, c));
    OccursLater(log, id, UpToOutcome(cfg, a, c), e);
  }

  /** What was earned stays earned when the log grows. */
  lemma EarnedLater(cfg: Config, log: seq<Event>, id: string, r: Run, e: Event)
    requires Earned(cfg, log, id, r)
    ensures Earned(cfg, log + [e], id, r)
  {
    hide Occurs, OutcomeFollows, UpToIngest, UpToAnswer, UpToIntent, UpToPlan, UpToReview, UpToDraft;
    Grow(log, id, UpToIngest(cfg), e);
    Grow(log, id, UpToAnswer(cfg), e);
    Grow(log, id, UpToIntent(cfg), e);
    Grow(log, id, UpToPlan(cfg), e);
    Grow(log, id, UpToReview(cfg), e);
    Grow(log, id, UpToDraft(cfg, r.effectApproval, r.changeSet), e);
    if OutcomeFollows(cfg, log, id) {
      OutcomeLater(cfg, log, id, e);
    }
  }

  lemma Grow(log: seq<Event>, id: string, marks: seq<Mark>, e: Event)
    ensures Occurs(log, id, marks) ==> Occurs(log + [e], id, marks)
  {
    hide Occurs;
    if Occurs(log, id, marks) {
      OccursLater(log, id, marks, e);
    }
  }

  /** A failed step earns nothing and loses nothing. */
  lemma FailureKeepsEarned(cfg: Config, log: seq<Event>, id: string, r: Run, cmd: Command, ans: Answers)
    requires Earned(cfg, log, id, r) && StepOn(cfg, r, cmd, ans).result.Err?
    ensures Earned(cfg, log, id, StepOn(cfg, r, cmd, ans).run)
  {
    hide StepOn, Occurs, OutcomeFollows, UpToIngest, UpToAnswer, UpToIntent, UpToPlan, UpToReview, UpToDraft;
    FailuresChangeLittle(cfg, r, cmd, ans);
  }

  /** The steps that only move the state: ingest and ask. */
  lemma AnswerEarned(cfg: Config, log: seq<Event>, id: string, r: Run, cmd: Command, ans: Answers)
    requires Earned(cfg, log, id, r) && (cmd.step.Ingest? || cmd.step.Ask?)
    requires StepOn(cfg, r, cmd, ans).result.Ok?
    ensures var e := StepOn(cfg, r, cmd, ans); Earned(cfg, log + [Event(id, MarkOf(cmd, e))], id, e.run)
  {
    var e := StepOn(cfg, r, cmd, ans);
    hide Occurs, OutcomeFollows, UpToIntent, UpToPlan, UpToReview, UpToDraft;
    EarnedLater(cfg, log, id, r, Event(id, MarkOf(cmd, e)));
    if cmd.step.Ingest? {
      assert Occurs(log, id, []) by { Trivially(log, id); }
      OccursThen(log, id, [], MarkOf(cmd, e));
      assert [] + [MarkOf(cmd, e)] == UpToIngest(cfg);
    } else {
      OccursThen(log, id, UpToIngest(cfg), MarkOf(cmd, e));
    }
  }

  lemma Trivially(log: seq<Event>, id: string)
    ensures Occurs(log, id, [])
  {
  }

  lemma WorkEarned(cfg: Config, log: seq<Event>, id: string, r: Run, cmd: Command, ans: Answers)
    requires Earned(cfg, log, id, r) && (cmd.step.Intent? || cmd.step.Plan? || cmd.step.Review?)
    requires StepOn(cfg, r, cmd, ans).result.Ok?
    ensures var e := StepOn(cfg, r, cmd, ans); Earned(cfg, log + [Event(id, MarkOf(cmd, e))], id, e.run)
  {
    var e := StepOn(cfg, r, cmd, ans);
    hide Occurs, OutcomeFollows, UpToIngest, UpToAnswer, UpToDraft;
    EarnedLater(cfg, log, id, r, Event(id, MarkOf(cmd, e)));
    if cmd.step.Intent? {
      OccursThen(log, id, UpToAnswer(cfg), MarkOf(cmd, e));
    } else if cmd.step.Plan? {
      OccursThen(log, id, UpToIntent(cfg), MarkOf(cmd, e));
    } else if r.state.Planned? {
      OccursThen(log, id, UpToPlan(cfg), MarkOf(cmd, e));
    }
  }

  lemma PublicationEarned(cfg: Config, log: seq<Event>, id: string, r: Run, cmd: Command, ans: Answers)
    requires Earned(cfg, log, id, r) && (cmd.step.DraftPr? || cmd.step.Outcome?)
    requires StepOn(cfg, r, cmd, ans).result.Ok?
    ensures var e := StepOn(cfg, r, cmd, ans); Earned(cfg, log + [Event(id, MarkOf(cmd, e))], id, e.run)
  {
    var e := StepOn(cfg, r, cmd, ans);
    hide Occurs, UpToIngest, UpToAnswer, UpToIntent, UpToPlan, UpToReview, Successor;
    EarnedLater(cfg, log, id, r, Event(id, MarkOf(cmd, e)));
    if cmd.step.DraftPr? {
      if r.state.EffectPending? {
        OccursThen(log, id, UpToReview(cfg), MarkOf(cmd, e));
      }
    } else if r.state.DraftPrCreated? {
      OccursThen(log, id, UpToDraft(cfg, r.effectApproval, r.changeSet), MarkOf(cmd, e));
      assert UpToDraft(cfg, r.effectApproval, r.changeSet) + [OutcomeAdmitted] == UpToOutcome(cfg, r.effectApproval, r.changeSet);
    }
  }

  lemma StepEarned(cfg: Config, log: seq<Event>, id: string, r: Run, cmd: Command, ans: Answers)
    requires Earned(cfg, log, id, r)
    ensures var e := StepOn(cfg, r, cmd, ans);
            Earned(cfg, if e.result.Ok? then log + [Event(id, MarkOf(cmd, e))] else log, id, e.run)
  {
    hide Earned, MarkOf;
    var e := StepOn(cfg, r, cmd, ans);
    if e.result.Err? {
      FailureKeepsEarned(cfg, log, id, r, cmd, ans);
    } else if cmd.step.Ingest? || cmd.step.Ask? {
      AnswerEarned(cfg, log, id, r, cmd, ans);
    } else if cmd.step.DraftPr? || cmd.step.Outcome? {
      PublicationEarned(cfg, log, id, r, cmd, ans);
    } else {
      WorkEarned(cfg, log, id, r, cmd, ans);
    }
  }

  lemma NextEarned(cfg: Config, t: Trace, cmd: Command, ans: Answers)
    requires AllEarned(cfg, t)
    ensures AllEarned(cfg, Next(cfg, t, cmd, ans))
  {
    hide Earned, StepOn, MarkOf, Target;
    var u := Next(cfg, t, cmd, ans);
    if Target(cfg, t.runs, cmd).Some? {
      var id := Target(cfg, t.runs, cmd).value;
      TargetEarned(cfg, t, cmd, ans, id);
      forall k | k in u.runs && k != id ensures Earned(cfg, u.log, k, u.runs[k]) {
        if u.log != t.log {
          EarnedLater(cfg, t.log, k, t.runs[k], u.log[|t.log|]);
        }
      }
    }
  }

  lemma TargetEarned(cfg: Config, t: Trace, cmd: Command, ans: Answers, id: string)
    requires AllEarned(cfg, t) && Target(cfg, t.runs, cmd) == Some(id)
    ensures var e := EffectOn(cfg, t.runs, cmd, ans, id);
            Earned(cfg, if e.result.Ok? then t.log + [Event(id, MarkOf(cmd, e))] else t.log, id, e.run)
  {
    hide Occurs, StepOn, OutcomeFollows;
    var e := EffectOn(cfg, t.runs, cmd, ans, id);
    if !cmd.step.Session? {
      StepEarned(cfg, t.log, id, t.runs[id], cmd, ans);
    } else if id in t.runs {
      EarnedLater(cfg, t.log, id, t.runs[id], Event(id, MarkOf(cmd, e)));
    }
  }

  lemma {:induction false} HistoriesEarn(cfg: Config, calls: seq<Call>)
    ensures AllEarned(cfg, After(cfg, EMPTY, calls))
    decreases |calls|
  {
    hide AllEarned, Next;
    if calls == [] {
      NothingToEarn(cfg);
    } else {
      var init, last := calls[..|calls| - 1], calls[|calls| - 1];
      HistoriesEarn(cfg, init);
      NextEarned(cfg, After(cfg, EMPTY, init), last.cmd, last.ans);
    }
  }

  lemma NothingToEarn(cfg: Config)
    ensures AllEarned(cfg, EMPTY)
  {
  }

  /** In every history, a recorded draft was preceded by a pinned ingest, an authorised answer, an admitted intent,
      a checked plan and a review, in that order, and a recorded outcome by all of these and a draft. */
  lemma DraftsAreEarned(cfg: Config, calls: seq<Call>, id: string)
    requires id in After(cfg, EMPTY, calls).runs
    ensures var t := After(cfg, EMPTY, calls);
            var r := t.runs[id];
            && (r.draft.Some? ==>
                  r.effectApproval != "" && r.changeSet != "" &&
                  Occurs(t.log, id, [Ingested(cfg.manifestHex), AnsweredAuthorized, IntentAdmitted(cfg.baseGitOid), PlanChecked,
                                     ReviewPassed, DraftPublished(r.effectApproval, r.changeSet)]))
            && (r.outcome.Some? ==>
                  exists a, c ::
                    Occurs(t.log, id, [Ingested(cfg.manifestHex), AnsweredAuthorized, IntentAdmitted(cfg.baseGitOid), PlanChecked,
                                       ReviewPassed, DraftPublished(a, c), OutcomeAdmitted]))
  {
    hide Occurs, After, Next;
    HistoriesEarn(cfg, calls);
    var t := After(cfg, EMPTY, calls);
    var r := t.runs[id];
    assert Earned(cfg, t.log, id, r);
    if r.outcome.Some? {
      var a, c :| Occurs(t.log, id, UpToOutcome(cfg, a, c));
      assert UpToOutcome(cfg, a, c) == [Ingested(cfg.manifestHex), AnsweredAuthorized, IntentAdmitted(cfg.baseGitOid), PlanChecked,
                                        ReviewPassed, DraftPublished(a, c), OutcomeAdmitted];
    }
    assert UpToDraft(cfg, r.effectApproval, r.changeSet) ==
           [Ingested(cfg.manifestHex), AnsweredAuthorized, IntentAdmitted(cfg.baseGitOid), PlanChecked, ReviewPassed,
            DraftPublished(r.effectApproval, r.changeSet)];
  }

  // ----- what no command undoes ----------------------------------------------------------------------

  ghost predicate KeysKept(m: map<string, string>, n: map<string, string>) {
    forall key :: key in m ==> key in n && n[key] == m[key]
  }

  /** Identity, bound keys, and recorded work are never lost or rebound. */
  ghost predicate Kept(r: Run, s: Run) {
    && s.id == r.id && s.principal == r.principal
    && KeysKept(r.idempotency, s.idempotency)
    && (r.workflow.Some? ==> s.workflow.Some?) && (r.draft.Some? ==> s.draft.Some?) && (r.outcome.Some? ==> s.outcome.Some?)
  }

  lemma RememberKeeps(r: Run, key: string, step: string)
    ensures Remember(r, key, step).Some? ==>
              var s := Remember(r, key, step).value;
              && s == r.(idempotency := s.idempotency)
              && KeysKept(r.idempotency, s.idempotency)
              && (key != "" ==> key in s.idempotency && s.idempotency[key] == step)
  {
  }

  lemma StepKeeps(cfg: Config, r: Run, cmd: Command, ans: Answers)
    ensures Kept(r, StepOn(cfg, r, cmd, ans).run)
  {
    hide Remember, ReasonOf, KeysKept, Successor;
    assert KeysKept(r.idempotency, r.idempotency) by { SameKeys(r.idempotency); }
    if KeyedName(cmd.step).Some? {
      RememberKeeps(r, cmd.key, KeyedName(cmd.step).value);
    }
  }

  lemma SameKeys(m: map<string, string>)
    ensures KeysKept(m, m)
  {
  }

  lemma NextKeeps(cfg: Config, t: Trace, cmd: Command, ans: Answers, id: string)
    requires id in t.runs
    ensures id in Next(cfg, t, cmd, ans).runs && Kept(t.runs[id], Next(cfg, t, cmd, ans).runs[id])
  {
    hide StepOn;
    StepKeeps(cfg, t.runs[id], cmd, ans);
  }

  /** Over any further commands, a run keeps its identity, its key bindings and whatever it has recorded. */
  lemma {:induction false} NothingIsUndone(cfg: Config, t: Trace, calls: seq<Call>, id: string)
    requires id in t.runs
    ensures id in After(cfg, t, calls).runs && Kept(t.runs[id], After(cfg, t, calls).runs[id])
    decreases |calls|
  {
    hide Next;
    if calls != [] {
      var init, last := calls[..|calls| - 1], calls[|calls| - 1];
      NothingIsUndone(cfg, t, init, id);
      NextKeeps(cfg, After(cfg, t, init), last.cmd, last.ans, id);
    }
  }

  function KeyedName(step: StepName): Option<string> {
    match step
    case Ingest => Some("ingest")
    case Ask => Some("ask")
    case Intent => Some("intent")
    case DraftPr => Some("draft-pr")
    case Outcome => Some("outcome")
    case _ => None
  }

  /** An outcome of a complete run is answered again without a look at the key. */
  ghost predicate Replays(r: Run, step: StepName) {
    step.Outcome? && r.outcome.Some? && r.state.Complete?
  }

  /** Opening a run binds the session's key, and a keyed success binds its key, a replayed outcome excepted. */
  lemma SuccessBinds(cfg: Config, t: Trace, cmd: Command, ans: Answers, id: string)
    requires Target(cfg, t.runs, cmd) == Some(id) && EffectOn(cfg, t.runs, cmd, ans, id).result.Ok?
    requires if cmd.step.Session? then id !in t.runs
             else KeyedName(cmd.step).Some? && cmd.key != "" && !Replays(t.runs[id], cmd.step)
    ensures var s := EffectOn(cfg, t.runs, cmd, ans, id).run;
            && cmd.key in s.idempotency
            && s.idempotency[cmd.key] == if cmd.step.Session? then "session" else KeyedName(cmd.step).value
  {
    hide Remember, ReasonOf;
    if !cmd.step.Session? {
      RememberKeeps(t.runs[id], cmd.key, KeyedName(cmd.step).value);
    }
  }

  /** A step under a key that is bound to another step succeeds only as a replay. */
  lemma BoundKeyDecides(cfg: Config, r: Run, cmd: Command, ans: Answers)
    requires KeyedName(cmd.step).Some? && cmd.key != "" && cmd.key in r.idempotency
    requires r.idempotency[cmd.key] != KeyedName(cmd.step).value
    ensures StepOn(cfg, r, cmd, ans).result.Ok? <==> Replays(r, cmd.step)
  {
    assert Remember(r, cmd.key, KeyedName(cmd.step).value).None?;
  }

  /** However a key of a run came to be bound, by its session or by a step, it stays bound to that over any further
      commands, and another keyed step under it succeeds exactly when it replays the outcome of a complete run. */
  lemma KeysAreNeverRebound(cfg: Config, t: Trace, id: string, key: string, calls: seq<Call>, again: Command, ans: Answers)
    requires id in t.runs && key != "" && key in t.runs[id].idempotency
    requires again.key == key && KeyedName(again.step).Some? && KeyedName(again.step).value != t.runs[id].idempotency[key]
    requires Target(cfg, After(cfg, t, calls).runs, again) == Some(id)
    ensures var runs := After(cfg, t, calls).runs;
            && id in runs && key in runs[id].idempotency && runs[id].idempotency[key] == t.runs[id].idempotency[key]
            && (EffectOn(cfg, runs, again, ans, id).result.Ok? <==> Replays(runs[id], again.step))
  {
    hide After, StepOn;
    NothingIsUndone(cfg, t, calls, id);
    BoundKeyDecides(cfg, After(cfg, t, calls).runs[id], again, ans);
  }

  // ----- a history in which a bound key succeeds for another step ------------------------------------

  /** Commands to one run. */
  ghost predicate Addressed(cfg: Config, calls: seq<Call>, id: string, p: Principal) {
    forall i :: 0 <= i < |calls| ==>
      && !calls[i].cmd.step.Session? && !calls[i].cmd.step.Unrecognised? && calls[i].cmd.principal == p
      && calls[i].cmd.runId == Some(Identifier("run", id))
  }

  ghost function RunAfter(cfg: Config, r: Run, calls: seq<Call>): Run
    decreases |calls|
  {
    if calls == [] then r
    else StepOn(cfg, RunAfter(cfg, r, calls[..|calls| - 1]), calls[|calls| - 1].cmd, calls[|calls| - 1].ans).run
  }

  lemma {:induction false} OneRun(cfg: Config, t: Trace, calls: seq<Call>, id: string, p: Principal)
    requires id in t.runs && t.runs[id].principal == p && p.id != cfg.denied && Addressed(cfg, calls, id, p)
    ensures id in After(cfg, t, calls).runs && After(cfg, t, calls).runs[id] == RunAfter(cfg, t.runs[id], calls)
    ensures After(cfg, t, calls).runs[id].principal == p
    decreases |calls|
  {
    hide StepOn;
    if calls != [] {
      var init, last := calls[..|calls| - 1], calls[|calls| - 1];
      OneRun(cfg, t, init, id, p);
      StepKeeps(cfg, After(cfg, t, init).runs[id], last.cmd, last.ans);
    }
  }

  function CommandTo(cfg: Config, p: Principal, id: string, step: StepName, key: string): Command {
    Command(step, p, key, Some(Identifier("run", id)), Some(Digest("sha256", cfg.manifestHex)), Authorized, cfg.baseGitOid, "a", "c")
  }

  function CallTo(cfg: Config, p: Principal, id: string, step: StepName, key: string): Call {
    Call(CommandTo(cfg, p, id, step, key), Answers(Some("w"), true, true, Some("d"), Some("o")))
  }

  /** From opening to completion, with the question asked under the key "k". */
  function WholeRun(cfg: Config, p: Principal, id: string): seq<Call> {
    [CallTo(cfg, p, id, Ingest, ""), CallTo(cfg, p, id, Ask, "k"), CallTo(cfg, p, id, Intent, ""), CallTo(cfg, p, id, Plan, ""),
     CallTo(cfg, p, id, Review, ""), CallTo(cfg, p, id, DraftPr, ""), CallTo(cfg, p, id, Outcome, "")]
  }

  lemma OneMoreStep(cfg: Config, r: Run, calls: seq<Call>, n: nat)
    requires n < |calls|
    ensures RunAfter(cfg, r, calls[..n + 1]) == StepOn(cfg, RunAfter(cfg, r, calls[..n]), calls[n].cmd, calls[n].ans).run
  {
    hide StepOn;
    assert calls[..n + 1][..n] == calls[..n];
  }

  ghost function Stepped(cfg: Config, r: Run, call: Call): Run {
    StepOn(cfg, r, call.cmd, call.ans).run
  }

  lemma AskedUnderKey(cfg: Config, p: Principal, id: string, r: Run)
    requires "k" !in r.idempotency
    ensures var s := Stepped(cfg, Stepped(cfg, r, CallTo(cfg, p, id, Ingest, "")), CallTo(cfg, p, id, Ask, "k"));
            s.state.Answered? && "k" in s.idempotency && s.idempotency["k"] == "ask"
  {
    hide Successor;
  }

  lemma ReviewedNext(cfg: Config, p: Principal, id: string, r: Run)
    requires r.state.Answered?
    ensures var s := Stepped(cfg, Stepped(cfg, r, CallTo(cfg, p, id, Intent, "")), CallTo(cfg, p, id, Plan, ""));
            var t := Stepped(cfg, s, CallTo(cfg, p, id, Review, ""));
            t.state.EffectPending? && t.idempotency == r.idempotency && t.workflow.Some?
  {
    hide Successor;
  }

  lemma CompletedNext(cfg: Config, p: Principal, id: string, r: Run)
    requires r.state.EffectPending?
    ensures var s := Stepped(cfg, Stepped(cfg, r, CallTo(cfg, p, id, DraftPr, "")), CallTo(cfg, p, id, Outcome, ""));
            s.state.Complete? && s.outcome.Some? && s.idempotency == r.idempotency && s.workflow == r.workflow
  {
    hide Successor;
  }

  lemma WholeRunCompletes(cfg: Config, p: Principal, id: string, r: Run)
    requires "k" !in r.idempotency
    ensures var s := RunAfter(cfg, r, WholeRun(cfg, p, id));
            && s.state.Complete? && s.outcome.Some? && s.workflow.Some?
            && "k" in s.idempotency && s.idempotency["k"] == "ask"
  {
    hide StepOn, RunAfter, CallTo;
    var calls := WholeRun(cfg, p, id);
    NoSteps(cfg, r);
    assert calls[..0] == [] && calls[..7] == calls;
    OneMoreStep(cfg, r, calls, 0);
    OneMoreStep(cfg, r, calls, 1);
    AskedUnderKey(cfg, p, id, r);
    OneMoreStep(cfg, r, calls, 2);
    OneMoreStep(cfg, r, calls, 3);
    OneMoreStep(cfg, r, calls, 4);
    ReviewedNext(cfg, p, id, RunAfter(cfg, r, calls[..2]));
    OneMoreStep(cfg, r, calls, 5);
    OneMoreStep(cfg, r, calls, 6);
    CompletedNext(cfg, p, id, RunAfter(cfg, r, calls[..5]));
  }

  lemma NoSteps(cfg: Config, r: Run)
    ensures RunAfter(cfg, r, []) == r
  {
  }

  /** In this history the key "k" is bound to the question, and an outcome under it succeeds all the same. */
  lemma BoundKeyStillReplays(cfg: Config, p: Principal)
    requires p.id != cfg.denied
    ensures var id := RunId(cfg, p, "s");
            var open := Call(CommandTo(cfg, p, id, Session, "s"), Answers(None, false, false, None, None));
            var t := After(cfg, Next(cfg, EMPTY, open.cmd, open.ans), WholeRun(cfg, p, id));
            var again := CallTo(cfg, p, id, Outcome, "k");
            && id in t.runs && "k" in t.runs[id].idempotency && t.runs[id].idempotency["k"] == "ask"
            && ResultOf(cfg, t.runs, again.cmd, again.ans).Ok?
  {
    hide After, RunAfter;
    var id := RunId(cfg, p, "s");
    var open := Call(CommandTo(cfg, p, id, Session, "s"), Answers(None, false, false, None, None));
    var start := Next(cfg, EMPTY, open.cmd, open.ans);
    assert start.runs[id] == NewRun(cfg, open.cmd);
    WholeRunCompletes(cfg, p, id, start.runs[id]);
    OneRun(cfg, start, WholeRun(cfg, p, id), id, p);
  }

  // ----- watermarks ----------------------------------------------------------------------------------

  lemma StepTicks(cfg: Config, r: Run, cmd: Command, ans: Answers)
    ensures var e := StepOn(cfg, r, cmd, ans);
            && (e.result.Ok? ==> e.run.watermark == Successor(r.watermark))
            && (e.run.watermark == r.watermark || e.run.watermark == Successor(r.watermark))
  {
    hide ReasonOf, Successor;
  }

  lemma {:induction false} WatermarkIsBounded(cfg: Config, calls: seq<Call>, id: string)
    requires id in After(cfg, EMPTY, calls).runs
    ensures After(cfg, EMPTY, calls).runs[id].watermark <= |calls|
    decreases |calls|
  {
    hide StepOn;
    if calls != [] {
      var init, last := calls[..|calls| - 1], calls[|calls| - 1];
      var t := After(cfg, EMPTY, init);
      if id in t.runs {
        WatermarkIsBounded(cfg, init, id);
        StepTicks(cfg, t.runs[id], last.cmd, last.ans);
      }
    }
  }

  /** In every history shorter than 2 to the 64, a success raises the watermark of its run by one, and no command
      lowers the watermark of any run. */
  lemma WatermarksIncrease(cfg: Config, calls: seq<Call>, cmd: Command, ans: Answers, id: string)
    requires |calls| < MAX_UINT64 && id in After(cfg, EMPTY, calls).runs
    ensures var t := After(cfg, EMPTY, calls);
            var u := Next(cfg, t, cmd, ans);
            && id in u.runs && t.runs[id].watermark <= u.runs[id].watermark <= t.runs[id].watermark + 1
            && (Target(cfg, t.runs, cmd) == Some(id) && ResultOf(cfg, t.runs, cmd, ans).Ok? ==>
                  u.runs[id].watermark == t.runs[id].watermark + 1)
  {
    hide StepOn, After;
    WatermarkIsBounded(cfg, calls, id);
    StepTicks(cfg, After(cfg, EMPTY, calls).runs[id], cmd, ans);
  }

  // ----- who can do what -----------------------------------------------------------------------------

  /** The denied principal never succeeds and never changes anything. */
  lemma DeniedIsInert(cfg: Config, t: Trace, cmd: Command, ans: Answers)
    requires cmd.principal.id == cfg.denied
    ensures Next(cfg, t, cmd, ans) == t && ResultOf(cfg, t.runs, cmd, ans) == Err(UnknownScope)
  {
  }

  ghost function RunFields(p: Principal, k: string): seq<string> {
    [p.tenant, p.id, p.session, k]
  }

  lemma SameFields(p: Principal, k: string, q: Principal, l: string)
    ensures RunFields(p, k) == RunFields(q, l) <==> p == q && k == l
  {
    var a, b := RunFields(p, k), RunFields(q, l);
    if a == b {
      assert a[0] == b[0] && a[1] == b[1] && a[2] == b[2] && a[3] == b[3];
    }
  }

  /** The material of a run identifier determines principal and key exactly when none of the fields holds a NUL. */
  lemma RunMaterialDetermines(p: Principal, k: string)
    ensures Plain(RunFields(p, k)) <==>
            forall q: Principal, l: string :: RunMaterial(q, l) == RunMaterial(p, k) ==> q == p && l == k
  {
    hide Join, Plain;
    var a := RunFields(p, k);
    DeterminedIffPlain(a);
    if Determined(a) {
      forall q: Principal, l: string | RunMaterial(q, l) == RunMaterial(p, k) ensures q == p && l == k {
        assert Join(RunFields(q, l)) == Join(a);
        SameFields(q, l, p, k);
      }
    } else {
      var b: seq<string> :| |b| == |a| && Join(b) == Join(a) && b != a;
      var q := Principal(b[1], b[0], b[2]);
      assert RunFields(q, b[3]) == b;
      assert RunMaterial(q, b[3]) == RunMaterial(p, k);
      SameFields(q, b[3], p, k);
    }
  }

  /** Run identifiers tell principals apart when no field holds a NUL and the digest does not collide. */
  lemma RunIdsAreDistinct(cfg: Config, p: Principal, k: string, q: Principal, l: string)
    requires Plain(RunFields(p, k)) && MaterialsApart(cfg, p, k, q, l) && RunId(cfg, p, k) == RunId(cfg, q, l)
    ensures p == q && k == l
  {
    hide Join, Plain;
    RunMaterialDetermines(p, k);
  }

  /** The two materials do not collide. */
  ghost predicate MaterialsApart(cfg: Config, p: Principal, k: string, q: Principal, l: string) {
    cfg.digest(RunMaterial(p, k)) == cfg.digest(RunMaterial(q, l)) ==> RunMaterial(p, k) == RunMaterial(q, l)
  }

  /** Every principal and key with a NUL among their fields share their run identifier with others, whatever the
      digest: a session of those resumes the same run. */
  lemma NulsShareRuns(cfg: Config, p: Principal, k: string)
    requires !Plain(RunFields(p, k))
    ensures exists q: Principal, l: string :: (q != p || l != k) && RunId(cfg, q, l) == RunId(cfg, p, k)
  {
    hide Join, Plain;
    RunMaterialDetermines(p, k);
    var q: Principal, l: string :| RunMaterial(q, l) == RunMaterial(p, k) && !(q == p && l == k);
    assert RunId(cfg, q, l) == RunId(cfg, p, k);
  }

  /** The call opened or resumed this run for this principal. */
  ghost predicate Opens(cfg: Config, call: Call, id: string, p: Principal) {
    call.cmd.step.Session? && call.cmd.principal == p && id == RunId(cfg, p, call.cmd.key)
  }

  /** Every run was opened by a session of its own principal. */
  ghost predicate Opened(cfg: Config, calls: seq<Call>, t: Trace) {
    forall id :: id in t.runs ==> exists i :: 0 <= i < |calls| && Opens(cfg, calls[i], id, t.runs[id].principal)
  }

  lemma NextOpened(cfg: Config, calls: seq<Call>, t: Trace, call: Call)
    requires Opened(cfg, calls, t)
    ensures Opened(cfg, calls + [call], Next(cfg, t, call.cmd, call.ans))
  {
    hide StepOn, RunId;
    var u, more := Next(cfg, t, call.cmd, call.ans), calls + [call];
    forall id | id in u.runs ensures exists i :: 0 <= i < |more| && Opens(cfg, more[i], id, u.runs[id].principal) {
      if id in t.runs {
        NextKeeps(cfg, t, call.cmd, call.ans, id);
        var i :| 0 <= i < |calls| && Opens(cfg, calls[i], id, t.runs[id].principal);
        assert Opens(cfg, more[i], id, u.runs[id].principal);
      } else {
        assert Opens(cfg, more[|calls|], id, u.runs[id].principal);
      }
    }
  }

  lemma {:induction false} HistoriesOpen(cfg: Config, calls: seq<Call>)
    ensures Opened(cfg, calls, After(cfg, EMPTY, calls))
    decreases |calls|
  {
    hide Next, Opens;
    if calls != [] {
      var init, last := calls[..|calls| - 1], calls[|calls| - 1];
      HistoriesOpen(cfg, init);
      NextOpened(cfg, init, After(cfg, EMPTY, init), last);
      assert calls == init + [last];
    }
  }

  /** In every history, a session whose fields hold no NUL resumes only a run of its own principal, tenant and
      session, unless its material collides with that of a session of the history. */
  lemma SessionsResumeOwnRuns(cfg: Config, calls: seq<Call>, cmd: Command)
    requires Plain(RunFields(cmd.principal, cmd.key))
    requires forall i :: 0 <= i < |calls| ==>
               MaterialsApart(cfg, cmd.principal, cmd.key, calls[i].cmd.principal, calls[i].cmd.key)
    requires RunId(cfg, cmd.principal, cmd.key) in After(cfg, EMPTY, calls).runs
    ensures After(cfg, EMPTY, calls).runs[RunId(cfg, cmd.principal, cmd.key)].principal == cmd.principal
  {
    hide After, Join, Plain, MaterialsApart, RunId;
    HistoriesOpen(cfg, calls);
    var id := RunId(cfg, cmd.principal, cmd.key);
    var r := After(cfg, EMPTY, calls).runs[id];
    var i :| 0 <= i < |calls| && Opens(cfg, calls[i], id, r.principal);
    RunIdsAreDistinct(cfg, cmd.principal, cmd.key, r.principal, calls[i].cmd.key);
  }

  /** A command that is not a session touches only a run of its own principal, tenant and session. */
  lemma OnlyOwnRunsMove(cfg: Config, t: Trace, cmd: Command, ans: Answers, id: string)
    requires !cmd.step.Session? && id in t.runs && t.runs[id].principal != cmd.principal
    ensures id in Next(cfg, t, cmd, ans).runs && Next(cfg, t, cmd, ans).runs[id] == t.runs[id]
  {
    hide StepOn;
  }

  // ----- failures and moves backwards ----------------------------------------------------------------

  /** A failed step changes at most key bindings, the variant and the watermark of its run. */
  lemma FailuresChangeLittle(cfg: Config, r: Run, cmd: Command, ans: Answers)
    requires StepOn(cfg, r, cmd, ans).result.Err?
    ensures var s := StepOn(cfg, r, cmd, ans).run;
            s == r.(idempotency := s.idempotency, variant := s.variant, watermark := s.watermark)
  {
    hide ReasonOf;
  }

  /** Remembering this step under the key does not conflict. */
  predicate Free(r: Run, key: string, step: string) {
    key == "" || key !in r.idempotency || r.idempotency[key] == step
  }

  /** Remembering a step under the key adds a binding. */
  predicate Unbound(r: Run, key: string) {
    key != "" && key !in r.idempotency
  }

  /** A question of an unknown kind, asked where questions are taken. */
  predicate AsksUnknown(r: Run, cmd: Command) {
    && cmd.step.Ask? && cmd.variant.Unknown? && Free(r, cmd.key, "ask")
    && (r.state.Ready? || r.state.Answered? || r.state.Abstained?)
  }

  /** The workflow compiler, the broker or the outcome admission answers no, with the key remembered already. */
  predicate BindsInVain(cfg: Config, r: Run, cmd: Command, ans: Answers) {
    Unbound(r, cmd.key) &&
    match cmd.step
    case Intent => r.state.Answered? && cmd.baseGitOid == cfg.baseGitOid && ans.workflow.None?
    case DraftPr =>
      && (r.state.EffectPending? || (r.state.DraftPrCreated? && r.draft.None?))
      && cmd.effectApproval != "" && cmd.changeSet != "" && ans.published.None?
    case Outcome => r.state.DraftPrCreated? && r.draft.Some? && ans.admitted.None?
    case _ => false
  }

  /** What a failed step leaves behind: nothing, except that a question of an unknown kind sets the variant, ticks
      and binds its key, and that a late refusal leaves its key bound. */
  lemma FailureLeaves(cfg: Config, r: Run, cmd: Command, ans: Answers)
    requires StepOn(cfg, r, cmd, ans).result.Err?
    ensures var bound := r.idempotency[cmd.key := if cmd.step.Ask? then "ask" else if cmd.step.Intent? then "intent"
                                                  else if cmd.step.DraftPr? then "draft-pr" else "outcome"];
            StepOn(cfg, r, cmd, ans).run ==
            if AsksUnknown(r, cmd) then
              Tick(r.(variant := Unknown, idempotency := if cmd.key == "" then r.idempotency else bound))
            else if BindsInVain(cfg, r, cmd, ans) then r.(idempotency := bound)
            else r
  {
    hide Successor;
    if cmd.key in r.idempotency {
      Rebinding(r.idempotency, cmd.key);
    }
  }

  lemma Rebinding(m: map<string, string>, key: string)
    requires key in m
    ensures m[key := m[key]] == m
  {
  }

  /** A step fails and still changes its run exactly when it asks an unknown question or binds a new key in vain. */
  lemma FailuresChangeExactly(cfg: Config, r: Run, cmd: Command, ans: Answers)
    ensures var e := StepOn(cfg, r, cmd, ans);
            e.result.Err? && e.run != r <==> AsksUnknown(r, cmd) || BindsInVain(cfg, r, cmd, ans)
  {
    hide Successor;
    var e := StepOn(cfg, r, cmd, ans);
    if e.result.Err? {
      FailureLeaves(cfg, r, cmd, ans);
      SuccessorMoves(r.watermark);
    }
  }

  lemma SuccessorMoves(watermark: nat)
    ensures Successor(watermark) != watermark
  {
  }

  /** How far along a run is. */
  function Rank(state: State): nat {
    match state
    case ManifestPinned => 0
    case Ready => 1
    case Answered => 2
    case Abstained => 2
    case IntentApproved => 3
    case Planned => 4
    case Reviewing => 5
    case EffectPending => 5
    case DraftPrCreated => 6
    case Complete => 7
  }

  /** An ingest of the pinned manifest after the run was ready, or a plan that checks after it was planned. */
  predicate StepsBack(cfg: Config, r: Run, cmd: Command, ans: Answers) {
    || (cmd.step.Ingest? && cmd.manifest == Some(Digest("sha256", cfg.manifestHex)) && Free(r, cmd.key, "ingest")
        && Rank(r.state) > Rank(Ready))
    || (cmd.step.Plan? && r.workflow.Some? && ans.noRedispatch && ans.sealed && Rank(r.state) > Rank(Planned))
  }

  /** Only an ingest and a plan can lead to a state that is not further along. */
  lemma OthersAdvance(cfg: Config, r: Run, cmd: Command, ans: Answers)
    requires !cmd.step.Ingest? && !cmd.step.Plan?
    ensures Rank(r.state) <= Rank(StepOn(cfg, r, cmd, ans).run.state)
  {
    hide Remember, ReasonOf, Successor;
    if KeyedName(cmd.step).Some? {
      RememberKeeps(r, cmd.key, KeyedName(cmd.step).value);
    }
  }

  lemma StepMovesBack(cfg: Config, r: Run, cmd: Command, ans: Answers)
    ensures Rank(StepOn(cfg, r, cmd, ans).run.state) < Rank(r.state) <==> StepsBack(cfg, r, cmd, ans)
  {
    hide ReasonOf, Successor, Rank;
    if !cmd.step.Ingest? && !cmd.step.Plan? {
      OthersAdvance(cfg, r, cmd, ans);
    }
  }

  /** The states do not order a run: a command takes a run back exactly when it is addressed to that run and ingests
      or plans again. */
  lemma BackwardsExactly(cfg: Config, t: Trace, cmd: Command, ans: Answers, id: string)
    requires id in t.runs
    ensures var u := Next(cfg, t, cmd, ans);
            && id in u.runs
            && (Rank(u.runs[id].state) < Rank(t.runs[id].state) <==>
                  Target(cfg, t.runs, cmd) == Some(id) && StepsBack(cfg, t.runs[id], cmd, ans))
  {
    hide StepOn, Rank;
    StepMovesBack(cfg, t.runs[id], cmd, ans);
  }

  /** A complete run that ingests again is ready again, draft and outcome still recorded, and then neither a draft nor
      an outcome step succeeds. */
  lemma RunsMoveBackwards(cfg: Config, r: Run, cmd: Command, next: Command, ans: Answers)
    requires r.state.Complete? && cmd.step.Ingest? && cmd.key == "" && cmd.manifest == Some(Digest("sha256", cfg.manifestHex))
    requires next.step.DraftPr? || next.step.Outcome?
    ensures var s := StepOn(cfg, r, cmd, ans).run;
            && s.state.Ready? && s.draft == r.draft && s.outcome == r.outcome
            && StepOn(cfg, s, next, ans).result == Err(UnknownScope)
  {
  }

  /** In the history of a whole run, one more ingest takes the complete run back to ready, and one more plan to
      planned. */
  lemma CompleteRunsGoBack(cfg: Config, p: Principal)
    requires p.id != cfg.denied
    ensures var id := RunId(cfg, p, "s");
            var open := Call(CommandTo(cfg, p, id, Session, "s"), Answers(None, false, false, None, None));
            var t := After(cfg, Next(cfg, EMPTY, open.cmd, open.ans), WholeRun(cfg, p, id));
            var ingest, plan := CallTo(cfg, p, id, Ingest, ""), CallTo(cfg, p, id, Plan, "");
            && id in t.runs && t.runs[id].state.Complete?
            && Next(cfg, t, ingest.cmd, ingest.ans).runs[id].state.Ready?
            && Next(cfg, t, plan.cmd, plan.ans).runs[id].state.Planned?
  {
    hide After, RunAfter, WholeRun;
    var id := RunId(cfg, p, "s");
    var open := Call(CommandTo(cfg, p, id, Session, "s"), Answers(None, false, false, None, None));
    var start := Next(cfg, EMPTY, open.cmd, open.ans);
    assert start.runs[id] == NewRun(cfg, open.cmd);
    WholeRunCompletes(cfg, p, id, start.runs[id]);
    WholeRunAddressed(cfg, p, id);
    OneRun(cfg, start, WholeRun(cfg, p, id), id, p);
  }

  lemma WholeRunAddressed(cfg: Config, p: Principal, id: string)
    ensures Addressed(cfg, WholeRun(cfg, p, id), id, p)
  {
  }
}
