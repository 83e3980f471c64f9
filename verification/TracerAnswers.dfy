/** Whether a draft follows from the last answer its run was given. */
module TracerAnswers {
  import opened Wrappers
  import opened Tracer
  import opened TracerHistory

  predicate IsAnswer(m: Mark) {
    m.AnsweredAuthorized? || m.AbstainedBecause?
  }

  /** The last answer in the log of a run. */
  ghost function LastAnswer(log: seq<Event>, id: string): Option<Mark>
    decreases |log|
  {
    if log == [] then None
    else
      var last := log[|log| - 1];
      if last.run == id && IsAnswer(last.mark) then Some(last.mark) else LastAnswer(log[..|log| - 1], id)
  }

  lemma AnswerAdded(log: seq<Event>, id: string, e: Event)
    ensures LastAnswer(log + [e], id) == if e.run == id && IsAnswer(e.mark) then Some(e.mark) else LastAnswer(log, id)
  {
    assert (log + [e])[..|log|] == log;
  }

  /** The variant of a run tells the last answer, unless a question of an unknown kind came after it. */
  ghost predicate Told(log: seq<Event>, id: string, r: Run) {
    match r.variant
    case Unknown => true
    case Authorized =>
      LastAnswer(log, id) == Some(AnsweredAuthorized) || (LastAnswer(log, id) == None && !r.state.Answered?)
    case Absent => LastAnswer(log, id) == Some(AbstainedBecause("SPAN_ABSENT"))
    case Stale => LastAnswer(log, id) == Some(AbstainedBecause("SPAN_STALE"))
    case Unauthorized => LastAnswer(log, id) == Some(AbstainedBecause("SPAN_UNAUTHORIZED"))
    case Revoked => LastAnswer(log, id) == Some(AbstainedBecause("SPAN_REVOKED"))
    case Unspecified => false
  }

  ghost predicate AllTold(t: Trace) {
    && (forall id :: id in t.runs ==> Told(t.log, id, t.runs[id]))
    && (forall i :: 0 <= i < |t.log| ==> t.log[i].run in t.runs)
  }

  lemma {:induction false} Unanswered(log: seq<Event>, id: string)
    requires forall i :: 0 <= i < |log| ==> log[i].run != id
    ensures LastAnswer(log, id) == None
    decreases |log|
  {
    if log != [] {
      Unanswered(log[..|log| - 1], id);
    }
  }

  /** Only a question changes the variant or leads to an answer. */
  lemma VariantKept(cfg: Config, r: Run, cmd: Command, ans: Answers)
    requires !cmd.step.Ask?
    ensures StepOn(cfg, r, cmd, ans).run.variant == r.variant
    ensures StepOn(cfg, r, cmd, ans).run.state.Answered? ==> r.state.Answered?
  {
    hide Remember, Successor;
    if KeyedName(cmd.step).Some? {
      RememberKeeps(r, cmd.key, KeyedName(cmd.step).value);
    }
  }

  /** Outside of successful questions, no mark is an answer. */
  lemma OnlyAsksAnswer(cmd: Command, e: Effect)
    requires e.result.Ok? && !cmd.step.Ask?
    ensures !IsAnswer(MarkOf(cmd, e))
  {
  }

  lemma AskTells(cfg: Config, log: seq<Event>, id: string, r: Run, cmd: Command, ans: Answers)
    requires Told(log, id, r) && cmd.step.Ask?
    ensures var e := StepOn(cfg, r, cmd, ans);
            Told(if e.result.Ok? then log + [Event(id, MarkOf(cmd, e))] else log, id, e.run)
  {
    hide LastAnswer, Remember, Successor;
    var e := StepOn(cfg, r, cmd, ans);
    RememberKeeps(r, cmd.key, "ask");
    if e.result.Ok? {
      AnswerAdded(log, id, Event(id, MarkOf(cmd, e)));
    }
  }

  lemma StepTells(cfg: Config, log: seq<Event>, id: string, r: Run, cmd: Command, ans: Answers)
    requires Told(log, id, r)
    ensures var e := StepOn(cfg, r, cmd, ans);
            Told(if e.result.Ok? then log + [Event(id, MarkOf(cmd, e))] else log, id, e.run)
  {
    hide StepOn, LastAnswer, MarkOf;
    var e := StepOn(cfg, r, cmd, ans);
    if cmd.step.Ask? {
      AskTells(cfg, log, id, r, cmd, ans);
    } else {
      VariantKept(cfg, r, cmd, ans);
      if e.result.Ok? {
        OnlyAsksAnswer(cmd, e);
        AnswerAdded(log, id, Event(id, MarkOf(cmd, e)));
      }
    }
  }

  lemma TargetTold(cfg: Config, t: Trace, cmd: Command, ans: Answers, id: string)
    requires AllTold(t) && Target(cfg, t.runs, cmd) == Some(id)
    ensures var e := EffectOn(cfg, t.runs, cmd, ans, id);
            Told(if e.result.Ok? then t.log + [Event(id, MarkOf(cmd, e))] else t.log, id, e.run)
  {
    hide StepOn, LastAnswer;
    var e := EffectOn(cfg, t.runs, cmd, ans, id);
    if !cmd.step.Session? {
      StepTells(cfg, t.log, id, t.runs[id], cmd, ans);
    } else {
      AnswerAdded(t.log, id, Event(id, MarkOf(cmd, e)));
      if id !in t.runs {
        Unanswered(t.log, id);
      }
    }
  }

  lemma NextTold(cfg: Config, t: Trace, cmd: Command, ans: Answers)
    requires AllTold(t)
    ensures AllTold(Next(cfg, t, cmd, ans))
  {
    hide StepOn, LastAnswer, MarkOf, Target;
    var u := Next(cfg, t, cmd, ans);
    if Target(cfg, t.runs, cmd).Some? {
      var id := Target(cfg, t.runs, cmd).value;
      TargetTold(cfg, t, cmd, ans, id);
      forall k | k in u.runs && k != id ensures Told(u.log, k, u.runs[k]) {
        if u.log != t.log {
          AnswerAdded(t.log, k, u.log[|t.log|]);
        }
      }
    }
  }

  /** In every history the variants of the runs tell their last answers. */
  lemma {:induction false} HistoriesTell(cfg: Config, t: Trace, calls: seq<Call>)
    requires AllTold(t)
    ensures AllTold(After(cfg, t, calls))
    decreases |calls|
  {
    hide AllTold, Next;
    if calls != [] {
      var init, last := calls[..|calls| - 1], calls[|calls| - 1];
      HistoriesTell(cfg, t, init);
      NextTold(cfg, After(cfg, t, init), last.cmd, last.ans);
    }
  }

  /** A run with an answer among its marks has a last answer. */
  lemma {:induction false} SomeAnswer(log: seq<Event>, id: string, k: nat)
    requires k < |log| && log[k].run == id && IsAnswer(log[k].mark)
    ensures LastAnswer(log, id).Some?
    decreases |log|
  {
    if k < |log| - 1 {
      SomeAnswer(log[..|log| - 1], id, k);
    }
  }

  /** Where one of some marks that occur in the log stands. */
  lemma {:induction false} PlaceOf(log: seq<Event>, id: string, marks: seq<Mark>, i: nat) returns (k: nat)
    requires Occurs(log, id, marks) && i < |marks|
    ensures k < |log| && log[k] == Event(id, marks[i])
    decreases |marks|
  {
    k :| OccursAt(log, id, marks, k);
    if i < |marks| - 1 {
      k := PlaceOf(log[..k], id, marks[..|marks| - 1], i);
    }
  }

  /** A draft is published on the strength of the last answer exactly when the run's variant is the authorised one,
      in every history, unless a question of an unknown kind was asked since. */
  lemma DraftsFromTheLastAnswer(cfg: Config, calls: seq<Call>, cmd: Command, ans: Answers, id: string)
    requires var runs := After(cfg, EMPTY, calls).runs;
             Target(cfg, runs, cmd) == Some(id) && cmd.step.DraftPr? && EffectOn(cfg, runs, cmd, ans, id).result.Ok?
    ensures var t := After(cfg, EMPTY, calls);
            && LastAnswer(t.log, id).Some?
            && (!t.runs[id].variant.Unknown? ==>
                  (LastAnswer(t.log, id) == Some(AnsweredAuthorized) <==> t.runs[id].variant.Authorized?))
  {
    hide After, Next, Occurs, LastAnswer;
    var t := After(cfg, EMPTY, calls);
    HistoriesEarn(cfg, calls);
    HistoriesTell(cfg, EMPTY, calls);
    assert Earned(cfg, t.log, id, t.runs[id]) && Told(t.log, id, t.runs[id]);
    DraftsWereAnswered(cfg, t.log, id, t.runs[id]);
  }

  lemma DraftsWereAnswered(cfg: Config, log: seq<Event>, id: string, r: Run)
    requires Earned(cfg, log, id, r) && (r.state.EffectPending? || r.state.DraftPrCreated?)
    ensures LastAnswer(log, id).Some?
  {
    hide Occurs, LastAnswer;
    var marks := if r.state.EffectPending? then UpToReview(cfg) else UpToDraft(cfg, r.effectApproval, r.changeSet);
    var k := PlaceOf(log, id, marks, 1);
    SomeAnswer(log, id, k);
  }

  // ----- histories whose draft does not follow from the last answer ----------------------------------

  function AskTo(cfg: Config, p: Principal, id: string, v: Variant): Call {
    CallTo(cfg, p, id, Ask, "").(cmd := CommandTo(cfg, p, id, Ask, "").(variant := v))
  }

  /** Answered and approved, then ingested again and asked again. */
  function AskedAgain(cfg: Config, p: Principal, id: string, v: Variant): seq<Call> {
    [CallTo(cfg, p, id, Ingest, ""), AskTo(cfg, p, id, Authorized), CallTo(cfg, p, id, Intent, ""), CallTo(cfg, p, id, Ingest, ""),
     AskTo(cfg, p, id, v)]
  }

  function ThenReviewed(cfg: Config, p: Principal, id: string): seq<Call> {
    [CallTo(cfg, p, id, Plan, ""), CallTo(cfg, p, id, Review, "")]
  }

  function ThenUnknown(cfg: Config, p: Principal, id: string): seq<Call> {
    [AskTo(cfg, p, id, Unknown), CallTo(cfg, p, id, Plan, ""), CallTo(cfg, p, id, Review, "")]
  }

  lemma Ingests(cfg: Config, p: Principal, id: string, r: Run)
    ensures Stepped(cfg, r, CallTo(cfg, p, id, Ingest, "")) == Tick(r.(state := Ready))
  {
  }

  lemma Asks(cfg: Config, p: Principal, id: string, r: Run, v: Variant)
    requires (r.state.Ready? || r.state.Answered? || r.state.Abstained?) && ReasonOf(v).Some?
    ensures Stepped(cfg, r, AskTo(cfg, p, id, v)) ==
            Tick(r.(variant := v, state := if v.Authorized? then Answered else Abstained))
  {
  }

  lemma Intends(cfg: Config, p: Principal, id: string, r: Run)
    requires r.state.Answered?
    ensures Stepped(cfg, r, CallTo(cfg, p, id, Intent, "")) == Tick(r.(workflow := Some("w"), state := IntentApproved))
  {
  }

  function FiveOn(watermark: nat): nat {
    Successor(Successor(Successor(Successor(Successor(watermark)))))
  }

  lemma IsAuthorized()
    ensures ReasonOf(Authorized).Some?
  {
  }

  lemma AgainAnswered(cfg: Config, p: Principal, id: string, r: Run, v: Variant)
    requires ReasonOf(v).Some?
    ensures RunAfter(cfg, r, AskedAgain(cfg, p, id, v)) ==
            r.(state := if v.Authorized? then Answered else Abstained, variant := v, workflow := Some("w"),
               watermark := FiveOn(r.watermark))
  {
    hide StepOn, RunAfter, CallTo, AskTo, ReasonOf, Successor;
    var calls := AskedAgain(cfg, p, id, v);
    NoSteps(cfg, r);
    assert calls[..0] == [] && calls[..5] == calls;
    OneMoreStep(cfg, r, calls, 0);
    Ingests(cfg, p, id, r);
    OneMoreStep(cfg, r, calls, 1);
    IsAuthorized();
    Asks(cfg, p, id, RunAfter(cfg, r, calls[..1]), Authorized);
    OneMoreStep(cfg, r, calls, 2);
    Intends(cfg, p, id, RunAfter(cfg, r, calls[..2]));
    OneMoreStep(cfg, r, calls, 3);
    Ingests(cfg, p, id, RunAfter(cfg, r, calls[..3]));
    OneMoreStep(cfg, r, calls, 4);
    Asks(cfg, p, id, RunAfter(cfg, r, calls[..4]), v);
  }

  lemma PlansAndReviews(cfg: Config, p: Principal, id: string, r: Run)
    requires r.workflow.Some?
    ensures Stepped(cfg, Stepped(cfg, r, CallTo(cfg, p, id, Plan, "")), CallTo(cfg, p, id, Review, "")) ==
            Tick(Tick(r.(state := EffectPending)))
  {
    hide Successor;
  }

  lemma AsksInVain(cfg: Config, p: Principal, id: string, r: Run)
    requires r.state.Answered? || r.state.Abstained?
    ensures Stepped(cfg, r, AskTo(cfg, p, id, Unknown)) == Tick(r.(variant := Unknown))
  {
  }

  lemma Reviewed(cfg: Config, p: Principal, id: string, r: Run)
    requires r.workflow.Some?
    ensures RunAfter(cfg, r, ThenReviewed(cfg, p, id)) == Tick(Tick(r.(state := EffectPending)))
  {
    hide StepOn, RunAfter, CallTo, Successor;
    var calls := ThenReviewed(cfg, p, id);
    NoSteps(cfg, r);
    assert calls[..0] == [] && calls[..2] == calls;
    OneMoreStep(cfg, r, calls, 0);
    OneMoreStep(cfg, r, calls, 1);
    PlansAndReviews(cfg, p, id, r);
  }

  lemma ReviewedUnknown(cfg: Config, p: Principal, id: string, r: Run)
    requires r.workflow.Some? && (r.state.Answered? || r.state.Abstained?)
    ensures RunAfter(cfg, r, ThenUnknown(cfg, p, id)) == Tick(Tick(Tick(r.(variant := Unknown, state := EffectPending))))
  {
    hide StepOn, RunAfter, CallTo, AskTo, Successor;
    var calls := ThenUnknown(cfg, p, id);
    NoSteps(cfg, r);
    assert calls[..0] == [] && calls[..3] == calls;
    OneMoreStep(cfg, r, calls, 0);
    AsksInVain(cfg, p, id, r);
    OneMoreStep(cfg, r, calls, 1);
    OneMoreStep(cfg, r, calls, 2);
    PlansAndReviews(cfg, p, id, RunAfter(cfg, r, calls[..1]));
  }

  ghost function OpenedBy(cfg: Config, p: Principal): Trace {
    Next(cfg, EMPTY, CommandTo(cfg, p, RunId(cfg, p, "s"), Session, "s"), Answers(None, false, false, None, None))
  }

  /** The trace after an answer was asked for again. */
  ghost function AgainAsked(cfg: Config, p: Principal, v: Variant): Trace {
    After(cfg, OpenedBy(cfg, p), AskedAgain(cfg, p, RunId(cfg, p, "s"), v))
  }

  lemma AgainTold(cfg: Config, p: Principal, v: Variant)
    requires p.id != cfg.denied && ReasonOf(v).Some?
    ensures var t, id := AgainAsked(cfg, p, v), RunId(cfg, p, "s");
            && AllTold(t) && id in t.runs && t.runs[id].principal == p && t.runs[id].variant == v && t.runs[id].workflow.Some?
            && t.runs[id] ==
               NewRun(cfg, CommandTo(cfg, p, id, Session, "s")).(
                 state := if v.Authorized? then Answered else Abstained, variant := v, workflow := Some("w"),
                 watermark := FiveOn(1))
  {
    hide After, RunAfter, AskedAgain, LastAnswer;
    var id := RunId(cfg, p, "s");
    var start := OpenedBy(cfg, p);
    NextTold(cfg, EMPTY, CommandTo(cfg, p, id, Session, "s"), Answers(None, false, false, None, None));
    HistoriesTell(cfg, start, AskedAgain(cfg, p, id, v));
    AgainAddressed(cfg, p, id, v);
    OneRun(cfg, start, AskedAgain(cfg, p, id, v), id, p);
    AgainAnswered(cfg, p, id, start.runs[id], v);
  }

  lemma AgainAddressed(cfg: Config, p: Principal, id: string, v: Variant)
    ensures Addressed(cfg, AskedAgain(cfg, p, id, v), id, p)
  {
  }

  /** In this history the last answer was that the span is revoked, and a draft is published all the same. */
  lemma StaleDraft(cfg: Config, p: Principal)
    requires p.id != cfg.denied
    ensures var id := RunId(cfg, p, "s");
            var t := After(cfg, AgainAsked(cfg, p, Revoked), ThenReviewed(cfg, p, id));
            var draft := CallTo(cfg, p, id, DraftPr, "");
            && id in t.runs && LastAnswer(t.log, id) == Some(AbstainedBecause("SPAN_REVOKED"))
            && ResultOf(cfg, t.runs, draft.cmd, draft.ans).Ok?
  {
    hide After, RunAfter, AgainAsked, LastAnswer;
    var id, mid := RunId(cfg, p, "s"), AgainAsked(cfg, p, Revoked);
    AgainTold(cfg, p, Revoked);
    HistoriesTell(cfg, mid, ThenReviewed(cfg, p, id));
    OneRun(cfg, mid, ThenReviewed(cfg, p, id), id, p);
    Reviewed(cfg, p, id, mid.runs[id]);
    assert Told(After(cfg, mid, ThenReviewed(cfg, p, id)).log, id, After(cfg, mid, ThenReviewed(cfg, p, id)).runs[id]);
  }

  /** A call that is not a question of a known kind. */
  predicate Quiet(call: Call) {
    !call.cmd.step.Ask? || call.cmd.variant.Unknown?
  }

  lemma {:induction false} QuietCallsAnswerNothing(cfg: Config, t: Trace, calls: seq<Call>, id: string)
    requires forall i :: 0 <= i < |calls| ==> Quiet(calls[i])
    ensures LastAnswer(After(cfg, t, calls).log, id) == LastAnswer(t.log, id)
    decreases |calls|
  {
    hide LastAnswer, Next;
    if calls != [] {
      var init, last := calls[..|calls| - 1], calls[|calls| - 1];
      QuietCallsAnswerNothing(cfg, t, init, id);
      QuietCallAnswersNothing(cfg, After(cfg, t, init), last, id);
    }
  }

  lemma QuietCallAnswersNothing(cfg: Config, t: Trace, call: Call, id: string)
    requires Quiet(call)
    ensures LastAnswer(Next(cfg, t, call.cmd, call.ans).log, id) == LastAnswer(t.log, id)
  {
    hide LastAnswer, StepOn, MarkOf;
    var u := Next(cfg, t, call.cmd, call.ans);
    if u.log != t.log {
      var k := Target(cfg, t.runs, call.cmd).value;
      var e := EffectOn(cfg, t.runs, call.cmd, call.ans, k);
      if call.cmd.step.Ask? {
        UnknownFails(cfg, t.runs[k], call.cmd, call.ans);
      }
      OnlyAsksAnswer(call.cmd, e);
      AnswerAdded(t.log, id, Event(k, MarkOf(call.cmd, e)));
    }
  }

  lemma UnknownFails(cfg: Config, r: Run, cmd: Command, ans: Answers)
    requires cmd.step.Ask? && cmd.variant.Unknown?
    ensures StepOn(cfg, r, cmd, ans).result.Err?
  {
    hide Successor;
  }

  /** What the run of such a history records. */
  function UnknownRun(cfg: Config, p: Principal): Run {
    var r := NewRun(cfg, CommandTo(cfg, p, RunId(cfg, p, "s"), Session, "s"));
    Tick(Tick(Tick(r.(state := EffectPending, variant := Unknown, workflow := Some("w"), watermark := FiveOn(1)))))
  }

  lemma UnknownHistory(cfg: Config, p: Principal, v: Variant)
    requires p.id != cfg.denied && ReasonOf(v).Some?
    ensures var id := RunId(cfg, p, "s");
            var t := After(cfg, AgainAsked(cfg, p, v), ThenUnknown(cfg, p, id));
            && id in t.runs && t.runs[id] == UnknownRun(cfg, p)
            && LastAnswer(t.log, id) == Some(if v.Authorized? then AnsweredAuthorized else AbstainedBecause(ReasonOf(v).value))
  {
    hide After, RunAfter, AgainAsked, LastAnswer, Successor;
    var id, mid := RunId(cfg, p, "s"), AgainAsked(cfg, p, v);
    AgainTold(cfg, p, v);
    OneRun(cfg, mid, ThenUnknown(cfg, p, id), id, p);
    ReviewedUnknown(cfg, p, id, mid.runs[id]);
    QuietCallsAnswerNothing(cfg, mid, ThenUnknown(cfg, p, id), id);
    assert Told(mid.log, id, mid.runs[id]);
  }

  /** After a question of an unknown kind nothing that a run records tells its last answer: these two histories leave
      the same run, on which a draft is published, after an authorised and after a revoked answer. */
  lemma UnknownTellsNothing(cfg: Config, p: Principal)
    requires p.id != cfg.denied
    ensures var id := RunId(cfg, p, "s");
            var t := After(cfg, AgainAsked(cfg, p, Authorized), ThenUnknown(cfg, p, id));
            var u := After(cfg, AgainAsked(cfg, p, Revoked), ThenUnknown(cfg, p, id));
            var draft := CallTo(cfg, p, id, DraftPr, "");
            && id in t.runs && id in u.runs && t.runs[id] == u.runs[id]
            && ResultOf(cfg, t.runs, draft.cmd, draft.ans).Ok?
            && LastAnswer(t.log, id) == Some(AnsweredAuthorized)
            && LastAnswer(u.log, id) == Some(AbstainedBecause("SPAN_REVOKED"))
  {
    hide After, AgainAsked, ThenUnknown, LastAnswer, Successor;
    UnknownHistory(cfg, p, Authorized);
    UnknownHistory(cfg, p, Revoked);
  }
}
