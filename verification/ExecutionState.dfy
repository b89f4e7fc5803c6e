/** The execution state of a task, what makes a state and a step legal, and what holds over whole runs
    (internal/autonomous/state.go:1207-1271, 1273-1450, 1455-1609). */
module ExecutionState {
  import opened Base
  import TaskPlans
  import Attempts
  import InputLog
  import opened Obligations

  datatype Lifecycle =
    | PendingTask | Ready | Planning | Working | Verifying | Auditing | Correcting
    | NeedsInput | Finalizing
    | Completed | Blocked | Cancelled | Superseded | Abandoned

  predicate Terminal(l: Lifecycle)
  {
    l == Completed || l == Blocked || l == Cancelled || l == Superseded || l == Abandoned
  }

  datatype FinalStage = Admitted | Materialized | TaskCompleted | StateCompleted | LedgerCompleted

  function Order(s: FinalStage): nat
  {
    match s
    case Admitted => 1
    case Materialized => 2
    case TaskCompleted => 3
    case StateCompleted => 4
    case LedgerCompleted => 5
  }

  type Time = nat

  /** `authority` stands for the operation, run, frozen evidence and original task identity together. */
  datatype Finalization = Finalization(
    authority: string,
    admittedAt: Time,
    stage: FinalStage,
    capsule: Option<string>,
    manifest: Option<string>,
    materializedAt: Option<Time>,
    completedTask: Option<string>,
    taskCompletedAt: Option<Time>,
    stateCompletedAt: Option<Time>,
    ledgerCompletedAt: Option<Time>)

  datatype State = State(
    taskId: string,
    lifecycle: Lifecycle,
    plan: Option<TaskPlans.TaskPlan>,
    criteria: seq<Criterion>,
    resolutions: seq<Resolution>,
    latestDecision: Option<Decision>,
    attempts: Attempts.AttemptState,
    input: InputLog.InputState,
    needsInput: Option<Option<InputLog.QuestionId>>,
    terminal: Option<string>,
    breaker: Option<string>,
    finalization: Option<Finalization>,
    reopenedFrom: Option<string>,
    childOf: Option<string>)

  // ----------------------------------------------------------------- validity

  predicate NotBefore(a: Time, b: Option<Time>)
  {
    b.None? || a <= b.value
  }

  /** Each stage's evidence is there exactly from that stage on, and the stage times do not decrease. */
  predicate FinalizationValid(f: Finalization)
  {
    var n := Order(f.stage);
    && f.authority != "" && f.admittedAt > 0
    && (f.capsule.Some? <==> n >= 2) && (f.manifest.Some? <==> n >= 2) && (f.materializedAt.Some? <==> n >= 2)
    && (f.completedTask.Some? <==> n >= 3) && (f.taskCompletedAt.Some? <==> n >= 3)
    && (f.stateCompletedAt.Some? <==> n >= 4) && (f.ledgerCompletedAt.Some? <==> n >= 5)
    && NotBefore(f.admittedAt, f.materializedAt)
    && (f.materializedAt.Some? ==> NotBefore(f.materializedAt.value, f.taskCompletedAt))
    && (f.taskCompletedAt.Some? ==> NotBefore(f.taskCompletedAt.value, f.stateCompletedAt))
    && (f.stateCompletedAt.Some? ==> NotBefore(f.stateCompletedAt.value, f.ledgerCompletedAt))
  }

  predicate FinalizationFits(s: State)
  {
    if s.finalization.Some?
        then FinalizationValid(s.finalization.value) && (s.lifecycle == Finalizing || s.lifecycle == Completed)
    else s.lifecycle != Finalizing
  }

  /** The current question is the newest one and has not been resumed; untyped detail goes with no questions. */
  predicate QuestionFits(s: State)
  {
    && (s.needsInput.Some? <==> s.lifecycle == NeedsInput)
    && (s.needsInput.Some? ==>
          if s.needsInput.value.Some? then
            && InputLog.NewestId(s.input.questions) == s.needsInput.value
            && s.latestDecision.Some?
                && s.latestDecision.value.id == s.input.questions[|s.input.questions| - 1].decisionId
            && !(exists i, j :: 0 <= i < |s.input.answers| && 0 <= j < |s.input.resumes|
                   && s.input.answers[i].question == s.needsInput.value.value
                   && s.input.resumes[j].question == s.input.answers[i].question)
          else s.input.questions == [])
  }

  predicate LineageFits(s: State)
  {
    s.taskId != "" && s.reopenedFrom != Some(s.taskId) && s.childOf != Some(s.taskId)
  }

  predicate CompletionFits(s: State)
  {
    s.lifecycle == Completed ==>
      && s.plan.Some? && s.plan.value.completed && Discharged(s.criteria, s.resolutions, s.latestDecision)
      && (s.finalization.Some? ==> Order(s.finalization.value.stage) >= Order(StateCompleted))
  }

  predicate StateValid(s: State)
  {
    && LineageFits(s) && (s.plan.Some? ==> TaskPlans.PlanValid(s.plan.value))
    && CriteriaValid(s.criteria) && ResolutionsValid(s.resolutions, s.latestDecision)
    && Attempts.StateValid(s.attempts) && InputLog.InputValid(s.input)
    && FinalizationFits(s) && QuestionFits(s)
    && (s.breaker.Some? ==> s.lifecycle == Blocked || s.lifecycle == NeedsInput)
    && (s.terminal.Some? <==> Terminal(s.lifecycle))
    && CompletionFits(s)
  }

  // -------------------------------------------------------------- transitions

  predicate Once<T(==)>(p: Option<T>, n: Option<T>)
  {
    p.Some? ==> n == p
  }

  predicate FinalizationKept(p: Finalization, n: Finalization)
  {
    && p.authority == n.authority && p.admittedAt == n.admittedAt && Order(p.stage) <= Order(n.stage)
    && Once(p.capsule, n.capsule) && Once(p.manifest, n.manifest) && Once(p.completedTask, n.completedTask)
    && Once(p.materializedAt, n.materializedAt) && Once(p.taskCompletedAt, n.taskCompletedAt)
    && Once(p.stateCompletedAt, n.stateCompletedAt) && Once(p.ledgerCompletedAt, n.ledgerCompletedAt)
  }

  /** What the transition check demands beyond plan, attempts and input. */
  predicate DoorsKept(p: State, n: State)
  {
    && p.taskId == n.taskId
    && (Terminal(p.lifecycle) ==> n.lifecycle == p.lifecycle)
    && (p.breaker.Some? ==> n.breaker.Some?)
    && (p.finalization.Some? ==> n.finalization.Some? && FinalizationKept(p.finalization.value, n.finalization.value))
    && Once(p.reopenedFrom, n.reopenedFrom) && p.childOf == n.childOf
  }

  /** ValidateExecutionStateTransition between two valid states. */
  predicate TransitionValid(p: State, n: State)
  {
    && DoorsKept(p, n)
    && TaskPlans.TransitionValid(p.plan, n.plan)
    && CriteriaKept(p.criteria, n.criteria) && ResolutionsStep(p.resolutions, n.resolutions)
    && LatestStep(p.latestDecision, n.latestDecision)
    && Attempts.TransitionValid(p.attempts, n.attempts)
    && InputLog.TransitionValid(p.input, n.input)
  }

  /** Valid states, each a legal step from the one before. */
  ghost predicate LegalRun(run: seq<State>)
  {
    && (forall i {:trigger StateValid(run[i])} :: 0 <= i < |run| ==> StateValid(run[i]))
    && (forall i, j {:trigger TransitionValid(run[i], run[j])} :: 0 <= i < j < |run| && j == i + 1 ==>
        TransitionValid(run[i], run[j]))
  }

  // ---------------------------------------------------------------- over runs

  lemma DoorsTransitive(a: State, b: State, c: State)
    requires DoorsKept(a, b) && DoorsKept(b, c)
    ensures DoorsKept(a, c)
  {
  }

  lemma {:induction false} DoorsHold(run: seq<State>, i: nat, j: nat)
    requires LegalRun(run) && i <= j < |run|
    ensures DoorsKept(run[i], run[j])
    decreases j
  {
    if i < j {
      DoorsHold(run, i, j - 1);
      assert TransitionValid(run[j - 1], run[j]);
      DoorsTransitive(run[i], run[j - 1], run[j]);
    }
  }

  /** The authority and admission of a finalization never change, its stage is the same or a later one, and whatever
      evidence or time it has is there unchanged later. */
  predicate EvidenceWrittenOnce(f: Finalization, g: Finalization)
  {
    && g.authority == f.authority && g.admittedAt == f.admittedAt
    && (f.stage == LedgerCompleted ==> g.stage == LedgerCompleted)
    && (f.stage == StateCompleted ==> g.stage == StateCompleted || g.stage == LedgerCompleted)
    && (f.stage == TaskCompleted ==> g.stage != Admitted && g.stage != Materialized)
    && (f.stage == Materialized ==> g.stage != Admitted)
    && (f.capsule.None? || g.capsule == f.capsule)
    && (f.manifest.None? || g.manifest == f.manifest)
    && (f.completedTask.None? || g.completedTask == f.completedTask)
    && (f.materializedAt.None? || g.materializedAt == f.materializedAt)
    && (f.taskCompletedAt.None? || g.taskCompletedAt == f.taskCompletedAt)
    && (f.stateCompletedAt.None? || g.stateCompletedAt == f.stateCompletedAt)
    && (f.ledgerCompletedAt.None? || g.ledgerCompletedAt == f.ledgerCompletedAt)
  }

  lemma KeptIsWrittenOnce(f: Finalization, g: Finalization)
    requires FinalizationKept(f, g)
    ensures EvidenceWrittenOnce(f, g)
  {
  }

  /** One-way doors. Once finalization has begun the task is finalizing or completed for good, its stage never
      goes back, and its evidence and times are written once. Once a circuit breaker has tripped the task waits
      for input or is blocked for good, so it never completes. A terminal lifecycle is never left. */
  lemma OneWayDoors(run: seq<State>, i: nat, j: nat)
    requires LegalRun(run) && i <= j < |run|
    ensures run[i].finalization.Some? ==>
              && (run[j].lifecycle == Finalizing || run[j].lifecycle == Completed)
              && run[j].finalization.Some? && EvidenceWrittenOnce(run[i].finalization.value, run[j].finalization.value)
    ensures run[i].breaker.Some? ==>
            run[j].breaker.Some? && (run[j].lifecycle == NeedsInput || run[j].lifecycle == Blocked)
    ensures Terminal(run[i].lifecycle) ==> run[j].lifecycle == run[i].lifecycle && run[j].terminal.Some?
    ensures run[j].childOf == run[i].childOf && run[j].taskId == run[i].taskId
    ensures run[i].reopenedFrom.Some? ==> run[j].reopenedFrom == run[i].reopenedFrom
  {
    DoorsHold(run, i, j);
    assert StateValid(run[j]);
    if run[i].finalization.Some? {
      KeptIsWrittenOnce(run[i].finalization.value, run[j].finalization.value);
    }
  }

  /** No run holds both a finalization and a circuit breaker, at whatever positions. */
  lemma DoorsExclude(run: seq<State>, i: nat, j: nat)
    requires LegalRun(run) && i < |run| && j < |run| && run[i].finalization.Some?
    ensures run[j].breaker.None?
  {
    if run[j].breaker.Some? {
      var last := if i < j then j else i;
      OneWayDoors(run, i, last);
      OneWayDoors(run, j, last);
      assert false;
    }
  }

  function Plans(run: seq<State>): (r: seq<Option<TaskPlans.TaskPlan>>)
    ensures |r| == |run| && forall i :: 0 <= i < |run| ==> r[i] == run[i].plan
  {
    seq(|run|, i requires 0 <= i < |run| => run[i].plan)
  }

  function AttemptsOf(run: seq<State>): (r: seq<Attempts.AttemptState>)
    ensures |r| == |run| && forall i :: 0 <= i < |run| ==> r[i] == run[i].attempts
  {
    seq(|run|, i requires 0 <= i < |run| => run[i].attempts)
  }

  function Inputs(run: seq<State>): (r: seq<InputLog.InputState>)
    ensures |r| == |run| && forall i :: 0 <= i < |run| ==> r[i] == run[i].input
  {
    seq(|run|, i requires 0 <= i < |run| => run[i].input)
  }

  lemma PlansProject(run: seq<State>)
    requires LegalRun(run)
    ensures TaskPlans.LegalRun(Plans(run))
  {
    forall i | 0 <= i < |run|
      ensures run[i].plan.Some? ==> TaskPlans.PlanValid(run[i].plan.value)
    {
      assert StateValid(run[i]);
    }
    forall i, j | 0 <= i < j < |run| && j == i + 1
      ensures TaskPlans.TransitionValid(run[i].plan, run[j].plan)
    {
      assert TransitionValid(run[i], run[j]);
    }
  }

  lemma AttemptsProject(run: seq<State>)
    requires LegalRun(run)
    ensures Attempts.LegalRun(AttemptsOf(run))
  {
    forall i | 0 <= i < |run|
      ensures Attempts.StateValid(run[i].attempts)
    {
      assert StateValid(run[i]);
    }
    forall i, j | 0 <= i < j < |run| && j == i + 1
      ensures Attempts.TransitionValid(run[i].attempts, run[j].attempts)
    {
      assert TransitionValid(run[i], run[j]);
    }
  }

  lemma InputsProject(run: seq<State>)
    requires LegalRun(run)
    ensures InputLog.Growing(Inputs(run))
  {
    forall i, j | 0 <= i < j < |run| && j == i + 1
      ensures InputLog.TransitionValid(run[i].input, run[j].input)
    {
      assert TransitionValid(run[i], run[j]);
    }
  }

  /** Append-only evidence over a whole run: finished plan steps stay, revision numbers count plan changes,
      attempt accounting is kept, and the later input log replays as an extension of the earlier one's run. */
  lemma EvidencePermanent(run: seq<State>, i: nat, j: nat)
      returns (before: seq<InputLog.Event>, after: seq<InputLog.Event>)
    requires LegalRun(run) && i < j < |run|
    ensures Attempts.AccountKept(run[i].attempts, run[j].attempts)
    ensures run[i].plan.Some? ==>
              && run[j].plan.Some?
              && (forall s :: s in run[i].plan.value.steps
                              && (s.status == TaskPlans.Completed || s.status == TaskPlans.Skipped) ==>
                  s in run[j].plan.value.steps)
              && run[j].plan.value.revision == run[i].plan.value.revision + TaskPlans.Revisions(Plans(run), i, j)
    ensures InputLog.LegalRun(after) && InputLog.Record(after) == run[j].input
    ensures InputLog.LegalRun(before) && InputLog.Record(before) == run[i].input
    ensures before <= after
  {
    PlansProject(run);
    AttemptsProject(run);
    InputsProject(run);
    Attempts.RunKeeps(AttemptsOf(run), i, j);
    if run[i].plan.Some? {
      TaskPlans.PlanRun(Plans(run), i, j);
    }
    assert StateValid(run[i]) && StateValid(run[j]);
    InputLog.GrowingKeeps(Inputs(run), i, j);
    before := InputLog.Replay(run[i].input);
    after := InputLog.Replay(run[j].input);
    InputLog.TransitionAppends(before, after);
  }

  lemma {:induction false} ObligationsHold(run: seq<State>, i: nat, j: nat)
    requires LegalRun(run) && i < j < |run|
    ensures CriteriaKept(run[i].criteria, run[j].criteria) && ResolutionsKept(run[i].resolutions, run[j].resolutions)
    decreases j
  {
    ObligationStep(run, j);
    if i < j - 1 {
      ObligationsHold(run, i, j - 1);
      CriteriaKeptTransitive(run[i].criteria, run[j - 1].criteria, run[j].criteria);
      ResolutionsKeptTransitive(run[i].resolutions, run[j - 1].resolutions, run[j].resolutions);
    }
  }

  /** Over any run no criterion disappears, changes its requirement or source, or becomes pending again, no finding
      resolution disappears or leaves a terminal status, and there is a latest decision once there was one. */
  lemma ObligationsPermanent(run: seq<State>, i: nat, j: nat)
    requires LegalRun(run) && i < j < |run|
    ensures forall c :: c in run[i].criteria ==> StillOwed(c, run[j].criteria)
    ensures forall r :: r in run[i].resolutions ==> StillResolved(r, run[j].resolutions)
    ensures run[i].latestDecision.Some? ==> run[j].latestDecision.Some?
  {
    ObligationsHold(run, i, j);
    DecisionStays(run, i, j);
    CriteriaSurvive(run[i].criteria, run[j].criteria);
    ResolutionsSurvive(run[i].resolutions, run[j].resolutions);
  }

  lemma {:induction false} DecisionStays(run: seq<State>, i: nat, j: nat)
    requires LegalRun(run) && i < j < |run|
    ensures run[i].latestDecision.Some? ==> run[j].latestDecision.Some?
    decreases j
  {
    assert TransitionValid(run[j - 1], run[j]);
    if i < j - 1 {
      DecisionStays(run, i, j - 1);
    }
  }

  /** No decision id stands for two decisions: not within a state, among its findings' resolutions and its latest
      decision; not from one state to the next, for the latest decision and for the resolution of the same finding. */
  lemma DecisionsNotReused(run: seq<State>, j: nat)
    requires LegalRun(run) && j < |run|
    ensures forall k, m :: 0 <= k < m < |run[j].resolutions| ==>
              OneReference(run[j].resolutions[k].decision, run[j].resolutions[m].decision)
    ensures forall k :: 0 <= k < |run[j].resolutions| ==>
              OneReference(run[j].resolutions[k].decision, run[j].latestDecision)
    ensures 0 < j ==> OneReference(run[j - 1].latestDecision, run[j].latestDecision)
    ensures 0 < j ==> OneReferenceEach(run[j - 1].resolutions, run[j].resolutions)
  {
    assert StateValid(run[j]);
    if 0 < j {
      assert TransitionValid(run[j - 1], run[j]);
      DecisionsCarried(run[j - 1].resolutions, run[j].resolutions);
    }
  }

  lemma ObligationStep(run: seq<State>, j: nat)
    requires LegalRun(run) && 0 < j < |run|
    ensures CriteriaKept(run[j - 1].criteria, run[j].criteria)
    ensures ResolutionsKept(run[j - 1].resolutions, run[j].resolutions)
  {
    assert TransitionValid(run[j - 1], run[j]);
    StepKeeps(run[j - 1].resolutions, run[j].resolutions);
  }

  // ------------------------------------------------------- what states mean

  /** What every state of a run satisfies, in its own fields: who may be its parent; which lifecycles go with terminal
      detail, breaker, question and finalization; and that finalization evidence is there from its stage on, in order.
      */
  lemma StateFields(run: seq<State>, j: nat)
    requires LegalRun(run) && j < |run|
    ensures run[j].taskId != "" && run[j].reopenedFrom != Some(run[j].taskId) && run[j].childOf != Some(run[j].taskId)
    ensures run[j].terminal.Some? <==> run[j].lifecycle in {Completed, Blocked, Cancelled, Superseded, Abandoned}
    ensures run[j].breaker.Some? ==> run[j].lifecycle in {Blocked, NeedsInput}
    ensures run[j].needsInput.Some? <==> run[j].lifecycle == NeedsInput
    ensures run[j].lifecycle == Finalizing ==> run[j].finalization.Some?
    ensures run[j].finalization.Some? ==> run[j].lifecycle in {Finalizing, Completed}
    ensures run[j].finalization.Some? ==> EvidenceByStage(run[j].finalization.value)
  {
    assert StateValid(run[j]);
    if run[j].finalization.Some? {
      EvidenceIsByStage(run[j].finalization.value);
    }
  }

  /** What a finalization holds at each stage. */
  predicate EvidenceByStage(f: Finalization)
  {
    && f.authority != "" && 0 < f.admittedAt
    && (f.capsule.None? <==> f.stage == Admitted) && (f.manifest.None? <==> f.stage == Admitted)
    && (f.materializedAt.None? <==> f.stage == Admitted)
    && (f.completedTask.None? <==> f.stage in {Admitted, Materialized})
    && (f.taskCompletedAt.None? <==> f.stage in {Admitted, Materialized})
    && (f.stateCompletedAt.Some? <==> f.stage in {StateCompleted, LedgerCompleted})
    && (f.ledgerCompletedAt.Some? <==> f.stage == LedgerCompleted)
    && (f.materializedAt.Some? ==> f.admittedAt <= f.materializedAt.value)
    && (f.taskCompletedAt.Some? ==> f.materializedAt.Some? && f.materializedAt.value <= f.taskCompletedAt.value)
    && (f.stateCompletedAt.Some? ==> f.taskCompletedAt.Some? && f.taskCompletedAt.value <= f.stateCompletedAt.value)
    && (f.ledgerCompletedAt.Some? ==>
        f.stateCompletedAt.Some? && f.stateCompletedAt.value <= f.ledgerCompletedAt.value)
  }

  lemma EvidenceIsByStage(f: Finalization)
    requires FinalizationValid(f)
    ensures EvidenceByStage(f)
  {
  }

  /** A state that waits on a typed question waits on the newest one, asked by the latest decision, and no resume of
      that question is recorded; one that waits without a question has asked none. */
  lemma WaitsOnNewest(run: seq<State>, j: nat)
    requires LegalRun(run) && j < |run| && run[j].lifecycle == NeedsInput
    ensures var s := run[j];
            && s.needsInput.Some? && (s.needsInput.value.None? ==> s.input.questions == [])
            && (s.needsInput.value.Some? ==>
                  && |s.input.questions| > 0
                  && var q := s.input.questions[|s.input.questions| - 1];
                  && q.identity == s.needsInput.value.value
                  && s.latestDecision.Some? && s.latestDecision.value.id == q.decisionId
                  && forall k :: 0 <= k < |s.input.resumes| ==> s.input.resumes[k].question != q.identity)
  {
    var s := run[j];
    assert StateValid(s);
    if s.needsInput.value.Some? {
      forall k | 0 <= k < |s.input.resumes|
        ensures s.input.resumes[k].question != s.needsInput.value.value
      {
        var i := InputLog.ResumedAnswer(s.input, k);
      }
    }
  }

  /** A completed state in its fields: there are criteria, each settled with evidence or a rationale; no finding is
      open, and a resolved one has evidence; the plan is completed and every step of it finished; the latest decision
      was to complete; and a finalization, if it began, got as far as completing the state. */
  lemma CompletedState(s: State)
    requires StateValid(s) && s.lifecycle == Completed
    ensures |s.criteria| > 0
    ensures forall m :: 0 <= m < |s.criteria| ==>
              && s.criteria[m].status != Pending && (s.criteria[m].status == Satisfied ==> |s.criteria[m].evidence| > 0)
              && (s.criteria[m].status != Satisfied ==> |s.criteria[m].rationale| > 0)
    ensures forall m :: 0 <= m < |s.resolutions| ==>
              s.resolutions[m].status != Open
                  && (s.resolutions[m].status == Resolved ==> |s.resolutions[m].evidence| > 0)
    ensures s.plan.Some? && s.plan.value.completed && |s.plan.value.steps| > 0
    ensures forall m :: 0 <= m < |s.plan.value.steps| ==>
              s.plan.value.steps[m].status in {TaskPlans.Completed, TaskPlans.Skipped}
    ensures s.latestDecision.Some? && s.latestDecision.value.action == CompleteAction
    ensures s.finalization.Some? ==> s.finalization.value.stage in {StateCompleted, LedgerCompleted}
    ensures s.breaker.None? && s.terminal.Some?
  {
    assert forall m :: 0 <= m < |s.criteria| ==> CriterionValid(s.criteria[m]);
    assert forall m :: 0 <= m < |s.resolutions| ==> ResolutionValid(s.resolutions[m]);
  }

  /** A completed task has discharged everything it ever took on. Whatever run led there: every criterion any earlier
      state had is there with the same requirement and settled, every finding any earlier state had is resolved, every
      step finished in an earlier plan is still in the plan, and no earlier state had a circuit breaker. */
  lemma CompletedDischarged(run: seq<State>, i: nat, j: nat)
    requires LegalRun(run) && i <= j < |run| && run[j].lifecycle == Completed
    ensures forall c :: c in run[i].criteria ==> Settled(c, run[j].criteria)
    ensures forall r :: r in run[i].resolutions ==> Closed(r, run[j].resolutions)
    ensures run[i].plan.Some? ==> run[j].plan.Some? && forall step :: step in run[i].plan.value.steps ==>
              step.status in {TaskPlans.Completed, TaskPlans.Skipped} ==> step in run[j].plan.value.steps
    ensures run[i].breaker.None? && (run[i].finalization.Some? ==> run[j].finalization.Some?)
  {
    assert StateValid(run[j]);
    CompletedState(run[j]);
    OneWayDoors(run, i, j);
    CriteriaSettled(run, i, j);
    if run[i].plan.Some? {
      FinishedStays(run, i, j);
    }
  }

  lemma CriteriaSettled(run: seq<State>, i: nat, j: nat)
    requires LegalRun(run) && i <= j < |run|
    requires forall m :: 0 <= m < |run[j].criteria| ==> run[j].criteria[m].status != Pending
    requires forall m :: 0 <= m < |run[j].resolutions| ==> run[j].resolutions[m].status != Open
    ensures forall c :: c in run[i].criteria ==> Settled(c, run[j].criteria)
    ensures forall r :: r in run[i].resolutions ==> Closed(r, run[j].resolutions)
  {
    if i < j {
      ObligationsPermanent(run, i, j);
    }
  }

  lemma FinishedStays(run: seq<State>, i: nat, j: nat)
    requires LegalRun(run) && i <= j < |run| && run[i].plan.Some? && run[j].plan.Some?
    ensures forall step :: step in run[i].plan.value.steps ==>
              step.status in {TaskPlans.Completed, TaskPlans.Skipped} ==> step in run[j].plan.value.steps
  {
    PlansProject(run);
    TaskPlans.PlanRun(Plans(run), i, j);
  }

  // ------------------------------------------------------ reaching completion

  /** Some legal run leads from `s` to `completed`. */
  ghost predicate CanComplete(s: State)
  {
    exists run: seq<State> :: LegalRun(run) && |run| > 0 && run[0] == s && run[|run| - 1].lifecycle == Completed
  }

  function FinishStep(s: TaskPlans.Step): TaskPlans.Step
  {
    if TaskPlans.Terminal(s.status) then s else s.(status := TaskPlans.Skipped)
  }

  function FinishPlan(p: Option<TaskPlans.TaskPlan>): TaskPlans.TaskPlan
  {
    match p
    case None => TaskPlans.TaskPlan("plan", 1, "", [], [TaskPlans.Step("step", "nothing to do", TaskPlans.Skipped)],
        true)
    case Some(q) => q.(steps := seq(|q.steps|, i requires 0 <= i < |q.steps| => FinishStep(q.steps[i])),
        completed := true)
  }

  function Default<T>(o: Option<T>, d: T): Option<T>
  {
    if o.Some? then o else Some(d)
  }

  function FinishFinalization(f: Finalization): Finalization
  {
    if Order(f.stage) >= 4 then f
    else
      var m := Default(f.materializedAt, f.admittedAt);
      var t := Default(f.taskCompletedAt, m.value);
      f.(stage := StateCompleted, capsule := Default(f.capsule, "capsule"), manifest := Default(f.manifest, "manifest"),
      materializedAt := m, completedTask := Default(f.completedTask, "task"), taskCompletedAt := t,
          stateCompletedAt := t)
  }

  function Finish(s: State): State
  {
    s.(lifecycle := Completed, needsInput := None, terminal := Some("done"), plan := Some(FinishPlan(s.plan)),
    criteria := FinishCriteria(s.criteria), resolutions := FinishResolutions(s.resolutions),
    latestDecision := FinishDecision(s.resolutions, s.latestDecision),
    finalization := if s.finalization.None? then None else Some(FinishFinalization(s.finalization.value)))
  }

  lemma FinishPlanLegal(p: Option<TaskPlans.TaskPlan>)
    requires p.Some? ==> TaskPlans.PlanValid(p.value)
    ensures TaskPlans.PlanValid(FinishPlan(p)) && FinishPlan(p).completed
            && TaskPlans.TransitionValid(p, Some(FinishPlan(p)))
  {
    if p.Some? {
      var q := FinishPlan(p);
      assert forall i :: 0 <= i < |q.steps| ==> TaskPlans.Terminal(q.steps[i].status);
      assert TaskPlans.SameRevision(p.value, q);
    } else {
      assert |FinishPlan(p).id| == 4;
    }
  }

  lemma FinishFinalizationLegal(f: Finalization)
    requires FinalizationValid(f)
    ensures FinalizationValid(FinishFinalization(f)) && FinalizationKept(f, FinishFinalization(f))
            && Order(FinishFinalization(f).stage) >= 4
  {
  }

  lemma UnchangedKept(a: Attempts.AttemptState)
    requires Attempts.CountersSane(a.counters) && Attempts.ActionBudgetsValid(a.actionBudgets)
    ensures Attempts.TransitionValid(a, a)
  {
    forall i | 0 <= i < |a.actionBudgets|
      ensures Attempts.BudgetKept(a.actionBudgets[i], a.actionBudgets)
    {
    }
    forall i | 0 <= i < |a.counters|
      ensures Attempts.PriorCount(a.counters, a.counters[i].action) <= a.counters[i].attempts
    {
      Attempts.CountOf(a.counters, i);
    }
  }

  lemma FinishObligations(s: State)
    requires CriteriaValid(s.criteria) && ResolutionsValid(s.resolutions, s.latestDecision)
    ensures var n := Finish(s);
            && CriteriaValid(n.criteria) && ResolutionsValid(n.resolutions, n.latestDecision)
            && Discharged(n.criteria, n.resolutions, n.latestDecision)
            && CriteriaKept(s.criteria, n.criteria) && ResolutionsStep(s.resolutions, n.resolutions)
            && LatestStep(s.latestDecision, n.latestDecision)
  {
    FinishCriteriaLegal(s.criteria);
    FinishResolutionsLegal(s.resolutions, s.latestDecision);
    FinishDecisionLegal(s.resolutions, s.latestDecision);
  }

  lemma FinishFits(s: State)
    requires FinalizationFits(s)
    ensures FinalizationFits(Finish(s))
    ensures Finish(s).finalization.Some? ==> Order(Finish(s).finalization.value.stage) >= 4
  {
    if s.finalization.Some? {
      FinishFinalizationLegal(s.finalization.value);
    }
  }

  lemma FinishValid(s: State)
    requires StateValid(s) && s.breaker.None? && !Terminal(s.lifecycle)
    ensures StateValid(Finish(s))
  {
    FinishPlanLegal(s.plan);
    FinishFits(s);
    FinishObligations(s);
  }

  lemma FinishLegal(s: State)
    requires StateValid(s) && s.breaker.None? && !Terminal(s.lifecycle)
    ensures TransitionValid(s, Finish(s))
  {
    FinishPlanLegal(s.plan);
    if s.finalization.Some? {
      FinishFinalizationLegal(s.finalization.value);
    }
    FinishObligations(s);
    UnchangedKept(s.attempts);
  }

  lemma OneStepRun(s: State, n: State)
    requires StateValid(s) && StateValid(n) && TransitionValid(s, n)
    ensures LegalRun([s]) && LegalRun([s, n])
  {
    var two := [s, n];
    assert two[0] == s && two[1] == n;
  }

  lemma AlreadyComplete(s: State)
    requires StateValid(s) && s.lifecycle == Completed
    ensures CanComplete(s)
  {
    assert LegalRun([s]);
  }

  lemma CompletionNeeds(s: State)
    requires CanComplete(s)
    ensures s.breaker.None? && (Terminal(s.lifecycle) ==> s.lifecycle == Completed)
  {
    var run: seq<State> :| LegalRun(run) && |run| > 0 && run[0] == s && run[|run| - 1].lifecycle == Completed;
    OneWayDoors(run, 0, |run| - 1);
  }

  lemma RunCompletes(s: State, run: seq<State>)
    requires LegalRun(run) && |run| > 0 && run[0] == s && run[|run| - 1].lifecycle == Completed
    ensures CanComplete(s)
  {
  }

  lemma FinishReaches(s: State)
    requires StateValid(s) && s.breaker.None? && !Terminal(s.lifecycle)
    ensures CanComplete(s)
  {
    FinishValid(s);
    FinishLegal(s);
    OneStepRun(s, Finish(s));
    RunCompletes(s, [s, Finish(s)]);
  }

  /** Completion is reachable exactly from the states without a circuit breaker that are not already terminal in
      some other way. */
  lemma CompletionExactly(s: State)
    requires StateValid(s)
    ensures CanComplete(s) <==> s.breaker.None? && (Terminal(s.lifecycle) ==> s.lifecycle == Completed)
  {
    if CanComplete(s) {
      CompletionNeeds(s);
    } else if s.lifecycle == Completed {
      AlreadyComplete(s);
    } else if s.breaker.None? && !Terminal(s.lifecycle) {
      FinishReaches(s);
    }
  }
}
