/** Revisioned task plans and the permanence of finished steps (internal/autonomous/state.go:474-527, 1699-1760). */
module TaskPlans {
  import opened Base

  datatype StepStatus = Pending | InProgress | Completed | Skipped

  datatype Step = Step(id: string, description: string, status: StepStatus)

  datatype TaskPlan = TaskPlan(
    id: string,
    revision: int,
    supersedes: string,
    provenance: seq<string>,
    steps: seq<Step>,
    completed: bool)

  predicate Terminal(s: StepStatus)
  {
    s == Completed || s == Skipped
  }

  // ----------------------------------------------------------------- validity

  predicate IdsDistinct(steps: seq<Step>)
  {
    forall i, j :: 0 <= i < j < |steps| ==> steps[i].id != steps[j].id
  }

  predicate OneInProgress(steps: seq<Step>)
  {
    forall i, j :: 0 <= i < j < |steps| ==> !(steps[i].status == InProgress && steps[j].status == InProgress)
  }

  predicate AllTerminal(steps: seq<Step>)
  {
    forall i :: 0 <= i < |steps| ==> Terminal(steps[i].status)
  }

  predicate HeaderValid(p: TaskPlan)
  {
    && p.id != "" && p.revision >= 1 && |p.steps| > 0
    && (if p.revision == 1 then p.supersedes == "" else p.supersedes != "" && p.supersedes != p.id)
  }

  predicate PlanValid(p: TaskPlan)
  {
    && HeaderValid(p) && IdsDistinct(p.steps) && OneInProgress(p.steps)
    && (p.completed ==> AllTerminal(p.steps))
  }

  function Active(steps: seq<Step>): nat
  {
    if |steps| == 0 then 0 else Active(steps[..|steps| - 1]) + if steps[|steps| - 1].status == InProgress then 1 else 0
  }

  lemma {:induction false} ActiveCounts(steps: seq<Step>)
    ensures Active(steps) == 0 <==> forall i :: 0 <= i < |steps| ==> steps[i].status != InProgress
    ensures Active(steps) <= 1 <==> OneInProgress(steps)
    decreases |steps|
  {
    if |steps| > 0 {
      var init, last := steps[..|steps| - 1], steps[|steps| - 1];
      assert steps == init + [last];
      ActiveCounts(init);
      if last.status == InProgress && Active(init) > 0 {
        var i :| 0 <= i < |init| && init[i].status == InProgress;
        assert steps[i].status == InProgress && steps[|init|].status == InProgress;
      }
      if Active(init) > 1 {
        var i, j :| 0 <= i < j < |init| && init[i].status == InProgress && init[j].status == InProgress;
        assert steps[i].status == InProgress && steps[j].status == InProgress;
      }
    }
  }

  /** A plan in its fields: the first revision supersedes nothing and any later one another plan; step ids differ; at
      most one step is in progress; and a completed plan has only completed and skipped steps. */
  predicate PlanReads(p: TaskPlan)
  {
    && p.id != "" && 1 <= p.revision && |p.steps| >= 1
    && (p.supersedes == "" <==> p.revision == 1) && p.supersedes != p.id
    && (forall i, j :: 0 <= i < |p.steps| && 0 <= j < |p.steps| && p.steps[i].id == p.steps[j].id ==> i == j)
    && (forall i, j :: 0 <= i < |p.steps| && 0 <= j < |p.steps| && i != j ==>
        p.steps[i].status != InProgress || p.steps[j].status != InProgress)
    && (p.completed ==> forall i :: 0 <= i < |p.steps| ==>
        p.steps[i].status == Completed || p.steps[i].status == Skipped)
  }

  lemma PlanExactly(p: TaskPlan)
    ensures PlanValid(p) <==> PlanReads(p)
  {
  }

  /** TaskPlan.Validate. */
  method ValidatePlan(p: TaskPlan) returns (ok: bool)
    ensures ok <==> PlanValid(p)
    ensures ok <==> PlanReads(p)
  {
    ok := ScanPlan(p);
    PlanExactly(p);
  }

  /** One pass that collects ids, counts active steps and watches for unfinished ones. */
  method ScanPlan(p: TaskPlan) returns (ok: bool)
    ensures ok <==> PlanValid(p)
  {
    if !HeaderValid(p) {
      return false;
    }
    var seen: set<string> := {};
    var inProgress := 0;
    var allTerminal := true;
    ghost var done: seq<Step> := [];
    for i := 0 to |p.steps|
      invariant done == p.steps[..i] && IdsDistinct(done)
      invariant forall id :: id in seen <==> exists k :: 0 <= k < i && p.steps[k].id == id
      invariant inProgress == Active(done) && (allTerminal <==> AllTerminal(done))
    {
      var step := p.steps[i];
      if step.id in seen {
        return false;
      }
      seen := seen + {step.id};
      if step.status == InProgress {
        inProgress := inProgress + 1;
      }
      if !Terminal(step.status) {
        allTerminal := false;
      }
      assert (done + [step])[..i] == done;
      done := done + [step];
    }
    assert done == p.steps;
    ActiveCounts(done);
    return inProgress <= 1 && (!p.completed || allTerminal);
  }

  // --------------------------------------------------------------- transitions

  /** A step carried over keeps its description, and a finished one its status. */
  predicate StepKept(p: Step, n: Step)
  {
    p.id == n.id && p.description == n.description && (Terminal(p.status) ==> n.status == p.status)
  }

  predicate SameRevision(p: TaskPlan, n: TaskPlan)
  {
    && p.id == n.id && p.revision == n.revision && p.supersedes == n.supersedes && p.provenance == n.provenance
    && |p.steps| == |n.steps| && (p.completed ==> n.completed)
    && forall i :: 0 <= i < |p.steps| ==> StepKept(p.steps[i], n.steps[i])
  }

  /** A step may be dropped by a new revision only while unfinished; otherwise it is carried over. */
  predicate StepCarried(s: Step, steps: seq<Step>)
  {
    if exists k :: 0 <= k < |steps| && steps[k].id == s.id
    then exists k :: 0 <= k < |steps| && StepKept(s, steps[k])
    else !Terminal(s.status)
  }

  predicate NextRevision(p: TaskPlan, n: TaskPlan)
  {
    && p.id != n.id && n.revision == p.revision + 1 && n.supersedes == p.id
    && forall i :: 0 <= i < |p.steps| ==> StepCarried(p.steps[i], n.steps)
  }

  predicate TransitionValid(p: Option<TaskPlan>, n: Option<TaskPlan>)
  {
    p.None? || (n.Some? && (SameRevision(p.value, n.value) || NextRevision(p.value, n.value)))
  }

  ghost predicate StepsById(m: map<string, Step>, steps: seq<Step>)
  {
    && (forall k :: 0 <= k < |steps| ==> steps[k].id in m && m[steps[k].id] == steps[k])
    && (forall id :: id in m ==> m[id] in steps && m[id].id == id)
  }

  method IndexSteps(steps: seq<Step>) returns (m: map<string, Step>)
    requires IdsDistinct(steps)
    ensures StepsById(m, steps)
  {
    m := map[];
    for i := 0 to |steps|
      invariant StepsById(m, steps[..i])
    {
      m := m[steps[i].id := steps[i]];
      assert steps[..i + 1] == steps[..i] + [steps[i]];
    }
    assert steps[..|steps|] == steps;
  }

  lemma CarriedByMap(s: Step, steps: seq<Step>, m: map<string, Step>)
    requires IdsDistinct(steps) && StepsById(m, steps)
    ensures StepCarried(s, steps) <==> if s.id in m then StepKept(s, m[s.id]) else !Terminal(s.status)
  {
    if s.id in m {
      var k :| 0 <= k < |steps| && steps[k] == m[s.id];
    }
  }

  /** Every step of that id has the description, and the status of a step that was completed or skipped. */
  predicate MeansTheSame(s: Step, steps: seq<Step>)
  {
    forall k :: 0 <= k < |steps| && steps[k].id == s.id ==>
      && steps[k].description == s.description
      && (s.status == Completed || s.status == Skipped ==> steps[k].status == s.status)
  }

  /** A transition in its fields. Under the same plan id everything stays but the status of steps that were pending or
      in progress, and a completed plan stays completed. Another id is the next revision and supersedes this plan; the
      ids it shares mean the same, and it has every step that was completed or skipped. */
  predicate TransitionReads(p: TaskPlan, n: TaskPlan)
  {
    if n.id == p.id then
      && n.revision == p.revision && n.supersedes == p.supersedes && n.provenance == p.provenance
      && (p.completed ==> n.completed) && |n.steps| == |p.steps|
      && (forall k :: 0 <= k < |p.steps| ==>
            && n.steps[k].id == p.steps[k].id && n.steps[k].description == p.steps[k].description
            && (n.steps[k].status == p.steps[k].status || p.steps[k].status == Pending
                || p.steps[k].status == InProgress))
    else
      && n.revision == p.revision + 1 && n.supersedes == p.id
      && (forall k :: 0 <= k < |p.steps| ==> MeansTheSame(p.steps[k], n.steps))
      && (forall k :: 0 <= k < |p.steps| && (p.steps[k].status == Completed || p.steps[k].status == Skipped) ==>
          p.steps[k] in n.steps)
  }

  lemma CarriedExactly(s: Step, steps: seq<Step>)
    requires IdsDistinct(steps)
    ensures StepCarried(s, steps) <==>
            MeansTheSame(s, steps) && (s.status == Completed || s.status == Skipped ==> s in steps)
  {
    if k :| 0 <= k < |steps| && StepKept(s, steps[k]) {
      assert steps[k].id == s.id;
    }
  }

  lemma TransitionExactly(p: TaskPlan, n: TaskPlan)
    requires IdsDistinct(n.steps)
    ensures TransitionValid(Some(p), Some(n)) <==> TransitionReads(p, n)
  {
    if n.id == p.id {
      assert TransitionValid(Some(p), Some(n)) <==> SameRevision(p, n);
    } else {
      forall k | 0 <= k < |p.steps|
        ensures StepCarried(p.steps[k], n.steps) <==>
                MeansTheSame(p.steps[k], n.steps)
                && (p.steps[k].status == Completed || p.steps[k].status == Skipped ==> p.steps[k] in n.steps)
      {
        CarriedExactly(p.steps[k], n.steps);
      }
      assert TransitionValid(Some(p), Some(n)) <==> NextRevision(p, n);
    }
  }

  /** validatePlanTransition accepts exactly the legal transitions. */
  method CheckPlanTransition(p: TaskPlan, n: TaskPlan) returns (ok: bool)
    requires PlanValid(n)
    ensures ok <==> TransitionValid(Some(p), Some(n))
    ensures ok <==> TransitionReads(p, n)
  {
    TransitionExactly(p, n);
    if p.id == n.id {
      if p.revision != n.revision || p.supersedes != n.supersedes || p.provenance != n.provenance
         || |p.steps| != |n.steps| || (p.completed && !n.completed)
      {
        return false;
      }
      for i := 0 to |p.steps|
        invariant forall k :: 0 <= k < i ==> StepKept(p.steps[k], n.steps[k])
      {
        if !StepKept(p.steps[i], n.steps[i]) {
          return false;
        }
      }
      return true;
    }
    if n.revision != p.revision + 1 || n.supersedes != p.id {
      return false;
    }
    var nextSteps := IndexSteps(n.steps);
    for i := 0 to |p.steps|
      invariant forall k :: 0 <= k < i ==> StepCarried(p.steps[k], n.steps)
    {
      var s := p.steps[i];
      CarriedByMap(s, n.steps, nextSteps);
      if s.id !in nextSteps {
        if Terminal(s.status) {
          return false;
        }
        continue;
      }
      if !StepKept(s, nextSteps[s.id]) {
        return false;
      }
    }
    return true;
  }

  // ---------------------------------------------------------------- over runs

  /** Successive values of a state's plan, each a legal transition from the one before. */
  ghost predicate LegalRun(run: seq<Option<TaskPlan>>)
  {
    && (forall i :: 0 <= i < |run| && run[i].Some? ==> PlanValid(run[i].value))
    && (forall i, j {:trigger TransitionValid(run[i], run[j])} :: 0 <= i < j < |run| && j == i + 1 ==>
        TransitionValid(run[i], run[j]))
  }

  lemma FinishedStepKept(p: TaskPlan, n: TaskPlan, s: Step)
    requires SameRevision(p, n) || NextRevision(p, n)
    requires s in p.steps && Terminal(s.status)
    ensures s in n.steps
  {
    var i :| 0 <= i < |p.steps| && p.steps[i] == s;
    if SameRevision(p, n) {
      assert StepKept(p.steps[i], n.steps[i]);
      assert n.steps[i] == s;
    } else {
      assert StepCarried(p.steps[i], n.steps);
      var k :| 0 <= k < |n.steps| && StepKept(s, n.steps[k]);
      assert n.steps[k] == s;
    }
  }

  /** How often the plan id changed between positions `i` and `j` of a run. */
  function Revisions(run: seq<Option<TaskPlan>>, i: nat, j: nat): nat
    requires i <= j < |run|
  {
    if i == j then 0
    else Revisions(run, i, j - 1) + if run[j - 1].Some? && run[j].Some? && run[j - 1].value.id != run[j].value.id
        then 1 else 0
  }

  /** Over any run: a plan never disappears; a step once completed or skipped stays in every later plan, with its
      id, description and status, across any number of revisions; and the revision number is the first one plus
      the number of plan-id changes. */
  lemma {:induction false} PlanRun(run: seq<Option<TaskPlan>>, i: nat, j: nat)
    requires LegalRun(run) && i <= j < |run| && run[i].Some?
    ensures run[j].Some?
    ensures forall s :: s in run[i].value.steps && (s.status == Completed || s.status == Skipped) ==>
            s in run[j].value.steps
    ensures run[j].value.revision == run[i].value.revision + Revisions(run, i, j)
    decreases j
  {
    if i < j {
      PlanRun(run, i, j - 1);
      assert TransitionValid(run[j - 1], run[j]);
      var p, n := run[j - 1].value, run[j].value;
      forall s | s in run[i].value.steps && (s.status == Completed || s.status == Skipped)
        ensures s in n.steps
      {
        FinishedStepKept(p, n, s);
      }
    }
  }

  /** Where a run shows the same plan id twice, the revision is the same if and only if the id never changed in
      between. */
  lemma SameIdExactly(run: seq<Option<TaskPlan>>, i: nat, j: nat)
    requires LegalRun(run) && i <= j < |run| && run[i].Some? && run[j].Some? && run[i].value.id == run[j].value.id
    ensures run[i].value.revision == run[j].value.revision <==> Unchanged(run, i, j)
  {
    PlanRun(run, i, j);
    NoRevisions(run, i, j);
  }

  /** Every plan from position `i` to `j` carries the id of the first. */
  predicate Unchanged(run: seq<Option<TaskPlan>>, i: nat, j: nat)
    requires i <= j < |run| && run[i].Some?
  {
    forall k :: i <= k <= j ==> run[k].Some? && run[k].value.id == run[i].value.id
  }

  lemma {:induction false} NoRevisions(run: seq<Option<TaskPlan>>, i: nat, j: nat)
    requires LegalRun(run) && i <= j < |run| && run[i].Some?
    ensures Revisions(run, i, j) == 0 <==> Unchanged(run, i, j)
    decreases j
  {
    if i < j {
      NoRevisions(run, i, j - 1);
      PlanRun(run, i, j - 1);
      PlanRun(run, i, j);
    }
  }

  /** Plan ids alone identify nothing: a legal run can return to an earlier id with another revision. */
  lemma PlanIdsRecur() returns (run: seq<Option<TaskPlan>>)
    ensures LegalRun(run) && |run| == 3
    ensures run[0].Some? && run[2].Some? && run[0].value.id == run[2].value.id
            && run[0].value.revision != run[2].value.revision
  {
    var open := Step("s", "d", Pending);
    var a, b, c := TaskPlan("a", 1, "", [], [open], false), TaskPlan("b", 2, "a", [], [open], false),
        TaskPlan("a", 3, "b", [], [open], false);
    run := [Some(a), Some(b), Some(c)];
    assert StepKept(open, b.steps[0]) && StepKept(open, c.steps[0]);
    assert NextRevision(a, b) && NextRevision(b, c);
    assert |a.id| == 1 && |b.id| == 1 && a.id[0] != b.id[0];
    assert PlanValid(a) && PlanValid(b) && PlanValid(c);
    assert TransitionValid(run[0], run[1]) && TransitionValid(run[1], run[2]);
  }
}
