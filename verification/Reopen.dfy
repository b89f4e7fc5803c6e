/** Reopening an archived task as a new active one (internal/autonomousarchive/reopen.go:94-158, 213-252;
    internal/autonomousarchive/verify.go:186-219). */
module Reopen {
  import opened Base

  datatype Lineage = Lineage(archive: string, operation: string, basis: string)

  /** The part of an execution state that matters here: whether it claims an archive. */
  datatype TaskState = TaskState(reopenedFrom: Option<Lineage>, detail: string)

  datatype Task = Task(source: Bytes, autonomous: bool)

  datatype Commit = Commit(operation: string, archive: string, task: string, source: Bytes)

  datatype Record = Record(archive: string, operation: string, task: string, lineage: Lineage)

  /** Active task files, their state files (which outlive the task file), what HEAD holds of the task files, reopen
      records by archive and operation, and per archive the one `reopened` ledger event. */
  datatype World = World(
    tasks: map<string, Task>,
    states: map<string, TaskState>,
    head: map<string, Task>,
    commits: seq<Commit>,
    records: map<(string, string), Record>,
    events: map<string, Record>)

  /** `source` is the archived task projected to its new identity, `basis` the archive evidence and authority. */
  datatype Request = Request(archive: string, operation: string, newTask: string, basis: string, source: Bytes)

  function LineageOf(q: Request): Lineage
  {
    Lineage(q.archive, q.operation, q.basis)
  }

  function StateFor(q: Request): TaskState
  {
    TaskState(Some(LineageOf(q)), "pending")
  }

  function TaskFor(q: Request): Task
  {
    Task(q.source, true)
  }

  function RecordFor(q: Request): Record
  {
    Record(q.archive, q.operation, q.newTask, LineageOf(q))
  }

  datatype Verdict = Reopened | Replayed | Interrupted | MissedEvent | Refused

  datatype Run = Run(world: World, verdict: Verdict)

  // --------------------------------------------------------------------- claims

  /** Task `id` is active and its state says it was reopened from `archive`. */
  predicate Claims(w: World, id: string, archive: string)
  {
    && id in w.tasks && w.tasks[id].autonomous && id in w.states
    && w.states[id].reopenedFrom.Some? && w.states[id].reopenedFrom.value.archive == archive
  }

  ghost predicate UniqueClaims(w: World)
  {
    forall a, b, archive :: Claims(w, a, archive) && Claims(w, b, archive) ==> a == b
  }

  /** The claim `id` makes is the one this request would make. */
  predicate OwnClaim(w: World, q: Request, id: string)
    requires id in w.tasks && id in w.states
  {
    id == q.newTask && w.tasks[id] == TaskFor(q) && w.states[id] == StateFor(q)
  }

  ghost predicate OnlyOwnClaims(w: World, q: Request)
  {
    forall id :: Claims(w, id, q.archive) ==> OwnClaim(w, q, id)
  }

  /** Every active autonomous task has a state file to read. */
  predicate StatesReadable(w: World)
  {
    forall id :: id in w.tasks && w.tasks[id].autonomous ==> id in w.states
  }

  datatype Existing = Conflict | Clear | Recovering

  /** validateExistingReopen: every state must be readable and every claim on the archive this request's own; without
      one the new task must not exist, and its state file, if any, decides whether an earlier attempt is being
      recovered. */
  ghost function ExistingReopen(w: World, q: Request): Existing
  {
    if !StatesReadable(w) || !OnlyOwnClaims(w, q) then Conflict
    else if Claims(w, q.newTask, q.archive) then Recovering
    else if q.newTask in w.tasks then Conflict
    else if q.newTask in w.states && w.states[q.newTask] == StateFor(q) then Recovering
    else Clear
  }

  method ValidateExistingReopen(w: World, q: Request, listing: seq<string>) returns (r: Existing)
    requires forall id :: id in listing <==> id in w.tasks
    ensures r == ExistingReopen(w, q)
  {
    var recovering := false;
    for i := 0 to |listing|
      invariant forall k :: 0 <= k < i && w.tasks[listing[k]].autonomous ==> listing[k] in w.states
      invariant forall k :: 0 <= k < i && Claims(w, listing[k], q.archive) ==> OwnClaim(w, q, listing[k])
      invariant recovering <==> exists k :: 0 <= k < i && Claims(w, listing[k], q.archive)
    {
      var id := listing[i];
      assert id in w.tasks;
      if w.tasks[id].autonomous && id !in w.states {
        return Conflict;
      }
      if !Claims(w, id, q.archive) {
        continue;
      }
      if !OwnClaim(w, q, id) {
        return Conflict;
      }
      recovering := true;
    }
    assert StatesReadable(w) && OnlyOwnClaims(w, q);
    if recovering {
      return Recovering;
    }
    assert q.newTask in w.tasks ==> q.newTask in listing;
    if q.newTask in w.tasks {
      return Conflict;
    }
    return if q.newTask in w.states && w.states[q.newTask] == StateFor(q) then Recovering else Clear;
  }

  // -------------------------------------------------------------------- protocol

  /** The only path on which worktree and HEAD may differ is the new task's. */
  predicate DirtyOnly(w: World, id: string)
  {
    && (forall k :: k in w.tasks && k != id ==> k in w.head && w.tasks[k] == w.head[k])
    && (forall k :: k in w.head && k != id ==> k in w.tasks)
  }

  predicate Tracked(w: World, id: string)
  {
    id in w.tasks && id in w.head && w.tasks[id] == w.head[id]
  }

  predicate StatusAllows(w: World, q: Request, existing: Existing)
  {
    DirtyOnly(w, q.newTask) && (existing == Clear ==> q.newTask !in w.head)
  }

  function AppendEvent(q: Request, w: World, f: Fuel): Run
  {
    if q.archive in w.events then Run(w, if w.events[q.archive] == RecordFor(q) then Reopened else Refused)
    else if Out(f) then Run(w, MissedEvent)
    else Run(w.(events := w.events[q.archive := RecordFor(q)]), Reopened)
  }

  function WriteRecord(q: Request, w: World, f: Fuel): Run
  {
    if Out(f) then Run(w, Interrupted)
    else AppendEvent(q, w.(records := w.records[(q.archive, q.operation) := RecordFor(q)]), Spend(f))
  }

  /** commitReopen: reconcile with HEAD, or commit the new task. */
  function CommitReopen(q: Request, w: World, f: Fuel): Run
  {
    var c := Commit(q.operation, q.archive, q.newTask, q.source);
    if Tracked(w, q.newTask) then
      if |w.commits| > 0 && w.commits[|w.commits| - 1] == c then WriteRecord(q, w, f) else Run(w, Refused)
    else if Out(f) then Run(w, Interrupted)
    else WriteRecord(q, w.(head := w.head[q.newTask := TaskFor(q)], commits := w.commits + [c]), Spend(f))
  }

  function PublishTask(q: Request, w: World, f: Fuel): Run
  {
    if q.newTask in w.tasks then if w.tasks[q.newTask] == TaskFor(q) then CommitReopen(q, w, f) else Run(w, Refused)
    else if Out(f) then Run(w, Interrupted)
    else CommitReopen(q, w.(tasks := w.tasks[q.newTask := TaskFor(q)]), Spend(f))
  }

  function WriteState(q: Request, w: World, f: Fuel): Run
  {
    if q.newTask in w.states then if w.states[q.newTask] == StateFor(q) then PublishTask(q, w, f) else Run(w, Refused)
    else if Out(f) then Run(w, Interrupted)
    else PublishTask(q, w.(states := w.states[q.newTask := StateFor(q)]), Spend(f))
  }

  /** A replay needs the recorded reopen to be this one and the new task and its state to be readable. */
  predicate Replayable(q: Request, w: World)
    requires (q.archive, q.operation) in w.records
  {
    w.records[(q.archive, q.operation)] == RecordFor(q) && q.newTask in w.tasks && q.newTask in w.states
  }

  /** Reopen, after the archive itself has verified. */
  ghost function ReopenTask(q: Request, w: World, f: Fuel): Run
  {
    if (q.archive, q.operation) in w.records then Run(w, if Replayable(q, w) then Replayed else Refused)
    else
      var existing := ExistingReopen(w, q);
      if existing == Conflict || !StatusAllows(w, q, existing) then Run(w, Refused) else WriteState(q, w, f)
  }

  // ---------------------------------------------------------------- whole histories

  /** What happens to tasks: reopen attempts; archiving, which removes a task file and leaves its state; task files
      that arrive or are replaced; states that change; HEAD moving. */
  datatype Event =
    | Attempt(q: Request, fuel: Fuel)
    | TaskRemoved(id: string)
    | TaskAdded(id: string, task: Task)
    | StateChanged(id: string, state: TaskState)
    | HeadMoved(head: map<string, Task>, commits: seq<Commit>)

  /** Nobody but `id` actively claims the archive the lineage names. */
  ghost predicate Unclaimed(w: World, lineage: Option<Lineage>, id: string)
  {
    lineage.Some? ==> forall other :: Claims(w, other, lineage.value.archive) ==> other == id
  }

  /** What keeps claims unique, checkable before the event: a task file that arrives over a state with lineage, or a
      lineage that an active task's state acquires, must not meet another active claim on the same archive. */
  ghost predicate Harmless(w: World, e: Event)
  {
    match e
    case TaskAdded(id, t) => t.autonomous && id in w.states ==> Unclaimed(w, w.states[id].reopenedFrom, id)
    case StateChanged(id, s) => id in w.tasks && w.tasks[id].autonomous ==> Unclaimed(w, s.reopenedFrom, id)
    case _ => true
  }

  ghost function Apply(w: World, e: Event): World
  {
    match e
    case Attempt(q, f) => ReopenTask(q, w, f).world
    case TaskRemoved(id) => w.(tasks := w.tasks - {id})
    case TaskAdded(id, t) => w.(tasks := w.tasks[id := t])
    case StateChanged(id, s) => w.(states := w.states[id := s])
    case HeadMoved(h, c) => w.(head := h, commits := c)
  }

  ghost function ApplyAll(w: World, es: seq<Event>): World
  {
    if |es| == 0 then w else Apply(ApplyAll(w, es[..|es| - 1]), es[|es| - 1])
  }

  /** Every event of the history is harmless when it happens. */
  ghost predicate AllHarmless(w: World, es: seq<Event>)
  {
    |es| == 0 || (AllHarmless(w, es[..|es| - 1]) && Harmless(ApplyAll(w, es[..|es| - 1]), es[|es| - 1]))
  }

  /** Claims are unique at every moment of the history. */
  ghost predicate AlwaysUnique(w: World, es: seq<Event>)
  {
    UniqueClaims(ApplyAll(w, es)) && (|es| > 0 ==> AlwaysUnique(w, es[..|es| - 1]))
  }

  /** What a reopen attempt may change of tasks and states: nothing but its own two files, with its own contents. */
  predicate OwnFilesOnly(q: Request, w: World, w': World)
  {
    && (w'.tasks == w.tasks || (q.newTask !in w.tasks && w'.tasks == w.tasks[q.newTask := TaskFor(q)]))
    && (w'.states == w.states || (q.newTask !in w.states && w'.states == w.states[q.newTask := StateFor(q)]))
    && (w'.tasks != w.tasks ==> q.newTask in w'.states && w'.states[q.newTask] == StateFor(q))
  }

  lemma CommitLeavesFiles(q: Request, w: World, f: Fuel)
    ensures CommitReopen(q, w, f).world.tasks == w.tasks && CommitReopen(q, w, f).world.states == w.states
  {
  }

  lemma PublishFiles(q: Request, w: World, f: Fuel)
    ensures var w' := PublishTask(q, w, f).world;
            && w'.states == w.states
            && (w'.tasks == w.tasks || (q.newTask !in w.tasks && w'.tasks == w.tasks[q.newTask := TaskFor(q)]))
  {
    if q.newTask in w.tasks {
      CommitLeavesFiles(q, w, f);
    } else if !Out(f) {
      CommitLeavesFiles(q, w.(tasks := w.tasks[q.newTask := TaskFor(q)]), Spend(f));
    }
  }

  lemma AttemptFiles(q: Request, w: World, f: Fuel)
    ensures OwnFilesOnly(q, w, WriteState(q, w, f).world)
  {
    if q.newTask in w.states {
      PublishFiles(q, w, f);
    } else if !Out(f) {
      PublishFiles(q, w.(states := w.states[q.newTask := StateFor(q)]), Spend(f));
    }
  }

  lemma OwnFilesKeepUnique(q: Request, w: World, w': World)
    requires UniqueClaims(w) && OwnFilesOnly(q, w, w') && ExistingReopen(w, q) != Conflict
    ensures UniqueClaims(w')
  {
    forall a, b, archive | Claims(w', a, archive) && Claims(w', b, archive)
      ensures a == b
    {
      ClaimOrigin(q, w, w', a, archive);
      ClaimOrigin(q, w, w', b, archive);
      assert OnlyOwnClaims(w, q);
    }
  }

  lemma ClaimOrigin(q: Request, w: World, w': World, id: string, archive: string)
    requires OwnFilesOnly(q, w, w') && ExistingReopen(w, q) != Conflict && Claims(w', id, archive)
    ensures Claims(w, id, archive) || (id == q.newTask && archive == q.archive)
  {
  }

  lemma AttemptKeepsUnique(q: Request, w: World, f: Fuel)
    requires UniqueClaims(w)
    ensures UniqueClaims(ReopenTask(q, w, f).world)
  {
    if ExistingReopen(w, q) != Conflict {
      AttemptFiles(q, w, f);
      OwnFilesKeepUnique(q, w, WriteState(q, w, f).world);
    }
  }

  /** Who claims after an event other than an attempt. */
  lemma ClaimAfter(w: World, e: Event, id: string, archive: string)
    requires !e.Attempt?
    ensures Claims(Apply(w, e), id, archive) <==>
              match e
              case TaskRemoved(x) => id != x && Claims(w, id, archive)
              case TaskAdded(x, t) =>
                if id == x then t.autonomous && x in w.states && Names(w.states[x], archive) else Claims(w, id, archive)
              case StateChanged(x, s) =>
                if id == x then x in w.tasks && w.tasks[x].autonomous && Names(s, archive) else Claims(w, id, archive)
              case HeadMoved(_, _) => Claims(w, id, archive)
  {
  }

  predicate Names(s: TaskState, archive: string)
  {
    s.reopenedFrom.Some? && s.reopenedFrom.value.archive == archive
  }

  lemma HarmlessKeepsUnique(w: World, e: Event)
    requires UniqueClaims(w) && !e.Attempt? && Harmless(w, e)
    ensures UniqueClaims(Apply(w, e))
  {
    forall a, b, archive | Claims(Apply(w, e), a, archive) && Claims(Apply(w, e), b, archive)
      ensures a == b
    {
      ClaimAfter(w, e, a, archive);
      ClaimAfter(w, e, b, archive);
    }
  }

  lemma HarmBreaksUnique(w: World, e: Event)
    requires !e.Attempt? && !Harmless(w, e)
    ensures !UniqueClaims(Apply(w, e))
  {
    var lineage := if e.TaskAdded? then w.states[e.id].reopenedFrom else e.state.reopenedFrom;
    var other :| Claims(w, other, lineage.value.archive) && other != e.id;
    ClaimAfter(w, e, other, lineage.value.archive);
    ClaimAfter(w, e, e.id, lineage.value.archive);
  }

  /** An event other than an attempt keeps claims unique if and only if it is harmless. */
  lemma HarmlessExactly(w: World, e: Event)
    requires UniqueClaims(w) && !e.Attempt?
    ensures UniqueClaims(Apply(w, e)) <==> Harmless(w, e)
  {
    if Harmless(w, e) {
      HarmlessKeepsUnique(w, e);
    } else {
      HarmBreaksUnique(w, e);
    }
  }

  /** Over any history of crashed, retried and competing reopens mixed with other task activity, at every moment at
      most one active task claims a given archive if and only if every event was harmless. */
  lemma {:induction false} AtMostOneClaim(w: World, es: seq<Event>)
    requires UniqueClaims(w)
    ensures AlwaysUnique(w, es) <==> AllHarmless(w, es)
    decreases |es|
  {
    if |es| > 0 {
      var before, e := ApplyAll(w, es[..|es| - 1]), es[|es| - 1];
      AtMostOneClaim(w, es[..|es| - 1]);
      if AlwaysUnique(w, es[..|es| - 1]) {
        if e.Attempt? {
          AttemptKeepsUnique(e.q, before, e.fuel);
        } else {
          HarmlessExactly(before, e);
        }
      }
    }
  }

  // ------------------------------------------------------------ the harmful events occur

  /** An attempt that stopped after writing its state leaves a claim waiting, and creating a task file of that identity
      by hand makes it a second one. */
  lemma AbandonedStateCanClaim(first: Request, second: Request, w: World)
    requires first.archive == second.archive && first.newTask != second.newTask && UniqueClaims(w)
    requires first.newTask !in w.tasks && first.newTask !in w.states && second.newTask !in w.tasks
             && second.newTask !in w.states
    requires (forall id :: !Claims(w, id, first.archive)) && w.head == w.tasks && StatesReadable(w)
    requires (first.archive, first.operation) !in w.records && (second.archive, second.operation) !in w.records
    ensures var es := [Attempt(first, Limited(1)), Attempt(second, Limited(2)),
            TaskAdded(first.newTask, TaskFor(first))];
            !UniqueClaims(ApplyAll(w, es))
  {
    var e1, e2, e3 := Attempt(first, Limited(1)), Attempt(second, Limited(2)), TaskAdded(first.newTask, TaskFor(first));
    var es := [e1, e2, e3];
    var w1 := w.(states := w.states[first.newTask := StateFor(first)]);
    assert ApplyAll(w, []) == w;
    FirstStops(first, w);
    assert [e1][..0] == [];
    assert ApplyAll(w, [e1]) == w1;
    forall id
      ensures !Claims(w1, id, first.archive)
    {
      assert !Claims(w, id, first.archive);
    }
    SecondPublishes(second, w1);
    var w2 := ReopenTask(second, w1, Limited(2)).world;
    assert [e1, e2][..1] == [e1];
    assert ApplyAll(w, [e1, e2]) == w2;
    assert es[..2] == [e1, e2];
    var w3 := w2.(tasks := w2.tasks[first.newTask := TaskFor(first)]);
    assert ApplyAll(w, es) == w3;
    assert Claims(w3, first.newTask, first.archive) && Claims(w3, second.newTask, first.archive);
  }

  /** Lineage attached later is the other way: the state of a second active task may acquire the lineage of the first,
      which the transition check allows as long as that state had none. */
  lemma AttachedLineageCanClaim(w: World, a: string, b: string, lineage: Lineage)
    requires a != b && Claims(w, a, lineage.archive)
    requires b in w.tasks && w.tasks[b].autonomous && b in w.states && w.states[b].reopenedFrom.None?
    ensures !UniqueClaims(Apply(w, StateChanged(b, w.states[b].(reopenedFrom := Some(lineage)))))
  {
    var w' := Apply(w, StateChanged(b, w.states[b].(reopenedFrom := Some(lineage))));
    assert Claims(w', a, lineage.archive) && Claims(w', b, lineage.archive);
  }

  lemma FirstStops(q: Request, w: World)
    requires q.newTask !in w.tasks && q.newTask !in w.states && (forall id :: !Claims(w, id, q.archive))
             && w.head == w.tasks
    requires StatesReadable(w) && (q.archive, q.operation) !in w.records
    ensures ReopenTask(q, w, Limited(1)).world == w.(states := w.states[q.newTask := StateFor(q)])
  {
    assert ExistingReopen(w, q) == Clear && StatusAllows(w, q, Clear);
  }

  lemma SecondPublishes(q: Request, w: World)
    requires q.newTask !in w.tasks && q.newTask !in w.states && (forall id :: !Claims(w, id, q.archive))
             && w.head == w.tasks
    requires StatesReadable(w) && (q.archive, q.operation) !in w.records
    ensures ReopenTask(q, w, Limited(2)).world
         == w.(states := w.states[q.newTask := StateFor(q)], tasks := w.tasks[q.newTask := TaskFor(q)])
  {
    assert ExistingReopen(w, q) == Clear && StatusAllows(w, q, Clear);
  }

  // -------------------------------------------------------------------- resumption

  /** The repository before the first attempt: clean, readable, archive unclaimed, new identity and operation unused.
      The archive may have been reopened before. */
  ghost predicate Ready(q: Request, w: World)
  {
    && w.head == w.tasks && StatesReadable(w) && q.newTask !in w.tasks && q.newTask !in w.states
    && (forall id :: !Claims(w, id, q.archive)) && !Recorded(q, w)
  }

  predicate Recorded(q: Request, w: World)
  {
    (q.archive, q.operation) in w.records
  }

  /** The ledger already holds the event of another reopen of this archive. */
  predicate Foreign(q: Request, w: World)
  {
    q.archive in w.events && w.events[q.archive] != RecordFor(q)
  }

  predicate OwnEvent(q: Request, w: World)
  {
    q.archive in w.events && w.events[q.archive] == RecordFor(q)
  }

  /** Some prefix of this request's own effects has happened to a repository that was ready for it. */
  ghost predicate Underway(q: Request, start: World, w: World)
  {
    && w.states == (if q.newTask in w.states then start.states[q.newTask := StateFor(q)] else start.states)
    && w.tasks == (if q.newTask in w.tasks then start.tasks[q.newTask := TaskFor(q)] else start.tasks)
    && (q.newTask in w.tasks ==> q.newTask in w.states)
    && (if q.newTask in w.head then
          && w.head == start.tasks[q.newTask := TaskFor(q)] && q.newTask in w.tasks
          && |w.commits| > 0 && w.commits[|w.commits| - 1] == Commit(q.operation, q.archive, q.newTask, q.source)
        else w.head == start.tasks)
    && (Recorded(q, w) ==>
        q.newTask in w.tasks && q.newTask in w.head && w.records[(q.archive, q.operation)] == RecordFor(q))
    && (w.events == start.events || (q.archive !in start.events && w.events == start.events[q.archive := RecordFor(q)]))
  }

  lemma UnderwayAdmits(q: Request, start: World, w: World)
    requires Ready(q, start) && Underway(q, start, w)
    ensures ExistingReopen(w, q) != Conflict && StatusAllows(w, q, ExistingReopen(w, q))
  {
    forall id | Claims(w, id, q.archive)
      ensures OwnClaim(w, q, id)
    {
      assert id != q.newTask ==> Claims(start, id, q.archive);
    }
  }

  /** What an attempt comes to: only another reopen's event refuses it, after everything else is written; and every
      attempt that is not interrupted writes the record. */
  predicate Outcome(q: Request, start: World, f: Fuel, r: Run)
  {
    && r.verdict != Replayed
    && (r.verdict == Refused ==> Foreign(q, start) && Recorded(q, r.world))
    && (r.verdict == Reopened ==> !Foreign(q, start) && Recorded(q, r.world) && OwnEvent(q, r.world))
    && (f.Unlimited? ==> r.verdict == (if Foreign(q, start) then Refused else Reopened))
  }

  lemma RecordResumes(q: Request, start: World, w: World, f: Fuel)
    requires Ready(q, start) && Underway(q, start, w) && q.newTask in w.tasks && q.newTask in w.head
    ensures var r := WriteRecord(q, w, f); Underway(q, start, r.world) && Outcome(q, start, f, r)
  {
  }

  lemma CommitResumes(q: Request, start: World, w: World, f: Fuel)
    requires Ready(q, start) && Underway(q, start, w) && q.newTask in w.tasks
    ensures var r := CommitReopen(q, w, f); Underway(q, start, r.world) && Outcome(q, start, f, r)
  {
    var c := Commit(q.operation, q.archive, q.newTask, q.source);
    if Tracked(w, q.newTask) {
      RecordResumes(q, start, w, f);
    } else if !Out(f) {
      RecordResumes(q, start, w.(head := w.head[q.newTask := TaskFor(q)], commits := w.commits + [c]), Spend(f));
    }
  }

  lemma PublishResumes(q: Request, start: World, w: World, f: Fuel)
    requires Ready(q, start) && Underway(q, start, w) && q.newTask in w.states
    ensures var r := PublishTask(q, w, f); Underway(q, start, r.world) && Outcome(q, start, f, r)
  {
    if q.newTask in w.tasks {
      CommitResumes(q, start, w, f);
    } else if !Out(f) {
      CommitResumes(q, start, w.(tasks := w.tasks[q.newTask := TaskFor(q)]), Spend(f));
    }
  }

  /** Wherever attempts stopped, an attempt whose reopen is not yet recorded is refused only for the event of another
      reopen, and one whose reopen is recorded returns at once. */
  lemma ReopenResumes(q: Request, start: World, w: World, f: Fuel)
    requires Ready(q, start) && Underway(q, start, w)
    ensures var r := ReopenTask(q, w, f);
            && Underway(q, start, r.world)
            && (if Recorded(q, w) then r == Run(w, Replayed) else Outcome(q, start, f, r))
  {
    if !Recorded(q, w) {
      UnderwayAdmits(q, start, w);
      if q.newTask in w.states {
        PublishResumes(q, start, w, f);
      } else if !Out(f) {
        PublishResumes(q, start, w.(states := w.states[q.newTask := StateFor(q)]), Spend(f));
      }
    }
  }

  /** From a clean repository with the archive unclaimed, an uninterrupted reopen succeeds if and only if the ledger
      holds no event of another reopen of this archive. The refused attempt has written state, task, commit and record,
      so a retry reports success, and the ledger never tells of it. */
  lemma ReopenExactly(q: Request, start: World)
    requires Ready(q, start)
    ensures var r := ReopenTask(q, start, Unlimited);
            && (r.verdict == Reopened <==> !Foreign(q, start))
            && (r.verdict == Refused <==> Foreign(q, start))
            && q.newTask in r.world.states && q.newTask in r.world.tasks && q.newTask in r.world.head
                && Recorded(q, r.world)
            && (Foreign(q, start) ==>
                  r.world.events == start.events && forall f :: ReopenTask(q, r.world, f) == Run(r.world, Replayed))
  {
    ReopenResumes(q, start, start, Unlimited);
    var r := ReopenTask(q, start, Unlimited);
    forall f
      ensures ReopenTask(q, r.world, f) == Run(r.world, Replayed)
    {
      ReopenResumes(q, start, r.world, f);
    }
  }

  // ----------------------------------------------------------------- the ledger event

  ghost function AfterAttempts(q: Request, fuels: seq<Fuel>, w: World): World
  {
    if |fuels| == 0 then w else ReopenTask(q, AfterAttempts(q, fuels[..|fuels| - 1], w), fuels[|fuels| - 1]).world
  }

  ghost function AttemptVerdicts(q: Request, fuels: seq<Fuel>, w: World): seq<Verdict>
  {
    if |fuels| == 0 then []
    else
      AttemptVerdicts(q, fuels[..|fuels| - 1], w)
      + [ReopenTask(q, AfterAttempts(q, fuels[..|fuels| - 1], w), fuels[|fuels| - 1]).verdict]
  }

  /** Over an attempt that starts unrecorded: what its verdict says about record and event. */
  predicate EventFits(q: Request, w: World, r: Run)
  {
    && (Recorded(q, r.world) <==> r.verdict == Reopened || r.verdict == MissedEvent || r.verdict == Refused)
    && (r.verdict == MissedEvent ==> r.world.events == w.events && q.archive !in w.events)
    && (r.verdict == Refused ==> r.world.events == w.events && Foreign(q, w))
    && (r.verdict == Reopened ==> OwnEvent(q, r.world))
    && (r.verdict == Interrupted ==> r.world.events == w.events)
    && r.verdict != Replayed
  }

  lemma CommitEvent(q: Request, w: World, f: Fuel)
    requires !Recorded(q, w)
    requires CommitReopen(q, w, f).verdict == Refused ==> Recorded(q, CommitReopen(q, w, f).world)
    ensures EventFits(q, w, CommitReopen(q, w, f))
  {
  }

  lemma PublishEvent(q: Request, w: World, f: Fuel)
    requires PublishTask(q, w, f).verdict == Refused ==> Recorded(q, PublishTask(q, w, f).world)
    requires !Recorded(q, w)
    ensures EventFits(q, w, PublishTask(q, w, f))
  {
    if q.newTask in w.tasks {
      if w.tasks[q.newTask] == TaskFor(q) {
        CommitEvent(q, w, f);
      }
    } else if !Out(f) {
      CommitEvent(q, w.(tasks := w.tasks[q.newTask := TaskFor(q)]), Spend(f));
    }
  }

  lemma AttemptEvent(q: Request, start: World, w: World, f: Fuel)
    requires Ready(q, start) && Underway(q, start, w) && !Recorded(q, w)
    ensures EventFits(q, w, ReopenTask(q, w, f))
  {
    ReopenResumes(q, start, w, f);
    UnderwayAdmits(q, start, w);
    if q.newTask in w.states {
      PublishEvent(q, w, f);
    } else if !Out(f) {
      PublishEvent(q, w.(states := w.states[q.newTask := StateFor(q)]), Spend(f));
    }
  }

  /** The `reopened` event of this request is in the ledger if and only if it was there before, or the reopen is
      recorded, no attempt stopped between writing the record and appending the event, and no earlier reopen of the
      archive had one: later attempts find the record and return at once. */
  lemma {:induction false} ReopenEventExactly(q: Request, fuels: seq<Fuel>, start: World)
    requires Ready(q, start)
    ensures var w, vs := AfterAttempts(q, fuels, start), AttemptVerdicts(q, fuels, start);
            && Underway(q, start, w)
            && (OwnEvent(q, w) <==>
                  OwnEvent(q, start) || (Recorded(q, w) && MissedEvent !in vs && q.archive !in start.events))
            && (MissedEvent in vs ==> Recorded(q, w) && q.archive !in start.events)
    decreases |fuels|
  {
    if |fuels| > 0 {
      var init, f := fuels[..|fuels| - 1], fuels[|fuels| - 1];
      var w := AfterAttempts(q, init, start);
      ReopenEventExactly(q, init, start);
      ReopenResumes(q, start, w, f);
      if !Recorded(q, w) {
        AttemptEvent(q, start, w, f);
      }
    }
  }

  /** The window is real: from a ready repository, an attempt that stops after its fourth step leaves a recorded reopen
      without its event, and the retry that follows reports success without one. */
  lemma ReopenEventCanBeMissed(q: Request, start: World)
    requires Ready(q, start) && q.archive !in start.events
    ensures var fuels := [Limited(4), Unlimited];
            && AttemptVerdicts(q, fuels, start) == [MissedEvent, Replayed]
            && Recorded(q, AfterAttempts(q, fuels, start)) && !OwnEvent(q, AfterAttempts(q, fuels, start))
  {
    var fuels := [Limited(4), Unlimited];
    var r := ReopenTask(q, start, Limited(4));
    UnderwayAdmits(q, start, start);
    MissesEvent(q, start);
    assert fuels[..1] == [Limited(4)] && [Limited(4)][..0] == [];
    assert AfterAttempts(q, [Limited(4)], start) == r.world;
    assert AttemptVerdicts(q, [Limited(4)], start) == [MissedEvent];
    ReopenResumes(q, start, start, Limited(4));
    ReopenResumes(q, start, r.world, Unlimited);
  }

  lemma MissesEvent(q: Request, start: World)
    requires Ready(q, start) && q.archive !in start.events
    requires ExistingReopen(start, q) != Conflict && StatusAllows(start, q, ExistingReopen(start, q))
    ensures var r := ReopenTask(q, start, Limited(4));
            r.verdict == MissedEvent && Recorded(q, r.world) && r.world.events == start.events
  {
    var w1 := start.(states := start.states[q.newTask := StateFor(q)]);
    var w2 := w1.(tasks := w1.tasks[q.newTask := TaskFor(q)]);
    assert ReopenTask(q, start, Limited(4)) == PublishTask(q, w1, Limited(3)) == CommitReopen(q, w2, Limited(2));
  }

  // ----------------------------------------------------------------- in every world

  /** The record of this archive and operation is of the same new task, authority and reason. */
  predicate SameReopen(q: Request, r: Record)
  {
    && r.archive == q.archive && r.operation == q.operation && r.task == q.newTask
    && r.lineage.archive == q.archive && r.lineage.operation == q.operation && r.lineage.basis == q.basis
  }

  /** In every world: a request is replayed if and only if its operation is recorded for the same reopen and the task is
      active with its state there; a recorded operation that does not match is refused; neither changes anything. */
  lemma ReplayExactly(q: Request, w: World, f: Fuel)
    ensures var key, r := (q.archive, q.operation), ReopenTask(q, w, f);
            && (r.verdict == Replayed <==>
                  && key in w.records && SameReopen(q, w.records[key])
                  && q.newTask in w.tasks && q.newTask in w.states)
            && (key in w.records ==> r.world == w && (r.verdict == Replayed || r.verdict == Refused))
  {
    WriteNeverReplays(q, w, f);
  }

  lemma WriteNeverReplays(q: Request, w: World, f: Fuel)
    ensures WriteState(q, w, f).verdict != Replayed
  {
    CommitNeverReplays(q, w, f);
    var w1 := w.(states := w.states[q.newTask := StateFor(q)]);
    PublishNeverReplays(q, w, f);
    if !Out(f) {
      PublishNeverReplays(q, w1, Spend(f));
    }
  }

  lemma PublishNeverReplays(q: Request, w: World, f: Fuel)
    ensures PublishTask(q, w, f).verdict != Replayed
  {
    CommitNeverReplays(q, w, f);
    if !Out(f) {
      CommitNeverReplays(q, w.(tasks := w.tasks[q.newTask := TaskFor(q)]), Spend(f));
    }
  }

  lemma CommitNeverReplays(q: Request, w: World, f: Fuel)
    ensures CommitReopen(q, w, f).verdict != Replayed
  {
  }

  /** Why a reopen that is not recorded yet may not begin: some active autonomous task has no state to read; another
      task actively claims the archive; the new identity is taken by an active task that is not this reopen's own; a
      state file of that identity says something else; a task file other than the new one differs from HEAD; or HEAD has
      a task file of the new identity although nothing of this reopen was begun. */
  ghost predicate MayNotBegin(q: Request, w: World)
  {
    || (exists id :: id in w.tasks && w.tasks[id].autonomous && id !in w.states)
    || (exists id :: id != q.newTask && id in w.tasks && w.tasks[id].autonomous && id in w.states
          && w.states[id].reopenedFrom.Some? && w.states[id].reopenedFrom.value.archive == q.archive)
    || (q.newTask in w.tasks && w.tasks[q.newTask] != Task(q.source, true))
    || (q.newTask in w.states
        && w.states[q.newTask] != TaskState(Some(Lineage(q.archive, q.operation, q.basis)), "pending"))
    || (exists id :: id != q.newTask && id in w.tasks && (id !in w.head || w.head[id] != w.tasks[id]))
    || (exists id :: id != q.newTask && id in w.head && id !in w.tasks)
    || (q.newTask in w.head && q.newTask !in w.tasks && q.newTask !in w.states)
  }

  /** Why a reopen that began may not end: HEAD holds the task file under another commit, or the ledger another reopen.
      */
  predicate MayNotEnd(q: Request, w: World)
  {
    || (q.newTask in w.head && w.head[q.newTask] == Task(q.source, true)
        && (|w.commits| == 0
            || w.commits[|w.commits| - 1] != Commit(q.operation, q.archive, q.newTask, q.source)))
    || (q.archive in w.events && !SameReopen(q, w.events[q.archive]))
  }

  /** In every world: an undisturbed reopen succeeds if and only if it is not recorded yet and neither holds. */
  lemma SucceedsExactly(q: Request, w: World)
    ensures ReopenTask(q, w, Unlimited).verdict == Reopened <==>
              !Recorded(q, w) && !MayNotBegin(q, w) && !MayNotEnd(q, w)
  {
    if Recorded(q, w) {
      ReplayExactly(q, w, Unlimited);
    } else if MayNotBegin(q, w) {
      ReopenGuards(q, w, Unlimited);
    } else {
      MayBegin(q, w);
      EndsExactly(q, w);
    }
  }

  /** A reopen that may begin passes both checks. */
  lemma MayBegin(q: Request, w: World)
    requires !MayNotBegin(q, w)
    ensures ExistingReopen(w, q) != Conflict && StatusAllows(w, q, ExistingReopen(w, q))
    ensures q.newTask in w.states ==> w.states[q.newTask] == StateFor(q)
    ensures q.newTask in w.tasks ==> w.tasks[q.newTask] == TaskFor(q)
  {
    assert StatesReadable(w);
    forall id | Claims(w, id, q.archive)
      ensures OwnClaim(w, q, id)
    {
      assert id == q.newTask;
    }
    if q.newTask in w.tasks {
      assert Claims(w, q.newTask, q.archive);
    }
  }

  lemma EndsExactly(q: Request, w: World)
    requires q.newTask in w.states ==> w.states[q.newTask] == StateFor(q)
    requires q.newTask in w.tasks ==> w.tasks[q.newTask] == TaskFor(q)
    ensures WriteState(q, w, Unlimited).verdict == Reopened <==> !MayNotEnd(q, w)
  {
    var w1 := if q.newTask in w.states then w else w.(states := w.states[q.newTask := StateFor(q)]);
    var w2 := if q.newTask in w1.tasks then w1 else w1.(tasks := w1.tasks[q.newTask := TaskFor(q)]);
    assert WriteState(q, w, Unlimited) == PublishTask(q, w1, Unlimited) == CommitReopen(q, w2, Unlimited);
    CommitsExactly(q, w2);
  }

  lemma CommitsExactly(q: Request, w: World)
    requires q.newTask in w.tasks && w.tasks[q.newTask] == TaskFor(q)
    ensures CommitReopen(q, w, Unlimited).verdict == Reopened <==> !MayNotEnd(q, w)
  {
  }

  /** In every world such a reopen is refused with nothing changed. */
  lemma ReopenGuards(q: Request, w: World, f: Fuel)
    requires !Recorded(q, w) && MayNotBegin(q, w)
    ensures ReopenTask(q, w, f) == Run(w, Refused)
  {
    if ExistingReopen(w, q) != Conflict && DirtyOnly(w, q.newTask) {
      OthersMayBegin(q, w);
    }
  }

  /** What the existing-reopen check and the status check together rule out. */
  lemma OthersMayBegin(q: Request, w: World)
    requires ExistingReopen(w, q) != Conflict && DirtyOnly(w, q.newTask)
    ensures MayNotBegin(q, w) ==>
              || (q.newTask in w.states
                  && w.states[q.newTask] != TaskState(Some(Lineage(q.archive, q.operation, q.basis)), "pending"))
              || (q.newTask in w.head && ExistingReopen(w, q) == Clear)
  {
    forall id | id in w.tasks && w.tasks[id].autonomous && id in w.states && w.states[id].reopenedFrom.Some?
                && w.states[id].reopenedFrom.value.archive == q.archive
      ensures id == q.newTask
    {
      assert Claims(w, id, q.archive);
    }
  }

  /** A map keeps what it has and gains at most one entry. */
  ghost predicate Gains<K, V>(m: map<K, V>, m': map<K, V>, key: K, value: V)
  {
    m' == m || (key !in m && m' == m[key := value])
  }

  /** What an attempt may write: the new task, its state and its record, each with exactly the request's content and
      only where nothing was; the archive's event if there is none; one commit of exactly this reopen. */
  ghost predicate ReopenFrame(q: Request, w: World, w': World)
  {
    && Gains(w.tasks, w'.tasks, q.newTask, Task(q.source, true))
    && Gains(w.states, w'.states, q.newTask, TaskState(Some(Lineage(q.archive, q.operation, q.basis)), "pending"))
    && Gains(w.records, w'.records, (q.archive, q.operation),
             Record(q.archive, q.operation, q.newTask, Lineage(q.archive, q.operation, q.basis)))
    && Gains(w.events, w'.events, q.archive,
             Record(q.archive, q.operation, q.newTask, Lineage(q.archive, q.operation, q.basis)))
    && (w'.commits == w.commits || w'.commits == w.commits + [Commit(q.operation, q.archive, q.newTask, q.source)])
    && (w'.commits == w.commits ==> w'.head == w.head)
    && (w'.commits != w.commits ==> w'.head == w.head[q.newTask := Task(q.source, true)])
  }

  /** The record is only written over the new task, its state and HEAD proving its commit. */
  predicate RecordBacked(q: Request, w: World)
  {
    && q.newTask in w.tasks && q.newTask in w.head && w.head[q.newTask] == w.tasks[q.newTask]
    && |w.commits| > 0 && w.commits[|w.commits| - 1] == Commit(q.operation, q.archive, q.newTask, q.source)
  }

  ghost predicate AttemptFrame(q: Request, w: World, w': World)
  {
    ReopenFrame(q, w, w') && (Recorded(q, w') && !Recorded(q, w) ==> RecordBacked(q, w'))
  }

  /** A reopen that succeeds has its record and its event, both this request's own, over task, state and commit. */
  predicate Told(q: Request, w: World)
  {
    && (q.archive, q.operation) in w.records && SameReopen(q, w.records[(q.archive, q.operation)])
    && q.archive in w.events && SameReopen(q, w.events[q.archive])
    && RecordBacked(q, w)
  }

  lemma RecordFramed(q: Request, w: World, f: Fuel)
    requires !Recorded(q, w) && RecordBacked(q, w)
    ensures var r := WriteRecord(q, w, f);
            && AttemptFrame(q, w, r.world) && (r.verdict == Reopened ==> Told(q, r.world))
            && r.world.tasks == w.tasks && r.world.states == w.states && r.world.commits == w.commits
  {
    var w1 := w.(records := w.records[(q.archive, q.operation) := RecordFor(q)]);
    if !Out(f) {
      assert WriteRecord(q, w, f) == AppendEvent(q, w1, Spend(f));
    }
  }

  lemma CommitFramed(q: Request, w: World, f: Fuel)
    requires !Recorded(q, w) && q.newTask in w.tasks && w.tasks[q.newTask] == TaskFor(q)
    ensures var r := CommitReopen(q, w, f);
            && AttemptFrame(q, w, r.world) && (r.verdict == Reopened ==> Told(q, r.world))
            && r.world.tasks == w.tasks && r.world.states == w.states
  {
    var c := Commit(q.operation, q.archive, q.newTask, q.source);
    if Tracked(w, q.newTask) {
      if |w.commits| > 0 && w.commits[|w.commits| - 1] == c {
        RecordFramed(q, w, f);
      }
    } else if !Out(f) {
      var w1 := w.(head := w.head[q.newTask := TaskFor(q)], commits := w.commits + [c]);
      RecordFramed(q, w1, Spend(f));
    }
  }

  lemma PublishFramed(q: Request, w: World, f: Fuel)
    requires !Recorded(q, w)
    ensures var r := PublishTask(q, w, f);
            && AttemptFrame(q, w, r.world) && (r.verdict == Reopened ==> Told(q, r.world))
            && r.world.states == w.states
  {
    if q.newTask in w.tasks {
      if w.tasks[q.newTask] == TaskFor(q) {
        CommitFramed(q, w, f);
      }
    } else if !Out(f) {
      CommitFramed(q, w.(tasks := w.tasks[q.newTask := TaskFor(q)]), Spend(f));
    }
  }

  lemma WriteFramed(q: Request, w: World, f: Fuel)
    requires !Recorded(q, w)
    ensures var r := WriteState(q, w, f);
            AttemptFrame(q, w, r.world) && (r.verdict == Reopened ==> Told(q, r.world))
  {
    if q.newTask in w.states {
      if w.states[q.newTask] == StateFor(q) {
        PublishFramed(q, w, f);
      }
    } else if !Out(f) {
      PublishFramed(q, w.(states := w.states[q.newTask := StateFor(q)]), Spend(f));
    }
  }

  /** In every world and wherever it stops. */
  lemma ReopenFramed(q: Request, w: World, f: Fuel)
    ensures var r := ReopenTask(q, w, f);
            AttemptFrame(q, w, r.world) && (r.verdict == Reopened ==> Told(q, r.world))
  {
    if !Recorded(q, w) {
      WriteFramed(q, w, f);
    }
  }
}
