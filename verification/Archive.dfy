/** The archive protocol: a five-stage roll-forward commit over the task file, Git and the ledger, each stage
    recorded in history before the journal (internal/autonomousarchive/coordinator.go:186-304, 421-492, 564-591). */
module Archive {
  import opened Base

  /** The operation's own paths: the active task and the archive's three files. */
  datatype Files = Files(task: Option<Bytes>, archived: Option<Bytes>, capsule: Option<Bytes>, manifest: Option<Bytes>)

  const NO_FILES := Files(None, None, None, None)

  datatype Commit = Commit(sha: string, operation: string, tree: Files)

  datatype Record = Record(operation: string, sequence: nat, stage: nat, commit: string)

  datatype Journal = Journal(operation: string, stage: nat, commit: string)

  datatype LedgerRun = LedgerRun(completed: bool, commit: string)

  datatype LedgerEvent = LedgerEvent(kind: nat, operation: string, commit: string)

  /** Everything durable. `commits` is the branch, oldest first; its last commit is HEAD. */
  datatype World = World(
    work: Files,
    index: Files,
    commits: seq<Commit>,
    history: map<nat, Record>,
    journal: Option<Journal>,
    run: Option<LedgerRun>,
    events: seq<LedgerEvent>)

  /** One archive request; `operation` stands for the archive, operation and task identities together. */
  datatype Request = Request(operation: string, task: Bytes, capsule: Option<Bytes>, manifest: Bytes)

  /** What one invocation meets: its steps, whether the repository is otherwise quiet, the new commit's name, and
      whether its `git add` tolerates a path that is neither in the worktree nor in the index. */
  datatype Env = Env(fuel: Fuel, quiet: bool, sha: string, lenient: bool)

  datatype Verdict = Archived | Interrupted | MissedEvent(stage: nat) | Refused

  datatype Run = Run(world: World, verdict: Verdict)

  datatype Point = Point(world: World, fuel: Fuel, status: Status)

  function StopVerdict(s: Status): Verdict
  {
    if s == Failed then Refused else Interrupted
  }

  function StageOf(w: World): nat
  {
    if w.journal.None? then 0 else w.journal.value.stage
  }

  // ------------------------------------------------------------------ storage

  /** writeImmutable: writing the same bytes again is no step at all, other bytes are refused. */
  function WriteHistory(r: Record, w: World, f: Fuel): Point
  {
    if r.sequence in w.history then Point(w, f, if w.history[r.sequence] == r then Done else Failed)
    else if Out(f) then Point(w, f, Stopped)
    else Point(w.(history := w.history[r.sequence := r]), Spend(f), Done)
  }

  /** persistStage: the immutable record, then the journal. */
  function PersistStage(q: Request, stage: nat, commit: string, w: World, f: Fuel): Point
  {
    var p := WriteHistory(Record(q.operation, stage, stage, commit), w, f);
    if p.status != Done then p
    else if Out(p.fuel) then p.(status := Stopped)
    else Point(p.world.(journal := Some(Journal(q.operation, stage, commit))), Spend(p.fuel), Done)
  }

  predicate HasEvent(events: seq<LedgerEvent>, kind: nat)
  {
    exists i :: 0 <= i < |events| && events[i].kind == kind
  }

  /** The first event of a kind. */
  function FirstOf(events: seq<LedgerEvent>, kind: nat): Option<LedgerEvent>
  {
    if |events| == 0 then None else if events[0].kind == kind then Some(events[0]) else FirstOf(events[1..], kind)
  }

  /** ensureArchiveEvent: the first event of the kind must carry this payload; without one, append it. */
  function EnsureEvent(q: Request, kind: nat, commit: string, w: World, f: Fuel): Point
  {
    var e := LedgerEvent(kind, q.operation, commit);
    if w.run.None? then Point(w, f, Failed)
    else if FirstOf(w.events, kind).Some? then Point(w, f, if FirstOf(w.events, kind).value == e then Done else Failed)
    else if Out(f) then Point(w, f, Stopped)
    else Point(w.(events := w.events + [e]), Spend(f), Done)
  }

  // ------------------------------------------------------------- publication

  predicate Conflicts(existing: Option<Bytes>, b: Bytes)
  {
    existing.Some? && existing.value != b
  }

  function PublishManifest(q: Request, w: World, f: Fuel): Point
  {
    if Conflicts(w.work.manifest, q.manifest) then Point(w, f, Failed)
    else if w.work.manifest.Some? then Point(w, f, Done)
    else if Out(f) then Point(w, f, Stopped)
    else Point(w.(work := w.work.(manifest := Some(q.manifest))), Spend(f), Done)
  }

  function PublishCapsule(q: Request, w: World, f: Fuel): Point
  {
    if q.capsule.None? || w.work.capsule == q.capsule then PublishManifest(q, w, f)
    else if w.work.capsule.Some? then Point(w, f, Failed)
    else if Out(f) then Point(w, f, Stopped)
    else PublishManifest(q, w.(work := w.work.(capsule := q.capsule)), Spend(f))
  }

  function PublishTask(q: Request, w: World, f: Fuel): Point
  {
    if |q.task| == 0 || Conflicts(w.work.archived, q.task) then Point(w, f, Failed)
    else if w.work.archived.Some? then PublishCapsule(q, w, f)
    else if Out(f) then Point(w, f, Stopped)
    else PublishCapsule(q, w.(work := w.work.(archived := Some(q.task))), Spend(f))
  }

  /** removeExact, with an already missing file accepted. */
  function RemoveActive(q: Request, w: World, f: Fuel): Point
  {
    if w.work.task.None? then Point(w, f, Done)
    else if w.work.task.value != q.task then Point(w, f, Failed)
    else if Out(f) then Point(w, f, Stopped)
    else Point(w.(work := w.work.(task := None)), Spend(f), Done)
  }

  // ----------------------------------------------------------------------- Git

  function Head(w: World): Files
  {
    if |w.commits| == 0 then NO_FILES else w.commits[|w.commits| - 1].tree
  }

  /** No operation-owned change is left in the worktree or the index. */
  predicate StatusClean(w: World)
  {
    w.work == w.index == Head(w)
  }

  /** Every file the archive must contain is there with the expected bytes. */
  predicate ArchiveComplete(q: Request, files: Files)
  {
    && files.archived == Some(q.task) && files.manifest == Some(q.manifest)
    && (q.capsule.Some? ==> files.capsule == q.capsule)
  }

  /** The tree of the commit before the last one. */
  function Parent(w: World): Files
  {
    if |w.commits| < 2 then NO_FILES else w.commits[|w.commits| - 2].tree
  }

  /** verifyCommit at HEAD: the operation's trailers, exactly the operation's paths changed, expected bytes. */
  predicate HeadProves(q: Request, w: World)
  {
    && |w.commits| > 0 && w.commits[|w.commits| - 1].sha != "" && w.commits[|w.commits| - 1].operation == q.operation
    && ArchiveComplete(q, Head(w)) && AllStaged(q, Head(w), Parent(w))
  }

  /** Exactly the required archive paths, and possibly the active task, changed from `from` to `to`. */
  predicate AllStaged(q: Request, to: Files, from: Files)
  {
    && to.archived != from.archived && to.manifest != from.manifest
    && (q.capsule.Some? <==> to.capsule != from.capsule)
  }

  datatype Committed = Committed(world: World, fuel: Fuel, status: Status, sha: string)

  function MakeCommit(q: Request, env: Env, w: World, f: Fuel): Committed
  {
    if !AllStaged(q, w.index, Head(w)) then Committed(w, f, Failed, "")
    else if Out(f) then Committed(w, f, Stopped, "")
    else if env.sha == "" || (|w.commits| > 0 && w.commits[|w.commits| - 1].sha == env.sha) then
      Committed(w, f, Failed, "")
    else Committed(w.(commits := w.commits + [Commit(env.sha, q.operation, w.index)]), Spend(f), Done, env.sha)
  }

  /** The active task is always among the paths to stage, although by now its file is gone. */
  predicate Stageable(env: Env, w: World)
  {
    env.lenient || w.work.task.Some? || w.index.task.Some?
  }

  /** commitArchive: reconcile with HEAD if nothing is left to commit, otherwise stage the paths and commit. */
  function CommitArchive(q: Request, env: Env, w: World, f: Fuel): Committed
  {
    if !env.quiet || !ArchiveComplete(q, w.work) then Committed(w, f, Failed, "")
    else if StatusClean(w) then
      if HeadProves(q, w) then Committed(w, f, Done, w.commits[|w.commits| - 1].sha) else Committed(w, f, Failed, "")
    else if !Stageable(env, w) then Committed(w, f, Failed, "")
    else if w.index == w.work then MakeCommit(q, env, w, f)
    else if Out(f) then Committed(w, f, Stopped, "")
    else MakeCommit(q, env, w.(index := w.work), Spend(f))
  }

  // -------------------------------------------------------------------- stages

  function CompleteRun(commit: string, w: World, f: Fuel): Point
  {
    if w.run.None? then Point(w, f, Failed)
    else if w.run.value.completed then Point(w, f, if w.run.value.commit == commit then Done else Failed)
    else if Out(f) then Point(w, f, Stopped)
    else Point(w.(run := Some(LedgerRun(true, commit))), Spend(f), Done)
  }

  /** Stage 5: the completion event and the run's completion come before the record. */
  function Stage5(q: Request, w: World, f: Fuel): Run
    requires w.journal.Some?
  {
    if StageOf(w) >= 5 then Run(w, Archived)
    else
      var commit := w.journal.value.commit;
      var e := EnsureEvent(q, 5, commit, w, f);
      if e.status != Done then Run(e.world, StopVerdict(e.status))
      else
        var c := CompleteRun(commit, e.world, e.fuel);
        if c.status != Done then Run(c.world, StopVerdict(c.status))
        else
          var p := PersistStage(q, 5, commit, c.world, c.fuel);
          Run(p.world, if p.status == Done then Archived else StopVerdict(p.status))
  }

  /** What a stage leads to: a verdict that ends the invocation, or the next stage. */
  datatype Step = Step(world: World, fuel: Fuel, verdict: Option<Verdict>)

  /** Record a stage, then append its event: stopping in between loses the event, since the next invocation
      finds the stage already journaled and does not come back to it. */
  function RecordStage(q: Request, stage: nat, commit: string, w: World, f: Fuel): Step
  {
    var p := PersistStage(q, stage, commit, w, f);
    if p.status != Done then Step(p.world, p.fuel, Some(StopVerdict(p.status)))
    else
      var e := EnsureEvent(q, stage, commit, p.world, p.fuel);
      Step(e.world, e.fuel,
           if e.status == Done then None else Some(if e.status == Stopped then MissedEvent(stage) else Refused))
  }

  function Stage4(q: Request, env: Env, w: World, f: Fuel): Step
  {
    if StageOf(w) >= 4 then Step(w, f, None)
    else
      var c := CommitArchive(q, env, w, f);
      if c.status != Done then Step(c.world, c.fuel, Some(StopVerdict(c.status)))
      else RecordStage(q, 4, c.sha, c.world, c.fuel)
  }

  function Stage3(q: Request, w: World, f: Fuel): Step
  {
    if StageOf(w) >= 3 then Step(w, f, None)
    else
      var r := RemoveActive(q, w, f);
      if r.status != Done then Step(r.world, r.fuel, Some(StopVerdict(r.status)))
      else RecordStage(q, 3, "", r.world, r.fuel)
  }

  function Stage2(q: Request, w: World, f: Fuel): Step
  {
    if StageOf(w) >= 2 then Step(w, f, None)
    else
      var p := PublishTask(q, w, f);
      if p.status != Done then Step(p.world, p.fuel, Some(StopVerdict(p.status)))
      else RecordStage(q, 2, "", p.world, p.fuel)
  }

  /** The active task, or from `files_published` on its archived copy, is readable with the exact bytes. */
  predicate TaskReadable(q: Request, w: World)
  {
    w.work.task == Some(q.task) || (StageOf(w) >= 2 && w.work.archived == Some(q.task))
  }

  /** The ledger run, the first event and the task bytes. */
  function Open(q: Request, w: World, f: Fuel): Step
  {
    if w.run.None? && Out(f) then Step(w, f, Some(Interrupted))
    else
      var w' := if w.run.None? then w.(run := Some(LedgerRun(false, ""))) else w;
      var f' := if w.run.None? then Spend(f) else f;
      var e := EnsureEvent(q, 1, "", w', f');
      if e.status != Done then Step(e.world, e.fuel, Some(StopVerdict(e.status)))
      else Step(e.world, e.fuel, if TaskReadable(q, e.world) then None else Some(Refused))
  }

  /** Pre-admission: the exact task is there, nothing is staged, and only the task may be dirty. */
  predicate Admissible(q: Request, env: Env, w: World)
  {
    && env.quiet && w.work.task == Some(q.task)
    && w.index == Head(w) && w.work == w.index.(task := w.work.task)
    && w.work.archived.None? && w.work.manifest.None?
  }

  /** The manifest a resumed operation works with is the journaled one. */
  predicate Resumable(q: Request, w: World)
    requires w.journal.Some?
  {
    && w.journal.value.operation == q.operation
    && (if w.work.manifest.Some? then w.work.manifest == Some(q.manifest)
        else w.journal.value.stage < 2 && w.work.task == Some(q.task))
  }

  function Admit(q: Request, env: Env, w: World): Step
  {
    if w.journal.None? then
      if !Admissible(q, env, w) then Step(w, env.fuel, Some(Refused))
      else
        var p := PersistStage(q, 1, "", w, env.fuel);
        Step(p.world, p.fuel, if p.status == Done then None else Some(StopVerdict(p.status)))
    else Step(w, env.fuel, if Resumable(q, w) then None else Some(Refused))
  }

  function AfterStage3(q: Request, env: Env, s: Step): Run
  {
    if s.verdict.Some? then Run(s.world, s.verdict.value)
    else
      var s4 := Stage4(q, env, s.world, s.fuel);
      if s4.verdict.Some? then Run(s4.world, s4.verdict.value)
      else if s4.world.journal.None? then Run(s4.world, Refused)
      else Stage5(q, s4.world, s4.fuel)
  }

  function AfterOpen(q: Request, env: Env, s: Step): Run
  {
    if s.verdict.Some? then Run(s.world, s.verdict.value)
    else
      var s2 := Stage2(q, s.world, s.fuel);
      if s2.verdict.Some? then Run(s2.world, s2.verdict.value) else AfterStage3(q, env, Stage3(q, s2.world, s2.fuel))
  }

  function ArchiveTask(q: Request, env: Env, w: World): Run
  {
    var a := Admit(q, env, w);
    if a.verdict.Some? then Run(a.world, a.verdict.value) else AfterOpen(q, env, Open(q, a.world, a.fuel))
  }

  // -------------------------------------------------------------- verification

  /** verifyHistory: five records, each of its own stage, of this operation, the last two naming its commit. */
  predicate HistoryVerified(w: World)
    requires w.journal.Some?
  {
    forall n: nat :: 1 <= n <= 5 ==>
      && n in w.history
      && w.history[n].operation == w.journal.value.operation && w.history[n].sequence == n && w.history[n].stage == n
      && (n >= 4 ==> w.history[n].commit == w.journal.value.commit)
  }

  function CountKind(events: seq<LedgerEvent>, kind: nat): nat
  {
    if |events| == 0 then 0
    else CountKind(events[..|events| - 1], kind) + (if events[|events| - 1].kind == kind then 1 else 0)
  }

  /** verifyArchiveLedger: a completed run naming the journal's commit, and exactly one event of each kind. */
  predicate LedgerVerified(w: World)
    requires w.journal.Some?
  {
    && w.run == Some(LedgerRun(true, w.journal.value.commit))
    && (forall n: nat :: 1 <= n <= 5 ==> CountKind(w.events, n) == 1)
    && (forall i :: 0 <= i < |w.events| && 1 <= w.events[i].kind <= 5 ==>
        w.events[i].operation == w.journal.value.operation)
  }
}
