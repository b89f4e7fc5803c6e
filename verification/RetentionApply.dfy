/** ApplyGC as a restartable transaction over durable state (internal/artifactretention/apply.go:61-245).
    A run may stop between any two atomic steps; what it left on disk is all the next run sees. */
module RetentionApply {
  import opened Base
  import opened RetentionPlan
  import opened RetentionJournal
  import opened RetentionDisk

  /** Everything durable: artifact files, verified ledger exports, the immutable journal history and the
      mutable checkpoint. */
  datatype World = World(
    slots: map<Path, Slot>,
    other: map<Path, Bytes>,
    quarantineDir: bool,
    exports: set<string>,
    history: seq<Journal>,
    checkpoint: Option<Journal>)

  datatype Part = OriginalPart | GzPart | ManifestPart

  /** One file of the quarantine, in the order the directory removal meets it. */
  datatype Removal = Removal(path: Path, part: Part)

  /** What one invocation meets: how many atomic steps it gets, when its context is cancelled and what its
      clock shows (both by journal sequence number), the export it obtains, and the removal order. */
  datatype Env = Env(fuel: Fuel, ctxDone: nat -> bool, clock: nat -> Time, exportId: string, removal: seq<Removal>)

  datatype Verdict = Finished | Replayed | CancelledRun | Interrupted | Refused

  datatype Run = Run(world: World, verdict: Verdict)

  /** An intermediate point of a run. */
  datatype Point = Point(world: World, fuel: Fuel, status: Status)

  function SlotIn(slots: map<Path, Slot>, p: Path): Slot
  {
    if p in slots then slots[p] else Slot(EMPTY, EMPTY)
  }

  function SlotAt(w: World, p: Path): Slot
  {
    SlotIn(w.slots, p)
  }

  function StopVerdict(s: Status): Verdict
  {
    if s == Failed then Refused else Interrupted
  }

  // ------------------------------------------------------------ the journal

  function WriteCheckpoint(next: Journal, w: World, f: Fuel): Point
  {
    if Out(f) then Point(w, f, Stopped) else Point(w.(checkpoint := Some(next)), Spend(f), Done)
  }

  /** The immutable entry, if it is not there already, then the checkpoint. */
  function Commit(next: Journal, w: World, f: Fuel): Point
  {
    if next.sequence <= |w.history| then
      if 0 < next.sequence && w.history[next.sequence - 1] == next then WriteCheckpoint(next, w, f)
          else Point(w, f, Failed)
    else if next.sequence != |w.history| + 1 then Point(w, f, Failed)
    else if Out(f) then Point(w, f, Stopped)
    else WriteCheckpoint(next, w.(history := w.history + [next]), Spend(f))
  }

  predicate LegalNext(acts: seq<Action>, prior: Option<Journal>, next: Journal)
  {
    && EntryValid(next, acts)
    && if prior.None? then next.sequence == 1 && next.stage == Admitted
       else EntryValid(prior.value, acts) && TransitionValid(prior.value, next, acts)
  }

  /** persistJournal: validate, write the immutable entry, then the checkpoint. */
  function Persist(acts: seq<Action>, prior: Option<Journal>, next: Journal, w: World, f: Fuel): Point
  {
    if LegalNext(acts, prior, next) then Commit(next, w, f) else Point(w, f, Failed)
  }

  datatype Loaded = Absent | Corrupt | Found(journal: Journal)

  predicate CheckpointMatches(w: World)
  {
    w.checkpoint.None?
    || (&& 0 < w.checkpoint.value.sequence <= |w.history|
        && w.history[w.checkpoint.value.sequence - 1] == w.checkpoint.value)
  }

  /** loadJournal: the last history entry is authoritative, the checkpoint only has to agree with it. */
  function Load(h: Hasher, w: World, operationId: string): Loaded
  {
    if |w.history| == 0 then if w.checkpoint.None? then Absent else Corrupt
    else if !Accepted(h, w.history) || Last(w.history).operationId != operationId || !CheckpointMatches(w) then Corrupt
    else Found(Last(w.history))
  }

  predicate AllReconcile(c: Codec, acts: seq<Action>, w: World, j: Journal)
  {
    && (forall i :: 0 <= i < |j.completedPaths| && i < |acts| ==>
        Reconciles(c, j.stage, acts[i], SlotAt(w, acts[i].path)))
    && (j.stage == Cleaned ==> !w.quarantineDir)
  }

  // ----------------------------------------------------------- one operation

  function Stamp(env: Env, j: Journal): Journal
  {
    j.(sequence := j.sequence + 1, updatedAt := env.clock(j.sequence + 1), cancelled := false)
  }

  function CancelEntry(env: Env, j: Journal): Journal
  {
    Stamp(env, j).(stage := Cancelled, cancelled := true)
  }

  function ActionEntry(env: Env, j: Journal, a: Action): Journal
  {
    Stamp(env, j).(stage := AppliedStage(a.kind), completedPaths := j.completedPaths + [a.path])
  }

  function CompletedEntry(env: Env, j: Journal): Journal
  {
    Stamp(env, j).(stage := Completed)
  }

  function CleanedEntry(env: Env, j: Journal): Journal
  {
    Stamp(env, j).(stage := Cleaned)
  }

  function ExportEntry(env: Env, j: Journal): Journal
  {
    Stamp(env, j).(stage := ExportVerified, exportId := env.exportId)
  }

  function Cancel(acts: seq<Action>, env: Env, j: Journal, w: World, f: Fuel): Run
  {
    var p := Persist(acts, Some(j), CancelEntry(env, j), w, f);
    Run(p.world, if p.status == Done then CancelledRun else StopVerdict(p.status))
  }

  function ApplyAction(c: Codec, a: Action, w: World, f: Fuel): Point
  {
    if a.kind == Compress then
      var r := ApplyCompression(c, w.other, a, SlotAt(w, a.path), f);
      Point(w.(slots := w.slots[a.path := r.slot]), r.fuel, r.status)
    else if !w.quarantineDir && Out(f) then Point(w, f, Stopped)
    else
      var f' := if w.quarantineDir then f else Spend(f);
      var r := ApplyPrune(c, w.other, a, SlotAt(w, a.path), f');
      Point(w.(slots := w.slots[a.path := r.slot], quarantineDir := true), r.fuel, r.status)
  }

  function Without(q: Rep, part: Part): Rep
  {
    match part
    case OriginalPart => q.(original := None)
    case GzPart => q.(gz := None)
    case ManifestPart => q.(manifest := None)
  }

  /** os.RemoveAll of the quarantine, file by file. */
  function RemoveFiles(order: seq<Removal>, w: World, f: Fuel): Point
  {
    if |order| == 0 then Point(w, f, Done)
    else
      var s := SlotAt(w, order[0].path);
      var q := Without(s.quarantine, order[0].part);
      if q == s.quarantine then RemoveFiles(order[1..], w, f)
      else if Out(f) then Point(w, f, Stopped)
      else RemoveFiles(order[1..], w.(slots := w.slots[order[0].path := s.(quarantine := q)]), Spend(f))
  }

  predicate QuarantineEmpty(acts: seq<Action>, w: World)
  {
    forall i :: 0 <= i < |acts| ==> SlotAt(w, acts[i].path).quarantine == EMPTY
  }

  /** The whole removal, the directory itself last. */
  function Sweep(acts: seq<Action>, order: seq<Removal>, w: World, f: Fuel): Point
  {
    var r := RemoveFiles(order, w, f);
    if r.status != Done || !QuarantineEmpty(acts, r.world) || Out(r.fuel) then Point(r.world, r.fuel, Stopped)
    else Point(r.world.(quarantineDir := false), Spend(r.fuel), Done)
  }

  function Clean(acts: seq<Action>, env: Env, j: Journal, w: World, f: Fuel): Run
  {
    var r := Sweep(acts, env.removal, w, f);
    if r.status != Done then Run(r.world, Interrupted)
    else
      var p := Persist(acts, Some(j), CleanedEntry(env, j), r.world, r.fuel);
      Run(p.world, if p.status == Done then Finished else StopVerdict(p.status))
  }

  function Complete(acts: seq<Action>, env: Env, j: Journal, w: World, f: Fuel): Run
  {
    if j.stage == Completed then Clean(acts, env, j, w, f)
    else
      var next := CompletedEntry(env, j);
      var p := Persist(acts, Some(j), next, w, f);
      if p.status != Done then Run(p.world, StopVerdict(p.status)) else Clean(acts, env, next, p.world, p.fuel)
  }

  /** One action: its effects, then its journal entry. */
  function Round(c: Codec, acts: seq<Action>, env: Env, j: Journal, w: World, f: Fuel): Point
    requires |j.completedPaths| < |acts|
  {
    var a := acts[|j.completedPaths|];
    var r := ApplyAction(c, a, w, f);
    if r.status != Done then r else Persist(acts, Some(j), ActionEntry(env, j, a), r.world, r.fuel)
  }

  /** The action loop, from the first action the journal does not list. */
  function RunActions(c: Codec, acts: seq<Action>, env: Env, j: Journal, w: World, f: Fuel): Run
    decreases |acts| - |j.completedPaths|
  {
    var k := |j.completedPaths|;
    if k >= |acts| then Complete(acts, env, j, w, f)
    else if env.ctxDone(j.sequence) then Cancel(acts, env, j, w, f)
    else if acts[k].kind == Prune && j.plan.requiredExport && j.exportId !in w.exports then Run(w, Refused)
    else
      var p := Round(c, acts, env, j, w, f);
      if p.status != Done then Run(p.world, StopVerdict(p.status))
      else RunActions(c, acts, env, ActionEntry(env, j, acts[k]), p.world, p.fuel)
  }

  function RunFrom(c: Codec, acts: seq<Action>, env: Env, j: Journal, w: World, f: Fuel): Run
  {
    if !(j.plan.requiredExport && j.exportId == "") then RunActions(c, acts, env, j, w, f)
    else if env.ctxDone(j.sequence) then Cancel(acts, env, j, w, f)
    else if Out(f) then Run(w, Interrupted)
    else
      var next := ExportEntry(env, j);
      var p := Persist(acts, Some(j), next, w.(exports := w.exports + {env.exportId}), Spend(f));
      if p.status != Done then Run(p.world, StopVerdict(p.status))
      else RunActions(c, acts, env, next, p.world, p.fuel)
  }

  function Admission(env: Env, plan: Plan): Journal
  {
    Journal(plan.operationId, Admitted, plan, [], "", false, env.clock(1), 1)
  }

  function ApplyGC(h: Hasher, c: Codec, env: Env, plan: Plan, w: World): Run
  {
    var acts := Mutating(plan.actions);
    if !PlanValid(h, plan) || !plan.policy.mutationEnabled then Run(w, Refused)
    else match Load(h, w, plan.operationId)
      case Corrupt => Run(w, Refused)
      case Absent =>
        var j := Admission(env, plan);
        var p := Persist(acts, None, j, w, env.fuel);
        if p.status != Done then Run(p.world, StopVerdict(p.status)) else RunFrom(c, acts, env, j, p.world, p.fuel)
      case Found(j) =>
        if j.plan.planId != plan.planId || j.plan.planSha256 != plan.planSha256 then Run(w, Refused)
        else if plan.requiredExport && j.exportId != "" && j.exportId !in w.exports then Run(w, Refused)
        else if !AllReconcile(c, acts, w, j) then Run(w, Refused)
        else if j.stage == Cleaned then Run(w, Replayed)
        else RunFrom(c, acts, env, j, w, env.fuel)
  }

  /** Any number of invocations, each stopping wherever its environment makes it stop. */
  function Runs(h: Hasher, c: Codec, envs: seq<Env>, plan: Plan, w: World): World
  {
    if |envs| == 0 then w else ApplyGC(h, c, envs[|envs| - 1], plan, Runs(h, c, envs[..|envs| - 1], plan, w)).world
  }
}
