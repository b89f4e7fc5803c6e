/** What one invocation of garbage collection keeps, wherever it stops: the journal's own invariant, and any
    per-artifact property that survives the actions, the renaming of stages and quarantine removal. */
module RetentionInvariant {
  import opened Base
  import opened RetentionPlan
  import opened RetentionJournal
  import opened RetentionDisk
  import opened RetentionApply

  /** A plan with its mutating actions, the world before admission, and a property `keep(i, k, stage, slot)` of
      artifact `i` when `k` actions are journaled and the journal stands at `stage`. */
  datatype Guard = Guard(codec: Codec, plan: Plan, acts: seq<Action>, start: World,
      keep: (nat, nat, Stage, Slot) -> bool)

  predicate Working(stage: Stage)
  {
    stage != Completed && stage != Cleaned
  }

  /** What running an action does to its own artifact. */
  function Effect(c: Codec, other: map<Path, Bytes>, a: Action, s: Slot, f: Fuel): Outcome
  {
    if a.kind == Compress then ApplyCompression(c, other, a, s, f) else ApplyPrune(c, other, a, s, f)
  }

  // ------------------------------------------------ what the property must survive

  /** Its own action, stopped or finished. */
  predicate ActionSafe(g: Guard, k: nat, stage: Stage, slot: Slot, f: Fuel)
    requires k < |g.acts|
  {
    Working(stage) && g.keep(k, k, stage, slot) ==>
      var r := Effect(g.codec, g.start.other, g.acts[k], slot, f);
      g.keep(k, k, stage, r.slot) && (r.status == Done ==> g.keep(k, k + 1, stage, r.slot))
  }

  /** Another artifact's action. */
  predicate OtherSafe(g: Guard, i: nat, k: nat, stage: Stage, slot: Slot)
  {
    Working(stage) && i != k && g.keep(i, k, stage, slot) ==> g.keep(i, k + 1, stage, slot)
  }

  /** A journal entry that records no new action. */
  predicate StageSafe(g: Guard, i: nat, k: nat, stage: Stage, stage': Stage, slot: Slot)
  {
    Working(stage) && stage' != Cleaned && g.keep(i, k, stage, slot) ==> g.keep(i, k, stage', slot)
  }

  /** Removal of one quarantined file, and the end of removal. */
  predicate RemovalSafe(g: Guard, i: nat, slot: Slot, part: Part)
  {
    g.keep(i, |g.acts|, Completed, slot) ==>
      && g.keep(i, |g.acts|, Completed, slot.(quarantine := Without(slot.quarantine, part)))
      && (slot.quarantine == EMPTY ==> g.keep(i, |g.acts|, Cleaned, slot))
  }

  ghost predicate Survives(g: Guard)
  {
    && (forall k: nat, stage, slot, f {:trigger ActionSafe(g, k, stage, slot, f)} ::
          k < |g.acts| ==> ActionSafe(g, k, stage, slot, f))
    && (forall i: nat, k: nat, stage, slot {:trigger OtherSafe(g, i, k, stage, slot)} ::
          i < |g.acts| && k < |g.acts| ==> OtherSafe(g, i, k, stage, slot))
    && (forall i: nat, k: nat, stage, stage', slot {:trigger StageSafe(g, i, k, stage, stage', slot)} ::
          i < |g.acts| ==> StageSafe(g, i, k, stage, stage', slot))
    && (forall i: nat, slot, part {:trigger RemovalSafe(g, i, slot, part)} ::
          i < |g.acts| ==> RemovalSafe(g, i, slot, part))
  }

  predicate Distinct(acts: seq<Action>)
  {
    forall i, j :: 0 <= i < j < |acts| ==> acts[i].path != acts[j].path
  }

  predicate Blank(w: World)
  {
    w.history == [] && w.checkpoint == None && !w.quarantineDir
  }

  ghost predicate GuardOk(g: Guard)
  {
    && AllMutating(g.acts) && Distinct(g.acts) && (g.plan.requiredExport ==> |g.acts| > 0)
    && Blank(g.start) && SlotsKept(g, g.start.slots, 0, Admitted) && Survives(g)
  }

  // ---------------------------------------------------------------- the invariant

  predicate SlotsKept(g: Guard, slots: map<Path, Slot>, k: nat, stage: Stage)
  {
    forall i {:trigger g.acts[i]} :: 0 <= i < |g.acts| ==> g.keep(i, k, stage, SlotIn(slots, g.acts[i].path))
  }

  /** The disk agrees with the journal entry `j`, and `j` is not a dead end. */
  predicate Agrees(g: Guard, w: World, j: Journal)
  {
    && SlotsKept(g, w.slots, |j.completedPaths|, j.stage)
    && !DeadEnd(j, g.acts)
    && (j.exportId != "" ==> j.exportId in w.exports)
    && (j.stage == Cleaned ==> !w.quarantineDir)
  }

  predicate Inv(g: Guard, w: World)
  {
    && Chained(g.plan, g.acts, w.history) && CheckpointMatches(w) && w.other == g.start.other
    && (|w.history| == 0 ==> w == g.start)
    && (|w.history| > 0 ==> Agrees(g, w, Last(w.history)))
  }

  predicate At(g: Guard, w: World, j: Journal)
  {
    Inv(g, w) && |w.history| > 0 && Last(w.history) == j
  }

  lemma AtEntry(g: Guard, w: World, j: Journal)
    requires At(g, w, j)
    ensures EntryValid(j, g.acts) && j.plan == g.plan && j.sequence == |w.history|
  {
    ChainedEntry(g.plan, g.acts, w.history, |w.history| - 1);
  }

  // -------------------------------------------------------------- persisting

  /** Appending an entry the disk already agrees with keeps the invariant. */
  lemma AppendKeeps(g: Guard, w: World, next: Journal)
    requires Inv(g, w) && Chained(g.plan, g.acts, w.history + [next]) && Agrees(g, w, next)
    ensures At(g, w.(history := w.history + [next]), next)
  {
    var w' := w.(history := w.history + [next]);
    assert Last(w'.history) == next;
    assert CheckpointMatches(w');
    assert Agrees(g, w', next);
  }

  lemma CheckpointKeeps(g: Guard, w: World, next: Journal)
    requires At(g, w, next) && next.sequence == |w.history|
    ensures At(g, w.(checkpoint := Some(next)), next)
  {
    var w' := w.(checkpoint := Some(next));
    assert CheckpointMatches(w');
    assert Agrees(g, w', next);
  }

  /** What an attempt to persist leaves: the invariant at both of its steps, and nothing but the journal changed. */
  predicate Persisted(g: Guard, w: World, next: Journal, f: Fuel, p: Point)
  {
    && Inv(g, p.world) && p.world == w.(history := p.world.history, checkpoint := p.world.checkpoint)
    && (p.status == Done ==> At(g, p.world, next))
    && (f.Unlimited? ==> p.status != Stopped && p.fuel.Unlimited?)
  }

  lemma CommitKeeps(g: Guard, w: World, next: Journal, f: Fuel)
    requires Inv(g, w) && next.sequence == |w.history| + 1
    requires Chained(g.plan, g.acts, w.history + [next]) && Agrees(g, w, next)
    ensures var p := Commit(next, w, f); Persisted(g, w, next, f, p) && p.status != Failed
  {
    AppendKeeps(g, w, next);
    CheckpointKeeps(g, w.(history := w.history + [next]), next);
  }

  /** persistJournal from the loaded entry `j`: an illegal entry is refused, a legal one is only written when the disk
      agrees with it. */
  lemma PersistKeeps(g: Guard, w: World, j: Journal, next: Journal, f: Fuel)
    requires At(g, w, j) && next.sequence == j.sequence + 1 && next.plan == j.plan
    requires LegalNext(g.acts, Some(j), next) ==> Agrees(g, w, next)
    ensures var p := Persist(g.acts, Some(j), next, w, f);
            Persisted(g, w, next, f, p) && (p.status == Failed <==> !LegalNext(g.acts, Some(j), next))
  {
    AtEntry(g, w, j);
    if LegalNext(g.acts, Some(j), next) {
      ChainedSnoc(g.plan, g.acts, w.history, next);
      CommitKeeps(g, w, next, f);
    }
  }

  lemma StageChanges(g: Guard, slots: map<Path, Slot>, k: nat, stage: Stage, stage': Stage)
    requires Survives(g) && SlotsKept(g, slots, k, stage) && Working(stage) && stage' != Cleaned
    ensures SlotsKept(g, slots, k, stage')
  {
    forall i | 0 <= i < |g.acts|
      ensures g.keep(i, k, stage', SlotIn(slots, g.acts[i].path))
    {
      assert StageSafe(g, i, k, stage, stage', SlotIn(slots, g.acts[i].path));
    }
  }

  // ------------------------------------------------------------------ actions

  /** An action changes its own artifact, as its effect says, and creates the quarantine; nothing else. */
  lemma ActionEffect(c: Codec, a: Action, w: World, f: Fuel)
    requires IsMutating(a)
    ensures var r := ApplyAction(c, a, w, f);
            && r.world == w.(slots := r.world.slots, quarantineDir := r.world.quarantineDir)
            && (forall p :: p != a.path ==> SlotAt(r.world, p) == SlotAt(w, p))
            && ((r.world.slots == w.slots && r.status == Stopped) || exists f' :: EffectOf(c, a, w, f', r))
            && (f.Unlimited? ==> EffectOf(c, a, w, f, r))
  {
    var r := ApplyAction(c, a, w, f);
    if a.kind == Compress || w.quarantineDir {
      assert EffectOf(c, a, w, f, r);
    } else if !Out(f) {
      assert EffectOf(c, a, w, Spend(f), r);
    }
  }

  predicate EffectOf(c: Codec, a: Action, w: World, f: Fuel, r: Point)
  {
    var o := Effect(c, w.other, a, SlotAt(w, a.path), f);
    SlotAt(r.world, a.path) == o.slot && r.status == o.status && r.fuel == o.fuel
  }

  lemma ActionKeepsSlots(g: Guard, w: World, k: nat, stage: Stage, f: Fuel)
    requires GuardOk(g) && w.other == g.start.other && k < |g.acts| && Working(stage) && SlotsKept(g, w.slots, k, stage)
    ensures var r := ApplyAction(g.codec, g.acts[k], w, f);
            && SlotsKept(g, r.world.slots, k, stage)
            && (r.status == Done ==> SlotsKept(g, r.world.slots, k + 1, stage))
  {
    var a, r := g.acts[k], ApplyAction(g.codec, g.acts[k], w, f);
    ActionEffect(g.codec, a, w, f);
    OwnSlotKept(g, w, k, stage, f);
    forall i | 0 <= i < |g.acts|
      ensures g.keep(i, k, stage, SlotIn(r.world.slots, g.acts[i].path))
      ensures r.status == Done ==> g.keep(i, k + 1, stage, SlotIn(r.world.slots, g.acts[i].path))
    {
      if i != k {
        assert SlotAt(r.world, g.acts[i].path) == SlotAt(w, g.acts[i].path);
        assert OtherSafe(g, i, k, stage, SlotIn(w.slots, g.acts[i].path));
      }
    }
  }

  lemma OwnSlotKept(g: Guard, w: World, k: nat, stage: Stage, f: Fuel)
    requires GuardOk(g) && w.other == g.start.other && k < |g.acts| && Working(stage)
    requires g.keep(k, k, stage, SlotAt(w, g.acts[k].path))
    ensures var r := ApplyAction(g.codec, g.acts[k], w, f);
            var slot := SlotAt(r.world, g.acts[k].path);
            g.keep(k, k, stage, slot) && (r.status == Done ==> g.keep(k, k + 1, stage, slot))
  {
    var a, r := g.acts[k], ApplyAction(g.codec, g.acts[k], w, f);
    ActionEffect(g.codec, a, w, f);
    if !(r.world.slots == w.slots && r.status == Stopped) {
      var f' :| EffectOf(g.codec, a, w, f', r);
      assert ActionSafe(g, k, stage, SlotAt(w, a.path), f');
    }
  }

  lemma ActionKeeps(g: Guard, w: World, j: Journal, f: Fuel)
    requires GuardOk(g) && At(g, w, j) && Working(j.stage) && |j.completedPaths| < |g.acts|
    ensures var k := |j.completedPaths|;
            var r := ApplyAction(g.codec, g.acts[k], w, f);
            && At(g, r.world, j)
            && (r.status == Done ==> SlotsKept(g, r.world.slots, k + 1, j.stage))
  {
    var k := |j.completedPaths|;
    ActionEffect(g.codec, g.acts[k], w, f);
    ActionKeepsSlots(g, w, k, j.stage, f);
    assert Agrees(g, ApplyAction(g.codec, g.acts[k], w, f).world, j);
  }

  // -------------------------------------------------------- quarantine removal

  lemma RemovalStep(g: Guard, slots: map<Path, Slot>, e: Removal)
    requires GuardOk(g) && SlotsKept(g, slots, |g.acts|, Completed)
    ensures var slot := SlotIn(slots, e.path);
            SlotsKept(g, slots[e.path := slot.(quarantine := Without(slot.quarantine, e.part))], |g.acts|, Completed)
  {
    var slot := SlotIn(slots, e.path);
    var slots' := slots[e.path := slot.(quarantine := Without(slot.quarantine, e.part))];
    forall i | 0 <= i < |g.acts|
      ensures g.keep(i, |g.acts|, Completed, SlotIn(slots', g.acts[i].path))
    {
      assert RemovalSafe(g, i, SlotIn(slots, g.acts[i].path), e.part);
    }
  }

  /** Only quarantine files disappear. */
  lemma {:induction false} RemovalKeeps(g: Guard, order: seq<Removal>, w: World, f: Fuel)
    requires GuardOk(g) && SlotsKept(g, w.slots, |g.acts|, Completed)
    ensures var r := RemoveFiles(order, w, f);
            && SlotsKept(g, r.world.slots, |g.acts|, Completed)
            && r.world == w.(slots := r.world.slots) && r.status != Failed
    decreases |order|
  {
    if |order| > 0 {
      var slot := SlotAt(w, order[0].path);
      var q := Without(slot.quarantine, order[0].part);
      RemovalStep(g, w.slots, order[0]);
      if q == slot.quarantine {
        RemovalKeeps(g, order[1..], w, f);
      } else if !Out(f) {
        RemovalKeeps(g, order[1..], w.(slots := w.slots[order[0].path := slot.(quarantine := q)]), Spend(f));
      }
    }
  }

  lemma EmptiedIsClean(g: Guard, w: World)
    requires GuardOk(g) && SlotsKept(g, w.slots, |g.acts|, Completed) && QuarantineEmpty(g.acts, w)
    ensures SlotsKept(g, w.slots, |g.acts|, Cleaned)
  {
    forall i | 0 <= i < |g.acts|
      ensures g.keep(i, |g.acts|, Cleaned, SlotIn(w.slots, g.acts[i].path))
    {
      assert RemovalSafe(g, i, SlotIn(w.slots, g.acts[i].path), GzPart);
    }
  }

  lemma SweepKeeps(g: Guard, order: seq<Removal>, w: World, f: Fuel)
    requires GuardOk(g) && SlotsKept(g, w.slots, |g.acts|, Completed)
    ensures var r := Sweep(g.acts, order, w, f);
            && SlotsKept(g, r.world.slots, |g.acts|, Completed)
            && r.world == w.(slots := r.world.slots, quarantineDir := r.world.quarantineDir)
            && (r.status == Done ==> SlotsKept(g, r.world.slots, |g.acts|, Cleaned) && !r.world.quarantineDir)
  {
    RemovalKeeps(g, order, w, f);
    var r := RemoveFiles(order, w, f);
    if QuarantineEmpty(g.acts, r.world) {
      EmptiedIsClean(g, r.world);
    }
  }

  // ------------------------------------------------------------ phases of a run

  /** A cancellation is only written while an action is outstanding, so it is never a dead end. */
  lemma CancelKeeps(g: Guard, env: Env, j: Journal, w: World, f: Fuel)
    requires GuardOk(g) && At(g, w, j) && |j.completedPaths| < |g.acts| && Working(j.stage)
    ensures Inv(g, Cancel(g.acts, env, j, w, f).world)
  {
    StageChanges(g, w.slots, |j.completedPaths|, j.stage, Cancelled);
    PersistKeeps(g, w, j, CancelEntry(env, j), f);
  }

  lemma SweptAt(g: Guard, w: World, w': World, j: Journal)
    requires At(g, w, j) && j.stage == Completed
    requires w' == w.(slots := w'.slots, quarantineDir := w'.quarantineDir)
    requires SlotsKept(g, w'.slots, |j.completedPaths|, Completed)
    ensures At(g, w', j)
  {
    assert Agrees(g, w', j);
  }

  lemma CleanKeeps(g: Guard, env: Env, j: Journal, w: World, f: Fuel)
    requires GuardOk(g) && At(g, w, j) && j.stage == Completed
    ensures var r := Clean(g.acts, env, j, w, f);
            Inv(g, r.world) && (r.verdict == Finished ==> At(g, r.world, CleanedEntry(env, j)))
  {
    AtEntry(g, w, j);
    SweepKeeps(g, env.removal, w, f);
    var r := Sweep(g.acts, env.removal, w, f);
    SweptAt(g, w, r.world, j);
    if r.status == Done {
      PersistKeeps(g, r.world, j, CleanedEntry(env, j), r.fuel);
    }
  }

  lemma CompletedKeeps(g: Guard, env: Env, j: Journal, w: World, f: Fuel)
    requires GuardOk(g) && At(g, w, j) && Working(j.stage) && |j.completedPaths| == |g.acts|
    ensures var next := CompletedEntry(env, j);
            var p := Persist(g.acts, Some(j), next, w, f);
            Persisted(g, w, next, f, p) && (p.status == Failed <==> !LegalNext(g.acts, Some(j), next))
  {
    StageChanges(g, w.slots, |g.acts|, j.stage, Completed);
    PersistKeeps(g, w, j, CompletedEntry(env, j), f);
  }

  predicate Kept(g: Guard, r: Run)
  {
    Inv(g, r.world) && (r.verdict == Finished ==> |r.world.history| > 0 && Last(r.world.history).stage == Cleaned)
  }

  lemma CompleteKeeps(g: Guard, env: Env, j: Journal, w: World, f: Fuel)
    requires GuardOk(g) && At(g, w, j) && j.stage != Cleaned && |j.completedPaths| == |g.acts|
    ensures Kept(g, Complete(g.acts, env, j, w, f))
  {
    if j.stage == Completed {
      CleanKeeps(g, env, j, w, f);
    } else {
      var next := CompletedEntry(env, j);
      CompletedKeeps(g, env, j, w, f);
      var p := Persist(g.acts, Some(j), next, w, f);
      if p.status == Done {
        CleanKeeps(g, env, next, p.world, p.fuel);
      }
    }
  }

  lemma ActionEntryAgrees(g: Guard, env: Env, j: Journal, w: World)
    requires GuardOk(g) && At(g, w, j) && Working(j.stage)
    requires |j.completedPaths| < |g.acts| && SlotsKept(g, w.slots, |j.completedPaths| + 1, j.stage)
    ensures Agrees(g, w, ActionEntry(env, j, g.acts[|j.completedPaths|]))
  {
    var k := |j.completedPaths|;
    var next := ActionEntry(env, j, g.acts[k]);
    StageChanges(g, w.slots, k + 1, j.stage, next.stage);
  }

  /** One action and its entry: the invariant at every stopping point, and the entry's own once it is written. */
  lemma RoundKeeps(g: Guard, env: Env, j: Journal, w: World, f: Fuel)
    requires GuardOk(g) && At(g, w, j) && Working(j.stage) && |j.completedPaths| < |g.acts|
    ensures var next := ActionEntry(env, j, g.acts[|j.completedPaths|]);
            var p := Round(g.codec, g.acts, env, j, w, f);
            Inv(g, p.world) && (p.status == Done ==> At(g, p.world, next))
  {
    ActionKeeps(g, w, j, f);
    var r := ApplyAction(g.codec, g.acts[|j.completedPaths|], w, f);
    if r.status == Done {
      ActionEntryAgrees(g, env, j, r.world);
      PersistKeeps(g, r.world, j, ActionEntry(env, j, g.acts[|j.completedPaths|]), r.fuel);
    }
  }

  /** An unfinished journal with an action outstanding is at a working stage. */
  lemma StillWorking(g: Guard, w: World, j: Journal)
    requires At(g, w, j) && j.stage != Cleaned && |j.completedPaths| < |g.acts|
    ensures Working(j.stage)
  {
    AtEntry(g, w, j);
  }

  lemma {:induction false} RunActionsKeeps(g: Guard, env: Env, j: Journal, w: World, f: Fuel)
    requires GuardOk(g) && At(g, w, j) && j.stage != Cleaned
    ensures Kept(g, RunActions(g.codec, g.acts, env, j, w, f))
    decreases |g.acts| - |j.completedPaths|
  {
    AtEntry(g, w, j);
    var k := |j.completedPaths|;
    if k >= |g.acts| {
      CompleteKeeps(g, env, j, w, f);
    } else {
      StillWorking(g, w, j);
      if env.ctxDone(j.sequence) {
        CancelKeeps(g, env, j, w, f);
      } else {
        RoundKeeps(g, env, j, w, f);
        var p := Round(g.codec, g.acts, env, j, w, f);
        if p.status == Done {
          RunActionsKeeps(g, env, ActionEntry(env, j, g.acts[k]), p.world, p.fuel);
        }
      }
    }
  }

  /** While a required export is missing nothing has been done yet. */
  lemma ExportFirst(g: Guard, w: World, j: Journal)
    requires GuardOk(g) && At(g, w, j) && j.plan.requiredExport && j.exportId == "" && j.stage != Cleaned
    ensures Working(j.stage) && j.completedPaths == [] && |g.acts| > 0
  {
    AtEntry(g, w, j);
  }

  lemma ExportKeeps(g: Guard, env: Env, j: Journal, w: World, f: Fuel)
    requires GuardOk(g) && At(g, w, j) && j.plan.requiredExport && j.exportId == "" && j.stage != Cleaned
    ensures var next := ExportEntry(env, j);
            var w' := w.(exports := w.exports + {env.exportId});
            var p := Persist(g.acts, Some(j), next, w', f);
            && At(g, w', j) && Persisted(g, w', next, f, p)
            && (p.status == Failed <==> !LegalNext(g.acts, Some(j), next))
            && (p.status == Done ==> next.exportId != "")
  {
    ExportFirst(g, w, j);
    var w' := w.(exports := w.exports + {env.exportId});
    StageChanges(g, w'.slots, |j.completedPaths|, j.stage, ExportVerified);
    assert Agrees(g, w', j);
    PersistKeeps(g, w', j, ExportEntry(env, j), f);
  }

  lemma RunFromKeeps(g: Guard, env: Env, j: Journal, w: World, f: Fuel)
    requires GuardOk(g) && At(g, w, j) && j.stage != Cleaned
    ensures Kept(g, RunFrom(g.codec, g.acts, env, j, w, f))
  {
    if !(j.plan.requiredExport && j.exportId == "") {
      RunActionsKeeps(g, env, j, w, f);
    } else {
      ExportFirst(g, w, j);
      if env.ctxDone(j.sequence) {
        CancelKeeps(g, env, j, w, f);
      } else if !Out(f) {
        ExportKeeps(g, env, j, w, Spend(f));
        var next := ExportEntry(env, j);
        var p := Persist(g.acts, Some(j), next, w.(exports := w.exports + {env.exportId}), Spend(f));
        if p.status == Done {
          RunActionsKeeps(g, env, next, p.world, p.fuel);
        }
      }
    }
  }

  // ------------------------------------------------------------ one invocation

  lemma StartInv(g: Guard)
    requires GuardOk(g)
    ensures Inv(g, g.start)
  {
  }

  lemma FirstEntry(plan: Plan, acts: seq<Action>, none: seq<Journal>, j: Journal)
    requires |none| == 0 && j.plan == plan && LegalNext(acts, None, j)
    ensures Chained(plan, acts, none + [j])
  {
    assert Linked(plan, acts, none, j);
    ChainedSnoc(plan, acts, none, j);
  }

  lemma AdmissionKeeps(g: Guard, env: Env, f: Fuel)
    requires GuardOk(g)
    ensures var j := Admission(env, g.plan);
            var p := Persist(g.acts, None, j, g.start, f);
            Persisted(g, g.start, j, f, p) && (p.status == Failed <==> !LegalNext(g.acts, None, j))
  {
    var j := Admission(env, g.plan);
    StartInv(g);
    if LegalNext(g.acts, None, j) {
      FirstEntry(g.plan, g.acts, g.start.history, j);
      CommitKeeps(g, g.start, j, f);
    }
  }

  /** One invocation from any world such invocations can leave, whatever is on the disk. */
  lemma ApplyKeeps(h: Hasher, g: Guard, env: Env, w: World)
    requires GuardOk(g) && Inv(g, w) && g.acts == Mutating(g.plan.actions)
    ensures Kept(g, ApplyGC(h, g.codec, env, g.plan, w))
  {
    if |w.history| == 0 {
      AdmissionKeeps(g, env, env.fuel);
      var j := Admission(env, g.plan);
      var p := Persist(g.acts, None, j, w, env.fuel);
      if p.status == Done {
        RunFromKeeps(g, env, j, p.world, p.fuel);
      }
    } else if Last(w.history).stage != Cleaned {
      RunFromKeeps(g, env, Last(w.history), w, env.fuel);
    }
  }

  /** The invariant holds after every sequence of interrupted, cancelled and rerun invocations. */
  lemma {:induction false} RunsKeep(h: Hasher, g: Guard, envs: seq<Env>)
    requires GuardOk(g) && g.acts == Mutating(g.plan.actions)
    ensures Inv(g, Runs(h, g.codec, envs, g.plan, g.start))
    decreases |envs|
  {
    if |envs| > 0 {
      RunsKeep(h, g, envs[..|envs| - 1]);
      ApplyKeeps(h, g, envs[|envs| - 1], Runs(h, g.codec, envs[..|envs| - 1], g.plan, g.start));
    }
  }
}
