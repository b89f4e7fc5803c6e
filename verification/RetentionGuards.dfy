/** What an invocation of garbage collection does in every world, reachable or not: when it refuses with nothing
    changed, what it never touches, and what must be recorded before a quarantined file can disappear. */
module RetentionGuards {
  import opened Base
  import opened RetentionPlan
  import opened RetentionJournal
  import opened RetentionDisk
  import opened RetentionApply
  import opened RetentionInvariant

  // ------------------------------------------------------------------ entry guards

  /** The journal on disk is not one this plan may continue: no history under a checkpoint, an unacceptable history,
      another operation, a checkpoint that is not the entry at its own sequence, or another plan. */
  predicate JournalConflicts(h: Hasher, plan: Plan, w: World)
  {
    if |w.history| == 0 then w.checkpoint.Some?
    else
      var j := w.history[|w.history| - 1];
      || !Accepted(h, w.history) || j.operationId != plan.operationId
      || j.plan.planId != plan.planId || j.plan.planSha256 != plan.planSha256
      || (w.checkpoint.Some?
          && !(1 <= w.checkpoint.value.sequence <= |w.history|
               && w.history[w.checkpoint.value.sequence - 1] == w.checkpoint.value))
  }

  /** The journal names an export that is no longer verified. */
  predicate ExportLost(plan: Plan, w: World)
  {
    && plan.requiredExport && |w.history| > 0
    && w.history[|w.history| - 1].exportId != "" && w.history[|w.history| - 1].exportId !in w.exports
  }

  /** Some journaled action's result is not what recovery accepts, or the quarantine outlived `cleaned`. */
  predicate EffectsDiffer(c: Codec, plan: Plan, w: World)
  {
    && |w.history| > 0
    && var j, acts := w.history[|w.history| - 1], Mutating(plan.actions);
    && (|| (j.stage == Cleaned && w.quarantineDir)
        || exists i :: 0 <= i < |acts| && i < |j.completedPaths|
             && !Reconciles(c, j.stage, acts[i], SlotAt(w, acts[i].path)))
  }

  /** In every world: a disabled or invalid plan, a conflicting journal, a lost export or differing effects are refused
      with nothing changed, and a cleaned operation is replayed with nothing changed. */
  lemma EntryGuards(h: Hasher, c: Codec, env: Env, plan: Plan, w: World)
    ensures var refused :=
              || !plan.policy.mutationEnabled || !PlanValid(h, plan) || JournalConflicts(h, plan, w)
              || ExportLost(plan, w) || EffectsDiffer(c, plan, w);
            && (refused ==> ApplyGC(h, c, env, plan, w) == Run(w, Refused))
            && (!refused && |w.history| > 0 && w.history[|w.history| - 1].stage == Cleaned ==>
                  ApplyGC(h, c, env, plan, w) == Run(w, Replayed))
  {
    if |w.history| > 0 {
      assert Last(w.history) == w.history[|w.history| - 1];
    }
  }

  // ------------------------------------------------------------------------ frames

  predicate RepKept(q: Rep, q': Rep)
  {
    && (q.original.Some? ==> q'.original == q.original) && (q.gz.Some? ==> q'.gz == q.gz)
    && (q.manifest.Some? ==> q'.manifest == q.manifest)
  }

  /** Every quarantined file is still there. */
  ghost predicate QuarantineKept(w: World, w': World)
  {
    forall p {:trigger SlotAt(w', p)} :: RepKept(SlotAt(w, p).quarantine, SlotAt(w', p).quarantine)
  }

  predicate Planned(acts: seq<Action>, p: Path)
  {
    exists i :: 0 <= i < |acts| && acts[i].path == p
  }

  /** Files in the source tree of artifacts without a mutating action are untouched; foreign files too; history and
      verified exports only grow. */
  ghost predicate Frame(acts: seq<Action>, w: World, w': World)
  {
    && w'.other == w.other && w.history <= w'.history && w.exports <= w'.exports
    && (forall p {:trigger SlotAt(w', p)} :: !Planned(acts, p) ==> SlotAt(w', p).source == SlotAt(w, p).source)
  }

  lemma FrameComposes(acts: seq<Action>, a: World, b: World, c: World)
    requires Frame(acts, a, b) && Frame(acts, b, c)
    ensures Frame(acts, a, c)
    ensures QuarantineKept(a, b) && QuarantineKept(b, c) ==> QuarantineKept(a, c)
  {
    forall p
      ensures !Planned(acts, p) ==> SlotAt(c, p).source == SlotAt(a, p).source
    {
      assert SlotAt(b, p) == SlotAt(b, p);
    }
    if QuarantineKept(a, b) && QuarantineKept(b, c) {
      forall p
        ensures RepKept(SlotAt(a, p).quarantine, SlotAt(c, p).quarantine)
      {
        assert RepKept(SlotAt(a, p).quarantine, SlotAt(b, p).quarantine);
      }
    }
  }

  /** The entry is in the history at its own number. */
  predicate Recorded(w: World, j: Journal)
  {
    1 <= j.sequence <= |w.history| && w.history[j.sequence - 1] == j
  }

  lemma PersistFrame(acts: seq<Action>, prior: Option<Journal>, next: Journal, w: World, f: Fuel)
    ensures var p := Persist(acts, prior, next, w, f);
            && p.world.slots == w.slots && p.world.exports == w.exports && p.world.other == w.other
            && w.history <= p.world.history
            && (p.status == Done ==> Recorded(p.world, next) && EntryValid(next, acts))
  {
    CommitFrame(next, w, f);
  }

  lemma CommitFrame(next: Journal, w: World, f: Fuel)
    ensures var p := Commit(next, w, f);
            && p.world == w.(history := p.world.history, checkpoint := p.world.checkpoint)
            && (p.world.history == w.history || p.world.history == w.history + [next])
            && (p.status == Done ==> Recorded(p.world, next))
  {
  }

  lemma SameSlotsFrame(acts: seq<Action>, w: World, w': World)
    requires w'.slots == w.slots && w'.other == w.other && w.history <= w'.history && w.exports <= w'.exports
    ensures Frame(acts, w, w') && QuarantineKept(w, w')
  {
  }

  lemma ActionFrame(c: Codec, acts: seq<Action>, k: nat, w: World, f: Fuel)
    requires k < |acts| && IsMutating(acts[k])
    ensures var r := ApplyAction(c, acts[k], w, f);
            Frame(acts, w, r.world) && QuarantineKept(w, r.world) && r.world.history == w.history
                && r.world.exports == w.exports
  {
    var a, r := acts[k], ApplyAction(c, acts[k], w, f);
    ActionEffect(c, a, w, f);
    assert Planned(acts, a.path);
    if !(r.world.slots == w.slots && r.status == Stopped) {
      var f' :| EffectOf(c, a, w, f', r);
      CompressionFramed(c, w.other, a, SlotAt(w, a.path), f');
      PruneFramed(c, w.other, a, SlotAt(w, a.path), f');
    }
    forall p
      ensures RepKept(SlotAt(w, p).quarantine, SlotAt(r.world, p).quarantine)
      ensures !Planned(acts, p) ==> SlotAt(r.world, p).source == SlotAt(w, p).source
    {
      if p != a.path {
        assert SlotAt(r.world, p) == SlotAt(w, p);
      }
    }
  }

  lemma {:induction false} RemovalFrame(acts: seq<Action>, order: seq<Removal>, w: World, f: Fuel)
    ensures var r := RemoveFiles(order, w, f);
            && r.world == w.(slots := r.world.slots)
            && forall p {:trigger SlotAt(r.world, p)} :: SlotAt(r.world, p).source == SlotAt(w, p).source
    decreases |order|
  {
    if |order| > 0 {
      var slot := SlotAt(w, order[0].path);
      var q := Without(slot.quarantine, order[0].part);
      var w1 := w.(slots := w.slots[order[0].path := slot.(quarantine := q)]);
      if q == slot.quarantine {
        RemovalFrame(acts, order[1..], w, f);
      } else if !Out(f) {
        RemovalFrame(acts, order[1..], w1, Spend(f));
        assert forall p :: SlotAt(w1, p).source == SlotAt(w, p).source;
      }
    }
  }

  // ------------------------------------------------------------- before a removal

  /** `completed` is recorded, with every mutating action and, where the plan requires one, a verified export. */
  predicate RemovalRecorded(plan: Plan, acts: seq<Action>, w: World)
  {
    exists m :: 0 <= m < |w.history|
      && w.history[m].stage == Completed && w.history[m].plan == plan
      && |w.history[m].completedPaths| == |acts|
      && (forall i :: 0 <= i < |acts| ==> w.history[m].completedPaths[i] == acts[i].path)
      && (plan.requiredExport ==> w.history[m].exportId != "" && w.history[m].exportId in w.exports)
  }

  /** A run leaves the quarantine as it was, or has the right to remove it on record. */
  ghost predicate Accounted(plan: Plan, acts: seq<Action>, w: World, r: Run)
  {
    Frame(acts, w, r.world) && (QuarantineKept(w, r.world) || RemovalRecorded(plan, acts, r.world))
  }

  lemma CompletedRecorded(plan: Plan, acts: seq<Action>, w: World, w': World, j: Journal)
    requires Recorded(w, j) && j.stage == Completed && EntryValid(j, acts) && j.plan == plan
    requires j.exportId != "" ==> j.exportId in w.exports
    requires w.history <= w'.history && w.exports <= w'.exports
    ensures RemovalRecorded(plan, acts, w')
  {
    EntryMeans(j, acts);
    assert w'.history[j.sequence - 1] == j;
  }

  lemma CleanAccounted(acts: seq<Action>, env: Env, j: Journal, w: World, f: Fuel)
    requires Recorded(w, j) && j.stage == Completed && EntryValid(j, acts)
             && (j.exportId != "" ==> j.exportId in w.exports)
    ensures Accounted(j.plan, acts, w, Clean(acts, env, j, w, f))
  {
    RemovalFrame(acts, env.removal, w, f);
    var r := Sweep(acts, env.removal, w, f);
    assert Frame(acts, w, r.world) by {
      assert forall p :: SlotAt(r.world, p) == SlotAt(RemoveFiles(env.removal, w, f).world, p);
    }
    CompletedRecorded(j.plan, acts, w, r.world, j);
    if r.status == Done {
      PersistFrame(acts, Some(j), CleanedEntry(env, j), r.world, r.fuel);
      var p := Persist(acts, Some(j), CleanedEntry(env, j), r.world, r.fuel);
      SameSlotsFrame(acts, r.world, p.world);
      FrameComposes(acts, w, r.world, p.world);
      CompletedRecorded(j.plan, acts, w, p.world, j);
    }
  }

  lemma CompleteAccounted(acts: seq<Action>, env: Env, j: Journal, w: World, f: Fuel)
    requires Recorded(w, j) && EntryValid(j, acts) && (j.exportId != "" ==> j.exportId in w.exports)
    ensures Accounted(j.plan, acts, w, Complete(acts, env, j, w, f))
  {
    if j.stage == Completed {
      CleanAccounted(acts, env, j, w, f);
    } else {
      var next := CompletedEntry(env, j);
      PersistFrame(acts, Some(j), next, w, f);
      var p := Persist(acts, Some(j), next, w, f);
      SameSlotsFrame(acts, w, p.world);
      if p.status == Done {
        CleanAccounted(acts, env, next, p.world, p.fuel);
        AccountedAfter(j.plan, acts, w, p.world, Clean(acts, env, next, p.world, p.fuel));
      }
    }
  }

  lemma AccountedAfter(plan: Plan, acts: seq<Action>, w: World, w1: World, r: Run)
    requires Frame(acts, w, w1) && QuarantineKept(w, w1) && Accounted(plan, acts, w1, r)
    ensures Accounted(plan, acts, w, r)
  {
    FrameComposes(acts, w, w1, r.world);
  }

  lemma RoundFrame(c: Codec, acts: seq<Action>, env: Env, j: Journal, w: World, f: Fuel)
    requires AllMutating(acts) && |j.completedPaths| < |acts|
    ensures var p := Round(c, acts, env, j, w, f);
            && Frame(acts, w, p.world) && QuarantineKept(w, p.world) && p.world.exports == w.exports
            && (p.status == Done ==>
                  var next := ActionEntry(env, j, acts[|j.completedPaths|]);
                  Recorded(p.world, next) && EntryValid(next, acts))
  {
    var k := |j.completedPaths|;
    ActionFrame(c, acts, k, w, f);
    var r := ApplyAction(c, acts[k], w, f);
    if r.status == Done {
      var next := ActionEntry(env, j, acts[k]);
      PersistFrame(acts, Some(j), next, r.world, r.fuel);
      var p := Persist(acts, Some(j), next, r.world, r.fuel);
      SameSlotsFrame(acts, r.world, p.world);
      FrameComposes(acts, w, r.world, p.world);
    }
  }

  lemma CancelAccounted(acts: seq<Action>, env: Env, j: Journal, w: World, f: Fuel)
    ensures Accounted(j.plan, acts, w, Cancel(acts, env, j, w, f))
  {
    PersistFrame(acts, Some(j), CancelEntry(env, j), w, f);
    SameSlotsFrame(acts, w, Cancel(acts, env, j, w, f).world);
  }

  lemma {:induction false} LoopAccounted(c: Codec, acts: seq<Action>, env: Env, j: Journal, w: World, f: Fuel)
    requires AllMutating(acts) && Recorded(w, j) && EntryValid(j, acts)
             && (j.exportId != "" ==> j.exportId in w.exports)
    ensures Accounted(j.plan, acts, w, RunActions(c, acts, env, j, w, f))
    decreases |acts| - |j.completedPaths|
  {
    var k := |j.completedPaths|;
    SameSlotsFrame(acts, w, w);
    if k >= |acts| {
      CompleteAccounted(acts, env, j, w, f);
    } else if env.ctxDone(j.sequence) {
      CancelAccounted(acts, env, j, w, f);
    } else {
      RoundFrame(c, acts, env, j, w, f);
      var p := Round(c, acts, env, j, w, f);
      if p.status == Done {
        var next := ActionEntry(env, j, acts[k]);
        LoopAccounted(c, acts, env, next, p.world, p.fuel);
        AccountedAfter(j.plan, acts, w, p.world, RunActions(c, acts, env, next, p.world, p.fuel));
      }
    }
  }

  lemma RunAccounted(c: Codec, acts: seq<Action>, env: Env, j: Journal, w: World, f: Fuel)
    requires AllMutating(acts) && Recorded(w, j) && EntryValid(j, acts)
             && (j.exportId != "" ==> j.exportId in w.exports)
    ensures Accounted(j.plan, acts, w, RunFrom(c, acts, env, j, w, f))
  {
    SameSlotsFrame(acts, w, w);
    if !(j.plan.requiredExport && j.exportId == "") {
      LoopAccounted(c, acts, env, j, w, f);
    } else if env.ctxDone(j.sequence) {
      CancelAccounted(acts, env, j, w, f);
    } else if !Out(f) {
      var next, w1 := ExportEntry(env, j), w.(exports := w.exports + {env.exportId});
      PersistFrame(acts, Some(j), next, w1, Spend(f));
      var p := Persist(acts, Some(j), next, w1, Spend(f));
      SameSlotsFrame(acts, w, p.world);
      if p.status == Done {
        LoopAccounted(c, acts, env, next, p.world, p.fuel);
        AccountedAfter(j.plan, acts, w, p.world, RunActions(c, acts, env, next, p.world, p.fuel));
      }
    }
  }

  /** In every world and however it ends, an invocation leaves artifacts without a mutating action alone, never rewrites
      history, and lets no quarantined file disappear unless `completed` is on record with every mutating action and,
      where the plan requires an export, one that is verified in this very world. */
  lemma ApplyAccounted(h: Hasher, c: Codec, env: Env, plan: Plan, w: World)
    requires PlanIdentifies(h)
    ensures Accounted(plan, Mutating(plan.actions), w, ApplyGC(h, c, env, plan, w))
  {
    var acts := Mutating(plan.actions);
    SameSlotsFrame(acts, w, w);
    MutatingIsMutating(plan.actions);
    if PlanValid(h, plan) && plan.policy.mutationEnabled {
      match Load(h, w, plan.operationId)
      case Corrupt =>
      case Absent =>
        AdmittedAccounted(c, env, plan, acts, w);
      case Found(j) =>
        FoundAccounted(h, c, env, plan, acts, w, j);
    }
  }

  lemma FoundAccounted(h: Hasher, c: Codec, env: Env, plan: Plan, acts: seq<Action>, w: World, j: Journal)
    requires PlanIdentifies(h) && PlanValid(h, plan) && acts == Mutating(plan.actions) && AllMutating(acts)
    requires Load(h, w, plan.operationId) == Found(j)
    ensures && j.plan.planId == plan.planId && j.plan.planSha256 == plan.planSha256
            && !(plan.requiredExport && j.exportId != "" && j.exportId !in w.exports) ==>
              Accounted(plan, acts, w, RunFrom(c, acts, env, j, w, env.fuel))
  {
    LoadedEntry(h, w, plan.operationId, j);
    if j.plan.planSha256 == plan.planSha256 {
      SamePlan(h, j.plan, plan);
      if !(plan.requiredExport && j.exportId != "" && j.exportId !in w.exports) {
        ResumedAccounted(c, env, plan, acts, w, j);
      }
    }
  }

  lemma AdmittedAccounted(c: Codec, env: Env, plan: Plan, acts: seq<Action>, w: World)
    requires AllMutating(acts)
    ensures var j := Admission(env, plan);
            var p := Persist(acts, None, j, w, env.fuel);
            && Frame(acts, w, p.world) && QuarantineKept(w, p.world)
            && (p.status == Done ==> Accounted(plan, acts, w, RunFrom(c, acts, env, j, p.world, p.fuel)))
  {
    var j := Admission(env, plan);
    PersistFrame(acts, None, j, w, env.fuel);
    var p := Persist(acts, None, j, w, env.fuel);
    SameSlotsFrame(acts, w, p.world);
    if p.status == Done {
      RunAccounted(c, acts, env, j, p.world, p.fuel);
      AccountedAfter(plan, acts, w, p.world, RunFrom(c, acts, env, j, p.world, p.fuel));
    }
  }

  lemma ResumedAccounted(c: Codec, env: Env, plan: Plan, acts: seq<Action>, w: World, j: Journal)
    requires AllMutating(acts) && Recorded(w, j) && EntryValid(j, acts) && j.plan == plan
    requires plan.requiredExport && j.exportId != "" ==> j.exportId in w.exports
    ensures Accounted(plan, acts, w, RunFrom(c, acts, env, j, w, env.fuel))
  {
    EntryMeans(j, acts);
    RunAccounted(c, acts, env, j, w, env.fuel);
  }

  lemma LoadedEntry(h: Hasher, w: World, operationId: string, j: Journal)
    requires Load(h, w, operationId) == Found(j)
    ensures Recorded(w, j) && StateValid(h, j)
  {
    AcceptedIsChained(h, w.history);
    ChainedEntry(w.history[0].plan, ActionsOf(w.history[0]), w.history, |w.history| - 1);
  }

  // ---------------------------------------------------------- before any action

  /** Nothing entered or left any quarantine. */
  ghost predicate SameQuarantine(w: World, w': World)
  {
    && w'.quarantineDir == w.quarantineDir
    && forall p {:trigger SlotAt(w', p)} :: SlotAt(w', p).quarantine == SlotAt(w, p).quarantine
  }

  lemma CompressionRound(c: Codec, acts: seq<Action>, env: Env, j: Journal, w: World, f: Fuel)
    requires |j.completedPaths| < |acts| && acts[|j.completedPaths|].kind == Compress
    ensures var p := Round(c, acts, env, j, w, f); SameQuarantine(w, p.world) && p.world.exports == w.exports
  {
    var k := |j.completedPaths|;
    CompressionFramed(c, w.other, acts[k], SlotAt(w, acts[k].path), f);
    var r := ApplyAction(c, acts[k], w, f);
    assert SameQuarantine(w, r.world);
    CommitFrame(ActionEntry(env, j, acts[k]), r.world, r.fuel);
  }

  /** Whatever the journal and the disk: while a prune is outstanding that needs an export which is not there, the loop
      neither finishes nor moves anything into or out of quarantine. */
  lemma {:induction false} LoopNeedsExport(c: Codec, acts: seq<Action>, env: Env, j: Journal, w: World, f: Fuel, m: nat)
    requires AllMutating(acts) && |j.completedPaths| <= m < |acts| && acts[m].kind == Prune
    requires j.plan.requiredExport && j.exportId !in w.exports
    ensures var r := RunActions(c, acts, env, j, w, f); r.verdict != Finished && SameQuarantine(w, r.world)
    decreases |acts| - |j.completedPaths|
  {
    var k := |j.completedPaths|;
    if env.ctxDone(j.sequence) {
      CommitFrame(CancelEntry(env, j), w, f);
    } else if acts[k].kind == Compress {
      CompressionRound(c, acts, env, j, w, f);
      var p := Round(c, acts, env, j, w, f);
      if p.status == Done {
        var next := ActionEntry(env, j, acts[k]);
        LoopNeedsExport(c, acts, env, next, p.world, p.fuel, m);
        assert SameQuarantine(p.world, RunActions(c, acts, env, next, p.world, p.fuel).world);
      }
    }
  }

  /** A cancelled context stops the loop before its next action: no artifact changes, and only a cancellation is
      recorded. */
  lemma CancelHonoured(c: Codec, acts: seq<Action>, env: Env, j: Journal, w: World, f: Fuel)
    requires |j.completedPaths| < |acts| && env.ctxDone(j.sequence)
    ensures var r := RunFrom(c, acts, env, j, w, f);
            && r.world.slots == w.slots && r.world.quarantineDir == w.quarantineDir && r.world.exports == w.exports
            && r.verdict in {CancelledRun, Interrupted, Refused}
            && (r.verdict == CancelledRun ==>
                  exists e :: Recorded(r.world, e) && e.stage == Cancelled && e.cancelled
                    && e.completedPaths == j.completedPaths && e.sequence == j.sequence + 1)
  {
    CommitFrame(CancelEntry(env, j), w, f);
  }
}
