/** Garbage collection over whole runs: any number of invocations of ApplyGC, each stopping between any two of
    its atomic steps, cancelled, or refused, and each starting from what the previous ones left on disk. */
module RetentionRuns {
  import opened Base
  import opened RetentionPlan
  import opened RetentionJournal
  import opened RetentionDisk
  import opened RetentionApply
  import opened RetentionInvariant
  import opened RetentionFinish

  /** A valid plan and a repository its operation has not touched; nothing is assumed of the artifacts. */
  predicate Admissible(h: Hasher, plan: Plan, start: World)
  {
    PlanValid(h, plan) && Blank(start)
  }

  lemma PlanShape(h: Hasher, plan: Plan)
    requires PlanValid(h, plan)
    ensures var acts := Mutating(plan.actions);
            AllMutating(acts) && Distinct(acts) && (plan.requiredExport ==> |acts| > 0)
  {
    var acts := Mutating(plan.actions);
    MutatingIsMutating(plan.actions);
    MutatingOrdered(plan.actions);
    if plan.requiredExport {
      ExportNeedsActions(h, plan);
    }
    forall i, j | 0 <= i < j < |acts|
      ensures acts[i].path != acts[j].path
    {
      assert Paths(acts)[i] == acts[i].path && Paths(acts)[j] == acts[j].path;
      StrictlyOrderedApart(Paths(acts), i, j);
    }
  }

  // ------------------------------------------------------------- the journal alone

  /** The guard that asks nothing of the artifacts. */
  function Unguarded(c: Codec, plan: Plan, start: World): Guard
  {
    Guard(c, plan, Mutating(plan.actions), start, (i, k, stage, slot) => true)
  }

  lemma UnguardedOk(h: Hasher, c: Codec, plan: Plan, start: World)
    requires Admissible(h, plan, start)
    ensures GuardOk(Unguarded(c, plan, start))
  {
    PlanShape(h, plan);
  }

  /** On any disk the checkpoint refines the history in every reachable world: it equals the entry at its own
      sequence number and never leads; loading always succeeds with the last entry, and that entry can still be
      driven to `cleaned` by legal entries. */
  lemma CheckpointRefines(h: Hasher, c: Codec, plan: Plan, start: World, envs: seq<Env>)
    requires Admissible(h, plan, start)
    ensures var w := Runs(h, c, envs, plan, start);
            && Accepted(h, w.history) && CheckpointMatches(w)
            && Load(h, w, plan.operationId) == (if |w.history| == 0 then Absent else Found(Last(w.history)))
            && (|w.history| > 0 ==> CanFinish(Last(w.history), Mutating(plan.actions)))
  {
    var g, w := Unguarded(c, plan, start), Runs(h, c, envs, plan, start);
    UnguardedOk(h, c, plan, start);
    RunsKeep(h, g, envs);
    LoadFinds(h, g, w);
    ChainedIsAccepted(h, plan, w.history);
    if |w.history| > 0 {
      ChainedEntry(plan, g.acts, w.history, |w.history| - 1);
      DeadEndsExactly(h, Last(w.history));
    }
  }

  /** A history of `n` entries, none of which made it to the checkpoint. */
  predicate Lagging(w: World, n: nat)
  {
    && |w.history| == n > 0 && w.checkpoint == None
    && var j := Last(w.history);
    && (j.stage == Admitted || j.stage == Cancelled) && j.completedPaths == [] && j.exportId == "" && j.updatedAt == 1
  }

  predicate StopsEarly(env: Env, n: nat)
  {
    env.fuel == Limited(1) && env.ctxDone(n) && env.clock(n + 1) == 1
  }

  lemma LagBegins(h: Hasher, c: Codec, env: Env, plan: Plan, start: World)
    requires Admissible(h, plan, start) && plan.policy.mutationEnabled && StopsEarly(env, 0)
    ensures Lagging(ApplyGC(h, c, env, plan, start).world, 1)
  {
    var j := Admission(env, plan);
    AdmissionLegal(Mutating(plan.actions), env, plan);
    assert Commit(j, start, env.fuel) == Point(start.(history := [j]), Limited(0), Stopped);
  }

  lemma LagGrows(h: Hasher, c: Codec, env: Env, plan: Plan, start: World, w: World, n: nat)
    requires Admissible(h, plan, start) && plan.policy.mutationEnabled && |Mutating(plan.actions)| > 0
    requires Inv(Unguarded(c, plan, start), w) && Lagging(w, n) && StopsEarly(env, n)
    ensures Lagging(ApplyGC(h, c, env, plan, w).world, n + 1)
  {
    var g := Unguarded(c, plan, start);
    LoadFinds(h, g, w);
    AtEntry(g, w, Last(w.history));
    LagStep(c, g.acts, env, w, Last(w.history));
  }

  /** A cancelled process that stops after its immutable write. */
  lemma LagStep(c: Codec, acts: seq<Action>, env: Env, w: World, j: Journal)
    requires |acts| > 0 && EntryValid(j, acts) && j.sequence == |w.history|
    requires (j.stage == Admitted || j.stage == Cancelled) && j.completedPaths == [] && j.exportId == ""
             && j.updatedAt == 1
    requires env.ctxDone(j.sequence) && env.clock(j.sequence + 1) == 1
    ensures RunFrom(c, acts, env, j, w, Limited(1)).world == w.(history := w.history + [CancelEntry(env, j)])
  {
    assert LegalNext(acts, Some(j), CancelEntry(env, j));
  }

  /** The checkpoint may lag by any amount: processes that each stop right after an immutable write leave a
      history of any length with no checkpoint at all, and it still loads. */
  lemma {:induction false} LagsWithoutBound(h: Hasher, c: Codec, plan: Plan, start: World, envs: seq<Env>)
    requires Admissible(h, plan, start) && plan.policy.mutationEnabled && |Mutating(plan.actions)| > 0 && |envs| > 0
    requires forall i :: 0 <= i < |envs| ==> StopsEarly(envs[i], i)
    ensures var w := Runs(h, c, envs, plan, start);
            Lagging(w, |envs|) && Load(h, w, plan.operationId) == Found(Last(w.history))
  {
    var n, g := |envs| - 1, Unguarded(c, plan, start);
    UnguardedOk(h, c, plan, start);
    assert StopsEarly(envs[n], n);
    if n == 0 {
      assert Runs(h, c, envs[..n], plan, start) == start;
      LagBegins(h, c, envs[n], plan, start);
    } else {
      LagsWithoutBound(h, c, plan, start, envs[..n]);
      RunsKeep(h, g, envs[..n]);
      LagGrows(h, c, envs[n], plan, start, Runs(h, c, envs[..n], plan, start), n);
    }
    RunsKeep(h, g, envs);
    LoadFinds(h, g, Runs(h, c, envs, plan, start));
  }

  // ------------------------------------------------------------------- no loss

  /** The bytes can be rebuilt from the artifact's files, or from a file outside the plan that no step touches. */
  predicate Rebuildable(c: Codec, other: map<Path, Bytes>, s: Slot, b: Bytes)
  {
    Recoverable(c, s, b) || exists p :: p in other && c.decompress(other[p]) == Some(b)
  }

  /** Artifact bytes as the planner met them. For a compression they are the original's, and the planned compressed
      identity is that of their compressed form. */
  predicate Carries(c: Codec, other: map<Path, Bytes>, a: Action, s: Slot, b: Bytes)
  {
    if a.kind == Compress then
      && a.source == Id(c, b) && a.compressed == Some(Id(c, c.compress(b)))
      && HoldsInSource(c, s, b)
    else Rebuildable(c, other, s, b)
  }

  predicate HoldsInSource(c: Codec, s: Slot, b: Bytes)
  {
    RepHolds(c, s.source, b) && (s.source.original.Some? ==> s.source.original.value.bytes == b)
  }

  /** A compression keeps the bytes in the source tree at every stopping point, whatever lies beside them and whether
      or not it succeeds. */
  lemma CompressionHolds(c: Codec, other: map<Path, Bytes>, a: Action, s: Slot, b: Bytes, f: Fuel)
    requires Faithful(c) && CollisionFree(c) && a.kind == Compress && Carries(c, other, a, s, b)
    ensures Carries(c, other, a, ApplyCompression(c, other, a, s, f).slot, b)
  {
    assert c.decompress(c.compress(b)) == Some(b);
    var r := s.source;
    if r.original.Some? && r.gz.Some? && Id(c, r.gz.value) == Id(c, c.compress(b)) {
      assert r.gz.value == c.compress(b);
    }
  }

  /** A prune only moves files. */
  lemma PruneHolds(c: Codec, other: map<Path, Bytes>, a: Action, s: Slot, b: Bytes, f: Fuel)
    requires Rebuildable(c, other, s, b)
    ensures Rebuildable(c, other, ApplyPrune(c, other, a, s, f).slot, b)
  {
  }

  /** What is guarded: the bytes, until a pruned artifact's quarantine may be removed. */
  function StockGuard(c: Codec, plan: Plan, start: World, stock: seq<Bytes>): Guard
  {
    var acts := Mutating(plan.actions);
    Guard(c, plan, acts, start, (i: nat, k: nat, stage: Stage, slot: Slot) =>
      i < |acts| && i < |stock| ==>
        (acts[i].kind == Prune && !Working(stage)) || Carries(c, start.other, acts[i], slot, stock[i]))
  }

  /** For every planned artifact, the bytes it carries. */
  predicate Stocked(c: Codec, plan: Plan, start: World, stock: seq<Bytes>)
  {
    var acts := Mutating(plan.actions);
    |stock| == |acts|
    && forall i :: 0 <= i < |acts| ==> Carries(c, start.other, acts[i], SlotAt(start, acts[i].path), stock[i])
  }

  lemma StockGuardOk(h: Hasher, c: Codec, plan: Plan, start: World, stock: seq<Bytes>)
    requires Faithful(c) && CollisionFree(c) && Admissible(h, plan, start) && Stocked(c, plan, start, stock)
    ensures GuardOk(StockGuard(c, plan, start, stock))
  {
    PlanShape(h, plan);
    var g := StockGuard(c, plan, start, stock);
    forall k: nat, stage, slot, f | k < |g.acts|
      ensures ActionSafe(g, k, stage, slot, f)
    {
      StockActionSafe(g, stock, k, stage, slot, f);
    }
    forall i: nat, slot, part | i < |g.acts|
      ensures RemovalSafe(g, i, slot, part)
    {
    }
  }

  lemma StockActionSafe(g: Guard, stock: seq<Bytes>, k: nat, stage: Stage, slot: Slot, f: Fuel)
    requires Faithful(g.codec) && CollisionFree(g.codec) && AllMutating(g.acts)
    requires g == StockGuard(g.codec, g.plan, g.start, stock) && k < |g.acts| == |stock|
    ensures ActionSafe(g, k, stage, slot, f)
  {
    if Working(stage) && Carries(g.codec, g.start.other, g.acts[k], slot, stock[k]) {
      if g.acts[k].kind == Compress {
        CompressionHolds(g.codec, g.start.other, g.acts[k], slot, stock[k], f);
      } else {
        PruneHolds(g.codec, g.start.other, g.acts[k], slot, stock[k], f);
      }
    }
  }

  /** The history names an export that was verified before the operation was recorded as complete. */
  predicate ExportedBefore(w: World)
  {
    exists m, n :: 0 <= m < n < |w.history|
      && w.history[m].stage == ExportVerified && w.history[n].stage == Completed
      && w.history[m].exportId == w.history[n].exportId && w.history[n].exportId in w.exports
  }

  lemma {:induction false} ExportRecorded(plan: Plan, acts: seq<Action>, hist: seq<Journal>) returns (m: nat)
    requires Chained(plan, acts, hist) && |hist| > 0 && Last(hist).exportId != ""
    ensures m < |hist| && hist[m].stage == ExportVerified && hist[m].exportId == Last(hist).exportId
    decreases |hist|
  {
    var n := |hist| - 1;
    if n > 0 && hist[n].stage != ExportVerified {
      assert hist[..n][n - 1] == hist[n - 1];
      StepPrecedes(hist[n - 1], hist[n], acts);
      m := ExportRecorded(plan, acts, hist[..n]);
    } else {
      m := n;
    }
  }

  lemma CompletedEntryIndex(plan: Plan, acts: seq<Action>, hist: seq<Journal>) returns (n: nat)
    requires Chained(plan, acts, hist) && |hist| > 0 && !Working(Last(hist).stage)
    ensures n < |hist| && hist[n].stage == Completed && hist[n].exportId == Last(hist).exportId
    ensures Last(hist).completedPaths == Paths(acts)
    ensures plan.requiredExport ==> Last(hist).exportId != ""
  {
    n := |hist| - 1;
    ChainedEntry(plan, acts, hist, n);
    if hist[n].stage == Cleaned {
      assert Linked(plan, acts, hist[..n], hist[n]);
      n := n - 1;
    }
  }

  lemma ExportPrecedes(g: Guard, w: World)
    requires Inv(g, w) && |w.history| > 0 && !Working(Last(w.history).stage) && g.plan.requiredExport
    ensures ExportedBefore(w)
  {
    var n := CompletedEntryIndex(g.plan, g.acts, w.history);
    var m := ExportRecorded(g.plan, g.acts, w.history);
    if n < m {
      ChainShape(g.plan, g.acts, w.history, n, m);
    }
  }

  /** Removal may have begun: the history reached `completed` with every mutating action listed and, where the plan
      requires an export, one verified at an earlier sequence number. */
  predicate RemovalAllowed(plan: Plan, w: World)
  {
    && |w.history| > 0 && (Last(w.history).stage == Completed || Last(w.history).stage == Cleaned)
    && Last(w.history).completedPaths == Paths(Mutating(plan.actions))
    && (plan.requiredExport ==> ExportedBefore(w))
  }

  /** No loss, on any disk. Whatever the state of the artifacts and wherever invocations stop, fail or are refused, the
      bytes of every planned artifact can be rebuilt, unless it is a pruned one and removal is allowed. */
  lemma NoLoss(h: Hasher, c: Codec, plan: Plan, start: World, stock: seq<Bytes>, envs: seq<Env>, i: nat)
    requires Faithful(c) && CollisionFree(c) && Admissible(h, plan, start) && Stocked(c, plan, start, stock)
             && i < |stock|
    ensures var a, w := Mutating(plan.actions)[i], Runs(h, c, envs, plan, start);
            Rebuildable(c, w.other, SlotAt(w, a.path), stock[i]) || (a.kind == Prune && RemovalAllowed(plan, w))
  {
    var g, w := StockGuard(c, plan, start, stock), Runs(h, c, envs, plan, start);
    StockGuardOk(h, c, plan, start, stock);
    RunsKeep(h, g, envs);
    assert g.acts[i] == Mutating(plan.actions)[i];
    if |w.history| > 0 && !Working(Last(w.history).stage) {
      var n := CompletedEntryIndex(plan, g.acts, w.history);
      if plan.requiredExport {
        ExportPrecedes(g, w);
      }
    }
  }

  // ------------------------------------------------------------- sound artifacts

  /** An operation whose every artifact is sound, with what each is made of. */
  datatype Setup = Setup(codec: Codec, plan: Plan, acts: seq<Action>, origins: seq<Origin>, start: World)

  predicate Planned(h: Hasher, s: Setup)
  {
    && Admissible(h, s.plan, s.start) && s.plan.policy.mutationEnabled && s.acts == Mutating(s.plan.actions)
    && |s.origins| == |s.acts|
    && (forall i :: 0 <= i < |s.acts| ==> Sound(s.codec, s.acts[i], SlotAt(s.start, s.acts[i].path), s.origins[i]))
  }

  /** Action `i` when `k` actions are journaled: finished, in progress, or untouched. */
  predicate SlotFits(a: Action, o: Origin, untouched: Slot, i: nat, k: nat, stage: Stage, slot: Slot)
  {
    if i < k then Applied(a, o, slot, stage)
    else if i == k then InProgress(a, o, slot)
    else slot == untouched
  }

  function SoundGuard(s: Setup): Guard
  {
    Guard(s.codec, s.plan, s.acts, s.start, (i: nat, k: nat, stage: Stage, slot: Slot) =>
      i < |s.acts| && i < |s.origins| ==>
        SlotFits(s.acts[i], s.origins[i], SlotAt(s.start, s.acts[i].path), i, k, stage, slot))
  }

  lemma SoundAction(s: Setup, k: nat, stage: Stage, slot: Slot, f: Fuel)
    requires AllMutating(s.acts) && k < |s.acts| == |s.origins| && OriginOf(s.codec, s.acts[k], s.origins[k])
    ensures ActionSafe(SoundGuard(s), k, stage, slot, f)
  {
    var a, o := s.acts[k], s.origins[k];
    if InProgress(a, o, slot) {
      if a.kind == Compress {
        CompressionResumes(s.codec, s.start.other, a, o, slot, f);
      } else {
        PruneResumes(s.codec, s.start.other, a, o, slot, f);
      }
    }
  }

  lemma LeftoverShrinks(o: Origin, q: Rep, part: Part)
    requires Leftover(o, q)
    ensures Leftover(o, Without(q, part))
  {
  }

  lemma SoundRemoval(s: Setup, i: nat, slot: Slot, part: Part)
    requires i < |s.acts| == |s.origins| && IsMutating(s.acts[i])
    ensures RemovalSafe(SoundGuard(s), i, slot, part)
  {
    if s.acts[i].kind == Prune && Leftover(s.origins[i], slot.quarantine) {
      LeftoverShrinks(s.origins[i], slot.quarantine, part);
    }
  }

  lemma SoundHere(h: Hasher, s: Setup, i: nat)
    requires Planned(h, s) && i < |s.acts|
    ensures var slot := SlotAt(s.start, s.acts[i].path);
            && IsMutating(s.acts[i]) && OriginOf(s.codec, s.acts[i], s.origins[i])
            && InProgress(s.acts[i], s.origins[i], slot)
  {
    assert Sound(s.codec, s.acts[i], SlotAt(s.start, s.acts[i].path), s.origins[i]);
  }

  lemma SoundGuardOk(h: Hasher, s: Setup)
    requires Planned(h, s)
    ensures GuardOk(SoundGuard(s))
  {
    PlanShape(h, s.plan);
    var g := SoundGuard(s);
    forall k: nat, stage, slot, f | k < |g.acts|
      ensures ActionSafe(g, k, stage, slot, f)
    {
      SoundHere(h, s, k);
      SoundAction(s, k, stage, slot, f);
    }
    forall i: nat, k: nat, stage, slot | i < |g.acts| && k < |g.acts|
      ensures OtherSafe(g, i, k, stage, slot)
    {
      SoundHere(h, s, i);
    }
    forall i: nat, slot, part | i < |g.acts|
      ensures RemovalSafe(g, i, slot, part)
    {
      SoundRemoval(s, i, slot, part);
    }
    SoundStart(h, s);
  }

  lemma SoundStart(h: Hasher, s: Setup)
    requires Planned(h, s)
    ensures SlotsKept(SoundGuard(s), s.start.slots, 0, Admitted)
  {
    forall i | 0 <= i < |s.acts|
      ensures SoundGuard(s).keep(i, 0, Admitted, SlotIn(s.start.slots, s.acts[i].path))
    {
      SoundHere(h, s, i);
    }
  }

  predicate Reachable(s: Setup, w: World)
  {
    Inv(SoundGuard(s), w)
  }

  lemma FitsHere(h: Hasher, s: Setup, w: World, i: nat)
    requires Planned(h, s) && Reachable(s, w) && |w.history| > 0 && i < |s.acts|
    ensures SlotFits(s.acts[i], s.origins[i], SlotAt(s.start, s.acts[i].path), i, |Last(w.history).completedPaths|,
                     Last(w.history).stage, SlotAt(w, s.acts[i].path))
    ensures IsMutating(s.acts[i]) && OriginOf(s.codec, s.acts[i], s.origins[i])
  {
    SoundHere(h, s, i);
    assert s.acts[i] == SoundGuard(s).acts[i];
  }

  // ------------------------------------------------------------------ resumption

  predicate AllWhole(acts: seq<Action>, w: World)
  {
    forall i :: 0 <= i < |acts| ==> WholeOrGone(acts[i], SlotAt(w, acts[i].path))
  }

  /** No pruned artifact is torn: once removal may have begun, its pair is whole or wholly gone. */
  predicate Intact(acts: seq<Action>, w: World)
  {
    |w.history| > 0 && Last(w.history).stage == Completed ==> AllWhole(acts, w)
  }

  lemma ReconcilesHere(h: Hasher, s: Setup, w: World, i: nat)
    requires Planned(h, s) && Reachable(s, w) && |w.history| > 0 && i < |s.acts| && i < |Last(w.history).completedPaths|
    ensures var stage, slot := Last(w.history).stage, SlotAt(w, s.acts[i].path);
            && (Reconciles(s.codec, stage, s.acts[i], slot) <==> WholeOrGone(s.acts[i], slot))
            && (stage != Completed ==> WholeOrGone(s.acts[i], slot))
  {
    FitsHere(h, s, w, i);
    AppliedReconciles(s.codec, s.acts[i], s.origins[i], SlotAt(w, s.acts[i].path), Last(w.history).stage);
  }

  /** Over sound artifacts the recovery check accepts exactly the worlds without a torn pair. */
  lemma ReconcilesExactly(h: Hasher, s: Setup, w: World)
    requires Planned(h, s) && Reachable(s, w) && |w.history| > 0
    ensures AllReconcile(s.codec, s.acts, w, Last(w.history)) <==> Intact(s.acts, w)
  {
    var j := Last(w.history);
    AtEntry(SoundGuard(s), w, j);
    forall i | 0 <= i < |j.completedPaths|
      ensures Reconciles(s.codec, j.stage, s.acts[i], SlotAt(w, s.acts[i].path)) <==>
              WholeOrGone(s.acts[i], SlotAt(w, s.acts[i].path))
      ensures j.stage != Completed ==> WholeOrGone(s.acts[i], SlotAt(w, s.acts[i].path))
    {
      ReconcilesHere(h, s, w, i);
    }
  }

  /** Every outstanding action over a sound artifact succeeds from where it was stopped. */
  lemma SoundRest(h: Hasher, s: Setup, w: World, k: nat)
    requires Planned(h, s) && w.other == s.start.other && SlotsKept(SoundGuard(s), w.slots, k, Admitted)
    ensures RestDone(SoundGuard(s), w, k)
  {
    forall i | k <= i < |s.acts|
      ensures ActionDone(s.codec, w.other, s.acts[i], SlotAt(w, s.acts[i].path))
    {
      SoundHere(h, s, i);
      assert s.acts[i] == SoundGuard(s).acts[i];
      var slot := SlotAt(w, s.acts[i].path);
      if s.acts[i].kind == Compress {
        CompressionResumes(s.codec, w.other, s.acts[i], s.origins[i], slot, Unlimited);
      } else {
        PruneResumes(s.codec, w.other, s.acts[i], s.origins[i], slot, Unlimited);
      }
    }
  }

  lemma SoundFinishable(h: Hasher, s: Setup, w: World)
    requires Planned(h, s) && Reachable(s, w)
    ensures Finishable(SoundGuard(s), w) <==> Intact(s.acts, w)
  {
    var g := SoundGuard(s);
    SoundGuardOk(h, s);
    if |w.history| == 0 {
      SoundRest(h, s, w, 0);
    } else {
      var j := Last(w.history);
      ReconcilesExactly(h, s, w);
      AtEntry(g, w, j);
      if Working(j.stage) {
        StageChanges(g, w.slots, |j.completedPaths|, j.stage, Admitted);
        SoundRest(h, s, w, |j.completedPaths|);
      }
    }
  }

  /** The planned outcome: every compressed artifact is its gz pair alone, every pruned one is gone. */
  predicate Final(s: Setup, w: World)
    requires |s.origins| == |s.acts|
  {
    && |w.history| > 0 && Last(w.history).stage == Cleaned && !w.quarantineDir
    && forall i :: 0 <= i < |s.acts| ==>
         SlotAt(w, s.acts[i].path)
         == if s.acts[i].kind == Compress then Slot(PairOf(s.origins[i]), EMPTY) else Slot(EMPTY, EMPTY)
  }

  lemma CleanedIsFinal(h: Hasher, s: Setup, w: World)
    requires Planned(h, s) && Reachable(s, w) && |w.history| > 0 && Last(w.history).stage == Cleaned
    ensures Final(s, w)
  {
    AtEntry(SoundGuard(s), w, Last(w.history));
    forall i | 0 <= i < |s.acts|
      ensures SlotAt(w, s.acts[i].path)
           == if s.acts[i].kind == Compress then Slot(PairOf(s.origins[i]), EMPTY) else Slot(EMPTY, EMPTY)
    {
      FitsHere(h, s, w, i);
    }
  }

  lemma SoundRuns(h: Hasher, s: Setup, envs: seq<Env>)
    requires Planned(h, s)
    ensures Reachable(s, Runs(h, s.codec, envs, s.plan, s.start))
  {
    SoundGuardOk(h, s);
    RunsKeep(h, SoundGuard(s), envs);
  }

  /** In every reachable world of an admitted operation the journaled prefix of actions passes the recovery check
      unless a pruned pair is torn, the next action is in a resumable intermediate configuration, and every later
      one is untouched. */
  lemma Configuration(h: Hasher, s: Setup, envs: seq<Env>, i: nat)
    requires Planned(h, s) && i < |s.acts| && |Runs(h, s.codec, envs, s.plan, s.start).history| > 0
    ensures var w := Runs(h, s.codec, envs, s.plan, s.start);
            var j, slot := Last(w.history), SlotAt(w, s.acts[i].path);
            if i < |j.completedPaths| then Reconciles(s.codec, j.stage, s.acts[i], slot) <==>
                WholeOrGone(s.acts[i], slot)
            else if i == |j.completedPaths| then InProgress(s.acts[i], s.origins[i], slot)
            else slot == SlotAt(s.start, s.acts[i].path)
  {
    var w := Runs(h, s.codec, envs, s.plan, s.start);
    SoundRuns(h, s, envs);
    FitsHere(h, s, w, i);
    if i < |Last(w.history).completedPaths| {
      ReconcilesHere(h, s, w, i);
    }
  }

  predicate Succeeds(r: Run)
  {
    r.verdict == Finished || r.verdict == Replayed
  }

  lemma SoundKeeps(h: Hasher, s: Setup, env: Env, w: World)
    requires Planned(h, s) && Reachable(s, w)
    ensures var r := ApplyGC(h, s.codec, env, s.plan, w);
            Reachable(s, r.world) && (Succeeds(r) ==> Final(s, r.world))
  {
    var g := SoundGuard(s);
    SoundGuardOk(h, s);
    ApplyKeeps(h, g, env, w);
    var r := ApplyGC(h, s.codec, env, s.plan, w);
    if Succeeds(r) {
      if r.verdict == Replayed {
        NeverReplaysUnlessCleaned(h, g, env, w);
      }
      CleanedIsFinal(h, s, r.world);
    }
  }

  lemma SoundExactly(h: Hasher, s: Setup, env: Env, w: World)
    requires Planned(h, s) && Reachable(s, w) && Uninterrupted(s.acts, env, w)
    ensures Succeeds(ApplyGC(h, s.codec, env, s.plan, w)) <==> Intact(s.acts, w)
  {
    SoundGuardOk(h, s);
    SoundFinishable(h, s, w);
    FinishesExactly(h, SoundGuard(s), env, w);
  }

  lemma SoundTorn(h: Hasher, s: Setup, env: Env, w: World)
    requires Planned(h, s) && Reachable(s, w) && !Intact(s.acts, w)
    ensures ApplyGC(h, s.codec, env, s.plan, w) == Run(w, Refused)
  {
    ReconcilesExactly(h, s, w);
    UnreconciledRefused(h, SoundGuard(s), env, w);
  }

  lemma NeverReplaysUnlessCleaned(h: Hasher, g: Guard, env: Env, w: World)
    requires PlanValid(h, g.plan) && g.acts == Mutating(g.plan.actions) && Blank(g.start) && Inv(g, w)
    requires ApplyGC(h, g.codec, env, g.plan, w).verdict == Replayed
    ensures ApplyGC(h, g.codec, env, g.plan, w).world == w && |w.history| > 0 && Last(w.history).stage == Cleaned
  {
    LoadFinds(h, g, w);
    if |w.history| == 0 {
      var j := Admission(env, g.plan);
      var p := Persist(g.acts, None, j, w, env.fuel);
      NeverReplays(g.codec, g.acts, env, j, p.world, p.fuel);
    } else {
      NeverReplays(g.codec, g.acts, env, Last(w.history), w, env.fuel);
    }
  }

  lemma NeverReplays(c: Codec, acts: seq<Action>, env: Env, j: Journal, w: World, f: Fuel)
    ensures RunFrom(c, acts, env, j, w, f).verdict != Replayed
  {
    if !(j.plan.requiredExport && j.exportId == "") {
      ActionsNeverReplay(c, acts, env, j, w, f);
    } else if !env.ctxDone(j.sequence) && !Out(f) {
      var next := ExportEntry(env, j);
      var p := Persist(acts, Some(j), next, w.(exports := w.exports + {env.exportId}), Spend(f));
      ActionsNeverReplay(c, acts, env, next, p.world, p.fuel);
    }
  }

  lemma {:induction false} ActionsNeverReplay(c: Codec, acts: seq<Action>, env: Env, j: Journal, w: World, f: Fuel)
    ensures RunActions(c, acts, env, j, w, f).verdict != Replayed
    decreases |acts| - |j.completedPaths|
  {
    var k := |j.completedPaths|;
    if k < |acts| && !env.ctxDone(j.sequence) {
      var p := Round(c, acts, env, j, w, f);
      ActionsNeverReplay(c, acts, env, ActionEntry(env, j, acts[k]), p.world, p.fuel);
    }
  }

  /** Resumability. After any number of crashes, cancellations and refusals, one uninterrupted rerun brings the
      disk to the planned outcome if and only if no pruned pair was torn by an interrupted quarantine removal. */
  lemma Resumable(h: Hasher, s: Setup, envs: seq<Env>, last: Env)
    requires Planned(h, s)
    requires Uninterrupted(s.acts, last, Runs(h, s.codec, envs, s.plan, s.start))
    ensures var w := Runs(h, s.codec, envs, s.plan, s.start);
            Final(s, ApplyGC(h, s.codec, last, s.plan, w).world) <==> Intact(s.acts, w)
  {
    var w := Runs(h, s.codec, envs, s.plan, s.start);
    SoundRuns(h, s, envs);
    SoundKeeps(h, s, last, w);
    SoundExactly(h, s, last, w);
    if !Intact(s.acts, w) {
      SoundTorn(h, s, last, w);
    }
  }

  /** A torn pair is permanent: every further invocation is refused and leaves the world as it is. */
  lemma {:induction false} TornForever(h: Hasher, s: Setup, w: World, envs: seq<Env>)
    requires Planned(h, s) && Reachable(s, w) && !Intact(s.acts, w)
    ensures Runs(h, s.codec, envs, s.plan, w) == w
    decreases |envs|
  {
    if |envs| > 0 {
      TornForever(h, s, w, envs[..|envs| - 1]);
      SoundTorn(h, s, envs[|envs| - 1], w);
    }
  }

  /** Tearing is real: from the untouched repository, an invocation whose removal ends after one file of a pruned pair
      leaves a torn one, which no later invocation repairs. */
  lemma RemovalCanTear(h: Hasher, s: Setup, env: Env, i: nat, later: seq<Env>)
    requires Planned(h, s) && i < |s.acts| && s.acts[i].kind == Prune
    requires env.fuel.Unlimited? && Calm(env, 0, 0) && env.removal == [Removal(s.acts[i].path, GzPart)]
    ensures var w := ApplyGC(h, s.codec, env, s.plan, s.start).world;
            Reachable(s, w) && !Intact(s.acts, w) && Runs(h, s.codec, later, s.plan, w) == w
  {
    SoundGuardOk(h, s);
    StartInv(SoundGuard(s));
    var jc, wc := CleansFrom(h, s, env);
    PrunedPair(h, s, i);
    assert s.acts[i] == SoundGuard(s).acts[i];
    var w := TearOne(h, s, env, jc, wc, i);
    SoundKeeps(h, s, env, s.start);
    TornForever(h, s, w, later);
  }

  /** An undisturbed first invocation gets as far as cleaning up, with every action run. */
  lemma CleansFrom(h: Hasher, s: Setup, env: Env) returns (jc: Journal, wc: World)
    requires Planned(h, s) && env.fuel.Unlimited? && Calm(env, 0, 0)
    ensures At(SoundGuard(s), wc, jc) && jc.stage == Completed && AllRan(SoundGuard(s), s.start, wc, 0)
    ensures ApplyGC(h, s.codec, env, s.plan, s.start) == Clean(s.acts, env, jc, wc, Unlimited)
  {
    var g := SoundGuard(s);
    SoundGuardOk(h, s);
    StartInv(g);
    LoadFinds(h, g, s.start);
    SoundRest(h, s, s.start, 0);
    var j, w0 := AdmissionDone(g, env);
    jc, wc := CompletedFrom(g, env, j, w0);
  }

  lemma PrunedPair(h: Hasher, s: Setup, i: nat)
    requires Planned(h, s) && i < |s.acts| && s.acts[i].kind == Prune
    ensures After(s.codec, s.start.other, s.acts[i], SlotAt(s.start, s.acts[i].path)) == Slot(EMPTY,
            PairOf(s.origins[i]))
  {
    SoundHere(h, s, i);
    PruneResumes(s.codec, s.start.other, s.acts[i], s.origins[i], SlotAt(s.start, s.acts[i].path), Unlimited);
  }

  /** From admission through export and actions to `completed`. */
  lemma CompletedFrom(g: Guard, env: Env, j: Journal, w: World) returns (jc: Journal, wc: World)
    requires GuardOk(g) && At(g, w, j) && j.stage != Cleaned && Calm(env, j.sequence, j.updatedAt)
    requires RestDone(g, w, |j.completedPaths|)
    ensures At(g, wc, jc) && jc.stage == Completed && AllRan(g, w, wc, |j.completedPaths|)
    ensures RunFrom(g.codec, g.acts, env, j, w, Unlimited) == Clean(g.acts, env, jc, wc, Unlimited)
  {
    if j.plan.requiredExport && j.exportId == "" {
      var next, w' := ExportDone(g, env, j, w);
      jc, wc := LoopCompletes(g, env, next, w');
    } else {
      jc, wc := LoopCompletes(g, env, j, w);
    }
  }

  lemma TearOne(h: Hasher, s: Setup, env: Env, j: Journal, w: World, i: nat) returns (w': World)
    requires Planned(h, s) && At(SoundGuard(s), w, j) && j.stage == Completed && i < |s.acts| && s.acts[i].kind == Prune
    requires env.removal == [Removal(s.acts[i].path, GzPart)]
    requires SlotAt(w, s.acts[i].path) == Slot(EMPTY, PairOf(s.origins[i]))
    ensures Clean(s.acts, env, j, w, Unlimited).world == w' && !Intact(s.acts, w')
  {
    var slot := SlotAt(w, s.acts[i].path);
    w' := w.(slots := w.slots[s.acts[i].path := slot.(quarantine := Without(slot.quarantine, GzPart))]);
    assert RemoveFiles(env.removal[1..], w', Unlimited) == Point(w', Unlimited, Done);
    assert RemoveFiles(env.removal, w, Unlimited) == Point(w', Unlimited, Done);
    assert SlotAt(w', s.acts[i].path).quarantine.manifest.Some?;
    assert !QuarantineEmpty(s.acts, w');
    assert !WholeOrGone(s.acts[i], SlotAt(w', s.acts[i].path));
  }
}
