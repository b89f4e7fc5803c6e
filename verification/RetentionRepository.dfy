/** ApplyGC as it is written: one object whose methods change files and journal step by step, proved to leave
    exactly the world, and return exactly the verdict, of the transaction in RetentionApply. */
module RetentionRepository {
  import opened Base
  import opened RetentionPlan
  import opened RetentionJournal
  import opened RetentionDisk
  import opened RetentionApply
  import opened RetentionInvariant
  import opened RetentionFinish
  import opened RetentionRuns
  import RetentionGuards

  predicate PartOf(r: Rep, part: Part)
  {
    match part
    case OriginalPart => r.original.Some?
    case GzPart => r.gz.Some?
    case ManifestPart => r.manifest.Some?
  }

  /** Rename one file of the source tree into quarantine. */
  function Moved(s: Slot, part: Part): Slot
  {
    match part
    case OriginalPart => Slot(s.source.(original := None), s.quarantine.(original := s.source.original))
    case GzPart => Slot(s.source.(gz := None), s.quarantine.(gz := s.source.gz))
    case ManifestPart => Slot(s.source.(manifest := None), s.quarantine.(manifest := s.source.manifest))
  }

  const PARTS := [OriginalPart, GzPart, ManifestPart]

  /** What the renames from number `i` on still do. */
  ghost function MovesFrom(i: nat, s: Slot, f: Fuel): Outcome
  {
    if i == 0 then MoveAll(s, f)
    else if i == 1 then MoveGz(s, f)
    else if i == 2 then MoveManifest(s, f)
    else Outcome(s, f, if s.quarantine == EMPTY then Failed else Done)
  }

  class Repository {
    const other: map<Path, Bytes>
    var slots: map<Path, Slot>
    var quarantineDir: bool
    var exports: set<string>
    var history: seq<Journal>
    var checkpoint: Option<Journal>
    var fuel: Fuel

    constructor (w: World, fuel: Fuel)
      ensures Disk() == w && this.fuel == fuel
    {
      other := w.other;
      slots, quarantineDir, exports := w.slots, w.quarantineDir, w.exports;
      history, checkpoint := w.history, w.checkpoint;
      this.fuel := fuel;
    }

    function Disk(): World
      reads this
    {
      World(slots, other, quarantineDir, exports, history, checkpoint)
    }

    /** One atomic step, unless the process stops here. */
    method Step() returns (ok: bool)
      modifies this`fuel
      ensures ok == !Out(old(fuel))
      ensures fuel == if ok then Spend(old(fuel)) else old(fuel)
    {
      ok := !Out(fuel);
      if ok {
        fuel := Spend(fuel);
      }
    }

    method PersistJournal(acts: seq<Action>, prior: Option<Journal>, next: Journal) returns (status: Status)
      modifies this`history, this`checkpoint, this`fuel
      ensures Point(Disk(), fuel, status) == Persist(acts, prior, next, old(Disk()), old(fuel))
    {
      if !LegalNext(acts, prior, next) {
        return Failed;
      }
      if next.sequence <= |history| {
        if next.sequence == 0 || history[next.sequence - 1] != next {
          return Failed;
        }
      } else if next.sequence != |history| + 1 {
        return Failed;
      } else {
        var written := Step();
        if !written {
          return Stopped;
        }
        history := history + [next];
      }
      var written := Step();
      if !written {
        return Stopped;
      }
      checkpoint := Some(next);
      return Done;
    }

    method CompressArtifact(c: Codec, a: Action) returns (status: Status)
      requires a.kind == Compress
      modifies this`slots, this`fuel
      ensures Point(Disk(), fuel, status) == ApplyAction(c, a, old(Disk()), old(fuel))
    {
      var s := SlotIn(slots, a.path);
      status := Done;
      if s.source.original.None? {
        if s.source.manifest.None? {
          status := Failed;
        }
      } else {
        var raw := s.source.original.value;
        if Id(c, raw.bytes) != a.source || raw.mtime != a.modifiedAt {
          status := Failed;
        } else if s.source.manifest.Some? {
          var m := s.source.manifest.value;
          if m.original != a.source || m.compressedPath != GzPath(a.path) || a.compressed != Some(m.compressed)
             || s.source.gz.None? || Id(c, s.source.gz.value) != m.compressed
          {
            status := Failed;
          }
        } else {
          s, status := WriteCompressed(c, a, s, raw.bytes);
        }
        if status == Done {
          var ok := Step();
          if ok {
            s := s.(source := s.source.(original := None));
          } else {
            status := Stopped;
          }
        }
      }
      if status == Done && Read(c, other, s.source, a.path, a.source, a.source.byteSize).None? {
        status := Failed;
      }
      slots := slots[a.path := s];
    }

    /** Publish the gz and its manifest beside the original. */
    method WriteCompressed(c: Codec, a: Action, s0: Slot, raw: Bytes) returns (s: Slot, status: Status)
      requires s0.source.manifest.None? && s0.source.original.Some? && s0.source.original.value.bytes == raw
      requires Id(c, raw) == a.source && s0.source.original.value.mtime == a.modifiedAt
      modifies this`fuel
      ensures ApplyCompression(c, other, a, s0, old(fuel))
           == if status == Done then RemoveOriginal(c, other, a, s, fuel) else Outcome(s, fuel, status)
    {
      s := s0;
      var gz := c.compress(raw);
      if a.compressed != Some(Id(c, gz)) {
        return s, Failed;
      }
      if s.source.gz.Some? {
        if s.source.gz.value != gz {
          return s, Failed;
        }
      } else {
        var ok := Step();
        if !ok {
          return s, Stopped;
        }
        s := s.(source := s.source.(gz := Some(gz)));
      }
      var ok := Step();
      if !ok {
        return s, Stopped;
      }
      s := s.(source := s.source.(manifest := Some(ManifestFor(a, Id(c, gz)))));
      if Read(c, other, s.source, a.path, a.source, a.source.byteSize).Some? {
        return s, Failed;
      }
      return s, Done;
    }

    method PruneArtifact(c: Codec, a: Action) returns (status: Status)
      requires a.kind == Prune
      modifies this`slots, this`quarantineDir, this`fuel
      ensures Point(Disk(), fuel, status) == ApplyAction(c, a, old(Disk()), old(fuel))
    {
      if !quarantineDir {
        var ok := Step();
        if !ok {
          return Stopped;
        }
        quarantineDir := true;
      }
      var s := SlotIn(slots, a.path);
      var r := s.source;
      if Read(c, other, r, a.path, a.source, a.source.byteSize).Some? {
        var mtime := if r.original.Some? then r.original.value.mtime else r.manifest.value.originalMtime;
        status := if mtime != a.modifiedAt then Failed else Done;
      } else {
        status := if s.quarantine == EMPTY then Failed else Done;
      }
      if status == Done {
        s, status := MoveToQuarantine(s);
      }
      slots := slots[a.path := s];
    }

    method MoveToQuarantine(s0: Slot) returns (s: Slot, status: Status)
      modifies this`fuel
      ensures Outcome(s, fuel, status) == MoveAll(s0, old(fuel))
    {
      s := s0;
      var quarantined := false;
      for i := 0 to 3
        invariant MovesFrom(i, s, fuel) == MoveAll(s0, old(fuel))
        invariant quarantined <==> exists k :: 0 <= k < i && PartOf(s.quarantine, PARTS[k])
      {
        var part := PARTS[i];
        if PartOf(s.source, part) {
          if PartOf(s.quarantine, part) {
            return s, Failed;
          }
          var ok := Step();
          if !ok {
            return s, Stopped;
          }
          s := Moved(s, part);
          quarantined := true;
          assert PartOf(s.quarantine, PARTS[i]);
        } else if PartOf(s.quarantine, part) {
          quarantined := true;
          assert PartOf(s.quarantine, PARTS[i]);
        }
      }
      assert quarantined <==> s.quarantine != EMPTY by {
        assert PartOf(s.quarantine, PARTS[0]) <==> s.quarantine.original.Some?;
        assert PartOf(s.quarantine, PARTS[1]) <==> s.quarantine.gz.Some?;
        assert PartOf(s.quarantine, PARTS[2]) <==> s.quarantine.manifest.Some?;
      }
      status := if quarantined then Done else Failed;
    }

    /** Directory removal, file by file, the directory last. */
    method RemoveQuarantine(acts: seq<Action>, order: seq<Removal>) returns (status: Status)
      modifies this`slots, this`quarantineDir, this`fuel
      ensures Point(Disk(), fuel, status) == Sweep(acts, order, old(Disk()), old(fuel))
    {
      for i := 0 to |order|
        invariant RemoveFiles(order[i..], Disk(), fuel) == RemoveFiles(order, old(Disk()), old(fuel))
      {
        var s := SlotIn(slots, order[i].path);
        var q := Without(s.quarantine, order[i].part);
        assert order[i..][1..] == order[i + 1..];
        if q != s.quarantine {
          var ok := Step();
          if !ok {
            return Stopped;
          }
          slots := slots[order[i].path := s.(quarantine := q)];
        }
      }
      if !QuarantineEmpty(acts, Disk()) {
        return Stopped;
      }
      var ok := Step();
      if !ok {
        return Stopped;
      }
      quarantineDir := false;
      return Done;
    }

    /** Mark the operation complete, empty the quarantine and mark it clean. */
    method Finish(acts: seq<Action>, env: Env, j: Journal) returns (verdict: Verdict)
      modifies this
      ensures Run(Disk(), verdict) == Complete(acts, env, j, old(Disk()), old(fuel))
    {
      var journal := j;
      var status: Status;
      if journal.stage != Completed {
        var next := CompletedEntry(env, journal);
        status := PersistJournal(acts, Some(journal), next);
        if status != Done {
          return StopVerdict(status);
        }
        journal := next;
      }
      status := RemoveQuarantine(acts, env.removal);
      if status != Done {
        return Interrupted;
      }
      status := PersistJournal(acts, Some(journal), CleanedEntry(env, journal));
      return if status == Done then Finished else StopVerdict(status);
    }

    method CancelJournal(acts: seq<Action>, env: Env, j: Journal) returns (verdict: Verdict)
      modifies this
      ensures Run(Disk(), verdict) == Cancel(acts, env, j, old(Disk()), old(fuel)) && exports == old(exports)
    {
      var status := PersistJournal(acts, Some(j), CancelEntry(env, j));
      return if status == Done then CancelledRun else StopVerdict(status);
    }

    /** One action and its journal entry. */
    method ApplyOne(c: Codec, acts: seq<Action>, env: Env, j: Journal, a: Action) returns (status: Status)
      requires |j.completedPaths| < |acts| && acts[|j.completedPaths|] == a && IsMutating(a)
      modifies this
      ensures Point(Disk(), fuel, status) == Round(c, acts, env, j, old(Disk()), old(fuel))
      ensures exports == old(exports)
      ensures status == Done ==> ProgressValid(ActionEntry(env, j, a), acts)
    {
      if a.kind == Compress {
        status := CompressArtifact(c, a);
      } else {
        status := PruneArtifact(c, a);
      }
      if status == Done {
        status := PersistJournal(acts, Some(j), ActionEntry(env, j, a));
      }
    }

    /** The body of the action loop; a verdict ends the run. */
    method TakeAction(c: Codec, acts: seq<Action>, env: Env, j: Journal, exportVerified: bool, a: Action)
      returns (verdict: Option<Verdict>)
      requires |j.completedPaths| < |acts| && acts[|j.completedPaths|] == a && IsMutating(a)
      requires j.plan.requiredExport ==> exportVerified && j.exportId in exports
      modifies this
      ensures exports == old(exports)
      ensures var run := RunActions(c, acts, env, j, old(Disk()), old(fuel));
              if verdict.Some? then Run(Disk(), verdict.value) == run
              else
                && ProgressValid(ActionEntry(env, j, a), acts)
                && RunActions(c, acts, env, ActionEntry(env, j, a), Disk(), fuel) == run
    {
      if env.ctxDone(j.sequence) {
        var v := CancelJournal(acts, env, j);
        return Some(v);
      }
      if a.kind == Prune && j.plan.requiredExport && !exportVerified {
        return Some(Refused);
      }
      var status := ApplyOne(c, acts, env, j, a);
      return if status != Done then Some(StopVerdict(status)) else None;
    }

    /** The loop over the plan's actions, skipping retained and completed ones. */
    method ActionLoop(c: Codec, acts: seq<Action>, env: Env, plan: Plan, j: Journal, exportVerified: bool)
      returns (verdict: Option<Verdict>, journal: Journal)
      requires acts == Mutating(plan.actions) && StrictlyOrdered(Paths(acts))
      requires ProgressValid(j, acts) && j.plan == plan
      requires plan.requiredExport ==> exportVerified && j.exportId in exports
      modifies this
      ensures var run := RunActions(c, acts, env, j, old(Disk()), old(fuel));
              if verdict.Some? then Run(Disk(), verdict.value) == run
              else |journal.completedPaths| == |acts| && RunActions(c, acts, env, journal, Disk(), fuel) == run
    {
      journal := j;
      var completed := set p | p in j.completedPaths;
      ghost var m := 0;
      for i := 0 to |plan.actions|
        invariant ProgressValid(journal, acts) && journal.plan == plan
        invariant plan.requiredExport ==> exportVerified && journal.exportId in exports
        invariant completed == set p | p in journal.completedPaths
        invariant m == Before(plan.actions, i) <= |journal.completedPaths|
        invariant RunActions(c, acts, env, journal, Disk(), fuel) == RunActions(c, acts, env, j, old(Disk()), old(fuel))
      {
        var a := plan.actions[i];
        if !IsMutating(a) {
          continue;
        }
        MutatingAt(plan.actions, i);
        SkippedExactly(Paths(acts), journal.completedPaths, m);
        m := m + 1;
        if a.path in completed {
          continue;
        }
        verdict := TakeAction(c, acts, env, journal, exportVerified, a);
        if verdict.Some? {
          return;
        }
        journal := ActionEntry(env, journal, a);
        completed := completed + {a.path};
      }
      MutatingAt(plan.actions, |plan.actions|);
      return None, journal;
    }

    method RunPlan(c: Codec, env: Env, plan: Plan, j: Journal, exportVerified: bool) returns (verdict: Verdict)
      requires ProgressValid(j, Mutating(plan.actions)) && StrictlyOrdered(Paths(plan.actions)) && j.plan == plan
      requires plan.requiredExport ==> exportVerified && j.exportId in exports
      modifies this
      ensures Run(Disk(), verdict) == RunActions(c, Mutating(plan.actions), env, j, old(Disk()), old(fuel))
    {
      MutatingOrdered(plan.actions);
      var acts := Mutating(plan.actions);
      var stopped, journal := ActionLoop(c, acts, env, plan, j, exportVerified);
      if stopped.Some? {
        return stopped.value;
      }
      verdict := Finish(acts, env, journal);
    }

    /** Obtain and record the export the plan requires, if that has not happened, then run the plan. */
    method ResumePlan(c: Codec, env: Env, plan: Plan, j: Journal) returns (verdict: Verdict)
      requires ProgressValid(j, Mutating(plan.actions)) && StrictlyOrdered(Paths(plan.actions)) && j.plan == plan
      requires plan.requiredExport && j.exportId != "" ==> j.exportId in exports
      modifies this
      ensures Run(Disk(), verdict) == RunFrom(c, Mutating(plan.actions), env, j, old(Disk()), old(fuel))
    {
      var mutating := Mutating(plan.actions);
      if !(plan.requiredExport && j.exportId == "") {
        verdict := RunPlan(c, env, plan, j, plan.requiredExport);
        return;
      }
      if env.ctxDone(j.sequence) {
        verdict := CancelJournal(mutating, env, j);
        return;
      }
      var ok := Step();
      if !ok {
        return Interrupted;
      }
      exports := exports + {env.exportId};
      var next := ExportEntry(env, j);
      var status := PersistJournal(mutating, Some(j), next);
      if status != Done {
        return StopVerdict(status);
      }
      verdict := RunPlan(c, env, plan, next, true);
    }

    /** ApplyGC. In every world it accounts for what it removes and refuses what it must not continue. Whatever the
        artifacts, it keeps the journal's invariant and every per-artifact property that survives
        the single steps; over sound artifacts success means the planned outcome. */
    method Collect(h: Hasher, c: Codec, env: Env, plan: Plan) returns (verdict: Verdict)
      requires fuel == env.fuel && PlanIdentifies(h)
      modifies this
      ensures Run(Disk(), verdict) == ApplyGC(h, c, env, plan, old(Disk()))
      ensures forall g {:trigger Inv(g, old(Disk()))} ::
                GuardOk(g) && g.codec == c && g.plan == plan && g.acts == Mutating(plan.actions)
                    && Inv(g, old(Disk())) ==>
                  Kept(g, Run(Disk(), verdict))
      ensures forall s {:trigger Reachable(s, old(Disk()))} ::
                Planned(h, s) && s.codec == c && s.plan == plan && Reachable(s, old(Disk())) ==>
                  Reachable(s, Disk()) && (verdict == Finished || verdict == Replayed ==> Final(s, Disk()))
      ensures RetentionGuards.Accounted(plan, Mutating(plan.actions), old(Disk()), Run(Disk(), verdict))
      ensures || !plan.policy.mutationEnabled || RetentionGuards.JournalConflicts(h, plan, old(Disk()))
              || RetentionGuards.ExportLost(plan, old(Disk()))
                  || RetentionGuards.EffectsDiffer(c, plan, old(Disk())) ==>
                Disk() == old(Disk()) && verdict == Refused
    {
      ghost var before := Disk();
      verdict := CollectOnce(h, c, env, plan);
      RetentionGuards.ApplyAccounted(h, c, env, plan, before);
      RetentionGuards.EntryGuards(h, c, env, plan, before);
      forall g | GuardOk(g) && g.codec == c && g.plan == plan && g.acts == Mutating(plan.actions) && Inv(g, before)
        ensures Kept(g, Run(Disk(), verdict))
      {
        ApplyKeeps(h, g, env, before);
      }
      forall s | Planned(h, s) && s.codec == c && s.plan == plan && Reachable(s, before)
        ensures Reachable(s, Disk()) && (verdict == Finished || verdict == Replayed ==> Final(s, Disk()))
      {
        SoundKeeps(h, s, env, before);
      }
    }

    method CollectOnce(h: Hasher, c: Codec, env: Env, plan: Plan) returns (verdict: Verdict)
      requires fuel == env.fuel && PlanIdentifies(h)
      modifies this
      ensures Run(Disk(), verdict) == ApplyGC(h, c, env, plan, old(Disk()))
    {
      var valid := ValidatePlan(h, plan);
      if !valid || !plan.policy.mutationEnabled {
        return Refused;
      }
      match Load(h, Disk(), plan.operationId)
      case Corrupt =>
        return Refused;
      case Absent =>
        var j := Admission(env, plan);
        var status := PersistJournal(Mutating(plan.actions), None, j);
        if status != Done {
          return StopVerdict(status);
        }
        verdict := ResumePlan(c, env, plan, j);
      case Found(j) =>
        if j.plan.planId != plan.planId || j.plan.planSha256 != plan.planSha256 {
          return Refused;
        }
        SamePlan(h, j.plan, plan);
        if plan.requiredExport && j.exportId != "" && j.exportId !in exports {
          return Refused;
        }
        if !AllReconcile(c, Mutating(plan.actions), Disk(), j) {
          return Refused;
        }
        if j.stage == Cleaned {
          return Replayed;
        }
        verdict := ResumePlan(c, env, plan, j);
    }
  }

  /** How many mutating actions come before position `i` of the plan. */
  ghost function Before(actions: seq<Action>, i: nat): nat
    requires i <= |actions|
  {
    if i == 0 then 0 else Before(actions, i - 1) + if IsMutating(actions[i - 1]) then 1 else 0
  }

  lemma {:induction false} BeforeInit(actions: seq<Action>, i: nat)
    requires i < |actions|
    ensures Before(actions[..|actions| - 1], i) == Before(actions, i)
  {
    if i > 0 {
      BeforeInit(actions, i - 1);
    }
  }

  /** A mutating action's position among the mutating ones is the number of those before it. */
  lemma {:induction false} MutatingAt(actions: seq<Action>, i: nat)
    requires i <= |actions|
    ensures Before(actions, i) <= |Mutating(actions)|
    ensures i == |actions| ==> Before(actions, i) == |Mutating(actions)|
    ensures i < |actions| && IsMutating(actions[i]) ==>
              Before(actions, i) < |Mutating(actions)| && Mutating(actions)[Before(actions, i)] == actions[i]
    decreases |actions|
  {
    if |actions| > 0 {
      var n := |actions| - 1;
      var at := if i <= n then i else n;
      BeforeInit(actions, at);
      MutatingAt(actions[..n], at);
    }
  }

  /** The completed set skips exactly the actions the journal has counted. */
  lemma SkippedExactly(paths: seq<Path>, completed: seq<Path>, m: nat)
    requires StrictlyOrdered(paths) && |completed| <= |paths| && completed == paths[..|completed|] && m < |paths|
    ensures paths[m] in completed <==> m < |completed|
  {
    if m < |completed| {
      assert completed[m] == paths[m];
    } else if paths[m] in completed {
      var n :| 0 <= n < |completed| && completed[n] == paths[m];
      StrictlyOrderedApart(paths, n, m);
    }
  }
}
