/** When an undisturbed invocation of garbage collection finishes, on any disk whatever. */
module RetentionFinish {
  import opened Base
  import opened RetentionPlan
  import opened RetentionJournal
  import opened RetentionDisk
  import opened RetentionApply
  import opened RetentionInvariant

  /** From journal entry number `sequence`, written at `since`, on: no cancellation, a clock that does not run
      backwards, an export with a well-formed identity. */
  ghost predicate Calm(env: Env, sequence: nat, since: Time)
  {
    && ValidExportId(env.exportId)
    && (forall n :: !env.ctxDone(n))
    && (forall n :: n > sequence ==> since <= env.clock(n) && env.clock(n) > 0)
    && (forall m, n :: m <= n ==> env.clock(m) <= env.clock(n))
  }

  /** The removal meets every file an action can have quarantined. */
  predicate Covers(acts: seq<Action>, order: seq<Removal>)
  {
    forall i, part :: 0 <= i < |acts| ==> Removal(acts[i].path, part) in order
  }

  /** Nothing goes wrong during the invocation. */
  ghost predicate Uninterrupted(acts: seq<Action>, env: Env, w: World)
  {
    && env.fuel.Unlimited? && Covers(acts, env.removal)
    && if |w.history| == 0 then Calm(env, 0, 0) else Calm(env, Last(w.history).sequence, Last(w.history).updatedAt)
  }

  // ------------------------------------------------------------- legal next entries

  predicate Timely(env: Env, j: Journal)
  {
    env.clock(j.sequence + 1) > 0 && j.updatedAt <= env.clock(j.sequence + 1)
  }

  lemma CalmStep(env: Env, j: Journal)
    requires Calm(env, j.sequence, j.updatedAt)
    ensures Timely(env, j) && Calm(env, j.sequence + 1, env.clock(j.sequence + 1))
  {
    assert env.clock(j.sequence + 1) >= j.updatedAt;
  }

  lemma CleanedEntryLegal(acts: seq<Action>, env: Env, j: Journal)
    requires EntryValid(j, acts) && j.stage == Completed && Timely(env, j)
    ensures LegalNext(acts, Some(j), CleanedEntry(env, j))
  {
  }

  lemma CompletedEntryLegal(acts: seq<Action>, env: Env, j: Journal)
    requires EntryValid(j, acts) && Working(j.stage) && !DeadEnd(j, acts) && |j.completedPaths| == |acts|
    requires Timely(env, j) && !(j.plan.requiredExport && j.exportId == "")
    ensures LegalNext(acts, Some(j), CompletedEntry(env, j))
  {
  }

  lemma ActionEntryLegal(acts: seq<Action>, env: Env, j: Journal)
    requires EntryValid(j, acts) && AllMutating(acts) && Working(j.stage) && |j.completedPaths| < |acts|
    requires Timely(env, j) && !(j.plan.requiredExport && j.exportId == "")
    ensures LegalNext(acts, Some(j), ActionEntry(env, j, acts[|j.completedPaths|]))
  {
    var k := |j.completedPaths|;
    assert ActionEntry(env, j, acts[k]).completedPaths == Paths(acts)[..k + 1];
  }

  lemma ExportEntryLegal(acts: seq<Action>, env: Env, j: Journal)
    requires EntryValid(j, acts) && j.plan.requiredExport && j.exportId == "" && j.stage != Cleaned && Timely(env, j)
    requires ValidExportId(env.exportId) && |acts| > 0
    ensures LegalNext(acts, Some(j), ExportEntry(env, j))
  {
  }

  // --------------------------------------------------------------- one action

  /** Run to its end, the action succeeds. */
  predicate ActionDone(c: Codec, other: map<Path, Bytes>, a: Action, s: Slot)
  {
    Effect(c, other, a, s, Unlimited).status == Done
  }

  lemma NeverStops(c: Codec, other: map<Path, Bytes>, a: Action, s: Slot)
    ensures var r := Effect(c, other, a, s, Unlimited); r.status != Stopped && r.fuel.Unlimited?
  {
  }

  /** The slot an action leaves when nothing stops it. */
  function After(c: Codec, other: map<Path, Bytes>, a: Action, s: Slot): Slot
  {
    Effect(c, other, a, s, Unlimited).slot
  }

  predicate CanAct(g: Guard, j: Journal, w: World)
  {
    At(g, w, j) && j.stage != Cleaned && !(j.plan.requiredExport && j.exportId == "")
  }

  /** An undisturbed round: refused if the action fails, otherwise journaled with only its own artifact changed. */
  lemma RoundExactly(g: Guard, env: Env, j: Journal, w: World)
    requires GuardOk(g) && CanAct(g, j, w) && |j.completedPaths| < |g.acts| && Timely(env, j)
    ensures var a := g.acts[|j.completedPaths|];
            var p := Round(g.codec, g.acts, env, j, w, Unlimited);
            && (p.status == Done <==> ActionDone(g.codec, w.other, a, SlotAt(w, a.path)))
            && p.status != Stopped && p.fuel.Unlimited?
            && (p.status == Done ==> CanAct(g, ActionEntry(env, j, a), p.world))
            && SlotAt(p.world, a.path) == After(g.codec, w.other, a, SlotAt(w, a.path))
            && (forall q :: q != a.path ==> SlotAt(p.world, q) == SlotAt(w, q))
  {
    var a := g.acts[|j.completedPaths|];
    AtEntry(g, w, j);
    StillWorking(g, w, j);
    ActionEffect(g.codec, a, w, Unlimited);
    NeverStops(g.codec, w.other, a, SlotAt(w, a.path));
    RoundKeeps(g, env, j, w, Unlimited);
    var r := ApplyAction(g.codec, a, w, Unlimited);
    if r.status == Done {
      ActionKeeps(g, w, j, Unlimited);
      ActionEntryAgrees(g, env, j, r.world);
      ActionEntryLegal(g.acts, env, j);
      PersistKeeps(g, r.world, j, ActionEntry(env, j, a), Unlimited);
    }
  }

  // ---------------------------------------------------------------- the action loop

  /** Every action not yet journaled succeeds on the artifact as it is. */
  predicate RestDone(g: Guard, w: World, k: nat)
  {
    forall i {:trigger g.acts[i]} :: k <= i < |g.acts| ==>
        ActionDone(g.codec, w.other, g.acts[i], SlotAt(w, g.acts[i].path))
  }

  lemma RestAfter(g: Guard, w: World, w': World, k: nat)
    requires Distinct(g.acts) && k < |g.acts| && w'.other == w.other
    requires forall q :: q != g.acts[k].path ==> SlotAt(w', q) == SlotAt(w, q)
    ensures RestDone(g, w, k) <==>
              ActionDone(g.codec, w.other, g.acts[k], SlotAt(w, g.acts[k].path)) && RestDone(g, w', k + 1)
  {
    forall i | k < i < |g.acts|
      ensures SlotAt(w', g.acts[i].path) == SlotAt(w, g.acts[i].path)
    {
      assert g.acts[i].path != g.acts[k].path;
    }
  }

  /** Undisturbed, the loop is refused exactly when some outstanding action fails. */
  lemma {:induction false} LoopRefused(g: Guard, env: Env, j: Journal, w: World)
    requires GuardOk(g) && CanAct(g, j, w) && Calm(env, j.sequence, j.updatedAt)
    requires !RestDone(g, w, |j.completedPaths|)
    ensures RunActions(g.codec, g.acts, env, j, w, Unlimited).verdict == Refused
    decreases |g.acts| - |j.completedPaths|
  {
    var k := |j.completedPaths|;
    CalmStep(env, j);
    RoundExactly(g, env, j, w);
    var p := Round(g.codec, g.acts, env, j, w, Unlimited);
    RoundOther(g, env, j, w);
    RestAfter(g, w, p.world, k);
    if p.status == Done {
      LoopRefused(g, env, ActionEntry(env, j, g.acts[k]), p.world);
    }
  }

  lemma RoundOther(g: Guard, env: Env, j: Journal, w: World)
    requires GuardOk(g) && At(g, w, j) && Working(j.stage) && |j.completedPaths| < |g.acts|
    ensures Round(g.codec, g.acts, env, j, w, Unlimited).world.other == w.other
  {
    RoundKeeps(g, env, j, w, Unlimited);
  }

  /** The artifacts after every action from number `k` on has run. */
  predicate AllRan(g: Guard, w: World, w': World, k: nat)
  {
    && w'.other == w.other
    && (forall i {:trigger g.acts[i]} :: 0 <= i < |g.acts| ==>
          SlotAt(w', g.acts[i].path) ==
          if i < k then SlotAt(w, g.acts[i].path) else After(g.codec, w.other, g.acts[i], SlotAt(w, g.acts[i].path)))
  }

  lemma AllRanStep(g: Guard, w: World, w1: World, w': World, k: nat)
    requires Distinct(g.acts) && k < |g.acts| && w1.other == w.other && AllRan(g, w1, w', k + 1)
    requires forall q :: q != g.acts[k].path ==> SlotAt(w1, q) == SlotAt(w, q)
    requires SlotAt(w1, g.acts[k].path) == After(g.codec, w.other, g.acts[k], SlotAt(w, g.acts[k].path))
    ensures AllRan(g, w, w', k)
  {
    forall i | 0 <= i < |g.acts|
      ensures SlotAt(w', g.acts[i].path) ==
              if i < k then SlotAt(w, g.acts[i].path) else After(g.codec, w.other, g.acts[i], SlotAt(w, g.acts[i].path))
    {
      if i != k {
        assert g.acts[i].path != g.acts[k].path;
      }
    }
  }

  /** Otherwise it journals every action, then `completed`, and goes on to clean up. */
  lemma {:induction false} LoopCompletes(g: Guard, env: Env, j: Journal, w: World) returns (jc: Journal, wc: World)
    requires GuardOk(g) && CanAct(g, j, w) && Calm(env, j.sequence, j.updatedAt)
    requires RestDone(g, w, |j.completedPaths|)
    ensures At(g, wc, jc) && jc.stage == Completed && Calm(env, jc.sequence, jc.updatedAt)
    ensures RunActions(g.codec, g.acts, env, j, w, Unlimited) == Clean(g.acts, env, jc, wc, Unlimited)
    ensures AllRan(g, w, wc, |j.completedPaths|)
    decreases |g.acts| - |j.completedPaths|
  {
    var k := |j.completedPaths|;
    if k < |g.acts| {
      var next, w1 := LoopAdvances(g, env, j, w);
      jc, wc := LoopCompletes(g, env, next, w1);
      AllRanStep(g, w, w1, wc, k);
    } else {
      jc, wc := LoopEnds(g, env, j, w);
    }
  }

  /** One undisturbed iteration. */
  lemma LoopAdvances(g: Guard, env: Env, j: Journal, w: World) returns (next: Journal, w': World)
    requires GuardOk(g) && CanAct(g, j, w) && Calm(env, j.sequence, j.updatedAt) && |j.completedPaths| < |g.acts|
    requires RestDone(g, w, |j.completedPaths|)
    ensures var a := g.acts[|j.completedPaths|];
            && CanAct(g, next, w') && Calm(env, next.sequence, next.updatedAt) && w'.other == w.other
            && |next.completedPaths| == |j.completedPaths| + 1 && RestDone(g, w', |next.completedPaths|)
            && RunActions(g.codec, g.acts, env, j, w, Unlimited) == RunActions(g.codec, g.acts, env, next, w',
                Unlimited)
            && SlotAt(w', a.path) == After(g.codec, w.other, a, SlotAt(w, a.path))
            && (forall q :: q != a.path ==> SlotAt(w', q) == SlotAt(w, q))
  {
    var k := |j.completedPaths|;
    AtEntry(g, w, j);
    CalmStep(env, j);
    RoundExactly(g, env, j, w);
    StillWorking(g, w, j);
    RoundOther(g, env, j, w);
    var p := Round(g.codec, g.acts, env, j, w, Unlimited);
    RestAfter(g, w, p.world, k);
    next, w' := ActionEntry(env, j, g.acts[k]), p.world;
  }

  /** With every action journaled, `completed` is recorded if it is not. */
  lemma LoopEnds(g: Guard, env: Env, j: Journal, w: World) returns (jc: Journal, wc: World)
    requires GuardOk(g) && CanAct(g, j, w) && Calm(env, j.sequence, j.updatedAt) && |j.completedPaths| >= |g.acts|
    ensures At(g, wc, jc) && jc.stage == Completed && Calm(env, jc.sequence, jc.updatedAt)
    ensures RunActions(g.codec, g.acts, env, j, w, Unlimited) == Clean(g.acts, env, jc, wc, Unlimited)
    ensures wc.slots == w.slots && wc.other == w.other
  {
    AtEntry(g, w, j);
    CalmStep(env, j);
    if j.stage == Completed {
      jc, wc := j, w;
    } else {
      CompletedEntryLegal(g.acts, env, j);
      CompletedKeeps(g, env, j, w, Unlimited);
      jc, wc := CompletedEntry(env, j), Persist(g.acts, Some(j), CompletedEntry(env, j), w, Unlimited).world;
    }
  }

  // -------------------------------------------------------------------- cleaning

  predicate Missing(w: World, e: Removal)
  {
    var q := SlotAt(w, e.path).quarantine;
    Without(q, e.part) == q
  }

  lemma {:induction false} RemovalMisses(order: seq<Removal>, w: World, e: Removal)
    requires Missing(w, e) || e in order
    ensures var r := RemoveFiles(order, w, Unlimited); Missing(r.world, e) && r.status == Done && r.fuel.Unlimited?
    decreases |order|
  {
    if |order| > 0 {
      var slot := SlotAt(w, order[0].path);
      var q := Without(slot.quarantine, order[0].part);
      if q == slot.quarantine {
        RemovalMisses(order[1..], w, e);
      } else {
        RemovalMisses(order[1..], w.(slots := w.slots[order[0].path := slot.(quarantine := q)]), e);
      }
    }
  }

  lemma {:induction false} RemovalEnds(order: seq<Removal>, w: World)
    ensures var r := RemoveFiles(order, w, Unlimited); r.status == Done && r.fuel.Unlimited?
    decreases |order|
  {
    if |order| > 0 {
      var slot := SlotAt(w, order[0].path);
      var q := Without(slot.quarantine, order[0].part);
      RemovalEnds(order[1..], if q == slot.quarantine then w
          else w.(slots := w.slots[order[0].path := slot.(quarantine := q)]));
    }
  }

  lemma CoveredIsEmptied(acts: seq<Action>, order: seq<Removal>, w: World)
    requires Covers(acts, order)
    ensures Sweep(acts, order, w, Unlimited).status == Done && Sweep(acts, order, w, Unlimited).fuel.Unlimited?
  {
    var w' := RemoveFiles(order, w, Unlimited).world;
    RemovalEnds(order, w);
    forall i | 0 <= i < |acts|
      ensures SlotAt(w', acts[i].path).quarantine == EMPTY
    {
      RemovalMisses(order, w, Removal(acts[i].path, OriginalPart));
      RemovalMisses(order, w, Removal(acts[i].path, GzPart));
      RemovalMisses(order, w, Removal(acts[i].path, ManifestPart));
    }
  }

  lemma CleanFinishes(g: Guard, env: Env, j: Journal, w: World)
    requires GuardOk(g) && At(g, w, j) && j.stage == Completed && Covers(g.acts, env.removal)
    requires Calm(env, j.sequence, j.updatedAt)
    ensures Clean(g.acts, env, j, w, Unlimited).verdict == Finished
  {
    AtEntry(g, w, j);
    CoveredIsEmptied(g.acts, env.removal, w);
    SweepKeeps(g, env.removal, w, Unlimited);
    var r := Sweep(g.acts, env.removal, w, Unlimited);
    SweptAt(g, w, r.world, j);
    CalmStep(env, j);
    CleanedEntryLegal(g.acts, env, j);
    PersistKeeps(g, r.world, j, CleanedEntry(env, j), r.fuel);
  }

  // ----------------------------------------------------------- from journal to end

  lemma LoopExactly(g: Guard, env: Env, j: Journal, w: World)
    requires GuardOk(g) && CanAct(g, j, w) && Calm(env, j.sequence, j.updatedAt) && Covers(g.acts, env.removal)
    ensures RunActions(g.codec, g.acts, env, j, w, Unlimited).verdict
         == if RestDone(g, w, |j.completedPaths|) then Finished else Refused
  {
    if RestDone(g, w, |j.completedPaths|) {
      var jc, wc := LoopCompletes(g, env, j, w);
      CleanFinishes(g, env, jc, wc);
    } else {
      LoopRefused(g, env, j, w);
    }
  }

  /** An undisturbed export is recorded, after which the loop starts on the same artifacts. */
  lemma ExportDone(g: Guard, env: Env, j: Journal, w: World) returns (next: Journal, w': World)
    requires GuardOk(g) && At(g, w, j) && j.plan.requiredExport && j.exportId == "" && j.stage != Cleaned
    requires Calm(env, j.sequence, j.updatedAt)
    ensures CanAct(g, next, w') && Calm(env, next.sequence, next.updatedAt)
    ensures RunFrom(g.codec, g.acts, env, j, w, Unlimited) == RunActions(g.codec, g.acts, env, next, w', Unlimited)
    ensures w'.slots == w.slots && w'.other == w.other && |next.completedPaths| == |j.completedPaths|
  {
    AtEntry(g, w, j);
    CalmStep(env, j);
    ExportFirst(g, w, j);
    ExportKeeps(g, env, j, w, Unlimited);
    ExportEntryLegal(g.acts, env, j);
    next := ExportEntry(env, j);
    w' := Persist(g.acts, Some(j), next, w.(exports := w.exports + {env.exportId}), Unlimited).world;
  }

  lemma RunFromExactly(g: Guard, env: Env, j: Journal, w: World)
    requires GuardOk(g) && At(g, w, j) && j.stage != Cleaned && Calm(env, j.sequence, j.updatedAt)
             && Covers(g.acts, env.removal)
    ensures RunFrom(g.codec, g.acts, env, j, w, Unlimited).verdict
         == if RestDone(g, w, |j.completedPaths|) then Finished else Refused
  {
    if j.plan.requiredExport && j.exportId == "" {
      var next, w' := ExportDone(g, env, j, w);
      LoopExactly(g, env, next, w');
    } else {
      LoopExactly(g, env, j, w);
    }
  }

  lemma AdmissionLegal(acts: seq<Action>, env: Env, plan: Plan)
    requires plan.operationId != "" && env.clock(1) > 0
    ensures LegalNext(acts, None, Admission(env, plan))
  {
    assert Paths(acts)[..0] == [];
  }

  lemma AdmissionCalm(env: Env)
    requires Calm(env, 0, 0)
    ensures env.clock(1) > 0 && Calm(env, 1, env.clock(1))
  {
    assert env.clock(1) >= 0;
  }

  /** Undisturbed, the first invocation is admitted and starts from the world as it is. */
  lemma AdmissionDone(g: Guard, env: Env) returns (j: Journal, w: World)
    requires GuardOk(g) && g.plan.operationId != "" && Calm(env, 0, 0)
    ensures At(g, w, j) && j == Admission(env, g.plan) && Calm(env, j.sequence, j.updatedAt)
    ensures Persist(g.acts, None, j, g.start, Unlimited) == Point(w, Unlimited, Done)
    ensures w.slots == g.start.slots && w.other == g.start.other
  {
    j := Admission(env, g.plan);
    AdmissionCalm(env);
    AdmissionLegal(g.acts, env, g.plan);
    AdmissionKeeps(g, env, Unlimited);
    w := Persist(g.acts, None, j, g.start, Unlimited).world;
  }

  /** What decides: the recovery check on what is journaled, and the success of every action that is not. */
  predicate Finishable(g: Guard, w: World)
  {
    if |w.history| == 0 then RestDone(g, w, 0)
    else AllReconcile(g.codec, g.acts, w, Last(w.history)) && RestDone(g, w, |Last(w.history).completedPaths|)
  }

  /** Loading the journal of a reachable world finds its last entry. */
  lemma LoadFinds(h: Hasher, g: Guard, w: World)
    requires PlanValid(h, g.plan) && g.acts == Mutating(g.plan.actions) && Blank(g.start) && Inv(g, w)
    ensures Load(h, w, g.plan.operationId) == if |w.history| == 0 then Absent else Found(Last(w.history))
  {
    if |w.history| > 0 {
      ChainedIsAccepted(h, g.plan, w.history);
      ChainedEntry(g.plan, g.acts, w.history, |w.history| - 1);
    }
  }

  /** On any disk, in any reachable world, an undisturbed invocation finishes or replays if and only if recovery
      accepts what is journaled and every other action succeeds; otherwise it is refused. */
  lemma FinishesExactly(h: Hasher, g: Guard, env: Env, w: World)
    requires GuardOk(g) && PlanValid(h, g.plan) && g.plan.policy.mutationEnabled && g.acts == Mutating(g.plan.actions)
    requires Inv(g, w) && Uninterrupted(g.acts, env, w)
    ensures var v := ApplyGC(h, g.codec, env, g.plan, w).verdict;
            if Finishable(g, w) then v == Finished || v == Replayed else v == Refused
  {
    LoadFinds(h, g, w);
    if |w.history| == 0 {
      var j, w1 := AdmissionDone(g, env);
      RunFromExactly(g, env, j, w1);
    } else {
      var j := Last(w.history);
      AtEntry(g, w, j);
      if j.stage == Cleaned {
        assert |j.completedPaths| == |g.acts|;
      } else {
        RunFromExactly(g, env, j, w);
      }
    }
  }

  /** Whatever the environment, an invocation on a journaled world recovery does not accept changes nothing. */
  lemma UnreconciledRefused(h: Hasher, g: Guard, env: Env, w: World)
    requires PlanValid(h, g.plan) && g.acts == Mutating(g.plan.actions) && Blank(g.start)
    requires Inv(g, w) && |w.history| > 0 && !AllReconcile(g.codec, g.acts, w, Last(w.history))
    ensures ApplyGC(h, g.codec, env, g.plan, w) == Run(w, Refused)
  {
    LoadFinds(h, g, w);
  }
}
