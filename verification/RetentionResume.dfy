/** Exactly which planned operations can be resumed from wherever they stop. */
module RetentionResume {
  import opened Base
  import opened RetentionPlan
  import opened RetentionJournal
  import opened RetentionDisk
  import opened RetentionApply
  import opened RetentionInvariant
  import opened RetentionFinish
  import opened RetentionRuns
  import opened RetentionInventory

  /** From every world some sequence of invocations can leave, except one with a torn pair, an undisturbed invocation
      finishes the operation. */
  ghost predicate AlwaysResumable(h: Hasher, c: Codec, plan: Plan, start: World)
  {
    forall envs, last {:trigger Resumes(h, c, plan, start, envs, last)} :: Resumes(h, c, plan, start, envs, last)
  }

  ghost predicate Resumes(h: Hasher, c: Codec, plan: Plan, start: World, envs: seq<Env>, last: Env)
  {
    var acts, w := Mutating(plan.actions), Runs(h, c, envs, plan, start);
    Uninterrupted(acts, last, w) && Intact(acts, w) ==> Succeeds(ApplyGC(h, c, last, plan, w))
  }

  // ------------------------------------------------------------------ enough

  function SetupFrom(c: Codec, plan: Plan, w: World): Setup
  {
    var acts := Mutating(plan.actions);
    Setup(c, plan, acts,
          seq(|acts|, i requires 0 <= i < |acts| => OriginFrom(c, w.other, acts[i], SlotAt(w, acts[i].path))), w)
  }

  /** Whatever PlanGC plans from a disk whose planned artifacts are workable is an operation to which the theorems
      about sound artifacts apply. */
  lemma PlanStartsOperation(h: Hasher, input: PlanInput, cs: seq<Candidate>, plan: Plan, c: Codec, w: World)
    requires Collection(h, input, cs, plan, c, w) && input.policy.mutationEnabled && AllWorkable(c, plan, w)
    ensures Planned(h, SetupFrom(c, plan, w))
  {
    var s := SetupFrom(c, plan, w);
    MutatingMembers(plan.actions);
    forall i | 0 <= i < |s.acts|
      ensures Sound(c, s.acts[i], SlotAt(w, s.acts[i].path), s.origins[i])
    {
      assert s.acts[i] in s.acts;
      var cand := CandidateOf(h, input, cs, plan, c, w, s.acts[i]);
      WorkableIsSound(c, w.other, input.policy, input.frozenAt, SlotAt(w, s.acts[i].path), cand, s.acts[i]);
    }
  }

  lemma WorkableResumes(h: Hasher, input: PlanInput, cs: seq<Candidate>, plan: Plan, c: Codec, w: World)
    requires Collection(h, input, cs, plan, c, w) && input.policy.mutationEnabled && AllWorkable(c, plan, w)
    ensures AlwaysResumable(h, c, plan, w)
  {
    var s := SetupFrom(c, plan, w);
    PlanStartsOperation(h, input, cs, plan, c, w);
    forall envs, last
      ensures Resumes(h, c, plan, w, envs, last)
    {
      SoundRuns(h, s, envs);
      if Uninterrupted(s.acts, last, Runs(h, c, envs, plan, w)) {
        SoundExactly(h, s, last, Runs(h, c, envs, plan, w));
      }
    }
  }

  // -------------------------------------------------------------- an undisturbed one

  function CoverList(acts: seq<Action>): seq<Removal>
  {
    if |acts| == 0 then []
    else
      var p := acts[|acts| - 1].path;
      CoverList(acts[..|acts| - 1]) + [Removal(p, OriginalPart), Removal(p, GzPart), Removal(p, ManifestPart)]
  }

  lemma {:induction false} CoverListCovers(acts: seq<Action>)
    ensures Covers(acts, CoverList(acts))
    decreases |acts|
  {
    if |acts| > 0 {
      CoverListCovers(acts[..|acts| - 1]);
      forall i, part | 0 <= i < |acts|
        ensures Removal(acts[i].path, part) in CoverList(acts)
      {
        if i < |acts| - 1 {
          assert acts[..|acts| - 1][i] == acts[i];
        } else {
          assert part == OriginalPart || part == GzPart || part == ManifestPart;
        }
      }
    }
  }

  /** An environment without trouble whose clock stands still, up to entry number `m`; after that it shows no time. */
  function StillEnv(acts: seq<Action>, id: string, m: nat): Env
  {
    Env(Unlimited, n => false, n => if n <= m then 1 else 0, id, CoverList(acts))
  }

  function CalmEnv(acts: seq<Action>, id: string): Env
  {
    Env(Unlimited, n => false, n => 1, id, CoverList(acts))
  }

  lemma CalmEnvIsCalm(acts: seq<Action>, id: string, w: World)
    requires ValidExportId(id) && (|w.history| > 0 ==> Last(w.history).updatedAt <= 1)
    ensures Uninterrupted(acts, CalmEnv(acts, id), w)
  {
    CoverListCovers(acts);
  }

  // ---------------------------------------------------------- stopping after one action

  /** The loop journals the actions up to number `i` and stops there, the clock refusing the next entry. */
  lemma {:induction false} LoopStopsAfter(g: Guard, env: Env, j: Journal, w: World, i: nat, m: nat)
    requires GuardOk(g) && CanAct(g, j, w) && |j.completedPaths| <= i < |g.acts|
    requires m == j.sequence + (i - |j.completedPaths|) + 1 && j.updatedAt <= 1 && Still(env, m)
    requires RestDone(g, w, |j.completedPaths|)
    ensures var w' := RunActions(g.codec, g.acts, env, j, w, Unlimited).world;
            StoppedAfter(g, w', i, After(g.codec, w.other, g.acts[i], SlotAt(w, g.acts[i].path)))
    decreases i - |j.completedPaths|
  {
    var k := |j.completedPaths|;
    AtEntry(g, w, j);
    assert env.clock(j.sequence + 1) == 1;
    RoundExactly(g, env, j, w);
    StillWorking(g, w, j);
    RoundOther(g, env, j, w);
    var p := Round(g.codec, g.acts, env, j, w, Unlimited);
    RestAfter(g, w, p.world, k);
    var next := ActionEntry(env, j, g.acts[k]);
    if k < i {
      assert g.acts[i].path != g.acts[k].path;
      LoopStopsAfter(g, env, next, p.world, i, m);
    } else {
      LoopStopsHere(g, env, next, p.world);
    }
  }

  ghost predicate Still(env: Env, m: nat)
  {
    && (forall n :: !env.ctxDone(n)) && (forall n: nat :: env.clock(n) == if n <= m then 1 else 0)
  }

  predicate StoppedAfter(g: Guard, w: World, i: nat, slot: Slot)
    requires i < |g.acts|
  {
    && |w.history| > 0 && |Last(w.history).completedPaths| == i + 1 && Last(w.history).updatedAt <= 1
    && Last(w.history).stage == AppliedStage(g.acts[i].kind) && SlotAt(w, g.acts[i].path) == slot
  }

  /** With the clock gone, the loop writes nothing more and leaves the artifact of the last entry alone. */
  lemma LoopStopsHere(g: Guard, env: Env, j: Journal, w: World)
    requires GuardOk(g) && CanAct(g, j, w) && 0 < |j.completedPaths| <= |g.acts|
    requires !env.ctxDone(j.sequence) && env.clock(j.sequence + 1) == 0 && Working(j.stage)
    ensures var i, w' := |j.completedPaths| - 1, RunActions(g.codec, g.acts, env, j, w, Unlimited).world;
            w'.history == w.history && SlotAt(w', g.acts[i].path) == SlotAt(w, g.acts[i].path)
  {
    var k := |j.completedPaths|;
    if k < |g.acts| {
      var a := g.acts[k];
      assert g.acts[k - 1].path != a.path;
      ActionEffect(g.codec, a, w, Unlimited);
      NeverStops(g.codec, w.other, a, SlotAt(w, a.path));
      assert !LegalNext(g.acts, Some(j), ActionEntry(env, j, a));
    } else {
      assert !LegalNext(g.acts, Some(j), CompletedEntry(env, j));
    }
  }

  /** The number of the entry that records action `i` when nothing goes wrong. */
  function EntryNumber(plan: Plan, i: nat): nat
  {
    1 + (if plan.requiredExport then 1 else 0) + i + 1
  }

  lemma RunStopsAfter(g: Guard, env: Env, j: Journal, w: World, i: nat)
    requires GuardOk(g) && At(g, w, j) && j.stage == Admitted && j.sequence == 1 && j.updatedAt == 1 && i < |g.acts|
    requires Still(env, EntryNumber(g.plan, i)) && ValidExportId(env.exportId) && RestDone(g, w, 0)
    ensures var w' := RunFrom(g.codec, g.acts, env, j, w, Unlimited).world;
            StoppedAfter(g, w', i, After(g.codec, w.other, g.acts[i], SlotAt(w, g.acts[i].path)))
  {
    AtEntry(g, w, j);
    var m := EntryNumber(g.plan, i);
    if j.plan.requiredExport {
      var next, w' := ExportStill(g, env, j, w);
      LoopStopsAfter(g, env, next, w', i, m);
    } else {
      LoopStopsAfter(g, env, j, w, i, m);
    }
  }

  lemma ExportStill(g: Guard, env: Env, j: Journal, w: World) returns (next: Journal, w': World)
    requires GuardOk(g) && At(g, w, j) && j.stage == Admitted && j.plan.requiredExport && Timely(env, j)
    requires !env.ctxDone(j.sequence) && ValidExportId(env.exportId)
    ensures CanAct(g, next, w') && next == ExportEntry(env, j)
    ensures RunFrom(g.codec, g.acts, env, j, w, Unlimited) == RunActions(g.codec, g.acts, env, next, w', Unlimited)
    ensures w'.slots == w.slots && w'.other == w.other
  {
    AtEntry(g, w, j);
    ExportKeeps(g, env, j, w, Unlimited);
    ExportEntryLegal(g.acts, env, j);
    next := ExportEntry(env, j);
    w' := Persist(g.acts, Some(j), next, w.(exports := w.exports + {env.exportId}), Unlimited).world;
  }

  /** From the untouched repository, an invocation that gets exactly as far as recording action `i`. */
  lemma ApplyStopsAfter(h: Hasher, g: Guard, env: Env, i: nat)
    requires GuardOk(g) && PlanValid(h, g.plan) && g.plan.policy.mutationEnabled && g.acts == Mutating(g.plan.actions)
    requires i < |g.acts| && env.fuel.Unlimited? && Still(env, EntryNumber(g.plan, i)) && ValidExportId(env.exportId)
    requires RestDone(g, g.start, 0)
    ensures var w' := ApplyGC(h, g.codec, env, g.plan, g.start).world;
            StoppedAfter(g, w', i, After(g.codec, g.start.other, g.acts[i], SlotAt(g.start, g.acts[i].path)))
  {
    StartInv(g);
    LoadFinds(h, g, g.start);
    var j := Admission(env, g.plan);
    assert env.clock(1) == 1;
    AdmissionLegal(g.acts, env, g.plan);
    AdmissionKeeps(g, env, Unlimited);
    RunStopsAfter(g, env, j, Persist(g.acts, None, j, g.start, Unlimited).world, i);
  }

  // --------------------------------------------------------------------- needed

  /** An action that succeeds but leaves what recovery does not accept: stopping right after it strands the
      operation. */
  lemma UnacceptedStrands(h: Hasher, c: Codec, plan: Plan, start: World, i: nat)
    requires Admissible(h, plan, start) && plan.policy.mutationEnabled && i < |Mutating(plan.actions)|
    requires RestDone(Unguarded(c, plan, start), start, 0)
    requires var a := Mutating(plan.actions)[i];
             !Reconciles(c, AppliedStage(a.kind), a, After(c, start.other, a, SlotAt(start, a.path)))
    ensures !AlwaysResumable(h, c, plan, start)
  {
    var g := Unguarded(c, plan, start);
    var id := SomeExportId();
    var env := StillEnv(g.acts, id, EntryNumber(plan, i));
    var last := CalmEnv(g.acts, id);
    UnguardedOk(h, c, plan, start);
    ApplyStopsAfter(h, g, env, i);
    RunsKeep(h, g, [env]);
    OneRun(h, c, env, plan, start);
    var w := Runs(h, c, [env], plan, start);
    StoppedUnreconciled(h, g, w, i, last);
    CalmEnvIsCalm(g.acts, id, w);
    NotResumable(h, c, plan, start, [env], last);
  }

  lemma OneRun(h: Hasher, c: Codec, env: Env, plan: Plan, start: World)
    ensures Runs(h, c, [env], plan, start) == ApplyGC(h, c, env, plan, start).world
  {
    assert [env][..0] == [];
  }

  lemma NotResumable(h: Hasher, c: Codec, plan: Plan, start: World, envs: seq<Env>, last: Env)
    requires var acts, w := Mutating(plan.actions), Runs(h, c, envs, plan, start);
             Uninterrupted(acts, last, w) && Intact(acts, w) && ApplyGC(h, c, last, plan, w).verdict == Refused
    ensures !AlwaysResumable(h, c, plan, start)
  {
    assert !Resumes(h, c, plan, start, envs, last);
  }

  lemma StoppedUnreconciled(h: Hasher, g: Guard, w: World, i: nat, last: Env)
    requires PlanValid(h, g.plan) && g.acts == Mutating(g.plan.actions) && Blank(g.start) && Inv(g, w) && i < |g.acts|
    requires StoppedAfter(g, w, i, SlotAt(w, g.acts[i].path))
    requires !Reconciles(g.codec, AppliedStage(g.acts[i].kind), g.acts[i], SlotAt(w, g.acts[i].path))
    ensures Intact(g.acts, w) && ApplyGC(h, g.codec, last, g.plan, w) == Run(w, Refused)
  {
    UnreconciledRefused(h, g, last, w);
  }

  lemma UndoableStrands(h: Hasher, c: Codec, plan: Plan, start: World)
    requires Admissible(h, plan, start) && plan.policy.mutationEnabled && !RestDone(Unguarded(c, plan, start), start, 0)
    ensures !AlwaysResumable(h, c, plan, start)
  {
    var g := Unguarded(c, plan, start);
    var id := SomeExportId();
    var last := CalmEnv(g.acts, id);
    UnguardedOk(h, c, plan, start);
    StartInv(g);
    CalmEnvIsCalm(g.acts, id, start);
    FinishesExactly(h, g, last, start);
    assert Runs(h, c, [], plan, start) == start;
    NotResumable(h, c, plan, start, [], last);
  }

  lemma UnworkableStrands(h: Hasher, input: PlanInput, cs: seq<Candidate>, plan: Plan, c: Codec, w: World, a: Action)
    requires Collection(h, input, cs, plan, c, w) && input.policy.mutationEnabled
    requires a in plan.actions && IsMutating(a) && !Workable(c, a, SlotAt(w, a.path))
    ensures !AlwaysResumable(h, c, plan, w)
  {
    var g := Unguarded(c, plan, w);
    if RestDone(g, w, 0) {
      MutatingMembers(plan.actions);
      assert a in g.acts;
      var i :| 0 <= i < |g.acts| && g.acts[i] == a;
      DoableHere(h, input, cs, plan, c, w, a);
      UnacceptedStrands(h, c, plan, w, i);
    } else {
      UndoableStrands(h, c, plan, w);
    }
  }

  /** A planned operation can be resumed from wherever it stops without tearing a pair if and only if every planned
      artifact is workable: not empty, no foreign leftovers beside it, and a manifest that names its own gz. */
  lemma ResumableExactly(h: Hasher, input: PlanInput, cs: seq<Candidate>, plan: Plan, c: Codec, w: World)
    requires Collection(h, input, cs, plan, c, w) && input.policy.mutationEnabled
    ensures AlwaysResumable(h, c, plan, w) <==> AllWorkable(c, plan, w)
  {
    if AllWorkable(c, plan, w) {
      WorkableResumes(h, input, cs, plan, c, w);
    } else {
      var a :| a in plan.actions && IsMutating(a) && !Workable(c, a, SlotAt(w, a.path));
      UnworkableStrands(h, input, cs, plan, c, w, a);
    }
  }
}
