/** The windows of the archive protocol, reached from an untouched repository: stopping after a given number of steps
    loses a ledger event or strands the archive. */
module ArchiveWindows {
  import opened Base
  import opened Archive
  import opened ArchiveSafety
  import opened ArchiveRuns

  function CapsuleSteps(q: Request): nat
  {
    if q.capsule.Some? then 1 else 0
  }

  /** The steps of an invocation on an untouched repository up to and including the journal entry of stage `n`: two for
      each record, one for the run, one for each event, one for each file, removal, staging and commit. */
  function StepsTo(q: Request, n: nat): nat
  {
    if n <= 2 then 8 + CapsuleSteps(q)
    else if n == 3 then 12 + CapsuleSteps(q)
    else 17 + CapsuleSteps(q)
  }

  /** A step of an invocation that used up exactly `steps` of its fuel and goes on. */
  predicate Costs(s: Setup, t: Step, fuel: nat, steps: nat, stage: nat)
  {
    && t.verdict.None? && steps <= fuel && t.fuel == Limited(fuel - steps)
    && Inv(s, t.world) && StageOf(t.world) == stage && t.world.run.Some? && HasEvent(t.world.events, 1)
    && stage + 1 !in t.world.history
  }

  lemma AdmitCosts(s: Setup, env: Env, n: nat)
    requires Fresh(s) && env.quiet && env.fuel == Limited(n) && n >= 2
    ensures var t := Admit(s.request, env, s.start);
            && t.verdict.None? && t.fuel == Limited(n - 2) && StageOf(t.world) == 1 && 2 !in t.world.history
            && t.world == s.start.(history := t.world.history, journal := t.world.journal)
  {
    assert Admissible(s.request, env, s.start);
  }

  lemma OpenCosts(s: Setup, env: Env, n: nat)
    requires Fresh(s) && env.quiet && env.fuel == Limited(n) && n >= 4
    ensures var a := Admit(s.request, env, s.start);
            var t := Open(s.request, a.world, a.fuel);
            a.verdict.None? && Costs(s, t, n, 4, 1) && t.world.work == s.start.work
  {
    AdmitCosts(s, env, n);
    FreshInv(s);
    AdmitKeeps(s, env, s.start);
    var a := Admit(s.request, env, s.start);
    OpenKeeps(s, a.world, a.fuel);
    var w := a.world.(run := Some(LedgerRun(false, "")));
    assert w.events == [];
    assert FirstOf(w.events, 1) == None;
    assert Open(s.request, a.world, a.fuel).fuel == Limited(n - 4);
  }

  /** Recording a stage costs two steps and its event one more; with exactly two left the event is missed. */
  lemma RecordCosts(s: Setup, w: World, n: nat, m: nat)
    requires Inv(s, w) && 2 <= n <= 4 && StageOf(w) == n - 1 && w.run.Some? && HasEvent(w.events, 1) && n !in w.history
    requires DiskOk(s, w, n) && (n >= 4 ==> CommitName(s, w.commits) != "") && m >= 2
    ensures var t := RecordStage(s.request, n, CommitAt(n, CommitName(s, w.commits)), w, Limited(m));
            && t.world.work == w.work && t.world.index == w.index && t.world.commits == w.commits
            && (if m == 2 then t.verdict == Some(MissedEvent(n)) else Costs(s, t, m, 3, n))
  {
    var commit := CommitAt(n, CommitName(s, w.commits));
    RecordStageKeeps(s, w, n, Limited(m));
    PersistCosts(s.request, w, n, commit, m);
    NextUnrecorded(s, w, n);
    NotYetTold(s, w, n);
    FirstIsThere(w.events, n);
    EventAdds(w.events, LedgerEvent(n, s.request.operation, commit), 1);
  }

  lemma PersistCosts(q: Request, w: World, n: nat, commit: string, m: nat)
    requires n !in w.history && m >= 2
    ensures PersistStage(q, n, commit, w, Limited(m))
         == Point(w.(history := w.history[n := Record(q.operation, n, n, commit)],
             journal := Some(Journal(q.operation, n, commit))),
                  Limited(m - 2), Done)
  {
  }

  lemma NextUnrecorded(s: Setup, w: World, n: nat)
    requires Inv(s, w) && StageOf(w) == n - 1
    ensures n + 1 !in w.history
  {
  }

  lemma NotYetTold(s: Setup, w: World, n: nat)
    requires Inv(s, w) && 2 <= n <= 4 && StageOf(w) == n - 1
    ensures !HasEvent(w.events, n)
  {
  }

  lemma PublishCosts(s: Setup, w: World, m: nat)
    requires Fresh(s) && Inv(s, w) && StageOf(w) == 1 && w.work == s.start.work && m >= 2 + CapsuleSteps(s.request)
    ensures var p := PublishTask(s.request, w, Limited(m));
            && p.status == Done && p.fuel == Limited(m - 2 - CapsuleSteps(s.request))
            && p.world == w.(work := Target(s.request).(task := Some(s.request.task)))
  {
  }

  lemma Stage2Costs(s: Setup, w: World, m: nat)
    requires Fresh(s) && Inv(s, w) && StageOf(w) == 1 && w.work == s.start.work && 2 !in w.history
    requires w.run.Some? && HasEvent(w.events, 1) && m >= 4 + CapsuleSteps(s.request)
    ensures var t, c := Stage2(s.request, w, Limited(m)), CapsuleSteps(s.request);
            && GitUntouched(w, t.world)
            && (if m == 4 + c then t.verdict == Some(MissedEvent(2))
                else Costs(s, t, m, 5 + c, 2) && t.world.work.task == Some(s.request.task))
  {
    PublishCosts(s, w, m);
    PublishKeeps(s, w, Limited(m));
    var p := PublishTask(s.request, w, Limited(m));
    RecordCosts(s, p.world, 2, m - 2 - CapsuleSteps(s.request));
  }

  lemma Stage3Costs(s: Setup, w: World, m: nat)
    requires Fresh(s) && Inv(s, w) && StageOf(w) == 2 && w.work.task == Some(s.request.task) && 3 !in w.history
    requires w.run.Some? && HasEvent(w.events, 1) && m >= 3
    ensures var t := Stage3(s.request, w, Limited(m));
            && GitUntouched(w, t.world)
            && (if m == 3 then t.verdict == Some(MissedEvent(3)) else Costs(s, t, m, 4, 3))
  {
    RemoveKeeps(s, w, Limited(m));
    var p := RemoveActive(s.request, w, Limited(m));
    RecordCosts(s, p.world, 3, m - 1);
  }

  /** The active task is still in the index, so that its removal can be staged. */
  predicate Tracked(s: Setup)
  {
    s.start.index.task.Some?
  }

  lemma StageOnly(s: Setup, env: Env, w: World)
    requires Fresh(s) && Tracked(s) && Inv(s, w) && StageOf(w) == 3 && w.index == s.start.index
             && w.commits == s.start.commits
    requires Quiet(s, env)
    ensures Stage4(s.request, env, w, Limited(1)) == Step(w.(index := w.work), Limited(0), Some(Interrupted))
  {
    assert !StatusClean(w);
    NothingArchivedYet(s, w.(index := w.work));
  }

  lemma CommitCosts(s: Setup, env: Env, w: World, m: nat)
    requires Fresh(s) && Tracked(s) && Inv(s, w) && StageOf(w) == 3 && w.index == s.start.index
             && w.commits == s.start.commits
    requires Quiet(s, env) && m >= 2
    ensures var c := CommitArchive(s.request, env, w, Limited(m));
            c.status == Done && c.fuel == Limited(m - 2) && c.world.history == w.history && c.world.journal == w.journal
            && c.world.run == w.run && c.world.events == w.events
  {
    assert !StatusClean(w);
    NothingArchivedYet(s, w.(index := w.work));
    assert |w.commits| > 0 ==> w.commits[|w.commits| - 1].sha != env.sha;
  }

  lemma Stage4Misses(s: Setup, env: Env, w: World)
    requires Fresh(s) && Tracked(s) && Inv(s, w) && StageOf(w) == 3 && w.index == s.start.index
             && w.commits == s.start.commits
    requires Quiet(s, env) && 4 !in w.history && w.run.Some? && HasEvent(w.events, 1)
    ensures Stage4(s.request, env, w, Limited(4)).verdict == Some(MissedEvent(4))
    ensures Stage4(s.request, env, w, Limited(4)).world.commits != s.start.commits
  {
    CommitCosts(s, env, w, 4);
    CommitKeeps(s, env, w, Limited(4));
    var c := CommitArchive(s.request, env, w, Limited(4));
    RecordCosts(s, c.world, 4, 2);
  }

  // --------------------------------------------------------------- the whole invocation

  /** With enough steps for it an invocation publishes the archive. */
  lemma ReachesRemoval(s: Setup, env: Env, n: nat) returns (t: Step)
    requires Fresh(s) && Quiet(s, env) && env.fuel == Limited(n) && n >= 9 + CapsuleSteps(s.request)
    ensures Costs(s, t, n, 9 + CapsuleSteps(s.request), 2) && GitUntouched(s.start, t.world)
    ensures t.world.work.task == Some(s.request.task)
    ensures ArchiveTask(s.request, env, s.start) == AfterStage3(s.request, env, Stage3(s.request, t.world, t.fuel))
  {
    OpenCosts(s, env, n);
    OpenUntouched(s, env);
    var a := Admit(s.request, env, s.start);
    var o := Open(s.request, a.world, a.fuel);
    Stage2Costs(s, o.world, n - 4);
    t := Stage2(s.request, o.world, o.fuel);
  }

  /** With enough steps for it an invocation gets past stage 3, with what is left for the commit. */
  lemma ReachesCommit(s: Setup, env: Env, n: nat) returns (t: Step)
    requires Fresh(s) && Quiet(s, env) && env.fuel == Limited(n) && n >= 13 + CapsuleSteps(s.request)
    ensures Costs(s, t, n, 13 + CapsuleSteps(s.request), 3) && GitUntouched(s.start, t.world)
    ensures ArchiveTask(s.request, env, s.start) == AfterStage3(s.request, env, t)
  {
    var s2 := ReachesRemoval(s, env, n);
    Stage3Costs(s, s2.world, n - 9 - CapsuleSteps(s.request));
    t := Stage3(s.request, s2.world, s2.fuel);
  }

  lemma OpenUntouched(s: Setup, env: Env)
    requires Fresh(s) && Admit(s.request, env, s.start).verdict.None?
    ensures var a := Admit(s.request, env, s.start); GitUntouched(s.start, Open(s.request, a.world, a.fuel).world)
  {
    FreshInv(s);
    AdmitKeeps(s, env, s.start);
    var a := Admit(s.request, env, s.start);
    OpenKeeps(s, a.world, a.fuel);
  }

  lemma MissesFirst(s: Setup, env: Env)
    requires Fresh(s) && Quiet(s, env) && env.fuel == Limited(StepsTo(s.request, 2))
    ensures var r := ArchiveTask(s.request, env, s.start); r.verdict == MissedEvent(2) && GitUntouched(s.start, r.world)
  {
    var n := StepsTo(s.request, 2);
    OpenCosts(s, env, n);
    OpenUntouched(s, env);
    var a := Admit(s.request, env, s.start);
    Stage2Costs(s, Open(s.request, a.world, a.fuel).world, n - 4);
  }

  lemma MissesSecond(s: Setup, env: Env)
    requires Fresh(s) && Quiet(s, env) && env.fuel == Limited(StepsTo(s.request, 3))
    ensures var r := ArchiveTask(s.request, env, s.start); r.verdict == MissedEvent(3) && GitUntouched(s.start, r.world)
  {
    var t := ReachesRemoval(s, env, StepsTo(s.request, 3));
    Stage3Costs(s, t.world, 3);
  }

  /** From an untouched repository, an invocation that stops right after the journal entry of stage 2, 3 or 4 misses
      that stage's event. */
  lemma Misses(s: Setup, env: Env, stage: nat)
    requires Fresh(s) && Tracked(s) && Quiet(s, env) && 2 <= stage <= 4
             && env.fuel == Limited(StepsTo(s.request, stage))
    ensures ArchiveTask(s.request, env, s.start).verdict == MissedEvent(stage)
    ensures !Stranded(s, ArchiveTask(s.request, env, s.start).world)
  {
    if stage == 2 {
      MissesFirst(s, env);
    } else if stage == 3 {
      MissesSecond(s, env);
    } else {
      MissesLast(s, env);
    }
  }

  lemma MissesLast(s: Setup, env: Env)
    requires Fresh(s) && Tracked(s) && Quiet(s, env) && env.fuel == Limited(StepsTo(s.request, 4))
    ensures ArchiveTask(s.request, env, s.start).verdict == MissedEvent(4)
    ensures ArchiveTask(s.request, env, s.start).world.commits != s.start.commits
  {
    var t := ReachesCommit(s, env, StepsTo(s.request, 4));
    LastStageMisses(s, env, t);
  }

  lemma LastStageMisses(s: Setup, env: Env, t: Step)
    requires Fresh(s) && Tracked(s) && Quiet(s, env) && Costs(s, t, StepsTo(s.request, 4), StepsTo(s.request, 4) - 4, 3)
    requires GitUntouched(s.start, t.world)
    ensures var r := AfterStage3(s.request, env, t); r.verdict == MissedEvent(4) && r.world.commits != s.start.commits
  {
    Stage4Misses(s, env, t.world);
  }

  lemma OneInvocation(q: Request, env: Env, w: World)
    ensures After(q, [env], w) == ArchiveTask(q, env, w).world
            && Verdicts(q, [env], w) == [ArchiveTask(q, env, w).verdict]
  {
    assert [env][..0] == [];
  }

  lemma TwoInvocations(q: Request, a: Env, b: Env, w: World)
    ensures After(q, [a, b], w) == ArchiveTask(q, b, After(q, [a], w)).world
    ensures ArchiveTask(q, a, w).verdict in Verdicts(q, [a, b], w)
  {
    assert [a, b][..1] == [a];
    OneInvocation(q, a, w);
    assert Verdicts(q, [a, b], w)[0] == ArchiveTask(q, a, w).verdict;
  }

  lemma MissedUnverified(s: Setup, stage: nat, envs: seq<Env>)
    requires Fresh(s) && 2 <= stage <= 4 && MissedEvent(stage) in Verdicts(s.request, envs, s.start)
    requires StageOf(After(s.request, envs, s.start)) == 5
    ensures !LedgerVerified(After(s.request, envs, s.start))
  {
    VerifiedExactly(s, envs);
    SomeMissed(Verdicts(s.request, envs, s.start), stage);
  }

  lemma SomeMissed(verdicts: seq<Verdict>, stage: nat)
    requires 2 <= stage <= 4 && MissedEvent(stage) in verdicts
    ensures !NoneMissed(verdicts)
  {
    assert stage == 2 || stage == 3 || stage == 4;
  }

  /** The windows are real: one such interruption, then an undisturbed retry, and the finished archive does not
      verify. */
  lemma EventCanBeMissed(s: Setup, stage: nat, first: Env, second: Env)
    requires Fresh(s) && Tracked(s) && 2 <= stage <= 4
    requires Quiet(s, first) && first.fuel == Limited(StepsTo(s.request, stage))
    requires Quiet(s, second) && second.fuel.Unlimited?
    ensures var w := After(s.request, [first, second], s.start);
            StageOf(w) == 5 && MissedEvent(stage) in Verdicts(s.request, [first, second], s.start) && !LedgerVerified(w)
  {
    Misses(s, first, stage);
    OneInvocation(s.request, first, s.start);
    TwoInvocations(s.request, first, second, s.start);
    RetryFinishes(s, [first], second);
    MissedUnverified(s, stage, [first, second]);
  }

  /** Stranding is real: from an untouched repository, an invocation that stops between staging and commit leaves an
      archive no later invocation finishes while `git add` refuses unmatched paths. */
  lemma {:induction false} StagingCanStrand(s: Setup, first: Env, later: seq<Env>)
    requires Fresh(s) && Tracked(s) && Quiet(s, first) && first.fuel == Limited(14 + CapsuleSteps(s.request))
    requires forall i :: 0 <= i < |later| ==> !later[i].lenient
    ensures var w := ArchiveTask(s.request, first, s.start).world;
            Stranded(s, w) && StageOf(After(s.request, later, w)) < 5
  {
    var t := ReachesCommit(s, first, 14 + CapsuleSteps(s.request));
    StageOnly(s, first, t.world);
    FreshInv(s);
    ArchiveKeeps(s, first, s.start);
    StrandedForever(s, ArchiveTask(s.request, first, s.start).world, later);
  }
}
