/** What every sequence of interrupted and retried archive invocations keeps, and when the archive verifies. */
module ArchiveSafety {
  import opened Base
  import opened Archive

  /** One request against the repository it found. */
  datatype Setup = Setup(request: Request, start: World)

  /** Nothing of the operation exists yet: the exact task is active, HEAD has no archive files, nothing is staged
      and no commit carries the operation's name. */
  predicate Fresh(s: Setup)
  {
    var q, w := s.request, s.start;
    && |q.task| > 0
    && w.work == Files(Some(q.task), None, None, None)
    && w.index == Head(w) && w.work == w.index.(task := w.work.task)
    && w.history == map[] && w.journal == None && w.run == None && w.events == []
    && forall i :: 0 <= i < |w.commits| ==> w.commits[i].operation != q.operation
  }

  /** The worktree once the active task is gone. */
  function Target(q: Request): Files
  {
    Files(None, Some(q.task), q.capsule, Some(q.manifest))
  }

  // ----------------------------------------------------------------- invariant

  /** The operation's commit, or the empty string before there is one. */
  function CommitName(s: Setup, commits: seq<Commit>): string
  {
    if |commits| > |s.start.commits| then commits[|commits| - 1].sha else ""
  }

  function CommitAt(n: nat, commit: string): string
  {
    if n >= 4 then commit else ""
  }

  predicate JournalOk(q: Request, journal: Option<Journal>, commit: string)
  {
    journal.Some? ==>
        1 <= journal.value.stage <= 5
            && journal == Some(Journal(q.operation, journal.value.stage, CommitAt(journal.value.stage, commit)))
  }

  /** Records exist for every stage reached and at most for the next one. */
  predicate HistoryOk(q: Request, history: map<nat, Record>, stage: nat, commit: string)
  {
    && (forall n :: n in history ==>
        1 <= n <= 5 && n <= stage + 1 && history[n] == Record(q.operation, n, n, CommitAt(n, commit)))
    && (forall n :: n in history && n >= 4 ==> commit != "")
    && (forall n: nat :: 1 <= n <= stage ==> n in history)
  }

  predicate Partial(have: Option<Bytes>, want: Option<Bytes>)
  {
    have.None? || have == want
  }

  predicate FilesOk(q: Request, work: Files, stage: nat)
  {
    && (if stage < 2 then work.task == Some(q.task) else Partial(work.task, Some(q.task)))
    && (stage >= 3 ==> work.task == None)
    && (if stage == 0 then work == Files(work.task, None, None, None)
        else
          && Partial(work.archived, Some(q.task)) && Partial(work.capsule, q.capsule)
          && Partial(work.manifest, Some(q.manifest)))
    && (stage >= 2 ==> work == Target(q).(task := work.task))
  }

  predicate GitUntouched(w: World, w': World)
  {
    w'.index == w.index && w'.commits == w.commits
  }

  predicate CommitsOk(s: Setup, commits: seq<Commit>)
  {
    || commits == s.start.commits
    || (&& |commits| == |s.start.commits| + 1 && commits[..|s.start.commits|] == s.start.commits
        && commits[|s.start.commits|].sha != "" && commits[|s.start.commits|].operation == s.request.operation
        && commits[|s.start.commits|].tree == Target(s.request))
  }

  predicate GitOk(s: Setup, work: Files, index: Files, commits: seq<Commit>, stage: nat)
  {
    && CommitsOk(s, commits)
    && (stage < 3 ==> commits == s.start.commits && index == s.start.index)
    && (stage >= 4 ==> commits != s.start.commits)
    && (if commits == s.start.commits then index == s.start.index || index == work
        else index == work == Target(s.request))
  }

  predicate EventsOk(q: Request, events: seq<LedgerEvent>, stage: nat, commit: string)
  {
    && (forall i :: 0 <= i < |events| ==>
          && events[i] == LedgerEvent(events[i].kind, q.operation, CommitAt(events[i].kind, commit))
          && 1 <= events[i].kind <= 5 && stage >= (if events[i].kind == 5 then 4 else events[i].kind))
    && (forall i, j :: 0 <= i < j < |events| ==> events[i].kind != events[j].kind)
  }

  predicate LedgerOk(q: Request, run: Option<LedgerRun>, events: seq<LedgerEvent>, stage: nat, commit: string)
  {
    && EventsOk(q, events, stage, commit)
    && (run.None? ==> events == []) && (stage == 0 ==> run.None?)
    && (stage >= 2 ==> HasEvent(events, 1))
    && (run.Some? && run.value.completed ==> stage >= 4 && run.value.commit == commit)
    && (stage == 5 ==> HasEvent(events, 5) && run.Some? && run.value.completed)
  }

  /** The disk is as stage `stage` requires. */
  predicate DiskOk(s: Setup, w: World, stage: nat)
  {
    && FilesOk(s.request, w.work, stage) && GitOk(s, w.work, w.index, w.commits, stage)
    && LedgerOk(s.request, w.run, w.events, stage, CommitName(s, w.commits))
  }

  predicate Inv(s: Setup, w: World)
  {
    && JournalOk(s.request, w.journal, CommitName(s, w.commits))
    && HistoryOk(s.request, w.history, StageOf(w), CommitName(s, w.commits))
    && DiskOk(s, w, StageOf(w))
  }

  lemma FreshInv(s: Setup)
    requires Fresh(s)
    ensures Inv(s, s.start)
  {
  }

  // ------------------------------------------------------------------ the fate of events

  /** Stages only advance, records and commits stay, and an event of stages 2 to 4 is there exactly if it was
      before or the stage was reached without stopping right before the event. */
  predicate Fate(w: World, w': World, v: Option<Verdict>)
  {
    && StageOf(w) <= StageOf(w') && w.commits <= w'.commits
    && (forall n :: n in w.history ==> n in w'.history && w'.history[n] == w.history[n])
    && (forall n: nat :: 2 <= n <= 4 ==>
          (HasEvent(w'.events, n) <==>
              HasEvent(w.events, n) || (StageOf(w) < n <= StageOf(w') && v != Some(MissedEvent(n)))))
    && (v.Some? && v.value.MissedEvent? ==> 2 <= v.value.stage <= 4 && StageOf(w) < v.value.stage == StageOf(w'))
  }

  /** What one stage of an invocation does: the invariant stays, and in a quiet repository nothing is refused. */
  predicate StepGood(s: Setup, w: World, f: Fuel, t: Step, quiet: bool)
  {
    && Inv(s, t.world) && t.verdict != Some(Archived) && (quiet ==> t.verdict != Some(Refused))
    && (t.verdict.Some? ==> StageOf(t.world) < 5)
    && Fate(w, t.world, t.verdict)
    && (quiet && f.Unlimited? ==> t.verdict.None? && t.fuel.Unlimited?)
  }

  lemma FateComposes(a: World, b: World, c: World, v: Option<Verdict>)
    requires Fate(a, b, None) && Fate(b, c, v)
    ensures Fate(a, c, v)
  {
  }

  // ----------------------------------------------------------------- persisting

  lemma HistoryGrows(q: Request, history: map<nat, Record>, n: nat, commit: string)
    requires 1 <= n <= 5 && HistoryOk(q, history, n - 1, commit) && (n >= 4 ==> commit != "")
    ensures var r := Record(q.operation, n, n, CommitAt(n, commit));
            HistoryOk(q, history[n := r], n - 1, commit) && HistoryOk(q, history[n := r], n, commit)
    ensures n in history ==> history[n] == Record(q.operation, n, n, CommitAt(n, commit))
  {
  }

  lemma RecordKeeps(s: Setup, w: World, n: nat, f: Fuel)
    requires Inv(s, w) && n == StageOf(w) + 1 <= 5 && (n >= 4 ==> CommitName(s, w.commits) != "")
    ensures var c := CommitName(s, w.commits);
            var p := WriteHistory(Record(s.request.operation, n, n, CommitAt(n, c)), w, f);
            && Inv(s, p.world) && p.status != Failed
            && p.world == w.(history := p.world.history)
            && (p.status == Done ==> HistoryOk(s.request, p.world.history, n, c))
            && (f.Unlimited? ==> p.status == Done && p.fuel.Unlimited?)
  {
    var c := CommitName(s, w.commits);
    var r := Record(s.request.operation, n, n, CommitAt(n, c));
    HistoryGrows(s.request, w.history, n, c);
    if n in w.history {
      assert w.history[n := r] == w.history;
    }
  }

  /** Writing stage `n` over a disk ready for it keeps the invariant at both steps. */
  lemma PersistKeeps(s: Setup, w: World, n: nat, f: Fuel)
    requires Inv(s, w) && n == StageOf(w) + 1 <= 5 && DiskOk(s, w, n) && (n >= 4 ==> CommitName(s, w.commits) != "")
    ensures var p := PersistStage(s.request, n, CommitAt(n, CommitName(s, w.commits)), w, f);
            && Inv(s, p.world) && p.status != Failed
            && p.world == w.(history := p.world.history, journal := p.world.journal)
            && StageOf(p.world) == (if p.status == Done then n else n - 1)
            && (p.status == Done ==> p.world.journal.Some?)
            && (f.Unlimited? ==> p.status == Done && p.fuel.Unlimited?)
  {
    RecordKeeps(s, w, n, f);
    var c := CommitName(s, w.commits);
    var p := WriteHistory(Record(s.request.operation, n, n, CommitAt(n, c)), w, f);
    if p.status == Done {
      var w' := p.world.(journal := Some(Journal(s.request.operation, n, CommitAt(n, c))));
      assert JournalOk(s.request, w'.journal, c);
      assert DiskOk(s, w', n);
    }
  }

  // --------------------------------------------------------------------- events

  lemma EventAdds(events: seq<LedgerEvent>, e: LedgerEvent, kind: nat)
    ensures HasEvent(events + [e], kind) <==> HasEvent(events, kind) || e.kind == kind
  {
    var all := events + [e];
    assert all[|events|] == e;
    assert forall i :: 0 <= i < |events| ==> all[i] == events[i];
  }

  lemma {:induction false} FirstIsThere(events: seq<LedgerEvent>, kind: nat)
    ensures FirstOf(events, kind).Some? <==> HasEvent(events, kind)
    ensures FirstOf(events, kind).Some? ==>
            FirstOf(events, kind).value in events && FirstOf(events, kind).value.kind == kind
    decreases |events|
  {
    if |events| > 0 {
      FirstIsThere(events[1..], kind);
      if HasEvent(events[1..], kind) {
        var i :| 0 <= i < |events[1..]| && events[1..][i].kind == kind;
        assert events[i + 1].kind == kind;
      }
    }
  }

  lemma EventsGrow(q: Request, events: seq<LedgerEvent>, kind: nat, stage: nat, commit: string)
    requires EventsOk(q, events, stage, commit) && !HasEvent(events, kind)
    requires 1 <= kind <= 5 && stage >= (if kind == 5 then 4 else kind)
    ensures EventsOk(q, events + [LedgerEvent(kind, q.operation, CommitAt(kind, commit))], stage, commit)
  {
    var e := LedgerEvent(kind, q.operation, CommitAt(kind, commit));
    var all := events + [e];
    assert all[|events|] == e;
    assert forall i :: 0 <= i < |events| ==> all[i] == events[i];
  }

  /** Ensuring an event that may exist at this stage: it is there with the right payload, or is appended. */
  lemma EventKeeps(s: Setup, w: World, kind: nat, f: Fuel)
    requires Inv(s, w) && w.run.Some? && 1 <= kind <= 5 && StageOf(w) >= (if kind == 5 then 4 else kind)
    ensures var p := EnsureEvent(s.request, kind, CommitAt(kind, CommitName(s, w.commits)), w, f);
            && Inv(s, p.world) && p.status != Failed && p.world == w.(events := p.world.events)
            && (p.status == Done ==> HasEvent(p.world.events, kind))
            && (p.status == Stopped ==> p.world == w && !HasEvent(w.events, kind))
            && (forall k :: k != kind ==> (HasEvent(p.world.events, k) <==> HasEvent(w.events, k)))
            && (f.Unlimited? ==> p.status == Done && p.fuel.Unlimited?)
  {
    var c := CommitName(s, w.commits);
    var e := LedgerEvent(kind, s.request.operation, CommitAt(kind, c));
    FirstIsThere(w.events, kind);
    if !HasEvent(w.events, kind) {
      EventsGrow(s.request, w.events, kind, StageOf(w), c);
      forall k
        ensures HasEvent(w.events + [e], k) <==> HasEvent(w.events, k) || k == kind
      {
        EventAdds(w.events, e, k);
      }
    }
  }

  lemma RecordStageKeeps(s: Setup, w: World, n: nat, f: Fuel)
    requires Inv(s, w) && 2 <= n <= 4 && StageOf(w) == n - 1 && w.run.Some?
    requires DiskOk(s, w, n) && (n >= 4 ==> CommitName(s, w.commits) != "")
    ensures var t := RecordStage(s.request, n, CommitAt(n, CommitName(s, w.commits)), w, f);
            && StepGood(s, w, f, t, true) && t.world.work == w.work && GitUntouched(w, t.world)
            && (t.verdict.None? ==> StageOf(t.world) == n && t.world.run == w.run)
  {
    var commit := CommitAt(n, CommitName(s, w.commits));
    var p := PersistStage(s.request, n, commit, w, f);
    PersistKeeps(s, w, n, f);
    assert !HasEvent(w.events, n);
    if p.status == Done {
      EventKeeps(s, p.world, n, p.fuel);
    }
  }

  // --------------------------------------------------------------------- stage 2

  /** Publication writes the archive files one by one and touches nothing else. */
  lemma PublishKeeps(s: Setup, w: World, f: Fuel)
    requires |s.request.task| > 0 && Inv(s, w) && StageOf(w) == 1
    ensures var p := PublishTask(s.request, w, f);
            && Inv(s, p.world) && p.status != Failed && p.world == w.(work := p.world.work)
            && (p.status == Done ==> p.world.work == Target(s.request).(task := Some(s.request.task)))
            && (f.Unlimited? ==> p.status == Done && p.fuel.Unlimited?)
  {
    var p := PublishTask(s.request, w, f);
    PublishedFiles(s.request, w, f);
    assert GitOk(s, p.world.work, w.index, w.commits, 1);
  }

  predicate Published(q: Request, w: World, f: Fuel, p: Point)
  {
    && FilesOk(q, p.world.work, 1) && p.status != Failed && p.world == w.(work := p.world.work)
    && (p.status == Done ==> p.world.work == Target(q).(task := Some(q.task)))
    && (f.Unlimited? ==> p.status == Done && p.fuel.Unlimited?)
  }

  lemma PublishedFiles(q: Request, w: World, f: Fuel)
    requires |q.task| > 0 && FilesOk(q, w.work, 1)
    ensures Published(q, w, f, PublishTask(q, w, f))
  {
    if w.work.archived.Some? {
      PublishedRest(q, w, f);
    } else if !Out(f) {
      PublishedRest(q, w.(work := w.work.(archived := Some(q.task))), Spend(f));
    }
  }

  lemma PublishedRest(q: Request, w: World, f: Fuel)
    requires FilesOk(q, w.work, 1) && w.work.archived == Some(q.task)
    ensures Published(q, w, f, PublishCapsule(q, w, f))
  {
  }

  lemma Stage2Keeps(s: Setup, w: World, f: Fuel)
    requires |s.request.task| > 0 && Inv(s, w) && StageOf(w) >= 1 && w.run.Some? && HasEvent(w.events, 1)
    ensures var t := Stage2(s.request, w, f);
            StepGood(s, w, f, t, true) && GitUntouched(w, t.world)
                && (t.verdict.None? ==> StageOf(t.world) >= 2 && t.world.run.Some?)
  {
    if StageOf(w) < 2 {
      PublishKeeps(s, w, f);
      var p := PublishTask(s.request, w, f);
      if p.status == Done {
        RecordStageKeeps(s, p.world, 2, p.fuel);
      }
    }
  }

  // --------------------------------------------------------------------- stage 3

  lemma RemoveKeeps(s: Setup, w: World, f: Fuel)
    requires Inv(s, w) && StageOf(w) == 2
    ensures var p := RemoveActive(s.request, w, f);
            && Inv(s, p.world) && p.status != Failed && p.world == w.(work := p.world.work)
            && (p.status == Done ==> p.world.work == Target(s.request))
            && (f.Unlimited? ==> p.status == Done && p.fuel.Unlimited?)
  {
    var p := RemoveActive(s.request, w, f);
    assert FilesOk(s.request, p.world.work, 2);
    assert GitOk(s, p.world.work, w.index, w.commits, 2);
  }

  lemma Stage3Keeps(s: Setup, w: World, f: Fuel)
    requires Inv(s, w) && StageOf(w) >= 2 && w.run.Some?
    ensures var t := Stage3(s.request, w, f);
            StepGood(s, w, f, t, true) && GitUntouched(w, t.world)
                && (t.verdict.None? ==> StageOf(t.world) >= 3 && t.world.run.Some?)
  {
    if StageOf(w) < 3 {
      RemoveKeeps(s, w, f);
      var p := RemoveActive(s.request, w, f);
      if p.status == Done {
        RecordStageKeeps(s, p.world, 3, p.fuel);
      }
    }
  }

  // --------------------------------------------------------------------- stage 4

  /** Nobody else touches the repository, and Git names the new commit properly. */
  predicate Quiet(s: Setup, env: Env)
  {
    env.quiet && env.sha != "" && forall i :: 0 <= i < |s.start.commits| ==> s.start.commits[i].sha != env.sha
  }

  /** Nothing is committed yet and the index no longer knows the active task: it was never tracked, or an earlier
      invocation staged its removal and stopped before the commit. */
  predicate Stranded(s: Setup, w: World)
  {
    w.commits == s.start.commits && w.index.task.None?
  }

  /** An invocation that nothing but its own interruption can keep from finishing. */
  predicate Smooth(s: Setup, env: Env, w: World)
  {
    Quiet(s, env) && (env.lenient || !Stranded(s, w))
  }

  predicate MadeGood(s: Setup, env: Env, w: World, f: Fuel, c: Committed)
  {
    && Inv(s, c.world) && c.world == w.(commits := c.world.commits)
    && (c.status == Done ==> c.world.commits != s.start.commits && c.sha == CommitName(s, c.world.commits) != "")
    && (Quiet(s, env) ==> c.status != Failed)
    && (Quiet(s, env) && f.Unlimited? ==> c.status == Done && c.fuel.Unlimited?)
  }

  predicate CommitGood(s: Setup, env: Env, w: World, f: Fuel, c: Committed)
  {
    && Inv(s, c.world) && c.world == w.(index := c.world.index, commits := c.world.commits)
    && (c.status == Done ==> c.world.commits != s.start.commits && c.sha == CommitName(s, c.world.commits) != "")
    && (Smooth(s, env, w) ==> c.status != Failed)
    && (Smooth(s, env, w) && f.Unlimited? ==> c.status == Done && c.fuel.Unlimited?)
  }

  /** A commit made before an interruption is found again at HEAD. */
  lemma ReconcileKeeps(s: Setup, env: Env, w: World, f: Fuel)
    requires Fresh(s) && Inv(s, w) && StageOf(w) == 3 && w.commits != s.start.commits
    ensures CommitGood(s, env, w, f, CommitArchive(s.request, env, w, f))
  {
    var n := |s.start.commits|;
    assert w.commits[n].tree == Target(s.request) == Head(w);
    assert n > 0 ==> w.commits[..n][n - 1] == s.start.commits[n - 1];
    assert Parent(w) == Head(s.start);
    assert StatusClean(w) && HeadProves(s.request, w);
  }

  lemma NewCommitKeeps(s: Setup, w: World, sha: string)
    requires Fresh(s) && Inv(s, w) && StageOf(w) == 3 && w.commits == s.start.commits && w.index == w.work && sha != ""
    ensures var w' := w.(commits := w.commits + [Commit(sha, s.request.operation, w.index)]);
            Inv(s, w') && w'.commits != s.start.commits && CommitName(s, w'.commits) == sha
  {
    var w' := w.(commits := w.commits + [Commit(sha, s.request.operation, w.index)]);
    assert w'.commits[..|w.commits|] == w.commits;
    assert CommitsOk(s, w'.commits);
    assert |w'.commits| == |s.start.commits| + 1;
    assert EventsOk(s.request, w.events, 3, sha);
    assert HistoryOk(s.request, w.history, 3, sha);
  }

  lemma NothingArchivedYet(s: Setup, w: World)
    requires Fresh(s) && w.commits == s.start.commits && w.index == Target(s.request)
    ensures AllStaged(s.request, w.index, Head(w))
  {
  }

  lemma MakeCommitKeeps(s: Setup, env: Env, w: World, f: Fuel)
    requires Fresh(s) && Inv(s, w) && StageOf(w) == 3 && w.commits == s.start.commits && w.index == w.work
    ensures MadeGood(s, env, w, f, MakeCommit(s.request, env, w, f))
  {
    NothingArchivedYet(s, w);
    if !Out(f) && env.sha != "" {
      NewCommitKeeps(s, w, env.sha);
      assert Quiet(s, env) && |w.commits| > 0 ==> w.commits[|w.commits| - 1].sha != env.sha;
    }
  }

  lemma CommitKeeps(s: Setup, env: Env, w: World, f: Fuel)
    requires Fresh(s) && Inv(s, w) && StageOf(w) == 3
    ensures CommitGood(s, env, w, f, CommitArchive(s.request, env, w, f))
  {
    if w.commits != s.start.commits {
      ReconcileKeeps(s, env, w, f);
    } else {
      assert !StatusClean(w);
      if w.index == w.work {
        MakeCommitKeeps(s, env, w, f);
      } else if !Out(f) {
        MakeCommitKeeps(s, env, w.(index := w.work), Spend(f));
      }
    }
  }

  lemma Stage4Keeps(s: Setup, env: Env, w: World, f: Fuel)
    requires Fresh(s) && Inv(s, w) && StageOf(w) >= 3 && w.run.Some?
    ensures var t := Stage4(s.request, env, w, f);
            StepGood(s, w, f, t, Smooth(s, env, w)) && (t.verdict.None? ==> StageOf(t.world) >= 4 && t.world.run.Some?)
  {
    if StageOf(w) < 4 {
      CommitKeeps(s, env, w, f);
      var c := CommitArchive(s.request, env, w, f);
      if c.status == Done {
        RecordStageKeeps(s, c.world, 4, c.fuel);
      }
    }
  }

  // --------------------------------------------------------------------- stage 5

  lemma CompleteKeeps(s: Setup, w: World, f: Fuel)
    requires Inv(s, w) && StageOf(w) == 4 && w.run.Some?
    ensures var p := CompleteRun(CommitName(s, w.commits), w, f);
            && Inv(s, p.world) && p.status != Failed && p.world == w.(run := p.world.run)
            && (p.status == Done ==> p.world.run == Some(LedgerRun(true, CommitName(s, w.commits))))
            && (f.Unlimited? ==> p.status == Done && p.fuel.Unlimited?)
  {
  }

  predicate RunGood(s: Setup, w: World, f: Fuel, r: Run, quiet: bool)
  {
    && Inv(s, r.world) && (quiet ==> r.verdict != Refused)
    && Fate(w, r.world, Some(r.verdict))
    && (r.verdict == Archived <==> StageOf(r.world) == 5)
    && (quiet && f.Unlimited? ==> r.verdict == Archived)
  }

  lemma Stage5Keeps(s: Setup, w: World, f: Fuel)
    requires Inv(s, w) && StageOf(w) >= 4 && w.run.Some?
    ensures RunGood(s, w, f, Stage5(s.request, w, f), true)
  {
    if StageOf(w) < 5 {
      var c := CommitName(s, w.commits);
      EventKeeps(s, w, 5, f);
      var e := EnsureEvent(s.request, 5, c, w, f);
      if e.status == Done {
        CompleteKeeps(s, e.world, e.fuel);
        var p := CompleteRun(c, e.world, e.fuel);
        if p.status == Done {
          PersistKeeps(s, p.world, 5, p.fuel);
        }
      }
    }
  }

  // ------------------------------------------------------------ one invocation

  lemma OpenKeeps(s: Setup, w: World, f: Fuel)
    requires Inv(s, w) && StageOf(w) >= 1
    ensures var t := Open(s.request, w, f);
            && StepGood(s, w, f, t, true) && GitUntouched(w, t.world)
            && (t.verdict.None? ==> StageOf(t.world) >= 1 && t.world.run.Some? && HasEvent(t.world.events, 1))
  {
    if w.run.Some? {
      EventKeeps(s, w, 1, f);
    } else if !Out(f) {
      var w' := w.(run := Some(LedgerRun(false, "")));
      assert Inv(s, w');
      EventKeeps(s, w', 1, Spend(f));
    }
  }

  lemma AdmitKeeps(s: Setup, env: Env, w: World)
    requires Fresh(s) && Inv(s, w)
    ensures var t := Admit(s.request, env, w);
            && StepGood(s, w, env.fuel, t, env.quiet) && GitUntouched(w, t.world)
                && (t.verdict.None? ==> StageOf(t.world) >= 1)
  {
    if w.journal.None? && env.quiet {
      assert Admissible(s.request, env, w);
      PersistKeeps(s, w, 1, env.fuel);
    }
  }

  lemma FromStage3(s: Setup, env: Env, t: Step)
    requires Fresh(s) && Inv(s, t.world) && t.verdict.None? && StageOf(t.world) >= 3 && t.world.run.Some?
    ensures RunGood(s, t.world, t.fuel, AfterStage3(s.request, env, t), Smooth(s, env, t.world))
  {
    Stage4Keeps(s, env, t.world, t.fuel);
    var s4 := Stage4(s.request, env, t.world, t.fuel);
    if s4.verdict.None? {
      Stage5Keeps(s, s4.world, s4.fuel);
      FateComposes(t.world, s4.world, Stage5(s.request, s4.world, s4.fuel).world,
          Some(Stage5(s.request, s4.world, s4.fuel).verdict));
    }
  }

  lemma RunComposes(s: Setup, w: World, f: Fuel, t: Step, r: Run, quiet: bool)
    requires StepGood(s, w, f, t, quiet) && t.verdict.None? && RunGood(s, t.world, t.fuel, r, quiet)
    ensures RunGood(s, w, f, r, quiet)
  {
    FateComposes(w, t.world, r.world, Some(r.verdict));
  }

  lemma StoppedRun(s: Setup, w: World, f: Fuel, t: Step, quiet: bool)
    requires StepGood(s, w, f, t, quiet) && t.verdict.Some?
    ensures RunGood(s, w, f, Run(t.world, t.verdict.value), quiet)
  {
  }

  lemma FromStage2(s: Setup, env: Env, w: World, f: Fuel)
    requires Fresh(s) && Inv(s, w) && StageOf(w) >= 2 && w.run.Some?
    ensures RunGood(s, w, f, AfterStage3(s.request, env, Stage3(s.request, w, f)), Smooth(s, env, w))
  {
    var t := Stage3(s.request, w, f);
    Stage3Keeps(s, w, f);
    if t.verdict.None? {
      FromStage3(s, env, t);
      RunComposes(s, w, f, t, AfterStage3(s.request, env, t), Smooth(s, env, w));
    } else {
      StoppedRun(s, w, f, t, Smooth(s, env, w));
    }
  }

  lemma FromOpen(s: Setup, env: Env, t: Step)
    requires Fresh(s) && Inv(s, t.world) && t.verdict.None? && StageOf(t.world) >= 1 && t.world.run.Some?
             && HasEvent(t.world.events, 1)
    ensures RunGood(s, t.world, t.fuel, AfterOpen(s.request, env, t), Smooth(s, env, t.world))
  {
    var s2 := Stage2(s.request, t.world, t.fuel);
    Stage2Keeps(s, t.world, t.fuel);
    if s2.verdict.None? {
      FromStage2(s, env, s2.world, s2.fuel);
      RunComposes(s, t.world, t.fuel, s2, AfterOpen(s.request, env, t), Smooth(s, env, t.world));
    } else {
      StoppedRun(s, t.world, t.fuel, s2, Smooth(s, env, t.world));
    }
  }

  lemma FromAdmission(s: Setup, env: Env, w: World, f: Fuel)
    requires Fresh(s) && Inv(s, w) && StageOf(w) >= 1
    ensures RunGood(s, w, f, AfterOpen(s.request, env, Open(s.request, w, f)), Smooth(s, env, w))
  {
    var t := Open(s.request, w, f);
    OpenKeeps(s, w, f);
    if t.verdict.None? {
      FromOpen(s, env, t);
      RunComposes(s, w, f, t, AfterOpen(s.request, env, t), Smooth(s, env, w));
    } else {
      StoppedRun(s, w, f, t, Smooth(s, env, w));
    }
  }

  /** One invocation from any world such invocations can leave. */
  lemma ArchiveKeeps(s: Setup, env: Env, w: World)
    requires Fresh(s) && Inv(s, w)
    ensures RunGood(s, w, env.fuel, ArchiveTask(s.request, env, w), Smooth(s, env, w))
  {
    var t := Admit(s.request, env, w);
    AdmitKeeps(s, env, w);
    if t.verdict.None? {
      FromAdmission(s, env, t.world, t.fuel);
      RunComposes(s, w, env.fuel, t, ArchiveTask(s.request, env, w), Smooth(s, env, w));
    } else {
      StoppedRun(s, w, env.fuel, t, Smooth(s, env, w));
    }
  }

  // ------------------------------------------------------------------- stranding

  /** While stranded, an invocation whose `git add` refuses unmatched paths ends without a commit. */
  lemma StrandedKeeps(s: Setup, env: Env, w: World)
    requires Fresh(s) && Inv(s, w) && Stranded(s, w) && !env.lenient
    ensures ArchiveTask(s.request, env, w).verdict != Archived && Stranded(s, ArchiveTask(s.request, env, w).world)
  {
    var a := Admit(s.request, env, w);
    AdmitKeeps(s, env, w);
    if a.verdict.None? {
      var o := Open(s.request, a.world, a.fuel);
      OpenKeeps(s, a.world, a.fuel);
      if o.verdict.None? {
        StrandedStages(s, env, o);
      }
    }
  }

  lemma StrandedStages(s: Setup, env: Env, o: Step)
    requires Fresh(s) && Inv(s, o.world) && Stranded(s, o.world) && !env.lenient
    requires o.verdict.None? && StageOf(o.world) >= 1 && o.world.run.Some? && HasEvent(o.world.events, 1)
    ensures AfterOpen(s.request, env, o).verdict != Archived && Stranded(s, AfterOpen(s.request, env, o).world)
  {
    var s2 := Stage2(s.request, o.world, o.fuel);
    Stage2Keeps(s, o.world, o.fuel);
    if s2.verdict.None? {
      var s3 := Stage3(s.request, s2.world, s2.fuel);
      Stage3Keeps(s, s2.world, s2.fuel);
      if s3.verdict.None? {
        StrandedCommit(s, env, s3.world, s3.fuel);
      }
    }
  }

  lemma StrandedCommit(s: Setup, env: Env, w: World, f: Fuel)
    requires Fresh(s) && Inv(s, w) && Stranded(s, w) && !env.lenient && StageOf(w) >= 3
    ensures StageOf(w) == 3 && Stage4(s.request, env, w, f) == Step(w, f, Some(Refused))
  {
    assert !StatusClean(w);
  }
}
