/** The archive protocol over whole sequences of interrupted and retried invocations of one request. */
module ArchiveRuns {
  import opened Base
  import opened Archive
  import opened ArchiveSafety

  function After(q: Request, envs: seq<Env>, w: World): World
  {
    if |envs| == 0 then w else ArchiveTask(q, envs[|envs| - 1], After(q, envs[..|envs| - 1], w)).world
  }

  function Verdicts(q: Request, envs: seq<Env>, w: World): seq<Verdict>
  {
    if |envs| == 0 then []
    else
      Verdicts(q, envs[..|envs| - 1], w)
      + [ArchiveTask(q, envs[|envs| - 1], After(q, envs[..|envs| - 1], w)).verdict]
  }

  lemma {:induction false} RunsKeep(s: Setup, envs: seq<Env>)
    requires Fresh(s)
    ensures Inv(s, After(s.request, envs, s.start))
    decreases |envs|
  {
    if |envs| == 0 {
      FreshInv(s);
    } else {
      RunsKeep(s, envs[..|envs| - 1]);
      ArchiveKeeps(s, envs[|envs| - 1], After(s.request, envs[..|envs| - 1], s.start));
    }
  }

  // --------------------------------------------------------------- roll-forward

  /** The history holds the records of stages 1 to `n` and no others. */
  predicate RecordsUpTo(history: map<nat, Record>, n: nat)
  {
    (forall k :: k in history ==> 1 <= k <= n) && (forall k: nat :: 1 <= k <= n ==> k in history)
  }

  function AdminCommits(commits: seq<Commit>, operation: string): nat
  {
    if |commits| == 0 then 0
    else
      AdminCommits(commits[..|commits| - 1], operation)
      + if commits[|commits| - 1].operation == operation then 1 else 0
  }

  lemma {:induction false} NoAdminCommits(commits: seq<Commit>, operation: string)
    requires forall i :: 0 <= i < |commits| ==> commits[i].operation != operation
    ensures AdminCommits(commits, operation) == 0
    decreases |commits|
  {
    if |commits| > 0 {
      NoAdminCommits(commits[..|commits| - 1], operation);
    }
  }

  lemma OneAdminCommit(s: Setup, commits: seq<Commit>)
    requires Fresh(s) && CommitsOk(s, commits)
    ensures AdminCommits(commits, s.request.operation) <= 1
    ensures commits != s.start.commits ==> AdminCommits(commits, s.request.operation) == 1
  {
    NoAdminCommits(s.start.commits, s.request.operation);
  }

  lemma RecordsBetween(q: Request, history: map<nat, Record>, stage: nat, commit: string)
    requires HistoryOk(q, history, stage, commit)
    ensures RecordsUpTo(history, stage) || RecordsUpTo(history, stage + 1)
  {
    if stage + 1 in history {
      assert RecordsUpTo(history, stage + 1);
    } else {
      assert RecordsUpTo(history, stage);
    }
  }

  /** The exact task bytes are at the active or the archived path, the active file is gone only from stage
      `files_published` on, the history holds the journal's stages or one more, at most one administrative commit
      exists, and a finished archive has one and passes history verification. */
  predicate RolledForward(q: Request, w: World)
  {
    && (w.work.task == Some(q.task) || w.work.archived == Some(q.task))
    && (w.work.task.None? ==> StageOf(w) >= 2 && w.work.archived == Some(q.task))
    && (RecordsUpTo(w.history, StageOf(w)) || RecordsUpTo(w.history, StageOf(w) + 1))
    && AdminCommits(w.commits, q.operation) <= 1
    && (StageOf(w) == 5 ==> HistoryVerified(w) && w.work == Target(q) && AdminCommits(w.commits, q.operation) == 1)
  }

  lemma InvRollsForward(s: Setup, w: World)
    requires Fresh(s) && Inv(s, w)
    ensures RolledForward(s.request, w)
  {
    OneAdminCommit(s, w.commits);
    RecordsBetween(s.request, w.history, StageOf(w), CommitName(s, w.commits));
    TaskKept(s.request, w.work, StageOf(w));
    if StageOf(w) == 5 {
      FinishedVerifies(s, w);
    }
  }

  /** Roll-forward holds after any sequence of interruptions and retries. */
  lemma RollForward(s: Setup, envs: seq<Env>)
    requires Fresh(s)
    ensures RolledForward(s.request, After(s.request, envs, s.start))
  {
    RunsKeep(s, envs);
    InvRollsForward(s, After(s.request, envs, s.start));
  }

  lemma TaskKept(q: Request, work: Files, stage: nat)
    requires FilesOk(q, work, stage)
    ensures work.task == Some(q.task) || work.archived == Some(q.task)
    ensures work.task.None? ==> stage >= 2 && work.archived == Some(q.task)
    ensures stage >= 3 ==> work == Target(q)
  {
  }

  lemma FinishedVerifies(s: Setup, w: World)
    requires Inv(s, w) && StageOf(w) == 5
    ensures HistoryVerified(w) && w.commits != s.start.commits
  {
  }

  /** A retry never rewrites a record, drops a commit or goes back a stage. In a quiet repository and without
      interruption it finishes the archive if and only if the active task can still be staged: always when `git add`
      tolerates unmatched paths, otherwise as long as the index knows the task or the commit is already made. */
  lemma RetryFinishes(s: Setup, envs: seq<Env>, last: Env)
    requires Fresh(s)
    ensures var w := After(s.request, envs, s.start);
            var r := ArchiveTask(s.request, last, w);
            && (forall n :: n in w.history ==> n in r.world.history && r.world.history[n] == w.history[n])
            && w.commits <= r.world.commits && StageOf(w) <= StageOf(r.world)
            && (Quiet(s, last) && last.fuel.Unlimited? ==>
                  (r.verdict == Archived && StageOf(r.world) == 5 <==> last.lenient || !Stranded(s, w)))
  {
    var w := After(s.request, envs, s.start);
    RunsKeep(s, envs);
    ArchiveKeeps(s, last, w);
    if Stranded(s, w) && !last.lenient {
      StrandedKeeps(s, last, w);
    }
  }

  /** Stopping between staging and commit strands the archive: with a Git that refuses unmatched paths no later
      invocation finishes it, although the task's bytes stay at the archived path. */
  lemma {:induction false} StrandedForever(s: Setup, w: World, envs: seq<Env>)
    requires Fresh(s) && Inv(s, w) && Stranded(s, w) && forall i :: 0 <= i < |envs| ==> !envs[i].lenient
    ensures Inv(s, After(s.request, envs, w)) && Stranded(s, After(s.request, envs, w))
            && StageOf(After(s.request, envs, w)) < 5
    decreases |envs|
  {
    if |envs| > 0 {
      var init, last := envs[..|envs| - 1], envs[|envs| - 1];
      StrandedForever(s, w, init);
      ArchiveKeeps(s, last, After(s.request, init, w));
      StrandedKeeps(s, last, After(s.request, init, w));
    }
  }

  // -------------------------------------------------------------- ledger events

  predicate DistinctKinds(events: seq<LedgerEvent>)
  {
    forall i, j :: 0 <= i < j < |events| ==> events[i].kind != events[j].kind
  }

  lemma {:induction false} CountIsOne(events: seq<LedgerEvent>, kind: nat)
    requires DistinctKinds(events)
    ensures CountKind(events, kind) == if HasEvent(events, kind) then 1 else 0
    decreases |events|
  {
    if |events| > 0 {
      var init, last := events[..|events| - 1], events[|events| - 1];
      assert events == init + [last];
      CountIsOne(init, kind);
      EventAdds(init, last, kind);
    }
  }

  /** The event of a stage between 2 and 4 exists exactly if the stage was reached and no invocation stopped
      between writing its journal entry and appending the event. */
  lemma {:induction false} EventFate(s: Setup, envs: seq<Env>, n: nat)
    requires Fresh(s) && 2 <= n <= 4
    ensures var w := After(s.request, envs, s.start);
            && (HasEvent(w.events, n) <==> StageOf(w) >= n && MissedEvent(n) !in Verdicts(s.request, envs, s.start))
            && (MissedEvent(n) in Verdicts(s.request, envs, s.start) ==> StageOf(w) >= n)
    decreases |envs|
  {
    if |envs| > 0 {
      var init, last := envs[..|envs| - 1], envs[|envs| - 1];
      EventFate(s, init, n);
      RunsKeep(s, init);
      ArchiveKeeps(s, last, After(s.request, init, s.start));
      FateOf(After(s.request, init, s.start), ArchiveTask(s.request, last, After(s.request, init, s.start)), n);
    }
  }

  lemma FateOf(w: World, r: Run, n: nat)
    requires Fate(w, r.world, Some(r.verdict)) && 2 <= n <= 4
    ensures HasEvent(r.world.events, n) <==>
            HasEvent(w.events, n) || (StageOf(w) < n <= StageOf(r.world) && r.verdict != MissedEvent(n))
    ensures r.verdict == MissedEvent(n) ==> StageOf(w) < n == StageOf(r.world)
    ensures StageOf(w) <= StageOf(r.world)
  {
  }

  /** No invocation stopped in one of the three windows. */
  predicate NoneMissed(verdicts: seq<Verdict>)
  {
    MissedEvent(2) !in verdicts && MissedEvent(3) !in verdicts && MissedEvent(4) !in verdicts
  }

  /** The ledger of a finished archive verifies if and only if no invocation stopped in one of the three windows. */
  lemma VerifiedExactly(s: Setup, envs: seq<Env>)
    requires Fresh(s) && StageOf(After(s.request, envs, s.start)) == 5
    ensures LedgerVerified(After(s.request, envs, s.start)) <==> NoneMissed(Verdicts(s.request, envs, s.start))
  {
    LedgerExactly(s, envs);
  }

  /** Ledger events, exactly: no kind ever appears twice; a finished archive has its first and last event exactly
      once; and its ledger verifies if and only if no invocation stopped between the journal write and the event of
      stage 2, 3 or 4. */
  lemma LedgerExactly(s: Setup, envs: seq<Env>)
    requires Fresh(s)
    ensures var w := After(s.request, envs, s.start);
            && (forall kind: nat :: CountKind(w.events, kind) <= 1)
            && (StageOf(w) == 5 ==>
                  && CountKind(w.events, 1) == 1 && CountKind(w.events, 5) == 1
                  && (LedgerVerified(w) <==> NoneMissed(Verdicts(s.request, envs, s.start))))
  {
    var w := After(s.request, envs, s.start);
    RunsKeep(s, envs);
    forall kind: nat
      ensures CountKind(w.events, kind) == if HasEvent(w.events, kind) then 1 else 0
    {
      CountIsOne(w.events, kind);
    }
    EventFate(s, envs, 2);
    EventFate(s, envs, 3);
    EventFate(s, envs, 4);
    if StageOf(w) == 5 {
      VerifiedMeans(s, w);
    }
  }

  lemma VerifiedMeans(s: Setup, w: World)
    requires Inv(s, w) && StageOf(w) == 5
    requires forall kind: nat :: CountKind(w.events, kind) == if HasEvent(w.events, kind) then 1 else 0
    ensures LedgerVerified(w) <==> HasEvent(w.events, 2) && HasEvent(w.events, 3) && HasEvent(w.events, 4)
  {
    forall n: nat | 1 <= n <= 5
      ensures HasEvent(w.events, 2) && HasEvent(w.events, 3) && HasEvent(w.events, 4) ==> HasEvent(w.events, n)
    {
      assert n == 1 || n == 2 || n == 3 || n == 4 || n == 5;
    }
  }
}
