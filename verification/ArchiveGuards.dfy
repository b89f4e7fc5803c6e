/** What an archive invocation does in every world, reachable or not: when it refuses with nothing changed, what it
    never overwrites, when the active task may disappear, and what a recorded commit proves. */
module ArchiveGuards {
  import opened Base
  import opened Archive

  // ------------------------------------------------------------------ entry guards

  /** A first invocation needs a quiet repository, the exact task, nothing staged, nothing else changed, and free
      archive paths; a resumed one needs its own journal and its own manifest, which may be missing only before
      publication and with the exact task still active. */
  predicate MayProceed(q: Request, env: Env, w: World)
  {
    if w.journal.None? then
      && env.quiet && w.work.task == Some(q.task) && w.work.archived == None && w.work.manifest == None
      && w.index == (if |w.commits| == 0 then Files(None, None, None, None) else w.commits[|w.commits| - 1].tree)
      && w.work.archived == w.index.archived && w.work.capsule == w.index.capsule && w.work.manifest == w.index.manifest
    else
      && w.journal.value.operation == q.operation
      && (w.work.manifest == Some(q.manifest)
          || (w.work.manifest == None && w.journal.value.stage < 2 && w.work.task == Some(q.task)))
  }

  /** In every world, what may not proceed is refused with nothing changed. */
  lemma EntryGuards(q: Request, env: Env, w: World)
    requires !MayProceed(q, env, w)
    ensures ArchiveTask(q, env, w) == Run(w, Refused)
  {
  }

  // ------------------------------------------------------------------------ frames

  /** A published file is never overwritten, and only the request's own content is ever published. */
  predicate Published(before: Option<Bytes>, after: Option<Bytes>, own: Option<Bytes>)
  {
    after == before || (before.None? && after == own)
  }

  /** The journal's stage is in history, recorded for this operation under the same commit. */
  predicate JournalRecorded(q: Request, w: World)
  {
    && w.journal.Some? && w.journal.value.operation == q.operation && w.journal.value.stage in w.history
    && var r := w.history[w.journal.value.stage];
    && r.operation == q.operation && r.sequence == w.journal.value.stage && r.stage == w.journal.value.stage
    && r.commit == w.journal.value.commit
  }

  /** The journal only moves to a stage that is recorded. Records, commits and events are only added, at most one commit
      and that the request's own; archive files are only published; the active task stays or was exactly the request's
      and is gone. */
  predicate Frame(q: Request, w: World, w': World)
  {
    && (forall n :: n in w.history ==> n in w'.history && w'.history[n] == w.history[n])
    && (forall n :: n in w'.history && n !in w.history ==>
          w'.history[n].operation == q.operation && w'.history[n].sequence == n && w'.history[n].stage == n)
    && (w'.journal == w.journal || JournalRecorded(q, w'))
    && w.commits <= w'.commits && w.events <= w'.events
    && (forall i :: |w.events| <= i < |w'.events| ==> w'.events[i].operation == q.operation)
    && (forall i :: |w.commits| <= i < |w'.commits| ==> w'.commits[i].operation == q.operation)
    && Published(w.work.archived, w'.work.archived, Some(q.task))
    && Published(w.work.capsule, w'.work.capsule, q.capsule)
    && Published(w.work.manifest, w'.work.manifest, Some(q.manifest))
    && (w'.work.task == w.work.task || (w.work.task == Some(q.task) && w'.work.task == None))
  }

  lemma FrameComposes(q: Request, a: World, b: World, c: World)
    requires Frame(q, a, b) && Frame(q, b, c)
    ensures Frame(q, a, c)
  {
  }

  lemma RecordFrame(q: Request, stage: nat, commit: string, w: World, f: Fuel)
    ensures var p := PersistStage(q, stage, commit, w, f);
            && Frame(q, w, p.world) && p.world == w.(history := p.world.history, journal := p.world.journal)
            && (p.status == Done ==> p.world.journal == Some(Journal(q.operation, stage, commit)))
            && (p.status != Done ==> p.world.journal == w.journal)
  {
  }

  lemma EventFrame(q: Request, kind: nat, commit: string, w: World, f: Fuel)
    ensures var p := EnsureEvent(q, kind, commit, w, f); Frame(q, w, p.world) && p.world == w.(events := p.world.events)
  {
  }

  lemma RecordStageFrame(q: Request, stage: nat, commit: string, w: World, f: Fuel)
    ensures var t := RecordStage(q, stage, commit, w, f);
            && Frame(q, w, t.world) && t.world.work == w.work && t.world.commits == w.commits
            && (t.world.journal == w.journal || t.world.journal == Some(Journal(q.operation, stage, commit)))
            && (t.verdict.None? ==> t.world.journal == Some(Journal(q.operation, stage, commit)))
  {
    RecordFrame(q, stage, commit, w, f);
    var p := PersistStage(q, stage, commit, w, f);
    if p.status == Done {
      EventFrame(q, stage, commit, p.world, p.fuel);
      FrameComposes(q, w, p.world, EnsureEvent(q, stage, commit, p.world, p.fuel).world);
    }
  }

  /** Publication writes the request's files where nothing is, one after the other, and ends with all of them there. */
  lemma PublishFrame(q: Request, w: World, f: Fuel)
    ensures var p := PublishTask(q, w, f);
            && Frame(q, w, p.world) && p.world == w.(work := p.world.work) && p.world.work.task == w.work.task
            && (p.status == Done ==>
                  && |q.task| > 0 && p.world.work.archived == Some(q.task) && p.world.work.manifest == Some(q.manifest)
                  && (q.capsule.Some? ==> p.world.work.capsule == q.capsule))
  {
    if |q.task| > 0 && !Conflicts(w.work.archived, q.task) && (w.work.archived.Some? || !Out(f)) {
      var w1 := w.(work := w.work.(archived := Some(q.task)));
      var f1 := if w.work.archived.Some? then f else Spend(f);
      assert w.work.archived.Some? ==> w1 == w;
      PublishRestFrame(q, w1, f1);
    }
  }

  lemma PublishRestFrame(q: Request, w: World, f: Fuel)
    ensures var p := PublishCapsule(q, w, f);
            && Frame(q, w, p.world) && p.world == w.(work := p.world.work)
            && p.world.work.task == w.work.task && p.world.work.archived == w.work.archived
            && (p.status == Done ==>
                  p.world.work.manifest == Some(q.manifest) && (q.capsule.Some? ==> p.world.work.capsule == q.capsule))
  {
  }

  lemma Stage2Frame(q: Request, w: World, f: Fuel)
    ensures var t := Stage2(q, w, f);
            && Frame(q, w, t.world) && t.world.work.task == w.work.task && t.world.commits == w.commits
            && StageOf(w) <= StageOf(t.world)
            && (StageOf(w) < 4 ==> StageOf(t.world) < 4)
            && (t.verdict.None? && StageOf(w) < 2 ==> t.world.work.archived == Some(q.task))
            && (StageOf(w) >= 2 ==> t.world == w)
  {
    if StageOf(w) < 2 {
      PublishFrame(q, w, f);
      var p := PublishTask(q, w, f);
      if p.status == Done {
        RecordStageFrame(q, 2, "", p.world, p.fuel);
        FrameComposes(q, w, p.world, RecordStage(q, 2, "", p.world, p.fuel).world);
      }
    }
  }

  /** Only the exact task is removed, and only its file. */
  lemma RemoveFrame(q: Request, w: World, f: Fuel)
    ensures var p := RemoveActive(q, w, f);
            && Frame(q, w, p.world) && p.world == w.(work := w.work.(task := p.world.work.task))
            && (p.status == Done ==> p.world.work.task == None)
  {
  }

  lemma Stage3Frame(q: Request, w: World, f: Fuel)
    ensures var t := Stage3(q, w, f);
            && Frame(q, w, t.world) && t.world.work == w.work.(task := t.world.work.task)
                && t.world.commits == w.commits
            && StageOf(w) <= StageOf(t.world)
            && (StageOf(w) < 4 ==> StageOf(t.world) < 4)
            && (t.verdict.None? && StageOf(w) < 3 ==> t.world.work.task == None)
  {
    if StageOf(w) < 3 {
      RemoveFrame(q, w, f);
      var p := RemoveActive(q, w, f);
      if p.status == Done {
        RecordStageFrame(q, 3, "", p.world, p.fuel);
        FrameComposes(q, w, p.world, RecordStage(q, 3, "", p.world, p.fuel).world);
      }
    }
  }

  // ------------------------------------------------------------------- the commit

  /** HEAD is a commit of this operation that holds the archive's exact files and brought them in. */
  predicate HeadArchives(q: Request, w: World)
  {
    && |w.commits| > 0
    && var head := w.commits[|w.commits| - 1];
    && var before := if |w.commits| == 1 then Files(None, None, None, None) else w.commits[|w.commits| - 2].tree;
    && head.sha != "" && head.operation == q.operation
    && head.tree.archived == Some(q.task) && head.tree.manifest == Some(q.manifest)
    && (q.capsule.Some? ==> head.tree.capsule == q.capsule)
    && head.tree.archived != before.archived && head.tree.manifest != before.manifest
    && (q.capsule.None? <==> head.tree.capsule == before.capsule)
  }

  /** A commit step that succeeds names HEAD, which archives the request; one that does not leaves the branch alone. It
      refuses an incomplete archive and commits exactly what is in the worktree. */
  lemma CommitFrame(q: Request, env: Env, w: World, f: Fuel)
    ensures var c := CommitArchive(q, env, w, f);
            && c.world == w.(index := c.world.index, commits := c.world.commits) && Frame(q, w, c.world)
            && (c.world.commits == w.commits
                || (&& |c.world.commits| == |w.commits| + 1 && c.world.commits[|w.commits|].sha == env.sha
                    && c.world.commits[|w.commits|].tree == w.work))
            && (c.status == Done ==>
                  && env.quiet && HeadArchives(q, c.world) && c.sha == c.world.commits[|c.world.commits| - 1].sha
                  && w.work.archived == Some(q.task) && w.work.manifest == Some(q.manifest))
            && (c.status != Done ==> c.world.commits == w.commits)
  {
  }

  lemma Stage4Frame(q: Request, env: Env, w: World, f: Fuel)
    ensures var t := Stage4(q, env, w, f);
            && Frame(q, w, t.world) && t.world.work == w.work && StageOf(w) <= StageOf(t.world)
            && |t.world.commits| <= |w.commits| + 1
            && (t.verdict.None? ==> StageOf(t.world) >= 4)
            && (StageOf(w) < 4 <= StageOf(t.world) ==>
                  && HeadArchives(q, t.world) && StageOf(t.world) == 4
                  && t.world.journal.value.commit == t.world.commits[|t.world.commits| - 1].sha)
  {
    if StageOf(w) < 4 {
      CommitFrame(q, env, w, f);
      var c := CommitArchive(q, env, w, f);
      if c.status == Done {
        RecordStageFrame(q, 4, c.sha, c.world, c.fuel);
        FrameComposes(q, w, c.world, RecordStage(q, 4, c.sha, c.world, c.fuel).world);
      }
    }
  }

  // ------------------------------------------------------------------ the last stage

  lemma CompleteFrame(q: Request, commit: string, w: World, f: Fuel)
    ensures var p := CompleteRun(commit, w, f);
            && p.world == w.(run := p.world.run) && Frame(q, w, p.world)
            && (p.status == Done ==> p.world.run == Some(LedgerRun(true, commit)))
            && (w.run.Some? && w.run.value.completed ==> p.world.run == w.run)
  {
  }

  /** The archive is only reported finished with its completion event and its run completed under the journal's commit.
      */
  lemma Stage5Frame(q: Request, w: World, f: Fuel)
    requires w.journal.Some?
    ensures var r := Stage5(q, w, f);
            && Frame(q, w, r.world) && r.world.work == w.work && r.world.commits == w.commits
            && (StageOf(w) < 5 && r.verdict == Archived ==>
                  && r.world.run == Some(LedgerRun(true, w.journal.value.commit))
                  && r.world.journal == Some(Journal(q.operation, 5, w.journal.value.commit))
                  && LedgerEvent(5, q.operation, w.journal.value.commit) in r.world.events)
            && (StageOf(w) < 4 ==> r.world.journal == w.journal || StageOf(r.world) == 5)
            && (r.world.journal == w.journal
                || r.world.journal == Some(Journal(q.operation, 5, w.journal.value.commit)))
  {
    if StageOf(w) < 5 {
      var commit := w.journal.value.commit;
      EventFrame(q, 5, commit, w, f);
      var e := EnsureEvent(q, 5, commit, w, f);
      if e.status == Done {
        EventThere(q, 5, commit, w, f);
        CompleteFrame(q, commit, e.world, e.fuel);
        var c := CompleteRun(commit, e.world, e.fuel);
        FrameComposes(q, w, e.world, c.world);
        if c.status == Done {
          RecordFrame(q, 5, commit, c.world, c.fuel);
          FrameComposes(q, w, c.world, PersistStage(q, 5, commit, c.world, c.fuel).world);
        }
      }
    }
  }

  lemma EventThere(q: Request, kind: nat, commit: string, w: World, f: Fuel)
    requires EnsureEvent(q, kind, commit, w, f).status == Done
    ensures LedgerEvent(kind, q.operation, commit) in EnsureEvent(q, kind, commit, w, f).world.events
  {
    FirstMember(w.events, kind);
  }

  lemma {:induction false} FirstMember(events: seq<LedgerEvent>, kind: nat)
    ensures FirstOf(events, kind).Some? ==> FirstOf(events, kind).value in events
    decreases |events|
  {
    if |events| > 0 && events[0].kind != kind {
      FirstMember(events[1..], kind);
    }
  }

  lemma OpenFrame(q: Request, w: World, f: Fuel)
    ensures var t := Open(q, w, f);
            && Frame(q, w, t.world) && t.world.work == w.work && t.world.commits == w.commits
                && t.world.journal == w.journal
            && (t.verdict.None? ==> w.work.task == Some(q.task) || (StageOf(w) >= 2 && w.work.archived == Some(q.task)))
  {
    if w.run.None? && Out(f) {
      return;
    }
    var w1 := if w.run.None? then w.(run := Some(LedgerRun(false, ""))) else w;
    var f1 := if w.run.None? then Spend(f) else f;
    EventFrame(q, 1, "", w1, f1);
    FrameComposes(q, w, w1, EnsureEvent(q, 1, "", w1, f1).world);
  }

  lemma AdmitFrame(q: Request, env: Env, w: World)
    ensures var t := Admit(q, env, w);
            && Frame(q, w, t.world) && t.world.work == w.work && t.world.commits == w.commits
            && StageOf(w) <= StageOf(t.world) && (StageOf(w) < 2 ==> StageOf(t.world) < 2)
            && (StageOf(w) >= 1 ==> t.world == w)
  {
    if w.journal.None? {
      RecordFrame(q, 1, "", w, env.fuel);
    }
  }

  // ------------------------------------------------------------ the whole invocation

  /** The active task, if it is gone, was exactly the request's; its bytes are at the archived path if and only if this
      invocation published them or they were there before. */
  predicate TaskAccounted(q: Request, w: World, w': World)
  {
    w.work.task.Some? && w'.work.task.None? ==>
      && w.work.task == Some(q.task)
      && (w'.work.archived == Some(q.task) <==> StageOf(w) < 2 || w.work.archived == Some(q.task))
  }

  /** Stage 4 is only reached with HEAD archiving the request under the name the journal records. */
  predicate CommitAccounted(q: Request, w: World, w': World)
  {
    StageOf(w) < 4 <= StageOf(w') ==>
      HeadArchives(q, w') && w'.journal.value.commit == w'.commits[|w'.commits| - 1].sha
  }

  lemma LastStages(q: Request, env: Env, t: Step)
    requires t.verdict.None?
    ensures var r := AfterStage3(q, env, t);
            && Frame(q, t.world, r.world) && r.world.work == t.world.work && CommitAccounted(q, t.world, r.world)
            && |r.world.commits| <= |t.world.commits| + 1
  {
    Stage4Frame(q, env, t.world, t.fuel);
    var s4 := Stage4(q, env, t.world, t.fuel);
    if s4.verdict.None? && s4.world.journal.Some? {
      Stage5Frame(q, s4.world, s4.fuel);
      FrameComposes(q, t.world, s4.world, Stage5(q, s4.world, s4.fuel).world);
    }
  }

  lemma CommitCombines(q: Request, w: World, w1: World, w': World)
    requires CommitAccounted(q, w1, w') && (StageOf(w) < 4 ==> StageOf(w1) < 4)
    ensures CommitAccounted(q, w, w')
  {
  }

  lemma TaskCombines(q: Request, w: World, w1: World, w': World)
    requires Frame(q, w1, w') && w1.work.task == w.work.task && w'.work == w1.work.(task := w'.work.task)
    requires if StageOf(w) < 2 then w1.work.archived == Some(q.task) else w1 == w
    ensures TaskAccounted(q, w, w')
  {
  }

  lemma MiddleStages(q: Request, env: Env, w: World, f: Fuel)
    ensures var r := AfterStage3(q, env, Stage3(q, w, f));
            && Frame(q, w, r.world) && r.world.work == w.work.(task := r.world.work.task)
            && CommitAccounted(q, w, r.world) && |r.world.commits| <= |w.commits| + 1
  {
    Stage3Frame(q, w, f);
    var s3 := Stage3(q, w, f);
    if s3.verdict.None? {
      LastStages(q, env, s3);
      var w' := AfterStage3(q, env, s3).world;
      FrameComposes(q, w, s3.world, w');
      CommitCombines(q, w, s3.world, w');
    }
  }

  lemma AllStages(q: Request, env: Env, t: Step)
    requires t.verdict.None?
    ensures var r := AfterOpen(q, env, t);
            && Frame(q, t.world, r.world) && TaskAccounted(q, t.world, r.world) && CommitAccounted(q, t.world, r.world)
            && |r.world.commits| <= |t.world.commits| + 1
  {
    Stage2Frame(q, t.world, t.fuel);
    var s2 := Stage2(q, t.world, t.fuel);
    if s2.verdict.None? {
      var w' := AfterStage3(q, env, Stage3(q, s2.world, s2.fuel)).world;
      MiddleStages(q, env, s2.world, s2.fuel);
      FrameComposes(q, t.world, s2.world, w');
      CommitCombines(q, t.world, s2.world, w');
      TaskCombines(q, t.world, s2.world, w');
    }
  }

  /** In every world and wherever it stops: nothing recorded or published is overwritten, at most one commit is added,
      the active task is removed only if it is exactly the request's, and stage 4 means HEAD archives the request. */
  lemma ArchiveAccounted(q: Request, env: Env, w: World)
    ensures var r := ArchiveTask(q, env, w);
            && Frame(q, w, r.world) && TaskAccounted(q, w, r.world) && CommitAccounted(q, w, r.world)
            && |r.world.commits| <= |w.commits| + 1
  {
    AdmitFrame(q, env, w);
    var a := Admit(q, env, w);
    if a.verdict.None? {
      OpenFrame(q, a.world, a.fuel);
      var o := Open(q, a.world, a.fuel);
      FrameComposes(q, w, a.world, o.world);
      if o.verdict.None? {
        AllStages(q, env, o);
        FrameComposes(q, w, o.world, AfterOpen(q, env, o).world);
      }
    }
  }

  /** The second condition fails for real: with the journal at `files_published` and the archived copy gone, a retry
      reads the active task, skips publication, and removes the last copy. */
  lemma MissingCopyLosesTask(q: Request, env: Env, w: World)
    requires w.journal == Some(Journal(q.operation, 2, "")) && w.work.manifest == Some(q.manifest)
    requires w.work.task == Some(q.task) && w.work.archived == None
    requires w.run.Some? && FirstOf(w.events, 1) == Some(LedgerEvent(1, q.operation, "")) && env.fuel.Unlimited?
    ensures var w' := ArchiveTask(q, env, w).world; w'.work.task == None && w'.work.archived == None
  {
    assert Admit(q, env, w) == Step(w, Unlimited, None);
    assert Open(q, w, Unlimited) == Step(w, Unlimited, None);
    assert Stage2(q, w, Unlimited) == Step(w, Unlimited, None);
    var w1 := w.(work := w.work.(task := None));
    assert RemoveActive(q, w, Unlimited) == Point(w1, Unlimited, Done);
    var s3 := Stage3(q, w, Unlimited);
    RecordStageFrame(q, 3, "", w1, Unlimited);
    if s3.verdict.None? {
      LastStages(q, env, s3);
    }
  }
}
