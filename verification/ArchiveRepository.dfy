/** Archive as it is written: one object whose methods advance the stages over disk, Git and ledger, proved to
    leave exactly the world, and return exactly the verdict, of the protocol in Archive. */
module ArchiveRepository {
  import opened Base
  import opened Archive
  import opened ArchiveSafety
  import opened ArchiveRuns
  import ArchiveGuards

  class Coordinator {
    var work: Files
    var index: Files
    var commits: seq<Commit>
    var history: map<nat, Record>
    var journal: Option<Journal>
    var run: Option<LedgerRun>
    var events: seq<LedgerEvent>
    var fuel: Fuel

    constructor (w: World, fuel: Fuel)
      ensures Repo() == w && this.fuel == fuel
    {
      work, index, commits := w.work, w.index, w.commits;
      history, journal := w.history, w.journal;
      run, events := w.run, w.events;
      this.fuel := fuel;
    }

    function Repo(): World
      reads this
    {
      World(work, index, commits, history, journal, run, events)
    }

    function Stage(): nat
      reads this
    {
      if journal.None? then 0 else journal.value.stage
    }

    /** One atomic step, unless the process stops here. */
    method Step() returns (ok: bool)
      modifies this`fuel
      ensures ok == !Out(old(fuel))
      ensures fuel == if ok then Spend(old(fuel)) else old(fuel)
    {
      ok := !Out(fuel);
      if ok {
        fuel := Spend(fuel);
      }
    }

    method PersistStageRecord(q: Request, stage: nat, commit: string) returns (status: Status)
      modifies this`history, this`journal, this`fuel
      ensures Point(Repo(), fuel, status) == PersistStage(q, stage, commit, old(Repo()), old(fuel))
    {
      var record := Record(q.operation, stage, stage, commit);
      if stage in history {
        if history[stage] != record {
          return Failed;
        }
      } else {
        var ok := Step();
        if !ok {
          return Stopped;
        }
        history := history[stage := record];
      }
      var ok := Step();
      if !ok {
        return Stopped;
      }
      journal := Some(Journal(q.operation, stage, commit));
      return Done;
    }

    /** Look for an event of this kind; the first one found decides, otherwise append. */
    method EnsureArchiveEvent(q: Request, kind: nat, commit: string) returns (status: Status)
      modifies this`events, this`fuel
      ensures Point(Repo(), fuel, status) == EnsureEvent(q, kind, commit, old(Repo()), old(fuel))
    {
      var e := LedgerEvent(kind, q.operation, commit);
      if run.None? {
        return Failed;
      }
      for i := 0 to |events|
        invariant FirstOf(events, kind) == FirstOf(events[i..], kind)
      {
        if events[i].kind == kind {
          return if events[i] == e then Done else Failed;
        }
      }
      var ok := Step();
      if !ok {
        return Stopped;
      }
      events := events + [e];
      return Done;
    }

    /** Publish the archived task, the capsule if there is one, and the manifest. */
    method Publish(q: Request) returns (status: Status)
      modifies this`work, this`fuel
      ensures Point(Repo(), fuel, status) == PublishTask(q, old(Repo()), old(fuel))
    {
      if |q.task| == 0 || Conflicts(work.archived, q.task) {
        return Failed;
      }
      var ok: bool;
      if work.archived.None? {
        ok := Step();
        if !ok {
          return Stopped;
        }
        work := work.(archived := Some(q.task));
      }
      if q.capsule.Some? && work.capsule != q.capsule {
        if work.capsule.Some? {
          return Failed;
        }
        ok := Step();
        if !ok {
          return Stopped;
        }
        work := work.(capsule := q.capsule);
      }
      if Conflicts(work.manifest, q.manifest) {
        return Failed;
      }
      if work.manifest.None? {
        ok := Step();
        if !ok {
          return Stopped;
        }
        work := work.(manifest := Some(q.manifest));
      }
      return Done;
    }

    method RemoveExact(q: Request) returns (status: Status)
      modifies this`work, this`fuel
      ensures Point(Repo(), fuel, status) == RemoveActive(q, old(Repo()), old(fuel))
      ensures work == old(work) || (old(work.task) == Some(q.task) && work == old(work).(task := None))
      ensures old(work.task).Some? && old(work.task) != Some(q.task) ==> status == Failed && work == old(work)
    {
      if work.task.None? {
        return Done;
      }
      if work.task.value != q.task {
        return Failed;
      }
      var ok := Step();
      if !ok {
        return Stopped;
      }
      work := work.(task := None);
      return Done;
    }

    method CommitFiles(q: Request, env: Env) returns (status: Status, sha: string)
      modifies this`index, this`commits, this`fuel
      ensures Committed(Repo(), fuel, status, sha) == CommitArchive(q, env, old(Repo()), old(fuel))
    {
      if !env.quiet || !ArchiveComplete(q, work) {
        return Failed, "";
      }
      if StatusClean(Repo()) {
        if HeadProves(q, Repo()) {
          return Done, commits[|commits| - 1].sha;
        }
        return Failed, "";
      }
      if !Stageable(env, Repo()) {
        return Failed, "";
      }
      var ok: bool;
      if index != work {
        ok := Step();
        if !ok {
          return Stopped, "";
        }
        index := work;
      }
      if !AllStaged(q, index, Head(Repo())) {
        return Failed, "";
      }
      if Out(fuel) {
        return Stopped, "";
      }
      if env.sha == "" || (|commits| > 0 && commits[|commits| - 1].sha == env.sha) {
        return Failed, "";
      }
      ok := Step();
      commits := commits + [Commit(env.sha, q.operation, index)];
      return Done, env.sha;
    }

    /** Record a stage, then its event; a verdict ends the invocation. */
    method Advance(q: Request, stage: nat, commit: string) returns (verdict: Option<Verdict>)
      modifies this
      ensures Archive.Step(Repo(), fuel, verdict) == RecordStage(q, stage, commit, old(Repo()), old(fuel))
    {
      var status := PersistStageRecord(q, stage, commit);
      if status != Done {
        return Some(StopVerdict(status));
      }
      status := EnsureArchiveEvent(q, stage, commit);
      return if status == Done then None else if status == Stopped then Some(MissedEvent(stage)) else Some(Refused);
    }

    /** The run, its first event and the task bytes. */
    method OpenRun(q: Request) returns (verdict: Option<Verdict>)
      modifies this
      ensures Archive.Step(Repo(), fuel, verdict) == Open(q, old(Repo()), old(fuel))
    {
      if run.None? {
        var ok := Step();
        if !ok {
          return Some(Interrupted);
        }
        run := Some(LedgerRun(false, ""));
      }
      var status := EnsureArchiveEvent(q, 1, "");
      if status != Done {
        return Some(StopVerdict(status));
      }
      return if TaskReadable(q, Repo()) then None else Some(Refused);
    }

    /** Completion event, run completion, last record. */
    method FinishLedger(q: Request) returns (verdict: Verdict)
      requires journal.Some?
      modifies this
      ensures Run(Repo(), verdict) == Stage5(q, old(Repo()), old(fuel))
    {
      if Stage() >= 5 {
        return Archived;
      }
      var commit := journal.value.commit;
      var status := EnsureArchiveEvent(q, 5, commit);
      if status != Done {
        return StopVerdict(status);
      }
      if run.None? {
        return Refused;
      }
      if run.value.completed {
        if run.value.commit != commit {
          return Refused;
        }
      } else {
        var ok := Step();
        if !ok {
          return Interrupted;
        }
        run := Some(LedgerRun(true, commit));
      }
      status := PersistStageRecord(q, 5, commit);
      return if status == Done then Archived else StopVerdict(status);
    }

    method PublishStage(q: Request) returns (verdict: Option<Verdict>)
      modifies this
      ensures Archive.Step(Repo(), fuel, verdict) == Stage2(q, old(Repo()), old(fuel))
    {
      if Stage() >= 2 {
        return None;
      }
      var status := Publish(q);
      if status != Done {
        return Some(StopVerdict(status));
      }
      verdict := Advance(q, 2, "");
    }

    method RemoveStage(q: Request) returns (verdict: Option<Verdict>)
      modifies this
      ensures Archive.Step(Repo(), fuel, verdict) == Stage3(q, old(Repo()), old(fuel))
    {
      if Stage() >= 3 {
        return None;
      }
      var status := RemoveExact(q);
      if status != Done {
        return Some(StopVerdict(status));
      }
      verdict := Advance(q, 3, "");
    }

    method CommitStage(q: Request, env: Env) returns (verdict: Option<Verdict>)
      modifies this
      ensures Archive.Step(Repo(), fuel, verdict) == Stage4(q, env, old(Repo()), old(fuel))
    {
      if Stage() >= 4 {
        return None;
      }
      var status, sha := CommitFiles(q, env);
      if status != Done {
        return Some(StopVerdict(status));
      }
      verdict := Advance(q, 4, sha);
    }

    method AdmitOrResume(q: Request, env: Env) returns (verdict: Option<Verdict>)
      requires fuel == env.fuel
      modifies this
      ensures Archive.Step(Repo(), fuel, verdict) == Admit(q, env, old(Repo()))
    {
      if journal.Some? {
        return if Resumable(q, Repo()) then None else Some(Refused);
      }
      if !Admissible(q, env, Repo()) {
        return Some(Refused);
      }
      var status := PersistStageRecord(q, 1, "");
      return if status == Done then None else Some(StopVerdict(status));
    }

    /** Archive. From whatever world earlier invocations of the request left, the task bytes stay at one of the two
        paths and the journal, history and commits roll forward. */
    method ArchiveRequest(q: Request, env: Env) returns (verdict: Verdict)
      requires fuel == env.fuel
      modifies this
      ensures Run(Repo(), verdict) == ArchiveTask(q, env, old(Repo()))
      ensures forall s {:trigger Inv(s, old(Repo()))} ::
                Fresh(s) && s.request == q && Inv(s, old(Repo())) ==>
                  && Inv(s, Repo()) && RolledForward(q, Repo())
                  && (verdict == Archived <==> StageOf(Repo()) == 5)
      ensures ArchiveGuards.Frame(q, old(Repo()), Repo()) && ArchiveGuards.TaskAccounted(q, old(Repo()), Repo())
      ensures ArchiveGuards.CommitAccounted(q, old(Repo()), Repo())
      ensures !ArchiveGuards.MayProceed(q, env, old(Repo())) ==> Repo() == old(Repo()) && verdict == Refused
    {
      ghost var before := Repo();
      verdict := ArchiveOnce(q, env);
      ArchiveGuards.ArchiveAccounted(q, env, before);
      if !ArchiveGuards.MayProceed(q, env, before) {
        ArchiveGuards.EntryGuards(q, env, before);
      }
      forall s | Fresh(s) && s.request == q && Inv(s, before)
        ensures Inv(s, Repo()) && RolledForward(q, Repo()) && (verdict == Archived <==> StageOf(Repo()) == 5)
      {
        ArchiveKeeps(s, env, before);
        InvRollsForward(s, Repo());
      }
    }

    /** Admit or resume, then every stage the journal has not reached. */
    method ArchiveOnce(q: Request, env: Env) returns (verdict: Verdict)
      requires fuel == env.fuel
      modifies this
      ensures Run(Repo(), verdict) == ArchiveTask(q, env, old(Repo()))
    {
      var stopped := AdmitOrResume(q, env);
      if stopped.Some? {
        return stopped.value;
      }
      stopped := OpenRun(q);
      if stopped.Some? {
        return stopped.value;
      }
      verdict := RunStages(q, env);
    }

    method RunStages(q: Request, env: Env) returns (verdict: Verdict)
      modifies this
      ensures Run(Repo(), verdict) == AfterOpen(q, env, Archive.Step(old(Repo()), old(fuel), None))
    {
      var stopped := PublishStage(q);
      if stopped.Some? {
        return stopped.value;
      }
      stopped := RemoveStage(q);
      if stopped.Some? {
        return stopped.value;
      }
      verdict := RunLastStages(q, env);
    }

    method RunLastStages(q: Request, env: Env) returns (verdict: Verdict)
      modifies this
      ensures Run(Repo(), verdict) == AfterStage3(q, env, Archive.Step(old(Repo()), old(fuel), None))
    {
      var stopped := CommitStage(q, env);
      if stopped.Some? {
        return stopped.value;
      }
      if journal.None? {
        return Refused;
      }
      verdict := FinishLedger(q);
    }
  }
}
