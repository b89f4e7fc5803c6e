/** Reopen as it is written: ordered writes, publication, commit and record, proved to leave exactly the world, and
    return exactly the verdict, of the protocol in Reopen. */
module ReopenRepository {
  import opened Base
  import opened Reopen

  class Reopener {
    var tasks: map<string, Task>
    var states: map<string, TaskState>
    var head: map<string, Task>
    var commits: seq<Commit>
    var records: map<(string, string), Record>
    var events: map<string, Record>
    var fuel: Fuel

    constructor (w: World, fuel: Fuel)
      ensures Repo() == w && this.fuel == fuel
    {
      tasks, states, head, commits := w.tasks, w.states, w.head, w.commits;
      records, events := w.records, w.events;
      this.fuel := fuel;
    }

    function Repo(): World
      reads this
    {
      World(tasks, states, head, commits, records, events)
    }

    /** One atomic step, unless the process stops here. */
    method Step() returns (ok: bool)
      modifies this`fuel
      ensures ok == !Out(old(fuel))
      ensures fuel == if ok then Spend(old(fuel)) else old(fuel)
    {
      ok := !Out(fuel);
      if ok {
        fuel := Spend(fuel);
      }
    }

    method CommitAndRecord(q: Request) returns (verdict: Verdict)
      modifies this
      ensures Run(Repo(), verdict) == CommitReopen(q, old(Repo()), old(fuel))
    {
      var c := Commit(q.operation, q.archive, q.newTask, q.source);
      var ok: bool;
      if Tracked(Repo(), q.newTask) {
        if |commits| == 0 || commits[|commits| - 1] != c {
          return Refused;
        }
      } else {
        ok := Step();
        if !ok {
          return Interrupted;
        }
        head := head[q.newTask := TaskFor(q)];
        commits := commits + [c];
      }
      ok := Step();
      if !ok {
        return Interrupted;
      }
      records := records[(q.archive, q.operation) := RecordFor(q)];
      if q.archive in events {
        return if events[q.archive] == RecordFor(q) then Reopened else Refused;
      }
      ok := Step();
      if !ok {
        return MissedEvent;
      }
      events := events[q.archive := RecordFor(q)];
      return Reopened;
    }

    /** The state file first, then the task file that makes it an active claim. */
    method WriteFiles(q: Request) returns (verdict: Verdict)
      modifies this
      ensures Run(Repo(), verdict) == WriteState(q, old(Repo()), old(fuel))
    {
      var ok: bool;
      if q.newTask in states {
        if states[q.newTask] != StateFor(q) {
          return Refused;
        }
      } else {
        ok := Step();
        if !ok {
          return Interrupted;
        }
        states := states[q.newTask := StateFor(q)];
      }
      if q.newTask in tasks {
        if tasks[q.newTask] != TaskFor(q) {
          return Refused;
        }
      } else {
        ok := Step();
        if !ok {
          return Interrupted;
        }
        tasks := tasks[q.newTask := TaskFor(q)];
      }
      verdict := CommitAndRecord(q);
    }

    /** Reopen. Claims stay unique wherever it stops. */
    method ReopenRequest(q: Request, listing: seq<string>) returns (verdict: Verdict)
      requires forall id :: id in listing <==> id in tasks
      modifies this
      ensures Run(Repo(), verdict) == ReopenTask(q, old(Repo()), old(fuel))
      ensures UniqueClaims(old(Repo())) ==> UniqueClaims(Repo())
      ensures AttemptFrame(q, old(Repo()), Repo()) && (verdict == Reopened ==> Told(q, Repo()))
      ensures verdict == Replayed <==>
                && (q.archive, q.operation) in old(records) && SameReopen(q, old(records)[(q.archive, q.operation)])
                && q.newTask in old(tasks) && q.newTask in old(states)
      ensures (q.archive, q.operation) in old(records) || MayNotBegin(q, old(Repo())) ==> Repo() == old(Repo())
    {
      ghost var before, steps := Repo(), fuel;
      verdict := ReopenOnce(q, listing);
      if UniqueClaims(before) {
        AttemptKeepsUnique(q, before, steps);
      }
      ReopenFramed(q, before, steps);
      ReplayExactly(q, before, steps);
      if (q.archive, q.operation) !in before.records && MayNotBegin(q, before) {
        ReopenGuards(q, before, steps);
      }
    }

    method ReopenOnce(q: Request, listing: seq<string>) returns (verdict: Verdict)
      requires forall id :: id in listing <==> id in tasks
      modifies this
      ensures Run(Repo(), verdict) == ReopenTask(q, old(Repo()), old(fuel))
    {
      if (q.archive, q.operation) in records {
        return if Replayable(q, Repo()) then Replayed else Refused;
      }
      var existing := ValidateExistingReopen(Repo(), q, listing);
      if existing == Conflict || !StatusAllows(Repo(), q, existing) {
        return Refused;
      }
      verdict := WriteFiles(q);
    }
  }
}
