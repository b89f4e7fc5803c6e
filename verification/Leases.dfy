/** The lease protocol of garbage collection, archiving, reopening and direct runs over all interleavings
    (internal/artifactretention/apply.go:563-621; internal/autonomousarchive/coordinator.go:113-128;
    internal/autonomousarchive/reopen.go:94-108; internal/autonomousexec/lease.go:15-39). */
module Leases {
  import opened Base

  datatype Lock = Retention | Execution | GitAdmin | ChildPublication | TaskState(id: string)

  /** A waiting acquire blocks while the lock is taken; a probe gives up everything instead. */
  datatype Acquire = Acquire(lock: Lock, waits: bool)

  datatype Kind = Collect | Archive(task: string) | Reopen(task: string) | Direct | DirectAdmin

  /** The coded acquisition order of each operation; its mutating section runs with all of it held. */
  function Script(k: Kind): (s: seq<Acquire>)
    ensures |s| > 0
  {
    match k
    case Collect => [Acquire(Retention, true), Acquire(Execution, false), Acquire(GitAdmin, false),
        Acquire(ChildPublication, false)]
    case Archive(t) => [Acquire(Execution, false), Acquire(GitAdmin, true), Acquire(TaskState(t), true)]
    case Reopen(t) => [Acquire(Execution, false), Acquire(GitAdmin, true), Acquire(TaskState(t), true)]
    case Direct => [Acquire(Execution, true)]
    case DirectAdmin => [Acquire(Execution, true), Acquire(GitAdmin, true)]
  }

  function Rank(l: Lock): nat
  {
    match l
    case Retention => 0
    case Execution => 1
    case GitAdmin => 2
    case ChildPublication => 3
    case TaskState(_) => 4
  }

  /** A process holds the first `held` locks of its script. */
  datatype Process = Process(kind: Kind, held: nat)

  type Pid = nat

  type State = map<Pid, Process>

  predicate Holds(p: Process, l: Lock)
  {
    exists i :: 0 <= i < p.held && i < |Script(p.kind)| && Script(p.kind)[i].lock == l
  }

  predicate Taken(s: State, l: Lock)
  {
    exists q :: q in s && Holds(s[q], l)
  }

  predicate InSection(p: Process)
  {
    p.held == |Script(p.kind)|
  }

  // ----------------------------------------------------------------- steps

  datatype Step =
    | Start(pid: Pid, kind: Kind)
    | Take(pid: Pid)
    | GiveUp(pid: Pid)
    | Leave(pid: Pid)

  /** Start with nothing; take the next lock if it is free; give up on a contended probe; or leave at any point,
      finished, cancelled or crashed, which frees everything held. */
  predicate Enabled(s: State, e: Step)
  {
    match e
    case Start(pid, _) => pid !in s
    case Take(pid) => pid in s && s[pid].held < |Script(s[pid].kind)|
        && !Taken(s, Script(s[pid].kind)[s[pid].held].lock)
    case GiveUp(pid) =>
      && pid in s && s[pid].held < |Script(s[pid].kind)| && !Script(s[pid].kind)[s[pid].held].waits
      && Taken(s, Script(s[pid].kind)[s[pid].held].lock)
    case Leave(pid) => pid in s
  }

  function Apply(s: State, e: Step): State
    requires Enabled(s, e)
  {
    match e
    case Start(pid, k) => s[pid := Process(k, 0)]
    case Take(pid) => s[pid := s[pid].(held := s[pid].held + 1)]
    case GiveUp(pid) => s - {pid}
    case Leave(pid) => s - {pid}
  }

  /** The state an interleaving leads to from the empty one; a step that is not enabled changes nothing. */
  function Replay(steps: seq<Step>): State
  {
    if |steps| == 0 then map[]
    else
      var s := Replay(steps[..|steps| - 1]);
      if Enabled(s, steps[|steps| - 1]) then Apply(s, steps[|steps| - 1]) else s
  }

  // -------------------------------------------------------------- exclusion

  /** Every lock has at most one holder. */
  ghost predicate Exclusive(s: State)
  {
    && (forall p :: p in s ==> s[p].held <= |Script(s[p].kind)|)
    && (forall p, q, l :: p in s && q in s && Holds(s[p], l) && Holds(s[q], l) ==> p == q)
  }

  lemma TakenHolds(p: Process, l: Lock)
    requires p.held < |Script(p.kind)|
    ensures Holds(p.(held := p.held + 1), l) <==> Holds(p, l) || Script(p.kind)[p.held].lock == l
  {
    if Script(p.kind)[p.held].lock == l {
      var p' := p.(held := p.held + 1);
      assert Script(p'.kind)[p.held].lock == l;
    }
  }

  lemma StepKeepsExclusive(s: State, e: Step)
    requires Exclusive(s) && Enabled(s, e)
    ensures Exclusive(Apply(s, e))
  {
    var t := Apply(s, e);
    forall p, q, l | p in t && q in t && Holds(t[p], l) && Holds(t[q], l)
      ensures p == q
    {
      if e.Take? {
        TakenHolds(s[e.pid], l);
      }
    }
  }

  lemma {:induction false} AlwaysExclusive(steps: seq<Step>)
    ensures Exclusive(Replay(steps))
    decreases |steps|
  {
    if |steps| > 0 {
      var s := Replay(steps[..|steps| - 1]);
      AlwaysExclusive(steps[..|steps| - 1]);
      if Enabled(s, steps[|steps| - 1]) {
        StepKeepsExclusive(s, steps[|steps| - 1]);
      }
    }
  }

  /** What a process holds in its section: collection everything but task states, archiving and reopening the execution
      lease, git and the one task's state, a direct run the execution lease, and git too if it administers. */
  lemma SectionHolds(p: Process, l: Lock)
    requires InSection(p)
    ensures Holds(p, l) <==>
              match p.kind
              case Collect => l in {Retention, Execution, GitAdmin, ChildPublication}
              case Archive(t) => l in {Execution, GitAdmin, TaskState(t)}
              case Reopen(t) => l in {Execution, GitAdmin, TaskState(t)}
              case Direct => l == Execution
              case DirectAdmin => l in {Execution, GitAdmin}
  {
    var s := Script(p.kind);
    assert Holds(p, l) <==> s[0].lock == l || (|s| > 1 && s[1].lock == l) || (|s| > 2 && s[2].lock == l)
                            || (|s| > 3 && s[3].lock == l);
  }

  lemma SectionHoldsExecution(p: Process)
    requires InSection(p)
    ensures Holds(p, Execution)
  {
    var i := if p.kind == Collect then 1 else 0;
    assert Script(p.kind)[i].lock == Execution;
  }

  /** No two mutating sections ever overlap, whatever the interleaving. */
  lemma SectionsNeverOverlap(steps: seq<Step>, p: Pid, q: Pid)
    requires var s := Replay(steps); p in s && q in s && InSection(s[p]) && InSection(s[q])
    ensures p == q
  {
    AlwaysExclusive(steps);
    SectionHoldsExecution(Replay(steps)[p]);
    SectionHoldsExecution(Replay(steps)[q]);
  }

  // ------------------------------------------------------------ no circular wait

  /** The rank of the lock a process asks for next; beyond all locks when it has everything. */
  function NextRank(p: Process): nat
  {
    if p.held < |Script(p.kind)| then Rank(Script(p.kind)[p.held].lock) else 5
  }

  /** `p` is blocked in a waiting acquire on a lock `q` holds. */
  predicate WaitsFor(s: State, p: Pid, q: Pid)
  {
    && p in s && q in s && s[p].held < |Script(s[p].kind)|
    && Script(s[p].kind)[s[p].held].waits && Holds(s[q], Script(s[p].kind)[s[p].held].lock)
  }

  /** Scripts ask for locks in strictly increasing rank. */
  lemma ScriptsAscend(p: Process, l: Lock)
    requires Holds(p, l) && p.held <= |Script(p.kind)|
    ensures Rank(l) < NextRank(p)
  {
  }

  ghost predicate WaitChain(s: State, chain: seq<Pid>)
  {
    forall i, j {:trigger WaitsFor(s, chain[i], chain[j])} :: 0 <= i < j < |chain| && j == i + 1 ==>
        WaitsFor(s, chain[i], chain[j])
  }

  lemma {:induction false} ChainAscends(s: State, chain: seq<Pid>, j: nat)
    requires Exclusive(s) && WaitChain(s, chain) && 0 < j < |chain|
    ensures chain[0] in s && chain[j] in s && NextRank(s[chain[0]]) < NextRank(s[chain[j]])
    decreases j
  {
    assert WaitsFor(s, chain[j - 1], chain[j]);
    var l := Script(s[chain[j - 1]].kind)[s[chain[j - 1]].held].lock;
    ScriptsAscend(s[chain[j]], l);
    if j > 1 {
      ChainAscends(s, chain, j - 1);
    }
  }

  /** No interleaving leads to a circular wait. */
  lemma NoCircularWait(steps: seq<Step>, chain: seq<Pid>)
    requires |chain| > 1 && WaitChain(Replay(steps), chain)
    ensures chain[0] != chain[|chain| - 1]
  {
    AlwaysExclusive(steps);
    ChainAscends(Replay(steps), chain, |chain| - 1);
  }

  predicate Blocked(s: State, p: Pid)
  {
    exists q :: q in s && WaitsFor(s, p, q)
  }

  lemma {:induction false} SomeoneUnblocked(s: State, p: Pid) returns (q: Pid)
    requires Exclusive(s) && p in s
    ensures q in s && !Blocked(s, q)
    decreases 5 - NextRank(s[p])
  {
    if Blocked(s, p) {
      var r :| r in s && WaitsFor(s, p, r);
      ScriptsAscend(s[r], Script(s[p].kind)[s[p].held].lock);
      q := SomeoneUnblocked(s, r);
    } else {
      q := p;
    }
  }

  /** No deadlock: while any process exists, one of them is in its section or can take or give up its next lock. */
  lemma NeverStuck(steps: seq<Step>, p: Pid) returns (q: Pid)
    requires p in Replay(steps)
    ensures var s := Replay(steps); q in s && (InSection(s[q]) || Enabled(s, Take(q)) || Enabled(s, GiveUp(q)))
  {
    AlwaysExclusive(steps);
    var s := Replay(steps);
    q := SomeoneUnblocked(s, p);
    UnblockedMoves(s, q);
  }

  lemma UnblockedMoves(s: State, q: Pid)
    requires Exclusive(s) && q in s
    ensures Blocked(s, q) || InSection(s[q]) || Enabled(s, Take(q)) || Enabled(s, GiveUp(q))
  {
    if !InSection(s[q]) && Taken(s, Script(s[q].kind)[s[q].held].lock) && Script(s[q].kind)[s[q].held].waits {
      var r :| r in s && Holds(s[r], Script(s[q].kind)[s[q].held].lock);
      assert WaitsFor(s, q, r);
    }
  }
}
