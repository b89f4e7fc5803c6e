/** Attempt accounting: admission and completion events, per-action counters summed in 64-bit arithmetic, and
    budgets (internal/autonomous/state.go:866-974, 1633-1697; internal/autonomousarchive/coordinator.go:679-689). */
module Attempts {
  import opened Base

  newtype int64 = x: int | -0x8000_0000_0000_0000 <= x < 0x8000_0000_0000_0000

  datatype EventKind = Admission | Completion

  datatype Event = Event(
    sequence: int,
    kind: EventKind,
    attemptId: string,
    action: string,
    decision: string,
    strategy: string,
    sourceBefore: string)

  datatype Counter = Counter(action: string, attempts: int64)

  datatype Mode = ModeLimited | ModeUnlimited | ModeUnset

  datatype Budget = Budget(mode: Mode, limit: int, consumed: int)

  datatype ActionBudget = ActionBudget(action: string, budget: Budget)

  /** An action's attempts are exhausted; `detail` is the rest of the breaker evidence. */
  datatype Stop = Stop(action: string, detail: string)

  datatype AttemptState = AttemptState(
    total: int64,
    consecutiveFailures: int64,
    counters: seq<Counter>,
    actionBudgets: seq<ActionBudget>,
    retry: Budget,
    elapsed: Budget,
    tokens: Budget,
    repeatedLimit: int,
    transitionSequence: int,
    events: seq<Event>,
    stops: seq<Stop>,
    lastFailure: Option<string>)

  // ---------------------------------------------------------------- counters

  function CounterSum(cs: seq<Counter>): int
  {
    if |cs| == 0 then 0 else CounterSum(cs[..|cs| - 1]) + cs[|cs| - 1].attempts as int
  }

  predicate CountersSane(cs: seq<Counter>)
  {
    && (forall i :: 0 <= i < |cs| ==> cs[i].attempts >= 0)
    && (forall i, j :: 0 <= i < j < |cs| ==> cs[i].action != cs[j].action)
  }

  /** Counters are nonnegative, one per action, and their true sum is within the total. */
  predicate CountersValid(total: int64, cs: seq<Counter>)
  {
    CountersSane(cs) && CounterSum(cs) <= total as int
  }

  lemma {:induction false} SumGrows(cs: seq<Counter>, k: nat)
    requires CountersSane(cs) && k <= |cs|
    ensures 0 <= CounterSum(cs[..k]) <= CounterSum(cs)
    decreases |cs|
  {
    if |cs| > 0 {
      var init := cs[..|cs| - 1];
      if k == |cs| {
        SumGrows(init, |init|);
        assert init[..|init|] == init;
        assert cs[..k] == cs;
      } else {
        assert init[..k] == cs[..k];
        SumGrows(init, k);
      }
    }
  }

  lemma SumSnoc(cs: seq<Counter>, c: Counter)
    ensures CounterSum(cs + [c]) == CounterSum(cs) + c.attempts as int
  {
    assert (cs + [c])[..|cs|] == cs;
  }

  /** The loop's state after the counters `done`. */
  ghost predicate CounterLoop(done: seq<Counter>, total: int64, seen: set<string>, actionTotal: int64)
  {
    && CountersSane(done) && seen == (set c | c in done :: c.action)
    && actionTotal as int == CounterSum(done) && 0 <= actionTotal <= total
  }

  lemma SaneSnoc(done: seq<Counter>, c: Counter)
    ensures CountersSane(done + [c]) <==> CountersSane(done) && c.attempts >= 0 && forall i :: 0 <= i < |done| ==>
            done[i].action != c.action
  {
    var all := done + [c];
    assert all[|done|] == c;
    assert forall i :: 0 <= i < |done| ==> all[i] == done[i];
  }

  lemma SanePrefix(cs: seq<Counter>, k: nat)
    requires CountersSane(cs) && k <= |cs|
    ensures CountersSane(cs[..k])
  {
  }

  lemma CounterStep(done: seq<Counter>, total: int64, seen: set<string>, actionTotal: int64, c: Counter)
    requires CounterLoop(done, total, seen, actionTotal)
    requires c.attempts >= 0 && c.action !in seen && c.attempts <= total - actionTotal
    ensures CounterLoop(done + [c], total, seen + {c.action}, actionTotal + c.attempts)
  {
    SumSnoc(done, c);
    assert forall k :: 0 <= k < |done| ==> done[k].action in seen;
    SaneSnoc(done, c);
  }

  lemma CounterAccepted(cs: seq<Counter>, done: seq<Counter>, total: int64, seen: set<string>, actionTotal: int64)
    requires |done| < |cs| && done == cs[..|done|] && CounterLoop(done, total, seen, actionTotal)
             && CountersValid(total, cs)
    ensures var c := cs[|done|]; c.attempts >= 0 && c.action !in seen && c.attempts <= total - actionTotal
  {
    var c := cs[|done|];
    assert cs[..|done| + 1] == done + [c];
    SanePrefix(cs, |done| + 1);
    SaneSnoc(done, c);
    SumSnoc(done, c);
    SumGrows(cs, |done| + 1);
  }

  /** The subtraction form of the check never leaves the 64-bit range, and accepts exactly when the true sum
      is within the total. */
  method CheckCounters(total: int64, cs: seq<Counter>) returns (ok: bool)
    requires total >= 0
    ensures ok <==> CountersValid(total, cs)
  {
    var seen: set<string> := {};
    var actionTotal: int64 := 0;
    ghost var done: seq<Counter> := [];
    for i := 0 to |cs|
      invariant done == cs[..i] && CounterLoop(done, total, seen, actionTotal)
    {
      var c := cs[i];
      if c.attempts < 0 || c.action in seen || c.attempts > total - actionTotal {
        if CountersValid(total, cs) {
          CounterAccepted(cs, done, total, seen, actionTotal);
        }
        return false;
      }
      CounterStep(done, total, seen, actionTotal, c);
      seen := seen + {c.action};
      actionTotal := actionTotal + c.attempts;
      done := done + [c];
    }
    assert done == cs;
    return true;
  }

  // ------------------------------------------------------------------ events

  predicate Matches(admission: Event, completion: Event)
  {
    && admission.kind == Admission && admission.attemptId == completion.attemptId
    && admission.action == completion.action && admission.decision == completion.decision
    && admission.strategy == completion.strategy && admission.sourceBefore == completion.sourceBefore
  }

  predicate EventFollows(init: seq<Event>, e: Event, transitionSequence: int)
  {
    && 1 <= e.sequence <= transitionSequence && (|init| > 0 ==> init[|init| - 1].sequence < e.sequence)
    && (forall i :: 0 <= i < |init| && init[i].kind == e.kind ==> init[i].attemptId != e.attemptId)
    && (e.kind == Completion ==> exists i :: 0 <= i < |init| && Matches(init[i], e))
  }

  predicate EventsValid(es: seq<Event>, transitionSequence: int)
  {
    |es| == 0
    || (EventsValid(es[..|es| - 1], transitionSequence)
        && EventFollows(es[..|es| - 1], es[|es| - 1], transitionSequence))
  }

  lemma EventsSnoc(es: seq<Event>, e: Event, n: int)
    ensures EventsValid(es + [e], n) <==> EventsValid(es, n) && EventFollows(es, e, n)
  {
    assert (es + [e])[..|es|] == es;
  }

  lemma {:induction false} EventsAt(es: seq<Event>, n: int, k: nat)
    requires EventsValid(es, n) && k < |es|
    ensures EventsValid(es[..k], n) && EventFollows(es[..k], es[k], n)
    decreases |es|
  {
    if k < |es| - 1 {
      var init := es[..|es| - 1];
      EventsAt(init, n, k);
      assert init[..k] == es[..k];
    }
  }

  /** The completion at `k` has an earlier admission of the same attempt, action, decision, strategy and source. */
  predicate WasAdmitted(es: seq<Event>, k: nat)
    requires k < |es|
  {
    exists m :: 0 <= m < k && es[m].kind == Admission && es[m].attemptId == es[k].attemptId
      && es[m].action == es[k].action && es[m].decision == es[k].decision
      && es[m].strategy == es[k].strategy && es[m].sourceBefore == es[k].sourceBefore
  }

  /** An event log as a whole: numbered upwards within the transition sequence, no attempt admitted or completed twice,
      and every completion preceded by its own admission. */
  predicate LogReads(es: seq<Event>, n: int)
  {
    && (forall k :: 0 <= k < |es| ==> 1 <= es[k].sequence <= n)
    && (forall i, j :: 0 <= i < j < |es| ==> es[i].sequence < es[j].sequence)
    && (forall i, j :: 0 <= i < j < |es| && es[i].kind == es[j].kind ==> es[i].attemptId != es[j].attemptId)
    && (forall k :: 0 <= k < |es| && es[k].kind == Completion ==> WasAdmitted(es, k))
  }

  lemma LogReadsFollow(es: seq<Event>, n: int)
    requires LogReads(es, n) && |es| > 0
    ensures LogReads(es[..|es| - 1], n) && EventFollows(es[..|es| - 1], es[|es| - 1], n)
  {
    var init, e := es[..|es| - 1], es[|es| - 1];
    forall k | 0 <= k < |init| && init[k].kind == Completion
      ensures WasAdmitted(init, k)
    {
      assert WasAdmitted(es, k);
      var m :| 0 <= m < k && Matches(es[m], es[k]);
      assert Matches(init[m], init[k]);
    }
    if e.kind == Completion {
      assert WasAdmitted(es, |init|);
      var m :| 0 <= m < |init| && Matches(es[m], e);
      assert Matches(init[m], e);
    }
  }

  lemma {:induction false} EventsIncrease(es: seq<Event>, n: int, i: nat, j: nat)
    requires EventsValid(es, n) && i < j < |es|
    ensures es[i].sequence < es[j].sequence
    decreases j
  {
    EventsAt(es, n, j);
    if i < j - 1 {
      EventsIncrease(es, n, i, j - 1);
    }
  }

  lemma EventAdmitted(es: seq<Event>, n: int, k: nat)
    requires EventsValid(es, n) && k < |es| && es[k].kind == Completion
    ensures WasAdmitted(es, k)
  {
    var m := AdmissionOf(es, n, k);
  }

  lemma EventsRead(es: seq<Event>, n: int)
    requires EventsValid(es, n)
    ensures LogReads(es, n)
  {
    EventsAreDistinct(es, n);
    forall k | 0 <= k < |es|
      ensures 1 <= es[k].sequence <= n && (es[k].kind == Completion ==> WasAdmitted(es, k))
    {
      EventsAt(es, n, k);
      if es[k].kind == Completion {
        EventAdmitted(es, n, k);
      }
    }
    forall i, j | 0 <= i < j < |es|
      ensures es[i].sequence < es[j].sequence
    {
      EventsIncrease(es, n, i, j);
    }
  }

  /** The loop accepts a log event by event exactly if the log as a whole reads right. */
  lemma {:induction false} EventsExactly(es: seq<Event>, n: int)
    ensures EventsValid(es, n) <==> LogReads(es, n)
    decreases |es|
  {
    if EventsValid(es, n) {
      EventsRead(es, n);
    }
    if LogReads(es, n) && |es| > 0 {
      LogReadsFollow(es, n);
      EventsExactly(es[..|es| - 1], n);
    }
  }

  predicate OneOfEach(es: seq<Event>)
  {
    forall i, j :: 0 <= i < j < |es| && es[i].kind == es[j].kind ==> es[i].attemptId != es[j].attemptId
  }

  lemma EventsAreDistinct(es: seq<Event>, n: int)
    requires EventsValid(es, n)
    ensures OneOfEach(es)
  {
    forall i, j | 0 <= i < j < |es| && es[i].kind == es[j].kind
      ensures es[i].attemptId != es[j].attemptId
    {
      EventsAt(es, n, j);
      assert es[..j][i] == es[i];
    }
  }

  /** The admission a completion answers. */
  ghost function AdmissionOf(es: seq<Event>, n: int, k: nat): (m: nat)
    requires EventsValid(es, n) && k < |es| && es[k].kind == Completion
    ensures m < k && Matches(es[m], es[k])
  {
    EventsAt(es, n, k);
    var m :| 0 <= m < k && Matches(es[..k][m], es[k]);
    m
  }

  /** Completions inject into earlier admissions of the same action, decision, strategy and source. */
  lemma CompletionsInject(es: seq<Event>, n: int, j: nat, k: nat)
    requires EventsValid(es, n) && j < k < |es| && es[j].kind == Completion && es[k].kind == Completion
    ensures AdmissionOf(es, n, j) != AdmissionOf(es, n, k)
  {
    EventsAreDistinct(es, n);
  }

  function Count(es: seq<Event>, kind: EventKind): nat
  {
    if |es| == 0 then 0 else Count(es[..|es| - 1], kind) + if es[|es| - 1].kind == kind then 1 else 0
  }

  predicate Admitted(es: seq<Event>, id: string)
  {
    exists i :: 0 <= i < |es| && es[i].kind == Admission && es[i].attemptId == id
  }

  predicate Completed(es: seq<Event>, id: string)
  {
    exists i :: 0 <= i < |es| && es[i].kind == Completion && es[i].attemptId == id
  }

  /** `open` holds exactly the attempts admitted and not completed. */
  ghost predicate IsOpen(open: set<string>, es: seq<Event>)
  {
    forall id :: id in open <==> Admitted(es, id) && !Completed(es, id)
  }

  lemma KindSnoc(es: seq<Event>, e: Event, id: string)
    ensures Admitted(es + [e], id) <==> Admitted(es, id) || (e.kind == Admission && e.attemptId == id)
    ensures Completed(es + [e], id) <==> Completed(es, id) || (e.kind == Completion && e.attemptId == id)
  {
    var es' := es + [e];
    assert es'[|es|] == e;
    assert forall i :: 0 <= i < |es| ==> es'[i] == es[i];
  }

  lemma CountSnoc(es: seq<Event>, e: Event, kind: EventKind)
    ensures Count(es + [e], kind) == Count(es, kind) + if e.kind == kind then 1 else 0
  {
    assert (es + [e])[..|es|] == es;
  }

  lemma {:induction false} CompletedWasAdmitted(es: seq<Event>, n: int, id: string)
    requires EventsValid(es, n) && Completed(es, id)
    ensures Admitted(es, id)
  {
    var k :| 0 <= k < |es| && es[k].kind == Completion && es[k].attemptId == id;
    EventsAt(es, n, k);
    var m :| 0 <= m < k && Matches(es[..k][m], es[k]);
    assert es[m].attemptId == id;
  }

  ghost predicate OpenLoop(open: set<string>, done: seq<Event>)
  {
    IsOpen(open, done) && |open| == Count(done, Admission) - Count(done, Completion)
  }

  function OpenAfter(open: set<string>, e: Event): set<string>
  {
    if e.kind == Admission then open + {e.attemptId} else open - {e.attemptId}
  }

  lemma OpenStep(open: set<string>, done: seq<Event>, e: Event, n: int)
    requires EventsValid(done, n) && EventFollows(done, e, n) && OpenLoop(open, done)
    ensures OpenLoop(OpenAfter(open, e), done + [e])
  {
    forall id
      ensures id in OpenAfter(open, e) <==> Admitted(done + [e], id) && !Completed(done + [e], id)
    {
      KindSnoc(done, e, id);
      if e.kind == Admission && id == e.attemptId && Completed(done, id) {
        CompletedWasAdmitted(done, n, id);
      }
    }
    CountSnoc(done, e, Admission);
    CountSnoc(done, e, Completion);
    if e.kind == Completion {
      var i :| 0 <= i < |done| && Matches(done[i], e);
      assert Admitted(done, e.attemptId) && !Completed(done, e.attemptId);
    }
  }

  /** The attempts left open by replaying the events in order. */
  function OpenOf(es: seq<Event>): set<string>
  {
    if |es| == 0 then {} else OpenAfter(OpenOf(es[..|es| - 1]), es[|es| - 1])
  }

  lemma {:induction false} OpenCounts(es: seq<Event>, n: int)
    requires EventsValid(es, n)
    ensures OpenLoop(OpenOf(es), es)
    decreases |es|
  {
    if |es| == 0 {
      NothingOpen(es);
    } else {
      var init, e := es[..|es| - 1], es[|es| - 1];
      assert es == init + [e];
      OpenCounts(init, n);
      OpenStep(OpenOf(init), init, e, n);
    }
  }

  lemma NothingOpen(es: seq<Event>)
    requires |es| == 0
    ensures OpenLoop({}, es)
  {
  }

  /** Over a valid log an attempt is open exactly if it was admitted and not completed, and there is one exactly
      when more attempts were admitted than completed. */
  lemma OpenMeans(es: seq<Event>, n: int)
    requires EventsValid(es, n)
    ensures OpenOf(es) != {} <==> exists id :: Admitted(es, id) && !Completed(es, id)
    ensures OpenOf(es) != {} <==> Count(es, Admission) != Count(es, Completion)
    ensures Count(es, Completion) <= Count(es, Admission)
  {
    OpenCounts(es, n);
    if OpenOf(es) != {} {
      var id :| id in OpenOf(es);
      assert Admitted(es, id) && !Completed(es, id);
    }
  }

  /** attemptInFlight: on a valid log, whether the admitted and completed counts differ. */
  method AttemptInFlight(es: seq<Event>) returns (inFlight: bool)
    ensures inFlight <==> OpenOf(es) != {}
    ensures forall n :: EventsValid(es, n) ==> (inFlight <==> Count(es, Admission) != Count(es, Completion))
  {
    var open: set<string> := {};
    ghost var done: seq<Event> := [];
    for i := 0 to |es|
      invariant done == es[..i] && open == OpenOf(done)
    {
      assert (done + [es[i]])[..i] == done;
      if es[i].kind == Admission {
        open := open + {es[i].attemptId};
      } else {
        open := open - {es[i].attemptId};
      }
      done := done + [es[i]];
    }
    assert done == es;
    forall n | EventsValid(es, n)
      ensures OpenOf(es) != {} <==> Count(es, Admission) != Count(es, Completion)
    {
      OpenMeans(es, n);
    }
    inFlight := open != {};
  }

  // ------------------------------------------------------- the event check

  ghost predicate EventLoop(done: seq<Event>, n: int, admitted: map<string, Event>, completed: set<string>)
  {
    && EventsValid(done, n)
    && (forall id :: id in admitted ==>
        admitted[id] in done && admitted[id].kind == Admission && admitted[id].attemptId == id)
    && (forall i :: 0 <= i < |done| && done[i].kind == Admission ==> done[i].attemptId in admitted)
    && (forall id :: id in completed <==> Completed(done, id))
  }

  /** The checks the loop makes on one event. */
  predicate EventPasses(previous: Option<Event>, n: int, admitted: map<string, Event>, completed: set<string>, e: Event)
  {
    && 1 <= e.sequence <= n && (previous.Some? ==> previous.value.sequence < e.sequence)
    && if e.kind == Admission then e.attemptId !in admitted
       else e.attemptId in admitted && Matches(admitted[e.attemptId], e) && e.attemptId !in completed
  }

  lemma EventPassesExactly(done: seq<Event>, n: int, admitted: map<string, Event>, completed: set<string>, e: Event)
    requires EventLoop(done, n, admitted, completed)
    ensures EventPasses(if |done| == 0 then None else Some(done[|done| - 1]), n, admitted, completed, e) <==>
            EventFollows(done, e, n)
  {
    EventsAreDistinct(done, n);
    if e.attemptId in admitted {
      var i :| 0 <= i < |done| && done[i] == admitted[e.attemptId];
    }
  }

  lemma EventStep(done: seq<Event>, n: int, admitted: map<string, Event>, completed: set<string>, e: Event)
    requires EventLoop(done, n, admitted, completed) && EventFollows(done, e, n)
    ensures EventLoop(done + [e], n, if e.kind == Admission then admitted[e.attemptId := e] else admitted,
                      if e.kind == Completion then completed + {e.attemptId} else completed)
  {
    EventsSnoc(done, e, n);
    forall id
      ensures Completed(done + [e], id) <==> Completed(done, id) || (e.kind == Completion && e.attemptId == id)
    {
      KindSnoc(done, e, id);
    }
  }

  /** The loop over events accepts exactly the valid logs. */
  method CheckEvents(es: seq<Event>, transitionSequence: int) returns (ok: bool)
    ensures ok <==> EventsValid(es, transitionSequence)
    ensures ok <==> LogReads(es, transitionSequence)
  {
    EventsExactly(es, transitionSequence);
    var admitted: map<string, Event> := map[];
    var completed: set<string> := {};
    ghost var done: seq<Event> := [];
    for i := 0 to |es|
      invariant done == es[..i] && EventLoop(done, transitionSequence, admitted, completed)
    {
      var e := es[i];
      var previous := if i == 0 then None else Some(es[i - 1]);
      EventPassesExactly(done, transitionSequence, admitted, completed, e);
      if !EventPasses(previous, transitionSequence, admitted, completed, e) {
        EventRefused(es, done, transitionSequence);
        return false;
      }
      EventStep(done, transitionSequence, admitted, completed, e);
      if e.kind == Admission {
        admitted := admitted[e.attemptId := e];
      } else {
        completed := completed + {e.attemptId};
      }
      done := done + [e];
    }
    assert done == es;
    return true;
  }

  lemma EventRefused(es: seq<Event>, done: seq<Event>, n: int)
    requires |done| < |es| && done == es[..|done|] && !EventFollows(done, es[|done|], n)
    ensures !EventsValid(es, n)
  {
    if EventsValid(es, n) {
      EventsAt(es, n, |done|);
    }
  }

  // ------------------------------------------------------------- whole states

  predicate BudgetValid(b: Budget)
  {
    b.limit >= 0 && b.consumed >= 0 && (b.mode != ModeLimited ==> b.limit == 0)
  }

  predicate ActionBudgetsValid(bs: seq<ActionBudget>)
  {
    && (forall i :: 0 <= i < |bs| ==> BudgetValid(bs[i].budget))
    && (forall i, j :: 0 <= i < j < |bs| ==> bs[i].action != bs[j].action)
  }

  predicate StateValid(a: AttemptState)
  {
    && 0 <= a.consecutiveFailures <= a.total && CountersValid(a.total, a.counters)
    && BudgetValid(a.retry) && a.retry.consumed <= a.total as int && BudgetValid(a.elapsed) && BudgetValid(a.tokens)
    && a.repeatedLimit >= 0 && a.transitionSequence >= 0
    && ActionBudgetsValid(a.actionBudgets) && EventsValid(a.events, a.transitionSequence)
    && (forall i, j :: 0 <= i < j < |a.stops| ==> a.stops[i].action != a.stops[j].action)
  }

  predicate SameLimit(p: Budget, n: Budget)
  {
    p.mode == n.mode && p.limit == n.limit
  }

  predicate LimitsFrozen(p: AttemptState, n: AttemptState)
  {
    SameLimit(p.retry, n.retry) && SameLimit(p.elapsed, n.elapsed) && SameLimit(p.tokens, n.tokens)
        && p.repeatedLimit == n.repeatedLimit
  }

  predicate Started(a: AttemptState)
  {
    a.total > 0 || |a.events| > 0
  }

  /** The previous count of an action; zero if it had none. */
  function PriorCount(cs: seq<Counter>, action: string): int64
  {
    if |cs| == 0 then 0
    else if cs[|cs| - 1].action == action then cs[|cs| - 1].attempts
    else PriorCount(cs[..|cs| - 1], action)
  }

  /** The named action's budget keeps its authority and loses no consumption. */
  predicate BudgetKept(b: ActionBudget, ns: seq<ActionBudget>)
  {
    && (exists j :: 0 <= j < |ns| && ns[j].action == b.action)
    && (forall j :: 0 <= j < |ns| && ns[j].action == b.action ==>
          SameLimit(b.budget, ns[j].budget) && b.budget.consumed <= ns[j].budget.consumed)
  }

  /** What every legal step keeps. */
  predicate Kept(p: AttemptState, n: AttemptState)
  {
    && p.total <= n.total && p.transitionSequence <= n.transitionSequence
    && p.retry.consumed <= n.retry.consumed && p.elapsed.consumed <= n.elapsed.consumed
        && p.tokens.consumed <= n.tokens.consumed
    && (Started(p) ==> LimitsFrozen(p, n))
    && (forall i :: 0 <= i < |p.actionBudgets| ==> BudgetKept(p.actionBudgets[i], n.actionBudgets))
    && p.events <= n.events && p.stops <= n.stops && (p.lastFailure.Some? ==> n.lastFailure.Some?)
  }

  /** validateAttemptTransition. */
  predicate TransitionValid(p: AttemptState, n: AttemptState)
  {
    && Kept(p, n)
    && (forall i :: 0 <= i < |n.counters| ==> PriorCount(p.counters, n.counters[i].action) <= n.counters[i].attempts)
  }

  ghost predicate LegalRun(run: seq<AttemptState>)
  {
    && (forall i {:trigger StateValid(run[i])} :: 0 <= i < |run| ==> StateValid(run[i]))
    && (forall i, j {:trigger TransitionValid(run[i], run[j])} :: 0 <= i < j < |run| && j == i + 1 ==>
        TransitionValid(run[i], run[j]))
  }

  lemma BudgetKeptTransitive(b: ActionBudget, ns: seq<ActionBudget>, ms: seq<ActionBudget>)
    requires BudgetKept(b, ns) && forall i :: 0 <= i < |ns| ==> BudgetKept(ns[i], ms)
    ensures BudgetKept(b, ms)
  {
    var j :| 0 <= j < |ns| && ns[j].action == b.action;
    assert BudgetKept(ns[j], ms);
  }

  lemma KeptTransitive(a: AttemptState, b: AttemptState, c: AttemptState)
    requires Kept(a, b) && Kept(b, c)
    ensures Kept(a, c)
  {
    forall i | 0 <= i < |a.actionBudgets|
      ensures BudgetKept(a.actionBudgets[i], c.actionBudgets)
    {
      BudgetKeptTransitive(a.actionBudgets[i], b.actionBudgets, c.actionBudgets);
    }
  }

  lemma {:induction false} RunHolds(run: seq<AttemptState>, i: nat, j: nat)
    requires LegalRun(run) && i < j < |run|
    ensures Kept(run[i], run[j])
    decreases j
  {
    assert TransitionValid(run[j - 1], run[j]);
    if i < j - 1 {
      RunHolds(run, i, j - 1);
      KeptTransitive(run[i], run[j - 1], run[j]);
    }
  }

  /** A budget of the same action, mode and limit is among `bs`, with at least this consumption. */
  predicate StillBudgeted(b: ActionBudget, bs: seq<ActionBudget>)
  {
    exists m :: 0 <= m < |bs| && bs[m].action == b.action && bs[m].budget.mode == b.budget.mode
      && bs[m].budget.limit == b.budget.limit && b.budget.consumed <= bs[m].budget.consumed
  }

  /** What a later state owes an earlier one, in their fields. */
  predicate AccountKept(p: AttemptState, n: AttemptState)
  {
    && p.total <= n.total && p.transitionSequence <= n.transitionSequence
    && p.retry.consumed <= n.retry.consumed && p.elapsed.consumed <= n.elapsed.consumed
    && p.tokens.consumed <= n.tokens.consumed
    && (p.total > 0 || |p.events| > 0 ==>
          && n.retry.mode == p.retry.mode && n.retry.limit == p.retry.limit
          && n.elapsed.mode == p.elapsed.mode && n.elapsed.limit == p.elapsed.limit
          && n.tokens.mode == p.tokens.mode && n.tokens.limit == p.tokens.limit
          && n.repeatedLimit == p.repeatedLimit)
    && (forall b :: b in p.actionBudgets ==> StillBudgeted(b, n.actionBudgets))
    && |p.events| <= |n.events| && (forall k :: 0 <= k < |p.events| ==> n.events[k] == p.events[k])
    && |p.stops| <= |n.stops| && (forall k :: 0 <= k < |p.stops| ==> n.stops[k] == p.stops[k])
    && (p.lastFailure.Some? ==> n.lastFailure.Some?)
  }

  lemma KeptAccounts(p: AttemptState, n: AttemptState)
    requires Kept(p, n)
    ensures AccountKept(p, n)
  {
    forall b | b in p.actionBudgets
      ensures StillBudgeted(b, n.actionBudgets)
    {
      var i :| 0 <= i < |p.actionBudgets| && p.actionBudgets[i] == b;
      assert BudgetKept(p.actionBudgets[i], n.actionBudgets);
    }
  }

  /** Along any run the event log and the action stops only grow at their end, a last failure stays recorded, totals and
      consumption never decrease, no action budget disappears or changes authority, and all limits are frozen from the
      first admission on. */
  lemma RunKeeps(run: seq<AttemptState>, i: nat, j: nat)
    requires LegalRun(run) && i < j < |run|
    ensures AccountKept(run[i], run[j])
  {
    RunHolds(run, i, j);
    KeptAccounts(run[i], run[j]);
  }

  predicate BudgetReads(b: Budget)
  {
    0 <= b.limit && 0 <= b.consumed && (b.mode == ModeLimited || b.limit == 0)
  }

  /** What every state of a run satisfies, in its own fields. */
  lemma StateFields(run: seq<AttemptState>, j: nat)
    requires LegalRun(run) && j < |run|
    ensures var a := run[j];
            && 0 <= a.consecutiveFailures <= a.total && CounterSum(a.counters) <= a.total as int
            && (forall k :: 0 <= k < |a.counters| ==> 0 <= a.counters[k].attempts <= a.total)
            && (forall k, m :: 0 <= k < m < |a.counters| ==> a.counters[k].action != a.counters[m].action)
            && BudgetReads(a.retry) && BudgetReads(a.elapsed) && BudgetReads(a.tokens)
            && a.retry.consumed <= a.total as int && 0 <= a.repeatedLimit && 0 <= a.transitionSequence
            && (forall k :: 0 <= k < |a.actionBudgets| ==> BudgetReads(a.actionBudgets[k].budget))
            && (forall k, m :: 0 <= k < m < |a.actionBudgets| ==>
                a.actionBudgets[k].action != a.actionBudgets[m].action)
            && LogReads(a.events, a.transitionSequence)
            && (forall k, m :: 0 <= k < m < |a.stops| ==> a.stops[k].action != a.stops[m].action)
  {
    var a := run[j];
    assert StateValid(a);
    EventsExactly(a.events, a.transitionSequence);
    forall k | 0 <= k < |a.counters|
      ensures a.counters[k].attempts <= a.total
    {
      CounterWithin(a.counters, k);
    }
  }

  lemma CounterWithin(cs: seq<Counter>, k: nat)
    requires CountersSane(cs) && k < |cs|
    ensures cs[k].attempts as int <= CounterSum(cs)
  {
    SumGrows(cs, k);
    SumGrows(cs, k + 1);
    assert cs[..k + 1] == cs[..k] + [cs[k]];
    SumSnoc(cs[..k], cs[k]);
  }

  // -------------------------------------------------------------- action counters

  predicate Listed(cs: seq<Counter>, action: string)
  {
    exists i :: 0 <= i < |cs| && cs[i].action == action
  }

  lemma {:induction false} CountOf(cs: seq<Counter>, i: nat)
    requires CountersSane(cs) && i < |cs|
    ensures PriorCount(cs, cs[i].action) == cs[i].attempts
    decreases |cs|
  {
    if i < |cs| - 1 {
      assert cs[i].action != cs[|cs| - 1].action;
      CountOf(cs[..|cs| - 1], i);
    }
  }

  lemma {:induction false} CountNonnegative(cs: seq<Counter>, action: string)
    requires CountersSane(cs)
    ensures PriorCount(cs, action) >= 0
    ensures !Listed(cs, action) ==> PriorCount(cs, action) == 0
    decreases |cs|
  {
    if |cs| > 0 {
      CountNonnegative(cs[..|cs| - 1], action);
      if !Listed(cs, action) {
        assert cs[|cs| - 1].action != action;
        assert forall i :: 0 <= i < |cs| - 1 ==> cs[..|cs| - 1][i] == cs[i];
      }
    }
  }

  /** A legal step keeps an action's counter from falling if and only if the action is still listed, or had none. */
  lemma CounterStepExactly(p: AttemptState, n: AttemptState, action: string)
    requires StateValid(p) && StateValid(n) && TransitionValid(p, n)
    ensures PriorCount(p.counters, action) <= PriorCount(n.counters, action)
       <==> Listed(n.counters, action) || PriorCount(p.counters, action) == 0
  {
    CountNonnegative(p.counters, action);
    CountNonnegative(n.counters, action);
    if Listed(n.counters, action) {
      var i :| 0 <= i < |n.counters| && n.counters[i].action == action;
      CountOf(n.counters, i);
    }
  }

  /** At every step from position `i` to `j` of the run the action is listed, or had no count to lose. */
  ghost predicate StaysListed(run: seq<AttemptState>, i: nat, j: nat, action: string)
    requires i <= j < |run|
  {
    i == j
    || (&& StaysListed(run, i, j - 1, action)
        && (Listed(run[j].counters, action) || PriorCount(run[j - 1].counters, action) == 0))
  }

  ghost predicate NeverFalls(run: seq<AttemptState>, i: nat, j: nat, action: string)
    requires i <= j < |run|
  {
    i == j
    || (NeverFalls(run, i, j - 1, action)
        && PriorCount(run[j - 1].counters, action) <= PriorCount(run[j].counters, action))
  }

  /** Over any run an action's counter never falls if and only if the action stays listed while it has a count; then in
      particular the last count is at least the first. */
  lemma {:induction false} CounterRunExactly(run: seq<AttemptState>, i: nat, j: nat, action: string)
    requires LegalRun(run) && i <= j < |run|
    ensures NeverFalls(run, i, j, action) <==> StaysListed(run, i, j, action)
    ensures StaysListed(run, i, j, action) ==>
            PriorCount(run[i].counters, action) <= PriorCount(run[j].counters, action)
    decreases j
  {
    if i < j {
      CounterRunExactly(run, i, j - 1, action);
      assert StateValid(run[j - 1]) && StateValid(run[j]) && TransitionValid(run[j - 1], run[j]);
      CounterStepExactly(run[j - 1], run[j], action);
    }
  }

  function RestartState(cs: seq<Counter>): AttemptState
  {
    var none := Budget(ModeUnset, 0, 0);
    AttemptState(5, 0, cs, [], none, none, none, 0, 0, [], [], None)
  }

  lemma RestartStateValid(n: int64)
    requires 0 <= n <= 5
    ensures StateValid(RestartState([])) && StateValid(RestartState([Counter("audit", n)]))
    ensures PriorCount([Counter("audit", n)], "audit") == n
  {
    assert CounterSum([Counter("audit", n)][..0]) == 0;
  }

  /** Action counters are not monotone over runs: one may vanish and come back smaller, through legal steps. */
  lemma CounterMayRestart() returns (run: seq<AttemptState>)
    ensures LegalRun(run) && |run| == 3
    ensures PriorCount(run[0].counters, "audit") > PriorCount(run[2].counters, "audit") > 0
  {
    RestartStateValid(5);
    RestartStateValid(1);
    var a, b, c := RestartState([Counter("audit", 5)]), RestartState([]), RestartState([Counter("audit", 1)]);
    run := [a, b, c];
    assert TransitionValid(a, b) && TransitionValid(b, c);
    assert run[0] == a && run[1] == b && run[2] == c;
  }
}
