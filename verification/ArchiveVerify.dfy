/** The archive verifier's two loops over stored records (internal/autonomousarchive/verify.go:134-184). */
module ArchiveVerify {
  import opened Base
  import opened Archive
  import opened ArchiveSafety
  import opened ArchiveRuns

  /** verifyHistory accepts exactly a complete, consistent set of records. */
  method VerifyHistory(w: World) returns (ok: bool)
    requires w.journal.Some?
    ensures ok <==> HistoryVerified(w)
    ensures ok <==> forall n: nat :: 1 <= n <= 5 ==>
              && n in w.history && w.history[n].operation == w.journal.value.operation
              && w.history[n].sequence == n && w.history[n].stage == n
              && (n == 4 || n == 5 ==> w.history[n].commit == w.journal.value.commit)
  {
    var j := w.journal.value;
    for sequence := 1 to 6
      invariant forall n: nat :: 1 <= n < sequence ==>
        n in w.history && w.history[n].operation == j.operation && w.history[n].sequence == n && w.history[n].stage == n
        && (n >= 4 ==> w.history[n].commit == j.commit)
    {
      if sequence !in w.history {
        return false;
      }
      var r := w.history[sequence];
      if r.sequence != sequence || r.operation != j.operation || r.stage != sequence
          || (sequence >= 4 && r.commit != j.commit) {
        return false;
      }
    }
    return true;
  }

  lemma CountSnoc(events: seq<LedgerEvent>, e: LedgerEvent, kind: nat)
    ensures CountKind(events + [e], kind) == CountKind(events, kind) + if e.kind == kind then 1 else 0
  {
    assert (events + [e])[..|events|] == events;
  }

  predicate Owned(events: seq<LedgerEvent>, kind: nat, operation: string)
  {
    forall i :: 0 <= i < |events| && events[i].kind == kind ==> events[i].operation == operation
  }

  lemma OwnedSnoc(events: seq<LedgerEvent>, e: LedgerEvent, kind: nat, operation: string)
    ensures Owned(events + [e], kind, operation) <==>
            Owned(events, kind, operation) && (e.kind == kind ==> e.operation == operation)
  {
    var all := events + [e];
    assert all[|events|] == e;
    assert forall i :: 0 <= i < |events| ==> all[i] == events[i];
  }

  /** One pass per event kind: count it, and refuse a foreign payload. */
  method CountEvents(events: seq<LedgerEvent>, kind: nat, operation: string) returns (ok: bool)
    ensures ok <==> CountKind(events, kind) == 1 && Owned(events, kind, operation)
  {
    var count := 0;
    ghost var done: seq<LedgerEvent> := [];
    for i := 0 to |events|
      invariant done == events[..i] && count == CountKind(done, kind) && Owned(done, kind, operation)
    {
      var e := events[i];
      if e.kind == kind && e.operation != operation {
        return false;
      }
      CountSnoc(done, e, kind);
      OwnedSnoc(done, e, kind, operation);
      if e.kind == kind {
        count := count + 1;
      }
      done := done + [e];
    }
    assert done == events;
    return count == 1;
  }

  /** Event `i` is of the kind, and no other is. */
  predicate OnlyEvent(events: seq<LedgerEvent>, i: nat, kind: nat)
    requires i < |events|
  {
    events[i].kind == kind && forall k :: 0 <= k < |events| && events[k].kind == kind ==> k == i
  }

  lemma {:induction false} NoEvents(events: seq<LedgerEvent>, kind: nat)
    requires CountKind(events, kind) == 0
    ensures forall k :: 0 <= k < |events| ==> events[k].kind != kind
    decreases |events|
  {
    if |events| > 0 {
      NoEvents(events[..|events| - 1], kind);
    }
  }

  lemma {:induction false} TheOnlyEvent(events: seq<LedgerEvent>, kind: nat) returns (i: nat)
    requires CountKind(events, kind) == 1
    ensures i < |events| && OnlyEvent(events, i, kind)
    decreases |events|
  {
    var init := events[..|events| - 1];
    if events[|events| - 1].kind == kind {
      NoEvents(init, kind);
      i := |events| - 1;
    } else {
      i := TheOnlyEvent(init, kind);
    }
  }

  /** Exactly one event is of the kind, and it is the operation's own. */
  ghost predicate ToldOnce(events: seq<LedgerEvent>, kind: nat, operation: string)
  {
    exists i: nat :: i < |events| && OnlyEvent(events, i, kind) && events[i].operation == operation
  }

  lemma {:induction false} CountOnly(events: seq<LedgerEvent>, i: nat, kind: nat)
    requires i < |events| && OnlyEvent(events, i, kind)
    ensures CountKind(events, kind) == 1
    decreases |events|
  {
    var init := events[..|events| - 1];
    if i < |init| {
      CountOnly(init, i, kind);
    } else {
      CountNone(init, kind);
    }
  }

  lemma {:induction false} CountNone(events: seq<LedgerEvent>, kind: nat)
    requires forall k :: 0 <= k < |events| ==> events[k].kind != kind
    ensures CountKind(events, kind) == 0
    decreases |events|
  {
    if |events| > 0 {
      CountNone(events[..|events| - 1], kind);
    }
  }

  lemma ToldOnceExactly(events: seq<LedgerEvent>, kind: nat, operation: string)
    ensures ToldOnce(events, kind, operation) <==> CountKind(events, kind) == 1 && Owned(events, kind, operation)
  {
    if ToldOnce(events, kind, operation) {
      var i: nat :| i < |events| && OnlyEvent(events, i, kind) && events[i].operation == operation;
      CountOnly(events, i, kind);
    }
    if CountKind(events, kind) == 1 && Owned(events, kind, operation) {
      var i := TheOnlyEvent(events, kind);
    }
  }

  /** The ledger tells each of the five stages once, in this operation's name, and its run completed with the commit. */
  ghost predicate LedgerTells(w: World)
    requires w.journal.Some?
  {
    && w.run.Some? && w.run.value.completed && w.run.value.commit == w.journal.value.commit
    && forall n: nat :: 1 <= n <= 5 ==> ToldOnce(w.events, n, w.journal.value.operation)
  }

  /** verifyArchiveLedger. */
  method VerifyArchiveLedger(w: World) returns (ok: bool)
    requires w.journal.Some?
    ensures ok <==> LedgerVerified(w)
    ensures ok <==> LedgerTells(w)
  {
    var j := w.journal.value;
    if w.run.None? || !w.run.value.completed || w.run.value.commit != j.commit {
      return false;
    }
    for kind := 1 to 6
      invariant forall n: nat :: 1 <= n < kind ==> CountKind(w.events, n) == 1 && Owned(w.events, n, j.operation)
      invariant forall n: nat :: 1 <= n < kind ==> ToldOnce(w.events, n, j.operation)
    {
      ToldOnceExactly(w.events, kind, j.operation);
      ok := CountEvents(w.events, kind, j.operation);
      if !ok {
        return false;
      }
    }
    assert forall i :: 0 <= i < |w.events| && 1 <= w.events[i].kind <= 5 ==>
        Owned(w.events, w.events[i].kind, j.operation);
    return true;
  }
}
