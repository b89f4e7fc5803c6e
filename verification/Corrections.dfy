/** What a correction may claim about the findings it was asked to correct
    (internal/autonomous/correction.go:75-130). */
module Corrections {
  import opened Base
  import opened FindingIds

  datatype Outcome = Corrected | Partial | FailedOutcome | Unknown

  /** `failure` is the verification failure under repair, with whether it is itself well formed. */
  datatype Output = Output(
    outcome: Outcome,
    findings: seq<string>,
    failure: Option<bool>,
    resolved: seq<string>,
    remaining: seq<string>,
    addressed: bool)

  function Elements(s: seq<string>): set<string>
  {
    set x | x in s
  }

  /** Every cited finding is either resolved or remaining, not both, and nothing else is claimed. */
  predicate Partitions(o: Output)
  {
    && Elements(o.resolved) !! Elements(o.remaining)
    && Elements(o.resolved) + Elements(o.remaining) == Elements(o.findings)
  }

  predicate OutcomeFits(o: Output)
  {
    match o.outcome
    case Corrected => o.remaining == [] && (o.failure.Some? ==> o.addressed)
    case Partial => o.findings != [] && o.remaining != []
    case FailedOutcome => o.resolved == [] && !o.addressed
    case Unknown => false
  }

  ghost predicate AuthorityValid(o: Output)
  {
    && (o.findings != [] <==> o.failure.None?)
    && (o.findings != [] ==>
          IdsValid(o.findings) && IdsValid(o.resolved) && IdsValid(o.remaining) && !o.addressed && Partitions(o))
    && (o.findings == [] ==> o.failure == Some(true) && o.resolved == [] && o.remaining == [])
  }

  ghost predicate OutputValid(o: Output)
  {
    AuthorityValid(o) && OutcomeFits(o)
  }

  /** A correction of audit findings answers for each cited finding exactly once, as resolved or as remaining, and for
      nothing else; a correction of a verification failure answers for no finding. Corrected leaves nothing, partial
      something, failed resolves nothing. */
  ghost predicate CorrectionReads(o: Output)
  {
    if o.failure.None? then
      && o.findings != [] && IdsValid(o.findings) && IdsValid(o.resolved) && IdsValid(o.remaining) && !o.addressed
      && (forall id :: id in o.findings ==> (id in o.resolved <==> id !in o.remaining))
      && (forall id :: id in o.resolved ==> id in o.findings) && (forall id :: id in o.remaining ==> id in o.findings)
      && (o.outcome == Corrected ==> |o.remaining| == 0) && (o.outcome == Partial ==> |o.remaining| > 0)
      && (o.outcome == FailedOutcome ==> |o.resolved| == 0) && o.outcome != Unknown
    else
      && o.failure.value && |o.findings| == 0 && |o.resolved| == 0 && |o.remaining| == 0
      && (o.outcome == Corrected || o.outcome == FailedOutcome) && (o.addressed <==> o.outcome == Corrected)
  }

  lemma CorrectionExactly(o: Output)
    ensures OutputValid(o) <==> CorrectionReads(o)
  {
    if OutputValid(o) && o.failure.None? {
      forall id
        ensures id in o.findings <==> id in o.resolved || id in o.remaining
        ensures !(id in o.resolved && id in o.remaining)
      {
        assert id in Elements(o.findings) <==> id in Elements(o.resolved) + Elements(o.remaining);
        assert id !in Elements(o.resolved) || id !in Elements(o.remaining);
      }
    }
  }

  /** Over audit findings: corrected resolves all of them, failed none, partial leaves some. */
  lemma OutcomeMeaning(o: Output)
    requires OutputValid(o) && o.findings != []
    ensures o.outcome == Corrected <==> Elements(o.resolved) == Elements(o.findings)
    ensures o.outcome == FailedOutcome ==> Elements(o.remaining) == Elements(o.findings)
    ensures o.outcome == Partial ==> Elements(o.resolved) < Elements(o.findings)
  {
    if o.remaining != [] {
      assert o.remaining[0] in Elements(o.remaining);
    }
    assert o.findings[0] in Elements(o.findings);
  }

  // ---------------------------------------------------------------- count map

  /** How often an id was claimed. */
  function Claims(o: Output, id: string): int
  {
    (if id in o.resolved then 1 else 0) + (if id in o.remaining then 1 else 0)
  }

  ghost predicate Counted(seen: map<string, int>, done: seq<string>, o: Output)
  {
    && (forall id :: id in seen <==> id !in done && Claims(o, id) > 0)
    && (forall id :: id in seen ==> seen[id] == Claims(o, id))
  }

  lemma CountsDecide(o: Output, seen: map<string, int>)
    requires Counted(seen, o.findings, o) && forall i :: 0 <= i < |o.findings| ==> Claims(o, o.findings[i]) == 1
    ensures seen == map[] <==> Partitions(o)
  {
    if seen == map[] {
      forall id
        ensures id in o.resolved || id in o.remaining ==> id in o.findings
        ensures !(id in o.resolved && id in o.remaining)
      {
        assert id !in seen;
      }
    }
    if Partitions(o) {
      forall id
        ensures id !in seen
      {
        assert Claims(o, id) > 0 ==> id in Elements(o.resolved) + Elements(o.remaining);
      }
    }
  }

  lemma PartitionCounts(o: Output, i: nat)
    requires Partitions(o) && i < |o.findings|
    ensures Claims(o, o.findings[i]) == 1
  {
    assert o.findings[i] in Elements(o.findings);
  }

  method CountClaims(ids: seq<string>, before: map<string, int>) returns (seen: map<string, int>)
    requires forall i, j :: 0 <= i < j < |ids| ==> ids[i] != ids[j]
    ensures forall id :: id in seen <==> id in before || id in ids
    ensures forall id :: id in seen ==>
            seen[id] == (if id in before then before[id] else 0) + (if id in ids then 1 else 0)
  {
    seen := before;
    for i := 0 to |ids|
      invariant forall id :: id in seen <==> id in before || id in ids[..i]
      invariant forall id :: id in seen ==>
                seen[id] == (if id in before then before[id] else 0) + (if id in ids[..i] then 1 else 0)
    {
      var id := ids[i];
      assert id !in ids[..i];
      assert ids[..i + 1] == ids[..i] + [id];
      seen := seen[id := (if id in seen then seen[id] else 0) + 1];
    }
    assert ids[..|ids|] == ids;
  }

  method CountAll(o: Output) returns (seen: map<string, int>)
    requires IdsValid(o.resolved) && IdsValid(o.remaining)
    ensures Counted(seen, [], o)
  {
    seen := CountClaims(o.resolved, map[]);
    seen := CountClaims(o.remaining, seen);
  }

  /** Count every claim, then cross off the cited findings: each must have been claimed exactly once, and nothing
      may be left. */
  method CheckPartition(o: Output) returns (ok: bool)
    requires IdsValid(o.findings) && IdsValid(o.resolved) && IdsValid(o.remaining)
    ensures ok <==> Partitions(o)
  {
    var seen := CountAll(o);
    ghost var done: seq<string> := [];
    for i := 0 to |o.findings|
      invariant done == o.findings[..i] && Counted(seen, done, o)
      invariant forall k :: 0 <= k < i ==> Claims(o, o.findings[k]) == 1
    {
      var id := o.findings[i];
      assert id !in done;
      if id !in seen || seen[id] != 1 {
        NotPartitioned(seen, done, o, i);
        return false;
      }
      CountedStep(seen, done, o, id);
      seen := seen - {id};
      done := done + [id];
    }
    assert done == o.findings;
    CountsDecide(o, seen);
    return seen == map[];
  }

  lemma NotPartitioned(seen: map<string, int>, done: seq<string>, o: Output, i: nat)
    requires Counted(seen, done, o) && i < |o.findings| && o.findings[i] !in done
    requires o.findings[i] !in seen || seen[o.findings[i]] != 1
    ensures !Partitions(o)
  {
    if Partitions(o) {
      PartitionCounts(o, i);
      assert false;
    }
  }

  lemma CountedStep(seen: map<string, int>, done: seq<string>, o: Output, id: string)
    requires Counted(seen, done, o) && id in seen && seen[id] == 1
    ensures Claims(o, id) == 1 && Counted(seen - {id}, done + [id], o)
  {
  }

  /** CorrectionOutput.Validate. */
  method ValidateCorrection(o: Output) returns (ok: bool)
    ensures ok <==> OutputValid(o)
    ensures ok <==> CorrectionReads(o)
  {
    CorrectionExactly(o);
    if (|o.findings| == 0) == o.failure.None? {
      return false;
    }
    if |o.findings| != 0 {
      var findingsOk := ValidateFindingIds(o.findings);
      var resolvedOk := ValidateFindingIds(o.resolved);
      var remainingOk := ValidateFindingIds(o.remaining);
      if !findingsOk || !resolvedOk || !remainingOk || o.addressed {
        return false;
      }
      ok := CheckPartition(o);
      if !ok {
        return;
      }
    } else if o.failure != Some(true) || |o.resolved| != 0 || |o.remaining| != 0 {
      return false;
    }
    return OutcomeFits(o);
  }
}
