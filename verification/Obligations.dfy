/** What a task must discharge before it may complete: acceptance criteria, finding resolutions, and the decisions
    behind them (internal/autonomous/state.go:566-674, 1297-1347, 1762-1809). */
module Obligations {
  import opened Base

  datatype Action = CompleteAction | OtherAction(name: string)

  /** A reference to a supervisor decision; `payload` is its run, profile, artifact and time. */
  datatype Decision = Decision(id: string, action: Action, payload: string)

  datatype CriterionStatus = Pending | Satisfied | WaivedCriterion | NotApplicable

  datatype Criterion = Criterion(
    id: string,
    requirement: string,
    status: CriterionStatus,
    evidence: seq<string>,
    rationale: string,
    source: Option<string>)

  datatype ResolutionStatus = Open | Resolved | WaivedFinding | SupersededFinding | InvalidFinding

  datatype Resolution = Resolution(
    findingId: string,
    status: ResolutionStatus,
    evidence: seq<string>,
    rationale: string,
    superseding: string,
    decision: Option<Decision>)

  // ----------------------------------------------------------------- validity

  predicate CriterionValid(c: Criterion)
  {
    && c.id != "" && c.requirement != ""
    && match c.status
       case Pending => c.evidence == [] && c.rationale == ""
       case Satisfied => c.evidence != []
       case WaivedCriterion => c.rationale != ""
       case NotApplicable => c.rationale != ""
  }

  predicate ResolutionValid(r: Resolution)
  {
    && r.findingId != ""
    && (r.decision.Some? ==> r.decision.value.id != "")
    && match r.status
       case Open => r.evidence == [] && r.rationale == "" && r.superseding == "" && r.decision.None?
       case Resolved => r.evidence != [] && r.superseding == ""
       case WaivedFinding => r.rationale != "" && r.superseding == ""
       case SupersededFinding => r.superseding != "" && r.superseding != r.findingId
       case InvalidFinding => r.rationale != "" && r.superseding == ""
  }

  predicate CriteriaValid(cs: seq<Criterion>)
  {
    && (forall i :: 0 <= i < |cs| ==> CriterionValid(cs[i]))
    && (forall i, j :: 0 <= i < j < |cs| ==> cs[i].id != cs[j].id)
  }

  /** Two references to one decision id are the same reference. */
  predicate SameDecision(a: Option<Decision>, b: Option<Decision>)
  {
    a.Some? && b.Some? && a.value.id == b.value.id ==> a == b
  }

  predicate ResolutionsValid(rs: seq<Resolution>, latest: Option<Decision>)
  {
    && (forall i :: 0 <= i < |rs| ==> ResolutionValid(rs[i]) && SameDecision(rs[i].decision, latest))
    && (forall i, j :: 0 <= i < j < |rs| ==> rs[i].findingId != rs[j].findingId)
    && (forall i, j :: 0 <= i < j < |rs| ==> SameDecision(rs[i].decision, rs[j].decision))
    && (latest.Some? ==> latest.value.id != "")
  }

  /** Nothing stands in the way of completion. */
  predicate Discharged(cs: seq<Criterion>, rs: seq<Resolution>, latest: Option<Decision>)
  {
    && |cs| > 0 && (forall i :: 0 <= i < |cs| ==> cs[i].status != Pending)
    && (forall i :: 0 <= i < |rs| ==> rs[i].status != Open)
    && latest.Some? && latest.value.action == CompleteAction
  }

  // --------------------------------------------------------------- transitions

  /** The criterion is still there, means the same, and has not become pending again. */
  predicate CriterionKept(p: Criterion, n: Criterion)
  {
    n.id == p.id && n.requirement == p.requirement && n.source == p.source
        && (p.status != Pending ==> n.status != Pending)
  }

  predicate CriterionCarried(p: Criterion, ns: seq<Criterion>)
  {
    exists k :: 0 <= k < |ns| && CriterionKept(p, ns[k])
  }

  predicate CriteriaKept(ps: seq<Criterion>, ns: seq<Criterion>)
  {
    forall i :: 0 <= i < |ps| ==> CriterionCarried(ps[i], ns)
  }

  /** The resolution is still there, and a terminal one has not changed its status. */
  predicate ResolutionKept(p: Resolution, n: Resolution)
  {
    n.findingId == p.findingId && (p.status != Open ==> n.status == p.status)
  }

  predicate ResolutionCarried(p: Resolution, ns: seq<Resolution>)
  {
    exists k :: 0 <= k < |ns| && ResolutionKept(p, ns[k])
  }

  predicate ResolutionsKept(ps: seq<Resolution>, ns: seq<Resolution>)
  {
    forall i :: 0 <= i < |ps| ==> ResolutionCarried(ps[i], ns)
  }

  /** Beside that, no decision id is reused for another reference. */
  predicate ResolutionStep(p: Resolution, ns: seq<Resolution>)
  {
    exists k :: 0 <= k < |ns| && ResolutionKept(p, ns[k]) && SameDecision(p.decision, ns[k].decision)
  }

  predicate ResolutionsStep(ps: seq<Resolution>, ns: seq<Resolution>)
  {
    forall i :: 0 <= i < |ps| ==> ResolutionStep(ps[i], ns)
  }

  lemma StepKeeps(ps: seq<Resolution>, ns: seq<Resolution>)
    requires ResolutionsStep(ps, ns)
    ensures ResolutionsKept(ps, ns)
  {
    forall i | 0 <= i < |ps|
      ensures ResolutionCarried(ps[i], ns)
    {
      assert ResolutionStep(ps[i], ns);
    }
  }

  predicate LatestStep(p: Option<Decision>, n: Option<Decision>)
  {
    p.Some? ==> n.Some? && SameDecision(p, n)
  }

  ghost predicate CriteriaById(m: map<string, Criterion>, cs: seq<Criterion>)
  {
    && (forall k :: 0 <= k < |cs| ==> cs[k].id in m && m[cs[k].id] == cs[k])
    && (forall id :: id in m ==> m[id] in cs && m[id].id == id)
  }

  lemma KeptByMap(p: Criterion, ns: seq<Criterion>, m: map<string, Criterion>)
    requires CriteriaById(m, ns)
    ensures CriterionCarried(p, ns) <==> p.id in m && CriterionKept(p, m[p.id])
  {
    if p.id in m {
      var k :| 0 <= k < |ns| && ns[k] == m[p.id];
    }
  }

  /** validateAcceptanceTransitions accepts exactly the legal changes of the criteria. */
  method CheckCriteria(ps: seq<Criterion>, ns: seq<Criterion>) returns (ok: bool)
    requires CriteriaValid(ns)
    ensures ok <==> CriteriaKept(ps, ns)
    ensures ok <==> forall c :: c in ps ==> StillOwed(c, ns)
  {
    CriteriaSurvive(ps, ns);
    var byId: map<string, Criterion> := map[];
    for i := 0 to |ns|
      invariant CriteriaById(byId, ns[..i])
    {
      byId := byId[ns[i].id := ns[i]];
      assert ns[..i + 1] == ns[..i] + [ns[i]];
    }
    assert ns[..|ns|] == ns;
    for i := 0 to |ps|
      invariant forall j :: 0 <= j < i ==> CriterionCarried(ps[j], ns)
    {
      KeptByMap(ps[i], ns, byId);
      if ps[i].id !in byId || !CriterionKept(ps[i], byId[ps[i].id]) {
        return false;
      }
    }
    return true;
  }

  lemma CriteriaKeptTransitive(a: seq<Criterion>, b: seq<Criterion>, c: seq<Criterion>)
    requires CriteriaKept(a, b) && CriteriaKept(b, c)
    ensures CriteriaKept(a, c)
  {
    forall i | 0 <= i < |a|
      ensures CriterionCarried(a[i], c)
    {
      assert CriterionCarried(a[i], b);
      var j :| 0 <= j < |b| && CriterionKept(a[i], b[j]);
      assert CriterionCarried(b[j], c);
      var k :| 0 <= k < |c| && CriterionKept(b[j], c[k]);
      assert CriterionKept(a[i], c[k]);
    }
  }

  lemma ResolutionsKeptTransitive(a: seq<Resolution>, b: seq<Resolution>, c: seq<Resolution>)
    requires ResolutionsKept(a, b) && ResolutionsKept(b, c)
    ensures ResolutionsKept(a, c)
  {
    forall i | 0 <= i < |a|
      ensures ResolutionCarried(a[i], c)
    {
      assert ResolutionCarried(a[i], b);
      var j :| 0 <= j < |b| && ResolutionKept(a[i], b[j]);
      assert ResolutionCarried(b[j], c);
      var k :| 0 <= k < |c| && ResolutionKept(b[j], c[k]);
      assert ResolutionKept(a[i], c[k]);
    }
  }

  /** A criterion of the same id, requirement and source is among `cs`, pending only if `c` was. */
  predicate StillOwed(c: Criterion, cs: seq<Criterion>)
  {
    exists m :: 0 <= m < |cs| && cs[m].id == c.id && cs[m].requirement == c.requirement && cs[m].source == c.source
      && (cs[m].status == Pending ==> c.status == Pending)
  }

  /** A criterion of the same id, requirement and source is among `cs`, and it is not pending. */
  predicate Settled(c: Criterion, cs: seq<Criterion>)
  {
    exists m :: 0 <= m < |cs| && cs[m].id == c.id && cs[m].requirement == c.requirement && cs[m].source == c.source
      && cs[m].status != Pending
  }

  /** A resolution of the same finding is among `rs`, with the same status unless `r` was open. */
  predicate StillResolved(r: Resolution, rs: seq<Resolution>)
  {
    exists m :: 0 <= m < |rs| && rs[m].findingId == r.findingId && (r.status == Open || rs[m].status == r.status)
  }

  /** A resolution of the same finding is among `rs`, no longer open, with the same status unless `r` was open. */
  predicate Closed(r: Resolution, rs: seq<Resolution>)
  {
    exists m :: 0 <= m < |rs| && rs[m].findingId == r.findingId && rs[m].status != Open
      && (r.status == Open || rs[m].status == r.status)
  }

  lemma CriteriaSurvive(ps: seq<Criterion>, ns: seq<Criterion>)
    ensures CriteriaKept(ps, ns) <==> forall c :: c in ps ==> StillOwed(c, ns)
  {
    forall c | c in ps
      ensures StillOwed(c, ns) <==> CriterionCarried(c, ns)
    {
    }
    if CriteriaKept(ps, ns) {
      forall c | c in ps
        ensures CriterionCarried(c, ns)
      {
        var k :| 0 <= k < |ps| && ps[k] == c;
      }
    }
  }

  lemma ResolutionsSurvive(ps: seq<Resolution>, ns: seq<Resolution>)
    requires ResolutionsKept(ps, ns)
    ensures forall r :: r in ps ==> StillResolved(r, ns)
  {
    forall r | r in ps
      ensures StillResolved(r, ns)
    {
      var k :| 0 <= k < |ps| && ps[k] == r;
      assert ResolutionCarried(ps[k], ns);
    }
  }

  /** Under one id, the action and the payload are the same too. */
  predicate OneReference(d: Option<Decision>, e: Option<Decision>)
  {
    d.None? || e.None? || d.value.id != e.value.id
    || (d.value.action == e.value.action && d.value.payload == e.value.payload)
  }

  predicate OneReferenceEach(ps: seq<Resolution>, ns: seq<Resolution>)
  {
    forall k, m :: 0 <= k < |ps| && 0 <= m < |ns| && ps[k].findingId == ns[m].findingId ==>
      OneReference(ps[k].decision, ns[m].decision)
  }

  lemma DecisionsCarried(ps: seq<Resolution>, ns: seq<Resolution>)
    requires ResolutionsStep(ps, ns) && forall i, j :: 0 <= i < j < |ns| ==> ns[i].findingId != ns[j].findingId
    ensures OneReferenceEach(ps, ns)
  {
    forall k, m | 0 <= k < |ps| && 0 <= m < |ns| && ps[k].findingId == ns[m].findingId
      ensures OneReference(ps[k].decision, ns[m].decision)
    {
      assert ResolutionStep(ps[k], ns);
      var x :| 0 <= x < |ns| && ResolutionKept(ps[k], ns[x]) && SameDecision(ps[k].decision, ns[x].decision);
      assert x == m;
    }
  }

  // --------------------------------------------------------------- discharging

  function FinishCriterion(c: Criterion): Criterion
  {
    if c.status == Pending then c.(status := Satisfied, evidence := ["evidence"]) else c
  }

  function FinishCriteria(cs: seq<Criterion>): seq<Criterion>
  {
    if |cs| == 0 then [Criterion("done", "nothing to do", Satisfied, ["evidence"], "", None)]
    else seq(|cs|, i requires 0 <= i < |cs| => FinishCriterion(cs[i]))
  }

  function FinishResolution(r: Resolution): Resolution
  {
    if r.status == Open then r.(status := WaivedFinding, rationale := "waived") else r
  }

  function FinishResolutions(rs: seq<Resolution>): seq<Resolution>
  {
    seq(|rs|, i requires 0 <= i < |rs| => FinishResolution(rs[i]))
  }

  function IdLength(d: Option<Decision>): nat
  {
    if d.None? then 0 else |d.value.id|
  }

  function Longest(rs: seq<Resolution>): (n: nat)
    ensures forall i :: 0 <= i < |rs| ==> IdLength(rs[i].decision) <= n
  {
    if |rs| == 0 then 0
    else
      var n, d := Longest(rs[..|rs| - 1]), IdLength(rs[|rs| - 1].decision);
      if n < d then d else n
  }

  /** The latest decision if it is to complete, otherwise a new one under an id longer than any in use. */
  function FinishDecision(rs: seq<Resolution>, latest: Option<Decision>): Option<Decision>
  {
    if latest.Some? && latest.value.action == CompleteAction then latest
    else Some(Decision(seq(Longest(rs) + IdLength(latest) + 1, i => 'x'), CompleteAction, ""))
  }

  lemma FinishCriteriaLegal(cs: seq<Criterion>)
    requires CriteriaValid(cs)
    ensures var ns := FinishCriteria(cs);
            && CriteriaValid(ns) && CriteriaKept(cs, ns) && |ns| > 0
            && forall i :: 0 <= i < |ns| ==> ns[i].status != Pending
  {
    var ns := FinishCriteria(cs);
    if |cs| == 0 {
      assert |ns[0].id| == 4 && |ns[0].requirement| > 0;
    } else {
      forall i | 0 <= i < |cs|
        ensures CriterionCarried(cs[i], ns)
      {
        assert CriterionKept(cs[i], ns[i]);
      }
    }
  }

  /** The new decision id is in nobody's use. */
  lemma FinishDecisionFresh(rs: seq<Resolution>, latest: Option<Decision>, d: Option<Decision>)
    requires d == latest || exists i :: 0 <= i < |rs| && rs[i].decision == d
    requires SameDecision(d, latest)
    ensures SameDecision(d, FinishDecision(rs, latest))
  {
    if d.Some? && FinishDecision(rs, latest) != latest {
      assert IdLength(d) < |FinishDecision(rs, latest).value.id|;
    }
  }

  lemma FinishResolutionLegal(r: Resolution)
    requires ResolutionValid(r)
    ensures var n := FinishResolution(r);
            ResolutionValid(n) && n.status != Open && n.decision == r.decision && ResolutionKept(r, n)
  {
  }

  lemma FinishAt(rs: seq<Resolution>, latest: Option<Decision>, i: nat)
    requires i < |rs| && ResolutionValid(rs[i]) && SameDecision(rs[i].decision, latest)
    ensures var n := FinishResolutions(rs)[i];
            && ResolutionValid(n) && n.status != Open && n.findingId == rs[i].findingId && n.decision == rs[i].decision
            && SameDecision(n.decision, FinishDecision(rs, latest)) && ResolutionStep(rs[i], FinishResolutions(rs))
  {
    var ns := FinishResolutions(rs);
    FinishResolutionLegal(rs[i]);
    FinishDecisionFresh(rs, latest, rs[i].decision);
    assert ResolutionKept(rs[i], ns[i]) && SameDecision(rs[i].decision, ns[i].decision);
  }

  lemma FinishDecisionLegal(rs: seq<Resolution>, latest: Option<Decision>)
    requires latest.Some? ==> latest.value.id != ""
    ensures var d := FinishDecision(rs, latest);
            LatestStep(latest, d) && d.Some? && d.value.action == CompleteAction && d.value.id != ""
  {
    FinishDecisionFresh(rs, latest, latest);
  }

  lemma FinishResolutionsLegal(rs: seq<Resolution>, latest: Option<Decision>)
    requires ResolutionsValid(rs, latest)
    ensures ResolutionsValid(FinishResolutions(rs), FinishDecision(rs, latest))
            && ResolutionsStep(rs, FinishResolutions(rs))
    ensures forall i :: 0 <= i < |rs| ==> FinishResolutions(rs)[i].status != Open
  {
    var ns, d := FinishResolutions(rs), FinishDecision(rs, latest);
    FinishDecisionLegal(rs, latest);
    forall i | 0 <= i < |rs|
      ensures ResolutionValid(ns[i]) && ns[i].status != Open && SameDecision(ns[i].decision, d)
      ensures ns[i].findingId == rs[i].findingId && ns[i].decision == rs[i].decision && ResolutionStep(rs[i], ns)
    {
      FinishAt(rs, latest, i);
    }
  }
}
