/** Task-dossier inputs and optional-role assessments: what their validators accept, and that their canonical order does
    not depend on the order given (internal/autonomous/dossier.go:397-535;
    internal/autonomous/optional_role.go:181-261). */
module TaskDossier {
  import opened Base
  import opened Ordering
  import opened FindingIds

  // ----------------------------------------------------------------- recent runs

  datatype Action =
    | Plan | Implement | Audit | Correct | Document | Simplify
    | Complete | Block | NeedsInput
    | UnknownAction

  datatype Profile = Planner | Implementer | Auditor | Corrector | Documentor | Simplifier | UnknownProfile

  /** The worker profile an action runs under; the terminal actions have none. */
  function ProfileFor(a: Action): Option<Profile>
  {
    match a
    case Plan => Some(Planner)
    case Implement => Some(Implementer)
    case Audit => Some(Auditor)
    case Correct => Some(Corrector)
    case Document => Some(Documentor)
    case Simplify => Some(Simplifier)
    case _ => None
  }

  datatype RecentRun = RecentRun(
    runId: string,
    taskId: string,
    action: Option<Action>,
    profile: Option<Profile>,
    outcome: string,
    startedAt: int,
    completedAt: Option<int>,
    payload: string)

  function RunIdOf(r: RecentRun): string
  {
    r.runId
  }

  predicate RunValid(r: RecentRun, taskId: string)
  {
    && r.runId != "" && Trimmed(r.runId) && r.taskId == taskId && r.taskId != "" && r.outcome != "" && r.startedAt > 0
    && r.action != Some(UnknownAction) && r.profile != Some(UnknownProfile)
    && (r.action.Some? && r.profile.Some? ==> ProfileFor(r.action.value) == r.profile)
    && (r.completedAt.Some? ==> r.completedAt.value > 0 && r.startedAt <= r.completedAt.value)
  }

  /** Runs of this task, named once, started, completed only later, and under the profile their action runs under. */
  predicate RunsRead(runs: seq<RecentRun>, taskId: string)
  {
    && (forall i, j :: 0 <= i < j < |runs| ==> runs[i].runId != runs[j].runId)
    && forall i :: 0 <= i < |runs| ==>
         && |runs[i].runId| > 0 && !Space(runs[i].runId[0]) && !Space(runs[i].runId[|runs[i].runId| - 1])
         && runs[i].taskId == taskId && |taskId| > 0 && |runs[i].outcome| > 0 && 1 <= runs[i].startedAt
         && (runs[i].completedAt.None? || 1 <= runs[i].startedAt <= runs[i].completedAt.value)
         && (runs[i].action.None? || !runs[i].action.value.UnknownAction?)
         && (runs[i].profile.None? || !runs[i].profile.value.UnknownProfile?)
         && (runs[i].action.None? || runs[i].profile.None? || RunsUnder(runs[i].action.value, runs[i].profile.value))
  }

  predicate RunsUnder(a: Action, p: Profile)
  {
    (a, p) in {(Plan, Planner), (Implement, Implementer), (Audit, Auditor), (Correct, Corrector),
               (Document, Documentor), (Simplify, Simplifier)}
  }

  lemma RunsExactly(runs: seq<RecentRun>, taskId: string)
    ensures RunsValid(runs, taskId) <==> RunsRead(runs, taskId)
  {
    assert KeyUnique(RunIdOf, runs) <==> forall i, j :: 0 <= i < j < |runs| ==> runs[i].runId != runs[j].runId by {
      assert forall r :: RunIdOf(r) == r.runId;
    }
  }

  predicate RunsValid(runs: seq<RecentRun>, taskId: string)
  {
    (forall i :: 0 <= i < |runs| ==> RunValid(runs[i], taskId)) && KeyUnique(RunIdOf, runs)
  }

  /** Newest first, ties by run id. */
  predicate RunLess(a: RecentRun, b: RecentRun)
  {
    if a.startedAt == b.startedAt then Less(a.runId, b.runId) else a.startedAt > b.startedAt
  }

  lemma RunWeak()
    ensures WeakOrder(RunLess)
  {
    forall x, y | RunLess(x, y)
      ensures !RunLess(y, x)
    {
      if x.startedAt == y.startedAt {
        LessAsymmetric(x.runId, y.runId);
      }
    }
    forall x, y, z | !RunLess(x, y) && !RunLess(y, z)
      ensures !RunLess(x, z)
    {
      if x.startedAt == y.startedAt == z.startedAt {
        LessNotThrough(x.runId, y.runId, z.runId);
      }
    }
  }

  lemma RunsTotal(runs: seq<RecentRun>)
    requires KeyUnique(RunIdOf, runs)
    ensures TotalOn(RunLess, runs)
  {
    forall i, j | 0 <= i < |runs| && 0 <= j < |runs|
      ensures RunLess(runs[i], runs[j]) || RunLess(runs[j], runs[i]) || runs[i] == runs[j]
    {
      LessTotal(runs[i].runId, runs[j].runId);
    }
  }

  /** validateAndSortRecentRuns. */
  method ValidateAndSortRuns(runs: seq<RecentRun>, taskId: string) returns (r: Option<seq<RecentRun>>)
    ensures r.Some? <==> RunsValid(runs, taskId)
    ensures r.Some? <==> RunsRead(runs, taskId)
    ensures r.Some? ==> Sorts(RunLess, runs, r.value)
  {
    RunsExactly(runs, taskId);
    for i := 0 to |runs|
      invariant forall k :: 0 <= k < i ==> RunValid(runs[k], taskId)
    {
      if !RunValid(runs[i], taskId) {
        return None;
      }
    }
    var unique := CheckUnique(RunIdOf, runs);
    if !unique {
      return None;
    }
    RunWeak();
    var sorted := SortSlice(RunLess, runs);
    return Some(sorted);
  }

  /** However the runs are given, the canonical list, and the newest ones kept under any limit, are the same. */
  lemma RunsOrderFree(a: seq<RecentRun>, b: seq<RecentRun>, taskId: string, n: seq<RecentRun>, m: seq<RecentRun>,
      limit: nat)
    requires RunsValid(a, taskId) && multiset(a) == multiset(b) && Sorts(RunLess, a, n) && Sorts(RunLess, b, m)
             && limit <= |n|
    ensures n == m && n[..limit] == m[..limit]
    ensures forall i, j :: 0 <= i < limit <= j < |n| ==> n[j].startedAt <= n[i].startedAt
  {
    RunsTotal(a);
    OrderFree(RunLess, a, b, n, m);
  }

  // -------------------------------------------------------- guidance and receipts

  datatype SourceKind = Guidance | Receipt

  /** A guidance or receipt source; `utf8` says whether its content is text. */
  datatype Source = Source(id: string, path: string, caption: string, content: Bytes, utf8: bool)

  function SourceId(s: Source): string
  {
    s.id
  }

  function SourcePath(s: Source): string
  {
    s.path
  }

  /** Guidance must be text, a receipt must not be empty. */
  predicate SourceValid(kind: SourceKind, s: Source)
  {
    && s.id != "" && Trimmed(s.id) && s.path != ""
    && if kind == Guidance then Trimmed(s.caption) && s.utf8 else |s.content| > 0
  }

  predicate SourcesValid(kind: SourceKind, ss: seq<Source>)
  {
    && (forall i :: 0 <= i < |ss| ==> SourceValid(kind, ss[i]))
    && KeyUnique(SourceId, ss) && KeyUnique(SourcePath, ss)
  }

  /** Sources with distinct names and distinct paths, text for guidance and content for receipts. */
  predicate SourcesRead(kind: SourceKind, ss: seq<Source>)
  {
    && (forall i, j :: 0 <= i < j < |ss| ==> ss[i].id != ss[j].id)
    && (forall i, j :: 0 <= i < j < |ss| ==> ss[i].path != ss[j].path)
    && forall i :: 0 <= i < |ss| ==>
         && |ss[i].id| > 0 && !Space(ss[i].id[0]) && !Space(ss[i].id[|ss[i].id| - 1]) && |ss[i].path| > 0
         && (kind == Guidance ==> ss[i].utf8 && Trimmed(ss[i].caption)) && (kind == Receipt ==> ss[i].content != [])
  }

  lemma SourcesExactly(kind: SourceKind, ss: seq<Source>)
    ensures SourcesValid(kind, ss) <==> SourcesRead(kind, ss)
  {
    assert KeyUnique(SourceId, ss) <==> forall i, j :: 0 <= i < j < |ss| ==> ss[i].id != ss[j].id by {
      assert forall s :: SourceId(s) == s.id;
    }
    assert KeyUnique(SourcePath, ss) <==> forall i, j :: 0 <= i < j < |ss| ==> ss[i].path != ss[j].path by {
      assert forall s :: SourcePath(s) == s.path;
    }
  }

  predicate SourceLess(a: Source, b: Source)
  {
    if a.path == b.path then Less(a.id, b.id) else Less(a.path, b.path)
  }

  lemma SourceWeak()
    ensures WeakOrder(SourceLess)
  {
    forall x, y | SourceLess(x, y)
      ensures !SourceLess(y, x)
    {
      if x.path == y.path {
        LessAsymmetric(x.id, y.id);
      } else {
        LessAsymmetric(x.path, y.path);
      }
    }
    forall x, y, z | !SourceLess(x, y) && !SourceLess(y, z)
      ensures !SourceLess(x, z)
    {
      SourceNotThrough(x, y, z);
    }
  }

  lemma SourceNotThrough(x: Source, y: Source, z: Source)
    requires !SourceLess(x, y) && !SourceLess(y, z)
    ensures !SourceLess(x, z)
  {
    LessIrreflexive(y.path);
    if x.path != z.path {
      LessNotThrough(x.path, y.path, z.path);
    } else if x.path == y.path {
      LessNotThrough(x.id, y.id, z.id);
    } else {
      LessTotal(x.path, y.path);
      LessAsymmetric(y.path, x.path);
    }
  }

  /** validateAndSortGuidance and validateAndSortReceipts. */
  method ValidateAndSortSources(kind: SourceKind, ss: seq<Source>) returns (r: Option<seq<Source>>)
    ensures r.Some? <==> SourcesValid(kind, ss)
    ensures r.Some? <==> SourcesRead(kind, ss)
    ensures r.Some? ==> Sorts(SourceLess, ss, r.value)
  {
    SourcesExactly(kind, ss);
    for i := 0 to |ss|
      invariant forall k :: 0 <= k < i ==> SourceValid(kind, ss[k])
    {
      if !SourceValid(kind, ss[i]) {
        return None;
      }
    }
    var ids := CheckUnique(SourceId, ss);
    var paths := CheckUnique(SourcePath, ss);
    if !ids || !paths {
      return None;
    }
    SourceWeak();
    var sorted := SortSlice(SourceLess, ss);
    return Some(sorted);
  }

  lemma SourcesOrderFree(kind: SourceKind, a: seq<Source>, b: seq<Source>, n: seq<Source>, m: seq<Source>)
    requires SourcesValid(kind, a) && multiset(a) == multiset(b) && Sorts(SourceLess, a, n) && Sorts(SourceLess, b, m)
    ensures n == m && forall i, j :: 0 <= i < j < |n| ==> Less(n[i].path, n[j].path)
  {
    SourcesTotal(a);
    OrderFree(SourceLess, a, b, n, m);
    KeyUniquePermuted(SourcePath, a, n);
    forall i, j | 0 <= i < j < |n|
      ensures Less(n[i].path, n[j].path)
    {
      assert SourcePath(n[i]) != SourcePath(n[j]);
      LessTotal(n[i].path, n[j].path);
    }
  }

  lemma SourcesTotal(ss: seq<Source>)
    requires KeyUnique(SourcePath, ss)
    ensures TotalOn(SourceLess, ss)
  {
    forall i, j | 0 <= i < |ss| && 0 <= j < |ss|
      ensures SourceLess(ss[i], ss[j]) || SourceLess(ss[j], ss[i]) || ss[i] == ss[j]
    {
      LessTotal(ss[i].path, ss[j].path);
      assert SourcePath(ss[i]) == ss[i].path && SourcePath(ss[j]) == ss[j].path;
    }
  }

  // ----------------------------------------------------- optional-role assessments

  datatype EvidenceKind =
    | TaskDocumentation | AcceptanceDocumentation | PlanDocumentation | AuditDocumentation | UserFacingChange
    | ComplexityTarget | DuplicationTarget | MaintainabilityTarget
    | NoRelevantWork
    | UnknownKind

  /** Evidence of work the role is there for. */
  predicate Relevant(role: Profile, kind: EvidenceKind)
  {
    if role == Documentor then
      kind == TaskDocumentation || kind == AcceptanceDocumentation || kind == PlanDocumentation
          || kind == AuditDocumentation
      || kind == UserFacingChange
    else kind == ComplexityTarget || kind == DuplicationTarget || kind == MaintainabilityTarget
  }

  datatype Evidence = Evidence(
    id: string,
    role: Profile,
    kind: EvidenceKind,
    reference: string,
    sourceRevision: string,
    targetPath: string)

  datatype Disposition = RunRole | NotApplicable | UnknownDisposition

  datatype Assessment = Assessment(
    header: string,
    role: Profile,
    sourceRevision: string,
    disposition: Disposition,
    rationale: string,
    inputs: set<string>,
    evidence: seq<Evidence>,
    selected: seq<string>)

  /** Evidence about the assessed source, for the assessed role, naming a target unless there is none to name. */
  ghost predicate EvidenceValid(a: Assessment, e: Evidence)
  {
    && InLanguage(e.id) && e.role == a.role && e.kind != UnknownKind && e.sourceRevision == a.sourceRevision
    && (if e.kind == NoRelevantWork then e.targetPath == "" else e.targetPath != "" && Trimmed(e.targetPath))
  }

  function EvidenceId(e: Evidence): string
  {
    e.id
  }

  function Itself(s: string): string
  {
    s
  }

  /** Some selected evidence is of a kind the role is there for. */
  predicate SelectsTarget(a: Assessment)
  {
    exists i :: 0 <= i < |a.evidence| && a.evidence[i].id in a.selected && Relevant(a.role, a.evidence[i].kind)
  }

  predicate SelectsNoWork(a: Assessment)
  {
    exists i :: 0 <= i < |a.evidence| && a.evidence[i].id in a.selected && a.evidence[i].kind == NoRelevantWork
  }

  /** The id names a piece of evidence the supervisor was given. */
  predicate Known(a: Assessment, id: string)
  {
    exists k :: 0 <= k < |a.evidence| && a.evidence[k].id == id && a.evidence[k].reference in a.inputs
  }

  predicate SelectionValid(a: Assessment)
  {
    KeyUnique(Itself, a.selected) && forall i :: 0 <= i < |a.selected| ==> Known(a, a.selected[i])
  }

  /** Running the role needs a selected target; declaring it not applicable needs no target anywhere and selected
      evidence that there is nothing to do. */
  ghost predicate AssessmentValid(a: Assessment)
  {
    && (a.role == Documentor || a.role == Simplifier) && a.rationale != ""
    && |a.evidence| > 0 && |a.selected| > 0
    && AllValid(a, a.evidence) && KeyUnique(EvidenceId, a.evidence) && SelectionValid(a)
    && match a.disposition
       case RunRole => SelectsTarget(a)
       case NotApplicable => SelectsNoWork(a) && !AnyRelevant(a.role, a.evidence)
       case UnknownDisposition => false
  }

  /** What each optional role is there for. */
  predicate IsTarget(role: Profile, kind: EvidenceKind)
  {
    && (role == Documentor ==> kind in {TaskDocumentation, AcceptanceDocumentation, PlanDocumentation,
                                        AuditDocumentation, UserFacingChange})
    && (role != Documentor ==> kind in {ComplexityTarget, DuplicationTarget, MaintainabilityTarget})
  }

  ghost predicate PieceReads(a: Assessment, e: Evidence)
  {
    && Hyphenated(e.id) && e.role == a.role && e.sourceRevision == a.sourceRevision && e.kind != UnknownKind
    && (e.targetPath == "" <==> e.kind == NoRelevantWork)
    && (e.targetPath != "" ==> !Space(e.targetPath[0]) && !Space(e.targetPath[|e.targetPath| - 1]))
  }

  /** Evidence `i` was selected. */
  predicate Selects(a: Assessment, i: nat)
    requires i < |a.evidence|
  {
    exists k :: 0 <= k < |a.selected| && a.selected[k] == a.evidence[i].id
  }

  ghost predicate EvidenceReads(a: Assessment)
  {
    && (forall i :: 0 <= i < |a.evidence| ==> PieceReads(a, a.evidence[i]))
    && (forall i, j :: 0 <= i < j < |a.evidence| ==> a.evidence[i].id != a.evidence[j].id)
  }

  predicate SelectionReads(a: Assessment)
  {
    && (forall i, j :: 0 <= i < j < |a.selected| ==> a.selected[i] != a.selected[j])
    && (forall k :: 0 <= k < |a.selected| ==> Known(a, a.selected[k]))
  }

  predicate DispositionReads(a: Assessment)
  {
    && a.disposition != UnknownDisposition
    && (a.disposition == RunRole ==>
          exists i :: 0 <= i < |a.evidence| && Selects(a, i) && IsTarget(a.role, a.evidence[i].kind))
    && (a.disposition == NotApplicable ==>
          && (forall i :: 0 <= i < |a.evidence| ==> !IsTarget(a.role, a.evidence[i].kind))
          && (exists i :: 0 <= i < |a.evidence| && Selects(a, i) && a.evidence[i].kind == NoRelevantWork))
  }

  /** An assessment in its fields: well-formed evidence under distinct ids; distinct selections, each of evidence the
      supervisor was given; to run the role, a selected target of it; to skip it, no target at all and selected evidence
      that there is nothing to do. */
  ghost predicate AssessmentReads(a: Assessment)
  {
    && (a.role == Documentor || a.role == Simplifier) && |a.rationale| > 0 && a.evidence != [] && a.selected != []
    && EvidenceReads(a) && SelectionReads(a) && DispositionReads(a)
  }

  lemma PieceExactly(a: Assessment, e: Evidence)
    ensures EvidenceValid(a, e) <==> PieceReads(a, e)
  {
    ScannedIffMatches(e.id);
    HyphenatedExactly(e.id);
  }

  lemma DispositionExactly(a: Assessment)
    ensures DispositionReads(a) <==>
              match a.disposition
              case RunRole => SelectsTarget(a)
              case NotApplicable => SelectsNoWork(a) && !AnyRelevant(a.role, a.evidence)
              case UnknownDisposition => false
  {
    assert forall i :: 0 <= i < |a.evidence| ==> (Selects(a, i) <==> a.evidence[i].id in a.selected);
    assert forall kind :: IsTarget(a.role, kind) <==> Relevant(a.role, kind);
  }

  lemma EvidenceExactly(a: Assessment)
    ensures EvidenceReads(a) <==> AllValid(a, a.evidence) && KeyUnique(EvidenceId, a.evidence)
  {
    forall i | 0 <= i < |a.evidence|
      ensures EvidenceValid(a, a.evidence[i]) <==> PieceReads(a, a.evidence[i])
    {
      PieceExactly(a, a.evidence[i]);
    }
    assert forall e :: EvidenceId(e) == e.id;
  }

  lemma SelectionExactly(a: Assessment)
    ensures SelectionReads(a) <==> SelectionValid(a)
  {
    assert forall id :: Itself(id) == id;
  }

  lemma AssessmentExactly(a: Assessment)
    ensures AssessmentValid(a) <==> AssessmentReads(a)
  {
    DispositionExactly(a);
    EvidenceExactly(a);
    SelectionExactly(a);
  }

  ghost predicate EvidenceIndexed(m: map<string, Evidence>, es: seq<Evidence>)
  {
    && (forall i :: 0 <= i < |es| ==> es[i].id in m && m[es[i].id] == es[i])
    && (forall id :: id in m ==> m[id] in es && m[id].id == id)
  }

  ghost predicate AllValid(a: Assessment, es: seq<Evidence>)
  {
    forall i :: 0 <= i < |es| ==> EvidenceValid(a, es[i])
  }

  predicate AnyRelevant(role: Profile, es: seq<Evidence>)
  {
    exists i :: 0 <= i < |es| && Relevant(role, es[i].kind)
  }

  /** The loop's state after the evidence `done`. */
  ghost predicate EvidenceLoop(a: Assessment, done: seq<Evidence>, byId: map<string, Evidence>, relevant: bool)
  {
    && AllValid(a, done) && KeyUnique(EvidenceId, done) && EvidenceIndexed(byId, done)
    && (relevant <==> AnyRelevant(a.role, done))
  }

  lemma EvidenceStep(a: Assessment, done: seq<Evidence>, byId: map<string, Evidence>, relevant: bool, e: Evidence)
    requires EvidenceLoop(a, done, byId, relevant) && EvidenceValid(a, e) && e.id !in byId
    ensures EvidenceLoop(a, done + [e], byId[e.id := e], relevant || Relevant(a.role, e.kind))
  {
    var all := done + [e];
    assert all[|done|] == e;
    assert forall i :: 0 <= i < |done| ==> all[i] == done[i];
  }

  lemma EvidenceAccepted(a: Assessment, es: seq<Evidence>, done: seq<Evidence>, byId: map<string, Evidence>)
    requires |done| < |es| && done == es[..|done|] && EvidenceIndexed(byId, done)
    requires AllValid(a, es) && KeyUnique(EvidenceId, es)
    ensures EvidenceValid(a, es[|done|]) && es[|done|].id !in byId
  {
    assert forall k :: 0 <= k < |done| ==> EvidenceId(es[k]) != EvidenceId(es[|done|]);
  }

  /** One pass over the evidence: each piece valid, no id twice, and whether any is relevant. */
  method IndexEvidence(a: Assessment) returns (ok: bool, byId: map<string, Evidence>, relevant: bool)
    ensures ok <==> KeyUnique(EvidenceId, a.evidence) && AllValid(a, a.evidence)
    ensures ok ==> EvidenceIndexed(byId, a.evidence) && (relevant <==> AnyRelevant(a.role, a.evidence))
  {
    byId, relevant := map[], false;
    ghost var done: seq<Evidence> := [];
    for i := 0 to |a.evidence|
      invariant done == a.evidence[..i] && EvidenceLoop(a, done, byId, relevant)
    {
      var e := a.evidence[i];
      var valid := CheckEvidence(a, e);
      if !valid || e.id in byId {
        if AllValid(a, a.evidence) && KeyUnique(EvidenceId, a.evidence) {
          EvidenceAccepted(a, a.evidence, done, byId);
        }
        return false, byId, relevant;
      }
      EvidenceStep(a, done, byId, relevant, e);
      byId := byId[e.id := e];
      relevant := relevant || Relevant(a.role, e.kind);
      done := done + [e];
    }
    assert done == a.evidence;
    return true, byId, relevant;
  }

  method CheckEvidence(a: Assessment, e: Evidence) returns (ok: bool)
    ensures ok <==> EvidenceValid(a, e)
  {
    ok := ValidFindingId(e.id);
    ok := ok && e.role == a.role && e.kind != UnknownKind && e.sourceRevision == a.sourceRevision
      && (if e.kind == NoRelevantWork then e.targetPath == "" else e.targetPath != "" && Trimmed(e.targetPath));
  }

  ghost predicate SelectedSoFar(a: Assessment, done: seq<string>, target: bool, noWork: bool)
  {
    && (target <==> exists i ::
        0 <= i < |a.evidence| && a.evidence[i].id in done && Relevant(a.role, a.evidence[i].kind))
    && (noWork <==> exists i ::
        0 <= i < |a.evidence| && a.evidence[i].id in done && a.evidence[i].kind == NoRelevantWork)
  }

  lemma SelectOne(a: Assessment, byId: map<string, Evidence>, done: seq<string>, id: string, target: bool, noWork: bool)
    requires EvidenceIndexed(byId, a.evidence) && id in byId && SelectedSoFar(a, done, target, noWork)
    ensures SelectedSoFar(a, done + [id], target || Relevant(a.role, byId[id].kind),
            noWork || byId[id].kind == NoRelevantWork)
  {
    var k :| 0 <= k < |a.evidence| && a.evidence[k] == byId[id];
    assert a.evidence[k].id in done + [id];
  }

  lemma KnownByMap(a: Assessment, byId: map<string, Evidence>, id: string)
    requires EvidenceIndexed(byId, a.evidence)
    ensures Known(a, id) <==> id in byId && byId[id].reference in a.inputs
  {
    if id in byId {
      var k :| 0 <= k < |a.evidence| && a.evidence[k] == byId[id];
    }
  }

  method CheckSelection(a: Assessment, byId: map<string, Evidence>) returns (ok: bool, target: bool, noWork: bool)
    requires EvidenceIndexed(byId, a.evidence)
    ensures ok <==> SelectionValid(a)
    ensures ok ==> (target <==> SelectsTarget(a)) && (noWork <==> SelectsNoWork(a))
  {
    target, noWork := false, false;
    ghost var done: seq<string> := [];
    var unique := CheckUnique(Itself, a.selected);
    if !unique {
      return false, target, noWork;
    }
    for i := 0 to |a.selected|
      invariant done == a.selected[..i] && SelectedSoFar(a, done, target, noWork)
      invariant forall n :: 0 <= n < i ==> Known(a, a.selected[n])
    {
      var id := a.selected[i];
      KnownByMap(a, byId, id);
      if id !in byId || byId[id].reference !in a.inputs {
        return false, target, noWork;
      }
      SelectOne(a, byId, done, id, target, noWork);
      target := target || Relevant(a.role, byId[id].kind);
      noWork := noWork || byId[id].kind == NoRelevantWork;
      done := done + [id];
    }
    assert done == a.selected;
    return true, target, noWork;
  }

  /** OptionalRoleAssessment.Validate, from the evidence on. */
  method ValidateAssessment(a: Assessment) returns (ok: bool)
    ensures ok <==> AssessmentValid(a)
    ensures ok <==> AssessmentReads(a)
  {
    AssessmentExactly(a);
    if (a.role != Documentor && a.role != Simplifier) || a.rationale == "" || |a.evidence| == 0 || |a.selected| == 0 {
      return false;
    }
    var indexed, byId, relevant := IndexEvidence(a);
    if !indexed {
      return false;
    }
    var selection, target, noWork := CheckSelection(a, byId);
    if !selection {
      return false;
    }
    match a.disposition
    case RunRole => return target;
    case NotApplicable => return !relevant && noWork;
    case UnknownDisposition => return false;
  }

  /** What the identity is computed from. */
  predicate Canonical(a: Assessment, c: Assessment)
  {
    && c == a.(evidence := c.evidence, selected := c.selected)
    && Sorts(ByKey(EvidenceId), a.evidence, c.evidence) && Sorts(Less, a.selected, c.selected)
  }

  /** The identity of a valid assessment does not depend on the order of evidence or selections. */
  lemma AssessmentOrderFree(a: Assessment, b: Assessment, c: Assessment, d: Assessment)
    requires AssessmentValid(a) && Canonical(a, c) && Canonical(b, d)
    requires b == a.(evidence := b.evidence, selected := b.selected)
    requires multiset(a.evidence) == multiset(b.evidence) && multiset(a.selected) == multiset(b.selected)
    ensures c == d
  {
    KeyTotal(EvidenceId, a.evidence);
    OrderFree(ByKey(EvidenceId), a.evidence, b.evidence, c.evidence, d.evidence);
    StringsTotal(a.selected);
    OrderFree(Less, a.selected, b.selected, c.selected, d.selected);
  }
}
