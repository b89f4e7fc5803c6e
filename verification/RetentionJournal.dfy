/** The garbage-collection journal: immutable history entries, the validators they pass, and what every
    accepted history looks like (internal/artifactretention/journal.go). */
module RetentionJournal {
  import opened Base
  import opened RetentionPlan

  datatype Stage = Admitted | ExportVerified | CompressApplied | PruneApplied | Cancelled | Completed | Cleaned

  datatype Journal = Journal(
    operationId: string,
    stage: Stage,
    plan: Plan,
    completedPaths: seq<Path>,
    exportId: string,
    cancelled: bool,
    updatedAt: Time,
    sequence: nat)

  function AppliedStage(k: Kind): Stage
  {
    if k == Compress then CompressApplied else PruneApplied
  }

  predicate ValidExportId(id: string)
  {
    |id| == 64 && forall i :: 0 <= i < |id| ==> '0' <= id[i] <= '9' || 'a' <= id[i] <= 'f'
  }

  function ActionsOf(j: Journal): seq<Action>
  {
    Mutating(j.plan.actions)
  }

  // ------------------------------------------------------------ validators

  /** The completed paths are exactly the leading mutating actions. */
  predicate ProgressValid(j: Journal, acts: seq<Action>)
  {
    |j.completedPaths| <= |acts| && j.completedPaths == Paths(acts)[..|j.completedPaths|]
  }

  predicate ExportValid(j: Journal)
  {
    j.exportId == "" || (j.plan.requiredExport && ValidExportId(j.exportId))
  }

  predicate StageValid(j: Journal, acts: seq<Action>)
    requires ProgressValid(j, acts)
  {
    var done := |j.completedPaths|;
    var exportMissing := j.plan.requiredExport && j.exportId == "";
    match j.stage
    case Admitted => !j.cancelled && done == 0 && j.exportId == ""
    case ExportVerified => !j.cancelled && j.plan.requiredExport && j.exportId != "" && done == 0
    case CompressApplied => !j.cancelled && done > 0 && acts[done - 1].kind == Compress && !exportMissing
    case PruneApplied => !j.cancelled && done > 0 && acts[done - 1].kind == Prune && !exportMissing
    case Cancelled => j.cancelled && !(done > 0 && exportMissing)
    case Completed => !j.cancelled && done == |acts| && !exportMissing
    case Cleaned => !j.cancelled && done == |acts| && !exportMissing
  }

  /** The part of validateJournalState that is about progress, for the plan's mutating actions. */
  predicate EntryValid(j: Journal, acts: seq<Action>)
  {
    && j.sequence > 0 && j.updatedAt > 0 && j.operationId != "" && j.plan.operationId == j.operationId
    && ProgressValid(j, acts) && ExportValid(j) && StageValid(j, acts)
  }

  predicate StateValid(h: Hasher, j: Journal)
  {
    PlanValid(h, j.plan) && EntryValid(j, ActionsOf(j))
  }

  predicate CanCompleteFrom(j: Journal, acts: seq<Action>)
  {
    && |j.completedPaths| == |acts| && !j.cancelled
    && (if |acts| == 0 then j.stage == (if j.plan.requiredExport then ExportVerified else Admitted)
        else j.stage == AppliedStage(acts[|acts| - 1].kind))
  }

  predicate TransitionValid(prior: Journal, next: Journal, acts: seq<Action>)
  {
    var sameProgress := next.completedPaths == prior.completedPaths && next.exportId == prior.exportId;
    && next.sequence == prior.sequence + 1 && next.operationId == prior.operationId && next.plan == prior.plan
    && next.updatedAt >= prior.updatedAt
    && prior.stage != Cleaned
    && match next.stage
       case Admitted => false
       case Cancelled => prior.stage != Completed && sameProgress
       case ExportVerified =>
         (prior.stage == Admitted || prior.stage == Cancelled) && prior.exportId == ""
             && next.completedPaths == prior.completedPaths
       case CompressApplied => ActionTransitionValid(prior, next)
       case PruneApplied => ActionTransitionValid(prior, next)
       case Completed => sameProgress && CanCompleteFrom(prior, acts)
       case Cleaned => prior.stage == Completed && sameProgress
  }

  predicate ActionTransitionValid(prior: Journal, next: Journal)
  {
    && prior.stage != Completed && next.exportId == prior.exportId
    && |next.completedPaths| == |prior.completedPaths| + 1
    && next.completedPaths[..|prior.completedPaths|] == prior.completedPaths
  }

  /** `j` may be appended to the history `init`. */
  predicate Follows(h: Hasher, init: seq<Journal>, j: Journal)
  {
    && StateValid(h, j) && j.sequence == |init| + 1
    && (if |init| == 0 then j.stage == Admitted else TransitionValid(init[|init| - 1], j, ActionsOf(j)))
  }

  /** The histories journalFromHistory accepts. */
  predicate Accepted(h: Hasher, hist: seq<Journal>)
  {
    |hist| == 0 || (Accepted(h, hist[..|hist| - 1]) && Follows(h, hist[..|hist| - 1], hist[|hist| - 1]))
  }

  function Last(hist: seq<Journal>): Journal
    requires |hist| > 0
  {
    hist[|hist| - 1]
  }

  lemma AcceptedSnoc(h: Hasher, hist: seq<Journal>, j: Journal)
    ensures Accepted(h, hist + [j]) <==> Accepted(h, hist) && Follows(h, hist, j)
  {
    assert (hist + [j])[..|hist|] == hist;
  }

  lemma {:induction false} AcceptedPrefix(h: Hasher, hist: seq<Journal>, n: nat)
    requires Accepted(h, hist) && n <= |hist|
    ensures Accepted(h, hist[..n])
    decreases |hist|
  {
    if n < |hist| {
      AcceptedPrefix(h, hist[..|hist| - 1], n);
      assert hist[..|hist| - 1][..n] == hist[..n];
    } else {
      assert hist[..n] == hist;
    }
  }

  /** The same, for one fixed plan whose mutating actions are `acts`. */
  predicate Linked(plan: Plan, acts: seq<Action>, init: seq<Journal>, j: Journal)
  {
    && j.plan == plan && EntryValid(j, acts) && j.sequence == |init| + 1
    && (if |init| == 0 then j.stage == Admitted else TransitionValid(init[|init| - 1], j, acts))
  }

  predicate Chained(plan: Plan, acts: seq<Action>, hist: seq<Journal>)
  {
    |hist| == 0 || (Chained(plan, acts, hist[..|hist| - 1]) && Linked(plan, acts, hist[..|hist| - 1], hist[|hist| - 1]))
  }

  lemma ChainedSnoc(plan: Plan, acts: seq<Action>, hist: seq<Journal>, j: Journal)
    ensures Chained(plan, acts, hist + [j]) <==> Chained(plan, acts, hist) && Linked(plan, acts, hist, j)
  {
    assert (hist + [j])[..|hist|] == hist;
  }

  lemma {:induction false} ChainedEntry(plan: Plan, acts: seq<Action>, hist: seq<Journal>, i: nat)
    requires Chained(plan, acts, hist) && i < |hist|
    ensures hist[i].plan == plan && EntryValid(hist[i], acts) && hist[i].sequence == i + 1
    decreases |hist|
  {
    if i < |hist| - 1 {
      ChainedEntry(plan, acts, hist[..|hist| - 1], i);
    }
  }

  /** An accepted history never changes its plan. */
  lemma {:induction false} AcceptedIsChained(h: Hasher, hist: seq<Journal>)
    requires Accepted(h, hist) && |hist| > 0
    ensures PlanValid(h, hist[0].plan)
    ensures Chained(hist[0].plan, ActionsOf(hist[0]), hist)
    decreases |hist|
  {
    if |hist| > 1 {
      var init := hist[..|hist| - 1];
      AcceptedIsChained(h, init);
      ChainedEntry(hist[0].plan, ActionsOf(hist[0]), init, |init| - 1);
    } else {
      assert Chained(hist[0].plan, ActionsOf(hist[0]), hist[..0]);
    }
  }

  lemma {:induction false} ChainedIsAccepted(h: Hasher, plan: Plan, hist: seq<Journal>)
    requires PlanValid(h, plan) && Chained(plan, Mutating(plan.actions), hist)
    ensures Accepted(h, hist)
    decreases |hist|
  {
    if |hist| > 0 {
      ChainedIsAccepted(h, plan, hist[..|hist| - 1]);
    }
  }

  /** A committed history file: the number in its name and the journal it holds. */
  datatype HistoryFile = HistoryFile(number: nat, journal: Journal)

  function Journals(files: seq<HistoryFile>): (r: seq<Journal>)
    ensures |r| == |files|
    ensures forall i :: 0 <= i < |files| ==> r[i] == files[i].journal
  {
    seq(|files|, i requires 0 <= i < |files| => files[i].journal)
  }

  predicate Numbered(files: seq<HistoryFile>)
  {
    forall i :: 0 <= i < |files| ==> files[i].number == i + 1
  }

  /** Reading the history directory accepts exactly a contiguous run of files whose journals form an
      accepted history, and returns that history. */
  method JournalFromHistory(h: Hasher, files: seq<HistoryFile>) returns (r: Option<seq<Journal>>)
    ensures r.Some? <==> Numbered(files) && Accepted(h, Journals(files))
    ensures r.Some? ==> r.value == Journals(files)
  {
    var history: seq<Journal> := [];
    for i := 0 to |files|
      invariant |history| == i && forall k :: 0 <= k < i ==> history[k] == files[k].journal && files[k].number == k + 1
      invariant Accepted(h, history)
    {
      var j := files[i].journal;
      if files[i].number != i + 1 || !Follows(h, history, j) {
        RefusedAt(h, files, history);
        return None;
      }
      AcceptedSnoc(h, history, j);
      history := history + [j];
    }
    assert history == Journals(files);
    return Some(history);
  }

  lemma RefusedAt(h: Hasher, files: seq<HistoryFile>, history: seq<Journal>)
    requires |history| < |files| && forall k :: 0 <= k < |history| ==> history[k] == files[k].journal
    requires files[|history|].number != |history| + 1 || !Follows(h, history, files[|history|].journal)
    ensures !(Numbered(files) && Accepted(h, Journals(files)))
  {
    var all, n := Journals(files), |history|;
    if Accepted(h, all) {
      AcceptedPrefix(h, all, n + 1);
      assert all[..n + 1] == history + [files[n].journal];
      AcceptedSnoc(h, history, files[n].journal);
    }
  }

  // ------------------------------------------- shape of an accepted history

  predicate IsPrefix(a: seq<Path>, b: seq<Path>)
  {
    |a| <= |b| && a == b[..|a|]
  }

  /** How an earlier entry constrains any later one. */
  predicate Precedes(a: Journal, b: Journal)
  {
    && b.operationId == a.operationId && b.plan == a.plan && a.updatedAt <= b.updatedAt
    && IsPrefix(a.completedPaths, b.completedPaths)
    && (a.exportId != "" ==> b.exportId == a.exportId)
    && b.stage != Admitted
    && (a.stage == Completed ==> b.stage == Cleaned && b.sequence == a.sequence + 1)
    && a.stage != Cleaned
  }

  lemma StepPrecedes(a: Journal, b: Journal, acts: seq<Action>)
    requires TransitionValid(a, b, acts)
    ensures Precedes(a, b)
    ensures |b.completedPaths| <= |a.completedPaths| + 1
    ensures b.completedPaths != a.completedPaths ==> b.stage == CompressApplied || b.stage == PruneApplied
    ensures b.exportId != a.exportId ==> b.stage == ExportVerified && a.exportId == ""
  {
  }

  lemma PrecedesTransitive(a: Journal, b: Journal, c: Journal, acts: seq<Action>)
    requires Precedes(a, b) && TransitionValid(b, c, acts)
    ensures Precedes(a, c)
  {
    StepPrecedes(b, c, acts);
    assert c.completedPaths[..|b.completedPaths|][..|a.completedPaths|] == c.completedPaths[..|a.completedPaths|];
  }

  /** Shape of every accepted history: one admission, first; the export identity set at most once and then
      fixed; completed paths growing by prefix extension; `completed` followed by nothing but one final
      `cleaned`; nothing after `cleaned`. */
  lemma {:induction false} HistoryShape(h: Hasher, hist: seq<Journal>, i: nat, j: nat)
    requires Accepted(h, hist) && i < j < |hist|
    ensures hist[0].stage == Admitted
    ensures Precedes(hist[i], hist[j])
    ensures hist[i].sequence == i + 1 && hist[j].sequence == j + 1
    ensures hist[i].stage == Completed ==> j == i + 1 && j == |hist| - 1
  {
    AcceptedIsChained(h, hist);
    var plan, acts := hist[0].plan, ActionsOf(hist[0]);
    ChainStart(plan, acts, hist);
    ChainShape(plan, acts, hist, i, j);
    ChainedEntry(plan, acts, hist, i);
    ChainedEntry(plan, acts, hist, j);
    if hist[i].stage == Completed && i + 1 < |hist| - 1 {
      ChainShape(plan, acts, hist, i, |hist| - 1);
      ChainedEntry(plan, acts, hist, |hist| - 1);
    }
  }

  lemma {:induction false} ChainStart(plan: Plan, acts: seq<Action>, hist: seq<Journal>)
    requires Chained(plan, acts, hist) && |hist| > 0
    ensures hist[0].stage == Admitted
    decreases |hist|
  {
    if |hist| > 1 {
      ChainStart(plan, acts, hist[..|hist| - 1]);
    }
  }

  lemma {:induction false} ChainShape(plan: Plan, acts: seq<Action>, hist: seq<Journal>, i: nat, j: nat)
    requires Chained(plan, acts, hist) && i < j < |hist|
    ensures Precedes(hist[i], hist[j])
    decreases |hist|
  {
    var n := |hist| - 1;
    var init := hist[..n];
    if j < n {
      ChainShape(plan, acts, init, i, j);
    } else if i < n - 1 {
      ChainShape(plan, acts, init, i, n - 1);
      PrecedesTransitive(hist[i], init[n - 1], hist[n], acts);
    } else {
      StepPrecedes(init[n - 1], hist[n], acts);
    }
  }

  /** What every entry of an accepted history says, field by field. */
  predicate EntryReads(j: Journal, acts: seq<Action>)
  {
    && j.updatedAt > 0 && j.operationId != "" && j.operationId == j.plan.operationId
    && |j.completedPaths| <= |acts| && (forall i :: 0 <= i < |j.completedPaths| ==> j.completedPaths[i] == acts[i].path)
    && (j.cancelled <==> j.stage == Cancelled)
    && (j.exportId != "" ==> j.plan.requiredExport && |j.exportId| == 64)
    && (j.exportId != "" ==>
          forall i :: 0 <= i < 64 ==> '0' <= j.exportId[i] <= '9' || 'a' <= j.exportId[i] <= 'f')
    && (j.plan.requiredExport && j.completedPaths != [] ==> j.exportId != "")
    && (j.stage == Admitted ==> j.completedPaths == [] && j.exportId == "")
    && (j.stage == ExportVerified ==> j.completedPaths == [] && j.exportId != "")
    && (j.stage == CompressApplied ==> j.completedPaths != [] && acts[|j.completedPaths| - 1].kind == Compress)
    && (j.stage == PruneApplied ==> j.completedPaths != [] && acts[|j.completedPaths| - 1].kind == Prune)
    && (j.stage == Completed || j.stage == Cleaned ==>
          |j.completedPaths| == |acts| && (j.plan.requiredExport ==> j.exportId != ""))
  }

  /** What every entry adds to the one before, field by field. */
  predicate StepReads(a: Journal, b: Journal, acts: seq<Action>)
  {
    && b.sequence == a.sequence + 1 && b.updatedAt >= a.updatedAt && b.plan == a.plan
    && a.stage != Cleaned && b.stage != Admitted
    && (a.stage == Completed ==> b.stage == Cleaned) && (b.stage == Cleaned ==> a.stage == Completed)
    && (if b.stage == CompressApplied || b.stage == PruneApplied
        then |b.completedPaths| == |a.completedPaths| + 1 else b.completedPaths == a.completedPaths)
    && (if b.stage == ExportVerified then a.exportId == "" else b.exportId == a.exportId)
    && (b.stage == Completed ==>
          && |a.completedPaths| == |acts|
          && a.stage == if |acts| == 0 then Admitted else if acts[|acts| - 1].kind == Compress then CompressApplied
              else PruneApplied)
  }

  /** The state check accepts exactly the entries that read so. */
  lemma EntryMeans(j: Journal, acts: seq<Action>)
    ensures EntryValid(j, acts) <==> EntryReads(j, acts) && j.sequence > 0
  {
    if |j.completedPaths| <= |acts| {
      assert ProgressValid(j, acts) <==> forall i :: 0 <= i < |j.completedPaths| ==>
          j.completedPaths[i] == Paths(acts)[i];
    }
  }

  /** Between valid entries the transition check accepts exactly the steps that read so. */
  lemma StepMeans(a: Journal, b: Journal, acts: seq<Action>)
    requires EntryValid(a, acts) && EntryValid(b, acts) && (a.plan.requiredExport ==> |acts| > 0)
    ensures TransitionValid(a, b, acts) <==> StepReads(a, b, acts)
  {
    var n := |a.completedPaths|;
    if |b.completedPaths| >= n {
      assert Paths(acts)[..|b.completedPaths|][..n] == Paths(acts)[..n];
    }
  }

  lemma ChainEntryReads(plan: Plan, acts: seq<Action>, hist: seq<Journal>, i: nat)
    requires Chained(plan, acts, hist) && i < |hist|
    ensures hist[i].sequence == i + 1 && hist[i].plan == plan && EntryReads(hist[i], acts)
  {
    ChainedEntry(plan, acts, hist, i);
    EntryMeans(hist[i], acts);
  }

  lemma ChainStepReads(plan: Plan, acts: seq<Action>, hist: seq<Journal>, i: nat)
    requires Chained(plan, acts, hist) && 0 < i < |hist| && (plan.requiredExport ==> |acts| > 0)
    ensures StepReads(hist[i - 1], hist[i], acts)
  {
    ChainedEntry(plan, acts, hist, i);
    ChainedEntry(plan, acts, hist, i - 1);
    ChainedStep(plan, acts, hist, i);
    StepMeans(hist[i - 1], hist[i], acts);
  }

  lemma OneAdmission(plan: Plan, acts: seq<Action>, hist: seq<Journal>, i: nat)
    requires Chained(plan, acts, hist) && i < |hist|
    ensures hist[i].stage == Admitted <==> i == 0
  {
    ChainStart(plan, acts, hist);
    if i > 0 {
      ChainShape(plan, acts, hist, 0, i);
    }
  }

  /** Every accepted history, read entry by entry: it begins with one admission numbered 1, every entry and every step
      says what it should, and all entries carry the same consistent plan. */
  lemma HistoryReads(h: Hasher, hist: seq<Journal>, i: nat)
    requires Accepted(h, hist) && i < |hist|
    ensures var acts := Mutating(hist[0].plan.actions);
            && hist[i].sequence == i + 1 && hist[i].plan == hist[0].plan && EntryReads(hist[i], acts)
            && (i > 0 ==> StepReads(hist[i - 1], hist[i], acts))
    ensures hist[i].stage == Admitted <==> i == 0
    ensures PlanConsistent(hist[0].plan)
  {
    AcceptedIsChained(h, hist);
    PlanFields(h, hist[0].plan);
    if hist[0].plan.requiredExport {
      ExportNeedsActions(h, hist[0].plan);
    }
    ChainEntryReads(hist[0].plan, ActionsOf(hist[0]), hist, i);
    if i > 0 {
      ChainStepReads(hist[0].plan, ActionsOf(hist[0]), hist, i);
    }
    OneAdmission(hist[0].plan, ActionsOf(hist[0]), hist, i);
  }

  lemma {:induction false} ChainedStep(plan: Plan, acts: seq<Action>, hist: seq<Journal>, i: nat)
    requires Chained(plan, acts, hist) && 0 < i < |hist|
    ensures TransitionValid(hist[i - 1], hist[i], acts)
    decreases |hist|
  {
    if i < |hist| - 1 {
      ChainedStep(plan, acts, hist[..|hist| - 1], i);
    }
  }

  function NotCancelled(hist: seq<Journal>): nat
  {
    if |hist| == 0 then 0
    else NotCancelled(hist[..|hist| - 1]) + if Last(hist).stage == Cancelled then 0 else 1
  }

  /** How far a journal has come, counted in entries that are not cancellations. */
  function Rank(j: Journal): nat
  {
    1 + (if j.exportId == "" then 0 else 1) + |j.completedPaths|
    + (if j.stage == Completed then 1 else if j.stage == Cleaned then 2 else 0)
  }

  /** The entries that are not cancellations are exactly as many as the progress they record, hence at most
      four more than the plan has mutating actions: the measure that bounds every operation. */
  lemma HistoryBounded(h: Hasher, hist: seq<Journal>)
    requires Accepted(h, hist) && |hist| > 0
    ensures NotCancelled(hist) == Rank(Last(hist))
    ensures NotCancelled(hist) <= |ActionsOf(hist[0])| + 4
  {
    AcceptedIsChained(h, hist);
    ChainRank(hist[0].plan, ActionsOf(hist[0]), hist);
    ChainedEntry(hist[0].plan, ActionsOf(hist[0]), hist, |hist| - 1);
  }

  lemma {:induction false} ChainRank(plan: Plan, acts: seq<Action>, hist: seq<Journal>)
    requires Chained(plan, acts, hist) && |hist| > 0
    ensures NotCancelled(hist) == Rank(Last(hist))
    decreases |hist|
  {
    var init := hist[..|hist| - 1];
    if |init| > 0 {
      ChainRank(plan, acts, init);
    } else {
      assert NotCancelled(init) == 0;
    }
  }

  // -------------------------------------------------------------- dead ends

  /** Cancelled with nothing left to do: completion is refused from a cancelled entry, and no action
      entry can replace it. */
  predicate DeadEnd(j: Journal, acts: seq<Action>)
  {
    j.stage == Cancelled && |j.completedPaths| == |acts|
  }

  /** Entries each legally following the previous one. Transitions never change the plan, so its mutating
      actions `acts` are those of every entry. */
  predicate LegalPath(acts: seq<Action>, path: seq<Journal>)
  {
    |path| <= 1
    || (&& LegalPath(acts, path[1..])
        && EntryValid(path[1], acts) && TransitionValid(path[0], path[1], acts))
  }

  /** Some sequence of legal entries leads from `j` to `cleaned`. */
  ghost predicate CanFinish(j: Journal, acts: seq<Action>)
  {
    exists path :: |path| > 0 && path[0] == j && LegalPath(acts, path) && Last(path).stage == Cleaned
  }

  lemma ExportNeedsActions(h: Hasher, plan: Plan)
    requires PlanValid(h, plan) && plan.requiredExport
    ensures |Mutating(plan.actions)| > 0
  {
    MutatingCount(plan.actions);
  }

  lemma DeadEndStep(acts: seq<Action>, a: Journal, b: Journal)
    requires a.plan.requiredExport ==> |acts| > 0
    requires EntryValid(a, acts) && EntryValid(b, acts) && DeadEnd(a, acts) && TransitionValid(a, b, acts)
    ensures DeadEnd(b, acts)
  {
  }

  lemma {:induction false} DeadEndPath(acts: seq<Action>, path: seq<Journal>)
    requires |path| > 0 && EntryValid(path[0], acts) && DeadEnd(path[0], acts) && LegalPath(acts, path)
    requires path[0].plan.requiredExport ==> |acts| > 0
    ensures DeadEnd(Last(path), acts)
    decreases |path|
  {
    if |path| > 1 {
      DeadEndStep(acts, path[0], path[1]);
      DeadEndPath(acts, path[1..]);
    }
  }

  lemma SomeExportId() returns (id: string)
    ensures ValidExportId(id)
  {
    id := seq(64, _ => '0');
  }

  /** The entry an uninterrupted operation would write next. */
  function NextEntry(j: Journal, acts: seq<Action>, id: string): Journal
  {
    var next := j.(sequence := j.sequence + 1, cancelled := false);
    var done := |j.completedPaths|;
    if j.stage == Completed then next.(stage := Cleaned)
    else if j.plan.requiredExport && j.exportId == "" then next.(stage := ExportVerified, exportId := id)
    else if done < |acts| then
      next.(stage := AppliedStage(acts[done].kind), completedPaths := j.completedPaths + [acts[done].path])
    else next.(stage := Completed)
  }

  function Remaining(j: Journal, acts: seq<Action>): int
  {
    if j.stage == Cleaned then 0
    else if j.stage == Completed then 1
    else 2 + (|acts| - |j.completedPaths|) + (if j.plan.requiredExport && j.exportId == "" then 1 else 0)
  }

  predicate AllMutating(acts: seq<Action>)
  {
    forall i :: 0 <= i < |acts| ==> IsMutating(acts[i])
  }

  lemma MutatingIsMutating(actions: seq<Action>)
    ensures AllMutating(Mutating(actions))
  {
    MutatingMembers(actions);
    forall i | 0 <= i < |Mutating(actions)|
      ensures IsMutating(Mutating(actions)[i])
    {
      assert Mutating(actions)[i] in Mutating(actions);
    }
  }

  lemma NextEntryLegal(acts: seq<Action>, j: Journal, id: string)
    requires ValidExportId(id) && AllMutating(acts)
    requires j.plan.requiredExport ==> |acts| > 0
    requires EntryValid(j, acts) && j.stage != Cleaned && !DeadEnd(j, acts)
    ensures var next := NextEntry(j, acts, id);
            EntryValid(next, acts) && TransitionValid(j, next, acts) && !DeadEnd(next, acts)
            && 0 <= Remaining(next, acts) < Remaining(j, acts)
  {
    var next, done := NextEntry(j, acts, id), |j.completedPaths|;
    if next.stage == CompressApplied || next.stage == PruneApplied {
      assert next.completedPaths == Paths(acts)[..done + 1];
    }
  }

  lemma {:induction false} LiveCanFinish(acts: seq<Action>, j: Journal, id: string) returns (path: seq<Journal>)
    requires ValidExportId(id) && AllMutating(acts)
    requires j.plan.requiredExport ==> |acts| > 0
    requires EntryValid(j, acts) && !DeadEnd(j, acts)
    ensures |path| > 0 && path[0] == j && LegalPath(acts, path) && Last(path).stage == Cleaned
    decreases Remaining(j, acts)
  {
    if j.stage == Cleaned {
      return [j];
    }
    var next := NextEntry(j, acts, id);
    NextEntryLegal(acts, j, id);
    var rest := LiveCanFinish(acts, next, id);
    path := [j] + rest;
    assert path[1..] == rest;
  }

  /** The cancellation of an entry. */
  function CancelledAfter(j: Journal): Journal
  {
    j.(stage := Cancelled, cancelled := true, sequence := j.sequence + 1)
  }

  lemma CancellationValid(h: Hasher, j: Journal)
    requires StateValid(h, j) && |j.completedPaths| == |ActionsOf(j)| && j.stage != Completed && j.stage != Cleaned
    ensures StateValid(h, CancelledAfter(j)) && DeadEnd(CancelledAfter(j), ActionsOf(j))
    ensures TransitionValid(j, CancelledAfter(j), ActionsOf(j))
  {
    if j.plan.requiredExport {
      ExportNeedsActions(h, j.plan);
    }
  }

  lemma CancellationFollows(h: Hasher, hist: seq<Journal>)
    requires Accepted(h, hist) && |hist| > 0
    requires StateValid(h, CancelledAfter(Last(hist)))
    requires TransitionValid(Last(hist), CancelledAfter(Last(hist)), ActionsOf(Last(hist)))
    ensures Accepted(h, hist + [CancelledAfter(Last(hist))])
  {
    AcceptedSnoc(h, hist, CancelledAfter(Last(hist)));
  }

  /** Dead ends are admitted: after any accepted history whose last entry has every action completed but is not itself
      `completed`, the reader accepts a cancellation, from which no legal entries lead on. */
  lemma DeadEndAdmitted(h: Hasher, hist: seq<Journal>)
    requires Accepted(h, hist) && |hist| > 0
    requires var j := Last(hist); |j.completedPaths| == |ActionsOf(j)| && j.stage != Completed && j.stage != Cleaned
    ensures var j := CancelledAfter(Last(hist)); Accepted(h, hist + [j]) && !CanFinish(j, ActionsOf(j))
  {
    CancellationValid(h, Last(hist));
    CancellationFollows(h, hist);
    DeadEndsExactly(h, CancelledAfter(Last(hist)));
  }

  /** A valid journal can still be driven to `cleaned` by legal entries if and only if it is not a
      cancellation recorded after the last mutating action. */
  lemma DeadEndsExactly(h: Hasher, j: Journal)
    requires StateValid(h, j)
    ensures CanFinish(j, ActionsOf(j)) <==> !DeadEnd(j, ActionsOf(j))
  {
    var acts := ActionsOf(j);
    MutatingIsMutating(j.plan.actions);
    if j.plan.requiredExport {
      ExportNeedsActions(h, j.plan);
    }
    if DeadEnd(j, acts) {
      if CanFinish(j, acts) {
        var path :| |path| > 0 && path[0] == j && LegalPath(acts, path) && Last(path).stage == Cleaned;
        DeadEndPath(acts, path);
      }
    } else {
      var id := SomeExportId();
      var path := LiveCanFinish(acts, j, id);
    }
  }
}
