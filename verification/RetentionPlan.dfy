/** The artifact garbage-collection planner and the validator every stored plan must pass
    (internal/artifactretention/plan.go, policy.go). */
module RetentionPlan {
  import opened Base

  type Path = string
  type Time = nat

  datatype Class = CodexJsonl | CodexStderr

  datatype Kind = Retain | Compress | Prune

  datatype Representation = Original | Compressed

  datatype Reason =
    | Pinned
    | MutationDisabled
    | PruneAgeReached
    | CompressionAgeReached
    | AlreadyCompressed
    | TooRecentOrBelowThreshold
    | OperationBound

  datatype Identity = Identity(sha256: string, byteSize: int)

  datatype Pin = Pin(reason: string, authority: string)

  datatype Policy = Policy(
    mutationEnabled: bool,
    recentRunCount: int,
    compressAfter: int,
    pruneAfter: int,
    minimumCompressBytes: int,
    compressCodexJsonl: bool,
    compressCodexStderr: bool,
    pruneCompressedStreams: bool,
    requireVerifiedExport: bool,
    maxFilesPerOperation: int,
    maxBytesPerOperation: int,
    decompressionCapBytes: int)

  datatype Action = Action(
    kind: Kind,
    path: Path,
    runId: string,
    taskId: string,
    class_: Class,
    reason: Reason,
    source: Identity,
    modifiedAt: Time,
    representation: Representation,
    compressed: Option<Identity>,
    pins: seq<Pin>,
    bytesAfter: int)

  datatype Totals = Totals(
    candidates: int,
    pinned: int,
    retained: int,
    compress: int,
    prune: int,
    bytesBefore: int,
    bytesAfter: int,
    remainingEligible: int)

  datatype LedgerIdentity = LedgerIdentity(sha256: string, byteSize: int, highWaterEventId: int)

  datatype Plan = Plan(
    operationId: string,
    planId: string,
    planSha256: string,
    planByteSize: int,
    frozenAt: Time,
    policy: Policy,
    policySha256: string,
    repositoryRoot: string,
    ledger: LedgerIdentity,
    requiredExport: bool,
    actions: seq<Action>,
    totals: Totals)

  /** SHA-256 over JSON, kept uninterpreted: any deterministic functions with a nonempty digest. */
  datatype Hasher = Hasher(policy: Policy -> string, plan: Plan -> string, encodedSize: Plan -> nat)

  ghost predicate Lawful(h: Hasher)
  {
    forall p :: h.plan(p) != ""
  }

  // ---------------------------------------------------------------- policy

  predicate PolicyValid(p: Policy)
  {
    && p.recentRunCount >= 0 && p.compressAfter >= 0 && p.pruneAfter >= 0 && p.minimumCompressBytes >= 0
    && p.maxFilesPerOperation > 0 && p.maxBytesPerOperation > 0 && p.decompressionCapBytes > 0
    && !(p.pruneAfter > 0 && p.compressAfter > p.pruneAfter)
    && !(p.pruneCompressedStreams && !p.requireVerifiedExport)
    && !(!p.compressCodexJsonl && !p.compressCodexStderr && p.pruneCompressedStreams)
  }

  /** What a valid policy guarantees: bounds that allow work, pruning only of what is also old enough to compress, of an
      admitted class, and with a verified export. */
  predicate PolicyCoherent(p: Policy)
  {
    && p.maxFilesPerOperation >= 1 && p.maxBytesPerOperation >= 1 && p.decompressionCapBytes >= 1
    && 0 <= p.compressAfter && 0 <= p.minimumCompressBytes && (p.pruneAfter > 0 ==> p.compressAfter <= p.pruneAfter)
    && (p.pruneCompressedStreams ==> p.requireVerifiedExport && (p.compressCodexJsonl || p.compressCodexStderr))
    && p.recentRunCount >= 0 && p.pruneAfter >= 0
  }

  lemma PolicyMeans(p: Policy)
    requires PolicyValid(p)
    ensures PolicyCoherent(p)
  {
  }

  predicate ClassCompressible(p: Policy, c: Class)
  {
    (c == CodexJsonl && p.compressCodexJsonl) || (c == CodexStderr && p.compressCodexStderr)
  }

  /** Stream files live strictly below `.revolvr/runs/<run>/` and end in their class's suffix. */
  predicate KnownStreamPath(p: Path, c: Class)
  {
    BelowRuns(p, 0) && EndsIn(p, if c == CodexJsonl then ".jsonl" else ".stderr")
  }

  const RUNS := ".revolvr/runs/"

  /** `p[i..]` continues the runs prefix from position `i`, then names a run and something below it. */
  predicate BelowRuns(p: Path, i: nat)
    decreases |RUNS| - i
  {
    if i < |RUNS| then i < |p| && p[i] == RUNS[i] && BelowRuns(p, i + 1)
    else i < |p| && p[i] != '/' && '/' in p[i..]
  }

  predicate EndsIn(p: string, suffix: string)
  {
    suffix == "" || (p != "" && p[|p| - 1] == suffix[|suffix| - 1] && EndsIn(p[..|p| - 1], suffix[..|suffix| - 1]))
  }

  lemma {:induction false} EndsInMeans(p: string, suffix: string)
    ensures EndsIn(p, suffix) <==> |p| >= |suffix| && p[|p| - |suffix|..] == suffix
    decreases |suffix|
  {
    if suffix != "" && p != "" {
      var q, s := p[..|p| - 1], suffix[..|suffix| - 1];
      EndsInMeans(q, s);
      assert suffix == s + [suffix[|suffix| - 1]];
      if |p| >= |suffix| {
        assert p[|p| - |suffix|..] == q[|q| - |s|..] + [p[|p| - 1]];
      }
    }
  }

  /** `p` is `root`, a nonempty name, a slash, and the rest. */
  predicate BelowDirectory(root: Path, p: Path, name: string, rest: string)
  {
    name != "" && '/' !in name && p == root + name + ['/'] + rest
  }

  predicate Below(root: Path, p: Path)
  {
    |p| > |root| && p[..|root|] == root && p[|root|] != '/' && '/' in p[|root|..]
  }

  lemma {:induction false} BelowRunsMeans(p: Path, i: nat)
    requires i <= |RUNS|
    ensures BelowRuns(p, i) <==>
              && |p| > |RUNS| && (forall k :: i <= k < |RUNS| ==> p[k] == RUNS[k])
              && p[|RUNS|] != '/' && '/' in p[|RUNS|..]
    decreases |RUNS| - i
  {
    if i < |RUNS| {
      BelowRunsMeans(p, i + 1);
    }
  }

  lemma BelowSplits(root: Path, p: Path) returns (name: string, rest: string)
    requires Below(root, p)
    ensures BelowDirectory(root, p, name, rest)
  {
    var below := p[|root|..];
    var k := FirstSlash(below);
    name, rest := below[..k], below[k + 1..];
    assert below == name + ['/'] + rest;
    assert p == root + below;
  }

  lemma SplitBelow(root: Path, p: Path, name: string, rest: string)
    requires BelowDirectory(root, p, name, rest)
    ensures Below(root, p)
  {
    assert p[|root|..] == name + ['/'] + rest;
    assert p[|root|] == name[0] && name[0] in name;
    assert (name + ['/'] + rest)[|name|] == '/';
  }

  lemma FirstSlash(s: string) returns (k: nat)
    requires '/' in s
    ensures k < |s| && s[k] == '/' && '/' !in s[..k]
  {
    k := 0;
    while s[k] != '/'
      invariant k < |s| && '/' !in s[..k]
      decreases |s| - k
    {
      assert s[..k + 1] == s[..k] + [s[k]] && s[..|s|] == s;
      k := k + 1;
    }
  }

  predicate Suffixed(p: string, suffix: string)
  {
    |p| >= |suffix| && p[|p| - |suffix|..] == suffix
  }

  /** Known stream paths are exactly those below a run's directory that end in their class's suffix. */
  lemma KnownStreamPathExactly(p: Path, c: Class)
    ensures KnownStreamPath(p, c) <==>
              && (exists run, rest :: BelowDirectory(".revolvr/runs/", p, run, rest))
              && Suffixed(p, if c == CodexJsonl then ".jsonl" else ".stderr")
  {
    EndsInMeans(p, if c == CodexJsonl then ".jsonl" else ".stderr");
    BelowRunsMeans(p, 0);
    assert BelowRuns(p, 0) <==> Below(RUNS, p);
    if Below(RUNS, p) {
      var run, rest := BelowSplits(RUNS, p);
    }
    if run, rest :| BelowDirectory(RUNS, p, run, rest) {
      SplitBelow(RUNS, p, run, rest);
    }
  }

  // ------------------------------------------------------------- inventory

  /** One inventoried artifact. `gzipIdentity` is what deterministic compression of its bytes
      yields; `pins` are the reasons to keep it, already collected. */
  datatype Candidate = Candidate(
    path: Path,
    runId: string,
    taskId: string,
    class_: Class,
    identity: Identity,
    mtime: Time,
    representation: Representation,
    gzipIdentity: Identity,
    pins: seq<Pin>)

  predicate CandidateValid(c: Candidate)
  {
    KnownStreamPath(c.path, c.class_) && c.identity.byteSize >= 0 && |c.identity.sha256| == 64
  }

  function CandidatePaths(cs: seq<Candidate>): (r: seq<Path>)
    ensures |r| == |cs|
    ensures forall i :: 0 <= i < |cs| ==> r[i] == cs[i].path
  {
    seq(|cs|, i requires 0 <= i < |cs| => cs[i].path)
  }

  /** Inventory output: one candidate per path, sorted by path. */
  predicate InventoryValid(cs: seq<Candidate>)
  {
    (forall i :: 0 <= i < |cs| ==> CandidateValid(cs[i])) && StrictlyOrdered(CandidatePaths(cs))
  }

  // -------------------------------------------------------- classification

  predicate PruneEligible(p: Policy, frozenAt: Time, c: Candidate)
  {
    && |c.pins| == 0 && p.mutationEnabled
    && p.pruneCompressedStreams && c.representation == Compressed && p.pruneAfter > 0
    && frozenAt - c.mtime >= p.pruneAfter
  }

  predicate CompressEligible(p: Policy, frozenAt: Time, c: Candidate)
  {
    && |c.pins| == 0 && p.mutationEnabled
    && c.representation == Original && c.identity.byteSize >= p.minimumCompressBytes
    && frozenAt - c.mtime >= p.compressAfter && ClassCompressible(p, c.class_)
  }

  predicate Eligible(p: Policy, frozenAt: Time, c: Candidate)
  {
    PruneEligible(p, frozenAt, c) || CompressEligible(p, frozenAt, c)
  }

  /** The switch at the head of the planning loop, before the operation bound is applied. */
  function Classify(p: Policy, frozenAt: Time, c: Candidate): (a: Action)
    ensures a.path == c.path && a.source == c.identity && a.modifiedAt == c.mtime
    ensures a.representation == c.representation && a.class_ == c.class_ && a.pins == c.pins
    ensures a.kind != Retain <==> Eligible(p, frozenAt, c)
    ensures a.reason != OperationBound
  {
    var a := Action(Retain, c.path, c.runId, c.taskId, c.class_, Pinned, c.identity, c.mtime,
                    c.representation, None, c.pins, c.identity.byteSize);
    if |c.pins| > 0 then a
    else if !p.mutationEnabled then a.(reason := MutationDisabled)
    else if PruneEligible(p, frozenAt, c) then a.(kind := Prune, reason := PruneAgeReached, bytesAfter := 0)
    else if CompressEligible(p, frozenAt, c) then
      a.(kind := Compress, reason := CompressionAgeReached,
      compressed := Some(c.gzipIdentity), bytesAfter := c.gzipIdentity.byteSize)
    else if c.representation == Compressed then a.(reason := AlreadyCompressed)
    else a.(reason := TooRecentOrBelowThreshold)
  }

  function Demote(a: Action): Action
  {
    a.(kind := Retain, reason := OperationBound, compressed := None, bytesAfter := a.source.byteSize)
  }

  // ---------------------------------------------------------------- totals

  const ZERO_TOTALS := Totals(0, 0, 0, 0, 0, 0, 0, 0)

  function AddAction(t: Totals, a: Action): Totals
  {
    Totals(
      t.candidates + 1,
      t.pinned + (if |a.pins| > 0 then 1 else 0),
      t.retained + (if a.kind == Retain then 1 else 0),
      t.compress + (if a.kind == Compress then 1 else 0),
      t.prune + (if a.kind == Prune then 1 else 0),
      t.bytesBefore + a.source.byteSize,
      t.bytesAfter + a.bytesAfter,
      t.remainingEligible + (if a.reason == OperationBound then 1 else 0))
  }

  function TotalsOf(actions: seq<Action>): Totals
  {
    if |actions| == 0 then ZERO_TOTALS
    else AddAction(TotalsOf(actions[..|actions| - 1]), actions[|actions| - 1])
  }

  lemma TotalsSnoc(actions: seq<Action>, a: Action)
    ensures TotalsOf(actions + [a]) == AddAction(TotalsOf(actions), a)
  {
    assert (actions + [a])[..|actions|] == actions;
  }

  function CountOf(actions: seq<Action>, holds: Action -> bool): nat
  {
    if |actions| == 0 then 0
    else CountOf(actions[..|actions| - 1], holds) + if holds(actions[|actions| - 1]) then 1 else 0
  }

  function SumOf(actions: seq<Action>, size: Action -> int): int
  {
    if |actions| == 0 then 0 else SumOf(actions[..|actions| - 1], size) + size(actions[|actions| - 1])
  }

  /** Totals are counts and sums over the actions. */
  predicate TotalsCount(actions: seq<Action>, t: Totals)
  {
    && t.candidates == |actions|
    && t.pinned == CountOf(actions, (a: Action) => a.pins != [])
    && t.retained == CountOf(actions, (a: Action) => a.kind == Retain)
    && t.compress == CountOf(actions, (a: Action) => a.kind == Compress)
    && t.prune == CountOf(actions, (a: Action) => a.kind == Prune)
    && t.remainingEligible == CountOf(actions, (a: Action) => a.reason == OperationBound)
    && t.bytesBefore == SumOf(actions, (a: Action) => a.source.byteSize)
    && t.bytesAfter == SumOf(actions, (a: Action) => a.bytesAfter)
  }

  lemma {:induction false} TotalsMean(actions: seq<Action>)
    ensures TotalsCount(actions, TotalsOf(actions))
    decreases |actions|
  {
    if |actions| > 0 {
      TotalsMean(actions[..|actions| - 1]);
    }
  }

  predicate IsMutating(a: Action) { a.kind == Compress || a.kind == Prune }

  function Mutating(actions: seq<Action>): seq<Action>
  {
    if |actions| == 0 then []
    else
      var init, last := actions[..|actions| - 1], actions[|actions| - 1];
      if IsMutating(last) then Mutating(init) + [last] else Mutating(init)
  }

  lemma {:induction false} MutatingMembers(actions: seq<Action>)
    ensures forall a :: a in Mutating(actions) <==> a in actions && IsMutating(a)
  {
    if |actions| > 0 {
      var init, last := actions[..|actions| - 1], actions[|actions| - 1];
      assert actions == init + [last];
      MutatingMembers(init);
    }
  }

  lemma MutatingSnoc(actions: seq<Action>, a: Action)
    ensures Mutating(actions + [a]) == Mutating(actions) + (if IsMutating(a) then [a] else [])
  {
    assert (actions + [a])[..|actions|] == actions;
  }

  function Paths(actions: seq<Action>): (r: seq<Path>)
    ensures |r| == |actions|
    ensures forall i :: 0 <= i < |actions| ==> r[i] == actions[i].path
  {
    seq(|actions|, i requires 0 <= i < |actions| => actions[i].path)
  }

  lemma {:induction false} MutatingCount(actions: seq<Action>)
    ensures |Mutating(actions)| == TotalsOf(actions).compress + TotalsOf(actions).prune
    ensures TotalsOf(actions).compress >= 0 && TotalsOf(actions).prune >= 0
    ensures TotalsOf(actions).prune > 0 <==> exists a :: a in actions && a.kind == Prune
  {
    if |actions| > 0 {
      var init := actions[..|actions| - 1];
      assert actions == init + [actions[|actions| - 1]];
      MutatingCount(init);
    }
  }

  /** The mutating actions of a path-ordered plan are path-ordered themselves. */
  lemma {:induction false} MutatingOrdered(actions: seq<Action>)
    requires StrictlyOrdered(Paths(actions))
    ensures StrictlyOrdered(Paths(Mutating(actions)))
    decreases |actions|
  {
    if |actions| > 0 {
      var init, last := actions[..|actions| - 1], actions[|actions| - 1];
      assert Paths(init) == Paths(actions)[..|init|];
      MutatingOrdered(init);
      if IsMutating(last) {
        var m := Mutating(init);
        assert Paths(m + [last]) == Paths(m) + [last.path];
        if |m| > 0 {
          MutatingMembers(init);
          assert m[|m| - 1] in m;
          var k :| 0 <= k < |init| && init[k] == m[|m| - 1];
          assert Less(Paths(actions)[k], Paths(actions)[|init|]);
        }
        StrictlyOrderedSnoc(Paths(m), last.path);
      }
    }
  }

  // ------------------------------------------------------------- validator

  function CoreOf(plan: Plan): Plan
  {
    plan.(planId := "", planSha256 := "", planByteSize := 0)
  }

  function ProjectionOf(plan: Plan): Plan
  {
    plan.(planSha256 := "", planByteSize := 0)
  }

  predicate ActionValid(a: Action)
  {
    && KnownStreamPath(a.path, a.class_)
    && a.source.byteSize >= 0 && |a.source.sha256| == 64
    && (a.kind == Compress ==> a.compressed.Some?)
  }

  /** Every action is well formed and the paths strictly increase. */
  predicate ActionsValid(actions: seq<Action>)
  {
    && (forall i :: 0 <= i < |actions| ==> ActionValid(actions[i]))
    && StrictlyOrdered(Paths(actions))
  }

  predicate HeaderValid(h: Hasher, plan: Plan)
  {
    && plan.planId != "" && plan.operationId != "" && plan.frozenAt > 0
    && PolicyValid(plan.policy)
    && h.policy(plan.policy) == plan.policySha256
  }

  predicate IdentityValid(h: Hasher, plan: Plan)
  {
    && h.plan(CoreOf(plan)) == plan.planId
    && h.plan(ProjectionOf(plan)) == plan.planSha256
    && h.encodedSize(ProjectionOf(plan)) == plan.planByteSize
  }

  /** What ValidatePlan demands, said without its loop. */
  predicate PlanValid(h: Hasher, plan: Plan)
  {
    && HeaderValid(h, plan)
    && ActionsValid(plan.actions)
    && TotalsOf(plan.actions) == plan.totals
    && (plan.requiredExport <==> plan.totals.prune > 0 && plan.policy.requireVerifiedExport)
    && IdentityValid(h, plan)
  }

  /** What a valid plan says for itself: known paths in strict order, a compressed identity for every compression,
      totals that count and sum its actions, an export exactly if it prunes under a policy that asks for one. */
  predicate PlanConsistent(plan: Plan)
  {
    && plan.planId != "" && plan.operationId != "" && plan.frozenAt > 0
    && (forall i, j :: 0 <= i < j < |plan.actions| ==> Less(plan.actions[i].path, plan.actions[j].path))
    && (forall i :: 0 <= i < |plan.actions| ==>
          && KnownStreamPath(plan.actions[i].path, plan.actions[i].class_)
          && plan.actions[i].source.byteSize >= 0 && |plan.actions[i].source.sha256| == 64
          && (plan.actions[i].kind == Compress ==> plan.actions[i].compressed.Some?))
    && TotalsCount(plan.actions, plan.totals)
    && (plan.requiredExport <==>
          plan.policy.requireVerifiedExport && exists i :: 0 <= i < |plan.actions| && plan.actions[i].kind == Prune)
  }

  lemma PlanFields(h: Hasher, plan: Plan)
    requires PlanValid(h, plan)
    ensures PlanConsistent(plan) && PolicyCoherent(plan.policy) && h.policy(plan.policy) == plan.policySha256
    ensures h.plan(plan.(planId := "", planSha256 := "", planByteSize := 0)) == plan.planId
    ensures h.plan(plan.(planSha256 := "", planByteSize := 0)) == plan.planSha256
  {
    TotalsMean(plan.actions);
    MutatingCount(plan.actions);
    PolicyMeans(plan.policy);
    assert forall i :: 0 <= i < |plan.actions| ==> ActionValid(plan.actions[i]);
    forall i, j | 0 <= i < j < |plan.actions|
      ensures Less(plan.actions[i].path, plan.actions[j].path)
    {
      assert Less(Paths(plan.actions)[i], Paths(plan.actions)[j]);
    }
  }

  method ValidatePlan(h: Hasher, plan: Plan) returns (ok: bool)
    ensures ok <==> PlanValid(h, plan)
    ensures ok ==> PlanConsistent(plan) && PolicyCoherent(plan.policy)
  {
    if PlanValid(h, plan) {
      PlanFields(h, plan);
    }
    if !HeaderValid(h, plan) {
      return false;
    }
    var ordered, totals := CheckActions(plan.actions);
    ok := && ordered && totals == plan.totals
          && plan.requiredExport == (plan.totals.prune > 0 && plan.policy.requireVerifiedExport)
          && IdentityValid(h, plan);
  }

  /** The validator's loop: order and shape of every action, and the recomputed totals. */
  method CheckActions(actions: seq<Action>) returns (ok: bool, totals: Totals)
    ensures ok <==> ActionsValid(actions)
    ensures ok ==> totals == TotalsOf(actions)
  {
    totals := ZERO_TOTALS;
    var previous := "";
    for i := 0 to |actions|
      invariant totals == TotalsOf(actions[..i])
      invariant previous == if i == 0 then "" else actions[i - 1].path
      invariant ActionsValid(actions[..i])
    {
      var action := actions[i];
      CheckStep(actions, i);
      if !Less(previous, action.path) || !ActionValid(action) {
        return false, totals;
      }
      previous := action.path;
      totals := AddAction(totals, action);
    }
    assert actions[..|actions|] == actions;
    ok := true;
  }

  lemma CheckStep(actions: seq<Action>, i: nat)
    requires i < |actions| && ActionsValid(actions[..i])
    ensures ActionsValid(actions[..i + 1])
       <==> ActionValid(actions[i]) && Less(if i == 0 then "" else actions[i - 1].path, actions[i].path)
    ensures ActionsValid(actions) ==> ActionsValid(actions[..i + 1])
    ensures TotalsOf(actions[..i + 1]) == AddAction(TotalsOf(actions[..i]), actions[i])
  {
    assert actions[..i + 1] == actions[..i] + [actions[i]];
    ActionsValidSnoc(actions[..i], actions[i]);
    TotalsSnoc(actions[..i], actions[i]);
    if ActionsValid(actions) {
      ActionsValidPrefix(actions, i + 1);
    }
  }

  lemma ActionsValidSnoc(actions: seq<Action>, a: Action)
    requires ActionsValid(actions)
    ensures ActionsValid(actions + [a])
       <==> ActionValid(a) && Less(if |actions| == 0 then "" else actions[|actions| - 1].path, a.path)
  {
    assert Paths(actions + [a]) == Paths(actions) + [a.path];
    StrictlyOrderedSnoc(Paths(actions), a.path);
    var t := actions + [a];
    assert t[|actions|] == a && forall i :: 0 <= i < |actions| ==> t[i] == actions[i];
  }

  lemma ActionsValidPrefix(actions: seq<Action>, n: nat)
    requires n <= |actions| && ActionsValid(actions)
    ensures ActionsValid(actions[..n])
  {
    assert Paths(actions[..n]) == Paths(actions)[..n];
  }

  // --------------------------------------------------------------- planner

  function EligibleOf(p: Policy, frozenAt: Time, cs: seq<Candidate>): (r: seq<Candidate>)
  {
    if |cs| == 0 then []
    else
      var init, last := cs[..|cs| - 1], cs[|cs| - 1];
      if Eligible(p, frozenAt, last) then EligibleOf(p, frozenAt, init) + [last] else EligibleOf(p, frozenAt, init)
  }

  lemma EligibleSnoc(p: Policy, frozenAt: Time, cs: seq<Candidate>, c: Candidate)
    ensures EligibleOf(p, frozenAt, cs + [c])
         == EligibleOf(p, frozenAt, cs) + (if Eligible(p, frozenAt, c) then [c] else [])
  {
    assert (cs + [c])[..|cs|] == cs;
  }

  function ByteSum(cs: seq<Candidate>): int
  {
    if |cs| == 0 then 0 else ByteSum(cs[..|cs| - 1]) + cs[|cs| - 1].identity.byteSize
  }

  lemma ByteSumSnoc(cs: seq<Candidate>, c: Candidate)
    ensures ByteSum(cs + [c]) == ByteSum(cs) + c.identity.byteSize
  {
    assert (cs + [c])[..|cs|] == cs;
  }

  lemma {:induction false} ByteSumMonotone(cs: seq<Candidate>, j: nat, k: nat)
    requires forall c :: c in cs ==> c.identity.byteSize >= 0
    requires j <= k <= |cs|
    ensures ByteSum(cs[..j]) <= ByteSum(cs[..k])
    decreases k
  {
    if j < k {
      ByteSumMonotone(cs, j, k - 1);
      assert cs[..k] == cs[..k - 1] + [cs[k - 1]];
      ByteSumSnoc(cs[..k - 1], cs[k - 1]);
    }
  }

  /** The first `k` eligible artifacts fit both operation bounds. */
  predicate Fits(p: Policy, eligible: seq<Candidate>, k: nat)
  {
    k <= |eligible| && k <= p.maxFilesPerOperation && ByteSum(eligible[..k]) <= p.maxBytesPerOperation
  }

  /** `k` is the length of the longest prefix that fits. */
  ghost predicate LongestFit(p: Policy, eligible: seq<Candidate>, k: nat)
  {
    Fits(p, eligible, k) && forall j: nat :: Fits(p, eligible, j) ==> j <= k
  }

  /** `k` fits and the next longer prefix does not. */
  predicate LocallyLongest(p: Policy, eligible: seq<Candidate>, k: nat)
  {
    Fits(p, eligible, k) && (k < |eligible| ==> !Fits(p, eligible, k + 1))
  }

  /** Skipped artifacts keep counting against the bounds, so the first misfit ends the selection. */
  lemma FitStep(p: Policy, before: seq<Candidate>, c: Candidate, k: nat)
    requires forall i :: 0 <= i < |before| ==> before[i].identity.byteSize >= 0
    requires c.identity.byteSize >= 0
    requires LocallyLongest(p, before, k)
    ensures var after := before + [c];
            if |after| > p.maxFilesPerOperation || ByteSum(after) > p.maxBytesPerOperation
            then LocallyLongest(p, after, k)
            else k == |before| && LocallyLongest(p, after, k + 1)
  {
    var after := before + [c];
    assert after[..k] == before[..k];
    assert after[..|after|] == after;
    if k < |before| {
      assert after[..k + 1] == before[..k + 1];
      ByteSumMonotone(after, k + 1, |after|);
    }
  }

  lemma LocallyLongestIsLongest(p: Policy, eligible: seq<Candidate>, k: nat)
    requires forall i :: 0 <= i < |eligible| ==> eligible[i].identity.byteSize >= 0
    requires LocallyLongest(p, eligible, k)
    ensures LongestFit(p, eligible, k)
  {
    forall j: nat | Fits(p, eligible, j)
      ensures j <= k
    {
      if k < j {
        ByteSumMonotone(eligible, k + 1, j);
      }
    }
  }

  function ClassifyAll(p: Policy, frozenAt: Time, cs: seq<Candidate>): (r: seq<Action>)
    ensures |r| == |cs|
    ensures forall i :: 0 <= i < |cs| ==> r[i] == Classify(p, frozenAt, cs[i])
  {
    seq(|cs|, i requires 0 <= i < |cs| => Classify(p, frozenAt, cs[i]))
  }

  lemma ClassifyAllSnoc(p: Policy, at: Time, cs: seq<Candidate>, c: Candidate)
    ensures ClassifyAll(p, at, cs + [c]) == ClassifyAll(p, at, cs) + [Classify(p, at, c)]
  {
  }

  /** The mutating actions of `actions` are exactly the classified longest prefix of the eligible
      candidates, and everything eligible beyond it is counted as remaining. */
  ghost predicate TakesLongestPrefix(p: Policy, at: Time, cs: seq<Candidate>, actions: seq<Action>, remaining: int)
  {
    var eligible := EligibleOf(p, at, cs);
    exists k: nat ::
      && LongestFit(p, eligible, k)
      && Mutating(actions) == ClassifyAll(p, at, eligible[..k])
      && remaining == |eligible| - k
  }

  /** An emitted action is its candidate's classification, or that demoted to the operation bound. */
  predicate Emits(p: Policy, at: Time, c: Candidate, a: Action)
  {
    a == Classify(p, at, c) || (Eligible(p, at, c) && a == Demote(Classify(p, at, c)))
  }

  datatype PlanInput = PlanInput(
    operationId: string,
    frozenAt: Time,
    policy: Policy,
    repositoryRoot: string,
    ledger: LedgerIdentity)

  predicate PlanInputValid(input: PlanInput, cs: seq<Candidate>)
  {
    && PolicyValid(input.policy) && input.operationId != "" && input.frozenAt > 0
    && forall i :: 0 <= i < |cs| ==> cs[i].mtime <= input.frozenAt
  }

  /** A plan PlanGC can have produced from this inventory. */
  ghost predicate PlannedFrom(h: Hasher, input: PlanInput, cs: seq<Candidate>, plan: Plan)
  {
    && PlanValid(h, plan)
    && plan.policy == input.policy && plan.operationId == input.operationId && plan.frozenAt == input.frozenAt
    && |plan.actions| == |cs|
    && (forall i :: 0 <= i < |cs| ==> Emits(input.policy, input.frozenAt, cs[i], plan.actions[i]))
    && TakesLongestPrefix(input.policy, input.frozenAt, cs, plan.actions, plan.totals.remainingEligible)
    && (plan.totals.prune > 0 ==> plan.requiredExport)
  }

  // -------------------------------------------------- what each action is there for

  /** Old enough to prune, by the plan's own fields. */
  predicate WantsPrune(plan: Plan, a: Action)
  {
    && a.pins == [] && plan.policy.mutationEnabled && plan.policy.pruneCompressedStreams
        && a.representation == Compressed
    && plan.policy.pruneAfter > 0 && plan.frozenAt - a.modifiedAt >= plan.policy.pruneAfter
  }

  /** Old and large enough to compress, and of an admitted class. */
  predicate WantsCompression(plan: Plan, a: Action)
  {
    && a.pins == [] && plan.policy.mutationEnabled && a.representation == Original
    && a.source.byteSize >= plan.policy.minimumCompressBytes
        && plan.frozenAt - a.modifiedAt >= plan.policy.compressAfter
    && (if a.class_ == CodexJsonl then plan.policy.compressCodexJsonl else plan.policy.compressCodexStderr)
  }

  /** The action is about its candidate, and its kind, reason and size follow from age, size, class, pins and policy. */
  predicate Justified(plan: Plan, c: Candidate, a: Action)
  {
    && a.path == c.path && a.runId == c.runId && a.taskId == c.taskId && a.class_ == c.class_ && a.source == c.identity
    && a.modifiedAt == c.mtime && a.representation == c.representation && a.pins == c.pins
    && (a.kind == Prune ==> WantsPrune(plan, a) && a.bytesAfter == 0)
    && (a.kind == Compress ==>
          WantsCompression(plan, a) && a.compressed == Some(c.gzipIdentity) && a.bytesAfter == c.gzipIdentity.byteSize)
    && (a.kind == Retain ==> a.bytesAfter == a.source.byteSize)
    && (WantsPrune(plan, a) || WantsCompression(plan, a) <==> a.kind != Retain || a.reason == OperationBound)
    && (a.reason == PruneAgeReached <==> a.kind == Prune) && (a.reason == CompressionAgeReached <==> a.kind == Compress)
    && (a.reason == Pinned <==> a.pins != [])
    && (a.reason == MutationDisabled <==> a.pins == [] && !plan.policy.mutationEnabled)
    && (a.reason == AlreadyCompressed ==> a.representation == Compressed)
    && (a.reason == TooRecentOrBelowThreshold ==> a.representation == Original)
  }

  /** Wanted by age and policy, whether or not the operation bound let it through. */
  predicate Wanted(a: Action)
  {
    a.kind != Retain || a.reason == OperationBound
  }

  function WantedBytes(actions: seq<Action>): int
  {
    SumOf(actions, (a: Action) => if a.kind != Retain || a.reason == OperationBound then a.source.byteSize else 0)
  }

  function WantedCount(actions: seq<Action>): nat
  {
    CountOf(actions, (a: Action) => a.kind != Retain || a.reason == OperationBound)
  }

  /** A wanted action is carried out exactly as long as, up to and including it, count and bytes are within bounds. */
  predicate BoundExactly(plan: Plan, i: nat)
    requires i < |plan.actions|
  {
    Wanted(plan.actions[i]) ==>
      (plan.actions[i].kind != Retain <==>
         && WantedCount(plan.actions[..i + 1]) <= plan.policy.maxFilesPerOperation
         && WantedBytes(plan.actions[..i + 1]) <= plan.policy.maxBytesPerOperation)
  }

  lemma ClassifyJustified(plan: Plan, c: Candidate, a: Action)
    requires Emits(plan.policy, plan.frozenAt, c, a)
    ensures Justified(plan, c, a)
  {
  }

  lemma {:induction false} WantedIsEligible(p: Policy, at: Time, cs: seq<Candidate>)
    ensures WantedCount(Emitted(p, at, cs)) == |EligibleOf(p, at, cs)|
    ensures WantedBytes(Emitted(p, at, cs)) == ByteSum(EligibleOf(p, at, cs))
    decreases |cs|
  {
    if |cs| > 0 {
      var init, c := cs[..|cs| - 1], cs[|cs| - 1];
      WantedIsEligible(p, at, init);
      assert Emitted(p, at, cs)[..|init|] == Emitted(p, at, init);
      if Eligible(p, at, c) {
        ByteSumSnoc(EligibleOf(p, at, init), c);
      }
    }
  }

  lemma {:induction false} EmittedPrefix(p: Policy, at: Time, cs: seq<Candidate>, n: nat)
    requires n <= |cs|
    ensures Emitted(p, at, cs)[..n] == Emitted(p, at, cs[..n])
    decreases |cs|
  {
    if n == |cs| {
      assert cs[..n] == cs;
    } else {
      var init := cs[..|cs| - 1];
      EmittedPrefix(p, at, init, n);
      assert init[..n] == cs[..n];
      assert Emitted(p, at, cs)[..n] == Emitted(p, at, init)[..n];
    }
  }

  lemma BoundHolds(plan: Plan, cs: seq<Candidate>, i: nat)
    requires plan.actions == Emitted(plan.policy, plan.frozenAt, cs) && i < |cs|
    ensures BoundExactly(plan, i)
  {
    var p, at := plan.policy, plan.frozenAt;
    var upTo := cs[..i + 1];
    assert upTo[..i] == cs[..i] && upTo[i] == cs[i];
    EmittedPrefix(p, at, cs, i + 1);
    assert plan.actions[i] == plan.actions[..i + 1][i] == EmitNext(p, at, cs[..i], cs[i]);
    WantedIsEligible(p, at, upTo);
    if Eligible(p, at, cs[i]) {
      assert EligibleOf(p, at, upTo) == EligibleOf(p, at, cs[..i]) + [cs[i]];
    }
  }

  /** Every action is justified by the plan's own fields and its candidate, and the operation bound cuts where count and
      bytes say. */
  predicate PlanJustified(plan: Plan, cs: seq<Candidate>)
  {
    && |plan.actions| == |cs|
    && (forall i :: 0 <= i < |cs| ==> cs[i].mtime <= plan.frozenAt)
    && (forall i :: 0 <= i < |cs| ==> Justified(plan, cs[i], plan.actions[i]))
    && (forall i {:trigger plan.actions[i]} :: 0 <= i < |cs| ==> BoundExactly(plan, i))
  }

  /** The planner refuses exactly the malformed requests and clock-skewed inventories; whatever it returns passes the
      validator, is consistent, and is justified by age, size, class, pins, policy and bounds. */
  method PlanGC(h: Hasher, input: PlanInput, cs: seq<Candidate>) returns (r: Result<Plan>)
    requires Lawful(h) && InventoryValid(cs)
    ensures r.Ok? <==> PlanInputValid(input, cs)
    ensures r.Ok? ==> PlannedFrom(h, input, cs, r.value)
    ensures r.Ok? ==> r.value.policy == input.policy && r.value.frozenAt == input.frozenAt && input.operationId != ""
    ensures r.Ok? ==> PlanConsistent(r.value) && PolicyCoherent(input.policy) && PlanJustified(r.value, cs)
  {
    r := MakePlan(h, input, cs);
    if r.Ok? {
      PlanGCFields(h, input, cs, r.value);
    }
  }

  method MakePlan(h: Hasher, input: PlanInput, cs: seq<Candidate>) returns (r: Result<Plan>)
    requires Lawful(h) && InventoryValid(cs)
    ensures r.Ok? <==> PlanInputValid(input, cs)
    ensures r.Ok? ==> PlannedFrom(h, input, cs, r.value) && r.value.actions == Emitted(input.policy, input.frozenAt, cs)
  {
    if !PolicyValid(input.policy) || input.operationId == "" || input.frozenAt == 0 {
      return Err;
    }
    var fits, actions, totals := SelectActions(input.policy, input.frozenAt, cs);
    if !fits {
      return Err;
    }
    var core := Plan(input.operationId, "", "", 0, input.frozenAt, input.policy, h.policy(input.policy),
                     input.repositoryRoot, input.ledger,
                     totals.prune > 0 && input.policy.requireVerifiedExport, actions, totals);
    var named := core.(planId := h.plan(core));
    var plan := named.(planSha256 := h.plan(named), planByteSize := h.encodedSize(named));
    assert CoreOf(plan) == core && ProjectionOf(plan) == named;
    PlanGCCorrect(input.policy, input.frozenAt, cs);
    return Ok(plan);
  }

  lemma PlanGCFields(h: Hasher, input: PlanInput, cs: seq<Candidate>, plan: Plan)
    requires PlannedFrom(h, input, cs, plan) && plan.actions == Emitted(input.policy, input.frozenAt, cs)
    requires PlanInputValid(input, cs)
    ensures PlanConsistent(plan) && PolicyCoherent(input.policy) && PlanJustified(plan, cs)
  {
    PlanFields(h, plan);
    forall i | 0 <= i < |cs|
      ensures Justified(plan, cs[i], plan.actions[i]) && BoundExactly(plan, i)
    {
      ClassifyJustified(plan, cs[i], plan.actions[i]);
      BoundHolds(plan, cs, i);
    }
  }

  predicate OverBound(p: Policy, eligible: seq<Candidate>)
  {
    |eligible| > p.maxFilesPerOperation || ByteSum(eligible) > p.maxBytesPerOperation
  }

  /** The action emitted for `c` after the candidates `init`. */
  function EmitNext(p: Policy, at: Time, init: seq<Candidate>, c: Candidate): Action
  {
    if Eligible(p, at, c) && OverBound(p, EligibleOf(p, at, init) + [c]) then Demote(Classify(p, at, c))
    else Classify(p, at, c)
  }

  function Emitted(p: Policy, at: Time, cs: seq<Candidate>): (r: seq<Action>)
    ensures |r| == |cs|
  {
    if |cs| == 0 then []
    else Emitted(p, at, cs[..|cs| - 1]) + [EmitNext(p, at, cs[..|cs| - 1], cs[|cs| - 1])]
  }

  lemma {:induction false} EmittedEmits(p: Policy, at: Time, cs: seq<Candidate>, i: nat)
    requires i < |cs|
    ensures Emits(p, at, cs[i], Emitted(p, at, cs)[i])
    decreases |cs|
  {
    if i < |cs| - 1 {
      EmittedEmits(p, at, cs[..|cs| - 1], i);
    }
  }

  /** `actions` mutates the first `k` of the eligible candidates, and no more would fit. */
  predicate Selects(p: Policy, at: Time, eligible: seq<Candidate>, actions: seq<Action>, k: nat)
  {
    && LocallyLongest(p, eligible, k)
    && Mutating(actions) == ClassifyAll(p, at, eligible[..k])
    && TotalsOf(actions).remainingEligible == |eligible| - k
  }

  lemma SelectsNext(p: Policy, at: Time, eligible: seq<Candidate>, actions: seq<Action>, k: nat, c: Candidate)
    requires forall j :: 0 <= j < |eligible| ==> eligible[j].identity.byteSize >= 0
    requires c.identity.byteSize >= 0 && Eligible(p, at, c)
    requires Selects(p, at, eligible, actions, k)
    ensures OverBound(p, eligible + [c]) ==> Selects(p, at, eligible + [c], actions + [Demote(Classify(p, at, c))], k)
    ensures !OverBound(p, eligible + [c]) ==> Selects(p, at, eligible + [c], actions + [Classify(p, at, c)], k + 1)
  {
    FitStep(p, eligible, c, k);
    if OverBound(p, eligible + [c]) {
      assert (eligible + [c])[..k] == eligible[..k];
      MutatingSnoc(actions, Demote(Classify(p, at, c)));
      TotalsSnoc(actions, Demote(Classify(p, at, c)));
    } else {
      MutatingSnoc(actions, Classify(p, at, c));
      TotalsSnoc(actions, Classify(p, at, c));
      ClassifyAllSnoc(p, at, eligible, c);
      assert eligible[..k] == eligible && (eligible + [c])[..k + 1] == eligible + [c];
    }
  }

  lemma SelectsSkip(p: Policy, at: Time, eligible: seq<Candidate>, actions: seq<Action>, k: nat, c: Candidate)
    requires !Eligible(p, at, c) && Selects(p, at, eligible, actions, k)
    ensures Selects(p, at, eligible, actions + [Classify(p, at, c)], k)
  {
    MutatingSnoc(actions, Classify(p, at, c));
    TotalsSnoc(actions, Classify(p, at, c));
  }

  lemma {:induction false} EmittedSelects(p: Policy, at: Time, cs: seq<Candidate>) returns (k: nat)
    requires forall i :: 0 <= i < |cs| ==> cs[i].identity.byteSize >= 0
    requires PolicyValid(p)
    ensures forall j :: 0 <= j < |EligibleOf(p, at, cs)| ==> EligibleOf(p, at, cs)[j].identity.byteSize >= 0
    ensures Selects(p, at, EligibleOf(p, at, cs), Emitted(p, at, cs), k)
    decreases |cs|
  {
    if |cs| == 0 {
      return 0;
    }
    var init, c := cs[..|cs| - 1], cs[|cs| - 1];
    k := EmittedSelects(p, at, init);
    var eligible := EligibleOf(p, at, init);
    if Eligible(p, at, c) {
      SelectsNext(p, at, eligible, Emitted(p, at, init), k, c);
      k := if OverBound(p, eligible + [c]) then k else k + 1;
    } else {
      SelectsSkip(p, at, eligible, Emitted(p, at, init), k, c);
    }
  }

  /** The planning loop computes exactly the emission function, with running counters in place of sums. */
  method SelectActions(p: Policy, at: Time, cs: seq<Candidate>) returns (ok: bool, actions: seq<Action>, totals: Totals)
    ensures ok <==> forall i :: 0 <= i < |cs| ==> cs[i].mtime <= at
    ensures ok ==> actions == Emitted(p, at, cs) && totals == TotalsOf(actions)
  {
    var files, bytes := 0, 0;
    actions, totals := [], ZERO_TOTALS;
    ghost var done: seq<Candidate> := [];
    for i := 0 to |cs|
      invariant done == cs[..i]
      invariant forall j :: 0 <= j < i ==> cs[j].mtime <= at
      invariant EmittedState(p, at, done, actions, totals, files, bytes)
    {
      if at < cs[i].mtime {
        return false, actions, totals;
      }
      var a := Classify(p, at, cs[i]);
      ghost var files0, bytes0 := files, bytes;
      if IsMutating(a) {
        files, bytes := files + 1, bytes + cs[i].identity.byteSize;
        if files > p.maxFilesPerOperation || bytes > p.maxBytesPerOperation {
          a := Demote(a);
        }
      }
      EmittedStep(p, at, done, actions, totals, files0, bytes0, cs[i], a, files, bytes);
      done := done + [cs[i]];
      actions, totals := actions + [a], AddAction(totals, a);
    }
    assert done == cs;
    ok := true;
  }

  /** The loop state after the candidates `done`. */
  predicate EmittedState(p: Policy, at: Time, done: seq<Candidate>, actions: seq<Action>, totals: Totals, files: int,
      bytes: int)
  {
    && actions == Emitted(p, at, done) && totals == TotalsOf(actions)
    && files == |EligibleOf(p, at, done)| && bytes == ByteSum(EligibleOf(p, at, done))
  }

  lemma EmittedStep(p: Policy, at: Time, done: seq<Candidate>, actions: seq<Action>, totals: Totals, files: int,
      bytes: int,
                    c: Candidate, a: Action, files': int, bytes': int)
    requires EmittedState(p, at, done, actions, totals, files, bytes)
    requires files' == files + (if Eligible(p, at, c) then 1 else 0)
    requires bytes' == bytes + (if Eligible(p, at, c) then c.identity.byteSize else 0)
    requires a == if Eligible(p, at, c) && (files' > p.maxFilesPerOperation || bytes' > p.maxBytesPerOperation)
                  then Demote(Classify(p, at, c)) else Classify(p, at, c)
    ensures EmittedState(p, at, done + [c], actions + [a], AddAction(totals, a), files', bytes')
  {
    assert (done + [c])[..|done|] == done;
    ByteSumSnoc(EligibleOf(p, at, done), c);
    TotalsSnoc(actions, a);
  }

  lemma EmittedActionValid(p: Policy, at: Time, c: Candidate, a: Action)
    requires PolicyValid(p) && CandidateValid(c) && Emits(p, at, c, a)
    ensures ActionValid(a) && a.path == c.path
    ensures a.kind == Prune ==> p.requireVerifiedExport
  {
  }

  lemma EmittedActionsValid(p: Policy, at: Time, cs: seq<Candidate>, actions: seq<Action>)
    requires PolicyValid(p) && InventoryValid(cs)
    requires |actions| == |cs| && forall i :: 0 <= i < |cs| ==> Emits(p, at, cs[i], actions[i])
    ensures ActionsValid(actions)
    ensures TotalsOf(actions).prune > 0 ==> p.requireVerifiedExport
  {
    forall i | 0 <= i < |actions|
      ensures ActionValid(actions[i]) && actions[i].path == cs[i].path
      ensures actions[i].kind == Prune ==> p.requireVerifiedExport
    {
      EmittedActionValid(p, at, cs[i], actions[i]);
    }
    assert Paths(actions) == CandidatePaths(cs);
    MutatingCount(actions);
  }

  lemma PlanGCCorrect(p: Policy, at: Time, cs: seq<Candidate>)
    requires PolicyValid(p) && InventoryValid(cs)
    ensures var actions := Emitted(p, at, cs);
            && ActionsValid(actions)
            && (forall i :: 0 <= i < |cs| ==> Emits(p, at, cs[i], actions[i]))
            && (TotalsOf(actions).prune > 0 ==> p.requireVerifiedExport)
            && TakesLongestPrefix(p, at, cs, actions, TotalsOf(actions).remainingEligible)
  {
    forall i | 0 <= i < |cs|
      ensures Emits(p, at, cs[i], Emitted(p, at, cs)[i]) && cs[i].identity.byteSize >= 0
    {
      EmittedEmits(p, at, cs, i);
      assert CandidateValid(cs[i]);
    }
    EmittedActionsValid(p, at, cs, Emitted(p, at, cs));
    var k := EmittedSelects(p, at, cs);
    LocallyLongestIsLongest(p, EligibleOf(p, at, cs), k);
  }

  // ---------------------------------------------------------------- identity

  /** Different plans have different digests. */
  ghost predicate PlanIdentifies(h: Hasher)
  {
    forall p, q :: h.plan(p) == h.plan(q) ==> p == q
  }

  lemma SamePlan(h: Hasher, p: Plan, q: Plan)
    requires PlanIdentifies(h) && PlanValid(h, p) && PlanValid(h, q) && p.planSha256 == q.planSha256
    ensures p == q
  {
    assert ProjectionOf(p) == ProjectionOf(q);
    assert p == ProjectionOf(p).(planSha256 := p.planSha256, planByteSize := p.planByteSize);
  }
}
