/** From inventory to transaction: what the planner reads off the disk, and exactly which of the artifacts it
    admits can be carried through a resumable operation (internal/artifactretention/plan.go:356-449). */
module RetentionInventory {
  import opened Base
  import opened RetentionPlan
  import opened RetentionJournal
  import opened RetentionDisk
  import opened RetentionApply
  import opened RetentionInvariant
  import opened RetentionFinish
  import opened RetentionRuns

  // ------------------------------------------------------------- file names

  /** The files one artifact owns. */
  function FilesOf(p: Path): set<Path>
  {
    {p, GzPath(p), p + ".gz.manifest.json"}
  }

  lemma StreamPathEnds(p: Path, c: Class)
    requires KnownStreamPath(p, c)
    ensures |p| > 0 && (p[|p| - 1] == 'l' || p[|p| - 1] == 'r')
  {
  }

  /** Two stream artifacts never share a file, so each is a slot of its own. */
  lemma FilesDisjoint(p: Path, c: Class, q: Path, d: Class)
    requires KnownStreamPath(p, c) && KnownStreamPath(q, d) && p != q
    ensures FilesOf(p) !! FilesOf(q)
  {
    StreamPathEnds(p, c);
    StreamPathEnds(q, d);
    var gz, manifest := ".gz", ".gz.manifest.json";
    SuffixCancels(p, q, gz);
    SuffixCancels(p, q, manifest);
    assert (p + gz)[|p + gz| - 1] == 'z' && (q + gz)[|q + gz| - 1] == 'z';
    assert (p + manifest)[|p + manifest| - 1] == 'n' && (q + manifest)[|q + manifest| - 1] == 'n';
  }

  lemma SuffixCancels(p: string, q: string, suffix: string)
    ensures p + suffix == q + suffix ==> p == q
  {
    if p + suffix == q + suffix {
      assert p == (p + suffix)[..|p|] && q == (q + suffix)[..|q|];
    }
  }

  // -------------------------------------------------------------- inventory

  /** The candidate inventory makes of one slot: the original if there is one, otherwise a canonical manifest
      whose named gz decompresses to the named identity within the policy's cap. */
  predicate Inventoried(c: Codec, other: map<Path, Bytes>, cap: int, s: Slot, cand: Candidate)
  {
    var r := s.source;
    if r.original.Some? then
      && cand.representation == Original
      && cand.identity == Id(c, r.original.value.bytes) && cand.mtime == r.original.value.mtime
      && |r.original.value.bytes| <= 0x4000_0000
      && cand.gzipIdentity == Id(c, c.compress(r.original.value.bytes))
    else
      && cand.representation == Compressed && r.manifest.Some?
      && var m := r.manifest.value;
      && m.canonical && m.originalPath == cand.path
      && Read(c, other, r, cand.path, m.original, cap).Some?
      && cand.identity == m.original && cand.mtime == m.originalMtime
  }

  /** What an operator could check beforehand: the artifact is not empty, a compression meets no leftovers or
      exactly its own, and a prune's manifest names the artifact's own gz. */
  predicate Workable(c: Codec, a: Action, s: Slot)
  {
    var r := s.source;
    && 0 < a.source.byteSize != MAX_INT64
    && if r.original.Some? then
         var gz := c.compress(r.original.value.bytes);
         && (r.gz == None || r.gz == Some(gz))
         && (r.manifest == None || (r.manifest == Some(ManifestFor(a, Id(c, gz))) && r.gz.Some?))
       else r.manifest.Some? && r.manifest.value.compressedPath == GzPath(a.path)
  }

  /** The bytes and compressed form behind an inventoried slot. */
  function OriginFrom(c: Codec, other: map<Path, Bytes>, a: Action, s: Slot): Origin
  {
    var r := s.source;
    if r.original.Some? then
      var b := r.original.value.bytes;
      Origin(b, c.compress(b), ManifestFor(a, Id(c, c.compress(b))))
    else if r.gz.Some? && r.manifest.Some? && c.decompress(r.gz.value).Some? then
      Origin(c.decompress(r.gz.value).value, r.gz.value, r.manifest.value)
    else Origin([], [], ManifestFor(a, a.source))
  }

  /** The slot an action is planned for has not been touched by the operation. */
  predicate PlannedFor(c: Codec, other: map<Path, Bytes>, p: Policy, at: Time, s: Slot, cand: Candidate, a: Action)
  {
    && Inventoried(c, other, p.decompressionCapBytes, s, cand) && s.quarantine == EMPTY
    && a == Classify(p, at, cand) && IsMutating(a)
  }

  lemma WorkableIsSound(c: Codec, other: map<Path, Bytes>, p: Policy, at: Time, s: Slot, cand: Candidate, a: Action)
    requires Faithful(c) && PlannedFor(c, other, p, at, s, cand, a) && Workable(c, a, s)
    ensures Sound(c, a, s, OriginFrom(c, other, a, s))
  {
    if s.source.original.Some? {
      var b := s.source.original.value.bytes;
      assert c.decompress(c.compress(b)) == Some(b);
    }
  }

  /** Running an action to its end and having the recovery check accept the result. */
  predicate Completes(c: Codec, other: map<Path, Bytes>, a: Action, s: Slot)
  {
    ActionDone(c, other, a, s) && Reconciles(c, AppliedStage(a.kind), a, After(c, other, a, s))
  }

  /** An inventoried artifact completes its planned action and is then accepted on recovery if and only if it is
      workable; everything else the planner admits is either refused at once or gets stuck later. */
  lemma CompletesExactly(c: Codec, other: map<Path, Bytes>, p: Policy, at: Time, s: Slot, cand: Candidate, a: Action)
    requires Faithful(c) && CollisionFree(c) && PlannedFor(c, other, p, at, s, cand, a)
    ensures Completes(c, other, a, s) <==> Workable(c, a, s)
  {
    if Workable(c, a, s) {
      WorkableIsSound(c, other, p, at, s, cand, a);
      var o := OriginFrom(c, other, a, s);
      if a.kind == Compress {
        CompressionResumes(c, other, a, o, s, Unlimited);
      } else {
        PruneResumes(c, other, a, o, s, Unlimited);
      }
    } else if a.kind == Compress {
      UnworkableCompression(c, other, a, s);
    } else {
      UnworkablePrune(c, other, a, s);
    }
  }

  lemma UnworkableCompression(c: Codec, other: map<Path, Bytes>, a: Action, s: Slot)
    requires CollisionFree(c) && a.kind == Compress && !Workable(c, a, s) && s.quarantine == EMPTY
    requires s.source.original.Some?
    requires a.source == Id(c, s.source.original.value.bytes)
             && a.compressed == Some(Id(c, c.compress(s.source.original.value.bytes)))
    ensures !Completes(c, other, a, s)
  {
    var r := s.source;
    var b := r.original.value.bytes;
    var gz := c.compress(b);
    if r.gz.Some? && r.gz.value != gz {
      assert c.digest(r.gz.value) != c.digest(gz);
    }
  }

  lemma UnworkablePrune(c: Codec, other: map<Path, Bytes>, a: Action, s: Slot)
    requires a.kind == Prune && !Workable(c, a, s) && s.quarantine == EMPTY && a.representation == Compressed
    requires s.source.original.None? && s.source.manifest.Some? && a.source.byteSize >= 0
    ensures !Completes(c, other, a, s)
  {
  }

  /** A zero-byte artifact is admitted for compression but never completes it: the original is removed, then the
      read-back under a cap of zero refuses, now and on every further attempt. */
  lemma EmptyArtifactSticks(c: Codec, other: map<Path, Bytes>, a: Action)
    requires Faithful(c) && a.kind == Compress && a.source == Id(c, []) && a.compressed == Some(Id(c, c.compress([])))
    ensures var s := Slot(Rep(Some(Plain([], a.modifiedAt)), None, None), EMPTY);
            var r := ApplyCompression(c, other, a, s, Unlimited);
            && r.status == Failed && r.slot.source.original.None?
            && forall f :: ApplyCompression(c, other, a, r.slot, f) == Outcome(r.slot, f, Failed)
  {
  }

  /** What an action needs to succeed once: an artifact that is not empty and, for a compression, no leftovers or a
      complete leftover pair that reads back as the original. Unlike a workable one, the leftover manifest may carry
      another modification time, and a pruned artifact's manifest may name a gz elsewhere. */
  predicate Doable(c: Codec, a: Action, s: Slot)
  {
    var r := s.source;
    && a.source.byteSize > 0
    && (r.original.Some? ==>
          var gz := c.compress(r.original.value.bytes);
          && (r.gz == None || r.gz == Some(gz))
          && (r.manifest.Some? ==>
                r.gz.Some? && r.manifest.value == ManifestFor(a,
                    Id(c, gz)).(originalMtime := r.manifest.value.originalMtime)))
  }

  lemma DoableCompression(c: Codec, other: map<Path, Bytes>, a: Action, s: Slot)
    requires Faithful(c) && CollisionFree(c) && a.kind == Compress && s.source.original.Some?
    requires s.source.original.value.mtime == a.modifiedAt
    requires a.source == Id(c, s.source.original.value.bytes)
    requires a.compressed == Some(Id(c, c.compress(s.source.original.value.bytes)))
    ensures ActionDone(c, other, a, s) <==> Doable(c, a, s)
  {
    var r := s.source;
    var b := r.original.value.bytes;
    var gz := c.compress(b);
    assert c.decompress(gz) == Some(b);
    if r.gz.Some? && r.gz.value != gz {
      assert c.digest(r.gz.value) != c.digest(gz);
    }
  }

  lemma DoablePrune(c: Codec, other: map<Path, Bytes>, p: Policy, at: Time, s: Slot, cand: Candidate, a: Action)
    requires PlannedFor(c, other, p, at, s, cand, a) && a.kind == Prune
    ensures ActionDone(c, other, a, s) <==> Doable(c, a, s)
  {
    var m := s.source.manifest.value;
    assert Read(c, other, s.source, a.path, a.source, p.decompressionCapBytes).Some?;
    assert a.source.byteSize > 0 ==> Read(c, other, s.source, a.path, a.source, a.source.byteSize).Some?;
  }

  /** A planned action on an inventoried artifact succeeds if and only if it is doable. */
  lemma DoableExactly(c: Codec, other: map<Path, Bytes>, p: Policy, at: Time, s: Slot, cand: Candidate, a: Action)
    requires Faithful(c) && CollisionFree(c) && PlannedFor(c, other, p, at, s, cand, a)
    ensures ActionDone(c, other, a, s) <==> Doable(c, a, s)
    ensures Workable(c, a, s) ==> Doable(c, a, s)
  {
    if a.kind == Compress {
      DoableCompression(c, other, a, s);
    } else {
      DoablePrune(c, other, p, at, s, cand, a);
    }
  }

  /** Succeeding once is less than being resumable: a nonempty pruned artifact whose manifest names a gz elsewhere is
      moved to quarantine without complaint, and recovery then refuses it until the quarantine is gone. */
  lemma ElsewhereSucceedsOnce(c: Codec, other: map<Path, Bytes>, p: Policy, at: Time, s: Slot, cand: Candidate,
      a: Action)
    requires Faithful(c) && CollisionFree(c) && PlannedFor(c, other, p, at, s, cand, a) && a.kind == Prune
    requires a.source.byteSize > 0 && s.source.manifest.value.compressedPath != GzPath(a.path)
    ensures ActionDone(c, other, a, s) && !Workable(c, a, s)
    ensures !Reconciles(c, PruneApplied, a, After(c, other, a, s))
  {
    DoableExactly(c, other, p, at, s, cand, a);
    CompletesExactly(c, other, p, at, s, cand, a);
  }

  // ------------------------------------------------- from PlanGC to ApplyGC

  /** The candidates are what inventory reads off `w`, which no operation has touched yet. */
  predicate InventoryOf(c: Codec, cap: int, w: World, cs: seq<Candidate>)
  {
    && Blank(w)
    && forall i :: 0 <= i < |cs| ==>
         Inventoried(c, w.other, cap, SlotAt(w, cs[i].path), cs[i]) && SlotAt(w, cs[i].path).quarantine == EMPTY
  }

  /** A plan PlanGC makes of what inventory reads off the disk, with digests and compression as assumed. */
  ghost predicate Collection(h: Hasher, input: PlanInput, cs: seq<Candidate>, plan: Plan, c: Codec, w: World)
  {
    && Faithful(c) && CollisionFree(c) && PlannedFrom(h, input, cs, plan)
    && InventoryOf(c, input.policy.decompressionCapBytes, w, cs)
  }

  /** The candidate behind a mutating action. */
  lemma CandidateOf(h: Hasher, input: PlanInput, cs: seq<Candidate>, plan: Plan, c: Codec, w: World, a: Action)
    returns (cand: Candidate)
    requires Collection(h, input, cs, plan, c, w) && a in plan.actions && IsMutating(a)
    ensures PlannedFor(c, w.other, input.policy, input.frozenAt, SlotAt(w, a.path), cand, a)
  {
    var k :| 0 <= k < |plan.actions| && plan.actions[k] == a;
    assert Emits(input.policy, input.frozenAt, cs[k], plan.actions[k]);
    cand := cs[k];
  }

  // -------------------------------------------------------------------- no loss

  /** The bytes an artifact stands for. */
  function LogicalBytes(c: Codec, other: map<Path, Bytes>, r: Rep, path: Path): Bytes
  {
    if r.original.Some? then r.original.value.bytes
    else if r.manifest.None? then []
    else
      var gz := NamedGz(other, r, path, r.manifest.value.compressedPath);
      if gz.Some? && c.decompress(gz.value).Some? then c.decompress(gz.value).value else []
  }

  function StockOf(c: Codec, plan: Plan, w: World): seq<Bytes>
  {
    var acts := Mutating(plan.actions);
    seq(|acts|, i requires 0 <= i < |acts| => LogicalBytes(c, w.other, SlotAt(w, acts[i].path).source, acts[i].path))
  }

  lemma InventoriedCarries(c: Codec, other: map<Path, Bytes>, p: Policy, at: Time, s: Slot, cand: Candidate, a: Action)
    requires PlannedFor(c, other, p, at, s, cand, a)
    ensures Carries(c, other, a, s, LogicalBytes(c, other, s.source, a.path))
    ensures Id(c, LogicalBytes(c, other, s.source, a.path)) == a.source
  {
    if s.source.original.None? {
      var m := s.source.manifest.value;
      assert Read(c, other, s.source, a.path, m.original, p.decompressionCapBytes).Some?;
    }
  }

  lemma InventoryStocks(h: Hasher, input: PlanInput, cs: seq<Candidate>, plan: Plan, c: Codec, w: World)
    requires Collection(h, input, cs, plan, c, w)
    ensures Stocked(c, plan, w, StockOf(c, plan, w))
  {
    var acts := Mutating(plan.actions);
    MutatingMembers(plan.actions);
    forall i | 0 <= i < |acts|
      ensures Carries(c, w.other, acts[i], SlotAt(w, acts[i].path), StockOf(c, plan, w)[i])
    {
      assert acts[i] in acts;
      var cand := CandidateOf(h, input, cs, plan, c, w, acts[i]);
      InventoriedCarries(c, w.other, input.policy, input.frozenAt, SlotAt(w, acts[i].path), cand, acts[i]);
    }
  }

  lemma PruneRequiresExport(h: Hasher, input: PlanInput, cs: seq<Candidate>, plan: Plan, a: Action)
    requires PlannedFrom(h, input, cs, plan) && a in plan.actions && a.kind == Prune
    ensures plan.requiredExport
  {
    MutatingCount(plan.actions);
  }

  /** Plan, then apply under any crashes, failures and cancellations, on any disk the planner accepts: the bytes of
      every planned artifact can be rebuilt, unless it is pruned, `completed` has been recorded with every action
      listed, and an export was verified before. */
  lemma CollectionLosesNothing(h: Hasher, input: PlanInput, cs: seq<Candidate>, plan: Plan, c: Codec, w: World,
                               envs: seq<Env>, i: nat)
    requires Collection(h, input, cs, plan, c, w) && i < |Mutating(plan.actions)|
    ensures var a, w' := Mutating(plan.actions)[i], Runs(h, c, envs, plan, w);
            || Rebuildable(c, w'.other, SlotAt(w', a.path), StockOf(c, plan, w)[i])
            || (a.kind == Prune && RemovalAllowed(plan, w') && ExportedBefore(w'))
  {
    InventoryStocks(h, input, cs, plan, c, w);
    NoLoss(h, c, plan, w, StockOf(c, plan, w), envs, i);
    MutatingMembers(plan.actions);
    assert Mutating(plan.actions)[i] in Mutating(plan.actions);
    if Mutating(plan.actions)[i].kind == Prune {
      PruneRequiresExport(h, input, cs, plan, Mutating(plan.actions)[i]);
    }
  }

  // ------------------------------------------------------------ the first invocation

  predicate AllDoable(c: Codec, plan: Plan, w: World)
  {
    forall a :: a in plan.actions && IsMutating(a) ==> Doable(c, a, SlotAt(w, a.path))
  }

  predicate AllWorkable(c: Codec, plan: Plan, w: World)
  {
    forall a :: a in plan.actions && IsMutating(a) ==> Workable(c, a, SlotAt(w, a.path))
  }

  lemma DoableHere(h: Hasher, input: PlanInput, cs: seq<Candidate>, plan: Plan, c: Codec, w: World, a: Action)
    requires Collection(h, input, cs, plan, c, w) && a in plan.actions && IsMutating(a)
    ensures ActionDone(c, w.other, a, SlotAt(w, a.path)) <==> Doable(c, a, SlotAt(w, a.path))
    ensures Workable(c, a, SlotAt(w, a.path)) ==> Doable(c, a, SlotAt(w, a.path))
    ensures Completes(c, w.other, a, SlotAt(w, a.path)) <==> Workable(c, a, SlotAt(w, a.path))
  {
    var cand := CandidateOf(h, input, cs, plan, c, w, a);
    DoableExactly(c, w.other, input.policy, input.frozenAt, SlotAt(w, a.path), cand, a);
    CompletesExactly(c, w.other, input.policy, input.frozenAt, SlotAt(w, a.path), cand, a);
  }

  lemma DoableRest(h: Hasher, input: PlanInput, cs: seq<Candidate>, plan: Plan, c: Codec, w: World)
    requires Collection(h, input, cs, plan, c, w)
    ensures RestDone(Unguarded(c, plan, w), w, 0) <==> AllDoable(c, plan, w)
  {
    var g := Unguarded(c, plan, w);
    MutatingMembers(plan.actions);
    forall a | a in plan.actions && IsMutating(a)
      ensures ActionDone(c, w.other, a, SlotAt(w, a.path)) <==> Doable(c, a, SlotAt(w, a.path))
      ensures exists i :: 0 <= i < |g.acts| && g.acts[i] == a
    {
      DoableHere(h, input, cs, plan, c, w, a);
      assert a in g.acts;
    }
    forall i | 0 <= i < |g.acts|
      ensures g.acts[i] in plan.actions && IsMutating(g.acts[i])
    {
      assert g.acts[i] in g.acts;
    }
  }

  /** On any disk the planner accepts, an undisturbed first invocation finishes if and only if every planned artifact
      is doable; otherwise it is refused. */
  lemma FirstRunExactly(h: Hasher, input: PlanInput, cs: seq<Candidate>, plan: Plan, c: Codec, w: World, env: Env)
    requires Collection(h, input, cs, plan, c, w) && input.policy.mutationEnabled
    requires Uninterrupted(Mutating(plan.actions), env, w)
    ensures var r := ApplyGC(h, c, env, plan, w);
            if AllDoable(c, plan, w) then Succeeds(r) && |r.world.history| > 0 && Last(r.world.history).stage == Cleaned
            else r.verdict == Refused
  {
    var g := Unguarded(c, plan, w);
    UnguardedOk(h, c, plan, w);
    StartInv(g);
    FinishesExactly(h, g, env, w);
    DoableRest(h, input, cs, plan, c, w);
    ApplyKeeps(h, g, env, w);
    if ApplyGC(h, c, env, plan, w).verdict == Replayed {
      NeverReplaysUnlessCleaned(h, g, env, w);
    }
  }
}
