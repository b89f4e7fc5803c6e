/** One artifact on disk: its representations in the source tree and in the operation's quarantine, how the
    logical bytes are read, and the two mutating actions with their recovery checks
    (internal/artifactretention/compression.go, apply.go:333-488, journal.go:377-476). */
module RetentionDisk {
  import opened Base
  import opened RetentionPlan
  import opened RetentionJournal


  const MAX_INT64 := 0x7fff_ffff_ffff_ffff

  datatype Manifest = Manifest(
    canonical: bool,
    originalPath: Path,
    original: Identity,
    originalMtime: Time,
    compressedPath: Path,
    compressed: Identity)

  datatype Plain = Plain(bytes: Bytes, mtime: Time)

  /** The files `p`, `p.gz` and `p.gz.manifest.json` of one artifact in one directory tree. */
  datatype Rep = Rep(original: Option<Plain>, gz: Option<Bytes>, manifest: Option<Manifest>)

  const EMPTY := Rep(None, None, None)

  datatype Slot = Slot(source: Rep, quarantine: Rep)

  /** gzip and SHA-256, kept uninterpreted. */
  datatype Codec = Codec(compress: Bytes -> Bytes, decompress: Bytes -> Option<Bytes>, digest: Bytes -> string)

  function Id(c: Codec, b: Bytes): Identity
  {
    Identity(c.digest(b), |b|)
  }

  ghost predicate Faithful(c: Codec)
  {
    forall b :: c.decompress(c.compress(b)) == Some(b)
  }

  ghost predicate CollisionFree(c: Codec)
  {
    forall a, b :: c.digest(a) == c.digest(b) ==> a == b
  }

  // ------------------------------------------------------------------ Read

  function GzPath(p: Path): Path
  {
    p + ".gz"
  }

  /** The compressed file a manifest names: normally the artifact's own, otherwise one elsewhere. */
  function NamedGz(other: map<Path, Bytes>, r: Rep, path: Path, name: Path): Option<Bytes>
  {
    if name == GzPath(path) then r.gz else if name in other then Some(other[name]) else None
  }

  /** The bytes of a logical artifact, or None for any refusal. Two representations at once are refused,
      and so is decompression under a cap that is not positive. */
  function Read(c: Codec, other: map<Path, Bytes>, r: Rep, path: Path, expected: Identity, cap: int): Option<Bytes>
  {
    if r.original.Some? then
      var b := r.original.value.bytes;
      if r.manifest.Some? || |b| > cap || Id(c, b) != expected then None else Some(b)
    else if r.manifest.None? then None
    else
      var m := r.manifest.value;
      var gz := NamedGz(other, r, path, m.compressedPath);
      if !m.canonical || m.originalPath != path || m.original != expected then None
      else if gz.None? || Id(c, gz.value) != m.compressed || cap <= 0 then None
      else
        var raw := c.decompress(gz.value);
        if raw.None? || |raw.value| > cap || Id(c, raw.value) != expected then None else raw
  }

  datatype Outcome = Outcome(slot: Slot, fuel: Fuel, status: Status)

  // ----------------------------------------------------------- compression

  function ManifestFor(a: Action, compressed: Identity): Manifest
  {
    Manifest(true, a.path, a.source, a.modifiedAt, GzPath(a.path), compressed)
  }

  function FinishCompression(c: Codec, other: map<Path, Bytes>, a: Action, s: Slot, f: Fuel): Outcome
  {
    Outcome(s, f, if Read(c, other, s.source, a.path, a.source, a.source.byteSize).Some? then Done else Failed)
  }

  function RemoveOriginal(c: Codec, other: map<Path, Bytes>, a: Action, s: Slot, f: Fuel): Outcome
  {
    if Out(f) then Outcome(s, f, Stopped)
    else FinishCompression(c, other, a, s.(source := s.source.(original := None)), Spend(f))
  }

  function WriteManifest(c: Codec, other: map<Path, Bytes>, a: Action, s: Slot, f: Fuel, compressed: Identity): Outcome
  {
    if Out(f) then Outcome(s, f, Stopped)
    else
      var s' := s.(source := s.source.(manifest := Some(ManifestFor(a, compressed))));
      if Read(c, other, s'.source, a.path, a.source, a.source.byteSize).Some? then Outcome(s', Spend(f), Failed)
      else RemoveOriginal(c, other, a, s', Spend(f))
  }

  /** applyCompression: write gz, write manifest, remove the original, each only if not already done. */
  function ApplyCompression(c: Codec, other: map<Path, Bytes>, a: Action, s: Slot, f: Fuel): Outcome
  {
    var r := s.source;
    if r.original.None? then
      if r.manifest.Some? then FinishCompression(c, other, a, s, f) else Outcome(s, f, Failed)
    else
      var b := r.original.value.bytes;
      if Id(c, b) != a.source || r.original.value.mtime != a.modifiedAt then Outcome(s, f, Failed)
      else if r.manifest.Some? then
        var m := r.manifest.value;
        if m.original != a.source || m.compressedPath != GzPath(a.path) || a.compressed != Some(m.compressed)
           || r.gz.None? || Id(c, r.gz.value) != m.compressed
        then Outcome(s, f, Failed)
        else RemoveOriginal(c, other, a, s, f)
      else
        var gz := c.compress(b);
        if a.compressed != Some(Id(c, gz)) then Outcome(s, f, Failed)
        else if r.gz.Some? then
          if r.gz.value != gz then Outcome(s, f, Failed) else WriteManifest(c, other, a, s, f, Id(c, gz))
        else if Out(f) then Outcome(s, f, Stopped)
        else WriteManifest(c, other, a, s.(source := r.(gz := Some(gz))), Spend(f), Id(c, gz))
  }

  // ----------------------------------------------------------------- prune

  function MoveManifest(s: Slot, f: Fuel): Outcome
  {
    if s.source.manifest.Some? then
      if s.quarantine.manifest.Some? then Outcome(s, f, Failed)
      else if Out(f) then Outcome(s, f, Stopped)
      else Outcome(Slot(s.source.(manifest := None), s.quarantine.(manifest := s.source.manifest)), Spend(f), Done)
    else Outcome(s, f, if s.quarantine == EMPTY then Failed else Done)
  }

  function MoveGz(s: Slot, f: Fuel): Outcome
  {
    if s.source.gz.Some? then
      if s.quarantine.gz.Some? then Outcome(s, f, Failed)
      else if Out(f) then Outcome(s, f, Stopped)
      else MoveManifest(Slot(s.source.(gz := None), s.quarantine.(gz := s.source.gz)), Spend(f))
    else MoveManifest(s, f)
  }

  function MoveAll(s: Slot, f: Fuel): Outcome
  {
    if s.source.original.Some? then
      if s.quarantine.original.Some? then Outcome(s, f, Failed)
      else if Out(f) then Outcome(s, f, Stopped)
      else MoveGz(Slot(s.source.(original := None), s.quarantine.(original := s.source.original)), Spend(f))
    else MoveGz(s, f)
  }

  /** applyPrune: rename whatever exists into quarantine, provided the source still reads as planned or a
      previous attempt already moved something. */
  function ApplyPrune(c: Codec, other: map<Path, Bytes>, a: Action, s: Slot, f: Fuel): Outcome
  {
    var r := s.source;
    if Read(c, other, r, a.path, a.source, a.source.byteSize).Some? then
      var mtime := if r.original.Some? then r.original.value.mtime else r.manifest.value.originalMtime;
      if mtime != a.modifiedAt then Outcome(s, f, Failed) else MoveAll(s, f)
    else if s.quarantine == EMPTY then Outcome(s, f, Failed)
    else MoveAll(s, f)
  }

  // -------------------------------------------------------- recovery checks

  predicate CompressedEffectValid(c: Codec, r: Rep, a: Action, comparePlanned: bool)
  {
    && r.manifest.Some? && r.gz.Some?
    && var m := r.manifest.value;
    && m.canonical && m.originalPath == a.path && m.original == a.source && m.originalMtime == a.modifiedAt
    && m.compressedPath == GzPath(a.path)
    && (comparePlanned ==> a.compressed == Some(m.compressed))
    && Id(c, r.gz.value) == m.compressed
    && a.source.byteSize != MAX_INT64
    && c.decompress(r.gz.value).Some? && Id(c, c.decompress(r.gz.value).value) == a.source
  }

  predicate CompressionReconciles(c: Codec, a: Action, s: Slot)
  {
    s.source.original.None? && CompressedEffectValid(c, s.source, a, true)
  }

  predicate PruneReconciles(c: Codec, stage: Stage, a: Action, s: Slot)
  {
    var q := s.quarantine;
    && s.source == EMPTY
    && if q == EMPTY then stage == Completed || stage == Cleaned
       else if q.original.Some? then
         && a.representation == Original && q.gz.None? && q.manifest.None?
         && Id(c, q.original.value.bytes) == a.source && q.original.value.mtime == a.modifiedAt
       else a.representation == Compressed && CompressedEffectValid(c, q, a, false)
  }

  predicate Reconciles(c: Codec, stage: Stage, a: Action, s: Slot)
  {
    if a.kind == Compress then CompressionReconciles(c, a, s) else PruneReconciles(c, stage, a, s)
  }

  // ------------------------------------------------- configurations of a slot

  /** What an artifact is made of: its logical bytes, and the compressed form and manifest that carry them. */
  datatype Origin = Origin(bytes: Bytes, gz: Bytes, manifest: Manifest)

  predicate OriginOf(c: Codec, a: Action, o: Origin)
  {
    && Id(c, o.bytes) == a.source && 0 < |o.bytes| != MAX_INT64
    && c.decompress(o.gz) == Some(o.bytes)
    && o.manifest == ManifestFor(a, Id(c, o.gz))
    && (a.kind == Compress ==> o.gz == c.compress(o.bytes) && a.compressed == Some(Id(c, o.gz)))
    && (a.kind == Prune ==> a.representation == Compressed)
  }

  function OptionOf<T>(present: bool, x: T): Option<T>
  {
    if present then Some(x) else None
  }

  /** The compressed pair and nothing else. */
  function PairOf(o: Origin): Rep
  {
    Rep(None, Some(o.gz), Some(o.manifest))
  }

  /** A compression between its first and last effect: original first, then gz, then manifest, then no original. */
  predicate Compressing(a: Action, o: Origin, s: Slot)
  {
    var r := s.source;
    && s.quarantine == EMPTY
    && (r.original == None || r.original == Some(Plain(o.bytes, a.modifiedAt)))
    && (r.gz == None || r.gz == Some(o.gz))
    && (r.manifest == None || r.manifest == Some(o.manifest))
    && (r.manifest.Some? ==> r.gz.Some?)
    && (r.original.None? ==> r.manifest.Some?)
  }

  /** A prune between its first and last rename: gz moves before the manifest. */
  predicate Pruning(o: Origin, s: Slot)
  {
    || s == Slot(PairOf(o), EMPTY)
    || s == Slot(Rep(None, None, Some(o.manifest)), Rep(None, Some(o.gz), None))
    || s == Slot(EMPTY, PairOf(o))
  }

  /** Resumable: some prefix of the action's effects has happened. */
  predicate InProgress(a: Action, o: Origin, s: Slot)
  {
    if a.kind == Compress then Compressing(a, o, s) else Pruning(o, s)
  }

  /** The slot a sound action starts from: the planned representation, possibly with the exact output of an
      earlier interrupted compression beside it. */
  predicate Sound(c: Codec, a: Action, s: Slot, o: Origin)
  {
    && IsMutating(a) && OriginOf(c, a, o)
    && if a.kind == Compress then Compressing(a, o, s) && s.source.original.Some? else s == Slot(PairOf(o), EMPTY)
  }

  /** All effects done; a pruned pair may since have lost files to quarantine removal. */
  predicate Applied(a: Action, o: Origin, s: Slot, stage: Stage)
  {
    if a.kind == Compress then s == Slot(PairOf(o), EMPTY)
    else if stage == Cleaned then s == Slot(EMPTY, EMPTY)
    else if stage == Completed then s.source == EMPTY && Leftover(o, s.quarantine)
    else s == Slot(EMPTY, PairOf(o))
  }

  predicate Leftover(o: Origin, q: Rep)
  {
    q.original.None? && (q.gz == None || q.gz == Some(o.gz)) && (q.manifest == None || q.manifest == Some(o.manifest))
  }

  predicate WholeOrGone(a: Action, s: Slot)
  {
    a.kind == Prune ==> (s.quarantine.gz.Some? <==> s.quarantine.manifest.Some?)
  }

  /** The artifact's logical bytes can be rebuilt from files on disk. */
  predicate Recoverable(c: Codec, s: Slot, b: Bytes)
  {
    || RepHolds(c, s.source, b) || RepHolds(c, s.quarantine, b)
  }

  predicate RepHolds(c: Codec, r: Rep, b: Bytes)
  {
    (r.original.Some? && r.original.value.bytes == b) || (r.gz.Some? && c.decompress(r.gz.value) == Some(b))
  }

  // ------------------------------------------------------- action-level facts

  lemma ReadPair(c: Codec, other: map<Path, Bytes>, a: Action, o: Origin)
    requires OriginOf(c, a, o)
    ensures Read(c, other, PairOf(o), a.path, a.source, a.source.byteSize) == Some(o.bytes)
  {
  }

  /** Wherever it stops, a compression stays resumable; it never fails, and done means done. */
  lemma CompressionResumes(c: Codec, other: map<Path, Bytes>, a: Action, o: Origin, s: Slot, f: Fuel)
    requires a.kind == Compress && OriginOf(c, a, o) && Compressing(a, o, s)
    ensures var r := ApplyCompression(c, other, a, s, f);
            && Compressing(a, o, r.slot) && r.status != Failed
            && (r.status == Done ==> r.slot == Slot(PairOf(o), EMPTY))
            && (f.Unlimited? ==> r.status == Done && r.fuel.Unlimited?)
  {
    ReadPair(c, other, a, o);
  }

  lemma PruneResumes(c: Codec, other: map<Path, Bytes>, a: Action, o: Origin, s: Slot, f: Fuel)
    requires a.kind == Prune && OriginOf(c, a, o) && Pruning(o, s)
    ensures var r := ApplyPrune(c, other, a, s, f);
            && Pruning(o, r.slot) && r.status != Failed
            && (r.status == Done ==> r.slot == Slot(EMPTY, PairOf(o)))
            && (f.Unlimited? ==> r.status == Done && r.fuel.Unlimited?)
  {
    ReadPair(c, other, a, o);
  }

  /** At every stage short of `completed` the recovery check accepts a finished action. After that it accepts
      exactly the quarantines in which the pair is whole or wholly gone. */
  lemma AppliedReconciles(c: Codec, a: Action, o: Origin, s: Slot, stage: Stage)
    requires IsMutating(a) && OriginOf(c, a, o) && Applied(a, o, s, stage)
    ensures Reconciles(c, stage, a, s) <==> WholeOrGone(a, s)
  {
  }

  /** Every configuration of an unfinished action, and a finished one until quarantine removal, holds the bytes. */
  lemma ProgressRecoverable(c: Codec, a: Action, o: Origin, s: Slot)
    requires IsMutating(a) && OriginOf(c, a, o)
    requires InProgress(a, o, s) || (exists stage :: stage != Completed && stage != Cleaned && Applied(a, o, s, stage))
    ensures Recoverable(c, s, o.bytes)
  {
  }

  // ----------------------------------------------- on any disk, whatever is planned

  /** What reading a logical artifact returns has the expected identity and fits the cap; it comes from the original
      alone, or, with no original there, from the gz a canonical manifest for this path and identity names. */
  lemma ReadMeans(c: Codec, other: map<Path, Bytes>, r: Rep, path: Path, expected: Identity, cap: int)
    requires Read(c, other, r, path, expected, cap).Some?
    ensures var b := Read(c, other, r, path, expected, cap).value;
            && c.digest(b) == expected.sha256 && |b| == expected.byteSize && |b| <= cap
            && (r.original.Some? ==> r.manifest.None? && r.original.value.bytes == b)
            && (r.original.None? ==>
                  && cap > 0 && r.manifest.Some?
                  && var m := r.manifest.value;
                  && m.canonical && m.originalPath == path && m.original == expected
                  && (exists z :: NamedGz(other, r, path, m.compressedPath) == Some(z)
                        && c.digest(z) == m.compressed.sha256 && |z| == m.compressed.byteSize
                            && c.decompress(z) == Some(b)))
  {
  }

  /** What a compression may do to an artifact: nothing outside the source tree, no file overwritten, and the original
      removed only if it is exactly the planned one and a gz of the planned compressed identity with its manifest is
      there to replace it. */
  predicate CompressionFrame(c: Codec, a: Action, s: Slot, s': Slot)
  {
    && s'.quarantine == s.quarantine
    && (s.source.gz.Some? ==> s'.source.gz == s.source.gz)
        && (s.source.manifest.Some? ==> s'.source.manifest == s.source.manifest)
    && (s'.source.original == s.source.original
        || (&& s.source.original.Some? && s'.source.original.None?
            && c.digest(s.source.original.value.bytes) == a.source.sha256
            && |s.source.original.value.bytes| == a.source.byteSize && s.source.original.value.mtime == a.modifiedAt
            && s'.source.gz.Some? && a.compressed == Some(Identity(c.digest(s'.source.gz.value), |s'.source.gz.value|))
            && s'.source.manifest.Some? && s'.source.manifest.value.original == a.source
            && s'.source.manifest.value.compressedPath == a.path + ".gz"))
    && (s.source.gz.None? && s'.source.gz.Some? ==>
          s.source.original.Some? && s'.source.gz.value == c.compress(s.source.original.value.bytes))
  }

  /** On any disk and wherever it stops. A finished compression reads back as planned. */
  lemma CompressionFramed(c: Codec, other: map<Path, Bytes>, a: Action, s: Slot, f: Fuel)
    ensures var r := ApplyCompression(c, other, a, s, f);
            && CompressionFrame(c, a, s, r.slot)
            && (r.status == Done ==>
                  r.slot.source.original.None?
                      && Read(c, other, r.slot.source, a.path, a.source, a.source.byteSize).Some?)
  {
  }

  /** What a prune may do to an artifact: every file is where it was or, with the same content, in quarantine at a place
      that was free. */
  predicate PruneFrame(s: Slot, s': Slot)
  {
    && ((s'.source.original == s.source.original && s'.quarantine.original == s.quarantine.original)
        || (s'.source.original.None? && s.quarantine.original.None? && s'.quarantine.original == s.source.original))
    && ((s'.source.gz == s.source.gz && s'.quarantine.gz == s.quarantine.gz)
        || (s'.source.gz.None? && s.quarantine.gz.None? && s'.quarantine.gz == s.source.gz))
    && ((s'.source.manifest == s.source.manifest && s'.quarantine.manifest == s.quarantine.manifest)
        || (s'.source.manifest.None? && s.quarantine.manifest.None? && s'.quarantine.manifest == s.source.manifest))
  }

  /** On any disk and wherever it stops. A prune that finds an empty quarantine moves something only if the artifact
      reads as the planned bytes with the planned modification time; a finished one leaves nothing in the source tree.
      */
  lemma PruneFramed(c: Codec, other: map<Path, Bytes>, a: Action, s: Slot, f: Fuel)
    ensures var r := ApplyPrune(c, other, a, s, f);
            && PruneFrame(s, r.slot)
            && (s.quarantine == EMPTY && r.slot != s ==>
                  && Read(c, other, s.source, a.path, a.source, a.source.byteSize).Some?
                  && a.modifiedAt == (if s.source.original.Some? then s.source.original.value.mtime
                                      else s.source.manifest.value.originalMtime))
            && (r.status == Done ==> r.slot.source == EMPTY && r.slot.quarantine != EMPTY)
  {
    if s.source.original.None? && Read(c, other, s.source, a.path, a.source, a.source.byteSize).Some? {
      ReadMeans(c, other, s.source, a.path, a.source, a.source.byteSize);
    }
  }

  /** The condition on the quarantine is needed: once anything is in quarantine, a resumed prune moves whatever original
      it finds, even one that was never planned. */
  lemma PruneTakesStray(c: Codec, other: map<Path, Bytes>, a: Action, s: Slot, stray: Plain)
    requires s.source == Rep(Some(stray), None, s.source.manifest) && s.source.manifest.Some?
    requires s.quarantine.gz.Some? && s.quarantine.original.None? && s.quarantine.manifest.None?
    ensures var r := ApplyPrune(c, other, a, s, Unlimited);
            r.status == Done && r.slot.source == EMPTY && r.slot.quarantine.original == Some(stray)
  {
  }

  /** The artifact reads as planned, with the planned modification time. */
  predicate ReadsPlanned(c: Codec, other: map<Path, Bytes>, a: Action, s: Slot)
  {
    && Read(c, other, s.source, a.path, a.source, a.source.byteSize).Some?
    && (s.source.original.Some? ==> s.source.original.value.mtime == a.modifiedAt)
    && (s.source.original.None? && s.source.manifest.Some? ==> s.source.manifest.value.originalMtime == a.modifiedAt)
  }

  /** The first of original, gz and manifest that is in the source tree has a free place in quarantine. */
  predicate NextMovable(s: Slot)
  {
    || (s.source.original.Some? && s.quarantine.original.None?)
    || (s.source.original.None? && s.source.gz.Some? && s.quarantine.gz.None?)
    || (s.source.original.None? && s.source.gz.None? && s.source.manifest.Some? && s.quarantine.manifest.None?)
  }

  /** Exactly when a prune moves a file: it has a step and a free place for it, and the artifact reads as planned or,
      not reading as what was planned at all, something of it is already in quarantine. */
  lemma PruneMovesExactly(c: Codec, other: map<Path, Bytes>, a: Action, s: Slot, f: Fuel)
    ensures ApplyPrune(c, other, a, s, f).slot != s <==>
              && !Out(f) && NextMovable(s)
              && (|| ReadsPlanned(c, other, a, s)
                  || (s.quarantine != EMPTY
                      && Read(c, other, s.source, a.path, a.source, a.source.byteSize).None?))
  {
    if Read(c, other, s.source, a.path, a.source, a.source.byteSize).Some? {
      ReadMeans(c, other, s.source, a.path, a.source, a.source.byteSize);
    }
  }

  /** The pair in `r` is the compressed form of the planned artifact: a canonical manifest for it, with its modification
      time, naming the gz beside it, which decompresses to the planned identity. */
  predicate HoldsPlanned(c: Codec, r: Rep, a: Action)
  {
    && r.gz.Some? && r.manifest.Some? && r.manifest.value.canonical
    && r.manifest.value.originalPath == a.path && r.manifest.value.original == a.source
    && r.manifest.value.originalMtime == a.modifiedAt && r.manifest.value.compressedPath == a.path + ".gz"
    && r.manifest.value.compressed == Identity(c.digest(r.gz.value), |r.gz.value|)
    && c.decompress(r.gz.value).Some?
    && c.digest(c.decompress(r.gz.value).value) == a.source.sha256
        && |c.decompress(r.gz.value).value| == a.source.byteSize
  }

  /** What recovery accepts, on any disk: a compressed artifact is its planned pair with no original; a pruned one has
      left the source tree and is either in quarantine, whole and as planned, or gone after `completed`. */
  lemma ReconciledMeans(c: Codec, stage: Stage, a: Action, s: Slot)
    requires Reconciles(c, stage, a, s)
    ensures a.kind == Compress ==>
              && s.source.original.None? && HoldsPlanned(c, s.source, a)
                  && a.compressed == Some(s.source.manifest.value.compressed)
    ensures a.kind != Compress ==>
              && s.source.original.None? && s.source.gz.None? && s.source.manifest.None?
              && (|| (s.quarantine == EMPTY && (stage == Completed || stage == Cleaned))
                  || (s.quarantine.original.None? && HoldsPlanned(c, s.quarantine, a) && a.representation == Compressed)
                  || (&& s.quarantine.original.Some? && s.quarantine.gz.None? && s.quarantine.manifest.None?
                      && a.representation == Original && s.quarantine.original.value.mtime == a.modifiedAt
                      && Identity(c.digest(s.quarantine.original.value.bytes),
                          |s.quarantine.original.value.bytes|) == a.source))
  {
  }
}
