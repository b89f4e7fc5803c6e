/** Audit findings and the audit dossier input: validation, canonical form, and its independence of order
    (internal/audit/types.go:377-439, 480-627). */
module Findings {
  import opened Base
  import opened Ordering
  import opened FindingIds

  datatype Citation = Citation(path: string, artifactId: string, sha256: string, startLine: int, endLine: int)

  datatype SourceFile = SourceFile(artifactId: string, sha256: string, lineCount: int, symbols: seq<string>)

  datatype Significance = Blocking | NonBlocking | UnknownSignificance

  datatype ImpactKind = Violated | AtRisk | Unverified | UnknownImpact

  datatype Impact = Impact(criterionId: string, kind: ImpactKind, detail: string)

  datatype Finding = Finding(
    id: string,
    significance: Significance,
    summary: string,
    correction: string,
    evidence: seq<Citation>,
    affectedFiles: seq<string>,
    affectedSymbols: seq<string>,
    impacts: seq<Impact>)

  // ----------------------------------------------------------------- validation

  /** A citation names a known file by exactly that file's artifact and digest, and lines within it. */
  predicate CitationValid(c: Citation, files: map<string, SourceFile>)
  {
    && c.path in files && c.artifactId != "" && c.artifactId == files[c.path].artifactId
        && c.sha256 == files[c.path].sha256
    && 0 < c.startLine <= c.endLine <= files[c.path].lineCount
  }

  predicate Cited(f: Finding, path: string)
  {
    exists i :: 0 <= i < |f.evidence| && f.evidence[i].path == path
  }

  predicate SymbolCited(f: Finding, files: map<string, SourceFile>, symbol: string)
  {
    exists i :: 0 <= i < |f.evidence| && f.evidence[i].path in files && symbol in files[f.evidence[i].path].symbols
  }

  function Self(s: string): string
  {
    s
  }

  function CriterionOf(i: Impact): string
  {
    i.criterionId
  }

  /** Text without surrounding space, and not too much of it. */
  predicate Normalized(s: string)
  {
    s != "" && Trimmed(s) && |s| <= 65536
  }

  predicate NamesValid(names: seq<string>)
  {
    (forall i :: 0 <= i < |names| ==> names[i] != "" && Trimmed(names[i])) && KeyUnique(Self, names)
  }

  predicate ImpactsValid(impacts: seq<Impact>, criteria: set<string>)
  {
    && (forall i :: 0 <= i < |impacts| ==>
          impacts[i].criterionId in criteria && impacts[i].kind != UnknownImpact && Normalized(impacts[i].detail))
    && KeyUnique(CriterionOf, impacts)
  }

  predicate CitationsValid(f: Finding, files: map<string, SourceFile>)
  {
    forall i :: 0 <= i < |f.evidence| ==> CitationValid(f.evidence[i], files)
  }

  ghost predicate FindingValid(f: Finding, files: map<string, SourceFile>, criteria: set<string>)
  {
    && InLanguage(f.id) && f.significance != UnknownSignificance && Normalized(f.summary) && Normalized(f.correction)
    && |f.evidence| > 0 && |f.affectedFiles| > 0 && |f.impacts| > 0
    && CitationsValid(f, files)
    && NamesValid(f.affectedFiles) && (forall i :: 0 <= i < |f.affectedFiles| ==> Cited(f, f.affectedFiles[i]))
    && NamesValid(f.affectedSymbols)
    && (forall i :: 0 <= i < |f.affectedSymbols| ==> SymbolCited(f, files, f.affectedSymbols[i]))
    && ImpactsValid(f.impacts, criteria)
  }

  /** No surrounding space and no more than the limit. */
  predicate TextReads(s: string)
  {
    1 <= |s| <= 65536 && !Space(s[0]) && !Space(s[|s| - 1])
  }

  predicate NamesRead(names: seq<string>)
  {
    && (forall i :: 0 <= i < |names| ==> |names[i]| > 0 && !Space(names[i][0]) && !Space(names[i][|names[i]| - 1]))
    && (forall i, j :: 0 <= i < j < |names| ==> names[i] != names[j])
  }

  /** A finding in its fields: it cites known files by their own artifact and digest, at lines they have; every affected
      file is cited and every affected symbol is one of a cited file; every impact is on a known criterion, once. */
  ghost predicate FindingReads(f: Finding, files: map<string, SourceFile>, criteria: set<string>)
  {
    && Hyphenated(f.id) && (f.significance == Blocking || f.significance == NonBlocking)
    && TextReads(f.summary) && TextReads(f.correction)
    && f.evidence != [] && f.affectedFiles != [] && f.impacts != []
    && (forall i :: 0 <= i < |f.evidence| ==>
          && f.evidence[i].path in files && f.evidence[i].artifactId != ""
          && f.evidence[i].artifactId == files[f.evidence[i].path].artifactId
          && f.evidence[i].sha256 == files[f.evidence[i].path].sha256
          && 1 <= f.evidence[i].startLine && f.evidence[i].startLine <= f.evidence[i].endLine
          && f.evidence[i].endLine <= files[f.evidence[i].path].lineCount)
    && NamesRead(f.affectedFiles) && NamesRead(f.affectedSymbols)
    && (forall i :: 0 <= i < |f.affectedFiles| ==> Cited(f, f.affectedFiles[i]))
    && (forall i :: 0 <= i < |f.affectedSymbols| ==> SymbolCited(f, files, f.affectedSymbols[i]))
    && (forall i :: 0 <= i < |f.impacts| ==>
          && f.impacts[i].criterionId in criteria && f.impacts[i].kind in {Violated, AtRisk, Unverified}
          && TextReads(f.impacts[i].detail))
    && (forall i, j :: 0 <= i < j < |f.impacts| ==> f.impacts[i].criterionId != f.impacts[j].criterionId)
  }

  lemma NamesExactly(names: seq<string>)
    ensures NamesValid(names) <==> NamesRead(names)
  {
    assert KeyUnique(Self, names) <==> forall i, j :: 0 <= i < j < |names| ==> names[i] != names[j] by {
      assert forall s :: Self(s) == s;
    }
  }

  lemma ImpactsExactly(impacts: seq<Impact>, criteria: set<string>)
    ensures ImpactsValid(impacts, criteria) <==>
            && (forall i :: 0 <= i < |impacts| ==>
                  && impacts[i].criterionId in criteria && impacts[i].kind in {Violated, AtRisk, Unverified}
                  && TextReads(impacts[i].detail))
            && (forall i, j :: 0 <= i < j < |impacts| ==> impacts[i].criterionId != impacts[j].criterionId)
  {
    assert KeyUnique(CriterionOf, impacts) <==>
           forall i, j :: 0 <= i < j < |impacts| ==> impacts[i].criterionId != impacts[j].criterionId by {
      assert forall i :: CriterionOf(i) == i.criterionId;
    }
  }

  lemma FindingExactly(f: Finding, files: map<string, SourceFile>, criteria: set<string>)
    ensures FindingValid(f, files, criteria) <==> FindingReads(f, files, criteria)
  {
    ScannedIffMatches(f.id);
    HyphenatedExactly(f.id);
    NamesExactly(f.affectedFiles);
    NamesExactly(f.affectedSymbols);
    ImpactsExactly(f.impacts, criteria);
  }

  /** The first loop: check the citations, collecting the files and symbols they cover. */
  method CheckCitations(f: Finding, files: map<string, SourceFile>)
      returns (ok: bool, cited: set<string>, symbols: set<string>)
    ensures ok <==> CitationsValid(f, files)
    ensures ok ==> (forall p :: p in cited <==> Cited(f, p)) && (forall s :: s in symbols <==> SymbolCited(f, files, s))
  {
    cited, symbols := {}, {};
    for i := 0 to |f.evidence|
      invariant forall k :: 0 <= k < i ==> CitationValid(f.evidence[k], files)
      invariant forall p :: p in cited <==> exists k :: 0 <= k < i && f.evidence[k].path == p
      invariant forall s :: s in symbols <==> exists k ::
                0 <= k < i && f.evidence[k].path in files && s in files[f.evidence[k].path].symbols
    {
      var c := f.evidence[i];
      if !CitationValid(c, files) {
        return false, cited, symbols;
      }
      cited := cited + {c.path};
      symbols := symbols + (set s | s in files[c.path].symbols);
    }
    return true, cited, symbols;
  }

  method AllWithin(values: seq<string>, allowed: set<string>) returns (ok: bool)
    ensures ok <==> forall i :: 0 <= i < |values| ==> values[i] in allowed
  {
    for i := 0 to |values|
      invariant forall k :: 0 <= k < i ==> values[k] in allowed
    {
      if values[i] !in allowed {
        return false;
      }
    }
    return true;
  }

  /** validateUniqueStrings. */
  method CheckNames(names: seq<string>) returns (ok: bool)
    ensures ok <==> NamesValid(names)
  {
    for i := 0 to |names|
      invariant forall k :: 0 <= k < i ==> names[k] != "" && Trimmed(names[k])
    {
      if names[i] == "" || !Trimmed(names[i]) {
        return false;
      }
    }
    ok := CheckUnique(Self, names);
  }

  /** The last loop: known criteria, each once, with a known kind of impact. */
  method CheckImpacts(impacts: seq<Impact>, criteria: set<string>) returns (ok: bool)
    ensures ok <==> ImpactsValid(impacts, criteria)
  {
    for i := 0 to |impacts|
      invariant forall k :: 0 <= k < i ==>
        impacts[k].criterionId in criteria && impacts[k].kind != UnknownImpact && Normalized(impacts[k].detail)
    {
      if impacts[i].criterionId !in criteria || impacts[i].kind == UnknownImpact || !Normalized(impacts[i].detail) {
        return false;
      }
    }
    ok := CheckUnique(CriterionOf, impacts);
  }

  /** validateFinding. */
  method ValidateFinding(f: Finding, files: map<string, SourceFile>, criteria: set<string>) returns (ok: bool)
    ensures ok <==> FindingValid(f, files, criteria)
    ensures ok <==> FindingReads(f, files, criteria)
  {
    FindingExactly(f, files, criteria);
    var idOk := ValidFindingId(f.id);
    if !idOk || f.significance == UnknownSignificance || !Normalized(f.summary) || !Normalized(f.correction)
       || |f.evidence| == 0 || |f.affectedFiles| == 0 || |f.impacts| == 0
    {
      return false;
    }
    var citationsOk, cited, symbols := CheckCitations(f, files);
    if !citationsOk {
      return false;
    }
    var filesOk := CheckNames(f.affectedFiles);
    var filesCited := AllWithin(f.affectedFiles, cited);
    var symbolsOk := CheckNames(f.affectedSymbols);
    var symbolsCited := AllWithin(f.affectedSymbols, symbols);
    var impactsOk := CheckImpacts(f.impacts, criteria);
    return filesOk && filesCited && symbolsOk && symbolsCited && impactsOk;
  }

  // -------------------------------------------------------------- canonical form

  predicate CitationLess(a: Citation, b: Citation)
  {
    if a.path != b.path then Less(a.path, b.path)
    else if a.startLine != b.startLine then a.startLine < b.startLine
    else a.endLine < b.endLine
  }

  /** `n` is a normalized copy of `f`. */
  predicate Normalizes(f: Finding, n: Finding)
  {
    && n == f.(evidence := n.evidence, affectedFiles := n.affectedFiles, affectedSymbols := n.affectedSymbols,
        impacts := n.impacts)
    && Sorts(CitationLess, f.evidence, n.evidence) && Sorts(Less, f.affectedFiles, n.affectedFiles)
    && Sorts(Less, f.affectedSymbols, n.affectedSymbols) && Sorts(ByKey(CriterionOf), f.impacts, n.impacts)
  }

  lemma CitationWeak()
    ensures WeakOrder(CitationLess)
  {
    forall x, y | CitationLess(x, y)
      ensures !CitationLess(y, x)
    {
      if x.path != y.path {
        LessAsymmetric(x.path, y.path);
      }
    }
    forall x, y, z | !CitationLess(x, y) && !CitationLess(y, z)
      ensures !CitationLess(x, z)
    {
      CitationNotThrough(x, y, z);
    }
  }

  lemma CitationNotThrough(x: Citation, y: Citation, z: Citation)
    requires !CitationLess(x, y) && !CitationLess(y, z)
    ensures !CitationLess(x, z)
  {
    LessIrreflexive(y.path);
    if x.path != z.path {
      LessNotThrough(x.path, y.path, z.path);
    } else if x.path != y.path {
      LessTotal(x.path, y.path);
      LessAsymmetric(y.path, x.path);
    }
  }

  /** normalizeFinding: sort copies of the four lists. */
  method NormalizeFinding(f: Finding) returns (n: Finding)
    ensures Normalizes(f, n)
  {
    CitationWeak();
    LessWeak();
    KeyWeak(CriterionOf);
    var evidence := SortSlice(CitationLess, f.evidence);
    var affectedFiles := SortSlice(Less, f.affectedFiles);
    var affectedSymbols := SortSlice(Less, f.affectedSymbols);
    var impacts := SortSlice(ByKey(CriterionOf), f.impacts);
    n := f.(evidence := evidence, affectedFiles := affectedFiles, affectedSymbols := affectedSymbols,
        impacts := impacts);
  }

  /** Citations of a valid finding with equal path and lines are equal: path fixes artifact and digest. */
  lemma CitationsTotal(f: Finding, files: map<string, SourceFile>)
    requires CitationsValid(f, files)
    ensures TotalOn(CitationLess, f.evidence)
  {
    forall i, j | 0 <= i < |f.evidence| && 0 <= j < |f.evidence|
      ensures CitationLess(f.evidence[i], f.evidence[j]) || CitationLess(f.evidence[j], f.evidence[i])
              || f.evidence[i] == f.evidence[j]
    {
      LessTotal(f.evidence[i].path, f.evidence[j].path);
      assert CitationValid(f.evidence[i], files) && CitationValid(f.evidence[j], files);
    }
  }

  /** The same finding with its lists in another order. */
  predicate Permuted(f: Finding, g: Finding)
  {
    && g == f.(evidence := g.evidence, affectedFiles := g.affectedFiles, affectedSymbols := g.affectedSymbols,
        impacts := g.impacts)
    && multiset(f.evidence) == multiset(g.evidence) && multiset(f.affectedFiles) == multiset(g.affectedFiles)
    && multiset(f.affectedSymbols) == multiset(g.affectedSymbols) && multiset(f.impacts) == multiset(g.impacts)
  }

  /** The canonical form of a valid finding, hence its definition digest, does not depend on the order of its
      citations, files, symbols or impacts, nor on how the sort treats ties. */
  lemma FindingOrderFree(f: Finding, g: Finding, files: map<string, SourceFile>, criteria: set<string>, n: Finding,
      m: Finding)
    requires FindingValid(f, files, criteria) && Permuted(f, g) && Normalizes(f, n) && Normalizes(g, m)
    ensures n == m
  {
    CitationsTotal(f, files);
    OrderFree(CitationLess, f.evidence, g.evidence, n.evidence, m.evidence);
    StringsTotal(f.affectedFiles);
    OrderFree(Less, f.affectedFiles, g.affectedFiles, n.affectedFiles, m.affectedFiles);
    StringsTotal(f.affectedSymbols);
    OrderFree(Less, f.affectedSymbols, g.affectedSymbols, n.affectedSymbols, m.affectedSymbols);
    KeyTotal(CriterionOf, f.impacts);
    OrderFree(ByKey(CriterionOf), f.impacts, g.impacts, n.impacts, m.impacts);
  }

  /** Without the artifact check the key would not be total: two citations of the same lines that differ only in
      digest can come out in either order. */
  lemma UncheckedCitationsDiffer(a: Citation, b: Citation)
    requires a.path == b.path && a.startLine == b.startLine && a.endLine == b.endLine && a != b
    ensures Sorts(CitationLess, [a, b], [a, b]) && Sorts(CitationLess, [b, a], [b, a])
            && multiset([a, b]) == multiset([b, a])
    ensures [a, b] != [b, a]
  {
  }

  // -------------------------------------------------------------- dossier input

  /** A changed or relevant file: its path, everything else about it, and its symbols. */
  datatype Entry = Entry(path: string, payload: string, symbols: seq<string>)

  datatype Edge = Edge(from: string, relation: string, to: string)

  datatype Prior = Prior(id: string, payload: string)

  /** `fixed` is what keeps its given order: scope, plan steps, criteria and checks. */
  datatype DossierInput = DossierInput(
    changed: seq<Entry>,
    relevant: seq<Entry>,
    edges: seq<Edge>,
    priors: seq<Prior>,
    fixed: seq<string>)

  function PathOf(e: Entry): string
  {
    e.path
  }

  function EdgeKey(e: Edge): string
  {
    e.from + "\0" + e.relation + "\0" + e.to
  }

  function PriorId(p: Prior): string
  {
    p.id
  }

  predicate InputValid(d: DossierInput)
  {
    && KeyUnique(PathOf, d.changed) && KeyUnique(PathOf, d.relevant) && KeyUnique(EdgeKey, d.edges)
        && KeyUnique(PriorId, d.priors)
    && |d.relevant| > 0
  }

  /** An entry with its symbols in some other order. */
  predicate EntryLike(a: Entry, b: Entry)
  {
    a.path == b.path && a.payload == b.payload && multiset(a.symbols) == multiset(b.symbols)
  }

  predicate EntrySorted(a: Entry, b: Entry)
  {
    b == a.(symbols := b.symbols) && Sorts(Less, a.symbols, b.symbols)
  }

  /** Sort every entry's symbols, then the entries by path. */
  ghost predicate EntriesNormalize(es: seq<Entry>, n: seq<Entry>)
  {
    exists mid: seq<Entry> ::
      |mid| == |es| && (forall i :: 0 <= i < |es| ==> EntrySorted(es[i], mid[i])) && Sorts(ByKey(PathOf), mid, n)
  }

  /** The same entries in another order, each with its symbols in another order. */
  ghost predicate EntriesPermuted(es: seq<Entry>, gs: seq<Entry>)
  {
    exists mid: seq<Entry> ::
      multiset(mid) == multiset(es) && |mid| == |gs| && (forall i :: 0 <= i < |gs| ==> EntryLike(mid[i], gs[i]))
  }

  lemma SortedEntryUnique(a: Entry, b: Entry, x: Entry, y: Entry)
    requires EntryLike(a, b) && EntrySorted(a, x) && EntrySorted(b, y)
    ensures x == y
  {
    StringsTotal(a.symbols);
    OrderFree(Less, a.symbols, b.symbols, x.symbols, y.symbols);
  }

  ghost predicate SortedEach(es: seq<Entry>, mid: seq<Entry>)
  {
    |mid| == |es| && forall i :: 0 <= i < |es| ==> EntrySorted(es[i], mid[i])
  }

  ghost predicate LikeEach(es: seq<Entry>, gs: seq<Entry>)
  {
    |es| == |gs| && forall i :: 0 <= i < |gs| ==> EntryLike(es[i], gs[i])
  }

  lemma SortedMember(es: seq<Entry>, p: seq<Entry>, gs: seq<Entry>, a: seq<Entry>, b: seq<Entry>, i: nat)
    requires multiset(p) == multiset(es) && LikeEach(p, gs) && SortedEach(es, a) && SortedEach(gs, b) && i < |a|
    ensures a[i] in b
  {
    InMultiset(es, p, es[i]);
    var k :| 0 <= k < |p| && p[k] == es[i];
    SortedEntryUnique(p[k], gs[k], a[i], b[k]);
  }

  lemma SortedMemberBack(es: seq<Entry>, p: seq<Entry>, gs: seq<Entry>, a: seq<Entry>, b: seq<Entry>, k: nat)
    requires multiset(p) == multiset(es) && LikeEach(p, gs) && SortedEach(es, a) && SortedEach(gs, b) && k < |b|
    ensures b[k] in a
  {
    InMultiset(p, es, p[k]);
    var i :| 0 <= i < |es| && es[i] == p[k];
    SortedEntryUnique(p[k], gs[k], a[i], b[k]);
  }

  /** Entries with sorted symbols are rearrangements of each other. */
  lemma SortedEachPermuted(es: seq<Entry>, p: seq<Entry>, gs: seq<Entry>, a: seq<Entry>, b: seq<Entry>)
    requires KeyUnique(PathOf, es) && multiset(p) == multiset(es) && LikeEach(p, gs) && SortedEach(es, a)
             && SortedEach(gs, b)
    ensures KeyUnique(PathOf, a) && multiset(a) == multiset(b)
  {
    KeyUniquePermuted(PathOf, es, p);
    forall i, j | 0 <= i < j < |a|
      ensures PathOf(a[i]) != PathOf(a[j])
    {
      assert PathOf(es[i]) != PathOf(es[j]) && EntrySorted(es[i], a[i]) && EntrySorted(es[j], a[j]);
    }
    forall i, j | 0 <= i < j < |b|
      ensures PathOf(b[i]) != PathOf(b[j])
    {
      assert PathOf(p[i]) != PathOf(p[j]) && EntryLike(p[i], gs[i]) && EntryLike(p[j], gs[j]);
    }
    forall x
      ensures x in a <==> x in b
    {
      if x in a {
        var i :| 0 <= i < |a| && a[i] == x;
        SortedMember(es, p, gs, a, b, i);
      }
      if x in b {
        var k :| 0 <= k < |b| && b[k] == x;
        SortedMemberBack(es, p, gs, a, b, k);
      }
    }
    SameMembers(PathOf, a, b);
  }

  /** Permuting files, and symbols within files, leaves the normalized list unchanged. */
  lemma EntriesOrderFree(es: seq<Entry>, gs: seq<Entry>, n: seq<Entry>, m: seq<Entry>)
    requires KeyUnique(PathOf, es) && EntriesPermuted(es, gs) && EntriesNormalize(es, n) && EntriesNormalize(gs, m)
    ensures n == m
  {
    var a: seq<Entry> :| |a| == |es| && (forall i :: 0 <= i < |es| ==> EntrySorted(es[i], a[i]))
        && Sorts(ByKey(PathOf), a, n);
    var b: seq<Entry> :| |b| == |gs| && (forall i :: 0 <= i < |gs| ==> EntrySorted(gs[i], b[i]))
        && Sorts(ByKey(PathOf), b, m);
    var p: seq<Entry> :| multiset(p) == multiset(es) && |p| == |gs|
        && (forall i :: 0 <= i < |gs| ==> EntryLike(p[i], gs[i]));
    assert SortedEach(es, a) && SortedEach(gs, b) && LikeEach(p, gs);
    SortedEachPermuted(es, p, gs, a, b);
    KeyTotal(PathOf, a);
    OrderFree(ByKey(PathOf), a, b, n, m);
  }

  ghost predicate InputNormalizes(d: DossierInput, n: DossierInput)
  {
    && n.fixed == d.fixed && EntriesNormalize(d.changed, n.changed) && EntriesNormalize(d.relevant, n.relevant)
    && Sorts(ByKey(EdgeKey), d.edges, n.edges) && Sorts(ByKey(PriorId), d.priors, n.priors)
  }

  ghost predicate InputPermuted(d: DossierInput, e: DossierInput)
  {
    && e.fixed == d.fixed && EntriesPermuted(d.changed, e.changed) && EntriesPermuted(d.relevant, e.relevant)
    && multiset(d.edges) == multiset(e.edges) && multiset(d.priors) == multiset(e.priors)
  }

  /** The canonical dossier input does not depend on the order of changed files, relevant sources, their symbols,
      blast-radius edges or prior findings. */
  lemma DossierInputOrderFree(d: DossierInput, e: DossierInput, n: DossierInput, m: DossierInput)
    requires InputValid(d) && InputPermuted(d, e) && InputNormalizes(d, n) && InputNormalizes(e, m)
    ensures n == m
  {
    EntriesOrderFree(d.changed, e.changed, n.changed, m.changed);
    EntriesOrderFree(d.relevant, e.relevant, n.relevant, m.relevant);
    KeyTotal(EdgeKey, d.edges);
    OrderFree(ByKey(EdgeKey), d.edges, e.edges, n.edges, m.edges);
    KeyTotal(PriorId, d.priors);
    OrderFree(ByKey(PriorId), d.priors, e.priors, n.priors, m.priors);
  }

  /** The loop over entries, then the sort by path. */
  method NormalizeEntries(es: seq<Entry>) returns (n: seq<Entry>)
    ensures EntriesNormalize(es, n)
  {
    LessWeak();
    KeyWeak(PathOf);
    var mid: seq<Entry> := [];
    for i := 0 to |es|
      invariant |mid| == i && forall k :: 0 <= k < i ==> EntrySorted(es[k], mid[k])
    {
      var symbols := SortSlice(Less, es[i].symbols);
      mid := mid + [es[i].(symbols := symbols)];
    }
    n := SortSlice(ByKey(PathOf), mid);
  }

  /** normalizeDossierInput. */
  method NormalizeInput(d: DossierInput) returns (n: DossierInput)
    ensures InputNormalizes(d, n)
  {
    KeyWeak(EdgeKey);
    KeyWeak(PriorId);
    var changed := NormalizeEntries(d.changed);
    var relevant := NormalizeEntries(d.relevant);
    var edges := SortSlice(ByKey(EdgeKey), d.edges);
    var priors := SortSlice(ByKey(PriorId), d.priors);
    n := d.(changed := changed, relevant := relevant, edges := edges, priors := priors);
  }
}
