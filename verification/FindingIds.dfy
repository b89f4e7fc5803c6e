/** The hand-written finding-id scanner and the regular expression it stands for
    (internal/autonomous/contracts.go:705-734; internal/autonomous/correction.go:221; internal/audit/types.go:40). */
module FindingIds {
  import opened Base

  predicate Letter(c: char)
  {
    'a' <= c <= 'z'
  }

  predicate Alnum(c: char)
  {
    'a' <= c <= 'z' || '0' <= c <= '9'
  }

  predicate Space(c: char)
  {
    c == ' ' || '\t' <= c <= '\r' || c == '\U{85}' || c == '\U{A0}'
  }

  // ------------------------------------------------- ^[a-z][a-z0-9]*(?:-[a-z0-9]+)*$

  /** A nonempty run of letters and digits. */
  predicate Word(s: string)
  {
    |s| > 0 && forall i :: 0 <= i < |s| ==> Alnum(s[i])
  }

  predicate Words(parts: seq<string>)
  {
    |parts| > 0 && Letter0(parts[0]) && forall i :: 0 <= i < |parts| ==> Word(parts[i])
  }

  predicate Letter0(s: string)
  {
    |s| > 0 && Letter(s[0])
  }

  function Join(parts: seq<string>): string
    requires |parts| > 0
  {
    if |parts| == 1 then parts[0] else Join(parts[..|parts| - 1]) + "-" + parts[|parts| - 1]
  }

  /** The strings the expression matches: words joined by single hyphens, the first beginning with a letter. */
  ghost predicate InLanguage(id: string)
  {
    exists parts :: Words(parts) && Join(parts) == id
  }

  // ------------------------------------------------------------------- scanning

  /** What the scanner's switch lets pass at position `i`. */
  predicate Passes(id: string, i: nat)
    requires i < |id|
  {
    || (i == 0 && Letter(id[i]))
    || (i > 0 && Alnum(id[i]))
    || (i > 0 && id[i] == '-' && id[i - 1] != '-' && i < |id| - 1)
  }

  predicate Scanned(id: string)
  {
    |id| > 0 && forall i :: 0 <= i < |id| ==> Passes(id, i)
  }

  lemma AppendScanned(s: string, w: string)
    requires Scanned(s) && s[|s| - 1] != '-' && Word(w)
    ensures Scanned(s + "-" + w) && (s + "-" + w)[|s + "-" + w| - 1] != '-'
  {
    var t := s + "-" + w;
    forall i | 0 <= i < |t|
      ensures Passes(t, i)
    {
      if i < |s| {
        assert Passes(s, i) && t[i] == s[i] && (i > 0 ==> t[i - 1] == s[i - 1]);
      } else if i > |s| {
        assert t[i] == w[i - |s| - 1];
      }
    }
  }

  lemma {:induction false} JoinScanned(parts: seq<string>)
    requires Words(parts)
    ensures Scanned(Join(parts)) && Join(parts)[|Join(parts)| - 1] != '-'
    decreases |parts|
  {
    if |parts| == 1 {
      assert Word(parts[0]);
    } else {
      JoinScanned(parts[..|parts| - 1]);
      AppendScanned(Join(parts[..|parts| - 1]), parts[|parts| - 1]);
    }
  }

  lemma JoinSnoc(parts: seq<string>, w: string)
    requires Words(parts) && Word(w)
    ensures Words(parts + [w]) && Join(parts + [w]) == Join(parts) + "-" + w
  {
    assert (parts + [w])[..|parts|] == parts;
  }

  /** Everything after the last hyphen, from position `k` on, is a word. */
  lemma {:induction false} SplitScanned(id: string, k: nat) returns (parts: seq<string>)
    requires Scanned(id) && k < |id| && id[|id| - 1] != '-'
    requires forall i :: k <= i < |id| ==> Alnum(id[i])
    ensures Words(parts) && Join(parts) == id
    decreases |id|, k
  {
    if k == 0 {
      assert Passes(id, 0);
      parts := [id];
    } else if id[k - 1] == '-' {
      assert Passes(id, k - 1);
      var front := id[..k - 1];
      forall i | 0 <= i < |front|
        ensures Passes(front, i)
      {
        assert Passes(id, i);
      }
      assert Passes(id, k - 2);
      var init := SplitScanned(front, |front| - 1);
      JoinSnoc(init, id[k..]);
      assert id == front + "-" + id[k..];
      parts := init + [id[k..]];
    } else {
      assert Passes(id, k - 1);
      parts := SplitScanned(id, k - 1);
    }
  }

  /** The scanner accepts exactly the language of the expression. */
  lemma ScannedIffMatches(id: string)
    ensures Scanned(id) <==> InLanguage(id)
  {
    if Scanned(id) {
      assert Passes(id, |id| - 1);
      var parts := SplitScanned(id, |id| - 1);
    }
    if InLanguage(id) {
      var parts :| Words(parts) && Join(parts) == id;
      JoinScanned(parts);
    }
  }

  predicate Trimmed(id: string)
  {
    |id| == 0 || (!Space(id[0]) && !Space(id[|id| - 1]))
  }

  /** Lower-case letters, digits and hyphens; a letter first, no hyphen last, no two hyphens together. */
  predicate Hyphenated(id: string)
  {
    && |id| > 0 && 'a' <= id[0] <= 'z' && id[|id| - 1] != '-'
    && (forall i :: 0 <= i < |id| ==> 'a' <= id[i] <= 'z' || '0' <= id[i] <= '9' || id[i] == '-')
    && (forall i, j :: 0 <= i < j < |id| && id[i] == '-' && id[j] == '-' ==> i + 1 < j)
  }

  lemma HyphenatedExactly(id: string)
    ensures Scanned(id) <==> Hyphenated(id)
  {
    if Scanned(id) {
      assert Passes(id, 0) && Passes(id, |id| - 1);
      forall i | 0 <= i < |id|
        ensures 'a' <= id[i] <= 'z' || '0' <= id[i] <= '9' || id[i] == '-'
        ensures id[i] == '-' ==> i > 0 && id[i - 1] != '-'
      {
        assert Passes(id, i);
      }
    }
  }

  method ValidFindingId(id: string) returns (ok: bool)
    ensures ok <==> InLanguage(id)
    ensures ok <==> Hyphenated(id)
  {
    ScannedIffMatches(id);
    HyphenatedExactly(id);
    if id == "" || !Trimmed(id) {
      assert id != "" ==> !Passes(id, 0) || !Passes(id, |id| - 1);
      return false;
    }
    for i := 0 to |id|
      invariant forall k :: 0 <= k < i ==> Passes(id, k)
    {
      if !Passes(id, i) {
        return false;
      }
    }
    return true;
  }

  // ------------------------------------------------------------------- id lists

  ghost predicate IdsValid(ids: seq<string>)
  {
    && (forall i :: 0 <= i < |ids| ==> InLanguage(ids[i]))
    && (forall i, j :: 0 <= i < j < |ids| ==> ids[i] != ids[j])
  }

  /** validateFindingIDs: well-formed and without repetition. */
  method ValidateFindingIds(ids: seq<string>) returns (ok: bool)
    ensures ok <==> IdsValid(ids)
  {
    var seen: set<string> := {};
    for i := 0 to |ids|
      invariant seen == set k | 0 <= k < i :: ids[k]
      invariant IdsValid(ids[..i])
    {
      ok := ValidFindingId(ids[i]);
      if !ok || ids[i] in seen {
        return false;
      }
      seen := seen + {ids[i]};
    }
    assert ids[..|ids|] == ids;
    return true;
  }
}
