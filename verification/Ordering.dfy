/** Sorting as the code uses it, by its contract: the result is a rearrangement in which nothing comes before
    something smaller. When equal keys mean equal elements that result does not depend on the input's order. */
module Ordering {
  import opened Base

  predicate Sorted<T>(lt: (T, T) -> bool, s: seq<T>)
  {
    forall i, j :: 0 <= i < j < |s| ==> !lt(s[j], s[i])
  }

  /** `b` is what sorting `a` may return. */
  predicate Sorts<T(==)>(lt: (T, T) -> bool, a: seq<T>, b: seq<T>)
  {
    multiset(a) == multiset(b) && Sorted(lt, b)
  }

  /** Among the elements of `s`, those the order cannot tell apart are equal. */
  predicate TotalOn<T(==)>(lt: (T, T) -> bool, s: seq<T>)
  {
    forall i, j :: 0 <= i < |s| && 0 <= j < |s| ==> lt(s[i], s[j]) || lt(s[j], s[i]) || s[i] == s[j]
  }

  lemma InMultiset<T>(a: seq<T>, b: seq<T>, x: T)
    requires multiset(a) == multiset(b) && x in a
    ensures x in b
  {
    assert x in multiset(a);
  }

  lemma TotalOnMembers<T>(lt: (T, T) -> bool, s: seq<T>, x: T, y: T)
    requires TotalOn(lt, s) && x in s && y in s
    ensures lt(x, y) || lt(y, x) || x == y
  {
    var i :| 0 <= i < |s| && s[i] == x;
    var j :| 0 <= j < |s| && s[j] == y;
  }

  lemma SmallestFirst<T>(lt: (T, T) -> bool, s: seq<T>, x: T)
    requires Sorted(lt, s) && x in s
    ensures x == s[0] || !lt(x, s[0])
  {
    var i :| 0 <= i < |s| && s[i] == x;
  }

  lemma MultisetTail<T>(a: seq<T>, b: seq<T>)
    requires multiset(a) == multiset(b) && |a| > 0 && |b| > 0 && a[0] == b[0]
    ensures multiset(a[1..]) == multiset(b[1..])
  {
    assert a == [a[0]] + a[1..] && b == [b[0]] + b[1..];
    assert multiset(a[1..]) == multiset(a) - multiset{a[0]};
    assert multiset(b[1..]) == multiset(b) - multiset{b[0]};
  }

  /** Two sorted rearrangements of the same elements are the same sequence. */
  lemma {:induction false} SortedUnique<T>(lt: (T, T) -> bool, s: seq<T>, a: seq<T>, b: seq<T>)
    requires TotalOn(lt, s) && (forall x :: x in a ==> x in s) && multiset(a) == multiset(b) && Sorted(lt, a)
             && Sorted(lt, b)
    ensures a == b
    decreases |a|
  {
    assert |a| == |multiset(a)| && |b| == |multiset(b)|;
    if |a| > 0 {
      InMultiset(a, b, a[0]);
      InMultiset(b, a, b[0]);
      SmallestFirst(lt, a, b[0]);
      SmallestFirst(lt, b, a[0]);
      TotalOnMembers(lt, s, a[0], b[0]);
      MultisetTail(a, b);
      SortedUnique(lt, s, a[1..], b[1..]);
    }
  }

  /** Sorting forgets the order of its input. */
  lemma OrderFree<T>(lt: (T, T) -> bool, a: seq<T>, a': seq<T>, b: seq<T>, b': seq<T>)
    requires TotalOn(lt, a) && multiset(a) == multiset(a') && Sorts(lt, a, b) && Sorts(lt, a', b')
    ensures b == b'
  {
    forall x | x in b
      ensures x in a
    {
      InMultiset(b, a, x);
    }
    SortedUnique(lt, a, b, b');
  }

  // ---------------------------------------------------------------- unique keys

  predicate KeyUnique<T>(key: T -> string, s: seq<T>)
  {
    forall i, j :: 0 <= i < j < |s| ==> key(s[i]) != key(s[j])
  }

  function ByKey<T>(key: T -> string): (T, T) -> bool
  {
    (x, y) => Less(key(x), key(y))
  }

  /** A seen-set check makes a sort key total up to equality. */
  lemma KeyTotal<T>(key: T -> string, s: seq<T>)
    requires KeyUnique(key, s)
    ensures TotalOn(ByKey(key), s)
  {
    forall i, j | 0 <= i < |s| && 0 <= j < |s|
      ensures ByKey(key)(s[i], s[j]) || ByKey(key)(s[j], s[i]) || s[i] == s[j]
    {
      LessTotal(key(s[i]), key(s[j]));
    }
  }

  lemma StringsTotal(s: seq<string>)
    ensures TotalOn(Less, s)
  {
    forall i, j | 0 <= i < |s| && 0 <= j < |s|
      ensures Less(s[i], s[j]) || Less(s[j], s[i]) || s[i] == s[j]
    {
      LessTotal(s[i], s[j]);
    }
  }

  /** The loop every validator uses to refuse a repeated key. */
  method CheckUnique<T>(key: T -> string, s: seq<T>) returns (ok: bool)
    ensures ok <==> KeyUnique(key, s)
  {
    var seen: set<string> := {};
    for i := 0 to |s|
      invariant KeyUnique(key, s[..i])
      invariant forall k :: k in seen <==> exists n :: 0 <= n < i && key(s[n]) == k
    {
      if key(s[i]) in seen {
        return false;
      }
      seen := seen + {key(s[i])};
    }
    return true;
  }

  // ------------------------------------------------------------------- sorting

  /** What a sort needs of its order: equivalence of the indistinguishable included. */
  ghost predicate WeakOrder<T(!new)>(lt: (T, T) -> bool)
  {
    && (forall x, y :: lt(x, y) ==> !lt(y, x))
    && (forall x, y, z {:trigger lt(x, y), lt(y, z)} :: !lt(x, y) && !lt(y, z) ==> !lt(x, z))
  }

  /** `x` belongs at position `i` of `s`. */
  predicate Belongs<T>(lt: (T, T) -> bool, s: seq<T>, x: T, i: nat)
  {
    && i <= |s|
    && (forall k :: 0 <= k < i ==> !lt(x, s[k]))
    && (forall k :: i <= k < |s| ==> !lt(s[k], x))
  }

  lemma InsertedSorted<T>(lt: (T, T) -> bool, s: seq<T>, x: T, i: nat)
    requires Sorted(lt, s) && Belongs(lt, s, x, i)
    ensures Sorted(lt, s[..i] + [x] + s[i..])
  {
    var r := s[..i] + [x] + s[i..];
    forall j, k | 0 <= j < k < |r|
      ensures !lt(r[k], r[j])
    {
      assert j == i || r[j] == s[if j < i then j else j - 1];
      assert k == i || r[k] == s[if k < i then k else k - 1];
    }
  }

  lemma NotAfter<T(!new)>(lt: (T, T) -> bool, s: seq<T>, x: T, i: nat)
    requires WeakOrder(lt) && Sorted(lt, s) && i <= |s| && (i > 0 ==> !lt(x, s[i - 1]))
    ensures forall k :: 0 <= k < i ==> !lt(x, s[k])
  {
    forall k | 0 <= k < i
      ensures !lt(x, s[k])
    {
      if k < i - 1 {
        assert !lt(s[i - 1], s[k]);
      }
    }
  }

  /** Insert `x` into a sorted sequence. */
  method Insert<T(!new)>(lt: (T, T) -> bool, s: seq<T>, x: T) returns (r: seq<T>)
    requires WeakOrder(lt) && Sorted(lt, s)
    ensures multiset(r) == multiset(s) + multiset{x} && Sorted(lt, r)
  {
    var i := |s|;
    while i > 0 && lt(x, s[i - 1])
      invariant 0 <= i <= |s|
      invariant forall k :: i <= k < |s| ==> !lt(s[k], x)
    {
      i := i - 1;
    }
    NotAfter(lt, s, x, i);
    InsertedSorted(lt, s, x, i);
    r := s[..i] + [x] + s[i..];
    assert s == s[..i] + s[i..];
  }

  /** sort.Slice, by insertion. */
  method SortSlice<T(!new)>(lt: (T, T) -> bool, s: seq<T>) returns (r: seq<T>)
    requires WeakOrder(lt)
    ensures Sorts(lt, s, r)
  {
    r := [];
    for i := 0 to |s|
      invariant multiset(r) == multiset(s[..i]) && Sorted(lt, r)
    {
      assert s[..i + 1] == s[..i] + [s[i]];
      r := Insert(lt, r, s[i]);
    }
    assert s[..|s|] == s;
  }

  lemma LessNotThrough(x: string, y: string, z: string)
    requires !Less(x, y) && !Less(y, z)
    ensures !Less(x, z)
  {
    LessTotal(x, y);
    LessTotal(y, z);
    if Less(x, z) {
      if x != y {
        LessTransitive(y, x, z);
      }
      assert false;
    }
  }

  lemma LessWeak()
    ensures WeakOrder(Less)
  {
    forall x, y | Less(x, y)
      ensures !Less(y, x)
    {
      LessAsymmetric(x, y);
    }
    forall x, y, z | !Less(x, y) && !Less(y, z)
      ensures !Less(x, z)
    {
      LessNotThrough(x, y, z);
    }
  }

  lemma KeyWeak<T(!new)>(key: T -> string)
    ensures WeakOrder(ByKey(key))
  {
    LessWeak();
    forall x, y, z | !ByKey(key)(x, y) && !ByKey(key)(y, z)
      ensures !ByKey(key)(x, z)
    {
      LessNotThrough(key(x), key(y), key(z));
    }
  }

  // -------------------------------------------------- rearranging without repetition

  lemma TwiceCounts<T>(s: seq<T>, i: nat, j: nat)
    requires i < j < |s| && s[i] == s[j]
    ensures multiset(s)[s[i]] >= 2
  {
    assert s == s[..j] + [s[j]] + s[j + 1..];
    assert s[..j] == s[..i] + [s[i]] + s[i + 1..j];
  }

  lemma {:induction false} KeyUniqueCounts<T>(key: T -> string, s: seq<T>, x: T)
    requires KeyUnique(key, s)
    ensures multiset(s)[x] == if x in s then 1 else 0
    decreases |s|
  {
    if |s| > 0 {
      var init, last := s[..|s| - 1], s[|s| - 1];
      assert s == init + [last];
      KeyUniqueCounts(key, init, x);
    }
  }

  /** Rearranging keeps keys unique. */
  lemma KeyUniquePermuted<T>(key: T -> string, a: seq<T>, b: seq<T>)
    requires KeyUnique(key, a) && multiset(a) == multiset(b)
    ensures KeyUnique(key, b)
  {
    forall i, j | 0 <= i < j < |b|
      ensures key(b[i]) != key(b[j])
    {
      InMultiset(b, a, b[i]);
      InMultiset(b, a, b[j]);
      if b[i] == b[j] {
        TwiceCounts(b, i, j);
        KeyUniqueCounts(key, a, b[i]);
        assert false;
      }
    }
  }

  /** Sequences with unique keys and the same members are rearrangements of each other. */
  lemma SameMembers<T>(key: T -> string, a: seq<T>, b: seq<T>)
    requires KeyUnique(key, a) && KeyUnique(key, b) && forall x :: x in a <==> x in b
    ensures multiset(a) == multiset(b)
  {
    forall x
      ensures multiset(a)[x] == multiset(b)[x]
    {
      KeyUniqueCounts(key, a, x);
      KeyUniqueCounts(key, b, x);
    }
  }
}
