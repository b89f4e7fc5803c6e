/** Small shared vocabulary: optional values and the byte order of Go strings. */
module Base {

  datatype Option<+T> = None | Some(value: T)

  datatype Result<+T> = Ok(value: T) | Err

  /** Go's `<` on strings: lexicographic. */
  predicate Less(a: string, b: string)
  {
    b != "" && (a == "" || a[0] < b[0] || (a[0] == b[0] && Less(a[1..], b[1..])))
  }

  lemma {:induction false} LessIrreflexive(a: string)
    ensures !Less(a, a)
  {
    if a != "" {
      LessIrreflexive(a[1..]);
    }
  }

  lemma {:induction false} LessTransitive(a: string, b: string, c: string)
    requires Less(a, b) && Less(b, c)
    ensures Less(a, c)
  {
    if a != "" && a[0] == b[0] && b[0] == c[0] {
      LessTransitive(a[1..], b[1..], c[1..]);
    }
  }

  lemma {:induction false} LessTotal(a: string, b: string)
    ensures a == b || Less(a, b) || Less(b, a)
  {
    if a != "" && b != "" && a[0] == b[0] {
      LessTotal(a[1..], b[1..]);
      assert a == [a[0]] + a[1..] && b == [b[0]] + b[1..];
    }
  }

  lemma LessAsymmetric(a: string, b: string)
    requires Less(a, b)
    ensures !Less(b, a) && a != b
  {
    if Less(b, a) {
      LessTransitive(a, b, a);
    }
    LessIrreflexive(a);
  }

  /** Strictly increasing, hence without repetition. */
  predicate StrictlyOrdered(s: seq<string>)
  {
    forall i, j :: 0 <= i < j < |s| ==> Less(s[i], s[j])
  }

  /** Comparing each element with its predecessor only is enough. */
  lemma StrictlyOrderedSnoc(s: seq<string>, x: string)
    requires StrictlyOrdered(s)
    ensures StrictlyOrdered(s + [x]) <==> |s| == 0 || Less(s[|s| - 1], x)
  {
    var t := s + [x];
    if |s| > 0 {
      assert t[|s| - 1] == s[|s| - 1] && t[|s|] == x;
      if Less(s[|s| - 1], x) {
        forall i, j | 0 <= i < j < |t|
          ensures Less(t[i], t[j])
        {
          if j == |s| && i < |s| - 1 {
            LessTransitive(s[i], s[|s| - 1], x);
          }
        }
      }
    }
  }

  lemma StrictlyOrderedApart(s: seq<string>, i: nat, j: nat)
    requires StrictlyOrdered(s) && i < |s| && j < |s| && i != j
    ensures s[i] != s[j]
  {
    LessIrreflexive(s[i]);
  }

  // ------------------------------------------------------------ atomic steps

  /** Atomic steps the process may still take before it stops, for whatever reason. */
  datatype Fuel = Unlimited | Limited(steps: nat)

  predicate Out(f: Fuel)
  {
    f == Limited(0)
  }

  function Spend(f: Fuel): Fuel
    requires !Out(f)
  {
    if f.Unlimited? then f else Limited(f.steps - 1)
  }

  datatype Status = Done | Stopped | Failed

  type Bytes = seq<int>
}
