/** Python's `<` on `str`: lexicographic comparison by code point, where a
    proper prefix is smaller than the longer string. (Dafny's own `<` on
    sequences means "proper prefix", so the order is defined here.) */
module StrOrder {

  predicate Less(a: string, b: string)
    decreases |a|
  {
    && |b| > 0
    && (|a| == 0 || a[0] < b[0] || (a[0] == b[0] && Less(a[1..], b[1..])))
  }

  predicate LessEq(a: string, b: string) {
    a == b || Less(a, b)
  }

  lemma {:induction false} LessIrreflexive(a: string)
    ensures !Less(a, a)
    decreases |a|
  {
    if |a| > 0 {
      LessIrreflexive(a[1..]);
    }
  }

  lemma {:induction false} LessAsymmetric(a: string, b: string)
    requires Less(a, b)
    ensures !Less(b, a)
    decreases |a|
  {
    if |a| > 0 && a[0] == b[0] && Less(a[1..], b[1..]) {
      LessAsymmetric(a[1..], b[1..]);
    }
  }

  lemma {:induction false} LessTransitive(a: string, b: string, c: string)
    requires Less(a, b) && Less(b, c)
    ensures Less(a, c)
    decreases |a|
  {
    if |a| > 0 && a[0] == b[0] && b[0] == c[0] {
      LessTransitive(a[1..], b[1..], c[1..]);
    }
  }

  /** Any two distinct strings are ordered one way or the other. */
  lemma {:induction false} LessTotal(a: string, b: string)
    requires a != b
    ensures Less(a, b) || Less(b, a)
    decreases |a|
  {
    if |a| > 0 && |b| > 0 && a[0] == b[0] {
      assert a == [a[0]] + a[1..] && b == [b[0]] + b[1..];
      LessTotal(a[1..], b[1..]);
    }
  }

  lemma LessEqTransitive(a: string, b: string, c: string)
    requires LessEq(a, b) && LessEq(b, c)
    ensures LessEq(a, c)
  {
    if a != b && b != c {
      LessTransitive(a, b, c);
    }
  }

  /** "Not less than" is "at least" for this total order. */
  lemma NotLessIsAtLeast(a: string, b: string)
    ensures !Less(a, b) <==> LessEq(b, a)
  {
    if a != b && !Less(a, b) {
      LessTotal(a, b);
    }
    if Less(b, a) {
      LessAsymmetric(b, a);
    }
    if a == b {
      LessIrreflexive(a);
    }
  }

  /** Position k is where a and b first differ, in a's favour: they agree
      before k, and either a ends there while b goes on, or a's code point
      at k is the smaller. */
  predicate FirstDifference(a: string, b: string, k: nat) {
    && k <= |a| && k < |b|
    && a[..k] == b[..k]
    && (k == |a| || a[k] < b[k])
  }

  lemma FirstDifferenceShift(a: string, b: string, k: nat)
    requires |a| > 0 && |b| > 0 && a[0] == b[0]
    ensures FirstDifference(a, b, k + 1) <==> FirstDifference(a[1..], b[1..], k)
  {
    if k + 1 <= |a| && k + 1 < |b| {
      assert a[..k + 1] == [a[0]] + a[1..][..k];
      assert b[..k + 1] == [b[0]] + b[1..][..k];
    }
  }

  /** The recursive order agrees with its textbook definition: a sorts
      before b exactly when there is a first position where they differ in
      a's favour (a proper prefix sorts first). */
  lemma {:induction false} LessIffFirstDifference(a: string, b: string)
    ensures Less(a, b) <==> exists k: nat :: FirstDifference(a, b, k)
    decreases |a|
  {
    if |a| == 0 || |b| == 0 {
      if |b| > 0 {
        assert FirstDifference(a, b, 0);
      }
    } else if a[0] < b[0] {
      assert FirstDifference(a, b, 0);
    } else if a[0] == b[0] {
      LessIffFirstDifference(a[1..], b[1..]);
      if Less(a, b) {
        var k: nat :| FirstDifference(a[1..], b[1..], k);
        FirstDifferenceShift(a, b, k);
      }
      if k: nat :| FirstDifference(a, b, k) {
        FirstDifferenceShift(a, b, k - 1);
      }
    }
  }
}
