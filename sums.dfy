/** Python's `sum(...)` and `+=` accumulation over a sequence, with exact
    (real) arithmetic. */
module Sums {

  /** The sum of `w` over `s`, accumulated front to back. */
  function SumBy<T>(s: seq<T>, w: T -> real): real
  {
    if s == [] then 0.0 else SumBy(s[..|s| - 1], w) + w(s[|s| - 1])
  }

  lemma {:induction false} SumByAppend<T>(a: seq<T>, b: seq<T>, w: T -> real)
    ensures SumBy(a + b, w) == SumBy(a, w) + SumBy(b, w)
    decreases |b|
  {
    if b == [] {
      assert a + b == a;
    } else {
      assert (a + b)[..|a + b| - 1] == a + b[..|b| - 1];
      assert (a + b)[|a + b| - 1] == b[|b| - 1];
      SumByAppend(a, b[..|b| - 1], w);
    }
  }

  lemma SumBySingle<T>(x: T, w: T -> real)
    ensures SumBy([x], w) == w(x)
  {
    assert [x][..0] == [];
  }

  /** Reordering a sequence does not change its sum. */
  lemma {:induction false} SumByPermutation<T>(a: seq<T>, b: seq<T>, w: T -> real)
    requires multiset(a) == multiset(b)
    ensures SumBy(a, w) == SumBy(b, w)
    decreases |a|
  {
    if a != [] {
      var x := a[|a| - 1];
      assert x in multiset(b);
      var k :| 0 <= k < |b| && b[k] == x;
      var rest := b[..k] + b[k + 1..];
      assert b == b[..k] + [x] + b[k + 1..];
      assert a == a[..|a| - 1] + [x];
      assert multiset(b) == multiset(b[..k]) + multiset{x} + multiset(b[k + 1..]);
      assert multiset(rest) == multiset(b[..k]) + multiset(b[k + 1..]);
      assert multiset(a) == multiset(a[..|a| - 1]) + multiset{x};
      assert multiset(a[..|a| - 1]) == multiset(a) - multiset{x};
      assert multiset(rest) == multiset(b) - multiset{x};
      SumByPermutation(a[..|a| - 1], rest, w);
      SumByAppend(b[..k] + [x], b[k + 1..], w);
      SumByAppend(b[..k], [x], w);
      SumByAppend(b[..k], b[k + 1..], w);
      SumBySingle(x, w);
    }
  }

  /** A sum of non-negative terms is non-negative, and of positive terms
      over a non-empty sequence positive. */
  lemma {:induction false} SumByPositive<T>(s: seq<T>, w: T -> real)
    requires forall x :: x in s ==> w(x) > 0.0
    ensures SumBy(s, w) >= 0.0
    ensures s != [] ==> SumBy(s, w) > 0.0
  {
    if s != [] {
      SumByPositive(s[..|s| - 1], w);
    }
  }
}
