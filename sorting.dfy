/** Python's `sorted(s, key=..., reverse=...)` as a stable insertion sort
    over an ordering `le` ("`a` may come before `b`"), with the three
    things `sorted` promises: the result is a permutation of the input, it
    is in order, and elements the ordering ties keep their input order. */
module Sorting {

  /** `le` relates every two elements one way or the other, transitively. */
  ghost predicate TotalPreorder<T(!new)>(le: (T, T) -> bool)
  {
    && (forall a, b :: le(a, b) || le(b, a))
    && (forall a, b, c :: le(a, b) && le(b, c) ==> le(a, c))
  }

  predicate SortedBy<T>(le: (T, T) -> bool, s: seq<T>)
  {
    forall i, j :: 0 <= i < j < |s| ==> le(s[i], s[j])
  }

  /** Puts `x` after every element of `s` it may follow. */
  function Insert<T>(le: (T, T) -> bool, x: T, s: seq<T>): (r: seq<T>)
    ensures multiset(r) == multiset(s) + multiset{x}
  {
    if s == [] then [x]
    else
      assert s == [s[0]] + s[1..];
      if le(s[0], x) then [s[0]] + Insert(le, x, s[1..]) else [x] + s
  }

  /** The stable sort: each element, in input order, goes after everything
      already placed that it may follow. */
  function Sort<T>(le: (T, T) -> bool, s: seq<T>): (r: seq<T>)
    ensures multiset(r) == multiset(s)
  {
    if s == [] then []
    else
      assert s == s[..|s| - 1] + [s[|s| - 1]];
      Insert(le, s[|s| - 1], Sort(le, s[..|s| - 1]))
  }

  lemma SortLength<T>(le: (T, T) -> bool, s: seq<T>)
    ensures |Sort(le, s)| == |s|
  {
    assert |multiset(Sort(le, s))| == |multiset(s)|;
  }

  /** Each element of the sorted sequence sits somewhere in the input. */
  lemma SortedFrom<T>(le: (T, T) -> bool, s: seq<T>, i: int) returns (m: int)
    requires 0 <= i < |Sort(le, s)|
    ensures 0 <= m < |s| && s[m] == Sort(le, s)[i]
  {
    assert Sort(le, s)[i] in multiset(Sort(le, s));
    m :| 0 <= m < |s| && s[m] == Sort(le, s)[i];
  }

  /** Two elements are swapped exactly when the first may not come before
      the second. */
  lemma SortPair<T>(le: (T, T) -> bool, a: T, b: T)
    ensures Sort(le, [a, b]) == if le(a, b) then [a, b] else [b, a]
  {
    assert [a, b][..1] == [a];
  }

  /** Sorting keeps exactly the elements it was given. */
  lemma SortMembers<T>(le: (T, T) -> bool, s: seq<T>)
    ensures forall x :: x in Sort(le, s) <==> x in s
  {
    forall x ensures x in Sort(le, s) <==> x in s {
      assert x in Sort(le, s) <==> x in multiset(Sort(le, s));
      assert x in s <==> x in multiset(s);
    }
  }

  /** How many leading elements of `s` `x` may follow. */
  function InsertPos<T>(le: (T, T) -> bool, x: T, s: seq<T>): (p: nat)
    ensures p <= |s|
  {
    if s == [] || !le(s[0], x) then 0 else 1 + InsertPos(le, x, s[1..])
  }

  /** What `Insert` puts at each position. */
  lemma {:induction false} InsertAt<T>(le: (T, T) -> bool, x: T, s: seq<T>, k: int)
    requires 0 <= k <= |s|
    ensures |Insert(le, x, s)| == |s| + 1
    ensures Insert(le, x, s)[k] ==
      if k < InsertPos(le, x, s) then s[k] else if k == InsertPos(le, x, s) then x else s[k - 1]
  {
    if s != [] && le(s[0], x) {
      InsertAt(le, x, s[1..], if k > 0 then k - 1 else 0);
    }
  }

  lemma InsertSplits<T>(le: (T, T) -> bool, x: T, s: seq<T>)
    ensures Insert(le, x, s) == s[..InsertPos(le, x, s)] + [x] + s[InsertPos(le, x, s)..]
  {
    var p := InsertPos(le, x, s);
    var r := s[..p] + [x] + s[p..];
    InsertAt(le, x, s, 0);
    forall k | 0 <= k <= |s| ensures Insert(le, x, s)[k] == r[k] {
      InsertAt(le, x, s, k);
    }
  }

  lemma {:induction false} InsertPosBounds<T>(le: (T, T) -> bool, x: T, s: seq<T>)
    ensures forall k :: 0 <= k < InsertPos(le, x, s) ==> le(s[k], x)
    ensures InsertPos(le, x, s) < |s| ==> !le(s[InsertPos(le, x, s)], x)
  {
    if s != [] && le(s[0], x) {
      InsertPosBounds(le, x, s[1..]);
      forall k | 0 <= k < InsertPos(le, x, s) ensures le(s[k], x) {
        if k > 0 { assert s[k] == s[1..][k - 1]; }
      }
    }
  }

  /** Where `Insert` puts `x`: after a prefix of elements it may follow,
      before the first element it may not. */
  lemma InsertShape<T>(le: (T, T) -> bool, x: T, s: seq<T>) returns (p: nat)
    ensures p <= |s| && Insert(le, x, s) == s[..p] + [x] + s[p..]
    ensures forall k :: 0 <= k < p ==> le(s[k], x)
    ensures p < |s| ==> !le(s[p], x)
    ensures forall k :: 0 <= k <= |s| ==>
      Insert(le, x, s)[k] == if k < p then s[k] else if k == p then x else s[k - 1]
  {
    p := InsertPos(le, x, s);
    InsertSplits(le, x, s);
    InsertPosBounds(le, x, s);
  }

  lemma InsertSorted<T(!new)>(le: (T, T) -> bool, x: T, s: seq<T>)
    requires TotalPreorder(le) && SortedBy(le, s)
    ensures SortedBy(le, Insert(le, x, s))
  {
    var p := InsertShape(le, x, s);
    var r := Insert(le, x, s);
    forall i, j | 0 <= i < j < |r| ensures le(r[i], r[j]) {
      if j < p {
        assert r[i] == s[i] && r[j] == s[j];
      } else if j == p {
        assert r[i] == s[i];
      } else if i == p {
        assert r[j] == s[j - 1];
        assert !le(s[p], x);
        assert le(s[p], s[j - 1]) || p == j - 1;
      } else if i < p {
        assert r[i] == s[i] && r[j] == s[j - 1];
      } else {
        assert r[i] == s[i - 1] && r[j] == s[j - 1];
      }
    }
  }

  /** The result of `Sort` is in order. */
  lemma {:induction false} SortSorted<T(!new)>(le: (T, T) -> bool, s: seq<T>)
    requires TotalPreorder(le)
    ensures SortedBy(le, Sort(le, s))
  {
    if s != [] {
      SortSorted(le, s[..|s| - 1]);
      InsertSorted(le, s[|s| - 1], Sort(le, s[..|s| - 1]));
    }
  }

  /** Elements that `le` ties are ordered by `before` ... */
  predicate TiesOrdered<T>(le: (T, T) -> bool, before: (T, T) -> bool, s: seq<T>)
  {
    forall i, j :: 0 <= i < j < |s| && le(s[j], s[i]) ==> before(s[i], s[j])
  }

  lemma InsertStable<T(!new)>(le: (T, T) -> bool, before: (T, T) -> bool, x: T, s: seq<T>)
    requires TotalPreorder(le) && SortedBy(le, s) && TiesOrdered(le, before, s)
    requires forall y :: y in s ==> before(y, x)
    ensures TiesOrdered(le, before, Insert(le, x, s))
  {
    var p := InsertShape(le, x, s);
    var r := Insert(le, x, s);
    forall k | p <= k < |s| ensures !le(s[k], x) {
      if p < k {
        assert le(s[p], s[k]);
      }
    }
    forall i, j | 0 <= i < j < |r| && le(r[j], r[i]) ensures before(r[i], r[j]) {
      if j < p {
        assert r[i] == s[i] && r[j] == s[j];
      } else if j == p {
        assert r[i] == s[i];
      } else if p < i {
        assert r[i] == s[i - 1] && r[j] == s[j - 1];
      } else {
        assert false;
      }
    }
  }

  /** `Sort` is stable: when the input is ordered by `before`, so are
      the elements of the result that `le` ties. */
  lemma {:induction false} SortStable<T(!new)>(le: (T, T) -> bool, before: (T, T) -> bool, s: seq<T>)
    requires TotalPreorder(le)
    requires forall i, j :: 0 <= i < j < |s| ==> before(s[i], s[j])
    ensures TiesOrdered(le, before, Sort(le, s))
  {
    if s != [] {
      var init, x := s[..|s| - 1], s[|s| - 1];
      SortStable(le, before, init);
      SortSorted(le, init);
      forall y | y in Sort(le, init) ensures before(y, x) {
        assert y in multiset(init);
        var k :| 0 <= k < |init| && init[k] == y;
      }
      InsertStable(le, before, x, Sort(le, init));
    }
  }

  lemma InsertCongruent<T>(le1: (T, T) -> bool, le2: (T, T) -> bool, x: T, s: seq<T>)
    requires forall y :: y in s ==> le1(y, x) == le2(y, x)
    ensures Insert(le1, x, s) == Insert(le2, x, s)
  {
  }

  /** Two orderings that agree on the elements of `s` sort it alike. */
  lemma {:induction false} SortCongruent<T>(le1: (T, T) -> bool, le2: (T, T) -> bool, s: seq<T>)
    requires forall a, b :: a in s && b in s ==> le1(a, b) == le2(a, b)
    ensures Sort(le1, s) == Sort(le2, s)
  {
    if s != [] {
      var init, x := s[..|s| - 1], s[|s| - 1];
      SortCongruent(le1, le2, init);
      forall y | y in Sort(le1, init) ensures le1(y, x) == le2(y, x) {
        assert y in multiset(init);
      }
      InsertCongruent(le1, le2, x, Sort(le1, init));
    }
  }

  /** A sequence without repeated elements. */
  predicate Distinct<T(==)>(s: seq<T>)
  {
    forall i, j :: 0 <= i < j < |s| ==> s[i] != s[j]
  }

  lemma OccursTwice<T>(b: seq<T>, i: int, j: int)
    requires 0 <= i < j < |b| && b[i] == b[j]
    ensures multiset(b)[b[i]] >= 2
  {
    assert b == b[..i] + [b[i]] + b[i + 1..j] + [b[j]] + b[j + 1..];
  }

  lemma {:induction false} OccursOnce<T>(a: seq<T>, k: int)
    requires Distinct(a) && 0 <= k < |a|
    ensures multiset(a)[a[k]] == 1
  {
    if k == |a| - 1 {
      assert a == a[..k] + [a[k]];
      assert a[k] !in a[..k];
    } else {
      var init := a[..|a| - 1];
      assert init[k] == a[k];
      OccursOnce(init, k);
      assert a == init + [a[|a| - 1]];
    }
  }

  lemma DistinctPermutation<T>(a: seq<T>, b: seq<T>)
    requires Distinct(a) && multiset(a) == multiset(b)
    ensures Distinct(b)
  {
    forall i, j | 0 <= i < j < |b| ensures b[i] != b[j] {
      if b[i] == b[j] {
        OccursTwice(b, i, j);
        assert b[i] in multiset(a);
        var k :| 0 <= k < |a| && a[k] == b[i];
        OccursOnce(a, k);
      }
    }
  }
}
