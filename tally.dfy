/** `defaultdict(float)` with `d[key(expense)] += expense['amount']` over
    the table, the accumulation behind the per-category totals, the
    per-date chart series and the per-period category sums. The dictionary
    is an association list in insertion order, as Python keeps it. */
module Tally {
  import opened Sums
  import opened Sorting
  import opened Records
  import opened Text

  function Amount<K>(p: (K, real)): real { p.1 }

  function Keys<K>(acc: seq<(K, real)>): (ks: seq<K>)
    ensures |ks| == |acc| && forall i :: 0 <= i < |acc| ==> ks[i] == acc[i].0
  {
    if acc == [] then [] else [acc[0].0] + Keys(acc[1..])
  }

  /** `d[k]` of a `defaultdict(float)`: 0 for a key never added. */
  function Get<K(==)>(acc: seq<(K, real)>, k: K): real
  {
    if acc == [] then 0.0 else if acc[0].0 == k then acc[0].1 else Get(acc[1..], k)
  }

  /** `d[k] += x`: the entry for `k` is updated where it stands, or a new
      entry is added at the end. */
  function Bump<K(==)>(acc: seq<(K, real)>, k: K, x: real): seq<(K, real)>
  {
    if acc == [] then [(k, x)]
    else if acc[0].0 == k then [(k, acc[0].1 + x)] + acc[1..]
    else [acc[0]] + Bump(acc[1..], k, x)
  }

  /** The keys of `s` in order of first occurrence. */
  function FirstOccurrences<K(==)>(s: seq<K>): (d: seq<K>)
    ensures Distinct(d)
    ensures forall i :: 0 <= i < |d| ==> d[i] in s
    ensures forall i :: 0 <= i < |s| ==> s[i] in d
  {
    if s == [] then []
    else
      var d := FirstOccurrences(s[..|s| - 1]);
      assert forall i :: 0 <= i < |s| - 1 ==> s[i] == s[..|s| - 1][i];
      if s[|s| - 1] in d then d else d + [s[|s| - 1]]
  }

  function KeySeq<K>(es: seq<Entry>, key: Entry -> K): (ks: seq<K>)
    ensures |ks| == |es| && forall i :: 0 <= i < |es| ==> ks[i] == key(es[i])
  {
    if es == [] then [] else KeySeq(es[..|es| - 1], key) + [key(es[|es| - 1])]
  }

  /** The dictionary after the loop has run over `es`. */
  function Tallied<K(==)>(es: seq<Entry>, key: Entry -> K): seq<(K, real)>
  {
    if es == [] then []
    else Bump(Tallied(es[..|es| - 1], key), key(es[|es| - 1]), AmountOf(es[|es| - 1]))
  }

  // ---------------------------------------------------------------- Bump

  lemma {:induction false} BumpKeys<K>(acc: seq<(K, real)>, k: K, x: real)
    ensures Keys(Bump(acc, k, x)) == if k in Keys(acc) then Keys(acc) else Keys(acc) + [k]
  {
    if acc != [] && acc[0].0 != k {
      BumpKeys(acc[1..], k, x);
      assert Keys(acc) == [acc[0].0] + Keys(acc[1..]);
      assert Keys(Bump(acc, k, x)) == [acc[0].0] + Keys(Bump(acc[1..], k, x));
    } else if acc != [] {
      assert Keys(Bump(acc, k, x)) == [k] + Keys(acc[1..]);
    }
  }

  lemma {:induction false} BumpGet<K>(acc: seq<(K, real)>, k: K, x: real, c: K)
    ensures Get(Bump(acc, k, x), c) == Get(acc, c) + (if c == k then x else 0.0)
  {
    if acc != [] && acc[0].0 != k {
      BumpGet(acc[1..], k, x, c);
      assert Bump(acc, k, x)[1..] == Bump(acc[1..], k, x);
    } else if acc != [] {
      assert Bump(acc, k, x)[1..] == acc[1..];
    }
  }

  lemma {:induction false} BumpSum<K>(acc: seq<(K, real)>, k: K, x: real)
    ensures SumBy(Bump(acc, k, x), Amount) == SumBy(acc, Amount) + x
  {
    if acc == [] {
      SumBySingle((k, x), Amount);
    } else {
      var tail := if acc[0].0 == k then acc[1..] else Bump(acc[1..], k, x);
      var head := if acc[0].0 == k then (k, acc[0].1 + x) else acc[0];
      assert Bump(acc, k, x) == [head] + tail;
      SumByAppend([head], tail, Amount);
      SumBySingle(head, Amount);
      assert acc == [acc[0]] + acc[1..];
      SumByAppend([acc[0]], acc[1..], Amount);
      SumBySingle(acc[0], Amount);
      if acc[0].0 != k {
        BumpSum(acc[1..], k, x);
      }
    }
  }

  /** In a dictionary without repeated keys each entry holds `d[key]`. */
  lemma {:induction false} GetAt<K>(acc: seq<(K, real)>, i: int)
    requires Distinct(Keys(acc)) && 0 <= i < |acc|
    ensures Get(acc, acc[i].0) == acc[i].1
  {
    if i > 0 {
      assert Keys(acc[1..]) == Keys(acc)[1..];
      assert Keys(acc)[0] != Keys(acc)[i];
      GetAt(acc[1..], i - 1);
    }
  }

  // ---------------------------------------------------------------- Tallied

  /** The keys are those of the table, each once, in order of first
      occurrence (the order `dict` iterates them in). */
  lemma {:induction false} TalliedKeys<K>(es: seq<Entry>, key: Entry -> K)
    ensures Keys(Tallied(es, key)) == FirstOccurrences(KeySeq(es, key))
  {
    if es != [] {
      var init := es[..|es| - 1];
      TalliedKeys(init, key);
      BumpKeys(Tallied(init, key), key(es[|es| - 1]), AmountOf(es[|es| - 1]));
      assert KeySeq(es, key)[..|es| - 1] == KeySeq(init, key);
    }
  }

  /** Each key's value is the total of the entries with that key. */
  lemma {:induction false} TalliedGet<K>(es: seq<Entry>, key: Entry -> K, c: K)
    ensures Get(Tallied(es, key), c) == TotalOf(Select(es, key, c))
  {
    if es == [] {
    } else {
      var init, e := es[..|es| - 1], es[|es| - 1];
      TalliedGet(init, key, c);
      BumpGet(Tallied(init, key), key(e), AmountOf(e), c);
      var sel := Select(init, key, c);
      assert Tallied(es, key) == Bump(Tallied(init, key), key(e), AmountOf(e));
      if key(e) == c {
        assert Select(es, key, c) == sel + [e];
        SumByAppend(sel, [e], AmountOf);
        SumBySingle(e, AmountOf);
      } else {
        assert Select(es, key, c) == sel + [];
        assert sel + [] == sel;
      }
    }
  }

  /** The values add up to the grand total. */
  lemma {:induction false} TalliedSum<K>(es: seq<Entry>, key: Entry -> K)
    ensures SumBy(Tallied(es, key), Amount) == TotalOf(es)
  {
    if es != [] {
      var init, e := es[..|es| - 1], es[|es| - 1];
      TalliedSum(init, key);
      BumpSum(Tallied(init, key), key(e), AmountOf(e));
    }
  }

  /** What the accumulated dictionary holds: every key of the table once,
      in first-occurrence order, with the total of that key's entries, and
      values that add up to the grand total. */
  lemma TalliedFacts<K>(es: seq<Entry>, key: Entry -> K)
    ensures Distinct(Keys(Tallied(es, key)))
    ensures forall k :: k in Keys(Tallied(es, key)) <==> exists e :: e in es && key(e) == k
    ensures forall i :: 0 <= i < |Tallied(es, key)| ==>
      Tallied(es, key)[i].1 == TotalOf(Select(es, key, Tallied(es, key)[i].0))
    ensures SumBy(Tallied(es, key), Amount) == TotalOf(es)
  {
    var t := Tallied(es, key);
    TalliedKeys(es, key);
    TalliedSum(es, key);
    forall k ensures k in Keys(t) <==> exists e :: e in es && key(e) == k {
      if k in KeySeq(es, key) {
        var i :| 0 <= i < |es| && KeySeq(es, key)[i] == k;
        assert es[i] in es;
      }
      if exists e :: e in es && key(e) == k {
        var e :| e in es && key(e) == k;
        var i :| 0 <= i < |es| && es[i] == e;
        assert KeySeq(es, key)[i] == k;
      }
    }
    forall i | 0 <= i < |t| ensures t[i].1 == TotalOf(Select(es, key, t[i].0)) {
      GetAt(t, i);
      TalliedGet(es, key, t[i].0);
    }
  }

  /** The `for expense in expenses.values(): d[key] += amount` loop. */
  method Accumulate<K(==)>(es: seq<Entry>, key: Entry -> K) returns (acc: seq<(K, real)>)
    ensures acc == Tallied(es, key)
    ensures Distinct(Keys(acc))
    ensures forall i :: 0 <= i < |acc| ==> acc[i].1 == TotalOf(Select(es, key, acc[i].0))
    ensures SumBy(acc, Amount) == TotalOf(es)
  {
    acc := [];
    for i := 0 to |es|
      invariant acc == Tallied(es[..i], key)
    {
      assert es[..i + 1][..i] == es[..i];
      acc := Bump(acc, key(es[i]), es[i].expense.amount);
    }
    assert es[..|es|] == es;
    TalliedFacts(es, key);
  }

  // ---------------------------------------------------------------- sorted by text key

  /** Python's string order is a total preorder. */
  lemma StringOrder()
    ensures TotalPreorder(AtMost)
  {
    forall a, b ensures AtMost(a, b) || AtMost(b, a) {
      AtMostTotal(a, b);
    }
    forall a, b, c | AtMost(a, b) && AtMost(b, c) ensures AtMost(a, c) {
      AtMostTransitive(a, b, c);
    }
  }

  /** Python's order on `(text, amount)` pairs whose texts differ:
      `sorted(d.items())` and `sorted(d.keys())` of a dictionary. */
  predicate KeyFirst(p: (string, real), q: (string, real))
  {
    AtMost(p.0, q.0)
  }

  /** A key occurs in the key sequence exactly when some entry has it. */
  lemma KeyOccurs<K>(es: seq<Entry>, key: Entry -> K, c: K)
    ensures c in KeySeq(es, key) <==> Select(es, key, c) != []
  {
    var ks := KeySeq(es, key);
    if c in ks {
      var m :| 0 <= m < |ks| && ks[m] == c;
      assert es[m] in Select(es, key, c);
    }
    if Select(es, key, c) != [] {
      var e := Select(es, key, c)[0];
      assert e in es;
      var m :| 0 <= m < |es| && es[m] == e;
      assert ks[m] == c;
    }
  }

  /** A key is tallied exactly when the table has entries with it. */
  lemma TalliedMembers<K>(es: seq<Entry>, key: Entry -> K, c: K)
    ensures c in Keys(Tallied(es, key)) <==> Select(es, key, c) != []
  {
    TalliedFacts(es, key);
    if c in Keys(Tallied(es, key)) {
      var e :| e in es && key(e) == c;
      assert e in Select(es, key, c);
    }
    if Select(es, key, c) != [] {
      assert Select(es, key, c)[0] in Select(es, key, c);
    }
  }

  /** The sorted tally names each key once, in strictly increasing
      order. */
  lemma SortedTallyOrder(es: seq<Entry>, key: Entry -> string)
    ensures var s := Sort(KeyFirst, Tallied(es, key));
      forall i, j :: 0 <= i < j < |s| ==> Below(s[i].0, s[j].0)
  {
    var acc := Tallied(es, key);
    TalliedFacts(es, key);
    var sorted := Sort(KeyFirst, acc);
    assert TotalPreorder(KeyFirst) by {
      StringOrder();
    }
    SortSorted(KeyFirst, acc);
    assert Distinct(acc) by {
      forall i, j | 0 <= i < j < |acc| ensures acc[i] != acc[j] {
        assert Keys(acc)[i] != Keys(acc)[j];
      }
    }
    DistinctPermutation(acc, sorted);
    forall i, j | 0 <= i < j < |sorted| ensures Below(sorted[i].0, sorted[j].0) {
      var m := SortedFrom(KeyFirst, acc, i);
      var n := SortedFrom(KeyFirst, acc, j);
      if m != n {
        assert Keys(acc)[m] != Keys(acc)[n];
      }
    }
  }

  /** Two lines of the sorted tally, in their order. */
  lemma SortedTallyBelow(es: seq<Entry>, key: Entry -> string, i: nat, j: nat)
    requires i < j < |Sort(KeyFirst, Tallied(es, key))|
    ensures Below(Sort(KeyFirst, Tallied(es, key))[i].0, Sort(KeyFirst, Tallied(es, key))[j].0)
  {
    SortedTallyOrder(es, key);
  }

  /** The sorted tally names exactly the keys the table has entries
      with, each with the total of those entries, and adds up to the grand
      total. */
  lemma SortedTallyContents(es: seq<Entry>, key: Entry -> string)
    ensures var s := Sort(KeyFirst, Tallied(es, key));
      && (forall c :: c in Keys(s) <==> Select(es, key, c) != [])
      && (forall i :: 0 <= i < |s| ==> s[i].1 == TotalOf(Select(es, key, s[i].0)))
      && SumBy(s, Amount) == TotalOf(es)
  {
    var acc := Tallied(es, key);
    TalliedFacts(es, key);
    var sorted := Sort(KeyFirst, acc);
    SortMembers(KeyFirst, acc);
    forall i | 0 <= i < |sorted| ensures sorted[i].1 == TotalOf(Select(es, key, sorted[i].0)) {
      var m := SortedFrom(KeyFirst, acc, i);
    }
    forall c ensures c in Keys(sorted) <==> Select(es, key, c) != [] {
      TalliedMembers(es, key, c);
      if c in Keys(sorted) {
        var i :| 0 <= i < |sorted| && Keys(sorted)[i] == c;
        var m := SortedFrom(KeyFirst, acc, i);
        assert Keys(acc)[m] == c;
      }
      if c in Keys(acc) {
        var m :| 0 <= m < |acc| && Keys(acc)[m] == c;
        assert acc[m] in sorted;
        var i :| 0 <= i < |sorted| && sorted[i] == acc[m];
        assert Keys(sorted)[i] == c;
      }
    }
    SumByPermutation(sorted, acc, Amount);
  }

  /** One key, named in the sorted tally or not. */
  lemma SortedTallyHas(es: seq<Entry>, key: Entry -> string, c: string)
    ensures c in Keys(Sort(KeyFirst, Tallied(es, key))) <==> Select(es, key, c) != []
  {
    SortedTallyContents(es, key);
  }

}
