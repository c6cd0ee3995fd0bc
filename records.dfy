/** The expense record and the ledger's table of records. The table is
    a sequence of (id, record) entries in insertion order, as a Python dict
    keeps them; `Lookup` is its dictionary view. */
module Records {
  import opened Options
  import opened Sums
  import opened Dates

  datatype Expense = Expense(category: string, amount: real, date: string, description: string)

  datatype Entry = Entry(id: int, expense: Expense)

  function AmountOf(e: Entry): real { e.expense.amount }
  function CategoryOf(e: Entry): string { e.expense.category }
  function DateOf(e: Entry): string { e.expense.date }

  /** What every stored record satisfies once the ledger has accepted it:
      a non-empty category, a positive amount and a date `strptime` reads. */
  predicate Recorded(es: seq<Entry>)
  {
    forall e :: e in es ==> e.expense.category != [] && e.expense.amount > 0.0 && ParseDate(e.expense.date).Some?
  }

  /** `sum(expense['amount'] for expense in expenses.values())`. */
  function TotalOf(es: seq<Entry>): real
  {
    SumBy(es, AmountOf)
  }

  /** `total = 0; for ...: total += expense['amount']`, the running sum
      a listing prints under its rows. */
  method SumAmounts(rows: seq<Entry>) returns (total: real)
    ensures total == TotalOf(rows)
  {
    total := 0.0;
    for i := 0 to |rows|
      invariant total == TotalOf(rows[..i])
    {
      assert rows[..i + 1][..i] == rows[..i];
      total := total + rows[i].expense.amount;
    }
    assert rows[..|rows|] == rows;
  }

  lemma TotalOfPositive(es: seq<Entry>)
    requires Recorded(es) && es != []
    ensures TotalOf(es) > 0.0
  {
    SumByPositive(es, AmountOf);
  }

  /** The entries whose `key` is `k`, in table order. */
  function Select<K(==)>(es: seq<Entry>, key: Entry -> K, k: K): (r: seq<Entry>)
    ensures forall e :: e in r <==> e in es && key(e) == k
    ensures |r| <= |es|
  {
    if es == [] then []
    else Select(es[..|es| - 1], key, k) + (if key(es[|es| - 1]) == k then [es[|es| - 1]] else [])
  }

  // ---------------------------------------------------------------- ids

  function Ids(es: seq<Entry>): set<int>
  {
    set e | e in es :: e.id
  }

  /** Ids grow along the table: insertion order is id order. */
  predicate IdsIncreasing(es: seq<Entry>)
  {
    forall i, j :: 0 <= i < j < |es| ==> es[i].id < es[j].id
  }

  /** A selection keeps the table's id order. */
  lemma {:induction false} SelectIncreasing<K>(es: seq<Entry>, key: Entry -> K, k: K)
    requires IdsIncreasing(es)
    ensures IdsIncreasing(Select(es, key, k))
  {
    if es != [] {
      var init, last := es[..|es| - 1], es[|es| - 1];
      SelectIncreasing(init, key, k);
      var r := Select(init, key, k);
      if key(last) == k {
        forall i, j | 0 <= i < j < |r| + 1 ensures (r + [last])[i].id < (r + [last])[j].id {
          if j == |r| {
            assert r[i] in init;
            var m :| 0 <= m < |init| && init[m] == r[i];
          }
        }
      }
    }
  }

  /** `expenses.get(id)`. */
  function Lookup(es: seq<Entry>, id: int): (r: Option<Expense>)
    ensures r.Some? <==> id in Ids(es)
    ensures r.Some? ==> Entry(id, r.value) in es
  {
    if es == [] then None
    else if es[0].id == id then Some(es[0].expense)
    else
      assert forall e :: e in es <==> e == es[0] || e in es[1..];
      Lookup(es[1..], id)
  }

  /** `del expenses[id]`: the table without the entry for `id`. */
  function Without(es: seq<Entry>, id: int): (r: seq<Entry>)
    ensures forall e :: e in r <==> e in es && e.id != id
  {
    if es == [] then []
    else
      assert forall e :: e in es <==> e == es[0] || e in es[1..];
      (if es[0].id == id then [] else [es[0]]) + Without(es[1..], id)
  }

  /** Deleting `id` removes exactly that key from the dictionary view. */
  lemma {:induction false} LookupWithout(es: seq<Entry>, id: int, k: int)
    ensures Lookup(Without(es, id), k) == if k == id then None else Lookup(es, k)
  {
    if es != [] {
      var w := Without(es[1..], id);
      LookupWithout(es[1..], id, k);
      if es[0].id == id {
        assert Without(es, id) == w;
      } else {
        var r := [es[0]] + w;
        assert Without(es, id) == r;
        assert r[0] == es[0] && r[1..] == w;
        assert Lookup(r, k) == if es[0].id == k then Some(es[0].expense) else Lookup(w, k);
      }
    }
  }

  lemma {:induction false} WithoutIncreasing(es: seq<Entry>, id: int)
    requires IdsIncreasing(es)
    ensures IdsIncreasing(Without(es, id))
  {
    if es != [] {
      WithoutIncreasing(es[1..], id);
      var rest := Without(es[1..], id);
      forall e | e in rest ensures es[0].id < e.id {
        var k :| 1 <= k < |es| && es[k] == e by { assert e in es[1..]; }
      }
    }
  }

  /** Appending an entry under a new id adds exactly that key to the
      dictionary view. */
  lemma {:induction false} LookupAppend(es: seq<Entry>, e: Entry, k: int)
    requires e.id !in Ids(es)
    ensures Lookup(es + [e], k) == if k == e.id then Some(e.expense) else Lookup(es, k)
  {
    if es == [] {
      assert [] + [e] == [e];
    } else {
      assert (es + [e])[1..] == es[1..] + [e];
      assert Ids(es[1..]) <= Ids(es) by {
        forall x | x in es[1..] ensures x in es { }
      }
      LookupAppend(es[1..], e, k);
    }
  }
}
