/** `generate_expense_summary`: the records grouped by week, month or year
    of their date, each period with its total, its number of records and
    its per-category sums, listed latest period first with the three
    categories spent most on. */
module Summary {
  import opened Options
  import opened Text
  import opened Dates
  import opened Sorting
  import opened Sums
  import opened Records
  import opened Tally
  import opened Reports

  // ---------------------------------------------------------------- period keys

  datatype Granularity = Weekly | Monthly | Yearly

  /** The menu answer, stripped: "1" weekly, "2" monthly, "3" yearly. */
  function ParseGranularity(answer: string): (g: Option<Granularity>)
    ensures g.Some? <==> Strip(answer) == "1" || Strip(answer) == "2" || Strip(answer) == "3"
  {
    var choice := Strip(answer);
    if choice == "1" then Some(Weekly)
    else if choice == "2" then Some(Monthly)
    else if choice == "3" then Some(Yearly)
    else None
  }

  /** The period a calendar date falls in: the Monday starting its week,
      its year and month, or its year. */
  function PeriodKey(g: Granularity, d: Date): int
    requires IsCalendarDate(d)
  {
    match g
    case Weekly => WeekStart(d)
    case Monthly => MonthKey(d)
    case Yearly => YearKey(d)
  }

  /** The period of a stored record, from its date as `strptime` reads it
      (text it does not read never reaches the grouping; it gets 0). */
  function KeyOf(g: Granularity, e: Entry): int
  {
    match ParseDate(e.expense.date)
    case Some(d) => PeriodKey(g, d)
    case None => 0
  }

  function PeriodOfEntry(g: Granularity): Entry -> int
  {
    (e: Entry) => KeyOf(g, e)
  }

  /** A period of a later key holds only later dates: keys follow the
      calendar, so listing keys in decreasing order lists the latest
      period first. */
  lemma KeysFollowDates(g: Granularity, d1: Date, d2: Date)
    requires IsCalendarDate(d1) && IsCalendarDate(d2)
    requires PeriodKey(g, d1) < PeriodKey(g, d2)
    ensures NotAfter(d1, d2) && d1 != d2
  {
    if NotAfter(d2, d1) {
      KeysFollowCalendar(d2, d1);
      assert false;
    }
  }

  /** Dates of one week, month or year share a key, and only they do: two
      dates share a weekly key exactly when no Monday comes after the
      earlier one and on or before the later one. */
  lemma SameKeySamePeriod(g: Granularity, d1: Date, d2: Date)
    requires IsCalendarDate(d1) && IsCalendarDate(d2)
    ensures g == Monthly ==> (PeriodKey(g, d1) == PeriodKey(g, d2) <==> d1.year == d2.year && d1.month == d2.month)
    ensures g == Yearly ==> (PeriodKey(g, d1) == PeriodKey(g, d2) <==> d1.year == d2.year)
    ensures g == Weekly ==> (PeriodKey(g, d1) == PeriodKey(g, d2) <==>
      if Ordinal(d1) <= Ordinal(d2) then NoMondayIn(Ordinal(d1), Ordinal(d2)) else NoMondayIn(Ordinal(d2), Ordinal(d1)))
  {
    MonthKeyOrder(d1, d2);
    SameWeekStart(d1, d2);
  }

  // ---------------------------------------------------------------- grouping

  /** One entry of `summaries`: its key, `total`, `count` and the
      `categories` dictionary. */
  datatype Period = Period(key: int, total: real, count: nat, categories: seq<(string, real)>)

  function TotalIn(p: Period): real { p.total }
  function CountIn(p: Period): real { p.count as real }

  function PeriodKeys(ps: seq<Period>): (ks: seq<int>)
    ensures |ks| == |ps| && forall i :: 0 <= i < |ps| ==> ks[i] == ps[i].key
  {
    if ps == [] then [] else [ps[0].key] + PeriodKeys(ps[1..])
  }

  /** What the `defaultdict` factory makes for a key seen the first time. */
  function Fresh(k: int): Period
  {
    Period(k, 0.0, 0, [])
  }

  /** The four updates of one loop turn to the record's period. */
  function Update(p: Period, e: Entry): Period
  {
    Period(p.key, p.total + AmountOf(e), p.count + 1, Bump(p.categories, CategoryOf(e), AmountOf(e)))
  }

  /** `summaries[k]` updated with record `e`: in place, or as a new period
      at the end. */
  function AddTo(ps: seq<Period>, k: int, e: Entry): seq<Period>
  {
    if ps == [] then [Update(Fresh(k), e)]
    else if ps[0].key == k then [Update(ps[0], e)] + ps[1..]
    else [ps[0]] + AddTo(ps[1..], k, e)
  }

  /** `summaries` after the loop has run over `es`. */
  function Grouped(es: seq<Entry>, key: Entry -> int): seq<Period>
  {
    if es == [] then []
    else AddTo(Grouped(es[..|es| - 1], key), key(es[|es| - 1]), es[|es| - 1])
  }

  /** The reference definition of the period for key `k`: the total, the
      number and the per-category sums of the records with that key. */
  function PeriodOf(es: seq<Entry>, key: Entry -> int, k: int): Period
  {
    var s := Select(es, key, k);
    Period(k, TotalOf(s), |s|, Tallied(s, CategoryOf))
  }

  lemma {:induction false} AddToFound(ps: seq<Period>, k: int, e: Entry, m: int)
    requires 0 <= m < |ps| && ps[m].key == k
    requires forall j :: 0 <= j < m ==> ps[j].key != k
    ensures AddTo(ps, k, e) == ps[m := Update(ps[m], e)]
  {
    if m > 0 {
      AddToFound(ps[1..], k, e, m - 1);
    }
  }

  lemma {:induction false} AddToNew(ps: seq<Period>, k: int, e: Entry)
    requires forall j :: 0 <= j < |ps| ==> ps[j].key != k
    ensures AddTo(ps, k, e) == ps + [Update(Fresh(k), e)]
  {
    if ps != [] {
      AddToNew(ps[1..], k, e);
      assert ps == [ps[0]] + ps[1..];
    }
  }

  /** One more record either updates its own period or opens it. */
  lemma PeriodOfSnoc(init: seq<Entry>, e: Entry, key: Entry -> int, k: int)
    ensures PeriodOf(init + [e], key, k) ==
      if key(e) == k then Update(PeriodOf(init, key, k), e) else PeriodOf(init, key, k)
  {
    var es := init + [e];
    assert es[..|es| - 1] == init;
    var s := Select(init, key, k);
    assert Select(es, key, k) == s + (if key(e) == k then [e] else []);
    if key(e) == k {
      var s' := s + [e];
      assert s'[..|s'| - 1] == s;
      assert TotalOf(s') == TotalOf(s) + AmountOf(e);
      assert Tallied(s', CategoryOf) == Bump(Tallied(s, CategoryOf), CategoryOf(e), AmountOf(e));
      assert Select(es, key, k) == s';
      assert PeriodOf(es, key, k) == Period(k, TotalOf(s'), |s'|, Tallied(s', CategoryOf));
      assert PeriodOf(init, key, k) == Period(k, TotalOf(s), |s|, Tallied(s, CategoryOf));
    } else {
      assert Select(es, key, k) == s;
    }
  }

  /** `summaries[k]` gains a key only when the key is new. */
  lemma {:induction false} AddToKeys(ps: seq<Period>, k: int, e: Entry)
    ensures PeriodKeys(AddTo(ps, k, e)) == if k in PeriodKeys(ps) then PeriodKeys(ps) else PeriodKeys(ps) + [k]
  {
    if ps != [] && ps[0].key != k {
      AddToKeys(ps[1..], k, e);
      assert PeriodKeys(ps) == [ps[0].key] + PeriodKeys(ps[1..]);
    }
  }

  lemma SelectSnoc(init: seq<Entry>, e: Entry, key: Entry -> int, k: int)
    ensures Select(init + [e], key, k) == Select(init, key, k) + (if key(e) == k then [e] else [])
  {
    assert (init + [e])[..|init + [e]| - 1] == init;
  }

  /** The periods' keys are those the table has records with, each once. */
  lemma {:induction false} GroupedKeys(es: seq<Entry>, key: Entry -> int)
    ensures Distinct(PeriodKeys(Grouped(es, key)))
    ensures forall k :: k in PeriodKeys(Grouped(es, key)) <==> Select(es, key, k) != []
  {
    if es != [] {
      var init, e := es[..|es| - 1], es[|es| - 1];
      assert es == init + [e];
      GroupedKeys(init, key);
      AddToKeys(Grouped(init, key), key(e), e);
      forall k ensures Select(es, key, k) == Select(init, key, k) + (if key(e) == k then [e] else []) {
        SelectSnoc(init, e, key, k);
      }
    }
  }

  /** A loop turn whose key already has a period keeps every period equal
      to its reference period. */
  lemma AddToPeriodsFound(g0: seq<Period>, init: seq<Entry>, e: Entry, key: Entry -> int, m: nat)
    requires Distinct(PeriodKeys(g0))
    requires m < |g0| && g0[m].key == key(e)
    requires forall i :: 0 <= i < |g0| ==> g0[i] == PeriodOf(init, key, g0[i].key)
    ensures forall i :: 0 <= i < |AddTo(g0, key(e), e)| ==>
      AddTo(g0, key(e), e)[i] == PeriodOf(init + [e], key, AddTo(g0, key(e), e)[i].key)
  {
    var k := key(e);
    var g := AddTo(g0, k, e);
    forall j | 0 <= j < m ensures g0[j].key != k {
      assert PeriodKeys(g0)[j] != PeriodKeys(g0)[m];
    }
    AddToFound(g0, k, e, m);
    forall i | 0 <= i < |g| ensures g[i] == PeriodOf(init + [e], key, g[i].key) {
      PeriodOfSnoc(init, e, key, g0[i].key);
      if i != m {
        assert PeriodKeys(g0)[i] != PeriodKeys(g0)[m];
      }
    }
  }

  /** A loop turn with a key not seen before appends its reference period
      and keeps the others. */
  lemma AddToPeriodsNew(g0: seq<Period>, init: seq<Entry>, e: Entry, key: Entry -> int)
    requires key(e) !in PeriodKeys(g0)
    requires Select(init, key, key(e)) == []
    requires forall i :: 0 <= i < |g0| ==> g0[i] == PeriodOf(init, key, g0[i].key)
    ensures forall i :: 0 <= i < |AddTo(g0, key(e), e)| ==>
      AddTo(g0, key(e), e)[i] == PeriodOf(init + [e], key, AddTo(g0, key(e), e)[i].key)
  {
    var k := key(e);
    var g := AddTo(g0, k, e);
    AddToNew(g0, k, e);
    forall i | 0 <= i < |g| ensures g[i] == PeriodOf(init + [e], key, g[i].key) {
      if i < |g0| {
        PeriodOfSnoc(init, e, key, g0[i].key);
        assert PeriodKeys(g0)[i] != k;
      } else {
        PeriodOfSnoc(init, e, key, k);
      }
    }
  }

  /** One loop turn keeps every period equal to its reference period. */
  lemma AddToPeriods(g0: seq<Period>, init: seq<Entry>, e: Entry, key: Entry -> int)
    requires Distinct(PeriodKeys(g0))
    requires forall k :: k in PeriodKeys(g0) <==> Select(init, key, k) != []
    requires forall i :: 0 <= i < |g0| ==> g0[i] == PeriodOf(init, key, g0[i].key)
    ensures forall i :: 0 <= i < |AddTo(g0, key(e), e)| ==>
      AddTo(g0, key(e), e)[i] == PeriodOf(init + [e], key, AddTo(g0, key(e), e)[i].key)
  {
    var k := key(e);
    if k in PeriodKeys(g0) {
      var m :| 0 <= m < |g0| && PeriodKeys(g0)[m] == k;
      AddToPeriodsFound(g0, init, e, key, m);
    } else {
      AddToPeriodsNew(g0, init, e, key);
    }
  }

  /** The grouping holds, in first-occurrence order, one period per key the
      table has records with, and each is its reference period. */
  lemma {:induction false} GroupedPeriods(es: seq<Entry>, key: Entry -> int)
    ensures Distinct(PeriodKeys(Grouped(es, key)))
    ensures forall k :: k in PeriodKeys(Grouped(es, key)) <==> Select(es, key, k) != []
    ensures forall i :: 0 <= i < |Grouped(es, key)| ==> Grouped(es, key)[i] == PeriodOf(es, key, Grouped(es, key)[i].key)
  {
    GroupedKeys(es, key);
    if es != [] {
      var init, e := es[..|es| - 1], es[|es| - 1];
      assert es == init + [e];
      GroupedKeys(init, key);
      GroupedPeriods(init, key);
      AddToPeriods(Grouped(init, key), init, e, key);
    }
  }

  lemma SumByCons<T>(x: T, s: seq<T>, w: T -> real)
    ensures SumBy([x] + s, w) == w(x) + SumBy(s, w)
  {
    SumByAppend([x], s, w);
    SumBySingle(x, w);
  }

  /** A loop turn adds the record's amount to the totals and one to the
      counts. */
  lemma {:induction false} AddToSums(ps: seq<Period>, k: int, e: Entry)
    ensures SumBy(AddTo(ps, k, e), TotalIn) == SumBy(ps, TotalIn) + AmountOf(e)
    ensures SumBy(AddTo(ps, k, e), CountIn) == SumBy(ps, CountIn) + 1.0
  {
    if ps == [] {
      SumBySingle(Update(Fresh(k), e), TotalIn);
      SumBySingle(Update(Fresh(k), e), CountIn);
    } else {
      assert ps == [ps[0]] + ps[1..];
      SumByCons(ps[0], ps[1..], TotalIn);
      SumByCons(ps[0], ps[1..], CountIn);
      if ps[0].key == k {
        SumByCons(Update(ps[0], e), ps[1..], TotalIn);
        SumByCons(Update(ps[0], e), ps[1..], CountIn);
      } else {
        AddToSums(ps[1..], k, e);
        SumByCons(ps[0], AddTo(ps[1..], k, e), TotalIn);
        SumByCons(ps[0], AddTo(ps[1..], k, e), CountIn);
      }
    }
  }

  /** Every record is counted once: the counts add up to the number of
      records and the totals to the grand total. */
  lemma {:induction false} GroupedSums(es: seq<Entry>, key: Entry -> int)
    ensures SumBy(Grouped(es, key), CountIn) == |es| as real
    ensures SumBy(Grouped(es, key), TotalIn) == TotalOf(es)
  {
    if es != [] {
      var init, e := es[..|es| - 1], es[|es| - 1];
      GroupedSums(init, key);
      AddToSums(Grouped(init, key), key(e), e);
    }
  }

  /** Within a period the category sums add up to the period's total, and
      the period's record count is at least one. */
  lemma PeriodFacts(es: seq<Entry>, key: Entry -> int, k: int)
    requires Select(es, key, k) != []
    ensures SumBy(PeriodOf(es, key, k).categories, Amount) == PeriodOf(es, key, k).total
    ensures Distinct(Keys(PeriodOf(es, key, k).categories))
    ensures PeriodOf(es, key, k).count >= 1 && |PeriodOf(es, key, k).categories| >= 1
  {
    var s := Select(es, key, k);
    TalliedFacts(s, CategoryOf);
    assert s[0] in s;
    assert CategoryOf(s[0]) in Keys(Tallied(s, CategoryOf));
  }

  /** The loop over the records that fills `summaries`. */
  method GroupByPeriod(es: seq<Entry>, key: Entry -> int) returns (ps: seq<Period>)
    ensures ps == Grouped(es, key)
    ensures Distinct(PeriodKeys(ps))
    ensures forall k :: k in PeriodKeys(ps) <==> Select(es, key, k) != []
    ensures forall i :: 0 <= i < |ps| ==> ps[i] == PeriodOf(es, key, ps[i].key)
    ensures SumBy(ps, CountIn) == |es| as real && SumBy(ps, TotalIn) == TotalOf(es)
  {
    ps := [];
    for i := 0 to |es|
      invariant ps == Grouped(es[..i], key)
    {
      assert es[..i + 1][..i] == es[..i];
      ps := AddTo(ps, key(es[i]), es[i]);
    }
    assert es[..|es|] == es;
    GroupedPeriods(es, key);
    GroupedSums(es, key);
  }

  // ---------------------------------------------------------------- the report

  /** `sorted(summaries.keys(), reverse=True)`. */
  predicate LaterPeriod(p: Period, q: Period)
  {
    q.key <= p.key
  }

  /** `sorted(categories.items(), key=lambda x: x[1], reverse=True)`. */
  predicate MoreSpent(a: (string, real), b: (string, real))
  {
    b.1 <= a.1
  }

  function Min(a: int, b: int): int { if a < b then a else b }

  /** The "Top categories" lines: only for a period with more than one
      category, the first three by amount with their share of the
      period's total. */
  function TopCategories(p: Period): seq<Line>
    requires p.total != 0.0
  {
    if |p.categories| > 1 then
      var s := Sort(MoreSpent, p.categories);
      SortLength(MoreSpent, p.categories);
      WithShares(s[..Min(3, |s|)], p.total)
    else []
  }

  /** What a period's block shows: its key, total, count, average and top
      categories. */
  datatype PeriodReport = PeriodReport(key: int, total: real, count: nat, average: real, top: seq<Line>)

  function Report(p: Period): PeriodReport
    requires p.count > 0 && p.total != 0.0
  {
    PeriodReport(p.key, p.total, p.count, p.total / (p.count as real), TopCategories(p))
  }

  function Blocks(ps: seq<Period>): (rs: seq<PeriodReport>)
    requires forall p :: p in ps ==> p.count > 0 && p.total != 0.0
    ensures |rs| == |ps| && forall i :: 0 <= i < |ps| ==> rs[i] == Report(ps[i])
  {
    if ps == [] then [] else [Report(ps[0])] + Blocks(ps[1..])
  }

  /** The top list has at most three lines, and has lines exactly when
      the period has more than one category. */
  lemma TopSize(p: Period)
    requires p.total != 0.0
    ensures |TopCategories(p)| <= 3
    ensures TopCategories(p) == [] <==> |p.categories| <= 1
    ensures |p.categories| > 1 ==> |TopCategories(p)| == Min(3, |p.categories|)
  {
    SortLength(MoreSpent, p.categories);
  }

  /** Each top line is a category of the period with its sum and its
      share of the period's total in percent. */
  lemma TopLines(p: Period)
    requires p.total != 0.0
    ensures forall i :: 0 <= i < |TopCategories(p)| ==>
      (TopCategories(p)[i].0, TopCategories(p)[i].1) in p.categories &&
      TopCategories(p)[i].2 == TopCategories(p)[i].1 / p.total * 100.0
  {
    if |p.categories| > 1 {
      var s := Sort(MoreSpent, p.categories);
      SortLength(MoreSpent, p.categories);
      SortMembers(MoreSpent, p.categories);
      var top := TopCategories(p);
      forall i | 0 <= i < |top| ensures (top[i].0, top[i].1) in p.categories {
        assert (top[i].0, top[i].1) == s[i];
      }
    }
  }

  lemma MoreSpentOrder()
    ensures TotalPreorder(MoreSpent)
  {
  }

  /** Ranked categories come largest sum first. */
  lemma RankedPair(cs: seq<(string, real)>, i: int, j: int)
    requires 0 <= i < j < |Sort(MoreSpent, cs)|
    ensures Sort(MoreSpent, cs)[j].1 <= Sort(MoreSpent, cs)[i].1
  {
    MoreSpentOrder();
    SortSorted(MoreSpent, cs);
  }

  /** The top lines come largest sum first. */
  lemma TopDescending(p: Period)
    requires p.total != 0.0
    ensures forall i, j :: 0 <= i < j < |TopCategories(p)| ==> TopCategories(p)[j].1 <= TopCategories(p)[i].1
  {
    if |p.categories| > 1 {
      SortLength(MoreSpent, p.categories);
      var top := TopCategories(p);
      forall i, j | 0 <= i < j < |top| ensures top[j].1 <= top[i].1 {
        RankedPair(p.categories, i, j);
      }
    }
  }

  /** A category ranked later was not spent on more. */
  lemma RankedBefore(cs: seq<(string, real)>, i: int, j: int)
    requires 0 <= i < |Sort(MoreSpent, cs)| && 0 <= j < |Sort(MoreSpent, cs)|
    ensures Sort(MoreSpent, cs)[i].1 < Sort(MoreSpent, cs)[j].1 ==> j < i
  {
    if i < j {
      RankedPair(cs, i, j);
    }
  }

  /** The top lines name the first ranked categories. */
  lemma TopNames(p: Period)
    requires p.total != 0.0
    ensures |TopCategories(p)| <= |Sort(MoreSpent, p.categories)|
    ensures forall k :: 0 <= k < |TopCategories(p)| ==>
      TopCategories(p)[k].1 == Sort(MoreSpent, p.categories)[k].1 &&
      Sort(MoreSpent, p.categories)[k].0 in LineCategories(TopCategories(p))
  {
    SortLength(MoreSpent, p.categories);
    var top := TopCategories(p);
    forall k | 0 <= k < |top|
      ensures Sort(MoreSpent, p.categories)[k].0 in LineCategories(top)
    {
      assert LineCategories(top)[k] == top[k].0;
    }
  }

  /** No category left out of the top lines was spent on more than any
      listed one. */
  lemma TopOmitted(p: Period, x: (string, real))
    requires p.total != 0.0
    requires x in p.categories && x.0 !in LineCategories(TopCategories(p))
    ensures forall i :: 0 <= i < |TopCategories(p)| ==> x.1 <= TopCategories(p)[i].1
  {
    var s := Sort(MoreSpent, p.categories);
    SortMembers(MoreSpent, p.categories);
    TopNames(p);
    assert x in s;
    var j :| 0 <= j < |s| && s[j] == x;
    forall i | 0 <= i < |TopCategories(p)| ensures x.1 <= TopCategories(p)[i].1 {
      RankedBefore(p.categories, i, j);
    }
  }

  /** The summary as printed: the periods latest first. */
  function Summaries(es: seq<Entry>, g: Granularity): seq<PeriodReport>
    requires forall e :: e in es ==> e.expense.amount > 0.0
  {
    var ps := Sort(LaterPeriod, Grouped(es, PeriodOfEntry(g)));
    PositivePeriods(es, PeriodOfEntry(g));
    SortMembers(LaterPeriod, Grouped(es, PeriodOfEntry(g)));
    Blocks(ps)
  }

  /** With positive amounts every period has a record and a positive total. */
  lemma PositivePeriods(es: seq<Entry>, key: Entry -> int)
    requires forall e :: e in es ==> e.expense.amount > 0.0
    ensures forall p :: p in Grouped(es, key) ==> p.count > 0 && p.total > 0.0
  {
    GroupedPeriods(es, key);
    forall p | p in Grouped(es, key) ensures p.count > 0 && p.total > 0.0 {
      var i :| 0 <= i < |Grouped(es, key)| && Grouped(es, key)[i] == p;
      assert p.key in PeriodKeys(Grouped(es, key));
      var s := Select(es, key, p.key);
      SumByPositive(s, AmountOf);
    }
  }

  /** The periods are listed in strictly decreasing key order, each once. */
  lemma SummariesOrder(es: seq<Entry>, g: Granularity)
    requires forall e :: e in es ==> e.expense.amount > 0.0
    ensures forall i, j :: 0 <= i < j < |Summaries(es, g)| ==> Summaries(es, g)[j].key < Summaries(es, g)[i].key
  {
    var key := PeriodOfEntry(g);
    var g0 := Grouped(es, key);
    var ps := Sort(LaterPeriod, g0);
    GroupedPeriods(es, key);
    SortSorted(LaterPeriod, g0);
    assert Distinct(g0) by {
      forall i, j | 0 <= i < j < |g0| ensures g0[i] != g0[j] {
        assert PeriodKeys(g0)[i] != PeriodKeys(g0)[j];
      }
    }
    DistinctPermutation(g0, ps);
    forall i, j | 0 <= i < j < |ps| ensures ps[j].key < ps[i].key {
      var m := SortedFrom(LaterPeriod, g0, i);
      var n := SortedFrom(LaterPeriod, g0, j);
      if m != n {
        assert PeriodKeys(g0)[m] != PeriodKeys(g0)[n];
      }
    }
  }

  function ReportKeys(rs: seq<PeriodReport>): (ks: seq<int>)
    ensures |ks| == |rs| && forall i :: 0 <= i < |rs| ==> ks[i] == rs[i].key
  {
    if rs == [] then [] else [rs[0].key] + ReportKeys(rs[1..])
  }

  lemma {:induction false} BlockKeys(ps: seq<Period>)
    requires forall p :: p in ps ==> p.count > 0 && p.total != 0.0
    ensures ReportKeys(Blocks(ps)) == PeriodKeys(ps)
  {
  }

  /** Sorting the periods keeps their keys. */
  lemma SortedKeys(g0: seq<Period>, k: int)
    ensures k in PeriodKeys(Sort(LaterPeriod, g0)) <==> k in PeriodKeys(g0)
  {
    var ps := Sort(LaterPeriod, g0);
    SortMembers(LaterPeriod, g0);
    if k in PeriodKeys(ps) {
      var i :| 0 <= i < |ps| && PeriodKeys(ps)[i] == k;
      var m := SortedFrom(LaterPeriod, g0, i);
      assert PeriodKeys(g0)[m] == k;
    }
    if k in PeriodKeys(g0) {
      var m :| 0 <= m < |g0| && PeriodKeys(g0)[m] == k;
      assert g0[m] in ps;
      var i :| 0 <= i < |ps| && ps[i] == g0[m];
      assert PeriodKeys(ps)[i] == k;
    }
  }

  /** The summary names exactly the periods the table has records in. */
  lemma SummariesKeys(es: seq<Entry>, g: Granularity)
    requires forall e :: e in es ==> e.expense.amount > 0.0
    ensures forall k :: k in ReportKeys(Summaries(es, g)) <==> Select(es, PeriodOfEntry(g), k) != []
  {
    var key := PeriodOfEntry(g);
    var g0 := Grouped(es, key);
    GroupedKeys(es, key);
    PositivePeriods(es, key);
    SortMembers(LaterPeriod, g0);
    BlockKeys(Sort(LaterPeriod, g0));
    forall k ensures k in ReportKeys(Summaries(es, g)) <==> k in PeriodKeys(g0) {
      SortedKeys(g0, k);
    }
  }

  /** Block `i` shows its period's total, the number of its records,
      their average and its top categories. */
  lemma SummaryBlock(es: seq<Entry>, g: Granularity, i: int)
    requires forall e :: e in es ==> e.expense.amount > 0.0
    requires 0 <= i < |Summaries(es, g)|
    ensures var r := Summaries(es, g)[i];
      var p := PeriodOf(es, PeriodOfEntry(g), r.key);
      && r.total == p.total && r.count == p.count
      && p.count > 0 && p.total > 0.0
      && r.average == p.total / (p.count as real)
      && r.top == TopCategories(p)
  {
    var key := PeriodOfEntry(g);
    var g0 := Grouped(es, key);
    var ps := Sort(LaterPeriod, g0);
    GroupedPeriods(es, key);
    PositivePeriods(es, key);
    SortMembers(LaterPeriod, g0);
    var m := SortedFrom(LaterPeriod, g0, i);
    assert ps[i] == PeriodOf(es, key, ps[i].key);
    assert Summaries(es, g)[i] == Report(ps[i]);
  }

  datatype SummaryOutcome = NothingToSummarize | InvalidChoice | Summarized(reports: seq<PeriodReport>)

  /** `generate_expense_summary`. Every stored date must be one `strptime`
      reads (the program does not catch the error otherwise), and the
      amounts positive, as the ledger keeps them (a zero period total
      would stop the program on the share's division). */
  method GenerateExpenseSummary(es: seq<Entry>, answer: string) returns (out: SummaryOutcome)
    requires forall e :: e in es ==> ParseDate(e.expense.date).Some? && e.expense.amount > 0.0
    ensures out.NothingToSummarize? <==> es == []
    ensures out.InvalidChoice? <==> es != [] && ParseGranularity(answer).None?
    ensures out.Summarized? ==> out.reports == Summaries(es, ParseGranularity(answer).value)
  {
    if es == [] {
      return NothingToSummarize;
    }
    var g := ParseGranularity(answer);
    if g.None? {
      return InvalidChoice;
    }
    var key := PeriodOfEntry(g.value);
    var summaries := GroupByPeriod(es, key);
    PositivePeriods(es, key);
    SortMembers(LaterPeriod, summaries);
    var ordered := Sort(LaterPeriod, summaries);
    return Summarized(Blocks(ordered));
  }
}
