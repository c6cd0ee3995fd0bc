/** The three read-only reports over the table: `view_all_expenses`,
    `filter_expenses_by_category` and `calculate_total_expenses`. What they
    print is modelled as the rows they print, in the order they print them. */
module Reports {
  import opened Options
  import opened Text
  import opened Dates
  import opened Sorting
  import opened Sums
  import opened Records
  import opened Tally

  // ---------------------------------------------------------------- listing order

  /** The order `sorted(..., key=lambda x: x[1]['date'], reverse=True)`
      lists in: `a` may come before `b` when its date TEXT is not below
      `b`'s. */
  predicate LaterText(a: Entry, b: Entry)
  {
    AtMost(b.expense.date, a.expense.date)
  }

  /** The listing as the program computes it: the date text, highest first. */
  function ListingAsWritten(es: seq<Entry>): seq<Entry>
  {
    Sort(LaterText, es)
  }

  /** The calendar day a date text stands for (`strptime` then
      `toordinal()`); a stored record always has one, other text gets 0. */
  function DayNumber(s: string): int
  {
    match ParseDate(s)
    case Some(d) => Ordinal(d)
    case None => 0
  }

  /** `a` may come before `b` when its calendar day is not earlier. */
  predicate LaterDay(a: Entry, b: Entry)
  {
    DayNumber(b.expense.date) <= DayNumber(a.expense.date)
  }

  /** The listing as intended, "most recent first": by calendar day, latest
      first, records of one day in table order. */
  function Listing(es: seq<Entry>): seq<Entry>
  {
    Sort(LaterDay, es)
  }

  /** Day numbers order date texts as the calendar orders the dates read. */
  lemma DayNumberOrder(a: string, b: string)
    requires ParseDate(a).Some? && ParseDate(b).Some?
    ensures DayNumber(a) <= DayNumber(b) <==> NotAfter(ParseDate(a).value, ParseDate(b).value)
    ensures DayNumber(a) == DayNumber(b) <==> ParseDate(a) == ParseDate(b)
  {
    OrdinalOrder(ParseDate(a).value, ParseDate(b).value);
  }

  /** The listing holds every record once, the latest day first, and the
      records of one day in the order they were added. */
  lemma ListingOrder(es: seq<Entry>)
    requires IdsIncreasing(es)
    ensures multiset(Listing(es)) == multiset(es)
    ensures forall i, j :: 0 <= i < j < |Listing(es)| ==>
      DayNumber(Listing(es)[j].expense.date) <= DayNumber(Listing(es)[i].expense.date)
    ensures forall i, j ::
      (0 <= i < j < |Listing(es)| && DayNumber(Listing(es)[i].expense.date) == DayNumber(Listing(es)[j].expense.date))
      ==> Listing(es)[i].id < Listing(es)[j].id
  {
    assert TotalPreorder(LaterDay);
    SortSorted(LaterDay, es);
    SortStable(LaterDay, (a: Entry, b: Entry) => a.id < b.id, es);
  }

  /** What the program's own sort promises: every record once, the date
      text never increasing along the listing, and records with the same
      date text in the order they were added. */
  lemma ListingAsWrittenOrder(es: seq<Entry>)
    requires IdsIncreasing(es)
    ensures multiset(ListingAsWritten(es)) == multiset(es)
    ensures forall i, j :: 0 <= i < j < |ListingAsWritten(es)| ==>
      AtMost(ListingAsWritten(es)[j].expense.date, ListingAsWritten(es)[i].expense.date)
    ensures forall i, j ::
      (0 <= i < j < |ListingAsWritten(es)| && ListingAsWritten(es)[i].expense.date == ListingAsWritten(es)[j].expense.date)
      ==> ListingAsWritten(es)[i].id < ListingAsWritten(es)[j].id
  {
    assert TotalPreorder(LaterText) by {
      StringOrder();
    }
    SortSorted(LaterText, es);
    SortStable(LaterText, (a: Entry, b: Entry) => a.id < b.id, es);
    forall i, j | 0 <= i < j < |ListingAsWritten(es)| && ListingAsWritten(es)[i].expense.date == ListingAsWritten(es)[j].expense.date
      ensures LaterText(ListingAsWritten(es)[j], ListingAsWritten(es)[i])
    {
      AtMostReflexive(ListingAsWritten(es)[i].expense.date);
    }
  }

  /** For dates in the zero-padded form `strftime('%Y-%m-%d')` writes (the
      form of today's date when none is typed), the text order is the
      calendar order and the two listings are the same. */
  lemma ListingsAgree(es: seq<Entry>)
    requires forall e :: e in es ==>
      ParseDate(e.expense.date).Some? && FormatDate(ParseDate(e.expense.date).value) == e.expense.date
    ensures ListingAsWritten(es) == Listing(es)
  {
    forall a, b | a in es && b in es
      ensures LaterText(a, b) == LaterDay(a, b)
    {
      WrittenOrder(ParseDate(b.expense.date).value, ParseDate(a.expense.date).value);
      DayNumberOrder(b.expense.date, a.expense.date);
    }
    SortCongruent(LaterText, LaterDay, es);
  }

  /** `strptime` reads the unpadded "2024-9-30" as 30 September 2024. */
  lemma UnpaddedDate()
    ensures ParseDate("2024-9-30") == Some(Date(2024, 9, 30))
  {
    var a := "2024-9-30";
    DigitsValue4(a[..4]);
    assert a[5..] == "9-30" && a[7..] == "30";
  }

  lemma PaddedDate()
    ensures ParseDate("2024-10-01") == Some(Date(2024, 10, 1))
  {
    var b := "2024-10-01";
    DigitsValue4(b[..4]);
    assert b[5..] == "10-01" && b[8..] == "01";
  }

  /** As text, "2024-10-01" is below "2024-9-30": '1' comes before '9'. */
  lemma UnpaddedTextOrder()
    ensures AtMost("2024-10-01", "2024-9-30") && !AtMost("2024-9-30", "2024-10-01")
  {
    var a, b := "2024-9-30", "2024-10-01";
    assert a == a[..5] + a[5..] && b == b[..5] + b[5..] && a[..5] == b[..5];
    AtMostConcat(b[..5], b[5..], a[..5], a[5..]);
    AtMostConcat(a[..5], a[5..], b[..5], b[5..]);
  }

  /** Two records of the example below, stored in this order. */
  const Older := Entry(1, Expense("Food", 5.0, "2024-9-30", ""))
  const Newer := Entry(2, Expense("Food", 5.0, "2024-10-01", ""))

  /** Both records pass the checks of `add_expense`. */
  lemma ExampleRecorded()
    ensures Recorded([Older, Newer])
  {
    UnpaddedDate();
    PaddedDate();
    forall e | e in [Older, Newer]
      ensures e.expense.category != [] && e.expense.amount > 0.0 && ParseDate(e.expense.date).Some?
    {
      assert e == Older || e == Newer;
    }
  }

  /** The program accepts the unpadded "2024-9-30" as a date, and its text
      is above "2024-10-01": the listing as written puts 30 September
      before 1 October, the older record first, where the calendar listing
      puts it second. */
  lemma ListingNotChronological()
    ensures Recorded([Older, Newer])
    ensures ParseDate(Older.expense.date) == Some(Date(2024, 9, 30))
    ensures ParseDate(Newer.expense.date) == Some(Date(2024, 10, 1))
    ensures ListingAsWritten([Older, Newer]) == [Older, Newer]
    ensures Listing([Older, Newer]) == [Newer, Older]
  {
    ExampleRecorded();
    UnpaddedDate();
    PaddedDate();
    UnpaddedTextOrder();
    OrdinalOrder(Date(2024, 9, 30), Date(2024, 10, 1));
    assert DayNumber(Older.expense.date) < DayNumber(Newer.expense.date);
    SortPair(LaterText, Older, Newer);
    SortPair(LaterDay, Older, Newer);
  }

  // ---------------------------------------------------------------- view_all_expenses

  datatype View = NoExpenses | Table(rows: seq<Entry>, count: nat)

  /** `view_all_expenses`: a message when the table is empty, otherwise the
      listing and the number of records. */
  function ViewAllExpenses(es: seq<Entry>): (v: View)
    ensures v.NoExpenses? <==> es == []
    ensures v.Table? ==> multiset(v.rows) == multiset(es) && v.count == |v.rows|
    ensures v.Table? ==> v.rows == Listing(es)
  {
    if es == [] then NoExpenses
    else
      assert |multiset(Listing(es))| == |multiset(es)|;
      Table(Listing(es), |es|)
  }

  // ---------------------------------------------------------------- filter_expenses_by_category

  /** `sorted(set(expense['category'] for expense in expenses.values()))`. */
  function SortedCategories(es: seq<Entry>): seq<string>
  {
    Sort(AtMost, FirstOccurrences(KeySeq(es, CategoryOf)))
  }

  /** The numbered menu lists exactly the categories the table has records
      of. */
  lemma SortedCategoriesMembers(es: seq<Entry>)
    ensures forall c :: c in SortedCategories(es) <==> Select(es, CategoryOf, c) != []
  {
    var ks := KeySeq(es, CategoryOf);
    var d := FirstOccurrences(ks);
    SortMembers(AtMost, d);
    forall c ensures c in SortedCategories(es) <==> Select(es, CategoryOf, c) != [] {
      KeyOccurs(es, CategoryOf, c);
      if c in d {
        var i :| 0 <= i < |d| && d[i] == c;
      }
      if c in ks {
        var m :| 0 <= m < |ks| && ks[m] == c;
      }
    }
  }

  /** The numbered menu lists each category once, in strictly increasing
      order. */
  lemma SortedCategoriesOrder(es: seq<Entry>)
    ensures forall i, j :: 0 <= i < j < |SortedCategories(es)| ==>
      Below(SortedCategories(es)[i], SortedCategories(es)[j])
  {
    var d := FirstOccurrences(KeySeq(es, CategoryOf));
    StringOrder();
    SortSorted(AtMost, d);
    DistinctPermutation(d, SortedCategories(es));
  }

  /** What the typed choice selects: a number picks that line of the menu
      (out of range is an error), anything else is title-cased. */
  datatype Choice = Chosen(category: string) | BadNumber

  function Resolve(cats: seq<string>, answer: string): (c: Choice)
    ensures c.BadNumber? <==> IsDigits(Strip(answer)) && !(1 <= DigitsValue(Strip(answer)) <= |cats|)
  {
    var choice := Strip(answer);
    if IsDigits(choice) then
      var n := DigitsValue(choice);
      if 1 <= n <= |cats| then Chosen(cats[n - 1]) else BadNumber
    else Chosen(Title(choice))
  }

  /** Typing the number printed beside a category selects that category. */
  lemma ChooseByNumber(cats: seq<string>, n: nat)
    requires 1 <= n <= |cats|
    ensures Resolve(cats, Decimal(n)) == Chosen(cats[n - 1])
  {
    StripNoSpace(Decimal(n));
  }

  /** Typing a category's name back, in any case, selects it: stored
      categories are title-cased, and so is the typed name. */
  lemma ChooseByName(cats: seq<string>, name: string, answer: string)
    requires name == Title(name)
    requires Lower(Strip(answer)) == Lower(name) && !IsDigits(Strip(answer))
    ensures Resolve(cats, answer) == Chosen(name)
  {
    TitleIgnoresCase(Strip(answer), name);
  }

  datatype FilterOutcome =
    | NothingToFilter
    | InvalidNumber
    | NoMatch(category: string)
    | Matches(category: string, rows: seq<Entry>, total: real)

  /** `filter_expenses_by_category`: the records of the chosen category,
      listed latest first, and their total. */
  method FilterExpensesByCategory(es: seq<Entry>, answer: string) returns (out: FilterOutcome)
    ensures out.NothingToFilter? <==> es == []
    ensures out.InvalidNumber? <==> es != [] && Resolve(SortedCategories(es), answer).BadNumber?
    ensures out.NoMatch? <==>
      es != [] && Resolve(SortedCategories(es), answer).Chosen? &&
      Select(es, CategoryOf, Resolve(SortedCategories(es), answer).category) == []
    ensures (out.NoMatch? || out.Matches?) ==> out.category == Resolve(SortedCategories(es), answer).category
    ensures out.Matches? ==>
      && out.rows == Listing(Select(es, CategoryOf, out.category))
      && multiset(out.rows) == multiset(Select(es, CategoryOf, out.category))
      && out.total == TotalOf(Select(es, CategoryOf, out.category))
  {
    if es == [] {
      return NothingToFilter;
    }
    var choice := Resolve(SortedCategories(es), answer);
    if choice.BadNumber? {
      return InvalidNumber;
    }
    var category := choice.category;
    var filtered := Select(es, CategoryOf, category);
    if filtered == [] {
      return NoMatch(category);
    }
    var rows := Listing(filtered);
    var total := SumAmounts(rows);
    SumByPermutation(rows, filtered, AmountOf);
    return Matches(category, rows, total);
  }

  /** Every line of the numbered menu names a category with records, so a
      choice by number never comes back empty. */
  lemma MenuChoiceMatches(es: seq<Entry>, n: nat)
    requires 1 <= n <= |SortedCategories(es)|
    ensures Select(es, CategoryOf, SortedCategories(es)[n - 1]) != []
  {
    var c := SortedCategories(es)[n - 1];
    assert c in SortedCategories(es);
    SortedCategoriesMembers(es);
  }

  // ---------------------------------------------------------------- calculate_total_expenses

  /** A breakdown line: category, its total, and its share of the whole in
      percent. */
  type Line = (string, real, real)

  function LineAmount(l: Line): real { l.1 }
  function LineShare(l: Line): real { l.2 }

  /** Each tallied pair with its share `(amount / total) * 100`. */
  function WithShares(ps: seq<(string, real)>, total: real): (ls: seq<Line>)
    requires total != 0.0
    ensures |ls| == |ps|
    ensures forall i :: 0 <= i < |ps| ==> ls[i] == (ps[i].0, ps[i].1, ps[i].1 / total * 100.0)
  {
    if ps == [] then []
    else
      var last := ps[|ps| - 1];
      WithShares(ps[..|ps| - 1], total) + [(last.0, last.1, last.1 / total * 100.0)]
  }

  /** Shares of a sum are the sums of the shares. */
  lemma ShareSplit(a: real, b: real, total: real)
    requires total != 0.0
    ensures (a + b) / total * 100.0 == a / total * 100.0 + b / total * 100.0
  {
    var x, y := a / total, b / total;
    assert x * total == a && y * total == b;
    assert (x + y) * total == a + b;
  }

  /** The whole is 100 percent of itself. */
  lemma WholeShare(total: real)
    requires total != 0.0
    ensures total / total * 100.0 == 100.0
  {
  }

  /** The lines add up to the tallied amounts, and the shares to the same
      sum over the total, in percent. */
  lemma {:induction false} SharesSum(ps: seq<(string, real)>, total: real)
    requires total != 0.0
    ensures SumBy(WithShares(ps, total), LineAmount) == SumBy(ps, Amount)
    ensures SumBy(WithShares(ps, total), LineShare) == SumBy(ps, Amount) / total * 100.0
  {
    if ps != [] {
      var init := ps[..|ps| - 1];
      var last := ps[|ps| - 1];
      SharesSum(init, total);
      var ls := WithShares(ps, total);
      assert ls[..|ls| - 1] == WithShares(init, total);
      ShareSplit(SumBy(init, Amount), last.1, total);
    }
  }

  /** The breakdown lines: one per category, in category order. */
  function Breakdown(es: seq<Entry>): seq<Line>
    requires TotalOf(es) != 0.0
  {
    WithShares(Sort(KeyFirst, Tallied(es, CategoryOf)), TotalOf(es))
  }

  /** The categories a breakdown names, line by line. */
  function LineCategories(ls: seq<Line>): (cs: seq<string>)
    ensures |cs| == |ls| && forall i :: 0 <= i < |ls| ==> cs[i] == ls[i].0
  {
    if ls == [] then [] else [ls[0].0] + LineCategories(ls[1..])
  }

  /** The breakdown lists its categories in strictly increasing order. */
  lemma BreakdownOrder(es: seq<Entry>)
    requires TotalOf(es) != 0.0
    ensures forall i, j :: 0 <= i < j < |Breakdown(es)| ==> Below(Breakdown(es)[i].0, Breakdown(es)[j].0)
  {
    var sorted := Sort(KeyFirst, Tallied(es, CategoryOf));
    var ls := WithShares(sorted, TotalOf(es));
    assert ls == Breakdown(es);
    forall i, j | 0 <= i < j < |ls| ensures Below(ls[i].0, ls[j].0) {
      SortedTallyBelow(es, CategoryOf, i, j);
      assert ls[i].0 == sorted[i].0 && ls[j].0 == sorted[j].0;
    }
  }

  /** The breakdown names exactly the categories the table has records in. */
  lemma BreakdownMembers(es: seq<Entry>)
    requires TotalOf(es) != 0.0
    ensures forall c :: c in LineCategories(Breakdown(es)) <==> Select(es, CategoryOf, c) != []
  {
    var sorted := Sort(KeyFirst, Tallied(es, CategoryOf));
    var ls := WithShares(sorted, TotalOf(es));
    assert ls == Breakdown(es);
    assert LineCategories(ls) == Keys(sorted);
    forall c ensures c in LineCategories(ls) <==> Select(es, CategoryOf, c) != [] {
      SortedTallyHas(es, CategoryOf, c);
    }
  }


  /** Each line's amount is its category's total, and its share that
      amount over the grand total in percent. */
  lemma BreakdownLines(es: seq<Entry>)
    requires TotalOf(es) != 0.0
    ensures forall i :: 0 <= i < |Breakdown(es)| ==>
      Breakdown(es)[i].1 == TotalOf(Select(es, CategoryOf, Breakdown(es)[i].0)) &&
      Breakdown(es)[i].2 == Breakdown(es)[i].1 / TotalOf(es) * 100.0
  {
    SortedTallyContents(es, CategoryOf);
  }

  /** The amounts add up to the grand total and the shares to 100. */
  lemma BreakdownSums(es: seq<Entry>)
    requires TotalOf(es) != 0.0
    ensures SumBy(Breakdown(es), LineAmount) == TotalOf(es)
    ensures SumBy(Breakdown(es), LineShare) == 100.0
  {
    var total := TotalOf(es);
    var sorted := Sort(KeyFirst, Tallied(es, CategoryOf));
    SortedTallyContents(es, CategoryOf);
    SharesSum(sorted, total);
    WholeShare(total);
  }

  datatype Totals =
    | NothingToCalculate
    | Summary(lines: seq<Line>, total: real, count: nat, average: real)

  /** `calculate_total_expenses`: the grand total, the per-category
      breakdown (tallied by a loop over the records), the number of records
      and the average. The program divides by the total, so a table whose
      amounts cancel out is outside its reach. */
  method CalculateTotalExpenses(es: seq<Entry>) returns (out: Totals)
    requires es == [] || TotalOf(es) != 0.0
    ensures out.NothingToCalculate? <==> es == []
    ensures out.Summary? ==>
      && out.total == TotalOf(es)
      && out.lines == Breakdown(es)
      && out.count == |es|
      && out.average == out.total / (out.count as real)
  {
    if es == [] {
      return NothingToCalculate;
    }
    var total := TotalOf(es);
    var categoryTotals := Accumulate(es, CategoryOf);
    var lines := WithShares(Sort(KeyFirst, categoryTotals), total);
    var count := |es|;
    return Summary(lines, total, count, total / (count as real));
  }
}
