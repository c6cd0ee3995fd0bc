/** The data `visualize_expenses` hands to the plotting library: the
    per-category totals behind the pie and bar charts, and the per-date
    series behind the line chart. Drawing is not modelled. */
module Charts {
  import opened Text
  import opened Dates
  import opened Sorting
  import opened Sums
  import opened Records
  import opened Tally

  datatype Chart =
    | NothingToVisualize
    | Pie(slices: seq<(string, real)>)
    | Line(points: seq<(string, real)>)
    | Bar(bars: seq<(string, real)>)
    | CouldNotCreate
    | InvalidChoice

  /** `sorted(date_totals.items())`: the amounts summed per date text, in
      increasing order of the text. */
  function DateSeries(es: seq<Entry>): seq<(string, real)>
  {
    Sort(KeyFirst, Tallied(es, DateOf))
  }

  /** Every point's date text is one `strptime('%Y-%m-%d')` reads. */
  predicate Readable(points: seq<(string, real)>)
  {
    forall i :: 0 <= i < |points| ==> ParseDate(points[i].0).Some?
  }

  /** The line chart's series has one point per date text of the table, in
      strictly increasing text order, each carrying the total spent under
      that text, and the points add up to the grand total. */
  lemma DateSeriesFacts(es: seq<Entry>)
    ensures forall i, j :: 0 <= i < j < |DateSeries(es)| ==> Below(DateSeries(es)[i].0, DateSeries(es)[j].0)
    ensures forall d :: d in Keys(DateSeries(es)) <==> Select(es, DateOf, d) != []
    ensures forall i :: 0 <= i < |DateSeries(es)| ==>
      DateSeries(es)[i].1 == TotalOf(Select(es, DateOf, DateSeries(es)[i].0))
    ensures SumBy(DateSeries(es), Amount) == TotalOf(es)
  {
    SortedTallyOrder(es, DateOf);
    SortedTallyContents(es, DateOf);
  }

  /** The series can be plotted exactly when every stored date is read by
      `strptime`; for a table the ledger accepted, always. */
  lemma SeriesReadable(es: seq<Entry>)
    ensures Readable(DateSeries(es)) <==> forall e :: e in es ==> ParseDate(e.expense.date).Some?
  {
    var s := DateSeries(es);
    DateSeriesFacts(es);
    if Readable(s) {
      forall e | e in es ensures ParseDate(e.expense.date).Some? {
        assert e in Select(es, DateOf, e.expense.date);
        var i :| 0 <= i < |s| && Keys(s)[i] == e.expense.date;
      }
    }
    if forall e :: e in es ==> ParseDate(e.expense.date).Some? {
      forall i | 0 <= i < |s| ensures ParseDate(s[i].0).Some? {
        assert Keys(s)[i] in Keys(s);
        var x := Select(es, DateOf, s[i].0)[0];
        assert x in Select(es, DateOf, s[i].0);
      }
    }
  }

  /** `visualize_expenses`: nothing to draw for an empty table; choice "1"
      and "3" chart the per-category totals (the dictionary in insertion
      order), "2" the per-date series, whose date texts are read back with
      `strptime` (a failure is reported, not drawn); anything else is
      refused. */
  method VisualizeExpenses(es: seq<Entry>, answer: string) returns (chart: Chart)
    ensures chart.NothingToVisualize? <==> es == []
    ensures chart.Pie? <==> es != [] && Strip(answer) == "1"
    ensures chart.Bar? <==> es != [] && Strip(answer) == "3"
    ensures chart.Line? <==> es != [] && Strip(answer) == "2" && Readable(DateSeries(es))
    ensures chart.CouldNotCreate? <==> es != [] && Strip(answer) == "2" && !Readable(DateSeries(es))
    ensures chart.InvalidChoice? <==> es != [] && Strip(answer) != "1" && Strip(answer) != "2" && Strip(answer) != "3"
    ensures chart.Pie? ==>
      && chart.slices == Tallied(es, CategoryOf)
      && Distinct(Keys(chart.slices))
      && SumBy(chart.slices, Amount) == TotalOf(es)
    ensures chart.Bar? ==>
      && chart.bars == Tallied(es, CategoryOf)
      && Distinct(Keys(chart.bars))
      && SumBy(chart.bars, Amount) == TotalOf(es)
    ensures chart.Line? ==> chart.points == DateSeries(es) && SumBy(chart.points, Amount) == TotalOf(es)
  {
    if es == [] {
      return NothingToVisualize;
    }
    var choice := Strip(answer);
    if choice == "1" {
      var categoryTotals := Accumulate(es, CategoryOf);
      return Pie(categoryTotals);
    } else if choice == "2" {
      var dateTotals := Accumulate(es, DateOf);
      var points := Sort(KeyFirst, dateTotals);
      if !Readable(points) {
        return CouldNotCreate;
      }
      DateSeriesFacts(es);
      return Line(points);
    } else if choice == "3" {
      var categoryTotals := Accumulate(es, CategoryOf);
      return Bar(categoryTotals);
    }
    return InvalidChoice;
  }
}
