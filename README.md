# Expense tracker, modelled in Dafny

This project models the core of a console expense tracker. The program keeps
a table of expenses keyed by an integer id, and a counter that hands out the
next id. Each expense has a category, an amount, a date (text in the form
`YYYY-MM-DD`) and a description. The operations are:

- add an expense, after checking the category, the amount and the date;
- list all expenses, the most recent first;
- filter the expenses by a category chosen by name or by menu number;
- compute the grand total with a per-category breakdown, the count and the
  average;
- delete an expense by id, after a confirmation;
- group the expenses by week, month or year into period summaries;
- prepare the data behind the pie, line and bar charts.

Modules:

- Text: Python's `str.strip`, `str.lower`, `str.title` and `str.isdigit` on
  ASCII text, and Python's string order.
- Dates: `datetime.strptime(s, '%Y-%m-%d')`, `strftime('%Y-%m-%d')`, day
  numbers (`toordinal`), `weekday()`, and the week, month and year keys.
- Sorting: Python's `sorted` as a stable insertion sort, and its
  properties.
- Sums: sums over sequences.
- Records: the table as a sequence in insertion order (the order a Python
  `dict` keeps), its dictionary view `Lookup`, selection and deletion.
- Tally: the `defaultdict(float)` accumulation `d[key] += amount`.
- Validators: `validate_date` and `validate_amount`.
- Ledger: the table and its counter as a class, with `add_expense` and
  `delete_expense` as methods.
- Reports: `view_all_expenses`, `filter_expenses_by_category` and
  `calculate_total_expenses`.
- Summary: `generate_expense_summary`.
- Charts: the data `visualize_expenses` plots.

Console input is passed in as parameters:

- the typed texts;
- the amount as `float()` parsed it;
- the id as `int()` parsed it;
- today's date, for an empty date answer.

Printed output becomes result values. Amounts are exact reals.

Periods in a summary are listed latest first: the code sorts the period
keys with `reverse=True`, so February is listed before January, not in
calendar order. The model follows the code. `Summary.SummariesOrder` lists
the keys in strictly decreasing order, and `Summary.KeysFollowDates` shows
that a lower key means an earlier date.

## Model

| member | source | states |
|---|---|---|
| Validators.ValidateAmount | expense_tracker.py:86-102 | An amount is accepted exactly when `float()` parsed it and it is positive. The returned value is that amount when accepted and 0 otherwise. |
| Validators.ValidateDateMeaning | expense_tracker.py:69-83 | Every accepted date text names a calendar date. Every calendar date written as `strftime('%Y-%m-%d')` writes it is accepted. |
| Validators.ValidateExamples | expense_tracker.py:96-102 | -5, 0 and unparsable amounts are refused and 12.5 is accepted. Month 13 and 30 February are refused. |
| Dates.ParseDate | expense_tracker.py:80 | Whatever `strptime('%Y-%m-%d')` reads is a calendar date: year 1 to 9999, month 1 to 12, and a day within the month under the Gregorian leap-year rule. |
| Dates.ParseFormat | expense_tracker.py:133 | A date written by `strftime('%Y-%m-%d')` (the default date of a new expense) is read back by `strptime` as the same date. |
| Dates.ParseRefusals | expense_tracker.py:80 | Month 13, 30 February and 29 February 2023 are refused. |
| Dates.ParseMalformed | expense_tracker.py:80 | Trailing text and year 0 are refused. |
| Dates.ParseAccepts | expense_tracker.py:80 | 29 February 2024 is accepted, and so is the unpadded "2024-1-5". |
| Dates.DaysInMonth | expense_tracker.py:80 | A month has 28 to 31 days, and 29 only for February of a leap year. |
| Dates.Weekday | expense_tracker.py:342 | `date.weekday()` lies between 0 and 6, and is 0 exactly on the day numbers of Mondays. |
| Dates.WeekdayAnchor | expense_tracker.py:342 | The numbering is anchored to the calendar: 1 January 2024, a Monday, is day 738886 and has weekday 0. |
| Dates.WeekdayFromMonday | expense_tracker.py:342 | A date's weekday is the number of days since that known Monday, modulo 7. |
| Dates.WeekdayNext | expense_tracker.py:342 | The next day's weekday is one more, Sunday wrapping round to Monday. |
| Dates.OrdinalOrder | expense_tracker.py:342 | Day numbers order dates as the calendar does, and two dates share a day number only when they are equal. |
| Dates.WeekStart | expense_tracker.py:342 | `date - timedelta(days=date.weekday())` is a Monday within the six days before the date. |
| Dates.SameWeek | expense_tracker.py:342 | Two day numbers step back to the same Monday exactly when no Monday comes after the earlier one and on or before the later one. |
| Dates.SameWeekStart | expense_tracker.py:342 | Two dates have the same week start exactly when no Monday comes after the earlier date and on or before the later one. |
| Dates.MonthKeyOrder | expense_tracker.py:346 | Two dates share the `%Y-%m` key exactly when they share year and month. The keys order by year, then by month. |
| Dates.KeysFollowCalendar | expense_tracker.py:341-350 | For a later date, the week, month and year keys are all at least as large. |
| Dates.WrittenOrder | expense_tracker.py:170 | For dates in zero-padded `%Y-%m-%d` form, the text order is the calendar order. |
| Dates.Pad2Order | expense_tracker.py:133 | Zero-padded two-digit fields compare as text as they do as numbers. |
| Dates.Pad4Order | expense_tracker.py:133 | Zero-padded four-digit years compare as text as they do as numbers. |
| Text.Strip | expense_tracker.py:118 | `strip()` returns the slice of the input without leading or trailing white space. Everything cut off is white space. |
| Text.StripEmpty | expense_tracker.py:119 | A stripped category is empty exactly when the input was all white space. |
| Text.StripNoSpace | expense_tracker.py:118 | Text without white space is left unchanged by `strip()`. |
| Text.Lower | expense_tracker.py:300 | `lower()` keeps the length and lower-cases each character. |
| Text.TitleAt | expense_tracker.py:143 | `title()` keeps the length. It upper-cases a letter that starts a word and lower-cases every other letter. |
| Text.TitleIdempotent | expense_tracker.py:211 | Title-casing a title-cased category changes nothing, so a stored category typed back is matched as it is. |
| Text.TitleIgnoresCase | expense_tracker.py:211 | Two answers that differ only in letter case title-case to the same category. |
| Text.Decimal | expense_tracker.py:196-203 | The menu number printed for a category is a digit string that `isdigit()` accepts and `int()` reads back as that number. |
| Text.AtMostTotal | expense_tracker.py:196 | Python's string comparison is total. |
| Text.AtMostTransitive | expense_tracker.py:196 | Python's string comparison is transitive. |
| Text.AtMostAntisymmetric | expense_tracker.py:196 | Two strings that compare both ways are equal. |
| Sorting.SortLength | expense_tracker.py:170 | `sorted` keeps the number of elements. |
| Sorting.SortMembers | expense_tracker.py:170 | `sorted` keeps exactly the elements it was given. |
| Sorting.SortSorted | expense_tracker.py:170 | For a total preorder, the result of `sorted` is ordered. |
| Sorting.SortStable | expense_tracker.py:170 | `sorted` is stable: elements that tie keep their input order. |
| Sorting.InsertStable | expense_tracker.py:170 | Inserting an element that ties with earlier ones keeps it after them. |
| Sorting.DistinctPermutation | expense_tracker.py:192 | A reordering of elements without repeats has no repeats. |
| Sums.SumByPermutation | expense_tracker.py:226-229 | Summing amounts in a different order gives the same total. |
| Sums.SumByPositive | expense_tracker.py:249 | A sum of positive amounts over a non-empty table is positive. |
| Records.TotalOfPositive | expense_tracker.py:249-261 | The grand total of a non-empty table the ledger accepted is positive, so dividing by it is safe. |
| Records.SumAmounts | expense_tracker.py:226-229 | The running `total += amount` loop ends with the sum of the rows' amounts. |
| Records.Select | expense_tracker.py:214-215 | The filtered records are exactly those whose key matches. |
| Records.Lookup | expense_tracker.py:287-292 | An id is found exactly when the table has it, and the entry found is stored under that id. |
| Records.LookupAppend | expense_tracker.py:142-147 | Storing under a new id adds exactly that key to the dictionary. |
| Records.LookupWithout | expense_tracker.py:303 | `del expenses[id]` removes exactly that key from the dictionary. |
| Records.WithoutIncreasing | expense_tracker.py:303 | Deleting keeps the ids in insertion order. |
| Records.SelectIncreasing | expense_tracker.py:214-215 | Filtering keeps the ids in insertion order. |
| Tally.BumpKeys | expense_tracker.py:254 | `d[k] += x` adds `k` as a new last key only when it was missing. |
| Tally.BumpGet | expense_tracker.py:254 | `d[k] += x` adds `x` to the value of `k` and to no other key. |
| Tally.BumpSum | expense_tracker.py:254 | `d[k] += x` adds `x` to the sum of the values. |
| Tally.TalliedKeys | expense_tracker.py:252-254 | The accumulated keys are the table's keys in order of first occurrence. |
| Tally.TalliedGet | expense_tracker.py:252-254 | Each accumulated value is the total of the records with that key. |
| Tally.TalliedSum | expense_tracker.py:252-254 | The accumulated values add up to the grand total. |
| Tally.TalliedMembers | expense_tracker.py:252-254 | A key is accumulated exactly when the table has records with it. |
| Tally.Accumulate | expense_tracker.py:252-254 | The loop builds the dictionary. Its keys are distinct, each value is its key's total, and the values add up to the grand total. |
| Tally.SortedTallyOrder | expense_tracker.py:259-262 | The sorted dictionary items come in strictly increasing key order. |
| Tally.SortedTallyContents | expense_tracker.py:259-262 | The sorted items name exactly the keys with records and carry their totals, which add up to the grand total. |
| Ledger.ExpenseLedger.constructor | expense_tracker.py:23-24 | The table starts empty and the counter at 1. |
| Ledger.ExpenseLedger.Add | expense_tracker.py:117-150 | Refusals: an empty stripped category, a non-positive or unparsable amount, and a non-empty date answer that is not a calendar date. Each refusal changes nothing. Otherwise the record is stored under the counter, with a title-cased category, the stripped date or today's date, and a stripped description. The counter grows by one, the id was never used before, and no other key changes. |
| Ledger.ExpenseLedger.Delete | expense_tracker.py:270-310 | An empty table, a non-integer id, an unknown id and an unconfirmed answer each change nothing. A confirmed "yes" or "y" removes exactly that id. The counter never moves back. |
| Ledger.ConsistentAppend | expense_tracker.py:142-150 | Storing under the counter keeps the ledger invariant: ids below the counter, in insertion order, never reused, every record valid. The counter is a fresh id. |
| Ledger.ConsistentWithout | expense_tracker.py:303 | Deleting keeps the ledger invariant. |
| Reports.ListingAsWrittenOrder | expense_tracker.py:170 | The program's listing holds every record once. Its date text never increases along the listing, and records with equal text stay in insertion order. |
| Reports.ListingOrder | expense_tracker.py:169-170 | The corrected listing holds every record once, the latest calendar day first, and records of the same day in insertion order. |
| Reports.DayNumberOrder | expense_tracker.py:169 | Day numbers order stored dates as the calendar does. |
| Reports.ListingsAgree | expense_tracker.py:170 | When every stored date is zero-padded, the program's text sort and the calendar sort give the same listing. |
| Reports.ListingNotChronological | expense_tracker.py:170 | "2024-9-30" is accepted, but sorting by text lists it before "2024-10-01", against the calendar. The corrected listing orders them by calendar day. |
| Reports.ViewAllExpenses | expense_tracker.py:154-177 | Nothing is listed for an empty table. Otherwise every record is listed once, with the record count, in the order of `Listing`, so `ListingOrder` applies: latest calendar day first, ties in insertion order. |
| Reports.SortedCategoriesMembers | expense_tracker.py:192-197 | The numbered menu lists exactly the categories that have records. |
| Reports.SortedCategoriesOrder | expense_tracker.py:192-197 | The menu lists each category once, in strictly increasing order. |
| Reports.Resolve | expense_tracker.py:199-211 | A digit answer outside 1 to the number of categories is an invalid number. Any other answer selects a category. |
| Reports.ChooseByNumber | expense_tracker.py:202-206 | Typing the number printed beside a category selects that category. |
| Reports.ChooseByName | expense_tracker.py:210-211 | Typing a stored category's name back, in any letter case, selects it. |
| Reports.MenuChoiceMatches | expense_tracker.py:202-219 | A category chosen by number always has records. |
| Reports.FilterExpensesByCategory | expense_tracker.py:180-232 | An empty table, an invalid number and a category without records each get their own outcome. Otherwise the rows are every record of the category once, the latest first, and the total is their sum. |
| Reports.WithShares | expense_tracker.py:259-262 | Each breakdown line carries its category, its amount and `amount / total * 100`. |
| Reports.SharesSum | expense_tracker.py:259-262 | The line amounts add up to the tallied amounts, and the shares to their sum over the total, in percent. |
| Reports.BreakdownOrder | expense_tracker.py:252-259 | The breakdown lists its categories in strictly increasing order, so none is listed twice. |
| Reports.BreakdownMembers | expense_tracker.py:252-259 | A category is named in the breakdown exactly when the table has a record in it. |
| Reports.BreakdownLines | expense_tracker.py:259-262 | Each line carries its category's total and that total's share of the grand total in percent. |
| Reports.BreakdownSums | expense_tracker.py:249-265 | The line amounts add up to the grand total and the shares to 100. |
| Reports.CalculateTotalExpenses | expense_tracker.py:235-267 | Nothing is computed for an empty table. Otherwise the result is the grand total, the breakdown, the number of records, and the total divided by that number. |
| Summary.ParseGranularity | expense_tracker.py:329-333 | The stripped answers "1", "2" and "3", and only they, select a summary. |
| Summary.KeysFollowDates | expense_tracker.py:341-359 | A lower period key holds only earlier dates, so a descending key order lists the latest period first. |
| Summary.SameKeySamePeriod | expense_tracker.py:341-350 | Two dates share a monthly key exactly when they share year and month, and a yearly key exactly when they share the year. They share a weekly key exactly when no Monday comes after the earlier date and on or before the later one. |
| Summary.AddToFound | expense_tracker.py:352-355 | A record of a period already seen updates that period where it stands. |
| Summary.AddToNew | expense_tracker.py:336-355 | A record of a new period opens it at the end, starting from a zero total, a zero count and no categories. |
| Summary.PeriodOfSnoc | expense_tracker.py:352-355 | One more record adds its amount, one count and its category amount to its own period only. |
| Summary.AddToKeys | expense_tracker.py:336-352 | A period key is added only when it is new. |
| Summary.GroupedKeys | expense_tracker.py:336-355 | The periods are exactly those that have records, each once. |
| Summary.AddToPeriods | expense_tracker.py:352-355 | A loop turn keeps every period equal to its total, count and category sums over its records. |
| Summary.GroupedPeriods | expense_tracker.py:336-355 | After the loop, each period holds the total, the number and the per-category sums of exactly its records. |
| Summary.AddToSums | expense_tracker.py:353-354 | A loop turn adds the record's amount to the sum of the period totals, and one to the sum of the counts. |
| Summary.GroupedSums | expense_tracker.py:336-355 | Every record is counted once: the counts add up to the number of records and the totals to the grand total. |
| Summary.PeriodFacts | expense_tracker.py:355-367 | A period's category sums add up to its total. Its categories are distinct, and it has at least one record and one category. |
| Summary.GroupByPeriod | expense_tracker.py:336-355 | The grouping loop produces the periods of exactly the keys with records. Each holds its records' total, count and category sums, and the counts and totals add up to the table's. |
| Summary.PositivePeriods | expense_tracker.py:363-365 | With positive amounts every period has a record and a positive total, so the average and the shares are defined. |
| Summary.TopSize | expense_tracker.py:367-370 | The top list has at most three lines, and has lines exactly when the period has more than one category. |
| Summary.TopLines | expense_tracker.py:369-372 | Each top line is a category of the period with its sum and its share of the period total in percent. |
| Summary.TopDescending | expense_tracker.py:369 | The top lines come largest amount first. |
| Summary.TopOmitted | expense_tracker.py:369-370 | No category left out of the top three was spent on more than any listed one. |
| Summary.SummariesOrder | expense_tracker.py:359 | Periods are listed in strictly decreasing key order, each once. |
| Summary.SummariesKeys | expense_tracker.py:336-359 | The summary names exactly the periods that have records. |
| Summary.SummaryBlock | expense_tracker.py:360-372 | Each block shows its period's total, its record count, a positive total divided by a positive count as the average, and its top categories. |
| Summary.GenerateExpenseSummary | expense_tracker.py:313-374 | Nothing is summarized for an empty table. An answer other than 1, 2 or 3 is refused. Otherwise the result is the period blocks, latest first. |
| Charts.DateSeriesFacts | expense_tracker.py:413-419 | The line chart has one point per date text, in strictly increasing text order. Each point carries that date's total, and the points add up to the grand total. |
| Charts.SeriesReadable | expense_tracker.py:417-418 | Every point's date is read back by `strptime` exactly when every stored date is. |
| Charts.VisualizeExpenses | expense_tracker.py:377-457 | An empty table draws nothing. Answers "1" and "3" chart the per-category totals in insertion order, with distinct categories summing to the grand total. Answer "2" charts the per-date series, or reports a failure when a date text cannot be read. Any other answer is refused. |

## Left out

- Loading and saving the JSON file (`load_expenses`, `save_expenses`, lines 30-66): file I/O. The model starts from the state the program has without a saved file.
- A loaded state whose counter is not above every stored id: the invariant `Ledger.Consistent` rules it out, though the program would then overwrite an entry.
- The main menu and the console prompts and messages (`display_menu`, `main`, from line 460): console I/O. Each operation takes the typed answers as parameters and returns its outcome as a value.
- The clock: `datetime.now()` is the `today` parameter of `Ledger.ExpenseLedger.Add`.
- Floating point: amounts are exact reals. `float()` parsing (including "nan", "inf" and rounding) is the `Option<real>` parameter of `Validators.ValidateAmount`, and the `:.2f` and `:.1f` rounding is printing.
- Non-ASCII text: `strip`, `lower`, `title` and `isdigit` are modelled on ASCII characters. Python's Unicode case and digit tables are not.
- Dates.ParseDate: reads only the ASCII digits `0`-`9`. The `strptime` patterns for `%Y` and `%d` use `\d`, which in a `str` pattern also matches other Unicode decimal digits. `int()` then converts those digits. So the program accepts and stores a date such as "２０２４-01-05", written with fullwidth digits, and `ParseDate` refuses it.
- Ledger.ExpenseLedger.Delete: the id is the value `int()` produced, or `None` when it raised. The forms `int()` accepts (signs, underscores, white space) are not modelled.
- Summary labels and week keys: the labels `%Y Week %U (starting %b %d)` and `%Y %B` are display text and are not modelled. The weekly key `%Y-W%U` of the Monday is modelled by the Monday's day number. Distinct Mondays get distinct keys, in the same order.
- Summary keys are integers ordered as the zero-padded text keys of years 1000 to 9999 are. `strftime` does not pad years below 1000 on every platform.
- Summary.GenerateExpenseSummary: requires every stored date to be readable by `strptime` (otherwise the program stops with an uncaught error). It also requires positive amounts, as the ledger keeps them, because a zero period total would stop the program at the share division.
- Reports.CalculateTotalExpenses: requires a non-zero grand total, because the program divides by it. Every table the ledger builds has a positive total (`Records.TotalOfPositive`).
- Charts.VisualizeExpenses: the drawing itself (matplotlib) is foreign code and is not modelled. An exception raised while plotting is not modelled either. The only failure modelled is a date text that `strptime` cannot read back.
- Charts.DateSeries groups by the raw date text, as the program does, so the line chart shares the listing's ordering issue for unpadded dates. Only the listing is corrected.
- Reports.ViewAllExpenses and `Reports.FilterExpensesByCategory` list by calendar day, the corrected order (see Findings). The program's own text order is `Reports.ListingAsWritten`.

## Findings

| source | as written | input that shows it | evidently intended | confidence | as-written member | corrected member |
|---|---|---|---|---|---|---|
| expense_tracker.py:170 | The listing (and the filtered listing at line 227) sorts by the date text, with `reverse=True`. `strptime` also accepts unpadded dates such as "2024-9-30", and they are stored as typed. | "2024-9-30" (id 1) and "2024-10-01" (id 2): the text order lists 30 September before 1 October. | The most recent date first: 1 October, then 30 September. | not executed | Reports.ListingNotChronological | Reports.ListingOrder |
