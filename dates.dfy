/** Calendar dates as the ledger reads and writes them: the check
    `datetime.strptime(text, '%Y-%m-%d')` performs, the zero-padded text
    `strftime('%Y-%m-%d')` produces, and the day numbers behind the
    weekly, monthly and yearly period keys. */
module Dates {
  import opened Options
  import opened Text

  datatype Date = Date(year: int, month: int, day: int)

  /** The Gregorian leap-year rule. */
  predicate IsLeapYear(y: int)
  {
    y % 4 == 0 && (y % 100 != 0 || y % 400 == 0)
  }

  function DaysInMonth(y: int, m: int): (n: int)
    requires 1 <= m <= 12
    ensures 28 <= n <= 31
    ensures n == 29 <==> m == 2 && IsLeapYear(y)
  {
    if m == 2 then (if IsLeapYear(y) then 29 else 28)
    else if m == 4 || m == 6 || m == 9 || m == 11 then 30
    else 31
  }

  function DaysInYear(y: int): int
  {
    if IsLeapYear(y) then 366 else 365
  }

  /** A date `datetime.date` accepts: years 1 to 9999, months 1 to 12, and a
      day that exists in that month. */
  predicate IsCalendarDate(d: Date)
  {
    1 <= d.year <= 9999 && 1 <= d.month <= 12 && 1 <= d.day <= DaysInMonth(d.year, d.month)
  }

  // ---------------------------------------------------------------- parsing

  /** The `%m` field of `strptime` (`1[0-2]|0[1-9]|[1-9]`) and the `-` after
      it, at the front of `t`: the month and how many characters were read. */
  function MonthField(t: string): Option<(int, nat)>
  {
    if |t| >= 3 && t[0] == '1' && '0' <= t[1] <= '2' && t[2] == '-' then Some((10 + DigitValue(t[1]), 3))
    else if |t| >= 3 && t[0] == '0' && '1' <= t[1] <= '9' && t[2] == '-' then Some((DigitValue(t[1]), 3))
    else if |t| >= 2 && '1' <= t[0] <= '9' && t[1] == '-' then Some((DigitValue(t[0]), 2))
    else None
  }

  /** The `%d` field of `strptime`: the first of `3[01]`, `[12]\d`, `0[1-9]`,
      `[1-9]` and ` [1-9]` that matches at the front of `t`, with how many
      characters it read. */
  function DayField(t: string): Option<(int, nat)>
  {
    if |t| >= 2 && t[0] == '3' && '0' <= t[1] <= '1' then Some((30 + DigitValue(t[1]), 2))
    else if |t| >= 2 && '1' <= t[0] <= '2' && IsDigit(t[1]) then Some((10 * DigitValue(t[0]) + DigitValue(t[1]), 2))
    else if |t| >= 2 && t[0] == '0' && '1' <= t[1] <= '9' then Some((DigitValue(t[1]), 2))
    else if |t| >= 1 && '1' <= t[0] <= '9' then Some((DigitValue(t[0]), 1))
    else if |t| >= 2 && t[0] == ' ' && '1' <= t[1] <= '9' then Some((DigitValue(t[1]), 2))
    else None
  }

  /** `datetime.strptime(s, '%Y-%m-%d')`: four digits of year, a dash, the
      month field, the day field, nothing left over ("unconverted data
      remains" otherwise), and a date that exists. */
  function ParseDate(s: string): (r: Option<Date>)
    ensures r.Some? ==> IsCalendarDate(r.value)
  {
    if |s| < 5 || !IsDigits(s[..4]) || s[4] != '-' then None
    else match MonthField(s[5..])
      case None => None
      case Some((month, m)) =>
        var rest := s[5 + m..];
        match DayField(rest)
        case None => None
        case Some((day, k)) =>
          var d := Date(DigitsValue(s[..4]), month, day);
          if k == |rest| && IsCalendarDate(d) then Some(d) else None
  }

  // ---------------------------------------------------------------- formatting

  /** The value of a four-digit year field. */
  lemma DigitsValue4(s: string)
    requires |s| == 4 && IsDigits(s)
    ensures DigitsValue(s) == 1000 * DigitValue(s[0]) + 100 * DigitValue(s[1]) + 10 * DigitValue(s[2]) + DigitValue(s[3])
  {
    assert [s[0]] == [] + [s[0]];
    DigitsValueSnoc([], s[0]);
    assert [s[0], s[1]] == [s[0]] + [s[1]];
    DigitsValueSnoc([s[0]], s[1]);
    assert [s[0], s[1], s[2]] == [s[0], s[1]] + [s[2]];
    DigitsValueSnoc([s[0], s[1]], s[2]);
    assert s == [s[0], s[1], s[2]] + [s[3]];
    DigitsValueSnoc([s[0], s[1], s[2]], s[3]);
  }

  /** A number below 100 as two digits, zero-padded. */
  function Pad2(n: int): (s: string)
    requires 0 <= n < 100
    ensures |s| == 2 && IsDigit(s[0]) && IsDigit(s[1])
    ensures 10 * DigitValue(s[0]) + DigitValue(s[1]) == n
  {
    [Digit(n / 10), Digit(n % 10)]
  }

  /** A number below 10000 as four digits, zero-padded. */
  function Pad4(n: int): (s: string)
    requires 0 <= n < 10000
    ensures |s| == 4 && IsDigits(s)
  {
    [Digit(n / 1000), Digit(n / 100 % 10), Digit(n / 10 % 10), Digit(n % 10)]
  }

  lemma Pad4Value(n: int)
    requires 0 <= n < 10000
    ensures DigitsValue(Pad4(n)) == n
  {
    DigitsValue4(Pad4(n));
    assert n / 10 / 10 == n / 100;
    assert n / 100 / 10 == n / 1000;
    assert n / 10 == 10 * (n / 100) + n / 10 % 10;
    assert n / 100 == 10 * (n / 1000) + n / 100 % 10;
  }

  /** `strftime('%Y-%m-%d')`: zero-padded year, month and day. */
  function FormatDate(d: Date): (s: string)
    requires 0 <= d.year < 10000 && 0 <= d.month < 100 && 0 <= d.day < 100
    ensures |s| == 10
  {
    Pad4(d.year) + "-" + Pad2(d.month) + "-" + Pad2(d.day)
  }

  lemma MonthFieldPadded(m: int, rest: string)
    requires 1 <= m <= 12
    ensures MonthField(Pad2(m) + "-" + rest) == Some((m, 3))
  {
  }

  lemma DayFieldPadded(day: int)
    requires 1 <= day <= 31
    ensures DayField(Pad2(day)) == Some((day, 2))
  {
  }

  /** Every calendar date written as `strftime` writes it is read back by
      `strptime` as the same date. */
  lemma ParseFormat(d: Date)
    requires IsCalendarDate(d)
    ensures ParseDate(FormatDate(d)) == Some(d)
  {
    var s := FormatDate(d);
    assert s[..4] == Pad4(d.year);
    Pad4Value(d.year);
    assert s[5..] == Pad2(d.month) + "-" + Pad2(d.day);
    MonthFieldPadded(d.month, Pad2(d.day));
    assert s[8..] == Pad2(d.day);
    DayFieldPadded(d.day);
  }

  /** The checks of `validate_date` refuse month 13, 30 February and 29
      February of a common year. */
  lemma ParseRefusals()
    ensures ParseDate("2024-13-01") == None
    ensures ParseDate("2024-02-30") == None
    ensures ParseDate("2023-02-29") == None
  {
    var m := "2024-13-01";
    assert m[5..][0] == '1' && m[5..][1] == '3' && m[5..][2] == '-';
  }

  /** They refuse trailing text and year 0. */
  lemma ParseMalformed()
    ensures ParseDate("2024-01-5x") == None
    ensures ParseDate("0000-01-01") == None
  {
    var z := "0000-01-01";
    DigitsValue4(z[..4]);
  }

  /** They accept 29 February of a leap year, and the unpadded form. */
  lemma ParseAccepts()
    ensures ParseDate("2024-02-29") == Some(Date(2024, 2, 29))
    ensures ParseDate("2024-1-5") == Some(Date(2024, 1, 5))
  {
    var s := "2024-02-29";
    DigitsValue4(s[..4]);
    var t := "2024-1-5";
    assert t[..4] == s[..4];
    assert t[7..] == "5";
  }

  // ---------------------------------------------------------------- day numbers

  /** Days before 1 January of year `y`, counted from 1 January of year 1. */
  function DaysBeforeYear(y: int): int
    requires y >= 1
  {
    var p := y - 1;
    p * 365 + p / 4 - p / 100 + p / 400
  }

  /** Days in year `y` before the first of month `m`. */
  function DaysBeforeMonth(y: int, m: int): int
    requires 1 <= m <= 12
  {
    [0, 31, 59, 90, 120, 151, 181, 212, 243, 273, 304, 334][m - 1] + (if m > 2 && IsLeapYear(y) then 1 else 0)
  }

  /** `date.toordinal()`: 1 January of year 1 is day 1. */
  function Ordinal(d: Date): int
    requires IsCalendarDate(d)
  {
    DaysBeforeYear(d.year) + DaysBeforeMonth(d.year, d.month) + d.day
  }

  /** `date.weekday()`: Monday is 0, Sunday 6. */
  function Weekday(d: Date): (w: int)
    requires IsCalendarDate(d)
    ensures 0 <= w < 7
    ensures w == 0 <==> IsMonday(Ordinal(d))
  {
    (Ordinal(d) + 6) % 7
  }

  /** Day number `n` falls on a Monday: day 1, 1 January of year 1, was
      a Monday in the proleptic Gregorian calendar. */
  predicate IsMonday(n: int)
  {
    (n + 6) % 7 == 0
  }

  /** A Monday of the calendar: 1 January 2024. */
  const KnownMonday := Date(2024, 1, 1)

  /** The numbering is anchored: 1 January 2024, a Monday, is day 738886
      and has weekday 0. */
  lemma WeekdayAnchor()
    ensures IsCalendarDate(KnownMonday)
    ensures Ordinal(KnownMonday) == 738886
    ensures Weekday(KnownMonday) == 0
  {
    assert DaysBeforeYear(2024) == 738885;
  }

  /** The weekday counts the days since a known Monday, modulo 7. */
  lemma WeekdayFromMonday(d: Date)
    requires IsCalendarDate(d)
    ensures Weekday(d) == (Ordinal(d) - Ordinal(KnownMonday)) % 7
  {
    WeekdayAnchor();
    ResidueFrom(Ordinal(d), Ordinal(KnownMonday));
  }

  /** Counting from a Monday `m` gives the same residue as counting from
      day 1. */
  lemma ResidueFrom(n: int, m: int)
    requires IsMonday(m)
    ensures (n + 6) % 7 == (n - m) % 7
  {
    assert n + 6 == (n - m) + 7 * ((m + 6) / 7);
  }

  /** The next day's weekday follows on, Sunday wrapping to Monday. */
  lemma WeekdayNext(d1: Date, d2: Date)
    requires IsCalendarDate(d1) && IsCalendarDate(d2)
    requires Ordinal(d2) == Ordinal(d1) + 1
    ensures Weekday(d2) == (Weekday(d1) + 1) % 7
  {
    NextResidue(Ordinal(d1), Ordinal(d2));
  }

  lemma NextResidue(n: int, m: int)
    requires m == n + 1
    ensures (m + 6) % 7 == ((n + 6) % 7 + 1) % 7
  {
    assert m + 6 == 7 * ((n + 6) / 7) + (n + 6) % 7 + 1;
  }

  lemma DivStep(p: int, k: int)
    requires p >= 0 && (k == 4 || k == 100 || k == 400)
    ensures (p + 1) / k == p / k + (if (p + 1) % k == 0 then 1 else 0)
  {
  }

  /** A year divisible by 100 is divisible by 4, and one divisible by 400
      is divisible by 100. */
  lemma LeapCount(y: int)
    requires y >= 1
    ensures (if y % 4 == 0 then 1 else 0) - (if y % 100 == 0 then 1 else 0) + (if y % 400 == 0 then 1 else 0)
      == if IsLeapYear(y) then 1 else 0
  {
    if y % 400 == 0 {
      var q := y / 400;
      assert y == 100 * (4 * q);
    }
    if y % 100 == 0 {
      var q := y / 100;
      assert y == 4 * (25 * q);
    }
  }

  lemma YearStep(y: int)
    requires y >= 1
    ensures DaysBeforeYear(y + 1) == DaysBeforeYear(y) + DaysInYear(y)
  {
    var p := y - 1;
    DivStep(p, 4);
    DivStep(p, 100);
    DivStep(p, 400);
    LeapCount(y);
    assert DaysBeforeYear(y + 1) == y * 365 + y / 4 - y / 100 + y / 400;
    assert y * 365 == p * 365 + 365;
  }

  lemma MonthStep(y: int, m: int)
    requires 1 <= m <= 12
    ensures m < 12 ==> DaysBeforeMonth(y, m) + DaysInMonth(y, m) == DaysBeforeMonth(y, m + 1)
    ensures m == 12 ==> DaysBeforeMonth(y, m) + DaysInMonth(y, m) == DaysInYear(y)
  {
  }

  /** All days of year `y` come before all days of any later year. */
  lemma {:induction false} YearsInOrder(y1: int, y2: int)
    requires 1 <= y1 < y2
    ensures DaysBeforeYear(y1) + DaysInYear(y1) <= DaysBeforeYear(y2)
    decreases y2 - y1
  {
    YearStep(y1);
    if y1 + 1 < y2 {
      YearsInOrder(y1 + 1, y2);
    }
  }

  lemma {:induction false} MonthsInOrder(y: int, m1: int, m2: int)
    requires 1 <= m1 < m2 <= 12
    ensures DaysBeforeMonth(y, m1) + DaysInMonth(y, m1) <= DaysBeforeMonth(y, m2)
    decreases m2 - m1
  {
    MonthStep(y, m1);
    if m1 + 1 < m2 {
      MonthsInOrder(y, m1 + 1, m2);
    }
  }

  lemma DayWithinYear(d: Date)
    requires IsCalendarDate(d)
    ensures 1 <= DaysBeforeMonth(d.year, d.month) + d.day <= DaysInYear(d.year)
  {
    if d.month < 12 {
      MonthsInOrder(d.year, d.month, 12);
    }
    MonthStep(d.year, 12);
  }

  /** `d1` is on or before `d2` in the calendar. */
  predicate NotAfter(d1: Date, d2: Date)
  {
    d1.year < d2.year ||
    (d1.year == d2.year && (d1.month < d2.month || (d1.month == d2.month && d1.day <= d2.day)))
  }

  /** Day numbers follow the calendar: a date has the smaller number exactly
      when it comes first. */
  lemma OrdinalOrder(d1: Date, d2: Date)
    requires IsCalendarDate(d1) && IsCalendarDate(d2)
    ensures Ordinal(d1) <= Ordinal(d2) <==> NotAfter(d1, d2)
    ensures Ordinal(d1) == Ordinal(d2) <==> d1 == d2
  {
    DayWithinYear(d1);
    DayWithinYear(d2);
    if d1.year < d2.year {
      YearsInOrder(d1.year, d2.year);
    } else if d2.year < d1.year {
      YearsInOrder(d2.year, d1.year);
    } else if d1.month < d2.month {
      MonthsInOrder(d1.year, d1.month, d2.month);
    } else if d2.month < d1.month {
      MonthsInOrder(d1.year, d2.month, d1.month);
    }
  }

  // ---------------------------------------------------------------- period keys

  /** The weekly key: the day number of the Monday that starts the week of
      `d` (`d - timedelta(days=d.weekday())`). */
  function WeekStart(d: Date): (k: int)
    requires IsCalendarDate(d)
    ensures k <= Ordinal(d) < k + 7
    ensures IsMonday(k)
  {
    var n := Ordinal(d);
    MondayBefore(n);
    n - Weekday(d)
  }

  /** Stepping back from day number `n` to its Monday lands on a multiple
      of 7, less 6. */
  lemma MondayBefore(n: int)
    ensures 0 <= (n + 6) % 7 < 7
    ensures (n - (n + 6) % 7 + 6) % 7 == 0
  {
    assert n + 6 - (n + 6) % 7 == 7 * ((n + 6) / 7);
  }

  /** No Monday lies after day `a` and on or before day `b`. */
  predicate NoMondayIn(a: int, b: int)
  {
    forall n :: a < n <= b ==> !IsMonday(n)
  }

  /** Days `a <= b` have the same Monday exactly when no Monday comes
      after `a` and on or before `b`. */
  lemma SameWeek(a: int, b: int)
    requires a <= b
    ensures a - (a + 6) % 7 == b - (b + 6) % 7 <==> NoMondayIn(a, b)
  {
    var sa := a - (a + 6) % 7;
    var sb := b - (b + 6) % 7;
    MondayBefore(a);
    MondayBefore(b);
    MondayMonotone(a, b);
    if sa == sb {
      forall n | a < n <= b ensures !IsMonday(n) {
        assert n + 6 == (sa + 6) + (n - sa);
      }
    } else {
      assert sb - sa == 7 * ((b + 6) / 7) - 7 * ((a + 6) / 7);
      assert a < sb <= b && IsMonday(sb);
    }
  }

  /** Two dates share a weekly key exactly when no Monday comes after the
      earlier one and on or before the later one. */
  lemma SameWeekStart(d1: Date, d2: Date)
    requires IsCalendarDate(d1) && IsCalendarDate(d2)
    ensures WeekStart(d1) == WeekStart(d2) <==>
      if Ordinal(d1) <= Ordinal(d2) then NoMondayIn(Ordinal(d1), Ordinal(d2)) else NoMondayIn(Ordinal(d2), Ordinal(d1))
  {
    var a := Ordinal(d1);
    var b := Ordinal(d2);
    assert WeekStart(d1) == a - (a + 6) % 7;
    assert WeekStart(d2) == b - (b + 6) % 7;
    if a <= b {
      SameWeek(a, b);
    } else {
      SameWeek(b, a);
    }
  }

  /** The monthly key: year and month, ordered as the text `%Y-%m` is. */
  function MonthKey(d: Date): int
  {
    d.year * 12 + (d.month - 1)
  }

  /** The yearly key. */
  function YearKey(d: Date): int
  {
    d.year
  }

  /** Two dates share a monthly key exactly when they share year and month,
      and the keys are ordered as year-then-month. */
  lemma MonthKeyOrder(d1: Date, d2: Date)
    requires IsCalendarDate(d1) && IsCalendarDate(d2)
    ensures MonthKey(d1) == MonthKey(d2) <==> d1.year == d2.year && d1.month == d2.month
    ensures MonthKey(d1) < MonthKey(d2) <==> d1.year < d2.year || (d1.year == d2.year && d1.month < d2.month)
  {
  }

  lemma MondayMonotone(a: int, b: int)
    requires a <= b
    ensures a - (a + 6) % 7 <= b - (b + 6) % 7
  {
    assert a - (a + 6) % 7 == 7 * ((a + 6) / 7) - 6;
    assert b - (b + 6) % 7 == 7 * ((b + 6) / 7) - 6;
    assert (a + 6) / 7 <= (b + 6) / 7;
  }

  /** Every period key moves forward with the calendar. */
  lemma KeysFollowCalendar(d1: Date, d2: Date)
    requires IsCalendarDate(d1) && IsCalendarDate(d2) && NotAfter(d1, d2)
    ensures WeekStart(d1) <= WeekStart(d2)
    ensures MonthKey(d1) <= MonthKey(d2)
    ensures YearKey(d1) <= YearKey(d2)
  {
    var a := Ordinal(d1);
    var b := Ordinal(d2);
    OrdinalOrder(d1, d2);
    assert WeekStart(d1) == a - (a + 6) % 7;
    assert WeekStart(d2) == b - (b + 6) % 7;
    MondayMonotone(a, b);
  }

  // ---------------------------------------------------------------- written order

  /** Zero-padded two-digit numbers compare as text as they do as numbers. */
  lemma Pad2Order(a: int, b: int)
    requires 0 <= a < 100 && 0 <= b < 100
    ensures AtMost(Pad2(a), Pad2(b)) <==> a <= b
    ensures Pad2(a) == Pad2(b) <==> a == b
  {
    var s, t := Pad2(a), Pad2(b);
    assert s == [s[0]] + [s[1]] && t == [t[0]] + [t[1]];
    AtMostCons(s[0], [s[1]], t[0], [t[1]]);
    AtMostCons(s[1], [], t[1], []);
  }

  /** Four zero-padded digits are the two-digit hundreds followed by the
      two-digit rest. */
  lemma Pad4Halves(n: int)
    requires 0 <= n < 10000
    ensures Pad4(n) == Pad2(n / 100) + Pad2(n % 100)
  {
    var q, r := n / 100, n % 100;
    assert n == 100 * q + r && 0 <= r < 100;
    assert q / 10 == n / 1000;
    assert n / 10 == 10 * q + r / 10;
    assert r / 10 == n / 10 % 10;
    assert r % 10 == n % 10;
    assert Pad2(q) == [Digit(n / 1000), Digit(n / 100 % 10)];
    assert Pad2(r) == [Digit(n / 10 % 10), Digit(n % 10)];
  }

  /** Zero-padded four-digit numbers compare as text as they do as numbers. */
  lemma Pad4Order(a: int, b: int)
    requires 0 <= a < 10000 && 0 <= b < 10000
    ensures AtMost(Pad4(a), Pad4(b)) <==> a <= b
    ensures Pad4(a) == Pad4(b) <==> a == b
  {
    Pad4Halves(a);
    Pad4Halves(b);
    Pad2Order(a / 100, b / 100);
    Pad2Order(a % 100, b % 100);
    AtMostConcat(Pad2(a / 100), Pad2(a % 100), Pad2(b / 100), Pad2(b % 100));
    assert a == 100 * (a / 100) + a % 100;
    assert b == 100 * (b / 100) + b % 100;
    if Pad4(a) == Pad4(b) {
      assert Pad4(a)[..2] == Pad2(a / 100) && Pad4(b)[..2] == Pad2(b / 100);
      assert Pad4(a)[2..] == Pad2(a % 100) && Pad4(b)[2..] == Pad2(b % 100);
    }
  }

  /** For dates written as `strftime('%Y-%m-%d')` writes them, the order of
      the text is the order of the calendar. */
  lemma WrittenOrder(d1: Date, d2: Date)
    requires IsCalendarDate(d1) && IsCalendarDate(d2)
    ensures AtMost(FormatDate(d1), FormatDate(d2)) <==> NotAfter(d1, d2)
  {
    Pad4Order(d1.year, d2.year);
    Pad2Order(d1.month, d2.month);
    Pad2Order(d1.day, d2.day);
    var m1, m2 := Pad2(d1.day), Pad2(d2.day);
    var r1, r2 := "-" + m1, "-" + m2;
    AtMostConcat("-", m1, "-", m2);
    var q1, q2 := Pad2(d1.month) + r1, Pad2(d2.month) + r2;
    AtMostConcat(Pad2(d1.month), r1, Pad2(d2.month), r2);
    AtMostConcat("-", q1, "-", q2);
    AtMostConcat(Pad4(d1.year), "-" + q1, Pad4(d2.year), "-" + q2);
    assert FormatDate(d1) == Pad4(d1.year) + ("-" + q1);
    assert FormatDate(d2) == Pad4(d2.year) + ("-" + q2);
  }
}
