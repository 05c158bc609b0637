/** Calendar arithmetic of `src/utils/dateUtils.js`, in UTC. A JavaScript
    `Date` built from a date string is a calendar day at midnight; "now" is a
    `Clock` passed in. */
module DateUtils {
  import opened JsValues
  import opened Decimal

  type Month = m: int | 1 <= m <= 12 witness 1

  /** A day of the proleptic Gregorian calendar. */
  datatype Date = Date(year: int, month: Month, day: int)

  predicate IsLeapYear(y: int)
  {
    y % 4 == 0 && (y % 100 != 0 || y % 400 == 0)
  }

  function DaysInMonth(y: int, m: Month): (n: int)
    ensures 28 <= n <= 31
    ensures m == 12 ==> n == 31
  {
    if m == 2 then (if IsLeapYear(y) then 29 else 28)
    else if m == 4 || m == 6 || m == 9 || m == 11 then 30
    else 31
  }

  predicate ValidDate(d: Date)
  {
    1 <= d.day <= DaysInMonth(d.year, d.month)
  }

  const MsPerDay: int := 86400000

  function DaysBeforeMonth(y: int, m: Month): int
  {
    var common :=
      if m == 1 then 0 else if m == 2 then 31 else if m == 3 then 59
      else if m == 4 then 90 else if m == 5 then 120 else if m == 6 then 151
      else if m == 7 then 181 else if m == 8 then 212 else if m == 9 then 243
      else if m == 10 then 273 else if m == 11 then 304 else 334;
    common + (if m > 2 && IsLeapYear(y) then 1 else 0)
  }

  function LeapYearsBefore(y: int): int
  {
    (y - 1) / 4 - (y - 1) / 100 + (y - 1) / 400
  }

  /** Days from 1970-01-01 to `d`: the JavaScript time value of `d` at
      midnight UTC, divided by `MsPerDay`. */
  function DayNumber(d: Date): int
  {
    365 * (d.year - 1970) + LeapYearsBefore(d.year) - LeapYearsBefore(1970)
      + DaysBeforeMonth(d.year, d.month) + d.day - 1
  }

  /** Calendar order. */
  predicate Precedes(a: Date, b: Date)
  {
    a.year < b.year
    || (a.year == b.year && a.month < b.month)
    || (a.year == b.year && a.month == b.month && a.day < b.day)
  }

  lemma QuarterStep(y: int)
    ensures y / 4 - (y - 1) / 4 == (if y % 4 == 0 then 1 else 0)
  {
  }

  lemma CenturyStep(y: int)
    ensures y / 100 - (y - 1) / 100 == (if y % 100 == 0 then 1 else 0)
  {
  }

  lemma QuadricentennialStep(y: int)
    ensures y / 400 - (y - 1) / 400 == (if y % 400 == 0 then 1 else 0)
  {
  }

  lemma LeapYearsStep(y: int)
    ensures LeapYearsBefore(y + 1) == LeapYearsBefore(y) + (if IsLeapYear(y) then 1 else 0)
  {
    QuarterStep(y);
    CenturyStep(y);
    QuadricentennialStep(y);
  }

  /** The first day of the month after `y`-`m` comes `DaysInMonth(y, m)`
      days after the first day of `y`-`m`. */
  lemma NextMonthStart(y: int, m: Month)
    ensures m < 12 ==> DayNumber(Date(y, m + 1, 1)) == DayNumber(Date(y, m, 1)) + DaysInMonth(y, m)
    ensures m == 12 ==> DayNumber(Date(y + 1, 1, 1)) == DayNumber(Date(y, m, 1)) + DaysInMonth(y, m)
  {
    if m == 12 {
      LeapYearsStep(y);
    }
  }

  /** One year later, the first of January is 365 or 366 days further. */
  lemma YearStart(y: int)
    ensures DayNumber(Date(y + 1, 1, 1)) == DayNumber(Date(y, 1, 1)) + (if IsLeapYear(y) then 366 else 365)
  {
    LeapYearsStep(y);
  }

  lemma {:induction false} YearStartsAscend(y1: int, y2: int)
    requires y1 < y2
    ensures DayNumber(Date(y1 + 1, 1, 1)) <= DayNumber(Date(y2, 1, 1))
    decreases y2 - y1
  {
    if y1 + 1 < y2 {
      YearStartsAscend(y1, y2 - 1);
      YearStart(y2 - 1);
    }
  }

  /** Every valid day of year `y` lies before the first day of `y + 1`. */
  lemma InsideYear(d: Date)
    requires ValidDate(d)
    ensures DayNumber(Date(d.year, 1, 1)) <= DayNumber(d) < DayNumber(Date(d.year + 1, 1, 1))
  {
    YearStart(d.year);
  }

  /** Day numbers follow calendar order, so distinct valid days have distinct
      day numbers. */
  lemma DayNumberMonotone(a: Date, b: Date)
    requires ValidDate(a) && ValidDate(b) && Precedes(a, b)
    ensures DayNumber(a) < DayNumber(b)
  {
    if a.year < b.year {
      EarlierYear(a, b);
    } else if a.month < b.month {
      MonthStartsAscend(a.year, a.month, b.month);
    }
  }

  lemma EarlierYear(a: Date, b: Date)
    requires ValidDate(a) && ValidDate(b) && a.year < b.year
    ensures DayNumber(a) < DayNumber(b)
  {
    var nextStart, lastStart := DayNumber(Date(a.year + 1, 1, 1)), DayNumber(Date(b.year, 1, 1));
    assert DayNumber(a) < nextStart by { InsideYear(a); }
    assert nextStart <= lastStart by { YearStartsAscend(a.year, b.year); }
    assert lastStart <= DayNumber(b) by { InsideYear(b); }
  }

  lemma MonthStartsAscend(y: int, m1: Month, m2: Month)
    requires m1 < m2
    ensures DaysBeforeMonth(y, m1) + DaysInMonth(y, m1) <= DaysBeforeMonth(y, m2)
  {
  }

  lemma DayNumberInjective(a: Date, b: Date)
    requires ValidDate(a) && ValidDate(b) && DayNumber(a) == DayNumber(b)
    ensures a == b
  {
    if Precedes(a, b) {
      DayNumberMonotone(a, b);
    } else if Precedes(b, a) {
      DayNumberMonotone(b, a);
    }
  }

  /** `new Date(s)` for a string: only the date-only ISO form `YYYY-MM-DD`
      naming an existing day is accepted; `None` stands for an Invalid Date. */
  function ParseDate(s: string): (r: Option<Date>)
    ensures r.Some? ==> ValidDate(r.value) && 0 <= r.value.year <= 9999
    ensures r.Some? ==> |s| == 10 && s[4] == '-' && s[7] == '-'
  {
    if |s| == 10 && s[4] == '-' && s[7] == '-'
       && AllDigits(s[..4]) && AllDigits(s[5..7]) && AllDigits(s[8..])
    then
      var y, m, d := Value(s[..4]), Value(s[5..7]), Value(s[8..]);
      ValueBound(s[..4]);
      if 1 <= m <= 12 && 1 <= d <= DaysInMonth(y, m) then Some(Date(y, m, d)) else None
    else None
  }

  /** An accepted date string holds the year and the month as digits. */
  lemma ParseDateFields(s: string)
    requires ParseDate(s).Some?
    ensures AllDigits(s[..4]) && AllDigits(s[5..7]) && |s[5..7]| == 2
    ensures ParseDate(s).value.year == Value(s[..4]) && ParseDate(s).value.month == Value(s[5..7])
  {
  }

  lemma {:induction false} ValueBound(s: string)
    requires AllDigits(s)
    ensures Value(s) < Pow10(|s|)
  {
    if s != [] {
      ValueBound(s[..|s| - 1]);
    }
  }

  /** `new Date(v)` for a value held in a date field: a string is parsed;
      `null` is the epoch, 1970-01-01; other values count as unparsable. */
  function DateOf(v: Val): (r: Option<Date>)
    ensures r.Some? ==> ValidDate(r.value)
    ensures v == Null ==> r == Some(Date(1970, 1, 1))
    ensures !v.Str? && v != Null ==> r.None?
  {
    match v
    case Str(s) => ParseDate(s)
    case Null => Some(Date(1970, 1, 1))
    case _ => None
  }

  function YearText(y: int): string
  {
    if 0 <= y <= 9999 then ZeroPad(y, 4)
    else if y < 0 then "-" + ZeroPad(-y, 6)
    else "+" + ZeroPad(y, 6)
  }

  /** `toISOString().split('T')[0]`: the date in the extended calendar form
      YYYY-MM-DD of ISO 8601 (section 4.1.2.2), with a signed six-digit year
      outside 0000 to 9999 as JavaScript writes it. */
  function FormatIsoDate(d: Date): (s: string)
    requires ValidDate(d)
    ensures 0 <= d.year <= 9999 ==> |s| == 10 && s[4] == '-' && s[7] == '-'
  {
    var s := YearText(d.year) + "-" + ZeroPad(d.month, 2) + "-" + ZeroPad(d.day, 2);
    assert 0 <= d.year <= 9999 ==> |YearText(d.year)| == 4 && |ZeroPad(d.month, 2)| == 2 && |ZeroPad(d.day, 2)| == 2 by {
      assert Pow10(4) == 10000 && Pow10(2) == 100;
    }
    s
  }

  /** Parsing the formatted date gives the date back. */
  lemma FormatThenParse(d: Date)
    requires ValidDate(d) && 0 <= d.year <= 9999
    ensures ParseDate(FormatIsoDate(d)) == Some(d)
  {
    var y, m, dd := ZeroPad(d.year, 4), ZeroPad(d.month, 2), ZeroPad(d.day, 2);
    assert Pow10(4) == 10000 && Pow10(2) == 100;
    var s := FormatIsoDate(d);
    assert s == y + "-" + m + "-" + dd;
    assert s[..4] == y && s[5..7] == m && s[8..] == dd;
  }

  /** Day `day` of month `m` of year `y`, counted on into the next month when
      month `m` is shorter: the normalisation JavaScript applies. */
  function Overflow(y: int, m: Month, day: int): (r: Date)
    requires 1 <= day <= 31
    ensures ValidDate(r)
  {
    if day <= DaysInMonth(y, m) then Date(y, m, day)
    else Date(y, m + 1, day - DaysInMonth(y, m))
  }

  /** `setMonth(getMonth() + n)` on a valid date: move `n` months, keep the
      day of the month, and let a day the target month lacks overflow. */
  function ShiftMonths(d: Date, n: int): (r: Date)
    requires ValidDate(d)
    ensures ValidDate(r)
  {
    Overflow(TargetYear(d, n), TargetMonth(d, n), d.day)
  }

  /** The year `n` months after the month of `d`. */
  function TargetYear(d: Date, n: int): int
  {
    d.year + (d.month - 1 + n) / 12
  }

  /** The month `n` months after the month of `d`. */
  function TargetMonth(d: Date, n: int): Month
  {
    (d.month - 1 + n) % 12 + 1
  }

  /** `addMonths(date, months)`, where `None` is an Invalid Date and stays one. */
  function AddMonths(date: Option<Date>, months: int): (r: Option<Date>)
    requires date.Some? ==> ValidDate(date.value)
    ensures r.Some? <==> date.Some?
    ensures r.Some? ==> ValidDate(r.value)
  {
    match date
    case None => None
    case Some(d) => Some(ShiftMonths(d, months))
  }

  /** ECMAScript defines `setMonth` through MakeDay: the day number of the
      first day of the target month, plus the day of the month, minus one.
      The calendar normalisation above agrees with it. */
  lemma ShiftMonthsIsMakeDay(d: Date, n: int)
    requires ValidDate(d)
    ensures DayNumber(ShiftMonths(d, n)) == DayNumber(Date(TargetYear(d, n), TargetMonth(d, n), 1)) + d.day - 1
  {
    OverflowIsMakeDay(TargetYear(d, n), TargetMonth(d, n), d.day);
  }

  lemma OverflowIsMakeDay(y: int, m: Month, day: int)
    requires 1 <= day <= 31
    ensures DayNumber(Overflow(y, m, day)) == DayNumber(Date(y, m, 1)) + day - 1
  {
    if day > DaysInMonth(y, m) {
      NextMonthStart(y, m);
    }
  }

  /** The month after the month of `d`, December followed by January of the
      next year, on the same day of the month or overflowing past its end. */
  function NextMonth(d: Date): (r: Date)
    requires ValidDate(d)
    ensures ValidDate(r)
  {
    if d.month == 12 then Overflow(d.year + 1, 1, d.day)
    else Overflow(d.year, d.month + 1, d.day)
  }

  /** `addMonths(d, 1)` and the month step of `getNextMonthDate` agree. */
  lemma ShiftOneIsNextMonth(d: Date)
    requires ValidDate(d)
    ensures ShiftMonths(d, 1) == NextMonth(d)
  {
  }

  /** `getNextMonthDate(date)`: `null` (here `None`) for a falsy or
      unparsable date, otherwise the date one month on, as YYYY-MM-DD. */
  function GetNextMonthDate(date: Val): (r: Option<string>)
    ensures r.None? <==> !Truthy(date) || DateOf(date).None?
  {
    if !Truthy(date) then None
    else match DateOf(date)
      case None => None
      case Some(d) => Some(FormatIsoDate(NextMonth(d)))
  }

  /** The month step keeps the day of the month whenever the next month has
      that day, and advances the month by one, December to January of the
      next year. */
  lemma NextMonthKeepsDay(d: Date)
    requires ValidDate(d)
    ensures var next := if d.month == 12 then Date(d.year + 1, 1, d.day) else Date(d.year, d.month + 1, d.day);
      ValidDate(next) ==> NextMonth(d) == next
  {
  }

  /** For a date string that parses, `getNextMonthDate` returns a
      YYYY-MM-DD string that parses back to the next month's day. */
  lemma NextMonthDateRoundTrip(s: string, d: Date)
    requires ParseDate(s) == Some(d) && d.year < 9999
    ensures GetNextMonthDate(Str(s)) == Some(FormatIsoDate(NextMonth(d)))
    ensures var t := FormatIsoDate(NextMonth(d));
      |t| == 10 && ParseDate(t) == Some(NextMonth(d))
  {
    assert DateOf(Str(s)) == Some(d);
    var next := NextMonth(d);
    assert next.year <= d.year + 1;
    FormatThenParse(next);
  }

  /** A day beyond the next month's length overflows forward and is not
      clamped: 2024-01-31 becomes 2024-03-02. */
  lemma NextMonthOverflows()
    ensures NextMonth(Date(2024, 1, 31)) == Date(2024, 3, 2)
    ensures NextMonth(Date(2024, 1, 15)) == Date(2024, 2, 15)
    ensures NextMonth(Date(2023, 12, 31)) == Date(2024, 1, 31)
  {
  }

  /** `getNextMonthDate` of a formatted date formats the next month's date. */
  lemma FormattedNextMonth(d: Date)
    requires ValidDate(d) && 0 <= d.year <= 9999
    ensures GetNextMonthDate(Str(FormatIsoDate(d))) == Some(FormatIsoDate(NextMonth(d)))
  {
    var s := FormatIsoDate(d);
    FormatThenParse(d);
    assert |s| == 10;
    assert Truthy(Str(s));
    assert DateOf(Str(s)) == Some(d);
  }

  /** Month steps do not add up: two single steps from 2024-01-31 reach
      2024-04-02, one double step reaches 2024-03-31. */
  lemma ShiftMonthsNotAdditive()
    ensures ShiftMonths(ShiftMonths(Date(2024, 1, 31), 1), 1) == Date(2024, 4, 2)
    ensures ShiftMonths(Date(2024, 1, 31), 2) == Date(2024, 3, 31)
  {
    ShiftFromJanuary31();
    ShiftFromMarch2();
  }

  lemma ShiftFromJanuary31()
    ensures ShiftMonths(Date(2024, 1, 31), 1) == Date(2024, 3, 2)
    ensures ShiftMonths(Date(2024, 1, 31), 2) == Date(2024, 3, 31)
  {
    var jan := Date(2024, 1, 31);
    assert TargetYear(jan, 1) == 2024 && TargetMonth(jan, 1) == 2;
    LeapFebruary();
    TwoMonthsFromJanuary31();
  }

  lemma TwoMonthsFromJanuary31()
    ensures ShiftMonths(Date(2024, 1, 31), 2) == Date(2024, 3, 31)
  {
    var jan := Date(2024, 1, 31);
    assert TargetYear(jan, 2) == 2024 && TargetMonth(jan, 2) == 3;
    assert DaysInMonth(2024, 3) == 31;
    assert Overflow(2024, 3, 31) == Date(2024, 3, 31);
  }

  lemma LeapFebruary()
    ensures Overflow(2024, 2, 31) == Date(2024, 3, 2)
  {
    assert 2024 % 4 == 0 && 2024 % 100 != 0;
    assert DaysInMonth(2024, 2) == 29;
  }

  lemma ShiftFromMarch2()
    ensures ShiftMonths(Date(2024, 3, 2), 1) == Date(2024, 4, 2)
  {
    var mar := Date(2024, 3, 2);
    assert TargetYear(mar, 1) == 2024 && TargetMonth(mar, 1) == 4;
  }

  /** `new Date()`: the current day and the milliseconds elapsed in it. */
  datatype Clock = Clock(today: Date, msOfDay: int)

  predicate ValidClock(c: Clock)
  {
    ValidDate(c.today) && 0 <= c.msOfDay < MsPerDay
  }

  function NowMs(c: Clock): int
  {
    DayNumber(c.today) * MsPerDay + c.msOfDay
  }

  /** `isOverdue(date)`: `new Date(date) < new Date()`, false for an
      unparsable date since a comparison with `NaN` is false. */
  predicate IsOverdue(date: Val, clock: Clock): (r: bool)
    ensures r ==> DateOf(date).Some?
    ensures DateOf(date) == Some(clock.today) ==> (r <==> clock.msOfDay > 0)
  {
    match DateOf(date)
    case None => false
    case Some(d) => DayNumber(d) * MsPerDay < NowMs(clock)
  }

  /** A day is overdue exactly when it is earlier than today, or it is today
      and midnight has passed. */
  lemma IsOverdueMeaning(date: Val, clock: Clock)
    requires ValidClock(clock) && DateOf(date).Some?
    ensures var d := DateOf(date).value;
      IsOverdue(date, clock) <==> Precedes(d, clock.today) || (d == clock.today && clock.msOfDay > 0)
  {
    var d := DateOf(date).value;
    if Precedes(d, clock.today) {
      DayNumberMonotone(d, clock.today);
    } else if Precedes(clock.today, d) {
      DayNumberMonotone(clock.today, d);
    } else {
      assert d == clock.today;
    }
  }

  /** `getDaysUntilDue(dueDate)`: `null` (here `None`) for a falsy or
      unparsable date, otherwise the whole days from today's midnight to the
      due day's midnight. */
  function GetDaysUntilDue(dueDate: Val, clock: Clock): (r: Option<int>)
    ensures r.None? <==> !Truthy(dueDate) || DateOf(dueDate).None?
  {
    if !Truthy(dueDate) then None
    else match DateOf(dueDate)
      case None => None
      case Some(due) => Some(DayNumber(due) - DayNumber(clock.today))
  }

  /** 0 exactly for today, negative exactly for past days. */
  lemma DaysUntilDueSign(dueDate: Val, clock: Clock)
    requires ValidClock(clock) && Truthy(dueDate) && DateOf(dueDate).Some?
    ensures var d := DateOf(dueDate).value;
      && (GetDaysUntilDue(dueDate, clock) == Some(0) <==> d == clock.today)
      && (GetDaysUntilDue(dueDate, clock).value < 0 <==> Precedes(d, clock.today))
  {
    var d := DateOf(dueDate).value;
    if Precedes(d, clock.today) {
      DayNumberMonotone(d, clock.today);
    } else if Precedes(clock.today, d) {
      DayNumberMonotone(clock.today, d);
    } else {
      assert d == clock.today;
    }
  }
}
