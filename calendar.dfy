/** The proleptic Gregorian calendar of Python's `datetime.date`: leap years,
    month lengths, the day ordinal (`date.toordinal`, 1 January of year 1 is
    day 1), the weekday with Monday = 0, adding days (`date + timedelta`) and
    the order `<` on dates. `Date` itself does not bound the year; `PyDate`
    is the range a `date` can hold, and `AddTimedelta` is the addition that
    fails past it. */
module Calendar {
  import opened Results

  datatype Date = Date(year: int, month: int, day: int)

  predicate IsLeapYear(y: int)
  {
    y % 4 == 0 && (y % 100 != 0 || y % 400 == 0)
  }

  function DaysInMonth(y: int, m: int): (n: int)
    requires 1 <= m <= 12
    ensures 28 <= n <= 31
    ensures n == 29 <==> m == 2 && IsLeapYear(y)
  {
    if m == 2 then (if IsLeapYear(y) then 29 else 28)
    else if m == 4 || m == 6 || m == 9 || m == 11 then 30
    else 31
  }

  function DaysInYear(y: int): int
  {
    if IsLeapYear(y) then 366 else 365
  }

  /** A date `datetime.date` accepts (year 1 and later). */
  predicate ValidDate(d: Date)
  {
    d.year >= 1 && 1 <= d.month <= 12 && 1 <= d.day <= DaysInMonth(d.year, d.month)
  }

  /** `datetime.MAXYEAR` */
  const MaxYear := 9999

  /** A date a Python `date` object can hold. */
  predicate PyDate(d: Date)
  {
    ValidDate(d) && d.year <= MaxYear
  }

  /** `date.max`, 31 December 9999. */
  const LastDate := Date(MaxYear, 12, 31)

  /** Days in the years 1 .. y-1. */
  function DaysBeforeYear(y: int): int
    requires y >= 1
  {
    var p := y - 1;
    p * 365 + p / 4 - p / 100 + p / 400
  }

  /** Days in the months 1 .. m-1 of year y. */
  function DaysBeforeMonth(y: int, m: int): (n: int)
    requires 1 <= m <= 13
    ensures n >= 0
  {
    if m == 1 then 0 else DaysBeforeMonth(y, m - 1) + DaysInMonth(y, m - 1)
  }

  /** `date.toordinal()`. */
  function Ordinal(d: Date): int
    requires ValidDate(d)
  {
    DaysBeforeYear(d.year) + DaysBeforeMonth(d.year, d.month) + d.day
  }

  /** `date.weekday()`: Monday is 0 and Sunday is 6; 1 January of year 1 was
      a Monday. */
  function Weekday(d: Date): (w: int)
    requires ValidDate(d)
    ensures 0 <= w < 7
  {
    (Ordinal(d) + 6) % 7
  }

  /** The order `date.__lt__`: year, then month, then day. */
  predicate Before(a: Date, b: Date)
  {
    a.year < b.year
    || (a.year == b.year && (a.month < b.month || (a.month == b.month && a.day < b.day)))
  }

  // ---------------------------------------------------------------------
  // Facts about the ordinal

  /** Consecutive years: the days before year y+1 are those before year y
      plus the length of year y. */
  lemma DaysBeforeNextYear(y: int)
    requires y >= 1
    ensures DaysBeforeYear(y + 1) == DaysBeforeYear(y) + DaysInYear(y)
  {
    var p := y - 1;
    assert (p + 1) / 4 == p / 4 + (if y % 4 == 0 then 1 else 0) by { StepBy4(p); }
    assert (p + 1) / 100 == p / 100 + (if y % 100 == 0 then 1 else 0) by { StepBy100(p); }
    assert (p + 1) / 400 == p / 400 + (if y % 400 == 0 then 1 else 0) by { StepBy400(p); }
    CenturiesAreMultiples(y);
  }

  lemma CenturiesAreMultiples(y: int)
    ensures y % 100 == 0 ==> y % 4 == 0
    ensures y % 400 == 0 ==> y % 100 == 0
  {
  }

  lemma StepBy4(p: nat)
    ensures (p + 1) / 4 == p / 4 + (if (p + 1) % 4 == 0 then 1 else 0)
  {
  }

  lemma StepBy100(p: nat)
    ensures (p + 1) / 100 == p / 100 + (if (p + 1) % 100 == 0 then 1 else 0)
  {
  }

  lemma StepBy400(p: nat)
    ensures (p + 1) / 400 == p / 400 + (if (p + 1) % 400 == 0 then 1 else 0)
  {
  }

  /** The twelve months fill the year. */
  lemma MonthsFillYear(y: int)
    ensures DaysBeforeMonth(y, 13) == DaysInYear(y)
  {
    var feb := DaysInMonth(y, 2);
    assert DaysBeforeMonth(y, 2) == 31;
    assert DaysBeforeMonth(y, 3) == 31 + feb;
    assert DaysBeforeMonth(y, 4) == 62 + feb;
    assert DaysBeforeMonth(y, 5) == 92 + feb;
    assert DaysBeforeMonth(y, 6) == 123 + feb;
    assert DaysBeforeMonth(y, 7) == 153 + feb;
    assert DaysBeforeMonth(y, 8) == 184 + feb;
    assert DaysBeforeMonth(y, 9) == 215 + feb;
    assert DaysBeforeMonth(y, 10) == 245 + feb;
    assert DaysBeforeMonth(y, 11) == 276 + feb;
    assert DaysBeforeMonth(y, 12) == 306 + feb;
  }

  /** Within a year, later months start later: a month begins after every
      day of the months before it. */
  lemma {:induction false} DaysBeforeMonthGrows(y: int, m: int, m': int)
    requires 1 <= m < m' <= 13
    ensures DaysBeforeMonth(y, m) + DaysInMonth(y, m) <= DaysBeforeMonth(y, m')
    decreases m' - m
  {
    if m + 1 < m' {
      DaysBeforeMonthGrows(y, m + 1, m');
    }
  }

  /** Later years start later: year y' begins after every day of year y. */
  lemma {:induction false} DaysBeforeYearGrows(y: int, y': int)
    requires 1 <= y < y'
    ensures DaysBeforeYear(y) + DaysInYear(y) <= DaysBeforeYear(y')
    decreases y' - y
  {
    DaysBeforeNextYear(y);
    if y + 1 < y' {
      DaysBeforeYearGrows(y + 1, y');
    }
  }

  /** The ordinal of a date lies within its year's range of ordinals. */
  lemma OrdinalInYear(d: Date)
    requires ValidDate(d)
    ensures DaysBeforeYear(d.year) < Ordinal(d) <= DaysBeforeYear(d.year) + DaysInYear(d.year)
  {
    DaysBeforeMonthGrows(d.year, d.month, 13);
    MonthsFillYear(d.year);
  }

  /** The ordinal is an order isomorphism: `a < b` as dates exactly when the
      ordinal of `a` is smaller, so date subtraction is ordinal subtraction. */
  lemma BeforeIffOrdinalLess(a: Date, b: Date)
    requires ValidDate(a) && ValidDate(b)
    ensures Before(a, b) <==> Ordinal(a) < Ordinal(b)
    ensures a == b <==> Ordinal(a) == Ordinal(b)
  {
    OrdinalInYear(a);
    OrdinalInYear(b);
    if a.year < b.year {
      DaysBeforeYearGrows(a.year, b.year);
    } else if b.year < a.year {
      DaysBeforeYearGrows(b.year, a.year);
    } else if a.month < b.month {
      DaysBeforeMonthGrows(a.year, a.month, b.month);
    } else if b.month < a.month {
      DaysBeforeMonthGrows(a.year, b.month, a.month);
    }
  }

  // ---------------------------------------------------------------------
  // Adding days

  /** The day after `d`. */
  function NextDay(d: Date): (e: Date)
    requires ValidDate(d)
    ensures ValidDate(e) && Ordinal(e) == Ordinal(d) + 1
  {
    if d.day < DaysInMonth(d.year, d.month) then Date(d.year, d.month, d.day + 1)
    else if d.month < 12 then Date(d.year, d.month + 1, 1)
    else
      DaysBeforeNextYear(d.year);
      MonthsFillYear(d.year);
      Date(d.year + 1, 1, 1)
  }

  /** n days after `d` in the calendar without an upper bound. */
  function AddDays(d: Date, n: nat): (e: Date)
    requires ValidDate(d)
    ensures ValidDate(e) && Ordinal(e) == Ordinal(d) + n
    decreases n
  {
    if n == 0 then d else AddDays(NextDay(d), n - 1)
  }

  /** `d + timedelta(days=n)` for n >= 0: the date n days later, and the
      `OverflowError` when that is past `date.max`. */
  function AddTimedelta(d: Date, n: nat): (r: Result<Date>)
    requires PyDate(d)
    ensures r.Success? <==> Ordinal(d) + n <= Ordinal(LastDate)
    ensures r.Success? ==> PyDate(r.value) && Ordinal(r.value) == Ordinal(d) + n
    ensures r.Failure? ==> r.error == DateOutOfRange
  {
    var e := AddDays(d, n);
    PyDateIffNotAfterLast(e);
    if e.year > MaxYear then Failure(DateOutOfRange) else Success(e)
  }

  /** `date.max` is day 3652059, a Friday. */
  lemma LastDateFacts()
    ensures ValidDate(LastDate) && Ordinal(LastDate) == 3652059 && Weekday(LastDate) == 4
  {
    MonthsFillYear(MaxYear);
    assert DaysBeforeYear(MaxYear) == 3651694;
  }

  /** A date fits in a `date` exactly when its ordinal is at most that of
      `date.max`. */
  lemma PyDateIffNotAfterLast(d: Date)
    requires ValidDate(d)
    ensures PyDate(d) <==> Ordinal(d) <= Ordinal(LastDate)
  {
    LastDateFacts();
    BeforeIffOrdinalLess(LastDate, d);
  }

  /** Adding n days moves the weekday n steps round the week. */
  lemma WeekdayAfter(d: Date, n: nat)
    requires ValidDate(d)
    ensures Weekday(AddDays(d, n)) == (Weekday(d) + n) % 7
  {
    WeekdayOfLater(d, AddDays(d, n), n);
  }

  /** A date n days after another is n steps further round the week. */
  lemma WeekdayOfLater(a: Date, b: Date, n: nat)
    requires ValidDate(a) && ValidDate(b) && Ordinal(b) == Ordinal(a) + n
    ensures Weekday(b) == (Weekday(a) + n) % 7
  {
    ShiftMod7(Ordinal(a) + 6, n);
  }

  /** Moving n steps from o lands where moving n steps from o's remainder
      does, modulo 7. */
  lemma ShiftMod7(o: int, n: nat)
    ensures (o + n) % 7 == (o % 7 + n) % 7
  {
    var q, r := o / 7, o % 7;
    assert o == 7 * q + r;
    assert o + n == 7 * q + (r + n);
  }
}
