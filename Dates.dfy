/** Calendar dates as Python's `datetime.date` handles them: year, month and
    day in the proleptic Gregorian calendar, the day ordinal (`toordinal`),
    the weekday, day arithmetic and the `dd/mm/yyyy Dow` rendering. */
module Dates {
  import opened Outcomes
  import opened Text
  import opened Numerals

  datatype Date = Date(year: int, month: int, day: int)

  const MinYear := 1
  const MaxYear := 9999

  predicate IsLeapYear(y: int)
  {
    y % 4 == 0 && (y % 100 != 0 || y % 400 == 0)
  }

  function DaysInMonth(y: int, m: int): (n: int)
    requires 1 <= m <= 12
    ensures 28 <= n <= 31
  {
    if m == 2 then (if IsLeapYear(y) then 29 else 28)
    else if m == 4 || m == 6 || m == 9 || m == 11 then 30
    else 31
  }

  function DaysInYear(y: int): int
  {
    if IsLeapYear(y) then 366 else 365
  }

  /** What `datetime.date(y, m, d)` accepts without raising `ValueError`. */
  predicate ValidDate(d: Date)
  {
    MinYear <= d.year <= MaxYear && 1 <= d.month <= 12 && 1 <= d.day <= DaysInMonth(d.year, d.month)
  }

  /** A `datetime.date` value: a date that exists. */
  type CalendarDate = d: Date | ValidDate(d) witness Date(2000, 1, 1)

  /** Python's `date(d.year, d.month, 1)`: the first day of `d`'s month. */
  function FirstOfMonth(d: CalendarDate): (r: CalendarDate)
    ensures r.year == d.year && r.month == d.month && r.day == 1
  {
    Date(d.year, d.month, 1)
  }

  /** The range of a C `int`, to which `datetime.date` converts each argument
      before it checks any of them. */
  predicate InCInt(i: int)
  {
    -0x8000_0000 <= i < 0x8000_0000
  }

  /** `datetime.date(y, m, d)`: the date; `OverflowError` when an argument
      does not fit a C `int`; otherwise `ValueError` when the date does not
      exist. */
  function MakeDate(y: int, m: int, d: int): (r: Result<CalendarDate>)
    ensures r.Ok? <==> ValidDate(Date(y, m, d))
    ensures r.Ok? ==> r.value == Date(y, m, d)
    ensures r.Raise? ==> (r.fault == OverflowError <==> !(InCInt(y) && InCInt(m) && InCInt(d)))
    ensures r.Raise? ==> r.fault == OverflowError || r.fault == ValueError
  {
    if !(InCInt(y) && InCInt(m) && InCInt(d)) then Raise(OverflowError)
    else if ValidDate(Date(y, m, d)) then Ok(Date(y, m, d))
    else Raise(ValueError)
  }

  /** Days in the years before `y`. */
  function DaysBeforeYear(y: int): int
    requires y >= 1
  {
    var p := y - 1;
    p * 365 + p / 4 - p / 100 + p / 400
  }

  /** Days in the months of year `y` before month `m`. */
  function DaysBeforeMonth(y: int, m: int): int
    requires 1 <= m <= 12
  {
    var table := [0, 31, 59, 90, 120, 151, 181, 212, 243, 273, 304, 334];
    table[m - 1] + (if m > 2 && IsLeapYear(y) then 1 else 0)
  }

  /** `date.toordinal()`: 0001-01-01 is day 1. */
  function Ordinal(d: Date): int
    requires ValidDate(d)
  {
    DaysBeforeYear(d.year) + DaysBeforeMonth(d.year, d.month) + d.day
  }

  /** `date.weekday()`: Monday is 0 and Sunday is 6. */
  function Weekday(d: Date): (w: int)
    requires ValidDate(d)
    ensures 0 <= w < 7
  {
    (Ordinal(d) + 6) % 7
  }

  /** Python's `<` on dates: year, then month, then day. */
  predicate Before(a: Date, b: Date)
  {
    a.year < b.year || (a.year == b.year && (a.month < b.month || (a.month == b.month && a.day < b.day)))
  }

  lemma DaysBeforeNextYear(y: int)
    requires y >= 1
    ensures DaysBeforeYear(y + 1) == DaysBeforeYear(y) + DaysInYear(y)
  {
    var p := y - 1;
    assert (p + 1) / 4 == p / 4 + (if y % 4 == 0 then 1 else 0);
    assert (p + 1) / 100 == p / 100 + (if y % 100 == 0 then 1 else 0);
    assert (p + 1) / 400 == p / 400 + (if y % 400 == 0 then 1 else 0);
  }

  lemma {:induction false} DaysBeforeYearMonotone(y1: int, y2: int)
    requires 1 <= y1 <= y2
    ensures DaysBeforeYear(y1) + 365 * (y2 - y1) <= DaysBeforeYear(y2)
    decreases y2 - y1
  {
    if y1 < y2 {
      DaysBeforeNextYear(y1);
      DaysBeforeYearMonotone(y1 + 1, y2);
    }
  }

  lemma DaysBeforeNextMonth(y: int, m: int)
    requires 1 <= m < 12
    ensures DaysBeforeMonth(y, m + 1) == DaysBeforeMonth(y, m) + DaysInMonth(y, m)
  {
  }

  lemma {:induction false} DaysBeforeMonthMonotone(y: int, m1: int, m2: int)
    requires 1 <= m1 <= m2 <= 12
    ensures DaysBeforeMonth(y, m1) + 28 * (m2 - m1) <= DaysBeforeMonth(y, m2)
    ensures m1 < m2 ==> DaysBeforeMonth(y, m1) + DaysInMonth(y, m1) <= DaysBeforeMonth(y, m2)
    decreases m2 - m1
  {
    if m1 < m2 {
      DaysBeforeNextMonth(y, m1);
      DaysBeforeMonthMonotone(y, m1 + 1, m2);
    }
  }

  /** A date's ordinal lies within its year. */
  lemma OrdinalInYear(d: Date)
    requires ValidDate(d)
    ensures DaysBeforeYear(d.year) < Ordinal(d) <= DaysBeforeYear(d.year) + DaysInYear(d.year)
  {
    if d.month < 12 {
      DaysBeforeMonthMonotone(d.year, d.month, 12);
    }
  }

  /** Every existing date has a positive ordinal. */
  lemma OrdinalPositive(d: Date)
    requires ValidDate(d)
    ensures Ordinal(d) >= 1
  {
    DaysBeforeYearMonotone(1, d.year);
    OrdinalInYear(d);
  }

  /** The ordinal is strictly increasing in Python's date order. */
  lemma OrdinalIncreasing(a: Date, b: Date)
    requires ValidDate(a) && ValidDate(b) && Before(a, b)
    ensures Ordinal(a) < Ordinal(b)
  {
    if a.year < b.year {
      OrdinalAcrossYears(a, b);
    } else if a.month < b.month {
      DaysBeforeMonthMonotone(a.year, a.month, b.month);
    }
  }

  lemma OrdinalAcrossYears(a: Date, b: Date)
    requires ValidDate(a) && ValidDate(b) && a.year < b.year
    ensures Ordinal(a) < Ordinal(b)
  {
    OrdinalInYear(a);
    OrdinalInYear(b);
    DaysBeforeNextYear(a.year);
    DaysBeforeYearMonotone(a.year + 1, b.year);
  }

  /** Comparing dates is comparing ordinals, and equal ordinals mean the same date. */
  lemma OrdinalOrder(a: Date, b: Date)
    requires ValidDate(a) && ValidDate(b)
    ensures Before(a, b) <==> Ordinal(a) < Ordinal(b)
    ensures a == b <==> Ordinal(a) == Ordinal(b)
  {
    if Before(a, b) {
      OrdinalIncreasing(a, b);
    } else if Before(b, a) {
      OrdinalIncreasing(b, a);
    } else {
      assert a == b;
    }
  }

  /** The day before `d`. */
  function PrevDay(d: Date): Date
    requires ValidDate(d)
  {
    if d.day > 1 then Date(d.year, d.month, d.day - 1)
    else if d.month > 1 then Date(d.year, d.month - 1, DaysInMonth(d.year, d.month - 1))
    else Date(d.year - 1, 12, 31)
  }

  lemma PrevDaySpec(d: Date)
    requires ValidDate(d) && Ordinal(d) > 1
    ensures ValidDate(PrevDay(d)) && Ordinal(PrevDay(d)) == Ordinal(d) - 1
  {
    if d.day == 1 {
      if d.month > 1 {
        PrevDayAcrossMonth(d);
      } else {
        PrevDayAcrossYear(d);
      }
    }
  }

  lemma PrevDayAcrossMonth(d: Date)
    requires ValidDate(d) && d.day == 1 && d.month > 1
    ensures ValidDate(PrevDay(d)) && Ordinal(PrevDay(d)) == Ordinal(d) - 1
  {
    DaysBeforeNextMonth(d.year, d.month - 1);
  }

  lemma PrevDayAcrossYear(d: Date)
    requires ValidDate(d) && d.day == 1 && d.month == 1 && Ordinal(d) > 1
    ensures ValidDate(PrevDay(d)) && Ordinal(PrevDay(d)) == Ordinal(d) - 1
  {
    assert d.year > 1;
    DaysBeforeNextYear(d.year - 1);
    assert Ordinal(Date(d.year - 1, 12, 31)) == DaysBeforeYear(d.year - 1) + DaysInYear(d.year - 1);
  }

  /** `d - timedelta(days=k)`, for a result no earlier than 0001-01-01. */
  function MinusDays(d: Date, k: nat): (r: Date)
    requires ValidDate(d) && Ordinal(d) > k
    ensures ValidDate(r) && Ordinal(r) == Ordinal(d) - k
    decreases k
  {
    if k == 0 then d
    else
      PrevDaySpec(d);
      MinusDays(PrevDay(d), k - 1)
  }

  /** `d - timedelta(days=d.weekday())`: the Monday that starts the week of `d`. */
  function MondayOnOrBefore(d: Date): (r: Date)
    requires ValidDate(d)
    ensures ValidDate(r) && Weekday(r) == 0
    ensures Ordinal(d) - 6 <= Ordinal(r) <= Ordinal(d)
  {
    OrdinalPositive(d);
    WeekStart(Ordinal(d), Weekday(d));
    var r := MinusDays(d, Weekday(d));
    WeekdayIs(r, Ordinal(d) - Weekday(d));
    r
  }

  /** Going back `w = (o + 6) % 7` days from day `o` lands on a Monday, day 1 or later. */
  lemma WeekStart(o: int, w: int)
    requires o >= 1 && w == (o + 6) % 7
    ensures 0 <= w < o && w <= 6 && (o - w + 6) % 7 == 0
  {
    var q := (o + 6) / 7;
    assert o + 6 == 7 * q + w;
    assert o - w + 6 == 7 * q;
  }

  lemma WeekdayIs(d: Date, o: int)
    requires ValidDate(d) && Ordinal(d) == o
    ensures Weekday(d) == (o + 6) % 7
  {
  }

  /** A Monday at most six days after the Monday `x` is not after it. */
  lemma MondaysApart(x: int, y: int)
    requires (x + 6) % 7 == 0 && (y + 6) % 7 == 0 && y <= x + 6
    ensures y <= x
  {
    var qx := (x + 6) / 7;
    var qy := (y + 6) / 7;
    assert x + 6 == 7 * qx && y + 6 == 7 * qy;
    assert 7 * qy < 7 * qx + 7;
    assert qy <= qx;
  }

  /** No Monday lies strictly between the week's Monday and the date itself. */
  lemma MondayIsLatest(d: Date, m: Date)
    requires ValidDate(d) && ValidDate(m) && Weekday(m) == 0 && Ordinal(m) <= Ordinal(d)
    ensures Ordinal(m) <= Ordinal(MondayOnOrBefore(d))
  {
    var r := MondayOnOrBefore(d);
    var x, y := Ordinal(r), Ordinal(m);
    assert (x + 6) % 7 == 0 by {
      WeekdayIs(r, x);
    }
    assert (y + 6) % 7 == 0 by {
      WeekdayIs(m, y);
    }
    MondaysApart(x, y);
  }

  /** The abbreviated day names `['Mon', 'Tue', …, 'Sun']`. */
  function DayName(w: int): (s: string)
    requires 0 <= w < 7
    ensures |s| == 3 && ' ' !in s && '/' !in s && '"' !in s && !IsSpace(s[2])
  {
    ["Mon", "Tue", "Wed", "Thu", "Fri", "Sat", "Sun"][w]
  }

  /** The `dd/mm/yyyy` part of the rendering, each number zero-padded to two
      digits at least. */
  function DateWord(d: Date): (s: string)
    requires ValidDate(d)
    ensures |s| >= 1 && IsDigit(s[0])
  {
    ZeroPad2(d.day) + "/" + ZeroPad2(d.month) + "/" + ZeroPad2(d.year)
  }

  /** `'{:02d}/{:02d}/{:02d} {}'.format(day, month, year, dow)`. */
  function DateText(d: Date): string
    requires ValidDate(d)
  {
    DateWord(d) + " " + DayName(Weekday(d))
  }
}
