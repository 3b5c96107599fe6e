/** Civil date-times with the day-overflow behaviour of JavaScript's `Date`
    setters (`setDate`, `setMonth`, `setFullYear`): a day-of-month past the end
    of its month rolls forward into the following month instead of being clamped.
    Time zones and daylight saving are not modelled; a date-time is a proleptic
    Gregorian calendar day plus the seconds elapsed since its midnight. */
module Calendar {

  /** `month` runs 1..12 (JavaScript's `getMonth()` is this minus one). */
  datatype DateTime = DateTime(year: int, month: int, day: int, seconds: int)

  const SecondsPerDay: int := 86400

  predicate IsLeapYear(y: int) {
    y % 4 == 0 && (y % 100 != 0 || y % 400 == 0)
  }

  function DaysInMonth(y: int, m: int): (n: int)
    requires 1 <= m <= 12
    ensures 28 <= n <= 31
    ensures n == 28 <==> m == 2 && !IsLeapYear(y)
    ensures n == 29 <==> m == 2 && IsLeapYear(y)
    ensures n == 30 <==> m == 4 || m == 6 || m == 9 || m == 11
  {
    if m == 2 then (if IsLeapYear(y) then 29 else 28)
    else if m == 4 || m == 6 || m == 9 || m == 11 then 30
    else 31
  }

  /** A date-time that names an existing instant. */
  predicate Valid(d: DateTime) {
    && 1 <= d.month <= 12
    && 1 <= d.day <= DaysInMonth(d.year, d.month)
    && 0 <= d.seconds < SecondsPerDay
  }

  /** Strictly earlier: the lexicographic order on (year, month, day, seconds),
      which on valid date-times is the order of their timestamps. */
  predicate Before(a: DateTime, b: DateTime) {
    || a.year < b.year
    || (a.year == b.year && a.month < b.month)
    || (a.year == b.year && a.month == b.month && a.day < b.day)
    || (a.year == b.year && a.month == b.month && a.day == b.day && a.seconds < b.seconds)
  }

  /** JavaScript's `a <= b` on two `Date`s. */
  predicate AtOrBefore(a: DateTime, b: DateTime) {
    a == b || Before(a, b)
  }

  /** The year and month that follow month `m` of year `y`. */
  function MonthAfter(y: int, m: int): (r: (int, int))
    requires 1 <= m <= 12
    ensures 1 <= r.1 <= 12
    ensures r.0 * 12 + r.1 == y * 12 + m + 1
  {
    if m == 12 then (y + 1, 1) else (y, m + 1)
  }

  /** The date-time with day-of-month `day` counted from the start of month `m`
      of year `y`; a day past the month's end carries into the next months,
      as `new Date(y, m - 1, day)` does. */
  function Normalize(y: int, m: int, day: int, secs: int): (r: DateTime)
    requires 1 <= m <= 12 && 1 <= day && 0 <= secs < SecondsPerDay
    ensures Valid(r) && r.seconds == secs
    ensures r.day <= day
    decreases day
  {
    if day <= DaysInMonth(y, m) then DateTime(y, m, day, secs)
    else
      var next := MonthAfter(y, m);
      Normalize(next.0, next.1, day - DaysInMonth(y, m), secs)
  }

  /** `date.setDate(date.getDate() + n)` */
  function AddDays(d: DateTime, n: nat): (r: DateTime)
    requires Valid(d)
    ensures Valid(r) && r.seconds == d.seconds
  {
    Normalize(d.year, d.month, d.day + n, d.seconds)
  }

  /** `date.setMonth(date.getMonth() + 1)`: the day-of-month is kept, and rolls
      over into the month after when the next month is too short. */
  function AddMonth(d: DateTime): (r: DateTime)
    requires Valid(d)
    ensures Valid(r) && r.seconds == d.seconds
  {
    var next := MonthAfter(d.year, d.month);
    Normalize(next.0, next.1, d.day, d.seconds)
  }

  /** `date.setFullYear(date.getFullYear() + 1)`: 29 February becomes 1 March. */
  function AddYear(d: DateTime): (r: DateTime)
    requires Valid(d)
    ensures Valid(r) && r.seconds == d.seconds
  {
    Normalize(d.year + 1, d.month, d.day, d.seconds)
  }

  /** `k` successive monthly steps. */
  function AddMonths(d: DateTime, k: nat): (r: DateTime)
    requires Valid(d)
    ensures Valid(r)
  {
    if k == 0 then d else AddMonth(AddMonths(d, k - 1))
  }

  /** Midnight on the first day of the month of `d`. */
  function StartOfMonth(d: DateTime): (r: DateTime)
    requires Valid(d)
    ensures Valid(r) && AtOrBefore(r, d)
    ensures r.year == d.year && r.month == d.month && r.day == 1 && r.seconds == 0
  {
    DateTime(d.year, d.month, 1, 0)
  }

  /** `new Date(y, m + 1, 0)`: midnight at the START of the last day of the month
      of `d`, so later instants of that last day are after it. */
  function EndOfMonth(d: DateTime): (r: DateTime)
    requires Valid(d)
    ensures Valid(r) && r.year == d.year && r.month == d.month && r.seconds == 0
    ensures r.day == DaysInMonth(d.year, d.month)
    ensures d.day < r.day ==> Before(d, r)
  {
    DateTime(d.year, d.month, DaysInMonth(d.year, d.month), 0)
  }

  // ---------------------------------------------------------------------------
  // The order

  lemma AtOrBeforeIsTransitive(a: DateTime, b: DateTime, c: DateTime)
    requires AtOrBefore(a, b) && AtOrBefore(b, c)
    ensures AtOrBefore(a, c)
  {
  }

  lemma AtOrBeforeIsTotal(a: DateTime, b: DateTime)
    ensures AtOrBefore(a, b) || AtOrBefore(b, a)
  {
  }

  // ---------------------------------------------------------------------------
  // Normalisation moves forward

  /** Normalising either leaves the day where it is or lands in a strictly later
      month. */
  lemma {:induction false} NormalizeNotEarlier(y: int, m: int, day: int, secs: int)
    requires 1 <= m <= 12 && 1 <= day && 0 <= secs < SecondsPerDay
    ensures var r := Normalize(y, m, day, secs);
      r == DateTime(y, m, day, secs) || y * 12 + m < r.year * 12 + r.month
    decreases day
  {
    if day > DaysInMonth(y, m) {
      var next := MonthAfter(y, m);
      NormalizeNotEarlier(next.0, next.1, day - DaysInMonth(y, m), secs);
    }
  }

  /** A date-time whose (year, month) is earlier is earlier. */
  lemma EarlierMonthIsBefore(a: DateTime, b: DateTime)
    requires 1 <= a.month <= 12 && 1 <= b.month <= 12
    requires a.year * 12 + a.month < b.year * 12 + b.month
    ensures Before(a, b)
  {
  }

  /** Normalising a day beyond that of `d`, counted from a month not before
      that of `d`, gives an instant strictly after `d`. */
  lemma NormalizeAfter(d: DateTime, y: int, m: int, day: int)
    requires Valid(d) && 1 <= m <= 12 && 1 <= day
    requires (y == d.year && m == d.month && d.day < day) || d.year * 12 + d.month < y * 12 + m
    ensures Before(d, Normalize(y, m, day, d.seconds))
  {
    var r := Normalize(y, m, day, d.seconds);
    NormalizeNotEarlier(y, m, day, d.seconds);
    if r != DateTime(y, m, day, d.seconds) {
      EarlierMonthIsBefore(d, r);
    }
  }

  lemma AddDaysIsLater(d: DateTime, n: nat)
    requires Valid(d) && n >= 1
    ensures Before(d, AddDays(d, n))
  {
    NormalizeAfter(d, d.year, d.month, d.day + n);
  }

  lemma AddMonthIsLater(d: DateTime)
    requires Valid(d)
    ensures Before(d, AddMonth(d))
  {
    var next := MonthAfter(d.year, d.month);
    NormalizeAfter(d, next.0, next.1, d.day);
  }

  lemma AddYearIsLater(d: DateTime)
    requires Valid(d)
    ensures Before(d, AddYear(d))
  {
    NormalizeAfter(d, d.year + 1, d.month, d.day);
  }

  // ---------------------------------------------------------------------------
  // What each step computes

  /** One day later is the next day of the month, or the first of the next month. */
  lemma AddOneDay(d: DateTime)
    requires Valid(d)
    ensures d.day < DaysInMonth(d.year, d.month) ==>
      AddDays(d, 1) == DateTime(d.year, d.month, d.day + 1, d.seconds)
    ensures d.day == DaysInMonth(d.year, d.month) ==>
      var next := MonthAfter(d.year, d.month);
      AddDays(d, 1) == DateTime(next.0, next.1, 1, d.seconds)
  {
    if d.day == DaysInMonth(d.year, d.month) {
      var next := MonthAfter(d.year, d.month);
      assert Normalize(next.0, next.1, 1, d.seconds) == DateTime(next.0, next.1, 1, d.seconds);
    }
  }

  /** Seven days later stays in the month or lands in the first week of the next. */
  lemma AddSevenDays(d: DateTime)
    requires Valid(d)
    ensures d.day + 7 <= DaysInMonth(d.year, d.month) ==>
      AddDays(d, 7) == DateTime(d.year, d.month, d.day + 7, d.seconds)
    ensures d.day + 7 > DaysInMonth(d.year, d.month) ==>
      var next := MonthAfter(d.year, d.month);
      AddDays(d, 7) == DateTime(next.0, next.1, d.day + 7 - DaysInMonth(d.year, d.month), d.seconds)
  {
    var dim := DaysInMonth(d.year, d.month);
    if d.day + 7 > dim {
      var next := MonthAfter(d.year, d.month);
      assert Normalize(next.0, next.1, d.day + 7 - dim, d.seconds)
          == DateTime(next.0, next.1, d.day + 7 - dim, d.seconds);
    }
  }

  /** A monthly step keeps the day-of-month when the next month has it, and
      otherwise rolls the excess days into the month after next (31 January
      becomes 3 March, or 2 March in a leap year). */
  lemma AddOneMonth(d: DateTime)
    requires Valid(d)
    ensures var next := MonthAfter(d.year, d.month);
      d.day <= DaysInMonth(next.0, next.1) ==>
        AddMonth(d) == DateTime(next.0, next.1, d.day, d.seconds)
    ensures var next := MonthAfter(d.year, d.month);
      var after := MonthAfter(next.0, next.1);
      d.day > DaysInMonth(next.0, next.1) ==>
        AddMonth(d) == DateTime(after.0, after.1, d.day - DaysInMonth(next.0, next.1), d.seconds)
  {
    var next := MonthAfter(d.year, d.month);
    var dim := DaysInMonth(next.0, next.1);
    if d.day > dim {
      var after := MonthAfter(next.0, next.1);
      assert Normalize(after.0, after.1, d.day - dim, d.seconds)
          == DateTime(after.0, after.1, d.day - dim, d.seconds);
    }
  }

  lemma MonthlyFromJanuary31()
    ensures AddMonth(DateTime(2023, 1, 31, 0)) == DateTime(2023, 3, 3, 0)
    ensures AddMonth(DateTime(2024, 1, 31, 0)) == DateTime(2024, 3, 2, 0)
  {
    AddOneMonth(DateTime(2023, 1, 31, 0));
    AddOneMonth(DateTime(2024, 1, 31, 0));
  }

  /** A yearly step keeps month and day, except that 29 February becomes 1 March. */
  lemma AddOneYear(d: DateTime)
    requires Valid(d)
    ensures !(d.month == 2 && d.day == 29) ==>
      AddYear(d) == DateTime(d.year + 1, d.month, d.day, d.seconds)
    ensures d.month == 2 && d.day == 29 ==>
      AddYear(d) == DateTime(d.year + 1, 3, 1, d.seconds)
  {
    if d.month == 2 && d.day == 29 {
      assert !IsLeapYear(d.year + 1);
      assert Normalize(d.year + 1, 3, 1, d.seconds) == DateTime(d.year + 1, 3, 1, d.seconds);
    }
  }

  /** From a day-of-month that every month has, `k` monthly steps move the month
      forward by `k` and keep the day. */
  lemma {:induction false} AddMonthsKeepsEarlyDay(d: DateTime, k: nat)
    requires Valid(d) && d.day <= 28
    ensures var r := AddMonths(d, k);
      r.day == d.day && r.seconds == d.seconds
      && r.year * 12 + r.month == d.year * 12 + d.month + k
  {
    if k > 0 {
      AddMonthsKeepsEarlyDay(d, k - 1);
      var p := AddMonths(d, k - 1);
      AddOneMonth(p);
    }
  }

  /** Twelve monthly steps from a day-of-month at most 28 land on the same month
      and day one year later. */
  lemma TwelveMonthsIsOneYear(d: DateTime)
    requires Valid(d) && d.day <= 28
    ensures AddMonths(d, 12) == DateTime(d.year + 1, d.month, d.day, d.seconds)
  {
    AddMonthsKeepsEarlyDay(d, 12);
    var r := AddMonths(d, 12);
    assert r.year * 12 + r.month == (d.year + 1) * 12 + d.month;
  }
}
