/**
 The proleptic Gregorian calendar (section 3.2.1 of ISO 8601:2004) as the billing code uses it:
 dates compare field by field, differences and shifts go through the day ordinal, and whole
 months are counted from year 0.
 */
module Calendar {

  datatype Date = Date(year: int, month: int, day: int)

  predicate IsLeap(year: int) {
    year % 4 == 0 && (year % 100 != 0 || year % 400 == 0)
  }

  function DaysInMonth(year: int, month: int): (n: int)
    requires 1 <= month <= 12
    ensures 28 <= n <= 31
  {
    if month == 2 then (if IsLeap(year) then 29 else 28)
    else if month == 4 || month == 6 || month == 9 || month == 11 then 30
    else 31
  }

  predicate ValidDate(d: Date) {
    1 <= d.month <= 12 && 1 <= d.day <= DaysInMonth(d.year, d.month)
  }

  type Day = d: Date | ValidDate(d) witness Date(1, 1, 1)

  /** Date comparison: year, then month, then day. */
  predicate Before(a: Day, b: Day) {
    a.year < b.year || (a.year == b.year && (a.month < b.month || (a.month == b.month && a.day < b.day)))
  }

  function Later(a: Day, b: Day): Day {
    if Before(a, b) then b else a
  }

  function Earlier(a: Day, b: Day): Day {
    if Before(b, a) then b else a
  }

  // ----- Months counted from January of year 0 -----

  function AbsMonth(d: Day): int {
    d.year * 12 + d.month - 1
  }

  function MonthStart(month: int): Day {
    Date(month / 12, month % 12 + 1, 1)
  }

  function MonthLength(month: int): int {
    DaysInMonth(month / 12, month % 12 + 1)
  }

  // ----- Ordinals -----

  function YearDays(year: int): int {
    if IsLeap(year) then 366 else 365
  }

  /** The days of all years before this one, counted from year 1. */
  function DaysBeforeYear(year: int): int
    decreases if year >= 1 then year else 2 - year
  {
    if year == 1 then 0
    else if year > 1 then DaysBeforeYear(year - 1) + YearDays(year - 1)
    else DaysBeforeYear(year + 1) - YearDays(year)
  }

  function DaysBeforeMonth(year: int, month: int): int
    requires 1 <= month <= 12
    decreases month
  {
    if month == 1 then 0 else DaysBeforeMonth(year, month - 1) + DaysInMonth(year, month - 1)
  }

  /** The day number: 1 January of year 1 is day 1. */
  function Ordinal(d: Day): int {
    DaysBeforeYear(d.year) + DaysBeforeMonth(d.year, d.month) + d.day
  }

  /** `(b - a).days` */
  function DaysBetween(a: Day, b: Day): int {
    Ordinal(b) - Ordinal(a)
  }

  /** `d - timedelta(days=1)` */
  function PrevDay(d: Day): (p: Day)
  {
    if d.day > 1 then Date(d.year, d.month, d.day - 1)
    else
      var m := AbsMonth(d) - 1;
      Date(m / 12, m % 12 + 1, MonthLength(m))
  }

  /** `d + timedelta(days=n)` */
  function PlusDays(d: Day, n: nat): Day
    decreases n
  {
    var left := DaysInMonth(d.year, d.month) - d.day;
    if n <= left then Date(d.year, d.month, d.day + n)
    else PlusDays(MonthStart(AbsMonth(d) + 1), n - left - 1)
  }

  // ----- The ordinal is an order isomorphism -----

  lemma DayInItsMonth(d: Day)
    ensures Ordinal(d) == Ordinal(MonthStart(AbsMonth(d))) + d.day - 1
    ensures d.day <= MonthLength(AbsMonth(d))
    ensures AbsMonth(MonthStart(AbsMonth(d))) == AbsMonth(d)
  {
    assert AbsMonth(d) / 12 == d.year && AbsMonth(d) % 12 == d.month - 1;
  }

  lemma MonthOf(month: int)
    ensures AbsMonth(MonthStart(month)) == month && MonthStart(month).day == 1
    ensures MonthStart(month).month == month % 12 + 1
  {}

  /** Consecutive months abut, across year ends and leap years. */
  lemma MonthStep(month: int)
    ensures Ordinal(MonthStart(month + 1)) == Ordinal(MonthStart(month)) + MonthLength(month)
  {
    var y, m := month / 12, month % 12 + 1;
    if m < 12 {
      assert (month + 1) / 12 == y && (month + 1) % 12 == m;
    } else {
      assert (month + 1) / 12 == y + 1 && (month + 1) % 12 == 0;
      YearLength(y);
    }
  }

  lemma YearLength(y: int)
    ensures DaysBeforeMonth(y, 12) + 31 == YearDays(y)
    ensures DaysBeforeYear(y + 1) == DaysBeforeYear(y) + YearDays(y)
  {
    assert DaysBeforeMonth(y, 4) == 62 + DaysInMonth(y, 2);
    assert DaysBeforeMonth(y, 8) == DaysBeforeMonth(y, 4) + 122;
    assert DaysBeforeMonth(y, 12) == DaysBeforeMonth(y, 8) + 122;
  }

  /** The closed form a date library uses: a leap day every 4 years, but for centuries not
      divisible by 400. */
  lemma {:induction false} ClosedForm(y: int)
    ensures DaysBeforeYear(y) == 365 * (y - 1) + (y - 1) / 4 - (y - 1) / 100 + (y - 1) / 400
    decreases if y >= 1 then y else 2 - y
  {
    if y > 1 {
      ClosedForm(y - 1);
      LeapDays(y - 1);
    } else if y < 1 {
      ClosedForm(y + 1);
      LeapDays(y);
    }
  }

  lemma LeapDays(y: int)
    ensures y / 4 - (y - 1) / 4 == if y % 4 == 0 then 1 else 0
    ensures y / 100 - (y - 1) / 100 == if y % 100 == 0 then 1 else 0
    ensures y / 400 - (y - 1) / 400 == if y % 400 == 0 then 1 else 0
    ensures y % 400 == 0 ==> y % 100 == 0
    ensures y % 100 == 0 ==> y % 4 == 0
  {}

  lemma MonthOffset(y: int, m: int)
    requires 1 <= m <= 12
    ensures DaysBeforeMonth(y, m) == (367 * m - 362) / 12 - (if m <= 2 then 0 else if IsLeap(y) then 1 else 2)
  {
    assert DaysBeforeMonth(y, 1) == 0;
    assert DaysBeforeMonth(y, 4) == 62 + DaysInMonth(y, 2);
    assert DaysBeforeMonth(y, 7) == DaysBeforeMonth(y, 4) + 91;
    assert DaysBeforeMonth(y, 10) == DaysBeforeMonth(y, 7) + 92;
    assert m == 1 || m == 2 || m == 3 || m == 4 || m == 5 || m == 6
           || m == 7 || m == 8 || m == 9 || m == 10 || m == 11 || m == 12;
  }

  /** The day number in closed form, in year, month and day: leap days, and months that alternate
      between 31 and 30 days but for February. */
  lemma DayNumber(d: Day)
    ensures var y, m := d.year, d.month;
            var leap := y % 4 == 0 && (y % 100 != 0 || y % 400 == 0);
            Ordinal(d) == 365 * (y - 1) + (y - 1) / 4 - (y - 1) / 100 + (y - 1) / 400
                          + (367 * m - 362) / 12 - (if m <= 2 then 0 else if leap then 1 else 2)
                          + d.day
  {
    hide DaysBeforeYear, DaysBeforeMonth;
    ClosedForm(d.year);
    MonthOffset(d.year, d.month);
  }

  lemma {:induction false} MonthsAreOrdered(a: int, b: int)
    requires a < b
    ensures Ordinal(MonthStart(a)) + MonthLength(a) <= Ordinal(MonthStart(b))
    decreases b - a
  {
    hide Ordinal, MonthStart;
    MonthStep(a);
    if a + 1 < b {
      MonthsAreOrdered(a + 1, b);
    }
  }

  /** Field-by-field comparison agrees with the day count, so equal ordinals mean equal dates. */
  lemma OrdinalOrder(a: Day, b: Day)
    ensures Before(a, b) <==> Ordinal(a) < Ordinal(b)
    ensures a == b <==> Ordinal(a) == Ordinal(b)
  {
    hide Ordinal, MonthStart;
    DayInItsMonth(a);
    DayInItsMonth(b);
    if AbsMonth(a) < AbsMonth(b) {
      MonthsAreOrdered(AbsMonth(a), AbsMonth(b));
    } else if AbsMonth(b) < AbsMonth(a) {
      MonthsAreOrdered(AbsMonth(b), AbsMonth(a));
    }
  }

  lemma LastOfMonth(d: Day)
    requires d.day == 1
    ensures AbsMonth(PrevDay(d)) == AbsMonth(d) - 1 && PrevDay(d).day == MonthLength(AbsMonth(d) - 1)
  {}

  lemma PrevDayIsOneBack(d: Day)
    ensures Ordinal(PrevDay(d)) == Ordinal(d) - 1
  {
    hide Ordinal, MonthStart;
    DayInItsMonth(d);
    DayInItsMonth(PrevDay(d));
    if d.day == 1 {
      LastOfMonth(d);
      MonthStep(AbsMonth(d) - 1);
    } else {
      assert AbsMonth(PrevDay(d)) == AbsMonth(d);
    }
  }

  lemma {:induction false} PlusDaysIsExact(d: Day, n: nat)
    ensures Ordinal(PlusDays(d, n)) == Ordinal(d) + n
    decreases n
  {
    hide Ordinal;
    var left := DaysInMonth(d.year, d.month) - d.day;
    DayInItsMonth(d);
    assert MonthLength(AbsMonth(d)) == DaysInMonth(d.year, d.month);
    if n <= left {
      DayInItsMonth(PlusDays(d, n));
    } else {
      MonthStep(AbsMonth(d));
      PlusDaysIsExact(MonthStart(AbsMonth(d) + 1), n - left - 1);
    }
  }
}
