/**
 * The date arithmetic the app takes from its `DateManager` helper and from Foundation's
 * Gregorian calendar (locale ko_KR, weeks starting on Sunday).  `DateManager` is not part
 * of this model; what it computes is stated here as Gregorian calendar arithmetic.
 */
module Dates {
  import opened Options

  /** One calendar day: the identity a `Date` has once reduced to its year, month and day. */
  datatype DateKey = DateKey(year: int, month: int, day: int)

  /** Foundation's `DateComponents`, restricted to year, month and day; any may be missing. */
  datatype DateComponents = DateComponents(year: Option<int>, month: Option<int>, day: Option<int>) {
    predicate IsComplete() {
      year.Some? && month.Some? && day.Some?
    }
  }

  /** A point in time: a calendar day and the second of that day. */
  datatype Instant = Instant(date: DateKey, second: int)

  const SecondsPerDay: int := 86400

  predicate IsLeapYear(y: int) {
    (y % 4 == 0 && y % 100 != 0) || y % 400 == 0
  }

  /** Number of days of month `m` of year `y`, leap years included. */
  function DaysInMonth(y: int, m: int): (n: int)
    requires 1 <= m <= 12
    ensures 28 <= n <= 31
    ensures m == 2 ==> (n == 29 <==> IsLeapYear(y))
    ensures m != 2 ==> (n == 30 <==> m in {4, 6, 9, 11})
  {
    if m == 2 then (if IsLeapYear(y) then 29 else 28)
    else if m == 4 || m == 6 || m == 9 || m == 11 then 30
    else 31
  }

  predicate IsValid(d: DateKey) {
    1 <= d.month <= 12 && 1 <= d.day <= DaysInMonth(d.year, d.month)
  }

  predicate IsValidInstant(t: Instant) {
    IsValid(t.date) && 0 <= t.second < SecondsPerDay
  }

  /** A Foundation `Date`: always an existing instant. */
  type Moment = t: Instant | IsValidInstant(t) witness Instant(DateKey(1, 1, 1), 0)

  /** The complete components of a day (`DateManager.convertDateComponents`). */
  function ComponentsOf(d: DateKey): (c: DateComponents)
    ensures c.IsComplete()
    ensures c.year.value == d.year && c.month.value == d.month && c.day.value == d.day
  {
    DateComponents(Some(d.year), Some(d.month), Some(d.day))
  }

  /**
   * `DateManager.convertDate`: a day can be built only from complete components that name
   * an existing day.
   */
  function ConvertDate(c: DateComponents): (r: Option<DateKey>)
    ensures r.Some? <==> c.IsComplete() && IsValid(DateKey(c.year.value, c.month.value, c.day.value))
    ensures r.Some? ==> IsValid(r.value) && ComponentsOf(r.value) == c
  {
    if c.IsComplete() && IsValid(DateKey(c.year.value, c.month.value, c.day.value))
    then Some(DateKey(c.year.value, c.month.value, c.day.value))
    else None
  }

  lemma {:induction false} ConvertComponentsRoundTrip(d: DateKey)
    requires IsValid(d)
    ensures ConvertDate(ComponentsOf(d)) == Some(d)
  {
    var c := ComponentsOf(d);
    assert DateKey(c.year.value, c.month.value, c.day.value) == d;
  }

  // ---------------------------------------------------------------------------
  // Day numbers and weeks

  /** Leap days in the years before year `y` (proleptic Gregorian, year 1 onwards). */
  function LeapDaysBefore(y: int): int {
    (y - 1) / 4 - (y - 1) / 100 + (y - 1) / 400
  }

  function DaysBeforeMonth(y: int, m: int): int
    requires 1 <= m <= 12
  {
    [0, 31, 59, 90, 120, 151, 181, 212, 243, 273, 304, 334][m - 1]
      + (if m > 2 && IsLeapYear(y) then 1 else 0)
  }

  /** Days since 0001-01-01, which was a Monday. */
  function DayNumber(d: DateKey): int
    requires IsValid(d)
  {
    365 * (d.year - 1) + LeapDaysBefore(d.year) + DaysBeforeMonth(d.year, d.month) + d.day - 1
  }

  lemma LeapDaysStep(y: int)
    ensures LeapDaysBefore(y + 1) == LeapDaysBefore(y) + (if IsLeapYear(y) then 1 else 0)
  {
    QuotientStep4(y);
    QuotientStep100(y);
    QuotientStep400(y);
  }

  lemma QuotientStep4(y: int)
    ensures y / 4 - (y - 1) / 4 == (if y % 4 == 0 then 1 else 0)
  {
    if y % 4 == 0 { assert (y - 1) % 4 == 3; } else { assert (y - 1) % 4 == y % 4 - 1; }
  }

  lemma QuotientStep100(y: int)
    ensures y / 100 - (y - 1) / 100 == (if y % 100 == 0 then 1 else 0)
  {
    if y % 100 == 0 { assert (y - 1) % 100 == 99; } else { assert (y - 1) % 100 == y % 100 - 1; }
  }

  lemma QuotientStep400(y: int)
    ensures y / 400 - (y - 1) / 400 == (if y % 400 == 0 then 1 else 0)
  {
    if y % 400 == 0 { assert (y - 1) % 400 == 399; } else { assert (y - 1) % 400 == y % 400 - 1; }
  }

  /** The day before `d`. */
  function PrevDay(d: DateKey): (r: DateKey)
    requires IsValid(d)
    ensures IsValid(r) && DayNumber(r) == DayNumber(d) - 1
  {
    if d.day > 1 then DateKey(d.year, d.month, d.day - 1)
    else if d.month > 1 then
      var r := DateKey(d.year, d.month - 1, DaysInMonth(d.year, d.month - 1));
      assert DaysBeforeMonth(d.year, d.month) == DaysBeforeMonth(d.year, d.month - 1) + DaysInMonth(d.year, d.month - 1);
      r
    else
      LeapDaysStep(d.year - 1);
      DateKey(d.year - 1, 12, 31)
  }

  /** Day of the week, 0 for Sunday through 6 for Saturday. */
  function Weekday(d: DateKey): int
    requires IsValid(d)
  {
    (DayNumber(d) + 1) % 7
  }

  /** Index of the Sunday-to-Saturday week that holds `d`. */
  function WeekIndex(d: DateKey): int
    requires IsValid(d)
  {
    (DayNumber(d) + 1) / 7
  }

  /** `DateManager.isSameWeek`: both days lie in the same Sunday-to-Saturday week. */
  predicate SameWeek(a: DateKey, b: DateKey)
    requires IsValid(a) && IsValid(b)
  {
    WeekIndex(a) == WeekIndex(b)
  }

  /** Two days of one week are fewer than seven days apart, and same-weekday days of one week are equal. */
  lemma SameWeekIsClose(a: DateKey, b: DateKey)
    requires IsValid(a) && IsValid(b) && SameWeek(a, b)
    ensures -7 < DayNumber(a) - DayNumber(b) < 7
    ensures Weekday(a) == Weekday(b) ==> DayNumber(a) == DayNumber(b)
  {
    var na, nb := DayNumber(a) + 1, DayNumber(b) + 1;
    assert na == 7 * (na / 7) + na % 7;
    assert nb == 7 * (nb / 7) + nb % 7;
  }

  lemma SevenStep(n: int)
    requires n % 7 != 0
    ensures (n - 1) % 7 == n % 7 - 1 && (n - 1) / 7 == n / 7
  {
  }

  /** Stepping back one day inside a week keeps the week and lowers the weekday by one. */
  lemma PrevDayInWeek(d: DateKey)
    requires IsValid(d) && Weekday(d) != 0
    ensures Weekday(PrevDay(d)) == Weekday(d) - 1 && WeekIndex(PrevDay(d)) == WeekIndex(d)
  {
    SevenStep(DayNumber(d) + 1);
  }

  /** The Sunday that starts the week of `d`: the first day of a week page. */
  function StartOfWeek(d: DateKey): (r: DateKey)
    requires IsValid(d)
    ensures IsValid(r) && Weekday(r) == 0 && SameWeek(r, d)
    ensures DayNumber(r) == DayNumber(d) - Weekday(d)
    decreases Weekday(d)
  {
    if Weekday(d) == 0 then d
    else
      PrevDayInWeek(d);
      StartOfWeek(PrevDay(d))
  }

  // ---------------------------------------------------------------------------
  // Months, years and instants

  /** `DateManager.numberOfMonthBetween`: calendar months from `from` to `to` (negative when `to` is earlier). */
  function MonthsBetween(from: DateKey, to: DateKey): (n: int)
    requires 1 <= from.month <= 12 && 1 <= to.month <= 12
    ensures n < 0 <==> to.year < from.year || (to.year == from.year && to.month < from.month)
    ensures n == 0 <==> to.year == from.year && to.month == from.month
  {
    (to.year - from.year) * 12 + to.month - from.month
  }

  /** Calendar `date(byAdding: .year, value: n)`: the day is clamped to the length of the target month. */
  function AddYears(d: DateKey, n: int): (r: DateKey)
    requires IsValid(d)
    ensures IsValid(r) && r.year == d.year + n && r.month == d.month
    ensures r.day == d.day || (d.month == 2 && d.day == 29 && r.day == 28 && !IsLeapYear(r.year))
  {
    var last := DaysInMonth(d.year + n, d.month);
    DateKey(d.year + n, d.month, if d.day <= last then d.day else last)
  }

  /** Strict chronological order of days. */
  predicate DayBefore(a: DateKey, b: DateKey) {
    a.year < b.year
    || (a.year == b.year && a.month < b.month)
    || (a.year == b.year && a.month == b.month && a.day < b.day)
  }

  /** Strict chronological order of instants. */
  predicate InstantLess(a: Instant, b: Instant) {
    a.date.year < b.date.year
    || (a.date.year == b.date.year && a.date.month < b.date.month)
    || (a.date.year == b.date.year && a.date.month == b.date.month && a.date.day < b.date.day)
    || (a.date == b.date && a.second < b.second)
  }

  lemma InstantLessIsStrictTotal(a: Instant, b: Instant, c: Instant)
    ensures !InstantLess(a, a)
    ensures InstantLess(a, b) ==> !InstantLess(b, a)
    ensures InstantLess(a, b) && InstantLess(b, c) ==> InstantLess(a, c)
    ensures a != b ==> InstantLess(a, b) || InstantLess(b, a)
  {
  }

  /** `DateManager.startOfDay`: the first instant of the same day. */
  function StartOfDay(t: Instant): (r: Instant)
    requires IsValidInstant(t)
    ensures IsValidInstant(r) && r.date == t.date
    ensures !InstantLess(t, r)
    ensures forall u :: IsValidInstant(u) && u.date == t.date ==> !InstantLess(u, r)
  {
    Instant(t.date, 0)
  }
}
