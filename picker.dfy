/**
 * The cascading year / month / day picker used to choose a schedule date
 * (`DynamicDatePickerView`) and the guarded picker wheel it is built on (`DefaultPickerView`).
 *
 * The picker shows three wheels: the years from this year to ten years ahead, the months
 * still selectable in the chosen year, and the days still selectable in the chosen month.
 * Each year or month choice recomputes the wheels below it, clamps the day to the length
 * of the month, trims days that already passed, and then re-selects the chosen date on the
 * new wheels by index, falling back to the first row when a value is no longer offered.
 *
 * The pure part (`Wheel` and the step functions) states what each step does to the three
 * row lists and the selected date; the classes perform the same steps field by field and
 * are proved against those functions.
 */
module DatePicker {
  import opened Options
  import opened Dates

  // ---------------------------------------------------------------------------
  // Array helpers

  /** Swift's `Array(lo...hi)`; empty when `hi < lo` (Swift traps there, and no call site here does that). */
  function Range(lo: int, hi: int): (r: seq<int>)
    ensures |r| == if hi < lo then 0 else hi - lo + 1
    ensures forall i :: 0 <= i < |r| ==> r[i] == lo + i
    decreases hi - lo
  {
    if hi < lo then [] else [lo] + Range(lo + 1, hi)
  }

  lemma InRange(lo: int, hi: int, v: int)
    ensures v in Range(lo, hi) <==> lo <= v <= hi
  {
    if lo <= v <= hi {
      assert Range(lo, hi)[v - lo] == v;
    }
  }

  /** Swift's `firstIndex(of:)`. */
  function FirstIndex(s: seq<int>, v: int): (r: Option<nat>)
    ensures r.None? <==> v !in s
    ensures r.Some? ==> r.value < |s| && s[r.value] == v && v !in s[..r.value]
  {
    if |s| == 0 then None
    else if s[0] == v then Some(0)
    else
      match FirstIndex(s[1..], v)
      case None => None
      case Some(i) =>
        assert s[..i + 1] == [s[0]] + s[1..][..i];
        Some(i + 1)
  }

  /** Swift's `s[safe: i]`: the element at `i`, or nothing when `i` is out of bounds. */
  function At(s: seq<int>, i: int): (r: Option<int>)
    ensures r.Some? <==> 0 <= i < |s|
    ensures r.Some? ==> r.value == s[i]
  {
    if 0 <= i < |s| then Some(s[i]) else None
  }

  /** `dates.removeAll { $0 < t }`: keeps, in order, the elements that are at least `t`. */
  function DropBelow(s: seq<int>, t: int): (r: seq<int>)
    ensures forall x :: x in r <==> x in s && x >= t
    ensures |r| <= |s|
  {
    if |s| == 0 then []
    else (if s[0] < t then [] else [s[0]]) + DropBelow(s[1..], t)
  }

  /** Removing the days before `t` from the run `lo..hi` leaves the run `max(lo, t)..hi`. */
  lemma {:induction false} DropBelowRange(lo: int, hi: int, t: int)
    ensures DropBelow(Range(lo, hi), t) == Range(if t <= lo then lo else t, hi)
    decreases hi - lo
  {
    if lo <= hi {
      var r := Range(lo, hi);
      var rest := Range(lo + 1, hi);
      assert r == [lo] + rest;
      assert r[0] == lo && r[1..] == rest;
      DropBelowRange(lo + 1, hi, t);
      assert DropBelow(r, t) == (if lo < t then [] else [lo]) + DropBelow(rest, t);
    }
  }

  // ---------------------------------------------------------------------------
  // The wheels as values

  /** The three row lists and the selected date (whose parts, as in Foundation, may be missing). */
  datatype Wheel = Wheel(years: seq<int>, months: seq<int>, dates: seq<int>, selected: DateComponents)

  /** Row numbers of the year, month and day wheels. */
  datatype RowIndex = RowIndex(year: nat, month: nat, day: nat)

  datatype ReloadRange = Month | Day

  /** The row of `v`, or the first row when `v` is not offered (`firstIndex(of:) ?? 0`). */
  function IndexOrFirst(s: seq<int>, v: int): (i: nat)
    ensures v in s ==> i < |s| && s[i] == v && v !in s[..i]
    ensures v !in s ==> i == 0
  {
    match FirstIndex(s, v)
    case Some(i) => i
    case None => 0
  }

  /** `getDateIndex`: the rows that show the given date, each falling back to row 0. */
  function DateIndex(years: seq<int>, months: seq<int>, dates: seq<int>, c: DateComponents): (r: RowIndex)
    ensures !c.IsComplete() ==> r == RowIndex(0, 0, 0)
    ensures c.IsComplete() ==>
      && (c.year.value in years ==> r.year < |years| && years[r.year] == c.year.value && c.year.value !in years[..r.year])
      && (c.month.value in months ==> r.month < |months| && months[r.month] == c.month.value && c.month.value !in months[..r.month])
      && (c.day.value in dates ==> r.day < |dates| && dates[r.day] == c.day.value && c.day.value !in dates[..r.day])
      && (c.year.value !in years ==> r.year == 0)
      && (c.month.value !in months ==> r.month == 0)
      && (c.day.value !in dates ==> r.day == 0)
    ensures |years| > 0 && |months| > 0 && |dates| > 0 ==>
      r.year < |years| && r.month < |months| && r.day < |dates|
  {
    if !c.IsComplete() then RowIndex(0, 0, 0)
    else RowIndex(IndexOrFirst(years, c.year.value), IndexOrFirst(months, c.month.value),
                  IndexOrFirst(dates, c.day.value))
  }

  /** `selectDate`'s effect on the value: the date is re-read from the rows it resolves to. */
  function Reselected(w: Wheel, c: DateComponents): Wheel {
    var idx := DateIndex(w.years, w.months, w.dates, c);
    w.(selected := DateComponents(At(w.years, idx.year), At(w.months, idx.month), At(w.dates, idx.day)))
  }

  /** The wheels as the picker first shows them (`settingYears`, `settingMonths`, `settingDates`). */
  function InitialWheel(today: DateKey): Wheel
    requires IsValid(today)
  {
    Wheel(Range(today.year, today.year + 10),
          Range(today.month, 12),
          Range(today.day, DaysInMonth(today.year, today.month)),
          ComponentsOf(today))
  }

  /** What always holds of the year and month lists; the day list may, as written, become empty. */
  ghost predicate ListsOk(w: Wheel, today: DateKey) {
    && IsValid(today)
    && w.years == Range(today.year, today.year + 10)
    && (w.months == Range(today.month, 12) || w.months == Range(1, 12))
  }

  /**
   * The selected year and month are shown on their wheels, and the selected day is shown
   * exactly when the day wheel has rows (`dates[safe: 0]` is `nil` on an empty wheel).
   */
  ghost predicate WheelShown(w: Wheel, today: DateKey) {
    && ListsOk(w, today)
    && w.selected.year.Some? && w.selected.month.Some?
    && w.selected.year.value in w.years
    && w.selected.month.value in w.months
    && (w.selected.day.Some? <==> |w.dates| > 0)
    && (w.selected.day.Some? ==> w.selected.day.value in w.dates)
  }

  /** `WheelShown`, and the months before today's are offered only when a later year is selected. */
  ghost predicate WheelOk(w: Wheel, today: DateKey) {
    && WheelShown(w, today)
    && (w.selected.year.value == today.year ==> w.months == Range(today.month, 12))
  }

  function SelectedDay(w: Wheel): DateKey
    requires w.selected.IsComplete()
  {
    DateKey(w.selected.year.value, w.selected.month.value, w.selected.day.value)
  }

  /** The day kept by `updateSelectedDay`: the selected day when the month has it, else the month's last day. */
  function KeptDay(day: Option<int>, daysInMonth: int): int {
    if day.Some? && 1 <= day.value <= daysInMonth then day.value else daysInMonth
  }

  /** Month `m` of year `y` comes strictly after the month of `today`. */
  predicate MonthAfter(today: DateKey, y: int, m: int) {
    y > today.year || (y == today.year && m > today.month)
  }

  /** Day `day` exists in month `m` of year `y`, so that `DateManager.toDate` yields a date. */
  predicate DayIn(day: Option<int>, y: int, m: int)
    requires 1 <= m <= 12
  {
    day.Some? && 1 <= day.value <= DaysInMonth(y, m)
  }

  /**
   * `isValidFutureDate`: the selected date (today when it names no existing day) is compared
   * with today by calendar months; a month in the past is replaced by today's year and month;
   * the answer is whether it lies strictly later.
   */
  function FutureChecked(w: Wheel, today: DateKey): (Wheel, bool)
    requires IsValid(today)
  {
    var date := ConvertDate(w.selected).GetOr(today);
    var n := MonthsBetween(today, date);
    var w' := if n < 0 then w.(selected := w.selected.(year := Some(today.year), month := Some(today.month))) else w;
    (w', n > 0)
  }

  /**
   * The check `isValidFutureDate` is documented to make (a correction "by month"): the
   * selected month alone is compared with today's, whatever the selected day.
   */
  function FutureCheckedByMonth(w: Wheel, today: DateKey): (r: (Wheel, bool))
    requires w.selected.year.Some? && w.selected.month.Some? && 1 <= w.selected.month.value <= 12
    requires IsValid(today)
    ensures r.0.years == w.years && r.0.months == w.months && r.0.dates == w.dates
    ensures r.0.selected.day == w.selected.day
    ensures r.1 <==> MonthAfter(today, w.selected.year.value, w.selected.month.value)
    ensures r.1 ==> r.0.selected == w.selected
    ensures !r.1 ==> r.0.selected.year == Some(today.year) && r.0.selected.month == Some(today.month)
  {
    var n := MonthsBetween(today, DateKey(w.selected.year.value, w.selected.month.value, 1));
    var w' := if n < 0 then w.(selected := w.selected.(year := Some(today.year), month := Some(today.month))) else w;
    (w', n > 0)
  }

  /** `updateSelectedDay`: the day wheel becomes the whole month; a day the month lacks becomes its last day. */
  function SelectedDayUpdated(w: Wheel): Wheel
    requires w.selected.year.Some? && w.selected.month.Some? && 1 <= w.selected.month.value <= 12
  {
    var ds := Range(1, DaysInMonth(w.selected.year.value, w.selected.month.value));
    w.(dates := ds,
       selected := if w.selected.day.Some? && w.selected.day.value in ds then w.selected
                   else w.selected.(day := Some(ds[|ds| - 1])))
  }

  /** `updateDay`: unless the month is in the future, the days before today's day are removed. */
  function DayUpdated(w: Wheel, today: DateKey, isFuture: bool): Wheel {
    if isFuture then w else w.(dates := DropBelow(w.dates, today.day))
  }

  /** `updateMonth`: all twelve months in a later year, otherwise today's month onwards; then `updateDay`. */
  function MonthUpdated(w: Wheel, today: DateKey, isFuture: bool): Wheel {
    var isCurrentYear := w.selected.year == Some(today.year);
    DayUpdated(w.(months := if !isCurrentYear && isFuture then Range(1, 12) else Range(today.month, 12)),
               today, isFuture)
  }

  /** The steps of `moveToYearComponents` before the wheels are reloaded. */
  function YearCascade(w: Wheel, today: DateKey, y: int): Wheel
    requires WheelShown(w, today)
  {
    MonthsWithinYear(w, today);
    var w1 := w.(selected := w.selected.(year := Some(y)));
    var (w2, isFuture) := FutureChecked(w1, today);
    MonthUpdated(SelectedDayUpdated(w2), today, isFuture)
  }

  /** `moveToYearComponents`: the cascade, then the date is re-selected on the new wheels. */
  function YearMoved(w: Wheel, today: DateKey, y: int): Wheel
    requires WheelShown(w, today)
  {
    var c := YearCascade(w, today, y);
    Reselected(c, c.selected)
  }

  /** The steps of `moveToMonthComponents` before the day wheel is reloaded. */
  function MonthCascade(w: Wheel, today: DateKey, m: int): Wheel
    requires WheelShown(w, today) && m in w.months
  {
    MonthsWithinYear(w, today);
    var w1 := w.(selected := w.selected.(month := Some(m)));
    var (w2, isFuture) := FutureChecked(w1, today);
    DayUpdated(SelectedDayUpdated(w2), today, isFuture)
  }

  /** `moveToMonthComponents`: the cascade, then the date is re-selected on the new wheels. */
  function MonthMoved(w: Wheel, today: DateKey, m: int): Wheel
    requires WheelShown(w, today) && m in w.months
  {
    var c := MonthCascade(w, today, m);
    Reselected(c, c.selected)
  }

  /** `pickerView(_:didSelectRow:inComponent:)` after the user turned a wheel to `row`. */
  function RowPicked(w: Wheel, today: DateKey, row: nat, component: nat): Wheel
    requires WheelShown(w, today)
    requires component == 0 ==> row < |w.years|
    requires component == 1 ==> row < |w.months|
    requires component == 2 ==> row < |w.dates|
  {
    if component == 0 then
      if Some(w.years[row]) == w.selected.year then w else YearMoved(w, today, w.years[row])
    else if component == 1 then
      if Some(w.months[row]) == w.selected.month then w else MonthMoved(w, today, w.months[row])
    else if component == 2 then
      w.(selected := w.selected.(day := Some(w.dates[row])))
    else w
  }

  // ---------------------------------------------------------------------------
  // What the wheels guarantee

  lemma MonthsWithinYear(w: Wheel, today: DateKey)
    requires ListsOk(w, today)
    ensures forall m :: m in w.months ==> 1 <= m <= 12
    ensures today.month in w.months
  {
    forall m | m in w.months ensures 1 <= m <= 12 {
      InRange(today.month, 12, m);
      InRange(1, 12, m);
    }
    InRange(today.month, 12, today.month);
    InRange(1, 12, today.month);
  }

  /** The first wheels run from today: eleven years, today's month to December, today's day to the month's end. */
  lemma InitialWheelOk(today: DateKey)
    requires IsValid(today)
    ensures WheelOk(InitialWheel(today), today)
    ensures |InitialWheel(today).years| == 11 && InitialWheel(today).years[0] == today.year
    ensures SelectedDay(InitialWheel(today)) == today
    ensures forall m :: m in InitialWheel(today).months <==> today.month <= m <= 12
    ensures forall d :: d in InitialWheel(today).dates <==> today.day <= d <= DaysInMonth(today.year, today.month)
  {
    var w := InitialWheel(today);
    InRange(today.year, today.year + 10, today.year);
    InRange(today.month, 12, today.month);
    InRange(today.day, DaysInMonth(today.year, today.month), today.day);
    forall m ensures m in w.months <==> today.month <= m <= 12 {
      InRange(today.month, 12, m);
    }
    forall d ensures d in w.dates <==> today.day <= d <= DaysInMonth(today.year, today.month) {
      InRange(today.day, DaysInMonth(today.year, today.month), d);
    }
  }

  /**
   * Re-selecting on wheels with years and months always yields a year and a month drawn
   * from the wheels, and a day from the day wheel exactly when it has rows: each part is the
   * requested one when its wheel offers it, and the wheel's first row otherwise.
   */
  lemma ReselectedPicksFromRows(w: Wheel, c: DateComponents)
    requires |w.years| > 0 && |w.months| > 0
    ensures var r := Reselected(w, c);
      && r.years == w.years && r.months == w.months && r.dates == w.dates
      && r.selected.year.Some? && r.selected.month.Some?
      && r.selected.year.value in w.years && r.selected.month.value in w.months
      && r.selected.year.value == (if c.IsComplete() && c.year.value in w.years then c.year.value else w.years[0])
      && r.selected.month.value == (if c.IsComplete() && c.month.value in w.months then c.month.value else w.months[0])
      && (|w.dates| == 0 ==> r.selected.day.None?)
      && (|w.dates| > 0 ==>
            && r.selected.day.Some? && r.selected.day.value in w.dates
            && r.selected.day.value == (if c.IsComplete() && c.day.value in w.dates then c.day.value else w.dates[0]))
  {
  }

  /**
   * The selected date is compared by month only when it names an existing day; a nonexistent
   * day counts as today, so its year and month are left as they are and the answer is false.
   */
  lemma FutureCheckedResult(w: Wheel, today: DateKey)
    requires IsValid(today)
    ensures var (r, isFuture) := FutureChecked(w, today);
      && r.years == w.years && r.months == w.months && r.dates == w.dates
      && r.selected.day == w.selected.day
      && (isFuture <==> ConvertDate(w.selected).Some? && MonthAfter(today, w.selected.year.value, w.selected.month.value))
      && (isFuture ==> r.selected == w.selected)
      && (ConvertDate(w.selected).Some? && !isFuture ==>
            r.selected.year == Some(today.year) && r.selected.month == Some(today.month))
      && (ConvertDate(w.selected).None? ==> r.selected == w.selected)
  {
  }

  /** On a day that exists, the check as written and the check by month agree. */
  lemma FutureCheckedAgreesOnExistingDays(w: Wheel, today: DateKey)
    requires IsValid(today) && ConvertDate(w.selected).Some?
    ensures FutureChecked(w, today) == FutureCheckedByMonth(w, today)
  {
    FutureCheckedResult(w, today);
  }

  /**
   * With today 2026-10-31 and 2027-01-31 selected, turning the month wheel to February asks
   * whether 2027-02-31 lies in a later month: there is no such day, so the check as written
   * answers no, while February 2027 does lie after October 2026.
   */
  lemma FutureCheckedMissesLaterMonth()
    ensures var today := DateKey(2026, 10, 31);
      var w := Wheel(Range(2026, 2036), Range(1, 12), Range(1, 31), ComponentsOf(DateKey(2027, 2, 31)));
      && MonthAfter(today, 2027, 2)
      && !FutureChecked(w, today).1
      && FutureCheckedByMonth(w, today).1
  {
    var today := DateKey(2026, 10, 31);
    var w := Wheel(Range(2026, 2036), Range(1, 12), Range(1, 31), ComponentsOf(DateKey(2027, 2, 31)));
    FutureCheckedResult(w, today);
  }

  /** The day wheel becomes the whole month, and the selected day is kept when the month has it. */
  lemma SelectedDayUpdatedResult(w: Wheel)
    requires w.selected.year.Some? && w.selected.month.Some? && 1 <= w.selected.month.value <= 12
    ensures var r := SelectedDayUpdated(w);
      var dim := DaysInMonth(w.selected.year.value, w.selected.month.value);
      && r.years == w.years && r.months == w.months
      && r.dates == Range(1, dim)
      && r.selected == w.selected.(day := Some(KeptDay(w.selected.day, dim)))
  {
    var dim := DaysInMonth(w.selected.year.value, w.selected.month.value);
    if w.selected.day.Some? {
      InRange(1, dim, w.selected.day.value);
    }
  }

  /**
   * The year cascade leaves a complete date and fixes the wheels it will re-select on, in
   * three cases: an existing day in a later month is kept; an existing day in this or an
   * earlier month falls back to today's month, from today's day; a day the new year lacks
   * (29 February) keeps its month, becomes the month's last day, and the day wheel runs
   * from today's day to that last day.
   */
  lemma YearCascadeResult(w: Wheel, today: DateKey, y: int)
    requires WheelShown(w, today) && y in w.years
    ensures var c := YearCascade(w, today, y);
      var mo := w.selected.month.value;
      && 1 <= mo <= 12
      && ListsOk(c, today)
      && c.selected.IsComplete()
      && c.years == w.years
      && c.selected.year.value in c.years
      && (c.selected.year.value == today.year ==> c.months == Range(today.month, 12))
      && (if DayIn(w.selected.day, y, mo) && MonthAfter(today, y, mo) then
            && c.selected == ComponentsOf(DateKey(y, mo, w.selected.day.value))
            && c.months == (if y != today.year then Range(1, 12) else Range(today.month, 12))
            && c.dates == Range(1, DaysInMonth(y, mo))
          else if DayIn(w.selected.day, y, mo) then
            && c.selected.year.value == today.year && c.selected.month.value == today.month
            && c.selected.day.value == KeptDay(w.selected.day, DaysInMonth(today.year, today.month))
            && c.months == Range(today.month, 12)
            && c.dates == Range(today.day, DaysInMonth(today.year, today.month))
          else
            && c.selected == ComponentsOf(DateKey(y, mo, DaysInMonth(y, mo)))
            && c.months == Range(today.month, 12)
            && c.dates == Range(today.day, DaysInMonth(y, mo)))
  {
    MonthsWithinYear(w, today);
    var mo := w.selected.month.value;
    var w1 := w.(selected := w.selected.(year := Some(y)));
    FutureCheckedResult(w1, today);
    var (w2, isFuture) := FutureChecked(w1, today);
    SelectedDayUpdatedResult(w2);
    var w3 := SelectedDayUpdated(w2);
    var c := YearCascade(w, today, y);
    assert c == MonthUpdated(w3, today, isFuture);
    InRange(today.year, today.year + 10, y);
    if isFuture {
      YearCascadeLater(w, today, y);
    } else if DayIn(w.selected.day, y, mo) {
      YearCascadeFallback(w, today, y);
    } else {
      YearCascadeMissingDay(w, today, y);
    }
  }

  /** What `reloadComponents` needs of the year cascade: a complete date on well-formed lists. */
  lemma YearCascadeReloadable(w: Wheel, today: DateKey, y: int)
    requires WheelShown(w, today) && y in w.years
    ensures var c := YearCascade(w, today, y);
      && ListsOk(c, today)
      && c.selected.IsComplete()
      && c.years == w.years
      && c.selected.year.value in c.years
      && (c.selected.year.value == today.year ==> c.months == Range(today.month, 12))
  {
    YearCascadeResult(w, today, y);
  }

  /** The year cascade for an existing day in a later month. */
  lemma YearCascadeLater(w: Wheel, today: DateKey, y: int)
    requires WheelShown(w, today) && y in w.years
    requires 1 <= w.selected.month.value <= 12
    requires DayIn(w.selected.day, y, w.selected.month.value) && MonthAfter(today, y, w.selected.month.value)
    ensures var c := YearCascade(w, today, y);
      var mo := w.selected.month.value;
      && c.selected == ComponentsOf(DateKey(y, mo, w.selected.day.value))
      && c.months == (if y != today.year then Range(1, 12) else Range(today.month, 12))
      && c.dates == Range(1, DaysInMonth(y, mo))
  {
    var w1 := w.(selected := w.selected.(year := Some(y)));
    FutureCheckedResult(w1, today);
    var (w2, isFuture) := FutureChecked(w1, today);
    SelectedDayUpdatedResult(w2);
  }

  /** The year cascade for an existing day in this or an earlier month. */
  lemma YearCascadeFallback(w: Wheel, today: DateKey, y: int)
    requires WheelShown(w, today) && y in w.years
    requires 1 <= w.selected.month.value <= 12
    requires DayIn(w.selected.day, y, w.selected.month.value) && !MonthAfter(today, y, w.selected.month.value)
    ensures var c := YearCascade(w, today, y);
      && c.selected.IsComplete()
      && c.selected.year.value == today.year && c.selected.month.value == today.month
      && c.selected.day.value == KeptDay(w.selected.day, DaysInMonth(today.year, today.month))
      && c.months == Range(today.month, 12)
      && c.dates == Range(today.day, DaysInMonth(today.year, today.month))
  {
    var w1 := w.(selected := w.selected.(year := Some(y)));
    FutureCheckedResult(w1, today);
    var (w2, isFuture) := FutureChecked(w1, today);
    SelectedDayUpdatedResult(w2);
    DropBelowRange(1, DaysInMonth(today.year, today.month), today.day);
  }

  /** The year cascade for a day the new year lacks, or for no day at all. */
  lemma YearCascadeMissingDay(w: Wheel, today: DateKey, y: int)
    requires WheelShown(w, today) && y in w.years
    requires 1 <= w.selected.month.value <= 12
    requires !DayIn(w.selected.day, y, w.selected.month.value)
    ensures var c := YearCascade(w, today, y);
      var mo := w.selected.month.value;
      && c.selected == ComponentsOf(DateKey(y, mo, DaysInMonth(y, mo)))
      && c.months == Range(today.month, 12)
      && c.dates == Range(today.day, DaysInMonth(y, mo))
  {
    var mo := w.selected.month.value;
    var w1 := w.(selected := w.selected.(year := Some(y)));
    FutureCheckedResult(w1, today);
    var (w2, isFuture) := FutureChecked(w1, today);
    SelectedDayUpdatedResult(w2);
    DropBelowRange(1, DaysInMonth(y, mo), today.day);
  }

  /**
   * The month cascade leaves a complete date with the years and months unchanged, in the
   * same three cases as the year cascade; a day the new month lacks (31 April, 30 February)
   * becomes the month's last day, and the day wheel runs from today's day to that last day.
   * Only from wheels the picker built itself (`WheelOk`) are the earlier months kept off the
   * month wheel in today's year.
   */
  lemma MonthCascadeResult(w: Wheel, today: DateKey, m: int)
    requires WheelShown(w, today) && m in w.months
    ensures var c := MonthCascade(w, today, m);
      var y := w.selected.year.value;
      && 1 <= m <= 12
      && ListsOk(c, today)
      && c.selected.IsComplete()
      && c.years == w.years && c.months == w.months
      && c.selected.year.value in c.years
      && c.selected.month.value in c.months
      && (WheelOk(w, today) && c.selected.year.value == today.year ==> c.months == Range(today.month, 12))
      && (if DayIn(w.selected.day, y, m) && MonthAfter(today, y, m) then
            && c.selected == ComponentsOf(DateKey(y, m, w.selected.day.value))
            && c.dates == Range(1, DaysInMonth(y, m))
          else if DayIn(w.selected.day, y, m) then
            && c.selected.year.value == today.year && c.selected.month.value == today.month
            && c.selected.day.value == KeptDay(w.selected.day, DaysInMonth(today.year, today.month))
            && c.dates == Range(today.day, DaysInMonth(today.year, today.month))
          else
            && c.selected == ComponentsOf(DateKey(y, m, DaysInMonth(y, m)))
            && c.dates == Range(today.day, DaysInMonth(y, m)))
  {
    MonthsWithinYear(w, today);
    var y := w.selected.year.value;
    var w1 := w.(selected := w.selected.(month := Some(m)));
    FutureCheckedResult(w1, today);
    var (w2, isFuture) := FutureChecked(w1, today);
    SelectedDayUpdatedResult(w2);
    InRange(today.year, today.year + 10, y);
    if !isFuture {
      var s := w2.selected;
      DropBelowRange(1, DaysInMonth(s.year.value, s.month.value), today.day);
    }
  }

  /**
   * Turning the year wheel keeps the wheels consistent and never selects a day before today.
   * An existing day in a later month is kept; an existing day otherwise falls back to today's
   * month and to today's day at the earliest; a day the year lacks becomes the month's last
   * day, the month falls back to today's when it is earlier, and the day wheel is left empty,
   * with no day selected, when that last day is before today's day.
   */
  lemma YearMovedResult(w: Wheel, today: DateKey, y: int)
    requires WheelShown(w, today) && y in w.years
    ensures var r := YearMoved(w, today, y);
      var mo := w.selected.month.value;
      && 1 <= mo <= 12
      && WheelOk(r, today)
      && r.years == w.years
      && (r.selected.day.Some? ==> !DayBefore(SelectedDay(r), today))
      && (if DayIn(w.selected.day, y, mo) && MonthAfter(today, y, mo) then
            && r.selected == ComponentsOf(DateKey(y, mo, w.selected.day.value))
            && IsValid(SelectedDay(r))
            && r.months == (if y != today.year then Range(1, 12) else Range(today.month, 12))
            && r.dates == Range(1, DaysInMonth(y, mo))
          else if DayIn(w.selected.day, y, mo) then
            var kept := KeptDay(w.selected.day, DaysInMonth(today.year, today.month));
            && r.selected == ComponentsOf(DateKey(today.year, today.month, if kept < today.day then today.day else kept))
            && IsValid(SelectedDay(r))
            && r.months == Range(today.month, 12)
            && r.dates == Range(today.day, DaysInMonth(today.year, today.month))
          else
            var last := DaysInMonth(y, mo);
            && r.selected == DateComponents(Some(y), Some(if today.month <= mo then mo else today.month),
                                            if today.day <= last then Some(last) else None)
            && r.months == Range(today.month, 12)
            && r.dates == Range(today.day, last))
  {
    var c := YearCascade(w, today, y);
    YearCascadeResult(w, today, y);
    ReselectedPicksFromRows(c, c.selected);
    MonthsWithinYear(w, today);
    var mo := w.selected.month.value;
    InRange(today.year, today.year + 10, y);
    if DayIn(w.selected.day, y, mo) && MonthAfter(today, y, mo) {
      InRange(1, 12, mo);
      InRange(today.month, 12, mo);
      InRange(1, DaysInMonth(y, mo), w.selected.day.value);
    } else if DayIn(w.selected.day, y, mo) {
      var last := DaysInMonth(today.year, today.month);
      InRange(today.month, 12, today.month);
      InRange(today.day, last, c.selected.day.value);
      assert c.dates[0] == today.day;
    } else {
      var last := DaysInMonth(y, mo);
      InRange(today.month, 12, mo);
      InRange(today.day, last, last);
    }
  }

  /**
   * Turning the month wheel keeps the selection shown on the wheels and, whenever a day is
   * selected, selects an existing day; from wheels the picker built itself (`WheelOk`) that
   * day is not before today. The three cases are those of the year wheel; a day the month
   * lacks becomes the month's last day, and the day wheel is left empty, with no day
   * selected, when that last day is before today's day.
   */
  lemma MonthMovedResult(w: Wheel, today: DateKey, m: int)
    requires WheelShown(w, today) && m in w.months
    ensures var r := MonthMoved(w, today, m);
      var y := w.selected.year.value;
      && 1 <= m <= 12
      && WheelShown(r, today)
      && (WheelOk(w, today) ==> WheelOk(r, today))
      && r.years == w.years && r.months == w.months
      && (r.selected.day.Some? ==> IsValid(SelectedDay(r)))
      && (WheelOk(w, today) && r.selected.day.Some? ==> !DayBefore(SelectedDay(r), today))
      && (if DayIn(w.selected.day, y, m) && MonthAfter(today, y, m) then
            && r.selected == ComponentsOf(DateKey(y, m, w.selected.day.value))
            && r.dates == Range(1, DaysInMonth(y, m))
          else if DayIn(w.selected.day, y, m) then
            var kept := KeptDay(w.selected.day, DaysInMonth(today.year, today.month));
            && r.selected == ComponentsOf(DateKey(today.year, today.month, if kept < today.day then today.day else kept))
            && r.dates == Range(today.day, DaysInMonth(today.year, today.month))
          else
            var last := DaysInMonth(y, m);
            && r.selected == DateComponents(Some(y), Some(m), if today.day <= last then Some(last) else None)
            && r.dates == Range(today.day, last))
  {
    var c := MonthCascade(w, today, m);
    MonthCascadeResult(w, today, m);
    ReselectedPicksFromRows(c, c.selected);
    MonthsWithinYear(w, today);
    var y := w.selected.year.value;
    InRange(today.year, today.year + 10, y);
    InRange(today.month, 12, m);
    if DayIn(w.selected.day, y, m) && MonthAfter(today, y, m) {
      InRange(1, DaysInMonth(y, m), w.selected.day.value);
    } else if DayIn(w.selected.day, y, m) {
      var last := DaysInMonth(today.year, today.month);
      InRange(today.day, last, c.selected.day.value);
      if |c.dates| > 0 {
        assert c.dates[0] == today.day;
      }
    } else {
      var last := DaysInMonth(y, m);
      InRange(today.day, last, last);
    }
  }

  /**
   * With today 2026-10-31 and 2027-01-31 selected, turning the month wheel to February
   * leaves the day wheel with no rows and the selected date without a day: 31 February does
   * not exist, so February is treated as this month and its days before the 31st are removed.
   */
  lemma MonthMovedEmptiesDayWheel()
    ensures var today := DateKey(2026, 10, 31);
      var w := Wheel(Range(2026, 2036), Range(1, 12), Range(1, 31), ComponentsOf(DateKey(2027, 1, 31)));
      && WheelOk(w, today) && 2 in w.months
      && MonthMoved(w, today, 2).dates == []
      && MonthMoved(w, today, 2).selected == DateComponents(Some(2027), Some(2), None)
  {
    var today := DateKey(2026, 10, 31);
    var w := Wheel(Range(2026, 2036), Range(1, 12), Range(1, 31), ComponentsOf(DateKey(2027, 1, 31)));
    InRange(2026, 2036, 2027);
    InRange(1, 12, 1);
    InRange(1, 12, 2);
    InRange(1, 31, 31);
    assert WheelOk(w, today);
    assert !DayIn(w.selected.day, 2027, 2) by {
      assert DaysInMonth(2027, 2) == 28;
    }
    MonthMovedResult(w, today, 2);
    assert Range(31, 28) == [];
  }

  /**
   * `setSelectedDate(on:)` re-selects on the wheels as they are. With today 2026-10-19, the
   * year wheel turned to 2027 offers the months 1 to 12 and the days 1 to 31, and selecting
   * 2026-10-31 there leaves today's year on a twelve-month wheel. Turning the month wheel to
   * September then asks about 2026-09-31, which does not exist: the check falls back to
   * today, September is kept, and 2026-09-30, a day before today, is selected.
   */
  lemma MonthMovedSelectsPastDay()
    ensures var today := DateKey(2026, 10, 19);
      && IsValid(today)
      && WheelShown(InitialWheel(today), today) && 2027 in InitialWheel(today).years
      && var w := Reselected(YearMoved(InitialWheel(today), today, 2027), ComponentsOf(DateKey(2026, 10, 31)));
      && WheelShown(w, today) && !WheelOk(w, today) && 9 in w.months
      && MonthMoved(w, today, 9).selected == ComponentsOf(DateKey(2026, 9, 30))
      && DayBefore(SelectedDay(MonthMoved(w, today, 9)), today)
  {
    var today := DateKey(2026, 10, 19);
    InitialWheelOk(today);
    InRange(2026, 2036, 2027);
    InRange(2026, 2036, 2026);
    var turned := YearMoved(InitialWheel(today), today, 2027);
    assert DayIn(Some(19), 2027, 10);
    YearMovedResult(InitialWheel(today), today, 2027);
    assert turned.months == Range(1, 12) && turned.dates == Range(1, 31);
    InRange(1, 12, 10);
    InRange(1, 12, 9);
    InRange(1, 31, 31);
    ReselectedPicksFromRows(turned, ComponentsOf(DateKey(2026, 10, 31)));
    var w := Reselected(turned, ComponentsOf(DateKey(2026, 10, 31)));
    assert w.selected == ComponentsOf(DateKey(2026, 10, 31));
    assert !DayIn(w.selected.day, 2026, 9) by {
      assert DaysInMonth(2026, 9) == 30;
    }
    assert Range(1, 12) != Range(10, 12) by {
      assert |Range(1, 12)| == 12;
    }
    MonthMovedResult(w, today, 9);
  }

  /** The steps of `moveToMonthComponents` before the reload, with the check by month. */
  function MonthCascadeCorrected(w: Wheel, today: DateKey, m: int): Wheel
    requires WheelShown(w, today) && m in w.months
  {
    MonthsWithinYear(w, today);
    var w1 := w.(selected := w.selected.(month := Some(m)));
    var (w2, isFuture) := FutureCheckedByMonth(w1, today);
    DayUpdated(SelectedDayUpdated(w2), today, isFuture)
  }

  /**
   * With the check by month, a later month keeps its whole day wheel, and the selected day
   * is kept or becomes the month's last day; this or an earlier month falls back to today's
   * month from today's day. Either way the day wheel has rows.
   */
  lemma MonthCascadeCorrectedResult(w: Wheel, today: DateKey, m: int)
    requires WheelShown(w, today) && m in w.months
    ensures var c := MonthCascadeCorrected(w, today, m);
      var y := w.selected.year.value;
      && 1 <= m <= 12
      && c.years == w.years
      && |c.dates| > 0
      && (if MonthAfter(today, y, m) then
            && c.months == w.months
            && c.dates == Range(1, DaysInMonth(y, m))
            && c.selected == ComponentsOf(DateKey(y, m, KeptDay(w.selected.day, DaysInMonth(y, m))))
          else
            && c.dates == Range(today.day, DaysInMonth(today.year, today.month))
            && c.selected == ComponentsOf(DateKey(today.year, today.month,
                                                  KeptDay(w.selected.day, DaysInMonth(today.year, today.month)))))
  {
    MonthsWithinYear(w, today);
    var w1 := w.(selected := w.selected.(month := Some(m)));
    var (w2, isFuture) := FutureCheckedByMonth(w1, today);
    SelectedDayUpdatedResult(w2);
    if !MonthAfter(today, w.selected.year.value, m) {
      DropBelowRange(1, DaysInMonth(today.year, today.month), today.day);
    }
  }

  /**
   * The turn of `MonthMovedEmptiesDayWheel` with the check by month: February 2027 offers
   * all its days, 1 to 28, and the 31st becomes the 28th.
   */
  lemma MonthCascadeCorrectedOffersFebruary()
    ensures var today := DateKey(2026, 10, 31);
      var w := Wheel(Range(2026, 2036), Range(1, 12), Range(1, 31), ComponentsOf(DateKey(2027, 1, 31)));
      && WheelShown(w, today) && 2 in w.months
      && MonthCascadeCorrected(w, today, 2).dates == Range(1, 28)
      && MonthCascadeCorrected(w, today, 2).selected == ComponentsOf(DateKey(2027, 2, 28))
  {
    var today := DateKey(2026, 10, 31);
    var w := Wheel(Range(2026, 2036), Range(1, 12), Range(1, 31), ComponentsOf(DateKey(2027, 1, 31)));
    InRange(2026, 2036, 2027);
    InRange(1, 12, 1);
    InRange(1, 12, 2);
    InRange(1, 31, 31);
    assert WheelShown(w, today);
    assert DaysInMonth(2027, 2) == 28;
    MonthCascadeCorrectedResult(w, today, 2);
  }

  /**
   * A wheel turn keeps the selection shown on the wheels, and keeps wheels the picker built
   * itself (`WheelOk`) so; turning to the value already selected changes nothing, turning
   * the day wheel changes only the selected day, a year turn never selects a day before
   * today, and a month turn does not either from wheels the picker built itself.
   */
  lemma RowPickedResult(w: Wheel, today: DateKey, row: nat, component: nat)
    requires WheelShown(w, today)
    requires component == 0 ==> row < |w.years|
    requires component == 1 ==> row < |w.months|
    requires component == 2 ==> row < |w.dates|
    ensures var r := RowPicked(w, today, row, component);
      && WheelShown(r, today)
      && (WheelOk(w, today) ==> WheelOk(r, today))
      && (component == 0 && Some(w.years[row]) == w.selected.year ==> r == w)
      && (component == 1 && Some(w.months[row]) == w.selected.month ==> r == w)
      && (component == 2 ==> r == w.(selected := w.selected.(day := Some(w.dates[row]))))
      && (component == 0 && Some(w.years[row]) != w.selected.year && r.selected.day.Some? ==>
            !DayBefore(SelectedDay(r), today))
      && (component == 1 && Some(w.months[row]) != w.selected.month && r.selected.day.Some? ==>
            IsValid(SelectedDay(r)))
      && (component == 1 && Some(w.months[row]) != w.selected.month && r.selected.day.Some? && WheelOk(w, today) ==>
            !DayBefore(SelectedDay(r), today))
  {
    if component == 0 && Some(w.years[row]) != w.selected.year {
      YearMovedResult(w, today, w.years[row]);
    } else if component == 1 && Some(w.months[row]) != w.selected.month {
      MonthMovedResult(w, today, w.months[row]);
    }
  }

  // ---------------------------------------------------------------------------
  // The guarded picker wheel (`DefaultPickerView`)

  /** `selectRow`'s guard: `numberOfComponents - 1 >= inComponent` and `numberOfRows(inComponent) - 1 >= row`. */
  function CanSelectRow(componentCount: nat, rowCounts: seq<nat>, row: nat, component: nat): (ok: bool)
    requires |rowCounts| == componentCount
    ensures ok <==> component < componentCount && row < rowCounts[component]
  {
    componentCount - 1 >= component && rowCounts[component] - 1 >= row
  }

  /**
   * The picker wheel: how many components it has, how many rows each component showed when
   * it was last loaded, and which row each component has selected.
   */
  class DefaultPicker {
    const componentCount: nat
    var rowCounts: seq<nat>
    var selectedRows: seq<nat>

    ghost predicate Valid()
      reads this
    {
      |rowCounts| == componentCount && |selectedRows| == componentCount
    }

    /** A freshly loaded wheel with the first row of every component selected. */
    constructor (rows: seq<nat>)
      ensures Valid() && componentCount == |rows| && rowCounts == rows
      ensures selectedRows == seq(|rows|, _ => 0)
    {
      componentCount := |rows|;
      rowCounts := rows;
      selectedRows := seq(|rows|, _ => 0);
    }

    /** `selectRow(row:inComponent:animated:)`: selects only a row that exists in an existing component. */
    method SelectRow(row: nat, inComponent: nat)
      requires Valid()
      modifies this`selectedRows
      ensures Valid()
      ensures selectedRows == if CanSelectRow(componentCount, rowCounts, row, inComponent)
                              then old(selectedRows)[inComponent := row] else old(selectedRows)
    {
      if !CanSelectRow(componentCount, rowCounts, row, inComponent) {
        return;
      }
      selectedRows := selectedRows[inComponent := row];
    }

    /** `reloadComponent(_:)`: re-reads the row count of an existing component; any other index is ignored. */
    method ReloadComponent(component: nat, rows: nat)
      requires Valid()
      modifies this`rowCounts
      ensures Valid()
      ensures rowCounts == if component < componentCount then old(rowCounts)[component := rows] else old(rowCounts)
    {
      if !(componentCount > component) {
        return;
      }
      rowCounts := rowCounts[component := rows];
    }

    /** The user turns a component to `row` (done by UIKit before the delegate is told). */
    method Turn(row: nat, component: nat)
      requires Valid() && component < componentCount && row < rowCounts[component]
      modifies this`selectedRows
      ensures Valid() && selectedRows == old(selectedRows)[component := row]
    {
      selectedRows := selectedRows[component := row];
    }
  }

  // ---------------------------------------------------------------------------
  // The cascading date picker (`DynamicDatePickerView`)

  class DynamicDatePicker {
    const today: DateKey
    const picker: DefaultPicker
    var selectedDate: DateComponents
    var years: seq<int>
    var months: seq<int>
    var dates: seq<int>

    ghost function Rows(): Wheel
      reads this
    {
      Wheel(years, months, dates, selectedDate)
    }

    /** The wheel's row counts are those of the lists; nothing is said yet about the selected rows. */
    ghost predicate Loaded()
      reads this, picker
    {
      && ListsOk(Rows(), today)
      && picker.Valid() && picker.componentCount == 3
      && picker.rowCounts == [|years|, |months|, |dates|]
    }

    /** The selected rows show the selected year and month, and the selected day when the day wheel has rows. */
    ghost predicate ShowsSelection()
      reads this, picker
      requires Loaded()
    {
      && selectedDate.year.Some? && selectedDate.month.Some?
      && picker.selectedRows[0] < |years| && years[picker.selectedRows[0]] == selectedDate.year.value
      && picker.selectedRows[1] < |months| && months[picker.selectedRows[1]] == selectedDate.month.value
      && (|dates| > 0 ==>
            selectedDate.day.Some? && picker.selectedRows[2] < |dates| && dates[picker.selectedRows[2]] == selectedDate.day.value)
    }

    /** The wheels show the selection, whatever date was asked for. */
    ghost predicate Shown()
      reads this, picker
    {
      Loaded() && WheelShown(Rows(), today) && ShowsSelection()
    }

    ghost predicate Valid()
      reads this, picker
    {
      Shown() && WheelOk(Rows(), today)
    }

    /** The picker opens on today, with the wheels of `InitialWheel`. */
    constructor (today: DateKey)
      requires IsValid(today)
      ensures Valid() && fresh(picker)
      ensures Rows() == InitialWheel(today)
    {
      this.today := today;
      var ys := Range(today.year, today.year + 10);
      var ms := Range(today.month, 12);
      var ds := Range(today.day, DaysInMonth(today.year, today.month));
      years, months, dates := ys, ms, ds;
      selectedDate := ComponentsOf(today);
      picker := new DefaultPicker([|ys|, |ms|, |ds|]);
      new;
      InitialWheelOk(today);
    }

    /** `setSelectedDate(on:)`: selects the given date, or the current one again, on the current wheels. */
    method SetSelectedDate(dateComponents: Option<DateComponents>)
      requires Loaded()
      modifies this`selectedDate, picker`selectedRows
      ensures Shown()
      ensures Rows() == Reselected(old(Rows()), dateComponents.GetOr(old(selectedDate)))
    {
      SelectDate(dateComponents.GetOr(selectedDate));
    }

    /** `selectDate`: finds the rows of the date, reads the date back from them and turns the wheels there. */
    method SelectDate(dateComponents: DateComponents)
      requires Loaded()
      modifies this`selectedDate, picker`selectedRows
      ensures Shown()
      ensures Rows() == Reselected(old(Rows()), dateComponents)
    {
      var index := DateIndex(years, months, dates, dateComponents);
      UpdateSelectedDate(index.year, index.month, index.day);
      SetRow(index.year, index.month, index.day);
      ReselectedPicksFromRows(old(Rows()), dateComponents);
    }

    /** `updateSelectedDate`: each part of the date is read from its wheel, missing when the row does not exist. */
    method UpdateSelectedDate(yearIndex: int, monthIndex: int, dayIndex: int)
      modifies this`selectedDate
      ensures selectedDate == DateComponents(At(years, yearIndex), At(months, monthIndex), At(dates, dayIndex))
    {
      selectedDate := selectedDate.(year := At(years, yearIndex));
      selectedDate := selectedDate.(month := At(months, monthIndex));
      selectedDate := selectedDate.(day := At(dates, dayIndex));
    }

    /** `setRow`: turns the three components, each through the guarded `selectRow`. */
    method SetRow(yearIndex: nat, monthIndex: nat, dayIndex: nat)
      requires picker.Valid() && picker.componentCount == 3
      modifies picker`selectedRows
      ensures picker.Valid()
      ensures yearIndex < picker.rowCounts[0] && monthIndex < picker.rowCounts[1] && dayIndex < picker.rowCounts[2]
              ==> picker.selectedRows == [yearIndex, monthIndex, dayIndex]
      ensures picker.selectedRows[0] == if yearIndex < picker.rowCounts[0] then yearIndex else old(picker.selectedRows[0])
      ensures picker.selectedRows[1] == if monthIndex < picker.rowCounts[1] then monthIndex else old(picker.selectedRows[1])
      ensures picker.selectedRows[2] == if dayIndex < picker.rowCounts[2] then dayIndex else old(picker.selectedRows[2])
    {
      picker.SelectRow(yearIndex, 0);
      picker.SelectRow(monthIndex, 1);
      picker.SelectRow(dayIndex, 2);
    }

    /** `isValidFutureDate`. */
    method IsValidFutureDate() returns (isFuture: bool)
      requires IsValid(today)
      modifies this`selectedDate
      ensures (Rows(), isFuture) == FutureChecked(old(Rows()), today)
    {
      var date := ConvertDate(selectedDate).GetOr(today);
      var months := MonthsBetween(today, date);
      if months < 0 {
        selectedDate := selectedDate.(year := Some(today.year));
        selectedDate := selectedDate.(month := Some(today.month));
      }
      isFuture := months > 0;
    }

    /** `updateSelectedDay`. */
    method UpdateSelectedDay()
      requires selectedDate.year.Some? && selectedDate.month.Some? && 1 <= selectedDate.month.value <= 12
      modifies this`dates, this`selectedDate
      ensures Rows() == SelectedDayUpdated(old(Rows()))
    {
      var daysCountOfMonth := DaysInMonth(selectedDate.year.value, selectedDate.month.value);
      dates := Range(1, daysCountOfMonth);
      if !(selectedDate.day.Some? && selectedDate.day.value in dates) {
        selectedDate := selectedDate.(day := Some(dates[|dates| - 1]));
      }
    }

    /** `updateMonth`. */
    method UpdateMonth(isFuture: bool)
      modifies this`months, this`dates
      ensures Rows() == MonthUpdated(old(Rows()), today, isFuture)
    {
      var isCurrentYear := selectedDate.year == Some(today.year);
      months := if !isCurrentYear && isFuture then Range(1, 12) else Range(today.month, 12);
      UpdateDay(isFuture);
    }

    /** `updateDay`. */
    method UpdateDay(isFuture: bool)
      modifies this`dates
      ensures Rows() == DayUpdated(old(Rows()), today, isFuture)
    {
      if isFuture {
        return;
      }
      dates := DropBelow(dates, today.day);
    }

    /** `reloadComponents(range:)`: reloads the month wheel (for `.month`) and the day wheel, then re-selects. */
    method ReloadComponents(range: ReloadRange)
      requires ListsOk(Rows(), today)
      requires selectedDate.IsComplete() && selectedDate.year.value in years
      requires picker.Valid() && picker.componentCount == 3 && picker.rowCounts[0] == |years|
      requires range == Day ==> picker.rowCounts[1] == |months|
      modifies this`selectedDate, picker
      ensures Shown()
      ensures old(selectedDate.year.value == today.year ==> months == Range(today.month, 12)) ==> Valid()
      ensures Rows() == Reselected(old(Rows()), old(selectedDate))
    {
      if range == Month {
        picker.ReloadComponent(1, |months|);
      }
      picker.ReloadComponent(2, |dates|);
      SetSelectedDate(None);
    }

    /** `moveToYearComponents(on:)`. */
    method MoveToYearComponents(selectedYear: int)
      requires Loaded() && WheelShown(Rows(), today) && selectedYear in years
      modifies this, picker
      ensures Valid()
      ensures Rows() == YearMoved(old(Rows()), today, selectedYear)
      ensures selectedDate.day.Some? ==> !DayBefore(SelectedDay(Rows()), today)
    {
      ghost var w := Rows();
      MonthsWithinYear(w, today);
      YearCascadeReloadable(w, today, selectedYear);
      selectedDate := selectedDate.(year := Some(selectedYear));
      var isFuture := IsValidFutureDate();
      UpdateSelectedDay();
      UpdateMonth(isFuture);
      assert Rows() == YearCascade(w, today, selectedYear);
      ReloadComponents(Month);
      YearMovedResult(w, today, selectedYear);
    }

    /** `moveToMonthComponents(on:)`. */
    method MoveToMonthComponents(selectedMonth: int)
      requires Loaded() && WheelShown(Rows(), today) && selectedMonth in months
      modifies this, picker
      ensures Shown()
      ensures old(WheelOk(Rows(), today)) ==> Valid()
      ensures Rows() == MonthMoved(old(Rows()), today, selectedMonth)
      ensures selectedDate.day.Some? ==> IsValid(SelectedDay(Rows()))
      ensures old(WheelOk(Rows(), today)) && selectedDate.day.Some? ==> !DayBefore(SelectedDay(Rows()), today)
    {
      ghost var w := Rows();
      MonthsWithinYear(w, today);
      MonthCascadeResult(w, today, selectedMonth);
      selectedDate := selectedDate.(month := Some(selectedMonth));
      var isFuture := IsValidFutureDate();
      UpdateSelectedDay();
      UpdateDay(isFuture);
      assert Rows() == MonthCascade(w, today, selectedMonth);
      ReloadComponents(Day);
      MonthMovedResult(w, today, selectedMonth);
    }

    /** `pickerView(_:didSelectRow:inComponent:)`, after the user turned `component` to `row`. */
    method DidSelectRow(row: nat, component: nat)
      requires Shown()
      requires component < 3 ==> row < picker.rowCounts[component]
      modifies this, picker
      ensures Shown()
      ensures old(Valid()) ==> Valid()
      ensures Rows() == RowPicked(old(Rows()), today, row, component)
    {
      if component < 3 {
        picker.Turn(row, component);
      }
      if component == 0 {
        var selectedYear := years[row];
        if Some(selectedYear) == selectedDate.year {
          return;
        }
        MoveToYearComponents(selectedYear);
      } else if component == 1 {
        var selectedMonth := months[row];
        if Some(selectedMonth) == selectedDate.month {
          return;
        }
        MoveToMonthComponents(selectedMonth);
      } else if component == 2 {
        selectedDate := selectedDate.(day := Some(dates[row]));
      }
    }
  }
}
