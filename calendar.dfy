/**
 * The month/week calendar of the schedule screen (`CalendarViewController`).
 *
 * The controller owns an FSCalendar and reports to its reactor through five relays. Here the
 * calendar is reduced to what the controller reads and writes: its scope, its current page
 * (the first day shown: the 1st of a month, or the Sunday of a week), its selected day, and
 * how often it was asked to reload. The five relays are one log of `Emission`s in the order
 * they were accepted.
 */
module CalendarView {
  import opened Options
  import opened Dates

  /** `ScopeType`, and FSCalendar's scope. */
  datatype Scope = Month | Week

  /** `ScopeUpdateType`: what asked for the switch. */
  datatype ScopeUpdateType = ButtonTap | CalendarScopeChange

  /** `FSCalendarMonthPosition` of a tapped cell relative to the page's month. */
  datatype MonthPosition = Previous | Current | Next | NotFound

  /** A value accepted by one of the controller's relays. */
  datatype Emission =
    | HeightChanged(height: int)
    | ScopeChanged(scope: Scope)
    | PageChanged(page: DateComponents)
    | DateSelected(date: DateComponents)
    | FocusDateInWeek(date: DateComponents)

  /** `calendar.rowHeight`. */
  const RowHeight: int := 60

  /** What `updateCell` is told about a day. */
  datatype CellFlags = CellFlags(containsEvent: bool, isSelected: bool, isToday: bool)

  // ---------------------------------------------------------------------------
  // Pages

  /** A day that can be the first day of a page in `scope`. */
  predicate IsPage(scope: Scope, d: DateKey)
    requires IsValid(d)
  {
    if scope == Month then d.day == 1 else Weekday(d) == 0
  }

  /** The page of `scope` that shows `d`. */
  function PageOf(scope: Scope, d: DateKey): (r: DateKey)
    requires IsValid(d)
    ensures IsValid(r) && IsPage(scope, r)
    ensures scope == Month ==> r.year == d.year && r.month == d.month && !DayBefore(d, r)
    ensures scope == Week ==> SameWeek(r, d) && DayNumber(d) - 6 <= DayNumber(r) <= DayNumber(d)
  {
    if scope == Month then DateKey(d.year, d.month, 1) else StartOfWeek(d)
  }

  /** Whether the page of `scope` starting on `page` shows `d`. */
  predicate OnPage(scope: Scope, page: DateKey, d: DateKey)
    requires IsValid(page) && IsValid(d)
  {
    if scope == Month then d.year == page.year && d.month == page.month else SameWeek(page, d)
  }

  /** A page shows the days whose page it is, and a page is its own page. */
  lemma {:induction false} PageOfShowsDay(scope: Scope, d: DateKey)
    requires IsValid(d)
    ensures OnPage(scope, PageOf(scope, d), d)
    ensures PageOf(scope, PageOf(scope, d)) == PageOf(scope, d)
  {
    var r := PageOf(scope, d);
    if scope == Week {
      assert Weekday(r) == 0;
      assert StartOfWeek(r) == r;
    }
  }

  /**
   * The day FSCalendar keeps in view when its scope changes: the selected day when the old
   * page shows it, otherwise the old page's first day.
   */
  function Anchor(scope: Scope, page: DateKey, selected: Option<DateKey>): (r: DateKey)
    requires IsValid(page) && (selected.Some? ==> IsValid(selected.value))
    ensures IsValid(r) && OnPage(scope, page, r)
    ensures selected.Some? && OnPage(scope, page, selected.value) ==> r == selected.value
    ensures !(selected.Some? && OnPage(scope, page, selected.value)) ==> r == page
  {
    if selected.Some? && OnPage(scope, page, selected.value) then selected.value
    else
      PageOfShowsDay(scope, page);
      page
  }

  // ---------------------------------------------------------------------------
  // Cell checks

  /** `checkContainsEvent`: some event has the day's components. */
  predicate ContainsEvent(events: seq<DateComponents>, d: DateKey) {
    ComponentsOf(d) in events
  }

  /** `checkToday`: the day's components are today's components. */
  predicate IsToday(today: DateComponents, d: DateKey) {
    ComponentsOf(d) == today
  }

  /** `checkSelected`: no day is selected when nothing is, otherwise only the selected day. */
  predicate IsSelected(selected: Option<DateKey>, d: DateKey) {
    selected.Some? && selected.value == d
  }

  /** `calendar(_:cellFor:at:)`: the flags a day's cell is drawn with. */
  function CellFlagsFor(events: seq<DateComponents>, selected: Option<DateKey>, today: DateComponents, d: DateKey): CellFlags {
    CellFlags(ContainsEvent(events, d), IsSelected(selected, d), IsToday(today, d))
  }

  /**
   * A cell shows an event dot exactly when some event names its day, the today colour only on
   * the day today's components name, and the selection only on the selected day; incomplete or
   * impossible components mark no day at all.
   */
  lemma {:induction false} CellFlagsMeaning(events: seq<DateComponents>, selected: Option<DateKey>, today: DateComponents, d: DateKey)
    requires IsValid(d)
    ensures var f := CellFlagsFor(events, selected, today, d);
      && (f.containsEvent <==> exists e :: e in events && ConvertDate(e) == Some(d))
      && (f.isToday <==> ConvertDate(today) == Some(d))
      && (f.isSelected <==> selected == Some(d))
  {
    ConvertComponentsRoundTrip(d);
    if exists e :: e in events && ConvertDate(e) == Some(d) {
      var e :| e in events && ConvertDate(e) == Some(d);
      assert e == ComponentsOf(d);
    }
  }

  /** At most one day is marked as today. */
  lemma {:induction false} TodayIsOneDay(today: DateComponents, a: DateKey, b: DateKey)
    requires IsToday(today, a) && IsToday(today, b)
    ensures a == b
  {
    assert ComponentsOf(a).year.value == a.year && ComponentsOf(b).year.value == b.year;
    assert ComponentsOf(a).month.value == a.month && ComponentsOf(b).month.value == b.month;
    assert ComponentsOf(a).day.value == a.day && ComponentsOf(b).day.value == b.day;
  }

  // ---------------------------------------------------------------------------
  // The current page's events

  /** The days `from` through the last day of month `m` of year `y`, as components. */
  function MonthDays(y: int, m: int, from: int): (r: seq<DateComponents>)
    requires 1 <= m <= 12 && 1 <= from
    ensures forall c :: c in r <==>
      c.year == Some(y) && c.month == Some(m) && c.day.Some? && from <= c.day.value <= DaysInMonth(y, m)
    decreases DaysInMonth(y, m) + 1 - from
  {
    if from > DaysInMonth(y, m) then []
    else [ComponentsOf(DateKey(y, m, from))] + MonthDays(y, m, from + 1)
  }

  /**
   * `activeDates`, as components: in month scope the cells FSCalendar has at `.current` are
   * the days of the page's month; the head and tail placeholders of the neighbouring months
   * are not among them.
   */
  function ActiveDates(page: DateKey): (r: seq<DateComponents>)
    requires IsValid(page)
    ensures forall d :: IsValid(d) ==> (ComponentsOf(d) in r <==> d.year == page.year && d.month == page.month)
    ensures forall c :: c in r ==> ConvertDate(c).Some?
  {
    MonthDays(page.year, page.month, 1)
  }

  /** The events, in list order, whose components are among `active`. */
  function EventsOnPage(events: seq<DateComponents>, active: seq<DateComponents>): (r: seq<DateComponents>)
    ensures forall e :: e in r <==> e in events && e in active
    ensures |r| <= |events|
  {
    if |events| == 0 then []
    else (if events[0] in active then [events[0]] else []) + EventsOnPage(events[1..], active)
  }

  /** `currentPageFirstEventDate`: the first of the filtered events, if any. */
  function FirstEventOnPage(events: seq<DateComponents>, active: seq<DateComponents>): (r: Option<DateComponents>)
    ensures r.Some? ==> r.value in events && r.value in active
  {
    var onPage := EventsOnPage(events, active);
    if |onPage| == 0 then None else Some(onPage[0])
  }

  /**
   * The first event on the page is absent exactly when no event is on the page, and otherwise
   * it is the earliest event in list order that is on the page.
   */
  lemma {:induction false} FirstEventOnPageIsFirst(events: seq<DateComponents>, active: seq<DateComponents>)
    ensures var r := FirstEventOnPage(events, active);
      && (r.None? <==> forall i :: 0 <= i < |events| ==> events[i] !in active)
      && (r.Some? ==> exists i :: 0 <= i < |events| && events[i] == r.value && r.value in active
                         && forall j :: 0 <= j < i ==> events[j] !in active)
    decreases |events|
  {
    var r := FirstEventOnPage(events, active);
    if |events| == 0 {
    } else if events[0] in active {
      assert EventsOnPage(events, active)[0] == events[0];
      assert 0 <= 0 < |events| && events[0] == r.value;
    } else {
      var tail := events[1..];
      assert EventsOnPage(events, active) == EventsOnPage(tail, active);
      FirstEventOnPageIsFirst(tail, active);
      assert forall i :: 1 <= i < |events| ==> events[i] == tail[i - 1];
      if r.Some? {
        var i :| 0 <= i < |tail| && tail[i] == r.value && r.value in active
          && forall j :: 0 <= j < i ==> tail[j] !in active;
        assert events[i + 1] == r.value;
        forall j | 0 <= j < i + 1
          ensures events[j] !in active
        {
          if j > 0 {
            assert events[j] == tail[j - 1];
          }
        }
      }
    }
  }

  /**
   * The day a collapse from month to week focuses on. After a button tap it is the first event
   * of the page's month, or the page's first day; after a tap on a cell of the month it is the
   * selected day, and there is none when nothing is selected.
   */
  function CollapseFocus(t: ScopeUpdateType, events: seq<DateComponents>, page: DateKey, selected: Option<DateKey>): (r: Option<DateComponents>)
    requires IsValid(page)
    ensures t == ButtonTap ==> r.Some? && r.value.year == Some(page.year) && r.value.month == Some(page.month)
    ensures t == ButtonTap ==> (r.value in events <==> r.value != ComponentsOf(page) || ComponentsOf(page) in events)
    ensures t == ButtonTap && (exists e :: e in events && e in ActiveDates(page)) ==> r.value in events
    ensures t == ButtonTap ==> r == Some(FirstEventOnPage(events, ActiveDates(page)).GetOr(ComponentsOf(page)))
    ensures t == CalendarScopeChange ==> (r.None? <==> selected.None?)
    ensures t == CalendarScopeChange && selected.Some? ==> r == Some(ComponentsOf(selected.value))
  {
    match t
    case ButtonTap =>
      var first := FirstEventOnPage(events, ActiveDates(page));
      FirstEventOnPageIsFirst(events, ActiveDates(page));
      if first.Some? then
        assert ConvertDate(first.value).Some?;
        Some(first.value)
      else Some(ComponentsOf(page))
    case CalendarScopeChange =>
      if selected.None? then None else Some(ComponentsOf(selected.value))
  }

  // ---------------------------------------------------------------------------
  // Page bounds

  /** `minimumDate(for:)`: January 1 of today's year, ten years back; ten years before `now` when today has no year. */
  function MinimumDate(today: DateComponents, now: DateKey): (r: DateKey)
    requires IsValid(now)
    ensures IsValid(r)
    ensures today.year.Some? ==> r == DateKey(today.year.value - 10, 1, 1)
    ensures today.year.Some? ==> forall d :: IsValid(d) ==> (!DayBefore(d, r) <==> d.year >= today.year.value - 10)
    ensures today.year.None? ==> r == AddYears(now, -10)
  {
    var base := ConvertDate(today.(month := Some(1), day := Some(1))).GetOr(now);
    AddYears(base, -10)
  }

  /** `maximumDate(for:)`: December 31 of today's year, ten years ahead; ten years after `now` when today has no year. */
  function MaximumDate(today: DateComponents, now: DateKey): (r: DateKey)
    requires IsValid(now)
    ensures IsValid(r)
    ensures today.year.Some? ==> r == DateKey(today.year.value + 10, 12, 31)
    ensures today.year.Some? ==> forall d :: IsValid(d) ==> (!DayBefore(r, d) <==> d.year <= today.year.value + 10)
    ensures today.year.None? ==> r == AddYears(now, 10)
  {
    var base := ConvertDate(today.(month := Some(12), day := Some(31))).GetOr(now);
    AddYears(base, 10)
  }

  // ---------------------------------------------------------------------------
  // The controller

  /** Everything the controller and its calendar hold, as one value. */
  datatype CalendarState = CalendarState(
    scope: Scope,
    currentPage: DateKey,
    selectedDate: Option<DateKey>,
    eventDates: seq<DateComponents>,
    reloads: nat,
    emitted: seq<Emission>)

  class CalendarController {
    var scope: Scope
    var currentPage: DateKey
    var selectedDate: Option<DateKey>
    /** `eventDateComponents`. */
    var eventDates: seq<DateComponents>
    /** How often `reloadData` was called. */
    var reloads: nat
    /** What the relays accepted, oldest first. */
    var emitted: seq<Emission>
    /** The reactor's `todayComponents`. */
    const today: DateComponents

    ghost function Snapshot(): CalendarState
      reads this
    {
      CalendarState(scope, currentPage, selectedDate, eventDates, reloads, emitted)
    }

    ghost predicate Valid()
      reads this
    {
      && IsValid(currentPage)
      && IsPage(scope, currentPage)
      && (selectedDate.Some? ==> IsValid(selectedDate.value))
    }

    /** A calendar in month scope on the month of `now`, with no events and nothing selected. */
    constructor(today: DateComponents, now: DateKey)
      requires IsValid(now)
      ensures Valid()
      ensures this.today == today
      ensures Snapshot() == CalendarState(Month, PageOf(Month, now), None, [], 0, [])
    {
      this.today := today;
      scope := Month;
      currentPage := PageOf(Month, now);
      selectedDate := None;
      eventDates := [];
      reloads := 0;
      emitted := [];
    }

    // FSCalendar's own operations, as the controller uses them.

    /** `setCurrentPage(_:animated:)`: show the page holding `d`. */
    method SetCurrentPage(d: DateKey)
      requires Valid() && IsValid(d)
      modifies this
      ensures Valid()
      ensures Snapshot() == old(Snapshot()).(currentPage := PageOf(scope, d))
    {
      currentPage := PageOf(scope, d);
    }

    /** `setScope(_:animated:)`: a new scope re-anchors the page on the day kept in view. */
    method SetScope(s: Scope)
      requires Valid()
      modifies this
      ensures Valid()
      ensures s == old(scope) ==> Snapshot() == old(Snapshot())
      ensures s != old(scope) ==>
        Snapshot() == old(Snapshot()).(scope := s, currentPage := PageOf(s, Anchor(old(scope), old(currentPage), selectedDate)))
    {
      if s != scope {
        currentPage := PageOf(s, Anchor(scope, currentPage, selectedDate));
        scope := s;
      }
    }

    /** `select(_:scrollToDate: false)`. */
    method Select(d: DateKey)
      requires Valid() && IsValid(d)
      modifies this
      ensures Valid()
      ensures Snapshot() == old(Snapshot()).(selectedDate := Some(d))
    {
      selectedDate := Some(d);
    }

    // The controller's handlers.

    /** `updateEvents(with:)`: the event list is replaced, never merged, and the calendar reloads. */
    method UpdateEvents(events: seq<DateComponents>)
      requires Valid()
      modifies this
      ensures Valid()
      ensures Snapshot() == old(Snapshot()).(eventDates := events, reloads := old(reloads) + 1)
      ensures forall d :: IsValid(d) ==>
        (CellFlagsFor(eventDates, selectedDate, today, d).containsEvent <==> exists e :: e in events && ConvertDate(e) == Some(d))
    {
      eventDates := events;
      reloads := reloads + 1;
      forall d | IsValid(d)
        ensures CellFlagsFor(eventDates, selectedDate, today, d).containsEvent <==> exists e :: e in events && ConvertDate(e) == Some(d)
      {
        CellFlagsMeaning(eventDates, selectedDate, today, d);
      }
    }

    /** `calendarCurrentPageDidChange`: the new page is reported. */
    method CurrentPageDidChange()
      modifies this
      ensures Snapshot() == old(Snapshot()).(emitted := old(emitted) + [PageChanged(ComponentsOf(currentPage))])
    {
      emitted := emitted + [PageChanged(ComponentsOf(currentPage))];
    }

    /** `calendar(_:boundingRectWillChange:animated:)`: the scope, then the height (six rows in month scope). */
    method BoundingRectWillChange(boundsHeight: int)
      modifies this
      ensures var h := if scope == Month then RowHeight * 6 else boundsHeight;
        Snapshot() == old(Snapshot()).(emitted := old(emitted) + [ScopeChanged(scope), HeightChanged(h)])
    {
      var h := if scope == Month then RowHeight * 6 else boundsHeight;
      emitted := emitted + [ScopeChanged(scope), HeightChanged(h)];
    }

    /**
     * A tap on the cell of `date`: FSCalendar selects the day, then calls
     * `calendar(_:didSelect:at:)`. In week scope the day is only reported as the selection. In
     * month scope a day of the page's month asks to collapse onto it, and a day of a
     * neighbouring month only moves the page to that month.
     */
    method DidSelect(date: DateKey, position: MonthPosition)
      requires Valid() && IsValid(date)
      modifies this
      ensures Valid()
      ensures old(scope) == Week ==>
        Snapshot() == old(Snapshot()).(selectedDate := Some(date), emitted := old(emitted) + [DateSelected(ComponentsOf(date))])
      ensures old(scope) == Month && position == Current ==>
        Snapshot() == old(Snapshot()).(selectedDate := Some(date), emitted := old(emitted) + [FocusDateInWeek(ComponentsOf(date))])
      ensures old(scope) == Month && (position == Next || position == Previous) ==>
        Snapshot() == old(Snapshot()).(selectedDate := Some(date), currentPage := PageOf(Month, date))
      ensures old(scope) == Month && position == NotFound ==>
        Snapshot() == old(Snapshot()).(selectedDate := Some(date))
    {
      Select(date);
      UpdateFocus(date, position);
    }

    /** `updateFocus(on:with:)`. */
    method UpdateFocus(date: DateKey, position: MonthPosition)
      requires Valid() && IsValid(date)
      modifies this
      ensures Valid()
      ensures old(scope) == Week ==> Snapshot() == old(Snapshot()).(emitted := old(emitted) + [DateSelected(ComponentsOf(date))])
      ensures old(scope) == Month && position == Current ==>
        Snapshot() == old(Snapshot()).(emitted := old(emitted) + ToFocus(CollapseFocus(CalendarScopeChange, eventDates, currentPage, selectedDate)))
      ensures old(scope) == Month && (position == Next || position == Previous) ==>
        Snapshot() == old(Snapshot()).(currentPage := PageOf(Month, date))
      ensures old(scope) == Month && position == NotFound ==> Snapshot() == old(Snapshot())
    {
      if scope == Month {
        ChangeMonth(date, position);
      } else {
        NotifySelectedDate(date);
      }
    }

    /** `changeMonth(on:with:)`: only in month scope. */
    method ChangeMonth(date: DateKey, position: MonthPosition)
      requires Valid() && IsValid(date)
      modifies this
      ensures Valid()
      ensures old(scope) == Week || position == NotFound ==> Snapshot() == old(Snapshot())
      ensures old(scope) == Month && position == Current ==>
        Snapshot() == old(Snapshot()).(emitted := old(emitted) + ToFocus(CollapseFocus(CalendarScopeChange, eventDates, currentPage, selectedDate)))
      ensures old(scope) == Month && (position == Next || position == Previous) ==>
        Snapshot() == old(Snapshot()).(currentPage := PageOf(Month, date))
    {
      if scope != Month {
        return;
      }
      match position
      case Current =>
        SwitchScope(CalendarScopeChange);
      case Next =>
        MoveToPage(ComponentsOf(date));
      case Previous =>
        MoveToPage(ComponentsOf(date));
      case NotFound =>
    }

    /** `notifySelectedDate(on:)`. */
    method NotifySelectedDate(date: DateKey)
      modifies this
      ensures Snapshot() == old(Snapshot()).(emitted := old(emitted) + [DateSelected(ComponentsOf(date))])
    {
      emitted := emitted + [DateSelected(ComponentsOf(date))];
    }

    /** The `switchScope` pulse from the reactor (the header button). */
    method SwitchScopePulse()
      requires Valid()
      modifies this
      ensures Valid()
      ensures old(scope) == Month ==>
        Snapshot() == old(Snapshot()).(emitted := old(emitted) + ToFocus(CollapseFocus(ButtonTap, eventDates, currentPage, selectedDate)))
      ensures old(scope) == Week ==>
        && scope == Month
        && currentPage == PageOf(Month, Anchor(Week, old(currentPage), selectedDate))
        && Snapshot() == old(Snapshot()).(scope := Month, currentPage := currentPage,
                                           emitted := old(emitted) + [PageChanged(ComponentsOf(currentPage))])
    {
      SwitchScope(ButtonTap);
    }

    /** `switchScope(updateType:)`. */
    method SwitchScope(t: ScopeUpdateType)
      requires Valid()
      modifies this
      ensures Valid()
      ensures old(scope) == Month ==>
        Snapshot() == old(Snapshot()).(emitted := old(emitted) + ToFocus(CollapseFocus(t, eventDates, currentPage, selectedDate)))
      ensures old(scope) == Week ==>
        && currentPage == PageOf(Month, Anchor(Week, old(currentPage), selectedDate))
        && Snapshot() == old(Snapshot()).(scope := Month, currentPage := currentPage,
                                           emitted := old(emitted) + [PageChanged(ComponentsOf(currentPage))])
    {
      if scope == Month {
        UpdateWhenMonthScope(t);
      } else {
        UpdateWhenWeekScope();
      }
    }

    /** `updateWhenWeekScope`: expand to the month, then report the page now shown. */
    method UpdateWhenWeekScope()
      requires Valid() && scope == Week
      modifies this
      ensures Valid()
      ensures currentPage == PageOf(Month, Anchor(Week, old(currentPage), selectedDate))
      ensures Snapshot() == old(Snapshot()).(scope := Month, currentPage := currentPage,
                                              emitted := old(emitted) + [PageChanged(ComponentsOf(currentPage))])
    {
      SetScope(Month);
      emitted := emitted + [PageChanged(ComponentsOf(currentPage))];
    }

    /** `updateWhenMonthScope(_:)`: ask the reactor to collapse onto the focus day, when there is one. */
    method UpdateWhenMonthScope(t: ScopeUpdateType)
      requires Valid() && scope == Month
      modifies this
      ensures Valid()
      ensures Snapshot() == old(Snapshot()).(emitted := old(emitted) + ToFocus(CollapseFocus(t, eventDates, currentPage, selectedDate)))
    {
      var focus := CollapseFocus(t, eventDates, currentPage, selectedDate);
      if focus.Some? {
        emitted := emitted + [FocusDateInWeek(focus.value)];
      }
    }

    /**
     * The `focusDateInWeekView` pulse from the reactor: report the day as the selection, then
     * select it and collapse to the week that shows it.
     */
    method FocusDateInWeekPulse(c: DateComponents)
      requires Valid()
      modifies this
      ensures Valid()
      ensures emitted == old(emitted) + [DateSelected(c)]
      ensures ConvertDate(c).None? ==> Snapshot() == old(Snapshot()).(emitted := emitted)
      ensures ConvertDate(c).Some? ==> scope == Week && selectedDate == ConvertDate(c)
      ensures ConvertDate(c).Some? && old(scope) == Month && OnPage(Month, old(currentPage), ConvertDate(c).value) ==>
        currentPage == PageOf(Week, ConvertDate(c).value)
      ensures eventDates == old(eventDates) && reloads == old(reloads)
    {
      emitted := emitted + [DateSelected(c)];
      MoveToFocusDate(c);
    }

    /** `moveToFoucsDate(_:)`: a day that cannot be built is ignored. */
    method MoveToFocusDate(c: DateComponents)
      requires Valid()
      modifies this
      ensures Valid()
      ensures ConvertDate(c).None? ==> Snapshot() == old(Snapshot())
      ensures ConvertDate(c).Some? ==> var d := ConvertDate(c).value;
        && scope == Week
        && Snapshot() == old(Snapshot()).(scope := Week, selectedDate := Some(d), currentPage := currentPage)
        && (old(scope) == Week ==> currentPage == old(currentPage))
        && (old(scope) == Month ==> currentPage == PageOf(Week, Anchor(Month, old(currentPage), Some(d))))
    {
      var focus := ConvertDate(c);
      if focus.None? {
        return;
      }
      Select(focus.value);
      SetScope(Week);
    }

    /** `moveToPage(dateComponents:animated:)`: a day that cannot be built is ignored. */
    method MoveToPage(c: DateComponents)
      requires Valid()
      modifies this
      ensures Valid()
      ensures ConvertDate(c).None? ==> Snapshot() == old(Snapshot())
      ensures ConvertDate(c).Some? ==> Snapshot() == old(Snapshot()).(currentPage := PageOf(scope, ConvertDate(c).value))
    {
      var d := ConvertDate(c);
      if d.None? {
        return;
      }
      SetCurrentPage(d.value);
    }

    /**
     * `moveToCurrentDate(_:)`, for a change of the schedule list's date from `previous` to
     * `current`: the new day is selected; within one week the calendar only reloads, across
     * weeks it moves to the new day's page.
     */
    method MoveToCurrentDate(previous: DateComponents, current: DateComponents)
      requires Valid()
      modifies this
      ensures Valid()
      ensures ConvertDate(previous).None? || ConvertDate(current).None? ==> Snapshot() == old(Snapshot())
      ensures ConvertDate(previous).Some? && ConvertDate(current).Some? ==>
        var p, c := ConvertDate(previous).value, ConvertDate(current).value;
        && (SameWeek(p, c) ==> Snapshot() == old(Snapshot()).(selectedDate := Some(c), reloads := old(reloads) + 1))
        && (!SameWeek(p, c) ==> Snapshot() == old(Snapshot()).(selectedDate := Some(c), currentPage := PageOf(scope, c)))
        && (!SameWeek(p, c) ==> OnPage(scope, currentPage, c))
    {
      var p := ConvertDate(previous);
      var c := ConvertDate(current);
      if p.None? || c.None? {
        return;
      }
      Select(c.value);
      if SameWeek(p.value, c.value) {
        reloads := reloads + 1;
      } else {
        MoveToPage(current);
        PageOfShowsDay(scope, c.value);
      }
    }
  }

  /** The focus request for a collapse, if there is a focus day. */
  function ToFocus(focus: Option<DateComponents>): (r: seq<Emission>)
    ensures |r| <= 1 && (r == [] <==> focus.None?)
    ensures focus.Some? ==> r == [FocusDateInWeek(focus.value)]
  {
    if focus.Some? then [FocusDateInWeek(focus.value)] else []
  }
}
