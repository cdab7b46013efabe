/**
 * The screen around the calendar (`CalendarScheduleViewController`): whether a vertical pan
 * may switch the calendar's scope, the header and buttons each scope shows, and the relay
 * that asks the reactor to present the next event once it has finished loading.
 *
 * A pan's velocity is a float in the source; only its vertical sign is read, so it is an
 * integer here.
 */
module CalendarSchedule {
  import opened Options
  import opened Dates
  import opened CalendarView

  /** `shouldAllowScopeChangeGesture`: an upward pan collapses the month, a downward pan expands the week. */
  function ShouldAllowScopeChange(scope: Option<Scope>, velocityY: int): (r: bool)
    ensures scope.None? ==> !r
    ensures scope == Some(Month) ==> (r <==> velocityY < 0)
    ensures scope == Some(Week) ==> (r <==> velocityY > 0)
  {
    match scope
    case None => false
    case Some(s) => if s == Month then velocityY < 0 else velocityY > 0
  }

  /**
   * `gestureRecognizerShouldBegin`: the pan is considered only when the schedule list is
   * scrolled to its top or the calendar shows a month. So a month collapses on any upward
   * pan, and a week expands only on a downward pan that starts with the list at its top.
   */
  function GestureShouldBegin(tableTop: bool, scope: Option<Scope>, velocityY: int): (r: bool)
    ensures r <==> (scope == Some(Month) && velocityY < 0) || (scope == Some(Week) && tableTop && velocityY > 0)
  {
    var shouldBegin := tableTop || scope == Some(Month);
    if shouldBegin then ShouldAllowScopeChange(scope, velocityY) else shouldBegin
  }

  /** `updateHeaderView(scope:)`: the header is shown in month scope and folded away in week scope. */
  function HeaderHeight(scope: Scope): (h: int)
    ensures h == 56 <==> scope == Month
    ensures h == 0 <==> scope == Week
  {
    match scope
    case Month => 56
    case Week => 0
  }

  /** The header's year and month, before they are formatted as text. */
  datatype HeaderLabel = HeaderLabel(year: int, month: int)

  /** `setHeaderLabel(date:)`: the year and month shown, 2024 and 1 standing in for missing ones. */
  function HeaderLabelFor(c: DateComponents): (l: HeaderLabel)
    ensures c.year.Some? ==> l.year == c.year.value
    ensures c.year.None? ==> l.year == 2024
    ensures c.month.Some? ==> l.month == c.month.value
    ensures c.month.None? ==> l.month == 1
  {
    HeaderLabel(c.year.GetOr(2024), c.month.GetOr(1))
  }

  /** What `presentNextEvent.accept(v)` passes on: the `compactMap` drops a missing date. */
  function Requests(v: Option<Moment>): (r: seq<Moment>)
    ensures r == [] <==> v.None?
    ensures v.Some? ==> r == [v.value]
  {
    if v.Some? then [v.value] else []
  }

  /** `checkIsPresent(_:)`: the stored date is sent again only when loading is over and a date is stored. */
  function PresentRequests(isLoading: bool, stored: Option<Moment>): (r: seq<Moment>)
    ensures r == [] <==> isLoading || stored.None?
    ensures r != [] ==> r == [stored.value]
  {
    if isLoading || stored.None? then [] else Requests(stored)
  }

  /** `resetPresentDate` as written: it only ever stores "nothing" over "nothing", so a stored date is never cleared. */
  function ResetAsWritten(stored: Option<Moment>): (r: Option<Moment>)
    ensures r == stored
  {
    if stored != None then stored else None
  }

  /** `resetPresentDate` as its name and its caller intend: leaving the screen forgets the stored date. */
  function ResetCorrected(stored: Option<Moment>): (r: Option<Moment>)
    ensures r.None?
  {
    if stored.None? then stored else None
  }

  /**
   * As written, a date handed over from the home screen survives leaving the calendar: the
   * next time loading finishes it is requested again. Corrected, nothing is requested.
   */
  lemma {:induction false} StaleDateRequestedAgain(t: Moment)
    ensures PresentRequests(false, ResetAsWritten(Some(t))) == [t]
    ensures PresentRequests(false, ResetCorrected(Some(t))) == []
  {
    assert ResetAsWritten(Some(t)) == Some(t);
  }

  class ScheduleScreen {
    var headerHeight: int
    var rightButtonHidden: bool
    var leftButtonHidden: bool
    var scheduleListHidden: bool
    var headerLabel: HeaderLabel
    /** The value held by the `presentNextEvent` relay. */
    var storedNextEvent: Option<Moment>
    /** The `requestNextEvent` actions sent to the reactor, oldest first. */
    var nextEventRequests: seq<Moment>

    /**
     * `viewDidLoad`'s setup: the calendar button shown, the close button hidden, the header
     * at full height and labelled with today's year and month.
     */
    constructor(today: DateComponents)
      ensures headerHeight == 56 && !rightButtonHidden && leftButtonHidden && !scheduleListHidden
      ensures headerLabel == HeaderLabelFor(today)
      ensures storedNextEvent == None && nextEventRequests == []
    {
      headerHeight := 56;
      rightButtonHidden := false;
      leftButtonHidden := true;
      scheduleListHidden := false;
      headerLabel := HeaderLabelFor(today);
      storedNextEvent := None;
      nextEventRequests := [];
    }

    /**
     * `updateMainView(_:)`: month scope shows the header and the calendar button and hides the
     * close button and the schedule list; week scope inverts each of them. Exactly one of the
     * two buttons is ever visible.
     */
    method UpdateMainView(scope: Scope)
      modifies this
      ensures headerHeight == HeaderHeight(scope)
      ensures rightButtonHidden <==> scope == Week
      ensures leftButtonHidden <==> scope == Month
      ensures scheduleListHidden <==> scope == Month
      ensures rightButtonHidden != leftButtonHidden
      ensures headerLabel == old(headerLabel) && storedNextEvent == old(storedNextEvent)
      ensures nextEventRequests == old(nextEventRequests)
    {
      headerHeight := HeaderHeight(scope);
      var isScopeMonth := scope == Month;
      rightButtonHidden := !isScopeMonth;
      leftButtonHidden := isScopeMonth;
      scheduleListHidden := scope == Month;
    }

    /** The `changedPage` pulse: the header shows the new page's year and month. */
    method SetHeaderLabel(c: DateComponents)
      modifies this
      ensures headerLabel == HeaderLabelFor(c)
      ensures headerHeight == old(headerHeight) && rightButtonHidden == old(rightButtonHidden)
      ensures leftButtonHidden == old(leftButtonHidden) && scheduleListHidden == old(scheduleListHidden)
      ensures storedNextEvent == old(storedNextEvent) && nextEventRequests == old(nextEventRequests)
    {
      headerLabel := HeaderLabelFor(c);
    }

    /** `presentNextEvent.accept(v)`. */
    method Accept(v: Option<Moment>)
      modifies this
      ensures storedNextEvent == v
      ensures nextEventRequests == old(nextEventRequests) + Requests(v)
      ensures headerHeight == old(headerHeight) && headerLabel == old(headerLabel)
      ensures rightButtonHidden == old(rightButtonHidden) && leftButtonHidden == old(leftButtonHidden)
      ensures scheduleListHidden == old(scheduleListHidden)
    {
      storedNextEvent := v;
      nextEventRequests := nextEventRequests + Requests(v);
    }

    /** `presentNextEvent(on:)`: the home screen hands over the date of its last schedule. */
    method PresentNextEvent(lastRecentDate: Moment)
      modifies this
      ensures storedNextEvent == Some(lastRecentDate)
      ensures nextEventRequests == old(nextEventRequests) + [lastRecentDate]
      ensures headerHeight == old(headerHeight) && headerLabel == old(headerLabel)
      ensures rightButtonHidden == old(rightButtonHidden) && leftButtonHidden == old(leftButtonHidden)
      ensures scheduleListHidden == old(scheduleListHidden)
    {
      Accept(Some(lastRecentDate));
    }

    /** `checkIsPresent(_:)`, on every `isLoading` pulse. */
    method CheckIsPresent(isLoading: bool)
      modifies this
      ensures storedNextEvent == old(storedNextEvent)
      ensures nextEventRequests == old(nextEventRequests) + PresentRequests(isLoading, storedNextEvent)
      ensures headerHeight == old(headerHeight) && headerLabel == old(headerLabel)
      ensures rightButtonHidden == old(rightButtonHidden) && leftButtonHidden == old(leftButtonHidden)
      ensures scheduleListHidden == old(scheduleListHidden)
    {
      if isLoading || storedNextEvent.None? {
        return;
      }
      Accept(storedNextEvent);
    }

    /**
     * `resetPresentDate` as written: its guard returns whenever a date is stored, so it only
     * ever stores "nothing" over "nothing", and a stored date survives (see `ResetAsWritten`).
     */
    method ResetPresentDate()
      modifies this
      ensures storedNextEvent == ResetAsWritten(old(storedNextEvent))
      ensures nextEventRequests == old(nextEventRequests)
      ensures headerHeight == old(headerHeight) && headerLabel == old(headerLabel)
      ensures rightButtonHidden == old(rightButtonHidden) && leftButtonHidden == old(leftButtonHidden)
      ensures scheduleListHidden == old(scheduleListHidden)
    {
      if storedNextEvent != None {
        return;
      }
      Accept(None);
    }

    /** `resetPresentDate` with its guard inverted, as intended: a stored date is cleared, and nothing is requested. */
    method ResetPresentDateCorrected()
      modifies this
      ensures storedNextEvent == ResetCorrected(old(storedNextEvent))
      ensures nextEventRequests == old(nextEventRequests)
      ensures headerHeight == old(headerHeight) && headerLabel == old(headerLabel)
      ensures rightButtonHidden == old(rightButtonHidden) && leftButtonHidden == old(leftButtonHidden)
      ensures scheduleListHidden == old(scheduleListHidden)
    {
      if storedNextEvent == None {
        return;
      }
      Accept(None);
    }

    /** `viewWillDisappear(_:)`: as written, the stored date is kept and nothing else changes. */
    method ViewWillDisappear()
      modifies this
      ensures storedNextEvent == old(storedNextEvent)
      ensures nextEventRequests == old(nextEventRequests)
      ensures headerHeight == old(headerHeight) && headerLabel == old(headerLabel)
      ensures rightButtonHidden == old(rightButtonHidden) && leftButtonHidden == old(leftButtonHidden)
      ensures scheduleListHidden == old(scheduleListHidden)
    {
      ResetPresentDate();
    }
  }
}
