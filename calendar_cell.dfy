/**
 * A day cell of the calendar (`CustomCalendarCell`): an indicator circle behind the day
 * number, and an event dot in its corner.
 */
module CalendarCell {
  import opened Options
  import opened Dates
  import opened CalendarView

  /** The indicator's background: the selection tint, the today grey, or nothing. */
  datatype Indicator = SelectionColor | TodayColor | Clear

  /** `setBackGroundColor`'s choice: selection first, then today, else clear. */
  function IndicatorFor(isToday: bool, isSelected: bool): (c: Indicator)
    ensures c == SelectionColor <==> isSelected
    ensures c == TodayColor <==> !isSelected && isToday
    ensures c == Clear <==> !isSelected && !isToday
  {
    if isSelected then SelectionColor
    else if isToday then TodayColor
    else Clear
  }

  class DayCell {
    var isCornerRadiusSet: bool
    /** `dotContainer.isHidden`. */
    var dotHidden: bool
    /** `indicatorView.backgroundColor`. */
    var indicator: Indicator
    /** The corner radii of `indicatorView`, `dotContainer` and `eventDot`. */
    var indicatorRadius: real
    var dotContainerRadius: real
    var eventDotRadius: real

    /** A fresh cell: no dot, no background, square corners. */
    constructor()
      ensures !isCornerRadiusSet && dotHidden && indicator == Clear
      ensures indicatorRadius == 0.0 && dotContainerRadius == 0.0 && eventDotRadius == 0.0
    {
      isCornerRadiusSet := false;
      dotHidden := true;
      indicator := Clear;
      indicatorRadius := 0.0;
      dotContainerRadius := 0.0;
      eventDotRadius := 0.0;
    }

    /**
     * `draw(_:)`, given the heights the three views have been laid out with: the first draw
     * makes each view round, and every later draw leaves the cell as it is.
     */
    method Draw(indicatorHeight: real, dotContainerHeight: real, eventDotHeight: real)
      modifies this
      ensures isCornerRadiusSet
      ensures old(isCornerRadiusSet) ==> unchanged(this)
      ensures !old(isCornerRadiusSet) ==>
        && indicatorRadius == indicatorHeight / 2.0
        && dotContainerRadius == dotContainerHeight / 2.0
        && eventDotRadius == eventDotHeight / 2.0
        && dotHidden == old(dotHidden) && indicator == old(indicator)
    {
      if !isCornerRadiusSet {
        indicatorRadius := indicatorHeight / 2.0;
        dotContainerRadius := dotContainerHeight / 2.0;
        eventDotRadius := eventDotHeight / 2.0;
        isCornerRadiusSet := true;
      }
    }

    /** `updateCell(containsEvent:isSelected:isToday:)`. */
    method UpdateCell(containsEvent: bool, isSelected: bool, isToday: bool)
      modifies this
      ensures dotHidden == !containsEvent
      ensures indicator == IndicatorFor(isToday, isSelected)
      ensures isCornerRadiusSet == old(isCornerRadiusSet)
      ensures indicatorRadius == old(indicatorRadius) && dotContainerRadius == old(dotContainerRadius)
      ensures eventDotRadius == old(eventDotRadius)
    {
      SetEvent(containsEvent);
      SetBackGroundColor(isToday, isSelected);
    }

    /** `setEvent(_:)`: the same dot rule as `updateCell`. */
    method SetEvent(containsEvent: bool)
      modifies this
      ensures dotHidden == !containsEvent
      ensures indicator == old(indicator) && isCornerRadiusSet == old(isCornerRadiusSet)
      ensures indicatorRadius == old(indicatorRadius) && dotContainerRadius == old(dotContainerRadius)
      ensures eventDotRadius == old(eventDotRadius)
    {
      dotHidden := !containsEvent;
    }

    /** `setBackGroundColor(_:_:)`. */
    method SetBackGroundColor(isToday: bool, isSelected: bool)
      modifies this
      ensures indicator == IndicatorFor(isToday, isSelected)
      ensures dotHidden == old(dotHidden) && isCornerRadiusSet == old(isCornerRadiusSet)
      ensures indicatorRadius == old(indicatorRadius) && dotContainerRadius == old(dotContainerRadius)
      ensures eventDotRadius == old(eventDotRadius)
    {
      indicator := IndicatorFor(isToday, isSelected);
    }
  }

  /**
   * A cell drawn by the calendar's data source shows the dot exactly on event days, the
   * selection tint exactly on the selected day, and the today grey on today unless today is
   * selected; so at most one cell is tinted and at most one is grey.
   */
  lemma {:induction false} DrawnCellColours(events: seq<DateComponents>, selected: Option<DateKey>,
                                            today: DateComponents, d: DateKey, e: DateKey)
    requires IsValid(d)
    ensures var f := CellFlagsFor(events, selected, today, d);
      && (IndicatorFor(f.isToday, f.isSelected) == SelectionColor <==> selected == Some(d))
      && (IndicatorFor(f.isToday, f.isSelected) == TodayColor <==>
            ConvertDate(today) == Some(d) && selected != Some(d))
      && (f.containsEvent <==> exists c :: c in events && ConvertDate(c) == Some(d))
    ensures var f := CellFlagsFor(events, selected, today, d);
      var g := CellFlagsFor(events, selected, today, e);
      IndicatorFor(f.isToday, f.isSelected) == IndicatorFor(g.isToday, g.isSelected) != Clear ==> d == e
  {
    CellFlagsMeaning(events, selected, today, d);
    var f := CellFlagsFor(events, selected, today, d);
    var g := CellFlagsFor(events, selected, today, e);
    if IndicatorFor(f.isToday, f.isSelected) == IndicatorFor(g.isToday, g.isSelected) == TodayColor {
      TodayIsOneDay(today, d, e);
    }
  }
}
