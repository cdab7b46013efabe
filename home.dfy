/**
 * The recent schedules shown on the home screen, and how they are ordered.
 *
 * Both home reactors keep the fetched schedules sorted by date and open the calendar on the
 * day of the last one. The sort is Swift's `sorted(by:)`, whose algorithm is not specified;
 * it is modelled here by an insertion sort, and only what Swift guarantees is stated about it:
 * the result is a permutation of the input, and it is in ascending date order whenever the
 * comparator is a strict weak order, which is the case when every schedule has a date.
 */
module Schedules {
  import opened Options
  import opened Dates

  /** A `SimpleSchedule` as the home screens use it: an identity and an optional date. */
  datatype Schedule = Schedule(id: int, date: Option<Moment>)

  /** The sort comparator: an earlier date comes first, and "not less" whenever either date is missing. */
  predicate Earlier(a: Schedule, b: Schedule) {
    a.date.Some? && b.date.Some? && InstantLess(a.date.value, b.date.value)
  }

  predicate AllDated(s: seq<Schedule>) {
    forall i :: 0 <= i < |s| ==> s[i].date.Some?
  }

  /** Ascending date order: no schedule is dated before one that precedes it. */
  predicate SortedByDate(s: seq<Schedule>)
    requires AllDated(s)
  {
    forall i, j :: 0 <= i < j < |s| ==> !InstantLess(s[j].date.value, s[i].date.value)
  }

  /** Among dated schedules the comparator is a strict order; a schedule without a date is never less nor greater. */
  lemma EarlierIsStrictOrder(a: Schedule, b: Schedule, c: Schedule)
    ensures !Earlier(a, a)
    ensures Earlier(a, b) ==> !Earlier(b, a)
    ensures Earlier(a, b) && Earlier(b, c) ==> Earlier(a, c)
    ensures a.date.None? ==> !Earlier(a, b) && !Earlier(b, a)
  {
    if a.date.Some? && b.date.Some? && c.date.Some? {
      InstantLessIsStrictTotal(a.date.value, b.date.value, c.date.value);
    }
    if a.date.Some? {
      InstantLessIsStrictTotal(a.date.value, a.date.value, a.date.value);
    }
  }

  /** Inserts `x` in front of the first schedule it is not later than. */
  function Insert(x: Schedule, s: seq<Schedule>): (r: seq<Schedule>)
    ensures multiset(r) == multiset(s) + multiset{x}
  {
    if |s| == 0 then [x]
    else if Earlier(s[0], x) then
      assert s == [s[0]] + s[1..];
      [s[0]] + Insert(x, s[1..])
    else [x] + s
  }

  /** `schedules.sorted(by:)` with the date comparator. */
  function SortSchedules(s: seq<Schedule>): (r: seq<Schedule>)
    ensures multiset(r) == multiset(s)
  {
    if |s| == 0 then []
    else
      assert s == [s[0]] + s[1..];
      Insert(s[0], SortSchedules(s[1..]))
  }

  /** `a` is not later than `b` and `b` is not later than `c`, so `a` is not later than `c`. */
  lemma NotLaterTrans(a: Moment, b: Moment, c: Moment)
    requires !InstantLess(b, a) && !InstantLess(c, b)
    ensures !InstantLess(c, a)
  {
    InstantLessIsStrictTotal(c, a, b);
    InstantLessIsStrictTotal(a, b, c);
  }

  lemma {:induction false} InsertSorted(x: Schedule, s: seq<Schedule>)
    requires x.date.Some? && AllDated(s) && SortedByDate(s)
    ensures AllDated(Insert(x, s)) && SortedByDate(Insert(x, s))
    decreases |s|
  {
    var r := Insert(x, s);
    if |s| > 0 && Earlier(s[0], x) {
      var rest := Insert(x, s[1..]);
      InsertSorted(x, s[1..]);
      forall j | 0 <= j < |rest| ensures rest[j].date.Some? && !InstantLess(rest[j].date.value, s[0].date.value) {
        assert rest[j] in multiset(rest);
        if rest[j] != x {
          assert rest[j] in multiset(s[1..]);
          var k :| 0 <= k < |s[1..]| && s[1..][k] == rest[j];
          assert s[k + 1] == rest[j];
        } else {
          InstantLessIsStrictTotal(s[0].date.value, x.date.value, x.date.value);
        }
      }
      assert r == [s[0]] + rest;
      forall i, j | 0 <= i < j < |r| ensures !InstantLess(r[j].date.value, r[i].date.value) {
        assert r[j] == rest[j - 1];
        if i > 0 {
          assert r[i] == rest[i - 1];
        }
      }
    } else if |s| > 0 {
      assert r == [x] + s;
      forall j | 0 <= j < |s| ensures !InstantLess(s[j].date.value, x.date.value) {
        if j > 0 {
          NotLaterTrans(x.date.value, s[0].date.value, s[j].date.value);
        }
      }
      forall i, j | 0 <= i < j < |r| ensures !InstantLess(r[j].date.value, r[i].date.value) {
        assert r[j] == s[j - 1];
        if i > 0 {
          assert r[i] == s[i - 1];
        }
      }
    }
  }

  /** When every schedule has a date, the sorted list is in ascending date order. */
  lemma {:induction false} SortSchedulesSorted(s: seq<Schedule>)
    ensures AllDated(s) ==> AllDated(SortSchedules(s)) && SortedByDate(SortSchedules(s))
    decreases |s|
  {
    if |s| > 0 && AllDated(s) {
      SortSchedulesSorted(s[1..]);
      assert AllDated(s[1..]);
      InsertSorted(s[0], SortSchedules(s[1..]));
    }
  }

  /** No schedule of `s` is dated after `d`. */
  predicate IsLatest(s: seq<Schedule>, d: Moment)
    requires AllDated(s)
  {
    forall i :: 0 <= i < |s| ==> !InstantLess(d, s[i].date.value)
  }

  /**
   * Sorting a non-empty list of dated schedules puts last one of its own schedules, and no
   * schedule of the list is dated after it.
   */
  lemma {:induction false} SortedLastIsLatest(s: seq<Schedule>)
    requires |s| > 0 && AllDated(s)
    ensures var r := SortSchedules(s);
      && |r| == |s| && r[|r| - 1].date.Some?
      && r[|r| - 1] in s
      && IsLatest(s, r[|r| - 1].date.value)
  {
    var r := SortSchedules(s);
    SortSchedulesSorted(s);
    assert |r| == |multiset(r)| == |multiset(s)| == |s|;
    var last := r[|r| - 1];
    assert last in multiset(r);
    forall i | 0 <= i < |s| ensures !InstantLess(last.date.value, s[i].date.value) {
      assert s[i] in multiset(r) by {
        assert s[i] in multiset(s);
      }
      assert s[i] in r;
      var k :| 0 <= k < |r| && r[k] == s[i];
      if k < |r| - 1 {
        assert !InstantLess(r[|r| - 1].date.value, r[k].date.value);
      } else {
        InstantLessIsStrictTotal(last.date.value, last.date.value, last.date.value);
      }
    }
  }
}

/** The home screen reactor of the `Group` app (`HomeScene`). */
module GroupHome {
  import opened Options
  import opened Dates
  import opened Schedules

  datatype Action =
    | CheckNotificationPermission
    | FetchRecentSchedule
    | LogOutTest
    /** `presentCalendaer` */
    | OpenCalendar

  datatype Mutation = FetchedSchedules(schedules: seq<Schedule>) | PresentCompleted

  /** The reactor state; `presentCompleted` is the pulsed `Void?`, true once set. */
  datatype State = State(schedules: seq<Schedule>, presentCompleted: bool)

  const InitialState: State := State([], false)

  /** What `mutate` produces: its mutations, and the date it handed to the view's `presentNextEvent`, if any. */
  datatype Mutated = Mutated(mutations: seq<Mutation>, presented: Option<Moment>)

  /**
   * `mutate(action:)`. The fetch has no `catch`, so a failed fetch ends its sequence before
   * any mutation. The notification-permission request only has side effects.
   */
  function Mutate(s: State, a: Action, fetched: Outcome<seq<Schedule>, ()>): (r: Mutated)
    ensures !a.OpenCalendar? ==> r.presented == None
    ensures a.LogOutTest? || a.CheckNotificationPermission? ==> r.mutations == []
    ensures a.FetchRecentSchedule? ==> (r.mutations == [] <==> fetched.Failed?)
  {
    match a
    case FetchRecentSchedule =>
      (match fetched
       case Succeeded(schedules) => Mutated([FetchedSchedules(schedules)], None)
       case Failed(_) => Mutated([], None))
    case LogOutTest => Mutated([], None)
    case OpenCalendar => PresentNextEvent(s)
    case CheckNotificationPermission => Mutated([], None)
  }

  /** `presentNextEvent`: hands the start of the last schedule's day to the view, then reports completion. */
  function PresentNextEvent(s: State): (r: Mutated)
    ensures r.mutations == [] <==> |s.schedules| == 0 || s.schedules[|s.schedules| - 1].date.None?
    ensures r.mutations == [] ==> r.presented == None
    ensures r.mutations != [] ==>
      var last := s.schedules[|s.schedules| - 1].date.value;
      && r.mutations == [PresentCompleted]
      && r.presented.Some? && r.presented.value.date == last.date
      && !InstantLess(last, r.presented.value)
  {
    if |s.schedules| == 0 || s.schedules[|s.schedules| - 1].date.None? then Mutated([], None)
    else Mutated([PresentCompleted], Some(StartOfDay(s.schedules[|s.schedules| - 1].date.value)))
  }

  /** `reduce(state:mutation:)`: a fetch replaces the schedules by the fetched ones in date order. */
  function Reduce(s: State, m: Mutation): (r: State)
    ensures m.FetchedSchedules? ==>
      && multiset(r.schedules) == multiset(m.schedules)
      && (AllDated(m.schedules) ==> AllDated(r.schedules) && SortedByDate(r.schedules))
      && r.presentCompleted == s.presentCompleted
    ensures m.PresentCompleted? ==> r == s.(presentCompleted := true)
  {
    match m
    case FetchedSchedules(schedules) =>
      SortSchedulesSorted(schedules);
      s.(schedules := SortSchedules(schedules))
    case PresentCompleted => s.(presentCompleted := true)
  }

  /**
   * After fetching dated schedules, opening the calendar presents the start of the day of a
   * latest fetched schedule and reports completion.
   */
  lemma FetchThenPresentShowsLatestDay(s: State, fetched: seq<Schedule>)
    requires |fetched| > 0 && AllDated(fetched)
    ensures var r := PresentNextEvent(Reduce(s, FetchedSchedules(fetched)));
      && r.mutations == [PresentCompleted]
      && exists x :: x in fetched && x.date.Some? && IsLatest(fetched, x.date.value)
                     && r.presented.Some? && r.presented.value == StartOfDay(x.date.value)
  {
    SortedLastIsLatest(fetched);
    var sorted := SortSchedules(fetched);
    var x := sorted[|sorted| - 1];
    assert x in fetched && IsLatest(fetched, x.date.value);
  }
}

/** The home screen reactor of the `Mople` app (`Tabs/Home`). */
module MopleHome {
  import opened Options
  import opened Dates
  import opened Schedules

  datatype Action =
    | CheckNotificationPermission
    | FetchRecentSchedule
    | CreateGroup
    /** `presentCalendaer` */
    | OpenCalendar

  datatype Mutation =
    | FetchedSchedules(schedules: seq<Schedule>)
    | PresentCalendar(date: Moment)
    | PresentCreateGroupView(hasCompletion: bool)

  datatype State = State(schedules: seq<Schedule>, presentCompleted: bool)

  const InitialState: State := State([], false)

  /** The view actions `reduce` calls. */
  datatype ViewCall = PresentCalendarView(date: Moment) | PresentCreateGroup(hasCompletion: bool)

  /** What `reduce` produces: the new state and the view action it called, if any. */
  datatype Reduced = Reduced(state: State, call: Option<ViewCall>)

  /** `mutate(action:)`; as in the other home reactor, a failed fetch yields no mutation. */
  function Mutate(s: State, a: Action, fetched: Outcome<seq<Schedule>, ()>): (ms: seq<Mutation>)
    ensures a.CreateGroup? ==> ms == [PresentCreateGroupView(false)]
    ensures a.CheckNotificationPermission? ==> ms == []
    ensures a.FetchRecentSchedule? ==> (ms == [] <==> fetched.Failed?)
  {
    match a
    case FetchRecentSchedule =>
      (match fetched
       case Succeeded(schedules) => [FetchedSchedules(schedules)]
       case Failed(_) => [])
    case CreateGroup => PresentCreateGroupViewMutations()
    case OpenCalendar => PresentNextEvent(s)
    case CheckNotificationPermission => []
  }

  /** `presentNextEvent`: the calendar is to be shown at the start of the last schedule's day. */
  function PresentNextEvent(s: State): (ms: seq<Mutation>)
    ensures ms == [] <==> |s.schedules| == 0 || s.schedules[|s.schedules| - 1].date.None?
    ensures ms != [] ==>
      var last := s.schedules[|s.schedules| - 1].date.value;
      && |ms| == 1 && ms[0].PresentCalendar?
      && ms[0].date.date == last.date && !InstantLess(last, ms[0].date)
  {
    if |s.schedules| == 0 || s.schedules[|s.schedules| - 1].date.None? then []
    else [PresentCalendar(StartOfDay(s.schedules[|s.schedules| - 1].date.value))]
  }

  /** `presentCreateGroupView`: one presentation, without a completion handler. */
  function PresentCreateGroupViewMutations(): seq<Mutation> {
    [PresentCreateGroupView(false)]
  }

  /** `reduce(state:mutation:)`: only a fetch changes the state; the other two call the view. */
  function Reduce(s: State, m: Mutation): (r: Reduced)
    ensures m.FetchedSchedules? ==>
      && r.call == None
      && multiset(r.state.schedules) == multiset(m.schedules)
      && (AllDated(m.schedules) ==> AllDated(r.state.schedules) && SortedByDate(r.state.schedules))
      && r.state.presentCompleted == s.presentCompleted
    ensures m.PresentCalendar? ==> r == Reduced(s, Some(PresentCalendarView(m.date)))
    ensures m.PresentCreateGroupView? ==> r == Reduced(s, Some(PresentCreateGroup(m.hasCompletion)))
  {
    match m
    case FetchedSchedules(schedules) =>
      SortSchedulesSorted(schedules);
      Reduced(s.(schedules := SortSchedules(schedules)), None)
    case PresentCalendar(date) => Reduced(s, Some(PresentCalendarView(date)))
    case PresentCreateGroupView(hasCompletion) => Reduced(s, Some(PresentCreateGroup(hasCompletion)))
  }

  /**
   * After fetching dated schedules, opening the calendar shows it at the start of the day of a
   * latest fetched schedule, and the state is left as it was.
   */
  lemma FetchThenOpenCalendarShowsLatestDay(s: State, fetched: seq<Schedule>)
    requires |fetched| > 0 && AllDated(fetched)
    ensures var s1 := Reduce(s, FetchedSchedules(fetched)).state;
      var ms := Mutate(s1, OpenCalendar, Failed(()));
      && |ms| == 1
      && Reduce(s1, ms[0]).state == s1
      && exists x :: x in fetched && x.date.Some? && IsLatest(fetched, x.date.value)
                     && Reduce(s1, ms[0]).call == Some(PresentCalendarView(StartOfDay(x.date.value)))
  {
    SortedLastIsLatest(fetched);
    var sorted := SortSchedules(fetched);
    var x := sorted[|sorted| - 1];
    assert x in fetched && IsLatest(fetched, x.date.value);
  }
}
