# GroupManager: the date picker, the calendar screen and the profile and home reactors

This project models the core of GroupManager in Dafny and proves properties of the model.
GroupManager is a pair of iOS apps, "Group" and its successor "Mople", for planning group
meetings. The model covers:

- **The dynamic date picker** (`DynamicDatePickerView`, on top of `DefaultPickerView`). It has a
  year, a month and a day wheel meant to offer only days from today on. The row lists are fields
  of the class `DatePicker.DynamicDatePicker`. Each step the source performs (`isValidFutureDate`,
  `updateSelectedDay`, `updateMonth`, `updateDay`, the two cascades, `didSelectRow`) is a method.
  Each method is proved against a step function on a `Wheel` value. Lemmas about those
  functions show that a wheel turn from wheels the picker built itself (`WheelOk`) never
  selects a day before today. They also show two ways around this as written. After
  `setSelectedDate(on:)` has put today's year on a twelve-month wheel, a month turn can select
  a past day. A turn to a month that lacks the selected day (31 February) can leave the day
  wheel empty (see "## Findings").
- **The calendar screen**:
  - `CalendarViewController` wraps FSCalendar. It is the class
    `CalendarView.CalendarController`, holding the calendar's scope, current page, selected day
    and event list, and a log of what its relays accepted.
  - Its day cell `CustomCalendarCell` is the class `CalendarCell.DayCell`.
  - The surrounding `CalendarScheduleViewController` is the class
    `CalendarSchedule.ScheduleScreen`, with the pure rules for the scope gesture and the header.
- **The reactors** (ReactorKit: `mutate` turns an action into a sequence of mutations, and
  `reduce` folds them into the state):
  - the two profile-setup reactors (`LoginProfileSetup`, `ProfileFormReactor`) and the error
    texts they share (`Errors`);
  - the two home reactors (`GroupHome`, `MopleHome`), which sort the recent schedules
    (`Schedules`);
  - the group-creation reactor (`GroupCreate`).
  Use-case and repository results are parameters (`Outcome`: `Succeeded(v)` or `Failed(e)`).
  A mutation sequence is a `seq<Mutation>`, and `ReduceAll` folds it into the state.
- **The profile form** (`BaseProfileViewController`). This is the class
  `ProfileForm.ProfileFormView`. It covers the ten-character limit of the nickname field and
  the rules that enable the duplicate-check and completion buttons.

Dates are modelled in `Dates`:

- A day is a `DateKey`. Its validity follows the Gregorian calendar.
- A Foundation `DateComponents` is a record of optional year, month and day.
- A `Date` is a `Moment`: a day and a second of that day.

`DateManager` is not part of this model. Its conversions are modelled as the Gregorian
calendar with Sunday-first weeks.

## Model

| member | source | states |
|---|---|---|
| DatePicker.DateIndex | Mople/CommonUI/Picker/DynamicDatePickerView.swift:98-108 | An incomplete date gives rows (0, 0, 0). For a complete date, each row is the first row holding that part, or row 0 when its wheel does not offer it. On non-empty wheels every row exists. |
| DatePicker.DropBelowRange | Mople/CommonUI/Picker/DynamicDatePickerView.swift:146-149 | Removing the days before today's day from the run `lo..hi` leaves the run from the later of `lo` and today's day to `hi`. |
| DatePicker.InitialWheelOk | Mople/CommonUI/Picker/DynamicDatePickerView.swift:48-73 | The first wheels offer eleven years from today's year, today's month through December, and today's day through the month's last day. Today is selected. The wheels are well formed. |
| DatePicker.ReselectedPicksFromRows | Mople/CommonUI/Picker/DynamicDatePickerView.swift:85-115 | Re-selecting a date on wheels with years and months yields a year and a month taken from their wheels, and a day from the day wheel exactly when it has rows. Each part is the requested one when its wheel offers it, and the wheel's first row otherwise. The lists are unchanged. |
| DatePicker.FutureCheckedResult | Mople/CommonUI/Picker/DynamicDatePickerView.swift:128-136 | About `FutureChecked`, the model of `isValidFutureDate`. The selected date, or today when it names no existing day, is compared with today by month. The answer is true exactly when the date exists and lies in a later month. An existing date in this or an earlier month is moved to today's year and month. A nonexistent date keeps its year and month. The day and the lists are untouched. |
| DatePicker.FutureCheckedByMonth | Mople/CommonUI/Picker/DynamicDatePickerView.swift:127-136 | The check by month that the function's comment describes: the answer is true exactly when the selected month lies after today's month, whatever the day. A month that is not later becomes today's year and month. |
| DatePicker.FutureCheckedAgreesOnExistingDays | Mople/CommonUI/Picker/DynamicDatePickerView.swift:128-136 | On a selected day that exists, the check as written and the check by month give the same wheels and the same answer. |
| DatePicker.FutureCheckedMissesLaterMonth | Mople/CommonUI/Picker/DynamicDatePickerView.swift:128-136 | Today 2026-10-31, with 2027-02-31 selected: February 2027 lies after October 2026, yet the check as written answers no, and the check by month answers yes. |
| DatePicker.SelectedDayUpdatedResult | Mople/CommonUI/Picker/DynamicDatePickerView.swift:118-125 | About `SelectedDayUpdated`, the model of `updateSelectedDay`. The day wheel becomes 1 through the number of days in the selected month. The selected day is kept when the month has it, and becomes the month's last day otherwise. |
| DatePicker.YearCascadeResult | Mople/CommonUI/Picker/DynamicDatePickerView.swift:177-181 | After the year is set and the three update steps run, the date is complete and the year and month lists are well formed. An existing day in a later month is kept, with all twelve months in a later year. An existing day otherwise falls back to today's year and month, and the days start at today's day. A day the new year lacks keeps its month and becomes the month's last day, with the months from today's and the days from today's day to that last day. |
| DatePicker.YearMovedResult | Mople/CommonUI/Picker/DynamicDatePickerView.swift:177-183 | Turning the year wheel keeps the wheels consistent and never selects a day before today. The selection and the lists are given exactly in the three cases of the cascade. For a day the year lacks, the month falls back to today's when it is earlier, and the day wheel is empty, with no day selected, when the month's last day is before today's day. |
| DatePicker.MonthCascadeResult | Mople/CommonUI/Picker/DynamicDatePickerView.swift:186-190 | After the month is set and the update steps run, the years and months are unchanged and the date is complete, with its year and month on their wheels. The day and the day wheel follow the same three cases as the year cascade; a day the new month lacks becomes its last day, and the days run from today's day to it. From wheels the picker built itself (`WheelOk`), today's year keeps the months from today's. |
| DatePicker.MonthMovedResult | Mople/CommonUI/Picker/DynamicDatePickerView.swift:186-192 | Turning the month wheel keeps the selection shown on the wheels, and any selected day exists. From wheels the picker built itself (`WheelOk`), the wheels stay so and a selected day is never before today. The selection and the day wheel are given exactly in the three cases; for a day the month lacks, the day wheel is empty, with no day selected, when the month's last day is before today's day. |
| DatePicker.MonthMovedSelectsPastDay | Mople/CommonUI/Picker/DynamicDatePickerView.swift:80-82 | Today 2026-10-19: the year wheel is turned to 2027, then `setSelectedDate(on:)` selects 2026-10-31, which leaves today's year on a twelve-month wheel. Turning the month wheel to September then selects 2026-09-30, a day before today. |
| DatePicker.MonthMovedEmptiesDayWheel | Mople/CommonUI/Picker/DynamicDatePickerView.swift:128-149 | Today 2026-10-31, with 2027-01-31 selected on consistent wheels: turning the month wheel to February leaves no day rows and a selected date without a day. |
| DatePicker.MonthCascadeCorrectedResult | Mople/CommonUI/Picker/DynamicDatePickerView.swift:186-190 | With the check by month, turning to a later month keeps that month's whole day wheel, from 1 to its last day, and keeps the selected day or makes it the month's last day. Any other month falls back to today's month from today's day. The day wheel is never empty. |
| DatePicker.MonthCascadeCorrectedOffersFebruary | Mople/CommonUI/Picker/DynamicDatePickerView.swift:186-190 | The turn of the as-written counterexample, with the check by month: February 2027 offers days 1 to 28, and the 31st becomes the 28th. |
| DatePicker.RowPickedResult | Mople/CommonUI/Picker/DynamicDatePickerView.swift:225-240 | About `RowPicked`, the model of `didSelectRow`. Every wheel turn keeps the selection shown on the wheels, and keeps wheels the picker built itself (`WheelOk`) so. Turning the year or month wheel to the value already selected changes nothing. Turning the day wheel changes only the selected day. A year turn that leaves a day selected never leaves a past day. A month turn leaves an existing day, and no past day from wheels the picker built itself. |
| DatePicker.CanSelectRow | Mople/CommonUI/Picker/DefaultPickerView.swift:55-57 | A row may be selected exactly when its component exists and the row exists in that component. |
| DatePicker.DefaultPicker.SelectRow | Mople/CommonUI/Picker/DefaultPickerView.swift:55-60 | The requested row is selected when the guard lets it through. Otherwise the selection is unchanged. |
| DatePicker.DefaultPicker.ReloadComponent | Mople/CommonUI/Picker/DefaultPickerView.swift:65-68 | Only an existing component re-reads its row count. Any other index is ignored. |
| DatePicker.DynamicDatePicker.constructor | Mople/CommonUI/Picker/DynamicDatePickerView.swift:38-52 | The picker opens on the initial wheels for today, with today selected. |
| DatePicker.DynamicDatePicker.SetSelectedDate | Mople/CommonUI/Picker/DynamicDatePickerView.swift:80-82 | Re-selects the given date, or the current one when none is given, on the current wheels. The wheels then show the selection: the year and month always, the day whenever the day wheel has rows. |
| DatePicker.DynamicDatePicker.SelectDate | Mople/CommonUI/Picker/DynamicDatePickerView.swift:85-95 | The date is resolved to rows, read back from those rows, and the wheels are turned there. |
| DatePicker.DynamicDatePicker.UpdateSelectedDate | Mople/CommonUI/Picker/DynamicDatePickerView.swift:111-115 | Each part of the date is the wheel's value at that index, and is missing when the index is out of bounds. |
| DatePicker.DynamicDatePicker.SetRow | Mople/CommonUI/Picker/DynamicDatePickerView.swift:170-174 | Each of the three components is turned to its row when the row exists, and is otherwise left as it was. |
| DatePicker.DynamicDatePicker.IsValidFutureDate | Mople/CommonUI/Picker/DynamicDatePickerView.swift:128-136 | The new state and the answer are those of `FutureChecked`: the selected date, or today when it names no existing day, compared with today by month. |
| DatePicker.DynamicDatePicker.UpdateSelectedDay | Mople/CommonUI/Picker/DynamicDatePickerView.swift:118-125 | The new state is that of `SelectedDayUpdated`. |
| DatePicker.DynamicDatePicker.UpdateMonth | Mople/CommonUI/Picker/DynamicDatePickerView.swift:139-143 | The new state is that of `MonthUpdated`: all twelve months in a later year, otherwise from today's month; then the day step. |
| DatePicker.DynamicDatePicker.UpdateDay | Mople/CommonUI/Picker/DynamicDatePickerView.swift:146-149 | The new state is that of `DayUpdated`: unless the month is later, the days before today's day are removed. |
| DatePicker.DynamicDatePicker.ReloadComponents | Mople/CommonUI/Picker/DynamicDatePickerView.swift:161-167 | The month wheel (for `.month`) and the day wheel re-read their row counts, then the date is re-selected, so the selection is shown. The picker stays consistent when the month wheel offers only the months from today's in today's year. |
| DatePicker.DynamicDatePicker.MoveToYearComponents | Mople/CommonUI/Picker/DynamicDatePickerView.swift:177-183 | The new state is that of `YearMoved`, and a selected day is never before today. |
| DatePicker.DynamicDatePicker.MoveToMonthComponents | Mople/CommonUI/Picker/DynamicDatePickerView.swift:186-192 | The new state is that of `MonthMoved`, the selection stays shown, and a selected day exists. From wheels the picker built itself (`WheelOk`), the picker stays consistent and a selected day is never before today. |
| DatePicker.DynamicDatePicker.DidSelectRow | Mople/CommonUI/Picker/DynamicDatePickerView.swift:225-242 | Accepts any shown selection, including one `setSelectedDate(on:)` left. The new state is that of `RowPicked`, the selection stays shown, and a consistent picker stays consistent. |
| Errors.Info | Group/Presentation/LoginScene/ViewModel/ProfileSetupViewReactor.swift:27-46 | An error response with a message shows that message. Every other case shows one of the app's fixed texts. |
| Errors.MapServerError | Group/Presentation/LoginScene/ViewModel/ProfileSetupViewReactor.swift:165-172 | An HTTP failure becomes `serverError`. An error response becomes `errRespon` carrying the same message. |
| Errors.MapDataError | Group/Presentation/LoginScene/ViewModel/ProfileSetupViewReactor.swift:150-163 | Each data-transfer error maps to its own facing case, in both directions. Only a server error maps to `serverError` or `errRespon`. No data error maps to `noTokenError` or `retryEnter`. |
| Errors.ErrorMessage | Group/Presentation/LoginScene/ViewModel/ProfileSetupViewReactor.swift:126-142 | The text each reactor's `HandleError` (`LoginProfileSetup.HandleError`, `ProfileFormReactor.HandleError`) stores. Data errors show their mapped text and token errors the Apple ID text. The reactor's own facing type shows its text. Any other error, including the other reactor's facing type, shows the unknown-error text. |
| Errors.DataErrorsShowAppTextOrServerMessage | Group/Presentation/ViewControllers/ProfileSetup/ProfileSetup/ProfileSetupViewReactor.swift:119-165 | A data error shows a fixed text, except a server error response with a message, which shows that message verbatim. Both reactors show the same text for every data error. |
| LoginProfileSetup.Mutate | Group/Presentation/LoginScene/ViewModel/ProfileSetupViewReactor.swift:88-102 | Nothing happens while a button is loading. Otherwise only a profile without a name yields no mutation. A nickname fetch starts by switching loading on, and yields three mutations on success and only that one on failure. |
| LoginProfileSetup.MutateCorrected | Group/Presentation/LoginScene/ViewModel/ProfileSetupViewReactor.swift:88-102 | With the nickname failure caught, every action but a nickname fetch mutates as written; a fetch yields three mutations, switching loading on first and off last. |
| LoginProfileSetup.Reduce | Group/Presentation/LoginScene/ViewModel/ProfileSetupViewReactor.swift:104-124 | Each mutation writes its own field and leaves every other field equal. An error writes its user-facing text, and a made profile calls the completion once. |
| LoginProfileSetup.ReduceAllAppend | Group/Presentation/LoginScene/ViewModel/ProfileSetupViewReactor.swift:104-124 | Reducing a concatenation of mutations equals reducing the first part, then the second. |
| LoginProfileSetup.OverlapCheckRound | Group/Presentation/LoginScene/ViewModel/ProfileSetupViewReactor.swift:191-205 | The round of `OverlapCheck`. A nickname check keeps the button busy until its answer is in, then releases it with the same tag. The overlap, or the failure's text, is recorded. Nothing else changes. |
| LoginProfileSetup.MakeProfileRound | Group/Presentation/LoginScene/ViewModel/ProfileSetupViewReactor.swift:207-224 | The round of `MakeProfile`. A nameless profile does nothing. Otherwise the button is busy during the request and released afterwards. Exactly a success calls the completion callback; a failure shows its text. |
| LoginProfileSetup.RandomNicknameRound | Group/Presentation/LoginScene/ViewModel/ProfileSetupViewReactor.swift:177-189 | As written, loading is on during the fetch. A success records the name and switches loading off. A failure changes nothing else and leaves loading on, with no error text. |
| LoginProfileSetup.RandomNicknameRoundCorrected | Group/Presentation/LoginScene/ViewModel/ProfileSetupViewReactor.swift:177-189 | With the failure caught, loading is on during the fetch and off afterwards, and the name or the failure's text is recorded. |
| LoginProfileSetup.NicknameFailureLeavesLoadingOn | Group/Presentation/LoginScene/ViewModel/ProfileSetupViewReactor.swift:177-189 | As written, a failed fetch leaves the state changed only in that loading is on, with no error text. The caught version ends with loading off. |
| LoginProfileSetup.NicknameSuccessUnaffected | Group/Presentation/LoginScene/ViewModel/ProfileSetupViewReactor.swift:177-189 | The caught version and the version as written agree exactly when the fetch succeeds. |
| ProfileFormReactor.Mutate | Group/Presentation/ViewControllers/ProfileSetup/ProfileSetup/ProfileSetupViewReactor.swift:85-96 | Nothing happens while loading. Otherwise only a submission without a name yields no mutation. Every request is `setLoading(true)`, its result, `setLoading(false)`. |
| ProfileFormReactor.Reduce | Group/Presentation/ViewControllers/ProfileSetup/ProfileSetup/ProfileSetupViewReactor.swift:98-117 | Each mutation changes exactly its own field. A made profile marks the setup as completed and calls the completion once. |
| ProfileFormReactor.ReduceAllAppend | Group/Presentation/ViewControllers/ProfileSetup/ProfileSetup/ProfileSetupViewReactor.swift:98-117 | Reducing a concatenation of mutations equals reducing the first part, then the second. |
| ProfileFormReactor.ReduceWrapped | Group/Presentation/ViewControllers/ProfileSetup/ProfileSetup/ProfileSetupViewReactor.swift:170-221 | Gives the states after the first, the second and the last mutation of a wrapped request. |
| ProfileFormReactor.RequestRound | Group/Presentation/ViewControllers/ProfileSetup/ProfileSetup/ProfileSetupViewReactor.swift:170-221 | Every request keeps the reactor loading while it is in flight and not loading afterwards. The final state is given exactly for each action and each reply. |
| ProfileFormReactor.BusyDropsActions | Group/Presentation/ViewControllers/ProfileSetup/ProfileSetup/ProfileSetupViewReactor.swift:85-86 | While a request is in flight, every action yields no mutation: after loading is switched on, and still after the reply unless the reply is itself a loading switch, which no request yields. |
| Schedules.EarlierIsStrictOrder | Group/Presentation/MainScene/SubScene/HomeScene/ViewModel/HomeViewReactor.swift:65-69 | The sort comparator is irreflexive, asymmetric and transitive. A schedule without a date is neither less nor greater than any other. |
| Schedules.Insert | Group/Presentation/MainScene/SubScene/HomeScene/ViewModel/HomeViewReactor.swift:65-69 | Insertion adds exactly the one schedule. |
| Schedules.InsertSorted | Group/Presentation/MainScene/SubScene/HomeScene/ViewModel/HomeViewReactor.swift:65-69 | Inserting a dated schedule into a sorted dated list keeps it sorted. |
| Schedules.SortSchedulesSorted | Group/Presentation/MainScene/SubScene/HomeScene/ViewModel/HomeViewReactor.swift:65-69 | The sorted list is a permutation of the fetched one. When every schedule has a date, it is in ascending date order. |
| Schedules.SortedLastIsLatest | Group/Presentation/MainScene/SubScene/HomeScene/ViewModel/HomeViewReactor.swift:110-112 | The last schedule of the sorted non-empty dated list is dated, and no fetched schedule is later. |
| GroupHome.Mutate | Group/Presentation/MainScene/SubScene/HomeScene/ViewModel/HomeViewReactor.swift:46-57 | Only opening the calendar hands a date to the view. Logging out and the permission request yield nothing. A fetch yields a mutation exactly when it succeeds. |
| GroupHome.PresentNextEvent | Group/Presentation/MainScene/SubScene/HomeScene/ViewModel/HomeViewReactor.swift:110-116 | Nothing happens when there is no schedule or the last one has no date. Otherwise the start of the last schedule's day is handed over and completion is reported. |
| GroupHome.Reduce | Group/Presentation/MainScene/SubScene/HomeScene/ViewModel/HomeViewReactor.swift:59-74 | A fetch stores a permutation of the fetched schedules, sorted by date when all are dated. Completion sets only the pulsed flag. |
| GroupHome.FetchThenPresentShowsLatestDay | Group/Presentation/MainScene/SubScene/HomeScene/ViewModel/HomeViewReactor.swift:59-116 | After a fetch of dated schedules, opening the calendar presents the start of the day of a latest fetched schedule. |
| MopleHome.Mutate | Mople/Presentation/MainScene/Tabs/Home/HomeViewReactor.swift:47-58 | Creating a group presents the creation view without a completion handler. The permission request yields nothing. A fetch yields a mutation exactly when it succeeds. |
| MopleHome.PresentNextEvent | Mople/Presentation/MainScene/Tabs/Home/HomeViewReactor.swift:109-114 | Nothing happens without a dated last schedule. Otherwise one presentation of the calendar at the start of that schedule's day. |
| MopleHome.Reduce | Mople/Presentation/MainScene/Tabs/Home/HomeViewReactor.swift:60-73 | A fetch stores a sorted permutation and calls nothing. The two presentation mutations leave the state alone and call the matching view action. |
| MopleHome.FetchThenOpenCalendarShowsLatestDay | Mople/Presentation/MainScene/Tabs/Home/HomeViewReactor.swift:60-114 | After a fetch of dated schedules, opening the calendar shows it at the start of the day of a latest fetched schedule, and the state is unchanged. |
| GroupCreate.TitleValidCheck | Mople/Presentation/ViewControllers/GroupCreate/GroupCreateViewReactor.swift:89-98 | The title is valid exactly when the validator answers success. The validator's text comes along either way. |
| GroupCreate.Mutate | Mople/Presentation/ViewControllers/GroupCreate/GroupCreateViewReactor.swift:42-87 | Through `CreateGroupMutations`. A rejected title only shows the validator's text. An accepted one is loading on, then the group or the failure text, then loading off. |
| GroupCreate.Reduce | Mople/Presentation/ViewControllers/GroupCreate/GroupCreateViewReactor.swift:49-63 | A made group calls the completion once. A message or a loading flag replaces its field and nothing else. |
| GroupCreate.ReduceAllAppend | Mople/Presentation/ViewControllers/GroupCreate/GroupCreateViewReactor.swift:49-63 | Reducing a concatenation equals reducing the first part, then the second. |
| GroupCreate.SubmissionRound | Mople/Presentation/ViewControllers/GroupCreate/GroupCreateViewReactor.swift:66-87 | A rejected title changes only the message. An accepted one is loading while in flight and not afterwards. A success calls the completion once and keeps the message; a failure shows "오류 발생". |
| CalendarView.PageOf | Group/Presentation/MainScene/SubScene/CalendarScene/View/CalendarViewController/CalendarView/CalendarViewController.swift:363-366 | The page showing a day is a valid page start: in month scope the 1st of its month, in week scope the Sunday of its week, within the six days before it. |
| CalendarView.PageOfShowsDay | Group/Presentation/MainScene/SubScene/CalendarScene/View/CalendarViewController/CalendarView/CalendarViewController.swift:363-366 | A day's page shows that day, and a page is its own page. |
| CalendarView.Anchor | Group/Presentation/MainScene/SubScene/CalendarScene/View/CalendarViewController/CalendarView/CalendarViewController.swift:290-305 | The day kept in view on a scope change is shown by the old page. It is the selected day exactly when one is selected and the old page shows it, and the old page's first day otherwise. |
| CalendarView.CellFlagsMeaning | Group/Presentation/MainScene/SubScene/CalendarScene/View/CalendarViewController/CalendarView/CalendarViewController.swift:201-207 | About `ContainsEvent`, `IsToday` and `IsSelected`. A cell gets the event dot exactly when some event's components name its day. It is today exactly on the day today's components name, and selected exactly on the selected day. Incomplete components mark no day. |
| CalendarView.TodayIsOneDay | Group/Presentation/MainScene/SubScene/CalendarScene/View/CalendarViewController/CalendarView/CalendarViewController.swift:355-358 | At most one day passes `checkToday`. |
| CalendarView.MonthDays | Group/Presentation/MainScene/SubScene/CalendarScene/View/CalendarViewController/CalendarView/CalendarViewController.swift:407-413 | Holds exactly the days of the month from the given day to its end, as components. |
| CalendarView.ActiveDates | Group/Presentation/MainScene/SubScene/CalendarScene/View/CalendarViewController/CalendarView/CalendarViewController.swift:407-413 | A valid day is among the page's active dates exactly when it lies in the page's month. Every active date names a real day. |
| CalendarView.EventsOnPage | Group/Presentation/MainScene/SubScene/CalendarScene/View/CalendarViewController/CalendarView/CalendarViewController.swift:423-431 | The filter keeps exactly the events that are active dates. |
| CalendarView.FirstEventOnPage | Group/Presentation/MainScene/SubScene/CalendarScene/View/CalendarViewController/CalendarView/CalendarViewController.swift:423-432 | A result is an event that is on the page. |
| CalendarView.FirstEventOnPageIsFirst | Group/Presentation/MainScene/SubScene/CalendarScene/View/CalendarViewController/CalendarView/CalendarViewController.swift:423-432 | There is no result exactly when no event is on the page. Otherwise the result is the earliest event in list order that is on the page. |
| CalendarView.CollapseFocus | Group/Presentation/MainScene/SubScene/CalendarScene/View/CalendarViewController/CalendarView/CalendarViewController.swift:308-317 | After a button tap the focus is the first event on the page, or the page's first day when the page has none; it always lies in the page's month. After a cell tap the focus is the selected day, and there is none when nothing is selected. |
| CalendarView.MinimumDate | Group/Presentation/MainScene/SubScene/CalendarScene/View/CalendarViewController/CalendarView/CalendarViewController.swift:213-219 | With a known year, the result is January 1 ten years back, and a day is not before it exactly when its year is at least that year. Without a year, the result is ten years before now. |
| CalendarView.MaximumDate | Group/Presentation/MainScene/SubScene/CalendarScene/View/CalendarViewController/CalendarView/CalendarViewController.swift:221-227 | With a known year, the result is December 31 ten years ahead, and a day is not after it exactly when its year is at most that year. Without a year, the result is ten years after now. |
| CalendarView.ToFocus | Group/Presentation/MainScene/SubScene/CalendarScene/View/CalendarViewController/CalendarView/CalendarViewController.swift:308-317 | A focus request is sent exactly when there is a focus day, and it asks for that day. |
| CalendarView.CalendarController.UpdateEvents | Group/Presentation/MainScene/SubScene/CalendarScene/View/CalendarViewController/CalendarView/CalendarViewController.swift:324-327 | The event list is replaced, not merged, and the calendar reloads. A valid day then shows the dot exactly when a new event names it. |
| CalendarView.CalendarController.CurrentPageDidChange | Group/Presentation/MainScene/SubScene/CalendarScene/View/CalendarViewController/CalendarView/CalendarViewController.swift:229-232 | The new page's components are reported, and nothing else changes. |
| CalendarView.CalendarController.BoundingRectWillChange | Group/Presentation/MainScene/SubScene/CalendarScene/View/CalendarViewController/CalendarView/CalendarViewController.swift:243-249 | The scope is reported, then the height: six rows of 60 in month scope, the bounds' height in week scope. |
| CalendarView.CalendarController.DidSelect | Group/Presentation/MainScene/SubScene/CalendarScene/View/CalendarViewController/CalendarView/CalendarViewController.swift:234-237 | The tapped day is selected. In week scope it is reported as the selection. In month scope a day of the page's month asks to collapse onto it, and a neighbouring month's day moves the page to that month. |
| CalendarView.CalendarController.UpdateFocus | Group/Presentation/MainScene/SubScene/CalendarScene/View/CalendarViewController/CalendarView/CalendarViewController.swift:255-264 | Month scope goes through `changeMonth`. Week scope reports the day as the selection. |
| CalendarView.CalendarController.ChangeMonth | Group/Presentation/MainScene/SubScene/CalendarScene/View/CalendarViewController/CalendarView/CalendarViewController.swift:266-277 | Nothing happens outside month scope. A current-month day asks to collapse. A neighbouring month's day moves the page to it. |
| CalendarView.CalendarController.NotifySelectedDate | Group/Presentation/MainScene/SubScene/CalendarScene/View/CalendarViewController/CalendarView/CalendarViewController.swift:280-283 | The day's components are reported as the selection, and nothing else changes. |
| CalendarView.CalendarController.SwitchScopePulse | Group/Presentation/MainScene/SubScene/CalendarScene/View/CalendarViewController/CalendarView/CalendarViewController.swift:154-160 | In month scope, asks to collapse onto the button-tap focus day. In week scope, expands to the month of the day kept in view and reports that page. |
| CalendarView.CalendarController.SwitchScope | Group/Presentation/MainScene/SubScene/CalendarScene/View/CalendarViewController/CalendarView/CalendarViewController.swift:290-299 | Month scope asks for the collapse focus. Week scope expands to the month and reports the new page. |
| CalendarView.CalendarController.UpdateWhenWeekScope | Group/Presentation/MainScene/SubScene/CalendarScene/View/CalendarViewController/CalendarView/CalendarViewController.swift:302-305 | The scope becomes month, on the page of the day kept in view, and that page is reported. |
| CalendarView.CalendarController.UpdateWhenMonthScope | Group/Presentation/MainScene/SubScene/CalendarScene/View/CalendarViewController/CalendarView/CalendarViewController.swift:308-317 | Asks to focus on the collapse focus day when there is one. Otherwise nothing happens. |
| CalendarView.CalendarController.FocusDateInWeekPulse | Group/Presentation/MainScene/SubScene/CalendarScene/View/CalendarViewController/CalendarView/CalendarViewController.swift:188-195 | The day is reported as the selection. When it is a real day it is selected, the scope is week, and a day on the old month page is shown on its own week. |
| CalendarView.CalendarController.MoveToFocusDate | Group/Presentation/MainScene/SubScene/CalendarScene/View/CalendarViewController/CalendarView/CalendarViewController.swift:382-386 | A day that cannot be built is ignored. Otherwise it is selected and the calendar collapses to the week that keeps it in view. |
| CalendarView.CalendarController.MoveToPage | Group/Presentation/MainScene/SubScene/CalendarScene/View/CalendarViewController/CalendarView/CalendarViewController.swift:363-366 | A day that cannot be built is ignored. Otherwise the page becomes the one showing it. |
| CalendarView.CalendarController.MoveToCurrentDate | Group/Presentation/MainScene/SubScene/CalendarScene/View/CalendarViewController/CalendarView/CalendarViewController.swift:368-380 | The new day is selected. Within one week the calendar only reloads. Across weeks it moves to the page that shows the new day. |
| CalendarCell.IndicatorFor | Group/Presentation/MainScene/SubScene/CalendarScene/View/CalendarViewController/CalendarView/Cell/CustomCalendarCell.swift:92-98 | The selection tint exactly when selected. The today grey exactly on an unselected today. Clear exactly otherwise. |
| CalendarCell.DayCell.Draw | Group/Presentation/MainScene/SubScene/CalendarScene/View/CalendarViewController/CalendarView/Cell/CustomCalendarCell.swift:42-50 | The first draw makes each view round (radius half its height). Every later draw changes nothing. |
| CalendarCell.DayCell.UpdateCell | Group/Presentation/MainScene/SubScene/CalendarScene/View/CalendarViewController/CalendarView/Cell/CustomCalendarCell.swift:80-86 | The dot is hidden exactly without an event, and the background follows `IndicatorFor`. |
| CalendarCell.DayCell.SetEvent | Group/Presentation/MainScene/SubScene/CalendarScene/View/CalendarViewController/CalendarView/Cell/CustomCalendarCell.swift:88-90 | The dot is hidden exactly without an event. |
| CalendarCell.DayCell.SetBackGroundColor | Group/Presentation/MainScene/SubScene/CalendarScene/View/CalendarViewController/CalendarView/Cell/CustomCalendarCell.swift:92-98 | The background follows `IndicatorFor`. |
| CalendarCell.DrawnCellColours | Group/Presentation/MainScene/SubScene/CalendarScene/View/CalendarViewController/CalendarView/CalendarViewController.swift:201-207 | A drawn cell is tinted exactly on the selected day, grey exactly on an unselected today, and dotted exactly on event days. No two days share the tint or the grey. |
| CalendarSchedule.ShouldAllowScopeChange | Group/Presentation/MainScene/SubScene/CalendarScene/View/CalendarScheduleView/CalendarScheduleViewController.swift:293-302 | Without a scope, no. In month scope, exactly an upward pan. In week scope, exactly a downward pan. |
| CalendarSchedule.GestureShouldBegin | Group/Presentation/MainScene/SubScene/CalendarScene/View/CalendarScheduleView/CalendarScheduleViewController.swift:281-290 | A pan begins exactly when it is upward on a month, or downward on a week with the list scrolled to its top. |
| CalendarSchedule.HeaderHeight | Group/Presentation/MainScene/SubScene/CalendarScene/View/CalendarScheduleView/CalendarScheduleViewController.swift:342-348 | The header is 56 high exactly in month scope, and 0 exactly in week scope. |
| CalendarSchedule.HeaderLabelFor | Group/Presentation/MainScene/SubScene/CalendarScene/View/CalendarScheduleView/CalendarScheduleViewController.swift:372-377 | The header shows the page's year and month, with 2024 and 1 standing in for missing parts. |
| CalendarSchedule.Requests | Group/Presentation/MainScene/SubScene/CalendarScene/View/CalendarScheduleView/CalendarScheduleViewController.swift:251-256 | A stored date is requested once. "Nothing" requests nothing. |
| CalendarSchedule.PresentRequests | Group/Presentation/MainScene/SubScene/CalendarScene/View/CalendarScheduleView/CalendarScheduleViewController.swift:389-393 | Nothing is requested while loading or with no stored date. Otherwise the stored date is requested once. |
| CalendarSchedule.ResetAsWritten | Group/Presentation/MainScene/SubScene/CalendarScene/View/CalendarScheduleView/CalendarScheduleViewController.swift:395-398 | As written, the stored date is always left as it was. |
| CalendarSchedule.ResetCorrected | Group/Presentation/MainScene/SubScene/CalendarScene/View/CalendarScheduleView/CalendarScheduleViewController.swift:395-398 | Corrected, no date is stored afterwards. |
| CalendarSchedule.StaleDateRequestedAgain | Group/Presentation/MainScene/SubScene/CalendarScene/View/CalendarScheduleView/CalendarScheduleViewController.swift:389-398 | As written, a handed-over date is requested again after leaving the screen and finishing a load. Corrected, nothing is requested. |
| CalendarSchedule.ScheduleScreen.constructor | Group/Presentation/MainScene/SubScene/CalendarScene/View/CalendarScheduleView/CalendarScheduleViewController.swift:120-137 | The calendar button is shown and the close button hidden. The header has full height and today's label. No date is stored. |
| CalendarSchedule.ScheduleScreen.UpdateMainView | Group/Presentation/MainScene/SubScene/CalendarScene/View/CalendarScheduleView/CalendarScheduleViewController.swift:332-370 | The header height, the two buttons and the list follow the scope. Exactly one of the two buttons is visible. |
| CalendarSchedule.ScheduleScreen.SetHeaderLabel | Group/Presentation/MainScene/SubScene/CalendarScene/View/CalendarScheduleView/CalendarScheduleViewController.swift:372-377 | The header shows the new page's year and month. Nothing else changes. |
| CalendarSchedule.ScheduleScreen.Accept | Group/Presentation/MainScene/SubScene/CalendarScene/View/CalendarScheduleView/CalendarScheduleViewController.swift:251-256 | The relay holds the value, and a non-nil value is requested once. |
| CalendarSchedule.ScheduleScreen.PresentNextEvent | Group/Presentation/MainScene/SubScene/CalendarScene/View/CalendarScheduleView/CalendarScheduleViewController.swift:384-386 | The handed-over date is stored and requested once. |
| CalendarSchedule.ScheduleScreen.CheckIsPresent | Group/Presentation/MainScene/SubScene/CalendarScene/View/CalendarScheduleView/CalendarScheduleViewController.swift:389-393 | The stored date is requested again exactly when loading is over and a date is stored. |
| CalendarSchedule.ScheduleScreen.ResetPresentDate | Group/Presentation/MainScene/SubScene/CalendarScene/View/CalendarScheduleView/CalendarScheduleViewController.swift:395-398 | As written, the guard returns whenever a date is stored, so the stored date is kept (`ResetAsWritten`) and nothing is requested. |
| CalendarSchedule.ScheduleScreen.ResetPresentDateCorrected | Group/Presentation/MainScene/SubScene/CalendarScene/View/CalendarScheduleView/CalendarScheduleViewController.swift:395-398 | With the guard inverted, the stored date is cleared (`ResetCorrected`) and nothing is requested. |
| CalendarSchedule.ScheduleScreen.ViewWillDisappear | Group/Presentation/MainScene/SubScene/CalendarScene/View/CalendarScheduleView/CalendarScheduleViewController.swift:106-110 | As written, leaving the screen keeps the stored date and requests nothing; every other field is unchanged. |
| ProfileForm.Replaced | Group/CommonUI/ViewController/BaseProfileViewController.swift:360 | The replaced text keeps the prefix and the suffix and puts the replacement between them. |
| ProfileForm.ShouldChangeCharacters | Group/CommonUI/ViewController/BaseProfileViewController.swift:357-362 | A field without text accepts any edit. Otherwise an edit is accepted exactly when the new text has at most ten characters, so a shrinking edit of a valid field is never refused. |
| ProfileForm.CompletionEnabled | Group/CommonUI/ViewController/BaseProfileViewController.swift:266-271 | A known validity decides. While it is unknown, the button is enabled exactly when the name is unchanged. |
| ProfileForm.ProfileFormView.IsChangedName | Group/CommonUI/ViewController/BaseProfileViewController.swift:400-402 | The name counts as changed exactly when the field differs from the edited profile's name; with no profile, exactly when the field has text. |
| ProfileForm.ProfileFormView.constructor | Group/CommonUI/ViewController/BaseProfileViewController.swift:262-271 | The completion button starts enabled exactly when the field's text is nil; a field holding "" differs from a missing profile name and starts disabled. No validity is known and nothing is sent. |
| ProfileForm.ProfileFormView.SetEditProfile | Group/CommonUI/ViewController/BaseProfileViewController.swift:373-377 | The profile is remembered and its name shown, so the name is unchanged. No observer is touched. |
| ProfileForm.ProfileFormView.EmitValidName | Group/CommonUI/ViewController/BaseProfileViewController.swift:266-281 | The completion button follows `CompletionEnabled`. A known validity disables the check button and shows the overlap. |
| ProfileForm.ProfileFormView.NameOverlapPulse | Group/CommonUI/ViewController/BaseProfileViewController.swift:238-243 | An overlap makes the name invalid exactly when it holds. The completion button is enabled exactly without an overlap, and the check button is off. |
| ProfileForm.ProfileFormView.RandomNamePulse | Group/CommonUI/ViewController/BaseProfileViewController.swift:229-236 | The suggested name is put in the field, and the check button is enabled. |
| ProfileForm.ProfileFormView.ImageChanged | Group/CommonUI/ViewController/BaseProfileViewController.swift:263-271 | An image is held, and the completion rule is evaluated again. |
| ProfileForm.ProfileFormView.Type | Group/CommonUI/ViewController/BaseProfileViewController.swift:357-362 | A refused edit leaves the text alone. An accepted one applies the replacement. A field within ten characters stays within ten. |
| ProfileForm.ProfileFormView.EditingChanged | Group/CommonUI/ViewController/BaseProfileViewController.swift:293-331 | On create, the check button is enabled, the validity becomes unknown and the label hidden. On edit of a named profile, the check button is enabled exactly when the name changed, and exactly one of the two buttons is enabled. |
| ProfileForm.ProfileFormView.DuplicateTapped | Group/CommonUI/ViewController/BaseProfileViewController.swift:215-220 | The field's text is sent for checking exactly when the validator accepts it and there is text. |
| ProfileForm.ProfileFormView.CompletionTapped | Group/CommonUI/ViewController/BaseProfileViewController.swift:222-225 | The field's text and the image are sent as the profile. |

## Left out

- `DateManager` is not part of this model. Its conversions are modelled as the Gregorian calendar with Sunday-first weeks:
  - `convertDate`, `toDateComponents`, `getDaysCountInCurrentMonth`, `isSameWeek`, `startOfDay`;
  - `numberOfMonthBetween`, modelled as the difference in calendar months.
  Time zones and other calendars are not modelled.
- FSCalendar is reduced to a scope, a current page, one selected day and a reload counter. On a scope change the page is re-anchored on the selected day when the old page shows it, otherwise on the old page's first day (`CalendarView.Anchor`). The page is not clamped to `minimumDate`/`maximumDate`. Delegate callbacks are separate methods that the caller invokes after the calendar's own change.
- `CalendarView.ActiveDates` covers month scope only. The collapse focus is asked for in month scope, and week pages are never searched for events.
- CalendarView.CalendarController.DidSelect: the repaint of visible cells through `updateCell(_:isSelected:)`, and `calendar(_:didDeselect:at:)`, are not modelled.
- `scrollToPage(direction:)` is left out: nothing in the modelled code calls it.
- The calendar's reactor (`CalendarViewReactor`) is not part of this model. The round trip from a `FocusDateInWeek` emission back to the `focusDateInWeekView` pulse is left to the caller.
- RxSwift scheduling is left out: `debounce`, `observe(on:)`, `share`, animations and the main scheduler. Every relay emission is applied at once and in order. The five relays of the calendar are one emission log.
- Floating point:
  - a pan's velocity is an integer, since only its sign is read;
  - the calendar's bounds height is an integer;
  - corner radii are reals.
- The nickname and group-title validators are not part of this model. Their verdicts are parameters.
- The reactor bound to `BaseProfileViewController` is not part of this model. Its actions are logged as `ProfileForm.FormRequest`.
- Images are a flag (present or not). JPEG compression, base64 encoding and the default image data are left out. The UTF-8 decoding of the random nickname is folded into the reply (`None` for bytes that are not UTF-8).
- Text lengths count `Character`s as a sequence of Dafny characters. Grapheme clustering and UTF-16 ranges (`NSRange`) are not modelled.
- The header label is the pair (year, month), not the formatted text.
- The notification-permission request, the log-out test action and the completion closures only have side effects. The closures are counted (`completions`), and the rest are no-ops.
- Pulsed fields that no modelled code writes are left out: `buttonLoading` of the form reactor, and `nameTextField.isResign`.
- Schedules.SortSchedulesSorted: Swift's `sorted(by:)` is modelled by an insertion sort. Only what Swift guarantees is stated about it: a permutation, sorted by date when all schedules are dated.
- MopleHome.Reduce: `SimpleSchedule`'s `<` is not part of this model. It is assumed to compare dates as the `Group` comparator does.
- DatePicker.DynamicDatePicker.constructor: `today` is a complete, valid date. The source's fallbacks for a missing year or month (2025 and 1) are therefore never taken.
- DatePicker.FutureChecked: `DateManager.toDate` is taken to be strict, so a day the month lacks (31 February) yields no date and today is compared instead. Foundation's lenient `Calendar.date(from:)` would roll such a day into the next month. Under that reading, the check can call a past month later and days before today can be offered. `DateManager` is not part of this model, so this is not decided here.
- DatePicker.DynamicDatePicker.DidSelectRow: every turn from a shown selection is modelled exactly. Consistent wheels (`WheelOk`) and a month turn that selects no past day are promised only for wheels the picker built itself. `setSelectedDate(on:)` re-selects on the wheels as they are, and after it has put today's year on a twelve-month wheel, a month turn can select a past day (`DatePicker.MonthMovedSelectsPastDay`).
- DatePicker.YearMovedResult: for a day the new year lacks, the selected date is stated exactly but is not proved to exist, since that would need facts about which states a user can reach. The other two cases state that it exists.
- CalendarSchedule.ScheduleScreen.constructor: the schedule list is assumed visible at first.
- GroupCreate.Mutate: the title validator, `GroupTitleValidator.validator` (Mople/Presentation/ViewControllers/GroupCreate/GroupCreateViewReactor.swift:90), is not part of this model. It is assumed to reject a nil title, so an accepted title is required to be present. The force-unwrap `title!` at GroupCreateViewReactor.swift:77 would crash the app on a nil title the validator accepted, and the model does not capture that crash.
- ProfileForm.ProfileFormView.constructor: the initial state of the check button and of the check label is a parameter. The completion button starts enabled only for a nil text, so a field that already holds "", as a fresh text field does, starts disabled.
- ReactorKit discards a mutation stream that fails. A failure that is not caught ends the sequence after the mutations emitted before it; a failed home fetch, for example, yields no mutation.

## Findings

The classes and reactors follow the code as written. Each corrected member stands beside them and is proved to have the intended property: the corrected picker check, `DatePicker.FutureCheckedByMonth`, through the month cascade built on it, `DatePicker.MonthCascadeCorrected`.

| source | as written | input that shows it | evidently intended | confidence | as-written member | corrected member |
|---|---|---|---|---|---|---|
| Group/Presentation/MainScene/SubScene/CalendarScene/View/CalendarScheduleView/CalendarScheduleViewController.swift:395-398 | `resetPresentDate` returns early unless the relay already holds `nil`, and only then stores `nil`. A stored date is never cleared. | The home screen hands over a date, the user leaves the calendar (`viewWillDisappear`), and a later load finishes: `checkIsPresent(false)` requests the stale date again. | Leaving the screen clears the stored date, so it is requested only once. | not executed | CalendarSchedule.ResetAsWritten | CalendarSchedule.ResetCorrected |
| Group/Presentation/LoginScene/ViewModel/ProfileSetupViewReactor.swift:177-189 | `getRandomNickname` has no `catch`, unlike `overlapCheck` and `makeProfile`. A failed fetch ends the concatenation after `setLoading(true)`. | The nickname use case fails: `isLoading` stays `true`, and no error message is set. | The failure is caught like the other two requests: its text is shown and loading is switched off. | not executed | LoginProfileSetup.NicknameFailureLeavesLoadingOn | LoginProfileSetup.RandomNicknameRoundCorrected |
| Mople/CommonUI/Picker/DynamicDatePickerView.swift:128-149 | `isValidFutureDate` converts the whole selected date with `toDate` and falls back to today. A day the chosen month lacks therefore counts as this month, even when the month is later. `updateDay` then removes the days before today's day from that later month. | Today 2026-10-31, 2027-01-31 selected, month wheel turned to February: 2027-02-31 does not exist, the check answers "not later", and the days 1 to 28 are all removed, leaving an empty day wheel and no selected day. With today 2026-10-19 the same turn offers only 19 to 28 February 2027. | The check is "by month", as its comment says: a later month offers all its days. | not executed | DatePicker.MonthMovedEmptiesDayWheel | DatePicker.MonthCascadeCorrectedResult |
