# GA Team Hub — a verified model of the dashboard's logic

GA Team Hub (OrderFlow) is a React single-page dashboard for a shop's staff. Administrators see:

- every order, searchable and filtered by status tab, with status changes that stamp the order's timeline;
- a team page with staff cards and an add-member form;
- attendance and completion statistics;
- a delay report;
- a knowledge base and tutorials;
- API integrations that can be switched on and off.

Team members see their department's orders with a countdown timer per task, and the knowledge base filtered by their sections. A small script for the server-rendered pages reads cookies.

This project models in Dafny the logic behind those screens and proves what each screen promises. It covers:

- searches and filters;
- status transitions and timeline stamps;
- the countdown and overtime timer;
- lateness and delay arithmetic;
- the per-employee delay report with its sort;
- text formatting;
- form guards and resets;
- in-place list updates;
- the fixture data the pages start from.

One Dafny module models each source file.

- **Pure logic becomes functions.** This covers filters, renders and derived values, each with lemmas that relate it to an independent reference definition, an inverse, or an invariant.
- **Components become classes.** A component that keeps React state becomes a `class` whose fields are its state variables. Each handler is a `method` with a `modifies` clause, specified by the pure functions.
- **Values from outside are parameters.** The clock (`nowMs`), random draws, `URL.createObjectURL` results, `new URL` validity, `decodeURIComponent` and date formatting are all passed in.

Timestamps are integers: milliseconds, or minutes where the source counts minutes. JavaScript's `Number` and `parseInt`, `%`, `Math.round`, `||` defaults, `===`, `splice`, `trim` and string `<` are written out at the precision the rules need. Rates and averages are exact reals rather than IEEE doubles, so a ratio that lies exactly half-way rounds up here where a double may round it down; "## Left out" names the member this affects.

The modules:

- `Common`: strings, sequences, numbers.
- `Types`: the records of `src/types/index.ts`.
- `MockData`: `src/data/mockData.ts`.
- One module per component or page: `TaskTimer`, `PerformanceStats`, `AttendanceModal`, `OrderCard`, `OrdersDashboard`, `MyTasks`, `TrackDialog`, `PerformanceReport`, `DataTable`, `KnowledgeBase`, `TeamKnowledgeBase`, `TutorialsDashboard`, `CreateGuideDialog`, `SectionManager`, `StaffCard`, `TeamManagement`, `DeveloperDashboard`.
- `MainJs`: `static/js/main.js`.

Two behaviours follow the code rather than the product's description of it:

- A timer stopped by the end of a shift stays stopped when the shift resumes, until the user presses its toggle (src/components/countdown/TaskTimer.tsx:64-68).
- A task started exactly its allowance ago is not in overtime as written; see Findings.

## Model

| member | source | states |
|---|---|---|
| Common.Trim | src/components/dashboard/OrderCard.tsx:123 | `String.prototype.trim`: the result is a piece of the text that neither starts nor ends with white space, and what lies before and after it is all white space |
| Common.BlankIffTrimmedEmpty | src/components/dashboard/OrderCard.tsx:123 | a text is all white space exactly when trimming it leaves nothing, so `!s.trim()` is IsBlank |
| Common.ToLower | src/pages/admin/OrdersDashboard.tsx:35 | `toLowerCase` keeps the length and lower-cases each character |
| Common.Contains | src/pages/admin/OrdersDashboard.tsx:35 | `includes`: a query that is found is no longer than the text; ContainsAt and OccursAtContains state that it is found exactly when it occurs at some index |
| Common.ContainsAt | src/pages/admin/OrdersDashboard.tsx:35 | a query that is found occurs at some index of the text |
| Common.OccursAtContains | src/pages/admin/OrdersDashboard.tsx:35 | a query that occurs at some index of the text is found |
| Common.ContainsLonger | src/pages/admin/OrdersDashboard.tsx:35 | a query longer than the text is never found |
| Common.NumberOf | src/pages/admin/PerformanceStats.tsx:39-42 | `Number` on a clock field: a blank field reads as 0 and a number read is never negative; NumberOfDigits states that digits read as their value |
| Common.NumberOfDigits | src/pages/admin/PerformanceStats.tsx:39-42 | a run of digits reads as its value |
| Common.ParseIntOrZero | src/components/dashboard/TrackDialog.tsx:134 | `parseInt(s) || 0`: blank text gives 0 and a negative result needs a leading minus; ParseIntOfPrinted and ParseIntNonNumeric state the round trip and the NaN case |
| Common.ParseIntOfPrinted | src/components/dashboard/TrackDialog.tsx:134 | parsing a printed whole number gives it back |
| Common.ParseIntNonNumeric | src/components/dashboard/TrackDialog.tsx:134 | a text with no digit after its white space and sign parses to 0 |
| TaskTimer.Initial | src/components/countdown/TaskTimer.tsx:17-20 | the state starts at the full allowance in seconds, not in overtime, with a zero overtime counter, running exactly when a start time exists and the task is inside the shift |
| TaskTimer.StartEffectAsWritten | src/components/countdown/TaskTimer.tsx:23-39 | the start effect as written (strict `>`): no start time changes nothing, and the running flag is never touched |
| TaskTimer.StartEffect | src/components/countdown/TaskTimer.tsx:23-39 | the start effect with the boundary corrected to `>=`; the same frame conditions |
| TaskTimer.MountAsWritten | src/components/countdown/TaskTimer.tsx:17-38 | the state after mounting: the initial state, then the start effect as written; its properties are MountWithoutStart, MountWithStart and MountAccounts |
| TaskTimer.Mount | src/components/countdown/TaskTimer.tsx:17-38 | the same with the corrected start effect; its properties are MountWithStartCorrected, MountAccountsCorrected and ExactAllowanceCorrected |
| TaskTimer.Step | src/components/countdown/TaskTimer.tsx:45-55 | a tick acts only when running and in shift; overtime is never cleared; the remaining time never grows and the overtime counter never shrinks; overtime is entered exactly on the tick from 1 second left |
| TaskTimer.ShiftEffect | src/components/countdown/TaskTimer.tsx:64-68 | leaving the shift clears the running flag and nothing else; inside the shift nothing changes; the effect never starts the timer |
| TaskTimer.Toggle | src/components/countdown/TaskTimer.tsx:94-95 | the button flips the running flag inside the shift and is inert outside it |
| TaskTimer.Run | src/components/countdown/TaskTimer.tsx:42-68 | a run of seconds, each the shift effect and then a tick; RunMonotone, PausedStaysFrozen and OutOfShiftSecond state what it keeps |
| TaskTimer.Ticks | src/components/countdown/TaskTimer.tsx:42-55 | n in-shift ticks; TicksAccount, CountdownThenOvertime and OvertimeTicks state what they do |
| TaskTimer.MountWithoutStart | src/components/countdown/TaskTimer.tsx:17-24 | without a start time the mounted timer is idle at the full allowance |
| TaskTimer.MountWithStart | src/components/countdown/TaskTimer.tsx:17-38 | with a start time the timer runs exactly when in shift; elapsed time strictly past the allowance is overtime counted back to the allowance; otherwise the rest of the allowance remains, unclamped, so a future start leaves more than the allowance and a start exactly one allowance ago rests at zero outside overtime |
| TaskTimer.MountAccounts | src/components/countdown/TaskTimer.tsx:23-38 | right after mounting, the display agrees with the wall clock (remaining plus elapsed is the allowance, or the overtime counter is the time past it); it is live, never resting at zero outside overtime, exactly when the elapsed time is not the allowance itself |
| TaskTimer.MountWithStartCorrected | src/components/countdown/TaskTimer.tsx:29-38 | with the corrected `>=` boundary, elapsed time at or past the allowance is overtime and anything less leaves the rest of the allowance |
| TaskTimer.MountAccountsCorrected | src/components/countdown/TaskTimer.tsx:29-38 | with the corrected boundary the mounted timer agrees with the clock and is always live |
| TaskTimer.TicksAccount | src/components/countdown/TaskTimer.tsx:45-55 | every in-shift second keeps the display in step with the clock |
| TaskTimer.CountdownThenOvertime | src/components/countdown/TaskTimer.tsx:47-53 | counting down from r seconds, r + k ticks end in overtime with the counter raised by k |
| TaskTimer.OvertimeTicks | src/components/countdown/TaskTimer.tsx:52-53 | in overtime each tick adds exactly one second to the overtime counter |
| TaskTimer.RunMonotone | src/components/countdown/TaskTimer.tsx:35-68 | over any run of seconds and shift changes, overtime is one-way, the overtime counter never decreases, and a stopped timer never restarts by itself |
| TaskTimer.PausedStaysFrozen | src/components/countdown/TaskTimer.tsx:45-68 | a paused timer stays exactly as it is, even when the shift resumes |
| TaskTimer.OutOfShiftSecond | src/components/countdown/TaskTimer.tsx:45-68 | a second outside the shift only pauses the timer |
| TaskTimer.JsRem | src/components/countdown/TaskTimer.tsx:73-74 | JavaScript `%`: equal to Dafny's remainder on non-negative operands, and strictly between -b and b |
| TaskTimer.HmsParts | src/components/countdown/TaskTimer.tsx:72-74 | hours, minutes and seconds recombine to the original number, with minutes and seconds under 60 |
| TaskTimer.FormatTime | src/components/countdown/TaskTimer.tsx:71-77 | `formatTime`; FormatTimeFields, FormatTimeWidths, FormatTimeRoundTrip and FormatTimeInjective state its properties, the round trip through ClockSeconds being its inverse |
| TaskTimer.FormatTimeFields | src/components/countdown/TaskTimer.tsx:71-77 | the display is the three fields, each zero-padded to two digits, joined by colons |
| TaskTimer.FormatTimeWidths | src/components/countdown/TaskTimer.tsx:76 | the display is at least 8 characters, with colons third and sixth from the end, and hours are not capped |
| TaskTimer.FormatTimeRoundTrip | src/components/countdown/TaskTimer.tsx:71-77 | reading the display back as `h:mm:ss` gives the same number of seconds |
| TaskTimer.FormatTimeInjective | src/components/countdown/TaskTimer.tsx:71-77 | different numbers of seconds never share a display |
| TaskTimer.FormatTimeExamples | src/components/countdown/TaskTimer.tsx:71-77 | 0, 1, 1800 and 3661 seconds show as 00:00:00, 00:00:01, 00:30:00 and 01:01:01 |
| TaskTimer.ThirtyMinuteScenario | src/components/countdown/TaskTimer.tsx:17-55 | a 30-minute task started on mount, after 1801 in-shift seconds, shows overtime 00:00:01 |
| TaskTimer.ExactAllowanceStallsAsWritten | src/components/countdown/TaskTimer.tsx:32-54 | as written, a start exactly one allowance ago leaves the timer at 0 but not in overtime, and no number of ticks changes it |
| TaskTimer.ExactAllowanceCorrected | src/components/countdown/TaskTimer.tsx:32-35 | with `>=` the same start is overtime by 0 and counts up one per tick |
| TaskTimer.TaskTimer.constructor | src/components/countdown/TaskTimer.tsx:15-39 | the mounted widget's state is MountAsWritten, the source's strict boundary |
| TaskTimer.TaskTimer.StartTimeChanged | src/components/countdown/TaskTimer.tsx:23-39 | rerunning the start effect applies StartEffectAsWritten to the state |
| TaskTimer.TaskTimer.Tick | src/components/countdown/TaskTimer.tsx:42-61 | one interval firing applies Step |
| TaskTimer.TaskTimer.ShiftChanged | src/components/countdown/TaskTimer.tsx:64-68 | a shift change applies ShiftEffect |
| TaskTimer.TaskTimer.ToggleRunning | src/components/countdown/TaskTimer.tsx:91-95 | the button applies Toggle |
| TaskTimer.TaskTimer.Display | src/components/countdown/TaskTimer.tsx:88-122 | the label says overtime exactly in overtime, and the clock shows the overtime counter there and the remaining time otherwise |
| PerformanceStats.FindStaff | src/pages/admin/PerformanceStats.tsx:35 | the result is the first staff member with the id, or none when no member has it |
| PerformanceStats.FindStaffFirst | src/pages/admin/PerformanceStats.tsx:35 | when member k is the first with the id, `find` returns member k |
| PerformanceStats.HourMinute | src/pages/admin/PerformanceStats.tsx:39-42 | `split(":").map(Number)` keeping the first two fields; SecondsIgnored, HourMinuteOfClock and HourMinuteOfText state what it reads |
| PerformanceStats.IsLateAt | src/pages/admin/PerformanceStats.tsx:44-46 | the lateness rule on two clock texts; LatenessOfFields and LatenessOfClockTimes state it |
| PerformanceStats.DelayMinutes | src/pages/admin/PerformanceStats.tsx:48-51 | the minute delay on two clock texts; LatenessOfFields and DelayPositiveIffLate state it |
| PerformanceStats.AttendanceRowOf | src/pages/admin/PerformanceStats.tsx:35-59 | the row of one record; UnknownEmployeeDefaults and RowOfKnownEmployee state it |
| PerformanceStats.AttendanceData | src/pages/admin/PerformanceStats.tsx:34-60 | one row per record, in the records' order, each derived from its own record |
| PerformanceStats.UnknownEmployeeDefaults | src/pages/admin/PerformanceStats.tsx:38-55 | a record of an unknown employee is measured against 09:00, named "Unknown", and carried unchanged |
| PerformanceStats.SecondsIgnored | src/pages/admin/PerformanceStats.tsx:39-42 | appending seconds to a clock time does not change the hour and minute read |
| PerformanceStats.HourMinuteOfClock | src/pages/admin/PerformanceStats.tsx:39-42 | a zero-padded `HH:MM` time, with or without seconds, reads as its hour and minute |
| PerformanceStats.HourMinuteOfText | src/pages/admin/PerformanceStats.tsx:39-42 | any two colon-free fields that `Number` reads as h and m give (h, m), with or without seconds |
| PerformanceStats.LatenessOfFields | src/pages/admin/PerformanceStats.tsx:44-51 | late iff later by hour, or by minute in the same hour; the delay is 60·Δhour + Δminute when late and 0 otherwise |
| PerformanceStats.LatenessOfClockTimes | src/pages/admin/PerformanceStats.tsx:38-51 | on zero-padded clock times the rule compares the numbers shown, and seconds change neither lateness nor delay |
| PerformanceStats.DelayPositiveIffLate | src/pages/admin/PerformanceStats.tsx:44-51 | with minutes under 60 the delay is at least one minute exactly when the record is late |
| PerformanceStats.RowOfKnownEmployee | src/pages/admin/PerformanceStats.tsx:34-59 | a known employee's row carries their name and shift start, and its lateness and delay follow the hour-then-minute rule |
| PerformanceStats.AllowedTime | src/pages/admin/PerformanceStats.tsx:68 | a missing or zero allowance is 60 minutes; any other is kept |
| PerformanceStats.CompletionRowOf | src/pages/admin/PerformanceStats.tsx:68-82 | one completion row for a random draw; CompletionDelay states its delay and on-time flag |
| PerformanceStats.CompletionDelay | src/pages/admin/PerformanceStats.tsx:68-82 | the delay is actual minus allowed, it lies within half an hour of zero, and the row is on time iff the delay is at most 0 |
| PerformanceStats.FilterDataSpec | src/pages/admin/PerformanceStats.tsx:88-112 | the filter keeps an order-preserving sub-sequence: exactly the items whose day, month or instant passes the selection; range bounds are inclusive; a range without a start keeps everything |
| PerformanceStats.FilterData | src/pages/admin/PerformanceStats.tsx:88-112 | `filterData` by day, month or range; FilterDataSpec states it |
| AttendanceModal.OptionalText | src/components/modals/AttendanceModal.tsx:56-58 | `value || undefined`: absent exactly when the text is empty, the text itself otherwise |
| AttendanceModal.StrLess | src/components/modals/AttendanceModal.tsx:48 | JavaScript `<` on strings, character by character over Unicode scalar values (the same order as UTF-16 code units on the clock texts compared); Pad2Order and StringRuleIsNumericRule relate it to numbers |
| AttendanceModal.IsLate | src/components/modals/AttendanceModal.tsx:48 | the string rule for lateness; LateOverridesSelection, StringRuleIsNumericRule and SecondsMakeLate state it |
| AttendanceModal.NewRecord | src/components/modals/AttendanceModal.tsx:48-59 | the record has id `att-` + the instant, the staff member's id, the form's date and clock-in, absent empty clock-out and notes, and status Late when late, the selection otherwise |
| AttendanceModal.LateOverridesSelection | src/components/modals/AttendanceModal.tsx:48-57 | the stored status is Late exactly when the entry is late or Late was selected, so lateness overrides even Absent; only an employee is ever marked late |
| AttendanceModal.StringRuleIsNumericRule | src/components/modals/AttendanceModal.tsx:48 | on zero-padded `HH:MM` times the string comparison `clockIn > shiftStart` is the hour-then-minute rule of src/pages/admin/PerformanceStats.tsx:44-46 |
| AttendanceModal.SecondsMakeLate | src/components/modals/AttendanceModal.tsx:48 | with seconds on the clock-in, clocking in at the shift's very minute is late by the string rule but not by the statistics page's rule |
| AttendanceModal.Pad2Order | src/components/modals/AttendanceModal.tsx:48 | two-digit paddings compare as strings like the numbers they show |
| AttendanceModal.AttendanceModal.constructor | src/components/modals/AttendanceModal.tsx:33-37 | the form starts at the current time, an empty clock-out and notes, Present and today's date |
| AttendanceModal.AttendanceModal.Submit | src/components/modals/AttendanceModal.tsx:40-72 | accepted iff clock-in and date are non-empty; a refusal changes nothing; an acceptance hands on exactly NewRecord, resets the form to its defaults and closes |
| AttendanceModal.AttendanceModal.Close | src/components/modals/AttendanceModal.tsx:75 | closing keeps the form and hands nothing on |
| OrderCard.OfferedTransitions | src/components/dashboard/OrderCard.tsx:420-479 | the card offers exactly pending to in progress or cancelled and in progress to completed or cancelled, and only when it has a status callback |
| OrderCard.Offered | src/components/dashboard/OrderCard.tsx:420-479 | the relation of status changes the card offers; OfferedTransitions, NothingOffered, DialogWithinMenu and OfferedMovesForward state it |
| OrderCard.NothingOffered | src/components/dashboard/OrderCard.tsx:421-461 | completed and cancelled orders, and cards without a callback, offer no status change |
| OrderCard.DialogWithinMenu | src/components/dashboard/OrderCard.tsx:420-479 | every dialog button is also a menu entry, and the menu's only extra is cancelling |
| OrderCard.OfferedMovesForward | src/components/dashboard/OrderCard.tsx:420-479 | no offered change goes back or stays put in the lifecycle |
| OrderCard.TimesUpIffNoTimeLeft | src/components/dashboard/OrderCard.tsx:159-160 | the remaining-time text is "Time's up!" exactly when no minute is left |
| OrderCard.FormatTimeRemaining | src/components/dashboard/OrderCard.tsx:159-164 | `formatTimeRemaining`; TimesUpIffNoTimeLeft, WithHours, MinutesOnly, HoursOrNot and FormatTimeRemainingInjective state it |
| OrderCard.FormatTimeRemainingInjective | src/components/dashboard/OrderCard.tsx:159-164 | different positive numbers of minutes never read the same |
| OrderCard.WithHours | src/components/dashboard/OrderCard.tsx:161-163 | from an hour on, the whole hours, "h ", the minutes left over and "m" |
| OrderCard.MinutesOnly | src/components/dashboard/OrderCard.tsx:161-163 | below an hour, the minutes followed by "m" alone |
| OrderCard.HoursOrNot | src/components/dashboard/OrderCard.tsx:161-163 | a time of an hour or more never reads like a time under an hour |
| OrderCard.WarningOnlyWithRow | src/components/dashboard/OrderCard.tsx:201-211 | the warning icon appears only in a shown remaining-time row of a pending or in-progress order, and every shown "Time's up!" carries it |
| OrderCard.OrderTotalConcat | src/components/dashboard/OrderCard.tsx:279-283 | the total of two item lists back to back is the sum of their totals |
| OrderCard.OrderTotal | src/components/dashboard/OrderCard.tsx:279-283 | the reduce of price times quantity; OrderTotalConcat, OrderTotalOne and OrderTotalNonNegative state it |
| OrderCard.OrderTotalOne | src/components/dashboard/OrderCard.tsx:281 | one item adds its price times its quantity |
| OrderCard.OrderTotalNonNegative | src/components/dashboard/OrderCard.tsx:279-283 | without negative prices or quantities the total is not negative |
| OrderCard.AttachmentKindOf | src/components/dashboard/OrderCard.tsx:138 | an attachment is an image exactly when its MIME type starts with `image/` |
| OrderCard.NewNote | src/components/dashboard/OrderCard.tsx:128-142 | the note's id is `note-` + the instant, it keeps the text, the instant and "Current User", and it has one attachment exactly when a file is selected, with the object URL and the file's kind |
| OrderCard.OrderCard.constructor | src/components/dashboard/OrderCard.tsx:55-67 | a new card has no notes, an empty note box, no file, a closed editor and no status requests |
| OrderCard.OrderCard.StatusChange | src/components/dashboard/OrderCard.tsx:114-119 | with a callback the change is handed on once, as the order's id and the status; without one nothing happens |
| OrderCard.OrderCard.EditNote | src/components/dashboard/OrderCard.tsx:328 | typing replaces the note text and nothing else |
| OrderCard.OrderCard.ToggleAddNote | src/components/dashboard/OrderCard.tsx:317 | the add-note button flips the editor and nothing else |
| OrderCard.OrderCard.FileSelect | src/components/dashboard/OrderCard.tsx:152-156 | the first chosen file replaces the selection; choosing none keeps it |
| OrderCard.OrderCard.AddNote | src/components/dashboard/OrderCard.tsx:122-148 | a note whose text trims to nothing is refused and nothing changes; otherwise exactly NewNote is appended and the editor is cleared, unselected and closed |
| OrdersDashboard.FilteredOrdersSpec | src/pages/admin/OrdersDashboard.tsx:31-45 | the shown orders keep the list's order, and an order is shown exactly when it matches the search (empty, or contained in the order number or customer name, ignoring case) and the tab ("all" or its status) |
| OrdersDashboard.MatchesSearch | src/pages/admin/OrdersDashboard.tsx:34-36 | the search test on order number and customer name, ignoring case; FilteredOrdersSpec states it |
| OrdersDashboard.FilteredOrders | src/pages/admin/OrdersDashboard.tsx:31-45 | the search-and-tab filter; FilteredOrdersSpec, ShowsEverything, CancelledOnlyUnderAll and SearchWithinTab state it |
| OrdersDashboard.ShowsEverything | src/pages/admin/OrdersDashboard.tsx:34-39 | the empty query under "all" shows the whole list |
| OrdersDashboard.CancelledOnlyUnderAll | src/pages/admin/OrdersDashboard.tsx:38-39 | a cancelled order never appears under the pending, in-progress or completed tab |
| OrdersDashboard.SearchWithinTab | src/pages/admin/OrdersDashboard.tsx:32-41 | the search result under a tab is the tab's list filtered by the query |
| OrdersDashboard.ChangeStatus | src/pages/admin/OrdersDashboard.tsx:48-63 | every order with the id gets the status and the stamped timeline; every other order is kept as it is, in place |
| OrdersDashboard.Stamp | src/pages/admin/OrdersDashboard.tsx:51-58 | the timeline after a status change; StampKeepsOtherKeys states it |
| OrdersDashboard.ChangeStatusOnlyMatching | src/pages/admin/OrdersDashboard.tsx:49-62 | a changed order differs only in status and timeline, and no id moves |
| OrdersDashboard.StampKeepsOtherKeys | src/pages/admin/OrdersDashboard.tsx:51-58 | in progress stamps the start, completed stamps the completion, every other timeline key is kept, and a missing timeline is copied as an empty one |
| OrdersDashboard.ChangeStatusIdempotent | src/pages/admin/OrdersDashboard.tsx:48-63 | repeating a change at the same instant changes nothing more |
| OrdersDashboard.ChangeStatusUnknownId | src/pages/admin/OrdersDashboard.tsx:49-63 | a change for an id no order has leaves the list as it is |
| OrdersDashboard.Refreshed | src/pages/admin/OrdersDashboard.tsx:76-101 | when an order arrives it is prepended to the list; otherwise the list is kept |
| OrdersDashboard.Arrived | src/pages/admin/OrdersDashboard.tsx:74-101 | an arrival is pending in front of the list captured at the click, whatever changed meanwhile; with no arrival the current list stays |
| OrdersDashboard.ArrivedWithoutInterleaving | src/pages/admin/OrdersDashboard.tsx:70-101 | with nothing in between, the two halves of a refresh give Refreshed of the list |
| OrdersDashboard.StatusChangeLostOnArrival | src/pages/admin/OrdersDashboard.tsx:74-101 | a status change made while the refresh waits is undone when an order arrives: the changed order comes back with its status at the click |
| OrdersDashboard.NewOrder | src/pages/admin/OrdersDashboard.tsx:79-99 | the order a refresh creates; RefreshPrepends and NewOrderRanges state it |
| OrdersDashboard.RefreshPrepends | src/pages/admin/OrdersDashboard.tsx:79-101 | the arrival is pending, first, followed by the old list, with id `ord` + (n+1) and numbers built from n+10 padded to three digits |
| OrdersDashboard.NewOrderRanges | src/pages/admin/OrdersDashboard.tsx:84-98 | the arrival holds one item of one to three units at 100 to 1099, is expected within 30 to 89 minutes and belongs to one of the three departments |
| OrdersDashboard.Pad3Width | src/pages/admin/OrdersDashboard.tsx:81-82 | `padStart(3, '0')` gives at least three characters and leaves a number of three digits or more as it is |
| OrdersDashboard.Ids | src/pages/admin/OrdersDashboard.tsx:80 | the list's ids, position by position |
| OrdersDashboard.OrdIdInjective | src/pages/admin/OrdersDashboard.tsx:80 | different numbers give different `ord` ids |
| OrdersDashboard.NextIdFresh | src/pages/admin/OrdersDashboard.tsx:80 | in a list of n distinct ids numbered 1 to n, `ord` + (n+1) is not taken |
| OrdersDashboard.NumberedPrepend | src/pages/admin/OrdersDashboard.tsx:80-101 | prepending the next id keeps the ids distinct and numbered |
| OrdersDashboard.RefreshKeepsIdsNumbered | src/pages/admin/OrdersDashboard.tsx:76-101 | a refresh never repeats an id |
| OrdersDashboard.ChangeStatusKeepsIdsNumbered | src/pages/admin/OrdersDashboard.tsx:48-63 | a status change keeps every id |
| OrdersDashboard.MockOrdersNumbered | src/pages/admin/OrdersDashboard.tsx:23 | the fixture orders start distinct and numbered |
| OrdersDashboard.MockBoard | src/pages/admin/OrdersDashboard.tsx:23-26 | the board opens showing every fixture order |
| OrdersDashboard.MockOrderIds | src/pages/admin/OrdersDashboard.tsx:23 | the fixture ids are ord1 to ord5 in order |
| OrdersDashboard.FirstFiveNumbered | src/pages/admin/OrdersDashboard.tsx:23 | ord1 to ord5 are distinct and numbered |
| OrdersDashboard.Statuses | src/pages/admin/OrdersDashboard.tsx:120-122 | the list's statuses, position by position |
| OrdersDashboard.StatusCount | src/pages/admin/OrdersDashboard.tsx:120-122 | the number of orders in one status; StatusCountIsMultiplicity, CountsPartition and CountersAtMostTotal state it |
| OrdersDashboard.StatusCountIsMultiplicity | src/pages/admin/OrdersDashboard.tsx:120-122 | each counter is the number of times its status occurs |
| OrdersDashboard.CountsPartition | src/pages/admin/OrdersDashboard.tsx:120-122 | the four status counts add up to the number of orders |
| OrdersDashboard.CountersAtMostTotal | src/pages/admin/OrdersDashboard.tsx:120-122 | the three counters fall short of the total by exactly the cancelled orders |
| OrdersDashboard.RefreshCounts | src/pages/admin/OrdersDashboard.tsx:86-122 | an arrival adds one to the pending counter and nothing to the others |
| OrdersDashboard.OrdersDashboard.constructor | src/pages/admin/OrdersDashboard.tsx:23-28 | the board opens on its list, all shown, with an empty query under "all", not loading, updated at the instant given |
| OrdersDashboard.OrdersDashboard.SetSearchQuery | src/pages/admin/OrdersDashboard.tsx:31-45 | typing updates the query, and the shown list is refiltered |
| OrdersDashboard.OrdersDashboard.SetActiveTab | src/pages/admin/OrdersDashboard.tsx:31-45 | choosing a tab updates it, and the shown list is refiltered |
| OrdersDashboard.OrdersDashboard.StatusChange | src/pages/admin/OrdersDashboard.tsx:48-67 | the list becomes ChangeStatus of the old one, the ids stay distinct and the shown list follows |
| OrdersDashboard.OrdersDashboard.Refresh | src/pages/admin/OrdersDashboard.tsx:70-71 | the click starts loading and captures the current list; while loading the button is disabled, and a click changes nothing |
| OrdersDashboard.OrdersDashboard.RefreshArrived | src/pages/admin/OrdersDashboard.tsx:74-116 | the timer ends loading, sets the list to Arrived of the current and the captured list and the last update to its instant; the ids stay distinct and the shown list follows |
| OrdersDashboard.OrdersDashboard.Counters | src/pages/admin/OrdersDashboard.tsx:120-122 | the counters are the occurrences of pending, in progress and completed, and together at most the number of orders |
| MyTasks.DepartmentOrdersSpec | src/pages/team/MyTasks.tsx:26-45 | the task list is exactly the fixture orders of the user's department, in their order, and empty without a user or a non-empty department |
| MyTasks.DepartmentOrders | src/pages/team/MyTasks.tsx:26-30 | the fixture orders of the user's department; DepartmentOrdersSpec states it |
| MyTasks.FixtureUsersHaveNoTasks | src/pages/team/MyTasks.tsx:26-30 | no fixture user has a department, so each of them starts with an empty task list |
| MyTasks.FixtureUserDepartments | src/pages/team/MyTasks.tsx:27 | every fixture user's department is missing |
| MyTasks.SetStatus | src/pages/team/MyTasks.tsx:64-70 | the orders with the id take the status, every other order is kept, in place |
| MyTasks.SetStatusIsChangeWithoutTimeline | src/pages/team/MyTasks.tsx:64-70 | the task list's change agrees with the administrators' board on every field but the timeline, which it leaves alone |
| MyTasks.MyTasks.constructor | src/pages/team/MyTasks.tsx:24-35 | the page starts on the department's orders, all shown, with an empty query under "all" |
| MyTasks.MyTasks.UserEffect | src/pages/team/MyTasks.tsx:38-45 | with a department the list is reloaded from the fixture; without one it is kept |
| MyTasks.MyTasks.SetSearchQuery | src/pages/team/MyTasks.tsx:48-62 | typing updates the query and the shown list is refiltered with the board's filter |
| MyTasks.MyTasks.SetActiveTab | src/pages/team/MyTasks.tsx:48-62 | choosing a tab updates it and the shown list is refiltered |
| MyTasks.MyTasks.StatusChange | src/pages/team/MyTasks.tsx:64-74 | the list becomes SetStatus of the old one and the shown list follows |
| MyTasks.MyTasks.Refresh | src/pages/team/MyTasks.tsx:76-85 | a refresh only records the instant |
| MyTasks.MyTasks.Counters | src/pages/team/MyTasks.tsx:88-90 | the counters are the occurrences of pending, in progress and completed, together at most the number of orders |
| TrackDialog.NewNote | src/components/dashboard/TrackDialog.tsx:53-58 | the note's id is `note-` + the instant, it keeps the text, the instant and "Current User", and it has no attachments |
| TrackDialog.NoteIsCardNoteWithoutFile | src/components/dashboard/TrackDialog.tsx:53-58 | the dialog writes the same note as an order card with no file chosen |
| TrackDialog.EstimateParsing | src/components/dashboard/TrackDialog.tsx:134-156 | `parseInt(value) \|\| 0` reads back any printed number, turns an empty or non-numeric field into 0 and lets a negative number through |
| TrackDialog.TrackDialog.constructor | src/components/dashboard/TrackDialog.tsx:36-44 | the dialog starts at the order's status, with no notes, files or previews and a zero estimate |
| TrackDialog.TrackDialog.AddNote | src/components/dashboard/TrackDialog.tsx:47-64 | a note whose text trims to nothing is refused and nothing changes; otherwise exactly NewNote is appended and the editor is cleared and closed |
| TrackDialog.TrackDialog.FileSelect | src/components/dashboard/TrackDialog.tsx:67-76 | the chosen files are appended to the selection and their preview URLs to the previews |
| TrackDialog.TrackDialog.SelectStatus | src/components/dashboard/TrackDialog.tsx:107-110 | choosing a status replaces the selection and nothing else |
| TrackDialog.TrackDialog.SetEstimatedHours | src/components/dashboard/TrackDialog.tsx:129-135 | the hours field becomes what `parseInt(value) \|\| 0` reads |
| TrackDialog.TrackDialog.SetEstimatedMinutes | src/components/dashboard/TrackDialog.tsx:140-146 | the minutes field becomes what `parseInt(value) \|\| 0` reads |
| TrackDialog.TrackDialog.SetEstimatedSeconds | src/components/dashboard/TrackDialog.tsx:151-157 | the seconds field becomes what `parseInt(value) \|\| 0` reads |
| TrackDialog.TrackDialog.EditNote | src/components/dashboard/TrackDialog.tsx:216 | typing replaces the note text and nothing else |
| TrackDialog.TrackDialog.ToggleAddNote | src/components/dashboard/TrackDialog.tsx:205 | the add-note button flips the editor and nothing else |
| TrackDialog.TrackDialog.Save | src/components/dashboard/TrackDialog.tsx:79-90 | with a callback the selected status is handed on once, unchecked; the dialog asks to close either way |
| TrackDialog.SaveIsUnchecked | src/components/dashboard/TrackDialog.tsx:83-85 | saving can send a completed order to pending, a move its card never offers |
| PerformanceReport.TotalDelayConcat | src/components/dashboard/PerformanceReport.tsx:61-63 | the total delay of two entry lists back to back is the sum of their totals |
| PerformanceReport.TotalDelay | src/components/dashboard/PerformanceReport.tsx:61-63 | the reduce of `delayTime || 0`; TotalDelayConcat and TotalDelayCountsEverything state it |
| PerformanceReport.TotalDelayCountsEverything | src/components/dashboard/PerformanceReport.tsx:61-63 | each entry adds its delay whatever its status or sign, and a missing delay adds 0 |
| PerformanceReport.RowOf | src/components/dashboard/PerformanceReport.tsx:59-74 | an employee's row carries their id and name, the total delay of their entries, the number of completed entries, and the average over completed entries (0 without any) |
| PerformanceReport.RowsOf | src/components/dashboard/PerformanceReport.tsx:58-75 | one row per staff member, in the staff order |
| PerformanceReport.DelayByEmployeeSpec | src/components/dashboard/PerformanceReport.tsx:58-77 | the listed rows are exactly the rows of employees with a completed task, each as often as in the staff list, ordered from the largest total delay down |
| PerformanceReport.DelayByEmployee | src/components/dashboard/PerformanceReport.tsx:58-77 | the per-employee table; DelayByEmployeeSpec and UnknownEntriesIgnored state it |
| PerformanceReport.SortByDelay | src/components/dashboard/PerformanceReport.tsx:77 | the descending sort by total delay; SortPermutes, SortSorts and SortStable state it |
| PerformanceReport.UnknownEntriesIgnored | src/components/dashboard/PerformanceReport.tsx:60 | entries of users not on the staff list change no row |
| PerformanceReport.InsertPermutes | src/components/dashboard/PerformanceReport.tsx:77 | inserting a row adds exactly that row |
| PerformanceReport.InsertSorts | src/components/dashboard/PerformanceReport.tsx:77 | inserting into a list sorted by decreasing delay keeps it sorted |
| PerformanceReport.SortPermutes | src/components/dashboard/PerformanceReport.tsx:77 | the sort is a permutation of its input |
| PerformanceReport.SortSorts | src/components/dashboard/PerformanceReport.tsx:77 | the sorted rows run from the largest total delay down |
| PerformanceReport.InsertStable | src/components/dashboard/PerformanceReport.tsx:77 | inserting keeps the rows of each delay in their relative order |
| PerformanceReport.SortStable | src/components/dashboard/PerformanceReport.tsx:77 | rows with equal total delays keep their input order, as the stable `Array.prototype.sort` does |
| PerformanceReport.DelaySumsSpec | src/components/dashboard/PerformanceReport.tsx:80-87 | a day is charted exactly when some entry with a completion date and a positive delay was completed on it, and its value is the sum of those delays |
| PerformanceReport.DelaySums | src/components/dashboard/PerformanceReport.tsx:80-87 | the per-day accumulator; DelaySumsSpec ties it to the independent DelayOn |
| PerformanceReport.DelaysByDate | src/components/dashboard/PerformanceReport.tsx:80-87 | the accumulating loop computes the per-day sums |
| PerformanceReport.CountedDatesKeys | src/components/dashboard/PerformanceReport.tsx:80-87 | a day is a key of the accumulator exactly when some counted entry falls on it |
| PerformanceReport.ChartData | src/components/dashboard/PerformanceReport.tsx:89-92 | `Object.entries(delaysByDate)` as bars in the order the days were first written; ChartDataSpec states it |
| PerformanceReport.ChartDataSpec | src/components/dashboard/PerformanceReport.tsx:80-92 | one bar per day with positive counted delay and no other, no day twice, each bar the day's total, and the days in order of their first counted entry |
| PerformanceReport.FormatMinutesSixtyMinutes | src/components/dashboard/PerformanceReport.tsx:95-103 | as written, an average of 119.5 minutes shows as "1h 60m" |
| PerformanceReport.FormatMinutesAsWritten | src/components/dashboard/PerformanceReport.tsx:95-103 | `formatMinutes` as written; FormatWholeMinutes and FormatMinutesSixtyMinutes state it |
| PerformanceReport.FormatMinutes | src/components/dashboard/PerformanceReport.tsx:95-103 | the corrected formatter, rounding first; FormatMinutesCorrected, FormatMinutesTwoHours and CorrectionKeepsWholeMinutes state it |
| PerformanceReport.FormatWholeMinutes | src/components/dashboard/PerformanceReport.tsx:95-103 | a whole number of minutes shows its hours, when there are any, then the minutes left over, each followed by its unit's first letter |
| PerformanceReport.FormatMinutesCorrected | src/components/dashboard/PerformanceReport.tsx:95-103 | rounding first, any non-negative time shows the rounded minutes as hours and fewer than 60 minutes |
| PerformanceReport.CorrectionKeepsWholeMinutes | src/components/dashboard/PerformanceReport.tsx:95-131 | the correction changes nothing for whole minutes, so the total-delay column reads the same either way |
| PerformanceReport.FormatMinutesTwoHours | src/components/dashboard/PerformanceReport.tsx:95-103 | corrected, 119.5 minutes shows as "2h 0m" |
| PerformanceReport.ViewOf | src/components/dashboard/PerformanceReport.tsx:39-92 | a missing or empty report shows the no-data card; otherwise the table holds DelayByEmployee and the chart the ordered bars of ChartData |
| DataTable.Text | src/components/ui/DataTable.tsx:54-56 | `value?.toString()` is absent exactly for a missing or null cell, a string's own text, and "true"/"false" for a boolean |
| DataTable.AnyKeySpec | src/components/ui/DataTable.tsx:53-59 | a row passes the search exactly when some search key's cell text contains the query, ignoring case |
| DataTable.AnyKey | src/components/ui/DataTable.tsx:53-59 | some search key's text holds the query, ignoring case; AnyKeySpec states it |
| DataTable.NullNeverMatches | src/components/ui/DataTable.tsx:54-56 | a missing or null cell never matches, not even the empty query |
| DataTable.StrictAgreesOnStrings | src/components/ui/DataTable.tsx:65 | on string and missing cells, `===` against the option is the comparison of texts |
| DataTable.FilteredDataSpec | src/components/ui/DataTable.tsx:50-68 | the table keeps, in order, exactly the rows that pass the search when it is active and the filter when it is active |
| DataTable.FilteredDataAsWritten | src/components/ui/DataTable.tsx:50-68 | the two stages as written, with strict equality; LateFilterEmptiesAsWritten shows its defect |
| DataTable.FilteredData | src/components/ui/DataTable.tsx:50-68 | the two stages with the filter compared by text; FilteredDataSpec, NothingActiveShowsAll, ClearedFilterIsSearchOnly and NoKeysNoRows state it |
| DataTable.NothingActiveShowsAll | src/components/ui/DataTable.tsx:52-67 | without an active search or filter every row is shown |
| DataTable.ClearedFilterIsSearchOnly | src/components/ui/DataTable.tsx:62-68 | clearing the filter leaves the search alone in effect |
| DataTable.NoKeysNoRows | src/components/ui/DataTable.tsx:41-59 | a search over no keys shows nothing |
| DataTable.AttendanceCells | src/pages/admin/PerformanceStats.tsx:349-359 | the attendance table's row carries the employee name as a string and `isLate` as a boolean |
| DataTable.AttendanceTable | src/pages/admin/PerformanceStats.tsx:351 | one table row per attendance row, in order |
| DataTable.LateFilterEmptiesAsWritten | src/components/ui/DataTable.tsx:64-66 | as written, choosing either status option on the attendance table shows no row at all |
| DataTable.LateFilterCorrected | src/components/ui/DataTable.tsx:64-66 | compared by text, the "true" option keeps exactly the late rows, in order |
| KnowledgeBase.FilteredItemsSpec | src/pages/admin/KnowledgeBase.tsx:55-65 | the shown documents keep the list's order and are exactly those matching the search (empty, or in the title or content, ignoring case), the category filter and the type filter, an unset or empty filter passing everything |
| KnowledgeBase.FilteredItems | src/pages/admin/KnowledgeBase.tsx:55-65 | the search and the two filters; FilteredItemsSpec and NoFiltersShowAll state it |
| KnowledgeBase.NoFiltersShowAll | src/pages/admin/KnowledgeBase.tsx:57-62 | without a query or filter every document is shown |
| KnowledgeBase.CategoriesOf | src/pages/admin/KnowledgeBase.tsx:69 | the documents' categories, position by position |
| KnowledgeBase.CategoriesSpec | src/pages/admin/KnowledgeBase.tsx:68-70 | the category list holds every document's category exactly once, and nothing else, in order of first use |
| KnowledgeBase.Categories | src/pages/admin/KnowledgeBase.tsx:68-70 | `[...new Set(...)]` of the categories; CategoriesSpec states it |
| KnowledgeBase.Updated | src/pages/admin/KnowledgeBase.tsx:73-77 | every document with the updated one's id is replaced by it, every other is kept, in place |
| KnowledgeBase.UpdatedProperties | src/pages/admin/KnowledgeBase.tsx:73-77 | updating twice is updating once, and an update whose id is unknown leaves the list as it is |
| KnowledgeBase.AuthorOf | src/pages/admin/KnowledgeBase.tsx:93 | the author is the signed-in user's non-empty name, "Admin" otherwise |
| KnowledgeBase.NewItem | src/pages/admin/KnowledgeBase.tsx:86-95 | the document has id `kb-` + the instant, the form's title, content, type, category and department, the author, the instant as its creation and no update or attachments |
| KnowledgeBase.AddedCategoryListed | src/pages/admin/KnowledgeBase.tsx:68-97 | after an add the new category is offered and no category offered before is lost |
| KnowledgeBase.KnowledgeBase.constructor | src/pages/admin/KnowledgeBase.tsx:42-52 | the page opens on its list, with no query or filter, the dialog closed and the form empty with type guide |
| KnowledgeBase.KnowledgeBase.SetSearchQuery | src/pages/admin/KnowledgeBase.tsx:234 | typing replaces the query and nothing else that matters to the list |
| KnowledgeBase.KnowledgeBase.SelectCategory | src/pages/admin/KnowledgeBase.tsx:240 | the category selector sets the filter, its empty option clearing it |
| KnowledgeBase.KnowledgeBase.SelectType | src/pages/admin/KnowledgeBase.tsx:254 | the type selector sets the type filter |
| KnowledgeBase.KnowledgeBase.EditForm | src/pages/admin/KnowledgeBase.tsx:137-215 | the form's inputs replace its fields and leave the list and dialog alone |
| KnowledgeBase.KnowledgeBase.SetAddingItem | src/pages/admin/KnowledgeBase.tsx:119 | the dialog's open state changes and nothing else |
| KnowledgeBase.KnowledgeBase.UpdateItem | src/pages/admin/KnowledgeBase.tsx:73-77 | the list becomes Updated of the old one |
| KnowledgeBase.KnowledgeBase.AddItem | src/pages/admin/KnowledgeBase.tsx:80-106 | an empty title, content or category is refused and nothing changes; otherwise NewItem goes first, the dialog closes and the form is reset |
| TeamKnowledgeBase.TeamIsAdminThenSections | src/pages/team/TeamKnowledgeBase.tsx:33-50 | the team sees, in order, what the administrators' filters show that the sections rule lets through |
| TeamKnowledgeBase.FilteredItemsSpec | src/pages/team/TeamKnowledgeBase.tsx:33-50 | the shown documents keep the list's order and are exactly those that pass the search, both filters and the sections rule (no or empty department, no section list, or a department among the user's sections) |
| TeamKnowledgeBase.SectionVisible | src/pages/team/TeamKnowledgeBase.tsx:44-47 | the sections rule; NoSectionsSeesAll and EmptySectionsSeeGeneralOnly state it |
| TeamKnowledgeBase.FilteredItems | src/pages/team/TeamKnowledgeBase.tsx:33-50 | the team view of the documents; TeamIsAdminThenSections and FilteredItemsSpec state it |
| TeamKnowledgeBase.NoSectionsSeesAll | src/pages/team/TeamKnowledgeBase.tsx:46 | a user without a section list, or no user, sees what an administrator sees |
| TeamKnowledgeBase.EmptySectionsSeeGeneralOnly | src/pages/team/TeamKnowledgeBase.tsx:44-47 | a user whose section list is empty sees only documents without a department |
| TutorialsDashboard.DeletedSpec | src/pages/admin/TutorialsDashboard.tsx:76-79 | after a delete no tutorial has the id, every other one remains in its order, and deleting again changes nothing |
| TutorialsDashboard.Deleted | src/pages/admin/TutorialsDashboard.tsx:76-79 | `handleDeleteTutorial`'s filter; DeletedSpec states it |
| TutorialsDashboard.AttachmentKindOf | src/pages/admin/TutorialsDashboard.tsx:107 | an uploaded file is an image exactly when its MIME type starts with `image/`, a document otherwise, never a video |
| TutorialsDashboard.AttachmentsOf | src/pages/admin/TutorialsDashboard.tsx:104-109 | no files give no attachment list; otherwise one attachment per file, in order, with id `attachment-` + instant + `-` + its index, the file's name, its kind and its object URL |
| TutorialsDashboard.AttachmentIdsDistinct | src/pages/admin/TutorialsDashboard.tsx:105 | the attachments of one save have distinct ids |
| TutorialsDashboard.Saved | src/pages/admin/TutorialsDashboard.tsx:95-110 | an edit keeps the edited tutorial's set id and creation time, a creation takes `tutorial-` + the instant; the type is always guide, the author "Admin", the update the instant, and the form's fields and attachments are carried |
| TutorialsDashboard.EditingMakesGuide | src/pages/admin/TutorialsDashboard.tsx:99 | saving an edit turns an instruction into a guide |
| TutorialsDashboard.Replaced | src/pages/admin/TutorialsDashboard.tsx:113 | every tutorial with the edited id is replaced by the saved one, every other is kept, in place |
| TutorialsDashboard.EditReplacesInPlace | src/pages/admin/TutorialsDashboard.tsx:113 | with distinct ids an edit replaces exactly the edited position |
| TutorialsDashboard.SavedList | src/pages/admin/TutorialsDashboard.tsx:112-118 | an edit replaces in place, a creation goes last |
| TutorialsDashboard.InitialTutorials | src/pages/admin/TutorialsDashboard.tsx:16-36 | the page's two built-in tutorials, a guide and an instruction, created at load time; EditInitialInstruction uses them |
| TutorialsDashboard.EditInitialInstruction | src/pages/admin/TutorialsDashboard.tsx:16-117 | editing the built-in instruction replaces it in place with a guide under the same id and creation time, leaving the other tutorial as it was |
| TutorialsDashboard.TutorialsDashboard.constructor | src/pages/admin/TutorialsDashboard.tsx:41-49 | the page opens on its list with the dialog closed, create mode and an empty form |
| TutorialsDashboard.TutorialsDashboard.NewTutorial | src/pages/admin/TutorialsDashboard.tsx:52-61 | an empty form in create mode, the dialog open, the list untouched |
| TutorialsDashboard.TutorialsDashboard.EditTutorial | src/pages/admin/TutorialsDashboard.tsx:64-73 | edit mode on the tutorial, the form holding its title, content and category, no link and no files, the dialog open |
| TutorialsDashboard.TutorialsDashboard.DeleteTutorial | src/pages/admin/TutorialsDashboard.tsx:76-79 | the list becomes Deleted of the old one |
| TutorialsDashboard.TutorialsDashboard.FileChange | src/pages/admin/TutorialsDashboard.tsx:82-86 | a file choice replaces the files; no choice keeps them |
| TutorialsDashboard.TutorialsDashboard.EditFields | src/pages/admin/TutorialsDashboard.tsx:224-256 | the text inputs replace the form's fields and nothing else |
| TutorialsDashboard.TutorialsDashboard.SetDialogOpen | src/pages/admin/TutorialsDashboard.tsx:203 | the dialog's open state changes and nothing else |
| TutorialsDashboard.TutorialsDashboard.Save | src/pages/admin/TutorialsDashboard.tsx:89-121 | a title or content that trims to nothing is refused and nothing changes; otherwise the list becomes SavedList with the Saved tutorial and the dialog closes |
| CreateGuideDialog.SpliceStart | src/components/dashboard/CreateGuideDialog.tsx:90-108 | `splice` starts at the index clamped to the list, a negative index counting from the end |
| CreateGuideDialog.RemoveAt | src/components/dashboard/CreateGuideDialog.tsx:89-109 | `splice(i, 1)` on a copy drops the element at the start position, if there is one, and keeps the rest in order |
| CreateGuideDialog.RemoveAtSpec | src/components/dashboard/CreateGuideDialog.tsx:88-110 | an index inside the list drops exactly that element; an index past the end drops nothing |
| CreateGuideDialog.NewGuide | src/components/dashboard/CreateGuideDialog.tsx:119-128 | the guide has id `guide-` + the instant, the title, content, author (the user's name or "Admin"), instant, images, video URLs and links |
| CreateGuideDialog.CreateGuideDialog.constructor | src/components/dashboard/CreateGuideDialog.tsx:34-43 | every input and list starts empty and the link editor closed |
| CreateGuideDialog.CreateGuideDialog.FileSelect | src/components/dashboard/CreateGuideDialog.tsx:46-55 | the chosen files and their previews are appended, keeping one preview per file |
| CreateGuideDialog.CreateGuideDialog.AddVideo | src/components/dashboard/CreateGuideDialog.tsx:58-69 | a blank or invalid URL is refused and nothing changes; otherwise it is appended and the input cleared |
| CreateGuideDialog.CreateGuideDialog.AddLink | src/components/dashboard/CreateGuideDialog.tsx:72-85 | a blank title or URL, or an invalid URL, is refused and nothing changes; otherwise the link is appended, the inputs cleared and the editor closed |
| CreateGuideDialog.CreateGuideDialog.RemoveImage | src/components/dashboard/CreateGuideDialog.tsx:88-96 | the same `splice` is applied to the previews and the files, so they stay paired |
| CreateGuideDialog.CreateGuideDialog.RemoveVideo | src/components/dashboard/CreateGuideDialog.tsx:99-103 | the video list becomes RemoveAt of the old one |
| CreateGuideDialog.CreateGuideDialog.RemoveLink | src/components/dashboard/CreateGuideDialog.tsx:106-110 | the link list becomes RemoveAt of the old one |
| CreateGuideDialog.CreateGuideDialog.EditFields | src/components/dashboard/CreateGuideDialog.tsx:163-304 | the inputs and the link editor's toggle replace their fields and no list changes |
| CreateGuideDialog.CreateGuideDialog.Save | src/components/dashboard/CreateGuideDialog.tsx:113-144 | a title or content that trims to nothing is refused and nothing changes; otherwise exactly NewGuide is handed on, the form is emptied and closing is requested |
| SectionManager.ToggleFlips | src/components/dashboard/SectionManager.tsx:39-45 | a toggle flips the membership of its section and of no other |
| SectionManager.Toggled | src/components/dashboard/SectionManager.tsx:39-45 | `handleToggleSection`'s new selection; ToggleFlips, ToggleKeepsOthers, ToggleTwice and ToggleKeepsNoDup state it |
| SectionManager.ToggleKeepsOthers | src/components/dashboard/SectionManager.tsx:39-45 | the other sections keep their order |
| SectionManager.ToggleTwice | src/components/dashboard/SectionManager.tsx:39-45 | an absent section toggled twice restores the selection; a present one ends up once, at the end |
| SectionManager.ToggleKeepsNoDup | src/components/dashboard/SectionManager.tsx:39-45 | a selection without repeats keeps none |
| SectionManager.SectionBadge | src/components/dashboard/SectionManager.tsx:53-68 | the five sections get their own colour classes by lower-case name, every other name grey |
| SectionManager.StyledAreAvailable | src/components/dashboard/SectionManager.tsx:31-68 | the styled sections are exactly the five the dialog offers |
| SectionManager.BadgeIgnoresCase | src/components/dashboard/SectionManager.tsx:54 | the badge does not depend on case |
| SectionManager.SectionManager.constructor | src/components/dashboard/SectionManager.tsx:28-29 | the selection starts as the staff member's sections, the dialog closed |
| SectionManager.SectionManager.ToggleSection | src/components/dashboard/SectionManager.tsx:39-45 | the selection becomes Toggled of the old one |
| SectionManager.SectionManager.Save | src/components/dashboard/SectionManager.tsx:47-50 | exactly the current selection is handed on once and the dialog closes |
| SectionManager.SectionManager.SetOpen | src/components/dashboard/SectionManager.tsx:82-107 | the dialog's open state changes and nothing is handed on |
| StaffCard.WordStarts | src/components/dashboard/StaffCard.tsx:62-69 | the reference reading of initials: the non-space characters that begin a word, never a space |
| StaffCard.FirstChars | src/components/dashboard/StaffCard.tsx:66 | the first character of each word, an empty word giving none; InitialsAreWordStarts relates it to WordStarts |
| StaffCard.Initials | src/components/dashboard/StaffCard.tsx:62-69 | the initials are at most two characters |
| StaffCard.InitialsAreWordStarts | src/components/dashboard/StaffCard.tsx:62-69 | the split-map-join-upper-case-slice chain gives the upper-cased starts of the first two words |
| StaffCard.InitialsOfWords | src/components/dashboard/StaffCard.tsx:62-69 | a one-word name gives its first letter, two words give both first letters, and an empty name gives nothing |
| StaffCard.DepartmentText | src/components/dashboard/StaffCard.tsx:72-77 | a list of departments is joined with ", ", a single one is shown as it is, a missing one renders as nothing |
| StaffCard.DaysOffText | src/components/dashboard/StaffCard.tsx:101-107 | missing or empty days off read "None"; a text is shown as it is; a list, even an empty one, is joined with ", " |
| StaffCard.DayOffAlone | src/components/dashboard/StaffCard.tsx:101-107 | one day off reads the same alone or as a one-element list |
| StaffCard.CompletionRateBounds | src/components/dashboard/StaffCard.tsx:168-173 | with no more late completions than completions the rate is a whole percentage from 0 to 100, 100 when none is late and 0 without tasks |
| StaffCard.CompletionRate | src/components/dashboard/StaffCard.tsx:168-173 | the completion rate; CompletionRateBounds states it |
| StaffCard.RoleBadge | src/components/dashboard/StaffCard.tsx:210 | the badge has its own look for "admin" and for "manager" exactly, an outline for every other role |
| TeamManagement.StaffMatchesAsWritten | src/pages/admin/TeamManagement.tsx:59-64 | as written, a member's test throws exactly when the name does not match and the department is not a string |
| TeamManagement.AsWrittenAgreesOrThrows | src/pages/admin/TeamManagement.tsx:59-64 | as written, the filter throws exactly when some member's test throws, and otherwise agrees with the corrected filter |
| TeamManagement.EmailSearchThrowsAsWritten | src/pages/admin/TeamManagement.tsx:59-64 | as written, searching the fixture staff for "sara@orderflow.com" throws, since no fixture member has a department |
| TeamManagement.EmailSearchFindsCorrected | src/pages/admin/TeamManagement.tsx:59-64 | corrected, the same search finds Sara |
| TeamManagement.FilteredStaffSpec | src/pages/admin/TeamManagement.tsx:59-64 | the corrected filter keeps, in order, exactly the members whose name, shown department or email contains the query, ignoring case |
| TeamManagement.FilteredStaffAsWritten | src/pages/admin/TeamManagement.tsx:59-64 | the search as written, `None` when it throws; AsWrittenAgreesOrThrows and EmailSearchThrowsAsWritten state it |
| TeamManagement.StaffMatches | src/pages/admin/TeamManagement.tsx:59-64 | the corrected search test; FilteredStaffSpec, EmptyQueryShowsAll and MissingDepartmentNeverMatches state it |
| TeamManagement.FilteredStaff | src/pages/admin/TeamManagement.tsx:59-64 | the corrected search; FilteredStaffSpec states it |
| TeamManagement.EmptyQueryShowsAll | src/pages/admin/TeamManagement.tsx:59-64 | the empty query shows every member |
| TeamManagement.MissingDepartmentNeverMatches | src/pages/admin/TeamManagement.tsx:62 | a member without a department is found by name or email only |
| TeamManagement.StaffUpdated | src/pages/admin/TeamManagement.tsx:67-73 | every member with the updated one's id is replaced by it, every other kept, in place |
| TeamManagement.StaffUpdatedProperties | src/pages/admin/TeamManagement.tsx:67-73 | updating twice is updating once, an unknown id changes nothing, and a known id puts the update in the list |
| TeamManagement.OrElse | src/pages/admin/TeamManagement.tsx:87-91 | `value \|\| fallback` on strings: the value unless it is empty |
| TeamManagement.NewMember | src/pages/admin/TeamManagement.tsx:82-98 | the member has id `staff-` + the instant, the form's name, email and role, defaults for an empty department, position and shift, the form's days off as a list, no sections, zero statistics and the instant's avatar |
| TeamManagement.NewMemberFoundByDepartment | src/pages/admin/TeamManagement.tsx:59-87 | a new member is found by searching for their department |
| TeamManagement.TotalLateConcat | src/pages/admin/TeamManagement.tsx:162-164 | the late-completion total of two lists back to back is the sum of their totals |
| TeamManagement.TotalLate | src/pages/admin/TeamManagement.tsx:162-164 | the reduce of late completions; TotalLateConcat, TotalLateOverStats and AddKeepsTotalLate state it |
| TeamManagement.TotalLateOverStats | src/pages/admin/TeamManagement.tsx:162-164 | members without statistics add nothing to the total |
| TeamManagement.AddKeepsTotalLate | src/pages/admin/TeamManagement.tsx:93-164 | adding a member leaves the late-completion total as it was |
| TeamManagement.TeamManagement.constructor | src/pages/admin/TeamManagement.tsx:43-56 | the page opens on its staff list, an empty query, the dialog closed and the default form |
| TeamManagement.TeamManagement.ShownStaff | src/pages/admin/TeamManagement.tsx:59-64 | the cards shown with the search as written: nothing, as the render throws, exactly when some member fails the name test and has no single department; otherwise the members of the corrected search |
| TeamManagement.TeamManagement.SetSearchQuery | src/pages/admin/TeamManagement.tsx:375 | typing replaces the query and nothing else |
| TeamManagement.TeamManagement.SetAddingStaff | src/pages/admin/TeamManagement.tsx:177 | the dialog's open state changes and nothing else |
| TeamManagement.TeamManagement.EditForm | src/pages/admin/TeamManagement.tsx:198-301 | the inputs replace the form, the days-off selector making a one-day list |
| TeamManagement.TeamManagement.UpdateStaff | src/pages/admin/TeamManagement.tsx:67-73 | the list becomes StaffUpdated of the old one |
| TeamManagement.TeamManagement.AddStaff | src/pages/admin/TeamManagement.tsx:76-112 | an empty name or email is refused and nothing changes; otherwise NewMember is appended, the dialog closes and the form is reset to its defaults |
| DeveloperDashboard.Flip | src/pages/developer/DeveloperDashboard.tsx:73 | the new status is never the old one |
| DeveloperDashboard.Toggled | src/pages/developer/DeveloperDashboard.tsx:69-84 | a switched integration changes status; one becoming active is stamped with the instant, one becoming inactive keeps its last synchronisation; nothing else changes |
| DeveloperDashboard.ToggledList | src/pages/developer/DeveloperDashboard.tsx:69-84 | every integration with the id is switched, every other is kept, in place |
| DeveloperDashboard.ToggleTwice | src/pages/developer/DeveloperDashboard.tsx:69-84 | an unknown id changes nothing; switching twice restores every status, leaving a once-active integration stamped by the second switch and a once-inactive one by the first |
| DeveloperDashboard.ToggleTwiceKeepsStamp | src/pages/developer/DeveloperDashboard.tsx:69-84 | switching the fixture's never-synchronised Inventory System twice restores its status but not its missing stamp |
| DeveloperDashboard.NewIntegration | src/pages/developer/DeveloperDashboard.tsx:93-99 | the integration has id `api-` + the instant and the form's fields, and starts inactive and never synchronised |
| DeveloperDashboard.NewThenToggled | src/pages/developer/DeveloperDashboard.tsx:69-99 | switching a new integration on stamps it with the instant of the switch |
| DeveloperDashboard.DeveloperDashboard.constructor | src/pages/developer/DeveloperDashboard.tsx:52-66 | the page opens on its list with the dialog closed and the default form |
| DeveloperDashboard.DeveloperDashboard.ToggleIntegrationStatus | src/pages/developer/DeveloperDashboard.tsx:69-84 | the list becomes ToggledList of the old one |
| DeveloperDashboard.DeveloperDashboard.EditForm | src/pages/developer/DeveloperDashboard.tsx:275-294 | the inputs replace the form and nothing else |
| DeveloperDashboard.DeveloperDashboard.SetAddingIntegration | src/pages/developer/DeveloperDashboard.tsx:254 | the dialog's open state changes and nothing else |
| DeveloperDashboard.DeveloperDashboard.AddIntegration | src/pages/developer/DeveloperDashboard.tsx:87-109 | an empty name or endpoint is refused and nothing changes; otherwise NewIntegration goes last, the dialog closes and the form is reset |
| MainJs.FindCookie | static/js/main.js:25-33 | a value is found only when some entry names the cookie |
| MainJs.GetCookie | static/js/main.js:22-35 | the loop over the `;`-separated, trimmed entries returns CookieValue |
| MainJs.CookieValue | static/js/main.js:22-35 | what `getCookie` returns; GetCookie computes it, and CookieValueNone, FirstEntryWins and SingleCookieRoundTrip state it |
| MainJs.FindCookieNone | static/js/main.js:25-33 | nothing is found exactly when no entry names the cookie |
| MainJs.CookieValueNone | static/js/main.js:22-35 | `getCookie` gives null exactly when the cookie text is empty or no entry names the cookie |
| MainJs.FirstEntryWins | static/js/main.js:26-31 | the first entry naming the cookie wins over any later one |
| MainJs.OtherNameNoMatch | static/js/main.js:28 | an entry of another cookie never names this one when neither name holds `=`, even when one name starts the other |
| MainJs.PrefixNameIsOtherCookie | static/js/main.js:22-35 | "ab=1" gives nothing for cookie "a" and the decoded "1" for cookie "ab" |
| MainJs.SingleCookieRoundTrip | static/js/main.js:22-35 | a single `name=value` without `;` and white space reads back as the decoded value |
| MainJs.CapitalizeFirst | static/js/main.js:44-46 | the same length, the first character upper-cased and the rest as it was |
| MockData.GetCurrentUser | src/data/mockData.ts:396-401 | the signed-in user is always the first fixture user, an administrator without sections |
| MockData.StaffOrdersSpec | src/data/mockData.ts:403-405 | a member's orders are exactly the fixture orders assigned to them, in order; unassigned orders are nobody's |
| MockData.StaffOrders | src/data/mockData.ts:403-405 | `getStaffOrders`; StaffOrdersSpec and StaffOrdersDisjoint state it |
| MockData.StaffOrdersDisjoint | src/data/mockData.ts:403-405 | no order belongs to two members |
| MockData.StaffAttendanceSpec | src/data/mockData.ts:408-410 | a member's attendance is exactly their records, in order |
| MockData.StaffAttendance | src/data/mockData.ts:408-410 | `getStaffAttendance`; StaffAttendanceSpec states it |
| MockData.FixtureStaffOrders | src/data/mockData.ts:150-254 | user 4 has orders 1, 3 and 5, user 3 has order 2, and order 4 is nobody's |
| MockData.FixtureStaffAttendance | src/data/mockData.ts:323-366 | user 3 has records 1 and 4, user 4 records 2 and 5, user 2 record 3 |

## Left out

- Toasts, audio, the `isLoading` flags of the task list and the developers' page, their `setTimeout` delays and `window.confirm`: these are presentation only, with no effect on the modelled state. Each such handler is modelled as its final state change. The order board's refresh is the exception: its delay lets a status change slip in, so it is modelled in two steps, `OrdersDashboard.OrdersDashboard.Refresh` and `OrdersDashboard.OrdersDashboard.RefreshArrived`.
- Registering and clearing `setInterval` in `TaskTimer` (src/components/countdown/TaskTimer.tsx:42-60) is not modelled. Each second is an explicit `Tick` call.
- `progressPercent` in `TaskTimer` is not modelled: it is floating-point display arithmetic.
- `handleTestRequest`, the API tester of the developers' page, is not modelled. It simulates the network with random answers and delays.
- The random branch of `handleRefresh` is a parameter: whether a new order arrives and the instant it arrives.
- `getRandomPerformance` in `StaffCard` is not modelled: it draws random numbers.
- The random row counts of the completion statistics are not modelled. The model takes the completion rows as input.
- src/pages/admin/PerformanceDashboard.tsx is not part of this model. It shows random mock rows only.
- The average completion time of the team page (src/pages/admin/TeamManagement.tsx:159-161) is not modelled. It is floating-point arithmetic, and it divides by the staff count even when there is nobody.
- `totalMinutes` in `TrackDialog` is not modelled: the dialog computes it and never uses it.
- Locale formatting is not modelled: `toFixed`, `toLocaleString`, `toLocaleDateString` and date-fns `format`. Where a rule compares formatted dates, the model takes the formatting as a parameter `dateOf`.
- `String(number)` is modelled for whole numbers only.
- Surrogate pairs are not modelled. A `char` is a Unicode scalar value, so a character outside the Basic Multilingual Plane counts once here and twice in JavaScript. This affects `length`, `charAt(0)` and `slice(0, 2)` (CapitalizeFirst, StaffCard.Initials), `padStart` widths, and `<` between such a character and one from U+E000 to U+FFFF.
- Common.NumberOf: reads a blank field or a run of decimal digits only. JavaScript `Number` also reads signs, decimals, exponents and `0x` literals (`"-5"`, `"1.5"`, `"1e2"`, `"0x1A"`), which give None here. The fields read are parts of clock times, which are digit runs.
- TutorialsDashboard.Saved and TutorialsDashboard.AttachmentsOf: one instant `nowMs` stands for the separate `Date.now()` and `new Date()` calls at src/pages/admin/TutorialsDashboard.tsx:95-104, which may differ by a millisecond.
- OrderCard.NewNote, TrackDialog.NewNote, KnowledgeBase.NewItem, CreateGuideDialog.NewGuide and OrdersDashboard.NewOrder: one instant stands for the separate clock reads of the id and the time stamps (src/components/dashboard/OrderCard.tsx:129-136, src/components/dashboard/TrackDialog.tsx:54-56, src/pages/admin/KnowledgeBase.tsx:87-94, src/components/dashboard/CreateGuideDialog.tsx:120-124, src/pages/admin/OrdersDashboard.tsx:81-95), which may differ by a millisecond.
- StaffCard.CompletionRate: the rate `(completed - late) / Math.max(1, completed) * 100` is an exact real, where JavaScript computes it in doubles. When the exact rate ends in .5 the double can fall just below it, so `Math.round` rounds down there while the model rounds up: 40 completed with 17 late shows 57% in the browser and 58 here; 200 with 87 late shows 56 against 57, and 200 with 143 late 28 against 29. The bounds of CompletionRateBounds hold either way.
- `toUpperCase` and `toLowerCase` are modelled on ASCII letters only.
- The white-space set of `trim` is approximated. The model removes space, tab, line feed, carriage return, vertical tab, form feed, the no-break space (U+00A0) and the byte-order mark (U+FEFF). It keeps the rest of JavaScript's white space: U+1680, U+2000 to U+200A, U+2028, U+2029, U+202F, U+205F and U+3000.
- `decodeURIComponent` is a total parameter function: its `URIError` on malformed input is not modelled.
- `URL.createObjectURL` results and `new URL` validity are parameters.
- The server pages' sidebar highlighting in static/js/main.js:49-58 is not modelled: it is DOM work.
- The chart of the delay report lists its dates in first-counted order, the insertion order `Object.entries` gives string keys. `Object.entries` would list integer-like keys first, but formatted dates are never integer-like, so that ordering rule is not modelled.
- The chart applies `Math.round` to each day's total delay. Delays are whole minutes, so the model omits the rounding as the identity.
- `Array.prototype.sort` in the delay report is modelled as a stable insertion sort. JavaScript engines sort stably since ES2019.
- OrdersDashboard.StampKeepsOtherKeys: an order without a timeline comes back with an empty one when it is set to pending or cancelled, because spreading `undefined` gives `{}`.
- The new team member omits its sections, total delay and delays by day. Those would be undefined in JavaScript; the model holds an empty list and zeros.
- StaffCard.DepartmentText: a missing department, shown as nothing by React, is the empty text.
- Closing a dialog through its overlay or its escape key (`onOpenChange`) is modelled only where the page keeps the open flag itself.
- The knowledge card component, routing, sign-in, the layouts, the translation context and the language toggle are not part of this model. Neither is the Django back end. These contain no rules of their own beyond plumbing.
- The translated words are parameters of the formatters that print them; the translation table is not part of this model.
- The two attendance fixture checks are not modelled as lemmas. These are att1, which computes as late by two minutes although it is stored as present, and att2, which is late by fifteen. The general rule they instantiate is proved: `PerformanceStats.RowOfKnownEmployee` and `PerformanceStats.LatenessOfClockTimes`. A concrete proof over the whole staff fixture costs too much solver effort.
- Roles are texts: the role names differ between the types (`admin`, `employee`, `developer`) and the layouts (`team`, `manager`), so no set of roles is fixed.

## Findings

| source | as written | input that shows it | evidently intended | confidence | as-written member | corrected member |
|---|---|---|---|---|---|---|
| src/components/countdown/TaskTimer.tsx:31-54 | overtime starts at mount only when the elapsed time is strictly above the allowance, and a tick starts it only when the remainder goes from 1 to 0 | started exactly `allowedTime` minutes before mounting: the timer shows 00:00:00, is not in overtime, and no tick ever changes it | an elapsed time equal to the allowance is overtime by zero seconds, and each second then counts up | not executed | TaskTimer.ExactAllowanceStallsAsWritten | TaskTimer.ExactAllowanceCorrected |
| src/pages/admin/TeamManagement.tsx:59-64 | the search lower-cases `member.department` whenever the name does not match | the fixture staff, who have no department, searched for "sara@orderflow.com": `toLowerCase` of undefined throws | a member whose e-mail holds the query is shown, and a missing department matches nothing | not executed | TeamManagement.EmailSearchThrowsAsWritten | TeamManagement.EmailSearchFindsCorrected |
| src/components/ui/DataTable.tsx:64-66 | the filter keeps rows whose cell is strictly equal (`===`) to the chosen option, and the attendance table offers the options "true" and "false" for a boolean column (src/pages/admin/PerformanceStats.tsx:355-359) | any attendance table filtered on "Late" or "Present": a boolean never equals a text, so no row is left | "Late" keeps exactly the late rows, in order | not executed | DataTable.LateFilterEmptiesAsWritten | DataTable.LateFilterCorrected |
| src/components/dashboard/PerformanceReport.tsx:95-103 | the hours are floored and the minutes left over are rounded separately | an average delay of 119.5 minutes shows as "1h 60m" | round first, so the minutes part is always below 60: "2h 0m" | not executed | PerformanceReport.FormatMinutesSixtyMinutes | PerformanceReport.FormatMinutesTwoHours |
