# Attendance, billing and access laws

A model, and proofs about it, of the four stateful parts of an HR platform:

1. **Attendance sessions** – check-in, check-out, the automatic check-out cron, correction requests and
   remote approval, all of which write through one checkout core.
2. **Daily materialization** – the nightly job that gives every employee one record per day, and the leave
   and holiday events that stamp and un-stamp those records.
3. **Billing** – payment verification and webhooks, renewal, deferred plan changes, grace and expiry,
   invoice numbers.
4. **Module tree and role permissions** – the validated batch reorder with its code cascade, and the
   diff-and-apply permission update with its propagation.

`dafny verify dfyconfig.toml` checks everything.

## How it is built

Each part has three layers. A **value layer** (`Attendance`, `Materialization`, `RecordTables`, `Billing`,
`ModuleTree`, and `Saved` in `ModuleAccess`) says what one call makes of the tables as a function on plain
data, error replies included. A **service layer** (`AttendanceServices`, `RecordServices`,
`BillingServices`, `ModuleTreeService`, and the methods of `ModuleAccess`) writes rows into shared tables
one after another, in loops and with early returns, and is proved to leave exactly what the value layer
says. The **laws** are about the value layer: invariants over every run, independence of order and timing,
conservation, round trips, and the exact conditions under which they hold. The **outcomes** say of each call
which rows it leaves, when it is refused and why, in terms of the rows and columns themselves and not of the
functions that compute them. One service call or one cron run is one atomic step.

| files | contents |
|---|---|
| `Calendar`, `WeeklyOffs`, `AttendanceCalc` | Gregorian calendar with JavaScript overflow, off-day patterns, minutes, lateness, classification, cutoffs |
| `AttendanceColumns`, `AttendanceOutcomes` | what a shift's and a rule's columns ask for, and what each attendance call leaves |
| `Attendance`, `AttendanceInvariant`, `AttendanceRuns` | the session state machine, what each step keeps, and every run |
| `AutoCheckoutPass`, `AttendanceLaws`, `AttendanceExamples`, `AttendanceServices` | cron independence, laws between calls, short runs that reach the exceptional cases, the services |
| `Materialization`, `RecordTables`, `RecordServices` | one (employee, day) pair, whole tables, the services |
| `Decimals`, `InvoiceNumbers`, `NumberingLaws` | numbers as text and the count-based invoice sequence |
| `Billing`, `BillingOutcomes`, `PaymentLaws`, `SubscriptionLaws`, `BillingServices` | payments, what each billing call leaves, subscriptions over time, the services |
| `WbsOrder`, `ModuleTree`, `ModuleTreeOutcomes`, `ModuleTreeService`, `ModuleAccess` | codes and sorting, the reorder, which batches it accepts and what it leaves, the permission update |

## Modelling choices

- A `Time` is whole milliseconds since 1970-01-01 local time at a fixed UTC offset, a `Day` a number of
  days; strings such as `YYYY-MM-DD` or `HH:MM` are the numbers they denote, weekday names are 0 to 6.
- A record is keyed by (employee, date), as its unique index makes it; an employee number stands for the
  pair of organization and employee. Sessions, corrections, payments, invoices and subscriptions are
  numbered in the order of their insertion.
- A write that a unique index refuses is an error reply: a second correction of a session
  (`DuplicateCorrection`), a second remote approval of a record (`DuplicateApproval`), a gateway payment id
  used twice (`DuplicateGatewayId`), an invoice number used twice (`DuplicateNumber`). Rows that a call
  wrote before the refusal stay, as there is no transaction around them.
- `DECIMAL(4,2)` hours are integers in hundredths of an hour, overtime is in hundredths of a minute.
- A shift's grace, buffer and maximum are not nullable; None stands for a value that is not a number, which
  falls back to the default.
- Rules, shifts, weekly-off patterns and rule assignments do not change during a run. What a position says
  about the office, whether a signature is right, which organizations and plans are active, and the order in
  which a query returns rows are inputs.
- A step at which an exception is caught and counted (the audit write of the automatic check-out, any point
  of an employee's turn in the daily job) takes the fault as an input.

## Where the code does not do what one would expect

Each of these is proved with the exact condition, for all inputs:

- Remote approval and check-out commute on status and minutes except for a late full day on a record
  without a first check-in (`RemoteApprovalCommutes`; reached by `RemoteApprovalOrderMatters`); overtime and
  the half-day flag of a day that was pending at check-out are lost.
- A rejected remote day is recomputed from its minutes by a later check-out (`RejectionSurvivesCheckOut`).
- An approved correction never raises minutes, but can raise the stored overtime of a day that was closed
  while pending, and the stored status of one that was overridden (`CorrectionRaisesStored`; reached by
  `CorrectionCanRaise`).
- The entity comment "one open request per session" (`attendance-correction-request.entity.ts:5-9`) is
  enforced more strictly: the index refuses a second request even after the first was decided.
- The batch limit of the automatic check-out takes sessions by check-in, due or not
  (`LimitedPassComplete`).
- `docs/prd/attendance-daily-cron.md:102` lets a holiday outrank a leave. The daily job does so, but the
  events do not: a holiday created after a leave was approved leaves ON_LEAVE (`LeaveAndHolidayOrder`). An
  ABSENT record on a weekly-off day is upgraded by the job and left alone by the events
  (`JobAndLeaveCommute`, `JobAndHolidayCommute`).
- Without a Saturday rule every Saturday is worked, even one left out of the working days
  (`SaturdayMismatch`). An update of a CUSTOM pattern that does not repeat the rule drops its Saturdays
  (`CustomSaturdaysDropped`).
- `payment.failed` on a paid invoice undoes the payment and lets a replayed success renew again
  (`FailureEventKeeps`, `LateFailureRenewsTwice`). Verification, unlike the webhook, renews for a second
  payment of a paid invoice (`VerifyAlwaysRenews`).
- With a negative grace period one run of the expiry cron expires a subscription (`OnePassExpires`).
- A reorder accepts a three-level chain, because it checks parents as they were before the batch
  (`ReorderKeepsForest`, `ChainIsAccepted`).
- Saving back an unchanged permission list drops grants that the list does not show (`SaveBackUnchanged`),
  and unchecking a grant leaves a cleared row behind, since the row is saved after it was deleted
  (`UpdatePermissionsList`).

## Model

| member | source | states |
|---|---|---|
| AttendanceRuns.RunKeeps | src/modules/attendance/services/attendance.service.ts:75-500 | every run of check-ins, check-outs, cron passes, corrections, remote decisions, daily jobs and syncs under a non-decreasing clock keeps the whole invariant |
| AttendanceRuns.ReachableSessions | src/modules/attendance/services/attendance.service.ts:75-215 | from empty tables: of two sessions of an employee the earlier one is closed no later than the later one begins; a closed session ends between its check-in and now; an automatically closed one, corrected or not, ends within its cutoff |
| AttendanceInvariant.OneOpenNoOverlap | src/modules/attendance/services/attendance.service.ts:82-90 | at most one open session per employee, and no two overlap, under the invariant |
| AttendanceRuns.ReachableWorked | src/modules/attendance/services/attendance.service.ts:457-467 | in every reachable state a record's minutes are the sum over its closed sessions, and for n of them inside a window exceed the window by at most n half minutes |
| AttendanceInvariant.WorkedIsConserved | src/modules/attendance/services/attendance.service.ts:457-497 | the same bound from both sides: minutes differ from the time between check-ins and check-outs by at most half a minute per closed session |
| AttendanceInvariant.TotalIsWorked | src/modules/attendance/services/attendance.service.ts:457-467 | the re-aggregating fold of the checkout core equals the sum over the record's closed sessions |
| AttendanceInvariant.CheckInKeeps | src/modules/attendance/services/attendance.service.ts:75-228 | a check-in keeps the invariant, including when it fails half-way |
| AttendanceInvariant.CheckInShape | src/modules/attendance/services/attendance.service.ts:169-215 | a check-in changes nothing, or opens one session now on today's record, keeping an existing record's totals and first check-in |
| AttendanceInvariant.ApplyCheckoutKeeps | src/modules/attendance/services/attendance.service.ts:417-500 | closing an open session, or bringing a closed one forward, keeps the invariant |
| AttendanceInvariant.CloseAllKeeps | src/modules/attendance/services/auto-checkout.service.ts:80-155 | so does the cron's loop over any sessions in any order |
| AttendanceInvariant.SubmitKeeps | src/modules/attendance/services/correction-request.service.ts:41-111 | filing a correction keeps every pending request within its session's check-in and check-out |
| AttendanceInvariant.ApproveCorrectionKeeps | src/modules/attendance/services/correction-request.service.ts:113-169 | approving a correction keeps sessions disjoint, minutes conserved and cutoffs respected |
| AttendanceInvariant.RejectCorrectionKeeps | src/modules/attendance/services/correction-request.service.ts:171-187 | so does rejecting one |
| AttendanceInvariant.RemoteKeeps | src/modules/attendance/services/remote-approval.service.ts:59-153 | so do both remote decisions |
| AttendanceRuns.StatusOnlyKeeps | src/modules/attendance/services/attendance-materialization.service.ts:164-214 | whatever only sets status and source, or adds an empty configured record, keeps the invariant |
| AttendanceRuns.MaterializationShape | src/modules/attendance/services/attendance-materialization.service.ts:93-527 | the daily job and all four events are of that kind: minutes, overtime and check-ins are never touched |
| AttendanceCalc.DiffMinutesBounds | src/modules/attendance/services/attendance-calc.util.ts:53-62 | rounding costs at most half a minute, and a later end never counts for less |
| AttendanceCalc.ClassifyMonotone | src/modules/attendance/services/attendance-calc.util.ts:90-131 | more minutes never mean a lower-ranked status or less overtime |
| AttendanceCalc.CutoffWindow | src/modules/attendance/services/attendance-calc.util.ts:145-197 | for every shift the cutoff lies after the check-in and within the rounded session maximum |
| AttendanceCalc.CutoffMonotone | src/modules/attendance/services/attendance-calc.util.ts:145-197 | for a fixed shift a later check-in never has an earlier cutoff, across midnight and night shifts |
| AttendanceColumns.TimeCapIsNextClosing | src/modules/attendance/services/attendance-calc.util.ts:184-189 | the time cap is the first instant after the check-in at which the shift's closing time of day comes round, from its shift end on |
| AttendanceColumns.CutoffFromColumns | src/modules/attendance/services/attendance-calc.util.ts:136-197 | an instant is the cutoff if and only if it is the earlier of two: the shift end (for a night shift the first such time of day after the check-in, for a day shift the one on its day) plus overtime grace and sync buffer or their defaults, a day on if that is not after the check-in; and the check-in plus the session maximum or 14 hours |
| AttendanceColumns.ClassifyFits | src/modules/attendance/services/attendance-calc.util.ts:90-131 | the status follows from minutes, half-day and full-day hours and lateness; overtime is what the minutes exceed the threshold by, and none without a threshold |
| AttendanceColumns.LatenessFromColumns | src/modules/attendance/services/attendance-calc.util.ts:64-76 | late means a whole minute or more past the shift start and its grace, by the time of day |
| AttendanceColumns.MinutesFromInstants | src/modules/attendance/services/attendance-calc.util.ts:53-62 | minutes are the nearest whole number, halves up, and never negative |
| AutoCheckoutPass.LoopHasEffect | src/modules/attendance/services/auto-checkout.service.ts:80-155 | the loop, in any order and with repetitions, closes each due session at its own cutoff, and leaves each record as closing its session alone would |
| AutoCheckoutPass.EffectIsUnique | src/modules/attendance/services/auto-checkout.service.ts:80-155 | that description determines the tables |
| AutoCheckoutPass.PassOrderIrrelevant | src/modules/attendance/services/auto-checkout.service.ts:74-80 | the order of the open sessions does not matter |
| AutoCheckoutPass.EarlierPassIrrelevant | src/modules/attendance/services/auto-checkout.service.ts:66-158 | a full pass leaves the same tables whether or not an earlier pass, of any batch size, ran |
| AutoCheckoutPass.CronTimingIrrelevant | src/modules/attendance/services/auto-checkout.service.ts:52-74 | the same for any number of earlier passes at any instants |
| AutoCheckoutPass.LimitedPassComplete | src/modules/attendance/services/auto-checkout.service.ts:27-78 | a limited pass does all the work if and only if no due session is beyond the first `limit` open ones |
| AutoCheckoutPass.BatchMembers | src/modules/attendance/services/auto-checkout.service.ts:74-78 | a batch holds exactly the open sessions with fewer than `limit` open ones before them |
| AttendanceOutcomes.PassOutcome | src/modules/attendance/services/auto-checkout.service.ts:80-126 | a pass closes a session if and only if it is in the batch, its shift allows it and its cutoff is past; it then ends at the cutoff with the minutes up to it, and its record is checked out then with the day's minutes, overtime and status by the columns |
| AttendanceOutcomes.PassElsewhere | src/modules/attendance/services/auto-checkout.service.ts:87-111 | sessions without a rule and shift, records without a closed session, corrections and approvals stay |
| AttendanceServices.ProcessOpenSessions | src/modules/attendance/services/auto-checkout.service.ts:66-158 | the loop leaves the tables of the pass; processed and errors count the sessions it closed, without and with an audit fault, and all counters together the open sessions up to the limit |
| AttendanceServices.DueAfterPass | src/modules/attendance/services/auto-checkout.service.ts:80-111 | a session the loop has not reached is due exactly if it was due before the loop |
| AttendanceServices.CheckIn | src/modules/attendance/services/attendance.service.ts:75-228 | the row-by-row check-in leaves the tables and the reply of the value-level step, error cases included |
| AttendanceServices.SumSessions | src/modules/attendance/services/attendance.service.ts:457-467 | the re-read loop computes the day's total |
| AttendanceServices.ApplyCheckout | src/modules/attendance/services/attendance.service.ts:417-500 | session row, re-aggregation and record row together are the value-level core |
| AttendanceServices.CheckOut | src/modules/attendance/services/attendance.service.ts:337-392 | closes the latest open session, or reports an earlier check-out of today, or refuses |
| AttendanceServices.CloseIfDue | src/modules/attendance/services/auto-checkout.service.ts:80-126 | one turn of the cron closes its session exactly if it is due |
| AttendanceServices.SubmitCorrection | src/modules/attendance/services/correction-request.service.ts:41-111 | the checks in their order, the request row and the mark on the record |
| AttendanceServices.ApproveCorrection | src/modules/attendance/services/correction-request.service.ts:113-169 | re-runs the core at the requested time and marks record and request |
| AttendanceServices.RejectCorrection | src/modules/attendance/services/correction-request.service.ts:171-187 | marks request and record only |
| AttendanceServices.ApproveRemote | src/modules/attendance/services/remote-approval.service.ts:59-112 | sets the decision and the status the recorded minutes call for |
| AttendanceServices.RejectRemote | src/modules/attendance/services/remote-approval.service.ts:114-153 | sets the decision and ABSENT |
| AttendanceServices.GetToday | src/modules/attendance/services/attendance.service.ts:502-621 | the seconds of the live counter |
| AttendanceOutcomes.CheckInOutcome | src/modules/attendance/services/attendance.service.ts:105-228 | a check-in that is not refused appends one open session of today with its mode; a missing record is created with lateness and status by the shift columns, an existing one keeps all but last check-out and status; a remote one asks for approval |
| AttendanceOutcomes.CheckInRefused | src/modules/attendance/services/attendance.service.ts:82-146 | every other check-in changes nothing, and which refusal comes first |
| AttendanceOutcomes.NoRuleNoCheckIn | src/modules/attendance/services/attendance.service.ts:76-80 | without a rule and shift no check-in |
| AttendanceOutcomes.CheckOutOutcome | src/modules/attendance/services/attendance.service.ts:337-500 | a check-out closes the open session now with the rounded minutes; its record gets the day's minutes and, unless it awaits a remote decision, the overtime and status the columns call for |
| AttendanceOutcomes.CheckOutRefused | src/modules/attendance/services/attendance.service.ts:342-378 | without an open session or a rule nothing changes, and what is answered |
| AttendanceOutcomes.SubmitOutcome | src/modules/attendance/services/correction-request.service.ts:41-111 | a request is taken if and only if it is the employee's own automatically closed session, within its check-in and check-out, and the first for it; then the request row and the mark |
| AttendanceOutcomes.SubmitRefused | src/modules/attendance/services/correction-request.service.ts:48-89 | which reason a request is turned down for |
| AttendanceOutcomes.ApproveCorrectionOutcome | src/modules/attendance/services/correction-request.service.ts:113-168 | the session ends at the requested time, the record is checked out anew with the session's old minutes replaced, the request is APPROVED, and nothing else changes |
| AttendanceOutcomes.ApproveCorrectionRefused | src/modules/attendance/services/correction-request.service.ts:129-146 | only a pending request of a configured employee is approved |
| AttendanceOutcomes.BrokenRows | src/modules/attendance/services/correction-request.service.ts:126-133 | what is answered where a session, a record, or a record's shift or rule is missing |
| AttendanceOutcomes.TotalTakesLarger | src/modules/attendance/services/attendance.service.ts:458-467 | in any tables, whatever was stored: one more session adds the closing minutes if it is the one being closed, otherwise the larger of its stored and its spanned minutes, or nothing while it is open |
| AttendanceOutcomes.RejectCorrectionOutcome | src/modules/attendance/services/correction-request.service.ts:171-215 | a rejection writes REJECTED to request and record and nothing else |
| AttendanceOutcomes.ApproveRemoteOutcome | src/modules/attendance/services/remote-approval.service.ts:73-112 | approval sets the decision and the status that recorded minutes and first check-in call for, and nothing else |
| AttendanceOutcomes.RejectRemoteOutcome | src/modules/attendance/services/remote-approval.service.ts:128-153 | rejection sets the decision and ABSENT, and nothing else |
| AttendanceOutcomes.RemoteRefused | src/modules/attendance/services/remote-approval.service.ts:64-84 | without a pending approval, a record or (to approve) a rule nothing changes |
| AttendanceOutcomes.TodayWithOpenSession | src/modules/attendance/services/attendance.service.ts:561-602 | with a session open, of whatever day, the counter is today's recorded minutes plus its whole seconds |
| AttendanceOutcomes.TodayIdle | src/modules/attendance/services/attendance.service.ts:572-589 | with none open, the recorded minutes or, if these are 0, the span of the day |
| AttendanceLaws.CheckOutAdds | src/modules/attendance/services/attendance.service.ts:337-392 | a check-out adds the session's rounded minutes to the day's and changes nothing else |
| AttendanceLaws.RemoteApprovalCommutes | src/modules/attendance/services/remote-approval.service.ts:81-106 | approving before or after check-out gives the same minutes, and the same status if and only if the day is not a late full one without a first check-in; the whole record agrees under a stated further condition |
| AttendanceExamples.RemoteApprovalOrderMatters | src/modules/attendance/services/remote-approval.service.ts:86-94 | a run from empty tables that reaches the exception |
| AttendanceLaws.RejectionSurvivesCheckOut | src/modules/attendance/services/remote-approval.service.ts:144-147 | a rejected day stays ABSENT after check-out if and only if its minutes do not make half a day |
| AttendanceLaws.ApprovalEffect | src/modules/attendance/services/correction-request.service.ts:113-161 | what an approved correction makes of session and record: the check-out moves back within check-in and cutoff, the total changes by that session's minutes |
| AttendanceLaws.CorrectionShrinks | src/modules/attendance/services/correction-request.service.ts:148-155 | approval never raises minutes, the overtime they call for, or the rank of the status they call for |
| AttendanceLaws.CorrectionRaisesStored | src/modules/attendance/services/attendance.service.ts:475-495 | the stored overtime, and the stored status, rise if and only if they had been suppressed or overridden and the corrected minutes still earn them |
| AttendanceExamples.CorrectionCanRaise | src/modules/attendance/services/correction-request.service.ts:113-161 | a run from empty tables in which an approved correction lowers minutes and raises overtime, and status if the remote day was rejected |
| AttendanceLaws.LiveCounterAccurate | src/modules/attendance/services/attendance.service.ts:561-602 | with today's session open the counter is within 30 seconds of the minutes a check-out now would record |
| AttendanceLaws.IdleCounter | src/modules/attendance/services/attendance.service.ts:572-589 | with none open it shows the recorded minutes if and only if the span fallback does not apply |
| Calendar.CycleLength | src/modules/billing/services/payment.service.ts:370-378 | a monthly cycle advances by the length of the month it starts in, an annual one by 365 or 366 days |
| Calendar.MonthlyOverflow | src/modules/billing/services/payment.service.ts:374-376 | it keeps the day of the month if and only if the next month has it, else overflows by at most three days |
| Calendar.WeekOfMonthIsRank | src/modules/attendance/services/attendance-calc.util.ts:217-221 | the week of the month is the day's rank among the month's days of its weekday |
| Calendar.MonthStartIsCivil | src/modules/billing/services/payment.service.ts:370-378 | the months, added up from their lengths, begin where the closed form of the Gregorian calendar says |
| Calendar.WeekdaysAnchored | src/modules/attendance/services/attendance-calc.util.ts:201-215 | weekdays follow one another, and 1 January 2000 was a Saturday |
| WeeklyOffs.CreatedPattern | src/modules/attendance/services/weekly-off.service.ts:37-67 | what a created pattern frees, from the request: weekdays not worked, Saturdays by rule and rank |
| WeeklyOffs.SaturdayMismatch | src/modules/attendance/services/attendance-calc.util.ts:254-256 | without a Saturday rule, off means not worked except exactly on Saturdays left out of the working days |
| WeeklyOffs.OddEvenPartition | src/modules/attendance/services/attendance-calc.util.ts:248-253 | each Saturday is off under exactly one of ODD_OFF and EVEN_OFF, and ODD_OFF is the custom list 1, 3, 5 |
| WeeklyOffs.ChangedPattern | src/modules/attendance/services/weekly-off.service.ts:104-130 | what an updated pattern frees, from the stored pattern and the request |
| WeeklyOffs.CustomSaturdaysDropped | src/modules/attendance/services/weekly-off.service.ts:124-127 | an update that leaves rule and working days out changes exactly the free Saturdays of a CUSTOM pattern |
| RecordTables.DailyMarkingTotal | src/modules/attendance/services/attendance-materialization.service.ts:128-228 | employee by employee: nothing changes outside the window, without a rule or when cut off before the write; a missing row is created by weekly-off, holiday, leave, absent; an ABSENT one becomes HOLIDAY on a holiday, else ON_LEAVE on a leave day; every other one is kept |
| RecordTables.DailyMarkingElsewhere | src/modules/attendance/services/attendance-materialization.service.ts:158-191 | rows of other employees and other days stay |
| RecordTables.TallyFromRows | src/modules/attendance/services/attendance-materialization.service.ts:131-236 | what a turn counts as can be told from its row before and after and its fault |
| RecordTables.DailyMarkingIdempotent | src/modules/attendance/services/attendance-materialization.service.ts:89-95 | after a run with any faults, a clean run in any order leaves what one clean run would have left |
| RecordTables.DailyPointwise | src/modules/attendance/services/attendance-materialization.service.ts:128-237 | the loop over a roster does to each row what that employee's turn alone does |
| RecordServices.RunDailyAbsentMarking | src/modules/attendance/services/attendance-materialization.service.ts:93-246 | the nested loops leave the table of one turn per employee with an organization; each counter is the number of employees whose row before and after tells that outcome, and all sum to their number |
| RecordServices.MarkOne | src/modules/attendance/services/attendance-materialization.service.ts:129-236 | one turn, with its cached rule and its fault |
| RecordServices.GroupByOrg | src/modules/attendance/services/attendance-materialization.service.ts:114-121 | the grouping partitions the covered employees with an organization |
| RecordServices.OnLeaveEmployeeIds | src/modules/attendance/services/attendance-materialization.service.ts:544-558 | exactly the employees with an approved leave over the date |
| RecordServices.ResolveRule | src/modules/attendance/services/attendance-materialization.service.ts:560-577 | a cached answer equals a direct look-up |
| RecordServices.DailyOrderIrrelevant | src/modules/attendance/services/attendance-materialization.service.ts:123-128 | neither table nor counters depend on the order of organizations and rosters |
| RecordServices.EachDay | src/modules/attendance/services/attendance-materialization.service.ts:637-649 | the cursor loop lists every day of the range once, in order |
| RecordServices.SyncLeaveToAttendance | src/modules/attendance/services/attendance-materialization.service.ts:278-351 | stamps each day of an approved leave as the value-level sync says |
| RecordServices.ReverseLeaveSync | src/modules/attendance/services/attendance-materialization.service.ts:354-403 | reverts AUTO ON_LEAVE days to their natural status |
| RecordServices.SyncHolidayToAttendance | src/modules/attendance/services/attendance-materialization.service.ts:406-477 | stamps the covered employees of the organization |
| RecordServices.ReverseHolidaySync | src/modules/attendance/services/attendance-materialization.service.ts:480-527 | reverts every AUTO HOLIDAY record of the organization on the date, in any order |
| RecordTables.LeaveSyncOutcome | src/modules/attendance/services/attendance-materialization.service.ts:293-344 | a leave stamps exactly its days that are no weekly-off day and no holiday: missing rows are created, ABSENT ones upgraded |
| RecordTables.LeaveReverseOutcome | src/modules/attendance/services/attendance-materialization.service.ts:368-396 | exactly the AUTO ON_LEAVE rows of its days become weekly-off, else holiday, else absent |
| RecordTables.HolidaySyncOutcome | src/modules/attendance/services/attendance-materialization.service.ts:416-470 | a holiday stamps exactly the covered employees of its organization with a rule, except on their weekly-off days |
| RecordTables.HolidayReverseOutcome | src/modules/attendance/services/attendance-materialization.service.ts:490-518 | exactly the AUTO HOLIDAY rows of the date become weekly-off, else absent |
| RecordTables.LeaveSyncReverse | src/modules/attendance/services/attendance-materialization.service.ts:278-403 | sync then reverse restores every status if and only if no day held an AUTO ON_LEAVE record; everything but status and source survives, and created records end ABSENT |
| RecordTables.HolidaySyncReverse | src/modules/attendance/services/attendance-materialization.service.ts:406-527 | the same for holidays and AUTO HOLIDAY records |
| RecordTables.JobAndLeaveCommute | src/modules/attendance/services/attendance-materialization.service.ts:153-344 | job then leave sync, or sync then job, leave the same table if and only if the employee has no ABSENT record on a weekly-off day |
| RecordTables.JobAndHolidayCommute | src/modules/attendance/services/attendance-materialization.service.ts:153-470 | the same for a holiday and a whole roster |
| Materialization.LeaveAndHolidayOrder | src/modules/attendance/services/attendance-materialization.service.ts:303-313 | a leave and a holiday on one day give the same record in either order if and only if neither may touch the day |
| PaymentLaws.EveryRun | src/modules/billing/services/payment.service.ts:188-353 | in every run in which failures only reach unpaid invoices: SUCCESS means its invoice is PAID, and an invoice renews at most once per successful payment and at least once when PAID |
| PaymentLaws.VerifyKeeps | src/modules/billing/services/payment.service.ts:188-242 | verification keeps that and renews exactly when it reports success |
| PaymentLaws.SuccessEventKeeps | src/modules/billing/services/payment.service.ts:283-295 | a success event keeps it and renews exactly when it reaches an invoice not yet paid |
| PaymentLaws.FailureEventKeeps | src/modules/billing/services/payment.service.ts:296-307 | a failure event keeps it if and only if it is dropped or reaches an unpaid invoice |
| PaymentLaws.LateFailureRenewsTwice | src/modules/billing/services/payment.service.ts:247-308 | capture, late failure, replayed capture: one successful payment, two renewals |
| PaymentLaws.PaidForGood | src/modules/billing/services/payment.service.ts:247-308 | while failures only reach unpaid invoices, a paid invoice stays paid and no webhook renews it again |
| PaymentLaws.SuccessReplay | src/modules/billing/services/payment.service.ts:259-295 | a success event delivered twice renews no more than delivered once |
| PaymentLaws.VerifyAndWebhookCommute | src/modules/billing/services/payment.service.ts:188-308 | verification and capture of one payment, in either order, end in the same tables with one renewal; the second changes nothing |
| PaymentLaws.VerifyAlwaysRenews | src/modules/billing/services/payment.service.ts:209-235 | verification renews if and only if its payment had not succeeded, whatever the invoice's status |
| BillingServices.Verify | src/modules/billing/services/payment.service.ts:188-242 | the row-by-row verification leaves the tables and reply of the value-level step |
| BillingServices.HandleWebhook | src/modules/billing/services/payment.service.ts:247-326 | likewise the webhook, with its matching by link and then by order |
| BillingServices.RenewSubscriptionForInvoice | src/modules/billing/services/payment.service.ts:328-353 | likewise the renewal |
| BillingOutcomes.SuccessOutcome | src/modules/billing/services/payment.service.ts:259-295 | payment.captured, order.paid and payment_link.paid, matched by link and else by order: the payment succeeds with the event's ids, its unpaid invoice is PAID and renews its subscription once, and no other row changes |
| BillingOutcomes.FailureOutcome | src/modules/billing/services/payment.service.ts:296-307 | a failure marks the matched payment and its invoice, paid or not; other kinds of events change nothing |
| BillingOutcomes.WebhookIgnored | src/modules/billing/services/payment.service.ts:259-272 | an event without a payment, or with a gateway id that is in use, changes nothing |
| BillingOutcomes.VerifyOutcome | src/modules/billing/services/payment.service.ts:222-241 | a verification that is let through marks the payment, its invoice and its subscription, and nothing else |
| BillingOutcomes.VerifyRefused | src/modules/billing/services/payment.service.ts:194-220 | bad signature, unknown order, foreign organization, repetition and a gateway id in use change nothing, and how each is answered |
| BillingOutcomes.InitiateOutcome | src/modules/billing/services/payment.service.ts:68-98 | a new payment exactly for an invoice of the organization that is not PAID |
| BillingOutcomes.RenewSubOutcome | src/modules/billing/services/payment.service.ts:332-349 | the end date is one cycle of the invoice after the end date or now, whichever is later; a pending plan and cycle take effect if billed |
| SubscriptionLaws.RenewalsAdvance | src/modules/billing/services/payment.service.ts:332-339 | after k renewals the end date lies after the last one and at least 28 k days past the first base |
| SubscriptionLaws.ExpiryTakesTwoPasses | src/modules/billing/crons/subscription-expiry.cron.ts:29-66 | EXPIRED comes only from a run that found the end date passed and a later run past the grace period, with no renewal from the first on |
| SubscriptionLaws.GraceHasCause | src/modules/billing/crons/subscription-expiry.cron.ts:45-52 | GRACE comes only from such a first run, whose grace end the subscription still carries |
| SubscriptionLaws.OnePassExpires | src/modules/billing/crons/subscription-expiry.cron.ts:31-65 | one run takes TRIAL or ACTIVE to EXPIRED if and only if it is overdue and the grace period negative |
| SubscriptionLaws.ExpiryIdempotent | src/modules/billing/crons/subscription-expiry.cron.ts:29-66 | a second run at the same instant changes nothing |
| BillingServices.RunExpiry | src/modules/billing/crons/subscription-expiry.cron.ts:29-66 | the two loops do to every subscription what both passes do to it alone |
| BillingOutcomes.ExpiryOutcome | src/modules/billing/crons/subscription-expiry.cron.ts:29-66 | which subscriptions a run moves, to what status and grace end, and that it leaves all others alone |
| SubscriptionLaws.DeferredChange | src/modules/billing/services/subscription-billing.service.ts:74-126 | a deferred change, billed by the cron and paid, becomes exactly the plan and cycle with nothing pending; cancelled before payment, paying leaves both as they were |
| SubscriptionLaws.DeferredChangeCancelledEarly | src/modules/billing/services/subscription-billing.service.ts:117-126 | cancelled before the cron, the invoice bills the old plan and cycle |
| SubscriptionLaws.PaymentAppliesPending | src/modules/billing/services/payment.service.ts:341-349 | a payment applies both halves of a pending change if and only if its invoice bills them |
| SubscriptionLaws.BillRenewalsAppends | src/modules/billing/crons/renewal-invoice.cron.ts:39-76 | the cron only appends invoices, each for a due subscription's effective plan and cycle from its renewal date |
| BillingServices.RunRenewals | src/modules/billing/crons/renewal-invoice.cron.ts:27-77 | the loop does that, skipping inactive plans and refused numbers |
| BillingServices.ChangePlan | src/modules/billing/services/subscription-billing.service.ts:43-115 | deferred and immediate changes, with their refusals |
| BillingServices.CancelPendingChange | src/modules/billing/services/subscription-billing.service.ts:117-126 | clears both halves, or refuses when neither is set |
| BillingOutcomes.RenewalCronOutcome | src/modules/billing/crons/renewal-invoice.cron.ts:28-76 | on a numbered table the cron makes exactly one invoice for each active subscription due today whose plan is on offer, in order, for its pending plan and cycle where it has any and one cycle from its renewal date |
| BillingOutcomes.ChangePlanOutcome | src/modules/billing/services/subscription-billing.service.ts:59-114 | a change waits exactly if it is no trial, no higher tier and no move to annual; otherwise the subscription ends now and a new one with its invoice starts |
| BillingOutcomes.ChangePlanRefused | src/modules/billing/services/subscription-billing.service.ts:49-65 | unknown subscription or plans, and the plan and cycle one is on, change nothing |
| BillingOutcomes.CancelPendingOutcome | src/modules/billing/services/subscription-billing.service.ts:117-126 | a pending plan or cycle is cleared as a whole; none pending is refused |
| NumberingLaws.InvoiceNumbering | src/modules/billing/services/invoice.service.ts:94-96 | from an empty table any bills in any order get globally distinct numbers, and a month with n invoices has exactly the sequences 1 to n |
| NumberingLaws.GenerateKeepsNumbers | src/modules/billing/services/invoice.service.ts:80-128 | in a numbered table generating never meets a taken number and keeps the table numbered |
| BillingOutcomes.GenerateOutcome | src/modules/billing/services/invoice.service.ts:80-128 | the invoice that is made, column by column, and that nothing else changes |
| NumberingLaws.PrefixCountsMonth | src/modules/billing/repositories/invoice.repository.ts:71-79 | the text search counts exactly the month's invoices |
| InvoiceNumbers.MonthKeyIdentifies | src/modules/billing/services/invoice.service.ts:169-173 | two instants have the same month key if and only if they lie in the same month |
| InvoiceNumbers.PrefixIdentifies | src/modules/billing/repositories/invoice.repository.ts:72-76 | a number starts with a month's prefix if and only if it is of that month |
| InvoiceNumbers.NumberIdentifies | src/modules/billing/services/invoice.service.ts:96 | a number determines its month key and its sequence, beyond four digits too |
| InvoiceNumbers.NumberReads | src/modules/billing/services/invoice.service.ts:96 | a number is BRL-, the month key, a dash and the sequence padded to four digits |
| InvoiceNumbers.MonthKeyReads | src/modules/billing/services/invoice.service.ts:169-173 | a month key is the year and the two-digit month the closed form of the calendar puts the instant in |
| BillingServices.GenerateInvoice | src/modules/billing/services/invoice.service.ts:80-128 | the invoice row, or the refusal of a taken number |
| ModuleTree.ReorderKeepsForest | src/modules/app-module/services/app-module.service.ts:99-156 | an accepted batch keeps the active modules a two-level forest if and only if no update of an active module names a parent the batch demotes |
| ModuleTree.ChainIsAccepted | src/modules/app-module/services/app-module.service.ts:106-123 | three modules and an accepted batch that makes three levels of them |
| ModuleTreeOutcomes.AcceptedExactly | src/modules/app-module/services/app-module.service.ts:73-145 | a batch is accepted if and only if it is not empty, its ids are distinct, found and of one app, top-level updates have no parent, sub-modules name a top-level module of the app, and every active child of a demoted module gets another parent |
| ModuleTreeOutcomes.RefusedFor | src/modules/app-module/services/app-module.service.ts:77-144 | a refused batch changes nothing; the reply is about the whole batch, or about the first update at fault |
| ModuleTreeOutcomes.ReorderOutcome | src/modules/app-module/services/app-module.service.ts:147-198 | every row after an accepted batch: as its own update places it, and with root.rank as its code exactly under a root whose code changed, the rank being its place by suffix and then by row order |
| ModuleTree.ChildrenRestamped | src/modules/app-module/services/app-module.service.ts:172-192 | the children of a root whose code changed are exactly root.1 to root.n in their former suffix order, and the root has its new code |
| ModuleTree.RestampedInOrder | src/modules/app-module/services/app-module.service.ts:181-198 | the new codes read back as the ranks |
| ModuleTree.ReorderKeepsCodes | src/modules/app-module/services/app-module.service.ts:159-193 | "a child's code extends its parent's" survives over the whole tree if and only if the batch's codes under unchanged parents extend them |
| ModuleTree.MoveAllPointwise | src/modules/app-module/repositories/app-module.repository.ts:69-79 | distinct moves leave each row as its own move says |
| ModuleTree.CascadeHasEffect | src/modules/app-module/services/app-module.service.ts:178-192 | the cascade does to each row what its own root's ranking says, although later roots re-read the table |
| WbsOrder.StampReadsBack | src/modules/app-module/services/app-module.service.ts:195-198 | the suffix parsed from a stamped code is the rank it was stamped with |
| WbsOrder.SortSorts | src/modules/app-module/services/app-module.service.ts:179-181 | sorting by suffix permutes the children and orders them |
| WbsOrder.SortStays | src/modules/app-module/services/app-module.service.ts:179-181 | the sort is stable |
| WbsOrder.SuffixReads | src/modules/app-module/services/app-module.service.ts:195-198 | the suffix is what follows the last dot, read with white space skipped, its sign and its leading digits; 0 without any |
| ModuleTreeService.Reorder | src/modules/app-module/services/app-module.service.ts:72-157 | the validation loop with its early exits and the two write phases give the value-level reply and table |
| ModuleTreeService.CascadeChildrenWbs | src/modules/app-module/services/app-module.service.ts:168-193 | the loop over changed roots is the cascade |
| ModuleTreeService.BulkMove | src/modules/app-module/repositories/app-module.repository.ts:69-79 | the row updates are the moves in order |
| ModuleTreeService.FindChildren | src/modules/app-module/repositories/app-module.repository.ts:62-66 | the active children in row order |
| ModuleAccess.UpdatePermissionsList | src/modules/app-module/services/module-access.service.ts:278-348 | after the delete, update and insert phases the role's grants are exactly the checked keys; other roles' rows are untouched |
| ModuleAccess.Diff | src/modules/app-module/services/module-access.service.ts:295-315 | the rows to update are those whose flag differs from the payload, the inserts the checked keys without a row, each once |
| ModuleAccess.Removals | src/modules/app-module/services/module-access.service.ts:319-328 | the rows to delete are those not checked in the payload |
| ModuleAccess.UpdateTwice | src/modules/app-module/services/module-access.service.ts:317-340 | saving the same form twice grants the same and clears the leftover rows |
| ModuleAccess.GetPermissionsList | src/modules/app-module/services/module-access.service.ts:202-276 | every listed permission once, checked if and only if granted |
| ModuleAccess.SaveBackUnchanged | src/modules/app-module/services/module-access.service.ts:202-348 | saving back an unchanged list keeps exactly the listed grants, and all grants if and only if all are listed |
| ModuleAccess.PropagateToOrgRoles | src/modules/app-module/services/module-access.service.ts:361-398 | an organization role gains exactly the checked keys it had no row for; no existing row changes |

## Left out

- Daylight saving: the UTC offset is fixed, so a local day always has 24 hours.
- Floating point: hours times 60 are exact here, while a product such as 1.10 * 60 is rounded in the source; an integer overtime column would refuse a fraction of a minute. An overtime threshold of 0 reads as absent, as it does for a number; a driver that returns the text "0.00" would switch it on.
- Distance and geo-fences, notifications, events, audit rows, PDF files and gateway calls: their outcome is an input or does not feed back into the tables.
- The failure branch of a payment link, amounts, tax and rounding of money, due dates and line items.
- Exceptions inside the leave and holiday events; faults are modelled for the automatic check-out and the daily job.
- Closing of expired correction windows, reminders before an automatic check-out, and manual edits by an administrator, which deliberately override session totals.
- Status change and deletion of weekly-off patterns; create, update and remove of modules; single grants by code.
- The query behind `findActiveByOrganization` and the rule resolver's priorities are not part of this model: the newest subscription that is not cancelled, and one effective rule per employee, stand for them.
- Interleaving of two calls: each call or cron run is one step, so two concurrent check-ins or two concurrent invoice numbers are not modelled. Propagation to organization roles, which the source starts without waiting for it, is a step of its own.
- The query of modules per application: modules and actions come as lists without repetition.
