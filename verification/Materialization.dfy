/**
 Daily materialization and the leave and holiday syncs, one (employee, day) pair at a time and then
 over the whole record table.
 */
module Materialization {
  import opened Prelude
  import opened Calendar
  import opened AttendanceCalc
  import opened WeeklyOffs
  import opened Attendance

  /** `covered` is an employee status of ACTIVE or OFFBOARDING. */
  datatype Employee = Employee(id: nat, org: Option<nat>, covered: bool, joining: Option<Day>, lastWorking: Option<Day>)

  /** What the daily job counts for an employee. */
  datatype Tally = Skipped | WeeklyOffCreated | HolidayCreated | LeaveCreated | AbsentCreated | Upgraded | Failed

  /** Where an exception interrupts an employee's turn: before the record is written, or in the audit write after it. */
  datatype Fault = NoFault | BeforeWrite | AfterWrite

  datatype Assigned = Assigned(ruleId: nat, rule: Rule)

  function RuleFor(cfg: Config, emp: nat): Option<Assigned> {
    if emp in cfg.assignments && cfg.assignments[emp] in cfg.rules
    then Some(Assigned(cfg.assignments[emp], cfg.rules[cfg.assignments[emp]]))
    else None
  }

  predicate IsOff(rule: Rule, date: Day) {
    rule.weeklyOff.Some? && IsWeeklyOffDay(date, rule.weeklyOff.value)
  }

  function AutoRecord(a: Assigned, status: Status): Record {
    Record(Some(a.ruleId), Some(a.rule.shiftId), None, None, 0, 0, false, None, false, false, status, None, false, None, Auto)
  }

  function Stamped(rec: Record, status: Status): Record {
    rec.(status := status, source := Auto)
  }

  predicate InWindow(e: Employee, date: Day) {
    !(e.joining.Some? && date < e.joining.value) && !(e.lastWorking.Some? && date > e.lastWorking.value)
  }

  // ---- one employee, one day --------------------------------------------------------------------

  datatype DailyResult = DailyResult(rec: Option<Record>, tally: Tally)

  function DailyCreated(a: Assigned, date: Day, holiday: bool, onLeave: bool): DailyResult {
    if IsOff(a.rule, date) then DailyResult(Some(AutoRecord(a, WeeklyOffDay)), WeeklyOffCreated)
    else if holiday then DailyResult(Some(AutoRecord(a, Holiday)), HolidayCreated)
    else if onLeave then DailyResult(Some(AutoRecord(a, OnLeave)), LeaveCreated)
    else DailyResult(Some(AutoRecord(a, Absent)), AbsentCreated)
  }

  /** The daily job's turn for one employee, without interruptions. */
  function DailyClean(cfg: Config, e: Employee, date: Day, holiday: bool, onLeave: bool,
                      rec: Option<Record>): DailyResult {
    if !InWindow(e, date) then DailyResult(rec, Skipped)
    else
      match RuleFor(cfg, e.id)
      case None => DailyResult(rec, Skipped)
      case Some(a) =>
        match rec
        case Some(r) =>
          if r.status == Absent && (onLeave || holiday)
          then DailyResult(Some(Stamped(r, if holiday then Holiday else OnLeave)), Upgraded)
          else DailyResult(rec, Skipped)
        case None => DailyCreated(a, date, holiday, onLeave)
  }

  function Daily(cfg: Config, e: Employee, date: Day, holiday: bool, onLeave: bool, fault: Fault,
                 rec: Option<Record>): DailyResult {
    var clean := DailyClean(cfg, e, date, holiday, onLeave, rec);
    if fault == BeforeWrite then DailyResult(rec, Failed)
    else if fault == AfterWrite && clean.tally != Skipped then DailyResult(clean.rec, Failed)
    else clean
  }

  /** Approving a leave, for one of its days. */
  function LeaveSynced(cfg: Config, emp: nat, date: Day, holiday: bool, rec: Option<Record>): Option<Record> {
    match RuleFor(cfg, emp)
    case None => rec
    case Some(a) =>
      if IsOff(a.rule, date) || holiday then rec
      else
        match rec
        case Some(r) => if r.status != Absent then rec else Some(Stamped(r, OnLeave))
        case None => Some(AutoRecord(a, OnLeave))
  }

  function NaturalStatus(cfg: Config, emp: nat, date: Day, holiday: bool): Status {
    var a := RuleFor(cfg, emp);
    if a.Some? && IsOff(a.value.rule, date) then WeeklyOffDay else if holiday then Holiday else Absent
  }

  predicate IsAuto(rec: Option<Record>, status: Status) {
    rec.Some? && rec.value.status == status && rec.value.source == Auto
  }

  /** Cancelling a leave, for one of its days. */
  function LeaveReversed(cfg: Config, emp: nat, date: Day, holiday: bool, rec: Option<Record>): Option<Record> {
    if IsAuto(rec, OnLeave) then Some(rec.value.(status := NaturalStatus(cfg, emp, date, holiday))) else rec
  }

  /** Creating a holiday, for one employee of the organization. */
  function HolidaySynced(cfg: Config, emp: nat, date: Day, rec: Option<Record>): Option<Record> {
    match RuleFor(cfg, emp)
    case None => rec
    case Some(a) =>
      if IsOff(a.rule, date) then rec
      else
        match rec
        case Some(r) => if r.status != Absent then rec else Some(Stamped(r, Holiday))
        case None => Some(AutoRecord(a, Holiday))
  }

  /** Deleting a holiday; leave and other holidays of the day are not looked at. */
  function HolidayReversed(cfg: Config, emp: nat, date: Day, rec: Option<Record>): Option<Record> {
    if IsAuto(rec, Holiday) then Some(rec.value.(status := NaturalStatus(cfg, emp, date, false))) else rec
  }

  // ---- what one turn does -------------------------------------------------------------------------

  /** A turn of the daily job runs to its end, or is the identity, or already did its write. */
  lemma DailyIsTotal(cfg: Config, e: Employee, date: Day, holiday: bool, onLeave: bool, fault: Fault,
                     rec: Option<Record>)
    ensures var r := Daily(cfg, e, date, holiday, onLeave, fault, rec);
            && (InWindow(e, date) && RuleFor(cfg, e.id).Some? && fault != BeforeWrite ==> r.rec.Some?)
            && (rec.Some? && rec.value.status != Absent ==> r.rec == rec)
            && (rec.Some? ==> r.rec.Some? && r.rec.value == rec.value.(status := r.rec.value.status, source := r.rec.value.source))
            && (rec.None? && r.rec.Some? ==>
                  r.rec.value.status == if NaturalStatus(cfg, e.id, date, holiday) == Absent && onLeave then OnLeave
                                        else NaturalStatus(cfg, e.id, date, holiday))
            && Daily(cfg, e, date, holiday, onLeave, NoFault, r.rec).rec ==
               (if fault == BeforeWrite then DailyClean(cfg, e, date, holiday, onLeave, rec).rec else r.rec)
  {
  }

  /**
   The job and a leave sync commute exactly unless an ABSENT record already sits on a weekly-off day
   of a covered employee; the job then upgrades it, which the sync refuses to do.
   */
  lemma DailyCommutesWithLeave(cfg: Config, e: Employee, date: Day, rec: Option<Record>)
    ensures var jobFirst := LeaveSynced(cfg, e.id, date, false, DailyClean(cfg, e, date, false, false, rec).rec);
            var syncFirst := DailyClean(cfg, e, date, false, true, LeaveSynced(cfg, e.id, date, false, rec)).rec;
            jobFirst == syncFirst <==>
            !(&& InWindow(e, date)
              && RuleFor(cfg, e.id).Some? && IsOff(RuleFor(cfg, e.id).value.rule, date)
              && rec.Some? && rec.value.status == Absent)
  {
  }

  /** The same for a holiday. */
  lemma DailyCommutesWithHoliday(cfg: Config, e: Employee, date: Day, rec: Option<Record>)
    ensures var jobFirst := HolidaySynced(cfg, e.id, date, DailyClean(cfg, e, date, false, false, rec).rec);
            var syncFirst := DailyClean(cfg, e, date, true, false, HolidaySynced(cfg, e.id, date, rec)).rec;
            jobFirst == syncFirst <==>
            !(&& InWindow(e, date)
              && RuleFor(cfg, e.id).Some? && IsOff(RuleFor(cfg, e.id).value.rule, date)
              && rec.Some? && rec.value.status == Absent)
  {
  }

  /**
   A leave and a holiday on one day do not commute: approving the leave first leaves ON_LEAVE behind,
   creating the holiday first leaves HOLIDAY, which the stated precedence asks for. They agree exactly
   when neither sync may touch the day.
   */
  lemma LeaveAndHolidayOrder(cfg: Config, emp: nat, date: Day, rec: Option<Record>)
    ensures var leaveFirst := HolidaySynced(cfg, emp, date, LeaveSynced(cfg, emp, date, false, rec));
            var holidayFirst := LeaveSynced(cfg, emp, date, true, HolidaySynced(cfg, emp, date, rec));
            leaveFirst == holidayFirst <==>
            (|| RuleFor(cfg, emp).None?
             || IsOff(RuleFor(cfg, emp).value.rule, date)
             || (rec.Some? && rec.value.status != Absent))
  {
  }

  /**
   Sync then reverse gives a day back its status exactly when it did not hold an AUTO record of the
   synced status before; a day that had no record ends ABSENT if the sync made one.
   */
  lemma LeaveRoundTrip(cfg: Config, emp: nat, date: Day, holiday: bool, rec: Option<Record>)
    ensures var back := LeaveReversed(cfg, emp, date, holiday, LeaveSynced(cfg, emp, date, holiday, rec));
            && (rec.Some? ==>
                  && back.Some?
                  && back.value == rec.value.(status := back.value.status, source := back.value.source)
                  && (back.value.status == rec.value.status <==> !IsAuto(rec, OnLeave)))
            && (rec.None? && back.Some? ==> back.value.status == Absent && back.value.worked == 0)
            && (rec.None? && back.None? ==> LeaveSynced(cfg, emp, date, holiday, rec).None?)
  {
  }

  lemma HolidayRoundTrip(cfg: Config, emp: nat, date: Day, rec: Option<Record>)
    ensures var back := HolidayReversed(cfg, emp, date, HolidaySynced(cfg, emp, date, rec));
            && (rec.Some? ==>
                  && back.Some?
                  && back.value == rec.value.(status := back.value.status, source := back.value.source)
                  && (back.value.status == rec.value.status <==> !IsAuto(rec, Holiday)))
            && (rec.None? && back.Some? ==> back.value.status == Absent && back.value.worked == 0)
            && (rec.None? && back.None? ==> HolidaySynced(cfg, emp, date, rec).None?)
  {
  }
}
