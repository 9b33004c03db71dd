/**
 The pure attendance arithmetic: worked minutes, lateness, threshold classification and the instant
 at which an open session is closed automatically.

 DECIMAL(4,2) hours are kept in hundredths of an hour, so that a threshold of `h` is `60 * h`
 hundredths of a minute.
 */
module AttendanceCalc {
  import opened Prelude
  import opened Calendar
  import opened WeeklyOffs

  datatype Status =
    | Present | HalfDay | Absent | Late | OnLeave | Holiday | WeeklyOffDay
    | MissedCheckout | OvertimeDay | PendingApproval

  type MinuteOfDay = m: nat | m < 1440

  datatype Shift = Shift(
    start: MinuteOfDay,
    end: MinuteOfDay,
    lateGrace: Option<int>,
    nightShift: bool,
    overtimeGrace: Option<int>,
    syncBuffer: Option<int>,
    maxSessionHours: Option<int>,
    autoCheckoutEnabled: bool,
    allowMultiple: bool)

  datatype Rule = Rule(
    shiftId: nat,
    weeklyOff: Option<WeeklyOff>,
    fullDayHours: int,
    halfDayHours: int,
    overtimeAfterHours: Option<int>,
    allowMultiple: bool,
    requireGeoFencing: bool,
    hasGeoFence: bool,
    allowRemote: bool,
    remoteApprovalRequired: bool)

  // ---- worked minutes ---------------------------------------------------------------------------

  /** Whole minutes between two instants, halves rounded up as by `Math.round`, never negative. */
  function DiffMinutes(start: Time, end: Time): nat {
    var rounded := (end - start + 30_000) / MS_PER_MINUTE;
    if rounded < 0 then 0 else rounded
  }

  /** Rounding costs at most half a minute either way, and later check-outs never count for less. */
  lemma DiffMinutesBounds(start: Time, end: Time, later: Time)
    requires start <= end <= later
    ensures (end - start) - 30_000 < MS_PER_MINUTE * DiffMinutes(start, end) <= (end - start) + 30_000
    ensures DiffMinutes(start, end) <= DiffMinutes(start, later)
  {
  }

  // ---- lateness ---------------------------------------------------------------------------------

  function MinuteOf(t: Time): MinuteOfDay {
    t % MS_PER_DAY / MS_PER_MINUTE
  }

  /** Minutes past the shift start and its grace; positive means late. */
  function LateBy(checkIn: Time, shift: Shift): int {
    MinuteOf(checkIn) - (shift.start + OrElse(shift.lateGrace, 0))
  }

  predicate IsLate(checkIn: Time, shift: Shift) {
    LateBy(checkIn, shift) > 0
  }

  // ---- classification ---------------------------------------------------------------------------

  /** Overtime is in hundredths of a minute. */
  datatype Computed = Computed(worked: nat, overtime: int, halfDay: bool, isOvertime: bool, status: Status)

  /** An `overtime_after_hours` of null or 0 switches overtime off. */
  function Overtime(worked: nat, rule: Rule): int {
    match rule.overtimeAfterHours
    case Some(h) => if h != 0 && worked * 100 > h * 60 then worked * 100 - h * 60 else 0
    case None => 0
  }

  function Classify(worked: nat, rule: Rule, late: bool): Computed {
    var status :=
      if worked == 0 then Absent
      else if worked * 100 < rule.halfDayHours * 60 then Absent
      else if worked * 100 < rule.fullDayHours * 60 then HalfDay
      else if late then Late
      else Present;
    var overtime := Overtime(worked, rule);
    Computed(worked, overtime, status == HalfDay, overtime > 0, status)
  }

  /** How much of a day a computed status stands for. */
  function Rank(s: Status): nat {
    match s
    case Present => 2
    case Late => 2
    case HalfDay => 1
    case _ => 0
  }

  lemma ClassifyMonotone(less: nat, more: nat, rule: Rule, late: bool)
    requires less <= more
    ensures Rank(Classify(less, rule, late).status) <= Rank(Classify(more, rule, late).status)
    ensures 0 <= Overtime(less, rule)
    ensures Overtime(less, rule) <= Overtime(more, rule)
  {
  }

  // ---- automatic check-out ----------------------------------------------------------------------

  /**
   `safeNumber`: a negative value falls back to a default, and so does one that is not a number, which
   None stands for (the columns are not nullable; a null would read as 0).
   */
  function SafeNumber(column: Option<int>, fallback: nat): nat {
    if column.Some? && column.value >= 0 then column.value else fallback
  }

  function ShiftEnd(checkIn: Time, shift: Shift): Time {
    var end := StartOfDay(DayOf(checkIn)) + shift.end * MS_PER_MINUTE;
    if shift.nightShift && end <= checkIn then end + MS_PER_DAY else end
  }

  /** Overtime grace plus device sync buffer, in milliseconds. */
  function GraceAfterEnd(shift: Shift): nat {
    (SafeNumber(shift.overtimeGrace, 120) + SafeNumber(shift.syncBuffer, 0)) * MS_PER_MINUTE
  }

  function TimeCap(checkIn: Time, shift: Shift): Time {
    var cap := ShiftEnd(checkIn, shift) + GraceAfterEnd(shift);
    if cap <= checkIn then cap + MS_PER_DAY else cap
  }

  /** round(60 * max_session_hours), where a maximum of 0 reads as 14 hours. */
  function MaxSessionMinutes(shift: Shift): (m: nat)
    ensures m >= 1
  {
    var raw := SafeNumber(shift.maxSessionHours, 1400);
    ((if raw > 0 then raw else 1400) * 60 + 50) / 100
  }

  /** The instant at which an open session is closed: the earlier of the two caps. */
  function AutoCheckoutAt(checkIn: Time, shift: Shift): Time {
    var timeCap := TimeCap(checkIn, shift);
    var durationCap := checkIn + MaxSessionMinutes(shift) * MS_PER_MINUTE;
    if timeCap < durationCap then timeCap else durationCap
  }

  lemma DayBounds(t: Time)
    ensures StartOfDay(DayOf(t)) <= t < StartOfDay(DayOf(t)) + MS_PER_DAY
  {
  }

  /** For every shift, a cutoff lies after the check-in and within the session maximum. */
  lemma CutoffWindow(checkIn: Time, shift: Shift)
    ensures checkIn < AutoCheckoutAt(checkIn, shift) <= checkIn + MaxSessionMinutes(shift) * MS_PER_MINUTE
  {
    DayBounds(checkIn);
  }

  lemma TimeCapMonotone(c1: Time, c2: Time, shift: Shift)
    requires c1 <= c2
    ensures TimeCap(c1, shift) <= TimeCap(c2, shift)
  {
    DayBounds(c1);
    DayBounds(c2);
    if DayOf(c1) < DayOf(c2) {
      assert StartOfDay(DayOf(c1)) + MS_PER_DAY <= StartOfDay(DayOf(c2));
    } else {
      assert DayOf(c1) == DayOf(c2);
    }
  }

  /** Checking in later never brings the cutoff forward, across midnight and night shifts alike. */
  lemma CutoffMonotone(c1: Time, c2: Time, shift: Shift)
    requires c1 <= c2
    ensures AutoCheckoutAt(c1, shift) <= AutoCheckoutAt(c2, shift)
  {
    TimeCapMonotone(c1, c2, shift);
  }
}
