/**
 What the columns of a shift and of a rule ask for, as relations between instants, minutes and columns.
 The attendance arithmetic meets each of them, and each of them has one solution.
 */
module AttendanceColumns {
  import opened Prelude
  import opened Calendar
  import opened AttendanceCalc

  // ---- minutes and lateness -----------------------------------------------------------------------

  /** `m` is the nearest whole number of minutes from `start` to `end`, halves up, and 0 if that is negative. */
  ghost predicate IsMinutes(start: Time, end: Time, m: nat) {
    && (-30_000 <= end - start - MS_PER_MINUTE * m || m == 0)
    && end - start - MS_PER_MINUTE * m < 30_000
  }

  lemma MinutesFromInstants(start: Time, end: Time, m: nat)
    ensures IsMinutes(start, end, m) <==> m == DiffMinutes(start, end)
  {
  }

  /** The time of day is a whole minute or more past the shift start and its grace. */
  ghost predicate ComesLate(checkIn: Time, shift: Shift) {
    checkIn % MS_PER_DAY >= (shift.start + (if shift.lateGrace.Some? then shift.lateGrace.value else 0) + 1) * MS_PER_MINUTE
  }

  lemma LatenessFromColumns(checkIn: Time, shift: Shift)
    ensures IsLate(checkIn, shift) <==> ComesLate(checkIn, shift)
  {
  }

  // ---- thresholds -----------------------------------------------------------------------------------

  /** Hundredths of a minute, as many as `hours` hundredths of an hour are. */
  function Hours(hours: int): int {
    60 * hours
  }

  ghost predicate StatusFits(worked: nat, rule: Rule, late: bool, status: Status) {
    var half := worked > 0 && 100 * worked >= Hours(rule.halfDayHours);
    var full := half && 100 * worked >= Hours(rule.fullDayHours);
    && (status == Absent <==> !half)
    && (status == HalfDay <==> half && !full)
    && (status == Late <==> full && late)
    && (status == Present <==> full && !late)
  }

  /** Overtime is what the minutes exceed the threshold by; a threshold that is null or 0 is none. */
  ghost predicate OvertimeFits(worked: nat, rule: Rule, overtime: int, flag: bool) {
    if rule.overtimeAfterHours.None? || rule.overtimeAfterHours.value == 0 then overtime == 0 && !flag
    else
      var over := 100 * worked - Hours(rule.overtimeAfterHours.value);
      overtime == (if over > 0 then over else 0) && (flag <==> over > 0)
  }

  lemma ClassifyFits(worked: nat, rule: Rule, late: bool)
    ensures var c := Classify(worked, rule, late);
            && c.worked == worked
            && StatusFits(worked, rule, late, c.status)
            && (c.halfDay <==> c.status == HalfDay)
            && OvertimeFits(worked, rule, c.overtime, c.isOvertime)
  {
  }

  // ---- the cutoff -----------------------------------------------------------------------------------

  /**
   `e` has the shift's end as its time of day and is, for a day shift, on the day of the check-in, and,
   for a night shift, the first such instant after the check-in.
   */
  ghost predicate EndsAt(checkIn: Time, shift: Shift, e: Time) {
    && e % MS_PER_DAY == shift.end * MS_PER_MINUTE
    && if shift.nightShift then checkIn < e <= checkIn + MS_PER_DAY
       else e / MS_PER_DAY == checkIn / MS_PER_DAY
  }

  /** `m` is the session maximum in minutes: the column's hours, or 14 if they are not positive, halves rounded up. */
  ghost predicate LastsAtMost(shift: Shift, m: nat) {
    var hours := if shift.maxSessionHours.Some? && shift.maxSessionHours.value > 0 then shift.maxSessionHours.value else 1400;
    Hours(hours) - 50 < 100 * m <= Hours(hours) + 50
  }

  /** A column's value, or its default where the column is negative or not a number. */
  function ValueOr(column: Option<int>, default: nat): nat {
    if column.Some? && column.value >= 0 then column.value else default
  }

  /** The earlier of the shift end with its extra minutes, a day on if that is not after the check-in, and the session maximum. */
  ghost predicate IsCutoff(checkIn: Time, shift: Shift, at: Time) {
    exists e: Time, m: nat ::
      && EndsAt(checkIn, shift, e)
      && LastsAtMost(shift, m)
      && var extra := (ValueOr(shift.overtimeGrace, 120) + ValueOr(shift.syncBuffer, 0)) * MS_PER_MINUTE;
         var cap := if e + extra <= checkIn then e + extra + MS_PER_DAY else e + extra;
         var most := checkIn + m * MS_PER_MINUTE;
         at == if cap <= most then cap else most
  }

  lemma EndsOnce(checkIn: Time, shift: Shift, e: Time)
    ensures EndsAt(checkIn, shift, e) <==> e == ShiftEnd(checkIn, shift)
  {
    DayBounds(checkIn);
    DayBounds(e);
    assert shift.end * MS_PER_MINUTE < MS_PER_DAY;
    var s := ShiftEnd(checkIn, shift);
    assert s % MS_PER_DAY == shift.end * MS_PER_MINUTE;
    if EndsAt(checkIn, shift, e) {
      assert e == StartOfDay(DayOf(e)) + shift.end * MS_PER_MINUTE;
    }
  }

  /**
   The time cap is the first instant after the check-in, from the shift end with its extra minutes on, at
   which that time of day comes round; for a night shift it is that shift end itself.
   */
  lemma TimeCapIsNextClosing(checkIn: Time, shift: Shift, e: Time, t: Time)
    requires EndsAt(checkIn, shift, e)
    requires var first := e + (ValueOr(shift.overtimeGrace, 120) + ValueOr(shift.syncBuffer, 0)) * MS_PER_MINUTE;
             t > checkIn && t >= first && (t - first) % MS_PER_DAY == 0
    ensures var first := e + (ValueOr(shift.overtimeGrace, 120) + ValueOr(shift.syncBuffer, 0)) * MS_PER_MINUTE;
            && checkIn < TimeCap(checkIn, shift) <= t
            && (shift.nightShift ==> TimeCap(checkIn, shift) == first)
  {
    EndsOnce(checkIn, shift, e);
    DayBounds(checkIn);
    var first := e + GraceAfterEnd(shift);
    if first <= checkIn {
      assert t - first >= 1;
      assert t - first >= MS_PER_DAY;
    }
  }

  lemma LastsOnce(shift: Shift, m: nat)
    ensures LastsAtMost(shift, m) <==> m == MaxSessionMinutes(shift)
  {
  }

  /** The cutoff is what the columns say, and they say one thing. */
  lemma CutoffFromColumns(checkIn: Time, shift: Shift, at: Time)
    ensures IsCutoff(checkIn, shift, at) <==> at == AutoCheckoutAt(checkIn, shift)
  {
    var e, m := ShiftEnd(checkIn, shift), MaxSessionMinutes(shift);
    EndsOnce(checkIn, shift, e);
    LastsOnce(shift, m);
    forall e', m'
      ensures EndsAt(checkIn, shift, e') && LastsAtMost(shift, m') ==> e' == e && m' == m
    {
      EndsOnce(checkIn, shift, e');
      LastsOnce(shift, m');
    }
  }
}
