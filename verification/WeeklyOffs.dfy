/** Weekly-off patterns: how they are created from working days, and which dates they free. */
module WeeklyOffs {
  import opened Prelude
  import opened Calendar

  datatype SaturdayRule = AllWorking | AllOff | OddOff | EvenOff | Custom

  datatype WeeklyOff = WeeklyOff(days: seq<nat>, saturdayRule: Option<SaturdayRule>, saturdayOffWeeks: Option<seq<nat>>)

  /** Monday to Friday, then Sunday. */
  const NON_SATURDAYS: seq<nat> := [1, 2, 3, 4, 5, SUNDAY]

  predicate IsWeeklyOffDay(d: Day, off: WeeklyOff) {
    if Weekday(d) != SATURDAY then Weekday(d) in off.days
    else
      match off.saturdayRule
      case Some(AllOff) => true
      case Some(AllWorking) => false
      case Some(OddOff) => WeekOfMonth(d) % 2 == 1
      case Some(EvenOff) => WeekOfMonth(d) % 2 == 0
      case Some(Custom) => off.saturdayOffWeeks.Some? && WeekOfMonth(d) in off.saturdayOffWeeks.value
      case None => SATURDAY in off.days
  }

  function Without(days: seq<nat>, working: set<nat>): (r: seq<nat>)
    ensures forall d :: d in r <==> d in days && d !in working
  {
    if days == [] then []
    else (if days[0] in working then [] else [days[0]]) + Without(days[1..], working)
  }

  function ComputeDaysOff(working: set<nat>, rule: Option<SaturdayRule>): seq<nat> {
    var off := Without(NON_SATURDAYS, working);
    if rule == Some(AllOff) then off + [SATURDAY] else off
  }

  /** What `create` stores for the working days, Saturday rule and Saturday weeks of a request. */
  function Create(working: set<nat>, rule: Option<SaturdayRule>, weeks: Option<seq<nat>>): WeeklyOff {
    WeeklyOff(ComputeDaysOff(working, rule), rule, if rule == Some(Custom) then weeks else None)
  }

  /**
   What `update` makes of a stored pattern: a rule or working days that the request leaves out stay, but
   the Saturday weeks stay only if the request repeats the CUSTOM rule with them. A rule may be cleared.
   */
  function Change(off: WeeklyOff, rule: Option<Option<SaturdayRule>>, working: Option<set<nat>>, weeks: Option<seq<nat>>): WeeklyOff {
    WeeklyOff(if working.Some? then ComputeDaysOff(working.value, OrElse(rule, None)) else off.days,
              OrElse(rule, off.saturdayRule),
              if rule == Some(Some(Custom)) then weeks else None)
  }

  lemma NonSaturdays(w: nat)
    requires w < 7
    ensures w in NON_SATURDAYS <==> w != SATURDAY
  {
  }

  /**
   A created pattern frees a weekday exactly when it is not a working day, and a Saturday by the
   rule and by its rank among the month's Saturdays. Without a rule every Saturday is worked, even
   one left out of the working days.
   */
  lemma CreatedPattern(working: set<nat>, rule: Option<SaturdayRule>, weeks: Option<seq<nat>>, d: Day)
    ensures var off := IsWeeklyOffDay(d, Create(working, rule, weeks));
            var rank := WeekdayCount(MonthStart(MonthOf(d)), d, SATURDAY);
            if Weekday(d) != SATURDAY then off <==> Weekday(d) !in working
            else off <==> match rule
                          case None => false
                          case Some(AllOff) => true
                          case Some(AllWorking) => false
                          case Some(OddOff) => rank % 2 == 1
                          case Some(EvenOff) => rank % 2 == 0
                          case Some(Custom) => weeks.Some? && rank in weeks.value
  {
    NonSaturdays(Weekday(d));
    WeekOfMonthIsRank(d);
  }

  /** What a changed pattern frees, from the stored pattern and the request. */
  lemma ChangedPattern(off: WeeklyOff, rule: Option<Option<SaturdayRule>>, working: Option<set<nat>>, weeks: Option<seq<nat>>, d: Day)
    ensures var free := IsWeeklyOffDay(d, Change(off, rule, working, weeks));
            var rank := WeekdayCount(MonthStart(MonthOf(d)), d, SATURDAY);
            if Weekday(d) != SATURDAY then
              free <==> if working.Some? then Weekday(d) !in working.value else Weekday(d) in off.days
            else
              free <==> match if rule.Some? then rule.value else off.saturdayRule
                        case None => working.None? && SATURDAY in off.days
                        case Some(AllOff) => true
                        case Some(AllWorking) => false
                        case Some(OddOff) => rank % 2 == 1
                        case Some(EvenOff) => rank % 2 == 0
                        case Some(Custom) => rule.Some? && weeks.Some? && rank in weeks.value
  {
    NonSaturdays(Weekday(d));
    WeekOfMonthIsRank(d);
  }

  /** A request that changes nothing else still drops the Saturdays of a CUSTOM pattern, and exactly those days. */
  lemma CustomSaturdaysDropped(off: WeeklyOff, weeks: Option<seq<nat>>, d: Day)
    ensures (IsWeeklyOffDay(d, Change(off, None, None, weeks)) <==> IsWeeklyOffDay(d, off)) <==>
            !(Weekday(d) == SATURDAY && off.saturdayRule == Some(Custom) && IsWeeklyOffDay(d, off))
  {
  }

  /** Patterns agree with "off means not a working day" except on Saturdays, and there exactly so. */
  lemma SaturdayMismatch(working: set<nat>, weeks: Option<seq<nat>>, d: Day)
    ensures (IsWeeklyOffDay(d, Create(working, None, weeks)) <==> Weekday(d) !in working) <==>
            !(Weekday(d) == SATURDAY && SATURDAY !in working)
  {
    CreatedPattern(working, None, weeks, d);
  }

  /** ODD_OFF and EVEN_OFF split the Saturdays: each is off under exactly one of the two. */
  lemma OddEvenPartition(working: set<nat>, d: Day)
    requires Weekday(d) == SATURDAY
    ensures IsWeeklyOffDay(d, Create(working, Some(OddOff), None)) <==>
            !IsWeeklyOffDay(d, Create(working, Some(EvenOff), None))
    ensures IsWeeklyOffDay(d, Create(working, Some(OddOff), None)) <==>
            IsWeeklyOffDay(d, Create(working, Some(Custom), Some([1, 3, 5])))
  {
    CreatedPattern(working, Some(OddOff), None, d);
    assert 1 <= WeekOfMonth(d) <= 5;
  }
}
