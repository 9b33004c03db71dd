/** Daily materialization and the syncs over whole record tables, rosters and date ranges. */
module RecordTables {
  import opened Prelude
  import opened Calendar
  import opened AttendanceCalc
  import opened Attendance
  import opened WeeklyOffs
  import opened Materialization

  type Table = map<Key, Record>

  datatype Leave = Leave(emp: nat, org: nat, from: Day, to: Day, approved: bool)

  /** Holidays in force per organization, and every leave request. */
  datatype Facts = Facts(holidays: set<(nat, Day)>, leaves: seq<Leave>)

  predicate Covers(l: Leave, org: nat, date: Day) {
    l.org == org && l.approved && l.from <= date <= l.to
  }

  predicate IsOnLeave(leaves: seq<Leave>, org: nat, emp: nat, date: Day) {
    exists i :: 0 <= i < |leaves| && Covers(leaves[i], org, date) && leaves[i].emp == emp
  }

  function Put(t: Table, k: Key, rec: Option<Record>): Table {
    if rec.Some? then t[k := rec.value] else t
  }

  lemma SameRows(a: Table, b: Table)
    requires forall k :: Lookup(a, k) == Lookup(b, k)
    ensures a == b
  {
    assert forall k :: k in a <==> Lookup(a, k).Some?;
    assert forall k :: k in b <==> Lookup(b, k).Some?;
    assert forall k | k in a :: Lookup(a, k) == Some(a[k]) && Lookup(b, k) == Some(b[k]);
  }

  // ---- the daily job over a roster ----------------------------------------------------------------

  /** Interruptions by employee; employees that are not keys are not interrupted. */
  type Faults = map<nat, Fault>

  predicate Distinct(roster: seq<Employee>) {
    forall i, j :: 0 <= i < j < |roster| ==> roster[i].id != roster[j].id
  }

  function FaultOf(faults: Faults, emp: nat): Fault {
    if emp in faults then faults[emp] else NoFault
  }

  /** One employee's turn against a given table. */
  function Turn(cfg: Config, facts: Facts, faults: Faults, date: Day, e: Employee, t: Table): DailyResult {
    var org := OrElse(e.org, 0);
    Daily(cfg, e, date, (org, date) in facts.holidays, IsOnLeave(facts.leaves, org, e.id, date),
          FaultOf(faults, e.id), Lookup(t, Key(e.id, date)))
  }

  /** The turns of a roster, in order. */
  function DailyTable(cfg: Config, facts: Facts, faults: Faults, date: Day, roster: seq<Employee>, t: Table): Table {
    if roster == [] then t
    else
      var n := |roster| - 1;
      var before := DailyTable(cfg, facts, faults, date, roster[..n], t);
      Put(before, Key(roster[n].id, date), Turn(cfg, facts, faults, date, roster[n], before).rec)
  }

  /** What a roster leaves in a row: the outcome of that employee's turn against the first table, if they have one. */
  function DailyRow(cfg: Config, facts: Facts, faults: Faults, date: Day, roster: seq<Employee>, t: Table,
                    k: Key): Option<Record> {
    if roster == [] then Lookup(t, k)
    else
      var n := |roster| - 1;
      if Key(roster[n].id, date) == k then Turn(cfg, facts, faults, date, roster[n], t).rec
      else DailyRow(cfg, facts, faults, date, roster[..n], t, k)
  }

  lemma {:induction false} DailyPointwise(cfg: Config, facts: Facts, faults: Faults, date: Day,
                        roster: seq<Employee>, t: Table, k: Key)
    requires Distinct(roster)
    ensures Lookup(DailyTable(cfg, facts, faults, date, roster, t), k) == DailyRow(cfg, facts, faults, date, roster, t, k)
  {
    if roster != [] {
      var n := |roster| - 1;
      DailyPointwise(cfg, facts, faults, date, roster[..n], t, k);
      var mine := Key(roster[n].id, date);
      DailyPointwise(cfg, facts, faults, date, roster[..n], t, mine);
      RowUntouched(cfg, facts, faults, date, roster[..n], t, mine);
    }
  }

  lemma {:induction false} RowUntouched(cfg: Config, facts: Facts, faults: Faults, date: Day, roster: seq<Employee>,
                        t: Table, k: Key)
    requires forall i :: 0 <= i < |roster| ==> Key(roster[i].id, date) != k
    ensures DailyRow(cfg, facts, faults, date, roster, t, k) == Lookup(t, k)
  {
    if roster != [] {
      RowUntouched(cfg, facts, faults, date, roster[..|roster| - 1], t, k);
    }
  }

  lemma {:induction false} RowOf(cfg: Config, facts: Facts, faults: Faults, date: Day, roster: seq<Employee>,
                        t: Table, i: nat)
    requires Distinct(roster) && i < |roster|
    ensures DailyRow(cfg, facts, faults, date, roster, t, Key(roster[i].id, date)) == Turn(cfg, facts, faults, date, roster[i], t).rec
  {
    var n := |roster| - 1;
    if i < n {
      RowOf(cfg, facts, faults, date, roster[..n], t, i);
    }
  }

  // ---- what a turn leaves, from the columns -------------------------------------------------------

  ghost predicate Employed(e: Employee, date: Day) {
    && (e.joining.Some? ==> e.joining.value <= date)
    && (e.lastWorking.Some? ==> date <= e.lastWorking.value)
  }

  ghost predicate HasRule(cfg: Config, emp: nat) {
    emp in cfg.assignments && cfg.assignments[emp] in cfg.rules
  }

  /** The assigned rule frees the date. */
  ghost predicate DayOff(cfg: Config, emp: nat, date: Day) {
    && HasRule(cfg, emp)
    && var off := cfg.rules[cfg.assignments[emp]].weeklyOff;
       off.Some? && IsWeeklyOffDay(date, off.value)
  }

  ghost predicate ApprovedLeave(leaves: seq<Leave>, org: nat, emp: nat, date: Day) {
    exists l :: l in leaves && l.approved && l.org == org && l.emp == emp && l.from <= date <= l.to
  }

  lemma LeaveFromColumns(leaves: seq<Leave>, org: nat, emp: nat, date: Day)
    ensures ApprovedLeave(leaves, org, emp, date) <==> IsOnLeave(leaves, org, emp, date)
  {
    if IsOnLeave(leaves, org, emp, date) {
      var i :| 0 <= i < |leaves| && Covers(leaves[i], org, date) && leaves[i].emp == emp;
      assert leaves[i] in leaves;
    }
  }

  /** An AUTO row with the assigned rule, that rule's shift and nothing worked. */
  ghost predicate IsPlaceholder(cfg: Config, emp: nat, rec: Record, status: Status) {
    && HasRule(cfg, emp)
    && rec == Record(Some(cfg.assignments[emp]), Some(cfg.rules[cfg.assignments[emp]].shiftId), None, None, 0, 0, false, None,
                     false, false, status, None, false, None, Auto)
  }

  /**
   What the job makes of a row: nothing outside the employment window, without a rule or when cut off
   before the write. A missing row is created by the precedence weekly-off, holiday, leave, absent. An
   ABSENT one becomes HOLIDAY on a holiday, otherwise ON_LEAVE on a leave day. Every other one is kept.
   */
  ghost predicate Marked(cfg: Config, facts: Facts, faults: Faults, date: Day, e: Employee, before: Option<Record>, after: Option<Record>) {
    var org := OrElse(e.org, 0);
    var holiday := (org, date) in facts.holidays;
    var leave := ApprovedLeave(facts.leaves, org, e.id, date);
    if !Employed(e, date) || !HasRule(cfg, e.id) || (e.id in faults && faults[e.id] == BeforeWrite) then after == before
    else
      && after.Some?
      && match before
         case Some(b) =>
           if b.status == Absent && holiday then after.value == b.(status := Holiday, source := Auto)
           else if b.status == Absent && leave then after.value == b.(status := OnLeave, source := Auto)
           else after.value == b
         case None =>
           IsPlaceholder(cfg, e.id, after.value,
                         if DayOff(cfg, e.id, date) then WeeklyOffDay else if holiday then Holiday
                         else if leave then OnLeave else Absent)
  }

  /** Daily marking, employee by employee and in every case, whatever faults occur to others. */
  lemma DailyMarkingTotal(cfg: Config, facts: Facts, faults: Faults, date: Day, roster: seq<Employee>, t: Table, i: nat)
    requires Distinct(roster) && i < |roster|
    ensures var k := Key(roster[i].id, date);
            Marked(cfg, facts, faults, date, roster[i], Lookup(t, k), Lookup(DailyTable(cfg, facts, faults, date, roster, t), k))
  {
    var e := roster[i];
    DailyPointwise(cfg, facts, faults, date, roster, t, Key(e.id, date));
    RowOf(cfg, facts, faults, date, roster, t, i);
    LeaveFromColumns(facts.leaves, OrElse(e.org, 0), e.id, date);
  }

  /** Rows of other employees and other days stay as they are. */
  lemma DailyMarkingElsewhere(cfg: Config, facts: Facts, faults: Faults, date: Day, roster: seq<Employee>, t: Table, k: Key)
    requires Distinct(roster) && forall i :: 0 <= i < |roster| ==> roster[i].id != k.emp || date != k.date
    ensures Lookup(DailyTable(cfg, facts, faults, date, roster, t), k) == Lookup(t, k)
  {
    DailyPointwise(cfg, facts, faults, date, roster, t, k);
    RowUntouched(cfg, facts, faults, date, roster, t, k);
  }

  /** What the job should count for an employee, by the rows before and after it. */
  ghost function RowTally(faults: Faults, e: Employee, before: Option<Record>, after: Option<Record>): Tally {
    var fault := if e.id in faults then faults[e.id] else NoFault;
    if fault == BeforeWrite || (fault == AfterWrite && after != before) then Failed
    else if after == before then Skipped
    else if before.Some? || after.None? then Upgraded
    else match after.value.status
         case WeeklyOffDay => WeeklyOffCreated
         case Holiday => HolidayCreated
         case OnLeave => LeaveCreated
         case _ => AbsentCreated
  }

  lemma TallyFromRows(cfg: Config, facts: Facts, faults: Faults, date: Day, roster: seq<Employee>, t: Table, i: nat)
    requires Distinct(roster) && i < |roster|
    ensures var k := Key(roster[i].id, date);
            Turn(cfg, facts, faults, date, roster[i], t).tally ==
            RowTally(faults, roster[i], Lookup(t, k), Lookup(DailyTable(cfg, facts, faults, date, roster, t), k))
  {
    DailyPointwise(cfg, facts, faults, date, roster, t, Key(roster[i].id, date));
    RowOf(cfg, facts, faults, date, roster, t, i);
  }

  // ---- running it again ---------------------------------------------------------------------------

  /** A turn after an interrupted one leaves what an uninterrupted one leaves. */
  lemma TurnAgain(cfg: Config, facts: Facts, faults: Faults, date: Day, e: Employee, t: Table, mid: Table)
    requires Lookup(mid, Key(e.id, date)) == Turn(cfg, facts, faults, date, e, t).rec
    ensures Turn(cfg, facts, map[], date, e, mid).rec == Turn(cfg, facts, map[], date, e, t).rec
  {
  }

  /**
   Daily marking is idempotent, restartable and independent of the order of the roster: after a run
   with any interruptions, an uninterrupted run over the same employees in any order leaves exactly
   what one uninterrupted run would have left.
   */
  lemma DailyMarkingIdempotent(cfg: Config, facts: Facts, faults: Faults, date: Day,
                               first: seq<Employee>, second: seq<Employee>, t: Table)
    requires Distinct(first) && Distinct(second)
    requires forall e :: e in first <==> e in second
    ensures DailyTable(cfg, facts, map[], date, second, DailyTable(cfg, facts, faults, date, first, t)) ==
            DailyTable(cfg, facts, map[], date, first, t)
  {
    var mid := DailyTable(cfg, facts, faults, date, first, t);
    var twice := DailyTable(cfg, facts, map[], date, second, mid);
    var once := DailyTable(cfg, facts, map[], date, first, t);
    forall k
      ensures Lookup(twice, k) == Lookup(once, k)
    {
      DailyPointwise(cfg, facts, map[], date, second, mid, k);
      DailyPointwise(cfg, facts, faults, date, first, t, k);
      DailyPointwise(cfg, facts, map[], date, first, t, k);
      if i :| 0 <= i < |first| && Key(first[i].id, date) == k {
        assert first[i] in second;
        var j :| 0 <= j < |second| && second[j] == first[i];
        RowOf(cfg, facts, map[], date, second, mid, j);
        RowOf(cfg, facts, faults, date, first, t, i);
        RowOf(cfg, facts, map[], date, first, t, i);
        TurnAgain(cfg, facts, faults, date, first[i], t, mid);
      } else {
        assert forall j :: 0 <= j < |second| ==> second[j] in first;
        RowUntouched(cfg, facts, map[], date, second, mid, k);
        RowUntouched(cfg, facts, faults, date, first, t, k);
        RowUntouched(cfg, facts, map[], date, first, t, k);
      }
    }
    SameRows(twice, once);
  }

  // ---- a leave over its days ----------------------------------------------------------------------

  /** The days from `from` to `to`, both included. */
  function EachDate(from: Day, to: Day): seq<Day> {
    if from > to then [] else seq(to - from + 1, i requires 0 <= i => from + i)
  }

  function SyncLeave(cfg: Config, holidays: set<(nat, Day)>, org: nat, emp: nat, days: seq<Day>, t: Table): Table {
    if days == [] then t
    else
      var n := |days| - 1;
      var before := SyncLeave(cfg, holidays, org, emp, days[..n], t);
      Put(before, Key(emp, days[n]),
          LeaveSynced(cfg, emp, days[n], (org, days[n]) in holidays, Lookup(before, Key(emp, days[n]))))
  }

  function ReverseLeave(cfg: Config, holidays: set<(nat, Day)>, org: nat, emp: nat, days: seq<Day>, t: Table): Table {
    if days == [] then t
    else
      var n := |days| - 1;
      var before := ReverseLeave(cfg, holidays, org, emp, days[..n], t);
      Put(before, Key(emp, days[n]),
          LeaveReversed(cfg, emp, days[n], (org, days[n]) in holidays, Lookup(before, Key(emp, days[n]))))
  }

  predicate Ascending(days: seq<Day>) {
    forall i, j :: 0 <= i < j < |days| ==> days[i] < days[j]
  }

  lemma {:induction false} LeavePointwise(cfg: Config, holidays: set<(nat, Day)>, org: nat, emp: nat, days: seq<Day>,
                        t: Table, k: Key)
    requires Ascending(days)
    ensures Lookup(SyncLeave(cfg, holidays, org, emp, days, t), k) ==
            if k.emp == emp && k.date in days then LeaveSynced(cfg, emp, k.date, (org, k.date) in holidays, Lookup(t, k))
            else Lookup(t, k)
    ensures Lookup(ReverseLeave(cfg, holidays, org, emp, days, t), k) ==
            if k.emp == emp && k.date in days then LeaveReversed(cfg, emp, k.date, (org, k.date) in holidays, Lookup(t, k))
            else Lookup(t, k)
  {
    if days != [] {
      var n := |days| - 1;
      LeavePointwise(cfg, holidays, org, emp, days[..n], t, k);
      assert days == days[..n] + [days[n]];
      assert days[n] !in days[..n];
    }
  }

  /**
   Approving a leave and cancelling it again, with holidays and weekly-off days unchanged, restores
   the status of every record exactly when no record of its days was an AUTO ON_LEAVE one before.
   Everything but status and source, worked minutes above all, survives in any case, and records the
   sync created end ABSENT.
   */
  lemma LeaveSyncReverse(cfg: Config, holidays: set<(nat, Day)>, org: nat, emp: nat, from: Day, to: Day, t: Table)
    ensures var days := EachDate(from, to);
            var back := ReverseLeave(cfg, holidays, org, emp, days, SyncLeave(cfg, holidays, org, emp, days, t));
            && t.Keys <= back.Keys
            && (forall k :: k in t ==> back[k] == t[k].(status := back[k].status, source := back[k].source))
            && ((forall k :: k in t ==> back[k].status == t[k].status) <==>
                (forall d :: from <= d <= to ==> !IsAuto(Lookup(t, Key(emp, d)), OnLeave)))
            && (forall k :: k in back && k !in t ==> back[k].status == Absent && back[k].worked == 0)
  {
    var days := EachDate(from, to);
    var synced := SyncLeave(cfg, holidays, org, emp, days, t);
    var back := ReverseLeave(cfg, holidays, org, emp, days, synced);
    assert Ascending(days);
    EachDateMembers(from, to);
    forall k
      ensures k in t ==> k in back && back[k] == t[k].(status := back[k].status, source := back[k].source)
      ensures k in t ==> (back[k].status == t[k].status <==> !(k.emp == emp && from <= k.date <= to && IsAuto(Lookup(t, k), OnLeave)))
      ensures k in back && k !in t ==> back[k].status == Absent && back[k].worked == 0
    {
      LeavePointwise(cfg, holidays, org, emp, days, t, k);
      LeavePointwise(cfg, holidays, org, emp, days, synced, k);
      LeaveRoundTrip(cfg, emp, k.date, (org, k.date) in holidays, Lookup(t, k));
    }
    if d :| from <= d <= to && IsAuto(Lookup(t, Key(emp, d)), OnLeave) {
      assert Key(emp, d) in t && back[Key(emp, d)].status != t[Key(emp, d)].status;
    }
  }

  lemma EachDateMembers(from: Day, to: Day)
    ensures forall d: nat :: d in EachDate(from, to) <==> from <= d <= to
  {
    forall d: nat | from <= d <= to
      ensures d in EachDate(from, to)
    {
      assert EachDate(from, to)[d - from] == d;
    }
  }

  /** The one case in which the job and a sync disagree about an employee's day. */
  predicate AbsentOnDayOff(cfg: Config, e: Employee, date: Day, t: Table) {
    && InWindow(e, date)
    && RuleFor(cfg, e.id).Some? && IsOff(RuleFor(cfg, e.id).value.rule, date)
    && Key(e.id, date) in t && t[Key(e.id, date)].status == Absent
  }

  lemma LeaveOfOthers(leaves: seq<Leave>, l: Leave, org: nat, emp: nat, date: Day)
    ensures IsOnLeave(leaves + [l], org, emp, date) <==> IsOnLeave(leaves, org, emp, date) || (Covers(l, org, date) && l.emp == emp)
  {
    if i :| 0 <= i < |leaves| && Covers(leaves[i], org, date) && leaves[i].emp == emp {
      assert (leaves + [l])[i] == leaves[i];
    }
    if Covers(l, org, date) && l.emp == emp {
      assert (leaves + [l])[|leaves|] == l;
    }
  }

  lemma {:induction false} RowsWithLeave(cfg: Config, facts: Facts, l: Leave, date: Day, roster: seq<Employee>,
                        t: Table, u: Table, k: Key)
    requires k.emp != l.emp || k.date != date
    requires Lookup(t, k) == Lookup(u, k)
    ensures DailyRow(cfg, facts, map[], date, roster, t, k) ==
            DailyRow(cfg, facts.(leaves := facts.leaves + [l]), map[], date, roster, u, k)
  {
    if roster != [] {
      var n := |roster| - 1;
      RowsWithLeave(cfg, facts, l, date, roster[..n], t, u, k);
      LeaveOfOthers(facts.leaves, l, OrElse(roster[n].org, 0), roster[n].id, date);
    }
  }

  /**
   A leave approved after the daily job has run, or before it, with the sync in each case, leaves the
   same table, over all employees and days, unless the day is a weekly-off day on which the employee
   already has an ABSENT record. The day is not a holiday and the employee has no other leave on it.
   */
  lemma JobAndLeaveCommute(cfg: Config, facts: Facts, l: Leave, date: Day, roster: seq<Employee>, i: nat, t: Table)
    requires Distinct(roster) && i < |roster|
    requires roster[i].id == l.emp && roster[i].org == Some(l.org)
    requires l.approved && l.from <= date <= l.to
    requires (l.org, date) !in facts.holidays && !IsOnLeave(facts.leaves, l.org, l.emp, date)
    ensures var days := EachDate(l.from, l.to);
            var known := facts.(leaves := facts.leaves + [l]);
            SyncLeave(cfg, facts.holidays, l.org, l.emp, days, DailyTable(cfg, facts, map[], date, roster, t)) ==
            DailyTable(cfg, known, map[], date, roster, SyncLeave(cfg, facts.holidays, l.org, l.emp, days, t)) <==>
            !AbsentOnDayOff(cfg, roster[i], date, t)
  {
    var days := EachDate(l.from, l.to);
    var known := facts.(leaves := facts.leaves + [l]);
    var mine := Key(l.emp, date);
    var job := DailyTable(cfg, facts, map[], date, roster, t);
    var synced := SyncLeave(cfg, facts.holidays, l.org, l.emp, days, t);
    var a := SyncLeave(cfg, facts.holidays, l.org, l.emp, days, job);
    var b := DailyTable(cfg, known, map[], date, roster, synced);
    assert Ascending(days);
    EachDateMembers(l.from, l.to);
    forall k
      ensures k != mine ==> Lookup(a, k) == Lookup(b, k)
    {
      LeavePointwise(cfg, facts.holidays, l.org, l.emp, days, job, k);
      LeavePointwise(cfg, facts.holidays, l.org, l.emp, days, t, k);
      DailyPointwise(cfg, facts, map[], date, roster, t, k);
      DailyPointwise(cfg, known, map[], date, roster, synced, k);
      if k != mine {
        if k.emp == l.emp {
          RowUntouched(cfg, facts, map[], date, roster, t, k);
          RowUntouched(cfg, known, map[], date, roster, synced, k);
        } else {
          RowsWithLeave(cfg, facts, l, date, roster, t, synced, k);
        }
      }
    }
    LeavePointwise(cfg, facts.holidays, l.org, l.emp, days, job, mine);
    LeavePointwise(cfg, facts.holidays, l.org, l.emp, days, t, mine);
    DailyPointwise(cfg, facts, map[], date, roster, t, mine);
    DailyPointwise(cfg, known, map[], date, roster, synced, mine);
    RowOf(cfg, facts, map[], date, roster, t, i);
    RowOf(cfg, known, map[], date, roster, synced, i);
    LeaveOfOthers(facts.leaves, l, l.org, l.emp, date);
    DailyCommutesWithLeave(cfg, roster[i], date, Lookup(t, mine));
    if Lookup(a, mine) == Lookup(b, mine) {
      SameRows(a, b);
    }
  }

  // ---- a holiday over an organization -------------------------------------------------------------

  /** `emps` are the covered employees of the organization, each once. */
  function SyncHoliday(cfg: Config, date: Day, emps: seq<nat>, t: Table): Table {
    if emps == [] then t
    else
      var n := |emps| - 1;
      var before := SyncHoliday(cfg, date, emps[..n], t);
      Put(before, Key(emps[n], date), HolidaySynced(cfg, emps[n], date, Lookup(before, Key(emps[n], date))))
  }

  /** Every record of the organization's members on that date, covered or not. */
  function ReverseHoliday(cfg: Config, date: Day, members: set<nat>, t: Table): Table {
    map k | k in t ::
      if k.date == date && k.emp in members then HolidayReversed(cfg, k.emp, date, Some(t[k])).value else t[k]
  }

  /** The employees a holiday of an organization is stamped for. */
  function CoveredIn(employees: seq<Employee>, org: nat): seq<nat> {
    if employees == [] then []
    else
      var last := employees[|employees| - 1];
      CoveredIn(employees[..|employees| - 1], org) + if last.org == Some(org) && last.covered then [last.id] else []
  }

  function HolidayRow(cfg: Config, date: Day, emps: seq<nat>, rec: Option<Record>, k: Key): Option<Record> {
    if k.date == date && k.emp in emps then HolidaySynced(cfg, k.emp, date, rec) else rec
  }

  predicate NoRepeats(emps: seq<nat>) {
    forall i, j :: 0 <= i < j < |emps| ==> emps[i] != emps[j]
  }

  lemma {:induction false} HolidayPointwise(cfg: Config, date: Day, emps: seq<nat>, t: Table, k: Key)
    requires NoRepeats(emps)
    ensures Lookup(SyncHoliday(cfg, date, emps, t), k) == HolidayRow(cfg, date, emps, Lookup(t, k), k)
  {
    if emps != [] {
      var n := |emps| - 1;
      HolidayPointwise(cfg, date, emps[..n], t, k);
      assert emps == emps[..n] + [emps[n]];
      assert emps[n] !in emps[..n];
    }
  }

  /**
   Creating a holiday and deleting it again restores every status exactly when the organization had
   no AUTO HOLIDAY record on that date; records the sync created end ABSENT.
   */
  lemma HolidaySyncReverse(cfg: Config, date: Day, emps: seq<nat>, members: set<nat>, t: Table)
    requires NoRepeats(emps) && forall e :: e in emps ==> e in members
    ensures var back := ReverseHoliday(cfg, date, members, SyncHoliday(cfg, date, emps, t));
            && t.Keys <= back.Keys
            && (forall k :: k in t ==> back[k] == t[k].(status := back[k].status, source := back[k].source))
            && ((forall k :: k in t ==> back[k].status == t[k].status) <==>
                (forall e :: e in members ==> !IsAuto(Lookup(t, Key(e, date)), Holiday)))
            && (forall k :: k in back && k !in t ==> back[k].status == Absent && back[k].worked == 0)
  {
    var synced := SyncHoliday(cfg, date, emps, t);
    var back := ReverseHoliday(cfg, date, members, synced);
    forall k
      ensures k in t ==> k in back && back[k] == t[k].(status := back[k].status, source := back[k].source)
      ensures k in t ==> (back[k].status == t[k].status <==> !(k.date == date && k.emp in members && IsAuto(Lookup(t, k), Holiday)))
      ensures k in back && k !in t ==> back[k].status == Absent && back[k].worked == 0
    {
      HolidayPointwise(cfg, date, emps, t, k);
      HolidayRoundTrip(cfg, k.emp, k.date, Lookup(t, k));
    }
    if e :| e in members && IsAuto(Lookup(t, Key(e, date)), Holiday) {
      assert Key(e, date) in t && back[Key(e, date)].status != t[Key(e, date)].status;
    }
  }

  lemma {:induction false} RowsWithHoliday(cfg: Config, facts: Facts, org: nat, date: Day, roster: seq<Employee>,
                        t: Table, u: Table, k: Key)
    requires forall i :: 0 <= i < |roster| ==> roster[i].org.Some? && (roster[i].org == Some(org) ==> Key(roster[i].id, date) != k)
    requires Lookup(t, k) == Lookup(u, k)
    ensures DailyRow(cfg, facts, map[], date, roster, t, k) ==
            DailyRow(cfg, facts.(holidays := facts.holidays + {(org, date)}), map[], date, roster, u, k)
  {
    if roster != [] {
      RowsWithHoliday(cfg, facts, org, date, roster[..|roster| - 1], t, u, k);
    }
  }

  /**
   A holiday created after the daily job has run, or before it, leaves the same table over the whole
   roster exactly when no employee of the organization has an ABSENT record on a weekly-off day. No
   employee of the organization is on leave that day.
   */
  lemma JobAndHolidayCommute(cfg: Config, facts: Facts, org: nat, date: Day, roster: seq<Employee>, emps: seq<nat>,
                        t: Table)
    requires Distinct(roster) && NoRepeats(emps)
    requires forall i :: 0 <= i < |roster| ==> roster[i].org.Some? && (roster[i].org == Some(org) ==> roster[i].id in emps)
    requires forall e :: e in emps ==> exists i :: 0 <= i < |roster| && roster[i].id == e && roster[i].org == Some(org)
    requires (org, date) !in facts.holidays
    requires forall i :: 0 <= i < |roster| && roster[i].org == Some(org) ==> !IsOnLeave(facts.leaves, org, roster[i].id, date)
    ensures var known := facts.(holidays := facts.holidays + {(org, date)});
            SyncHoliday(cfg, date, emps, DailyTable(cfg, facts, map[], date, roster, t)) ==
            DailyTable(cfg, known, map[], date, roster, SyncHoliday(cfg, date, emps, t)) <==>
            forall i :: 0 <= i < |roster| && roster[i].org == Some(org) ==> !AbsentOnDayOff(cfg, roster[i], date, t)
  {
    var known := facts.(holidays := facts.holidays + {(org, date)});
    var job := DailyTable(cfg, facts, map[], date, roster, t);
    var synced := SyncHoliday(cfg, date, emps, t);
    var a := SyncHoliday(cfg, date, emps, job);
    var b := DailyTable(cfg, known, map[], date, roster, synced);
    forall k
      ensures Lookup(a, k) == HolidayRow(cfg, date, emps, Lookup(job, k), k)
      ensures Lookup(b, k) == DailyRow(cfg, known, map[], date, roster, synced, k)
      ensures (forall i :: 0 <= i < |roster| && roster[i].org == Some(org) ==> Key(roster[i].id, date) != k) ==> Lookup(a, k) == Lookup(b, k)
    {
      HolidayPointwise(cfg, date, emps, job, k);
      HolidayPointwise(cfg, date, emps, t, k);
      DailyPointwise(cfg, facts, map[], date, roster, t, k);
      DailyPointwise(cfg, known, map[], date, roster, synced, k);
      if forall i :: 0 <= i < |roster| && roster[i].org == Some(org) ==> Key(roster[i].id, date) != k {
        RowsWithHoliday(cfg, facts, org, date, roster, t, synced, k);
      }
    }
    forall i | 0 <= i < |roster| && roster[i].org == Some(org)
      ensures Lookup(a, Key(roster[i].id, date)) == Lookup(b, Key(roster[i].id, date)) <==> !AbsentOnDayOff(cfg, roster[i], date, t)
    {
      var mine := Key(roster[i].id, date);
      HolidayPointwise(cfg, date, emps, t, mine);
      DailyPointwise(cfg, facts, map[], date, roster, t, mine);
      RowOf(cfg, facts, map[], date, roster, t, i);
      RowOf(cfg, known, map[], date, roster, synced, i);
      DailyCommutesWithHoliday(cfg, roster[i], date, Lookup(t, mine));
    }
    if forall i :: 0 <= i < |roster| && roster[i].org == Some(org) ==> !AbsentOnDayOff(cfg, roster[i], date, t) {
      forall k
        ensures Lookup(a, k) == Lookup(b, k)
      {
        if i :| 0 <= i < |roster| && roster[i].org == Some(org) && Key(roster[i].id, date) == k {
          assert !AbsentOnDayOff(cfg, roster[i], date, t);
        }
      }
      SameRows(a, b);
    }
  }

  // ---- what the events leave, from the columns ------------------------------------------------------

  /** An approved leave stamps its days except weekly-off days and holidays: missing rows are created, ABSENT ones upgraded. */
  lemma LeaveSyncOutcome(cfg: Config, holidays: set<(nat, Day)>, org: nat, emp: nat, from: Day, to: Day, t: Table, k: Key)
    ensures var after := Lookup(SyncLeave(cfg, holidays, org, emp, EachDate(from, to), t), k);
            if && k.emp == emp && from <= k.date <= to
               && HasRule(cfg, emp) && !DayOff(cfg, emp, k.date) && (org, k.date) !in holidays
               && (k in t ==> t[k].status == Absent)
            then after.Some? && if k in t then after.value == t[k].(status := OnLeave, source := Auto)
                                else IsPlaceholder(cfg, emp, after.value, OnLeave)
            else after == Lookup(t, k)
  {
    assert Ascending(EachDate(from, to));
    EachDateMembers(from, to);
    LeavePointwise(cfg, holidays, org, emp, EachDate(from, to), t, k);
  }

  /** A cancelled leave gives its AUTO ON_LEAVE rows their natural status: weekly-off, then holiday, then absent. */
  lemma LeaveReverseOutcome(cfg: Config, holidays: set<(nat, Day)>, org: nat, emp: nat, from: Day, to: Day, t: Table, k: Key)
    ensures Lookup(ReverseLeave(cfg, holidays, org, emp, EachDate(from, to), t), k) ==
            if k.emp == emp && from <= k.date <= to && k in t && t[k].status == OnLeave && t[k].source == Auto
            then Some(t[k].(status := if DayOff(cfg, emp, k.date) then WeeklyOffDay
                                      else if (org, k.date) in holidays then Holiday else Absent))
            else Lookup(t, k)
  {
    assert Ascending(EachDate(from, to));
    EachDateMembers(from, to);
    LeavePointwise(cfg, holidays, org, emp, EachDate(from, to), t, k);
  }

  /** A covered employee of the organization. */
  ghost predicate CoveredBy(employees: seq<Employee>, org: nat, id: nat) {
    exists e :: e in employees && e.org == Some(org) && e.covered && e.id == id
  }

  lemma {:induction false} CoveredMember(employees: seq<Employee>, org: nat, id: nat)
    ensures id in CoveredIn(employees, org) <==> CoveredBy(employees, org, id)
  {
    if employees != [] {
      var n := |employees| - 1;
      CoveredMember(employees[..n], org, id);
      assert employees == employees[..n] + [employees[n]];
    }
  }

  lemma {:induction false} CoveredOnce(employees: seq<Employee>, org: nat)
    requires Distinct(employees)
    ensures NoRepeats(CoveredIn(employees, org))
  {
    if employees != [] {
      var n := |employees| - 1;
      CoveredOnce(employees[..n], org);
      CoveredMember(employees[..n], org, employees[n].id);
      forall e | e in employees[..n]
        ensures e.id != employees[n].id
      {
        var i :| 0 <= i < n && employees[i] == e;
      }
      assert employees[n].id !in CoveredIn(employees[..n], org);
    }
  }

  /** A holiday stamps every covered employee of its organization, except on their weekly-off days. */
  lemma HolidaySyncOutcome(cfg: Config, date: Day, employees: seq<Employee>, org: nat, t: Table, k: Key)
    requires Distinct(employees)
    ensures var after := Lookup(SyncHoliday(cfg, date, CoveredIn(employees, org), t), k);
            if && k.date == date && CoveredBy(employees, org, k.emp)
               && HasRule(cfg, k.emp) && !DayOff(cfg, k.emp, date)
               && (k in t ==> t[k].status == Absent)
            then after.Some? && if k in t then after.value == t[k].(status := Holiday, source := Auto)
                                else IsPlaceholder(cfg, k.emp, after.value, Holiday)
            else after == Lookup(t, k)
  {
    CoveredMember(employees, org, k.emp);
    CoveredOnce(employees, org);
    HolidayPointwise(cfg, date, CoveredIn(employees, org), t, k);
  }

  /** A deleted holiday gives its AUTO HOLIDAY rows weekly-off or absent. */
  lemma HolidayReverseOutcome(cfg: Config, date: Day, members: set<nat>, t: Table, k: Key)
    ensures Lookup(ReverseHoliday(cfg, date, members, t), k) ==
            if k.date == date && k.emp in members && k in t && t[k].status == Holiday && t[k].source == Auto
            then Some(t[k].(status := if DayOff(cfg, k.emp, date) then WeeklyOffDay else Absent))
            else Lookup(t, k)
  {
  }
}
