/**
 The materialization service as it works: nested loops over organizations and rosters, a rule cache,
 counters, and record rows updated one by one.
 */
module RecordServices {
  import opened Prelude
  import opened Calendar
  import opened AttendanceCalc
  import opened Attendance
  import opened Materialization
  import opened RecordTables
  import opened AttendanceServices

  // ---- rule lookup with its cache -----------------------------------------------------------------

  type RuleCache = map<nat, Option<Rule>>

  ghost predicate CacheOk(cfg: Config, cache: RuleCache) {
    forall id :: id in cache ==> cache[id] == Lookup(cfg.rules, id)
  }

  /** A cached answer, or a fresh one that is remembered, missing rules included. */
  method ResolveRule(cfg: Config, emp: nat, cache: RuleCache) returns (found: Option<Assigned>, next: RuleCache)
    requires CacheOk(cfg, cache)
    ensures found == RuleFor(cfg, emp) && CacheOk(cfg, next)
    ensures found == if HasRule(cfg, emp) then Some(Assigned(cfg.assignments[emp], cfg.rules[cfg.assignments[emp]])) else None
  {
    next := cache;
    if emp !in cfg.assignments {
      return None, next;
    }
    var id := cfg.assignments[emp];
    if id !in cache {
      next := cache[id := Lookup(cfg.rules, id)];
    }
    var rule := next[id];
    found := if rule.Some? then Some(Assigned(id, rule.value)) else None;
  }

  // ---- the daily job ------------------------------------------------------------------------------

  method OnLeaveEmployeeIds(leaves: seq<Leave>, org: nat, date: Day) returns (ids: set<nat>)
    ensures forall e :: e in ids <==> IsOnLeave(leaves, org, e, date)
    ensures forall e :: e in ids <==> ApprovedLeave(leaves, org, e, date)
  {
    ids := {};
    for n := 0 to |leaves|
      invariant forall e :: e in ids <==> exists i :: 0 <= i < n && Covers(leaves[i], org, date) && leaves[i].emp == e
    {
      if Covers(leaves[n], org, date) {
        ids := ids + {leaves[n].emp};
      }
    }
    forall e
      ensures ApprovedLeave(leaves, org, e, date) <==> IsOnLeave(leaves, org, e, date)
    {
      LeaveFromColumns(leaves, org, e, date);
    }
  }

  /** The employees the job works on: ACTIVE or OFFBOARDING ones that belong to an organization. */
  function Listed(employees: seq<Employee>): (r: seq<Employee>)
    ensures forall e :: e in r <==> e in employees && e.covered && e.org.Some?
    ensures Distinct(employees) ==> Distinct(r)
  {
    if employees == [] then []
    else
      var last := employees[|employees| - 1];
      var rest := Listed(employees[..|employees| - 1]);
      assert employees == employees[..|employees| - 1] + [last];
      assert Distinct(employees) ==> forall e :: e in employees[..|employees| - 1] ==> e.id != last.id;
      rest + if last.covered && last.org.Some? then [last] else []
  }

  /** Groups the listed employees by organization; `orgs` keeps the order in which organizations first appear. */
  method GroupByOrg(employees: seq<Employee>) returns (orgs: seq<nat>, byOrg: map<nat, seq<Employee>>)
    requires Distinct(employees)
    ensures forall i, j :: 0 <= i < j < |orgs| ==> orgs[i] != orgs[j]
    ensures forall o :: o in orgs <==> o in byOrg
    ensures forall o :: o in byOrg ==> Distinct(byOrg[o])
    ensures forall o, e :: o in byOrg && e in byOrg[o] ==> e in employees && e.covered && e.org == Some(o)
    ensures forall e :: e in employees && e.covered && e.org.Some? ==> e.org.value in byOrg && e in byOrg[e.org.value]
  {
    orgs, byOrg := [], map[];
    for n := 0 to |employees|
      invariant forall i, j :: 0 <= i < j < |orgs| ==> orgs[i] != orgs[j]
      invariant forall o :: o in orgs <==> o in byOrg
      invariant forall o :: o in byOrg ==> Distinct(byOrg[o])
      invariant forall o, e :: o in byOrg && e in byOrg[o] ==> e in employees[..n] && e.covered && e.org == Some(o)
      invariant forall e :: e in employees[..n] && e.covered && e.org.Some? ==> e.org.value in byOrg && e in byOrg[e.org.value]
    {
      var emp := employees[n];
      assert employees[..n + 1] == employees[..n] + [emp];
      if emp.covered && emp.org.Some? {
        var list := if emp.org.value in byOrg then byOrg[emp.org.value] else [];
        if emp.org.value !in byOrg {
          orgs := orgs + [emp.org.value];
        }
        byOrg := byOrg[emp.org.value := list + [emp]];
      }
    }
    assert employees[..|employees|] == employees;
  }

  datatype DailySummary = DailySummary(
    skipped: nat, weeklyOff: nat, holiday: nat, onLeave: nat, absent: nat, upgraded: nat, errors: nat)

  function Field(s: DailySummary, t: Tally): nat {
    match t
    case Skipped => s.skipped
    case WeeklyOffCreated => s.weeklyOff
    case HolidayCreated => s.holiday
    case LeaveCreated => s.onLeave
    case AbsentCreated => s.absent
    case Upgraded => s.upgraded
    case Failed => s.errors
  }

  function Add(s: DailySummary, t: Tally): DailySummary {
    match t
    case Skipped => s.(skipped := s.skipped + 1)
    case WeeklyOffCreated => s.(weeklyOff := s.weeklyOff + 1)
    case HolidayCreated => s.(holiday := s.holiday + 1)
    case LeaveCreated => s.(onLeave := s.onLeave + 1)
    case AbsentCreated => s.(absent := s.absent + 1)
    case Upgraded => s.(upgraded := s.upgraded + 1)
    case Failed => s.(errors := s.errors + 1)
  }

  function Sum(s: DailySummary): nat {
    s.skipped + s.weeklyOff + s.holiday + s.onLeave + s.absent + s.upgraded + s.errors
  }

  /** The employees whose turn against the first table comes to a given outcome. */
  function TurnedOut(cfg: Config, facts: Facts, faults: Faults, date: Day, roster: seq<Employee>, t: Table,
                     tally: Tally): set<Employee> {
    set e | e in roster && Turn(cfg, facts, faults, date, e, t).tally == tally
  }

  /** Each counter is the number of employees with that outcome, and together they count everyone. */
  ghost predicate DailyCounted(cfg: Config, facts: Facts, faults: Faults, date: Day, roster: seq<Employee>, t: Table,
                        s: DailySummary) {
    && Sum(s) == |roster|
    && forall tally :: Field(s, tally) == |TurnedOut(cfg, facts, faults, date, roster, t, tally)|
  }

  lemma AddCounts(s: DailySummary, mine: Tally)
    ensures Sum(Add(s, mine)) == Sum(s) + 1
    ensures forall tally :: Field(Add(s, mine), tally) == Field(s, tally) + if tally == mine then 1 else 0
  {
  }

  lemma TurnedOutSnoc(cfg: Config, facts: Facts, faults: Faults, date: Day, roster: seq<Employee>, t: Table,
                      e: Employee, tally: Tally)
    requires e !in roster
    ensures |TurnedOut(cfg, facts, faults, date, roster + [e], t, tally)| ==
            |TurnedOut(cfg, facts, faults, date, roster, t, tally)|
              + if tally == Turn(cfg, facts, faults, date, e, t).tally then 1 else 0
  {
    var mine := Turn(cfg, facts, faults, date, e, t).tally;
    assert TurnedOut(cfg, facts, faults, date, roster + [e], t, tally) ==
           TurnedOut(cfg, facts, faults, date, roster, t, tally) + if tally == mine then {e} else {};
  }

  lemma DailyCountStep(cfg: Config, facts: Facts, faults: Faults, date: Day, roster: seq<Employee>, t: Table,
                       s: DailySummary, e: Employee)
    requires DailyCounted(cfg, facts, faults, date, roster, t, s) && e !in roster
    ensures DailyCounted(cfg, facts, faults, date, roster + [e], t, Add(s, Turn(cfg, facts, faults, date, e, t).tally))
  {
    var mine := Turn(cfg, facts, faults, date, e, t).tally;
    AddCounts(s, mine);
    forall tally
      ensures Field(Add(s, mine), tally) == |TurnedOut(cfg, facts, faults, date, roster + [e], t, tally)|
    {
      TurnedOutSnoc(cfg, facts, faults, date, roster, t, e, tally);
    }
  }

  /** The covered employees with an organization whose rows tell a given outcome. */
  ghost function RowsTelling(faults: Faults, date: Day, employees: seq<Employee>, t: Table, after: Table, tally: Tally): set<Employee> {
    set e | && e in employees && e.covered && e.org.Some?
            && RowTally(faults, e, Lookup(t, Key(e.id, date)), Lookup(after, Key(e.id, date))) == tally
  }

  /** Each counter is the number of those employees; together they count every covered employee with an organization. */
  ghost predicate CountsRows(faults: Faults, date: Day, employees: seq<Employee>, t: Table, after: Table, s: DailySummary) {
    && s.skipped == |RowsTelling(faults, date, employees, t, after, Skipped)|
    && s.weeklyOff == |RowsTelling(faults, date, employees, t, after, WeeklyOffCreated)|
    && s.holiday == |RowsTelling(faults, date, employees, t, after, HolidayCreated)|
    && s.onLeave == |RowsTelling(faults, date, employees, t, after, LeaveCreated)|
    && s.absent == |RowsTelling(faults, date, employees, t, after, AbsentCreated)|
    && s.upgraded == |RowsTelling(faults, date, employees, t, after, Upgraded)|
    && s.errors == |RowsTelling(faults, date, employees, t, after, Failed)|
    && s.skipped + s.weeklyOff + s.holiday + s.onLeave + s.absent + s.upgraded + s.errors ==
       |set e | e in employees && e.covered && e.org.Some?|
  }

  lemma SummaryFromRows(cfg: Config, facts: Facts, faults: Faults, date: Day, employees: seq<Employee>, t: Table, s: DailySummary)
    requires Distinct(employees) && DailyCounted(cfg, facts, faults, date, Listed(employees), t, s)
    ensures CountsRows(faults, date, employees, t, DailyTable(cfg, facts, faults, date, Listed(employees), t), s)
  {
    var listed := Listed(employees);
    var after := DailyTable(cfg, facts, faults, date, listed, t);
    forall tally
      ensures Field(s, tally) == |RowsTelling(faults, date, employees, t, after, tally)|
    {
      TurnsAreRows(cfg, facts, faults, date, employees, t, tally);
    }
    SetOfRoster(listed);
    assert (set e | e in listed) == set e | e in employees && e.covered && e.org.Some?;
    FieldsOf(s);
  }

  lemma FieldsOf(s: DailySummary)
    ensures Field(s, Skipped) == s.skipped && Field(s, WeeklyOffCreated) == s.weeklyOff && Field(s, HolidayCreated) == s.holiday
    ensures Field(s, LeaveCreated) == s.onLeave && Field(s, AbsentCreated) == s.absent && Field(s, Upgraded) == s.upgraded
    ensures Field(s, Failed) == s.errors
  {
  }

  lemma TurnsAreRows(cfg: Config, facts: Facts, faults: Faults, date: Day, employees: seq<Employee>, t: Table, tally: Tally)
    requires Distinct(employees)
    ensures TurnedOut(cfg, facts, faults, date, Listed(employees), t, tally) ==
            RowsTelling(faults, date, employees, t, DailyTable(cfg, facts, faults, date, Listed(employees), t), tally)
  {
    var listed := Listed(employees);
    forall e | e in listed
      ensures Turn(cfg, facts, faults, date, e, t).tally ==
              RowTally(faults, e, Lookup(t, Key(e.id, date)), Lookup(DailyTable(cfg, facts, faults, date, listed, t), Key(e.id, date)))
    {
      var i :| 0 <= i < |listed| && listed[i] == e;
      TallyFromRows(cfg, facts, faults, date, listed, t, i);
    }
  }

  /** The order in which a roster takes its turns shows neither in the table nor in the counters. */
  lemma DailyOrderIrrelevant(cfg: Config, facts: Facts, faults: Faults, date: Day, a: seq<Employee>,
                        b: seq<Employee>, t: Table)
    requires Distinct(a) && Distinct(b) && forall e :: e in a <==> e in b
    ensures DailyTable(cfg, facts, faults, date, a, t) == DailyTable(cfg, facts, faults, date, b, t)
    ensures forall tally :: TurnedOut(cfg, facts, faults, date, a, t, tally) == TurnedOut(cfg, facts, faults, date, b, t, tally)
  {
    forall k
      ensures Lookup(DailyTable(cfg, facts, faults, date, a, t), k) == Lookup(DailyTable(cfg, facts, faults, date, b, t), k)
    {
      DailyPointwise(cfg, facts, faults, date, a, t, k);
      DailyPointwise(cfg, facts, faults, date, b, t, k);
      if i :| 0 <= i < |a| && Key(a[i].id, date) == k {
        assert a[i] in b;
        var j :| 0 <= j < |b| && b[j] == a[i];
        RowOf(cfg, facts, faults, date, a, t, i);
        RowOf(cfg, facts, faults, date, b, t, j);
      } else {
        assert forall j :: 0 <= j < |b| ==> b[j] in a;
        RowUntouched(cfg, facts, faults, date, a, t, k);
        RowUntouched(cfg, facts, faults, date, b, t, k);
      }
    }
    SameRows(DailyTable(cfg, facts, faults, date, a, t), DailyTable(cfg, facts, faults, date, b, t));
  }

  lemma RosterSize(a: seq<Employee>, b: seq<Employee>)
    requires Distinct(a) && Distinct(b) && forall e :: e in a <==> e in b
    ensures |a| == |b|
  {
    SetOfRoster(a);
    SetOfRoster(b);
    assert (set e | e in a) == (set e | e in b);
  }

  lemma {:induction false} SetOfRoster(a: seq<Employee>)
    requires Distinct(a)
    ensures |set e | e in a| == |a|
  {
    if a != [] {
      var n := |a| - 1;
      SetOfRoster(a[..n]);
      assert a == a[..n] + [a[n]];
      assert (set e | e in a) == (set e | e in a[..n]) + {a[n]};
      assert a[n] !in a[..n];
    }
  }

  /** One employee's turn; an exception before or after the write is caught by the caller and counted. */
  method MarkOne(db: Db, cfg: Config, emp: Employee, date: Day, isHoliday: bool, isOnLeave: bool, fault: Fault,
                 cache: RuleCache)
    returns (tally: Tally, next: RuleCache)
    requires CacheOk(cfg, cache)
    modifies db`records
    ensures CacheOk(cfg, next)
    ensures var r := Daily(cfg, emp, date, isHoliday, isOnLeave, fault, Lookup(old(db.records), Key(emp.id, date)));
            db.records == Put(old(db.records), Key(emp.id, date), r.rec) && tally == r.tally
  {
    next := cache;
    var key := Key(emp.id, date);
    if fault == BeforeWrite {
      assert db.records == Put(db.records, key, Lookup(db.records, key));
      return Failed, next;
    }
    if emp.joining.Some? && date < emp.joining.value {
      assert db.records == Put(db.records, key, Lookup(db.records, key));
      return Skipped, next;
    }
    if emp.lastWorking.Some? && date > emp.lastWorking.value {
      assert db.records == Put(db.records, key, Lookup(db.records, key));
      return Skipped, next;
    }
    var found: Option<Assigned>;
    found, next := ResolveRule(cfg, emp.id, cache);
    if found.None? {
      assert db.records == Put(db.records, key, Lookup(db.records, key));
      return Skipped, next;
    }
    var existing := Lookup(db.records, key);
    if existing.Some? {
      if existing.value.status == Absent && (isOnLeave || isHoliday) {
        db.records := db.records[key := Stamped(existing.value, if isHoliday then Holiday else OnLeave)];
        tally := Upgraded;
      } else {
        assert db.records == Put(db.records, key, existing);
        return Skipped, next;
      }
    } else {
      var status;
      if IsOff(found.value.rule, date) {
        status, tally := WeeklyOffDay, WeeklyOffCreated;
      } else if isHoliday {
        status, tally := Holiday, HolidayCreated;
      } else if isOnLeave {
        status, tally := OnLeave, LeaveCreated;
      } else {
        status, tally := Absent, AbsentCreated;
      }
      db.records := db.records[key := AutoRecord(found.value, status)];
    }
    if fault == AfterWrite {
      tally := Failed;
    }
  }

  /** A turn later in the loop sees the row the first table had. */
  lemma TurnUnaffected(cfg: Config, facts: Facts, faults: Faults, date: Day, done: seq<Employee>, e: Employee, t: Table)
    requires Distinct(done + [e])
    ensures Turn(cfg, facts, faults, date, e, DailyTable(cfg, facts, faults, date, done, t)) == Turn(cfg, facts, faults, date, e, t)
    ensures Distinct(done) && e !in done
  {
    var all := done + [e];
    assert forall i :: 0 <= i < |done| ==> all[i] == done[i] && all[i].id != all[|done|].id;
    assert forall i, j :: 0 <= i < j < |done| ==> all[i].id != all[j].id;
    DailyPointwise(cfg, facts, faults, date, done, t, Key(e.id, date));
    RowUntouched(cfg, facts, faults, date, done, t, Key(e.id, date));
  }

  /** The roster of one organization. `done` are the employees that had their turn in earlier organizations. */
  method MarkRoster(db: Db, cfg: Config, facts: Facts, faults: Faults, date: Day, org: nat, roster: seq<Employee>,
                    ghost done: seq<Employee>, ghost first: Table, summary: DailySummary)
    returns (total: DailySummary)
    requires Distinct(done + roster) && forall e :: e in roster ==> e.org == Some(org)
    requires db.records == DailyTable(cfg, facts, faults, date, done, first)
    requires DailyCounted(cfg, facts, faults, date, done, first, summary)
    modifies db`records
    ensures db.records == DailyTable(cfg, facts, faults, date, done + roster, first)
    ensures DailyCounted(cfg, facts, faults, date, done + roster, first, total)
  {
    var isHoliday := (org, date) in facts.holidays;
    var onLeave := OnLeaveEmployeeIds(facts.leaves, org, date);
    var cache: RuleCache := map[];
    total := summary;
    assert done + roster[..0] == done;
    for n := 0 to |roster|
      invariant CacheOk(cfg, cache)
      invariant db.records == DailyTable(cfg, facts, faults, date, done + roster[..n], first)
      invariant DailyCounted(cfg, facts, faults, date, done + roster[..n], first, total)
    {
      var emp := roster[n];
      ghost var seen := done + roster[..n];
      assert done + roster[..n + 1] == seen + [emp];
      assert (seen + [emp])[..|seen|] == seen;
      forall i, j | 0 <= i < j < |seen + [emp]|
        ensures (seen + [emp])[i].id != (seen + [emp])[j].id
      {
        assert (seen + [emp])[i] == (done + roster)[i] && (seen + [emp])[j] == (done + roster)[j];
      }
      TurnUnaffected(cfg, facts, faults, date, seen, emp, first);
      DailyCountStep(cfg, facts, faults, date, seen, first, total, emp);
      var tally;
      tally, cache := MarkOne(db, cfg, emp, date, isHoliday, emp.id in onLeave, FaultOf(faults, emp.id), cache);
      total := Add(total, tally);
    }
    assert roster[..|roster|] == roster;
  }

  /**
   The daily job over every covered employee, organization by organization: the table is that of one
   turn per employee with an organization, and each counter says how many turns came out that way.
   */
  method RunDailyAbsentMarking(db: Db, cfg: Config, facts: Facts, faults: Faults, date: Day, employees: seq<Employee>)
    returns (summary: DailySummary)
    requires Distinct(employees)
    modifies db`records
    ensures db.records == DailyTable(cfg, facts, faults, date, Listed(employees), old(db.records))
    ensures DailyCounted(cfg, facts, faults, date, Listed(employees), old(db.records), summary)
    ensures CountsRows(faults, date, employees, old(db.records), db.records, summary)
  {
    ghost var first := db.records;
    ghost var done: seq<Employee> := [];
    summary := DailySummary(0, 0, 0, 0, 0, 0, 0);
    var orgs, byOrg := GroupByOrg(employees);
    assert forall tally :: TurnedOut(cfg, facts, faults, date, done, first, tally) == {};
    for n := 0 to |orgs|
      invariant Distinct(done)
      invariant forall e :: e in done <==> e in employees && e.covered && e.org.Some? && e.org.value in orgs[..n]
      invariant db.records == DailyTable(cfg, facts, faults, date, done, first)
      invariant DailyCounted(cfg, facts, faults, date, done, first, summary)
    {
      var org := orgs[n];
      assert orgs[..n + 1] == orgs[..n] + [org];
      assert org !in orgs[..n];
      ghost var more := done + byOrg[org];
      forall i, j | 0 <= i < j < |more|
        ensures more[i].id != more[j].id
      {
        if i < |done| <= j {
          assert more[i] in done && more[j] in byOrg[org];
          OneRowEach(employees, more[i], more[j]);
        }
      }
      summary := MarkRoster(db, cfg, facts, faults, date, org, byOrg[org], done, first, summary);
      done := more;
    }
    assert orgs[..|orgs|] == orgs;
    DailyOrderIrrelevant(cfg, facts, faults, date, done, Listed(employees), first);
    RosterSize(done, Listed(employees));
    SummaryFromRows(cfg, facts, faults, date, employees, first, summary);
  }

  lemma OneRowEach(employees: seq<Employee>, a: Employee, b: Employee)
    requires Distinct(employees) && a in employees && b in employees && a != b
    ensures a.id != b.id
  {
  }

  // ---- leave and holiday events -------------------------------------------------------------------

  /** The cursor loop over the days of a range. */
  method EachDay(from: Day, last: Day) returns (days: seq<Day>)
    ensures days == EachDate(from, last)
  {
    days := [];
    var cursor := from;
    while cursor <= last
      invariant from <= cursor && (cursor <= last + 1 || cursor == from)
      invariant |days| == cursor - from
      invariant forall i :: 0 <= i < |days| ==> days[i] == from + i
      decreases last + 1 - cursor
    {
      days := days + [cursor];
      cursor := cursor + 1;
    }
  }

  /** On approval; a request that is not approved, or an employee without an organization, changes nothing. */
  method SyncLeaveToAttendance(db: Db, cfg: Config, holidays: set<(nat, Day)>, leave: Leave, org: Option<nat>)
    modifies db`records
    ensures db.records ==
            if leave.approved && org.Some?
            then SyncLeave(cfg, holidays, org.value, leave.emp, EachDate(leave.from, leave.to), old(db.records))
            else old(db.records)
  {
    if !leave.approved || org.None? {
      return;
    }
    var emp := leave.emp;
    var cache: RuleCache := map[];
    var days := EachDay(leave.from, leave.to);
    for n := 0 to |days|
      invariant CacheOk(cfg, cache)
      invariant db.records == SyncLeave(cfg, holidays, org.value, emp, days[..n], old(db.records))
    {
      var key := Key(emp, days[n]);
      assert days[..n + 1][..n] == days[..n];
      assert db.records == Put(db.records, key, Lookup(db.records, key));
      var found;
      found, cache := ResolveRule(cfg, emp, cache);
      if found.None? {
        continue;
      }
      if IsOff(found.value.rule, days[n]) {
        continue;
      }
      if (org.value, days[n]) in holidays {
        continue;
      }
      if key in db.records {
        if db.records[key].status != Absent {
          continue;
        }
        db.records := db.records[key := Stamped(db.records[key], OnLeave)];
      } else {
        db.records := db.records[key := AutoRecord(found.value, OnLeave)];
      }
    }
    assert days[..|days|] == days;
  }

  /** On cancellation, whatever the state of the request. */
  method ReverseLeaveSync(db: Db, cfg: Config, holidays: set<(nat, Day)>, leave: Leave, org: Option<nat>)
    modifies db`records
    ensures db.records ==
            if org.Some?
            then ReverseLeave(cfg, holidays, org.value, leave.emp, EachDate(leave.from, leave.to), old(db.records))
            else old(db.records)
  {
    if org.None? {
      return;
    }
    var emp := leave.emp;
    var cache: RuleCache := map[];
    var days := EachDay(leave.from, leave.to);
    for n := 0 to |days|
      invariant CacheOk(cfg, cache)
      invariant db.records == ReverseLeave(cfg, holidays, org.value, emp, days[..n], old(db.records))
    {
      var key := Key(emp, days[n]);
      assert days[..n + 1][..n] == days[..n];
      assert db.records == Put(db.records, key, Lookup(db.records, key));
      if key !in db.records || db.records[key].status != OnLeave || db.records[key].source != Auto {
        continue;
      }
      var found;
      found, cache := ResolveRule(cfg, emp, cache);
      var status := Absent;
      if found.Some? && IsOff(found.value.rule, days[n]) {
        status := WeeklyOffDay;
      } else if (org.value, days[n]) in holidays {
        status := Holiday;
      }
      db.records := db.records[key := db.records[key].(status := status)];
    }
    assert days[..|days|] == days;
  }

  /** What one more employee adds to a holiday sync. */
  lemma HolidaySyncSnoc(cfg: Config, date: Day, employees: seq<Employee>, org: nat, n: nat, t: Table)
    requires n < |employees|
    ensures var e, before := employees[n], SyncHoliday(cfg, date, CoveredIn(employees[..n], org), t);
            SyncHoliday(cfg, date, CoveredIn(employees[..n + 1], org), t) ==
            if e.org == Some(org) && e.covered
            then Put(before, Key(e.id, date), HolidaySynced(cfg, e.id, date, Lookup(before, Key(e.id, date))))
            else before
  {
    var e, ids := employees[n], CoveredIn(employees[..n], org);
    assert employees[..n + 1][..n] == employees[..n];
    assert (ids + [e.id])[..|ids|] == ids;
    if !(e.org == Some(org) && e.covered) {
      assert CoveredIn(employees[..n + 1], org) == ids;
    }
  }

  method SyncHolidayToAttendance(db: Db, cfg: Config, date: Day, org: nat, employees: seq<Employee>)
    modifies db`records
    ensures db.records == SyncHoliday(cfg, date, CoveredIn(employees, org), old(db.records))
  {
    var cache: RuleCache := map[];
    for n := 0 to |employees|
      invariant CacheOk(cfg, cache)
      invariant db.records == SyncHoliday(cfg, date, CoveredIn(employees[..n], org), old(db.records))
    {
      var emp := employees[n];
      HolidaySyncSnoc(cfg, date, employees, org, n, old(db.records));
      if emp.org != Some(org) || !emp.covered {
        continue;
      }
      var key := Key(emp.id, date);
      assert db.records == Put(db.records, key, Lookup(db.records, key));
      var found;
      found, cache := ResolveRule(cfg, emp.id, cache);
      if found.None? {
        continue;
      }
      if IsOff(found.value.rule, date) {
        continue;
      }
      if key in db.records {
        if db.records[key].status != Absent {
          continue;
        }
        db.records := db.records[key := Stamped(db.records[key], Holiday)];
      } else {
        db.records := db.records[key := AutoRecord(found.value, Holiday)];
      }
    }
    assert employees[..|employees|] == employees;
  }

  /** Every AUTO HOLIDAY record of the organization's members on that date, in whatever order they are found. */
  method ReverseHolidaySync(db: Db, cfg: Config, date: Day, members: set<nat>)
    modifies db`records
    ensures db.records == ReverseHoliday(cfg, date, members, old(db.records))
  {
    var cache: RuleCache := map[];
    var found := set k | k in db.records && k.date == date && k.emp in members &&
                         db.records[k].status == Holiday && db.records[k].source == Auto;
    var todo := found;
    while todo != {}
      invariant CacheOk(cfg, cache)
      invariant todo <= found
      invariant db.records.Keys == old(db.records).Keys
      invariant forall k :: k in db.records ==>
                  db.records[k] == if k in found - todo then HolidayReversed(cfg, k.emp, date, Some(old(db.records)[k])).value
                                   else old(db.records)[k]
      decreases |todo|
    {
      var key :| key in todo;
      todo := todo - {key};
      var rule;
      rule, cache := ResolveRule(cfg, key.emp, cache);
      var status := if rule.Some? && IsOff(rule.value.rule, date) then WeeklyOffDay else Absent;
      db.records := db.records[key := db.records[key].(status := status)];
    }
  }
}
