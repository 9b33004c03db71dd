/** Runs: sequences of service calls and cron passes under a clock that never goes back. */
module AttendanceRuns {
  import opened Prelude
  import opened Calendar
  import opened AttendanceCalc
  import opened Attendance
  import opened AttendanceInvariant
  import opened Materialization
  import opened RecordTables

  datatype Call =
    | DoCheckIn(emp: nat, place: Place, source: Source)
    | DoCheckOut(emp: nat)
    | DoAutoPass(limit: nat)
    | DoSubmit(emp: nat, sid: nat, requested: Time)
    | DoApproveCorrection(cid: nat)
    | DoRejectCorrection(cid: nat)
    | DoApproveRemote(key: Key)
    | DoRejectRemote(key: Key)
    | DoDaily(facts: Facts, faults: Faults, date: Day, roster: seq<Employee>)
    | DoSyncLeave(holidays: set<(nat, Day)>, org: nat, emp: nat, from: Day, to: Day)
    | DoReverseLeave(holidays: set<(nat, Day)>, org: nat, emp: nat, from: Day, to: Day)
    | DoSyncHoliday(date: Day, emps: seq<nat>)
    | DoReverseHoliday(date: Day, members: set<nat>)

  datatype Event = Event(now: Time, call: Call)

  function Step(cfg: Config, st: State, e: Event): State {
    match e.call
    case DoCheckIn(emp, place, source) => CheckIn(cfg, st, emp, place, source, e.now).st
    case DoCheckOut(emp) => CheckOut(cfg, st, emp, e.now).st
    case DoAutoPass(limit) => AutoPass(cfg, st, limit, e.now)
    case DoSubmit(emp, sid, requested) => SubmitCorrection(st, emp, sid, requested).st
    case DoApproveCorrection(cid) => ApproveCorrection(cfg, st, cid).st
    case DoRejectCorrection(cid) => RejectCorrection(st, cid).st
    case DoApproveRemote(key) => ApproveRemote(cfg, st, key).st
    case DoRejectRemote(key) => RejectRemote(st, key).st
    case DoDaily(facts, faults, date, roster) => st.(records := DailyTable(cfg, facts, faults, date, roster, st.records))
    case DoSyncLeave(holidays, org, emp, from, to) =>
      st.(records := SyncLeave(cfg, holidays, org, emp, EachDate(from, to), st.records))
    case DoReverseLeave(holidays, org, emp, from, to) =>
      st.(records := ReverseLeave(cfg, holidays, org, emp, EachDate(from, to), st.records))
    case DoSyncHoliday(date, emps) => st.(records := SyncHoliday(cfg, date, emps, st.records))
    case DoReverseHoliday(date, members) => st.(records := ReverseHoliday(cfg, date, members, st.records))
  }

  function Run(cfg: Config, st: State, events: seq<Event>): State {
    if events == [] then st
    else Step(cfg, Run(cfg, st, events[..|events| - 1]), events[|events| - 1])
  }

  /** The clock at the end of a run that starts at `start`. */
  function Clock(start: Time, events: seq<Event>): Time {
    if events == [] then start else events[|events| - 1].now
  }

  ghost predicate ClockForward(start: Time, events: seq<Event>) {
    && (forall i :: 0 <= i < |events| ==> start <= events[i].now)
    && (forall i, j :: 0 <= i < j < |events| ==> events[i].now <= events[j].now)
  }

  const EMPTY: State := State([], map[], [], map[])

  // ---- materialization inside a run ---------------------------------------------------------------

  /** The daily job and the syncs change a record's status and source, or add an empty record. */
  ghost predicate RowStatusOnly(cfg: Config, k: Key, before: Option<Record>, after: Option<Record>) {
    match before
    case Some(b) =>
      && after.Some?
      && after.value == b.(status := after.value.status, source := after.value.source)
      && (after.value.status == HalfDay ==> b.status == HalfDay)
    case None =>
      after.Some? ==>
        && after.value.worked == 0
        && after.value.overtime == 0
        && after.value.status != HalfDay
        && RecordConfigured(cfg, k, after.value)
  }

  ghost predicate StatusOnly(cfg: Config, before: Table, after: Table) {
    forall k :: RowStatusOnly(cfg, k, Lookup(before, k), Lookup(after, k))
  }

  lemma StatusOnlyThenPut(cfg: Config, a: Table, b: Table, k: Key, rec: Option<Record>)
    requires StatusOnly(cfg, a, b) && RowStatusOnly(cfg, k, Lookup(b, k), rec)
    ensures StatusOnly(cfg, a, Put(b, k, rec))
  {
  }

  lemma TurnIsStatusOnly(cfg: Config, facts: Facts, faults: Faults, date: Day, e: Employee, t: Table)
    ensures RowStatusOnly(cfg, Key(e.id, date), Lookup(t, Key(e.id, date)), Turn(cfg, facts, faults, date, e, t).rec)
  {
  }

  lemma {:induction false} DailyIsStatusOnly(cfg: Config, facts: Facts, faults: Faults, date: Day,
                        roster: seq<Employee>, t: Table)
    ensures StatusOnly(cfg, t, DailyTable(cfg, facts, faults, date, roster, t))
  {
    if roster != [] {
      var n := |roster| - 1;
      var before := DailyTable(cfg, facts, faults, date, roster[..n], t);
      DailyIsStatusOnly(cfg, facts, faults, date, roster[..n], t);
      TurnIsStatusOnly(cfg, facts, faults, date, roster[n], before);
      StatusOnlyThenPut(cfg, t, before, Key(roster[n].id, date), Turn(cfg, facts, faults, date, roster[n], before).rec);
    }
  }

  lemma {:induction false} SyncLeaveIsStatusOnly(cfg: Config, holidays: set<(nat, Day)>, org: nat, emp: nat,
                        days: seq<Day>, t: Table)
    ensures StatusOnly(cfg, t, SyncLeave(cfg, holidays, org, emp, days, t))
  {
    if days != [] {
      var n := |days| - 1;
      var k := Key(emp, days[n]);
      var before := SyncLeave(cfg, holidays, org, emp, days[..n], t);
      SyncLeaveIsStatusOnly(cfg, holidays, org, emp, days[..n], t);
      StatusOnlyThenPut(cfg, t, before, k, LeaveSynced(cfg, emp, days[n], (org, days[n]) in holidays, Lookup(before, k)));
    }
  }

  lemma {:induction false} ReverseLeaveIsStatusOnly(cfg: Config, holidays: set<(nat, Day)>, org: nat, emp: nat,
                        days: seq<Day>, t: Table)
    ensures StatusOnly(cfg, t, ReverseLeave(cfg, holidays, org, emp, days, t))
  {
    if days != [] {
      var n := |days| - 1;
      var k := Key(emp, days[n]);
      var before := ReverseLeave(cfg, holidays, org, emp, days[..n], t);
      ReverseLeaveIsStatusOnly(cfg, holidays, org, emp, days[..n], t);
      StatusOnlyThenPut(cfg, t, before, k, LeaveReversed(cfg, emp, days[n], (org, days[n]) in holidays, Lookup(before, k)));
    }
  }

  lemma {:induction false} SyncHolidayIsStatusOnly(cfg: Config, date: Day, emps: seq<nat>, t: Table)
    ensures StatusOnly(cfg, t, SyncHoliday(cfg, date, emps, t))
  {
    if emps != [] {
      var n := |emps| - 1;
      var k := Key(emps[n], date);
      var before := SyncHoliday(cfg, date, emps[..n], t);
      SyncHolidayIsStatusOnly(cfg, date, emps[..n], t);
      StatusOnlyThenPut(cfg, t, before, k, HolidaySynced(cfg, emps[n], date, Lookup(before, k)));
    }
  }

  lemma StatusOnlyKeeps(cfg: Config, st: State, after: Table, now: Time)
    requires Inv(cfg, st, now) && StatusOnly(cfg, st.records, after)
    ensures Inv(cfg, st.(records := after), now)
  {
    forall k | k in after
      ensures after[k].worked == WorkedIn(st.sessions, k)
      ensures RecordOk(cfg, k, after[k])
    {
      assert RowStatusOnly(cfg, k, Lookup(st.records, k), Lookup(after, k));
      if k !in st.records {
        NothingWorked(st.sessions, k);
      }
    }
    forall i | 0 <= i < |st.sessions|
      ensures st.sessions[i].key in after
    {
      var k := st.sessions[i].key;
      assert k in st.records && RowStatusOnly(cfg, k, Lookup(st.records, k), Lookup(after, k));
    }
  }

  // ---- runs -----------------------------------------------------------------------------------------

  predicate IsMaterialization(call: Call) {
    call.DoDaily? || call.DoSyncLeave? || call.DoReverseLeave? || call.DoSyncHoliday? || call.DoReverseHoliday?
  }

  lemma MaterializationShape(cfg: Config, st: State, e: Event)
    requires IsMaterialization(e.call)
    ensures Step(cfg, st, e) == st.(records := Step(cfg, st, e).records)
    ensures StatusOnly(cfg, st.records, Step(cfg, st, e).records)
  {
    match e.call
    case DoDaily(facts, faults, date, roster) => DailyIsStatusOnly(cfg, facts, faults, date, roster, st.records);
    case DoSyncLeave(holidays, org, emp, from, to) =>
      SyncLeaveIsStatusOnly(cfg, holidays, org, emp, EachDate(from, to), st.records);
    case DoReverseLeave(holidays, org, emp, from, to) =>
      ReverseLeaveIsStatusOnly(cfg, holidays, org, emp, EachDate(from, to), st.records);
    case DoSyncHoliday(date, emps) => SyncHolidayIsStatusOnly(cfg, date, emps, st.records);
    case DoReverseHoliday(date, members) =>
  }

  lemma StepKeeps(cfg: Config, st: State, e: Event)
    requires Inv(cfg, st, e.now)
    ensures Inv(cfg, Step(cfg, st, e), e.now)
  {
    match e.call
    case DoCheckIn(emp, place, source) => CheckInKeeps(cfg, st, emp, place, source, e.now);
    case DoCheckOut(emp) => CheckOutKeeps(cfg, st, emp, e.now);
    case DoAutoPass(limit) =>
      CloseAllKeeps(cfg, st, Batch(st.sessions, limit), e.now);
    case DoSubmit(emp, sid, requested) => SubmitKeeps(cfg, st, emp, sid, requested, e.now);
    case DoApproveCorrection(cid) => ApproveCorrectionKeeps(cfg, st, cid, e.now);
    case DoRejectCorrection(cid) => RejectCorrectionKeeps(cfg, st, cid, e.now);
    case DoApproveRemote(key) => RemoteKeeps(cfg, st, key, e.now);
    case DoRejectRemote(key) => RemoteKeeps(cfg, st, key, e.now);
    case _ =>
      MaterializationShape(cfg, st, e);
      StatusOnlyKeeps(cfg, st, Step(cfg, st, e).records, e.now);
  }

  /**
   Every run keeps the invariant: each employee has at most one open session, sessions of one employee
   never overlap and end no later than now, worked minutes are the sum over closed sessions, and an
   automatically closed session never ends after its cutoff, corrected or not.
   */
  lemma {:induction false} RunKeeps(cfg: Config, st: State, start: Time, events: seq<Event>)
    requires Inv(cfg, st, start) && ClockForward(start, events)
    ensures Inv(cfg, Run(cfg, st, events), Clock(start, events))
  {
    if events != [] {
      var n := |events| - 1;
      RunKeeps(cfg, st, start, events[..n]);
      var before := Run(cfg, st, events[..n]);
      InvLater(cfg, before, Clock(start, events[..n]), events[n].now);
      StepKeeps(cfg, before, events[n]);
    }
  }

  /** From empty tables, with no assumption on the calls: the invariant read out at any two sessions. */
  lemma ReachableSessions(cfg: Config, start: Time, events: seq<Event>, i: nat, j: nat)
    requires ClockForward(start, events)
    requires var ss := Run(cfg, EMPTY, events).sessions; i < j < |ss|
    ensures var st := Run(cfg, EMPTY, events);
            var s, t := st.sessions[i], st.sessions[j];
            && (s.key.emp == t.key.emp ==> s.checkOut.Some? && s.checkOut.value <= t.checkIn)
            && (t.checkOut.Some? ==> t.checkIn <= t.checkOut.value <= Clock(start, events))
            && (t.auto ==>
                  && t.checkOut.Some?
                  && Resolve(cfg, t.key.emp).Some?
                  && t.checkIn <= t.checkOut.value <= AutoCheckoutAt(t.checkIn, Resolve(cfg, t.key.emp).value.shift))
  {
    RunKeeps(cfg, EMPTY, start, events);
    var ss := Run(cfg, EMPTY, events).sessions;
    assert Precedes(ss[i], ss[j]) && SessionOk(ss[j], Clock(start, events)) && CappedAt(cfg, ss[j]);
  }

  /** From empty tables: worked minutes against the span of the day's closed sessions. */
  lemma ReachableWorked(cfg: Config, start: Time, events: seq<Event>, key: Key, lo: Time, hi: Time)
    requires ClockForward(start, events) && lo <= hi
    requires key in Run(cfg, EMPTY, events).records
    requires var ss := Run(cfg, EMPTY, events).sessions;
             forall i :: 0 <= i < |ss| && ss[i].key == key && ss[i].checkOut.Some? ==>
                           lo <= ss[i].checkIn && ss[i].checkOut.value <= hi
    ensures var st := Run(cfg, EMPTY, events);
            && st.records[key].worked == WorkedIn(st.sessions, key)
            && MS_PER_MINUTE * st.records[key].worked <= (hi - lo) + 30_000 * ClosedCount(st.sessions, key)
  {
    RunKeeps(cfg, EMPTY, start, events);
    WorkedIsConserved(cfg, Run(cfg, EMPTY, events), Clock(start, events), key, lo, hi);
  }
}
