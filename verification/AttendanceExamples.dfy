/** Short runs from empty tables that reach the exceptional cases of the attendance laws. */
module AttendanceExamples {
  import opened Prelude
  import opened Calendar
  import opened AttendanceCalc
  import opened Attendance
  import opened AttendanceInvariant
  import opened AttendanceLaws
  import opened AttendanceRuns
  import opened Materialization
  import opened RecordTables

  const HOUR: nat := 3_600_000

  /** 09:00 to 18:00, two hours of grace, at most 14 hours. */
  const SHIFT: Shift := Shift(540, 1080, None, false, Some(120), Some(0), Some(1400), true, true)

  /** Eight hours make a full day and the start of overtime; remote days need approval. */
  const RULE: Rule := Rule(0, None, 800, 400, Some(800), true, true, true, true, true)

  const CONFIG: Config := Config(map[7 := 0], map[0 := RULE], map[0 := SHIFT])

  const KEY: Key := Key(7, 0)

  lemma RunSnoc(cfg: Config, st: State, events: seq<Event>, e: Event)
    ensures Run(cfg, st, events + [e]) == Step(cfg, Run(cfg, st, events), e)
  {
  }

  lemma RunTwo(cfg: Config, st: State, e: Event, f: Event)
    ensures Run(cfg, st, [e, f]) == Step(cfg, Step(cfg, st, e), f)
  {
    RunSnoc(cfg, st, [], e);
    RunSnoc(cfg, st, [e], f);
    assert [] + [e] == [e] && [e] + [f] == [e, f];
  }

  // ---- a leave day on which the employee works remotely after all -----------------------------------

  const SYNC: Event := Event(0, DoSyncLeave({}, 1, 7, 0, 0))
  const LATE_REMOTE_IN: Event := Event(10 * HOUR, DoCheckIn(7, Beyond, Web))

  const ON_LEAVE: Record := AutoRecord(Assigned(0, RULE), OnLeave)
  const SYNCED: State := State([], map[KEY := ON_LEAVE], [], map[])
  const LEAVE_DAY: State :=
    State([Session(KEY, 10 * HOUR, None, 0, false, RemoteIn, Web)],
          map[KEY := ON_LEAVE.(status := PendingApproval)], [], map[KEY := Pending])

  lemma LeaveIsSynced()
    ensures Step(CONFIG, EMPTY, SYNC) == SYNCED
  {
    var days: seq<Day> := [0];
    assert EachDate(0, 0) == days;
    assert days[..0] == [];
    assert SyncLeave(CONFIG, {}, 1, 7, days[..0], map[]) == map[];
    assert LeaveSynced(CONFIG, 7, 0, false, None) == Some(ON_LEAVE);
    assert SyncLeave(CONFIG, {}, 1, 7, days, map[]) == map[KEY := ON_LEAVE];
  }

  lemma LeaveDayCheckIn()
    ensures Step(CONFIG, SYNCED, LATE_REMOTE_IN) == LEAVE_DAY
  {
    assert Resolve(CONFIG, 7) == Some(Resolved(0, RULE, SHIFT));
    assert DayOf(10 * HOUR) == 0;
  }

  lemma LeaveDayKeeps()
    ensures Inv(CONFIG, Run(CONFIG, EMPTY, [SYNC, LATE_REMOTE_IN]), 19 * HOUR)
  {
    RunKeeps(CONFIG, EMPTY, 0, [SYNC, LATE_REMOTE_IN]);
    InvLater(CONFIG, Run(CONFIG, EMPTY, [SYNC, LATE_REMOTE_IN]), 10 * HOUR, 19 * HOUR);
  }

  /** Approving before or after check-out decides between LATE and PRESENT. */
  lemma RemoteApprovalOrderMatters()
    ensures var st := Run(CONFIG, EMPTY, [SYNC, LATE_REMOTE_IN]);
            var a, b := ApproveThenOut(CONFIG, st, KEY, 19 * HOUR), OutThenApprove(CONFIG, st, KEY, 19 * HOUR);
            && AwaitsDecision(CONFIG, st, 0, 19 * HOUR)
            && KEY in a.records && KEY in b.records
            && a.records[KEY].status != b.records[KEY].status
  {
    LeaveIsSynced();
    LeaveDayCheckIn();
    RunTwo(CONFIG, EMPTY, SYNC, LATE_REMOTE_IN);
    LeaveDayKeeps();
    RemoteApprovalCommutes(CONFIG, LEAVE_DAY, 0, 19 * HOUR);
  }

  // ---- a remote day that is closed automatically while it awaits its decision -----------------------

  const REMOTE_IN: Event := Event(9 * HOUR, DoCheckIn(7, Beyond, Web))
  const CLOSE: Event := Event(24 * HOUR, DoAutoPass(500))

  const WORKING: State :=
    State([Session(KEY, 9 * HOUR, None, 0, false, RemoteIn, Web)],
          map[KEY := FreshRecord(Resolved(0, RULE, SHIFT), 9 * HOUR, PendingApproval, RemoteIn, Web)], [], map[KEY := Pending])

  lemma RemoteCheckIn()
    ensures Step(CONFIG, EMPTY, REMOTE_IN) == WORKING
  {
    assert Resolve(CONFIG, 7) == Some(Resolved(0, RULE, SHIFT));
    assert DayOf(9 * HOUR) == 0;
  }

  lemma OpenIdsOfOne(ss: seq<Session>)
    requires |ss| == 1 && ss[0].checkOut.None?
    ensures OpenIds(ss) == [0]
  {
  }

  lemma CloseAllOfOne(cfg: Config, st: State, sid: nat, now: Time)
    ensures CloseAll(cfg, st, [sid], now) == CloseIfDue(cfg, st, sid, now)
  {
  }

  /** A pass over a single open session visits exactly that session. */
  lemma PassOverOne(cfg: Config, st: State, limit: nat, now: Time)
    requires |st.sessions| == 1 && st.sessions[0].checkOut.None? && limit > 0
    ensures AutoPass(cfg, st, limit, now) == CloseIfDue(cfg, st, 0, now)
  {
    OpenIdsOfOne(st.sessions);
    CloseAllOfOne(cfg, st, 0, now);
  }

  lemma TotalOfOne(s: Session, mins: nat)
    ensures Total([s], s.key, 0, mins) == mins
  {
  }

  /** Closed at 20:00 with 660 minutes on record, and no overtime while the decision is pending. */
  const CLOSED_SESSION: Session := Session(KEY, 9 * HOUR, Some(20 * HOUR), 660, true, RemoteIn, Auto)
  const CLOSED_RECORD: Record :=
    WORKING.records[KEY].(lastCheckOut := Some(20 * HOUR), worked := 660, hasAuto := true)
  const CLOSED: State := State([CLOSED_SESSION], map[KEY := CLOSED_RECORD], [], map[KEY := Pending])

  lemma ClosedAtTwenty()
    ensures Step(CONFIG, WORKING, CLOSE) == CLOSED
  {
    var s, rec := WORKING.sessions[0], WORKING.records[KEY];
    assert ConfigOf(CONFIG, rec) == Some(Resolved(0, RULE, SHIFT));
    assert AutoCheckoutAt(9 * HOUR, SHIFT) == 20 * HOUR;
    PassOverOne(CONFIG, WORKING, 500, 24 * HOUR);
    assert ClosedSession(s, 20 * HOUR, true) == CLOSED_SESSION;
    TotalOfOne(CLOSED_SESSION, 660);
    assert [s][0 := CLOSED_SESSION] == [CLOSED_SESSION];
    assert CheckoutRecord(rec, 9 * HOUR, 660, RULE, SHIFT, 20 * HOUR, true) == CLOSED_RECORD;
  }

  function DecideDay(approve: bool): Event {
    Event(24 * HOUR, if approve then DoApproveRemote(KEY) else DoRejectRemote(KEY))
  }

  const SUBMIT: Event := Event(25 * HOUR, DoSubmit(7, 0, 19 * HOUR))

  /** The whole day: remote check-in, automatic check-out, the decision, a request to correct to 19:00. */
  function RemoteStory(approve: bool): seq<Event> {
    [REMOTE_IN, CLOSE] + [DecideDay(approve)] + [SUBMIT]
  }

  function Requested(approve: bool): State {
    var status := if approve then Present else Absent;
    State([CLOSED_SESSION],
          map[KEY := CLOSED_RECORD.(status := status, correction := Some(Pending))],
          [Correction(0, 19 * HOUR, 20 * HOUR, 660, Pending)],
          map[KEY := if approve then Approved else Rejected])
  }

  function Decided(approve: bool): State {
    var status := if approve then Present else Absent;
    State([CLOSED_SESSION], map[KEY := CLOSED_RECORD.(status := status)], [],
          map[KEY := if approve then Approved else Rejected])
  }

  lemma DayDecided(approve: bool)
    ensures Step(CONFIG, CLOSED, DecideDay(approve)) == Decided(approve)
  {
    assert Resolve(CONFIG, 7) == Some(Resolved(0, RULE, SHIFT));
    assert !IsLate(9 * HOUR, SHIFT);
    assert Classify(660, RULE, false).status == Present;
  }

  lemma CorrectionRequested(approve: bool)
    ensures Step(CONFIG, Decided(approve), SUBMIT) == Requested(approve)
  {
  }

  /** Four steps joined into one run. */
  lemma RunFour(cfg: Config, s0: State, s1: State, s2: State, s3: State, e1: Event, e2: Event, e3: Event, e4: Event)
    requires s1 == Step(cfg, s0, e1) && s2 == Step(cfg, s1, e2) && s3 == Step(cfg, s2, e3)
    ensures Run(cfg, s0, [e1, e2] + [e3] + [e4]) == Step(cfg, s3, e4)
  {
    RunTwo(cfg, s0, e1, e2);
    RunSnoc(cfg, s0, [e1, e2], e3);
    RunSnoc(cfg, s0, [e1, e2] + [e3], e4);
  }

  lemma StoryState(approve: bool)
    ensures Run(CONFIG, EMPTY, RemoteStory(approve)) == Requested(approve)
  {
    RemoteCheckIn();
    ClosedAtTwenty();
    DayDecided(approve);
    CorrectionRequested(approve);
    RunFour(CONFIG, EMPTY, WORKING, CLOSED, Decided(approve), REMOTE_IN, CLOSE, DecideDay(approve), SUBMIT);
  }

  lemma StoryKeeps(approve: bool)
    ensures Inv(CONFIG, Run(CONFIG, EMPTY, RemoteStory(approve)), 25 * HOUR)
  {
    RunKeeps(CONFIG, EMPTY, 0, RemoteStory(approve));
  }

  lemma RequestIsApproved(approve: bool)
    ensures ApproveCorrection(CONFIG, Requested(approve), 0).reply == Done
  {
  }

  /**
   Approving the correction lowers the minutes of both days, yet raises the stored overtime of the
   approved one and the stored status of the rejected one.
   */
  lemma CorrectionCanRaise(approve: bool)
    ensures var st := Run(CONFIG, EMPTY, RemoteStory(approve));
            var after := ApproveCorrection(CONFIG, st, 0).st;
            && KEY in st.records && KEY in after.records
            && after.records[KEY].worked < st.records[KEY].worked
            && after.records[KEY].overtime > st.records[KEY].overtime
            && (Rank(after.records[KEY].status) > Rank(st.records[KEY].status) <==> !approve)
  {
    StoryState(approve);
    StoryKeeps(approve);
    RequestIsApproved(approve);
    var st := Requested(approve);
    ApprovalEffect(CONFIG, st, 0, 25 * HOUR);
    CorrectionRaisesStored(CONFIG, st, 0, 25 * HOUR);
  }
}
