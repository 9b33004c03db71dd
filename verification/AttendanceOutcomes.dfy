/**
 What each attendance call leaves in the tables and answers, read off the rows and columns: which rows
 change, and which instants, minutes and statuses they end with.
 */
module AttendanceOutcomes {
  import opened Prelude
  import opened Calendar
  import opened AttendanceCalc
  import opened AttendanceColumns
  import opened Attendance
  import opened AttendanceInvariant
  import opened AttendanceLaws
  import opened AutoCheckoutPass

  // ---- configuration --------------------------------------------------------------------------------

  /** `r` is the assigned rule with its shift, neither of them deleted. */
  ghost predicate Applies(cfg: Config, emp: nat, r: Resolved) {
    && emp in cfg.assignments && cfg.assignments[emp] == r.ruleId
    && r.ruleId in cfg.rules && cfg.rules[r.ruleId] == r.rule
    && r.rule.shiftId in cfg.shifts && cfg.shifts[r.rule.shiftId] == r.shift
  }

  lemma ResolvesToApplying(cfg: Config, emp: nat, r: Resolved)
    ensures Resolve(cfg, emp) == Some(r) <==> Applies(cfg, emp, r)
  {
  }

  ghost predicate HasOpen(ss: seq<Session>, emp: nat) {
    exists i :: 0 <= i < |ss| && ss[i].key.emp == emp && ss[i].checkOut.None?
  }

  ghost predicate OnDay(d: Day, t: Time) {
    d * MS_PER_DAY <= t < (d + 1) * MS_PER_DAY
  }

  lemma DayFromInstant(d: Day, t: Time)
    ensures OnDay(d, t) <==> DayOf(t) == d
  {
    DayBounds(t);
  }

  // ---- check-in ---------------------------------------------------------------------------------------

  /** Minutes late: whole minutes of the day past the shift start and its grace. */
  ghost predicate LateMinutesFit(now: Time, shift: Shift, minutes: Option<int>) {
    if !ComesLate(now, shift) then minutes.None?
    else
      && minutes.Some?
      && var since := now % MS_PER_DAY - (shift.start + (if shift.lateGrace.Some? then shift.lateGrace.value else 0)) * MS_PER_MINUTE;
         0 <= since - minutes.value * MS_PER_MINUTE < MS_PER_MINUTE
  }

  /** The row of a first check-in of the day. */
  ghost predicate Opened(row: Record, r: Resolved, now: Time, pending: bool, mode: Mode, source: Source) {
    && row == Record(Some(r.ruleId), Some(r.rule.shiftId), Some(now), None, 0, 0, ComesLate(now, r.shift), row.lateMinutes,
                     false, false, row.status, Some(mode), false, None, source)
    && LateMinutesFit(now, r.shift, row.lateMinutes)
    && row.status == if pending then PendingApproval else if ComesLate(now, r.shift) then Late else Present
  }

  /** The row of a further check-in: only the last check-out and the status change. */
  ghost predicate Reopened(before: Record, row: Record, pending: bool) {
    && row == before.(lastCheckOut := None, status := row.status)
    && row.status == if pending || before.status == PendingApproval then PendingApproval
                     else if before.late then Late else Present
  }

  /** A check-in that gets past every refusal opens one session on the day's record, and asks for approval if it must. */
  lemma CheckInOutcome(cfg: Config, st: State, emp: nat, place: Place, source: Source, now: Time, d: Day, r: Resolved)
    requires Applies(cfg, emp, r) && OnDay(d, now)
    requires !HasOpen(st.sessions, emp)
    requires Key(emp, d) in st.records ==> r.rule.allowMultiple || r.shift.allowMultiple
    requires r.rule.requireGeoFencing ==> !place.NoGps? && r.rule.hasGeoFence && (place.Beyond? ==> r.rule.allowRemote)
    ensures var k := Key(emp, d);
            var after := CheckIn(cfg, st, emp, place, source, now);
            var mode := if r.rule.requireGeoFencing && place.Beyond? then RemoteIn else OfficeIn;
            var pending := mode == RemoteIn && r.rule.remoteApprovalRequired;
            && after.st.sessions == st.sessions + [Session(k, now, None, 0, false, mode, source)]
            && k in after.st.records && after.st.records == st.records[k := after.st.records[k]]
            && (if k in st.records then Reopened(st.records[k], after.st.records[k], pending)
                else Opened(after.st.records[k], r, now, pending, mode, source))
            && after.st.corrections == st.corrections
            && after.st.approvals == (if pending && k !in st.approvals then st.approvals[k := Pending] else st.approvals)
            && after.reply == (if pending && k in st.approvals then Refused(DuplicateApproval) else Done)
  {
    ResolvesToApplying(cfg, emp, r);
    DayFromInstant(d, now);
    LatenessFromColumns(now, r.shift);
  }

  /** Every other check-in changes nothing, and is refused for the first of its reasons. */
  lemma CheckInRefused(cfg: Config, st: State, emp: nat, place: Place, source: Source, now: Time, d: Day, r: Resolved)
    requires Applies(cfg, emp, r) && OnDay(d, now)
    ensures var multiple := r.rule.allowMultiple || r.shift.allowMultiple;
            var after := CheckIn(cfg, st, emp, place, source, now);
            && (HasOpen(st.sessions, emp) ==> after == Outcome(st, Refused(AlreadyCheckedIn)))
            && (!HasOpen(st.sessions, emp) && Key(emp, d) in st.records && !multiple ==>
                  after == Outcome(st, Refused(MultipleNotAllowed)))
            && (!HasOpen(st.sessions, emp) && (Key(emp, d) in st.records ==> multiple) && r.rule.requireGeoFencing ==>
                  && (place.NoGps? ==> after == Outcome(st, Refused(GpsRequired)))
                  && (!place.NoGps? && !r.rule.hasGeoFence ==> after == Outcome(st, Refused(NoGeoFence)))
                  && (place.Beyond? && r.rule.hasGeoFence && !r.rule.allowRemote ==> after == Outcome(st, Refused(RemoteDisabled))))
  {
    ResolvesToApplying(cfg, emp, r);
    DayFromInstant(d, now);
  }

  lemma NoRuleNoCheckIn(cfg: Config, st: State, emp: nat, place: Place, source: Source, now: Time)
    requires forall r :: !Applies(cfg, emp, r)
    ensures CheckIn(cfg, st, emp, place, source, now) == Outcome(st, Refused(NoRule))
  {
    if Resolve(cfg, emp).Some? {
      ResolvesToApplying(cfg, emp, Resolve(cfg, emp).value);
    }
  }

  // ---- the checkout core ------------------------------------------------------------------------------

  /**
   The row a check-out at `at` leaves, from the rule and shift columns. A day that awaits its remote
   decision gets its minutes and nothing else that follows from them.
   */
  ghost predicate CheckedOut(before: Record, row: Record, checkIn: Time, worked: nat, r: Resolved, at: Time, isAuto: bool) {
    && row == before.(lastCheckOut := Some(at), worked := worked, overtime := row.overtime, halfDay := row.halfDay,
                      isOvertime := row.isOvertime, late := row.late, status := row.status, hasAuto := before.hasAuto || isAuto)
    && (row.late <==> ComesLate(if before.firstCheckIn.Some? then before.firstCheckIn.value else checkIn, r.shift))
    && (row.halfDay <==> row.status == HalfDay)
    && if before.status == PendingApproval then row.status == PendingApproval && row.overtime == 0 && !row.isOvertime
       else StatusFits(worked, r.rule, row.late, row.status) && OvertimeFits(worked, r.rule, row.overtime, row.isOvertime)
  }

  lemma CheckoutRow(before: Record, checkIn: Time, worked: nat, r: Resolved, at: Time, isAuto: bool)
    ensures CheckedOut(before, CheckoutRecord(before, checkIn, worked, r.rule, r.shift, at, isAuto), checkIn, worked, r, at, isAuto)
  {
    var first := OrElse(before.firstCheckIn, checkIn);
    LatenessFromColumns(first, r.shift);
    ClassifyFits(worked, r.rule, IsLate(first, r.shift));
  }

  /** A check-out closes the open session now and gives its record the day's minutes and what follows from them. */
  lemma CheckOutOutcome(cfg: Config, st: State, sid: nat, now: Time, r: Resolved, m: nat)
    requires Inv(cfg, st, now) && sid < |st.sessions| && st.sessions[sid].checkOut.None?
    requires Applies(cfg, st.sessions[sid].key.emp, r) && IsMinutes(st.sessions[sid].checkIn, now, m)
    ensures var s := st.sessions[sid];
            var after := CheckOut(cfg, st, s.key.emp, now);
            && after.reply == Done
            && s.key in st.records && s.key in after.st.records
            && after.st == st.(sessions := st.sessions[sid := Session(s.key, s.checkIn, Some(now), m, false, s.mode, s.source)],
                               records := st.records[s.key := after.st.records[s.key]])
            && CheckedOut(st.records[s.key], after.st.records[s.key], s.checkIn, st.records[s.key].worked + m, r, now, false)
  {
    var s := st.sessions[sid];
    assert SessionOk(s, now) && s.key in st.records;
    ResolvesToApplying(cfg, s.key.emp, r);
    MinutesFromInstants(s.checkIn, now, m);
    CheckOutAdds(cfg, st, sid, now);
    CheckoutRow(st.records[s.key], s.checkIn, st.records[s.key].worked + m, r, now, false);
  }

  /** Without an open session, or without a rule, nothing changes. */
  lemma CheckOutRefused(cfg: Config, st: State, emp: nat, now: Time, d: Day)
    requires Inv(cfg, st, now) && OnDay(d, now)
    requires HasOpen(st.sessions, emp) ==> forall r :: !Applies(cfg, emp, r)
    ensures CheckOut(cfg, st, emp, now) ==
            Outcome(st, if HasOpen(st.sessions, emp) then Refused(NoRule)
                        else if Key(emp, d) in st.records && st.records[Key(emp, d)].lastCheckOut.Some? then AlreadyOut
                        else Refused(NoActiveCheckIn))
  {
    DayFromInstant(d, now);
    if HasOpen(st.sessions, emp) && Resolve(cfg, emp).Some? {
      ResolvesToApplying(cfg, emp, Resolve(cfg, emp).value);
    }
  }

  // ---- automatic check-out ------------------------------------------------------------------------------

  /** Whether a pass closes a session: among the first `limit` open ones, enabled by its shift, and past its cutoff. */
  ghost predicate PassCloses(st: State, limit: nat, now: Time, i: nat, shift: Shift, at: Time)
    requires i < |st.sessions|
  {
    && st.sessions[i].checkOut.None?
    && OpenBefore(st.sessions, i) < limit
    && shift.autoCheckoutEnabled
    && IsCutoff(st.sessions[i].checkIn, shift, at)
    && at <= now
  }

  lemma PassedSession(cfg: Config, st: State, limit: nat, now: Time, i: nat, r: Resolved, at: Time)
    requires Inv(cfg, st, now) && i < |st.sessions|
    requires Applies(cfg, st.sessions[i].key.emp, r) && IsCutoff(st.sessions[i].checkIn, r.shift, at)
    ensures st.sessions[i].key in st.records
    ensures ConfigOf(cfg, st.records[st.sessions[i].key]) == Some(r)
    ensures CutoffOf(cfg, st, i) == at
    ensures Picked(cfg, st, Ids(Batch(st.sessions, limit)), now, i) <==> PassCloses(st, limit, now, i, r.shift, at)
  {
    var s := st.sessions[i];
    assert s.key in st.records;
    ResolvesToApplying(cfg, s.key.emp, r);
    SameConfig(cfg, s.key, st.records[s.key]);
    CutoffFromColumns(s.checkIn, r.shift, at);
    BatchMembers(st.sessions, limit, i);
  }

  /** A session that closes on its own leaves the row its columns ask for. */
  lemma ClosedRowOutcome(cfg: Config, st: State, now: Time, i: nat, r: Resolved, at: Time, m: nat)
    requires Inv(cfg, st, now) && i < |st.sessions| && st.sessions[i].checkOut.None?
    requires st.sessions[i].key in st.records && ConfigOf(cfg, st.records[st.sessions[i].key]) == Some(r)
    requires CutoffOf(cfg, st, i) == at && DiffMinutes(st.sessions[i].checkIn, at) == m
    ensures var before := st.records[st.sessions[i].key];
            CheckedOut(before, ClosedRow(cfg, st, i), st.sessions[i].checkIn, before.worked + m, r, at, true)
  {
    var s := st.sessions[i];
    ReclosedTotal(cfg, st, i, at, true, now);
    CheckoutRow(st.records[s.key], s.checkIn, st.records[s.key].worked + m, r, at, true);
  }

  lemma PickedOutcome(cfg: Config, st: State, ids: set<nat>, now: Time, after: State, i: nat, r: Resolved, at: Time, m: nat)
    requires Inv(cfg, st, now) && i < |st.sessions| && PassEffect(cfg, st, ids, now, after)
    requires st.sessions[i].key in st.records && ConfigOf(cfg, st.records[st.sessions[i].key]) == Some(r)
    requires CutoffOf(cfg, st, i) == at && IsMinutes(st.sessions[i].checkIn, at, m)
    ensures var s := st.sessions[i];
            && s.key in after.records
            && if Picked(cfg, st, ids, now, i) then
                 && after.sessions[i] == Session(s.key, s.checkIn, Some(at), m, true, s.mode, Auto)
                 && CheckedOut(st.records[s.key], after.records[s.key], s.checkIn, st.records[s.key].worked + m, r, at, true)
               else after.sessions[i] == s
  {
    var s := st.sessions[i];
    assert SessionAfter(cfg, st, ids, now, i, after.sessions[i]);
    MinutesFromInstants(s.checkIn, at, m);
    if Picked(cfg, st, ids, now, i) {
      assert RecordAfter(cfg, st, ids, now, s.key, after.records[s.key]);
      ClosedRowOutcome(cfg, st, now, i, r, at, m);
    }
  }

  /**
   One pass, session by session: a session that is closed ends at its cutoff with the minutes up to it,
   and its record is checked out then; any other one stays open.
   */
  lemma PassOutcome(cfg: Config, st: State, limit: nat, now: Time, i: nat, r: Resolved, at: Time, m: nat)
    requires Inv(cfg, st, now) && i < |st.sessions|
    requires Applies(cfg, st.sessions[i].key.emp, r)
    requires IsCutoff(st.sessions[i].checkIn, r.shift, at) && IsMinutes(st.sessions[i].checkIn, at, m)
    ensures var s := st.sessions[i];
            var after := AutoPass(cfg, st, limit, now);
            && i < |after.sessions|
            && s.key in st.records && s.key in after.records
            && if PassCloses(st, limit, now, i, r.shift, at) then
                 && after.sessions[i] == Session(s.key, s.checkIn, Some(at), m, true, s.mode, Auto)
                 && CheckedOut(st.records[s.key], after.records[s.key], s.checkIn, st.records[s.key].worked + m, r, at, true)
               else after.sessions[i] == s
  {
    var batch := Batch(st.sessions, limit);
    var after := AutoPass(cfg, st, limit, now);
    PassedSession(cfg, st, limit, now, i, r, at);
    LoopHasEffect(cfg, st, batch, now);
    PickedOutcome(cfg, st, Ids(batch), now, after, i, r, at, m);
  }

  /** What a pass leaves alone: sessions without a rule and shift, records without a closed session, and the other tables. */
  lemma PassElsewhere(cfg: Config, st: State, limit: nat, now: Time)
    requires Inv(cfg, st, now)
    ensures var after := AutoPass(cfg, st, limit, now);
            && |after.sessions| == |st.sessions| && after.records.Keys == st.records.Keys
            && after.corrections == st.corrections && after.approvals == st.approvals
            && (forall i :: 0 <= i < |st.sessions| && (forall r :: !Applies(cfg, st.sessions[i].key.emp, r)) ==>
                              after.sessions[i] == st.sessions[i])
            && (forall k :: k in st.records &&
                            (forall i :: 0 <= i < |st.sessions| && st.sessions[i].key == k ==> after.sessions[i] == st.sessions[i]) ==>
                              after.records[k] == st.records[k])
  {
    var batch := Batch(st.sessions, limit);
    var after := AutoPass(cfg, st, limit, now);
    LoopHasEffect(cfg, st, batch, now);
    forall i | 0 <= i < |st.sessions|
      ensures (forall r :: !Applies(cfg, st.sessions[i].key.emp, r)) ==> after.sessions[i] == st.sessions[i]
      ensures after.sessions[i] == st.sessions[i] ==> !Picked(cfg, st, Ids(batch), now, i)
    {
      var k := st.sessions[i].key;
      assert SessionAfter(cfg, st, Ids(batch), now, i, after.sessions[i]);
      SameConfig(cfg, k, st.records[k]);
      if Resolve(cfg, k.emp).Some? {
        ResolvesToApplying(cfg, k.emp, Resolve(cfg, k.emp).value);
      }
    }
    forall k | k in st.records && forall i :: 0 <= i < |st.sessions| && st.sessions[i].key == k ==> after.sessions[i] == st.sessions[i]
      ensures after.records[k] == st.records[k]
    {
      assert NonePicked(cfg, st, Ids(batch), now, k);
      assert RecordAfter(cfg, st, Ids(batch), now, k, after.records[k]);
    }
  }

  // ---- corrections ----------------------------------------------------------------------------------------

  /** When a request to correct a session is taken. */
  ghost predicate Correctable(st: State, emp: nat, sid: nat, requested: Time) {
    && sid < |st.sessions|
    && var s := st.sessions[sid];
       && s.key.emp == emp
       && s.auto
       && s.checkOut.Some?
       && s.checkIn <= requested <= s.checkOut.value
       && s.key in st.records
       && forall i :: 0 <= i < |st.corrections| ==> st.corrections[i].sid != sid
  }

  lemma SubmitOutcome(st: State, emp: nat, sid: nat, requested: Time)
    ensures var after := SubmitCorrection(st, emp, sid, requested);
            if Correctable(st, emp, sid, requested) then
              var s := st.sessions[sid];
              var rec := st.records[s.key];
              after == Outcome(st.(corrections := st.corrections + [Correction(sid, requested, s.checkOut.value, rec.worked, Pending)],
                                   records := st.records[s.key := rec.(correction := Some(Pending))]), Done)
            else after.st == st && after.reply != Done
  {
  }

  /** The reason a request is turned down for. */
  lemma SubmitRefused(st: State, emp: nat, sid: nat, requested: Time)
    ensures var reply := SubmitCorrection(st, emp, sid, requested).reply;
            if sid >= |st.sessions| then reply == Refused(SessionNotFound)
            else
              var s := st.sessions[sid];
              && (reply == Refused(NotYours) <==> s.key.emp != emp)
              && (reply == Refused(NotAutoClosed) <==> s.key.emp == emp && !s.auto)
              && (reply == Refused(BeforeCheckIn) <==> s.key.emp == emp && s.auto && requested < s.checkIn)
              && (reply == Refused(NoCheckOutTime) <==> s.key.emp == emp && s.auto && requested >= s.checkIn && s.checkOut.None?)
              && (reply == Refused(AfterAutoCheckOut) <==>
                    s.key.emp == emp && s.auto && s.checkOut.Some? && requested >= s.checkIn && requested > s.checkOut.value)
              && (reply == Refused(AlreadyPending) ==>
                    exists i :: 0 <= i < |st.corrections| && st.corrections[i].sid == sid && st.corrections[i].decision == Pending)
              && (reply == Refused(DuplicateCorrection) ==>
                    exists i :: 0 <= i < |st.corrections| && st.corrections[i].sid == sid && st.corrections[i].decision != Pending)
              && (reply == Refused(RecordNotFound) ==> s.key !in st.records)
  {
  }

  /** An approved correction: the session ends at the requested time, the record is checked out anew, the request is APPROVED. */
  lemma ApproveCorrectionOutcome(cfg: Config, st: State, cid: nat, now: Time, r: Resolved, m: nat, m': nat)
    requires Inv(cfg, st, now) && cid < |st.corrections| && st.corrections[cid].decision == Pending
    requires st.corrections[cid].sid < |st.sessions| && st.sessions[st.corrections[cid].sid].checkOut.Some?
    requires var s := st.sessions[st.corrections[cid].sid];
             && Applies(cfg, s.key.emp, r)
             && IsMinutes(s.checkIn, s.checkOut.value, m) && IsMinutes(s.checkIn, st.corrections[cid].requested, m')
    ensures var c := st.corrections[cid];
            var s := st.sessions[c.sid];
            var after := ApproveCorrection(cfg, st, cid);
            && after.reply == Done
            && s.key in st.records && s.key in after.st.records && m' <= m <= st.records[s.key].worked
            && after.st.sessions == st.sessions[c.sid := Session(s.key, s.checkIn, Some(c.requested), m', true, s.mode, s.source)]
            && after.st.corrections == st.corrections[cid := Correction(c.sid, c.requested, c.autoCheckOut, c.autoWorked, Approved)]
            && after.st.approvals == st.approvals
            && (forall k :: k != s.key ==> Lookup(after.st.records, k) == Lookup(st.records, k))
            && var before, row := st.records[s.key], after.st.records[s.key];
               && row.correction == Some(Approved)
               && CheckedOut(before, row.(correction := before.correction), s.checkIn, before.worked - m + m', r, c.requested, false)
  {
    var c := st.corrections[cid];
    ApprovalTaken(cfg, st, cid, now, r);
    var s := st.sessions[c.sid];
    ApprovalEffect(cfg, st, cid, now);
    MinutesFromInstants(s.checkIn, s.checkOut.value, m);
    MinutesFromInstants(s.checkIn, c.requested, m');
    RecordHoldsMinutes(cfg, st, c.sid, now);
    CheckoutRow(st.records[s.key], s.checkIn, st.records[s.key].worked - m + m', r, c.requested, false);
  }

  lemma RecordHoldsMinutes(cfg: Config, st: State, sid: nat, now: Time)
    requires Inv(cfg, st, now) && sid < |st.sessions|
    ensures st.sessions[sid].key in st.records
    ensures Minutes(st.sessions[sid]) <= st.records[st.sessions[sid].key].worked
  {
    MinutesWithin(st.sessions, sid);
  }

  /** A pending request of a configured employee is approved, and changes only what it is about. */
  lemma ApprovalTaken(cfg: Config, st: State, cid: nat, now: Time, r: Resolved)
    requires Inv(cfg, st, now) && cid < |st.corrections| && st.corrections[cid].decision == Pending
    requires st.corrections[cid].sid < |st.sessions| && Applies(cfg, st.sessions[st.corrections[cid].sid].key.emp, r)
    ensures var c := st.corrections[cid];
            var after := ApproveCorrection(cfg, st, cid);
            && after.reply == Done
            && Resolve(cfg, st.sessions[c.sid].key.emp) == Some(r)
            && st.sessions[c.sid].auto
            && after.st.approvals == st.approvals
            && after.st.corrections == st.corrections[cid := Correction(c.sid, c.requested, c.autoCheckOut, c.autoWorked, Approved)]
            && (forall k :: k != st.sessions[c.sid].key ==> Lookup(after.st.records, k) == Lookup(st.records, k))
  {
    var c := st.corrections[cid];
    assert CorrectionOk(c, st.sessions);
    var k := st.sessions[c.sid].key;
    assert k in st.records;
    ResolvesToApplying(cfg, k.emp, r);
    SameConfig(cfg, k, st.records[k]);
  }

  /** Only a pending request of a configured employee can be approved. */
  lemma ApproveCorrectionRefused(cfg: Config, st: State, cid: nat, now: Time)
    requires Inv(cfg, st, now)
    ensures var after := ApproveCorrection(cfg, st, cid);
            && (cid >= |st.corrections| ==> after == Outcome(st, Refused(RequestNotFound)))
            && (cid < |st.corrections| && st.corrections[cid].decision != Pending ==> after == Outcome(st, Refused(AlreadyDecided)))
            && (cid < |st.corrections| && st.corrections[cid].decision == Pending ==>
                  && st.corrections[cid].sid < |st.sessions|
                  && ((forall r :: !Applies(cfg, st.sessions[st.corrections[cid].sid].key.emp, r)) ==>
                        after == Outcome(st, Refused(ShiftOrRuleGone))))
  {
    if cid < |st.corrections| {
      assert CorrectionOk(st.corrections[cid], st.sessions);
      var k := st.sessions[st.corrections[cid].sid].key;
      assert k in st.records;
      RecordOfKey(cfg, st, now, k);
      SameConfig(cfg, k, st.records[k]);
      if Resolve(cfg, k.emp).Some? {
        ResolvesToApplying(cfg, k.emp, Resolve(cfg, k.emp).value);
      }
    }
  }

  /** A rejected correction writes REJECTED to the request and to its record's mark, and nothing else. */
  lemma RejectCorrectionOutcome(cfg: Config, st: State, cid: nat, now: Time)
    requires Inv(cfg, st, now)
    ensures var after := RejectCorrection(st, cid);
            && (cid >= |st.corrections| ==> after == Outcome(st, Refused(RequestNotFound)))
            && (cid < |st.corrections| && st.corrections[cid].decision != Pending ==> after == Outcome(st, Refused(AlreadyDecided)))
            && (cid < |st.corrections| && st.corrections[cid].decision == Pending ==>
                  var c := st.corrections[cid];
                  && c.sid < |st.sessions| && st.sessions[c.sid].key in st.records
                  && var k := st.sessions[c.sid].key;
                     after == Outcome(st.(corrections := st.corrections[cid := Correction(c.sid, c.requested, c.autoCheckOut, c.autoWorked, Rejected)],
                                          records := st.records[k := st.records[k].(correction := Some(Rejected))]), Done))
  {
    if cid < |st.corrections| {
      assert CorrectionOk(st.corrections[cid], st.sessions);
    }
  }

  /** Tables that no run of these calls reaches: a record without its shift or rule, or no record at all. */
  lemma BrokenRows(cfg: Config, st: State, cid: nat, emp: nat, now: Time)
    ensures cid < |st.corrections| && st.corrections[cid].decision == Pending ==>
              var sid := st.corrections[cid].sid;
              if sid >= |st.sessions| || st.sessions[sid].key !in st.records then
                ApproveCorrection(cfg, st, cid) == Outcome(st, Refused(SessionNotFound))
              else
                var rec := st.records[st.sessions[sid].key];
                (rec.shiftId == None || rec.ruleId == None ==>
                   ApproveCorrection(cfg, st, cid) == Outcome(st, Refused(MissingShiftOrRule)))
    ensures (forall i :: 0 <= i < |st.sessions| && st.sessions[i].key.emp == emp ==> st.sessions[i].key !in st.records) &&
            HasOpen(st.sessions, emp) ==>
              CheckOut(cfg, st, emp, now) == Outcome(st, Refused(RecordNotFound))
  {
  }

  /** In any tables, one more session adds its minutes if it is the one being closed, else the larger of those stored and those it spans. */
  lemma TotalTakesLarger(ss: seq<Session>, s: Session, key: Key, sid: nat, mins: nat, m: nat)
    requires s.checkOut.Some? ==> IsMinutes(s.checkIn, s.checkOut.value, m)
    ensures Total(ss + [s], key, sid, mins) - Total(ss, key, sid, mins) ==
            if s.key != key then 0
            else if |ss| == sid then mins
            else if s.checkOut.None? then 0
            else if s.worked > m then s.worked else m
  {
    assert (ss + [s])[..|ss|] == ss;
    if s.checkOut.Some? {
      MinutesFromInstants(s.checkIn, s.checkOut.value, m);
    }
  }

  // ---- remote decisions -------------------------------------------------------------------------------------

  ghost predicate AwaitsRemote(st: State, k: Key) {
    k in st.approvals && st.approvals[k] == Pending && k in st.records
  }

  /** Approval sets the decision and the status that the recorded minutes and the first check-in call for. */
  lemma ApproveRemoteOutcome(cfg: Config, st: State, k: Key, r: Resolved)
    requires AwaitsRemote(st, k) && Applies(cfg, k.emp, r)
    ensures var after := ApproveRemote(cfg, st, k);
            && after.reply == Done
            && k in after.st.records
            && var before, row := st.records[k], after.st.records[k];
               && after.st == st.(approvals := st.approvals[k := Approved], records := st.records[k := row])
               && row == before.(status := row.status)
               && StatusFits(before.worked, r.rule,
                             before.firstCheckIn.Some? && ComesLate(before.firstCheckIn.value, r.shift), row.status)
  {
    ResolvesToApplying(cfg, k.emp, r);
    var first := st.records[k].firstCheckIn;
    if first.Some? {
      LatenessFromColumns(first.value, r.shift);
    }
    ClassifyFits(st.records[k].worked, r.rule, first.Some? && IsLate(first.value, r.shift));
  }

  lemma RejectRemoteOutcome(st: State, k: Key)
    requires AwaitsRemote(st, k)
    ensures RejectRemote(st, k) ==
            Outcome(st.(approvals := st.approvals[k := Rejected], records := st.records[k := st.records[k].(status := Absent)]), Done)
  {
  }

  /** Without a pending approval, a record, or (to approve) a rule, nothing changes. */
  lemma RemoteRefused(cfg: Config, st: State, k: Key)
    ensures (k !in st.approvals ==>
               ApproveRemote(cfg, st, k) == RejectRemote(st, k) == Outcome(st, Refused(ApprovalNotFound)))
    ensures (k in st.approvals && st.approvals[k] != Pending ==>
               ApproveRemote(cfg, st, k) == RejectRemote(st, k) == Outcome(st, Refused(AlreadyDecided)))
    ensures (k in st.approvals && st.approvals[k] == Pending && k !in st.records ==>
               ApproveRemote(cfg, st, k) == RejectRemote(st, k) == Outcome(st, Refused(RecordNotFound)))
    ensures (AwaitsRemote(st, k) && (forall r :: !Applies(cfg, k.emp, r)) ==> ApproveRemote(cfg, st, k) == Outcome(st, Refused(NoRule)))
  {
    if Resolve(cfg, k.emp).Some? {
      ResolvesToApplying(cfg, k.emp, Resolve(cfg, k.emp).value);
    }
  }

  // ---- the live counter ---------------------------------------------------------------------------------------

  /** With a session open, on whatever day it began, the counter adds its whole seconds to today's closed minutes. */
  lemma TodayWithOpenSession(cfg: Config, st: State, sid: nat, now: Time, d: Day)
    requires Inv(cfg, st, now) && OnDay(d, now) && sid < |st.sessions| && st.sessions[sid].checkOut.None?
    ensures var k := Key(st.sessions[sid].key.emp, d);
            TodaySeconds(st, k.emp, now) ==
            if k in st.records then Some(60 * st.records[k].worked + (now - st.sessions[sid].checkIn) / 1000) else None
  {
    DayFromInstant(d, now);
    assert SessionOk(st.sessions[sid], now);
    OpenIsFound(cfg, st, sid, now);
    TotalIsWorked(st.sessions, now, Key(st.sessions[sid].key.emp, d), |st.sessions|, 0);
  }

  /** With none open it shows the recorded minutes or, if these are 0, the span from first check-in to last check-out. */
  lemma TodayIdle(cfg: Config, st: State, emp: nat, now: Time, d: Day, m: nat)
    requires Inv(cfg, st, now) && OnDay(d, now) && !HasOpen(st.sessions, emp)
    requires Key(emp, d) in st.records ==>
               var rec := st.records[Key(emp, d)];
               if rec.firstCheckIn.Some? && rec.lastCheckOut.Some? then IsMinutes(rec.firstCheckIn.value, rec.lastCheckOut.value, m)
               else m == 0
    ensures TodaySeconds(st, emp, now) ==
            if Key(emp, d) !in st.records then None
            else if st.records[Key(emp, d)].worked > 0 then Some(60 * st.records[Key(emp, d)].worked) else Some(60 * m)
  {
    DayFromInstant(d, now);
    TotalIsWorked(st.sessions, now, Key(emp, d), |st.sessions|, 0);
    if Key(emp, d) in st.records {
      var rec := st.records[Key(emp, d)];
      if rec.firstCheckIn.Some? && rec.lastCheckOut.Some? {
        MinutesFromInstants(rec.firstCheckIn.value, rec.lastCheckOut.value, m);
      }
    }
  }
}
