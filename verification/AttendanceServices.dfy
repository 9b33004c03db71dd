/**
 The attendance services as they work: calls that write one row after another into shared tables, and
 loops over the rows a query returned. Each is proved against the value-level operation of its name.
 */
module AttendanceServices {
  import opened Prelude
  import opened Calendar
  import opened AttendanceCalc
  import opened Attendance
  import opened AttendanceInvariant
  import opened AutoCheckoutPass
  import opened AttendanceLaws

  class Db {
    var sessions: seq<Session>
    var records: map<Key, Record>
    var corrections: seq<Correction>
    var approvals: map<Key, Decision>

    constructor ()
      ensures Snapshot() == State([], map[], [], map[])
    {
      sessions, records, corrections, approvals := [], map[], [], map[];
    }

    function Snapshot(): State
      reads this
    {
      State(sessions, records, corrections, approvals)
    }
  }

  method CheckIn(db: Db, cfg: Config, emp: nat, place: Place, source: Source, now: Time) returns (reply: Reply)
    modifies db
    ensures Outcome(db.Snapshot(), reply) == Attendance.CheckIn(cfg, old(db.Snapshot()), emp, place, source, now)
  {
    var resolved := Resolve(cfg, emp);
    if resolved.None? {
      return Refused(NoRule);
    }
    var rule, shift := resolved.value.rule, resolved.value.shift;
    if FindOpen(db.sessions, emp).Some? {
      return Refused(AlreadyCheckedIn);
    }
    var key := Key(emp, DayOf(now));
    var existing := Lookup(db.records, key);
    if existing.Some? && !(rule.allowMultiple || shift.allowMultiple) {
      return Refused(MultipleNotAllowed);
    }
    var mode := OfficeIn;
    if rule.requireGeoFencing {
      if place == NoGps {
        return Refused(GpsRequired);
      }
      if !rule.hasGeoFence {
        return Refused(NoGeoFence);
      }
      if place == Beyond {
        if !rule.allowRemote {
          return Refused(RemoteDisabled);
        }
        mode := RemoteIn;
      }
    }
    assert CheckInRefusal(resolved.value, place).None?;
    assert mode == if rule.requireGeoFencing && place.Beyond? then RemoteIn else OfficeIn;
    var needsApproval := mode == RemoteIn && rule.remoteApprovalRequired;
    var status := CheckInStatus(existing, needsApproval, IsLate(now, shift));
    if existing.None? {
      db.records := db.records[key := FreshRecord(resolved.value, now, status, mode, source)];
    } else {
      db.records := db.records[key := existing.value.(lastCheckOut := None, status := status)];
    }
    db.sessions := db.sessions + [Session(key, now, None, 0, false, mode, source)];
    if needsApproval {
      if key in db.approvals {
        return Refused(DuplicateApproval);
      }
      db.approvals := db.approvals[key := Pending];
    }
    return Done;
  }

  /** The fold over a record's sessions, re-read after the session was closed. */
  method SumSessions(ss: seq<Session>, key: Key, sid: nat, mins: nat) returns (sum: nat)
    ensures sum == Total(ss, key, sid, mins)
  {
    sum := 0;
    for i := 0 to |ss|
      invariant sum == Total(ss[..i], key, sid, mins)
    {
      assert ss[..i + 1][..i] == ss[..i];
      if ss[i].key == key {
        if i == sid {
          sum := sum + mins;
        } else if ss[i].checkOut.Some? {
          var again := DiffMinutes(ss[i].checkIn, ss[i].checkOut.value);
          sum := sum + if ss[i].worked < again then again else ss[i].worked;
        }
      }
    }
    assert ss[..|ss|] == ss;
  }

  method ApplyCheckout(db: Db, sid: nat, rule: Rule, shift: Shift, at: Time, isAuto: bool)
    requires sid < |db.sessions| && db.sessions[sid].key in db.records
    modifies db
    ensures db.Snapshot() == Attendance.ApplyCheckout(old(db.Snapshot()), sid, rule, shift, at, isAuto)
  {
    var session := db.sessions[sid];
    var record := db.records[session.key];
    var sessionMinutes := DiffMinutes(session.checkIn, at);
    db.sessions := db.sessions[sid := ClosedSession(session, at, isAuto)];
    var total := SumSessions(db.sessions, session.key, sid, sessionMinutes);
    var late := IsLate(OrElse(record.firstCheckIn, session.checkIn), shift);
    var c := if record.status == PendingApproval
             then Computed(total, 0, false, false, PendingApproval)
             else Classify(total, rule, late);
    record := record.(lastCheckOut := Some(at), worked := c.worked, overtime := c.overtime,
                      halfDay := c.halfDay, isOvertime := c.isOvertime, late := late, status := c.status);
    if isAuto {
      record := record.(hasAuto := true);
    }
    db.records := db.records[session.key := record];
  }

  method CheckOut(db: Db, cfg: Config, emp: nat, now: Time) returns (reply: Reply)
    modifies db
    ensures Outcome(db.Snapshot(), reply) == Attendance.CheckOut(cfg, old(db.Snapshot()), emp, now)
  {
    var open := FindOpen(db.sessions, emp);
    if open.None? {
      var today := Lookup(db.records, Key(emp, DayOf(now)));
      if today.Some? && today.value.lastCheckOut.Some? {
        return AlreadyOut;
      }
      return Refused(NoActiveCheckIn);
    }
    if db.sessions[open.value].key !in db.records {
      return Refused(RecordNotFound);
    }
    var resolved := Resolve(cfg, emp);
    if resolved.None? {
      return Refused(NoRule);
    }
    ApplyCheckout(db, open.value, resolved.value.rule, resolved.value.shift, now, false);
    return Done;
  }

  // ---- the auto-checkout cron ---------------------------------------------------------------------

  datatype Summary = Summary(processed: nat, skipped: nat, errors: nat)

  /** A session the loop has not reached is due exactly if it was due before the loop. */
  lemma DueAfterPass(cfg: Config, st: State, ids: seq<nat>, now: Time, sid: nat)
    requires Ordered(st.sessions) && Linked(st) && sid !in ids
    ensures Due(cfg, CloseAll(cfg, st, ids, now), sid, now) <==> Due(cfg, st, sid, now)
  {
    var mid := CloseAll(cfg, st, ids, now);
    LoopHasEffect(cfg, st, ids, now);
    if sid < |st.sessions| {
      assert SessionAfter(cfg, st, Ids(ids), now, sid, mid.sessions[sid]);
      if st.sessions[sid].checkOut.None? {
        UntouchedByPass(cfg, st, Ids(ids), now, mid, sid);
      }
    }
  }

  function DueAmong(cfg: Config, st: State, ids: seq<nat>, now: Time): set<nat> {
    set i | i in ids && Due(cfg, st, i, now)
  }

  /** One turn of the loop: skip, or close the session at its cutoff. */
  method CloseIfDue(db: Db, cfg: Config, sid: nat, now: Time) returns (closed: bool)
    modifies db
    ensures db.Snapshot() == Attendance.CloseIfDue(cfg, old(db.Snapshot()), sid, now)
    ensures closed == Due(cfg, old(db.Snapshot()), sid, now)
  {
    if sid >= |db.sessions| || db.sessions[sid].checkOut.Some? || db.sessions[sid].key !in db.records {
      return false;
    }
    var session := db.sessions[sid];
    var found := ConfigOf(cfg, db.records[session.key]);
    if found.None? || !found.value.shift.autoCheckoutEnabled {
      return false;
    }
    var at := AutoCheckoutAt(session.checkIn, found.value.shift);
    if now < at {
      return false;
    }
    ApplyCheckout(db, sid, found.value.rule, found.value.shift, at, true);
    return true;
  }

  lemma DueGrows(cfg: Config, st: State, ids: seq<nat>, n: nat, now: Time)
    requires n < |ids| && forall m :: 0 <= m < n ==> ids[m] != ids[n]
    ensures ids[n] !in DueAmong(cfg, st, ids[..n], now)
    ensures DueAmong(cfg, st, ids[..n + 1], now) ==
            DueAmong(cfg, st, ids[..n], now) + if Due(cfg, st, ids[n], now) then {ids[n]} else {}
  {
  }

  /** One more member counts either inside or outside a second set. */
  lemma CountOneMore(due: set<nat>, x: nat, fails: set<nat>)
    requires x !in due
    ensures |(due + {x}) * fails| == |due * fails| + if x in fails then 1 else 0
    ensures |(due + {x}) - fails| == |due - fails| + if x in fails then 0 else 1
  {
    if x in fails {
      assert (due + {x}) * fails == due * fails + {x};
      assert (due + {x}) - fails == due - fails;
    } else {
      assert (due + {x}) * fails == due * fails;
      assert (due + {x}) - fails == due - fails + {x};
    }
  }

  predicate Split(due: set<nat>, auditFails: set<nat>, s: Summary) {
    s.processed == |due - auditFails| && s.errors == |due * auditFails|
  }

  /**
   Every visited session is counted once; in tables that satisfy the invariant the processed and failed
   ones are exactly the due ones.
   */
  ghost predicate Counted(cfg: Config, st: State, ids: seq<nat>, now: Time, auditFails: set<nat>, s: Summary) {
    && s.processed + s.skipped + s.errors == |ids|
    && (Ordered(st.sessions) && Linked(st) ==> Split(DueAmong(cfg, st, ids, now), auditFails, s))
  }

  function Count(s: Summary, closed: bool, failed: bool): Summary {
    if !closed then s.(skipped := s.skipped + 1)
    else if failed then s.(errors := s.errors + 1)
    else s.(processed := s.processed + 1)
  }

  lemma SplitStep(due: set<nat>, x: nat, closed: bool, auditFails: set<nat>, s: Summary)
    requires Split(due, auditFails, s) && x !in due
    ensures Split(due + if closed then {x} else {}, auditFails, Count(s, closed, x in auditFails))
  {
    if closed {
      CountOneMore(due, x, auditFails);
    } else {
      assert due + {} == due;
    }
  }

  lemma CountedStep(cfg: Config, st: State, ids: seq<nat>, n: nat, now: Time, auditFails: set<nat>, s: Summary)
    requires n < |ids| && forall m :: 0 <= m < n ==> ids[m] != ids[n]
    requires Counted(cfg, st, ids[..n], now, auditFails, s)
    ensures var closed := Due(cfg, CloseAll(cfg, st, ids[..n], now), ids[n], now);
            Counted(cfg, st, ids[..n + 1], now, auditFails, Count(s, closed, ids[n] in auditFails))
  {
    if Ordered(st.sessions) && Linked(st) {
      DueAfterPass(cfg, st, ids[..n], now, ids[n]);
      DueGrows(cfg, st, ids, n, now);
      SplitStep(DueAmong(cfg, st, ids[..n], now), ids[n], Due(cfg, st, ids[n], now), auditFails, s);
    }
  }

  /** The sessions that were open before and are closed after. */
  ghost function ClosedBetween(before: seq<Session>, after: seq<Session>): set<nat> {
    set i: nat | i < |before| && i < |after| && before[i].checkOut.None? && after[i].checkOut.Some?
  }

  /**
   The counters by the session rows: closed ones are processed, or errors if their audit failed, and all
   counters together are the open sessions there were, up to the limit.
   */
  ghost predicate Tells(st: State, after: seq<Session>, limit: nat, auditFails: set<nat>, s: Summary) {
    var open := OpenBefore(st.sessions, |st.sessions|);
    && s.processed + s.skipped + s.errors == (if limit < open then limit else open)
    && (Ordered(st.sessions) && Linked(st) ==>
          && s.processed == |ClosedBetween(st.sessions, after) - auditFails|
          && s.errors == |ClosedBetween(st.sessions, after) * auditFails|)
  }

  lemma CountsTell(cfg: Config, st: State, limit: nat, now: Time, auditFails: set<nat>, s: Summary)
    requires Counted(cfg, st, Batch(st.sessions, limit), now, auditFails, s)
    ensures Tells(st, AutoPass(cfg, st, limit, now).sessions, limit, auditFails, s)
  {
    BatchSize(st.sessions, limit);
    if Ordered(st.sessions) && Linked(st) {
      ClosedAreDue(cfg, st, Batch(st.sessions, limit), now);
    }
  }

  lemma ClosedAreDue(cfg: Config, st: State, ids: seq<nat>, now: Time)
    requires Ordered(st.sessions) && Linked(st)
    ensures ClosedBetween(st.sessions, CloseAll(cfg, st, ids, now).sessions) == DueAmong(cfg, st, ids, now)
  {
    var after := CloseAll(cfg, st, ids, now).sessions;
    LoopHasEffect(cfg, st, ids, now);
    forall i | 0 <= i < |st.sessions|
      ensures i in ClosedBetween(st.sessions, after) <==> i in DueAmong(cfg, st, ids, now)
    {
      assert SessionAfter(cfg, st, Ids(ids), now, i, after[i]);
    }
  }

  /** `auditFails` are the sessions whose audit write throws after the session was closed. */
  method ProcessOpenSessions(db: Db, cfg: Config, limit: nat, now: Time,
                        auditFails: set<nat>) returns (summary: Summary)
    modifies db
    ensures db.Snapshot() == AutoPass(cfg, old(db.Snapshot()), limit, now)
    ensures Counted(cfg, old(db.Snapshot()), Batch(old(db.sessions), limit), now, auditFails, summary)
    ensures Tells(old(db.Snapshot()), db.sessions, limit, auditFails, summary)
  {
    ghost var before := db.Snapshot();
    summary := Summary(0, 0, 0);
    var batch := Batch(db.sessions, limit);
    for n := 0 to |batch|
      invariant db.Snapshot() == CloseAll(cfg, before, batch[..n], now)
      invariant Counted(cfg, before, batch[..n], now, auditFails, summary)
    {
      var sid := batch[n];
      assert batch[..n + 1][..n] == batch[..n];
      BatchDistinct(before.sessions, limit, n);
      CountedStep(cfg, before, batch, n, now, auditFails, summary);
      var closed := CloseIfDue(db, cfg, sid, now);
      if !closed {
        summary := summary.(skipped := summary.skipped + 1);
      } else if sid in auditFails {
        summary := summary.(errors := summary.errors + 1);
      } else {
        summary := summary.(processed := summary.processed + 1);
      }
    }
    assert batch[..|batch|] == batch;
    CountsTell(cfg, before, limit, now, auditFails, summary);
  }

  // ---- corrections and remote approvals -----------------------------------------------------------

  method SubmitCorrection(db: Db, emp: nat, sid: nat, requested: Time) returns (reply: Reply)
    modifies db
    ensures Outcome(db.Snapshot(), reply) == Attendance.SubmitCorrection(old(db.Snapshot()), emp, sid, requested)
  {
    if sid >= |db.sessions| {
      return Refused(SessionNotFound);
    }
    var session := db.sessions[sid];
    if session.key.emp != emp {
      return Refused(NotYours);
    }
    if !session.auto {
      return Refused(NotAutoClosed);
    }
    if requested < session.checkIn {
      return Refused(BeforeCheckIn);
    }
    if session.checkOut.None? {
      return Refused(NoCheckOutTime);
    }
    if requested > session.checkOut.value {
      return Refused(AfterAutoCheckOut);
    }
    if HasPending(db.corrections, sid) {
      return Refused(AlreadyPending);
    }
    if session.key !in db.records {
      return Refused(RecordNotFound);
    }
    if HasCorrection(db.corrections, sid) {
      return Refused(DuplicateCorrection);
    }
    var record := db.records[session.key];
    db.corrections := db.corrections + [Correction(sid, requested, session.checkOut.value, record.worked, Pending)];
    db.records := db.records[session.key := record.(correction := Some(Pending))];
    return Done;
  }

  method ApproveCorrection(db: Db, cfg: Config, cid: nat) returns (reply: Reply)
    modifies db
    ensures Outcome(db.Snapshot(), reply) == Attendance.ApproveCorrection(cfg, old(db.Snapshot()), cid)
  {
    if cid >= |db.corrections| {
      return Refused(RequestNotFound);
    }
    var request := db.corrections[cid];
    if request.decision != Pending {
      return Refused(AlreadyDecided);
    }
    if request.sid >= |db.sessions| || db.sessions[request.sid].key !in db.records {
      return Refused(SessionNotFound);
    }
    var key := db.sessions[request.sid].key;
    if db.records[key].shiftId.None? || db.records[key].ruleId.None? {
      return Refused(MissingShiftOrRule);
    }
    var found := ConfigOf(cfg, db.records[key]);
    if found.None? {
      return Refused(ShiftOrRuleGone);
    }
    ApplyCheckout(db, request.sid, found.value.rule, found.value.shift, request.requested, false);
    db.records := db.records[key := db.records[key].(correction := Some(Approved))];
    db.corrections := db.corrections[cid := request.(decision := Approved)];
    return Done;
  }

  method RejectCorrection(db: Db, cid: nat) returns (reply: Reply)
    modifies db
    ensures Outcome(db.Snapshot(), reply) == Attendance.RejectCorrection(old(db.Snapshot()), cid)
  {
    if cid >= |db.corrections| || db.corrections[cid].sid >= |db.sessions| {
      return Refused(RequestNotFound);
    }
    var request := db.corrections[cid];
    if request.decision != Pending {
      return Refused(AlreadyDecided);
    }
    db.corrections := db.corrections[cid := request.(decision := Rejected)];
    var key := db.sessions[request.sid].key;
    if key in db.records {
      db.records := db.records[key := db.records[key].(correction := Some(Rejected))];
    }
    return Done;
  }

  method ApproveRemote(db: Db, cfg: Config, key: Key) returns (reply: Reply)
    modifies db
    ensures Outcome(db.Snapshot(), reply) == Attendance.ApproveRemote(cfg, old(db.Snapshot()), key)
  {
    if key !in db.approvals {
      return Refused(ApprovalNotFound);
    }
    if db.approvals[key] != Pending {
      return Refused(AlreadyDecided);
    }
    if key !in db.records {
      return Refused(RecordNotFound);
    }
    var resolved := Resolve(cfg, key.emp);
    if resolved.None? {
      return Refused(NoRule);
    }
    var record := db.records[key];
    var late := record.firstCheckIn.Some? && IsLate(record.firstCheckIn.value, resolved.value.shift);
    var computed := Classify(record.worked, resolved.value.rule, late);
    db.approvals := db.approvals[key := Approved];
    db.records := db.records[key := record.(status := computed.status)];
    return Done;
  }

  method RejectRemote(db: Db, key: Key) returns (reply: Reply)
    modifies db
    ensures Outcome(db.Snapshot(), reply) == Attendance.RejectRemote(old(db.Snapshot()), key)
  {
    if key !in db.approvals {
      return Refused(ApprovalNotFound);
    }
    if db.approvals[key] != Pending {
      return Refused(AlreadyDecided);
    }
    if key !in db.records {
      return Refused(RecordNotFound);
    }
    db.approvals := db.approvals[key := Rejected];
    db.records := db.records[key := db.records[key].(status := Absent)];
    return Done;
  }

  /** The seconds shown by `getToday`; none without a record for today. */
  method GetToday(db: Db, emp: nat, now: Time) returns (seconds: Option<nat>)
    ensures seconds == TodaySeconds(db.Snapshot(), emp, now)
  {
    var key := Key(emp, DayOf(now));
    if key !in db.records {
      return None;
    }
    var record := db.records[key];
    var open := FindOpen(db.sessions, emp);
    var closed := SumSessions(db.sessions, key, |db.sessions|, 0);
    if open.Some? {
      var since := db.sessions[open.value].checkIn;
      var live := if now < since then 0 else (now - since) / 1000;
      return Some(closed * 60 + live);
    }
    if closed == 0 && record.firstCheckIn.Some? && record.lastCheckOut.Some? {
      closed := DiffMinutes(record.firstCheckIn.value, record.lastCheckOut.value);
    }
    return Some(60 * if record.worked < closed then closed else record.worked);
  }
}
