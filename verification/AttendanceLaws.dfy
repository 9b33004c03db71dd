/** Laws that relate several attendance calls: remote decisions, corrections and the live counter. */
module AttendanceLaws {
  import opened Prelude
  import opened Calendar
  import opened AttendanceCalc
  import opened Attendance
  import opened AttendanceInvariant

  // ---- remote decisions and check-out -------------------------------------------------------------

  /** Enough minutes to be PRESENT or LATE rather than HALF_DAY or ABSENT. */
  predicate IsFullDay(worked: nat, rule: Rule) {
    worked > 0 && worked * 100 >= rule.halfDayHours * 60 && worked * 100 >= rule.fullDayHours * 60
  }

  /** An employee whose open session's record awaits a remote decision. */
  ghost predicate AwaitsDecision(cfg: Config, st: State, sid: nat, now: Time) {
    && Inv(cfg, st, now)
    && sid < |st.sessions|
    && st.sessions[sid].checkOut.None?
    && st.sessions[sid].key in st.approvals
    && st.approvals[st.sessions[sid].key] == Pending
    && Resolve(cfg, st.sessions[sid].key.emp).Some?
  }

  lemma OpenIsFound(cfg: Config, st: State, sid: nat, now: Time)
    requires Inv(cfg, st, now) && sid < |st.sessions| && st.sessions[sid].checkOut.None?
    ensures FindOpen(st.sessions, st.sessions[sid].key.emp) == Some(sid)
  {
  }

  /** Closing a session anew replaces its minutes in the day's total, and nothing else. */
  lemma ReclosedTotal(cfg: Config, st: State, sid: nat, at: Time, isAuto: bool, now: Time)
    requires Inv(cfg, st, now) && sid < |st.sessions|
    ensures var s := st.sessions[sid];
            var mins := DiffMinutes(s.checkIn, at);
            && s.key in st.records
            && Total(st.sessions[sid := ClosedSession(s, at, isAuto)], s.key, sid, mins) ==
               st.records[s.key].worked - Minutes(s) + mins
  {
    var s := st.sessions[sid];
    var closed := ClosedSession(s, at, isAuto);
    var ss := st.sessions[sid := closed];
    forall i | 0 <= i < |ss| && i != sid
      ensures SessionOk(ss[i], now)
    {
      assert SessionOk(st.sessions[i], now);
    }
    TotalIsWorked(ss, now, s.key, sid, DiffMinutes(s.checkIn, at));
    WorkedUpdate(st.sessions, sid, closed, s.key);
  }

  /** A check-out sets the day's minutes to what they were plus the session's rounded duration. */
  lemma CheckOutAdds(cfg: Config, st: State, sid: nat, now: Time)
    requires Inv(cfg, st, now) && sid < |st.sessions| && st.sessions[sid].checkOut.None?
    requires Resolve(cfg, st.sessions[sid].key.emp).Some?
    ensures var s := st.sessions[sid];
            var r := Resolve(cfg, s.key.emp).value;
            && s.key in st.records
            && var total := st.records[s.key].worked + DiffMinutes(s.checkIn, now);
               CheckOut(cfg, st, s.key.emp, now) ==
               Outcome(st.(sessions := st.sessions[sid := ClosedSession(s, now, false)],
                           records := st.records[s.key := CheckoutRecord(st.records[s.key], s.checkIn, total, r.rule, r.shift, now, false)]),
                       Done)
  {
    var s := st.sessions[sid];
    assert SessionOk(s, now) && s.key in st.records;
    OpenIsFound(cfg, st, sid, now);
    ReclosedTotal(cfg, st, sid, now, false, now);
  }

  /** The row of the open session's record after the check-out. */
  lemma CheckOutRow(cfg: Config, st: State, sid: nat, now: Time, s: Session, r: Resolved, rec: Record)
    requires Inv(cfg, st, now) && sid < |st.sessions| && st.sessions[sid] == s && s.checkOut.None?
    requires Resolve(cfg, s.key.emp) == Some(r)
    requires s.key in st.records && st.records[s.key] == rec
    ensures var after := CheckOut(cfg, st, s.key.emp, now).st;
            && s.key in after.records
            && after.records[s.key] ==
               CheckoutRecord(rec, s.checkIn, rec.worked + DiffMinutes(s.checkIn, now), r.rule, r.shift, now, false)
  {
    CheckOutAdds(cfg, st, sid, now);
  }

  lemma CheckOutLeavesApprovals(cfg: Config, st: State, emp: nat, now: Time)
    ensures CheckOut(cfg, st, emp, now).st.approvals == st.approvals
  {
  }

  /** The records left by approving and checking out, in either order. */
  function ApproveThenOut(cfg: Config, st: State, key: Key, now: Time): State {
    CheckOut(cfg, ApproveRemote(cfg, st, key).st, key.emp, now).st
  }

  function OutThenApprove(cfg: Config, st: State, key: Key, now: Time): State {
    ApproveRemote(cfg, CheckOut(cfg, st, key.emp, now).st, key).st
  }

  predicate SeenLate(rec: Record, shift: Shift) {
    rec.firstCheckIn.Some? && IsLate(rec.firstCheckIn.value, shift)
  }

  lemma ApproveShape(cfg: Config, st: State, sid: nat, now: Time)
    requires AwaitsDecision(cfg, st, sid, now)
    ensures var key := st.sessions[sid].key;
            var mid := ApproveRemote(cfg, st, key).st;
            && key in st.records
            && Inv(cfg, mid, now)
            && mid.sessions == st.sessions
            && key in mid.records
            && var r, rec := Resolve(cfg, key.emp).value, st.records[key];
               mid.records[key] == rec.(status := Classify(rec.worked, r.rule, SeenLate(rec, r.shift)).status)
  {
    RemoteKeeps(cfg, st, st.sessions[sid].key, now);
  }

  /** Approval first: the check-out core works on a record whose status was already decided. */
  lemma ApproveFirstRow(cfg: Config, st: State, sid: nat, now: Time)
    requires AwaitsDecision(cfg, st, sid, now)
    ensures var s := st.sessions[sid];
            var r := Resolve(cfg, s.key.emp).value;
            var a := ApproveThenOut(cfg, st, s.key, now);
            && s.key in st.records && s.key in a.records
            && var rec, total := st.records[s.key], st.records[s.key].worked + DiffMinutes(s.checkIn, now);
               var decided := rec.(status := Classify(rec.worked, r.rule, SeenLate(rec, r.shift)).status);
               a.records[s.key] == CheckoutRecord(decided, s.checkIn, total, r.rule, r.shift, now, false)
  {
    ApproveShape(cfg, st, sid, now);
    var s := st.sessions[sid];
    var mid := ApproveRemote(cfg, st, s.key).st;
    CheckOutRow(cfg, mid, sid, now, s, Resolve(cfg, s.key.emp).value, mid.records[s.key]);
  }

  /** Check-out first: approval overwrites the status of the finished record. */
  lemma OutFirstRow(cfg: Config, st: State, sid: nat, now: Time)
    requires AwaitsDecision(cfg, st, sid, now)
    ensures var s := st.sessions[sid];
            var r := Resolve(cfg, s.key.emp).value;
            var b := OutThenApprove(cfg, st, s.key, now);
            && s.key in st.records && s.key in b.records
            && var rec, total := st.records[s.key], st.records[s.key].worked + DiffMinutes(s.checkIn, now);
               b.records[s.key] ==
               CheckoutRecord(rec, s.checkIn, total, r.rule, r.shift, now, false)
                 .(status := Classify(total, r.rule, SeenLate(rec, r.shift)).status)
  {
    CheckOutAdds(cfg, st, sid, now);
  }

  /**
   Approving a remote check-in before or after its session is closed gives the same worked minutes, and
   the same status except in one case: a record without a first check-in (one the daily job or a sync
   made) whose late session makes a full day ends LATE or PRESENT depending on the order. The rest of
   the record agrees exactly when, besides, the day was not still pending at check-out or has neither
   overtime nor a half day to lose, because approval after check-out sets the status only.
   */
  lemma RemoteApprovalCommutes(cfg: Config, st: State, sid: nat, now: Time)
    requires AwaitsDecision(cfg, st, sid, now)
    ensures var s := st.sessions[sid];
            var r := Resolve(cfg, s.key.emp).value;
            var a, b := ApproveThenOut(cfg, st, s.key, now), OutThenApprove(cfg, st, s.key, now);
            && s.key in st.records && s.key in a.records && s.key in b.records
            && var rec, total := st.records[s.key], st.records[s.key].worked + DiffMinutes(s.checkIn, now);
               var lateUnseen := rec.firstCheckIn.None? && IsLate(s.checkIn, r.shift) && IsFullDay(total, r.rule);
               && a.records[s.key].worked == b.records[s.key].worked == total
               && (a.records[s.key].status == b.records[s.key].status <==> !lateUnseen)
               && (a.records[s.key] == b.records[s.key] <==>
                   && !lateUnseen
                   && (|| rec.status != PendingApproval
                       || (Overtime(total, r.rule) == 0 && Classify(total, r.rule, false).status != HalfDay)))
  {
    ApproveFirstRow(cfg, st, sid, now);
    OutFirstRow(cfg, st, sid, now);
  }

  /**
   A rejection survives a later check-out exactly when the day's minutes would not make half a day
   anyway; otherwise closing the session recomputes the rejected day from its minutes.
   */
  lemma RejectionSurvivesCheckOut(cfg: Config, st: State, sid: nat, now: Time)
    requires AwaitsDecision(cfg, st, sid, now)
    ensures var s := st.sessions[sid];
            var r := Resolve(cfg, s.key.emp).value;
            var rejectFirst := CheckOut(cfg, RejectRemote(st, s.key).st, s.key.emp, now).st;
            var outFirst := RejectRemote(CheckOut(cfg, st, s.key.emp, now).st, s.key).st;
            && s.key in st.records && s.key in rejectFirst.records && s.key in outFirst.records
            && var total := st.records[s.key].worked + DiffMinutes(s.checkIn, now);
               && outFirst.records[s.key].status == Absent
               && (rejectFirst.records[s.key].status == Absent <==> total == 0 || total * 100 < r.rule.halfDayHours * 60)
  {
    var s := st.sessions[sid];
    var r := Resolve(cfg, s.key.emp).value;
    CheckOutRow(cfg, st, sid, now, s, r, st.records[s.key]);
    RemoteKeeps(cfg, st, s.key, now);
    var mid := RejectRemote(st, s.key).st;
    CheckOutRow(cfg, mid, sid, now, s, r, mid.records[s.key]);
    CheckOutLeavesApprovals(cfg, st, s.key.emp, now);
  }

  // ---- corrections ------------------------------------------------------------------------------

  /** What an approvable request says about its session, in a reachable state. */
  lemma ApprovalReady(cfg: Config, st: State, cid: nat, now: Time)
    requires Inv(cfg, st, now) && ApproveCorrection(cfg, st, cid).reply == Done
    ensures cid < |st.corrections| && st.corrections[cid].sid < |st.sessions|
    ensures var c := st.corrections[cid];
            var s := st.sessions[c.sid];
            && s.key in st.records && s.checkOut.Some? && Resolve(cfg, s.key.emp).Some?
            && var r := Resolve(cfg, s.key.emp).value;
               && s.checkIn <= c.requested <= s.checkOut.value <= AutoCheckoutAt(s.checkIn, r.shift)
               && ApproveCorrection(cfg, st, cid).st ==
                  Decide(ApplyCheckout(st, c.sid, r.rule, r.shift, c.requested, false), cid, Approved)
  {
  }

  /** An approved correction in a reachable state: the session and record it changes, and how. */
  lemma ApprovalEffect(cfg: Config, st: State, cid: nat, now: Time)
    requires Inv(cfg, st, now) && ApproveCorrection(cfg, st, cid).reply == Done
    ensures cid < |st.corrections| && st.corrections[cid].sid < |st.sessions|
    ensures var c := st.corrections[cid];
            var s := st.sessions[c.sid];
            var after := ApproveCorrection(cfg, st, cid).st;
            && s.key in st.records && s.key in after.records
            && s.checkOut.Some?
            && Resolve(cfg, s.key.emp).Some?
            && var r := Resolve(cfg, s.key.emp).value;
               var rec := st.records[s.key];
               var total := rec.worked - DiffMinutes(s.checkIn, s.checkOut.value) + DiffMinutes(s.checkIn, c.requested);
               && s.checkIn <= c.requested <= s.checkOut.value <= AutoCheckoutAt(s.checkIn, r.shift)
               && after.sessions == st.sessions[c.sid := ClosedSession(s, c.requested, false)]
               && 0 <= total <= rec.worked
               && after.records[s.key] ==
                  CheckoutRecord(rec, s.checkIn, total, r.rule, r.shift, c.requested, false).(correction := Some(Approved))
  {
    ApprovalReady(cfg, st, cid, now);
    var c := st.corrections[cid];
    var s := st.sessions[c.sid];
    ReclosedTotal(cfg, st, c.sid, c.requested, false, now);
    DiffMinutesBounds(s.checkIn, c.requested, s.checkOut.value);
  }

  /**
   A correction can only shrink a day: approval moves the check-out back within [check-in, cutoff] and
   never raises worked minutes, the overtime they call for, or the rank of the status they call for.
   */
  lemma CorrectionShrinks(cfg: Config, st: State, cid: nat, now: Time)
    requires Inv(cfg, st, now) && ApproveCorrection(cfg, st, cid).reply == Done
    ensures cid < |st.corrections| && st.corrections[cid].sid < |st.sessions|
    ensures var s := st.sessions[st.corrections[cid].sid];
            var after := ApproveCorrection(cfg, st, cid).st;
            && s.key in st.records && s.key in after.records && Resolve(cfg, s.key.emp).Some?
            && var r := Resolve(cfg, s.key.emp).value;
               var before, now' := st.records[s.key], after.records[s.key];
               && now'.worked <= before.worked
               && Overtime(now'.worked, r.rule) <= Overtime(before.worked, r.rule)
               && (forall late :: Rank(Classify(now'.worked, r.rule, late).status) <= Rank(Classify(before.worked, r.rule, late).status))
               && (before.status == Classify(before.worked, r.rule, now'.late).status ==> Rank(now'.status) <= Rank(before.status))
  {
    ApprovalEffect(cfg, st, cid, now);
    var s := st.sessions[st.corrections[cid].sid];
    var r := Resolve(cfg, s.key.emp).value;
    var w, w' := st.records[s.key].worked, ApproveCorrection(cfg, st, cid).st.records[s.key].worked;
    forall late
      ensures Rank(Classify(w', r.rule, late).status) <= Rank(Classify(w, r.rule, late).status)
    {
      ClassifyMonotone(w', w, r.rule, late);
    }
    ClassifyMonotone(w', w, r.rule, true);
  }

  /**
   The stored columns can rise, and exactly so. Stored overtime rises when it had been left at 0 by a
   check-out under pending approval and the corrected minutes still earn some. The stored status rises
   when it had been overridden to one that stands for no work (a rejected remote day, a synced leave)
   and the corrected minutes still make half a day.
   */
  lemma CorrectionRaisesStored(cfg: Config, st: State, cid: nat, now: Time)
    requires Inv(cfg, st, now) && ApproveCorrection(cfg, st, cid).reply == Done
    ensures cid < |st.corrections| && st.corrections[cid].sid < |st.sessions|
    ensures var c := st.corrections[cid];
            var s := st.sessions[c.sid];
            var after := ApproveCorrection(cfg, st, cid).st;
            && s.key in st.records && s.key in after.records && s.checkOut.Some? && Resolve(cfg, s.key.emp).Some?
            && var rule := Resolve(cfg, s.key.emp).value.rule;
               var rec := st.records[s.key];
               var total := rec.worked - DiffMinutes(s.checkIn, s.checkOut.value) + DiffMinutes(s.checkIn, c.requested);
               && total >= 0
               && (after.records[s.key].overtime > rec.overtime <==>
                   rec.status != PendingApproval && rec.overtime == 0 && Overtime(total, rule) > 0)
               && (Rank(after.records[s.key].status) > Rank(rec.status) <==>
                   && rec.status != PendingApproval && Rank(rec.status) == 0
                   && total > 0 && total * 100 >= rule.halfDayHours * 60)
  {
    ApprovalEffect(cfg, st, cid, now);
    var c := st.corrections[cid];
    var s := st.sessions[c.sid];
    var rule := Resolve(cfg, s.key.emp).value.rule;
    var rec := st.records[s.key];
    assert RecordOk(cfg, s.key, rec);
    var total := rec.worked - DiffMinutes(s.checkIn, s.checkOut.value) + DiffMinutes(s.checkIn, c.requested);
    ClassifyMonotone(total, rec.worked, rule, true);
    ClassifyMonotone(0, total, rule, true);
  }

  // ---- the live counter ---------------------------------------------------------------------------

  /** The seconds `getToday` shows, if there is a record for today. */
  function TodaySeconds(st: State, emp: nat, now: Time): Option<nat> {
    var key := Key(emp, DayOf(now));
    if key !in st.records then None
    else
      var rec := st.records[key];
      var open := FindOpen(st.sessions, emp);
      var closed := Total(st.sessions, key, |st.sessions|, 0);
      if open.Some? && open.value < |st.sessions| then
        var since := st.sessions[open.value].checkIn;
        Some(closed * 60 + if now < since then 0 else (now - since) / 1000)
      else
        var shown := if closed == 0 && rec.firstCheckIn.Some? && rec.lastCheckOut.Some?
                     then DiffMinutes(rec.firstCheckIn.value, rec.lastCheckOut.value) else closed;
        Some(60 * if rec.worked < shown then shown else rec.worked)
  }

  /**
   While the open session belongs to today's record, the live counter is within half a minute of the
   minutes a check-out at that instant would record.
   */
  lemma LiveCounterAccurate(cfg: Config, st: State, sid: nat, now: Time)
    requires Inv(cfg, st, now) && sid < |st.sessions| && st.sessions[sid].checkOut.None?
    requires st.sessions[sid].key.date == DayOf(now)
    requires Resolve(cfg, st.sessions[sid].key.emp).Some?
    ensures var key := st.sessions[sid].key;
            var after := CheckOut(cfg, st, key.emp, now).st;
            && TodaySeconds(st, key.emp, now).Some?
            && key in after.records
            && -30 <= TodaySeconds(st, key.emp, now).value - 60 * after.records[key].worked <= 30
  {
    var s := st.sessions[sid];
    assert SessionOk(s, now) && s.key in st.records;
    OpenIsFound(cfg, st, sid, now);
    CheckOutAdds(cfg, st, sid, now);
    TotalIsWorked(st.sessions, now, s.key, |st.sessions|, 0);
    assert s.key == Key(s.key.emp, DayOf(now));
    SecondsAgainstMinutes(now - s.checkIn);
  }

  lemma SecondsAgainstMinutes(d: nat)
    ensures -30 <= d / 1000 - 60 * ((d + 30_000) / MS_PER_MINUTE) <= 30
  {
  }

  /**
   With no open session the counter shows the recorded minutes, except on a day whose sessions all
   rounded to nothing: it then shows the whole span from first check-in to last check-out.
   */
  lemma IdleCounter(cfg: Config, st: State, emp: nat, now: Time)
    requires Inv(cfg, st, now) && Key(emp, DayOf(now)) in st.records
    requires FindOpen(st.sessions, emp).None?
    ensures var rec := st.records[Key(emp, DayOf(now))];
            TodaySeconds(st, emp, now) == Some(60 * rec.worked) <==>
            !(&& rec.worked == 0 && rec.firstCheckIn.Some? && rec.lastCheckOut.Some?
              && DiffMinutes(rec.firstCheckIn.value, rec.lastCheckOut.value) > 0)
  {
    TotalIsWorked(st.sessions, now, Key(emp, DayOf(now)), |st.sessions|, 0);
  }
}
