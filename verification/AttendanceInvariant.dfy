/** What every attendance operation keeps, and what follows from it. */
module AttendanceInvariant {
  import opened Prelude
  import opened Calendar
  import opened AttendanceCalc
  import opened Attendance

  // ---- the invariant ----------------------------------------------------------------------------

  ghost predicate SessionOk(s: Session, now: Time) {
    && s.checkIn <= now
    && (s.auto ==> s.checkOut.Some?)
    && (s.checkOut.Some? ==>
          && s.checkIn <= s.checkOut.value <= now
          && s.worked == DiffMinutes(s.checkIn, s.checkOut.value))
  }

  ghost predicate SessionsOk(ss: seq<Session>, now: Time) {
    forall i :: 0 <= i < |ss| ==> SessionOk(ss[i], now)
  }

  /** An employee's earlier session is closed, no later than the next one begins. */
  ghost predicate Precedes(s: Session, t: Session) {
    s.key.emp == t.key.emp ==> s.checkOut.Some? && s.checkOut.value <= t.checkIn
  }

  ghost predicate Ordered(ss: seq<Session>) {
    forall i, j :: 0 <= i < j < |ss| ==> Precedes(ss[i], ss[j])
  }

  /** The minutes a session contributes to its record. */
  function Minutes(s: Session): nat {
    if s.checkOut.Some? then DiffMinutes(s.checkIn, s.checkOut.value) else 0
  }

  /** The sum of the rounded durations of a record's closed sessions. */
  function WorkedIn(ss: seq<Session>, key: Key): nat {
    if ss == [] then 0
    else WorkedIn(ss[..|ss| - 1], key) + if ss[|ss| - 1].key == key then Minutes(ss[|ss| - 1]) else 0
  }

  ghost predicate Tallied(st: State) {
    forall k :: k in st.records ==> st.records[k].worked == WorkedIn(st.sessions, k)
  }

  ghost predicate Linked(st: State) {
    forall i :: 0 <= i < |st.sessions| ==> st.sessions[i].key in st.records
  }

  /** A record carries the rule assigned to its employee and that rule's shift. */
  ghost predicate RecordConfigured(cfg: Config, k: Key, rec: Record) {
    && k.emp in cfg.assignments
    && cfg.assignments[k.emp] in cfg.rules
    && rec.ruleId == Some(cfg.assignments[k.emp])
    && rec.shiftId == Some(cfg.rules[cfg.assignments[k.emp]].shiftId)
  }

  /** Stored overtime is what the worked minutes call for, or 0. */
  ghost predicate OvertimeOk(cfg: Config, k: Key, rec: Record)
    requires RecordConfigured(cfg, k, rec)
  {
    rec.overtime == 0 || rec.overtime == Overtime(rec.worked, cfg.rules[cfg.assignments[k.emp]])
  }

  /** A stored HALF_DAY stands for less than a full day. */
  ghost predicate HalfDayOk(cfg: Config, k: Key, rec: Record)
    requires RecordConfigured(cfg, k, rec)
  {
    rec.status == HalfDay ==> rec.worked * 100 < cfg.rules[cfg.assignments[k.emp]].fullDayHours * 60
  }

  ghost predicate RecordOk(cfg: Config, k: Key, rec: Record) {
    RecordConfigured(cfg, k, rec) && OvertimeOk(cfg, k, rec) && HalfDayOk(cfg, k, rec)
  }

  ghost predicate RecordsOk(cfg: Config, records: map<Key, Record>) {
    forall k :: k in records ==> RecordOk(cfg, k, records[k])
  }

  /** An automatically closed session ends no later than the cutoff of its record's shift. */
  ghost predicate CappedAt(cfg: Config, s: Session) {
    s.auto ==>
      && s.checkOut.Some?
      && Resolve(cfg, s.key.emp).Some?
      && s.checkOut.value <= AutoCheckoutAt(s.checkIn, Resolve(cfg, s.key.emp).value.shift)
  }

  ghost predicate Capped(cfg: Config, ss: seq<Session>) {
    forall i :: 0 <= i < |ss| ==> CappedAt(cfg, ss[i])
  }

  ghost predicate CorrectionOk(c: Correction, ss: seq<Session>) {
    && c.sid < |ss|
    && ss[c.sid].auto
    && (c.decision == Pending ==>
          ss[c.sid].checkOut.Some? && ss[c.sid].checkIn <= c.requested <= ss[c.sid].checkOut.value)
  }

  ghost predicate CorrectionsOk(cs: seq<Correction>, ss: seq<Session>) {
    && (forall i :: 0 <= i < |cs| ==> CorrectionOk(cs[i], ss))
    && (forall i, j :: 0 <= i < j < |cs| ==> cs[i].sid != cs[j].sid)
  }

  ghost predicate Inv(cfg: Config, st: State, now: Time) {
    && SessionsOk(st.sessions, now)
    && Ordered(st.sessions)
    && Linked(st)
    && Tallied(st)
    && RecordsOk(cfg, st.records)
    && Capped(cfg, st.sessions)
    && CorrectionsOk(st.corrections, st.sessions)
  }

  lemma InvLater(cfg: Config, st: State, now: Time, later: Time)
    requires Inv(cfg, st, now) && now <= later
    ensures Inv(cfg, st, later)
  {
  }

  // ---- what it says -----------------------------------------------------------------------------

  /** At most one open session, and no two sessions of an employee overlap. */
  lemma OneOpenNoOverlap(cfg: Config, st: State, now: Time, i: nat, j: nat)
    requires Inv(cfg, st, now)
    requires i < |st.sessions| && j < |st.sessions| && i != j
    requires st.sessions[i].key.emp == st.sessions[j].key.emp
    ensures var s, t := st.sessions[i], st.sessions[j];
            && (s.checkOut.Some? || t.checkOut.Some?)
            && ((s.checkOut.Some? && s.checkOut.value <= t.checkIn) || (t.checkOut.Some? && t.checkOut.value <= s.checkIn))
  {
    assert Precedes(st.sessions[if i < j then i else j], st.sessions[if i < j then j else i]);
  }

  function ClosedCount(ss: seq<Session>, key: Key): nat {
    if ss == [] then 0
    else ClosedCount(ss[..|ss| - 1], key) + if ss[|ss| - 1].key == key && ss[|ss| - 1].checkOut.Some? then 1 else 0
  }

  /** The time between check-in and check-out, summed over a record's closed sessions. */
  function Elapsed(ss: seq<Session>, key: Key): int {
    if ss == [] then 0
    else
      var s := ss[|ss| - 1];
      Elapsed(ss[..|ss| - 1], key) + if s.key == key && s.checkOut.Some? then s.checkOut.value - s.checkIn else 0
  }

  lemma {:induction false} RoundingBound(ss: seq<Session>, now: Time, key: Key)
    requires SessionsOk(ss, now)
    ensures Elapsed(ss, key) - 30_000 * ClosedCount(ss, key) <= MS_PER_MINUTE * WorkedIn(ss, key)
              <= Elapsed(ss, key) + 30_000 * ClosedCount(ss, key)
  {
    if ss != [] {
      var s := ss[|ss| - 1];
      assert SessionOk(s, now);
      RoundingBound(ss[..|ss| - 1], now, key);
      if s.checkOut.Some? {
        DiffMinutesBounds(s.checkIn, s.checkOut.value, s.checkOut.value);
      }
    }
  }

  lemma {:induction false} ElapsedWithin(ss: seq<Session>, now: Time, key: Key, lo: Time, hi: Time)
    requires SessionsOk(ss, now) && Ordered(ss) && lo <= hi
    requires forall i :: 0 <= i < |ss| && ss[i].key == key && ss[i].checkOut.Some? ==>
                           lo <= ss[i].checkIn && ss[i].checkOut.value <= hi
    ensures Elapsed(ss, key) <= hi - lo
  {
    if ss != [] {
      var n := |ss| - 1;
      var s := ss[n];
      if s.key == key && s.checkOut.Some? {
        assert SessionOk(s, now);
        forall i | 0 <= i < n && ss[i].key == key && ss[i].checkOut.Some?
          ensures lo <= ss[i].checkIn && ss[i].checkOut.value <= s.checkIn
        {
          assert Precedes(ss[i], ss[n]);
        }
        ElapsedWithin(ss[..n], now, key, lo, s.checkIn);
      } else {
        ElapsedWithin(ss[..n], now, key, lo, hi);
      }
    }
  }

  /**
   Conservation: a record's worked minutes are its closed sessions' rounded durations. Over n closed
   sessions inside a window they exceed the window by at most n half minutes, and they miss the time
   really spent by at most as much.
   */
  lemma WorkedIsConserved(cfg: Config, st: State, now: Time, key: Key, lo: Time, hi: Time)
    requires Inv(cfg, st, now) && key in st.records && lo <= hi
    requires forall i :: 0 <= i < |st.sessions| && st.sessions[i].key == key && st.sessions[i].checkOut.Some? ==>
                           lo <= st.sessions[i].checkIn && st.sessions[i].checkOut.value <= hi
    ensures var n := ClosedCount(st.sessions, key);
            var worked := st.records[key].worked;
            && worked == WorkedIn(st.sessions, key)
            && MS_PER_MINUTE * worked <= (hi - lo) + 30_000 * n
            && MS_PER_MINUTE * worked >= Elapsed(st.sessions, key) - 30_000 * n
  {
    RoundingBound(st.sessions, now, key);
    ElapsedWithin(st.sessions, now, key, lo, hi);
  }

  // ---- sums under the operations ------------------------------------------------------------------

  lemma {:induction false} WorkedUpdate(ss: seq<Session>, sid: nat, s: Session, key: Key)
    requires sid < |ss| && s.key == ss[sid].key
    ensures WorkedIn(ss[sid := s], key) ==
            WorkedIn(ss, key) + if s.key == key then Minutes(s) - Minutes(ss[sid]) else 0
  {
    var n := |ss| - 1;
    if sid == n {
      assert ss[sid := s][..n] == ss[..n];
    } else {
      assert ss[sid := s][..n] == ss[..n][sid := s];
      WorkedUpdate(ss[..n], sid, s, key);
    }
  }

  lemma {:induction false} MinutesWithin(ss: seq<Session>, i: nat)
    requires i < |ss|
    ensures Minutes(ss[i]) <= WorkedIn(ss, ss[i].key)
  {
    if i < |ss| - 1 {
      MinutesWithin(ss[..|ss| - 1], i);
    }
  }

  /** The re-aggregation in the checkout core computes exactly the sum over the record's sessions. */
  lemma {:induction false} TotalIsWorked(ss: seq<Session>, now: Time, key: Key, sid: nat, mins: nat)
    requires forall i :: 0 <= i < |ss| && i != sid ==> SessionOk(ss[i], now)
    requires sid < |ss| ==> ss[sid].key == key && ss[sid].checkOut.Some? && Minutes(ss[sid]) == mins
    ensures Total(ss, key, sid, mins) == WorkedIn(ss, key)
  {
    if ss != [] {
      var n := |ss| - 1;
      TotalIsWorked(ss[..n], now, key, sid, mins);
      if n != sid {
        assert SessionOk(ss[n], now);
      }
    }
  }

  lemma {:induction false} NothingWorked(ss: seq<Session>, key: Key)
    requires forall i :: 0 <= i < |ss| ==> ss[i].key != key
    ensures WorkedIn(ss, key) == 0
  {
    if ss != [] {
      NothingWorked(ss[..|ss| - 1], key);
    }
  }

  // ---- preservation -----------------------------------------------------------------------------

  /** Opening a session keeps the invariant if its employee has none open and its record starts or keeps its totals. */
  lemma OpeningKeeps(cfg: Config, st: State, s: Session, rec: Record, now: Time)
    requires Inv(cfg, st, now)
    requires s.checkIn == now && s.checkOut.None? && !s.auto
    requires FindOpen(st.sessions, s.key.emp).None?
    requires RecordConfigured(cfg, s.key, rec)
    requires if s.key in st.records
             then rec.worked == st.records[s.key].worked && rec.overtime == st.records[s.key].overtime && rec.status != HalfDay
             else rec.worked == 0 && rec.overtime == 0 && rec.status != HalfDay
    ensures Inv(cfg, st.(sessions := st.sessions + [s], records := st.records[s.key := rec]), now)
  {
    var n := |st.sessions|;
    var ss := st.sessions + [s];
    assert ss[..n] == st.sessions;
    forall i | 0 <= i < n
      ensures SessionOk(ss[i], now) && CappedAt(cfg, ss[i]) && Precedes(ss[i], s) && ss[i].key in st.records
    {
      assert SessionOk(st.sessions[i], now) && CappedAt(cfg, st.sessions[i]) && st.sessions[i].key in st.records;
    }
    forall i, j | 0 <= i < j < |ss|
      ensures Precedes(ss[i], ss[j])
    {
      assert j < n ==> Precedes(st.sessions[i], st.sessions[j]);
    }
    if s.key !in st.records {
      NothingWorked(st.sessions, s.key);
    }
    forall i | 0 <= i < |st.corrections|
      ensures CorrectionOk(st.corrections[i], ss)
    {
      assert CorrectionOk(st.corrections[i], st.sessions);
    }
  }

  /** A check-in either changes nothing or opens one session at `now` on today's record. */
  lemma CheckInShape(cfg: Config, st: State, emp: nat, place: Place, source: Source, now: Time)
    ensures var after := CheckIn(cfg, st, emp, place, source, now).st;
            var key := Key(emp, DayOf(now));
            after == st ||
            (&& FindOpen(st.sessions, emp).None?
             && Resolve(cfg, emp).Some?
             && |after.sessions| == |st.sessions| + 1
             && var s := after.sessions[|st.sessions|];
                && s.key == key && s.checkIn == now && s.checkOut.None? && !s.auto
                && key in after.records
                && var rec := after.records[key];
                   && after == State(st.sessions + [s], st.records[key := rec], st.corrections, after.approvals)
                   && rec.status != HalfDay
                   && if key in st.records
                      then rec == st.records[key].(lastCheckOut := None, status := rec.status)
                      else rec.worked == 0 && rec.overtime == 0 && RecordConfigured(cfg, key, rec))
  {
  }

  /** Check-in keeps the invariant, whether or not it succeeds. */
  lemma CheckInKeeps(cfg: Config, st: State, emp: nat, place: Place, source: Source, now: Time)
    requires Inv(cfg, st, now)
    ensures Inv(cfg, CheckIn(cfg, st, emp, place, source, now).st, now)
  {
    CheckInShape(cfg, st, emp, place, source, now);
    var after := CheckIn(cfg, st, emp, place, source, now).st;
    if after != st {
      var key := Key(emp, DayOf(now));
      var s := after.sessions[|st.sessions|];
      RecordOfKey(cfg, st, now, key);
      OpeningKeeps(cfg, st, s, after.records[key], now);
      ApprovalsAside(cfg, st.(sessions := st.sessions + [s], records := st.records[key := after.records[key]]), after.approvals, now);
    }
  }

  lemma RecordOfKey(cfg: Config, st: State, now: Time, key: Key)
    requires Inv(cfg, st, now)
    ensures key in st.records ==> RecordConfigured(cfg, key, st.records[key])
  {
  }

  lemma ApprovalsAside(cfg: Config, st: State, approvals: map<Key, Decision>, now: Time)
    requires Inv(cfg, st, now)
    ensures Inv(cfg, st.(approvals := approvals), now)
  {
  }

  lemma CheckoutTallies(st: State, now: Time, sid: nat, rule: Rule, shift: Shift, at: Time, isAuto: bool)
    requires SessionsOk(st.sessions, now) && Linked(st) && Tallied(st)
    requires sid < |st.sessions|
    ensures Tallied(ApplyCheckout(st, sid, rule, shift, at, isAuto))
  {
    var s := st.sessions[sid];
    assert s.key in st.records;
    var after := ApplyCheckout(st, sid, rule, shift, at, isAuto);
    forall i | 0 <= i < |after.sessions| && i != sid
      ensures SessionOk(after.sessions[i], now)
    {
      assert SessionOk(st.sessions[i], now);
    }
    TotalIsWorked(after.sessions, now, s.key, sid, DiffMinutes(s.checkIn, at));
    forall k | k in after.records
      ensures after.records[k].worked == WorkedIn(after.sessions, k)
    {
      WorkedUpdate(st.sessions, sid, ClosedSession(s, at, isAuto), k);
    }
  }

  lemma CheckoutRecordOk(cfg: Config, k: Key, rec: Record, r: Resolved, checkIn: Time, total: nat, at: Time,
                        isAuto: bool)
    requires RecordOk(cfg, k, rec) && Resolve(cfg, k.emp) == Some(r)
    ensures RecordOk(cfg, k, CheckoutRecord(rec, checkIn, total, r.rule, r.shift, at, isAuto))
  {
  }

  lemma CheckoutCorrections(cs: seq<Correction>, ss: seq<Session>, sid: nat, at: Time, isAuto: bool)
    requires CorrectionsOk(cs, ss) && sid < |ss| && ss[sid].checkIn <= at
    requires forall i :: 0 <= i < |cs| && cs[i].sid == sid && cs[i].decision == Pending ==> cs[i].requested <= at
    ensures CorrectionsOk(cs, ss[sid := ClosedSession(ss[sid], at, isAuto)])
  {
  }

  /** The checkout core keeps the invariant when it closes an open session or brings a closed one forward. */
  lemma ApplyCheckoutKeeps(cfg: Config, st: State, now: Time, sid: nat, r: Resolved, at: Time, isAuto: bool)
    requires Inv(cfg, st, now)
    requires sid < |st.sessions|
    requires Resolve(cfg, st.sessions[sid].key.emp) == Some(r)
    requires st.sessions[sid].checkIn <= at <= now
    requires st.sessions[sid].checkOut.Some? ==> at <= st.sessions[sid].checkOut.value
    requires isAuto ==> at <= AutoCheckoutAt(st.sessions[sid].checkIn, r.shift)
    requires forall i :: 0 <= i < |st.corrections| && st.corrections[i].sid == sid && st.corrections[i].decision == Pending ==>
                           st.corrections[i].requested <= at
    ensures Inv(cfg, ApplyCheckout(st, sid, r.rule, r.shift, at, isAuto), now)
  {
    var s := st.sessions[sid];
    var after := ApplyCheckout(st, sid, r.rule, r.shift, at, isAuto);
    forall i | 0 <= i < |after.sessions|
      ensures SessionOk(after.sessions[i], now) && CappedAt(cfg, after.sessions[i]) && after.sessions[i].key in after.records
    {
      assert SessionOk(st.sessions[i], now) && CappedAt(cfg, st.sessions[i]);
      assert st.sessions[i].key in st.records;
    }
    forall i, j | 0 <= i < j < |after.sessions|
      ensures Precedes(after.sessions[i], after.sessions[j])
    {
      assert Precedes(st.sessions[i], st.sessions[j]);
    }
    CheckoutCorrections(st.corrections, st.sessions, sid, at, isAuto);
    CheckoutTallies(st, now, sid, r.rule, r.shift, at, isAuto);
    assert RecordsOk(cfg, after.records) by {
      assert RecordOk(cfg, s.key, st.records[s.key]);
      var total := Total(after.sessions, s.key, sid, DiffMinutes(s.checkIn, at));
      CheckoutRecordOk(cfg, s.key, st.records[s.key], r, s.checkIn, total, at, isAuto);
    }
  }

  /** In a configured table the employee's current rule and shift are the ones on the record. */
  lemma SameConfig(cfg: Config, k: Key, rec: Record)
    requires RecordConfigured(cfg, k, rec)
    ensures ConfigOf(cfg, rec) == Resolve(cfg, k.emp)
  {
  }

  lemma CheckOutKeeps(cfg: Config, st: State, emp: nat, now: Time)
    requires Inv(cfg, st, now)
    ensures Inv(cfg, CheckOut(cfg, st, emp, now).st, now)
  {
    var open := FindOpen(st.sessions, emp);
    if open.Some? && Resolve(cfg, emp).Some? {
      assert SessionOk(st.sessions[open.value], now);
      assert forall i :: 0 <= i < |st.corrections| ==> CorrectionOk(st.corrections[i], st.sessions);
      ApplyCheckoutKeeps(cfg, st, now, open.value, Resolve(cfg, emp).value, now, false);
    }
  }

  lemma CloseIfDueKeeps(cfg: Config, st: State, sid: nat, now: Time)
    requires Inv(cfg, st, now)
    ensures Inv(cfg, CloseIfDue(cfg, st, sid, now), now)
  {
    if Due(cfg, st, sid, now) {
      var s := st.sessions[sid];
      SameConfig(cfg, s.key, st.records[s.key]);
      var r := Resolve(cfg, s.key.emp).value;
      CutoffWindow(s.checkIn, r.shift);
      assert forall i :: 0 <= i < |st.corrections| ==> CorrectionOk(st.corrections[i], st.sessions);
      ApplyCheckoutKeeps(cfg, st, now, sid, r, AutoCheckoutAt(s.checkIn, r.shift), true);
    }
  }

  lemma {:induction false} CloseAllKeeps(cfg: Config, st: State, ids: seq<nat>, now: Time)
    requires Inv(cfg, st, now)
    ensures Inv(cfg, CloseAll(cfg, st, ids, now), now)
  {
    if ids != [] {
      CloseAllKeeps(cfg, st, ids[..|ids| - 1], now);
      CloseIfDueKeeps(cfg, CloseAll(cfg, st, ids[..|ids| - 1], now), ids[|ids| - 1], now);
    }
  }

  /** A first request for a session, filed with a mark on the session's record. */
  lemma RequestKeeps(cfg: Config, st: State, c: Correction, now: Time)
    requires Inv(cfg, st, now) && CorrectionOk(c, st.sessions) && !HasCorrection(st.corrections, c.sid)
    ensures var key := st.sessions[c.sid].key;
            && key in st.records
            && Inv(cfg, st.(corrections := st.corrections + [c],
                            records := st.records[key := st.records[key].(correction := Some(Pending))]), now)
  {
    var cs := st.corrections + [c];
    forall i | 0 <= i < |cs|
      ensures CorrectionOk(cs[i], st.sessions)
    {
      assert i < |st.corrections| ==> CorrectionOk(st.corrections[i], st.sessions);
    }
    assert RecordOk(cfg, st.sessions[c.sid].key, st.records[st.sessions[c.sid].key]);
  }

  lemma SubmitKeeps(cfg: Config, st: State, emp: nat, sid: nat, requested: Time, now: Time)
    requires Inv(cfg, st, now)
    ensures Inv(cfg, SubmitCorrection(st, emp, sid, requested).st, now)
  {
    if SubmitCorrection(st, emp, sid, requested).reply == Done {
      var s := st.sessions[sid];
      RequestKeeps(cfg, st, Correction(sid, requested, s.checkOut.value, st.records[s.key].worked, Pending), now);
    }
  }

  /** Deciding a request touches nothing but its decision and the mark on its record. */
  lemma DecideKeeps(cfg: Config, st: State, cid: nat, d: Decision, now: Time)
    requires Inv(cfg, st, now) && cid < |st.corrections| && d != Pending
    ensures st.corrections[cid].sid < |st.sessions| && Inv(cfg, Decide(st, cid, d), now)
  {
    assert CorrectionOk(st.corrections[cid], st.sessions);
    var after := Decide(st, cid, d);
    forall i | 0 <= i < |after.corrections|
      ensures CorrectionOk(after.corrections[i], after.sessions)
    {
      assert CorrectionOk(st.corrections[i], st.sessions);
    }
  }

  lemma ApproveCorrectionKeeps(cfg: Config, st: State, cid: nat, now: Time)
    requires Inv(cfg, st, now)
    ensures Inv(cfg, ApproveCorrection(cfg, st, cid).st, now)
  {
    if ApproveCorrection(cfg, st, cid).reply == Done {
      var c := st.corrections[cid];
      assert CorrectionOk(c, st.sessions) && SessionOk(st.sessions[c.sid], now);
      var key := st.sessions[c.sid].key;
      SameConfig(cfg, key, st.records[key]);
      var r := Resolve(cfg, key.emp).value;
      forall i | 0 <= i < |st.corrections| && st.corrections[i].sid == c.sid
        ensures st.corrections[i].requested <= c.requested
      {
        assert i == cid;
      }
      ApplyCheckoutKeeps(cfg, st, now, c.sid, r, c.requested, false);
      DecideKeeps(cfg, ApplyCheckout(st, c.sid, r.rule, r.shift, c.requested, false), cid, Approved, now);
    }
  }

  lemma RejectCorrectionKeeps(cfg: Config, st: State, cid: nat, now: Time)
    requires Inv(cfg, st, now)
    ensures Inv(cfg, RejectCorrection(st, cid).st, now)
  {
    if cid < |st.corrections| {
      DecideKeeps(cfg, st, cid, Rejected, now);
    }
  }

  /** Approving or rejecting a remote check-in only sets the record's status. */
  lemma DecideRemoteKeeps(cfg: Config, st: State, key: Key, d: Decision, status: Status, now: Time)
    requires Inv(cfg, st, now) && key in st.records
    requires RecordConfigured(cfg, key, st.records[key]) && HalfDayOk(cfg, key, st.records[key].(status := status))
    ensures Inv(cfg, DecideRemote(st, key, d, status), now)
  {
  }

  lemma RemoteKeeps(cfg: Config, st: State, key: Key, now: Time)
    requires Inv(cfg, st, now)
    ensures Inv(cfg, ApproveRemote(cfg, st, key).st, now)
    ensures Inv(cfg, RejectRemote(st, key).st, now)
  {
    RecordOfKey(cfg, st, now, key);
    if ApproveRemote(cfg, st, key).reply == Done {
      DecideRemoteKeeps(cfg, st, key, Approved, ApproveRemote(cfg, st, key).st.records[key].status, now);
    }
    if RejectRemote(st, key).reply == Done {
      DecideRemoteKeeps(cfg, st, key, Rejected, Absent, now);
    }
  }
}
