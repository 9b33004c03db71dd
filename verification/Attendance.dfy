/**
 The attendance tables and what each service call makes of them, on values.

 A record's identity is its (employee, date) pair, which the table's unique index makes a key; an
 employee number stands for the pair of organization and employee. Sessions and correction requests
 are numbered in the order of their insertion, which is the order of their check-ins.
 */
module Attendance {
  import opened Prelude
  import opened Calendar
  import opened AttendanceCalc

  datatype Key = Key(emp: nat, date: Day)

  datatype Source = Auto | Manual | Web | Mobile | Biometric

  datatype Mode = OfficeIn | RemoteIn

  datatype Decision = Pending | Approved | Rejected

  datatype Session = Session(
    key: Key,
    checkIn: Time,
    checkOut: Option<Time>,
    worked: nat,
    auto: bool,
    mode: Mode,
    source: Source)

  datatype Record = Record(
    ruleId: Option<nat>,
    shiftId: Option<nat>,
    firstCheckIn: Option<Time>,
    lastCheckOut: Option<Time>,
    worked: nat,
    overtime: int,
    late: bool,
    lateMinutes: Option<int>,
    halfDay: bool,
    isOvertime: bool,
    status: Status,
    mode: Option<Mode>,
    hasAuto: bool,
    correction: Option<Decision>,
    source: Source)

  /** A request names its session; its record is that session's record, which never changes. */
  datatype Correction = Correction(
    sid: nat,
    requested: Time,
    autoCheckOut: Time,
    autoWorked: nat,
    decision: Decision)

  datatype State = State(
    sessions: seq<Session>,
    records: map<Key, Record>,
    corrections: seq<Correction>,
    approvals: map<Key, Decision>)

  /** Effective rule assignments and the rules and shifts that are not deleted. */
  datatype Config = Config(assignments: map<nat, nat>, rules: map<nat, Rule>, shifts: map<nat, Shift>)

  datatype Error =
    | NoRule | AlreadyCheckedIn | MultipleNotAllowed | GpsRequired | NoGeoFence | RemoteDisabled
    | DuplicateApproval | NoActiveCheckIn | RecordNotFound | SessionNotFound | NotYours
    | NotAutoClosed | BeforeCheckIn | NoCheckOutTime | AfterAutoCheckOut | AlreadyPending
    | DuplicateCorrection | RequestNotFound | AlreadyDecided | MissingShiftOrRule
    | ShiftOrRuleGone | ApprovalNotFound

  datatype Reply = Done | AlreadyOut | Refused(error: Error)

  datatype Outcome = Outcome(st: State, reply: Reply)

  function Refuse(st: State, e: Error): Outcome {
    Outcome(st, Refused(e))
  }

  // ---- lookups ----------------------------------------------------------------------------------

  datatype Resolved = Resolved(ruleId: nat, rule: Rule, shift: Shift)

  /** The rule and shift that apply to an employee now. */
  function Resolve(cfg: Config, emp: nat): Option<Resolved> {
    if emp in cfg.assignments && cfg.assignments[emp] in cfg.rules && cfg.rules[cfg.assignments[emp]].shiftId in cfg.shifts then
      var ruleId := cfg.assignments[emp];
      Some(Resolved(ruleId, cfg.rules[ruleId], cfg.shifts[cfg.rules[ruleId].shiftId]))
    else
      None
  }

  /** The rule and shift whose ids a record carries. */
  function ConfigOf(cfg: Config, rec: Record): Option<Resolved> {
    if && rec.shiftId.Some? && rec.ruleId.Some?
       && rec.shiftId.value in cfg.shifts && rec.ruleId.value in cfg.rules
    then Some(Resolved(rec.ruleId.value, cfg.rules[rec.ruleId.value], cfg.shifts[rec.shiftId.value]))
    else None
  }

  /** The employee's open session with the latest check-in. */
  function FindOpen(ss: seq<Session>, emp: nat): (r: Option<nat>)
    ensures r.Some? ==> r.value < |ss| && ss[r.value].key.emp == emp && ss[r.value].checkOut.None?
    ensures r.None? ==> forall i :: 0 <= i < |ss| && ss[i].key.emp == emp ==> ss[i].checkOut.Some?
  {
    if ss == [] then None
    else
      var last := |ss| - 1;
      if ss[last].key.emp == emp && ss[last].checkOut.None? then Some(last) else FindOpen(ss[..last], emp)
  }

  // ---- check-in ---------------------------------------------------------------------------------

  /** What the position sent with a check-in says about the office. */
  datatype Place = NoGps | Within | Beyond

  function CheckInRefusal(r: Resolved, place: Place): Option<Error> {
    if !r.rule.requireGeoFencing then None
    else if place.NoGps? then Some(GpsRequired)
    else if !r.rule.hasGeoFence then Some(NoGeoFence)
    else if place.Beyond? && !r.rule.allowRemote then Some(RemoteDisabled)
    else None
  }

  function CheckInStatus(existing: Option<Record>, needsApproval: bool, late: bool): Status {
    if needsApproval then PendingApproval
    else
      match existing
      case Some(rec) =>
        if rec.status == PendingApproval then PendingApproval else if rec.late then Late else Present
      case None => if late then Late else Present
  }

  function FreshRecord(r: Resolved, now: Time, status: Status, mode: Mode, source: Source): Record {
    Record(Some(r.ruleId), Some(r.rule.shiftId), Some(now), None, 0, 0, IsLate(now, r.shift),
           if LateBy(now, r.shift) > 0 then Some(LateBy(now, r.shift)) else None,
           false, false, status, Some(mode), false, None, source)
  }

  function CheckIn(cfg: Config, st: State, emp: nat, place: Place, source: Source, now: Time): Outcome {
    match Resolve(cfg, emp)
    case None => Refuse(st, NoRule)
    case Some(r) =>
      var key := Key(emp, DayOf(now));
      var existing := Lookup(st.records, key);
      if FindOpen(st.sessions, emp).Some? then Refuse(st, AlreadyCheckedIn)
      else if existing.Some? && !(r.rule.allowMultiple || r.shift.allowMultiple) then Refuse(st, MultipleNotAllowed)
      else if CheckInRefusal(r, place).Some? then Refuse(st, CheckInRefusal(r, place).value)
      else
        var mode := if r.rule.requireGeoFencing && place.Beyond? then RemoteIn else OfficeIn;
        var needsApproval := mode == RemoteIn && r.rule.remoteApprovalRequired;
        var status := CheckInStatus(existing, needsApproval, IsLate(now, r.shift));
        var rec := match existing
                   case None => FreshRecord(r, now, status, mode, source)
                   case Some(earlier) => earlier.(lastCheckOut := None, status := status);
        var entered := st.(records := st.records[key := rec],
                          sessions := st.sessions + [Session(key, now, None, 0, false, mode, source)]);
        if needsApproval then
          if key in st.approvals then Refuse(entered, DuplicateApproval)
          else Outcome(entered.(approvals := st.approvals[key := Pending]), Done)
        else Outcome(entered, Done)
  }

  // ---- check-out --------------------------------------------------------------------------------

  /** The fold over a record's sessions that re-aggregates its day, closing session `sid` with `mins`. */
  function Total(ss: seq<Session>, key: Key, sid: nat, mins: nat): nat {
    if ss == [] then 0
    else
      var last := |ss| - 1;
      var s := ss[last];
      Total(ss[..last], key, sid, mins) +
      (if s.key != key then 0
       else if last == sid then mins
       else if s.checkOut.Some? then
         var again := DiffMinutes(s.checkIn, s.checkOut.value);
         if s.worked < again then again else s.worked
       else 0)
  }

  function ClosedSession(s: Session, at: Time, isAuto: bool): Session {
    s.(checkOut := Some(at),
       worked := DiffMinutes(s.checkIn, at),
       auto := s.auto || isAuto,
       source := if isAuto then Auto else s.source)
  }

  function CheckoutComputed(rec: Record, total: nat, rule: Rule, late: bool): Computed {
    if rec.status == PendingApproval then Computed(total, 0, false, false, PendingApproval)
    else Classify(total, rule, late)
  }

  function CheckoutRecord(rec: Record, checkIn: Time, total: nat, rule: Rule, shift: Shift, at: Time,
                        isAuto: bool): Record {
    var late := IsLate(OrElse(rec.firstCheckIn, checkIn), shift);
    var c := CheckoutComputed(rec, total, rule, late);
    rec.(lastCheckOut := Some(at),
         worked := c.worked,
         overtime := c.overtime,
         halfDay := c.halfDay,
         isOvertime := c.isOvertime,
         late := late,
         status := c.status,
         hasAuto := rec.hasAuto || isAuto)
  }

  /** The shared checkout core behind check-out, automatic check-out and approved corrections. */
  function ApplyCheckout(st: State, sid: nat, rule: Rule, shift: Shift, at: Time, isAuto: bool): State
    requires sid < |st.sessions| && st.sessions[sid].key in st.records
  {
    var s := st.sessions[sid];
    var sessions := st.sessions[sid := ClosedSession(s, at, isAuto)];
    var total := Total(sessions, s.key, sid, DiffMinutes(s.checkIn, at));
    st.(sessions := sessions,
        records := st.records[s.key := CheckoutRecord(st.records[s.key], s.checkIn, total, rule, shift, at, isAuto)])
  }

  function CheckOut(cfg: Config, st: State, emp: nat, now: Time): Outcome {
    match FindOpen(st.sessions, emp)
    case None =>
      var today := Lookup(st.records, Key(emp, DayOf(now)));
      if today.Some? && today.value.lastCheckOut.Some? then Outcome(st, AlreadyOut) else Refuse(st, NoActiveCheckIn)
    case Some(sid) =>
      if st.sessions[sid].key !in st.records then Refuse(st, RecordNotFound)
      else
        match Resolve(cfg, emp)
        case None => Refuse(st, NoRule)
        case Some(r) => Outcome(ApplyCheckout(st, sid, r.rule, r.shift, now, false), Done)
  }

  // ---- automatic check-out ----------------------------------------------------------------------

  /** Whether the automatic check-out closes this session at `now`. */
  predicate Due(cfg: Config, st: State, sid: nat, now: Time) {
    && sid < |st.sessions|
    && st.sessions[sid].checkOut.None?
    && st.sessions[sid].key in st.records
    && var r := ConfigOf(cfg, st.records[st.sessions[sid].key]);
       r.Some? && r.value.shift.autoCheckoutEnabled && AutoCheckoutAt(st.sessions[sid].checkIn, r.value.shift) <= now
  }

  /** One turn of the loop over open sessions. */
  function CloseIfDue(cfg: Config, st: State, sid: nat, now: Time): State {
    if Due(cfg, st, sid, now) then
      var r := ConfigOf(cfg, st.records[st.sessions[sid].key]).value;
      ApplyCheckout(st, sid, r.rule, r.shift, AutoCheckoutAt(st.sessions[sid].checkIn, r.shift), true)
    else st
  }

  function CloseAll(cfg: Config, st: State, ids: seq<nat>, now: Time): State {
    if ids == [] then st
    else CloseIfDue(cfg, CloseAll(cfg, st, ids[..|ids| - 1], now), ids[|ids| - 1], now)
  }

  /** The open sessions, earliest check-in first. */
  function OpenIds(ss: seq<Session>): (ids: seq<nat>)
    ensures forall i: nat :: i in ids <==> i < |ss| && ss[i].checkOut.None?
  {
    if ss == [] then []
    else
      var last := |ss| - 1;
      OpenIds(ss[..last]) + if ss[last].checkOut.None? then [last] else []
  }

  /** The sessions one run of the cron job takes. */
  function Batch(ss: seq<Session>, limit: nat): seq<nat> {
    var ids := OpenIds(ss);
    if limit < |ids| then ids[..limit] else ids
  }

  function AutoPass(cfg: Config, st: State, limit: nat, now: Time): State {
    CloseAll(cfg, st, Batch(st.sessions, limit), now)
  }

  // ---- correction requests ----------------------------------------------------------------------

  predicate HasCorrection(cs: seq<Correction>, sid: nat) {
    exists i :: 0 <= i < |cs| && cs[i].sid == sid
  }

  predicate HasPending(cs: seq<Correction>, sid: nat) {
    exists i :: 0 <= i < |cs| && cs[i].sid == sid && cs[i].decision == Pending
  }

  /**
   The unique index on the session of a request refuses a second request even after the first one
   has been decided.
   */
  function SubmitCorrection(st: State, emp: nat, sid: nat, requested: Time): Outcome {
    if sid >= |st.sessions| then Refuse(st, SessionNotFound)
    else
      var s := st.sessions[sid];
      if s.key.emp != emp then Refuse(st, NotYours)
      else if !s.auto then Refuse(st, NotAutoClosed)
      else if requested < s.checkIn then Refuse(st, BeforeCheckIn)
      else if s.checkOut.None? then Refuse(st, NoCheckOutTime)
      else if requested > s.checkOut.value then Refuse(st, AfterAutoCheckOut)
      else if HasPending(st.corrections, sid) then Refuse(st, AlreadyPending)
      else if s.key !in st.records then Refuse(st, RecordNotFound)
      else if HasCorrection(st.corrections, sid) then Refuse(st, DuplicateCorrection)
      else
        var rec := st.records[s.key];
        var c := Correction(sid, requested, s.checkOut.value, rec.worked, Pending);
        Outcome(st.(corrections := st.corrections + [c],
                    records := st.records[s.key := rec.(correction := Some(Pending))]), Done)
  }

  /** Writes a decision to a request and mirrors it on the record, if that still exists. */
  function Decide(st: State, cid: nat, d: Decision): State
    requires cid < |st.corrections| && st.corrections[cid].sid < |st.sessions|
  {
    var c := st.corrections[cid];
    var key := st.sessions[c.sid].key;
    st.(corrections := st.corrections[cid := c.(decision := d)],
        records := if key in st.records then st.records[key := st.records[key].(correction := Some(d))] else st.records)
  }

  function ApproveCorrection(cfg: Config, st: State, cid: nat): Outcome {
    if cid >= |st.corrections| then Refuse(st, RequestNotFound)
    else
      var c := st.corrections[cid];
      if c.decision != Pending then Refuse(st, AlreadyDecided)
      else if c.sid >= |st.sessions| || st.sessions[c.sid].key !in st.records then Refuse(st, SessionNotFound)
      else
        var rec := st.records[st.sessions[c.sid].key];
        if rec.shiftId.None? || rec.ruleId.None? then Refuse(st, MissingShiftOrRule)
        else
          match ConfigOf(cfg, rec)
          case None => Refuse(st, ShiftOrRuleGone)
          case Some(r) => Outcome(Decide(ApplyCheckout(st, c.sid, r.rule, r.shift, c.requested, false), cid, Approved), Done)
  }

  function RejectCorrection(st: State, cid: nat): Outcome {
    if cid >= |st.corrections| || st.corrections[cid].sid >= |st.sessions| then Refuse(st, RequestNotFound)
    else if st.corrections[cid].decision != Pending then Refuse(st, AlreadyDecided)
    else Outcome(Decide(st, cid, Rejected), Done)
  }

  // ---- remote approval --------------------------------------------------------------------------

  function DecideRemote(st: State, key: Key, d: Decision, status: Status): State
    requires key in st.records
  {
    st.(approvals := st.approvals[key := d],
        records := st.records[key := st.records[key].(status := status)])
  }

  function ApproveRemote(cfg: Config, st: State, key: Key): Outcome {
    if key !in st.approvals then Refuse(st, ApprovalNotFound)
    else if st.approvals[key] != Pending then Refuse(st, AlreadyDecided)
    else if key !in st.records then Refuse(st, RecordNotFound)
    else
      match Resolve(cfg, key.emp)
      case None => Refuse(st, NoRule)
      case Some(r) =>
        var rec := st.records[key];
        var late := rec.firstCheckIn.Some? && IsLate(rec.firstCheckIn.value, r.shift);
        Outcome(DecideRemote(st, key, Approved, Classify(rec.worked, r.rule, late).status), Done)
  }

  function RejectRemote(st: State, key: Key): Outcome {
    if key !in st.approvals then Refuse(st, ApprovalNotFound)
    else if st.approvals[key] != Pending then Refuse(st, AlreadyDecided)
    else if key !in st.records then Refuse(st, RecordNotFound)
    else Outcome(DecideRemote(st, key, Rejected, Absent), Done)
  }
}
