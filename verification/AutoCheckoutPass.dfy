/** The automatic check-out cron: what a pass does is independent of its order, its timing and earlier passes. */
module AutoCheckoutPass {
  import opened Prelude
  import opened Calendar
  import opened AttendanceCalc
  import opened Attendance
  import opened AttendanceInvariant

  /** The instant at which a session of a configured record is closed. */
  function CutoffOf(cfg: Config, st: State, sid: nat): Time
    requires sid < |st.sessions| && st.sessions[sid].key in st.records
    requires ConfigOf(cfg, st.records[st.sessions[sid].key]).Some?
  {
    AutoCheckoutAt(st.sessions[sid].checkIn, ConfigOf(cfg, st.records[st.sessions[sid].key]).value.shift)
  }

  /** A session the pass picks up and finds due. */
  predicate Picked(cfg: Config, st: State, ids: set<nat>, now: Time, sid: nat) {
    sid in ids && Due(cfg, st, sid, now)
  }

  /** The record that closing a due session on its own leaves. */
  function ClosedRow(cfg: Config, st: State, sid: nat): Record
    requires sid < |st.sessions| && st.sessions[sid].key in st.records
    requires ConfigOf(cfg, st.records[st.sessions[sid].key]).Some?
  {
    var key := st.sessions[sid].key;
    var r := ConfigOf(cfg, st.records[key]).value;
    ApplyCheckout(st, sid, r.rule, r.shift, CutoffOf(cfg, st, sid), true).records[key]
  }

  ghost predicate SessionAfter(cfg: Config, st: State, ids: set<nat>, now: Time, i: nat, s: Session)
    requires i < |st.sessions|
  {
    s == if Picked(cfg, st, ids, now, i) then ClosedSession(st.sessions[i], CutoffOf(cfg, st, i), true) else st.sessions[i]
  }

  ghost predicate NonePicked(cfg: Config, st: State, ids: set<nat>, now: Time, k: Key) {
    forall i :: 0 <= i < |st.sessions| && st.sessions[i].key == k ==> !Picked(cfg, st, ids, now, i)
  }

  ghost predicate RecordAfter(cfg: Config, st: State, ids: set<nat>, now: Time, k: Key, rec: Record)
    requires k in st.records
  {
    && (NonePicked(cfg, st, ids, now, k) ==> rec == st.records[k])
    && (forall i :: 0 <= i < |st.sessions| && st.sessions[i].key == k && Picked(cfg, st, ids, now, i) ==>
                      rec == ClosedRow(cfg, st, i))
  }

  /**
   The effect of a pass over a set of sessions, row by row and without any order: every due one is
   closed at its own cutoff, and its record is what closing it alone would have made of it.
   */
  ghost predicate PassEffect(cfg: Config, st: State, ids: set<nat>, now: Time, after: State) {
    && |after.sessions| == |st.sessions|
    && (forall i :: 0 <= i < |st.sessions| ==> SessionAfter(cfg, st, ids, now, i, after.sessions[i]))
    && after.records.Keys == st.records.Keys
    && (forall k :: k in st.records ==> RecordAfter(cfg, st, ids, now, k, after.records[k]))
    && after.corrections == st.corrections
    && after.approvals == st.approvals
  }

  lemma EffectIsUnique(cfg: Config, st: State, ids: set<nat>, now: Time, a: State, b: State)
    requires PassEffect(cfg, st, ids, now, a) && PassEffect(cfg, st, ids, now, b)
    ensures a == b
  {
    forall i | 0 <= i < |st.sessions|
      ensures a.sessions[i] == b.sessions[i]
    {
      assert SessionAfter(cfg, st, ids, now, i, a.sessions[i]) && SessionAfter(cfg, st, ids, now, i, b.sessions[i]);
    }
    forall k | k in st.records
      ensures a.records[k] == b.records[k]
    {
      assert RecordAfter(cfg, st, ids, now, k, a.records[k]) && RecordAfter(cfg, st, ids, now, k, b.records[k]);
    }
    assert a.sessions == b.sessions && a.records == b.records;
  }

  /** A record's total depends on that record's sessions only. */
  lemma {:induction false} TotalFrame(a: seq<Session>, b: seq<Session>, key: Key, sid: nat, mins: nat)
    requires |a| == |b|
    requires forall i :: 0 <= i < |a| ==> a[i] == b[i] || (a[i].key != key && b[i].key != key)
    ensures Total(a, key, sid, mins) == Total(b, key, sid, mins)
  {
    if a != [] {
      TotalFrame(a[..|a| - 1], b[..|b| - 1], key, sid, mins);
    }
  }

  /** An open session is the only open one of its record. */
  lemma OpenIsAlone(st: State, i: nat, j: nat)
    requires Ordered(st.sessions)
    requires i < |st.sessions| && j < |st.sessions|
    requires st.sessions[i].key == st.sessions[j].key
    requires st.sessions[i].checkOut.None? && st.sessions[j].checkOut.None?
    ensures i == j
  {
  }

  /** As long as a session was not picked itself, a pass leaves its row, its record and what closing it would do alone. */
  lemma UntouchedByPass(cfg: Config, st: State, ids: set<nat>, now: Time, mid: State, sid: nat)
    requires Ordered(st.sessions) && Linked(st)
    requires PassEffect(cfg, st, ids, now, mid)
    requires sid < |st.sessions| && st.sessions[sid].checkOut.None? && !Picked(cfg, st, ids, now, sid)
    ensures mid.sessions[sid] == st.sessions[sid]
    ensures st.sessions[sid].key in st.records && mid.records[st.sessions[sid].key] == st.records[st.sessions[sid].key]
    ensures ConfigOf(cfg, st.records[st.sessions[sid].key]).Some? ==> ClosedRow(cfg, mid, sid) == ClosedRow(cfg, st, sid)
  {
    var key := st.sessions[sid].key;
    assert SessionAfter(cfg, st, ids, now, sid, mid.sessions[sid]);
    forall i | 0 <= i < |st.sessions| && st.sessions[i].key == key
      ensures !Picked(cfg, st, ids, now, i) && mid.sessions[i] == st.sessions[i]
    {
      assert SessionAfter(cfg, st, ids, now, i, mid.sessions[i]);
      if Picked(cfg, st, ids, now, i) {
        OpenIsAlone(st, i, sid);
      }
    }
    assert key in st.records;
    assert NonePicked(cfg, st, ids, now, key);
    assert RecordAfter(cfg, st, ids, now, key, mid.records[key]);
    if ConfigOf(cfg, st.records[key]).Some? {
      var at := CutoffOf(cfg, st, sid);
      var closed := ClosedSession(st.sessions[sid], at, true);
      forall i | 0 <= i < |st.sessions|
        ensures mid.sessions[sid := closed][i] == st.sessions[sid := closed][i] || (mid.sessions[i].key != key && st.sessions[i].key != key)
      {
        assert SessionAfter(cfg, st, ids, now, i, mid.sessions[i]);
      }
      TotalFrame(mid.sessions[sid := closed], st.sessions[sid := closed], key, sid, DiffMinutes(st.sessions[sid].checkIn, at));
    }
  }

  lemma EffectGrows(cfg: Config, st: State, ids: set<nat>, now: Time, mid: State, sid: nat)
    requires Ordered(st.sessions) && Linked(st)
    requires PassEffect(cfg, st, ids, now, mid)
    ensures PassEffect(cfg, st, ids + {sid}, now, CloseIfDue(cfg, mid, sid, now))
  {
    var more := ids + {sid};
    var after := CloseIfDue(cfg, mid, sid, now);
    if sid >= |st.sessions| || st.sessions[sid].checkOut.Some? || Picked(cfg, st, ids, now, sid) {
      if sid < |st.sessions| {
        assert SessionAfter(cfg, st, ids, now, sid, mid.sessions[sid]);
      }
      assert after == mid;
      SamePicks(cfg, st, ids, more, now, mid);
    } else {
      UntouchedByPass(cfg, st, ids, now, mid, sid);
      if Due(cfg, st, sid, now) {
        OneMorePick(cfg, st, ids, now, mid, sid);
      } else {
        assert after == mid;
        SamePicks(cfg, st, ids, more, now, mid);
      }
    }
  }

  lemma SamePicks(cfg: Config, st: State, ids: set<nat>, more: set<nat>, now: Time, after: State)
    requires PassEffect(cfg, st, ids, now, after)
    requires forall i: nat :: Picked(cfg, st, ids, now, i) <==> Picked(cfg, st, more, now, i)
    ensures PassEffect(cfg, st, more, now, after)
  {
  }

  /** Closing a session the pass has not picked yet changes its row and its record, as it would have on its own. */
  lemma CloseAfterPass(cfg: Config, st: State, ids: set<nat>, now: Time, mid: State, sid: nat)
    requires Ordered(st.sessions) && Linked(st)
    requires PassEffect(cfg, st, ids, now, mid)
    requires Due(cfg, st, sid, now) && !Picked(cfg, st, ids, now, sid)
    ensures sid < |mid.sessions| && mid.sessions[sid] == st.sessions[sid]
    ensures CloseIfDue(cfg, mid, sid, now) ==
            mid.(sessions := mid.sessions[sid := ClosedSession(st.sessions[sid], CutoffOf(cfg, st, sid), true)],
                 records := mid.records[st.sessions[sid].key := ClosedRow(cfg, st, sid)])
  {
    UntouchedByPass(cfg, st, ids, now, mid, sid);
  }

  lemma OneMorePick(cfg: Config, st: State, ids: set<nat>, now: Time, mid: State, sid: nat)
    requires Ordered(st.sessions) && Linked(st)
    requires PassEffect(cfg, st, ids, now, mid)
    requires Due(cfg, st, sid, now) && !Picked(cfg, st, ids, now, sid)
    ensures PassEffect(cfg, st, ids + {sid}, now, CloseIfDue(cfg, mid, sid, now))
  {
    CloseAfterPass(cfg, st, ids, now, mid, sid);
    SessionsWithPick(cfg, st, ids, now, mid, sid);
    RecordsWithPick(cfg, st, ids, now, mid, sid);
  }

  lemma SessionsWithPick(cfg: Config, st: State, ids: set<nat>, now: Time, mid: State, sid: nat)
    requires PassEffect(cfg, st, ids, now, mid)
    requires Due(cfg, st, sid, now) && !Picked(cfg, st, ids, now, sid)
    ensures var ss := mid.sessions[sid := ClosedSession(st.sessions[sid], CutoffOf(cfg, st, sid), true)];
            forall i :: 0 <= i < |st.sessions| ==> SessionAfter(cfg, st, ids + {sid}, now, i, ss[i])
  {
    forall i | 0 <= i < |st.sessions| && i != sid
      ensures SessionAfter(cfg, st, ids + {sid}, now, i, mid.sessions[i])
    {
      assert SessionAfter(cfg, st, ids, now, i, mid.sessions[i]);
    }
  }

  lemma RecordsWithPick(cfg: Config, st: State, ids: set<nat>, now: Time, mid: State, sid: nat)
    requires Ordered(st.sessions) && Linked(st)
    requires PassEffect(cfg, st, ids, now, mid)
    requires Due(cfg, st, sid, now) && !Picked(cfg, st, ids, now, sid)
    ensures var records := mid.records[st.sessions[sid].key := ClosedRow(cfg, st, sid)];
            forall k :: k in st.records ==> RecordAfter(cfg, st, ids + {sid}, now, k, records[k])
  {
    var more := ids + {sid};
    var key := st.sessions[sid].key;
    PickedRecord(cfg, st, more, now, sid);
    forall k | k in st.records && k != key
      ensures RecordAfter(cfg, st, more, now, k, mid.records[k])
    {
      OtherRecordWithPick(cfg, st, ids, now, mid, sid, k);
    }
  }

  lemma OtherRecordWithPick(cfg: Config, st: State, ids: set<nat>, now: Time, mid: State, sid: nat, k: Key)
    requires PassEffect(cfg, st, ids, now, mid)
    requires sid < |st.sessions| && k in st.records && k != st.sessions[sid].key
    ensures RecordAfter(cfg, st, ids + {sid}, now, k, mid.records[k])
  {
    assert RecordAfter(cfg, st, ids, now, k, mid.records[k]);
    assert NonePicked(cfg, st, ids + {sid}, now, k) ==> NonePicked(cfg, st, ids, now, k);
  }

  lemma PickedRecord(cfg: Config, st: State, ids: set<nat>, now: Time, sid: nat)
    requires Ordered(st.sessions)
    requires Picked(cfg, st, ids, now, sid)
    ensures RecordAfter(cfg, st, ids, now, st.sessions[sid].key, ClosedRow(cfg, st, sid))
  {
    forall i | 0 <= i < |st.sessions| && st.sessions[i].key == st.sessions[sid].key && Picked(cfg, st, ids, now, i)
      ensures i == sid
    {
      OpenIsAlone(st, i, sid);
    }
  }

  function Ids(ids: seq<nat>): set<nat> {
    set i | i in ids
  }

  /** The loop over sessions, in whatever order and with whatever repetitions, has that effect. */
  lemma {:induction false} LoopHasEffect(cfg: Config, st: State, ids: seq<nat>, now: Time)
    requires Ordered(st.sessions) && Linked(st)
    ensures PassEffect(cfg, st, Ids(ids), now, CloseAll(cfg, st, ids, now))
  {
    if ids != [] {
      var n := |ids| - 1;
      LoopHasEffect(cfg, st, ids[..n], now);
      EffectGrows(cfg, st, Ids(ids[..n]), now, CloseAll(cfg, st, ids[..n], now), ids[n]);
      assert ids == ids[..n] + [ids[n]];
      assert Ids(ids) == Ids(ids[..n]) + {ids[n]};
    }
  }

  /** The order in which a pass visits the open sessions does not matter. */
  lemma PassOrderIrrelevant(cfg: Config, st: State, now: Time, a: seq<nat>, b: seq<nat>)
    requires Inv(cfg, st, now)
    requires forall i :: i in a <==> i in b
    ensures CloseAll(cfg, st, a, now) == CloseAll(cfg, st, b, now)
  {
    LoopHasEffect(cfg, st, a, now);
    LoopHasEffect(cfg, st, b, now);
    assert Ids(a) == Ids(b);
    EffectIsUnique(cfg, st, Ids(a), now, CloseAll(cfg, st, a, now), CloseAll(cfg, st, b, now));
  }

  // ---- the order of a batch -------------------------------------------------------------------------

  lemma {:induction false} OpenIdsIncrease(ss: seq<Session>, i: nat, j: nat)
    requires i < j < |OpenIds(ss)|
    ensures OpenIds(ss)[i] < OpenIds(ss)[j] < |ss|
  {
    var last := |ss| - 1;
    if j < |OpenIds(ss[..last])| {
      OpenIdsIncrease(ss[..last], i, j);
    } else {
      assert OpenIds(ss)[i] in OpenIds(ss[..last]);
    }
  }

  /** How many of the first `i` sessions are open. */
  function OpenBefore(ss: seq<Session>, i: nat): nat
    requires i <= |ss|
  {
    if i == 0 then 0 else OpenBefore(ss, i - 1) + if ss[i - 1].checkOut.None? then 1 else 0
  }

  lemma {:induction false} OpenBeforePrefix(a: seq<Session>, b: seq<Session>, i: nat)
    requires i <= |a| && i <= |b| && a[..i] == b[..i]
    ensures OpenBefore(a, i) == OpenBefore(b, i)
  {
    if i > 0 {
      assert a[..i][i - 1] == b[..i][i - 1];
      assert a[..i - 1] == a[..i][..i - 1] && b[..i - 1] == b[..i][..i - 1];
      OpenBeforePrefix(a, b, i - 1);
    }
  }

  lemma {:induction false} OpenIdsCount(ss: seq<Session>)
    ensures |OpenIds(ss)| == OpenBefore(ss, |ss|)
  {
    if ss != [] {
      OpenIdsCount(ss[..|ss| - 1]);
      OpenBeforePrefix(ss, ss[..|ss| - 1], |ss| - 1);
    }
  }

  lemma {:induction false} OpenIdsPosition(ss: seq<Session>, i: nat)
    requires i < |ss| && ss[i].checkOut.None?
    ensures OpenBefore(ss, i) < |OpenIds(ss)| && OpenIds(ss)[OpenBefore(ss, i)] == i
  {
    var last := |ss| - 1;
    if i < last {
      OpenIdsPosition(ss[..last], i);
      OpenBeforePrefix(ss, ss[..last], i);
    } else {
      OpenIdsCount(ss[..last]);
      OpenBeforePrefix(ss, ss[..last], last);
    }
  }

  lemma BatchDistinct(ss: seq<Session>, limit: nat, n: nat)
    requires n < |Batch(ss, limit)|
    ensures forall m :: 0 <= m < n ==> Batch(ss, limit)[m] != Batch(ss, limit)[n]
  {
    forall m | 0 <= m < n
      ensures Batch(ss, limit)[m] != Batch(ss, limit)[n]
    {
      OpenIdsIncrease(ss, m, n);
    }
  }

  lemma BatchSize(ss: seq<Session>, limit: nat)
    ensures |Batch(ss, limit)| == if limit < OpenBefore(ss, |ss|) then limit else OpenBefore(ss, |ss|)
  {
    OpenIdsCount(ss);
  }

  /** A batch holds the open sessions with fewer than `limit` open ones before them. */
  lemma BatchMembers(ss: seq<Session>, limit: nat, i: nat)
    requires i < |ss|
    ensures i in Batch(ss, limit) <==> ss[i].checkOut.None? && OpenBefore(ss, i) < limit
  {
    var ids := OpenIds(ss);
    if ss[i].checkOut.None? {
      OpenIdsPosition(ss, i);
      forall q | 0 <= q < |ids| && ids[q] == i
        ensures q == OpenBefore(ss, i)
      {
        if q < OpenBefore(ss, i) {
          OpenIdsIncrease(ss, q, OpenBefore(ss, i));
        } else if OpenBefore(ss, i) < q {
          OpenIdsIncrease(ss, OpenBefore(ss, i), q);
        }
      }
    }
  }

  // ---- timing -----------------------------------------------------------------------------------

  lemma {:induction false} OpenIdsFewer(a: seq<Session>, b: seq<Session>)
    requires |a| == |b|
    requires forall i :: 0 <= i < |a| && b[i].checkOut.None? ==> a[i].checkOut.None?
    ensures |OpenIds(b)| <= |OpenIds(a)|
  {
    if a != [] {
      OpenIdsFewer(a[..|a| - 1], b[..|b| - 1]);
    }
  }

  /** How the picks of two passes, the second one full, relate to those of a single full pass at the later time. */
  lemma PicksCompose(cfg: Config, st: State, first: set<nat>, t1: Time, mid: State, t2: Time, i: nat)
    requires Ordered(st.sessions) && Linked(st) && t1 <= t2
    requires PassEffect(cfg, st, first, t1, mid)
    requires i < |st.sessions|
    ensures var open, second := Ids(OpenIds(st.sessions)), Ids(OpenIds(mid.sessions));
            && mid.sessions[i].key == st.sessions[i].key
            && (Picked(cfg, st, first, t1, i) ==> Picked(cfg, st, open, t2, i) && !Picked(cfg, mid, second, t2, i))
            && (!Picked(cfg, st, first, t1, i) ==> (Picked(cfg, st, open, t2, i) <==> Picked(cfg, mid, second, t2, i)))
  {
    assert SessionAfter(cfg, st, first, t1, i, mid.sessions[i]);
    if st.sessions[i].checkOut.None? && !Picked(cfg, st, first, t1, i) {
      UntouchedByPass(cfg, st, first, t1, mid, i);
    }
  }

  /** A session the second pass picks is still as it was before the first. */
  lemma LatePick(cfg: Config, st: State, first: set<nat>, t1: Time, mid: State, t2: Time, i: nat)
    requires Ordered(st.sessions) && Linked(st) && t1 <= t2
    requires PassEffect(cfg, st, first, t1, mid)
    requires i < |st.sessions| && Picked(cfg, mid, Ids(OpenIds(mid.sessions)), t2, i)
    ensures mid.sessions[i] == st.sessions[i]
    ensures st.sessions[i].key in st.records && ConfigOf(cfg, st.records[st.sessions[i].key]).Some?
    ensures CutoffOf(cfg, mid, i) == CutoffOf(cfg, st, i)
    ensures ClosedRow(cfg, mid, i) == ClosedRow(cfg, st, i)
  {
    assert SessionAfter(cfg, st, first, t1, i, mid.sessions[i]);
    UntouchedByPass(cfg, st, first, t1, mid, i);
  }

  lemma RecordsCompose(cfg: Config, st: State, first: set<nat>, t1: Time, mid: State, t2: Time, after: State, k: Key)
    requires Ordered(st.sessions) && Linked(st) && t1 <= t2
    requires PassEffect(cfg, st, first, t1, mid)
    requires PassEffect(cfg, mid, Ids(OpenIds(mid.sessions)), t2, after)
    requires k in st.records
    ensures RecordAfter(cfg, st, Ids(OpenIds(st.sessions)), t2, k, after.records[k])
  {
    var open, second := Ids(OpenIds(st.sessions)), Ids(OpenIds(mid.sessions));
    assert RecordAfter(cfg, st, first, t1, k, mid.records[k]);
    assert RecordAfter(cfg, mid, second, t2, k, after.records[k]);
    if i :| 0 <= i < |st.sessions| && st.sessions[i].key == k && Picked(cfg, st, open, t2, i) {
      PickedRecord(cfg, st, open, t2, i);
      PicksCompose(cfg, st, first, t1, mid, t2, i);
      if Picked(cfg, st, first, t1, i) {
        forall j | 0 <= j < |mid.sessions| && mid.sessions[j].key == k
          ensures !Picked(cfg, mid, second, t2, j)
        {
          PicksCompose(cfg, st, first, t1, mid, t2, j);
          if Picked(cfg, mid, second, t2, j) {
            OpenIsAlone(st, i, j);
          }
        }
        assert NonePicked(cfg, mid, second, t2, k);
      } else {
        LatePick(cfg, st, first, t1, mid, t2, i);
      }
      assert after.records[k] == ClosedRow(cfg, st, i);
    } else {
      forall i | 0 <= i < |st.sessions|
        ensures st.sessions[i].key == k ==> !Picked(cfg, st, first, t1, i)
        ensures mid.sessions[i].key == k ==> !Picked(cfg, mid, second, t2, i)
      {
        PicksCompose(cfg, st, first, t1, mid, t2, i);
      }
      assert NonePicked(cfg, st, first, t1, k) && NonePicked(cfg, mid, second, t2, k);
    }
  }

  lemma EffectsCompose(cfg: Config, st: State, first: set<nat>, t1: Time, mid: State, t2: Time, after: State)
    requires Ordered(st.sessions) && Linked(st) && t1 <= t2
    requires PassEffect(cfg, st, first, t1, mid)
    requires PassEffect(cfg, mid, Ids(OpenIds(mid.sessions)), t2, after)
    ensures PassEffect(cfg, st, Ids(OpenIds(st.sessions)), t2, after)
  {
    var open, second := Ids(OpenIds(st.sessions)), Ids(OpenIds(mid.sessions));
    forall i | 0 <= i < |st.sessions|
      ensures SessionAfter(cfg, st, open, t2, i, after.sessions[i])
    {
      PicksCompose(cfg, st, first, t1, mid, t2, i);
      if Picked(cfg, mid, second, t2, i) {
        LatePick(cfg, st, first, t1, mid, t2, i);
      }
      assert SessionAfter(cfg, st, first, t1, i, mid.sessions[i]);
      assert SessionAfter(cfg, mid, second, t2, i, after.sessions[i]);
    }
    forall k | k in st.records
      ensures RecordAfter(cfg, st, open, t2, k, after.records[k])
    {
      RecordsCompose(cfg, st, first, t1, mid, t2, after, k);
    }
  }

  /** A loop over sessions opens none. */
  lemma NoneOpened(cfg: Config, st: State, ids: seq<nat>, now: Time)
    requires Ordered(st.sessions) && Linked(st)
    ensures |OpenIds(CloseAll(cfg, st, ids, now).sessions)| <= |OpenIds(st.sessions)|
  {
    var after := CloseAll(cfg, st, ids, now);
    LoopHasEffect(cfg, st, ids, now);
    forall i | 0 <= i < |st.sessions| && after.sessions[i].checkOut.None?
      ensures st.sessions[i].checkOut.None?
    {
      assert SessionAfter(cfg, st, Ids(ids), now, i, after.sessions[i]);
    }
    OpenIdsFewer(st.sessions, after.sessions);
  }

  /** Two loops, the second over every session the first left open. */
  lemma LoopsCompose(cfg: Config, st: State, ids: seq<nat>, t1: Time, t2: Time)
    requires Inv(cfg, st, t1) && t1 <= t2
    ensures var mid := CloseAll(cfg, st, ids, t1);
            CloseAll(cfg, mid, OpenIds(mid.sessions), t2) == CloseAll(cfg, st, OpenIds(st.sessions), t2)
  {
    var mid := CloseAll(cfg, st, ids, t1);
    var all, rest := OpenIds(st.sessions), OpenIds(mid.sessions);
    CloseAllKeeps(cfg, st, ids, t1);
    LoopHasEffect(cfg, st, ids, t1);
    LoopHasEffect(cfg, mid, rest, t2);
    LoopHasEffect(cfg, st, all, t2);
    EffectsCompose(cfg, st, Ids(ids), t1, mid, t2, CloseAll(cfg, mid, rest, t2));
    EffectIsUnique(cfg, st, Ids(all), t2, CloseAll(cfg, mid, rest, t2), CloseAll(cfg, st, all, t2));
  }

  /**
   A pass that takes every open session leaves the same tables whether or not an earlier pass, of any
   batch size, has already closed some of them.
   */
  lemma EarlierPassIrrelevant(cfg: Config, st: State, t1: Time, limit1: nat, t2: Time, limit2: nat)
    requires Inv(cfg, st, t1) && t1 <= t2
    requires limit2 >= |OpenIds(st.sessions)|
    ensures AutoPass(cfg, AutoPass(cfg, st, limit1, t1), limit2, t2) == AutoPass(cfg, st, limit2, t2)
  {
    var ids1 := Batch(st.sessions, limit1);
    NoneOpened(cfg, st, ids1, t1);
    LoopsCompose(cfg, st, ids1, t1, t2);
  }

  datatype Tick = Tick(now: Time, limit: nat)

  function Passes(cfg: Config, st: State, ticks: seq<Tick>): State
    decreases |ticks|
  {
    if ticks == [] then st
    else Passes(cfg, AutoPass(cfg, st, ticks[0].limit, ticks[0].now), ticks[1..])
  }

  /** However often the cron has fired before, the next full pass leaves what it would have left on its own. */
  lemma {:induction false} CronTimingIrrelevant(cfg: Config, st: State, start: Time, ticks: seq<Tick>, last: Tick)
    requires Inv(cfg, st, start)
    requires last.limit >= |OpenIds(st.sessions)|
    requires forall i :: 0 <= i < |ticks| ==> start <= ticks[i].now <= last.now
    requires forall i, j :: 0 <= i < j < |ticks| ==> ticks[i].now <= ticks[j].now
    requires start <= last.now
    ensures AutoPass(cfg, Passes(cfg, st, ticks), last.limit, last.now) == AutoPass(cfg, st, last.limit, last.now)
    decreases |ticks|
  {
    if ticks != [] {
      var t := ticks[0];
      var next := AutoPass(cfg, st, t.limit, t.now);
      InvLater(cfg, st, start, t.now);
      var ids := Batch(st.sessions, t.limit);
      CloseAllKeeps(cfg, st, ids, t.now);
      NoneOpened(cfg, st, ids, t.now);
      CronTimingIrrelevant(cfg, next, t.now, ticks[1..], last);
      EarlierPassIrrelevant(cfg, st, t.now, t.limit, last.now, last.limit);
    }
  }

  /**
   The batch limit takes sessions by check-in, due or not: a limited pass does all the work exactly when
   every due session is among the first `limit` open ones.
   */
  lemma LimitedPassComplete(cfg: Config, st: State, now: Time, limit: nat)
    requires Inv(cfg, st, now) && limit < |OpenIds(st.sessions)|
    ensures AutoPass(cfg, st, limit, now) == AutoPass(cfg, st, |OpenIds(st.sessions)|, now) <==>
            forall i :: i in OpenIds(st.sessions)[limit..] && i !in OpenIds(st.sessions)[..limit] ==> !Due(cfg, st, i, now)
  {
    var all := OpenIds(st.sessions);
    var batch := all[..limit];
    assert Batch(st.sessions, limit) == batch && Batch(st.sessions, |all|) == all;
    assert all == batch + all[limit..];
    LoopsAgree(cfg, st, now, batch, all);
  }

  /** A shorter loop does the work of a longer one exactly if the longer one adds no due session. */
  lemma LoopsAgree(cfg: Config, st: State, now: Time, fewer: seq<nat>, more: seq<nat>)
    requires Ordered(st.sessions) && Linked(st)
    requires forall i :: i in fewer ==> i in more
    ensures CloseAll(cfg, st, fewer, now) == CloseAll(cfg, st, more, now) <==>
            forall i :: i in more && i !in fewer ==> !Due(cfg, st, i, now)
  {
    LoopHasEffect(cfg, st, fewer, now);
    LoopHasEffect(cfg, st, more, now);
    var a, b := CloseAll(cfg, st, fewer, now), CloseAll(cfg, st, more, now);
    if i :| i in more && i !in fewer && Due(cfg, st, i, now) {
      assert SessionAfter(cfg, st, Ids(fewer), now, i, a.sessions[i]);
      assert SessionAfter(cfg, st, Ids(more), now, i, b.sessions[i]);
    } else {
      SamePicks(cfg, st, Ids(fewer), Ids(more), now, a);
      EffectIsUnique(cfg, st, Ids(more), now, a, b);
    }
  }
}
