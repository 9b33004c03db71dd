/** Which batches a reorder accepts, and what an accepted one leaves in every row. */
module ModuleTreeOutcomes {
  import opened Prelude
  import opened Decimals
  import opened WbsOrder
  import opened ModuleTree

  // ---- acceptance -----------------------------------------------------------------------------------

  /** A top-level update has no parent; a sub-module's parent is a top-level module of the app, as the rows are now. */
  ghost predicate Placed(t: Table, app: nat, u: Update) {
    match u.kind
    case Mod => u.parent.None?
    case SubMod => u.parent.Some? && u.parent.value in t && t[u.parent.value].app == app && t[u.parent.value].kind == Mod
  }

  /** The batch gives a row another parent. */
  ghost predicate Rehomed(us: seq<Update>, id: nat, parent: nat) {
    exists u :: u in us && u.id == id && u.parent != Some(parent)
  }

  /** If an update demotes its module, every active child of it finds another parent in the same batch. */
  ghost predicate LetsGo(t: Table, us: seq<Update>, u: Update) {
    u.id in t && t[u.id].kind == Mod && u.kind == SubMod ==>
      forall c :: c in t && t[c].active && t[c].parent == Some(u.id) ==> Rehomed(us, c, u.id)
  }

  ghost predicate Acceptable(t: Table, us: seq<Update>) {
    && us != []
    && (forall i, j :: 0 <= i < j < |us| ==> us[i].id != us[j].id)
    && (forall u :: u in us ==> u.id in t)
    && (forall u, v :: u in us && v in us ==> t[u.id].app == t[v.id].app)
    && (forall u :: u in us ==> Placed(t, t[u.id].app, u) && LetsGo(t, us, u))
  }

  lemma KeptMeansHeld(t: Table, us: seq<Update>, u: Update)
    requires u.id in t && t[u.id].kind == Mod && u.kind == SubMod
    ensures LetsGo(t, us, u) <==> !KeepsChild(t, us, u.id)
  {
    forall c
      ensures Rehomed(us, c, u.id) <==> MovedAway(us, c, u.id)
    {
      if MovedAway(us, c, u.id) {
        var i :| 0 <= i < |us| && us[i].id == c && us[i].parent != Some(u.id);
        assert us[i] in us;
      }
    }
    if KeepsChild(t, us, u.id) {
      var c :| c in t && IsChild(t, c, u.id) && !MovedAway(us, c, u.id);
      assert t[c].active && !Rehomed(us, c, u.id);
    } else {
      forall c | c in t && t[c].active && t[c].parent == Some(u.id)
        ensures Rehomed(us, c, u.id)
      {
        assert IsChild(t, c, u.id);
      }
    }
  }

  lemma UpdatePasses(t: Table, us: seq<Update>, app: nat, u: Update)
    requires u.id in t
    ensures CheckUpdate(t, us, app, u).None? <==> Placed(t, app, u) && LetsGo(t, us, u)
  {
    if t[u.id].kind == Mod && u.kind == SubMod {
      KeptMeansHeld(t, us, u);
    }
  }

  /** A reorder accepts exactly these batches. */
  lemma AcceptedExactly(t: Table, us: seq<Update>)
    ensures Validate(t, us).None? <==> Acceptable(t, us)
  {
    if us != [] && AllFound(t, us) {
      var app := t[us[0].id].app;
      ChecksPass(t, us, app, |us|);
      forall i | 0 <= i < |us|
        ensures us[i] in us && (CheckUpdate(t, us, app, us[i]).None? <==> Placed(t, app, us[i]) && LetsGo(t, us, us[i]))
      {
        UpdatePasses(t, us, app, us[i]);
      }
    }
    if Acceptable(t, us) {
      assert forall i :: 0 <= i < |us| ==> us[i] in us;
      assert AllFound(t, us);
    }
  }

  // ---- refusals -------------------------------------------------------------------------------------

  /** What an update is refused for. */
  ghost predicate Causes(t: Table, us: seq<Update>, app: nat, u: Update, e: Error) {
    match e
    case TopLevelWithParent => u.kind == Mod && u.parent.Some?
    case ParentRequired => u.kind == SubMod && u.parent.None?
    case ParentNotFound => u.kind == SubMod && u.parent.Some? && (u.parent.value in t ==> t[u.parent.value].app != app)
    case NestedTooDeep =>
      u.kind == SubMod && u.parent.Some? && u.parent.value in t && t[u.parent.value].app == app && t[u.parent.value].kind == SubMod
    case StillHasChildren => Placed(t, app, u) && !LetsGo(t, us, u)
    case _ => false
  }

  lemma UpdateRefused(t: Table, us: seq<Update>, app: nat, u: Update)
    requires u.id in t && CheckUpdate(t, us, app, u).Some?
    ensures Causes(t, us, app, u, CheckUpdate(t, us, app, u).value)
  {
    UpdatePasses(t, us, app, u);
  }

  lemma {:induction false} FirstRefusal(t: Table, us: seq<Update>, app: nat, n: nat) returns (i: nat)
    requires n <= |us| && (forall u :: u in us ==> u.id in t) && CheckUpdates(t, us, app, n).Some?
    ensures i < n && Causes(t, us, app, us[i], CheckUpdates(t, us, app, n).value)
    ensures forall j :: 0 <= j < i ==> Placed(t, app, us[j]) && LetsGo(t, us, us[j])
  {
    if CheckUpdates(t, us, app, n - 1).Some? {
      i := FirstRefusal(t, us, app, n - 1);
    } else {
      i := n - 1;
      UpdateRefused(t, us, app, us[i]);
      ChecksPass(t, us, app, n - 1);
      forall j | 0 <= j < i
        ensures Placed(t, app, us[j]) && LetsGo(t, us, us[j])
      {
        assert us[j] in us;
        UpdatePasses(t, us, app, us[j]);
      }
    }
  }

  /** A refused batch changes nothing; the reply is about the batch as a whole, or about the first update at fault. */
  lemma RefusedFor(t: Table, order: seq<nat>, us: seq<Update>) returns (i: nat)
    requires Validate(t, us).Some?
    ensures Reorder(t, order, us) == t
    ensures var e := Validate(t, us).value;
            if us == [] then e == EmptyBatch
            else if !(forall i, j :: 0 <= i < j < |us| ==> us[i].id != us[j].id) || !(forall u :: u in us ==> u.id in t)
            then e == ModuleNotFound
            else if !(forall u :: u in us ==> u.id in t && t[u.id].app == t[us[0].id].app) then e == DifferentApps
            else
              && i < |us|
              && Causes(t, us, t[us[0].id].app, us[i], e)
              && forall j :: 0 <= j < i ==> Placed(t, t[us[0].id].app, us[j]) && LetsGo(t, us, us[j])
  {
    i := 0;
    assert forall i :: 0 <= i < |us| ==> us[i] in us;
    if us != [] && AllFound(t, us) && !(exists i :: 0 <= i < |us| && t[us[i].id].app != t[us[0].id].app) {
      i := FirstRefusal(t, us, t[us[0].id].app, |us|);
    }
  }

  // ---- rows after an accepted reorder -----------------------------------------------------------------

  /** The batch gives this top-level module another code than it has. */
  ghost predicate Recoded(t: Table, us: seq<Update>, id: nat, code: string) {
    exists u :: u in us && u.id == id && u.kind == Mod && id in t && t[id].wbs != u.wbs && u.wbs == code
  }

  /** Row `x` comes before row `y`: by the suffix of its code, among equal suffixes by the order of the rows. */
  ghost predicate ComesBefore(t: Table, order: seq<nat>, x: nat, y: nat)
    requires x in t && y in t
  {
    || WbsSuffix(t[x].wbs) < WbsSuffix(t[y].wbs)
    || (WbsSuffix(t[x].wbs) == WbsSuffix(t[y].wbs) && Precedes(order, x, y))
  }

  /** The active siblings of a row that come before it. */
  ghost function Earlier(t: Table, order: seq<nat>, id: nat): set<nat>
    requires id in t
  {
    set x | x in t && t[x].active && t[x].parent == t[id].parent && ComesBefore(t, order, x, id)
  }

  /** A row after the moves of a batch and before any re-stamping. */
  ghost predicate Placement(t: Table, us: seq<Update>, id: nat, m: Module)
    requires id in t
  {
    && (forall u :: u in us && u.id == id ==> m == Module(t[id].app, u.kind, u.parent, u.wbs, t[id].active))
    && ((forall u :: u in us ==> u.id != id) ==> m == t[id])
  }

  lemma MovesPlace(t: Table, us: seq<Update>, id: nat)
    requires Acceptable(t, us) && id in t
    ensures MoveAll(t, us).Keys == t.Keys
    ensures Placement(t, us, id, MoveAll(t, us)[id])
  {
    MoveAllPointwise(t, us);
    forall u | u in us && u.id == id
      ensures MoveAll(t, us)[id] == Module(t[id].app, u.kind, u.parent, u.wbs, t[id].active)
    {
      var i :| 0 <= i < |us| && us[i] == u;
    }
    if forall u :: u in us ==> u.id != id {
      assert !Names(us, id);
    }
  }

  lemma {:induction false} ChildrenInOrder(t: Table, order: seq<nat>, parent: nat, x: nat, y: nat)
    requires Precedes(Children(t, order, parent), x, y)
    ensures Precedes(order, x, y)
  {
    var n := |order| - 1;
    var rest := Children(t, order[..n], parent);
    var i, j :| 0 <= i < j < |Children(t, order, parent)| && Children(t, order, parent)[i] == x && Children(t, order, parent)[j] == y;
    if j < |rest| {
      assert rest[i] == x && rest[j] == y;
      ChildrenInOrder(t, order[..n], parent, x, y);
      LaterPlaces(order[..n], order, x, y);
    } else {
      assert rest[i] == x && x in rest && x in order[..n];
      var q :| 0 <= q < n && order[..n][q] == x;
      assert order[q] == x && order[n] == y;
    }
  }

  lemma NeverBothWays(order: seq<nat>, x: nat, y: nat)
    requires NoRepeats(order) && Precedes(order, x, y)
    ensures !Precedes(order, y, x)
  {
  }

  lemma RankedPlaces(t: Table, order: seq<nat>, parent: nat, i: nat, j: nat)
    requires RowOrder(t, order) && i < j < |Ranked(t, order, parent)|
    ensures var ids := Ranked(t, order, parent);
            ids[i] in t && ids[j] in t && ComesBefore(t, order, ids[i], ids[j]) && !ComesBefore(t, order, ids[j], ids[i])
  {
    var ids := Ranked(t, order, parent);
    RankedMembers(t, order, parent);
    assert IsChild(t, ids[i], parent) && IsChild(t, ids[j], parent);
    SortStays(Suffixes(t), Children(t, order, parent));
    if WbsSuffix(t[ids[i]].wbs) == WbsSuffix(t[ids[j]].wbs) {
      ChildrenInOrder(t, order, parent, ids[i], ids[j]);
      NeverBothWays(order, ids[i], ids[j]);
    }
  }

  function Members(ids: seq<nat>): set<nat> {
    set x | x in ids
  }

  lemma {:induction false} DistinctSize(ids: seq<nat>)
    requires NoRepeats(ids)
    ensures |Members(ids)| == |ids|
  {
    if ids != [] {
      var n := |ids| - 1;
      DistinctSize(ids[..n]);
      assert ids[n] !in ids[..n];
      assert ids == ids[..n] + [ids[n]];
      assert Members(ids) == Members(ids[..n]) + {ids[n]};
    }
  }

  /** A child's place in the ranking is the number of siblings that come before it. */
  lemma RankIsEarlier(t: Table, order: seq<nat>, parent: nat, k: nat)
    requires RowOrder(t, order) && k < |Ranked(t, order, parent)|
    ensures var id := Ranked(t, order, parent)[k]; id in t && |Earlier(t, order, id)| == k
  {
    var ids := Ranked(t, order, parent);
    RankedMembers(t, order, parent);
    assert IsChild(t, ids[k], parent);
    forall x
      ensures x in Earlier(t, order, ids[k]) <==> x in ids[..k]
    {
      if q :| 0 <= q < |ids| && ids[q] == x {
        assert IsChild(t, x, parent);
        if q < k {
          RankedPlaces(t, order, parent, q, k);
          assert ids[..k][q] == x;
        } else if k < q {
          RankedPlaces(t, order, parent, k, q);
        } else if Precedes(order, x, x) {
          NeverBothWays(order, x, x);
        }
      } else {
        assert !IsChild(t, x, parent);
      }
    }
    assert Earlier(t, order, ids[k]) == Members(ids[..k]);
    DistinctSize(ids[..k]);
  }

  /** The batch re-stamps a row: it is an active child of a recoded top-level module. */
  ghost predicate Restamps(t: Table, us: seq<Update>, m: Module, code: string) {
    m.active && m.parent.Some? && Recoded(t, us, m.parent.value, code)
  }

  /**
   What an accepted reorder leaves, row by row. `moved` is the table after the bare moves. An active child
   of a recoded top-level module is re-stamped with that module's new code, a dot and its place among its
   siblings; every other row is as the moves left it.
   */
  lemma ReorderOutcome(t: Table, order: seq<nat>, us: seq<Update>, moved: Table, id: nat)
    requires Forest(t) && Acceptable(t, us) && RowOrder(t, order) && id in t
    requires moved.Keys == t.Keys && forall x :: x in t ==> Placement(t, us, x, moved[x])
    ensures var after, m := Reorder(t, order, us), moved[id];
            && after.Keys == t.Keys
            && after[id] == m.(wbs := after[id].wbs)
            && (forall code :: Restamps(t, us, m, code) ==> after[id].wbs == code + "." + Digits(1 + |Earlier(moved, order, id)|))
            && ((forall code :: !Restamps(t, us, m, code)) ==> after[id] == m)
  {
    AcceptedExactly(t, us);
    OnlyPlacement(t, us, moved);
    CascadeChangesCodes(t, order, us);
    forall code | Restamps(t, us, moved[id], code)
      ensures Reorder(t, order, us)[id].wbs == code + "." + Digits(1 + |Earlier(moved, order, id)|)
    {
      Restamped(t, order, us, moved, id, moved[id].parent.value, code);
    }
    if forall code :: !Restamps(t, us, moved[id], code) {
      NotRestamped(t, order, us, moved, id);
    }
  }

  lemma NotRestamped(t: Table, order: seq<nat>, us: seq<Update>, moved: Table, id: nat)
    requires Forest(t) && Acceptable(t, us) && RowOrder(t, order) && id in t && moved == MoveAll(t, us) && id in moved
    requires forall code :: !Restamps(t, us, moved[id], code)
    ensures id in Reorder(t, order, us) && Reorder(t, order, us)[id] == moved[id]
  {
    AcceptedExactly(t, us);
    CascadeChangesCodes(t, order, us);
    var roots := ChangedRoots(t, us);
    assert CascadeRow(moved, order, roots, id, Reorder(t, order, us)[id]);
    forall r | 0 <= r < |roots|
      ensures !IsChild(moved, id, roots[r].id)
    {
      assert roots[r] in us && ChangesCode(t, roots[r]);
      assert Recoded(t, us, roots[r].id, roots[r].wbs);
      assert !Restamps(t, us, moved[id], roots[r].wbs);
    }
  }

  lemma OnlyPlacement(t: Table, us: seq<Update>, moved: Table)
    requires Acceptable(t, us)
    requires moved.Keys == t.Keys && forall x :: x in t ==> Placement(t, us, x, moved[x])
    ensures moved == MoveAll(t, us)
  {
    forall x | x in t
      ensures MoveAll(t, us).Keys == t.Keys && moved[x] == MoveAll(t, us)[x]
    {
      MovesPlace(t, us, x);
    }
    MoveAllPointwise(t, us);
  }

  lemma Restamped(t: Table, order: seq<nat>, us: seq<Update>, moved: Table, id: nat, p: nat, code: string)
    requires Forest(t) && Acceptable(t, us) && RowOrder(t, order) && moved == MoveAll(t, us)
    requires id in moved && moved[id].active && moved[id].parent == Some(p) && Recoded(t, us, p, code)
    ensures id in Reorder(t, order, us)
    ensures Reorder(t, order, us)[id].wbs == code + "." + Digits(1 + |Earlier(moved, order, id)|)
  {
    AcceptedExactly(t, us);
    MoveAllPointwise(t, us);
    var u :| u in us && u.id == p && u.kind == Mod && p in t && t[p].wbs != u.wbs && u.wbs == code;
    ChildrenRestamped(t, order, us, u);
    RankedMembers(moved, order, p);
    assert IsChild(moved, id, p);
    var k :| 0 <= k < |Ranked(moved, order, p)| && Ranked(moved, order, p)[k] == id;
    RankIsEarlier(moved, order, p, k);
  }
}
