/**
 The module tree: a validated batch of moves, and the cascade that re-stamps the codes of the children
 of every top-level module whose own code changed.
 */
module ModuleTree {
  import opened Prelude
  import opened Decimals
  import opened WbsOrder

  datatype Kind = Mod | SubMod

  datatype Module = Module(app: nat, kind: Kind, parent: Option<nat>, wbs: string, active: bool)

  type Table = map<nat, Module>

  datatype Update = Update(id: nat, kind: Kind, parent: Option<nat>, wbs: string)

  datatype Error =
    | EmptyBatch | ModuleNotFound | DifferentApps | TopLevelWithParent | ParentRequired | ParentNotFound
    | NestedTooDeep | StillHasChildren

  // ---- moves --------------------------------------------------------------------------------------

  function Moved(m: Module, u: Update): Module {
    m.(parent := u.parent, wbs := u.wbs, kind := u.kind)
  }

  /** `bulkMove`: row updates one after the other; an update of a missing row changes nothing. */
  function MoveAll(t: Table, us: seq<Update>): Table {
    if us == [] then t
    else
      var n := |us| - 1;
      var before := MoveAll(t, us[..n]);
      if us[n].id in before then before[us[n].id := Moved(before[us[n].id], us[n])] else before
  }

  predicate DistinctIds(us: seq<Update>) {
    forall i, j :: 0 <= i < j < |us| ==> us[i].id != us[j].id
  }

  predicate Names(us: seq<Update>, id: nat) {
    exists i :: 0 <= i < |us| && us[i].id == id
  }

  /** Distinct moves do not interfere: each row ends as its own move says. */
  lemma {:induction false} MoveAllPointwise(t: Table, us: seq<Update>)
    requires DistinctIds(us)
    ensures MoveAll(t, us).Keys == t.Keys
    ensures forall i :: 0 <= i < |us| && us[i].id in t ==> MoveAll(t, us)[us[i].id] == Moved(t[us[i].id], us[i])
    ensures forall id :: id in t && !Names(us, id) ==> MoveAll(t, us)[id] == t[id]
  {
    if us != [] {
      var n := |us| - 1;
      MoveAllPointwise(t, us[..n]);
      assert forall i :: 0 <= i < n ==> us[..n][i] == us[i];
      assert !Names(us[..n], us[n].id);
      forall id | id in t && !Names(us, id)
        ensures MoveAll(t, us)[id] == t[id]
      {
        assert us[n].id != id;
        assert !Names(us[..n], id);
      }
    }
  }

  // ---- children and the cascade -------------------------------------------------------------------

  /** The sort keys of a table's rows. */
  function Suffixes(t: Table): map<nat, int> {
    map id | id in t :: WbsSuffix(t[id].wbs)
  }

  predicate IsChild(t: Table, id: nat, parent: nat) {
    id in t && t[id].active && t[id].parent == Some(parent)
  }

  /** `findChildren`: the active children, in whatever order the table's rows come. */
  function Children(t: Table, order: seq<nat>, parent: nat): (r: seq<nat>)
    ensures forall id :: id in r <==> id in order && IsChild(t, id, parent)
    ensures NoRepeats(order) ==> NoRepeats(r)
  {
    if order == [] then []
    else
      var n := |order| - 1;
      var rest := Children(t, order[..n], parent);
      assert order == order[..n] + [order[n]];
      assert NoRepeats(order) ==> order[n] !in order[..n];
      rest + if IsChild(t, order[n], parent) then [order[n]] else []
  }

  lemma {:induction false} ChildrenFrame(t: Table, u: Table, order: seq<nat>, parent: nat)
    requires forall id :: IsChild(t, id, parent) <==> IsChild(u, id, parent)
    ensures Children(t, order, parent) == Children(u, order, parent)
  {
    if order != [] {
      ChildrenFrame(t, u, order[..|order| - 1], parent);
    }
  }

  /** `order` lists every row of the table once. */
  ghost predicate RowOrder(t: Table, order: seq<nat>) {
    NoRepeats(order) && forall id :: id in t ==> id in order
  }

  function Ranked(t: Table, order: seq<nat>, parent: nat): seq<nat> {
    SortBy(Suffixes(t), Children(t, order, parent))
  }

  lemma RankedMembers(t: Table, order: seq<nat>, parent: nat)
    requires RowOrder(t, order)
    ensures NoRepeats(Ranked(t, order, parent))
    ensures forall id :: id in Ranked(t, order, parent) <==> IsChild(t, id, parent)
    ensures SortedBy(Suffixes(t), Ranked(t, order, parent))
  {
    SortSorts(Suffixes(t), Children(t, order, parent));
    SamePermutation(Ranked(t, order, parent), Children(t, order, parent));
  }

  /** The moves that stamp a root's children with root.1, root.2 and so on. */
  function Stamps(ids: seq<nat>, root: nat, code: string): seq<Update> {
    if ids == [] then []
    else
      var n := |ids| - 1;
      Stamps(ids[..n], root, code) + [Update(ids[n], SubMod, Some(root), ChildCode(code, n + 1))]
  }

  lemma {:induction false} StampsAt(ids: seq<nat>, root: nat, code: string)
    ensures |Stamps(ids, root, code)| == |ids|
    ensures forall i :: 0 <= i < |ids| ==> Stamps(ids, root, code)[i] == Update(ids[i], SubMod, Some(root), ChildCode(code, i + 1))
  {
    if ids != [] {
      StampsAt(ids[..|ids| - 1], root, code);
    }
  }

  function CascadeRoot(t: Table, order: seq<nat>, root: Update): Table {
    MoveAll(t, Stamps(Ranked(t, order, root.id), root.id, root.wbs))
  }

  function Cascade(t: Table, order: seq<nat>, roots: seq<Update>): Table {
    if roots == [] then t
    else CascadeRoot(Cascade(t, order, roots[..|roots| - 1]), order, roots[|roots| - 1])
  }

  /** The top-level modules of a batch whose code it changes. */
  predicate ChangesCode(t: Table, u: Update) {
    u.kind == Mod && u.id in t && t[u.id].wbs != u.wbs
  }

  function ChangedRoots(t: Table, us: seq<Update>): (r: seq<Update>)
    ensures forall u :: u in r <==> u in us && ChangesCode(t, u)
    ensures DistinctIds(us) ==> DistinctIds(r)
  {
    if us == [] then []
    else
      var n := |us| - 1;
      var rest := ChangedRoots(t, us[..n]);
      assert us == us[..n] + [us[n]];
      assert DistinctIds(us) ==> forall u :: u in us[..n] ==> u.id != us[n].id;
      rest + if ChangesCode(t, us[n]) then [us[n]] else []
  }

  /** What re-stamping makes of the child that is ranked `k` under a root. */
  function Stamped(m: Module, root: Update, k: nat): Module {
    m.(wbs := ChildCode(root.wbs, k + 1), kind := SubMod)
  }

  lemma CascadeRootEffect(t: Table, order: seq<nat>, root: Update)
    requires RowOrder(t, order)
    ensures var after := CascadeRoot(t, order, root);
            var ids := Ranked(t, order, root.id);
            && after.Keys == t.Keys
            && (forall k :: 0 <= k < |ids| ==> ids[k] in t && after[ids[k]] == Stamped(t[ids[k]], root, k))
            && (forall id :: id in t && !IsChild(t, id, root.id) ==> after[id] == t[id])
  {
    var ids := Ranked(t, order, root.id);
    var stamps := Stamps(ids, root.id, root.wbs);
    RankedMembers(t, order, root.id);
    StampsAt(ids, root.id, root.wbs);
    MoveAllPointwise(t, stamps);
    forall k | 0 <= k < |ids|
      ensures ids[k] in t && CascadeRoot(t, order, root)[ids[k]] == Stamped(t[ids[k]], root, k)
    {
      assert IsChild(t, ids[k], root.id);
      assert stamps[k].id == ids[k];
    }
    forall id | id in t && !IsChild(t, id, root.id)
      ensures CascadeRoot(t, order, root)[id] == t[id]
    {
      assert id !in ids;
    }
  }

  /** The row a cascade leaves: stamped by its rank if it is a child of one of the roots, untouched if not. */
  ghost predicate CascadeRow(t: Table, order: seq<nat>, roots: seq<Update>, id: nat, m: Module)
    requires id in t
  {
    && (forall r, k :: 0 <= r < |roots| && 0 <= k < |Ranked(t, order, roots[r].id)| && Ranked(t, order, roots[r].id)[k] == id ==>
                         m == Stamped(t[id], roots[r], k))
    && ((forall r :: 0 <= r < |roots| ==> !IsChild(t, id, roots[r].id)) ==> m == t[id])
  }

  ghost predicate CascadeEffect(t: Table, order: seq<nat>, roots: seq<Update>, after: Table) {
    after.Keys == t.Keys && forall id :: id in t ==> CascadeRow(t, order, roots, id, after[id])
  }

  /** Cascades change codes, and make sub-modules of the children they stamp; nothing else. */
  lemma CascadeRowShape(t: Table, order: seq<nat>, roots: seq<Update>, id: nat, m: Module)
    requires RowOrder(t, order) && id in t && CascadeRow(t, order, roots, id, m)
    ensures m == t[id].(wbs := m.wbs, kind := m.kind)
    ensures m.kind == t[id].kind || m.kind == SubMod
    ensures (forall r :: 0 <= r < |roots| ==> !IsChild(t, id, roots[r].id)) ==> m == t[id]
  {
    if r :| 0 <= r < |roots| && IsChild(t, id, roots[r].id) {
      RankedMembers(t, order, roots[r].id);
      var k :| 0 <= k < |Ranked(t, order, roots[r].id)| && Ranked(t, order, roots[r].id)[k] == id;
      assert m == Stamped(t[id], roots[r], k);
    }
  }

  lemma {:induction false} CascadeHasEffect(t: Table, order: seq<nat>, roots: seq<Update>)
    requires RowOrder(t, order) && DistinctIds(roots)
    ensures CascadeEffect(t, order, roots, Cascade(t, order, roots))
  {
    if roots != [] {
      var n := |roots| - 1;
      CascadeHasEffect(t, order, roots[..n]);
      var before := Cascade(t, order, roots[..n]);
      CascadeRootEffect(before, order, roots[n]);
      LaterRankingUnaffected(t, order, roots[..n], before, roots[n]);
      forall id | id in t
        ensures CascadeRow(t, order, roots, id, CascadeRoot(before, order, roots[n])[id])
      {
        CascadeOneMore(t, order, roots, before, CascadeRoot(before, order, roots[n]), id);
      }
    }
  }

  /** Cascades of different roots touch different children, so earlier ones leave a later root's ranking alone. */
  lemma LaterRankingUnaffected(t: Table, order: seq<nat>, roots: seq<Update>, before: Table, root: Update)
    requires RowOrder(t, order) && CascadeEffect(t, order, roots, before)
    requires forall r :: 0 <= r < |roots| ==> roots[r].id != root.id
    ensures Ranked(before, order, root.id) == Ranked(t, order, root.id)
    ensures forall id :: IsChild(t, id, root.id) <==> IsChild(before, id, root.id)
    ensures forall id :: IsChild(t, id, root.id) ==> before[id] == t[id]
  {
    forall id
      ensures IsChild(t, id, root.id) <==> IsChild(before, id, root.id)
      ensures IsChild(t, id, root.id) ==> before[id] == t[id]
    {
      if id in t {
        CascadeRowShape(t, order, roots, id, before[id]);
      }
    }
    ChildrenFrame(t, before, order, root.id);
    SortFrame(Suffixes(t), Suffixes(before), Children(t, order, root.id));
  }

  /** One more root, seen from one row. */
  lemma CascadeOneMore(t: Table, order: seq<nat>, roots: seq<Update>, before: Table, after: Table, id: nat)
    requires RowOrder(t, order) && DistinctIds(roots) && roots != [] && id in t && id in before && id in after
    requires CascadeRow(t, order, roots[..|roots| - 1], id, before[id])
    requires var root := roots[|roots| - 1];
             var ids := Ranked(t, order, root.id);
             && (IsChild(t, id, root.id) ==> before[id] == t[id])
             && (IsChild(t, id, root.id) <==> IsChild(before, id, root.id))
             && (forall k :: 0 <= k < |ids| && ids[k] == id ==> after[id] == Stamped(before[id], root, k))
             && (!IsChild(before, id, root.id) ==> after[id] == before[id])
    ensures CascadeRow(t, order, roots, id, after[id])
  {
    var n := |roots| - 1;
    forall r, k | 0 <= r < |roots| && 0 <= k < |Ranked(t, order, roots[r].id)| && Ranked(t, order, roots[r].id)[k] == id
      ensures after[id] == Stamped(t[id], roots[r], k)
    {
      RankedMembers(t, order, roots[r].id);
      assert IsChild(t, id, roots[r].id);
      if r < n {
        assert roots[..n][r] == roots[r];
      }
    }
    assert forall r :: 0 <= r < n ==> roots[..n][r] == roots[r];
  }

  // ---- validation and the whole reorder -----------------------------------------------------------

  /** A module that is top-level now and a sub-module after the batch. */
  predicate Demoted(t: Table, us: seq<Update>, id: nat) {
    id in t && t[id].kind == Mod && exists i :: 0 <= i < |us| && us[i].id == id && us[i].kind == SubMod
  }

  predicate MovedAway(us: seq<Update>, id: nat, parent: nat) {
    exists i :: 0 <= i < |us| && us[i].id == id && us[i].parent != Some(parent)
  }

  predicate KeepsChild(t: Table, us: seq<Update>, parent: nat) {
    exists id :: id in t && IsChild(t, id, parent) && !MovedAway(us, id, parent)
  }

  function CheckUpdate(t: Table, us: seq<Update>, app: nat, u: Update): Option<Error> {
    if u.kind == Mod && u.parent.Some? then Some(TopLevelWithParent)
    else if u.kind == SubMod && u.parent.None? then Some(ParentRequired)
    else if u.kind == SubMod && (u.parent.value !in t || t[u.parent.value].app != app) then Some(ParentNotFound)
    else if u.kind == SubMod && t[u.parent.value].kind != Mod then Some(NestedTooDeep)
    else if u.id in t && t[u.id].kind == Mod && u.kind == SubMod && KeepsChild(t, us, u.id) then Some(StillHasChildren)
    else None
  }

  function CheckUpdates(t: Table, us: seq<Update>, app: nat, n: nat): Option<Error>
    requires n <= |us|
  {
    if n == 0 then None
    else
      var earlier := CheckUpdates(t, us, app, n - 1);
      if earlier.Some? then earlier else CheckUpdate(t, us, app, us[n - 1])
  }

  predicate AllFound(t: Table, us: seq<Update>) {
    DistinctIds(us) && forall i :: 0 <= i < |us| ==> us[i].id in t
  }

  /** A repeated id fails the count of found rows just as a missing one does. */
  function Validate(t: Table, us: seq<Update>): Option<Error> {
    if us == [] then Some(EmptyBatch)
    else if !AllFound(t, us) then Some(ModuleNotFound)
    else if exists i :: 0 <= i < |us| && t[us[i].id].app != t[us[0].id].app then Some(DifferentApps)
    else CheckUpdates(t, us, t[us[0].id].app, |us|)
  }

  function Reorder(t: Table, order: seq<nat>, us: seq<Update>): Table {
    if Validate(t, us).Some? then t else Cascade(MoveAll(t, us), order, ChangedRoots(t, us))
  }

  lemma {:induction false} ChecksPass(t: Table, us: seq<Update>, app: nat, n: nat)
    requires n <= |us|
    ensures CheckUpdates(t, us, app, n).None? <==> forall i :: 0 <= i < n ==> CheckUpdate(t, us, app, us[i]).None?
  {
    if n > 0 {
      ChecksPass(t, us, app, n - 1);
    }
  }

  /** What an accepted batch guarantees of each of its updates. */
  lemma AcceptedUpdate(t: Table, us: seq<Update>, i: nat)
    requires Validate(t, us).None? && i < |us|
    ensures us != [] && AllFound(t, us) && t[us[i].id].app == t[us[0].id].app
    ensures CheckUpdate(t, us, t[us[0].id].app, us[i]).None?
  {
    ChecksPass(t, us, t[us[0].id].app, |us|);
  }

  // ---- the two-level forest -----------------------------------------------------------------------

  /** An active top-level module has no parent; an active sub-module's parent is a top-level module of its app. */
  ghost predicate RowOk(t: Table, id: nat)
    requires id in t
  {
    t[id].active ==>
      match t[id].kind
      case Mod => t[id].parent.None?
      case SubMod =>
        && t[id].parent.Some?
        && t[id].parent.value in t
        && t[t[id].parent.value].kind == Mod
        && t[t[id].parent.value].app == t[id].app
  }

  ghost predicate Forest(t: Table) {
    forall id :: id in t ==> RowOk(t, id)
  }

  /** No update of an active module names as parent a module demoted in the same batch. */
  ghost predicate NoDemotedParent(t: Table, us: seq<Update>) {
    forall i :: 0 <= i < |us| && us[i].id in t && t[us[i].id].active && us[i].parent.Some? ==> !Demoted(t, us, us[i].parent.value)
  }

  lemma MovedKind(t: Table, us: seq<Update>, p: nat)
    requires AllFound(t, us) && p in t
    ensures p in MoveAll(t, us) && MoveAll(t, us)[p].app == t[p].app && MoveAll(t, us)[p].active == t[p].active
    ensures t[p].kind == Mod ==> (MoveAll(t, us)[p].kind == Mod <==> !Demoted(t, us, p))
  {
  }

  /** Row by row: an accepted move keeps a row in order exactly unless it hangs an active module under a demoted one. */
  lemma MoveKeepsRow(t: Table, us: seq<Update>, id: nat)
    requires Forest(t) && Validate(t, us).None? && id in t
    ensures id in MoveAll(t, us)
    ensures RowOk(MoveAll(t, us), id) <==>
            !exists i :: 0 <= i < |us| && us[i].id == id && t[id].active && us[i].parent.Some? && Demoted(t, us, us[i].parent.value)
  {
    AcceptedUpdate(t, us, 0);
    MoveAllPointwise(t, us);
    assert RowOk(t, id);
    if i :| 0 <= i < |us| && us[i].id == id {
      AcceptedUpdate(t, us, i);
      if us[i].parent.Some? {
        MovedKind(t, us, us[i].parent.value);
      }
    } else {
      assert !Names(us, id);
      if t[id].active && t[id].kind == SubMod {
        var p := t[id].parent.value;
        MovedKind(t, us, p);
        assert IsChild(t, id, p) && !MovedAway(us, id, p);
        assert KeepsChild(t, us, p);
        if Demoted(t, us, p) {
          var j :| 0 <= j < |us| && us[j].id == p && us[j].kind == SubMod;
          AcceptedUpdate(t, us, j);
        }
      }
    }
  }

  lemma MoveKeepsForest(t: Table, us: seq<Update>)
    requires Forest(t) && Validate(t, us).None?
    ensures Forest(MoveAll(t, us)) <==> NoDemotedParent(t, us)
  {
    AcceptedUpdate(t, us, 0);
    MoveAllPointwise(t, us);
    var moved := MoveAll(t, us);
    forall id | id in t
      ensures id in moved
      ensures RowOk(moved, id) <==>
              !exists i :: 0 <= i < |us| && us[i].id == id && t[id].active && us[i].parent.Some? && Demoted(t, us, us[i].parent.value)
    {
      MoveKeepsRow(t, us, id);
    }
    if i :| 0 <= i < |us| && us[i].id in t && t[us[i].id].active && us[i].parent.Some? && Demoted(t, us, us[i].parent.value) {
      assert !RowOk(moved, us[i].id);
    }
  }

  /** After an accepted move every active module with a parent is a sub-module, so re-stamping changes codes only. */
  lemma MovedChildrenAreSub(t: Table, us: seq<Update>, id: nat)
    requires Forest(t) && Validate(t, us).None? && id in t
    ensures id in MoveAll(t, us)
    ensures MoveAll(t, us)[id].active && MoveAll(t, us)[id].parent.Some? ==> MoveAll(t, us)[id].kind == SubMod
  {
    AcceptedUpdate(t, us, 0);
    MoveAllPointwise(t, us);
    assert RowOk(t, id);
    if i :| 0 <= i < |us| && us[i].id == id {
      AcceptedUpdate(t, us, i);
    } else {
      assert !Names(us, id);
    }
  }

  /** A reorder differs from the bare moves only in the codes of children of changed roots. */
  lemma CascadeChangesCodes(t: Table, order: seq<nat>, us: seq<Update>)
    requires Forest(t) && Validate(t, us).None? && RowOrder(t, order)
    ensures var moved, after := MoveAll(t, us), Reorder(t, order, us);
            && moved.Keys == t.Keys
            && CascadeEffect(moved, order, ChangedRoots(t, us), after)
            && forall id :: id in moved ==> after[id] == moved[id].(wbs := after[id].wbs)
  {
    AcceptedUpdate(t, us, 0);
    MoveAllPointwise(t, us);
    var moved, after, roots := MoveAll(t, us), Reorder(t, order, us), ChangedRoots(t, us);
    CascadeHasEffect(moved, order, roots);
    forall id | id in moved
      ensures after[id] == moved[id].(wbs := after[id].wbs)
    {
      MovedChildrenAreSub(t, us, id);
      CascadeRowShape(moved, order, roots, id, after[id]);
    }
  }

  /**
   An accepted reorder keeps the active modules a two-level forest exactly when no update of an active
   module names as its parent a module that the same batch demotes.
   */
  lemma ReorderKeepsForest(t: Table, order: seq<nat>, us: seq<Update>)
    requires Forest(t) && Validate(t, us).None? && RowOrder(t, order)
    ensures Forest(Reorder(t, order, us)) <==> NoDemotedParent(t, us)
  {
    MoveKeepsForest(t, us);
    CascadeChangesCodes(t, order, us);
    var moved, after := MoveAll(t, us), Reorder(t, order, us);
    forall id | id in moved
      ensures RowOk(moved, id) <==> RowOk(after, id)
    {
      assert after[id] == moved[id].(wbs := after[id].wbs);
    }
    assert forall id :: id in moved <==> id in after;
  }

  /** Three top-level modules of one app, and a batch that moves the first under the second and the second under the third. */
  const FLAT: Table := map[1 := Module(0, Mod, None, "1", true), 2 := Module(0, Mod, None, "2", true), 3 := Module(0, Mod, None, "3", true)]
  const CHAIN: seq<Update> := [Update(1, SubMod, Some(2), "2.1"), Update(2, SubMod, Some(3), "3.1")]

  /** The checks look at the parents as they are before the batch, so they accept a chain of three levels. */
  lemma ChainIsAccepted()
    ensures Forest(FLAT) && Validate(FLAT, CHAIN).None?
    ensures Demoted(FLAT, CHAIN, 2) && !Forest(Reorder(FLAT, [1, 2, 3], CHAIN))
  {
    assert forall id :: id in FLAT ==> RowOk(FLAT, id);
    assert !KeepsChild(FLAT, CHAIN, 1) && !KeepsChild(FLAT, CHAIN, 2);
    ChecksPass(FLAT, CHAIN, 0, 2);
    assert Validate(FLAT, CHAIN).None?;
    assert CHAIN[1].id == 2 && Demoted(FLAT, CHAIN, CHAIN[0].parent.value);
    assert !NoDemotedParent(FLAT, CHAIN);
    ReorderKeepsForest(FLAT, [1, 2, 3], CHAIN);
  }

  // ---- codes --------------------------------------------------------------------------------------

  /**
   The children of a root whose code the batch changes carry exactly root.1 to root.n, in the order of
   the suffixes they had after the moves; they are all of its active children, each once.
   */
  lemma ChildrenRestamped(t: Table, order: seq<nat>, us: seq<Update>, u: Update)
    requires Forest(t) && Validate(t, us).None? && RowOrder(t, order)
    requires u in us && ChangesCode(t, u)
    ensures var moved, after := MoveAll(t, us), Reorder(t, order, us);
            var ids := Ranked(moved, order, u.id);
            && (forall k :: 0 <= k < |ids| ==> ids[k] in after && after[ids[k]].wbs == ChildCode(u.wbs, k + 1))
            && SortedBy(Suffixes(moved), ids)
            && NoRepeats(ids)
            && (forall id :: id in ids <==> IsChild(after, id, u.id))
            && u.id in after && after[u.id].wbs == u.wbs
  {
    AcceptedUpdate(t, us, 0);
    MoveAllPointwise(t, us);
    CascadeChangesCodes(t, order, us);
    var moved, after, roots := MoveAll(t, us), Reorder(t, order, us), ChangedRoots(t, us);
    var ids := Ranked(moved, order, u.id);
    RankedMembers(moved, order, u.id);
    var r :| 0 <= r < |roots| && roots[r] == u;
    forall k | 0 <= k < |ids|
      ensures ids[k] in after && after[ids[k]].wbs == ChildCode(u.wbs, k + 1)
    {
      assert IsChild(moved, ids[k], u.id);
      assert CascadeRow(moved, order, roots, ids[k], after[ids[k]]);
    }
    forall id
      ensures IsChild(moved, id, u.id) <==> IsChild(after, id, u.id)
    {
      assert id in moved ==> after[id] == moved[id].(wbs := after[id].wbs);
    }
    var i :| 0 <= i < |us| && us[i] == u;
    AcceptedUpdate(t, us, i);
    RootNotRestamped(t, order, us, u.id);
  }

  /** The new codes read back as the ranks, so the next reorder finds the children in the same order. */
  lemma RestampedInOrder(t: Table, order: seq<nat>, us: seq<Update>, u: Update, k: nat)
    requires Forest(t) && Validate(t, us).None? && RowOrder(t, order)
    requires u in us && ChangesCode(t, u) && k < |Ranked(MoveAll(t, us), order, u.id)|
    ensures var id := Ranked(MoveAll(t, us), order, u.id)[k];
            id in Reorder(t, order, us) && WbsSuffix(Reorder(t, order, us)[id].wbs) == k + 1
  {
    ChildrenRestamped(t, order, us, u);
    StampReadsBack(u.wbs, k + 1);
  }

  /** A row that no cascade can find, having no parent or being inactive, stays as its own move left it. */
  lemma RootNotRestamped(t: Table, order: seq<nat>, us: seq<Update>, p: nat)
    requires Forest(t) && Validate(t, us).None? && RowOrder(t, order)
    requires p in MoveAll(t, us) && (MoveAll(t, us)[p].parent.None? || !MoveAll(t, us)[p].active)
    ensures p in Reorder(t, order, us) && Reorder(t, order, us)[p] == MoveAll(t, us)[p]
  {
    CascadeChangesCodes(t, order, us);
    var moved, after, roots := MoveAll(t, us), Reorder(t, order, us), ChangedRoots(t, us);
    assert CascadeRow(moved, order, roots, p, after[p]);
    assert forall r :: 0 <= r < |roots| ==> !IsChild(moved, p, roots[r].id);
  }

  ghost predicate CodeOk(t: Table, id: nat)
    requires id in t
  {
    t[id].active && t[id].parent.Some? && t[id].parent.value in t ==> Extends(t[id].wbs, t[t[id].parent.value].wbs)
  }

  /** Every active child's code extends its parent's. */
  ghost predicate CodesExtend(t: Table) {
    forall id :: id in t ==> CodeOk(t, id)
  }

  /** The batch's own codes under parents whose code it does not change extend those parents. */
  ghost predicate BatchCodesExtend(t: Table, us: seq<Update>) {
    forall i :: 0 <= i < |us| ==> UpdateCodeOk(t, us, us[i])
  }

  ghost predicate UpdateCodeOk(t: Table, us: seq<Update>, u: Update) {
    u.id in t && t[u.id].active && u.parent.Some? && u.parent.value in t && !RootChanges(t, us, u.parent.value) ==>
      Extends(u.wbs, t[u.parent.value].wbs)
  }

  predicate RootChanges(t: Table, us: seq<Update>, p: nat) {
    exists i :: 0 <= i < |us| && us[i].id == p && ChangesCode(t, us[i])
  }

  /** A row that is top-level after the moves has no parent if active, and a new code only as a changed root. */
  lemma ParentIsTop(t: Table, us: seq<Update>, p: nat)
    requires Forest(t) && Validate(t, us).None?
    requires p in MoveAll(t, us) && MoveAll(t, us)[p].kind == Mod
    ensures p in t
    ensures !RootChanges(t, us, p) ==> MoveAll(t, us)[p].wbs == t[p].wbs
    ensures MoveAll(t, us)[p].parent.None? || !MoveAll(t, us)[p].active
  {
    AcceptedUpdate(t, us, 0);
    MoveAllPointwise(t, us);
    assert RowOk(t, p);
    if i :| 0 <= i < |us| && us[i].id == p {
      AcceptedUpdate(t, us, i);
      assert !RootChanges(t, us, p) ==> !ChangesCode(t, us[i]);
    } else {
      assert !Names(us, p);
    }
  }

  /** In a kept forest the parent of an active module ends with its moved code: the old one unless the batch changes it. */
  lemma ParentCode(t: Table, order: seq<nat>, us: seq<Update>, id: nat)
    requires Forest(t) && Validate(t, us).None? && RowOrder(t, order) && NoDemotedParent(t, us)
    requires id in MoveAll(t, us) && MoveAll(t, us)[id].active && MoveAll(t, us)[id].parent.Some?
    ensures var p := MoveAll(t, us)[id].parent.value;
            && p in t && p in MoveAll(t, us)
            && p in Reorder(t, order, us) && Reorder(t, order, us)[p] == MoveAll(t, us)[p]
            && (!RootChanges(t, us, p) ==> MoveAll(t, us)[p].wbs == t[p].wbs)
  {
    MoveKeepsForest(t, us);
    assert RowOk(MoveAll(t, us), id);
    var p := MoveAll(t, us)[id].parent.value;
    ParentIsTop(t, us, p);
    RootNotRestamped(t, order, us, p);
  }

  /** The moved row against its update, if it has one. */
  lemma MovedRowCode(t: Table, us: seq<Update>, id: nat)
    requires Validate(t, us).None? && id in t
    ensures AllFound(t, us) && id in MoveAll(t, us) && MoveAll(t, us)[id].active == t[id].active
    ensures forall i :: 0 <= i < |us| && us[i].id == id ==> MoveAll(t, us)[id] == Moved(t[id], us[i])
    ensures !Names(us, id) ==> MoveAll(t, us)[id] == t[id]
  {
    AcceptedUpdate(t, us, 0);
    MoveAllPointwise(t, us);
  }

  /** A child of a changed root carries a code that extends the root's new one. */
  lemma StampedCode(t: Table, order: seq<nat>, us: seq<Update>, id: nat, p: nat)
    requires Forest(t) && Validate(t, us).None? && RowOrder(t, order)
    requires IsChild(MoveAll(t, us), id, p) && RootChanges(t, us, p)
    ensures id in Reorder(t, order, us) && p in Reorder(t, order, us)
    ensures Extends(Reorder(t, order, us)[id].wbs, Reorder(t, order, us)[p].wbs)
  {
    var i :| 0 <= i < |us| && us[i].id == p && ChangesCode(t, us[i]);
    ChildrenRestamped(t, order, us, us[i]);
    RankedMembers(MoveAll(t, us), order, p) by {
      AcceptedUpdate(t, us, 0);
      MoveAllPointwise(t, us);
    }
    var ids := Ranked(MoveAll(t, us), order, p);
    var k :| 0 <= k < |ids| && ids[k] == id;
    ChildCodeExtends(us[i].wbs, k + 1);
  }

  /** A child of a parent whose code does not change keeps its moved row, to be judged against the parent's old code. */
  lemma UnstampedCode(t: Table, order: seq<nat>, us: seq<Update>, id: nat)
    requires Forest(t) && Validate(t, us).None? && RowOrder(t, order) && NoDemotedParent(t, us)
    requires id in MoveAll(t, us) && MoveAll(t, us)[id].active && MoveAll(t, us)[id].parent.Some?
    requires !RootChanges(t, us, MoveAll(t, us)[id].parent.value)
    ensures var p, after := MoveAll(t, us)[id].parent.value, Reorder(t, order, us);
            && id in after && after[id] == MoveAll(t, us)[id]
            && p in t && p in after && after[p].wbs == t[p].wbs
  {
    ParentCode(t, order, us, id);
    CascadeChangesCodes(t, order, us);
    var moved, roots := MoveAll(t, us), ChangedRoots(t, us);
    assert CascadeRow(moved, order, roots, id, Reorder(t, order, us)[id]);
    forall r | 0 <= r < |roots|
      ensures !IsChild(moved, id, roots[r].id)
    {
      assert roots[r] in us && ChangesCode(t, roots[r]);
    }
  }

  ghost predicate OwnUpdateOk(t: Table, us: seq<Update>, id: nat) {
    forall i :: 0 <= i < |us| && us[i].id == id ==> UpdateCodeOk(t, us, us[i])
  }

  /** Seen from one row: its code ends in order exactly unless its own update, under an unchanged parent, breaks it. */
  lemma RowCode(t: Table, order: seq<nat>, us: seq<Update>, id: nat)
    requires Forest(t) && CodesExtend(t)
    requires Validate(t, us).None? && RowOrder(t, order) && NoDemotedParent(t, us)
    requires id in t
    ensures id in Reorder(t, order, us)
    ensures CodeOk(Reorder(t, order, us), id) <==> OwnUpdateOk(t, us, id)
  {
    MovedRowCode(t, us, id);
    CascadeChangesCodes(t, order, us);
    var moved, after := MoveAll(t, us), Reorder(t, order, us);
    assert after[id] == moved[id].(wbs := after[id].wbs);
    assert CodeOk(t, id) && RowOk(t, id);
    if !moved[id].active || moved[id].parent.None? {
      assert OwnUpdateOk(t, us, id);
    } else if RootChanges(t, us, moved[id].parent.value) {
      StampedCode(t, order, us, id, moved[id].parent.value);
      assert OwnUpdateOk(t, us, id);
    } else {
      UnstampedCode(t, order, us, id);
      OwnUpdateDecides(t, us, id);
    }
  }

  /** Under an unchanged parent, a moved row extends the parent's code exactly when its own update, if any, does. */
  lemma OwnUpdateDecides(t: Table, us: seq<Update>, id: nat)
    requires Validate(t, us).None? && id in t && CodeOk(t, id)
    requires id in MoveAll(t, us) && MoveAll(t, us)[id].active && MoveAll(t, us)[id].parent.Some?
    requires MoveAll(t, us)[id].parent.value in t && !RootChanges(t, us, MoveAll(t, us)[id].parent.value)
    ensures Extends(MoveAll(t, us)[id].wbs, t[MoveAll(t, us)[id].parent.value].wbs) <==> OwnUpdateOk(t, us, id)
  {
    MovedRowCode(t, us, id);
    if i :| 0 <= i < |us| && us[i].id == id {
      assert MoveAll(t, us)[id] == Moved(t[id], us[i]);
      assert forall j :: 0 <= j < |us| && us[j].id == id ==> j == i;
      assert UpdateCodeOk(t, us, us[i]) <==> Extends(us[i].wbs, t[us[i].parent.value].wbs);
    } else {
      assert !Names(us, id);
    }
  }

  /**
   "Every child's code extends its parent's" survives an accepted reorder that keeps the forest, over the
   whole tree, exactly when the batch's own codes under unchanged parents extend these parents.
   */
  lemma ReorderKeepsCodes(t: Table, order: seq<nat>, us: seq<Update>)
    requires Forest(t) && CodesExtend(t)
    requires Validate(t, us).None? && RowOrder(t, order) && NoDemotedParent(t, us)
    ensures CodesExtend(Reorder(t, order, us)) <==> BatchCodesExtend(t, us)
  {
    AcceptedUpdate(t, us, 0);
    CascadeChangesCodes(t, order, us);
    var after := Reorder(t, order, us);
    forall id | id in t
      ensures id in after
      ensures CodeOk(after, id) <==> OwnUpdateOk(t, us, id)
    {
      RowCode(t, order, us, id);
    }
    if CodesExtend(after) {
      forall i | 0 <= i < |us|
        ensures UpdateCodeOk(t, us, us[i])
      {
        assert CodeOk(after, us[i].id);
        assert OwnUpdateOk(t, us, us[i].id);
      }
    }
  }
}
