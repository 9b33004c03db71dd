/** Role permissions: the listing, its diff-and-apply update, and propagation to organization roles. */
module ModuleAccess {
  import opened Prelude

  /** A module and an action. */
  datatype Perm = Perm(mod: nat, action: nat)

  datatype Access = Access(role: nat, perm: Perm, flag: bool)

  type Table = map<nat, Access>

  datatype Item = Item(perm: Perm, checked: bool)

  /** The unique index over role, module and action. */
  ghost predicate Unique(t: Table) {
    forall i, j :: i in t && j in t && t[i].role == t[j].role && t[i].perm == t[j].perm ==> i == j
  }

  /** A role's rows as pairs of permission and flag. */
  function RoleRows(t: Table, role: nat): set<(Perm, bool)> {
    set id | id in t && t[id].role == role :: (t[id].perm, t[id].flag)
  }

  function Granted(rows: set<(Perm, bool)>): set<Perm> {
    set r | r in rows && r.1 :: r.0
  }

  function Perms(rows: set<(Perm, bool)>): set<Perm> {
    set r | r in rows :: r.0
  }

  /** The role has a row for the permission, with the flag. */
  ghost predicate Holds(t: Table, role: nat, p: Perm, flag: bool) {
    exists id :: id in t && t[id] == Access(role, p, flag)
  }

  lemma RowsHold(t: Table, role: nat, p: Perm, flag: bool)
    ensures (p, flag) in RoleRows(t, role) <==> Holds(t, role, p, flag)
  {
    if Holds(t, role, p, flag) {
      var id :| id in t && t[id] == Access(role, p, flag);
      assert (t[id].perm, t[id].flag) in RoleRows(t, role);
    }
  }

  lemma GrantsHold(t: Table, role: nat, p: Perm)
    ensures p in Granted(RoleRows(t, role)) <==> Holds(t, role, p, true)
  {
    RowsHold(t, role, p, true);
    assert p in Granted(RoleRows(t, role)) <==> (p, true) in RoleRows(t, role);
  }

  // ---- what an update means -----------------------------------------------------------------------

  predicate DistinctPerms(items: seq<Item>) {
    forall i, j :: 0 <= i < j < |items| ==> items[i].perm != items[j].perm
  }

  function Checked(items: seq<Item>): set<Perm> {
    set i | i in items && i.checked :: i.perm
  }

  function Unchecked(items: seq<Item>): set<Perm> {
    set i | i in items && !i.checked :: i.perm
  }

  /**
   The rows an update leaves a role: a row with its flag set for every checked permission, and, because
   saving a row that has just been deleted inserts it again, a cleared row for every permission that was
   granted and is unchecked by name.
   */
  function Saved(rows: set<(Perm, bool)>, items: seq<Item>): set<(Perm, bool)> {
    (set p | p in Checked(items) :: (p, true)) + (set p | p in Unchecked(items) && p in Granted(rows) :: (p, false))
  }

  /** Plain set replacement: whatever the rows were, the role is left with exactly the checked permissions. */
  lemma UpdateIsReplacement(rows: set<(Perm, bool)>, items: seq<Item>)
    ensures Granted(Saved(rows, items)) == Checked(items)
  {
  }

  lemma SavedRow(rows: set<(Perm, bool)>, items: seq<Item>, p: Perm)
    ensures (p, true) in Saved(rows, items) <==> Item(p, true) in items
    ensures (p, false) in Saved(rows, items) <==> Item(p, false) in items && (p, true) in rows
  {
    assert p in Checked(items) <==> Item(p, true) in items;
    assert p in Unchecked(items) <==> Item(p, false) in items;
    assert p in Granted(rows) <==> (p, true) in rows;
  }

  /** Saving the same form twice grants the same again, and clears what the first time left behind. */
  lemma UpdateTwice(rows: set<(Perm, bool)>, items: seq<Item>)
    requires DistinctPerms(items)
    ensures Granted(Saved(Saved(rows, items), items)) == Granted(Saved(rows, items))
    ensures Saved(Saved(rows, items), items) == set p | p in Checked(items) :: (p, true)
  {
    UpdateIsReplacement(rows, items);
    UpdateIsReplacement(Saved(rows, items), items);
    forall p | p in Unchecked(items)
      ensures p !in Checked(items)
    {
      var i :| 0 <= i < |items| && !items[i].checked && items[i].perm == p;
      assert forall j :: 0 <= j < |items| && items[j].perm == p ==> j == i;
    }
  }

  // ---- the listing --------------------------------------------------------------------------------

  /** The modules a plan enables and the actions it allows on each; no plan lists everything. */
  datatype PlanAccess = PlanAccess(modules: set<nat>, actions: set<Perm>)

  predicate IsListed(modules: seq<nat>, actions: seq<nat>, plan: Option<PlanAccess>, p: Perm) {
    && p.mod in modules
    && p.action in actions
    && (plan.Some? ==> p.mod in plan.value.modules && p in plan.value.actions)
  }

  /** What a permissions list is for a role's rows: every listed permission once, checked when granted. */
  ghost predicate IsListing(rows: set<(Perm, bool)>, modules: seq<nat>, actions: seq<nat>, plan: Option<PlanAccess>,
                        items: seq<Item>) {
    && DistinctPerms(items)
    && (forall i :: i in items ==> IsListed(modules, actions, plan, i.perm) && (i.checked <==> i.perm in Granted(rows)))
    && (forall p :: IsListed(modules, actions, plan, p) ==> Item(p, p in Granted(rows)) in items)
  }

  /**
   Saving back an unchanged list keeps exactly the listed grants: every listed one survives, and all
   grants survive exactly when every one of them is listed.
   */
  lemma SaveBackUnchanged(rows: set<(Perm, bool)>, modules: seq<nat>, actions: seq<nat>, plan: Option<PlanAccess>,
                        items: seq<Item>)
    requires IsListing(rows, modules, actions, plan, items)
    ensures var after := Granted(Saved(rows, items));
            && (forall p :: p in after <==> p in Granted(rows) && IsListed(modules, actions, plan, p))
            && (after == Granted(rows) <==> forall p :: p in Granted(rows) ==> IsListed(modules, actions, plan, p))
  {
    UpdateIsReplacement(rows, items);
    forall p
      ensures p in Checked(items) <==> p in Granted(rows) && IsListed(modules, actions, plan, p)
    {
      if p in Granted(rows) && IsListed(modules, actions, plan, p) {
        assert Item(p, true) in items;
      }
    }
  }

  // ---- the services -------------------------------------------------------------------------------

  class AccessTable {
    var rows: Table
    var nextId: nat

    ghost predicate Valid()
      reads this
    {
      Unique(rows) && forall id :: id in rows ==> id < nextId
    }

    constructor ()
      ensures Valid() && rows == map[]
    {
      rows, nextId := map[], 0;
    }
  }

  /** Nested loops over modules and actions; the role's rows are first indexed by permission. */
  method GetPermissionsList(table: AccessTable, role: nat, modules: seq<nat>, actions: seq<nat>,
                        plan: Option<PlanAccess>)
    returns (items: seq<Item>)
    requires table.Valid()
    requires forall i, j :: 0 <= i < j < |modules| ==> modules[i] != modules[j]
    requires forall i, j :: 0 <= i < j < |actions| ==> actions[i] != actions[j]
    ensures IsListing(RoleRows(table.rows, role), modules, actions, plan, items)
    ensures forall i, j :: 0 <= i < j < |items| ==> items[i].perm != items[j].perm
    ensures forall p, c :: Item(p, c) in items <==>
              && p.mod in modules && p.action in actions
              && (plan.Some? ==> p.mod in plan.value.modules && p in plan.value.actions)
              && (c <==> Holds(table.rows, role, p, true))
  {
    var granted := Granted(RoleRows(table.rows, role));
    items := [];
    for m := 0 to |modules|
      invariant DistinctPerms(items)
      invariant forall i :: i in items ==>
                  && IsListed(modules, actions, plan, i.perm) && i.perm.mod in modules[..m]
                  && (i.checked <==> i.perm in granted)
      invariant forall p :: IsListed(modules, actions, plan, p) && p.mod in modules[..m] ==> Item(p, p in granted) in items
    {
      var mod := modules[m];
      assert modules[..m + 1] == modules[..m] + [mod];
      assert mod !in modules[..m];
      if plan.Some? && mod !in plan.value.modules {
        continue;
      }
      for a := 0 to |actions|
        invariant DistinctPerms(items)
        invariant forall i :: i in items ==>
                    && IsListed(modules, actions, plan, i.perm)
                    && (i.perm.mod in modules[..m] || (i.perm.mod == mod && i.perm.action in actions[..a]))
                    && (i.checked <==> i.perm in granted)
        invariant forall p :: IsListed(modules, actions, plan, p) && (p.mod in modules[..m] || (p.mod == mod && p.action in actions[..a])) ==>
                    Item(p, p in granted) in items
      {
        var perm := Perm(mod, actions[a]);
        assert actions[..a + 1] == actions[..a] + [actions[a]];
        assert actions[a] !in actions[..a];
        if plan.Some? && perm !in plan.value.actions {
          continue;
        }
        items := items + [Item(perm, perm in granted)];
      }
      assert actions[..|actions|] == actions;
    }
    assert modules[..|modules|] == modules;
    forall p
      ensures p in granted <==> Holds(table.rows, role, p, true)
    {
      GrantsHold(table.rows, role, p);
    }
  }

  /** The row a role has for a permission, if any. */
  function FindRow(ids: set<nat>, t: Table, perm: Perm): (r: Option<nat>)
    requires forall id :: id in ids ==> id in t
    requires forall i, j :: i in ids && j in ids && t[i].perm == t[j].perm ==> i == j
    ensures r.Some? ==> r.value in ids && t[r.value].perm == perm
    ensures r.None? ==> forall id :: id in ids ==> t[id].perm != perm
  {
    if exists id :: id in ids && t[id].perm == perm then
      var id :| id in ids && t[id].perm == perm;
      Some(id)
    else None
  }

  /** The first entry of the payload for a permission. */
  function PayloadItem(items: seq<Item>, perm: Perm): (r: Option<Item>)
    ensures r.Some? ==> r.value in items && r.value.perm == perm
    ensures r.None? ==> forall i :: i in items ==> i.perm != perm
  {
    if items == [] then None
    else if items[0].perm == perm then Some(items[0])
    else PayloadItem(items[1..], perm)
  }

  /** The loop over the payload: rows whose flag changes, and checked permissions without a row. */
  method Diff(table: AccessTable, role: nat, ids: set<nat>, items: seq<Item>) returns (updates: map<nat, Access>,
              inserts: seq<Perm>)
    requires table.Valid() && DistinctPerms(items)
    requires ids == set id | id in table.rows && table.rows[id].role == role
    ensures forall id :: id in updates <==>
              && id in ids
              && exists i :: i in items && i.perm == table.rows[id].perm && i.checked != table.rows[id].flag
    ensures forall id :: id in updates ==> updates[id] == table.rows[id].(flag := !table.rows[id].flag)
    ensures forall p :: p in inserts <==> p in Checked(items) && forall id :: id in ids ==> table.rows[id].perm != p
    ensures forall i, j :: 0 <= i < j < |inserts| ==> inserts[i] != inserts[j]
  {
    updates, inserts := map[], [];
    for n := 0 to |items|
      invariant forall id :: id in updates <==>
                  && id in ids
                  && exists i :: i in items[..n] && i.perm == table.rows[id].perm && i.checked != table.rows[id].flag
      invariant forall id :: id in updates ==> updates[id] == table.rows[id].(flag := !table.rows[id].flag)
      invariant forall p :: p in inserts <==>
                  p in Checked(items[..n]) && forall id :: id in ids ==> table.rows[id].perm != p
      invariant forall i, j :: 0 <= i < j < |inserts| ==> inserts[i] != inserts[j]
    {
      var item := items[n];
      assert items[..n + 1] == items[..n] + [item];
      assert forall i :: i in items[..n] ==> i.perm != item.perm;
      assert Checked(items[..n + 1]) == Checked(items[..n]) + if item.checked then {item.perm} else {};
      var existing := FindRow(ids, table.rows, item.perm);
      if existing.Some? {
        var row := table.rows[existing.value];
        if row.flag != item.checked {
          updates := updates[existing.value := row.(flag := item.checked)];
        }
      } else if item.checked {
        inserts := inserts + [item.perm];
      }
    }
    assert items[..|items|] == items;
  }

  /** The rows that are missing from the payload or unchecked in it. */
  method Removals(table: AccessTable, ids: set<nat>, items: seq<Item>) returns (toDelete: set<nat>)
    requires DistinctPerms(items) && forall id :: id in ids ==> id in table.rows
    ensures toDelete == set id | id in ids && table.rows[id].perm !in Checked(items)
  {
    toDelete := {};
    var todo := ids;
    while todo != {}
      invariant todo <= ids
      invariant toDelete == set id | id in ids - todo && table.rows[id].perm !in Checked(items)
      decreases |todo|
    {
      var id :| id in todo;
      var item := PayloadItem(items, table.rows[id].perm);
      if item.None? || !item.value.checked {
        if item.Some? {
          OneItemEach(items, item.value);
        }
        toDelete := toDelete + {id};
      }
      todo := todo - {id};
    }
  }

  lemma OneItemEach(items: seq<Item>, item: Item)
    requires DistinctPerms(items) && item in items
    ensures forall i :: i in items && i.perm == item.perm ==> i == item
    ensures item.perm in Checked(items) <==> item.checked
    ensures item.perm in Unchecked(items) <==> !item.checked
  {
  }

  /** A role's rows after the deletions and updates, before the insertions. */
  lemma RowsBeforeInserts(t: Table, role: nat, items: seq<Item>, toDelete: set<nat>, updates: map<nat, Access>,
                        mid: Table)
    requires Unique(t) && DistinctPerms(items)
    requires toDelete == set id | id in t && t[id].role == role && t[id].perm !in Checked(items)
    requires forall id :: id in updates <==>
               && id in t && t[id].role == role
               && exists i :: i in items && i.perm == t[id].perm && i.checked != t[id].flag
    requires forall id :: id in updates ==> updates[id] == t[id].(flag := !t[id].flag)
    requires mid == (t - toDelete) + updates
    ensures mid.Keys <= t.Keys
    ensures forall id :: id in mid ==> mid[id] == t[id].(flag := mid[id].flag)
    ensures forall id :: id in t && t[id].role != role ==> id in mid && mid[id] == t[id]
    ensures forall id :: id in t && t[id].role == role ==>
              var p := t[id].perm;
              if p in Checked(items) then id in mid && mid[id].flag
              else if p in Unchecked(items) && t[id].flag then id in mid && !mid[id].flag
              else id !in mid
  {
  }

  /** With the insertions, these are the saved rows. */
  lemma RowsAfterInserts(t: Table, role: nat, items: seq<Item>, mid: Table, inserts: seq<Perm>, first: nat,
                        after: Table)
    requires Unique(t) && DistinctPerms(items)
    requires mid.Keys <= t.Keys && (forall id :: id in t ==> id < first)
    requires forall id :: id in mid ==> mid[id] == t[id].(flag := mid[id].flag)
    requires forall id :: id in t && t[id].role != role ==> id in mid && mid[id] == t[id]
    requires forall id :: id in t && t[id].role == role ==>
               var p := t[id].perm;
               if p in Checked(items) then id in mid && mid[id].flag
               else if p in Unchecked(items) && t[id].flag then id in mid && !mid[id].flag
               else id !in mid
    requires forall p :: p in inserts <==> p in Checked(items) && forall id :: id in t && t[id].role == role ==> t[id].perm != p
    requires forall i, j :: 0 <= i < j < |inserts| ==> inserts[i] != inserts[j]
    requires Inserted(mid, role, inserts, first, after)
    ensures Unique(after)
    ensures RoleRows(after, role) == Saved(RoleRows(t, role), items)
    ensures forall id :: id in t && t[id].role != role ==> id in after && after[id] == t[id]
    ensures forall id :: id in after && after[id].role != role ==> id in t
  {
    var rows := RoleRows(after, role);
    forall r | r in rows
      ensures r in Saved(RoleRows(t, role), items)
    {
      var id :| id in after && after[id].role == role && r == (after[id].perm, after[id].flag);
      if id >= first {
        assert after[id] == Access(role, inserts[id - first], true);
        assert inserts[id - first] in inserts;
      } else {
        assert (t[id].perm, t[id].flag) in RoleRows(t, role);
      }
    }
    forall p | p in Checked(items)
      ensures (p, true) in rows
    {
      if id :| id in t && t[id].role == role && t[id].perm == p {
        assert after[id] == mid[id];
      } else {
        assert p in inserts;
        var j :| 0 <= j < |inserts| && inserts[j] == p;
        assert after[first + j] == Access(role, p, true);
      }
    }
    forall p | p in Unchecked(items) && p in Granted(RoleRows(t, role))
      ensures (p, false) in rows
    {
      var id :| id in t && t[id].role == role && t[id].perm == p && t[id].flag;
      var i :| i in items && !i.checked && i.perm == p;
      OneItemEach(items, i);
      assert after[id] == mid[id];
    }
    forall i, j | i in after && j in after && after[i].role == after[j].role && after[i].perm == after[j].perm
      ensures i == j
    {
      if i >= first {
        assert inserts[i - first] in inserts;
      }
      if j >= first {
        assert inserts[j - first] in inserts;
      }
    }
  }

  /** `after` is `mid` with a set row per permission under consecutive new ids. */
  ghost predicate Inserted(mid: Table, role: nat, perms: seq<Perm>, first: nat, after: Table) {
    && (forall id :: id in after <==> id in mid || first <= id < first + |perms|)
    && (forall id :: id in mid && id < first ==> after[id] == mid[id])
    && (forall id :: id in mid ==> id < first)
    && (forall i :: first <= i < first + |perms| ==> after[i] == Access(role, perms[i - first], true))
  }

  method InsertAll(table: AccessTable, role: nat, perms: seq<Perm>)
    requires forall id :: id in table.rows ==> id < table.nextId
    modifies table
    ensures table.nextId == old(table.nextId) + |perms|
    ensures Inserted(old(table.rows), role, perms, old(table.nextId), table.rows)
  {
    for n := 0 to |perms|
      invariant table.nextId == old(table.nextId) + n
      invariant Inserted(old(table.rows), role, perms[..n], old(table.nextId), table.rows)
    {
      assert perms[..n + 1] == perms[..n] + [perms[n]];
      table.rows := table.rows[table.nextId := Access(role, perms[n], true)];
      table.nextId := table.nextId + 1;
    }
    assert perms[..|perms|] == perms;
  }

  /** Deletes, updates and inserts in separate phases; together they replace the role's permissions. */
  method UpdatePermissionsList(table: AccessTable, role: nat, items: seq<Item>)
    requires table.Valid() && DistinctPerms(items)
    modifies table
    ensures table.Valid()
    ensures RoleRows(table.rows, role) == Saved(RoleRows(old(table.rows), role), items)
    ensures Granted(RoleRows(table.rows, role)) == Checked(items)
    ensures forall p :: Holds(table.rows, role, p, true) <==> Item(p, true) in items
    ensures forall p :: Holds(table.rows, role, p, false) <==> Item(p, false) in items && Holds(old(table.rows), role, p, true)
    ensures forall id :: id in old(table.rows) && old(table.rows)[id].role != role ==>
              id in table.rows && table.rows[id] == old(table.rows)[id]
    ensures forall id :: id in table.rows && table.rows[id].role != role ==> id in old(table.rows)
  {
    ghost var t := table.rows;
    var ids := set id | id in table.rows && table.rows[id].role == role;
    var updates, inserts := Diff(table, role, ids, items);
    var toDelete := Removals(table, ids, items);
    DeleteAll(table, toDelete);
    SaveAll(table, updates);
    ghost var mid := table.rows;
    RowsBeforeInserts(t, role, items, toDelete, updates, mid);
    InsertAll(table, role, inserts);
    RowsAfterInserts(t, role, items, mid, inserts, old(table.nextId), table.rows);
    UpdateIsReplacement(RoleRows(t, role), items);
    forall p
      ensures Holds(table.rows, role, p, true) <==> Item(p, true) in items
      ensures Holds(table.rows, role, p, false) <==> Item(p, false) in items && Holds(t, role, p, true)
    {
      SavedRow(RoleRows(t, role), items, p);
      RowsHold(t, role, p, true);
      RowsHold(table.rows, role, p, true);
      RowsHold(table.rows, role, p, false);
    }
  }

  method DeleteAll(table: AccessTable, ids: set<nat>)
    modifies table`rows
    ensures table.rows == old(table.rows) - ids
  {
    var todo := ids;
    while todo != {}
      invariant todo <= ids
      invariant table.rows == old(table.rows) - (ids - todo)
      decreases |todo|
    {
      var id :| id in todo;
      table.rows := table.rows - {id};
      todo := todo - {id};
    }
    assert ids - todo == ids;
  }

  /** Saving a row that was deleted in the meantime inserts it again. */
  method SaveAll(table: AccessTable, updates: map<nat, Access>)
    modifies table`rows
    ensures table.rows == old(table.rows) + updates
  {
    var todo := updates.Keys;
    while todo != {}
      invariant todo <= updates.Keys
      invariant forall id :: id in table.rows <==> id in old(table.rows) || id in updates.Keys - todo
      invariant forall id :: id in table.rows ==>
                  table.rows[id] == if id in updates.Keys - todo then updates[id] else old(table.rows)[id]
      decreases |todo|
    {
      var id :| id in todo;
      table.rows := table.rows[id := updates[id]];
      todo := todo - {id};
    }
  }

  /**
   Propagation of a platform role's checked permissions: an organization role gains exactly those it had
   no row for, set or cleared, and no existing row of any role changes.
   */
  method PropagateToOrgRoles(table: AccessTable, orgRoles: seq<nat>, items: seq<Item>)
    requires table.Valid() && DistinctPerms(items)
    requires forall i, j :: 0 <= i < j < |orgRoles| ==> orgRoles[i] != orgRoles[j]
    modifies table
    ensures table.Valid()
    ensures forall id :: id in old(table.rows) ==> id in table.rows && table.rows[id] == old(table.rows)[id]
    ensures forall role :: RoleRows(table.rows, role) == RoleRows(old(table.rows), role) +
              if role in orgRoles then Missing(RoleRows(old(table.rows), role), items) else {}
    ensures forall role, p, flag :: Holds(table.rows, role, p, flag) <==>
              || Holds(old(table.rows), role, p, flag)
              || (role in orgRoles && flag && Item(p, true) in items && forall f :: !Holds(old(table.rows), role, p, f))
  {
    for n := 0 to |orgRoles|
      invariant table.Valid()
      invariant forall id :: id in old(table.rows) ==> id in table.rows && table.rows[id] == old(table.rows)[id]
      invariant forall role :: RoleRows(table.rows, role) == RoleRows(old(table.rows), role) +
                  if role in orgRoles[..n] then Missing(RoleRows(old(table.rows), role), items) else {}
    {
      var role := orgRoles[n];
      assert orgRoles[..n + 1] == orgRoles[..n] + [role];
      assert role !in orgRoles[..n];
      var toInsert := MissingPerms(table, role, items);
      ghost var before, first := table.rows, table.nextId;
      InsertAll(table, role, toInsert);
      InsertedRows(before, role, toInsert, first, table.rows, old(table.rows), items);
    }
    assert orgRoles[..|orgRoles|] == orgRoles;
    forall role, p, flag
      ensures Holds(table.rows, role, p, flag) <==>
              || Holds(old(table.rows), role, p, flag)
              || (role in orgRoles && flag && Item(p, true) in items && forall f :: !Holds(old(table.rows), role, p, f))
    {
      RowsHold(table.rows, role, p, flag);
      RowsHold(old(table.rows), role, p, true);
      RowsHold(old(table.rows), role, p, false);
      MissingRow(RoleRows(old(table.rows), role), items, p);
    }
  }

  /** Set rows for the checked permissions without a row. */
  function Missing(rows: set<(Perm, bool)>, items: seq<Item>): set<(Perm, bool)> {
    set p | p in Checked(items) && p !in Perms(rows) :: (p, true)
  }

  lemma MissingRow(rows: set<(Perm, bool)>, items: seq<Item>, p: Perm)
    ensures (p, false) !in Missing(rows, items)
    ensures (p, true) in Missing(rows, items) <==> Item(p, true) in items && (p, true) !in rows && (p, false) !in rows
  {
    assert p in Checked(items) <==> Item(p, true) in items;
    if p in Perms(rows) {
      var r :| r in rows && r.0 == p;
      if r.1 {
        assert r == (p, true);
      } else {
        assert r == (p, false);
      }
    }
    var granted, cleared := (p, true), (p, false);
    assert granted in rows ==> granted.0 in Perms(rows);
    assert cleared in rows ==> cleared.0 in Perms(rows);
  }

  method MissingPerms(table: AccessTable, role: nat, items: seq<Item>) returns (perms: seq<Perm>)
    requires DistinctPerms(items)
    ensures forall p :: p in perms <==> p in Checked(items) && p !in Perms(RoleRows(table.rows, role))
    ensures forall i, j :: 0 <= i < j < |perms| ==> perms[i] != perms[j]
  {
    var existing := Perms(RoleRows(table.rows, role));
    perms := [];
    for n := 0 to |items|
      invariant forall p :: p in perms <==> p in Checked(items[..n]) && p !in existing
      invariant forall i, j :: 0 <= i < j < |perms| ==> perms[i] != perms[j]
    {
      assert items[..n + 1] == items[..n] + [items[n]];
      assert forall i :: i in items[..n] ==> i.perm != items[n].perm;
      assert Checked(items[..n + 1]) == Checked(items[..n]) + if items[n].checked then {items[n].perm} else {};
      if items[n].checked && items[n].perm !in existing {
        perms := perms + [items[n].perm];
      }
    }
    assert items[..|items|] == items;
  }

  lemma InsertedRows(before: Table, role: nat, perms: seq<Perm>, first: nat, after: Table, original: Table,
                     items: seq<Item>)
    requires Unique(before)
    requires Inserted(before, role, perms, first, after)
    requires forall p :: p in perms <==> p in Checked(items) && p !in Perms(RoleRows(before, role))
    requires forall i, j :: 0 <= i < j < |perms| ==> perms[i] != perms[j]
    requires RoleRows(before, role) == RoleRows(original, role)
    ensures Unique(after)
    ensures RoleRows(after, role) == RoleRows(original, role) + Missing(RoleRows(original, role), items)
    ensures forall other :: other != role ==> RoleRows(after, other) == RoleRows(before, other)
  {
    forall r | r in RoleRows(after, role)
      ensures r in RoleRows(before, role) + Missing(RoleRows(before, role), items)
    {
      var id :| id in after && after[id].role == role && r == (after[id].perm, after[id].flag);
      if id >= first {
        assert perms[id - first] in perms;
      }
    }
    forall r | r in RoleRows(before, role)
      ensures r in RoleRows(after, role)
    {
      var id :| id in before && before[id].role == role && r == (before[id].perm, before[id].flag);
      assert after[id] == before[id];
    }
    forall r | r in Missing(RoleRows(before, role), items)
      ensures r in RoleRows(after, role)
    {
      var j :| 0 <= j < |perms| && perms[j] == r.0;
      assert after[first + j] == Access(role, r.0, true);
    }
    forall other | other != role
      ensures RoleRows(after, other) == RoleRows(before, other)
    {
      OtherRoleRows(before, role, perms, first, after, other);
    }
    forall id | id in before && before[id].role == role
      ensures before[id].perm !in perms
    {
      assert (before[id].perm, before[id].flag) in RoleRows(before, role);
    }
    forall i, j | i in after && j in after && after[i].role == after[j].role && after[i].perm == after[j].perm
      ensures i == j
    {
      if i >= first {
        assert perms[i - first] in perms;
      }
      if j >= first {
        assert perms[j - first] in perms;
      }
    }
  }

  lemma OtherRoleRows(before: Table, role: nat, perms: seq<Perm>, first: nat, after: Table, other: nat)
    requires Inserted(before, role, perms, first, after) && other != role
    ensures RoleRows(after, other) == RoleRows(before, other)
  {
  }
}
