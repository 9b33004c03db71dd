/** The module service as it works: look-ups, a validation loop with early exits, and batches of row updates. */
module ModuleTreeService {
  import opened Prelude
  import opened WbsOrder
  import opened ModuleTree

  class ModuleTable {
    var rows: Table

    constructor (rows: Table)
      ensures this.rows == rows
    {
      this.rows := rows;
    }
  }

  /** Row updates inside one transaction. */
  method BulkMove(table: ModuleTable, updates: seq<Update>)
    modifies table
    ensures table.rows == MoveAll(old(table.rows), updates)
  {
    for i := 0 to |updates|
      invariant table.rows == MoveAll(old(table.rows), updates[..i])
    {
      assert updates[..i + 1][..i] == updates[..i];
      if updates[i].id in table.rows {
        table.rows := table.rows[updates[i].id := Moved(table.rows[updates[i].id], updates[i])];
      }
    }
    assert updates[..|updates|] == updates;
  }

  /** The active children of a row, in the order in which the table's rows come. */
  method FindChildren(table: ModuleTable, order: seq<nat>, parent: nat) returns (children: seq<nat>)
    ensures children == Children(table.rows, order, parent)
  {
    children := [];
    for i := 0 to |order|
      invariant children == Children(table.rows, order[..i], parent)
    {
      assert order[..i + 1][..i] == order[..i];
      if IsChild(table.rows, order[i], parent) {
        children := children + [order[i]];
      }
    }
    assert order[..|order|] == order;
  }

  /** Validates a batch against the rows as they are, then applies it and cascades changed codes. */
  method Reorder(table: ModuleTable, order: seq<nat>, updates: seq<Update>) returns (error: Option<Error>)
    requires RowOrder(table.rows, order)
    modifies table
    ensures error == Validate(old(table.rows), updates)
    ensures table.rows == ModuleTree.Reorder(old(table.rows), order, updates)
  {
    if updates == [] {
      return Some(EmptyBatch);
    }
    if !AllFound(table.rows, updates) {
      return Some(ModuleNotFound);
    }
    var app := table.rows[updates[0].id].app;
    if exists i :: 0 <= i < |updates| && table.rows[updates[i].id].app != app {
      return Some(DifferentApps);
    }
    for n := 0 to |updates|
      invariant table.rows == old(table.rows)
      invariant CheckUpdates(table.rows, updates, app, n).None?
    {
      var update := updates[n];
      error := None;
      if update.kind == Mod && update.parent.Some? {
        error := Some(TopLevelWithParent);
      }
      if update.kind == SubMod {
        if update.parent.None? {
          error := Some(ParentRequired);
        } else if update.parent.value !in table.rows || table.rows[update.parent.value].app != app {
          error := Some(ParentNotFound);
        } else if table.rows[update.parent.value].kind != Mod {
          error := Some(NestedTooDeep);
        }
      }
      if error.None? && table.rows[update.id].kind == Mod && update.kind == SubMod {
        var children := FindChildren(table, order, update.id);
        if exists c :: c in children && !MovedAway(updates, c, update.id) {
          assert KeepsChild(table.rows, updates, update.id);
          error := Some(StillHasChildren);
        } else {
          assert !KeepsChild(table.rows, updates, update.id);
        }
      }
      assert error == CheckUpdate(table.rows, updates, app, update);
      if error.Some? {
        FirstErrorStands(table.rows, updates, app, n + 1, |updates|);
        return;
      }
    }
    error := None;
    var roots := ChangedRoots(table.rows, updates);
    MoveAllPointwise(table.rows, updates);
    BulkMove(table, updates);
    CascadeChildrenWbs(table, order, roots);
  }

  /** The first failing check decides the reply. */
  lemma {:induction false} FirstErrorStands(t: Table, us: seq<Update>, app: nat, n: nat, m: nat)
    requires n <= m <= |us| && CheckUpdates(t, us, app, n).Some?
    ensures CheckUpdates(t, us, app, m) == CheckUpdates(t, us, app, n)
    decreases m
  {
    if n < m {
      FirstErrorStands(t, us, app, n, m - 1);
    }
  }

  /** Re-stamps the children of every changed root from the rows as they are now. */
  method CascadeChildrenWbs(table: ModuleTable, order: seq<nat>, roots: seq<Update>)
    modifies table
    ensures table.rows == Cascade(old(table.rows), order, roots)
  {
    for r := 0 to |roots|
      invariant table.rows == Cascade(old(table.rows), order, roots[..r])
    {
      var root := roots[r];
      assert roots[..r + 1][..r] == roots[..r];
      var children := FindChildren(table, order, root.id);
      var ranked := SortBy(Suffixes(table.rows), children);
      if children == [] {
        assert ranked == [];
        continue;
      }
      BulkMove(table, Stamps(ranked, root.id, root.wbs));
    }
    assert roots[..|roots|] == roots;
  }
}
