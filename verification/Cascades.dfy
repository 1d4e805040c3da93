/**
 The fixpoint loop of foreign-key enforcement: one pass as a function of the table order, its termination and its
 outcome.
 */
module Cascades {
  import opened Types
  import opened Merge
  import opened Storage
  import opened ForeignKeys

  // ------------------------------------------------------- one pass

  /** Delete versions of the deleted rows of a table. */
  function DeletedOf(rows: Rows, t: TableId): map<RowId, Version> {
    map k | k in rows && k.table == t && rows[k].deleted && rows[k].deleteVersion.Some? ::
        k.row := rows[k].deleteVersion.value
  }

  /** The visible rows of a child table whose reference is stale against the collected deletes. */
  function Affected(rows: Rows, child: TableId, c: ColumnId, deleted: map<RowId, Version>): set<RowKey> {
    set k | k in rows && k.table == child && Visible(rows[k]) && c in rows[k].cells
            && Display(rows[k].cells[c].value) in deleted
            && Stale(rows[k].cells[c].version, deleted[Display(rows[k].cells[c].value)])
  }

  /** One foreign key of a child table against the collected deletes of its parent table. */
  function KeyPass(y: Replica, child: TableId, fk: ForeignKey, deleted: map<RowId, Version>): Replica {
    var s := Affected(y.rows, child, fk.column, deleted);
    if s == {} then y
    else
      match fk.policy
      case Cascade => CascadeAll(y, s)
      case Orphan => OrphanAll(y, s, fk.column)
      case TombstoneParent => y
  }

  /** The keys of a child table that reference the parent table, in declaration order. */
  function ChildPass(y: Replica, parent: TableId, child: TableId, keys: seq<ForeignKey>,
    deleted: map<RowId, Version>): Replica {
    if keys == [] then y
    else
      var n := |keys| - 1;
      var z := ChildPass(y, parent, child, keys[..n], deleted);
      if keys[n].refTable == parent then KeyPass(z, child, keys[n], deleted) else z
  }

  function KeysOf(schemas: Schemas, t: TableId): seq<ForeignKey> {
    if t in schemas then schemas[t].foreignKeys else []
  }

  /** All child tables in order, against deletes collected once. */
  function ParentPass(y: Replica, parent: TableId, children: seq<TableId>, deleted: map<RowId, Version>): Replica {
    if children == [] then y
    else
      var n := |children| - 1;
      var z := ParentPass(y, parent, children[..n], deleted);
      ChildPass(z, parent, children[n], KeysOf(z.schemas, children[n]), deleted)
  }

  function TablePass(y: Replica, parent: TableId, tables: seq<TableId>): Replica {
    var deleted := DeletedOf(y.rows, parent);
    if deleted == map[] then y else ParentPass(y, parent, tables, deleted)
  }

  function PassOver(y: Replica, parents: seq<TableId>, tables: seq<TableId>): Replica {
    if parents == [] then y
    else TablePass(PassOver(y, parents[..|parents| - 1], tables), parents[|parents| - 1], tables)
  }

  /** One pass over all parent tables in the given order. */
  function Pass(y: Replica, tables: seq<TableId>): Replica {
    PassOver(y, tables, tables)
  }

  function Passes(x: Replica, tables: seq<TableId>, n: nat): Replica {
    if n == 0 then x else Pass(Passes(x, tables, n - 1), tables)
  }

  /** y is where repeated passes from x come to rest. */
  ghost predicate SettlesTo(x: Replica, tables: seq<TableId>, y: Replica) {
    Pass(y, tables) == y && exists n: nat :: Passes(x, tables, n) == y
  }

  // ------------------------------------------------------- what a pass keeps

  /** Deletes collected earlier in the pass are still stored. */
  ghost predicate StillDeleted(rows: Rows, t: TableId, deleted: map<RowId, Version>) {
    forall id | id in deleted :: DeletedAt(rows, RowKey(t, id)) == Some(deleted[id])
  }

  ghost predicate Quiet(x: Replica, child: TableId, fk: ForeignKey) {
    forall k: RowKey | k.table == child && fk.policy != TombstoneParent :: !Hit(x.rows, k, fk)
  }

  ghost predicate DeletesStay(a: Rows, b: Rows) {
    forall d | DeletedAt(a, d).Some? :: DeletedAt(b, d) == DeletedAt(a, d)
  }

  /** What every part of a pass keeps: progress, and either no change or a later clock and a smaller measure. */
  ghost predicate PassStep(x: Replica, before: Replica, after: Replica) {
    && Ready(after) && Progress(x, after) && DeletesStay(before.rows, after.rows)
    && (after == before || (before.clock < after.clock && Shrunk(before.rows, after.rows)))
  }

  lemma PassStepJoins(x: Replica, a: Replica, b: Replica, c: Replica)
    requires PassStep(x, a, b) && PassStep(x, b, c)
    ensures PassStep(x, a, c) && (c == a ==> b == a)
  {
    hide Ready, Progress;
  }

  lemma PassStepStarts(x: Replica, y: Replica)
    requires Ready(y) && Progress(x, y)
    ensures PassStep(x, y, y)
  {
  }

  /** A stale reference is found among the deletes of its parent table. */
  lemma HitIsAffected(rows: Rows, k: RowKey, fk: ForeignKey)
    requires Hit(rows, k, fk)
    ensures k in Affected(rows, k.table, fk.column, DeletedOf(rows, fk.refTable))
  {
    DeletedOfAt(rows, Parent(rows, k, fk));
  }

  lemma DeletedOfAt(rows: Rows, p: RowKey)
    ensures p.row in DeletedOf(rows, p.table) <==> DeletedAt(rows, p).Some?
    ensures DeletedAt(rows, p).Some? ==> DeletedOf(rows, p.table)[p.row] == DeletedAt(rows, p).value
  {
    assert p == RowKey(p.table, p.row);
    if DeletedAt(rows, p).Some? {
      assert p in rows && p.table == p.table;
    }
  }

  lemma CollectedNow(rows: Rows, t: TableId)
    ensures StillDeleted(rows, t, DeletedOf(rows, t))
  {
    forall id | id in DeletedOf(rows, t) ensures DeletedAt(rows, RowKey(t, id)) == Some(DeletedOf(rows, t)[id]) {
      DeletedOfAt(rows, RowKey(t, id));
    }
  }

  lemma StillDeletedLater(a: Rows, b: Rows, t: TableId, deleted: map<RowId, Version>)
    requires StillDeleted(a, t, deleted) && DeletesStay(a, b)
    ensures StillDeleted(b, t, deleted)
  {
  }

  lemma AffectedAreHit(rows: Rows, child: TableId, fk: ForeignKey, deleted: map<RowId, Version>)
    requires StillDeleted(rows, fk.refTable, deleted)
    ensures forall k | k in Affected(rows, child, fk.column, deleted) :: Hit(rows, k, fk) && k.table == child
  {
    forall k | k in Affected(rows, child, fk.column, deleted) ensures Hit(rows, k, fk) {
      assert Refers(rows, k, fk);
    }
  }

  lemma NoneAffectedIsQuiet(x: Replica, child: TableId, fk: ForeignKey)
    requires Affected(x.rows, child, fk.column, DeletedOf(x.rows, fk.refTable)) == {}
    ensures Quiet(x, child, fk)
  {
    forall k: RowKey | Hit(x.rows, k, fk)
        ensures k in Affected(x.rows, k.table, fk.column, DeletedOf(x.rows, fk.refTable)) {
      HitIsAffected(x.rows, k, fk);
    }
  }

  lemma CascadePass(x: Replica, y: Replica, fk: ForeignKey, s: set<RowKey>)
    requires Ready(x) && Ready(y) && Progress(x, y) && s != {}
    requires fk.policy == Cascade && forall k | k in s :: HasFk(x.schemas, k.table, fk) && Hit(y.rows, k, fk)
    ensures PassStep(x, y, CascadeAll(y, s)) && CascadeAll(y, s) != y
  {
    hide Hit, FkEffect, Closed;
    CascadeStep(x, y, fk, s);
    ProgressReady(x, CascadeAll(y, s));
    HitsVisible(y.rows, fk, s);
    DeletesKept(y, CascadeAll(y, s), s, NextVersion(y));
  }

  lemma OrphanPass(x: Replica, y: Replica, fk: ForeignKey, s: set<RowKey>)
    requires Ready(x) && Ready(y) && Progress(x, y) && s != {}
    requires fk.policy == Orphan && forall k | k in s :: HasFk(x.schemas, k.table, fk) && Hit(y.rows, k, fk)
    ensures PassStep(x, y, OrphanAll(y, s, fk.column)) && OrphanAll(y, s, fk.column) != y
  {
    hide Hit, FkEffect, Closed;
    OrphanStep(x, y, fk, s);
    ProgressReady(x, OrphanAll(y, s, fk.column));
    DeletesKept(y, OrphanAll(y, s, fk.column), s, NextVersion(y));
  }

  lemma KeyPassStep(x: Replica, y: Replica, child: TableId, fk: ForeignKey, deleted: map<RowId, Version>)
    requires Ready(x) && Ready(y) && Progress(x, y) && HasFk(x.schemas, child, fk)
    requires StillDeleted(y.rows, fk.refTable, deleted)
    ensures PassStep(x, y, KeyPass(y, child, fk, deleted))
    ensures KeyPass(y, child, fk, deleted) == y && deleted == DeletedOf(y.rows, fk.refTable) ==> Quiet(y, child, fk)
  {
    hide Ready, Progress, Hit, StillDeleted, Affected, PassStep, CascadeAll, OrphanAll;
    var s := Affected(y.rows, child, fk.column, deleted);
    AffectedAreHit(y.rows, child, fk, deleted);
    if s == {} {
      PassStepStarts(x, y);
      if deleted == DeletedOf(y.rows, fk.refTable) {
        NoneAffectedIsQuiet(y, child, fk);
      }
    } else {
      match fk.policy
      case Cascade => CascadePass(x, y, fk, s);
      case Orphan => OrphanPass(x, y, fk, s);
      case TombstoneParent => PassStepStarts(x, y);
    }
  }

  ghost predicate QuietKeys(x: Replica, parent: TableId, child: TableId, keys: seq<ForeignKey>) {
    forall fk | fk in keys && fk.refTable == parent :: Quiet(x, child, fk)
  }

  lemma {:induction false} ChildPassStep(x: Replica, y: Replica, parent: TableId, child: TableId, keys: seq<ForeignKey>,
    deleted: map<RowId, Version>)
    requires Ready(x) && Ready(y) && Progress(x, y) && StillDeleted(y.rows, parent, deleted)
    requires forall fk | fk in keys && fk.refTable == parent :: HasFk(x.schemas, child, fk)
    ensures PassStep(x, y, ChildPass(y, parent, child, keys, deleted))
    ensures ChildPass(y, parent, child, keys, deleted) == y && deleted == DeletedOf(y.rows, parent) ==>
            QuietKeys(y, parent, child, keys)
  {
    hide Ready, Progress, StillDeleted, KeyPass, Quiet, HasFk, Shrunk, DeletesStay;
    if keys == [] {
      PassStepStarts(x, y);
    } else {
      var n := |keys| - 1;
      assert keys == keys[..n] + [keys[n]];
      ChildPassStep(x, y, parent, child, keys[..n], deleted);
      var z := ChildPass(y, parent, child, keys[..n], deleted);
      if keys[n].refTable == parent {
        StillDeletedLater(y.rows, z.rows, parent, deleted);
        KeyPassStep(x, z, child, keys[n], deleted);
        PassStepJoins(x, y, z, KeyPass(z, child, keys[n], deleted));
      }
    }
  }

  ghost predicate QuietChildren(x: Replica, parent: TableId, children: seq<TableId>) {
    forall child | child in children :: QuietKeys(x, parent, child, KeysOf(x.schemas, child))
  }

  lemma ProgressSchemas(x: Replica, y: Replica)
    requires Progress(x, y)
    ensures y.schemas == x.schemas
  {
  }

  lemma {:induction false} ParentPassStep(x: Replica, y: Replica, parent: TableId, children: seq<TableId>,
    deleted: map<RowId, Version>)
    requires Ready(x) && Ready(y) && Progress(x, y) && StillDeleted(y.rows, parent, deleted) && parent in x.schemas
    ensures PassStep(x, y, ParentPass(y, parent, children, deleted))
    ensures ParentPass(y, parent, children, deleted) == y && deleted == DeletedOf(y.rows, parent) ==>
            QuietChildren(y, parent, children)
  {
    hide Ready, Progress, StillDeleted, ChildPass, QuietKeys, Shrunk, DeletesStay;
    if children == [] {
      PassStepStarts(x, y);
    } else {
      var n := |children| - 1;
      assert children == children[..n] + [children[n]];
      ParentPassStep(x, y, parent, children[..n], deleted);
      var z := ParentPass(y, parent, children[..n], deleted);
      StillDeletedLater(y.rows, z.rows, parent, deleted);
      ProgressSchemas(x, z);
      var keys := KeysOf(z.schemas, children[n]);
      ChildPassStep(x, z, parent, children[n], keys, deleted);
      PassStepJoins(x, y, z, ChildPass(z, parent, children[n], keys, deleted));
    }
  }

  lemma TablePassStep(x: Replica, y: Replica, parent: TableId, tables: seq<TableId>)
    requires Ready(x) && Ready(y) && Progress(x, y) && parent in x.schemas
    ensures PassStep(x, y, TablePass(y, parent, tables))
    ensures TablePass(y, parent, tables) == y ==> QuietChildren(y, parent, tables)
  {
    hide Ready, Progress, ParentPass, PassStep, DeletedOf, Hit;
    if DeletedOf(y.rows, parent) == map[] {
      PassStepStarts(x, y);
      NoDeletesQuiet(y, parent, tables);
    } else {
      CollectedNow(y.rows, parent);
      ParentPassStep(x, y, parent, tables, DeletedOf(y.rows, parent));
    }
  }

  lemma NoDeletesQuiet(x: Replica, parent: TableId, tables: seq<TableId>)
    requires DeletedOf(x.rows, parent) == map[]
    ensures QuietChildren(x, parent, tables)
  {
    forall k: RowKey, fk | Hit(x.rows, k, fk) ensures fk.refTable != parent {
      HitIsAffected(x.rows, k, fk);
    }
  }

  lemma {:induction false} PassOverStep(x: Replica, y: Replica, parents: seq<TableId>, tables: seq<TableId>)
    requires Ready(x) && Ready(y) && Progress(x, y) && forall t | t in parents :: t in x.schemas
    ensures PassStep(x, y, PassOver(y, parents, tables))
    ensures PassOver(y, parents, tables) == y ==> forall parent | parent in parents :: QuietChildren(y, parent, tables)
  {
    hide Ready, Progress, TablePass, QuietChildren, Shrunk, DeletesStay;
    if parents == [] {
      PassStepStarts(x, y);
    } else {
      var n := |parents| - 1;
      assert parents == parents[..n] + [parents[n]];
      PassOverStep(x, y, parents[..n], tables);
      var z := PassOver(y, parents[..n], tables);
      TablePassStep(x, z, parents[n], tables);
      PassStepJoins(x, y, z, TablePass(z, parents[n], tables));
    }
  }

  ghost predicate AllTables(tables: seq<TableId>, schemas: Schemas) {
    forall t :: t in tables <==> t in schemas
  }

  /** A pass makes progress, and a pass that changes nothing proves the state stable. */
  lemma PassProgresses(x: Replica, y: Replica, tables: seq<TableId>)
    requires Ready(x) && Ready(y) && Progress(x, y) && AllTables(tables, x.schemas)
    ensures PassStep(x, y, Pass(y, tables)) && (Pass(y, tables) == y ==> Stable(y))
  {
    hide Ready, Progress, PassOver, PassStep, QuietChildren, Stable;
    PassOverStep(x, y, tables, tables);
    ProgressSchemas(x, y);
    if Pass(y, tables) == y {
      QuietIsStable(y, tables);
    }
  }

  lemma QuietIsStable(x: Replica, tables: seq<TableId>)
    requires AllTables(tables, x.schemas) && forall parent | parent in tables :: QuietChildren(x, parent, tables)
    ensures Stable(x)
  {
    hide Hit;
    forall k: RowKey, fk | HasFk(x.schemas, k.table, fk) && fk.policy != TombstoneParent ensures !Hit(x.rows, k, fk) {
      assert QuietChildren(x, fk.refTable, tables);
      assert QuietKeys(x, fk.refTable, k.table, KeysOf(x.schemas, k.table));
      assert Quiet(x, k.table, fk);
    }
  }

  // ------------------------------------------------------- the loops

  method EnforceKey(r: ReplicaState, child: TableId, fk: ForeignKey, deleted: map<RowId, Version>)
    returns (changed: bool)
    requires r.Valid()
    modifies r.Repr()
    ensures r.Valid() && r.View() == KeyPass(old(r.View()), child, fk, deleted)
    ensures old(r.clock.counter) <= r.clock.counter && (changed <==> r.clock.counter != old(r.clock.counter))
  {
    var s := Affected(r.storage.rows, child, fk.column, deleted);
    changed := false;
    if s == {} {
      return;
    }
    hide Affected, MarkDeleted, MarkTombs, NulledColumn;
    assert s <= r.storage.rows.Keys by {
      AffectedStored(r.storage.rows, child, fk.column, deleted);
    }
    match fk.policy {
      case Cascade =>
        var v := r.TickWrite();
        CascadeRows(r.storage, r.tombstones, s, v);
        changed := true;
      case Orphan =>
        var v := r.TickWrite();
        OrphanRows(r.storage, s, fk.column, v);
        changed := true;
      case TombstoneParent =>
    }
  }

  lemma AffectedStored(rows: Rows, child: TableId, c: ColumnId, deleted: map<RowId, Version>)
    ensures Affected(rows, child, c, deleted) <= rows.Keys
  {
  }

  method EnforceChild(r: ReplicaState, parent: TableId, child: TableId, deleted: map<RowId, Version>)
    returns (changed: bool)
    requires r.Valid()
    modifies r.Repr()
    ensures r.Valid() && r.View() == ChildPass(old(r.View()), parent, child, KeysOf(old(r.schemas), child), deleted)
    ensures old(r.clock.counter) <= r.clock.counter && (changed <==> r.clock.counter != old(r.clock.counter))
  {
    hide KeyPass;
    ghost var y := r.View();
    changed := false;
    if child !in r.schemas {
      return;
    }
    var keys := r.schemas[child].foreignKeys;
    for i := 0 to |keys|
      invariant r.Valid() && r.View() == ChildPass(y, parent, child, keys[..i], deleted)
      invariant y.clock <= r.clock.counter && (changed <==> r.clock.counter != y.clock)
    {
      assert keys[..i + 1][..i] == keys[..i];
      if keys[i].refTable == parent {
        var c := EnforceKey(r, child, keys[i], deleted);
        changed := changed || c;
      }
    }
    assert keys[..|keys|] == keys;
  }

  method EnforceParent(r: ReplicaState, tables: seq<TableId>, parent: TableId) returns (changed: bool)
    requires r.Valid()
    modifies r.Repr()
    ensures r.Valid() && r.View() == TablePass(old(r.View()), parent, tables)
    ensures old(r.clock.counter) <= r.clock.counter && (changed <==> r.clock.counter != old(r.clock.counter))
  {
    hide ChildPass, DeletedOf;
    ghost var y := r.View();
    changed := false;
    var deleted := DeletedOf(r.storage.rows, parent);
    if deleted == map[] {
      return;
    }
    for i := 0 to |tables|
      invariant r.Valid() && r.View() == ParentPass(y, parent, tables[..i], deleted)
      invariant y.clock <= r.clock.counter && (changed <==> r.clock.counter != y.clock)
    {
      assert tables[..i + 1][..i] == tables[..i];
      var c := EnforceChild(r, parent, tables[i], deleted);
      changed := changed || c;
    }
    assert tables[..|tables|] == tables;
  }

  method EnforcePass(r: ReplicaState, tables: seq<TableId>) returns (changed: bool)
    requires r.Valid()
    modifies r.Repr()
    ensures r.Valid() && r.View() == Pass(old(r.View()), tables)
    ensures changed <==> r.clock.counter != old(r.clock.counter)
  {
    hide TablePass;
    ghost var y := r.View();
    changed := false;
    for i := 0 to |tables|
      invariant r.Valid() && r.View() == PassOver(y, tables[..i], tables)
      invariant y.clock <= r.clock.counter && (changed <==> r.clock.counter != y.clock)
    {
      assert tables[..i + 1][..i] == tables[..i];
      var c := EnforceParent(r, tables, tables[i]);
      changed := changed || c;
    }
    assert tables[..|tables|] == tables;
  }

  /** Repeats passes until nothing changes; ends because a pass deletes visible rows or closes open cells. */
  method EnforceInOrder(r: ReplicaState, tables: seq<TableId>)
    requires r.Valid() && Ready(r.View()) && AllTables(tables, r.schemas)
    modifies r.Repr()
    ensures r.Valid() && FkEnforced(old(r.View()), r.View()) && SettlesTo(old(r.View()), tables, r.View())
  {
    hide Ready, Progress, Pass, Stable, FkEnforced, VisibleKeys, OpenCells;
    ghost var x := r.View();
    ghost var n: nat := 0;
    var hadChange := true;
    StartsProgress(x);
    while hadChange
      invariant r.Valid() && Ready(r.View()) && Progress(x, r.View())
      invariant r.View() == Passes(x, tables, n)
      invariant !hadChange ==> Stable(r.View()) && Pass(r.View(), tables) == r.View()
      decreases VisibleKeys(r.storage.rows), OpenCells(r.storage.rows), hadChange
    {
      PassProgresses(x, r.View(), tables);
      hadChange := EnforcePass(r, tables);
      n := n + 1;
    }
    ProgressIsExact(x, r.View());
  }

  // ------------------------------------------------------- table names

  predicate Sorted(names: seq<TableId>) {
    forall i, j | 0 <= i < j < |names| :: StrLess(names[i], names[j])
  }

  function InsertName(names: seq<TableId>, t: TableId): seq<TableId> {
    if names == [] then [t]
    else if StrLess(t, names[0]) then [t] + names
    else [names[0]] + InsertName(names[1..], t)
  }

  lemma {:induction false} InsertNameSorted(names: seq<TableId>, t: TableId)
    requires Sorted(names) && t !in names
    ensures Sorted(InsertName(names, t)) && forall u :: u in InsertName(names, t) <==> u in names || u == t
  {
    if names != [] {
      assert names == [names[0]] + names[1..];
      StrTrichotomy(t, names[0]);
      if StrLess(t, names[0]) {
        forall j | 0 < j < |names| ensures StrLess(t, names[j]) {
          StrTransitive(t, names[0], names[j]);
        }
      } else {
        InsertNameSorted(names[1..], t);
        var out := InsertName(names[1..], t);
        forall i | 0 <= i < |out| ensures StrLess(names[0], out[i]) {
          assert out[i] in out;
          assert out[i] != t ==> out[i] in names[1..];
        }
      }
    }
  }

  /** The names of the schemas in their order. */
  method TableNames(schemas: Schemas) returns (names: seq<TableId>)
    ensures Sorted(names) && AllTables(names, schemas)
  {
    names := [];
    var todo := schemas.Keys;
    while todo != {}
      invariant todo <= schemas.Keys && Sorted(names) && forall t :: t in names <==> t in schemas.Keys - todo
    {
      var t :| t in todo;
      InsertNameSorted(names, t);
      names := InsertName(names, t);
      todo := todo - {t};
    }
  }

  /** Enforcement in the order of table names. */
  method EnforceFkCascades(r: ReplicaState) returns (ghost tables: seq<TableId>)
    requires r.Valid() && Ready(r.View())
    modifies r.Repr()
    ensures r.Valid() && FkEnforced(old(r.View()), r.View())
    ensures Sorted(tables) && AllTables(tables, old(r.schemas)) && SettlesTo(old(r.View()), tables, r.View())
  {
    var names := TableNames(r.schemas);
    EnforceInOrder(r, names);
    tables := names;
  }

  lemma {:induction false} RestingStays(x: Replica, tables: seq<TableId>, n: nat, m: nat)
    requires n <= m && Pass(Passes(x, tables, n), tables) == Passes(x, tables, n)
    ensures Passes(x, tables, m) == Passes(x, tables, n)
    decreases m
  {
    if n < m {
      RestingStays(x, tables, n, m - 1);
    }
  }

  lemma FirstOnce(a: seq<TableId>)
    requires Sorted(a) && a != []
    ensures forall t :: t in a[1..] <==> t in a && t != a[0]
  {
    forall t | t in a[1..] ensures t != a[0] {
      var i :| 0 < i < |a| && a[i] == t;
      StrTrichotomy(a[0], a[i]);
    }
    assert a == [a[0]] + a[1..];
  }

  lemma {:induction false} SortedOnce(a: seq<TableId>, b: seq<TableId>)
    requires Sorted(a) && Sorted(b) && forall t :: t in a <==> t in b
    ensures a == b
  {
    assert b != [] ==> b[0] in b;
    if a != [] {
      assert a[0] in b && b[0] in a;
      StrTrichotomy(a[0], b[0]);
      assert a[0] == b[0];
      assert a == [a[0]] + a[1..] && b == [b[0]] + b[1..];
      FirstOnce(a);
      FirstOnce(b);
      SortedOnce(a[1..], b[1..]);
    }
  }

  /**
   Enforcement has one outcome: the deleted rows, nulled cells, versions and clock are all determined by the start.
   */
  lemma OneOutcome(x: Replica, ta: seq<TableId>, y: Replica, tb: seq<TableId>, z: Replica)
    requires Sorted(ta) && Sorted(tb) && AllTables(ta, x.schemas) && AllTables(tb, x.schemas)
    requires SettlesTo(x, ta, y) && SettlesTo(x, tb, z)
    ensures y == z
  {
    SortedOnce(ta, tb);
    var n: nat :| Passes(x, ta, n) == y;
    var m: nat :| Passes(x, ta, m) == z;
    if n <= m {
      RestingStays(x, ta, n, m);
    } else {
      RestingStays(x, ta, m, n);
    }
  }

  // ------------------------------------------------------- a column under two keys

  function DeletedParent(): Row {
    Row("1", map["id" := Cell(Text("1"), Version(1, "A"))], true, Some(Version(3, "A")))
  }

  /** A child of t whose column c refers to row "1" of p and of q, both deleted later. */
  function SharedColumn(schemas: Schemas, t: TableId, c: ColumnId, p: TableId, q: TableId): Replica {
    Replica("A", 3, map["A" := 3],
            map[RowKey(p, "1") := DeletedParent(), RowKey(q, "1") := DeletedParent(),
                RowKey(t, "7") := Row("7", map[c := Cell(Text("1"), Version(2, "A"))], false, None)],
            map[RowKey(p, "1") := Version(3, "A"), RowKey(q, "1") := Version(3, "A")], map[], schemas)
  }

  lemma SharedColumnReady(schemas: Schemas, t: TableId, c: ColumnId, p: TableId, q: TableId)
    ensures Ready(SharedColumn(schemas, t, c, p, q))
  {
    var x := SharedColumn(schemas, t, c, p, q);
    assert "id" in DeletedParent().cells && c in x.rows[RowKey(t, "7")].cells;
  }

  lemma SharedColumnHits(schemas: Schemas, t: TableId, p: TableId, q: TableId, fk: ForeignKey)
    requires fk.refTable in {p, q}
    ensures Hit(SharedColumn(schemas, t, fk.column, p, q).rows, RowKey(t, "7"), fk)
  {
  }

  lemma SharedColumnOutcomes(schemas: Schemas, t: TableId, c: ColumnId, p: TableId, q: TableId)
    ensures Stable(OrphanAll(SharedColumn(schemas, t, c, p, q), {RowKey(t, "7")}, c))
    ensures Stable(CascadeAll(SharedColumn(schemas, t, c, p, q), {RowKey(t, "7")}))
  {
    var x := SharedColumn(schemas, t, c, p, q);
    SharedOrphanStable(x, RowKey(t, "7"), c);
  }

  lemma SharedOrphanStable(x: Replica, k: RowKey, c: ColumnId)
    requires k in x.rows && x.rows[k].cells.Keys == {c}
    requires forall j | j in x.rows && j != k :: x.rows[j].deleted && j.row != "NULL"
    requires Visible(x.rows[k]) && k.row != "NULL"
    ensures Stable(OrphanAll(x, {k}, c))
  {
    hide Stale;
    var rows := OrphanAll(x, {k}, c).rows;
    forall j: RowKey, fk ensures !Hit(rows, j, fk) {
    }
  }

  /**
   A column under a Cascade and an Orphan key: from one state both outcomes meet all other guarantees of enforcement.
   */
  lemma SharedColumnTwoOutcomes(schemas: Schemas, t: TableId, f: ForeignKey, g: ForeignKey)
    requires HasFk(schemas, t, f) && HasFk(schemas, t, g) && f.policy == Cascade && g.policy == Orphan
    requires f.column == g.column
    ensures var x := SharedColumn(schemas, t, f.column, f.refTable, g.refTable);
            var k := RowKey(t, "7");
            && Ready(x) && FkEnforced(x, OrphanAll(x, {k}, f.column)) && FkEnforced(x, CascadeAll(x, {k}))
            && k in NewlyDeleted(x.rows, CascadeAll(x, {k}).rows)
            && k !in NewlyDeleted(x.rows, OrphanAll(x, {k}, f.column).rows)
  {
    hide FkEnforced, Ready, Progress, Shrunk, VisibleKeys, Hit, HasFk, Stable, Separate;
    var x := SharedColumn(schemas, t, f.column, f.refTable, g.refTable);
    var k := RowKey(t, "7");
    SharedColumnReady(schemas, t, f.column, f.refTable, g.refTable);
    SharedColumnHits(schemas, t, f.refTable, g.refTable, f);
    SharedColumnHits(schemas, t, f.refTable, g.refTable, g);
    SharedColumnOutcomes(schemas, t, f.column, f.refTable, g.refTable);
    StartsProgress(x);
    OrphanStep(x, x, g, {k});
    ProgressIsExact(x, OrphanAll(x, {k}, f.column));
    CascadeStep(x, x, f, {k});
    ProgressIsExact(x, CascadeAll(x, {k}));
  }

  ghost predicate Determined(schemas: Schemas) {
    forall x: Replica, y, z | x.schemas == schemas && Ready(x) && FkEnforced(x, y) && FkEnforced(x, z) ::
      NewlyDeleted(x.rows, y.rows) == NewlyDeleted(x.rows, z.rows)
  }

  /** The deleted rows are independent of the order of tables and keys exactly for schemas with separate columns. */
  lemma SeparateIffDetermined(schemas: Schemas)
    ensures Separate(schemas) <==> Determined(schemas)
  {
    hide FkEnforced, Ready, NewlyDeleted;
    if Separate(schemas) {
      forall x: Replica, y, z | x.schemas == schemas && Ready(x) && FkEnforced(x, y) && FkEnforced(x, z)
        ensures NewlyDeleted(x.rows, y.rows) == NewlyDeleted(x.rows, z.rows)
      {
        CascadeOrderIrrelevant(x, y, z);
      }
    }
    forall t, f, g | HasFk(schemas, t, f) && HasFk(schemas, t, g) && f.policy == Cascade && g.policy == Orphan
        && f.column == g.column
      ensures !Determined(schemas)
    {
      SharedColumnTwoOutcomes(schemas, t, f, g);
    }
  }

  // ------------------------------------------------------- which outcome the loop takes

  lemma StableKeyPass(y: Replica, child: TableId, fk: ForeignKey, deleted: map<RowId, Version>)
    requires Stable(y) && HasFk(y.schemas, child, fk) && StillDeleted(y.rows, fk.refTable, deleted)
    ensures KeyPass(y, child, fk, deleted) == y
  {
    hide Hit, Affected;
    AffectedAreHit(y.rows, child, fk, deleted);
  }

  lemma {:induction false} StableChildPass(y: Replica, parent: TableId, child: TableId, keys: seq<ForeignKey>,
    deleted: map<RowId, Version>)
    requires Stable(y) && StillDeleted(y.rows, parent, deleted)
    requires forall fk | fk in keys && fk.refTable == parent :: HasFk(y.schemas, child, fk)
    ensures ChildPass(y, parent, child, keys, deleted) == y
  {
    hide Stable, StillDeleted, KeyPass, HasFk;
    if keys != [] {
      var n := |keys| - 1;
      assert keys == keys[..n] + [keys[n]];
      StableChildPass(y, parent, child, keys[..n], deleted);
      if keys[n].refTable == parent {
        StableKeyPass(y, child, keys[n], deleted);
      }
    }
  }

  lemma {:induction false} StableParentPass(y: Replica, parent: TableId, children: seq<TableId>,
    deleted: map<RowId, Version>)
    requires Stable(y) && StillDeleted(y.rows, parent, deleted) && parent in y.schemas
    ensures ParentPass(y, parent, children, deleted) == y
  {
    hide Stable, StillDeleted, ChildPass;
    if children != [] {
      var n := |children| - 1;
      StableParentPass(y, parent, children[..n], deleted);
      StableChildPass(y, parent, children[n], KeysOf(y.schemas, children[n]), deleted);
    }
  }

  /** A pass over a stable state changes nothing. */
  lemma {:induction false} StablePassOver(y: Replica, parents: seq<TableId>, tables: seq<TableId>)
    requires Stable(y) && forall t | t in parents :: t in y.schemas
    ensures PassOver(y, parents, tables) == y
  {
    hide Stable, ParentPass, DeletedOf;
    if parents != [] {
      var n := |parents| - 1;
      assert parents == parents[..n] + [parents[n]];
      StablePassOver(y, parents[..n], tables);
      CollectedNow(y.rows, parents[n]);
      StableParentPass(y, parents[n], tables, DeletedOf(y.rows, parents[n]));
    }
  }

  lemma {:induction false} PassOverRest(x: Replica, y: Replica, parents: seq<TableId>, tables: seq<TableId>)
    requires parents != [] && TablePass(x, parents[0], tables) == y && Stable(y)
    requires forall t | t in parents :: t in y.schemas
    ensures PassOver(x, parents, tables) == y
  {
    hide Stable, TablePass;
    var n := |parents| - 1;
    assert parents == parents[..n] + [parents[n]];
    if n == 0 {
      assert parents[..0] == [];
      assert PassOver(x, parents[..0], tables) == x;
    } else {
      assert parents[..n][0] == parents[0];
      PassOverRest(x, y, parents[..n], tables);
      StablePassOver(y, [parents[n]], tables);
      assert [parents[n]][..0] == [];
    }
  }

  /** When the first parent table already leads to a stable state, the loop rests there. */
  lemma FirstTableSettles(x: Replica, tables: seq<TableId>, y: Replica)
    requires tables != [] && AllTables(tables, y.schemas) && Stable(y) && TablePass(x, tables[0], tables) == y
    ensures SettlesTo(x, tables, y)
  {
    hide Stable, TablePass;
    PassOverRest(x, y, tables, tables);
    StablePassOver(y, tables, tables);
    assert Passes(x, tables, 0) == x;
    assert Passes(x, tables, 1) == y;
  }

  /** Two parent tables and one child table with two keys on its column p. */
  function TwoKeys(f: ForeignKey, g: ForeignKey): Schemas {
    map["a" := TableSchema([], [], []), "b" := TableSchema([], [], []), "c" := TableSchema([], [f, g], [])]
  }

  function Disputed(f: ForeignKey, g: ForeignKey): Replica {
    SharedColumn(TwoKeys(f, g), "c", "p", "a", "b")
  }

  /** The state after the deciding key has acted on the child. */
  function Decided(x: Replica, policy: FkPolicy): Replica
    requires policy != TombstoneParent
  {
    if policy == Cascade then CascadeAll(x, {RowKey("c", "7")}) else OrphanAll(x, {RowKey("c", "7")}, "p")
  }

  lemma DisputedKeyPass(f: ForeignKey, g: ForeignKey, fk: ForeignKey)
    requires fk.column == "p" && fk.refTable in {"a", "b"} && fk.policy != TombstoneParent
    ensures var x := Disputed(f, g); KeyPass(x, "c", fk, DeletedOf(x.rows, fk.refTable)) == Decided(x, fk.policy)
  {
    hide DeletedOf, Affected, CascadeAll, OrphanAll;
    var x := Disputed(f, g);
    var k := RowKey("c", "7");
    SharedColumnHits(x.schemas, "c", "a", "b", fk);
    HitIsAffected(x.rows, k, fk);
    OnlyAffected(x.rows, "c", "p", DeletedOf(x.rows, fk.refTable), k);
  }

  lemma OnlyAffected(rows: Rows, child: TableId, c: ColumnId, deleted: map<RowId, Version>, k: RowKey)
    requires k in Affected(rows, child, c, deleted) && forall j | j in rows && j != k :: rows[j].deleted
    ensures Affected(rows, child, c, deleted) == {k}
  {
    hide Stale;
  }

  ghost predicate DisputeKeys(f: ForeignKey, g: ForeignKey) {
    f.column == g.column == "p" && f.refTable in {"a", "b"} && g.refTable in {"a", "b"}
    && f.policy != TombstoneParent && g.policy != TombstoneParent
  }

  lemma DisputedChildPass(f: ForeignKey, g: ForeignKey, fk: ForeignKey)
    requires DisputeKeys(f, g) && (fk == f || (fk == g && f.refTable != g.refTable))
    ensures var x := Disputed(f, g);
            && ChildPass(x, fk.refTable, "c", [f, g], DeletedOf(x.rows, fk.refTable)) == Decided(x, fk.policy)
            && Stable(Decided(x, fk.policy))
  {
    hide KeyPass, Stable, DeletedOf, CascadeAll, OrphanAll;
    var x := Disputed(f, g);
    var deleted := DeletedOf(x.rows, fk.refTable);
    var y := Decided(x, fk.policy);
    DisputedKeyPass(f, g, fk);
    SharedColumnOutcomes(x.schemas, "c", "p", "a", "b");
    assert [f, g][..1] == [f] && [f][..0] == [];
    assert ChildPass(x, fk.refTable, "c", [], deleted) == x;
    assert ChildPass(x, fk.refTable, "c", [f], deleted) == if f.refTable == fk.refTable
           then KeyPass(x, "c", f, deleted) else x;
    if fk == f && g.refTable == f.refTable {
      DecidedKeepsDeletes(f, g, fk);
      StableKeyPass(y, "c", g, deleted);
    }
  }

  lemma DecidedKeepsDeletes(f: ForeignKey, g: ForeignKey, fk: ForeignKey)
    requires DisputeKeys(f, g) && fk == f
    ensures var x := Disputed(f, g); var y := Decided(x, fk.policy);
            y.schemas == x.schemas && HasFk(y.schemas, "c", g)
                && StillDeleted(y.rows, fk.refTable, DeletedOf(x.rows, fk.refTable))
  {
    hide DeletedOf, StillDeleted;
    var x := Disputed(f, g);
    var y := Decided(x, fk.policy);
    assert x.schemas["c"].foreignKeys[1] == g;
    CollectedNow(x.rows, fk.refTable);
    DisputedDeletes(f, g, fk.policy);
    StillDeletedLater(x.rows, y.rows, fk.refTable, DeletedOf(x.rows, fk.refTable));
  }

  lemma DisputedDeletes(f: ForeignKey, g: ForeignKey, policy: FkPolicy)
    requires policy != TombstoneParent
    ensures DeletesStay(Disputed(f, g).rows, Decided(Disputed(f, g), policy).rows)
  {
    var x := Disputed(f, g);
    DeletesKept(x, Decided(x, policy), {RowKey("c", "7")}, NextVersion(x));
  }

  lemma DisputedTablePass(f: ForeignKey, g: ForeignKey, fk: ForeignKey, tables: seq<TableId>)
    requires DisputeKeys(f, g) && (fk == f || (fk == g && f.refTable != g.refTable))
    requires tables == ["a", "b", "c"] || tables == ["b", "a", "c"]
    ensures TablePass(Disputed(f, g), fk.refTable, tables) == Decided(Disputed(f, g), fk.policy)
  {
    hide KeyPass, Stable, CascadeAll, OrphanAll, DeletedOf;
    var x := Disputed(f, g);
    var deleted := DeletedOf(x.rows, fk.refTable);
    DeletedOfAt(x.rows, RowKey(fk.refTable, "1"));
    assert deleted != map[];
    DisputedChildPass(f, g, fk);
    DisputedFold(f, g, fk.refTable, tables, deleted);
  }

  lemma KeylessTables(f: ForeignKey, g: ForeignKey)
    ensures var schemas := Disputed(f, g).schemas;
            KeysOf(schemas, "a") == [] && KeysOf(schemas, "b") == [] && KeysOf(schemas, "c") == [f, g]
  {
  }

  lemma DisputedFold(f: ForeignKey, g: ForeignKey, parent: TableId, tables: seq<TableId>, deleted: map<RowId, Version>)
    requires tables == ["a", "b", "c"] || tables == ["b", "a", "c"]
    ensures ParentPass(Disputed(f, g), parent, tables, deleted)
            == ChildPass(Disputed(f, g), parent, "c", [f, g], deleted)
  {
    hide KeyPass, SharedColumn, KeysOf;
    var x := Disputed(f, g);
    KeylessTables(f, g);
    assert tables[..2] == [tables[0], tables[1]] && tables[..2][..1] == [tables[0]] && [tables[0]][..0] == [];
    assert ParentPass(x, parent, [], deleted) == x;
    assert ParentPass(x, parent, tables[..2][..1], deleted) == x;
    assert ParentPass(x, parent, tables[..2], deleted) == x;
  }

  lemma DisputedTables(f: ForeignKey, g: ForeignKey, tables: seq<TableId>)
    requires tables == ["a", "b", "c"] || tables == ["b", "a", "c"]
    ensures AllTables(tables, Disputed(f, g).schemas)
    ensures forall policy | policy != TombstoneParent ::
            Decided(Disputed(f, g), policy).schemas == Disputed(f, g).schemas
  {
    hide CascadeAll, OrphanAll;
    assert forall t :: t in tables <==> t == "a" || t == "b" || t == "c";
    DecidedSchemas(Disputed(f, g));
  }

  lemma DecidedSchemas(x: Replica)
    ensures forall policy | policy != TombstoneParent :: Decided(x, policy).schemas == x.schemas
  {
  }

  /**
   With keys to two tables the first parent table in the order decides the fate of the child; with keys to one
   table, the first declared key.
   */
  lemma FirstKeyDecides(f: ForeignKey, g: ForeignKey, tables: seq<TableId>)
    requires DisputeKeys(f, g) && (tables == ["a", "b", "c"] || tables == ["b", "a", "c"])
    requires f.refTable == tables[0] || g.refTable == tables[0]
    ensures var fk := if f.refTable == tables[0] then f else g;
            && AllTables(tables, Disputed(f, g).schemas)
            && SettlesTo(Disputed(f, g), tables, Decided(Disputed(f, g), fk.policy))
  {
    DisputedTables(f, g, tables);
    hide KeyPass, Stable, TablePass, SettlesTo, Disputed, Decided, AllTables;
    var fk := if f.refTable == tables[0] then f else g;
    var x := Disputed(f, g);
    DisputedTablePass(f, g, fk, tables);
    DisputedChildPass(f, g, fk);
    FirstTableSettles(x, tables, Decided(x, fk.policy));
  }

  const ORPHAN_TO_A := ForeignKey("p", "a", Orphan)
  const CASCADE_TO_B := ForeignKey("p", "b", Cascade)
  const CASCADE_TO_A := ForeignKey("p", "a", Cascade)

  /**
   The order of tables, or of keys to one table, decides whether the loop leaves the child alive with NULL or deletes
   it.
   */
  lemma SharedColumnOrderMatters()
    ensures var x := Disputed(ORPHAN_TO_A, CASCADE_TO_B);
            && SettlesTo(x, ["a", "b", "c"], OrphanAll(x, {RowKey("c", "7")}, "p"))
            && SettlesTo(x, ["b", "a", "c"], CascadeAll(x, {RowKey("c", "7")}))
    ensures var x := Disputed(ORPHAN_TO_A, CASCADE_TO_A);
            SettlesTo(x, ["a", "b", "c"], OrphanAll(x, {RowKey("c", "7")}, "p"))
    ensures var x := Disputed(CASCADE_TO_A, ORPHAN_TO_A);
            SettlesTo(x, ["a", "b", "c"], CascadeAll(x, {RowKey("c", "7")}))
  {
    hide SettlesTo, Disputed, CascadeAll, OrphanAll;
    FirstKeyDecides(ORPHAN_TO_A, CASCADE_TO_B, ["a", "b", "c"]);
    FirstKeyDecides(ORPHAN_TO_A, CASCADE_TO_B, ["b", "a", "c"]);
    FirstKeyDecides(ORPHAN_TO_A, CASCADE_TO_A, ["a", "b", "c"]);
    FirstKeyDecides(CASCADE_TO_A, ORPHAN_TO_A, ["a", "b", "c"]);
  }
}
