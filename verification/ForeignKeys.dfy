/** Foreign-key enforcement: stale references, the effect of a cascade or orphan action, and its exact outcome. */
module ForeignKeys {
  import opened Types
  import opened Frontiers
  import opened Merge
  import opened Storage
  import opened Slots
  import opened Invariants
  import opened Sql

  // ------------------------------------------------------- references

  /** A reference written no later than the parent's delete; on a tie of counters only by the same peer. */
  predicate Stale(cell: Version, delete: Version) {
    (cell.peer == delete.peer && cell.counter <= delete.counter)
        || (cell.peer != delete.peer && cell.counter < delete.counter)
  }

  predicate HasFk(schemas: Schemas, t: TableId, fk: ForeignKey) {
    t in schemas && fk in schemas[t].foreignKeys && fk.refTable in schemas
  }

  /** A visible row with a value, possibly NULL, in the column of fk. */
  predicate Refers(rows: Rows, k: RowKey, fk: ForeignKey) {
    k in rows && Visible(rows[k]) && fk.column in rows[k].cells
  }

  /** The row the value names, compared as text. */
  function Parent(rows: Rows, k: RowKey, fk: ForeignKey): RowKey
    requires Refers(rows, k, fk)
  {
    RowKey(fk.refTable, Display(rows[k].cells[fk.column].value))
  }

  /** The version of a stored delete. */
  function DeletedAt(rows: Rows, k: RowKey): Option<Version> {
    if k in rows && rows[k].deleted then rows[k].deleteVersion else None
  }

  /** The row has a stale reference to a deleted row. */
  predicate Hit(rows: Rows, k: RowKey, fk: ForeignKey) {
    && Refers(rows, k, fk)
    && DeletedAt(rows, Parent(rows, k, fk)).Some?
    && Stale(rows[k].cells[fk.column].version, DeletedAt(rows, Parent(rows, k, fk)).value)
  }

  /** No Cascade or Orphan reference is stale. */
  ghost predicate Stable(x: Replica) {
    forall k: RowKey, fk {:trigger Hit(x.rows, k, fk)} | HasFk(x.schemas, k.table, fk)
        && fk.policy != TombstoneParent :: !Hit(x.rows, k, fk)
  }

  // ------------------------------------------------------- effect

  function NewlyDeleted(x: Rows, y: Rows): set<RowKey> {
    set k | k in x && k in y && !x[k].deleted && y[k].deleted
  }

  /** Under the Orphan key fk, the original reference in column c is stale against a row deleted in y. */
  predicate OrphanedBy(x: Replica, y: Replica, k: RowKey, c: ColumnId, fk: ForeignKey)
    requires k in x.rows && c in x.rows[k].cells
  {
    && HasFk(x.schemas, k.table, fk) && fk.policy == Orphan && fk.column == c
    && var d := DeletedAt(y.rows, RowKey(fk.refTable, Display(x.rows[k].cells[c].value)));
       d.Some? && Stale(x.rows[k].cells[c].version, d.value)
  }

  ghost predicate OrphanHit(x: Replica, y: Replica, k: RowKey, c: ColumnId) {
    k in x.rows && c in x.rows[k].cells && exists fk :: OrphanedBy(x, y, k, c, fk)
  }

  /**
   What has happened to row k between x and y: nothing if it was deleted; else perhaps a fresh delete and nulled orphan
   columns.
   */
  ghost predicate RowEffect(x: Replica, y: Replica, k: RowKey)
    requires k in x.rows && k in y.rows
  {
    var a, b := x.rows[k], y.rows[k];
    && b.id == a.id && (a.deleted ==> b == a && At(y.tombs, k) == At(x.tombs, k))
    && (!b.deleted ==> b.deleteVersion == None && At(y.tombs, k) == At(x.tombs, k))
    && (b.deleted && !a.deleted ==>
          b.deleteVersion.Some? && Issued(x, y, b.deleteVersion.value) && At(y.tombs, k) == b.deleteVersion)
    && b.cells.Keys == a.cells.Keys
    && (forall c | c in a.cells ::
          b.cells[c] == a.cells[c]
              || (b.cells[c].value == Null && Issued(x, y, b.cells[c].version) && OrphanHit(x, y, k, c)))
  }

  ghost predicate FkEffect(x: Replica, y: Replica) {
    && WriteFrame(x, y) && y.claims == x.claims && y.rows.Keys == x.rows.Keys
    && (forall k | k in x.rows :: RowEffect(x, y, k))
    && (forall k | k !in x.rows :: At(y.tombs, k) == At(x.tombs, k))
  }

  /** E holds every visible Cascade child with a stale reference, and every visible Cascade child of a row in E. */
  ghost predicate Closed(x: Replica, e: set<RowKey>) {
    forall k: RowKey, fk {:trigger Refers(x.rows, k, fk)} |
      HasFk(x.schemas, k.table, fk) && fk.policy == Cascade && Refers(x.rows, k, fk)
      && (Hit(x.rows, k, fk) || Parent(x.rows, k, fk) in e) :: k in e
  }

  /** No column of a table is under both a Cascade and an Orphan key. */
  ghost predicate Separate(schemas: Schemas) {
    forall t, f, g | HasFk(schemas, t, f) && HasFk(schemas, t, g) && f.policy == Cascade && g.policy == Orphan ::
        f.column != g.column
  }

  ghost predicate WithinEveryClosed(x: Replica, d: set<RowKey>) {
    forall e | Closed(x, e) :: d <= e
  }

  /** Under the Cascade key fk, the row's reference is stale against a deleted row. */
  predicate CascadedBy(schemas: Schemas, rows: Rows, k: RowKey, fk: ForeignKey) {
    && HasFk(schemas, k.table, fk) && fk.policy == Cascade && k in rows && fk.column in rows[k].cells
    && var d := DeletedAt(rows, RowKey(fk.refTable, Display(rows[k].cells[fk.column].value)));
       d.Some? && Stale(rows[k].cells[fk.column].version, d.value)
  }

  /** Every new delete has a Cascade reference to a deleted row as its cause. */
  ghost predicate Caused(x: Replica, y: Replica) {
    forall k | k in NewlyDeleted(x.rows, y.rows) :: exists fk :: CascadedBy(x.schemas, y.rows, k, fk)
  }

  /** The result of enforcement: exactly the least cascade is deleted and exactly the stale orphans are nulled. */
  ghost predicate FkEnforced(x: Replica, y: Replica) {
    && FkEffect(x, y) && Caused(x, y) && Stable(y)
    && (Separate(x.schemas) ==>
        Closed(x, NewlyDeleted(x.rows, y.rows)) && WithinEveryClosed(x, NewlyDeleted(x.rows, y.rows)))
    && (forall k, c {:trigger OrphanHit(x, y, k, c)} | k in y.rows && Visible(y.rows[k]) && c in y.rows[k].cells ::
          y.rows[k].cells[c] != x.rows[k].cells[c] <==> OrphanHit(x, y, k, c))
    && (Stable(x) ==> y == x)
  }

  // ------------------------------------------------------- progress

  /** Rows well formed and no stored version above the clock. */
  ghost predicate Ready(x: Replica) {
    && Stored(x.rows) && ClockDominates(x)
    && (forall k | k in x.rows :: RowBelowClock(x.rows[k], x.clock))
  }

  ghost predicate RowBelowClock(r: Row, clock: nat) {
    && (forall c | c in r.cells :: r.cells[c].version.counter <= clock)
    && (r.deleteVersion.Some? ==> r.deleteVersion.value.counter <= clock)
  }

  /** The loop's invariant against the starting state x. */
  ghost predicate Progress(x: Replica, y: Replica) {
    && FkEffect(x, y) && Caused(x, y)
    && (Separate(x.schemas) ==> WithinEveryClosed(x, NewlyDeleted(x.rows, y.rows)))
    && (Stable(x) ==> y == x)
  }

  ghost function VisibleKeys(rows: Rows): set<RowKey> {
    set k | k in rows && !rows[k].deleted
  }

  /** Some stored delete has at least this counter. */
  ghost predicate SomeDeleteFrom(rows: Rows, counter: nat) {
    exists d :: DeletedAt(rows, d).Some? && counter <= DeletedAt(rows, d).value.counter
  }

  /** Cells of visible rows whose counter is not above all stored deletes. */
  ghost function OpenCells(rows: Rows): set<(RowKey, ColumnId)> {
    set k, c | k in rows && !rows[k].deleted && c in rows[k].cells
        && SomeDeleteFrom(rows, rows[k].cells[c].version.counter) :: (k, c)
  }

  /** The termination measure went down. */
  ghost predicate Shrunk(a: Rows, b: Rows) {
    VisibleKeys(b) < VisibleKeys(a) || (VisibleKeys(b) == VisibleKeys(a) && OpenCells(b) < OpenCells(a))
  }

  // ------------------------------------------------------- one action

  function MarkDeleted(rows: Rows, s: set<RowKey>, v: Version): Rows {
    map k | k in rows :: if k in s then rows[k].(deleted := true, deleteVersion := Some(v)) else rows[k]
  }

  function MarkTombs(tombs: Tombs, s: set<RowKey>, v: Version): Tombs {
    map k | k in tombs.Keys + s :: if k in s then v else tombs[k]
  }

  function NulledColumn(rows: Rows, s: set<RowKey>, c: ColumnId, v: Version): Rows {
    map k | k in rows :: if k in s then rows[k].(cells := rows[k].cells[c := Cell(Null, v)]) else rows[k]
  }

  function CascadeAll(x: Replica, s: set<RowKey>): Replica {
    Ticked(x).(rows := MarkDeleted(x.rows, s, NextVersion(x)), tombs := MarkTombs(x.tombs, s, NextVersion(x)))
  }

  function OrphanAll(x: Replica, s: set<RowKey>, c: ColumnId): Replica {
    Ticked(x).(rows := NulledColumn(x.rows, s, c, NextVersion(x)))
  }

  lemma MarkOne(rows: Rows, tombs: Tombs, done: set<RowKey>, k: RowKey, v: Version)
    requires k in rows && k !in done
    ensures k in MarkDeleted(rows, done, v) && MarkDeleted(rows, done, v)[k] == rows[k]
    ensures MarkDeleted(rows, done + {k}, v)
            == MarkDeleted(rows, done, v)[k := rows[k].(deleted := true, deleteVersion := Some(v))]
    ensures MarkTombs(tombs, done + {k}, v) == MarkTombs(tombs, done, v)[k := v]
  {
  }

  /** Deletes all affected rows with one version. */
  method CascadeRows(storage: StorageEngine, tombstones: TombstoneStore, s: set<RowKey>, v: Version)
    requires storage.Valid() && s <= storage.rows.Keys
    modifies storage, tombstones
    ensures storage.Valid() && storage.rows == MarkDeleted(old(storage.rows), s, v)
    ensures tombstones.entries == MarkTombs(old(tombstones.entries), s, v)
  {
    ghost var rows, tombs := storage.rows, tombstones.entries;
    var todo := s;
    assert rows == MarkDeleted(rows, s - todo, v) && tombs == MarkTombs(tombs, s - todo, v);
    hide MarkDeleted, MarkTombs;
    while todo != {}
      invariant storage.Valid() && todo <= s
      invariant storage.rows == MarkDeleted(rows, s - todo, v)
      invariant tombstones.entries == MarkTombs(tombs, s - todo, v)
    {
      var k :| k in todo;
      MarkOne(rows, tombs, s - todo, k, v);
      assert s - (todo - {k}) == s - todo + {k};
      var row := storage.rows[k];
      storage.UpsertRow(k.table, row.(deleted := true, deleteVersion := Some(v)));
      tombstones.Insert(Tombstone(k, v));
      todo := todo - {k};
    }
    assert s - todo == s;
  }

  /** Nulls the column of all affected rows with one version. */
  method OrphanRows(storage: StorageEngine, s: set<RowKey>, c: ColumnId, v: Version)
    requires storage.Valid() && s <= storage.rows.Keys
    modifies storage
    ensures storage.Valid() && storage.rows == NulledColumn(old(storage.rows), s, c, v)
  {
    var todo := s;
    while todo != {}
      invariant storage.Valid() && todo <= s <= storage.rows.Keys
      invariant storage.rows == NulledColumn(old(storage.rows), s - todo, c, v)
    {
      var k :| k in todo;
      var row := storage.rows[k];
      storage.UpsertRow(k.table, row.(cells := row.cells[c := Cell(Null, v)]));
      todo := todo - {k};
    }
    assert s - todo == s;
  }

  lemma RowStaysReady(x: Replica, y: Replica, k: RowKey)
    requires k in x.rows && k in y.rows && RowEffect(x, y, k) && x.clock <= y.clock
    requires WellFormedRow(x.rows[k]) && x.rows[k].cells != map[] && RowBelowClock(x.rows[k], x.clock)
    ensures RowBelowClock(y.rows[k], y.clock) && WellFormedRow(y.rows[k]) && y.rows[k].id == x.rows[k].id
    ensures y.rows[k].cells != map[]
  {
    hide OrphanHit;
    var c :| c in x.rows[k].cells;
    assert c in y.rows[k].cells;
  }

  lemma ProgressReady(x: Replica, y: Replica)
    requires Ready(x) && FkEffect(x, y)
    ensures Ready(y)
  {
    hide RowEffect, RowBelowClock;
    forall k | k in y.rows
      ensures RowBelowClock(y.rows[k], y.clock) && WellFormedRow(y.rows[k]) && y.rows[k].id == k.row
      ensures y.rows[k].cells != map[]
    {
      RowStaysReady(x, y, k);
    }
    assert forall p :: Seen(y.frontier, p) == if y.clock > x.clock && p == x.peer then y.clock else Seen(x.frontier, p);
  }

  lemma TickedFrame(x: Replica, y: Replica, z: Replica)
    requires WriteFrame(x, y) && ClockDominates(y)
    requires z == Ticked(y).(rows := z.rows, tombs := z.tombs, claims := z.claims)
    ensures WriteFrame(x, z) && Issued(x, z, NextVersion(y))
    ensures forall v | Issued(x, y, v) :: Issued(x, z, v)
  {
    assert Seen(y.frontier, y.peer) == y.clock;
  }

  /** Deletes are kept with their versions, so what was stale against them still is. */
  lemma OrphanHitKept(x: Replica, y: Replica, z: Replica, k: RowKey, c: ColumnId)
    requires OrphanHit(x, y, k, c)
    requires forall d | DeletedAt(y.rows, d).Some? :: DeletedAt(z.rows, d) == DeletedAt(y.rows, d)
    ensures OrphanHit(x, z, k, c)
  {
    var fk :| OrphanedBy(x, y, k, c, fk);
    assert OrphanedBy(x, z, k, c, fk);
  }

  lemma DeletesKept(y: Replica, z: Replica, s: set<RowKey>, v: Version)
    requires (z.rows == MarkDeleted(y.rows, s, v) && forall k | k in s :: k in y.rows && Visible(y.rows[k]))
             || exists c :: z.rows == NulledColumn(y.rows, s, c, v)
    ensures forall d | DeletedAt(y.rows, d).Some? :: DeletedAt(z.rows, d) == DeletedAt(y.rows, d)
  {
  }

  lemma CascadeRowEffect(x: Replica, y: Replica, s: set<RowKey>, k: RowKey)
    requires k in x.rows && k in y.rows && RowEffect(x, y, k) && Issued(x, CascadeAll(y, s), NextVersion(y))
    requires forall v | Issued(x, y, v) :: Issued(x, CascadeAll(y, s), v)
    requires forall j | j in s :: j in y.rows && Visible(y.rows[j])
    ensures RowEffect(x, CascadeAll(y, s), k)
  {
    hide OrphanHit;
    var z := CascadeAll(y, s);
    DeletesKept(y, z, s, NextVersion(y));
    forall c | c in x.rows[k].cells && OrphanHit(x, y, k, c) ensures OrphanHit(x, z, k, c) {
      OrphanHitKept(x, y, z, k, c);
    }
  }

  lemma CascadeEffect(x: Replica, y: Replica, s: set<RowKey>)
    requires Ready(y) && FkEffect(x, y) && forall k | k in s :: k in y.rows && Visible(y.rows[k])
    ensures FkEffect(x, CascadeAll(y, s))
  {
    hide RowEffect, Stored, RowBelowClock;
    var z := CascadeAll(y, s);
    TickedFrame(x, y, z);
    forall k | k in x.rows ensures RowEffect(x, z, k) {
      CascadeRowEffect(x, y, s, k);
    }
  }

  /** The cells under a Cascade key are never touched when keys are separate. */
  lemma CascadeCellKept(x: Replica, y: Replica, k: RowKey, fk: ForeignKey)
    requires FkEffect(x, y) && Separate(x.schemas) && HasFk(x.schemas, k.table, fk) && fk.policy == Cascade
    requires k in x.rows && fk.column in x.rows[k].cells
    ensures fk.column in y.rows[k].cells && y.rows[k].cells[fk.column] == x.rows[k].cells[fk.column]
  {
    assert RowEffect(x, y, k);
  }

  lemma CascadeMinimal(x: Replica, y: Replica, fk: ForeignKey, s: set<RowKey>, e: set<RowKey>)
    requires FkEffect(x, y) && Separate(x.schemas) && Closed(x, e) && NewlyDeleted(x.rows, y.rows) <= e
    requires fk.policy == Cascade && forall k | k in s :: HasFk(x.schemas, k.table, fk) && Hit(y.rows, k, fk)
    ensures NewlyDeleted(x.rows, CascadeAll(y, s).rows) <= e
  {
    forall k | k in s ensures k in e {
      assert RowEffect(x, y, k);
      CascadeCellKept(x, y, k, fk);
      assert Refers(x.rows, k, fk);
      var p := Parent(x.rows, k, fk);
      assert p == Parent(y.rows, k, fk);
      assert RowEffect(x, y, p);
      if x.rows[p].deleted {
        assert Hit(x.rows, k, fk);
      } else {
        assert p in NewlyDeleted(x.rows, y.rows);
      }
    }
  }

  lemma HitsVisible(rows: Rows, fk: ForeignKey, s: set<RowKey>)
    requires forall k | k in s :: Hit(rows, k, fk)
    ensures forall k | k in s :: k in rows && Visible(rows[k])
  {
  }

  /** The cause of an earlier delete stays, because deletes and the cells of deleted rows do. */
  lemma CauseKept(schemas: Schemas, rows: Rows, out: Rows, k: RowKey, fk: ForeignKey)
    requires CascadedBy(schemas, rows, k, fk) && k in out && out[k].cells == rows[k].cells
    requires forall d | DeletedAt(rows, d).Some? :: DeletedAt(out, d) == DeletedAt(rows, d)
    ensures CascadedBy(schemas, out, k, fk)
  {
    assert DeletedAt(rows, RowKey(fk.refTable, Display(rows[k].cells[fk.column].value))).Some?;
  }

  lemma CausesKept(x: Replica, y: Replica, z: Replica)
    requires Caused(x, y) && y.rows.Keys == z.rows.Keys
    requires forall d | DeletedAt(y.rows, d).Some? :: DeletedAt(z.rows, d) == DeletedAt(y.rows, d)
    requires forall k | k in y.rows && y.rows[k].deleted :: z.rows[k].cells == y.rows[k].cells
    requires forall k | k in NewlyDeleted(y.rows, z.rows) :: exists fk :: CascadedBy(x.schemas, z.rows, k, fk)
    ensures Caused(x, z)
  {
    hide CascadedBy, DeletedAt;
    forall k | k in NewlyDeleted(x.rows, z.rows) ensures exists fk :: CascadedBy(x.schemas, z.rows, k, fk) {
      if k in NewlyDeleted(x.rows, y.rows) {
        var fk :| CascadedBy(x.schemas, y.rows, k, fk);
        CauseKept(x.schemas, y.rows, z.rows, k, fk);
      } else {
        assert k in NewlyDeleted(y.rows, z.rows);
      }
    }
  }

  lemma CascadeCauses(x: Replica, y: Replica, fk: ForeignKey, s: set<RowKey>)
    requires Caused(x, y) && fk.policy == Cascade
    requires forall k | k in s :: HasFk(x.schemas, k.table, fk) && Hit(y.rows, k, fk)
    ensures Caused(x, CascadeAll(y, s))
  {
    hide Caused, Stale;
    var z := CascadeAll(y, s);
    HitsVisible(y.rows, fk, s);
    DeletesKept(y, z, s, NextVersion(y));
    forall k | k in NewlyDeleted(y.rows, z.rows) ensures CascadedBy(x.schemas, z.rows, k, fk) {
      assert k in s;
      CauseKept(x.schemas, y.rows, z.rows, k, fk);
    }
    CausesKept(x, y, z);
  }

  lemma OrphanCauses(x: Replica, y: Replica, c: ColumnId, s: set<RowKey>)
    requires Caused(x, y) && forall k | k in s :: k in y.rows && Visible(y.rows[k])
    ensures Caused(x, OrphanAll(y, s, c))
  {
    hide Caused, Stale;
    DeletesKept(y, OrphanAll(y, s, c), s, NextVersion(y));
    CausesKept(x, y, OrphanAll(y, s, c));
  }

  lemma CascadeStep(x: Replica, y: Replica, fk: ForeignKey, s: set<RowKey>)
    requires Ready(x) && Ready(y) && Progress(x, y) && s != {}
    requires fk.policy == Cascade && forall k | k in s :: HasFk(x.schemas, k.table, fk) && Hit(y.rows, k, fk)
    ensures Progress(x, CascadeAll(y, s)) && VisibleKeys(CascadeAll(y, s).rows) < VisibleKeys(y.rows)
  {
    hide Ready, FkEffect, Closed, Stale;
    HitsVisible(y.rows, fk, s);
    CascadeEffect(x, y, s);
    CascadeKeepsProgress(x, y, fk, s);
    CascadeShrinks(y, s);
  }

  lemma CascadeShrinks(y: Replica, s: set<RowKey>)
    requires s != {} && forall k | k in s :: k in y.rows && Visible(y.rows[k])
    ensures VisibleKeys(CascadeAll(y, s).rows) < VisibleKeys(y.rows)
  {
    var k :| k in s;
    assert k in VisibleKeys(y.rows) && k !in VisibleKeys(CascadeAll(y, s).rows);
  }

  lemma CascadeKeepsProgress(x: Replica, y: Replica, fk: ForeignKey, s: set<RowKey>)
    requires Progress(x, y) && FkEffect(x, CascadeAll(y, s)) && s != {}
    requires fk.policy == Cascade && forall k | k in s :: HasFk(x.schemas, k.table, fk) && Hit(y.rows, k, fk)
    ensures Progress(x, CascadeAll(y, s))
  {
    hide FkEffect, Closed, Hit, Separate, Caused;
    CascadeCauses(x, y, fk, s);
    if Separate(x.schemas) {
      forall e | Closed(x, e) ensures NewlyDeleted(x.rows, CascadeAll(y, s).rows) <= e {
        CascadeMinimal(x, y, fk, s, e);
      }
    }
    var k :| k in s;
    assert Hit(y.rows, k, fk);
  }

  lemma OrphanRowEffect(x: Replica, y: Replica, fk: ForeignKey, s: set<RowKey>, k: RowKey)
    requires k in x.rows && k in y.rows && RowEffect(x, y, k) && Issued(x, OrphanAll(y, s, fk.column), NextVersion(y))
    requires forall v | Issued(x, y, v) :: Issued(x, OrphanAll(y, s, fk.column), v)
    requires fk.policy == Orphan && (k in s ==> HasFk(x.schemas, k.table, fk) && Hit(y.rows, k, fk))
    ensures RowEffect(x, OrphanAll(y, s, fk.column), k)
  {
    hide OrphanHit;
    var z := OrphanAll(y, s, fk.column);
    DeletesKept(y, z, s, NextVersion(y));
    forall c | c in x.rows[k].cells && OrphanHit(x, y, k, c) ensures OrphanHit(x, z, k, c) {
      OrphanHitKept(x, y, z, k, c);
    }
    if k in s && y.rows[k].cells[fk.column] == x.rows[k].cells[fk.column] {
      FirstOrphanHit(x, y, k, fk);
      OrphanHitKept(x, y, z, k, fk.column);
    }
  }

  lemma FirstOrphanHit(x: Replica, y: Replica, k: RowKey, fk: ForeignKey)
    requires k in x.rows && HasFk(x.schemas, k.table, fk) && fk.policy == Orphan && Hit(y.rows, k, fk)
    requires fk.column in x.rows[k].cells && y.rows[k].cells[fk.column] == x.rows[k].cells[fk.column]
    ensures OrphanHit(x, y, k, fk.column)
  {
    assert OrphanedBy(x, y, k, fk.column, fk);
  }

  lemma OrphanEffect(x: Replica, y: Replica, fk: ForeignKey, s: set<RowKey>)
    requires Ready(y) && FkEffect(x, y)
    requires fk.policy == Orphan && forall k | k in s :: HasFk(x.schemas, k.table, fk) && Hit(y.rows, k, fk)
    ensures FkEffect(x, OrphanAll(y, s, fk.column))
  {
    hide RowEffect, Stored, RowBelowClock;
    var z := OrphanAll(y, s, fk.column);
    TickedFrame(x, y, z);
    forall k | k in x.rows ensures RowEffect(x, z, k) {
      OrphanRowEffect(x, y, fk, s, k);
    }
  }

  lemma DeletesBelowClock(y: Replica)
    requires Ready(y)
    ensures forall d | DeletedAt(y.rows, d).Some? :: DeletedAt(y.rows, d).value.counter <= y.clock
  {
    forall d | DeletedAt(y.rows, d).Some? ensures DeletedAt(y.rows, d).value.counter <= y.clock {
      assert RowBelowClock(y.rows[d], y.clock);
    }
  }

  /** The tick exceeds every stored delete, so a nulled cell is closed for good. */
  lemma OrphanShrinks(rows: Rows, fk: ForeignKey, s: set<RowKey>, v: Version)
    requires forall d | DeletedAt(rows, d).Some? :: DeletedAt(rows, d).value.counter < v.counter
    requires s != {} && forall k | k in s :: Hit(rows, k, fk)
    ensures VisibleKeys(NulledColumn(rows, s, fk.column, v)) == VisibleKeys(rows)
    ensures OpenCells(NulledColumn(rows, s, fk.column, v)) < OpenCells(rows)
  {
    hide Stale;
    var out := NulledColumn(rows, s, fk.column, v);
    assert forall d :: DeletedAt(out, d) == DeletedAt(rows, d);
    assert forall n :: SomeDeleteFrom(out, n) <==> SomeDeleteFrom(rows, n);
    assert !SomeDeleteFrom(rows, v.counter);
    var k :| k in s;
    HitIsCovered(rows, k, fk);
    assert (k, fk.column) in OpenCells(rows) && (k, fk.column) !in OpenCells(out);
    forall p | p in OpenCells(out) ensures p in OpenCells(rows) {
      assert out[p.0].cells[p.1] == rows[p.0].cells[p.1];
    }
  }

  lemma HitIsCovered(rows: Rows, k: RowKey, fk: ForeignKey)
    requires Hit(rows, k, fk)
    ensures SomeDeleteFrom(rows, rows[k].cells[fk.column].version.counter)
  {
    assert DeletedAt(rows, Parent(rows, k, fk)).Some?;
  }

  lemma OrphanStep(x: Replica, y: Replica, fk: ForeignKey, s: set<RowKey>)
    requires Ready(x) && Ready(y) && Progress(x, y) && s != {}
    requires fk.policy == Orphan && forall k | k in s :: HasFk(x.schemas, k.table, fk) && Hit(y.rows, k, fk)
    ensures Progress(x, OrphanAll(y, s, fk.column)) && Shrunk(y.rows, OrphanAll(y, s, fk.column).rows)
  {
    var z := OrphanAll(y, s, fk.column);
    OrphanEffect(x, y, fk, s);
    OrphanKeepsProgress(x, y, fk, s);
    DeletesBelowClock(y);
    OrphanShrinks(y.rows, fk, s, NextVersion(y));
  }

  lemma OrphanKeepsProgress(x: Replica, y: Replica, fk: ForeignKey, s: set<RowKey>)
    requires Progress(x, y) && FkEffect(x, OrphanAll(y, s, fk.column)) && s != {}
    requires fk.policy == Orphan && forall k | k in s :: HasFk(x.schemas, k.table, fk) && Hit(y.rows, k, fk)
    ensures Progress(x, OrphanAll(y, s, fk.column))
  {
    hide FkEffect, Closed, Hit, Caused;
    HitsVisible(y.rows, fk, s);
    OrphanCauses(x, y, fk.column, s);
    var z := OrphanAll(y, s, fk.column);
    assert NewlyDeleted(x.rows, z.rows) == NewlyDeleted(x.rows, y.rows);
    var k :| k in s;
    assert Hit(y.rows, k, fk);
  }

  // ------------------------------------------------------- exactness

  lemma StartsProgress(x: Replica)
    requires Ready(x)
    ensures Progress(x, x)
  {
    assert forall k | k in x.rows :: RowEffect(x, x, k);
    assert NewlyDeleted(x.rows, x.rows) == {};
  }

  lemma StableIsClosed(x: Replica, y: Replica)
    requires Ready(x) && FkEffect(x, y) && Stable(y) && Separate(x.schemas)
    ensures Closed(x, NewlyDeleted(x.rows, y.rows))
  {
    var e := NewlyDeleted(x.rows, y.rows);
    forall k: RowKey, fk | HasFk(x.schemas, k.table, fk) && fk.policy == Cascade && Refers(x.rows, k, fk)
                   && (Hit(x.rows, k, fk) || Parent(x.rows, k, fk) in e)
      ensures k in e
    {
      if k !in e {
        CascadeCellKept(x, y, k, fk);
        var p := Parent(x.rows, k, fk);
        assert RowEffect(x, y, k) && RowEffect(x, y, p) && RowBelowClock(x.rows[k], x.clock);
        assert Hit(y.rows, k, fk);
      }
    }
  }

  lemma OrphanExact(x: Replica, y: Replica, k: RowKey, c: ColumnId)
    requires FkEffect(x, y) && Stable(y) && k in y.rows && Visible(y.rows[k]) && c in y.rows[k].cells
    ensures y.rows[k].cells[c] != x.rows[k].cells[c] <==> OrphanHit(x, y, k, c)
  {
    assert RowEffect(x, y, k);
    if OrphanHit(x, y, k, c) && y.rows[k].cells[c] == x.rows[k].cells[c] {
      var fk :| OrphanedBy(x, y, k, c, fk);
      assert Hit(y.rows, k, fk);
    }
  }

  lemma ProgressIsExact(x: Replica, y: Replica)
    requires Ready(x) && Progress(x, y) && Stable(y)
    ensures FkEnforced(x, y)
  {
    if Separate(x.schemas) {
      StableIsClosed(x, y);
    }
    forall k, c | k in y.rows && Visible(y.rows[k]) && c in y.rows[k].cells
      ensures y.rows[k].cells[c] != x.rows[k].cells[c] <==> OrphanHit(x, y, k, c)
    {
      OrphanExact(x, y, k, c);
    }
  }

  /** Whatever the order of tables, the same rows are deleted. */
  lemma CascadeOrderIrrelevant(x: Replica, y: Replica, z: Replica)
    requires FkEnforced(x, y) && FkEnforced(x, z) && Separate(x.schemas)
    ensures NewlyDeleted(x.rows, y.rows) == NewlyDeleted(x.rows, z.rows)
    ensures forall k | k in x.rows :: y.rows[k].deleted == z.rows[k].deleted
  {
    forall k | k in x.rows ensures y.rows[k].deleted == z.rows[k].deleted {
      assert RowEffect(x, y, k) && RowEffect(x, z, k);
      assert k in NewlyDeleted(x.rows, y.rows) <==> k in NewlyDeleted(x.rows, z.rows);
    }
  }

  /** And the surviving rows hold the same values. */
  lemma OrphanOrderIrrelevant(x: Replica, y: Replica, z: Replica, k: RowKey, c: ColumnId)
    requires Ready(x) && FkEnforced(x, y) && FkEnforced(x, z) && Separate(x.schemas)
    requires k in y.rows && Visible(y.rows[k]) && c in y.rows[k].cells
    ensures k in z.rows && Visible(z.rows[k]) && c in z.rows[k].cells
    ensures y.rows[k].cells[c].value == z.rows[k].cells[c].value
  {
    CascadeOrderIrrelevant(x, y, z);
    assert RowEffect(x, y, k) && RowEffect(x, z, k);
    SameOrphans(x, y, z, k, c);
    SameOrphans(x, z, y, k, c);
    assert y.rows[k].cells[c] != x.rows[k].cells[c] <==> OrphanHit(x, y, k, c);
    assert z.rows[k].cells[c] != x.rows[k].cells[c] <==> OrphanHit(x, z, k, c);
  }

  lemma SameOrphans(x: Replica, y: Replica, z: Replica, k: RowKey, c: ColumnId)
    requires Ready(x) && FkEffect(x, y) && FkEffect(x, z)
    requires forall j | j in x.rows :: y.rows[j].deleted == z.rows[j].deleted
    ensures OrphanHit(x, y, k, c) ==> OrphanHit(x, z, k, c)
  {
    hide RowEffect, Stored, OrphanedBy;
    if OrphanHit(x, y, k, c) {
      var fk :| OrphanedBy(x, y, k, c, fk);
      SameOrphanedBy(x, y, z, k, c, fk);
    }
  }

  lemma SameOrphanedBy(x: Replica, y: Replica, z: Replica, k: RowKey, c: ColumnId, fk: ForeignKey)
    requires Ready(x) && FkEffect(x, y) && FkEffect(x, z)
    requires forall j | j in x.rows :: y.rows[j].deleted == z.rows[j].deleted
    requires k in x.rows && c in x.rows[k].cells && OrphanedBy(x, y, k, c, fk)
    ensures OrphanedBy(x, z, k, c, fk)
  {
    hide RowEffect, Stored;
    var p := RowKey(fk.refTable, Display(x.rows[k].cells[c].value));
    SameDelete(x, y, z, p);
    assert RowBelowClock(x.rows[k], x.clock);
  }

  /**
   Two outcomes that delete the same rows give each either its old delete or a version of this peer above the old clock.
   */
  lemma SameDelete(x: Replica, y: Replica, z: Replica, p: RowKey)
    requires p in x.rows && p in y.rows && p in z.rows && RowEffect(x, y, p) && RowEffect(x, z, p)
    requires y.rows[p].deleted && z.rows[p].deleted && y.rows[p].deleteVersion.Some?
    ensures var a := DeletedAt(y.rows, p); var b := DeletedAt(z.rows, p);
            b == a || (a.Some? && b.Some? && Issued(x, y, a.value) && Issued(x, z, b.value))
  {
  }

  // ------------------------------------------------------- which rows are deleted

  /** A Cascade reference of the row was stale from the start or names a row of d. */
  predicate CascadeReason(x: Replica, d: set<RowKey>, k: RowKey, fk: ForeignKey) {
    && HasFk(x.schemas, k.table, fk) && fk.policy == Cascade && Refers(x.rows, k, fk)
    && (Hit(x.rows, k, fk) || Parent(x.rows, k, fk) in d)
  }

  /**
   A row is deleted exactly when it had a stale Cascade reference or one of its Cascade parents is deleted with it.
   */
  lemma DeletedIff(x: Replica, y: Replica, k: RowKey)
    requires FkEnforced(x, y) && Separate(x.schemas)
    ensures var d := NewlyDeleted(x.rows, y.rows); k in d <==> exists fk :: CascadeReason(x, d, k, fk)
  {
    hide FkEffect, Hit, Refers, Stable, NewlyDeleted, OrphanHit, Caused;
    var d := NewlyDeleted(x.rows, y.rows);
    if forall fk :: !CascadeReason(x, d, k, fk) {
      WithoutReasonClosed(x, d, k);
      assert d <= d - {k};
    }
    if fk :| CascadeReason(x, d, k, fk) {
      assert k in d;
    }
  }

  lemma WithoutReasonClosed(x: Replica, d: set<RowKey>, k: RowKey)
    requires Closed(x, d) && forall fk :: !CascadeReason(x, d, k, fk)
    ensures Closed(x, d - {k})
  {
    hide Hit;
    forall j: RowKey, fk | HasFk(x.schemas, j.table, fk) && fk.policy == Cascade && Refers(x.rows, j, fk)
                           && (Hit(x.rows, j, fk) || Parent(x.rows, j, fk) in d - {k})
      ensures j in d - {k}
    {
      assert CascadeReason(x, d, j, fk);
    }
  }

  /**
   A row all of whose Cascade references are newer than any delete of their parents goes exactly when a parent goes.
   */
  lemma NewerRowDeletedIff(x: Replica, y: Replica, k: RowKey)
    requires FkEnforced(x, y) && Separate(x.schemas)
    requires forall fk | HasFk(x.schemas, k.table, fk) && fk.policy == Cascade :: !Hit(x.rows, k, fk)
    ensures k in NewlyDeleted(x.rows, y.rows) <==>
            exists fk :: HasFk(x.schemas, k.table, fk) && fk.policy == Cascade && Refers(x.rows, k, fk)
                         && Parent(x.rows, k, fk) in NewlyDeleted(x.rows, y.rows)
  {
    hide FkEnforced, Hit, Refers, NewlyDeleted, Separate;
    DeletedIff(x, y, k);
    var d := NewlyDeleted(x.rows, y.rows);
    if fk :| CascadeReason(x, d, k, fk) {
      assert HasFk(x.schemas, k.table, fk) && Parent(x.rows, k, fk) in d;
    }
    if fk :|
      HasFk(x.schemas, k.table, fk) && fk.policy == Cascade && Refers(x.rows, k, fk) && Parent(x.rows, k, fk) in d
    {
      assert CascadeReason(x, d, k, fk);
    }
  }

  // ------------------------------------------------------- in counters and peers

  /** The row that the value of k under the key fk names. */
  function Named(x: Replica, k: RowKey, fk: ForeignKey): RowKey
    requires k in x.rows && fk.column in x.rows[k].cells
  {
    RowKey(fk.refTable, Display(x.rows[k].cells[fk.column].value))
  }

  predicate GoneIn(y: Replica, k: RowKey) {
    k in y.rows && y.rows[k].deleted
  }

  /** Row k holds a value under the declared key fk, and the row it names is deleted at d. */
  predicate NamesDeleted(x: Replica, k: RowKey, fk: ForeignKey, d: Version) {
    && k.table in x.schemas && fk in x.schemas[k.table].foreignKeys && fk.refTable in x.schemas
    && k in x.rows && fk.column in x.rows[k].cells
    && GoneIn(x, Named(x, k, fk)) && x.rows[Named(x, k, fk)].deleteVersion == Some(d)
  }

  /** Among the keys of this policy only fk has a parent of k that is deleted after enforcement. */
  ghost predicate OnlyGoneParent(x: Replica, y: Replica, k: RowKey, fk: ForeignKey)
    requires k in x.rows
  {
    forall g | HasFk(x.schemas, k.table, g) && g.policy == fk.policy && g != fk && g.column in x.rows[k].cells ::
      !GoneIn(y, Named(x, k, g))
  }

  /**
   A visible row whose one deleted Cascade parent was deleted at d goes exactly when its reference has the smaller
   counter, or the same counter and peer: another peer's reference at the delete's own counter survives.
   */
  lemma CascadeByCounters(x: Replica, y: Replica, k: RowKey, fk: ForeignKey, d: Version)
    requires FkEnforced(x, y) && Separate(x.schemas)
    requires NamesDeleted(x, k, fk, d) && !x.rows[k].deleted && fk.policy == Cascade && OnlyGoneParent(x, y, k, fk)
    ensures var v := x.rows[k].cells[fk.column].version;
            y.rows[k].deleted <==> v.counter < d.counter || (v.counter == d.counter && v.peer == d.peer)
  {
    var n := NewlyDeleted(x.rows, y.rows);
    assert RowEffect(x, y, k) && RowEffect(x, y, Named(x, k, fk));
    DeletedIff(x, y, k);
    forall g | CascadeReason(x, n, k, g) ensures g == fk {
      var q := Named(x, k, g);
      if q in x.rows {
        assert RowEffect(x, y, q);
      }
      assert GoneIn(y, q);
    }
    assert CascadeReason(x, n, k, fk) <==> Hit(x.rows, k, fk);
    hide FkEnforced;
    if k in n {
      var g :| CascadeReason(x, n, k, g);
      assert g == fk;
    }
  }

  /** So a row another peer wrote at the very counter of the delete survives with its reference. */
  lemma ConcurrentChildSurvives(x: Replica, y: Replica, k: RowKey, fk: ForeignKey, d: Version)
    requires FkEnforced(x, y) && Separate(x.schemas)
    requires NamesDeleted(x, k, fk, d) && !x.rows[k].deleted && fk.policy == Cascade && OnlyGoneParent(x, y, k, fk)
    requires var v := x.rows[k].cells[fk.column].version; v.counter == d.counter && v.peer != d.peer
    ensures !y.rows[k].deleted && y.rows[k].cells[fk.column] == x.rows[k].cells[fk.column]
    ensures (forall g | g in x.schemas[k.table].foreignKeys :: g.policy != Orphan) ==>
            y.rows[k].cells == x.rows[k].cells
  {
    CascadeByCounters(x, y, k, fk, d);
    CascadeCellKept(x, y, k, fk);
    assert RowEffect(x, y, k);
  }

  /** An Orphan reference to a row deleted at d is nulled under the same condition, and otherwise kept. */
  lemma OrphanByCounters(x: Replica, y: Replica, k: RowKey, fk: ForeignKey, d: Version)
    requires FkEnforced(x, y) && NamesDeleted(x, k, fk, d) && fk.policy == Orphan
    requires k in y.rows && !y.rows[k].deleted
    requires forall g | HasFk(x.schemas, k.table, g) && g.policy == Orphan && g.column == fk.column && g != fk ::
               !GoneIn(y, Named(x, k, g))
    ensures var c := x.rows[k].cells[fk.column];
            && fk.column in y.rows[k].cells
            && if c.version.counter < d.counter || (c.version.counter == d.counter && c.version.peer == d.peer)
               then y.rows[k].cells[fk.column].value == Null && y.rows[k].cells[fk.column] != c
               else y.rows[k].cells[fk.column] == c
  {
    var c := fk.column;
    assert RowEffect(x, y, k) && RowEffect(x, y, Named(x, k, fk));
    assert y.rows[k].cells[c] != x.rows[k].cells[c] <==> OrphanHit(x, y, k, c);
    forall g | OrphanedBy(x, y, k, c, g) ensures g == fk {
      assert GoneIn(y, Named(x, k, g));
    }
    assert OrphanHit(x, y, k, c) <==> OrphanedBy(x, y, k, c, fk);
  }

  /**
   A parent deleted by the enforcement itself takes every Cascade child and nulls every surviving Orphan reference.
   */
  lemma NewDeletesTakeAll(x: Replica, y: Replica, k: RowKey, fk: ForeignKey)
    requires Ready(x) && FkEnforced(x, y) && Separate(x.schemas)
    requires HasFk(x.schemas, k.table, fk) && k in x.rows && !x.rows[k].deleted && fk.column in x.rows[k].cells
    requires Named(x, k, fk) in NewlyDeleted(x.rows, y.rows)
    ensures fk.policy == Cascade ==> k in NewlyDeleted(x.rows, y.rows)
    ensures fk.policy == Orphan && k in y.rows && !y.rows[k].deleted ==>
              fk.column in y.rows[k].cells && y.rows[k].cells[fk.column].value == Null
  {
    if fk.policy == Cascade {
      hide FkEnforced;
      DeletedIff(x, y, k);
      assert CascadeReason(x, NewlyDeleted(x.rows, y.rows), k, fk);
    } else if fk.policy == Orphan && k in y.rows && !y.rows[k].deleted {
      NewDeleteNulls(x, y, k, fk);
    }
  }

  lemma NewDeleteNulls(x: Replica, y: Replica, k: RowKey, fk: ForeignKey)
    requires Ready(x) && FkEffect(x, y) && Stable(y)
    requires HasFk(x.schemas, k.table, fk) && fk.policy == Orphan && k in x.rows && fk.column in x.rows[k].cells
    requires k in y.rows && !y.rows[k].deleted && Named(x, k, fk) in NewlyDeleted(x.rows, y.rows)
    ensures fk.column in y.rows[k].cells && y.rows[k].cells[fk.column].value == Null
  {
    assert RowEffect(x, y, k) && RowEffect(x, y, Named(x, k, fk)) && RowBelowClock(x.rows[k], x.clock);
    assert OrphanedBy(x, y, k, fk.column, fk);
    OrphanExact(x, y, k, fk.column);
  }

  const TO_GRANDPARENT := ForeignKey("p", "g", Cascade)
  const TO_PARENT := ForeignKey("q", "c", Cascade)

  /**
   A grandparent deleted at counter 5, its child written at 2, and that child's child written at 9 by another peer.
   */
  function ThreeLevels(): Replica {
    Replica("A", 9, map["A" := 9, "B" := 9],
            map[RowKey("g", "1") := Row("1", map["id" := Cell(Text("1"), Version(1, "A"))], true,
                Some(Version(5, "A"))),
                RowKey("c", "2") := Row("2", map["p" := Cell(Text("1"), Version(2, "A"))], false, None),
                RowKey("d", "3") := Row("3", map["q" := Cell(Text("2"), Version(9, "B"))], false, None)],
            map[RowKey("g", "1") := Version(5, "A")], map[],
            map["g" := TableSchema([], [], []), "c" := TableSchema([], [TO_GRANDPARENT], []),
                "d" := TableSchema([], [TO_PARENT], [])])
  }

  /** A child written after the grandparent's delete is still deleted, because its parent is. */
  lemma NewerGrandchildDeleted(y: Replica)
    requires FkEnforced(ThreeLevels(), y)
    ensures Ready(ThreeLevels()) && Separate(ThreeLevels().schemas)
    ensures Newer(ThreeLevels().rows[RowKey("d", "3")].cells["q"].version,
            ThreeLevels().rows[RowKey("g", "1")].deleteVersion.value)
    ensures forall fk :: !Hit(ThreeLevels().rows, RowKey("d", "3"), fk)
    ensures RowKey("d", "3") in y.rows && y.rows[RowKey("d", "3")].deleted
  {
    hide FkEnforced;
    ThreeLevelsReady();
    ThreeLevelsKeys();
    ThreeLevelsFacts();
    var x := ThreeLevels();
    var d := NewlyDeleted(x.rows, y.rows);
    DeletedIff(x, y, RowKey("c", "2"));
    assert CascadeReason(x, d, RowKey("c", "2"), TO_GRANDPARENT);
    DeletedIff(x, y, RowKey("d", "3"));
    assert CascadeReason(x, d, RowKey("d", "3"), TO_PARENT);
  }

  lemma ThreeLevelsReady()
    ensures Ready(ThreeLevels())
  {
    var x := ThreeLevels();
    assert "id" in x.rows[RowKey("g", "1")].cells && "p" in x.rows[RowKey("c", "2")].cells
           && "q" in x.rows[RowKey("d", "3")].cells;
  }

  lemma ThreeLevelsKeys()
    ensures var schemas := ThreeLevels().schemas;
            Separate(schemas) && HasFk(schemas, "c", TO_GRANDPARENT) && HasFk(schemas, "d", TO_PARENT)
  {
  }

  lemma ThreeLevelsFacts()
    ensures var rows := ThreeLevels().rows;
            && Hit(rows, RowKey("c", "2"), TO_GRANDPARENT) && Refers(rows, RowKey("d", "3"), TO_PARENT)
            && Parent(rows, RowKey("d", "3"), TO_PARENT) == RowKey("c", "2")
            && forall fk :: !Hit(rows, RowKey("d", "3"), fk)
  {
  }

  // ------------------------------------------------- enforcement is a local write

  lemma LocalIsReady(x: Replica)
    requires LocalInv(x)
    ensures Ready(x)
  {
    StoredVersionsBelowClock(x);
    forall k | k in x.rows ensures RowBelowClock(x.rows[k], x.clock) {
      forall c | c in x.rows[k].cells ensures x.rows[k].cells[c].version.counter <= x.clock {
        assert Get(x, CellAt(k, c)).Some?;
      }
      assert Get(x, DeleteAt(k)) == DeleteEntry(x.rows[k]);
    }
  }

  lemma EffectSlots(x: Replica, y: Replica)
    requires FkEffect(x, y) && Stored(x.rows)
    ensures SlotsWritten(x, y) && MirrorKept(x, y) && RowsGrow(x, y)
  {
    forall s ensures Get(y, s) == Get(x, s) || (Get(y, s).Some? && Issued(x, y, Get(y, s).value.version)) {
      if !s.OwnerAt? && s.key in x.rows {
        assert RowEffect(x, y, s.key);
      } else if s.TombAt? {
        assert At(y.tombs, s.key) == At(x.tombs, s.key);
      }
    }
    forall k | Get(x, DeleteAt(k)) == Get(x, TombAt(k)) ensures Get(y, DeleteAt(k)) == Get(y, TombAt(k)) {
      if k in x.rows {
        assert RowEffect(x, y, k);
      } else {
        assert At(y.tombs, k) == At(x.tombs, k);
      }
    }
    forall k | k in x.rows && x.rows[k].deleted ensures y.rows[k].deleted {
      assert RowEffect(x, y, k);
    }
  }

  /** Foreign-key enforcement only adds versions of this peer and keeps the invariant. */
  lemma FkIsWrite(x: Replica, y: Replica)
    requires LocalInv(x) && FkEffect(x, y)
    ensures LocalInv(y) && Writes(x, y)
  {
    LocalIsReady(x);
    ProgressReady(x, y);
    EffectSlots(x, y);
    assert Holders(y) by {
      forall k, c | k in y.rows && c in y.rows[k].cells && y.rows[k].cells[c].value != Null
        ensures k in x.rows && c in x.rows[k].cells && x.rows[k].cells[c].value == y.rows[k].cells[c].value
      {
        assert RowEffect(x, y, k);
      }
      SameHolders(x, y);
    }
    WritesKeepLocal(x, y);
  }
}
