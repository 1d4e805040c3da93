/** The write steps of INSERT, UPDATE and DELETE on one replica, for statements already resolved to values. */
module Sql {
  import opened Types
  import opened Frontiers
  import opened Merge
  import opened Uniqueness
  import opened Storage
  import opened Slots
  import opened Invariants

  type Values = map<ColumnId, Value>

  // ------------------------------------------------------- claim keys

  /** The claims of a row for its single-column UNIQUEs, in column order. */
  function UniqueKeys(t: TableId, columns: seq<Column>, vals: Values): seq<ClaimKey> {
    if columns == [] then []
    else
      var c := columns[|columns| - 1];
      UniqueKeys(t, columns[..|columns| - 1], vals) +
      if c.unique && !c.primaryKey && c.name in vals && vals[c.name] != Null
          then [ClaimKey(t, c.name, Display(vals[c.name]))] else []
  }

  /** The joined value of a composite constraint; None if a column is NULL or absent. */
  function CompositeValue(columns: seq<ColumnId>, vals: Values): Option<seq<string>> {
    if columns == [] then Some([])
    else
      var rest := CompositeValue(columns[..|columns| - 1], vals);
      var c := columns[|columns| - 1];
      if rest.None? || c !in vals || vals[c] == Null then None else Some(rest.value + [Display(vals[c])])
  }

  function CompositeKeys(t: TableId, composites: seq<seq<ColumnId>>, vals: Values): seq<ClaimKey> {
    if composites == [] then []
    else
      var u := composites[|composites| - 1];
      var v := CompositeValue(u, vals);
      CompositeKeys(t, composites[..|composites| - 1], vals) +
      if v.Some? then [ClaimKey(t, JoinParts(u), JoinParts(v.value))] else []
  }

  /** The column of a name: the first with that name. */
  function ColumnNamed(columns: seq<Column>, name: ColumnId): Option<Column> {
    if columns == [] then None
    else if columns[0].name == name then Some(columns[0])
    else ColumnNamed(columns[1..], name)
  }

  type Assignments = seq<(ColumnId, Value)>

  /** The single-column claims of an UPDATE, in assignment order. */
  function AssignedKeys(t: TableId, columns: seq<Column>, assigns: Assignments): seq<ClaimKey> {
    if assigns == [] then []
    else
      var (name, v) := assigns[|assigns| - 1];
      var c := ColumnNamed(columns, name);
      AssignedKeys(t, columns, assigns[..|assigns| - 1]) +
      if c.Some? && c.value.unique && v != Null then [ClaimKey(t, name, Display(v))] else []
  }

  function AssignCells(cells: map<ColumnId, Cell>, assigns: Assignments, v: Version): map<ColumnId, Cell> {
    if assigns == [] then cells
    else
      var (name, val) := assigns[|assigns| - 1];
      AssignCells(cells, assigns[..|assigns| - 1], v)[name := Cell(val, v)]
  }

  function CellValues(cells: map<ColumnId, Cell>): Values {
    map c | c in cells :: cells[c].value
  }

  function FileKeys(m: Claims, keys: seq<ClaimKey>, row: RowId, v: Version): Claims {
    if keys == [] then m else FileClaim(FileKeys(m, keys[..|keys| - 1], row, v), keys[|keys| - 1], row, v)
  }

  /** The values hold these texts in the columns, none of them NULL or absent. */
  ghost predicate HoldsTuple(vals: Values, columns: seq<ColumnId>, parts: seq<string>) {
    && |parts| == |columns|
    && forall i | 0 <= i < |columns| ::
         columns[i] in vals && vals[columns[i]] != Null && parts[i] == Display(vals[columns[i]])
  }

  lemma {:induction false} CompositeValueIs(u: seq<ColumnId>, vals: Values, parts: seq<string>)
    ensures CompositeValue(u, vals) == Some(parts) <==> HoldsTuple(vals, u, parts)
  {
    if u != [] {
      var n := |u| - 1;
      if |parts| == n + 1 {
        CompositeValueIs(u[..n], vals, parts[..n]);
        assert parts == parts[..n] + [parts[n]];
      }
      if CompositeValue(u[..n], vals).Some? {
        CompositeValueIs(u[..n], vals, CompositeValue(u[..n], vals).value);
      }
    }
  }

  /** The claim of a non-NULL value in a UNIQUE column that is not the primary key. */
  ghost predicate UniqueClaim(schema: TableSchema, t: TableId, vals: Values, key: ClaimKey) {
    exists c | c in schema.columns ::
      && c.unique && !c.primaryKey && c.name in vals && vals[c.name] != Null
      && key == ClaimKey(t, c.name, Display(vals[c.name]))
  }

  /** The claim of a complete value of a composite constraint. */
  ghost predicate TupleClaim(schema: TableSchema, t: TableId, vals: Values, key: ClaimKey) {
    exists u, parts | u in schema.composites && HoldsTuple(vals, u, parts) ::
      key == ClaimKey(t, JoinParts(u), JoinParts(parts))
  }

  /** The claim of a non-NULL value assigned to a column declared UNIQUE, the primary key included. */
  ghost predicate AssignedClaim(schema: TableSchema, t: TableId, assigns: Assignments, key: ClaimKey) {
    exists c, a | c in schema.columns && a in assigns ::
      && c.name == a.0 && c.unique && a.1 != Null && key == ClaimKey(t, a.0, Display(a.1))
  }

  lemma {:induction false} UniqueKeysAre(t: TableId, columns: seq<Column>, vals: Values, key: ClaimKey)
    ensures key in UniqueKeys(t, columns, vals) <==>
            exists c | c in columns :: c.unique && !c.primaryKey && c.name in vals && vals[c.name] != Null
                                       && key == ClaimKey(t, c.name, Display(vals[c.name]))
  {
    if columns != [] {
      var n := |columns| - 1;
      UniqueKeysAre(t, columns[..n], vals, key);
      assert columns == columns[..n] + [columns[n]];
    }
  }

  lemma {:induction false} CompositeKeysAre(t: TableId, composites: seq<seq<ColumnId>>, vals: Values, key: ClaimKey)
    ensures key in CompositeKeys(t, composites, vals) <==>
            exists u, parts | u in composites && HoldsTuple(vals, u, parts) ::
              key == ClaimKey(t, JoinParts(u), JoinParts(parts))
  {
    hide HoldsTuple;
    if composites != [] {
      var n := |composites| - 1;
      var last := composites[n];
      CompositeKeysAre(t, composites[..n], vals, key);
      assert composites == composites[..n] + [last];
      forall parts ensures CompositeValue(last, vals) == Some(parts) <==> HoldsTuple(vals, last, parts) {
        CompositeValueIs(last, vals, parts);
      }
    }
  }

  lemma {:induction false} AssignedKeysAre(t: TableId, columns: seq<Column>, assigns: Assignments, key: ClaimKey)
    requires forall i, j | 0 <= i < j < |columns| :: columns[i].name != columns[j].name
    ensures key in AssignedKeys(t, columns, assigns) <==>
            exists c, a | c in columns && a in assigns ::
              c.name == a.0 && c.unique && a.1 != Null && key == ClaimKey(t, a.0, Display(a.1))
  {
    if assigns != [] {
      var n := |assigns| - 1;
      AssignedKeysAre(t, columns, assigns[..n], key);
      assert assigns == assigns[..n] + [assigns[n]];
      forall c | c in columns && c.name == assigns[n].0 ensures ColumnNamed(columns, c.name) == Some(c) {
        ColumnFound(columns, c);
      }
      NamedIsColumn(columns, assigns[n].0);
    }
  }

  lemma {:induction false} NamedIsColumn(columns: seq<Column>, name: ColumnId)
    ensures var c := ColumnNamed(columns, name); c.Some? ==> c.value in columns && c.value.name == name
  {
    if columns != [] {
      NamedIsColumn(columns[1..], name);
    }
  }

  // ------------------------------------------------------- row writes

  /** Writes a new row: one tick, one version for all its cells and claims; a stored row of that id is replaced. */
  function Insert(x: Replica, t: TableId, id: RowId, vals: Values): Replica
    requires t in x.schemas
  {
    var v := NextVersion(x);
    var keys := UniqueKeys(t, x.schemas[t].columns, vals) + CompositeKeys(t, x.schemas[t].composites, vals);
    Ticked(x).(
      rows := x.rows[RowKey(t, id) := Row(id, map c | c in vals :: Cell(vals[c], v), false, None)],
      claims := FileKeys(x.claims, keys, id, v))
  }

  /** Writes the assigned cells of a stored row and re-files its claims. */
  function Update(x: Replica, t: TableId, id: RowId, assigns: Assignments): Replica
    requires t in x.schemas && RowKey(t, id) in x.rows
  {
    var v := NextVersion(x);
    var row := x.rows[RowKey(t, id)];
    var cells := AssignCells(row.cells, assigns, v);
    var keys := AssignedKeys(t, x.schemas[t].columns, assigns)
        + CompositeKeys(t, x.schemas[t].composites, CellValues(cells));
    Ticked(x).(
      rows := x.rows[RowKey(t, id) := row.(cells := cells)],
      claims := FileKeys(x.claims, keys, id, v))
  }

  /** Marks a stored row deleted and records its tombstone. */
  function Delete(x: Replica, t: TableId, id: RowId): Replica
    requires RowKey(t, id) in x.rows
  {
    var v := NextVersion(x);
    var k := RowKey(t, id);
    Ticked(x).(rows := x.rows[k := x.rows[k].(deleted := true, deleteVersion := Some(v))], tombs := x.tombs[k := v])
  }

  method FileColumns(r: ReplicaState, t: TableId, columns: seq<Column>, vals: Values, id: RowId, v: Version)
    modifies r.uniqueness
    ensures r.uniqueness.claims == FileKeys(old(r.uniqueness.claims), UniqueKeys(t, columns, vals), id, v)
  {
    ghost var start := r.uniqueness.claims;
    for i := 0 to |columns|
      invariant r.uniqueness.claims == FileKeys(start, UniqueKeys(t, columns[..i], vals), id, v)
    {
      assert columns[..i + 1][..i] == columns[..i];
      var c := columns[i];
      if c.unique && !c.primaryKey && c.name in vals && vals[c.name] != Null {
        var key := ClaimKey(t, c.name, Display(vals[c.name]));
        ghost var keys := UniqueKeys(t, columns[..i], vals);
        assert UniqueKeys(t, columns[..i + 1], vals) == keys + [key];
        assert (keys + [key])[..|keys|] == keys;
        var _ := r.uniqueness.File(key, id, v);
      } else {
        assert UniqueKeys(t, columns[..i + 1], vals) == UniqueKeys(t, columns[..i], vals);
      }
    }
    assert columns[..|columns|] == columns;
  }

  method FileComposites(r: ReplicaState, t: TableId, composites: seq<seq<ColumnId>>, vals: Values, id: RowId,
    v: Version, ghost filed: seq<ClaimKey>, ghost start: Claims)
    requires r.uniqueness.claims == FileKeys(start, filed, id, v)
    modifies r.uniqueness
    ensures r.uniqueness.claims == FileKeys(start, filed + CompositeKeys(t, composites, vals), id, v)
  {
    assert filed + [] == filed;
    for i := 0 to |composites|
      invariant r.uniqueness.claims == FileKeys(start, filed + CompositeKeys(t, composites[..i], vals), id, v)
    {
      assert composites[..i + 1][..i] == composites[..i];
      var value := CompositeValue(composites[i], vals);
      if value.Some? {
        var key := ClaimKey(t, JoinParts(composites[i]), JoinParts(value.value));
        ghost var keys := filed + CompositeKeys(t, composites[..i], vals);
        assert filed + CompositeKeys(t, composites[..i + 1], vals) == keys + [key];
        assert (keys + [key])[..|keys|] == keys;
        var _ := r.uniqueness.File(key, id, v);
      } else {
        assert CompositeKeys(t, composites[..i + 1], vals) == CompositeKeys(t, composites[..i], vals);
      }
    }
    assert composites[..|composites|] == composites;
  }

  method InsertRow(r: ReplicaState, t: TableId, id: RowId, vals: Values)
    requires r.Valid() && t in r.schemas
    modifies r.Repr()
    ensures r.Valid() && r.View() == Insert(old(r.View()), t, id, vals)
  {
    var schema := r.schemas[t];
    var v := r.TickWrite();
    ghost var start := r.uniqueness.claims;
    var row := Row(id, map c | c in vals :: Cell(vals[c], v), false, None);
    FileColumns(r, t, schema.columns, vals, id, v);
    FileComposites(r, t, schema.composites, vals, id, v, UniqueKeys(t, schema.columns, vals), start);
    r.storage.UpsertRow(t, row);
  }

  lemma FileOneMore(m: Claims, keys: seq<ClaimKey>, key: ClaimKey, row: RowId, v: Version)
    ensures FileKeys(m, keys + [key], row, v) == FileClaim(FileKeys(m, keys, row, v), key, row, v)
    ensures keys + [] == keys
  {
    assert (keys + [key])[..|keys|] == keys;
  }

  /** The claims and the cell of assignment number i. */
  lemma AssignOneMore(t: TableId, columns: seq<Column>, cells: map<ColumnId, Cell>, assigns: Assignments, i: nat,
    v: Version)
    requires i < |assigns|
    ensures var (name, val) := assigns[i];
            var c := ColumnNamed(columns, name);
            && AssignCells(cells, assigns[..i + 1], v) == AssignCells(cells, assigns[..i], v)[name := Cell(val, v)]
            && AssignedKeys(t, columns, assigns[..i + 1]) == AssignedKeys(t, columns, assigns[..i]) +
               if c.Some? && c.value.unique && val != Null then [ClaimKey(t, name, Display(val))] else []
  {
    assert assigns[..i + 1][..i] == assigns[..i];
  }

  /** Writes the assigned cells one by one, claiming the values of UNIQUE columns on the way. */
  method AssignRow(r: ReplicaState, t: TableId, columns: seq<Column>, cells: map<ColumnId, Cell>, assigns: Assignments,
    id: RowId, v: Version)
    returns (out: map<ColumnId, Cell>)
    modifies r.uniqueness
    ensures out == AssignCells(cells, assigns, v)
    ensures r.uniqueness.claims == FileKeys(old(r.uniqueness.claims), AssignedKeys(t, columns, assigns), id, v)
  {
    ghost var start := r.uniqueness.claims;
    out := cells;
    assert out == AssignCells(cells, assigns[..0], v)
           && start == FileKeys(start, AssignedKeys(t, columns, assigns[..0]), id, v);
    hide AssignCells, AssignedKeys, FileKeys, ColumnNamed, Display;
    for i := 0 to |assigns|
      invariant out == AssignCells(cells, assigns[..i], v)
      invariant r.uniqueness.claims == FileKeys(start, AssignedKeys(t, columns, assigns[..i]), id, v)
    {
      AssignOneMore(t, columns, cells, assigns, i, v);
      var (name, val) := assigns[i];
      var c := ColumnNamed(columns, name);
      FileOneMore(start, AssignedKeys(t, columns, assigns[..i]), ClaimKey(t, name, Display(val)), id, v);
      if c.Some? && c.value.unique && val != Null {
        var _ := r.uniqueness.File(ClaimKey(t, name, Display(val)), id, v);
      }
      out := out[name := Cell(val, v)];
    }
    assert assigns[..|assigns|] == assigns;
  }

  method UpdateRow(r: ReplicaState, t: TableId, id: RowId, assigns: Assignments)
    requires r.Valid() && t in r.schemas && RowKey(t, id) in r.storage.rows
    modifies r.Repr()
    ensures r.Valid() && r.View() == Update(old(r.View()), t, id, assigns)
  {
    var schema := r.schemas[t];
    var row := r.storage.rows[RowKey(t, id)];
    var v := r.TickWrite();
    ghost var start := r.uniqueness.claims;
    var cells := AssignRow(r, t, schema.columns, row.cells, assigns, id, v);
    FileComposites(r, t, schema.composites, CellValues(cells), id, v, AssignedKeys(t, schema.columns, assigns), start);
    r.storage.UpsertRow(t, row.(cells := cells));
  }

  method DeleteRow(r: ReplicaState, t: TableId, id: RowId)
    requires r.Valid() && RowKey(t, id) in r.storage.rows
    modifies r.Repr()
    ensures r.Valid() && r.View() == Delete(old(r.View()), t, id)
  {
    var row := r.storage.rows[RowKey(t, id)];
    var v := r.TickWrite();
    r.tombstones.Insert(Tombstone(RowKey(t, id), v));
    r.storage.UpsertRow(t, row.(deleted := true, deleteVersion := Some(v)));
  }

  // ------------------------------------------------------- statements

  datatype SqlError = TableNotFound | NoPrimaryKey | NotNullViolation(column: ColumnId) |
      PrimaryKeyViolation(row: RowId)

  /** The first problem with a row to insert, in the order the checks are made. */
  function RowError(x: Replica, schema: TableSchema, t: TableId, vals: Values): Option<SqlError> {
    var missing := MissingColumn(schema.columns, vals);
    var pk := PrimaryKeyOf(schema.columns);
    if missing.Some? then Some(NotNullViolation(missing.value))
    else if pk.None? || pk.value !in vals then Some(NoPrimaryKey)
    else
      var k := RowKey(t, Display(vals[pk.value]));
      if k in x.rows && Visible(x.rows[k]) then Some(PrimaryKeyViolation(k.row)) else None
  }

  function MissingColumn(columns: seq<Column>, vals: Values): Option<ColumnId> {
    if columns == [] then None
    else if !columns[0].nullable && (columns[0].name !in vals || vals[columns[0].name] == Null)
        then Some(columns[0].name)
    else MissingColumn(columns[1..], vals)
  }

  function PrimaryKeyOf(columns: seq<Column>): Option<ColumnId> {
    if columns == [] then None
    else if columns[0].primaryKey then Some(columns[0].name)
    else PrimaryKeyOf(columns[1..])
  }

  /** A NOT NULL column without a value. */
  predicate Lacks(c: Column, vals: Values) {
    !c.nullable && (c.name !in vals || vals[c.name] == Null)
  }

  /** The missing column is the first NOT NULL column without a value. */
  lemma {:induction false} MissingColumnIs(columns: seq<Column>, vals: Values)
    ensures MissingColumn(columns, vals) == None <==> forall c | c in columns :: !Lacks(c, vals)
    ensures MissingColumn(columns, vals).Some? ==>
              exists i | 0 <= i < |columns| ::
                columns[i].name == MissingColumn(columns, vals).value && Lacks(columns[i], vals)
                && forall j | 0 <= j < i :: !Lacks(columns[j], vals)
  {
    if columns != [] {
      MissingColumnIs(columns[1..], vals);
      assert columns == [columns[0]] + columns[1..];
      if !Lacks(columns[0], vals) && MissingColumn(columns, vals).Some? {
        var i :| 0 <= i < |columns| - 1 && columns[1..][i].name == MissingColumn(columns, vals).value
                 && Lacks(columns[1..][i], vals) && forall j | 0 <= j < i :: !Lacks(columns[1..][j], vals);
        assert columns[i + 1] == columns[1..][i];
        forall j | 0 <= j < i + 1 ensures !Lacks(columns[j], vals) {
          assert j > 0 ==> columns[j] == columns[1..][j - 1];
        }
      }
    }
  }

  /** The primary key is the first column flagged as one. */
  lemma {:induction false} PrimaryKeyIs(columns: seq<Column>, name: ColumnId)
    ensures PrimaryKeyOf(columns) == None <==> forall c | c in columns :: !c.primaryKey
    ensures PrimaryKeyOf(columns) == Some(name) <==>
              exists i | 0 <= i < |columns| ::
                columns[i].primaryKey && columns[i].name == name && forall j | 0 <= j < i :: !columns[j].primaryKey
  {
    if columns != [] {
      PrimaryKeyIs(columns[1..], name);
      assert columns == [columns[0]] + columns[1..];
      if !columns[0].primaryKey {
        if i :| 0 <= i < |columns| - 1 && columns[1..][i].primaryKey && columns[1..][i].name == name
                && forall j | 0 <= j < i :: !columns[1..][j].primaryKey {
          assert columns[i + 1] == columns[1..][i];
          forall j | 0 <= j < i + 1 ensures !columns[j].primaryKey {
            assert j > 0 ==> columns[j] == columns[1..][j - 1];
          }
        }
        if i :| 0 <= i < |columns| && columns[i].primaryKey && columns[i].name == name
                && forall j | 0 <= j < i :: !columns[j].primaryKey {
          assert columns[1..][i - 1] == columns[i];
          assert forall j | 0 <= j < i - 1 :: columns[1..][j] == columns[j + 1];
        }
      }
    }
  }

  ghost predicate AllValid(x: Replica, t: TableId, rows: seq<Values>) {
    t in x.schemas && forall vals | vals in rows :: RowError(x, x.schemas[t], t, vals) == None
  }

  function IdOf(schema: TableSchema, vals: Values): RowId {
    var pk := PrimaryKeyOf(schema.columns);
    if pk.Some? && pk.value in vals then Display(vals[pk.value]) else ""
  }

  function InsertAll(x: Replica, t: TableId, rows: seq<Values>): (y: Replica)
    requires t in x.schemas
    ensures y.schemas == x.schemas
  {
    if rows == [] then x
    else
      var vals := rows[|rows| - 1];
      Insert(InsertAll(x, t, rows[..|rows| - 1]), t, IdOf(x.schemas[t], vals), vals)
  }

  // ------------------------------------------- write steps are local writes

  /** Every slot of y is one of x or carries a version ticked on the way. */
  ghost predicate SlotsBounded(x: Replica, y: Replica) {
    forall s {:trigger Get(y, s)} | Get(y, s).Some? :: Get(y, s) == Get(x, s) || Issued(x, y, Get(y, s).value.version)
  }

  /** The invariant of y from that of x when all its versions come from x or were ticked on the way. */
  lemma LocalFromSlots(x: Replica, y: Replica)
    requires LocalInv(x) && WriteFrame(x, y) && SlotsBounded(x, y) && ClaimsGrow(x, y)
    requires Stored(y.rows) && ClaimsOrdered(y.claims) && ClaimsAgree(y.claims, y.claims) && Holders(y)
    ensures LocalInv(y)
  {
    WritesStayCovered(x, y);
    assert forall p :: Seen(x.frontier, p) <= x.clock;
    assert forall p :: Seen(y.frontier, p) == if y.clock > x.clock && p == x.peer then y.clock else Seen(x.frontier, p);
  }

  lemma WritesKeepLocal(x: Replica, y: Replica)
    requires LocalInv(x) && WriteFrame(x, y) && SlotsWritten(x, y) && ClaimsGrow(x, y)
    requires Stored(y.rows) && ClaimsOrdered(y.claims) && ClaimsAgree(y.claims, y.claims) && Holders(y)
    ensures LocalInv(y)
  {
    hide LocalInv, WriteFrame, ClaimsGrow, Stored, ClaimsOrdered, ClaimsAgree, Holders, Issued;
    assert SlotsBounded(x, y);
    LocalFromSlots(x, y);
  }

  lemma WritesStayCovered(x: Replica, y: Replica)
    requires Covered(x) && ClockDominates(x) && WriteFrame(x, y) && SlotsBounded(x, y) && ClaimsGrow(x, y)
    ensures Covered(y)
  {
    assert forall p :: Seen(x.frontier, p) <= Seen(y.frontier, p);
    assert y.clock > x.clock ==> Seen(y.frontier, x.peer) == y.clock;
    forall s | Get(y, s).Some? ensures Covers(y.frontier, Get(y, s).value.version) {
      assert Get(y, s) == Get(x, s) || Issued(x, y, Get(y, s).value.version);
    }
  }

  lemma TickFrame(x: Replica, y: Replica)
    requires ClockDominates(x)
    requires y == Ticked(x).(rows := y.rows, tombs := y.tombs, claims := y.claims)
    ensures WriteFrame(x, y) && Issued(x, y, NextVersion(x))
  {
    assert Seen(x.frontier, x.peer) == x.clock;
  }

  // claims filed with one fresh version

  ghost function FiledWith(keys: seq<ClaimKey>, row: RowId, v: Version): set<Filing> {
    set key | key in keys :: Filing(key, row, v)
  }

  lemma {:induction false} FileKeysTracks(m: Claims, keys: seq<ClaimKey>, row: RowId, v: Version, log: set<Filing>)
    requires Tracks(m, log) && Consistent(log + FiledWith(keys, row, v))
    ensures Tracks(FileKeys(m, keys, row, v), log + FiledWith(keys, row, v))
  {
    if keys == [] {
      assert log + FiledWith(keys, row, v) == log;
    } else {
      var n := |keys| - 1;
      assert keys == keys[..n] + [keys[n]];
      assert FiledWith(keys, row, v) == FiledWith(keys[..n], row, v) + {Filing(keys[n], row, v)};
      SubsetConsistent(log + FiledWith(keys[..n], row, v), log + FiledWith(keys, row, v));
      FileKeysTracks(m, keys[..n], row, v, log);
      assert log + FiledWith(keys, row, v) == log + FiledWith(keys[..n], row, v) + {Filing(keys[n], row, v)};
      FileClaimTracks(FileKeys(m, keys[..n], row, v), Filing(keys[n], row, v), log + FiledWith(keys[..n], row, v));
    }
  }

  /** Filing keys with a version above all others: claims only grow, owners change only to that version. */
  lemma FreshFilings(x: Replica, y: Replica, keys: seq<ClaimKey>, row: RowId)
    requires LocalInv(x) && y.claims == FileKeys(x.claims, keys, row, NextVersion(x)) && Issued(x, y, NextVersion(x))
    ensures ClaimsGrow(x, y) && ClaimsOrdered(y.claims) && ClaimsAgree(y.claims, y.claims)
    ensures forall key | key in keys :: Claimant(y.claims, key, row)
    ensures forall key :: OwnerEntry(y.claims, key) == OwnerEntry(x.claims, key)
                          || (key in y.claims && y.claims[key].version == NextVersion(x))
  {
    var v := NextVersion(x);
    var log := LogOf(x.claims);
    var all := log + FiledWith(keys, row, v);
    StoredVersionsBelowClock(x);
    FreshIsConsistent(x, keys, row);
    LogOfTracks(x.claims);
    FileKeysTracks(x.claims, keys, row, v, log);
    FreshClaims(x.claims, y.claims, keys, row, v);
    forall key, r | Claimant(x.claims, key, r) ensures Claimant(y.claims, key, r) {
      FiledInLog(x.claims[key], key, log);
      var u :| Filing(key, r, u) in log;
      assert Filing(key, r, u) in all;
      assert TracksKey(y.claims[key], key, all);
    }
    forall key | key in keys ensures Claimant(y.claims, key, row) {
      assert Filing(key, row, v) in all;
      assert TracksKey(y.claims[key], key, all);
    }
  }

  lemma FreshIsConsistent(x: Replica, keys: seq<ClaimKey>, row: RowId)
    requires LocalInv(x)
    ensures Consistent(LogOf(x.claims) + FiledWith(keys, row, NextVersion(x)))
  {
    StoredVersionsBelowClock(x);
    LogOfMembers(x.claims);
    LogsConsistent(x.claims, x.claims);
    forall f | f in LogOf(x.claims) ensures f.version.counter <= x.clock {
      assert f == Filing(f.key, f.row, f.version);
    }
  }

  lemma FreshClaims(m: Claims, out: Claims, keys: seq<ClaimKey>, row: RowId, v: Version)
    requires ClaimsOrdered(m) && Tracks(out, LogOf(m) + FiledWith(keys, row, v))
    requires Consistent(LogOf(m) + FiledWith(keys, row, v))
    ensures forall key, r, u | key in out && Files(out[key], r, u) :: u == v || (key in m && Files(m[key], r, u))
    ensures ClaimsOrdered(out) && ClaimsAgree(out, out)
    ensures forall key :: OwnerEntry(out, key) == OwnerEntry(m, key) || (key in out && out[key].version == v)
  {
    var all := LogOf(m) + FiledWith(keys, row, v);
    LogOfMembers(m);
    forall key, r, u | key in out && Files(out[key], r, u) ensures Filing(key, r, u) in all {
      assert TracksKey(out[key], key, all);
    }
    forall key ensures OwnerEntry(out, key) == OwnerEntry(m, key) || (key in out && out[key].version == v) {
      FreshOwner(m, out, keys, row, v, key);
    }
  }

  lemma FreshOwner(m: Claims, out: Claims, keys: seq<ClaimKey>, row: RowId, v: Version, key: ClaimKey)
    requires ClaimsOrdered(m) && Tracks(out, LogOf(m) + FiledWith(keys, row, v))
    requires Consistent(LogOf(m) + FiledWith(keys, row, v))
    ensures OwnerEntry(out, key) == OwnerEntry(m, key) || (key in out && out[key].version == v)
  {
    var all := LogOf(m) + FiledWith(keys, row, v);
    LogOfMembers(m);
    LogOfTracks(m);
    if key in m {
      assert Files(m[key], m[key].owner, m[key].version);
      assert Filing(key, m[key].owner, m[key].version) in all;
    }
    if key in out {
      var top := Filing(key, out[key].owner, out[key].version);
      assert TracksKey(out[key], key, all) && Files(out[key], out[key].owner, out[key].version);
      assert top in all;
      if top in LogOf(m) {
        assert TracksKey(m[key], key, LogOf(m));
        VersionOrder();
      }
    }
  }

  lemma {:induction false} FileKeysOther(m: Claims, keys: seq<ClaimKey>, row: RowId, v: Version, key: ClaimKey)
    requires key !in keys
    ensures Lookup(FileKeys(m, keys, row, v), key) == Lookup(m, key)
  {
    if keys != [] {
      FileKeysOther(m, keys[..|keys| - 1], row, v, key);
    }
  }

  lemma {:induction false} FileKeysSplit(m: Claims, a: seq<ClaimKey>, b: seq<ClaimKey>, row: RowId, v: Version)
    ensures FileKeys(m, a + b, row, v) == FileKeys(FileKeys(m, a, row, v), b, row, v)
  {
    if b == [] {
      assert a + b == a;
    } else {
      assert (a + b)[..|a + b| - 1] == a + b[..|b| - 1];
      FileKeysSplit(m, a, b[..|b| - 1], row, v);
    }
  }

  /** A key filed with a version above its record ends owned by the row under that version. */
  lemma {:induction false} FiledKeyOwned(m: Claims, keys: seq<ClaimKey>, row: RowId, v: Version, key: ClaimKey)
    requires key in keys && (key in m ==> Newer(v, m[key].version))
    ensures var out := FileKeys(m, keys, row, v); key in out && out[key].owner == row && out[key].version == v
  {
    VersionOrder();
    var n := |keys| - 1;
    assert keys == keys[..n] + [keys[n]];
    if key in keys[..n] {
      FiledKeyOwned(m, keys[..n], row, v, key);
    } else {
      FileKeysOther(m, keys[..n], row, v, key);
      assert Lookup(FileKeys(m, keys[..n], row, v), key) == Lookup(m, key);
    }
  }

  /** Filing keys with the next version changes exactly their records, and the row owns them afterwards. */
  lemma FiledExactly(x: Replica, keys: seq<ClaimKey>, row: RowId, key: ClaimKey)
    requires LocalInv(x)
    ensures var out := FileKeys(x.claims, keys, row, NextVersion(x));
            && (Lookup(out, key) != Lookup(x.claims, key) <==> key in keys)
            && (key in keys ==> key in out && out[key].owner == row && out[key].version == NextVersion(x))
  {
    hide LocalInv;
    if key in keys {
      if key in x.claims {
        assert Files(x.claims[key], x.claims[key].owner, x.claims[key].version);
        StoredVersionsBelowClock(x);
        assert x.claims[key].version.counter <= x.clock;
      }
      FiledKeyOwned(x.claims, keys, row, NextVersion(x), key);
    } else {
      FileKeysOther(x.claims, keys, row, NextVersion(x), key);
    }
  }

  /**
   The claims of an INSERT: exactly the records of the row's UNIQUE values and complete composite values change, and the
   row owns them.
   */
  lemma InsertClaims(x: Replica, t: TableId, id: RowId, vals: Values, key: ClaimKey)
    requires LocalInv(x) && t in x.schemas
    ensures var y := Insert(x, t, id, vals);
            && (Lookup(y.claims, key) != Lookup(x.claims, key)
                <==> UniqueClaim(x.schemas[t], t, vals, key) || TupleClaim(x.schemas[t], t, vals, key))
            && (UniqueClaim(x.schemas[t], t, vals, key) || TupleClaim(x.schemas[t], t, vals, key) ==>
                  key in y.claims && y.claims[key].owner == id && y.claims[key].version == NextVersion(x))
  {
    var keys := UniqueKeys(t, x.schemas[t].columns, vals) + CompositeKeys(t, x.schemas[t].composites, vals);
    UniqueKeysAre(t, x.schemas[t].columns, vals, key);
    CompositeKeysAre(t, x.schemas[t].composites, vals, key);
    FiledExactly(x, keys, id, key);
    hide LocalInv, UniqueKeys, CompositeKeys, FileKeys, HoldsTuple;
  }

  /**
   The claims of an UPDATE: exactly the records of the non-NULL values assigned to UNIQUE columns and of the complete
   composite values of the new row change, and the row owns them.
   */
  lemma UpdateClaims(x: Replica, t: TableId, id: RowId, assigns: Assignments, key: ClaimKey)
    requires LocalInv(x) && t in x.schemas && RowKey(t, id) in x.rows
    ensures var y := Update(x, t, id, assigns);
            var vals := CellValues(y.rows[RowKey(t, id)].cells);
            && (Lookup(y.claims, key) != Lookup(x.claims, key)
                <==> AssignedClaim(x.schemas[t], t, assigns, key) || TupleClaim(x.schemas[t], t, vals, key))
            && (AssignedClaim(x.schemas[t], t, assigns, key) || TupleClaim(x.schemas[t], t, vals, key) ==>
                  key in y.claims && y.claims[key].owner == id && y.claims[key].version == NextVersion(x))
  {
    var vals := CellValues(Update(x, t, id, assigns).rows[RowKey(t, id)].cells);
    var keys := AssignedKeys(t, x.schemas[t].columns, assigns) + CompositeKeys(t, x.schemas[t].composites, vals);
    AssignedKeysAre(t, x.schemas[t].columns, assigns, key);
    CompositeKeysAre(t, x.schemas[t].composites, vals, key);
    FiledExactly(x, keys, id, key);
    hide LocalInv, AssignedKeys, CompositeKeys, FileKeys, HoldsTuple, AssignCells;
  }

  lemma {:induction false} ColumnFound(columns: seq<Column>, c: Column)
    requires c in columns && forall i, j | 0 <= i < j < |columns| :: columns[i].name != columns[j].name
    ensures ColumnNamed(columns, c.name) == Some(c)
  {
    if columns[0].name != c.name {
      assert columns == [columns[0]] + columns[1..];
      ColumnFound(columns[1..], c);
    } else {
      var i :| 0 <= i < |columns| && columns[i] == c;
    }
  }

  /** Each assigned cell ends with its last assigned value, whose claim is filed when the column is UNIQUE. */
  lemma {:induction false} AssignedCell(cells: map<ColumnId, Cell>, t: TableId, columns: seq<Column>,
    assigns: Assignments, v: Version, c: ColumnId)
    ensures var out := AssignCells(cells, assigns, v);
            && (c in cells ==> c in out)
            && (c in out ==>
                  || (c in cells && out[c] == cells[c])
                  || (out[c].version == v
                      && (ColumnNamed(columns, c).Some? && ColumnNamed(columns, c).value.unique && out[c].value != Null
                          ==> ClaimKey(t, c, Display(out[c].value)) in AssignedKeys(t, columns, assigns))))
  {
    if assigns != [] {
      AssignedCell(cells, t, columns, assigns[..|assigns| - 1], v, c);
    }
  }

  /** The entry was kept, or written with the next version. */
  ghost predicate EntryWritten(x: Replica, before: Option<Entry>, after: Option<Entry>) {
    after == before || (after.Some? && after.value.version == NextVersion(x))
  }

  /** A row write at key k: other rows, tombstones and claims as given. */
  lemma RowWriteSlots(x: Replica, y: Replica, k: RowKey, row: Row)
    requires k in x.rows && y == Ticked(x).(rows := x.rows[k := row], tombs := y.tombs, claims := y.claims)
    requires forall c :: EntryWritten(x, CellEntry(x.rows[k], c), CellEntry(row, c))
    requires EntryWritten(x, DeleteEntry(x.rows[k]), DeleteEntry(row))
    requires y.tombs == x.tombs || y.tombs == x.tombs[k := NextVersion(x)]
    requires forall key :: OwnerWritten(x, y, key)
    ensures SlotsWritten(x, y)
  {
    hide CellEntry, DeleteEntry;
    forall s ensures Get(y, s) == Get(x, s) || (Get(y, s).Some? && Issued(x, y, Get(y, s).value.version)) {
      if s.OwnerAt? {
        assert OwnerWritten(x, y, s.claim);
      } else if s.CellAt? && s.key == k {
        assert EntryWritten(x, CellEntry(x.rows[k], s.column), CellEntry(row, s.column));
      }
    }
  }

  /** The owner of the key was kept, or filed with the next version. */
  ghost predicate OwnerWritten(x: Replica, y: Replica, key: ClaimKey) {
    OwnerEntry(y.claims, key) == OwnerEntry(x.claims, key)
        || (key in y.claims && y.claims[key].version == NextVersion(x))
  }

  /** An INSERT keeps the invariant of the replica whether or not the id was stored. */
  lemma InsertKeepsLocal(x: Replica, t: TableId, id: RowId, vals: Values)
    requires LocalInv(x) && t in x.schemas && vals != map[]
    ensures LocalInv(Insert(x, t, id, vals)) && ClaimsGrow(x, Insert(x, t, id, vals))
    ensures forall key :: OwnerWritten(x, Insert(x, t, id, vals), key)
  {
    hide Covered, Holders, Stored, UniqueKeys, CompositeKeys, FileKeys, SlotsBounded;
    var y := Insert(x, t, id, vals);
    var k := RowKey(t, id);
    var keys := UniqueKeys(t, x.schemas[t].columns, vals) + CompositeKeys(t, x.schemas[t].composites, vals);
    TickFrame(x, y);
    FreshFilings(x, y, keys, id);
    InsertBounded(x, y, k, vals);
    InsertHolders(x, y, k, vals, keys);
    LocalFromSlots(x, y);
  }

  lemma InsertBounded(x: Replica, y: Replica, k: RowKey, vals: Values)
    requires Stored(x.rows) && vals != map[] && Issued(x, y, NextVersion(x))
    requires y.tombs == x.tombs && forall key :: OwnerWritten(x, y, key)
    requires y.rows == x.rows[k := Row(k.row, map c | c in vals :: Cell(vals[c], NextVersion(x)), false, None)]
    ensures Stored(y.rows) && SlotsBounded(x, y)
  {
    var c :| c in vals;
    assert c in y.rows[k].cells;
    forall s | Get(y, s).Some? ensures Get(y, s) == Get(x, s) || Issued(x, y, Get(y, s).value.version) {
      if s.OwnerAt? {
        assert OwnerWritten(x, y, s.claim);
      }
    }
  }

  /** Further inserts extend local writes as long as their ids were not stored at the start. */
  lemma InsertExtends(x: Replica, mid: Replica, t: TableId, id: RowId, vals: Values)
    requires Writes(x, mid) && LocalInv(mid) && t in mid.schemas && vals != map[]
    requires RowKey(t, id) !in x.rows && (RowKey(t, id) in mid.rows ==> mid.rows[RowKey(t, id)].deleteVersion == None)
    ensures Writes(x, Insert(mid, t, id, vals))
  {
    hide Covered, Holders, Stored, UniqueKeys, CompositeKeys, FileKeys, SlotsWritten, MirrorKept, RowsGrow, ClaimsGrow,
        OwnerWritten;
    var y := Insert(mid, t, id, vals);
    TickFrame(mid, y);
    InsertKeepsLocal(mid, t, id, vals);
    InsertSlots(x, mid, y, RowKey(t, id), vals);
    ClaimsGrowOn(x, mid, y);
  }

  lemma ClaimsGrowOn(x: Replica, mid: Replica, y: Replica)
    requires ClaimsGrow(x, mid) && ClaimsGrow(mid, y) && mid.peer == x.peer && x.clock <= mid.clock <= y.clock
    ensures ClaimsGrow(x, y)
  {
  }

  lemma InsertSlots(x: Replica, mid: Replica, y: Replica, k: RowKey, vals: Values)
    requires SlotsWritten(x, mid) && MirrorKept(x, mid) && RowsGrow(x, mid) && mid.peer == x.peer
    requires x.clock <= mid.clock
    requires k !in x.rows && (k in mid.rows ==> mid.rows[k].deleteVersion == None)
    requires y == Ticked(mid).(rows := y.rows, claims := y.claims) && forall key :: OwnerWritten(mid, y, key)
    requires y.rows == mid.rows[k := Row(k.row, map c | c in vals :: Cell(vals[c], NextVersion(mid)), false, None)]
    ensures SlotsWritten(x, y) && MirrorKept(x, y) && RowsGrow(x, y)
  {
    hide SlotsWritten, MirrorKept;
    InsertSlotsWritten(x, mid, y, k, vals);
    InsertMirror(x, mid, y, k, vals);
  }

  lemma InsertSlotsWritten(x: Replica, mid: Replica, y: Replica, k: RowKey, vals: Values)
    requires SlotsWritten(x, mid) && mid.peer == x.peer && x.clock <= mid.clock && k !in x.rows
    requires y == Ticked(mid).(rows := y.rows, claims := y.claims) && forall key :: OwnerWritten(mid, y, key)
    requires y.rows == mid.rows[k := Row(k.row, map c | c in vals :: Cell(vals[c], NextVersion(mid)), false, None)]
    ensures SlotsWritten(x, y)
  {
    forall s ensures Get(y, s) == Get(x, s) || (Get(y, s).Some? && Issued(x, y, Get(y, s).value.version)) {
      assert Get(mid, s) == Get(x, s) || (Get(mid, s).Some? && Issued(x, mid, Get(mid, s).value.version));
      if s.OwnerAt? {
        assert OwnerWritten(mid, y, s.claim);
      } else if s.key == k && !s.TombAt? {
        assert Get(x, s) == None;
      }
    }
  }

  lemma InsertMirror(x: Replica, mid: Replica, y: Replica, k: RowKey, vals: Values)
    requires MirrorKept(x, mid) && y.tombs == mid.tombs && (k in mid.rows ==> mid.rows[k].deleteVersion == None)
    requires y.rows == mid.rows[k := Row(k.row, map c | c in vals :: Cell(vals[c], NextVersion(mid)), false, None)]
    ensures MirrorKept(x, y)
  {
    forall j | Get(x, DeleteAt(j)) == Get(x, TombAt(j)) ensures Get(y, DeleteAt(j)) == Get(y, TombAt(j)) {
      assert Get(mid, DeleteAt(j)) == Get(mid, TombAt(j));
    }
  }

  /**
   An accepted INSERT keeps the invariant; it is a local write exactly when the id was not stored, not even deleted.
   */
  lemma InsertIsWrite(x: Replica, t: TableId, id: RowId, vals: Values)
    requires LocalInv(x) && t in x.schemas && vals != map[]
    requires RowKey(t, id) in x.rows ==> x.rows[RowKey(t, id)].deleted
    ensures LocalInv(Insert(x, t, id, vals))
    ensures Writes(x, Insert(x, t, id, vals)) <==> RowKey(t, id) !in x.rows
  {
    hide LocalInv, WriteFrame, SlotsWritten, MirrorKept, ClaimsGrow, OwnerWritten;
    InsertKeepsLocal(x, t, id, vals);
    WritesReflexive(x);
    if RowKey(t, id) !in x.rows {
      InsertExtends(x, x, t, id, vals);
    } else {
      assert !RowsGrow(x, Insert(x, t, id, vals));
    }
  }

  lemma {:induction false} InsertAllKeepsLocal(x: Replica, t: TableId, rows: seq<Values>)
    requires LocalInv(x) && t in x.schemas && forall vals | vals in rows :: vals != map[]
    ensures LocalInv(InsertAll(x, t, rows))
    ensures forall k :: k in InsertAll(x, t, rows).rows <==> k in x.rows || Inserted(x, t, rows, k)
    ensures forall k | Inserted(x, t, rows, k) ::
            InsertAll(x, t, rows).rows[k].deleteVersion == None && !InsertAll(x, t, rows).rows[k].deleted
  {
    hide LocalInv, ClaimsGrow, OwnerWritten;
    if rows != [] {
      var n := |rows| - 1;
      var mid := InsertAll(x, t, rows[..n]);
      assert rows == rows[..n] + [rows[n]] && rows[n] in rows;
      assert forall vals | vals in rows[..n] :: vals in rows;
      InsertAllKeepsLocal(x, t, rows[..n]);
      InsertKeepsLocal(mid, t, IdOf(x.schemas[t], rows[n]), rows[n]);
      forall k ensures Inserted(x, t, rows, k) <==>
          Inserted(x, t, rows[..n], k) || k == RowKey(t, IdOf(x.schemas[t], rows[n])) {
      }
    }
  }

  ghost predicate Inserted(x: Replica, t: TableId, rows: seq<Values>, k: RowKey)
    requires t in x.schemas
  {
    exists vals | vals in rows :: k == RowKey(t, IdOf(x.schemas[t], vals))
  }

  lemma {:induction false} InsertAllExtends(x: Replica, t: TableId, rows: seq<Values>)
    requires LocalInv(x) && t in x.schemas && forall vals | vals in rows :: vals != map[]
    requires forall k | Inserted(x, t, rows, k) :: k !in x.rows
    ensures Writes(x, InsertAll(x, t, rows))
  {
    hide LocalInv, Writes, IdOf;
    if rows == [] {
      WritesReflexive(x);
    } else {
      var n := |rows| - 1;
      var mid := InsertAll(x, t, rows[..n]);
      assert rows == rows[..n] + [rows[n]] && rows[n] in rows;
      forall k | Inserted(x, t, rows[..n], k) ensures Inserted(x, t, rows, k) {
        var vals :| vals in rows[..n] && k == RowKey(t, IdOf(x.schemas[t], vals));
        assert vals in rows;
      }
      assert forall vals | vals in rows[..n] :: vals in rows;
      InsertAllExtends(x, t, rows[..n]);
      InsertAllKeepsLocal(x, t, rows[..n]);
      assert Inserted(x, t, rows, RowKey(t, IdOf(x.schemas[t], rows[n])));
      InsertExtends(x, mid, t, IdOf(x.schemas[t], rows[n]), rows[n]);
    }
  }

  /** An accepted multi-row INSERT keeps the invariant; it is a local write exactly when no id of it was stored. */
  lemma InsertAllIsWrite(x: Replica, t: TableId, rows: seq<Values>)
    requires LocalInv(x) && AllValid(x, t, rows)
    ensures LocalInv(InsertAll(x, t, rows))
    ensures forall k :: k in InsertAll(x, t, rows).rows <==> k in x.rows || Inserted(x, t, rows, k)
    ensures Writes(x, InsertAll(x, t, rows)) <==> forall k | Inserted(x, t, rows, k) :: k !in x.rows
  {
    hide LocalInv, WriteFrame, SlotsWritten, MirrorKept, ClaimsGrow, IdOf;
    AcceptedRows(x, t, rows);
    InsertAllKeepsLocal(x, t, rows);
    if forall k | Inserted(x, t, rows, k) :: k !in x.rows {
      InsertAllExtends(x, t, rows);
    } else {
      var k :| Inserted(x, t, rows, k) && k in x.rows;
      assert x.rows[k].deleted && !InsertAll(x, t, rows).rows[k].deleted;
      assert !RowsGrow(x, InsertAll(x, t, rows));
    }
  }

  /** Rows that pass the checks have a column, and their ids are not stored visibly. */
  lemma AcceptedRows(x: Replica, t: TableId, rows: seq<Values>)
    requires AllValid(x, t, rows)
    ensures forall vals | vals in rows :: vals != map[]
    ensures forall k | Inserted(x, t, rows, k) && k in x.rows :: x.rows[k].deleted
  {
    forall vals | vals in rows ensures vals != map[] {
      assert RowError(x, x.schemas[t], t, vals) == None;
    }
    forall k | Inserted(x, t, rows, k) && k in x.rows ensures x.rows[k].deleted {
      var vals :| vals in rows && k == RowKey(t, IdOf(x.schemas[t], vals));
      assert RowError(x, x.schemas[t], t, vals) == None;
    }
  }

  /** Where an INSERT of several rows leaves a row: as given by its last mention, under the tick of that mention. */
  lemma {:induction false} InsertAllRows(x: Replica, t: TableId, rows: seq<Values>, i: nat)
    requires t in x.schemas && i < |rows|
    requires forall j | i < j < |rows| :: IdOf(x.schemas[t], rows[j]) != IdOf(x.schemas[t], rows[i])
    ensures var y := InsertAll(x, t, rows);
            var k := RowKey(t, IdOf(x.schemas[t], rows[i]));
            && k in y.rows && CellValues(y.rows[k].cells) == rows[i] && !y.rows[k].deleted
            && (forall c | c in y.rows[k].cells :: y.rows[k].cells[c].version == Version(x.clock + i + 1, x.peer))
  {
    hide IdOf, FileKeys;
    var n := |rows| - 1;
    InsertAllClock(x, t, rows[..n]);
    if i < n {
      InsertAllRows(x, t, rows[..n], i);
    } else {
      assert CellValues(map c | c in rows[n] :: Cell(rows[n][c], NextVersion(InsertAll(x, t, rows[..n])))) == rows[n];
    }
  }

  lemma {:induction false} InsertAllClock(x: Replica, t: TableId, rows: seq<Values>)
    requires t in x.schemas
    ensures InsertAll(x, t, rows).clock == x.clock + |rows| && InsertAll(x, t, rows).peer == x.peer
  {
    if rows != [] {
      InsertAllClock(x, t, rows[..|rows| - 1]);
    }
  }

  /** No other row is touched. */
  lemma {:induction false} InsertAllOthers(x: Replica, t: TableId, rows: seq<Values>, k: RowKey)
    requires t in x.schemas && !Inserted(x, t, rows, k)
    ensures k in InsertAll(x, t, rows).rows <==> k in x.rows
    ensures k in x.rows ==> InsertAll(x, t, rows).rows[k] == x.rows[k]
  {
    hide IdOf, FileKeys;
    if rows != [] {
      var n := |rows| - 1;
      assert rows == rows[..n] + [rows[n]] && rows[n] in rows;
      assert forall vals | vals in rows[..n] :: vals in rows;
      InsertAllOthers(x, t, rows[..n], k);
    }
  }

  /** When several rows of one statement hold a UNIQUE or composite value, the last of them owns it. */
  lemma {:induction false} LastRowOwns(x: Replica, t: TableId, rows: seq<Values>, i: nat, key: ClaimKey)
    requires LocalInv(x) && t in x.schemas && i < |rows| && forall vals | vals in rows :: vals != map[]
    requires UniqueClaim(x.schemas[t], t, rows[i], key) || TupleClaim(x.schemas[t], t, rows[i], key)
    requires forall j | i < j < |rows| ::
               !UniqueClaim(x.schemas[t], t, rows[j], key) && !TupleClaim(x.schemas[t], t, rows[j], key)
    ensures var y := InsertAll(x, t, rows);
            key in y.claims && y.claims[key].owner == IdOf(x.schemas[t], rows[i])
            && y.claims[key].version == Version(x.clock + i + 1, x.peer)
  {
    hide LocalInv, Insert, UniqueClaim, TupleClaim, IdOf;
    var n := |rows| - 1;
    var mid := InsertAll(x, t, rows[..n]);
    assert forall vals | vals in rows[..n] :: vals in rows;
    InsertAllKeepsLocal(x, t, rows[..n]);
    InsertAllClock(x, t, rows[..n]);
    InsertClaims(mid, t, IdOf(x.schemas[t], rows[n]), rows[n], key);
    if i < n {
      LastRowOwns(x, t, rows[..n], i, key);
      assert Lookup(InsertAll(x, t, rows).claims, key) == Lookup(mid.claims, key);
    }
  }

  /** An UPDATE gives a column its last assigned value under the new version. */
  lemma {:induction false} AssignedLast(cells: map<ColumnId, Cell>, assigns: Assignments, v: Version, i: nat)
    requires i < |assigns| && forall j | i < j < |assigns| :: assigns[j].0 != assigns[i].0
    ensures var out := AssignCells(cells, assigns, v);
            assigns[i].0 in out && out[assigns[i].0] == Cell(assigns[i].1, v)
  {
    var n := |assigns| - 1;
    if i < n {
      assert assigns[n].0 != assigns[i].0;
      AssignedLast(cells, assigns[..n], v, i);
    }
  }

  /** It keeps the columns it does not assign. */
  lemma {:induction false} UnassignedKept(cells: map<ColumnId, Cell>, assigns: Assignments, v: Version, c: ColumnId)
    requires forall a | a in assigns :: a.0 != c
    ensures var out := AssignCells(cells, assigns, v);
            (c in out <==> c in cells) && (c in cells ==> out[c] == cells[c])
  {
    if assigns != [] {
      var n := |assigns| - 1;
      assert assigns == assigns[..n] + [assigns[n]];
      UnassignedKept(cells, assigns[..n], v, c);
    }
  }

  lemma InsertHolders(x: Replica, y: Replica, k: RowKey, vals: Values, keys: seq<ClaimKey>)
    requires Holders(x) && k.table in x.schemas && y.schemas == x.schemas
    requires k in y.rows && y.rows == x.rows[k := y.rows[k]] && CellValues(y.rows[k].cells) == vals
    requires UniqueKeys(k.table, x.schemas[k.table].columns, vals) <= keys
    requires forall key | key in keys :: Claimant(y.claims, key, k.row)
    requires forall key, r | Claimant(x.claims, key, r) :: Claimant(y.claims, key, r)
    ensures Holders(y)
  {
    forall j, c | j in y.rows && c in y.rows[j].cells && UniqueColumn(y.schemas, j.table, c)
        && y.rows[j].cells[c].value != Null
      ensures Claimant(y.claims, ClaimFor(j, c, y.rows[j].cells[c].value), j.row)
    {
      if j == k {
        assert vals[c] == y.rows[k].cells[c].value;
        var col :| col in x.schemas[k.table].columns && col.name == c && col.unique && !col.primaryKey;
        UniqueKeysAre(k.table, x.schemas[k.table].columns, vals, ClaimFor(k, c, vals[c]));
        assert ClaimFor(k, c, vals[c]) in keys;
      } else {
        assert Claimant(x.claims, ClaimFor(j, c, x.rows[j].cells[c].value), j.row);
      }
    }
  }

  /** Updating a visible row is a local write. */
  lemma UpdateIsWrite(x: Replica, t: TableId, id: RowId, assigns: Assignments)
    requires LocalInv(x) && t in x.schemas && RowKey(t, id) in x.rows
    ensures LocalInv(Update(x, t, id, assigns)) && Writes(x, Update(x, t, id, assigns))
  {
    var y := Update(x, t, id, assigns);
    var k := RowKey(t, id);
    var v := NextVersion(x);
    var keys := AssignedKeys(t, x.schemas[t].columns, assigns)
        + CompositeKeys(t, x.schemas[t].composites, CellValues(y.rows[k].cells));
    TickFrame(x, y);
    FreshFilings(x, y, keys, id);
    forall c
      ensures CellEntry(y.rows[k], c) == CellEntry(x.rows[k], c)
              || (c in y.rows[k].cells && y.rows[k].cells[c].version == v)
      ensures c in x.rows[k].cells ==> c in y.rows[k].cells
    {
      AssignedCell(x.rows[k].cells, t, x.schemas[t].columns, assigns, v, c);
    }
    RowWriteSlots(x, y, k, y.rows[k]);
    UpdateHolders(x, y, k, assigns, keys);
    UpdateStored(x, y, k);
    WritesKeepLocal(x, y);
  }

  lemma UpdateStored(x: Replica, y: Replica, k: RowKey)
    requires Stored(x.rows) && k in x.rows && y.tombs == x.tombs && k in y.rows
    requires y.rows == x.rows[k := x.rows[k].(cells := y.rows[k].cells)]
    requires forall c | c in x.rows[k].cells :: c in y.rows[k].cells
    ensures Stored(y.rows) && MirrorKept(x, y) && RowsGrow(x, y)
  {
    var c :| c in x.rows[k].cells;
    assert c in y.rows[k].cells;
    forall j | Get(x, DeleteAt(j)) == Get(x, TombAt(j)) ensures Get(y, DeleteAt(j)) == Get(y, TombAt(j)) {
    }
  }

  lemma UpdateHolders(x: Replica, y: Replica, k: RowKey, assigns: Assignments, keys: seq<ClaimKey>)
    requires Holders(x) && WellFormedSchemas(x.schemas) && k.table in x.schemas && y.schemas == x.schemas && k in x.rows
    requires k in y.rows
    requires y.rows == x.rows[k := y.rows[k]]
    requires y.rows[k].cells == AssignCells(x.rows[k].cells, assigns, NextVersion(x))
    requires AssignedKeys(k.table, x.schemas[k.table].columns, assigns) <= keys
    requires forall key | key in keys :: Claimant(y.claims, key, k.row)
    requires forall key, r | Claimant(x.claims, key, r) :: Claimant(y.claims, key, r)
    ensures Holders(y)
  {
    forall j, c | j in y.rows && c in y.rows[j].cells && UniqueColumn(y.schemas, j.table, c)
        && y.rows[j].cells[c].value != Null
      ensures Claimant(y.claims, ClaimFor(j, c, y.rows[j].cells[c].value), j.row)
    {
      if j == k {
        var columns := x.schemas[k.table].columns;
        var col :| col in columns && col.name == c && col.unique && !col.primaryKey;
        ColumnFound(columns, col);
        AssignedCell(x.rows[k].cells, k.table, columns, assigns, NextVersion(x), c);
        if c in x.rows[k].cells && y.rows[k].cells[c] == x.rows[k].cells[c] {
          assert Claimant(x.claims, ClaimFor(k, c, x.rows[k].cells[c].value), k.row);
        } else {
          assert ClaimFor(k, c, y.rows[k].cells[c].value) in keys;
        }
      } else {
        assert Claimant(x.claims, ClaimFor(j, c, x.rows[j].cells[c].value), j.row);
      }
    }
  }

  /** Deleting a row is a local write that keeps tombstones mirrored. */
  lemma DeleteIsWrite(x: Replica, t: TableId, id: RowId)
    requires LocalInv(x) && RowKey(t, id) in x.rows
    ensures LocalInv(Delete(x, t, id)) && Writes(x, Delete(x, t, id))
  {
    hide Covered, MirrorKept, RowsGrow, SlotsWritten, Holders;
    var y := Delete(x, t, id);
    TickFrame(x, y);
    DeleteSlots(x, RowKey(t, id));
    SameHolders(x, y);
    WritesKeepLocal(x, y);
  }

  lemma DeleteSlots(x: Replica, k: RowKey)
    requires k in x.rows && ClockDominates(x)
    ensures var y := Delete(x, k.table, k.row); SlotsWritten(x, y) && MirrorKept(x, y) && RowsGrow(x, y)
  {
    var y := Delete(x, k.table, k.row);
    TickFrame(x, y);
    RowWriteSlots(x, y, k, y.rows[k]);
    forall j | Get(x, DeleteAt(j)) == Get(x, TombAt(j)) ensures Get(y, DeleteAt(j)) == Get(y, TombAt(j)) {
    }
  }

  /** Holders survive when cells are kept or set to NULL and claims stay. */
  lemma SameHolders(x: Replica, y: Replica)
    requires Holders(x) && y.schemas == x.schemas && y.claims == x.claims
    requires forall k, c | k in y.rows && c in y.rows[k].cells && y.rows[k].cells[c].value != Null ::
               k in x.rows && c in x.rows[k].cells && x.rows[k].cells[c].value == y.rows[k].cells[c].value
    ensures Holders(y)
  {
    forall k, c | k in y.rows && c in y.rows[k].cells && UniqueColumn(y.schemas, k.table, c)
        && y.rows[k].cells[c].value != Null
      ensures Claimant(y.claims, ClaimFor(k, c, y.rows[k].cells[c].value), k.row)
    {
      assert Claimant(x.claims, ClaimFor(k, c, x.rows[k].cells[c].value), k.row);
    }
  }

  // ------------------------------------------------------- id reuse

  /** An accepted INSERT keeps what the store knew, delete-wins included, exactly when the id was not stored. */
  lemma InsertMonotoneIffFresh(x: Replica, t: TableId, id: RowId, vals: Values)
    requires t in x.schemas && Stored(x.rows) && (RowKey(t, id) in x.rows ==> !Visible(x.rows[RowKey(t, id)]))
    ensures TableBelow(x.rows, Insert(x, t, id, vals).rows) <==> RowKey(t, id) !in x.rows
  {
    var y := Insert(x, t, id, vals);
    if RowKey(t, id) in x.rows {
      assert x.rows[RowKey(t, id)].deleted && !y.rows[RowKey(t, id)].deleted;
    }
  }
}
