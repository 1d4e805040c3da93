/** INSERT, UPDATE and DELETE as whole statements, with index maintenance, and as steps of the world. */
module Statements {
  import opened Types
  import opened Merge
  import opened Storage
  import opened Invariants
  import opened World
  import opened Sql
  import opened UniqueRows
  import opened Engine
  import opened Index

  // ------------------------------------------------------- INSERT

  /** The first problem among the rows, in their order. */
  function FirstError(x: Replica, t: TableId, rows: seq<Values>): Option<SqlError>
    requires t in x.schemas
  {
    if rows == [] then None
    else
      var e := RowError(x, x.schemas[t], t, rows[0]);
      if e.Some? then e else FirstError(x, t, rows[1..])
  }

  function InsertError(x: Replica, t: TableId, rows: seq<Values>): Option<SqlError> {
    if t in x.schemas then FirstError(x, t, rows) else Some(TableNotFound)
  }

  lemma {:induction false} FirstErrorAt(x: Replica, t: TableId, rows: seq<Values>, i: nat)
    requires t in x.schemas && i <= |rows|
    requires forall vals | vals in rows[..i] :: RowError(x, x.schemas[t], t, vals) == None
    ensures FirstError(x, t, rows) == FirstError(x, t, rows[i..])
  {
    if i > 0 {
      assert rows[..i][0] == rows[0] && rows[0] in rows[..i];
      assert rows[1..][..i - 1] == rows[..i][1..] && rows[1..][i - 1..] == rows[i..];
      FirstErrorAt(x, t, rows[1..], i - 1);
    }
  }

  /** No error exactly when every row passes the checks. */
  lemma {:induction false} NoErrorIffValid(x: Replica, t: TableId, rows: seq<Values>)
    ensures InsertError(x, t, rows) == None <==> AllValid(x, t, rows)
  {
    if t in x.schemas && rows != [] {
      NoErrorIffValid(x, t, rows[1..]);
      assert rows == [rows[0]] + rows[1..];
    }
  }

  /** Column i is the first one flagged as primary key. */
  ghost predicate FirstKey(columns: seq<Column>, i: int) {
    0 <= i < |columns| && columns[i].primaryKey && forall j | 0 <= j < i :: !columns[j].primaryKey
  }

  ghost predicate AllPresent(columns: seq<Column>, vals: Values) {
    forall c | c in columns && !c.nullable :: c.name in vals && vals[c.name] != Null
  }

  /**
   What a row needs to be inserted: all NOT NULL values, the first primary key column, and no visible row of its id.
   */
  ghost predicate Insertable(x: Replica, t: TableId, vals: Values)
    requires t in x.schemas
  {
    var columns := x.schemas[t].columns;
    && AllPresent(columns, vals)
    && exists i | FirstKey(columns, i) ::
         && columns[i].name in vals
         && var k := RowKey(t, Display(vals[columns[i].name])); k in x.rows ==> x.rows[k].deleted
  }

  /** An INSERT is accepted exactly when its table is known and each of its rows can be inserted. */
  lemma AcceptedIff(x: Replica, t: TableId, rows: seq<Values>)
    ensures InsertError(x, t, rows) == None <==> t in x.schemas && forall vals | vals in rows :: Insertable(x, t, vals)
  {
    NoErrorIffValid(x, t, rows);
    hide InsertError, Insertable, RowError;
    if t in x.schemas {
      forall vals | vals in rows ensures RowError(x, x.schemas[t], t, vals) == None <==> Insertable(x, t, vals) {
        RowErrorIs(x, t, vals);
      }
    }
  }

  /**
   Which problem of a row is reported: the first NOT NULL column without a value, else a missing key, else the visible
   row of the same id.
   */
  lemma RowErrorIs(x: Replica, t: TableId, vals: Values)
    requires t in x.schemas
    ensures var columns := x.schemas[t].columns;
            match RowError(x, x.schemas[t], t, vals)
            case None => Insertable(x, t, vals)
            case Some(NotNullViolation(c)) =>
              && !AllPresent(columns, vals)
              && exists i | 0 <= i < |columns| ::
                   columns[i].name == c && Lacks(columns[i], vals) && forall j | 0 <= j < i :: !Lacks(columns[j], vals)
            case Some(NoPrimaryKey) =>
              AllPresent(columns, vals) && forall i | FirstKey(columns, i) :: columns[i].name !in vals
            case Some(PrimaryKeyViolation(row)) =>
              && AllPresent(columns, vals) && RowKey(t, row) in x.rows && !x.rows[RowKey(t, row)].deleted
              && exists i | FirstKey(columns, i) :: columns[i].name in vals && Display(vals[columns[i].name]) == row
            case Some(TableNotFound) => false
    ensures Insertable(x, t, vals) ==> RowError(x, x.schemas[t], t, vals) == None
  {
    var columns := x.schemas[t].columns;
    var pk := PrimaryKeyOf(columns);
    MissingColumnIs(columns, vals);
    assert MissingColumn(columns, vals) == None <==> AllPresent(columns, vals);
    if pk.Some? {
      PrimaryKeyIs(columns, pk.value);
    }
    forall i | FirstKey(columns, i) ensures pk == Some(columns[i].name) {
      PrimaryKeyIs(columns, columns[i].name);
    }
    hide MissingColumn, PrimaryKeyOf, Display, AllPresent;
  }

  /** The checks on one row, in their order. */
  method CheckRow(r: ReplicaState, t: TableId, vals: Values) returns (error: Option<SqlError>)
    requires r.Valid() && t in r.schemas
    ensures error == RowError(r.View(), r.schemas[t], t, vals)
  {
    var schema := r.schemas[t];
    var missing := MissingColumn(schema.columns, vals);
    if missing.Some? {
      return Some(NotNullViolation(missing.value));
    }
    var pk := PrimaryKeyOf(schema.columns);
    if pk.None? || pk.value !in vals {
      return Some(NoPrimaryKey);
    }
    if r.storage.GetVisibleRow(t, Display(vals[pk.value])).Some? {
      return Some(PrimaryKeyViolation(Display(vals[pk.value])));
    }
    error := None;
  }

  method CheckRows(r: ReplicaState, t: TableId, rows: seq<Values>) returns (error: Option<SqlError>)
    requires r.Valid() && t in r.schemas
    ensures error == FirstError(r.View(), t, rows)
  {
    for i := 0 to |rows|
      invariant forall vals | vals in rows[..i] :: RowError(r.View(), r.schemas[t], t, vals) == None
    {
      assert rows[..i + 1] == rows[..i] + [rows[i]];
      error := CheckRow(r, t, rows[i]);
      if error.Some? {
        FirstErrorAt(r.View(), t, rows, i);
        assert rows[i..][0] == rows[i];
        return;
      }
    }
    FirstErrorAt(r.View(), t, rows, |rows|);
    error := None;
  }

  /** Writes a row and maintains the indexes of its table. */
  method WriteRow(r: ReplicaState, m: IndexManager, t: TableId, id: RowId, vals: Values)
    requires r.Valid() && m.Valid() && t in r.schemas
    modifies r.Repr(), m.Owned()
    ensures r.Valid() && m.Valid() && r.View() == Insert(old(r.View()), t, id, vals)
    ensures old(m.AgreesAll(r.storage.rows)) ==> m.AgreesAll(r.storage.rows)
  {
    hide Insert, IndexManager.AgreesAll;
    ghost var x := r.View();
    var prior := r.storage.GetRow(t, id);
    InsertStores(x, t, id, vals);
    InsertRow(r, t, id, vals);
    m.Maintain(t, prior, r.storage.rows[RowKey(t, id)], x.rows);
  }

  lemma InsertStores(x: Replica, t: TableId, id: RowId, vals: Values)
    requires t in x.schemas
    ensures var y := Insert(x, t, id, vals);
            var k := RowKey(t, id);
            k in y.rows && y.rows == x.rows[k := y.rows[k]] && y.rows[k].id == id
  {
  }

  method WriteRows(r: ReplicaState, m: IndexManager, t: TableId, rows: seq<Values>)
    requires r.Valid() && m.Valid() && t in r.schemas
    modifies r.Repr(), m.Owned()
    ensures r.Valid() && m.Valid() && r.View() == InsertAll(old(r.View()), t, rows)
    ensures old(m.AgreesAll(r.storage.rows)) ==> m.AgreesAll(r.storage.rows)
  {
    hide Insert, IdOf;
    ghost var x := r.View();
    ghost var agreed := m.AgreesAll(r.storage.rows);
    var schema := r.schemas[t];
    for i := 0 to |rows|
      invariant r.Valid() && m.Valid() && r.View() == InsertAll(x, t, rows[..i])
      invariant agreed ==> m.AgreesAll(r.storage.rows)
    {
      assert rows[..i + 1][..i] == rows[..i];
      WriteRow(r, m, t, IdOf(schema, rows[i]), rows[i]);
    }
    assert rows[..|rows|] == rows;
  }

  /** INSERT of several rows: nothing is written unless every row passes the checks. */
  method ExecInsert(r: ReplicaState, m: IndexManager, t: TableId, rows: seq<Values>) returns (error: Option<SqlError>)
    requires r.Valid() && m.Valid()
    modifies r.Repr(), m.Owned()
    ensures r.Valid() && m.Valid() && error == InsertError(old(r.View()), t, rows)
    ensures r.View() == if t in old(r.schemas) && error == None then InsertAll(old(r.View()), t, rows)
            else old(r.View())
    ensures old(m.AgreesAll(r.storage.rows)) ==> m.AgreesAll(r.storage.rows)
  {
    hide InsertAll, FirstError;
    if t !in r.schemas {
      return Some(TableNotFound);
    }
    error := CheckRows(r, t, rows);
    if error.None? {
      WriteRows(r, m, t, rows);
    }
  }

  // ------------------------------------------------------- matching rows

  ghost predicate Matches(x: Replica, t: TableId, where: Row -> bool, id: RowId) {
    RowKey(t, id) in x.rows && Visible(x.rows[RowKey(t, id)]) && where(x.rows[RowKey(t, id)])
  }

  ghost predicate MatchesAre(x: Replica, t: TableId, where: Row -> bool, ids: seq<RowId>) {
    && (forall id :: id in ids <==> Matches(x, t, where, id))
    && (forall id | id in ids :: RowKey(t, id) in x.rows)
    && (forall i, j | 0 <= i < j < |ids| :: ids[i] != ids[j])
  }

  /** The ids of the visible rows of a table that satisfy the condition. */
  method MatchingIds(r: ReplicaState, t: TableId, where: Row -> bool) returns (ids: seq<RowId>)
    requires r.Valid()
    ensures MatchesAre(r.View(), t, where, ids)
  {
    ids := [];
    var todo := r.storage.KeysOf(t);
    while todo != {}
      invariant todo <= r.storage.KeysOf(t)
      invariant forall id :: id in ids <==> RowKey(t, id) !in todo && Matches(r.View(), t, where, id)
      invariant forall i, j | 0 <= i < j < |ids| :: ids[i] != ids[j]
    {
      var k :| k in todo;
      todo := todo - {k};
      assert k == RowKey(t, k.row);
      if Visible(r.storage.rows[k]) && where(r.storage.rows[k]) {
        assert k.row !in ids;
        ids := ids + [k.row];
      }
    }
  }

  // ------------------------------------------------------- UPDATE

  /** The first assignment of NULL to a known NOT NULL column. */
  function NullAssigned(columns: seq<Column>, assigns: Assignments): Option<ColumnId> {
    if assigns == [] then None
    else
      var c := ColumnNamed(columns, assigns[0].0);
      if c.Some? && !c.value.nullable && assigns[0].1 == Null then Some(assigns[0].0)
      else NullAssigned(columns, assigns[1..])
  }

  /** An assignment of NULL to a column whose first declaration is NOT NULL. */
  ghost predicate AssignsNull(columns: seq<Column>, assign: (ColumnId, Value)) {
    assign.1 == Null
    && exists i | 0 <= i < |columns| ::
         columns[i].name == assign.0 && !columns[i].nullable && forall j | 0 <= j < i :: columns[j].name != assign.0
  }

  lemma {:induction false} NamedIsFirst(columns: seq<Column>, name: ColumnId, c: Column)
    ensures ColumnNamed(columns, name) == Some(c) <==>
            exists i | 0 <= i < |columns| ::
              columns[i] == c && c.name == name && forall j | 0 <= j < i :: columns[j].name != name
  {
    if columns != [] && columns[0].name != name {
      NamedIsFirst(columns[1..], name, c);
      if i :| 0 <= i < |columns| - 1 && columns[1..][i] == c && c.name == name
              && forall j | 0 <= j < i :: columns[1..][j].name != name {
        assert columns[i + 1] == c;
        forall j | 0 <= j < i + 1 ensures columns[j].name != name {
          assert j > 0 ==> columns[j] == columns[1..][j - 1];
        }
      }
      if i :| 0 <= i < |columns| && columns[i] == c && c.name == name
              && forall j | 0 <= j < i :: columns[j].name != name {
        assert columns[1..][i - 1] == c;
        assert forall j | 0 <= j < i - 1 :: columns[1..][j] == columns[j + 1];
      }
    }
  }

  lemma NullAssignment(columns: seq<Column>, assign: (ColumnId, Value))
    ensures var c := ColumnNamed(columns, assign.0);
            AssignsNull(columns, assign) <==> c.Some? && !c.value.nullable && assign.1 == Null
  {
    var c := ColumnNamed(columns, assign.0);
    if c.Some? {
      NamedIsFirst(columns, assign.0, c.value);
    }
    if assign.1 == Null && AssignsNull(columns, assign) {
      var i :| 0 <= i < |columns| && columns[i].name == assign.0 && !columns[i].nullable
               && forall j | 0 <= j < i :: columns[j].name != assign.0;
      NamedIsFirst(columns, assign.0, columns[i]);
    }
  }

  /** An UPDATE of a row is refused for its first assignment of NULL to a NOT NULL column, and only for one. */
  lemma {:induction false} ViolationIs(columns: seq<Column>, assigns: Assignments)
    ensures Violation(columns, assigns) == None <==> forall a | a in assigns :: !AssignsNull(columns, a)
    ensures Violation(columns, assigns).Some? ==>
              exists i | 0 <= i < |assigns| ::
                Violation(columns, assigns) == Some(NotNullViolation(assigns[i].0)) && AssignsNull(columns, assigns[i])
                && forall j | 0 <= j < i :: !AssignsNull(columns, assigns[j])
  {
    hide AssignsNull;
    if assigns != [] {
      NullAssignment(columns, assigns[0]);
      ViolationIs(columns, assigns[1..]);
      assert assigns == [assigns[0]] + assigns[1..];
      if !AssignsNull(columns, assigns[0]) && Violation(columns, assigns).Some? {
        assert Violation(columns, assigns) == Violation(columns, assigns[1..]);
        var i :| 0 <= i < |assigns| - 1 && Violation(columns, assigns) == Some(NotNullViolation(assigns[1..][i].0))
                 && AssignsNull(columns, assigns[1..][i])
                 && forall j | 0 <= j < i :: !AssignsNull(columns, assigns[1..][j]);
        assert assigns[i + 1] == assigns[1..][i];
        forall j | 0 <= j < i + 1 ensures !AssignsNull(columns, assigns[j]) {
          assert j > 0 ==> assigns[j] == assigns[1..][j - 1];
        }
      }
    }
  }

  function Violation(columns: seq<Column>, assigns: Assignments): Option<SqlError> {
    var c := NullAssigned(columns, assigns);
    if c.Some? then Some(NotNullViolation(c.value)) else None
  }

  function UpdateAll(x: Replica, t: TableId, ids: seq<RowId>, assigns: Row -> Assignments): Replica
    requires t in x.schemas && forall id | id in ids :: RowKey(t, id) in x.rows
    ensures UpdateAll(x, t, ids, assigns).rows.Keys == x.rows.Keys && UpdateAll(x, t, ids, assigns).schemas == x.schemas
  {
    if ids == [] then x
    else
      var id := ids[|ids| - 1];
      Update(UpdateAll(x, t, ids[..|ids| - 1], assigns), t, id, assigns(x.rows[RowKey(t, id)]))
  }

  /** Rows not yet updated are as they were. */
  lemma {:induction false} UpdateAllOthers(x: Replica, t: TableId, ids: seq<RowId>, assigns: Row -> Assignments,
    k: RowKey)
    requires t in x.schemas && (forall id | id in ids :: RowKey(t, id) in x.rows)
    requires k in x.rows && (k.table == t ==> k.row !in ids)
    ensures UpdateAll(x, t, ids, assigns).rows[k] == x.rows[k]
  {
    if ids != [] {
      var n := |ids| - 1;
      assert ids == ids[..n] + [ids[n]];
      UpdateAllOthers(x, t, ids[..n], assigns, k);
    }
  }

  /** The row with its own assignments under version v. */
  function Rewritten(row: Row, assigns: Row -> Assignments, v: Version): Row {
    row.(cells := AssignCells(row.cells, assigns(row), v))
  }

  /**
   Where the row updates of a statement leave a row: its own assignments under the tick of its turn, all else kept.
   */
  lemma {:induction false} UpdateAllRows(x: Replica, t: TableId, ids: seq<RowId>, assigns: Row -> Assignments, i: nat)
    requires t in x.schemas && (forall id | id in ids :: RowKey(t, id) in x.rows) && i < |ids|
    requires forall j, l | 0 <= j < l < |ids| :: ids[j] != ids[l]
    ensures var k := RowKey(t, ids[i]);
            UpdateAll(x, t, ids, assigns).rows[k] == Rewritten(x.rows[k], assigns, Version(x.clock + i + 1, x.peer))
  {
    hide *;
    var n := |ids| - 1;
    var k := RowKey(t, ids[i]);
    if i < n {
      assert ids[..n][i] == ids[i];
      UpdateAllRows(x, t, ids[..n], assigns, i);
      EarlierRow(x, t, ids, assigns, k);
    } else {
      UpdateAllOthers(x, t, ids[..n], assigns, k);
      LastUpdate(x, t, ids, assigns);
      LastRow(x, UpdateAll(x, t, ids[..n], assigns), t, ids[n], assigns, n);
    }
  }

  /** The last update leaves other rows alone. */
  lemma EarlierRow(x: Replica, t: TableId, ids: seq<RowId>, assigns: Row -> Assignments, k: RowKey)
    requires t in x.schemas && (forall id | id in ids :: RowKey(t, id) in x.rows) && ids != []
    requires k in x.rows && k != RowKey(t, ids[|ids| - 1])
    ensures UpdateAll(x, t, ids, assigns).rows[k] == UpdateAll(x, t, ids[..|ids| - 1], assigns).rows[k]
  {
    var n := |ids| - 1;
    LastUpdate(x, t, ids, assigns);
    UpdateWrites(UpdateAll(x, t, ids[..n], assigns), t, ids[n], assigns, x.rows[RowKey(t, ids[n])], k);
    hide *;
  }

  lemma LastRow(x: Replica, mid: Replica, t: TableId, id: RowId, assigns: Row -> Assignments, n: nat)
    requires t in mid.schemas && mid.clock == x.clock + n && mid.peer == x.peer
    requires var k := RowKey(t, id); k in x.rows && k in mid.rows && mid.rows[k] == x.rows[k]
    ensures var k := RowKey(t, id);
            var y := Update(mid, t, id, assigns(x.rows[k]));
            k in y.rows && y.rows[k] == Rewritten(x.rows[k], assigns, Version(x.clock + n + 1, x.peer))
  {
    UpdateWrites(mid, t, id, assigns, x.rows[RowKey(t, id)], RowKey(t, id));
    hide *;
  }

  lemma LastUpdate(x: Replica, t: TableId, ids: seq<RowId>, assigns: Row -> Assignments)
    requires t in x.schemas && (forall id | id in ids :: RowKey(t, id) in x.rows) && ids != []
    ensures var n := |ids| - 1;
            var mid := UpdateAll(x, t, ids[..n], assigns);
            && mid.rows.Keys == x.rows.Keys && mid.schemas == x.schemas && mid.clock == x.clock + n
                && mid.peer == x.peer
            && UpdateAll(x, t, ids, assigns) == Update(mid, t, ids[n], assigns(x.rows[RowKey(t, ids[n])]))
  {
    UpdateAllClock(x, t, ids[..|ids| - 1], assigns);
    hide Update;
  }

  lemma UpdateWrites(x: Replica, t: TableId, id: RowId, assigns: Row -> Assignments, row: Row, k: RowKey)
    requires t in x.schemas && RowKey(t, id) in x.rows && k in x.rows
    ensures var y := Update(x, t, id, assigns(row));
            && k in y.rows
            && (k == RowKey(t, id) && x.rows[k] == row ==>
                  y.rows[k] == Rewritten(row, assigns, Version(x.clock + 1, x.peer)))
            && (k != RowKey(t, id) ==> y.rows[k] == x.rows[k])
  {
  }

  lemma {:induction false} UpdateAllClock(x: Replica, t: TableId, ids: seq<RowId>, assigns: Row -> Assignments)
    requires t in x.schemas && forall id | id in ids :: RowKey(t, id) in x.rows
    ensures UpdateAll(x, t, ids, assigns).clock == x.clock + |ids| && UpdateAll(x, t, ids, assigns).peer == x.peer
  {
    hide AssignCells, FileKeys;
    if ids != [] {
      UpdateAllClock(x, t, ids[..|ids| - 1], assigns);
    }
  }

  lemma {:induction false} UpdateAllIsWrite(x: Replica, t: TableId, ids: seq<RowId>, assigns: Row -> Assignments)
    requires LocalInv(x) && t in x.schemas && forall id | id in ids :: RowKey(t, id) in x.rows
    ensures LocalInv(UpdateAll(x, t, ids, assigns)) && Writes(x, UpdateAll(x, t, ids, assigns))
  {
    hide LocalInv, Writes, Update;
    if ids == [] {
      WritesReflexive(x);
    } else {
      var n := |ids| - 1;
      assert ids == ids[..n] + [ids[n]];
      UpdateAllIsWrite(x, t, ids[..n], assigns);
      var mid := UpdateAll(x, t, ids[..n], assigns);
      UpdateIsWrite(mid, t, ids[n], assigns(x.rows[RowKey(t, ids[n])]));
      WritesTransitive(x, mid, UpdateAll(x, t, ids, assigns));
    }
  }

  /** done is what an UPDATE wrote, left the matching rows from the first violation on. */
  ghost predicate UpdateOutcome(x: Replica, t: TableId, where: Row -> bool, assigns: Row -> Assignments,
                                y: Replica, error: Option<SqlError>, done: seq<RowId>, left: seq<RowId>)
    requires t in x.schemas
  {
    var columns := x.schemas[t].columns;
    && MatchesAre(x, t, where, done + left)
    && (forall id | id in done :: RowKey(t, id) in x.rows && Violation(columns, assigns(x.rows[RowKey(t, id)])) == None)
    && y == UpdateAll(x, t, done, assigns)
    && if left == [] then error == None
       else
         && RowKey(t, left[0]) in x.rows
         && error.Some? && error == Violation(columns, assigns(x.rows[RowKey(t, left[0])]))
  }

  lemma UpdateStores(x: Replica, t: TableId, id: RowId, assigns: Assignments)
    requires t in x.schemas && RowKey(t, id) in x.rows
    ensures var y := Update(x, t, id, assigns);
            var k := RowKey(t, id);
            k in y.rows && y.rows == x.rows[k := y.rows[k]] && y.rows[k].id == x.rows[k].id
  {
  }

  method RewriteRow(r: ReplicaState, m: IndexManager, t: TableId, id: RowId, assigns: Assignments)
    requires r.Valid() && m.Valid() && t in r.schemas && RowKey(t, id) in r.storage.rows
    modifies r.Repr(), m.Owned()
    ensures r.Valid() && m.Valid() && r.View() == Update(old(r.View()), t, id, assigns)
    ensures old(m.AgreesAll(r.storage.rows)) ==> m.AgreesAll(r.storage.rows)
  {
    hide Update, IndexManager.AgreesAll;
    ghost var x := r.View();
    var prior := r.storage.GetRow(t, id);
    UpdateStores(x, t, id, assigns);
    UpdateRow(r, t, id, assigns);
    m.Maintain(t, prior, r.storage.rows[RowKey(t, id)], x.rows);
  }

  /** y is x with the first n rows updated, none of them a violation. */
  ghost predicate UpdatedUpTo(x: Replica, t: TableId, ids: seq<RowId>, assigns: Row -> Assignments, n: nat, y: Replica)
    requires t in x.schemas && n <= |ids| && forall id | id in ids :: RowKey(t, id) in x.rows
  {
    && y == UpdateAll(x, t, ids[..n], assigns)
    && forall id | id in ids[..n] :: Violation(x.schemas[t].columns, assigns(x.rows[RowKey(t, id)])) == None
  }

  /** The next row is still as at the start, and updating it extends the prefix. */
  lemma NextRow(x: Replica, t: TableId, ids: seq<RowId>, assigns: Row -> Assignments, n: nat, y: Replica)
    requires t in x.schemas && n < |ids| && forall id | id in ids :: RowKey(t, id) in x.rows
    requires forall i, j | 0 <= i < j < |ids| :: ids[i] != ids[j]
    requires UpdatedUpTo(x, t, ids, assigns, n, y)
    ensures var k := RowKey(t, ids[n]);
            && y.schemas == x.schemas && k in y.rows && y.rows[k] == x.rows[k]
            && (Violation(x.schemas[t].columns, assigns(x.rows[k])) == None ==>
                  UpdatedUpTo(x, t, ids, assigns, n + 1, Update(y, t, ids[n], assigns(x.rows[k]))))
  {
    hide Update, Violation;
    assert ids[n] !in ids[..n];
    assert ids[..n + 1] == ids[..n] + [ids[n]] && ids[..n + 1][..n] == ids[..n];
    UpdateAllOthers(x, t, ids[..n], assigns, RowKey(t, ids[n]));
  }

  /** Updates row n unless that is a violation. */
  method UpdateNext(r: ReplicaState, m: IndexManager, t: TableId, ids: seq<RowId>, assigns: Row -> Assignments, n: nat,
    ghost x: Replica)
    returns (error: Option<SqlError>)
    requires r.Valid() && m.Valid() && t in x.schemas && n < |ids| && forall id | id in ids :: RowKey(t, id) in x.rows
    requires forall i, j | 0 <= i < j < |ids| :: ids[i] != ids[j]
    requires UpdatedUpTo(x, t, ids, assigns, n, r.View())
    modifies r.Repr(), m.Owned()
    ensures r.Valid() && m.Valid() && error == Violation(x.schemas[t].columns, assigns(x.rows[RowKey(t, ids[n])]))
    ensures UpdatedUpTo(x, t, ids, assigns, if error == None then n + 1 else n, r.View())
    ensures old(m.AgreesAll(r.storage.rows)) ==> m.AgreesAll(r.storage.rows)
  {
    hide Update, UpdatedUpTo, IndexManager.AgreesAll, Violation;
    NextRow(x, t, ids, assigns, n, r.View());
    var row := r.storage.rows[RowKey(t, ids[n])];
    error := Violation(r.schemas[t].columns, assigns(row));
    if error == None {
      RewriteRow(r, m, t, ids[n], assigns(row));
    }
  }

  /** Updates the rows in order until the first violation, at position n. */
  method UpdateRows(r: ReplicaState, m: IndexManager, t: TableId, ids: seq<RowId>, assigns: Row -> Assignments)
    returns (error: Option<SqlError>, n: nat)
    requires r.Valid() && m.Valid() && t in r.schemas && forall id | id in ids :: RowKey(t, id) in r.storage.rows
    requires forall i, j | 0 <= i < j < |ids| :: ids[i] != ids[j]
    modifies r.Repr(), m.Owned()
    ensures r.Valid() && m.Valid() && n <= |ids|
    ensures UpdatedUpTo(old(r.View()), t, ids, assigns, n, r.View())
    ensures if n == |ids| then error == None
            else
              && error.Some?
              && error == Violation(old(r.View()).schemas[t].columns, assigns(old(r.View()).rows[RowKey(t, ids[n])]))
    ensures old(m.AgreesAll(r.storage.rows)) ==> m.AgreesAll(r.storage.rows)
  {
    ghost var x := r.View();
    ghost var agreed := m.AgreesAll(r.storage.rows);
    n, error := 0, None;
    assert UpdatedUpTo(x, t, ids, assigns, 0, x);
    hide UpdatedUpTo, IndexManager.AgreesAll, IndexManager.Valid, Violation;
    while n < |ids|
      invariant r.Valid() && m.Valid() && n <= |ids| && UpdatedUpTo(x, t, ids, assigns, n, r.View())
      invariant error == None && (agreed ==> m.AgreesAll(r.storage.rows))
    {
      error := UpdateNext(r, m, t, ids, assigns, n, x);
      if error.Some? {
        return;
      }
      n := n + 1;
    }
  }

  /** UPDATE stops at the first row that would get a NULL in a NOT NULL column; rows before it stay written. */
  method ExecUpdate(r: ReplicaState, m: IndexManager, t: TableId, where: Row -> bool, assigns: Row -> Assignments)
    returns (error: Option<SqlError>, ghost done: seq<RowId>, ghost left: seq<RowId>)
    requires r.Valid() && m.Valid()
    modifies r.Repr(), m.Owned()
    ensures r.Valid() && m.Valid()
    ensures t !in old(r.schemas) ==> r.View() == old(r.View()) && error == Some(TableNotFound)
    ensures t in old(r.schemas) ==> UpdateOutcome(old(r.View()), t, where, assigns, r.View(), error, done, left)
    ensures old(m.AgreesAll(r.storage.rows)) ==> m.AgreesAll(r.storage.rows)
  {
    hide Matches, UpdateAll, Violation, IndexManager.AgreesAll;
    done, left := [], [];
    if t !in r.schemas {
      return Some(TableNotFound), [], [];
    }
    var ids := MatchingIds(r, t, where);
    var n;
    error, n := UpdateRows(r, m, t, ids, assigns);
    done, left := ids[..n], ids[n..];
    assert done + left == ids;
  }

  // ------------------------------------------------------- DELETE

  function DeleteAll(x: Replica, t: TableId, ids: seq<RowId>): Replica
    requires forall id | id in ids :: RowKey(t, id) in x.rows
    ensures DeleteAll(x, t, ids).rows.Keys == x.rows.Keys
  {
    if ids == [] then x
    else Delete(DeleteAll(x, t, ids[..|ids| - 1]), t, ids[|ids| - 1])
  }

  /** Where the deletes of a statement leave a row and its tombstone: both under the tick of its turn, cells kept. */
  lemma {:induction false} DeleteAllRows(x: Replica, t: TableId, ids: seq<RowId>, i: nat)
    requires (forall id | id in ids :: RowKey(t, id) in x.rows) && i < |ids|
    requires forall j, l | 0 <= j < l < |ids| :: ids[j] != ids[l]
    ensures var y := DeleteAll(x, t, ids);
            var k := RowKey(t, ids[i]);
            var v := Version(x.clock + i + 1, x.peer);
            && y.rows[k] == x.rows[k].(deleted := true, deleteVersion := Some(v))
            && k in y.tombs && y.tombs[k] == v && y.clock == x.clock + |ids|
  {
    var n := |ids| - 1;
    var k := RowKey(t, ids[i]);
    LastDelete(x, t, ids);
    DeleteWrites(DeleteAll(x, t, ids[..n]), t, ids[n], k);
    hide *;
    if i < n {
      assert ids[..n][i] == ids[i];
      DeleteAllRows(x, t, ids[..n], i);
    } else {
      DeleteAllOthers(x, t, ids[..n], k);
    }
  }

  lemma LastDelete(x: Replica, t: TableId, ids: seq<RowId>)
    requires (forall id | id in ids :: RowKey(t, id) in x.rows) && ids != []
    ensures var n := |ids| - 1;
            var mid := DeleteAll(x, t, ids[..n]);
            && mid.rows.Keys == x.rows.Keys && mid.clock == x.clock + n && mid.peer == x.peer
            && DeleteAll(x, t, ids) == Delete(mid, t, ids[n])
  {
    DeleteAllClock(x, t, ids[..|ids| - 1]);
    hide Delete;
  }

  lemma DeleteWrites(x: Replica, t: TableId, id: RowId, k: RowKey)
    requires RowKey(t, id) in x.rows && k in x.rows
    ensures var y := Delete(x, t, id);
            var v := Version(x.clock + 1, x.peer);
            && k in y.rows && y.clock == x.clock + 1
            && if k == RowKey(t, id)
               then y.rows[k] == x.rows[k].(deleted := true, deleteVersion := Some(v)) && k in y.tombs
                   && y.tombs[k] == v
               else y.rows[k] == x.rows[k] && (k in x.tombs ==> k in y.tombs && y.tombs[k] == x.tombs[k])
  {
  }

  lemma {:induction false} DeleteAllClock(x: Replica, t: TableId, ids: seq<RowId>)
    requires forall id | id in ids :: RowKey(t, id) in x.rows
    ensures DeleteAll(x, t, ids).clock == x.clock + |ids| && DeleteAll(x, t, ids).peer == x.peer
  {
    if ids != [] {
      DeleteAllClock(x, t, ids[..|ids| - 1]);
    }
  }

  /** No other row or tombstone is touched. */
  lemma {:induction false} DeleteAllOthers(x: Replica, t: TableId, ids: seq<RowId>, k: RowKey)
    requires forall id | id in ids :: RowKey(t, id) in x.rows
    requires k.table == t ==> k.row !in ids
    ensures var y := DeleteAll(x, t, ids);
            && (k in x.rows ==> y.rows[k] == x.rows[k]) && (k in y.tombs <==> k in x.tombs)
            && (k in x.tombs ==> y.tombs[k] == x.tombs[k]) && y.claims == x.claims
  {
    if ids != [] {
      var n := |ids| - 1;
      assert ids == ids[..n] + [ids[n]];
      DeleteAllOthers(x, t, ids[..n], k);
    }
  }

  lemma {:induction false} DeleteAllIsWrite(x: Replica, t: TableId, ids: seq<RowId>)
    requires LocalInv(x) && forall id | id in ids :: RowKey(t, id) in x.rows
    ensures LocalInv(DeleteAll(x, t, ids)) && Writes(x, DeleteAll(x, t, ids))
    ensures forall id | id in ids :: DeleteAll(x, t, ids).rows[RowKey(t, id)].deleted
  {
    hide LocalInv, Writes;
    if ids == [] {
      WritesReflexive(x);
    } else {
      var n := |ids| - 1;
      var mid := DeleteAll(x, t, ids[..n]);
      assert ids == ids[..n] + [ids[n]];
      DeleteAllIsWrite(x, t, ids[..n]);
      DeleteIsWrite(mid, t, ids[n]);
      WritesTransitive(x, mid, Delete(mid, t, ids[n]));
    }
  }

  method MarkRow(r: ReplicaState, m: IndexManager, t: TableId, id: RowId)
    requires r.Valid() && m.Valid() && RowKey(t, id) in r.storage.rows
    modifies r.Repr(), m.Owned()
    ensures r.Valid() && m.Valid() && r.View() == Delete(old(r.View()), t, id)
    ensures old(m.AgreesAll(r.storage.rows)) ==> m.AgreesAll(r.storage.rows)
  {
    hide IndexManager.AgreesAll;
    ghost var x := r.View();
    var prior := r.storage.GetRow(t, id);
    DeleteRow(r, t, id);
    m.Maintain(t, prior, r.storage.rows[RowKey(t, id)], x.rows);
  }

  method MarkRows(r: ReplicaState, m: IndexManager, t: TableId, ids: seq<RowId>)
    requires r.Valid() && m.Valid() && forall id | id in ids :: RowKey(t, id) in r.storage.rows
    modifies r.Repr(), m.Owned()
    ensures r.Valid() && m.Valid() && r.View() == DeleteAll(old(r.View()), t, ids)
    ensures old(m.AgreesAll(r.storage.rows)) ==> m.AgreesAll(r.storage.rows)
  {
    hide Delete, IndexManager.AgreesAll;
    ghost var x := r.View();
    ghost var agreed := m.AgreesAll(r.storage.rows);
    for i := 0 to |ids|
      invariant r.Valid() && m.Valid() && r.View() == DeleteAll(x, t, ids[..i])
      invariant agreed ==> m.AgreesAll(r.storage.rows)
    {
      assert ids[..i + 1][..i] == ids[..i] && ids[i] in ids;
      MarkRow(r, m, t, ids[i]);
    }
    assert ids[..|ids|] == ids;
  }

  /**
   DELETE: marks all matching rows and maintains their indexes, then enforces integrity, which leaves the indexes alone.
   */
  method ExecDelete(r: ReplicaState, m: IndexManager, t: TableId, where: Row -> bool) returns (ghost ids: seq<RowId>)
    requires r.Valid() && m.Valid() && LocalInv(r.View())
    modifies r.Repr(), m.Owned()
    ensures r.Valid() && m.Valid() && MatchesAre(old(r.View()), t, where, ids)
    ensures Enforced(DeleteAll(old(r.View()), t, ids), r.View())
    ensures old(m.AgreesAll(r.storage.rows)) ==> m.AgreesAll(DeleteAll(old(r.View()), t, ids).rows)
  {
    hide LocalInv, Enforced, Matches, DeleteAll, IndexManager.AgreesAll;
    ghost var x := r.View();
    var found := MatchingIds(r, t, where);
    MarkRows(r, m, t, found);
    ids := found;
    DeleteAllIsWrite(x, t, ids);
    Enforce(r);
  }

  // ------------------------------------------------------- statements as steps

  datatype Statement =
    | InsertInto(table: TableId, rows: seq<Values>)
    | UpdateWhere(table: TableId, where: Row -> bool, assigns: Row -> Assignments)
    | DeleteWhere(table: TableId, where: Row -> bool)

  /** The statement takes x to y with this error. */
  ghost predicate Executed(x: Replica, stmt: Statement, y: Replica, error: Option<SqlError>) {
    match stmt
    case InsertInto(t, rows) =>
      error == InsertError(x, t, rows) && y == if t in x.schemas && error == None then InsertAll(x, t, rows) else x
    case UpdateWhere(t, where, assigns) =>
      if t in x.schemas then exists done, left :: UpdateOutcome(x, t, where, assigns, y, error, done, left)
      else y == x && error == Some(TableNotFound)
    case DeleteWhere(t, where) =>
      error == None && exists ids :: DeletedMatches(x, t, where, ids, y)
  }

  ghost predicate DeletedMatches(x: Replica, t: TableId, where: Row -> bool, ids: seq<RowId>, y: Replica) {
    MatchesAre(x, t, where, ids) && Enforced(DeleteAll(x, t, ids), y)
  }

  /** An accepted INSERT names only ids that are neither stored nor collected. */
  ghost predicate NewIds(x: Replica, stmt: Statement, gone: set<RowKey>) {
    stmt.InsertInto? && AllValid(x, stmt.table, stmt.rows) ==>
      forall k | Inserted(x, stmt.table, stmt.rows, k) :: k !in x.rows && k !in gone
  }

  lemma InsertStatement(x: Replica, t: TableId, rows: seq<Values>, y: Replica, error: Option<SqlError>,
    gone: set<RowKey>)
    requires LocalInv(x) && Executed(x, InsertInto(t, rows), y, error) && NewIds(x, InsertInto(t, rows), gone)
    ensures LocalInv(y) && Writes(x, y) && forall k | k in y.rows && k in gone :: k in x.rows
  {
    hide LocalInv, Writes, FirstError, InsertAll;
    NoErrorIffValid(x, t, rows);
    WritesReflexive(x);
    if error == None {
      InsertAllIsWrite(x, t, rows);
    }
  }

  lemma UpdateStatement(x: Replica, t: TableId, where: Row -> bool, assigns: Row -> Assignments, y: Replica,
    error: Option<SqlError>)
    requires LocalInv(x) && Executed(x, UpdateWhere(t, where, assigns), y, error)
    ensures LocalInv(y) && Writes(x, y) && y.rows.Keys == x.rows.Keys
  {
    hide LocalInv, Writes;
    WritesReflexive(x);
    if t in x.schemas {
      var done, left :| UpdateOutcome(x, t, where, assigns, y, error, done, left);
      UpdateAllIsWrite(x, t, done, assigns);
    }
  }

  lemma DeleteStatement(x: Replica, t: TableId, where: Row -> bool, y: Replica, error: Option<SqlError>)
    requires LocalInv(x) && Executed(x, DeleteWhere(t, where), y, error)
    ensures LocalInv(y) && Writes(x, y) && y.rows.Keys == x.rows.Keys
    ensures forall id | Matches(x, t, where, id) :: y.rows[RowKey(t, id)].deleted
  {
    hide LocalInv, WriteFrame, SlotsWritten, MirrorKept, ClaimsGrow, Enforced, DeleteAll;
    var ids :| DeletedMatches(x, t, where, ids, y);
    var mid := DeleteAll(x, t, ids);
    DeleteAllIsWrite(x, t, ids);
    EnforcedIsWrite(mid, y);
    WritesTransitive(x, mid, y);
  }

  /**
   What an UPDATE does to one row: only visible rows that satisfy the condition change,
       and without an error each of them
   gets its assignments under a tick of the statement.
   */
  lemma UpdatedRow(x: Replica, t: TableId, where: Row -> bool, assigns: Row -> Assignments, y: Replica,
    error: Option<SqlError>, k: RowKey)
    requires Executed(x, UpdateWhere(t, where, assigns), y, error) && t in x.schemas && k in x.rows
    ensures k in y.rows && (y.rows[k] == x.rows[k] || (k.table == t && !x.rows[k].deleted && where(x.rows[k])))
    ensures error == None && k.table == t && !x.rows[k].deleted && where(x.rows[k]) ==>
              exists n | x.clock < n <= y.clock ::
                y.rows[k] == Rewritten(x.rows[k], assigns, Version(n, x.peer))
  {
    var done, left :| UpdateOutcome(x, t, where, assigns, y, error, done, left);
    MatchesDistinct(x, t, where, done + left);
    assert forall i | 0 <= i < |done| :: (done + left)[i] == done[i];
    assert forall id | id in done :: id in done + left;
    assert left == [] ==> done + left == done;
    assert k == RowKey(k.table, k.row);
    assert k.table == t ==> (k.row in done + left <==> Matches(x, t, where, k.row));
    hide Rewritten, UpdateAll, Violation, MatchesAre;
    RewrittenRow(x, t, done, assigns, k);
  }

  lemma RewrittenRow(x: Replica, t: TableId, ids: seq<RowId>, assigns: Row -> Assignments, k: RowKey)
    requires t in x.schemas && (forall id | id in ids :: RowKey(t, id) in x.rows) && k in x.rows
    requires forall i, j | 0 <= i < j < |ids| :: ids[i] != ids[j]
    ensures var y := UpdateAll(x, t, ids, assigns);
            && k in y.rows && y.clock == x.clock + |ids|
            && if k.table == t && k.row in ids
               then exists n | x.clock < n <= y.clock :: y.rows[k] == Rewritten(x.rows[k], assigns, Version(n, x.peer))
               else y.rows[k] == x.rows[k]
  {
    hide Rewritten, UpdateAll;
    UpdateAllClock(x, t, ids, assigns);
    if k.table == t && k.row in ids {
      var i :| 0 <= i < |ids| && ids[i] == k.row;
      UpdateAllRows(x, t, ids, assigns, i);
    } else {
      UpdateAllOthers(x, t, ids, assigns, k);
    }
  }

  /**
   What a DELETE does to one row: a row already deleted keeps its version, a matching row is deleted under a tick of the
   statement, and any other row goes only for a stale Cascade reference to a deleted row.
   */
  lemma DeletedRow(x: Replica, t: TableId, where: Row -> bool, y: Replica, error: Option<SqlError>, k: RowKey)
    requires Executed(x, DeleteWhere(t, where), y, error) && k in x.rows
    ensures k in y.rows && (x.rows[k].deleted ==> y.rows[k] == x.rows[k])
    ensures k.table == t && !x.rows[k].deleted && where(x.rows[k]) ==>
              y.rows[k].deleted && exists n | x.clock < n <= y.clock ::
                  y.rows[k].deleteVersion == Some(Version(n, x.peer))
    ensures y.rows[k].deleted && !x.rows[k].deleted && !(k.table == t && where(x.rows[k])) ==>
              exists fk :: FK.CascadedBy(x.schemas, y.rows, k, fk)
  {
    var ids :| DeletedMatches(x, t, where, ids, y);
    var mid := DeleteAll(x, t, ids);
    DeleteAllSchemas(x, t, ids);
    MarkedRow(x, t, where, ids, k);
    hide DeleteAll, FK.CascadedBy, Enforced;
    EnforcedRow(mid, y, k);
  }

  /** A matching row is marked under a tick of the statement, any other row is kept. */
  lemma MarkedRow(x: Replica, t: TableId, where: Row -> bool, ids: seq<RowId>, k: RowKey)
    requires MatchesAre(x, t, where, ids) && k in x.rows
    ensures var mid := DeleteAll(x, t, ids);
            && mid.clock == x.clock + |ids|
            && if k.table == t && !x.rows[k].deleted && where(x.rows[k])
               then mid.rows[k].deleted && exists n | x.clock < n <= mid.clock ::
                   mid.rows[k].deleteVersion == Some(Version(n, x.peer))
               else mid.rows[k] == x.rows[k]
  {
    DeleteAllClock(x, t, ids);
    assert k == RowKey(k.table, k.row);
    assert k.table == t ==> (k.row in ids <==> Matches(x, t, where, k.row));
    hide DeleteAll, MatchesAre;
    if k.table == t && k.row in ids {
      assert forall a, b | 0 <= a < b < |ids| :: ids[a] != ids[b] by {
        MatchesDistinct(x, t, where, ids);
      }
      var i :| 0 <= i < |ids| && ids[i] == k.row;
      DeleteAllRows(x, t, ids, i);
      assert x.clock < x.clock + i + 1 <= x.clock + |ids|;
    } else {
      DeleteAllOthers(x, t, ids, k);
    }
  }

  lemma MatchesDistinct(x: Replica, t: TableId, where: Row -> bool, ids: seq<RowId>)
    requires MatchesAre(x, t, where, ids)
    ensures forall a, b | 0 <= a < b < |ids| :: ids[a] != ids[b]
  {
  }

  lemma {:induction false} DeleteAllSchemas(x: Replica, t: TableId, ids: seq<RowId>)
    requires forall id | id in ids :: RowKey(t, id) in x.rows
    ensures DeleteAll(x, t, ids).schemas == x.schemas
  {
    if ids != [] {
      DeleteAllSchemas(x, t, ids[..|ids| - 1]);
    }
  }

  /** Enforcement keeps deleted rows and deletes others only for a stale Cascade reference to a deleted row. */
  lemma EnforcedRow(x: Replica, y: Replica, k: RowKey)
    requires Enforced(x, y) && k in x.rows
    ensures k in y.rows && x.clock <= y.clock && (x.rows[k].deleted ==> y.rows[k] == x.rows[k])
    ensures y.rows[k].deleted && !x.rows[k].deleted ==> exists fk :: FK.CascadedBy(x.schemas, y.rows, k, fk)
  {
    hide FK.CascadedBy, FK.Stable, Settled, FK.OrphanHit, UniqEffect, FK.DeletedAt, FK.NewlyDeleted;
    var m :| FK.FkEnforced(x, m) && UniqEnforced(m, y);
    assert FK.RowEffect(x, m, k);
    UniqKeepsDeletes(m, y);
    DeletedRowKept(m, y, k);
    if m.rows[k].deleted && !x.rows[k].deleted {
      assert k in FK.NewlyDeleted(x.rows, m.rows) by {
        NewlyDeletedIs(x, m, k);
      }
      var fk :| FK.CascadedBy(x.schemas, m.rows, k, fk);
      FK.CauseKept(x.schemas, m.rows, y.rows, k, fk);
    }
  }

  lemma NewlyDeletedIs(x: Replica, m: Replica, k: RowKey)
    requires k in x.rows && k in m.rows && !x.rows[k].deleted && m.rows[k].deleted
    ensures k in FK.NewlyDeleted(x.rows, m.rows)
  {
  }

  lemma UniqKeepsDeletes(m: Replica, y: Replica)
    requires UniqEffect(m, y)
    ensures m.clock <= y.clock && forall d :: FK.DeletedAt(y.rows, d) == FK.DeletedAt(m.rows, d)
  {
    hide UniqHit;
    forall d ensures FK.DeletedAt(y.rows, d) == FK.DeletedAt(m.rows, d) {
      if d in m.rows {
        assert UniqRowEffect(m, y, d);
      }
    }
  }

  lemma DeletedRowKept(m: Replica, y: Replica, k: RowKey)
    requires UniqEffect(m, y) && k in m.rows
    ensures k in y.rows && y.rows[k].deleted == m.rows[k].deleted && (m.rows[k].deleted ==> y.rows[k] == m.rows[k])
  {
    assert UniqRowEffect(m, y, k);
    if m.rows[k].deleted {
      forall c ensures !UniqHit(m, k, c) {
        forall key ensures !DisplacedOn(m.claims, m.rows, key, k, c) {
          assert k == RowKey(k.table, k.row);
        }
      }
      assert y.rows[k].cells == m.rows[k].cells;
    }
  }

  /** Every statement that inserts no stored or collected id is one local write that keeps the invariant. */
  lemma StatementIsWrite(x: Replica, stmt: Statement, y: Replica, error: Option<SqlError>, gone: set<RowKey>)
    requires LocalInv(x) && Executed(x, stmt, y, error) && NewIds(x, stmt, gone)
    ensures LocalInv(y) && Writes(x, y) && forall k | k in y.rows && k in gone :: k in x.rows
  {
    hide LocalInv, Writes, Executed, NewIds;
    match stmt
    case InsertInto(t, rows) => InsertStatement(x, t, rows, y, error, gone);
    case UpdateWhere(t, where, assigns) => UpdateStatement(x, t, where, assigns, y, error);
    case DeleteWhere(t, where) => DeleteStatement(x, t, where, y, error);
  }

  /** So it is a step of the world of all peers, and the run theorems cover it. */
  lemma StatementIsStep(w: World, p: PeerId, stmt: Statement, y: Replica, error: Option<SqlError>)
    requires Inv(w) && p in w.live && Executed(w.live[p], stmt, y, error) && NewIds(w.live[p], stmt, w.gone)
    ensures Step(w, Write(p, y), Updated(w, p, y)) && Inv(Updated(w, p, y))
  {
    hide LocalInv, Writes, Executed, NewIds, Inv;
    LiveLocal(w, p);
    StatementIsWrite(w.live[p], stmt, y, error, w.gone);
    WriteKeepsInv(w, p, y);
  }

  /** Runs one statement on a peer and maintains its indexes. */
  method Execute(r: ReplicaState, m: IndexManager, stmt: Statement) returns (error: Option<SqlError>)
    requires r.Valid() && m.Valid() && LocalInv(r.View())
    modifies r.Repr(), m.Owned()
    ensures r.Valid() && m.Valid() && Executed(old(r.View()), stmt, r.View(), error)
    ensures !stmt.DeleteWhere? && old(m.AgreesAll(r.storage.rows)) ==> m.AgreesAll(r.storage.rows)
  {
    hide LocalInv, InsertAll, InsertError, UpdateOutcome, MatchesAre, Enforced, IndexManager.AgreesAll;
    match stmt {
      case InsertInto(t, rows) =>
        error := ExecInsert(r, m, t, rows);
      case UpdateWhere(t, where, assigns) =>
        ghost var done, left;
        error, done, left := ExecUpdate(r, m, t, where, assigns);
      case DeleteWhere(t, where) =>
        ghost var x := r.View();
        ghost var ids := ExecDelete(r, m, t, where);
        assert DeletedMatches(x, t, where, ids, r.View());
        error := None;
    }
  }
}
