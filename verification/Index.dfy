/** Secondary indexes: derived maps from column values to the visible rows holding them. */
module Index {
  import opened Types
  import opened Merge
  import opened Storage

  type Entries = map<seq<Value>, set<RowId>>

  /** The values of the indexed columns; an absent cell reads as NULL. */
  function ExtractKey(columns: seq<ColumnId>, row: Row): seq<Value> {
    seq(|columns|, i requires 0 <= i < |columns| => if columns[i] in row.cells then row.cells[columns[i]].value
        else Null)
  }

  /** The ids of the visible rows with a key. */
  function Holding(columns: seq<ColumnId>, rows: set<Row>, key: seq<Value>): set<RowId> {
    set r | r in rows && Visible(r) && ExtractKey(columns, r) == key :: r.id
  }

  /** The index of a set of rows: a bucket for exactly the keys some visible row holds. */
  function IndexOf(columns: seq<ColumnId>, rows: set<Row>): Entries {
    map key | key in (set r | r in rows && Visible(r) :: ExtractKey(columns, r)) :: Holding(columns, rows, key)
  }

  function Bucket(e: Entries, key: seq<Value>): set<RowId> {
    if key in e then e[key] else {}
  }

  function InsertEntry(e: Entries, key: seq<Value>, id: RowId): Entries {
    e[key := Bucket(e, key) + {id}]
  }

  function RemoveEntry(e: Entries, key: seq<Value>, id: RowId): Entries {
    if key !in e then e
    else if e[key] - {id} == {} then e - {key}
    else e[key := e[key] - {id}]
  }

  function Dropped(columns: seq<ColumnId>, e: Entries, row: Row): Entries {
    if Visible(row) then RemoveEntry(e, ExtractKey(columns, row), row.id) else e
  }

  /** The change of one index when a row is written over an optional old row. */
  function UpdateEntries(columns: seq<ColumnId>, e: Entries, prior: Option<Row>, row: Row): Entries {
    var removed := if prior.Some? then Dropped(columns, e, prior.value) else e;
    if Visible(row) then InsertEntry(removed, ExtractKey(columns, row), row.id) else removed
  }

  function RowSet(rows: seq<Row>): set<Row> {
    set r | r in rows
  }

  datatype IndexName = IndexName(table: TableId, name: string)

  class SecondaryIndex {
    const columns: seq<ColumnId>
    var entries: Entries

    constructor (columns: seq<ColumnId>)
      ensures this.columns == columns && entries == map[]
    {
      this.columns := columns;
      entries := map[];
    }

    method Insert(key: seq<Value>, id: RowId)
      modifies this
      ensures entries == InsertEntry(old(entries), key, id)
    {
      entries := entries[key := Bucket(entries, key) + {id}];
    }

    /** Removes a row from a bucket and the bucket once it is empty. */
    method Remove(key: seq<Value>, id: RowId)
      modifies this
      ensures entries == RemoveEntry(old(entries), key, id)
    {
      if key in entries {
        var bucket := entries[key] - {id};
        entries := if bucket == {} then entries - {key} else entries[key := bucket];
      }
    }

    function Lookup(key: seq<Value>): set<RowId>
      reads this
    {
      Bucket(entries, key)
    }
  }

  class IndexManager {
    var indexes: map<IndexName, SecondaryIndex>

    constructor ()
      ensures Valid() && indexes == map[]
    {
      indexes := map[];
    }

    /** Each name has an index object of its own. */
    ghost predicate Valid()
      reads this
    {
      forall n, m | n in indexes && m in indexes && n != m :: indexes[n] != indexes[m]
    }

    ghost function Owned(): set<object>
      reads this
    {
      set n | n in indexes :: indexes[n]
    }

    /** Every index of the table is the one rebuilt from the stored rows. */
    ghost predicate Agrees(rows: Rows, t: TableId)
      reads this, Owned()
    {
      forall n | n in indexes && n.table == t :: indexes[n].entries == IndexOf(indexes[n].columns, TableRows(rows, t))
    }

    ghost predicate AgreesAll(rows: Rows)
      reads this, Owned()
    {
      forall n | n in indexes :: indexes[n].entries == IndexOf(indexes[n].columns, TableRows(rows, n.table))
    }

    method CreateIndex(n: IndexName, columns: seq<ColumnId>)
      requires Valid()
      modifies this
      ensures Valid() && n in indexes && fresh(indexes[n]) && indexes == old(indexes)[n := indexes[n]]
      ensures indexes[n].columns == columns && indexes[n].entries == map[]
    {
      var index := new SecondaryIndex(columns);
      indexes := indexes[n := index];
    }

    /** Removes the old key of a row and inserts the new one, in every index of its table. */
    method UpdateRow(t: TableId, prior: Option<Row>, row: Row)
      requires Valid()
      modifies Owned()
      ensures forall n | n in indexes :: indexes[n].entries ==
                if n.table == t then UpdateEntries(indexes[n].columns, old(indexes[n].entries), prior, row)
                    else old(indexes[n].entries)
    {
      var todo := set n | n in indexes && n.table == t;
      while todo != {}
        invariant forall n | n in todo :: n in indexes && n.table == t
        invariant forall n | n in indexes :: indexes[n].entries ==
                    if n.table == t && n !in todo
                        then UpdateEntries(indexes[n].columns, old(indexes[n].entries), prior, row)
                    else old(indexes[n].entries)
      {
        var n :| n in todo;
        var index := indexes[n];
        if prior.Some? && Visible(prior.value) {
          index.Remove(ExtractKey(index.columns, prior.value), prior.value.id);
        }
        if Visible(row) {
          index.Insert(ExtractKey(index.columns, row), row.id);
        }
        todo := todo - {n};
      }
    }

    /**
     Index maintenance for a row that is or will be stored: indexes that agreed with the rows agree with the new rows.
     */
    method Maintain(t: TableId, prior: Option<Row>, row: Row, ghost rows: Rows)
      requires Valid() && forall k | k in rows :: rows[k].id == k.row
      requires prior == if RowKey(t, row.id) in rows then Some(rows[RowKey(t, row.id)]) else None
      modifies Owned()
      ensures old(AgreesAll(rows)) ==> AgreesAll(rows[RowKey(t, row.id) := row])
    {
      UpdateRow(t, prior, row);
      forall n | n in indexes && old(AgreesAll(rows))
        ensures indexes[n].entries == IndexOf(indexes[n].columns, TableRows(rows[RowKey(t, row.id) := row], n.table))
      {
        if n.table == t {
          UpdateAgrees(indexes[n].columns, rows, t, row);
        } else {
          OtherTable(rows, RowKey(t, row.id), row, n.table);
        }
      }
    }

    /** Clears the indexes of a table and inserts its visible rows, in whatever order they come. */
    method RebuildTable(t: TableId, rows: seq<Row>)
      requires Valid()
      modifies Owned()
      ensures forall n | n in indexes :: indexes[n].entries ==
                if n.table == t then IndexOf(indexes[n].columns, RowSet(rows)) else old(indexes[n].entries)
    {
      ClearTable(t);
      assert forall n | n in indexes && n.table == t :: indexes[n].entries == IndexOf(indexes[n].columns, {});
      for i := 0 to |rows|
        invariant forall n | n in indexes :: indexes[n].entries ==
                    if n.table == t then IndexOf(indexes[n].columns, RowSet(rows[..i])) else old(indexes[n].entries)
      {
        assert RowSet(rows[..i + 1]) == RowSet(rows[..i]) + {rows[i]};
        forall n | n in indexes && n.table == t
          ensures UpdateEntries(indexes[n].columns, indexes[n].entries, None, rows[i])
                  == IndexOf(indexes[n].columns, RowSet(rows[..i]) + {rows[i]})
        {
          AddedRow(indexes[n].columns, RowSet(rows[..i]), rows[i]);
        }
        UpdateRow(t, None, rows[i]);
      }
      assert rows[..|rows|] == rows;
    }

    method ClearTable(t: TableId)
      requires Valid()
      modifies Owned()
      ensures forall n | n in indexes :: indexes[n].entries == if n.table == t then map[] else old(indexes[n].entries)
    {
      var todo := set n | n in indexes && n.table == t;
      while todo != {}
        invariant forall n | n in todo :: n in indexes && n.table == t
        invariant forall n | n in indexes ::
                  indexes[n].entries == if n.table == t && n !in todo then map[] else old(indexes[n].entries)
      {
        var n :| n in todo;
        indexes[n].entries := map[];
        todo := todo - {n};
      }
    }
  }

  // ------------------------------------------------------- agreement

  function TableRows(rows: Rows, t: TableId): set<Row> {
    set k | k in rows && k.table == t :: rows[k]
  }

  ghost predicate NoEmptyBucket(e: Entries) {
    forall key | key in e :: e[key] != {}
  }

  /** A bucket holds exactly the visible rows with its key; no bucket is empty. */
  lemma IndexExact(columns: seq<ColumnId>, rows: set<Row>, key: seq<Value>)
    ensures Bucket(IndexOf(columns, rows), key) == Holding(columns, rows, key)
    ensures key in IndexOf(columns, rows) <==> Holding(columns, rows, key) != {}
  {
    if key in IndexOf(columns, rows) {
      var r :| r in rows && Visible(r) && ExtractKey(columns, r) == key;
      assert r.id in Holding(columns, rows, key);
    } else if id :| id in Holding(columns, rows, key) {
      assert false;
    }
  }

  /** A lookup in the index of a table finds exactly the visible rows with these values, absent ones read as NULL. */
  lemma LookupFinds(columns: seq<ColumnId>, rows: Rows, t: TableId, key: seq<Value>, id: RowId)
    requires forall k | k in rows :: rows[k].id == k.row
    ensures id in Bucket(IndexOf(columns, TableRows(rows, t)), key) <==>
              && RowKey(t, id) in rows && !rows[RowKey(t, id)].deleted && |key| == |columns|
              && forall i | 0 <= i < |columns| ::
                   var cells := rows[RowKey(t, id)].cells;
                   key[i] == if columns[i] in cells then cells[columns[i]].value else Null
  {
    IndexExact(columns, TableRows(rows, t), key);
    hide IndexOf;
    if id in Holding(columns, TableRows(rows, t), key) {
      var r :| r in TableRows(rows, t) && Visible(r) && ExtractKey(columns, r) == key && r.id == id;
      var k :| k in rows && k.table == t && rows[k] == r;
      assert k == RowKey(t, id);
    } else if RowKey(t, id) in rows {
      assert rows[RowKey(t, id)] in TableRows(rows, t);
      assert Visible(rows[RowKey(t, id)]) ==> ExtractKey(columns, rows[RowKey(t, id)]) != key;
    }
  }

  lemma SameBuckets(a: Entries, b: Entries)
    requires NoEmptyBucket(a) && NoEmptyBucket(b) && forall key :: Bucket(a, key) == Bucket(b, key)
    ensures a == b
  {
    forall key ensures key in a <==> key in b {
      assert Bucket(a, key) == Bucket(b, key);
    }
    forall key | key in a ensures a[key] == b[key] {
      assert Bucket(a, key) == Bucket(b, key);
    }
  }

  /** An index is determined by the visible rows of each key. */
  lemma IndexByBuckets(columns: seq<ColumnId>, rows: set<Row>, e: Entries)
    requires NoEmptyBucket(e) && forall key :: Bucket(e, key) == Holding(columns, rows, key)
    ensures e == IndexOf(columns, rows)
  {
    var out := IndexOf(columns, rows);
    forall key ensures Bucket(e, key) == Bucket(out, key) && (key in out ==> out[key] != {}) {
      IndexExact(columns, rows, key);
    }
    SameBuckets(e, out);
  }

  lemma HoldingMore(columns: seq<ColumnId>, rows: set<Row>, row: Row, key: seq<Value>)
    ensures Holding(columns, rows + {row}, key)
            == Holding(columns, rows, key) + if Visible(row) && ExtractKey(columns, row) == key then {row.id} else {}
  {
    hide ExtractKey;
    forall id | id in Holding(columns, rows, key) ensures id in Holding(columns, rows + {row}, key) {
      var r :| r in rows && Visible(r) && ExtractKey(columns, r) == key && r.id == id;
      assert r in rows + {row};
    }
    if Visible(row) && ExtractKey(columns, row) == key {
      assert row in rows + {row};
    }
  }

  lemma AddedRow(columns: seq<ColumnId>, rows: set<Row>, row: Row)
    ensures UpdateEntries(columns, IndexOf(columns, rows), None, row) == IndexOf(columns, rows + {row})
  {
    hide ExtractKey, Holding, IndexOf;
    var out := UpdateEntries(columns, IndexOf(columns, rows), None, row);
    forall key ensures Bucket(out, key) == Holding(columns, rows + {row}, key) && (key in out ==> out[key] != {}) {
      IndexExact(columns, rows, key);
      HoldingMore(columns, rows, row, key);
    }
    IndexByBuckets(columns, rows + {row}, out);
  }

  lemma RemovedRow(columns: seq<ColumnId>, rows: set<Row>, row: Row)
    requires forall r | r in rows :: r.id != row.id
    ensures Dropped(columns, IndexOf(columns, rows + {row}), row) == IndexOf(columns, rows)
  {
    hide ExtractKey, IndexOf;
    var out := Dropped(columns, IndexOf(columns, rows + {row}), row);
    forall key ensures Bucket(out, key) == Holding(columns, rows, key) && (key in out ==> out[key] != {}) {
      IndexExact(columns, rows + {row}, key);
      HoldingMore(columns, rows, row, key);
      assert row.id !in Holding(columns, rows, key);
      DroppedBucket(columns, IndexOf(columns, rows + {row}), row, key);
    }
    IndexByBuckets(columns, rows, out);
  }

  lemma DroppedBucket(columns: seq<ColumnId>, e: Entries, row: Row, key: seq<Value>)
    ensures var out := Dropped(columns, e, row);
            && Bucket(out, key) == Bucket(e, key) - (if Visible(row) && ExtractKey(columns, row) == key then {row.id}
                else {})
            && (key in out ==> out[key] != {} || e[key] == {})
  {
    hide ExtractKey;
  }

  /**
   Writing a row with the stored old row keeps the index equal to the rebuilt one, empty buckets and visibility
   included.
   */
  lemma UpdateAgrees(columns: seq<ColumnId>, rows: Rows, t: TableId, row: Row)
    requires forall k | k in rows :: rows[k].id == k.row
    ensures var k := RowKey(t, row.id);
            UpdateEntries(columns, IndexOf(columns, TableRows(rows, t)), if k in rows then Some(rows[k]) else None, row)
            == IndexOf(columns, TableRows(rows[k := row], t))
  {
    var k := RowKey(t, row.id);
    var others := TableRows(rows - {k}, t);
    assert TableRows(rows[k := row], t) == others + {row} by {
      assert rows[k := row] == (rows - {k})[k := row];
      TableRowsAdd(rows - {k}, k, row);
    }
    if k in rows {
      assert TableRows(rows, t) == others + {rows[k]} by {
        assert rows == (rows - {k})[k := rows[k]];
        TableRowsAdd(rows - {k}, k, rows[k]);
      }
      RemovedRow(columns, others, rows[k]);
    } else {
      assert rows - {k} == rows;
    }
    AddedRow(columns, others, row);
  }

  lemma OtherTable(rows: Rows, k: RowKey, row: Row, t: TableId)
    requires k.table != t
    ensures TableRows(rows[k := row], t) == TableRows(rows, t)
  {
    var out := rows[k := row];
    forall r | r in TableRows(rows, t) ensures r in TableRows(out, t) {
      var j :| j in rows && j.table == t && rows[j] == r;
      assert out[j] == r;
    }
  }

  lemma TableRowsAdd(rows: Rows, k: RowKey, row: Row)
    requires k !in rows
    ensures TableRows(rows[k := row], k.table) == TableRows(rows, k.table) + {row}
  {
    var out := TableRows(rows[k := row], k.table);
    assert row in out by {
      assert k in rows[k := row] && rows[k := row][k] == row;
    }
    forall r | r in TableRows(rows, k.table) ensures r in out {
      var j :| j in rows && j.table == k.table && rows[j] == r;
      assert rows[k := row][j] == r;
    }
  }
}
