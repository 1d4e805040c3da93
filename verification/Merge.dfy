/** Last-writer-wins cells, delete-wins rows and tables: the merge lattice. */
module Merge {
  import opened Types

  predicate Visible(r: Row) { !r.deleted }

  /** A row is marked deleted exactly when it carries a delete version. */
  predicate WellFormedRow(r: Row) {
    r.deleted <==> r.deleteVersion.Some?
  }

  function MergeCell(a: Cell, b: Cell): Cell {
    if Newer(b.version, a.version) then b else a
  }

  function MergeCells(a: map<ColumnId, Cell>, b: map<ColumnId, Cell>): map<ColumnId, Cell> {
    map c | c in a.Keys + b.Keys ::
      if c in a && c in b then MergeCell(a[c], b[c]) else if c in a then a[c] else b[c]
  }

  /** The deleted flag and delete version of a merge, branch by branch. */
  function MergeDelete(a: Row, b: Row): (bool, Option<Version>) {
    if a.deleted && b.deleted && a.deleteVersion.Some? && b.deleteVersion.Some? then
      (true, if Newer(b.deleteVersion.value, a.deleteVersion.value) then b.deleteVersion else a.deleteVersion)
    else if a.deleted then (true, a.deleteVersion)
    else if b.deleted then (true, b.deleteVersion)
    else (false, None)
  }

  function MergeRow(a: Row, b: Row): Row {
    var (deleted, version) := MergeDelete(a, b);
    Row(a.id, MergeCells(a.cells, b.cells), deleted, version)
  }

  /** Merges the rows stored under each key; keys of either side survive. */
  function MergeTable<K>(a: map<K, Row>, b: map<K, Row>): map<K, Row> {
    map k | k in a.Keys + b.Keys ::
      if k in a && k in b then MergeRow(a[k], b[k]) else if k in a then a[k] else b[k]
  }

  // ---------------------------------------------------------- the loops

  method ComputeMergeRow(a: Row, b: Row) returns (r: Row)
    ensures r == MergeRow(a, b)
  {
    var cells: map<ColumnId, Cell> := map[];
    var todo := a.cells.Keys;
    while todo != {}
      invariant todo <= a.cells.Keys && cells.Keys == a.cells.Keys - todo
      invariant forall c | c in cells :: cells[c] == MergeCells(a.cells, b.cells)[c]
    {
      var c :| c in todo;
      var cell := a.cells[c];
      if c in b.cells {
        cell := MergeCell(cell, b.cells[c]);
      }
      cells := cells[c := cell];
      todo := todo - {c};
    }
    todo := b.cells.Keys;
    while todo != {}
      invariant todo <= b.cells.Keys && cells.Keys == a.cells.Keys + (b.cells.Keys - todo)
      invariant forall c | c in cells :: cells[c] == MergeCells(a.cells, b.cells)[c]
    {
      var c :| c in todo;
      if c !in cells {
        cells := cells[c := b.cells[c]];
      }
      todo := todo - {c};
    }
    var (deleted, version) := MergeDelete(a, b);
    r := Row(a.id, cells, deleted, version);
  }

  method ComputeMergeTable(a: map<RowId, Row>, b: map<RowId, Row>) returns (r: map<RowId, Row>)
    ensures r == MergeTable(a, b)
  {
    r := a;
    var todo := b.Keys;
    while todo != {}
      invariant todo <= b.Keys && r.Keys == a.Keys + (b.Keys - todo)
      invariant forall k | k in r :: r[k] == if k in todo then a[k] else MergeTable(a, b)[k]
    {
      var k :| k in todo;
      var merged := b[k];
      if k in r {
        merged := ComputeMergeRow(r[k], b[k]);
      }
      r := r[k := merged];
      todo := todo - {k};
    }
  }

  // -------------------------------------------------------- the lattice

  /** Equal versions of the same column carry equal values. */
  predicate Agree(a: Row, b: Row) {
    forall c | c in a.cells && c in b.cells && a.cells[c].version == b.cells[c].version :: a.cells[c] == b.cells[c]
  }

  /** a holds no newer cell and no newer delete than b. */
  predicate RowBelow(a: Row, b: Row) {
    && (forall c | c in a.cells :: c in b.cells && AtLeast(b.cells[c].version, a.cells[c].version))
    && (a.deleted ==> b.deleted)
    && (a.deleteVersion.Some? ==> b.deleteVersion.Some? && AtLeast(b.deleteVersion.value, a.deleteVersion.value))
  }

  ghost predicate Compatible<K(!new)>(a: map<K, Row>, b: map<K, Row>) {
    forall k | k in a && k in b :: a[k].id == b[k].id && Agree(a[k], b[k])
  }

  ghost predicate WellFormedTable<K(!new)>(a: map<K, Row>) {
    forall k | k in a :: WellFormedRow(a[k])
  }

  ghost predicate TableBelow<K(!new)>(a: map<K, Row>, b: map<K, Row>) {
    forall k | k in a :: k in b && RowBelow(a[k], b[k])
  }

  /**
   The later cell wins from either side: the one with the larger counter, on a tie the one of the larger peer id, which
   may be a proper extension of the other id.
   */
  lemma LaterCellWins(a: Cell, b: Cell)
    requires
      || a.version.counter < b.version.counter
      || (a.version.counter == b.version.counter
          && exists i: nat | i <= |a.version.peer| && i < |b.version.peer| ::
               && a.version.peer[..i] == b.version.peer[..i]
               && (i == |a.version.peer| || a.version.peer[i] < b.version.peer[i]))
    ensures MergeCell(a, b) == b && MergeCell(b, a) == b
  {
    VersionOrder();
    NewerIff(b.version, a.version);
  }

  lemma MergeRowCommutes(a: Row, b: Row)
    requires a.id == b.id && Agree(a, b) && WellFormedRow(a) && WellFormedRow(b)
    ensures MergeRow(a, b) == MergeRow(b, a)
  {
    VersionOrder();
    assert MergeCells(a.cells, b.cells) == MergeCells(b.cells, a.cells);
  }

  lemma MergeRowAssociates(a: Row, b: Row, c: Row)
    requires WellFormedRow(a) && WellFormedRow(b) && WellFormedRow(c)
    ensures MergeRow(MergeRow(a, b), c) == MergeRow(a, MergeRow(b, c))
  {
    VersionOrder();
    assert MergeCells(MergeCells(a.cells, b.cells), c.cells) == MergeCells(a.cells, MergeCells(b.cells, c.cells));
  }

  /** Merging in a row changes nothing exactly when that row is already below. */
  lemma MergeRowAbsorbs(a: Row, b: Row)
    requires WellFormedRow(a) && WellFormedRow(b)
    ensures MergeRow(a, b) == a <==> RowBelow(b, a)
  {
    VersionOrder();
    if RowBelow(b, a) {
      assert MergeCells(a.cells, b.cells) == a.cells;
    } else if MergeRow(a, b) == a {
      assert MergeCells(a.cells, b.cells) == a.cells;
      forall c | c in b.cells ensures c in a.cells && AtLeast(a.cells[c].version, b.cells[c].version) {
        assert c in MergeCells(a.cells, b.cells);
      }
    }
  }

  /** The merge is the least row above both arguments, under per-cell versions and delete-wins. */
  lemma MergeRowLeast(a: Row, b: Row, r: Row)
    requires WellFormedRow(a) && WellFormedRow(b) && WellFormedRow(r)
    ensures WellFormedRow(MergeRow(a, b))
    ensures RowBelow(MergeRow(a, b), r) <==> RowBelow(a, r) && RowBelow(b, r)
    ensures RowBelow(a, MergeRow(a, b)) && RowBelow(b, MergeRow(a, b))
  {
    hide Newer, MergeCells;
    MergeCellsLeast(a.cells, b.cells);
    VersionOrder();
  }

  lemma MergeCellsLeast(a: map<ColumnId, Cell>, b: map<ColumnId, Cell>)
    ensures var m := MergeCells(a, b);
            && (forall c | c in a :: c in m && AtLeast(m[c].version, a[c].version))
            && (forall c | c in b :: c in m && AtLeast(m[c].version, b[c].version))
            && (forall c | c in m :: (c in a && m[c] == a[c]) || (c in b && m[c] == b[c]))
  {
    hide Newer;
    VersionOrder();
  }

  lemma MergeTableCommutes<K(!new)>(a: map<K, Row>, b: map<K, Row>)
    requires Compatible(a, b) && WellFormedTable(a) && WellFormedTable(b)
    ensures MergeTable(a, b) == MergeTable(b, a)
  {
    forall k | k in a && k in b ensures MergeRow(a[k], b[k]) == MergeRow(b[k], a[k]) {
      MergeRowCommutes(a[k], b[k]);
    }
  }

  lemma MergeTableAssociates<K(!new)>(a: map<K, Row>, b: map<K, Row>, c: map<K, Row>)
    requires WellFormedTable(a) && WellFormedTable(b) && WellFormedTable(c)
    ensures MergeTable(MergeTable(a, b), c) == MergeTable(a, MergeTable(b, c))
  {
    hide MergeRow;
    forall k | k in a && k in b && k in c
      ensures MergeRow(MergeRow(a[k], b[k]), c[k]) == MergeRow(a[k], MergeRow(b[k], c[k]))
    {
      MergeRowAssociates(a[k], b[k], c[k]);
    }
  }

  /** Tables form a join semilattice: the merge is the least upper bound, and idempotent as a consequence. */
  lemma MergeTableLeast<K(!new)>(a: map<K, Row>, b: map<K, Row>, t: map<K, Row>)
    requires WellFormedTable(a) && WellFormedTable(b) && WellFormedTable(t)
    ensures TableBelow(MergeTable(a, b), t) <==> TableBelow(a, t) && TableBelow(b, t)
    ensures TableBelow(a, MergeTable(a, b)) && TableBelow(b, MergeTable(a, b))
    ensures TableBelow(b, a) ==> MergeTable(a, b) == a
  {
    var m := MergeTable(a, b);
    forall k | k in m
      ensures k in t ==> (RowBelow(m[k], t[k]) <==>
              (k in a ==> RowBelow(a[k], t[k])) && (k in b ==> RowBelow(b[k], t[k])))
      ensures k in a ==> RowBelow(a[k], m[k])
      ensures k in b ==> RowBelow(b[k], m[k])
    {
      if k in a && k in b {
        if k in t {
          MergeRowLeast(a[k], b[k], t[k]);
        } else {
          MergeRowLeast(a[k], b[k], a[k]);
        }
      } 
    }
    if TableBelow(m, t) {
      assert forall k | k in a :: k in m;
      assert forall k | k in b :: k in m;
    }
    if TableBelow(b, a) {
      forall k | k in a && k in b ensures MergeRow(a[k], b[k]) == a[k] {
        MergeRowAbsorbs(a[k], b[k]);
      }
    }
  }
}
