/** A replica seen as a map of last-writer-wins slots: cells, deletes, tombstones and owners. */
module Slots {
  import opened Types
  import opened Frontiers
  import opened Merge
  import opened Storage
  import opened Delta

  datatype Slot = CellAt(key: RowKey, column: ColumnId) | DeleteAt(key: RowKey) | TombAt(key: RowKey) |
      OwnerAt(claim: ClaimKey)

  datatype Payload = Written(value: Value) | Marked | Held(row: RowId)

  datatype Entry = Entry(version: Version, payload: Payload)

  function CellEntry(r: Row, c: ColumnId): Option<Entry> {
    if c in r.cells then Some(Entry(r.cells[c].version, Written(r.cells[c].value))) else None
  }

  function DeleteEntry(r: Row): Option<Entry> {
    if r.deleteVersion.Some? then Some(Entry(r.deleteVersion.value, Marked)) else None
  }

  function Get(x: Replica, s: Slot): Option<Entry> {
    match s
    case CellAt(k, c) => if k in x.rows then CellEntry(x.rows[k], c) else None
    case DeleteAt(k) => if k in x.rows then DeleteEntry(x.rows[k]) else None
    case TombAt(k) =>
      if k in x.tombs then Some(Entry(x.tombs[k], Marked)) else None
    case OwnerAt(c) =>
      if c in x.claims then Some(Entry(x.claims[c].version, Held(x.claims[c].owner))) else None
  }

  /** The newer of two entries; the first on a tie. */
  function Later(a: Option<Entry>, b: Option<Entry>): Option<Entry> {
    if b.None? then a
    else if a.None? then b
    else if Newer(b.value.version, a.value.version) then b else a
  }

  /** The slot belongs to a row whose key was garbage collected somewhere. */
  predicate Gone(s: Slot, gone: set<RowKey>) {
    !s.OwnerAt? && s.key in gone
  }

  /** Whatever of a the frontier of b has reached, b holds at least as new; gone rows excepted. */
  ghost predicate Complete(a: Replica, b: Replica, gone: set<RowKey>) {
    forall s {:trigger Get(a, s)} | !Gone(s, gone) && Get(a, s).Some? && Covers(b.frontier, Get(a, s).value.version) ::
      Get(b, s).Some? && AtLeast(Get(b, s).value.version, Get(a, s).value.version)
  }

  /** The delete of a row and its tombstone are the same event. */
  ghost predicate Mirror(x: Replica, gone: set<RowKey>) {
    forall k {:trigger Get(x, DeleteAt(k))} {:trigger Get(x, TombAt(k))} | k !in gone ::
        Get(x, DeleteAt(k)) == Get(x, TombAt(k))
  }

  /** Stored rows are well formed, carry their key as id and have a cell. */
  ghost predicate Stored(rows: Rows) {
    forall k | k in rows :: WellFormedRow(rows[k]) && rows[k].id == k.row && rows[k].cells != map[]
  }

  // ---------------------------------------------- delta rows and tombstones

  /** What a delta with distinct keys does to one row. */
  lemma {:induction false} ApplyRowsAt(rows: Rows, src: Rows, rs: seq<RowDelta>, k: RowKey)
    requires forall r | r in rs :: KeyOf(r) in src && src[KeyOf(r)] == r.row
    requires forall i, j | 0 <= i < j < |rs| :: KeyOf(rs[i]) != KeyOf(rs[j])
    ensures var out := ApplyRows(rows, rs);
            if exists r :: r in rs && KeyOf(r) == k then
              k in out && out[k] == if k in rows then MergeRow(rows[k], src[k]) else src[k]
            else (k in out <==> k in rows) && (k in rows ==> out[k] == rows[k])
  {
    if rs != [] {
      var n := |rs| - 1;
      assert rs == rs[..n] + [rs[n]];
      ApplyRowsAt(rows, src, rs[..n], k);
      if KeyOf(rs[n]) == k {
        assert rs[n] in rs;
        assert forall r | r in rs[..n] :: KeyOf(r) != k;
      } else {
        assert (exists r :: r in rs && KeyOf(r) == k) <==> (exists r :: r in rs[..n] && KeyOf(r) == k);
      }
    }
  }

  lemma {:induction false} ApplyTombsAt(rows: Rows, src: Tombs, ts: seq<Tombstone>, k: RowKey)
    requires forall t | t in ts :: t.key in src && src[t.key] == t.version
    requires forall i, j | 0 <= i < j < |ts| :: ts[i].key != ts[j].key
    ensures var out := ApplyTombs(rows, ts);
            && (k in out <==> k in rows)
            && (k in rows ==> out[k] == if exists t :: t in ts && t.key == k
                                       then ApplyTomb(rows, Tombstone(k, src[k]))[k] else rows[k])
  {
    if ts != [] {
      var n := |ts| - 1;
      assert ts == ts[..n] + [ts[n]];
      ApplyTombsAt(rows, src, ts[..n], k);
      if ts[n].key == k {
        assert ts[n] in ts;
        assert forall t | t in ts[..n] :: t.key != k;
      } else {
        assert (exists t :: t in ts && t.key == k) <==> (exists t :: t in ts[..n] && t.key == k);
      }
    }
  }

  lemma {:induction false} IncomingTombsAt(src: Tombs, ts: seq<Tombstone>, k: RowKey)
    requires forall t | t in ts :: t.key in src && src[t.key] == t.version
    ensures var out := IncomingTombs(ts);
            (k in out <==> exists t :: t in ts && t.key == k) && (k in out ==> k in src && out[k] == src[k])
  {
    if ts != [] {
      var n := |ts| - 1;
      assert ts == ts[..n] + [ts[n]];
      IncomingTombsAt(src, ts[..n], k);
    }
  }

  function At<V>(m: map<RowKey, V>, k: RowKey): Option<V> {
    if k in m then Some(m[k]) else None
  }

  /** A row stamped with a received tombstone. */
  function StampedRow(r: Row, v: Version): Row {
    if !r.deleted || r.deleteVersion.None? || Newer(v, r.deleteVersion.value) then
      r.(deleted := true, deleteVersion := Some(v))
    else r
  }

  /**
   The receiver's row a after a sender with row b and tombstone t: merged when sent, then stamped when the tombstone was
   sent.
   */
  function Outcome(a: Option<Row>, b: Option<Row>, t: Option<Version>, f: Frontier): Option<Row> {
    var merged := if b.Some? && Needed(b.value, f) then Some(if a.Some? then MergeRow(a.value, b.value) else b.value)
        else a;
    if merged.Some? && t.Some? && !Covers(f, t.value) then Some(StampedRow(merged.value, t.value)) else merged
  }

  lemma DeliverRow(rows: Rows, s: Replica, f: Frontier, d: SyncDelta, k: RowKey)
    requires IsDelta(s, f, d) && Stored(s.rows)
    ensures At(ApplyTombs(ApplyRows(rows, d.rows), d.tombstones), k)
            == Outcome(At(rows, k), At(s.rows, k), At(s.tombs, k), f)
  {
    hide Newer, MergeRow;
    var mid := ApplyRows(rows, d.rows);
    assert At(mid, k) == Outcome(At(rows, k), At(s.rows, k), None, f) by {
      ApplyRowsAt(rows, s.rows, d.rows, k);
      if k in s.rows && Needed(s.rows[k], f) {
        assert RowDelta(k.table, s.rows[k]) in d.rows && KeyOf(RowDelta(k.table, s.rows[k])) == k;
      }
    }
    ApplyTombsAt(mid, s.tombs, d.tombstones, k);
    if k in s.tombs && !Covers(f, s.tombs[k]) {
      assert Tombstone(k, s.tombs[k]) in d.tombstones;
    }
  }

  lemma DeliverTomb(c: Replica, s: Replica, f: Frontier, d: SyncDelta, k: RowKey)
    requires IsDelta(s, f, d)
    ensures Get(c.(tombs := MergeTombs(c.tombs, IncomingTombs(d.tombstones))), TombAt(k)) ==
            Later(Get(c, TombAt(k)), if k in s.tombs && !Covers(f, s.tombs[k]) then Get(s, TombAt(k)) else None)
  {
    IncomingTombsAt(s.tombs, d.tombstones, k);
    if k in s.tombs && !Covers(f, s.tombs[k]) {
      assert Tombstone(k, s.tombs[k]) in d.tombstones;
    }
  }
}
