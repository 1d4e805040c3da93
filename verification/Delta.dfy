/** Delta extraction and application, and what an applied delta does slot by slot. */
module Delta {
  import opened Types
  import opened Frontiers
  import opened Merge
  import opened Uniqueness
  import opened Storage

  // ------------------------------------------------------- extraction

  /** Some cell or the delete of the row is above the remote frontier. */
  predicate Needed(row: Row, f: Frontier) {
    || (exists c :: c in row.cells && !Covers(f, row.cells[c].version))
    || (row.deleteVersion.Some? && !Covers(f, row.deleteVersion.value))
  }

  /** d is the delta of x for a receiver at frontier f: what is above f, all claims, each once, in any order. */
  ghost predicate IsDelta(x: Replica, f: Frontier, d: SyncDelta) {
    && d.source == x.peer && d.frontier == x.frontier
    && RowsDelta(x.rows, f, d.rows, x.rows.Keys)
    && TombsDelta(x.tombs, f, d.tombstones, x.tombs.Keys)
    && Enumerates(d.claims, x.claims)
  }

  ghost predicate RowsDelta(rows: Rows, f: Frontier, out: seq<RowDelta>, done: set<RowKey>) {
    && (forall r | r in out :: KeyOf(r) in done && KeyOf(r) in rows && rows[KeyOf(r)] == r.row && Needed(r.row, f))
    && (forall k | k in done && k in rows && Needed(rows[k], f) :: RowDelta(k.table, rows[k]) in out)
    && (forall i, j | 0 <= i < j < |out| :: KeyOf(out[i]) != KeyOf(out[j]))
  }

  ghost predicate TombsDelta(tombs: Tombs, f: Frontier, out: seq<Tombstone>, done: set<RowKey>) {
    && (forall t | t in out :: t.key in done && t.key in tombs && tombs[t.key] == t.version && !Covers(f, t.version))
    && (forall k | k in done && k in tombs && !Covers(f, tombs[k]) :: Tombstone(k, tombs[k]) in out)
    && (forall i, j | 0 <= i < j < |out| :: out[i].key != out[j].key)
  }

  function KeyOf(r: RowDelta): RowKey {
    RowKey(r.table, r.row.id)
  }

  method ExtractRows(storage: StorageEngine, f: Frontier) returns (out: seq<RowDelta>)
    requires storage.Valid()
    ensures RowsDelta(storage.rows, f, out, storage.rows.Keys)
  {
    out := [];
    var rows := storage.rows;
    var names := storage.names;
    ghost var done: set<RowKey> := {};
    while names != {}
      invariant names <= storage.names
      invariant done == set k | k in rows && k.table !in names
      invariant RowsDelta(rows, f, out, done)
    {
      var t :| t in names;
      var todo := storage.KeysOf(t);
      ghost var start := done;
      while todo != {}
        invariant todo <= storage.KeysOf(t)
        invariant done == start + (storage.KeysOf(t) - todo)
        invariant RowsDelta(rows, f, out, done)
      {
        var k :| k in todo;
        if Needed(rows[k], f) {
          assert forall i | 0 <= i < |out| :: out[i] in out && KeyOf(out[i]) in done;
          out := out + [RowDelta(t, rows[k])];
        }
        done := done + {k};
        todo := todo - {k};
      }
      names := names - {t};
    }
    assert done == rows.Keys;
  }

  method ExtractTombs(ts: Tombs, f: Frontier) returns (out: seq<Tombstone>)
    ensures TombsDelta(ts, f, out, ts.Keys)
  {
    out := [];
    var todo := ts.Keys;
    while todo != {}
      invariant todo <= ts.Keys && TombsDelta(ts, f, out, ts.Keys - todo)
    {
      var k :| k in todo;
      if !Covers(f, ts[k]) {
        assert forall i | 0 <= i < |out| :: out[i] in out && out[i].key in ts.Keys - todo;
        out := out + [Tombstone(k, ts[k])];
      }
      todo := todo - {k};
    }
    assert ts.Keys - todo == ts.Keys;
  }

  method ExtractClaims(claims: Claims) returns (out: seq<ClaimRecord>)
    ensures Enumerates(out, claims)
  {
    out := [];
    var todo := claims.Keys;
    while todo != {}
      invariant todo <= claims.Keys
      invariant forall r | r in out :: r.key in claims && r.key !in todo && claims[r.key] == r.claim
      invariant forall key | key in claims && key !in todo :: ClaimRecord(key, claims[key]) in out
      invariant forall i, j | 0 <= i < j < |out| :: out[i].key != out[j].key
    {
      var key :| key in todo;
      assert forall i | 0 <= i < |out| :: out[i] in out;
      out := out + [ClaimRecord(key, claims[key])];
      todo := todo - {key};
    }
  }

  method ExtractDelta(src: ReplicaState, f: Frontier) returns (d: SyncDelta)
    requires src.Valid()
    ensures IsDelta(src.View(), f, d)
  {
    var rows := ExtractRows(src.storage, f);
    var tombs := ExtractTombs(src.tombstones.entries, f);
    var claims := ExtractClaims(src.uniqueness.claims);
    d := SyncDelta(src.peer, rows, tombs, claims, src.frontier);
  }

  // ------------------------------------------------------ application

  function ApplyRow(rows: Rows, r: RowDelta): Rows {
    var k := KeyOf(r);
    rows[k := if k in rows then MergeRow(rows[k], r.row) else r.row]
  }

  function ApplyRows(rows: Rows, rs: seq<RowDelta>): Rows {
    if rs == [] then rows else ApplyRow(ApplyRows(rows, rs[..|rs| - 1]), rs[|rs| - 1])
  }

  /** A received tombstone deletes the stored row unless its delete is already as new. */
  function ApplyTomb(rows: Rows, t: Tombstone): Rows {
    if t.key in rows && (!rows[t.key].deleted || rows[t.key].deleteVersion.None?
        || Newer(t.version, rows[t.key].deleteVersion.value)) then
      rows[t.key := rows[t.key].(deleted := true, deleteVersion := Some(t.version))]
    else rows
  }

  function ApplyTombs(rows: Rows, ts: seq<Tombstone>): Rows {
    if ts == [] then rows else ApplyTomb(ApplyTombs(rows, ts[..|ts| - 1]), ts[|ts| - 1])
  }

  /** The incoming tombstone store; a repeated key keeps its last entry. */
  function IncomingTombs(ts: seq<Tombstone>): Tombs {
    if ts == [] then map[] else IncomingTombs(ts[..|ts| - 1])[ts[|ts| - 1].key := ts[|ts| - 1].version]
  }

  ghost function Apply(x: Replica, d: SyncDelta): Replica {
    var clock := Max(x.clock, Highest(d.frontier));
    Replica(
      x.peer, clock,
      Bump(MergeFrontiers(x.frontier, d.frontier), x.peer, clock),
      ApplyTombs(ApplyRows(x.rows, d.rows), d.tombstones),
      MergeTombs(x.tombs, IncomingTombs(d.tombstones)),
      MergeClaims(x.claims, Rebuild(d.claims)),
      x.schemas)
  }

  method ApplyRowDeltas(storage: StorageEngine, rs: seq<RowDelta>)
    requires storage.Valid()
    modifies storage
    ensures storage.Valid() && storage.rows == ApplyRows(old(storage.rows), rs)
  {
    ghost var start := storage.rows;
    for i := 0 to |rs|
      invariant storage.Valid() && storage.rows == ApplyRows(start, rs[..i])
    {
      assert rs[..i + 1][..i] == rs[..i];
      var r := rs[i];
      if r.table !in storage.names {
        storage.CreateTable(r.table);
      }
      var merged := r.row;
      if KeyOf(r) in storage.rows {
        merged := ComputeMergeRow(storage.rows[KeyOf(r)], r.row);
      }
      storage.UpsertRow(r.table, merged);
    }
    assert rs[..|rs|] == rs;
  }

  method ApplyTombstones(storage: StorageEngine, ts: seq<Tombstone>) returns (incoming: TombstoneStore)
    requires storage.Valid()
    modifies storage
    ensures storage.Valid() && storage.rows == ApplyTombs(old(storage.rows), ts)
    ensures fresh(incoming) && incoming.entries == IncomingTombs(ts)
  {
    ghost var start := storage.rows;
    incoming := new TombstoneStore();
    for i := 0 to |ts|
      invariant storage.Valid() && storage.rows == ApplyTombs(start, ts[..i])
      invariant fresh(incoming) && incoming.entries == IncomingTombs(ts[..i])
    {
      assert ts[..i + 1][..i] == ts[..i];
      var t := ts[i];
      incoming.Insert(t);
      match storage.GetRow(t.key.table, t.key.row) {
        case Some(row) =>
          if !row.deleted || row.deleteVersion.None? || Newer(t.version, row.deleteVersion.value) {
            storage.UpsertRow(t.key.table, row.(deleted := true, deleteVersion := Some(t.version)));
          }
        case None =>
      }
    }
    assert ts[..|ts|] == ts;
  }

  method ApplyDelta(target: ReplicaState, d: SyncDelta)
    requires target.Valid()
    modifies target.Repr()
    ensures target.Valid() && target.View() == Apply(old(target.View()), d)
  {
    ApplyRowDeltas(target.storage, d.rows);
    var incoming := ApplyTombstones(target.storage, d.tombstones);
    target.tombstones.Merge(incoming);
    var incomingClaims := new UniquenessRegistry();
    incomingClaims.FileAll(d.claims);
    target.uniqueness.Merge(incomingClaims);
    target.clock.UpdateFromFrontier(d.frontier);
    var merged := ComputeMergeFrontiers(target.frontier, d.frontier);
    target.frontier := Bump(merged, target.peer, target.clock.counter);
  }
}
