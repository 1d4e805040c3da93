/**
 The invariants of one replica and of a pair of replicas, and the two ways a replica changes: local writes and
 deliveries.
 */
module Invariants {
  import opened Types
  import opened Frontiers
  import opened Merge
  import opened Uniqueness
  import opened Storage
  import opened Delta
  import opened Slots

  // ------------------------------------------------------- one replica

  /** Every stored version has been reached by the replica's own frontier. */
  ghost predicate Covered(x: Replica) {
    && (forall s {:trigger Get(x, s)} | Get(x, s).Some? :: Covers(x.frontier, Get(x, s).value.version))
    && (forall key, row, v | key in x.claims && Files(x.claims[key], row, v) :: Covers(x.frontier, v))
  }

  /** The clock is the replica's own frontier entry and no entry exceeds it. */
  ghost predicate ClockDominates(x: Replica) {
    Seen(x.frontier, x.peer) == x.clock && forall p :: Seen(x.frontier, p) <= x.clock
  }

  /** Column names are distinct and hold no unit separator; composite constraints name at least one column. */
  ghost predicate WellFormedSchemas(schemas: Schemas) {
    forall t | t in schemas ::
      && (forall i, j | 0 <= i < j < |schemas[t].columns| :: schemas[t].columns[i].name != schemas[t].columns[j].name)
      && (forall c | c in schemas[t].columns :: SEPARATOR !in c.name)
      && (forall u | u in schemas[t].composites :: u != [])
  }

  predicate UniqueColumn(schemas: Schemas, t: TableId, c: ColumnId) {
    t in schemas && exists col | col in schemas[t].columns :: col.name == c && col.unique && !col.primaryKey
  }

  /** The claim a row needs for the value of a single-column UNIQUE. */
  function ClaimFor(k: RowKey, c: ColumnId, v: Value): ClaimKey {
    ClaimKey(k.table, c, Display(v))
  }

  ghost predicate Claimant(claims: Claims, key: ClaimKey, row: RowId) {
    key in claims && FiledRow(claims[key], row)
  }

  /** Every row holding a value of a UNIQUE column, deleted or not, is a claimant of that value. */
  ghost predicate Holders(x: Replica) {
    forall k, c | k in x.rows && c in x.rows[k].cells && UniqueColumn(x.schemas, k.table, c)
        && x.rows[k].cells[c].value != Null ::
      Claimant(x.claims, ClaimFor(k, c, x.rows[k].cells[c].value), k.row)
  }

  /** A version names one row among the claims of a key in a and b. */
  ghost predicate ClaimsAgree(a: Claims, b: Claims) {
    forall key, r1, r2, v | key in a && key in b && Files(a[key], r1, v) && Files(b[key], r2, v) :: r1 == r2
  }

  ghost predicate ClaimsOrdered(m: Claims) {
    forall key | key in m :: LosersBelow(m[key])
  }

  ghost predicate LocalInv(x: Replica) {
    && Stored(x.rows) && Covered(x) && ClockDominates(x)
    && ClaimsOrdered(x.claims) && ClaimsAgree(x.claims, x.claims)
    && Holders(x) && WellFormedSchemas(x.schemas)
  }

  /** A tick yields a version above everything stored, claims included. */
  lemma TickIsNewest(x: Replica, s: Slot)
    requires LocalInv(x) && Get(x, s).Some?
    ensures Newer(NextVersion(x), Get(x, s).value.version) && Get(x, s).value.version.counter <= x.clock
  {
    assert Seen(x.frontier, Get(x, s).value.version.peer) <= x.clock;
  }

  lemma StoredVersionsBelowClock(x: Replica)
    requires LocalInv(x)
    ensures forall s {:trigger Get(x, s)} | Get(x, s).Some? :: Get(x, s).value.version.counter <= x.clock
    ensures forall key, row, v | key in x.claims && Files(x.claims[key], row, v) :: v.counter <= x.clock
  {
    forall s | Get(x, s).Some? ensures Get(x, s).value.version.counter <= x.clock {
      assert Seen(x.frontier, Get(x, s).value.version.peer) <= x.clock;
    }
    forall key, row, v | key in x.claims && Files(x.claims[key], row, v) ensures v.counter <= x.clock {
      assert Seen(x.frontier, v.peer) <= x.clock;
    }
  }

  // ------------------------------------------------------- local writes

  /** v was issued by x's peer between the states x and y. */
  predicate Issued(x: Replica, y: Replica, v: Version) {
    v.peer == x.peer && x.clock < v.counter <= y.clock
  }

  ghost predicate WriteFrame(x: Replica, y: Replica) {
    && y.peer == x.peer && y.schemas == x.schemas && x.clock <= y.clock
    && y.frontier == (if y.clock == x.clock then x.frontier else x.frontier[x.peer := y.clock])
  }

  /** A changed slot carries a version ticked on the way. */
  ghost predicate SlotsWritten(x: Replica, y: Replica) {
    forall s {:trigger Get(y, s)} :: Get(y, s) == Get(x, s)
        || (Get(y, s).Some? && Issued(x, y, Get(y, s).value.version))
  }

  ghost predicate MirrorKept(x: Replica, y: Replica) {
    forall k {:trigger Get(y, TombAt(k))} {:trigger Get(y, DeleteAt(k))} | Get(x, DeleteAt(k)) == Get(x, TombAt(k)) ::
      Get(y, DeleteAt(k)) == Get(y, TombAt(k))
  }

  /** Rows are kept and deleted rows stay deleted. */
  ghost predicate RowsGrow(x: Replica, y: Replica) {
    forall k | k in x.rows :: k in y.rows && (x.rows[k].deleted ==> y.rows[k].deleted)
  }

  /** y is reached from x by local writes only. */
  ghost predicate Writes(x: Replica, y: Replica) {
    WriteFrame(x, y) && SlotsWritten(x, y) && MirrorKept(x, y) && RowsGrow(x, y) && ClaimsGrow(x, y)
  }

  ghost predicate ClaimsGrow(x: Replica, y: Replica) {
    && (forall key, row, v | key in y.claims && Files(y.claims[key], row, v) ::
          Issued(x, y, v) || (key in x.claims && Files(x.claims[key], row, v)))
    && (forall key, row | Claimant(x.claims, key, row) :: Claimant(y.claims, key, row))
  }

  lemma WritesReflexive(x: Replica)
    ensures Writes(x, x)
  {
  }

  lemma WritesTransitive(x: Replica, y: Replica, z: Replica)
    requires Writes(x, y) && Writes(y, z)
    ensures Writes(x, z)
  {
    forall s
      ensures Get(z, s) == Get(x, s) || (Get(z, s).Some? && Issued(x, z, Get(z, s).value.version))
    {
      assert Get(z, s) == Get(y, s) || (Get(z, s).Some? && Issued(y, z, Get(z, s).value.version));
      assert Get(y, s) == Get(x, s) || (Get(y, s).Some? && Issued(x, y, Get(y, s).value.version));
    }
    forall k | Get(x, DeleteAt(k)) == Get(x, TombAt(k))
      ensures Get(z, DeleteAt(k)) == Get(z, TombAt(k))
    {
      assert Get(y, DeleteAt(k)) == Get(y, TombAt(k));
    }
  }

  // ------------------------------------------------------- deliveries

  ghost function LogOf(m: Claims): set<Filing> {
    (set key | key in m :: Filing(key, m[key].owner, m[key].version)) +
    (set key, l | key in m && l in m[key].losers :: Filing(key, l.row, l.version))
  }

  lemma LogOfMembers(m: Claims)
    ensures forall key, row, v :: Filing(key, row, v) in LogOf(m) <==> key in m && Files(m[key], row, v)
  {
    forall key, row, v | key in m && Files(m[key], row, v) ensures Filing(key, row, v) in LogOf(m) {
      if Loser(row, v) in m[key].losers {
        var l := Loser(row, v);
        assert Filing(key, l.row, l.version) in LogOf(m);
      }
    }
  }

  lemma LogOfTracks(m: Claims)
    requires ClaimsOrdered(m)
    ensures Tracks(m, LogOf(m))
  {
    LogOfMembers(m);
    forall key | key in m ensures TracksKey(m[key], key, LogOf(m)) {
      forall f | f in LogOf(m) && f.key == key ensures AtLeast(m[key].version, f.version) && FiledRow(m[key], f.row) {
        assert Filing(key, f.row, f.version) == f;
        assert Files(m[key], f.row, f.version);
      }
    }
  }

  lemma LogsConsistent(a: Claims, b: Claims)
    requires ClaimsAgree(a, a) && ClaimsAgree(a, b) && ClaimsAgree(b, b)
    ensures Consistent(LogOf(a) + LogOf(b))
  {
    LogOfMembers(a);
    LogOfMembers(b);
    forall f, g | f in LogOf(a) + LogOf(b) && g in LogOf(a) + LogOf(b) && f.key == g.key && f.version == g.version
      ensures f.row == g.row
    {
      assert f == Filing(f.key, f.row, f.version) && g == Filing(g.key, g.row, g.version);
    }
  }

  /** Merging a rebuilt registry: owners are the newer of both, filings come from either, claimants of both are kept. */
  lemma DeliverClaims(a: Claims, b: Claims, records: seq<ClaimRecord>)
    requires ClaimsOrdered(a) && ClaimsOrdered(b) && Enumerates(records, b)
    requires ClaimsAgree(a, a) && ClaimsAgree(a, b) && ClaimsAgree(b, b)
    ensures Tracks(MergeClaims(a, Rebuild(records)), LogOf(a) + LogOf(b))
    ensures Consistent(LogOf(a) + LogOf(b))
  {
    LogOfTracks(a);
    LogOfTracks(b);
    LogsConsistent(a, b);
    SubsetConsistent(LogOf(b), LogOf(a) + LogOf(b));
    RebuildTracks(records, b, LogOf(b));
    MergeClaimsTracks(a, Rebuild(records), LogOf(a), LogOf(b));
  }

  function OwnerEntry(m: Claims, key: ClaimKey): Option<Entry> {
    if key in m then Some(Entry(m[key].version, Held(m[key].owner))) else None
  }

  lemma TrackedUnion(a: Claims, b: Claims, out: Claims)
    requires ClaimsOrdered(a) && ClaimsOrdered(b) && Consistent(LogOf(a) + LogOf(b))
    requires Tracks(out, LogOf(a) + LogOf(b))
    ensures forall key :: OwnerEntry(out, key) == Later(OwnerEntry(a, key), OwnerEntry(b, key))
    ensures forall key, row, v | key in out && Files(out[key], row, v) ::
              (key in a && Files(a[key], row, v)) || (key in b && Files(b[key], row, v))
    ensures forall key, row | Claimant(a, key, row) || Claimant(b, key, row) :: Claimant(out, key, row)
    ensures ClaimsOrdered(out) && ClaimsAgree(out, out)
  {
    var log := LogOf(a) + LogOf(b);
    LogOfMembers(a);
    LogOfMembers(b);
    LogOfTracks(a);
    LogOfTracks(b);
    forall key, row, v | key in out && Files(out[key], row, v)
      ensures Filing(key, row, v) in log
    {
      assert TracksKey(out[key], key, log);
    }
    forall key ensures OwnerEntry(out, key) == Later(OwnerEntry(a, key), OwnerEntry(b, key)) {
      TrackedOwner(a, b, out, key);
    }
    forall key, row | Claimant(a, key, row) || Claimant(b, key, row) ensures Claimant(out, key, row) {
      TrackedClaimant(a, b, out, key, row);
    }
  }

  lemma TrackedClaimant(a: Claims, b: Claims, out: Claims, key: ClaimKey, row: RowId)
    requires ClaimsOrdered(a) && ClaimsOrdered(b) && Tracks(out, LogOf(a) + LogOf(b))
    requires Claimant(a, key, row) || Claimant(b, key, row)
    ensures Claimant(out, key, row)
  {
    LogOfTracks(a);
    LogOfTracks(b);
    if Claimant(a, key, row) {
      FiledInLog(a[key], key, LogOf(a));
    } else {
      FiledInLog(b[key], key, LogOf(b));
    }
    var v :| Filing(key, row, v) in LogOf(a) + LogOf(b);
    assert TracksKey(out[key], key, LogOf(a) + LogOf(b));
  }

  lemma TrackedOwner(a: Claims, b: Claims, out: Claims, key: ClaimKey)
    requires ClaimsOrdered(a) && ClaimsOrdered(b) && Consistent(LogOf(a) + LogOf(b))
    requires Tracks(out, LogOf(a) + LogOf(b))
    ensures OwnerEntry(out, key) == Later(OwnerEntry(a, key), OwnerEntry(b, key))
  {
    hide Newer, LosersBelow, FiledRow, LogOf;
    VersionOrder();
    var log := LogOf(a) + LogOf(b);
    LogOfMembers(a);
    LogOfMembers(b);
    LogOfTracks(a);
    LogOfTracks(b);
    if key in a {
      assert Files(a[key], a[key].owner, a[key].version);
      assert Filing(key, a[key].owner, a[key].version) in log;
    }
    if key in b {
      assert Files(b[key], b[key].owner, b[key].version);
      assert Filing(key, b[key].owner, b[key].version) in log;
    }
    if key in out {
      var c := out[key];
      assert TracksKey(c, key, log) && Files(c, c.owner, c.version);
      var top := Filing(key, c.owner, c.version);
      assert top in log;
      assert top in LogOf(a) ==> key in a && AtLeast(a[key].version, c.version) by {
        if top in LogOf(a) { assert TracksKey(a[key], key, LogOf(a)); }
      }
      assert top in LogOf(b) ==> key in b && AtLeast(b[key].version, c.version) by {
        if top in LogOf(b) { assert TracksKey(b[key], key, LogOf(b)); }
      }
    }
  }

  // -------------------------------------------- a delivery, slot by slot

  lemma CoversMonotone(f: Frontier, g: Frontier, v: Version)
    requires Dominates(g, f) && Covers(f, v)
    ensures Covers(g, v)
  {
    DominatesPointwise(g, f);
  }

  /** The full-state join of two optional rows. */
  function MergeOption(a: Option<Row>, b: Option<Row>): Option<Row> {
    if b.None? then a else if a.None? then b else Some(MergeRow(a.value, b.value))
  }

  function RowSlot(r: Option<Row>, c: Option<ColumnId>): Option<Entry> {
    if r.None? then None else if c.Some? then CellEntry(r.value, c.value) else DeleteEntry(r.value)
  }

  /** The join of rows is the slotwise newer entry. */
  lemma MergeOptionSlot(a: Option<Row>, b: Option<Row>, c: Option<ColumnId>)
    requires a.Some? ==> WellFormedRow(a.value)
    requires b.Some? ==> WellFormedRow(b.value)
    ensures RowSlot(MergeOption(a, b), c) == Later(RowSlot(a, c), RowSlot(b, c))
  {
  }

  /** A row is merged in full exactly when it was sent or the receiver already has all that was filtered. */
  lemma OutcomeIsMerge(a: Option<Row>, b: Option<Row>, t: Option<Version>, f: Frontier)
    requires a.Some? ==> WellFormedRow(a.value)
    requires b.Some? ==> WellFormedRow(b.value)
    requires t == if b.Some? then b.value.deleteVersion else None
    ensures Outcome(a, b, t, f) == MergeOption(a, b) <==>
            b.None? || Needed(b.value, f) || (a.Some? && RowBelow(b.value, a.value))
  {
    if b.Some? {
      if Needed(b.value, f) {
        VersionOrder();
      } else if a.Some? {
        MergeRowAbsorbs(a.value, b.value);
      }
    }
  }

  /** A row all of whose versions the filter covers is already below the receiver's row. */
  lemma DroppedRowIsBelow(x: Replica, s: Replica, f: Frontier, gone: set<RowKey>, k: RowKey)
    requires Dominates(x.frontier, f) && Stored(x.rows) && Stored(s.rows) && Complete(s, x, gone)
    requires k !in gone && k in s.rows && !Needed(s.rows[k], f)
    ensures k in x.rows && RowBelow(s.rows[k], x.rows[k])
  {
    forall c | c in s.rows[k].cells
      ensures k in x.rows && c in x.rows[k].cells && AtLeast(x.rows[k].cells[c].version, s.rows[k].cells[c].version)
    {
      assert Get(s, CellAt(k, c)).Some?;
      CoversMonotone(f, x.frontier, s.rows[k].cells[c].version);
    }
    var c :| c in s.rows[k].cells;
    if s.rows[k].deleteVersion.Some? {
      assert Get(s, DeleteAt(k)).Some?;
      CoversMonotone(f, x.frontier, s.rows[k].deleteVersion.value);
    }
  }

  /** Row by row, applying a filtered delta is merging the sender's full state. */
  lemma DeliverMergesRow(x: Replica, s: Replica, f: Frontier, d: SyncDelta, gone: set<RowKey>, k: RowKey)
    requires IsDelta(s, f, d) && Dominates(x.frontier, f)
    requires Stored(x.rows) && Stored(s.rows) && Mirror(s, gone) && Complete(s, x, gone)
    requires k !in gone
    ensures At(Apply(x, d).rows, k) == MergeOption(At(x.rows, k), At(s.rows, k))
  {
    hide Newer;
    DeliverRow(x.rows, s, f, d, k);
    assert Get(s, DeleteAt(k)) == Get(s, TombAt(k));
    if k in s.rows && !Needed(s.rows[k], f) {
      DroppedRowIsBelow(x, s, f, gone, k);
    }
    OutcomeIsMerge(At(x.rows, k), At(s.rows, k), At(s.tombs, k), f);
  }

  /** Slot by slot, applying a filtered delta takes the newer entry of both sides. */
  lemma DeliverSlot(x: Replica, s: Replica, f: Frontier, d: SyncDelta, gone: set<RowKey>, slot: Slot)
    requires IsDelta(s, f, d) && Dominates(x.frontier, f)
    requires Stored(x.rows) && Stored(s.rows) && Mirror(s, gone) && Complete(s, x, gone)
    requires !Gone(slot, gone) && !slot.OwnerAt?
    ensures Get(Apply(x, d), slot) == Later(Get(x, slot), Get(s, slot))
  {
    var k := slot.key;
    if slot.TombAt? {
      DeliverTomb(x, s, f, d, k);
      if k in s.tombs && Covers(f, s.tombs[k]) {
        CoversMonotone(f, x.frontier, s.tombs[k]);
        assert Get(s, slot).Some?;
        VersionOrder();
      }
    } else {
      DeliverMergesRow(x, s, f, d, gone, k);
      MergeOptionSlot(At(x.rows, k), At(s.rows, k), if slot.CellAt? then Some(slot.column) else None);
    }
  }

  /** Whatever the filter, the outcome is built from the receiver's row, the sender's row and the sender's tombstone. */
  lemma OutcomeShape(a: Option<Row>, b: Option<Row>, t: Option<Version>, f: Frontier)
    requires a.Some? ==> WellFormedRow(a.value) && a.value.cells != map[]
    requires b.Some? ==> WellFormedRow(b.value) && b.value.cells != map[]
    requires a.Some? && b.Some? ==> a.value.id == b.value.id
    ensures var out := Outcome(a, b, t, f);
            && (a.Some? ==> out.Some? && (a.value.deleted ==> out.value.deleted))
            && (out.Some? ==>
                  && (a.Some? || b.Some?)
                  && WellFormedRow(out.value) && out.value.cells != map[]
                  && out.value.id == (if a.Some? then a.value.id else b.value.id)
                  && (!out.value.deleted ==> (a.Some? && !a.value.deleted) || (b.Some? && !b.value.deleted))
                  && (forall c :: (a.Some? && CellEntry(out.value, c) == CellEntry(a.value, c))
                               || (b.Some? && CellEntry(out.value, c) == CellEntry(b.value, c)))
                  && ((a.Some? && DeleteEntry(out.value) == DeleteEntry(a.value))
                   || (b.Some? && DeleteEntry(out.value) == DeleteEntry(b.value))
                   || (t.Some? && DeleteEntry(out.value) == Some(Entry(t.value, Marked)))))
  {
    hide Newer, Covers, Needed, MergeRow, CellEntry;
    if a.Some? && b.Some? {
      MergeShape(a.value, b.value);
    }
    forall r: Row, v: Version, c ensures CellEntry(StampedRow(r, v), c) == CellEntry(r, c) {
      StampKeepsCell(r, v, c);
    }
  }

  lemma StampKeepsCell(r: Row, v: Version, c: ColumnId)
    ensures CellEntry(StampedRow(r, v), c) == CellEntry(r, c)
  {
  }

  lemma MergeShape(a: Row, b: Row)
    requires WellFormedRow(a) && WellFormedRow(b) && a.cells != map[] && a.id == b.id
    ensures var m := MergeRow(a, b);
            && WellFormedRow(m) && m.cells != map[] && m.id == a.id && (m.deleted <==> a.deleted || b.deleted)
            && (forall c :: CellEntry(m, c) == CellEntry(a, c) || CellEntry(m, c) == CellEntry(b, c))
            && (DeleteEntry(m) == DeleteEntry(a) || DeleteEntry(m) == DeleteEntry(b))
  {
    hide Newer;
    assert a.cells.Keys <= MergeRow(a, b).cells.Keys;
  }

  lemma DeliverOrigin(x: Replica, s: Replica, f: Frontier, d: SyncDelta, slot: Slot)
    requires IsDelta(s, f, d) && Stored(x.rows) && Stored(s.rows) && !slot.OwnerAt?
    ensures var out := Get(Apply(x, d), slot);
            || out == None || out == Get(x, slot) || out == Get(s, slot)
            || (slot.DeleteAt? && out == Get(s, TombAt(slot.key)))
  {
    var k := slot.key;
    if slot.TombAt? {
      DeliverTomb(x, s, f, d, k);
    } else {
      DeliverRow(x.rows, s, f, d, k);
      assert At(Apply(x, d).rows, k) == Outcome(At(x.rows, k), At(s.rows, k), At(s.tombs, k), f);
      OutcomeShape(At(x.rows, k), At(s.rows, k), At(s.tombs, k), f);
    }
  }

  /** Rows stay well formed and keep their keys; a row is visible afterwards only if it was visible on one side. */
  lemma DeliverStored(x: Replica, s: Replica, f: Frontier, d: SyncDelta)
    requires IsDelta(s, f, d) && Stored(x.rows) && Stored(s.rows)
    ensures var out := Apply(x, d).rows;
            && Stored(out)
            && (forall k | k in x.rows :: k in out && (x.rows[k].deleted ==> out[k].deleted))
            && (forall k | k in out :: (k in x.rows || k in s.rows) &&
                 (!out[k].deleted ==> (k in x.rows && !x.rows[k].deleted) || (k in s.rows && !s.rows[k].deleted)))
  {
    var out := ApplyTombs(ApplyRows(x.rows, d.rows), d.tombstones);
    forall k
      ensures k in out ==> WellFormedRow(out[k]) && out[k].id == k.row && out[k].cells != map[]
      ensures k in x.rows ==> k in out && (x.rows[k].deleted ==> out[k].deleted)
      ensures k in out ==> k in x.rows || k in s.rows
      ensures k in out && !out[k].deleted ==> (k in x.rows && !x.rows[k].deleted) || (k in s.rows && !s.rows[k].deleted)
    {
      DeliverRow(x.rows, s, f, d, k);
      OutcomeShape(At(x.rows, k), At(s.rows, k), At(s.tombs, k), f);
    }
  }
}
