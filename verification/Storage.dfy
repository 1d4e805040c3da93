/** Row storage, the tombstone store and the state record of one peer. */
module Storage {
  import opened Types
  import opened Frontiers
  import opened Merge
  import opened Uniqueness

  type Rows = map<RowKey, Row>
  type Tombs = map<RowKey, Version>
  type Schemas = map<TableId, TableSchema>

  /** Rows of all tables, kept as one map; names are the table namespaces created so far. */
  class StorageEngine {
    var names: set<TableId>
    var rows: Rows

    /** Rows are stored under their own id, in a namespace that exists. */
    ghost predicate Valid()
      reads this
    {
      forall k | k in rows :: k.table in names && rows[k].id == k.row
    }

    constructor ()
      ensures Valid() && names == {} && rows == map[]
    {
      names, rows := {}, map[];
    }

    method CreateTable(t: TableId)
      requires Valid()
      modifies this
      ensures Valid() && names == old(names) + {t} && rows == old(rows)
    {
      names := names + {t};
    }

    method UpsertRow(t: TableId, row: Row)
      requires Valid()
      modifies this
      ensures Valid() && names == old(names) + {t} && rows == old(rows)[RowKey(t, row.id) := row]
    {
      names := names + {t};
      rows := rows[RowKey(t, row.id) := row];
    }

    function GetRow(t: TableId, id: RowId): Option<Row>
      reads this
    {
      if RowKey(t, id) in rows then Some(rows[RowKey(t, id)]) else None
    }

    function GetVisibleRow(t: TableId, id: RowId): Option<Row>
      reads this
    {
      match GetRow(t, id)
      case Some(r) => if Visible(r) then Some(r) else None
      case None => None
    }

    /** The keys of one table, deleted rows included. */
    function KeysOf(t: TableId): set<RowKey>
      reads this
    {
      set k | k in rows && k.table == t
    }

    method GcRow(t: TableId, id: RowId)
      requires Valid()
      modifies this
      ensures Valid() && names == old(names) && rows == old(rows) - {RowKey(t, id)}
    {
      rows := rows - {RowKey(t, id)};
    }
  }

  /** The newer of two tombstones of a row stays. */
  function MergeTombs(a: Tombs, b: Tombs): Tombs {
    map k | k in a.Keys + b.Keys ::
      if k in a && k in b then (if Newer(b[k], a[k]) then b[k] else a[k]) else if k in a then a[k] else b[k]
  }

  class TombstoneStore {
    var entries: Tombs

    constructor ()
      ensures entries == map[]
    {
      entries := map[];
    }

    method Insert(ts: Tombstone)
      modifies this
      ensures entries == old(entries)[ts.key := ts.version]
    {
      entries := entries[ts.key := ts.version];
    }

    method Merge(other: TombstoneStore)
      requires other != this
      modifies this
      ensures entries == MergeTombs(old(entries), other.entries)
    {
      var todo := other.entries.Keys;
      while todo != {}
        invariant todo <= other.entries.Keys
        invariant entries.Keys == old(entries).Keys + (other.entries.Keys - todo)
        invariant forall k | k in entries ::
                    entries[k] == if k in todo then old(entries)[k] else MergeTombs(old(entries), other.entries)[k]
      {
        var k :| k in todo;
        if k !in entries || Newer(other.entries[k], entries[k]) {
          Insert(Tombstone(k, other.entries[k]));
        }
        todo := todo - {k};
      }
    }

    /** Drops the tombstones every known peer has reached. */
    method CollectStable(global: Frontier)
      modifies this
      ensures entries == map k | k in old(entries) && !Covers(global, old(entries)[k]) :: old(entries)[k]
    {
      var todo := entries.Keys;
      while todo != {}
        invariant todo <= old(entries).Keys && todo <= entries.Keys
        invariant entries == map k | k in old(entries) && (k in todo || !Covers(global, old(entries)[k])) ::
                  old(entries)[k]
      {
        var k :| k in todo;
        todo := todo - {k};
        if IsStable(entries[k], global) {
          entries := entries - {k};
        }
      }
    }
  }

  /** The value of a peer's state. */
  datatype Replica = Replica(
    peer: PeerId, clock: nat, frontier: Frontier, rows: Rows, tombs: Tombs, claims: Claims, schemas: Schemas)

  class ReplicaState {
    const peer: PeerId
    const clock: LamportClock
    const storage: StorageEngine
    const tombstones: TombstoneStore
    const uniqueness: UniquenessRegistry
    var schemas: Schemas
    var frontier: Frontier

    ghost function Repr(): set<object> {
      {this, clock, storage, tombstones, uniqueness}
    }

    ghost predicate Valid()
      reads Repr()
    {
      clock.peer == peer && storage.Valid()
    }

    ghost function View(): Replica
      reads Repr()
    {
      Replica(peer, clock.counter, frontier, storage.rows, tombstones.entries, uniqueness.claims, schemas)
    }

    constructor (peer: PeerId)
      ensures Valid() && fresh(Repr()) && View() == Replica(peer, 0, map[], map[], map[], map[], map[])
    {
      this.peer := peer;
      clock := new LamportClock(peer);
      storage := new StorageEngine();
      tombstones := new TombstoneStore();
      uniqueness := new UniquenessRegistry();
      schemas := map[];
      frontier := map[];
    }

    /** Ticks the clock for a local write and records the tick in the own frontier entry. */
    method TickWrite() returns (v: Version)
      requires Valid()
      modifies clock, this`frontier
      ensures Valid() && View() == Ticked(old(View())) && v == NextVersion(old(View()))
    {
      v := clock.Tick();
      frontier := Bump(frontier, peer, v.counter);
    }
  }

  function NextVersion(x: Replica): Version {
    Version(x.clock + 1, x.peer)
  }

  function Ticked(x: Replica): Replica {
    x.(clock := x.clock + 1, frontier := Bump(x.frontier, x.peer, x.clock + 1))
  }
}
