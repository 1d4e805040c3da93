/** Tombstone garbage collection against the global minimum frontier. */
module Gc {
  import opened Types
  import opened Frontiers
  import opened Merge
  import opened Storage
  import opened Delta
  import opened Slots
  import opened World

  /** Removes the rows of all stable tombstones, then the tombstones. */
  method RunGc(tombstones: TombstoneStore, storage: StorageEngine, global: Frontier) returns (collected: nat)
    requires storage.Valid()
    modifies tombstones, storage
    ensures storage.Valid() && storage.names == old(storage.names)
    ensures storage.rows == old(storage.rows) - set k | k in old(tombstones.entries)
            && Covers(global, old(tombstones.entries)[k])
    ensures tombstones.entries == map k | k in old(tombstones.entries) && !Covers(global, old(tombstones.entries)[k]) ::
            old(tombstones.entries)[k]
    ensures collected == |set k | k in old(tombstones.entries) && Covers(global, old(tombstones.entries)[k])|
  {
    var all := tombstones.entries;
    var todo := all.Keys;
    collected := 0;
    ghost var removed: set<RowKey> := {};
    while todo != {}
      invariant todo <= all.Keys && tombstones.entries == all
      invariant removed == set k | k in all && k !in todo && Covers(global, all[k])
      invariant storage.Valid() && storage.names == old(storage.names) && storage.rows == old(storage.rows) - removed
      invariant collected == |removed|
    {
      var k :| k in todo;
      if IsStable(all[k], global) {
        storage.GcRow(k.table, k.row);
        collected := collected + 1;
        removed := removed + {k};
      }
      todo := todo - {k};
    }
    assert removed == set k | k in all && Covers(global, all[k]);
    tombstones.CollectStable(global);
  }

  /** Collection against the minimum of a peer registry. */
  method CollectGarbage(r: ReplicaState, registry: PeerRegistry) returns (collected: nat, ghost global: Frontier)
    requires r.Valid()
    modifies r.storage, r.tombstones
    ensures r.Valid() && r.View() == Collected(old(r.View()), global)
    ensures collected == |CollectedKeys(old(r.View()), global)|
    ensures if registry.peers == map[] then global == map[] else IsMinimum(registry.peers, global)
  {
    var minimum := registry.GlobalMinFrontier();
    global := minimum;
    collected := RunGc(r.tombstones, r.storage, minimum);
  }

  /** With every live peer registered under a frontier it has reached, collection is a safe step of the world. */
  lemma CollectIsStep(w: World, p: PeerId, known: map<PeerId, Frontier>, global: Frontier)
    requires Inv(w) && p in w.live && IsMinimum(known, global)
    requires forall q | q in w.live :: q in known && Dominates(w.live[q].frontier, known[q])
    ensures var x := Collected(w.live[p], global);
            var next := World(w.live[p := x], w.live[p := x].Values, w.gone + CollectedKeys(w.live[p], global));
            Step(w, Collect(p, known, global), next) && Inv(next)
  {
    hide Inv, IsMinimum;
    var x := Collected(w.live[p], global);
    var next := World(w.live[p := x], w.live[p := x].Values, w.gone + CollectedKeys(w.live[p], global));
    CollectKeepsInv(w, next, p, known, global);
  }

  /** An absent row comes back visible exactly when a state that still shows it is delivered unfiltered. */
  lemma RevivedIff(x: Replica, s: Replica, f: Frontier, d: SyncDelta, k: RowKey)
    requires IsDelta(s, f, d) && Stored(s.rows) && k !in x.rows
    ensures k in Apply(x, d).rows && Visible(Apply(x, d).rows[k]) <==>
            k in s.rows && Visible(s.rows[k]) && Needed(s.rows[k], f) && (k in s.tombs ==> Covers(f, s.tombs[k]))
  {
    hide Needed;
    DeliverRow(x.rows, s, f, d, k);
    assert At(Apply(x, d).rows, k) == Outcome(At(x.rows, k), At(s.rows, k), At(s.tombs, k), f);
  }

  const SCHEMAS: Schemas := map["t" := TableSchema([Column("id", false, false, true)], [], [])]

  /** A before it deleted its row; B once it had learnt of the delete and collected it. */
  function BeforeDelete(): Replica {
    Replica("A", 1, map["A" := 1],
        map[RowKey("t", "r") := Row("r", map["id" := Cell(Text("r"), Version(1, "A"))], false, None)],
            map[], map[], SCHEMAS)
  }

  function AfterDelete(p: PeerId): Replica {
    Replica(p, 2, map["A" := 2, "B" := 2][p := 2],
        map[RowKey("t", "r") := Row("r", map["id" := Cell(Text("r"), Version(1, "A"))], true, Some(Version(2, "A")))],
            map[RowKey("t", "r") := Version(2, "A")], map[], SCHEMAS)
  }

  /**
   A delta extracted before a delete and applied after its collection brings the row back: in-flight deltas must be
   drained first.
   */
  lemma StaleDeltaRevives(d: SyncDelta)
    requires IsDelta(BeforeDelete(), map[], d)
    ensures var b := Collected(AfterDelete("B"), map["A" := 2]);
            var k := RowKey("t", "r");
            k !in b.rows && k in Apply(b, d).rows && Visible(Apply(b, d).rows[k])
  {
    var s := BeforeDelete();
    var k := RowKey("t", "r");
    assert "id" in s.rows[k].cells && !Covers(map[], s.rows[k].cells["id"].version);
    RevivedIff(Collected(AfterDelete("B"), map["A" := 2]), s, map[], d, k);
  }
}
