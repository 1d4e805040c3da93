/** What holds in every reachable state: full-state deltas, mirrored tombstones, fresh ticks, no zombie rows. */
module Runs {
  import opened Types
  import opened Frontiers
  import opened Merge
  import opened Storage
  import opened Delta
  import opened Slots
  import opened Invariants
  import opened World

  ghost predicate Reachable(ws: seq<World>, actions: seq<Action>, w: World) {
    Run(ws, actions) && Init(ws[0]) && ws[|actions|] == w
  }

  lemma ReachableInv(ws: seq<World>, actions: seq<Action>, w: World)
    requires Reachable(ws, actions, w)
    ensures Inv(w)
  {
    InitInv(ws[0]);
    RunKeepsInv(ws, actions);
  }

  /** Some run from empty peers leads to w. */
  ghost predicate Reached(w: World) {
    exists ws: seq<World>, actions: seq<Action> :: Reachable(ws, actions, w)
  }

  lemma ReachedStart(w: World)
    requires Init(w)
    ensures Reached(w)
  {
    var none: seq<Action> := [];
    assert Reachable([w], none, w);
  }

  lemma ReachedStep(w: World, a: Action, w': World)
    requires Reached(w) && Step(w, a, w')
    ensures Reached(w')
  {
    hide Step, Init;
    var ws: seq<World>, actions: seq<Action> :| Reachable(ws, actions, w);
    assert Run(ws + [w'], actions + [a]);
    assert Reachable(ws + [w'], actions + [a], w');
  }

  lemma ReachedInv(w: World)
    requires Reached(w)
    ensures Inv(w) && forall p | p in w.live :: w.live[p].peer == p && LocalInv(w.live[p])
  {
    hide LocalInv, PairInv;
    var ws, actions :| Reachable(ws, actions, w);
    ReachableInv(ws, actions, w);
    forall p | p in w.live ensures LocalInv(w.live[p]) {
      assert StateInv(w, w.live[p]);
    }
  }

  /** A local write of a reached world, as long as nothing was collected. */
  lemma ReachedWrite(w: World, p: PeerId, y: Replica)
    requires Reached(w) && w.gone == {} && p in w.live && LocalInv(y) && Writes(w.live[p], y)
    ensures Reached(Updated(w, p, y))
  {
    hide LocalInv, Writes;
    ReachedStep(w, Write(p, y), Updated(w, p, y));
  }

  lemma ReachedDeliver(w: World, p: PeerId, s: Replica, f: Frontier, d: SyncDelta)
    requires Reached(w) && CanDeliver(w, p, s, f, d)
    ensures Reached(Updated(w, p, Apply(w.live[p], d)))
  {
    hide IsDelta, Dominates, Apply;
    ReachedStep(w, Deliver(p, s, f, d), Updated(w, p, Apply(w.live[p], d)));
  }

  /** Nothing is collected while no garbage collection runs. */
  lemma {:induction false} GcFreeKeepsAll(ws: seq<World>, actions: seq<Action>)
    requires Run(ws, actions) && ws[0].gone == {} && forall a | a in actions :: !a.Collect?
    ensures ws[|actions|].gone == {}
  {
    if actions != [] {
      var n := |actions| - 1;
      GcFreeKeepsAll(ws[..n + 1], actions[..n]);
      assert actions[n] in actions;
    }
  }

  /**
   In every reachable state, applying the frontier-filtered delta of a seen state gives, for every row not
   collected anywhere, the row a full-state merge would give.
   */
  lemma FilteredDeltaIsFullMerge(ws: seq<World>, actions: seq<Action>, w: World, p: PeerId, s: Replica, f: Frontier,
    d: SyncDelta, k: RowKey)
    requires Reachable(ws, actions, w) && CanDeliver(w, p, s, f, d) && k !in w.gone
    ensures At(Apply(w.live[p], d).rows, k) == At(MergeTable(w.live[p].rows, s.rows), k)
    ensures At(Apply(w.live[p], d).tombs, k) == At(MergeTombs(w.live[p].tombs, s.tombs), k)
  {
    ReachableInv(ws, actions, w);
    SeenPair(w, p, s);
    DeliverMergesStores(w.live[p], s, f, d, w.gone, k);
  }

  lemma SeenPair(w: World, p: PeerId, s: Replica)
    requires Inv(w) && p in w.live && s in w.seen
    ensures StateInv(w, w.live[p]) && StateInv(w, s) && PairInv(s, w.live[p], w.gone)
  {
  }

  lemma DeliverMergesStores(x: Replica, s: Replica, f: Frontier, d: SyncDelta, gone: set<RowKey>, k: RowKey)
    requires IsDelta(s, f, d) && Dominates(x.frontier, f) && k !in gone
    requires Stored(x.rows) && Stored(s.rows) && Mirror(s, gone) && Complete(s, x, gone)
    ensures At(Apply(x, d).rows, k) == At(MergeTable(x.rows, s.rows), k)
    ensures At(Apply(x, d).tombs, k) == At(MergeTombs(x.tombs, s.tombs), k)
  {
    hide Newer, MergeRow, Needed, ApplyRows, ApplyTombs, IsDelta, Stored, Complete;
    DeliverMergesRow(x, s, f, d, gone, k);
    DeliverSlot(x, s, f, d, gone, TombAt(k));
    assert Get(Apply(x, d), TombAt(k)) == Later(Get(x, TombAt(k)), Get(s, TombAt(k)));
  }

  /** Without garbage collection the whole stores are merged. */
  lemma GcFreeDeltaIsFullMerge(ws: seq<World>, actions: seq<Action>, w: World, p: PeerId, s: Replica, f: Frontier,
    d: SyncDelta)
    requires Reachable(ws, actions, w) && CanDeliver(w, p, s, f, d) && forall a | a in actions :: !a.Collect?
    ensures Apply(w.live[p], d).rows == MergeTable(w.live[p].rows, s.rows)
    ensures Apply(w.live[p], d).tombs == MergeTombs(w.live[p].tombs, s.tombs)
  {
    GcFreeKeepsAll(ws, actions);
    var x, y := w.live[p].rows, Apply(w.live[p], d).rows;
    var m := MergeTable(x, s.rows);
    forall k ensures At(y, k) == At(m, k)
        && At(Apply(w.live[p], d).tombs, k) == At(MergeTombs(w.live[p].tombs, s.tombs), k) {
      FilteredDeltaIsFullMerge(ws, actions, w, p, s, f, d, k);
    }
    AtDetermines(y, m);
    AtDetermines(Apply(w.live[p], d).tombs, MergeTombs(w.live[p].tombs, s.tombs));
  }

  lemma AtDetermines<V>(a: map<RowKey, V>, b: map<RowKey, V>)
    requires forall k :: At(a, k) == At(b, k)
    ensures a == b
  {
    forall k ensures (k in a <==> k in b) && (k in a ==> a[k] == b[k]) {
      assert At(a, k) == At(b, k);
    }
  }

  /** Without garbage collection a peer has a tombstone exactly for its deleted rows, with the delete's version. */
  lemma TombstonesMirrorDeletes(ws: seq<World>, actions: seq<Action>, w: World, p: PeerId, k: RowKey)
    requires Reachable(ws, actions, w) && p in w.live && forall a | a in actions :: !a.Collect?
    ensures k in w.live[p].tombs <==> k in w.live[p].rows && w.live[p].rows[k].deleted
    ensures k in w.live[p].tombs ==> w.live[p].rows[k].deleteVersion == Some(w.live[p].tombs[k])
  {
    ReachableInv(ws, actions, w);
    GcFreeKeepsAll(ws, actions);
    var x := w.live[p];
    assert StateInv(w, x);
    assert Get(x, DeleteAt(k)) == Get(x, TombAt(k));
  }

  lemma StepKeepsDeleted(w: World, a: Action, w': World, p: PeerId, k: RowKey)
    requires Inv(w) && Step(w, a, w') && p in w.live && k in w.live[p].rows && w.live[p].rows[k].deleted
    ensures p in w'.live && (k in w'.gone || (k in w'.live[p].rows && w'.live[p].rows[k].deleted))
  {
    hide PairInv, Known, Covered, Holders, ClaimsAgree, ClaimsOrdered, Apply, IsDelta, SlotsWritten, ClaimsGrow,
        MirrorKept;
    if a.Deliver? && a.peer == p {
      SeenPair(w, p, a.source);
      DeliverStored(w.live[p], a.source, a.filter, a.delta);
    }
  }

  /** A row deleted at a peer is never visible there again, collections included. */
  lemma DeletedNeverReturns(ws: seq<World>, actions: seq<Action>, w: World, n: nat, p: PeerId, k: RowKey)
    requires Reachable(ws, actions, w) && n <= |actions|
    requires p in ws[n].live && k in ws[n].live[p].rows && ws[n].live[p].rows[k].deleted
    ensures p in w.live && (k in w.live[p].rows ==> w.live[p].rows[k].deleted)
    ensures k in w.gone || k in w.live[p].rows
  {
    hide Inv, Step;
    DeletedOrGone(ws, actions, n, p, k);
    if k in w.gone {
      NoZombies(ws, actions, w, |actions|, k, p);
    }
  }

  lemma {:induction false} DeletedOrGone(ws: seq<World>, actions: seq<Action>, n: nat, p: PeerId, k: RowKey)
    requires Run(ws, actions) && Init(ws[0]) && n <= |actions|
    requires p in ws[n].live && k in ws[n].live[p].rows && ws[n].live[p].rows[k].deleted
    ensures var w := ws[|actions|]; p in w.live && (k in w.gone || (k in w.live[p].rows && w.live[p].rows[k].deleted))
    decreases |actions|
  {
    hide Inv, Step;
    if n < |actions| {
      var m := |actions| - 1;
      DeletedOrGone(ws[..m + 1], actions[..m], n, p, k);
      ReachableInv(ws[..m + 1], actions[..m], ws[m]);
      StepKeepsGone(ws[m], actions[m], ws[m + 1]);
      if k !in ws[m].gone {
        StepKeepsDeleted(ws[m], actions[m], ws[m + 1], p, k);
      }
    }
  }

  /** The next tick of a peer is newer than all it stores and was never issued before, by any seen state. */
  lemma TickIsFresh(ws: seq<World>, actions: seq<Action>, w: World, p: PeerId, o: Replica, s: Slot)
    requires Reachable(ws, actions, w) && p in w.live && o in w.seen && Get(o, s).Some?
    ensures Get(o, s).value.version != NextVersion(w.live[p])
    ensures o == w.live[p] ==> Newer(NextVersion(w.live[p]), Get(o, s).value.version)
    ensures Covers(o.frontier, Get(o, s).value.version) && Seen(o.frontier, p) <= w.live[p].clock
  {
    ReachableInv(ws, actions, w);
    assert StateInv(w, o) && StateInv(w, w.live[p]);
    if o == w.live[p] {
      TickIsNewest(o, s);
    }
  }

  lemma StepKeepsGone(w: World, a: Action, w': World)
    requires Step(w, a, w')
    ensures w.gone <= w'.gone && w.live.Keys == w'.live.Keys
  {
  }

  /** Once a row is collected anywhere it is deleted or absent at every peer, in every later state. */
  lemma NoZombies(ws: seq<World>, actions: seq<Action>, w: World, n: nat, k: RowKey, q: PeerId)
    requires Reachable(ws, actions, w) && n <= |actions| && k in ws[n].gone && q in w.live
    ensures k in w.live[q].rows ==> w.live[q].rows[k].deleted
  {
    GoneGrows(ws, actions, n);
    ReachableInv(ws, actions, w);
    assert StateInv(w, w.live[q]);
  }

  lemma {:induction false} GoneGrows(ws: seq<World>, actions: seq<Action>, n: nat)
    requires Run(ws, actions) && n <= |actions|
    ensures ws[n].gone <= ws[|actions|].gone
    decreases |actions|
  {
    if n < |actions| {
      var m := |actions| - 1;
      GoneGrows(ws[..m + 1], actions[..m], n);
      StepKeepsGone(ws[m], actions[m], ws[m + 1]);
    }
  }

  /** Every row a collection removes was deleted at every peer at that moment. */
  lemma CollectedWasDeadEverywhere(ws: seq<World>, actions: seq<Action>, w: World, p: PeerId,
    known: map<PeerId, Frontier>, global: Frontier, k: RowKey, q: PeerId)
    requires Reachable(ws, actions, w) && CanCollect(w, p, known, global) && q in w.live
    requires k in w.live[p].rows && k !in Collected(w.live[p], global).rows
    ensures k in w.live[q].rows ==> w.live[q].rows[k].deleted
    ensures k !in w.gone ==> k in w.live[q].rows
  {
    ReachableInv(ws, actions, w);
    if k in w.live[q].rows {
      StableIsDeadEverywhere(w, p, known, global, k, q);
    }
    if k !in w.gone {
      StableIsStored(w, p, known, global, k, q);
    }
  }

  lemma StableIsStored(w: World, p: PeerId, known: map<PeerId, Frontier>, global: Frontier, k: RowKey, q: PeerId)
    requires Inv(w) && CanCollect(w, p, known, global) && q in w.live
    requires k in CollectedKeys(w.live[p], global) && k !in w.gone
    ensures k in w.live[q].rows
  {
    var x, o := w.live[p], w.live[q];
    assert StateInv(w, x) && PairInv(x, o, w.gone);
    assert Dominates(global, global) && Dominates(known[q], global);
    CoversMonotone(global, known[q], x.tombs[k]);
    CoversMonotone(known[q], o.frontier, x.tombs[k]);
    assert Get(x, DeleteAt(k)) == Get(x, TombAt(k));
    assert Get(o, DeleteAt(k)).Some?;
  }
}
