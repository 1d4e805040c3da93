/** Pairwise syncs without further writes: gossip decides the state, not the order, and two rounds suffice. */
module Convergence {
  import opened Types
  import opened Frontiers
  import opened Merge
  import opened Uniqueness
  import opened Storage
  import opened Delta
  import opened Slots
  import opened Invariants
  import opened World

  /** One bidirectional sync: both deltas are extracted before either is applied. */
  ghost predicate SyncStep(w: World, a: PeerId, b: PeerId, forB: SyncDelta, forA: SyncDelta, w': World) {
    && a in w.live && b in w.live && a != b
    && IsDelta(w.live[a], w.live[b].frontier, forB) && IsDelta(w.live[b], w.live[a].frontier, forA)
    && w' == Updated(Updated(w, b, Apply(w.live[b], forB)), a, Apply(w.live[a], forA))
  }

  /** The second half of a sync delivers a delta of b's state before the sync, which has been seen. */
  lemma SyncIsTwoDeliveries(w: World, a: PeerId, b: PeerId, forB: SyncDelta, forA: SyncDelta, w': World)
    requires SyncStep(w, a, b, forB, forA, w') && w.live[a] in w.seen && w.live[b] in w.seen
    ensures var mid := Updated(w, b, Apply(w.live[b], forB));
            && CanDeliver(w, b, w.live[a], w.live[b].frontier, forB)
            && CanDeliver(mid, a, w.live[b], w.live[a].frontier, forA)
            && w' == Updated(mid, a, Apply(mid.live[a], forA))
  {
  }

  lemma SyncKeepsInv(w: World, a: PeerId, b: PeerId, forB: SyncDelta, forA: SyncDelta, w': World)
    requires Inv(w) && SyncStep(w, a, b, forB, forA, w')
    ensures Inv(w')
  {
    SyncIsTwoDeliveries(w, a, b, forB, forA, w');
    var mid := Updated(w, b, Apply(w.live[b], forB));
    DeliverKeepsInv(w, b, w.live[a], w.live[b].frontier, forB);
    DeliverKeepsInv(mid, a, w.live[b], w.live[a].frontier, forA);
  }

  /** One side of a sync. */
  lemma SideJoins(w: World, x: Replica, s: Replica, d: SyncDelta)
    requires LocalInv(x) && LocalInv(s) && Mirror(s, w.gone) && PairInv(s, x, w.gone) && IsDelta(s, x.frontier, d)
    ensures SlotsJoined(x, s, Apply(x, d), w.gone) && SlotsFrom(x, s, Apply(x, d))
    ensures Follows(x, s, Apply(x, d))
  {
    DeliverKeepsLocal(x, s, x.frontier, d, w.gone);
    DeliverFrontier(x, d);
  }

  /** y's frontier has reached whatever x's or s's frontier has. */
  ghost predicate Follows(x: Replica, s: Replica, y: Replica) {
    forall p :: Seen(x.frontier, p) <= Seen(y.frontier, p) && Seen(s.frontier, p) <= Seen(y.frontier, p)
  }

  lemma LiveSideJoins(w: World, a: PeerId, b: PeerId, d: SyncDelta)
    requires Inv(w) && a in w.live && b in w.live && IsDelta(w.live[b], w.live[a].frontier, d)
    ensures SlotsJoined(w.live[a], w.live[b], Apply(w.live[a], d), w.gone)
    ensures SlotsFrom(w.live[a], w.live[b], Apply(w.live[a], d))
    ensures Follows(w.live[a], w.live[b], Apply(w.live[a], d))
  {
    LivePair(w, a, b);
    SideJoins(w, w.live[a], w.live[b], d);
  }

  lemma SyncLive(w: World, a: PeerId, b: PeerId, forB: SyncDelta, forA: SyncDelta, w': World)
    requires SyncStep(w, a, b, forB, forA, w')
    ensures w'.gone == w.gone && w'.live == w.live[b := Apply(w.live[b], forB)][a := Apply(w.live[a], forA)]
    ensures IsDelta(w.live[a], w.live[b].frontier, forB) && IsDelta(w.live[b], w.live[a].frontier, forA)
  {
  }

  // ------------------------------------------------------- joins of sets

  /** Every slot of x is the newest entry among the states of xs. */
  ghost predicate JoinOf(x: Replica, xs: set<Replica>, gone: set<RowKey>) {
    forall s {:trigger Get(x, s)} | !Gone(s, gone) ::
      && (Get(x, s).Some? ==> exists y :: y in xs && Get(y, s) == Get(x, s))
      && (forall y | y in xs && Get(y, s).Some? ::
          Get(x, s).Some? && AtLeast(Get(x, s).value.version, Get(y, s).value.version))
  }

  lemma JoinOfSelf(x: Replica, gone: set<RowKey>)
    ensures JoinOf(x, {x}, gone)
  {
  }

  lemma JoinOfUnion(x: Replica, s: Replica, y: Replica, xs: set<Replica>, ss: set<Replica>, gone: set<RowKey>)
    requires SlotsJoined(x, s, y, gone) && JoinOf(x, xs, gone) && JoinOf(s, ss, gone)
    ensures JoinOf(y, xs + ss, gone)
  {
    forall slot | !Gone(slot, gone)
      ensures Get(y, slot).Some? ==> exists z :: z in xs + ss && Get(z, slot) == Get(y, slot)
      ensures forall z | z in xs + ss && Get(z, slot).Some? ::
                Get(y, slot).Some? && AtLeast(Get(y, slot).value.version, Get(z, slot).value.version)
    {
      assert Get(y, slot) == Later(Get(x, slot), Get(s, slot));
      if Get(y, slot).Some? {
        if Get(y, slot) == Get(x, slot) {
          var z :| z in xs && Get(z, slot) == Get(x, slot);
          assert z in xs + ss;
        } else {
          var z :| z in ss && Get(z, slot) == Get(s, slot);
          assert z in xs + ss;
        }
      }
      VersionOrder();
    }
  }

  ghost predicate CoherentSet(xs: set<Replica>) {
    forall a, b | a in xs && b in xs :: Coherent(a, b)
  }

  ghost predicate SameSlots(x: Replica, y: Replica, gone: set<RowKey>) {
    forall s {:trigger Get(x, s)} {:trigger Get(y, s)} | !Gone(s, gone) :: Get(x, s) == Get(y, s)
  }

  /** A coherent set of states has one join. */
  lemma JoinIsUnique(x: Replica, y: Replica, xs: set<Replica>, gone: set<RowKey>)
    requires JoinOf(x, xs, gone) && JoinOf(y, xs, gone) && CoherentSet(xs)
    ensures SameSlots(x, y, gone)
  {
    forall s | !Gone(s, gone) ensures Get(x, s) == Get(y, s) {
      JoinIsUniqueAt(x, y, xs, gone, s);
    }
  }

  lemma JoinIsUniqueAt(x: Replica, y: Replica, xs: set<Replica>, gone: set<RowKey>, s: Slot)
    requires JoinOf(x, xs, gone) && JoinOf(y, xs, gone) && CoherentSet(xs) && !Gone(s, gone)
    ensures Get(x, s) == Get(y, s)
  {
    assert Get(x, s).Some? <==> Get(y, s).Some?;
    if Get(x, s).Some? {
      var a :| a in xs && Get(a, s) == Get(x, s);
      var b :| b in xs && Get(b, s) == Get(y, s);
      assert AtLeast(Get(x, s).value.version, Get(b, s).value.version)
             && AtLeast(Get(y, s).value.version, Get(a, s).value.version);
      VersionOrder();
      assert Coherent(a, b);
    }
  }

  /** Rows, tombstones and owners agree. */
  ghost predicate SameState(x: Replica, y: Replica) {
    x.rows == y.rows && x.tombs == y.tombs && forall key :: OwnerEntry(x.claims, key) == OwnerEntry(y.claims, key)
  }

  /** Visible rows and owners agree; what garbage collection removes is visible nowhere. */
  ghost predicate SameReads(x: Replica, y: Replica) {
    && (forall k :: k in x.rows && Visible(x.rows[k]) <==> k in y.rows && Visible(y.rows[k]))
    && (forall k | k in x.rows && Visible(x.rows[k]) :: x.rows[k] == y.rows[k])
    && (forall key :: OwnerEntry(x.claims, key) == OwnerEntry(y.claims, key))
  }

  lemma SameRow(x: Replica, y: Replica, gone: set<RowKey>, k: RowKey)
    requires Stored(x.rows) && Stored(y.rows) && SameSlots(x, y, gone) && k in x.rows && k !in gone
    ensures k in y.rows && x.rows[k] == y.rows[k]
  {
    var c :| c in x.rows[k].cells;
    assert Get(x, CellAt(k, c)) == Get(y, CellAt(k, c));
    assert Get(x, DeleteAt(k)) == Get(y, DeleteAt(k));
    forall e ensures CellEntry(x.rows[k], e) == CellEntry(y.rows[k], e) {
      assert Get(x, CellAt(k, e)) == Get(y, CellAt(k, e));
    }
    forall e
      ensures e in x.rows[k].cells <==> e in y.rows[k].cells
      ensures e in x.rows[k].cells ==> x.rows[k].cells[e] == y.rows[k].cells[e]
    {
      assert CellEntry(x.rows[k], e) == CellEntry(y.rows[k], e);
    }
    assert x.rows[k].cells == y.rows[k].cells;
  }

  /** The slots determine rows, tombstones and owners. */
  lemma SlotsDetermineState(x: Replica, y: Replica)
    requires Stored(x.rows) && Stored(y.rows) && SameSlots(x, y, {})
    ensures SameState(x, y)
  {
    forall k
      ensures (k in x.rows <==> k in y.rows) && (k in x.rows ==> x.rows[k] == y.rows[k])
      ensures (k in x.tombs <==> k in y.tombs) && (k in x.tombs ==> x.tombs[k] == y.tombs[k])
    {
      if k in x.rows { SameRow(x, y, {}, k); }
      if k in y.rows { SameRow(y, x, {}, k); }
      assert Get(x, TombAt(k)) == Get(y, TombAt(k));
    }
    SlotsDetermineOwners(x, y, {});
  }

  lemma SlotsDetermineOwners(x: Replica, y: Replica, gone: set<RowKey>)
    requires SameSlots(x, y, gone)
    ensures forall key :: OwnerEntry(x.claims, key) == OwnerEntry(y.claims, key)
  {
    forall key ensures OwnerEntry(x.claims, key) == OwnerEntry(y.claims, key) {
      assert Get(x, OwnerAt(key)) == Get(y, OwnerAt(key));
    }
  }

  /** With collected rows dead on both sides, the other slots determine what is visible. */
  lemma SlotsDetermineReads(x: Replica, y: Replica, gone: set<RowKey>)
    requires Stored(x.rows) && Stored(y.rows) && SameSlots(x, y, gone) && Dead(x, gone) && Dead(y, gone)
    ensures SameReads(x, y)
  {
    assert SameSlots(y, x, gone);
    hide SameSlots, Stored;
    forall k
      ensures k in x.rows && Visible(x.rows[k]) ==> k in y.rows && x.rows[k] == y.rows[k]
      ensures k in y.rows && Visible(y.rows[k]) ==> k in x.rows && x.rows[k] == y.rows[k]
    {
      if k in x.rows && Visible(x.rows[k]) { SameRow(x, y, gone, k); }
      if k in y.rows && Visible(y.rows[k]) { SameRow(y, x, gone, k); }
    }
    SlotsDetermineOwners(x, y, gone);
  }

  // ------------------------------------------------------- gossip

  type Schedule = seq<(PeerId, PeerId)>

  /** The peers whose starting state has reached each peer after a schedule of syncs. */
  function Reach(peers: set<PeerId>, schedule: Schedule): (r: map<PeerId, set<PeerId>>)
    requires forall e | e in schedule :: e.0 in peers && e.1 in peers
    ensures r.Keys == peers
  {
    if schedule == [] then map p | p in peers :: {p}
    else
      var before := Reach(peers, schedule[..|schedule| - 1]);
      var (a, b) := schedule[|schedule| - 1];
      before[a := before[a] + before[b]][b := before[a] + before[b]]
  }

  ghost predicate Synced(w: World, a: PeerId, b: PeerId, w': World) {
    exists forB, forA :: SyncStep(w, a, b, forB, forA, w')
  }

  ghost predicate SyncRun(ws: seq<World>, schedule: Schedule) {
    && |ws| == |schedule| + 1
    && (forall n | 0 <= n < |schedule| :: Synced(ws[n], schedule[n].0, schedule[n].1, ws[n + 1]))
  }

  function StartsOf(w: World, peers: set<PeerId>): set<Replica>
    requires peers <= w.live.Keys
  {
    set p | p in peers :: w.live[p]
  }

  lemma StartsUnion(w: World, a: set<PeerId>, b: set<PeerId>)
    requires a <= w.live.Keys && b <= w.live.Keys
    ensures StartsOf(w, a + b) == StartsOf(w, a) + StartsOf(w, b)
  {
  }

  ghost predicate Gossiped(w0: World, w: World, reach: map<PeerId, set<PeerId>>) {
    && reach.Keys == w0.live.Keys == w.live.Keys
    && forall p | p in reach :: reach[p] <= w0.live.Keys && JoinOf(w.live[p], StartsOf(w0, reach[p]), w0.gone)
  }

  lemma GossipStep(w0: World, w: World, a: PeerId, b: PeerId, w': World, reach: map<PeerId, set<PeerId>>)
    requires a in w.live && b in w.live && a != b && w.gone == w0.gone && Gossiped(w0, w, reach)
    requires a in w'.live && b in w'.live && w'.live == w.live[b := w'.live[b]][a := w'.live[a]]
    requires SlotsJoined(w.live[a], w.live[b], w'.live[a], w.gone)
    requires SlotsJoined(w.live[b], w.live[a], w'.live[b], w.gone)
    ensures Gossiped(w0, w', reach[a := reach[a] + reach[b]][b := reach[a] + reach[b]])
  {
    JoinOfUnion(w.live[a], w.live[b], w'.live[a], StartsOf(w0, reach[a]), StartsOf(w0, reach[b]), w0.gone);
    JoinOfUnion(w.live[b], w.live[a], w'.live[b], StartsOf(w0, reach[b]), StartsOf(w0, reach[a]), w0.gone);
    StartsUnion(w0, reach[a], reach[b]);
  }

  /** A sync joins the two states and leaves the other peers alone. */
  lemma SyncEffect(w: World, a: PeerId, b: PeerId, w': World)
    requires Inv(w) && Synced(w, a, b, w')
    ensures Inv(w') && w'.gone == w.gone && a in w.live && b in w.live && a != b
    ensures a in w'.live && b in w'.live && w'.live == w.live[b := w'.live[b]][a := w'.live[a]]
    ensures SlotsJoined(w.live[a], w.live[b], w'.live[a], w.gone)
    ensures SlotsJoined(w.live[b], w.live[a], w'.live[b], w.gone)
  {
    hide IsDelta;
    var forB, forA :| SyncStep(w, a, b, forB, forA, w');
    SyncKeepsInv(w, a, b, forB, forA, w');
    SyncLive(w, a, b, forB, forA, w');
    SyncSides(w, a, b, forB, forA);
  }

  lemma SyncSides(w: World, a: PeerId, b: PeerId, forB: SyncDelta, forA: SyncDelta)
    requires Inv(w) && a in w.live && b in w.live
    requires IsDelta(w.live[a], w.live[b].frontier, forB) && IsDelta(w.live[b], w.live[a].frontier, forA)
    ensures SlotsJoined(w.live[a], w.live[b], Apply(w.live[a], forA), w.gone)
    ensures SlotsJoined(w.live[b], w.live[a], Apply(w.live[b], forB), w.gone)
  {
    LiveSideJoins(w, a, b, forA);
    LiveSideJoins(w, b, a, forB);
  }

  lemma LivePair(w: World, a: PeerId, b: PeerId)
    requires Inv(w) && a in w.live && b in w.live
    ensures StateInv(w, w.live[a]) && StateInv(w, w.live[b])
    ensures PairInv(w.live[a], w.live[b], w.gone) && PairInv(w.live[b], w.live[a], w.gone)
  {
  }

  /**
   From any state satisfying the invariant, after any schedule of syncs each peer holds the join of the starting
   states of exactly the peers that have reached it.
   */
  lemma {:induction false} GossipJoins(ws: seq<World>, schedule: Schedule)
    requires SyncRun(ws, schedule) && Inv(ws[0])
    requires forall e | e in schedule :: e.0 in ws[0].live && e.1 in ws[0].live
    ensures Inv(ws[|schedule|]) && ws[|schedule|].gone == ws[0].gone
    ensures Gossiped(ws[0], ws[|schedule|], Reach(ws[0].live.Keys, schedule))
  {
    if schedule == [] {
      forall p | p in ws[0].live ensures JoinOf(ws[0].live[p], StartsOf(ws[0], {p}), ws[0].gone) {
        JoinOfSelf(ws[0].live[p], ws[0].gone);
        assert StartsOf(ws[0], {p}) == {ws[0].live[p]};
      }
    } else {
      var n := |schedule| - 1;
      GossipJoins(ws[..n + 1], schedule[..n]);
      assert schedule[n] in schedule;
      SyncEffect(ws[n], schedule[n].0, schedule[n].1, ws[n + 1]);
      GossipStep(ws[0], ws[n], schedule[n].0, schedule[n].1, ws[n + 1], Reach(ws[0].live.Keys, schedule[..n]));
    }
  }

  /** The claimants of a key are those of all the given states. */
  ghost predicate ClaimantsOf(x: Replica, xs: set<Replica>) {
    forall key, row :: Claimant(x.claims, key, row) <==> exists y :: y in xs && Claimant(y.claims, key, row)
  }

  ghost predicate ClaimantsJoined(x: Replica, s: Replica, y: Replica) {
    forall key, row :: Claimant(y.claims, key, row) <==> Claimant(x.claims, key, row) || Claimant(s.claims, key, row)
  }

  lemma JoinedClaimants(x: Replica, s: Replica, y: Replica)
    requires ClaimsJoined(x, s, y)
    ensures ClaimantsJoined(x, s, y)
  {
    forall key, row | Claimant(y.claims, key, row)
        ensures Claimant(x.claims, key, row) || Claimant(s.claims, key, row) {
      var c := y.claims[key];
      if c.owner == row {
        assert Files(c, row, c.version);
      } else {
        var l :| l in c.losers && l.row == row;
        assert Files(c, row, l.version);
      }
    }
  }

  lemma SideClaimants(w: World, a: PeerId, b: PeerId, d: SyncDelta)
    requires Inv(w) && a in w.live && b in w.live && IsDelta(w.live[b], w.live[a].frontier, d)
    ensures ClaimantsJoined(w.live[a], w.live[b], Apply(w.live[a], d))
  {
    hide IsDelta, Apply, Coherent, Complete;
    LivePair(w, a, b);
    DeliverKeepsLocal(w.live[a], w.live[b], w.live[a].frontier, d, w.gone);
    JoinedClaimants(w.live[a], w.live[b], Apply(w.live[a], d));
  }

  lemma SyncClaimants(w: World, a: PeerId, b: PeerId, w': World)
    requires Inv(w) && Synced(w, a, b, w')
    ensures a in w.live && b in w.live && a in w'.live && b in w'.live
    ensures w'.live == w.live[b := w'.live[b]][a := w'.live[a]]
    ensures ClaimantsJoined(w.live[a], w.live[b], w'.live[a]) && ClaimantsJoined(w.live[b], w.live[a], w'.live[b])
  {
    hide IsDelta, Inv, Apply, ClaimantsJoined;
    var forB, forA :| SyncStep(w, a, b, forB, forA, w');
    SideClaimants(w, a, b, forA);
    SideClaimants(w, b, a, forB);
  }

  lemma ClaimantsUnion(x: Replica, s: Replica, y: Replica, xs: set<Replica>, ss: set<Replica>)
    requires ClaimantsJoined(x, s, y) && ClaimantsOf(x, xs) && ClaimantsOf(s, ss)
    ensures ClaimantsOf(y, xs + ss)
  {
    forall key, row ensures Claimant(y.claims, key, row) <==> exists z :: z in xs + ss && Claimant(z.claims, key, row) {
      if Claimant(x.claims, key, row) {
        var z :| z in xs && Claimant(z.claims, key, row);
        assert z in xs + ss;
      }
      if Claimant(s.claims, key, row) {
        var z :| z in ss && Claimant(z.claims, key, row);
        assert z in xs + ss;
      }
    }
  }

  ghost predicate ClaimsGossiped(w0: World, w: World, reach: map<PeerId, set<PeerId>>) {
    && reach.Keys == w0.live.Keys == w.live.Keys
    && forall p | p in reach :: reach[p] <= w0.live.Keys && ClaimantsOf(w.live[p], StartsOf(w0, reach[p]))
  }

  /** Likewise the claimants a peer knows after a schedule are the claimants known to the peers that have reached it. */
  lemma {:induction false} GossipClaimants(ws: seq<World>, schedule: Schedule)
    requires SyncRun(ws, schedule) && Inv(ws[0])
    requires forall e | e in schedule :: e.0 in ws[0].live && e.1 in ws[0].live
    ensures ClaimsGossiped(ws[0], ws[|schedule|], Reach(ws[0].live.Keys, schedule))
  {
    hide Inv, Synced, ClaimantsOf, Gossiped;
    if schedule == [] {
      forall p | p in ws[0].live ensures ClaimantsOf(ws[0].live[p], StartsOf(ws[0], {p})) {
        OwnClaimants(ws[0].live[p]);
        assert StartsOf(ws[0], {p}) == {ws[0].live[p]};
      }
    } else {
      var n := |schedule| - 1;
      GossipClaimants(ws[..n + 1], schedule[..n]);
      GossipJoins(ws[..n + 1], schedule[..n]);
      assert schedule[n] in schedule;
      ClaimantsStep(ws[0], ws[n], schedule[n].0, schedule[n].1, ws[n + 1], Reach(ws[0].live.Keys, schedule[..n]));
    }
  }

  lemma OwnClaimants(x: Replica)
    ensures ClaimantsOf(x, {x})
  {
  }

  lemma ClaimantsStep(w0: World, w: World, a: PeerId, b: PeerId, w': World, reach: map<PeerId, set<PeerId>>)
    requires Inv(w) && Synced(w, a, b, w') && ClaimsGossiped(w0, w, reach) && a in w.live && b in w.live
    ensures ClaimsGossiped(w0, w', reach[a := reach[a] + reach[b]][b := reach[a] + reach[b]])
  {
    hide Inv, Synced, ClaimantsOf, ClaimantsJoined;
    SyncClaimants(w, a, b, w');
    ClaimantsUnion(w.live[a], w.live[b], w'.live[a], StartsOf(w0, reach[a]), StartsOf(w0, reach[b]));
    ClaimantsUnion(w.live[b], w.live[a], w'.live[b], StartsOf(w0, reach[b]), StartsOf(w0, reach[a]));
    StartsUnion(w0, reach[a], reach[b]);
    assert StartsOf(w0, reach[b]) + StartsOf(w0, reach[a]) == StartsOf(w0, reach[a]) + StartsOf(w0, reach[b]);
  }

  /** Peers reached by the same set of peers agree, under any two schedules from the same start. */
  lemma OrderIndependence(ws: seq<World>, schedule: Schedule, vs: seq<World>, other: Schedule, p: PeerId, q: PeerId)
    requires SyncRun(ws, schedule) && SyncRun(vs, other) && ws[0] == vs[0] && Inv(ws[0])
    requires forall e | e in schedule + other :: e.0 in ws[0].live && e.1 in ws[0].live
    requires p in ws[0].live && q in ws[0].live
    requires Reach(ws[0].live.Keys, schedule)[p] == Reach(ws[0].live.Keys, other)[q]
    ensures p in ws[|schedule|].live && q in vs[|other|].live
    ensures SameSlots(ws[|schedule|].live[p], vs[|other|].live[q], ws[0].gone)
    ensures SameReads(ws[|schedule|].live[p], vs[|other|].live[q])
    ensures ws[0].gone == {} ==> SameState(ws[|schedule|].live[p], vs[|other|].live[q])
  {
    assert forall e | e in schedule :: e in schedule + other;
    assert forall e | e in other :: e in schedule + other;
    GossipJoins(ws, schedule);
    GossipJoins(vs, other);
    var x, y := ws[|schedule|].live[p], vs[|other|].live[q];
    var starts := StartsOf(ws[0], Reach(ws[0].live.Keys, schedule)[p]);
    assert CoherentSet(starts) by {
      forall a, b | a in starts && b in starts ensures Coherent(a, b) {
        assert a in ws[0].seen && b in ws[0].seen;
        assert PairInv(a, b, ws[0].gone);
      }
    }
    JoinIsUnique(x, y, starts, ws[0].gone);
    assert StateInv(ws[|schedule|], x) && StateInv(vs[|other|], y);
    SlotsDetermineReads(x, y, ws[0].gone);
    if ws[0].gone == {} {
      SlotsDetermineState(x, y);
    }
  }

  // ------------------------------------------------------- quiescence

  /** Nothing stored in x is above y's frontier. */
  ghost predicate Owes(x: Replica, y: Replica) {
    exists s :: Get(x, s).Some? && !Covers(y.frontier, Get(x, s).value.version)
  }

  /** After a round both sides hold the same slots and owe each other nothing. */
  lemma RoundSettles(w: World, a: PeerId, b: PeerId, forB: SyncDelta, forA: SyncDelta)
    requires Inv(w) && a in w.live && b in w.live
    requires IsDelta(w.live[a], w.live[b].frontier, forB) && IsDelta(w.live[b], w.live[a].frontier, forA)
    ensures SameSlots(Apply(w.live[a], forA), Apply(w.live[b], forB), w.gone)
    ensures !Owes(Apply(w.live[a], forA), Apply(w.live[b], forB))
    ensures !Owes(Apply(w.live[b], forB), Apply(w.live[a], forA))
  {
    var x, y := w.live[a], w.live[b];
    LiveSideJoins(w, a, b, forA);
    LiveSideJoins(w, b, a, forB);
    LivePair(w, a, b);
    JoinedBothWays(x, y, Apply(x, forA), Apply(y, forB), w.gone);
    SettledBy(x, y, Apply(x, forA), Apply(y, forB));
    SettledBy(y, x, Apply(y, forB), Apply(x, forA));
  }

  lemma JoinedBothWays(x: Replica, y: Replica, x': Replica, y': Replica, gone: set<RowKey>)
    requires SlotsJoined(x, y, x', gone) && SlotsJoined(y, x, y', gone) && Coherent(x, y)
    ensures SameSlots(x', y', gone)
  {
    forall s | !Gone(s, gone) ensures Get(x', s) == Get(y', s) {
      assert Get(x', s) == Later(Get(x, s), Get(y, s));
      assert Get(y', s) == Later(Get(y, s), Get(x, s));
      VersionOrder();
    }
  }

  lemma SettledBy(x: Replica, s: Replica, y: Replica, other: Replica)
    requires SlotsFrom(x, s, y) && Covered(x) && Covered(s) && Follows(s, x, other)
    ensures !Owes(y, other)
  {
    forall slot | Get(y, slot).Some? ensures Covers(other.frontier, Get(y, slot).value.version) {
      assert Get(y, slot) == Get(x, slot) || Get(y, slot) == Get(s, slot)
             || (slot.DeleteAt? && Get(y, slot) == Get(s, TombAt(slot.key)));
    }
  }

  lemma Member<T>(s: seq<T>) returns (x: T)
    requires s != []
    ensures x in s
  {
    x := s[0];
  }

  /** A peer that owes nothing sends neither rows nor tombstones. */
  lemma NothingToSend(x: Replica, y: Replica, d: SyncDelta)
    requires IsDelta(x, y.frontier, d) && !Owes(x, y)
    ensures d.rows == [] && d.tombstones == []
  {
    forall k | k in x.tombs ensures Covers(y.frontier, x.tombs[k]) {
      assert Get(x, TombAt(k)).Some?;
    }
    forall k | k in x.rows ensures !Needed(x.rows[k], y.frontier) {
      assert Get(x, DeleteAt(k)) == DeleteEntry(x.rows[k]);
      forall c | c in x.rows[k].cells ensures Covers(y.frontier, x.rows[k].cells[c].version) {
        assert Get(x, CellAt(k, c)).Some?;
      }
    }
    if d.rows != [] {
      var r := Member(d.rows);
      assert false;
    }
    if d.tombstones != [] {
      var t := Member(d.tombstones);
      assert false;
    }
  }

  method SyncPeers(a: ReplicaState, b: ReplicaState) returns (ghost forB: SyncDelta, ghost forA: SyncDelta)
    requires a.Valid() && b.Valid() && a.Repr() !! b.Repr()
    modifies a.Repr(), b.Repr()
    ensures a.Valid() && b.Valid()
    ensures IsDelta(old(a.View()), old(b.frontier), forB) && IsDelta(old(b.View()), old(a.frontier), forA)
    ensures b.View() == Apply(old(b.View()), forB) && a.View() == Apply(old(a.View()), forA)
  {
    var deltaForB := ExtractDelta(a, b.frontier);
    var deltaForA := ExtractDelta(b, a.frontier);
    ApplyDelta(b, deltaForB);
    ApplyDelta(a, deltaForA);
    forB, forA := deltaForB, deltaForA;
  }

  /** One round of a session: the states before it and the two deltas exchanged. */
  datatype Round = Round(a: Replica, b: Replica, forB: SyncDelta, forA: SyncDelta)

  predicate AnyNew(r: Round) {
    r.forB.rows != [] || r.forB.tombstones != [] || r.forA.rows != [] || r.forA.tombstones != []
  }

  ghost predicate Exchanged(r: Round) {
    IsDelta(r.a, r.b.frontier, r.forB) && IsDelta(r.b, r.a.frontier, r.forA)
  }

  ghost function EndA(r: Round): Replica { Apply(r.a, r.forA) }

  ghost function EndB(r: Round): Replica { Apply(r.b, r.forB) }

  /** Rounds that start at (a, b), each continuing the one before, which must have exchanged something. */
  ghost predicate Session(rounds: seq<Round>, a: Replica, b: Replica) {
    && (forall i | 0 <= i < |rounds| :: Exchanged(rounds[i]))
    && (rounds != [] ==> rounds[0].a == a && rounds[0].b == b)
    && (forall i | 0 <= i < |rounds| - 1 :: Continues(rounds[i], rounds[i + 1]))
  }

  ghost predicate Continues(r: Round, next: Round) {
    AnyNew(r) && next.a == EndA(r) && next.b == EndB(r)
  }

  lemma SessionGrows(rounds: seq<Round>, a: Replica, b: Replica, r: Round)
    requires Session(rounds, a, b) && Exchanged(r)
    requires rounds == [] ==> r.a == a && r.b == b
    requires rounds != [] ==> Continues(rounds[|rounds| - 1], r)
    ensures Session(rounds + [r], a, b)
  {
    hide IsDelta, Apply, AnyNew;
    var more := rounds + [r];
    forall i | 0 <= i < |more| - 1 ensures Continues(more[i], more[i + 1]) {
      if i < |rounds| - 1 {
        assert Continues(rounds[i], rounds[i + 1]);
      }
    }
  }

  method SyncRound(a: ReplicaState, b: ReplicaState) returns (anyNew: bool, ghost r: Round)
    requires a.Valid() && b.Valid() && a.Repr() !! b.Repr()
    modifies a.Repr(), b.Repr()
    ensures a.Valid() && b.Valid()
    ensures r.a == old(a.View()) && r.b == old(b.View()) && Exchanged(r) && anyNew == AnyNew(r)
    ensures a.View() == EndA(r) && b.View() == EndB(r)
  {
    ghost var x, y := a.View(), b.View();
    var forB := ExtractDelta(a, b.frontier);
    var forA := ExtractDelta(b, a.frontier);
    anyNew := forB.rows != [] || forB.tombstones != [] || forA.rows != [] || forA.tombstones != [];
    ApplyDelta(b, forB);
    ApplyDelta(a, forA);
    r := Round(x, y, forB, forA);
  }

  /** A round that reports nothing new changes no row and no tombstone. */
  lemma QuietRound(r: Round)
    requires Exchanged(r) && !AnyNew(r)
    ensures EndA(r).rows == r.a.rows && EndA(r).tombs == r.a.tombs
    ensures EndB(r).rows == r.b.rows && EndB(r).tombs == r.b.tombs
  {
    assert IncomingTombs([]) == map[];
    forall t: Tombs ensures MergeTombs(t, map[]) == t {
    }
  }

  /** Syncs until a round exchanges nothing or the cap of 100 rounds is passed. */
  method SyncToQuiescence(a: ReplicaState, b: ReplicaState) returns (rounds: nat, ghost trace: seq<Round>)
    requires a.Valid() && b.Valid() && a.Repr() !! b.Repr()
    modifies a.Repr(), b.Repr()
    ensures a.Valid() && b.Valid() && rounds == |trace| > 0
    ensures Session(trace, old(a.View()), old(b.View()))
    ensures a.View() == EndA(trace[rounds - 1]) && b.View() == EndB(trace[rounds - 1])
    ensures !AnyNew(trace[rounds - 1]) || rounds == 101
  {
    hide Apply, IsDelta;
    ghost var a0, b0 := a.View(), b.View();
    ghost var x, y := a0, b0;
    rounds, trace := 0, [];
    while true
      invariant a.Valid() && b.Valid() && a.View() == x && b.View() == y
      invariant rounds == |trace| <= 100 && Session(trace, a0, b0)
      invariant rounds == 0 ==> x == a0 && y == b0
      invariant rounds > 0 ==> x == EndA(trace[rounds - 1]) && y == EndB(trace[rounds - 1]) && AnyNew(trace[rounds - 1])
      decreases 101 - rounds
    {
      var anyNew: bool;
      ghost var r: Round;
      anyNew, r := SyncRound(a, b);
      SessionGrows(trace, a0, b0, r);
      x, y := EndA(r), EndB(r);
      trace := trace + [r];
      rounds := rounds + 1;
      if !anyNew || rounds > 100 {
        break;
      }
    }
  }

  /** The world after one round between two live peers. */
  ghost function AfterRound(w: World, a: PeerId, b: PeerId, r: Round): World
    requires a in w.live && b in w.live
  {
    Updated(Updated(w, b, Apply(w.live[b], r.forB)), a, Apply(w.live[a], r.forA))
  }

  lemma RoundKeepsInv(w: World, a: PeerId, b: PeerId, r: Round)
    requires Inv(w) && a in w.live && b in w.live && a != b
    requires IsDelta(w.live[a], w.live[b].frontier, r.forB) && IsDelta(w.live[b], w.live[a].frontier, r.forA)
    ensures var w' := AfterRound(w, a, b, r);
            && Inv(w') && w'.gone == w.gone && a in w'.live && b in w'.live
            && w'.live[a] == Apply(w.live[a], r.forA) && w'.live[b] == Apply(w.live[b], r.forB)
  {
    SyncKeepsInv(w, a, b, r.forB, r.forA, AfterRound(w, a, b, r));
  }

  /**
   From any live pair the session takes at most two rounds, never the cap, and both replicas end in the same state.
   */
  lemma QuiescentInTwoRounds(w: World, a: PeerId, b: PeerId, rounds: seq<Round>)
    requires Inv(w) && a in w.live && b in w.live && a != b
    requires Session(rounds, w.live[a], w.live[b]) && rounds != []
    ensures |rounds| <= 2
    ensures |rounds| == 2 ==> !AnyNew(rounds[1])
    ensures var last := rounds[|rounds| - 1];
            && SameSlots(EndA(last), EndB(last), w.gone) && SameReads(EndA(last), EndB(last))
            && (w.gone == {} ==> SameState(EndA(last), EndB(last)))
  {
    var r := rounds[0];
    forall i | 0 <= i < |rounds| - 1 ensures AnyNew(rounds[i]) {
      assert Continues(rounds[i], rounds[i + 1]);
    }
    assert Exchanged(r);
    RoundEnds(w, a, b, r);
    if |rounds| > 1 {
      assert Exchanged(rounds[1]) && Continues(r, rounds[1]);
      RoundEnds(AfterRound(w, a, b, r), a, b, rounds[1]);
    }
  }

  /** A round leaves both sides equal and with nothing to exchange. */
  lemma RoundEnds(w: World, a: PeerId, b: PeerId, r: Round)
    requires Inv(w) && a in w.live && b in w.live && a != b && r.a == w.live[a] && r.b == w.live[b] && Exchanged(r)
    ensures var w' := AfterRound(w, a, b, r);
            && Inv(w') && w'.gone == w.gone && a in w'.live && b in w'.live && w'.live[a] == EndA(r)
                && w'.live[b] == EndB(r)
    ensures SameSlots(EndA(r), EndB(r), w.gone) && SameReads(EndA(r), EndB(r))
    ensures w.gone == {} ==> SameState(EndA(r), EndB(r))
    ensures forall next: Round | Exchanged(next) && next.a == EndA(r) && next.b == EndB(r) :: !AnyNew(next)
  {
    RoundSettles(w, a, b, r.forB, r.forA);
    RoundKeepsInv(w, a, b, r);
    forall next: Round | Exchanged(next) && next.a == EndA(r) && next.b == EndB(r) ensures !AnyNew(next) {
      NothingToSend(next.a, next.b, next.forB);
      NothingToSend(next.b, next.a, next.forA);
    }
    SameAfterRound(AfterRound(w, a, b, r), a, b);
  }

  lemma SameAfterRound(w: World, a: PeerId, b: PeerId)
    requires Inv(w) && a in w.live && b in w.live && SameSlots(w.live[a], w.live[b], w.gone)
    ensures SameReads(w.live[a], w.live[b]) && (w.gone == {} ==> SameState(w.live[a], w.live[b]))
  {
    LivePair(w, a, b);
    SlotsDetermineReads(w.live[a], w.live[b], w.gone);
    if w.gone == {} {
      SlotsDetermineState(w.live[a], w.live[b]);
    }
  }
}
