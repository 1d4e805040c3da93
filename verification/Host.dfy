/** The engine host: several peers in one process, synced pairwise with enforcement after each merge. */
module Host {
  import opened Types
  import opened Frontiers
  import opened Storage
  import opened Delta
  import opened Invariants
  import opened World
  import opened UniqueRows
  import opened Engine
  import opened Sql
  import opened Peers
  import opened Statements

  /** Receiving a delta: merge it, then enforce integrity. */
  method Receive(r: ReplicaState, d: SyncDelta)
    requires r.Valid() && LocalInv(Apply(r.View(), d))
    modifies r.Repr()
    ensures r.Valid() && Enforced(Apply(old(r.View()), d), r.View())
  {
    hide LocalInv, Enforced, Apply;
    ApplyDelta(r, d);
    Enforce(r);
  }

  /** The world after p received a delta and enforced integrity, ending in state y. */
  ghost function Received(w: World, p: PeerId, d: SyncDelta, y: Replica): World
    requires p in w.live
  {
    Updated(Updated(w, p, Apply(w.live[p], d)), p, y)
  }

  /** A receive is a delivery followed by local writes. */
  lemma ReceiveIsSteps(w: World, p: PeerId, s: Replica, f: Frontier, d: SyncDelta, y: Replica)
    requires Inv(w) && CanDeliver(w, p, s, f, d) && Enforced(Apply(w.live[p], d), y)
    ensures var mid := Updated(w, p, Apply(w.live[p], d));
            Step(w, Deliver(p, s, f, d), mid) && Step(mid, Write(p, y), Received(w, p, d, y))
    ensures Inv(Received(w, p, d, y)) && FK.Stable(y) && Settled(y)
  {
    hide LocalInv, Writes, Apply, IsDelta, Inv, Enforced, FK.Stable, Settled;
    var mid := Updated(w, p, Apply(w.live[p], d));
    DeliverKeepsInv(w, p, s, f, d);
    LiveLocal(mid, p);
    EnforcedIsWrite(mid.live[p], y);
    EnforcedIsStable(mid.live[p], y);
    WriteKeepsInv(mid, p, y);
  }

  /** Host sync is a run of four steps: b receives what a held, then a receives what b held before. */
  ghost predicate SyncedBy(w: World, a: PeerId, b: PeerId, next: World) {
    && a in w.live && b in w.live
    && exists forB, forA, yb, ya ::
         && CanDeliver(w, b, w.live[a], w.live[b].frontier, forB) && Enforced(Apply(w.live[b], forB), yb)
         && var mid := Received(w, b, forB, yb);
            && a in mid.live && CanDeliver(mid, a, w.live[b], w.live[a].frontier, forA)
                && Enforced(Apply(mid.live[a], forA), ya)
            && next == Received(mid, a, forA, ya)
  }

  lemma FirstDelivers(w: World, a: PeerId, b: PeerId, d: SyncDelta)
    requires Inv(w) && a in w.live && b in w.live && IsDelta(w.live[a], w.live[b].frontier, d)
    ensures CanDeliver(w, b, w.live[a], w.live[b].frontier, d)
  {
    hide IsDelta;
    LiveLocal(w, a);
  }

  /** b's old state may still be delivered to a, even when a and b are the same peer. */
  lemma SecondDelivers(w: World, a: PeerId, b: PeerId, forB: SyncDelta, y: Replica, d: SyncDelta)
    requires Inv(w) && a in w.live && b in w.live && IsDelta(w.live[b], w.live[a].frontier, d)
    requires CanDeliver(w, b, w.live[a], w.live[b].frontier, forB) && Enforced(Apply(w.live[b], forB), y)
    ensures CanDeliver(Received(w, b, forB, y), a, w.live[b], w.live[a].frontier, d)
  {
    hide IsDelta, Enforced, LocalInv;
    LiveLocal(w, b);
    if a == b {
      FrontierGrows(w, b, w.live[a], w.live[b].frontier, forB, y);
    }
  }

  lemma FrontierGrows(w: World, p: PeerId, s: Replica, f: Frontier, d: SyncDelta, y: Replica)
    requires Inv(w) && p in w.live && CanDeliver(w, p, s, f, d) && Enforced(Apply(w.live[p], d), y)
    ensures Dominates(y.frontier, w.live[p].frontier)
  {
    hide IsDelta, Enforced, Inv, CanDeliver, StateInv, Covered, Holders, ClaimsAgree, ClaimsOrdered;
    var x := w.live[p];
    var m := Apply(x, d);
    LiveLocal(w, p);
    DeliverKeepsInv(w, p, s, f, d);
    LiveLocal(Updated(w, p, m), p);
    EnforcedIsWrite(m, y);
    DeliverFrontier(x, d);
    WritesRaiseFrontier(m, y);
    DominatesPointwise(y.frontier, x.frontier);
  }

  lemma WritesRaiseFrontier(x: Replica, y: Replica)
    requires ClockDominates(x) && WriteFrame(x, y)
    ensures forall p :: Seen(x.frontier, p) <= Seen(y.frontier, p)
  {
  }

  /**
   After a host sync both peers are free of stale references and displaced values, and the world's invariant holds.
   */
  lemma SyncKeepsIntegrity(w: World, a: PeerId, b: PeerId, next: World)
    requires Inv(w) && SyncedBy(w, a, b, next)
    ensures Inv(next) && next.live.Keys == w.live.Keys
    ensures FK.Stable(next.live[a]) && Settled(next.live[a]) && FK.Stable(next.live[b]) && Settled(next.live[b])
    ensures SyncRunsTo(w, next)
  {
    hide Inv, CanDeliver, Enforced, FK.Stable, Settled, Apply, SyncRunsTo;
    var forB, forA, yb, ya :|
      && CanDeliver(w, b, w.live[a], w.live[b].frontier, forB) && Enforced(Apply(w.live[b], forB), yb)
      && var mid := Received(w, b, forB, yb);
         && a in mid.live && CanDeliver(mid, a, w.live[b], w.live[a].frontier, forA)
             && Enforced(Apply(mid.live[a], forA), ya)
         && next == Received(mid, a, forA, ya);
    var mid := Received(w, b, forB, yb);
    ReceiveIsSteps(w, b, w.live[a], w.live[b].frontier, forB, yb);
    ReceiveIsSteps(mid, a, w.live[b], w.live[a].frontier, forA, ya);
    FourSteps(w, b, Deliver(b, w.live[a], w.live[b].frontier, forB), forB, yb,
              a, Deliver(a, w.live[b], w.live[a].frontier, forA), forA, ya);
  }

  /** Some run of writes and deliveries leads from w to next. */
  ghost predicate SyncRunsTo(w: World, next: World) {
    exists actions: seq<Action>, ws: seq<World> ::
      Run(ws, actions) && ws[0] == w && ws[|actions|] == next && forall c | c in actions :: !c.Collect?
  }

  lemma FourSteps(w: World, b: PeerId, toB: Action, forB: SyncDelta, yb: Replica,
                  a: PeerId, toA: Action, forA: SyncDelta, ya: Replica)
    requires b in w.live && toB.Deliver? && toA.Deliver?
    requires var w1 := Updated(w, b, Apply(w.live[b], forB));
             Step(w, toB, w1) && Step(w1, Write(b, yb), Received(w, b, forB, yb))
    requires var mid := Received(w, b, forB, yb);
             && a in mid.live
             && var w3 := Updated(mid, a, Apply(mid.live[a], forA));
                Step(mid, toA, w3) && Step(w3, Write(a, ya), Received(mid, a, forA, ya))
    ensures SyncRunsTo(w, Received(Received(w, b, forB, yb), a, forA, ya))
  {
    hide Step, Apply, Received;
    var w1 := Updated(w, b, Apply(w.live[b], forB));
    var mid := Received(w, b, forB, yb);
    var w3 := Updated(mid, a, Apply(mid.live[a], forA));
    hide Updated;
    var ws := [w, w1, mid, w3, Received(mid, a, forA, ya)];
    var actions := [toB, Write(b, yb), toA, Write(a, ya)];
    assert Run(ws, actions);
  }

  /**
   So after a host sync the raw storage of both peers is unique: no two live rows hold the same single-column UNIQUE
   value.
   */
  lemma SyncLeavesUnique(w: World, a: PeerId, b: PeerId, next: World, p: PeerId, j: RowKey, k: RowKey, c: ColumnId)
    requires Inv(w) && SyncedBy(w, a, b, next) && p in {a, b} && p in next.live && j in next.live[p].rows
    requires k in next.live[p].rows
    requires var rows := next.live[p].rows;
             && j.table == k.table && UniqueColumn(next.live[p].schemas, k.table, c) && !rows[j].deleted
                 && !rows[k].deleted
             && c in rows[j].cells && c in rows[k].cells && rows[j].cells[c].value == rows[k].cells[c].value != Null
    ensures j == k
  {
    hide Inv, SyncedBy, Settled, FK.Stable, LocalInv, Step;
    SyncKeepsIntegrity(w, a, b, next);
    LiveLocal(next, p);
    SettledIsUnique(next.live[p], j, k, c);
  }

  lemma ReceivedLive(w: World, p: PeerId, d: SyncDelta, y: Replica)
    requires p in w.live
    ensures Received(w, p, d, y).live == w.live[p := y]
  {
  }

  lemma FirstReceive(w: World, a: PeerId, b: PeerId, d: SyncDelta)
    requires Inv(w) && a in w.live && b in w.live && IsDelta(w.live[a], w.live[b].frontier, d)
    ensures CanDeliver(w, b, w.live[a], w.live[b].frontier, d) && LocalInv(Apply(w.live[b], d))
  {
    hide Inv, LocalInv, CanDeliver, IsDelta, Apply;
    FirstDelivers(w, a, b, d);
    DeliverKeepsInv(w, b, w.live[a], w.live[b].frontier, d);
    LiveLocal(Updated(w, b, Apply(w.live[b], d)), b);
  }

  lemma SecondReceive(w: World, a: PeerId, b: PeerId, forB: SyncDelta, y: Replica, d: SyncDelta)
    requires Inv(w) && a in w.live && b in w.live && IsDelta(w.live[b], w.live[a].frontier, d)
    requires CanDeliver(w, b, w.live[a], w.live[b].frontier, forB) && Enforced(Apply(w.live[b], forB), y)
    ensures var mid := Received(w, b, forB, y);
            && Inv(mid) && a in mid.live && CanDeliver(mid, a, w.live[b], w.live[a].frontier, d)
            && LocalInv(Apply(mid.live[a], d))
  {
    hide Inv, LocalInv, CanDeliver, IsDelta, Apply, Enforced, FK.Stable, Settled, Step;
    var mid := Received(w, b, forB, y);
    ReceiveIsSteps(w, b, w.live[a], w.live[b].frontier, forB, y);
    SecondDelivers(w, a, b, forB, y, d);
    DeliverKeepsInv(mid, a, w.live[b], w.live[a].frontier, d);
    LiveLocal(Updated(mid, a, Apply(mid.live[a], d)), a);
  }

  lemma BothReceived(w: World, a: PeerId, b: PeerId, forB: SyncDelta, forA: SyncDelta, yb: Replica, ya: Replica,
    next: World)
    requires Inv(w) && a in w.live && b in w.live
    requires CanDeliver(w, b, w.live[a], w.live[b].frontier, forB) && Enforced(Apply(w.live[b], forB), yb)
    requires var mid := Received(w, b, forB, yb);
             && Inv(mid) && a in mid.live && CanDeliver(mid, a, w.live[b], w.live[a].frontier, forA)
             && Enforced(Apply(mid.live[a], forA), ya) && next == Received(mid, a, forA, ya)
    ensures SyncedBy(w, a, b, next) && Inv(next)
  {
    hide Inv, CanDeliver, Enforced, Apply, FK.Stable, Settled, Step;
    ReceiveIsSteps(Received(w, b, forB, yb), a, w.live[b], w.live[a].frontier, forA, ya);
  }

  // ------------------------------------------------------- the host's methods

  /** One peer receives; the others are untouched. */
  method ReceiveAt(h: EngineHost, p: PeerId, d: SyncDelta)
    requires h.PeersValid() && p in h.peers && LocalInv(Apply(h.peers[p].View(), d))
    modifies h.peers[p].Repr()
    ensures h.PeersValid() && Enforced(Apply(old(h.peers[p].View()), d), h.peers[p].View())
    ensures h.Views() == old(h.Views())[p := h.peers[p].View()]
  {
    hide LocalInv, Apply, Enforced;
    Receive(h.peers[p], d);
    forall q | q in h.peers ensures h.peers[q].Valid() && (q != p ==> h.peers[q].View() == old(h.peers[q].View())) {
      if q != p {
        assert h.peers[q].Repr() !! h.peers[p].Repr();
      }
    }
  }

  /** A peer receives a delta that may be delivered to it: the world moves on with it. */
  method ReceiveStep(h: EngineHost, p: PeerId, d: SyncDelta, ghost w: World) returns (ghost next: World)
    requires h.PeersValid() && p in h.peers && h.Views() == w.live && p in w.live && LocalInv(Apply(w.live[p], d))
    modifies h.peers[p].Repr()
    ensures h.PeersValid() && p in next.live && next.live == h.Views()
    ensures next == Received(w, p, d, next.live[p]) && Enforced(Apply(w.live[p], d), next.live[p])
  {
    h.ReplicaParts(p);
    hide LocalInv, Apply, Enforced, PeersApart, Received, EngineHost.Views, EngineHost.PeersValid;
    ReceiveAt(h, p, d);
    next := Received(w, p, d, h.peers[p].View());
    ReceivedLive(w, p, d, h.peers[p].View());
  }

  /** A receive leaves all index managers alone. */
  method ReceiveBeside(h: EngineHost, p: PeerId, d: SyncDelta, ghost w: World) returns (ghost next: World)
    requires h.Valid() && p in h.peers && h.Views() == w.live && p in w.live && LocalInv(Apply(w.live[p], d))
    modifies h.peers[p].Repr()
    ensures h.Valid() && p in next.live && next.live == h.Views()
    ensures next == Received(w, p, d, next.live[p]) && Enforced(Apply(w.live[p], d), next.live[p])
  {
    h.Parts(p);
    h.ValidIs();
    hide *;
    next := ReceiveStep(h, p, d, w);
    h.ValidIs();
  }

  /** Receives and rebuilds the peer's indexes. */
  method SyncStep(h: EngineHost, p: PeerId, d: SyncDelta, ghost w: World) returns (ghost next: World)
    requires h.Valid() && p in h.peers && h.Views() == w.live && p in w.live && LocalInv(Apply(w.live[p], d))
    modifies h.peers[p].Repr(), h.indexes[p].Owned()
    ensures h.Valid() && p in next.live && next.live == h.Views() && h.Indexed(p)
    ensures next == Received(w, p, d, next.live[p]) && Enforced(Apply(w.live[p], d), next.live[p])
  {
    h.Parts(p);
    h.ValidIs();
    hide *;
    next := ReceiveBeside(h, p, d, w);
    h.RebuildAt(p);
    h.ValidIs();
  }

  /** The second half of a sync: the indexes of the first peer keep agreeing with its storage. */
  method SecondStep(h: EngineHost, p: PeerId, d: SyncDelta, ghost w: World, ghost q: PeerId) returns (ghost next: World)
    requires h.Valid() && p in h.peers && q in h.peers && h.Views() == w.live && p in w.live
    requires LocalInv(Apply(w.live[p], d))
    requires h.Indexed(q)
    modifies h.peers[p].Repr(), h.indexes[p].Owned()
    ensures h.Valid() && p in next.live && next.live == h.Views() && h.Indexed(p) && h.Indexed(q)
    ensures next == Received(w, p, d, next.live[p]) && Enforced(Apply(w.live[p], d), next.live[p])
  {
    if p != q {
      h.OtherParts(p, q);
    }
    hide *;
    next := SyncStep(h, p, d, w);
    if p != q {
      assert unchanged(h.peers[q].storage) && unchanged(h.indexes[q]);
    }
  }

  /** Both deltas, each for the other's frontier. */
  method ExtractBoth(h: EngineHost, a: PeerId, b: PeerId) returns (forB: SyncDelta, forA: SyncDelta)
    requires h.PeersValid() && a in h.peers && b in h.peers
    ensures a in h.Views() && b in h.Views()
    ensures IsDelta(h.Views()[a], h.Views()[b].frontier, forB) && IsDelta(h.Views()[b], h.Views()[a].frontier, forA)
  {
    hide IsDelta;
    h.ReplicaParts(a);
    h.ReplicaParts(b);
    forB := ExtractDelta(h.peers[a], h.peers[b].frontier);
    forA := ExtractDelta(h.peers[b], h.peers[a].frontier);
  }

  /** Both deltas of a sync in terms of the world, the first of them ready to be received. */
  method ExtractFor(h: EngineHost, a: PeerId, b: PeerId, ghost w: World) returns (forB: SyncDelta, forA: SyncDelta)
    requires h.Valid() && h.PeersValid() && h.Views() == w.live && Inv(w) && a in h.peers && b in h.peers
    ensures h.Valid() && h.Views() == w.live
    ensures a in w.live && b in w.live && IsDelta(w.live[b], w.live[a].frontier, forA)
    ensures CanDeliver(w, b, w.live[a], w.live[b].frontier, forB) && LocalInv(Apply(w.live[b], forB))
  {
    hide *;
    forB, forA := ExtractBoth(h, a, b);
    FirstReceive(w, a, b, forB);
  }

  lemma OwnIndexes(h: EngineHost, p: PeerId)
    requires h.Valid() && p in h.peers
    ensures p in h.indexes && h.PeersValid()
  {
    h.Parts(p);
  }

  /** The first half of a sync: b receives, and what b held before may still be delivered to a. */
  method FirstStep(h: EngineHost, a: PeerId, b: PeerId, ghost w: World)
    returns (forA: SyncDelta, ghost forB: SyncDelta, ghost mid: World)
    requires h.Valid() && h.Views() == w.live && Inv(w) && a in h.peers && b in h.peers && a in w.live && b in w.live
    modifies h.peers[b].Repr(), h.indexes[b].Owned()
    ensures h.Valid() && h.Views() == mid.live && h.Indexed(b) && b in mid.live
    ensures mid == Received(w, b, forB, mid.live[b])
    ensures CanDeliver(w, b, w.live[a], w.live[b].frontier, forB) && Enforced(Apply(w.live[b], forB), mid.live[b])
    ensures Inv(mid) && a in mid.live && CanDeliver(mid, a, w.live[b], w.live[a].frontier, forA)
    ensures LocalInv(Apply(mid.live[a], forA))
  {
    OwnIndexes(h, b);
    hide *;
    var delta;
    delta, forA := ExtractFor(h, a, b, w);
    assert unchanged(h.indexes[b]);
    forB := delta;
    mid := SyncStep(h, b, delta, w);
    SecondReceive(w, a, b, forB, mid.live[b], forA);
  }

  method SyncBoth(h: EngineHost, a: PeerId, b: PeerId, ghost w: World) returns (ghost next: World)
    requires h.Valid() && h.Views() == w.live && Inv(w) && a in h.peers && b in h.peers && a in w.live && b in w.live
    modifies h.replicas, h.entries
    ensures h.Valid() && h.Views() == next.live && Inv(next) && SyncedBy(w, a, b, next)
    ensures h.Indexed(a) && h.Indexed(b)
  {
    hide *;
    h.Parts(b);
    var forA;
    ghost var forB, mid;
    forA, forB, mid := FirstStep(h, a, b, w);
    h.Parts(a);
    next := SecondStep(h, a, forA, mid, b);
    BothReceived(w, a, b, forB, forA, mid.live[b], next.live[a], next);
  }

  /**
   Two-way sync with enforcement and index rebuild on each side; both deltas are extracted before either is applied.
   */
  method Sync(h: EngineHost, a: PeerId, b: PeerId, ghost w: World) returns (ok: bool, ghost next: World)
    requires h.Valid() && h.Views() == w.live && Inv(w)
    modifies h.replicas, h.entries
    ensures h.Valid() && h.Views() == next.live && Inv(next)
    ensures ok <==> a in h.peers && b in h.peers
    ensures !ok ==> next == w
    ensures ok ==> SyncedBy(w, a, b, next) && h.Indexed(a) && h.Indexed(b)
  {
    next := w;
    if a !in h.peers || b !in h.peers {
      return false, w;
    }
    h.Parts(a);
    h.Parts(b);
    hide *;
    next := SyncBoth(h, a, b, w);
    ok := true;
  }

  // ------------------------------------------------------- statements at the host

  /** One peer runs a statement; the others are untouched. */
  method ExecuteAt(h: EngineHost, p: PeerId, stmt: Statement) returns (error: Option<SqlError>)
    requires h.Valid() && p in h.peers && LocalInv(h.peers[p].View())
    modifies h.peers[p].Repr(), h.indexes[p].Owned()
    ensures h.PeersValid() && Executed(old(h.peers[p].View()), stmt, h.peers[p].View(), error)
    ensures h.Views() == old(h.Views())[p := h.peers[p].View()]
  {
    ghost var before := h.Views();
    h.Parts(p);
    forall q | q in h.peers && q != p
      ensures h.peers[q].Repr() !! h.peers[p].Repr() && h.peers[q].Repr() !! h.indexes[p].Owned()
      ensures h.peers[q].Valid() && h.peers[q].peer == q && h.peers[q].View() == before[q]
    {
      h.Parts(q);
      h.OtherParts(p, q);
    }
    assert forall q | q in h.peers :: h.peers[q].Repr() <= h.replicas;
    hide *;
    error := Execute(h.peers[p], h.indexes[p], stmt);
    forall q | q in h.peers && q != p
      ensures h.peers[q].Valid() && h.peers[q].View() == before[q]
    {
    }
    h.ViewsAre(p, before);
  }

  /** Runs one statement on one peer; unless it reuses an id, that is a step of the world. */
  method RunStatement(h: EngineHost, p: PeerId, stmt: Statement, ghost w: World)
    returns (found: bool, error: Option<SqlError>)
    requires h.Valid() && h.Views() == w.live && Inv(w)
    modifies h.replicas, h.entries
    ensures h.PeersValid() && h.IndexesValid() && (found <==> p in h.peers)
    ensures !found ==> h.Views() == w.live
    ensures found ==>
              && Executed(w.live[p], stmt, h.peers[p].View(), error)
              && h.Views() == w.live[p := h.peers[p].View()]
              && (NewIds(w.live[p], stmt, w.gone) ==> Inv(Updated(w, p, h.peers[p].View())))
  {
    error := None;
    if p !in h.peers {
      h.ValidIs();
      return false, None;
    }
    h.Parts(p);
    h.ValidIs();
    LiveLocal(w, p);
    hide *;
    error := ExecuteAt(h, p, stmt);
    if NewIds(w.live[p], stmt, w.gone) {
      StatementIsStep(w, p, stmt, h.peers[p].View(), error);
    }
    found := true;
  }
}
