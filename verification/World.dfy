/**
 All peers together: every state a delta may still come from, local writes, deliveries and garbage collection.
 Deliveries may be delayed, repeated, reordered or lost: a delta may be taken from any state in seen.
 */
module World {
  import opened Types
  import opened Frontiers
  import opened Uniqueness
  import opened Storage
  import opened Delta
  import opened Slots
  import opened Invariants

  /**
   live holds the current state of each peer, seen every state a delta may still be extracted from,
   gone the rows garbage collected anywhere.
   */
  datatype World = World(live: map<PeerId, Replica>, seen: set<Replica>, gone: set<RowKey>)

  // ------------------------------------------------------- invariant

  /** Equal versions of a slot carry equal payloads. */
  ghost predicate Coherent(a: Replica, b: Replica) {
    forall s {:trigger Get(a, s)} {:trigger Get(b, s)} |
      Get(a, s).Some? && Get(b, s).Some? && Get(a, s).value.version == Get(b, s).value.version :: Get(a, s) == Get(b, s)
  }

  /** A collected row is nowhere visible again. */
  ghost predicate Dead(x: Replica, gone: set<RowKey>) {
    forall k | k in gone && k in x.rows :: x.rows[k].deleted
  }

  ghost predicate PairInv(a: Replica, b: Replica, gone: set<RowKey>) {
    Complete(a, b, gone) && Coherent(a, b) && ClaimsAgree(a.claims, b.claims) && a.schemas == b.schemas
  }

  /** Frontier entries name live peers and never run ahead of their clocks. */
  ghost predicate Known(live: map<PeerId, Replica>, f: Frontier) {
    forall p | Seen(f, p) > 0 :: p in live && Seen(f, p) <= live[p].clock
  }

  ghost predicate StateInv(w: World, x: Replica) {
    x.peer in w.live && LocalInv(x) && Mirror(x, w.gone) && Dead(x, w.gone) && Known(w.live, x.frontier)
  }

  ghost predicate Inv(w: World) {
    && (forall p | p in w.live :: w.live[p].peer == p && w.live[p] in w.seen)
    && (forall x | x in w.seen :: StateInv(w, x))
    && (forall a, b | a in w.seen && b in w.seen :: PairInv(a, b, w.gone))
  }

  // ------------------------------------------------------- steps

  datatype Action =
    | Write(peer: PeerId, next: Replica)
    | Deliver(peer: PeerId, source: Replica, filter: Frontier, delta: SyncDelta)
    | Collect(peer: PeerId, known: map<PeerId, Frontier>, global: Frontier)

  /** What garbage collection against a global frontier leaves of a replica. */
  function Collected(x: Replica, global: Frontier): Replica {
    x.(rows := map k | k in x.rows && !(k in x.tombs && Covers(global, x.tombs[k])) :: x.rows[k],
       tombs := map k | k in x.tombs && !Covers(global, x.tombs[k]) :: x.tombs[k])
  }

  function CollectedKeys(x: Replica, global: Frontier): set<RowKey> {
    set k | k in x.tombs && Covers(global, x.tombs[k])
  }

  /** A local write; a row it creates must not reuse the id of a collected row. */
  ghost predicate CanWrite(w: World, p: PeerId, next: Replica) {
    && p in w.live && LocalInv(next) && Writes(w.live[p], next)
    && forall k | k in next.rows && k in w.gone :: k in w.live[p].rows
  }

  /** A delta of some seen state, filtered by a frontier the receiver has reached. */
  ghost predicate CanDeliver(w: World, p: PeerId, source: Replica, filter: Frontier, d: SyncDelta) {
    p in w.live && source in w.seen && IsDelta(source, filter, d) && Dominates(w.live[p].frontier, filter)
  }

  /** Every peer is registered with a frontier it has reached, and global is the minimum of the registered ones. */
  ghost predicate CanCollect(w: World, p: PeerId, known: map<PeerId, Frontier>, global: Frontier) {
    && p in w.live && IsMinimum(known, global)
    && forall q | q in w.live :: q in known && Dominates(w.live[q].frontier, known[q])
  }

  function Updated(w: World, p: PeerId, next: Replica): World {
    World(w.live[p := next], w.seen + {next}, w.gone)
  }

  ghost predicate Step(w: World, a: Action, w': World) {
    match a
    case Write(p, next) => CanWrite(w, p, next) && w' == Updated(w, p, next)
    case Deliver(p, source, filter, d) =>
      CanDeliver(w, p, source, filter, d) && w' == Updated(w, p, Apply(w.live[p], d))
    case Collect(p, known, global) =>
      && CanCollect(w, p, known, global)
      && var live := w.live[p := Collected(w.live[p], global)];
         w' == World(live, live.Values, w.gone + CollectedKeys(w.live[p], global))
  }

  ghost predicate Run(ws: seq<World>, actions: seq<Action>) {
    && |ws| == |actions| + 1
    && forall n | 0 <= n < |actions| :: Step(ws[n], actions[n], ws[n + 1])
  }

  /** Peers with empty states over one common schema. */
  ghost predicate Init(w: World) {
    && w.gone == {} && w.seen == w.live.Values
    && exists schemas :: WellFormedSchemas(schemas) &&
         forall p | p in w.live :: w.live[p] == Replica(p, 0, map[], map[], map[], map[], schemas)
  }

  lemma InitInv(w: World)
    requires Init(w)
    ensures Inv(w)
  {
    forall x | x in w.seen ensures StateInv(w, x) && forall s :: Get(x, s) == None {
      var p :| p in w.live && w.live[p] == x;
    }
  }

  // ------------------------------------------------------- local writes

  lemma WriteAbove(x: Replica, y: Replica, s: Slot)
    requires LocalInv(x) && Writes(x, y) && Get(x, s).Some?
    ensures Get(y, s).Some? && AtLeast(Get(y, s).value.version, Get(x, s).value.version)
  {
    TickIsNewest(x, s);
    assert Get(y, s) == Get(x, s) || (Get(y, s).Some? && Issued(x, y, Get(y, s).value.version));
  }

  /** Whatever another state o holds, y has it if y's frontier reaches it. */
  lemma WriteCompletesFrom(o: Replica, x: Replica, y: Replica, gone: set<RowKey>)
    requires Covered(o) && Complete(o, x, gone) && WriteFrame(x, y)
    requires Seen(o.frontier, x.peer) <= x.clock == Seen(x.frontier, x.peer)
    requires forall s {:trigger Get(x, s)} | Get(x, s).Some? ::
               Get(y, s).Some? && AtLeast(Get(y, s).value.version, Get(x, s).value.version)
    ensures Complete(o, y, gone)
  {
    forall s | !Gone(s, gone) && Get(o, s).Some? && Covers(y.frontier, Get(o, s).value.version)
      ensures Get(y, s).Some? && AtLeast(Get(y, s).value.version, Get(o, s).value.version)
    {
      assert Covers(o.frontier, Get(o, s).value.version);
      assert Covers(x.frontier, Get(o, s).value.version);
      AtLeastTransitive(Get(y, s).value.version, Get(x, s).value.version, Get(o, s).value.version);
    }
  }

  /** What y wrote is above every other frontier, so nothing is owed for it. */
  lemma WriteCompletesTo(o: Replica, x: Replica, y: Replica, gone: set<RowKey>)
    requires Covered(o) && Complete(x, o, gone) && Coherent(o, x) && SlotsWritten(x, y)
    requires Seen(o.frontier, x.peer) <= x.clock
    ensures Complete(y, o, gone) && Coherent(o, y) && Coherent(y, o)
  {
    forall s | Get(y, s).Some? && Covers(o.frontier, Get(y, s).value.version) ensures Get(y, s) == Get(x, s) {
    }
  }

  lemma WriteClaimsAgree(o: Replica, x: Replica, y: Replica)
    requires Covered(o) && ClaimsAgree(o.claims, x.claims) && ClaimsGrow(x, y)
    requires Seen(o.frontier, x.peer) <= x.clock
    ensures ClaimsAgree(o.claims, y.claims) && ClaimsAgree(y.claims, o.claims)
  {
    forall key, r1, r2, v | key in y.claims && key in o.claims && Files(y.claims[key], r1, v)
        && Files(o.claims[key], r2, v)
      ensures r1 == r2
    {
      assert Covers(o.frontier, v);
      assert !Issued(x, y, v);
    }
  }

  lemma WriteKeepsPair(w: World, x: Replica, y: Replica, o: Replica)
    requires Inv(w) && x.peer in w.live && x == w.live[x.peer] && o in w.seen
    requires LocalInv(y) && Writes(x, y)
    ensures PairInv(o, y, w.gone) && PairInv(y, o, w.gone)
  {
    assert PairInv(x, o, w.gone) && PairInv(o, x, w.gone) && StateInv(w, o) && StateInv(w, x);
    assert Seen(o.frontier, x.peer) <= x.clock;
    forall s | Get(x, s).Some? ensures Get(y, s).Some? && AtLeast(Get(y, s).value.version, Get(x, s).value.version) {
      WriteAbove(x, y, s);
    }
    WriteCompletesFrom(o, x, y, w.gone);
    WriteCompletesTo(o, x, y, w.gone);
    WriteClaimsAgree(o, x, y);
  }

  lemma KnownGrows(live: map<PeerId, Replica>, p: PeerId, next: Replica, f: Frontier)
    requires Known(live, f) && p in live && live[p].clock <= next.clock
    ensures Known(live[p := next], f)
  {
  }

  lemma SelfPair(x: Replica, gone: set<RowKey>)
    requires LocalInv(x)
    ensures PairInv(x, x, gone)
  {
  }

  lemma StateInvGrows(w: World, p: PeerId, next: Replica, x: Replica)
    requires StateInv(w, x) && p in w.live && w.live[p].clock <= next.clock
    ensures StateInv(Updated(w, p, next), x)
  {
    KnownGrows(w.live, p, next, x.frontier);
  }

  lemma ExtendStates(w: World, p: PeerId, next: Replica)
    requires forall x | x in w.seen :: StateInv(w, x)
    requires p in w.live && w.live[p].clock <= next.clock && StateInv(Updated(w, p, next), next)
    ensures forall x | x in Updated(w, p, next).seen :: StateInv(Updated(w, p, next), x)
  {
    forall x | x in Updated(w, p, next).seen ensures StateInv(Updated(w, p, next), x) {
      if x != next {
        StateInvGrows(w, p, next, x);
      }
    }
  }

  lemma ExtendPairs(seen: set<Replica>, next: Replica, gone: set<RowKey>)
    requires forall a, b | a in seen && b in seen :: PairInv(a, b, gone)
    requires forall o | o in seen :: PairInv(o, next, gone) && PairInv(next, o, gone)
    requires PairInv(next, next, gone)
    ensures forall a, b | a in seen + {next} && b in seen + {next} :: PairInv(a, b, gone)
  {
  }

  /** Adding a state that agrees with all seen states keeps the invariant. */
  lemma ExtendKeepsInv(w: World, p: PeerId, next: Replica)
    requires Inv(w) && p in w.live && next.peer == p && w.live[p].clock <= next.clock
    requires StateInv(Updated(w, p, next), next)
    requires forall o | o in w.seen :: PairInv(o, next, w.gone) && PairInv(next, o, w.gone)
    ensures Inv(Updated(w, p, next))
  {
    hide PairInv;
    ExtendStates(w, p, next);
    SelfPair(next, w.gone);
    ExtendPairs(w.seen, next, w.gone);
  }

  lemma MirrorStays(x: Replica, y: Replica, gone: set<RowKey>)
    requires Mirror(x, gone) && MirrorKept(x, y)
    ensures Mirror(y, gone)
  {
    forall k | k !in gone ensures Get(y, DeleteAt(k)) == Get(y, TombAt(k)) {
      assert Get(x, DeleteAt(k)) == Get(x, TombAt(k));
    }
  }

  lemma WriteKeepsInv(w: World, p: PeerId, next: Replica)
    requires Inv(w) && CanWrite(w, p, next)
    ensures Inv(Updated(w, p, next))
  {
    hide SlotsWritten, ClaimsGrow, LocalInv, Mirror, MirrorKept, PairInv;
    var x := w.live[p];
    assert StateInv(w, x);
    MirrorStays(x, next, w.gone);
    forall o | o in w.seen ensures PairInv(o, next, w.gone) && PairInv(next, o, w.gone) {
      WriteKeepsPair(w, x, next, o);
    }
    ExtendKeepsInv(w, p, next);
  }

  // ------------------------------------------------------- deliveries

  /** Slot by slot, y takes the newer entry of x and s. */
  ghost predicate SlotsJoined(x: Replica, s: Replica, y: Replica, gone: set<RowKey>) {
    forall slot {:trigger Get(y, slot)} | !Gone(slot, gone) :: Get(y, slot) == Later(Get(x, slot), Get(s, slot))
  }

  /** Any slot of y, gone rows included, comes from x or s; a delete may come from the tombstone of s. */
  ghost predicate SlotsFrom(x: Replica, s: Replica, y: Replica) {
    forall slot {:trigger Get(y, slot)} ::
      || Get(y, slot) == None || Get(y, slot) == Get(x, slot) || Get(y, slot) == Get(s, slot)
      || (slot.DeleteAt? && Get(y, slot) == Get(s, TombAt(slot.key)))
  }

  ghost predicate ClaimsJoined(x: Replica, s: Replica, y: Replica) {
    && (forall key, row, v | key in y.claims && Files(y.claims[key], row, v) ::
          (key in x.claims && Files(x.claims[key], row, v)) || (key in s.claims && Files(s.claims[key], row, v)))
    && (forall key, row | Claimant(x.claims, key, row) || Claimant(s.claims, key, row) :: Claimant(y.claims, key, row))
    && ClaimsOrdered(y.claims) && ClaimsAgree(y.claims, y.claims)
  }

  lemma DeliverJoinsClaims(x: Replica, s: Replica, d: SyncDelta)
    requires ClaimsOrdered(x.claims) && ClaimsOrdered(s.claims) && Enumerates(d.claims, s.claims)
    requires ClaimsAgree(x.claims, x.claims) && ClaimsAgree(s.claims, x.claims) && ClaimsAgree(s.claims, s.claims)
    ensures ClaimsJoined(x, s, Apply(x, d))
    ensures forall key :: Get(Apply(x, d), OwnerAt(key)) == Later(Get(x, OwnerAt(key)), Get(s, OwnerAt(key)))
  {
    hide ApplyRows, ApplyTombs, MergeTombs, IncomingTombs, Newer;
    DeliverClaims(x.claims, s.claims, d.claims);
    TrackedUnion(x.claims, s.claims, Apply(x, d).claims);
    forall key ensures Get(Apply(x, d), OwnerAt(key)) == Later(Get(x, OwnerAt(key)), Get(s, OwnerAt(key))) {
      assert OwnerEntry(Apply(x, d).claims, key) == Later(OwnerEntry(x.claims, key), OwnerEntry(s.claims, key));
    }
  }

  lemma DeliverJoins(x: Replica, s: Replica, f: Frontier, d: SyncDelta, gone: set<RowKey>)
    requires Stored(x.rows) && Stored(s.rows) && Complete(s, x, gone) && Mirror(s, gone)
    requires IsDelta(s, f, d) && Dominates(x.frontier, f)
    requires forall key :: Get(Apply(x, d), OwnerAt(key)) == Later(Get(x, OwnerAt(key)), Get(s, OwnerAt(key)))
    ensures SlotsJoined(x, s, Apply(x, d), gone) && SlotsFrom(x, s, Apply(x, d))
  {
    var y := Apply(x, d);
    forall slot
      ensures !Gone(slot, gone) ==> Get(y, slot) == Later(Get(x, slot), Get(s, slot))
      ensures Get(y, slot) == None || Get(y, slot) == Get(x, slot) || Get(y, slot) == Get(s, slot)
              || (slot.DeleteAt? && Get(y, slot) == Get(s, TombAt(slot.key)))
    {
      if slot.OwnerAt? {
        assert slot == OwnerAt(slot.claim);
      } else {
        DeliverOrigin(x, s, f, d, slot);
        if !Gone(slot, gone) {
          DeliverSlot(x, s, f, d, gone, slot);
        }
      }
    }
  }

  /** The clock and frontier after a delivery. */
  lemma DeliverFrontier(x: Replica, d: SyncDelta)
    requires ClockDominates(x)
    ensures var y := Apply(x, d);
            && ClockDominates(y) && x.clock <= y.clock
            && (forall p :: Seen(x.frontier, p) <= Seen(y.frontier, p) && Seen(d.frontier, p) <= Seen(y.frontier, p))
            && (forall p | p != x.peer :: Seen(y.frontier, p) == Max(Seen(x.frontier, p), Seen(d.frontier, p)))
  {
    hide ApplyRows, ApplyTombs, MergeTombs, IncomingTombs, MergeClaims, Rebuild;
    assert forall p | p in d.frontier :: d.frontier[p] <= Highest(d.frontier);
    assert Seen(x.frontier, x.peer) == x.clock;
  }

  lemma DeliverCovered(x: Replica, s: Replica, y: Replica)
    requires Covered(x) && Covered(s) && SlotsFrom(x, s, y) && ClaimsJoined(x, s, y)
    requires forall p :: Seen(x.frontier, p) <= Seen(y.frontier, p) && Seen(s.frontier, p) <= Seen(y.frontier, p)
    ensures Covered(y)
  {
    forall slot | Get(y, slot).Some? ensures Covers(y.frontier, Get(y, slot).value.version) {
      assert Get(y, slot) == Get(x, slot) || Get(y, slot) == Get(s, slot)
             || (slot.DeleteAt? && Get(y, slot) == Get(s, TombAt(slot.key)));
    }
  }

  lemma DeliverHolders(x: Replica, s: Replica, y: Replica)
    requires Holders(x) && Holders(s) && SlotsFrom(x, s, y) && ClaimsJoined(x, s, y)
    requires x.schemas == s.schemas == y.schemas
    ensures Holders(y)
  {
    forall k, c | k in y.rows && c in y.rows[k].cells && UniqueColumn(y.schemas, k.table, c)
        && y.rows[k].cells[c].value != Null
      ensures Claimant(y.claims, ClaimFor(k, c, y.rows[k].cells[c].value), k.row)
    {
      var slot := CellAt(k, c);
      assert Get(y, slot) == Get(x, slot) || Get(y, slot) == Get(s, slot);
      if Get(y, slot) == Get(x, slot) {
        assert Claimant(x.claims, ClaimFor(k, c, x.rows[k].cells[c].value), k.row);
      } else {
        assert Claimant(s.claims, ClaimFor(k, c, s.rows[k].cells[c].value), k.row);
      }
    }
  }

  lemma DeliverKeepsLocal(x: Replica, s: Replica, f: Frontier, d: SyncDelta, gone: set<RowKey>)
    requires LocalInv(x) && LocalInv(s) && PairInv(s, x, gone) && Mirror(s, gone)
    requires IsDelta(s, f, d) && Dominates(x.frontier, f)
    ensures LocalInv(Apply(x, d))
    ensures SlotsJoined(x, s, Apply(x, d), gone) && SlotsFrom(x, s, Apply(x, d)) && ClaimsJoined(x, s, Apply(x, d))
  {
    var y := Apply(x, d);
    DeliverJoinsClaims(x, s, d);
    DeliverJoins(x, s, f, d, gone);
    DeliverFrontier(x, d);
    DeliverStored(x, s, f, d);
    DeliverCovered(x, s, y);
    DeliverHolders(x, s, y);
  }

  lemma DeliverCompletesFrom(o: Replica, x: Replica, s: Replica, y: Replica, gone: set<RowKey>)
    requires SlotsJoined(x, s, y, gone) && Complete(o, x, gone) && Complete(o, s, gone) && Covered(o)
    requires Seen(o.frontier, x.peer) <= Seen(x.frontier, x.peer)
    requires forall p | p != x.peer :: Seen(y.frontier, p) == Max(Seen(x.frontier, p), Seen(s.frontier, p))
    ensures Complete(o, y, gone)
  {
    forall slot | !Gone(slot, gone) && Get(o, slot).Some? && Covers(y.frontier, Get(o, slot).value.version)
      ensures Get(y, slot).Some? && AtLeast(Get(y, slot).value.version, Get(o, slot).value.version)
    {
      var v := Get(o, slot).value.version;
      assert Covers(o.frontier, v);
      assert Covers(x.frontier, v) || Covers(s.frontier, v);
      assert Get(y, slot) == Later(Get(x, slot), Get(s, slot));
      VersionOrder();
    }
  }

  lemma DeliverCompletesTo(o: Replica, x: Replica, s: Replica, y: Replica, gone: set<RowKey>)
    requires SlotsFrom(x, s, y) && SlotsJoined(x, s, y, gone) && Complete(x, o, gone) && Complete(s, o, gone)
    requires Coherent(x, o) && Coherent(s, o)
    ensures Complete(y, o, gone) && Coherent(y, o) && Coherent(o, y)
  {
    forall slot | !Gone(slot, gone) && Get(y, slot).Some? && Covers(o.frontier, Get(y, slot).value.version)
      ensures Get(o, slot).Some? && AtLeast(Get(o, slot).value.version, Get(y, slot).value.version)
    {
      assert Get(y, slot) == Get(x, slot) || Get(y, slot) == Get(s, slot);
    }
    forall slot | Get(o, slot).Some? && Get(y, slot).Some? && Get(o, slot).value.version == Get(y, slot).value.version
      ensures Get(o, slot) == Get(y, slot)
    {
      assert Get(y, slot) == Get(x, slot) || Get(y, slot) == Get(s, slot)
             || (slot.DeleteAt? && Get(y, slot).value.payload == Marked);
    }
  }

  lemma DeliverClaimsAgree(o: Replica, x: Replica, s: Replica, y: Replica)
    requires ClaimsJoined(x, s, y) && ClaimsAgree(o.claims, x.claims) && ClaimsAgree(o.claims, s.claims)
    ensures ClaimsAgree(o.claims, y.claims) && ClaimsAgree(y.claims, o.claims)
  {
  }

  lemma DeliverKeepsPair(w: World, x: Replica, s: Replica, d: SyncDelta, o: Replica)
    requires Inv(w) && x.peer in w.live && x == w.live[x.peer] && s in w.seen && o in w.seen && d.frontier == s.frontier
    requires SlotsJoined(x, s, Apply(x, d), w.gone) && SlotsFrom(x, s, Apply(x, d)) && ClaimsJoined(x, s, Apply(x, d))
    ensures PairInv(o, Apply(x, d), w.gone) && PairInv(Apply(x, d), o, w.gone)
  {
    var y := Apply(x, d);
    assert PairInv(x, o, w.gone) && PairInv(o, x, w.gone) && PairInv(s, o, w.gone) && PairInv(o, s, w.gone);
    assert StateInv(w, o) && StateInv(w, x);
    DeliverFrontier(x, d);
    DeliverCompletesFrom(o, x, s, y, w.gone);
    DeliverCompletesTo(o, x, s, y, w.gone);
    DeliverClaimsAgree(o, x, s, y);
  }

  lemma DeliverMirror(x: Replica, s: Replica, y: Replica, gone: set<RowKey>)
    requires SlotsJoined(x, s, y, gone) && Mirror(x, gone) && Mirror(s, gone)
    ensures Mirror(y, gone)
  {
    forall k | k !in gone ensures Get(y, DeleteAt(k)) == Get(y, TombAt(k)) {
      assert Get(x, DeleteAt(k)) == Get(x, TombAt(k)) && Get(s, DeleteAt(k)) == Get(s, TombAt(k));
    }
  }

  lemma DeliverDead(x: Replica, s: Replica, f: Frontier, d: SyncDelta, gone: set<RowKey>)
    requires IsDelta(s, f, d) && Stored(x.rows) && Stored(s.rows) && Dead(x, gone) && Dead(s, gone)
    ensures Dead(Apply(x, d), gone)
  {
    DeliverStored(x, s, f, d);
  }

  lemma DeliverKnown(live: map<PeerId, Replica>, x: Replica, d: SyncDelta)
    requires x.peer in live && x == live[x.peer] && Known(live, x.frontier) && Known(live, d.frontier)
    requires ClockDominates(x)
    ensures Known(live[x.peer := Apply(x, d)], Apply(x, d).frontier)
  {
    DeliverFrontier(x, d);
  }

  lemma DeliverState(w: World, x: Replica, s: Replica, f: Frontier, d: SyncDelta)
    requires StateInv(w, x) && StateInv(w, s) && PairInv(s, x, w.gone) && x == w.live[x.peer]
    requires IsDelta(s, f, d) && Dominates(x.frontier, f)
    ensures StateInv(Updated(w, x.peer, Apply(x, d)), Apply(x, d)) && x.clock <= Apply(x, d).clock
    ensures SlotsJoined(x, s, Apply(x, d), w.gone) && SlotsFrom(x, s, Apply(x, d)) && ClaimsJoined(x, s, Apply(x, d))
  {
    DeliverKeepsLocal(x, s, f, d, w.gone);
    DeliverDead(x, s, f, d, w.gone);
    DeliverMirror(x, s, Apply(x, d), w.gone);
    DeliverKnown(w.live, x, d);
  }

  lemma DeliverKeepsInv(w: World, p: PeerId, s: Replica, f: Frontier, d: SyncDelta)
    requires Inv(w) && CanDeliver(w, p, s, f, d)
    ensures Inv(Updated(w, p, Apply(w.live[p], d)))
  {
    var x := w.live[p];
    assert StateInv(w, x) && StateInv(w, s) && PairInv(s, x, w.gone);
    DeliverState(w, x, s, f, d);
    forall o | o in w.seen ensures PairInv(o, Apply(x, d), w.gone) && PairInv(Apply(x, d), o, w.gone) {
      DeliverKeepsPair(w, x, s, d, o);
    }
    ExtendKeepsInv(w, p, Apply(x, d));
  }

  // ------------------------------------------------- garbage collection

  /** A tombstone the global minimum has reached has been applied by every live peer. */
  lemma StableIsDeadEverywhere(w: World, p: PeerId, known: map<PeerId, Frontier>, global: Frontier, k: RowKey,
    q: PeerId)
    requires Inv(w) && CanCollect(w, p, known, global) && q in w.live
    requires k in CollectedKeys(w.live[p], global) && k in w.live[q].rows
    ensures w.live[q].rows[k].deleted
  {
    hide Coherent, ClaimsAgree, Covered, Holders, ClaimsOrdered;
    var x := w.live[p];
    var o := w.live[q];
    assert StateInv(w, x) && StateInv(w, o) && PairInv(x, o, w.gone);
    if k !in w.gone {
      assert Dominates(global, global) && Dominates(known[q], global);
      CoversMonotone(global, known[q], x.tombs[k]);
      CoversMonotone(known[q], o.frontier, x.tombs[k]);
      assert Get(x, DeleteAt(k)) == Get(x, TombAt(k));
      assert Get(o, DeleteAt(k)).Some?;
    }
  }

  lemma CollectedSlots(x: Replica, global: Frontier)
    ensures forall s {:trigger Get(Collected(x, global), s)} ::
              if Gone(s, CollectedKeys(x, global)) then Get(Collected(x, global), s) == None
              else Get(Collected(x, global), s) == Get(x, s)
  {
  }

  /** y is x with the slots of collected rows removed. */
  ghost predicate Pruned(x: Replica, y: Replica, gone: set<RowKey>) {
    && y == x.(rows := y.rows, tombs := y.tombs)
    && (forall s {:trigger Get(y, s)} :: Get(y, s) == Get(x, s) || (Get(y, s) == None && Gone(s, gone)))
    && (forall k | k in y.rows :: k in x.rows && y.rows[k] == x.rows[k])
  }

  lemma PrunedLocal(x: Replica, y: Replica, gone: set<RowKey>)
    requires Pruned(x, y, gone) && LocalInv(x)
    ensures LocalInv(y)
  {
    forall k, c | k in y.rows && c in y.rows[k].cells && UniqueColumn(y.schemas, k.table, c)
        && y.rows[k].cells[c].value != Null
      ensures Claimant(y.claims, ClaimFor(k, c, y.rows[k].cells[c].value), k.row)
    {
      assert Claimant(x.claims, ClaimFor(k, c, x.rows[k].cells[c].value), k.row);
    }
  }

  lemma PrunedPair(a: Replica, b: Replica, a': Replica, b': Replica, before: set<RowKey>, gone: set<RowKey>)
    requires Pruned(a, a', gone) && Pruned(b, b', gone) && PairInv(a, b, before) && before <= gone
    ensures PairInv(a', b', gone)
  {
  }

  lemma PrunedMirror(x: Replica, y: Replica, before: set<RowKey>, gone: set<RowKey>)
    requires Pruned(x, y, gone) && Mirror(x, before) && before <= gone
    ensures Mirror(y, gone)
  {
    forall k | k !in gone ensures Get(y, DeleteAt(k)) == Get(y, TombAt(k)) {
      assert Get(x, DeleteAt(k)) == Get(x, TombAt(k));
    }
  }

  lemma CollectPrunes(w: World, w': World, p: PeerId, known: map<PeerId, Frontier>, global: Frontier, q: PeerId)
    requires Step(w, Collect(p, known, global), w') && q in w.live
    ensures q in w'.live && Pruned(w.live[q], w'.live[q], w'.gone)
  {
    CollectedSlots(w.live[p], global);
  }

  lemma CollectedState(w: World, w': World, p: PeerId, known: map<PeerId, Frontier>, global: Frontier, q: PeerId)
    requires Inv(w) && Step(w, Collect(p, known, global), w') && q in w.live
    ensures StateInv(w', w'.live[q])
  {
    var x := w.live[q];
    var y := w'.live[q];
    assert StateInv(w, x);
    CollectPrunes(w, w', p, known, global, q);
    PrunedLocal(x, y, w'.gone);
    PrunedMirror(x, y, w.gone, w'.gone);
    forall k | k in w'.gone && k in y.rows ensures y.rows[k].deleted {
      if k !in w.gone {
        StableIsDeadEverywhere(w, p, known, global, k, q);
      }
    }
    forall r | Seen(y.frontier, r) > 0 ensures r in w'.live && Seen(y.frontier, r) <= w'.live[r].clock {
      assert w'.live[r].clock == w.live[r].clock;
    }
  }

  lemma CollectKeepsInv(w: World, w': World, p: PeerId, known: map<PeerId, Frontier>, global: Frontier)
    requires Inv(w) && Step(w, Collect(p, known, global), w')
    ensures Inv(w')
  {
    forall q | q in w'.live ensures w'.live[q].peer == q && w'.live[q] in w'.seen && StateInv(w', w'.live[q]) {
      CollectedState(w, w', p, known, global, q);
    }
    forall a, b | a in w'.seen && b in w'.seen ensures PairInv(a, b, w'.gone) {
      var q :| q in w'.live && w'.live[q] == a;
      var r :| r in w'.live && w'.live[r] == b;
      CollectPrunes(w, w', p, known, global, q);
      CollectPrunes(w, w', p, known, global, r);
      PrunedPair(w.live[q], w.live[r], a, b, w.gone, w'.gone);
    }
  }

  // ------------------------------------------------------- whole runs

  lemma StepKeepsInv(w: World, a: Action, w': World)
    requires Inv(w) && Step(w, a, w')
    ensures Inv(w')
  {
    match a
    case Write(p, next) => WriteKeepsInv(w, p, next);
    case Deliver(p, source, filter, d) => DeliverKeepsInv(w, p, source, filter, d);
    case Collect(p, known, global) => CollectKeepsInv(w, w', p, known, global);
  }

  /** The invariant holds in every state of every run. */
  lemma {:induction false} RunKeepsInv(ws: seq<World>, actions: seq<Action>)
    requires Run(ws, actions) && Inv(ws[0])
    ensures forall n | 0 <= n < |ws| :: Inv(ws[n])
  {
    if actions != [] {
      var n := |actions| - 1;
      RunKeepsInv(ws[..n + 1], actions[..n]);
      assert ws[..n + 1][n] == ws[n];
      StepKeepsInv(ws[n], actions[n], ws[n + 1]);
      assert forall m | 0 <= m < n + 1 :: ws[..n + 1][m] == ws[m];
    }
  }
}
