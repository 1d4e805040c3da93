/** Frontier algebra, the Lamport clock and the registry of known peers. */
module Frontiers {
  import opened Types

  /** The counter a frontier gives to a peer; absent entries read as 0. */
  function Seen(f: Frontier, p: PeerId): nat {
    if p in f then f[p] else 0
  }

  function Max(a: nat, b: nat): nat {
    if b > a then b else a
  }

  /** The frontier has reached this version. */
  predicate Covers(f: Frontier, v: Version) {
    v.counter <= Seen(f, v.peer)
  }

  predicate Dominates(a: Frontier, b: Frontier) {
    forall p | p in b :: Seen(a, p) >= b[p]
  }

  /** The single-entry frontier of the version is dominated. */
  predicate IsStable(v: Version, global: Frontier)
    ensures IsStable(v, global) <==> Covers(global, v)
  {
    var needed := map[v.peer := v.counter];
    assert v.peer in needed;
    Dominates(global, needed)
  }

  function MergeFrontiers(a: Frontier, b: Frontier): Frontier {
    map p | p in a.Keys + b.Keys :: Max(Seen(a, p), Seen(b, p))
  }

  function Bump(f: Frontier, p: PeerId, counter: nat): Frontier {
    f[p := Max(Seen(f, p), counter)]
  }

  /** The loop of merge_frontiers: entries of a, then of b, each raising the result. */
  method ComputeMergeFrontiers(a: Frontier, b: Frontier) returns (r: Frontier)
    ensures r == MergeFrontiers(a, b)
  {
    r := map[];
    var todo := a.Keys;
    while todo != {}
      invariant todo <= a.Keys && r.Keys == a.Keys - todo
      invariant forall p | p in r :: r[p] == a[p]
    {
      var p :| p in todo;
      r := Bump(r, p, a[p]);
      todo := todo - {p};
    }
    todo := b.Keys;
    while todo != {}
      invariant todo <= b.Keys && r.Keys == a.Keys + (b.Keys - todo)
      invariant forall p | p in r :: r[p] == if p in todo then Seen(a, p) else Max(Seen(a, p), Seen(b, p))
    {
      var p :| p in todo;
      r := Bump(r, p, b[p]);
      todo := todo - {p};
    }
  }

  /** Domination is the pointwise order on counters. */
  lemma DominatesPointwise(a: Frontier, b: Frontier)
    ensures Dominates(a, b) <==> forall p :: Seen(b, p) <= Seen(a, p)
  {
    if forall p :: Seen(b, p) <= Seen(a, p) {
      forall p | p in b ensures Seen(a, p) >= b[p] {
        assert Seen(b, p) <= Seen(a, p);
      }
    }
  }

  /** Merging gives the least upper bound: a frontier dominates the merge iff it dominates both. */
  lemma MergeIsLeastUpperBound(a: Frontier, b: Frontier, f: Frontier)
    ensures Dominates(f, MergeFrontiers(a, b)) <==> Dominates(f, a) && Dominates(f, b)
  {
    var m := MergeFrontiers(a, b);
    if Dominates(f, m) {
      forall p | p in a ensures Seen(f, p) >= a[p] { assert p in m; }
      forall p | p in b ensures Seen(f, p) >= b[p] { assert p in m; }
    }
  }

  /** The largest counter anywhere in a frontier. */
  ghost function Highest(f: Frontier): (h: nat)
    ensures forall p | p in f :: f[p] <= h
    ensures h == 0 || exists p :: p in f && f[p] == h
  {
    if f == map[] then 0
    else
      var p :| p in f;
      var rest := f - {p};
      assert forall q | q in f :: q == p || (q in rest && rest[q] == f[q]);
      Max(f[p], Highest(rest))
  }

  /** One peer's Lamport clock. */
  class LamportClock {
    const peer: PeerId
    var counter: nat

    constructor (peer: PeerId)
      ensures this.peer == peer && counter == 0
    {
      this.peer := peer;
      counter := 0;
    }

    method Tick() returns (v: Version)
      modifies this
      ensures counter == old(counter) + 1 && v == Version(counter, peer)
    {
      counter := counter + 1;
      v := Version(counter, peer);
    }

    /** Receiving a single version advances past it. */
    method Update(remote: Version)
      modifies this
      ensures counter == Max(old(counter), remote.counter) + 1
    {
      counter := Max(counter, remote.counter) + 1;
    }

    /** Receiving a frontier raises the clock to its highest counter. */
    method UpdateFromFrontier(f: Frontier)
      modifies this
      ensures counter == Max(old(counter), Highest(f))
    {
      if peer in f {
        counter := Max(counter, f[peer]);
      }
      var todo := f.Keys;
      while todo != {}
        invariant todo <= f.Keys
        invariant counter >= old(counter)
        invariant forall p | p in f.Keys - todo :: f[p] <= counter
        invariant counter == old(counter) || exists p :: p in f && f[p] == counter
      {
        var p :| p in todo;
        counter := Max(counter, f[p]);
        todo := todo - {p};
      }
    }
  }

  /** A registry of peer frontiers: r is the greatest lower bound of the registered ones. */
  ghost predicate IsMinimum(peers: map<PeerId, Frontier>, r: Frontier) {
    forall f: Frontier :: Dominates(r, f) <==> forall q | q in peers :: Dominates(peers[q], f)
  }

  class PeerRegistry {
    var peers: map<PeerId, Frontier>

    constructor ()
      ensures peers == map[]
    {
      peers := map[];
    }

    /** Raises the stored frontier of a peer; counters never go back. */
    method UpdatePeerFrontier(p: PeerId, f: Frontier)
      modifies this
      ensures peers == old(peers)[p := MergeFrontiers(if p in old(peers) then old(peers)[p] else map[], f)]
    {
      var entry: Frontier := if p in peers then peers[p] else map[];
      var start := entry;
      var todo := f.Keys;
      while todo != {}
        invariant todo <= f.Keys && entry.Keys == start.Keys + (f.Keys - todo)
        invariant forall q | q in entry ::
                  entry[q] == if q in todo then Seen(start, q) else Max(Seen(start, q), Seen(f, q))
      {
        var q :| q in todo;
        entry := Bump(entry, q, f[q]);
        todo := todo - {q};
      }
      assert entry == MergeFrontiers(start, f);
      peers := peers[p := entry];
    }

    /** The frontier every registered peer has reached; empty when no peer is registered. */
    method GlobalMinFrontier() returns (r: Frontier)
      ensures peers == map[] ==> r == map[]
      ensures peers != map[] ==> IsMinimum(peers, r)
    {
      r := map[];
      if peers == map[] {
        return;
      }
      var first := true;
      var todo := peers.Keys;
      ghost var done: map<PeerId, Frontier> := map[];
      while todo != {}
        invariant todo <= peers.Keys && done.Keys == peers.Keys - todo
        invariant forall q | q in done :: done[q] == peers[q]
        invariant first <==> done == map[]
        invariant !first ==> IsMinimum(done, r)
      {
        var q :| q in todo;
        ghost var before := done;
        ghost var low := r;
        done := done[q := peers[q]];
        if first {
          r := peers[q];
          first := false;
          assert done == map[q := peers[q]];
        } else {
          var frontier := peers[q];
          r := map p | p in r && p in frontier :: if frontier[p] < r[p] then frontier[p] else r[p];
          MinimumStep(before, low, q, frontier, r);
        }
        todo := todo - {q};
      }
      assert done == peers;
    }
  }

  lemma MinimumStep(before: map<PeerId, Frontier>, low: Frontier, q: PeerId, f: Frontier, r: Frontier)
    requires IsMinimum(before, low) && q !in before
    requires r == map p | p in low && p in f :: if f[p] < low[p] then f[p] else low[p]
    ensures IsMinimum(before[q := f], r)
  {
    var after := before[q := f];
    forall g: Frontier
      ensures Dominates(r, g) <==> forall p | p in after :: Dominates(after[p], g)
    {
      assert Dominates(r, g) <==> Dominates(low, g) && Dominates(f, g) by {
        if Dominates(r, g) {
          forall p | p in g ensures Seen(low, p) >= g[p] && Seen(f, p) >= g[p] {
            assert Seen(r, p) >= g[p];
          }
        }
      }
      if Dominates(r, g) {
        forall p | p in after ensures Dominates(after[p], g) {
          assert p != q ==> p in before;
        }
      }
      if forall p | p in after :: Dominates(after[p], g) {
        assert after[q] == f && Dominates(f, g);
        forall p | p in before ensures Dominates(before[p], g) {
          assert after[p] == before[p];
        }
      }
    }
  }
}
