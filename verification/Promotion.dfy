/** The promotion of losers when an owner is deleted, and when converged peers promote the same one. */
module Promotion {
  import opened Types
  import opened Merge
  import opened Uniqueness
  import opened Storage
  import opened Invariants
  import opened World
  import opened Convergence
  import opened UniqueRows

  // ------------------------------------------------------- a dead owner

  /** The newest entry of a live row. */
  function NewestLive(losers: seq<Loser>, rows: Rows, t: TableId): (n: Option<Loser>)
    ensures n.Some? ==> n.value in losers && Live(rows, t, n.value.row)
    ensures n.None? ==> forall l | l in losers :: !Live(rows, t, l.row)
  {
    if losers == [] then None
    else
      assert losers == [losers[0]] + losers[1..];
      var rest := NewestLive(losers[1..], rows, t);
      if !Live(rows, t, losers[0].row) || (rest.Some? && Newer(rest.value.version, losers[0].version)) then rest
      else Some(losers[0])
  }

  lemma {:induction false} NewestIsNewest(losers: seq<Loser>, rows: Rows, t: TableId)
    ensures var n := NewestLive(losers, rows, t);
            n.Some? ==> forall l | l in losers && Live(rows, t, l.row) :: AtLeast(n.value.version, l.version)
  {
    if losers != [] {
      NewestIsNewest(losers[1..], rows, t);
      assert losers == [losers[0]] + losers[1..];
      VersionOrder();
    }
  }

  /** Some live row wins the key. */
  ghost predicate HasLiveWinner(claims: Claims, rows: Rows, key: ClaimKey) {
    exists row :: Live(rows, key.table, row) && Winner(claims, rows, key, row)
  }

  /** A dead owner's value has a live winner exactly when the row of the newest live entry wins by its first entry. */
  lemma PromotionIff(claims: Claims, rows: Rows, key: ClaimKey)
    requires key in claims && ClaimsAgree(claims, claims) && !Live(rows, key.table, claims[key].owner)
    ensures var n := NewestLive(claims[key].losers, rows, key.table);
            HasLiveWinner(claims, rows, key) <==> n.Some? && Winner(claims, rows, key, n.value.row)
  {
    var c := claims[key];
    var n := NewestLive(c.losers, rows, key.table);
    NewestIsNewest(c.losers, rows, key.table);
    forall row | Live(rows, key.table, row) && Winner(claims, rows, key, row) ensures n.Some? && row == n.value.row {
      var mine := FirstLoser(c.losers, row).value;
      assert Loser(row, mine) in c.losers;
      VersionOrder();
      assert Files(c, row, mine) && Files(c, n.value.row, n.value.version);
    }
  }

  /** The first entry of every live loser is its newest. */
  ghost predicate FirstIsNewest(losers: seq<Loser>, rows: Rows, t: TableId) {
    forall l | l in losers && Live(rows, t, l.row) :: AtLeast(FirstLoser(losers, l.row).value, l.version)
  }

  lemma {:induction false} DistinctFirst(losers: seq<Loser>, l: Loser)
    requires l in losers && forall i, j | 0 <= i < j < |losers| :: losers[i].row != losers[j].row
    ensures FirstLoser(losers, l.row) == Some(l.version)
  {
    assert losers == [losers[0]] + losers[1..];
    if losers[0] != l {
      var j :| 0 < j < |losers| && losers[j] == l;
      DistinctFirst(losers[1..], l);
    }
  }

  /**
   A dead owner's value goes to a live loser if there is one, provided first entries are newest, as with distinct
   losers.
   */
  lemma DeadOwnerPromotes(claims: Claims, rows: Rows, key: ClaimKey)
    requires key in claims && !Live(rows, key.table, claims[key].owner)
    requires FirstIsNewest(claims[key].losers, rows, key.table)
             || forall i, j | 0 <= i < j < |claims[key].losers| ::
                 claims[key].losers[i].row != claims[key].losers[j].row
    ensures HasLiveWinner(claims, rows, key) <==>
            exists row :: HasRow(claims[key].losers, row) && Live(rows, key.table, row)
  {
    var c := claims[key];
    var n := NewestLive(c.losers, rows, key.table);
    NewestIsNewest(c.losers, rows, key.table);
    if n.Some? {
      if !FirstIsNewest(c.losers, rows, key.table) {
        DistinctFirst(c.losers, n.value);
      }
      VersionOrder();
      assert Winner(claims, rows, key, n.value.row);
      assert HasRow(c.losers, n.value.row);
    }
    forall row | Live(rows, key.table, row) && Winner(claims, rows, key, row) ensures HasRow(c.losers, row) {
    }
  }

  /** Four claims in order: a, b, a again, then o. */
  function Reclaimed(key: ClaimKey): Claims {
    FileClaim(FileClaim(FileClaim(FileClaim(map[], key, "a", Version(1, "P")), key, "b", Version(2, "P")), key, "a",
        Version(3, "P")), key, "o", Version(4, "P"))
  }

  /** After a re-claim the list names a twice and the newest entry comes second: with o gone neither live loser wins. */
  lemma NobodyPromoted(key: ClaimKey, rows: Rows)
    requires !Live(rows, key.table, "o") && Live(rows, key.table, "a") && Live(rows, key.table, "b")
    ensures Reclaimed(key)[key]
            == Claim("o", Version(4, "P"),
                [Loser("a", Version(1, "P")), Loser("b", Version(2, "P")), Loser("a", Version(3, "P"))])
    ensures !HasLiveWinner(Reclaimed(key), rows, key)
    ensures Displaced(Reclaimed(key), rows, key, "a") && Displaced(Reclaimed(key), rows, key, "b")
  {
    var a1, b2, a3 := Loser("a", Version(1, "P")), Loser("b", Version(2, "P")), Loser("a", Version(3, "P"));
    var c := Reclaimed(key)[key];
    assert c.losers == [a1, b2, a3];
    assert a1 in c.losers && b2 in c.losers && a3 in c.losers;
    assert FirstLoser(c.losers[1..], "b") == Some(Version(2, "P"));
    assert FirstLoser(c.losers, "a") == Some(Version(1, "P")) && FirstLoser(c.losers, "b") == Some(Version(2, "P"));
    forall row ensures !(Live(rows, key.table, row) && Winner(Reclaimed(key), rows, key, row)) {
      if row != "a" && row != "b" {
        assert !HasRow(c.losers, row);
      }
    }
  }

  // ------------------------------------------------------- converged peers

  ghost predicate SameClaimants(x: Replica, y: Replica) {
    forall key, row :: Claimant(x.claims, key, row) <==> Claimant(y.claims, key, row)
  }

  /** The owner is live, or at most one loser is. */
  ghost predicate Uncontested(x: Replica, key: ClaimKey)
    requires key in x.claims
  {
    Live(x.rows, key.table, x.claims[key].owner)
    || forall r1, r2 | HasRow(x.claims[key].losers, r1) && Live(x.rows, key.table, r1)
                       && HasRow(x.claims[key].losers, r2) && Live(x.rows, key.table, r2) :: r1 == r2
  }

  lemma WinnersAgree(x: Replica, y: Replica, key: ClaimKey, row: RowId)
    requires SameReads(x, y) && SameClaimants(x, y) && (key in x.claims ==> Uncontested(x, key))
    requires Live(x.rows, key.table, row)
    ensures Winner(x.claims, x.rows, key, row) <==> Winner(y.claims, y.rows, key, row)
  {
    assert OwnerEntry(x.claims, key) == OwnerEntry(y.claims, key);
    assert forall t, r :: Live(x.rows, t, r) <==> Live(y.rows, t, r);
    assert Claimant(x.claims, key, row) <==> Claimant(y.claims, key, row);
    if key in x.claims && x.claims[key].owner != row && !Live(x.rows, key.table, x.claims[key].owner) {
      forall l | l in y.claims[key].losers && Live(y.rows, key.table, l.row)
          ensures HasRow(x.claims[key].losers, l.row) {
        assert Claimant(y.claims, key, l.row);
        assert Claimant(x.claims, key, l.row);
      }
    }
  }

  /** Peers with equal visible rows, owners and claimants show the same rows of a table without contested values. */
  lemma ConvergedReadsAgree(x: Replica, y: Replica, k: RowKey)
    requires SameReads(x, y) && SameClaimants(x, y) && x.schemas == y.schemas
    requires forall key | key in x.claims && key.table == k.table :: Uncontested(x, key)
    ensures Shown(x, k) <==> Shown(y, k)
  {
    hide Uncontested, Winner, SameClaimants;
    if k in x.rows && Visible(x.rows[k]) {
      assert k == RowKey(k.table, k.row) && x.rows[k] == y.rows[k];
      forall key: ClaimKey | key.table == k.table
        ensures Winner(x.claims, x.rows, key, k.row) <==> Winner(y.claims, y.rows, key, k.row)
      {
        WinnersAgree(x, y, key, k.row);
      }
    }
  }

  /** So whatever the order of syncs, two peers reached by the same peers show the same rows of such a table. */
  lemma GossipReadsAgree(ws: seq<World>, schedule: Schedule, vs: seq<World>, other: Schedule, p: PeerId, q: PeerId,
    k: RowKey)
    requires SyncRun(ws, schedule) && SyncRun(vs, other) && ws[0] == vs[0] && Inv(ws[0])
    requires forall e | e in schedule + other :: e.0 in ws[0].live && e.1 in ws[0].live
    requires p in ws[0].live && q in ws[0].live
    requires Reach(ws[0].live.Keys, schedule)[p] == Reach(ws[0].live.Keys, other)[q]
    requires p in ws[|schedule|].live && q in vs[|other|].live
    requires forall key | key in ws[|schedule|].live[p].claims && key.table == k.table ::
             Uncontested(ws[|schedule|].live[p], key)
    ensures Shown(ws[|schedule|].live[p], k) <==> Shown(vs[|other|].live[q], k)
  {
    assert |ws| == |schedule| + 1 && |vs| == |other| + 1;
    hide Inv, SyncRun, Uncontested, SameReads, SameSlots, SameState, SameClaimants, ClaimantsOf, Shown, Reach, Claimant;
    assert forall e | e in schedule :: e in schedule + other;
    assert forall e | e in other :: e in schedule + other;
    OrderIndependence(ws, schedule, vs, other, p, q);
    GossipClaimants(ws, schedule);
    GossipClaimants(vs, other);
    SameClaimantsOf(ws[|schedule|].live[p], vs[|other|].live[q], StartsOf(ws[0], Reach(ws[0].live.Keys, schedule)[p]));
    SyncedSchemas(ws, schedule, p);
    SyncedSchemas(vs, other, q);
    StartSchemas(ws[0], p, q);
    ConvergedReadsAgree(ws[|schedule|].live[p], vs[|other|].live[q], k);
  }

  lemma SameClaimantsOf(x: Replica, y: Replica, xs: set<Replica>)
    requires ClaimantsOf(x, xs) && ClaimantsOf(y, xs)
    ensures SameClaimants(x, y)
  {
    hide Claimant;
  }

  lemma StartSchemas(w: World, p: PeerId, q: PeerId)
    requires Inv(w) && p in w.live && q in w.live
    ensures w.live[p].schemas == w.live[q].schemas
  {
    LivePair(w, p, q);
  }

  /** Syncs do not touch schemas. */
  lemma {:induction false} SyncedSchemas(ws: seq<World>, schedule: Schedule, p: PeerId)
    requires SyncRun(ws, schedule) && p in ws[0].live
    ensures p in ws[|schedule|].live && ws[|schedule|].live[p].schemas == ws[0].live[p].schemas
  {
    if schedule != [] {
      var n := |schedule| - 1;
      SyncedSchemas(ws[..n + 1], schedule[..n], p);
      assert Synced(ws[n], schedule[n].0, schedule[n].1, ws[n + 1]);
    }
  }
}
