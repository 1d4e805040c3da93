/**
 Integrity after a merge or delete: the three enforcement passes, whole statements and the host's sync of two peers.
 */
module Engine {
  import opened Types
  import opened Storage
  import opened Invariants
  import opened World
  import opened Sql
  import opened Cascades
  import opened Runs
  import opened UniqueRows

  // ------------------------------------------------------- the pipeline

  /** Foreign keys are enforced, then uniqueness; a further foreign-key pass has nothing left to do. */
  ghost predicate Enforced(x: Replica, y: Replica) {
    exists m :: FK.FkEnforced(x, m) && UniqEnforced(m, y)
  }

  lemma EnforcedIsWrite(x: Replica, y: Replica)
    requires LocalInv(x) && Enforced(x, y)
    ensures LocalInv(y) && Writes(x, y) && y.rows.Keys == x.rows.Keys
  {
    hide LocalInv, Writes, FK.RowEffect, UniqRowEffect;
    var m :| FK.FkEnforced(x, m) && UniqEnforced(m, y);
    FK.FkIsWrite(x, m);
    UniqIsWrite(m, y);
    WritesTransitive(x, m, y);
  }

  /** Enforcement leaves no stale reference and no displaced value. */
  lemma EnforcedIsStable(x: Replica, y: Replica)
    requires LocalInv(x) && Enforced(x, y)
    ensures FK.Stable(y) && Settled(y)
  {
    hide LocalInv, FK.RowEffect, UniqRowEffect, FK.Stable, Settled;
    var m :| FK.FkEnforced(x, m) && UniqEnforced(m, y);
    FK.FkIsWrite(x, m);
    FK.LocalIsReady(m);
    UniqKeepsFkStable(m, y);
  }

  /** Running the passes again changes nothing, the clock and frontier included. */
  lemma EnforcedTwice(x: Replica, y: Replica, z: Replica)
    requires LocalInv(x) && Enforced(x, y) && Enforced(y, z)
    ensures z == y
  {
    hide LocalInv, FK.Stable, Settled, FK.FkEffect, UniqEffect;
    EnforcedIsStable(x, y);
    var m :| FK.FkEnforced(y, m) && UniqEnforced(m, z);
  }

  /** The three passes run after every merge and every DELETE. */
  method Enforce(r: ReplicaState)
    requires r.Valid() && LocalInv(r.View())
    modifies r.Repr()
    ensures r.Valid() && Enforced(old(r.View()), r.View())
  {
    hide LocalInv, FK.Ready, FK.FkEffect, UniqEffect, FK.Stable, Settled, ClockDominates;
    ghost var x := r.View();
    LocalReady(x);
    ghost var _ := EnforceFkCascades(r);
    ghost var m := r.View();
    FK.FkIsWrite(x, m);
    LocalReady(m);
    EnforceUniqueness(r);
    ghost var y := r.View();
    UniqIsWrite(m, y);
    LocalReady(y);
    UniqKeepsFkStable(m, y);
    ghost var _ := EnforceFkCascades(r);
    assert r.View() == y;
  }

  lemma LocalReady(x: Replica)
    requires LocalInv(x)
    ensures FK.Ready(x) && ClockDominates(x)
  {
    FK.LocalIsReady(x);
  }

  // ------------------------------------------------------- operations

  /** One local operation: a fresh INSERT, an UPDATE, a DELETE or an enforcement pass. */
  ghost predicate Operation(x: Replica, y: Replica) {
    || (exists t, id, vals ::
        t in x.schemas && RowKey(t, id) !in x.rows && vals != map[] && y == Insert(x, t, id, vals))
    || (exists t, id, assigns :: t in x.schemas && RowKey(t, id) in x.rows && y == Update(x, t, id, assigns))
    || (exists t, id :: RowKey(t, id) in x.rows && y == Delete(x, t, id))
    || FK.FkEnforced(x, y) || UniqEnforced(x, y)
  }

  /** Every local operation is a local write that keeps the invariant. */
  lemma OperationIsWrite(x: Replica, y: Replica)
    requires LocalInv(x) && Operation(x, y)
    ensures LocalInv(y) && Writes(x, y)
  {
    hide LocalInv, Writes, FK.FkEffect, UniqEffect, FK.Stable, Settled;
    if FK.FkEnforced(x, y) {
      FK.FkIsWrite(x, y);
    } else if UniqEnforced(x, y) {
      UniqIsWrite(x, y);
    } else if t, id, vals :|
      t in x.schemas && RowKey(t, id) !in x.rows && vals != map[] && y == Insert(x, t, id, vals)
    {
      InsertIsWrite(x, t, id, vals);
    } else if t, id, assigns :| t in x.schemas && RowKey(t, id) in x.rows && y == Update(x, t, id, assigns) {
      UpdateIsWrite(x, t, id, assigns);
    } else {
      var t, id :| RowKey(t, id) in x.rows && y == Delete(x, t, id);
      DeleteIsWrite(x, t, id);
    }
  }

  /** So each is a step of the world, unless it inserts an id that was garbage collected. */
  lemma OperationIsStep(w: World, p: PeerId, y: Replica)
    requires Inv(w) && p in w.live && Operation(w.live[p], y)
    requires forall k | k in y.rows && k in w.gone :: k in w.live[p].rows
    ensures Step(w, Write(p, y), Updated(w, p, y)) && Inv(Updated(w, p, y))
  {
    hide LocalInv, Writes, Operation;
    LiveLocal(w, p);
    OperationIsWrite(w.live[p], y);
    WriteKeepsInv(w, p, y);
  }

  lemma LiveLocal(w: World, p: PeerId)
    requires Inv(w) && p in w.live
    ensures LocalInv(w.live[p]) && w.live[p].peer == p && w.live[p] in w.seen
  {
    assert StateInv(w, w.live[p]);
  }

  /** In every reachable state no two rows a peer shows share a non-NULL value of a single-column UNIQUE. */
  lemma ReadsAreUnique(ws: seq<World>, actions: seq<Action>, w: World, p: PeerId, j: RowKey, k: RowKey, c: ColumnId)
    requires Reachable(ws, actions, w) && p in w.live
    requires Shown(w.live[p], j) && Shown(w.live[p], k) && j.table == k.table
    requires UniqueColumn(w.live[p].schemas, k.table, c)
    requires c in w.live[p].rows[j].cells && c in w.live[p].rows[k].cells
    requires w.live[p].rows[j].cells[c].value == w.live[p].rows[k].cells[c].value != Null
    ensures j == k
  {
    hide Shown, LocalInv, Inv;
    ReachableInv(ws, actions, w);
    LiveLocal(w, p);
    ShownStored(w.live[p], j);
    ShownStored(w.live[p], k);
    ShownAreUnique(w.live[p], j, k, c);
  }
}
