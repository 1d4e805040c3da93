/** Replay safety: a delta applied twice has the effect of applying it once. */
module Replay {
  import opened Types
  import opened Frontiers
  import opened Merge
  import opened Uniqueness
  import opened Storage
  import opened Delta

  lemma RowBelowTransitive(a: Row, b: Row, c: Row)
    requires RowBelow(a, b) && RowBelow(b, c)
    ensures RowBelow(a, c)
  {
    VersionOrder();
  }

  lemma {:induction false} ApplyRowsAbove(rows: Rows, rs: seq<RowDelta>)
    requires WellFormedTable(rows) && forall r | r in rs :: WellFormedRow(r.row)
    ensures WellFormedTable(ApplyRows(rows, rs)) && TableBelow(rows, ApplyRows(rows, rs))
    ensures forall r | r in rs :: KeyOf(r) in ApplyRows(rows, rs) && RowBelow(r.row, ApplyRows(rows, rs)[KeyOf(r)])
  {
    if rs != [] {
      var n := |rs| - 1;
      var before := ApplyRows(rows, rs[..n]);
      var last := rs[n];
      var k := KeyOf(last);
      ApplyRowsAbove(rows, rs[..n]);
      assert rs == rs[..n] + [last];
      if k in before {
        MergeRowLeast(before[k], last.row, before[k]);
        if k in rows {
          RowBelowTransitive(rows[k], before[k], MergeRow(before[k], last.row));
        }
        forall r | r in rs && KeyOf(r) == k ensures RowBelow(r.row, MergeRow(before[k], last.row)) {
          if r in rs[..n] {
            RowBelowTransitive(r.row, before[k], MergeRow(before[k], last.row));
          }
        }
      }
    }
  }

  lemma {:induction false} ApplyRowsNothing(rows: Rows, rs: seq<RowDelta>)
    requires WellFormedTable(rows)
    requires forall r | r in rs :: WellFormedRow(r.row) && KeyOf(r) in rows && RowBelow(r.row, rows[KeyOf(r)])
    ensures ApplyRows(rows, rs) == rows
  {
    if rs != [] {
      ApplyRowsNothing(rows, rs[..|rs| - 1]);
      var last := rs[|rs| - 1];
      MergeRowAbsorbs(rows[KeyOf(last)], last.row);
    }
  }

  ghost predicate TombBelow(t: Tombstone, rows: Rows) {
    t.key in rows ==> rows[t.key].deleteVersion.Some? && AtLeast(rows[t.key].deleteVersion.value, t.version)
  }

  lemma {:induction false} ApplyTombsAbove(rows: Rows, ts: seq<Tombstone>)
    requires WellFormedTable(rows)
    ensures var out := ApplyTombs(rows, ts);
            && WellFormedTable(out) && TableBelow(rows, out) && out.Keys == rows.Keys
            && (forall t | t in ts :: TombBelow(t, out))
            && (forall k | k in rows :: out[k].id == rows[k].id && out[k].cells == rows[k].cells)
  {
    VersionOrder();
    if ts != [] {
      var n := |ts| - 1;
      ApplyTombsAbove(rows, ts[..n]);
      assert ts == ts[..n] + [ts[n]];
    }
  }

  lemma {:induction false} ApplyTombsNothing(rows: Rows, ts: seq<Tombstone>)
    requires WellFormedTable(rows) && forall t | t in ts :: TombBelow(t, rows)
    ensures ApplyTombs(rows, ts) == rows
  {
    VersionOrder();
    if ts != [] {
      ApplyTombsNothing(rows, ts[..|ts| - 1]);
      assert TombBelow(ts[|ts| - 1], rows);
    }
  }

  lemma RowsTwice(rows: Rows, rs: seq<RowDelta>, ts: seq<Tombstone>)
    requires WellFormedTable(rows) && forall r | r in rs :: WellFormedRow(r.row)
    ensures var once := ApplyTombs(ApplyRows(rows, rs), ts); ApplyTombs(ApplyRows(once, rs), ts) == once
  {
    var merged := ApplyRows(rows, rs);
    var once := ApplyTombs(merged, ts);
    ApplyRowsAbove(rows, rs);
    ApplyTombsAbove(merged, ts);
    forall r | r in rs ensures RowBelow(r.row, once[KeyOf(r)]) {
      RowBelowTransitive(r.row, merged[KeyOf(r)], once[KeyOf(r)]);
    }
    ApplyRowsNothing(once, rs);
    ApplyTombsNothing(once, ts);
  }

  lemma TombsTwice(a: Tombs, b: Tombs)
    ensures MergeTombs(MergeTombs(a, b), b) == MergeTombs(a, b)
  {
    VersionOrder();
  }

  lemma FrontierTwice(f: Frontier, g: Frontier, p: PeerId, clock: nat)
    ensures var once := Bump(MergeFrontiers(f, g), p, clock); Bump(MergeFrontiers(once, g), p, clock) == once
  {
    var once := Bump(MergeFrontiers(f, g), p, clock);
    assert MergeFrontiers(once, g) == once;
  }

  /** The whole replica, loser lists included, is the same after a second application. */
  lemma ApplyTwice(x: Replica, d: SyncDelta)
    requires WellFormedTable(x.rows) && forall r | r in d.rows :: WellFormedRow(r.row)
    ensures Apply(Apply(x, d), d) == Apply(x, d)
  {
    RowsTwice(x.rows, d.rows, d.tombstones);
    TombsTwice(x.tombs, IncomingTombs(d.tombstones));
    MergeClaimsReplay(x.claims, Rebuild(d.claims));
    FrontierTwice(x.frontier, d.frontier, x.peer, Max(x.clock, Highest(d.frontier)));
  }
}
