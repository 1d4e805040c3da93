/** An INSERT that reuses the id of a deleted row: when the delete is lost and that the peers then never agree again. */
module Reuse {
  import opened Types
  import opened Frontiers
  import opened Merge
  import opened Storage
  import opened Delta
  import opened Slots
  import opened Invariants
  import opened World
  import opened Runs
  import opened Convergence
  import opened Sql

  /** The row is deleted and its tombstone is the same event. */
  predicate DeletedHere(s: Replica, k: RowKey) {
    k in s.rows && s.rows[k].deleted && k in s.tombs && s.rows[k].deleteVersion == Some(s.tombs[k])
  }

  /**
   After a reused id receives the state of a peer that holds the delete, the row is visible exactly when nothing of it
   was sent.
   */
  lemma ReusedIdVisibleIff(x: Replica, t: TableId, id: RowId, vals: Values, s: Replica, f: Frontier, d: SyncDelta)
    requires t in x.schemas && Stored(s.rows) && IsDelta(s, f, d) && DeletedHere(s, RowKey(t, id))
    ensures var k := RowKey(t, id);
            var y := Apply(Insert(x, t, id, vals), d);
            k in y.rows && (Visible(y.rows[k]) <==> !Needed(s.rows[k], f))
  {
    DeliverRow(Insert(x, t, id, vals).rows, s, f, d, RowKey(t, id));
  }

  // ------------------------------------------------------- peers that part

  /** a shows the row, b holds it deleted, and a's frontier has passed everything either of them stores of it. */
  ghost predicate Parted(a: Replica, b: Replica, k: RowKey) {
    && Stored(a.rows) && Stored(b.rows)
    && k in a.rows && Visible(a.rows[k]) && !Needed(a.rows[k], a.frontier)
    && k in b.rows && b.rows[k].deleted && !Needed(b.rows[k], a.frontier)
    && (k in a.tombs ==> Covers(a.frontier, a.tombs[k])) && (k in b.tombs ==> Covers(a.frontier, b.tombs[k]))
  }

  /** A sync in both directions leaves parted peers parted: the delete is never sent again. */
  lemma PartedStays(a: Replica, b: Replica, k: RowKey, forB: SyncDelta, forA: SyncDelta)
    requires Parted(a, b, k) && IsDelta(a, b.frontier, forB) && IsDelta(b, a.frontier, forA)
    ensures Parted(Apply(a, forA), Apply(b, forB), k)
  {
    hide Needed, Outcome, IsDelta, Stored, Apply;
    var a', b' := Apply(a, forA), Apply(b, forB);
    DeliverStored(a, b, a.frontier, forA);
    DeliverStored(b, a, b.frontier, forB);
    FrontierRises(a, forA);
    PartedShows(a, b, k, forA);
    PartedHides(a, b, k, forB);
    PartedTombs(a, b, k, forA);
    PartedTombs(b, a, k, forB);
    NeededLess(a.rows[k], a.frontier, a'.frontier);
    NeededLess(b'.rows[k], a.frontier, a'.frontier);
  }

  lemma NeededLess(r: Row, f: Frontier, g: Frontier)
    requires !Needed(r, f) && forall p :: Seen(f, p) <= Seen(g, p)
    ensures !Needed(r, g)
  {
  }

  lemma FrontierRises(x: Replica, d: SyncDelta)
    ensures forall p :: Seen(x.frontier, p) <= Seen(Apply(x, d).frontier, p)
  {
    hide ApplyRows, ApplyTombs, MergeTombs, IncomingTombs;
  }

  lemma PartedShows(a: Replica, b: Replica, k: RowKey, forA: SyncDelta)
    requires Parted(a, b, k) && IsDelta(b, a.frontier, forA)
    ensures k in Apply(a, forA).rows && Apply(a, forA).rows[k] == a.rows[k]
  {
    hide Needed;
    DeliverRow(a.rows, b, a.frontier, forA, k);
    assert At(Apply(a, forA).rows, k) == Some(a.rows[k]);
  }

  lemma PartedHides(a: Replica, b: Replica, k: RowKey, forB: SyncDelta)
    requires Parted(a, b, k) && IsDelta(a, b.frontier, forB)
    ensures k in Apply(b, forB).rows && Apply(b, forB).rows[k].deleted && !Needed(Apply(b, forB).rows[k], a.frontier)
  {
    hide Outcome;
    DeliverRow(b.rows, a, b.frontier, forB, k);
    OutcomeShape(At(b.rows, k), At(a.rows, k), At(a.tombs, k), b.frontier);
    var out := Apply(b, forB).rows[k];
    assert Some(out) == Outcome(At(b.rows, k), At(a.rows, k), At(a.tombs, k), b.frontier);
    forall c | c in out.cells ensures Covers(a.frontier, out.cells[c].version) {
      assert CellEntry(out, c) == CellEntry(b.rows[k], c) || CellEntry(out, c) == CellEntry(a.rows[k], c);
    }
    assert DeleteEntry(a.rows[k]) == None;
  }

  lemma PartedTombs(x: Replica, s: Replica, k: RowKey, d: SyncDelta)
    requires IsDelta(s, x.frontier, d)
    ensures var y := Apply(x, d); k in y.tombs ==>
            (k in x.tombs && y.tombs[k] == x.tombs[k]) || (k in s.tombs && y.tombs[k] == s.tombs[k])
  {
    DeliverTomb(x, s, x.frontier, d, k);
    assert Get(Apply(x, d), TombAt(k)) == Get(x.(tombs := MergeTombs(x.tombs, IncomingTombs(d.tombstones))), TombAt(k));
  }

  /** However many rounds a session takes, its end leaves a showing the row and b holding it deleted. */
  lemma {:induction false} PartedForever(rounds: seq<Round>, a: Replica, b: Replica, k: RowKey)
    requires Session(rounds, a, b) && rounds != [] && Parted(a, b, k)
    ensures var last := rounds[|rounds| - 1]; Parted(EndA(last), EndB(last), k) && !SameState(EndA(last), EndB(last))
  {
    hide Parted, IsDelta, AnyNew, Apply;
    var n := |rounds| - 1;
    var last := rounds[n];
    assert Exchanged(last);
    if n == 0 {
      PartedStays(a, b, k, last.forB, last.forA);
    } else {
      assert Continues(rounds[n - 1], rounds[n]);
      SessionPrefix(rounds, a, b);
      PartedForever(rounds[..n], a, b, k);
      PartedStays(EndA(rounds[n - 1]), EndB(rounds[n - 1]), k, last.forB, last.forA);
    }
    PartedDiffer(EndA(last), EndB(last), k);
  }

  lemma SessionPrefix(rounds: seq<Round>, a: Replica, b: Replica)
    requires Session(rounds, a, b) && |rounds| > 1
    ensures Session(rounds[..|rounds| - 1], a, b)
  {
    hide Exchanged, Continues;
    var less := rounds[..|rounds| - 1];
    forall i | 0 <= i < |less| - 1 ensures Continues(less[i], less[i + 1]) {
      assert Continues(rounds[i], rounds[i + 1]);
    }
  }

  lemma PartedDiffer(a: Replica, b: Replica, k: RowKey)
    requires Parted(a, b, k)
    ensures !SameState(a, b)
  {
    assert a.rows[k] != b.rows[k];
  }

  /** Reusing an id whose delete at the other peer the writer's frontier has passed parts the two peers. */
  lemma ReuseParts(x: Replica, t: TableId, id: RowId, vals: Values, s: Replica)
    requires LocalInv(x) && LocalInv(s) && t in x.schemas && vals != map[]
    requires DeletedHere(s, RowKey(t, id)) && !Needed(s.rows[RowKey(t, id)], x.frontier)
    ensures Parted(Insert(x, t, id, vals), s, RowKey(t, id))
  {
    hide Holders, ClaimsAgree, ClaimsOrdered, FileKeys, UniqueKeys, CompositeKeys;
    var y := Insert(x, t, id, vals);
    var k := RowKey(t, id);
    InsertKeepsLocal(x, t, id, vals);
    assert forall p :: Seen(x.frontier, p) <= Seen(y.frontier, p);
    NeededLess(s.rows[k], x.frontier, y.frontier);
    if k in y.tombs {
      assert Get(y, TombAt(k)).Some?;
    }
    forall c | c in y.rows[k].cells ensures Covers(y.frontier, y.rows[k].cells[c].version) {
      assert Get(y, CellAt(k, c)).Some?;
    }
  }

  // ------------------------------------------------------- a reachable case

  const KEYED: Schemas := map["t" := TableSchema([Column("id", false, false, true)], [], [])]
  const ROW := map["id" := Text("r")]

  function Fresh(p: PeerId): Replica {
    Replica(p, 0, map[], map[], map[], map[], KEYED)
  }

  /** The state of both peers after A inserted and deleted a row and B received it. */
  function Shared(p: PeerId, f: Frontier): Replica {
    var k := RowKey("t", "r");
    Replica(p, 2, f,
            map[k := Row("r", map["id" := Cell(Text("r"), Version(1, "A"))], true, Some(Version(2, "A")))],
            map[k := Version(2, "A")], map[], KEYED)
  }

  function SharedDelta(): SyncDelta {
    var x := Shared("A", map["A" := 2]);
    SyncDelta("A", [RowDelta("t", x.rows[RowKey("t", "r")])], [Tombstone(RowKey("t", "r"), Version(2, "A"))], [],
        map["A" := 2])
  }

  function Start(): World {
    var live := map["A" := Fresh("A"), "B" := Fresh("B")];
    World(live, live.Values, {})
  }

  lemma StartIsReached()
    ensures Reached(Start())
  {
    hide Reached;
    assert WellFormedSchemas(KEYED);
    ReachedStart(Start());
  }

  lemma SharedIsWritten()
    ensures Delete(Insert(Fresh("A"), "t", "r", ROW), "t", "r") == Shared("A", map["A" := 2])
  {
    var vals: Values := ROW;
    assert CompositeKeys("t", [], vals) == [];
    assert UniqueKeys("t", KEYED["t"].columns[..0], vals) == [];
    assert UniqueKeys("t", KEYED["t"].columns, vals) == [];
    var x := Insert(Fresh("A"), "t", "r", ROW);
    assert x.rows[RowKey("t", "r")].cells == map["id" := Cell(Text("r"), Version(1, "A"))];
    assert x.frontier == map["A" := 1] && x.claims == map[];
    assert Delete(x, "t", "r").frontier == map["A" := 2];
  }

  lemma SharedIsDelta()
    ensures IsDelta(Shared("A", map["A" := 2]), map[], SharedDelta())
  {
    var x := Shared("A", map["A" := 2]);
    var k := RowKey("t", "r");
    assert "id" in x.rows[k].cells && !Covers(map[], x.rows[k].cells["id"].version);
    assert Needed(x.rows[k], map[]);
  }

  lemma SharedIsDelivered()
    ensures Apply(Fresh("B"), SharedDelta()) == Shared("B", map["A" := 2, "B" := 2])
  {
    hide Newer, MergeRow;
    var x := Shared("A", map["A" := 2]);
    var d := SharedDelta();
    assert d.rows[..0] == [] && d.tombstones[..0] == [];
    assert ApplyRows(map[], d.rows[..0]) == map[] && IncomingTombs(d.tombstones[..0]) == map[];
    assert ApplyRows(map[], d.rows) == x.rows;
    assert ApplyTombs(x.rows, d.tombstones[..0]) == x.rows;
    SharedFrontier();
    SharedStamp();
  }

  lemma SharedStamp()
    ensures ApplyTombs(Shared("A", map["A" := 2]).rows, SharedDelta().tombstones) == Shared("A", map["A" := 2]).rows
  {
    VersionOrder();
    var x := Shared("A", map["A" := 2]);
    assert SharedDelta().tombstones[..0] == [] && ApplyTombs(x.rows, []) == x.rows;
  }

  lemma SharedFrontier()
    ensures Max(0, Highest(map["A" := 2])) == 2
    ensures Bump(MergeFrontiers(map[], map["A" := 2]), "B", 2) == map["A" := 2, "B" := 2]
  {
    var f := map["A" := 2];
    assert "A" in f && f["A"] == 2;
  }

  /** The world after A inserted and deleted the row. */
  function WrittenWorld(): World {
    Updated(Updated(Start(), "A", Insert(Fresh("A"), "t", "r", ROW)), "A", Shared("A", map["A" := 2]))
  }

  /** And after B received A's state. */
  function SharedWorld(): World {
    Updated(WrittenWorld(), "B", Shared("B", map["A" := 2, "B" := 2]))
  }

  lemma WrittenIsReached()
    ensures Reached(WrittenWorld()) && Shared("A", map["A" := 2]) in WrittenWorld().seen
    ensures WrittenWorld().live == map["A" := Shared("A", map["A" := 2]), "B" := Fresh("B")]
  {
    hide Reached, LocalInv, Writes, Insert, Delete, Shared, Inv;
    var a1 := Insert(Fresh("A"), "t", "r", ROW);
    SharedIsWritten();
    StartIsReached();
    FreshRow();
    ReachedInv(Start());
    assert Start().live["A"] == Fresh("A") && "t" in Fresh("A").schemas;
    InsertIsWrite(Fresh("A"), "t", "r", ROW);
    ReachedWrite(Start(), "A", a1);
    DeleteIsWrite(a1, "t", "r");
    ReachedWrite(Updated(Start(), "A", a1), "A", Shared("A", map["A" := 2]));
  }

  lemma SharedIsReached()
    ensures Reached(SharedWorld())
    ensures SharedWorld().live == map["A" := Shared("A", map["A" := 2]), "B" := Shared("B", map["A" := 2, "B" := 2])]
  {
    hide Reached, Apply, IsDelta, Shared, SharedDelta, WrittenWorld;
    WrittenIsReached();
    SharedIsDelta();
    SharedIsDelivered();
    ReachedDeliver(WrittenWorld(), "B", Shared("A", map["A" := 2]), map[], SharedDelta());
  }

  lemma FreshRow()
    ensures ROW != map[] && RowKey("t", "r") !in Fresh("A").rows
    ensures RowKey("t", "r") in Insert(Fresh("A"), "t", "r", ROW).rows
  {
    assert "id" in ROW;
  }

  /** From a reachable world an accepted INSERT of a deleted id parts the peers for good, whatever sessions follow. */
  lemma ReusedIdEscapesDelete(rounds: seq<Round>)
    requires "A" in SharedWorld().live && "B" in SharedWorld().live && rounds != []
    requires Session(rounds, Insert(SharedWorld().live["A"], "t", "r", ROW), SharedWorld().live["B"])
    ensures Reached(SharedWorld()) && AllValid(SharedWorld().live["A"], "t", [ROW]) && IdOf(KEYED["t"], ROW) == "r"
    ensures var a, b := EndA(rounds[|rounds| - 1]), EndB(rounds[|rounds| - 1]);
            var k := RowKey("t", "r");
            k in a.rows && Visible(a.rows[k]) && k in b.rows && !Visible(b.rows[k])
  {
    hide Session, Reached, Apply, SharedWorld, Inv;
    SharedIsReached();
    var x, s := Shared("A", map["A" := 2]), Shared("B", map["A" := 2, "B" := 2]);
    ReachedInv(SharedWorld());
    SharedFacts();
    hide Shared, Insert, Parted, LocalInv;
    ReuseParts(x, "t", "r", ROW, s);
    PartedForever(rounds, Insert(x, "t", "r", ROW), s, RowKey("t", "r"));
    PartedSeen(EndA(rounds[|rounds| - 1]), EndB(rounds[|rounds| - 1]), RowKey("t", "r"));
  }

  lemma SharedFacts()
    ensures var x, s := Shared("A", map["A" := 2]), Shared("B", map["A" := 2, "B" := 2]);
            && ROW != map[] && "t" in x.schemas && AllValid(x, "t", [ROW]) && IdOf(KEYED["t"], ROW) == "r"
            && DeletedHere(s, RowKey("t", "r")) && !Needed(s.rows[RowKey("t", "r")], x.frontier)
  {
    assert "id" in ROW;
  }

  lemma PartedSeen(a: Replica, b: Replica, k: RowKey)
    requires Parted(a, b, k)
    ensures k in a.rows && Visible(a.rows[k]) && k in b.rows && !Visible(b.rows[k])
  {
  }
}
