/** A reachable world of converged peers that promote different losers of a deleted owner. */
module Contest {
  import opened Types
  import opened Frontiers
  import opened Merge
  import opened Uniqueness
  import opened Storage
  import opened Delta
  import opened Invariants
  import opened World
  import opened Runs
  import opened Convergence
  import opened Sql
  import opened UniqueRows
  import opened Promotion

  const SCHEMAS: Schemas :=
    map["t" := TableSchema([Column("id", false, false, true), Column("u", true, true, false)], [], [])]

  /** The claim of the one UNIQUE value all rows hold. */
  const KEY := ClaimKey("t", "u", "v")

  function Vals(id: RowId): Values { map["id" := Text(id), "u" := Text("v")] }

  const SET_U: Assignments := [("u", Text("v"))]

  function Key(id: RowId): RowKey { RowKey("t", id) }

  function Held(id: RowId, created: Version, written: Version): Row {
    Row(id, map["id" := Cell(Text(id), created), "u" := Cell(Text("v"), written)], false, None)
  }

  function P(n: nat): Version { Version(n, "P") }

  function Q(n: nat): Version { Version(n, "Q") }

  function State(p: PeerId, n: nat, f: Frontier, rows: Rows, tombs: Tombs, owner: RowId, v: Version,
    losers: seq<Loser>): Replica {
    Replica(p, n, f, rows, tombs, map[KEY := Claim(owner, v, losers)], SCHEMAS)
  }

  function Empty(p: PeerId): Replica { Replica(p, 0, map[], map[], map[], map[], SCHEMAS) }

  // P inserts a and b, then writes the value of a again

  function P1(): Replica {
    State("P", 1, map["P" := 1], map[Key("a") := Held("a", P(1), P(1))], map[], "a", P(1), [])
  }

  function P2(): Replica {
    State("P", 2, map["P" := 2], map[Key("a") := Held("a", P(1), P(1)), Key("b") := Held("b", P(2), P(2))], map[],
          "b", P(2), [Loser("a", P(1))])
  }

  function P3(): Replica {
    State("P", 3, map["P" := 3], map[Key("a") := Held("a", P(1), P(3)), Key("b") := Held("b", P(2), P(2))], map[],
          "a", P(3), [Loser("a", P(1)), Loser("b", P(2))])
  }

  // Q inserts o and writes its value twice more, which makes its claim the newest

  function QState(n: nat): Replica {
    State("Q", n, map["Q" := n], map[Key("o") := Held("o", Q(1), Q(n))], map[], "o", Q(n), [])
  }

  // both receive the other's state, then Q deletes o and P receives that

  function AllRows(): Rows {
    map[Key("a") := Held("a", P(1), P(3)), Key("b") := Held("b", P(2), P(2)), Key("o") := Held("o", Q(1), Q(3))]
  }

  const P_LOSERS := [Loser("a", P(1)), Loser("b", P(2))]
  const Q_LOSERS := [Loser("a", P(3)), Loser("b", P(2))]

  function P4(): Replica { State("P", 3, map["P" := 3, "Q" := 3], AllRows(), map[], "o", Q(3), P_LOSERS) }

  function Q4(): Replica { State("Q", 3, map["P" := 3, "Q" := 3], AllRows(), map[], "o", Q(3), Q_LOSERS) }

  function DeadRows(): Rows {
    AllRows()[Key("o") := Held("o", Q(1), Q(3)).(deleted := true, deleteVersion := Some(Q(4)))]
  }

  function Q5(): Replica {
    State("Q", 4, map["P" := 3, "Q" := 4], DeadRows(), map[Key("o") := Q(4)], "o", Q(3), Q_LOSERS)
  }

  function P5(): Replica {
    State("P", 4, map["P" := 4, "Q" := 4], DeadRows(), map[Key("o") := Q(4)], "o", Q(3), P_LOSERS)
  }

  lemma OneClaim(m: Claims, row: RowId, v: Version)
    ensures FileKeys(m, [KEY] + [], row, v) == FileClaim(m, KEY, row, v)
  {
    assert [KEY] + [] == [KEY] && [KEY][..0] == [];
    assert FileKeys(m, [], row, v) == m;
  }

  lemma InsertKeys(id: RowId)
    ensures UniqueKeys("t", SCHEMAS["t"].columns, Vals(id)) == [KEY] && CompositeKeys("t", [], Vals(id)) == []
  {
    var columns := SCHEMAS["t"].columns;
    assert columns[..1] == [columns[0]] && columns[..1][..0] == [];
    assert UniqueKeys("t", columns[..1], Vals(id)) == [];
  }

  lemma InsertFiles(x: Replica, id: RowId)
    requires x.schemas == SCHEMAS
    ensures Insert(x, "t", id, Vals(id)) ==
            Ticked(x).(rows := x.rows[Key(id) := Held(id, NextVersion(x), NextVersion(x))],
                       claims := FileClaim(x.claims, KEY, id, NextVersion(x)))
  {
    hide UniqueKeys, CompositeKeys, FileKeys, FileClaim;
    InsertKeys(id);
    OneClaim(x.claims, id, NextVersion(x));
    assert (map c | c in Vals(id) :: Cell(Vals(id)[c], NextVersion(x)))
           == Held(id, NextVersion(x), NextVersion(x)).cells;
  }

  lemma UpdateKeys()
    ensures AssignedKeys("t", SCHEMAS["t"].columns, SET_U) == [KEY]
  {
    var columns := SCHEMAS["t"].columns;
    assert columns[1..] == [columns[1]];
    assert ColumnNamed(columns[1..], "u") == Some(columns[1]);
    assert ColumnNamed(columns, "u") == Some(columns[1]);
    assert SET_U[..0] == [];
    assert AssignedKeys("t", columns, SET_U[..0]) == [];
  }

  lemma UpdateFiles(x: Replica, id: RowId, created: Version, written: Version)
    requires x.schemas == SCHEMAS && Key(id) in x.rows && x.rows[Key(id)] == Held(id, created, written)
    ensures Update(x, "t", id, SET_U) ==
            Ticked(x).(rows := x.rows[Key(id) := Held(id, created, NextVersion(x))],
                       claims := FileClaim(x.claims, KEY, id, NextVersion(x)))
  {
    hide AssignedKeys, FileKeys, FileClaim;
    var v := NextVersion(x);
    UpdateKeys();
    OneClaim(x.claims, id, v);
    var before := x.rows[Key(id)].cells;
    var cells := AssignCells(before, SET_U, v);
    assert SET_U[..0] == [] && AssignCells(before, SET_U[..0], v) == before;
    assert cells == before["u" := Cell(Text("v"), v)];
    assert before["u" := Cell(Text("v"), v)] == Held(id, created, v).cells;
    assert CompositeKeys("t", [], CellValues(cells)) == [];
  }

  lemma ClaimsOfP()
    ensures FileClaim(P1().claims, KEY, "b", P(2)) == P2().claims
    ensures FileClaim(P2().claims, KEY, "a", P(3)) == P3().claims
  {
    hide Held;
    assert [] + [Loser("a", P(1))] == [Loser("a", P(1))];
    assert [Loser("a", P(1))] + [Loser("b", P(2))] == P_LOSERS;
    assert ClaimInto(Some(Claim("a", P(1), [])), "b", P(2)) == Claim("b", P(2), [Loser("a", P(1))]);
    assert ClaimInto(Some(Claim("b", P(2), [Loser("a", P(1))])), "a", P(3)) == Claim("a", P(3), P_LOSERS);
  }

  lemma WritesOfP()
    ensures Insert(Empty("P"), "t", "a", Vals("a")) == P1()
    ensures Insert(P1(), "t", "b", Vals("b")) == P2()
    ensures Key("a") in P2().rows && Update(P2(), "t", "a", SET_U) == P3()
  {
    hide Held, Insert, Update;
    ClaimsOfP();
    InsertFiles(Empty("P"), "a");
    InsertFiles(P1(), "b");
    assert Ticked(P1()).frontier == P2().frontier && Ticked(P2()).frontier == P3().frontier;
    UpdateFiles(P2(), "a", P(1), P(1));
    assert P2().rows[Key("a") := Held("a", P(1), P(3))] == P3().rows;
  }

  lemma WriteOfQ(n: nat)
    requires n > 0
    ensures Key("o") in QState(n).rows && Update(QState(n), "t", "o", SET_U) == QState(n + 1)
  {
    hide Held, Update;
    UpdateFiles(QState(n), "o", Q(1), Q(n));
    assert Ticked(QState(n)).frontier == QState(n + 1).frontier;
    assert ClaimInto(Some(Claim("o", Q(n), [])), "o", Q(n + 1)) == Claim("o", Q(n + 1), []);
  }

  lemma WritesOfQ()
    ensures Insert(Empty("Q"), "t", "o", Vals("o")) == QState(1)
    ensures Key("o") in Q4().rows && Delete(Q4(), "t", "o") == Q5()
  {
    hide Held, Insert;
    InsertFiles(Empty("Q"), "o");
    assert Ticked(Empty("Q")).frontier == QState(1).frontier;
    assert Ticked(Q4()).frontier == Q5().frontier;
  }

  // ------------------------------------------------------- the deliveries

  function OneClaimDelta(p: PeerId, rows: seq<RowDelta>, tombs: seq<Tombstone>, c: Claim, f: Frontier): SyncDelta {
    SyncDelta(p, rows, tombs, [ClaimRecord(KEY, c)], f)
  }

  function DeltaP(): SyncDelta {
    OneClaimDelta("P", [RowDelta("t", Held("a", P(1), P(3))), RowDelta("t", Held("b", P(2), P(2)))], [],
          Claim("a", P(3), P_LOSERS), map["P" := 3])
  }

  function DeltaQ(): SyncDelta {
    OneClaimDelta("Q", [RowDelta("t", Held("o", Q(1), Q(3)))], [], Claim("o", Q(3), []), map["Q" := 3])
  }

  function DeltaDead(): SyncDelta {
    OneClaimDelta("Q", [RowDelta("t", DeadRows()[Key("o")])], [Tombstone(Key("o"), Q(4))], Claim("o", Q(3), Q_LOSERS),
        map["P" := 3, "Q" := 4])
  }

  lemma HeldNeeded(id: RowId, created: Version, written: Version, f: Frontier)
    ensures Needed(Held(id, created, written), f) <==> !Covers(f, created) || !Covers(f, written)
  {
    var r := Held(id, created, written);
    assert "id" in r.cells && "u" in r.cells;
  }

  lemma DeltaOfP()
    ensures IsDelta(P3(), map["Q" := 3], DeltaP())
  {
    hide Needed, Held;
    var f := map["Q" := 3];
    HeldNeeded("a", P(1), P(3), f);
    HeldNeeded("b", P(2), P(2), f);
    HeldIds();
    assert RowsDelta(P3().rows, f, DeltaP().rows, P3().rows.Keys);
    assert Enumerates(DeltaP().claims, P3().claims);
  }

  lemma DeltaOfQ()
    ensures IsDelta(QState(3), map["P" := 3], DeltaQ())
  {
    hide Needed, Held;
    var f := map["P" := 3];
    HeldNeeded("o", Q(1), Q(3), f);
    HeldIds();
    assert RowsDelta(QState(3).rows, f, DeltaQ().rows, QState(3).rows.Keys);
    assert Enumerates(DeltaQ().claims, QState(3).claims);
  }

  lemma HeldIds()
    ensures forall id, v, u {:trigger Held(id, v, u)} ::
            Held(id, v, u).id == id && Visible(Held(id, v, u)) && Held(id, v, u).deleteVersion == None
  {
  }

  lemma DeltaOfDead()
    ensures IsDelta(Q5(), map["P" := 3, "Q" := 3], DeltaDead())
  {
    hide RowsDelta, DeadRows;
    RowsOfDead();
    assert TombsDelta(Q5().tombs, map["P" := 3, "Q" := 3], DeltaDead().tombstones, Q5().tombs.Keys);
    assert Enumerates(DeltaDead().claims, Q5().claims);
  }

  lemma RowsOfDead()
    ensures RowsDelta(DeadRows(), map["P" := 3, "Q" := 3], DeltaDead().rows, DeadRows().Keys)
  {
    hide Needed, Held;
    HeldNeeded("a", P(1), P(3), map["P" := 3, "Q" := 3]);
    HeldNeeded("b", P(2), P(2), map["P" := 3, "Q" := 3]);
    DeadNeeded();
    HeldIds();
  }

  lemma DeadNeeded()
    ensures Needed(DeadRows()[Key("o")], map["P" := 3, "Q" := 3])
  {
    assert !Covers(map["P" := 3, "Q" := 3], Q(4));
  }

  lemma RebuildOne(c: Claim)
    ensures Rebuild([ClaimRecord(KEY, c)]) == FileLosers(FileClaim(map[], KEY, c.owner, c.version), KEY, c.losers)
  {
    assert [ClaimRecord(KEY, c)][..0] == [];
    assert Rebuild([]) == map[];
  }

  lemma TwoLosers(m: Claims, l1: Loser, l2: Loser)
    ensures FileLosers(m, KEY, [l1, l2]) == FileClaim(FileClaim(m, KEY, l1.row, l1.version), KEY, l2.row, l2.version)
  {
    assert [l1, l2][..1] == [l1] && [l1][..0] == [];
    assert FileLosers(m, KEY, []) == m;
    assert FileLosers(m, KEY, [l1]) == FileClaim(m, KEY, l1.row, l1.version);
  }

  /** P's registry as Q rebuilds it: the old entry of the owner a is gone. */
  lemma RebuiltP()
    ensures Rebuild([ClaimRecord(KEY, Claim("a", P(3), P_LOSERS))]) == map[KEY := Claim("a", P(3), [Loser("b", P(2))])]
  {
    RebuildOne(Claim("a", P(3), P_LOSERS));
    TwoLosers(map[KEY := Claim("a", P(3), [])], Loser("a", P(1)), Loser("b", P(2)));
    assert [] + [Loser("b", P(2))] == [Loser("b", P(2))];
  }

  lemma RebuiltDead()
    ensures Rebuild([ClaimRecord(KEY, Claim("o", Q(3), Q_LOSERS))]) == map[KEY := Claim("o", Q(3), Q_LOSERS)]
  {
    RebuildOne(Claim("o", Q(3), Q_LOSERS));
    TwoLosers(map[KEY := Claim("o", Q(3), [])], Loser("a", P(3)), Loser("b", P(2)));
    PBeforeQ();
    assert [] + [Loser("a", P(3))] == [Loser("a", P(3))];
    assert [Loser("a", P(3))] + [Loser("b", P(2))] == Q_LOSERS;
  }

  lemma PBeforeQ()
    ensures Newer(Q(3), P(3)) && !Newer(P(3), Q(3)) && !Newer(P(2), Q(3))
  {
    assert StrLess("P", "Q") && !StrLess("Q", "P");
  }

  /** Q keeps the newest claim of a as its loser entry. */
  lemma MergedAtQ()
    ensures MergeClaim(Claim("o", Q(3), []), Claim("a", P(3), [Loser("b", P(2))])) == Claim("o", Q(3), Q_LOSERS)
  {
    PBeforeQ();
    assert [] + [Loser("a", P(3))] == [Loser("a", P(3))];
    assert [Loser("b", P(2))][..0] == [];
    assert AddLosers("o", [Loser("a", P(3))], []) == [Loser("a", P(3))];
    assert AddLosers("o", [Loser("a", P(3))], [Loser("b", P(2))]) == [Loser("a", P(3))] + [Loser("b", P(2))];
  }

  /** P's deduplication keeps the oldest claim of a. */
  lemma MergedAtP()
    ensures MergeClaim(Claim("a", P(3), P_LOSERS), Claim("o", Q(3), [])) == Claim("o", Q(3), P_LOSERS)
  {
    PBeforeQ();
    var a1, b2, a3 := Loser("a", P(1)), Loser("b", P(2)), Loser("a", P(3));
    var all := P_LOSERS + [] + [a3];
    assert all == [a1, b2, a3] && all[..2] == [a1, b2] && [a1, b2][..1] == [a1] && [a1][..0] == [];
    assert SortByRow([a1]) == [a1];
    assert StrLess("a", "b") && !StrLess("b", "a") && !StrLess("a", "a");
    assert SortByRow([a1, b2]) == [a1, b2] by {
      assert [a1][1..] == [] && InsertByRow([], b2) == [b2];
      assert InsertByRow([a1], b2) == [a1] + [b2];
    }
    assert SortByRow(all) == [a1, a3, b2] by {
      assert [a1, b2][1..] == [b2];
    }
    assert [a1] + [a1, a3, b2][2..] == [a1, b2] && [a1, b2][1..] == [b2];
    assert DedupRuns([a1, a3, b2]) == [a1, b2];
    WithoutOther([a1, b2]);
  }

  lemma WithoutOther(losers: seq<Loser>)
    requires |losers| == 2 && losers[0].row != "o" && losers[1].row != "o"
    ensures Without(losers, "o") == losers
  {
    assert losers[..1] == [losers[0]] && [losers[0]][..0] == [] && losers == [losers[0]] + [losers[1]];
    assert Without([losers[0]], "o") == [losers[0]];
  }

  lemma MergedDead()
    ensures MergeClaim(Claim("o", Q(3), P_LOSERS), Claim("o", Q(3), Q_LOSERS)) == Claim("o", Q(3), P_LOSERS)
  {
    VersionOrder();
    assert P_LOSERS[0] in P_LOSERS && P_LOSERS[1] in P_LOSERS;
    AddLosersNothing("o", P_LOSERS, Q_LOSERS);
  }

  lemma ApplyOne(rows: Rows, r: RowDelta)
    ensures ApplyRows(rows, [r]) == ApplyRow(rows, r)
  {
    assert [r][..0] == [];
    assert ApplyRows(rows, []) == rows;
  }

  lemma FirstAtQ()
    ensures Apply(QState(3), DeltaP()) == Q4()
  {
    hide Rebuild, MergeClaims, AllRows, ApplyRows, MergeFrontiers, Bump, Highest, Held;
    ClaimsAtQ();
    RowsAtQ();
    FrontierAt("Q", "P");
  }

  lemma ClaimsAtQ()
    ensures MergeClaims(QState(3).claims, Rebuild(DeltaP().claims)) == Q4().claims
  {
    hide Held, Rebuild, MergeClaim;
    RebuiltP();
    MergedAtQ();
  }

  /** p and q at clock 3 learn of each other. */
  lemma FrontierAt(p: PeerId, q: PeerId)
    requires p != q
    ensures Max(3, Highest(map[q := 3])) == 3
    ensures Bump(MergeFrontiers(map[p := 3], map[q := 3]), p, 3) == map[p := 3, q := 3]
  {
    var f := map[q := 3];
    assert q in f && f[q] == 3;
  }

  lemma RowsAtQ()
    ensures ApplyRows(QState(3).rows, DeltaP().rows) == AllRows()
  {
    var r1, r2 := RowDelta("t", Held("a", P(1), P(3))), RowDelta("t", Held("b", P(2), P(2)));
    assert [r1, r2][..1] == [r1];
    ApplyOne(QState(3).rows, r1);
  }

  lemma FirstAtP()
    ensures Apply(P3(), DeltaQ()) == P4()
  {
    hide Rebuild, MergeClaims, AllRows, ApplyRows, MergeFrontiers, Bump, Highest, Held;
    ClaimsAtP();
    RowsAtP();
    FrontierAt("P", "Q");
  }

  lemma ClaimsAtP()
    ensures MergeClaims(P3().claims, Rebuild(DeltaQ().claims)) == P4().claims
  {
    hide Held, MergeClaim;
    RebuildOne(Claim("o", Q(3), []));
    MergedAtP();
  }

  lemma RowsAtP()
    ensures ApplyRows(P3().rows, DeltaQ().rows) == AllRows()
  {
    ApplyOne(P3().rows, DeltaQ().rows[0]);
  }

  lemma DeadAtP()
    ensures Apply(P4(), DeltaDead()) == P5()
  {
    hide Rebuild, MergeClaims, DeadRows, AllRows, ApplyRows, ApplyTombs, MergeTombs, IncomingTombs, MergeFrontiers,
        Bump, Highest;
    DeadClaimsAtP();
    DeadRowsAtP();
    DeadFrontierAtP();
  }

  lemma DeadClaimsAtP()
    ensures MergeClaims(P4().claims, Rebuild(DeltaDead().claims)) == P5().claims
  {
    hide Rebuild, MergeClaim, Held;
    RebuiltDead();
    MergedDead();
  }

  lemma DeadFrontierAtP()
    ensures Max(P4().clock, Highest(DeltaDead().frontier)) == 4
    ensures Bump(MergeFrontiers(P4().frontier, DeltaDead().frontier), "P", 4) == P5().frontier
  {
    hide Held;
    var f := DeltaDead().frontier;
    assert "Q" in f && f["Q"] == 4 && f["P"] == 3;
  }

  lemma DeadRowsAtP()
    ensures ApplyTombs(ApplyRows(P4().rows, DeltaDead().rows), DeltaDead().tombstones) == DeadRows()
    ensures MergeTombs(P4().tombs, IncomingTombs(DeltaDead().tombstones)) == P5().tombs
  {
    VersionOrder();
    var d := DeltaDead();
    ApplyOne(P4().rows, d.rows[0]);
    var dead := DeadRows()[Key("o")];
    assert MergeCells(Held("o", Q(1), Q(3)).cells, dead.cells) == dead.cells;
    assert ApplyRows(P4().rows, d.rows) == DeadRows();
    assert d.tombstones[..0] == [];
    assert ApplyTombs(DeadRows(), d.tombstones[..0]) == DeadRows() && IncomingTombs(d.tombstones[..0]) == map[];
  }

  // ------------------------------------------------------- the run

  function Start(): World {
    var live := map["P" := Empty("P"), "Q" := Empty("Q")];
    World(live, live.Values, {})
  }

  lemma SchemasWellFormed()
    ensures WellFormedSchemas(SCHEMAS)
  {
    var columns := SCHEMAS["t"].columns;
    assert columns[0].name != columns[1].name;
  }

  lemma StartIsReached()
    ensures Reached(Start())
  {
    hide WellFormedSchemas, Reached;
    SchemasWellFormed();
    assert Init(Start());
    ReachedStart(Start());
  }

  /** The world after P's and Q's own writes. */
  function Written(): World {
    var afterP := Updated(Updated(Updated(Start(), "P", P1()), "P", P2()), "P", P3());
    Updated(Updated(Updated(afterP, "Q", QState(1)), "Q", QState(2)), "Q", QState(3))
  }

  lemma WriteReached(w: World, p: PeerId, x: Replica, id: RowId, y: Replica)
    requires Reached(w) && w.gone == {} && p in w.live && w.live[p] == x && x.schemas == SCHEMAS
    requires (Key(id) !in x.rows && y == Insert(x, "t", id, Vals(id)))
             || (Key(id) in x.rows && (y == Update(x, "t", id, SET_U) || y == Delete(x, "t", id)))
    ensures Reached(Updated(w, p, y))
  {
    hide Reached, LocalInv, Writes, Insert, Update, Delete, Inv;
    ReachedInv(w);
    assert "id" in Vals(id);
    if Key(id) !in x.rows {
      InsertIsWrite(x, "t", id, Vals(id));
    } else if y == Update(x, "t", id, SET_U) {
      UpdateIsWrite(x, "t", id, SET_U);
    } else {
      DeleteIsWrite(x, "t", id);
    }
    ReachedWrite(w, p, y);
  }

  lemma WrittenIsReached()
    ensures Reached(Written())
  {
    hide Reached, Insert, Update, State;
    StartIsReached();
    WritesOfP();
    WritesOfQ();
    WriteOfQ(1);
    WriteOfQ(2);
    FreshRows();
    var w1 := Updated(Start(), "P", P1());
    var w2 := Updated(w1, "P", P2());
    var w3 := Updated(w2, "P", P3());
    var w4 := Updated(w3, "Q", QState(1));
    var w5 := Updated(w4, "Q", QState(2));
    WriteReached(Start(), "P", Empty("P"), "a", P1());
    WriteReached(w1, "P", P1(), "b", P2());
    WriteReached(w2, "P", P2(), "a", P3());
    WriteReached(w3, "Q", Empty("Q"), "o", QState(1));
    WriteReached(w4, "Q", QState(1), "o", QState(2));
    WriteReached(w5, "Q", QState(2), "o", QState(3));
  }

  lemma FreshRows()
    ensures Key("b") !in P1().rows
    ensures P1().schemas == P2().schemas == QState(1).schemas == QState(2).schemas == Q4().schemas == SCHEMAS
  {
  }

  /** Both receive the other's state. */
  function AfterExchange(): World {
    Updated(Updated(Written(), "Q", Q4()), "P", P4())
  }

  /** Q deletes o and P receives that. */
  function Final(): World {
    Updated(Updated(AfterExchange(), "Q", Q5()), "P", P5())
  }

  lemma WrittenStates()
    ensures Written().live == map["P" := P3(), "Q" := QState(3)] && Written().gone == {}
    ensures P3() in Written().seen && QState(3) in Written().seen
  {
    hide State;
  }

  lemma ReceivedIsReached(w: World, p: PeerId, s: Replica, f: Frontier, d: SyncDelta, y: Replica)
    requires Reached(w) && p in w.live && s in w.seen && IsDelta(s, f, d) && w.live[p].frontier == f
    requires Apply(w.live[p], d) == y
    ensures Reached(Updated(w, p, y))
  {
    hide Reached, IsDelta, Apply;
    assert Dominates(f, f);
    ReachedDeliver(w, p, s, f, d);
  }

  lemma ExchangeIsReached()
    ensures Reached(AfterExchange()) && AfterExchange().live == map["P" := P4(), "Q" := Q4()]
    ensures AfterExchange().gone == {}
  {
    hide Reached, IsDelta, Apply, DeltaP, DeltaQ, Written, P3, P4, Q4, QState;
    WrittenIsReached();
    WrittenStates();
    FrontiersAre();
    DeltaOfP();
    FirstAtQ();
    ReceivedIsReached(Written(), "Q", P3(), map["Q" := 3], DeltaP(), Q4());
    DeltaOfQ();
    FirstAtP();
    ReceivedIsReached(Updated(Written(), "Q", Q4()), "P", QState(3), map["P" := 3], DeltaQ(), P4());
  }

  lemma DeletedIsReached()
    ensures var w := Updated(AfterExchange(), "Q", Q5());
            Reached(w) && w.live == map["P" := P4(), "Q" := Q5()] && Q5() in w.seen
  {
    hide Reached, Delete, AfterExchange, P4, Q4, Q5, Key;
    ExchangeIsReached();
    FreshRows();
    WritesOfQ();
    WriteReached(AfterExchange(), "Q", Q4(), "o", Q5());
  }

  lemma FinalIsReached()
    ensures Reached(Final()) && Final().live == map["P" := P5(), "Q" := Q5()]
  {
    hide Reached, IsDelta, Apply, DeltaDead, AfterExchange, P4, P5, Q5;
    DeletedIsReached();
    FrontiersAre();
    DeltaOfDead();
    DeadAtP();
    ReceivedIsReached(Updated(AfterExchange(), "Q", Q5()), "P", Q5(), map["P" := 3, "Q" := 3], DeltaDead(), P5());
  }

  lemma FrontiersAre()
    ensures QState(3).frontier == map["Q" := 3] && P3().frontier == map["P" := 3]
    ensures P4().frontier == map["P" := 3, "Q" := 3]
  {
    hide Held;
  }

  /** Rows, tombstones, owners and claimants agree, yet P shows b where Q shows a. */
  lemma ConvergedReadsDiffer()
    ensures Reached(Final()) && Final().live == map["P" := P5(), "Q" := Q5()]
    ensures SameState(P5(), Q5()) && SameClaimants(P5(), Q5()) && P5().schemas == Q5().schemas
    ensures Shown(P5(), Key("b")) && !Shown(P5(), Key("a"))
    ensures Shown(Q5(), Key("a")) && !Shown(Q5(), Key("b"))
  {
    hide Reached, Final;
    FinalIsReached();
    LosersClaim();
    Reads(P5(), P_LOSERS);
    Reads(Q5(), Q_LOSERS);
    FirstEntries();
  }

  lemma LosersClaim()
    ensures SameClaimants(P5(), Q5())
  {
    hide Held;
    assert forall row :: HasRow(P_LOSERS, row) <==> row == P_LOSERS[0].row || row == P_LOSERS[1].row;
    assert forall row :: HasRow(Q_LOSERS, row) <==> row == Q_LOSERS[0].row || row == Q_LOSERS[1].row;
  }

  lemma FirstEntries()
    ensures FirstLoser(P_LOSERS, "a") == Some(P(1)) && FirstLoser(P_LOSERS, "b") == Some(P(2))
    ensures FirstLoser(Q_LOSERS, "a") == Some(P(3)) && FirstLoser(Q_LOSERS, "b") == Some(P(2))
  {
    assert P_LOSERS[1..] == [Loser("b", P(2))] && Q_LOSERS[1..] == [Loser("b", P(2))];
    assert FirstLoser([Loser("b", P(2))], "b") == Some(P(2));
  }

  /** With o dead, each of a and b wins exactly when its first entry is not older than the other's. */
  lemma TwoLosersWin(claims: Claims, rows: Rows, v: Version, losers: seq<Loser>)
    requires claims == map[KEY := Claim("o", v, losers)]
    requires Live(rows, "t", "a") && Live(rows, "t", "b") && !Live(rows, "t", "o")
    requires |losers| == 2 && losers[0].row == "a" && losers[1].row == "b"
    ensures Winner(claims, rows, KEY, "a") <==> !Newer(losers[1].version, losers[0].version)
    ensures Winner(claims, rows, KEY, "b") <==> !Newer(losers[0].version, losers[1].version)
  {
    hide Newer, Live;
    assert losers[1..] == [losers[1]] && FirstLoser(losers[1..], "b") == Some(losers[1].version);
    assert FirstLoser(losers, "a") == Some(losers[0].version) && FirstLoser(losers, "b") == Some(losers[1].version);
    assert losers[0] in losers && losers[1] in losers;
  }

  lemma Reads(x: Replica, losers: seq<Loser>)
    requires (x == P5() && losers == P_LOSERS) || (x == Q5() && losers == Q_LOSERS)
    ensures Shown(x, Key("a")) <==> !Newer(losers[1].version, losers[0].version)
    ensures Shown(x, Key("b")) <==> !Newer(losers[0].version, losers[1].version)
  {
    hide Newer, Winner;
    TwoLosersWin(x.claims, x.rows, Q(3), losers);
    ShownIsWinner(x, "a", P(1), P(3));
    ShownIsWinner(x, "b", P(2), P(2));
  }

  lemma ShownIsWinner(x: Replica, id: RowId, created: Version, written: Version)
    requires x.schemas == SCHEMAS && Key(id) in x.rows && x.rows[Key(id)] == Held(id, created, written)
    ensures Shown(x, Key(id)) <==> Winner(x.claims, x.rows, KEY, id)
  {
    hide Winner;
    var columns := SCHEMAS["t"].columns;
    assert columns[1] in columns;
  }
}
