/** Who may show a UNIQUE value: the effective winner, the filter of reads, and the enforcement that clears losers. */
module UniqueRows {
  import opened Types
  import opened Frontiers
  import opened Merge
  import opened Uniqueness
  import opened Storage
  import opened Slots
  import opened Invariants
  import opened Sql
  import FK = ForeignKeys

  // ------------------------------------------------------- winners

  predicate Live(rows: Rows, t: TableId, row: RowId) {
    RowKey(t, row) in rows && Visible(rows[RowKey(t, row)])
  }

  /** No claim, or the owner, or the newest live loser of an owner that is deleted or absent. */
  predicate Winner(claims: Claims, rows: Rows, key: ClaimKey, row: RowId) {
    if key !in claims || claims[key].owner == row then true
    else if Live(rows, key.table, claims[key].owner) then false
    else
      match FirstLoser(claims[key].losers, row)
      case None => false
      case Some(mine) =>
        !exists l | l in claims[key].losers :: l.row != row && Live(rows, key.table, l.row) && Newer(l.version, mine)
  }

  /** A claimed value has at most one live winner. */
  lemma OneWinner(claims: Claims, rows: Rows, key: ClaimKey, r1: RowId, r2: RowId)
    requires ClaimsAgree(claims, claims) && key in claims
    requires Live(rows, key.table, r1) && Winner(claims, rows, key, r1)
    requires Live(rows, key.table, r2) && Winner(claims, rows, key, r2)
    ensures r1 == r2
  {
    var c := claims[key];
    if c.owner != r1 && c.owner != r2 {
      var v1 := FirstLoser(c.losers, r1).value;
      var v2 := FirstLoser(c.losers, r2).value;
      VersionOrder();
      assert Files(c, r1, v1) && Files(c, r2, v2);
    }
  }

  // ------------------------------------------------------- reads

  /** The rows a read returns: visible, and the winner of each non-NULL UNIQUE value and complete composite value. */
  ghost predicate Shown(x: Replica, k: RowKey) {
    && k in x.rows && Visible(x.rows[k])
    && (k.table in x.schemas ==>
          && WinsColumns(x.claims, x.rows, k, x.schemas[k.table].columns)
          && WinsComposites(x.claims, x.rows, k, x.schemas[k.table].composites))
  }

  ghost predicate WinsColumns(claims: Claims, rows: Rows, k: RowKey, columns: seq<Column>)
    requires k in rows
  {
    forall col | col in columns && col.unique && !col.primaryKey && col.name in rows[k].cells
        && rows[k].cells[col.name].value != Null ::
      Winner(claims, rows, ClaimFor(k, col.name, rows[k].cells[col.name].value), k.row)
  }

  ghost predicate WinsComposites(claims: Claims, rows: Rows, k: RowKey, composites: seq<seq<ColumnId>>)
    requires k in rows
  {
    forall u | u in composites && CompositeValue(u, CellValues(rows[k].cells)).Some? ::
      Winner(claims, rows, ClaimKey(k.table, JoinParts(u),
          JoinParts(CompositeValue(u, CellValues(rows[k].cells)).value)), k.row)
  }

  /** The loser filter of reads. */
  method PassesFilter(claims: Claims, rows: Rows, k: RowKey, schema: TableSchema) returns (pass: bool)
    requires k in rows
    ensures pass <==> WinsColumns(claims, rows, k, schema.columns) && WinsComposites(claims, rows, k, schema.composites)
  {
    var row := rows[k];
    for i := 0 to |schema.columns|
      invariant WinsColumns(claims, rows, k, schema.columns[..i])
    {
      var col := schema.columns[i];
      assert schema.columns[..i + 1] == schema.columns[..i] + [col];
      if col.unique && !col.primaryKey && col.name in row.cells && row.cells[col.name].value != Null {
        if !Winner(claims, rows, ClaimFor(k, col.name, row.cells[col.name].value), k.row) {
          return false;
        }
      }
    }
    assert schema.columns[..|schema.columns|] == schema.columns;
    for i := 0 to |schema.composites|
      invariant WinsComposites(claims, rows, k, schema.composites[..i])
    {
      var u := schema.composites[i];
      assert schema.composites[..i + 1] == schema.composites[..i] + [u];
      var value := CompositeValue(u, CellValues(row.cells));
      if value.Some? {
        if !Winner(claims, rows, ClaimKey(k.table, JoinParts(u), JoinParts(value.value)), k.row) {
          return false;
        }
      }
    }
    assert schema.composites[..|schema.composites|] == schema.composites;
    pass := true;
  }

  /** SELECT: the shown rows of one table that satisfy the condition. */
  method ExecSelect(r: ReplicaState, t: TableId, where: Row -> bool) returns (out: set<RowKey>, error: Option<SqlError>)
    requires r.Valid()
    ensures error == if t in r.schemas then None else Some(TableNotFound)
    ensures forall k :: k in out <==> t in r.schemas && k.table == t && Shown(r.View(), k) && where(r.storage.rows[k])
  {
    out := {};
    if t !in r.schemas {
      return out, Some(TableNotFound);
    }
    error := None;
    var todo := r.storage.KeysOf(t);
    while todo != {}
      invariant todo <= r.storage.KeysOf(t)
      invariant forall k :: k in out <==>
                k in r.storage.KeysOf(t) - todo && Shown(r.View(), k) && where(r.storage.rows[k])
    {
      var k :| k in todo;
      todo := todo - {k};
      if Visible(r.storage.rows[k]) && where(r.storage.rows[k]) {
        var pass := PassesFilter(r.uniqueness.claims, r.storage.rows, k, r.schemas[t]);
        if pass {
          out := out + {k};
        }
      }
    }
  }

  /** The snapshot: the values of the shown rows of every table, tables without a schema unfiltered. */
  method SnapshotState(r: ReplicaState) returns (out: map<TableId, map<RowId, Values>>)
    requires r.Valid()
    ensures out.Keys == r.storage.names
    ensures forall k | Shown(r.View(), k) :: k.table in out
    ensures forall t: TableId, id: RowId | t in out :: id in out[t] <==> Shown(r.View(), RowKey(t, id))
    ensures forall t: TableId, id: RowId | t in out && id in out[t] ::
              RowKey(t, id) in r.storage.rows && out[t][id] == CellValues(r.storage.rows[RowKey(t, id)].cells)
  {
    hide Shown;
    out := map[];
    var tables := r.storage.names;
    while tables != {}
      invariant tables <= r.storage.names && out.Keys == r.storage.names - tables
      invariant forall t: TableId, id: RowId | t in out :: id in out[t] <==> Shown(r.View(), RowKey(t, id))
      invariant forall t: TableId, id: RowId | t in out && id in out[t] ::
                  RowKey(t, id) in r.storage.rows && out[t][id] == CellValues(r.storage.rows[RowKey(t, id)].cells)
    {
      var t :| t in tables;
      tables := tables - {t};
      var keys := ShownKeys(r, t);
      out := out[t := map k | k in keys :: k.row := CellValues(r.storage.rows[k].cells)];
    }
    forall k | Shown(r.View(), k) ensures k.table in out {
      ShownStored(r.View(), k);
    }
  }

  method ShownKeys(r: ReplicaState, t: TableId) returns (keys: set<RowKey>)
    requires r.Valid()
    ensures forall k :: k in keys <==> k.table == t && Shown(r.View(), k)
    ensures forall k | k in keys :: k in r.storage.rows && k == RowKey(t, k.row)
  {
    if t in r.schemas {
      var error;
      keys, error := ExecSelect(r, t, row => true);
    } else {
      keys := set k | k in r.storage.KeysOf(t) && Visible(r.storage.rows[k]);
    }
  }

  lemma ShownStored(x: Replica, k: RowKey)
    requires Shown(x, k)
    ensures k in x.rows
  {
  }

  /** No two shown rows of a table share the text of a single-column UNIQUE value. */
  lemma ShownAreUnique(x: Replica, j: RowKey, k: RowKey, c: ColumnId)
    requires LocalInv(x) && Shown(x, j) && Shown(x, k) && j.table == k.table && UniqueColumn(x.schemas, k.table, c)
    requires c in x.rows[j].cells && x.rows[j].cells[c].value != Null
    requires c in x.rows[k].cells && x.rows[k].cells[c].value != Null
    requires Display(x.rows[j].cells[c].value) == Display(x.rows[k].cells[c].value)
    ensures j == k
  {
    assert Claimant(x.claims, ClaimFor(k, c, x.rows[k].cells[c].value), k.row);
    OneWinner(x.claims, x.rows, ClaimFor(k, c, x.rows[k].cells[c].value), j.row, k.row);
  }

  /** A UNIQUE column compares blobs by their length: reads never show two rows with blobs of one length. */
  lemma BlobsOfOneLength(x: Replica, j: RowKey, k: RowKey, c: ColumnId)
    requires LocalInv(x) && Shown(x, j) && Shown(x, k) && j.table == k.table && UniqueColumn(x.schemas, k.table, c)
    requires c in x.rows[j].cells && x.rows[j].cells[c].value.Blob?
    requires c in x.rows[k].cells && x.rows[k].cells[c].value.Blob?
    requires |x.rows[j].cells[c].value.b| == |x.rows[k].cells[c].value.b|
    ensures j == k
  {
    SharedTexts(x.rows[j].cells[c].value.b, x.rows[k].cells[c].value.b);
    hide LocalInv, Shown, Display;
    ShownAreUnique(x, j, k, c);
  }

  /** What a read shows of the table's composites: no complete value whose claim has another live owner. */
  lemma NoLiveRival(x: Replica, k: RowKey, u: seq<ColumnId>, parts: seq<string>)
    requires Shown(x, k) && k.table in x.schemas && u in x.schemas[k.table].composites
    requires HoldsTuple(CellValues(x.rows[k].cells), u, parts)
    ensures var key := ClaimKey(k.table, JoinParts(u), JoinParts(parts));
            key in x.claims && x.claims[key].owner != k.row ==>
              var rival := RowKey(k.table, x.claims[key].owner); rival !in x.rows || x.rows[rival].deleted
  {
    CompositeValueIs(u, CellValues(x.rows[k].cells), parts);
  }

  /** Two shown rows that both claimed one composite value are the same row. */
  lemma ShownTuplesAreUnique(x: Replica, j: RowKey, k: RowKey, u: seq<ColumnId>, parts: seq<string>)
    requires LocalInv(x) && Shown(x, j) && Shown(x, k) && j.table == k.table
    requires k.table in x.schemas && u in x.schemas[k.table].composites
    requires HoldsTuple(CellValues(x.rows[j].cells), u, parts) && HoldsTuple(CellValues(x.rows[k].cells), u, parts)
    requires var key := ClaimKey(k.table, JoinParts(u), JoinParts(parts));
             Claimant(x.claims, key, j.row) && Claimant(x.claims, key, k.row)
    ensures j == k
  {
    CompositeValueIs(u, CellValues(x.rows[j].cells), parts);
    CompositeValueIs(u, CellValues(x.rows[k].cells), parts);
    hide Winner, Live;
    OneWinner(x.claims, x.rows, ClaimKey(k.table, JoinParts(u), JoinParts(parts)), j.row, k.row);
  }

  /** A value nobody claimed, or that the row owns, never hides the row. */
  ghost predicate Uncontested(claims: Claims, key: ClaimKey, row: RowId) {
    key in claims ==> claims[key].owner == row
  }

  /** A visible row that owns each of its UNIQUE and complete composite values, or holds one unclaimed, is shown. */
  lemma OwnersAreShown(x: Replica, k: RowKey)
    requires k in x.rows && Visible(x.rows[k])
    requires k.table in x.schemas ==>
               forall col | col in x.schemas[k.table].columns && col.unique && !col.primaryKey
                   && col.name in x.rows[k].cells && x.rows[k].cells[col.name].value != Null ::
                 Uncontested(x.claims, ClaimFor(k, col.name, x.rows[k].cells[col.name].value), k.row)
    requires k.table in x.schemas ==>
               forall u, parts | u in x.schemas[k.table].composites
                   && HoldsTuple(CellValues(x.rows[k].cells), u, parts) ::
                 Uncontested(x.claims, ClaimKey(k.table, JoinParts(u), JoinParts(parts)), k.row)
    ensures Shown(x, k)
  {
    if k.table in x.schemas {
      var vals := CellValues(x.rows[k].cells);
      forall u | u in x.schemas[k.table].composites && CompositeValue(u, vals).Some?
        ensures Winner(x.claims, x.rows, ClaimKey(k.table, JoinParts(u), JoinParts(CompositeValue(u, vals).value)),
                k.row)
      {
        CompositeValueIs(u, vals, CompositeValue(u, vals).value);
        assert HoldsTuple(vals, u, CompositeValue(u, vals).value);
      }
    }
  }

  // ------------------------------------------------------- enforcement

  /** A live loser that is not the effective winner of a dead owner. */
  predicate Displaced(claims: Claims, rows: Rows, key: ClaimKey, row: RowId) {
    && key in claims && HasRow(claims[key].losers, row) && Live(rows, key.table, row)
    && (Live(rows, key.table, claims[key].owner) || !Winner(claims, rows, key, row))
  }

  /** The cell is not NULL although its row is displaced for a claim on that column. */
  ghost predicate UniqHit(x: Replica, k: RowKey, c: ColumnId) {
    && k in x.rows && c in x.rows[k].cells && x.rows[k].cells[c].value != Null
    && exists key :: DisplacedOn(x.claims, x.rows, key, k, c)
  }

  predicate DisplacedOn(claims: Claims, rows: Rows, key: ClaimKey, k: RowKey, c: ColumnId) {
    key.table == k.table && c in SplitParts(key.column) && Displaced(claims, rows, key, k.row)
  }

  /** Every live loser is the effective winner of a dead owner or has all columns of the claim NULL. */
  ghost predicate Settled(x: Replica) {
    forall k, c :: !UniqHit(x, k, c)
  }

  /** Row b is row a with some displaced cells set to NULL under versions ticked between x and y. */
  ghost predicate UniqRowEffect(x: Replica, y: Replica, k: RowKey)
    requires k in x.rows && k in y.rows
  {
    var a, b := x.rows[k], y.rows[k];
    && b == a.(cells := b.cells) && b.cells.Keys == a.cells.Keys
    && forall c | c in a.cells ::
         b.cells[c] == a.cells[c] || (UniqHit(x, k, c) && b.cells[c].value == Null && Issued(x, y, b.cells[c].version))
  }

  ghost predicate UniqEffect(x: Replica, y: Replica) {
    && WriteFrame(x, y) && y.claims == x.claims && y.tombs == x.tombs && y.rows.Keys == x.rows.Keys
    && forall k | k in x.rows :: UniqRowEffect(x, y, k)
  }

  /** Enforcement clears exactly the displaced values, leaves none, and does nothing the second time. */
  ghost predicate UniqEnforced(x: Replica, y: Replica) {
    && UniqEffect(x, y) && Settled(y)
    && (forall k, c {:trigger UniqHit(x, k, c)} | k in x.rows && c in x.rows[k].cells ::
          y.rows[k].cells[c] != x.rows[k].cells[c] <==> UniqHit(x, k, c))
    && (Settled(x) ==> y == x)
  }

  // ------------------------------------------------------- the loops

  function Cleared(cells: map<ColumnId, Cell>, columns: seq<ColumnId>, v: Version): map<ColumnId, Cell> {
    map c | c in cells :: if c in columns && cells[c].value != Null then Cell(Null, v) else cells[c]
  }

  method ClearColumns(cells: map<ColumnId, Cell>, columns: seq<ColumnId>, v: Version) returns (out: map<ColumnId, Cell>)
    ensures out == Cleared(cells, columns, v)
  {
    out := cells;
    for i := 0 to |columns|
      invariant out == Cleared(cells, columns[..i], v)
    {
      assert columns[..i + 1] == columns[..i] + [columns[i]];
      var c := columns[i];
      if c in out && out[c].value != Null {
        out := out[c := Cell(Null, v)];
      }
    }
    assert columns[..|columns|] == columns;
  }

  /** Invariant of the loops. */
  ghost predicate UniqProgress(x: Replica, y: Replica) {
    UniqEffect(x, y) && (Settled(x) ==> y == x)
  }

  /** The columns of a claim are NULL in a displaced loser. */
  ghost predicate LoserSettled(x: Replica, key: ClaimKey, row: RowId) {
    forall c | DisplacedOn(x.claims, x.rows, key, RowKey(key.table, row), c) ::
      c in x.rows[RowKey(key.table, row)].cells ==> x.rows[RowKey(key.table, row)].cells[c].value == Null
  }

  function ClearLoser(y: Replica, k: RowKey, columns: seq<ColumnId>): Replica
    requires k in y.rows
  {
    Ticked(y).(rows := y.rows[k := y.rows[k].(cells := Cleared(y.rows[k].cells, columns, NextVersion(y)))])
  }

  lemma EffectKeepsDisplaced(x: Replica, y: Replica, key: ClaimKey, row: RowId)
    requires UniqEffect(x, y)
    ensures Displaced(y.claims, y.rows, key, row) <==> Displaced(x.claims, x.rows, key, row)
  {
    forall t, r ensures Live(y.rows, t, r) <==> Live(x.rows, t, r) {
      if RowKey(t, r) in x.rows {
        assert UniqRowEffect(x, y, RowKey(t, r));
      }
    }
  }

  lemma DisplacedIsStored(claims: Claims, rows: Rows, key: ClaimKey, row: RowId)
    requires Displaced(claims, rows, key, row)
    ensures key in claims && HasRow(claims[key].losers, row) && Live(rows, key.table, row)
  {
  }

  predicate NeedsClearing(row: Row, columns: seq<ColumnId>) {
    exists c | c in columns :: c in row.cells && row.cells[c].value != Null
  }

  /** Clearing one displaced loser is a step of enforcement. */
  lemma ClearStep(x: Replica, y: Replica, key: ClaimKey, row: RowId)
    requires UniqProgress(x, y) && ClockDominates(y) && Displaced(x.claims, x.rows, key, row)
    requires RowKey(key.table, row) in y.rows && NeedsClearing(y.rows[RowKey(key.table, row)], SplitParts(key.column))
    ensures UniqProgress(x, ClearLoser(y, RowKey(key.table, row), SplitParts(key.column)))
  {
    hide Displaced, SplitParts, UniqRowEffect;
    DisplacedIsStored(x.claims, x.rows, key, row);
    var k := RowKey(key.table, row);
    var z := ClearLoser(y, k, SplitParts(key.column));
    FK.TickedFrame(x, y, z);
    forall j | j in x.rows ensures UniqRowEffect(x, z, j) {
      ClearRowEffect(x, y, key, row, j);
    }
    var c :| c in SplitParts(key.column) && c in y.rows[k].cells && y.rows[k].cells[c].value != Null;
    ClearedIsHit(x, y, key, row, c);
  }

  lemma ClearedIsHit(x: Replica, y: Replica, key: ClaimKey, row: RowId, c: ColumnId)
    requires UniqEffect(x, y) && Displaced(x.claims, x.rows, key, row) && c in SplitParts(key.column)
    requires var k := RowKey(key.table, row); k in y.rows && c in y.rows[k].cells && y.rows[k].cells[c].value != Null
    ensures UniqHit(x, RowKey(key.table, row), c)
  {
    var k := RowKey(key.table, row);
    assert UniqRowEffect(x, y, k);
    assert DisplacedOn(x.claims, x.rows, key, k, c);
  }

  lemma ClearRowEffect(x: Replica, y: Replica, key: ClaimKey, row: RowId, j: RowKey)
    requires j in x.rows && j in y.rows && UniqRowEffect(x, y, j) && Displaced(x.claims, x.rows, key, row)
    requires RowKey(key.table, row) in y.rows
    requires var z := ClearLoser(y, RowKey(key.table, row), SplitParts(key.column));
             Issued(x, z, NextVersion(y)) && forall v | Issued(x, y, v) :: Issued(x, z, v)
    ensures UniqRowEffect(x, ClearLoser(y, RowKey(key.table, row), SplitParts(key.column)), j)
  {
    hide Displaced, SplitParts;
    var k := RowKey(key.table, row);
    forall c | j == k && c in x.rows[k].cells && c in SplitParts(key.column) && y.rows[k].cells[c].value != Null
      ensures UniqHit(x, k, c)
    {
      assert DisplacedOn(x.claims, x.rows, key, k, c);
    }
  }

  /** What was NULL stays NULL, so settled losers stay settled. */
  lemma SettledStays(x: Replica, y: Replica, z: Replica, key: ClaimKey, row: RowId)
    requires UniqEffect(x, y) && UniqEffect(x, z) && LoserSettled(y, key, row)
    requires forall k, c | k in y.rows && c in y.rows[k].cells && y.rows[k].cells[c].value == Null ::
               k in z.rows && c in z.rows[k].cells && z.rows[k].cells[c].value == Null
    ensures LoserSettled(z, key, row)
  {
    hide Displaced;
    EffectKeepsDisplaced(x, y, key, row);
    EffectKeepsDisplaced(x, z, key, row);
    var k := RowKey(key.table, row);
    if Displaced(z.claims, z.rows, key, row) {
      DisplacedIsStored(z.claims, z.rows, key, row);
      assert UniqRowEffect(x, y, k) && UniqRowEffect(x, z, k);
    }
    forall c | DisplacedOn(z.claims, z.rows, key, k, c)
        ensures c in z.rows[k].cells ==> z.rows[k].cells[c].value == Null {
      assert DisplacedOn(y.claims, y.rows, key, k, c);
    }
  }

  /** One loser of one claim. */
  method SettleLoser(r: ReplicaState, key: ClaimKey, claim: Claim, loser: RowId, ghost x: Replica)
    requires r.Valid() && UniqProgress(x, r.View()) && ClockDominates(r.View())
    requires key in x.claims && x.claims[key] == claim && HasRow(claim.losers, loser)
    modifies r.Repr()
    ensures r.Valid() && UniqProgress(x, r.View()) && ClockDominates(r.View())
    ensures LoserSettled(r.View(), key, loser) && NullsKept(old(r.View()), r.View())
  {
    hide UniqEffect, Winner, ClockDominates, NeedsClearing, SplitParts;
    ghost var y := r.View();
    var k := RowKey(key.table, loser);
    SameClaims(x, y);
    if !Live(r.storage.rows, key.table, loser) {
      return;
    }
    var ownerAlive := Live(r.storage.rows, key.table, claim.owner);
    if !ownerAlive && Winner(r.uniqueness.claims, r.storage.rows, key, loser) {
      return;
    }
    EffectKeepsDisplaced(x, y, key, loser);
    var row := r.storage.rows[k];
    var columns := SplitParts(key.column);
    if !NeedsClearing(row, columns) {
      NothingToClear(y, key, loser);
      return;
    }
    ClearStep(x, y, key, loser);
    ClearSettles(y, key, loser);
    TickDominates(y);
    var v := r.TickWrite();
    var cells := ClearColumns(row.cells, columns, v);
    r.storage.UpsertRow(key.table, row.(cells := cells));
    assert r.View() == ClearLoser(y, k, columns);
  }

  lemma SameClaims(x: Replica, y: Replica)
    requires UniqProgress(x, y)
    ensures y.claims == x.claims && UniqEffect(x, y)
  {
  }

  lemma NothingToClear(y: Replica, key: ClaimKey, row: RowId)
    requires RowKey(key.table, row) in y.rows && !NeedsClearing(y.rows[RowKey(key.table, row)], SplitParts(key.column))
    ensures LoserSettled(y, key, row)
  {
    hide SplitParts, Displaced;
  }

  lemma ClearSettles(y: Replica, key: ClaimKey, row: RowId)
    requires RowKey(key.table, row) in y.rows && ClockDominates(y)
    ensures var z := ClearLoser(y, RowKey(key.table, row), SplitParts(key.column));
            LoserSettled(z, key, row) && NullsKept(y, z) && ClockDominates(z)
  {
    hide SplitParts, Displaced;
    TickDominates(y);
  }

  ghost predicate NullsKept(x: Replica, y: Replica) {
    forall k, c | k in x.rows && c in x.rows[k].cells && x.rows[k].cells[c].value == Null ::
      k in y.rows && c in y.rows[k].cells && y.rows[k].cells[c].value == Null
  }

  lemma TickDominates(y: Replica)
    requires ClockDominates(y)
    ensures ClockDominates(Ticked(y))
  {
    assert forall p | p != y.peer :: Seen(Ticked(y).frontier, p) == Seen(y.frontier, p);
  }

  ghost predicate ClaimSettled(x: Replica, key: ClaimKey, losers: seq<Loser>) {
    forall l | l in losers :: LoserSettled(x, key, l.row)
  }

  lemma ClaimStaysSettled(x: Replica, y: Replica, z: Replica, key: ClaimKey, losers: seq<Loser>)
    requires UniqEffect(x, y) && UniqEffect(x, z) && ClaimSettled(y, key, losers) && NullsKept(y, z)
    ensures ClaimSettled(z, key, losers)
  {
    hide UniqEffect, LoserSettled;
    forall l | l in losers ensures LoserSettled(z, key, l.row) {
      SettledStays(x, y, z, key, l.row);
    }
  }

  /** All losers of one claim. */
  method SettleClaim(r: ReplicaState, key: ClaimKey, claim: Claim, ghost x: Replica)
    requires r.Valid() && UniqProgress(x, r.View()) && ClockDominates(r.View())
    requires key in x.claims && x.claims[key] == claim
    modifies r.Repr()
    ensures r.Valid() && UniqProgress(x, r.View()) && ClockDominates(r.View())
    ensures ClaimSettled(r.View(), key, claim.losers) && NullsKept(old(r.View()), r.View())
  {
    hide UniqEffect, LoserSettled, ClockDominates;
    for i := 0 to |claim.losers|
      invariant r.Valid() && UniqProgress(x, r.View()) && ClockDominates(r.View())
      invariant ClaimSettled(r.View(), key, claim.losers[..i]) && NullsKept(old(r.View()), r.View())
    {
      assert claim.losers[..i + 1] == claim.losers[..i] + [claim.losers[i]];
      ghost var y := r.View();
      SettleLoser(r, key, claim, claim.losers[i].row, x);
      ClaimStaysSettled(x, y, r.View(), key, claim.losers[..i]);
    }
    assert claim.losers[..|claim.losers|] == claim.losers;
  }

  /** Clears the UNIQUE columns of every displaced loser, one tick per row. */
  method EnforceUniqueness(r: ReplicaState)
    requires r.Valid() && ClockDominates(r.View())
    modifies r.Repr()
    ensures r.Valid() && UniqEnforced(old(r.View()), r.View())
  {
    hide ClaimSettled, ClockDominates;
    ghost var x := r.View();
    var claims := r.uniqueness.claims;
    var todo := claims.Keys;
    while todo != {}
      invariant r.Valid() && UniqProgress(x, r.View()) && ClockDominates(r.View()) && todo <= claims.Keys
      invariant forall key | key in claims.Keys - todo :: ClaimSettled(r.View(), key, claims[key].losers)
    {
      var key :| key in todo;
      ghost var y := r.View();
      SettleClaim(r, key, claims[key], x);
      forall j | j in claims.Keys - todo ensures ClaimSettled(r.View(), j, claims[j].losers) {
        ClaimStaysSettled(x, y, r.View(), j, claims[j].losers);
      }
      todo := todo - {key};
    }
    AllSettled(x, r.View());
    SettledIsExact(x, r.View());
  }

  lemma AllSettled(x: Replica, y: Replica)
    requires UniqEffect(x, y) && forall key | key in x.claims :: ClaimSettled(y, key, x.claims[key].losers)
    ensures Settled(y)
  {
    hide Displaced, UniqRowEffect;
    forall key, k, c | DisplacedOn(y.claims, y.rows, key, k, c) && k in y.rows && c in y.rows[k].cells
      ensures y.rows[k].cells[c].value == Null
    {
      DisplacedIsStored(y.claims, y.rows, key, k.row);
      assert ClaimSettled(y, key, x.claims[key].losers);
      var l :| l in x.claims[key].losers && l.row == k.row;
      assert LoserSettled(y, key, l.row);
      assert RowKey(key.table, l.row) == k;
    }
  }

  lemma SettledIsExact(x: Replica, y: Replica)
    requires UniqProgress(x, y) && Settled(y)
    ensures UniqEnforced(x, y)
  {
    forall k, c | k in x.rows && c in x.rows[k].cells
      ensures y.rows[k].cells[c] != x.rows[k].cells[c] <==> UniqHit(x, k, c)
    {
      assert UniqRowEffect(x, y, k);
      if UniqHit(x, k, c) && y.rows[k].cells[c] == x.rows[k].cells[c] {
        var key :| DisplacedOn(x.claims, x.rows, key, k, c);
        EffectKeepsDisplaced(x, y, key, k.row);
        assert DisplacedOn(y.claims, y.rows, key, k, c);
        assert UniqHit(y, k, c);
      }
    }
  }

  // ------------------------------------------------------- what enforcement gives

  ghost predicate ClaimedColumnsNull(rows: Rows, key: ClaimKey, row: RowId)
    requires RowKey(key.table, row) in rows
  {
    forall c | c in SplitParts(key.column) && c in rows[RowKey(key.table, row)].cells ::
        rows[RowKey(key.table, row)].cells[c].value == Null
  }

  /** The fate of every live loser of every claim, composite claims included. */
  lemma SettledLosers(x: Replica)
    ensures Settled(x) <==>
              forall key, row | key in x.claims && HasRow(x.claims[key].losers, row) && Live(x.rows, key.table, row) ::
                || (!Live(x.rows, key.table, x.claims[key].owner) && Winner(x.claims, x.rows, key, row))
                || ClaimedColumnsNull(x.rows, key, row)
  {
    hide Winner, SplitParts;
    forall key, row | Settled(x) && Displaced(x.claims, x.rows, key, row) ensures ClaimedColumnsNull(x.rows, key, row) {
      forall c | c in SplitParts(key.column) && c in x.rows[RowKey(key.table, row)].cells
        ensures x.rows[RowKey(key.table, row)].cells[c].value == Null
      {
        assert DisplacedOn(x.claims, x.rows, key, RowKey(key.table, row), c);
        assert !UniqHit(x, RowKey(key.table, row), c);
      }
    }
    forall key, k, c | DisplacedOn(x.claims, x.rows, key, k, c) && ClaimedColumnsNull(x.rows, key, k.row)
      ensures c in x.rows[k].cells ==> x.rows[k].cells[c].value == Null
    {
      assert k == RowKey(key.table, k.row);
    }
  }

  /** After enforcement no two live rows of a table hold the same single-column UNIQUE value, shown or not. */
  lemma SettledIsUnique(x: Replica, j: RowKey, k: RowKey, c: ColumnId)
    requires LocalInv(x) && Settled(x) && j.table == k.table && UniqueColumn(x.schemas, k.table, c)
    requires j in x.rows && Visible(x.rows[j]) && c in x.rows[j].cells && x.rows[j].cells[c].value != Null
    requires k in x.rows && Visible(x.rows[k]) && c in x.rows[k].cells && x.rows[k].cells[c].value != Null
    requires Display(x.rows[j].cells[c].value) == Display(x.rows[k].cells[c].value)
    ensures j == k
  {
    hide Winner;
    var key := ClaimFor(k, c, x.rows[k].cells[c].value);
    SettledHolderWins(x, j, c);
    SettledHolderWins(x, k, c);
    OneWinner(x.claims, x.rows, key, j.row, k.row);
  }

  lemma PlainColumn(schemas: Schemas, t: TableId, c: ColumnId)
    requires WellFormedSchemas(schemas) && UniqueColumn(schemas, t, c)
    ensures SplitParts(c) == [c]
  {
    SplitPlain(c);
  }

  lemma SettledHolderWins(x: Replica, k: RowKey, c: ColumnId)
    requires LocalInv(x) && Settled(x) && UniqueColumn(x.schemas, k.table, c)
    requires k in x.rows && Visible(x.rows[k]) && c in x.rows[k].cells && x.rows[k].cells[c].value != Null
    ensures var key := ClaimFor(k, c, x.rows[k].cells[c].value); key in x.claims && Winner(x.claims, x.rows, key, k.row)
  {
    var key := ClaimFor(k, c, x.rows[k].cells[c].value);
    PlainColumn(x.schemas, k.table, c);
    assert Claimant(x.claims, key, k.row);
    assert !UniqHit(x, k, c);
    assert !DisplacedOn(x.claims, x.rows, key, k, c);
  }

  /** After enforcement reads hide no visible row of a table without composite constraints. */
  lemma SettledShowsAll(x: Replica, k: RowKey)
    requires LocalInv(x) && Settled(x) && k in x.rows && Visible(x.rows[k])
    requires k.table in x.schemas ==> x.schemas[k.table].composites == []
    ensures Shown(x, k)
  {
    hide Settled, Winner;
    if k.table in x.schemas {
      forall col | col in x.schemas[k.table].columns && col.unique && !col.primaryKey
                   && col.name in x.rows[k].cells && x.rows[k].cells[col.name].value != Null
        ensures Winner(x.claims, x.rows, ClaimFor(k, col.name, x.rows[k].cells[col.name].value), k.row)
      {
        assert UniqueColumn(x.schemas, k.table, col.name);
        SettledHolderWins(x, k, col.name);
      }
    }
  }

  /** Uniqueness enforcement only adds versions of this peer and keeps the invariant. */
  lemma UniqIsWrite(x: Replica, y: Replica)
    requires LocalInv(x) && UniqEffect(x, y)
    ensures LocalInv(y) && Writes(x, y)
  {
    UniqSlots(x, y);
    UniqHolders(x, y);
    WritesKeepLocal(x, y);
  }

  lemma UniqHolders(x: Replica, y: Replica)
    requires Holders(x) && Stored(x.rows) && UniqEffect(x, y)
    ensures Holders(y) && Stored(y.rows)
  {
    hide UniqHit;
    forall k, c | k in y.rows && c in y.rows[k].cells && y.rows[k].cells[c].value != Null
      ensures k in x.rows && c in x.rows[k].cells && x.rows[k].cells[c].value == y.rows[k].cells[c].value
    {
      assert UniqRowEffect(x, y, k);
    }
    SameHolders(x, y);
    forall k | k in y.rows ensures WellFormedRow(y.rows[k]) && y.rows[k].id == k.row && y.rows[k].cells != map[] {
      assert UniqRowEffect(x, y, k);
      var c :| c in x.rows[k].cells;
      assert c in y.rows[k].cells;
    }
  }

  lemma UniqSlots(x: Replica, y: Replica)
    requires UniqEffect(x, y)
    ensures SlotsWritten(x, y) && MirrorKept(x, y) && RowsGrow(x, y)
  {
    hide UniqHit;
    forall s ensures Get(y, s) == Get(x, s) || (Get(y, s).Some? && Issued(x, y, Get(y, s).value.version)) {
      if !s.OwnerAt? && s.key in x.rows {
        assert UniqRowEffect(x, y, s.key);
      }
    }
    forall k | Get(x, DeleteAt(k)) == Get(x, TombAt(k)) ensures Get(y, DeleteAt(k)) == Get(y, TombAt(k)) {
      if k in x.rows {
        assert UniqRowEffect(x, y, k);
      }
    }
    forall k | k in x.rows && x.rows[k].deleted ensures y.rows[k].deleted {
      assert UniqRowEffect(x, y, k);
    }
  }

  /** A cleared cell is newer than every stored delete, so no reference becomes stale, not even one to an id "NULL". */
  lemma UniqKeepsFkStable(x: Replica, y: Replica)
    requires FK.Ready(x) && FK.Stable(x) && UniqEffect(x, y)
    ensures FK.Stable(y)
  {
    hide UniqHit;
    forall k: RowKey, fk | FK.HasFk(y.schemas, k.table, fk) && fk.policy != TombstoneParent
        ensures !FK.Hit(y.rows, k, fk) {
      assert !FK.Hit(x.rows, k, fk);
      UniqKeepsReference(x, y, k, fk);
    }
  }

  lemma UniqKeepsReference(x: Replica, y: Replica, k: RowKey, fk: ForeignKey)
    requires FK.Ready(x) && UniqEffect(x, y) && !FK.Hit(x.rows, k, fk)
    ensures !FK.Hit(y.rows, k, fk)
  {
    hide UniqHit, Stored;
    if FK.Refers(y.rows, k, fk) {
      assert UniqRowEffect(x, y, k);
      var p := FK.Parent(y.rows, k, fk);
      if p in x.rows {
        assert UniqRowEffect(x, y, p);
        assert FK.RowBelowClock(x.rows[p], x.clock);
      }
    }
  }

  // ------------------------------------------------------- a re-claimed value

  /**
   A live owner listed under no other claim on the column keeps its value exactly when it is not among its own losers.
   */
  lemma OwnerClearedIffListed(x: Replica, key: ClaimKey, k: RowKey, c: ColumnId)
    requires k in x.rows && Visible(x.rows[k]) && c in x.rows[k].cells && x.rows[k].cells[c].value != Null
    requires key in x.claims && key.table == k.table && x.claims[key].owner == k.row && c in SplitParts(key.column)
    requires forall other | other in x.claims && other != key && other.table == k.table
             && c in SplitParts(other.column) ::
               !HasRow(x.claims[other].losers, k.row)
    ensures UniqHit(x, k, c) <==> HasRow(x.claims[key].losers, k.row)
  {
    hide Winner;
    if HasRow(x.claims[key].losers, k.row) {
      assert DisplacedOn(x.claims, x.rows, key, k, c);
    }
  }

  /**
   After a merge the live owner of a value keeps it if it came from the other side, and an incumbent exactly if it was
   not among its own losers before.
   */
  lemma MergedOwnerKeepsValue(x: Replica, mine: Claims, theirs: Claims, key: ClaimKey, k: RowKey, c: ColumnId)
    requires x.claims == MergeClaims(mine, theirs) && key in mine && key in theirs
    requires k in x.rows && Visible(x.rows[k]) && c in x.rows[k].cells && x.rows[k].cells[c].value != Null
    requires key.table == k.table && x.claims[key].owner == k.row && c in SplitParts(key.column)
    requires forall other | other in x.claims && other != key && other.table == k.table
             && c in SplitParts(other.column) ::
               !HasRow(x.claims[other].losers, k.row)
    ensures UniqHit(x, k, c)
            <==> !Newer(theirs[key].version, mine[key].version) && HasRow(mine[key].losers, mine[key].owner)
  {
    hide UniqHit, MergeClaim;
    MergedOwner(mine[key], theirs[key]);
    OwnerClearedIffListed(x, key, k, c);
  }

  /** A visible loser that wins its value back by UPDATE becomes the owner, and enforcement then clears it. */
  lemma ReclaimedValueIsCleared(x: Replica, k: RowKey, c: ColumnId, v: Value)
    requires LocalInv(x) && k in x.rows && Visible(x.rows[k]) && v != Null && UniqueColumn(x.schemas, k.table, c)
    requires var key := ClaimFor(k, c, v);
             key in x.claims && x.claims[key].owner != k.row && HasRow(x.claims[key].losers, k.row)
    requires ClaimFor(k, c, v) !in CompositeKeys(k.table, x.schemas[k.table].composites,
                                     CellValues(AssignCells(x.rows[k].cells, [(c, v)], NextVersion(x))))
    ensures var y := Update(x, k.table, k.row, [(c, v)]);
            && Lookup(y.claims, ClaimFor(k, c, v)).Some? && y.claims[ClaimFor(k, c, v)].owner == k.row
            && y.rows[k].cells[c].value == v && UniqHit(y, k, c)
  {
    var y := Update(x, k.table, k.row, [(c, v)]);
    var key := ClaimFor(k, c, v);
    var e := x.claims[key];
    ReclaimFiles(x, k, c, v);
    assert Files(e, e.owner, e.version);
    StoredVersionsBelowClock(x);
    var n := ClaimInto(Some(e), k.row, NextVersion(x));
    assert n == y.claims[key] && n.losers == e.losers + [Loser(e.owner, e.version)];
    assert HasRow(n.losers, k.row) by {
      var l :| l in e.losers && l.row == k.row;
      assert l in n.losers;
    }
    PlainColumn(x.schemas, k.table, c);
    assert AssignCells(x.rows[k].cells, [(c, v)], NextVersion(x)) == x.rows[k].cells[c := Cell(v, NextVersion(x))];
    assert DisplacedOn(y.claims, y.rows, key, k, c);
  }

  lemma ReclaimFiles(x: Replica, k: RowKey, c: ColumnId, v: Value)
    requires WellFormedSchemas(x.schemas) && k in x.rows && v != Null && UniqueColumn(x.schemas, k.table, c)
    requires ClaimFor(k, c, v) !in CompositeKeys(k.table, x.schemas[k.table].composites,
                                     CellValues(AssignCells(x.rows[k].cells, [(c, v)], NextVersion(x))))
    ensures Lookup(Update(x, k.table, k.row, [(c, v)]).claims, ClaimFor(k, c, v))
            == Some(ClaimInto(Lookup(x.claims, ClaimFor(k, c, v)), k.row, NextVersion(x)))
  {
    var key := ClaimFor(k, c, v);
    var columns := x.schemas[k.table].columns;
    var col :| col in columns && col.name == c && col.unique && !col.primaryKey;
    ColumnFound(columns, col);
    var one: Assignments := [(c, v)];
    assert one[..0] == [];
    assert AssignedKeys(k.table, columns, one) == [key];
    var rest := CompositeKeys(k.table, x.schemas[k.table].composites,
        CellValues(AssignCells(x.rows[k].cells, one, NextVersion(x))));
    FileKeysSplit(x.claims, [key], rest, k.row, NextVersion(x));
    FileKeysOther(FileKeys(x.claims, [key], k.row, NextVersion(x)), rest, k.row, NextVersion(x), key);
    assert [key][..0] == [];
  }
}
