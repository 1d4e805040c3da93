/** The registry of UNIQUE claims: a max-register of owners that keeps every claimant. */
module Uniqueness {
  import opened Types

  datatype ClaimResult = Won | Lost(winner: RowId)

  predicate HasRow(losers: seq<Loser>, row: RowId) {
    exists l | l in losers :: l.row == row
  }

  /** The version of the first loser entry of a row. */
  function FirstLoser(losers: seq<Loser>, row: RowId): (v: Option<Version>)
    ensures v.None? <==> !HasRow(losers, row)
    ensures v.Some? ==> Loser(row, v.value) in losers
  {
    if losers == [] then None
    else if losers[0].row == row then
      assert losers[0] in losers;
      Some(losers[0].version)
    else
      assert losers == [losers[0]] + losers[1..];
      assert HasRow(losers[1..], row) ==> HasRow(losers, row);
      FirstLoser(losers[1..], row)
  }

  function Without(losers: seq<Loser>, row: RowId): seq<Loser> {
    if losers == [] then []
    else Without(losers[..|losers| - 1], row) + if losers[|losers| - 1].row == row then [] else [losers[|losers| - 1]]
  }

  /** What one claim does to the record of its key. */
  function ClaimInto(prior: Option<Claim>, row: RowId, v: Version): Claim {
    match prior
    case None => Claim(row, v, [])
    case Some(e) =>
      if e.owner == row then
        Claim(row, if Newer(v, e.version) then v else e.version, Without(e.losers, row))
      else if Newer(v, e.version) then
        Claim(row, v, e.losers + [Loser(e.owner, e.version)])
      else
        e.(losers := e.losers + [Loser(row, v)])
  }

  /** Stable insertion after all entries whose row is not greater. */
  function InsertByRow(sorted: seq<Loser>, l: Loser): seq<Loser> {
    if sorted == [] then [l]
    else if StrLess(l.row, sorted[0].row) then [l] + sorted
    else [sorted[0]] + InsertByRow(sorted[1..], l)
  }

  function SortByRow(losers: seq<Loser>): seq<Loser> {
    if losers == [] then [] else InsertByRow(SortByRow(losers[..|losers| - 1]), losers[|losers| - 1])
  }

  /** Drops every entry whose row equals that of the entry kept just before it. */
  function DedupRuns(losers: seq<Loser>): seq<Loser>
    decreases |losers|
  {
    if |losers| < 2 then losers
    else if losers[0].row == losers[1].row then DedupRuns([losers[0]] + losers[2..])
    else [losers[0]] + DedupRuns(losers[1..])
  }

  /** Appends the losers whose row is neither recorded yet nor the owner. */
  function AddLosers(owner: RowId, acc: seq<Loser>, losers: seq<Loser>): seq<Loser> {
    if losers == [] then acc
    else
      var sofar := AddLosers(owner, acc, losers[..|losers| - 1]);
      var l := losers[|losers| - 1];
      if !HasRow(sofar, l.row) && l.row != owner then sofar + [l] else sofar
  }

  function MergeClaim(e: Claim, o: Claim): Claim {
    if Newer(o.version, e.version) then
      var all := DedupRuns(SortByRow(e.losers + o.losers + [Loser(e.owner, e.version)]));
      Claim(o.owner, o.version, Without(all, o.owner))
    else
      var first := if o.owner != e.owner && !HasRow(e.losers, o.owner)
                   then e.losers + [Loser(o.owner, o.version)] else e.losers;
      e.(losers := AddLosers(e.owner, first, o.losers))
  }

  type Claims = map<ClaimKey, Claim>

  function Lookup(m: Claims, key: ClaimKey): Option<Claim> {
    if key in m then Some(m[key]) else None
  }

  function FileClaim(m: Claims, key: ClaimKey, row: RowId, v: Version): Claims {
    m[key := ClaimInto(Lookup(m, key), row, v)]
  }

  function MergeClaims(a: Claims, b: Claims): Claims {
    map k | k in a.Keys + b.Keys ::
      if k in a && k in b then MergeClaim(a[k], b[k]) else if k in a then a[k] else b[k]
  }

  function FileLosers(m: Claims, key: ClaimKey, losers: seq<Loser>): Claims {
    if losers == [] then m
    else
      var l := losers[|losers| - 1];
      FileClaim(FileLosers(m, key, losers[..|losers| - 1]), key, l.row, l.version)
  }

  /** The registry a receiver rebuilds from claim records: every owner and every loser claims again. */
  function Rebuild(records: seq<ClaimRecord>): Claims {
    if records == [] then map[]
    else
      var r := records[|records| - 1];
      FileLosers(FileClaim(Rebuild(records[..|records| - 1]), r.key, r.claim.owner, r.claim.version), r.key,
          r.claim.losers)
  }

  class UniquenessRegistry {
    var claims: Claims

    constructor ()
      ensures claims == map[]
    {
      claims := map[];
    }

    method File(key: ClaimKey, row: RowId, v: Version) returns (result: ClaimResult)
      modifies this
      ensures claims == FileClaim(old(claims), key, row, v)
      ensures result == if claims[key].owner == row then Won else Lost(claims[key].owner)
    {
      if key in claims {
        var existing := claims[key];
        if existing.owner == row {
          if Newer(v, existing.version) {
            existing := existing.(version := v);
          }
          existing := existing.(losers := Without(existing.losers, row));
          claims := claims[key := existing];
          return Won;
        }
        if Newer(v, existing.version) {
          var demoted := Loser(existing.owner, existing.version);
          claims := claims[key := Claim(row, v, existing.losers + [demoted])];
          result := Won;
        } else {
          claims := claims[key := existing.(losers := existing.losers + [Loser(row, v)])];
          result := Lost(existing.owner);
        }
      } else {
        claims := claims[key := Claim(row, v, [])];
        result := Won;
      }
    }

    method Merge(other: UniquenessRegistry)
      requires other != this
      modifies this
      ensures claims == MergeClaims(old(claims), other.claims)
      ensures forall key | key in old(claims) && key in other.claims ::
                if Newer(other.claims[key].version, old(claims)[key].version)
                then
                  && claims[key].owner == other.claims[key].owner && claims[key].version == other.claims[key].version
                  && !HasRow(claims[key].losers, claims[key].owner)
                else
                  && claims[key].owner == old(claims)[key].owner && claims[key].version == old(claims)[key].version
                  && (HasRow(claims[key].losers, claims[key].owner)
                      <==> HasRow(old(claims)[key].losers, claims[key].owner))
    {
      var todo := other.claims.Keys;
      while todo != {}
        invariant todo <= other.claims.Keys
        invariant claims.Keys == old(claims).Keys + (other.claims.Keys - todo)
        invariant forall k | k in claims ::
                    claims[k] == if k in todo then old(claims)[k] else MergeClaims(old(claims), other.claims)[k]
      {
        var key :| key in todo;
        var theirs := other.claims[key];
        if key in claims {
          var existing := claims[key];
          if Newer(theirs.version, existing.version) {
            var all := existing.losers + theirs.losers + [Loser(existing.owner, existing.version)];
            claims := claims[key := Claim(theirs.owner, theirs.version,
                Without(DedupRuns(SortByRow(all)), theirs.owner))];
          } else {
            var losers := existing.losers;
            if theirs.owner != existing.owner && !HasRow(losers, theirs.owner) {
              losers := losers + [Loser(theirs.owner, theirs.version)];
            }
            ghost var start := losers;
            for i := 0 to |theirs.losers|
              invariant losers == AddLosers(existing.owner, start, theirs.losers[..i])
            {
              assert theirs.losers[..i + 1][..i] == theirs.losers[..i];
              var l := theirs.losers[i];
              if !HasRow(losers, l.row) && l.row != existing.owner {
                losers := losers + [l];
              }
            }
            assert theirs.losers[..|theirs.losers|] == theirs.losers;
            claims := claims[key := existing.(losers := losers)];
          }
        } else {
          claims := claims[key := theirs];
        }
        todo := todo - {key};
      }
      forall key | key in old(claims) && key in other.claims
        ensures OwnerListing(old(claims)[key], other.claims[key], claims[key])
      {
        MergedOwner(old(claims)[key], other.claims[key]);
      }
    }

    /** The claim-by-claim rebuild of an incoming registry. */
    method FileAll(records: seq<ClaimRecord>)
      requires claims == map[]
      modifies this
      ensures claims == Rebuild(records)
    {
      for i := 0 to |records|
        invariant claims == Rebuild(records[..i])
      {
        assert records[..i + 1][..i] == records[..i];
        var r := records[i];
        var _ := File(r.key, r.claim.owner, r.claim.version);
        ghost var start := claims;
        for j := 0 to |r.claim.losers|
          invariant claims == FileLosers(start, r.key, r.claim.losers[..j])
        {
          assert r.claim.losers[..j + 1][..j] == r.claim.losers[..j];
          var _ := File(r.key, r.claim.losers[j].row, r.claim.losers[j].version);
        }
        assert r.claim.losers[..|r.claim.losers|] == r.claim.losers;
      }
      assert records[..|records|] == records;
    }
  }

  // ------------------------------------------------------- loser lists

  lemma {:induction false} WithoutMembers(losers: seq<Loser>, row: RowId)
    ensures forall l :: l in Without(losers, row) <==> l in losers && l.row != row
  {
    if losers != [] {
      var n := |losers| - 1;
      WithoutMembers(losers[..n], row);
      assert losers == losers[..n] + [losers[n]];
    }
  }

  lemma {:induction false} InsertMembers(sorted: seq<Loser>, l: Loser)
    ensures forall e :: e in InsertByRow(sorted, l) <==> e in sorted || e == l
  {
    if sorted != [] {
      InsertMembers(sorted[1..], l);
      assert sorted == [sorted[0]] + sorted[1..];
    }
  }

  lemma {:induction false} SortMembers(losers: seq<Loser>)
    ensures forall l :: l in SortByRow(losers) <==> l in losers
  {
    if losers != [] {
      var n := |losers| - 1;
      SortMembers(losers[..n]);
      InsertMembers(SortByRow(losers[..n]), losers[n]);
      assert losers == losers[..n] + [losers[n]];
    }
  }

  lemma {:induction false} DedupMembers(losers: seq<Loser>)
    ensures forall l :: l in DedupRuns(losers) ==> l in losers
    ensures forall row :: HasRow(DedupRuns(losers), row) <==> HasRow(losers, row)
    decreases |losers|
  {
    if |losers| >= 2 {
      if losers[0].row == losers[1].row {
        var rest := [losers[0]] + losers[2..];
        DedupMembers(rest);
        assert losers == [losers[0]] + [losers[1]] + losers[2..];
        assert losers[0] in rest;
        forall row ensures HasRow(rest, row) <==> HasRow(losers, row) {
          assert forall l :: l in losers <==> l in rest || l == losers[1];
        }
      } else {
        var rest := losers[1..];
        DedupMembers(rest);
        var out := [losers[0]] + DedupRuns(rest);
        assert losers == [losers[0]] + rest;
        forall row ensures HasRow(out, row) <==> HasRow(losers, row) {
          assert forall l :: l in out <==> l == losers[0] || l in DedupRuns(rest);
          assert forall l :: l in losers <==> l == losers[0] || l in rest;
          assert HasRow(out, row) <==> losers[0].row == row || HasRow(DedupRuns(rest), row);
        }
      }
    }
  }

  lemma {:induction false} AddLosersMembers(owner: RowId, acc: seq<Loser>, losers: seq<Loser>)
    ensures forall l :: l in AddLosers(owner, acc, losers) ==> l in acc || l in losers
    ensures forall row :: HasRow(AddLosers(owner, acc, losers), row) <==>
                          HasRow(acc, row) || (HasRow(losers, row) && row != owner)
  {
    if losers != [] {
      var n := |losers| - 1;
      AddLosersMembers(owner, acc, losers[..n]);
      var sofar := AddLosers(owner, acc, losers[..n]);
      var out := AddLosers(owner, acc, losers);
      assert losers == losers[..n] + [losers[n]];
      forall row ensures HasRow(out, row) <==> HasRow(acc, row) || (HasRow(losers, row) && row != owner) {
        assert forall l :: l in losers <==> l in losers[..n] || l == losers[n];
        assert HasRow(losers, row) <==> HasRow(losers[..n], row) || losers[n].row == row;
        assert forall l :: l in out ==> l in sofar || l == losers[n];
        assert forall l :: l in sofar ==> l in out;
        assert out != sofar ==> losers[n] in out;
      }
    }
  }

  // ------------------------------------- conservation and convergence

  /** One claim ever made: this row claimed this value with this version. */
  datatype Filing = Filing(key: ClaimKey, row: RowId, version: Version)

  /** A version names one row write, so it names one row per key. */
  ghost predicate Consistent(log: set<Filing>) {
    forall f, g | f in log && g in log && f.key == g.key && f.version == g.version :: f.row == g.row
  }

  /** The claim record mentions this row with this version, as owner or loser. */
  predicate Files(c: Claim, row: RowId, v: Version) {
    (c.owner == row && c.version == v) || Loser(row, v) in c.losers
  }

  predicate FiledRow(c: Claim, row: RowId) {
    c.owner == row || HasRow(c.losers, row)
  }

  predicate LosersBelow(c: Claim) {
    forall l | l in c.losers :: Newer(c.version, l.version)
  }

  /**
   The record of a key against its history: the owner is the newest claim, every claimant is kept, losers are older.
   */
  ghost predicate TracksKey(c: Claim, key: ClaimKey, log: set<Filing>) {
    && (forall row, v :: Files(c, row, v) ==> Filing(key, row, v) in log)
    && (forall f | f in log && f.key == key :: AtLeast(c.version, f.version) && FiledRow(c, f.row))
    && LosersBelow(c)
  }

  ghost predicate Tracks(m: Claims, log: set<Filing>) {
    && (forall f | f in log :: f.key in m)
    && (forall key | key in m :: TracksKey(m[key], key, log))
  }

  lemma ClaimIntoTracks(c: Option<Claim>, f: Filing, log: set<Filing>)
    requires c.Some? ==> TracksKey(c.value, f.key, log)
    requires c.None? ==> forall g | g in log :: g.key != f.key
    requires Consistent(log + {f})
    ensures TracksKey(ClaimInto(c, f.row, f.version), f.key, log + {f})
  {
    VersionOrder();
    if c.Some? {
      var e := c.value;
      var n := ClaimInto(c, f.row, f.version);
      assert Files(e, e.owner, e.version);
      assert Filing(f.key, e.owner, e.version) in log;
      WithoutMembers(e.losers, f.row);
      if e.owner == f.row {
        assert forall row | HasRow(e.losers, row) && row != f.row :: HasRow(n.losers, row);
      } else {
        var added := if Newer(f.version, e.version) then Loser(e.owner, e.version) else Loser(f.row, f.version);
        assert n.losers == e.losers + [added];
        assert forall row | HasRow(e.losers, row) :: HasRow(n.losers, row);
        assert added in n.losers;
      }
    }
  }

  lemma MergeClaimTracks(e: Claim, o: Claim, key: ClaimKey, le: set<Filing>, lo: set<Filing>)
    requires TracksKey(e, key, le) && TracksKey(o, key, lo) && Consistent(le + lo)
    ensures TracksKey(MergeClaim(e, o), key, le + lo)
  {
    VersionOrder();
    var m := MergeClaim(e, o);
    assert Files(e, e.owner, e.version) && Files(o, o.owner, o.version);
    assert Filing(key, e.owner, e.version) in le && Filing(key, o.owner, o.version) in lo;
    if Newer(o.version, e.version) {
      var demoted := Loser(e.owner, e.version);
      var all := e.losers + o.losers + [demoted];
      SortMembers(all);
      DedupMembers(SortByRow(all));
      WithoutMembers(DedupRuns(SortByRow(all)), o.owner);
      forall row ensures FiledRow(e, row) || FiledRow(o, row) ==> FiledRow(m, row) {
        if FiledRow(e, row) || FiledRow(o, row) {
          assert demoted in all;
          assert forall l | l in e.losers || l in o.losers :: l in all;
          if row != o.owner {
            assert HasRow(all, row);
            assert HasRow(SortByRow(all), row);
            assert HasRow(DedupRuns(SortByRow(all)), row);
          }
        }
      }
    } else {
      var pushed := Loser(o.owner, o.version);
      var first := if o.owner != e.owner && !HasRow(e.losers, o.owner) then e.losers + [pushed] else e.losers;
      AddLosersMembers(e.owner, first, o.losers);
      forall row ensures FiledRow(e, row) || FiledRow(o, row) ==> FiledRow(m, row) {
        if HasRow(e.losers, row) || (row == o.owner && o.owner != e.owner) {
          assert first == e.losers + [pushed] ==> pushed in first;
          assert forall l | l in e.losers :: l in first;
          assert HasRow(first, row);
        }
      }
    }
  }

  lemma FileClaimTracks(m: Claims, f: Filing, log: set<Filing>)
    requires Tracks(m, log) && Consistent(log + {f})
    ensures Tracks(FileClaim(m, f.key, f.row, f.version), log + {f})
  {
    ClaimIntoTracks(Lookup(m, f.key), f, log);
  }

  lemma MergeClaimsTracks(a: Claims, b: Claims, la: set<Filing>, lb: set<Filing>)
    requires Tracks(a, la) && Tracks(b, lb) && Consistent(la + lb)
    ensures Tracks(MergeClaims(a, b), la + lb)
  {
    forall key | key in MergeClaims(a, b) ensures TracksKey(MergeClaims(a, b)[key], key, la + lb) {
      if key in a && key in b {
        MergeClaimTracks(a[key], b[key], key, la, lb);
      }
    }
  }

  /** The records of a registry, each key once, in any order. */
  ghost predicate Enumerates(records: seq<ClaimRecord>, m: Claims) {
    && (forall r | r in records :: r.key in m && m[r.key] == r.claim)
    && (forall key | key in m :: ClaimRecord(key, m[key]) in records)
    && (forall i, j | 0 <= i < j < |records| :: records[i].key != records[j].key)
  }

  /** The filings a claim record lists. */
  ghost function Listed(key: ClaimKey, c: Claim): set<Filing> {
    {Filing(key, c.owner, c.version)} + set l | l in c.losers :: Filing(key, l.row, l.version)
  }

  lemma {:induction false} FileLosersTracks(m: Claims, key: ClaimKey, losers: seq<Loser>, log: set<Filing>)
    requires Tracks(m, log)
    requires Consistent(log + set l | l in losers :: Filing(key, l.row, l.version))
    ensures Tracks(FileLosers(m, key, losers), log + set l | l in losers :: Filing(key, l.row, l.version))
  {
    var all := set l | l in losers :: Filing(key, l.row, l.version);
    if losers == [] {
      assert log + all == log;
    } else {
      var n := |losers| - 1;
      var some := set l | l in losers[..n] :: Filing(key, l.row, l.version);
      var f := Filing(key, losers[n].row, losers[n].version);
      assert losers == losers[..n] + [losers[n]];
      assert log + all == log + some + {f};
      FileLosersTracks(m, key, losers[..n], log);
      FileClaimTracks(FileLosers(m, key, losers[..n]), f, log + some);
    }
  }

  ghost function AllListed(records: seq<ClaimRecord>): set<Filing> {
    if records == [] then {}
    else AllListed(records[..|records| - 1]) + Listed(records[|records| - 1].key, records[|records| - 1].claim)
  }

  lemma {:induction false} RebuildTracksListed(records: seq<ClaimRecord>)
    requires Consistent(AllListed(records))
    ensures Tracks(Rebuild(records), AllListed(records))
  {
    if records != [] {
      var n := |records| - 1;
      var r := records[n];
      var before := AllListed(records[..n]);
      var owner := Filing(r.key, r.claim.owner, r.claim.version);
      var losers := set l | l in r.claim.losers :: Filing(r.key, l.row, l.version);
      RebuildTracksListed(records[..n]);
      FileClaimTracks(Rebuild(records[..n]), owner, before);
      assert AllListed(records) == before + {owner} + losers;
      FileLosersTracks(FileClaim(Rebuild(records[..n]), r.key, r.claim.owner, r.claim.version), r.key, r.claim.losers,
          before + {owner});
    }
  }

  lemma {:induction false} AllListedMembers(records: seq<ClaimRecord>)
    ensures forall f :: f in AllListed(records) <==>
            exists r | r in records :: r.key == f.key && Files(r.claim, f.row, f.version)
  {
    if records != [] {
      var n := |records| - 1;
      AllListedMembers(records[..n]);
      assert records == records[..n] + [records[n]];
      forall f ensures f in AllListed(records) <==>
          exists r | r in records :: r.key == f.key && Files(r.claim, f.row, f.version) {
        assert f in Listed(records[n].key, records[n].claim) <==>
               records[n].key == f.key && Files(records[n].claim, f.row, f.version);
        if f in AllListed(records[..n]) {
          var r :| r in records[..n] && r.key == f.key && Files(r.claim, f.row, f.version);
          assert r in records;
        }
        assert records[n] in records;
      }
    }
  }

  /** Rebuilding a registry claim by claim from its own records keeps its whole history. */
  lemma RebuildTracks(records: seq<ClaimRecord>, m: Claims, log: set<Filing>)
    requires Enumerates(records, m) && Tracks(m, log) && Consistent(log)
    ensures Tracks(Rebuild(records), log)
  {
    var listed := AllListed(records);
    AllListedMembers(records);
    assert listed <= log;
    RebuildTracksListed(records);
    var b := Rebuild(records);
    forall key | key in b ensures TracksKey(b[key], key, log) {
      assert Files(b[key], b[key].owner, b[key].version);
      assert Filing(key, b[key].owner, b[key].version) in listed;
      forall f | f in log && f.key == key ensures AtLeast(b[key].version, f.version) && FiledRow(b[key], f.row) {
        VersionOrder();
        assert ClaimRecord(key, m[key]) in records;
        assert Files(m[key], m[key].owner, m[key].version);
        assert Filing(key, m[key].owner, m[key].version) in listed;
        if f.row != m[key].owner {
          var l :| l in m[key].losers && l.row == f.row;
          assert Files(m[key], l.row, l.version);
          assert Filing(key, l.row, l.version) in listed;
        }
      }
    }
    forall f | f in log ensures f.key in b {
      assert ClaimRecord(f.key, m[f.key]) in records;
      assert Files(m[f.key], m[f.key].owner, m[f.key].version);
      assert Filing(f.key, m[f.key].owner, m[f.key].version) in listed;
    }
  }

  /** Several registries and, for each, the set of claims that has reached it. */
  datatype Registries = Registries(claims: seq<Claims>, logs: seq<set<Filing>>)

  datatype Event =
    | FileAt(at: nat, filing: Filing)
    | MergeAt(at: nat, source: nat)
    | RebuildAt(at: nat, source: nat, records: seq<ClaimRecord>)

  /** One local claim, one direct merge, or one merge of a registry rebuilt from records. */
  ghost predicate EventStep(s: Registries, e: Event, t: Registries) {
    && |s.claims| == |s.logs| && e.at < |s.claims|
    && match e
       case FileAt(i, f) =>
         t == Registries(s.claims[i := FileClaim(s.claims[i], f.key, f.row, f.version)], s.logs[i := s.logs[i] + {f}])
       case MergeAt(i, j) =>
         j < |s.claims| && t == Registries(s.claims[i := MergeClaims(s.claims[i], s.claims[j])],
             s.logs[i := s.logs[i] + s.logs[j]])
       case RebuildAt(i, j, records) =>
         && j < |s.claims| && Enumerates(records, s.claims[j])
         && t == Registries(s.claims[i := MergeClaims(s.claims[i], Rebuild(records))],
             s.logs[i := s.logs[i] + s.logs[j]])
  }

  ghost predicate EventRun(states: seq<Registries>, events: seq<Event>) {
    && |states| == |events| + 1
    && |states[0].claims| == |states[0].logs|
    && (forall i | 0 <= i < |states[0].claims| :: states[0].claims[i] == map[] && states[0].logs[i] == {})
    && (forall n | 0 <= n < |events| :: EventStep(states[n], events[n], states[n + 1]))
  }

  ghost predicate AllTrack(s: Registries, made: set<Filing>) {
    && |s.claims| == |s.logs|
    && forall i | 0 <= i < |s.claims| :: s.logs[i] <= made && Tracks(s.claims[i], s.logs[i])
  }

  lemma SubsetConsistent(log: set<Filing>, made: set<Filing>)
    requires log <= made && Consistent(made)
    ensures Consistent(log)
  {
  }

  lemma EventKeepsTrack(s: Registries, e: Event, t: Registries, made: set<Filing>)
    requires AllTrack(s, made) && EventStep(s, e, t) && Consistent(made)
    requires e.FileAt? ==> e.filing in made
    ensures AllTrack(t, made)
  {
    var i := e.at;
    match e
    case FileAt(_, f) =>
      SubsetConsistent(s.logs[i] + {f}, made);
      FileClaimTracks(s.claims[i], f, s.logs[i]);
    case MergeAt(_, j) =>
      SubsetConsistent(s.logs[i] + s.logs[j], made);
      MergeClaimsTracks(s.claims[i], s.claims[j], s.logs[i], s.logs[j]);
    case RebuildAt(_, j, records) =>
      SubsetConsistent(s.logs[j], made);
      RebuildTracks(records, s.claims[j], s.logs[j]);
      SubsetConsistent(s.logs[i] + s.logs[j], made);
      MergeClaimsTracks(s.claims[i], Rebuild(records), s.logs[i], s.logs[j]);
  }

  /** Under any interleaving of claims, merges and rebuilds every registry agrees with the claims that reached it. */
  lemma {:induction false} RegistryConservation(states: seq<Registries>, events: seq<Event>, made: set<Filing>)
    requires EventRun(states, events) && Consistent(made)
    requires forall n | 0 <= n < |events| && events[n].FileAt? :: events[n].filing in made
    ensures AllTrack(states[|events|], made)
  {
    if events != [] {
      var n := |events| - 1;
      RegistryConservation(states[..n + 1], events[..n], made);
      EventKeepsTrack(states[n], events[n], states[n + 1], made);
    }
  }

  /** Registries reached by the same claims name the same owner with the same version and know the same claimants. */
  lemma RegistryConvergence(a: Claims, b: Claims, log: set<Filing>, key: ClaimKey)
    requires Tracks(a, log) && Tracks(b, log) && Consistent(log) && key in a
    ensures key in b && a[key].owner == b[key].owner && a[key].version == b[key].version
    ensures forall row :: FiledRow(a[key], row) <==> exists v :: Filing(key, row, v) in log
    ensures forall row :: FiledRow(a[key], row) <==> FiledRow(b[key], row)
  {
    VersionOrder();
    assert Files(a[key], a[key].owner, a[key].version);
    assert Filing(key, a[key].owner, a[key].version) in log;
    assert Files(b[key], b[key].owner, b[key].version);
    assert Filing(key, b[key].owner, b[key].version) in log;
    FiledInLog(a[key], key, log);
    FiledInLog(b[key], key, log);
  }

  lemma FiledInLog(c: Claim, key: ClaimKey, log: set<Filing>)
    requires TracksKey(c, key, log)
    ensures forall row :: FiledRow(c, row) <==> exists v :: Filing(key, row, v) in log
  {
    forall row | FiledRow(c, row) ensures exists v :: Filing(key, row, v) in log {
      if c.owner == row {
        assert Files(c, row, c.version);
      } else {
        var l :| l in c.losers && l.row == row;
        assert Files(c, row, l.version);
      }
    }
  }

  /** Filing a claim keeps the owner out of its own losers except when an older loser wins the key back. */
  lemma OwnerOutOfLosers(e: Claim, row: RowId, v: Version)
    requires !HasRow(e.losers, e.owner)
    ensures HasRow(ClaimInto(Some(e), row, v).losers, ClaimInto(Some(e), row, v).owner)
            <==> row != e.owner && Newer(v, e.version) && HasRow(e.losers, row)
  {
    var n := ClaimInto(Some(e), row, v);
    WithoutMembers(e.losers, row);
    if row != e.owner {
      var added := if Newer(v, e.version) then Loser(e.owner, e.version) else Loser(row, v);
      assert n.losers == e.losers + [added];
      assert forall l :: l in n.losers <==> l in e.losers || l == added;
    }
  }

  /**
   The losers after a claim: a repeated claim of the owner drops its own entries, any other claim appends one entry, of
   the old owner if it lost to the claim, else of the claimant.
   */
  lemma ClaimedLosers(e: Claim, row: RowId, v: Version, other: RowId)
    ensures var n := ClaimInto(Some(e), row, v);
            if row == e.owner
            then FirstLoser(n.losers, other) == if other == row then None else FirstLoser(e.losers, other)
            else n.losers == e.losers + [if Newer(v, e.version) then Loser(e.owner, e.version) else Loser(row, v)]
  {
    FirstWithout(e.losers, row, other);
  }

  /** Merging the same registry a second time changes nothing, loser lists included. */
  lemma MergeClaimsReplay(a: Claims, b: Claims)
    ensures MergeClaims(MergeClaims(a, b), b) == MergeClaims(a, b)
  {
    forall key | key in b && key in a
        ensures MergeClaim(MergeClaim(a[key], b[key]), b[key]) == MergeClaim(a[key], b[key]) {
      MergeClaimReplay(a[key], b[key]);
    }
    forall key | key in b && key !in a ensures MergeClaim(b[key], b[key]) == b[key] {
      VersionOrder();
      AddLosersNothing(b[key].owner, b[key].losers, b[key].losers);
    }
  }

  lemma {:induction false} AddLosersNothing(owner: RowId, acc: seq<Loser>, losers: seq<Loser>)
    requires forall l | l in losers :: l.row == owner || HasRow(acc, l.row)
    ensures AddLosers(owner, acc, losers) == acc
  {
    if losers != [] {
      AddLosersNothing(owner, acc, losers[..|losers| - 1]);
    }
  }

  lemma MergeClaimReplay(e: Claim, o: Claim)
    ensures MergeClaim(MergeClaim(e, o), o) == MergeClaim(e, o)
  {
    VersionOrder();
    var m := MergeClaim(e, o);
    if Newer(o.version, e.version) {
      var all := e.losers + o.losers + [Loser(e.owner, e.version)];
      SortMembers(all);
      DedupMembers(SortByRow(all));
      WithoutMembers(DedupRuns(SortByRow(all)), o.owner);
      forall l | l in o.losers ensures l.row == m.owner || HasRow(m.losers, l.row) {
        assert l in all;
        assert HasRow(SortByRow(all), l.row);
        assert HasRow(DedupRuns(SortByRow(all)), l.row);
      }
    } else {
      var pushed := Loser(o.owner, o.version);
      var first := if o.owner != e.owner && !HasRow(e.losers, o.owner) then e.losers + [pushed] else e.losers;
      AddLosersMembers(e.owner, first, o.losers);
      if o.owner != e.owner {
        assert first == e.losers + [pushed] ==> pushed in first;
        assert HasRow(first, o.owner);
        assert HasRow(m.losers, o.owner);
      }
      forall l | l in o.losers ensures l.row == m.owner || HasRow(m.losers, l.row) {
        assert HasRow(o.losers, l.row);
      }
    }
    AddLosersNothing(m.owner, m.losers, o.losers);
  }

  // ------------------------------------------------------- the losers of a merge

  /** Rows in strictly increasing order. */
  predicate Ascending(losers: seq<Loser>) {
    forall i, j | 0 <= i < j < |losers| :: StrLess(losers[i].row, losers[j].row)
  }

  predicate Sorted(losers: seq<Loser>) {
    forall i, j | 0 <= i < j < |losers| :: !StrLess(losers[j].row, losers[i].row)
  }

  /** FirstLoser finds the first entry of the row. */
  lemma FirstLoserIs(losers: seq<Loser>, row: RowId, v: Version)
    ensures FirstLoser(losers, row) == Some(v) <==>
            exists i | 0 <= i < |losers| :: losers[i] == Loser(row, v) && !HasRow(losers[..i], row)
  {
    forall i | 0 <= i < |losers| && losers[i].row == row && !HasRow(losers[..i], row)
      ensures FirstLoser(losers, row) == Some(losers[i].version)
    {
      FirstOfBoth(losers[..i], losers[i..], row);
      assert losers == losers[..i] + losers[i..];
    }
    if FirstLoser(losers, row).Some? {
      var i := FirstPlace(losers, row);
    }
  }

  lemma {:induction false} FirstPlace(losers: seq<Loser>, row: RowId) returns (i: nat)
    requires HasRow(losers, row)
    ensures i < |losers| && losers[i].row == row && !HasRow(losers[..i], row)
  {
    if losers[0].row == row {
      i := 0;
    } else {
      assert losers == [losers[0]] + losers[1..];
      i := FirstPlace(losers[1..], row);
      assert losers[..i + 1] == [losers[0]] + losers[1..][..i];
      i := i + 1;
    }
  }

  lemma {:induction false} FirstOfBoth(a: seq<Loser>, b: seq<Loser>, row: RowId)
    ensures FirstLoser(a + b, row) == if FirstLoser(a, row).Some? then FirstLoser(a, row) else FirstLoser(b, row)
  {
    if a == [] {
      assert a + b == b;
    } else {
      FirstOfBoth(a[1..], b, row);
      assert (a + b)[1..] == a[1..] + b;
    }
  }

  lemma {:induction false} FirstWithout(losers: seq<Loser>, gone: RowId, row: RowId)
    ensures FirstLoser(Without(losers, gone), row) == if row == gone then None else FirstLoser(losers, row)
  {
    if losers != [] {
      var n := |losers| - 1;
      var last := if losers[n].row == gone then [] else [losers[n]];
      FirstWithout(losers[..n], gone, row);
      FirstOfBoth(Without(losers[..n], gone), last, row);
      FirstOfBoth(losers[..n], [losers[n]], row);
      assert losers == losers[..n] + [losers[n]];
    }
  }

  lemma {:induction false} InsertSorts(sorted: seq<Loser>, l: Loser)
    requires Sorted(sorted)
    ensures Sorted(InsertByRow(sorted, l))
  {
    StrOrder();
    if sorted != [] && !StrLess(l.row, sorted[0].row) {
      InsertSorts(sorted[1..], l);
      InsertMembers(sorted[1..], l);
      var rest := InsertByRow(sorted[1..], l);
      forall j | 0 <= j < |rest| ensures !StrLess(rest[j].row, sorted[0].row) {
        assert rest[j] in rest;
      }
    }
  }

  lemma StrOrder()
    ensures forall a, b {:trigger StrLess(a, b)} :: StrLess(a, b) ==> !StrLess(b, a) && a != b
    ensures forall a, b {:trigger StrLess(a, b)} :: a == b || StrLess(a, b) || StrLess(b, a)
    ensures forall a, b, c {:trigger StrLess(a, b), StrLess(b, c)} :: StrLess(a, b) && StrLess(b, c) ==> StrLess(a, c)
  {
    forall a, b
      ensures StrLess(a, b) ==> !StrLess(b, a) && a != b
      ensures a == b || StrLess(a, b) || StrLess(b, a)
    {
      StrTrichotomy(a, b);
    }
    forall a, b, c | StrLess(a, b) && StrLess(b, c) ensures StrLess(a, c) {
      StrTransitive(a, b, c);
    }
  }

  /** The sort is stable. */
  lemma {:induction false} FirstOfInsert(sorted: seq<Loser>, l: Loser, row: RowId)
    requires Sorted(sorted)
    ensures FirstLoser(InsertByRow(sorted, l), row) == FirstLoser(sorted + [l], row)
  {
    StrOrder();
    FirstOfBoth(sorted, [l], row);
    if sorted != [] {
      if StrLess(l.row, sorted[0].row) {
        assert ([l] + sorted)[1..] == sorted;
        forall e | e in sorted ensures e.row != l.row {
          var i :| 0 <= i < |sorted| && sorted[i] == e;
          assert i > 0 ==> !StrLess(sorted[i].row, sorted[0].row);
        }
      } else {
        FirstOfInsert(sorted[1..], l, row);
        FirstOfBoth(sorted[1..], [l], row);
      }
    }
  }

  lemma {:induction false} SortSorts(losers: seq<Loser>)
    ensures Sorted(SortByRow(losers))
  {
    if losers != [] {
      var n := |losers| - 1;
      SortSorts(losers[..n]);
      InsertSorts(SortByRow(losers[..n]), losers[n]);
    }
  }

  lemma FirstOfOneMore(sorted: seq<Loser>, losers: seq<Loser>, l: Loser, row: RowId)
    requires Sorted(sorted) && FirstLoser(sorted, row) == FirstLoser(losers, row)
    ensures FirstLoser(InsertByRow(sorted, l), row) == FirstLoser(losers + [l], row)
  {
    FirstOfInsert(sorted, l, row);
    FirstOfBoth(sorted, [l], row);
    FirstOfBoth(losers, [l], row);
    hide *;
  }

  lemma {:induction false} FirstOfSort(losers: seq<Loser>, row: RowId)
    ensures FirstLoser(SortByRow(losers), row) == FirstLoser(losers, row)
  {
    if losers != [] {
      var n := |losers| - 1;
      var rest := losers[..n];
      assert SortByRow(losers) == InsertByRow(SortByRow(rest), losers[n]) && losers == rest + [losers[n]];
      hide *;
      FirstOfSort(rest, row);
      SortSorts(rest);
      FirstOfOneMore(SortByRow(rest), rest, losers[n], row);
    }
  }

  lemma {:induction false} FirstOfDedup(losers: seq<Loser>)
    requires Sorted(losers)
    ensures Ascending(DedupRuns(losers))
    ensures forall row :: FirstLoser(DedupRuns(losers), row) == FirstLoser(losers, row)
    decreases |losers|
  {
    if |losers| >= 2 {
      if losers[0].row == losers[1].row {
        var rest := [losers[0]] + losers[2..];
        FirstOfDedup(rest);
        forall row ensures FirstLoser(rest, row) == FirstLoser(losers, row) {
          assert rest[1..] == losers[1..][1..];
        }
      } else {
        var rest := losers[1..];
        FirstOfDedup(rest);
        DedupMembers(rest);
        StrOrder();
        forall j | 0 <= j < |DedupRuns(rest)| ensures StrLess(losers[0].row, DedupRuns(rest)[j].row) {
          assert DedupRuns(rest)[j] in rest;
        }
      }
    }
  }

  lemma {:induction false} WithoutAscending(losers: seq<Loser>, row: RowId)
    requires Ascending(losers)
    ensures Ascending(Without(losers, row))
  {
    if losers != [] {
      var n := |losers| - 1;
      WithoutAscending(losers[..n], row);
      WithoutMembers(losers[..n], row);
      forall j | 0 <= j < |Without(losers[..n], row)|
          ensures StrLess(Without(losers[..n], row)[j].row, losers[n].row) {
        assert Without(losers[..n], row)[j] in losers[..n];
      }
    }
  }

  lemma {:induction false} FirstOfAdded(owner: RowId, acc: seq<Loser>, losers: seq<Loser>)
    ensures acc <= AddLosers(owner, acc, losers)
    ensures forall row :: FirstLoser(AddLosers(owner, acc, losers), row) ==
                          if FirstLoser(acc, row).Some? then FirstLoser(acc, row)
                          else if row == owner then None else FirstLoser(losers, row)
    ensures OncePerRow(AddLosers(owner, acc, losers), |acc|)
  {
    if losers != [] {
      var n := |losers| - 1;
      var l := losers[n];
      var sofar := AddLosers(owner, acc, losers[..n]);
      FirstOfAdded(owner, acc, losers[..n]);
      assert losers == losers[..n] + [l];
      forall i | 0 <= i <= |sofar| ensures (sofar + [l])[..i] == sofar[..i] {
      }
      forall row ensures FirstLoser(AddLosers(owner, acc, losers), row) ==
                         if FirstLoser(acc, row).Some? then FirstLoser(acc, row)
                         else if row == owner then None else FirstLoser(losers, row)
      {
        FirstOfBoth(losers[..n], [l], row);
        FirstOfBoth(sofar, [l], row);
      }
    }
  }

  /** From position n on no entry repeats the row of an entry before it. */
  predicate OncePerRow(losers: seq<Loser>, n: nat) {
    forall i | n <= i < |losers| :: !HasRow(losers[..i], losers[i].row)
  }

  /**
   The losers of a merged record. When the other side wins they are sorted, the new owner is out, and each other row
   keeps the first of its entries: the own ones, then those of the other side,
       then the demoted owner. When the incumbent
   stays its list is only extended, by the first entry of each row that is new.
   */
  lemma MergedLosers(e: Claim, o: Claim, row: RowId)
    ensures var m := MergeClaim(e, o);
            var all := e.losers + o.losers + [Loser(e.owner, e.version)];
            Newer(o.version, e.version) ==>
              Ascending(m.losers) && FirstLoser(m.losers, row) == if row == o.owner then None else FirstLoser(all, row)
    ensures var m := MergeClaim(e, o);
            !Newer(o.version, e.version) ==>
              && e.losers <= m.losers && OncePerRow(m.losers, |e.losers|)
              && FirstLoser(m.losers, row) == if FirstLoser(e.losers, row).Some? then FirstLoser(e.losers, row)
                                              else if row == e.owner then None
                                              else FirstLoser([Loser(o.owner, o.version)] + o.losers, row)
  {
    if Newer(o.version, e.version) {
      var all := e.losers + o.losers + [Loser(e.owner, e.version)];
      SortSorts(all);
      FirstOfSort(all, row);
      FirstOfDedup(SortByRow(all));
      FirstWithout(DedupRuns(SortByRow(all)), o.owner, row);
      WithoutAscending(DedupRuns(SortByRow(all)), o.owner);
    } else {
      IncumbentLosers(e, o, row);
    }
  }

  lemma IncumbentLosers(e: Claim, o: Claim, row: RowId)
    requires !Newer(o.version, e.version)
    ensures var m := MergeClaim(e, o);
            && e.losers <= m.losers && OncePerRow(m.losers, |e.losers|)
            && FirstLoser(m.losers, row) == if FirstLoser(e.losers, row).Some? then FirstLoser(e.losers, row)
                                            else if row == e.owner then None
                                            else FirstLoser([Loser(o.owner, o.version)] + o.losers, row)
  {
    var pushed := Loser(o.owner, o.version);
    var pushes := o.owner != e.owner && !HasRow(e.losers, o.owner);
    var first := if pushes then e.losers + [pushed] else e.losers;
    var m := MergeClaim(e, o);
    assert m.losers == AddLosers(e.owner, first, o.losers);
    FirstOfAdded(e.owner, first, o.losers);
    FirstOfBoth(e.losers, [pushed], row);
    FirstOfBoth([pushed], o.losers, row);
    assert FirstLoser([pushed], row) == if row == o.owner then Some(o.version) else None;
    FirstLoserListed(e.losers, row);
    assert OncePerRow(m.losers, |first|);
    hide FirstLoser, AddLosers, MergeClaim, HasRow;
    if pushes {
      assert m.losers[..|first|] == first && m.losers[..|e.losers|] == e.losers;
      assert m.losers[|e.losers|] == pushed;
    }
  }

  lemma FirstLoserListed(losers: seq<Loser>, row: RowId)
    ensures FirstLoser(losers, row).Some? <==> HasRow(losers, row)
  {
  }

  /** m has the owner of the newer side; a newly won owner is not listed, the incumbent is exactly if it was. */
  ghost predicate OwnerListing(e: Claim, o: Claim, m: Claim) {
    if Newer(o.version, e.version) then
      m.owner == o.owner && m.version == o.version && !HasRow(m.losers, m.owner)
    else
      m.owner == e.owner && m.version == e.version && (HasRow(m.losers, m.owner) <==> HasRow(e.losers, m.owner))
  }

  /** Merging never lists an owner that was not listed, and a winner taken from the other side is not listed. */
  lemma MergedOwner(e: Claim, o: Claim)
    ensures OwnerListing(e, o, MergeClaim(e, o))
  {
    MergedLosers(e, o, MergeClaim(e, o).owner);
  }
}
