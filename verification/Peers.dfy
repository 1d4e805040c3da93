/** The peers of one process, each with its replica and its indexes. */
module Peers {
  import opened Types
  import opened Storage
  import opened Index

  /** The rows of one table in some order. */
  method ListRows(storage: StorageEngine, t: TableId) returns (rows: seq<Row>)
    ensures RowSet(rows) == TableRows(storage.rows, t)
  {
    rows := [];
    var todo := storage.KeysOf(t);
    while todo != {}
      invariant todo <= storage.KeysOf(t)
      invariant RowSet(rows) == set k | k in storage.KeysOf(t) && k !in todo :: storage.rows[k]
    {
      var k :| k in todo;
      todo := todo - {k};
      var row := storage.rows[k];
      assert RowSet(rows + [row]) == RowSet(rows) + {row};
      rows := rows + [row];
    }
  }

  /** Rebuilds the indexes of every stored table. */
  method RebuildAll(m: IndexManager, storage: StorageEngine)
    requires m.Valid()
    modifies m.Owned()
    ensures forall t | t in storage.names :: m.Agrees(storage.rows, t)
  {
    hide IndexOf, TableRows;
    var todo := storage.names;
    while todo != {}
      invariant todo <= storage.names
      invariant forall n | n in m.indexes && n.table in storage.names - todo ::
                  m.indexes[n].entries == IndexOf(m.indexes[n].columns, TableRows(storage.rows, n.table))
    {
      var t :| t in todo;
      var rows := ListRows(storage, t);
      m.RebuildTable(t, rows);
      todo := todo - {t};
    }
  }

  /** Peers are kept under their own ids, within the given objects, and share no state. */
  ghost predicate PeersApart(peers: map<PeerId, ReplicaState>, replicas: set<object>)
    reads replicas
  {
    && (forall p | p in peers :: peers[p].Repr() <= replicas && peers[p].Valid() && peers[p].peer == p)
    && (forall p, q | p in peers && q in peers && p != q :: peers[p].Repr() !! peers[q].Repr())
  }

  /** Every peer has indexes of its own. */
  ghost predicate IndexesApart(indexes: map<PeerId, IndexManager>, managers: set<object>, entries: set<object>)
    reads managers
  {
    && (forall p | p in indexes :: indexes[p] in managers && indexes[p].Valid() && indexes[p].Owned() <= entries)
    && (forall p, q | p in indexes && q in indexes && p != q :: indexes[p].Owned() !! indexes[q].Owned())
  }

  class EngineHost {
    const peers: map<PeerId, ReplicaState>
    const indexes: map<PeerId, IndexManager>

    /** The objects of all replicas, the index managers and the indexes. */
    ghost const replicas: set<object>
    ghost const managers: set<object>
    ghost const entries: set<object>

    ghost predicate PeersValid()
      reads replicas
    {
      PeersApart(peers, replicas)
    }

    ghost predicate IndexesValid()
      reads managers
    {
      peers.Keys == indexes.Keys && IndexesApart(indexes, managers, entries)
    }

    ghost predicate Valid()
      reads replicas, managers
    {
      PeersValid() && IndexesValid() && managers !! replicas && entries !! replicas && entries !! managers
    }

    ghost function Views(): map<PeerId, Replica>
      requires PeersValid()
      reads replicas
    {
      map p | p in peers :: peers[p].View()
    }

    /** The peer's indexes of all stored tables are the rebuilt ones. */
    ghost predicate Indexed(p: PeerId)
      requires p in peers && p in indexes
      reads peers[p].storage, indexes[p], indexes[p].Owned()
    {
      forall t | t in peers[p].storage.names :: indexes[p].Agrees(peers[p].storage.rows, t)
    }

    constructor (peers: map<PeerId, ReplicaState>, indexes: map<PeerId, IndexManager>,
                 ghost replicas: set<object>, ghost managers: set<object>, ghost entries: set<object>)
      requires peers.Keys == indexes.Keys && PeersApart(peers, replicas) && IndexesApart(indexes, managers, entries)
      requires managers !! replicas && entries !! replicas && entries !! managers
      ensures Valid() && this.peers == peers && this.indexes == indexes
    {
      hide PeersApart, IndexesApart;
      this.peers, this.indexes := peers, indexes;
      this.replicas, this.managers, this.entries := replicas, managers, entries;
    }

    /** What belongs to p is valid and part of the whole. */
    lemma Parts(p: PeerId)
      requires Valid() && p in peers
      ensures p in indexes && peers[p].Valid() && peers[p].peer == p && indexes[p].Valid() && indexes[p] in managers
      ensures peers[p].Repr() <= replicas && indexes[p].Owned() <= entries
      ensures managers !! replicas && entries !! replicas && entries !! managers
      ensures managers !! peers[p].Repr() && managers !! indexes[p].Owned() && replicas !! indexes[p].Owned()
      ensures p in Views() && Views()[p] == peers[p].View() && Views().Keys == peers.Keys
    {
    }

    lemma ReplicaParts(p: PeerId)
      requires PeersValid() && p in peers
      ensures peers[p].Valid() && peers[p].peer == p && peers[p].Repr() <= replicas
      ensures p in Views() && Views()[p] == peers[p].View() && peers[p].View().frontier == peers[p].frontier
      ensures Views().Keys == peers.Keys
    {
    }

    lemma OtherParts(p: PeerId, q: PeerId)
      requires Valid() && p in peers && q in peers && p != q
      ensures peers[q].Repr() !! peers[p].Repr() && peers[q].Repr() !! indexes[p].Owned()
      ensures peers[q].storage !in peers[p].Repr() && indexes[q] !in peers[p].Repr()
      ensures indexes[q].Owned() !! peers[p].Repr()
      ensures peers[q].storage !in indexes[p].Owned() && indexes[q] !in indexes[p].Owned()
      ensures indexes[q].Owned() !! indexes[p].Owned()
    {
      Parts(p);
      Parts(q);
      assert peers[q].storage in peers[q].Repr();
    }

    /** A host whose other peers are as before has all its peers valid, with one view replaced. */
    lemma ViewsAre(p: PeerId, before: map<PeerId, Replica>)
      requires p in peers && peers[p].Valid() && peers[p].peer == p && before.Keys == peers.Keys
      requires forall q | q in peers :: peers[q].Repr() <= replicas
      requires forall q, o | q in peers && o in peers && q != o :: peers[q].Repr() !! peers[o].Repr()
      requires forall q | q in peers && q != p :: peers[q].Valid() && peers[q].peer == q && peers[q].View() == before[q]
      ensures PeersValid() && Views() == before[p := peers[p].View()]
    {
    }

    lemma ValidIs()
      ensures Valid() <==>
              PeersValid() && IndexesValid() && managers !! replicas && entries !! replicas && entries !! managers
    {
      hide PeersApart, IndexesApart;
    }

    lemma IndexedIs(p: PeerId)
      requires p in peers && p in indexes
      ensures Indexed(p) <==> forall t | t in peers[p].storage.names :: indexes[p].Agrees(peers[p].storage.rows, t)
    {
      hide IndexManager.Agrees;
    }

    /** One peer rebuilds its indexes; no replica changes. */
    method RebuildAt(p: PeerId)
      requires Valid() && p in peers
      modifies indexes[p].Owned()
      ensures PeersValid() && IndexesValid() && Indexed(p)
      ensures Views() == old(Views())
    {
      Parts(p);
      hide *;
      RebuildAll(indexes[p], peers[p].storage);
      IndexedIs(p);
    }
  }
}
