/**
 The store of one node (`src/storage/memory.rs`): a two-level map from partition to key
 to value, and the set of operation identifiers already processed. Values and keys are
 the strings that travel between nodes.

 The first module gives the meaning of the node-local operations; the class updates its
 fields in place and is proved to follow it.
 */
module StorageSpec {
  import opened Common
  import opened NodeOrder
  import opened Placement

  type Key = string
  type Value = string
  type OpId = string
  type Data = map<nat, map<Key, Value>>

  const DEDUP_CAP := 10_000

  datatype Store = Store(data: Data, ops: set<OpId>)

  type Stores = map<NodeId, Store>

  function Part(d: Data, p: nat): map<Key, Value> {
    if p in d then d[p] else map[]
  }

  function Put(d: Data, p: nat, k: Key, v: Value): Data {
    d[p := Part(d, p)[k := v]]
  }

  /** The processed operations after a new one: forget all of them first when there are more than `cap`. */
  function Remember(ops: set<OpId>, op: OpId, cap: nat): set<OpId> {
    (if |ops| > cap then {} else ops) + {op}
  }

  /** A replica write: ignored when its operation was processed already. */
  function Replica(s: Store, p: nat, op: OpId, k: Key, v: Value, cap: nat): Store {
    if op in s.ops then s else Store(Put(s.data, p, k, v), Remember(s.ops, op, cap))
  }

  function ApplyEntries(d: Data, p: nat, entries: seq<(Key, Value)>): Data {
    if entries == [] then d
    else
      var last := entries[|entries| - 1];
      Put(ApplyEntries(d, p, entries[..|entries| - 1]), p, last.0, last.1)
  }

  /** `entries` lists the map: each key exactly once, with its value. */
  ghost predicate IsDump(entries: seq<(Key, Value)>, m: map<Key, Value>) {
    && (forall i, j :: 0 <= i < j < |entries| ==> entries[i].0 != entries[j].0)
    && (forall i :: 0 <= i < |entries| ==> entries[i].0 in m && m[entries[i].0] == entries[i].1)
    && (forall k :: k in m ==> exists i :: 0 <= i < |entries| && entries[i].0 == k)
  }

  /** The value under a key, looked up in the partition of the key's hash. */
  function Lookup(d: Data, hash: Key -> nat, k: Key): Option<Value> {
    var p := PartitionOfHash(hash(k));
    if k in Part(d, p) then Some(Part(d, p)[k]) else None
  }

  // ---- Owners under an agreed view ----

  /** The agreed view: the ring of alive nodes, the replication factor and the key hash. */
  datatype Config = Config(ring: seq<NodeId>, rf: nat, hash: Key -> nat)

  ghost predicate Proper(g: Config) {
    Distinct(g.ring) && g.ring != [] && g.rf >= 1
  }

  function PartOf(g: Config, k: Key): nat {
    PartitionOfHash(g.hash(k))
  }

  function OwnersOf(g: Config, p: nat): (owners: seq<NodeId>)
    requires Proper(g)
    ensures owners != [] && Distinct(owners) && forall o :: o in owners ==> o in g.ring
  {
    RingOwnersDistinct(g.ring, g.rf, p);
    var owners := RingOwners(g.ring, g.rf, p);
    assert forall o :: o in owners ==> o in Elements(owners);
    owners
  }

  function PrimaryOf(g: Config, p: nat): NodeId
    requires Proper(g)
  {
    OwnersOf(g, p)[0]
  }

  function BackupsOf(g: Config, p: nat): seq<NodeId>
    requires Proper(g)
  {
    OwnersOf(g, p)[1..]
  }

  /** Whom a node asks for a partition it owns: a backup asks the primary; an empty primary asks the first backup. */
  function SyncSource(g: Config, at: NodeId, p: nat, d: Data): Option<NodeId>
    requires Proper(g)
  {
    if at == PrimaryOf(g, p) then
      if Part(d, p) == map[] && BackupsOf(g, p) != [] then Some(BackupsOf(g, p)[0]) else None
    else if at in BackupsOf(g, p) then Some(PrimaryOf(g, p))
    else None
  }

  /** A partition after a sync round. */
  function SyncedPart(g: Config, at: NodeId, peers: Stores, d: Data, p: nat): map<Key, Value>
    requires Proper(g)
  {
    var source := SyncSource(g, at, p, d);
    if p < NUM_PARTITIONS && source.Some? && source.value in peers then Part(d, p) + Part(peers[source.value].data, p)
    else Part(d, p)
  }

  /** The data after a round; no partition is created for nothing. */
  ghost predicate IsSynced(g: Config, at: NodeId, peers: Stores, d: Data, d': Data)
    requires Proper(g)
  {
    && (forall p :: Part(d', p) == SyncedPart(g, at, peers, d, p))
    && (forall p :: p in d' <==> p in d || Part(d', p) != map[])
  }

  /** The data in the middle of a round: the partitions in `done` are synced. */
  ghost predicate SyncedAt(g: Config, at: NodeId, peers: Stores, d: Data, d': Data, done: set<nat>)
    requires Proper(g)
  {
    && (forall p: nat :: Part(d', p) == if p in done then SyncedPart(g, at, peers, d, p) else Part(d, p))
    && (forall p: nat :: p in d' <==> p in d || Part(d', p) != map[])
  }

  /** One partition is synced, and nothing else changes. */
  ghost predicate SyncsOne(g: Config, at: NodeId, peers: Stores, d: Data, d': Data, p: nat)
    requires Proper(g)
  {
    && Part(d', p) == SyncedPart(g, at, peers, d, p)
    && (forall q: nat :: q != p ==> Part(d', q) == Part(d, q))
    && (forall q: nat :: q in d' <==> q in d || (q == p && Part(d', p) != map[]))
  }

  lemma SyncedAtStep(g: Config, at: NodeId, peers: Stores, d: Data, mid: Data, d': Data, done: set<nat>, p: nat)
    requires Proper(g) && SyncedAt(g, at, peers, d, mid, done) && p !in done && SyncsOne(g, at, peers, mid, d', p)
    ensures SyncedAt(g, at, peers, d, d', done + {p})
  {
    SyncedPartIs(g, at, peers, mid, d, p);
    forall q: nat ensures Part(d', q) == if q in done + {p} then SyncedPart(g, at, peers, d, q) else Part(d, q) {
      assert q != p ==> Part(d', q) == Part(mid, q);
    }
    forall q: nat ensures q in d' <==> q in d || Part(d', q) != map[] {
      assert q in mid <==> q in d || Part(mid, q) != map[];
    }
  }

  /** What a sync makes of a partition depends on that partition only. */
  lemma SyncedPartIs(g: Config, at: NodeId, peers: Stores, d: Data, d': Data, p: nat)
    requires Proper(g) && Part(d, p) == Part(d', p)
    ensures SyncedPart(g, at, peers, d, p) == SyncedPart(g, at, peers, d', p)
  {
  }

  lemma SyncedAtAll(g: Config, at: NodeId, peers: Stores, d: Data, d': Data, done: set<nat>)
    requires Proper(g) && SyncedAt(g, at, peers, d, d', done)
    requires forall p: nat :: p < NUM_PARTITIONS && at in OwnersOf(g, p) ==> p in done
    ensures IsSynced(g, at, peers, d, d')
  {
    forall p: nat | p !in done ensures SyncedPart(g, at, peers, d, p) == Part(d, p) {
      assert PrimaryOf(g, p) in OwnersOf(g, p);
      assert forall b :: b in BackupsOf(g, p) ==> b in OwnersOf(g, p);
    }
  }

  /** The first of `order` that answers with a value for the key. */
  function FirstHit(nodes: Stores, order: seq<NodeId>, up: set<NodeId>, p: nat, k: Key): Option<Value> {
    if order == [] then None
    else if order[0] in up && order[0] in nodes && k in Part(nodes[order[0]].data, p) then
      Some(Part(nodes[order[0]].data, p)[k])
    else FirstHit(nodes, order[1..], up, p, k)
  }

  /** A read at `at`: the local copy, else the owners that are up, in order. */
  function Read(g: Config, nodes: Stores, at: NodeId, up: set<NodeId>, k: Key): Option<Value>
    requires Proper(g) && at in nodes
  {
    var p := PartOf(g, k);
    if k in Part(nodes[at].data, p) then Some(Part(nodes[at].data, p)[k])
    else FirstHit(nodes, OwnersOf(g, p), up, p, k)
  }

  // ---- The two levels behave as one map ----

  /** Every key is stored only under the partition of its hash. */
  ghost predicate Filed(d: Data, hash: Key -> nat) {
    forall p, k :: p in d && k in d[p] ==> p == PartitionOfHash(hash(k))
  }

  function AllKeys(d: Data): set<Key> {
    set p, k | p in d && k in d[p] :: k
  }

  /** The value of a key in some partition that holds it. */
  ghost function Anywhere(d: Data, k: Key): Value
    requires k in AllKeys(d)
  {
    var p :| p in d && k in d[p];
    d[p][k]
  }

  /** The union of all partitions. */
  ghost function Flat(d: Data): map<Key, Value> {
    map k | k in AllKeys(d) :: Anywhere(d, k)
  }

  /** Every stored entry is in the union, with its own value. */
  lemma FlatIsComplete(d: Data, hash: Key -> nat, p: nat, k: Key)
    requires Filed(d, hash) && p in d && k in d[p]
    ensures k in Flat(d) && Flat(d)[k] == d[p][k]
  {
    assert k in AllKeys(d);
    assert forall q: nat :: q in d && k in d[q] ==> q == PartitionOfHash(hash(k));
    assert Anywhere(d, k) == d[p][k];
  }

  /** Looking a key up in the partition of its hash is looking it up in the union. */
  lemma LookupRefinesFlat(d: Data, hash: Key -> nat, k: Key)
    requires Filed(d, hash)
    ensures Lookup(d, hash, k) == if k in Flat(d) then Some(Flat(d)[k]) else None
  {
    var p := PartitionOfHash(hash(k));
    if k in AllKeys(d) {
      var q :| q in d && k in d[q];
      FlatIsComplete(d, hash, q, k);
    }
    if k in Part(d, p) { assert p in d && k in d[p] && k in AllKeys(d); }
  }

  /** Writing under the right partition keeps the filing and is an update of the union. */
  lemma PutRefinesFlat(d: Data, hash: Key -> nat, k: Key, v: Value)
    requires Filed(d, hash)
    ensures var d' := Put(d, PartitionOfHash(hash(k)), k, v);
            Filed(d', hash) && Flat(d') == Flat(d)[k := v]
  {
    var p := PartitionOfHash(hash(k));
    var d' := Put(d, p, k, v);
    forall x ensures x in Flat(d') <==> x in Flat(d)[k := v] {
      LookupRefinesFlat(d, hash, x);
      LookupRefinesFlat(d', hash, x);
    }
    forall x | x in Flat(d') ensures Flat(d')[x] == Flat(d)[k := v][x] {
      LookupRefinesFlat(d, hash, x);
      LookupRefinesFlat(d', hash, x);
    }
  }

  // ---- Applying a dump ----

  lemma {:induction false} ApplyOther(d: Data, p: nat, entries: seq<(Key, Value)>, q: nat)
    requires q != p
    ensures Part(ApplyEntries(d, p, entries), q) == Part(d, q)
  {
    if entries != [] { ApplyOther(d, p, entries[..|entries| - 1], q); }
  }

  lemma {:induction false} ApplyKeys(d: Data, p: nat, entries: seq<(Key, Value)>)
    ensures ApplyEntries(d, p, entries).Keys == d.Keys + (if entries == [] then {} else {p})
    ensures entries != [] ==> Part(ApplyEntries(d, p, entries), p) != map[]
  {
    if entries != [] {
      var init, last := entries[..|entries| - 1], entries[|entries| - 1];
      ApplyKeys(d, p, init);
      assert last.0 in Part(ApplyEntries(d, p, entries), p);
    }
  }

  /** The value an entry list gives a key last, if any. */
  lemma {:induction false} ApplyPart(d: Data, p: nat, entries: seq<(Key, Value)>, k: Key)
    requires forall i, j :: 0 <= i < j < |entries| ==> entries[i].0 != entries[j].0
    ensures var after := Part(ApplyEntries(d, p, entries), p);
            && (forall i :: 0 <= i < |entries| && entries[i].0 == k ==> k in after && after[k] == entries[i].1)
            && ((forall i :: 0 <= i < |entries| ==> entries[i].0 != k) ==>
                  (k in after <==> k in Part(d, p)) && (k in after ==> after[k] == Part(d, p)[k]))
  {
    if entries != [] { ApplyPart(d, p, entries[..|entries| - 1], k); }
  }

  /** Applying a dump overlays it on the partition and touches no other. */
  lemma ApplyDump(d: Data, p: nat, entries: seq<(Key, Value)>, m: map<Key, Value>)
    requires IsDump(entries, m)
    ensures Part(ApplyEntries(d, p, entries), p) == Part(d, p) + m
    ensures forall q :: q != p ==> Part(ApplyEntries(d, p, entries), q) == Part(d, q)
  {
    var after := Part(ApplyEntries(d, p, entries), p);
    forall k ensures (k in after <==> k in Part(d, p) + m) && (k in after ==> after[k] == (Part(d, p) + m)[k]) {
      ApplyPart(d, p, entries, k);
    }
    forall q | q != p ensures Part(ApplyEntries(d, p, entries), q) == Part(d, q) {
      ApplyOther(d, p, entries, q);
    }
  }
}

module Storage {
  import opened Common
  import opened NodeOrder
  import opened Placement
  import opened StorageSpec

  class DistributedMap {
    const me: NodeId
    const g: Config
    var localData: Data
    var processedOps: set<OpId>

    ghost function State(): Store
      reads this
    {
      Store(localData, processedOps)
    }

    constructor (me: NodeId, g: Config)
      ensures this.me == me && this.g == g && State() == Store(map[], {})
    {
      this.me, this.g := me, g;
      localData, processedOps := map[], {};
    }

    /** Whether an operation is new here; a new one is recorded. */
    method ShouldProcess(op: OpId) returns (isNew: bool)
      modifies this`processedOps
      ensures isNew <==> op !in old(processedOps)
      ensures processedOps == if isNew then Remember(old(processedOps), op, DEDUP_CAP) else old(processedOps)
      ensures isNew ==> processedOps == if |old(processedOps)| > 10_000 then {op} else old(processedOps) + {op}
    {
      if op in processedOps {
        return false;
      }
      if |processedOps| > DEDUP_CAP {
        processedOps := {};
      }
      processedOps := processedOps + {op};
      return true;
    }

    method StoreLocal(p: nat, k: Key, v: Value)
      modifies this`localData
      ensures localData == Put(old(localData), p, k, v)
    {
      if p !in localData {
        localData := localData[p := map[]];
      }
      localData := localData[p := localData[p][k := v]];
    }

    method StoreReplica(p: nat, op: OpId, k: Key, v: Value)
      modifies this`localData, this`processedOps
      ensures State() == Replica(old(State()), p, op, k, v, DEDUP_CAP)
    {
      var isNew := ShouldProcess(op);
      if !isNew {
        return;
      }
      StoreLocal(p, k, v);
    }

    /** All entries of a partition, in the iteration order of the map. */
    method DumpPartition(p: nat) returns (entries: seq<(Key, Value)>)
      ensures IsDump(entries, Part(localData, p))
    {
      entries := DumpMap(Part(localData, p));
    }

    method HasPartition(p: nat) returns (has: bool)
      ensures has <==> Part(localData, p) != map[]
    {
      has := p in localData && localData[p] != map[];
    }

    method ApplyPartitionEntries(p: nat, entries: seq<(Key, Value)>)
      modifies this`localData
      ensures localData == ApplyEntries(old(localData), p, entries)
    {
      ghost var before := localData;
      for i := 0 to |entries|
        invariant localData == ApplyEntries(before, p, entries[..i])
      {
        assert entries[..i + 1][..i] == entries[..i];
        StoreLocal(p, entries[i].0, entries[i].1);
      }
      assert entries[..|entries|] == entries;
    }

    method GetLocal(k: Key) returns (v: Option<Value>)
      ensures v == Lookup(localData, g.hash, k)
    {
      var p := PartOf(g, k);
      if p in localData && k in localData[p] {
        return Some(localData[p][k]);
      }
      return None;
    }

    /** Distributed read; `peers` are the other nodes' stores and `up` the nodes that answer in time. */
    method Get(peers: Stores, up: set<NodeId>, k: Key) returns (v: Option<Value>)
      requires Proper(g)
      ensures v == Read(g, peers[me := State()], me, up, k)
    {
      var p := PartOf(g, k);
      if p in localData && k in localData[p] {
        return Some(localData[p][k]);
      }
      ghost var nodes := peers[me := State()];
      var owners := OwnersOf(g, p);
      var rest := owners[1..];
      if owners[0] != me {
        if owners[0] in up && owners[0] in peers && k in Part(peers[owners[0]].data, p) {
          return Some(Part(peers[owners[0]].data, p)[k]);
        }
      }
      for i := 0 to |rest|
        invariant Read(g, nodes, me, up, k) == FirstHit(nodes, rest[i..], up, p, k)
      {
        // A node that is itself a backup asks itself too, in vain.
        if rest[i] != me && rest[i] in up && rest[i] in peers && k in Part(peers[rest[i]].data, p) {
          return Some(Part(peers[rest[i]].data, p)[k]);
        }
        assert rest[i..][1..] == rest[i + 1..];
      }
      return None;
    }

    /** Refreshes one owned partition from its source, if it has one that answers. */
    method SyncPartition(peers: Stores, p: nat)
      requires Proper(g) && p < NUM_PARTITIONS && me in OwnersOf(g, p)
      modifies this`localData
      ensures SyncsOne(g, me, peers, old(localData), localData, p)
    {
      var owners := OwnersOf(g, p);
      var source: Option<NodeId>;
      if owners[0] == me {
        var has := HasPartition(p);
        source := if has || |owners| == 1 then None else Some(owners[1]);
      } else {
        source := Some(owners[0]);
      }
      if source.Some? && source.value in peers {
        var entries := DumpMap(Part(peers[source.value].data, p));
        ApplyDump(localData, p, entries, Part(peers[source.value].data, p));
        ApplyKeys(localData, p, entries);
        if entries != [] {
          ApplyPartitionEntries(p, entries);
        }
      }
    }

    /**
     One anti-entropy round: for every owned partition, a backup overlays the primary's entries, and a primary that
     has none takes the first backup's. `peers` are the stores of the nodes that answer.
     */
    method SyncPartitions(peers: Stores)
      requires Proper(g)
      modifies this`localData
      ensures IsSynced(g, me, peers, old(localData), localData)
    {
      ghost var before := localData;
      ghost var done: set<nat> := {};
      var targets := set p: nat | p < NUM_PARTITIONS && me in OwnersOf(g, p);
      var todo := targets;
      while todo != {}
        invariant Splits(targets, todo, done) && SyncedAt(g, me, peers, before, localData, done)
        decreases todo
      {
        var p :| p in todo;
        ghost var mid := localData;
        SplitsStep(targets, todo, done, p);
        SyncPartition(peers, p);
        SyncedAtStep(g, me, peers, before, mid, localData, done, p);
        todo := todo - {p};
        done := done + {p};
      }
      SplitsEnd(targets, done);
      SyncedAtAll(g, me, peers, before, localData, done);
    }
  }

  /** Lists a map, in any order. */
  method DumpMap(m: map<Key, Value>) returns (entries: seq<(Key, Value)>)
    ensures IsDump(entries, m)
  {
    entries := [];
    var todo := m.Keys;
    while todo != {}
      invariant todo <= m.Keys
      invariant forall i :: 0 <= i < |entries| ==>
                  entries[i].0 in m && entries[i].0 !in todo && entries[i].1 == m[entries[i].0]
      invariant forall i, j :: 0 <= i < j < |entries| ==> entries[i].0 != entries[j].0
      invariant forall k :: k in m && k !in todo ==> exists i :: 0 <= i < |entries| && entries[i].0 == k
    {
      var k :| k in todo;
      ghost var before := entries;
      entries := entries + [(k, m[k])];
      todo := todo - {k};
      forall x | x in m && x !in todo ensures exists i :: 0 <= i < |entries| && entries[i].0 == x {
        if x == k {
          assert entries[|before|].0 == x;
        } else {
          var i :| 0 <= i < |before| && before[i].0 == x;
          assert entries[i].0 == x;
        }
      }
    }
  }
}
