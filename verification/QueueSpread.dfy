/**
 How a submitted task spreads: in a continuation that delivers its messages, it is pending at exactly its owners.
 Dumps spread what a node holds in the same way.
 */
module QueueSpread {
  import opened Common
  import opened NodeOrder
  import opened Placement
  import opened QueueSpec
  import opened QueueCluster
  import opened QueueLaws
  import QueueSafety

  /** Some run leads from `c` to `d`. */
  ghost predicate Reaches(c: Cluster, hash: Hash, d: Cluster) {
    exists steps :: RunFrom(c, hash, steps) == d
  }

  lemma ReachesNext(c: Cluster, hash: Hash, d: Cluster, s: Step)
    requires Reaches(c, hash, d)
    ensures Reaches(c, hash, Apply(d, hash, s))
  {
    var steps :| RunFrom(c, hash, steps) == d;
    QueueSafety.RunSnoc(c, hash, steps, s);
    assert RunFrom(c, hash, steps + [s]) == Apply(d, hash, s);
  }

  ghost function EntryAt(c: Cluster, hash: Hash, n: NodeId, id: TaskId): Option<TaskEntry>
    requires n in c.nodes
  {
    Find(c.nodes[n].tasks, hash, id)
  }

  /** From `c` to `d` the nodes of `who` that did not know the task have come to hold it as `e`; nobody else changed it. */
  ghost predicate Learned(c: Cluster, d: Cluster, hash: Hash, id: TaskId, e: TaskEntry, who: set<NodeId>) {
    && d.nodes.Keys == c.nodes.Keys
    && forall n :: n in c.nodes ==>
         EntryAt(d, hash, n, id) == if EntryAt(c, hash, n, id).None? && n in who then Some(e) else EntryAt(c, hash, n, id)
  }

  lemma LearnedMore(c: Cluster, d: Cluster, d': Cluster, hash: Hash, id: TaskId, e: TaskEntry, who: set<NodeId>, n: NodeId)
    requires Learned(c, d, hash, id, e, who) && Learned(d, d', hash, id, e, {n})
    ensures Learned(c, d', hash, id, e, who + {n})
  {
  }

  lemma InsertLearns(c: Cluster, d: Cluster, hash: Hash, n: NodeId, id: TaskId, e: TaskEntry)
    requires n in c.nodes && d.nodes == c.nodes[n := c.nodes[n].(tasks := InsertTask(c.nodes[n].tasks, PartOf(hash, id), id, e))]
    ensures Learned(c, d, hash, id, e, {n})
  {
    InsertIs(c.nodes[n].tasks, PartOf(hash, id), id, e);
  }

  /** The replicas of the entry for the backups `owners[1..]` are on their way. */
  ghost predicate Replicating(c: Cluster, owners: seq<NodeId>, p: nat, id: TaskId, e: TaskEntry) {
    forall i :: 1 <= i < |owners| ==> Replicate(owners[i], p, id, e) in c.sent
  }

  ghost function First(owners: seq<NodeId>, k: nat): set<NodeId> {
    set i | 0 <= i < k && i < |owners| :: owners[i]
  }

  lemma ReplicaArrives(c0: Cluster, c: Cluster, hash: Hash, n: NodeId, id: TaskId, e: TaskEntry, who: set<NodeId>)
    returns (d: Cluster)
    requires Reaches(c0, hash, c) && n in c.nodes && Replicate(n, PartOf(hash, id), id, e) in c.sent
    requires Learned(c0, c, hash, id, e, who)
    ensures Reaches(c0, hash, d) && Learned(c0, d, hash, id, e, who + {n}) && d.nodes.Keys == c.nodes.Keys && d.sent == c.sent
  {
    var s := Deliver(Replicate(n, PartOf(hash, id), id, e), 0, [], 1, []);
    ReachesNext(c0, hash, c, s);
    d := Apply(c, hash, s);
    InsertLearns(c, d, hash, n, id, e);
    LearnedMore(c0, c, d, hash, id, e, who, n);
  }

  lemma FirstNext(owners: seq<NodeId>, k: nat)
    requires k < |owners|
    ensures First(owners, k + 1) == First(owners, k) + {owners[k]}
  {
  }

  /** The first `k` owners have it. */
  lemma {:induction false} ReplicasArrive(c0: Cluster, c: Cluster, hash: Hash, owners: seq<NodeId>, id: TaskId, e: TaskEntry, k: nat)
    returns (d: Cluster)
    requires 1 <= k <= |owners| && (forall i :: 0 <= i < |owners| ==> owners[i] in c.nodes)
    requires Reaches(c0, hash, c) && Learned(c0, c, hash, id, e, First(owners, 1)) && Replicating(c, owners, PartOf(hash, id), id, e)
    ensures Reaches(c0, hash, d) && Learned(c0, d, hash, id, e, First(owners, k)) && d.nodes.Keys == c.nodes.Keys && d.sent == c.sent
  {
    d := c;
    if k > 1 {
      d := ReplicasArrive(c0, c, hash, owners, id, e, k - 1);
      assert Replicate(owners[k - 1], PartOf(hash, id), id, e) in d.sent;
      d := ReplicaArrives(c0, d, hash, owners[k - 1], id, e, First(owners, k - 1));
      FirstNext(owners, k - 1);
    }
  }

  /** A submission reaches the primary, which stores it and sends the replicas. */
  lemma ReachesPrimary(c: Cluster, hash: Hash, at: NodeId, id: TaskId, task: Task, now: nat, ring: seq<NodeId>, rf: nat)
    returns (d: Cluster)
    requires ring != [] && rf >= 1 && at in c.nodes
    requires var owners := RingOwners(ring, rf, PartOf(hash, id)); owners != [] && owners[0] in c.nodes
    ensures var owners, e := RingOwners(ring, rf, PartOf(hash, id)), TaskEntry(task, Pending, None, now, None);
            && Reaches(c, hash, d) && Learned(c, d, hash, id, e, {owners[0]})
            && Replicating(d, owners, PartOf(hash, id), id, e)
  {
    var p, owners, submit := PartOf(hash, id), RingOwners(ring, rf, PartOf(hash, id)), Submit(at, id, task, now, ring, rf);
    assert RunFrom(c, hash, []) == c;
    ReachesNext(c, hash, c, submit);
    d := Apply(c, hash, submit);
    if owners[0] != at {
      var s := Deliver(Forward(owners[0], p, id, task), now, ring, rf, []);
      ReachesNext(c, hash, d, s);
      d := Apply(d, hash, s);
    }
    InsertLearns(c, d, hash, owners[0], id, NewEntry(task, now));
  }

  /**
   Wherever a task is submitted, if the nodes involved agree on the ring there is a continuation after which the owners
   that did not know it, and no other nodes, hold it as it was submitted, pending.
   */
  lemma SubmittedReachesOwners(c: Cluster, hash: Hash, at: NodeId, id: TaskId, task: Task, now: nat, ring: seq<NodeId>, rf: nat)
    returns (steps: seq<Step>)
    requires ring != [] && rf >= 1 && at in c.nodes && forall o :: o in ring ==> o in c.nodes
    ensures Learned(c, RunFrom(c, hash, steps), hash, id, TaskEntry(task, Pending, None, now, None),
                    set o | o in RingOwners(ring, rf, PartOf(hash, id)))
  {
    var owners, e := RingOwners(ring, rf, PartOf(hash, id)), TaskEntry(task, Pending, None, now, None);
    PrimaryAt(ring, rf, PartOf(hash, id));
    forall o | o in owners ensures o in c.nodes {
      var i: nat :| i < |owners| && owners[i] == o;
      OwnerAt(ring, rf, PartOf(hash, id), i);
    }
    assert owners[0] in owners;
    assert First(owners, 1) == {owners[0]};
    var mid := ReachesPrimary(c, hash, at, id, task, now, ring, rf);
    var d := ReplicasArrive(c, mid, hash, owners, id, e, |owners|);
    assert First(owners, |owners|) == set o | o in owners;
    steps :| RunFrom(c, hash, steps) == d;
  }

  /** Whatever a node holds of a task, any other can come to hold the same by asking for its partition, if it does not know it. */
  lemma DumpSpreads(c: Cluster, hash: Hash, source: NodeId, requester: NodeId, id: TaskId) returns (steps: seq<Step>)
    requires source in c.nodes && requester in c.nodes && EntryAt(c, hash, source, id).Some?
    ensures Learned(c, RunFrom(c, hash, steps), hash, id, EntryAt(c, hash, source, id).value, {requester})
  {
    var p, e := PartOf(hash, id), EntryAt(c, hash, source, id).value;
    var ask, fetch := RequestSync(requester, source, p), Deliver(Fetch(requester, source, p), 0, [], 1, [(id, e)]);
    var dump := Deliver(Dump(requester, p, [(id, e)]), 0, [], 1, []);
    assert RunFrom(c, hash, []) == c;
    ReachesNext(c, hash, c, ask);
    var c1 := Apply(c, hash, ask);
    ReachesNext(c, hash, c1, fetch);
    var c2 := Apply(c1, hash, fetch);
    ReachesNext(c, hash, c2, dump);
    var d := Apply(c2, hash, dump);
    DumpLearns(c.nodes[requester].tasks, hash, id, e);
    var q := c.nodes[requester];
    assert c2.nodes == c.nodes && d.nodes == c.nodes[requester := q.(tasks := InsertTasks(q.tasks, p, [(id, e)]))];
    steps :| RunFrom(c, hash, steps) == d;
  }

  lemma DumpLearns(t: Tasks, hash: Hash, id: TaskId, e: TaskEntry)
    ensures Find(InsertTasks(t, PartOf(hash, id), [(id, e)]), hash, id)
         == if Find(t, hash, id).None? then Some(e) else Find(t, hash, id)
  {
    var p := PartOf(hash, id);
    assert [(id, e)][..0] == [];
    assert InsertTasks(t, p, [(id, e)]) == InsertTask(InsertTasks(t, p, []), p, id, e);
  }
}
