/**
 What the operations of the task queue do to the table of a node, entry by entry: the requirements of
 `src/executor/queue.rs`, stated on the table alone.
 */
module QueueLaws {
  import opened Common
  import opened NodeOrder
  import opened Placement
  import opened QueueSpec
  import opened Queue

  /** The task `id` is stored as `e` in partition `p`. */
  ghost predicate Stored(t: Tasks, p: nat, id: TaskId, e: TaskEntry) {
    p in t && id in t[p] && t[p][id] == e
  }

  ghost predicate Unknown(t: Tasks, p: nat, id: TaskId) {
    !(p in t && id in t[p])
  }

  /** Every other entry is as it was, and no other appears. */
  ghost predicate OthersKept(t: Tasks, t': Tasks, p: nat, id: TaskId) {
    forall q, x :: q != p || x != id ==>
      (q in t' && x in t'[q] <==> q in t && x in t[q]) && (q in t && x in t[q] ==> t'[q][x] == t[q][x])
  }

  /** Tasks spread over 256 partitions by the hash of their identifier. */
  lemma PlaceIs(hash: Hash, id: TaskId)
    ensures PartOf(hash, id) == hash(id) % 256
  {
    PartitionIs(hash(id));
  }

  /** A submitted task enters pending, with its handler and payload, unassigned and without a lease. */
  lemma NewEntryIs(task: Task, now: nat)
    ensures NewEntry(task, now) == TaskEntry(task, Pending, None, now, None)
  {
  }

  /** Storing keeps a known task as it is and adds an unknown one. */
  lemma InsertIs(t: Tasks, p: nat, id: TaskId, e: TaskEntry)
    ensures OthersKept(t, InsertTask(t, p, id, e), p, id)
    ensures Stored(InsertTask(t, p, id, e), p, id, if Unknown(t, p, id) then e else t[p][id])
  {
  }

  /** Applying a dump, for every task: a known one stays; an unknown one listed enters as first listed; nothing else appears. */
  lemma {:induction false} InsertAllIs(t: Tasks, p: nat, es: seq<(TaskId, TaskEntry)>, q: nat, id: TaskId)
    ensures var t' := InsertTasks(t, p, es);
            if !Unknown(t, q, id) then Stored(t', q, id, t[q][id])
            else if q == p && exists i :: 0 <= i < |es| && es[i].0 == id then
              forall i :: 0 <= i < |es| && es[i].0 == id && (forall j :: 0 <= j < i ==> es[j].0 != id) ==> Stored(t', p, id, es[i].1)
            else Unknown(t', q, id)
  {
    if es != [] {
      var init, last := es[..|es| - 1], es[|es| - 1];
      InsertAllIs(t, p, init, q, id);
      InsertIs(InsertTasks(t, p, init), p, last.0, last.1);
      assert forall i :: 0 <= i < |init| ==> init[i] == es[i];
      if i :| 0 <= i < |init| && es[i].0 == id {
        assert init[i].0 == id;
        ListedStays(t, p, init, id, i);
      }
    }
  }

  lemma {:induction false} ListedStays(t: Tasks, p: nat, es: seq<(TaskId, TaskEntry)>, id: TaskId, i: nat)
    requires i < |es| && es[i].0 == id
    ensures !Unknown(InsertTasks(t, p, es), p, id)
  {
    if i < |es| - 1 {
      ListedStays(t, p, es[..|es| - 1], id, i);
    }
  }

  /** A claim: a stored pending task runs here, on a lease of 30 s; otherwise nothing changes. */
  lemma ClaimIs(t: Tasks, hash: Hash, id: TaskId, me: NodeId, now: nat)
    ensures var p, t' := PartOf(hash, id), Claim(t, hash, id, me, now);
            if !Unknown(t, p, id) && t[p][id].status == Pending then
              && CanClaim(t, hash, id) && OthersKept(t, t', p, id)
              && Stored(t', p, id, TaskEntry(t[p][id].task, Running, Some(me), t[p][id].createdAt, Some(now + 30_000)))
            else !CanClaim(t, hash, id) && t' == t
  {
  }

  /** A renewal: the lease of a running task ends 30 s from now; otherwise nothing changes. */
  lemma RenewIs(t: Tasks, hash: Hash, id: TaskId, now: nat)
    ensures var p, t' := PartOf(hash, id), Renew(t, hash, id, now);
            if !Unknown(t, p, id) && t[p][id].status == Running then
              && OthersKept(t, t', p, id)
              && Stored(t', p, id, TaskEntry(t[p][id].task, Running, t[p][id].assignedTo, t[p][id].createdAt, Some(now + 30_000)))
            else t' == t
  {
  }

  /** A completion: a stored task is completed on success and failed with the message on an error, and has no lease. */
  lemma CompleteIs(t: Tasks, hash: Hash, id: TaskId, r: TaskResult)
    ensures var p, t' := PartOf(hash, id), Complete(t, hash, id, r);
            if Unknown(t, p, id) then t' == t
            else
              var status := match r case Succeeded => Completed case Erred(m) => Failed(m);
              && OthersKept(t, t', p, id)
              && Stored(t', p, id, TaskEntry(t[p][id].task, status, t[p][id].assignedTo, t[p][id].createdAt, None))
  {
  }

  /** What is listed: of the partitions the node is primary for, the pending tasks and the running ones past their lease. */
  lemma ListedIs(t: Tasks, ring: seq<NodeId>, rf: nat, me: NodeId, now: nat, id: TaskId, e: TaskEntry)
    requires ring != [] && rf >= 1
    ensures (id, e) in AvailableTasks(t, PrimaryOn(ring, rf, me), now) <==>
            exists p: nat :: Stored(t, p, id, e) && p < 256 && ring[p % |ring|] == me
                     && (e.status == Pending || (e.status == Running && e.leaseExpires.Some? && now > e.leaseExpires.value))
  {
    forall p: nat ensures PrimaryOn(ring, rf, me)(p) <==> ring[p % |ring|] == me {
      PrimaryAt(ring, rf, p);
    }
    if p: nat :| Stored(t, p, id, e) && p < 256 && ring[p % |ring|] == me && Available(e, now) {
      assert p in t && id in t[p] && PrimaryOn(ring, rf, me)(p);
    }
    if (id, e) in AvailableTasks(t, PrimaryOn(ring, rf, me), now) {
      var p: nat :| p in t && id in t[p] && p < NUM_PARTITIONS && PrimaryOn(ring, rf, me)(p) && Available(t[p][id], now) && t[p][id] == e;
      assert Stored(t, p, id, e);
    }
  }

  /** The four counts are the numbers of stored tasks that are pending, running, completed and failed. */
  lemma CountsAre(t: Tasks)
    ensures Tally(t, t.Keys, IsPending) == |set p, id | p in t && id in t[p] && t[p][id].status.Pending? :: (p, id)|
    ensures Tally(t, t.Keys, IsRunning) == |set p, id | p in t && id in t[p] && t[p][id].status.Running? :: (p, id)|
    ensures Tally(t, t.Keys, IsCompleted) == |set p, id | p in t && id in t[p] && t[p][id].status.Completed? :: (p, id)|
    ensures Tally(t, t.Keys, IsFailed) == |set p, id | p in t && id in t[p] && t[p][id].status.Failed? :: (p, id)|
  {
    assert OfKind(t, t.Keys, IsPending) == set p, id | p in t && id in t[p] && t[p][id].status.Pending? :: (p, id);
    assert OfKind(t, t.Keys, IsRunning) == set p, id | p in t && id in t[p] && t[p][id].status.Running? :: (p, id);
    assert OfKind(t, t.Keys, IsCompleted) == set p, id | p in t && id in t[p] && t[p][id].status.Completed? :: (p, id);
    assert OfKind(t, t.Keys, IsFailed) == set p, id | p in t && id in t[p] && t[p][id].status.Failed? :: (p, id);
  }

  /** Completing a running task moves exactly one task from the running count to the completed one, or on an error to the failed one. */
  lemma CompletionMovesOne(t: Tasks, hash: Hash, id: TaskId, r: TaskResult, k: Kind)
    requires Find(t, hash, id).Some? && Find(t, hash, id).value.status == Running
    ensures var t' := Complete(t, hash, id, r);
            Tally(t', t'.Keys, k) == Tally(t, t.Keys, k) - (if k == IsRunning then 1 else 0)
                                     + (if k == (if r.Succeeded? then IsCompleted else IsFailed) then 1 else 0)
  {
    var p := PartOf(hash, id);
    TallyReplace(t, p, id, t[p][id].(status := StatusOf(r), leaseExpires := None), k);
  }
}
