/**
 The worker of one node (`src/executor/executor.rs`), running alone: poll, claim, execute under a lease, complete.
 The handlers are a function from task to result; a handler returns.
 */
module Executor {
  import opened Common
  import opened NodeOrder
  import opened Placement
  import opened QueueSpec
  import opened Queue

  /** Only the task `id` differs. */
  ghost predicate OnlyChanges(t: Tasks, t': Tasks, hash: Hash, id: TaskId) {
    && Filed(t', hash)
    && (forall x :: x != id ==> Find(t', hash, x) == Find(t, hash, x))
  }

  /** The status after a run: completed exactly on success, else failed with the handler's message. */
  ghost predicate Reports(result: TaskResult, status: TaskStatus) {
    match result case Succeeded => status == Completed case Erred(message) => status == Failed(message)
  }

  /** The task ran: it was pending, and its status is now what its handler returned. */
  ghost predicate Ran(t: Tasks, t': Tasks, hash: Hash, id: TaskId, handler: Task -> TaskResult) {
    && CanClaim(t, hash, id) && OnlyChanges(t, t', hash, id)
    && Find(t', hash, id).Some?
    && Reports(handler(Find(t, hash, id).value.task), Find(t', hash, id).value.status)
    && Find(t', hash, id).value.leaseExpires == None
  }

  lemma SetChangesOne(t: Tasks, hash: Hash, id: TaskId, e: TaskEntry)
    requires Filed(t, hash)
    ensures OnlyChanges(t, Set(t, hash, id, e), hash, id) && Find(Set(t, hash, id, e), hash, id) == Some(e)
  {
  }

  /** Running one owned pending task removes exactly it from the pending ones. */
  lemma RanShrinks(t: Tasks, t': Tasks, hash: Hash, id: TaskId, handler: Task -> TaskResult, mine: nat -> bool)
    requires Filed(t, hash) && Ran(t, t', hash, id, handler) && mine(PartOf(hash, id))
    ensures id in OwnedPending(t, mine) && OwnedPending(t', mine) == OwnedPending(t, mine) - {id}
  {
    forall x ensures x in OwnedPending(t', mine) <==> x in OwnedPending(t, mine) - {id} {
      PendingIff(t, hash, mine, x);
      PendingIff(t', hash, mine, x);
    }
    PendingIff(t, hash, mine, id);
  }

  lemma RanAfterClaim(t: Tasks, mid: Tasks, t': Tasks, hash: Hash, id: TaskId, handler: Task -> TaskResult)
    requires CanClaim(t, hash, id) && OnlyChanges(t, mid, hash, id) && OnlyChanges(mid, t', hash, id)
    requires Find(t', hash, id).Some? && Find(t', hash, id).value.leaseExpires == None
    requires Reports(handler(Find(t, hash, id).value.task), Find(t', hash, id).value.status)
    ensures Ran(t, t', hash, id, handler)
  {
  }

  /** None of the first `n` listed tasks can be claimed. */
  ghost predicate NoneClaimable(t: Tasks, hash: Hash, tasks: seq<(TaskId, TaskEntry)>, n: nat) {
    n <= |tasks| && forall j :: 0 <= j < n ==> !CanClaim(t, hash, tasks[j].0)
  }

  lemma NoneClaimableStep(t: Tasks, hash: Hash, tasks: seq<(TaskId, TaskEntry)>, n: nat)
    requires NoneClaimable(t, hash, tasks, n) && n < |tasks| && !CanClaim(t, hash, tasks[n].0)
    ensures NoneClaimable(t, hash, tasks, n + 1)
  {
  }

  class TaskExecutor {
    const queue: DistributedQueue
    const handler: Task -> TaskResult

    constructor (queue: DistributedQueue, handler: Task -> TaskResult)
      ensures this.queue == queue && this.handler == handler
    {
      this.queue, this.handler := queue, handler;
    }

    /** Runs a claimed task; its lease is renewed at the given times meanwhile. */
    method ExecuteWithLease(id: TaskId, task: Task, renewals: seq<nat>)
      requires Filed(queue.localTasks, queue.hash)
      requires Find(queue.localTasks, queue.hash, id).Some?
      modifies queue`localTasks
      ensures OnlyChanges(old(queue.localTasks), queue.localTasks, queue.hash, id)
      ensures var e, before := Find(queue.localTasks, queue.hash, id), Find(old(queue.localTasks), queue.hash, id);
              && e.Some? && Reports(handler(task), e.value.status)
              && e.value == before.value.(status := e.value.status, leaseExpires := None)
    {
      for i := 0 to |renewals|
        invariant OnlyChanges(old(queue.localTasks), queue.localTasks, queue.hash, id)
        invariant var e, before := Find(queue.localTasks, queue.hash, id), Find(old(queue.localTasks), queue.hash, id);
                  e.Some? && e.value == before.value.(leaseExpires := e.value.leaseExpires)
      {
        ghost var mid := queue.localTasks;
        var _ := queue.RenewLease(id, renewals[i]);
        SetChangesOne(mid, queue.hash, id, Find(mid, queue.hash, id).value.(leaseExpires := Some(renewals[i] + LEASE)));
      }
      ghost var mid := queue.localTasks;
      var result := handler(task);
      var _ := queue.CompleteTask(id, result);
      SetChangesOne(mid, queue.hash, id, Find(mid, queue.hash, id).value.(status := StatusOf(result), leaseExpires := None));
    }

    /**
     One pass of the worker loop. It runs exactly one of the pending tasks of the owned partitions if there is any,
     whatever else is listed (expired running tasks are, and are passed over), and otherwise changes nothing.
     */
    method WorkerPass(ring: seq<NodeId>, rf: nat, now: nat, renewals: seq<nat>) returns (ran: Option<TaskId>)
      requires Filed(queue.localTasks, queue.hash)
      modifies queue`localTasks
      ensures Filed(queue.localTasks, queue.hash)
      ensures var mine := PrimaryOn(ring, rf, queue.me);
              match ran
              case None => queue.localTasks == old(queue.localTasks) && OwnedPending(queue.localTasks, mine) == {}
              case Some(id) =>
                && Ran(old(queue.localTasks), queue.localTasks, queue.hash, id, handler)
                && OwnedPending(queue.localTasks, mine) == OwnedPending(old(queue.localTasks), mine) - {id}
                && id in OwnedPending(old(queue.localTasks), mine)
    {
      ghost var t, mine := queue.localTasks, PrimaryOn(ring, rf, queue.me);
      var tasks := queue.MyPendingTasks(ring, rf, now);
      ran := None;
      for i := 0 to |tasks|
        invariant queue.localTasks == t
        invariant NoneClaimable(t, queue.hash, tasks, i)
      {
        var id, entry := tasks[i].0, tasks[i].1;
        ListedIsOwned(t, queue.hash, mine, now, tasks, i);
        var claimed := queue.TryClaimTask(id, now);
        if claimed {
          ghost var mid := queue.localTasks;
          SetChangesOne(t, queue.hash, id, Claimed(entry, queue.me, now));
          ExecuteWithLease(id, entry.task, renewals);
          RanAfterClaim(t, mid, queue.localTasks, queue.hash, id, handler);
          RanShrinks(t, queue.localTasks, queue.hash, id, handler, mine);
          return Some(id);
        }
        NoneClaimableStep(t, queue.hash, tasks, i);
      }
      NothingPending(t, queue.hash, mine, now, tasks);
    }

    /** Passes until one finds nothing to run: then no owned task is pending. */
    method RunUntilIdle(ring: seq<NodeId>, rf: nat, now: nat) returns (runs: nat)
      requires Filed(queue.localTasks, queue.hash)
      modifies queue`localTasks
      ensures Filed(queue.localTasks, queue.hash)
      ensures var mine := PrimaryOn(ring, rf, queue.me);
              OwnedPending(queue.localTasks, mine) == {} && runs == |OwnedPending(old(queue.localTasks), mine)|
    {
      ghost var mine := PrimaryOn(ring, rf, queue.me);
      runs := 0;
      while true
        invariant Filed(queue.localTasks, queue.hash)
        invariant runs + |OwnedPending(queue.localTasks, mine)| == |OwnedPending(old(queue.localTasks), mine)|
        decreases |OwnedPending(queue.localTasks, mine)|
      {
        var ran := WorkerPass(ring, rf, now, []);
        if ran == None {
          return;
        }
        runs := runs + 1;
      }
    }
  }

  /** If nothing listed can be claimed, nothing owned is pending. */
  lemma NothingPending(t: Tasks, hash: Hash, mine: nat -> bool, now: nat, tasks: seq<(TaskId, TaskEntry)>)
    requires Filed(t, hash) && (set x | x in tasks) == AvailableTasks(t, mine, now)
    requires NoneClaimable(t, hash, tasks, |tasks|)
    ensures OwnedPending(t, mine) == {}
  {
    forall id ensures id !in OwnedPending(t, mine) {
      if id in OwnedPending(t, mine) {
        PendingIsListed(t, mine, now, id);
        var x :| x in AvailableTasks(t, mine, now) && x.0 == id;
        assert x in (set y | y in tasks);
        PendingIff(t, hash, mine, id);
        assert false;
      }
    }
  }

  lemma ListedIsOwned(t: Tasks, hash: Hash, mine: nat -> bool, now: nat, tasks: seq<(TaskId, TaskEntry)>, i: nat)
    requires Filed(t, hash) && i < |tasks| && (set x | x in tasks) == AvailableTasks(t, mine, now)
    ensures Find(t, hash, tasks[i].0) == Some(tasks[i].1) && mine(PartOf(hash, tasks[i].0))
  {
    var x := tasks[i];
    assert x in (set y | y in tasks) && x in AvailableTasks(t, mine, now);
    var p, id :| p in t && id in t[p] && p < NUM_PARTITIONS && mine(p) && Available(t[p][id], now) && x == (id, t[p][id]);
    assert p == PartOf(hash, id);
  }
}
