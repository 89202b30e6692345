/**
 The task queue of one node (`src/executor/queue.rs`): tasks by partition and identifier, with their status and
 lease. The first module gives the meaning of the operations; the class updates its table in place and is proved
 to follow it. Times are milliseconds.
 */
module QueueSpec {
  import opened Common
  import opened NodeOrder
  import opened Placement

  type TaskId = string

  const LEASE := 30_000

  datatype TaskStatus = Pending | Running | Completed | Failed(error: string)

  datatype Task = Execute(handler: string, payload: string)

  datatype TaskEntry = TaskEntry(task: Task, status: TaskStatus, assignedTo: Option<NodeId>,
                                 createdAt: nat, leaseExpires: Option<nat>)

  datatype TaskResult = Succeeded | Erred(message: string)

  type Tasks = map<nat, map<TaskId, TaskEntry>>
  type Hash = string -> nat

  function PartOf(hash: Hash, id: TaskId): nat {
    PartitionOfHash(hash(id))
  }

  function Bucket(t: Tasks, p: nat): map<TaskId, TaskEntry> {
    if p in t then t[p] else map[]
  }

  function NewEntry(task: Task, now: nat): TaskEntry {
    TaskEntry(task, Pending, None, now, None)
  }

  /** Insert unless present. */
  function InsertTask(t: Tasks, p: nat, id: TaskId, e: TaskEntry): Tasks {
    t[p := if id in Bucket(t, p) then Bucket(t, p) else Bucket(t, p)[id := e]]
  }

  function InsertTasks(t: Tasks, p: nat, es: seq<(TaskId, TaskEntry)>): Tasks {
    if es == [] then t[p := Bucket(t, p)]
    else InsertTask(InsertTasks(t, p, es[..|es| - 1]), p, es[|es| - 1].0, es[|es| - 1].1)
  }

  /** The entry of a task, looked up in the partition of its hash. */
  function Find(t: Tasks, hash: Hash, id: TaskId): Option<TaskEntry> {
    var b := Bucket(t, PartOf(hash, id));
    if id in b then Some(b[id]) else None
  }

  /** Replace the entry of a known task. */
  function Set(t: Tasks, hash: Hash, id: TaskId, e: TaskEntry): Tasks {
    t[PartOf(hash, id) := Bucket(t, PartOf(hash, id))[id := e]]
  }

  predicate CanClaim(t: Tasks, hash: Hash, id: TaskId) {
    Find(t, hash, id).Some? && Find(t, hash, id).value.status == Pending
  }

  function Claimed(e: TaskEntry, me: NodeId, now: nat): TaskEntry {
    e.(status := Running, assignedTo := Some(me), leaseExpires := Some(now + LEASE))
  }

  function Claim(t: Tasks, hash: Hash, id: TaskId, me: NodeId, now: nat): Tasks {
    if CanClaim(t, hash, id) then Set(t, hash, id, Claimed(Find(t, hash, id).value, me, now)) else t
  }

  function Renew(t: Tasks, hash: Hash, id: TaskId, now: nat): Tasks {
    var e := Find(t, hash, id);
    if e.Some? && e.value.status == Running then Set(t, hash, id, e.value.(leaseExpires := Some(now + LEASE))) else t
  }

  function StatusOf(r: TaskResult): TaskStatus {
    match r case Succeeded => Completed case Erred(m) => Failed(m)
  }

  function Complete(t: Tasks, hash: Hash, id: TaskId, r: TaskResult): Tasks {
    var e := Find(t, hash, id);
    if e.Some? then Set(t, hash, id, e.value.(status := StatusOf(r), leaseExpires := None)) else t
  }

  /** Listed as available for execution: pending, or running on an expired lease. */
  predicate Available(e: TaskEntry, now: nat) {
    e.status == Pending || (e.status == Running && e.leaseExpires.Some? && now > e.leaseExpires.value)
  }

  /** The partitions a node is primary for on a ring. */
  ghost function PrimaryOn(ring: seq<NodeId>, rf: nat, n: NodeId): nat -> bool {
    (p: nat) => IsPrimary(ring, rf, n, p)
  }

  /** What `my_pending_tasks` lists at a node that is primary for the partitions in `mine`. */
  ghost function AvailableTasks(t: Tasks, mine: nat -> bool, now: nat): set<(TaskId, TaskEntry)> {
    set p, id | p in t && id in t[p] && p < NUM_PARTITIONS && mine(p) && Available(t[p][id], now) :: (id, t[p][id])
  }

  ghost function AvailableIn(b: map<TaskId, TaskEntry>, ids: set<TaskId>, now: nat): set<(TaskId, TaskEntry)> {
    set id | id in ids && id in b && Available(b[id], now) :: (id, b[id])
  }

  datatype Kind = IsPending | IsRunning | IsCompleted | IsFailed

  function KindOf(s: TaskStatus): Kind {
    match s case Pending => IsPending case Running => IsRunning case Completed => IsCompleted case Failed(_) => IsFailed
  }

  /** The stored tasks of one kind, among the given partitions. */
  ghost function OfKind(t: Tasks, ps: set<nat>, k: Kind): set<(nat, TaskId)> {
    set p, id | p in ps && p in t && id in t[p] && KindOf(t[p][id].status) == k :: (p, id)
  }

  ghost function OfKindIn(t: Tasks, p: nat, ids: set<TaskId>, k: Kind): set<(nat, TaskId)> {
    set id | id in ids && p in t && id in t[p] && KindOf(t[p][id].status) == k :: (p, id)
  }

  ghost function Tally(t: Tasks, ps: set<nat>, k: Kind): nat {
    |OfKind(t, ps, k)|
  }

  ghost function TallyIn(t: Tasks, p: nat, ids: set<TaskId>, k: Kind): nat {
    |OfKindIn(t, p, ids, k)|
  }

  /** The four counts of the tasks stored in the given partitions; of the given tasks of one partition. */
  ghost predicate Counts(t: Tasks, ps: set<nat>, pending: nat, running: nat, completed: nat, failed: nat) {
    && pending == Tally(t, ps, IsPending) && running == Tally(t, ps, IsRunning)
    && completed == Tally(t, ps, IsCompleted) && failed == Tally(t, ps, IsFailed)
  }

  ghost predicate CountsIn(t: Tasks, p: nat, ids: set<TaskId>, pending: nat, running: nat, completed: nat, failed: nat) {
    && pending == TallyIn(t, p, ids, IsPending) && running == TallyIn(t, p, ids, IsRunning)
    && completed == TallyIn(t, p, ids, IsCompleted) && failed == TallyIn(t, p, ids, IsFailed)
  }

  /** Every task is stored under the partition of its hash. */
  ghost predicate Filed(t: Tasks, hash: Hash) {
    forall p, id :: p in t && id in t[p] ==> p == PartOf(hash, id)
  }

  /** The pending tasks of the partitions in `mine`. */
  ghost function OwnedPending(t: Tasks, mine: nat -> bool): set<TaskId> {
    set p, id | p in t && id in t[p] && p < NUM_PARTITIONS && mine(p) && t[p][id].status == Pending :: id
  }

  /** The owned pending tasks are those that can be claimed. */
  lemma PendingIff(t: Tasks, hash: Hash, mine: nat -> bool, id: TaskId)
    requires Filed(t, hash)
    ensures id in OwnedPending(t, mine) <==> mine(PartOf(hash, id)) && CanClaim(t, hash, id)
  {
    var p := PartOf(hash, id);
    if mine(p) && CanClaim(t, hash, id) {
      assert p in t && id in t[p];
    }
  }

  lemma PendingIsListed(t: Tasks, mine: nat -> bool, now: nat, id: TaskId)
    requires id in OwnedPending(t, mine)
    ensures exists x :: x in AvailableTasks(t, mine, now) && x.0 == id
  {
    var p :| p in t && id in t[p] && p < NUM_PARTITIONS && mine(p) && t[p][id].status == Pending;
    assert (id, t[p][id]) in AvailableTasks(t, mine, now);
  }

  /** The lease is set exactly while running, and a node is assigned exactly once it is no longer pending. */
  predicate Coherent(e: TaskEntry) {
    (e.leaseExpires.Some? <==> e.status == Running) && (e.assignedTo.Some? <==> e.status != Pending)
  }
}

module Queue {
  import opened Common
  import opened NodeOrder
  import opened Placement
  import opened QueueSpec

  class DistributedQueue {
    const me: NodeId
    const hash: Hash
    var localTasks: Tasks

    constructor (me: NodeId, hash: Hash)
      ensures this.me == me && this.hash == hash && localTasks == map[]
    {
      this.me, this.hash := me, hash;
      localTasks := map[];
    }

    method StoreLocal(p: nat, id: TaskId, e: TaskEntry)
      modifies this`localTasks
      ensures localTasks == InsertTask(old(localTasks), p, id, e)
    {
      if p !in localTasks {
        localTasks := localTasks[p := map[]];
      }
      if id !in localTasks[p] {
        localTasks := localTasks[p := localTasks[p][id := e]];
      }
    }

    /**
     Stores a task here and replicates it to the backups in order, up to the first that does not answer. `sent` are
     the backups called; `answered` tells which calls, retries included, were answered with success.
     */
    method StoreAsPrimary(p: nat, id: TaskId, e: TaskEntry, owners: seq<NodeId>, answered: NodeId -> bool)
      returns (ok: bool, sent: seq<NodeId>)
      requires owners != []
      modifies this`localTasks
      ensures localTasks == InsertTask(old(localTasks), p, id, e)
      ensures sent <= owners[1..] && forall i :: 0 <= i < |sent| - 1 ==> answered(sent[i])
      ensures ok <==> sent == owners[1..] && forall i :: 0 <= i < |sent| ==> answered(sent[i])
      ensures !ok ==> sent != [] && !answered(sent[|sent| - 1])
    {
      StoreLocal(p, id, e);
      sent := [];
      for i := 1 to |owners|
        invariant localTasks == InsertTask(old(localTasks), p, id, e)
        invariant sent == owners[1..i] && forall j :: 0 <= j < |sent| ==> answered(sent[j])
      {
        sent := sent + [owners[i]];
        if !answered(owners[i]) {
          assert sent <= owners[1..];
          return false, sent;
        }
      }
      return true, sent;
    }

    /** Submits a task with a new identifier: kept here if there is no owner, stored as primary, or forwarded. */
    method Submit(id: TaskId, task: Task, now: nat, ring: seq<NodeId>, rf: nat, answered: NodeId -> bool)
      returns (ok: bool, sent: seq<NodeId>)
      modifies this`localTasks
      ensures var p, owners := PartOf(hash, id), RingOwners(ring, rf, PartOf(hash, id));
              if owners != [] && owners[0] != me then
                localTasks == old(localTasks) && sent == [owners[0]] && ok == answered(owners[0])
              else
                && localTasks == InsertTask(old(localTasks), p, id, NewEntry(task, now))
                && (owners == [] ==> ok && sent == [])
                && (owners != [] ==> sent <= owners[1..] && (ok <==> sent == owners[1..] && forall n :: n in sent ==> answered(n)))
                && (!ok ==> sent != [] && !answered(sent[|sent| - 1]))
    {
      var p := PartOf(hash, id);
      var owners := RingOwners(ring, rf, p);
      if owners == [] {
        StoreLocal(p, id, NewEntry(task, now));
        return true, [];
      }
      var primary := owners[0];
      if primary == me {
        ok, sent := StoreAsPrimary(p, id, NewEntry(task, now), owners, answered);
      } else {
        return answered(primary), [primary];
      }
    }

    method ApplyPartitionEntries(p: nat, es: seq<(TaskId, TaskEntry)>)
      modifies this`localTasks
      ensures localTasks == InsertTasks(old(localTasks), p, es)
    {
      ghost var before := localTasks;
      if p !in localTasks {
        localTasks := localTasks[p := map[]];
      }
      for i := 0 to |es|
        invariant p in localTasks && localTasks == InsertTasks(before, p, es[..i])
      {
        assert es[..i + 1][..i] == es[..i];
        if es[i].0 !in localTasks[p] {
          localTasks := localTasks[p := localTasks[p][es[i].0 := es[i].1]];
        }
      }
      assert es[..|es|] == es;
    }

    /** The available tasks of the partitions this node is primary for on the given ring, partition by partition. */
    method MyPendingTasks(ring: seq<NodeId>, rf: nat, now: nat) returns (tasks: seq<(TaskId, TaskEntry)>)
      ensures (set x | x in tasks) == AvailableTasks(localTasks, PrimaryOn(ring, rf, me), now)
    {
      ghost var mine := PrimaryOn(ring, rf, me);
      tasks := [];
      for p := 0 to NUM_PARTITIONS
        invariant (set x | x in tasks) == AvailableTasks(localTasks, (q: nat) => q < p && mine(q), now)
      {
        ghost var before := tasks;
        ghost var part: set<(TaskId, TaskEntry)> := {};
        var owners := RingOwners(ring, rf, p);
        if owners != [] && owners[0] == me && p in localTasks {
          var todo := localTasks[p].Keys;
          while todo != {}
            invariant todo <= localTasks[p].Keys
            invariant (set x | x in tasks)
                   == (set x | x in before) + AvailableIn(localTasks[p], localTasks[p].Keys - todo, now)
          {
            var id :| id in todo;
            ghost var listed, visited := tasks, localTasks[p].Keys - todo;
            if Available(localTasks[p][id], now) {
              tasks := tasks + [(id, localTasks[p][id])];
            }
            todo := todo - {id};
            assert localTasks[p].Keys - todo == visited + {id};
            AvailableInStep(localTasks[p], visited, id, now);
            AppendElements(listed, (id, localTasks[p][id]));
          }
          part := AvailableIn(localTasks[p], localTasks[p].Keys, now);
        }
        AvailableTasksStep(localTasks, mine, p, now);
      }
      assert AvailableTasks(localTasks, (q: nat) => q < NUM_PARTITIONS && mine(q), now) == AvailableTasks(localTasks, mine, now);
    }

    /** Claims a task for a worker of this node. */
    method TryClaimTask(id: TaskId, now: nat) returns (claimed: bool)
      modifies this`localTasks
      ensures claimed <==> CanClaim(old(localTasks), hash, id)
      ensures localTasks == Claim(old(localTasks), hash, id, me, now)
    {
      var p := PartOf(hash, id);
      if p in localTasks && id in localTasks[p] {
        var entry := localTasks[p][id];
        if entry.status != Pending {
          return false;
        }
        entry := entry.(status := Running);
        entry := entry.(assignedTo := Some(me));
        entry := entry.(leaseExpires := Some(now + LEASE));
        localTasks := localTasks[p := localTasks[p][id := entry]];
        return true;
      }
      return false;
    }

    /** How many stored tasks are pending, running, completed and failed. */
    method LocalTaskStatusCounts() returns (pending: nat, running: nat, completed: nat, failed: nat)
      ensures Counts(localTasks, localTasks.Keys, pending, running, completed, failed)
    {
      pending, running, completed, failed := 0, 0, 0, 0;
      var tasks := localTasks;
      var todo := tasks.Keys;
      ghost var done: set<nat> := {};
      while todo != {}
        invariant Splits(tasks.Keys, todo, done) && Counts(tasks, done, pending, running, completed, failed)
        decreases todo
      {
        var p :| p in todo;
        SplitsStep(tasks.Keys, todo, done, p);
        var f, g, h, i := CountPartition(p);
        CountsStep(tasks, done, p, pending, running, completed, failed, f, g, h, i);
        pending := pending + f;
        running := running + g;
        completed := completed + h;
        failed := failed + i;
        todo := todo - {p};
        done := done + {p};
      }
      SplitsEnd(tasks.Keys, done);
    }

    /** The inner loop of the count, over one partition. */
    method CountPartition(p: nat) returns (pending: nat, running: nat, completed: nat, failed: nat)
      requires p in localTasks
      ensures CountsIn(localTasks, p, localTasks[p].Keys, pending, running, completed, failed)
    {
      pending, running, completed, failed := 0, 0, 0, 0;
      var todo := localTasks[p].Keys;
      ghost var done: set<TaskId> := {};
      while todo != {}
        invariant Splits(localTasks[p].Keys, todo, done)
        invariant CountsIn(localTasks, p, done, pending, running, completed, failed)
      {
        var id :| id in todo;
        SplitsStep(localTasks[p].Keys, todo, done, id);
        CountsInStep(localTasks, p, done, id, pending, running, completed, failed);
        match localTasks[p][id].status {
          case Pending => pending := pending + 1;
          case Running => running := running + 1;
          case Completed => completed := completed + 1;
          case Failed(_) => failed := failed + 1;
        }
        todo, done := todo - {id}, done + {id};
      }
      SplitsEnd(localTasks[p].Keys, done);
    }

    method RenewLease(id: TaskId, now: nat) returns (ok: bool)
      modifies this`localTasks
      ensures localTasks == Renew(old(localTasks), hash, id, now)
      ensures ok <==> exists e :: Find(old(localTasks), hash, id) == Some(e) && e.status == Running
    {
      var p := PartOf(hash, id);
      if p in localTasks && id in localTasks[p] {
        if localTasks[p][id].status == Running {
          localTasks := localTasks[p := localTasks[p][id := localTasks[p][id].(leaseExpires := Some(now + LEASE))]];
          return true;
        }
        return false;
      }
      return false;
    }

    method CompleteTask(id: TaskId, result: TaskResult) returns (ok: bool)
      modifies this`localTasks
      ensures localTasks == Complete(old(localTasks), hash, id, result)
      ensures ok ==> Find(localTasks, hash, id).Some?
                     && match result
                        case Succeeded => Find(localTasks, hash, id).value.status == Completed
                        case Erred(m) => Find(localTasks, hash, id).value.status == Failed(m)
      ensures ok <==> Find(old(localTasks), hash, id).Some?
    {
      var p := PartOf(hash, id);
      if p in localTasks && id in localTasks[p] {
        var entry := localTasks[p][id];
        match result {
          case Succeeded => entry := entry.(status := Completed);
          case Erred(m) => entry := entry.(status := Failed(m));
        }
        entry := entry.(leaseExpires := None);
        localTasks := localTasks[p := localTasks[p][id := entry]];
        return true;
      }
      return false;
    }
  }

  lemma InOfKind(t: Tasks, ps: set<nat>, k: Kind, x: (nat, TaskId))
    ensures x in OfKind(t, ps, k) <==> x.0 in ps && x.0 in t && x.1 in t[x.0] && KindOf(t[x.0][x.1].status) == k
  {
  }

  lemma InOfKindIn(t: Tasks, p: nat, ids: set<TaskId>, k: Kind, x: (nat, TaskId))
    ensures x in OfKindIn(t, p, ids, k) <==> x.0 == p && x.1 in ids && p in t && x.1 in t[p] && KindOf(t[p][x.1].status) == k
  {
  }

  /** The size of a set split in two disjoint parts. */
  lemma SplitSize<T>(s: set<T>, a: set<T>, b: set<T>)
    requires forall x :: x in s <==> x in a || x in b
    requires forall x :: !(x in a && x in b)
    ensures |s| == |a| + |b|
  {
    assert s == a + b && a !! b;
  }

  lemma TallyStep(t: Tasks, p: nat, ids: set<TaskId>, id: TaskId, k: Kind)
    requires p in t && id in t[p] && id !in ids
    ensures TallyIn(t, p, ids + {id}, k) == TallyIn(t, p, ids, k) + (if KindOf(t[p][id].status) == k then 1 else 0)
  {
    var one: set<(nat, TaskId)> := if KindOf(t[p][id].status) == k then {(p, id)} else {};
    forall x
      ensures x in OfKindIn(t, p, ids + {id}, k) <==> x in OfKindIn(t, p, ids, k) || x in one
      ensures !(x in OfKindIn(t, p, ids, k) && x in one)
    {
      InOfKindIn(t, p, ids + {id}, k, x);
      InOfKindIn(t, p, ids, k, x);
    }
    SplitSize(OfKindIn(t, p, ids + {id}, k), OfKindIn(t, p, ids, k), one);
  }

  lemma PartitionStep(t: Tasks, ps: set<nat>, p: nat, k: Kind)
    requires p in t && p !in ps
    ensures Tally(t, ps + {p}, k) == Tally(t, ps, k) + TallyIn(t, p, t[p].Keys, k)
  {
    forall x
      ensures x in OfKind(t, ps + {p}, k) <==> x in OfKind(t, ps, k) || x in OfKindIn(t, p, t[p].Keys, k)
      ensures !(x in OfKind(t, ps, k) && x in OfKindIn(t, p, t[p].Keys, k))
    {
      InOfKind(t, ps + {p}, k, x);
      InOfKind(t, ps, k, x);
      InOfKindIn(t, p, t[p].Keys, k, x);
    }
    SplitSize(OfKind(t, ps + {p}, k), OfKind(t, ps, k), OfKindIn(t, p, t[p].Keys, k));
  }

  lemma CountsInStep(t: Tasks, p: nat, ids: set<TaskId>, id: TaskId, a: nat, b: nat, c: nat, d: nat)
    requires p in t && id in t[p] && id !in ids && CountsIn(t, p, ids, a, b, c, d)
    ensures match t[p][id].status
            case Pending => CountsIn(t, p, ids + {id}, a + 1, b, c, d)
            case Running => CountsIn(t, p, ids + {id}, a, b + 1, c, d)
            case Completed => CountsIn(t, p, ids + {id}, a, b, c + 1, d)
            case Failed(_) => CountsIn(t, p, ids + {id}, a, b, c, d + 1)
  {
    TallyStep(t, p, ids, id, IsPending);
    TallyStep(t, p, ids, id, IsRunning);
    TallyStep(t, p, ids, id, IsCompleted);
    TallyStep(t, p, ids, id, IsFailed);
  }

  lemma CountsStep(t: Tasks, ps: set<nat>, p: nat, a: nat, b: nat, c: nat, d: nat, a': nat, b': nat, c': nat, d': nat)
    requires p in t && p !in ps && Counts(t, ps, a, b, c, d) && CountsIn(t, p, t[p].Keys, a', b', c', d')
    ensures Counts(t, ps + {p}, a + a', b + b', c + c', d + d')
  {
    PartitionStep(t, ps, p, IsPending);
    PartitionStep(t, ps, p, IsRunning);
    PartitionStep(t, ps, p, IsCompleted);
    PartitionStep(t, ps, p, IsFailed);
  }

  /** A successful claim moves exactly one task from the pending count to the running one; the others stay. */
  lemma ClaimMovesOne(t: Tasks, hash: Hash, id: TaskId, me: NodeId, now: nat, k: Kind)
    requires CanClaim(t, hash, id)
    ensures var t' := Claim(t, hash, id, me, now);
            Tally(t', t'.Keys, k) == Tally(t, t.Keys, k) + (if k == IsRunning then 1 else 0) - (if k == IsPending then 1 else 0)
  {
    var p := PartOf(hash, id);
    TallyReplace(t, p, id, Claimed(t[p][id], me, now), k);
  }

  /** Replacing one entry moves one task from its old kind to its new one. */
  lemma TallyReplace(t: Tasks, p: nat, id: TaskId, e: TaskEntry, k: Kind)
    requires p in t && id in t[p]
    ensures var t' := t[p := t[p][id := e]];
            Tally(t', t'.Keys, k) == Tally(t, t.Keys, k) - (if KindOf(t[p][id].status) == k then 1 else 0)
                                     + (if KindOf(e.status) == k then 1 else 0)
  {
    var t' := t[p := t[p][id := e]];
    TallySplit(t, p, id, k);
    TallySplit(t', p, id, k);
    assert t'.Keys == t.Keys && t'[p].Keys == t[p].Keys;
    assert OfKind(t', t.Keys - {p}, k) == OfKind(t, t.Keys - {p}, k);
    assert OfKindIn(t', p, t[p].Keys - {id}, k) == OfKindIn(t, p, t[p].Keys - {id}, k);
  }

  /** The tally of a table, with one task of it singled out. */
  lemma TallySplit(t: Tasks, p: nat, id: TaskId, k: Kind)
    requires p in t && id in t[p]
    ensures Tally(t, t.Keys, k)
         == Tally(t, t.Keys - {p}, k) + TallyIn(t, p, t[p].Keys - {id}, k) + (if KindOf(t[p][id].status) == k then 1 else 0)
  {
    PartitionStep(t, t.Keys - {p}, p, k);
    TallyStep(t, p, t[p].Keys - {id}, id, k);
    assert t.Keys - {p} + {p} == t.Keys && t[p].Keys - {id} + {id} == t[p].Keys;
  }

  lemma AppendElements<T>(s: seq<T>, x: T)
    ensures (set y | y in s + [x]) == (set y | y in s) + {x}
  {
    assert forall y :: y in s + [x] <==> y in s || y == x;
  }

  lemma AvailableInStep(b: map<TaskId, TaskEntry>, ids: set<TaskId>, id: TaskId, now: nat)
    requires id in b
    ensures AvailableIn(b, ids + {id}, now) == AvailableIn(b, ids, now) + (if Available(b[id], now) then {(id, b[id])} else {})
  {
  }

  lemma AvailableTasksStep(t: Tasks, mine: nat -> bool, p: nat, now: nat)
    requires p < NUM_PARTITIONS
    ensures AvailableTasks(t, (q: nat) => q < p + 1 && mine(q), now)
         == AvailableTasks(t, (q: nat) => q < p && mine(q), now)
            + (if mine(p) && p in t then AvailableIn(t[p], t[p].Keys, now) else {})
  {
  }
}
