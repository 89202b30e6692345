/** What every run of the task queue guarantees. */
module QueueSafety {
  import opened Common
  import opened NodeOrder
  import opened Placement
  import opened QueueSpec
  import opened QueueCluster

  // ---- A task is claimed at most once ----

  /** Whatever the views, however messages are lost or repeated: no node claims a task twice. */
  lemma ClaimedOncePerNode(c: Cluster, hash: Hash, steps: seq<Step>, i: nat, j: nat)
    requires IsInitial(c)
    requires var d := RunFrom(c, hash, steps);
             i < j < |d.claims| && d.claims[i].node == d.claims[j].node
    ensures RunFrom(c, hash, steps).claims[i].id != RunFrom(c, hash, steps).claims[j].id
  {
    InitialInv(c, hash);
    RunKeepsInv(c, hash, steps);
  }

  /** Every scan consults the same ring. */
  ghost predicate Agreed(steps: seq<Step>, ring: seq<NodeId>, rf: nat) {
    forall i :: 0 <= i < |steps| && steps[i].Work? && steps[i].act.Scan? ==> steps[i].act.ring == ring && steps[i].act.rf == rf
  }

  ghost predicate PrimaryHere(hash: Hash, ring: seq<NodeId>, rf: nat, n: NodeId, id: TaskId) {
    IsPrimary(ring, rf, n, PartOf(hash, id))
  }

  ghost predicate ListsPlaced(q: QNode, hash: Hash, ring: seq<NodeId>, rf: nat, n: NodeId) {
    forall w, i :: w in q.workers && q.workers[w].Scanning? && 0 <= i < |q.workers[w].list| ==>
      PrimaryHere(hash, ring, rf, n, q.workers[w].list[i])
  }

  /** Workers only look at, and claims only happen at, the primary of the agreed ring. */
  ghost predicate Placed(c: Cluster, hash: Hash, ring: seq<NodeId>, rf: nat) {
    && (forall n :: n in c.nodes ==> ListsPlaced(c.nodes[n], hash, ring, rf, n))
    && (forall i :: 0 <= i < |c.claims| ==> PrimaryHere(hash, ring, rf, c.claims[i].node, c.claims[i].id))
  }

  /** Only a scan fills a list; a claim takes its head. */
  lemma WorkKeepsPlaced(c: Cluster, hash: Hash, at: NodeId, w: nat, act: Action, ring: seq<NodeId>, rf: nat)
    requires Inv(c, hash) && Placed(c, hash, ring, rf) && Enabled(c, Work(at, w, act))
    requires act.Scan? ==> act.ring == ring && act.rf == rf
    ensures Placed(Apply(c, hash, Work(at, w, act)), hash, ring, rf)
  {
    var q := c.nodes[at];
    assert NodeOk(hash, q) && ListsPlaced(q, hash, ring, rf, at);
    if act.Scan? {
      forall i | 0 <= i < |act.list| ensures PrimaryHere(hash, ring, rf, at, act.list[i]) {
        assert act.list[i] in act.list && IsAvailable(q.tasks, PrimaryOn(ring, rf, at), act.list[i], act.now);
        var e :| (act.list[i], e) in AvailableTasks(q.tasks, PrimaryOn(ring, rf, at), act.now);
        ListedAtPrimary(q.tasks, hash, ring, rf, at, act.now, act.list[i], e);
      }
    }
    if act.TryNext? {
      assert PrimaryHere(hash, ring, rf, at, q.workers[w].list[0]);
    }
    assert ListsPlaced(After(q, hash, at, w, act), hash, ring, rf, at);
  }

  lemma StepKeepsPlaced(c: Cluster, hash: Hash, s: Step, ring: seq<NodeId>, rf: nat)
    requires Inv(c, hash) && Placed(c, hash, ring, rf)
    requires s.Work? && s.act.Scan? ==> s.act.ring == ring && s.act.rf == rf
    ensures Placed(Apply(c, hash, s), hash, ring, rf)
  {
    if s.Work? && Enabled(c, s) {
      WorkKeepsPlaced(c, hash, s.at, s.w, s.act, ring, rf);
    }
  }

  lemma ListedAtPrimary(t: Tasks, hash: Hash, ring: seq<NodeId>, rf: nat, at: NodeId, now: nat, id: TaskId, e: TaskEntry)
    requires TasksOk(hash, t) && (id, e) in AvailableTasks(t, PrimaryOn(ring, rf, at), now)
    ensures PrimaryHere(hash, ring, rf, at, id) && Find(t, hash, id) == Some(e) && Available(e, now)
  {
    var p :| p in t && id in t[p] && IsPrimary(ring, rf, at, p) && t[p][id] == e && Available(e, now);
    assert EntryOk(hash, p, id, e);
  }

  lemma {:induction false} RunKeepsPlaced(c: Cluster, hash: Hash, steps: seq<Step>, ring: seq<NodeId>, rf: nat)
    requires Inv(c, hash) && Placed(c, hash, ring, rf) && Agreed(steps, ring, rf)
    ensures Placed(RunFrom(c, hash, steps), hash, ring, rf)
  {
    if steps != [] {
      var init, s := steps[..|steps| - 1], steps[|steps| - 1];
      RunKeepsPlaced(c, hash, init, ring, rf);
      RunKeepsInv(c, hash, init);
      StepKeepsPlaced(RunFrom(c, hash, init), hash, s, ring, rf);
    }
  }

  /** When all scans agree on the ring, a task is claimed at most once in the whole cluster. */
  lemma ClaimedOnceInCluster(c: Cluster, hash: Hash, steps: seq<Step>, ring: seq<NodeId>, rf: nat, i: nat, j: nat)
    requires IsInitial(c) && Agreed(steps, ring, rf)
    requires i < j < |RunFrom(c, hash, steps).claims|
    ensures RunFrom(c, hash, steps).claims[i].id != RunFrom(c, hash, steps).claims[j].id
  {
    var d := RunFrom(c, hash, steps);
    InitialInv(c, hash);
    RunKeepsInv(c, hash, steps);
    RunKeepsPlaced(c, hash, steps, ring, rf);
    assert PrimaryHere(hash, ring, rf, d.claims[i].node, d.claims[i].id);
    assert PrimaryHere(hash, ring, rf, d.claims[j].node, d.claims[j].id);
  }

  lemma {:induction false} Enumerate(ids: set<TaskId>) returns (list: seq<TaskId>)
    ensures forall id :: id in list <==> id in ids
  {
    list := [];
    if ids != {} {
      var id :| id in ids;
      list := Enumerate(ids - {id});
      list := list + [id];
    }
  }

  /** A list of exactly the available tasks, beginning with a pending one. */
  lemma ListFrom(t: Tasks, hash: Hash, ring: seq<NodeId>, rf: nat, n: NodeId, id: TaskId, now: nat) returns (list: seq<TaskId>)
    requires CanClaim(t, hash, id) && PrimaryHere(hash, ring, rf, n, id)
    ensures ListsAvailable(list, t, n, ring, rf, now) && list != [] && list[0] == id
  {
    var mine := PrimaryOn(ring, rf, n);
    var ids := set x | x in AvailableTasks(t, mine, now) :: x.0;
    assert (id, Find(t, hash, id).value) in AvailableTasks(t, mine, now);
    var all := Enumerate(ids);
    list := [id] + all;
    forall y ensures y in list <==> IsAvailable(t, mine, y, now) {
      if IsAvailable(t, mine, y, now) {
        var e :| (y, e) in AvailableTasks(t, mine, now);
        assert (y, e).0 in ids;
      }
      if y in ids {
        var x :| x in AvailableTasks(t, mine, now) && x.0 == y;
        assert x == (y, x.1);
      }
      assert IsAvailable(t, mine, id, now);
    }
  }

  /**
   The agreement is needed: a node that stores the task as pending and believes itself primary can list it first and
   claim it, whatever any other node has claimed before. So after a failover a task runs again, at most once per node
   that stores it.
   */
  lemma PendingIsClaimable(c: Cluster, hash: Hash, n: NodeId, w: nat, now: nat, id: TaskId, ring: seq<NodeId>, rf: nat)
    returns (list: seq<TaskId>)
    requires HasWorker(c, n, w) && c.nodes[n].workers[w].Idle?
    requires CanClaim(c.nodes[n].tasks, hash, id) && PrimaryHere(hash, ring, rf, n, id)
    ensures Enabled(c, Work(n, w, Scan(now, ring, rf, list)))
    ensures var scanned := Apply(c, hash, Work(n, w, Scan(now, ring, rf, list)));
            Apply(scanned, hash, Work(n, w, TryNext(now))).claims == c.claims + [ClaimRecord(n, w, id)]
  {
    list := ListFrom(c.nodes[n].tasks, hash, ring, rf, n, id, now);
    var scan, next := Scan(now, ring, rf, list), TryNext(now);
    var scanned := Apply(c, hash, Work(n, w, scan));
    assert scanned.nodes[n].workers[w] == Scanning(list, []) && scanned.nodes[n].tasks == c.nodes[n].tasks
           && scanned.claims == c.claims by {
      assert ClaimMade(c.nodes[n], hash, n, w, scan) == [] && c.claims + [] == c.claims;
    }
    assert ClaimMade(scanned.nodes[n], hash, n, w, next) == [ClaimRecord(n, w, id)];
  }

  // ---- Workers and leases ----

  /**
   In every run: the task a worker holds is running at its node on the lease of its last beat, no other worker of the
   node holds it, and every stored task has a lease exactly while running and a node exactly once taken.
   */
  lemma WorkersExclusive(c: Cluster, hash: Hash, steps: seq<Step>, n: NodeId, w: nat, v: nat)
    requires IsInitial(c)
    requires HasWorker(RunFrom(c, hash, steps), n, w) && HasWorker(RunFrom(c, hash, steps), n, v) && v != w
    requires Holding(RunFrom(c, hash, steps).nodes[n].workers[w])
    ensures var q := RunFrom(c, hash, steps).nodes[n];
            var id, beat := q.workers[w].id, q.workers[w].beat;
            && Find(q.tasks, hash, id).Some? && Find(q.tasks, hash, id).value.status == Running
            && Find(q.tasks, hash, id).value.leaseExpires == Some(beat + LEASE)
            && !(Holding(q.workers[v]) && q.workers[v].id == id)
            && (forall p, x :: p in q.tasks && x in q.tasks[p] ==> p == PartOf(hash, x) && Coherent(q.tasks[p][x]))
  {
    InitialInv(c, hash);
    RunKeepsInv(c, hash, steps);
    var q := RunFrom(c, hash, steps).nodes[n];
    assert NodeOk(hash, q) && WorkerOk(hash, q.tasks, q.workers[w]);
    assert forall p, x :: p in q.tasks && x in q.tasks[p] ==> EntryOk(hash, p, x, q.tasks[p][x]);
  }

  /** A held task is listed exactly where it is owned and from 30 s after its last renewal, its worker alive or not. */
  lemma HeldTaskListedExactly(c: Cluster, hash: Hash, steps: seq<Step>, n: NodeId, w: nat, mine: nat -> bool, now: nat)
    requires IsInitial(c) && HasWorker(RunFrom(c, hash, steps), n, w) && Holding(RunFrom(c, hash, steps).nodes[n].workers[w])
    ensures var q := RunFrom(c, hash, steps).nodes[n];
            var x := q.workers[w];
            IsAvailable(q.tasks, mine, x.id, now) <==> mine(PartOf(hash, x.id)) && now > x.beat + LEASE
  {
    InitialInv(c, hash);
    RunKeepsInv(c, hash, steps);
    var q := RunFrom(c, hash, steps).nodes[n];
    assert NodeOk(hash, q) && WorkerOk(hash, q.tasks, q.workers[w]);
    RunningListedExactly(q.tasks, hash, mine, q.workers[w].id, q.workers[w].beat + LEASE, now);
  }

  lemma RunningListedExactly(t: Tasks, hash: Hash, mine: nat -> bool, id: TaskId, lease: nat, now: nat)
    requires TasksOk(hash, t) && Find(t, hash, id).Some? && Find(t, hash, id).value.status == Running
    requires Find(t, hash, id).value.leaseExpires == Some(lease)
    ensures IsAvailable(t, mine, id, now) <==> mine(PartOf(hash, id)) && now > lease
  {
    var p := PartOf(hash, id);
    if IsAvailable(t, mine, id, now) {
      var e :| (id, e) in AvailableTasks(t, mine, now);
      var r :| r in t && id in t[r] && mine(r) && t[r][id] == e && Available(e, now);
      assert EntryOk(hash, r, id, e);
    }
    if mine(p) && now > lease {
      assert (id, t[p][id]) in AvailableTasks(t, mine, now);
    }
  }

  /**
   The renewal outlives the worker: after a panic it can still run, keeps the task running under a new lease, and puts
   off the time from which the task is listed.
   */
  lemma RenewalOutlivesPanic(c: Cluster, hash: Hash, n: NodeId, w: nat, now: nat, mine: nat -> bool, later: nat)
    requires Inv(c, hash) && HasWorker(c, n, w) && c.nodes[n].workers[w].Executing?
    ensures var panicked, id := Apply(c, hash, Work(n, w, Die)), c.nodes[n].workers[w].id;
            && Enabled(panicked, Work(n, w, Beat(now)))
            && var d := Apply(panicked, hash, Work(n, w, Beat(now)));
               && HasWorker(d, n, w) && d.nodes[n].workers[w] == Panicked(id, now)
               && IsHeld(hash, d.nodes[n].tasks, id, now)
               && (IsAvailable(d.nodes[n].tasks, mine, id, later) <==> mine(PartOf(hash, id)) && later > now + LEASE)
  {
    var panicked, id := Apply(c, hash, Work(n, w, Die)), c.nodes[n].workers[w].id;
    ApplyKeepsInv(c, hash, Work(n, w, Die));
    var d := Apply(panicked, hash, Work(n, w, Beat(now)));
    ApplyKeepsInv(panicked, hash, Work(n, w, Beat(now)));
    assert NodeOk(hash, d.nodes[n]) && WorkerOk(hash, d.nodes[n].tasks, d.nodes[n].workers[w]);
    RunningListedExactly(d.nodes[n].tasks, hash, mine, id, now + LEASE, later);
  }

  // ---- A task left running is never run again ----

  /** The task is running at the node but no worker of the node holds it. */
  ghost predicate AbandonedAt(q: QNode, hash: Hash, id: TaskId) {
    && Find(q.tasks, hash, id).Some? && Find(q.tasks, hash, id).value.status == Running
    && forall w :: w in q.workers && Holding(q.workers[w]) ==> q.workers[w].id != id
  }

  ghost predicate Abandoned(c: Cluster, hash: Hash, n: NodeId, id: TaskId) {
    n in c.nodes && AbandonedAt(c.nodes[n], hash, id)
  }

  lemma AbandonedWork(q: QNode, hash: Hash, at: NodeId, w: nat, act: Action, id: TaskId)
    requires NodeOk(hash, q) && AbandonedAt(q, hash, id) && Ready(q, at, w, act)
    ensures AbandonedAt(After(q, hash, at, w, act), hash, id)
    ensures Find(After(q, hash, at, w, act).tasks, hash, id) == Find(q.tasks, hash, id)
  {
    match act
    case TryNext(now) =>
      var x := q.workers[w].list[0];
      if CanClaim(q.tasks, hash, x) {
        SetOk(hash, q.tasks, x, Claimed(Find(q.tasks, hash, x).value, at, now));
      }
    case Beat(now) =>
      var x := q.workers[w].id;
      assert WorkerOk(hash, q.tasks, q.workers[w]);
      FoundIsOk(hash, q.tasks, x);
      SetOk(hash, q.tasks, x, Find(q.tasks, hash, x).value.(leaseExpires := Some(now + LEASE)));
    case Finish(result) =>
      var x := q.workers[w].id;
      assert WorkerOk(hash, q.tasks, q.workers[w]);
      FoundIsOk(hash, q.tasks, x);
      SetOk(hash, q.tasks, x, Find(q.tasks, hash, x).value.(status := StatusOf(result), leaseExpires := None));
    case _ =>
  }

  /** The node keeps its workers and every task it knows. */
  ghost predicate KeepsNode(hash: Hash, c: Cluster, d: Cluster, n: NodeId) {
    && n in c.nodes && n in d.nodes && d.nodes[n].workers == c.nodes[n].workers
    && LeavesKnown(hash, c.nodes[n].tasks, d.nodes[n].tasks)
  }

  lemma SubmitStores(c: Cluster, hash: Hash, s: Step, n: NodeId)
    requires s.Submit? && Enabled(c, s) && n in c.nodes
    ensures KeepsNode(hash, c, Apply(c, hash, s), n)
  {
  }

  lemma DeliverStores(c: Cluster, hash: Hash, s: Step, n: NodeId)
    requires Inv(c, hash) && s.Deliver? && Enabled(c, s) && n in c.nodes
    ensures KeepsNode(hash, c, Apply(c, hash, s), n)
  {
    if s.msg.Dump? {
      assert MsgOk(hash, s.msg) && NodeOk(hash, c.nodes[s.msg.dst]);
      InsertAllOk(hash, c.nodes[s.msg.dst].tasks, s.msg.part, s.msg.entries);
    }
  }

  /** The steps that store tasks leave known ones, and the workers, as they are. */
  lemma StoringStep(c: Cluster, hash: Hash, s: Step, n: NodeId)
    requires Inv(c, hash) && !s.Work? && Enabled(c, s) && n in c.nodes
    ensures KeepsNode(hash, c, Apply(c, hash, s), n)
  {
    if s.Submit? {
      SubmitStores(c, hash, s, n);
    } else if s.Deliver? {
      DeliverStores(c, hash, s, n);
    }
  }

  lemma AbandonedStep(c: Cluster, hash: Hash, s: Step, n: NodeId, id: TaskId)
    requires Inv(c, hash) && Abandoned(c, hash, n, id)
    ensures Abandoned(Apply(c, hash, s), hash, n, id)
    ensures Find(Apply(c, hash, s).nodes[n].tasks, hash, id) == Find(c.nodes[n].tasks, hash, id)
  {
    if Enabled(c, s) {
      if s.Work? {
        assert NodeOk(hash, c.nodes[s.at]);
        if s.at == n {
          AbandonedWork(c.nodes[n], hash, n, s.w, s.act, id);
        }
      } else {
        StoringStep(c, hash, s, n);
      }
    }
  }

  /**
   A task running at a node without a worker of that node stays exactly as it is, in every continuation: however long
   its lease has expired, no later scan leads to a run of it there.
   */
  lemma {:induction false} AbandonedForEver(c: Cluster, hash: Hash, steps: seq<Step>, n: NodeId, id: TaskId)
    requires Inv(c, hash) && Abandoned(c, hash, n, id)
    ensures Abandoned(RunFrom(c, hash, steps), hash, n, id)
    ensures Find(RunFrom(c, hash, steps).nodes[n].tasks, hash, id) == Find(c.nodes[n].tasks, hash, id)
  {
    if steps != [] {
      AbandonedForEver(c, hash, steps[..|steps| - 1], n, id);
      RunKeepsInv(c, hash, steps[..|steps| - 1]);
      AbandonedStep(RunFrom(c, hash, steps[..|steps| - 1]), hash, steps[|steps| - 1], n, id);
    }
  }

  /** What inserting entries leaves under an identifier that they give one value. */
  lemma {:induction false} InsertsAll(t: Tasks, p: nat, es: seq<(TaskId, TaskEntry)>, id: TaskId, e: TaskEntry)
    requires forall i :: 0 <= i < |es| && es[i].0 == id ==> es[i].1 == e
    ensures var before, after := Bucket(t, p), Bucket(InsertTasks(t, p, es), p);
            if id in before then id in after && after[id] == before[id]
            else if exists i :: 0 <= i < |es| && es[i].0 == id then id in after && after[id] == e
            else id !in after
  {
    if es != [] {
      var init := es[..|es| - 1];
      InsertsAll(t, p, init, id, e);
      assert forall i :: 0 <= i < |init| ==> init[i] == es[i];
      if i :| 0 <= i < |es| && es[i].0 == id && i < |init| {
        assert init[i].0 == id;
      }
    }
  }

  /**
   A task that a dump lists as running, and that the receiver does not know, arrives abandoned: whatever follows, it
   stays running there and nobody can claim it.
   */
  lemma DumpStrandsTask(c: Cluster, hash: Hash, steps: seq<Step>, dst: NodeId, p: nat, es: seq<(TaskId, TaskEntry)>,
                        i: nat, deliver: Step)
    requires Inv(c, hash) && deliver.Deliver? && deliver.msg == Dump(dst, p, es) && Enabled(c, deliver)
    requires i < |es| && es[i].1.status == Running && Find(c.nodes[dst].tasks, hash, es[i].0) == None
    requires forall j :: 0 <= j < |es| && es[j].0 == es[i].0 ==> es[j].1 == es[i].1
    ensures var d, id := RunFrom(Apply(c, hash, deliver), hash, steps), es[i].0;
            && dst in d.nodes && Find(d.nodes[dst].tasks, hash, id) == Some(es[i].1) && !CanClaim(d.nodes[dst].tasks, hash, id)
  {
    var q, d, id := c.nodes[dst], Apply(c, hash, deliver), es[i].0;
    assert MsgOk(hash, deliver.msg) && EntryOk(hash, p, es[i].0, es[i].1);
    InsertsAll(q.tasks, p, es, id, es[i].1);
    assert d.nodes[dst] == q.(tasks := InsertTasks(q.tasks, p, es));
    assert NodeOk(hash, q);
    forall w | w in q.workers && Holding(q.workers[w]) ensures q.workers[w].id != id {
      assert WorkerOk(hash, q.tasks, q.workers[w]);
    }
    assert Abandoned(d, hash, dst, id);
    ApplyKeepsInv(c, hash, deliver);
    AbandonedForEver(d, hash, steps, dst, id);
  }

  /** The worker panicked on the task. */
  ghost predicate HeldByPanicked(q: QNode, w: nat, id: TaskId) {
    w in q.workers && q.workers[w].Panicked? && q.workers[w].id == id
  }

  lemma PanickedStep(c: Cluster, hash: Hash, s: Step, n: NodeId, w: nat, id: TaskId)
    requires Inv(c, hash) && n in c.nodes && HeldByPanicked(c.nodes[n], w, id)
    ensures n in Apply(c, hash, s).nodes && HeldByPanicked(Apply(c, hash, s).nodes[n], w, id)
  {
    if Enabled(c, s) && !s.Work? {
      StoringStep(c, hash, s, n);
    }
  }

  lemma {:induction false} PanickedForEver(c: Cluster, hash: Hash, steps: seq<Step>, n: NodeId, w: nat, id: TaskId)
    requires Inv(c, hash) && n in c.nodes && HeldByPanicked(c.nodes[n], w, id)
    ensures n in RunFrom(c, hash, steps).nodes && HeldByPanicked(RunFrom(c, hash, steps).nodes[n], w, id)
  {
    if steps != [] {
      PanickedForEver(c, hash, steps[..|steps| - 1], n, w, id);
      RunKeepsInv(c, hash, steps[..|steps| - 1]);
      PanickedStep(RunFrom(c, hash, steps[..|steps| - 1]), hash, steps[|steps| - 1], n, w, id);
    }
  }

  /**
   A worker that panics while executing strands its task: whatever happens next it stays running at that node and
   cannot be claimed there, and while its orphaned lease is renewed it is not even listed.
   */
  lemma PanicStrandsTask(c: Cluster, hash: Hash, steps: seq<Step>, n: NodeId, w: nat)
    requires Inv(c, hash) && HasWorker(c, n, w) && c.nodes[n].workers[w].Executing?
    ensures var d, id := RunFrom(Apply(c, hash, Work(n, w, Die)), hash, steps), c.nodes[n].workers[w].id;
            && n in d.nodes && Find(d.nodes[n].tasks, hash, id).Some?
            && Find(d.nodes[n].tasks, hash, id).value.status == Running && !CanClaim(d.nodes[n].tasks, hash, id)
  {
    var d, id := Apply(c, hash, Work(n, w, Die)), c.nodes[n].workers[w].id;
    ApplyKeepsInv(c, hash, Work(n, w, Die));
    PanickedForEver(d, hash, steps, n, w, id);
    RunKeepsInv(d, hash, steps);
    var q := RunFrom(d, hash, steps).nodes[n];
    assert NodeOk(hash, q) && WorkerOk(hash, q.tasks, q.workers[w]);
  }

  /** At the primary, a running task whose lease has expired is always listed and never claimable. */
  lemma ExpiredIsListedInVain(t: Tasks, hash: Hash, ring: seq<NodeId>, rf: nat, n: NodeId, id: TaskId, now: nat)
    requires Find(t, hash, id).Some? && Find(t, hash, id).value.status == Running && PrimaryHere(hash, ring, rf, n, id)
    requires Find(t, hash, id).value.leaseExpires.Some? && Find(t, hash, id).value.leaseExpires.value < now
    ensures IsAvailable(t, PrimaryOn(ring, rf, n), id, now) && !CanClaim(t, hash, id)
  {
    assert (id, Find(t, hash, id).value) in AvailableTasks(t, PrimaryOn(ring, rf, n), now);
  }

  ghost function OneWorker(): Cluster {
    Cluster(map["a" := QNode(map[], map[0 := Idle])], {}, [])
  }

  /** A single node whose only worker claims the only task. */
  ghost function LoneRun(task: Task): seq<Step> {
    [Submit("a", "t", task, 0, ["a"], 1), Work("a", 0, Scan(0, ["a"], 1, ["t"])), Work("a", 0, TryNext(0))]
  }

  lemma RunSnoc(c: Cluster, hash: Hash, steps: seq<Step>, s: Step)
    ensures RunFrom(c, hash, steps + [s]) == Apply(RunFrom(c, hash, steps), hash, s)
  {
    assert (steps + [s])[..|steps|] == steps;
  }

  /** The claim of the run, at its node. */
  lemma LoneClaim(hash: Hash, id: TaskId, e: TaskEntry, a: NodeId)
    requires PartOf(hash, id) == 0 && e.status == Pending
    ensures var q := QNode(map[0 := map[id := e]], map[0 := Scanning([id], [])]);
            After(q, hash, a, 0, TryNext(0)) == QNode(map[0 := map[id := Claimed(e, a, 0)]], map[0 := Executing(id, 0)])
  {
    var t: Tasks := map[0 := map[id := e]];
    assert Find(t, hash, id) == Some(e) && CanClaim(t, hash, id);
    assert Bucket(t, 0)[id := Claimed(e, a, 0)] == map[id := Claimed(e, a, 0)];
    assert Claim(t, hash, id, a, 0) == map[0 := map[id := Claimed(e, a, 0)]];
  }

  lemma LoneSubmit(hash: Hash, task: Task)
    requires PartOf(hash, "t") == 0 && IsPrimary(["a"], 1, "a", 0)
    ensures Apply(OneWorker(), hash, LoneRun(task)[0]).nodes
         == map["a" := QNode(map[0 := map["t" := NewEntry(task, 0)]], map[0 := Idle])]
  {
  }

  lemma LoneRunEnds(task: Task)
    ensures var hash: Hash := (x: string) => 0;
            var c := RunFrom(OneWorker(), hash, LoneRun(task));
            "a" in c.nodes && c.nodes["a"] == QNode(map[0 := map["t" := Claimed(NewEntry(task, 0), "a", 0)]], map[0 := Executing("t", 0)])
  {
    var hash: Hash := (x: string) => 0;
    var a: NodeId, id: TaskId := "a", "t";
    var s, e := LoneRun(task), NewEntry(task, 0);
    assert PartOf(hash, id) == 0 && IsPrimary([a], 1, a, 0) by { DivModUnique(0, 0, 0, 1); }
    LoneSubmit(hash, task);
    LoneListing(e);
    var c1 := Apply(OneWorker(), hash, s[0]);
    var c2 := Apply(c1, hash, s[1]);
    assert c2.nodes[a] == QNode(map[0 := map[id := e]], map[0 := Scanning([id], [])]);
    LoneClaim(hash, id, e, a);
    LoneRunIs(hash, task);
  }

  /** After it, if the lease is not renewed for 30 s, the task is listed as available and yet cannot be claimed. */
  lemma ExpiredLeaseCounterexample(task: Task)
    ensures var hash: Hash := (x: string) => 0;
            var c := RunFrom(OneWorker(), hash, LoneRun(task));
            && IsInitial(OneWorker()) && "a" in c.nodes
            && IsAvailable(c.nodes["a"].tasks, PrimaryOn(["a"], 1, "a"), "t", LEASE + 1)
            && !CanClaim(c.nodes["a"].tasks, hash, "t")
  {
    var hash: Hash := (x: string) => 0;
    LoneRunEnds(task);
    assert PartOf(hash, "t") == 0 && IsPrimary(["a"], 1, "a", 0) by { DivModUnique(0, 0, 0, 1); }
    ExpiredIsListedInVain(RunFrom(OneWorker(), hash, LoneRun(task)).nodes["a"].tasks, hash, ["a"], 1, "a", "t", LEASE + 1);
  }

  /** The only task is the whole listing. */
  lemma LoneListing(e: TaskEntry)
    requires e.status == Pending && IsPrimary(["a"], 1, "a", 0)
    ensures ListsAvailable(["t"], map[0 := map["t" := e]], "a", ["a"], 1, 0)
  {
    var t: Tasks, mine := map[0 := map["t" := e]], PrimaryOn(["a"], 1, "a");
    assert 0 in t && "t" in t[0] && mine(0) && Available(t[0]["t"], 0);
    assert ("t", e) in AvailableTasks(t, mine, 0);
    forall id ensures id in ["t"] <==> IsAvailable(t, mine, id, 0) {
      if IsAvailable(t, mine, id, 0) {
        var x :| (id, x) in AvailableTasks(t, mine, 0);
      }
    }
  }

  /** In the same run the worker then panics and its lease is renewed: the task is listed 30 s after that renewal only. */
  lemma PanickedRenewalRun(task: Task)
    ensures var hash: Hash := (x: string) => 0;
            var steps := LoneRun(task) + [Work("a", 0, Die)] + [Work("a", 0, Beat(20_000))];
            var c := RunFrom(OneWorker(), hash, steps);
            && "a" in c.nodes && 0 in c.nodes["a"].workers && c.nodes["a"].workers[0] == Panicked("t", 20_000)
            && !IsAvailable(c.nodes["a"].tasks, PrimaryOn(["a"], 1, "a"), "t", LEASE + 1)
            && IsAvailable(c.nodes["a"].tasks, PrimaryOn(["a"], 1, "a"), "t", LEASE + 20_001)
  {
    var hash: Hash := (x: string) => 0;
    var mine := PrimaryOn(["a"], 1, "a");
    var die, beat := Work("a", 0, Die), Work("a", 0, Beat(20_000));
    LoneRunEnds(task);
    var c := RunFrom(OneWorker(), hash, LoneRun(task));
    InitialInv(OneWorker(), hash);
    RunKeepsInv(OneWorker(), hash, LoneRun(task));
    RunSnoc(OneWorker(), hash, LoneRun(task), die);
    RunSnoc(OneWorker(), hash, LoneRun(task) + [die], beat);
    var d := Apply(Apply(c, hash, die), hash, beat);
    assert RunFrom(OneWorker(), hash, LoneRun(task) + [die] + [beat]) == d;
    assert PartOf(hash, "t") == 0 && mine(0) by { DivModUnique(0, 0, 0, 1); }
    RenewalOutlivesPanic(c, hash, "a", 0, 20_000, mine, LEASE + 1);
    RenewalOutlivesPanic(c, hash, "a", 0, 20_000, mine, LEASE + 20_001);
  }

  lemma LoneRunIs(hash: Hash, task: Task)
    ensures var s := LoneRun(task);
            RunFrom(OneWorker(), hash, s) == Apply(Apply(Apply(OneWorker(), hash, s[0]), hash, s[1]), hash, s[2])
  {
    var c0, s := OneWorker(), LoneRun(task);
    RunSnoc(c0, hash, [], s[0]);
    RunSnoc(c0, hash, [s[0]], s[1]);
    RunSnoc(c0, hash, [s[0], s[1]], s[2]);
    assert [] + [s[0]] == [s[0]] && [s[0]] + [s[1]] == [s[0], s[1]] && [s[0], s[1]] + [s[2]] == s;
  }
}
