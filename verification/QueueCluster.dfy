/**
 Whole runs of the task queue: submissions, forwards, replications, anti-entropy and any number of workers per node,
 interleaved step by step.

 Each step that consults the membership carries the ring the node believes in at that moment, so views may differ
 between nodes and change over time. A remote call is a message delivered zero or more times. A worker scans, tries
 the listed tasks one by one on its possibly stale list, and executes what it claims. The lease is renewed by a job of
 its own, which goes on when the worker hangs or panics. `claims` records every successful claim.
 */
module QueueCluster {
  import opened Common
  import opened NodeOrder
  import opened Placement
  import opened QueueSpec

  /** `missed`: tasks of the list tried in vain; `beat`: the last claim or renewal. A panicked worker's lease may still be renewed. */
  datatype Worker =
    | Idle
    | Scanning(list: seq<TaskId>, missed: seq<TaskId>)
    | Executing(id: TaskId, beat: nat)
    | Panicked(id: TaskId, beat: nat)
    | Died

  /** The worker claimed the task and has not finished it. */
  predicate Holding(x: Worker) {
    x.Executing? || x.Panicked?
  }

  datatype QNode = QNode(tasks: Tasks, workers: map<nat, Worker>)

  datatype Msg =
    | Forward(dst: NodeId, part: nat, id: TaskId, task: Task)
    | Replicate(dst: NodeId, part: nat, id: TaskId, entry: TaskEntry)
    | Fetch(requester: NodeId, source: NodeId, part: nat)
    | Dump(dst: NodeId, part: nat, entries: seq<(TaskId, TaskEntry)>)

  datatype ClaimRecord = ClaimRecord(node: NodeId, worker: nat, id: TaskId)

  datatype Cluster = Cluster(nodes: map<NodeId, QNode>, sent: set<Msg>, claims: seq<ClaimRecord>)

  /** What a worker does next. */
  datatype Action =
    | Scan(now: nat, ring: seq<NodeId>, rf: nat, list: seq<TaskId>)
    | TryNext(now: nat)
    | GiveUp
    | Beat(now: nat)
    | Finish(result: TaskResult)
    | Die

  /** `ring` and `rf` in a step are what the acting node believes. */
  datatype Step =
    | Submit(at: NodeId, id: TaskId, task: Task, now: nat, ring: seq<NodeId>, rf: nat)
    | RequestSync(at: NodeId, source: NodeId, part: nat)
    | Deliver(msg: Msg, now: nat, ring: seq<NodeId>, rf: nat, listing: seq<(TaskId, TaskEntry)>)
    | Work(at: NodeId, w: nat, act: Action)

  ghost predicate HasWorker(c: Cluster, at: NodeId, w: nat) {
    at in c.nodes && w in c.nodes[at].workers
  }

  ghost predicate IsListing(es: seq<(TaskId, TaskEntry)>, b: map<TaskId, TaskEntry>) {
    forall i :: 0 <= i < |es| ==> es[i].0 in b && b[es[i].0] == es[i].1
  }

  ghost predicate IsAvailable(t: Tasks, mine: nat -> bool, id: TaskId, now: nat) {
    exists e :: (id, e) in AvailableTasks(t, mine, now)
  }

  /** A worker's list: exactly the tasks available to the node as primary on its ring. */
  ghost predicate ListsAvailable(list: seq<TaskId>, t: Tasks, at: NodeId, ring: seq<NodeId>, rf: nat, now: nat) {
    forall id :: id in list <==> IsAvailable(t, PrimaryOn(ring, rf, at), id, now)
  }

  ghost predicate Ready(q: QNode, at: NodeId, w: nat, act: Action) {
    && w in q.workers
    && match act
       case Scan(now, ring, rf, list) => q.workers[w].Idle? && ListsAvailable(list, q.tasks, at, ring, rf, now)
       case TryNext(_) => q.workers[w].Scanning? && q.workers[w].list != []
       case GiveUp => q.workers[w].Scanning? && q.workers[w].list == []
       case Beat(_) => Holding(q.workers[w])
       case Finish(_) => q.workers[w].Executing?
       case Die => true
  }

  /** The node after its worker `w` has acted. */
  ghost function After(q: QNode, hash: Hash, at: NodeId, w: nat, act: Action): QNode
    requires Ready(q, at, w, act)
  {
    var x := q.workers[w];
    match act
    case Scan(_, _, _, list) => QNode(q.tasks, q.workers[w := Scanning(list, [])])
    case TryNext(now) =>
      if CanClaim(q.tasks, hash, x.list[0])
      then QNode(Claim(q.tasks, hash, x.list[0], at, now), q.workers[w := Executing(x.list[0], now)])
      else QNode(q.tasks, q.workers[w := Scanning(x.list[1..], x.missed + [x.list[0]])])
    case GiveUp => QNode(q.tasks, q.workers[w := Idle])
    case Beat(now) => QNode(Renew(q.tasks, hash, x.id, now), q.workers[w := x.(beat := now)])
    case Finish(result) => QNode(Complete(q.tasks, hash, x.id, result), q.workers[w := Idle])
    case Die => QNode(q.tasks, q.workers[w := if Holding(x) then Panicked(x.id, x.beat) else Died])
  }

  /** The claim the action makes, if any. */
  ghost function ClaimMade(q: QNode, hash: Hash, at: NodeId, w: nat, act: Action): seq<ClaimRecord>
    requires Ready(q, at, w, act)
  {
    if act.TryNext? && CanClaim(q.tasks, hash, q.workers[w].list[0]) then [ClaimRecord(at, w, q.workers[w].list[0])] else []
  }

  ghost predicate Enabled(c: Cluster, s: Step) {
    match s
    case Submit(at, _, _, _, _, _) => at in c.nodes
    case RequestSync(at, _, _) => at in c.nodes
    case Deliver(msg, _, _, _, listing) =>
      && msg in c.sent
      && (if msg.Fetch? then msg.source in c.nodes && IsListing(listing, Bucket(c.nodes[msg.source].tasks, msg.part))
          else msg.dst in c.nodes)
    case Work(at, w, act) => at in c.nodes && Ready(c.nodes[at], at, w, act)
  }

  ghost function SetTasks(c: Cluster, at: NodeId, t: Tasks): Cluster
    requires at in c.nodes
  {
    c.(nodes := c.nodes[at := c.nodes[at].(tasks := t)])
  }

  ghost function Send(c: Cluster, msgs: set<Msg>): Cluster {
    c.(sent := c.sent + msgs)
  }

  /** Store as primary: insert locally, replicate the entry to the backups on the believed ring. */
  ghost function StoreAsPrimary(c: Cluster, at: NodeId, p: nat, id: TaskId, e: TaskEntry, ring: seq<NodeId>, rf: nat): Cluster
    requires at in c.nodes
  {
    var owners := RingOwners(ring, rf, p);
    Send(SetTasks(c, at, InsertTask(c.nodes[at].tasks, p, id, e)),
         set i | 1 <= i < |owners| :: Replicate(owners[i], p, id, e))
  }

  ghost function Apply(c: Cluster, hash: Hash, s: Step): Cluster {
    if !Enabled(c, s) then c
    else match s
      case Submit(at, id, task, now, ring, rf) =>
        var p := PartOf(hash, id);
        var owners := RingOwners(ring, rf, p);
        if owners == [] then SetTasks(c, at, InsertTask(c.nodes[at].tasks, p, id, NewEntry(task, now)))
        else if owners[0] == at then StoreAsPrimary(c, at, p, id, NewEntry(task, now), ring, rf)
        else Send(c, {Forward(owners[0], p, id, task)})
      case RequestSync(at, source, p) => Send(c, {Fetch(at, source, p)})
      case Deliver(msg, now, ring, rf, listing) =>
        (match msg
         case Forward(dst, p, id, task) => StoreAsPrimary(c, dst, p, id, NewEntry(task, now), ring, rf)
         case Replicate(dst, p, id, e) => SetTasks(c, dst, InsertTask(c.nodes[dst].tasks, p, id, e))
         case Fetch(requester, source, p) => Send(c, {Dump(requester, p, listing)})
         case Dump(dst, p, es) => SetTasks(c, dst, InsertTasks(c.nodes[dst].tasks, p, es)))
      case Work(at, w, act) =>
        var q := c.nodes[at];
        Cluster(c.nodes[at := After(q, hash, at, w, act)], c.sent, c.claims + ClaimMade(q, hash, at, w, act))
  }

  ghost function RunFrom(c: Cluster, hash: Hash, steps: seq<Step>): Cluster {
    if steps == [] then c else Apply(RunFrom(c, hash, steps[..|steps| - 1]), hash, steps[|steps| - 1])
  }

  /** Empty queues; every node of the map has its idle workers. */
  ghost predicate IsInitial(c: Cluster) {
    && c.sent == {} && c.claims == []
    && forall n :: n in c.nodes ==>
         c.nodes[n].tasks == map[] && forall w :: w in c.nodes[n].workers ==> c.nodes[n].workers[w] == Idle
  }

  // ---- The invariant ----

  ghost predicate EntryOk(hash: Hash, p: nat, id: TaskId, e: TaskEntry) {
    p == PartOf(hash, id) && Coherent(e)
  }

  ghost predicate TasksOk(hash: Hash, t: Tasks) {
    forall p, id :: p in t && id in t[p] ==> EntryOk(hash, p, id, t[p][id])
  }

  ghost predicate MsgOk(hash: Hash, msg: Msg) {
    match msg
    case Forward(_, p, id, _) => p == PartOf(hash, id)
    case Replicate(_, p, id, e) => EntryOk(hash, p, id, e)
    case Fetch(_, _, _) => true
    case Dump(_, p, es) => forall i :: 0 <= i < |es| ==> EntryOk(hash, p, es[i].0, es[i].1)
  }

  /** The task is known here and no longer pending. */
  ghost predicate Taken(t: Tasks, hash: Hash, id: TaskId) {
    Find(t, hash, id).Some? && Find(t, hash, id).value.status != Pending
  }

  /** The task is running on the lease of the beat. */
  ghost predicate IsHeld(hash: Hash, t: Tasks, id: TaskId, beat: nat) {
    && Find(t, hash, id).Some? && Find(t, hash, id).value.status == Running
    && Find(t, hash, id).value.leaseExpires == Some(beat + LEASE)
  }

  ghost predicate WorkerOk(hash: Hash, t: Tasks, x: Worker) {
    match x
    case Idle => true
    case Died => true
    case Scanning(list, missed) =>
      (forall i :: 0 <= i < |list| ==> Find(t, hash, list[i]).Some?) && (forall i :: 0 <= i < |missed| ==> Taken(t, hash, missed[i]))
    case Executing(id, beat) => IsHeld(hash, t, id, beat)
    case Panicked(id, beat) => IsHeld(hash, t, id, beat)
  }

  /** Workers of one node: each consistent with the table, and no two holding the same task. */
  ghost predicate NodeOk(hash: Hash, q: QNode) {
    && TasksOk(hash, q.tasks)
    && (forall w :: w in q.workers ==> WorkerOk(hash, q.tasks, q.workers[w]))
    && (forall v, w :: v in q.workers && w in q.workers && v != w && Holding(q.workers[v]) && Holding(q.workers[w])
          ==> q.workers[v].id != q.workers[w].id)
  }

  ghost predicate ClaimsOk(c: Cluster, hash: Hash) {
    && (forall i :: 0 <= i < |c.claims| ==> c.claims[i].node in c.nodes && Taken(c.nodes[c.claims[i].node].tasks, hash, c.claims[i].id))
    && (forall i, j :: 0 <= i < j < |c.claims| ==> c.claims[i].node != c.claims[j].node || c.claims[i].id != c.claims[j].id)
  }

  ghost predicate Inv(c: Cluster, hash: Hash) {
    && (forall n :: n in c.nodes ==> NodeOk(hash, c.nodes[n]))
    && (forall msg :: msg in c.sent ==> MsgOk(hash, msg))
    && ClaimsOk(c, hash)
  }

  /** Tables only grow, and what is taken stays taken. */
  ghost predicate Keeps(hash: Hash, t: Tasks, t': Tasks) {
    forall id :: Find(t, hash, id).Some? ==>
      Find(t', hash, id).Some? && (Find(t', hash, id).value.status == Pending ==> Find(t, hash, id).value.status == Pending)
  }

  /** Inserting leaves known tasks exactly as they are. */
  ghost predicate LeavesKnown(hash: Hash, t: Tasks, t': Tasks) {
    forall id :: Find(t, hash, id).Some? ==> Find(t', hash, id) == Find(t, hash, id)
  }

  lemma InsertOk(hash: Hash, t: Tasks, p: nat, id: TaskId, e: TaskEntry)
    requires TasksOk(hash, t) && EntryOk(hash, p, id, e)
    ensures TasksOk(hash, InsertTask(t, p, id, e)) && LeavesKnown(hash, t, InsertTask(t, p, id, e))
  {
  }

  lemma {:induction false} InsertAllOk(hash: Hash, t: Tasks, p: nat, es: seq<(TaskId, TaskEntry)>)
    requires TasksOk(hash, t) && forall i :: 0 <= i < |es| ==> EntryOk(hash, p, es[i].0, es[i].1)
    ensures TasksOk(hash, InsertTasks(t, p, es)) && LeavesKnown(hash, t, InsertTasks(t, p, es))
  {
    if es != [] {
      var init, last := es[..|es| - 1], es[|es| - 1];
      InsertAllOk(hash, t, p, init);
      InsertOk(hash, InsertTasks(t, p, init), p, last.0, last.1);
    }
  }

  lemma SetOk(hash: Hash, t: Tasks, id: TaskId, e: TaskEntry)
    requires TasksOk(hash, t) && Coherent(e)
    ensures TasksOk(hash, Set(t, hash, id, e))
    ensures forall x :: Find(Set(t, hash, id, e), hash, x) == if x == id then Some(e) else Find(t, hash, x)
  {
  }

  // ---- Inserting steps ----

  lemma InsertKeepsNode(hash: Hash, q: QNode, t: Tasks)
    requires NodeOk(hash, q) && TasksOk(hash, t) && LeavesKnown(hash, q.tasks, t)
    ensures NodeOk(hash, q.(tasks := t))
  {
    forall w | w in q.workers ensures WorkerOk(hash, t, q.workers[w]) {
      assert WorkerOk(hash, q.tasks, q.workers[w]);
    }
  }

  lemma InsertKeepsInv(c: Cluster, hash: Hash, at: NodeId, t: Tasks, msgs: set<Msg>)
    requires Inv(c, hash) && at in c.nodes && TasksOk(hash, t) && LeavesKnown(hash, c.nodes[at].tasks, t)
    requires forall msg :: msg in msgs ==> MsgOk(hash, msg)
    ensures Inv(Send(SetTasks(c, at, t), msgs), hash)
  {
    InsertKeepsNode(hash, c.nodes[at], t);
  }

  lemma SendKeepsInv(c: Cluster, hash: Hash, msgs: set<Msg>)
    requires Inv(c, hash) && forall msg :: msg in msgs ==> MsgOk(hash, msg)
    ensures Inv(Send(c, msgs), hash)
  {
  }

  lemma StoreKeepsInv(c: Cluster, hash: Hash, at: NodeId, p: nat, id: TaskId, e: TaskEntry, ring: seq<NodeId>, rf: nat)
    requires Inv(c, hash) && at in c.nodes && EntryOk(hash, p, id, e)
    ensures Inv(StoreAsPrimary(c, at, p, id, e, ring, rf), hash)
  {
    var owners := RingOwners(ring, rf, p);
    InsertOk(hash, c.nodes[at].tasks, p, id, e);
    InsertKeepsInv(c, hash, at, InsertTask(c.nodes[at].tasks, p, id, e), set i | 1 <= i < |owners| :: Replicate(owners[i], p, id, e));
  }

  lemma SubmitKeepsInv(c: Cluster, hash: Hash, s: Step)
    requires Inv(c, hash) && s.Submit?
    ensures Inv(Apply(c, hash, s), hash)
  {
    if Enabled(c, s) {
      var Submit(at, id, task, now, ring, rf) := s;
      var p := PartOf(hash, id);
      StoreKeepsInv(c, hash, at, p, id, NewEntry(task, now), ring, rf);
      InsertOk(hash, c.nodes[at].tasks, p, id, NewEntry(task, now));
      InsertKeepsInv(c, hash, at, InsertTask(c.nodes[at].tasks, p, id, NewEntry(task, now)), {});
      var d := SetTasks(c, at, InsertTask(c.nodes[at].tasks, p, id, NewEntry(task, now)));
      assert Send(d, {}) == d by { assert d.sent + {} == d.sent; }
      if RingOwners(ring, rf, p) != [] {
        SendKeepsInv(c, hash, {Forward(RingOwners(ring, rf, p)[0], p, id, task)});
      }
    }
  }

  lemma DeliverKeepsInv(c: Cluster, hash: Hash, s: Step)
    requires Inv(c, hash) && s.Deliver?
    ensures Inv(Apply(c, hash, s), hash)
  {
    if Enabled(c, s) {
      assert MsgOk(hash, s.msg);
      match s.msg
      case Forward(dst, p, id, task) => StoreKeepsInv(c, hash, dst, p, id, NewEntry(task, s.now), s.ring, s.rf);
      case Replicate(dst, p, id, e) =>
        InsertOk(hash, c.nodes[dst].tasks, p, id, e);
        var d := SetTasks(c, dst, InsertTask(c.nodes[dst].tasks, p, id, e));
        InsertKeepsInv(c, hash, dst, InsertTask(c.nodes[dst].tasks, p, id, e), {});
        assert Send(d, {}) == d by { assert d.sent + {} == d.sent; }
      case Fetch(requester, source, p) =>
        assert TasksOk(hash, c.nodes[source].tasks);
        SendKeepsInv(c, hash, {Dump(requester, p, s.listing)});
      case Dump(dst, p, es) =>
        InsertAllOk(hash, c.nodes[dst].tasks, p, es);
        var d := SetTasks(c, dst, InsertTasks(c.nodes[dst].tasks, p, es));
        InsertKeepsInv(c, hash, dst, InsertTasks(c.nodes[dst].tasks, p, es), {});
        assert Send(d, {}) == d by { assert d.sent + {} == d.sent; }
    }
  }

  // ---- Worker steps ----

  /** A node whose worker `w` moves to `x` and whose table moves to `t`, changing at most the task `id`. */
  ghost predicate WorkerMove(hash: Hash, q: QNode, t: Tasks, w: nat, x: Worker, id: TaskId) {
    && TasksOk(hash, t) && WorkerOk(hash, t, x)
    && (forall y :: y != id ==> Find(t, hash, y) == Find(q.tasks, hash, y))
    && Keeps(hash, q.tasks, t)
    && (Find(t, hash, id) != Find(q.tasks, hash, id) ==>
          forall v :: v in q.workers && v != w && Holding(q.workers[v]) ==> q.workers[v].id != id)
    && (Holding(x) ==> forall v :: v in q.workers && v != w && Holding(q.workers[v]) ==> q.workers[v].id != x.id)
  }

  lemma WorkerMoveKeepsNode(hash: Hash, q: QNode, t: Tasks, w: nat, x: Worker, id: TaskId)
    requires NodeOk(hash, q) && WorkerMove(hash, q, t, w, x, id)
    ensures NodeOk(hash, QNode(t, q.workers[w := x]))
  {
    forall v | v in q.workers && v != w ensures WorkerOk(hash, t, q.workers[v]) {
      assert WorkerOk(hash, q.tasks, q.workers[v]);
    }
  }

  lemma TryKeepsNode(hash: Hash, q: QNode, at: NodeId, w: nat, now: nat)
    requires NodeOk(hash, q) && Ready(q, at, w, TryNext(now))
    ensures var q' := After(q, hash, at, w, TryNext(now));
            NodeOk(hash, q') && Keeps(hash, q.tasks, q'.tasks) && Taken(q'.tasks, hash, q.workers[w].list[0])
  {
    var x, t, id := q.workers[w], q.tasks, q.workers[w].list[0];
    assert WorkerOk(hash, t, x) && Find(t, hash, x.list[0]).Some?;
    if CanClaim(t, hash, id) {
      SetOk(hash, t, id, Claimed(Find(t, hash, id).value, at, now));
      forall v | v in q.workers && Holding(q.workers[v]) ensures q.workers[v].id != id {
        assert WorkerOk(hash, t, q.workers[v]);
      }
      WorkerMoveKeepsNode(hash, q, Claim(t, hash, id, at, now), w, Executing(id, now), id);
    } else {
      assert Taken(t, hash, id);
      WorkerMoveKeepsNode(hash, q, t, w, Scanning(x.list[1..], x.missed + [id]), id);
    }
  }

  lemma ScanKeepsNode(hash: Hash, q: QNode, at: NodeId, w: nat, act: Action)
    requires NodeOk(hash, q) && act.Scan? && Ready(q, at, w, act)
    ensures NodeOk(hash, After(q, hash, at, w, act))
  {
    forall i | 0 <= i < |act.list| ensures Find(q.tasks, hash, act.list[i]).Some? {
      assert act.list[i] in act.list && IsAvailable(q.tasks, PrimaryOn(act.ring, act.rf, at), act.list[i], act.now);
      var e :| (act.list[i], e) in AvailableTasks(q.tasks, PrimaryOn(act.ring, act.rf, at), act.now);
    }
    WorkerMoveKeepsNode(hash, q, q.tasks, w, Scanning(act.list, []), "");
  }

  lemma BeatKeepsNode(hash: Hash, q: QNode, at: NodeId, w: nat, now: nat)
    requires NodeOk(hash, q) && Ready(q, at, w, Beat(now))
    ensures var q' := After(q, hash, at, w, Beat(now)); NodeOk(hash, q') && Keeps(hash, q.tasks, q'.tasks)
  {
    var id := q.workers[w].id;
    assert WorkerOk(hash, q.tasks, q.workers[w]);
    FoundIsOk(hash, q.tasks, id);
    SetOk(hash, q.tasks, id, Find(q.tasks, hash, id).value.(leaseExpires := Some(now + LEASE)));
    WorkerMoveKeepsNode(hash, q, Renew(q.tasks, hash, id, now), w, q.workers[w].(beat := now), id);
  }

  lemma FinishKeepsNode(hash: Hash, q: QNode, at: NodeId, w: nat, result: TaskResult)
    requires NodeOk(hash, q) && Ready(q, at, w, Finish(result))
    ensures var q' := After(q, hash, at, w, Finish(result)); NodeOk(hash, q') && Keeps(hash, q.tasks, q'.tasks)
  {
    var id := q.workers[w].id;
    assert WorkerOk(hash, q.tasks, q.workers[w]);
    FoundIsOk(hash, q.tasks, id);
    SetOk(hash, q.tasks, id, Find(q.tasks, hash, id).value.(status := StatusOf(result), leaseExpires := None));
    WorkerMoveKeepsNode(hash, q, Complete(q.tasks, hash, id, result), w, Idle, id);
  }

  lemma FoundIsOk(hash: Hash, t: Tasks, id: TaskId)
    requires TasksOk(hash, t) && Find(t, hash, id).Some?
    ensures Coherent(Find(t, hash, id).value)
  {
    var p := PartOf(hash, id);
    assert p in t && id in t[p];
  }

  /** Whatever its worker does, the node stays consistent, and only forgets that tasks are pending. */
  lemma AfterKeepsNode(hash: Hash, q: QNode, at: NodeId, w: nat, act: Action)
    requires NodeOk(hash, q) && Ready(q, at, w, act)
    ensures NodeOk(hash, After(q, hash, at, w, act)) && Keeps(hash, q.tasks, After(q, hash, at, w, act).tasks)
    ensures act.TryNext? ==> Taken(After(q, hash, at, w, act).tasks, hash, q.workers[w].list[0])
  {
    match act
    case Scan(_, _, _, _) => ScanKeepsNode(hash, q, at, w, act);
    case TryNext(now) => TryKeepsNode(hash, q, at, w, now);
    case GiveUp => WorkerMoveKeepsNode(hash, q, q.tasks, w, Idle, "");
    case Beat(now) => BeatKeepsNode(hash, q, at, w, now);
    case Finish(result) => FinishKeepsNode(hash, q, at, w, result);
    case Die =>
      var x := q.workers[w];
      assert WorkerOk(hash, q.tasks, x);
      WorkerMoveKeepsNode(hash, q, q.tasks, w, if Holding(x) then Panicked(x.id, x.beat) else Died, "");
  }

  lemma WorkKeepsInv(c: Cluster, hash: Hash, at: NodeId, w: nat, act: Action)
    requires Inv(c, hash) && Enabled(c, Work(at, w, act))
    ensures Inv(Apply(c, hash, Work(at, w, act)), hash)
  {
    var q := c.nodes[at];
    AfterKeepsNode(hash, q, at, w, act);
    ClaimsKept(c, Apply(c, hash, Work(at, w, act)), hash, at, After(q, hash, at, w, act), ClaimMade(q, hash, at, w, act));
  }

  /** A node that forgets nothing, and at most one claim of a task pending there before and taken after. */
  lemma ClaimsKept(c: Cluster, d: Cluster, hash: Hash, at: NodeId, q: QNode, made: seq<ClaimRecord>)
    requires ClaimsOk(c, hash) && at in c.nodes && Keeps(hash, c.nodes[at].tasks, q.tasks)
    requires d.nodes == c.nodes[at := q] && d.claims == c.claims + made
    requires made == [] || (made == [made[0]] && made[0].node == at
                            && CanClaim(c.nodes[at].tasks, hash, made[0].id) && Taken(q.tasks, hash, made[0].id))
    ensures ClaimsOk(d, hash)
  {
    forall i | 0 <= i < |c.claims|
      ensures c.claims[i].node in d.nodes && Taken(d.nodes[c.claims[i].node].tasks, hash, c.claims[i].id)
      ensures made != [] ==> c.claims[i].node != at || c.claims[i].id != made[0].id
    {
      assert Taken(c.nodes[c.claims[i].node].tasks, hash, c.claims[i].id);
    }
  }

  lemma ApplyKeepsInv(c: Cluster, hash: Hash, s: Step)
    requires Inv(c, hash)
    ensures Inv(Apply(c, hash, s), hash)
  {
    if Enabled(c, s) {
      match s
      case Submit(_, _, _, _, _, _) => SubmitKeepsInv(c, hash, s);
      case RequestSync(at, source, p) => SendKeepsInv(c, hash, {Fetch(at, source, p)});
      case Deliver(_, _, _, _, _) => DeliverKeepsInv(c, hash, s);
      case Work(at, w, act) => WorkKeepsInv(c, hash, at, w, act);
    }
  }

  lemma InitialInv(c: Cluster, hash: Hash)
    requires IsInitial(c)
    ensures Inv(c, hash)
  {
  }

  lemma {:induction false} RunKeepsInv(c: Cluster, hash: Hash, steps: seq<Step>)
    requires Inv(c, hash)
    ensures Inv(RunFrom(c, hash, steps), hash)
  {
    if steps != [] {
      RunKeepsInv(c, hash, steps[..|steps| - 1]);
      ApplyKeepsInv(RunFrom(c, hash, steps[..|steps| - 1]), hash, steps[|steps| - 1]);
    }
  }
}
