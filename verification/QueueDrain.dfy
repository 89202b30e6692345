/** In every interleaving, once nothing more is stored at a node, its workers run out of pending tasks. */
module QueueDrain {
  import opened Common
  import opened NodeOrder
  import opened QueueSpec
  import opened QueueCluster

  // ---- Claims and pending tasks balance ----

  ghost function Everywhere(): nat -> bool {
    (p: nat) => true
  }

  ghost function PendingAt(t: Tasks): set<TaskId> {
    OwnedPending(t, Everywhere())
  }

  /** How many of the claims were made at `n`. */
  ghost function ClaimsAt(claims: seq<ClaimRecord>, n: NodeId): nat {
    if claims == [] then 0
    else ClaimsAt(claims[..|claims| - 1], n) + (if claims[|claims| - 1].node == n then 1 else 0)
  }

  /** The step stores tasks at `n`. */
  ghost predicate StoresAt(s: Step, n: NodeId) {
    (s.Submit? && s.at == n) || (s.Deliver? && !s.msg.Fetch? && s.msg.dst == n)
  }

  /** A table that differs only in `id`, which is not pending any more: it loses exactly `id` if that was pending. */
  lemma PendingDrops(t: Tasks, t': Tasks, hash: Hash, id: TaskId)
    requires TasksOk(hash, t) && TasksOk(hash, t') && !CanClaim(t', hash, id)
    requires forall x :: x != id ==> Find(t', hash, x) == Find(t, hash, x)
    ensures PendingAt(t') == PendingAt(t) - {id}
  {
    forall x ensures x in PendingAt(t') <==> x in PendingAt(t) - {id} {
      PendingIff(t, hash, Everywhere(), x);
      PendingIff(t', hash, Everywhere(), x);
    }
  }

  lemma ClaimsAtSnoc(claims: seq<ClaimRecord>, r: ClaimRecord, n: NodeId)
    ensures ClaimsAt(claims + [r], n) == ClaimsAt(claims, n) + (if r.node == n then 1 else 0)
  {
    assert (claims + [r])[..|claims|] == claims;
  }

  /** A claim removes one pending task; nothing else a worker does changes which are pending. */
  lemma WorkDrains(q: QNode, hash: Hash, at: NodeId, w: nat, act: Action)
    requires NodeOk(hash, q) && Ready(q, at, w, act)
    ensures var q', made := After(q, hash, at, w, act), ClaimMade(q, hash, at, w, act);
            if made == [] then PendingAt(q'.tasks) == PendingAt(q.tasks)
            else made[0].id in PendingAt(q.tasks) && PendingAt(q'.tasks) == PendingAt(q.tasks) - {made[0].id}
  {
    match act
    case TryNext(now) =>
      var id := q.workers[w].list[0];
      if CanClaim(q.tasks, hash, id) {
        SetOk(hash, q.tasks, id, Claimed(Find(q.tasks, hash, id).value, at, now));
        PendingIff(q.tasks, hash, Everywhere(), id);
        PendingDrops(q.tasks, Claim(q.tasks, hash, id, at, now), hash, id);
      }
    case Beat(now) =>
      var id := q.workers[w].id;
      assert WorkerOk(hash, q.tasks, q.workers[w]);
      FoundIsOk(hash, q.tasks, id);
      PendingIff(q.tasks, hash, Everywhere(), id);
      SetOk(hash, q.tasks, id, Find(q.tasks, hash, id).value.(leaseExpires := Some(now + LEASE)));
      PendingDrops(q.tasks, Renew(q.tasks, hash, id, now), hash, id);
    case Finish(result) =>
      var id := q.workers[w].id;
      assert WorkerOk(hash, q.tasks, q.workers[w]);
      FoundIsOk(hash, q.tasks, id);
      PendingIff(q.tasks, hash, Everywhere(), id);
      SetOk(hash, q.tasks, id, Find(q.tasks, hash, id).value.(status := StatusOf(result), leaseExpires := None));
      PendingDrops(q.tasks, Complete(q.tasks, hash, id, result), hash, id);
    case _ =>
  }

  /** Pending tasks plus claims made at the node. */
  ghost function Burden(c: Cluster, n: NodeId): nat
    requires n in c.nodes
  {
    |PendingAt(c.nodes[n].tasks)| + ClaimsAt(c.claims, n)
  }

  lemma MoveKeepsBurden(c: Cluster, d: Cluster, at: NodeId, q: QNode, made: seq<ClaimRecord>, n: NodeId)
    requires at in c.nodes && n in c.nodes && d.nodes == c.nodes[at := q] && d.claims == c.claims + made
    requires var before, after := PendingAt(c.nodes[at].tasks), PendingAt(q.tasks);
             if made == [] then after == before
             else made == [made[0]] && made[0].node == at && made[0].id in before && after == before - {made[0].id}
    ensures Burden(d, n) == Burden(c, n)
  {
    if made == [] {
      assert c.claims + made == c.claims;
    } else {
      ClaimsAtSnoc(c.claims, made[0], n);
    }
  }

  lemma StepDrains(c: Cluster, hash: Hash, s: Step, n: NodeId)
    requires Inv(c, hash) && n in c.nodes && Enabled(c, s) && !StoresAt(s, n)
    ensures n in Apply(c, hash, s).nodes && Burden(Apply(c, hash, s), n) == Burden(c, n)
  {
    if s.Work? {
      var q := c.nodes[s.at];
      assert NodeOk(hash, q);
      WorkDrains(q, hash, s.at, s.w, s.act);
      MoveKeepsBurden(c, Apply(c, hash, s), s.at, After(q, hash, s.at, s.w, s.act), ClaimMade(q, hash, s.at, s.w, s.act), n);
    }
  }

  /**
   While nothing is stored at `n`, its pending tasks and its claims balance: every claim removes exactly one pending
   task and nothing else does, so the pending ones run out after exactly that many claims.
   */
  lemma {:induction false} ClaimsDrainPending(c: Cluster, hash: Hash, steps: seq<Step>, n: NodeId)
    requires Inv(c, hash) && n in c.nodes
    requires forall i :: 0 <= i < |steps| ==> !StoresAt(steps[i], n)
    ensures n in RunFrom(c, hash, steps).nodes && Burden(RunFrom(c, hash, steps), n) == Burden(c, n)
  {
    if steps != [] {
      var init, s := steps[..|steps| - 1], steps[|steps| - 1];
      ClaimsDrainPending(c, hash, init, n);
      RunKeepsInv(c, hash, init);
      var mid := RunFrom(c, hash, init);
      if Enabled(mid, s) {
        StepDrains(mid, hash, s, n);
      }
    }
  }

  // ---- A worker at the end of its list has left nothing pending ----

  /** The worker's list covers the pending tasks it is to look after. */
  ghost predicate Covers(q: QNode, w: nat, mine: nat -> bool) {
    w in q.workers
    && (q.workers[w].Scanning? ==> forall id :: id in OwnedPending(q.tasks, mine) ==> id in q.workers[w].list)
  }

  /** No worker makes a task pending. */
  lemma WorkShrinksPending(q: QNode, hash: Hash, at: NodeId, v: nat, act: Action, mine: nat -> bool)
    requires NodeOk(hash, q) && Ready(q, at, v, act)
    ensures OwnedPending(After(q, hash, at, v, act).tasks, mine) <= OwnedPending(q.tasks, mine)
  {
    var t, t' := q.tasks, After(q, hash, at, v, act).tasks;
    WorkDrains(q, hash, at, v, act);
    AfterKeepsNode(hash, q, at, v, act);
    forall id | id in OwnedPending(t', mine) ensures id in OwnedPending(t, mine) {
      PendingIff(t', hash, mine, id);
      PendingIff(t', hash, Everywhere(), id);
      PendingIff(t, hash, Everywhere(), id);
      PendingIff(t, hash, mine, id);
    }
  }

  /** A scan lists every pending task the node owns. */
  lemma ScanCovers(q: QNode, hash: Hash, at: NodeId, w: nat, act: Action, mine: nat -> bool)
    requires NodeOk(hash, q) && act.Scan? && Ready(q, at, w, act) && mine == PrimaryOn(act.ring, act.rf, at)
    ensures Covers(After(q, hash, at, w, act), w, mine)
  {
    forall id | id in OwnedPending(q.tasks, mine) ensures id in act.list {
      PendingIsListed(q.tasks, mine, act.now, id);
      var x :| x in AvailableTasks(q.tasks, mine, act.now) && x.0 == id;
      assert (id, x.1) in AvailableTasks(q.tasks, mine, act.now);
      assert IsAvailable(q.tasks, mine, id, act.now);
    }
  }

  /** A task tried in vain is not pending. */
  lemma TryCovers(q: QNode, hash: Hash, at: NodeId, w: nat, now: nat, mine: nat -> bool)
    requires NodeOk(hash, q) && Ready(q, at, w, TryNext(now)) && Covers(q, w, mine)
    ensures Covers(After(q, hash, at, w, TryNext(now)), w, mine)
  {
    var list := q.workers[w].list;
    if !CanClaim(q.tasks, hash, list[0]) {
      PendingIff(q.tasks, hash, mine, list[0]);
      assert forall id :: id in list ==> id == list[0] || id in list[1..];
    }
  }

  lemma WorkCovers(q: QNode, hash: Hash, at: NodeId, v: nat, act: Action, w: nat, mine: nat -> bool)
    requires NodeOk(hash, q) && Ready(q, at, v, act) && Covers(q, w, mine)
    requires v == w && act.Scan? ==> mine == PrimaryOn(act.ring, act.rf, at)
    ensures Covers(After(q, hash, at, v, act), w, mine)
  {
    if v == w && act.Scan? {
      ScanCovers(q, hash, at, w, act, mine);
    } else if v == w && act.TryNext? {
      TryCovers(q, hash, at, w, act.now, mine);
    } else {
      WorkShrinksPending(q, hash, at, v, act, mine);
    }
  }

  lemma Unstored(c: Cluster, hash: Hash, s: Step, n: NodeId)
    requires n in c.nodes && !StoresAt(s, n) && !(s.Work? && s.at == n)
    ensures n in Apply(c, hash, s).nodes && Apply(c, hash, s).nodes[n] == c.nodes[n]
  {
  }

  /** The step is a scan by the worker. */
  ghost predicate ScansAt(s: Step, n: NodeId, w: nat) {
    s.Work? && s.at == n && s.w == w && s.act.Scan?
  }

  /** Nothing is stored at `n`, and its worker `w` believes in one ring. */
  ghost predicate Quiet(steps: seq<Step>, n: NodeId, w: nat, ring: seq<NodeId>, rf: nat) {
    forall i :: 0 <= i < |steps| ==>
      !StoresAt(steps[i], n) && (ScansAt(steps[i], n, w) ==> steps[i].act.ring == ring && steps[i].act.rf == rf)
  }

  lemma StepCovers(c: Cluster, hash: Hash, s: Step, n: NodeId, w: nat, ring: seq<NodeId>, rf: nat)
    requires Inv(c, hash) && n in c.nodes && Quiet([s], n, w, ring, rf) && Covers(c.nodes[n], w, PrimaryOn(ring, rf, n))
    ensures n in Apply(c, hash, s).nodes && Covers(Apply(c, hash, s).nodes[n], w, PrimaryOn(ring, rf, n))
    ensures OwnedPending(Apply(c, hash, s).nodes[n].tasks, PrimaryOn(ring, rf, n)) <= OwnedPending(c.nodes[n].tasks, PrimaryOn(ring, rf, n))
  {
    assert !StoresAt([s][0], n);
    if s.Work? && s.at == n {
      if Enabled(c, s) {
        assert NodeOk(hash, c.nodes[n]);
        WorkCovers(c.nodes[n], hash, n, s.w, s.act, w, PrimaryOn(ring, rf, n));
        WorkShrinksPending(c.nodes[n], hash, n, s.w, s.act, PrimaryOn(ring, rf, n));
      }
    } else {
      Unstored(c, hash, s, n);
    }
  }

  lemma {:induction false} RunCovers(c: Cluster, hash: Hash, steps: seq<Step>, n: NodeId, w: nat, ring: seq<NodeId>, rf: nat)
    requires Inv(c, hash) && n in c.nodes && Quiet(steps, n, w, ring, rf) && Covers(c.nodes[n], w, PrimaryOn(ring, rf, n))
    ensures n in RunFrom(c, hash, steps).nodes && Covers(RunFrom(c, hash, steps).nodes[n], w, PrimaryOn(ring, rf, n))
  {
    if steps != [] {
      var init, s := steps[..|steps| - 1], steps[|steps| - 1];
      RunCovers(c, hash, init, n, w, ring, rf);
      RunKeepsInv(c, hash, init);
      StepCovers(RunFrom(c, hash, init), hash, s, n, w, ring, rf);
    }
  }

  /**
   In any interleaving in which nothing is stored at the node: when a worker that has scanned in it stands at the end
   of its list, no task the node owns is pending, whatever expired running entries the list held.
   */
  lemma FruitlessPass(c: Cluster, hash: Hash, steps: seq<Step>, n: NodeId, w: nat, ring: seq<NodeId>, rf: nat)
    requires Inv(c, hash) && HasWorker(c, n, w) && !c.nodes[n].workers[w].Scanning? && Quiet(steps, n, w, ring, rf)
    requires HasWorker(RunFrom(c, hash, steps), n, w)
    requires RunFrom(c, hash, steps).nodes[n].workers[w].Scanning? && RunFrom(c, hash, steps).nodes[n].workers[w].list == []
    ensures OwnedPending(RunFrom(c, hash, steps).nodes[n].tasks, PrimaryOn(ring, rf, n)) == {}
  {
    RunCovers(c, hash, steps, n, w, ring, rf);
  }

  // ---- Enough scans drain the node ----

  /** How many scans the worker began. */
  ghost function Scans(c: Cluster, hash: Hash, steps: seq<Step>, n: NodeId, w: nat): nat {
    if steps == [] then 0
    else
      var init, s := steps[..|steps| - 1], steps[|steps| - 1];
      Scans(c, hash, init, n, w) + (if ScansAt(s, n, w) && Enabled(RunFrom(c, hash, init), s) then 1 else 0)
  }

  /** A scan of the worker that no claim has ended, or never will. */
  ghost predicate Unfinished(q: QNode, w: nat) {
    w in q.workers && (q.workers[w].Scanning? || q.workers[w].Died?)
  }

  /** Every scan so far but an unfinished one ended in a claim, or nothing is pending any more. */
  ghost predicate Paced(c: Cluster, n: NodeId, w: nat, mine: nat -> bool, scans: nat, before: nat) {
    && n in c.nodes && w in c.nodes[n].workers
    && (OwnedPending(c.nodes[n].tasks, mine) == {}
        || scans + before <= ClaimsAt(c.claims, n) + (if Unfinished(c.nodes[n], w) then 1 else 0))
  }

  lemma WorkKeepsPace(c: Cluster, hash: Hash, s: Step, n: NodeId, w: nat, ring: seq<NodeId>, rf: nat, scans: nat, before: nat)
    requires Inv(c, hash) && s.Work? && s.at == n && Enabled(c, s) && n in c.nodes && Quiet([s], n, w, ring, rf)
    requires Covers(c.nodes[n], w, PrimaryOn(ring, rf, n)) && Paced(c, n, w, PrimaryOn(ring, rf, n), scans, before)
    ensures Paced(Apply(c, hash, s), n, w, PrimaryOn(ring, rf, n), scans + (if ScansAt(s, n, w) then 1 else 0), before)
  {
    var q := c.nodes[n];
    StepCovers(c, hash, s, n, w, ring, rf);
    var made := ClaimMade(q, hash, n, s.w, s.act);
    if made != [] {
      ClaimsAtSnoc(c.claims, made[0], n);
    } else {
      assert c.claims + made == c.claims;
    }
  }

  lemma ElsewhereKeepsPace(c: Cluster, hash: Hash, s: Step, n: NodeId, w: nat, mine: nat -> bool, scans: nat, before: nat)
    requires Inv(c, hash) && !(s.Work? && s.at == n) && !StoresAt(s, n) && Paced(c, n, w, mine, scans, before)
    ensures Paced(Apply(c, hash, s), n, w, mine, scans, before)
  {
    Unstored(c, hash, s, n);
    if s.Work? && Enabled(c, s) {
      var made := ClaimMade(c.nodes[s.at], hash, s.at, s.w, s.act);
      if made != [] {
        ClaimsAtSnoc(c.claims, made[0], n);
      } else {
        assert c.claims + made == c.claims;
      }
    }
  }

  lemma {:induction false} RunKeepsPace(c: Cluster, hash: Hash, steps: seq<Step>, n: NodeId, w: nat, ring: seq<NodeId>, rf: nat)
    requires Inv(c, hash) && HasWorker(c, n, w) && !c.nodes[n].workers[w].Scanning? && Quiet(steps, n, w, ring, rf)
    ensures Paced(RunFrom(c, hash, steps), n, w, PrimaryOn(ring, rf, n), Scans(c, hash, steps, n, w), ClaimsAt(c.claims, n))
  {
    if steps != [] {
      var init, s := steps[..|steps| - 1], steps[|steps| - 1];
      var mid := RunFrom(c, hash, init);
      RunKeepsPace(c, hash, init, n, w, ring, rf);
      RunKeepsInv(c, hash, init);
      RunCovers(c, hash, init, n, w, ring, rf);
      if s.Work? && s.at == n {
        if Enabled(mid, s) {
          WorkKeepsPace(mid, hash, s, n, w, ring, rf, Scans(c, hash, init, n, w), ClaimsAt(c.claims, n));
        }
      } else {
        ElsewhereKeepsPace(mid, hash, s, n, w, PrimaryOn(ring, rf, n), Scans(c, hash, init, n, w), ClaimsAt(c.claims, n));
      }
    }
  }

  /**
   In any interleaving in which nothing is stored at the node: once one worker has begun more scans than there were
   pending tasks, no task the node owns is pending.
   */
  lemma EnoughScansDrain(c: Cluster, hash: Hash, steps: seq<Step>, n: NodeId, w: nat, ring: seq<NodeId>, rf: nat)
    requires Inv(c, hash) && HasWorker(c, n, w) && !c.nodes[n].workers[w].Scanning? && Quiet(steps, n, w, ring, rf)
    requires Scans(c, hash, steps, n, w) > |PendingAt(c.nodes[n].tasks)|
    ensures n in RunFrom(c, hash, steps).nodes
    ensures OwnedPending(RunFrom(c, hash, steps).nodes[n].tasks, PrimaryOn(ring, rf, n)) == {}
  {
    RunKeepsPace(c, hash, steps, n, w, ring, rf);
    ClaimsDrainPending(c, hash, steps, n);
    var t, mine := RunFrom(c, hash, steps).nodes[n].tasks, PrimaryOn(ring, rf, n);
    assert OwnedPending(t, mine) <= PendingAt(t);
  }
}
