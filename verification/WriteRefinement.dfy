/** Every distributed write, with all its retries, is a run of the replication protocol. */
module WriteRefinement {
  import opened NodeOrder
  import opened StorageSpec
  import opened WriteSpec
  import opened Replication

  lemma OneStep(g: Config, c: Cluster, s: Step)
    requires Proper(g)
    ensures RunFrom(g, c, [s]) == Apply(g, c, s)
  {
    assert [s][..0] == [];
  }

  lemma Prepend(g: Config, c: Cluster, s: Step, steps: seq<Step>)
    requires Proper(g)
    ensures RunFrom(g, c, [s] + steps) == RunFrom(g, Apply(g, c, s), steps)
  {
    OneStep(g, c, s);
    RunFromSplit(g, c, [s], steps);
  }

  /** The replications that reach their backup are delivered, one after the other. */
  lemma {:induction false} RunReplicas(g: Config, c: Cluster, backups: seq<NodeId>, p: nat, op: OpId, k: Key, v: Value,
                                       calls: NodeId -> Call) returns (steps: seq<Step>)
    requires Proper(g) && forall b :: b in backups ==> b in c.nodes && Replicate(b, p, op, k, v) in c.sent
    ensures RunFrom(g, c, steps).nodes == ReplicateAll(c.nodes, backups, p, op, k, v, calls).nodes
    ensures c.sent <= RunFrom(g, c, steps).sent
    decreases |backups|
  {
    steps := [];
    if backups != [] {
      var b := backups[0];
      var msg := Replicate(b, p, op, k, v);
      var mid := c;
      if Reached(calls(b), ATTEMPTS) {
        mid := Apply(g, c, Deliver(msg, []));
      }
      assert mid.nodes == Replicated(c.nodes, b, p, op, k, v, calls(b)) && mid.sent == c.sent;
      if GetsAnswer(calls(b), ATTEMPTS) {
        steps := RunReplicas(g, mid, backups[1..], p, op, k, v, calls);
      }
      if Reached(calls(b), ATTEMPTS) {
        Prepend(g, c, Deliver(msg, []), steps);
        steps := [Deliver(msg, [])] + steps;
      }
    }
  }

  /** One run of the primary's handler is a delivery of the forward followed by deliveries to the backups. */
  lemma RunPrimaryWrite(g: Config, c: Cluster, p: nat, op: OpId, k: Key, v: Value, calls: NodeId -> Call)
    returns (steps: seq<Step>)
    requires Deployed(g, c.nodes) && Forward(PrimaryOf(g, p), p, op, k, v) in c.sent
    ensures RunFrom(g, c, steps).nodes == PrimaryWrite(g, c.nodes, p, op, k, v, calls).nodes
    ensures c.sent <= RunFrom(g, c, steps).sent
  {
    var at := PrimaryOf(g, p);
    steps := [];
    if op !in c.nodes[at].ops {
      var deliver := Deliver(Forward(at, p, op, k, v), []);
      var mid := Apply(g, c, deliver);
      assert mid == StoreAsPrimary(g, c, at, p, op, k, v);
      assert forall b :: b in BackupsOf(g, p) ==> Replicate(b, p, op, k, v) in Replicas(g, p, op, k, v);
      steps := RunReplicas(g, mid, BackupsOf(g, p), p, op, k, v, calls);
      Prepend(g, c, deliver, steps);
      steps := [deliver] + steps;
    }
  }

  /** How a forwarded write unfolds, attempt by attempt. */
  lemma ForwardedOnce(g: Config, nodes: Stores, p: nat, op: OpId, k: Key, v: Value, call: Call, tries: nat, calls: NodeId -> Call)
    requires Deployed(g, nodes) && tries > 0 && call != []
    ensures var run := PrimaryWrite(g, nodes, p, op, k, v, calls);
            && Deployed(g, run.nodes)
            && Forwarded(g, nodes, p, op, k, v, call, tries, calls)
                 == (match call[0]
                     case Dropped => Forwarded(g, nodes, p, op, k, v, call[1..], tries - 1, calls)
                     case Answered => run
                     case Unanswered => Forwarded(g, run.nodes, p, op, k, v, call[1..], tries - 1, calls))
  {
    PrimaryWriteKeys(g, nodes, p, op, k, v, calls);
  }

  /** `c` leads to `nodes` by these steps. */
  ghost predicate LeadsTo(g: Config, c: Cluster, steps: seq<Step>, nodes: Stores)
    requires Proper(g)
  {
    RunFrom(g, c, steps).nodes == nodes
  }

  lemma AfterDropped(g: Config, c: Cluster, p: nat, op: OpId, k: Key, v: Value, call: Call, tries: nat, calls: NodeId -> Call,
                     steps: seq<Step>)
    requires Deployed(g, c.nodes) && tries > 0 && call != [] && call[0] == Dropped
    requires LeadsTo(g, c, steps, Forwarded(g, c.nodes, p, op, k, v, call[1..], tries - 1, calls).nodes)
    ensures LeadsTo(g, c, steps, Forwarded(g, c.nodes, p, op, k, v, call, tries, calls).nodes)
  {
  }

  lemma AfterAnswered(g: Config, c: Cluster, p: nat, op: OpId, k: Key, v: Value, call: Call, tries: nat, calls: NodeId -> Call,
                      steps: seq<Step>)
    requires Deployed(g, c.nodes) && tries > 0 && call != [] && call[0] == Answered
    requires LeadsTo(g, c, steps, PrimaryWrite(g, c.nodes, p, op, k, v, calls).nodes)
    ensures LeadsTo(g, c, steps, Forwarded(g, c.nodes, p, op, k, v, call, tries, calls).nodes)
  {
  }

  lemma AfterUnanswered(g: Config, c: Cluster, p: nat, op: OpId, k: Key, v: Value, call: Call, tries: nat, calls: NodeId -> Call,
                        first: seq<Step>, mid: Stores, rest: seq<Step>)
    requires Deployed(g, c.nodes) && tries > 0 && call != [] && call[0] == Unanswered
    requires mid == PrimaryWrite(g, c.nodes, p, op, k, v, calls).nodes && Deployed(g, mid)
    requires LeadsTo(g, RunFrom(g, c, first), rest, Forwarded(g, mid, p, op, k, v, call[1..], tries - 1, calls).nodes)
    ensures LeadsTo(g, c, first + rest, Forwarded(g, c.nodes, p, op, k, v, call, tries, calls).nodes)
  {
    ForwardedOnce(g, c.nodes, p, op, k, v, call, tries, calls);
    RunFromSplit(g, c, first, rest);
  }

  lemma {:induction false} RunForwarded(g: Config, c: Cluster, p: nat, op: OpId, k: Key, v: Value,
                                        call: Call, tries: nat, calls: NodeId -> Call) returns (steps: seq<Step>)
    requires Deployed(g, c.nodes) && Forward(PrimaryOf(g, p), p, op, k, v) in c.sent
    ensures LeadsTo(g, c, steps, Forwarded(g, c.nodes, p, op, k, v, call, tries, calls).nodes)
    decreases tries, 1
  {
    steps := [];
    if tries > 0 && call != [] {
      match call[0]
      case Dropped =>
        steps := RunForwarded(g, c, p, op, k, v, call[1..], tries - 1, calls);
        AfterDropped(g, c, p, op, k, v, call, tries, calls, steps);
      case Answered =>
        steps := RunPrimaryWrite(g, c, p, op, k, v, calls);
        AfterAnswered(g, c, p, op, k, v, call, tries, calls, steps);
      case Unanswered =>
        steps := RunUnanswered(g, c, p, op, k, v, call, tries, calls);
    }
  }

  lemma {:induction false} RunUnanswered(g: Config, c: Cluster, p: nat, op: OpId, k: Key, v: Value,
                                         call: Call, tries: nat, calls: NodeId -> Call) returns (steps: seq<Step>)
    requires Deployed(g, c.nodes) && Forward(PrimaryOf(g, p), p, op, k, v) in c.sent
    requires tries > 0 && call != [] && call[0] == Unanswered
    ensures LeadsTo(g, c, steps, Forwarded(g, c.nodes, p, op, k, v, call, tries, calls).nodes)
    decreases tries, 0
  {
    var first := RunPrimaryWrite(g, c, p, op, k, v, calls);
    PrimaryWriteKeys(g, c.nodes, p, op, k, v, calls);
    var mid := RunFrom(g, c, first);
    var rest := RunForwarded(g, mid, p, op, k, v, call[1..], tries - 1, calls);
    AfterUnanswered(g, c, p, op, k, v, call, tries, calls, first, mid.nodes, rest);
    steps := first + rest;
  }

  /**
   From any state of the protocol, the stores that a distributed write leaves behind are those of some run of the
   protocol: its invariants, and everything proved of reachable states, hold after any sequence of writes.
   */
  lemma WriteIsRun(g: Config, c: Cluster, at: NodeId, k: Key, v: Value, op: OpId, forward: Call, calls: NodeId -> Call)
    returns (steps: seq<Step>)
    requires Deployed(g, c.nodes) && at in c.nodes
    ensures RunFrom(g, c, steps).nodes == PutWithOp(g, c.nodes, at, k, v, op, forward, calls).nodes
  {
    steps := [];
    if op !in c.nodes[at].ops {
      var p, put := PartOf(g, k), ClientPut(at, k, v, op);
      var mid := Apply(g, c, put);
      assert mid == PutAt(g, c, at, k, v, op);
      if at == PrimaryOf(g, p) {
        assert forall b :: b in BackupsOf(g, p) ==> Replicate(b, p, op, k, v) in Replicas(g, p, op, k, v);
        var noted := c.nodes[at := c.nodes[at].(ops := Remember(c.nodes[at].ops, op, DEDUP_CAP))];
        assert mid.nodes == noted[at := noted[at].(data := Put(noted[at].data, p, k, v))];
        steps := RunReplicas(g, mid, BackupsOf(g, p), p, op, k, v, calls);
      } else {
        steps := RunForwarded(g, mid, p, op, k, v, forward, ATTEMPTS, calls);
      }
      Prepend(g, c, put, steps);
      steps := [put] + steps;
    }
  }
}
