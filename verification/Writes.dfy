/**
 A distributed write from start to end (`put_with_op` in `src/storage/memory.rs`), with the retries of its remote
 calls, run while nothing else happens.

 How the network treats one call is a list of attempts. An attempt is dropped before it reaches the handler, or
 the handler runs and its answer is lost (the caller times out and tries again), or it is answered. Attempts
 missing from the list are dropped.
 */
module WriteSpec {
  import opened NodeOrder
  import opened StorageSpec

  datatype Attempt = Dropped | Unanswered | Answered

  type Call = seq<Attempt>

  const ATTEMPTS := 3

  datatype Outcome = Outcome(ok: bool, nodes: Stores)

  /** The handler runs at least once. */
  predicate Reached(call: Call, tries: nat) {
    tries > 0 && call != [] && (call[0] != Dropped || Reached(call[1..], tries - 1))
  }

  /** The caller gets an answer. */
  predicate GetsAnswer(call: Call, tries: nat) {
    tries > 0 && call != [] && (call[0] == Answered || GetsAnswer(call[1..], tries - 1))
  }

  /** The caller gets the answer of the handler's first run. */
  predicate FirstRunAnswered(call: Call, tries: nat) {
    tries > 0 && call != [] && (call[0] == Answered || (call[0] == Dropped && FirstRunAnswered(call[1..], tries - 1)))
  }

  /** A backup after a replication call: however often the handler ran, the write happened at most once. */
  function Replicated(nodes: Stores, b: NodeId, p: nat, op: OpId, k: Key, v: Value, call: Call): Stores
    requires b in nodes
  {
    if Reached(call, ATTEMPTS) then nodes[b := Replica(nodes[b], p, op, k, v, DEDUP_CAP)] else nodes
  }

  /** Replication to the backups in turn, stopping at the first that does not answer. */
  function ReplicateAll(nodes: Stores, backups: seq<NodeId>, p: nat, op: OpId, k: Key, v: Value,
                        calls: NodeId -> Call): Outcome
    requires forall b :: b in backups ==> b in nodes
  {
    if backups == [] then Outcome(true, nodes)
    else
      var after := Replicated(nodes, backups[0], p, op, k, v, calls(backups[0]));
      if !GetsAnswer(calls(backups[0]), ATTEMPTS) then Outcome(false, after)
      else ReplicateAll(after, backups[1..], p, op, k, v, calls)
  }

  ghost predicate Deployed(g: Config, nodes: Stores) {
    Proper(g) && forall n :: n in g.ring ==> n in nodes
  }

  /** The primary's handler of a forwarded write. */
  function PrimaryWrite(g: Config, nodes: Stores, p: nat, op: OpId, k: Key, v: Value, calls: NodeId -> Call): Outcome
    requires Deployed(g, nodes)
  {
    var at := PrimaryOf(g, p);
    if op in nodes[at].ops then Outcome(true, nodes)
    else
      ReplicateAll(nodes[at := Store(Put(nodes[at].data, p, k, v), Remember(nodes[at].ops, op, DEDUP_CAP))],
                   BackupsOf(g, p), p, op, k, v, calls)
  }

  /** A forwarded write: each attempt that reaches the primary runs its handler. */
  function Forwarded(g: Config, nodes: Stores, p: nat, op: OpId, k: Key, v: Value,
                     call: Call, tries: nat, calls: NodeId -> Call): Outcome
    requires Deployed(g, nodes)
    decreases tries
  {
    if tries == 0 || call == [] then Outcome(false, nodes)
    else if call[0] == Dropped then Forwarded(g, nodes, p, op, k, v, call[1..], tries - 1, calls)
    else
      var run := PrimaryWrite(g, nodes, p, op, k, v, calls);
      if call[0] == Answered then run
      else
        assert Deployed(g, run.nodes) by { PrimaryWriteKeys(g, nodes, p, op, k, v, calls); }
        Forwarded(g, run.nodes, p, op, k, v, call[1..], tries - 1, calls)
  }

  lemma {:induction false} ReplicateAllKeys(nodes: Stores, backups: seq<NodeId>, p: nat, op: OpId, k: Key, v: Value,
                                            calls: NodeId -> Call)
    requires forall b :: b in backups ==> b in nodes
    ensures ReplicateAll(nodes, backups, p, op, k, v, calls).nodes.Keys == nodes.Keys
  {
    if backups != [] {
      var after := Replicated(nodes, backups[0], p, op, k, v, calls(backups[0]));
      assert after.Keys == nodes.Keys;
      ReplicateAllKeys(after, backups[1..], p, op, k, v, calls);
    }
  }

  lemma PrimaryWriteKeys(g: Config, nodes: Stores, p: nat, op: OpId, k: Key, v: Value, calls: NodeId -> Call)
    requires Deployed(g, nodes)
    ensures PrimaryWrite(g, nodes, p, op, k, v, calls).nodes.Keys == nodes.Keys
  {
    var at := PrimaryOf(g, p);
    if op !in nodes[at].ops {
      var mid := nodes[at := Store(Put(nodes[at].data, p, k, v), Remember(nodes[at].ops, op, DEDUP_CAP))];
      ReplicateAllKeys(mid, BackupsOf(g, p), p, op, k, v, calls);
    }
  }

  /** A write submitted at node `at`. */
  function PutWithOp(g: Config, nodes: Stores, at: NodeId, k: Key, v: Value, op: OpId,
                     forward: Call, calls: NodeId -> Call): Outcome
    requires Deployed(g, nodes) && at in nodes
  {
    if op in nodes[at].ops then Outcome(true, nodes)
    else
      var p := PartOf(g, k);
      var noted := nodes[at := nodes[at].(ops := Remember(nodes[at].ops, op, DEDUP_CAP))];
      if at != PrimaryOf(g, p) then Forwarded(g, noted, p, op, k, v, forward, ATTEMPTS, calls)
      else
        ReplicateAll(noted[at := noted[at].(data := Put(noted[at].data, p, k, v))],
                     BackupsOf(g, p), p, op, k, v, calls)
  }
}

module Writes {
  import opened NodeOrder
  import opened StorageSpec
  import opened WriteSpec

  /** The stores of all nodes; a method runs at one node and calls others through the network. */
  class DistributedStore {
    const g: Config
    var nodes: Stores

    ghost predicate Valid()
      reads this
    {
      Deployed(g, nodes)
    }

    constructor (g: Config, nodes: Stores)
      requires Deployed(g, nodes)
      ensures Valid() && this.g == g && this.nodes == nodes
    {
      this.g, this.nodes := g, nodes;
    }

    /** One remote replication with its retries. */
    method ReplicateToBackup(b: NodeId, p: nat, op: OpId, k: Key, v: Value, call: Call) returns (ok: bool)
      requires Valid() && b in nodes
      modifies this`nodes
      ensures nodes == Replicated(old(nodes), b, p, op, k, v, call)
      ensures ok == GetsAnswer(call, ATTEMPTS)
    {
      ghost var before := nodes;
      ghost var reached := false;
      for i := 0 to ATTEMPTS
        invariant i <= |call| ==> (Reached(call, ATTEMPTS) <==> reached || Reached(call[i..], ATTEMPTS - i))
        invariant i <= |call| ==> (GetsAnswer(call, ATTEMPTS) <==> GetsAnswer(call[i..], ATTEMPTS - i))
        invariant i > |call| ==> (Reached(call, ATTEMPTS) <==> reached) && !GetsAnswer(call, ATTEMPTS)
        invariant nodes == if reached then before[b := Replica(before[b], p, op, k, v, DEDUP_CAP)] else before
      {
        if i < |call| {
          assert call[i..][1..] == call[i + 1..];
          if call[i] != Dropped {
            nodes := nodes[b := Replica(nodes[b], p, op, k, v, DEDUP_CAP)];
            reached := true;
          }
          if call[i] == Answered {
            return true;
          }
        }
      }
      return false;
    }

    /** Replication to all backups in turn. */
    method ReplicateToBackups(backups: seq<NodeId>, p: nat, op: OpId, k: Key, v: Value, calls: NodeId -> Call)
      returns (ok: bool)
      requires Valid() && forall b :: b in backups ==> b in nodes
      modifies this`nodes
      ensures Outcome(ok, nodes) == ReplicateAll(old(nodes), backups, p, op, k, v, calls)
      ensures nodes.Keys == old(nodes.Keys)
    {
      ghost var before := nodes;
      for i := 0 to |backups|
        invariant nodes.Keys == before.Keys
        invariant ReplicateAll(before, backups, p, op, k, v, calls) == ReplicateAll(nodes, backups[i..], p, op, k, v, calls)
      {
        assert backups[i..][1..] == backups[i + 1..];
        var answered := ReplicateToBackup(backups[i], p, op, k, v, calls(backups[i]));
        if !answered {
          return false;
        }
      }
      return true;
    }

    /** The handler of a forwarded write, at the primary. */
    method StoreAsPrimary(p: nat, op: OpId, k: Key, v: Value, calls: NodeId -> Call) returns (ok: bool)
      requires Valid()
      modifies this`nodes
      ensures Outcome(ok, nodes) == PrimaryWrite(g, old(nodes), p, op, k, v, calls)
      ensures nodes.Keys == old(nodes.Keys)
    {
      var owners := OwnersOf(g, p);
      var at := owners[0];
      if op in nodes[at].ops {
        return true;
      }
      nodes := nodes[at := Store(Put(nodes[at].data, p, k, v), Remember(nodes[at].ops, op, DEDUP_CAP))];
      ok := ReplicateToBackups(owners[1..], p, op, k, v, calls);
    }

    /** A forward to the primary with its retries. */
    method ForwardPut(p: nat, op: OpId, k: Key, v: Value, call: Call, calls: NodeId -> Call) returns (ok: bool)
      requires Valid()
      modifies this`nodes
      ensures Outcome(ok, nodes) == Forwarded(g, old(nodes), p, op, k, v, call, ATTEMPTS, calls)
    {
      ghost var before := nodes;
      for i := 0 to ATTEMPTS
        invariant Valid() && nodes.Keys == before.Keys
        invariant i <= |call| ==>
                    Forwarded(g, before, p, op, k, v, call, ATTEMPTS, calls)
                    == Forwarded(g, nodes, p, op, k, v, call[i..], ATTEMPTS - i, calls)
        invariant i > |call| ==> Forwarded(g, before, p, op, k, v, call, ATTEMPTS, calls) == Outcome(false, nodes)
      {
        if i < |call| {
          assert call[i..][1..] == call[i + 1..];
          if call[i] != Dropped {
            var handled := StoreAsPrimary(p, op, k, v, calls);
            if call[i] == Answered {
              return handled;
            }
          }
        }
      }
      return false;
    }

    /** The entry point of a distributed write. */
    method DistributedPut(at: NodeId, k: Key, v: Value, op: OpId, forward: Call, calls: NodeId -> Call) returns (ok: bool)
      requires Valid() && at in nodes
      modifies this`nodes
      ensures Outcome(ok, nodes) == PutWithOp(g, old(nodes), at, k, v, op, forward, calls)
    {
      if op in nodes[at].ops {
        return true;
      }
      nodes := nodes[at := nodes[at].(ops := Remember(nodes[at].ops, op, DEDUP_CAP))];
      var p := PartOf(g, k);
      var owners := OwnersOf(g, p);
      if at != owners[0] {
        ok := ForwardPut(p, op, k, v, forward, calls);
      } else {
        nodes := nodes[at := nodes[at].(data := Put(nodes[at].data, p, k, v))];
        ok := ReplicateToBackups(owners[1..], p, op, k, v, calls);
      }
    }
  }
}
