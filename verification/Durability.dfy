/**
 Which copies exist once a distributed write has returned Ok.

 The documentation promises that data is copied to the backups before success is confirmed. `DurableExactly` and
 `DurableOnEveryNetwork` say when the code keeps the promise. Three things break it. An operation already recorded at
 the submitter or at the primary is answered Ok and stored nowhere; the identifier is the client's, so this is what
 happens when a client repeats a write that failed. A backup that has recorded the operation refuses its replica, and
 a backup that submits a write has. And the retry of a forward whose first run went unanswered is taken for a
 duplicate and answered Ok at once, however the replication of the first run went.
 */
module Durability {
  import opened Common
  import opened NodeOrder
  import opened Placement
  import opened StorageSpec
  import opened WriteSpec
  import AntiEntropy

  ghost predicate Holds(nodes: Stores, n: NodeId, p: nat, k: Key, v: Value) {
    n in nodes && k in Part(nodes[n].data, p) && Part(nodes[n].data, p)[k] == v
  }

  /** No node loses the value. */
  ghost predicate KeepsHolders(nodes: Stores, after: Stores, p: nat, k: Key, v: Value) {
    forall n :: Holds(nodes, n, p, k, v) ==> Holds(after, n, p, k, v)
  }

  lemma AnswerMeansReached(call: Call, tries: nat)
    ensures GetsAnswer(call, tries) ==> Reached(call, tries)
    ensures FirstRunAnswered(call, tries) ==> GetsAnswer(call, tries)
  {
  }

  /** Replication touches only the backups; with Ok each holds the value, unless it had processed the operation already. */
  lemma {:induction false} ReplicateAllStores(nodes: Stores, backups: seq<NodeId>, p: nat, op: OpId, k: Key, v: Value,
                                              calls: NodeId -> Call)
    requires Distinct(backups) && forall b :: b in backups ==> b in nodes
    ensures var r := ReplicateAll(nodes, backups, p, op, k, v, calls);
            && r.nodes.Keys == nodes.Keys && KeepsHolders(nodes, r.nodes, p, k, v)
            && (forall n :: n in nodes && (n !in backups || op in nodes[n].ops) ==> r.nodes[n] == nodes[n])
            && (r.ok ==> forall b :: b in backups && op !in nodes[b].ops ==> Holds(r.nodes, b, p, k, v))
            && (backups != [] && !Reached(calls(backups[0]), ATTEMPTS) ==> r == Outcome(false, nodes))
            && ((forall b :: GetsAnswer(calls(b), ATTEMPTS)) ==> r.ok)
  {
    if backups != [] {
      var b, rest := backups[0], backups[1..];
      AnswerMeansReached(calls(b), ATTEMPTS);
      var after := Replicated(nodes, b, p, op, k, v, calls(b));
      assert after.Keys == nodes.Keys && b !in rest;
      assert KeepsHolders(nodes, after, p, k, v);
      ReplicateAllStores(after, rest, p, op, k, v, calls);
      assert forall n :: n in nodes && op in nodes[n].ops ==> after[n] == nodes[n];
    }
  }

  /** What the primary's handler does with an operation new to it. */
  ghost predicate PrimaryFacts(g: Config, nodes: Stores, p: nat, op: OpId, k: Key, v: Value, calls: NodeId -> Call, r: Outcome)
    requires Deployed(g, nodes)
  {
    var primary, backups := PrimaryOf(g, p), BackupsOf(g, p);
    && r.nodes.Keys == nodes.Keys && KeepsHolders(nodes, r.nodes, p, k, v)
    && Holds(r.nodes, primary, p, k, v) && op in r.nodes[primary].ops
    && (forall n :: n in nodes && n != primary && (n !in backups || op in nodes[n].ops) ==> r.nodes[n] == nodes[n])
    && (r.ok ==> forall b :: b in backups && op !in nodes[b].ops ==> Holds(r.nodes, b, p, k, v))
    && (backups != [] && !Reached(calls(backups[0]), ATTEMPTS) ==>
          !r.ok && forall b :: b in backups ==> r.nodes[b] == nodes[b])
    && ((forall b :: GetsAnswer(calls(b), ATTEMPTS)) ==> r.ok)
  }

  lemma PrimaryWriteStores(g: Config, nodes: Stores, p: nat, op: OpId, k: Key, v: Value, calls: NodeId -> Call)
    requires Deployed(g, nodes) && op !in nodes[PrimaryOf(g, p)].ops
    ensures PrimaryFacts(g, nodes, p, op, k, v, calls, PrimaryWrite(g, nodes, p, op, k, v, calls))
  {
    var owners := OwnersOf(g, p);
    var at := owners[0];
    var mid := nodes[at := Store(Put(nodes[at].data, p, k, v), Remember(nodes[at].ops, op, DEDUP_CAP))];
    assert KeepsHolders(nodes, mid, p, k, v);
    ReplicateAllStores(mid, owners[1..], p, op, k, v, calls);
    assert at !in owners[1..];
  }

  /** Once the primary has processed the operation, further attempts change nothing and are answered Ok. */
  lemma {:induction false} ForwardedAgain(g: Config, nodes: Stores, p: nat, op: OpId, k: Key, v: Value,
                                          call: Call, tries: nat, calls: NodeId -> Call)
    requires Deployed(g, nodes) && op in nodes[PrimaryOf(g, p)].ops
    ensures Forwarded(g, nodes, p, op, k, v, call, tries, calls) == Outcome(GetsAnswer(call, tries), nodes)
    decreases tries
  {
    if tries > 0 && call != [] && call[0] != Answered {
      ForwardedAgain(g, nodes, p, op, k, v, call[1..], tries - 1, calls);
    }
  }

  /** The first run is not heard: whatever answer comes is that of a repetition. */
  lemma ForwardedUnheard(g: Config, nodes: Stores, p: nat, op: OpId, k: Key, v: Value,
                         call: Call, tries: nat, calls: NodeId -> Call)
    requires Deployed(g, nodes) && op !in nodes[PrimaryOf(g, p)].ops && tries > 0 && call != [] && call[0] == Unanswered
    ensures Forwarded(g, nodes, p, op, k, v, call, tries, calls)
         == Outcome(GetsAnswer(call, tries), PrimaryWrite(g, nodes, p, op, k, v, calls).nodes)
  {
    PrimaryWriteStores(g, nodes, p, op, k, v, calls);
    var run := PrimaryWrite(g, nodes, p, op, k, v, calls);
    assert Deployed(g, run.nodes) && op in run.nodes[PrimaryOf(g, p)].ops;
    ForwardedAgain(g, run.nodes, p, op, k, v, call[1..], tries - 1, calls);
  }

  /** A forward does what one run of the handler does; only the answer depends on which attempt is heard. */
  lemma {:induction false} ForwardedIs(g: Config, nodes: Stores, p: nat, op: OpId, k: Key, v: Value,
                                       call: Call, tries: nat, calls: NodeId -> Call)
    requires Deployed(g, nodes) && op !in nodes[PrimaryOf(g, p)].ops
    ensures var r, run := Forwarded(g, nodes, p, op, k, v, call, tries, calls), PrimaryWrite(g, nodes, p, op, k, v, calls);
            && r.nodes == (if Reached(call, tries) then run.nodes else nodes)
            && r.ok == (GetsAnswer(call, tries) && (FirstRunAnswered(call, tries) ==> run.ok))
    decreases tries
  {
    if tries > 0 && call != [] {
      if call[0] == Dropped {
        ForwardedIs(g, nodes, p, op, k, v, call[1..], tries - 1, calls);
      } else if call[0] == Unanswered {
        ForwardedUnheard(g, nodes, p, op, k, v, call, tries, calls);
      }
    }
  }

  // ---- What a write leaves behind ----

  /** Neither the submitter nor the primary has recorded the operation. */
  ghost predicate IsNew(g: Config, nodes: Stores, at: NodeId, p: nat, op: OpId)
    requires Deployed(g, nodes) && at in nodes
  {
    op !in nodes[at].ops && op !in nodes[PrimaryOf(g, p)].ops
  }

  /** The owner will not store a replica of the operation: it has recorded it, or is about to as its submitter. */
  ghost predicate Refuses(nodes: Stores, at: NodeId, b: NodeId, op: OpId)
    requires b in nodes
  {
    b == at || op in nodes[b].ops
  }

  ghost predicate SameData(nodes: Stores, after: Stores) {
    after.Keys == nodes.Keys && forall n :: n in nodes ==> after[n].data == nodes[n].data
  }

  /** The operation is not new: nothing is stored anywhere. */
  ghost predicate RepeatFacts(nodes: Stores, at: NodeId, op: OpId, forward: Call, r: Outcome)
    requires at in nodes
  {
    && SameData(nodes, r.nodes) && op in r.nodes[at].ops
    && r.ok == (op in nodes[at].ops || GetsAnswer(forward, ATTEMPTS))
  }

  /** The operation is new. */
  ghost predicate NewFacts(g: Config, nodes: Stores, at: NodeId, p: nat, op: OpId, k: Key, v: Value,
                           forward: Call, calls: NodeId -> Call, r: Outcome)
    requires Deployed(g, nodes) && at in nodes
  {
    var primary, backups := PrimaryOf(g, p), BackupsOf(g, p);
    && r.nodes.Keys == nodes.Keys && KeepsHolders(nodes, r.nodes, p, k, v) && op in r.nodes[at].ops
    && (r.ok ==> Holds(r.nodes, primary, p, k, v))
    && (r.ok && (at == primary || FirstRunAnswered(forward, ATTEMPTS)) ==>
          forall b :: b in backups && !Refuses(nodes, at, b, op) ==> Holds(r.nodes, b, p, k, v))
    && (forall b :: b in backups && Refuses(nodes, at, b, op) ==> r.nodes[b].data == nodes[b].data)
    && (backups != [] && !Reached(calls(backups[0]), ATTEMPTS) ==>
          (at == primary ==> !r.ok) && forall b :: b in backups ==> r.nodes[b].data == nodes[b].data)
    && ((forall b :: GetsAnswer(calls(b), ATTEMPTS)) && (at == primary || GetsAnswer(forward, ATTEMPTS)) ==> r.ok)
    && (at != primary ==>
          && (r.ok ==> GetsAnswer(forward, ATTEMPTS))
          && (GetsAnswer(forward, ATTEMPTS) && !FirstRunAnswered(forward, ATTEMPTS) ==> r.ok)
          && (!Reached(forward, ATTEMPTS) ==> SameData(nodes, r.nodes)))
  }

  ghost predicate PutFacts(g: Config, nodes: Stores, at: NodeId, p: nat, op: OpId, k: Key, v: Value,
                           forward: Call, calls: NodeId -> Call, r: Outcome)
    requires Deployed(g, nodes) && at in nodes
  {
    if IsNew(g, nodes, at, p, op) then NewFacts(g, nodes, at, p, op, k, v, forward, calls, r)
    else RepeatFacts(nodes, at, op, forward, r)
  }

  lemma PutAtPrimary(g: Config, nodes: Stores, k: Key, v: Value, op: OpId, forward: Call, calls: NodeId -> Call)
    requires Deployed(g, nodes) && op !in nodes[PrimaryOf(g, PartOf(g, k))].ops
    ensures var at := PrimaryOf(g, PartOf(g, k));
            NewFacts(g, nodes, at, PartOf(g, k), op, k, v, forward, calls, PutWithOp(g, nodes, at, k, v, op, forward, calls))
  {
    var p := PartOf(g, k);
    var at := PrimaryOf(g, p);
    PrimaryWriteStores(g, nodes, p, op, k, v, calls);
    var noted := nodes[at := nodes[at].(ops := Remember(nodes[at].ops, op, DEDUP_CAP))];
    assert noted[at := noted[at].(data := Put(noted[at].data, p, k, v))]
        == nodes[at := Store(Put(nodes[at].data, p, k, v), Remember(nodes[at].ops, op, DEDUP_CAP))];
    assert PutWithOp(g, nodes, at, k, v, op, forward, calls) == PrimaryWrite(g, nodes, p, op, k, v, calls);
    assert at !in BackupsOf(g, p);
  }

  lemma PutElsewhere(g: Config, nodes: Stores, at: NodeId, k: Key, v: Value, op: OpId, forward: Call, calls: NodeId -> Call)
    requires Deployed(g, nodes) && at in nodes && at != PrimaryOf(g, PartOf(g, k)) && op !in nodes[at].ops
    ensures PutFacts(g, nodes, at, PartOf(g, k), op, k, v, forward, calls, PutWithOp(g, nodes, at, k, v, op, forward, calls))
  {
    var p := PartOf(g, k);
    var noted := nodes[at := nodes[at].(ops := Remember(nodes[at].ops, op, DEDUP_CAP))];
    if op in noted[PrimaryOf(g, p)].ops {
      ForwardedAgain(g, noted, p, op, k, v, forward, ATTEMPTS, calls);
    } else {
      AnswerMeansReached(forward, ATTEMPTS);
      PrimaryWriteStores(g, noted, p, op, k, v, calls);
      ForwardedIs(g, noted, p, op, k, v, forward, ATTEMPTS, calls);
      NotedFacts(g, nodes, noted, at, p, op, k, v, forward, calls, PrimaryWrite(g, noted, p, op, k, v, calls),
                 PutWithOp(g, nodes, at, k, v, op, forward, calls));
    }
  }

  /** The facts of the handler's run, seen from before the submitter recorded the operation. */
  lemma NotedFacts(g: Config, nodes: Stores, noted: Stores, at: NodeId, p: nat, op: OpId, k: Key, v: Value,
                   forward: Call, calls: NodeId -> Call, run: Outcome, r: Outcome)
    requires Deployed(g, nodes) && at in nodes && at != PrimaryOf(g, p) && IsNew(g, nodes, at, p, op)
    requires noted == nodes[at := nodes[at].(ops := Remember(nodes[at].ops, op, DEDUP_CAP))]
    requires PrimaryFacts(g, noted, p, op, k, v, calls, run)
    requires r.nodes == (if Reached(forward, ATTEMPTS) then run.nodes else noted)
    requires r.ok == (GetsAnswer(forward, ATTEMPTS) && (FirstRunAnswered(forward, ATTEMPTS) ==> run.ok))
    requires GetsAnswer(forward, ATTEMPTS) ==> Reached(forward, ATTEMPTS)
    ensures NewFacts(g, nodes, at, p, op, k, v, forward, calls, r)
  {
    if Reached(forward, ATTEMPTS) {
      RunFacts(g, nodes, noted, at, p, op, k, v, calls, run);
    } else {
      assert KeepsHolders(nodes, noted, p, k, v) && SameData(nodes, noted);
    }
  }

  lemma RunFacts(g: Config, nodes: Stores, noted: Stores, at: NodeId, p: nat, op: OpId, k: Key, v: Value,
                 calls: NodeId -> Call, run: Outcome)
    requires Deployed(g, nodes) && at in nodes && at != PrimaryOf(g, p)
    requires noted == nodes[at := nodes[at].(ops := Remember(nodes[at].ops, op, DEDUP_CAP))]
    requires PrimaryFacts(g, noted, p, op, k, v, calls, run)
    ensures run.nodes.Keys == nodes.Keys && KeepsHolders(nodes, run.nodes, p, k, v) && op in run.nodes[at].ops
    ensures forall b :: b in BackupsOf(g, p) && Refuses(nodes, at, b, op) ==> run.nodes[b].data == nodes[b].data
    ensures run.ok ==> forall b :: b in BackupsOf(g, p) && !Refuses(nodes, at, b, op) ==> Holds(run.nodes, b, p, k, v)
    ensures BackupsOf(g, p) != [] && !Reached(calls(BackupsOf(g, p)[0]), ATTEMPTS) ==>
              forall b :: b in BackupsOf(g, p) ==> run.nodes[b].data == nodes[b].data
  {
    assert forall n :: Holds(nodes, n, p, k, v) ==> Holds(noted, n, p, k, v);
    assert op in noted[at].ops && run.nodes[at] == noted[at];
  }

  /** What any write leaves at the primary and the backups, whatever was recorded where before. */
  lemma PutStores(g: Config, nodes: Stores, at: NodeId, k: Key, v: Value, op: OpId, forward: Call, calls: NodeId -> Call)
    requires Deployed(g, nodes) && at in nodes
    ensures PutFacts(g, nodes, at, PartOf(g, k), op, k, v, forward, calls, PutWithOp(g, nodes, at, k, v, op, forward, calls))
  {
    if op !in nodes[at].ops {
      if at == PrimaryOf(g, PartOf(g, k)) {
        PutAtPrimary(g, nodes, k, v, op, forward, calls);
      } else {
        PutElsewhere(g, nodes, at, k, v, op, forward, calls);
      }
    }
  }

  /**
   An operation new to submitter and primary that returns Ok, and whose forward was answered on its first run or was
   not needed, is stored at the primary and at every backup that neither submitted nor had recorded it.
   */
  lemma OkMeansStored(g: Config, nodes: Stores, at: NodeId, k: Key, v: Value, op: OpId, forward: Call, calls: NodeId -> Call,
                      r: Outcome, o: NodeId)
    requires Deployed(g, nodes) && at in nodes && IsNew(g, nodes, at, PartOf(g, k), op)
    requires r == PutWithOp(g, nodes, at, k, v, op, forward, calls) && r.ok
    requires at == PrimaryOf(g, PartOf(g, k)) || FirstRunAnswered(forward, ATTEMPTS)
    requires o in OwnersOf(g, PartOf(g, k))
    ensures if o == PrimaryOf(g, PartOf(g, k)) || !Refuses(nodes, at, o, op) then Holds(r.nodes, o, PartOf(g, k), k, v)
            else o in r.nodes && r.nodes[o].data == nodes[o].data
  {
    PutStores(g, nodes, at, k, v, op, forward, calls);
    var owners := OwnersOf(g, PartOf(g, k));
    assert o == owners[0] || o in owners[1..];
  }

  /**
   After an Ok, the next sync round of a backup gives it the value if the operation was new, even of a write it
   submitted itself. If it was not, no data changed anywhere and there is nothing to restore.
   */
  lemma SyncRestores(g: Config, nodes: Stores, at: NodeId, k: Key, v: Value, op: OpId, forward: Call, calls: NodeId -> Call,
                     r: Outcome, b: NodeId, synced: Stores)
    requires Deployed(g, nodes) && at in nodes
    requires r == PutWithOp(g, nodes, at, k, v, op, forward, calls) && r.ok
    requires b in BackupsOf(g, PartOf(g, k)) && AntiEntropy.SyncRound(g, r.nodes, b, synced)
    ensures if IsNew(g, nodes, at, PartOf(g, k), op) then Holds(synced, b, PartOf(g, k), k, v) else SameData(nodes, r.nodes)
  {
    var p := PartOf(g, k);
    PutStores(g, nodes, at, k, v, op, forward, calls);
    assert b != PrimaryOf(g, p) && SyncSource(g, b, p, r.nodes[b].data) == Some(PrimaryOf(g, p));
    assert Part(synced[b].data, p) == SyncedPart(g, b, r.nodes - {b}, r.nodes[b].data, p);
  }

  // ---- Repeated writes ----

  /** A write repeated at the same node under the same identifier is answered Ok and changes no data, whatever came of the first. */
  lemma RepeatIsEmpty(g: Config, nodes: Stores, at: NodeId, k: Key, v: Value, op: OpId, forward: Call, calls: NodeId -> Call,
                      forward': Call, calls': NodeId -> Call)
    requires Deployed(g, nodes) && at in nodes
    ensures var first := PutWithOp(g, nodes, at, k, v, op, forward, calls);
            && first.nodes.Keys == nodes.Keys
            && PutWithOp(g, first.nodes, at, k, v, op, forward', calls') == Outcome(true, first.nodes)
  {
    PutStores(g, nodes, at, k, v, op, forward, calls);
  }

  /** A primary whose replication failed answers the repeated write with Ok, and the first backup holds what it held. */
  lemma RepeatAtPrimary(g: Config, nodes: Stores, k: Key, v: Value, op: OpId, forward: Call, calls: NodeId -> Call,
                        forward': Call, calls': NodeId -> Call)
    requires Deployed(g, nodes) && BackupsOf(g, PartOf(g, k)) != []
    requires op !in nodes[PrimaryOf(g, PartOf(g, k))].ops && !Reached(calls(BackupsOf(g, PartOf(g, k))[0]), ATTEMPTS)
    ensures var at, b := PrimaryOf(g, PartOf(g, k)), BackupsOf(g, PartOf(g, k))[0];
            var first := PutWithOp(g, nodes, at, k, v, op, forward, calls);
            && !first.ok && first.nodes.Keys == nodes.Keys
            && var second := PutWithOp(g, first.nodes, at, k, v, op, forward', calls');
               second.ok && b in second.nodes && second.nodes[b].data == nodes[b].data
  {
    PutStores(g, nodes, PrimaryOf(g, PartOf(g, k)), k, v, op, forward, calls);
    RepeatIsEmpty(g, nodes, PrimaryOf(g, PartOf(g, k)), k, v, op, forward, calls, forward', calls');
  }

  /** Elsewhere, when the forward of a new operation never arrived, the repeated write is answered Ok and no node holds anything of it. */
  lemma RepeatElsewhere(g: Config, nodes: Stores, at: NodeId, k: Key, v: Value, op: OpId, forward: Call, calls: NodeId -> Call,
                        forward': Call, calls': NodeId -> Call)
    requires Deployed(g, nodes) && at in nodes && at != PrimaryOf(g, PartOf(g, k))
    requires op !in nodes[at].ops && !Reached(forward, ATTEMPTS)
    ensures var first := PutWithOp(g, nodes, at, k, v, op, forward, calls);
            && !first.ok && first.nodes.Keys == nodes.Keys
            && var second := PutWithOp(g, first.nodes, at, k, v, op, forward', calls');
               second.ok && SameData(nodes, second.nodes)
  {
    AnswerMeansReached(forward, ATTEMPTS);
    PutStores(g, nodes, at, k, v, op, forward, calls);
    RepeatIsEmpty(g, nodes, at, k, v, op, forward, calls, forward', calls');
  }

  // ---- Exactly when Ok means durable ----

  ghost predicate AllOwnersHold(g: Config, nodes: Stores, p: nat, k: Key, v: Value)
    requires Proper(g)
  {
    forall o :: o in OwnersOf(g, p) ==> Holds(nodes, o, p, k, v)
  }

  /** Ok means that every owner holds the value. */
  ghost predicate Durable(g: Config, p: nat, k: Key, v: Value, r: Outcome)
    requires Proper(g)
  {
    r.ok ==> AllOwnersHold(g, r.nodes, p, k, v)
  }

  /** On this network, Ok means that every owner holds the value. */
  ghost predicate DurableUnder(g: Config, nodes: Stores, at: NodeId, k: Key, v: Value, op: OpId, forward: Call,
                               calls: NodeId -> Call)
    requires Deployed(g, nodes) && at in nodes
  {
    Durable(g, PartOf(g, k), k, v, PutWithOp(g, nodes, at, k, v, op, forward, calls))
  }

  ghost predicate BackupsHold(g: Config, nodes: Stores, p: nat, k: Key, v: Value)
    requires Proper(g)
  {
    forall b :: b in BackupsOf(g, p) ==> Holds(nodes, b, p, k, v)
  }

  /** Every backup that refuses the replica holds the value anyway. */
  ghost predicate RefusersHold(g: Config, nodes: Stores, at: NodeId, p: nat, op: OpId, k: Key, v: Value)
    requires Deployed(g, nodes)
  {
    forall b :: b in BackupsOf(g, p) && Refuses(nodes, at, b, op) ==> Holds(nodes, b, p, k, v)
  }

  /** When the promise is kept under a given fate of the forward, whatever the replication calls do. */
  ghost predicate Safe(g: Config, nodes: Stores, at: NodeId, p: nat, op: OpId, k: Key, v: Value, forward: Call)
    requires Deployed(g, nodes) && at in nodes
  {
    if !IsNew(g, nodes, at, p, op) then
      (op !in nodes[at].ops && !GetsAnswer(forward, ATTEMPTS)) || AllOwnersHold(g, nodes, p, k, v)
    else if at == PrimaryOf(g, p) then RefusersHold(g, nodes, at, p, op, k, v)
    else
      || !GetsAnswer(forward, ATTEMPTS)
      || BackupsHold(g, nodes, p, k, v)
      || (FirstRunAnswered(forward, ATTEMPTS) && RefusersHold(g, nodes, at, p, op, k, v))
  }

  lemma SafeIsDurable(g: Config, nodes: Stores, at: NodeId, p: nat, op: OpId, k: Key, v: Value,
                      forward: Call, calls: NodeId -> Call, r: Outcome)
    requires Deployed(g, nodes) && at in nodes && PutFacts(g, nodes, at, p, op, k, v, forward, calls, r)
    requires Safe(g, nodes, at, p, op, k, v, forward)
    ensures Durable(g, p, k, v, r)
  {
    var owners := OwnersOf(g, p);
    forall o | o in owners && r.ok ensures Holds(r.nodes, o, p, k, v) {
      if IsNew(g, nodes, at, p, op) {
        assert o == owners[0] || o in owners[1..];
      } else {
        assert Holds(nodes, o, p, k, v);
      }
    }
  }

  /** Replication calls under which an unsafe write returns Ok and misses an owner. */
  ghost function BadCalls(g: Config, at: NodeId, p: nat, forward: Call): NodeId -> Call
    requires Proper(g)
  {
    if at != PrimaryOf(g, p) && !FirstRunAnswered(forward, ATTEMPTS) then (b: NodeId) => [] else (b: NodeId) => [Answered]
  }

  lemma UnsafeMisses(g: Config, nodes: Stores, at: NodeId, p: nat, op: OpId, k: Key, v: Value, forward: Call, r: Outcome)
    returns (missing: NodeId)
    requires Deployed(g, nodes) && at in nodes && !Safe(g, nodes, at, p, op, k, v, forward)
    requires PutFacts(g, nodes, at, p, op, k, v, forward, BadCalls(g, at, p, forward), r)
    ensures r.ok && missing in OwnersOf(g, p) && !Holds(r.nodes, missing, p, k, v)
  {
    var calls := BadCalls(g, at, p, forward);
    if !IsNew(g, nodes, at, p, op) {
      missing :| missing in OwnersOf(g, p) && !Holds(nodes, missing, p, k, v);
    } else if at != PrimaryOf(g, p) && !FirstRunAnswered(forward, ATTEMPTS) {
      missing :| missing in BackupsOf(g, p) && !Holds(nodes, missing, p, k, v);
      assert calls(BackupsOf(g, p)[0]) == [];
    } else {
      missing :| missing in BackupsOf(g, p) && Refuses(nodes, at, missing, op) && !Holds(nodes, missing, p, k, v);
      assert forall b :: calls(b) == [Answered];
    }
  }

  /**
   For every write, every state and every fate of the forward: Ok means durable, however the replication calls go, if
   and only if the write is safe.
   */
  lemma DurableExactly(g: Config, nodes: Stores, at: NodeId, k: Key, v: Value, op: OpId, forward: Call)
    requires Deployed(g, nodes) && at in nodes
    ensures (forall calls: NodeId -> Call :: DurableUnder(g, nodes, at, k, v, op, forward, calls))
            <==> Safe(g, nodes, at, PartOf(g, k), op, k, v, forward)
  {
    var p := PartOf(g, k);
    if Safe(g, nodes, at, p, op, k, v, forward) {
      forall calls: NodeId -> Call ensures DurableUnder(g, nodes, at, k, v, op, forward, calls) {
        PutStores(g, nodes, at, k, v, op, forward, calls);
        SafeIsDurable(g, nodes, at, p, op, k, v, forward, calls, PutWithOp(g, nodes, at, k, v, op, forward, calls));
      }
    } else {
      var calls := BadCalls(g, at, p, forward);
      PutStores(g, nodes, at, k, v, op, forward, calls);
      var missing := UnsafeMisses(g, nodes, at, p, op, k, v, forward, PutWithOp(g, nodes, at, k, v, op, forward, calls));
      assert !DurableUnder(g, nodes, at, k, v, op, forward, calls);
    }
  }

  /** What a caller can know before the call. */
  ghost predicate SafeOnEveryNetwork(g: Config, nodes: Stores, at: NodeId, p: nat, op: OpId, k: Key, v: Value)
    requires Deployed(g, nodes) && at in nodes
  {
    if !IsNew(g, nodes, at, p, op) then AllOwnersHold(g, nodes, p, k, v)
    else if at == PrimaryOf(g, p) then RefusersHold(g, nodes, at, p, op, k, v)
    else BackupsHold(g, nodes, p, k, v)
  }

  /** The worst a network can do to a forward. */
  ghost function BadForward(g: Config, nodes: Stores, at: NodeId, p: nat, op: OpId): Call
    requires Deployed(g, nodes) && at in nodes
  {
    if IsNew(g, nodes, at, p, op) then [Unanswered, Answered] else [Answered]
  }

  lemma BadForwardIs(g: Config, nodes: Stores, at: NodeId, p: nat, op: OpId)
    requires Deployed(g, nodes) && at in nodes
    ensures GetsAnswer(BadForward(g, nodes, at, p, op), ATTEMPTS)
    ensures IsNew(g, nodes, at, p, op) ==> !FirstRunAnswered(BadForward(g, nodes, at, p, op), ATTEMPTS)
  {
    var call: Call := [Unanswered, Answered];
    assert call[1..] == [Answered] && GetsAnswer(call[1..], ATTEMPTS - 1);
  }

  /** Ok means durable on every network, if and only if that condition holds. */
  lemma DurableOnEveryNetwork(g: Config, nodes: Stores, at: NodeId, k: Key, v: Value, op: OpId)
    requires Deployed(g, nodes) && at in nodes
    ensures (forall forward: Call, calls: NodeId -> Call :: DurableUnder(g, nodes, at, k, v, op, forward, calls))
            <==> SafeOnEveryNetwork(g, nodes, at, PartOf(g, k), op, k, v)
  {
    var p := PartOf(g, k);
    if SafeOnEveryNetwork(g, nodes, at, p, op, k, v) {
      forall forward: Call, calls: NodeId -> Call ensures DurableUnder(g, nodes, at, k, v, op, forward, calls) {
        DurableExactly(g, nodes, at, k, v, op, forward);
      }
    } else {
      var forward := BadForward(g, nodes, at, p, op);
      BadForwardIs(g, nodes, at, p, op);
      DurableExactly(g, nodes, at, k, v, op, forward);
      var calls: NodeId -> Call :| !DurableUnder(g, nodes, at, k, v, op, forward, calls);
    }
  }

  /**
   For a value no owner holds yet: Ok means durable on every network if and only if the operation is new and either
   the partition has a single owner, or the write is submitted at the primary and no backup has recorded it.
   */
  lemma NewValueDurableExactly(g: Config, nodes: Stores, at: NodeId, k: Key, v: Value, op: OpId)
    requires Deployed(g, nodes) && at in nodes
    requires forall o :: o in OwnersOf(g, PartOf(g, k)) ==> !Holds(nodes, o, PartOf(g, k), k, v)
    ensures (forall forward: Call, calls: NodeId -> Call :: DurableUnder(g, nodes, at, k, v, op, forward, calls))
            <==> IsNew(g, nodes, at, PartOf(g, k), op)
                 && (|OwnersOf(g, PartOf(g, k))| == 1
                     || (at == PrimaryOf(g, PartOf(g, k)) && forall b :: b in BackupsOf(g, PartOf(g, k)) ==> op !in nodes[b].ops))
  {
    DurableOnEveryNetwork(g, nodes, at, k, v, op);
    var p := PartOf(g, k);
    var owners := OwnersOf(g, p);
    assert owners[0] in owners;
    if |owners| > 1 { assert owners[1..][0] == owners[1] && owners[1] in owners; }
    assert forall b :: b in BackupsOf(g, p) ==> b in owners;
  }

  /** On a network that answers, a write submitted at a backup succeeds without giving that backup a copy. */
  lemma SubmittingBackup(g: Config, nodes: Stores, at: NodeId, k: Key, v: Value, op: OpId, forward: Call, calls: NodeId -> Call)
    requires Deployed(g, nodes) && at in nodes && at in BackupsOf(g, PartOf(g, k))
    requires GetsAnswer(forward, ATTEMPTS) && forall b :: GetsAnswer(calls(b), ATTEMPTS)
    ensures var r := PutWithOp(g, nodes, at, k, v, op, forward, calls);
            r.ok && at in r.nodes && r.nodes[at].data == nodes[at].data
  {
    PutStores(g, nodes, at, k, v, op, forward, calls);
  }

  ghost function Empty(ring: seq<NodeId>): Stores {
    map n | n in ring :: Store(map[], {})
  }

  /** Two nodes and a perfect network: a write submitted at the backup returns Ok with a single copy. */
  lemma BackupSubmitsCounterexample(v: Value)
    ensures var g := Config(["a", "b"], 2, k => 0);
            && Deployed(g, Empty(g.ring))
            && var r := PutWithOp(g, Empty(g.ring), "b", "key", v, "op", [Answered], b => [Answered]);
               r.ok && OwnersOf(g, 0) == ["a", "b"] && !Holds(r.nodes, "b", 0, "key", v)
  {
    var g := Config(["a", "b"], 2, (k: Key) => 0);
    TwoOwners(g);
    SubmittingBackup(g, Empty(g.ring), "b", "key", v, "op", [Answered], b => [Answered]);
  }

  lemma TwoOwners(g: Config)
    requires g.ring == ["a", "b"] && g.rf == 2
    ensures Proper(g) && OwnersOf(g, 0) == ["a", "b"]
  {
    var a, b: NodeId := "a", "b";
    assert a != b && Distinct(g.ring);
    DivModUnique(0, 0, 0, 2);
    assert At(g.ring, 0, 0) == a && At(g.ring, 0, 1) == b;
  }
}
