/**
 What a remote call, a replication and a whole write do, call by call and entry by entry: the requirements of
 `src/storage/memory.rs`, stated on attempts and stores alone.
 */
module WriteLaws {
  import opened NodeOrder
  import opened StorageSpec
  import opened WriteSpec

  // ---- Remote calls ----

  /** Attempt `i` is the first to arrive, and it is answered. */
  ghost predicate FirstRunAt(call: Call, tries: nat, i: nat) {
    i < tries && i < |call| && call[i] == Answered && forall j: nat :: j < i ==> call[j] == Dropped
  }

  lemma FirstRunStep(call: Call, tries: nat, rest: Call, left: nat)
    requires tries > 0 && call != [] && rest == call[1..] && left == tries - 1
    ensures (exists i: nat :: FirstRunAt(call, tries, i))
            <==> call[0] == Answered || (call[0] == Dropped && exists i: nat :: FirstRunAt(rest, left, i))
  {
    if call[0] == Answered {
      assert FirstRunAt(call, tries, 0);
    }
    if i: nat :| FirstRunAt(call, tries, i) && i > 0 {
      assert forall j: nat :: j < i - 1 ==> rest[j] == call[j + 1];
      assert FirstRunAt(rest, left, i - 1);
    }
    if call[0] == Dropped {
      if i: nat :| FirstRunAt(rest, left, i) {
        assert forall j: nat :: 0 < j < i + 1 ==> call[j] == rest[j - 1];
        assert FirstRunAt(call, tries, i + 1);
      }
    }
  }

  lemma {:induction false} AttemptsAre(call: Call, tries: nat)
    ensures Reached(call, tries) <==> exists i: nat :: i < tries && i < |call| && call[i] != Dropped
    ensures GetsAnswer(call, tries) <==> exists i: nat :: i < tries && i < |call| && call[i] == Answered
    ensures FirstRunAnswered(call, tries) <==> exists i: nat :: FirstRunAt(call, tries, i)
  {
    if tries > 0 && call != [] {
      var rest := call[1..];
      AttemptsAre(rest, tries - 1);
      assert forall i: nat :: 0 < i < |call| ==> call[i] == rest[i - 1];
      if i: nat :| i < tries && i < |call| && call[i] != Dropped && i > 0 {
        assert rest[i - 1] != Dropped;
      }
      if i: nat :| i < tries && i < |call| && call[i] == Answered && i > 0 {
        assert rest[i - 1] == Answered;
      }
      if i: nat :| i < tries - 1 && i < |rest| && rest[i] != Dropped {
        assert call[i + 1] != Dropped;
      }
      if i: nat :| i < tries - 1 && i < |rest| && rest[i] == Answered {
        assert call[i + 1] == Answered;
      }
      FirstRunStep(call, tries, rest, tries - 1);
    }
  }

  /** A call is tried three times: it arrives if one try does, and succeeds if one is answered. */
  lemma CallIs(call: Call)
    ensures Reached(call, ATTEMPTS) <==> exists i: nat :: i < 3 && i < |call| && call[i] != Dropped
    ensures GetsAnswer(call, ATTEMPTS) <==> exists i: nat :: i < 3 && i < |call| && call[i] == Answered
    ensures FirstRunAnswered(call, ATTEMPTS) <==> exists i: nat :: FirstRunAt(call, 3, i)
  {
    AttemptsAre(call, 3);
  }

  // ---- Replication ----

  /** A replica write of a recorded operation changes nothing; of a new one, exactly the entry and the record. */
  lemma ReplicaIs(s: Store, p: nat, op: OpId, k: Key, v: Value, q: nat, x: Key)
    ensures var s' := Replica(s, p, op, k, v, 10_000);
            if op in s.ops then s' == s
            else
              && s'.ops == (if |s.ops| > 10_000 then {op} else s.ops + {op})
              && k in Part(s'.data, p) && Part(s'.data, p)[k] == v
              && (q != p || x != k ==> SameEntry(s.data, s'.data, q, x))
  {
  }

  ghost predicate SameEntry(d: Data, d': Data, q: nat, x: Key) {
    (x in Part(d', q) <==> x in Part(d, q)) && (x in Part(d, q) ==> Part(d', q)[x] == Part(d, q)[x])
  }

  /**
   Replication, backup by backup: it succeeds exactly when every call is answered; a backup is written if its call
   arrives and all calls before it were answered, and is as it was otherwise; so is everybody else.
   */
  lemma {:induction false} ReplicationIs(nodes: Stores, backups: seq<NodeId>, p: nat, op: OpId, k: Key, v: Value,
                                         calls: NodeId -> Call)
    requires Distinct(backups) && forall b :: b in backups ==> b in nodes
    ensures var r := ReplicateAll(nodes, backups, p, op, k, v, calls);
            && r.nodes.Keys == nodes.Keys
            && (r.ok <==> AllAnswered(backups, |backups|, calls))
            && (forall n :: n in nodes && n !in backups ==> r.nodes[n] == nodes[n])
            && (forall j: nat :: j < |backups| ==> IsReplicated(nodes, r.nodes, backups, j, p, op, k, v, calls))
  {
    if backups != [] {
      var b, rest := backups[0], backups[1..];
      var after := Replicated(nodes, b, p, op, k, v, calls(b));
      assert after.Keys == nodes.Keys && b !in rest;
      ReplicationIs(after, rest, p, op, k, v, calls);
      AnsweredStep(backups, calls);
      var r := ReplicateAll(nodes, backups, p, op, k, v, calls);
      forall j: nat | j < |backups| ensures IsReplicated(nodes, r.nodes, backups, j, p, op, k, v, calls) {
        if j > 0 {
          assert rest[j - 1] == backups[j] && backups[j] != b;
          assert IsReplicated(after, ReplicateAll(after, rest, p, op, k, v, calls).nodes, rest, j - 1, p, op, k, v, calls);
        }
      }
    }
  }

  ghost predicate AllAnswered(backups: seq<NodeId>, n: nat, calls: NodeId -> Call) {
    forall i: nat :: i < n && i < |backups| ==> GetsAnswer(calls(backups[i]), ATTEMPTS)
  }

  ghost predicate IsReplicated(nodes: Stores, after: Stores, backups: seq<NodeId>, j: nat, p: nat, op: OpId, k: Key, v: Value,
                               calls: NodeId -> Call) {
    && j < |backups| && backups[j] in nodes && backups[j] in after
    && after[backups[j]] == if AllAnswered(backups, j, calls) && Reached(calls(backups[j]), ATTEMPTS)
                            then Replica(nodes[backups[j]], p, op, k, v, 10_000) else nodes[backups[j]]
  }

  lemma AnsweredStep(backups: seq<NodeId>, calls: NodeId -> Call)
    requires backups != []
    ensures forall n: nat :: n > 0 ==>
              (AllAnswered(backups, n, calls)
               <==> GetsAnswer(calls(backups[0]), ATTEMPTS) && AllAnswered(backups[1..], n - 1, calls))
  {
    forall n: nat | n > 0
      ensures AllAnswered(backups, n, calls)
              <==> GetsAnswer(calls(backups[0]), ATTEMPTS) && AllAnswered(backups[1..], n - 1, calls)
    {
      if AllAnswered(backups, n, calls) {
        forall i: nat | i < n - 1 && i < |backups[1..]| ensures GetsAnswer(calls(backups[1..][i]), ATTEMPTS) {
          assert backups[1..][i] == backups[i + 1];
        }
      }
      if GetsAnswer(calls(backups[0]), ATTEMPTS) && AllAnswered(backups[1..], n - 1, calls) {
        forall i: nat | i < n && i < |backups| ensures GetsAnswer(calls(backups[i]), ATTEMPTS) {
          if i > 0 { assert backups[i] == backups[1..][i - 1]; }
        }
      }
    }
  }

  // ---- A write touches one key, at the owners ----

  /** No entry but the key's differs, and no data but the owners'. */
  ghost predicate Touches(g: Config, nodes: Stores, after: Stores, p: nat, k: Key)
    requires Proper(g)
  {
    && after.Keys == nodes.Keys
    && (forall n :: n in nodes && n !in OwnersOf(g, p) ==> after[n].data == nodes[n].data)
    && (forall n, q, x :: n in nodes && (q != p || x != k) ==> SameEntry(nodes[n].data, after[n].data, q, x))
  }

  lemma TouchesOn(g: Config, a: Stores, b: Stores, c: Stores, p: nat, k: Key)
    requires Proper(g) && Touches(g, a, b, p, k) && Touches(g, b, c, p, k)
    ensures Touches(g, a, c, p, k)
  {
    forall n, q, x | n in a && (q != p || x != k) ensures SameEntry(a[n].data, c[n].data, q, x) {
      assert SameEntry(a[n].data, b[n].data, q, x) && SameEntry(b[n].data, c[n].data, q, x);
    }
  }

  lemma TouchOne(g: Config, nodes: Stores, n: NodeId, s: Store, p: nat, k: Key, v: Value)
    requires Proper(g) && n in nodes && (s.data == nodes[n].data || (n in OwnersOf(g, p) && s.data == Put(nodes[n].data, p, k, v)))
    ensures Touches(g, nodes, nodes[n := s], p, k)
  {
  }

  lemma {:induction false} ReplicationTouches(g: Config, nodes: Stores, backups: seq<NodeId>, p: nat, op: OpId, k: Key, v: Value,
                                              calls: NodeId -> Call)
    requires Proper(g) && forall b :: b in backups ==> b in nodes && b in OwnersOf(g, p)
    ensures Touches(g, nodes, ReplicateAll(nodes, backups, p, op, k, v, calls).nodes, p, k)
  {
    if backups != [] {
      var b := backups[0];
      var after := Replicated(nodes, b, p, op, k, v, calls(b));
      assert Touches(g, nodes, after, p, k) by {
        TouchOne(g, nodes, b, Replica(nodes[b], p, op, k, v, DEDUP_CAP), p, k, v);
      }
      ReplicationTouches(g, after, backups[1..], p, op, k, v, calls);
      TouchesOn(g, nodes, after, ReplicateAll(after, backups[1..], p, op, k, v, calls).nodes, p, k);
    }
  }

  lemma StoreAndReplicate(g: Config, nodes: Stores, at: NodeId, s: Store, p: nat, op: OpId, k: Key, v: Value, calls: NodeId -> Call)
    requires Deployed(g, nodes) && at == PrimaryOf(g, p) && s.data == Put(nodes[at].data, p, k, v)
    ensures Touches(g, nodes, ReplicateAll(nodes[at := s], BackupsOf(g, p), p, op, k, v, calls).nodes, p, k)
  {
    TouchOne(g, nodes, at, s, p, k, v);
    assert forall b :: b in BackupsOf(g, p) ==> b in OwnersOf(g, p);
    ReplicationTouches(g, nodes[at := s], BackupsOf(g, p), p, op, k, v, calls);
    TouchesOn(g, nodes, nodes[at := s], ReplicateAll(nodes[at := s], BackupsOf(g, p), p, op, k, v, calls).nodes, p, k);
  }

  lemma PrimaryTouches(g: Config, nodes: Stores, p: nat, op: OpId, k: Key, v: Value, calls: NodeId -> Call)
    requires Deployed(g, nodes)
    ensures Touches(g, nodes, PrimaryWrite(g, nodes, p, op, k, v, calls).nodes, p, k)
  {
    var at := PrimaryOf(g, p);
    StoreAndReplicate(g, nodes, at, Store(Put(nodes[at].data, p, k, v), Remember(nodes[at].ops, op, DEDUP_CAP)), p, op, k, v, calls);
  }

  lemma {:induction false} ForwardTouches(g: Config, nodes: Stores, p: nat, op: OpId, k: Key, v: Value,
                                          call: Call, tries: nat, calls: NodeId -> Call)
    requires Deployed(g, nodes)
    ensures Touches(g, nodes, Forwarded(g, nodes, p, op, k, v, call, tries, calls).nodes, p, k)
    decreases tries
  {
    if tries > 0 && call != [] {
      if call[0] == Dropped {
        ForwardTouches(g, nodes, p, op, k, v, call[1..], tries - 1, calls);
      } else {
        ForwardRunTouches(g, nodes, p, op, k, v, call, tries, calls);
      }
    }
  }

  lemma {:induction false} ForwardRunTouches(g: Config, nodes: Stores, p: nat, op: OpId, k: Key, v: Value,
                                             call: Call, tries: nat, calls: NodeId -> Call)
    requires Deployed(g, nodes) && tries > 0 && call != [] && call[0] != Dropped
    ensures Touches(g, nodes, Forwarded(g, nodes, p, op, k, v, call, tries, calls).nodes, p, k)
    decreases tries, 0
  {
    PrimaryTouches(g, nodes, p, op, k, v, calls);
    var run := PrimaryWrite(g, nodes, p, op, k, v, calls);
    if call[0] == Unanswered {
      PrimaryWriteKeys(g, nodes, p, op, k, v, calls);
      ForwardTouches(g, run.nodes, p, op, k, v, call[1..], tries - 1, calls);
      TouchesOn(g, nodes, run.nodes, Forwarded(g, run.nodes, p, op, k, v, call[1..], tries - 1, calls).nodes, p, k);
    }
  }

  /** A write, wherever submitted and whatever the network does, changes the entry of its key at owners and no other data. */
  lemma WriteTouches(g: Config, nodes: Stores, at: NodeId, k: Key, v: Value, op: OpId, forward: Call, calls: NodeId -> Call)
    requires Deployed(g, nodes) && at in nodes
    ensures Touches(g, nodes, PutWithOp(g, nodes, at, k, v, op, forward, calls).nodes, PartOf(g, k), k)
  {
    if op !in nodes[at].ops {
      var p := PartOf(g, k);
      var s := nodes[at].(ops := Remember(nodes[at].ops, op, DEDUP_CAP));
      var noted := nodes[at := s];
      TouchOne(g, nodes, at, s, p, k, v);
      if at != PrimaryOf(g, p) {
        ForwardTouches(g, noted, p, op, k, v, forward, ATTEMPTS, calls);
      } else {
        StoreAndReplicate(g, noted, at, noted[at].(data := Put(noted[at].data, p, k, v)), p, op, k, v, calls);
      }
      TouchesOn(g, nodes, noted, PutWithOp(g, nodes, at, k, v, op, forward, calls).nodes, p, k);
    }
  }

  /** A write of a new operation submitted at the primary succeeds exactly when every replication call is answered. */
  lemma PrimaryOkIs(g: Config, nodes: Stores, k: Key, v: Value, op: OpId, forward: Call, calls: NodeId -> Call)
    requires Deployed(g, nodes) && op !in nodes[PrimaryOf(g, PartOf(g, k))].ops
    ensures PutWithOp(g, nodes, PrimaryOf(g, PartOf(g, k)), k, v, op, forward, calls).ok
            <==> AllAnswered(BackupsOf(g, PartOf(g, k)), |BackupsOf(g, PartOf(g, k))|, calls)
  {
    var p := PartOf(g, k);
    var at := PrimaryOf(g, p);
    var noted := nodes[at := nodes[at].(ops := Remember(nodes[at].ops, op, DEDUP_CAP))];
    assert forall b :: b in BackupsOf(g, p) ==> b in OwnersOf(g, p);
    ReplicationIs(noted[at := noted[at].(data := Put(noted[at].data, p, k, v))], BackupsOf(g, p), p, op, k, v, calls);
  }
}
