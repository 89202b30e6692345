/**
 Sync rounds are runs of the replication protocol too, so writes and rounds, in any order, compose to a run, and what
 is proved of reachable states holds after any history of them.
 */
module Histories {
  import Common
  import opened NodeOrder
  import opened Placement
  import opened StorageSpec
  import opened WriteSpec
  import opened Replication
  import opened AntiEntropy
  import WriteRefinement

  lemma DumpExists(m: map<Key, Value>) returns (entries: seq<(Key, Value)>)
    ensures IsDump(entries, m)
    decreases m.Keys
  {
    entries := [];
    if m != map[] {
      var k :| k in m;
      var rest := DumpExists(m - {k});
      entries := rest + [(k, m[k])];
      forall x | x in m ensures exists i :: 0 <= i < |entries| && entries[i].0 == x {
        if x == k {
          assert entries[|rest|].0 == x;
        } else {
          assert x in m - {k};
          var i :| 0 <= i < |rest| && rest[i].0 == x;
          assert entries[i].0 == x;
        }
      }
    }
  }

  /** Only the data of `n` differs. */
  ghost predicate OnlyData(a: Stores, n: NodeId, b: Stores) {
    && n in a && b.Keys == a.Keys && b[n].ops == a[n].ops
    && forall m :: m in a && m != n ==> b[m] == a[m]
  }

  /** Fetching and applying the dump of one partition. */
  lemma RunFetch(g: Config, c: Cluster, n: NodeId, p: nat, source: NodeId) returns (steps: seq<Step>)
    requires Proper(g) && n in c.nodes && source in c.nodes && source != n
    requires SyncSource(g, n, p, c.nodes[n].data) == Common.Some(source)
    ensures var d := RunFrom(g, c, steps);
            && OnlyData(c.nodes, n, d.nodes)
            && (exists entries :: IsDump(entries, Part(c.nodes[source].data, p))
                               && d.nodes[n].data == ApplyEntries(c.nodes[n].data, p, entries))
  {
    var entries := DumpExists(Part(c.nodes[source].data, p));
    var ask, answer, apply := RequestSync(n, p), Deliver(Fetch(n, source, p), entries), Deliver(Dump(n, p, entries), []);
    var c1 := Apply(g, c, ask);
    var c2 := Apply(g, c1, answer);
    var c3 := Apply(g, c2, apply);
    WriteRefinement.OneStep(g, c2, apply);
    WriteRefinement.Prepend(g, c1, answer, [apply]);
    WriteRefinement.Prepend(g, c, ask, [answer] + [apply]);
    steps := [ask] + ([answer] + [apply]);
  }

  lemma DumpSyncsOne(g: Config, n: NodeId, peers: Stores, d: Data, p: nat, source: NodeId, entries: seq<(Key, Value)>)
    requires Proper(g) && p < NUM_PARTITIONS && SyncSource(g, n, p, d) == Common.Some(source)
    requires source in peers && IsDump(entries, Part(peers[source].data, p))
    ensures SyncsOne(g, n, peers, d, ApplyEntries(d, p, entries), p)
  {
    ApplyDump(d, p, entries, Part(peers[source].data, p));
    ApplyKeys(d, p, entries);
    assert entries == [] ==> Part(d, p) + Part(peers[source].data, p) == Part(d, p);
  }

  /** Syncing one partition is a run. */
  lemma RunPartition(g: Config, c: Cluster, n: NodeId, peers: Stores, p: nat) returns (steps: seq<Step>)
    requires Proper(g) && n in c.nodes && p < NUM_PARTITIONS
    requires forall m :: m in peers ==> m in c.nodes && m != n && peers[m] == c.nodes[m]
    ensures var d := RunFrom(g, c, steps);
            OnlyData(c.nodes, n, d.nodes) && SyncsOne(g, n, peers, c.nodes[n].data, d.nodes[n].data, p)
  {
    var source := SyncSource(g, n, p, c.nodes[n].data);
    if source.Some? && source.value in peers {
      steps := RunFetch(g, c, n, p, source.value);
      var entries :| IsDump(entries, Part(peers[source.value].data, p))
                     && RunFrom(g, c, steps).nodes[n].data == ApplyEntries(c.nodes[n].data, p, entries);
      DumpSyncsOne(g, n, peers, c.nodes[n].data, p, source.value, entries);
    } else {
      steps := [];
    }
  }

  ghost function Upto(q: nat): (ps: set<nat>)
    ensures forall p: nat :: p in ps <==> p < q
  {
    if q == 0 then {} else Upto(q - 1) + {q - 1}
  }

  /** Syncing the first `q` partitions is a run. */
  lemma {:induction false} RunPartitions(g: Config, c: Cluster, n: NodeId, peers: Stores, q: nat) returns (steps: seq<Step>)
    requires Proper(g) && n in c.nodes && q <= NUM_PARTITIONS
    requires forall m :: m in peers ==> m in c.nodes && m != n && peers[m] == c.nodes[m]
    ensures var d := RunFrom(g, c, steps);
            OnlyData(c.nodes, n, d.nodes) && SyncedAt(g, n, peers, c.nodes[n].data, d.nodes[n].data, Upto(q))
  {
    if q == 0 {
      steps := [];
    } else {
      var first := RunPartitions(g, c, n, peers, q - 1);
      var mid := RunFrom(g, c, first);
      var rest := RunPartition(g, mid, n, peers, q - 1);
      RunFromSplit(g, c, first, rest);
      steps := first + rest;
      SyncedAtStep(g, n, peers, c.nodes[n].data, mid.nodes[n].data, RunFrom(g, c, steps).nodes[n].data, Upto(q - 1), q - 1);
    }
  }

  /** The data after a round is determined. */
  lemma SyncedIsUnique(g: Config, n: NodeId, peers: Stores, d: Data, x: Data, y: Data)
    requires Proper(g) && IsSynced(g, n, peers, d, x) && IsSynced(g, n, peers, d, y)
    ensures x == y
  {
    assert forall p :: Part(x, p) == Part(y, p);
    assert forall p :: p in x ==> x[p] == Part(x, p) && p in y && y[p] == Part(y, p);
  }

  /** Every sync round, whoever answers it, is a run of the protocol. */
  lemma RoundIsRun(g: Config, c: Cluster, n: NodeId, peers: Stores, b: Stores) returns (steps: seq<Step>)
    requires Proper(g) && Round(g, c.nodes, n, peers, b)
    ensures RunFrom(g, c, steps).nodes == b
  {
    steps := RunPartitions(g, c, n, peers, NUM_PARTITIONS);
    var d := RunFrom(g, c, steps).nodes;
    SyncedAtAll(g, n, peers, c.nodes[n].data, d[n].data, Upto(NUM_PARTITIONS));
    SyncedIsUnique(g, n, peers, c.nodes[n].data, b[n].data, d[n].data);
    assert d[n] == b[n];
  }

  // ---- Histories of writes and rounds ----

  ghost predicate IsWrite(g: Config, a: Stores, b: Stores) {
    && Deployed(g, a)
    && exists at, k, v, op, forward, calls :: at in a && b == PutWithOp(g, a, at, k, v, op, forward, calls).nodes
  }

  ghost predicate IsRound(g: Config, a: Stores, b: Stores) {
    Proper(g) && exists n, peers :: Round(g, a, n, peers, b)
  }

  /** From empty stores, each state comes from the one before by a write or a round. */
  ghost predicate IsHistory(g: Config, trace: seq<Stores>) {
    && trace != [] && trace[0] == Initial(g).nodes
    && forall i :: 0 <= i < |trace| - 1 ==> IsWrite(g, trace[i], trace[i + 1]) || IsRound(g, trace[i], trace[i + 1])
  }

  lemma RunNext(g: Config, c: Cluster, b: Stores) returns (steps: seq<Step>)
    requires Proper(g) && (IsWrite(g, c.nodes, b) || IsRound(g, c.nodes, b))
    ensures RunFrom(g, c, steps).nodes == b
  {
    if IsWrite(g, c.nodes, b) {
      var at, k, v, op, forward, calls :| at in c.nodes && b == PutWithOp(g, c.nodes, at, k, v, op, forward, calls).nodes;
      steps := WriteRefinement.WriteIsRun(g, c, at, k, v, op, forward, calls);
    } else {
      var n, peers :| Round(g, c.nodes, n, peers, b);
      steps := RoundIsRun(g, c, n, peers, b);
    }
  }

  lemma {:induction false} HistoryIsRun(g: Config, trace: seq<Stores>) returns (steps: seq<Step>)
    requires Proper(g) && IsHistory(g, trace)
    ensures Run(g, steps).nodes == trace[|trace| - 1]
  {
    if |trace| == 1 {
      steps := [];
    } else {
      var k := |trace| - 1;
      assert IsHistory(g, trace[..k]) by {
        forall i | 0 <= i < k - 1
          ensures IsWrite(g, trace[..k][i], trace[..k][i + 1]) || IsRound(g, trace[..k][i], trace[..k][i + 1])
        {
          assert IsWrite(g, trace[i], trace[i + 1]) || IsRound(g, trace[i], trace[i + 1]);
        }
      }
      var first := HistoryIsRun(g, trace[..k]);
      assert IsWrite(g, trace[k - 1], trace[k]) || IsRound(g, trace[k - 1], trace[k]);
      var rest := RunNext(g, Run(g, first), trace[k]);
      RunFromSplit(g, Initial(g), first, rest);
      steps := first + rest;
    }
  }

  /**
   After any history of writes and sync rounds, whatever the network did to them, one sync round at each backup makes
   all owners of every partition equal to its primary.
   */
  lemma HistoryConverges(g: Config, history: seq<Stores>, trace: seq<Stores>, order: seq<NodeId>, p: nat)
    requires Proper(g) && IsHistory(g, history)
    requires SyncTrace(g, trace, order) && trace[0] == history[|history| - 1]
    requires forall o :: o in BackupsOf(g, p) ==> o in order
    ensures PrimaryOf(g, p) in trace[0]
    ensures forall o :: o in OwnersOf(g, p) ==>
              o in trace[|order|] && Part(trace[|order|][o].data, p) == Part(trace[0][PrimaryOf(g, p)].data, p)
  {
    var steps := HistoryIsRun(g, history);
    QuietClusterConverges(g, steps, trace, order, p);
  }
}
