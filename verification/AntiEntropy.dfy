/** What reads return and what sync rounds restore, in every reachable state of the replicated map. */
module AntiEntropy {
  import opened Common
  import opened NodeOrder
  import opened Placement
  import opened StorageSpec
  import opened Replication

  // ---- Reads ----

  /** A hit comes from some owner that holds the key; there is none exactly when no answering owner holds it. */
  lemma {:induction false} FirstHitFinds(nodes: Stores, order: seq<NodeId>, up: set<NodeId>, p: nat, k: Key)
    ensures var v := FirstHit(nodes, order, up, p, k);
            if v.Some?
            then exists o :: o in order && o in up && o in nodes && k in Part(nodes[o].data, p) && Part(nodes[o].data, p)[k] == v.value
            else forall o :: o in order && o in up && o in nodes ==> k !in Part(nodes[o].data, p)
  {
    if order != [] && !(order[0] in up && order[0] in nodes && k in Part(nodes[order[0]].data, p)) {
      FirstHitFinds(nodes, order[1..], up, p, k);
      var v := FirstHit(nodes, order[1..], up, p, k);
      if v.Some? {
        var o :| o in order[1..] && o in up && o in nodes && k in Part(nodes[o].data, p) && Part(nodes[o].data, p)[k] == v.value;
        assert o in order;
      }
    }
  }

  /** The `i`-th of the nodes answers and holds the key. */
  ghost predicate CanAnswer(nodes: Stores, order: seq<NodeId>, up: set<NodeId>, p: nat, k: Key, i: nat) {
    i < |order| && order[i] in up && order[i] in nodes && k in Part(nodes[order[i]].data, p)
  }

  ghost predicate IsFirstToAnswer(nodes: Stores, order: seq<NodeId>, up: set<NodeId>, p: nat, k: Key, i: nat) {
    CanAnswer(nodes, order, up, p, k, i) && forall j: nat :: j < i ==> !CanAnswer(nodes, order, up, p, k, j)
  }

  lemma {:induction false} FirstHitIsFirst(nodes: Stores, order: seq<NodeId>, up: set<NodeId>, p: nat, k: Key, i: nat)
    requires IsFirstToAnswer(nodes, order, up, p, k, i)
    ensures FirstHit(nodes, order, up, p, k) == Some(Part(nodes[order[i]].data, p)[k])
  {
    if i > 0 {
      assert !CanAnswer(nodes, order, up, p, k, 0);
      forall j: nat | j < i - 1 ensures !CanAnswer(nodes, order[1..], up, p, k, j) {
        assert !CanAnswer(nodes, order, up, p, k, j + 1);
      }
      FirstHitIsFirst(nodes, order[1..], up, p, k, i - 1);
    }
  }

  lemma {:induction false} NobodyAnswers(nodes: Stores, order: seq<NodeId>, up: set<NodeId>, p: nat, k: Key)
    ensures FirstHit(nodes, order, up, p, k) == None <==> forall i: nat :: !CanAnswer(nodes, order, up, p, k, i)
  {
    FirstHitFinds(nodes, order, up, p, k);
    if FirstHit(nodes, order, up, p, k).Some? {
      var o :| o in order && o in up && o in nodes && k in Part(nodes[o].data, p);
      var i: nat :| i < |order| && order[i] == o;
      assert CanAnswer(nodes, order, up, p, k, i);
    }
  }

  /**
   A read, whoever answers and whatever the stores hold: the local copy if there is one; else the value of the first
   owner in order, primary or backup, that answers and holds the key; and nothing exactly when no owner does.
   */
  lemma ReadIs(g: Config, nodes: Stores, at: NodeId, up: set<NodeId>, k: Key)
    requires Proper(g) && at in nodes
    ensures var p, v := PartOf(g, k), Read(g, nodes, at, up, k);
            if k in Part(nodes[at].data, p) then v == Some(Part(nodes[at].data, p)[k])
            else v == None <==> forall i: nat :: !CanAnswer(nodes, OwnersOf(g, p), up, p, k, i)
    ensures var p := PartOf(g, k);
            forall i: nat :: IsFirstToAnswer(nodes, OwnersOf(g, p), up, p, k, i) && k !in Part(nodes[at].data, p) ==>
              Read(g, nodes, at, up, k) == Some(Part(nodes[OwnersOf(g, p)[i]].data, p)[k])
  {
    var p := PartOf(g, k);
    NobodyAnswers(nodes, OwnersOf(g, p), up, p, k);
    forall i: nat | IsFirstToAnswer(nodes, OwnersOf(g, p), up, p, k, i)
      ensures FirstHit(nodes, OwnersOf(g, p), up, p, k) == Some(Part(nodes[OwnersOf(g, p)[i]].data, p)[k])
    {
      FirstHitIsFirst(nodes, OwnersOf(g, p), up, p, k, i);
    }
  }

  /** In every run, whichever nodes answer, a read never invents: its value was written and once held by the primary. */
  lemma ReadIsSound(g: Config, steps: seq<Step>, at: NodeId, up: set<NodeId>, k: Key)
    requires Proper(g) && at in Run(g, steps).nodes
    ensures var c := Run(g, steps);
            var v := Read(g, c.nodes, at, up, k);
            v.Some? ==> (k, v.value) in c.held && (k, v.value) in c.written
  {
    var c, p := Run(g, steps), PartOf(g, k);
    RunKeepsInv(g, steps);
    assert NodeOk(g, c, at);
    if k !in PartAt(c, at, p) {
      var v := FirstHit(c.nodes, OwnersOf(g, p), up, p, k);
      FirstHitFinds(c.nodes, OwnersOf(g, p), up, p, k);
      if v.Some? {
        var o :| o in OwnersOf(g, p) && o in up && o in c.nodes && k in PartAt(c, o, p) && PartAt(c, o, p)[k] == v.value;
        assert NodeOk(g, c, o);
      }
    }
  }

  /** Every node's keys in a partition are among the primary's; there is nothing beyond the last partition. */
  lemma KeysContained(g: Config, c: Cluster, n: NodeId, p: nat)
    requires Proper(g) && Inv(g, c) && n in c.nodes
    ensures PrimaryOf(g, p) in c.nodes && PartAt(c, n, p).Keys <= PartAt(c, PrimaryOf(g, p), p).Keys
    ensures p >= NUM_PARTITIONS ==> PartAt(c, n, p) == map[]
  {
    assert NodeOk(g, c, n);
    forall k | k in PartAt(c, n, p) ensures k in PartAt(c, PrimaryOf(g, p), p) && p < NUM_PARTITIONS {
      assert EntryOk(g, c, p, k, PartAt(c, n, p)[k]);
    }
  }

  lemma ReadFinds(g: Config, c: Cluster, at: NodeId, up: set<NodeId>, k: Key, p: nat)
    requires Proper(g) && Inv(g, c) && at in c.nodes && p == PartOf(g, k) && PrimaryOf(g, p) in up
    ensures PrimaryOf(g, p) in c.nodes
    ensures Read(g, c.nodes, at, up, k) ==
              if k in PartAt(c, at, p) then Some(PartAt(c, at, p)[k])
              else if k in PartAt(c, PrimaryOf(g, p), p) then Some(PartAt(c, PrimaryOf(g, p), p)[k])
              else None
    ensures k in PartAt(c, at, p) ==> k in PartAt(c, PrimaryOf(g, p), p)
  {
    KeysContained(g, c, at, p);
    var v := FirstHit(c.nodes, OwnersOf(g, p), up, p, k);
    FirstHitFinds(c.nodes, OwnersOf(g, p), up, p, k);
    if k !in PartAt(c, PrimaryOf(g, p), p) && v.Some? {
      var o :| o in OwnersOf(g, p) && o in up && o in c.nodes && k in PartAt(c, o, p);
      KeysContained(g, c, o, p);
      assert false;
    }
  }

  /**
   In every run, if the primary answers: a read anywhere finds a value exactly when the primary has one,
   and a node without a local copy returns the primary's value.
   */
  lemma ReadFindsPrimary(g: Config, steps: seq<Step>, at: NodeId, up: set<NodeId>, k: Key)
    requires Proper(g) && at in Run(g, steps).nodes && PrimaryOf(g, PartOf(g, k)) in up
    ensures var c, p := Run(g, steps), PartOf(g, k);
            var primary := PrimaryOf(g, p);
            && primary in c.nodes
            && (Read(g, c.nodes, at, up, k).Some? <==> k in PartAt(c, primary, p))
            && (k !in PartAt(c, at, p) && k in PartAt(c, primary, p) ==>
                  Read(g, c.nodes, at, up, k) == Some(PartAt(c, primary, p)[k]))
  {
    RunKeepsInv(g, steps);
    ReadFinds(g, Run(g, steps), at, up, k, PartOf(g, k));
  }

  // ---- Sync rounds ----

  /** Node `n` makes one sync round in which the nodes of `peers` answer; nothing else happens. */
  ghost predicate Round(g: Config, a: Stores, n: NodeId, peers: Stores, b: Stores)
    requires Proper(g)
  {
    && n in a && b.Keys == a.Keys
    && (forall m :: m in peers ==> m in a && m != n && peers[m] == a[m])
    && (forall m :: m in a && m != n ==> b[m] == a[m])
    && b[n].ops == a[n].ops
    && IsSynced(g, n, peers, a[n].data, b[n].data)
  }

  /** A round in which all others answer. */
  ghost predicate SyncRound(g: Config, a: Stores, n: NodeId, b: Stores)
    requires Proper(g)
  {
    Round(g, a, n, a - {n}, b)
  }

  /**
   A round, for arbitrary data, partition by partition: a primary that holds none of its partition takes what the first
   backup holds, if that answers, and any other keeps what it has; a backup overlays what the primary holds, if that
   answers; a partition the node does not own, or that does not exist, stays.
   */
  lemma RoundIs(g: Config, n: NodeId, peers: Stores, d: Data, d': Data, p: nat)
    requires Proper(g) && IsSynced(g, n, peers, d, d')
    ensures var owners, before, after := OwnersOf(g, p), Part(d, p), Part(d', p);
            if p >= 256 || n !in owners then after == before
            else if n == owners[0] then
              if before == map[] && |owners| > 1 && owners[1] in peers then after == Part(peers[owners[1]].data, p)
              else after == before
            else
              if owners[0] in peers then after == before + Part(peers[owners[0]].data, p) else after == before
  {
    OwnersSplit(g, p);
    assert Part(d', p) == SyncedPart(g, n, peers, d, p);
    if n == PrimaryOf(g, p) {
      PrimarySyncs(g, n, peers, d, p);
    } else {
      BackupSyncs(g, n, peers, d, p);
    }
  }

  lemma PrimarySyncs(g: Config, n: NodeId, peers: Stores, d: Data, p: nat)
    requires Proper(g) && n == PrimaryOf(g, p)
    ensures SyncedPart(g, n, peers, d, p)
         == if p < 256 && Part(d, p) == map[] && BackupsOf(g, p) != [] && BackupsOf(g, p)[0] in peers
            then Part(peers[BackupsOf(g, p)[0]].data, p) else Part(d, p)
  {
    if BackupsOf(g, p) != [] && BackupsOf(g, p)[0] in peers {
      assert map[] + Part(peers[BackupsOf(g, p)[0]].data, p) == Part(peers[BackupsOf(g, p)[0]].data, p);
    }
  }

  lemma BackupSyncs(g: Config, n: NodeId, peers: Stores, d: Data, p: nat)
    requires Proper(g) && n != PrimaryOf(g, p)
    ensures SyncedPart(g, n, peers, d, p)
         == if p < 256 && n in BackupsOf(g, p) && PrimaryOf(g, p) in peers
            then Part(d, p) + Part(peers[PrimaryOf(g, p)].data, p) else Part(d, p)
  {
  }

  lemma OwnersSplit(g: Config, p: nat)
    requires Proper(g)
    ensures PrimaryOf(g, p) in OwnersOf(g, p) && PrimaryOf(g, p) !in BackupsOf(g, p)
    ensures forall o :: o in OwnersOf(g, p) <==> o == PrimaryOf(g, p) || o in BackupsOf(g, p)
  {
    var owners := OwnersOf(g, p);
    assert owners == [owners[0]] + owners[1..];
  }

  /** `trace` is a sequence of sync rounds by the nodes of `order`. */
  ghost predicate SyncTrace(g: Config, trace: seq<Stores>, order: seq<NodeId>)
    requires Proper(g)
  {
    |trace| == |order| + 1 && forall i :: 0 <= i < |order| ==> SyncRound(g, trace[i], order[i], trace[i + 1])
  }

  /** Keys of an owner are keys of the primary, in the partition `p`. */
  ghost predicate Contained(g: Config, nodes: Stores, p: nat)
    requires Proper(g)
  {
    && (forall o :: o in g.ring ==> o in nodes)
    && (p >= NUM_PARTITIONS ==> forall o :: o in OwnersOf(g, p) ==> Part(nodes[o].data, p) == map[])
    && forall o :: o in OwnersOf(g, p) ==> Part(nodes[o].data, p).Keys <= Part(nodes[PrimaryOf(g, p)].data, p).Keys
  }

  lemma RoundStep(g: Config, a: Stores, n: NodeId, b: Stores, p: nat)
    requires Proper(g) && SyncRound(g, a, n, b) && Contained(g, a, p)
    ensures Contained(g, b, p)
    ensures var primary := PrimaryOf(g, p);
            && Part(b[primary].data, p) == Part(a[primary].data, p)
            && (forall o :: o in BackupsOf(g, p) ==>
                  Part(b[o].data, p) == if o == n then Part(a[primary].data, p) else Part(a[o].data, p))
  {
    var primary := PrimaryOf(g, p);
    var owners := OwnersOf(g, p);
    assert Part(b[n].data, p) == SyncedPart(g, n, a - {n}, a[n].data, p);
    if n == primary {
      if BackupsOf(g, p) != [] { assert owners[1] in owners; }
      assert Part(b[n].data, p) == Part(a[n].data, p);
    } else if n in BackupsOf(g, p) {
      assert n in owners;
      assert Part(b[n].data, p) == Part(a[primary].data, p);
    }
  }

  /**
   Sync rounds alone, by any nodes in any order and number, leave the primary as it was, and make every
   backup that had a round equal to it.
   */
  lemma {:induction false} RoundsConverge(g: Config, trace: seq<Stores>, order: seq<NodeId>, p: nat)
    requires Proper(g) && SyncTrace(g, trace, order) && Contained(g, trace[0], p)
    ensures var last, primary := trace[|order|], PrimaryOf(g, p);
            && Contained(g, last, p)
            && Part(last[primary].data, p) == Part(trace[0][primary].data, p)
            && (forall o :: o in BackupsOf(g, p) && o in order ==> Part(last[o].data, p) == Part(last[primary].data, p))
  {
    if order != [] {
      var k := |order| - 1;
      assert SyncTrace(g, trace[..k + 1], order[..k]) by {
        forall i | 0 <= i < k ensures SyncRound(g, trace[..k + 1][i], order[..k][i], trace[..k + 1][i + 1]) {
          assert SyncRound(g, trace[i], order[i], trace[i + 1]);
        }
      }
      RoundsConverge(g, trace[..k + 1], order[..k], p);
      RoundStep(g, trace[k], order[k], trace[k + 1], p);
      assert order == order[..k] + [order[k]];
    }
  }

  /**
   From every reachable state, once nothing else is in flight, one sync round at each backup, in any order, makes
   the maps of all owners of every partition equal to the primary's.
   */
  lemma QuietClusterConverges(g: Config, steps: seq<Step>, trace: seq<Stores>, order: seq<NodeId>, p: nat)
    requires Proper(g) && SyncTrace(g, trace, order) && trace[0] == Run(g, steps).nodes
    requires forall o :: o in BackupsOf(g, p) ==> o in order
    ensures PrimaryOf(g, p) in trace[0]
    ensures forall o :: o in OwnersOf(g, p) ==>
              o in trace[|order|] && Part(trace[|order|][o].data, p) == Part(trace[0][PrimaryOf(g, p)].data, p)
  {
    var c := Run(g, steps);
    RunKeepsInv(g, steps);
    forall o | o in OwnersOf(g, p)
      ensures Part(c.nodes[o].data, p).Keys <= Part(c.nodes[PrimaryOf(g, p)].data, p).Keys
      ensures p >= NUM_PARTITIONS ==> Part(c.nodes[o].data, p) == map[]
    {
      KeysContained(g, c, o, p);
    }
    assert Contained(g, trace[0], p);
    RoundsConverge(g, trace, order, p);
    forall o | o in OwnersOf(g, p)
      ensures o in trace[|order|] && Part(trace[|order|][o].data, p) == Part(trace[0][PrimaryOf(g, p)].data, p)
    {
      if o != PrimaryOf(g, p) { assert o in BackupsOf(g, p); }
    }
  }

  // ---- After the primary lost its data ----

  /** The state of partition `p` while rounds follow the primary's recovery; `done` have had a round since. */
  ghost predicate Recovering(g: Config, a: Stores, b: Stores, p: nat, done: seq<NodeId>)
    requires Proper(g) && BackupsOf(g, p) != []
  {
    && (forall o :: o in OwnersOf(g, p) ==> o in a && o in b)
    && var kept := Part(a[BackupsOf(g, p)[0]].data, p);
       && Part(b[PrimaryOf(g, p)].data, p) == kept
       && (forall o :: o in BackupsOf(g, p) ==>
             Part(b[o].data, p) == if o in done then Part(a[o].data, p) + kept else Part(a[o].data, p))
  }

  lemma RecoveryStarts(g: Config, a: Stores, b: Stores, p: nat)
    requires Proper(g) && BackupsOf(g, p) != [] && p < 256 && forall o :: o in OwnersOf(g, p) ==> o in a
    requires Part(a[PrimaryOf(g, p)].data, p) == map[] && SyncRound(g, a, PrimaryOf(g, p), b)
    ensures Recovering(g, a, b, p, [])
  {
    var n := PrimaryOf(g, p);
    OwnersSplit(g, p);
    RoundIs(g, n, a - {n}, a[n].data, b[n].data, p);
    assert OwnersOf(g, p)[1] == BackupsOf(g, p)[0] && BackupsOf(g, p)[0] in BackupsOf(g, p);
  }

  lemma RecoveryStep(g: Config, a: Stores, mid: Stores, n: NodeId, b: Stores, p: nat, done: seq<NodeId>)
    requires Proper(g) && BackupsOf(g, p) != [] && p < 256
    requires Recovering(g, a, mid, p, done) && SyncRound(g, mid, n, b)
    ensures Recovering(g, a, b, p, done + [n])
  {
    OwnersSplit(g, p);
    RoundIs(g, n, mid - {n}, mid[n].data, b[n].data, p);
    assert OwnersOf(g, p)[1] == BackupsOf(g, p)[0] && BackupsOf(g, p)[0] in BackupsOf(g, p);
    var kept := Part(a[BackupsOf(g, p)[0]].data, p);
    FirstHoldsKept(g, a, mid, p, done);
    assert Part(b[PrimaryOf(g, p)].data, p) == kept;
    forall o | o in BackupsOf(g, p)
      ensures Part(b[o].data, p) == if o in done + [n] then Part(a[o].data, p) + kept else Part(a[o].data, p)
    {
      BackupRecovers(a[o].data, mid[o].data, b[o].data, p, kept, o in done, o == n);
      assert o in done + [n] <==> o in done || o == n;
    }
  }

  /** The first backup itself holds what it is to give. */
  lemma FirstHoldsKept(g: Config, a: Stores, b: Stores, p: nat, done: seq<NodeId>)
    requires Proper(g) && BackupsOf(g, p) != [] && Recovering(g, a, b, p, done)
    ensures var first := BackupsOf(g, p)[0];
            first in a && first in b && Part(b[first].data, p) == Part(a[first].data, p)
  {
    var first := BackupsOf(g, p)[0];
    assert first in BackupsOf(g, p);
    OwnersSplit(g, p);
    assert Part(a[first].data, p) + Part(a[first].data, p) == Part(a[first].data, p);
  }

  lemma BackupRecovers(a: Data, mid: Data, b: Data, p: nat, kept: map<Key, Value>, done: bool, now: bool)
    requires Part(mid, p) == if done then Part(a, p) + kept else Part(a, p)
    requires Part(b, p) == if now then Part(mid, p) + kept else Part(mid, p)
    ensures Part(b, p) == if done || now then Part(a, p) + kept else Part(a, p)
  {
    assert Part(a, p) + kept + kept == Part(a, p) + kept;
  }

  lemma {:induction false} RecoveryRuns(g: Config, trace: seq<Stores>, order: seq<NodeId>, p: nat)
    requires Proper(g) && BackupsOf(g, p) != [] && p < 256
    requires SyncTrace(g, trace, order) && order != [] && order[0] == PrimaryOf(g, p)
    requires forall o :: o in OwnersOf(g, p) ==> o in trace[0]
    requires Part(trace[0][PrimaryOf(g, p)].data, p) == map[]
    ensures Recovering(g, trace[0], trace[|order|], p, order[1..])
  {
    var k := |order| - 1;
    if k == 0 {
      assert SyncRound(g, trace[0], order[0], trace[1]);
      RecoveryStarts(g, trace[0], trace[1], p);
    } else {
      assert SyncTrace(g, trace[..k + 1], order[..k]) by {
        forall i | 0 <= i < k ensures SyncRound(g, trace[..k + 1][i], order[..k][i], trace[..k + 1][i + 1]) {
          assert SyncRound(g, trace[i], order[i], trace[i + 1]);
        }
      }
      RecoveryRuns(g, trace[..k + 1], order[..k], p);
      assert SyncRound(g, trace[k], order[k], trace[k + 1]);
      RecoveryStep(g, trace[0], trace[k], order[k], trace[k + 1], p, order[..k][1..]);
      assert order[..k][1..] + [order[k]] == order[1..];
    }
  }

  /**
   A primary that lost a partition recovers what its first backup held in one round, and keeps it. After one more round
   each, a backup holds that over what it had, so it equals the primary exactly when it had no other keys.
   */
  lemma LostPrimaryRecovers(g: Config, trace: seq<Stores>, order: seq<NodeId>, p: nat, b: NodeId)
    requires Proper(g) && p < 256 && b in BackupsOf(g, p) && b in order
    requires SyncTrace(g, trace, order) && order[0] == PrimaryOf(g, p)
    requires forall o :: o in OwnersOf(g, p) ==> o in trace[0]
    requires Part(trace[0][PrimaryOf(g, p)].data, p) == map[]
    ensures var last, kept := trace[|order|], Part(trace[0][BackupsOf(g, p)[0]].data, p);
            && PrimaryOf(g, p) in last && Part(last[PrimaryOf(g, p)].data, p) == kept
            && b in last && b in trace[0] && Part(last[b].data, p) == Part(trace[0][b].data, p) + kept
            && (Part(last[b].data, p) == kept <==> Part(trace[0][b].data, p).Keys <= kept.Keys)
  {
    OwnersSplit(g, p);
    RecoveryRuns(g, trace, order, p);
    assert b in order[1..] by {
      var i :| 0 <= i < |order| && order[i] == b;
      assert order[1..][i - 1] == b;
    }
    OverlayIs(Part(trace[0][b].data, p), Part(trace[0][BackupsOf(g, p)[0]].data, p));
  }

  lemma OverlayIs(m: map<Key, Value>, kept: map<Key, Value>)
    ensures m + kept == kept <==> m.Keys <= kept.Keys
  {
    assert (m + kept).Keys == m.Keys + kept.Keys;
    if m.Keys <= kept.Keys {
      assert forall k :: k in m + kept ==> k in kept && (m + kept)[k] == kept[k];
    }
  }
}
