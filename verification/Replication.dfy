/**
 Whole runs of the replicated map under one agreed view of the cluster: writes at any
 node, forwards, replications and anti-entropy fetches, in any interleaving.

 Every remote call is a message that may be delivered zero or more times, at any later
 point; the answer to a fetch is one more such message. What the real loops send one
 after the other, stopping at the first failure, is here sent at once and delivered or not.
 */
module Replication {
  import opened NodeOrder
  import opened StorageSpec

  datatype Msg =
    | Forward(dst: NodeId, part: nat, op: OpId, key: Key, value: Value)
    | Replicate(dst: NodeId, part: nat, op: OpId, key: Key, value: Value)
    | Fetch(requester: NodeId, source: NodeId, part: nat)
    | Dump(dst: NodeId, part: nat, entries: seq<(Key, Value)>)

  /** `written`: all client writes so far; `held`: all values the primary of their key ever held. */
  datatype Cluster = Cluster(nodes: map<NodeId, Store>, sent: set<Msg>,
                             written: set<(Key, Value)>, held: set<(Key, Value)>)

  datatype Step =
    | ClientPut(at: NodeId, key: Key, value: Value, op: OpId)
    | RequestSync(at: NodeId, part: nat)
    | Deliver(msg: Msg, entries: seq<(Key, Value)>)

  ghost function Replicas(g: Config, p: nat, op: OpId, k: Key, v: Value): set<Msg>
    requires Proper(g)
  {
    set b | b in BackupsOf(g, p) :: Replicate(b, p, op, k, v)
  }

  /** The primary's write: store, and replicate to every backup. */
  ghost function StoreAsPrimary(g: Config, c: Cluster, at: NodeId, p: nat, op: OpId, k: Key, v: Value): Cluster
    requires Proper(g) && at in c.nodes
  {
    var s := c.nodes[at];
    if op in s.ops then c
    else Cluster(c.nodes[at := Store(Put(s.data, p, k, v), Remember(s.ops, op, DEDUP_CAP))],
                 c.sent + Replicas(g, p, op, k, v), c.written, c.held + {(k, v)})
  }

  ghost function PutAt(g: Config, c: Cluster, at: NodeId, k: Key, v: Value, op: OpId): Cluster
    requires Proper(g) && at in c.nodes
  {
    var p, s := PartOf(g, k), c.nodes[at];
    if op in s.ops then c
    else if at == PrimaryOf(g, p) then StoreAsPrimary(g, c.(written := c.written + {(k, v)}), at, p, op, k, v)
    else Cluster(c.nodes[at := s.(ops := Remember(s.ops, op, DEDUP_CAP))],
                 c.sent + {Forward(PrimaryOf(g, p), p, op, k, v)}, c.written + {(k, v)}, c.held)
  }

  ghost predicate Enabled(g: Config, c: Cluster, s: Step)
    requires Proper(g)
  {
    match s
    case ClientPut(at, _, _, _) => at in c.nodes
    case RequestSync(at, p) => at in c.nodes && SyncSource(g, at, p, c.nodes[at].data).Some?
    case Deliver(msg, entries) =>
      && msg in c.sent
      && match msg
         case Fetch(_, source, p) => source in c.nodes && IsDump(entries, Part(c.nodes[source].data, p))
         case _ => msg.dst in c.nodes
  }

  ghost function Receive(g: Config, c: Cluster, msg: Msg, entries: seq<(Key, Value)>): Cluster
    requires Proper(g) && (if msg.Fetch? then msg.source in c.nodes else msg.dst in c.nodes)
  {
    match msg
    case Forward(dst, p, op, k, v) => StoreAsPrimary(g, c, dst, p, op, k, v)
    case Replicate(dst, p, op, k, v) => c.(nodes := c.nodes[dst := Replica(c.nodes[dst], p, op, k, v, DEDUP_CAP)])
    case Fetch(requester, source, p) => c.(sent := c.sent + {Dump(requester, p, entries)})
    case Dump(dst, p, es) =>
      var s := c.nodes[dst];
      c.(nodes := c.nodes[dst := s.(data := ApplyEntries(s.data, p, es))],
         held := if dst == PrimaryOf(g, p) then c.held + (set e | e in es) else c.held)
  }

  ghost function Apply(g: Config, c: Cluster, s: Step): Cluster
    requires Proper(g)
  {
    if !Enabled(g, c, s) then c
    else match s
      case ClientPut(at, k, v, op) => PutAt(g, c, at, k, v, op)
      case RequestSync(at, p) =>
        c.(sent := c.sent + {Fetch(at, SyncSource(g, at, p, c.nodes[at].data).value, p)})
      case Deliver(msg, entries) => Receive(g, c, msg, entries)
  }

  ghost function Initial(g: Config): Cluster {
    Cluster(map n | n in g.ring :: Store(map[], {}), {}, {}, {})
  }

  ghost function RunFrom(g: Config, c: Cluster, steps: seq<Step>): Cluster
    requires Proper(g)
  {
    if steps == [] then c else Apply(g, RunFrom(g, c, steps[..|steps| - 1]), steps[|steps| - 1])
  }

  ghost function Run(g: Config, steps: seq<Step>): Cluster
    requires Proper(g)
  {
    RunFrom(g, Initial(g), steps)
  }

  // ---- The invariant ----

  ghost function PartAt(c: Cluster, n: NodeId, p: nat): map<Key, Value>
    requires n in c.nodes
  {
    Part(c.nodes[n].data, p)
  }

  /** An entry may be held by an owner of `p`: rightly filed, once held by the primary, and known to it now. */
  ghost predicate EntryOk(g: Config, c: Cluster, p: nat, k: Key, v: Value)
    requires Proper(g) && PrimaryOf(g, p) in c.nodes
  {
    p == PartOf(g, k) && (k, v) in c.held && k in PartAt(c, PrimaryOf(g, p), p)
  }

  ghost predicate NodeOk(g: Config, c: Cluster, n: NodeId)
    requires Proper(g) && n in c.nodes && forall m :: m in g.ring ==> m in c.nodes
  {
    forall p, k :: k in PartAt(c, n, p) ==> n in OwnersOf(g, p) && EntryOk(g, c, p, k, PartAt(c, n, p)[k])
  }

  ghost predicate MsgOk(g: Config, c: Cluster, msg: Msg)
    requires Proper(g) && forall m :: m in g.ring ==> m in c.nodes
  {
    match msg
    case Forward(dst, p, op, k, v) => dst == PrimaryOf(g, p) && p == PartOf(g, k) && (k, v) in c.written
    case Replicate(dst, p, op, k, v) => dst in BackupsOf(g, p) && EntryOk(g, c, p, k, v)
    case Fetch(requester, source, p) => requester in OwnersOf(g, p) && source in OwnersOf(g, p)
    case Dump(dst, p, es) =>
      dst in OwnersOf(g, p) && forall i :: 0 <= i < |es| ==> EntryOk(g, c, p, es[i].0, es[i].1)
  }

  ghost predicate Inv(g: Config, c: Cluster)
    requires Proper(g)
  {
    && (forall m :: m in c.nodes <==> m in g.ring)
    && (forall n :: n in c.nodes ==> NodeOk(g, c, n))
    && (forall msg :: msg in c.sent ==> MsgOk(g, c, msg))
    && c.held <= c.written
  }

  /** Later clusters have written and held more, and no primary loses a key. */
  ghost predicate Grows(g: Config, c: Cluster, d: Cluster)
    requires Proper(g)
  {
    && d.nodes.Keys == c.nodes.Keys && c.held <= d.held && c.written <= d.written
    && (forall n, p, k :: n in c.nodes && k in PartAt(c, n, p) ==> k in PartAt(d, n, p))
  }

  lemma EntryGrows(g: Config, c: Cluster, d: Cluster, p: nat, k: Key, v: Value)
    requires Proper(g) && Grows(g, c, d) && PrimaryOf(g, p) in c.nodes && EntryOk(g, c, p, k, v)
    ensures PrimaryOf(g, p) in d.nodes && EntryOk(g, d, p, k, v)
  {
  }

  lemma MsgGrows(g: Config, c: Cluster, d: Cluster, msg: Msg)
    requires Proper(g) && Inv(g, c) && Grows(g, c, d) && MsgOk(g, c, msg)
    ensures (forall m :: m in g.ring ==> m in d.nodes) && MsgOk(g, d, msg)
  {
    match msg
    case Replicate(dst, p, op, k, v) => EntryGrows(g, c, d, p, k, v);
    case Dump(dst, p, es) =>
      forall i | 0 <= i < |es| ensures EntryOk(g, d, p, es[i].0, es[i].1) {
        EntryGrows(g, c, d, p, es[i].0, es[i].1);
      }
    case _ =>
  }

  lemma NodeGrows(g: Config, c: Cluster, d: Cluster, n: NodeId)
    requires Proper(g) && Inv(g, c) && Grows(g, c, d) && n in c.nodes && d.nodes[n].data == c.nodes[n].data
    ensures NodeOk(g, d, n)
  {
    forall p, k | k in PartAt(d, n, p)
      ensures n in OwnersOf(g, p) && EntryOk(g, d, p, k, PartAt(d, n, p)[k])
    {
      assert k in PartAt(c, n, p);
      EntryGrows(g, c, d, p, k, PartAt(c, n, p)[k]);
    }
  }

  /** A step that changes the data of one node and sends messages keeps the invariant if both are acceptable. */
  lemma UpdateKeepsInv(g: Config, c: Cluster, d: Cluster, n: NodeId)
    requires Proper(g) && Inv(g, c) && Grows(g, c, d) && n in c.nodes && d.held <= d.written
    requires forall m :: m in c.nodes && m != n ==> d.nodes[m].data == c.nodes[m].data
    requires NodeOk(g, d, n)
    requires forall msg :: msg in d.sent && msg !in c.sent ==> MsgOk(g, d, msg)
    ensures Inv(g, d)
  {
    forall m | m in d.nodes ensures NodeOk(g, d, m) {
      if m != n { NodeGrows(g, c, d, m); }
    }
    forall msg | msg in d.sent ensures MsgOk(g, d, msg) {
      if msg in c.sent { MsgGrows(g, c, d, msg); }
    }
  }

  /** Adding acceptable entries to a node's partition. */
  lemma PutNodeOk(g: Config, c: Cluster, d: Cluster, n: NodeId, p: nat, k: Key, v: Value)
    requires Proper(g) && Inv(g, c) && Grows(g, c, d) && n in c.nodes && n in OwnersOf(g, p)
    requires d.nodes[n].data == Put(c.nodes[n].data, p, k, v)
    requires EntryOk(g, d, p, k, v)
    ensures NodeOk(g, d, n)
  {
    forall q, x | x in PartAt(d, n, q)
      ensures n in OwnersOf(g, q) && EntryOk(g, d, q, x, PartAt(d, n, q)[x])
    {
      if q != p || x != k {
        assert x in PartAt(c, n, q) && PartAt(d, n, q)[x] == PartAt(c, n, q)[x];
        EntryGrows(g, c, d, q, x, PartAt(c, n, q)[x]);
      }
    }
  }

  lemma StoreAsPrimaryKeepsInv(g: Config, c: Cluster, at: NodeId, p: nat, op: OpId, k: Key, v: Value)
    requires Proper(g) && Inv(g, c) && at in c.nodes
    requires at == PrimaryOf(g, p) && p == PartOf(g, k) && (k, v) in c.written
    ensures Inv(g, StoreAsPrimary(g, c, at, p, op, k, v))
  {
    var d := StoreAsPrimary(g, c, at, p, op, k, v);
    if op !in c.nodes[at].ops {
      GrowsByPut(g, c, d, at, p, k, v);
      PutNodeOk(g, c, d, at, p, k, v);
      UpdateKeepsInv(g, c, d, at);
    }
  }

  lemma PutKeepsInv(g: Config, c: Cluster, at: NodeId, k: Key, v: Value, op: OpId)
    requires Proper(g) && Inv(g, c) && at in c.nodes
    ensures Inv(g, PutAt(g, c, at, k, v, op))
  {
    var p := PartOf(g, k);
    if op !in c.nodes[at].ops {
      if at == PrimaryOf(g, p) {
        var d := c.(written := c.written + {(k, v)});
        assert Grows(g, c, d);
        NodeGrows(g, c, d, at);
        UpdateKeepsInv(g, c, d, at);
        StoreAsPrimaryKeepsInv(g, d, at, p, op, k, v);
      } else {
        var d := PutAt(g, c, at, k, v, op);
        assert Grows(g, c, d);
        NodeGrows(g, c, d, at);
        UpdateKeepsInv(g, c, d, at);
      }
    }
  }

  lemma ReplicateKeepsInv(g: Config, c: Cluster, dst: NodeId, p: nat, op: OpId, k: Key, v: Value)
    requires Proper(g) && Inv(g, c) && dst in c.nodes
    requires dst in OwnersOf(g, p) && EntryOk(g, c, p, k, v)
    ensures Inv(g, c.(nodes := c.nodes[dst := Replica(c.nodes[dst], p, op, k, v, DEDUP_CAP)]))
  {
    var d := c.(nodes := c.nodes[dst := Replica(c.nodes[dst], p, op, k, v, DEDUP_CAP)]);
    if op in c.nodes[dst].ops {
      assert c.nodes[dst := c.nodes[dst]] == c.nodes;
    } else {
      assert d.nodes[dst].data == Put(c.nodes[dst].data, p, k, v);
      GrowsByPut(g, c, d, dst, p, k, v);
      EntryGrows(g, c, d, p, k, v);
      PutNodeOk(g, c, d, dst, p, k, v);
      UpdateKeepsInv(g, c, d, dst);
    }
  }

  lemma GrowsByPut(g: Config, c: Cluster, d: Cluster, n: NodeId, p: nat, k: Key, v: Value)
    requires Proper(g) && n in c.nodes && d.nodes.Keys == c.nodes.Keys
    requires c.held <= d.held && c.written <= d.written
    requires d.nodes[n].data == Put(c.nodes[n].data, p, k, v)
    requires forall m :: m in c.nodes && m != n ==> d.nodes[m].data == c.nodes[m].data
    ensures Grows(g, c, d)
  {
  }

  lemma FetchKeepsInv(g: Config, c: Cluster, msg: Msg, entries: seq<(Key, Value)>)
    requires Proper(g) && Inv(g, c) && msg in c.sent && msg.Fetch? && msg.source in c.nodes
    requires IsDump(entries, PartAt(c, msg.source, msg.part))
    ensures Inv(g, Receive(g, c, msg, entries))
  {
    var d := Receive(g, c, msg, entries);
    assert MsgOk(g, c, msg) && NodeOk(g, c, msg.source);
    assert Grows(g, c, d);
    forall i | 0 <= i < |entries| ensures EntryOk(g, d, msg.part, entries[i].0, entries[i].1) {
      EntryGrows(g, c, d, msg.part, entries[i].0, entries[i].1);
    }
    NodeGrows(g, c, d, msg.source);
    UpdateKeepsInv(g, c, d, msg.source);
  }

  /** What applying entries can leave under a key: the old value, or one of the entries. */
  lemma {:induction false} AppliedFrom(d: Data, p: nat, es: seq<(Key, Value)>, q: nat, k: Key)
    ensures k in Part(d, q) ==> k in Part(ApplyEntries(d, p, es), q)
    ensures k in Part(ApplyEntries(d, p, es), q) ==>
              var v := Part(ApplyEntries(d, p, es), q)[k];
              (k in Part(d, q) && Part(d, q)[k] == v) || (q == p && exists i :: 0 <= i < |es| && es[i] == (k, v))
  {
    if es != [] {
      var init, last := es[..|es| - 1], es[|es| - 1];
      AppliedFrom(d, p, init, q, k);
      if k in Part(ApplyEntries(d, p, es), q) && !(q == p && k == last.0) {
        var v := Part(ApplyEntries(d, p, init), q)[k];
        if !(k in Part(d, q) && Part(d, q)[k] == v) {
          var i :| 0 <= i < |init| && init[i] == (k, v);
          assert es[i] == (k, v);
        }
      }
    }
  }

  lemma GrowsByDump(g: Config, c: Cluster, d: Cluster, n: NodeId, p: nat, es: seq<(Key, Value)>)
    requires Proper(g) && n in c.nodes && d.nodes.Keys == c.nodes.Keys
    requires c.held <= d.held && c.written <= d.written
    requires d.nodes[n].data == ApplyEntries(c.nodes[n].data, p, es)
    requires forall m :: m in c.nodes && m != n ==> d.nodes[m].data == c.nodes[m].data
    ensures Grows(g, c, d)
  {
    forall m, q, k | m in c.nodes && k in PartAt(c, m, q) ensures k in PartAt(d, m, q) {
      AppliedFrom(c.nodes[n].data, p, es, q, k);
    }
  }

  lemma DumpNodeOk(g: Config, c: Cluster, d: Cluster, n: NodeId, p: nat, es: seq<(Key, Value)>)
    requires Proper(g) && Inv(g, c) && Grows(g, c, d) && n in c.nodes && n in OwnersOf(g, p)
    requires d.nodes[n].data == ApplyEntries(c.nodes[n].data, p, es)
    requires forall i :: 0 <= i < |es| ==> EntryOk(g, c, p, es[i].0, es[i].1)
    ensures NodeOk(g, d, n)
  {
    assert NodeOk(g, c, n);
    forall q, k | k in PartAt(d, n, q)
      ensures n in OwnersOf(g, q) && EntryOk(g, d, q, k, PartAt(d, n, q)[k])
    {
      var v := PartAt(d, n, q)[k];
      AppliedFrom(c.nodes[n].data, p, es, q, k);
      if k in PartAt(c, n, q) && PartAt(c, n, q)[k] == v {
        EntryGrows(g, c, d, q, k, v);
      } else {
        var i :| 0 <= i < |es| && es[i] == (k, v);
        EntryGrows(g, c, d, p, es[i].0, es[i].1);
      }
    }
  }

  lemma DumpKeepsInv(g: Config, c: Cluster, dst: NodeId, p: nat, es: seq<(Key, Value)>)
    requires Proper(g) && Inv(g, c) && dst in c.nodes && Dump(dst, p, es) in c.sent
    ensures Inv(g, Receive(g, c, Dump(dst, p, es), []))
  {
    var d := Receive(g, c, Dump(dst, p, es), []);
    assert MsgOk(g, c, Dump(dst, p, es));
    GrowsByDump(g, c, d, dst, p, es);
    DumpNodeOk(g, c, d, dst, p, es);
    forall e | e in es ensures e in c.held {
      var i :| 0 <= i < |es| && es[i] == e;
      assert EntryOk(g, c, p, es[i].0, es[i].1);
    }
    UpdateKeepsInv(g, c, d, dst);
  }

  lemma ApplyKeepsInv(g: Config, c: Cluster, s: Step)
    requires Proper(g) && Inv(g, c)
    ensures Inv(g, Apply(g, c, s))
  {
    if Enabled(g, c, s) {
      match s
      case ClientPut(at, k, v, op) => PutKeepsInv(g, c, at, k, v, op);
      case RequestSync(at, p) =>
        var d := Apply(g, c, s);
        assert Grows(g, c, d);
        NodeGrows(g, c, d, at);
        UpdateKeepsInv(g, c, d, at);
      case Deliver(msg, entries) =>
        assert MsgOk(g, c, msg);
        match msg {
          case Forward(dst, p, op, k, v) => StoreAsPrimaryKeepsInv(g, c, dst, p, op, k, v);
          case Replicate(dst, p, op, k, v) => ReplicateKeepsInv(g, c, dst, p, op, k, v);
          case Fetch(_, _, _) => FetchKeepsInv(g, c, msg, entries);
          case Dump(dst, p, es) => DumpKeepsInv(g, c, dst, p, es);
        }
    }
  }

  lemma {:induction false} RunFromKeepsInv(g: Config, c: Cluster, steps: seq<Step>)
    requires Proper(g) && Inv(g, c)
    ensures Inv(g, RunFrom(g, c, steps))
  {
    if steps != [] {
      RunFromKeepsInv(g, c, steps[..|steps| - 1]);
      ApplyKeepsInv(g, RunFrom(g, c, steps[..|steps| - 1]), steps[|steps| - 1]);
    }
  }

  lemma RunKeepsInv(g: Config, steps: seq<Step>)
    requires Proper(g)
    ensures Inv(g, Run(g, steps))
  {
    RunFromKeepsInv(g, Initial(g), steps);
  }

  lemma {:induction false} RunFromSplit(g: Config, c: Cluster, ss: seq<Step>, ts: seq<Step>)
    requires Proper(g)
    ensures RunFrom(g, c, ss + ts) == RunFrom(g, RunFrom(g, c, ss), ts)
  {
    if ts == [] {
      assert ss + ts == ss;
    } else {
      RunFromSplit(g, c, ss, ts[..|ts| - 1]);
      assert (ss + ts)[..|ss + ts| - 1] == ss + ts[..|ts| - 1];
    }
  }

  // ---- Safety ----

  /**
   In every run: a node stores only partitions it owns, under the right partition; a backup's keys are among
   the primary's; and every value anywhere was written by a client and was once held by the primary.
   */
  lemma ReplicasAreContained(g: Config, steps: seq<Step>, n: NodeId, p: nat, k: Key)
    requires Proper(g) && n in Run(g, steps).nodes && k in PartAt(Run(g, steps), n, p)
    ensures var c := Run(g, steps);
            && n in OwnersOf(g, p) && p == PartOf(g, k)
            && PrimaryOf(g, p) in c.nodes && k in PartAt(c, PrimaryOf(g, p), p)
            && (k, PartAt(c, n, p)[k]) in c.held && (k, PartAt(c, n, p)[k]) in c.written
  {
    RunKeepsInv(g, steps);
    assert NodeOk(g, Run(g, steps), n);
  }
}
