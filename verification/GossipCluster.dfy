/**
 Whole runs of the gossip protocol.

 A cluster is the local state of every started node and the set of all messages ever
 sent. A message may be delivered to any node, any number of times, in any order, or
 never, so losses, duplicates, reorderings and misroutings are all included. A run is
 any list of steps; a step that is not enabled changes nothing.
 */
module GossipCluster {
  import opened NodeOrder
  import opened MembershipSpec
  import Placement

  datatype Cluster = Cluster(nodes: map<NodeId, Local>, sent: set<GossipMessage>)

  datatype Step =
    | Start(id: NodeId, addr: Addr, seeds: set<Addr>, now: nat)
    | Gossip(id: NodeId)
    | Deliver(to: NodeId, msg: GossipMessage, src: Addr, now: nat, out: set<Packet>)
    | Tick(id: NodeId, now: nat)

  function Payload(out: set<Packet>): set<GossipMessage> {
    set p | p in out :: p.msg
  }

  ghost predicate Enabled(c: Cluster, s: Step) {
    match s
    case Start(id, _, _, _) => id !in c.nodes
    case Gossip(id) =>
      id in c.nodes && exists k :: k in c.nodes[id].view && k != id && c.nodes[id].view[k].state == Alive
    case Deliver(to, msg, src, now, out) =>
      to in c.nodes && msg in c.sent && Answers(c.nodes[to], msg, src, now, out)
    case Tick(id, _) => id in c.nodes
  }

  ghost function Apply(c: Cluster, s: Step): Cluster {
    if !Enabled(c, s) then c
    else match s
      case Start(id, addr, seeds, now) =>
        Cluster(c.nodes[id := Started(id, addr, now)],
                c.sent + (set a | a in seeds :: Join(Wire(FirstNode(id, addr, now)))))
      case Gossip(id) => c.(sent := c.sent + {Ping(id, c.nodes[id].incarnation)})
      case Deliver(to, msg, src, now, out) =>
        Cluster(c.nodes[to := Receive(c.nodes[to], msg, src, now)], c.sent + Payload(out))
      case Tick(id, now) =>
        var l := c.nodes[id];
        Cluster(c.nodes[id := l.(view := Detect(l.view, id, now))], c.sent + Payload(AlarmPackets(l.view, id, now)))
  }

  ghost function RunFrom(c: Cluster, steps: seq<Step>): Cluster {
    if steps == [] then c else Apply(RunFrom(c, steps[..|steps| - 1]), steps[|steps| - 1])
  }

  const EMPTY := Cluster(map[], {})

  ghost function Run(steps: seq<Step>): Cluster {
    RunFrom(EMPTY, steps)
  }

  // ---- The invariant ----

  /** A mention of a node, in a view or a message, names a started node and its first incarnation. */
  ghost predicate MentionOk(ids: set<NodeId>, id: NodeId, incarnation: nat) {
    id in ids && incarnation == FIRST_INCARNATION
  }

  ghost predicate EntryOk(ids: set<NodeId>, k: NodeId, n: Node) {
    n.id == k && MentionOk(ids, k, n.incarnation) && n.lastSeen.Some?
  }

  ghost predicate ViewOk(ids: set<NodeId>, me: NodeId, v: View) {
    && (forall k {:trigger v[k]} :: k in v ==> EntryOk(ids, k, v[k]))
    && me in v && v[me].state == Alive
  }

  ghost predicate LocalOk(ids: set<NodeId>, me: NodeId, l: Local) {
    l.me == me && l.incarnation == FIRST_INCARNATION && ViewOk(ids, me, l.view)
  }

  ghost predicate MessageOk(ids: set<NodeId>, m: GossipMessage) {
    match m
    case Ping(from, inc) => MentionOk(ids, from, inc)
    case Ack(from, inc, ns) =>
      MentionOk(ids, from, inc) && forall i :: 0 <= i < |ns| ==> MentionOk(ids, ns[i].id, ns[i].incarnation)
    case Join(n) => MentionOk(ids, n.id, n.incarnation) && n.state == Alive
    case Suspicion(id, inc) => MentionOk(ids, id, inc)
    case Refutation(_, _) => false
  }

  ghost predicate MessagesOk(ids: set<NodeId>, out: set<GossipMessage>) {
    forall m :: m in out ==> MessageOk(ids, m)
  }

  ghost predicate InvFor(ids: set<NodeId>, nodes: map<NodeId, Local>, sent: set<GossipMessage>) {
    && (forall n {:trigger nodes[n]} :: n in nodes ==> LocalOk(ids, n, nodes[n]))
    && MessagesOk(ids, sent)
  }

  ghost predicate Inv(c: Cluster) {
    InvFor(c.nodes.Keys, c.nodes, c.sent)
  }

  /** No known member disappears or changes its state or incarnation from `v` to `w`. */
  ghost predicate Settled(v: View, w: View) {
    forall k :: k in v ==> k in w && w[k].state == v[k].state && w[k].incarnation == v[k].incarnation
  }

  lemma MergeSettles(ids: set<NodeId>, me: NodeId, v: View, n: Node, now: nat)
    requires ViewOk(ids, me, v) && MentionOk(ids, n.id, n.incarnation)
    ensures ViewOk(ids, me, OnMerge(v, n, now)) && Settled(v, OnMerge(v, n, now))
  {
  }

  lemma {:induction false} MergeAllSettles(ids: set<NodeId>, me: NodeId, v: View, ns: seq<Node>, now: nat)
    requires ViewOk(ids, me, v) && forall i :: 0 <= i < |ns| ==> MentionOk(ids, ns[i].id, ns[i].incarnation)
    ensures ViewOk(ids, me, OnMergeAll(v, ns, now)) && Settled(v, OnMergeAll(v, ns, now))
  {
    if ns != [] {
      MergeAllSettles(ids, me, v, ns[..|ns| - 1], now);
      MergeSettles(ids, me, OnMergeAll(v, ns[..|ns| - 1], now), ns[|ns| - 1], now);
    }
  }

  /** Handling an acceptable message keeps the local invariant; unless it is a Join it settles nothing anew. */
  lemma ReceiveOk(ids: set<NodeId>, me: NodeId, l: Local, msg: GossipMessage, src: Addr, now: nat)
    requires LocalOk(ids, me, l) && MessageOk(ids, msg)
    ensures LocalOk(ids, me, Receive(l, msg, src, now))
    ensures !msg.Join? ==> Settled(l.view, Receive(l, msg, src, now).view)
  {
    match msg
    case Ack(from, inc, ns) =>
      var v := if from in l.view then l.view[from := Contacted(l.view[from], inc, now)] else l.view;
      MergeAllSettles(ids, me, v, ns, now);
    case _ =>
  }

  lemma AnswerOk(ids: set<NodeId>, me: NodeId, l: Local, msg: GossipMessage, src: Addr, now: nat, out: set<Packet>)
    requires LocalOk(ids, me, l) && MessageOk(ids, msg) && me in ids && Answers(l, msg, src, now, out)
    ensures MessagesOk(ids, Payload(out))
  {
    ReceiveOk(ids, me, l, msg, src, now);
    if msg.Ping? {
      var after := Receive(l, msg, src, now);
      var order :| IsOrder(order, after.view)
                && out == {Packet(src, Ack(l.me, l.incarnation, Listing(order, after.view)))};
      forall i | 0 <= i < |order|
        ensures var n := Listing(order, after.view)[i]; MentionOk(ids, n.id, n.incarnation)
      {
        assert order[i] in Elements(order);
      }
    } else if msg.Suspicion? {
      assert !Defends(l, msg.nodeId, msg.incarnation);
    }
  }

  lemma MoreIdsMessage(ids: set<NodeId>, more: set<NodeId>, m: GossipMessage)
    requires ids <= more && MessageOk(ids, m)
    ensures MessageOk(more, m)
  {
  }

  lemma MoreIdsLocal(ids: set<NodeId>, more: set<NodeId>, n: NodeId, l: Local)
    requires ids <= more && LocalOk(ids, n, l)
    ensures LocalOk(more, n, l)
  {
    forall k | k in l.view ensures EntryOk(more, k, l.view[k]) {
      assert EntryOk(ids, k, l.view[k]);
    }
  }

  lemma MoreIds(ids: set<NodeId>, more: set<NodeId>, nodes: map<NodeId, Local>, sent: set<GossipMessage>)
    requires ids <= more && InvFor(ids, nodes, sent)
    ensures InvFor(more, nodes, sent)
  {
    forall n | n in nodes ensures LocalOk(more, n, nodes[n]) {
      MoreIdsLocal(ids, more, n, nodes[n]);
    }
    forall m | m in sent ensures MessageOk(more, m) {
      assert MessageOk(ids, m);
      MoreIdsMessage(ids, more, m);
    }
  }

  /** Setting one node's state and adding messages, both acceptable, keeps the invariant. */
  lemma UpdateKeeps(ids: set<NodeId>, nodes: map<NodeId, Local>, sent: set<GossipMessage>,
                    n: NodeId, l: Local, out: set<GossipMessage>)
    requires InvFor(ids, nodes, sent) && LocalOk(ids, n, l)
    requires MessagesOk(ids, out)
    ensures InvFor(ids, nodes[n := l], sent + out)
  {
  }

  lemma StartKeepsInv(c: Cluster, id: NodeId, addr: Addr, seeds: set<Addr>, now: nat)
    requires Inv(c) && id !in c.nodes
    ensures Inv(Apply(c, Start(id, addr, seeds, now)))
  {
    var ids := c.nodes.Keys + {id};
    var joins := set a | a in seeds :: Join(Wire(FirstNode(id, addr, now)));
    MoreIds(c.nodes.Keys, ids, c.nodes, c.sent);
    assert LocalOk(ids, id, Started(id, addr, now));
    UpdateKeeps(ids, c.nodes, c.sent, id, Started(id, addr, now), joins);
    assert c.nodes[id := Started(id, addr, now)].Keys == ids;
  }

  lemma DetectOk(ids: set<NodeId>, me: NodeId, l: Local, now: nat)
    requires LocalOk(ids, me, l)
    ensures LocalOk(ids, me, l.(view := Detect(l.view, me, now)))
    ensures MessagesOk(ids, Payload(AlarmPackets(l.view, me, now)))
  {
  }

  lemma UpdateKeepsInv(c: Cluster, n: NodeId, l: Local, out: set<GossipMessage>)
    requires Inv(c) && n in c.nodes && LocalOk(c.nodes.Keys, n, l)
    requires MessagesOk(c.nodes.Keys, out)
    ensures Inv(Cluster(c.nodes[n := l], c.sent + out))
  {
    UpdateKeeps(c.nodes.Keys, c.nodes, c.sent, n, l, out);
    assert c.nodes[n := l].Keys == c.nodes.Keys;
  }

  lemma DeliverKeepsInv(c: Cluster, to: NodeId, msg: GossipMessage, src: Addr, now: nat, out: set<Packet>)
    requires Inv(c) && Enabled(c, Deliver(to, msg, src, now, out))
    ensures Inv(Apply(c, Deliver(to, msg, src, now, out)))
  {
    assert MessageOk(c.nodes.Keys, msg);
    ReceiveOk(c.nodes.Keys, to, c.nodes[to], msg, src, now);
    AnswerOk(c.nodes.Keys, to, c.nodes[to], msg, src, now, out);
    UpdateKeepsInv(c, to, Receive(c.nodes[to], msg, src, now), Payload(out));
  }

  lemma ApplyTick(c: Cluster, id: NodeId, now: nat)
    requires id in c.nodes
    ensures var l := c.nodes[id];
            Apply(c, Tick(id, now)) == Cluster(c.nodes[id := l.(view := Detect(l.view, id, now))],
                                               c.sent + Payload(AlarmPackets(l.view, id, now)))
  {
  }

  lemma TickKeepsInv(c: Cluster, id: NodeId, now: nat)
    requires Inv(c) && id in c.nodes
    ensures Inv(Apply(c, Tick(id, now)))
  {
    var l := c.nodes[id];
    var after, out := l.(view := Detect(l.view, id, now)), Payload(AlarmPackets(l.view, id, now));
    assert LocalOk(c.nodes.Keys, id, after) && MessagesOk(c.nodes.Keys, out) by {
      DetectOk(c.nodes.Keys, id, l, now);
    }
    ApplyTick(c, id, now);
    UpdateKeepsInv(c, id, after, out);
  }

  lemma GossipKeepsInv(c: Cluster, id: NodeId)
    requires Inv(c)
    ensures Inv(Apply(c, Gossip(id)))
  {
    if id in c.nodes {
      assert LocalOk(c.nodes.Keys, id, c.nodes[id]);
    }
  }

  lemma ApplyKeepsInv(c: Cluster, s: Step)
    requires Inv(c)
    ensures Inv(Apply(c, s))
  {
    if Enabled(c, s) {
      match s
      case Start(id, addr, seeds, now) => StartKeepsInv(c, id, addr, seeds, now);
      case Gossip(id) => GossipKeepsInv(c, id);
      case Deliver(to, msg, src, now, out) => DeliverKeepsInv(c, to, msg, src, now, out);
      case Tick(id, now) => TickKeepsInv(c, id, now);
    }
  }

  lemma {:induction false} RunKeepsInv(c: Cluster, steps: seq<Step>)
    requires Inv(c)
    ensures Inv(RunFrom(c, steps))
  {
    if steps != [] {
      RunKeepsInv(c, steps[..|steps| - 1]);
      ApplyKeepsInv(RunFrom(c, steps[..|steps| - 1]), steps[|steps| - 1]);
    }
  }

  // ---- What the guards allow in reachable clusters ----

  /** Some view or some message ever sent says that `id` is at incarnation `inc`. */
  ghost predicate Claims(c: Cluster, id: NodeId, inc: nat) {
    || (exists n :: n in c.nodes && id in c.nodes[n].view && c.nodes[n].view[id].incarnation == inc)
    || (exists m :: m in c.sent && MessageClaims(m, id, inc))
  }

  ghost predicate MessageClaims(m: GossipMessage, id: NodeId, inc: nat) {
    match m
    case Ping(from, i) => from == id && i == inc
    case Ack(from, i, ns) => (from == id && i == inc) || exists n :: n in ns && n.id == id && n.incarnation == inc
    case Join(n) => n.id == id && n.incarnation == inc
    case Suspicion(n, i) => n == id && i == inc
    case Refutation(n, i) => n == id && i == inc
  }

  lemma MessageClaimBounded(ids: set<NodeId>, m: GossipMessage, id: NodeId, inc: nat)
    requires MessageOk(ids, m) && MessageClaims(m, id, inc)
    ensures MentionOk(ids, id, inc)
  {
  }

  lemma ClaimBounded(c: Cluster, id: NodeId, inc: nat)
    requires Inv(c) && Claims(c, id, inc)
    ensures MentionOk(c.nodes.Keys, id, inc)
  {
    if n :| n in c.nodes && id in c.nodes[n].view && c.nodes[n].view[id].incarnation == inc {
      assert LocalOk(c.nodes.Keys, n, c.nodes[n]);
      assert EntryOk(c.nodes.Keys, id, c.nodes[n].view[id]);
    } else {
      var m :| m in c.sent && MessageClaims(m, id, inc);
      MessageClaimBounded(c.nodes.Keys, m, id, inc);
    }
  }

  /** In every run, nothing anywhere claims more for a node than the node's own counter, which never leaves 1. */
  lemma NoOverclaim(steps: seq<Step>)
    ensures var c := Run(steps);
            && (forall n :: n in c.nodes ==> c.nodes[n].incarnation == FIRST_INCARNATION)
            && (forall id, inc: nat :: Claims(c, id, inc) ==> id in c.nodes && inc <= c.nodes[id].incarnation)
  {
    RunKeepsInv(EMPTY, steps);
    var c := Run(steps);
    forall id, inc: nat | Claims(c, id, inc) ensures id in c.nodes && inc <= c.nodes[id].incarnation {
      ClaimBounded(c, id, inc);
    }
  }

  lemma CannotDefend(ids: set<NodeId>, n: NodeId, l: Local, id: NodeId, inc: nat)
    requires LocalOk(ids, n, l) && MessageOk(ids, Suspicion(id, inc))
    ensures !Defends(l, id, inc)
  {
  }

  /** In every run, self-defence never fires and no refutation is ever sent. */
  lemma SelfDefenceNeverFires(steps: seq<Step>)
    ensures var c := Run(steps);
            && (forall m :: m in c.sent ==> !m.Refutation?)
            && (forall n, id, inc :: n in c.nodes && Suspicion(id, inc) in c.sent ==> !Defends(c.nodes[n], id, inc))
  {
    RunKeepsInv(EMPTY, steps);
    var c := Run(steps);
    forall n, id, inc | n in c.nodes && Suspicion(id, inc) in c.sent ensures !Defends(c.nodes[n], id, inc) {
      CannotDefend(c.nodes.Keys, n, c.nodes[n], id, inc);
    }
  }

  /** A node refutes a suspicion of itself exactly when the suspicion's incarnation exceeds its own entry's. */
  lemma RefutesExactly(l: Local, inc: nat, src: Addr, now: nat, out: set<Packet>)
    requires l.me in l.view && l.view[l.me].id == l.me && l.view[l.me].state == Alive
    requires exists k :: k in l.view && l.view[k].id != l.me && l.view[k].state == Alive
    requires Answers(l, Suspicion(l.me, inc), src, now, out)
    ensures Refutation(l.me, l.incarnation + 1) in Payload(out) <==> inc > l.view[l.me].incarnation
  {
    var after := Receive(l, Suspicion(l.me, inc), src, now);
    if inc > l.view[l.me].incarnation {
      var k :| k in l.view && l.view[k].id != l.me && l.view[k].state == Alive;
      assert after.view[k] == l.view[k];
      assert Packet(l.view[k].gossipAddr, Refutation(l.me, after.incarnation)) in out;
    }
  }

  /** In every run, delivering any sent message but a Join leaves the state of every known member as it was. */
  lemma GossipNeverChangesKnownState(steps: seq<Step>, to: NodeId, msg: GossipMessage, src: Addr, now: nat)
    requires to in Run(steps).nodes && msg in Run(steps).sent && !msg.Join?
    ensures Settled(Run(steps).nodes[to].view, Receive(Run(steps).nodes[to], msg, src, now).view)
  {
    RunKeepsInv(EMPTY, steps);
    ReceiveOk(Run(steps).nodes.Keys, to, Run(steps).nodes[to], msg, src, now);
  }

  function Rank(s: NodeState): nat {
    match s case Alive => 0 case Suspect => 1 case Dead => 2
  }

  ghost predicate JoinsAt(s: Step, n: NodeId, m: NodeId) {
    s.Deliver? && s.to == n && s.msg.Join? && s.msg.node.id == m
  }

  /** What a step does to the node `n`. */
  ghost function LocalStep(l: Local, n: NodeId, s: Step): Local {
    match s
    case Deliver(to, msg, src, now, _) => if to == n then Receive(l, msg, src, now) else l
    case Tick(id, now) => if id == n then l.(view := Detect(l.view, n, now)) else l
    case _ => l
  }

  lemma ApplyLocal(c: Cluster, s: Step, n: NodeId)
    requires n in c.nodes
    ensures n in Apply(c, s).nodes
    ensures Apply(c, s).nodes[n] == if Enabled(c, s) then LocalStep(c.nodes[n], n, s) else c.nodes[n]
  {
  }

  lemma LocalOnlyDegrades(ids: set<NodeId>, n: NodeId, l: Local, s: Step, m: NodeId)
    requires LocalOk(ids, n, l) && m in l.view && !JoinsAt(s, n, m)
    requires s.Deliver? ==> MessageOk(ids, s.msg)
    ensures m in LocalStep(l, n, s).view
    ensures Rank(l.view[m].state) <= Rank(LocalStep(l, n, s).view[m].state)
  {
    if s.Deliver? && s.to == n {
      ReceiveOk(ids, n, l, s.msg, s.src, s.now);
    }
  }

  /** A member's state at an observer only ever gets worse, unless a Join of it is delivered there. */
  lemma StepOnlyDegrades(c: Cluster, s: Step, n: NodeId, m: NodeId)
    requires Inv(c) && n in c.nodes && m in c.nodes[n].view && !JoinsAt(s, n, m)
    ensures n in Apply(c, s).nodes && m in Apply(c, s).nodes[n].view
    ensures Rank(c.nodes[n].view[m].state) <= Rank(Apply(c, s).nodes[n].view[m].state)
  {
    ApplyLocal(c, s, n);
    if Enabled(c, s) {
      LocalOnlyDegrades(c.nodes.Keys, n, c.nodes[n], s, m);
    }
  }

  /**
   From any reachable cluster and through any continuation in which no Join of `m` reaches `n`,
   `m` stays in the view of `n` and its state there never improves: once suspected, never alive again.
   */
  lemma {:induction false} OnlyDegrades(steps: seq<Step>, more: seq<Step>, n: NodeId, m: NodeId)
    requires n in Run(steps).nodes && m in Run(steps).nodes[n].view
    requires forall i :: 0 <= i < |more| ==> !JoinsAt(more[i], n, m)
    ensures var c := RunFrom(Run(steps), more);
            && n in c.nodes && m in c.nodes[n].view
            && Rank(Run(steps).nodes[n].view[m].state) <= Rank(c.nodes[n].view[m].state)
  {
    if more != [] {
      var init := more[..|more| - 1];
      OnlyDegrades(steps, init, n, m);
      RunKeepsInv(EMPTY, steps);
      RunKeepsInv(Run(steps), init);
      StepOnlyDegrades(RunFrom(Run(steps), init), more[|more| - 1], n, m);
    }
  }

  lemma AliveHasOwner(alive: set<NodeId>, n: NodeId, rf: nat, partition: nat)
    requires n in alive && rf >= 1
    ensures Placement.Owners(alive, rf, partition) != []
  {
    Placement.OwnersWellFormed(alive, rf, partition);
  }

  /** In every run, every node finds itself alive in its own view, so every partition has an owner there. */
  lemma SelfAlwaysAlive(steps: seq<Step>, n: NodeId, rf: nat, partition: nat)
    requires n in Run(steps).nodes && rf >= 1
    ensures n in AliveKeys(Run(steps).nodes[n].view)
    ensures Placement.Owners(AliveKeys(Run(steps).nodes[n].view), rf, partition) != []
  {
    RunKeepsInv(EMPTY, steps);
    AliveHasOwner(AliveKeys(Run(steps).nodes[n].view), n, rf, partition);
  }

  lemma RunSnoc(c: Cluster, steps: seq<Step>, s: Step)
    ensures RunFrom(c, steps + [s]) == Apply(RunFrom(c, steps), s)
  {
    assert (steps + [s])[..|steps|] == steps;
  }

  ghost function LonelyRun(addr: Addr): seq<Step> {
    [Start("a", addr, {}, 0), Start("b", addr, {addr}, 0),
     Deliver("a", Join(Wire(FirstNode("b", addr, 0))), addr, 0, {}), Tick("a", 6_000)]
  }

  /** Such a run: two nodes, one quiet for six seconds. */
  lemma LonelyRunSuspects(addr: Addr)
    ensures var c := Run(LonelyRun(addr));
            "a" in c.nodes && "b" in c.nodes["a"].view && c.nodes["a"].view["b"].state == Suspect
  {
    var steps := LonelyRun(addr);
    var c1 := Apply(EMPTY, steps[0]);
    var c2 := Apply(c1, steps[1]);
    var c3 := Apply(c2, steps[2]);
    RunSnoc(EMPTY, [], steps[0]);
    RunSnoc(EMPTY, [steps[0]], steps[1]);
    RunSnoc(EMPTY, [steps[0], steps[1]], steps[2]);
    RunSnoc(EMPTY, [steps[0], steps[1], steps[2]], steps[3]);
    assert [] + [steps[0]] == [steps[0]];
    assert [steps[0]] + [steps[1]] == [steps[0], steps[1]];
    assert [steps[0], steps[1]] + [steps[2]] == [steps[0], steps[1], steps[2]];
    assert [steps[0], steps[1], steps[2]] + [steps[3]] == steps;
    assert Run(steps) == Apply(c3, steps[3]);
    var b: NodeId := "b";
    assert b !in c1.nodes;
    assert steps[2].msg in c2.sent;
    assert c3.nodes["a"].view[b] == FirstNode(b, addr, 0);
  }

  lemma TickSuspects(ids: set<NodeId>, n: NodeId, l: Local, m: NodeId, now: nat)
    requires LocalOk(ids, n, l) && m in l.view && m != n
    requires l.view[m].lastSeen.Some? && now > l.view[m].lastSeen.value + SUSPECT_TIMEOUT
    ensures m in Detect(l.view, n, now) && Detect(l.view, n, now)[m].state != Alive
  {
    assert EntryOk(ids, m, l.view[m]);
  }

  /**
   In every run: a member not heard of for more than five seconds at a pass of the detector is not alive there, and
   without a new Join it is never alive there again, however it behaves later.
   */
  lemma LiveNodeLost(steps: seq<Step>, n: NodeId, m: NodeId, now: nat, more: seq<Step>)
    requires n in Run(steps).nodes && m in Run(steps).nodes[n].view && m != n
    requires Run(steps).nodes[n].view[m].lastSeen.Some?
    requires now > Run(steps).nodes[n].view[m].lastSeen.value + SUSPECT_TIMEOUT
    requires forall i :: 0 <= i < |more| ==> !JoinsAt(more[i], n, m)
    ensures var c := RunFrom(Apply(Run(steps), Tick(n, now)), more);
            n in c.nodes && m in c.nodes[n].view && c.nodes[n].view[m].state != Alive
  {
    var c := Run(steps);
    RunKeepsInv(EMPTY, steps);
    assert LocalOk(c.nodes.Keys, n, c.nodes[n]);
    TickSuspects(c.nodes.Keys, n, c.nodes[n], m, now);
    ApplyLocal(c, Tick(n, now), n);
    RunSnoc(EMPTY, steps, Tick(n, now));
    OnlyDegrades(steps + [Tick(n, now)], more, n, m);
  }
}
