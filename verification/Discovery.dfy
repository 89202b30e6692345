/**
 How a cluster grows: whoever joins through one live seed is known to it, and after one exchange each way knows
 everyone the seed does not hold dead.
 */
module Discovery {
  import opened Common
  import opened NodeOrder
  import opened MembershipSpec
  import opened MembershipLaws
  import opened GossipCluster

  /** Some run leads from `c` to `d`. */
  ghost predicate Reaches(c: Cluster, d: Cluster) {
    exists steps :: RunFrom(c, steps) == d
  }

  /** `d` is reachable, and from `c`. */
  ghost predicate Follows(c: Cluster, d: Cluster) {
    Reaches(EMPTY, d) && Reaches(c, d)
  }

  lemma FollowsItself(steps: seq<Step>)
    ensures Follows(Run(steps), Run(steps))
  {
    assert RunFrom(Run(steps), []) == Run(steps);
  }

  lemma ReachesNext(c: Cluster, d: Cluster, s: Step)
    requires Reaches(c, d)
    ensures Reaches(c, Apply(d, s))
  {
    var steps :| RunFrom(c, steps) == d;
    RunSnoc(c, steps, s);
    assert RunFrom(c, steps + [s]) == Apply(d, s);
  }

  lemma FollowsNext(c: Cluster, d: Cluster, s: Step)
    requires Follows(c, d)
    ensures Follows(c, Apply(d, s))
  {
    ReachesNext(EMPTY, d, s);
    ReachesNext(c, d, s);
  }

  lemma ReachableOk(c: Cluster)
    requires Reaches(EMPTY, c)
    ensures Inv(c)
  {
    var steps :| RunFrom(EMPTY, steps) == c;
    RunKeepsInv(EMPTY, steps);
  }

  /** A node answers a Ping with an Ack, and then holds the sender alive if it did not know it. */
  lemma AnswerExists(l: Local, x: NodeId, inc: nat, src: Addr, now: nat) returns (out: set<Packet>, p: Packet)
    ensures Answers(l, Ping(x, inc), src, now, out) && p in out && p.msg.Ack?
    ensures var v := Receive(l, Ping(x, inc), src, now).view;
            x in v && (x !in l.view ==> v[x].state == Alive)
  {
    var after := Receive(l, Ping(x, inc), src, now);
    var order := Ring(after.view.Keys);
    assert IsOrder(order, after.view);
    p := Packet(src, Ack(l.me, l.incarnation, Listing(order, after.view)));
    out := {p};
    PingIs(l, x, inc, src, now);
  }

  /** `m` handles a message. */
  lemma Handled(c0: Cluster, c: Cluster, m: NodeId, msg: GossipMessage, src: Addr, now: nat, out: set<Packet>) returns (d: Cluster)
    requires Follows(c0, c) && m in c.nodes && msg in c.sent && Answers(c.nodes[m], msg, src, now, out)
    ensures Follows(c0, d) && d.nodes == c.nodes[m := Receive(c.nodes[m], msg, src, now)]
    ensures forall p :: p in out ==> p.msg in d.sent
  {
    FollowsNext(c0, c, Deliver(m, msg, src, now, out));
    d := Apply(c, Deliver(m, msg, src, now, out));
  }

  /** Unless it is a Join, nobody known to `m` changes state. */
  lemma HandledSettles(c: Cluster, m: NodeId, msg: GossipMessage, src: Addr, now: nat)
    requires Reaches(EMPTY, c) && m in c.nodes && msg in c.sent && !msg.Join?
    ensures Settled(c.nodes[m].view, Receive(c.nodes[m], msg, src, now).view)
  {
    ReachableOk(c);
    assert MessageOk(c.nodes.Keys, msg) && LocalOk(c.nodes.Keys, m, c.nodes[m]);
    ReceiveOk(c.nodes.Keys, m, c.nodes[m], msg, src, now);
  }

  /** What an exchange in which `x` asks `y` achieves. */
  ghost predicate Exchanged(c: Cluster, d: Cluster, x: NodeId, y: NodeId) {
    && x in c.nodes && y in c.nodes && d.nodes.Keys == c.nodes.Keys
    && Settled(c.nodes[x].view, d.nodes[x].view) && Settled(c.nodes[y].view, d.nodes[y].view)
    && x in d.nodes[y].view && (x !in c.nodes[y].view ==> d.nodes[y].view[x].state == Alive)
    && forall k :: k in c.nodes[y].view && c.nodes[y].view[k].state != Dead ==> k in d.nodes[x].view
  }

  /** `x` asks. */
  lemma Asks(c0: Cluster, c: Cluster, x: NodeId, y: NodeId) returns (d: Cluster)
    requires Follows(c0, c) && x in c.nodes && x != y
    requires y in c.nodes[x].view && c.nodes[x].view[y].state == Alive
    ensures Follows(c0, d) && d.nodes == c.nodes && Ping(x, c.nodes[x].incarnation) in d.sent
  {
    FollowsNext(c0, c, Gossip(x));
    d := Apply(c, Gossip(x));
  }

  lemma LearnsFrom(c: Cluster, x: NodeId, y: NodeId, now: nat, src: Addr, out: set<Packet>, p: Packet, k: NodeId)
    requires Reaches(EMPTY, c) && x in c.nodes && y in c.nodes && y in c.nodes[x].view && c.nodes[x].view[y].state == Alive
    requires Answers(c.nodes[y], Ping(x, c.nodes[x].incarnation), src, now, out) && p in out
    requires Settled(c.nodes[y].view, Receive(c.nodes[y], Ping(x, c.nodes[x].incarnation), src, now).view)
    requires k in c.nodes[y].view && c.nodes[y].view[k].state != Dead
    ensures k in Receive(c.nodes[x], p.msg, p.dst, now).view
  {
    ReachableOk(c);
    assert LocalOk(c.nodes.Keys, x, c.nodes[x]) && LocalOk(c.nodes.Keys, y, c.nodes[y]);
    GossipSpreads(c.nodes[x], c.nodes[y], src, now, out, p, now, k);
  }

  /** A node can ask any other that it holds alive, and then knows whom that one does not hold dead. */
  lemma Exchange(c0: Cluster, c: Cluster, x: NodeId, y: NodeId, now: nat, src: Addr) returns (d: Cluster)
    requires Follows(c0, c) && x in c.nodes && y in c.nodes && x != y
    requires y in c.nodes[x].view && c.nodes[x].view[y].state == Alive
    ensures Follows(c0, d) && Exchanged(c, d, x, y)
  {
    var ping := Ping(x, c.nodes[x].incarnation);
    var c1 := Asks(c0, c, x, y);
    var out, p := AnswerExists(c.nodes[y], x, c.nodes[x].incarnation, src, now);
    HandledSettles(c1, y, ping, src, now);
    var c2 := Handled(c0, c1, y, ping, src, now, out);
    HandledSettles(c2, x, p.msg, p.dst, now);
    d := Handled(c0, c2, x, p.msg, p.dst, now, {});
    forall k | k in c.nodes[y].view && c.nodes[y].view[k].state != Dead ensures k in d.nodes[x].view {
      LearnsFrom(c1, x, y, now, src, out, p, k);
    }
  }

  lemma Starts(c: Cluster, id: NodeId, addr: Addr, seed: Addr, now: nat) returns (d: Cluster)
    requires Follows(c, c) && id !in c.nodes
    ensures Follows(c, d) && d.nodes == c.nodes[id := Started(id, addr, now)]
    ensures Join(Wire(FirstNode(id, addr, now))) in d.sent
  {
    FollowsNext(c, c, Start(id, addr, {seed}, now));
    d := Apply(c, Start(id, addr, {seed}, now));
  }

  /** A new node starts with one seed address, and its Join reaches `n`, which then holds it alive. */
  lemma Joins(c: Cluster, id: NodeId, addr: Addr, seed: Addr, n: NodeId, now: nat, src: Addr) returns (d: Cluster)
    requires Follows(c, c) && id !in c.nodes && n in c.nodes
    ensures Follows(c, d) && d.nodes.Keys == c.nodes.Keys + {id} && d.nodes[id] == Started(id, addr, now)
    ensures OthersKept(c.nodes[n].view, d.nodes[n].view, id)
    ensures id in d.nodes[n].view
         && d.nodes[n].view[id] == Node(id, addr, Addr(addr.ip, addr.port + 1_000), Alive, 1, Some(now))
  {
    var first := Wire(FirstNode(id, addr, now));
    var c1 := Starts(c, id, addr, seed, now);
    d := Handled(c, c1, n, Join(first), src, now, {});
    JoinIs(c.nodes[n], first, src, now, {});
    StartIs(id, addr, now);
  }

  /**
   From every reachable state a new node, given one seed that is up, can join: there is a continuation after which the
   seed holds it alive, and it knows the seed and everyone the seed did not hold dead.
   */
  lemma NewcomerDiscovers(steps: seq<Step>, id: NodeId, addr: Addr, seed: Addr, n: NodeId, now: nat, src: Addr)
    returns (more: seq<Step>)
    requires id !in Run(steps).nodes && n in Run(steps).nodes
    ensures var c, d := Run(steps), RunFrom(Run(steps), more);
            && id in d.nodes && n in d.nodes
            && id in d.nodes[n].view && d.nodes[n].view[id].state == Alive && n in d.nodes[id].view
            && (forall k :: k in c.nodes[n].view && c.nodes[n].view[k].state != Dead ==> k in d.nodes[id].view)
  {
    var c := Run(steps);
    FollowsItself(steps);
    var c1 := Joins(c, id, addr, seed, n, now, src);
    var c2 := Exchange(c, c1, n, id, now, src);
    var d := Exchange(c, c2, id, n, now, src);
    more :| RunFrom(c, more) == d;
  }
}
