/**
 The membership service of one node (`src/membership/service.rs`): its view of the
 cluster, the handlers of the five gossip messages and the timed failure detector.

 The first module gives the meaning of every handler as a function from the state
 before to the state after and the packets sent. The class is the service itself:
 it updates its fields in place and is proved to follow those functions.
 A handler reads the clock once; times are milliseconds.
 */
module MembershipSpec {
  import opened Common
  import opened NodeOrder

  const SUSPECT_TIMEOUT := 5_000
  const DEAD_TIMEOUT := 10_000
  const FIRST_INCARNATION := 1
  const HTTP_PORT_OFFSET := 1_000

  datatype Addr = Addr(ip: nat, port: nat)

  datatype NodeState = Alive | Suspect | Dead

  datatype Node = Node(id: NodeId, gossipAddr: Addr, httpAddr: Addr, state: NodeState,
                       incarnation: nat, lastSeen: Option<nat>)

  datatype GossipMessage =
    | Ping(from: NodeId, incarnation: nat)
    | Ack(from: NodeId, incarnation: nat, members: seq<Node>)
    | Join(node: Node)
    | Suspicion(nodeId: NodeId, incarnation: nat)
    | Refutation(nodeId: NodeId, incarnation: nat)

  datatype Packet = Packet(dst: Addr, msg: GossipMessage)

  type View = map<NodeId, Node>

  /** What one node keeps: who it is, its view, and its own incarnation counter. */
  datatype Local = Local(me: NodeId, view: View, incarnation: nat)

  function HttpAddr(gossip: Addr): Addr {
    Addr(gossip.ip, gossip.port + HTTP_PORT_OFFSET)
  }

  /** A node as it travels: the contact time is not serialized. */
  function Wire(n: Node): Node {
    n.(lastSeen := None)
  }

  function FirstNode(id: NodeId, addr: Addr, now: nat): Node {
    Node(id, addr, HttpAddr(addr), Alive, FIRST_INCARNATION, Some(now))
  }

  function Started(id: NodeId, addr: Addr, now: nat): Local {
    Local(id, map[id := FirstNode(id, addr, now)], FIRST_INCARNATION)
  }

  // ---- Handlers ----

  /** Contact from a known member refreshes it and may raise its incarnation, never its state. */
  function Contacted(n: Node, incarnation: nat, now: nat): Node {
    n.(lastSeen := Some(now), incarnation := Max(incarnation, n.incarnation))
  }

  function OnPing(v: View, from: NodeId, incarnation: nat, src: Addr, now: nat): View {
    if from in v then v[from := Contacted(v[from], incarnation, now)]
    else v[from := Node(from, src, HttpAddr(src), Alive, incarnation, Some(now))]
  }

  function OnMerge(v: View, n: Node, now: nat): View {
    if n.id in v then
      if v[n.id].state != Dead && n.incarnation > v[n.id].incarnation then
        v[n.id := v[n.id].(state := n.state, incarnation := n.incarnation, lastSeen := Some(now))]
      else v
    else if n.state == Dead then v
    else v[n.id := n.(lastSeen := Some(now))]
  }

  function OnMergeAll(v: View, ns: seq<Node>, now: nat): View {
    if ns == [] then v
    else OnMerge(OnMergeAll(v, ns[..|ns| - 1], now), ns[|ns| - 1], now)
  }

  function OnAck(v: View, from: NodeId, incarnation: nat, ns: seq<Node>, now: nat): View {
    if from in v && v[from].state == Dead then v
    else OnMergeAll(if from in v then v[from := Contacted(v[from], incarnation, now)] else v, ns, now)
  }

  /** The local node defends itself against a suspicion of a newer incarnation than its own entry. */
  predicate Defends(l: Local, id: NodeId, incarnation: nat) {
    id in l.view && l.view[id].state != Dead && incarnation > l.view[id].incarnation && l.view[id].id == l.me
  }

  function OnSuspicion(l: Local, id: NodeId, incarnation: nat, now: nat): Local {
    if Defends(l, id, incarnation) then
      Local(l.me,
            l.view[id := l.view[id].(incarnation := l.incarnation + 1, state := Alive, lastSeen := Some(now))],
            l.incarnation + 1)
    else if id in l.view && l.view[id].state != Dead && incarnation > l.view[id].incarnation then
      l.(view := l.view[id := l.view[id].(state := Suspect, incarnation := incarnation, lastSeen := Some(now))])
    else l
  }

  function OnRefutation(v: View, id: NodeId, incarnation: nat, now: nat): View {
    if id in v && v[id].state != Dead
       && (incarnation > v[id].incarnation || (incarnation == v[id].incarnation && v[id].state == Suspect)) then
      v[id := v[id].(state := Alive, incarnation := incarnation, lastSeen := Some(now))]
    else v
  }

  function OnJoin(v: View, n: Node, now: nat): View {
    v[n.id := n.(lastSeen := Some(now))]
  }

  // ---- Packets ----

  /** One copy for every other member believed alive. */
  function Broadcast(v: View, me: NodeId, msg: GossipMessage): set<Packet> {
    set k | k in v && v[k].id != me && v[k].state == Alive :: Packet(v[k].gossipAddr, msg)
  }

  /** `order` is an iteration order of the view: each key exactly once. */
  ghost predicate IsOrder(order: seq<NodeId>, v: View) {
    Distinct(order) && Elements(order) == v.Keys
  }

  /** The view as it is listed in an Ack. */
  ghost function Listing(order: seq<NodeId>, v: View): (ns: seq<Node>)
    requires IsOrder(order, v)
  {
    assert forall i :: 0 <= i < |order| ==> order[i] in Elements(order);
    seq(|order|, i requires 0 <= i < |order| => Wire(v[order[i]]))
  }

  /** The state after a message, and the packets sent in answer; `order` is the listing order of an Ack. */
  ghost function Receive(l: Local, msg: GossipMessage, src: Addr, now: nat): Local {
    match msg
    case Ping(from, inc) => l.(view := OnPing(l.view, from, inc, src, now))
    case Ack(from, inc, ns) => l.(view := OnAck(l.view, from, inc, ns, now))
    case Join(n) => l.(view := OnJoin(l.view, n, now))
    case Suspicion(id, inc) => OnSuspicion(l, id, inc, now)
    case Refutation(id, inc) => l.(view := OnRefutation(l.view, id, inc, now))
  }

  /** `out` is an admissible answer to `msg`: an Ack listing the new view, or the refutation broadcast. */
  ghost predicate Answers(l: Local, msg: GossipMessage, src: Addr, now: nat, out: set<Packet>) {
    var after := Receive(l, msg, src, now);
    match msg
    case Ping(_, _) =>
      exists order :: IsOrder(order, after.view)
                   && out == {Packet(src, Ack(l.me, l.incarnation, Listing(order, after.view)))}
    case Suspicion(id, inc) =>
      out == if Defends(l, id, inc) then Broadcast(after.view, l.me, Refutation(id, after.incarnation)) else {}
    case _ => out == {}
  }

  // ---- Failure detector ----

  function Elapsed(since: nat, now: nat): nat {
    if now >= since then now - since else 0
  }

  /** One detector visit of one member: at most one step down. */
  function Inspect(n: Node, me: NodeId, now: nat): Node {
    if n.id == me || n.state == Dead then n
    else match n.lastSeen
      case None => n.(lastSeen := Some(now))
      case Some(t) =>
        if n.state == Alive && Elapsed(t, now) > SUSPECT_TIMEOUT then n.(state := Suspect)
        else if n.state == Suspect && Elapsed(t, now) > DEAD_TIMEOUT then n.(state := Dead)
        else n
  }

  function Detect(v: View, me: NodeId, now: nat): View {
    map k | k in v :: Inspect(v[k], me, now)
  }

  predicate NewlySuspect(n: Node, me: NodeId, now: nat) {
    n.state == Alive && Inspect(n, me, now).state == Suspect
  }

  /** The suspicions raised by a detector pass. */
  function Alarms(v: View, visited: set<NodeId>, me: NodeId, now: nat): set<GossipMessage> {
    set k | k in v && k in visited && NewlySuspect(v[k], me, now) :: Suspicion(v[k].id, v[k].incarnation)
  }

  function AlarmPackets(v: View, me: NodeId, now: nat): set<Packet> {
    set m, p | m in Alarms(v, v.Keys, me, now) && p in Broadcast(Detect(v, me, now), me, m) :: p
  }

  // ---- The view as other services see it ----

  function AliveKeys(v: View): set<NodeId> {
    set k | k in v && v[k].state == Alive
  }
}

module Membership {
  import opened Common
  import opened NodeOrder
  import opened MembershipSpec

  class MembershipService {
    const localNode: Node
    var members: View
    var incarnation: nat

    ghost function State(): Local
      reads this
    {
      Local(localNode.id, members, incarnation)
    }

    /** The service before it has contacted anybody. */
    constructor (id: NodeId, bindAddr: Addr, now: nat)
      ensures State() == Started(id, bindAddr, now) && localNode == FirstNode(id, bindAddr, now)
    {
      localNode := FirstNode(id, bindAddr, now);
      members := map[id := FirstNode(id, bindAddr, now)];
      incarnation := FIRST_INCARNATION;
    }

    /** Asks every seed to let this node join. */
    method JoinSeeds(seeds: seq<Addr>) returns (out: set<Packet>)
      ensures out == set s | s in seeds :: Packet(s, Join(localNode.(lastSeen := None)))
    {
      out := {};
      for i := 0 to |seeds|
        invariant out == set s | s in seeds[..i] :: Packet(s, Join(localNode.(lastSeen := None)))
      {
        assert seeds[..i + 1] == seeds[..i] + [seeds[i]];
        out := out + {Packet(seeds[i], Join(Wire(localNode)))};
      }
      assert seeds[..|seeds|] == seeds;
    }

    /** All members believed alive, in the iteration order of the map. */
    method GetAliveMembers() returns (alive: seq<Node>, ghost order: seq<NodeId>)
      ensures forall n :: n in alive <==> exists k :: k in members && members[k] == n && n.state == Alive
      ensures Distinct(order) && Elements(order) == AliveKeys(members)
      ensures |alive| == |order| && forall i :: 0 <= i < |order| ==> order[i] in members && alive[i] == members[order[i]]
    {
      alive, order := [], [];
      var todo := members.Keys;
      while todo != {}
        invariant todo <= members.Keys && Distinct(order)
        invariant Elements(order) == AliveKeys(members) - todo
        invariant |alive| == |order|
        invariant forall i :: 0 <= i < |order| ==> order[i] in members && alive[i] == members[order[i]]
      {
        var id :| id in todo;
        if members[id].state == Alive {
          ElementsAppend(order, id);
          alive, order := alive + [members[id]], order + [id];
        }
        todo := todo - {id};
      }
      forall k | k in members && members[k].state == Alive ensures members[k] in alive {
        assert k in Elements(order);
        var i :| 0 <= i < |order| && order[i] == k;
      }
      forall n | n in alive ensures exists k :: k in members && members[k] == n && n.state == Alive {
        var i :| 0 <= i < |alive| && alive[i] == n;
        assert order[i] in Elements(order);
      }
    }

    /** A ping for one of the other alive members, chosen by `random`, or nothing. */
    method GossipRound(random: nat) returns (out: Option<Packet>)
      ensures out.None? <==> forall k :: k in members && members[k].id != localNode.id ==> members[k].state != Alive
      ensures out.Some? ==> exists k ::
                && k in members && members[k].id != localNode.id && members[k].state == Alive
                && out.value == Packet(members[k].gossipAddr, Ping(localNode.id, incarnation))
    {
      var candidates: seq<NodeId> := [];
      var todo := members.Keys;
      while todo != {}
        invariant todo <= members.Keys
        invariant forall k :: k in candidates <==>
                    k in members && k !in todo && members[k].id != localNode.id && members[k].state == Alive
      {
        var id :| id in todo;
        if members[id].id != localNode.id && members[id].state == Alive {
          candidates := candidates + [id];
        }
        todo := todo - {id};
      }
      if candidates == [] {
        return None;
      }
      var target := candidates[random % |candidates|];
      return Some(Packet(members[target].gossipAddr, Ping(localNode.id, incarnation)));
    }

    method HandlePing(from: NodeId, inc: nat, src: Addr, now: nat) returns (out: set<Packet>)
      modifies this`members
      ensures State() == Receive(old(State()), Ping(from, inc), src, now)
      ensures Answers(old(State()), Ping(from, inc), src, now, out)
    {
      if from in members {
        var member := members[from].(lastSeen := Some(now));
        if inc > member.incarnation {
          member := member.(incarnation := inc);
        }
        members := members[from := member];
      } else {
        members := members[from := Node(from, src, HttpAddr(src), Alive, inc, Some(now))];
      }
      ghost var after := members;
      var all: seq<Node> := [];
      ghost var order: seq<NodeId> := [];
      var todo := members.Keys;
      while todo != {}
        invariant members == after
        invariant todo <= members.Keys && Distinct(order) && Elements(order) == members.Keys - todo
        invariant |all| == |order|
        invariant forall i :: 0 <= i < |order| ==> order[i] in members && all[i] == Wire(members[order[i]])
      {
        var id :| id in todo;
        ElementsAppend(order, id);
        all, order := all + [Wire(members[id])], order + [id];
        todo := todo - {id};
      }
      assert all == Listing(order, members);
      out := {Packet(src, Ack(localNode.id, incarnation, all))};
    }

    method MergeMember(n: Node, now: nat)
      modifies this`members
      ensures members == OnMerge(old(members), n, now)
    {
      if n.id in members {
        var existing := members[n.id];
        if existing.state == Dead {
          return;
        }
        if n.incarnation > existing.incarnation {
          members := members[n.id := existing.(state := n.state, incarnation := n.incarnation, lastSeen := Some(now))];
        }
      } else {
        if n.state == Dead {
          return;
        }
        members := members[n.id := n.(lastSeen := Some(now))];
      }
    }

    method HandleAck(from: NodeId, inc: nat, ns: seq<Node>, now: nat)
      modifies this`members
      ensures State() == Receive(old(State()), Ack(from, inc, ns), localNode.gossipAddr, now)
    {
      if from in members {
        var member := members[from];
        if member.state == Dead {
          return;
        }
        member := member.(lastSeen := Some(now));
        if inc > member.incarnation {
          member := member.(incarnation := inc);
        }
        members := members[from := member];
      }
      ghost var start := members;
      for i := 0 to |ns|
        invariant members == OnMergeAll(start, ns[..i], now)
      {
        assert ns[..i + 1][..i] == ns[..i];
        MergeMember(ns[i], now);
      }
      assert ns[..|ns|] == ns;
    }

    method HandleSuspect(id: NodeId, inc: nat, now: nat) returns (out: set<Packet>)
      modifies this`members, this`incarnation
      ensures State() == OnSuspicion(old(State()), id, inc, now)
      ensures Answers(old(State()), Suspicion(id, inc), localNode.gossipAddr, now, out)
    {
      out := {};
      if id !in members || members[id].state == Dead {
        return;
      }
      var existing := members[id];
      if inc > existing.incarnation {
        if existing.id == localNode.id {
          incarnation := incarnation + 1;
          members := members[id := existing.(incarnation := incarnation, state := Alive, lastSeen := Some(now))];
          out := BroadcastMessage(Refutation(id, incarnation));
        } else {
          members := members[id := existing.(state := Suspect, incarnation := inc, lastSeen := Some(now))];
        }
      }
    }

    method HandleAlive(id: NodeId, inc: nat, now: nat)
      modifies this`members
      ensures members == OnRefutation(old(members), id, inc, now)
    {
      if id !in members || members[id].state == Dead {
        return;
      }
      var existing := members[id];
      if inc > existing.incarnation {
        members := members[id := existing.(state := Alive, incarnation := inc, lastSeen := Some(now))];
      } else if inc == existing.incarnation && existing.state == Suspect {
        members := members[id := existing.(state := Alive, incarnation := inc, lastSeen := Some(now))];
      }
    }

    method HandleJoin(n: Node, now: nat)
      modifies this`members
      ensures members == OnJoin(old(members), n, now)
    {
      var node := n.(lastSeen := Some(now));
      members := members[node.id := node];
    }

    /** Dispatches a received message; `out` is what the node sends because of it. */
    method HandleMessage(msg: GossipMessage, src: Addr, now: nat) returns (out: set<Packet>)
      modifies this`members, this`incarnation
      ensures State() == Receive(old(State()), msg, src, now)
      ensures Answers(old(State()), msg, src, now, out)
    {
      out := {};
      match msg
      case Ping(from, inc) => out := HandlePing(from, inc, src, now);
      case Ack(from, inc, ns) => HandleAck(from, inc, ns, now);
      case Join(n) => HandleJoin(n, now);
      case Suspicion(id, inc) => out := HandleSuspect(id, inc, now);
      case Refutation(id, inc) => HandleAlive(id, inc, now);
    }

    /** Sends a message to every other member believed alive. */
    method BroadcastMessage(msg: GossipMessage) returns (out: set<Packet>)
      ensures out == Broadcast(members, localNode.id, msg)
    {
      out := {};
      var todo := members.Keys;
      while todo != {}
        invariant todo <= members.Keys
        invariant out == set k | k in members && k !in todo && members[k].id != localNode.id && members[k].state == Alive
                           :: Packet(members[k].gossipAddr, msg)
      {
        var k :| k in todo;
        if members[k].id != localNode.id && members[k].state == Alive {
          out := out + {Packet(members[k].gossipAddr, msg)};
        }
        todo := todo - {k};
      }
    }

    /** Visits every member once; `alarms` are the suspicions to spread. */
    method InspectMembers(now: nat) returns (alarms: set<GossipMessage>)
      modifies this`members
      ensures members == Detect(old(members), localNode.id, now)
      ensures alarms == Alarms(old(members), old(members).Keys, localNode.id, now)
    {
      ghost var before := members;
      alarms := {};
      var todo := members.Keys;
      while todo != {}
        invariant members.Keys == before.Keys && todo <= before.Keys
        invariant forall k :: k in before ==>
                    members[k] == if k in todo then before[k] else Inspect(before[k], localNode.id, now)
        invariant alarms == Alarms(before, before.Keys - todo, localNode.id, now)
      {
        var k :| k in todo;
        var member := members[k];
        ghost var visited := before.Keys - todo;
        if member.id != localNode.id && member.state != Dead {
          match member.lastSeen
          case None =>
            member := member.(lastSeen := Some(now));
          case Some(seen) =>
            var elapsed := Elapsed(seen, now);
            if member.state == Alive && elapsed > SUSPECT_TIMEOUT {
              member := member.(state := Suspect);
              alarms := alarms + {Suspicion(member.id, member.incarnation)};
            } else if member.state == Suspect && elapsed > DEAD_TIMEOUT {
              member := member.(state := Dead);
            }
        }
        assert member == Inspect(before[k], localNode.id, now);
        members := members[k := member];
        todo := todo - {k};
        AlarmStep(before, visited, k, localNode.id, now);
        assert before.Keys - todo == visited + {k};
      }
    }

    /** One pass of the failure detector. */
    method DetectFailures(now: nat) returns (out: set<Packet>)
      modifies this`members
      ensures members == Detect(old(members), localNode.id, now)
      ensures out == AlarmPackets(old(members), localNode.id, now)
    {
      var alarms := InspectMembers(now);
      out := {};
      var unsent := alarms;
      while unsent != {}
        invariant members == Detect(old(members), localNode.id, now) && unsent <= alarms
        invariant out == set m, p | m in alarms - unsent && p in Broadcast(members, localNode.id, m) :: p
      {
        var msg :| msg in unsent;
        var packets := BroadcastMessage(msg);
        out := out + packets;
        unsent := unsent - {msg};
      }
    }
  }

  lemma AlarmStep(v: View, visited: set<NodeId>, k: NodeId, me: NodeId, now: nat)
    requires k in v
    ensures Alarms(v, visited + {k}, me, now)
         == Alarms(v, visited, me, now)
            + (if NewlySuspect(v[k], me, now) then {Suspicion(v[k].id, v[k].incarnation)} else {})
  {
  }
}
