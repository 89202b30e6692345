/**
 What one node's view does over whole runs of timed events, whatever the messages say.
 No assumption is made about who sent a message: incarnations are arbitrary here.
 */
module MembershipRuns {
  import opened NodeOrder
  import opened MembershipSpec

  datatype Event = Recv(msg: GossipMessage, src: Addr) | Pass

  /** A message handled, or a detector pass made, at time `at`. */
  datatype Timed = Timed(at: nat, event: Event)

  ghost function Handle(l: Local, t: Timed): Local {
    match t.event
    case Recv(msg, src) => Receive(l, msg, src, t.at)
    case Pass => l.(view := Detect(l.view, l.me, t.at))
  }

  ghost function LocalRun(l: Local, ts: seq<Timed>): Local {
    if ts == [] then l else Handle(LocalRun(l, ts[..|ts| - 1]), ts[|ts| - 1])
  }

  ghost predicate Keyed(v: View) {
    forall k {:trigger v[k]} :: k in v ==> v[k].id == k
  }

  ghost predicate JoinsMember(t: Timed, m: NodeId) {
    t.event.Recv? && t.event.msg.Join? && t.event.msg.node.id == m
  }

  // ---- Arbitrary messages: nobody is forgotten, the dead stay dead ----

  /** `after` may follow `before` as the entry of a member. */
  ghost predicate Advances(me: NodeId, before: Node, after: Node) {
    && after.id == before.id
    && (before.state == Dead ==> after.state == Dead)
    && (before.id != me ==> before.incarnation <= after.incarnation)
  }

  ghost predicate ViewAdvances(me: NodeId, v: View, w: View, except: set<NodeId>) {
    && Keyed(w) && v.Keys <= w.Keys
    && forall k {:trigger w[k]} :: k in v && k !in except ==> Advances(me, v[k], w[k])
  }

  lemma MergeAdvances(me: NodeId, v: View, n: Node, now: nat)
    requires Keyed(v)
    ensures ViewAdvances(me, v, OnMerge(v, n, now), {})
  {
  }

  lemma {:induction false} MergeAllAdvances(me: NodeId, v: View, ns: seq<Node>, now: nat)
    requires Keyed(v)
    ensures ViewAdvances(me, v, OnMergeAll(v, ns, now), {})
  {
    if ns != [] {
      var w := OnMergeAll(v, ns[..|ns| - 1], now);
      MergeAllAdvances(me, v, ns[..|ns| - 1], now);
      MergeAdvances(me, w, ns[|ns| - 1], now);
      forall k | k in v ensures k in OnMergeAll(v, ns, now) && Advances(me, v[k], OnMergeAll(v, ns, now)[k]) {
        assert Advances(me, v[k], w[k]);
        assert Advances(me, w[k], OnMerge(w, ns[|ns| - 1], now)[k]);
      }
    }
  }

  ghost function Joined(t: Timed): set<NodeId> {
    if t.event.Recv? && t.event.msg.Join? then {t.event.msg.node.id} else {}
  }

  lemma HandleAdvances(l: Local, t: Timed)
    requires Keyed(l.view)
    ensures Handle(l, t).me == l.me
    ensures ViewAdvances(l.me, l.view, Handle(l, t).view, Joined(t))
  {
    if t.event.Recv? && t.event.msg.Ack? {
      var Ack(from, inc, ns) := t.event.msg;
      var v := if from in l.view then l.view[from := Contacted(l.view[from], inc, t.at)] else l.view;
      MergeAllAdvances(l.me, v, ns, t.at);
      forall k | k in l.view && !(from in l.view && l.view[from].state == Dead)
        ensures k in Handle(l, t).view && Advances(l.me, l.view[k], Handle(l, t).view[k])
      {
        assert Advances(l.me, v[k], OnMergeAll(v, ns, t.at)[k]);
      }
    }
  }

  /** Members are never removed; without a Join of it, a dead one stays dead and a remote one's incarnation never drops. */
  lemma {:induction false} NeverForgotten(l: Local, ts: seq<Timed>, m: NodeId)
    requires Keyed(l.view) && m in l.view
    ensures LocalRun(l, ts).me == l.me && Keyed(LocalRun(l, ts).view) && m in LocalRun(l, ts).view
    ensures (forall i :: 0 <= i < |ts| ==> !JoinsMember(ts[i], m)) ==> Advances(l.me, l.view[m], LocalRun(l, ts).view[m])
  {
    if ts != [] {
      var init, last := ts[..|ts| - 1], ts[|ts| - 1];
      NeverForgotten(l, init, m);
      HandleAdvances(LocalRun(l, init), last);
      assert LocalRun(l, ts) == Handle(LocalRun(l, init), last);
      assert !JoinsMember(last, m) ==> Advances(l.me, LocalRun(l, init).view[m], LocalRun(l, ts).view[m]);
    }
  }

  /** The local node's own entry is different: its incarnation can drop. */
  lemma OwnIncarnationCanDrop(src: Addr)
    ensures var l := Started("a", src, 0);
            var high := FirstNode("a", src, 0).(incarnation := 10);
            var ts := [Timed(0, Recv(Ack("b", 1, [high]), src)), Timed(0, Recv(Suspicion("a", 11), src))];
            && "a" in LocalRun(l, ts[..1]).view && LocalRun(l, ts[..1]).view["a"].incarnation == 10
            && "a" in LocalRun(l, ts).view && LocalRun(l, ts).view["a"].incarnation == 2
  {
    var l := Started("a", src, 0);
    var a, b: NodeId := "a", "b";
    assert a != b;
    var high := FirstNode(a, src, 0).(incarnation := 10);
    var t0, t1 := Timed(0, Recv(Ack(b, 1, [high]), src)), Timed(0, Recv(Suspicion(a, 11), src));
    var ts := [t0, t1];
    assert ts[..1] == [t0] && [t0][..0] == [];
    assert OnMergeAll(l.view, [high], 0) == OnMerge(l.view, high, 0) by { assert [high][..0] == []; }
  }

  // ---- Suspicions and refutations form a join-semilattice ----

  /** What is believed of a member that is not dead. */
  datatype Opinion = Opinion(incarnation: nat, alive: bool)

  function OpinionOf(n: Node): Opinion {
    Opinion(n.incarnation, n.state == Alive)
  }

  ghost predicate IsClaim(msg: GossipMessage) {
    msg.Suspicion? || msg.Refutation?
  }

  function ClaimOf(msg: GossipMessage): Opinion
    requires msg.Suspicion? || msg.Refutation?
  {
    Opinion(msg.incarnation, msg.Refutation?)
  }

  /** Lexicographic order: higher incarnation first, then alive over suspect. */
  predicate AtMost(a: Opinion, b: Opinion) {
    a.incarnation < b.incarnation || (a.incarnation == b.incarnation && (a.alive ==> b.alive))
  }

  /** `r` is the lexicographic maximum of `start` and the claims about `m` in `ts`. */
  ghost predicate IsMaximum(r: Opinion, start: Opinion, ts: seq<Timed>, m: NodeId) {
    && AtMost(start, r)
    && (forall i :: 0 <= i < |ts| && About(ts[i], m) ==> AtMost(ClaimOf(ts[i].event.msg), r))
    && (r == start || exists i :: 0 <= i < |ts| && About(ts[i], m) && r == ClaimOf(ts[i].event.msg))
  }

  ghost predicate About(t: Timed, m: NodeId) {
    t.event.Recv? && IsClaim(t.event.msg) && t.event.msg.nodeId == m
  }

  ghost predicate OnlyClaims(ts: seq<Timed>) {
    forall i :: 0 <= i < |ts| ==> ts[i].event.Recv? && IsClaim(ts[i].event.msg)
  }

  lemma ClaimStep(l: Local, t: Timed, m: NodeId)
    requires Keyed(l.view) && m in l.view && m != l.me && l.view[m].state != Dead
    requires t.event.Recv? && IsClaim(t.event.msg)
    ensures var l' := Handle(l, t);
            && l'.me == l.me && Keyed(l'.view) && m in l'.view && l'.view[m].state != Dead
            && var before, after := OpinionOf(l.view[m]), OpinionOf(l'.view[m]);
               if About(t, m) && !AtMost(ClaimOf(t.event.msg), before) then after == ClaimOf(t.event.msg)
               else after == before
  {
  }

  /**
   Delivering any list of Suspicion and Refutation messages, in any order and with any repetition, leaves a known
   remote member that is not dead with the lexicographic maximum of its first opinion and all claims about it.
   */
  lemma {:induction false} ClaimsTakeMaximum(l: Local, ts: seq<Timed>, m: NodeId)
    requires Keyed(l.view) && m in l.view && m != l.me && l.view[m].state != Dead && OnlyClaims(ts)
    ensures var l' := LocalRun(l, ts);
            && l'.me == l.me && Keyed(l'.view) && m in l'.view && l'.view[m].state != Dead
            && IsMaximum(OpinionOf(l'.view[m]), OpinionOf(l.view[m]), ts, m)
  {
    if ts != [] {
      var init, last := ts[..|ts| - 1], ts[|ts| - 1];
      ClaimsTakeMaximum(l, init, m);
      ClaimStep(LocalRun(l, init), last, m);
      var start, mid, end := OpinionOf(l.view[m]), OpinionOf(LocalRun(l, init).view[m]), OpinionOf(LocalRun(l, ts).view[m]);
      MaximumSnoc(start, mid, end, init, last, m);
      assert init + [last] == ts;
    }
  }

  lemma MaximumSnoc(start: Opinion, mid: Opinion, end: Opinion, init: seq<Timed>, last: Timed, m: NodeId)
    requires IsMaximum(mid, start, init, m)
    requires end == if About(last, m) && !AtMost(ClaimOf(last.event.msg), mid) then ClaimOf(last.event.msg) else mid
    ensures IsMaximum(end, start, init + [last], m)
  {
    var ts := init + [last];
    forall i | 0 <= i < |ts| && About(ts[i], m) ensures AtMost(ClaimOf(ts[i].event.msg), end) {
      if i < |init| { assert ts[i] == init[i]; }
    }
    if end == mid && mid != start {
      var i :| 0 <= i < |init| && About(init[i], m) && mid == ClaimOf(init[i].event.msg);
      assert ts[i] == init[i];
    } else if end != mid {
      assert ts[|init|] == last;
    }
  }

  ghost function Messages(ts: seq<Timed>): set<GossipMessage> {
    set t | t in ts && t.event.Recv? :: t.event.msg
  }

  /** Only the set of delivered claims matters: order, repetition and timing do not. */
  lemma ClaimsCommute(l: Local, ts: seq<Timed>, us: seq<Timed>, m: NodeId)
    requires Keyed(l.view) && m in l.view && m != l.me && l.view[m].state != Dead
    requires OnlyClaims(ts) && OnlyClaims(us) && Messages(ts) == Messages(us)
    ensures m in LocalRun(l, ts).view && m in LocalRun(l, us).view
    ensures var a, b := LocalRun(l, ts).view[m], LocalRun(l, us).view[m];
            a.incarnation == b.incarnation && a.state == b.state
  {
    ClaimsTakeMaximum(l, ts, m);
    ClaimsTakeMaximum(l, us, m);
    var start, a, b := OpinionOf(l.view[m]), OpinionOf(LocalRun(l, ts).view[m]), OpinionOf(LocalRun(l, us).view[m]);
    MaximumBelow(a, b, start, ts, us, m);
    MaximumBelow(b, a, start, us, ts, m);
  }

  lemma MaximumBelow(a: Opinion, b: Opinion, start: Opinion, ts: seq<Timed>, us: seq<Timed>, m: NodeId)
    requires IsMaximum(a, start, ts, m) && IsMaximum(b, start, us, m) && Messages(ts) == Messages(us)
    ensures AtMost(a, b)
  {
    if a != start {
      var i :| 0 <= i < |ts| && About(ts[i], m) && a == ClaimOf(ts[i].event.msg);
      assert ts[i].event.msg in Messages(ts);
      var u :| u in us && u.event.Recv? && u.event.msg == ts[i].event.msg;
      assert About(u, m);
    }
  }

  /** For the local node itself repetition does matter: the same suspicion twice raises the counter twice. */
  lemma SelfDefenceNotIdempotent(src: Addr)
    ensures var l, t := Started("a", src, 0), Timed(0, Recv(Suspicion("a", 5), src));
            LocalRun(l, [t]).incarnation == 2 && LocalRun(l, [t, t]).incarnation == 3
  {
    var t := Timed(0, Recv(Suspicion("a", 5), src));
    assert [t][..0] == [] && [t, t][..1] == [t];
  }
}
