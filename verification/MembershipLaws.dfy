/**
 What each gossip message and each detector pass does to a view, member by member, and what is sent: the requirements
 of `src/membership/service.rs`, stated on views and packets alone. Times are milliseconds.
 */
module MembershipLaws {
  import opened Common
  import opened NodeOrder
  import opened MembershipSpec

  /** Every other member is as it was. */
  ghost predicate OthersKept(v: View, w: View, m: NodeId) {
    forall k :: k != m ==> (k in w <==> k in v) && (k in v ==> w[k] == v[k])
  }

  /** A member after contact at `now` by a message of the given incarnation: refreshed, its incarnation not lowered, nothing else. */
  ghost predicate IsContacted(before: Node, after: Node, inc: nat, now: nat) {
    after == before.(lastSeen := Some(now), incarnation := if inc > before.incarnation then inc else before.incarnation)
  }

  // ---- Starting and joining ----

  lemma StartIs(id: NodeId, addr: Addr, now: nat)
    ensures Started(id, addr, now)
         == Local(id, map[id := Node(id, addr, Addr(addr.ip, addr.port + 1_000), Alive, 1, Some(now))], 1)
  {
  }

  /** A Join replaces whatever was known of the node, dead or not. */
  lemma JoinIs(l: Local, n: Node, src: Addr, now: nat, out: set<Packet>)
    requires Answers(l, Join(n), src, now, out)
    ensures var l' := Receive(l, Join(n), src, now);
            && l'.me == l.me && l'.incarnation == l.incarnation && OthersKept(l.view, l'.view, n.id)
            && n.id in l'.view && l'.view[n.id] == n.(lastSeen := Some(now)) && out == {}
  {
  }

  // ---- Pings ----

  /** `ns` lists every member of the view once, without its contact time. */
  ghost predicate ListsView(ns: seq<Node>, v: View) {
    && |ns| == |v|
    && (forall k :: k in v ==> v[k].(lastSeen := None) in ns)
    && (forall i :: 0 <= i < |ns| ==> exists k :: k in v && ns[i] == v[k].(lastSeen := None))
  }

  lemma ListingIs(order: seq<NodeId>, v: View)
    requires IsOrder(order, v)
    ensures ListsView(Listing(order, v), v)
  {
    var ns := Listing(order, v);
    DistinctSize(order);
    assert |v| == |v.Keys|;
    forall k | k in v ensures v[k].(lastSeen := None) in ns {
      assert k in Elements(order);
      var i :| 0 <= i < |order| && order[i] == k;
      assert ns[i] == v[k].(lastSeen := None);
    }
    forall i | 0 <= i < |ns| ensures exists k :: k in v && ns[i] == v[k].(lastSeen := None) {
      assert order[i] in Elements(order);
    }
  }

  /** The answer to a Ping: one Ack, to where it came from, listing the view. */
  lemma AckIsListing(l: Local, from: NodeId, inc: nat, src: Addr, now: nat, out: set<Packet>) returns (ns: seq<Node>)
    requires Answers(l, Ping(from, inc), src, now, out)
    ensures out == {Packet(src, Ack(l.me, l.incarnation, ns))}
    ensures ListsView(ns, Receive(l, Ping(from, inc), src, now).view)
  {
    var after := Receive(l, Ping(from, inc), src, now);
    var order :| IsOrder(order, after.view) && out == {Packet(src, Ack(l.me, l.incarnation, Listing(order, after.view)))};
    ns := Listing(order, after.view);
    ListingIs(order, after.view);
  }

  /** A Ping refreshes a known sender, adds an unknown one as alive under its addresses, and changes nobody else. */
  lemma PingIs(l: Local, from: NodeId, inc: nat, src: Addr, now: nat)
    ensures var l' := Receive(l, Ping(from, inc), src, now);
            && l'.me == l.me && l'.incarnation == l.incarnation && OthersKept(l.view, l'.view, from) && from in l'.view
            && if from in l.view then IsContacted(l.view[from], l'.view[from], inc, now)
               else l'.view[from] == Node(from, src, Addr(src.ip, src.port + 1_000), Alive, inc, Some(now))
  {
  }

  // ---- Acks ----

  /** Listing `i` is about `m` and newer than `base` and than every listing of `m` between `first` and it. */
  ghost predicate IsRecord(base: nat, ns: seq<Node>, first: nat, m: NodeId, i: nat) {
    && first <= i < |ns| && ns[i].id == m && ns[i].incarnation > base
    && forall k :: first <= k < i && ns[k].id == m ==> ns[k].incarnation < ns[i].incarnation
  }

  /** Listing `i` is the last record, or the first that says dead: nothing after it counts. */
  ghost predicate Decides(base: nat, ns: seq<Node>, first: nat, m: NodeId, i: nat) {
    && IsRecord(base, ns, first, m, i)
    && (forall k: nat :: k < i && IsRecord(base, ns, first, m, k) ==> ns[k].state != Dead)
    && (ns[i].state == Dead || forall k: nat :: k > i ==> !IsRecord(base, ns, first, m, k))
  }

  /** `after` is what the listings of `m` from `first` on make of `before`. */
  ghost predicate IsMerged(before: Node, after: Node, ns: seq<Node>, first: nat, m: NodeId, now: nat) {
    if before.state == Dead then after == before
    else
      || (after == before && forall i: nat :: !IsRecord(before.incarnation, ns, first, m, i))
      || exists i: nat :: Decides(before.incarnation, ns, first, m, i)
                  && after == before.(state := ns[i].state, incarnation := ns[i].incarnation, lastSeen := Some(now))
  }

  /** No listing counted so far is newer than the entry, unless it is dead. */
  ghost predicate UpToDate(after: Node, ns: seq<Node>, first: nat, m: NodeId) {
    after.state == Dead || forall k :: first <= k < |ns| && ns[k].id == m ==> ns[k].incarnation <= after.incarnation
  }

  lemma RecordSnoc(base: nat, ns: seq<Node>, first: nat, m: NodeId, i: nat)
    requires ns != [] && i < |ns| - 1
    ensures IsRecord(base, ns, first, m, i) <==> IsRecord(base, ns[..|ns| - 1], first, m, i)
  {
  }

  /** One more listing. */
  lemma MergedSnoc(before: Node, mid: Node, after: Node, ns: seq<Node>, first: nat, m: NodeId, now: nat)
    requires ns != [] && first < |ns| && mid.id == before.id
    requires IsMerged(before, mid, ns[..|ns| - 1], first, m, now) && UpToDate(mid, ns[..|ns| - 1], first, m)
    requires before.incarnation <= mid.incarnation
    requires var n := ns[|ns| - 1];
             after == if n.id == m && mid.state != Dead && n.incarnation > mid.incarnation
                      then mid.(state := n.state, incarnation := n.incarnation, lastSeen := Some(now)) else mid
    ensures IsMerged(before, after, ns, first, m, now) && UpToDate(after, ns, first, m) && before.incarnation <= after.incarnation
  {
    var k, init, base := |ns| - 1, ns[..|ns| - 1], before.incarnation;
    assert forall i: nat :: i < k ==> init[i] == ns[i];
    forall i: nat | i < k ensures IsRecord(base, ns, first, m, i) <==> IsRecord(base, init, first, m, i) {
      RecordSnoc(base, ns, first, m, i);
    }
    if before.state != Dead {
      if after != mid || (ns[k].id == m && mid.state != Dead && ns[k].incarnation > mid.incarnation) {
        assert IsRecord(base, ns, first, m, k);
        NoDeadRecord(before, mid, init, first, m, now);
        assert Decides(base, ns, first, m, k);
      } else {
        MergedStays(before, mid, ns, first, m, now);
      }
    }
  }

  /** While the entry is not dead, no record said so. */
  lemma NoDeadRecord(before: Node, mid: Node, ns: seq<Node>, first: nat, m: NodeId, now: nat)
    requires IsMerged(before, mid, ns, first, m, now) && before.state != Dead && mid.state != Dead
    ensures forall i: nat :: IsRecord(before.incarnation, ns, first, m, i) ==> ns[i].state != Dead
  {
  }

  /** A listing that is not newer, or comes after death, changes nothing. */
  lemma MergedStays(before: Node, mid: Node, ns: seq<Node>, first: nat, m: NodeId, now: nat)
    requires ns != [] && first < |ns| && before.state != Dead && before.incarnation <= mid.incarnation
    requires IsMerged(before, mid, ns[..|ns| - 1], first, m, now)
    requires UpToDate(mid, ns[..|ns| - 1], first, m)
    requires mid.state == Dead || ns[|ns| - 1].id != m || ns[|ns| - 1].incarnation <= mid.incarnation
    ensures IsMerged(before, mid, ns, first, m, now)
  {
    var k, init, base := |ns| - 1, ns[..|ns| - 1], before.incarnation;
    forall i: nat | i < k ensures IsRecord(base, ns, first, m, i) <==> IsRecord(base, init, first, m, i) {
      RecordSnoc(base, ns, first, m, i);
    }
    if i: nat :| Decides(base, init, first, m, i)
                 && mid == before.(state := init[i].state, incarnation := init[i].incarnation, lastSeen := Some(now)) {
      assert init[i] == ns[i];
      assert Decides(base, ns, first, m, i);
    }
  }

  /** The first listing of `m` that does not say dead. */
  ghost predicate FirstLiving(ns: seq<Node>, m: NodeId, f: nat) {
    && f < |ns| && ns[f].id == m && ns[f].state != Dead
    && forall k :: 0 <= k < f && ns[k].id == m ==> ns[k].state == Dead
  }

  lemma {:induction false} MergeKnown(v: View, ns: seq<Node>, now: nat, m: NodeId)
    requires m in v
    ensures var w := OnMergeAll(v, ns, now);
            && m in w && w[m].id == v[m].id && v[m].incarnation <= w[m].incarnation
            && IsMerged(v[m], w[m], ns, 0, m, now) && UpToDate(w[m], ns, 0, m)
  {
    if ns != [] {
      MergeKnown(v, ns[..|ns| - 1], now, m);
      MergedSnoc(v[m], OnMergeAll(v, ns[..|ns| - 1], now)[m], OnMergeAll(v, ns, now)[m], ns, 0, m, now);
    }
  }

  lemma {:induction false} MergeDead(v: View, ns: seq<Node>, now: nat, m: NodeId)
    requires m !in v && forall i :: 0 <= i < |ns| && ns[i].id == m ==> ns[i].state == Dead
    ensures m !in OnMergeAll(v, ns, now)
  {
    if ns != [] {
      MergeDead(v, ns[..|ns| - 1], now, m);
    }
  }

  lemma {:induction false} MergeUnknown(v: View, ns: seq<Node>, now: nat, m: NodeId, f: nat)
    requires m !in v && FirstLiving(ns, m, f)
    ensures var w, first := OnMergeAll(v, ns, now), ns[f].(lastSeen := Some(now));
            && m in w && w[m].id == first.id && first.incarnation <= w[m].incarnation
            && IsMerged(first, w[m], ns, f + 1, m, now) && UpToDate(w[m], ns, f + 1, m)
  {
    var init := ns[..|ns| - 1];
    if f == |ns| - 1 {
      MergeDead(v, init, now, m);
      var base, next := ns[f].incarnation, f + 1;
      assert forall i: nat :: !IsRecord(base, ns, next, m, i);
    } else {
      assert init[f] == ns[f] && FirstLiving(init, m, f);
      MergeUnknown(v, init, now, m, f);
      MergedSnoc(ns[f].(lastSeen := Some(now)), OnMergeAll(v, init, now)[m], OnMergeAll(v, ns, now)[m], ns, f + 1, m, now);
    }
  }

  /**
   An Ack, for every identifier `m`. From a sender held dead it is ignored. Otherwise the sender counts as contacted,
   and then the listings of `m` are merged: into its entry if it is known, else from its first listing that does not
   say dead, with its addresses; if there is none, `m` stays unknown.
   */
  lemma AckIs(l: Local, from: NodeId, inc: nat, ns: seq<Node>, src: Addr, now: nat, m: NodeId)
    ensures var l' := Receive(l, Ack(from, inc, ns), src, now);
            if from in l.view && l.view[from].state == Dead then l' == l
            else
              && l'.me == l.me && l'.incarnation == l.incarnation
              && (m in l.view ==> m in l'.view && exists mid ::
                    && (if m == from then IsContacted(l.view[m], mid, inc, now) else mid == l.view[m])
                    && IsMerged(mid, l'.view[m], ns, 0, m, now))
              && (m !in l.view ==>
                    && ((forall i :: 0 <= i < |ns| && ns[i].id == m ==> ns[i].state == Dead) ==> m !in l'.view)
                    && (forall f: nat :: FirstLiving(ns, m, f) ==>
                          m in l'.view && IsMerged(ns[f].(lastSeen := Some(now)), l'.view[m], ns, f + 1, m, now)))
  {
    if !(from in l.view && l.view[from].state == Dead) {
      var v := if from in l.view then l.view[from := Contacted(l.view[from], inc, now)] else l.view;
      if m in l.view {
        MergeKnown(v, ns, now, m);
        assert m == from ==> IsContacted(l.view[m], v[m], inc, now);
      } else {
        if forall i :: 0 <= i < |ns| && ns[i].id == m ==> ns[i].state == Dead {
          MergeDead(v, ns, now, m);
        }
        forall f: nat | FirstLiving(ns, m, f)
          ensures m in OnMergeAll(v, ns, now)
          ensures IsMerged(ns[f].(lastSeen := Some(now)), OnMergeAll(v, ns, now)[m], ns, f + 1, m, now)
        {
          MergeUnknown(v, ns, now, m, f);
        }
      }
    }
  }

  lemma {:induction false} LivingExists(ns: seq<Node>, m: NodeId, i: nat) returns (f: nat)
    requires i < |ns| && ns[i].id == m && ns[i].state != Dead
    ensures FirstLiving(ns, m, f) && f <= i
  {
    f := i;
    if k: nat :| k < i && ns[k].id == m && ns[k].state != Dead {
      f := LivingExists(ns, m, k);
    }
  }

  /** Discovery: any listing that does not say dead makes `m` known; unless a later listing is newer, as first so listed. */
  lemma AckDiscovers(l: Local, from: NodeId, inc: nat, ns: seq<Node>, src: Addr, now: nat, m: NodeId, i: nat) returns (f: nat)
    requires !(from in l.view && l.view[from].state == Dead) && m !in l.view
    requires i < |ns| && ns[i].id == m && ns[i].state != Dead
    ensures FirstLiving(ns, m, f) && f <= i
    ensures var l' := Receive(l, Ack(from, inc, ns), src, now);
            && m in l'.view
            && ((forall k :: f < k < |ns| && ns[k].id == m ==> ns[k].incarnation <= ns[f].incarnation) ==>
                  l'.view[m] == ns[f].(lastSeen := Some(now)))
  {
    f := LivingExists(ns, m, i);
    AckIs(l, from, inc, ns, src, now, m);
  }

  /** News: of a known member that is not dead, a listing newer than the entry and than all others is taken over. */
  lemma AckTakesNews(l: Local, from: NodeId, inc: nat, ns: seq<Node>, src: Addr, now: nat, m: NodeId, i: nat)
    requires !(from in l.view && l.view[from].state == Dead) && m in l.view && m != from && l.view[m].state != Dead
    requires i < |ns| && ns[i].id == m && ns[i].incarnation > l.view[m].incarnation
    requires forall k :: 0 <= k < |ns| && k != i && ns[k].id == m ==> ns[k].incarnation <= l.view[m].incarnation
    ensures var l' := Receive(l, Ack(from, inc, ns), src, now);
            m in l'.view
            && l'.view[m] == l.view[m].(state := ns[i].state, incarnation := ns[i].incarnation, lastSeen := Some(now))
  {
    AckIs(l, from, inc, ns, src, now, m);
    assert IsRecord(l.view[m].incarnation, ns, 0, m, i);
  }

  /** One exchange of Ping and Ack: whoever the answering node does not hold dead is known to the asking one afterwards. */
  lemma GossipSpreads(asking: Local, answering: Local, src: Addr, now: nat, out: set<Packet>, p: Packet, later: nat, k: NodeId)
    requires forall x {:trigger answering.view[x]} :: x in answering.view ==> answering.view[x].id == x
    requires Answers(answering, Ping(asking.me, asking.incarnation), src, now, out) && p in out
    requires !(answering.me in asking.view && asking.view[answering.me].state == Dead)
    requires var v := Receive(answering, Ping(asking.me, asking.incarnation), src, now).view;
             k in v && v[k].state != Dead
    ensures k in Receive(asking, p.msg, p.dst, later).view
  {
    var v := Receive(answering, Ping(asking.me, asking.incarnation), src, now).view;
    var ns := AckIsListing(answering, asking.me, asking.incarnation, src, now, out);
    PingIs(answering, asking.me, asking.incarnation, src, now);
    assert v[k].id == k;
    var i: nat :| i < |ns| && ns[i] == v[k].(lastSeen := None);
    ListedIsKnown(asking, answering.me, answering.incarnation, ns, p.dst, later, k, i);
  }

  lemma ListedIsKnown(l: Local, from: NodeId, inc: nat, ns: seq<Node>, src: Addr, now: nat, m: NodeId, i: nat)
    requires !(from in l.view && l.view[from].state == Dead) && i < |ns| && ns[i].id == m && ns[i].state != Dead
    ensures m in Receive(l, Ack(from, inc, ns), src, now).view
  {
    AckIs(l, from, inc, ns, src, now, m);
    if m !in l.view {
      var f := AckDiscovers(l, from, inc, ns, src, now, m, i);
    }
  }

  // ---- Suspicions and refutations ----

  /** Who is sent a broadcast: every other member alive in the view, once. */
  ghost predicate IsBroadcast(out: set<Packet>, v: View, me: NodeId, msg: GossipMessage) {
    forall p :: p in out <==> exists k :: k in v && v[k].id != me && v[k].state == Alive && p == Packet(v[k].gossipAddr, msg)
  }

  lemma BroadcastIs(v: View, me: NodeId, msg: GossipMessage)
    ensures IsBroadcast(Broadcast(v, me, msg), v, me, msg)
  {
  }

  /**
   A suspicion counts if it is newer than the entry of a known member that is not dead. Another member becomes suspect.
   The local node raises its counter by one, takes it over in its entry, stays alive and tells every living member.
   */
  lemma SuspicionIs(l: Local, id: NodeId, inc: nat, src: Addr, now: nat, out: set<Packet>)
    requires Answers(l, Suspicion(id, inc), src, now, out)
    ensures var l' := Receive(l, Suspicion(id, inc), src, now);
            if id !in l.view || l.view[id].state == Dead || inc <= l.view[id].incarnation then l' == l && out == {}
            else
              && l'.me == l.me && OthersKept(l.view, l'.view, id) && id in l'.view
              && if l.view[id].id == l.me then
                   && l'.incarnation == l.incarnation + 1
                   && l'.view[id] == l.view[id].(incarnation := l.incarnation + 1, state := Alive, lastSeen := Some(now))
                   && IsBroadcast(out, l'.view, l.me, Refutation(id, l.incarnation + 1))
                 else
                   && l'.incarnation == l.incarnation && out == {}
                   && l'.view[id] == l.view[id].(state := Suspect, incarnation := inc, lastSeen := Some(now))
  {
    BroadcastIs(Receive(l, Suspicion(id, inc), src, now).view, l.me, Refutation(id, l.incarnation + 1));
  }

  /** A refutation counts if it is newer, or as new and the member is suspect; the dead stay dead. */
  lemma RefutationIs(l: Local, id: NodeId, inc: nat, src: Addr, now: nat, out: set<Packet>)
    requires Answers(l, Refutation(id, inc), src, now, out)
    ensures var l' := Receive(l, Refutation(id, inc), src, now);
            && l'.me == l.me && l'.incarnation == l.incarnation && out == {}
            && if id in l.view && l.view[id].state != Dead
                  && (inc > l.view[id].incarnation || (inc == l.view[id].incarnation && l.view[id].state == Suspect))
               then OthersKept(l.view, l'.view, id) && id in l'.view
                    && l'.view[id] == l.view[id].(state := Alive, incarnation := inc, lastSeen := Some(now))
               else l'.view == l.view
  {
  }

  // ---- The detector ----

  /** What one pass makes of a remote member: alive to suspect after 5 s, suspect to dead after 10 s, one step a pass. */
  ghost predicate IsInspected(before: Node, after: Node, now: nat) {
    match before.lastSeen
    case None => after == if before.state == Dead then before else before.(lastSeen := Some(now))
    case Some(seen) =>
      after == before.(state :=
        if before.state == Alive && now > seen + 5_000 then Suspect
        else if before.state == Suspect && now > seen + 10_000 then Dead
        else before.state)
  }

  lemma PassIs(v: View, me: NodeId, now: nat, k: NodeId)
    ensures var w := Detect(v, me, now);
            (k in w <==> k in v) && (k in v ==> if v[k].id == me then w[k] == v[k] else IsInspected(v[k], w[k], now))
  {
  }

  /** The pass begins to suspect `m`, and `p` tells `k` of it, who is still alive after the pass. */
  ghost predicate IsAlarm(v: View, w: View, me: NodeId, now: nat, m: NodeId, k: NodeId, p: Packet) {
    && m in v && v[m].id != me && v[m].state == Alive && v[m].lastSeen.Some? && now > v[m].lastSeen.value + 5_000
    && k in w && w[k].id != me && w[k].state == Alive
    && p == Packet(w[k].gossipAddr, Suspicion(v[m].id, v[m].incarnation))
  }

  lemma NewlySuspectIs(n: Node, me: NodeId, now: nat)
    ensures NewlySuspect(n, me, now) <==> n.id != me && n.state == Alive && n.lastSeen.Some? && now > n.lastSeen.value + 5_000
  {
  }

  /** A pass tells every member still alive after it of every member it began to suspect. */
  lemma AlarmIsSent(v: View, me: NodeId, now: nat, m: NodeId, k: NodeId, p: Packet)
    requires IsAlarm(v, Detect(v, me, now), me, now, m, k, p)
    ensures p in AlarmPackets(v, me, now)
  {
    NewlySuspectIs(v[m], me, now);
    assert Suspicion(v[m].id, v[m].incarnation) in Alarms(v, v.Keys, me, now);
    assert p in Broadcast(Detect(v, me, now), me, Suspicion(v[m].id, v[m].incarnation));
  }

  /** And it sends nothing else. */
  lemma SentIsAlarm(v: View, me: NodeId, now: nat, p: Packet) returns (m: NodeId, k: NodeId)
    requires p in AlarmPackets(v, me, now)
    ensures IsAlarm(v, Detect(v, me, now), me, now, m, k, p)
  {
    var w := Detect(v, me, now);
    var msg :| msg in Alarms(v, v.Keys, me, now) && p in Broadcast(w, me, msg);
    m :| m in v && NewlySuspect(v[m], me, now) && msg == Suspicion(v[m].id, v[m].incarnation);
    NewlySuspectIs(v[m], me, now);
    k :| k in w && w[k].id != me && w[k].state == Alive && p == Packet(w[k].gossipAddr, msg);
  }

  /** The members other services see. */
  lemma AliveIs(v: View, k: NodeId)
    ensures k in AliveKeys(v) <==> k in v && v[k].state == Alive
  {
  }
}
