/**
 Timing of the failure detector over whole runs, at one node and then at every node of
 a cluster. Times are milliseconds; the detector passes of a run are its `Pass` events.
 */
module FailureDetector {
  import opened Common
  import opened NodeOrder
  import opened MembershipSpec
  import opened MembershipRuns
  import opened GossipCluster

  /** Events happen in the order of their times. */
  ghost predicate Timely(ts: seq<Timed>) {
    forall i, j :: 0 <= i < j < |ts| ==> ts[i].at <= ts[j].at
  }

  /** A Ping or Ack sent by `m`. */
  ghost predicate Contact(t: Timed, m: NodeId) {
    && t.event.Recv?
    && ((t.event.msg.Ping? && t.event.msg.from == m) || (t.event.msg.Ack? && t.event.msg.from == m))
  }

  /** The event says nothing new about `m`, known at incarnation `inc`. */
  ghost predicate NoNews(t: Timed, m: NodeId, inc: nat) {
    match t.event
    case Pass => true
    case Recv(Ping(_, i), _) => t.event.msg.from == m ==> i <= inc
    case Recv(Ack(from, i, ns), _) =>
      && (from == m ==> i <= inc)
      && forall k :: 0 <= k < |ns| && ns[k].id == m ==> ns[k].incarnation <= inc
    case Recv(Join(n), _) => n.id != m
    case Recv(Suspicion(id, i), _) => id == m ==> i <= inc
    case Recv(Refutation(id, i), _) => id == m ==> i < inc
  }

  /** Detector passes are dense: every window of length `gap` between `from` and `to` contains one. */
  ghost predicate Dense(ts: seq<Timed>, from: nat, to: nat, gap: nat) {
    forall t: nat :: from <= t && t + gap <= to ==> PassWithin(ts, t, gap)
  }

  ghost predicate PassWithin(ts: seq<Timed>, after: nat, gap: nat) {
    exists i :: 0 <= i < |ts| && ts[i].event.Pass? && after < ts[i].at <= after + gap
  }

  /** A known remote member, not heard of since `seen`. */
  ghost predicate Tracked(l: Local, m: NodeId) {
    Keyed(l.view) && m in l.view && m != l.me && l.view[m].lastSeen.Some?
  }

  lemma {:induction false} MergeAllNoNews(v: View, ns: seq<Node>, now: nat, m: NodeId)
    requires Keyed(v) && m in v
    requires forall k :: 0 <= k < |ns| && ns[k].id == m ==> ns[k].incarnation <= v[m].incarnation
    ensures var w := OnMergeAll(v, ns, now); Keyed(w) && m in w && w[m] == v[m]
  {
    if ns != [] {
      MergeAllNoNews(v, ns[..|ns| - 1], now, m);
    }
  }

  /** Without news of `m` its entry moves only by contact and by the detector. */
  lemma NoNewsStep(l: Local, t: Timed, m: NodeId)
    requires Tracked(l, m) && NoNews(t, m, l.view[m].incarnation)
    ensures var n, l' := l.view[m], Handle(l, t);
            && l'.me == l.me && Keyed(l'.view) && m in l'.view
            && l'.view[m] ==
               if t.event.Pass? then Inspect(n, l.me, t.at)
               else if Contact(t, m) && (t.event.msg.Ping? || n.state != Dead) then n.(lastSeen := Some(t.at))
               else n
  {
    if t.event.Recv? && t.event.msg.Ack? {
      var Ack(from, inc, ns) := t.event.msg;
      if !(from in l.view && l.view[from].state == Dead) {
        var v := if from in l.view then l.view[from := Contacted(l.view[from], inc, t.at)] else l.view;
        assert v[m].incarnation == l.view[m].incarnation;
        MergeAllNoNews(v, ns, t.at, m);
      }
    }
  }

  // ---- A silent member is demoted in time ----

  ghost predicate Silent(ts: seq<Timed>, m: NodeId, inc: nat) {
    forall i :: 0 <= i < |ts| ==> NoNews(ts[i], m, inc) && !Contact(ts[i], m)
  }

  /** The detector's verdict on a member last heard of at `seen`, after the passes in `ts`. */
  ghost predicate Demoted(n: Node, ts: seq<Timed>, seen: nat) {
    && (forall i :: 0 <= i < |ts| && ts[i].event.Pass? && ts[i].at > seen + SUSPECT_TIMEOUT ==> n.state != Alive)
    && (forall i, j ::
          (0 <= i < j < |ts| && ts[i].event.Pass? && ts[j].event.Pass?
           && ts[i].at > seen + SUSPECT_TIMEOUT && ts[j].at > seen + DEAD_TIMEOUT)
          ==> n.state == Dead)
  }

  lemma {:induction false} SilentRun(l: Local, ts: seq<Timed>, m: NodeId)
    requires Tracked(l, m) && Silent(ts, m, l.view[m].incarnation)
    ensures var l' := LocalRun(l, ts);
            && Tracked(l', m) && l'.me == l.me
            && l'.view[m].incarnation == l.view[m].incarnation && l'.view[m].lastSeen == l.view[m].lastSeen
            && Demoted(l'.view[m], ts, l.view[m].lastSeen.value)
  {
    if ts != [] {
      var init, last := ts[..|ts| - 1], ts[|ts| - 1];
      SilentRun(l, init, m);
      NoNewsStep(LocalRun(l, init), last, m);
      DemotedSnoc(LocalRun(l, init).view[m], LocalRun(l, ts).view[m], init, last, l.view[m].lastSeen.value, l.me);
      assert init + [last] == ts;
    }
  }

  lemma DemotedSnoc(n: Node, n': Node, init: seq<Timed>, last: Timed, seen: nat, me: NodeId)
    requires Demoted(n, init, seen) && n.id != me && n.lastSeen == Some(seen)
    requires n' == if last.event.Pass? then Inspect(n, me, last.at) else n
    ensures Demoted(n', init + [last], seen)
  {
    var ts := init + [last];
    forall i, j | 0 <= i < j < |ts| && ts[i].event.Pass? && ts[j].event.Pass?
        && ts[i].at > seen + SUSPECT_TIMEOUT && ts[j].at > seen + DEAD_TIMEOUT
      ensures n'.state == Dead
    {
      assert ts[i] == init[i];
      if j < |init| { assert ts[j] == init[j]; }
    }
    forall i | 0 <= i < |ts| && ts[i].event.Pass? && ts[i].at > seen + SUSPECT_TIMEOUT
      ensures n'.state != Alive
    {
      if i < |init| { assert ts[i] == init[i]; }
    }
  }

  /**
   With detector passes at most `gap` apart, a silent member is no longer alive `5 s + gap` after its last
   contact and dead `10 s + gap` after it: 7 s and 12 s for the detector's interval of 2 s.
   */
  lemma SilentMemberDies(l: Local, ts: seq<Timed>, m: NodeId, gap: nat, end: nat)
    requires Tracked(l, m) && Silent(ts, m, l.view[m].incarnation) && Timely(ts)
    requires gap <= DEAD_TIMEOUT - SUSPECT_TIMEOUT
    requires Dense(ts, l.view[m].lastSeen.value, end, gap)
    ensures m in LocalRun(l, ts).view
    ensures end >= l.view[m].lastSeen.value + SUSPECT_TIMEOUT + gap ==> LocalRun(l, ts).view[m].state != Alive
    ensures end >= l.view[m].lastSeen.value + DEAD_TIMEOUT + gap ==> LocalRun(l, ts).view[m].state == Dead
  {
    SilentRun(l, ts, m);
    var seen := l.view[m].lastSeen.value;
    if end >= seen + SUSPECT_TIMEOUT + gap {
      assert PassWithin(ts, seen + SUSPECT_TIMEOUT, gap);
      var i :| 0 <= i < |ts| && ts[i].event.Pass?
               && seen + SUSPECT_TIMEOUT < ts[i].at <= seen + SUSPECT_TIMEOUT + gap;
      if end >= seen + DEAD_TIMEOUT + gap {
        assert PassWithin(ts, seen + DEAD_TIMEOUT, gap);
        var j :| 0 <= j < |ts| && ts[j].event.Pass?
                 && seen + DEAD_TIMEOUT < ts[j].at <= seen + DEAD_TIMEOUT + gap;
        assert i < j;
      }
    }
  }

  // ---- A member heard from recently is not demoted ----

  /** The entry was refreshed at or after time `h`. */
  ghost predicate SeenSince(l: Local, m: NodeId, h: nat) {
    m in l.view && l.view[m].lastSeen.Some? && l.view[m].lastSeen.value >= h
  }

  lemma {:induction false} MergeAllSeen(v: View, ns: seq<Node>, now: nat, m: NodeId, h: nat)
    requires m in v && v[m].lastSeen.Some? && v[m].lastSeen.value >= h && now >= h
    ensures var w := OnMergeAll(v, ns, now); m in w && w[m].lastSeen.Some? && w[m].lastSeen.value >= h
  {
    if ns != [] { MergeAllSeen(v, ns[..|ns| - 1], now, m, h); }
  }

  lemma SeenStep(l: Local, t: Timed, m: NodeId, h: nat)
    requires SeenSince(l, m, h) && t.at >= h
    ensures SeenSince(Handle(l, t), m, h) && Handle(l, t).me == l.me
  {
    if t.event.Recv? && t.event.msg.Ack? {
      var Ack(from, inc, ns) := t.event.msg;
      var v := if from in l.view then l.view[from := Contacted(l.view[from], inc, t.at)] else l.view;
      MergeAllSeen(v, ns, t.at, m, h);
    }
  }

  lemma {:induction false} SeenRun(l: Local, ts: seq<Timed>, m: NodeId, h: nat)
    requires SeenSince(l, m, h) && forall i :: 0 <= i < |ts| ==> ts[i].at >= h
    ensures SeenSince(LocalRun(l, ts), m, h)
  {
    if ts != [] {
      SeenRun(l, ts[..|ts| - 1], m, h);
      SeenStep(LocalRun(l, ts[..|ts| - 1]), ts[|ts| - 1], m, h);
    }
  }

  /** `t` refreshes `m` when handled in state `l`. */
  ghost predicate Refreshes(l: Local, t: Timed, m: NodeId) {
    Contact(t, m) && (t.event.msg.Ping? || (m in l.view && l.view[m].state != Dead))
  }

  lemma RefreshSeen(l: Local, t: Timed, m: NodeId)
    requires Refreshes(l, t, m)
    ensures SeenSince(Handle(l, t), m, t.at)
  {
    if t.event.msg.Ack? {
      var Ack(from, inc, ns) := t.event.msg;
      MergeAllSeen(l.view[from := Contacted(l.view[from], inc, t.at)], ns, t.at, m, t.at);
    }
  }

  lemma {:induction false} LocalRunSplit(l: Local, ts: seq<Timed>, us: seq<Timed>)
    ensures LocalRun(l, ts + us) == LocalRun(LocalRun(l, ts), us)
  {
    if us == [] {
      assert ts + us == ts;
    } else {
      LocalRunSplit(l, ts, us[..|us| - 1]);
      assert (ts + us)[..|ts + us| - 1] == ts + us[..|us| - 1];
    }
  }

  /**
   In any run, whatever else is received: a detector pass does not demote a member that was in contact
   at most 5 s before, and does not declare dead one that was in contact at most 10 s before.
   */
  lemma HeardNotDemoted(l: Local, ts: seq<Timed>, m: NodeId, i: nat)
    requires i < |ts| - 1 && Timely(ts) && ts[|ts| - 1].event.Pass?
    requires Refreshes(LocalRun(l, ts[..i]), ts[i], m)
    ensures var before, after := LocalRun(l, ts[..|ts| - 1]).view, LocalRun(l, ts).view;
            && m in before && m in after
            && (ts[|ts| - 1].at - ts[i].at <= SUSPECT_TIMEOUT ==> after[m].state == before[m].state)
            && (ts[|ts| - 1].at - ts[i].at <= DEAD_TIMEOUT && after[m].state == Dead ==> before[m].state == Dead)
  {
    var last := |ts| - 1;
    SeenUntil(l, ts, m, i);
    PassSpares(LocalRun(l, ts[..last]), m, ts[i].at, ts[last].at);
    assert LocalRun(l, ts) == Handle(LocalRun(l, ts[..last]), ts[last]);
  }

  /** A refresh shows in the entry until the last event. */
  lemma SeenUntil(l: Local, ts: seq<Timed>, m: NodeId, i: nat)
    requires i < |ts| - 1 && Timely(ts) && Refreshes(LocalRun(l, ts[..i]), ts[i], m)
    ensures SeenSince(LocalRun(l, ts[..|ts| - 1]), m, ts[i].at)
  {
    var last := |ts| - 1;
    assert ts[..i + 1][..i] == ts[..i];
    RefreshSeen(LocalRun(l, ts[..i]), ts[i], m);
    assert ts[..last] == ts[..i + 1] + ts[i + 1..last];
    LocalRunSplit(l, ts[..i + 1], ts[i + 1..last]);
    SeenRun(LocalRun(l, ts[..i + 1]), ts[i + 1..last], m, ts[i].at);
  }

  /** One pass of the detector over an entry refreshed at or after `h`. */
  lemma PassSpares(l: Local, m: NodeId, h: nat, now: nat)
    requires SeenSince(l, m, h)
    ensures var after := Handle(l, Timed(now, Pass)).view;
            && m in after
            && (now - h <= SUSPECT_TIMEOUT ==> after[m].state == l.view[m].state)
            && (now - h <= DEAD_TIMEOUT && after[m].state == Dead ==> l.view[m].state == Dead)
  {
  }

  // ---- Regular contact freezes the state: the alive stay alive, and the suspected stay suspected ----

  function Patience(s: NodeState): nat {
    if s == Alive then SUSPECT_TIMEOUT else DEAD_TIMEOUT
  }

  /** Before the pass at index `j`, `m` was in contact at most `limit` ago (or first seen then). */
  ghost predicate InTouch(ts: seq<Timed>, j: nat, m: NodeId, seen: nat, limit: nat)
    requires j < |ts|
  {
    || ts[j].at <= seen + limit
    || exists i :: 0 <= i < j && Contact(ts[i], m) && ts[j].at <= ts[i].at + limit
  }

  ghost predicate SteadyContact(ts: seq<Timed>, m: NodeId, inc: nat, seen: nat, limit: nat) {
    && (forall i :: 0 <= i < |ts| ==> NoNews(ts[i], m, inc) && ts[i].at >= seen)
    && (forall j :: 0 <= j < |ts| && ts[j].event.Pass? ==> InTouch(ts, j, m, seen, limit))
  }

  /** The entry's contact time is at least `seen` and every contact so far. */
  ghost predicate UpToDate(n: Node, ts: seq<Timed>, m: NodeId, seen: nat) {
    && n.lastSeen.Some? && n.lastSeen.value >= seen
    && forall i :: 0 <= i < |ts| && Contact(ts[i], m) ==> n.lastSeen.value >= ts[i].at
  }

  lemma SteadyPrefix(ts: seq<Timed>, m: NodeId, inc: nat, seen: nat, limit: nat)
    requires ts != [] && SteadyContact(ts, m, inc, seen, limit) && Timely(ts)
    ensures SteadyContact(ts[..|ts| - 1], m, inc, seen, limit) && Timely(ts[..|ts| - 1])
  {
    var init := ts[..|ts| - 1];
    forall j | 0 <= j < |init| && init[j].event.Pass? ensures InTouch(init, j, m, seen, limit) {
      assert InTouch(ts, j, m, seen, limit);
      if ts[j].at > seen + limit {
        var i :| 0 <= i < j && Contact(ts[i], m) && ts[j].at <= ts[i].at + limit;
        assert init[i] == ts[i];
      }
    }
  }

  /** A pass at the end of steady contact comes within the limit of the entry's contact time. */
  lemma PassInTouch(n: Node, ts: seq<Timed>, m: NodeId, seen: nat, limit: nat)
    requires ts != [] && UpToDate(n, ts[..|ts| - 1], m, seen) && InTouch(ts, |ts| - 1, m, seen, limit)
    ensures ts[|ts| - 1].at <= n.lastSeen.value + limit
  {
    var k := |ts| - 1;
    if ts[k].at > seen + limit {
      var i :| 0 <= i < k && Contact(ts[i], m) && ts[k].at <= ts[i].at + limit;
      assert ts[..k][i] == ts[i];
    }
  }

  lemma UpToDateSnoc(n: Node, n': Node, ts: seq<Timed>, m: NodeId, seen: nat)
    requires ts != [] && UpToDate(n, ts[..|ts| - 1], m, seen) && Timely(ts) && ts[|ts| - 1].at >= seen
    requires n'.lastSeen == if Contact(ts[|ts| - 1], m) then Some(ts[|ts| - 1].at) else n.lastSeen
    ensures UpToDate(n', ts, m, seen)
  {
    var k := |ts| - 1;
    forall i | 0 <= i < |ts| && Contact(ts[i], m) ensures n'.lastSeen.value >= ts[i].at {
      if i < k { assert ts[..k][i] == ts[i]; }
    }
  }

  lemma {:induction false} SteadyRun(l: Local, ts: seq<Timed>, m: NodeId)
    requires Tracked(l, m) && l.view[m].state != Dead && Timely(ts)
    requires SteadyContact(ts, m, l.view[m].incarnation, l.view[m].lastSeen.value, Patience(l.view[m].state))
    ensures var l' := LocalRun(l, ts);
            && Tracked(l', m) && l'.me == l.me
            && l'.view[m].state == l.view[m].state && l'.view[m].incarnation == l.view[m].incarnation
            && UpToDate(l'.view[m], ts, m, l.view[m].lastSeen.value)
  {
    if ts != [] {
      var k := |ts| - 1;
      var init, seen, limit := ts[..k], l.view[m].lastSeen.value, Patience(l.view[m].state);
      SteadyPrefix(ts, m, l.view[m].incarnation, seen, limit);
      SteadyRun(l, init, m);
      NoNewsStep(LocalRun(l, init), ts[k], m);
      if ts[k].event.Pass? {
        assert InTouch(ts, k, m, seen, limit);
        PassInTouch(LocalRun(l, init).view[m], ts, m, seen, limit);
      }
      UpToDateSnoc(LocalRun(l, init).view[m], LocalRun(l, ts).view[m], ts, m, seen);
    }
  }

  /**
   A member in steady contact keeps its state. For an alive member this is the detector's promise; a suspected
   member in contact at least every 10 s stays suspected for ever: contact alone does not clear a suspicion.
   */
  lemma SteadyContactFreezes(l: Local, ts: seq<Timed>, m: NodeId)
    requires Tracked(l, m) && l.view[m].state != Dead && Timely(ts)
    requires SteadyContact(ts, m, l.view[m].incarnation, l.view[m].lastSeen.value, Patience(l.view[m].state))
    ensures m in LocalRun(l, ts).view && LocalRun(l, ts).view[m].state == l.view[m].state
  {
    SteadyRun(l, ts, m);
  }

  // ---- In a cluster ----

  /** The events of node `n` in a run of the cluster. */
  ghost function Project(c: Cluster, steps: seq<Step>, n: NodeId): seq<Timed> {
    if steps == [] then []
    else
      var k := |steps| - 1;
      Project(c, steps[..k], n) + (if Enabled(RunFrom(c, steps[..k]), steps[k]) then EventOf(steps[k], n) else [])
  }

  ghost function EventOf(s: Step, n: NodeId): seq<Timed> {
    match s
    case Deliver(to, msg, src, now, _) => if to == n then [Timed(now, Recv(msg, src))] else []
    case Tick(id, now) => if id == n then [Timed(now, Pass)] else []
    case _ => []
  }

  lemma LocalRunSnoc(l: Local, ts: seq<Timed>, t: Timed)
    ensures LocalRun(l, ts + [t]) == Handle(LocalRun(l, ts), t)
  {
    assert (ts + [t])[..|ts|] == ts;
  }

  lemma ProjectSnoc(c: Cluster, steps: seq<Step>, n: NodeId)
    requires steps != []
    ensures var k := |steps| - 1;
            Project(c, steps, n) == Project(c, steps[..k], n)
              + (if Enabled(RunFrom(c, steps[..k]), steps[k]) then EventOf(steps[k], n) else [])
  {
  }

  lemma ProjectStep(l0: Local, ts: seq<Timed>, s: Step, n: NodeId)
    requires LocalRun(l0, ts).me == n
    ensures LocalRun(l0, ts + EventOf(s, n)) == LocalStep(LocalRun(l0, ts), n, s)
  {
    if EventOf(s, n) == [] {
      assert ts + EventOf(s, n) == ts;
    } else {
      assert EventOf(s, n) == [EventOf(s, n)[0]];
      LocalRunSnoc(l0, ts, EventOf(s, n)[0]);
    }
  }

  lemma NodeKeepsName(c: Cluster, steps: seq<Step>, n: NodeId)
    requires Inv(c) && n in RunFrom(c, steps).nodes
    ensures RunFrom(c, steps).nodes[n].me == n
  {
    RunKeepsInv(c, steps);
    assert LocalOk(RunFrom(c, steps).nodes.Keys, n, RunFrom(c, steps).nodes[n]);
  }

  /** A node of a cluster run is the local run of its own events. */
  lemma {:induction false} ProjectIsLocalRun(c: Cluster, steps: seq<Step>, n: NodeId)
    requires Inv(c) && n in c.nodes
    ensures n in RunFrom(c, steps).nodes && RunFrom(c, steps).nodes[n] == LocalRun(c.nodes[n], Project(c, steps, n))
  {
    if steps != [] {
      var k := |steps| - 1;
      ProjectIsLocalRun(c, steps[..k], n);
      NodeKeepsName(c, steps[..k], n);
      ApplyLocal(RunFrom(c, steps[..k]), steps[k], n);
      ProjectSnoc(c, steps, n);
      var ts := Project(c, steps[..k], n);
      if Enabled(RunFrom(c, steps[..k]), steps[k]) {
        ProjectStep(c.nodes[n], ts, steps[k], n);
      } else {
        assert ts + [] == ts;
      }
    }
  }

  /** What a node receives in a cluster run was sent by nodes that keep the invariant. */
  lemma {:induction false} ProjectIsModest(c: Cluster, steps: seq<Step>, n: NodeId, i: nat)
    requires Inv(c) && i < |Project(c, steps, n)| && Project(c, steps, n)[i].event.Recv?
    ensures ModestMessage(Project(c, steps, n)[i].event.msg)
  {
    if steps != [] {
      var k := |steps| - 1;
      var mid, s := RunFrom(c, steps[..k]), steps[k];
      ProjectSnoc(c, steps, n);
      if i < |Project(c, steps[..k], n)| {
        ProjectIsModest(c, steps[..k], n, i);
      } else {
        RunKeepsInv(c, steps[..k]);
        assert MessageOk(mid.nodes.Keys, s.msg);
      }
    }
  }

  /** A message of a reachable cluster: every incarnation it mentions is the first one, and it is no refutation. */
  ghost predicate ModestMessage(msg: GossipMessage) {
    exists ids :: MessageOk(ids, msg)
  }

  /** A message of a reachable cluster other than a Join of `m` brings no news of `m`. */
  lemma ModestIsNoNews(t: Timed, m: NodeId)
    requires t.event.Recv? ==> ModestMessage(t.event.msg)
    requires !JoinsMember(t, m)
    ensures NoNews(t, m, FIRST_INCARNATION)
  {
  }

  /**
   In every run of a cluster: once `m` stops contacting `n` and no Join of it arrives there, then with passes of
   the detector of `n` at most `gap` apart, `n` holds `m` dead `10 s + gap` after it last heard from it.
   */
  lemma ClusterDetectsSilence(steps: seq<Step>, more: seq<Step>, n: NodeId, m: NodeId, gap: nat, end: nat)
    requires n in Run(steps).nodes && m in Run(steps).nodes[n].view && m != n
    requires var ts := Project(Run(steps), more, n);
             && Timely(ts)
             && (forall i :: 0 <= i < |ts| ==> !Contact(ts[i], m) && !JoinsMember(ts[i], m))
             && Run(steps).nodes[n].view[m].lastSeen.Some?
             && Dense(ts, Run(steps).nodes[n].view[m].lastSeen.value, end, gap)
             && end >= Run(steps).nodes[n].view[m].lastSeen.value + DEAD_TIMEOUT + gap
    requires gap <= DEAD_TIMEOUT - SUSPECT_TIMEOUT
    ensures var c := RunFrom(Run(steps), more);
            n in c.nodes && m in c.nodes[n].view && c.nodes[n].view[m].state == Dead
  {
    var c, ts := Run(steps), Project(Run(steps), more, n);
    RunKeepsInv(EMPTY, steps);
    ProjectIsLocalRun(c, more, n);
    assert LocalOk(c.nodes.Keys, n, c.nodes[n]) && EntryOk(c.nodes.Keys, m, c.nodes[n].view[m]);
    forall i | 0 <= i < |ts| ensures NoNews(ts[i], m, FIRST_INCARNATION) {
      if ts[i].event.Recv? { ProjectIsModest(c, more, n, i); }
      ModestIsNoNews(ts[i], m);
    }
    SilentMemberDies(c.nodes[n], ts, m, gap, end);
  }
}
