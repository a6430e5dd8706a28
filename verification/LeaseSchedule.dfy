/**
 When the timing assumption of the lease protocol holds: the entry lifetime of 15 s and the sleep of
 5 s between refresh rounds exclude double ownership if and only if 2 * round + register + release < 10.
 The factor two is the first refresh of a new loop: a loop registered just after a round has queued its
 commands waits for the rest of that round, the sleep and the whole of the next round.
 */
module LeaseSchedule {
  import opened Leases

  // ---------------------------------------------------------------- within the bounds

  predicate Ordinary(b: Bounds) {
    b.round >= 0.0 && b.register >= 0.0 && b.release >= 0.0
  }

  predicate Sufficient(b: Bounds) {
    2.0 * b.round + b.register + b.release < ENTRY_TIMEOUT - UPDATE_INTERVAL
  }

  /** The latest instant at which key k of a running loop is next refreshed, plus the time a close may take. */
  function NextRefresh(r: Refresh, k: Key, b: Bounds): real {
    if r.Sleeping? || (r.Piped? && k in r.keys) then r.due + b.round + b.release
    else r.due + 2.0 * b.round + UPDATE_INTERVAL + b.release
  }

  ghost predicate NodeOnTime(now: real, node: Node, b: Bounds) {
    && now <= node.refresh.due + b.round
    && node.refresh.due <= now + UPDATE_INTERVAL
    && (!node.refresh.Sleeping? ==> node.refresh.due <= now)
    && (forall k | k in node.lease :: node.lease[k] <= now + ENTRY_TIMEOUT)
    && (forall k | k in node.acquired ::
          now <= node.acquired[k] + b.register && k in node.lease && node.acquired[k] + ENTRY_TIMEOUT <= node.lease[k])
    && (forall k | Runs(node, k) :: k in node.lease && NextRefresh(node.refresh, k, b) < node.lease[k])
    && (forall k | k in node.closing :: k in node.lease && node.closing[k] + b.release < node.lease[k])
  }

  ghost predicate OnTime(c: Cluster, b: Bounds) {
    forall n | n in c.nodes :: NodeOnTime(c.now, c.nodes[n], b)
  }

  lemma ExecuteKeepsOnTime(c: Cluster, n: NodeId, b: Bounds)
    requires Ordinary(b) && Sufficient(b)
    requires n in c.nodes && c.nodes[n].refresh.Piped? && NodeOnTime(c.now, c.nodes[n], b)
    ensures NodeOnTime(c.now, NodeAfter(c, c.nodes[n], Execute(n)), b)
  {
    var node, after := c.nodes[n], NodeAfter(c, c.nodes[n], Execute(n));
    forall k | Runs(after, k) ensures k in after.lease && NextRefresh(after.refresh, k, b) < after.lease[k] {
      assert Runs(node, k);
    }
  }

  lemma ReplyKeepsOnTime(c: Cluster, n: NodeId, acknowledged: bool, b: Bounds)
    requires Ordinary(b) && Sufficient(b)
    requires n in c.nodes && c.nodes[n].refresh.Sent? && NodeOnTime(c.now, c.nodes[n], b)
    ensures NodeOnTime(c.now, NodeAfter(c, c.nodes[n], Reply(n, acknowledged)), b)
  {
    var node, after := c.nodes[n], NodeAfter(c, c.nodes[n], Reply(n, acknowledged));
    forall k | Runs(after, k) ensures k in after.lease && NextRefresh(after.refresh, k, b) < after.lease[k] {
      assert Runs(node, k);
    }
  }

  lemma RegisterKeepsOnTime(c: Cluster, n: NodeId, k: Key, b: Bounds)
    requires Ordinary(b) && Sufficient(b)
    requires n in c.nodes && k in c.nodes[n].acquired && NodeOnTime(c.now, c.nodes[n], b)
    ensures NodeOnTime(c.now, NodeAfter(c, c.nodes[n], Register(n, k)), b)
  {
    var node, after := c.nodes[n], NodeAfter(c, c.nodes[n], Register(n, k));
    forall j | Runs(after, j) ensures j in after.lease && NextRefresh(after.refresh, j, b) < after.lease[j] {
      assert j != k ==> Runs(node, j);
    }
  }

  lemma PopKeepsOnTime(c: Cluster, n: NodeId, sid: Sid, b: Bounds)
    requires Ordinary(b) && Sufficient(b)
    requires n in c.nodes && sid in c.nodes[n].loops && NodeOnTime(c.now, c.nodes[n], b)
    ensures NodeOnTime(c.now, NodeAfter(c, c.nodes[n], Pop(n, sid)), b)
  {
    var node, after := c.nodes[n], NodeAfter(c, c.nodes[n], Pop(n, sid));
    assert Runs(node, Key(node.loops[sid], sid));
    forall j | Runs(after, j) ensures j in after.lease && NextRefresh(after.refresh, j, b) < after.lease[j] {
      assert Runs(node, j);
    }
  }

  lemma SnapshotKeepsOnTime(c: Cluster, n: NodeId, b: Bounds)
    requires Ordinary(b) && Sufficient(b)
    requires Enabled(c, Snapshot(n)) && NodeOnTime(c.now, c.nodes[n], b)
    ensures NodeOnTime(c.now, NodeAfter(c, c.nodes[n], Snapshot(n)), b)
  {
    var node, after := c.nodes[n], NodeAfter(c, c.nodes[n], Snapshot(n));
    forall j | Runs(after, j) ensures j in after.lease && NextRefresh(after.refresh, j, b) < after.lease[j] {
      assert Runs(node, j);
      assert j == Key(node.loops[j.sid], j.sid);
    }
  }

  /** The actions that neither queue nor execute a refresh and register or pop no loop. */
  lemma OtherKeepsOnTime(c: Cluster, a: Action, b: Bounds)
    requires Ordinary(b) && Sufficient(b)
    requires a.TryStart? || a.FailStart? || a.FailRefresh? || a.Delete? || a.FailDelete? || a.Join? || a.Leave?
    requires Enabled(c, a) && NodeOnTime(c.now, c.nodes[a.n], b)
    ensures NodeOnTime(c.now, NodeAfter(c, c.nodes[a.n], a), b)
  {
    var node, after := c.nodes[a.n], NodeAfter(c, c.nodes[a.n], a);
    forall j | Runs(after, j) ensures j in after.lease && NextRefresh(after.refresh, j, b) < after.lease[j] {
      assert Runs(node, j);
    }
  }

  lemma TickKeepsOnTime(c: Cluster, t: real, b: Bounds)
    requires OnTime(c, b) && c.now <= t && WithinBounds(c, t, b)
    ensures OnTime(c.(now := t), b)
  {
    forall n | n in c.nodes ensures NodeOnTime(t, c.nodes[n], b) {
      assert NodeOnTime(c.now, c.nodes[n], b) && NodeWithinBounds(c.nodes[n], t, b);
    }
  }

  lemma NodeStepKeepsOnTime(c: Cluster, a: Action, b: Bounds)
    requires Ordinary(b) && Sufficient(b)
    requires !a.Tick? && !a.Boot? && !a.Crash? && Enabled(c, a) && NodeOnTime(c.now, c.nodes[a.n], b)
    ensures NodeOnTime(c.now, NodeAfter(c, c.nodes[a.n], a), b)
  {
    match a
    case Execute(n) => ExecuteKeepsOnTime(c, n, b);
    case Reply(n, acknowledged) => ReplyKeepsOnTime(c, n, acknowledged, b);
    case Register(n, k) => RegisterKeepsOnTime(c, n, k, b);
    case Pop(n, sid) => PopKeepsOnTime(c, n, sid, b);
    case Snapshot(n) => SnapshotKeepsOnTime(c, n, b);
    case _ => OtherKeepsOnTime(c, a, b);
  }

  lemma BootKeepsOnTime(c: Cluster, n: NodeId, b: Bounds)
    requires Ordinary(b) && OnTime(c, b)
    ensures OnTime(Step(c, Boot(n)), b)
  {
  }

  lemma OneNodeChanges(c: Cluster, redis: map<Key, real>, n: NodeId, node: Node, b: Bounds)
    requires OnTime(c, b) && NodeOnTime(c.now, node, b)
    ensures OnTime(Cluster(c.now, redis, c.nodes[n := node]), b)
  {
  }

  lemma StepKeepsOnTime(c: Cluster, a: Action, b: Bounds)
    requires Ordinary(b) && Sufficient(b) && OnTime(c, b)
    requires a.Tick? ==> WithinBounds(c, a.t, b)
    ensures OnTime(Step(c, a), b)
  {
    hide NodeOnTime, NodeAfter, RedisAfter, WithinBounds;
    if Enabled(c, a) {
      if a.Tick? {
        TickKeepsOnTime(c, a.t, b);
      } else if a.Boot? {
        BootKeepsOnTime(c, a.n, b);
      } else if !a.Crash? {
        var node := NodeAfter(c, c.nodes[a.n], a);
        NodeStepKeepsOnTime(c, a, b);
        OneNodeChanges(c, RedisAfter(c, a), a.n, node, b);
      }
    }
  }

  lemma NodeOutlasts(now: real, node: Node, k: Key, t: real, b: Bounds)
    requires Ordinary(b) && Sufficient(b) && NodeOnTime(now, node, b) && NodeWithinBounds(node, t, b)
    requires Holds(node, k)
    ensures k in node.lease && t < node.lease[k]
  {
  }

  lemma OnTimeOutlasts(c: Cluster, t: real, b: Bounds)
    requires Ordinary(b) && Sufficient(b) && OnTime(c, b) && WithinBounds(c, t, b)
    ensures LeasesOutlast(c, t)
  {
    forall n, k | n in c.nodes && Holds(c.nodes[n], k)
      ensures k in c.nodes[n].lease && t < c.nodes[n].lease[k]
    {
      NodeOutlasts(c.now, c.nodes[n], k, t, b);
    }
  }

  /** Sufficient bounds imply the timing assumption, in every run. */
  lemma {:induction false} ScheduledRunsAreTimely(run: seq<Action>, b: Bounds)
    requires Ordinary(b) && Sufficient(b) && Scheduled(run, b)
    ensures Timely(run) && OnTime(After(run), b)
  {
    if run != [] {
      var before, a := run[..|run| - 1], run[|run| - 1];
      ScheduledRunsAreTimely(before, b);
      if a.Tick? { OnTimeOutlasts(After(before), a.t, b); }
      StepKeepsOnTime(After(before), a, b);
    }
  }

  // ---------------------------------------------------------------- outside the bounds

  const CONTESTED := Key("user", "conversation")

  /** A cluster of node 0 alone. */
  function Lone(now: real, redis: map<Key, real>, node: Node): Cluster {
    Cluster(now, redis, map[0 := node])
  }

  lemma Extend(run: seq<Action>, a: Action, b: Bounds) returns (longer: seq<Action>)
    requires Scheduled(run, b)
    requires a.Tick? ==> WithinBounds(After(run), a.t, b)
    ensures Scheduled(longer, b) && After(longer) == Step(After(run), a)
  {
    longer := run + [a];
    assert longer[..|longer| - 1] == run;
  }

  /** A step that node 0 takes alone. */
  lemma Act(run: seq<Action>, a: Action, b: Bounds, now: real, redis: map<Key, real>, node: Node)
    returns (longer: seq<Action>)
    requires Scheduled(run, b) && After(run) == Lone(now, redis, node)
    requires !a.Tick? && !a.Boot? && !a.Crash? && a.n == 0 && Enabled(Lone(now, redis, node), a)
    ensures Scheduled(longer, b)
    ensures var c := Lone(now, redis, node); After(longer) == Lone(now, RedisAfter(c, a), NodeAfter(c, node, a))
  {
    longer := Extend(run, a, b);
    var c := Lone(now, redis, node);
    assert c.nodes[0 := NodeAfter(c, node, a)] == map[0 := NodeAfter(c, node, a)];
  }

  lemma SetNoKeys(entries: map<Key, real>, expiry: real)
    ensures SetKeys(entries, {}, expiry) == entries
  {
  }

  /** A refresh round of a node without loops changes nothing but the time of the next round. */
  lemma EmptyRound(run: seq<Action>, b: Bounds, now: real, redis: map<Key, real>, node: Node)
    returns (longer: seq<Action>)
    requires Scheduled(run, b) && After(run) == Lone(now, redis, node)
    requires node.loops == map[] && node.refresh.Sleeping? && node.refresh.due <= now
    ensures Scheduled(longer, b)
    ensures After(longer) == Lone(now, redis, node.(refresh := Sleeping(now + UPDATE_INTERVAL)))
  {
    longer := Act(run, Snapshot(0), b, now, redis, node);
    assert LoopKeys(node.loops) == {};
    var piped := node.(refresh := Piped(node.refresh.due, {}));
    longer := Act(longer, Execute(0), b, now, redis, piped);
    SetNoKeys(redis, now + ENTRY_TIMEOUT);
    SetNoKeys(node.lease, now + ENTRY_TIMEOUT);
    longer := Act(longer, Reply(0, true), b, now, redis, node.(refresh := Sent(node.refresh.due)));
  }

  lemma TickLone(run: seq<Action>, b: Bounds, now: real, redis: map<Key, real>, node: Node, t: real)
    returns (longer: seq<Action>)
    requires Scheduled(run, b) && After(run) == Lone(now, redis, node)
    requires now <= t && NodeWithinBounds(node, t, b)
    ensures Scheduled(longer, b) && After(longer) == Lone(t, redis, node)
  {
    longer := Extend(run, Tick(t), b);
  }

  /** Node 0 whose SET NX won at `since`, with its next refresh round due at `due`. */
  function Winner(since: real, due: real): Node {
    Node(map[CONTESTED := since], map[], map[], map[], Sleeping(due), map[CONTESTED := since + ENTRY_TIMEOUT])
  }

  function WonEntry(since: real): map<Key, real> { map[CONTESTED := since + ENTRY_TIMEOUT] }

  function Idle(due: real): Node {
    Node(map[], map[], map[], map[], Sleeping(due), map[])
  }

  lemma FirstRound(b: Bounds) returns (run: seq<Action>)
    requires Ordinary(b)
    ensures Scheduled(run, b) && After(run) == Lone(0.0, map[], Idle(5.0))
  {
    run := [];
    assert After(run) == EMPTY_CLUSTER;
    run := Extend(run, Boot(0), b);
    assert After(run) == Lone(0.0, map[], Idle(0.0));
    run := EmptyRound(run, b, 0.0, map[], Idle(0.0));
  }

  lemma WinAt(b: Bounds, t: real) returns (run: seq<Action>)
    requires Ordinary(b) && 0.0 <= t <= 5.0
    ensures Scheduled(run, b) && After(run) == Lone(t, WonEntry(t), Winner(t, 5.0))
  {
    run := FirstRound(b);
    run := TickLone(run, b, 0.0, map[], Idle(5.0), t);
    run := Act(run, TryStart(0, CONTESTED), b, t, map[], Idle(5.0));
  }

  /** A refresh round falls due at the very instant at which a registration that took `delay` completes. */
  lemma LateRegistration(b: Bounds, delay: real) returns (run: seq<Action>, t: real)
    requires Ordinary(b) && 0.0 <= delay <= b.register && delay <= 10.0
    ensures Scheduled(run, b) && After(run) == Lone(t, WonEntry(t - delay), Winner(t - delay, t))
  {
    t := if delay <= 5.0 then 5.0 else 10.0;
    var since := t - delay;
    run := WinAt(b, since);
    run := TickLone(run, b, since, WonEntry(since), Winner(since, 5.0), 5.0);
    if delay > 5.0 {
      run := EmptyRound(run, b, 5.0, WonEntry(since), Winner(since, 5.0));
      run := TickLone(run, b, 5.0, WonEntry(since), Winner(since, 10.0), t);
    }
  }

  /** Node 0 with the registered loop but still the entry of its SET NX. */
  function Loop(since: real, refresh: Refresh): Node {
    Node(map[], map[CONTESTED.sid := CONTESTED.user], map[], map[], refresh, map[CONTESTED := since + ENTRY_TIMEOUT])
  }

  /** The round due at the registration has queued its commands already, so it does not refresh the new loop. */
  lemma RegisterAfterSnapshot(b: Bounds, run: seq<Action>, since: real, t: real) returns (longer: seq<Action>)
    requires Scheduled(run, b)
    requires After(run) == Lone(t, WonEntry(since), Winner(since, t))
    ensures Scheduled(longer, b) && After(longer) == Lone(t, WonEntry(since), Loop(since, Piped(t, {})))
  {
    longer := Act(run, Snapshot(0), b, t, WonEntry(since), Winner(since, t));
    assert LoopKeys(Winner(since, t).loops) == {};
    var queued := Winner(since, t).(refresh := Piped(t, {}));
    longer := Act(longer, Register(0, CONTESTED), b, t, WonEntry(since), queued);
    assert map[CONTESTED := since] - {CONTESTED} == map[];
  }

  lemma ExecuteNothing(b: Bounds, run: seq<Action>, since: real, t: real, now: real) returns (longer: seq<Action>)
    requires Scheduled(run, b)
    requires After(run) == Lone(now, WonEntry(since), Loop(since, Piped(t, {})))
    ensures Scheduled(longer, b)
    ensures After(longer) == Lone(now, WonEntry(since), Loop(since, Sleeping(now + UPDATE_INTERVAL)))
  {
    longer := Act(run, Execute(0), b, now, WonEntry(since), Loop(since, Piped(t, {})));
    SetNoKeys(WonEntry(since), now + ENTRY_TIMEOUT);
    longer := Act(longer, Reply(0, true), b, now, WonEntry(since), Loop(since, Sent(t)));
  }

  lemma MissedRound(b: Bounds, delay: real, wait: real) returns (run: seq<Action>, since: real, due: real)
    requires Ordinary(b) && 0.0 <= delay <= b.register && delay <= 10.0 && 0.0 <= wait <= b.round
    ensures Scheduled(run, b) && After(run) == Lone(due + wait, WonEntry(since), Loop(since, Sleeping(due)))
    ensures due == since + delay + wait + UPDATE_INTERVAL
  {
    hide Scheduled, After;
    var t;
    run, t := LateRegistration(b, delay);
    since, due := t - delay, t + wait + UPDATE_INTERVAL;
    run := RegisterAfterSnapshot(b, run, since, t);
    run := TickLone(run, b, t, WonEntry(since), Loop(since, Piped(t, {})), t + wait);
    run := ExecuteNothing(b, run, since, t, t + wait);
    run := TickLone(run, b, t + wait, WonEntry(since), Loop(since, Sleeping(due)), due + wait);
  }

  /** Another node boots, wins the SET NX for the contested key and registers its loop. */
  lemma Takeover(run: seq<Action>, b: Bounds, n: NodeId) returns (longer: seq<Action>)
    requires Scheduled(run, b) && n !in After(run).nodes
    requires !Present(After(run).redis, After(run).now, CONTESTED)
    ensures Scheduled(longer, b)
    ensures var c, d := After(run), After(longer);
            && d.now == c.now && d.nodes.Keys == c.nodes.Keys + {n}
            && (forall m | m in c.nodes :: d.nodes[m] == c.nodes[m])
            && Runs(d.nodes[n], CONTESTED)
  {
    longer := Extend(run, Boot(n), b);
    longer := Extend(longer, TryStart(n, CONTESTED), b);
    longer := Extend(longer, Register(n, CONTESTED), b);
  }

  /** Bounds that fail the inequality allow two registered loops for one conversation. */
  lemma DoubleOwnership(b: Bounds) returns (run: seq<Action>)
    requires Ordinary(b) && !Sufficient(b)
    ensures Scheduled(run, b) && !Exclusive(After(run))
  {
    // shares of the three delays that add up to exactly the slack of 10 s
    var delay := if b.register <= 10.0 then b.register else 10.0;
    var wait := if 2.0 * b.round <= 10.0 - delay then b.round else (10.0 - delay) / 2.0;
    var linger := 10.0 - delay - 2.0 * wait;
    var since, due;
    run, since, due := MissedRound(b, delay, wait);
    if linger == 0.0 {
      run := Takeover(run, b, 1);
      assert Runs(After(run).nodes[0], CONTESTED) && Runs(After(run).nodes[1], CONTESTED);
    } else {
      run := LingeringDelete(b, run, since, due, due + wait);
      assert Runs(After(run).nodes[1], CONTESTED) && Runs(After(run).nodes[2], CONTESTED);
    }
  }

  /** Node 0 with the loop popped at p and the delete still to come. */
  function Closing(p: real, due: real, expiry: real): Node {
    Node(map[], map[], map[CONTESTED := p], map[], Sleeping(due), map[CONTESTED := expiry])
  }

  lemma PopLoop(b: Bounds, run: seq<Action>, since: real, due: real, p: real) returns (longer: seq<Action>)
    requires Scheduled(run, b)
    requires After(run) == Lone(p, WonEntry(since), Loop(since, Sleeping(due)))
    ensures Scheduled(longer, b)
    ensures After(longer) == Lone(p, WonEntry(since), Closing(p, due, since + ENTRY_TIMEOUT))
  {
    var node, pop := Loop(since, Sleeping(due)), Pop(0, CONTESTED.sid);
    longer := Act(run, pop, b, p, WonEntry(since), node);
    var popped := NodeAfter(Lone(p, WonEntry(since), node), node, pop);
    assert popped.loops == map[];
    assert popped.connections == map[];
  }

  /** With its loop popped, node 0 lets at most ten seconds pass before the delete. */
  lemma Linger(b: Bounds, run: seq<Action>, since: real, p: real) returns (longer: seq<Action>, next: real)
    requires Ordinary(b) && Scheduled(run, b)
    requires After(run) == Lone(p, WonEntry(since), Closing(p, p + UPDATE_INTERVAL, since + ENTRY_TIMEOUT))
    requires p < since + ENTRY_TIMEOUT <= p + b.release
    requires since + UPDATE_INTERVAL <= p
    ensures Scheduled(longer, b)
    ensures After(longer) == Lone(since + ENTRY_TIMEOUT, WonEntry(since), Closing(p, next, since + ENTRY_TIMEOUT))
  {
    var expiry := since + ENTRY_TIMEOUT;
    next := p + UPDATE_INTERVAL;
    if expiry <= next {
      longer := TickLone(run, b, p, WonEntry(since), Closing(p, next, expiry), expiry);
    } else {
      longer := TickLone(run, b, p, WonEntry(since), Closing(p, next, expiry), next);
      longer := EmptyRound(longer, b, next, WonEntry(since), Closing(p, next, expiry));
      var now := next;
      next := next + UPDATE_INTERVAL;
      longer := TickLone(longer, b, now, WonEntry(since), Closing(p, next, expiry), expiry);
    }
  }

  /** Node 0 pops the loop just before it is refreshed, and the entry runs out while the delete is still to come. */
  lemma LingeringClose(b: Bounds, run: seq<Action>, since: real, due: real, p: real)
    returns (longer: seq<Action>, next: real)
    requires Ordinary(b) && Scheduled(run, b)
    requires After(run) == Lone(p, WonEntry(since), Loop(since, Sleeping(due)))
    requires due <= p < since + ENTRY_TIMEOUT <= p + b.release
    requires since + UPDATE_INTERVAL <= p
    ensures Scheduled(longer, b)
    ensures After(longer) == Lone(since + ENTRY_TIMEOUT, WonEntry(since), Closing(p, next, since + ENTRY_TIMEOUT))
  {
    longer := PopLoop(b, run, since, due, p);
    longer := EmptyRound(longer, b, p, WonEntry(since), Closing(p, due, since + ENTRY_TIMEOUT));
    longer, next := Linger(b, longer, since, p);
  }

  /** The late delete removes the entry of node 1, so node 2 can win the key as well. */
  lemma LingeringDelete(b: Bounds, run: seq<Action>, since: real, due: real, p: real) returns (longer: seq<Action>)
    requires Ordinary(b) && Scheduled(run, b)
    requires After(run) == Lone(p, WonEntry(since), Loop(since, Sleeping(due)))
    requires due <= p < since + ENTRY_TIMEOUT <= p + b.release
    requires since + UPDATE_INTERVAL <= p
    ensures Scheduled(longer, b)
    ensures 1 in After(longer).nodes && Runs(After(longer).nodes[1], CONTESTED)
    ensures 2 in After(longer).nodes && Runs(After(longer).nodes[2], CONTESTED)
  {
    hide After, Scheduled;
    var next;
    longer, next := LingeringClose(b, run, since, due, p);
    longer := Takeover(longer, b, 1);
    longer := Extend(longer, Delete(0, CONTESTED), b);
    longer := Takeover(longer, b, 2);
  }

  // ---------------------------------------------------------------- the exact condition

  ghost predicate AlwaysExclusive(b: Bounds) {
    forall run :: Scheduled(run, b) ==> Exclusive(After(run))
  }

  /**
   Main result: delays bounded by b can never give one conversation two loops if and only if
   2 * round + register + release is below 10 s.
   */
  lemma ExclusionExactly(b: Bounds)
    requires Ordinary(b)
    ensures AlwaysExclusive(b) <==> 2.0 * b.round + b.register + b.release < 10.0
  {
    if Sufficient(b) {
      forall run | Scheduled(run, b) ensures Exclusive(After(run)) {
        ScheduledRunsAreTimely(run, b);
        TimelyRunsAreExclusive(run);
      }
    } else {
      var run := DoubleOwnership(b);
      assert Scheduled(run, b) && !Exclusive(After(run));
    }
  }
}
