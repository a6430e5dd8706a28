/**
 Detecting that a remote conversation has stopped, and restarting it.  A node looks for connections to
 conversations that it does not run itself and for which Redis has no entry, and then calls
 maybe_start_agent_loop for each of them; the SET NX in that call decides the race between the nodes.
 */
module Failover {
  import opened Leases

  function RunningSids(redis: map<Key, real>, now: real): set<Sid> {
    set k | k in redis && Present(redis, now, k) :: k.sid
  }

  /** The conversations a node would report as stopped (`_disconnect_from_stopped`). */
  function Stopped(node: Node, redis: map<Key, real>, now: real): set<Sid> {
    node.connections.Values - node.loops.Keys - RunningSids(redis, now)
  }

  /** A conversation owned anywhere, even one still being started or closed, is never reported as stopped. */
  lemma LiveOwnerIsNeverStopped(run: seq<Action>, owner: NodeId, observer: NodeId, k: Key)
    requires Timely(run)
    requires owner in After(run).nodes && Holds(After(run).nodes[owner], k)
    requires observer in After(run).nodes
    ensures var c := After(run); k.sid !in Stopped(c.nodes[observer], c.redis, c.now)
  {
    TimelyRunsAreSafe(run);
    var c := After(run);
    assert Backed(c, c.nodes[owner], k);
    assert k in c.redis && Present(c.redis, c.now, k);
  }

  // ---------------------------------------------------------------- after a crash

  /** The action writes an entry for some conversation key of sid. */
  predicate Writes(c: Cluster, a: Action, sid: Sid) {
    Enabled(c, a) &&
    ((a.TryStart? && a.k.sid == sid && !Present(c.redis, c.now, a.k)) ||
     (a.Execute? && exists k | k in c.nodes[a.n].refresh.keys :: k.sid == sid))
  }

  ghost predicate Silent(run: seq<Action>, tail: seq<Action>, sid: Sid) {
    forall i | 0 <= i < |tail| :: !Writes(After(run + tail[..i]), tail[i], sid)
  }

  lemma {:induction false} ExpiriesStayBounded(run: seq<Action>)
    ensures forall k | k in After(run).redis :: After(run).redis[k] <= After(run).now + ENTRY_TIMEOUT
  {
    if run != [] {
      ExpiriesStayBounded(run[..|run| - 1]);
      var c, a := After(run[..|run| - 1]), run[|run| - 1];
      assert After(run) == Step(c, a);
    }
  }

  lemma AfterExtension(run: seq<Action>, tail: seq<Action>)
    requires tail != []
    ensures After(run + tail) == Step(After(run + tail[..|tail| - 1]), tail[|tail| - 1])
  {
    var whole := run + tail;
    assert whole[..|whole| - 1] == run + tail[..|tail| - 1];
  }

  lemma SilentStep(c: Cluster, a: Action, k: Key)
    requires !Writes(c, a, k.sid)
    ensures c.now <= Step(c, a).now
    ensures k in Step(c, a).redis ==> k in c.redis && Step(c, a).redis[k] == c.redis[k]
  {
    if Enabled(c, a) && a.Execute? {
      assert k !in c.nodes[a.n].refresh.keys;
    }
  }

  lemma {:induction false} SilenceAddsNothing(run: seq<Action>, tail: seq<Action>, k: Key)
    requires Silent(run, tail, k.sid)
    ensures After(run).now <= After(run + tail).now
    ensures var old_, new_ := After(run).redis, After(run + tail).redis;
            k in new_ ==> k in old_ && new_[k] == old_[k]
  {
    if tail == [] {
      assert run + tail == run;
    } else {
      var init := tail[..|tail| - 1];
      assert forall i | 0 <= i < |init| :: init[..i] == tail[..i];
      SilenceAddsNothing(run, init, k);
      AfterExtension(run, tail);
      SilentStep(After(run + init), tail[|tail| - 1], k);
    }
  }

  /**
   In every run, timely or not: once 15 s have passed without a write for a conversation, each node that
   has a connection to it and does not run it reports it as stopped.
   */
  lemma AbandonedConversationIsDetected(run: seq<Action>, tail: seq<Action>, sid: Sid, observer: NodeId)
    requires Silent(run, tail, sid)
    requires After(run).now + 15.0 <= After(run + tail).now
    requires observer in After(run + tail).nodes
    ensures var c := After(run + tail); var node := c.nodes[observer];
            sid in Stopped(node, c.redis, c.now) <==> sid in node.connections.Values && sid !in node.loops
  {
    var c := After(run + tail);
    ExpiriesStayBounded(run);
    forall k | k in c.redis && k.sid == sid ensures !Present(c.redis, c.now, k) {
      SilenceAddsNothing(run, tail, k);
    }
  }

  // ---------------------------------------------------------------- the race to restart

  predicate Wins(c: Cluster, a: Action, k: Key) {
    a.TryStart? && a.k == k && Enabled(c, a) && !Present(c.redis, c.now, k)
  }

  /** How many SET NX attempts for k succeed in tail, run after run. */
  function WinCount(run: seq<Action>, tail: seq<Action>, k: Key): nat {
    if tail == [] then 0
    else
      var init := tail[..|tail| - 1];
      WinCount(run, init, k) + if Wins(After(run + init), tail[|tail| - 1], k) then 1 else 0
  }

  /** A SET NX wins only when nobody owns the conversation, and it makes its node the only owner. */
  lemma WinnerIsSoleOwner(run: seq<Action>, n: NodeId, k: Key)
    requires Timely(run) && n in After(run).nodes
    ensures var c := After(run); var d := Step(c, TryStart(n, k));
            && (Present(c.redis, c.now, k) ==> d == c)
            && (!Present(c.redis, c.now, k) ==>
                  && (forall m | m in c.nodes :: !Holds(c.nodes[m], k))
                  && (forall m | m in d.nodes :: Holds(d.nodes[m], k) <==> m == n))
  {
    TimelyRunsAreSafe(run);
    var c := After(run);
    forall m | m in c.nodes ensures Holds(c.nodes[m], k) ==> Present(c.redis, c.now, k) {
      assert Holds(c.nodes[m], k) ==> Backed(c, c.nodes[m], k);
    }
  }

  /** The node keeps the conversation throughout tail. */
  ghost predicate KeepsHolding(run: seq<Action>, tail: seq<Action>, w: NodeId, k: Key) {
    forall i | 0 < i <= |tail| :: var c := After(run + tail[..i]); w in c.nodes && Holds(c.nodes[w], k)
  }

  lemma {:induction false} TimelyPrefix(run: seq<Action>, n: nat)
    requires Timely(run) && n <= |run|
    ensures Timely(run[..n])
    decreases |run|
  {
    if n < |run| {
      TimelyPrefix(run[..|run| - 1], n);
      assert run[..|run| - 1][..n] == run[..n];
    } else {
      assert run[..n] == run;
    }
  }

  /**
   Failover is unique: of all SET NX attempts made for a conversation that has no entry, the first one wins,
   and no other wins for as long as the winner keeps the conversation, whatever else happens.
   */
  lemma {:induction false} RaceHasOneWinner(run: seq<Action>, tail: seq<Action>, w: NodeId, k: Key)
    requires Timely(run + tail)
    requires tail != [] && tail[0] == TryStart(w, k) && w in After(run).nodes
    requires !Present(After(run).redis, After(run).now, k)
    requires KeepsHolding(run, tail, w, k)
    ensures WinCount(run, tail, k) == 1
  {
    var init := tail[..|tail| - 1];
    if init == [] {
      assert run + init == run;
      assert WinCount(run, init, k) == 0;
    } else {
      assert forall i | 0 <= i <= |init| :: init[..i] == tail[..i];
      TimelyPrefix(run + tail, |run| + |init|);
      assert (run + tail)[..|run| + |init|] == run + init;
      RaceHasOneWinner(run, init, w, k);
      TimelyRunsAreSafe(run + init);
      var c := After(run + init);
      assert tail[..|init|] == init;
      assert w in c.nodes && Backed(c, c.nodes[w], k);
    }
  }
}
