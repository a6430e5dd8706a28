/**
 The lease protocol by which the nodes of a cluster share conversations through
 one Redis server.  A node owns a conversation from the moment its SET NX wins
 until it has deleted the key again; in between it must refresh the key before
 it expires.  The key names no owner, a refresh overwrites whatever is there and
 a delete removes whatever is there, so exclusion depends on timing alone.

 Every action sequence is a run: an action that is not enabled changes nothing.
 */
module Leases {

  type NodeId = nat
  type User = string
  type Sid = s: string | s != "" witness "0"
  type ConnectionId = string

  /** The Redis key that marks conversation `sid` of `user` as running. */
  datatype Key = Key(user: User, sid: Sid)

  const ENTRY_TIMEOUT := 15.0
  const UPDATE_INTERVAL := 5.0

  /**
   The refresh loop of a node: asleep until `due`, or, in the round that fell due then, with its commands queued but
   not yet executed, or executed but not yet answered.
   */
  datatype Refresh =
    | Sleeping(due: real)
    | Piped(due: real, keys: set<Key>)
    | Sent(due: real)

  /**
   One node.  `acquired` holds the keys whose SET NX won but whose loop is not registered yet,
   with the time of the win; `closing` the keys of loops already popped but not yet deleted from
   Redis, with the time of the pop.  `lease` records, for every key this node ever set, when the
   entry it wrote was to expire; the code keeps no such record and no action reads it.
   */
  datatype Node = Node(
    acquired: map<Key, real>,
    loops: map<Sid, User>,
    closing: map<Key, real>,
    connections: map<ConnectionId, Sid>,
    refresh: Refresh,
    lease: map<Key, real>)

  datatype Cluster = Cluster(now: real, redis: map<Key, real>, nodes: map<NodeId, Node>)

  datatype Action =
    | Boot(n: NodeId)
    | TryStart(n: NodeId, k: Key)
    | Register(n: NodeId, k: Key)
    | FailStart(n: NodeId, k: Key)
    | Snapshot(n: NodeId)
    | Execute(n: NodeId)
    | Reply(n: NodeId, acknowledged: bool)
    | FailRefresh(n: NodeId)
    | Pop(n: NodeId, sid: Sid)
    | Delete(n: NodeId, k: Key)
    | FailDelete(n: NodeId, k: Key)
    | Join(n: NodeId, connection: ConnectionId, sid: Sid)
    | Leave(n: NodeId, connection: ConnectionId)
    | Crash(n: NodeId)
    | Tick(t: real)

  const EMPTY_CLUSTER := Cluster(0.0, map[], map[])

  /** An entry written with an expiry is gone once the clock reaches that instant. */
  predicate Present(redis: map<Key, real>, now: real, k: Key) {
    k in redis && now < redis[k]
  }

  /** The entries after SET ... EX on each of the given keys. */
  function SetKeys(entries: map<Key, real>, keys: set<Key>, expiry: real): map<Key, real> {
    map k | k in entries.Keys + keys :: if k in keys then expiry else entries[k]
  }

  /** The keys a refresh round queues for the loops of one node. */
  function LoopKeys(loops: map<Sid, User>): set<Key> {
    set s | s in loops :: Key(loops[s], s)
  }

  predicate Runs(node: Node, k: Key) {
    k.sid in node.loops && node.loops[k.sid] == k.user
  }

  predicate Holds(node: Node, k: Key) {
    k in node.acquired || Runs(node, k) || k in node.closing
  }

  predicate Enabled(c: Cluster, a: Action) {
    match a
    case Tick(t) => c.now <= t
    case Boot(n) => n !in c.nodes
    case TryStart(n, k) => n in c.nodes
    case Register(n, k) => n in c.nodes && k in c.nodes[n].acquired
    case FailStart(n, k) => n in c.nodes && k in c.nodes[n].acquired
    case Snapshot(n) => n in c.nodes && c.nodes[n].refresh.Sleeping? && c.nodes[n].refresh.due <= c.now
    case Execute(n) => n in c.nodes && c.nodes[n].refresh.Piped?
    case Reply(n, _) => n in c.nodes && c.nodes[n].refresh.Sent?
    case FailRefresh(n) => n in c.nodes && c.nodes[n].refresh.Piped?
    case Pop(n, sid) => n in c.nodes && sid in c.nodes[n].loops
    case Delete(n, k) => n in c.nodes && k in c.nodes[n].closing
    case FailDelete(n, k) => n in c.nodes && k in c.nodes[n].closing
    case Join(n, _, _) => n in c.nodes
    case Leave(n, _) => n in c.nodes
    case Crash(n) => n in c.nodes
  }

  /** What an action does to the node that takes it; Redis is updated in `RedisAfter`. */
  function NodeAfter(c: Cluster, node: Node, a: Action): Node {
    match a
    case TryStart(_, k) =>
      if Present(c.redis, c.now, k) then node
      else node.(acquired := node.acquired[k := c.now], lease := node.lease[k := c.now + ENTRY_TIMEOUT])
    case Register(_, k) =>
      node.(acquired := node.acquired - {k}, loops := node.loops[k.sid := k.user])
    case FailStart(_, k) =>
      node.(acquired := node.acquired - {k})
    case Snapshot(_) =>
      node.(refresh := Piped(node.refresh.due, LoopKeys(node.loops)))
    case Execute(_) =>
      if node.refresh.Piped? then
        node.(refresh := Sent(node.refresh.due),
              lease := SetKeys(node.lease, node.refresh.keys, c.now + ENTRY_TIMEOUT))
      else node
    case Reply(_, acknowledged) =>
      // the sleep begins with the reply; a round that raises instead is retried at once
      node.(refresh := Sleeping(if acknowledged then c.now + UPDATE_INTERVAL else node.refresh.due))
    case FailRefresh(_) =>
      node.(refresh := Sleeping(node.refresh.due))
    case Pop(_, sid) =>
      if sid in node.loops then
        node.(loops := node.loops - {sid},
              closing := node.closing[Key(node.loops[sid], sid) := c.now],
              connections := map x | x in node.connections && node.connections[x] != sid :: node.connections[x])
      else node
    case Delete(_, k) =>
      node.(closing := node.closing - {k})
    case FailDelete(_, k) =>
      // the exception is logged, the loop is gone, and the entry is left to expire
      node.(closing := node.closing - {k})
    case Join(_, connection, sid) =>
      node.(connections := node.connections[connection := sid])
    case Leave(_, connection) =>
      node.(connections := node.connections - {connection})
    case _ => node
  }

  function RedisAfter(c: Cluster, a: Action): map<Key, real>
    requires Enabled(c, a)
  {
    match a
    case TryStart(_, k) =>
      if Present(c.redis, c.now, k) then c.redis else c.redis[k := c.now + ENTRY_TIMEOUT]
    case Execute(n) => SetKeys(c.redis, c.nodes[n].refresh.keys, c.now + ENTRY_TIMEOUT)
    case Delete(_, k) => c.redis - {k}
    case _ => c.redis
  }

  function Step(c: Cluster, a: Action): Cluster {
    if !Enabled(c, a) then c
    else
      match a
      case Tick(t) => c.(now := t)
      case Boot(n) => c.(nodes := c.nodes[n := Node(map[], map[], map[], map[], Sleeping(c.now), map[])])
      case Crash(n) => c.(nodes := c.nodes - {n})
      case _ => Cluster(c.now, RedisAfter(c, a), c.nodes[a.n := NodeAfter(c, c.nodes[a.n], a)])
  }

  function After(run: seq<Action>): Cluster {
    if run == [] then EMPTY_CLUSTER else Step(After(run[..|run| - 1]), run[|run| - 1])
  }

  /**
   A client stays connected from its join to its leave, or until its conversation is closed, and no step of another
   node makes any difference.
   */
  lemma ConnectionsFollow(c: Cluster, a: Action, n: NodeId, connection: ConnectionId, sid: Sid)
    requires Enabled(c, a) && n in c.nodes && a != Crash(n)
    ensures n in Step(c, a).nodes
    ensures var before, after := c.nodes[n].connections, Step(c, a).nodes[n].connections;
            (connection in after && after[connection] == sid) <==>
              || a == Join(n, connection, sid)
              || (&& connection in before && before[connection] == sid && a != Leave(n, connection) && a != Pop(n, sid)
                  && !(a.Join? && a.n == n && a.connection == connection))
  {
  }

  // ---------------------------------------------------------------- timing

  /** At instant t every key held anywhere is still covered by the entry its holder last wrote. */
  ghost predicate LeasesOutlast(c: Cluster, t: real) {
    forall n, k | n in c.nodes && Holds(c.nodes[n], k) :: k in c.nodes[n].lease && t < c.nodes[n].lease[k]
  }

  /** Registration, refresh and delete each land before the holder's previous entry expires. */
  ghost predicate Timely(run: seq<Action>) {
    run == [] ||
    (var before := run[..|run| - 1];
     Timely(before) && (run[|run| - 1].Tick? ==> LeasesOutlast(After(before), run[|run| - 1].t)))
  }

  /**
   How long the steps of one node may take: a refresh round counted from the end of the sleep to the reply to its
   commands, with all its retries; registration after a won SET NX; delete after the pop.
   */
  datatype Bounds = Bounds(round: real, register: real, release: real)

  ghost predicate WithinBounds(c: Cluster, t: real, b: Bounds) {
    forall n | n in c.nodes :: NodeWithinBounds(c.nodes[n], t, b)
  }

  ghost predicate NodeWithinBounds(node: Node, t: real, b: Bounds) {
    && t <= node.refresh.due + b.round
    && (forall k | k in node.acquired :: t <= node.acquired[k] + b.register)
    && (forall k | k in node.closing :: t <= node.closing[k] + b.release)
  }

  ghost predicate Scheduled(run: seq<Action>, b: Bounds) {
    run == [] ||
    (var before := run[..|run| - 1];
     Scheduled(before, b) && (run[|run| - 1].Tick? ==> WithinBounds(After(before), run[|run| - 1].t, b)))
  }

  // ---------------------------------------------------------------- exclusion

  /** No conversation has a registered loop on two nodes. */
  ghost predicate Exclusive(c: Cluster) {
    forall n, m, k | n in c.nodes && m in c.nodes && Runs(c.nodes[n], k) && Runs(c.nodes[m], k) :: n == m
  }

  predicate Backed(c: Cluster, node: Node, k: Key) {
    && k in node.lease && c.now < node.lease[k]
    && k in c.redis && node.lease[k] <= c.redis[k]
  }

  ghost predicate OneRole(node: Node) {
    forall k :: !(k in node.acquired && k in node.closing)
             && !(k in node.acquired && Runs(node, k)) && !(Runs(node, k) && k in node.closing)
  }

  ghost predicate ExpiriesBounded(c: Cluster) {
    && (forall n, k | n in c.nodes && k in c.nodes[n].lease :: c.nodes[n].lease[k] <= c.now + ENTRY_TIMEOUT)
    && (forall k | k in c.redis :: c.redis[k] <= c.now + ENTRY_TIMEOUT)
  }

  ghost predicate AllBacked(c: Cluster) {
    forall n, k | n in c.nodes && Holds(c.nodes[n], k) :: Backed(c, c.nodes[n], k)
  }

  ghost predicate SoleHolders(c: Cluster) {
    forall n, m, k | n in c.nodes && m in c.nodes && Holds(c.nodes[n], k) && Holds(c.nodes[m], k) :: n == m
  }

  /** What every timely run keeps: each held key has one holder, in one role, and Redis outlives its lease. */
  ghost predicate Safe(c: Cluster) {
    && AllBacked(c)
    && SoleHolders(c)
    && (forall n | n in c.nodes :: OneRole(c.nodes[n]))
    && ExpiriesBounded(c)
  }

  lemma StepKeepsSafe(c: Cluster, a: Action)
    requires Safe(c)
    requires a.Tick? ==> LeasesOutlast(c, a.t)
    ensures Safe(Step(c, a))
  {
    if Enabled(c, a) {
      match a
      case TryStart(n, k) => TryStartKeepsSafe(c, n, k);
      case Execute(_) => ExecuteKeepsSafe(c, a);
      case Delete(n, k) => DeleteKeepsSafe(c, n, k);
      case Tick(t) => TickKeepsSafe(c, t);
      case _ => LocalStepKeepsSafe(c, a);
    }
  }

  /** A SET NX can only win when no node holds the key: a holder's entry would still be there. */
  lemma AbsentKeyIsFree(c: Cluster, k: Key)
    requires AllBacked(c) && !Present(c.redis, c.now, k)
    ensures forall n | n in c.nodes :: !Holds(c.nodes[n], k)
  {
    forall n | n in c.nodes ensures !Holds(c.nodes[n], k) {
      assert Holds(c.nodes[n], k) ==> Backed(c, c.nodes[n], k);
    }
  }

  lemma TryStartKeepsBacked(c: Cluster, n: NodeId, k: Key)
    requires Safe(c) && n in c.nodes && !Present(c.redis, c.now, k)
    ensures AllBacked(Step(c, TryStart(n, k)))
  {
    var d := Step(c, TryStart(n, k));
    forall m, j | m in d.nodes && Holds(d.nodes[m], j) ensures Backed(d, d.nodes[m], j) {
      AbsentKeyIsFree(c, k);
      if j != k { assert Backed(c, c.nodes[m], j); }
    }
  }

  lemma TryStartKeepsSole(c: Cluster, n: NodeId, k: Key)
    requires Safe(c) && n in c.nodes && !Present(c.redis, c.now, k)
    ensures SoleHolders(Step(c, TryStart(n, k)))
  {
    var d := Step(c, TryStart(n, k));
    AbsentKeyIsFree(c, k);
    forall m, j | m in d.nodes && Holds(d.nodes[m], j) ensures Holds(c.nodes[m], j) || (m == n && j == k) {}
  }

  lemma TryStartKeepsSafe(c: Cluster, n: NodeId, k: Key)
    requires Safe(c) && n in c.nodes
    ensures Safe(Step(c, TryStart(n, k)))
  {
    if !Present(c.redis, c.now, k) {
      TryStartKeepsBacked(c, n, k);
      TryStartKeepsSole(c, n, k);
      AbsentKeyIsFree(c, k);
      assert OneRole(c.nodes[n]);
      assert OneRole(Step(c, TryStart(n, k)).nodes[n]);
    }
  }

  /** A refresh may overwrite the entry of another holder, or re-create a deleted key: it only prolongs it. */
  lemma ExecuteKeepsSafe(c: Cluster, a: Action)
    requires Safe(c) && a.Execute? && Enabled(c, a)
    ensures Safe(Step(c, a))
  {
    var d := Step(c, a);
    forall m, j | m in d.nodes && Holds(d.nodes[m], j) ensures Backed(d, d.nodes[m], j) {
      assert Holds(c.nodes[m], j) && Backed(c, c.nodes[m], j);
    }
    forall m, p, j | m in d.nodes && p in d.nodes && Holds(d.nodes[m], j) && Holds(d.nodes[p], j) ensures m == p {
      assert Holds(c.nodes[m], j) && Holds(c.nodes[p], j);
    }
    assert forall j :: Runs(d.nodes[a.n], j) == Runs(c.nodes[a.n], j);
  }

  /** The blind delete of a timely close removes the entry of the closing node and of nobody else. */
  lemma DeleteKeepsSafe(c: Cluster, n: NodeId, k: Key)
    requires Safe(c) && n in c.nodes && k in c.nodes[n].closing
    ensures Safe(Step(c, Delete(n, k)))
  {
    var d := Step(c, Delete(n, k));
    assert Holds(c.nodes[n], k);
    forall m, j | m in d.nodes && Holds(d.nodes[m], j) ensures j != k && Backed(d, d.nodes[m], j) {
      assert Holds(c.nodes[m], j) && Backed(c, c.nodes[m], j);
    }
    forall m, p, j | m in d.nodes && p in d.nodes && Holds(d.nodes[m], j) && Holds(d.nodes[p], j) ensures m == p {
      assert Holds(c.nodes[m], j) && Holds(c.nodes[p], j);
    }
  }

  lemma TickKeepsSafe(c: Cluster, t: real)
    requires Safe(c) && c.now <= t && LeasesOutlast(c, t)
    ensures Safe(Step(c, Tick(t)))
  {
    var d := Step(c, Tick(t));
    forall n, k | n in d.nodes && Holds(d.nodes[n], k) ensures Backed(d, d.nodes[n], k) {
      assert Backed(c, c.nodes[n], k);
    }
  }

  /** The remaining actions leave Redis alone and at most move a key between the roles of one node, or drop it. */
  lemma LocalStepKeepsSafe(c: Cluster, a: Action)
    requires Safe(c) && Enabled(c, a)
    requires !a.Tick? && !a.TryStart? && !a.Execute? && !a.Delete?
    ensures Safe(Step(c, a))
  {
    var d := Step(c, a);
    forall m, j | m in d.nodes && Holds(d.nodes[m], j)
      ensures m in c.nodes && Holds(c.nodes[m], j) && Backed(d, d.nodes[m], j)
    {
      assert m in c.nodes && Holds(c.nodes[m], j) && Backed(c, c.nodes[m], j);
    }
    if a.n in c.nodes { assert OneRole(c.nodes[a.n]); }
    if a.n in d.nodes { assert OneRole(d.nodes[a.n]); }
  }

  /** Every state of a timely run is safe. */
  lemma {:induction false} TimelyRunsAreSafe(run: seq<Action>)
    requires Timely(run)
    ensures Safe(After(run))
  {
    if run != [] {
      TimelyRunsAreSafe(run[..|run| - 1]);
      StepKeepsSafe(After(run[..|run| - 1]), run[|run| - 1]);
    }
  }

  /** Main result under the timing assumption: at most one loop per conversation in the whole cluster. */
  lemma TimelyRunsAreExclusive(run: seq<Action>)
    requires Timely(run)
    ensures Exclusive(After(run))
  {
    TimelyRunsAreSafe(run);
    var c := After(run);
    forall n, m, k | n in c.nodes && m in c.nodes && Runs(c.nodes[n], k) && Runs(c.nodes[m], k) ensures n == m {
      assert Holds(c.nodes[n], k) && Holds(c.nodes[m], k);
    }
  }

  // ---------------------------------------------------------------- keys name the user as well

  /** Every start of the conversation is under one of the users. */
  ghost predicate StartsUnder(run: seq<Action>, sid: Sid, users: set<User>) {
    forall i | 0 <= i < |run| && run[i].TryStart? && run[i].k.sid == sid :: run[i].k.user in users
  }

  ghost predicate OnOneNode(c: Cluster, sid: Sid) {
    forall n, m | n in c.nodes && m in c.nodes && sid in c.nodes[n].loops && sid in c.nodes[m].loops :: n == m
  }

  lemma {:induction false} HeldKeysNameTheUsers(run: seq<Action>, sid: Sid, users: set<User>)
    requires StartsUnder(run, sid, users)
    ensures forall n, k: Key | n in After(run).nodes && k.sid == sid && Holds(After(run).nodes[n], k) :: k.user in users
  {
    if run != [] {
      var before, a := run[..|run| - 1], run[|run| - 1];
      HeldKeysNameTheUsers(before, sid, users);
      var c, d := After(before), After(run);
      assert d == Step(c, a);
      forall n, k: Key | n in d.nodes && k.sid == sid && Holds(d.nodes[n], k) ensures k.user in users {
        assert n in c.nodes && (Holds(c.nodes[n], k) || a == TryStart(n, k));
        assert a.TryStart? ==> run[|run| - 1].k == a.k;
      }
    }
  }

  /** With one user per conversation, exclusion holds for the conversation id itself. */
  lemma SidsAreExclusive(run: seq<Action>, sid: Sid, users: set<User>)
    requires Timely(run) && StartsUnder(run, sid, users) && |users| <= 1
    ensures OnOneNode(After(run), sid)
  {
    var c := After(run);
    HeldKeysNameTheUsers(run, sid, users);
    TimelyRunsAreExclusive(run);
    forall n, m | n in c.nodes && m in c.nodes && sid in c.nodes[n].loops && sid in c.nodes[m].loops ensures n == m {
      var k, j := Key(c.nodes[n].loops[sid], sid), Key(c.nodes[m].loops[sid], sid);
      assert Holds(c.nodes[n], k) && Holds(c.nodes[m], j);
      AtMostOne(users, k.user, j.user);
      assert Runs(c.nodes[n], k) && Runs(c.nodes[m], k);
    }
  }

  lemma AtMostOne(users: set<User>, u: User, v: User)
    requires |users| <= 1 && u in users && v in users
    ensures u == v
  {
    assert |users - {u}| == |users| - 1;
    assert v in users - {u} <==> v != u;
  }

  /** Under two users the keys differ and the same conversation runs twice, whatever the timing. */
  lemma TwoUsersTwoLoops(sid: Sid, u: User, v: User) returns (run: seq<Action>)
    requires u != v
    ensures Timely(run) && StartsUnder(run, sid, {u, v})
    ensures 0 in After(run).nodes && sid in After(run).nodes[0].loops
    ensures 1 in After(run).nodes && sid in After(run).nodes[1].loops
  {
    var k, j := Key(u, sid), Key(v, sid);
    run := [Boot(0), Boot(1), TryStart(0, k), TryStart(1, j), Register(0, k), Register(1, j)];
    InstantRunIsTimely(run);
    AfterSix(run);
    hide Timely, After;
    var c := Step(Step(EMPTY_CLUSTER, Boot(0)), Boot(1));
    assert c.redis == map[] && c.nodes.Keys == {0, 1};
    var d := Step(Step(c, TryStart(0, k)), TryStart(1, j));
    assert k in d.nodes[0].acquired && j in d.nodes[1].acquired;
  }

  lemma AfterSix(run: seq<Action>)
    requires |run| == 6
    ensures After(run)
            == Step(Step(Step(Step(Step(Step(EMPTY_CLUSTER, run[0]), run[1]), run[2]), run[3]), run[4]), run[5])
  {
    hide Step;
    assert run[..1][..0] == [] && After(run[..1]) == Step(EMPTY_CLUSTER, run[0]);
    assert run[..2][..1] == run[..1] && After(run[..2]) == Step(After(run[..1]), run[1]);
    assert run[..3][..2] == run[..2] && After(run[..3]) == Step(After(run[..2]), run[2]);
    assert run[..4][..3] == run[..3] && After(run[..4]) == Step(After(run[..3]), run[3]);
    assert run[..5][..4] == run[..4] && After(run[..5]) == Step(After(run[..4]), run[4]);
  }

  /** Starts under these users keep the conversation on one node, in every timely run. */
  ghost predicate UsersExclude(sid: Sid, users: set<User>) {
    forall run | Timely(run) && StartsUnder(run, sid, users) :: OnOneNode(After(run), sid)
  }

  /** Main result: a conversation id is exclusive exactly if no two users can start it. */
  lemma SidsAreExclusiveExactly(sid: Sid, users: set<User>)
    ensures UsersExclude(sid, users) <==> |users| <= 1
  {
    if |users| <= 1 {
      forall run | Timely(run) && StartsUnder(run, sid, users) ensures OnOneNode(After(run), sid) {
        SidsAreExclusive(run, sid, users);
      }
    } else {
      var u, v := TwoOf(users);
      var run := TwoUsersTwoLoops(sid, u, v);
      assert Timely(run) && StartsUnder(run, sid, users) && !OnOneNode(After(run), sid);
    }
  }

  lemma TwoOf(users: set<User>) returns (u: User, v: User)
    requires |users| > 1
    ensures u in users && v in users && u != v
  {
    u :| u in users;
    assert |users - {u}| == |users| - 1;
    v :| v in users - {u};
  }

  lemma {:induction false} InstantRunIsTimely(run: seq<Action>)
    requires forall i | 0 <= i < |run| :: !run[i].Tick?
    ensures Timely(run)
  {
    if run != [] { InstantRunIsTimely(run[..|run| - 1]); }
  }
}
