/**
 One node of the cluster with the code of its manager: the loops over its dictionaries, and the Redis
 commands they issue.  The protocol in `Leases` interleaves these methods; here an uninterrupted start, close
 and search for stopped conversations are proved to be the steps of the protocol, one after the other.
 */
module ClusteredManager {
  import opened Leases
  import opened Options
  import Failover

  /** The Redis key that marks a client connection to a conversation. */
  datatype ConnectionKey = ConnectionKey(user: User, sid: Sid, connection: ConnectionId)

  datatype Pipeline = Pipeline(conversations: set<Key>, connections: set<ConnectionKey>)

  class Redis {
    var now: real
    var conversations: map<Key, real>
    var connections: map<ConnectionKey, real>

    constructor (now: real)
      ensures this.now == now && conversations == map[] && connections == map[]
    {
      this.now := now;
      conversations, connections := map[], map[];
    }

    /** SET k 1 NX EX 15 */
    method SetNx(k: Key) returns (created: bool)
      modifies this`conversations
      ensures created == !Present(old(conversations), now, k)
      ensures conversations == if created then old(conversations)[k := now + ENTRY_TIMEOUT] else old(conversations)
    {
      created := !Present(conversations, now, k);
      if created { conversations := conversations[k := now + ENTRY_TIMEOUT]; }
    }

    method Execute(pipe: Pipeline)
      modifies this`conversations, this`connections
      ensures conversations == SetKeys(old(conversations), pipe.conversations, now + ENTRY_TIMEOUT)
      ensures forall x :: x in connections <==> x in old(connections) || x in pipe.connections
      ensures forall x | x in connections ::
                connections[x] == if x in pipe.connections then now + ENTRY_TIMEOUT else old(connections)[x]
    {
      conversations := SetKeys(conversations, pipe.conversations, now + ENTRY_TIMEOUT);
      connections := map x | x in connections.Keys + pipe.connections ::
        if x in pipe.connections then now + ENTRY_TIMEOUT else connections[x];
    }

    function ScanConversations(): set<Key>
      reads this
    {
      set k | k in conversations && Present(conversations, now, k)
    }

    function ScanConnections(): set<ConnectionKey>
      reads this
    {
      set x | x in connections && now < connections[x]
    }
  }

  lemma SubsetOfEqualSize<T>(a: set<T>, b: set<T>)
    requires a <= b && |a| == |b|
    ensures a == b
  {
    assert |b - a| == |b| - |a| == 0;
  }

  predicate OnRecord(userOnRecord: map<Sid, User>, sid: Sid) {
    sid in userOnRecord && userOnRecord[sid] != ""
  }

  function Restarts(seen: set<ConnectionId>, connections: map<ConnectionId, Sid>, stopped: set<Sid>,
                    userOnRecord: map<Sid, User>): set<Key>
    requires seen <= connections.Keys
  {
    set c | c in seen && connections[c] in stopped && OnRecord(userOnRecord, connections[c]) ::
      Key(userOnRecord[connections[c]], connections[c])
  }

  function Dropped(seen: set<ConnectionId>, connections: map<ConnectionId, Sid>, stopped: set<Sid>,
                   userOnRecord: map<Sid, User>): set<ConnectionId>
    requires seen <= connections.Keys
  {
    set c | c in seen && connections[c] in stopped && !OnRecord(userOnRecord, connections[c])
  }

  lemma RestartsGrow(seen: set<ConnectionId>, c: ConnectionId, connections: map<ConnectionId, Sid>, stopped: set<Sid>,
                     userOnRecord: map<Sid, User>)
    requires seen <= connections.Keys && c in connections
    ensures var sid := connections[c];
            && Restarts(seen + {c}, connections, stopped, userOnRecord)
               == Restarts(seen, connections, stopped, userOnRecord)
                  + (if sid in stopped && OnRecord(userOnRecord, sid) then {Key(userOnRecord[sid], sid)} else {})
            && Dropped(seen + {c}, connections, stopped, userOnRecord)
               == Dropped(seen, connections, stopped, userOnRecord)
                  + (if sid in stopped && !OnRecord(userOnRecord, sid) then {c} else {})
  {
  }

  /** Every stopped conversation is met through one of its connections. */
  lemma AllStoppedSeen(connections: map<ConnectionId, Sid>, stopped: set<Sid>, userOnRecord: map<Sid, User>)
    requires stopped <= connections.Values
    ensures Restarts(connections.Keys, connections, stopped, userOnRecord)
            == set s | s in stopped && OnRecord(userOnRecord, s) :: Key(userOnRecord[s], s)
  {
    forall s | s in stopped ensures exists c :: c in connections && connections[c] == s {}
  }

  function Kept(connections: map<ConnectionId, Sid>, sid: Sid): map<ConnectionId, Sid> {
    map c | c in connections && connections[c] != sid :: connections[c]
  }

  /** What the protocol's steps of a start and of a close come to when nothing comes between them. */
  lemma StartedAlone(c: Cluster, k: Key)
    requires 0 in c.nodes && c.nodes[0].acquired == map[]
    ensures var d := Step(Step(c, TryStart(0, k)), Register(0, k));
            var node := c.nodes[0];
            && d.now == c.now && 0 in d.nodes && d.nodes[0].connections == node.connections
            && d.nodes[0].acquired == map[] && d.nodes[0].closing == node.closing
            && d.redis == (if Present(c.redis, c.now, k) then c.redis else c.redis[k := c.now + ENTRY_TIMEOUT])
            && d.nodes[0].loops == (if Present(c.redis, c.now, k) then node.loops else node.loops[k.sid := k.user])
  {
  }

  lemma ClosedAlone(c: Cluster, sid: Sid)
    requires 0 in c.nodes && sid in c.nodes[0].loops && c.nodes[0].closing == map[]
    ensures var node := c.nodes[0];
            var k := Key(node.loops[sid], sid);
            var d := Step(Step(c, Pop(0, sid)), Delete(0, k));
            && d.now == c.now && 0 in d.nodes && d.nodes[0].connections == Kept(node.connections, sid)
            && d.nodes[0].acquired == node.acquired && d.nodes[0].closing == map[]
            && d.redis == c.redis - {k} && d.nodes[0].loops == node.loops - {sid}
  {
    var node := c.nodes[0];
    var k := Key(node.loops[sid], sid);
    assert node.closing[k := c.now] - {k} == map[];
  }

  class ClusteredConversationManager {
    const redis: Redis
    var loops: map<Sid, User>
    var connections: map<ConnectionId, Sid>

    constructor (redis: Redis)
      ensures this.redis == redis && loops == map[] && connections == map[]
    {
      this.redis := redis;
      loops, connections := map[], map[];
    }

    /** This node as the protocol sees it between two refresh rounds. */
    ghost function View(): Node
      reads this
    {
      Node(map[], loops, map[], connections, Sleeping(0.0), map[])
    }

    /** The cluster as node 0 of the protocol sees it, with no step of its own under way. */
    ghost function AsCluster(): Cluster
      reads this, redis
    {
      Cluster(redis.now, redis.conversations, map[0 := View()])
    }

    /** The protocol's cluster has come to this Redis server and this manager. */
    ghost predicate Matches(c: Cluster)
      reads this, redis
    {
      && c.now == redis.now && c.redis == redis.conversations && 0 in c.nodes
      && c.nodes[0].loops == loops && c.nodes[0].connections == connections
      && c.nodes[0].acquired == map[] && c.nodes[0].closing == map[]
    }

    /** `maybe_start_agent_loop`, uninterrupted: true when an event store is found afterwards. */
    method MaybeStartAgentLoop(sid: Sid, user: User) returns (started: bool, found: bool)
      modifies this`loops, redis`conversations
      ensures started <==> !Present(old(redis.conversations), redis.now, Key(user, sid))
      ensures found
      ensures started ==> loops == old(loops)[sid := user] && Present(redis.conversations, redis.now, Key(user, sid))
      ensures !started ==> loops == old(loops) && redis.conversations == old(redis.conversations)
      ensures forall k | k != Key(user, sid) ::
                Present(redis.conversations, redis.now, k) == Present(old(redis.conversations), redis.now, k)
      ensures Matches(Step(Step(old(AsCluster()), TryStart(0, Key(user, sid))), Register(0, Key(user, sid))))
    {
      ghost var before := AsCluster();
      started := redis.SetNx(Key(user, sid));
      if started { loops := loops[sid := user]; }
      found := sid in loops || Present(redis.conversations, redis.now, Key(user, sid));
      StartedAlone(before, Key(user, sid));
    }

    /** For each conversation with an entry, a user that an entry names. */
    method UsersOnRecord() returns (userOf: map<Sid, User>)
      ensures forall s | s in userOf :: Key(userOf[s], s) in redis.ScanConversations()
      ensures forall k | k in redis.ScanConversations() :: k.sid in userOf
    {
      userOf := map[];
      var keys := redis.ScanConversations();
      while keys != {}
        invariant keys <= redis.ScanConversations()
        invariant forall s | s in userOf :: Key(userOf[s], s) in redis.ScanConversations()
        invariant forall k | k in redis.ScanConversations() - keys :: k.sid in userOf
        decreases |keys|
      {
        var k :| k in keys;
        userOf := userOf[k.sid := k.user];
        keys := keys - {k};
      }
    }

    method QueueConnections(userOf: map<Sid, User>) returns (marks: set<ConnectionKey>)
      ensures marks == set c | c in connections && connections[c] in userOf && userOf[connections[c]] != "" ::
                         ConnectionKey(userOf[connections[c]], connections[c], c)
    {
      marks := {};
      var ids := connections.Keys;
      while ids != {}
        invariant ids <= connections.Keys
        invariant marks ==
                    set c | c in connections.Keys - ids && connections[c] in userOf && userOf[connections[c]] != "" ::
                      ConnectionKey(userOf[connections[c]], connections[c], c)
        decreases |ids|
      {
        var c :| c in ids;
        if connections[c] in userOf && userOf[connections[c]] != "" {
          marks := marks + {ConnectionKey(userOf[connections[c]], connections[c], c)};
        }
        ids := ids - {c};
      }
    }

    /**
     The first half of `_update_state_in_redis`: every loop is queued, and every connection whose conversation
     has an entry, once, under a user that an entry names.
     */
    method QueueRefresh() returns (pipe: Pipeline)
      ensures pipe.conversations == LoopKeys(loops)
      ensures forall x | x in pipe.connections ::
                && x.connection in connections && connections[x.connection] == x.sid
                && Present(redis.conversations, redis.now, Key(x.user, x.sid)) && x.user != ""
      ensures forall x, y | x in pipe.connections && y in pipe.connections && x.sid == y.sid :: x.user == y.user
      ensures forall c, u |
                c in connections && u != "" && Present(redis.conversations, redis.now, Key(u, connections[c])) &&
                (forall v | Present(redis.conversations, redis.now, Key(v, connections[c])) :: v == u) ::
                ConnectionKey(u, connections[c], c) in pipe.connections
    {
      var userOf := UsersOnRecord();
      var queued: set<Key> := {};
      var sids := loops.Keys;
      while sids != {}
        invariant sids <= loops.Keys
        invariant queued == set s | s in loops.Keys - sids :: Key(loops[s], s)
        decreases |sids|
      {
        var s :| s in sids;
        queued := queued + {Key(loops[s], s)};
        sids := sids - {s};
      }
      var marks := QueueConnections(userOf);
      pipe := Pipeline(queued, marks);
      assert queued == LoopKeys(loops);
      forall c, u | c in connections && u != "" && Present(redis.conversations, redis.now, Key(u, connections[c])) &&
          (forall v | Present(redis.conversations, redis.now, Key(v, connections[c])) :: v == u)
        ensures ConnectionKey(u, connections[c], c) in pipe.connections
      {
        assert Key(u, connections[c]) in redis.ScanConversations();
        assert connections[c] in userOf && Key(userOf[connections[c]], connections[c]) in redis.ScanConversations();
      }
    }

    /**
     `_disconnect_from_stopped`: a restart is attempted for exactly the stopped conversations whose user is on
     record, and exactly the connections to the other stopped conversations are dropped.
     */
    method DisconnectFromStopped(userOnRecord: map<Sid, User>) returns (restarts: set<Key>, dropped: set<ConnectionId>)
      ensures var stopped := Failover.Stopped(View(), redis.conversations, redis.now);
              && restarts == (set s | s in stopped && OnRecord(userOnRecord, s) :: Key(userOnRecord[s], s))
              && dropped ==
                   set c | c in connections && connections[c] in stopped && !OnRecord(userOnRecord, connections[c])
      ensures forall k :: k in restarts <==>
                && k.sid in connections.Values && k.sid !in loops
                && (forall u :: !Present(redis.conversations, redis.now, Key(u, k.sid)))
                && k.user != "" && k.sid in userOnRecord && userOnRecord[k.sid] == k.user
      ensures forall c :: c in dropped <==>
                && c in connections && connections[c] !in loops
                && (forall u :: !Present(redis.conversations, redis.now, Key(u, connections[c])))
                && (connections[c] in userOnRecord ==> userOnRecord[connections[c]] == "")
    {
      var running := Failover.RunningSids(redis.conversations, redis.now);
      var stopped := connections.Values - loops.Keys - running;
      restarts, dropped := HandleStopped(stopped, userOnRecord);
      AllStoppedSeen(connections, stopped, userOnRecord);
    }

    /** The loop over the local connections. */
    method HandleStopped(stopped: set<Sid>, userOnRecord: map<Sid, User>)
      returns (restarts: set<Key>, dropped: set<ConnectionId>)
      ensures restarts == Restarts(connections.Keys, connections, stopped, userOnRecord)
      ensures dropped == Dropped(connections.Keys, connections, stopped, userOnRecord)
    {
      restarts, dropped := {}, {};
      var links := connections;
      var ids := links.Keys;
      while ids != {}
        invariant ids <= links.Keys
        invariant restarts == Restarts(links.Keys - ids, links, stopped, userOnRecord)
        invariant dropped == Dropped(links.Keys - ids, links, stopped, userOnRecord)
        decreases ids
      {
        var c :| c in ids;
        var sid := links[c];
        RestartsGrow(links.Keys - ids, c, links, stopped, userOnRecord);
        assert links.Keys - (ids - {c}) == (links.Keys - ids) + {c};
        if sid in stopped {
          if OnRecord(userOnRecord, sid) {
            restarts := restarts + {Key(userOnRecord[sid], sid)};
          } else {
            dropped := dropped + {c};
          }
        }
        ids := ids - {c};
      }
      assert links.Keys - ids == links.Keys;
    }

    /**
     `_close_session`, uninterrupted.  Without a local loop the command that should delete the connection
     entries is never awaited, so Redis is left as it was.
     */
    method CloseSession(sid: Sid)
      modifies this`loops, this`connections, redis`conversations, redis`connections
      ensures loops == old(loops) - {sid}
      ensures connections == Kept(old(connections), sid)
      ensures sid !in old(loops) ==>
                redis.conversations == old(redis.conversations) && redis.connections == old(redis.connections)
      ensures sid in old(loops) ==>
                redis.conversations == old(redis.conversations) - {Key(old(loops)[sid], sid)}
      ensures sid in old(loops) ==>
                Matches(Step(Step(old(AsCluster()), Pop(0, sid)), Delete(0, Key(old(loops)[sid], sid))))
      ensures sid in old(loops) ==>
                forall x :: x in redis.connections <==>
                  x in old(redis.connections) &&
                  !(x.sid == sid && x.connection in old(connections) && old(connections)[x.connection] == sid &&
                    redis.now < old(redis.connections)[x])
      ensures forall x | x in redis.connections ::
                  x in old(redis.connections) && redis.connections[x] == old(redis.connections)[x]
    {
      var closing := set c | c in connections && connections[c] == sid;
      var marks := set x | x in redis.ScanConnections() && x.sid == sid && x.connection in closing;
      var ids := closing;
      while ids != {}
        invariant ids <= closing <= old(connections).Keys
        invariant connections == old(connections) - (closing - ids)
        modifies this`connections
        decreases |ids|
      {
        var c :| c in ids;
        connections := connections - {c};
        ids := ids - {c};
      }
      assert connections == Kept(old(connections), sid);
      if sid in loops {
        var key := Key(loops[sid], sid);
        ClosedAlone(old(AsCluster()), sid);
        loops := loops - {sid};
        redis.connections := redis.connections - marks;
        redis.conversations := redis.conversations - {key};
      }
    }

    // -------------------------------------------------------------- lookups

    predicate Wanted(user: User, filter: Option<set<Sid>>, sid: Sid, owner: User) {
      (filter.None? || sid in filter.value) && (user == "" || owner == user)
    }

    /** The conversation runs for the owner, here or by its entry in Redis. */
    ghost predicate RunsFor(owner: User, sid: Sid)
      reads this, redis
    {
      (sid in loops && loops[sid] == owner) || Present(redis.conversations, redis.now, Key(owner, sid))
    }

    function RunningLocally(user: User, filter: Option<set<Sid>>): set<Sid>
      reads this
    {
      set s | s in loops && Wanted(user, filter, s, loops[s])
    }

    function RunningRemotely(user: User, filter: Option<set<Sid>>): set<Sid>
      reads this, redis
    {
      set k | k in redis.ScanConversations() && Wanted(user, filter, k.sid, k.user) :: k.sid
    }

    /** Skipping the Redis scan when the local answer is as large as the filter never changes the answer. */
    method GetRunningAgentLoops(user: User, filter: Option<set<Sid>>) returns (sids: set<Sid>)
      ensures sids == RunningLocally(user, filter) + RunningRemotely(user, filter)
      ensures forall sid :: sid in sids <==>
                && (filter.None? || sid in filter.value)
                && exists owner :: (user == "" || owner == user) && RunsFor(owner, sid)
    {
      sids := RunningLocally(user, filter);
      if filter.None? || filter.value == {} || |sids| != |filter.value| {
        sids := sids + RunningRemotely(user, filter);
      } else {
        SubsetOfEqualSize(sids, filter.value);
      }
      forall sid | sid in RunningLocally(user, filter)
        ensures exists owner :: (user == "" || owner == user) && RunsFor(owner, sid)
      {
        assert RunsFor(loops[sid], sid);
      }
      forall owner, sid | Present(redis.conversations, redis.now, Key(owner, sid))
        ensures Key(owner, sid) in redis.ScanConversations() && RunsFor(owner, sid)
      {
      }
    }
  }
}
