/**
 The two stateful ends of the configuration protocol: the agent's session, with its route
 vector, and the server's table of push channels. Their methods take the protocol's steps.
 */
module ConfigActors {
  import opened Prelude
  import opened Routes
  import opened ConfigProtocol

  /** The authenticated agent, from the handshake snapshot on (agent/src/session.rs). */
  class AgentSession {
    var appliedVersion: nat
    var routes: seq<RouteConfig>

    ghost predicate Valid()
      reads this
    {
      DistinctIds(routes)
    }

    /** The session as the protocol sees it. */
    ghost function View(): Agent
      reads this
    {
      Session(appliedVersion, ById(routes))
    }

    /** Reads the handshake snapshot. Route ids are the primary key they were listed by. */
    constructor (version: nat, snapshot: seq<RouteConfig>)
      requires DistinctIds(snapshot)
      ensures Valid() && (View(), Ack(version)) == AgentReceives(NoSession, Snapshot(version, ById(snapshot)))
    {
      appliedVersion, routes := version, snapshot;
    }

    method OnSnapshot(version: nat, snapshot: seq<RouteConfig>) returns (reply: Reply)
      requires Valid() && DistinctIds(snapshot)
      modifies this
      ensures Valid() && (View(), reply) == AgentReceives(old(View()), Snapshot(version, ById(snapshot)))
      ensures appliedVersion == version && routes == snapshot && reply == Ack(version)
    {
      appliedVersion, routes := version, snapshot;
      reply := Ack(version);
    }

    /** Applies the update of the next version; any other version is refused untouched. */
    method OnUpdate(version: nat, delta: RouteDelta) returns (reply: Reply)
      requires Valid()
      modifies this
      ensures Valid() && (View(), reply) == AgentReceives(old(View()), Update(version, delta))
      ensures reply == if version == old(appliedVersion) + 1 then Ack(version) else Resync(old(appliedVersion))
      ensures reply.Ack? ==> appliedVersion == version && ById(routes) == ApplyDelta(old(ById(routes)), delta)
      ensures reply.Resync? ==> unchanged(this)
    {
      if version != appliedVersion + 1 {
        return Resync(appliedVersion);
      }
      routes := ApplyRouteDelta(routes, delta);
      appliedVersion := version;
      reply := Ack(version);
    }
  }

  /** The configuration columns of the database, per node. */
  class Db {
    var versions: map<NodeId, nat>
    /** The routes of a node; none where a row does not parse. */
    var tables: map<NodeId, Option<seq<RouteConfig>>>

    constructor ()
      ensures versions == map[] && tables == map[]
    {
      versions, tables := map[], map[];
    }
  }

  /** Push channels of the connected nodes (server/src/config_sync.rs). */
  class ConfigSync {
    var channels: map<NodeId, seq<Msg>>

    constructor ()
      ensures channels == map[]
    {
      channels := map[];
    }

    /** A new, empty channel; one already registered for the node is replaced. */
    method Register(node: NodeId)
      modifies this
      ensures channels == old(channels)[node := []]
    {
      channels := channels[node := []];
    }

    method Unregister(node: NodeId)
      modifies this
      ensures channels == old(channels) - {node}
    {
      channels := channels - {node};
    }

    method Push(node: NodeId, m: Msg)
      modifies this
      ensures node !in old(channels) ==> channels == old(channels)
      ensures node in old(channels) ==> channels == old(channels)[node := old(channels)[node] + [m]]
    {
      if node in channels {
        channels := channels[node := channels[node] + [m]];
      }
    }

    /** Bump, compute the delta, push. Channels of other nodes are not touched. */
    method NotifyRoutesChanged(db: Db, node: NodeId, previous: seq<RouteConfig>, current: seq<RouteConfig>)
      returns (r: Result<nat, ()>)
      requires db as object != this
      modifies this, db`versions
      ensures r.Err? <==> node !in old(db.versions)
      ensures r.Err? ==> unchanged(this) && unchanged(db)
      ensures r.Ok? ==> r.value == old(db.versions)[node] + 1
                        && db.versions == old(db.versions)[node := r.value]
      ensures forall n | n != node :: (n in channels <==> n in old(channels))
                                      && (n in channels ==> channels[n] == old(channels)[n])
      ensures node in channels <==> node in old(channels)
      ensures r.Ok? && node in channels ==>
                && |channels[node]| == |old(channels)[node]| + 1
                && channels[node][..|old(channels)[node]|] == old(channels)[node]
                && var m := channels[node][|old(channels)[node]|];
                   m.Update? && m.version == r.value && IsDelta(m.delta, ById(previous), ById(current))
    {
      if node !in db.versions {
        return Err(());
      }
      var version := db.versions[node] + 1;
      db.versions := db.versions[node := version];
      var delta := ComputeRouteDelta(previous, current);
      Push(node, Update(version, delta));
      r := Ok(version);
    }

    /**
     Pushes the routes the database holds now under a version bumped earlier; when they cannot be
     listed or parsed it fails and pushes nothing.
     */
    method PushSnapshot(db: Db, node: NodeId, version: nat, listed: bool) returns (r: Result<(), ()>)
      modifies this
      ensures var rows := if node in db.tables then db.tables[node] else Some([]);
              && (r.Ok? <==> listed && rows.Some?)
              && channels == if r.Ok? && node in old(channels)
                             then old(channels)[node := old(channels)[node] + [Snapshot(version, ById(rows.value))]]
                             else old(channels)
    {
      if !listed {
        return Err(());
      }
      var rows := if node in db.tables then db.tables[node] else Some([]);
      if rows == None {
        return Err(());
      }
      Push(node, Snapshot(version, ById(rows.value)));
      r := Ok(());
    }

    /** The control task takes the next message of its channel. */
    method Receive(node: NodeId) returns (m: Option<Msg>)
      modifies this
      ensures m.Some? <==> node in old(channels) && old(channels)[node] != []
      ensures m.Some? ==> m.value == old(channels)[node][0]
                          && channels == old(channels)[node := old(channels)[node][1..]]
      ensures m.None? ==> unchanged(this)
    {
      if node in channels && channels[node] != [] {
        m := Some(channels[node][0]);
        channels := channels[node := channels[node][1..]];
      } else {
        m := None;
      }
    }
  }
}
