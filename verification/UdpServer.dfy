/** The UDP proxy object, updated in place, and its step functions as the specification. */
module UdpServer {
  import opened Prelude
  import opened TokenBuckets
  import opened UdpProxy

  class UdpProxyServer {
    const limits: RateLimits
    const idleTimeout: real
    var sessions: map<Key, Session>
    var byId: map<nat, Session>
    var lastActive: map<nat, real>
    var nextId: nat
    var sources: map<Ip, Source>
    var droppedOversized: nat
    var droppedRateLimited: nat
    var droppedSessionLimited: nat

    ghost function View(): Proxy
      reads this
    {
      Proxy(limits, idleTimeout, sessions, byId, lastActive, nextId, sources,
            droppedOversized, droppedRateLimited, droppedSessionLimited)
    }

    ghost predicate Valid()
      reads this
    {
      Index(View())
    }

    constructor (limits: RateLimits, idleTimeout: real)
      ensures Valid() && View() == Empty(limits, idleTimeout)
    {
      this.limits, this.idleTimeout := limits, idleTimeout;
      sessions, byId, lastActive, nextId, sources := map[], map[], map[], 0, map[];
      droppedOversized, droppedRateLimited, droppedSessionLimited := 0, 0, 0;
      new;
      EmptyIndex(limits, idleTimeout);
    }

    /** Charges both buckets of the source, creating it if need be. */
    method ChargeSource(ip: Ip, len: nat, now: real) returns (ok: bool)
      modifies this`sources
      ensures var (source, paid) := Charge(SourceAt(old(View()), ip, now), len, now);
              sources == old(sources)[ip := source] && ok == paid
    {
      var s := if ip in sources then sources[ip] else NewSource(limits, now);
      var (packets, packetsOk) := TryTake(s.packets, 1.0, now);
      var (bytes, bytesOk) := TryTake(s.bytes, len as real, now);
      sources := sources[ip := Source(s.sessions, packets, bytes)];
      ok := packetsOk && bytesOk;
    }

    method Admit(key: Key, len: nat, now: real) returns (ok: bool)
      modifies this
      ensures (View(), ok) == AdmitPacket(old(View()), key, len, now)
    {
      var ip := key.client.ip;
      if key !in sessions {
        var count := if ip in sources then sources[ip].sessions else 0;
        if count >= limits.maxSessionsPerIp {
          droppedSessionLimited := droppedSessionLimited + 1;
          return false;
        }
      }
      ok := ChargeSource(ip, len, now);
      if !ok {
        droppedRateLimited := droppedRateLimited + 1;
      }
    }

    method GetOrCreateSession(route: Route, client: Addr, socket: SocketId, now: real)
      returns (s: Session, control: seq<Control>)
      modifies this
      ensures (View(), s, control) == GetOrCreate(old(View()), route, client, socket, now)
    {
      var key := Key(client, route.id);
      if key in sessions {
        return sessions[key], [];
      }
      s := Session(nextId, route, client, socket);
      nextId := nextId + 1;
      sessions := sessions[key := s];
      byId := byId[s.id := s];
      lastActive := lastActive[s.id := now];
      var source := if client.ip in sources then sources[client.ip] else NewSource(limits, now);
      sources := sources[client.ip := source.(sessions := source.sessions + 1)];
      control := [UdpOpen(route.id, s.id)];
    }

    /** One client packet, from the route lookup to the datagram. */
    method OnPacket(pk: Packet, now: real) returns (outcome: Outcome)
      requires Valid()
      modifies this
      ensures Valid() && (View(), outcome) == ForwardToAgent(old(View()), pk, now)
    {
      ForwardKeepsIndex(View(), pk, now);
      if pk.route.None? || pk.peer.None? {
        return Dropped;
      }
      if |pk.payload| > MaxPayload(pk.peer.value) {
        droppedOversized := droppedOversized + 1;
        return Dropped;
      }
      outcome := Forward(pk, now);
    }

    /** A packet with a route, a peer and a payload that fits. */
    method Forward(pk: Packet, now: real) returns (outcome: Outcome)
      requires pk.route.Some? && pk.peer.Some? && |pk.payload| <= MaxPayload(pk.peer.value)
      modifies this
      ensures (View(), outcome) == ForwardToAgent(old(View()), pk, now)
    {
      var admitted := Admit(Key(pk.client, pk.route.value.id), |pk.payload|, now);
      if !admitted {
        return Dropped;
      }
      var s, control := GetOrCreateSession(pk.route.value, pk.client, pk.socket, now);
      if !pk.sendOk {
        return Unsent(control);
      }
      lastActive := lastActive[s.id := now];
      outcome := Forwarded(s, control);
    }

    /** One datagram from an agent: the client to write to, if the session is known. */
    method OnDatagram(id: nat, now: real) returns (receiver: Option<Session>)
      requires Valid()
      modifies this`lastActive
      ensures Valid() && (View(), receiver) == HandleDatagram(old(View()), id, now)
    {
      DatagramKeepsIndex(View(), id, now);
      if id !in byId {
        return None;
      }
      receiver := Some(byId[id]);
      lastActive := lastActive[id := now];
    }

    /** Takes one session out of both maps and off its source's count. */
    method Remove(s: Session)
      modifies this`sessions, this`byId, this`lastActive, this`sources
      ensures View() == Removed(old(View()), s)
    {
      sessions := sessions - {KeyOf(s)};
      byId := byId - {s.id};
      lastActive := lastActive - {s.id};
      if s.client.ip in sources {
        var source := sources[s.client.ip];
        if source.sessions > 0 {
          sources := sources[s.client.ip := source.(sessions := source.sessions - 1)];
        }
      }
    }

    /**
     The reaper: drop every expired session, tell its node, and forget the sources that are
     left without a session. The closing messages go out in the order of `expired`.
     */
    method ReapExpired(now: real) returns (expired: seq<Session>)
      requires Valid()
      modifies this`sessions, this`byId, this`lastActive, this`sources
      ensures Valid() && View() == Reap(old(View()), now)
      ensures ListsExpired(old(View()), expired, now)
    {
      Timely(View());
      expired := Sweep(now);
      CollectedReaps(old(View()), expired, now);
    }

    method Sweep(now: real) returns (expired: seq<Session>)
      requires Timed(View())
      modifies this`sessions, this`byId, this`lastActive, this`sources
      ensures Collected(old(View()), expired, {}, now)
      ensures View() == Swept(old(View()), expired)
    {
      ghost var p := View();
      expired := CollectExpired(sessions, lastActive, idleTimeout, now, p);
      RemoveEach(expired);
      sources := DropIdle(sources);
    }

    method RemoveEach(order: seq<Session>)
      modifies this`sessions, this`byId, this`lastActive, this`sources
      ensures View() == RemoveAll(old(View()), order)
    {
      for i := 0 to |order|
        invariant View() == RemoveAll(old(View()), order[..i])
      {
        assert order[..i + 1][..i] == order[..i];
        Remove(order[i]);
      }
      assert order[..|order|] == order;
    }
  }

  // ---------------------------------------------------------------- collecting

  /** Every session is filed under its key and has a time of last activity. */
  ghost predicate Timed(p: Proxy) {
    forall k | k in p.sessions :: KeyOf(p.sessions[k]) == k && p.sessions[k].id in p.lastActive
  }

  lemma Timely(p: Proxy)
    requires Index(p)
    ensures Timed(p)
  {
  }

  /** The expired sessions outside `todo`, each once. */
  ghost predicate Collected(p: Proxy, expired: seq<Session>, todo: set<Key>, now: real) {
    && (forall i, j | 0 <= i < j < |expired| :: expired[i] != expired[j])
    && (forall s | s in expired ::
          var k := KeyOf(s);
          k in p.sessions && p.sessions[k] == s && k !in todo && Expired(p, s, now))
    && (forall k | k in p.sessions && k !in todo && Expired(p, p.sessions[k], now) :: p.sessions[k] in expired)
  }

  /** The sessions idle for too long, in no particular order. */
  method CollectExpired(sessions: map<Key, Session>, lastActive: map<nat, real>, idleTimeout: real,
                        now: real, ghost p: Proxy)
    returns (expired: seq<Session>)
    requires p.sessions == sessions && p.lastActive == lastActive && p.idleTimeout == idleTimeout
    requires Timed(p)
    ensures Collected(p, expired, {}, now)
  {
    expired := [];
    var todo := sessions.Keys;
    while todo != {}
      invariant todo <= sessions.Keys
      invariant Collected(p, expired, todo, now)
      decreases |todo|
    {
      var k :| k in todo;
      CollectNext(p, expired, todo, k, now);
      var last := lastActive[sessions[k].id];
      var idle := if now > last then now - last else 0.0;
      if idle > idleTimeout {
        expired := expired + [sessions[k]];
      }
      todo := todo - {k};
    }
  }

  lemma CollectNext(p: Proxy, expired: seq<Session>, todo: set<Key>, k: Key, now: real)
    requires Collected(p, expired, todo, now) && k in todo && k in p.sessions && KeyOf(p.sessions[k]) == k
    ensures var s := p.sessions[k];
            Collected(p, if Expired(p, s, now) then expired + [s] else expired, todo - {k}, now)
  {
  }

  lemma CollectedAll(p: Proxy, expired: seq<Session>, now: real)
    requires Index(p) && Collected(p, expired, {}, now)
    ensures ListsExpired(p, expired, now)
  {
  }

  // ---------------------------------------------------------------- removing one by one

  function Discounted(sources: map<Ip, Source>, ip: Ip): map<Ip, Source> {
    if ip in sources && sources[ip].sessions > 0
    then sources[ip := sources[ip].(sessions := sources[ip].sessions - 1)]
    else sources
  }

  function Removed(p: Proxy, s: Session): Proxy {
    p.(sessions := p.sessions - {KeyOf(s)},
       byId := p.byId - {s.id},
       lastActive := p.lastActive - {s.id},
       sources := Discounted(p.sources, s.client.ip))
  }

  function RemoveAll(p: Proxy, order: seq<Session>): Proxy {
    if order == [] then p else Removed(RemoveAll(p, order[..|order| - 1]), order[|order| - 1])
  }

  function DropIdle(sources: map<Ip, Source>): map<Ip, Source> {
    map ip | ip in sources && sources[ip].sessions > 0 :: sources[ip]
  }

  function Swept(p: Proxy, order: seq<Session>): Proxy {
    var q := RemoveAll(p, order);
    q.(sources := DropIdle(q.sources))
  }

  lemma LinkedRemove(sessions: map<Key, Session>, byId: map<nat, Session>, nextId: nat, s: Session)
    requires Linked(sessions, byId, nextId) && s.id in byId && byId[s.id] == s
    ensures Linked(sessions - {KeyOf(s)}, byId - {s.id}, nextId)
  {
  }

  lemma CountedRemove(sessions: map<Key, Session>, sources: map<Ip, Source>, max: nat, key: Key)
    requires Counted(sessions, sources, max) && key in sessions
    ensures Counted(sessions - {key}, Discounted(sources, key.client.ip), max)
  {
    var ip, rest := key.client.ip, sessions - {key};
    assert key in SessionsOf(sessions, ip);
    assert SessionsOf(rest, ip) == SessionsOf(sessions, ip) - {key};
    forall other | other != ip ensures SessionsOf(rest, other) == SessionsOf(sessions, other) {
    }
  }

  lemma RemovedIndex(p: Proxy, s: Session)
    requires Index(p) && s.id in p.byId && p.byId[s.id] == s
    ensures Index(Removed(p, s))
  {
    LinkedRemove(p.sessions, p.byId, p.nextId, s);
    CountedRemove(p.sessions, p.sources, p.limits.maxSessionsPerIp, KeyOf(s));
  }

  function IdsOf(order: seq<Session>): set<nat> {
    set s | s in order :: s.id
  }

  lemma {:induction false} RemoveAllMaps(p: Proxy, order: seq<Session>)
    ensures var q := RemoveAll(p, order);
            && q.byId == p.byId - IdsOf(order) && q.lastActive == p.lastActive - IdsOf(order)
            && q == p.(sessions := q.sessions, byId := q.byId, lastActive := q.lastActive, sources := q.sources)
  {
    if order == [] {
      assert IdsOf(order) == {};
      assert p.byId - {} == p.byId && p.lastActive - {} == p.lastActive;
    } else {
      var n := |order| - 1;
      RemoveAllMaps(p, order[..n]);
      assert order == order[..n] + [order[n]];
      assert IdsOf(order) == IdsOf(order[..n]) + {order[n].id};
      assert p.byId - IdsOf(order) == p.byId - IdsOf(order[..n]) - {order[n].id};
      assert p.lastActive - IdsOf(order) == p.lastActive - IdsOf(order[..n]) - {order[n].id};
    }
  }

  /** Sources may count differently, and that is all. */
  ghost predicate SameBuckets(s: map<Ip, Source>, t: map<Ip, Source>) {
    s.Keys == t.Keys && forall ip | ip in s :: s[ip].packets == t[ip].packets && s[ip].bytes == t[ip].bytes
  }

  lemma {:induction false} RemoveAllSources(p: Proxy, order: seq<Session>)
    ensures SameBuckets(p.sources, RemoveAll(p, order).sources)
  {
    if order != [] {
      RemoveAllSources(p, order[..|order| - 1]);
    }
  }

  lemma {:induction false} RemoveAllIndex(p: Proxy, order: seq<Session>)
    requires Index(p)
    requires Listed(p.byId, order)
    ensures Index(RemoveAll(p, order))
  {
    if order != [] {
      var n := |order| - 1;
      ListedPrefix(p.byId, order);
      RemoveAllIndex(p, order[..n]);
      RemoveAllMaps(p, order[..n]);
      RemovedIndex(RemoveAll(p, order[..n]), order[n]);
    }
  }

  /** Known sessions, each listed once. */
  ghost predicate Listed(byId: map<nat, Session>, order: seq<Session>) {
    && (forall i, j | 0 <= i < j < |order| :: order[i].id != order[j].id)
    && (forall i | 0 <= i < |order| :: order[i].id in byId && byId[order[i].id] == order[i])
  }

  lemma ListedPrefix(byId: map<nat, Session>, order: seq<Session>)
    requires Listed(byId, order) && order != []
    ensures var n := |order| - 1;
            Listed(byId, order[..n]) && order[n].id in byId - IdsOf(order[..n])
            && (byId - IdsOf(order[..n]))[order[n].id] == order[n]
  {
  }

  lemma ExpiredIds(p: Proxy, order: seq<Session>, now: real)
    requires Index(p) && ListsExpired(p, order, now)
    ensures Reap(p, now).byId == p.byId - IdsOf(order)
    ensures Reap(p, now).lastActive == p.lastActive - IdsOf(order)
    ensures Listed(p.byId, order)
  {
    forall i | 0 <= i < |order| ensures order[i].id in p.byId && p.byId[order[i].id] == order[i] {
      assert order[i] in order;
    }
    forall id | id in p.byId ensures id in IdsOf(order) <==> Expired(p, p.byId[id], now) {
      assert p.byId[id] in order <==> Expired(p, p.byId[id], now);
    }
  }

  /** A state whose maps are linked and that has the live ids has the live sessions. */
  lemma SameSessions(p: Proxy, q: Proxy, now: real)
    requires Linked(p.sessions, p.byId, p.nextId) && Linked(q.sessions, q.byId, q.nextId)
    requires q.byId == Reap(p, now).byId
    ensures q.sessions == LiveSessions(p, now)
  {
    var live := LiveSessions(p, now);
    forall k ensures k in q.sessions <==> k in live {
      if k in q.sessions {
        assert q.sessions[k].id in p.byId;
      }
      if k in live {
        assert live[k].id in q.byId;
      }
    }
  }

  lemma SourcesReaped(p: Proxy, q: Proxy, now: real)
    requires Counted(q.sessions, q.sources, q.limits.maxSessionsPerIp) && SameBuckets(p.sources, q.sources)
    requires q.sessions == LiveSessions(p, now)
    ensures DropIdle(q.sources) == Reap(p, now).sources
  {
    forall ip | ip in q.sources
      ensures q.sources[ip].sessions > 0 <==> HasSession(q.sessions, ip)
      ensures q.sources[ip] == Recounted(p.sources[ip], q.sessions, ip)
    {
    }
  }

  /** Collecting, removing and dropping idle sources together are reaping. */
  lemma CollectedReaps(p: Proxy, order: seq<Session>, now: real)
    requires Index(p) && Collected(p, order, {}, now)
    ensures Swept(p, order) == Reap(p, now)
    ensures Index(Reap(p, now)) && ListsExpired(p, order, now)
  {
    CollectedAll(p, order, now);
    RemoveAllReaps(p, order, now);
    ReapKeepsIndex(p, now);
  }

  /** Removing the expired sessions one by one, then dropping idle sources, is reaping. */
  lemma RemoveAllReaps(p: Proxy, order: seq<Session>, now: real)
    requires Index(p) && ListsExpired(p, order, now)
    ensures Swept(p, order) == Reap(p, now)
  {
    ExpiredIds(p, order, now);
    RemoveAllMaps(p, order);
    RemoveAllSources(p, order);
    RemoveAllIndex(p, order);
    SameSessions(p, RemoveAll(p, order), now);
    SourcesReaped(p, RemoveAll(p, order), now);
  }
}
