/**
 The server's UDP session plane (server/src/udp_proxy.rs): sessions by (client, route) and
 by id, one rate state per source IP, and a reaper that drops idle sessions and with them
 the rate state of sources left without any.

 Handling a packet, a datagram or a reap is one step; `now` is a non-decreasing clock in
 seconds. A session object is shared by the two session maps and only its time of last
 activity changes; that time is kept in a map of its own. Session ids do not wrap around.
 */
module UdpProxy {
  import opened Prelude
  import opened TokenBuckets

  type SocketId = nat

  /** What a packet needs of the route that listens where it arrived. */
  datatype Route = Route(id: RouteId, node: NodeId)

  datatype RateLimits = RateLimits(maxSessionsPerIp: nat, maxPacketsPerSec: nat, maxBytesPerSec: nat)

  datatype Source = Source(sessions: nat, packets: Bucket, bytes: Bucket)

  datatype Key = Key(client: Addr, route: RouteId)

  datatype Session = Session(id: nat, route: Route, client: Addr, socket: SocketId)

  function KeyOf(s: Session): Key {
    Key(s.client, s.route.id)
  }

  /** Control messages pushed to the session's node. */
  datatype Control =
    | UdpOpen(route: RouteId, session: nat)
    | UdpClose(session: nat)

  datatype Proxy = Proxy(
    limits: RateLimits,
    idleTimeout: real,
    sessions: map<Key, Session>,
    byId: map<nat, Session>,
    lastActive: map<nat, real>,
    nextId: nat,
    sources: map<Ip, Source>,
    droppedOversized: nat,
    droppedRateLimited: nat,
    droppedSessionLimited: nat)

  function NewSource(limits: RateLimits, now: real): Source {
    Source(0, NewBucket(limits.maxPacketsPerSec, now), NewBucket(limits.maxBytesPerSec, now))
  }

  // ---------------------------------------------------------------- one packet

  const HeaderLen: nat := 10
  const MaxUdpPayload: nat := 1200

  /** The largest payload the peer takes; nothing when it announced no datagram size. */
  function MaxPayload(peerMax: Option<nat>): nat {
    match peerMax
    case None => 0
    case Some(m) => Min(if m < HeaderLen then 0 else m - HeaderLen, MaxUdpPayload)
  }

  function SourceAt(p: Proxy, ip: Ip, now: real): Source {
    if ip in p.sources then p.sources[ip] else NewSource(p.limits, now)
  }

  function CountOf(p: Proxy, ip: Ip): nat {
    if ip in p.sources then p.sources[ip].sessions else 0
  }

  /** Both buckets are charged, also when only one of them has enough. */
  function Charge(s: Source, len: nat, now: real): (Source, bool) {
    var (packets, packetsOk) := TryTake(s.packets, 1.0, now);
    var (bytes, bytesOk) := TryTake(s.bytes, len as real, now);
    (s.(packets := packets, bytes := bytes), packetsOk && bytesOk)
  }

  function AdmitPacket(p: Proxy, key: Key, len: nat, now: real): (Proxy, bool) {
    var ip := key.client.ip;
    if key !in p.sessions && CountOf(p, ip) >= p.limits.maxSessionsPerIp then
      (p.(droppedSessionLimited := p.droppedSessionLimited + 1), false)
    else
      var (source, ok) := Charge(SourceAt(p, ip, now), len, now);
      var p' := p.(sources := p.sources[ip := source]);
      if ok then (p', true)
      else (p'.(droppedRateLimited := p.droppedRateLimited + 1), false)
  }

  function AddSession(p: Proxy, s: Session, source: Source, now: real): Proxy {
    p.(sessions := p.sessions[KeyOf(s) := s],
       byId := p.byId[s.id := s],
       lastActive := p.lastActive[s.id := now],
       nextId := p.nextId + 1,
       sources := p.sources[s.client.ip := source])
  }

  /** The session of (client, route), created with a fresh id when there is none. */
  function GetOrCreate(p: Proxy, route: Route, client: Addr, socket: SocketId, now: real)
    : (Proxy, Session, seq<Control>)
  {
    var key := Key(client, route.id);
    if key in p.sessions then (p, p.sessions[key], [])
    else
      var s := Session(p.nextId, route, client, socket);
      var source := SourceAt(p, client.ip, now);
      (AddSession(p, s, source.(sessions := source.sessions + 1), now), s, [UdpOpen(route.id, s.id)])
  }

  function Touch(p: Proxy, id: nat, now: real): Proxy {
    p.(lastActive := p.lastActive[id := now])
  }

  /** A client packet, with what the route table and the connection registry say of it. */
  datatype Packet = Packet(
    client: Addr,
    socket: SocketId,
    route: Option<Route>,         // None: no route listens there any more
    peer: Option<Option<nat>>,    // None: the node is offline; else its datagram size
    payload: seq<nat>,
    sendOk: bool)                 // whether the connection accepts the datagram

  datatype Outcome =
    | Dropped
    | Unsent(control: seq<Control>)
    | Forwarded(session: Session, control: seq<Control>)

  function ForwardToAgent(p: Proxy, pk: Packet, now: real): (Proxy, Outcome) {
    if pk.route.None? || pk.peer.None? then (p, Dropped)
    else if |pk.payload| > MaxPayload(pk.peer.value) then
      (p.(droppedOversized := p.droppedOversized + 1), Dropped)
    else
      var (p1, admitted) := AdmitPacket(p, Key(pk.client, pk.route.value.id), |pk.payload|, now);
      if !admitted then (p1, Dropped)
      else
        var (p2, s, control) := GetOrCreate(p1, pk.route.value, pk.client, pk.socket, now);
        if pk.sendOk then (Touch(p2, s.id, now), Forwarded(s, control))
        else (p2, Unsent(control))
  }

  /** A datagram from an agent: the client it goes to, if its session is still known. */
  function HandleDatagram(p: Proxy, id: nat, now: real): (Proxy, Option<Session>) {
    if id in p.byId then (Touch(p, id, now), Some(p.byId[id])) else (p, None)
  }

  // ---------------------------------------------------------------- reaping

  /** Known to the clock and idle for longer than the timeout. */
  predicate Expired(p: Proxy, s: Session, now: real) {
    s.id in p.lastActive
    && (if now > p.lastActive[s.id] then now - p.lastActive[s.id] else 0.0) > p.idleTimeout
  }

  /** The sessions from one address. */
  function SessionsOf(sessions: map<Key, Session>, ip: Ip): set<Key> {
    set k | k in sessions && k.client.ip == ip
  }

  function LiveSessions(p: Proxy, now: real): map<Key, Session> {
    map k | k in p.sessions && !Expired(p, p.sessions[k], now) :: p.sessions[k]
  }

  function LiveIds(p: Proxy, now: real): set<nat> {
    set id | id in p.byId && !Expired(p, p.byId[id], now)
  }

  predicate HasSession(sessions: map<Key, Session>, ip: Ip) {
    SessionsOf(sessions, ip) != {}
  }

  function Recounted(s: Source, sessions: map<Key, Session>, ip: Ip): Source {
    s.(sessions := |SessionsOf(sessions, ip)|)
  }

  /** Expired sessions go; sources keep their buckets only while they have a session left. */
  function Reap(p: Proxy, now: real): Proxy {
    var live, ids := LiveSessions(p, now), LiveIds(p, now);
    p.(sessions := live,
       byId := map id | id in p.byId && id in ids :: p.byId[id],
       lastActive := map id | id in p.lastActive && id in ids :: p.lastActive[id],
       sources := map ip | ip in p.sources && HasSession(live, ip) :: Recounted(p.sources[ip], live, ip))
  }

  /** `order` lists the expired sessions, each once. */
  ghost predicate ListsExpired(p: Proxy, order: seq<Session>, now: real) {
    && (forall i, j | 0 <= i < j < |order| :: order[i] != order[j])
    && (forall s :: s in order <==> s.id in p.byId && p.byId[s.id] == s && Expired(p, s, now))
  }

  // ---------------------------------------------------------------- the indices agree

  /** The two session maps are inverse to each other, and every id is below `nextId`. */
  ghost predicate Linked(sessions: map<Key, Session>, byId: map<nat, Session>, nextId: nat) {
    && (forall k {:trigger sessions[k]} | k in sessions ::
          KeyOf(sessions[k]) == k && sessions[k].id in byId && byId[sessions[k].id] == sessions[k])
    && (forall id {:trigger byId[id]} | id in byId ::
          byId[id].id == id < nextId && KeyOf(byId[id]) in sessions && sessions[KeyOf(byId[id])] == byId[id])
  }

  /** Each source counts the sessions from its address, never more than the limit. */
  ghost predicate Counted(sessions: map<Key, Session>, sources: map<Ip, Source>, max: nat) {
    && (forall k | k in sessions :: k.client.ip in sources)
    && (forall ip | ip in sources :: sources[ip].sessions == |SessionsOf(sessions, ip)| <= max)
  }

  ghost predicate Index(p: Proxy) {
    && Linked(p.sessions, p.byId, p.nextId)
    && p.lastActive.Keys == p.byId.Keys
    && Counted(p.sessions, p.sources, p.limits.maxSessionsPerIp)
  }

  function Empty(limits: RateLimits, idleTimeout: real): Proxy {
    Proxy(limits, idleTimeout, map[], map[], map[], 0, map[], 0, 0, 0)
  }

  lemma EmptyIndex(limits: RateLimits, idleTimeout: real)
    ensures Index(Empty(limits, idleTimeout))
  {
  }

  lemma CountedSet(sessions: map<Key, Session>, sources: map<Ip, Source>, max: nat, ip: Ip, source: Source)
    requires Counted(sessions, sources, max)
    requires source.sessions == |SessionsOf(sessions, ip)| <= max
    ensures Counted(sessions, sources[ip := source], max)
  {
  }

  lemma CountedAdd(sessions: map<Key, Session>, sources: map<Ip, Source>, max: nat,
                   key: Key, s: Session, source: Source)
    requires Counted(sessions, sources, max) && key !in sessions
    requires source.sessions == |SessionsOf(sessions, key.client.ip)| + 1 <= max
    ensures Counted(sessions[key := s], sources[key.client.ip := source], max)
  {
    var ip := key.client.ip;
    assert SessionsOf(sessions[key := s], ip) == SessionsOf(sessions, ip) + {key};
    forall other | other != ip
      ensures SessionsOf(sessions[key := s], other) == SessionsOf(sessions, other)
    {
    }
  }

  lemma LinkedAdd(sessions: map<Key, Session>, byId: map<nat, Session>, nextId: nat, s: Session)
    requires Linked(sessions, byId, nextId) && s.id == nextId
    requires KeyOf(s) !in sessions
    ensures Linked(sessions[KeyOf(s) := s], byId[s.id := s], nextId + 1)
  {
  }

  /** Configuration stays; ids already allocated keep the session they had, if any. */
  ghost predicate KeepsIds(p: Proxy, p': Proxy) {
    && p'.limits == p.limits && p'.idleTimeout == p.idleTimeout && p.nextId <= p'.nextId
    && forall id | id in p'.byId && id < p.nextId :: id in p.byId && p'.byId[id] == p.byId[id]
  }

  /** The count a source holds, or would hold if it were known. */
  lemma CountIs(p: Proxy, ip: Ip)
    requires Index(p)
    ensures CountOf(p, ip) == |SessionsOf(p.sessions, ip)| <= p.limits.maxSessionsPerIp
  {
    if ip !in p.sources {
      assert SessionsOf(p.sessions, ip) == {};
    }
  }

  /** Replacing the buckets of a source, the counts staying as they are. */
  lemma ChargedIndex(p: Proxy, q: Proxy, ip: Ip, source: Source)
    requires Index(p) && source.sessions == CountOf(p, ip) && q.sources == p.sources[ip := source]
    requires q.sessions == p.sessions && q.byId == p.byId && q.nextId == p.nextId
    requires q.lastActive == p.lastActive && q.limits == p.limits && q.idleTimeout == p.idleTimeout
    ensures Index(q) && KeepsIds(p, q)
  {
    CountIs(p, ip);
    CountedSet(p.sessions, p.sources, p.limits.maxSessionsPerIp, ip, source);
  }

  /** What admission leaves alone, and what an admitted packet can count on. */
  lemma AdmitLeaves(p: Proxy, key: Key, len: nat, now: real)
    ensures var (p', ok) := AdmitPacket(p, key, len, now);
            && p'.sessions == p.sessions && p'.byId == p.byId && p'.nextId == p.nextId
            && p'.lastActive == p.lastActive && p'.limits == p.limits && p'.idleTimeout == p.idleTimeout
            && (ok ==> key.client.ip in p'.sources)
            && (ok && key !in p.sessions ==> CountOf(p', key.client.ip) < p.limits.maxSessionsPerIp)
  {
  }

  lemma AdmitKeepsIndex(p: Proxy, key: Key, len: nat, now: real)
    requires Index(p)
    ensures var (p', ok) := AdmitPacket(p, key, len, now);
            && Index(p') && KeepsIds(p, p')
            && p'.sessions == p.sessions && p'.byId == p.byId && p'.nextId == p.nextId
            && p'.lastActive == p.lastActive
            && (ok ==> key.client.ip in p'.sources)
            && (ok && key !in p.sessions ==> CountOf(p', key.client.ip) < p.limits.maxSessionsPerIp)
  {
    AdmitLeaves(p, key, len, now);
    var q, ip := AdmitPacket(p, key, len, now).0, key.client.ip;
    if key in p.sessions || CountOf(p, ip) < p.limits.maxSessionsPerIp {
      ChargedIndex(p, q, ip, Charge(SourceAt(p, ip, now), len, now).0);
    }
  }

  lemma AddSessionIndex(p: Proxy, s: Session, source: Source, now: real)
    requires Index(p) && s.id == p.nextId && KeyOf(s) !in p.sessions
    requires source.sessions == CountOf(p, s.client.ip) + 1 <= p.limits.maxSessionsPerIp
    ensures Index(AddSession(p, s, source, now)) && KeepsIds(p, AddSession(p, s, source, now))
  {
    CountIs(p, s.client.ip);
    LinkedAdd(p.sessions, p.byId, p.nextId, s);
    CountedAdd(p.sessions, p.sources, p.limits.maxSessionsPerIp, KeyOf(s), s, source);
  }

  lemma CreateKeepsIndex(p: Proxy, route: Route, client: Addr, socket: SocketId, now: real)
    requires Index(p) && client.ip in p.sources
    requires Key(client, route.id) in p.sessions
             || CountOf(p, client.ip) < p.limits.maxSessionsPerIp
    ensures var (p', s, _) := GetOrCreate(p, route, client, socket, now);
            && Index(p') && KeepsIds(p, p')
            && Key(client, route.id) in p'.sessions && p'.sessions[Key(client, route.id)] == s
  {
    if Key(client, route.id) !in p.sessions {
      var source := p.sources[client.ip];
      AddSessionIndex(p, Session(p.nextId, route, client, socket),
                      source.(sessions := source.sessions + 1), now);
    }
  }

  lemma KeepsIdsTrans(p: Proxy, q: Proxy, r: Proxy)
    requires KeepsIds(p, q) && KeepsIds(q, r)
    ensures KeepsIds(p, r)
  {
  }

  /** The part of a packet's handling after admission. */
  lemma AdmittedKeepsIndex(p: Proxy, pk: Packet, now: real)
    requires Index(p) && pk.route.Some? && pk.client.ip in p.sources
    requires Key(pk.client, pk.route.value.id) in p.sessions
             || CountOf(p, pk.client.ip) < p.limits.maxSessionsPerIp
    ensures var (p', s, _) := GetOrCreate(p, pk.route.value, pk.client, pk.socket, now);
            && Index(p') && KeepsIds(p, p')
            && Index(Touch(p', s.id, now)) && KeepsIds(p, Touch(p', s.id, now))
  {
    CreateKeepsIndex(p, pk.route.value, pk.client, pk.socket, now);
    var (p', s, _) := GetOrCreate(p, pk.route.value, pk.client, pk.socket, now);
    TouchKeepsIndex(p', s.id, now);
    KeepsIdsTrans(p, p', Touch(p', s.id, now));
  }

  /** The indices agree in `q`, and ids mean in it what they meant in `p`. */
  ghost predicate KeepsIndex(p: Proxy, q: Proxy) {
    Index(q) && KeepsIds(p, q)
  }

  /** An admitted packet: its session is found or created, and then touched if it is sent. */
  lemma AdmittedPacket(p: Proxy, p1: Proxy, pk: Packet, now: real)
    requires KeepsIndex(p, p1) && pk.route.Some? && pk.client.ip in p1.sources
    requires Key(pk.client, pk.route.value.id) in p1.sessions
             || CountOf(p1, pk.client.ip) < p1.limits.maxSessionsPerIp
    ensures var r := GetOrCreate(p1, pk.route.value, pk.client, pk.socket, now);
            KeepsIndex(p, r.0) && KeepsIndex(p, Touch(r.0, r.1.id, now))
  {
    AdmittedKeepsIndex(p1, pk, now);
    var r := GetOrCreate(p1, pk.route.value, pk.client, pk.socket, now);
    KeepsIdsTrans(p, p1, r.0);
    KeepsIdsTrans(p, p1, Touch(r.0, r.1.id, now));
  }

  /** The part of a packet's handling from admission on. */
  lemma FittingKeepsIndex(p: Proxy, pk: Packet, now: real)
    requires Index(p) && pk.route.Some? && pk.peer.Some? && |pk.payload| <= MaxPayload(pk.peer.value)
    ensures KeepsIndex(p, ForwardToAgent(p, pk, now).0)
  {
    var key := Key(pk.client, pk.route.value.id);
    AdmitKeepsIndex(p, key, |pk.payload|, now);
    var r := AdmitPacket(p, key, |pk.payload|, now);
    assert KeepsIndex(p, r.0);
    if r.1 {
      AdmittedPacket(p, r.0, pk, now);
    }
  }

  /** A packet keeps the indices in agreement, whatever becomes of it. */
  lemma ForwardKeepsIndex(p: Proxy, pk: Packet, now: real)
    requires Index(p)
    ensures Index(ForwardToAgent(p, pk, now).0) && KeepsIds(p, ForwardToAgent(p, pk, now).0)
  {
    if pk.route.Some? && pk.peer.Some? && |pk.payload| <= MaxPayload(pk.peer.value) {
      FittingKeepsIndex(p, pk, now);
    }
  }

  /** A packet created no session, or one for itself under the next id, announced by `control`. */
  ghost predicate CreatedFor(p: Proxy, p': Proxy, pk: Packet, control: seq<Control>) {
    || (control == [] && p'.byId == p.byId && p'.nextId == p.nextId)
    || (&& pk.route.Some? && control == [UdpOpen(pk.route.value.id, p.nextId)]
        && p'.nextId == p.nextId + 1
        && p'.byId == p.byId[p.nextId := Session(p.nextId, pk.route.value, pk.client, pk.socket)])
  }

  function Announced(o: Outcome): seq<Control> {
    match o
    case Dropped => []
    case Unsent(control) => control
    case Forwarded(_, control) => control
  }

  /** A packet is forwarded only under the session of its own client and route. */
  lemma ForwardOutcome(p: Proxy, pk: Packet, now: real)
    requires Index(p)
    ensures var (p', o) := ForwardToAgent(p, pk, now);
            && CreatedFor(p, p', pk, Announced(o))
            && (!o.Dropped? ==> pk.route.Some? && pk.peer.Some?)
            && (o.Forwarded? ==>
                  && o.session.client == pk.client && o.session.route.id == pk.route.value.id
                  && o.session.id in p'.byId && p'.byId[o.session.id] == o.session)
  {
    if pk.route.Some? && pk.peer.Some? && |pk.payload| <= MaxPayload(pk.peer.value) {
      var key := Key(pk.client, pk.route.value.id);
      AdmitKeepsIndex(p, key, |pk.payload|, now);
    }
  }

  function One(b: bool): nat {
    if b then 1 else 0
  }

  /** Both buckets of the source hold enough for the payload. */
  predicate Affords(p: Proxy, ip: Ip, len: nat, now: real) {
    var source := SourceAt(p, ip, now);
    Level(source.packets, now) >= 1.0 && Level(source.bytes, now) >= len as real
  }

  /**
   Which packets get through, and which counter accounts for each of the others: too large, a
   new session for a source that has its full number of live ones, or too few tokens.
   */
  lemma AdmissionExactly(p: Proxy, pk: Packet, now: real)
    requires Index(p)
    ensures
      var (p', o) := ForwardToAgent(p, pk, now);
      var ip, len := pk.client.ip, |pk.payload|;
      var known := pk.route.Some? && pk.peer.Some?;
      var oversized := known && TooLarge(len, pk.peer.value);
      var crowded := known && !oversized && Key(pk.client, pk.route.value.id) !in p.sessions
        && |SessionsOf(p.sessions, ip)| >= p.limits.maxSessionsPerIp;
      var limited := known && !oversized && !crowded && !Affords(p, ip, len, now);
      && (o.Dropped? <==> !known || oversized || crowded || limited)
      && (o.Forwarded? <==> !o.Dropped? && pk.sendOk)
      && p'.droppedOversized == p.droppedOversized + One(oversized)
      && p'.droppedSessionLimited == p.droppedSessionLimited + One(crowded)
      && p'.droppedRateLimited == p.droppedRateLimited + One(limited)
  {
    CountIs(p, pk.client.ip);
    if pk.peer.Some? {
      PayloadExactly(|pk.payload|, pk.peer.value);
    }
  }

  /** A payload that does not fit: over 1200 bytes, or over what the peer takes with its header of ten. */
  predicate TooLarge(len: nat, peerMax: Option<nat>) {
    len > 0 && (peerMax == None || len + 10 > peerMax.value || len > 1200)
  }

  lemma PayloadExactly(len: nat, peerMax: Option<nat>)
    ensures len > MaxPayload(peerMax) <==> TooLarge(len, peerMax)
  {
  }

  /** What a bucket is charged: `n` tokens if it has them, whatever the other bucket has. */
  ghost predicate Paid(b: Bucket, b': Bucket, n: real, now: real) {
    Level(b', now) == Level(b, now) - if Level(b, now) >= n then n else 0.0
  }

  /** Each bucket pays for the packet if it can, also when the other cannot. */
  lemma BothPay(p: Proxy, key: Key, len: nat, now: real)
    requires key in p.sessions || CountOf(p, key.client.ip) < p.limits.maxSessionsPerIp
    requires var s := SourceAt(p, key.client.ip, now);
      s.packets.tokens <= s.packets.capacity && s.bytes.tokens <= s.bytes.capacity
    ensures var q, ip := AdmitPacket(p, key, len, now).0, key.client.ip;
      && ip in q.sources
      && Paid(SourceAt(p, ip, now).packets, q.sources[ip].packets, 1.0, now)
      && Paid(SourceAt(p, ip, now).bytes, q.sources[ip].bytes, len as real, now)
  {
  }

  lemma TouchKeepsIndex(p: Proxy, id: nat, now: real)
    requires Index(p) && id in p.byId
    ensures Index(Touch(p, id, now)) && KeepsIds(p, Touch(p, id, now))
  {
  }

  lemma DatagramKeepsIndex(p: Proxy, id: nat, now: real)
    requires Index(p)
    ensures Index(HandleDatagram(p, id, now).0) && KeepsIds(p, HandleDatagram(p, id, now).0)
  {
    if id in p.byId {
      TouchKeepsIndex(p, id, now);
    }
  }

  lemma ReapKeepsIndex(p: Proxy, now: real)
    requires Index(p)
    ensures Index(Reap(p, now)) && KeepsIds(p, Reap(p, now))
  {
    var live := LiveSessions(p, now);
    forall ip | ip in p.sources
      ensures |SessionsOf(live, ip)| <= |SessionsOf(p.sessions, ip)|
    {
      SubsetSize(SessionsOf(live, ip), SessionsOf(p.sessions, ip));
    }
    forall k | k in live ensures k.client.ip in Reap(p, now).sources {
      assert k in SessionsOf(live, k.client.ip);
    }
  }

  /** A reap forgets a source exactly if it leaves it no session. */
  lemma ReapForgets(p: Proxy, now: real, ip: Ip)
    requires Index(p)
    ensures ip in Reap(p, now).sources <==> exists k | k in Reap(p, now).sessions :: k.client.ip == ip
  {
    ReapKeepsIndex(p, now);
    if HasSession(LiveSessions(p, now), ip) {
      var k :| k in SessionsOf(LiveSessions(p, now), ip);
    }
    if k :| k in Reap(p, now).sessions && k.client.ip == ip {
      assert k in SessionsOf(LiveSessions(p, now), ip);
    }
  }
}
