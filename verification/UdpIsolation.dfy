/**
 The UDP plane end to end: the server's sessions, one link per connected node with its
 ordered control channel and its unordered, lossy datagrams, and the agent's sockets at the
 other end (agent/src/udp.rs, agent/src/session.rs). A connection that ends takes its link
 with it. Agents answer from the sockets they have opened; but the server does not look at
 where a datagram comes from, so a step of its own lets any node send any session id.
 */
module UdpIsolation {
  import opened Prelude
  import opened UdpProxy

  /** A client's payload on its way to an agent; who sent it is not on the wire. */
  datatype Datagram = Datagram(session: nat, payload: seq<nat>, client: Addr, route: RouteId)

  /** A target's payload on its way back, and the route whose target it came from. */
  datatype Reply = Reply(session: nat, payload: seq<nat>, route: RouteId)

  datatype Link = Link(
    registered: bool,             // the push channel exists
    control: seq<Control>,        // pushed and not yet handled by the agent
    sockets: map<nat, RouteId>,   // the agent's sessions, with the route each was opened for
    toAgent: set<Datagram>,
    toServer: set<Reply>)

  datatype System = System(
    proxy: Proxy,
    links: map<NodeId, Link>,
    owner: map<nat, Session>)     // every session ever created, by id

  // ---------------------------------------------------------------- steps

  datatype Step =
    | Connect(node: NodeId)
    | Register(node: NodeId)
    | Disconnect(node: NodeId)
    | ClientPacket(packet: Packet, now: real)
    | AgentControl(node: NodeId, canOpen: bool)
    | AgentDatagram(node: NodeId, datagram: Datagram)
    | TargetReply(node: NodeId, session: nat, payload: seq<nat>)
    | ServerDatagram(node: NodeId, reply: Reply, now: real)
    | Forged(node: NodeId, session: nat, now: real)
    | Sweep(order: seq<Session>, now: real)

  /** A push reaches the link only through a registered channel. */
  function Push(l: Link, cs: seq<Control>): Link {
    if l.registered then l.(control := l.control + cs) else l
  }

  /** The closing messages for one node, in the order the sessions were reaped. */
  function Closes(order: seq<Session>, node: NodeId): seq<Control> {
    if order == [] then []
    else
      var before := Closes(order[..|order| - 1], node);
      var s := order[|order| - 1];
      if s.route.node == node then before + [UdpClose(s.id)] else before
  }

  /** The agent's handling of one control message; a session it already has is left alone. */
  function Handle(sockets: map<nat, RouteId>, c: Control, canOpen: bool): map<nat, RouteId> {
    match c
    case UdpOpen(route, id) => if id !in sockets && canOpen then sockets[id := route] else sockets
    case UdpClose(id) => sockets - {id}
  }

  ghost predicate Enabled(s: System, step: Step) {
    match step
    case Connect(n) => n !in s.links
    case Register(n) => n in s.links && !s.links[n].registered
    case Disconnect(n) => n in s.links
    case ClientPacket(_, _) => true
    case AgentControl(n, _) => n in s.links && s.links[n].control != []
    case AgentDatagram(n, d) => n in s.links && d in s.links[n].toAgent
    case TargetReply(n, id, _) => n in s.links && id in s.links[n].sockets
    case ServerDatagram(n, r, _) => n in s.links && r in s.links[n].toServer
    case Forged(n, _, _) => n in s.links
    case Sweep(order, now) => ListsExpired(s.proxy, order, now)
  }

  function Created(owner: map<nat, Session>, p: Proxy, p': Proxy): map<nat, Session> {
    if p'.nextId > p.nextId && p.nextId in p'.byId then owner[p.nextId := p'.byId[p.nextId]] else owner
  }

  /** What a packet's outcome puts on the link of the node its route names now. */
  function Carry(l: Link, pk: Packet, outcome: Outcome): Link {
    match outcome
    case Dropped => l
    case Unsent(cs) => Push(l, cs)
    case Forwarded(session, cs) =>
      var l' := Push(l, cs);
      if pk.route.None? then l'
      else l'.(toAgent := l.toAgent + {Datagram(session.id, pk.payload, pk.client, pk.route.value.id)})
  }

  /** After a packet: the new proxy, and what the outcome puts on the link of the packet's route. */
  function Packeted(s: System, pk: Packet, p': Proxy, outcome: Outcome): System {
    System(p',
           map n | n in s.links :: CarryAt(s.links[n], n, pk, outcome),
           Created(s.owner, s.proxy, p'))
  }

  /** What a packet puts on the link of node `n`. */
  function CarryAt(l: Link, n: NodeId, pk: Packet, outcome: Outcome): Link {
    if !outcome.Dropped? && pk.route.Some? && pk.route.value.node == n then Carry(l, pk, outcome) else l
  }

  function Apply(s: System, step: Step): System
    requires Enabled(s, step)
  {
    match step
    case Connect(n) => s.(links := s.links[n := Link(false, [], map[], {}, {})])
    case Register(n) => s.(links := s.links[n := s.links[n].(registered := true)])
    case Disconnect(n) => s.(links := s.links - {n})
    case ClientPacket(pk, now) =>
      var (p', outcome) := ForwardToAgent(s.proxy, pk, now);
      Packeted(s, pk, p', outcome)
    case AgentControl(n, canOpen) =>
      var l := s.links[n];
      s.(links := s.links[n := l.(control := l.control[1..], sockets := Handle(l.sockets, l.control[0], canOpen))])
    case AgentDatagram(n, d) => s.(links := s.links[n := s.links[n].(toAgent := s.links[n].toAgent - {d})])
    case TargetReply(n, id, payload) =>
      var l := s.links[n];
      s.(links := s.links[n := l.(toServer := l.toServer + {Reply(id, payload, l.sockets[id])})])
    case ServerDatagram(n, r, now) =>
      s.(proxy := HandleDatagram(s.proxy, r.session, now).0,
         links := s.links[n := s.links[n].(toServer := s.links[n].toServer - {r})])
    case Forged(_, id, now) => s.(proxy := HandleDatagram(s.proxy, id, now).0)
    case Sweep(order, now) =>
      s.(proxy := Reap(s.proxy, now),
         links := map n | n in s.links :: Push(s.links[n], Closes(order, n)))
  }

  ghost predicate Next(s: System, s': System) {
    exists step :: Enabled(s, step) && s' == Apply(s, step)
  }

  ghost predicate Run(r: seq<System>) {
    && |r| > 0
    && r[0] == System(Empty(r[0].proxy.limits, r[0].proxy.idleTimeout), map[], map[])
    && forall i | 0 <= i < |r| - 1 :: NextAt(r, i)
  }

  ghost predicate NextAt(r: seq<System>, i: nat)
    requires i + 1 < |r|
  {
    Next(r[i], r[i + 1])
  }

  // ---------------------------------------------------------------- the invariant

  /** The id was allocated for this route at this node. */
  ghost predicate OwnedBy(owner: map<nat, Session>, id: nat, route: RouteId, node: NodeId) {
    id in owner && owner[id].route == Route(route, node)
  }

  ghost predicate ControlOk(owner: map<nat, Session>, c: Control, node: NodeId) {
    match c
    case UdpOpen(route, id) => OwnedBy(owner, id, route, node)
    case UdpClose(id) => id in owner && owner[id].route.node == node
  }

  /** The session is still live at the server, or the message that ends it follows. */
  ghost predicate Accounted(live: set<nat>, control: seq<Control>, start: nat, id: nat) {
    id in live || exists j :: start <= j < |control| && control[j] == UdpClose(id)
  }

  ghost predicate LinkOk(owner: map<nat, Session>, live: set<nat>, node: NodeId, l: Link) {
    && (!l.registered ==> l.control == [] && l.sockets == map[])
    && (forall i | 0 <= i < |l.control| :: ControlOk(owner, l.control[i], node))
    && (forall i | 0 <= i < |l.control| && l.control[i].UdpOpen? ::
          Accounted(live, l.control, i, l.control[i].session))
    && (forall id | id in l.sockets ::
          OwnedBy(owner, id, l.sockets[id], node) && Accounted(live, l.control, 0, id))
    && (forall d | d in l.toAgent ::
          d.session in owner && owner[d.session].client == d.client && owner[d.session].route.id == d.route)
    && (forall r | r in l.toServer :: OwnedBy(owner, r.session, r.route, node))
  }

  ghost predicate OwnerOk(owner: map<nat, Session>, p: Proxy) {
    && (forall id | id in owner :: id < p.nextId && owner[id].id == id)
    && (forall id | id in p.byId :: id in owner && owner[id] == p.byId[id])
  }

  ghost predicate SystemOk(s: System) {
    && Index(s.proxy) && OwnerOk(s.owner, s.proxy)
    && forall n | n in s.links :: LinkOk(s.owner, s.proxy.byId.Keys, n, s.links[n])
  }

  // ---------------------------------------------------------------- links

  lemma {:induction false} ClosesAre(order: seq<Session>, node: NodeId, c: Control)
    ensures c in Closes(order, node) <==>
              exists s :: s in order && s.route.node == node && c == UdpClose(s.id)
  {
    if order != [] {
      var n := |order| - 1;
      ClosesAre(order[..n], node, c);
      assert order == order[..n] + [order[n]];
    }
  }

  /** Pushing keeps every message that was there in its place. */
  lemma AccountedPush(live: set<nat>, l: Link, cs: seq<Control>, start: nat, id: nat)
    requires Accounted(live, l.control, start, id)
    ensures Accounted(live, Push(l, cs).control, start, id)
  {
    if id !in live {
      var j :| start <= j < |l.control| && l.control[j] == UdpClose(id);
      assert Push(l, cs).control[j] == UdpClose(id);
    }
  }

  lemma LinkOwnerGrows(owner: map<nat, Session>, owner': map<nat, Session>, live: set<nat>, live': set<nat>,
                       node: NodeId, l: Link)
    requires LinkOk(owner, live, node, l)
    requires forall id | id in owner :: id in owner' && owner'[id] == owner[id]
    requires live <= live'
    ensures LinkOk(owner', live', node, l)
  {
    forall i | 0 <= i < |l.control| ensures ControlOk(owner', l.control[i], node) {
      assert ControlOk(owner, l.control[i], node);
    }
    forall i | 0 <= i < |l.control| && l.control[i].UdpOpen?
      ensures Accounted(live', l.control, i, l.control[i].session)
    {
      assert Accounted(live, l.control, i, l.control[i].session);
    }
    forall id | id in l.sockets
      ensures OwnedBy(owner', id, l.sockets[id], node) && Accounted(live', l.control, 0, id)
    {
      assert OwnedBy(owner, id, l.sockets[id], node) && Accounted(live, l.control, 0, id);
    }
    forall r | r in l.toServer ensures OwnedBy(owner', r.session, r.route, node) {
      assert OwnedBy(owner, r.session, r.route, node);
    }
  }

  /** Announcing a live session on its own node's link. */
  lemma LinkOpen(owner: map<nat, Session>, live: set<nat>, node: NodeId, l: Link, route: RouteId, id: nat)
    requires LinkOk(owner, live, node, l) && OwnedBy(owner, id, route, node) && id in live
    ensures LinkOk(owner, live, node, Push(l, [UdpOpen(route, id)]))
  {
    var cs := [UdpOpen(route, id)];
    var l' := Push(l, cs);
    if l.registered {
      forall i | 0 <= i < |l'.control| ensures ControlOk(owner, l'.control[i], node) {
        if i < |l.control| {
          assert ControlOk(owner, l.control[i], node);
        }
      }
      forall i | 0 <= i < |l'.control| && l'.control[i].UdpOpen?
        ensures Accounted(live, l'.control, i, l'.control[i].session)
      {
        if i < |l.control| {
          AccountedPush(live, l, cs, i, l.control[i].session);
        }
      }
      forall k | k in l'.sockets ensures Accounted(live, l'.control, 0, k) {
        AccountedPush(live, l, cs, 0, k);
      }
    }
  }

  lemma LinkDatagram(owner: map<nat, Session>, live: set<nat>, node: NodeId, l: Link, d: Datagram)
    requires LinkOk(owner, live, node, l)
    requires d.session in owner && owner[d.session].client == d.client && owner[d.session].route.id == d.route
    ensures LinkOk(owner, live, node, l.(toAgent := l.toAgent + {d}))
  {
  }

  /** The agent takes the next control message. */
  lemma LinkControl(owner: map<nat, Session>, live: set<nat>, node: NodeId, l: Link, canOpen: bool)
    requires LinkOk(owner, live, node, l) && l.control != []
    ensures LinkOk(owner, live, node,
              l.(control := l.control[1..], sockets := Handle(l.sockets, l.control[0], canOpen)))
  {
    var c := l.control[0];
    var l' := l.(control := l.control[1..], sockets := Handle(l.sockets, c, canOpen));
    forall i | 0 <= i < |l'.control|
      ensures ControlOk(owner, l'.control[i], node)
      ensures l'.control[i].UdpOpen? ==> Accounted(live, l'.control, i, l'.control[i].session)
    {
      assert ControlOk(owner, l.control[i + 1], node);
      if l'.control[i].UdpOpen? {
        assert Accounted(live, l.control, i + 1, l.control[i + 1].session);
        AccountedTail(live, l.control, i + 1, l.control[i + 1].session);
      }
    }
    forall id | id in l'.sockets
      ensures OwnedBy(owner, id, l'.sockets[id], node) && Accounted(live, l'.control, 0, id)
    {
      assert ControlOk(owner, c, node);
      assert Accounted(live, l.control, 0, id);
      if id !in live {
        var j :| 0 <= j < |l.control| && l.control[j] == UdpClose(id);
        assert j > 0;
        assert l'.control[j - 1] == UdpClose(id);
      }
    }
  }

  lemma AccountedTail(live: set<nat>, control: seq<Control>, start: nat, id: nat)
    requires 0 < start && control != [] && Accounted(live, control, start, id)
    ensures Accounted(live, control[1..], start - 1, id)
  {
    if id !in live {
      var j :| start <= j < |control| && control[j] == UdpClose(id);
      assert control[1..][j - 1] == UdpClose(id);
    }
  }

  /** Reaping: what is no longer live is closed by what is pushed for it. */
  lemma LinkSweep(owner: map<nat, Session>, live: set<nat>, live': set<nat>, node: NodeId, l: Link,
                  order: seq<Session>)
    requires LinkOk(owner, live, node, l)
    requires forall s | s in order :: s.id in owner && owner[s.id] == s
    requires forall id | id in live && id !in live' :: id in owner && owner[id] in order && owner[id].id == id
    ensures LinkOk(owner, live', node, Push(l, Closes(order, node)))
  {
    var cs := Closes(order, node);
    var l' := Push(l, cs);
    forall i | 0 <= i < |l'.control| ensures ControlOk(owner, l'.control[i], node) {
      if i < |l.control| {
        assert ControlOk(owner, l.control[i], node);
      } else {
        ClosesAre(order, node, l'.control[i]);
        assert l'.control[i] in cs;
      }
    }
    forall i | 0 <= i < |l'.control| && l'.control[i].UdpOpen?
      ensures Accounted(live', l'.control, i, l'.control[i].session)
    {
      ClosesAre(order, node, l'.control[i]);
      assert l'.control[i] in cs || i < |l.control|;
      assert ControlOk(owner, l.control[i], node);
      SweptAccounted(owner, live, live', node, l, order, i, l.control[i].session);
    }
    forall id | id in l'.sockets ensures Accounted(live', l'.control, 0, id) {
      assert OwnedBy(owner, id, l.sockets[id], node) && Accounted(live, l.control, 0, id);
      SweptAccounted(owner, live, live', node, l, order, 0, id);
    }
  }

  lemma SweptAccounted(owner: map<nat, Session>, live: set<nat>, live': set<nat>, node: NodeId, l: Link,
                       order: seq<Session>, start: nat, id: nat)
    requires Accounted(live, l.control, start, id) && start <= |l.control| && l.registered
    requires id in owner && owner[id].route.node == node
    requires id in live && id !in live' ==> owner[id] in order && owner[id].id == id
    ensures Accounted(live', Push(l, Closes(order, node)).control, start, id)
  {
    var cs := Closes(order, node);
    if id in live && id !in live' {
      ClosesAre(order, node, UdpClose(id));
      var k :| 0 <= k < |cs| && cs[k] == UdpClose(id);
      assert Push(l, cs).control[|l.control| + k] == UdpClose(id);
    } else {
      AccountedPush(live, l, cs, start, id);
    }
  }

  // ---------------------------------------------------------------- steps keep it

  /** Nothing happened to sessions; one link changed. */
  lemma LinkChanged(s: System, s': System, n: NodeId)
    requires SystemOk(s) && n in s'.links
    requires s'.owner == s.owner && Index(s'.proxy)
    requires s'.proxy.byId == s.proxy.byId && s'.proxy.nextId == s.proxy.nextId
    requires s'.links == s.links[n := s'.links[n]]
    requires LinkOk(s.owner, s.proxy.byId.Keys, n, s'.links[n])
    ensures SystemOk(s')
  {
  }

  lemma OkPacket(s: System, pk: Packet, now: real)
    requires SystemOk(s)
    ensures SystemOk(Apply(s, ClientPacket(pk, now)))
  {
    var r := ForwardToAgent(s.proxy, pk, now);
    PacketOutcome(s.proxy, pk, now);
    OkPacketed(s, pk, r.0, r.1);
  }

  lemma PacketOutcome(p: Proxy, pk: Packet, now: real)
    requires Index(p)
    ensures var r := ForwardToAgent(p, pk, now); Index(r.0) && PacketFacts(p, r.0, pk, r.1)
  {
    ForwardKeepsIndex(p, pk, now);
    ForwardOutcome(p, pk, now);
  }

  /** What is known of the outcome of a packet. */
  ghost predicate PacketFacts(p: Proxy, p': Proxy, pk: Packet, outcome: Outcome) {
    && CreatedFor(p, p', pk, Announced(outcome))
    && (outcome.Forwarded? ==>
          && pk.route.Some? && outcome.session.client == pk.client && outcome.session.route.id == pk.route.value.id
          && outcome.session.id in p'.byId && p'.byId[outcome.session.id] == outcome.session)
  }

  lemma OkPacketed(s: System, pk: Packet, p': Proxy, outcome: Outcome)
    requires SystemOk(s) && Index(p') && PacketFacts(s.proxy, p', pk, outcome)
    ensures SystemOk(Packeted(s, pk, p', outcome))
  {
    var s' := Packeted(s, pk, p', outcome);
    OwnersGrow(s.owner, s.proxy, p', pk, Announced(outcome));
    forall n | n in s'.links ensures LinkOk(s'.owner, p'.byId.Keys, n, s'.links[n]) {
      LinkPacket(s.owner, s.proxy, p', n, s.links[n], pk, outcome);
    }
  }

  lemma LinkPacket(
    owner: map<nat, Session>, p: Proxy, p': Proxy, n: NodeId, l: Link, pk: Packet, outcome: Outcome)
    requires LinkOk(owner, p.byId.Keys, n, l) && OwnerOk(owner, p) && Index(p)
    requires PacketFacts(p, p', pk, outcome)
    ensures LinkOk(Created(owner, p, p'), p'.byId.Keys, n, CarryAt(l, n, pk, outcome))
  {
    var owner', live' := Created(owner, p, p'), p'.byId.Keys;
    OwnersGrow(owner, p, p', pk, Announced(outcome));
    LinkOwnerGrows(owner, owner', p.byId.Keys, live', n, l);
    if !outcome.Dropped? && pk.route.Some? && pk.route.value.node == n {
      LinkCarry(owner', live', n, l, pk, outcome);
    }
  }

  lemma OwnersGrow(owner: map<nat, Session>, p: Proxy, p': Proxy, pk: Packet, control: seq<Control>)
    requires OwnerOk(owner, p) && Index(p) && CreatedFor(p, p', pk, control)
    ensures var owner' := Created(owner, p, p');
            && OwnerOk(owner', p')
            && (forall id | id in owner :: id in owner' && owner'[id] == owner[id])
            && p.byId.Keys <= p'.byId.Keys
            && (control != [] ==>
                  pk.route.Some? && control == [UdpOpen(pk.route.value.id, p.nextId)]
                  && OwnedBy(owner', p.nextId, pk.route.value.id, pk.route.value.node)
                  && p.nextId in p'.byId)
  {
  }

  lemma LinkCarry(owner: map<nat, Session>, live: set<nat>, n: NodeId, l: Link, pk: Packet, outcome: Outcome)
    requires LinkOk(owner, live, n, l) && pk.route.Some? && pk.route.value.node == n
    requires Announced(outcome) == [] ||
             exists id :: Announced(outcome) == [UdpOpen(pk.route.value.id, id)]
                          && OwnedBy(owner, id, pk.route.value.id, n) && id in live
    requires outcome.Forwarded? ==>
               var o := outcome.session;
               o.id in owner && owner[o.id] == o && o.client == pk.client && o.route.id == pk.route.value.id
    ensures LinkOk(owner, live, n, Carry(l, pk, outcome))
  {
    var cs := Announced(outcome);
    if cs == [] {
      assert Push(l, cs) == l by {
        assert l.control + cs == l.control;
      }
    } else {
      var id :| cs == [UdpOpen(pk.route.value.id, id)] && OwnedBy(owner, id, pk.route.value.id, n) && id in live;
      LinkOpen(owner, live, n, l, pk.route.value.id, id);
    }
    if outcome.Forwarded? {
      LinkDatagram(owner, live, n, Push(l, cs),
                   Datagram(outcome.session.id, pk.payload, pk.client, pk.route.value.id));
    }
  }

  lemma OkSweep(s: System, order: seq<Session>, now: real)
    requires SystemOk(s) && Enabled(s, Sweep(order, now))
    ensures SystemOk(Apply(s, Sweep(order, now)))
  {
    var s' := Apply(s, Sweep(order, now));
    ReapKeepsIndex(s.proxy, now);
    var live, live' := s.proxy.byId.Keys, s'.proxy.byId.Keys;
    forall id | id in live && id !in live' ensures s.owner[id] in order {
      assert Expired(s.proxy, s.proxy.byId[id], now);
    }
    forall n | n in s'.links ensures LinkOk(s'.owner, live', n, s'.links[n]) {
      LinkSweep(s.owner, live, live', n, s.links[n], order);
    }
  }

  lemma OkConnection(s: System, step: Step)
    requires SystemOk(s) && Enabled(s, step) && (step.Connect? || step.Register? || step.Disconnect?)
    ensures SystemOk(Apply(s, step))
  {
    if step.Connect? || step.Register? {
      LinkChanged(s, Apply(s, step), step.node);
    }
  }

  lemma OkAgent(s: System, step: Step)
    requires SystemOk(s) && Enabled(s, step)
    requires step.AgentControl? || step.AgentDatagram? || step.TargetReply?
    ensures SystemOk(Apply(s, step))
  {
    if step.AgentControl? {
      LinkControl(s.owner, s.proxy.byId.Keys, step.node, s.links[step.node], step.canOpen);
    }
    LinkChanged(s, Apply(s, step), step.node);
  }

  /** A datagram, whoever sent it, changes nothing but the time of a session's last activity. */
  lemma OkTouched(s: System, id: nat, now: real)
    requires SystemOk(s)
    ensures SystemOk(s.(proxy := HandleDatagram(s.proxy, id, now).0))
  {
    DatagramKeepsIndex(s.proxy, id, now);
  }

  lemma OkServerDatagram(s: System, n: NodeId, r: Reply, now: real)
    requires SystemOk(s) && Enabled(s, ServerDatagram(n, r, now))
    ensures SystemOk(Apply(s, ServerDatagram(n, r, now)))
  {
    OkTouched(s, r.session, now);
    var s1 := s.(proxy := HandleDatagram(s.proxy, r.session, now).0);
    LinkChanged(s1, Apply(s, ServerDatagram(n, r, now)), n);
  }

  /** Every step keeps the invariant. */
  lemma OkStep(s: System, step: Step)
    requires SystemOk(s) && Enabled(s, step)
    ensures SystemOk(Apply(s, step))
  {
    match step
    case ClientPacket(pk, now) => OkPacket(s, pk, now);
    case Sweep(order, now) => OkSweep(s, order, now);
    case ServerDatagram(n, r, now) => OkServerDatagram(s, n, r, now);
    case Forged(_, id, now) => OkTouched(s, id, now);
    case AgentControl(_, _) => OkAgent(s, step);
    case TargetReply(_, _, _) => OkAgent(s, step);
    case AgentDatagram(_, _) => OkAgent(s, step);
    case Connect(_) => OkConnection(s, step);
    case Register(_) => OkConnection(s, step);
    case Disconnect(_) => OkConnection(s, step);
  }

  // ---------------------------------------------------------------- whole runs

  lemma {:induction false} RunOk(r: seq<System>, i: nat)
    requires Run(r) && i < |r|
    ensures SystemOk(r[i])
  {
    if i == 0 {
      EmptyIndex(r[0].proxy.limits, r[0].proxy.idleTimeout);
    } else {
      RunOk(r, i - 1);
      assert NextAt(r, i - 1);
      var step :| Enabled(r[i - 1], step) && r[i] == Apply(r[i - 1], step);
      OkStep(r[i - 1], step);
    }
  }

  /**
   Isolation, in every state of every run. A datagram that finds a socket finds the one
   opened for its own route, under an id allocated for its own client and route. A reply
   that finds a session finds the one its socket was opened for, so it goes back to that
   client. A socket whose session the server has reaped has its closing message under way.
   */
  lemma Isolation(r: seq<System>, i: nat, n: NodeId)
    requires Run(r) && i < |r| && n in r[i].links
    ensures var s, l := r[i], r[i].links[n];
            && (forall d | d in l.toAgent && d.session in l.sockets ::
                  && l.sockets[d.session] == d.route && d.session in s.owner
                  && s.owner[d.session].client == d.client && s.owner[d.session].route == Route(d.route, n))
            && (forall q | q in l.toServer && q.session in s.proxy.byId ::
                  && q.session in s.owner && s.proxy.byId[q.session] == s.owner[q.session]
                  && s.owner[q.session].route == Route(q.route, n))
            && (forall id | id in l.sockets && id !in s.proxy.byId :: UdpClose(id) in l.control)
  {
    RunOk(r, i);
    var s, l := r[i], r[i].links[n];
    forall id | id in l.sockets
      ensures OwnedBy(s.owner, id, l.sockets[id], n)
      ensures id !in s.proxy.byId ==> UdpClose(id) in l.control
    {
      assert Accounted(s.proxy.byId.Keys, l.control, 0, id);
    }
    forall q | q in l.toServer ensures OwnedBy(s.owner, q.session, q.route, n) {
    }
  }

  /**
   What any datagram can reach, in every state of every run and whichever node sends it: the
   client for whom the session id was allocated, as long as the session lives, and no one else.
   */
  lemma DatagramReach(r: seq<System>, i: nat, id: nat, now: real)
    requires Run(r) && i < |r|
    ensures var s := r[i];
            var receiver := HandleDatagram(s.proxy, id, now).1;
            && (receiver.Some? <==> id in s.proxy.byId)
            && (receiver.Some? ==> id in s.owner && receiver.value == s.owner[id] && receiver.value.id == id)
  {
    RunOk(r, i);
  }

  ghost predicate OwnersKept(before: map<nat, Session>, after: map<nat, Session>) {
    forall id | id in before :: id in after && after[id] == before[id]
  }

  lemma {:induction false} KeptAlong(owners: seq<map<nat, Session>>, i: nat, j: nat)
    requires i <= j < |owners| && forall k | 0 <= k < |owners| - 1 :: OwnersKept(owners[k], owners[k + 1])
    ensures OwnersKept(owners[i], owners[j])
    decreases j
  {
    if i < j {
      KeptAlong(owners, i, j - 1);
      assert OwnersKept(owners[j - 1], owners[j - 1 + 1]);
    }
  }

  lemma NextKeepsOwners(r: seq<System>, k: nat)
    requires Run(r) && k + 1 < |r|
    ensures OwnersKept(r[k].owner, r[k + 1].owner)
  {
    RunOk(r, k);
    assert NextAt(r, k);
    var step :| Enabled(r[k], step) && r[k + 1] == Apply(r[k], step);
    OwnerStays(r[k], step);
  }

  /** The owner of an id is fixed once and for all, also when its session has been reaped. */
  lemma OwnersStay(r: seq<System>, i: nat, j: nat)
    requires Run(r) && i <= j < |r|
    ensures OwnersKept(r[i].owner, r[j].owner)
  {
    var owners := seq(|r|, k requires 0 <= k < |r| => r[k].owner);
    forall k | 0 <= k < |owners| - 1 ensures OwnersKept(owners[k], owners[k + 1]) {
      NextKeepsOwners(r, k);
    }
    KeptAlong(owners, i, j);
  }

  lemma OwnerStays(s: System, step: Step)
    requires SystemOk(s) && Enabled(s, step)
    ensures OwnersKept(s.owner, Apply(s, step).owner)
  {
    if step.ClientPacket? {
      assert s.proxy.nextId !in s.owner;
    }
  }
}
