/**
 What the UDP plane delivers: which sockets an agent has, from the control messages it has
 handled alone; that a live session announced on a connection gets its socket; and that a
 payload sent or answered reaches the other end.
 */
module UdpDelivery {
  import opened Prelude
  import opened UdpProxy
  import opened UdpIsolation

  /** Some steps in a row from the beginning, with the states before and after each. */
  ghost predicate Path(ps: seq<System>, ss: seq<Step>) {
    && |ps| == |ss| + 1
    && ps[0] == System(Empty(ps[0].proxy.limits, ps[0].proxy.idleTimeout), map[], map[])
    && forall i | 0 <= i < |ss| :: Taken(ps, ss, i)
  }

  ghost predicate Taken(ps: seq<System>, ss: seq<Step>, i: nat)
    requires i < |ss| && |ps| == |ss| + 1
  {
    Enabled(ps[i], ss[i]) && ps[i + 1] == Apply(ps[i], ss[i])
  }

  // ---------------------------------------------------------------- the agent's sockets

  /** The agent of `n` handles the message. */
  predicate Handles(s: System, step: Step, n: NodeId, c: Control) {
    step.AgentControl? && step.node == n && n in s.links && s.links[n].control != [] && s.links[n].control[0] == c
  }

  /** The agent of `n` handles an opening of session `id`, and the target can be connected. */
  ghost predicate Opens(s: System, step: Step, n: NodeId, id: nat) {
    exists route :: Handles(s, step, n, UdpOpen(route, id)) && step.canOpen
  }

  /** The agent of `n` handles the closing of session `id`, or its connection ends. */
  predicate Ends(s: System, step: Step, n: NodeId, id: nat) {
    Handles(s, step, n, UdpClose(id)) || step == Disconnect(n)
  }

  predicate HasSocket(s: System, n: NodeId, id: nat) {
    n in s.links && id in s.links[n].sockets
  }

  /** What one step does to a socket. */
  lemma SocketStep(s: System, step: Step, n: NodeId, id: nat)
    requires Enabled(s, step)
    ensures HasSocket(Apply(s, step), n, id) <==>
      Opens(s, step, n, id) || (HasSocket(s, n, id) && !Ends(s, step, n, id))
  {
    match step {
      case AgentControl(m, canOpen) => ControlSocket(s, m, canOpen, n, id);
      case ClientPacket(pk, now) => PacketSocket(s, pk, now, n, id);
      case _ =>
    }
  }

  lemma ControlSocket(s: System, m: NodeId, canOpen: bool, n: NodeId, id: nat)
    requires Enabled(s, AgentControl(m, canOpen))
    ensures var step := AgentControl(m, canOpen);
      HasSocket(Apply(s, step), n, id) <==> Opens(s, step, n, id) || (HasSocket(s, n, id) && !Ends(s, step, n, id))
  {
    var step, c := AgentControl(m, canOpen), s.links[m].control[0];
    if m == n && c.UdpOpen? && c.session == id && canOpen {
      assert Handles(s, step, n, UdpOpen(c.route, id));
    }
  }

  lemma PacketSocket(s: System, pk: Packet, now: real, n: NodeId, id: nat)
    ensures HasSocket(Apply(s, ClientPacket(pk, now)), n, id) <==> HasSocket(s, n, id)
  {
    var r := ForwardToAgent(s.proxy, pk, now);
    assert Apply(s, ClientPacket(pk, now)) == Packeted(s, pk, r.0, r.1);
    if n in s.links {
      CarriedSockets(s.links[n], n, pk, r.1);
    }
  }

  lemma CarriedSockets(l: Link, n: NodeId, pk: Packet, o: Outcome)
    ensures CarryAt(l, n, pk, o).sockets == l.sockets
  {
  }

  /** Step `k` opened the session, and nothing has ended it since. */
  ghost predicate OpenedAt(ps: seq<System>, ss: seq<Step>, i: nat, n: NodeId, id: nat, k: int)
    requires i <= |ss| < |ps|
  {
    0 <= k < i && Opens(ps[k], ss[k], n, id) && forall m | k < m < i :: !Ends(ps[m], ss[m], n, id)
  }

  /**
   Exactly which sockets an agent has: those for which an opening it could connect was handled,
   with neither a closing handled nor the connection lost since.
   */
  lemma {:induction false} SocketExactly(ps: seq<System>, ss: seq<Step>, i: nat, n: NodeId, id: nat)
    requires Path(ps, ss) && i <= |ss|
    ensures HasSocket(ps[i], n, id) <==> exists k :: OpenedAt(ps, ss, i, n, id, k)
  {
    if i > 0 {
      var j := i - 1;
      SocketExactly(ps, ss, j, n, id);
      assert Taken(ps, ss, j);
      SocketStep(ps[j], ss[j], n, id);
      if Opens(ps[j], ss[j], n, id) {
        assert OpenedAt(ps, ss, i, n, id, j);
      } else if HasSocket(ps[j], n, id) && !Ends(ps[j], ss[j], n, id) {
        var k :| OpenedAt(ps, ss, j, n, id, k);
        assert OpenedAt(ps, ss, i, n, id, k);
      }
      if k :| OpenedAt(ps, ss, i, n, id, k) && k < j {
        assert OpenedAt(ps, ss, j, n, id, k);
      }
    }
  }

  predicate Registered(s: System, n: NodeId) {
    n in s.links && s.links[n].registered
  }

  lemma RegisteredStep(s: System, step: Step, n: NodeId)
    requires Enabled(s, step)
    ensures Registered(Apply(s, step), n) <==> step == Register(n) || (Registered(s, n) && step != Disconnect(n))
  {
    if step.ClientPacket? {
      var r := ForwardToAgent(s.proxy, step.packet, step.now);
      assert Apply(s, step) == Packeted(s, step.packet, r.0, r.1);
    }
  }

  /** Step `k` registered the push channel, and the connection has lasted since. */
  ghost predicate RegisteredAt(ss: seq<Step>, i: nat, n: NodeId, k: int)
    requires i <= |ss|
  {
    0 <= k < i && ss[k] == Register(n) && Disconnect(n) !in ss[k + 1..i]
  }

  /** Exactly when a push channel is there: it was registered, and the connection has lasted since. */
  lemma {:induction false} RegisteredExactly(ps: seq<System>, ss: seq<Step>, i: nat, n: NodeId)
    requires Path(ps, ss) && i <= |ss|
    ensures Registered(ps[i], n) <==> exists k :: RegisteredAt(ss, i, n, k)
  {
    if i > 0 {
      var j := i - 1;
      RegisteredExactly(ps, ss, j, n);
      assert Taken(ps, ss, j);
      RegisteredStep(ps[j], ss[j], n);
      if ss[j] == Register(n) {
        assert RegisteredAt(ss, i, n, j);
      }
      forall k | 0 <= k < j ensures RegisteredAt(ss, i, n, k) <==> RegisteredAt(ss, j, n, k) && ss[j] != Disconnect(n) {
        assert ss[k + 1..i] == ss[k + 1..j] + [ss[j]];
      }
    }
  }

  // ---------------------------------------------------------------- every state

  /** Only sessions that have been reaped have a closing under way. */
  ghost predicate ClosesReaped(s: System) {
    forall n, id | n in s.links && UdpClose(id) in s.links[n].control :: id !in s.proxy.byId
  }

  lemma ClosesStep(s: System, step: Step)
    requires SystemOk(s) && ClosesReaped(s) && Enabled(s, step)
    ensures ClosesReaped(Apply(s, step))
  {
    forall n, id | n in Apply(s, step).links && UdpClose(id) in Apply(s, step).links[n].control
      ensures id !in Apply(s, step).proxy.byId
    {
      ClosesOne(s, step, n, id);
    }
  }

  lemma ClosesOne(s: System, step: Step, n: NodeId, id: nat)
    requires SystemOk(s) && ClosesReaped(s) && Enabled(s, step)
    requires n in Apply(s, step).links && UdpClose(id) in Apply(s, step).links[n].control
    ensures id !in Apply(s, step).proxy.byId
  {
    match step {
      case ClientPacket(pk, now) => ClosesPacket(s, pk, now, n, id);
      case Sweep(order, now) => ClosesSweep(s, order, now, n, id);
      case _ =>
        assert n in s.links ==> UdpClose(id) in s.links[n].control;
    }
  }

  lemma ClosesPacket(s: System, pk: Packet, now: real, n: NodeId, id: nat)
    requires SystemOk(s) && ClosesReaped(s)
    requires n in Apply(s, ClientPacket(pk, now)).links
    requires UdpClose(id) in Apply(s, ClientPacket(pk, now)).links[n].control
    ensures id !in Apply(s, ClientPacket(pk, now)).proxy.byId
  {
    var r := ForwardToAgent(s.proxy, pk, now);
    PacketOutcome(s.proxy, pk, now);
    assert Apply(s, ClientPacket(pk, now)) == Packeted(s, pk, r.0, r.1);
    CarriedControl(s.links[n], n, pk, r.1, UdpClose(id));
    NotNew(s, pk, r.0, r.1, n, id);
  }

  /** A packet announces openings only. */
  lemma CarriedControl(l: Link, n: NodeId, pk: Packet, o: Outcome, c: Control)
    ensures CarryAt(l, n, pk, o).control == l.control || CarryAt(l, n, pk, o).control == l.control + Announced(o)
    ensures c in CarryAt(l, n, pk, o).control ==> c in l.control || c in Announced(o)
  {
  }

  lemma NotNew(s: System, pk: Packet, q: Proxy, o: Outcome, n: NodeId, id: nat)
    requires SystemOk(s) && ClosesReaped(s) && n in s.links && PacketFacts(s.proxy, q, pk, o)
    requires UdpClose(id) in s.links[n].control || UdpClose(id) in Announced(o)
    ensures id !in q.byId
  {
    assert UdpClose(id) in s.links[n].control;
    var i :| 0 <= i < |s.links[n].control| && s.links[n].control[i] == UdpClose(id);
    assert ControlOk(s.owner, s.links[n].control[i], n);
  }

  lemma ClosesSweep(s: System, order: seq<Session>, now: real, n: NodeId, id: nat)
    requires SystemOk(s) && ClosesReaped(s) && Enabled(s, Sweep(order, now))
    requires n in s.links && UdpClose(id) in Push(s.links[n], Closes(order, n)).control
    ensures id !in Reap(s.proxy, now).byId
  {
    if UdpClose(id) in Closes(order, n) {
      ClosesAre(order, n, UdpClose(id));
      var x :| x in order && x.id == id;
      assert Expired(s.proxy, s.proxy.byId[id], now);
    }
  }

  lemma {:induction false} PathOk(ps: seq<System>, ss: seq<Step>, i: nat)
    requires Path(ps, ss) && i <= |ss|
    ensures SystemOk(ps[i]) && ClosesReaped(ps[i])
  {
    if i == 0 {
      EmptyIndex(ps[0].proxy.limits, ps[0].proxy.idleTimeout);
    } else {
      PathOk(ps, ss, i - 1);
      assert Taken(ps, ss, i - 1);
      OkStep(ps[i - 1], ss[i - 1]);
      ClosesStep(ps[i - 1], ss[i - 1]);
    }
  }

  lemma OwnersNext(ps: seq<System>, ss: seq<Step>, m: nat)
    requires Path(ps, ss) && m < |ss|
    ensures OwnersKept(ps[m].owner, ps[m + 1].owner)
  {
    PathOk(ps, ss, m);
    assert Taken(ps, ss, m);
    OwnerStays(ps[m], ss[m]);
  }

  lemma OwnersAlong(ps: seq<System>, ss: seq<Step>, k: nat, i: nat)
    requires Path(ps, ss) && k <= i <= |ss|
    ensures OwnersKept(ps[k].owner, ps[i].owner)
  {
    var owners := seq(|ps|, m requires 0 <= m < |ps| => ps[m].owner);
    forall m | 0 <= m < |owners| - 1 ensures OwnersKept(owners[m], owners[m + 1]) {
      OwnersNext(ps, ss, m);
    }
    KeptAlong(owners, k, i);
  }

  /** The socket of a session is connected for the route of every opening of it ever handled. */
  lemma OpenedForRoute(ps: seq<System>, ss: seq<Step>, k: nat, i: nat, n: NodeId, id: nat, route: RouteId)
    requires Path(ps, ss) && k < i <= |ss|
    requires Handles(ps[k], ss[k], n, UdpOpen(route, id)) && HasSocket(ps[i], n, id)
    ensures ps[i].links[n].sockets[id] == route
  {
    PathOk(ps, ss, k);
    PathOk(ps, ss, i);
    OwnersAlong(ps, ss, k, i);
    assert ControlOk(ps[k].owner, ps[k].links[n].control[0], n);
    assert OwnedBy(ps[i].owner, id, ps[i].links[n].sockets[id], n);
  }

  // ---------------------------------------------------------------- announced sessions

  /** The opening of the session is on its way to the agent. */
  ghost predicate Announcing(s: System, n: NodeId, id: nat) {
    n in s.links && exists route :: UdpOpen(route, id) in s.links[n].control
  }

  /** Once announced, a session that lives has its opening under way or its socket. */
  ghost predicate Waits(s: System, n: NodeId, id: nat) {
    id in s.owner && n in s.links && (id in s.proxy.byId ==> Announcing(s, n, id) || HasSocket(s, n, id))
  }

  /** The step neither breaks the connection of `n` nor handles an opening there that cannot be connected. */
  predicate Smooth(step: Step, n: NodeId) {
    step != Disconnect(n) && (step.AgentControl? && step.node == n ==> step.canOpen)
  }

  lemma AnnouncedIsOwned(s: System, n: NodeId, id: nat)
    requires SystemOk(s) && Announcing(s, n, id)
    ensures id in s.owner
  {
    var route :| UdpOpen(route, id) in s.links[n].control;
    var i :| 0 <= i < |s.links[n].control| && s.links[n].control[i] == UdpOpen(route, id);
    assert ControlOk(s.owner, s.links[n].control[i], n);
  }

  /** A session that lives after a step and was allocated before it lived before it. */
  lemma LivedBefore(s: System, step: Step, id: nat)
    requires SystemOk(s) && Enabled(s, step) && id in s.owner && id in Apply(s, step).proxy.byId
    ensures id in s.proxy.byId
  {
    if step.ClientPacket? {
      var r := ForwardToAgent(s.proxy, step.packet, step.now);
      PacketOutcome(s.proxy, step.packet, step.now);
      assert Apply(s, step) == Packeted(s, step.packet, r.0, r.1);
    }
  }

  lemma AnnouncingStep(s: System, step: Step, n: NodeId, id: nat)
    requires Enabled(s, step) && Announcing(s, n, id) && Smooth(step, n)
    ensures Announcing(Apply(s, step), n, id) || HasSocket(Apply(s, step), n, id)
  {
    var route :| UdpOpen(route, id) in s.links[n].control;
    match step {
      case ClientPacket(pk, now) =>
        var r := ForwardToAgent(s.proxy, pk, now);
        assert Apply(s, step) == Packeted(s, pk, r.0, r.1);
        CarriedControl(s.links[n], n, pk, r.1, UdpOpen(route, id));
        assert UdpOpen(route, id) in CarryAt(s.links[n], n, pk, r.1).control;
      case AgentControl(m, canOpen) =>
        AnnouncingControl(s, m, canOpen, n, id, route);
      case Sweep(order, now) =>
        assert UdpOpen(route, id) in Push(s.links[n], Closes(order, n)).control;
      case _ =>
        assert UdpOpen(route, id) in Apply(s, step).links[n].control;
    }
  }

  lemma AnnouncingControl(s: System, m: NodeId, canOpen: bool, n: NodeId, id: nat, route: RouteId)
    requires Enabled(s, AgentControl(m, canOpen)) && n in s.links && UdpOpen(route, id) in s.links[n].control
    requires m == n ==> canOpen
    ensures var s' := Apply(s, AgentControl(m, canOpen)); Announcing(s', n, id) || HasSocket(s', n, id)
  {
    var s', control := Apply(s, AgentControl(m, canOpen)), s.links[n].control;
    if m != n {
      assert UdpOpen(route, id) in s'.links[n].control;
    } else if control[0] != UdpOpen(route, id) {
      assert UdpOpen(route, id) in control[1..];
      assert UdpOpen(route, id) in s'.links[n].control;
    }
  }

  lemma WaitsStep(s: System, step: Step, n: NodeId, id: nat)
    requires SystemOk(s) && ClosesReaped(s) && Enabled(s, step) && Waits(s, n, id) && Smooth(step, n)
    ensures Waits(Apply(s, step), n, id)
  {
    OwnerStays(s, step);
    if id in Apply(s, step).proxy.byId {
      LivedBefore(s, step, id);
      if HasSocket(s, n, id) {
        SocketStep(s, step, n, id);
        assert !Handles(s, step, n, UdpClose(id));
      } else {
        AnnouncingStep(s, step, n, id);
      }
    }
  }

  lemma {:induction false} WaitsAlong(ps: seq<System>, ss: seq<Step>, k: nat, i: nat, n: NodeId, id: nat)
    requires Path(ps, ss) && k <= i <= |ss| && Announcing(ps[k], n, id)
    requires forall m | k <= m < i :: Smooth(ss[m], n)
    ensures Waits(ps[i], n, id)
  {
    if i == k {
      PathOk(ps, ss, k);
      AnnouncedIsOwned(ps[k], n, id);
    } else {
      WaitsAlong(ps, ss, k, i - 1, n, id);
      PathOk(ps, ss, i - 1);
      assert Taken(ps, ss, i - 1);
      WaitsStep(ps[i - 1], ss[i - 1], n, id);
    }
  }

  /**
   Every live session announced on a connection has its socket once the control messages have
   been handled, connected to the target of its own route: if the connection lasts and each
   opening handled can be connected.
   */
  lemma LiveHasSocket(ps: seq<System>, ss: seq<Step>, k: nat, i: nat, n: NodeId, id: nat)
    requires Path(ps, ss) && k <= i <= |ss| && Announcing(ps[k], n, id)
    requires forall m | k <= m < i :: Smooth(ss[m], n)
    requires id in ps[i].proxy.byId
    ensures n in ps[i].links
    ensures ps[i].links[n].control == [] ==>
      HasSocket(ps[i], n, id) && ps[i].links[n].sockets[id] == ps[i].proxy.byId[id].route.id
  {
    WaitsAlong(ps, ss, k, i, n, id);
    PathOk(ps, ss, i);
  }

  // ---------------------------------------------------------------- payloads

  /**
   A client packet that is forwarded is on the wire under its session, and a session it creates
   is announced, if the node's channel is registered.
   */
  lemma PacketSent(s: System, pk: Packet, now: real)
    requires SystemOk(s) && pk.route.Some? && pk.route.value.node in s.links
    ensures var n, o, s' := pk.route.value.node, ForwardToAgent(s.proxy, pk, now).1, Apply(s, ClientPacket(pk, now));
      && n in s'.links
      && (o.Forwarded? ==> Datagram(o.session.id, pk.payload, pk.client, pk.route.value.id) in s'.links[n].toAgent)
      && (s.links[n].registered && s.proxy.nextId in s'.proxy.byId ==> Announcing(s', n, s.proxy.nextId))
  {
    var n, r := pk.route.value.node, ForwardToAgent(s.proxy, pk, now);
    PacketOutcome(s.proxy, pk, now);
    assert Apply(s, ClientPacket(pk, now)) == Packeted(s, pk, r.0, r.1);
    assert s.proxy.nextId !in s.proxy.byId;
    CarryPuts(s.links[n], pk, r.1, s.proxy.nextId);
  }

  lemma CarryPuts(l: Link, pk: Packet, o: Outcome, id: nat)
    requires pk.route.Some?
    ensures var l' := CarryAt(l, pk.route.value.node, pk, o);
      && (o.Forwarded? ==> Datagram(o.session.id, pk.payload, pk.client, pk.route.value.id) in l'.toAgent)
      && (l.registered && Announced(o) == [UdpOpen(pk.route.value.id, id)] ==>
            UdpOpen(pk.route.value.id, id) in l'.control)
  {
    var cs := Announced(o);
    if l.registered && cs == [UdpOpen(pk.route.value.id, id)] {
      assert cs[0] in l.control + cs;
    }
  }

  /** A payload forwarded under a session with a socket finds that socket, connected to its route's target. */
  lemma PayloadArrives(s: System, pk: Packet, now: real)
    requires SystemOk(s) && pk.route.Some? && ForwardToAgent(s.proxy, pk, now).1.Forwarded?
    requires HasSocket(s, pk.route.value.node, ForwardToAgent(s.proxy, pk, now).1.session.id)
    ensures var n, id := pk.route.value.node, ForwardToAgent(s.proxy, pk, now).1.session.id;
      var s' := Apply(s, ClientPacket(pk, now));
      var d := Datagram(id, pk.payload, pk.client, pk.route.value.id);
      && HasSocket(s', n, id) && s'.links[n].sockets[id] == pk.route.value.id
      && Enabled(s', AgentDatagram(n, d)) && !Enabled(Apply(s', AgentDatagram(n, d)), AgentDatagram(n, d))
  {
    var n, id := pk.route.value.node, ForwardToAgent(s.proxy, pk, now).1.session.id;
    PacketSent(s, pk, now);
    PacketSocket(s, pk, now, n, id);
    OkPacket(s, pk, now);
    ForwardedUnder(s, pk, now);
    SocketRoute(Apply(s, ClientPacket(pk, now)), n, id);
  }

  lemma ForwardedUnder(s: System, pk: Packet, now: real)
    requires SystemOk(s) && ForwardToAgent(s.proxy, pk, now).1.Forwarded?
    ensures var id, p' := ForwardToAgent(s.proxy, pk, now).1.session.id, Apply(s, ClientPacket(pk, now)).proxy;
      pk.route.Some? && id in p'.byId && p'.byId[id].route.id == pk.route.value.id
  {
    var r := ForwardToAgent(s.proxy, pk, now);
    PacketOutcome(s.proxy, pk, now);
    assert Apply(s, ClientPacket(pk, now)) == Packeted(s, pk, r.0, r.1);
    UnderRoute(s.proxy, r.0, pk, r.1);
  }

  lemma UnderRoute(p: Proxy, q: Proxy, pk: Packet, o: Outcome)
    requires Index(p) && Index(q) && PacketFacts(p, q, pk, o) && o.Forwarded?
    ensures pk.route.Some? && o.session.id in q.byId && q.byId[o.session.id].route.id == pk.route.value.id
  {
  }

  /** The socket of a live session is connected to the target of its route. */
  lemma SocketRoute(s: System, n: NodeId, id: nat)
    requires SystemOk(s) && HasSocket(s, n, id) && id in s.proxy.byId
    ensures s.links[n].sockets[id] == s.proxy.byId[id].route.id
  {
    assert OwnedBy(s.owner, id, s.links[n].sockets[id], n);
  }

  /** An answer from a socket is on its way under its session, and reaches its client while that lives. */
  lemma AnswerArrives(s: System, n: NodeId, id: nat, payload: seq<nat>, now: real)
    requires SystemOk(s) && HasSocket(s, n, id)
    ensures Enabled(s, TargetReply(n, id, payload))
    ensures
      var s' := Apply(s, TargetReply(n, id, payload));
      var step := ServerDatagram(n, Reply(id, payload, s.links[n].sockets[id]), now);
      && Enabled(s', step) && !Enabled(Apply(s', step), step)
      && HandleDatagram(s'.proxy, id, now).1 == if id in s.proxy.byId then Some(s.owner[id]) else None
  {
  }
}
