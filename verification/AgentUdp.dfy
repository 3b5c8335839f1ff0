/** The agent's UDP sessions (agent/src/udp.rs) and how control messages drive them (agent/src/session.rs). */
module AgentUdp {
  import opened Prelude
  import opened Bytes
  import opened UdpProxy
  import Frames
  import UdpIsolation

  class UdpSessions {
    /** The sockets by session id, each with the route whose target it is connected to. */
    var byId: map<nat, RouteId>

    constructor ()
      ensures byId == map[]
    {
      byId := map[];
    }

    /** Opens a session unless it exists; resolving, binding or connecting may fail. */
    method Open(id: nat, route: RouteId, connects: bool)
      modifies this
      ensures byId == if connects && id !in old(byId) then old(byId)[id := route] else old(byId)
      ensures byId == UdpIsolation.Handle(old(byId), UdpOpen(route, id), connects)
    {
      if id in byId {
        return;
      }
      if !connects {
        return;
      }
      byId := byId[id := route];
    }

    method Close(id: nat)
      modifies this
      ensures byId == old(byId) - {id}
      ensures byId == UdpIsolation.Handle(old(byId), UdpClose(id), false)
    {
      if id in byId {
        byId := byId - {id};
      }
    }

    /** One control message; `routes` are the UDP routes of the agent's own table. */
    method OnControl(c: Control, routes: set<RouteId>, connects: bool)
      modifies this
      ensures c.UdpOpen? ==>
        byId == if c.route in routes && connects && c.session !in old(byId) then old(byId)[c.session := c.route]
                else old(byId)
      ensures c.UdpClose? ==> byId == old(byId) - {c.session}
      ensures byId == UdpIsolation.Handle(old(byId), c, connects && (c.UdpOpen? ==> c.route in routes))
    {
      match c {
        case UdpOpen(route, id) =>
          if route in routes {
            Open(id, route, connects);
          }
        case UdpClose(id) =>
          Close(id);
      }
    }

    /**
     What a datagram from the server is sent to, and what is sent. Its payload goes, whole, to
     the target of the session it names if that is open, and nowhere else; flags do not matter.
     In particular this holds of what the server encoded for a session.
     */
    method HandleDatagram(data: seq<byte>) returns (sent: Option<(RouteId, seq<byte>)>)
      ensures sent.Some? <==>
        Frames.DecodeDatagram(data).Some? && Frames.DecodeDatagram(data).value.sessionId in byId
      ensures sent.Some? ==>
        var d := Frames.DecodeDatagram(data).value; sent.value == (byId[d.sessionId], d.payload)
      ensures forall id: u64, payload ::
        data == Frames.EncodeDatagram(id, payload) ==> sent == if id in byId then Some((byId[id], payload)) else None
    {
      var d := Frames.DecodeDatagram(data);
      forall id: u64, payload | data == Frames.EncodeDatagram(id, payload)
        ensures d == Some(Frames.Datagram(0, id, payload))
      {
        Frames.DatagramRoundTrip(id, payload);
      }
      if d == None {
        return None;
      }
      if d.value.sessionId !in byId {
        return None;
      }
      sent := Some((byId[d.value.sessionId], d.value.payload));
    }

    /** The end of the connection closes every session. */
    method CloseAll()
      modifies this
      ensures byId == map[]
    {
      var ids := byId.Keys;
      while ids != {}
        invariant byId.Keys == ids
        decreases |ids|
      {
        var id :| id in ids;
        Close(id);
        ids := ids - {id};
      }
    }
  }
}
