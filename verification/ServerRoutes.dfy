/** Routes as the server sees them, and their table by listen address (server/src/route.rs). */
module ServerRoutes {
  import opened Prelude
  import opened Bytes

  /** `listenHost` is the parsed address of the host text, if it is an address at all. */
  datatype ServerRoute = ServerRoute(
    id: nat,
    routeType: RouteType,
    enabled: bool,
    listenHost: Option<Ip>,
    listenPort: u16,
    target: string,
    hostname: Option<string>)

  function ListenAddr(r: ServerRoute): Option<Addr> {
    match r.listenHost
    case None => None
    case Some(ip) => Some(Addr(ip, r.listenPort))
  }

  predicate IsHttp(r: ServerRoute) {
    r.routeType.Http? || r.routeType.Https?
  }

  datatype TableError = InvalidListen | DuplicateListen(addr: Addr)

  class RouteTable {
    var byListen: map<Addr, ServerRoute>

    constructor ()
      ensures byListen == map[]
    {
      byListen := map[];
    }

    method Insert(route: ServerRoute) returns (r: Result<(), TableError>)
      modifies this
      ensures r == match ListenAddr(route)
                   case None => Err(InvalidListen)
                   case Some(a) => if a in old(byListen) then Err(DuplicateListen(a)) else Ok(())
      ensures byListen == if r.Ok? then old(byListen)[ListenAddr(route).value := route] else old(byListen)
    {
      var addr := ListenAddr(route);
      if addr == None {
        return Err(InvalidListen);
      }
      if addr.value in byListen {
        return Err(DuplicateListen(addr.value));
      }
      byListen := byListen[addr.value := route];
      r := Ok(());
    }

    method Remove(a: Addr) returns (r: Option<ServerRoute>)
      modifies this
      ensures r == if a in old(byListen) then Some(old(byListen)[a]) else None
      ensures byListen == old(byListen) - {a}
    {
      r := if a in byListen then Some(byListen[a]) else None;
      byListen := byListen - {a};
    }
  }
}
