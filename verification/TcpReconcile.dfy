/**
 Hot reload of the TCP listeners (server/src/tcp_proxy.rs).

 The operating system is a parameter: `binds` maps the addresses that can be bound to the
 address they are then bound at, which differs for port 0 only.
 */
module TcpReconcile {
  import opened Prelude
  import opened ServerRoutes

  datatype Bound = Bound(routeId: nat, addr: Addr)

  /** Listeners and route table together. */
  datatype Plane = Plane(listeners: map<Addr, Bound>, table: map<Addr, ServerRoute>)

  type Binds = map<Addr, Addr>

  ghost predicate Honest(binds: Binds) {
    forall a | a in binds && a.port != 0 :: binds[a] == a
  }

  // ---------------------------------------------------------------- what is wanted

  predicate Wanted(r: ServerRoute) {
    r.enabled && r.routeType.Tcp?
  }

  /** The enabled TCP routes by address, if all their addresses are valid. */
  function Desired(routes: seq<ServerRoute>): (d: Option<map<Addr, ServerRoute>>)
    ensures d.Some? ==> forall a | a in d.value :: Wanted(d.value[a]) && ListenAddr(d.value[a]) == Some(a)
  {
    if routes == [] then Some(map[])
    else
      var n := |routes| - 1;
      match Desired(routes[..n])
      case None => None
      case Some(d) =>
        if !Wanted(routes[n]) then Some(d)
        else
          match ListenAddr(routes[n])
          case None => None
          case Some(a) => Some(d[a := routes[n]])
  }

  /** The addresses wanted are those of the enabled TCP routes, and they must all be valid. */
  lemma {:induction false} DesiredMeaning(routes: seq<ServerRoute>)
    ensures Desired(routes).Some? <==> forall r | r in routes && Wanted(r) :: ListenAddr(r).Some?
    ensures Desired(routes).Some? ==>
      forall r | r in routes && Wanted(r) :: ListenAddr(r).value in Desired(routes).value
    ensures Desired(routes).Some? ==>
      forall a | a in Desired(routes).value :: Desired(routes).value[a] in routes
  {
    if routes != [] {
      var n := |routes| - 1;
      DesiredMeaning(routes[..n]);
      assert routes == routes[..n] + [routes[n]];
    }
  }

  /** An enabled TCP route on this address, field by field. */
  predicate TcpAt(r: ServerRoute, a: Addr) {
    r.enabled && r.routeType == Tcp && r.listenHost == Some(a.ip) && r.listenPort == a.port
  }

  ghost predicate WantsAt(routes: seq<ServerRoute>, a: Addr) {
    exists r | r in routes :: TcpAt(r, a)
  }

  /** Exactly: the addresses wanted, field by field; and none are known if one is invalid. */
  lemma DesiredExactly(routes: seq<ServerRoute>)
    ensures Desired(routes).None? <==>
      exists r | r in routes :: r.enabled && r.routeType == Tcp && r.listenHost == None
    ensures Desired(routes).Some? ==> forall a :: a in Desired(routes).value <==> WantsAt(routes, a)
  {
    DesiredMeaning(routes);
    if Desired(routes).Some? {
      var d := Desired(routes).value;
      forall a ensures a in d <==> WantsAt(routes, a) {
        if a in d {
          assert TcpAt(d[a], a);
        }
        if WantsAt(routes, a) {
          var r :| r in routes && TcpAt(r, a);
          assert ListenAddr(r) == Some(a);
        }
      }
    }
  }

  /** Of several enabled TCP routes on one address the last is the one wanted. */
  lemma {:induction false} DesiredLast(routes: seq<ServerRoute>, a: Addr) returns (i: nat)
    requires Desired(routes).Some? && a in Desired(routes).value
    ensures i < |routes| && TcpAt(routes[i], a) && Desired(routes).value[a] == routes[i]
    ensures forall j | i < j < |routes| :: !TcpAt(routes[j], a)
  {
    var n := |routes| - 1;
    if TcpAt(routes[n], a) {
      i := n;
    } else {
      i := DesiredLast(routes[..n], a);
      assert forall j | i < j < n :: routes[..n][j] == routes[j];
    }
  }

  /** The addresses of the enabled TCP routes of a table. */
  function WantedIn(table: map<Addr, ServerRoute>): set<Addr> {
    set a | a in table && Wanted(table[a])
  }

  /** The table has an enabled TCP route at `a`. */
  predicate TableHasTcp(table: map<Addr, ServerRoute>, a: Addr) {
    a in table && table[a].enabled && table[a].routeType == Tcp
  }

  /** Where the addresses are bound. */
  function BoundFor(addrs: set<Addr>, binds: Binds): set<Addr> {
    set a | a in addrs && a in binds :: binds[a]
  }

  /** The listener at `x` is that of some enabled TCP route of the table. */
  ghost predicate ListensFor(table: map<Addr, ServerRoute>, binds: Binds, x: Addr, b: Bound) {
    exists a | a in WantedIn(table) :: a in binds && binds[a] == x && b == Bound(table[a].id, x)
  }

  // ---------------------------------------------------------------- startup

  /** The table built at startup from all TCP and UDP routes, enabled or not. */
  function TableOf(routes: seq<ServerRoute>): Option<map<Addr, ServerRoute>> {
    if routes == [] then Some(map[])
    else
      var n := |routes| - 1;
      match TableOf(routes[..n])
      case None => None
      case Some(t) =>
        if IsHttp(routes[n]) then Some(t)
        else
          match ListenAddr(routes[n])
          case None => None
          case Some(a) => if a in t then None else Some(t[a := routes[n]])
  }

  predicate EntryOf(table: map<Addr, ServerRoute>, r: ServerRoute) {
    ListenAddr(r).Some? && ListenAddr(r).value in table && table[ListenAddr(r).value] == r
  }

  /** Every TCP and UDP route has its entry. */
  lemma {:induction false} TableHasAll(routes: seq<ServerRoute>, i: nat)
    requires TableOf(routes).Some? && i < |routes| && !IsHttp(routes[i])
    ensures EntryOf(TableOf(routes).value, routes[i])
  {
    var n := |routes| - 1;
    if i < n {
      TableHasAll(routes[..n], i);
    }
  }

  /** Every entry is a TCP or UDP route, at its address. */
  lemma {:induction false} TableHasOnly(routes: seq<ServerRoute>, a: Addr)
    requires TableOf(routes).Some? && a in TableOf(routes).value
    ensures var r := TableOf(routes).value[a]; r in routes && !IsHttp(r) && ListenAddr(r) == Some(a)
  {
    var n := |routes| - 1;
    if a in TableOf(routes[..n]).value {
      TableHasOnly(routes[..n], a);
    }
  }

  /** A TCP or UDP route, enabled or not. */
  predicate HasPort(r: ServerRoute) {
    r.routeType == Tcp || r.routeType == Udp
  }

  /** Every TCP and UDP route has a valid address, and no two the same. */
  ghost predicate AddressesDiffer(routes: seq<ServerRoute>) {
    && (forall i | 0 <= i < |routes| && HasPort(routes[i]) :: routes[i].listenHost.Some?)
    && (forall i, j | 0 <= i < j < |routes| && HasPort(routes[i]) && HasPort(routes[j]) ::
          routes[i].listenHost != routes[j].listenHost || routes[i].listenPort != routes[j].listenPort)
  }

  /** Exactly when startup can build its table. */
  lemma {:induction false} TableExactly(routes: seq<ServerRoute>)
    ensures TableOf(routes).Some? <==> AddressesDiffer(routes)
  {
    if routes != [] {
      var n := |routes| - 1;
      var front := routes[..n];
      TableExactly(front);
      assert forall i | 0 <= i < n :: front[i] == routes[i];
      if TableOf(front).Some? && HasPort(routes[n]) && routes[n].listenHost.Some? {
        var a := ListenAddr(routes[n]).value;
        if a in TableOf(front).value {
          TableHasOnly(front, a);
          var i :| 0 <= i < n && front[i] == TableOf(front).value[a];
          assert HasPort(routes[i]);
        } else {
          forall i | 0 <= i < n && HasPort(routes[i])
            ensures routes[i].listenHost != routes[n].listenHost || routes[i].listenPort != routes[n].listenPort
          {
            TableHasAll(front, i);
          }
        }
      }
    }
  }

  lemma {:induction false} StaysRefused(routes: seq<ServerRoute>, i: nat)
    requires i <= |routes| && TableOf(routes[..i]) == None
    ensures TableOf(routes) == None
    decreases |routes| - i
  {
    if i < |routes| {
      assert routes[..i + 1][..i] == routes[..i];
      StaysRefused(routes, i + 1);
    } else {
      assert routes[..i] == routes;
    }
  }

  method BuildTable(routes: seq<ServerRoute>) returns (ok: bool, table: RouteTable)
    ensures ok <==> AddressesDiffer(routes)
    ensures ok ==> TableOf(routes) == Some(table.byListen)
  {
    TableExactly(routes);
    table := new RouteTable();
    for i := 0 to |routes|
      invariant TableOf(routes[..i]) == Some(table.byListen)
    {
      assert routes[..i + 1][..i] == routes[..i];
      if !IsHttp(routes[i]) {
        var r := table.Insert(routes[i]);
        if r.Err? {
          StaysRefused(routes, i + 1);
          return false, table;
        }
      }
    }
    assert routes[..|routes|] == routes;
    ok := true;
  }

  // ---------------------------------------------------------------- what reconcile does

  function Removed(p: Plane, d: map<Addr, ServerRoute>): set<Addr> {
    p.listeners.Keys - d.Keys
  }

  function Kept(p: Plane, d: map<Addr, ServerRoute>): set<Addr> {
    p.listeners.Keys * d.Keys
  }

  function Added(p: Plane, d: map<Addr, ServerRoute>): set<Addr> {
    d.Keys - p.listeners.Keys
  }

  /** The table without the removed listeners' entries and with the wanted routes at `written`. */
  function TableWith(p: Plane, d: map<Addr, ServerRoute>, written: set<Addr>): map<Addr, ServerRoute>
    requires written <= d.Keys
  {
    map a | a in (p.table.Keys - Removed(p, d)) + written :: if a in written then d[a] else p.table[a]
  }

  function Elements(s: seq<Addr>): set<Addr> {
    set a | a in s
  }

  /** New addresses that can be added. */
  ghost predicate Addable(p: Plane, d: map<Addr, ServerRoute>, binds: Binds, done: seq<Addr>) {
    forall a | a in done :: a in d && a !in p.listeners && a in binds && a !in p.table
  }

  /** The listeners kept, and then those bound for the addresses `done`, one after the other. */
  function ListenersWith(p: Plane, d: map<Addr, ServerRoute>, binds: Binds, done: seq<Addr>): map<Addr, Bound>
    requires forall a | a in done :: a in binds && a in d
  {
    if done == [] then map a | a in Kept(p, d) :: p.listeners[a]
    else
      var n := |done| - 1;
      var at := binds[done[n]];
      ListenersWith(p, d, binds, done[..n])[at := Bound(d[done[n]].id, at)]
  }

  datatype ReconcileError =
    | InvalidAddress
    | Duplicate(addr: Addr)
    | BindFailed(addr: Addr)

  /**
   What a reconcile may do to `p`: nothing when an address is invalid. Otherwise it drops what
   is not wanted, rewrites what stays, and binds the new addresses in some order, of which it
   got through `done`; it stops at an address that has an entry in the table already, or whose
   bind fails, and then leaves the entry there.
   */
  ghost predicate Reconciled(
    p: Plane, q: Plane, routes: seq<ServerRoute>, binds: Binds, r: Result<(), ReconcileError>, done: seq<Addr>)
  {
    match Desired(routes)
    case None => q == p && r == Err(InvalidAddress)
    case Some(d) =>
      && Addable(p, d, binds, done)
      && q.listeners == ListenersWith(p, d, binds, done)
      && TableAfter(p, q.table, d, binds, r, done)
  }

  ghost predicate TableAfter(
    p: Plane, table: map<Addr, ServerRoute>, d: map<Addr, ServerRoute>, binds: Binds,
    r: Result<(), ReconcileError>, done: seq<Addr>)
    requires Addable(p, d, binds, done)
  {
    var written := Kept(p, d) + Elements(done);
    match r
    case Ok(_) => written == d.Keys && table == TableWith(p, d, written)
    case Err(Duplicate(a)) =>
      a in Added(p, d) && a !in done && a in p.table && table == TableWith(p, d, written)
    case Err(BindFailed(a)) =>
      && a in Added(p, d) && a !in done && a !in p.table && a !in binds
      && table == TableWith(p, d, written + {a})
    case Err(InvalidAddress) => false
  }

  /** The table after the drops and the updates. */
  lemma DropThenUpdate(p: Plane, d: map<Addr, ServerRoute>, binds: Binds)
    ensures var table := (p.table - Removed(p, d)) + map a | a in Kept(p, d) :: d[a];
      Adding(p, Plane(p.listeners - Removed(p, d), table), d, binds, [], Added(p, d))
  {
    assert Kept(p, d) + Elements([]) == Kept(p, d);
  }

  lemma WriteOne(p: Plane, d: map<Addr, ServerRoute>, written: set<Addr>, a: Addr)
    requires written <= d.Keys && a in d
    ensures TableWith(p, d, written)[a := d[a]] == TableWith(p, d, written + {a})
    ensures a !in written && a !in p.listeners ==> (a in TableWith(p, d, written) <==> a in p.table)
  {
  }

  lemma OverwriteOne(table: map<Addr, ServerRoute>, d: map<Addr, ServerRoute>, done: set<Addr>, a: Addr)
    requires done <= d.Keys && a in d
    ensures ((table + map b | b in done :: d[b]) - {a})[a := d[a]] == table + map b | b in done + {a} :: d[b]
  {
  }

  /** Adding has got through `done`, and `rest` is to come. */
  ghost predicate Adding(
    p: Plane, q: Plane, d: map<Addr, ServerRoute>, binds: Binds, done: seq<Addr>, rest: set<Addr>)
  {
    && Addable(p, d, binds, done)
    && rest <= Added(p, d) && (forall a | a in Added(p, d) :: a in done <==> a !in rest)
    && q.listeners == ListenersWith(p, d, binds, done)
    && q.table == TableWith(p, d, Kept(p, d) + Elements(done))
  }

  lemma AddingStep(
    p: Plane, q: Plane, d: map<Addr, ServerRoute>, binds: Binds, done: seq<Addr>, rest: set<Addr>, a: Addr)
    requires Adding(p, q, d, binds, done, rest) && a in rest
    ensures a in q.table ==> TableAfter(p, q.table, d, binds, Err(Duplicate(a)), done)
    ensures a !in q.table && a !in binds ==>
      TableAfter(p, q.table[a := d[a]], d, binds, Err(BindFailed(a)), done)
    ensures a !in q.table && a in binds ==>
      var l := q.listeners[binds[a] := Bound(d[a].id, binds[a])];
      Adding(p, Plane(l, q.table[a := d[a]]), d, binds, done + [a], rest - {a})
  {
    WriteOne(p, d, Kept(p, d) + Elements(done), a);
    var longer := done + [a];
    assert longer[..|done|] == done;
    assert Kept(p, d) + Elements(longer) == Kept(p, d) + Elements(done) + {a};
  }

  lemma AddingDone(p: Plane, q: Plane, d: map<Addr, ServerRoute>, binds: Binds, done: seq<Addr>)
    requires Adding(p, q, d, binds, done, {})
    ensures TableAfter(p, q.table, d, binds, Ok(()), done)
  {
    assert Kept(p, d) + Elements(done) == d.Keys;
  }

  class TcpProxy {
    const routes: RouteTable
    var listeners: map<Addr, Bound>

    constructor (routes: RouteTable)
      ensures this.routes == routes && listeners == map[]
    {
      this.routes, listeners := routes, map[];
    }

    /** Startup: binds the enabled TCP routes of the table. */
    method BindAll(binds: Binds) returns (ok: bool)
      requires listeners == map[]
      modifies this
      ensures ok <==> WantedIn(routes.byListen) <= binds.Keys
      ensures ok <==> forall a | TableHasTcp(routes.byListen, a) :: a in binds
      ensures ok ==> listeners.Keys == BoundFor(WantedIn(routes.byListen), binds)
      ensures ok && Honest(binds) && (forall a | TableHasTcp(routes.byListen, a) :: a.port != 0) ==>
        forall a :: a in listeners <==> TableHasTcp(routes.byListen, a)
      ensures forall x | x in listeners :: ListensFor(routes.byListen, binds, x, listeners[x])
    {
      var all := set a | a in routes.byListen && Wanted(routes.byListen[a]);
      assert forall a :: a in all <==> TableHasTcp(routes.byListen, a);
      var rest := all;
      while rest != {}
        invariant rest <= all && all - rest <= binds.Keys
        invariant listeners.Keys == BoundFor(all - rest, binds)
        invariant forall x | x in listeners :: ListensFor(routes.byListen, binds, x, listeners[x])
        decreases |rest|
      {
        var a :| a in rest;
        if a !in binds {
          return false;
        }
        listeners := listeners[binds[a] := Bound(routes.byListen[a].id, binds[a])];
        rest := rest - {a};
      }
      assert all - rest == all;
      ok := true;
      assert forall a :: a in all <==> TableHasTcp(routes.byListen, a);
    }

    ghost function State(): Plane
      reads this, routes
    {
      Plane(listeners, routes.byListen)
    }

    method Reconcile(newRoutes: seq<ServerRoute>, binds: Binds)
      returns (r: Result<(), ReconcileError>, ghost done: seq<Addr>)
      modifies this, routes
      ensures Reconciled(old(State()), State(), newRoutes, binds, r, done)
      ensures r.Ok? && Honest(binds) && NoPortZero(newRoutes) ==>
        forall a :: a in listeners <==> WantsAt(newRoutes, a)
    {
      done := [];
      var wanted := Collect(newRoutes);
      if wanted == None {
        return Err(InvalidAddress), done;
      }
      var desired := wanted.value;
      var current := listeners.Keys;
      DropThenUpdate(State(), desired, binds);
      DropAll(current - desired.Keys);
      UpdateAll(current * desired.Keys, desired);
      r, done := AddAll(desired.Keys - current, desired, binds, old(State()));
      if r.Ok? && Honest(binds) && NoPortZero(newRoutes) {
        ListensExactly(old(State()), State(), Call(newRoutes, binds, r, done));
      }
    }

    method Collect(newRoutes: seq<ServerRoute>) returns (r: Option<map<Addr, ServerRoute>>)
      ensures r == Desired(newRoutes)
    {
      var desired := map[];
      for i := 0 to |newRoutes|
        invariant Desired(newRoutes[..i]) == Some(desired)
      {
        assert newRoutes[..i + 1][..i] == newRoutes[..i];
        var route := newRoutes[i];
        if Wanted(route) {
          var addr := ListenAddr(route);
          if addr == None {
            StaysInvalid(newRoutes, i + 1);
            return None;
          }
          desired := desired[addr.value := route];
        }
      }
      assert newRoutes[..|newRoutes|] == newRoutes;
      r := Some(desired);
    }

    /** Drops the listeners not wanted any more, and their entries. */
    method DropAll(addrs: set<Addr>)
      modifies this, routes
      ensures listeners == old(listeners) - addrs
      ensures routes.byListen == old(routes.byListen) - addrs
    {
      var rest := addrs;
      while rest != {}
        invariant rest <= addrs
        invariant listeners == old(listeners) - (addrs - rest)
        invariant routes.byListen == old(routes.byListen) - (addrs - rest)
        decreases |rest|
      {
        var a :| a in rest;
        listeners := listeners - {a};
        var _ := routes.Remove(a);
        rest := rest - {a};
      }
    }

    /** Writes the wanted routes over the entries of the listeners that stay. */
    method UpdateAll(addrs: set<Addr>, desired: map<Addr, ServerRoute>)
      requires addrs <= desired.Keys && forall a | a in desired :: ListenAddr(desired[a]) == Some(a)
      modifies routes
      ensures routes.byListen == old(routes.byListen) + (map a | a in addrs :: desired[a])
    {
      var rest := addrs;
      while rest != {}
        invariant rest <= addrs
        invariant routes.byListen == old(routes.byListen) + (map a | a in addrs - rest :: desired[a])
        decreases |rest|
      {
        var a :| a in rest;
        OverwriteOne(old(routes.byListen), desired, addrs - rest, a);
        assert addrs - (rest - {a}) == addrs - rest + {a};
        var _ := routes.Remove(a);
        var _ := routes.Insert(desired[a]);
        rest := rest - {a};
      }
    }

    /** Binds the new addresses, up to the first that fails. */
    method AddAll(addrs: set<Addr>, desired: map<Addr, ServerRoute>, binds: Binds, ghost p: Plane)
      returns (r: Result<(), ReconcileError>, ghost done: seq<Addr>)
      requires addrs == Added(p, desired) && forall a | a in desired :: ListenAddr(desired[a]) == Some(a)
      requires Adding(p, State(), desired, binds, [], addrs)
      modifies this, routes
      ensures Addable(p, desired, binds, done)
      ensures listeners == ListenersWith(p, desired, binds, done)
      ensures TableAfter(p, routes.byListen, desired, binds, r, done)
    {
      done := [];
      var rest := addrs;
      while rest != {}
        invariant Adding(p, State(), desired, binds, done, rest)
        decreases |rest|
      {
        var a :| a in rest;
        AddingStep(p, State(), desired, binds, done, rest, a);
        r := Add(a, desired[a], binds);
        if r.Err? {
          return;
        }
        done := done + [a];
        rest := rest - {a};
      }
      AddingDone(p, State(), desired, binds, done);
      r := Ok(());
    }

    /** One new address: first its entry, then its listener. */
    method Add(a: Addr, route: ServerRoute, binds: Binds) returns (r: Result<(), ReconcileError>)
      requires ListenAddr(route) == Some(a)
      modifies this, routes
      ensures r == if a in old(routes.byListen) then Err(Duplicate(a))
                   else if a !in binds then Err(BindFailed(a))
                   else Ok(())
      ensures routes.byListen ==
        if a in old(routes.byListen) then old(routes.byListen) else old(routes.byListen)[a := route]
      ensures listeners == if r.Ok? then old(listeners)[binds[a] := Bound(route.id, binds[a])] else old(listeners)
    {
      var inserted := routes.Insert(route);
      if inserted.Err? {
        return Err(Duplicate(a));
      }
      if a !in binds {
        return Err(BindFailed(a));
      }
      listeners := listeners[binds[a] := Bound(route.id, binds[a])];
      r := Ok(());
    }
  }

  lemma {:induction false} StaysInvalid(routes: seq<ServerRoute>, i: nat)
    requires i <= |routes| && Desired(routes[..i]) == None
    ensures Desired(routes) == None
    decreases |routes| - i
  {
    if i < |routes| {
      assert routes[..i + 1][..i] == routes[..i];
      StaysInvalid(routes, i + 1);
    } else {
      assert routes[..i] == routes;
    }
  }

  // ---------------------------------------------------------------- what follows

  /** A reconcile: its routes, what can be bound, its result, and the new addresses it got through. */
  datatype Call = Call(routes: seq<ServerRoute>, binds: Binds, result: Result<(), ReconcileError>, done: seq<Addr>)

  ghost predicate Takes(p: Plane, q: Plane, c: Call) {
    Reconciled(p, q, c.routes, c.binds, c.result, c.done)
  }

  ghost predicate Wants(c: Call, a: Addr) {
    WantsAt(c.routes, a)
  }

  /** Success, exactly: valid addresses, no entry in the way of a new one, and all binds succeed. */
  lemma OkExactly(p: Plane, q: Plane, c: Call)
    requires Takes(p, q, c)
    ensures c.result.Ok? <==>
      Desired(c.routes).Some? && forall a | a in Added(p, Desired(c.routes).value) :: a !in p.table && a in c.binds
  {
    if c.result.Ok? {
      var d := Desired(c.routes).value;
      forall a | a in Added(p, d) ensures a !in p.table && a in c.binds {
        assert a in Kept(p, d) + Elements(c.done);
      }
    }
  }

  ghost predicate NoPortZero(routes: seq<ServerRoute>) {
    forall r | r in routes && r.enabled && r.routeType == Tcp :: r.listenPort != 0
  }

  /** No listener, and no address the operating system binds, has port 0. */
  ghost predicate RealPorts(p: Plane, binds: Binds) {
    (forall a | a in p.listeners :: a.port != 0) && (forall a | a in binds :: binds[a].port != 0)
  }

  /** The listeners are those kept and those bound. */
  lemma {:induction false} BoundKeys(p: Plane, d: map<Addr, ServerRoute>, binds: Binds, done: seq<Addr>)
    requires forall a | a in done :: a in binds && a in d
    ensures ListenersWith(p, d, binds, done).Keys == Kept(p, d) + BoundFor(Elements(done), binds)
  {
    if done != [] {
      var n := |done| - 1;
      BoundKeys(p, d, binds, done[..n]);
      assert Elements(done) == Elements(done[..n]) + {done[n]} by {
        assert done == done[..n] + [done[n]];
      }
    }
  }

  lemma {:induction false} BoundWhereAsked(p: Plane, d: map<Addr, ServerRoute>, binds: Binds, done: seq<Addr>)
    requires Honest(binds) && forall a | a in done :: a in binds && a in d && a.port != 0
    ensures ListenersWith(p, d, binds, done).Keys == Kept(p, d) + Elements(done)
    ensures forall a | a in done :: ListenersWith(p, d, binds, done)[a] == Bound(d[a].id, a)
    ensures forall a | a in Kept(p, d) && a !in done :: ListenersWith(p, d, binds, done)[a] == p.listeners[a]
  {
    if done != [] {
      var n := |done| - 1;
      BoundWhereAsked(p, d, binds, done[..n]);
      assert done == done[..n] + [done[n]];
    }
  }

  /** The listeners after a success. */
  lemma ListenersAfter(p: Plane, q: Plane, c: Call)
    requires Takes(p, q, c) && c.result.Ok?
    ensures var d := Desired(c.routes).value;
      q.listeners.Keys == Kept(p, d) + BoundFor(Added(p, d), c.binds)
  {
    var d := Desired(c.routes).value;
    BoundKeys(p, d, c.binds, c.done);
    assert Elements(c.done) == Added(p, d) by {
      forall a | a in Added(p, d) ensures a in c.done {
        assert a in Kept(p, d) + Elements(c.done);
      }
    }
  }

  /**
   After a success every enabled TCP address has its route in the table, the entries of dropped
   listeners are gone and nothing else in the table has changed. The listeners are those kept
   and those bound for the new addresses.
   */
  lemma RefinesFreshBuild(p: Plane, q: Plane, c: Call)
    requires Takes(p, q, c) && c.result.Ok?
    ensures var d := Desired(c.routes).value;
      && (forall a | a in d :: a in q.table && q.table[a] == d[a])
      && (forall a | a !in d && a !in p.listeners :: a in q.table <==> a in p.table)
      && (forall a | a !in d && a in q.table :: a in p.table && q.table[a] == p.table[a])
      && (forall a | a in p.listeners && a !in d :: a !in q.table)
      && q.listeners.Keys == Kept(p, d) + BoundFor(Added(p, d), c.binds)
  {
    ListenersAfter(p, q, c);
  }

  /**
   The listeners after a success are exactly the enabled TCP addresses if and only if none of
   those has port 0; and then the ones that were there already are still the same.
   */
  lemma ListenersExactly(p: Plane, q: Plane, c: Call)
    requires Takes(p, q, c) && c.result.Ok? && Honest(c.binds) && RealPorts(p, c.binds)
    ensures var d := Desired(c.routes).value;
      && (q.listeners.Keys == d.Keys <==> NoPortZero(c.routes))
      && (NoPortZero(c.routes) ==>
            forall a | a in d :: q.listeners[a] == if a in p.listeners then p.listeners[a] else Bound(d[a].id, a))
  {
    var d := Desired(c.routes).value;
    DesiredMeaning(c.routes);
    ListenersAfter(p, q, c);
    if NoPortZero(c.routes) {
      SameListeners(p, q, c);
    } else {
      var x :| x in c.routes && Wanted(x) && x.listenPort == 0;
      assert ListenAddr(x).value in d && ListenAddr(x).value !in q.listeners;
    }
  }

  lemma SameListeners(p: Plane, q: Plane, c: Call)
    requires Takes(p, q, c) && c.result.Ok? && Honest(c.binds) && NoPortZero(c.routes)
    ensures var d := Desired(c.routes).value;
      && q.listeners.Keys == d.Keys
      && forall a | a in d :: q.listeners[a] == if a in p.listeners then p.listeners[a] else Bound(d[a].id, a)
  {
    var d := Desired(c.routes).value;
    DesiredMeaning(c.routes);
    BoundWhereAsked(p, d, c.binds, c.done);
    forall a | a in d
      ensures q.listeners[a] == if a in p.listeners then p.listeners[a] else Bound(d[a].id, a)
    {
      assert a in Kept(p, d) + Elements(c.done);
    }
  }

  /**
   What is listened on after a success, field by field: exactly the addresses of enabled TCP
   routes. In particular a route switched off, or one of another type, has no listener.
   */
  lemma ListensExactly(p: Plane, q: Plane, c: Call)
    requires Takes(p, q, c) && c.result.Ok? && Honest(c.binds) && NoPortZero(c.routes)
    ensures forall a :: a in q.listeners <==> WantsAt(c.routes, a)
  {
    SameListeners(p, q, c);
    DesiredExactly(c.routes);
  }

  /** A plane whose listeners are the wanted ones, with their routes in the table. */
  ghost predicate UpToDate(p: Plane, d: map<Addr, ServerRoute>) {
    p.listeners.Keys == d.Keys && forall a | a in d :: a in p.table && p.table[a] == d[a]
  }

  lemma Inhabited(s: seq<Addr>)
    ensures s == [] || exists a :: a in s
  {
    if s != [] {
      assert s[0] in s;
    }
  }

  lemma NothingToDo(p: Plane, q: Plane, c: Call)
    requires Takes(p, q, c) && Desired(c.routes).Some? && UpToDate(p, Desired(c.routes).value)
    ensures c.result.Ok? && q == p && c.done == []
    ensures Removed(p, Desired(c.routes).value) == {} && Added(p, Desired(c.routes).value) == {}
  {
    var d := Desired(c.routes).value;
    assert Added(p, d) == {};
    Inhabited(c.done);
    assert q.table == p.table;
    assert q.listeners == p.listeners;
  }

  /** Reconciling the same routes again drops nothing, binds nothing and changes nothing. */
  lemma Idempotent(p: Plane, q: Plane, q2: Plane, c: Call, c2: Call)
    requires Takes(p, q, c) && c.result.Ok? && Honest(c.binds) && NoPortZero(c.routes)
    requires Takes(q, q2, c2) && c2.routes == c.routes
    ensures c2.result.Ok? && q2 == q && c2.done == []
    ensures Removed(q, Desired(c.routes).value) == {} && Added(q, Desired(c.routes).value) == {}
  {
    RefinesFreshBuild(p, q, c);
    SameListeners(p, q, c);
    NothingToDo(q, q2, c2);
  }

  // ---------------------------------------------------------------- entries in the way

  /** An entry without a listener. */
  predicate Stale(p: Plane, a: Addr) {
    a in p.table && a !in p.listeners
  }

  /**
   What a reconcile does to a stale entry: it stays, and no reconcile that wants its address
   succeeds. A listener comes to the address only if another one was bound there.
   */
  lemma StaleExactly(p: Plane, q: Plane, c: Call, a: Addr)
    requires Takes(p, q, c) && Stale(p, a)
    ensures a in q.table && (Wants(c, a) ==> c.result.Err?)
    ensures Stale(q, a) <==> Desired(c.routes).None? || a !in BoundFor(Elements(c.done), c.binds)
  {
    OkExactly(p, q, c);
    DesiredExactly(c.routes);
    if Desired(c.routes).Some? {
      BoundKeys(p, Desired(c.routes).value, c.binds, c.done);
    }
  }

  /** No other address the call wants is bound at `a`; with real ports that takes port 0. */
  ghost predicate Elsewhere(c: Call, a: Addr) {
    forall b | Wants(c, b) && b in c.binds && b != a :: c.binds[b] != a
  }

  lemma OnlyPortZeroElsewhere(c: Call, a: Addr)
    requires Honest(c.binds) && NoPortZero(c.routes)
    ensures Elsewhere(c, a)
  {
    forall b | Wants(c, b) ensures b.port != 0 {
      var r :| r in c.routes && TcpAt(r, b);
    }
  }

  lemma StaleStays(p: Plane, q: Plane, c: Call, a: Addr)
    requires Takes(p, q, c) && Stale(p, a) && Elsewhere(c, a)
    ensures Stale(q, a) && (Wants(c, a) ==> c.result.Err?)
  {
    DesiredExactly(c.routes);
    StaleExactly(p, q, c, a);
  }

  /** Every failure but that of an invalid address leaves a stale entry where it stopped. */
  lemma FailureLeavesStale(p: Plane, q: Plane, c: Call)
    requires Takes(p, q, c) && c.result.Err? && !c.result.error.InvalidAddress?
    requires Elsewhere(c, c.result.error.addr)
    ensures Stale(q, c.result.error.addr) && Wants(c, c.result.error.addr)
  {
    DesiredExactly(c.routes);
    BoundKeys(p, Desired(c.routes).value, c.binds, c.done);
  }

  /** A route on port 0 is bound elsewhere and leaves its entry stale. */
  lemma PortZeroStale(p: Plane, q: Plane, c: Call, a: Addr)
    requires Takes(p, q, c) && c.result.Ok? && RealPorts(p, c.binds) && Wants(c, a) && a.port == 0
    ensures Stale(q, a)
  {
    DesiredExactly(c.routes);
    RefinesFreshBuild(p, q, c);
  }

  /**
   Repeating a reconcile succeeds exactly when no route listens on port 0. Such a route is bound
   elsewhere, so the second time its listener is dropped and its own entry is in the way.
   */
  lemma RepeatExactly(p: Plane, q: Plane, q2: Plane, c: Call, c2: Call)
    requires Takes(p, q, c) && c.result.Ok? && Honest(c.binds) && RealPorts(p, c.binds)
    requires Takes(q, q2, c2) && c2.routes == c.routes
    ensures c2.result.Ok? <==> NoPortZero(c.routes)
  {
    if NoPortZero(c.routes) {
      Idempotent(p, q, q2, c, c2);
    } else {
      var x :| x in c.routes && Wanted(x) && x.listenPort == 0;
      DesiredMeaning(c.routes);
      assert TcpAt(x, ListenAddr(x).value);
      PortZeroStale(p, q, c, ListenAddr(x).value);
      StaleExactly(q, q2, c2, ListenAddr(x).value);
    }
  }

  // ---------------------------------------------------------------- for good

  /** Reconciles one after the other, with whatever routes. */
  ghost predicate Calls(ps: seq<Plane>, cs: seq<Call>) {
    |ps| == |cs| + 1 && forall k | 0 <= k < |cs| :: TakesAt(ps, cs, k)
  }

  ghost predicate TakesAt(ps: seq<Plane>, cs: seq<Call>, k: nat)
    requires k < |cs| && |ps| == |cs| + 1
  {
    Takes(ps[k], ps[k + 1], cs[k])
  }

  /** A stale entry stays for good, and every later reconcile that wants its address fails. */
  lemma {:induction false} StaleForever(ps: seq<Plane>, cs: seq<Call>, i: nat, j: nat, a: Addr)
    requires Calls(ps, cs) && i <= j < |ps| && Stale(ps[i], a)
    requires forall k | i <= k < |cs| :: Elsewhere(cs[k], a)
    ensures Stale(ps[j], a)
    ensures j < |cs| && Wants(cs[j], a) ==> cs[j].result.Err?
    decreases j
  {
    if i < j {
      StaleForever(ps, cs, i, j - 1, a);
      assert TakesAt(ps, cs, j - 1);
      StaleStays(ps[j - 1], ps[j], cs[j - 1], a);
    }
    if j < |cs| {
      assert TakesAt(ps, cs, j);
      StaleStays(ps[j], ps[j + 1], cs[j], a);
    }
  }

  /**
   A failure is final: whatever is reconciled in between and whatever can be bound by then, a
   later reconcile of the same routes fails again.
   */
  lemma FailureIsFinal(ps: seq<Plane>, cs: seq<Call>, i: nat, j: nat)
    requires Calls(ps, cs) && i < j < |cs| && cs[i].result.Err? && cs[j].routes == cs[i].routes
    requires !cs[i].result.error.InvalidAddress? ==>
      forall k | i <= k < |cs| :: Elsewhere(cs[k], cs[i].result.error.addr)
    ensures cs[j].result.Err?
  {
    assert TakesAt(ps, cs, i) && TakesAt(ps, cs, j);
    if !cs[i].result.error.InvalidAddress? {
      var a := cs[i].result.error.addr;
      FailureLeavesStale(ps[i], ps[i + 1], cs[i]);
      StaleForever(ps, cs, i + 1, j, a);
    }
  }

  // ---------------------------------------------------------------- after startup

  /** The plane startup leaves. */
  ghost predicate Started(atStart: seq<ServerRoute>, binds: Binds, p: Plane) {
    && TableOf(atStart) == Some(p.table)
    && p.listeners.Keys == BoundFor(WantedIn(p.table), binds)
  }

  /** Some enabled TCP route was bound at `a` at startup. */
  ghost predicate BoundAtStart(atStart: seq<ServerRoute>, binds: Binds, a: Addr) {
    exists z | z in atStart :: z.enabled && z.routeType == Tcp && BoundAs(z, binds, a)
  }

  predicate BoundAs(z: ServerRoute, binds: Binds, a: Addr) {
    ListenAddr(z).Some? && ListenAddr(z).value in binds && binds[ListenAddr(z).value] == a
  }

  lemma StartListeners(atStart: seq<ServerRoute>, binds: Binds, p: Plane, a: Addr)
    requires Started(atStart, binds, p)
    ensures a in p.listeners <==> BoundAtStart(atStart, binds, a)
  {
    if a in p.listeners {
      var b :| b in WantedIn(p.table) && b in binds && binds[b] == a;
      TableHasOnly(atStart, b);
      assert BoundAs(p.table[b], binds, a);
    }
    if BoundAtStart(atStart, binds, a) {
      var z :| z in atStart && z.enabled && z.routeType == Tcp && BoundAs(z, binds, a);
      assert !IsHttp(z);
      var i :| 0 <= i < |atStart| && atStart[i] == z;
      TableHasAll(atStart, i);
      assert ListenAddr(z).value in WantedIn(p.table);
    }
  }

  /** A route with a listen address of its own. */
  predicate OnAddress(x: ServerRoute) {
    HasPort(x) && x.listenHost.Some?
  }

  /** The routes want an address that a route had at startup. */
  ghost predicate TakesOver(atStart: seq<ServerRoute>, c: Call, x: ServerRoute) {
    x in atStart && OnAddress(x) && Wants(c, ListenAddr(x).value)
  }

  /**
   The first reconcile after startup, exactly: with valid addresses and binds that succeed it
   succeeds if and only if every address it takes over from a TCP or UDP route of startup was
   bound then. Without port 0 that means the route was an enabled TCP route.
   */
  lemma FirstReconcile(atStart: seq<ServerRoute>, binds: Binds, p: Plane, q: Plane, c: Call)
    requires Started(atStart, binds, p) && Takes(p, q, c)
    requires Desired(c.routes).Some? && Desired(c.routes).value.Keys <= c.binds.Keys
    ensures c.result.Ok? <==>
      forall x | TakesOver(atStart, c, x) :: BoundAtStart(atStart, binds, ListenAddr(x).value)
  {
    var d := Desired(c.routes).value;
    OkExactly(p, q, c);
    DesiredExactly(c.routes);
    if a :| a in Added(p, d) && a in p.table {
      TableHasOnly(atStart, a);
      StartListeners(atStart, binds, p, a);
      assert TakesOver(atStart, c, p.table[a]);
    } else {
      forall x | TakesOver(atStart, c, x) ensures BoundAtStart(atStart, binds, ListenAddr(x).value) {
        var i :| 0 <= i < |atStart| && atStart[i] == x;
        TableHasAll(atStart, i);
        StartListeners(atStart, binds, p, ListenAddr(x).value);
        assert ListenAddr(x).value !in Added(p, d);
      }
    }
  }

  /** Where startup had no port 0, exactly the addresses of its enabled TCP routes were bound. */
  lemma BoundIfWanted(atStart: seq<ServerRoute>, binds: Binds, p: Plane, x: ServerRoute)
    requires Started(atStart, binds, p) && Honest(binds) && NoPortZero(atStart) && WantedIn(p.table) <= binds.Keys
    requires x in atStart && OnAddress(x)
    ensures BoundAtStart(atStart, binds, ListenAddr(x).value) <==> x.enabled && x.routeType == Tcp
  {
    var a := ListenAddr(x).value;
    var i :| 0 <= i < |atStart| && atStart[i] == x;
    TableHasAll(atStart, i);
    if BoundAtStart(atStart, binds, a) {
      var z :| z in atStart && z.enabled && z.routeType == Tcp && BoundAs(z, binds, a);
      assert !IsHttp(z);
      var k :| 0 <= k < |atStart| && atStart[k] == z;
      TableHasAll(atStart, k);
    }
    if Wanted(x) {
      assert a in WantedIn(p.table);
      assert BoundAs(x, binds, a);
    }
  }

  /**
   A route that was disabled at startup, or a UDP route, blocks its address for good: every
   reconcile from startup on that wants it as an enabled TCP address fails.
   */
  lemma DisabledForever(
    atStart: seq<ServerRoute>, binds: Binds, ps: seq<Plane>, cs: seq<Call>, x: ServerRoute, j: nat)
    requires Calls(ps, cs) && Started(atStart, binds, ps[0]) && j < |cs|
    requires x in atStart && OnAddress(x)
    requires !BoundAtStart(atStart, binds, ListenAddr(x).value)
    requires forall k | 0 <= k < |cs| :: Elsewhere(cs[k], ListenAddr(x).value)
    ensures Wants(cs[j], ListenAddr(x).value) ==> cs[j].result.Err?
  {
    var i :| 0 <= i < |atStart| && atStart[i] == x;
    TableHasAll(atStart, i);
    StartListeners(atStart, binds, ps[0], ListenAddr(x).value);
    StaleForever(ps, cs, 0, j, ListenAddr(x).value);
  }
}
