/**
 Validation of a route list, and the table of routes by host name that is rebuilt from it
 (server/src/config.rs, server/src/route.rs).
 */
module HostRoutes {
  import opened Prelude
  import opened ServerRoutes
  import TcpReconcile

  // ---------------------------------------------------------------- host names

  function LowerChar(c: char): char {
    if 'A' <= c <= 'Z' then (c as int + 32) as char else c
  }

  /** ASCII lower case. */
  function Lower(s: string): (r: string)
    ensures |r| == |s|
    ensures forall i | 0 <= i < |s| :: r[i] == LowerChar(s[i])
  {
    seq(|s|, i requires 0 <= i < |s| => LowerChar(s[i]))
  }

  /** The same letter, but for its case. */
  predicate SameLetter(c: char, d: char) {
    c == d || ('A' <= c <= 'Z' && d as int == c as int + 32) || ('A' <= d <= 'Z' && c as int == d as int + 32)
  }

  /** The same host name, in whatever spelling. */
  predicate SameHost(a: string, b: string) {
    |a| == |b| && forall i | 0 <= i < |a| :: SameLetter(a[i], b[i])
  }

  lemma LowerCharSame(c: char, d: char)
    ensures LowerChar(c) == LowerChar(d) <==> SameLetter(c, d)
  {
  }

  /** Names have the same lower case exactly when they are the same but for case. */
  lemma LowerSame(a: string, b: string)
    ensures Lower(a) == Lower(b) <==> SameHost(a, b)
  {
    if |a| == |b| {
      forall i | 0 <= i < |a| ensures Lower(a)[i] == Lower(b)[i] <==> SameLetter(a[i], b[i]) {
        LowerCharSame(a[i], b[i]);
      }
      if SameHost(a, b) {
        assert Lower(a) == Lower(b);
      }
    }
  }

  function HostKey(r: ServerRoute): Option<string> {
    if IsHttp(r) && r.hostname.Some? then Some(Lower(r.hostname.value)) else None
  }

  // ---------------------------------------------------------------- validation

  /** What a route is told apart by: its host name or its listen address. */
  datatype Identity = ByHost(host: string) | ByAddr(addr: Addr)

  function IdentityOf(r: ServerRoute): Option<Identity> {
    if IsHttp(r) then
      match HostKey(r)
      case None => None
      case Some(h) => Some(ByHost(h))
    else
      match ListenAddr(r)
      case None => None
      case Some(a) => Some(ByAddr(a))
  }

  /** Every route, enabled or not, has an identity, and no two the same. */
  ghost predicate ValidRoutes(routes: seq<ServerRoute>) {
    && (forall i | 0 <= i < |routes| :: IdentityOf(routes[i]).Some?)
    && (forall i, j | 0 <= i < j < |routes| :: IdentityOf(routes[i]) != IdentityOf(routes[j]))
  }

  /** A route told apart by its host name. */
  predicate ByName(r: ServerRoute) {
    r.routeType == Http || r.routeType == Https
  }

  /** The two routes are told apart by the same thing, or not by what they have. */
  predicate Collide(r: ServerRoute, s: ServerRoute) {
    if ByName(r) then ByName(s) && r.hostname.Some? && s.hostname.Some? && SameHost(r.hostname.value, s.hostname.value)
    else !ByName(s) && r.listenHost == s.listenHost && r.listenPort == s.listenPort
  }

  /** Valid, field by field: names and addresses are there, and no two are the same. */
  ghost predicate ValidByField(routes: seq<ServerRoute>) {
    && (forall i | 0 <= i < |routes| ::
          if ByName(routes[i]) then routes[i].hostname.Some? else routes[i].listenHost.Some?)
    && (forall i, j | 0 <= i < j < |routes| :: !Collide(routes[i], routes[j]))
  }

  lemma IdentityFields(r: ServerRoute, s: ServerRoute)
    ensures IdentityOf(r).Some? <==> if ByName(r) then r.hostname.Some? else r.listenHost.Some?
    ensures IdentityOf(r).Some? && IdentityOf(s).Some? ==> (IdentityOf(r) == IdentityOf(s) <==> Collide(r, s))
  {
    if r.hostname.Some? && s.hostname.Some? {
      LowerSame(r.hostname.value, s.hostname.value);
    }
  }

  lemma ValidExactly(routes: seq<ServerRoute>)
    ensures ValidRoutes(routes) <==> ValidByField(routes)
  {
    forall i | 0 <= i < |routes|
      ensures IdentityOf(routes[i]).Some? <==>
        if ByName(routes[i]) then routes[i].hostname.Some? else routes[i].listenHost.Some?
    {
      IdentityFields(routes[i], routes[i]);
    }
    forall i, j | 0 <= i < j < |routes| && IdentityOf(routes[i]).Some? && IdentityOf(routes[j]).Some?
      ensures IdentityOf(routes[i]) == IdentityOf(routes[j]) <==> Collide(routes[i], routes[j])
    {
      IdentityFields(routes[i], routes[j]);
    }
  }

  method Validate(routes: seq<ServerRoute>) returns (ok: bool)
    ensures ok <==> ValidRoutes(routes)
    ensures ok <==> ValidByField(routes)
  {
    ok := CheckAll(routes);
    ValidExactly(routes);
  }

  /** The loop over the routes with its two sets. */
  method CheckAll(routes: seq<ServerRoute>) returns (ok: bool)
    ensures ok <==> ValidRoutes(routes)
  {
    var seenListen: set<Addr>, seenHost: set<string> := {}, {};
    for i := 0 to |routes|
      invariant ValidRoutes(routes[..i])
      invariant forall a :: a in seenListen <==> exists j | 0 <= j < i :: IdentityOf(routes[j]) == Some(ByAddr(a))
      invariant forall h :: h in seenHost <==> exists j | 0 <= j < i :: IdentityOf(routes[j]) == Some(ByHost(h))
    {
      var route := routes[i];
      if IsHttp(route) {
        var host := HostKey(route);
        if host == None {
          return false;
        }
        if host.value in seenHost {
          return false;
        }
        seenHost := seenHost + {host.value};
      } else {
        var addr := ListenAddr(route);
        if addr == None {
          return false;
        }
        if addr.value in seenListen {
          return false;
        }
        seenListen := seenListen + {addr.value};
      }
    }
    assert routes[..|routes|] == routes;
    ok := true;
  }

  /** The current snapshot: replaced by validated route lists only. */
  class ConfigManager {
    var snapshot: seq<ServerRoute>
    var broadcasts: nat

    constructor ()
      ensures Valid() && snapshot == [] && broadcasts == 0
    {
      snapshot, broadcasts := [], 0;
    }

    ghost predicate Valid()
      reads this
    {
      ValidRoutes(snapshot)
    }

    /** `loaded` is what the database gives, if its rows parse. */
    method Reload(loaded: Option<seq<ServerRoute>>) returns (ok: bool)
      requires Valid()
      modifies this
      ensures Valid()
      ensures ok <==> loaded.Some? && ValidRoutes(loaded.value)
      ensures snapshot == if ok then loaded.value else old(snapshot)
      ensures broadcasts == if ok then old(broadcasts) + 1 else old(broadcasts)
    {
      if loaded == None {
        return false;
      }
      ok := Validate(loaded.value);
      if ok {
        snapshot := loaded.value;
        broadcasts := broadcasts + 1;
      }
    }
  }

  // ---------------------------------------------------------------- the host table

  predicate Serves(r: ServerRoute) {
    r.enabled && HostKey(r).Some?
  }

  /** The table after the routes in order, the last of a host name counting. */
  function HostMap(routes: seq<ServerRoute>): map<string, ServerRoute> {
    if routes == [] then map[]
    else
      var n := |routes| - 1;
      var m := HostMap(routes[..n]);
      if Serves(routes[n]) then m[HostKey(routes[n]).value := routes[n]] else m
  }

  class HostTable {
    var byHost: map<string, ServerRoute>

    constructor ()
      ensures byHost == map[]
    {
      byHost := map[];
    }

    /** Startup: refuses a second route for a host; routes without a host are left out. */
    method Insert(route: ServerRoute) returns (ok: bool)
      modifies this
      ensures ok <==> HostKey(route).None? || HostKey(route).value !in old(byHost)
      ensures byHost == if ok && HostKey(route).Some? then old(byHost)[HostKey(route).value := route] else old(byHost)
    {
      var host := HostKey(route);
      if host == None {
        return true;
      }
      if host.value in byHost {
        return false;
      }
      byHost := byHost[host.value := route];
      ok := true;
    }

    /** In a table rebuilt from a validated list: the route that answers to this spelling, if any. */
    method Lookup(host: string) returns (r: Option<ServerRoute>)
      ensures r == At(byHost, host)
      ensures forall routes, x | byHost == HostMap(routes) && ValidRoutes(routes) ::
        r == Some(x) <==> AnswersTo(routes, x, host)
    {
      forall routes, x | byHost == HostMap(routes) && ValidRoutes(routes)
        ensures At(byHost, host) == Some(x) <==> AnswersTo(routes, x, host)
      {
        LookupExact(routes, host, x);
      }
      var key := Lower(host);
      r := if key in byHost then Some(byHost[key]) else None;
    }

    /** Hot reload: the whole table anew. */
    method Reconcile(routes: seq<ServerRoute>)
      modifies this
      ensures byHost == HostMap(routes)
    {
      byHost := map[];
      for i := 0 to |routes|
        invariant byHost == HostMap(routes[..i])
      {
        assert routes[..i + 1][..i] == routes[..i];
        var route := routes[i];
        if route.enabled {
          var host := HostKey(route);
          if host.Some? {
            byHost := byHost[host.value := route];
          }
        }
      }
      assert routes[..|routes|] == routes;
    }
  }

  /** The route of a host in any spelling. */
  function At(m: map<string, ServerRoute>, host: string): Option<ServerRoute> {
    var key := Lower(host);
    if key in m then Some(m[key]) else None
  }

  /** An enabled HTTP or HTTPS route of the list with this host, in whatever spelling. */
  predicate AnswersTo(routes: seq<ServerRoute>, r: ServerRoute, host: string) {
    r in routes && r.enabled && ByName(r) && r.hostname.Some? && SameHost(r.hostname.value, host)
  }

  // ---------------------------------------------------------------- what follows

  /** The route at `i` serves the key, and none after it. */
  ghost predicate LastFor(routes: seq<ServerRoute>, key: string, i: int) {
    0 <= i < |routes| && ServesKey(routes[i], key) && forall j | i < j < |routes| :: !ServesKey(routes[j], key)
  }

  predicate ServesKey(r: ServerRoute, key: string) {
    Serves(r) && HostKey(r) == Some(key)
  }

  /** The route at a key is the last that serves it; without one there is none. */
  lemma {:induction false} HostMapMeaning(routes: seq<ServerRoute>, key: string) returns (i: int)
    ensures if key in HostMap(routes) then LastFor(routes, key, i) && HostMap(routes)[key] == routes[i]
            else forall j | 0 <= j < |routes| :: !ServesKey(routes[j], key)
  {
    i := -1;
    if routes != [] {
      var n := |routes| - 1;
      i := HostMapMeaning(routes[..n], key);
      assert forall j | 0 <= j < n :: routes[..n][j] == routes[j];
      if ServesKey(routes[n], key) {
        i := n;
      }
    }
  }

  /**
   A validated list leaves no choice: a lookup of any spelling of a host gives a route exactly
   when an enabled HTTP or HTTPS route of the list has that host, and it gives that one.
   */
  lemma LookupExact(routes: seq<ServerRoute>, host: string, r: ServerRoute)
    requires ValidRoutes(routes)
    ensures At(HostMap(routes), host) == Some(r) <==> AnswersTo(routes, r, host)
  {
    var key := Lower(host);
    var k := HostMapMeaning(routes, key);
    if r.hostname.Some? {
      LowerSame(r.hostname.value, host);
    }
    if r in routes && ServesKey(r, key) {
      var i :| 0 <= i < |routes| && routes[i] == r;
      assert IdentityOf(routes[i]) == Some(ByHost(key)) && IdentityOf(routes[k]) == Some(ByHost(key));
    }
  }

  /** The table that startup builds, disabled routes included. */
  function StartupMap(routes: seq<ServerRoute>): map<string, ServerRoute> {
    if routes == [] then map[]
    else
      var n := |routes| - 1;
      var m := StartupMap(routes[..n]);
      if HostKey(routes[n]).Some? then m[HostKey(routes[n]).value := routes[n]] else m
  }

  /** No two routes, enabled or not, have the same host name. */
  ghost predicate HostsDiffer(routes: seq<ServerRoute>) {
    forall i, j | 0 <= i < j < |routes| && ByName(routes[i]) && ByName(routes[j]) :: !Collide(routes[i], routes[j])
  }

  lemma KeysCollide(r: ServerRoute, s: ServerRoute)
    ensures HostKey(r).Some? <==> ByName(r) && r.hostname.Some?
    ensures HostKey(r).Some? && HostKey(r) == HostKey(s) <==> ByName(r) && ByName(s) && Collide(r, s)
  {
    if r.hostname.Some? && s.hostname.Some? {
      LowerSame(r.hostname.value, s.hostname.value);
    }
  }

  method BuildHostTable(routes: seq<ServerRoute>) returns (ok: bool, table: HostTable)
    ensures ok <==> HostsDiffer(routes)
    ensures ValidRoutes(routes) ==> ok
    ensures ok ==> table.byHost == StartupMap(routes)
  {
    ValidHostsDiffer(routes);
    table := new HostTable();
    for i := 0 to |routes|
      invariant table.byHost == StartupMap(routes[..i])
      invariant HostsDiffer(routes[..i])
    {
      assert routes[..i + 1][..i] == routes[..i];
      HostTaken(routes, i);
      ok := table.Insert(routes[i]);
      if !ok {
        return;
      }
    }
    assert routes[..|routes|] == routes;
    ok := true;
  }

  lemma ValidHostsDiffer(routes: seq<ServerRoute>)
    ensures ValidRoutes(routes) ==> HostsDiffer(routes)
  {
    ValidExactly(routes);
  }

  /** The host of a route is taken exactly when it occurs among the routes before it. */
  lemma HostTaken(routes: seq<ServerRoute>, i: nat)
    requires i < |routes| && HostsDiffer(routes[..i])
    ensures var key := HostKey(routes[i]);
      && (HostsDiffer(routes[..i + 1]) <==> key.None? || key.value !in StartupMap(routes[..i]))
      && (HostsDiffer(routes) ==> HostsDiffer(routes[..i + 1]))
  {
    var key, front := HostKey(routes[i]), routes[..i];
    assert forall k | 0 <= k < i :: front[k] == routes[k] && routes[..i + 1][k] == routes[k];
    forall k | 0 <= k < i
      ensures HostKey(routes[k]).Some? && HostKey(routes[k]) == key <==>
        ByName(routes[k]) && ByName(routes[i]) && Collide(routes[k], routes[i])
    {
      KeysCollide(routes[k], routes[i]);
    }
    if key.Some? {
      StartupMapMeaning(front, key.value);
    }
  }

  lemma {:induction false} StartupMapMeaning(routes: seq<ServerRoute>, key: string)
    ensures key in StartupMap(routes) ==>
      exists i | 0 <= i < |routes| :: routes[i] == StartupMap(routes)[key] && IdentityOf(routes[i]) == Some(ByHost(key))
    ensures (exists i | 0 <= i < |routes| :: IdentityOf(routes[i]) == Some(ByHost(key))) ==> key in StartupMap(routes)
  {
    if routes != [] {
      var n := |routes| - 1;
      StartupMapMeaning(routes[..n], key);
      assert forall i | 0 <= i < n :: routes[..n][i] == routes[i];
    }
  }

  /** Startup and reload build the same table exactly when no HTTP or HTTPS route is disabled. */
  lemma StartupAgrees(routes: seq<ServerRoute>)
    requires ValidRoutes(routes)
    ensures StartupMap(routes) == HostMap(routes) <==> forall r | r in routes && ByName(r) :: r.enabled
  {
    if StartupMap(routes) == HostMap(routes) {
      forall r | r in routes && ByName(r) ensures r.enabled {
        var i :| 0 <= i < |routes| && routes[i] == r;
        var key := HostKey(r).value;
        assert IdentityOf(routes[i]) == Some(ByHost(key));
        StartupMapMeaning(routes, key);
        var k := HostMapMeaning(routes, key);
        assert IdentityOf(routes[k]) == Some(ByHost(key));
      }
    }
    if forall r | r in routes && ByName(r) :: r.enabled {
      AllEnabled(routes);
    }
  }

  lemma {:induction false} AllEnabled(routes: seq<ServerRoute>)
    requires forall r | r in routes && ByName(r) :: r.enabled
    ensures StartupMap(routes) == HostMap(routes)
  {
    if routes != [] {
      assert routes[|routes| - 1] in routes;
      AllEnabled(routes[..|routes| - 1]);
    }
  }

  /** After a successful reconcile of a validated list each enabled TCP route has its own entry and listener. */
  lemma ValidatedEntries(p: TcpReconcile.Plane, q: TcpReconcile.Plane, c: TcpReconcile.Call, x: ServerRoute)
    requires ValidRoutes(c.routes) && TcpReconcile.Takes(p, q, c) && c.result.Ok?
    requires x in c.routes && x.enabled && x.routeType == Tcp
    ensures x.listenHost.Some?
    ensures var a := Addr(x.listenHost.value, x.listenPort);
      && a in q.table && q.table[a] == x
      && (TcpReconcile.Honest(c.binds) && x.listenPort != 0 ==> a in q.listeners)
  {
    TcpReconcile.RefinesFreshBuild(p, q, c);
    TcpReconcile.OkExactly(p, q, c);
    ValidatedDesired(c.routes, x);
    var d := TcpReconcile.Desired(c.routes).value;
    var a := ListenAddr(x).value;
    assert a in TcpReconcile.Kept(p, d) || a in TcpReconcile.Added(p, d);
  }

  /** In a validated list each enabled TCP route is the one wanted at its address. */
  lemma ValidatedDesired(routes: seq<ServerRoute>, x: ServerRoute)
    requires ValidRoutes(routes) && TcpReconcile.Desired(routes).Some?
    requires x in routes && x.enabled && x.routeType == Tcp
    ensures ListenAddr(x).Some?
    ensures var d := TcpReconcile.Desired(routes).value; ListenAddr(x).value in d && d[ListenAddr(x).value] == x
  {
    TcpReconcile.DesiredMeaning(routes);
    var d := TcpReconcile.Desired(routes).value;
    var i :| 0 <= i < |routes| && routes[i] == x;
    var j :| 0 <= j < |routes| && routes[j] == d[ListenAddr(x).value];
    assert IdentityOf(routes[i]) == IdentityOf(routes[j]);
  }
}
