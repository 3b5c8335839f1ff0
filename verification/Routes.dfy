/**
 Route tables, route deltas, and what replaying deltas over a snapshot yields.

 The server describes a change of a node's route table by a delta
 (crates/tunnel-core/src/config_sync.rs); the agent applies it to its local
 vector of routes (agent/src/session.rs). A table is the id-to-route map that a
 vector with distinct ids stands for.
 */
module Routes {
  import opened Prelude

  datatype Limits = Limits(
    maxConnections: Option<nat>,
    maxConnectionRate: Option<nat>,
    maxBandwidth: Option<nat>)

  /** The agent's view of a route. */
  datatype RouteConfig = RouteConfig(
    id: RouteId,
    name: string,
    routeType: RouteType,
    enabled: bool,
    targetHost: string,
    targetPort: nat,
    hostname: Option<string>,
    limits: Option<Limits>)

  datatype RouteDelta = RouteDelta(
    added: seq<RouteConfig>,
    updated: seq<RouteConfig>,
    removed: seq<RouteId>)

  type Table = map<RouteId, RouteConfig>

  // ---------------------------------------------------------------- vectors and tables

  predicate DistinctIds(rs: seq<RouteConfig>) {
    forall i, j | 0 <= i < j < |rs| :: rs[i].id != rs[j].id
  }

  predicate HasId(rs: seq<RouteConfig>, id: RouteId) {
    exists i | 0 <= i < |rs| :: rs[i].id == id
  }

  /** Collecting into a hash map: the last entry with an id wins. */
  function ById(rs: seq<RouteConfig>): Table {
    if rs == [] then map[]
    else ById(rs[..|rs| - 1])[rs[|rs| - 1].id := rs[|rs| - 1]]
  }

  /** `rs` lists every route of `t` exactly once, and nothing else. */
  ghost predicate Represents(rs: seq<RouteConfig>, t: Table) {
    && DistinctIds(rs)
    && (forall i | 0 <= i < |rs| :: rs[i].id in t && t[rs[i].id] == rs[i])
    && (forall id | id in t :: HasId(rs, id))
  }

  lemma {:induction false} ByIdKeys(rs: seq<RouteConfig>)
    ensures forall id :: id in ById(rs) <==> HasId(rs, id)
    ensures forall id :: id in ById(rs) ==> ById(rs)[id] in rs && ById(rs)[id].id == id
  {
    if rs != [] {
      var n := |rs| - 1;
      ByIdKeys(rs[..n]);
      forall id
        ensures id in ById(rs) <==> HasId(rs, id)
      {
        if HasId(rs, id) {
          var i :| 0 <= i < |rs| && rs[i].id == id;
          if i < n {
            assert rs[..n][i].id == id;
            assert HasId(rs[..n], id);
          }
        }
        if HasId(rs[..n], id) {
          var i :| 0 <= i < |rs[..n]| && rs[..n][i].id == id;
          assert rs[i].id == id;
        }
        assert rs[n].id in ById(rs) && HasId(rs, rs[n].id);
      }
    }
  }

  lemma {:induction false} ByIdEntry(rs: seq<RouteConfig>, i: nat)
    requires DistinctIds(rs) && i < |rs|
    ensures rs[i].id in ById(rs) && ById(rs)[rs[i].id] == rs[i]
  {
    if i < |rs| - 1 {
      ByIdEntry(rs[..|rs| - 1], i);
    }
  }

  /** With distinct ids the vector represents exactly the map it collects into. */
  lemma RepresentsById(rs: seq<RouteConfig>, t: Table)
    requires DistinctIds(rs)
    ensures Represents(rs, t) <==> t == ById(rs)
  {
    ByIdKeys(rs);
    forall i: nat | i < |rs| ensures rs[i].id in ById(rs) && ById(rs)[rs[i].id] == rs[i] {
      ByIdEntry(rs, i);
    }
    if Represents(rs, t) {
      assert forall id :: id in t <==> id in ById(rs);
      forall id | id in t ensures t[id] == ById(rs)[id] {
        var i :| 0 <= i < |rs| && rs[i].id == id;
      }
    }
  }

  // ---------------------------------------------------------------- applying a delta

  /** Every added route whose id the table does not hold yet. */
  function AddAll(t: Table, added: seq<RouteConfig>): Table {
    if added == [] then t
    else
      var before := AddAll(t, added[..|added| - 1]);
      var r := added[|added| - 1];
      if r.id in before then before else before[r.id := r]
  }

  /** Every updated route replaces or creates its entry. */
  function UpsertAll(t: Table, updated: seq<RouteConfig>): Table {
    if updated == [] then t
    else
      var r := updated[|updated| - 1];
      UpsertAll(t, updated[..|updated| - 1])[r.id := r]
  }

  function IdSet(ids: seq<RouteId>): set<RouteId> {
    set id | id in ids
  }

  function ApplyDelta(t: Table, d: RouteDelta): Table {
    UpsertAll(AddAll(t, d.added), d.updated) - IdSet(d.removed)
  }

  // ---------------------------------------------------------------- what a delta means

  /**
   `d` describes the change from `prior` to `next`. Nothing is said about the order of
   its entries, nor about how often an id is listed as removed.
   */
  ghost predicate IsDelta(d: RouteDelta, prior: Table, next: Table) {
    && DistinctIds(d.added) && DistinctIds(d.updated)
    && (forall i | 0 <= i < |d.added| ::
          d.added[i].id in next && d.added[i].id !in prior && next[d.added[i].id] == d.added[i])
    && (forall i | 0 <= i < |d.updated| ::
          d.updated[i].id in next && d.updated[i].id in prior
          && next[d.updated[i].id] == d.updated[i] && prior[d.updated[i].id] != d.updated[i])
    && (forall id | id in next && id !in prior :: HasId(d.added, id))
    && (forall id | id in next && id in prior && prior[id] != next[id] :: HasId(d.updated, id))
    && (forall id :: id in d.removed <==> id in prior && id !in next)
  }

  /** The two tables agree on one id: both lack it, or both hold the same route. */
  ghost predicate Agree(s: Table, t: Table, id: RouteId) {
    (id in s <==> id in t) && (id in s ==> s[id] == t[id])
  }

  /** Every id of `t` is as in `a` or as in `b`: a table somewhere between two versions. */
  ghost predicate Between(t: Table, a: Table, b: Table) {
    forall id :: Agree(t, a, id) || Agree(t, b, id)
  }

  lemma BetweenSame(t: Table, a: Table)
    ensures Between(t, a, a) <==> t == a
  {
    if Between(t, a, a) {
      forall id ensures id in t <==> id in a {
        assert Agree(t, a, id);
      }
      forall id | id in t ensures t[id] == a[id] {
        assert Agree(t, a, id);
      }
    } else if t == a {
      assert forall id :: Agree(t, a, id);
      assert false;
    }
  }

  lemma {:induction false} AddAllAt(t: Table, added: seq<RouteConfig>, id: RouteId)
    requires DistinctIds(added)
    ensures id in t || !HasId(added, id) ==> Agree(AddAll(t, added), t, id)
    ensures id !in t ==> (id in AddAll(t, added) <==> HasId(added, id))
    ensures forall i | 0 <= i < |added| && added[i].id == id && id !in t ::
              AddAll(t, added)[id] == added[i]
  {
    if added != [] {
      var n := |added| - 1;
      AddAllAt(t, added[..n], id);
      if HasId(added[..n], id) {
        var i :| 0 <= i < n && added[..n][i].id == id;
        assert added[i].id == id;
      }
      if HasId(added, id) && added[n].id != id {
        var i :| 0 <= i < |added| && added[i].id == id;
        assert added[..n][i].id == id;
      }
      forall i | 0 <= i < |added| && added[i].id == id && id !in t
        ensures AddAll(t, added)[id] == added[i]
      {
        if i < n {
          assert added[..n][i].id == id;
        } else {
          assert forall k | 0 <= k < n :: added[..n][k].id != id;
        }
      }
    }
  }

  lemma {:induction false} UpsertAllAt(t: Table, updated: seq<RouteConfig>, id: RouteId)
    requires DistinctIds(updated)
    ensures !HasId(updated, id) ==> Agree(UpsertAll(t, updated), t, id)
    ensures forall i | 0 <= i < |updated| && updated[i].id == id ::
              id in UpsertAll(t, updated) && UpsertAll(t, updated)[id] == updated[i]
  {
    if updated != [] {
      var n := |updated| - 1;
      UpsertAllAt(t, updated[..n], id);
      if HasId(updated[..n], id) {
        var i :| 0 <= i < n && updated[..n][i].id == id;
        assert updated[i].id == id;
      }
      assert updated[n].id == id ==> HasId(updated, id);
      forall i | 0 <= i < |updated| && updated[i].id == id
        ensures id in UpsertAll(t, updated) && UpsertAll(t, updated)[id] == updated[i]
      {
        if i < n {
          assert updated[..n][i].id == id;
        }
      }
    }
  }

  /**
   One id under one delta. Where the delta touches the id the result is as in `next`,
   except that an added id the table already holds keeps what it holds.
   */
  lemma ApplyDeltaAt(t: Table, d: RouteDelta, prior: Table, next: Table, id: RouteId)
    requires IsDelta(d, prior, next)
    ensures Agree(prior, next, id) ==> Agree(ApplyDelta(t, d), t, id)
    ensures !Agree(prior, next, id) && id in prior ==> Agree(ApplyDelta(t, d), next, id)
    ensures !Agree(prior, next, id) && id !in prior && id !in t ==> Agree(ApplyDelta(t, d), next, id)
    ensures !Agree(prior, next, id) && id !in prior && id in t ==> Agree(ApplyDelta(t, d), t, id)
  {
    AddAllAt(t, d.added, id);
    UpsertAllAt(AddAll(t, d.added), d.updated, id);
    assert HasId(d.added, id) <==> id in next && id !in prior;
    assert HasId(d.updated, id) <==> id in next && id in prior && prior[id] != next[id];
    assert id in d.removed <==> id in prior && id !in next;
  }

  /**
   A delta from version i to i+1 moves a table between H[i] and some later table to one
   between H[i+1] and that same later table, and an exact table to an exact table.
   */
  lemma DeltaKeepsBetween(t: Table, d: RouteDelta, prior: Table, next: Table, later: Table)
    requires IsDelta(d, prior, next)
    requires Between(t, prior, later)
    ensures Between(ApplyDelta(t, d), next, later)
    ensures t == prior ==> ApplyDelta(t, d) == next
  {
    forall id
      ensures Agree(ApplyDelta(t, d), next, id) || Agree(ApplyDelta(t, d), later, id)
      ensures t == prior ==> Agree(ApplyDelta(t, d), next, id)
    {
      ApplyDeltaAt(t, d, prior, next, id);
      assert Agree(t, prior, id) || Agree(t, later, id);
    }
    if t == prior {
      BetweenSame(ApplyDelta(t, d), next);
    }
  }

  // ---------------------------------------------------------------- replaying deltas

  /** The first `m` deltas, one after the other. */
  function Replay(t: Table, ds: seq<RouteDelta>, m: nat): Table
    requires m <= |ds|
  {
    if m == 0 then t else ApplyDelta(Replay(t, ds, m - 1), ds[m - 1])
  }

  /** `ds` are deltas from `h[v]` on, one per version. */
  ghost predicate DeltasFrom(h: seq<Table>, v: nat, ds: seq<RouteDelta>) {
    && v + |ds| < |h|
    && forall m | 0 <= m < |ds| :: DeltaAt(h, v, ds, m)
  }

  ghost predicate DeltaAt(h: seq<Table>, v: nat, ds: seq<RouteDelta>, m: nat)
    requires m < |ds| && v + |ds| < |h|
  {
    IsDelta(ds[m], h[v + m], h[v + m + 1])
  }

  /** The table is between version k and version j, or is version k once that is the newer. */
  ghost predicate Toward(h: seq<Table>, t: Table, k: nat, j: nat)
    requires k < |h| && j < |h|
  {
    Between(t, h[k], h[Max(j, k)])
  }

  lemma TowardItself(h: seq<Table>, v: nat, j: nat)
    requires v <= j < |h|
    ensures Toward(h, h[j], v, j)
  {
    assert forall id :: Agree(h[j], h[j], id);
  }

  /** The next delta. */
  lemma ReplayOne(h: seq<Table>, t: Table, d: RouteDelta, k: nat, j: nat)
    requires k + 1 < |h| && j < |h| && IsDelta(d, h[k], h[k + 1]) && Toward(h, t, k, j)
    ensures Toward(h, ApplyDelta(t, d), k + 1, j)
  {
    DeltaKeepsBetween(t, d, h[k], h[k + 1], h[Max(j, k)]);
    if k >= j {
      BetweenSame(t, h[k]);
      BetweenSame(ApplyDelta(t, d), h[k + 1]);
    }
  }

  lemma ReplayNext(h: seq<Table>, v: nat, j: nat, ds: seq<RouteDelta>, m: nat, t: Table)
    requires DeltasFrom(h, v, ds) && j < |h| && m < |ds| && Toward(h, t, v + m, j)
    ensures Toward(h, ApplyDelta(t, ds[m]), v + m + 1, j)
  {
    assert DeltaAt(h, v, ds, m);
    ReplayOne(h, t, ds[m], v + m, j);
  }

  lemma {:induction false} ReplayStep(h: seq<Table>, v: nat, j: nat, ds: seq<RouteDelta>, m: nat)
    requires DeltasFrom(h, v, ds) && v <= j < |h| && m <= |ds|
    ensures Toward(h, Replay(h[j], ds, m), v + m, j)
  {
    if m == 0 {
      TowardItself(h, v, j);
    } else {
      ReplayStep(h, v, j, ds, m - 1);
      ReplayNext(h, v, j, ds, m - 1, Replay(h[j], ds, m - 1));
    }
  }

  /**
   Fuzzy-snapshot replay. A snapshot whose routes are those of version j but whose label
   is an older v: applying the deltas v+1, v+2, ... in order gives, from version j on,
   exactly the table of each version.
   */
  lemma FuzzyReplay(h: seq<Table>, v: nat, j: nat, ds: seq<RouteDelta>)
    requires DeltasFrom(h, v, ds) && v <= j < |h|
    ensures forall m | 0 <= m <= |ds| && j <= v + m :: Replay(h[j], ds, m) == h[v + m]
  {
    forall m | 0 <= m <= |ds| && j <= v + m
      ensures Replay(h[j], ds, m) == h[v + m]
    {
      ReplayStep(h, v, j, ds, m);
      BetweenSame(Replay(h[j], ds, m), h[v + m]);
    }
  }

  // ---------------------------------------------------------------- computing a delta

  /** `rs` are entries of `t`, one for every id outside `todo` that `wanted` asks for. */
  ghost predicate Collected(rs: seq<RouteConfig>, t: Table, todo: set<RouteId>, wanted: set<RouteId>) {
    && DistinctIds(rs)
    && (forall i | 0 <= i < |rs| ::
          rs[i].id in t && rs[i].id !in todo && rs[i].id in wanted && t[rs[i].id] == rs[i])
    && (forall id | id in wanted && id in t && id !in todo :: HasId(rs, id))
  }

  lemma CollectSkip(rs: seq<RouteConfig>, t: Table, todo: set<RouteId>, wanted: set<RouteId>, id: RouteId)
    requires Collected(rs, t, todo, wanted) && id !in wanted
    ensures Collected(rs, t, todo - {id}, wanted)
  {
  }

  lemma CollectPush(rs: seq<RouteConfig>, t: Table, todo: set<RouteId>, wanted: set<RouteId>, id: RouteId)
    requires Collected(rs, t, todo, wanted) && id in wanted && id in todo && id in t && t[id].id == id
    ensures Collected(rs + [t[id]], t, todo - {id}, wanted)
  {
    KeepsIds(rs, t[id]);
  }

  /**
   The delta between two route lists. Both are first indexed by id; the iteration over the
   index of `current` is in no particular order.
   */
  method ComputeRouteDelta(previous: seq<RouteConfig>, current: seq<RouteConfig>) returns (d: RouteDelta)
    ensures IsDelta(d, ById(previous), ById(current))
  {
    var oldById, newById := ById(previous), ById(current);
    ByIdKeys(current);
    var added, updated: seq<RouteConfig> := [], [];
    var todo := newById.Keys;
    ghost var unseen := set id | id in newById && id !in oldById;
    ghost var changed := set id | id in newById && id in oldById && oldById[id] != newById[id];
    while todo != {}
      invariant todo <= newById.Keys
      invariant Collected(added, newById, todo, unseen)
      invariant Collected(updated, newById, todo, changed)
      decreases |todo|
    {
      var id :| id in todo;
      if id !in oldById {
        CollectPush(added, newById, todo, unseen, id);
        CollectSkip(updated, newById, todo, changed, id);
        added := added + [newById[id]];
      } else if oldById[id] != newById[id] {
        CollectSkip(added, newById, todo, unseen, id);
        CollectPush(updated, newById, todo, changed, id);
        updated := updated + [newById[id]];
      } else {
        CollectSkip(added, newById, todo, unseen, id);
        CollectSkip(updated, newById, todo, changed, id);
      }
      todo := todo - {id};
    }
    var removed := RemovedIds(previous, newById);
    d := RouteDelta(added, updated, removed);
  }

  /** The ids of `previous` that `newById` lacks, in list order. */
  method RemovedIds(previous: seq<RouteConfig>, newById: Table) returns (removed: seq<RouteId>)
    ensures forall id :: id in removed <==> id in ById(previous) && id !in newById
  {
    removed := [];
    for i := 0 to |previous|
      invariant forall id :: id in removed <==> HasId(previous[..i], id) && id !in newById
    {
      KeepsIds(previous[..i], previous[i]);
      assert previous[..i + 1] == previous[..i] + [previous[i]];
      if previous[i].id !in newById {
        removed := removed + [previous[i].id];
      }
    }
    assert previous[..|previous|] == previous;
    ByIdKeys(previous);
  }

  lemma KeepsIds(rs: seq<RouteConfig>, r: RouteConfig)
    ensures forall id :: HasId(rs + [r], id) <==> HasId(rs, id) || id == r.id
  {
    var rs' := rs + [r];
    forall id ensures HasId(rs', id) <==> HasId(rs, id) || id == r.id {
      if HasId(rs, id) {
        var i :| 0 <= i < |rs| && rs[i].id == id;
        assert rs'[i].id == id;
      }
      assert rs'[|rs|] == r;
    }
  }

  // ---------------------------------------------------------------- applying it to a vector

  /** The agent's edit of its route vector: add what is absent, upsert, then drop. */
  method ApplyRouteDelta(routes0: seq<RouteConfig>, d: RouteDelta) returns (routes: seq<RouteConfig>)
    requires DistinctIds(routes0)
    ensures DistinctIds(routes)
    ensures ById(routes) == ApplyDelta(ById(routes0), d)
  {
    RepresentsById(routes0, ById(routes0));
    routes := PushAbsent(routes0, d.added, ById(routes0));
    routes := Upsert(routes, d.updated, AddAll(ById(routes0), d.added));
    routes := Retain(routes, d.removed, UpsertAll(AddAll(ById(routes0), d.added), d.updated));
    RepresentsById(routes, ApplyDelta(ById(routes0), d));
  }

  method PushAbsent(routes0: seq<RouteConfig>, added: seq<RouteConfig>, ghost t: Table)
    returns (routes: seq<RouteConfig>)
    requires Represents(routes0, t)
    ensures Represents(routes, AddAll(t, added))
  {
    routes := routes0;
    for i := 0 to |added|
      invariant Represents(routes, AddAll(t, added[..i]))
    {
      assert added[..i + 1][..i] == added[..i];
      if !HasId(routes, added[i].id) {
        RepresentsPush(routes, AddAll(t, added[..i]), added[i]);
        routes := routes + [added[i]];
      }
    }
    assert added[..|added|] == added;
  }

  method Upsert(routes0: seq<RouteConfig>, updated: seq<RouteConfig>, ghost t: Table)
    returns (routes: seq<RouteConfig>)
    requires Represents(routes0, t)
    ensures Represents(routes, UpsertAll(t, updated))
  {
    routes := routes0;
    for i := 0 to |updated|
      invariant Represents(routes, UpsertAll(t, updated[..i]))
    {
      assert updated[..i + 1][..i] == updated[..i];
      var at := Find(routes, updated[i].id);
      if at < |routes| {
        RepresentsSet(routes, UpsertAll(t, updated[..i]), at, updated[i]);
        routes := routes[at := updated[i]];
      } else {
        RepresentsPush(routes, UpsertAll(t, updated[..i]), updated[i]);
        routes := routes + [updated[i]];
      }
    }
    assert updated[..|updated|] == updated;
  }

  method Retain(routes: seq<RouteConfig>, removed: seq<RouteId>, ghost t: Table)
    returns (kept: seq<RouteConfig>)
    requires Represents(routes, t)
    ensures Represents(kept, t - IdSet(removed))
  {
    kept := [];
    for i := 0 to |routes|
      invariant kept == Without(routes[..i], removed)
    {
      assert routes[..i + 1][..i] == routes[..i];
      if routes[i].id !in removed {
        kept := kept + [routes[i]];
      }
    }
    assert routes[..|routes|] == routes;
    WithoutRepresents(routes, removed, t);
  }

  function Without(routes: seq<RouteConfig>, removed: seq<RouteId>): seq<RouteConfig> {
    if routes == [] then []
    else
      var n := |routes| - 1;
      Without(routes[..n], removed) + if routes[n].id in removed then [] else [routes[n]]
  }

  lemma {:induction false} WithoutHas(routes: seq<RouteConfig>, removed: seq<RouteId>, r: RouteConfig)
    ensures r in Without(routes, removed) <==> r in routes && r.id !in removed
  {
    if routes != [] {
      var n := |routes| - 1;
      WithoutHas(routes[..n], removed, r);
      assert r in routes <==> r in routes[..n] || r == routes[n] by {
        assert routes == routes[..n] + [routes[n]];
      }
    }
  }

  lemma {:induction false} WithoutDistinct(routes: seq<RouteConfig>, removed: seq<RouteId>)
    requires DistinctIds(routes)
    ensures DistinctIds(Without(routes, removed))
  {
    if routes != [] {
      var n := |routes| - 1;
      WithoutDistinct(routes[..n], removed);
      var front := Without(routes[..n], removed);
      forall k | 0 <= k < |front| ensures front[k].id != routes[n].id {
        WithoutHas(routes[..n], removed, front[k]);
        var i :| 0 <= i < n && routes[..n][i] == front[k];
        assert routes[i].id != routes[n].id;
      }
    }
  }

  lemma WithoutRepresents(routes: seq<RouteConfig>, removed: seq<RouteId>, t: Table)
    requires Represents(routes, t)
    ensures Represents(Without(routes, removed), t - IdSet(removed))
  {
    var kept := Without(routes, removed);
    WithoutDistinct(routes, removed);
    forall k | 0 <= k < |kept| ensures kept[k].id !in removed && kept[k].id in t && t[kept[k].id] == kept[k] {
      WithoutHas(routes, removed, kept[k]);
    }
    forall id | id in t && id !in removed ensures HasId(kept, id) {
      var i :| 0 <= i < |routes| && routes[i].id == id;
      WithoutHas(routes, removed, routes[i]);
    }
  }

  /** The position of the first route with this id, or the length when there is none. */
  method Find(rs: seq<RouteConfig>, id: RouteId) returns (at: nat)
    ensures at <= |rs|
    ensures at < |rs| ==> rs[at].id == id
    ensures forall i | 0 <= i < at :: rs[i].id != id
  {
    at := 0;
    while at < |rs| && rs[at].id != id
      invariant at <= |rs|
      invariant forall i | 0 <= i < at :: rs[i].id != id
    {
      at := at + 1;
    }
  }

  lemma RepresentsPush(rs: seq<RouteConfig>, t: Table, r: RouteConfig)
    requires Represents(rs, t) && !HasId(rs, r.id)
    ensures Represents(rs + [r], t[r.id := r])
  {
    KeepsIds(rs, r);
  }

  lemma RepresentsSet(rs: seq<RouteConfig>, t: Table, at: nat, r: RouteConfig)
    requires Represents(rs, t) && at < |rs| && rs[at].id == r.id
    ensures Represents(rs[at := r], t[r.id := r])
  {
    var rs', t' := rs[at := r], t[r.id := r];
    forall id | id in t' ensures HasId(rs', id) {
      assert HasId(rs, id);
      var i :| 0 <= i < |rs| && rs[i].id == id;
      assert rs'[i].id == id;
    }
  }
}
