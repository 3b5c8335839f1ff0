/**
 What keeps a UDP session and lets a packet through, from the events of a run alone: a session
 lives on from the last packet or answer under it, and a source earns tokens while it waits.
 */
module UdpActivity {
  import opened Prelude
  import opened TokenBuckets
  import opened UdpProxy
  import opened UdpRate

  // ---------------------------------------------------------------- the last activity

  /** The event creates the session, forwards a packet under it, or is an answer under it. */
  predicate Touches(p: Proxy, e: Event, id: nat) {
    match e
    case Arrive(pk, now) =>
      var o := ForwardToAgent(p, pk, now).1;
      (o.Forwarded? && o.session.id == id) || (Announced(o) != [] && p.nextId == id)
    case Answer(session, _) => session == id && id in p.byId
    case Sweep(_) => false
  }

  /** The time of last activity is that of the event if it touches the session, and unchanged if not. */
  ghost predicate TimeIs(p: Proxy, q: Proxy, touched: bool, now: real, id: nat) {
    && id in q.lastActive
    && if touched then q.lastActive[id] == now
       else id in p.byId && id in p.lastActive && q.lastActive[id] == p.lastActive[id]
  }

  /** An event sets the time of last activity of the session it touches, and of no other. */
  lemma ActiveStep(p: Proxy, e: Event, id: nat)
    requires Index(p) && id in Step(p, e).byId
    ensures TimeIs(p, Step(p, e), Touches(p, e, id), e.now, id)
  {
    match e {
      case Arrive(pk, now) =>
        ForwardKeepsIndex(p, pk, now);
        ArriveActive(p, pk, now, id);
      case Answer(session, now) => AnswerActive(p, session, now, id);
      case Sweep(now) => SweepActive(p, now, id);
    }
  }

  lemma AnswerActive(p: Proxy, session: nat, now: real, id: nat)
    requires Index(p) && id in HandleDatagram(p, session, now).0.byId
    ensures TimeIs(p, HandleDatagram(p, session, now).0, session == id && id in p.byId, now, id)
  {
  }

  lemma SweepActive(p: Proxy, now: real, id: nat)
    requires Index(p) && id in Reap(p, now).byId
    ensures TimeIs(p, Reap(p, now), false, now, id)
  {
  }

  /** A packet makes its session active now if it is created or the packet is sent. */
  lemma ForwardTimes(p: Proxy, pk: Packet, now: real)
    ensures var (q, o) := ForwardToAgent(p, pk, now);
      var created := if Announced(o) == [] then p.lastActive else p.lastActive[p.nextId := now];
      q.lastActive == if o.Forwarded? then created[o.session.id := now] else created
  {
    if pk.route.Some? && pk.peer.Some? && |pk.payload| <= MaxPayload(pk.peer.value) {
      AdmitLeaves(p, Key(pk.client, pk.route.value.id), |pk.payload|, now);
    }
  }

  lemma ArriveActive(p: Proxy, pk: Packet, now: real, id: nat)
    requires Index(p) && id in ForwardToAgent(p, pk, now).0.byId && Index(ForwardToAgent(p, pk, now).0)
    ensures TimeIs(p, ForwardToAgent(p, pk, now).0, Touches(p, Arrive(pk, now), id), now, id)
  {
    ForwardOutcome(p, pk, now);
    ForwardTimes(p, pk, now);
    var r := ForwardToAgent(p, pk, now);
    OutcomeActive(p, r.0, pk, r.1, now, id);
  }

  lemma OutcomeActive(p: Proxy, q: Proxy, pk: Packet, o: Outcome, now: real, id: nat)
    requires Index(p) && id in q.byId && CreatedFor(p, q, pk, Announced(o))
    requires var created := if Announced(o) == [] then p.lastActive else p.lastActive[p.nextId := now];
      q.lastActive == if o.Forwarded? then created[o.session.id := now] else created
    ensures TimeIs(p, q, (o.Forwarded? && o.session.id == id) || (Announced(o) != [] && p.nextId == id), now, id)
  {
  }

  /** Which events touch the session. */
  function Touched(ps: seq<Proxy>, es: seq<Event>, id: nat): seq<bool>
    requires |es| < |ps|
  {
    seq(|es|, k requires 0 <= k < |es| => Touches(ps[k], es[k], id))
  }

  ghost predicate TimeNext(ps: seq<Proxy>, es: seq<Event>, bs: seq<bool>, n: nat, id: nat)
    requires n < |es| < |ps| && |bs| == |es|
  {
    id in ps[n + 1].byId ==> TimeIs(ps[n], ps[n + 1], bs[n], es[n].now, id)
  }

  lemma {:induction false} LastTrue(ps: seq<Proxy>, es: seq<Event>, bs: seq<bool>, i: nat, id: nat) returns (k: nat)
    requires |ps| == |es| + 1 && |bs| == |es| && i <= |es|
    requires id in ps[i].byId && id !in ps[0].byId && forall n | 0 <= n < |es| :: TimeNext(ps, es, bs, n, id)
    ensures k < i && bs[k] && forall m | k < m < i :: !bs[m]
    ensures id in ps[i].lastActive && ps[i].lastActive[id] == es[k].now
  {
    var n := i - 1;
    assert TimeNext(ps, es, bs, n, id);
    if bs[n] {
      k := n;
    } else {
      k := LastTrue(ps, es, bs, n, id);
    }
  }

  lemma TimesNext(ps: seq<Proxy>, es: seq<Event>, n: nat, id: nat)
    requires Run(ps, es) && n < |es|
    ensures TimeNext(ps, es, Touched(ps, es, id), n, id)
  {
    if id in ps[n + 1].byId {
      IndexAgreement(ps, es, n);
      assert Stepped(ps, es, n);
      ActiveStep(ps[n], es[n], id);
    }
  }

  /** A session is as old as the last event `k` that touched it. */
  lemma LastTouch(ps: seq<Proxy>, es: seq<Event>, i: nat, id: nat) returns (k: nat)
    requires Run(ps, es) && i <= |es| && id in ps[i].byId
    ensures k < i && Touched(ps, es, id)[k] && forall m | k < m < i :: !Touched(ps, es, id)[m]
    ensures id in ps[i].lastActive && ps[i].lastActive[id] == es[k].now
  {
    forall n | 0 <= n < |es| ensures TimeNext(ps, es, Touched(ps, es, id), n, id) {
      TimesNext(ps, es, n, id);
    }
    assert ps[0].byId == map[];
    k := LastTrue(ps, es, Touched(ps, es, id), i, id);
  }

  /**
   Exactly what a reap removes: a session goes if and only if the last event that created it,
   forwarded for it or answered under it lies longer back than the idle timeout.
   */
  lemma ReapExactly(ps: seq<Proxy>, es: seq<Event>, i: nat, id: nat) returns (k: nat)
    requires Run(ps, es) && i < |es| && es[i].Sweep? && id in ps[i].byId
    ensures k < i && Touched(ps, es, id)[k] && forall m | k < m < i :: !Touched(ps, es, id)[m]
    ensures id !in ps[i + 1].byId <==> es[i].now - es[k].now > ps[0].idleTimeout
  {
    k := LastTouch(ps, es, i, id);
    IndexAgreement(ps, es, i);
    assert Stepped(ps, es, i);
    assert es[k].now <= es[i].now;
    SweepExactly(ps[i], es[i].now, id);
  }

  lemma SweepExactly(p: Proxy, now: real, id: nat)
    requires Index(p) && id in p.byId && p.lastActive[id] <= now
    ensures id !in Step(p, Sweep(now)).byId <==> now - p.lastActive[id] > p.idleTimeout
  {
    assert p.byId[id].id == id;
  }

  /** Nothing but a reap ends a session. */
  lemma OnlyReapsEnd(ps: seq<Proxy>, es: seq<Event>, i: nat, id: nat)
    requires Run(ps, es) && i < |es| && id in ps[i].byId && id !in ps[i + 1].byId
    ensures es[i].Sweep?
  {
    IndexAgreement(ps, es, i);
    assert Stepped(ps, es, i);
    if es[i].Arrive? {
      ForwardOutcome(ps[i], es[i].packet, es[i].now);
    }
  }

  // ---------------------------------------------------------------- earning tokens

  /** When the last packet from the source arrived, before event `i`. */
  function LastArrival(es: seq<Event>, i: nat, ip: Ip): Option<real>
    requires i <= |es|
  {
    if i == 0 then None
    else if es[i - 1].Arrive? && es[i - 1].packet.client.ip == ip then Some(es[i - 1].now)
    else LastArrival(es, i - 1, ip)
  }

  /** A bucket of this rate that has been charged last at `at` or before. */
  ghost predicate ChargedBy(b: Bucket, rate: nat, at: real) {
    b.capacity == b.refillPerSec == rate as real && 0.0 <= b.tokens <= b.capacity && b.last <= at
  }

  ghost predicate SourceBy(s: Source, limits: RateLimits, at: real) {
    ChargedBy(s.packets, limits.maxPacketsPerSec, at) && ChargedBy(s.bytes, limits.maxBytesPerSec, at)
  }

  ghost predicate SourcesBy(p: Proxy, ip: Ip, at: Option<real>) {
    ip in p.sources ==> at.Some? && SourceBy(p.sources[ip], p.limits, at.value)
  }

  lemma LevelNotNegative(b: Bucket, rate: nat, at: real, now: real)
    requires ChargedBy(b, rate, at)
    ensures 0.0 <= Level(b, now) <= b.capacity
  {
    if now > b.last {
      Product(rate as real, b.last, now);
    }
  }

  lemma TakeCharges(b: Bucket, rate: nat, at: real, n: real, now: real)
    requires ChargedBy(b, rate, at) && n >= 0.0
    ensures ChargedBy(TryTake(b, n, now).0, rate, now)
  {
    LevelNotNegative(b, rate, at, now);
  }

  lemma AdmitCharges(p: Proxy, key: Key, len: nat, now: real, ip: Ip, at: Option<real>)
    requires SourcesBy(p, ip, at) && (at.Some? ==> at.value <= now)
    ensures SourcesBy(AdmitPacket(p, key, len, now).0, ip, if key.client.ip == ip then Some(now) else at)
  {
    if key.client.ip == ip {
      var s := SourceAt(p, ip, now);
      var t := if ip in p.sources then at.value else now;
      TakeCharges(s.packets, p.limits.maxPacketsPerSec, t, 1.0, now);
      TakeCharges(s.bytes, p.limits.maxBytesPerSec, t, len as real, now);
    }
  }

  lemma CreateCharges(p: Proxy, route: Route, client: Addr, socket: SocketId, now: real, ip: Ip, at: Option<real>)
    requires SourcesBy(p, ip, at) && client.ip in p.sources
    ensures SourcesBy(GetOrCreate(p, route, client, socket, now).0, ip, at)
  {
  }

  lemma ArriveCharges(p: Proxy, pk: Packet, now: real, ip: Ip, at: Option<real>)
    requires SourcesBy(p, ip, at) && (at.Some? ==> at.value <= now)
    ensures SourcesBy(ForwardToAgent(p, pk, now).0, ip, if pk.client.ip == ip then Some(now) else at)
  {
    if pk.route.Some? && pk.peer.Some? && |pk.payload| <= MaxPayload(pk.peer.value) {
      var key := Key(pk.client, pk.route.value.id);
      AdmitCharges(p, key, |pk.payload|, now, ip, at);
      AdmitLeaves(p, key, |pk.payload|, now);
      var r := AdmitPacket(p, key, |pk.payload|, now);
      if r.1 {
        CreateCharges(r.0, pk.route.value, pk.client, pk.socket, now, ip, if pk.client.ip == ip then Some(now) else at);
      }
    }
  }

  lemma {:induction false} BucketsBy(ps: seq<Proxy>, es: seq<Event>, i: nat, ip: Ip)
    requires Run(ps, es) && i <= |es|
    ensures SourcesBy(ps[i], ip, LastArrival(es, i, ip))
    ensures LastArrival(es, i, ip).Some? ==> i > 0 && LastArrival(es, i, ip).value <= es[i - 1].now
    decreases i
  {
    if i > 0 {
      BucketsBy(ps, es, i - 1, ip);
      assert Stepped(ps, es, i - 1);
      assert i > 1 ==> es[i - 2].now <= es[i - 1].now;
      var p, e := ps[i - 1], es[i - 1];
      if e.Arrive? {
        ArriveCharges(p, e.packet, e.now, ip, LastArrival(es, i - 1, ip));
      }
    }
  }

  /** The source has waited long enough to earn `n` tokens, and the bucket holds that many. */
  predicate Earned(since: Option<real>, now: real, rate: nat, n: real) {
    n <= rate as real && (since == None || n <= rate as real * (now - since.value))
  }

  lemma EarnedLevel(b: Bucket, rate: nat, at: real, now: real, n: real)
    requires ChargedBy(b, rate, at) && at <= now && n <= rate as real && n <= rate as real * (now - at)
    ensures Level(b, now) >= n
  {
    Product(rate as real, b.last, at);
    Product(rate as real, at, now);
    Product(rate as real, b.last, now);
  }

  /**
   A packet that fits gets through when its source has waited, since its last packet, long enough
   to earn one packet and its bytes, and has a session or room for one. So at a steady pace within
   the limits nothing is dropped for its rate.
   */
  lemma EarnedIsAdmitted(ps: seq<Proxy>, es: seq<Event>, i: nat)
    requires Run(ps, es) && i < |es| && es[i].Arrive?
    requires var pk := es[i].packet;
      && pk.route.Some? && pk.peer.Some? && !TooLarge(|pk.payload|, pk.peer.value)
      && (Key(pk.client, pk.route.value.id) in ps[i].sessions
          || |SessionsOf(ps[i].sessions, pk.client.ip)| < ps[0].limits.maxSessionsPerIp)
    requires var pk, since := es[i].packet, LastArrival(es, i, es[i].packet.client.ip);
      && Earned(since, es[i].now, ps[0].limits.maxPacketsPerSec, 1.0)
      && Earned(since, es[i].now, ps[0].limits.maxBytesPerSec, |pk.payload| as real)
    ensures !ForwardToAgent(ps[i], es[i].packet, es[i].now).1.Dropped?
  {
    var pk, now := es[i].packet, es[i].now;
    BucketsBy(ps, es, i, pk.client.ip);
    IndexAgreement(ps, es, i);
    assert i > 0 ==> es[i - 1].now <= es[i].now;
    EarnedAffords(ps[i], pk.client.ip, |pk.payload|, now, LastArrival(es, i, pk.client.ip));
    AffordedIsAdmitted(ps[i], pk, now);
  }

  lemma EarnedAffords(p: Proxy, ip: Ip, len: nat, now: real, since: Option<real>)
    requires SourcesBy(p, ip, since) && (since.Some? ==> since.value <= now)
    requires Earned(since, now, p.limits.maxPacketsPerSec, 1.0)
    requires Earned(since, now, p.limits.maxBytesPerSec, len as real)
    ensures Affords(p, ip, len, now)
  {
    if ip in p.sources {
      EarnedLevel(p.sources[ip].packets, p.limits.maxPacketsPerSec, since.value, now, 1.0);
      EarnedLevel(p.sources[ip].bytes, p.limits.maxBytesPerSec, since.value, now, len as real);
    }
  }

  lemma AffordedIsAdmitted(p: Proxy, pk: Packet, now: real)
    requires Index(p) && Affords(p, pk.client.ip, |pk.payload|, now)
    requires pk.route.Some? && pk.peer.Some? && !TooLarge(|pk.payload|, pk.peer.value)
    requires Key(pk.client, pk.route.value.id) in p.sessions
             || |SessionsOf(p.sessions, pk.client.ip)| < p.limits.maxSessionsPerIp
    ensures !ForwardToAgent(p, pk, now).1.Dropped?
  {
    AdmissionExactly(p, pk, now);
  }
}
