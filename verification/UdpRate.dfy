/**
 Whole runs of the UDP session plane: the indices agree in every state, session ids are
 never reused, and what is forwarded for one source address in a window is bounded by its
 bucket, although the reaper throws buckets away.
 */
module UdpRate {
  import opened Prelude
  import opened TokenBuckets
  import opened UdpProxy

  datatype Event =
    | Arrive(packet: Packet, now: real)
    | Answer(session: nat, now: real)
    | Sweep(now: real)

  function Step(p: Proxy, e: Event): Proxy {
    match e
    case Arrive(pk, now) => ForwardToAgent(p, pk, now).0
    case Answer(id, now) => HandleDatagram(p, id, now).0
    case Sweep(now) => Reap(p, now)
  }

  ghost predicate Run(ps: seq<Proxy>, es: seq<Event>) {
    && |ps| == |es| + 1
    && ps[0] == Empty(ps[0].limits, ps[0].idleTimeout) && ps[0].idleTimeout >= 0.0
    && (forall i | 0 <= i < |es| :: Stepped(ps, es, i))
    && (forall i, j | 0 <= i <= j < |es| :: es[i].now <= es[j].now)
  }

  ghost predicate Stepped(ps: seq<Proxy>, es: seq<Event>, i: nat)
    requires i < |es| && |ps| == |es| + 1
  {
    ps[i + 1] == Step(ps[i], es[i])
  }

  // ---------------------------------------------------------------- index agreement

  lemma StepKeepsIndex(p: Proxy, e: Event)
    requires Index(p)
    ensures Index(Step(p, e)) && KeepsIds(p, Step(p, e))
  {
    match e
    case Arrive(pk, now) => ForwardKeepsIndex(p, pk, now);
    case Answer(id, now) => DatagramKeepsIndex(p, id, now);
    case Sweep(now) => ReapKeepsIndex(p, now);
  }

  /** In every state of every run the maps and the counters agree. */
  lemma {:induction false} IndexAgreement(ps: seq<Proxy>, es: seq<Event>, i: nat)
    requires Run(ps, es) && i < |ps|
    ensures Index(ps[i])
    ensures ps[i].limits == ps[0].limits && ps[i].idleTimeout == ps[0].idleTimeout
    ensures forall ip :: |SessionsOf(ps[i].sessions, ip)| <= ps[0].limits.maxSessionsPerIp
  {
    if i == 0 {
      EmptyIndex(ps[0].limits, ps[0].idleTimeout);
    } else {
      IndexAgreement(ps, es, i - 1);
      StepKeepsIndex(ps[i - 1], es[i - 1]);
      assert Stepped(ps, es, i - 1);
    }
    forall ip ensures |SessionsOf(ps[i].sessions, ip)| <= ps[0].limits.maxSessionsPerIp {
      CountIs(ps[i], ip);
    }
  }

  lemma {:induction false} KeepsAlong(ps: seq<Proxy>, i: nat, j: nat)
    requires i <= j < |ps| && forall k | 0 <= k < |ps| - 1 :: KeepsIds(ps[k], ps[k + 1])
    ensures KeepsIds(ps[i], ps[j])
    decreases j
  {
    if i < j {
      KeepsAlong(ps, i, j - 1);
      assert KeepsIds(ps[j - 1], ps[j - 1 + 1]);
      KeepsIdsTrans(ps[i], ps[j - 1], ps[j]);
    }
  }

  /**
   Ids are never reused: a session a later state knows under an id allocated by an earlier
   one is the session the earlier state knew under it.
   */
  lemma IdsNeverReused(ps: seq<Proxy>, es: seq<Event>, i: nat, j: nat)
    requires Run(ps, es) && i <= j < |ps|
    ensures ps[i].nextId <= ps[j].nextId
    ensures forall id | id in ps[j].byId && id < ps[i].nextId ::
              id in ps[i].byId && ps[j].byId[id] == ps[i].byId[id]
  {
    forall k | 0 <= k < |ps| - 1 ensures KeepsIds(ps[k], ps[k + 1]) {
      IndexAgreement(ps, es, k);
      StepKeepsIndex(ps[k], es[k]);
      assert Stepped(ps, es, k);
    }
    KeepsAlong(ps, i, j);
  }

  // ---------------------------------------------------------------- meters

  /** The two things that are limited per source: packets and payload bytes. */
  datatype Meter = Packets | Bytes

  function BucketOf(s: Source, m: Meter): Bucket {
    if m.Packets? then s.packets else s.bytes
  }

  function Amount(pk: Packet, m: Meter): real {
    if m.Packets? then 1.0 else |pk.payload| as real
  }

  predicate IsForwarded(p: Proxy, e: Event, ip: Ip) {
    e.Arrive? && e.packet.client.ip == ip && ForwardToAgent(p, e.packet, e.now).1.Forwarded?
  }

  /** Which events forwarded a packet for `ip`. */
  function Flags(ps: seq<Proxy>, es: seq<Event>, ip: Ip): seq<bool>
    requires |es| < |ps|
  {
    seq(|es|, i requires 0 <= i < |es| => IsForwarded(ps[i], es[i], ip))
  }

  /** What an event asks of the meter. */
  function Asked(e: Event, m: Meter): real {
    if e.Arrive? then Amount(e.packet, m) else 0.0
  }

  function Amounts(es: seq<Event>, m: Meter): seq<real> {
    seq(|es|, i requires 0 <= i < |es| => Asked(es[i], m))
  }

  /** What the events i..j forwarded for `ip`. */
  function Total(ps: seq<Proxy>, es: seq<Event>, i: nat, j: nat, ip: Ip, m: Meter): real
    requires i <= j <= |es| < |ps|
  {
    SumSent(Flags(ps, es, ip), Amounts(es, m), i, j)
  }

  // ---------------------------------------------------------------- what events do to a source

  function BucketAt(p: Proxy, ip: Ip, m: Meter): Option<Bucket> {
    if ip in p.sources then Some(BucketOf(p.sources[ip], m)) else None
  }

  function RateOf(limits: RateLimits, m: Meter): nat {
    if m.Packets? then limits.maxPacketsPerSec else limits.maxBytesPerSec
  }

  /** The session under this key is from `ip` and has been active at `u` or later. */
  ghost predicate ActiveSince(p: Proxy, ip: Ip, u: real, k: Key) {
    && k in p.sessions && k.client.ip == ip
    && p.sessions[k].id in p.lastActive && p.lastActive[p.sessions[k].id] >= u
  }

  lemma AdmitMoves(p: Proxy, pk: Packet, key: Key, now: real, ip: Ip, m: Meter)
    ensures var (p', ok) := AdmitPacket(p, key, |pk.payload|, now);
            var b, b', full := BucketAt(p, ip, m), BucketAt(p', ip, m), NewBucket(RateOf(p.limits, m), now);
            && Moves(b, b', full, Amount(pk, m), now, ok && key.client.ip == ip)
  {
  }

  lemma CreateMoves(p: Proxy, route: Route, client: Addr, socket: SocketId, now: real, ip: Ip, m: Meter)
    requires client.ip in p.sources
    ensures BucketAt(GetOrCreate(p, route, client, socket, now).0, ip, m) == BucketAt(p, ip, m)
  {
  }

  lemma ArriveMoves(p: Proxy, pk: Packet, now: real, ip: Ip, m: Meter)
    requires Index(p)
    ensures var e := Arrive(pk, now);
            Moves(BucketAt(p, ip, m), BucketAt(Step(p, e), ip, m), NewBucket(RateOf(p.limits, m), now),
                  Amount(pk, m), now, IsForwarded(p, e, ip))
  {
    if pk.route.Some? && pk.peer.Some? && |pk.payload| <= MaxPayload(pk.peer.value) {
      var key := Key(pk.client, pk.route.value.id);
      AdmitMoves(p, pk, key, now, ip, m);
      var (p1, ok) := AdmitPacket(p, key, |pk.payload|, now);
      if ok {
        AdmitKeepsIndex(p, key, |pk.payload|, now);
        CreateMoves(p1, pk.route.value, pk.client, pk.socket, now, ip, m);
      }
    }
  }

  lemma StepMoves(p: Proxy, e: Event, ip: Ip, m: Meter)
    requires Index(p)
    ensures Moves(BucketAt(p, ip, m), BucketAt(Step(p, e), ip, m), NewBucket(RateOf(p.limits, m), e.now),
                  Asked(e, m), e.now, IsForwarded(p, e, ip))
  {
    if e.Arrive? {
      ArriveMoves(p, e.packet, e.now, ip, m);
    }
  }

  lemma CreateRecent(p: Proxy, route: Route, client: Addr, socket: SocketId, now: real, ip: Ip, u: real, k: Key)
    requires Index(p) && ActiveSince(p, ip, u, k)
    ensures ActiveSince(GetOrCreate(p, route, client, socket, now).0, ip, u, k)
  {
  }

  lemma TouchRecent(p: Proxy, id: nat, now: real, ip: Ip, u: real, k: Key)
    requires ActiveSince(p, ip, u, k) && u <= now
    ensures ActiveSince(Touch(p, id, now), ip, u, k)
  {
  }

  lemma ArriveRecent(p: Proxy, pk: Packet, now: real, ip: Ip, u: real, k: Key)
    requires Index(p) && ActiveSince(p, ip, u, k) && u <= now
    ensures ActiveSince(ForwardToAgent(p, pk, now).0, ip, u, k)
  {
    if pk.route.Some? && pk.peer.Some? && |pk.payload| <= MaxPayload(pk.peer.value) {
      var key := Key(pk.client, pk.route.value.id);
      AdmitKeepsIndex(p, key, |pk.payload|, now);
      var (p1, ok) := AdmitPacket(p, key, |pk.payload|, now);
      if ok {
        CreateRecent(p1, pk.route.value, pk.client, pk.socket, now, ip, u, k);
        var (p2, s, _) := GetOrCreate(p1, pk.route.value, pk.client, pk.socket, now);
        TouchRecent(p2, s.id, now, ip, u, k);
      }
    }
  }

  /** A forwarded packet leaves its session active as of now. */
  lemma ForwardedRecent(p: Proxy, pk: Packet, now: real)
    requires Index(p) && ForwardToAgent(p, pk, now).1.Forwarded?
    ensures ActiveSince(ForwardToAgent(p, pk, now).0, pk.client.ip, now, Key(pk.client, pk.route.value.id))
  {
    var key := Key(pk.client, pk.route.value.id);
    AdmitKeepsIndex(p, key, |pk.payload|, now);
    var (p1, _) := AdmitPacket(p, key, |pk.payload|, now);
    CreateKeepsIndex(p1, pk.route.value, pk.client, pk.socket, now);
  }

  lemma SweepRecent(p: Proxy, now: real, ip: Ip, u: real, k: Key)
    requires Index(p) && ActiveSince(p, ip, u, k) && now <= u + p.idleTimeout && p.idleTimeout >= 0.0
    ensures ActiveSince(Reap(p, now), ip, u, k)
  {
    assert !Expired(p, p.sessions[k], now);
    assert p.sessions[k].id in LiveIds(p, now);
  }

  /** Until the timeout has passed, a session stays, and stays active since then. */
  lemma StepRecent(p: Proxy, e: Event, ip: Ip, u: real, k: Key)
    requires Index(p) && ActiveSince(p, ip, u, k) && u <= e.now <= u + p.idleTimeout && p.idleTimeout >= 0.0
    ensures ActiveSince(Step(p, e), ip, u, k)
  {
    match e
    case Arrive(pk, now) => ArriveRecent(p, pk, now, ip, u, k);
    case Answer(id, now) => TouchRecent(p, id, now, ip, u, k);
    case Sweep(now) => SweepRecent(p, now, ip, u, k);
  }

  // ---------------------------------------------------------------- whole runs

  /** A packet forwarded at event k leaves an active session until the timeout has passed. */
  lemma {:induction false} SendLeavesSession(ps: seq<Proxy>, es: seq<Event>, k: nat, l: nat) returns (key: Key)
    requires Run(ps, es) && k < l <= |es| && es[k].Arrive? && IsForwarded(ps[k], es[k], es[k].packet.client.ip)
    requires es[l - 1].now <= es[k].now + ps[0].idleTimeout
    ensures ActiveSince(ps[l], es[k].packet.client.ip, es[k].now, key)
    decreases l
  {
    IndexAgreement(ps, es, l - 1);
    if k == l - 1 {
      ForwardedRecent(ps[k], es[k].packet, es[k].now);
      key := Key(es[k].packet.client, es[k].packet.route.value.id);
    } else {
      key := SendLeavesSession(ps, es, k, l - 1);
      StepRecent(ps[l - 1], es[l - 1], es[k].packet.client.ip, es[k].now, key);
    }
    assert Stepped(ps, es, l - 1);
  }

  /** A source without a bucket has not sent anything for longer than the timeout. */
  lemma MissingBucket(ps: seq<Proxy>, es: seq<Event>, k: nat, l: nat, ip: Ip)
    requires Run(ps, es) && k < l < |es| && IsForwarded(ps[k], es[k], ip) && ip !in ps[l].sources
    ensures es[l].now - es[k].now > ps[0].idleTimeout
  {
    if es[l - 1].now <= es[k].now + ps[0].idleTimeout {
      var key := SendLeavesSession(ps, es, k, l);
      IndexAgreement(ps, es, l);
    }
  }

  lemma {:induction false} BucketsOfRate(ps: seq<Proxy>, es: seq<Event>, i: nat, ip: Ip, m: Meter)
    requires Run(ps, es) && i < |ps|
    ensures OfRate(BucketAt(ps[i], ip, m), RateOf(ps[0].limits, m))
    ensures i < |es| ==> MovesAt(ps, es, i, ip, m)
  {
    if i > 0 {
      BucketsOfRate(ps, es, i - 1, ip, m);
    }
    if i < |es| {
      IndexAgreement(ps, es, i);
      assert Stepped(ps, es, i);
      StepMoves(ps[i], es[i], ip, m);
      ScaledMoves(BucketAt(ps[i], ip, m), BucketAt(ps[i + 1], ip, m), RateOf(ps[0].limits, m),
                  Asked(es[i], m), es[i].now, IsForwarded(ps[i], es[i], ip));
    }
  }

  /** What event i did to the meter, on the scaled clock. */
  ghost predicate MovesAt(ps: seq<Proxy>, es: seq<Event>, i: nat, ip: Ip, m: Meter)
    requires i < |es| && |es| < |ps|
  {
    var rate := RateOf(ps[0].limits, m);
    && OfRate(BucketAt(ps[i + 1], ip, m), rate)
    && TankMoves(ScaledOption(BucketAt(ps[i], ip, m), rate), ScaledOption(BucketAt(ps[i + 1], ip, m), rate),
                 rate as real, Asked(es[i], m), Ticks(rate, es[i].now), IsForwarded(ps[i], es[i], ip))
  }

  /** The history of one meter of one source. */
  function TraceOf(ps: seq<Proxy>, es: seq<Event>, ip: Ip, m: Meter): Trace
    requires |ps| == |es| + 1
  {
    var rate := RateOf(ps[0].limits, m);
    Trace(seq(|ps|, i requires 0 <= i < |ps| => ScaledOption(BucketAt(ps[i], ip, m), rate)),
          seq(|es|, i requires 0 <= i < |es| => Ticks(rate, es[i].now)),
          Amounts(es, m), Flags(ps, es, ip))
  }

  /** The one place where products are taken apart. */
  lemma Product(r: real, a: real, b: real)
    requires r >= 0.0 && a <= b
    ensures r * b - r * a == r * (b - a) >= 0.0
    ensures b - a >= 1.0 ==> r * b - r * a >= r
  {
    if b - a >= 1.0 {
      assert r * (b - a) == r * (b - a - 1.0) + r;
    }
  }

  lemma Scale(rate: nat, a: real, b: real)
    requires a <= b
    ensures Ticks(rate, a) <= Ticks(rate, b)
    ensures b - a >= 1.0 ==> Ticks(rate, b) - Ticks(rate, a) >= rate as real
  {
    Product(rate as real, a, b);
  }

  /** One full bucket, and what is earned from one time to another. */
  function Allowance(rate: nat, start: real, end: real): real {
    rate as real + rate as real * (end - start)
  }

  lemma AllowanceTicks(rate: nat, start: real, end: real)
    requires start <= end
    ensures Allowance(rate, start, end) == rate as real + (Ticks(rate, end) - Ticks(rate, start))
  {
    Product(rate as real, start, end);
  }

  lemma TraceIsValid(ps: seq<Proxy>, es: seq<Event>, ip: Ip, m: Meter)
    requires Run(ps, es) && ps[0].idleTimeout >= 1.0
    ensures ValidTrace(TraceOf(ps, es, ip, m), RateOf(ps[0].limits, m) as real)
  {
    var tr, rate := TraceOf(ps, es, ip, m), RateOf(ps[0].limits, m);
    forall k, l | 0 <= k <= l < |es| ensures tr.times[k] <= tr.times[l] {
      Scale(rate, es[k].now, es[l].now);
    }
    forall k | 0 <= k < |es|
      ensures TankMoves(tr.tanks[k], tr.tanks[k + 1], rate as real, tr.amounts[k], tr.times[k], tr.sent[k])
    {
      BucketsOfRate(ps, es, k, ip, m);
    }
    forall k, l | 0 <= k < l < |es| && tr.sent[k] && tr.tanks[l].None?
      ensures tr.times[l] - tr.times[k] >= rate as real
    {
      MissingBucket(ps, es, k, l, ip);
      Scale(rate, es[k].now, es[l].now);
    }
  }

  /** The bound: at most one full bucket plus the rate times the length of the window. */
  ghost predicate WithinRate(ps: seq<Proxy>, es: seq<Event>, i: nat, j: nat, ip: Ip, m: Meter)
    requires i < j <= |es| < |ps|
  {
    Total(ps, es, i, j, ip, m) <= Allowance(RateOf(ps[0].limits, m), es[i].now, es[j - 1].now)
  }

  /** The bound on a trace, in terms of its fields. */
  lemma FieldsBound(tr: Trace, cap: real, i: nat, j: nat, sent: seq<bool>, amounts: seq<real>, start: real, end: real)
    requires ValidTrace(tr, cap) && i < j <= |tr.times| && tr.sent == sent && tr.amounts == amounts
    requires tr.times[i] == start && tr.times[j - 1] == end
    ensures SumSent(sent, amounts, i, j) <= cap + (end - start)
  {
    TraceBound(tr, cap, i, j);
  }

  /** The bound on a run, by the clock of the meter. */
  lemma TicksBound(ps: seq<Proxy>, es: seq<Event>, i: nat, j: nat, ip: Ip, m: Meter)
    requires Run(ps, es) && i < j <= |es| && ps[0].idleTimeout >= 1.0
    ensures var rate := RateOf(ps[0].limits, m);
            Total(ps, es, i, j, ip, m) <= rate as real + (Ticks(rate, es[j - 1].now) - Ticks(rate, es[i].now))
  {
    var rate := RateOf(ps[0].limits, m);
    TraceIsValid(ps, es, ip, m);
    FieldsBound(TraceOf(ps, es, ip, m), rate as real, i, j, Flags(ps, es, ip), Amounts(es, m),
                Ticks(rate, es[i].now), Ticks(rate, es[j - 1].now));
  }

  /**
   The packets, and the payload bytes, forwarded for one source address in any window of
   any run stay within the rate, although the reaper discards buckets.
   */
  lemma RateBound(ps: seq<Proxy>, es: seq<Event>, i: nat, j: nat, ip: Ip, m: Meter)
    requires Run(ps, es) && i < j <= |es| && ps[0].idleTimeout >= 1.0
    ensures WithinRate(ps, es, i, j, ip, m)
  {
    TicksBound(ps, es, i, j, ip, m);
    AllowanceTicks(RateOf(ps[0].limits, m), es[i].now, es[j - 1].now);
  }

  // ---------------------------------------------------------------- how long the timeout must be

  /** Every window of every run with this timeout stays within the rate. */
  ghost predicate AlwaysWithinRate(idleTimeout: real) {
    forall ps: seq<Proxy>, es: seq<Event>, i: nat, j: nat, ip: Ip, m: Meter |
      Run(ps, es) && ps[0].idleTimeout == idleTimeout && i < j <= |es| :: WithinRate(ps, es, i, j, ip, m)
  }

  const OnePacket := Packet(Addr(1, 1), 1, Some(Route(1, 1)), Some(Some(1200)), [], true)

  function OneASecond(idleTimeout: real, nextId: nat): Proxy {
    Empty(RateLimits(1, 1, 1), idleTimeout).(nextId := nextId)
  }

  /** With no session and a rate of one, a packet goes through and empties the bucket. */
  lemma PacketGoes(idleTimeout: real, id: nat, now: real)
    ensures var p := OneASecond(idleTimeout, id);
            var s := Session(id, Route(1, 1), Addr(1, 1), 1);
            var (p', outcome) := ForwardToAgent(p, OnePacket, now);
            && outcome.Forwarded?
            && p'.sessions == map[Key(Addr(1, 1), 1) := s] && p'.byId == map[id := s]
            && p'.lastActive == map[id := now] && p'.nextId == id + 1 && p'.sources.Keys == {1}
            && p' == OneASecond(idleTimeout, id + 1).(sessions := p'.sessions, byId := p'.byId,
                       lastActive := p'.lastActive, sources := p'.sources)
  {
    assert MaxPayload(OnePacket.peer.value) == 1190;
  }

  /** Once that session has expired, nothing of it is left but the next id. */
  lemma ReapClears(p: Proxy, idleTimeout: real, s: Session, now: real)
    requires p.sessions == map[Key(Addr(1, 1), 1) := s] && p.byId == map[s.id := s]
    requires p.lastActive.Keys == {s.id} && p.sources.Keys == {1} && Expired(p, s, now)
    requires p == OneASecond(idleTimeout, p.nextId).(sessions := p.sessions, byId := p.byId,
                    lastActive := p.lastActive, sources := p.sources)
    ensures Reap(p, now) == OneASecond(idleTimeout, p.nextId)
  {
    assert LiveIds(p, now) == {};
    assert LiveSessions(p, now) == map[];
    assert !HasSession(LiveSessions(p, now), 1);
    var r := Reap(p, now);
    assert r.sources == map[] && r.byId == map[] && r.lastActive == map[];
  }

  /** One packet, a reap once its session is idle long enough, and one more packet. */
  lemma TwoInASecond(idleTimeout: real) returns (ps: seq<Proxy>, es: seq<Event>)
    requires 0.0 <= idleTimeout < 1.0
    ensures Run(ps, es) && ps[0].idleTimeout == idleTimeout && |es| == 3
    ensures es[0].now == 0.0 && es[2].now < 1.0
    ensures Flags(ps, es, 1) == [true, false, true]
    ensures Amounts(es, Packets) == [1.0, 0.0, 1.0]
    ensures ps[0].limits.maxPacketsPerSec == 1
  {
    var t := (idleTimeout + 1.0) / 2.0;
    es := [Arrive(OnePacket, 0.0), Sweep(t), Arrive(OnePacket, t)];
    var p0 := OneASecond(idleTimeout, 0);
    PacketGoes(idleTimeout, 0, 0.0);
    var p1 := Step(p0, es[0]);
    ReapClears(p1, idleTimeout, p1.byId[0], t);
    var p2 := Step(p1, es[1]);
    PacketGoes(idleTimeout, 1, t);
    ps := [p0, p1, p2, Step(p2, es[2])];
  }

  /** Two packets, with one allowed and less than one more earned since. */
  lemma ShortTimeoutFails(idleTimeout: real)
    requires 0.0 <= idleTimeout < 1.0
    ensures !AlwaysWithinRate(idleTimeout)
  {
    var ps, es := TwoInASecond(idleTimeout);
    var flags, amounts := Flags(ps, es, 1), Amounts(es, Packets);
    assert SumSent(flags, amounts, 0, 1) == 1.0;
    assert SumSent(flags, amounts, 0, 2) == 1.0;
    assert SumSent(flags, amounts, 0, 3) == 2.0;
    assert !WithinRate(ps, es, 0, 3, 1, Packets);
  }

  /** One second, the time in which an empty bucket fills, is exactly the timeout needed. */
  lemma TimeoutThreshold(idleTimeout: real)
    requires idleTimeout >= 0.0
    ensures AlwaysWithinRate(idleTimeout) <==> idleTimeout >= 1.0
  {
    if idleTimeout >= 1.0 {
      forall ps: seq<Proxy>, es: seq<Event>, i: nat, j: nat, ip: Ip, m: Meter |
        Run(ps, es) && ps[0].idleTimeout == idleTimeout && i < j <= |es|
        ensures WithinRate(ps, es, i, j, ip, m)
      {
        RateBound(ps, es, i, j, ip, m);
      }
    } else {
      ShortTimeoutFails(idleTimeout);
    }
  }
}
