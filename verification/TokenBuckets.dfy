/**
 The token bucket of the UDP rate limiter (server/src/udp_proxy.rs), and what a source can
 send through a succession of them: buckets are charged, but also discarded and created
 anew, full. Tokens and seconds are real numbers.

 Capacity and refill per second are the same number, the rate. The argument about
 histories is made on tanks: buckets on a clock that advances by the rate every second, so
 that a tank gains what its clock advances.
 */
module TokenBuckets {
  import opened Prelude

  datatype Bucket = Bucket(capacity: real, refillPerSec: real, tokens: real, last: real)

  function NewBucket(rate: nat, now: real): Bucket {
    Bucket(rate as real, rate as real, rate as real, now)
  }

  /** The tokens available at `now`. */
  function Level(b: Bucket, now: real): real {
    var elapsed := if now > b.last then now - b.last else 0.0;
    var grown := b.tokens + elapsed * b.refillPerSec;
    if grown < b.capacity then grown else b.capacity
  }

  /** Refill, then take `n` tokens if there are as many. */
  function TryTake(b: Bucket, n: real, now: real): (Bucket, bool) {
    var level := Level(b, now);
    if level >= n then (b.(tokens := level - n, last := now), true)
    else (b.(tokens := level, last := now), false)
  }

  /**
   What one event does to the bucket of one source: nothing, discarding it, or charging it
   (a new, full one if there was none). Only a successful charge sends anything.
   */
  ghost predicate Moves(b: Option<Bucket>, b': Option<Bucket>, full: Bucket, n: real, now: real, sent: bool) {
    || (!sent && b' == b)
    || (!sent && b'.None?)
    || var (charged, ok) := TryTake(if b.Some? then b.value else full, n, now);
       b' == Some(charged) && (sent ==> ok)
  }

  // ---------------------------------------------------------------- tanks

  datatype Tank = Tank(tokens: real, last: real)

  function Fill(t: Tank, cap: real, now: real): real {
    var grown := if now > t.last then t.tokens + (now - t.last) else t.tokens;
    if grown < cap then grown else cap
  }

  function Draw(t: Tank, cap: real, n: real, now: real): (Tank, bool) {
    var level := Fill(t, cap, now);
    (Tank(if level >= n then level - n else level, now), level >= n)
  }

  ghost predicate TankMoves(t: Option<Tank>, t': Option<Tank>, cap: real, n: real, now: real, sent: bool) {
    || (!sent && t' == t)
    || (!sent && t'.None?)
    || var (drawn, ok) := Draw(if t.Some? then t.value else Tank(cap, now), cap, n, now);
       t' == Some(drawn) && (sent ==> ok)
  }

  /** The tank's clock: `rate` ticks a second. */
  function Ticks(rate: nat, t: real): real {
    rate as real * t
  }

  /** The bucket of this rate as a tank. */
  function Scaled(b: Bucket, rate: nat): Tank {
    Tank(b.tokens, Ticks(rate, b.last))
  }

  function ScaledOption(b: Option<Bucket>, rate: nat): Option<Tank> {
    if b.Some? then Some(Scaled(b.value, rate)) else None
  }

  ghost predicate OfRate(b: Option<Bucket>, rate: nat) {
    b.Some? ==> b.value.capacity == b.value.refillPerSec == rate as real
  }

  lemma ScaledLevel(b: Bucket, rate: nat, now: real)
    requires b.capacity == b.refillPerSec == rate as real
    ensures Level(b, now) == Fill(Scaled(b, rate), rate as real, Ticks(rate, now))
  {
    var r := rate as real;
    assert r * now - r * b.last == (now - b.last) * r;
    if now > b.last {
      assert (now - b.last) * r >= 0.0;
    } else {
      assert (b.last - now) * r >= 0.0;
    }
  }

  /** Events move buckets of one rate exactly as they move the tanks. */
  lemma ScaledMoves(b: Option<Bucket>, b': Option<Bucket>, rate: nat, n: real, now: real, sent: bool)
    requires OfRate(b, rate) && Moves(b, b', NewBucket(rate, now), n, now, sent)
    ensures OfRate(b', rate)
    ensures TankMoves(ScaledOption(b, rate), ScaledOption(b', rate), rate as real, n, Ticks(rate, now), sent)
  {
    var b1 := if b.Some? then b.value else NewBucket(rate, now);
    ScaledLevel(b1, rate, now);
    var (charged, ok) := TryTake(b1, n, now);
    assert Draw(Scaled(b1, rate), rate as real, n, Ticks(rate, now)) == (Scaled(charged, rate), ok);
  }

  // ---------------------------------------------------------------- one event

  /**
   `left` of an allowance that grows with the clock is unspent. It covers what the tank
   holds; it is at least one full tank before anything was sent, and has grown from
   non-negative since the last time something was.
   */
  ghost predicate Window(t: Option<Tank>, cap: real, now: real, left: real, last: Option<real>) {
    && cap >= 0.0
    && (t.Some? ==> 0.0 <= t.value.tokens && t.value.last <= now && Fill(t.value, cap, now) <= left)
    && (if last.None? then left >= cap else last.value <= now && left >= now - last.value)
  }

  lemma WindowAdvance(t: Option<Tank>, cap: real, now: real, now': real, left: real, last: Option<real>)
    requires Window(t, cap, now, left, last) && now <= now'
    ensures Window(t, cap, now', left + (now' - now), last)
  {
  }

  /**
   Any event at `now` keeps the window, and what it sends comes out of what is left. A tank
   created anew is covered because nothing was sent, or not for as long as it takes to fill.
   */
  lemma WindowMove(t: Option<Tank>, t': Option<Tank>, cap: real, now: real,
                   left: real, last: Option<real>, n: real, sent: bool)
    requires Window(t, cap, now, left, last) && n >= 0.0
    requires TankMoves(t, t', cap, n, now, sent)
    requires t.None? && last.Some? ==> now - last.value >= cap
    ensures if sent then Window(t', cap, now, left - n, Some(now))
            else Window(t', cap, now, left, last)
  {
  }

  // ---------------------------------------------------------------- a source's history

  /** What the events i..j sent: the amounts of those that sent something. */
  function SumSent(sent: seq<bool>, amounts: seq<real>, i: nat, j: nat): real
    requires i <= j <= |sent| == |amounts|
  {
    if i == j then 0.0
    else SumSent(sent, amounts, i, j - 1) + if sent[j - 1] then amounts[j - 1] else 0.0
  }

  /**
   What happened to one source: its tank before and after each of a sequence of events,
   when they took place, what they tried to take, and which of them sent something.
   */
  datatype Trace = Trace(tanks: seq<Option<Tank>>, times: seq<real>, amounts: seq<real>, sent: seq<bool>)

  /** A tank is missing only if nothing was sent for as long as it takes to fill one. */
  ghost predicate ValidTrace(tr: Trace, cap: real) {
    && cap >= 0.0
    && |tr.tanks| == |tr.times| + 1 && |tr.amounts| == |tr.sent| == |tr.times|
    && tr.tanks[0].None?
    && (forall k | 0 <= k < |tr.times| :: tr.amounts[k] >= 0.0)
    && (forall k, l | 0 <= k <= l < |tr.times| :: tr.times[k] <= tr.times[l])
    && (forall k | 0 <= k < |tr.times| ::
          TankMoves(tr.tanks[k], tr.tanks[k + 1], cap, tr.amounts[k], tr.times[k], tr.sent[k]))
    && (forall k, l | 0 <= k < l < |tr.times| && tr.sent[k] && tr.tanks[l].None? ::
          tr.times[l] - tr.times[k] >= cap)
  }

  lemma {:induction false} TankOk(tr: Trace, cap: real, i: nat)
    requires ValidTrace(tr, cap) && i < |tr.times|
    ensures tr.tanks[i].Some? ==> 0.0 <= tr.tanks[i].value.tokens && tr.tanks[i].value.last <= tr.times[i]
  {
    if i > 0 {
      TankOk(tr, cap, i - 1);
      assert TankMoves(tr.tanks[i - 1], tr.tanks[i - 1 + 1], cap,
                       tr.amounts[i - 1], tr.times[i - 1], tr.sent[i - 1]);
    }
  }

  /** The index of the last event in i..j that sent something, or i - 1. */
  function LastSent(tr: Trace, i: nat, j: nat): (l: int)
    requires i <= j <= |tr.sent|
    ensures i - 1 <= l < j
    ensures l >= i ==> tr.sent[l]
    ensures forall k | l < k < j :: !tr.sent[k]
  {
    if i == j then i - 1 else if tr.sent[j - 1] then j - 1 else LastSent(tr, i, j - 1)
  }

  /** The window that began at event i, at the time of event j, before or after that happens. */
  ghost predicate WindowBefore(tr: Trace, cap: real, i: nat, j: nat)
    requires ValidTrace(tr, cap) && i <= j < |tr.times|
  {
    var l := LastSent(tr, i, j);
    Window(tr.tanks[j], cap, tr.times[j], cap + (tr.times[j] - tr.times[i]) - SumSent(tr.sent, tr.amounts, i, j),
           if l >= i then Some(tr.times[l]) else None)
  }

  ghost predicate WindowAfter(tr: Trace, cap: real, i: nat, j: nat)
    requires ValidTrace(tr, cap) && i <= j < |tr.times|
  {
    var l := LastSent(tr, i, j + 1);
    Window(tr.tanks[j + 1], cap, tr.times[j],
           cap + (tr.times[j] - tr.times[i]) - SumSent(tr.sent, tr.amounts, i, j + 1),
           if l >= i then Some(tr.times[l]) else None)
  }

  lemma WindowAcross(tr: Trace, cap: real, i: nat, j: nat)
    requires ValidTrace(tr, cap) && i <= j < |tr.times| && WindowBefore(tr, cap, i, j)
    ensures WindowAfter(tr, cap, i, j)
  {
    var l := LastSent(tr, i, j);
    WindowMove(tr.tanks[j], tr.tanks[j + 1], cap, tr.times[j],
               cap + (tr.times[j] - tr.times[i]) - SumSent(tr.sent, tr.amounts, i, j),
               if l >= i then Some(tr.times[l]) else None, tr.amounts[j], tr.sent[j]);
  }

  lemma {:induction false} WindowAlong(tr: Trace, cap: real, i: nat, j: nat)
    requires ValidTrace(tr, cap) && i <= j < |tr.times|
    ensures WindowBefore(tr, cap, i, j)
    decreases j
  {
    if i == j {
      TankOk(tr, cap, i);
    } else {
      WindowAlong(tr, cap, i, j - 1);
      WindowAcross(tr, cap, i, j - 1);
      var l := LastSent(tr, i, j);
      WindowAdvance(tr.tanks[j], cap, tr.times[j - 1], tr.times[j],
                    cap + (tr.times[j - 1] - tr.times[i]) - SumSent(tr.sent, tr.amounts, i, j),
                    if l >= i then Some(tr.times[l]) else None);
    }
  }

  /** Everything sent in a window is at most a full tank plus what the clock advanced. */
  lemma TraceBound(tr: Trace, cap: real, i: nat, j: nat)
    requires ValidTrace(tr, cap) && i < j <= |tr.times|
    ensures SumSent(tr.sent, tr.amounts, i, j) <= cap + (tr.times[j - 1] - tr.times[i])
  {
    WindowAlong(tr, cap, i, j - 1);
    WindowAcross(tr, cap, i, j - 1);
  }
}
