/** The login limiter and its use by the login handler (server/src/login_limiter.rs, server/src/api/auth.rs). */
module LoginLimiter {
  // ---------------------------------------------------------------- failures in the window

  /** Subtraction that stops at zero. */
  function Elapsed(now: nat, t: nat): nat {
    if now < t then 0 else now - t
  }

  /** The failures that count at `now`. */
  function Recent(ts: seq<nat>, now: nat, window: nat): seq<nat> {
    if ts == [] then []
    else
      var n := |ts| - 1;
      Recent(ts[..n], now, window) + if Elapsed(now, ts[n]) < window then [ts[n]] else []
  }

  lemma RecentAppend(ts: seq<nat>, t: nat, now: nat, window: nat)
    ensures Recent(ts + [t], now, window) ==
      Recent(ts, now, window) + if Elapsed(now, t) < window then [t] else []
  {
    assert (ts + [t])[..|ts|] == ts;
  }

  /** What was dropped earlier does not count later. */
  lemma {:induction false} PruneEarly(ts: seq<nat>, before: nat, now: nat, window: nat)
    requires before <= now
    ensures Recent(Recent(ts, before, window), now, window) == Recent(ts, now, window)
  {
    if ts != [] {
      var n := |ts| - 1;
      PruneEarly(ts[..n], before, now, window);
      if Elapsed(before, ts[n]) < window {
        RecentAppend(Recent(ts[..n], before, window), ts[n], now, window);
      } else {
        assert Recent(ts, before, window) == Recent(ts[..n], before, window);
      }
    }
  }

  /** As time passes, fewer failures count. */
  lemma {:induction false} RecentShrinks(ts: seq<nat>, before: nat, now: nat, window: nat)
    requires before <= now
    ensures |Recent(ts, now, window)| <= |Recent(ts, before, window)|
  {
    if ts != [] {
      RecentShrinks(ts[..|ts| - 1], before, now, window);
    }
  }

  /** The failures, by position, that are less than a window old. */
  function Counting(ts: seq<nat>, now: nat, window: nat): set<nat> {
    set i | 0 <= i < |ts| && now < ts[i] + window
  }

  /** They are as many as are kept, if none is from the future. */
  lemma {:induction false} CountingSize(ts: seq<nat>, now: nat, window: nat)
    requires forall i | 0 <= i < |ts| :: ts[i] <= now
    ensures |Counting(ts, now, window)| == |Recent(ts, now, window)|
  {
    if ts == [] {
      assert Counting(ts, now, window) == {};
    } else {
      var n := |ts| - 1;
      CountingSize(ts[..n], now, window);
      var front := Counting(ts[..n], now, window);
      assert Counting(ts, now, window) == if now < ts[n] + window then front + {n} else front;
    }
  }

  /** From `start` on, one list counts like the other. */
  ghost predicate CountsLike(ts: seq<nat>, us: seq<nat>, start: nat, window: nat) {
    forall now | now >= start :: Recent(ts, now, window) == Recent(us, now, window)
  }

  /** A list pruned at `now` counts like the list, with and without a further failure. */
  lemma PrunedCounts(ts: seq<nat>, us: seq<nat>, start: nat, now: nat, window: nat)
    requires CountsLike(ts, us, start, window) && start <= now
    ensures CountsLike(Recent(ts, now, window), us, now, window)
    ensures CountsLike(Recent(ts, now, window) + [now], us + [now], now, window)
  {
    var entry := Recent(ts, now, window);
    forall later | later >= now
      ensures Recent(entry, later, window) == Recent(us, later, window)
      ensures Recent(entry + [now], later, window) == Recent(us + [now], later, window)
    {
      PruneEarly(ts, now, later, window);
      RecentAppend(entry, now, later, window);
      RecentAppend(us, now, later, window);
    }
  }

  // ---------------------------------------------------------------- the limiter

  ghost predicate NotAfter(ts: seq<nat>, now: nat) {
    forall i | 0 <= i < |ts| :: ts[i] <= now
  }

  function At(m: map<string, seq<nat>>, user: string): seq<nat> {
    if user in m then m[user] else []
  }

  /** From `clock` on the stored failures count like the full history, none of which is later. */
  ghost predicate StandsFor(stored: seq<nat>, full: seq<nat>, clock: nat, window: nat) {
    CountsLike(stored, full, clock, window) && NotAfter(full, clock)
  }

  ghost predicate AllStand(failures: map<string, seq<nat>>, history: map<string, seq<nat>>, clock: nat, window: nat) {
    forall user :: StandsFor(At(failures, user), At(history, user), clock, window)
  }

  /** Pruning one user's failures, with and without a further one, as time goes on. */
  lemma PrunedStands(stored: seq<nat>, full: seq<nat>, clock: nat, now: nat, window: nat)
    requires StandsFor(stored, full, clock, window) && clock <= now
    ensures StandsFor(Recent(stored, now, window), full, now, window)
    ensures StandsFor(Recent(stored, now, window) + [now], full + [now], now, window)
  {
    PrunedCounts(stored, full, clock, now, window);
    assert forall i | 0 <= i < |full| :: (full + [now])[i] == full[i];
  }

  lemma SetStands(failures: map<string, seq<nat>>, history: map<string, seq<nat>>, clock: nat, now: nat, window: nat,
                  user: string, stored: seq<nat>, full: seq<nat>)
    requires AllStand(failures, history, clock, window) && clock <= now && StandsFor(stored, full, now, window)
    ensures AllStand(failures[user := stored], history[user := full], now, window)
    ensures full == At(history, user) ==> AllStand(failures[user := stored], history, now, window)
  {
    var f, h := failures[user := stored], history[user := full];
    forall u
      ensures StandsFor(At(f, u), At(h, u), now, window)
      ensures full == At(history, user) ==> StandsFor(At(f, u), At(history, u), now, window)
    {
      if u != user {
        assert StandsFor(At(failures, u), At(history, u), clock, window);
      }
    }
  }

  class Limiter {
    const maxAttempts: nat
    const window: nat
    var failures: map<string, seq<nat>>
    /** All failures since the last reset, and the latest time seen. */
    ghost var history: map<string, seq<nat>>
    ghost var clock: nat

    constructor (maxAttempts: nat, window: nat)
      ensures Valid() && this.maxAttempts == maxAttempts && this.window == window
      ensures history == map[] && clock == 0
    {
      this.maxAttempts, this.window := maxAttempts, window;
      failures, history, clock := map[], map[], 0;
    }

    ghost predicate Valid()
      reads this
    {
      AllStand(failures, history, clock, window)
    }

    method Prune(ts: seq<nat>, now: nat) returns (r: seq<nat>)
      ensures r == Recent(ts, now, window)
    {
      r := [];
      for i := 0 to |ts|
        invariant r == Recent(ts[..i], now, window)
      {
        assert ts[..i + 1][..i] == ts[..i];
        if Elapsed(now, ts[i]) < window {
          r := r + [ts[i]];
        }
      }
      assert ts[..|ts|] == ts;
    }

    /** Lets in exactly if fewer failures since the last reset are less than a window old than allowed. */
    method Allows(user: string, now: nat) returns (ok: bool)
      requires Valid() && now >= clock
      modifies this
      ensures Valid() && clock == now && history == old(history)
      ensures ok <==> |Counting(At(history, user), now, window)| < maxAttempts
    {
      var stored := At(failures, user);
      ghost var full := At(history, user);
      assert StandsFor(stored, full, clock, window);
      var entry := Prune(stored, now);
      CountingSize(full, now, window);
      PrunedStands(stored, full, clock, now, window);
      SetStands(failures, history, clock, now, window, user, entry, full);
      ok := |entry| < maxAttempts;
      failures := failures[user := entry];
      clock := now;
    }

    method RecordFailure(user: string, now: nat)
      requires Valid() && now >= clock
      modifies this
      ensures Valid() && clock == now
      ensures history == old(history)[user := At(old(history), user) + [now]]
    {
      var stored := At(failures, user);
      ghost var full := At(history, user);
      assert StandsFor(stored, full, clock, window);
      var entry := Prune(stored, now);
      PrunedStands(stored, full, clock, now, window);
      SetStands(failures, history, clock, now, window, user, entry + [now], full + [now]);
      failures := failures[user := entry + [now]];
      history := history[user := full + [now]];
      clock := now;
    }

    method Reset(user: string)
      requires Valid()
      modifies this
      ensures Valid() && clock == old(clock) && history == old(history) - {user}
    {
      failures := failures - {user};
      history := history - {user};
      assert forall u | u != user ::
        At(failures, u) == At(old(failures), u) && At(history, u) == At(old(history), u);
    }
  }

  // ---------------------------------------------------------------- logins

  /**
   The logins of one user. Each first asks the limiter; once let in it is pending, until its
   failure is recorded, it succeeds, or it is given up on an internal error. Between the two
   others may come in.
   */
  datatype Event =
    | Check(now: nat)
    | Fail(now: nat)
    | Succeed(now: nat)
    | GiveUp(now: nat)

  datatype Logins = Logins(history: seq<nat>, pending: nat, clock: nat)

  datatype Policy = Policy(maxAttempts: nat, window: nat)

  predicate Enabled(s: Logins, e: Event) {
    e.now >= s.clock && (!e.Check? ==> s.pending > 0)
  }

  function Apply(p: Policy, s: Logins, e: Event): Logins
    requires Enabled(s, e)
  {
    match e
    case Check(now) =>
      if |Recent(s.history, now, p.window)| < p.maxAttempts then Logins(s.history, s.pending + 1, now)
      else Logins(s.history, s.pending, now)
    case Fail(now) => Logins(s.history + [now], s.pending - 1, now)
    case Succeed(now) => Logins([], s.pending - 1, now)
    case GiveUp(now) => Logins(s.history, s.pending - 1, now)
  }

  const Start := Logins([], 0, 0)

  ghost predicate Run(p: Policy, states: seq<Logins>, events: seq<Event>) {
    && |states| == |events| + 1 && states[0] == Start
    && forall i | 0 <= i < |events| :: Happens(p, states, events, i)
  }

  ghost predicate Happens(p: Policy, states: seq<Logins>, events: seq<Event>, i: nat)
    requires i < |events| && |states| == |events| + 1
  {
    Enabled(states[i], events[i]) && states[i + 1] == Apply(p, states[i], events[i])
  }

  // ---------------------------------------------------------------- who is let in

  /** The first event after the last successful login before event `i`. */
  function LastReset(events: seq<Event>, i: nat): (r: nat)
    requires i <= |events|
    ensures r <= i
  {
    if i == 0 then 0 else if events[i - 1].Succeed? then i else LastReset(events, i - 1)
  }

  /** The failures before event `i`, since the last successful login, that are less than a window old. */
  function Failures(events: seq<Event>, i: nat, now: nat, window: nat): set<nat>
    requires i <= |events|
  {
    set k | LastReset(events, i) <= k < i && events[k].Fail? && now < events[k].now + window
  }

  /** What one more event does to these failures. */
  lemma FailuresNext(events: seq<Event>, i: nat, now: nat, window: nat)
    requires i < |events|
    ensures i !in Failures(events, i, now, window)
    ensures Failures(events, i + 1, now, window) ==
      if events[i].Succeed? then {}
      else if events[i].Fail? && now < events[i].now + window then Failures(events, i, now, window) + {i}
      else Failures(events, i, now, window)
  {
  }

  lemma {:induction false} HistoryCounts(p: Policy, states: seq<Logins>, events: seq<Event>, i: nat, now: nat)
    requires Run(p, states, events) && i <= |events| && now >= states[i].clock
    ensures |Failures(events, i, now, p.window)| == |Recent(states[i].history, now, p.window)|
    decreases i
  {
    if i > 0 {
      var n := i - 1;
      assert Happens(p, states, events, n);
      HistoryCounts(p, states, events, n, now);
      FailuresNext(events, n, now, p.window);
      if events[n].Fail? {
        RecentAppend(states[n].history, events[n].now, now, p.window);
      }
    }
  }

  /**
   Exactly who is let in, from the events alone: a login that asks while fewer failures since
   the last successful login are less than a window old than attempts are allowed. So failures
   age, and a success wipes them out.
   */
  lemma LetInExactly(p: Policy, states: seq<Logins>, events: seq<Event>, i: nat)
    requires Run(p, states, events) && i < |events| && events[i].Check?
    ensures states[i + 1].pending ==
      if |Failures(events, i, events[i].now, p.window)| < p.maxAttempts then states[i].pending + 1
      else states[i].pending
  {
    assert Happens(p, states, events, i);
    HistoryCounts(p, states, events, i, events[i].now);
  }

  /** At most `most` logins are pending at a time. */
  ghost predicate Overlap(states: seq<Logins>, most: nat) {
    forall k | 0 <= k < |states| :: states[k].pending <= most
  }

  /** The failures in the window that starts at `from`. */
  function Within(ts: seq<nat>, from: nat, window: nat): nat {
    if ts == [] then 0
    else
      var n := |ts| - 1;
      Within(ts[..n], from, window) + if from <= ts[n] < from + window then 1 else 0
  }

  lemma {:induction false} EmptyWindow(ts: seq<nat>, from: nat)
    ensures Within(ts, from, 0) == 0
  {
    if ts != [] {
      EmptyWindow(ts[..|ts| - 1], from);
    }
  }

  lemma {:induction false} WithinRecent(ts: seq<nat>, from: nat, window: nat, now: nat)
    requires forall i | 0 <= i < |ts| :: ts[i] <= now
    requires now < from + window
    ensures Within(ts, from, window) <= |Recent(ts, now, window)|
  {
    if ts != [] {
      WithinRecent(ts[..|ts| - 1], from, window, now);
    }
  }

  /**
   The failures that count and the logins pending together stay below the attempts allowed and
   those pending; and no window holds more failures than the bound.
   */
  ghost predicate Bounded(p: Policy, s: Logins, most: nat) {
    && (forall i | 0 <= i < |s.history| :: s.history[i] <= s.clock)
    && (if p.maxAttempts == 0 || most == 0 then s.history == [] && s.pending == 0
        else |Recent(s.history, s.clock, p.window)| + s.pending <= p.maxAttempts - 1 + most)
    && forall from: nat :: Within(s.history, from, p.window) <= Bound(p, most)
  }

  /** The most failures a window can hold. */
  function Bound(p: Policy, most: nat): nat {
    if p.maxAttempts == 0 || most == 0 || p.window == 0 then 0 else p.maxAttempts - 1 + most
  }

  lemma BoundedStep(p: Policy, s: Logins, e: Event, most: nat)
    requires Bounded(p, s, most) && Enabled(s, e) && Apply(p, s, e).pending <= most
    ensures Bounded(p, Apply(p, s, e), most)
  {
    var s2 := Apply(p, s, e);
    RecentShrinks(s.history, s.clock, e.now, p.window);
    if e.Fail? {
      RecentAppend(s.history, e.now, e.now, p.window);
      forall from: nat ensures Within(s2.history, from, p.window) <= Bound(p, most) {
        assert s2.history[..|s.history|] == s.history;
        EmptyWindow(s2.history, from);
        if from <= e.now < from + p.window {
          WithinRecent(s2.history, from, p.window, e.now);
        } else {
          assert Within(s.history, from, p.window) <= Bound(p, most);
        }
      }
    }
  }

  lemma {:induction false} BoundedRun(p: Policy, states: seq<Logins>, events: seq<Event>, most: nat, i: nat)
    requires Run(p, states, events) && i < |states| && Overlap(states, most)
    ensures Bounded(p, states[i], most)
  {
    if i > 0 {
      BoundedRun(p, states, events, most, i - 1);
      assert Happens(p, states, events, i - 1);
      assert states[i].pending <= most;
      BoundedStep(p, states[i - 1], events[i - 1], most);
    }
  }

  /**
   Between two successful logins no stretch of time as long as the window holds more failures
   than the attempts allowed, and one more for each further login that may be pending at the
   same time.
   */
  lemma FailuresBounded(p: Policy, states: seq<Logins>, events: seq<Event>, most: nat, i: nat, from: nat)
    requires Run(p, states, events) && i < |states| && Overlap(states, most)
    ensures Within(states[i].history, from, p.window) <= Bound(p, most)
  {
    BoundedRun(p, states, events, most, i);
  }

  // ---------------------------------------------------------------- when the limit holds

  /** All runs with at most `most` logins pending keep every window within the attempts allowed. */
  ghost predicate LimitAlways(p: Policy, most: nat) {
    forall states: seq<Logins>, events: seq<Event>, i: nat, from: nat |
      Run(p, states, events) && i < |states| && Overlap(states, most) ::
      Within(states[i].history, from, p.window) <= p.maxAttempts
  }

  /** Some run with at most `most` logins pending ends in `s`. */
  ghost predicate Reaches(p: Policy, most: nat, s: Logins) {
    exists states, events :: EndsIn(p, most, states, events, s)
  }

  ghost predicate EndsIn(p: Policy, most: nat, states: seq<Logins>, events: seq<Event>, s: Logins) {
    Run(p, states, events) && Overlap(states, most) && states[|states| - 1] == s
  }

  lemma ReachesNext(p: Policy, most: nat, s: Logins, e: Event)
    requires Reaches(p, most, s) && Enabled(s, e) && Apply(p, s, e).pending <= most
    ensures Reaches(p, most, Apply(p, s, e))
  {
    var states, events :| EndsIn(p, most, states, events, s);
    var states', events' := states + [Apply(p, s, e)], events + [e];
    forall i | 0 <= i < |events'| ensures Happens(p, states', events', i) {
      assert i < |events| ==> Happens(p, states, events, i);
    }
    assert EndsIn(p, most, states', events', Apply(p, s, e));
  }

  /** So many failures at time 0. */
  function Zeros(n: nat): seq<nat> {
    seq(n, _ => 0)
  }

  lemma {:induction false} ZerosCount(n: nat, window: nat)
    requires window > 0
    ensures |Recent(Zeros(n), 0, window)| == n == Within(Zeros(n), 0, window)
  {
    if n > 0 {
      assert Zeros(n)[..n - 1] == Zeros(n - 1);
      ZerosCount(n - 1, window);
    }
  }

  /** Below the limit one login after the other may fail. */
  lemma {:induction false} FailOneByOne(p: Policy, most: nat, n: nat)
    requires n < p.maxAttempts && p.window > 0 && most > 0
    ensures Reaches(p, most, Logins(Zeros(n), 0, 0))
  {
    if n == 0 {
      assert EndsIn(p, most, [Start], [], Start);
      assert Zeros(0) == [];
    } else {
      FailOneByOne(p, most, n - 1);
      ZerosCount(n - 1, p.window);
      ReachesNext(p, most, Logins(Zeros(n - 1), 0, 0), Check(0));
      ReachesNext(p, most, Logins(Zeros(n - 1), 1, 0), Fail(0));
      assert Zeros(n - 1) + [0] == Zeros(n);
    }
  }

  /** With one attempt left, any number of logins is let in at the same time. */
  lemma {:induction false} AllLetIn(p: Policy, most: nat, k: nat)
    requires p.maxAttempts > 0 && p.window > 0 && k <= most && most > 0
    ensures Reaches(p, most, Logins(Zeros(p.maxAttempts - 1), k, 0))
  {
    var n := p.maxAttempts - 1;
    if k == 0 {
      FailOneByOne(p, most, n);
    } else {
      AllLetIn(p, most, k - 1);
      ZerosCount(n, p.window);
      ReachesNext(p, most, Logins(Zeros(n), k - 1, 0), Check(0));
    }
  }

  /** And all of them may fail. */
  lemma {:induction false} AllFail(p: Policy, most: nat, k: nat)
    requires p.maxAttempts > 0 && p.window > 0 && k <= most && most > 0
    ensures Reaches(p, most, Logins(Zeros(p.maxAttempts - 1 + k), most - k, 0))
  {
    if k == 0 {
      AllLetIn(p, most, most);
    } else {
      AllFail(p, most, k - 1);
      var n := p.maxAttempts - 1 + (k - 1);
      ReachesNext(p, most, Logins(Zeros(n), most - (k - 1), 0), Fail(0));
      assert Zeros(n) + [0] == Zeros(n + 1);
    }
  }

  /** The bound is reached: for every policy and every overlap some run has that many failures in a window. */
  lemma BoundReached(p: Policy, most: nat) returns (states: seq<Logins>, events: seq<Event>)
    ensures Run(p, states, events) && Overlap(states, most)
    ensures Within(states[|states| - 1].history, 0, p.window) == Bound(p, most)
  {
    if Bound(p, most) == 0 {
      states, events := [Start], [];
    } else {
      AllFail(p, most, most);
      states, events :| EndsIn(p, most, states, events, Logins(Zeros(Bound(p, most)), 0, 0));
      ZerosCount(Bound(p, most), p.window);
    }
  }

  /**
   The limit holds in all runs exactly when logins do not overlap, or there is nothing to
   count: no attempt is ever let in, or the window is empty.
   */
  lemma LimitExactly(p: Policy, most: nat)
    ensures LimitAlways(p, most) <==> most <= 1 || p.maxAttempts == 0 || p.window == 0
  {
    if most <= 1 || p.maxAttempts == 0 || p.window == 0 {
      forall states: seq<Logins>, events: seq<Event>, i: nat, from: nat |
        Run(p, states, events) && i < |states| && Overlap(states, most)
        ensures Within(states[i].history, from, p.window) <= p.maxAttempts
      {
        FailuresBounded(p, states, events, most, i, from);
      }
    } else {
      var states, events := BoundReached(p, most);
      assert Within(states[|states| - 1].history, 0, p.window) > p.maxAttempts;
    }
  }
}
