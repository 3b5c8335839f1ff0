/**
 The connection limiter under every interleaving (server/src/conn_limiter.rs).

 An attempt adds one to its route's counter, looks at the value it found there and then either
 keeps its place or takes the one back; a place kept is given back when its guard is dropped.
 Each of these is one atomic step, and the steps of all attempts interleave freely.
 */
module ConnLimiter {
  import opened Prelude

  /** An attempt between its two steps, which found `prev` in the counter; or a guard. */
  datatype Attempt =
    | InFlight(route: RouteId, max: nat, prev: nat)
    | Held(route: RouteId, max: nat)

  datatype Limiter = Limiter(counters: map<RouteId, nat>, attempts: map<nat, Attempt>)

  datatype Step =
    | FetchAdd(id: nat, route: RouteId, max: nat)
    | Settle(id: nat)
    | Drop(id: nat)

  const U64Max: nat := 0xFFFF_FFFF_FFFF_FFFF

  function Counter(counters: map<RouteId, nat>, r: RouteId): nat {
    if r in counters then counters[r] else 0
  }

  /** Atomic subtraction: below zero it wraps. */
  function FetchSub(counters: map<RouteId, nat>, r: RouteId): map<RouteId, nat> {
    counters[r := if Counter(counters, r) == 0 then U64Max else Counter(counters, r) - 1]
  }

  predicate Enabled(s: Limiter, step: Step) {
    match step
    case FetchAdd(id, _, _) => id !in s.attempts
    case Settle(id) => id in s.attempts && s.attempts[id].InFlight?
    case Drop(id) => id in s.attempts && s.attempts[id].Held?
  }

  /** The attempt that is about to settle is refused. */
  predicate Refused(s: Limiter, id: nat) {
    id in s.attempts && s.attempts[id].InFlight? && s.attempts[id].prev >= s.attempts[id].max
  }

  function Apply(s: Limiter, step: Step): Limiter
    requires Enabled(s, step)
  {
    match step
    case FetchAdd(id, r, max) =>
      var prev := Counter(s.counters, r);
      Limiter(s.counters[r := prev + 1], s.attempts[id := InFlight(r, max, prev)])
    case Settle(id) =>
      var a := s.attempts[id];
      if Refused(s, id) then Limiter(FetchSub(s.counters, a.route), s.attempts - {id})
      else s.(attempts := s.attempts[id := Held(a.route, a.max)])
    case Drop(id) =>
      Limiter(FetchSub(s.counters, s.attempts[id].route), s.attempts - {id})
  }

  const Start := Limiter(map[], map[])

  /** A run: the state before each step, and the last. */
  ghost predicate Run(states: seq<Limiter>, steps: seq<Step>) {
    && |states| == |steps| + 1 && states[0] == Start
    && forall i | 0 <= i < |steps| :: Taken(states, steps, i)
  }

  ghost predicate Taken(states: seq<Limiter>, steps: seq<Step>, i: nat)
    requires i < |steps| && |states| == |steps| + 1
  {
    Enabled(states[i], steps[i]) && states[i + 1] == Apply(states[i], steps[i])
  }

  // ---------------------------------------------------------------- the counter

  function On(attempts: map<nat, Attempt>, r: RouteId): set<nat> {
    set id | id in attempts && attempts[id].route == r
  }

  function HeldOn(attempts: map<nat, Attempt>, r: RouteId): set<nat> {
    set id | id in attempts && attempts[id].route == r && attempts[id].Held?
  }

  /** The attempts that keep their place: the guards, and those in flight that will. */
  function KeptOn(attempts: map<nat, Attempt>, r: RouteId): set<nat> {
    set id | id in attempts && attempts[id].route == r &&
      (attempts[id].InFlight? ==> attempts[id].prev < attempts[id].max)
  }

  /** Every counter is the number of guards and attempts in flight on its route. */
  ghost predicate Exact(s: Limiter) {
    forall r :: Counter(s.counters, r) == |On(s.attempts, r)|
  }

  /** A step adds its attempt to its route, leaves it there or removes it. */
  lemma StepMovesOne(s: Limiter, step: Step, r: RouteId)
    requires Enabled(s, step)
    ensures var before, after := On(s.attempts, r), On(Apply(s, step).attempts, r);
      match step
      case FetchAdd(id, route, _) => after == if route == r then before + {id} else before
      case Settle(id) => after == if Refused(s, id) then before - {id} else before
      case Drop(id) => after == before - {id}
  {
  }

  lemma ExactStep(s: Limiter, step: Step)
    requires Exact(s) && Enabled(s, step)
    ensures Exact(Apply(s, step))
    ensures step.Drop? || (step.Settle? && Refused(s, step.id)) ==>
      Counter(s.counters, s.attempts[step.id].route) > 0
  {
    if !step.FetchAdd? {
      assert step.id in On(s.attempts, s.attempts[step.id].route);
    }
    forall r ensures Counter(Apply(s, step).counters, r) == |On(Apply(s, step).attempts, r)| {
      StepMovesOne(s, step, r);
      assert Counter(s.counters, r) == |On(s.attempts, r)|;
      if !step.FetchAdd? && s.attempts[step.id].route != r {
        assert step.id !in On(s.attempts, r);
        assert On(s.attempts, r) - {step.id} == On(s.attempts, r);
      }
    }
  }

  /** In every state of every run the counters are exact. */
  lemma {:induction false} CountersExact(states: seq<Limiter>, steps: seq<Step>, i: nat)
    requires Run(states, steps) && i < |states|
    ensures Exact(states[i])
  {
    if i > 0 {
      CountersExact(states, steps, i - 1);
      assert Taken(states, steps, i - 1);
      ExactStep(states[i - 1], steps[i - 1]);
    } else {
      forall r ensures |On(Start.attempts, r)| == 0 {
        assert On(Start.attempts, r) == {};
      }
    }
  }

  /** No step of any run takes one from a counter at zero. */
  lemma NeverUnderflows(states: seq<Limiter>, steps: seq<Step>, i: nat)
    requires Run(states, steps) && i < |steps|
    requires steps[i].Drop? || (steps[i].Settle? && Refused(states[i], steps[i].id))
    ensures steps[i].id in states[i].attempts
    ensures Counter(states[i].counters, states[i].attempts[steps[i].id].route) > 0
  {
    CountersExact(states, steps, i);
    assert Taken(states, steps, i);
    ExactStep(states[i], steps[i]);
  }

  // ---------------------------------------------------------------- the limit

  /** No attempt on the route came with a limit above `max`. */
  ghost predicate Limited(steps: seq<Step>, r: RouteId, max: nat) {
    forall i | 0 <= i < |steps| :: steps[i].FetchAdd? && steps[i].route == r ==> steps[i].max <= max
  }

  lemma KeptStep(s: Limiter, step: Step, r: RouteId, max: nat)
    requires Exact(s) && Enabled(s, step) && |KeptOn(s.attempts, r)| <= max
    requires step.FetchAdd? && step.route == r ==> step.max <= max
    ensures |KeptOn(Apply(s, step).attempts, r)| <= max
  {
    var before, after := KeptOn(s.attempts, r), KeptOn(Apply(s, step).attempts, r);
    if step.FetchAdd? && step.route == r && Counter(s.counters, r) < step.max {
      assert after == before + {step.id};
      assert Counter(s.counters, r) == |On(s.attempts, r)|;
      SubsetSize(before, On(s.attempts, r));
    } else {
      SubsetSize(after, before);
    }
  }

  lemma {:induction false} KeptBound(states: seq<Limiter>, steps: seq<Step>, r: RouteId, max: nat, i: nat)
    requires Run(states, steps) && i < |states| && Limited(steps, r, max)
    ensures |KeptOn(states[i].attempts, r)| <= max
  {
    if i > 0 {
      KeptBound(states, steps, r, max, i - 1);
      CountersExact(states, steps, i - 1);
      assert Taken(states, steps, i - 1);
      KeptStep(states[i - 1], steps[i - 1], r, max);
    } else {
      assert KeptOn(Start.attempts, r) == {};
    }
  }

  /** A route never has more connections than the largest limit its attempts came with. */
  lemma LimitHolds(states: seq<Limiter>, steps: seq<Step>, r: RouteId, max: nat, i: nat)
    requires Run(states, steps) && i < |states| && Limited(steps, r, max)
    ensures |HeldOn(states[i].attempts, r)| <= max
  {
    KeptBound(states, steps, r, max, i);
    SubsetSize(HeldOn(states[i].attempts, r), KeptOn(states[i].attempts, r));
  }

  // ---------------------------------------------------------------- refusals

  /**
   The step `j` at which an attempt in flight in state `i` was added. It found as many
   guards and attempts in flight as `prev` says.
   */
  lemma {:induction false} AddedAt(states: seq<Limiter>, steps: seq<Step>, i: nat, id: nat) returns (j: nat)
    requires Run(states, steps) && i < |states| && id in states[i].attempts && states[i].attempts[id].InFlight?
    ensures var a := states[i].attempts[id];
      && j < i && steps[j] == FetchAdd(id, a.route, a.max) && id !in states[j].attempts
      && |On(states[j].attempts, a.route)| == a.prev
  {
    var before, step := states[i - 1], steps[i - 1];
    assert Taken(states, steps, i - 1);
    if step.FetchAdd? && step.id == id {
      j := i - 1;
      CountersExact(states, steps, j);
      assert Counter(before.counters, step.route) == |On(before.attempts, step.route)|;
    } else {
      assert id in before.attempts && before.attempts[id] == states[i].attempts[id];
      j := AddedAt(states, steps, i - 1, id);
    }
  }

  /**
   Exactly: an attempt is refused if and only if it found guards and other attempts in flight
   up to its limit when it was added, at step `j`.
   */
  lemma RefusedExactly(states: seq<Limiter>, steps: seq<Step>, i: nat, id: nat) returns (j: nat)
    requires Run(states, steps) && i < |states| && id in states[i].attempts && states[i].attempts[id].InFlight?
    ensures var a := states[i].attempts[id];
      && j < i && steps[j] == FetchAdd(id, a.route, a.max) && id !in On(states[j].attempts, a.route)
      && (Refused(states[i], id) <==> |On(states[j].attempts, a.route)| >= a.max)
  {
    j := AddedAt(states, steps, i, id);
  }

  /** A refusal is needless if the connections alone had not reached the limit. */
  ghost predicate Needless(s: Limiter, r: RouteId, max: nat) {
    |HeldOn(s.attempts, r)| < max
  }

  /** Attempts in flight on the route. */
  function FlyingOn(attempts: map<nat, Attempt>, r: RouteId): set<nat> {
    On(attempts, r) - HeldOn(attempts, r)
  }

  lemma HeldAndFlying(attempts: map<nat, Attempt>, r: RouteId)
    ensures |On(attempts, r)| == |HeldOn(attempts, r)| + |FlyingOn(attempts, r)|
  {
    assert On(attempts, r) == HeldOn(attempts, r) + FlyingOn(attempts, r);
  }

  /**
   Refusals are needless exactly when the connections leave room at the step `j` that decides it
   and the attempts in flight then fill that room. Without attempts in flight none is.
   */
  lemma NeedlessExactly(states: seq<Limiter>, steps: seq<Step>, i: nat, id: nat) returns (j: nat)
    requires Run(states, steps) && i < |states| && id in states[i].attempts && states[i].attempts[id].InFlight?
    ensures var a := states[i].attempts[id];
      && j < i && steps[j] == FetchAdd(id, a.route, a.max)
      && (Refused(states[i], id) && Needless(states[j], a.route, a.max) <==>
          var held, flying := |HeldOn(states[j].attempts, a.route)|, |FlyingOn(states[j].attempts, a.route)|;
          held < a.max <= held + flying)
  {
    j := RefusedExactly(states, steps, i, id);
    HeldAndFlying(states[j].attempts, states[i].attempts[id].route);
  }

  /** With no attempt in flight on the route, exactly the attempts below the limit succeed. */
  lemma AloneIsExact(s: Limiter, id: nat, r: RouteId, max: nat)
    requires Exact(s) && id !in s.attempts && On(s.attempts, r) == HeldOn(s.attempts, r)
    ensures Refused(Apply(s, FetchAdd(id, r, max)), id) <==> |HeldOn(s.attempts, r)| >= max
  {
    assert Counter(s.counters, r) == |On(s.attempts, r)|;
  }

  ghost predicate Reaches(s: Limiter) {
    exists states, steps :: EndsIn(states, steps, s)
  }

  ghost predicate EndsIn(states: seq<Limiter>, steps: seq<Step>, s: Limiter) {
    Run(states, steps) && states[|states| - 1] == s
  }

  lemma ReachesNext(s: Limiter, step: Step)
    requires Reaches(s) && Enabled(s, step)
    ensures Reaches(Apply(s, step))
  {
    var states, steps :| EndsIn(states, steps, s);
    var states', steps' := states + [Apply(s, step)], steps + [step];
    forall i | 0 <= i < |steps'| ensures Taken(states', steps', i) {
      assert i < |steps| ==> Taken(states, steps, i);
    }
    assert EndsIn(states', steps', Apply(s, step));
  }

  /**
   Of the `max` connections those from `lo` to `hi` are there, and `late` attempts are in
   flight that found all of them.
   */
  function Crowd(max: nat, lo: nat, hi: nat, late: nat): Limiter {
    Limiter(map[0 := if lo <= hi then hi - lo + late else 0],
            map id: nat | id < max + late && (lo <= id < hi || max <= id) ::
              if id < max then Held(0, max) else InFlight(0, max, id))
  }

  lemma {:induction false} CrowdConnects(max: nat, k: nat)
    requires 0 < k <= max
    ensures Reaches(Crowd(max, 0, k, 0))
  {
    if k == 1 {
      assert EndsIn([Start], [], Start);
      ReachesNext(Start, FetchAdd(0, 0, max));
      var s := Apply(Start, FetchAdd(0, 0, max));
      ReachesNext(s, Settle(0));
      assert Apply(s, Settle(0)) == Crowd(max, 0, 1, 0);
    } else {
      CrowdConnects(max, k - 1);
      var s0 := Crowd(max, 0, k - 1, 0);
      ReachesNext(s0, FetchAdd(k - 1, 0, max));
      var s := Apply(s0, FetchAdd(k - 1, 0, max));
      ReachesNext(s, Settle(k - 1));
      assert Apply(s, Settle(k - 1)) == Crowd(max, 0, k, 0);
    }
  }

  lemma {:induction false} CrowdQueues(max: nat, late: nat)
    requires 0 < max
    ensures Reaches(Crowd(max, 0, max, late))
  {
    if late == 0 {
      CrowdConnects(max, max);
    } else {
      CrowdQueues(max, late - 1);
      var s := Crowd(max, 0, max, late - 1);
      ReachesNext(s, FetchAdd(max + late - 1, 0, max));
      assert Apply(s, FetchAdd(max + late - 1, 0, max)) == Crowd(max, 0, max, late);
    }
  }

  lemma {:induction false} CrowdLeaves(max: nat, lo: nat)
    requires 0 < max && lo <= max
    ensures Reaches(Crowd(max, lo, max, max))
  {
    if lo == 0 {
      CrowdQueues(max, max);
    } else {
      CrowdLeaves(max, lo - 1);
      var s := Crowd(max, lo - 1, max, max);
      ReachesNext(s, Drop(lo - 1));
      assert Apply(s, Drop(lo - 1)) == Crowd(max, lo, max, max);
    }
  }

  /**
   For every limit a refusal can be as needless as can be: all connections are gone and all
   other attempts are to be refused as well, but they are still counted.
   */
  lemma NeedlessRefusal(max: nat)
    requires max > 0
    ensures var s := Apply(Crowd(max, max, max, max), FetchAdd(max + max, 0, max));
      && Reaches(s) && Refused(s, max + max)
      && HeldOn(s.attempts, 0) == {} && forall id | id in s.attempts :: Refused(s, id)
  {
    CrowdLeaves(max, max);
    ReachesNext(Crowd(max, max, max, max), FetchAdd(max + max, 0, max));
  }

  // ---------------------------------------------------------------- the limiter alone

  /** The source's object, when nobody interferes between the steps of one call. */
  class Counters {
    var counters: map<RouteId, nat>
    /** The guards that are out. */
    ghost var guards: map<nat, Attempt>

    ghost predicate Valid()
      reads this
    {
      Exact(Limiter(counters, guards)) && forall id | id in guards :: guards[id].Held?
    }

    constructor ()
      ensures Valid() && guards == map[]
    {
      counters, guards := map[], map[];
      new;
      assert forall r :: On(map[], r) == {};
    }

    /** A place is given exactly when fewer guards are out than the limit. */
    method TryAcquire(ghost id: nat, r: RouteId, max: nat) returns (ok: bool)
      requires Valid() && id !in guards
      modifies this
      ensures Valid()
      ensures ok <==> |HeldOn(old(guards), r)| < max
      ensures guards == if ok then old(guards)[id := Held(r, max)] else old(guards)
    {
      ghost var s := Limiter(counters, guards);
      ghost var added := Apply(s, FetchAdd(id, r, max));
      assert On(guards, r) == HeldOn(guards, r);
      AloneIsExact(s, id, r, max);
      ExactStep(s, FetchAdd(id, r, max));
      ExactStep(added, Settle(id));
      ghost var settled := Apply(added, Settle(id));
      var prev := if r in counters then counters[r] else 0;
      counters := counters[r := prev + 1];
      if prev >= max {
        counters := FetchSub(counters, r);
        assert added.attempts - {id} == guards;
        assert settled == Limiter(counters, guards);
        return false;
      }
      guards := guards[id := Held(r, max)];
      assert settled == Limiter(counters, guards);
      ok := true;
    }

    /** Dropping a guard gives its place back. */
    method Release(ghost id: nat, r: RouteId)
      requires Valid() && id in guards && guards[id].route == r
      modifies this
      ensures Valid() && guards == old(guards) - {id}
    {
      ExactStep(Limiter(counters, guards), Drop(id));
      counters := FetchSub(counters, r);
      guards := guards - {id};
    }
  }
}
