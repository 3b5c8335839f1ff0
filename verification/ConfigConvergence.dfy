/**
 Convergence of the configuration protocol: once changes stop, every run comes to rest,
 and there the agent holds the current table. What is not promised: a push made before the
 channel is registered is lost.
 */
module ConfigConvergence {
  import opened Prelude
  import opened Routes
  import opened ConfigProtocol

  /** Everything but a further change, a broken connection or a failed push. */
  predicate Internal(step: Step) {
    !step.Commit? && !step.Disconnect? && !step.PushFail?
  }

  ghost predicate InternalNext(s: State, s': State) {
    exists step :: Internal(step) && Enabled(s, step) && s' == Apply(s, step)
  }

  /** From `first` on there are only internal steps: changes have stopped. */
  ghost predicate InternalFrom(r: seq<State>, first: nat) {
    forall i | first <= i < |r| - 1 :: InternalAt(r, i)
  }

  ghost predicate InternalAt(r: seq<State>, i: nat)
    requires i + 1 < |r|
  {
    InternalNext(r[i], r[i + 1])
  }

  /** No internal step is left. */
  ghost predicate AtRest(s: State) {
    forall step | Enabled(s, step) :: !Internal(step)
  }

  // ---------------------------------------------------------------- the measure

  /** An update costs more than a snapshot: it may lead to a resync. */
  function Weight(m: Msg): nat {
    if m.Snapshot? then 2 else 5
  }

  function Weigh(ms: seq<Msg>, extra: nat): nat {
    if ms == [] then 0 else Weight(ms[0]) + extra + Weigh(ms[1..], extra)
  }

  function WeighUp(up: seq<Reply>): nat {
    if up == [] then 0 else (if up[0].Ack? then 1 else 4) + WeighUp(up[1..])
  }

  function WeighConn(c: Conn): nat {
    match c
    case Offline => 5
    case LabelRead(_) => 4
    case SnapshotSent(_) => 1
    case Serving(_, Idle) => 0
    case Serving(_, Resyncing(_)) => 3
  }

  function Measure(s: State): nat
    requires s.pushed <= s.version < |s.history|
  {
    8 * (|s.history| - 1 - s.version) + 7 * (s.version - s.pushed)
    + Weigh(s.queue, 1) + Weigh(s.down, 0) + WeighUp(s.up) + WeighConn(s.conn)
  }

  lemma {:induction false} WeighAppend(ms: seq<Msg>, m: Msg, extra: nat)
    ensures Weigh(ms + [m], extra) == Weigh(ms, extra) + Weight(m) + extra
  {
    if ms == [] {
      assert ms + [m] == [m];
    } else {
      assert (ms + [m])[1..] == ms[1..] + [m];
      WeighAppend(ms[1..], m, extra);
    }
  }

  lemma {:induction false} WeighUpAppend(up: seq<Reply>, r: Reply)
    ensures WeighUp(up + [r]) == WeighUp(up) + (if r.Ack? then 1 else 4)
  {
    if up == [] {
      assert up + [r] == [r];
    } else {
      assert (up + [r])[1..] == up[1..] + [r];
      WeighUpAppend(up[1..], r);
    }
  }

  lemma EnqueueDecreases(s: State, m: Msg)
    requires Safe(s) && s.pushed < s.version
    ensures Measure(Enqueue(s, m)) < Measure(s)
  {
    WeighAppend(s.queue, m, 1);
  }

  lemma DeliverDecreases(s: State)
    requires Safe(s) && Enabled(s, Deliver)
    ensures Measure(Apply(s, Deliver)) < Measure(s)
  {
    var (_, reply) := AgentReceives(s.agent, s.down[0]);
    WeighUpAppend(s.up, reply);
  }

  ghost predicate Lowers(s: State, step: Step)
    requires Safe(s) && Enabled(s, step)
  {
    Safe(Apply(s, step)) && Measure(Apply(s, step)) < Measure(s)
  }

  lemma PushLowers(s: State, step: Step)
    requires Safe(s) && Enabled(s, step) && (step.PushUpdate? || step.PushSnapshot?)
    ensures Lowers(s, step)
  {
    SafeStep(s, step);
    match step {
      case PushUpdate(d) => EnqueueDecreases(s, Update(s.pushed + 1, d));
      case PushSnapshot(at) => EnqueueDecreases(s, Snapshot(s.pushed + 1, s.history[at]));
    }
  }

  lemma SendLowers(s: State, step: Step)
    requires Safe(s) && Enabled(s, step) && (step.SendHandshake? || step.SendResync? || step.Forward?)
    ensures Lowers(s, step)
  {
    SafeStep(s, step);
    match step {
      case SendHandshake => assert Weigh([Snapshot(s.conn.base, Current(s))], 0) == 2;
      case Forward => WeighAppend(s.down, s.queue[0], 0);
      case SendResync => WeighAppend(s.down, Snapshot(s.conn.control.resyncLabel, Current(s)), 0);
    }
  }

  lemma ReadLowers(s: State, step: Step)
    requires Safe(s) && Enabled(s, step)
    requires step.Bump? || step.ReadLabel? || step.Register? || step.ReadAck? || step.ReadResync?
    ensures Lowers(s, step)
  {
    SafeStep(s, step);
  }

  /** Every internal step brings the measure down. */
  lemma MeasureDecreases(s: State, step: Step)
    requires Safe(s) && Internal(step) && Enabled(s, step)
    ensures Lowers(s, step)
  {
    match step {
      case PushUpdate(_) => PushLowers(s, step);
      case PushSnapshot(_) => PushLowers(s, step);
      case SendHandshake => SendLowers(s, step);
      case Forward => SendLowers(s, step);
      case SendResync => SendLowers(s, step);
      case Deliver =>
        SafeStep(s, step);
        DeliverDecreases(s);
      case _ => ReadLowers(s, step);
    }
  }

  /** A step to take in a state that is not at rest. */
  function NextStep(s: State): Step
    requires Safe(s)
  {
    if s.version + 1 < |s.history| then Bump
    else if s.pushed < s.version then PushSnapshot(s.pushed + 1)
    else match s.conn
      case Offline => ReadLabel
      case LabelRead(_) => SendHandshake
      case SnapshotSent(_) => Register
      case Serving(_, Resyncing(_)) => SendResync
      case Serving(_, Idle) =>
        if s.queue != [] then Forward
        else if s.up != [] then (if s.up[0].Ack? then ReadAck else ReadResync)
        else Deliver
  }

  /** The states with no internal step left are exactly the quiescent ones. */
  lemma Progress(s: State)
    requires Safe(s)
    ensures AtRest(s) <==> Quiescent(s)
  {
    if !Quiescent(s) {
      assert Internal(NextStep(s)) && Enabled(s, NextStep(s));
    }
  }

  // ---------------------------------------------------------------- convergence

  /** A descending sequence of natural numbers is no longer than its first. */
  lemma {:induction false} Descends(ms: seq<int>, i: nat)
    requires i < |ms| && ms[|ms| - 1] >= 0 && forall k | 0 < k < |ms| :: ms[k] < ms[k - 1]
    ensures |ms| - 1 - i <= ms[i]
    decreases |ms| - i
  {
    if i + 1 < |ms| {
      Descends(ms, i + 1);
    }
  }

  lemma InternalDown(s: State, s': State)
    requires Safe(s) && InternalNext(s, s')
    ensures Safe(s') && Measure(s') < Measure(s) && s'.history == s.history
  {
    var step :| Internal(step) && Enabled(s, step) && s' == Apply(s, step);
    MeasureDecreases(s, step);
    SameHistory(s, step);
  }

  lemma SameHistory(s: State, step: Step)
    requires Internal(step) && Enabled(s, step)
    ensures Apply(s, step).history == s.history
  {
  }

  /** States that follow each other by internal steps. */
  ghost predicate InternalRun(r: seq<State>) {
    |r| > 0 && Safe(r[0]) && InternalFrom(r, 0)
  }

  lemma {:induction false} InternalRunKeeps(r: seq<State>, i: nat)
    requires InternalRun(r) && i < |r|
    ensures Safe(r[i]) && r[i].history == r[0].history
  {
    if i > 0 {
      InternalRunKeeps(r, i - 1);
      assert InternalAt(r, i - 1);
      InternalDown(r[i - 1], r[i]);
    }
  }

  function MeasureOr0(s: State): int {
    if s.pushed <= s.version < |s.history| then Measure(s) else 0
  }

  lemma InternalPair(r: seq<State>, k: nat)
    requires InternalRun(r) && 0 < k < |r|
    ensures MeasureOr0(r[k]) < MeasureOr0(r[k - 1])
  {
    InternalRunKeeps(r, k - 1);
    assert InternalAt(r, k - 1);
    InternalDown(r[k - 1], r[k]);
  }

  lemma InternalRunBounded(r: seq<State>)
    requires InternalRun(r)
    ensures |r| - 1 <= Measure(r[0])
    ensures Safe(r[|r| - 1]) && r[|r| - 1].history == r[0].history
  {
    var ms := seq(|r|, k requires 0 <= k < |r| => MeasureOr0(r[k]));
    forall k | 0 < k < |ms| ensures ms[k] < ms[k - 1] {
      InternalPair(r, k);
    }
    Descends(ms, 0);
    InternalRunKeeps(r, |r| - 1);
  }

  /** The part of a run from `first` on. */
  lemma InternalSuffix(r: seq<State>, first: nat)
    requires Run(r) && first < |r| && InternalFrom(r, first)
    ensures InternalRun(r[first..])
  {
    RunInvariant(r, first);
    forall k | 0 <= k < |r| - first - 1 ensures InternalAt(r[first..], k) {
      assert InternalAt(r, first + k);
    }
  }

  /**
   Once changes have stopped (only internal steps from `first` on), a run has at most
   `Measure` steps left; when none is left it is at rest, and there the agent holds the
   last version and exactly its table, provided that version was enqueued last on this
   connection, or labelled its handshake snapshot and nothing was enqueued after that.
   */
  lemma Convergence(r: seq<State>, first: nat)
    requires Run(r) && first < |r| && InternalFrom(r, first)
    ensures Safe(r[first]) && |r| - 1 - first <= Measure(r[first])
    ensures r[|r| - 1].history == r[first].history
    ensures RestsInSync(r[|r| - 1])
  {
    StepsLeft(r, first);
    EndReachable(r);
    RestSync(r[|r| - 1]);
  }

  /** At rest the state is quiescent, and in sync if its target is the current version. */
  ghost predicate RestsInSync(s: State) {
    AtRest(s) ==> Quiescent(s) && (Target(s) == s.version ==> Synced(s))
  }

  lemma StepsLeft(r: seq<State>, first: nat)
    requires Run(r) && first < |r| && InternalFrom(r, first)
    ensures Safe(r[first]) && |r| - 1 - first <= Measure(r[first])
    ensures r[|r| - 1].history == r[first].history
  {
    var tail := r[first..];
    InternalSuffix(r, first);
    InternalRunBounded(tail);
    assert tail[0] == r[first] && tail[|tail| - 1] == r[|r| - 1];
  }

  lemma EndReachable(r: seq<State>)
    requires Run(r)
    ensures Reachable(r[|r| - 1])
  {
  }

  lemma RestSync(s: State)
    requires Reachable(s)
    ensures RestsInSync(s)
  {
    if AtRest(s) {
      ReachableInvariant(s);
      Progress(s);
      QuiescentSync(s);
    }
  }

  /** The current version is settled and this connection, once up, is labelled with it. */
  ghost predicate FreshConnection(s: State) {
    && s.pushed == s.version == |s.history| - 1
    && s.enqueued.None?
    && (!s.conn.Offline? ==> s.conn.base == s.version)
  }

  lemma FreshStep(s: State, step: Step)
    requires FreshConnection(s) && Internal(step) && Enabled(s, step)
    ensures FreshConnection(Apply(s, step))
  {
  }

  lemma FreshNext(s: State, s': State)
    requires FreshConnection(s) && InternalNext(s, s')
    ensures FreshConnection(s')
  {
    var step :| Internal(step) && Enabled(s, step) && s' == Apply(s, step);
    FreshStep(s, step);
  }

  lemma StaysFresh(r: seq<State>, first: nat, i: nat)
    requires first <= i < |r| && FreshConnection(r[first]) && InternalFrom(r, first)
    ensures FreshConnection(r[i])
  {
    var bs := seq(|r|, k requires 0 <= k < |r| => FreshConnection(r[k]));
    forall k | first < k < |bs| ensures bs[k - 1] ==> bs[k] {
      assert InternalAt(r, k - 1);
      if FreshConnection(r[k - 1]) {
        FreshNext(r[k - 1], r[k]);
      }
    }
    Persists(bs, first, i);
  }

  /** A reconnect after the last change always ends with the agent in sync. */
  lemma ReconnectConverges(r: seq<State>, first: nat)
    requires Run(r) && first < |r|
    requires r[first].conn.Offline? && r[first].pushed == r[first].version == |r[first].history| - 1
    requires InternalFrom(r, first)
    requires AtRest(r[|r| - 1])
    ensures Synced(r[|r| - 1])
  {
    RunInvariant(r, first);
    StaysFresh(r, first, |r| - 1);
    Convergence(r, first);
  }

  // ---------------------------------------------------------------- what is not promised

  lemma StepReaches(s: State, step: Step)
    requires Reachable(s) && Enabled(s, step)
    ensures Reachable(Apply(s, step))
  {
    var r :| Run(r) && r[|r| - 1] == s;
    var r' := r + [Apply(s, step)];
    assert Run(r') by {
      forall i | 0 <= i < |r'| - 1 ensures NextAt(r', i) {
        assert i < |r| - 1 ==> NextAt(r, i);
      }
    }
    assert r'[|r'| - 1] == Apply(s, step);
  }

  function Start(t: Table): State {
    State([t], 0, 0, Offline, [], [], [], NoSession, None, {}, None, false, StatusPending)
  }

  lemma StartReachable(t: Table)
    ensures Reachable(Start(t))
  {
    assert Run([Start(t)]);
    assert [Start(t)][|[Start(t)]| - 1] == Start(t);
  }

  /** Connected at version 0; the push of version 1 came before the channel was registered. */
  function Missed(t: Table, u: Table): State {
    State([t, u], 1, 1, Serving(0, Idle), [], [], [], Session(0, t), Some(0), {0}, None, false, StatusSynced)
  }

  /** The handshake snapshot is out, version 1 has been pushed to nobody. */
  function Unregistered(t: Table, u: Table): State {
    State([t, u], 1, 1, SnapshotSent(0), [], [Snapshot(0, t)], [], NoSession, None, {}, None, false, StatusPending)
  }

  lemma UnregisteredReachable(t: Table, u: Table)
    ensures Reachable(Unregistered(t, u))
  {
    StartReachable(t);
    var s0 := Start(t);
    StepReaches(s0, ReadLabel);
    var s1 := Apply(s0, ReadLabel);
    StepReaches(s1, SendHandshake);
    var s2 := Apply(s1, SendHandshake);
    StepReaches(s2, Commit(u));
    var s3 := Apply(s2, Commit(u));
    StepReaches(s3, Bump);
    var s4 := Apply(s3, Bump);
    StepReaches(s4, PushSnapshot(1));
    assert Apply(s4, PushSnapshot(1)) == Unregistered(t, u);
  }

  lemma MissedReachable(t: Table, u: Table)
    ensures Reachable(Missed(t, u))
  {
    UnregisteredReachable(t, u);
    var s0 := Unregistered(t, u);
    StepReaches(s0, Register);
    var s1 := Apply(s0, Register);
    StepReaches(s1, Deliver);
    var s2 := Apply(s1, Deliver);
    StepReaches(s2, ReadAck);
    assert Apply(s2, ReadAck) == Missed(t, u);
  }

  /**
   A push before registration is lost: the run is at rest with the agent out of date, although
   the server has recorded its last acknowledgement and shows it as synced.
   */
  lemma LostPush(t: Table, u: Table)
    ensures Reachable(Missed(t, u)) && Quiescent(Missed(t, u)) && !Synced(Missed(t, u))
    ensures Missed(t, u).recorded == Some(0) && Missed(t, u).version == 1 && Missed(t, u).status.StatusSynced?
  {
    MissedReachable(t, u);
  }

  /** Versions 1 and 2 are bumped before the handshake, which is labelled 2; only then they are pushed. */
  function Labelled(t: Table, u: Table, w: Table): State {
    State([t, u, w], 2, 0, Serving(2, Idle), [], [Snapshot(2, w)], [], NoSession, None, {}, None, false, StatusPending)
  }

  /** Version 1 has come as a snapshot, and the push of version 2 has failed. */
  function FellBehind(t: Table, u: Table, w: Table): State {
    State([t, u, w], 2, 2, Serving(2, Idle), [], [], [], Session(1, u), Some(1), {1, 2}, Some(1), true, StatusSynced)
  }

  lemma LabelledReachable(t: Table, u: Table, w: Table)
    ensures Reachable(Labelled(t, u, w))
  {
    StartReachable(t);
    var s0 := Start(t);
    StepReaches(s0, Commit(u));
    var s1 := Apply(s0, Commit(u));
    StepReaches(s1, Bump);
    var s2 := Apply(s1, Bump);
    StepReaches(s2, Commit(w));
    var s3 := Apply(s2, Commit(w));
    StepReaches(s3, Bump);
    var s4 := Apply(s3, Bump);
    StepReaches(s4, ReadLabel);
    var s5 := Apply(s4, ReadLabel);
    StepReaches(s5, SendHandshake);
    var s6 := Apply(s5, SendHandshake);
    StepReaches(s6, Register);
    assert Apply(s6, Register) == Labelled(t, u, w);
  }

  /** Version 1 is queued behind the handshake snapshot. */
  function Overtaking(t: Table, u: Table, w: Table): State {
    Labelled(t, u, w).(pushed := 2, queue := [Snapshot(1, u)], enqueued := Some(1), pushFailed := true)
  }

  lemma OvertakingReachable(t: Table, u: Table, w: Table)
    ensures Reachable(Overtaking(t, u, w))
  {
    LabelledReachable(t, u, w);
    var s0 := Labelled(t, u, w);
    StepReaches(s0, PushSnapshot(1));
    var s1 := Apply(s0, PushSnapshot(1));
    StepReaches(s1, PushFail);
    assert Apply(s1, PushFail) == Overtaking(t, u, w);
  }

  lemma FellBehindReachable(t: Table, u: Table, w: Table)
    ensures Reachable(FellBehind(t, u, w))
  {
    OvertakingReachable(t, u, w);
    var s0 := Overtaking(t, u, w);
    StepReaches(s0, Deliver);
    var s1 := Apply(s0, Deliver);
    StepReaches(s1, Forward);
    var s2 := Apply(s1, Forward);
    StepReaches(s2, Deliver);
    var s3 := Apply(s2, Deliver);
    StepReaches(s3, ReadAck);
    var s4 := Apply(s3, ReadAck);
    StepReaches(s4, ReadAck);
    assert Apply(s4, ReadAck) == FellBehind(t, u, w);
  }

  /**
   That the handshake was labelled with the last version is not enough once anything has been
   enqueued after it: here the label is the last version, an older snapshot followed it, and the
   run is at rest out of sync.
   */
  lemma LabelNotEnough(t: Table, u: Table, w: Table)
    ensures var s := FellBehind(t, u, w);
      Reachable(s) && Quiescent(s) && s.conn.base == s.version && Target(s) != s.version && !Synced(s)
  {
    FellBehindReachable(t, u, w);
  }
}
