/**
 When the applied version can go back.

 A snapshot's label is read before anything already queued has left the queue, and before
 versions already bumped have been pushed. If one of those comes as a snapshot, it reaches the
 agent after the newer label. This can happen to the label of the handshake as well as to that
 of a resync. Whether it can is decided when the label is read.
 */
module ConfigMonotone {
  import opened Prelude
  import opened Routes
  import opened ConfigProtocol
  import opened ConfigConvergence

  /** The step takes the version of a snapshot to be sent at once. */
  predicate ReadsLabel(step: Step) {
    step.ReadLabel? || step.ReadResync?
  }

  predicate Older(m: Msg, version: nat) {
    m.Snapshot? && m.version < version
  }

  /** No snapshot older than the current version is queued, and at most the current one is still to be pushed. */
  predicate Clean(s: State) {
    s.version <= s.pushed + 1 && forall i | 0 <= i < |s.queue| :: !Older(s.queue[i], s.version)
  }

  function Applied(s: State): nat {
    if s.agent.Session? then s.agent.applied else 0
  }

  /** Steps of one connection whose labels are all read when that is clean. */
  ghost predicate Careful(ps: seq<State>, ss: seq<Step>) {
    && Path(ps, ss)
    && forall i | 0 <= i < |ss| :: !ss[i].Disconnect? && (ReadsLabel(ss[i]) ==> Clean(ps[i]))
  }

  // ---------------------------------------------------------------- the line to the agent

  datatype Item = Item(version: nat, snapshot: bool)

  function Items(ms: seq<Msg>): seq<Item> {
    seq(|ms|, i requires 0 <= i < |ms| => Item(ms[i].version, ms[i].Snapshot?))
  }

  /** A label read counts like the snapshot it will become. */
  function Label(c: Conn): seq<Item> {
    match c
    case LabelRead(base) => [Item(base, true)]
    case Serving(_, Resyncing(l)) => [Item(l, true)]
    case _ => []
  }

  /** What is on its way to the agent, in the order it will arrive. */
  function Line(s: State): seq<Item> {
    Items(s.down) + Label(s.conn) + Items(s.queue)
  }

  /**
   No snapshot in the line is older than `first` or than anything before it in the line, and
   nothing is newer than `last`.
   */
  ghost predicate Rising(first: nat, line: seq<Item>, last: nat)
    decreases |line|
  {
    if line == [] then first <= last
    else
      && line[0].version <= last
      && (line[0].snapshot ==> first <= line[0].version)
      && Rising(Max(first, line[0].version), line[1..], last)
  }

  ghost predicate Ordered(s: State) {
    Rising(Applied(s), Line(s), s.pushed + 1)
  }

  lemma {:induction false} RisingAppend(first: nat, line: seq<Item>, last: nat, item: Item)
    requires Rising(first, line, last) && item.version == last
    ensures Rising(first, line + [item], last + 1)
    decreases |line|
  {
    if line != [] {
      assert (line + [item])[1..] == line[1..] + [item];
      RisingAppend(Max(first, line[0].version), line[1..], last, item);
    }
  }

  lemma {:induction false} RisingLower(lower: nat, first: nat, line: seq<Item>, last: nat)
    requires Rising(first, line, last) && lower <= first
    ensures Rising(lower, line, last)
    decreases |line|
  {
    if line != [] {
      RisingLower(Max(lower, line[0].version), Max(first, line[0].version), line[1..], last);
    }
  }

  lemma {:induction false} RisingHigher(first: nat, higher: nat, line: seq<Item>, last: nat)
    requires Rising(first, line, last) && first <= higher <= last
    requires forall i | 0 <= i < |line| && line[i].snapshot :: higher <= line[i].version
    ensures Rising(higher, line, last)
    decreases |line|
  {
    if line != [] {
      var v := line[0].version;
      RisingFloor(Max(first, v), line[1..], last);
      RisingHigher(Max(first, v), Max(higher, v), line[1..], last);
    }
  }

  lemma {:induction false} RisingFloor(first: nat, line: seq<Item>, last: nat)
    requires Rising(first, line, last)
    ensures forall i | 0 <= i < |line| && line[i].snapshot :: first <= line[i].version
    decreases |line|
  {
    if line != [] {
      RisingFloor(Max(first, line[0].version), line[1..], last);
      assert forall i | 0 < i < |line| :: line[i] == line[1..][i - 1];
    }
  }

  /** A snapshot no older than what is before it, and no newer than the snapshots behind it. */
  lemma {:induction false} RisingInsert(first: nat, front: seq<Item>, back: seq<Item>, last: nat, v: nat)
    requires Rising(first, front + back, last) && first <= v <= last
    requires forall i | 0 <= i < |front| :: front[i].version <= v
    requires forall i | 0 <= i < |back| && back[i].snapshot :: v <= back[i].version
    ensures Rising(first, front + ([Item(v, true)] + back), last)
    decreases |front|
  {
    var rest := [Item(v, true)] + back;
    if front == [] {
      assert front + back == back && front + rest == rest && rest[1..] == back;
      RisingHigher(first, v, back, last);
    } else {
      assert (front + back)[1..] == front[1..] + back && (front + rest)[1..] == front[1..] + rest;
      RisingInsert(Max(first, front[0].version), front[1..], back, last, v);
    }
  }

  /** The first of the line reaches the agent, who takes it or refuses it. */
  lemma RisingTail(first: nat, line: seq<Item>, last: nat, next: nat)
    requires line != [] && Rising(first, line, last) && (next == first || next == line[0].version)
    ensures Rising(next, line[1..], last)
  {
    RisingLower(next, Max(first, line[0].version), line[1..], last);
  }

  lemma ItemsAppend(ms: seq<Msg>, m: Msg)
    ensures Items(ms + [m]) == Items(ms) + [Item(m.version, m.Snapshot?)]
  {
  }

  /** The step keeps the order, and the applied version from going back. */
  ghost predicate KeepsOrder(s: State, step: Step)
    requires Enabled(s, step)
  {
    Ordered(Apply(s, step)) && Applied(s) <= Applied(Apply(s, step))
  }

  lemma EnqueueOrdered(s: State, m: Msg)
    requires Ordered(s) && m.version == s.pushed + 1
    ensures Ordered(Enqueue(s, m)) && Applied(Enqueue(s, m)) == Applied(s)
  {
    if s.conn.Serving? {
      var item := Item(m.version, m.Snapshot?);
      ItemsAppend(s.queue, m);
      assert Line(Enqueue(s, m)) == Line(s) + [item];
      RisingAppend(Applied(s), Line(s), s.pushed + 1, item);
    } else {
      assert Line(Enqueue(s, m)) == Line(s);
      RisingLast(Applied(s), Line(s), s.pushed + 1, s.pushed + 2);
    }
  }

  lemma {:induction false} RisingLast(first: nat, line: seq<Item>, last: nat, later: nat)
    requires Rising(first, line, last) && last <= later
    ensures Rising(first, line, later)
    decreases |line|
  {
    if line != [] {
      RisingLast(Max(first, line[0].version), line[1..], last, later);
    }
  }

  lemma OrderedUpdate(s: State, d: RouteDelta)
    requires Ordered(s) && Enabled(s, PushUpdate(d))
    ensures KeepsOrder(s, PushUpdate(d))
  {
    EnqueueOrdered(s, Update(s.pushed + 1, d));
  }

  lemma OrderedSnapshot(s: State, at: nat)
    requires Ordered(s) && Enabled(s, PushSnapshot(at))
    ensures KeepsOrder(s, PushSnapshot(at))
  {
    EnqueueOrdered(s, Snapshot(s.pushed + 1, s.history[at]));
  }

  lemma OrderedPushFail(s: State)
    requires Ordered(s) && Enabled(s, PushFail)
    ensures KeepsOrder(s, PushFail)
  {
    assert Line(Apply(s, PushFail)) == Line(s);
    RisingLast(Applied(s), Line(s), s.pushed + 1, s.pushed + 2);
  }

  lemma OrderedForward(s: State)
    requires Ordered(s) && Enabled(s, Forward)
    ensures KeepsOrder(s, Forward)
  {
    ItemsAppend(s.down, s.queue[0]);
    assert Items(s.queue) == [Item(s.queue[0].version, s.queue[0].Snapshot?)] + Items(s.queue[1..]);
    assert Line(Apply(s, Forward)) == Line(s);
  }

  lemma OrderedDeliver(s: State)
    requires Ordered(s) && Enabled(s, Deliver)
    ensures KeepsOrder(s, Deliver)
  {
    var s' := Apply(s, Deliver);
    assert Items(s.down)[1..] == Items(s.down[1..]);
    assert Line(s') == Line(s)[1..];
    assert Line(s)[0] == Items(s.down)[0];
    RisingTail(Applied(s), Line(s), s.pushed + 1, Applied(s'));
  }

  /** The version becomes a label, between what was sent and what is queued. */
  lemma InsertLabel(s: State, s': State)
    requires Safe(s) && Ordered(s) && Clean(s) && Label(s.conn) == [] && Label(s'.conn) == [Item(s.version, true)]
    requires s'.down == s.down && s'.queue == s.queue && s'.pushed == s.pushed && s'.agent == s.agent
    ensures Ordered(s')
  {
    var front, back := Items(s.down), Items(s.queue);
    assert Line(s) == front + back;
    assert Line(s') == front + ([Item(s.version, true)] + back);
    VersionsBound(s);
    RisingInsert(Applied(s), front, back, s.pushed + 1, s.version);
  }

  /** Nothing sent is newer than the version; and if that is clean, no snapshot queued is older. */
  lemma VersionsBound(s: State)
    requires Safe(s) && Clean(s)
    ensures Applied(s) <= s.version <= s.pushed + 1
    ensures forall i | 0 <= i < |s.down| :: Items(s.down)[i].version <= s.version
    ensures forall i | 0 <= i < |s.queue| && Items(s.queue)[i].snapshot :: s.version <= Items(s.queue)[i].version
  {
    forall i | 0 <= i < |s.down| ensures Items(s.down)[i].version <= s.version {
      assert MsgOk(s.history, s.version, s.down[i]);
    }
    forall i | 0 <= i < |s.queue| && Items(s.queue)[i].snapshot ensures s.version <= Items(s.queue)[i].version {
      assert !Older(s.queue[i], s.version);
    }
  }

  lemma OrderedReadLabel(s: State)
    requires Safe(s) && Ordered(s) && Clean(s) && Enabled(s, ReadLabel)
    ensures KeepsOrder(s, ReadLabel)
  {
    InsertLabel(s, Apply(s, ReadLabel));
  }

  lemma OrderedReadResync(s: State)
    requires Safe(s) && Ordered(s) && Clean(s) && Enabled(s, ReadResync)
    ensures KeepsOrder(s, ReadResync)
  {
    InsertLabel(s, Apply(s, ReadResync));
  }

  lemma OrderedHandshake(s: State)
    requires Safe(s) && Ordered(s) && Enabled(s, SendHandshake)
    ensures KeepsOrder(s, SendHandshake)
  {
    assert Line(Apply(s, SendHandshake)) == Line(s);
  }

  lemma OrderedResync(s: State)
    requires Ordered(s) && Enabled(s, SendResync)
    ensures KeepsOrder(s, SendResync)
  {
    ItemsAppend(s.down, Snapshot(s.conn.control.resyncLabel, Current(s)));
    assert Line(Apply(s, SendResync)) == Line(s);
  }

  lemma OrderedOther(s: State, step: Step)
    requires Ordered(s) && Enabled(s, step)
    requires step.Commit? || step.Bump? || step.Register? || step.ReadAck?
    ensures KeepsOrder(s, step)
  {
    assert Line(Apply(s, step)) == Line(s);
  }

  lemma OrderedStep(s: State, step: Step)
    requires Safe(s) && Ordered(s) && Enabled(s, step) && !step.Disconnect?
    requires ReadsLabel(step) ==> Clean(s)
    ensures KeepsOrder(s, step)
  {
    match step {
      case PushUpdate(d) => OrderedUpdate(s, d);
      case PushSnapshot(at) => OrderedSnapshot(s, at);
      case PushFail => OrderedPushFail(s);
      case Forward => OrderedForward(s);
      case Deliver => OrderedDeliver(s);
      case ReadLabel => OrderedReadLabel(s);
      case ReadResync => OrderedReadResync(s);
      case SendHandshake => OrderedHandshake(s);
      case SendResync => OrderedResync(s);
      case _ => OrderedOther(s, step);
    }
  }

  // ---------------------------------------------------------------- clean labels

  lemma CarefulStep(s: State, step: Step, s': State)
    requires Safe(s) && Ordered(s) && Enabled(s, step) && s' == Apply(s, step)
    requires !step.Disconnect? && (ReadsLabel(step) ==> Clean(s))
    ensures Safe(s') && Ordered(s') && Applied(s) <= Applied(s')
  {
    SafeStep(s, step);
    OrderedStep(s, step);
  }

  lemma CarefulNext(ps: seq<State>, ss: seq<Step>, i: nat)
    requires Careful(ps, ss) && 0 < i < |ps| && Safe(ps[i - 1]) && Ordered(ps[i - 1])
    ensures Safe(ps[i]) && Ordered(ps[i]) && Applied(ps[i - 1]) <= Applied(ps[i])
  {
    assert Taken(ps, ss, i - 1);
    CarefulStep(ps[i - 1], ss[i - 1], ps[i]);
  }

  lemma {:induction false} CarefulOrdered(ps: seq<State>, ss: seq<Step>, i: nat)
    requires Careful(ps, ss) && Safe(ps[0]) && Ordered(ps[0]) && i < |ps|
    ensures Safe(ps[i]) && Ordered(ps[i])
    ensures i > 0 ==> Applied(ps[i - 1]) <= Applied(ps[i])
  {
    if i > 0 {
      CarefulOrdered(ps, ss, i - 1);
      CarefulNext(ps, ss, i);
    }
  }

  /** A connection not yet begun has nothing on its way. */
  lemma OfflineOrdered(s: State)
    requires Safe(s) && s.conn.Offline?
    ensures Ordered(s)
  {
    assert Line(s) == [];
  }

  ghost predicate NotBelow(ps: seq<State>, k: nat)
    requires 0 < k < |ps|
  {
    Applied(ps[k - 1]) <= Applied(ps[k])
  }

  lemma {:induction false} NonDecreasing(ps: seq<State>, i: nat, j: nat)
    requires i <= j < |ps| && forall k | 0 < k < |ps| :: NotBelow(ps, k)
    ensures Applied(ps[i]) <= Applied(ps[j])
    decreases j
  {
    if i < j {
      NonDecreasing(ps, i, j - 1);
      assert NotBelow(ps, j);
    }
  }

  lemma CarefulPair(ps: seq<State>, ss: seq<Step>, k: nat)
    requires Careful(ps, ss) && Safe(ps[0]) && Ordered(ps[0]) && 0 < k < |ps|
    ensures Applied(ps[k - 1]) <= Applied(ps[k])
  {
    CarefulOrdered(ps, ss, k);
  }

  lemma CarefulMonotone(ps: seq<State>, ss: seq<Step>, i: nat, j: nat)
    requires Careful(ps, ss) && Safe(ps[0]) && Ordered(ps[0]) && i <= j < |ps|
    ensures Applied(ps[i]) <= Applied(ps[j])
  {
    forall k | 0 < k < |ps| ensures NotBelow(ps, k) {
      CarefulPair(ps, ss, k);
    }
    NonDecreasing(ps, i, j);
  }

  /** As long as every label of a connection is read clean, the applied version never goes back on it. */
  lemma AppliedMonotone(ps: seq<State>, ss: seq<Step>, i: nat, j: nat)
    requires Careful(ps, ss) && Reachable(ps[0]) && ps[0].conn.Offline? && i <= j < |ps|
    ensures Applied(ps[i]) <= Applied(ps[j])
  {
    ReachableInvariant(ps[0]);
    OfflineOrdered(ps[0]);
    CarefulMonotone(ps, ss, i, j);
  }

  // ---------------------------------------------------------------- other labels

  /** Steps of this connection, all further labels read clean, can take the applied version back. */
  ghost predicate CanGoBack(s: State) {
    exists ps, ss :: GoesBack(s, ps, ss)
  }

  ghost predicate GoesBack(s: State, ps: seq<State>, ss: seq<Step>) {
    && Careful(ps, ss) && ps[0] == s && |ss| > 0
    && Applied(ps[|ss|]) < Applied(ps[|ss| - 1])
  }

  lemma BackNow(s: State)
    requires Enabled(s, Deliver) && Applied(Apply(s, Deliver)) < Applied(s)
    ensures CanGoBack(s)
  {
    assert GoesBack(s, [s, Apply(s, Deliver)], [Deliver]);
  }

  lemma BackLater(s: State, step: Step)
    requires Enabled(s, step) && !step.Disconnect? && !ReadsLabel(step) && CanGoBack(Apply(s, step))
    ensures CanGoBack(s)
  {
    var ps, ss :| GoesBack(Apply(s, step), ps, ss);
    BackCons(s, step, ps, ss);
  }

  lemma BackCons(s: State, step: Step, ps: seq<State>, ss: seq<Step>)
    requires Enabled(s, step) && !step.Disconnect? && !ReadsLabel(step) && GoesBack(Apply(s, step), ps, ss)
    ensures GoesBack(s, [s] + ps, [step] + ss)
  {
    CarefulCons(s, step, ps, ss);
    var ps', n := [s] + ps, |ss|;
    assert ps'[n + 1] == ps[n] && ps'[n] == ps[n - 1];
  }

  lemma CarefulCons(s: State, step: Step, ps: seq<State>, ss: seq<Step>)
    requires Careful(ps, ss) && Enabled(s, step) && ps[0] == Apply(s, step)
    requires !step.Disconnect? && !ReadsLabel(step)
    ensures Careful([s] + ps, [step] + ss)
  {
    var ps', ss' := [s] + ps, [step] + ss;
    forall i | 0 <= i < |ss'|
      ensures Taken(ps', ss', i)
      ensures !ss'[i].Disconnect? && (ReadsLabel(ss'[i]) ==> Clean(ps'[i]))
    {
      if i > 0 {
        assert Taken(ps, ss, i - 1);
        assert ps'[i] == ps[i - 1] && ps'[i + 1] == ps[i] && ss'[i] == ss[i - 1];
      }
    }
  }

  ghost predicate HasOlder(queue: seq<Msg>, version: nat) {
    exists i | 0 <= i < |queue| :: Older(queue[i], version)
  }

  /** The first queued message is sent and delivered. */
  lemma ForwardDeliver(s: State)
    requires Safe(s) && s.conn.Serving? && s.conn.control.Idle? && s.down == [] && s.agent.Session? && s.queue != []
    ensures Enabled(s, Forward) && Enabled(Apply(s, Forward), Deliver)
    ensures var s2 := Apply(Apply(s, Forward), Deliver);
      && Safe(s2) && s2.conn == s.conn && s2.down == [] && s2.queue == s.queue[1..]
      && s2.agent == AgentReceives(s.agent, s.queue[0]).0
    ensures Apply(s, Forward).agent == s.agent
  {
    SafeStep(s, Forward);
    SafeStep(Apply(s, Forward), Deliver);
    assert Apply(s, Forward).down == [s.queue[0]];
  }

  /** The agent is at `v` or beyond and the next messages are the queued ones, one older snapshot among them. */
  lemma {:induction false} QueueGoesBack(s: State, v: nat)
    requires Safe(s) && s.conn.Serving? && s.conn.control.Idle? && s.down == []
    requires s.agent.Session? && s.agent.applied >= v && HasOlder(s.queue, v)
    ensures CanGoBack(s)
    decreases |s.queue|
  {
    ForwardDeliver(s);
    var s1 := Apply(s, Forward);
    var s2 := Apply(s1, Deliver);
    if Older(s.queue[0], v) {
      BackNow(s1);
    } else {
      OlderBehind(s.queue, v);
      QueueGoesBack(s2, v);
      BackLater(s1, Deliver);
    }
    BackLater(s, Forward);
  }

  lemma OlderBehind(queue: seq<Msg>, v: nat)
    requires HasOlder(queue, v) && !Older(queue[0], v)
    ensures HasOlder(queue[1..], v)
  {
    var i :| 0 <= i < |queue| && Older(queue[i], v);
    assert Older(queue[1..][i - 1], v);
  }

  /** The stream ends with a snapshot of version `v`, and an older one is queued behind it. */
  lemma {:induction false} StreamGoesBack(s: State, v: nat)
    requires Safe(s) && s.conn.Serving? && s.conn.control.Idle? && HasOlder(s.queue, v)
    requires s.down != [] && s.down[|s.down| - 1].Snapshot? && s.down[|s.down| - 1].version == v
    ensures CanGoBack(s)
    decreases |s.down|
  {
    var s1 := Apply(s, Deliver);
    SafeStep(s, Deliver);
    if |s.down| == 1 {
      QueueGoesBack(s1, v);
    } else {
      StreamGoesBack(s1, v);
    }
    BackLater(s, Deliver);
  }

  /** The snapshot has been written; the older one is queued already, or it is pushed next. */
  lemma WrittenGoesBack(s: State, v: nat)
    requires Safe(s) && s.conn.Serving? && s.conn.control.Idle?
    requires s.down != [] && s.down[|s.down| - 1].Snapshot? && s.down[|s.down| - 1].version == v
    requires HasOlder(s.queue, v) || s.pushed + 1 < v <= s.version
    ensures CanGoBack(s)
  {
    if HasOlder(s.queue, v) {
      StreamGoesBack(s, v);
    } else {
      var step := PushSnapshot(s.pushed + 1);
      var s1 := Apply(s, step);
      SafeStep(s, step);
      assert Older(s1.queue[|s.queue|], v);
      StreamGoesBack(s1, v);
      BackLater(s, step);
    }
  }

  lemma ResyncGoesBack(s: State)
    requires Safe(s) && Enabled(s, ReadResync) && !Clean(s)
    ensures CanGoBack(Apply(s, ReadResync))
  {
    var s1 := Apply(s, ReadResync);
    var s2 := Apply(s1, SendResync);
    SafeStep(s, ReadResync);
    SafeStep(s1, SendResync);
    assert s2.queue == s.queue;
    WrittenGoesBack(s2, s.version);
    BackLater(s1, SendResync);
  }

  lemma HandshakeGoesBack(s: State)
    requires Safe(s) && Enabled(s, ReadLabel) && !Clean(s)
    ensures CanGoBack(Apply(s, ReadLabel))
  {
    var s1 := Apply(s, ReadLabel);
    var s2 := Apply(s1, SendHandshake);
    var s3 := Apply(s2, Register);
    SafeStep(s, ReadLabel);
    SafeStep(s1, SendHandshake);
    SafeStep(s2, Register);
    WrittenGoesBack(s3, s.version);
    BackLater(s2, Register);
    BackLater(s1, SendHandshake);
  }

  /** While the line to the agent is in order, there is no way back. */
  lemma OrderedStays(s: State)
    requires Safe(s) && Ordered(s)
    ensures !CanGoBack(s)
  {
    forall qs, ts ensures !GoesBack(s, qs, ts) {
      NoWayBack(s, qs, ts);
    }
  }

  lemma NoWayBack(s: State, qs: seq<State>, ts: seq<Step>)
    requires Safe(s) && Ordered(s)
    ensures !GoesBack(s, qs, ts)
  {
    if Careful(qs, ts) && qs[0] == s && |ts| > 0 {
      CarefulPair(qs, ts, |ts|);
    }
  }

  /**
   Exactly: on a connection whose labels have been read clean so far, reading the next one
   leaves a way for the applied version to go back if and only if it is not clean.
   */
  lemma GoesBackExactly(ps: seq<State>, ss: seq<Step>, step: Step)
    requires Careful(ps, ss) && Reachable(ps[0]) && ps[0].conn.Offline?
    requires ReadsLabel(step) && Enabled(ps[|ss|], step)
    ensures CanGoBack(Apply(ps[|ss|], step)) <==> !Clean(ps[|ss|])
  {
    var s := ps[|ss|];
    ReachableInvariant(ps[0]);
    OfflineOrdered(ps[0]);
    CarefulOrdered(ps, ss, |ss|);
    if Clean(s) {
      SafeStep(s, step);
      OrderedStep(s, step);
      OrderedStays(Apply(s, step));
    } else {
      UncleanGoesBack(s, step);
    }
  }

  /** From any reachable state, whatever happened before. */
  lemma UncleanGoesBack(s: State, step: Step)
    requires Safe(s) && ReadsLabel(step) && Enabled(s, step) && !Clean(s)
    ensures CanGoBack(Apply(s, step))
  {
    if step.ReadLabel? {
      HandshakeGoesBack(s);
    } else {
      ResyncGoesBack(s);
    }
  }

  /** Two versions ahead of what has been pushed, with no connection. */
  function Ahead(t: Table): State {
    Start(t).(history := [t, t, t], version := 2)
  }

  /** So it happens without any resync: two changes are bumped before the handshake and pushed after it. */
  lemma HandshakeCanGoBack(t: Table)
    ensures Reachable(Ahead(t)) && Enabled(Ahead(t), ReadLabel) && CanGoBack(Apply(Ahead(t), ReadLabel))
  {
    StartReachable(t);
    var s0 := Start(t);
    StepReaches(s0, Commit(t));
    var s1 := Apply(s0, Commit(t));
    StepReaches(s1, Bump);
    var s2 := Apply(s1, Bump);
    StepReaches(s2, Commit(t));
    var s3 := Apply(s2, Commit(t));
    StepReaches(s3, Bump);
    assert Apply(s3, Bump) == Ahead(t);
    ReachableInvariant(Ahead(t));
    UncleanGoesBack(Ahead(t), ReadLabel);
  }
}
