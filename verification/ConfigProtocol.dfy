/**
 The configuration protocol of one node: server, push queue, control stream, agent.

 `history` lists every route table the database has held, oldest first; version k of the
 configuration is table `history[k]`. A change commits its table, then bumps the version,
 then pushes a message (server/src/api/routes.rs, server/src/config_sync.rs); each of the
 three is a step of its own, so others may come in between. Pushes are made in version
 order, and there is at most one live connection.

 A snapshot is labelled with a version read earlier than its routes
 (server/src/quic.rs), so its table may be newer than its label.
 */
module ConfigProtocol {
  import opened Prelude
  import opened Routes

  /** Server to agent. */
  datatype Msg =
    | Snapshot(version: nat, routes: Table)
    | Update(version: nat, delta: RouteDelta)

  /** Agent to server. */
  datatype Reply =
    | Ack(version: nat)
    | Resync(lastApplied: nat)

  /** What the server side of the control stream is doing. */
  datatype Control =
    | Idle
    | Resyncing(resyncLabel: nat)  // has read the version, not yet the routes

  /** `base` is the label of the handshake snapshot. */
  datatype Conn =
    | Offline
    | LabelRead(base: nat)     // authenticated: the version is read, the routes are not
    | SnapshotSent(base: nat)  // handshake snapshot written, push channel not registered
    | Serving(base: nat, control: Control)

  datatype Agent =
    | NoSession
    | Session(applied: nat, table: Table)

  /** The column nodes.config_status, as far as the protocol writes it. */
  datatype Status = StatusPending | StatusSynced

  datatype State = State(
    history: seq<Table>,
    version: nat,               // nodes.config_version
    pushed: nat,                // the push of every version up to here has been made
    conn: Conn,
    queue: seq<Msg>,            // the push channel of this connection
    down: seq<Msg>,             // control stream, server to agent
    up: seq<Reply>,             // control stream, agent to server
    agent: Agent,
    recorded: Option<nat>,      // nodes.applied_config_version
    adopted: set<nat>,          // every version the agent has adopted
    enqueued: Option<nat>,      // the last version enqueued on this connection
    pushFailed: bool,           // a push failed since this connection was registered
    status: Status)             // nodes.config_status

  // ---------------------------------------------------------------- the agent

  /** The agent's reaction to one control message, with the reply it sends. */
  function AgentReceives(a: Agent, m: Msg): (Agent, Reply)
    requires a.NoSession? ==> m.Snapshot?
  {
    match m
    case Snapshot(v, t) => (Session(v, t), Ack(v))
    case Update(v, d) =>
      if v == a.applied + 1
      then (Session(v, ApplyDelta(a.table, d)), Ack(v))
      else (a, Resync(a.applied))
  }

  // ---------------------------------------------------------------- steps

  ghost predicate Init(s: State) {
    && |s.history| > 0
    && s.version == s.pushed == |s.history| - 1
    && s == State(s.history, s.version, s.pushed, Offline, [], [], [], NoSession, None, {}, None, false, StatusPending)
  }

  datatype Step =
    | Commit(newTable: Table)
    | Bump
    | PushUpdate(delta: RouteDelta)
    | PushSnapshot(at: nat)
    | PushFail
    | Disconnect
    | ReadLabel
    | SendHandshake
    | Register
    | Forward
    | ReadAck
    | ReadResync
    | SendResync
    | Deliver

  function Current(s: State): Table
    requires |s.history| > 0
  {
    s.history[|s.history| - 1]
  }

  /** The message goes to the push channel; without a registered channel it is dropped. */
  function Enqueue(s: State, m: Msg): State {
    if s.conn.Serving?
    then s.(queue := s.queue + [m], enqueued := Some(m.version), pushed := s.pushed + 1)
    else s.(pushed := s.pushed + 1)
  }

  ghost predicate Enabled(s: State, step: Step) {
    match step
    case Commit(_) => true
    case Bump => s.version + 1 < |s.history|
    case PushUpdate(d) =>
      && s.pushed < s.version && s.version < |s.history|
      && IsDelta(d, s.history[s.pushed], s.history[s.pushed + 1])
    case PushSnapshot(at) => s.pushed < s.version && s.pushed + 1 <= at < |s.history|
    case PushFail => s.pushed < s.version
    case Disconnect => true
    case ReadLabel => s.conn.Offline?
    case SendHandshake => s.conn.LabelRead? && |s.history| > 0
    case Register => s.conn.SnapshotSent?
    case Forward => s.conn.Serving? && s.conn.control.Idle? && s.queue != []
    case ReadAck => s.conn.Serving? && s.conn.control.Idle? && s.up != [] && s.up[0].Ack?
    case ReadResync => s.conn.Serving? && s.conn.control.Idle? && s.up != [] && s.up[0].Resync?
    case SendResync => s.conn.Serving? && s.conn.control.Resyncing? && |s.history| > 0
    case Deliver => s.down != [] && (s.agent.NoSession? ==> s.down[0].Snapshot?)
  }

  function Apply(s: State, step: Step): State
    requires Enabled(s, step)
  {
    match step
    case Commit(t) => s.(history := s.history + [t])
    case Bump => s.(version := s.version + 1, status := StatusPending)
    case PushUpdate(d) => Enqueue(s, Update(s.pushed + 1, d))
    case PushSnapshot(at) => Enqueue(s, Snapshot(s.pushed + 1, s.history[at]))
    case PushFail => s.(pushed := s.pushed + 1, pushFailed := true)
    case Disconnect =>
      s.(conn := Offline, queue := [], down := [], up := [], agent := NoSession, enqueued := None)
    case ReadLabel => s.(conn := LabelRead(s.version))
    case SendHandshake =>
      s.(conn := SnapshotSent(s.conn.base), down := [Snapshot(s.conn.base, Current(s))])
    case Register => s.(conn := Serving(s.conn.base, Idle), pushFailed := false)
    case Forward => s.(queue := s.queue[1..], down := s.down + [s.queue[0]])
    case ReadAck => s.(up := s.up[1..], recorded := Some(s.up[0].version), status := StatusSynced)
    case ReadResync => s.(up := s.up[1..], conn := s.conn.(control := Resyncing(s.version)))
    case SendResync =>
      s.(conn := s.conn.(control := Idle),
         down := s.down + [Snapshot(s.conn.control.resyncLabel, Current(s))])
    case Deliver =>
      var (agent, reply) := AgentReceives(s.agent, s.down[0]);
      s.(down := s.down[1..], agent := agent, up := s.up + [reply],
         adopted := if reply.Ack? then s.adopted + {reply.version} else s.adopted)
  }

  ghost predicate Next(s: State, s': State) {
    exists step :: Enabled(s, step) && s' == Apply(s, step)
  }

  /** A run from an initial state. */
  ghost predicate Run(r: seq<State>) {
    && |r| > 0 && Init(r[0])
    && forall i | 0 <= i < |r| - 1 :: NextAt(r, i)
  }

  ghost predicate NextAt(r: seq<State>, i: nat)
    requires i + 1 < |r|
  {
    Next(r[i], r[i + 1])
  }

  /** Some steps in a row, with the states before and after each. */
  ghost predicate Path(ps: seq<State>, ss: seq<Step>) {
    && |ps| == |ss| + 1
    && forall i | 0 <= i < |ss| :: Taken(ps, ss, i)
  }

  ghost predicate Taken(ps: seq<State>, ss: seq<Step>, i: nat)
    requires i < |ss| && |ps| == |ss| + 1
  {
    Enabled(ps[i], ss[i]) && ps[i + 1] == Apply(ps[i], ss[i])
  }

  ghost predicate Reachable(s: State) {
    exists r :: Run(r) && r[|r| - 1] == s
  }

  // ---------------------------------------------------------------- safety invariant

  /** `t` is the table of some version `v` or newer. */
  ghost predicate Fuzzy(h: seq<Table>, v: nat, t: Table) {
    exists j :: v <= j < |h| && h[j] == t
  }

  /** Every route of `t` is as in version `v`, or as in one and the same newer version. */
  ghost predicate Mixed(h: seq<Table>, v: nat, t: Table) {
    v < |h| && exists j :: v <= j < |h| && Between(t, h[v], h[j])
  }

  ghost predicate MsgOk(h: seq<Table>, version: nat, m: Msg) {
    && m.version <= version
    && match m
       case Snapshot(v, t) => Fuzzy(h, v, t)
       case Update(v, d) => 0 < v < |h| && IsDelta(d, h[v - 1], h[v])
  }

  ghost predicate Safe(s: State) {
    && s.pushed <= s.version < |s.history|
    && (forall i | 0 <= i < |s.queue| :: MsgOk(s.history, s.version, s.queue[i]))
    && (forall i | 0 <= i < |s.down| :: MsgOk(s.history, s.version, s.down[i]))
    && (forall i | 0 <= i < |s.up| && s.up[i].Ack? :: s.up[i].version in s.adopted)
    && (forall v | v in s.adopted :: v <= s.version)
    && (s.agent.Session? ==>
          s.agent.applied in s.adopted && Mixed(s.history, s.agent.applied, s.agent.table))
    && (s.recorded.Some? ==> s.recorded.value in s.adopted)
    && (!s.conn.Offline? ==> s.conn.base <= s.version)
    && (s.conn.Serving? && s.conn.control.Resyncing? ==> s.conn.control.resyncLabel <= s.version)
    && (s.conn.Offline? || s.conn.LabelRead? ==>
          s.queue == [] && s.down == [] && s.up == [] && s.agent.NoSession?)
    && (s.agent.NoSession? && (s.conn.SnapshotSent? || s.conn.Serving?) ==>
          s.down != [] && s.down[0].Snapshot?)
  }

  lemma FuzzyGrows(h: seq<Table>, t: Table, v: nat, u: Table)
    requires Fuzzy(h, v, t)
    ensures Fuzzy(h + [u], v, t)
  {
    var j :| v <= j < |h| && h[j] == t;
    assert (h + [u])[j] == t;
  }

  lemma MixedGrows(h: seq<Table>, t: Table, v: nat, u: Table)
    requires Mixed(h, v, t)
    ensures Mixed(h + [u], v, t)
  {
    var j :| v <= j < |h| && Between(t, h[v], h[j]);
    var h' := h + [u];
    assert h'[v] == h[v] && h'[j] == h[j];
    assert Between(t, h'[v], h'[j]);
  }

  lemma MsgOkGrows(h: seq<Table>, version: nat, m: Msg, u: Table)
    requires MsgOk(h, version, m)
    ensures MsgOk(h + [u], version, m)
  {
    match m
    case Snapshot(v, t) => FuzzyGrows(h, t, v, u);
    case Update(v, d) => assert (h + [u])[v - 1] == h[v - 1] && (h + [u])[v] == h[v];
  }

  /** A snapshot adopted from a newer table is mixed in the trivial way. */
  lemma FuzzyIsMixed(h: seq<Table>, v: nat, t: Table)
    requires v < |h| && Fuzzy(h, v, t)
    ensures Mixed(h, v, t)
  {
    var j :| v <= j < |h| && h[j] == t;
    assert forall id :: Agree(t, h[j], id);
    assert Between(t, h[v], h[j]);
  }

  /** Applying the next delta to a mixed table gives a table mixed at the next version. */
  lemma UpdateKeepsMixed(h: seq<Table>, v: nat, t: Table, d: RouteDelta)
    requires Mixed(h, v, t) && v + 1 < |h| && IsDelta(d, h[v], h[v + 1])
    ensures Mixed(h, v + 1, ApplyDelta(t, d))
  {
    var j :| v <= j < |h| && Between(t, h[v], h[j]);
    DeltaKeepsBetween(t, d, h[v], h[v + 1], h[j]);
    if j == v {
      BetweenSame(t, h[v]);
      BetweenSame(ApplyDelta(t, d), h[v + 1]);
      assert Between(ApplyDelta(t, d), h[v + 1], h[v + 1]);
    } else {
      assert Between(ApplyDelta(t, d), h[v + 1], h[j]);
    }
  }

  lemma SafeCommit(s: State, u: Table)
    requires Safe(s)
    ensures Safe(Apply(s, Commit(u)))
  {
    var h, h' := s.history, s.history + [u];
    forall i | 0 <= i < |s.queue| ensures MsgOk(h', s.version, s.queue[i]) {
      MsgOkGrows(h, s.version, s.queue[i], u);
    }
    forall i | 0 <= i < |s.down| ensures MsgOk(h', s.version, s.down[i]) {
      MsgOkGrows(h, s.version, s.down[i], u);
    }
    if s.agent.Session? {
      MixedGrows(h, s.agent.table, s.agent.applied, u);
    }
  }

  /** What the agent makes of an honest message is mixed. */
  lemma ReceivedIsMixed(h: seq<Table>, version: nat, a: Agent, m: Msg)
    requires MsgOk(h, version, m) && version < |h| && (a.NoSession? ==> m.Snapshot?)
    requires a.Session? ==> Mixed(h, a.applied, a.table)
    ensures var (a', _) := AgentReceives(a, m); a'.Session? && Mixed(h, a'.applied, a'.table)
  {
    match m
    case Snapshot(v, t) => FuzzyIsMixed(h, v, t);
    case Update(v, d) =>
      if v == a.applied + 1 {
        UpdateKeepsMixed(h, a.applied, a.table, d);
      }
  }

  lemma SafeDeliver(s: State)
    requires Safe(s) && Enabled(s, Deliver)
    ensures Safe(Apply(s, Deliver))
  {
    assert MsgOk(s.history, s.version, s.down[0]);
    ReceivedIsMixed(s.history, s.version, s.agent, s.down[0]);
  }

  lemma SafeEnqueue(s: State, m: Msg)
    requires Safe(s) && s.pushed < s.version && MsgOk(s.history, s.version, m)
    ensures Safe(Enqueue(s, m))
  {
  }

  lemma SafePush(s: State, step: Step)
    requires Safe(s) && Enabled(s, step)
    requires step.PushUpdate? || step.PushSnapshot? || step.PushFail?
    ensures Safe(Apply(s, step))
  {
    match step {
      case PushUpdate(d) => SafeEnqueue(s, Update(s.pushed + 1, d));
      case PushSnapshot(at) => SafeEnqueue(s, Snapshot(s.pushed + 1, s.history[at]));
      case PushFail =>
    }
  }

  lemma SafeHandshake(s: State, step: Step)
    requires Safe(s) && Enabled(s, step)
    requires step.Disconnect? || step.ReadLabel? || step.SendHandshake? || step.Register?
    ensures Safe(Apply(s, step))
  {
    assert s.history[|s.history| - 1] == Current(s);
  }

  lemma SafeControl(s: State, step: Step)
    requires Safe(s) && Enabled(s, step)
    requires step.Forward? || step.ReadAck? || step.ReadResync? || step.SendResync?
    ensures Safe(Apply(s, step))
  {
    assert s.history[|s.history| - 1] == Current(s);
  }

  lemma SafeBump(s: State)
    requires Safe(s) && Enabled(s, Bump)
    ensures Safe(Apply(s, Bump))
  {
  }

  /** Every step keeps the safety invariant. */
  lemma SafeStep(s: State, step: Step)
    requires Safe(s) && Enabled(s, step)
    ensures Safe(Apply(s, step))
  {
    match step {
      case Commit(u) => SafeCommit(s, u);
      case Bump => SafeBump(s);
      case Deliver => SafeDeliver(s);
      case PushUpdate(_) => SafePush(s, step);
      case PushSnapshot(_) => SafePush(s, step);
      case PushFail => SafePush(s, step);
      case Forward => SafeControl(s, step);
      case ReadAck => SafeControl(s, step);
      case ReadResync => SafeControl(s, step);
      case SendResync => SafeControl(s, step);
      case _ => SafeHandshake(s, step);
    }
  }

  // ---------------------------------------------------------------- what keeps the agent on track

  ghost predicate HasResync(up: seq<Reply>) {
    exists i | 0 <= i < |up| :: up[i].Resync?
  }

  /** The version this connection owes the agent: the last enqueued, or the handshake's. */
  function Target(s: State): nat
    requires s.conn.Serving?
  {
    if s.enqueued.Some? then s.enqueued.value else s.conn.base
  }

  /** Only the handshake snapshot has been under way on this connection. */
  ghost predicate OnlyHandshake(s: State)
    requires !s.conn.Offline?
  {
    && s.queue == [] && !HasResync(s.up)
    && match s.agent
       case NoSession => |s.down| == 1 && s.down[0].version == s.conn.base
       case Session(v, _) => s.down == [] && v == s.conn.base
  }

  /**
   The target is still queued, or it has been overtaken by something that will bring the
   agent to it: a resync request, a resync being served, a last message with that version
   or a newer one, or the agent is already there.
   */
  ghost predicate OnTrack(s: State)
    requires s.conn.Serving?
  {
    if s.queue != [] then
      s.enqueued.Some? && s.queue[|s.queue| - 1].version == s.enqueued.value
    else
      || HasResync(s.up)
      || s.conn.control.Resyncing?
      || (s.down != [] && s.down[|s.down| - 1].version >= Target(s))
      || (s.down == [] && s.agent.Session? && s.agent.applied >= Target(s))
  }

  ghost predicate Tracked(s: State) {
    match s.conn
    case Offline => s.enqueued.None?
    case LabelRead(_) => s.enqueued.None?
    case SnapshotSent(_) => s.enqueued.None? && OnlyHandshake(s)
    case Serving(_, control) =>
      && OnTrack(s)
      && (s.enqueued.Some? ==> s.enqueued.value <= s.pushed)
      && (s.enqueued.Some? && !s.pushFailed ==> s.enqueued.value == s.pushed)
      && (s.enqueued.None? ==> control.Idle? && OnlyHandshake(s))
      && (control.Resyncing? && s.queue == [] ==> control.resyncLabel >= Target(s))
  }

  lemma TrackedPush(s: State, step: Step)
    requires Safe(s) && Tracked(s) && Enabled(s, step)
    requires step.PushUpdate? || step.PushSnapshot? || step.PushFail? || step.Commit? || step.Bump?
    ensures Tracked(Apply(s, step))
  {
  }

  lemma TrackedHandshake(s: State, step: Step)
    requires Safe(s) && Tracked(s) && Enabled(s, step)
    requires step.Disconnect? || step.ReadLabel? || step.SendHandshake? || step.Register?
    ensures Tracked(Apply(s, step))
  {
  }

  lemma ResyncStays(up: seq<Reply>, r: Reply)
    ensures HasResync(up + [r]) <==> HasResync(up) || r.Resync?
    ensures up != [] && up[0].Ack? ==> (HasResync(up[1..]) <==> HasResync(up))
  {
    var up' := up + [r];
    if HasResync(up) {
      var i :| 0 <= i < |up| && up[i].Resync?;
      assert up'[i].Resync?;
      if up[0].Ack? {
        assert up[1..][i - 1].Resync?;
      }
    }
    assert up'[|up|] == r;
  }

  lemma TrackedControl(s: State, step: Step)
    requires Safe(s) && Tracked(s) && Enabled(s, step)
    requires step.Forward? || step.ReadAck? || step.ReadResync? || step.SendResync?
    ensures Tracked(Apply(s, step))
  {
    if step.ReadAck? {
      ResyncStays(s.up, s.up[0]);
    }
  }

  lemma TrackedDeliver(s: State)
    requires Safe(s) && Tracked(s) && Enabled(s, Deliver)
    ensures Tracked(Apply(s, Deliver))
  {
    var (_, reply) := AgentReceives(s.agent, s.down[0]);
    ResyncStays(s.up, reply);
  }

  lemma TrackedStep(s: State, step: Step)
    requires Safe(s) && Tracked(s) && Enabled(s, step)
    ensures Tracked(Apply(s, step))
  {
    match step {
      case Deliver => TrackedDeliver(s);
      case Forward => TrackedControl(s, step);
      case ReadAck => TrackedControl(s, step);
      case ReadResync => TrackedControl(s, step);
      case SendResync => TrackedControl(s, step);
      case Disconnect => TrackedHandshake(s, step);
      case ReadLabel => TrackedHandshake(s, step);
      case SendHandshake => TrackedHandshake(s, step);
      case Register => TrackedHandshake(s, step);
      case _ => TrackedPush(s, step);
    }
  }

  // ---------------------------------------------------------------- acknowledgements

  /** The last acknowledged version: the last one under way, or else the one recorded. */
  function LastAck(up: seq<Reply>, recorded: Option<nat>): Option<nat> {
    if up == [] then recorded
    else
      var last := up[|up| - 1];
      if last.Ack? then Some(last.version) else LastAck(up[..|up| - 1], recorded)
  }

  lemma {:induction false} LastAckRead(up: seq<Reply>, recorded: Option<nat>)
    requires up != []
    ensures LastAck(up[1..], if up[0].Ack? then Some(up[0].version) else recorded) == LastAck(up, recorded)
  {
    var n := |up| - 1;
    if n > 0 && up[n].Resync? {
      LastAckRead(up[..n], recorded);
      assert up[1..][..n - 1] == up[..n][1..];
    }
  }

  /** The agent's version is the last it acknowledged. */
  ghost predicate Acknowledged(s: State) {
    s.agent.Session? ==> LastAck(s.up, s.recorded) == Some(s.agent.applied)
  }

  lemma LastAckSent(up: seq<Reply>, recorded: Option<nat>, reply: Reply)
    ensures LastAck(up + [reply], recorded) == if reply.Ack? then Some(reply.version) else LastAck(up, recorded)
  {
    assert (up + [reply])[..|up|] == up;
  }

  lemma AcknowledgedDeliver(s: State)
    requires Acknowledged(s) && Enabled(s, Deliver)
    ensures Acknowledged(Apply(s, Deliver))
  {
    LastAckSent(s.up, s.recorded, AgentReceives(s.agent, s.down[0]).1);
  }

  lemma AcknowledgedStep(s: State, step: Step)
    requires Acknowledged(s) && Enabled(s, step)
    ensures Acknowledged(Apply(s, step))
  {
    match step {
      case Deliver => AcknowledgedDeliver(s);
      case ReadAck => LastAckRead(s.up, s.recorded);
      case ReadResync => LastAckRead(s.up, s.recorded);
      case _ =>
    }
  }

  // ---------------------------------------------------------------- whole runs

  lemma {:induction false} RunInvariant(r: seq<State>, i: nat)
    requires Run(r) && i < |r|
    ensures Safe(r[i]) && Tracked(r[i]) && Acknowledged(r[i])
  {
    if i > 0 {
      RunInvariant(r, i - 1);
      assert NextAt(r, i - 1);
      var step :| Enabled(r[i - 1], step) && r[i] == Apply(r[i - 1], step);
      SafeStep(r[i - 1], step);
      TrackedStep(r[i - 1], step);
      AcknowledgedStep(r[i - 1], step);
    }
  }

  lemma ReachableInvariant(s: State)
    requires Reachable(s)
    ensures Safe(s) && Tracked(s) && Acknowledged(s)
  {
    var r :| Run(r) && r[|r| - 1] == s;
    RunInvariant(r, |r| - 1);
  }

  // ---------------------------------------------------------------- the status column

  /** The last bump or acknowledgement among the steps is an acknowledgement. */
  ghost predicate EndsAcknowledged(ss: seq<Step>) {
    exists k | 0 <= k < |ss| :: ss[k].ReadAck? && forall m | k < m < |ss| :: !ss[m].Bump?
  }

  lemma EndsAcknowledgedNext(ss: seq<Step>, step: Step)
    ensures EndsAcknowledged(ss + [step]) <==> step.ReadAck? || (!step.Bump? && EndsAcknowledged(ss))
  {
    var ss' := ss + [step];
    assert ss'[|ss|] == step;
    assert forall m | 0 <= m < |ss| :: ss'[m] == ss[m];
    if EndsAcknowledged(ss) && !step.Bump? {
      var k :| 0 <= k < |ss| && ss[k].ReadAck? && forall m | k < m < |ss| :: !ss[m].Bump?;
      assert ss'[k].ReadAck?;
    }
    if EndsAcknowledged(ss') && !step.ReadAck? {
      var k :| 0 <= k < |ss'| && ss'[k].ReadAck? && forall m | k < m < |ss'| :: !ss'[m].Bump?;
      assert ss[k].ReadAck?;
    }
  }

  /** In every run the node is shown as synced exactly when an acknowledgement came after the last bump. */
  lemma {:induction false} StatusExactly(ps: seq<State>, ss: seq<Step>, i: nat)
    requires Path(ps, ss) && Init(ps[0]) && i < |ps|
    ensures ps[i].status.StatusSynced? <==> EndsAcknowledged(ss[..i])
  {
    if i > 0 {
      StatusExactly(ps, ss, i - 1);
      EndsAcknowledgedNext(ss[..i - 1], ss[i - 1]);
      assert ss[..i] == ss[..i - 1] + [ss[i - 1]];
      assert Taken(ps, ss, i - 1);
      StatusStep(ps[i - 1], ss[i - 1]);
    }
  }

  lemma StatusStep(s: State, step: Step)
    requires Enabled(s, step)
    ensures Apply(s, step).status ==
      if step.ReadAck? then StatusSynced else if step.Bump? then StatusPending else s.status
  {
  }

  /** A node whose current version is recorded as applied is shown as synced. */
  ghost predicate StatusSound(s: State) {
    s.recorded == Some(s.version) ==> s.status.StatusSynced?
  }

  lemma StatusSoundStep(s: State, step: Step)
    requires Safe(s) && StatusSound(s) && Enabled(s, step)
    ensures StatusSound(Apply(s, step))
  {
  }

  lemma {:induction false} StatusSoundRun(r: seq<State>, i: nat)
    requires Run(r) && i < |r|
    ensures StatusSound(r[i])
  {
    if i > 0 {
      StatusSoundRun(r, i - 1);
      RunInvariant(r, i - 1);
      assert NextAt(r, i - 1);
      var step :| Enabled(r[i - 1], step) && r[i] == Apply(r[i - 1], step);
      StatusSoundStep(r[i - 1], step);
    }
  }

  /**
   Safety in every run, whatever is lost, overtaken or repeated. The applied version never
   exceeds the server's; what the server records as applied was adopted by the agent; each
   route the agent holds is as in the applied version or as in one newer version; and a node
   that is recorded as up to date is shown as synced.
   */
  lemma ConfigSafety(s: State)
    requires Reachable(s)
    ensures s.agent.Session? ==> s.agent.applied <= s.version
    ensures s.agent.Session? ==> Mixed(s.history, s.agent.applied, s.agent.table)
    ensures s.recorded.Some? ==> s.recorded.value in s.adopted
    ensures forall v | v in s.adopted :: v <= s.version < |s.history|
    ensures s.recorded == Some(s.version) ==> s.status.StatusSynced?
  {
    ReachableInvariant(s);
    var r :| Run(r) && r[|r| - 1] == s;
    StatusSoundRun(r, |r| - 1);
  }

  // ---------------------------------------------------------------- quiescence

  /** Every change has been bumped and pushed, nothing is queued, in flight or in progress. */
  ghost predicate Quiescent(s: State) {
    && s.version + 1 == |s.history| && s.pushed == s.version
    && s.conn.Serving? && s.conn.control.Idle?
    && s.queue == [] && s.down == [] && s.up == []
    && s.agent.Session?
  }

  /** The agent holds the current version and exactly its table. */
  ghost predicate Synced(s: State) {
    && s.agent.Session? && |s.history| > 0
    && s.agent.applied == s.version == |s.history| - 1
    && s.agent.table == Current(s)
  }

  /**
   At quiescence the agent is in sync, table and all, exactly when the version the server has
   recorded as applied is the current one. That is so as soon as the current version was
   enqueued last on this connection, or was the label of its handshake snapshot and nothing
   was enqueued after that; and if no push failed on this connection, not otherwise.
   */
  lemma QuiescentSync(s: State)
    requires Reachable(s) && Quiescent(s)
    ensures Synced(s) <==> s.recorded == Some(s.version)
    ensures Target(s) == s.version ==> Synced(s)
    ensures !s.pushFailed ==> (Synced(s) <==> s.enqueued.Some? || s.conn.base == s.version)
  {
    ReachableInvariant(s);
    AtRestExact(s);
    assert LastAck(s.up, s.recorded) == s.recorded;
  }

  /** At rest the agent is in sync exactly when it is at the current version. */
  lemma AtRestExact(s: State)
    requires Safe(s) && Quiescent(s)
    ensures Synced(s) <==> s.agent.applied == s.version
  {
    if s.agent.applied == s.version {
      NewestIsExact(s.history, s.agent.table);
    }
  }

  /** A table mixed at the newest version is that version's. */
  lemma NewestIsExact(h: seq<Table>, t: Table)
    requires |h| > 0 && Mixed(h, |h| - 1, t)
    ensures t == h[|h| - 1]
  {
    var v := |h| - 1;
    var j :| v <= j < |h| && Between(t, h[v], h[j]);
    BetweenSame(t, h[v]);
  }
}
