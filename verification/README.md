# A verified model of RSTunnel

RSTunnel is a QUIC reverse tunnel. A server pushes versioned route configuration to agents and
forwards TCP, UDP, HTTP and TLS traffic through them. This project models the parts of it that
are hard to get right and proves what they promise. `dafny verify dfyconfig.toml` checks it all.

The files, hardest first:

| component | files |
|---|---|
| configuration protocol | `Routes`, `ConfigProtocol`, `ConfigConvergence`, `ConfigMonotone`, `ConfigActors` |
| UDP session plane | `TokenBuckets`, `UdpProxy`, `UdpRate`, `UdpActivity`, `UdpServer`, `UdpIsolation`, `UdpDelivery`, `AgentUdp` |
| byte-level parsing | `Bytes`, `Streams`, `ClientHello`, `HelloShapes`, `SniPeek`, `Frames`, `CancelledReads` |
| concurrent and hot-reloaded tables | `ConnLimiter`, `ServerRoutes`, `TcpReconcile`, `HostRoutes`, `LoginLimiter` |
| rules and restore | `Cidr`, `Acl`, `Restore` |

Objects that the source updates in place are classes whose methods are proved against functions
on values; what the source promises is proved about those functions, over whole runs where the
promise is about runs.

## What holds, and what does not

*Configuration.* Snapshots are fuzzy: their label is read before their routes. Still the agent's
table is at every moment made of routes of the applied version and of one newer version, and once
changes stop every run comes to rest with the agent on the last version and exactly its table, if
that version was enqueued last on this connection, or labelled its handshake and nothing was enqueued
after it. The label alone is not enough (`LabelNotEnough`). The condition is exact as long as no push
failed; the exact test at rest is that the recorded `applied_config_version` equals
`config_version`. The status `synced` only says that an acknowledgement came after the last bump
(`StatusExactly`); a push between the handshake snapshot and `register` is lost, and the node is then
shown as synced although it is not (`LostPush`). The applied version can go back: exactly when a label
is read, at the handshake or for a resync, while an older snapshot is queued or two or more versions
are bumped and not yet pushed (`GoesBackExactly`).

*UDP.* What is forwarded for one source in a window is at most one bucket and the rate times the
window, although the reaper discards buckets. This needs an idle timeout of one second or more, and
fails for every shorter one (`TimeoutThreshold`). A payload reaches only the target of its own
route under an id of its own client, a reply only that client. The server does not look at which
connection a datagram comes from: any node can reach the client of any live session id, and no one
else (`DatagramReach`). A session is reaped exactly when the last packet or answer under it is older
than the idle timeout (`ReapExactly`), and every live session announced on a connection that lasts
gets its socket (`LiveHasSocket`).

*TLS peek.* The answer is independent of how the network cuts the stream for all streams but those
whose ClientHello carries a name and whose first record ends between 16385 and 24575 bytes; each of
those gets its name under one cut and none under another (`ChunkingIndependence`).

*Frames.* A frame comes back from its bytes exactly if its length is within 4 MiB. `read_frame`
reports a clean close also when one to three bytes of a length were read, although its comment speaks
of the frame boundary; the model follows the code. Both control loops drop a read half way when
another branch of their select is taken. Frames written whole are then all seen exactly if no read is
dropped after it consumed anything (`SeenExactly`); of a stream that ends inside a frame a loss can go
unnoticed (`LossUnnoticed`).

*Connection limiter.* The limit holds under every interleaving, and a refusal is justified by guards
and attempts in flight, exactly. It is needless in terms of guards exactly if these leave room that
the attempts in flight fill (`NeedlessExactly`), which can happen for every limit (`NeedlessRefusal`).

*TCP reconcile.* A success gives the table of a fresh build, and its listeners exactly if no enabled TCP
route has port 0 (`ListenersExactly`). But an entry without a listener is never removed, whatever is
reconciled later (`StaleForever`). So a failed bind makes every later reconcile of the same routes fail
(`FailureIsFinal`), and a TCP address whose route was disabled at startup can never be enabled
(`DisabledForever`). The one way out is a port 0 route that the system happens to bind there.

*Host table.* A comment says that a reload builds what startup builds. Startup enters disabled routes too,
so the two agree exactly if no HTTP or HTTPS route is disabled (`StartupAgrees`).

*Login limiter.* The check and the record are separate steps. No window holds more failures than allowed
in all runs exactly if logins do not overlap, or nothing is ever let in, or the window is empty
(`LimitExactly`); with overlap the exact maximum is one more for each further login pending at the same
time (`FailuresBounded`, `BoundReached`).

*Restore.* A restore is a merge; it succeeds exactly if no unique name clashes. Its preview reports
the same counts exactly if no table of the snapshot repeats a new id.

*Access rules.* The comment on `row_to_rule` says that a row with a port out of range is skipped. The
code turns such a port into "any port"; `RowAsDocumented` says exactly when the two agree.

## Model

| member | source | states |
|---|---|---|
| `Routes.ComputeRouteDelta` | crates/tunnel-core/src/config_sync.rs:15-40 | the result adds exactly the new ids, updates exactly the changed ones and removes exactly the missing ones, whatever the order of iteration |
| `Routes.RemovedIds` | crates/tunnel-core/src/config_sync.rs:29-33 | exactly the ids of the old list that the new index lacks |
| `Routes.ApplyRouteDelta` | agent/src/session.rs:359-372 | the edited vector keeps its ids distinct and stands for the table after add-if-absent, upsert and remove |
| `Routes.ApplyDeltaAt` | agent/src/session.rs:359-372 | the effect of a delta on any one id of any table, not only the one it was computed from |
| `Routes.DeltaKeepsBetween` | agent/src/session.rs:359-372 | a table between two versions stays between the next version and the same later one; an exact table stays exact |
| `Routes.FuzzyReplay` | agent/src/session.rs:346-372 | from the routes of version j labelled v <= j, the deltas v+1, v+2, ... give exactly the table of each version from j on |
| `Routes.RepresentsById` | crates/tunnel-core/src/config_sync.rs:16-17 | a vector with distinct ids lists a table exactly when collecting it gives that table |
| `ConfigActors.AgentSession.constructor` | agent/src/session.rs:162-181 | the handshake snapshot becomes the session, as the protocol's first step of the agent |
| `ConfigActors.AgentSession.OnSnapshot` | agent/src/session.rs:258-265 | any snapshot is adopted and acknowledged |
| `ConfigActors.AgentSession.OnUpdate` | agent/src/session.rs:266-283 | version + 1 is applied, any other version leaves the session unchanged and asks for a resync; ids stay distinct |
| `ConfigActors.ConfigSync.Register` | server/src/config_sync.rs:30-34 | a new empty channel for the node, the other channels as they were |
| `ConfigActors.ConfigSync.Unregister` | server/src/config_sync.rs:37-39 | only the node's channel is gone |
| `ConfigActors.ConfigSync.Push` | server/src/config_sync.rs:92-97 | appended to the node's channel; dropped without one |
| `ConfigActors.ConfigSync.NotifyRoutesChanged` | server/src/config_sync.rs:45-64 | the version goes up by one and a delta between the two tables under that version is the only message added anywhere |
| `ConfigActors.ConfigSync.PushSnapshot` | server/src/config_sync.rs:71-89 | the routes read now go out under the version given; nothing goes out when they cannot be listed or parsed |
| `ConfigActors.ConfigSync.Receive` | server/src/quic.rs:492-505 | messages leave a channel first in, first out |
| `ConfigProtocol.SafeStep` | server/src/quic.rs:399-516 | every step of server, queues and agent keeps the safety invariant |
| `ConfigProtocol.TrackedStep` | server/src/quic.rs:459-505 | every step keeps the agent on its way to the last version enqueued |
| `ConfigProtocol.ConfigSafety` | agent/src/session.rs:258-283 | in every reachable state: applied <= server version, every recorded version was adopted, each route held is of the applied version or of one newer version, and a node recorded as up to date has status synced |
| `ConfigProtocol.AcknowledgedStep` | server/src/quic.rs:434-458 | every step keeps the agent's version the last it acknowledged |
| `ConfigProtocol.QuiescentSync` | server/src/quic.rs:202-225 | at quiescence the agent holds the current version and exactly its table if and only if the recorded applied version is the current one; it is if that version was enqueued last, or labelled the handshake and nothing was enqueued after it, and only then when no push failed |
| `ConfigConvergence.MeasureDecreases` | server/src/quic.rs:459-505 | every step but a change, a failed push or a disconnect brings the measure down |
| `ConfigConvergence.Progress` | server/src/quic.rs:459-505 | the states without such a step are exactly the quiescent ones |
| `ConfigConvergence.Convergence` | server/src/quic.rs:459-505 | after the last change a run has at most `Measure` steps left and ends with the agent in sync if the last version was enqueued last, or labelled the handshake and nothing was enqueued after it |
| `ConfigConvergence.ReconnectConverges` | server/src/quic.rs:334-345 | after a reconnect following the last change the agent always ends in sync |
| `ConfigConvergence.LostPush` | server/src/quic.rs:202-225 | for any two tables a run at rest and out of sync, with status synced: the push came before the channel was registered |
| `ConfigConvergence.LabelNotEnough` | server/src/quic.rs:202-225 | for any three tables a run at rest and out of sync although its handshake was labelled with the last version: an older snapshot was enqueued after it and the push of the last version failed |
| `ConfigProtocol.StatusExactly` | crates/tunnel-db/src/lib.rs:353-382 | in every run the status is synced if and only if an acknowledgement came after the last bump |
| `ConfigMonotone.OrderedStep` | server/src/quic.rs:459-505 | every step on one connection with clean labels keeps the line to the agent in order and the applied version from going back |
| `ConfigMonotone.AppliedMonotone` | server/src/quic.rs:459-505 | in every run the applied version never decreases on a connection all of whose labels are read clean: no older snapshot queued, at most the current version still to be pushed |
| `ConfigMonotone.UncleanGoesBack` | server/src/quic.rs:334-345 | after any other label, of a handshake or of a resync, some continuation takes the applied version back |
| `ConfigMonotone.GoesBackExactly` | server/src/quic.rs:459-505 | on a connection with clean labels so far, the next label leaves a way back if and only if it is not clean |
| `ConfigMonotone.HandshakeCanGoBack` | server/src/quic.rs:202-225 | a reachable state from which this happens without any resync |
| `TokenBuckets.ScaledMoves` | server/src/udp_proxy.rs:93-103 | what taking tokens, or doing without a bucket, does to a bucket measured in its own rate |
| `TokenBuckets.TraceBound` | server/src/udp_proxy.rs:93-103 | for any history of one bucket, discarded and recreated full only after a full refill time: sent <= capacity + refill |
| `UdpProxy.AdmitKeepsIndex` | server/src/udp_proxy.rs:400-450 | admission keeps the indices; an admitted packet has a source and room for its session |
| `UdpProxy.CreateKeepsIndex` | server/src/udp_proxy.rs:453-493 | the session map, the id map and the counters still agree after a session is created |
| `UdpProxy.ForwardKeepsIndex` | server/src/udp_proxy.rs:347-393 | a packet keeps the indices and the meaning of all ids |
| `UdpProxy.ForwardOutcome` | server/src/udp_proxy.rs:347-393 | a packet is forwarded only under the session of its own client and route, and announces exactly the session it created |
| `UdpProxy.AdmissionExactly` | server/src/udp_proxy.rs:347-450 | which packets get through and which of them are sent, in terms of live sessions, bucket levels and the connection, and which drop counter accounts for each of the others |
| `UdpProxy.PayloadExactly` | server/src/udp_proxy.rs:34-48 | a payload is too large if and only if it is over 1200 bytes, or over what the peer takes with a header of ten, or the peer takes none |
| `UdpProxy.BothPay` | server/src/udp_proxy.rs:429-442 | each bucket pays for a packet if it can, also when the other one cannot |
| `UdpProxy.ReapForgets` | server/src/udp_proxy.rs:557-559 | a reap forgets a source if and only if it leaves it no session |
| `UdpProxy.DatagramKeepsIndex` | server/src/udp_proxy.rs:496-514 | a datagram from an agent keeps the indices and the meaning of all ids |
| `UdpProxy.ReapKeepsIndex` | server/src/udp_proxy.rs:524-560 | reaping keeps the indices, counters included, and the meaning of all ids |
| `UdpRate.IndexAgreement` | server/src/udp_proxy.rs:400-560 | in every state of every run the two session maps are inverse, counters equal live sessions, no source exceeds its limit |
| `UdpRate.IdsNeverReused` | server/src/udp_proxy.rs:466 | an id known later under an older allocation still means the same session |
| `UdpRate.MissingBucket` | server/src/udp_proxy.rs:524-560 | a source whose bucket is gone has forwarded nothing for longer than the idle timeout |
| `UdpRate.RateBound` | server/src/udp_proxy.rs:93-103 | packets and bytes forwarded for one source in any window of any run: at most rate + rate * length |
| `UdpRate.ShortTimeoutFails` | server/src/udp_proxy.rs:524-560 | for every timeout below one second a run that exceeds the bound |
| `UdpRate.TimeoutThreshold` | server/src/udp_proxy.rs:524-560 | the bound holds for all runs if and only if the idle timeout is at least one second |
| `UdpActivity.ActiveStep` | server/src/udp_proxy.rs:146-150 | every event sets the time of last activity of the session it creates, forwards for or answers under, and of no other |
| `UdpActivity.ReapExactly` | server/src/udp_proxy.rs:524-534 | in every run, from the events alone: a reap removes a session if and only if the last event that created it, forwarded for it or answered under its id lies more than the idle timeout back |
| `UdpActivity.OnlyReapsEnd` | server/src/udp_proxy.rs:535-541 | nothing but a reap ends a session |
| `UdpActivity.EarnedIsAdmitted` | server/src/udp_proxy.rs:93-103 | in every run a packet that fits gets through if its source has earned it since its last packet, so at a steady pace within the limits nothing is dropped for its rate |
| `UdpServer.UdpProxyServer.constructor` | server/src/udp_proxy.rs:219-260 | no sessions, ids from 0 |
| `UdpServer.UdpProxyServer.ChargeSource` | server/src/udp_proxy.rs:429-442 | both buckets are charged, also when one refuses |
| `UdpServer.UdpProxyServer.Admit` | server/src/udp_proxy.rs:400-450 | the in-place admission is the function on values, drop counters included |
| `UdpServer.UdpProxyServer.GetOrCreateSession` | server/src/udp_proxy.rs:453-493 | the in-place creation is the function on values |
| `UdpServer.UdpProxyServer.OnPacket` | server/src/udp_proxy.rs:347-393 | a packet takes exactly the modelled step and keeps the indices |
| `UdpServer.UdpProxyServer.Forward` | server/src/udp_proxy.rs:378-392 | the part from admission to the datagram |
| `UdpServer.UdpProxyServer.OnDatagram` | server/src/udp_proxy.rs:496-514 | the client written to is that of the id's session, whose activity time becomes now; nothing else changes |
| `UdpServer.UdpProxyServer.ReapExpired` | server/src/udp_proxy.rs:524-560 | the two loops and the final retain remove exactly the expired sessions, recount every source and list every closing message once |
| `UdpServer.CollectExpired` | server/src/udp_proxy.rs:525-534 | the first loop lists each expired session once, in any order |
| `UdpServer.RemoveAllReaps` | server/src/udp_proxy.rs:535-559 | removing the expired sessions one by one, in any order, equals the reaping defined at once |
| `UdpIsolation.OkStep` | server/src/udp_proxy.rs:453-560 | every step of clients, server, links and agents keeps the end-to-end invariant |
| `UdpIsolation.Isolation` | server/src/udp_proxy.rs:453-560 | in every run: a datagram finds only the socket of its own client and route, a reply only its own session, and a socket whose session was reaped has its UDP_CLOSE under way |
| `UdpIsolation.DatagramReach` | server/src/udp_proxy.rs:496-514 | in every run a datagram from any node, forged ones included, reaches exactly the client its session id was allocated for, while the session lives |
| `UdpIsolation.OwnersStay` | server/src/udp_proxy.rs:466 | the owner of an id never changes, also after reaping |
| `UdpDelivery.SocketStep` | agent/src/session.rs:284-297 | a step opens a socket if it handles an opening that can be connected, ends it if it handles the closing or the connection is lost, and else leaves it |
| `UdpDelivery.SocketExactly` | agent/src/session.rs:284-297 | in every run an agent has the socket of an id if and only if it handled an opening of it that could be connected, with neither its closing handled nor the connection lost since |
| `UdpDelivery.OpenedForRoute` | agent/src/udp.rs:34-63 | in every run that socket is connected for the route of the opening |
| `UdpDelivery.RegisteredExactly` | server/src/config_sync.rs:30-39 | in every run a push channel is there if and only if it was registered and the connection has lasted since |
| `UdpDelivery.LiveHasSocket` | agent/src/session.rs:284-297 | in every run a live session announced on a connection that lasts, all its openings connectable, has its opening under way or its socket, for its own route; with the queue drained it has its socket |
| `UdpDelivery.PacketSent` | server/src/udp_proxy.rs:381-391 | a packet forwarded is on the wire to its node under its session, whole, and a session it creates is announced if the channel is registered |
| `UdpDelivery.PayloadArrives` | agent/src/udp.rs:74-83 | a payload forwarded under a session with a socket finds that socket, connected to its own route's target |
| `UdpDelivery.AnswerArrives` | server/src/udp_proxy.rs:496-514 | an answer from a socket is under way under its session, and reaches the client of that session if it lives |
| `AgentUdp.UdpSessions.Open` | agent/src/udp.rs:34-63 | the session is entered with its route if it is new and can be connected; otherwise nothing changes |
| `AgentUdp.UdpSessions.Close` | agent/src/udp.rs:66-71 | exactly that session is gone |
| `AgentUdp.UdpSessions.OnControl` | agent/src/session.rs:284-297 | an opening enters a new session of a known route that can be connected, a closing removes its session, nothing else changes: the agent's step of the end-to-end machine |
| `AgentUdp.UdpSessions.HandleDatagram` | agent/src/udp.rs:74-83 | for all bytes, whatever their flags: the payload goes whole to the target of the session named, if open, and nowhere else |
| `AgentUdp.UdpSessions.CloseAll` | agent/src/udp.rs:86-91 | the loop leaves no session |
| `ClientHello.VerdictStable` | server/src/tls_passthrough.rs:34-139 | a verdict other than NeedMore does not change when bytes are appended |
| `ClientHello.ExtractSni` | server/src/tls_passthrough.rs:34-139 | the cursor scanner computes the layer-by-layer reading on every input, without an index out of bounds |
| `ClientHello.ScanHello` | server/src/tls_passthrough.rs:58-93 | the same for the fields of the hello |
| `ClientHello.SkipField8` | server/src/tls_passthrough.rs:63-72 | the cursor behind a field with a one-byte length, if and only if it fits |
| `ClientHello.SkipField16` | server/src/tls_passthrough.rs:73-82 | the same for a two-byte length |
| `ClientHello.ScanExtensions` | server/src/tls_passthrough.rs:94-103 | the same for the extension block |
| `ClientHello.ScanExtensionList` | server/src/tls_passthrough.rs:104-138 | the same for the loop over the extensions |
| `ClientHello.ScanExtension` | server/src/tls_passthrough.rs:105-136 | one turn of that loop: a verdict, or the place of the next extension |
| `ClientHello.ScanNames` | server/src/tls_passthrough.rs:111-121 | the same for the server name list |
| `ClientHello.ScanNameList` | server/src/tls_passthrough.rs:121-134 | the same for the loop over the names |
| `ClientHello.ScanName` | server/src/tls_passthrough.rs:123-132 | one turn of that loop: a verdict, or the place of the next name |
| `ClientHello.NameSniComplete` | server/src/tls_passthrough.rs:121-134 | an encoded list of names is read as its first host name, or Absent |
| `ClientHello.ExtensionSniComplete` | server/src/tls_passthrough.rs:104-138 | encoded extensions are read as the first host name of the first server_name extension |
| `ClientHello.HelloSniComplete` | server/src/tls_passthrough.rs:58-138 | the same for an encoded hello with arbitrary other fields |
| `ClientHello.SniComplete` | server/src/tls_passthrough.rs:34-139 | every well-formed hello in one record gives its server name, whatever follows it |
| `HelloShapes.ListExactly` | server/src/tls_passthrough.rs:121-134 | the name list gives a name if and only if it consists of names of other kinds, then a host name with that name, then anything |
| `HelloShapes.ExtensionsExactly` | server/src/tls_passthrough.rs:104-138 | the same for the extensions: others, then a server_name extension that has the name, then anything |
| `HelloShapes.FoundExactly` | server/src/tls_passthrough.rs:34-139 | a buffer gives a name if and only if it begins with a handshake record whose first message is a ClientHello with that name, in every layer; so of malformed and other input none |
| `SniPeek.PeekSni` | server/src/tls_passthrough.rs:143-164 | the loop over a stream that arrives in arbitrary chunks is the recursive peek |
| `SniPeek.PeekKeepsBytes` | server/src/tls_passthrough.rs:143-164 | prefix and remaining stream are the original stream; the prefix is at most 24575 bytes |
| `SniPeek.PrefixVerdict` | server/src/tls_passthrough.rs:34-47 | exactly the prefixes that hold the whole first record have a verdict, the stream's own |
| `SniPeek.PeekFails` | server/src/tls_passthrough.rs:156 | a peek fails if and only if the stream breaks, before 16384 bytes, with nothing settled |
| `SniPeek.PeekIsRouted` | server/src/tls_passthrough.rs:143-164 | failure and answer in terms of the whole stream for every cut |
| `SniPeek.GivesUp` | server/src/tls_passthrough.rs:152-155 | for every stream that straddles the limit a cut under which no name is found |
| `SniPeek.Succeeds` | server/src/tls_passthrough.rs:149-161 | for every such stream a cut under which its name is found |
| `SniPeek.Straddler` | server/src/tls_passthrough.rs:20-21 | such a stream |
| `SniPeek.ChunkingIndependence` | server/src/tls_passthrough.rs:143-164 | answer and failure are the same for all cuts if and only if the stream does not straddle the limit |
| `SniPeek.Prefixed.constructor` | server/src/tls_passthrough.rs:174-179 | a reader will see the prefix and then the stream |
| `SniPeek.Prefixed.Read` | server/src/tls_passthrough.rs:182-196 | each read yields the next bytes of prefix and stream, none only at the end |
| `SniPeek.PeekAndReplay` | server/src/tls_passthrough.rs:141-196 | peeking and wrapping gives a stream with exactly the original bytes |
| `Frames.FromU16` | crates/tunnel-protocol/src/message.rs:33-58 | the inverse of the wire values in both directions |
| `Frames.WireValues` | crates/tunnel-protocol/src/message.rs:5-30 | the value of each type on the wire |
| `Frames.DecodeExactly` | crates/tunnel-protocol/src/frame.rs:64-98 | byte by byte and with the limits as numbers: what is waited for, which length error is given as soon as four bytes are there, and each field of a frame at its place |
| `Frames.BoundedBuffering` | crates/tunnel-protocol/src/frame.rs:64-82 | the decoder never waits with 4194308 bytes or more |
| `Frames.DecodeStable` | crates/tunnel-protocol/src/frame.rs:64-98 | a frame or an error does not change when bytes are appended |
| `Frames.DecodeCanonical` | crates/tunnel-protocol/src/frame.rs:48-98 | re-encoding a decoded frame gives the bytes consumed |
| `Frames.RoundTrip` | crates/tunnel-protocol/src/frame.rs:48-98 | a frame is decoded from its bytes if and only if it is within the limit, 32-bit cut-off of the length included |
| `Frames.StreamRoundTrip` | crates/tunnel-protocol/src/frame.rs:48-98 | a concatenation of encodings decodes to exactly those frames, and then to what follows |
| `Frames.WrittenThenRead` | crates/tunnel-core/src/frame_io.rs:37-44 | the frames written are the frames decoded, however their bytes are cut |
| `Frames.ReadFrame` | crates/tunnel-core/src/frame_io.rs:10-34 | the decoder's answer on the stream, with exactly the bytes of the frame, of a frame of unknown type, or of a bad length (four) consumed; where the decoder would wait, a clean close only within the length |
| `Frames.ReadBody` | crates/tunnel-core/src/frame_io.rs:24-33 | the part after a good length reads exactly that many bytes, or fails at the end of the stream |
| `Frames.ReadFrames` | crates/tunnel-core/src/frame_io.rs:10-34 | repeated reads that nothing interrupts give all decodable frames; the end is clean exactly if fewer than four bytes are left and the stream did not fail |
| `CancelledReads.TakeTurn` | server/src/quic.rs:414-416 | one read that finishes as the decoder says, or is dropped with the bytes it consumed |
| `CancelledReads.ReadWithTurns` | server/src/quic.rs:414-416 | the same loop when reads are dropped at arbitrary points, on any chunks |
| `CancelledReads.NothingLost` | agent/src/session.rs:234-249 | reads dropped before they consumed anything change nothing, on any bytes |
| `CancelledReads.Conservation` | crates/tunnel-core/src/frame_io.rs:10-34 | the bytes of the frames seen and the bytes lost come out of the same stream |
| `CancelledReads.SeenExactly` | server/src/quic.rs:414-416 | of frames written whole exactly these are seen if and only if no read is dropped after it consumed anything |
| `CancelledReads.EchoEchoes` | crates/tunnel-protocol/src/frame.rs:48-58 | for every request id a ping whose payload is the beginning of its own encoding |
| `CancelledReads.LossUnnoticed` | crates/tunnel-core/src/frame_io.rs:10-34 | for every such frame an unfinished stream whose loss inside a frame leaves the frames seen as they were |
| `Frames.DatagramRoundTrip` | crates/tunnel-protocol/src/datagram.rs:31-53 | session id and payload come back |
| `Frames.DatagramCanonical` | crates/tunnel-protocol/src/datagram.rs:31-53 | every datagram without flags is the encoding of what it decodes to |
| `Frames.DatagramExactly` | crates/tunnel-protocol/src/datagram.rs:41-53 | byte by byte: ten bytes or more are flags, session id and payload at their places, fewer are nothing |
| `ConnLimiter.CountersExact` | server/src/conn_limiter.rs:39-52 | under every interleaving the counter equals guards plus attempts in flight |
| `ConnLimiter.NeverUnderflows` | server/src/conn_limiter.rs:19-23 | no decrement of any run meets a zero |
| `ConnLimiter.LimitHolds` | server/src/conn_limiter.rs:39-52 | guards never exceed the largest limit used on the route |
| `ConnLimiter.RefusedExactly` | server/src/conn_limiter.rs:46-50 | an attempt is refused if and only if it found guards and other attempts in flight up to its limit |
| `ConnLimiter.NeedlessExactly` | server/src/conn_limiter.rs:46-50 | it is refused although the guards leave room if and only if the attempts in flight fill that room |
| `ConnLimiter.AloneIsExact` | server/src/conn_limiter.rs:39-52 | without attempts in flight it is refused if and only if the guards have reached the limit |
| `ConnLimiter.NeedlessRefusal` | server/src/conn_limiter.rs:46-50 | for every limit a run with a refusal although no connection is left and no other attempt will be kept |
| `ConnLimiter.Counters.TryAcquire` | server/src/conn_limiter.rs:39-52 | a call nobody interferes with gives a place if and only if fewer guards are out than the limit; the counters stay exact |
| `ConnLimiter.Counters.Release` | server/src/conn_limiter.rs:19-23 | dropping a guard gives back exactly its place |
| `ServerRoutes.RouteTable.Insert` | server/src/route.rs:147-160 | an invalid address or a taken one is refused and changes nothing |
| `ServerRoutes.RouteTable.Remove` | server/src/route.rs:168-170 | only that entry is gone |
| `TcpReconcile.DesiredMeaning` | server/src/tcp_proxy.rs:152-159 | the addresses wanted are those of the enabled TCP routes, if all are valid |
| `TcpReconcile.DesiredExactly` | server/src/tcp_proxy.rs:152-159 | field by field: an address is wanted if and only if an enabled TCP route has it, and none is if one of these has no valid address |
| `TcpReconcile.DesiredLast` | server/src/tcp_proxy.rs:152-159 | of several such routes with one address the last is wanted |
| `TcpReconcile.BuildTable` | server/src/main.rs:160-173 | startup enters all TCP and UDP routes, disabled ones too, and succeeds if and only if their addresses are valid and differ |
| `TcpReconcile.TableExactly` | server/src/main.rs:160-173 | field by field: startup can build its table if and only if all TCP and UDP routes, disabled ones too, have valid addresses and no two the same |
| `TcpReconcile.TcpProxy.BindAll` | server/src/tcp_proxy.rs:103-126 | startup succeeds if and only if every address with an enabled TCP route can be bound, and then listens exactly where those are bound; without port 0 exactly on the addresses with an enabled TCP route |
| `TcpReconcile.TcpProxy.Reconcile` | server/src/tcp_proxy.rs:151-200 | the new state for every outcome, with the addresses done when it stops; after a success without port 0 exactly the addresses of the enabled TCP routes, field by field, are listened on |
| `TcpReconcile.TcpProxy.DropAll` | server/src/tcp_proxy.rs:169-172 | the listeners not wanted and their entries are gone |
| `TcpReconcile.TcpProxy.UpdateAll` | server/src/tcp_proxy.rs:175-182 | the entries of listeners that stay are the wanted routes |
| `TcpReconcile.TcpProxy.AddAll` | server/src/tcp_proxy.rs:185-197 | the new addresses, up to the first that fails |
| `TcpReconcile.TcpProxy.Add` | server/src/tcp_proxy.rs:186-197 | the entry first, then the listener; a failed bind leaves the entry |
| `TcpReconcile.OkExactly` | server/src/tcp_proxy.rs:151-200 | success if and only if all addresses are valid, no new one has an entry and all binds succeed |
| `TcpReconcile.RefinesFreshBuild` | server/src/tcp_proxy.rs:151-200 | after a success every enabled TCP address has the new route, entries of dropped listeners are gone, nothing else changed, and the listeners are those kept and those bound |
| `TcpReconcile.ListenersExactly` | server/src/tcp_proxy.rs:151-200 | the listeners are exactly the enabled TCP addresses if and only if none has port 0; those kept are unchanged |
| `TcpReconcile.ListensExactly` | server/src/tcp_proxy.rs:151-200 | after a success without port 0 an address is listened on if and only if an enabled TCP route has it |
| `TcpReconcile.Idempotent` | server/src/tcp_proxy.rs:151-200 | a second reconcile succeeds, drops nothing, binds nothing |
| `TcpReconcile.StaleExactly` | server/src/tcp_proxy.rs:185-197 | an entry without a listener survives every reconcile and blocks its address; it gets a listener if and only if another address is bound there |
| `TcpReconcile.StaleForever` | server/src/tcp_proxy.rs:185-197 | over any sequence of reconciles such an entry stays and every one that wants its address fails, unless another address is bound there |
| `TcpReconcile.OnlyPortZeroElsewhere` | server/src/tcp_proxy.rs:251-255 | without port 0 no other address is bound there, so the exception does not arise |
| `TcpReconcile.FailureLeavesStale` | server/src/tcp_proxy.rs:190-193 | every failure past the addresses leaves such an entry |
| `TcpReconcile.FailureIsFinal` | server/src/tcp_proxy.rs:190-193 | after a failure every later reconcile of the same routes fails, whatever is reconciled in between and can be bound by then |
| `TcpReconcile.FirstReconcile` | server/src/main.rs:160-173 | the first reconcile after startup succeeds if and only if every address it takes over from a TCP or UDP route of startup was bound then, port 0 included |
| `TcpReconcile.BoundIfWanted` | server/src/main.rs:160-173 | without port 0 an address was bound at startup if and only if its route was an enabled TCP route |
| `TcpReconcile.DisabledForever` | server/src/main.rs:160-173 | an address not bound at startup that a disabled or UDP route had then is refused by every later reconcile |
| `TcpReconcile.RepeatExactly` | server/src/tcp_proxy.rs:251-255 | repeating a successful reconcile succeeds if and only if no enabled TCP route listens on port 0 |
| `HostRoutes.Validate` | server/src/config.rs:83-108 | accepted if and only if, field by field, every route has its host name or valid address, and no two have the same, host names compared letter by letter up to ASCII case |
| `HostRoutes.LowerSame` | server/src/route.rs:59-66 | two names have the same lower case if and only if they are equal letter by letter up to ASCII case |
| `HostRoutes.ValidExactly` | server/src/config.rs:83-108 | distinct identities mean distinct fields: host names up to case, addresses exactly |
| `HostRoutes.ConfigManager.Reload` | server/src/config.rs:56-68 | the snapshot is replaced by validated lists only, otherwise kept |
| `HostRoutes.HostTable.Insert` | server/src/route.rs:211-224 | a second route for a host is refused |
| `HostRoutes.HostTable.Lookup` | server/src/route.rs:227-231 | on a table rebuilt from a validated list, any spelling finds exactly the enabled HTTP or HTTPS route with that host |
| `HostRoutes.HostTable.Reconcile` | server/src/route.rs:242-249 | the loop builds the table from the list alone |
| `HostRoutes.HostMapMeaning` | server/src/route.rs:242-249 | a key holds the last enabled route with it, and is missing exactly if there is none |
| `HostRoutes.LookupExact` | server/src/route.rs:227-249 | after a validated reload a lookup gives a route if and only if it is the enabled HTTP or HTTPS route with that host |
| `HostRoutes.BuildHostTable` | server/src/main.rs:162-168 | startup succeeds if and only if no two routes share a host name, so on every validated list, and enters disabled routes too |
| `HostRoutes.StartupAgrees` | server/src/route.rs:240-249 | startup and reload build the same table if and only if no HTTP or HTTPS route is disabled |
| `HostRoutes.ValidatedEntries` | server/src/tcp_proxy.rs:151-200 | with a validated list each enabled TCP route has its own entry after a success, and its own listener unless its port is 0 |
| `LoginLimiter.PruneEarly` | server/src/login_limiter.rs:43 | failures dropped earlier do not count later |
| `LoginLimiter.Limiter.Prune` | server/src/login_limiter.rs:43 | the retain keeps exactly the failures in the window |
| `LoginLimiter.Limiter.Allows` | server/src/login_limiter.rs:40-45 | let in if and only if fewer failures since the last reset are less than a window old than attempts are allowed; the history stays represented |
| `LoginLimiter.Limiter.RecordFailure` | server/src/login_limiter.rs:48-53 | the history grows by this failure and stays represented |
| `LoginLimiter.Limiter.Reset` | server/src/login_limiter.rs:56-58 | only this user's history is forgotten |
| `LoginLimiter.CountingSize` | server/src/login_limiter.rs:40-45 | the failures kept are as many as are less than a window old |
| `LoginLimiter.LetInExactly` | server/src/api/auth.rs:68-130 | in every run, from the events alone: a login is let in if and only if fewer failures since the last success are less than a window old than attempts are allowed |
| `LoginLimiter.FailuresBounded` | server/src/api/auth.rs:68-130 | between resets no window holds more failures than the limit, plus one for each further login pending at the same time |
| `LoginLimiter.BoundReached` | server/src/api/auth.rs:73-116 | for every policy and every overlap some run reaches that bound |
| `LoginLimiter.LimitExactly` | server/src/api/auth.rs:73-116 | all runs keep every window within the limit if and only if logins do not overlap, none is ever let in or the window is empty |
| `Cidr.MatchesIsInterval` | crates/tunnel-common/src/cidr.rs:50-79 | for both families the mask test is membership in the aligned interval of 2^(width - prefix) addresses |
| `Cidr.SingleAddress` | crates/tunnel-common/src/cidr.rs:50-79 | a block of 32 or 128 bits matches its own address alone |
| `Cidr.WholeFamily` | crates/tunnel-common/src/cidr.rs:50-79 | a block of no bits matches every address of its family and none of the other |
| `Cidr.NestedOrDisjoint` | crates/tunnel-common/src/cidr.rs:50-79 | two blocks that share an address are nested |
| `Acl.EvaluateAcl` | crates/tunnel-core/src/acl.rs:54-70 | allowed if and only if some allow rule and no deny rule speaks of the connection, field by field |
| `Acl.RuleExactly` | crates/tunnel-core/src/acl.rs:20-48 | a rule matches if and only if the address lies in the interval of its block, the ports are equal and the host is equal letter by letter up to ASCII case, for the fields that are set |
| `Acl.FieldsNarrow` | crates/tunnel-core/src/acl.rs:20-48 | a rule without fields matches everything, and setting one field narrows it by exactly that field |
| `Acl.Group` | server/src/acl_store.rs:44-56 | the loop groups the rows into the global rules and those of each route |
| `Acl.AclStore.Reload` | server/src/acl_store.rs:36-58 | the store stands for the rows loaded, or is unchanged on a failed load |
| `Acl.AclStore.Allows` | server/src/acl_store.rs:65-83 | the answer in terms of the rows' own fields: no row applies, or some allow speaks of the connection and no deny |
| `Acl.AllowedExactly` | server/src/acl_store.rs:65-99 | the rows as rules decide as the rows' own fields say, a port out of range being no port |
| `Acl.OrderIrrelevant` | server/src/acl_store.rs:65-83 | neither the order of the rows nor repetition has an effect |
| `Acl.OtherRoutesIrrelevant` | server/src/acl_store.rs:65-83 | rows of other routes have no effect |
| `Acl.RowAsDocumented` | server/src/acl_store.rs:86-99 | a row does what its comment says if and only if its ports are in range or its block can match nothing |
| `Restore.Validate` | server/src/snapshot.rs:223-278 | accepted if and only if, table by table and field by field, nothing required is blank and every reference stays within the snapshot |
| `Restore.SoundExactly` | server/src/snapshot.rs:223-278 | which fields are required and which refer to which table |
| `Restore.InsertableExactly` | migrations/0001_initial.sql:28-105 | field by field, what the database accepts: a free name, and targets for the foreign keys |
| `Restore.Database.RestoreTable` | server/src/snapshot.rs:340-349 | the loop over one table is the function on values, also when it stops |
| `Restore.Database.Restore` | server/src/snapshot.rs:335-402 | an unsound snapshot changes nothing; otherwise the six tables in order |
| `Restore.LoadMerges` | server/src/snapshot.rs:340-349 | a table becomes its merge with the rows, if and only if the merge has no clash; counts add up |
| `Restore.MergeFirst` | server/src/snapshot.rs:340-349 | of rows with the same new id the first is inserted |
| `Restore.AnchoredInTurn` | server/src/snapshot.rs:339 | the order of the tables satisfies every foreign key |
| `Restore.RestoreMerges` | server/src/snapshot.rs:335-402 | success if and only if no unique name clashes; then every table is the merge and inserted + skipped is its row count |
| `Restore.RestoreExactly` | server/src/snapshot.rs:335-402 | a snapshot with sound fields is restored if and only if the merge of the tables has no two nodes, routes or domains with the same name, and the database is that merge then |
| `Restore.RestoreKeepsAndResolves` | server/src/snapshot.rs:335-402 | no existing row changes and every reference of the snapshot resolves |
| `Restore.RestoreTwice` | server/src/snapshot.rs:335-402 | a second restore inserts nothing and changes nothing |
| `Restore.RestoreOnlyAdds` | server/src/snapshot.rs:335-402 | also a restore that fails half way, and a preview, has changed no row |
| `Restore.PreviewAgrees` | server/src/snapshot.rs:335-402 | the preview's report is that of the restore if and only if no table repeats a new id |

## Left out

- Integer widths: versions, session ids and counters are unbounded; only the 32-bit frame length and the decrement of the connection counter wrap as in the source.
- Floating point: tokens are real numbers, so rounding in the buckets is not modelled.
- Concurrency inside one UDP step, one reap, one login check or one reconcile: each is atomic or uninterrupted; the limiter, the two protocols and the two-step login interleave.
- Overlapping connections of one node: cleanup is by node id only, so the protocol model has one live connection at a time.
- The queue shared by configuration and UDP control messages: each protocol is modelled with its own messages, in order.
- Dropped reads in the two protocols: their control streams lose nothing; what a dropped read loses is modelled on the frames alone.
- Order of pushes: pushes are made in version order and with the true old and new tables, as the callers are expected to do.
- ConfigProtocol.QuiescentSync: what was enqueued is a sufficient condition only when a push failed on this connection, because a resync snapshot may have made up for it; and recording an acknowledgement never fails.
- Origin of UDP datagrams: replies are tied to their target only as far as agents answer from sockets they have opened; of other datagrams only `DatagramReach` is stated.
- UDP sessions after an agent reconnect: existing sessions are not announced again, so nothing is said about their liveness.
- Encodings: JSON payloads, the text of addresses and blocks, and UTF-8 repair of host names; a name is its bytes, an address a number or unparsable text.
- Restore columns that are neither checked nor constrained are one text per row.
- TcpProxy drain: the wait for active connections, with its timeout, is not modelled; draining removes the listener.
- HTTP head parsing: depends on a foreign parser.
- Acl documentation of out-of-range ports: agreement is exact per row; over several rows it is not characterised.
- Authentication, certificates, roles, metrics, events, health, reconnect back-off and the web interface: input, output or single branches.
