# Heterogeneous network: verified model

This project models the protocols, data structures and codecs on which nodes of the network
rely, and proves what they keep over whole runs, for all inputs.

| file | what it holds |
|---|---|
| `TrustedState.dfy` | the event-to-actions machine of the trusted (reliable) transport, on values |
| `TrustedSockets.dfy` | the same machine as mutable objects, whose invariant carries the lifecycle |
| `TrustedHandlers.dfy` | what each event does to a caller: reports, deliveries, promises, frames, failures |
| `TrustedExact.dfy` | event by event: which timers start, which frames and retries are issued, how the fields move |
| `TrustedLifecycle.dfy` | what the cached connection state means; which handler throws; which promises settle |
| `TrustedNetwork.dfy` | two endpoints and a network that loses, duplicates and reorders; all runs of one session |
| `TrustedDelivery.dfy` | the invariant of these runs: delivery, confirmation, agreement |
| `TrustedRuns.dfy` | that runs get somewhere: opening, carrying any payloads both ways, closing; and what they break |
| `TrustedRetry.dfy` | how often the retry chain of one request, or of one data frame, transmits |
| `Stream.dfy` | messages cut into fragments and joined again, end to end |
| `Checksum.dfy` | the 16-bit checksum: which frames verify, which corruption is noticed |
| `Topology.dfy`, `TopologyState.dfy` | the replicated topology graph and its two-sided storage of links |
| `FrameIds.dfy`, `Flooding.dfy` | duplicate suppression and broadcast by flooding over any topology |
| `Serde.dfy`, `SerdeBuffers.dfy` | the serde combinators as schemas, and the buffers their loops drive |
| `SerdeWire.dfy` | the wire format byte by byte, and that nothing else is ever read |
| `SerialDecoder.dfy` | frames on a serial line, decoded from chunks of any size |
| `CacheSet.dfy`, `DiscoveryCache.dfy` | the embedded ring cache and the recency-ordered route cache on it |
| `LineReader.dfy` | the resumable reader of one line |
| `Common.dfy` | options, bytes and a few facts about sets and sequences |

**How to read it.** Classes and methods follow the source's objects and loops. Each method states
its result or its new state as a function of the old one (`View()`, `Graph()`, `Contents()`,
`Order()`, `Rest()` give the abstract value), and the lemmas are about these functions. Concurrency
is a choice of moves: timers, link results, deliveries and the application's calls may come in any
order, and the results hold for every choice.

**The trusted transport.** Two copies of the state machine exchange messages over a set that only
grows, so a message can arrive any number of times, in any order, or never. Numbers are cut to 16
bits on the wire. Anybody may inject SYN and SYN-ACK. A session ends for an endpoint at its first
`close` action. `SynSocketState` and `FinSocketState` are one class here, told apart where they
differ: in the failure of an acknowledgement. `Reachable` systems are those some run ends in
(`ReachableByRuns`).

Promises the documentation or the design suggests and that the code does not keep are stated with
the exact condition, and with a run that meets it where it is one on the transport's state: an open
socket goes back to "opening" on two events (`OpenRegresses`; `RegressionHappens` and
`LateSuccessHappens`); one handler throws (`ThrowsExactly`; `ThrowHappens`); the promise of a frame
in flight is left unsettled by every close but one (`InFlightPromise`; `PromiseIsForgotten`); the
bound on transmissions of a SYN or FIN is one on each request's retry chain, and a socket can start
any number of these (`ControlRetriesEnd`; `ChainsAreUnbounded`); data retries have a bound if and
only if refusals or missing acknowledgements have one (`DataRetriesEndExactly`); acknowledgement
65536 is 0 on the wire (`RoundTripConfirms`, `DeliverableExactly`); an intact frame is rejected when
folding once is not enough (`IntactFramesVerify`), which can happen between any two nodes
(`IntactFrameRejected`); 32-bit integers survive below 2^31 only (`UintRoundTrip`), vectors and
length-prefixed bytes up to their length field (`VectorRoundTrip`, `VariableBytesRoundTrip`), serial
frames up to 255 payload bytes (`FrameRoundTrip`); serial frames arrive from a partition of their
encoding if and only if its first chunk is empty (`AnyPartitionExactly`); a serial frame behind
noise is found if and only if the noise ends in a multiple of eight normal preamble bytes
(`NoiseThenFrame`); a cached route counts as expired for a part of each 2^32 milliseconds only
(`ExpiresExactly`).

**Flooding.** Assumed are symmetric neighbour tables and distinct frame ids, no more of them than a
cache holds. Any number of broadcasts run at the same time.

**Serde.** A schema is built from the combinators; transformations and the id of a variant are
arbitrary functions. `Fits` says which values are in range for a schema, `Proper` that a
remaining-bytes field comes last, `Delimited` that there is none.

## Model

| member | source | states |
|---|---|---|
| TrustedDelivery.ReachableIsInvariant | ts-core/src/net/trusted/socket/state.ts:382-560 | every turn of either endpoint, and every forged SYN or SYN-ACK, keeps the invariant between the two books, the messages and the issued actions |
| TrustedDelivery.ExactlyOnceInOrder | ts-core/src/net/trusted/socket/state.ts:399-454 | whatever is lost, duplicated or reordered, what one side reports received is a prefix of what the other framed, which is a prefix of what it accepted, and the sender is at most one frame ahead |
| TrustedDelivery.ConfirmationsAreHonest | ts-core/src/net/trusted/socket/state.ts:417-454 | a send promise resolves Ok, in order, only after the peer reported that payload; at most 65535 are confirmed and no sequence number exceeds 65535 |
| TrustedDelivery.BothSidesAgree | ts-core/src/net/trusted/socket/state.ts:313-350 | without forged messages, `open` and a clean `close` are reported only when each side has received the other's SYN, or FIN |
| TrustedDelivery.RoundTripConfirms | ts-core/src/net/trusted/sequenceNumber.ts:22-48 | one frame there and its acknowledgement back deliver the payload and settle the promise iff the sequence number is below 65535 |
| TrustedRuns.Exchange | ts-core/src/net/trusted/socket/state.ts:278-350 | from two untouched handshakes some turns of the network conclude them on both sides, for opening and for closing |
| TrustedRuns.DeliverableExactly | ts-core/src/net/trusted/socket/state.ts:399-454 | some run delivers and confirms two lists of payloads, one in each direction, on sockets still open iff both have at most 65535 |
| TrustedRuns.ClosableExactly | ts-core/src/net/trusted/socket/state.ts:580-640 | some run delivers and confirms two lists of payloads, one in each direction, and then ends without error on both sides iff both have at most 65535 |
| TrustedRuns.RegressionHappens | ts-core/src/net/trusted/socket/state.ts:334-341 | without anything forged, a run opens a socket and then takes it back to "opening" by a duplicated SYN |
| TrustedRuns.LateSuccessHappens | ts-core/src/net/trusted/socket/state.ts:290-311 | without anything forged, a run opens a socket and then takes it back to "opening" by the late link success of a retried SYN |
| TrustedRuns.PromiseIsForgotten | ts-core/src/net/trusted/socket/state.ts:550-562 | without anything forged, a run accepts any payload and then closes cleanly while that is in flight, settling nothing |
| TrustedRuns.ThrowHappens | ts-core/src/net/trusted/socket/state.ts:642-652 | without anything forged, a run leads to a FIN acknowledgement whose link failure throws |
| TrustedRuns.ChainsAreUnbounded | ts-core/src/net/trusted/socket/state.ts:334-341 | the peer's SYN, delivered repeatedly before one's own was sent, starts any number of retry chains |
| TrustedNetwork.ReachableByRuns | ts-core/src/net/trusted/socket/index.ts:23-55 | the reachable systems are exactly those some list of turns ends in |
| TrustedNetwork.SwapIsReachable | ts-core/src/net/trusted/socket/index.ts:23-55 | what one endpoint can reach the other can reach too, so every result holds in both directions |
| TrustedHandlers.PromisesAreConserved | ts-core/src/net/trusted/socket/state.ts:483-562 | for every event the promises owed before it and the one it makes are, in this order, the one it forgets, those it settles and those owed after it; only a close forgets one |
| TrustedExact.WaitsExactly | ts-core/src/net/trusted/socket/state.ts:290-545 | every wait an event leads to: the acknowledgement timeout for that of exactly the frame just sent, with the budget it was sent with, a data frame only while one is in flight; or the retry interval for exactly the refused send with one link attempt less, or the unacknowledged data frame with one acknowledgement less, the other budget full again |
| TrustedExact.SendsExactly | ts-core/src/net/trusted/socket/state.ts:278-454 | every send an event leads to at once: five attempts each, or, of a request whose acknowledgement is missing, with one acknowledgement less |
| TrustedExact.OrderedActions | ts-core/src/net/trusted/socket/state.ts:435-454 | no action is issued twice by an event; a new data frame comes before the payload received, that before its acknowledgement, and an acknowledgement before a request |
| TrustedExact.RefusesExactly | ts-core/src/net/trusted/socket/state.ts:278-284 | a call is refused iff its handshake has begun, or, for a send, iff data is not open |
| TrustedExact.HandshakesMove | ts-core/src/net/trusted/socket/state.ts:290-350 | a request counts as sent whenever the link says so and as acknowledged if it was sent; the peer's request counts as heard whenever it comes and as acknowledged once the link took the acknowledgement |
| TrustedExact.DataMoves | ts-core/src/net/trusted/socket/state.ts:399-462 | the payloads accepted and not settled form a queue; an acknowledgement beyond the frame in flight takes its head and becomes the sequence number; every new frame holds the head, that number and the receive number of that moment |
| TrustedExact.ClosesToFresh | ts-core/src/net/trusted/socket/state.ts:550-562 | whatever closes a session leaves the socket as a new one |
| TrustedLifecycle.StateIsAlwaysIntended | ts-core/src/net/trusted/socket/state.ts:670-712 | after any events: the cached state is closing iff FIN has begun, else open iff SYN is finished both ways, else opening iff both sides have begun, else closed; listeners hear every change and none twice in a row; data is open only if the state is not closed |
| TrustedLifecycle.StepKeepsConsistent | ts-core/src/net/trusted/socket/state.ts:679-712 | every event keeps the cached state the one the two handshakes imply |
| TrustedLifecycle.FollowKeepsFaithful | ts-core/src/net/trusted/socket/state.ts:679-712 | every event keeps the lifecycle the socket objects carry in their invariant |
| TrustedLifecycle.OpenRegresses | ts-core/src/net/trusted/socket/state.ts:290-341 | an open socket goes back to "opening" exactly on a received SYN or on a late link success of its own SYN |
| TrustedLifecycle.ThrowsExactly | ts-core/src/net/trusted/socket/state.ts:642-652 | a handler throws exactly when sending a FIN acknowledgement fails with budget left |
| TrustedLifecycle.InFlightPromise | ts-core/src/net/trusted/socket/state.ts:464-481 | a close settles the promise of the frame in flight iff it is that frame's acknowledgement timeout that closes |
| TrustedLifecycle.HookSettles | ts-core/src/net/trusted/socket/state.ts:679-712 | the hook's loop amounts to one open, one close or nothing, and then the handshakes decide |
| TrustedRetry.ControlRetriesEnd | ts-core/src/net/trusted/socket/state.ts:45-93 | the retry chain of one request transmits its SYN or FIN at most 2 * RETRY_COUNT + 1 times, whatever else happens to the socket in between |
| TrustedRetry.ControlRetriesAreTight | ts-core/src/net/trusted/socket/state.ts:290-332 | that bound is reached from every socket that has not sent yet |
| TrustedRetry.DataChainIsBounded | ts-core/src/net/trusted/socket/state.ts:96-177 | a data frame is transmitted at most as often as its acknowledgement budget allows and again for each link refusal, at most as its link budget allows and again for each missing acknowledgement, and at least once for each refusal |
| TrustedRetry.DataRetriesAreBounded | ts-core/src/net/trusted/socket/state.ts:96-177 | a data frame is transmitted at most (RETRY_COUNT + 1) * (1 + setbacks) times, setbacks being refusals or missing acknowledgements, whichever are fewer |
| TrustedRetry.DataRetriesAreTight | ts-core/src/net/trusted/socket/state.ts:128-177 | that bound is reached for every number of setbacks by every frame in flight, so data retries need not end |
| TrustedRetry.DataRetriesEndExactly | ts-core/src/net/trusted/socket/state.ts:128-177 | over any set of scripts the transmissions have a bound iff the setbacks have one |
| TrustedSockets.DataSocketState.OnClose | ts-core/src/net/trusted/socket/state.ts:550-562 | closing settles every waiting payload as timed out and resets the numbers; the frame in flight is dropped |
| TrustedSockets.SocketState.constructor | ts-core/src/net/trusted/socket/state.ts:670-677 | a new socket is closed, with untouched handshakes, and nobody was told anything |
| TrustedSockets.SocketState.Hook | ts-core/src/net/trusted/socket/state.ts:679-712 | the state listeners are told of a change once, after all actions have taken effect |
| TrustedSockets.SocketState.OnReceive | ts-core/src/net/trusted/socket/state.ts:722-733 | every kind of frame reaches its sub-machine and then the hook, as one step of the machine |
| TrustedSockets.SocketState.OnSendSuccess | ts-core/src/net/trusted/socket/state.ts:735-748 | a link success is one step of the machine (which timers it starts: `TrustedExact.WaitsExactly`) |
| TrustedSockets.SocketState.OnSendFailure | ts-core/src/net/trusted/socket/state.ts:750-763 | a link failure is one step of the machine, and leaves everything as it was when it throws |
| TrustedSockets.SocketState.OnReceiveAckTimeout | ts-core/src/net/trusted/socket/state.ts:765-773 | a timeout is one step of the machine |
| TrustedSockets.SocketState.SendData | ts-core/src/net/trusted/socket/state.ts:779-783 | a send is one step of the machine, refused unless the data machine is open |
| TrustedHandlers.ReportsExactly | ts-core/src/net/trusted/socket/state.ts:313-350 | `open`, or a clean `close`, is reported iff the event is the acknowledgement that was still missing, received or sent, and exactly then the handshake finishes |
| TrustedHandlers.AnswersExactly | ts-core/src/net/trusted/socket/state.ts:334-341 | an acknowledgement is issued iff a request arrived; but for retries, a request is issued iff the application asks on an untouched machine or the peer's request comes before one's own |
| TrustedHandlers.BudgetsStayInRange | ts-core/src/net/trusted/socket/state.ts:21-242 | no event issues an action whose counters are out of range, inside delays included, and acknowledgements keep theirs in full |
| TrustedHandlers.AcksAreNeverRetried | ts-core/src/net/trusted/socket/state.ts:529-544 | an acknowledgement whose sending fails is never sent again: it is ignored, ends the session, or throws |
| TrustedHandlers.FailsExactly | ts-core/src/net/trusted/socket/state.ts:301-362 | the session is given up iff a budget is used up for something still waited for, or an acknowledgement still due cannot be sent |
| TrustedHandlers.DeliversExactly | ts-core/src/net/trusted/socket/state.ts:435-454 | a payload is delivered iff it arrives on an open socket with the expected number, which then moves on by one |
| TrustedHandlers.AcknowledgesExactly | ts-core/src/net/trusted/socket/state.ts:435-454 | frames up to the expected one are acknowledged with the number expected next, later ones are not |
| TrustedHandlers.SettlesExactly | ts-core/src/net/trusted/socket/state.ts:417-433 | a promise resolves Ok iff it is that of the frame in flight and an acknowledgement beyond its number arrives |
| TrustedHandlers.StopAndWait | ts-core/src/net/trusted/socket/state.ts:399-433 | but for retries, a data frame is created iff another one than before is in flight afterwards; it has the next number, which never goes back |
| TrustedDelivery.FrameArrives | ts-core/src/net/trusted/socket/state.ts:435-454 | the frame a socket waits for is delivered and acknowledged with the next number |
| TrustedDelivery.AckReturns | ts-core/src/net/trusted/socket/state.ts:417-433 | an acknowledgement settles the frame in flight iff it is beyond it |
| Stream.SendEntry | ts-core/src/net/stream/socket.ts:113-130 | a message of n bytes becomes (n + limit - 1) / limit frames: all but the last of exactly the limit, none empty, only the last one marked, and their data together are the message |
| Stream.FrameAccumulator.Take | ts-core/src/net/stream/socket.ts:19-31 | the result is the concatenation of all payloads added, and the accumulator is empty again |
| Stream.StreamReceiver.OnReceive | ts-core/src/net/stream/socket.ts:151-164 | what does not deserialize is ignored; an unmarked fragment is held; a marked one reports everything held since the last message together with it |
| Stream.FrameOnTheWire | ts-core/src/net/stream/frame.ts:12-19 | the frame's object serdeable writes the mark, 1 or 0, and then the data |
| Stream.FrameOffTheWire | ts-core/src/net/stream/frame.ts:12-19 | it reads the mark and the data, and rejects a payload iff it is empty or its mark is neither 0 nor 1 |
| Stream.ReassemblesExactly | ts-core/src/net/stream/socket.ts:113-164 | fragmenting with any positive limits and joining gives back the non-empty messages, in order |
| Stream.PrefixReassembles | ts-core/src/net/stream/socket.ts:113-164 | any prefix of the fragments yields a prefix of the messages |
| Stream.EndToEnd | ts-core/src/net/stream/socket.ts:101-164 | over every run of the trusted transport, in both directions, the receiver reports a prefix of the messages sent |
| Checksum.ChecksumWriter.WriteByte | ts-core/src/net/trusted/checksum.ts:27-62 | the writer's words are those of all bytes written so far, whatever the split into calls |
| Checksum.ChecksumWriter.Checksum | ts-core/src/net/trusted/checksum.ts:69-77 | the complement of the once-folded word sum of everything written |
| Checksum.ChecksumWriter.Verify | ts-core/src/net/trusted/checksum.ts:69-83 | accepts iff the once-folded word sum is all ones |
| Checksum.AcceptedSums | ts-core/src/net/trusted/checksum.ts:17-24 | below 2^32 the accepted sums are the positive multiples of 65535, except 2^32 - 1 |
| Checksum.IntactFramesVerify | ts-core/src/net/trusted/frame.ts:199-260 | an intact frame is accepted iff folding the carry once was enough when it was created |
| Checksum.CreateAndVerify | ts-core/src/net/trusted/frame.ts:199-260 | what the receiver answers to a created frame |
| Checksum.IntactFrameRejected | ts-core/src/net/trusted/frame.ts:27-57 | between any two nodes, for any numbers and ports, some data frame with five payload bytes is rejected although it arrives intact |
| Checksum.RejectedExample | ts-core/src/net/trusted/frame.ts:199-260 | such a frame: the first of a session from one serial node to another |
| Checksum.FrameLayout | ts-core/src/net/trusted/frame.ts:27-57 | the bytes summed up of each kind of frame and of its pseudo header, in little-endian order |
| Checksum.CorruptionNoticed | ts-core/src/net/trusted/checksum.ts:21-24 | a change of an accepted frame's sum by no multiple of 65535 is noticed |
| Checksum.SingleByteNoticed | ts-core/src/net/trusted/checksum.ts:21-24 | any change of a single byte in a frame of up to 128 KiB is noticed |
| Topology.StoredOnce | ts-core/src/net/node/networkState.ts:51-78 | a link is strong at exactly one end and weak at the other, no target is missing, and the stored graph is undirected |
| Topology.StoreLinkConnects | ts-core/src/net/node/networkState.ts:171-179 | storing strong and weak halves connects the two nodes in the undirected graph and keeps the storage rule |
| Topology.StrongTells | ts-core/src/net/node/networkState.ts:106-113 | the strong half alone decides correctly whether a link is news |
| Topology.UnlinkDisconnects | ts-core/src/net/node/networkState.ts:67-69 | removing from the strong table, or else from the weak one, at both ends disconnects exactly that link |
| Topology.SyncIsTheReport | ts-core/src/net/node/networkState.ts:192-209 | after a node's report its links are the reported ones, seen from both ends, the last entry winning; every other link is as it was |
| Topology.SyncKeepsAttributes | ts-core/src/net/node/networkState.ts:192-209 | a report makes the source and the reported nodes known and changes no attribute |
| Topology.NodeUpdateMeans | ts-core/src/net/node/networkState.ts:96-104 | replaying a node update: the given fields of that node, and nothing else, are what they are given as |
| Topology.NodeRemovalMeans | ts-core/src/net/node/networkState.ts:211-220 | replaying a node removal: the node and the links to it are gone, all else is as it was |
| Topology.LinkUpdateMeans | ts-core/src/net/node/networkState.ts:171-179 | replaying a link update: both nodes are learnt, the link has its cost at both ends, all else is as it was |
| Topology.LinkRemovalMeans | ts-core/src/net/node/networkState.ts:181-190 | replaying a link removal: that link is gone at both ends, all else is as it was |
| TopologyState.NetworkState.GetOrUpdateNode | ts-core/src/net/node/networkState.ts:92-104 | each given field becomes the node's, each missing one stays as it was (none for a new node), links and other nodes are untouched, and the given node is returned as an update iff it is new or a given field differs |
| TopologyState.NetworkState.Prioritize | ts-core/src/net/node/networkState.ts:129-150 | the end with the smaller priority is strong, a node seen for the first time gets the next priority, and priorities once given never change |
| TopologyState.NetworkState.StoreLink | ts-core/src/net/node/networkState.ts:171-179 | the graph is connected as asked, and that is told, once and from the strong end, iff it is news |
| TopologyState.NetworkState.UpdateLink | ts-core/src/net/node/networkState.ts:171-179 | both nodes and the link are known afterwards; the returned updates, each of them news, explain the change to any replica |
| TopologyState.NetworkState.RemoveLink | ts-core/src/net/node/networkState.ts:181-190 | exactly that link is gone, from both ends, and its removal is returned iff it was there |
| TopologyState.NetworkState.SyncLink | ts-core/src/net/node/networkState.ts:192-209 | the report replaces what was known of the source's links; the returned updates, each of them news, explain it |
| TopologyState.NetworkState.RemoveNode | ts-core/src/net/node/networkState.ts:211-220 | the node and all its links are gone; the removal of each of its links is returned, and then its own |
| TopologyState.NetworkState.GetUnreachableNodes | ts-core/src/net/node/networkState.ts:222-247 | the search ends, with exactly the nodes to which there is no path |
| TopologyState.NetworkState.RemoveUnreachable | ts-core/src/net/node/networkState.ts:211-247 | removing what the search returns leaves the component of the initial node as it was, all of it still reachable |
| TopologyState.NetworkState.DumpLinks | ts-core/src/net/node/networkState.ts:249-263 | the strong links of one node are added to the listing, each once |
| TopologyState.NetworkState.DumpAsUpdates | ts-core/src/net/node/networkState.ts:249-263 | the dump lists all nodes first and then each link once, from its strong end, and rebuilds the same graph from nothing |
| TopologyState.NetworkState.ApplyUpdates | ts-core/src/net/node/networkState.ts:265-278 | any update list changes the graph as its replay does; the returned updates explain that to the next replica and leave out whatever was no news |
| TopologyState.Mirror | ts-core/src/net/node/networkState.ts:152-278 | a replica that applies the returned updates has the same graph after any operations, whichever ends its own table calls strong |
| Topology.SearchEnds | ts-core/src/net/node/networkState.ts:222-247 | when the queue is empty, what was not visited is what cannot be reached |
| Topology.ComponentIsWhatRemains | ts-core/src/net/node/networkState.ts:222-247 | no remaining node had a link to a removed one |
| Topology.ComponentStaysReachable | ts-core/src/net/node/networkState.ts:222-247 | every remaining node is still reachable among the remaining ones |
| FrameIds.Remembered | ts-core/src/net/discovery/frameId.ts:41-47 | a new id is remembered until as many different others as the cache holds have come, however often each comes and whatever was cached before |
| FrameIds.NothingPushedOut | ts-core/src/net/discovery/frameId.ts:41-47 | while all ids in circulation fit, inserting adds the id and forgets none |
| FrameIds.AsymmetricalFrameIdCache.Generate | ts-core/src/net/routing/frameIdCache.ts:12-21 | drawing ends with an id that was not received, and both caches remember what they should of it and of the rejected draws |
| FrameIds.DrawEnds | ts-core/src/net/routing/frameIdCache.ts:12-21 | drawing ends at the latest with the first draw that neither cache knows, whatever was pushed out meanwhile |
| FrameIds.DrawsFreshIds | ts-core/src/net/routing/frameIdCache.ts:12-21 | while nothing is pushed out, a generated id was neither sent nor received before |
| FrameIds.DrawsTheFirstUnknown | ts-core/src/net/routing/frameIdCache.ts:12-21 | while nothing is pushed out, the first draw that neither cache knows is taken, and all draws up to it are remembered as sent |
| FrameIds.RoutingSocket.HandleReceivedFrame | ts-core/src/net/routing/socket.ts:110-135 | an id not received before is delivered, and forwarded unless it was sent from here; any other is dropped |
| Flooding.GenerateIsARun | ts-core/src/net/routing/frameIdCache.ts:12-21 | generating an id and broadcasting it is some steps of the flood: they leave the caches as generating does, and the id was never started before |
| Flooding.ArriveIsLocal | ts-core/src/net/routing/socket.ts:110-135 | broadcasts of different ids do not influence each other |
| Flooding.RunKeepsInvariant | ts-core/src/net/routing/socket.ts:69-135 | every start, arrival, loss and rejected draw keeps the invariant of places, counts and coverage of every id |
| Flooding.AtMostOnce | ts-core/src/net/routing/socket.ts:110-135 | in every run each node delivers and sends an id at most once, so transmissions are at most the sum of the numbers of targets |
| Flooding.FloodsEnd | ts-core/src/net/routing/socket.ts:110-135 | a run spends a bounded number of steps on an id, and the bound depends on the topology only |
| Flooding.EverybodyDelivers | ts-core/src/net/routing/socket.ts:81-135 | when nothing is in flight and nothing was lost, exactly the nodes connected to the origin have delivered, once |
| Flooding.QuietFloodIsComplete | ts-core/src/net/routing/socket.ts:81-135 | a flood that has come to rest without loss has reached everything connected to its origin |
| Serde.UintRoundTrip | ts-core/src/serde/primitives.ts:51-79 | an integer survives iff it is below 2^8 or 2^16, or, in four bytes, a signed 32-bit number |
| SerdeWire.UintOnTheWire | ts-core/src/serde/primitives.ts:63-79 | byte i of an integer, negative ones included, is (n / 256^i) % 256 |
| SerdeWire.UintOffTheWire | ts-core/src/serde/primitives.ts:51-61 | the bytes are added up by the weights 256^i, the last of four with its sign; fewer bytes are an error |
| SerdeWire.BoolOnTheWire | ts-core/src/serde/primitives.ts:14-36 | a boolean is the byte 0 or 1; every other byte is an invalid value |
| SerdeWire.OptionalOnTheWire | ts-core/src/serde/optional.ts:13-34 | the byte 0 for a missing value, 1 before one that is there; every other byte is an invalid value |
| SerdeWire.EnumOnTheWire | ts-core/src/serde/enum.ts:16-37 | members are written as their numbers; a number that is no member is an invalid value, and throws when written |
| SerdeWire.TupleOnTheWire | ts-core/src/serde/tuple.ts:41-53 | the items in order, with nothing between them |
| SerdeWire.ObjectOnTheWire | ts-core/src/serde/object.ts:66-80 | the fields in the order of the schema, without names; a missing field that is not optional throws |
| SerdeWire.VectorOnTheWire | ts-core/src/serde/vector.ts:31-46 | the number of items and then the items in order |
| SerdeWire.BytesOnTheWire | ts-core/src/serde/bytes.ts:79-99 | the number of bytes and then the bytes |
| SerdeWire.BytesOffTheWire | ts-core/src/serde/bytes.ts:66-77 | as many bytes as the length says, or there are too few |
| SerdeWire.TransformOnTheWire | ts-core/src/serde/transform.ts:1-39 | written as what it is made of, read by making it again, which may fail |
| SerdeWire.VariantOnTheWire | ts-core/src/serde/variant.ts:33-42 | one byte for the id and then the alternative of that id; without one it throws |
| SerdeWire.VariantOffTheWire | ts-core/src/serde/variant.ts:12-20 | the alternative of the id is read; an id that no alternative has is an invalid value |
| SerdeWire.NothingElseIsRead | ts-core/src/serde/tuple.ts:21-53 | for every schema with one encoding per value, whatever bytes are read as a value begin with the encoding of that value: no other bytes are accepted |
| Serde.NumberedFrom1 | ts-core/src/serde/variant.ts:23-49 | index i of a variant is the serdeable at i - 1; 0 and indices beyond the last are none |
| Serde.FieldsNeedValues | ts-core/src/serde/object.ts:66-80 | an object is serialized only if every field but the optional ones has a value |
| Serde.LengthIsExact | ts-core/src/serde/tuple.ts:41-53 | every serializer a schema builds announces the lengths of what its parts write |
| Serde.AnnouncedLength | ts-core/src/serde/array.ts:54-66 | the announced length is the number of bytes written |
| Serde.RoundTrip | ts-core/src/serde/tuple.ts:21-53 | for every proper schema and every value that fits, whatever bytes follow (none after a remaining-bytes field), deserializing gives the value and leaves the bytes |
| Serde.TupleRoundTrip | ts-core/src/serde/tuple.ts:21-72 | the same for the fields of a tuple, read one after the other |
| Serde.ItemsRoundTrip | ts-core/src/serde/array.ts:28-66 | the same for the items of an array |
| Serde.FieldsRoundTrip | ts-core/src/serde/object.ts:24-57 | the same for the named fields of an object |
| Serde.OptionalReadsBack | ts-core/src/serde/optional.ts:13-34 | presence and value survive |
| Serde.VariantReadsBack | ts-core/src/serde/variant.ts:12-49 | the alternative is chosen again by its id |
| Serde.VariableBytesRoundTrip | ts-core/src/serde/bytes.ts:79-99 | length-prefixed bytes come back iff their number fits the length field |
| Serde.VectorRoundTrip | ts-core/src/serde/vector.ts:15-70 | a vector of values that fit comes back iff its length fits the length field |
| Serde.PrefixFree | ts-core/src/serde/tuple.ts:45-53 | encodings of different values are never the beginning of one another |
| Serde.NeverReadsBack | ts-core/src/serde/bytes.ts:56-60 | no value of a tuple or object ever comes back if a field that needs a byte stands behind remaining bytes |
| SerdeBuffers.BufferWriter.WriteBytes | ts-core/src/net/buffer.ts:33-50 | bytes are written in full behind what was written, or not at all |
| SerdeBuffers.Serialize | ts-core/src/serde/tuple.ts:45-53 | the loops write the encoding, and succeed iff it fits into what is left of the buffer |
| SerdeBuffers.SerializeValue | ts-core/src/net/buffer.ts:27-57 | the buffer allocated from the announced length is filled exactly, so neither bounds nor `unwrapBuffer` fail |
| SerdeBuffers.BufferReader.ReadBytes | ts-core/src/net/buffer.ts:72-88 | the next bytes are returned and consumed, or too few are reported and none consumed |
| SerdeBuffers.BufferReader.ReadBytesMax | ts-core/src/net/buffer.ts:110-114 | as many bytes as there are, up to the limit |
| SerdeBuffers.Deserialize | ts-core/src/serde/object.ts:24-34 | reading through the mutable reader gives the value, the error and the rest that decoding the bytes gives |
| SerdeBuffers.DeserializeTuple | ts-core/src/serde/tuple.ts:21-31 | the loop reads the fields in order and stops at the first error |
| SerdeBuffers.DeserializeArray | ts-core/src/serde/array.ts:28-42 | the loop reads as many items as asked for and stops at the first error |
| SerdeBuffers.DeserializeObject | ts-core/src/serde/object.ts:24-34 | the loop fills every field of the schema and stops at the first error |
| SerdeBuffers.WriteAndRead | ts-core/src/net/buffer.ts:27-70 | a value that fits survives being written to a buffer and read from it |
| SerialDecoder.FrameSchemaBytes | ts-core/media/serial-core/index.ts:26-34 | the frame's object serdeable writes protocol, sender, receiver, the length cut to a byte, and the payload |
| SerialDecoder.FrameOnTheLine | ts-core/media/serial-core/index.ts:7-34 | seven bytes 0xAA and one 0xAB, then protocol, sender, receiver, length and payload |
| SerialDecoder.RunSplits | ts-core/media/serial-core/index.ts:36-97 | where the bytes are cut makes no difference to the decoder |
| SerialDecoder.ChunksDoNotMatter | ts-core/media/serial-core/index.ts:36-97 | a list of chunks, empty ones included, is decoded like their concatenation |
| SerialDecoder.NoiseExactly | ts-core/media/serial-core/index.ts:43-55 | a search has found nothing in the bytes before it iff none of them completes a preamble, and then it stands at the length of their final run of normal preamble bytes modulo eight |
| SerialDecoder.NoiseThenPreamble | ts-core/media/serial-core/index.ts:43-55 | behind noise that holds no preamble, a preamble is recognized iff the final run of normal preamble bytes has a multiple of eight |
| SerialDecoder.NoiseThenFrame | ts-core/media/serial-core/index.ts:43-97 | behind noise that holds no preamble, a frame is decoded iff the final run of normal preamble bytes has a multiple of eight; then it is all that is decoded |
| SerialDecoder.NoiseIsSkipped | ts-core/media/serial-core/index.ts:43-97 | so noise without normal preamble bytes never gets in the way of a frame |
| SerialDecoder.FramesTakeRoom | ts-core/media/serial-core/index.ts:43-97 | no frames are decoded from fewer bytes than they have together |
| SerialDecoder.UnknownProtocolIsFatal | ts-core/media/serial-core/index.ts:57-70 | after an unknown protocol number nothing is ever decoded again |
| SerialDecoder.FrameRun | ts-core/media/serial-core/index.ts:122-126 | an encoded frame is decoded with as much payload as its length byte says, and the rest is searched for preambles |
| SerialDecoder.FrameRoundTrip | ts-core/media/serial-core/index.ts:122-126 | a frame comes through alone iff its payload has at most 255 bytes |
| SerialDecoder.DeserializerInvertsSerializer | ts-core/media/serial-core/index.ts:36-126 | after a first chunk, which is lost, any partition of the encoding of any valid frames yields exactly these frames in order |
| SerialDecoder.AnyPartitionExactly | ts-core/media/serial-core/index.ts:99-126 | cut into chunks in any way, encoded frames arrive iff the first chunk is empty |
| SerialDecoder.SerialFrameDeserializer.NextPreambleByte | ts-core/media/serial-core/index.ts:43-55 | one byte of the search for a preamble |
| SerialDecoder.SerialFrameDeserializer.NextHeaderByte | ts-core/media/serial-core/index.ts:57-70 | one byte of the header; an unknown protocol breaks the generator |
| SerialDecoder.SerialFrameDeserializer.NextBodyBytes | ts-core/media/serial-core/index.ts:72-89 | copying a stretch of the body at once is the same as taking it byte by byte |
| SerialDecoder.SerialFrameDeserializer.DispatchReceivedBytes | ts-core/media/serial-core/index.ts:110-119 | the first buffer only starts the generator; every later one is decoded where the last one stopped, and throws once the generator is broken |
| SerialDecoder.Receive | ts-core/media/serial-core/index.ts:99-120 | what the callback has received after any chunks |
| CacheSets.EverySlotOccurs | arduino/lib/tl/src/tl/cache_set.h:32-82 | the index map is a permutation: no slot is ever lost |
| CacheSets.IndexMap.constructor | arduino/lib/tl/src/tl/cache_set.h:38-42 | all slots are free |
| CacheSets.IndexMap.Advance | arduino/lib/tl/src/tl/cache_set.h:18-20 | the slots are read from the next one on |
| CacheSets.IndexMap.PopOldest | arduino/lib/tl/src/tl/cache_set.h:52-55 | the oldest slot becomes free; on an empty map the size wraps around to 255 |
| CacheSets.IndexMap.Push | arduino/lib/tl/src/tl/cache_set.h:57-65 | a slot not in use is taken, or the oldest one when all are in use |
| CacheSets.IndexMap.Remove | arduino/lib/tl/src/tl/cache_set.h:67-77 | the shifting loop gives back one slot, keeps the order of the others and remains a permutation |
| CacheSets.IndexMap.Resolve | arduino/lib/tl/src/tl/cache_set.h:79-81 | the slot of the i-th oldest entry, in range |
| CacheSets.CacheSet.Push | arduino/lib/tl/src/tl/cache_set.h:104-107 | appends, and drops only the oldest when full |
| CacheSets.CacheSet.Remove | arduino/lib/tl/src/tl/cache_set.h:127-129 | deletes exactly the i-th in order |
| CacheSets.CacheSet.RemoveIf | arduino/lib/tl/src/tl/cache_set.h:132-158 | the loop removes all matches, or only the first, and keeps the order of the rest |
| CacheSets.CacheSet.Get | arduino/lib/tl/src/tl/cache_set.h:160-166 | the i-th entry, or none beyond the last |
| CacheSets.CacheSet.FindIndex | arduino/lib/tl/src/tl/cache_set.h:168-178 | the first match, or none if nothing matches |
| CacheSets.CacheSet.GetIf | arduino/lib/tl/src/tl/cache_set.h:115-125 | the first match, or none if nothing matches |
| CacheSets.WithoutKeepsOrder | arduino/lib/tl/src/tl/cache_set.h:132-158 | every entry that stays stands behind exactly those before it that stay |
| DiscoveryCache.ExpiresExactly | arduino/lib/net/src/net/discovery/cache.h:64-68 | an entry counts as expired iff the time since its update, modulo 2^32 ms, is at least ten seconds and below 2^31 ms |
| DiscoveryCache.HeldByRecency | arduino/lib/net/src/net/discovery/cache.h:21-69 | in every history each destination is held at most once, with its latest update, in the order of these updates, and never more than the capacity |
| DiscoveryCache.LookupIsLatest | arduino/lib/net/src/net/discovery/cache.h:53-62 | a route found is the one of the latest update of its destination |
| DiscoveryCache.UpdateEvictsTheOldest | arduino/lib/net/src/net/discovery/cache.h:26-45 | an update changes no other destination, except that one new to a full cache drops the least recently updated |
| DiscoveryCache.HeldExactly | arduino/lib/net/src/net/discovery/cache.h:21-69 | in every history a destination is held iff no removal has taken it since its last update and at no time since then as many others as the capacity were newer and kept |
| DiscoveryCache.HeldWhileRecent | arduino/lib/net/src/net/discovery/cache.h:21-69 | in every history a route neither removed nor found expired since its last update is held while fewer destinations than the capacity were updated after it |
| DiscoveryCache.HeldByNumber | arduino/lib/net/src/net/discovery/cache.h:26-45 | in histories of updates a destination is held iff fewer than the capacity were updated after it |
| DiscoveryCache.DiscoveryCacheSet.Update | arduino/lib/net/src/net/discovery/cache.h:26-45 | removal and push together are one update of the history |
| DiscoveryCache.DiscoveryCacheSet.Remove | arduino/lib/net/src/net/discovery/cache.h:47-51 | the first entry whose route goes through the gateway is removed, and nothing if there is none |
| DiscoveryCache.DiscoveryCacheSet.RemoveExpired | arduino/lib/net/src/net/discovery/cache.h:64-68 | exactly the expired entries are removed |
| DiscoveryCache.DiscoveryCacheSet.Get | arduino/lib/net/src/net/discovery/cache.h:53-62 | the value held for a destination |
| LineReader.AsyncDiscardingSingleLineDeserializer.Deserialize | arduino/lib/nb/src/nb/serde/de.h:443-461 | over any number of polls exactly the bytes up to the first line break are consumed, counting a CR read before |
| LineReader.AsyncMaxLengthSingleLineBytesDeserializer.Deserialize | arduino/lib/nb/src/nb/serde/de.h:501-524 | however often it is polled it never reads behind the first line break, is Ok with the line iff that fits, and Invalid otherwise |
| LineReader.AsyncMaxLengthSingleLineBytesDeserializer.FillBuffer | arduino/lib/nb/src/nb/serde/de.h:506-514 | the buffer holds what was read until it is full or the line is complete |
| LineReader.AsyncMaxLengthSingleLineBytesDeserializer.Discard | arduino/lib/nb/src/nb/serde/de.h:516-523 | the rest of a line too long is thrown away up to its line break, also when CR and LF are split by the end of the buffer |
| LineReader.FirstLineOf | arduino/lib/nb/src/nb/serde/de.h:464-470 | a line that ends with its only line break is the first line of any stream it begins |
| LineReader.FirstLineExactly | arduino/lib/nb/src/nb/serde/de.h:464-470 | the first line ends with the first byte 10 that stands behind a byte 13 |
| LineReader.ReadLine | arduino/lib/nb/src/nb/serde/de.h:476-525 | for any bytes with any waits in between: exactly the first line is taken from the stream, and it is the result iff it fits |

## Left out

- Promises, timers, event brokers and abort signals of `TrustedSocket` (ts-core/src/net/trusted/socket/index.ts): its interpreter of actions interleaves with everything else, so it is the choice of moves in `TrustedNetwork`, not a loop; `accept` and `connect` beyond their first event are not modelled.
- Reopening a socket after `close`, and frames of an earlier session: numbers restart at zero without an epoch, so the results are about one session.
- The deferred that `SendDataAction.create` makes for itself: nobody holds it, so the model has one promise per send, the caller's.
- TrustedDelivery.BothSidesAgree: says nothing about SYN once a SYN or SYN-ACK was forged; about FIN it always holds.
- Stream.EndToEnd: is about the payloads the send loop hands over; the loop stops at the first failed send, and a payload limit that is not positive, for which it would not end, is excluded.
- The trusted frame on the wire beyond its layout: the checksum results hold for any bytes behind the checksum word, those of a frame with its pseudo header among them.
- Checksum.CorruptionNoticed: sums of 2^32 and more, which no frame reaches, are not covered.
- `PartialNode` objects shared between node and updates: attributes are values here, so an update does not change later with the node.
- Map iteration order in the topology: proved for every order, so no particular order of updates is stated.
- FrameIds.AsymmetricalFrameIdCache.Generate: the random draws are a parameter, of which some must be unknown to both caches; that random draws hit one is a matter of probability.
- Flooding.EverybodyDelivers: assumes distinct ids that all fit into a cache, symmetric neighbour tables and at most one frame per neighbour and broadcast; two media that reach the same neighbour are not modelled.
- Unicast and multicast routing, discovery and route choice: they depend on caches, timing and neighbour expiry.
- `Uint64Serdeable` and dates: shifts beyond 31 bits wrap around, so these lose values by design of the operators.
- Serde.RoundTrip: a negative length read back from a four-byte length field is treated as an error, where the reader would step backwards; bitwise operators are written as arithmetic.
- Serde.NeverReadsBack: the same holds for it, as far as a field between the two reads a negative length.
- SerdeWire.BytesOffTheWire: the same negative length again; SerdeWire.NothingElseIsRead treats it as an error, too.
- The durations of the two kinds of wait are names here, `AckTimeout` and `RetryInterval`, not milliseconds.
- Text of errors and the byte counts they carry: only the kind of an error is modelled.
- SerialDecoder.NoiseThenFrame: noise that completes a preamble is not noise but the beginning of some frame; what follows it is decoded as the header and body it announces.
- A second `onReceive` registration, and callbacks that throw, in the serial deserializer.
- CacheSets.IndexMap.PopOldest: on an empty map only the wrapped size is stated, since the map is unusable afterwards.
- Destructors of cached entries, and `DiscoveryCache`, which asks a node-id and a cluster-id cache set in turn.
- LineReader.ReadLine: excludes errors of the underlying reader; the deserializers' own contracts say that these leave the object resumable.
- Link, UDP, WebSocket, Ethernet, UHF and Wi-Fi drivers, RPC procedures, the emulator and the applications: I/O and wiring.
- Frame size against the MTU: the source's limit ignores the frame header.
