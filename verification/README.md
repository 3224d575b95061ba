# taktora, modelled and proved

This project models the protocol engines of taktora and proves what they promise. Each part keeps the form of the
code it models: objects updated in place are classes whose methods are proved against transition functions, loops
are loops with invariants, pure code is functions and lemmas.

| files | part |
|---|---|
| `Bytes`, `J1939Id` | machine integers, byte strings, 29-bit identifiers |
| `TpTypes`, `TpWire`, `TpSteps`, `TpEngine` | the J1939-21 transport engine: data, frames, transition functions, the object |
| `TpSafety`, `TpLifecycle`, `TpHistory`, `TpCauses` | what every call and every run keeps: memory, non-interference, the life of a session, timers, windows, causes |
| `TpBadLink`, `TpBam`, `TpCrossTalk` | no corruption on a bad link, the broadcast round trip, and when sessions of one source mix |
| `TpNet`, `TpConnTransfer`, `TpEtpTransfer` | delivery end to end |
| `ClaimSteps`, `AddrClaim`, `ClaimSystem`, `ClaimSettles`, `ClaimHolds` | J1939-81 address claiming: one node, its object, any number of nodes |
| `Bits`, `AllocConcurrent`, `AllocCounters`, `AllocPeak`, `AllocFails`, `AllocFull` | the lock-free bounded allocator, atomic operation by atomic operation |
| `BoundedAlloc`, `PartitionedAlloc` | the allocator called sequentially, and two pools side by side |
| `Pdi`, `Dispatcher` | EtherCAT process-image slices and the outbound drain |
| `Health`, `Reconnect`, `Runner` | health transitions, backoff, cycle runner and recovery |
| `CanFilter` | CAN kernel filters against the demultiplexer |

Check everything with `dafny verify dfyconfig.toml`.

## How things are modelled

- Unsigned integers are ranges of `int`; every wrap, saturation and truncation is written out. Times are natural numbers.
- The order in which a hash map yields its entries is unknown. Transition functions take a hint (`pick`, `Sweep`): a hint
  that is a possible order is followed, any other leaves the choice open. Statements over all hints hold for all orders,
  and the methods of `TpEngine` return the hint their own choices correspond to.
- A slice panic of the program is an outcome (`panicked`), not a precondition.
- An end-to-end transfer is two engines and a lossless, ordered link in each direction. A move delivers one frame or
  makes a call at either side that concerns other peers: a frame from another source, a timeout sweep while no
  limit has passed for a connection with the partner, a transfer opened to another peer. Frames pass through the real
  identifier encoding. That nothing panics is claimed of the deliveries; a frame from elsewhere that would panic a node
  is not a move.
- A bad link may lose, repeat and reorder the frames of one message as it likes, with any other calls in between.
- The claim system keeps every queued frame pending at every other node until it is delivered there, in any order.
- A bitmap word is the set of its one bits. Under concurrency every atomic load, store, exchange and addition is one
  step; weak exchanges may fail for no reason.
- A bus driver is any function from the number of the call to its result, and a policy's jitter any sequence of draws.
- Addresses are machine words; the debug-only assertion of the allocator is that of a release build, absent.

## Where code and documentation differ

- An extended clear-to-send for a packet beyond the payload panics in the sender (`PanicsExactly`).
- Encoding an identifier drops the low byte of a destination-specific PGN (`DecodeEncode`).
- Block sizes that are no multiple of 64 are documented to work at the cost of padding. The partitioned `dealloc`
  recognises all critical blocks only under the condition of `TestIsExact`, which small blocks can fail
  (`SmallBlocksMisrouted`) and every positive multiple of 64 meets.
- The peak of live blocks can exceed the number of blocks, exactly when there are at least two threads and a block
  (`PeakWithinBlocksExactly`), and by as many as the other threads (`PeakAttained`).
- An allocation is documented to fail if the arena is fully allocated. With three threads and more than 64 blocks it can
  fail although a block is free at every moment (`FailsWhenFullExactly`), but never while one and the same block stays
  free (`FreeBlockSuffices`).
- A reconnect policy promises delays that never shrink; with jitter they do at some attempt (`NeverShrinksExactly`), for
  the default policy at the tenth (`DefaultsShrink`).
- A data frame does not name its message. Two open sessions of one source can be mixed up, and exactly then the order of
  the hash map matters (`BroadcastDeterminedExactly`, `WrongPayload`).

## Model

| member | source | states |
|---|---|---|
| `J1939Id.DecodeEncode` | crates/taktora-connector-j1939/src/decode.rs:77-129 | decoding an encoded identifier restores priority modulo 8, source and destination; the PGN comes back if and only if it is broadcast or its low byte is zero |
| `J1939Id.EncodeDecode` | crates/taktora-connector-j1939/src/decode.rs:77-129 | encoding the fields of any decoded 32-bit value restores its 29 identifier bits |
| `Bytes.LeRoundTrip` | crates/taktora-connector-j1939/src/addr_claim.rs:332-332 | a little-endian byte string of enough bytes gives the number back |
| `Bytes.LeRoundTrip64` | crates/taktora-connector-j1939/src/addr_claim.rs:398-406 | a 64-bit NAME survives its 8-byte field |
| `TpWire.WireIdOf` | crates/taktora-connector-j1939/src/tp.rs:603-611 | a directed transport frame is decoded with the PGN, source and destination it was built with |
| `TpWire.GrantWindow` | crates/taktora-connector-j1939/src/tp.rs:1561-1567 | the largest window within the configured one, the packets outstanding and the sender's limit, never below one |
| `TpWire.EtpGrant` | crates/taktora-connector-j1939/src/tp.rs:1750-1753 | the largest window within the configured one and the packets outstanding, never below one |
| `TpSteps.OnBamCm` | crates/taktora-connector-j1939/src/tp.rs:631-673 | any broadcast announce keeps the engine invariant: table keys, packet counts, buffer prefixes, session limit |
| `TpSteps.OnBamDt` | crates/taktora-connector-j1939/src/tp.rs:691-731 | any broadcast data frame, for whichever session of its source the hash map yields, keeps the invariant, opens none, and leaves each session as it was or, if it expected this packet, one packet further and active at the time of the call |
| `TpSteps.OnRts` | crates/taktora-connector-j1939/src/tp.rs:787-831 | any request to send keeps the invariant; a well-formed one to this node with room for it opens a session with the size, packet count, limit byte, priority and addresses of the frame, active at the time of the call, and any other leaves the table alone |
| `TpSteps.OnConnDt` | crates/taktora-connector-j1939/src/tp.rs:836-909 | any data frame keeps the invariant, in particular that the granted window never runs past the message |
| `TpSteps.StartConn` | crates/taktora-connector-j1939/src/tp.rs:748-783 | keeps the invariant; fails exactly for a payload outside 9 to 1785 bytes, changing nothing, and otherwise holds the payload for its key |
| `TpSteps.OnCts` | crates/taktora-connector-j1939/src/tp.rs:914-933 | any clear-to-send keeps the invariant, whatever range it grants |
| `TpSteps.OnConnAbort` | crates/taktora-connector-j1939/src/tp.rs:949-971 | any abort keeps the invariant |
| `TpSteps.OnEtpRts` | crates/taktora-connector-j1939/src/tp.rs:1048-1112 | any extended request keeps the invariant; no buffer exceeds the configured maximum |
| `TpSteps.OnEtpDpo` | crates/taktora-connector-j1939/src/tp.rs:1142-1153 | any data offset keeps the invariant |
| `TpSteps.OnEtpDt` | crates/taktora-connector-j1939/src/tp.rs:1160-1237 | any extended data frame keeps the invariant, in particular buffer length and expected packet |
| `TpSteps.StartEtp` | crates/taktora-connector-j1939/src/tp.rs:989-1025 | keeps the invariant; fails exactly for a payload below 1786 bytes or above the limit, changing nothing, and otherwise holds the payload for its key |
| `TpSteps.OnEtpCts` | crates/taktora-connector-j1939/src/tp.rs:1118-1137 | any extended clear-to-send keeps the invariant, also when it panics |
| `TpSteps.OnFrame` | crates/taktora-connector-j1939/src/tp.rs:603-611 | every frame keeps the invariant |
| `TpSteps.PollTimeouts` | crates/taktora-connector-j1939/src/tp.rs:1281-1409 | a sweep in any iteration order keeps the invariant and leaves exactly the sessions with now <= last activity + limit, the limit being t1, t2, t3, t2 and t3 in the five tables, each as it was |
| `TpSteps.Run` | crates/taktora-connector-j1939/src/tp.rs:603-1409 | every run of calls keeps the invariant |
| `TpEngine.SegmentOutbound` | crates/taktora-connector-j1939/src/tp.rs:1424-1474 | the loop yields the announce and exactly the numbered, padded packets of the payload, and fails exactly outside 9 to 1785 bytes |
| `TpEngine.BuildDtBurst` | crates/taktora-connector-j1939/src/tp.rs:1696-1717 | the wrapping, breaking loop yields exactly the granted packets that exist, in order |
| `TpEngine.BuildEtpBurst` | crates/taktora-connector-j1939/src/tp.rs:1873-1906 | the loop yields the offset frame and the granted packets, and panics if and only if the first of them starts beyond the payload |
| `TpEngine.TpEngine.constructor` | crates/taktora-connector-j1939/src/tp.rs:466-513 | the new engine is empty and valid, its limits clamped |
| `TpEngine.TpEngine.TakeOutbound` | crates/taktora-connector-j1939/src/tp.rs:593-595 | hands out the queue and changes nothing else |
| `TpEngine.TpEngine.OnFrame` | crates/taktora-connector-j1939/src/tp.rs:603-611 | the object does what the transition function says, for some choice among the sessions of the source |
| `TpEngine.TpEngine.OnCm` | crates/taktora-connector-j1939/src/tp.rs:616-628 | dispatch on the control byte refines the transition function |
| `TpEngine.TpEngine.OnDt` | crates/taktora-connector-j1939/src/tp.rs:678-686 | broadcast or connection data, by destination, refines the transition function |
| `TpEngine.TpEngine.OnBamCm` | crates/taktora-connector-j1939/src/tp.rs:631-673 | refines the transition function: admit, ignore or refuse |
| `TpEngine.TpEngine.OnBamDt` | crates/taktora-connector-j1939/src/tp.rs:691-731 | refines the transition function: the table, buffer and completion event are exactly its own |
| `TpEngine.TpEngine.OnRts` | crates/taktora-connector-j1939/src/tp.rs:787-831 | refines the transition function, with the refusal frame and event |
| `TpEngine.TpEngine.OnConnDt` | crates/taktora-connector-j1939/src/tp.rs:836-909 | refines the transition function: next window, acknowledgement or nothing |
| `TpEngine.TpEngine.StartOutboundConnection` | crates/taktora-connector-j1939/src/tp.rs:748-783 | refines the transition function, error path included |
| `TpEngine.TpEngine.OnCts` | crates/taktora-connector-j1939/src/tp.rs:914-933 | refines the transition function; the queued burst is the granted one |
| `TpEngine.TpEngine.OnEndOfMsgAck` | crates/taktora-connector-j1939/src/tp.rs:937-943 | refines the transition function |
| `TpEngine.TpEngine.OnConnAbort` | crates/taktora-connector-j1939/src/tp.rs:949-971 | refines the transition function; both directions may end |
| `TpEngine.TpEngine.StartOutboundEtp` | crates/taktora-connector-j1939/src/tp.rs:989-1025 | refines the transition function, error path included |
| `TpEngine.TpEngine.OnEtpCm` | crates/taktora-connector-j1939/src/tp.rs:1028-1040 | dispatch on the control byte refines the transition function |
| `TpEngine.TpEngine.OnEtpRts` | crates/taktora-connector-j1939/src/tp.rs:1048-1112 | refines the transition function, with both refusals |
| `TpEngine.TpEngine.OnEtpCts` | crates/taktora-connector-j1939/src/tp.rs:1118-1137 | refines the transition function, the slice panic included |
| `TpEngine.TpEngine.OnEtpDpo` | crates/taktora-connector-j1939/src/tp.rs:1142-1153 | refines the transition function |
| `TpEngine.TpEngine.OnEtpDt` | crates/taktora-connector-j1939/src/tp.rs:1160-1237 | refines the transition function; the copy in place is its splice |
| `TpEngine.TpEngine.OnEtpEoma` | crates/taktora-connector-j1939/src/tp.rs:1241-1247 | refines the transition function |
| `TpEngine.TpEngine.OnEtpAbort` | crates/taktora-connector-j1939/src/tp.rs:1252-1274 | refines the transition function; both directions may end |
| `TpEngine.TpEngine.SweepBam` | crates/taktora-connector-j1939/src/tp.rs:1282-1297 | the loop leaves exactly the sessions of its table with now <= last activity + limit and removes the others, with one event each, in some order that lists each once |
| `TpEngine.TpEngine.SweepRxConn` | crates/taktora-connector-j1939/src/tp.rs:1302-1323 | the loop leaves exactly the sessions of its table with now <= last activity + limit and removes the others, with one event and one abort frame each, in some order that lists each once |
| `TpEngine.TpEngine.SweepTxConn` | crates/taktora-connector-j1939/src/tp.rs:1328-1349 | the loop leaves exactly the sessions of its table with now <= last activity + limit and removes the others, with one event and one abort frame each, in some order that lists each once |
| `TpEngine.TpEngine.SweepEtpRx` | crates/taktora-connector-j1939/src/tp.rs:1361-1385 | the loop leaves exactly the sessions of its table with now <= last activity + limit and removes the others, with one event and one abort frame each, in some order that lists each once |
| `TpEngine.TpEngine.SweepEtpTx` | crates/taktora-connector-j1939/src/tp.rs:1386-1409 | the loop leaves exactly the sessions of its table with now <= last activity + limit and removes the others, with one event and one abort frame each, in some order that lists each once |
| `TpEngine.TpEngine.PollTpTimeouts` | crates/taktora-connector-j1939/src/tp.rs:1281-1349 | the first three sweeps compose without disturbing each other |
| `TpEngine.TpEngine.PollEtpTimeouts` | crates/taktora-connector-j1939/src/tp.rs:1361-1409 | the two extended sweeps compose without disturbing each other |
| `TpEngine.TpEngine.PollTimeouts` | crates/taktora-connector-j1939/src/tp.rs:1281-1356 | the whole sweep is the specified one for the orders the tables were walked in, and leaves exactly the sessions of each table with now <= last activity + limit |
| `TpEngine.PanicsExactly` | crates/taktora-connector-j1939/src/tp.rs:1118-1137 | handling a frame panics if and only if it is an extended clear-to-send on an open transfer that asks for packets starting beyond the payload |
| `TpEngine.PanicReachable` | crates/taktora-connector-j1939/src/tp.rs:1873-1906 | a fresh engine that opens a 1786-byte transfer panics on a grant for packet 300 |
| `TpSafety.RunKeepsConfig` | crates/taktora-connector-j1939/src/tp.rs:466-513 | no run changes the limits |
| `TpSafety.BoundedMemory` | crates/taktora-connector-j1939/src/tp.rs:584-586 | after every run inbound sessions are within the limit and every buffer within its announced and configured size |
| `TpSafety.GrantsAgreeOnFrame` | crates/taktora-connector-j1939/src/tp.rs:787-909 | every grant queued while handling any frame names the packet its session expects and ends within the message |
| `TpSafety.NonInterference` | crates/taktora-connector-j1939/src/tp.rs:603-1274 | a frame from one source leaves every session of every other source alone, and its new frames and events concern that source only |
| `TpSafety.SweepIsExact` | crates/taktora-connector-j1939/src/tp.rs:1281-1409 | a sweep leaves a session in its table if and only if now <= last activity + the limit of the table, and then unchanged |
| `TpSafety.SweepReports` | crates/taktora-connector-j1939/src/tp.rs:1281-1409 | a sweep reports every removal exactly once and nothing else |
| `TpSafety.SweepAborts` | crates/taktora-connector-j1939/src/tp.rs:1281-1409 | a sweep sends every abort frame exactly as often as it removes a session outside the broadcast table whose abort it is, and no other frame |
| `TpLifecycle.StepExit` | crates/taktora-connector-j1939/src/tp.rs:603-1409 | a call takes a session out of its table if and only if it is its last expected packet with a completion event, the peer's acknowledgement, the peer's abort with its event, or a timeout with its event |
| `TpLifecycle.StepOpens` | crates/taktora-connector-j1939/src/tp.rs:631-1112 | a call brings a session into its table if and only if it is a well-formed announce or request with room for it, or a transfer of an allowed size; the session then holds what was announced, sender's limit byte included, and the first grant stays within the message, the window and that byte |
| `TpLifecycle.StepStays` | crates/taktora-connector-j1939/src/tp.rs:603-1409 | a session a call leaves in place, and did not open anew, is as it was, or one packet further with all it held and the time of this call; a grant or an offset frame for it sets its time too, and nothing else does |
| `TpLifecycle.SessionLifecycle` | crates/taktora-connector-j1939/src/tp.rs:603-1409 | over every run, a session that is gone left at one call of the run in one of those ways |
| `TpLifecycle.ConnAbortReaches` | crates/taktora-connector-j1939/src/tp.rs:949-971 | an abort frame, as timeouts and refusals send it, ends the peer's session in either direction and is reported there with the same reason |
| `TpLifecycle.EtpAbortReaches` | crates/taktora-connector-j1939/src/tp.rs:1252-1274 | the same for extended transfers |
| `TpHistory.StepTimer` | crates/taktora-connector-j1939/src/tp.rs:668-1195 | a call sets the timer of a session to its own time if and only if it opens the session, moves it a packet on, or is its grant or offset frame |
| `TpHistory.TimerIsRight` | crates/taktora-connector-j1939/src/tp.rs:668-1195 | over every run the timer of an open session shows when its peer was last heard |
| `TpHistory.TimesOutExactly` | crates/taktora-connector-j1939/src/tp.rs:1281-1409 | over every run a sweep takes a session out if and only if its peer has been silent for longer than the limit of its table |
| `TpHistory.LimitIsRight` | crates/taktora-connector-j1939/src/tp.rs:1511-1540 | over every run an open receive session remembers the limit byte of the last request admitted for it |
| `TpHistory.WindowAccounting` | crates/taktora-connector-j1939/src/tp.rs:1561-1567 | after every run every receive session expects a packet of its message, and its window ends within the message, within this node's limit and within the limit byte of the last request admitted for it |
| `TpHistory.GrantsHonourRequest` | crates/taktora-connector-j1939/src/tp.rs:787-909 | over every run no grant sent exceeds the limit byte of the last request admitted from that peer for that message, nor this node's window |
| `TpCauses.EventsExplained` | crates/taktora-connector-j1939/src/tp.rs:603-1409 | every event of every call is explained: a completion ends a receiving session of that source, an abort ends a session or answers a request beyond the byte limit, a refusal means that an announce or request found no room |
| `TpCauses.FramesCaused` | crates/taktora-connector-j1939/src/tp.rs:603-1409 | every frame a call queues has a cause: a grant belongs to a session then open, an acknowledgement to a message just completed, an abort to what is reported, data and offset frames to the grant they answer |
| `TpBadLink.BamStep` | crates/taktora-connector-j1939/src/tp.rs:631-731 | with frames of one message lost, repeated or reordered, each call keeps what is held a prefix of the message |
| `TpBadLink.BamNoCorruption` | crates/taktora-connector-j1939/src/tp.rs:631-731 | on such a link every broadcast completion is the original message, and there are no more of them than announces heard |
| `TpBadLink.ConnStep` | crates/taktora-connector-j1939/src/tp.rs:787-909 | the same step for connection mode |
| `TpBadLink.ConnNoCorruption` | crates/taktora-connector-j1939/src/tp.rs:787-909 | on such a link every connection-mode completion is the original message, and there are no more than requests heard |
| `TpBam.BamRoundTrip` | crates/taktora-connector-j1939/src/tp.rs:1424-1474 | the segmented frames, sent through real identifiers and interleaved with any other calls, sweeps included as long as each comes within t1 of the frame before it, yield the message exactly once if admitted and one refusal if not |
| `TpBam.SegmentsReassemble` | crates/taktora-connector-j1939/src/tp.rs:1424-1474 | an engine with room, handed the segmented frames of any message, reports exactly that message and keeps no session |
| `TpNet.OtherTraffic` | crates/taktora-connector-j1939/src/tp.rs:603-1409 | frames from other peers, sweeps while no limit has passed for a connection with the partner, and transfers opened to other peers leave both sides of a transfer and the link as they are |
| `TpConnTransfer.PhaseKept` | crates/taktora-connector-j1939/src/tp.rs:748-971 | every move of two engines on a lossless link keeps the transfer in one of its phases |
| `TpConnTransfer.ConnTransfer` | crates/taktora-connector-j1939/src/tp.rs:748-971 | for every payload, window and interleaving with such calls at both sides the transfer is bounded, no delivery panics, and it ends with one delivery after exactly ceil(packets / window) grants or with one refusal, no session left on either side |
| `TpConnTransfer.SweepsInTime` | crates/taktora-connector-j1939/src/tp.rs:1300-1356 | a sweep leaves a transfer alone if and only if it comes within t3 of the last frame that reached the sender, or t2 at the receiver, and no limit has passed for another session with the partner |
| `TpConnTransfer.ConnFinishes` | crates/taktora-connector-j1939/src/tp.rs:748-971 | from wherever the transfer stands, delivering what is under way ends it with exactly one event at the receiver |
| `TpConnTransfer.ConnDelivers` | crates/taktora-connector-j1939/src/tp.rs:787-909 | a receiver with room that no frame from elsewhere reaches ends with the message delivered, under every schedule, sweeps and opened transfers included |
| `TpEtpTransfer.PhaseKept` | crates/taktora-connector-j1939/src/tp.rs:989-1274 | every move of an extended transfer keeps it in one of its phases |
| `TpEtpTransfer.EtpTransfer` | crates/taktora-connector-j1939/src/tp.rs:989-1274 | the same end-to-end result for extended messages, with offset frames counted |
| `TpEtpTransfer.SweepsInTime` | crates/taktora-connector-j1939/src/tp.rs:1358-1409 | the same for the two timers of an extended transfer |
| `TpEtpTransfer.EtpFinishes` | crates/taktora-connector-j1939/src/tp.rs:989-1274 | from wherever the extended transfer stands, delivering what is under way ends it with exactly one event at the receiver |
| `TpEtpTransfer.EtpDelivers` | crates/taktora-connector-j1939/src/tp.rs:1048-1237 | a receiver with room and a large enough limit that no frame from elsewhere reaches ends with the message delivered, under every schedule |
| `TpCrossTalk.BroadcastDeterminedExactly` | crates/taktora-connector-j1939/src/tp.rs:691-731 | what a broadcast data frame does is independent of the hash map's order if and only if at most one broadcast session of its source is open |
| `TpCrossTalk.ConnDeterminedExactly` | crates/taktora-connector-j1939/src/tp.rs:836-909 | the same for connection-mode data |
| `TpCrossTalk.WrongPayload` | crates/taktora-connector-j1939/src/tp.rs:691-731 | for any two messages of one length announced by one source there is an order under which the packets of the first complete the second, with the wrong payload |
| `ClaimSteps.ClaimArrives` | crates/taktora-connector-j1939/src/addr_claim.rs:323-406 | a claim frame sent over the wire is arbitrated by the receiver as the sender's NAME and address |
| `ClaimSteps.Poll` | crates/taktora-connector-j1939/src/addr_claim.rs:279-302 | an announced claim holds from the first poll on that comes after its window, with that one event |
| `ClaimSteps.OnRequest` | crates/taktora-connector-j1939/src/addr_claim.rs:355-365 | a request for it, and nothing else, is answered with one frame, from the address held or from the null address after a cession |
| `ClaimSteps.OnCommandedAddress` | crates/taktora-connector-j1939/src/addr_claim.rs:370-388 | a command for our NAME, and nothing else, leaves us claiming the address of its ninth byte, announced at once and with a new window |
| `ClaimSteps.ClaimOutcome` | crates/taktora-connector-j1939/src/addr_claim.rs:279-365 | whatever calls follow an announce but a command: the claim is lost if and only if a lower NAME claims the address, and otherwise holds if and only if a poll came after the window, which is reported once |
| `ClaimSteps.AnnouncedThenHeld` | crates/taktora-connector-j1939/src/addr_claim.rs:279-302 | an engine that nobody outbids or commands is claiming from its first poll until a poll comes after the window, and holds the address from then on |
| `ClaimSteps.GateTracksEngine` | crates/taktora-connector-j1939/src/dispatcher.rs:429-460 | whatever calls happen, reflecting their events leaves the transmit gate at the engine's state |
| `AddrClaim.AddrClaimEngine.constructor` | crates/taktora-connector-j1939/src/addr_claim.rs:236-246 | a fresh engine is claiming and has announced nothing |
| `AddrClaim.AddrClaimEngine.TakeOutbound` | crates/taktora-connector-j1939/src/addr_claim.rs:269-271 | hands out the queue and changes nothing else |
| `AddrClaim.AddrClaimEngine.Poll` | crates/taktora-connector-j1939/src/addr_claim.rs:279-302 | first poll announces, a later one after the window claims; refines the transition function |
| `AddrClaim.AddrClaimEngine.OnFrame` | crates/taktora-connector-j1939/src/addr_claim.rs:308-318 | dispatch by PGN refines the transition function |
| `AddrClaim.AddrClaimEngine.OnAddressClaimed` | crates/taktora-connector-j1939/src/addr_claim.rs:323-351 | arbitration refines the transition function; short NAMEs are ignored |
| `AddrClaim.AddrClaimEngine.OnRequest` | crates/taktora-connector-j1939/src/addr_claim.rs:355-365 | answers with the claim or the cannot-claim frame, exactly on a request for it |
| `AddrClaim.AddrClaimEngine.OnCommandedAddress` | crates/taktora-connector-j1939/src/addr_claim.rs:370-388 | adopts the address and restarts the window, exactly when the NAME is ours |
| `AddrClaim.ClaimGate.Set` | crates/taktora-connector-j1939/src/addr_claim.rs:191-193 | the state stored is the state read back |
| `AddrClaim.ApplyAcEvents` | crates/taktora-connector-j1939/src/dispatcher.rs:437-460 | the loop leaves the gate at the state the last event names |
| `ClaimSystem.InvKept` | crates/taktora-connector-j1939/src/addr_claim.rs:279-388 | every poll, delivery in any order, request, command and passing of time keeps the invariant: two nodes on one address have a claim pending that will resolve it, early enough |
| `ClaimSystem.AgreementAtRest` | crates/taktora-connector-j1939/src/addr_claim.rs:279-388 | for any number of engines with distinct NAMEs and any run: at rest no two that have not ceded hold one address, and the lowest NAME has ceded at no point |
| `ClaimSystem.TimedExclusivity` | crates/taktora-connector-j1939/src/addr_claim.rs:279-388 | if frames arrive within d and 2d is less than every claim window, no reachable state has two engines Claimed on one address, commanded addresses included |
| `ClaimSettles.DeliveryProgress` | crates/taktora-connector-j1939/src/addr_claim.rs:323-351 | every delivery makes a node cede or lightens what is pending, so arbitration cannot go on for ever |
| `ClaimSettles.Settles` | crates/taktora-connector-j1939/src/addr_claim.rs:279-388 | from every reachable state deliveries alone lead to rest and agreement |
| `ClaimHolds.WaitAndPoll` | crates/taktora-connector-j1939/src/addr_claim.rs:279-302 | at rest, waiting for the windows to end and polling every node once leaves every node that has not ceded Claimed, on an address of its own |
| `ClaimHolds.EveryNodeClaims` | crates/taktora-connector-j1939/src/addr_claim.rs:279-388 | from every reachable state, polling, delivering what is pending, waiting and polling again ends with every node that has not ceded Claimed, no two on one address, the lowest NAME among them |
| `AllocConcurrent.ExclusiveKept` | crates/taktora-bounded-alloc/src/lib.rs:228-263 | every atomic step of every thread keeps each block with at most one holder, and with one exactly when its bit is zero; a thread comes back from alloc only with the block it won or after passing the last word |
| `AllocConcurrent.ClaimTakesFree` | crates/taktora-bounded-alloc/src/lib.rs:228-254 | the winning compare-exchange takes a block that was free and held by no one, and no other |
| `AllocConcurrent.ReleaseFrees` | crates/taktora-bounded-alloc/src/lib.rs:257-263 | setting the bit frees that block and no other |
| `AllocCounters.InEveryInterleaving` | crates/taktora-bounded-alloc/src/lib.rs:294-336 | in every interleaving blocks are exclusive, in_use is what is taken less claims not yet added plus releases not yet subtracted and never underflows, and the peak is at most blocks plus the other threads |
| `AllocCounters.RestAgrees` | crates/taktora-bounded-alloc/src/lib.rs:294-336 | at rest in_use equals allocations minus deallocations equals blocks held, and the peak is the largest value an addition produced |
| `AllocCounters.TopIsMaxProduced` | crates/taktora-bounded-alloc/src/lib.rs:314-326 | that largest value is the maximum over the additions of the run |
| `AllocFails.FailsOnlyIfTaken` | crates/taktora-bounded-alloc/src/lib.rs:228-254 | in every interleaving a call of alloc that comes back without a block saw, for every block, a point between call and return at which it was taken |
| `AllocFails.FreeBlockSuffices` | crates/taktora-bounded-alloc/src/lib.rs:228-254 | no call of alloc fails while some block stays free from the call to the return |
| `AllocFull.FailsOnlyWhenFull` | crates/taktora-bounded-alloc/src/lib.rs:226-254 | with at most two threads or at most 64 blocks a failed call saw a point at which no block was free |
| `AllocFull.FailsThoughNotFull` | crates/taktora-bounded-alloc/src/lib.rs:226-254 | with three threads and more than 64 blocks some run has a call that fails although a block was free at every point of it |
| `AllocFull.FailsWhenFullExactly` | crates/taktora-bounded-alloc/src/lib.rs:226-254 | over all runs a call fails only if the arena was full at some point of it, if and only if there are at most two threads or at most 64 blocks |
| `AllocPeak.PeakAttained` | crates/taktora-bounded-alloc/src/lib.rs:294-336 | for every number of blocks and threads some run shows a peak of the blocks plus the other threads: the bound is reached |
| `AllocPeak.PeakWithinBlocksExactly` | crates/taktora-bounded-alloc/src/lib.rs:208-212 | no run shows a peak above the number of blocks if and only if there is at most one thread or no block |
| `AllocCounters.LockedForGood` | crates/taktora-bounded-alloc/src/lib.rs:186-188 | once locked, no thread ever starts an allocation |
| `Bits.TrailingZeros` | crates/taktora-bounded-alloc/src/lib.rs:236-236 | the lowest one bit |
| `Bits.ClearedBit` | crates/taktora-bounded-alloc/src/lib.rs:241-248 | clearing a bit takes that block and no other |
| `Bits.SetBit` | crates/taktora-bounded-alloc/src/lib.rs:257-263 | setting a bit frees that block and no other |
| `BoundedAlloc.BoundedAllocator.constructor` | crates/taktora-bounded-alloc/src/lib.rs:172-182 | every block free, every counter zero |
| `BoundedAlloc.BoundedAllocator.Lock` | crates/taktora-bounded-alloc/src/lib.rs:186-188 | locks and changes nothing else |
| `BoundedAlloc.BoundedAllocator.TryClaimBlock` | crates/taktora-bounded-alloc/src/lib.rs:228-254 | claims the lowest free block, and fails if and only if all are taken |
| `BoundedAlloc.BoundedAllocator.ReleaseBlock` | crates/taktora-bounded-alloc/src/lib.rs:257-263 | sets that bit only, and panics exactly beyond the bitmap |
| `BoundedAlloc.BoundedAllocator.BlockIndexOf` | crates/taktora-bounded-alloc/src/lib.rs:267-272 | inverts the block's address, with the offset wrapping for other addresses |
| `BoundedAlloc.BoundedAllocator.Alloc` | crates/taktora-bounded-alloc/src/lib.rs:294-329 | panics iff locked; otherwise yields the address of the lowest free block iff the request fits and one is free; counters and peak follow, the peak never above the number of blocks |
| `BoundedAlloc.BoundedAllocator.Dealloc` | crates/taktora-bounded-alloc/src/lib.rs:331-336 | frees the block the pointer came from, counters follow; for any other address sets the bit its index names or panics before any change |
| `BoundedAlloc.BlocksDisjoint` | crates/taktora-bounded-alloc/src/lib.rs:77-87 | blocks are aligned, inside the arena, and share no usable byte |
| `BoundedAlloc.Stride` | crates/taktora-bounded-alloc/src/lib.rs:77-87 | the block size rounded up to 64, equal to it for multiples of 64 |
| `PartitionedAlloc.TestIsExact` | crates/taktora-bounded-alloc/src/lib.rs:520-536 | the address test recognises every critical block if and only if (blocks - 1) * stride < blocks * size |
| `PartitionedAlloc.MultiplesPass` | crates/taktora-bounded-alloc/src/lib.rs:520-536 | that holds for every positive multiple of 64 |
| `PartitionedAlloc.SmallBlocksMisrouted` | crates/taktora-bounded-alloc/src/lib.rs:520-536 | it fails for two blocks of 32 bytes: the second is taken for the other pool's |
| `PartitionedAlloc.OthersNeverMatch` | crates/taktora-bounded-alloc/src/lib.rs:520-536 | no block of the other pool is ever taken for a critical one |
| `PartitionedAlloc.PartitionedBoundedAllocator.constructor` | crates/taktora-bounded-alloc/src/lib.rs:458-463 | both pools empty |
| `PartitionedAlloc.PartitionedBoundedAllocator.AllocIn` | crates/taktora-bounded-alloc/src/lib.rs:480-489 | success depends on the level's own pool alone, and the other pool is untouched |
| `PartitionedAlloc.PartitionedBoundedAllocator.DeallocIn` | crates/taktora-bounded-alloc/src/lib.rs:500-509 | frees in the named pool, the other untouched; panics exactly for blocks of size zero |
| `PartitionedAlloc.PartitionedBoundedAllocator.Dealloc` | crates/taktora-bounded-alloc/src/lib.rs:520-536 | frees in the owning pool, the other untouched, whenever the address test finds it; a critical block it misses stays taken while the other pool sets the bit the address names, or the program panics |
| `PartitionedAlloc.PartitionedBoundedAllocator.Lock` | crates/taktora-bounded-alloc/src/lib.rs:541-544 | locks both pools |
| `Pdi.WriteRouting` | crates/taktora-connector-ethercat/src/pdi.rs:44-88 | the image changes in exactly the slice's bits, to the payload's; errors as specified, nothing changed on error or for length zero |
| `Pdi.ReadRouting` | crates/taktora-connector-ethercat/src/pdi.rs:108-157 | the payload gets exactly the slice's bits, tail of the last byte cleared, further bytes kept; errors as specified |
| `Pdi.ReadAfterWrite` | crates/taktora-connector-ethercat/src/pdi.rs:44-157 | reading back gives the written bits with the tail cleared, and slices that do not overlap read as before |
| `Pdi.BitsDetermine` | crates/taktora-connector-ethercat/src/pdi.rs:12-15 | equal bits mean equal bytes |
| `Dispatcher.WriteItem` | crates/taktora-connector-ethercat/src/dispatcher.rs:280-296 | one envelope lands in its subdevice's image and nowhere else, or its error is returned and nothing changes |
| `Dispatcher.DrainChannel` | crates/taktora-connector-ethercat/src/dispatcher.rs:272-297 | the inner loop writes a channel's envelopes in order up to the first error; behind that one they stay pending |
| `Dispatcher.DispatchOutbound` | crates/taktora-connector-ethercat/src/dispatcher.rs:244-300 | all drained channels' envelopes are written in order up to the first error, which is returned; every image bit is that of the last envelope covering it; what is left pending is exactly what was not received |
| `Dispatcher.SlicesHoldLast` | crates/taktora-connector-ethercat/src/dispatcher.rs:244-300 | for channels that share no bit, after a complete drain each slice is its channel's last envelope whatever the channel order, and every other bit is as before |
| `Health.EthercatHealthMonitor.constructor` | crates/taktora-connector-core/src/health.rs:139-145 | starts in Connecting with nothing published |
| `Health.EthercatHealthMonitor.TransitionTo` | crates/taktora-connector-ethercat/src/health.rs:94-110 | moves iff the edge is legal, publishes exactly that move, re-arms the drop latch on Up; the published events always form a legal path from the start to the current state |
| `Health.EthercatHealthMonitor.RecordInboundDrop` | crates/taktora-connector-ethercat/src/health.rs:147-165 | degrades iff Up, unlatched and at the threshold; the latch is set exactly from the threshold on |
| `Health.UpBetweenDepartures` | crates/taktora-connector-core/src/health.rs:214-228 | between two departures from Up there is an arrival |
| `Reconnect.Build` | crates/taktora-connector-core/src/reconnect.rs:127-147 | every policy built is in range, and one in range is left as given |
| `Reconnect.BaseDelaysGrow` | crates/taktora-connector-core/src/reconnect.rs:191-200 | base delays lie between initial and maximum and never shrink |
| `Reconnect.DelayInRange` | crates/taktora-connector-core/src/reconnect.rs:210-222 | every delay, whatever is drawn, lies between nothing and the maximum |
| `Reconnect.Backoff.NextDelay` | crates/taktora-connector-core/src/reconnect.rs:210-222 | the jittered, capped delay of the attempt; the counter saturates |
| `Reconnect.Backoff.NextBackoff` | crates/taktora-connector-core/src/reconnect.rs:228-235 | that delay exactly while the budget lasts |
| `Reconnect.Backoff.Reset` | crates/taktora-connector-core/src/reconnect.rs:224-226 | afterwards exactly the whole budget is handed out again, starting with the first delay |
| `Reconnect.BudgetIsExact` | crates/taktora-connector-core/src/reconnect.rs:228-235 | of any further calls exactly what is left of the budget yields a delay |
| `Reconnect.UnlimitedNeverEnds` | crates/taktora-connector-core/src/reconnect.rs:228-235 | without a budget every call yields a delay, the saturated counter included |
| `Reconnect.NeverShrinksExactly` | crates/taktora-connector-core/src/reconnect.rs:14-38 | over all attempts and draws no delay is shorter than the one before if and only if there is no jitter or no delay at all |
| `Reconnect.DefaultsShrink` | crates/taktora-connector-core/src/reconnect.rs:59-68 | the default policy can follow a delay of 30 s with one of 27 s |
| `Runner.CycleScheduler.Poll` | crates/taktora-connector-ethercat/src/scheduler.rs:62-73 | the first poll fires, a later one if and only if it comes an interval or more after the last firing; only firings are remembered |
| `Runner.AtLeastOncePerPeriod` | crates/taktora-connector-ethercat/src/scheduler.rs:62-73 | polls at most delta apart from t0 to t1 fire at least (t1 - t0) / (interval + delta) times |
| `Runner.AtMostOncePerInterval` | crates/taktora-connector-ethercat/src/scheduler.rs:62-73 | over non-decreasing times from t0 to t1 at most 1 + (t1 - t0) / interval polls fire |
| `Runner.CycleRunner.Start` | crates/taktora-connector-ethercat/src/runner.rs:72-91 | no runner and no change if the bus does not come up; otherwise Up, where legal, with the reported working counter |
| `Runner.RecoveryEndsExactly` | crates/taktora-connector-ethercat/src/runner.rs:176-214 | a recovery episode ends if and only if the budget is finite or the bus comes back at some time |
| `Runner.CycleRunner.RecoverPerPolicy` | crates/taktora-connector-ethercat/src/runner.rs:176-214 | for every driver at most the budget of attempts; ends Up with the counter of the first success, or Down after the whole budget failed; sleeps at most the maximum delay per attempt |
| `Runner.CycleRunner.Attempt` | crates/taktora-connector-ethercat/src/runner.rs:195-212 | one attempt ends Up with the new counter or Degraded with the old one |
| `Runner.CycleRunner.ApplyVerdict` | crates/taktora-connector-ethercat/src/runner.rs:216-231 | Up on a match, Degraded with the cycle and counters on a mismatch, except that Down stays Down |
| `Runner.CycleRunner.Tick` | crates/taktora-connector-ethercat/src/runner.rs:130-162 | a skipped poll touches nothing; a good cycle is reported and numbered, matching iff its counter is at least the expected one; a failed one is not, and ends recovered or given up; from Up or Degraded it stays so unless given up |
| `Runner.CycleRunner.DispatchOneCycle` | crates/taktora-connector-ethercat/src/dispatcher.rs:219-239 | outbound, tick, and inbound only after a reported cycle; the first to fail ends the iteration, and a failed drain touches nothing |
| `Runner.CycleRunner.DispatcherLoop` | crates/taktora-connector-ethercat/src/dispatcher.rs:374-388 | until stopped or an iteration fails, the connector is Up or Degraded after every iteration whose recovery did not give up, and cycles at most 1 + (t1 - t0) / interval times |
| `CanFilter.MatchesBitwise` | crates/taktora-connector-can/src/driver.rs:118-132 | a channel matches an identifier if and only if it is of the same kind and equal in every bit the mask selects |
| `CanFilter.FullMaskIsExact` | crates/taktora-connector-can/src/driver.rs:118-132 | under a mask over all identifier bits a channel matches its own identifier alone |
| `CanFilter.FilterAgrees` | crates/taktora-connector-can/src/filter.rs:34-43 | one compiled filter accepts a folded identifier if and only if its channel matches the frame |
| `CanFilter.Compile` | crates/taktora-connector-can/src/filter.rs:21-30 | the compiled list is free of repeats, in order of first appearance, and accepts a frame if and only if some channel matches it |
| `CanFilter.AgreesWithDemux` | crates/taktora-connector-can/src/filter.rs:93-99 | kernel filter and demultiplexer agree on every identifier |
| `CanFilter.DedupKeeps` | crates/taktora-connector-can/src/filter.rs:21-30 | compiling what is already free of repeats changes nothing |

## Left out

- TpEtpTransfer.EtpTransfer: claimed on a lossless, ordered link only, because extended packet numbers are relative to the last offset frame.
- TpConnTransfer.ConnTransfer: other sessions with the partner itself, and their timeouts, are not among the interleavings, because data frames of one source do not name their session.
- BoundedAlloc.BoundedAllocator.TryClaimBlock: each word is examined once, because without concurrency the compare-exchange cannot fail; the retry loop is in `AllocConcurrent`.
- Runner.CycleRunner.RecoverPerPolicy: only episodes that end, which `RecoveryEndsExactly` characterises; an unlimited policy on a bus that never comes back runs for ever.
- Reconnect.NeverShrinksExactly: delays are real seconds; rounding to nanoseconds and floating point are not modelled.
- Memory orderings weaker than sequential consistency, and counters that wrap at the machine word.
- Outbound pacing of transport frames, logging and the read-only accessors.
- Reaction of the CAN dispatcher to health: only the transmit gate is followed.
- The thread-local integrity level and the counting allocator used for measurements.
- The inbound half of the EtherCAT dispatcher, a loop of single reads without interaction.
- Remote and error frames in CAN filtering; interface names, frame kinds and flags.
- iceoryx2 ports, tokio tasks, channels, mutexes and the asynchronous loops around the engines.
- The other crates: executor, codecs, code generators, motion, diagnostics, and the MQTT and Zenoh connectors.
