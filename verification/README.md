# The packet engine of Gnirehtet, modelled and proved

Gnirehtet gives an Android device network access through a computer. The device sends raw
IP packets over one TCP stream to a relay; the relay ends every TCP connection of the device
itself, talks to the real network through ordinary sockets, and forges the IP packets the
device expects back. This project models that engine in Dafny: the TCP endpoint, the
three buffers under it, the two framers at the ends of the stream, the headers, checksums
and packet building, the connection table, the ICMP replies, and the two-lock tunnel
provider on the device.

Run `dafny verify dfyconfig.toml`.

## How it is built

Code that updates an object in place is a class, proved method by method against a function
of its abstract value; the theorems are lemmas about those functions and about runs of them.

- `Bytes`, `Chunks`, `Headers`, `Checksums`: fixed-width integers, byte strings end to end, parsed
  headers, RFC 1071 sums.
- `TcpChecksum`, `Packetizers`, `PacketizerLaws`, `PacketizerObject`: the in-place checksum
  routines, the packetizer as a value (`Pk`) and as an object, and the law that building and
  parsing are inverse.
- `StreamBuffers`, `DatagramBuffers`, `DeviceFeed.ByteBuffer`: the buffers, each against a
  plain queue.
- `HeaderLayout` encodes headers as the standards lay them out; the parsers invert it.
- `TcpSpec` gives every step of the endpoint as a function on `Conn`; `TcpConnections` is the
  object, whose methods compute those functions. `TcpInvariant` is what every run keeps,
  `TcpSteps`, `TcpHandlers` and `TcpNetwork` prove that each step keeps it, `TcpRuns` and
  `TcpProgress` state what follows for all runs, `TcpOutbox` what each step does to the shared
  buffer, `TcpReading`, `TcpAnswers` and `TcpPolling` exactly what is read, answered and closed,
  `TcpWindow` what the device's window allows, `TcpDevice` what follows when the device is
  orderly; `TcpSpoiled` and `TcpDeviceRuns` give particular runs.
- `Framing` is the theory of cutting a stream into packets, for both ends; `DeviceFeed` and
  `DeviceStream` are the two framers; `Transport` is the way from the shared buffer to the
  device's target stream, and `EndToEnd` runs it together with the endpoint; `DeviceWrites` is
  about all writes of a stream to the device's framer; `Upstream` is the way from the device's
  stream to the endpoint's socket.
- `Routers`, `TcpRouting`, `Tunnels`, `Icmp`: the connection table, TCP connections in it, the
  tunnel provider, the ICMP packets.

A run of the endpoint is any sequence of packets from the device, polls of the sockets and
uses of the shared buffer by others. What a socket answers, the random initial sequence
number, clock readings and whether the shared buffer is borrowed at the moment (`busy`) are
parameters. A write takes any number of the offered bytes, would block or fails; a read gives
any prefix of what arrived, the end of the stream, would block or fails. `History` (the `log`
of a `Conn`) is bookkeeping for the statements: no step reads it.

Masks and shifts are written as remainders and quotients. `Wrapping<u32>` is `Wrap32`. Plain
`u16` and `u32` sums that could overflow follow the release build, where they wrap (a debug
build panics): `fin_sequence_number + 1`, and the IPv6 payload length plus 40 on the relay.
Sums of the checksum routines are of type `u32`, so that they never overflow is proved.

## Where the code does less than it says

Each of these is proved, with the exact condition under which the code does what it should.

- A deferred data packet advances the sequence number by its whole IP length instead of its
  payload length, and a SYN-ACK or FIN that the shared buffer has no room for is counted though
  the device never gets it: the number is right if and only if neither happened
  (`SequenceNumberIsExact`, `SequenceNumberIsRightIff`; runs: `WrongNumberIsReachable`,
  `LostSynAckIsReachable`). The SYN-ACK is lost if and only if the buffer is borrowed or too full
  when the socket connects (`SynAckIsLostIff`); it is never sent again, so that handshake cannot
  complete.
- A control packet forged while a data packet is deferred rewrites the header of the deferred
  packet: the waiting bytes are a whole packet if and only if none was forged
  (`FlushIsWholeIffIntact`). Every retransmitted segment does it (`SpoiledPacketIsReachable`).
- Such a packet is let into the shared buffer by the length its header claims, not by its own:
  without room for all of it the ring is overrun and everything in it is lost, while the flush
  reports success. A step keeps what the shared buffer held if and only if it is no such flush
  (`SharedBufferFollowsIff`, `FlushAppendsIff`, `OverrunIsReachable`).
- With an orderly device, what the endpoint accepts is a beginning of the device's data, and its
  acknowledgement number right, if and only if every FIN was counted at its place, at most once,
  and no end of the socket was counted (`StreamIsGaplessIff`). A FIN counted at once is at its
  place if and only if its segment has no payload (`FinAtOnceIsInPlaceIff`), a waiting one if and
  only if everything before it was taken (`FinWaitsForBufferedData`). Both fail: a FIN with a
  payload in the ACK of the handshake makes the endpoint skip a byte (`EarlyFinLosesAByte`), and
  the end of the socket is counted although the device sent nothing, after which the device's
  next segment, its FIN and its ACK of our FIN included, is taken for a retransmission
  (`NextSegmentIsTakenForOld`, `DeviceCannotClose`).
- A datagram of 65536 bytes is stored with length 0, and a block that reaches the end of the
  ring while tail is 0 makes the ring read as empty: `StoreAppendsIff`, `LandingOnTailLosesAll`.
- A chunk that does not fit behind the residue loses its end: `Kept`.
- The loop of either framer does not end on a packet of length 0, on the relay only if the
  parser can read it and the router lets it go (`LoopIsEndlessIff`, inputs in `EndlessInputs`).
- The relay parses a packet in the whole buffer before it cuts it, and panics when the parser
  reads beyond (`LoopPanicsIff`). So its framing depends on the chunks: it does not if and only
  if every packet in the stream can be parsed alone and none of length 0 stops the loop
  (`ChunkingIsInvisibleIff`).
- The comment that the device's buffer always has room for one more full packet fails: all
  writes of at most 65536 bytes of a stream of packets are accepted if and only if every packet
  longer than 65537 bytes comes so late that no more than the capacity is left from it on
  (`WritesAreAcceptedIff`, `FullWriteIsRefusedIff`). After an unsupported version that buffer is
  left full, not empty: `IPPacketOutputStream.Write`.
- `drain_outgoing` replaces bytes by zeros unless the ring's contents are contiguous:
  `DrainIsExactIff`. Starting from an empty ring they always are.
- `getCurrentTunnel` reads its field without its monitor twice. The opener dereferences null if
  and only if its tunnel was closed before it connects (`OpenerCrashesIff`,
  `InvalidationDuringOpenCrashes`), and is given its tunnel if and only if that was not closed
  afterwards (`ReturnsItsTunnelIff`, `LateInvalidationReturnsNull`).
- A tunnel whose connection failed stays the current one until somebody invalidates it; a caller
  that finds a tunnel is handed a connected one if and only if its connection did not fail
  (`FoundTunnelIsConnectedIff`, `FailedTunnelIsHandedOut`).

## Model

| member | source | states |
|---|---|---|
| TcpRuns.NothingAcceptedIsLost | relay-rust/src/relay/tcp_connection.rs:687-935 | in every run the bytes written to the socket followed by those buffered are the accepted payloads in order; each was accepted at the number it carried, which is its place behind its SYN, the payloads accepted since that SYN and the FINs counted; the acknowledgement number is SYN + 1 + the bytes accepted since the last SYN + device FINs + ends of the socket, modulo 2^32 |
| TcpRuns.AdvertisedEdgesAreHonoured | relay-rust/src/relay/tcp_connection.rs:991-993 | no window edge put in a header since SynReceived reaches beyond the free space, however old the header |
| TcpRuns.PayloadInsideAnyEdgeIsAccepted | relay-rust/src/relay/tcp_connection.rs:884-935 | once connected, an in-order payload that ends inside any window advertised since SynReceived, however old, is accepted and never dropped by the whole of packet handling |
| TcpRuns.PayloadInWindowIsAccepted | relay-rust/src/relay/tcp_connection.rs:901-935 | the same with the edge compared modulo 2^32, for windows advertised less than 2^31 acknowledged bytes ago |
| TcpRuns.PayloadIsAcceptedIff | relay-rust/src/relay/tcp_connection.rs:687-935 | over every branch of packet handling, a payload is taken if and only if it carries an ACK at the expected number, fits, and the connection is neither new nor waiting for the ACK of the handshake; then all of it is, otherwise none |
| TcpRuns.NothingReadIsLost | relay-rust/src/relay/tcp_connection.rs:508-595 | in every run the bytes read from the socket are the payloads of the packets handed to the shared buffer in order, then that of the one deferred packet |
| TcpRuns.DataPacketsAreFaithful | relay-rust/src/relay/tcp_connection.rs:516-563 | every data packet ever built parses back to the control block's numbers, flags and window with its checksums right, carries at most 1460 bytes, and ends inside the client's window modulo 2^32 |
| TcpRuns.DataIsContiguous | relay-rust/src/relay/tcp_connection.rs:541-552 | without deferral each data packet starts where the one before ended, the payloads in the shared buffer are the bytes read, and a forged FIN leaves sequence number = FIN number + 1 |
| TcpRuns.SequenceNumberIsExact | relay-rust/src/relay/tcp_connection.rs:348-369 | the sequence number in every run: initial number + SYN + bytes read + FIN + one IP and TCP header per flushed packet, modulo 2^32 |
| TcpRuns.SequenceNumberIsRightIff | relay-rust/src/relay/tcp_connection.rs:354-358 | the sequence number is the one the device expects from the SYN-ACK, payloads and FIN handed over, if and only if headers of flushed packets and lost controls cancel out modulo 2^32; below 2^32 of them, if and only if there are none |
| TcpRuns.LostControlsOfRuns | relay-rust/src/relay/tcp_connection.rs:608-641 | in every run at most one SYN-ACK and one FIN are forged, and no more handed over than forged |
| TcpRuns.DeferredPacketBlocksThePollIff | relay-rust/src/relay/tcp_connection.rs:379-392 | a poll of an open connection with a deferred packet changes nothing and reports WouldBlock if and only if that packet does not fit |
| TcpRuns.IntactFlushIsExact | relay-rust/src/relay/tcp_connection.rs:348-369 | with no header forged since, the flush appends byte for byte the packet that was built, and does so exactly when it fits |
| TcpRuns.FlushIsWholeIffIntact | relay-rust/src/relay/tcp_connection.rs:608-641 | the bytes waiting to be flushed are one whole, checksummed packet if and only if no header was forged since the deferral |
| TcpRuns.RetransmissionSpoilsDeferredPacket | relay-rust/src/relay/tcp_connection.rs:700-715 | any retransmitted segment that arrives while a packet is deferred makes the later flush no packet at all |
| TcpReading.DeliverIsDirectIff | relay-rust/src/relay/tcp_connection.rs:538-563 | a built packet goes to the shared buffer if and only if that is free and has room for its bytes; otherwise it is deferred with its whole length; what the number, the buffer and the history are then |
| TcpReading.ReadLoopIs | relay-rust/src/relay/tcp_connection.rs:508-595 | the read loop is exactly what `Rounds` counts in plain numbers from the answers, the window and the room: which payloads become packets in the shared buffer, in order, which one is deferred, and whether the socket ended or failed |
| TcpReading.NothingIsDeferredIff | relay-rust/src/relay/tcp_connection.rs:516-563 | those rounds defer nothing if and only if there is nothing to send or the shared buffer is free with room for every packet that window and rounds allow; then all of them are sent |
| TcpReading.PayloadsOfFullLoop | relay-rust/src/relay/tcp_connection.rs:513-516 | with answers and window enough one poll reads 32 packets |
| TcpReading.PollReads | relay-rust/src/relay/tcp_connection.rs:372-462 | a poll that gets past the deferred packet reads exactly those rounds from the state its write leaves, if the connection is open, established and nothing is deferred, and otherwise nothing |
| TcpReading.RoomyPollDeliversAll | relay-rust/src/relay/tcp_connection.rs:508-563 | in every run: with room for all packets that window and rounds allow, one poll puts them all in the shared buffer as whole packets in order, defers none and advances the number by the bytes read |
| TcpSpoiled.SpoiledPacketIsReachable | relay-rust/src/relay/tcp_connection.rs:553-562 | for every opening packet a run, with the shared buffer full for a moment and one retransmission, ends with a spoilt deferred packet |
| TcpSpoiled.OverrunIsReachable | relay-rust/src/relay/tcp_connection.rs:337-338 | for every opening packet a run in which a flush reports success and empties a nearly full shared buffer |
| TcpSpoiled.WrongNumberIsReachable | relay-rust/src/relay/tcp_connection.rs:354-358 | for every opening packet a run, undisturbed but for the full buffer, that ends with a sequence number the device does not expect because a packet was flushed |
| TcpSpoiled.LostSynAckIsReachable | relay-rust/src/relay/tcp_connection.rs:597-603 | for every opening packet a run without any flush in which the SYN-ACK is lost, the number is wrong, and the repeated SYN of the device gets no answer though the buffer is empty again |
| TcpOutbox.SharedBufferFollowsIff | relay-rust/src/relay/tcp_connection.rs:330-343 | after any step the shared buffer holds what it held and the packets the step handed over, if and only if the step is no flush of a spoilt packet longer than the room left |
| TcpOutbox.FlushAppendsIff | relay-rust/src/relay/tcp_connection.rs:348-369 | a flush that reports success appends its bytes if and only if the packet is intact or fits |
| TcpOutbox.OverrunLosesAll | relay-rust/src/relay/stream_buffer.rs:78-101 | what an overrunning flush leaves in the ring: the end of its own bytes |
| TcpOutbox.ControlPacketSays | relay-rust/src/relay/tcp_connection.rs:608-641 | a control packet is whole, parses to the current numbers, flags and window, and is queued exactly when the shared buffer is free and has room |
| TcpOutbox.ControlIsHandedIff | relay-rust/src/relay/tcp_connection.rs:608-641 | a SYN or FIN is among the packets handed over exactly when the shared buffer was free and had room |
| TcpOutbox.SynAckIsLostIff | relay-rust/src/relay/tcp_connection.rs:597-603 | when the socket connects the number counts the SYN; the SYN-ACK is lost if and only if the buffer is borrowed or has no room |
| TcpOutbox.AcceptedPayloadIsAnswered | relay-rust/src/relay/tcp_connection.rs:931-935 | the next packet queued after an accepted payload is an ACK of the number behind it with the room left as window, whatever else the segment carries |
| TcpOutbox.OutOfOrderIsAnswered | relay-rust/src/relay/tcp_connection.rs:699-726 | a segment away from the expected number changes nothing; an old one is answered by one whole ACK of the current numbers, one from the future by nothing |
| TcpAnswers.PacketIsAnswered | relay-rust/src/relay/tcp_connection.rs:687-935 | in every run, any packet of the device is answered by exactly the control packets of the table `Replies`, word for word and as many as fit, and moves the control block exactly to `Afterwards`: accepted and dropped payloads, FINs that count or wait, resets, repeated and future segments, both SYNs |
| TcpAnswers.AckIsAnswered | relay-rust/src/relay/tcp_connection.rs:884-935 | a payload, taken or dropped, is answered by an ACK of the number expected then with the room left |
| TcpAnswers.FinIsAnswered | relay-rust/src/relay/tcp_connection.rs:823-866 | a FIN is counted at once exactly when nothing is buffered, and answered by our FIN in Established and an ACK in FinWait1 and FinWait2 |
| TcpPolling.WriteIsAnswered | relay-rust/src/relay/tcp_connection.rs:464-506 | the answer to each outcome of a write: an ACK with the room made, what a FIN waiting for the last bytes calls for, an RST, or nothing; and the new state |
| TcpPolling.RoomIsAnnounced | relay-rust/src/relay/tcp_connection.rs:477-485 | in every run a write that takes bytes and frees no waiting FIN is answered by exactly one packet, an ACK of the current numbers with the room there is after the write |
| TcpPolling.ReadLoopEnds | relay-rust/src/relay/tcp_connection.rs:564-587 | behind its data packets the read loop puts our FIN with the number behind the last payload, or an RST, in the shared buffer when the socket ended or failed, and otherwise nothing |
| TcpPolling.ConnectIsAnswered | relay-rust/src/relay/tcp_connection.rs:597-603 | the socket is tried in SynSent only: connected, it is answered by the SYN-ACK in SynReceived; failed, it closes |
| TcpPolling.SynAckSays | relay-rust/src/relay/tcp_connection.rs:597-603 | in every run whose SYN brought no data the SYN-ACK carries the random initial number, the number behind the SYN and a window of 65535 |
| TcpPolling.PollSends | relay-rust/src/relay/tcp_connection.rs:372-462 | in every run what a poll past the deferred packet puts in the shared buffer: the answer to its write, then data packets and the end of the read loop, or the SYN-ACK |
| TcpPolling.PollWrites | relay-rust/src/relay/tcp_connection.rs:394-411 | in every run such a poll hands the network exactly what it takes of the contiguous buffered bytes, and nothing else leaves the buffer |
| TcpPolling.TwoPollsWriteEverything | relay-rust/src/relay/tcp_connection.rs:372-506 | in every run two polls of an open connection with nothing deferred, to a network that takes what it is offered, write all that was ever accepted from the device |
| TcpPolling.PollClosesIff | relay-rust/src/relay/tcp_connection.rs:372-462 | in every run the exact condition under which a poll closes an open connection, over its flush, write, read loop and connect |
| TcpPolling.PollBlocksIff | relay-rust/src/relay/tcp_connection.rs:372-462 | in every run the exact condition under which a poll reports WouldBlock |
| TcpRuns.AppendedPacketsAreWhole | relay-rust/src/relay/tcp_connection.rs:330-343 | with only intact flushes everything the connection puts in the shared buffer is whole packets |
| TcpRuns.LifecycleOfRuns | relay-rust/src/relay/tcp_connection.rs:84-97 | at most one SYN-ACK and one FIN are forged, the FIN number is set exactly in the four closing states, the socket is read only in Established, with nothing deferred and with room in the client window |
| TcpRuns.RunKeeps | relay-rust/src/relay/tcp_connection.rs:372-462 | the whole invariant survives any run of packets, polls and foreign uses of the shared buffer |
| TcpHandlers.HandlePacketKeeps | relay-rust/src/relay/tcp_connection.rs:687-775 | every branch of packet handling keeps the invariant |
| TcpHandlers.HandleAckKeeps | relay-rust/src/relay/tcp_connection.rs:884-935 | accepting or dropping a payload keeps counts, windows and buffered bytes in agreement |
| TcpHandlers.DoHandleFinKeeps | relay-rust/src/relay/tcp_connection.rs:842-866 | counting the device's FIN and forging ours keeps the invariant in each state |
| TcpNetwork.PollKeeps | relay-rust/src/relay/tcp_connection.rs:372-462 | one poll keeps the invariant whatever the sockets answer |
| TcpNetwork.ReceiveFromKeeps | relay-rust/src/relay/tcp_connection.rs:508-595 | the read loop of up to 32 packets keeps the invariant |
| TcpNetwork.FlushPendingKeeps | relay-rust/src/relay/tcp_connection.rs:348-369 | flushing, intact or spoilt, keeps the invariant |
| TcpNetwork.DeliverKeeps | relay-rust/src/relay/tcp_connection.rs:534-563 | putting a packet in the shared buffer or deferring it keeps the invariant |
| TcpNetwork.EofKeeps | relay-rust/src/relay/tcp_connection.rs:643-651 | the end of the socket, with its extra acknowledged byte, keeps the invariant |
| TcpProgress.StateOnlyMovesForward | relay-rust/src/relay/tcp_connection.rs:777-882 | over whole runs the state only moves forward, LastAck, Closing and FinWait2 are ends, and the FINs counted stay in step with it |
| TcpProgress.EndsOfRuns | relay-rust/src/relay/tcp_connection.rs:643-651 | in every run the end of the socket is counted once, exactly in FinWait1, FinWait2 and Closing; a FIN of the device is counted in LastAck and Closing and never before one was received |
| TcpDevice.StreamIsGaplessIff | relay-rust/src/relay/tcp_connection.rs:687-935 | with a device whose segments are any pieces of one stream, in every run: what was accepted is a beginning of the stream and the acknowledgement number right behind it, if and only if every FIN was counted at its place, at most once, and no end of the socket |
| TcpDevice.NetworkGetsTheStream | relay-rust/src/relay/tcp_connection.rs:464-506 | then the bytes written to the socket and those buffered are a beginning of what the device said |
| TcpDevice.RunFollows | relay-rust/src/relay/tcp_connection.rs:687-935 | what every run with an orderly device keeps: where its bytes and its FIN are, and that a FIN counted too early leaves a byte behind |
| TcpDevice.FinAtOnceIsInPlaceIff | relay-rust/src/relay/tcp_connection.rs:823-846 | a FIN counted in the step that brings it is at its place if and only if its segment has no payload |
| TcpDevice.NextSegmentIsTakenForOld | relay-rust/src/relay/tcp_connection.rs:699-715 | after an end of the socket the device's next segment, FIN included, is answered by an ACK and changes nothing else |
| TcpDeviceRuns.EarlyFinLosesAByte | relay-rust/src/relay/tcp_connection.rs:884-890 | for every opening packet a run with an orderly device in which the first of its two bytes never reaches the network and the second does |
| TcpDeviceRuns.DeviceCannotClose | relay-rust/src/relay/tcp_connection.rs:643-651 | for every opening packet a run in which the network ends first and the FIN and ACK of an orderly device leave the endpoint in FinWait1, once and again |
| TcpProgress.PacketClosesIff | relay-rust/src/relay/tcp_connection.rs:687-882 | over every branch of packet handling, the exact condition under which a packet of the device closes the connection |
| TcpProgress.SocketIsReadIff | relay-rust/src/relay/tcp_connection.rs:976-984 | the socket may be read exactly in Established, with nothing deferred and fewer bytes in flight than the client window, counted modulo 2^32 |
| TcpProgress.RemainingWindowIs | relay-rust/src/relay/tcp_connection.rs:114-128 | the remaining client window is the window less the bytes in flight modulo 2^32, and 0 when more are in flight than fit |
| TcpWindow.PacketTells | relay-rust/src/relay/tcp_connection.rs:728-739 | window and acknowledgement stored change exactly as the device says: both by any segment at the expected number that is no SYN, a zero window included, the window by the first SYN, and neither by any other packet |
| TcpWindow.ToldIsStored | relay-rust/src/relay/tcp_connection.rs:728-739 | over whole runs what is stored is what the events said last |
| TcpWindow.DataStaysInToldWindow | relay-rust/src/relay/tcp_connection.rs:516-523 | over whole runs every data packet is built by a poll and ends inside the window told last by the events before it; after a zero window none is built until a later segment |
| TcpProgress.ReadLoopStaysInWindow | relay-rust/src/relay/tcp_connection.rs:508-595 | all payload built in one read loop is at most the window remaining at its start and at most 32 packets |
| TcpProgress.WindowShrinks | relay-rust/src/relay/tcp_connection.rs:114-128 | sending n bytes shrinks the remaining client window by exactly n under 32-bit wrap-around |
| TcpProgress.ClosingPollReportsProgress | relay-rust/src/relay/tcp_connection.rs:453-462 | a poll that ends with the connection closed returns Ok, never WouldBlock |
| TcpProgress.FinWaitsForBufferedData | relay-rust/src/relay/tcp_connection.rs:464-488 | a FIN received earlier is counted by exactly the write that empties the buffer, at the place reached by then |
| TcpConnections.TcpConnection.constructor | relay-rust/src/relay/tcp_connection.rs:170-216 | a new connection: fresh control block, a 32-packet inbox, a packetizer without TCP options |
| TcpConnections.TcpConnection.HandlePacket | relay-rust/src/relay/tcp_connection.rs:687-726 | the object's whole new state is the one the step function gives |
| TcpConnections.TcpConnection.HandleExpected | relay-rust/src/relay/tcp_connection.rs:728-775 | same, for a packet at the expected number, in the order RST, ACK, FIN, ACK of our FIN |
| TcpConnections.TcpConnection.HandleFirstPacket | relay-rust/src/relay/tcp_connection.rs:777-809 | same, for the first packet: SYN, or RST and close |
| TcpConnections.TcpConnection.HandleDuplicateSyn | relay-rust/src/relay/tcp_connection.rs:811-821 | same, for a SYN on a known connection |
| TcpConnections.TcpConnection.HandleAck | relay-rust/src/relay/tcp_connection.rs:884-935 | same, for the handshake's ACK and for payloads |
| TcpConnections.TcpConnection.HandleFin | relay-rust/src/relay/tcp_connection.rs:823-840 | same, for a FIN, now or once the buffer is empty |
| TcpConnections.TcpConnection.DoHandleFin | relay-rust/src/relay/tcp_connection.rs:842-866 | same, for counting the FIN in each state |
| TcpConnections.TcpConnection.HandleFinAck | relay-rust/src/relay/tcp_connection.rs:868-882 | same, for the ACK of our FIN |
| TcpConnections.TcpConnection.SendPacketToBuffer | relay-rust/src/relay/tcp_connection.rs:330-343 | a packet is refused, with no effect, exactly when the shared buffer is borrowed or the length in its header does not fit; otherwise its bytes go into the ring, which a packet longer than its header says may overrun |
| TcpConnections.TcpConnection.SendEmpty | relay-rust/src/relay/tcp_connection.rs:608-641 | a control packet carries the current numbers and window, and is dropped when it does not fit |
| TcpConnections.TcpConnection.Forge | relay-rust/src/relay/tcp_connection.rs:679-685 | the header fields written and the window advertised |
| TcpConnections.TcpConnection.FlushPending | relay-rust/src/relay/tcp_connection.rs:348-369 | the new state and result of a flush |
| TcpConnections.TcpConnection.ProcessSend | relay-rust/src/relay/tcp_connection.rs:464-506 | the new state and result of one write to the socket: progress, closed by 0 bytes, blocked, failed |
| TcpConnections.TcpConnection.Deliver | relay-rust/src/relay/tcp_connection.rs:538-563 | the new state after building around received bytes, sent or deferred |
| TcpConnections.TcpConnection.Eof | relay-rust/src/relay/tcp_connection.rs:643-651 | the new state after the end of the socket |
| TcpConnections.TcpConnection.ReceiveOne | relay-rust/src/relay/tcp_connection.rs:516-587 | one round of the read loop |
| TcpConnections.TcpConnection.ProcessReceive | relay-rust/src/relay/tcp_connection.rs:508-595 | the loop computes the recursive read function: new state and whether it made progress |
| TcpConnections.TcpConnection.ProcessConnect | relay-rust/src/relay/tcp_connection.rs:597-603 | the new state after the socket connected |
| TcpConnections.TcpConnection.Poll | relay-rust/src/relay/tcp_connection.rs:372-462 | the new state and result of a poll |
| StreamBuffers.RingWrite | relay-rust/src/relay/stream_buffer.rs:78-101 | overwriting the ring from head, across the end if need be, appends to the queue |
| StreamBuffers.RingTake | relay-rust/src/relay/stream_buffer.rs:57-76 | what one write is offered is a prefix of the queue, and moving tail removes exactly what was taken |
| StreamBuffers.QueueIsFifo | relay-rust/src/relay/stream_buffer.rs:26-117 | over any run of appends and partial, blocked or failed writes, what was held and appended is what was sent and is still held |
| StreamBuffers.WriteIsExact | relay-rust/src/relay/stream_buffer.rs:57-76 | a write takes exactly as many bytes as the destination takes of the contiguous ones, from the front; a blocked or failed one takes none |
| StreamBuffers.TwoWritesEmpty | relay-rust/src/relay/stream_buffer.rs:57-76 | two writes that take everything empty the buffer wherever it wraps; one does if and only if the contents do not wrap |
| StreamBuffers.StreamBuffer.constructor | relay-rust/src/relay/stream_buffer.rs:27-33 | an empty queue of the given capacity |
| StreamBuffers.StreamBuffer.WriteTo | relay-rust/src/relay/stream_buffer.rs:57-76 | the queue loses exactly the bytes handed over; a blocked or failed write changes nothing |
| StreamBuffers.StreamBuffer.ReadFrom | relay-rust/src/relay/stream_buffer.rs:78-101 | the queue gains the source, or without room keeps only its end |
| StreamBuffers.StreamBuffer.Size | relay-rust/src/relay/stream_buffer.rs:40-46 | the number of bytes queued, across wrap-around |
| StreamBuffers.StreamBuffer.Remaining | relay-rust/src/relay/stream_buffer.rs:48-55 | the room left in the queue |
| StreamBuffers.StreamBuffer.Optimize | relay-rust/src/relay/stream_buffer.rs:103-116 | resetting an empty ring keeps its contents |
| DatagramBuffers.StoreAppendsIff | relay-rust/src/relay/datagram_buffer.rs:60-109 | storing appends the datagram if and only if the space check passes (so it refuses nothing that could be stored), the length fits in 16 bits and the block does not reach the end of the ring while tail is 0 |
| DatagramBuffers.LandingOnTailLosesAll | relay-rust/src/relay/datagram_buffer.rs:60-69 | where head lands on tail everything held is lost |
| DatagramBuffers.StoreWrites | relay-rust/src/relay/datagram_buffer.rs:101-103 | a store writes its block, in bounds, and no other byte |
| DatagramBuffers.AdvanceTakesTheFirst | relay-rust/src/relay/datagram_buffer.rs:71-88 | reads return the datagrams unchanged in order, and tail wraps exactly where head wrapped |
| DatagramBuffers.RingIsFifo | relay-rust/src/relay/datagram_buffer.rs:48-109 | over any run under those conditions, the datagrams held and stored are those taken and still held |
| DatagramBuffers.DatagramBuffer.constructor | relay-rust/src/relay/datagram_buffer.rs:48-54 | a new buffer holds nothing |
| DatagramBuffers.DatagramBuffer.ReadFrom | relay-rust/src/relay/datagram_buffer.rs:90-109 | the datagram is stored, or the full buffer is unchanged |
| DatagramBuffers.DatagramBuffer.WriteTo | relay-rust/src/relay/datagram_buffer.rs:71-88 | exactly one datagram is consumed, whatever the socket answers, with all accesses in bounds despite the overhang |
| Framing.CutConcat | relay-rust/src/relay/client.rs:196-207 | cutting a stream is cutting its beginning, then what is left with what follows, unless the beginning makes the relay panic |
| Framing.ChunkingIsInvisible | relay-rust/src/relay/client.rs:190-209 | for any bytes and chunks, garbage included, for both framers: a run that does not panic gives the packets, end and residue of the whole stream cut at once |
| Framing.ChunkingIsInvisibleIff | relay-rust/src/relay/ip_packet_buffer.rs:81-88 | the relay frames a stream alike in whatever chunks if and only if every packet in it can be parsed alone and no packet of length 0 stops the loop |
| Framing.DeviceChunkingIsInvisible | app/src/main/java/com/genymobile/gnirehtet/IPPacketOutputStream.java:54-113 | the device frames any bytes alike in whatever chunks |
| Framing.CutOfPackets | relay-rust/src/relay/ip_packet_buffer.rs:44-95 | well-formed packets followed by an incomplete one come out exactly |
| Framing.CutOfPrefix | relay-rust/src/relay/ip_packet_buffer.rs:44-95 | any prefix of a concatenation of well-formed packets is cut into the first of them and the beginning of the next |
| Framing.GarbagePrefixIsSkipped | relay-rust/src/relay/ip_packet_buffer.rs:97-124 | a prefix without a 4 or 6 nibble is discarded and the rest is framed as if it were alone |
| Framing.ResidueLeavesRoom | relay-rust/src/relay/ip_packet_buffer.rs:99-103 | the loop never leaves the 65536-byte buffer full, whatever it was fed |
| Framing.LoopIsEndlessIff | relay-rust/src/relay/client.rs:196-207 | a framing loop does not end if and only if its input is a sequence of packets (on the relay also of single garbage bytes) followed by an IPv4 length of 0, on the relay with all that the parser reads and a protocol that the router drops |
| Framing.LoopPanicsIff | relay-rust/src/relay/ipv4_packet.rs:30-41 | the relay panics if and only if its input is a sequence of packets and garbage bytes followed by a packet, complete by its length, that the parser or for length 0 the router reads beyond |
| Framing.LoopFailsIff | app/src/main/java/com/genymobile/gnirehtet/IPPacketOutputStream.java:99-104 | the device's loop gives up if and only if its input is a sequence of packets followed by a byte of another version |
| Framing.EndlessInputs | relay-rust/src/relay/ip_packet_buffer.rs:52-73 | inputs on which each loop does not end, and on which only the relay panics |
| Framing.WholeIsWellFormed | relay-rust/src/relay/packetizer.rs:121-149 | every packet the relay builds is cut out whole by both framers |
| DeviceFeed.RoutedPacketsAreTheCompleteOnes | relay-rust/src/relay/client.rs:190-209 | for packets that can be parsed alone, in chunks that fit, the packets routed are exactly the complete ones in order and the buffer holds exactly the rest |
| DeviceFeed.FeedingIsCutting | relay-rust/src/relay/client.rs:190-209 | any number of feeding calls with chunks that fit is cutting the stream |
| DeviceFeed.FeedLeavesRoom | relay-rust/src/relay/client.rs:190-209 | after any calls that end, also with chunks that do not fit, there is room to read on |
| DeviceFeed.Kept | relay-rust/src/relay/byte_buffer.rs:33-38 | nothing of a chunk is lost if and only if it fits behind the residue |
| DeviceFeed.ByteBuffer.ReadFrom | relay-rust/src/relay/byte_buffer.rs:33-38 | the bytes that fit are appended |
| DeviceFeed.ByteBuffer.Consume | relay-rust/src/relay/byte_buffer.rs:48-76 | the overlapping move leaves exactly the bytes behind the consumed ones |
| DeviceFeed.IpPacketBuffer.AvailablePacketInfo | relay-rust/src/relay/ip_packet_buffer.rs:44-79 | finds a complete packet exactly when the framing theory cuts one |
| DeviceFeed.IpPacketBuffer.Next | relay-rust/src/relay/ip_packet_buffer.rs:90-95 | removes the packet at the front, or nothing |
| DeviceFeed.IpPacketBuffer.SkipMalformed | relay-rust/src/relay/ip_packet_buffer.rs:108-124 | removes one byte exactly when no packet can start there |
| DeviceFeed.Client.FeedDeviceData | relay-rust/src/relay/client.rs:190-209 | routes exactly the packets cut from residue and chunk, counts them, keeps the rest, and says whether the loop ends or the parser panics |
| DeviceStream.IPPacketOutputStream.Write | app/src/main/java/com/genymobile/gnirehtet/IPPacketOutputStream.java:54-68 | which exception is thrown when, and otherwise that exactly the packets cut from residue and chunk are written one by one and the rest is kept; when the target throws, it has exactly the packets before and the unread bytes still hold the others |
| DeviceStream.IPPacketOutputStream.Sink | app/src/main/java/com/genymobile/gnirehtet/IPPacketOutputStream.java:81-86 | the loop writes the packets of the framing theory in order, up to the one on which the target throws |
| DeviceStream.IPPacketOutputStream.SinkPacket | app/src/main/java/com/genymobile/gnirehtet/IPPacketOutputStream.java:88-113 | one round: a packet written, too few bytes, or the buffer cleared on an unsupported version |
| DeviceStream.IPPacketOutputStream.ReadPacketVersion | app/src/main/java/com/genymobile/gnirehtet/IPPacketOutputStream.java:121-129 | the version nibble of the unread bytes |
| DeviceStream.IPPacketOutputStream.ReadPacketLength | app/src/main/java/com/genymobile/gnirehtet/IPPacketOutputStream.java:137-144 | the IPv4 length of the unread bytes, or -1 |
| DeviceStream.IPPacketOutputStream.ReadIpv6PacketLength | app/src/main/java/com/genymobile/gnirehtet/IPPacketOutputStream.java:153-159 | the IPv6 length of the unread bytes, or -1 |
| DeviceStream.JumboResidueLeavesTooLittleRoom | app/src/main/java/com/genymobile/gnirehtet/IPPacketOutputStream.java:36-37 | a residue for which the buffer does not accept one more full packet |
| DeviceWrites.WritesAreAcceptedIff | app/src/main/java/com/genymobile/gnirehtet/IPPacketOutputStream.java:36-68 | all writes of at most 65536 bytes of a stream of packets are accepted, however it is cut, if and only if every packet longer than 65537 bytes comes so late that from it on no more than the capacity is left |
| DeviceWrites.FullWriteIsRefusedIff | app/src/main/java/com/genymobile/gnirehtet/IPPacketOutputStream.java:58-63 | behind any packets and m bytes of one more, a full write is refused if and only if m exceeds 65536 |
| Transport.RelayToDeviceIsTransparent | relay-rust/src/relay/client.rs:332-359 | under any drains, partial writes and receive chunks the device writes exactly the appended packets in order, all of them once no byte is on the way, and its framer neither fails nor overflows |
| Transport.EverythingArrives | relay-rust/src/relay/client.rs:332-359 | after any moves, one turn of the main loop whose socket takes everything and enough receives bring every packet appended to the device |
| Transport.AppendTakesIff | relay-rust/src/relay/client.rs:72-105 | a packet is appended exactly when the buffer is free and has room for it, behind what it holds |
| EndToEnd.NetworkBytesReachTheDevice | relay-rust/src/relay/tcp_connection.rs:508-595 | endpoint, other senders, main loop and device interleaved in any way: unless a flush was spoilt the device writes all packets in order, of the endpoint a beginning of what it handed over, and once no byte is on the way the payloads written are exactly the bytes read from the network up to the one deferred packet |
| EndToEnd.EverythingReadArrives | relay-rust/src/relay/client.rs:332-359 | whatever was interleaved before, unless a flush was spoilt: one turn of the main loop whose socket takes everything and enough receives bring all that was read from the network to the device, up to the one deferred packet |
| EndToEnd.TurnsKeep | relay-rust/src/relay/client.rs:292-364 | what any interleaving keeps: one ring, its packets attributed to their senders, transparent as long as every flush was intact |
| Upstream.HandledSegmentsAreTheSentOnes | relay-rust/src/relay/client.rs:190-209 | however the device's packets are cut into chunks that fit, and whatever happens between them, the endpoint's run handles exactly the segments of its connection in the packets that arrived whole, in order |
| Upstream.NetworkGetsWhatTheDeviceSaid | relay-rust/src/relay/client.rs:190-217 | chunks, packets, parsing, endpoint and socket in one run: with an orderly device whose FIN was counted in place, what was written and is buffered is a beginning of the device's data |
| Upstream.SegmentIsRead | relay-rust/src/relay/tcp_header.rs:51-63 | of a packet laid out as RFC 791 and RFC 9293 say, the endpoint of its flow reads exactly number, acknowledgement, control bits, window and payload, and no other endpoint anything |
| Transport.WholeIsSendable | relay-rust/src/relay/packetizer.rs:121-149 | every packet of the endpoint meets the condition of the transport theorem |
| Transport.DrainIsExact | relay-rust/src/relay/client.rs:221-234 | with tail at 0 one drain takes everything and leaves tail at 0 |
| Transport.DrainIsExactIff | relay-rust/src/relay/client.rs:221-234 | a drain empties the ring if and only if the contents do not wrap |
| Transport.ClientOutput.SendToClient | relay-rust/src/relay/client.rs:72-105 | a packet is appended whole, or refused when the buffer is borrowed or lacks room |
| Transport.ClientOutput.DrainOutgoing | relay-rust/src/relay/client.rs:221-234 | the vector returned and the ring left behind |
| Transport.ClientOutput.Pump | relay-rust/src/relay/client.rs:332-359 | one turn of the loop: what goes on the wire and what stays pending |
| Transport.Link.Append | relay-rust/src/relay/client.rs:72-105 | the objects do to ring, pending bytes, wire, framer and target what the step of the path says |
| Transport.Link.Pump | relay-rust/src/relay/client.rs:332-359 | same, for one turn of the main loop |
| Transport.Link.Receive | app/src/main/java/com/genymobile/gnirehtet/IPPacketOutputStream.java:54-68 | same, for a chunk received by the device, unless its framer fails |
| HeaderLayout.Ipv4Parses | relay-rust/src/relay/ipv4_header.rs:50-64 | a header encoded as section 3.1 of RFC 791 lays it out, followed by anything, parses to its fields |
| HeaderLayout.Ipv6Parses | relay-rust/src/relay/ipv6_header.rs:45-61 | same, for section 3 of RFC 8200 |
| HeaderLayout.TcpParses | relay-rust/src/relay/tcp_header.rs:51-63 | same, for section 3.1 of RFC 9293, at any offset |
| HeaderLayout.UdpParses | relay-rust/src/relay/udp_header.rs:41-47 | same, for RFC 768 |
| HeaderLayout.FlagsAreControlBits | relay-rust/src/relay/tcp_header.rs:43-47 | what is sent and read as FIN, SYN, RST, PSH and ACK are the control bits of RFC 9293 |
| PacketizerLaws.ShrinkOptionsParses | relay-rust/src/relay/tcp_header.rs:280-291 | dropping the options keeps every other parsed field |
| PacketizerLaws.SetFlagsSynced | relay-rust/src/relay/tcp_header.rs:265-272 | stored and raw flags agree if and only if the flags fit in nine bits |
| PacketizerLaws.UpdateHeadersSynced | relay-rust/src/relay/tcp_connection.rs:679-685 | header changes keep parsed and raw headers in agreement |
| PacketizerLaws.NewIsSynced | relay-rust/src/relay/packetizer.rs:35-75 | a new packetizer holds the reference's headers with addresses and ports exchanged, parsed and raw in agreement |
| PacketizerLaws.BuildSynced | relay-rust/src/relay/packetizer.rs:121-149 | building keeps parsed and raw headers in agreement |
| PacketizerLaws.BuildParses | relay-rust/src/relay/packetizer.rs:121-149 | the bytes of a built packet parse to exactly the stored headers, the right lengths and the payload; for UDP the length field and the zero checksum are right too |
| PacketizerLaws.BuildVerifies | relay-rust/src/relay/tcp_header.rs:303-437 | both checksums of every built packet verify at the receiver, for IPv4 and IPv6 |
| PacketizerLaws.UsesKeepSync | relay-rust/src/relay/packetizer.rs:77-149 | any sequence of header changes, payloads and builds keeps the agreement and the endpoints |
| PacketizerLaws.BuildAndParseAreInverse | relay-rust/src/relay/packetizer.rs:35-165 | from any reference through any uses, parsing what is built gives the stored headers, the reference's endpoints exchanged, the lengths (of UDP too) and the payload |
| PacketizerLaws.InflateParsesIff | relay-rust/src/relay/packetizer.rs:151-165 | an inflated packet is what its bytes say if and only if the length asked for is the one its header holds now |
| PacketizerObject.Packetizer.constructor | relay-rust/src/relay/packetizer.rs:35-75 | copying and exchanging in place gives the packetizer value |
| PacketizerObject.Packetizer.UpdateHeaders | relay-rust/src/relay/tcp_header.rs:253-278 | the four setters change buffer and parsed header together |
| PacketizerObject.Packetizer.SetFlags | relay-rust/src/relay/tcp_header.rs:265-272 | the low nine bits are replaced, the data offset kept |
| PacketizerObject.Packetizer.Receive | relay-rust/src/relay/packetizer.rs:92-98 | the received bytes land at the payload index |
| PacketizerObject.Packetizer.SetLengths | relay-rust/src/relay/packetizer.rs:122-125 | the IPv4, IPv6 and UDP length fields |
| PacketizerObject.Packetizer.ComputeChecksums | relay-rust/src/relay/ipv4_packet.rs:194-201 | IPv4 and TCP checksums in place, zero for UDP |
| PacketizerObject.Packetizer.Build | relay-rust/src/relay/packetizer.rs:121-149 | the in-place build gives the built value |
| Headers.SwapInPlace | relay-rust/src/relay/ipv6_header.rs:183-194 | the byte swaps exchange two blocks and nothing else |
| TcpChecksum.ByteSums | relay-rust/src/relay/tcp_header.rs:335-358 | the two pointer loops, odd tail included, are the sums of high and low bytes, without overflow |
| TcpChecksum.SegmentSum | relay-rust/src/relay/tcp_header.rs:360-361 | separate byte sums and one shift equal the plain word sum over pseudo-header, header and payload |
| TcpChecksum.PseudoHeaderSumV4 | relay-rust/src/relay/tcp_header.rs:311-327 | the five additions are the word sum of the IPv4 pseudo-header |
| TcpChecksum.PseudoHeaderSumV6 | relay-rust/src/relay/tcp_header.rs:369-402 | the additions are the word sum of the IPv6 pseudo-header of section 8.1 of RFC 8200 |
| TcpChecksum.SegmentSums | relay-rust/src/relay/tcp_header.rs:335-361 | the optimised sum is the plain word sum for all header and payload lengths up to 65535 |
| TcpChecksum.UpdateTcpChecksum | relay-rust/src/relay/tcp_header.rs:303-437 | the field gets the plain RFC 1071 checksum over pseudo-header and segment with a zero field, nothing else changes |
| TcpChecksum.UpdateIpv4Checksum | relay-rust/src/relay/ipv4_header.rs:194-208 | the field gets the plain checksum of the header with a zero field, whatever it held, any options |
| TcpChecksum.HeaderWords | relay-rust/src/relay/ipv4_header.rs:195-203 | skipping the field is summing it as zero |
| Checksums.FoldCarries | relay-rust/src/relay/tcp_header.rs:363-365 | the fold loop ends and gives 16 bits congruent modulo 65535, zero only for zero |
| Checksums.StoredChecksumVerifies | relay-rust/src/relay/icmp_handler.rs:123-137 | storing the checksum in the zeroed field makes the sum over everything all ones |
| Checksums.WithChecksumVerifies | relay-rust/src/relay/tcp_header.rs:303-437 | the same with a prefix and a range of the packet |
| Checksums.WordSumIsSplit | relay-rust/src/relay/tcp_header.rs:335-361 | the word sum is 256 times the sum of high bytes plus that of low bytes |
| Icmp.ChecksumLoop | relay-rust/src/relay/icmp_handler.rs:123-137 | the loop computes the plain checksum, without overflow |
| Icmp.BuildEchoReply | relay-rust/src/relay/icmp_handler.rs:21-63 | which requests are answered, and the bytes of the answer |
| Icmp.EchoRequestIff | relay-rust/src/relay/icmp_handler.rs:21-42 | answered are exactly the IPv4 packets, by their parsed header, that carry ICMP with type 8, a header of at least 20 bytes and within their own length an ICMP header |
| Icmp.EchoIsAnsweredIff | relay-rust/src/relay/ip_packet.rs:154-163 | of the packets the router takes for echo requests exactly those that hold both headers are answered, and no other |
| Icmp.EchoReplyParses | relay-rust/src/relay/icmp_handler.rs:40-60 | the reply parses to the header of the request with the addresses exchanged, and its type is 0 |
| Icmp.EchoReplyDiffersOnlyThere | relay-rust/src/relay/icmp_handler.rs:40-60 | outside the two checksums, only the addresses are exchanged and the type changed |
| Icmp.EchoReplyVerifies | relay-rust/src/relay/icmp_handler.rs:50-60 | both checksums of every echo reply verify |
| Icmp.EchoReplyIsWellFormed | relay-rust/src/relay/router.rs:72-93 | an echo reply is cut out whole by both framers |
| Icmp.BuildPortUnreachable | relay-rust/src/relay/icmp_handler.rs:74-120 | which packets are answered, and the bytes of the answer |
| Icmp.AnswerableIff | relay-rust/src/relay/icmp_handler.rs:74-87 | of the packets that parse, answered are exactly the IPv4 packets whose header lies within them |
| Icmp.PortUnreachableParses | relay-rust/src/relay/icmp_handler.rs:88-119 | the packet parses to an IPv4 header without options of its own length, ICMP, from the original destination to the original source; hop limit 64, unused fields zero |
| Icmp.PortUnreachableVerifies | relay-rust/src/relay/icmp_handler.rs:95-119 | both checksums verify, the addresses are exchanged, type and code are 3, the quote is the header and at most 8 bytes |
| Icmp.PortUnreachableIsWellFormed | relay-rust/src/relay/router.rs:95-104 | the packet is cut out whole by both framers |
| Routers.NoConnectionFromQuarantine | relay-rust/src/relay/router.rs:106-172 | over whole runs no id is live and recently closed at once, and no connection is created for an id less than 2 s after its removal |
| Routers.QuarantineHolds | relay-rust/src/relay/router.rs:106-172 | over whole runs without clear, an id removed less than 2 s ago is not live and no connection is created for it, whatever packets arrive |
| Routers.LiveIff | relay-rust/src/relay/router.rs:106-280 | after every step of every run exactly which ids are live: a live one stays unless it closed, was removed, expired, ended in its poll or all were cleared; another becomes live exactly by a packet that can open it, two seconds after its removal |
| Routers.PacketDoesExactly | relay-rust/src/relay/router.rs:106-172 | what a packet does: a live connection handles it and, if closed, is gone and quarantined with the time after handling; without one exactly one is created, if it can be and the id was not removed less than 2 s ago; no other id is touched |
| Routers.PacketIsServedIff | relay-rust/src/relay/router.rs:106-172 | over whole runs a packet that can open a connection leaves its id live if and only if it was live and neither closed nor closed by it, or not live and not removed less than 2 s ago |
| Routers.ServedAgainIff | relay-rust/src/relay/router.rs:113-128 | an id is served again exactly 2000 ms after its removal |
| Routers.LeavingIsQuarantined | relay-rust/src/relay/router.rs:219-280 | every connection that leaves the table but by clear is quarantined, stamped between the start and the end of the step |
| Routers.PollLeavesNoClosedConnectionIff | relay-rust/src/relay/router.rs:250-280 | after polling no live connection is closed if and only if no poll answered WouldBlock for a connection it left closed |
| Routers.RemovalsAreRecorded | relay-rust/src/relay/router.rs:252-280 | a poll removes exactly the connections it ends, each stamped between its start and its end; every other one stays as polled |
| TcpRouting.NoClosedConnectionIsLeft | relay-rust/src/relay/router.rs:250-280 | after the router has polled its TCP connections, exactly those closed by their polls are gone and quarantined, and none that is left is closed |
| Routers.RunKeeps | relay-rust/src/relay/router.rs:106-280 | what any run of packets, removals, expiries, polls and clears keeps |
| Routers.Router.SendToNetwork | relay-rust/src/relay/router.rs:69-190 | the two maps after a packet |
| Routers.Router.Retire | relay-rust/src/relay/router.rs:275-279 | the removal loop moves exactly these ids, each stamped with its own reading of the clock |
| Routers.Router.Remove | relay-rust/src/relay/router.rs:219-224 | the two maps after a removal |
| Routers.Router.CleanExpiredConnections | relay-rust/src/relay/router.rs:234-248 | the two maps after an expiry, the clock read for each id |
| Routers.Router.PollEach | relay-rust/src/relay/router.rs:252-274 | each connection is polled once and exactly the ended ones are collected |
| Routers.Router.PollConnections | relay-rust/src/relay/router.rs:252-280 | the two maps after polling all, the clock read for each removal |
| Routers.Router.Clear | relay-rust/src/relay/router.rs:226-232 | both maps are emptied |
| Tunnels.TunnelsAreClosedAndSpaced | app/src/main/java/com/genymobile/gnirehtet/RelayTunnelProvider.java:43-123 | under every interleaving each tunnel ever opened is closed or current, and every open but the first came at least 5000 ms after the failure recorded last; that every failure is recorded is `OpensAreSpacedFromFailures` |
| Tunnels.OpensAreSpacedFromFailures | app/src/main/java/com/genymobile/gnirehtet/RelayTunnelProvider.java:75-122 | under every interleaving: after an invalidation that finds its tunnel, whether closing throws or not, or a failed connection that is reported, every open comes at least 5000 ms later |
| Tunnels.LastFailureIsRecorded | app/src/main/java/com/genymobile/gnirehtet/RelayTunnelProvider.java:109-111 | in every run the time recorded is that of the last such failure |
| Tunnels.SleeperOpensIff | app/src/main/java/com/genymobile/gnirehtet/RelayTunnelProvider.java:113-123 | in every run a sleeper that wakes while the monitor is free opens a tunnel if and only if 5000 ms have passed since the last failure, and otherwise sleeps again |
| Tunnels.CallerOpensIff | app/src/main/java/com/genymobile/gnirehtet/RelayTunnelProvider.java:55-67 | in every run a caller that finds both locks free is given the current tunnel; without one it opens one if and only if none was ever opened or 5000 ms have passed since the last failure |
| Tunnels.CallCanEnd | app/src/main/java/com/genymobile/gnirehtet/RelayTunnelProvider.java:55-86 | no interleaving locks itself up: whoever is in the call can leave it by its own steps |
| Tunnels.OneThreadOpensAtATime | app/src/main/java/com/genymobile/gnirehtet/RelayTunnelProvider.java:55-71 | at most one thread is between the choice of a tunnel and the end of its connection |
| Tunnels.EveryoneGetsTheSameTunnel | app/src/main/java/com/genymobile/gnirehtet/RelayTunnelProvider.java:43-54 | until the current tunnel is closed no other is opened and every thread is given that one |
| Tunnels.ReturnsItsTunnelIff | app/src/main/java/com/genymobile/gnirehtet/RelayTunnelProvider.java:67-73 | a thread that connected a tunnel is given it if and only if nobody invalidated it since |
| Tunnels.CurrentIsConnectedIff | app/src/main/java/com/genymobile/gnirehtet/RelayTunnelProvider.java:43-86 | the current tunnel is connected if and only if its connection did not fail and no thread is still at it |
| Tunnels.FoundTunnelIsConnectedIff | app/src/main/java/com/genymobile/gnirehtet/RelayTunnelProvider.java:57-59 | a caller that finds a tunnel is handed a connected one if and only if the connection of that tunnel did not fail |
| Tunnels.FailedTunnelIsHandedOut | app/src/main/java/com/genymobile/gnirehtet/RelayTunnelProvider.java:75-86 | an interleaving in which a caller is handed a tunnel whose connection failed |
| Tunnels.StaleInvalidationIsHarmless | app/src/main/java/com/genymobile/gnirehtet/RelayTunnelProvider.java:97-107 | invalidating a tunnel that was closed before changes nothing |
| Tunnels.OpenerCrashesIff | app/src/main/java/com/genymobile/gnirehtet/RelayTunnelProvider.java:64-77 | under every interleaving the opener of a tunnel dereferences null if and only if that tunnel was closed before it connects; otherwise it connects the tunnel it opened |
| Tunnels.InvalidationDuringOpenCrashes | app/src/main/java/com/genymobile/gnirehtet/RelayTunnelProvider.java:64-77 | an interleaving in which the opener dereferences null |
| Tunnels.LateInvalidationReturnsNull | app/src/main/java/com/genymobile/gnirehtet/RelayTunnelProvider.java:67-73 | an interleaving in which the call returns null |
| Tunnels.RunKeeps | app/src/main/java/com/genymobile/gnirehtet/RelayTunnelProvider.java:43-123 | locks, tunnels, delays and outcomes stay consistent over any run of steps |

## Left out

- TcpRuns.PayloadInWindowIsAccepted: only windows advertised less than 2^31 acknowledged bytes ago, because 32-bit numbers further apart cannot be compared.
- DatagramBuffers.DatagramBuffer.WriteTo: the assertion that the buffer is not empty is a precondition.
- PacketizerObject.Packetizer.Build: totals beyond 65535 bytes, where the 16-bit sum of the source overflows, are excluded.
- DeviceStream.IPPacketOutputStream.Write: a target that throws takes nothing of the packet it throws on, and no write follows an exception, after which the source's forwarder gives the stream up.
- EndToEnd.NetworkBytesReachTheDevice: runs with a spoilt flush, whose bytes no framer can cut; what the ring loses then is SharedBufferFollowsIff.
- Icmp.BuildPortUnreachable: header lengths beyond 60, which a 4-bit field cannot express, are excluded.
- DeviceFeed.Client.FeedDeviceData: returns where the source's loop does not end or its thread panics. The router's own indexing into a packet that is not empty but shorter than its headers is not part of it: such a packet counts as routed.
- Framing.LoopIsEndlessIff: an IPv4 packet of length 0 whose IP and TCP header lengths are 0 as well counts as a panic; it is one only once a connection for it is established.
- TcpDevice.StreamIsGaplessIff: the device sends nothing behind its SYN before the connection is answered, and no segment 2^32 bytes or more away from what was accepted.
- Upstream.NetworkGetsWhatTheDeviceSaid: one connection, open from the start of the run; packets of others pass by.
- `ParsePacket` answers None where a parser indexes out of range and for protocols other than TCP and UDP; which of the two it is, is `Readable` of `Framing`.
- Sockets and their options, SOCKS5, accepting clients and the client id: input and output only, answers are parameters.
- The UDP connection object; UDP checksums are stored as zero, so there is nothing to compute.
- Header setters that nothing uses (single ports and addresses), identifiers, labels, byte counters and logging.
- Ownership through Rc, RefCell and Weak: a borrow that succeeds or fails is the parameter `busy`; during a poll it is the same throughout, since nothing else runs. The source never borrows the buffer across a poll, so there it is always false; the theorems hold for either, and the runs that show failures use false. Removal from the router during a poll is always skipped by the source, the client being borrowed.
- The order in which a hash map is traversed: polls of different connections are independent in the table.
- `clear` forgets the quarantine, so removals before it no longer count.
- The single-byte `write` of the device's stream, which the relay thread does not use.
- What a tunnel does with packets, the listener, and the sending and receiving loops of PersistentRelayTunnel: they are threads that call and invalidate at any time.
- Liveness of TCP close, retransmission and timers: the endpoint has none of the latter two.
- Command line, adb, logging, DNS cache, network statistics, Android services and activities: no part of the packet engine.
