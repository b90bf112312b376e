/** Whole runs of the TCP endpoint: any packets from the device, any answers of the
    sockets, any use of the shared buffer by others in between. */
module TcpRuns {
  import opened Bytes
  import opened StreamBuffers
  import opened Headers
  import opened Packetizers
  import opened PacketizerLaws
  import opened TcpSpec
  import opened TcpInvariant
  import opened TcpSteps
  import opened TcpHandlers
  import opened TcpNetwork

  datatype Event =
    | FromDevice(segment: Segment, random: u32, busy: bool)
    | PollSockets(env: PollEnv)
    | Elsewhere(outbox: Queue)

  function Step(c: Conn, e: Event): (d: Conn)
    requires c.Ok()
    ensures c.Kin(d)
  {
    match e
    case FromDevice(s, random, busy) => c.HandlePacket(s, random, busy)
    case PollSockets(env) => c.Poll(env).0
    case Elsewhere(q) => if q.Ok() && q.capacity == c.outbox.capacity then c.(outbox := q) else c
  }

  function Run(c: Conn, events: seq<Event>): (d: Conn)
    requires c.Ok()
    ensures c.Kin(d)
    decreases |events|
  {
    if events == [] then c else Run(Step(c, events[0]), events[1..])
  }

  /** The packet that opens a connection, as `TcpConnection::create` needs it. */
  ghost predicate Opening(ipRaw: seq<byte>, tcpRaw: seq<byte>, outbox: Queue) {
    && |tcpRaw| >= 20 && ValidReference(ipRaw, ShrinkOptions(tcpRaw))
    && ParseIp(ipRaw).value.TransportProtocol() == Tcp
    && outbox.Ok() && outbox.capacity >= 0xFFFF
  }

  function Create(ipRaw: seq<byte>, tcpRaw: seq<byte>, outbox: Queue): (c: Conn)
    requires Opening(ipRaw, tcpRaw, outbox)
    ensures c.Ok()
  {
    ShrinkOptionsParses(tcpRaw);
    Conn(NEW_TCB, Queue([], 0, 32 * MAX_PACKET_LENGTH), NewPk(ipRaw, ShrinkOptions(tcpRaw)),
         None, false, outbox, NO_HISTORY)
  }

  ghost predicate Reached(c: Conn) {
    exists ipRaw, tcpRaw, outbox, events ::
      Opening(ipRaw, tcpRaw, outbox) && c == Run(Create(ipRaw, tcpRaw, outbox), events)
  }

  lemma CreateInv(ipRaw: seq<byte>, tcpRaw: seq<byte>, outbox: Queue)
    requires Opening(ipRaw, tcpRaw, outbox)
    ensures Inv(Create(ipRaw, tcpRaw, outbox))
  {
    hide NewPk;
    hide Pk.Synced;
    hide ShrinkOptions;
    NewIsSynced(ipRaw, ShrinkOptions(tcpRaw));
  }

  lemma ElsewhereKeeps(c: Conn, q: Queue)
    requires Inv(c) && q.Ok() && q.capacity == c.outbox.capacity
    ensures Inv(c.(outbox := q))
  {
    hide Inv;
    InvOk(c);
    QuietChange(c, c.(outbox := q));
  }

  lemma StepKeeps(c: Conn, e: Event)
    requires Inv(c)
    ensures Inv(Step(c, e))
  {
    hide Inv;
    hide Conn.HandlePacket;
    hide Conn.Poll;
    hide Conn.Ok;
    InvOk(c);
    match e {
      case FromDevice(s, random, busy) => HandlePacketKeeps(c, s, random, busy);
      case PollSockets(env) => PollKeeps(c, env);
      case Elsewhere(q) =>
        if q.Ok() && q.capacity == c.outbox.capacity {
          ElsewhereKeeps(c, q);
        }
    }
  }

  lemma {:induction false} RunKeeps(c: Conn, events: seq<Event>)
    requires Inv(c)
    ensures Inv(Run(c, events))
    decreases |events|
  {
    hide Inv;
    hide Conn.Ok;
    hide Step;
    InvOk(c);
    if events != [] {
      StepKeeps(c, events[0]);
      RunKeeps(Step(c, events[0]), events[1..]);
    }
  }

  lemma ReachedInv(c: Conn)
    requires Reached(c)
    ensures Inv(c)
  {
    hide Inv;
    var ipRaw, tcpRaw, outbox, events :|
      Opening(ipRaw, tcpRaw, outbox) && c == Run(Create(ipRaw, tcpRaw, outbox), events);
    CreateInv(ipRaw, tcpRaw, outbox);
    RunKeeps(Create(ipRaw, tcpRaw, outbox), events);
  }

  // ── device to network ──

  /** Whatever the partial writes, retransmissions and gaps: the bytes written to the
      socket and the bytes still buffered are the accepted payloads in order; each was
      accepted at the number it carried, which is its place behind the SYN it followed; and
      the acknowledgement number counts the payload bytes accepted since the last SYN, the
      device's FINs and the ends of the socket. */
  lemma NothingAcceptedIsLost(c: Conn)
    requires Reached(c)
    ensures AcceptedBytes(c.log.accepted) == c.log.written + c.inbox.contents
    ensures forall i :: 0 <= i < |c.log.accepted| ==> AcceptedInPlace(c, i)
    ensures c.log.synAt <= |c.log.accepted|
    ensures c.tcb.state != Init ==>
              c.tcb.acknowledgementNumber ==
              Wrap32(c.tcb.synSequenceNumber + 1 + |AcceptedBytes(c.log.accepted[c.log.synAt..])|
                     + |c.log.fins| + c.log.socketEnds)
  {
    hide Reached;
    hide Edges;
    hide Lifecycle;
    hide Numbers;
    hide Downstream;
    hide Packets;
    hide Deferral;
    hide AcceptedBytes;
    hide AcceptedInPlace;
    ReachedInv(c);
  }

  /** Backpressure: no window edge advertised since SynReceived reaches beyond the free
      space, however long ago it was advertised. */
  lemma AdvertisedEdgesAreHonoured(c: Conn, i: nat)
    requires Reached(c) && i < |c.log.forged| && Rank(c.log.forged[i].state) >= 2
    ensures c.log.forged[i].relative + c.log.forged[i].window - Relative(c) <= c.inbox.Remaining()
    ensures c.log.forged[i].acknowledgementNumber == Wrap32(c.tcb.synSequenceNumber + 1 + c.log.forged[i].relative)
    ensures Relative(c) >= c.log.forged[i].relative
  {
    hide Reached;
    hide Upstream;
    hide Lifecycle;
    hide Numbers;
    hide Downstream;
    hide Packets;
    hide Deferral;
    ReachedInv(c);
    assert EdgeHonoured(c, c.log.forged[i]);
  }

  /** Hence an in-order payload that ends inside any window advertised since SynReceived,
      however old, is accepted and not dropped once connected. */
  lemma PayloadInsideAnyEdgeIsAccepted(c: Conn, i: nat, s: Segment, random: u32, busy: bool)
    requires Reached(c) && i < |c.log.forged| && Rank(c.log.forged[i].state) >= 2
    requires c.tcb.state.IsConnected() && !s.IsSyn() && !s.IsRst() && s.IsAck()
    requires s.sequenceNumber == c.tcb.acknowledgementNumber && s.payload != []
    requires Relative(c) + |s.payload| <= c.log.forged[i].relative + c.log.forged[i].window
    ensures |s.payload| <= c.inbox.Remaining() && c.Ok()
    ensures
      var d := c.HandlePacket(s, random, busy);
      && d.inbox.contents == c.inbox.contents + s.payload
      && AcceptedBytes(d.log.accepted) == AcceptedBytes(c.log.accepted) + s.payload
  {
    hide Reached;
    hide Inv;
    hide Conn.HandlePacket;
    hide AcceptedBytes;
    ReachedInv(c);
    InvOk(c);
    AdvertisedEdgesAreHonoured(c, i);
    PayloadIsAcceptedIff(c, s, random, busy);
    AcceptedGrows(c.log.accepted, c.Accepted(s));
  }

  /** The same with the edge compared modulo 2^32, as the device does. That comparison means
      something only for a window advertised less than 2^31 acknowledged bytes ago. */
  lemma PayloadInWindowIsAccepted(c: Conn, i: nat, s: Segment, random: u32, busy: bool)
    requires Reached(c) && i < |c.log.forged| && Rank(c.log.forged[i].state) >= 2
    requires Relative(c) - c.log.forged[i].relative < 0x8000_0000
    requires c.tcb.state.IsConnected() && !s.IsSyn() && !s.IsRst() && s.IsAck()
    requires s.sequenceNumber == c.tcb.acknowledgementNumber && s.payload != []
    requires |s.payload| <= Wrap32(c.log.forged[i].acknowledgementNumber + c.log.forged[i].window - s.sequenceNumber)
                         < 0x8000_0000
    ensures |s.payload| <= c.inbox.Remaining() && c.Ok()
    ensures
      var d := c.HandlePacket(s, random, busy);
      && d.inbox.contents == c.inbox.contents + s.payload
      && AcceptedBytes(d.log.accepted) == AcceptedBytes(c.log.accepted) + s.payload
  {
    hide Reached;
    hide Conn.HandlePacket;
    hide AcceptedBytes;
    hide Inv;
    ReachedInv(c);
    AdvertisedEdgesAreHonoured(c, i);
    InvNumber(c);
    var f := c.log.forged[i];
    EdgeDistance(c.tcb.synSequenceNumber, Relative(c), f.relative, f.window);
    PayloadInsideAnyEdgeIsAccepted(c, i, s, random, busy);
  }

  lemma InvNumber(c: Conn)
    requires Inv(c)
    ensures c.tcb.state != Init ==> c.tcb.acknowledgementNumber == Wrap32(c.tcb.synSequenceNumber + 1 + Relative(c))
  {
    hide Edges;
    hide Lifecycle;
    hide Numbers;
    hide Downstream;
    hide Packets;
    hide Deferral;
    hide Acceptances;
  }

  /** When a segment's payload is taken. */
  predicate Accepts(c: Conn, s: Segment) {
    && c.tcb.state != Init && c.tcb.state != SynReceived
    && !s.IsSyn() && !s.IsRst() && s.IsAck() && s.sequenceNumber == c.tcb.acknowledgementNumber
    && 0 < |s.payload| <= c.inbox.Remaining()
  }

  /** Over every branch of packet handling: a payload is taken if and only if it comes with
      an ACK at the expected number, fits, and the handshake is not waiting for that ACK;
      then all of it is, and otherwise none. */
  lemma PayloadIsAcceptedIff(c: Conn, s: Segment, random: u32, busy: bool)
    requires c.Ok()
    ensures
      var d := c.HandlePacket(s, random, busy);
      && d.inbox.contents == c.inbox.contents + (if Accepts(c, s) then s.payload else [])
      && d.log.accepted == c.log.accepted + (if Accepts(c, s) then [c.Accepted(s)] else [])
  {
    hide Conn.SendEmpty;
    hide Conn.HandleExpected;
    hide Conn.Ok;
    if c.tcb.state.Init? {
      var b := c.(tcb := c.tcb.(sequenceNumber := s.acknowledgementNumber));
      TcbOk(c, b.tcb);
      SendEmptyLog(b, RST, busy);
    } else if s.IsSyn() {
      SendEmptyLog(c, RST, busy);
    } else if s.sequenceNumber == c.tcb.acknowledgementNumber {
      ExpectedIsAcceptedIff(c, s, busy);
    } else {
      SendEmptyLog(c, ACK, busy);
    }
    assert c.inbox.contents + [] == c.inbox.contents && c.log.accepted + [] == c.log.accepted;
  }

  lemma ExpectedIsAcceptedIff(c: Conn, s: Segment, busy: bool)
    requires c.Ok() && c.tcb.state != Init && !s.IsSyn() && s.sequenceNumber == c.tcb.acknowledgementNumber
    ensures
      var d := c.HandleExpected(s, busy);
      && d.inbox.contents == c.inbox.contents + (if Accepts(c, s) then s.payload else [])
      && d.log.accepted == c.log.accepted + (if Accepts(c, s) then [c.Accepted(s)] else [])
  {
    hide Conn.SendEmpty;
    hide Conn.HandleAck;
    hide Conn.HandleFin;
    hide Conn.Ok;
    var b := c.Meet(s);
    AckIsAcceptedIff(b, s, busy);
    HandleFinLog(if s.IsAck() then b.HandleAck(s, busy) else b, busy);
    assert c.inbox.contents + [] == c.inbox.contents && c.log.accepted + [] == c.log.accepted;
  }

  lemma AckIsAcceptedIff(c: Conn, s: Segment, busy: bool)
    requires c.Ok()
    ensures
      var d := c.HandleAck(s, busy);
      var takes := c.tcb.state != SynReceived && 0 < |s.payload| <= c.inbox.Remaining();
      && d.inbox.contents == c.inbox.contents + (if takes then s.payload else [])
      && d.log.accepted == c.log.accepted + (if takes then [c.Accepted(s)] else [])
  {
    hide Conn.SendEmpty;
    hide Conn.AcceptPayload;
    hide Conn.Ok;
    SendEmptyLog(c, ACK, busy);
    if |s.payload| <= c.inbox.Remaining() {
      AcceptedIsLogged(c, s);
      SendEmptyLog(c.AcceptPayload(s), ACK, busy);
    }
    assert c.inbox.contents + [] == c.inbox.contents && c.log.accepted + [] == c.log.accepted;
  }

  lemma AcceptedIsLogged(c: Conn, s: Segment)
    requires c.Ok() && |s.payload| <= c.inbox.Remaining()
    ensures var d := c.AcceptPayload(s);
      && d.inbox.contents == c.inbox.contents + s.payload
      && d.log.accepted == c.log.accepted + [c.Accepted(s)]
  {
  }

  lemma HandleFinLog(c: Conn, busy: bool)
    requires c.Ok()
    ensures c.HandleFin(busy).log.accepted == c.log.accepted
    ensures c.HandleFin(busy).inbox == c.inbox
  {
    hide Conn.SendEmpty;
    hide Conn.Ok;
    var b := c.(tcb := c.tcb.(finReceived := true));
    TcbOk(c, b.tcb);
    SendEmptyLog(b.CountFin(false), ACK, busy);
    SendEmptyLog(b.CountFin(false), FIN + ACK, busy);
  }

  lemma SendEmptyLog(c: Conn, flags: u16, busy: bool)
    requires c.Ok()
    ensures c.SendEmpty(flags, busy).log.accepted == c.log.accepted
    ensures c.SendEmpty(flags, busy).inbox == c.inbox
  {
    hide Pk.UpdateHeaders;
    hide Pk.Build;
  }

  lemma EdgeDistance(syn: u32, now: nat, then_: nat, window: u16)
    requires 0 <= now - then_ < 0x8000_0000
    ensures var d := Wrap32(Wrap32(syn + 1 + then_) + window - Wrap32(syn + 1 + now));
      d < 0x8000_0000 ==> d == then_ + window - now
  {
    var x := then_ + window - now;
    assert Wrap32(Wrap32(syn + 1 + then_) + window - Wrap32(syn + 1 + now)) == Wrap32(x);
  }

  // ── network to device ──

  /** In every run the bytes read from the socket are the payloads of the packets handed to
      the shared buffer, in order, followed by the payload of the deferred packet if there is
      one. What the buffer then holds is `SharedBufferFollowsIff` of TcpOutbox. */
  lemma NothingReadIsLost(c: Conn)
    requires Reached(c)
    ensures c.log.received == AppendedPayloads(c.log.appended, c.pk.pi) + (if c.deferred.Some? then Pending(c) else [])
    ensures |c.log.flushes| + (if c.deferred.Some? then 1 else 0) == Deferrals(c.log.built)
  {
    hide Reached;
    hide Inv;
    ReachedInv(c);
    InvReceived(c);
  }

  lemma InvReceived(c: Conn)
    requires Inv(c)
    ensures c.log.received == AppendedPayloads(c.log.appended, c.pk.pi) + (if c.deferred.Some? then Pending(c) else [])
    ensures |c.log.flushes| + (if c.deferred.Some? then 1 else 0) == Deferrals(c.log.built)
  {
    hide Upstream;
    hide Edges;
    hide Lifecycle;
    hide Packets;
    hide Deferral;
  }

  /** Every data packet ever built parses back to what the control block said, with its
      checksums right, and stays inside the window the device had advertised. */
  lemma DataPacketsAreFaithful(c: Conn, k: nat)
    requires Reached(c) && k < |c.log.built|
    ensures Faithful(c.log.built[k], c.pk.pi) && InsideClientWindow(c.log.built[k])
  {
    hide Reached;
    hide Upstream;
    hide Edges;
    hide Lifecycle;
    hide Numbers;
    hide Packets;
    hide Deferral;
    ReachedInv(c);
  }

  /** Without deferral the data packets are contiguous: each starts at the initial
      number, plus one for the SYN, plus the payload bytes of all packets before it. */
  lemma DataIsContiguous(c: Conn, k: nat)
    requires Reached(c) && Deferrals(c.log.built) == 0 && k < |c.log.built|
    ensures c.log.built[k].tcb.sequenceNumber == Wrap32(c.log.initialNumber + 1 + DirectLength(c.log.built[..k]))
    ensures c.tcb.finSequenceNumber.Some? ==>
              c.tcb.sequenceNumber == Wrap32(c.tcb.finSequenceNumber.value + 1)
    ensures c.log.received == AppendedPayloads(c.log.appended, c.pk.pi)
  {
    hide Reached;
    hide Upstream;
    hide Edges;
    hide Lifecycle;
    hide Packets;
    hide Deferral;
    hide Numbers;
    ReachedInv(c);
    ContiguousNumbers(c, k);
    NothingReadIsLost(c);
  }

  lemma ContiguousNumbers(c: Conn, k: nat)
    requires Numbers(c) && Deferrals(c.log.built) == 0 && k < |c.log.built|
    ensures c.log.built[k].tcb.sequenceNumber == Wrap32(c.log.initialNumber + 1 + DirectLength(c.log.built[..k]))
    ensures c.tcb.finSequenceNumber.Some? ==>
              c.tcb.sequenceNumber == Wrap32(c.tcb.finSequenceNumber.value + 1)
    ensures c.deferred.None?
  {
    hide DirectLength;
    assert Positioned(c, k);
  }

  /** The exact sequence number of every run with nothing deferred at the moment: SYN,
      FIN and payload, plus one IP and TCP header for each packet that was deferred. */
  lemma SequenceNumberIsExact(c: Conn)
    requires Reached(c) && c.tcb.state != Init && c.deferred.None?
    ensures c.tcb.sequenceNumber ==
            Wrap32(c.log.initialNumber + Syns(c.log.forged) + |c.log.received| + Fins(c.log.forged)
                   + c.pk.pi * |c.log.flushes|)
  {
    hide Reached;
    hide Upstream;
    hide Edges;
    hide Lifecycle;
    hide Numbers;
    hide Downstream;
    hide Packets;
    hide Deferral;
    ReachedInv(c);
    NothingReadIsLost(c);
    SurplusOfFlushes(c, c.pk.pi * |c.log.flushes|);
  }

  lemma SurplusOfFlushes(c: Conn, surplus: nat)
    requires Numbers(c) && Packets(c) && c.tcb.state != Init && surplus == c.pk.pi * |c.log.flushes|
    requires c.log.received == AppendedPayloads(c.log.appended, c.pk.pi)
    ensures c.tcb.sequenceNumber ==
            Wrap32(c.log.initialNumber + Syns(c.log.forged) + |c.log.received| + Fins(c.log.forged) + surplus)
  {
    hide Whole;
    hide Positioned;
    hide DirectLength;
    hide FlushedLength;
    hide AppendedPayloads;
    hide Syns;
    hide Fins;
    hide Deferrals;
    hide AllIntact;
  }

  /** SYN and FIN packets forged but never handed to the shared buffer, which was borrowed or
      had no room. */
  function LostControls(c: Conn): int {
    Syns(c.log.forged) - SynsHanded(c.log.appended, c.pk.pi) + Fins(c.log.forged) - FinsHanded(c.log.appended, c.pk.pi)
  }

  /** At most the SYN-ACK and the FIN are lost. */
  lemma LostControlsOfRuns(c: Conn)
    requires Reached(c)
    ensures 0 <= SynsHanded(c.log.appended, c.pk.pi) <= Syns(c.log.forged) <= 1
    ensures 0 <= FinsHanded(c.log.appended, c.pk.pi) <= Fins(c.log.forged) <= 1
  {
    hide Reached;
    hide Upstream;
    hide Edges;
    hide Numbers;
    hide Downstream;
    hide Deferral;
    ReachedInv(c);
  }

  /** The number the device expects counts what was handed over: the SYN-ACK, the payloads,
      the FIN. The endpoint's number is that one if and only if the headers counted for
      flushed packets and the controls that were lost cancel out modulo 2^32; in any run short
      of 2^32 of them, if and only if no packet was flushed and no SYN-ACK or FIN was lost. */
  lemma SequenceNumberIsRightIff(c: Conn)
    requires Reached(c) && c.tcb.state != Init && c.deferred.None?
    ensures
      var right := c.tcb.sequenceNumber ==
        Wrap32(c.log.initialNumber + SynsHanded(c.log.appended, c.pk.pi) + |AppendedPayloads(c.log.appended, c.pk.pi)|
               + FinsHanded(c.log.appended, c.pk.pi));
      && (right <==> (c.pk.pi * |c.log.flushes| + LostControls(c)) % TWO32 == 0)
      && (c.pk.pi * |c.log.flushes| + 2 < TWO32 ==> (right <==> c.log.flushes == [] && LostControls(c) == 0))
  {
    hide Reached;
    hide Syns;
    hide Fins;
    hide SynsHanded;
    hide FinsHanded;
    hide AppendedPayloads;
    hide Wrap32;
    SequenceNumberIsExact(c);
    NothingReadIsLost(c);
    LostControlsOfRuns(c);
    SurplusShows(c.log.initialNumber + SynsHanded(c.log.appended, c.pk.pi) + |c.log.received|
                 + FinsHanded(c.log.appended, c.pk.pi), c.pk.pi * |c.log.flushes| + LostControls(c));
    HeadersCount(c);
  }

  lemma HeadersCount(c: Conn)
    requires Reached(c)
    ensures c.pk.pi * |c.log.flushes| >= |c.log.flushes|
  {
    hide Inv;
    ReachedInv(c);
    InvOk(c);
    ProductGrows(c.pk.pi, |c.log.flushes|);
  }

  lemma ProductGrows(a: nat, n: nat)
    requires a >= 1
    ensures a * n >= n
  {
  }

  lemma SurplusShows(x: int, y: int)
    ensures Wrap32(x + y) == Wrap32(x) <==> y % TWO32 == 0
  {
  }

  // ── deferral ──

  /** A poll of an open connection leaves everything as it is and reports WouldBlock because
      of the deferred packet if and only if that packet does not fit; it reads and sends
      nothing then. */
  lemma DeferredPacketBlocksThePollIff(c: Conn, env: PollEnv)
    requires c.Ok() && !c.closed && c.deferred.Some?
    ensures c.deferred.value <= |c.pk.buf|
    ensures c.Poll(env) == (c, false) <==> !c.Fits(c.pk.Inflate(c.deferred.value), env.busy)
  {
    hide Conn.ProcessSend;
    hide Conn.ReceiveFrom;
    hide Conn.TryConnect;
    hide Queue.Append;
  }

  /** A flush appends the deferred packet byte for byte, provided no header was forged
      since it was built. */
  lemma IntactFlushIsExact(c: Conn, busy: bool)
    requires Reached(c) && c.deferred.Some? && c.log.intact
    ensures c.Ok() && c.deferred.value <= |c.pk.buf| && c.log.built != []
    ensures
      var last := c.log.built[|c.log.built| - 1];
      && !last.direct && c.Fits(c.pk.Inflate(c.deferred.value), busy) == (!busy && |last.raw| <= c.outbox.Remaining())
      && (c.FlushPending(busy).1 ==> c.FlushPending(busy).0.outbox.contents == c.outbox.contents + last.raw)
  {
    hide Reached;
    hide Upstream;
    hide Edges;
    hide Lifecycle;
    hide Numbers;
    hide Packets;
    hide Pk.Synced;
    hide Faithful;
    hide InsideClientWindow;
    ReachedInv(c);
  }

  /** In any reached state the bytes a flush would append are one whole packet if and
      only if no header was forged since the packet was deferred. */
  lemma FlushIsWholeIffIntact(c: Conn)
    requires Reached(c) && c.deferred.Some?
    ensures c.Ok() && c.deferred.value <= |c.pk.buf|
    ensures Whole(c.pk.buf[..c.deferred.value]) <==> c.log.intact
  {
    hide Reached;
    hide Upstream;
    hide Edges;
    hide Lifecycle;
    hide Numbers;
    hide Packets;
    hide Pk.Synced;
    hide Whole;
    hide ParsePacket;
    hide InsideClientWindow;
    ReachedInv(c);
    FlushedBytes(c);
    if !c.log.intact {
      DeferredHasPayload(c);
      SpoiledIsNotWhole(c.pk, c.deferred.value);
    }
  }

  lemma SpoiledIsNotWhole(p: Pk, length: nat)
    requires p.Synced() && p.ip.TotalLength() == p.pi < length <= |p.buf|
    ensures !Whole(p.buf[..length])
  {
    hide Checksummed;
    ParseIpPrefix(p.buf, length);
    ParseTransportPrefix(p.ip.TransportProtocol(), p.buf, p.ti, length);
  }

  /** It does fail: any retransmitted segment from the device while a packet is deferred
      makes the later flush put bytes in the shared buffer that no framer can cut. */
  lemma RetransmissionSpoilsDeferredPacket(c: Conn, s: Segment, random: u32, busy: bool)
    requires Reached(c) && c.deferred.Some? && !s.IsSyn()
    requires Wrap32(s.sequenceNumber - c.tcb.acknowledgementNumber) >= 0x8000_0000
    ensures c.Ok()
    ensures var d := c.HandlePacket(s, random, busy);
      && d.deferred == c.deferred && !d.log.intact
      && d.deferred.value <= |d.pk.buf| && !Whole(d.pk.buf[..d.deferred.value])
  {
    hide Reached;
    hide Inv;
    hide Conn.SendEmpty;
    ReachedInv(c);
    InvOk(c);
    DeferredIsConnected(c);
    SendEmptyKeeps(c, ACK, busy);
    var d := c.HandlePacket(s, random, busy);
    assert d == c.SendEmpty(ACK, busy);
    SendEmptySpoils(c, ACK, busy);
    DeferredHasPayload(c);
    SpoiledIsNotWhole(d.pk, d.deferred.value);
  }

  lemma DeferredHasPayload(c: Conn)
    requires Inv(c) && c.deferred.Some?
    ensures c.pk.pi < c.deferred.value
  {
    hide Upstream;
    hide Edges;
    hide Lifecycle;
    hide Numbers;
    hide Packets;
    hide Pk.Synced;
    hide Faithful;
    assert InsideClientWindow(c.log.built[|c.log.built| - 1]);
  }

  lemma DeferredIsConnected(c: Conn)
    requires Inv(c) && c.deferred.Some?
    ensures c.tcb.state != Init
  {
    hide Upstream;
    hide Edges;
    hide Lifecycle;
    hide Downstream;
    hide Packets;
    hide Pk.Synced;
  }

  lemma SendEmptySpoils(c: Conn, flags: u16, busy: bool)
    requires Inv(c) && flags < 0x200
    ensures var d := c.SendEmpty(flags, busy);
      d.deferred == c.deferred && !d.log.intact && d.pk.Synced() && d.pk.ip.TotalLength() == d.pk.pi
      && d.pk.pi == c.pk.pi
  {
    hide Upstream;
    hide Edges;
    hide Lifecycle;
    hide Numbers;
    hide Downstream;
    hide Packets;
    hide Pk.Synced;
    hide Pk.UpdateHeaders;
    hide Pk.Build;
    hide Whole;
    DeferralSynced(c);
    SendEmptyEffect(c, flags, busy);
  }

  /** When every flush was intact, everything this connection put in the shared buffer
      is whole packets. */
  lemma AppendedPacketsAreWhole(c: Conn)
    requires Reached(c) && AllIntact(c.log.flushes)
    ensures forall i :: 0 <= i < |c.log.appended| ==> Whole(c.log.appended[i])
  {
    hide Reached;
    hide Upstream;
    hide Edges;
    hide Lifecycle;
    hide Numbers;
    hide Downstream;
    hide Deferral;
    hide Whole;
    ReachedInv(c);
  }

  // ── life cycle ──

  /** At most one SYN-ACK and one FIN are forged, the FIN number is kept exactly in the
      closing states, and the socket is read only when established, with no packet deferred
      and with room in the client's window. */
  lemma LifecycleOfRuns(c: Conn)
    requires Reached(c)
    ensures Syns(c.log.forged) <= 1 && Fins(c.log.forged) <= 1
    ensures c.tcb.finSequenceNumber.Some? <==> c.tcb.state.IsClosed()
    ensures Fins(c.log.forged) == 1 <==> c.tcb.state.IsClosed()
    ensures Syns(c.log.forged) == 1 <==> Rank(c.tcb.state) >= 2
    ensures forall i :: 0 <= i < |c.log.attempts| ==> ReadAllowed(c.log.attempts[i])
  {
    hide Reached;
    hide Upstream;
    hide Edges;
    hide Numbers;
    hide Downstream;
    hide Packets;
    hide Deferral;
    ReachedInv(c);
  }
}
