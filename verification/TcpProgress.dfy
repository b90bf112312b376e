/** The direction of the state machine and the FINs counted along it, whose number is
    acknowledged, what ends a connection, and the client's window over one read loop. */
module TcpProgress {
  import opened Bytes
  import opened Sockets
  import opened StreamBuffers
  import opened Packetizers
  import opened TcpSpec
  import opened TcpInvariant
  import opened TcpHandlers
  import opened TcpNetwork
  import opened TcpRuns

  // ── the state only moves forward ──

  /** The order of section 3.3.2 of RFC 9293 that this endpoint goes through; LastAck,
      Closing and FinWait2 are ends. */
  predicate Leads(a: TcpState, b: TcpState) {
    a == b || (Rank(a) < Rank(b) && a != LastAck)
  }

  /** The FINs counted in the acknowledgement number, and the states that go with them: the
      end of the socket once, exactly in the states behind it, and the device's FIN in the
      states that answer it and never before one was received. */
  predicate EndsCounted(c: Conn) {
    && c.log.socketEnds == (if c.tcb.state.FinWait1? || c.tcb.state.FinWait2? || c.tcb.state.Closing? then 1 else 0)
    && (c.tcb.state.LastAck? || c.tcb.state.Closing? ==> c.log.fins != [])
    && (c.log.fins != [] ==> c.tcb.finReceived)
  }

  predicate Onward(c: Conn, d: Conn) {
    Leads(c.tcb.state, d.tcb.state) && (EndsCounted(c) ==> EndsCounted(d))
  }

  /** The parts that `Onward` looks at did not change. */
  predicate Stays(c: Conn, d: Conn) {
    && d.tcb.state == c.tcb.state && d.tcb.finReceived == c.tcb.finReceived
    && d.log.fins == c.log.fins && d.log.socketEnds == c.log.socketEnds
  }

  lemma SendEmptyStays(c: Conn, flags: u16, busy: bool)
    requires c.Ok()
    ensures Stays(c, c.SendEmpty(flags, busy))
  {
    hide Pk.UpdateHeaders;
    hide Pk.Build;
  }

  lemma SendFinLeads(c: Conn, next: TcpState, busy: bool)
    requires c.Ok()
    ensures var d := c.SendFin(next, busy);
      d.tcb.state == next && Stays(c, d.(tcb := d.tcb.(state := c.tcb.state)))
  {
    hide Conn.SendEmpty;
    hide Conn.Ok;
    SendEmptyStays(c, FIN + ACK, busy);
  }

  lemma DoHandleFinLeads(c: Conn, busy: bool)
    requires c.Ok() && c.tcb.finReceived
    ensures Onward(c, c.DoHandleFin(busy))
  {
    hide Conn.SendEmpty;
    hide Conn.SendFin;
    hide Conn.Ok;
    var d := c.CountFin(false);
    SendFinLeads(d, LastAck, busy);
    SendEmptyStays(d, ACK, busy);
  }

  lemma HandleAckLeads(c: Conn, s: Segment, busy: bool)
    requires c.Ok()
    ensures Onward(c, c.HandleAck(s, busy))
  {
    hide Conn.SendEmpty;
    hide Conn.Ok;
    SendEmptyStays(c, ACK, busy);
    if |s.payload| <= c.inbox.Remaining() {
      SendEmptyStays(c.AcceptPayload(s), ACK, busy);
    }
  }

  lemma HandleFinLeads(c: Conn, busy: bool)
    requires c.Ok()
    ensures Onward(c, c.HandleFin(busy))
  {
    hide Conn.DoHandleFin;
    hide Conn.Ok;
    var d := c.(tcb := c.tcb.(finReceived := true));
    TcbOk(c, d.tcb);
    DoHandleFinLeads(d, busy);
  }

  lemma HandleFinAckLeads(c: Conn)
    requires c.Ok()
    ensures Onward(c, c.HandleFinAck())
  {
    hide Conn.Ok;
  }

  lemma OnwardOnward(c: Conn, d: Conn, e: Conn)
    requires Onward(c, d) && Onward(d, e)
    ensures Onward(c, e)
  {
    hide EndsCounted;
  }

  lemma HandleExpectedLeads(c: Conn, s: Segment, busy: bool)
    requires c.Ok()
    ensures Onward(c, c.HandleExpected(s, busy))
  {
    hide Conn.HandleAck;
    hide Conn.HandleFin;
    hide Conn.HandleFinAck;
    hide Conn.Ok;
    hide Onward;
    var b := c.Meet(s);
    StaysOnward(c, b);
    StaysOnward(c, b.Close());
    HandleAckLeads(b, s, busy);
    var d := if s.IsAck() then b.HandleAck(s, busy) else b;
    StaysOnward(b, b);
    OnwardOnward(c, b, d);
    HandleFinLeads(d, busy);
    StaysOnward(d, d);
    var e := if s.IsFin() then d.HandleFin(busy) else d;
    OnwardOnward(c, d, e);
    HandleFinAckLeads(e);
    OnwardOnward(c, e, e.HandleFinAck());
  }

  lemma StaysOnward(c: Conn, d: Conn)
    requires Stays(c, d)
    ensures Onward(c, d)
  {
  }

  lemma HandlePacketLeads(c: Conn, s: Segment, random: u32, busy: bool)
    requires c.Ok()
    ensures Onward(c, c.HandlePacket(s, random, busy))
  {
    hide Conn.HandleExpected;
    hide Conn.SendEmpty;
    hide Conn.Ok;
    HandleExpectedLeads(c, s, busy);
    var b := c.(tcb := c.tcb.(sequenceNumber := s.acknowledgementNumber));
    TcbOk(c, b.tcb);
    SendEmptyStays(b, RST, busy);
    SendEmptyStays(c, RST, busy);
    SendEmptyStays(c, ACK, busy);
  }

  lemma FlushPendingLeads(c: Conn, busy: bool)
    requires c.Ok()
    ensures Stays(c, c.FlushPending(busy).0) && c.FlushPending(busy).0.closed == c.closed
  {
  }

  lemma ProcessSendLeads(c: Conn, io: IoWrite, busy: bool)
    requires c.Ok()
    ensures Onward(c, c.ProcessSend(io, busy).0)
    ensures !c.ProcessSend(io, busy).1 ==> c.ProcessSend(io, busy).0 == c
  {
    hide Conn.DrainInbox;
    hide Conn.DoHandleFin;
    hide Conn.SendEmpty;
    hide Conn.Ok;
    hide Queue.WriteResult;
    OkInbox(c);
    var d := c.DrainInbox(io);
    DrainInboxStays(c, io);
    if d.tcb.finReceived {
      DoHandleFinLeads(d, busy);
    }
    SendEmptyStays(d, ACK, busy);
    SendEmptyStays(c, RST, busy);
  }

  lemma DrainInboxStays(c: Conn, io: IoWrite)
    requires c.Ok()
    ensures Stays(c, c.DrainInbox(io))
  {
    hide Queue.WriteTo;
    hide Queue.Sent;
  }

  lemma {:induction false} ReceiveFromLeads(c: Conn, answers: seq<IoRead>, i: nat, busy: bool)
    requires c.Ok() && c.tcb.state == Established && i <= MAX_PACKETS_PER_POLL
    ensures Onward(c, c.ReceiveFrom(answers, i, busy).0)
    ensures !c.ReceiveFrom(answers, i, busy).1 ==> c.ReceiveFrom(answers, i, busy).0.closed == c.closed
    decreases MAX_PACKETS_PER_POLL - i
  {
    hide Conn.Ok;
    hide Conn.PrepareRead;
    hide Conn.Deliver;
    hide Conn.Eof;
    hide Conn.SendEmpty;
    hide HeaderReady;
    hide Tcb.RemainingClientWindow;
    if i == MAX_PACKETS_PER_POLL || c.deferred.Some? || c.tcb.RemainingClientWindow() == 0 {
    } else {
      PrepareReadReady(c);
      PrepareReadStays(c);
      var p := c.PrepareRead();
      match if i < |answers| then answers[i] else ReadBlocks {
        case Arrived(data) =>
          if data == [] {
            EofLeads(p, busy);
          } else {
            var payload := data[..Min(Min(c.tcb.RemainingClientWindow(), MAX_PAYLOAD_LENGTH), |data|)];
            DeliverStays(p, payload, busy);
            var d := p.Deliver(payload, busy);
            if d.deferred.None? {
              ReceiveFromLeads(d, answers, i + 1, busy);
            }
          }
        case ReadBlocks =>
        case ReadFails => SendEmptyStays(p, RST, busy);
      }
    }
  }

  lemma PrepareReadStays(c: Conn)
    requires c.Ok()
    ensures Stays(c, c.PrepareRead())
  {
    hide Pk.UpdateHeaders;
  }

  lemma EofLeads(c: Conn, busy: bool)
    requires c.Ok() && c.tcb.state == Established
    ensures Onward(c, c.Eof(busy))
  {
    hide Conn.SendFin;
    hide Conn.Ok;
    SendFinLeads(c.CountFin(true), FinWait1, busy);
  }

  lemma DeliverStays(c: Conn, payload: seq<byte>, busy: bool)
    requires c.Ok() && c.deferred.None? && 0 < |payload| <= MAX_PAYLOAD_LENGTH
    ensures var d := c.Deliver(payload, busy); Stays(c, d) && d.closed == c.closed
  {
    hide Pk.Fill;
    hide Pk.Build;
  }

  lemma TryConnectLeads(c: Conn, io: IoWrite, busy: bool)
    requires c.Ok()
    ensures Onward(c, c.TryConnect(io, busy).0)
    ensures !c.TryConnect(io, busy).1 ==> c.TryConnect(io, busy).0 == c
  {
    hide Conn.SendEmpty;
    hide Conn.Ok;
    var b := c.(tcb := c.tcb.(state := SynReceived));
    TcbOk(c, b.tcb);
    SendEmptyStays(b, SYN + ACK, busy);
  }

  lemma PollLeads(c: Conn, env: PollEnv)
    requires c.Ok()
    ensures Onward(c, c.Poll(env).0)
    ensures c.Poll(env).0.closed ==> c.Poll(env).1
  {
    hide Conn.Ok;
    hide Conn.FlushPending;
    hide Conn.ProcessSend;
    hide Conn.ReceiveFrom;
    hide Conn.TryConnect;
    hide Tcb.RemainingClientWindow;
    if !c.closed && c.FlushPending(env.busy).1 {
      FlushPendingLeads(c, env.busy);
      var d := c.FlushPending(env.busy).0;
      ProcessSendLeads(d, env.write, env.busy);
      var e := if d.inbox.contents != [] then d.ProcessSend(env.write, env.busy).0 else d;
      var f := e;
      if !e.closed && e.MayRead() {
        ReceiveFromLeads(e, env.answers, 0, env.busy);
        f := e.ReceiveFrom(env.answers, 0, env.busy).0;
      }
      TryConnectLeads(f, env.connect, env.busy);
    }
  }

  /** A poll that ends with the connection closed reports progress, never WouldBlock:
      what the router relies on to remove it. */
  lemma ClosingPollReportsProgress(c: Conn, env: PollEnv)
    requires c.Ok() && c.Poll(env).0.closed
    ensures c.Poll(env).1
  {
    hide Conn.Poll;
    hide Conn.Ok;
    PollLeads(c, env);
  }

  /** Over whole runs the state only moves forward, and the counted FINs go with it. */
  lemma {:induction false} StateOnlyMovesForward(c: Conn, events: seq<Event>)
    requires c.Ok()
    ensures Leads(c.tcb.state, Run(c, events).tcb.state)
    ensures EndsCounted(c) ==> EndsCounted(Run(c, events))
    decreases |events|
  {
    hide Conn.Ok;
    hide Conn.Poll;
    hide Conn.HandlePacket;
    if events != [] {
      match events[0] {
        case FromDevice(s, random, busy) => HandlePacketLeads(c, s, random, busy);
        case PollSockets(env) => PollLeads(c, env);
        case Elsewhere(q) =>
      }
      StateOnlyMovesForward(Step(c, events[0]), events[1..]);
    }
  }

  /** In every run. */
  lemma EndsOfRuns(c: Conn)
    requires Reached(c)
    ensures EndsCounted(c)
  {
    hide Opening;
    hide Run;
    hide Conn.Ok;
    var ipRaw, tcpRaw, outbox, events :|
      Opening(ipRaw, tcpRaw, outbox) && c == Run(Create(ipRaw, tcpRaw, outbox), events);
    StateOnlyMovesForward(Create(ipRaw, tcpRaw, outbox), events);
  }

  /** A FIN from the device counts only when the data before it has left for the network. */
  lemma FinWaitsForBufferedData(c: Conn, io: IoWrite, busy: bool)
    requires c.Ok() && c.tcb.finReceived && c.inbox.contents != [] && io.Took? && io.w > 0
    ensures c.ProcessSend(io, busy).0.log.fins ==
            c.log.fins + if c.inbox.Sent(io) == c.inbox.contents then [FinCount(c.log.finPlace, c.log.Place())] else []
  {
    hide Conn.SendEmpty;
    hide Conn.Ok;
    OkInbox(c);
    var d := c.DrainInbox(io);
    SendEmptyCounts(d, ACK, busy);
    SendEmptyCounts(d.CountFin(false), ACK, busy);
    SendEmptyCounts(d.CountFin(false), FIN + ACK, busy);
    assert c.inbox.Sent(io) == c.inbox.contents <==> c.inbox.WriteTo(io).contents == [];
  }

  lemma SendEmptyCounts(c: Conn, flags: u16, busy: bool)
    requires c.Ok()
    ensures c.SendEmpty(flags, busy).log.fins == c.log.fins
  {
    hide Pk.UpdateHeaders;
    hide Pk.Build;
  }

  // ── what ends a connection ──

  /** Whether a segment at the expected number closes the connection: an RST, the device's
      FIN after ours was acknowledged, or the acknowledgement of our FIN once the device's
      was counted. A FIN counts when nothing is left to send to the network; then it may also
      be the one that makes us send ours. */
  predicate ExpectedCloses(c: Conn, s: Segment) {
    var state := if c.tcb.state.SynReceived? && s.IsAck() then Established else c.tcb.state;
    var finCounts := s.IsFin() && c.inbox.contents == [] && !Accepts(c, s);
    var ourFin := if finCounts && state == Established then Some(c.tcb.sequenceNumber) else c.tcb.finSequenceNumber;
    var acknowledged := ourFin.Some? && s.acknowledgementNumber == Wrap32((ourFin.value as int) + 1);
    || s.IsRst()
    || (finCounts && state == FinWait2)
    || (acknowledged && (state == LastAck || state == Closing
                         || (finCounts && (state == FinWait1 || state == Established))))
  }

  /** Whether any packet of the device closes the connection. */
  predicate Closes(c: Conn, s: Segment) {
    if c.tcb.state == Init then !s.IsSyn()
    else if s.IsSyn() then c.tcb.state != SynSent && s.sequenceNumber != c.tcb.synSequenceNumber
    else s.sequenceNumber == c.tcb.acknowledgementNumber && ExpectedCloses(c, s)
  }

  lemma HandleAckTcb(c: Conn, s: Segment, busy: bool)
    requires c.Ok()
    ensures
      var d := c.HandleAck(s, busy);
      && d.tcb.state == (if c.tcb.state.SynReceived? then Established else c.tcb.state)
      && d.tcb.finSequenceNumber == c.tcb.finSequenceNumber && d.tcb.sequenceNumber == c.tcb.sequenceNumber
      && d.closed == c.closed
  {
    hide Conn.SendEmpty;
    hide Conn.Ok;
    SendEmptyTcb(c, ACK, busy);
    if |s.payload| <= c.inbox.Remaining() {
      SendEmptyTcb(c.AcceptPayload(s), ACK, busy);
    }
  }

  lemma HandleFinTcb(c: Conn, busy: bool)
    requires c.Ok()
    ensures
      var d := c.HandleFin(busy);
      var counts := c.inbox.contents == [];
      && d.tcb.state == (if counts && c.tcb.state == Established then LastAck
                         else if counts && c.tcb.state == FinWait1 then Closing else c.tcb.state)
      && d.tcb.finSequenceNumber == (if counts && c.tcb.state == Established then Some(c.tcb.sequenceNumber)
                                     else c.tcb.finSequenceNumber)
      && d.closed == (c.closed || (counts && c.tcb.state == FinWait2))
  {
    hide Conn.SendEmpty;
    hide Conn.Ok;
    var b := c.(tcb := c.tcb.(finReceived := true));
    TcbOk(c, b.tcb);
    SendEmptyTcb(b.CountFin(false), ACK, busy);
    SendEmptyTcb(b.CountFin(false), FIN + ACK, busy);
  }

  lemma ExpectedClosesIff(c: Conn, s: Segment, busy: bool)
    requires c.Ok() && !c.closed && c.tcb.state != Init && !s.IsSyn()
    requires s.sequenceNumber == c.tcb.acknowledgementNumber
    ensures c.HandleExpected(s, busy).closed <==> ExpectedCloses(c, s)
  {
    hide Conn.HandleAck;
    hide Conn.HandleFin;
    hide Conn.Ok;
    var b := c.Meet(s);
    HandleAckTcb(b, s, busy);
    AckIsAcceptedIff(b, s, busy);
    HandleFinTcb(if s.IsAck() then b.HandleAck(s, busy) else b, busy);
    assert c.inbox.contents + [] == c.inbox.contents;
  }

  /** Over every branch of packet handling, the exact condition for the end. */
  lemma PacketClosesIff(c: Conn, s: Segment, random: u32, busy: bool)
    requires c.Ok() && !c.closed
    ensures c.HandlePacket(s, random, busy).closed <==> Closes(c, s)
  {
    hide Conn.HandleExpected;
    hide ExpectedCloses;
    hide Conn.SendEmpty;
    hide Conn.Ok;
    if c.tcb.state != Init && !s.IsSyn() && s.sequenceNumber == c.tcb.acknowledgementNumber {
      ExpectedClosesIff(c, s, busy);
    }
    SendEmptyTcb(c, ACK, busy);
  }

  // ── when the socket is read ──

  /** The socket may be read exactly in Established with nothing deferred and with fewer
      bytes in flight to the device than its window, counted modulo 2^32. */
  lemma SocketIsReadIff(c: Conn)
    ensures c.MayRead() <==>
            && c.tcb.state == Established && c.deferred.None?
            && Wrap32(c.tcb.sequenceNumber - c.tcb.theirAcknowledgementNumber) < c.tcb.clientWindow
  {
    var t := c.tcb;
    InFlight(t.theirAcknowledgementNumber, t.sequenceNumber, t.clientWindow);
  }

  /** What remains of the client's window is the window less the bytes in flight, and nothing
      when more are in flight than fit. */
  lemma RemainingWindowIs(t: Tcb)
    ensures
      var inFlight := Wrap32(t.sequenceNumber - t.theirAcknowledgementNumber);
      t.RemainingClientWindow() == if inFlight < t.clientWindow then t.clientWindow - inFlight else 0
  {
    InFlightIs(t.theirAcknowledgementNumber, t.sequenceNumber, t.clientWindow);
  }

  lemma InFlightIs(acknowledged: u32, sent: u32, window: u16)
    ensures
      var remaining := Wrap32(acknowledged + window - sent);
      var inFlight := Wrap32(sent - acknowledged);
      && (inFlight < window ==> remaining == window - inFlight)
      && (inFlight == window ==> remaining == 0) && (inFlight > window ==> remaining > window)
  {
  }

  lemma InFlight(acknowledged: u32, sent: u32, window: u16)
    ensures 0 < Wrap32(acknowledged + window - sent) <= window <==> Wrap32(sent - acknowledged) < window
  {
  }

  // ── the client's window over one read loop ──

  /** All payload built in one read loop fits in the window remaining at its start, under
      32-bit wrap-around, and is at most 32 packets. */
  lemma {:induction false} ReadLoopStaysInWindow(c: Conn, answers: seq<IoRead>, i: nat, busy: bool)
    requires c.Ok() && i <= MAX_PACKETS_PER_POLL
    ensures
      var d := c.ReceiveFrom(answers, i, busy).0;
      && c.log.received <= d.log.received
      && |d.log.received| - |c.log.received| <= c.tcb.RemainingClientWindow()
      && |c.log.built| <= |d.log.built| <= |c.log.built| + (MAX_PACKETS_PER_POLL - i)
    decreases MAX_PACKETS_PER_POLL - i
  {
    hide Conn.Ok;
    hide Conn.PrepareRead;
    hide Conn.Deliver;
    hide Conn.Eof;
    hide Conn.SendEmpty;
    hide Conn.Close;
    hide HeaderReady;
    hide Tcb.RemainingClientWindow;
    if i == MAX_PACKETS_PER_POLL || c.deferred.Some? || c.tcb.RemainingClientWindow() == 0 {
    } else {
      PrepareReadReady(c);
      PrepareReadReceived(c);
      var p := c.PrepareRead();
      match if i < |answers| then answers[i] else ReadBlocks {
        case Arrived(data) =>
          if data == [] {
            EofReceived(p, busy);
          } else {
            var payload := data[..Min(Min(c.tcb.RemainingClientWindow(), MAX_PAYLOAD_LENGTH), |data|)];
            DeliverReceived(p, payload, busy);
            var d := p.Deliver(payload, busy);
            if d.deferred.None? {
              ReadLoopStaysInWindow(d, answers, i + 1, busy);
            }
          }
        case ReadBlocks =>
        case ReadFails => ResetReceived(p, busy);
      }
    }
  }

  lemma PrepareReadReceived(c: Conn)
    requires c.Ok()
    ensures c.PrepareRead().log.received == c.log.received && c.PrepareRead().log.built == c.log.built
  {
    hide Pk.UpdateHeaders;
  }

  lemma EofReceived(c: Conn, busy: bool)
    requires c.Ok()
    ensures c.Eof(busy).log.received == c.log.received && c.Eof(busy).log.built == c.log.built
  {
    hide Pk.UpdateHeaders;
    hide Pk.Build;
  }

  lemma ResetReceived(c: Conn, busy: bool)
    requires c.Ok()
    ensures var d := c.SendEmpty(RST, busy).Close();
      d.log.received == c.log.received && d.log.built == c.log.built
  {
    hide Pk.UpdateHeaders;
    hide Pk.Build;
  }

  /** A delivered payload shrinks the remaining window by its length. */
  lemma DeliverReceived(c: Conn, payload: seq<byte>, busy: bool)
    requires c.Ok() && c.deferred.None? && 0 < |payload| <= MAX_PAYLOAD_LENGTH
    requires |payload| <= c.tcb.RemainingClientWindow()
    ensures var d := c.Deliver(payload, busy);
      && d.log.received == c.log.received + payload && |d.log.built| == |c.log.built| + 1
      && (d.deferred.None? ==> d.tcb.RemainingClientWindow() == c.tcb.RemainingClientWindow() - |payload|)
  {
    hide Pk.Fill;
    hide Pk.Build;
    WindowShrinks(c.tcb, |payload|);
  }

  lemma WindowShrinks(t: Tcb, n: nat)
    requires n <= t.RemainingClientWindow()
    ensures t.(sequenceNumber := Wrap32(t.sequenceNumber + n)).RemainingClientWindow() == t.RemainingClientWindow() - n
  {
    hide Wrap32;
    var a := t.theirAcknowledgementNumber + t.clientWindow;
    WrapDifference(a, t.sequenceNumber + n);
    WrapMinus(a - t.sequenceNumber, n);
  }

  lemma WrapDifference(a: int, b: int)
    ensures Wrap32(a - Wrap32(b)) == Wrap32(a - b)
  {
  }

  lemma WrapMinus(x: int, n: nat)
    ensures n <= Wrap32(x) ==> Wrap32(x - n) == Wrap32(x) - n
  {
  }
}
