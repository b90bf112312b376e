/** The handlers of tcp_connection.rs keep the invariant. */
module TcpHandlers {
  import opened Bytes
  import opened Sockets
  import opened StreamBuffers
  import opened Packetizers
  import opened TcpSpec
  import opened TcpInvariant
  import opened TcpSteps

  lemma WrapAdd(x: int, n: int)
    ensures Wrap32(Wrap32(x) + n) == Wrap32(x + n)
  {
  }

  lemma TcbOk(c: Conn, tcb: Tcb)
    requires c.Ok()
    ensures c.(tcb := tcb).Ok()
  {
  }

  lemma InvOk(c: Conn)
    requires Inv(c)
    ensures c.Ok()
  {
  }

  /** Changes to the control block that no concern counts: the peer's window and
      acknowledgement, the pending FIN, and the harmless state changes. */
  lemma QuietChange(c: Conn, d: Conn)
    requires Inv(c) && d.Ok()
    requires d.log == c.log.(finPlace := d.log.finPlace)
    requires d.pk == c.pk && d.inbox == c.inbox && d.deferred == c.deferred
    requires d.tcb.sequenceNumber == c.tcb.sequenceNumber
    requires d.tcb.acknowledgementNumber == c.tcb.acknowledgementNumber
    requires d.tcb.synSequenceNumber == c.tcb.synSequenceNumber
    requires d.tcb.finSequenceNumber == c.tcb.finSequenceNumber
    requires || d.tcb.state == c.tcb.state
             || (&& 2 <= Rank(c.tcb.state) <= Rank(d.tcb.state) && Rank(d.tcb.state) >= 3
                 && d.tcb.state.IsClosed() == c.tcb.state.IsClosed())
    ensures Inv(d)
  {
    hide Upstream;
    hide Edges;
    hide Lifecycle;
    hide Numbers;
    hide Downstream;
    hide Packets;
    hide Deferral;
    LifecycleAdvances(c, d);
    UpstreamFrame(c, d);
    EdgesFrame(c, d);
    NumbersFrame(c, d);
    DeviceFrame(c, d);
  }

  lemma LifecycleAdvances(c: Conn, d: Conn)
    requires Lifecycle(c) && d.log == c.log.(finPlace := d.log.finPlace)
    requires d.tcb.finSequenceNumber == c.tcb.finSequenceNumber
    requires || d.tcb.state == c.tcb.state
             || (&& 2 <= Rank(c.tcb.state) <= Rank(d.tcb.state)
                 && d.tcb.state.IsClosed() == c.tcb.state.IsClosed())
    ensures Lifecycle(d)
  {
  }

  lemma CloseKeeps(c: Conn)
    requires Inv(c)
    ensures Inv(c.Close())
  {
    hide Inv;
    InvOk(c);
    QuietChange(c, c.Close());
  }

  // ── bytes from the device ──

  lemma AcceptUpstream(c: Conn, s: Segment)
    requires c.Ok() && Upstream(c) && c.tcb.state != Init
    requires |s.payload| <= c.inbox.Remaining() && s.sequenceNumber == c.tcb.acknowledgementNumber
    ensures Upstream(c.AcceptPayload(s))
  {
    hide AcceptedBytes;
    hide Acceptances;
    AcceptedGrows(c.log.accepted, c.Accepted(s));
    AcceptedIsInPlace(c, s);
    WrapAdd(c.tcb.synSequenceNumber + 1 + Relative(c), |s.payload|);
    assert c.log.written + (c.inbox.contents + s.payload) == (c.log.written + c.inbox.contents) + s.payload;
  }

  lemma AcceptedIsInPlace(c: Conn, s: Segment)
    requires c.Ok() && Acceptances(c) && |s.payload| <= c.inbox.Remaining()
    requires c.tcb.acknowledgementNumber == Wrap32(c.tcb.synSequenceNumber + 1 + Relative(c))
    requires s.sequenceNumber == c.tcb.acknowledgementNumber
    ensures Acceptances(c.AcceptPayload(s))
  {
    hide AcceptedBytes;
    var a, x, from := c.log.accepted, c.Accepted(s), c.log.synAt;
    var d := c.AcceptPayload(s);
    assert (a + [x])[from..] == a[from..] + [x];
    AcceptedGrows(a[from..], x);
    forall i | 0 <= i < |d.log.accepted|
      ensures AcceptedInPlace(d, i)
    {
      if i < |a| {
        assert AcceptedInPlace(c, i);
        assert (a + [x])[a[i].from..i] == a[a[i].from..i];
      } else {
        assert (a + [x])[from..i] == a[from..];
      }
    }
  }

  /** Edges stay honoured when the acknowledgement number advances by no more than the
      free space shrinks or by a byte that uses no space. */
  lemma EdgesAdvance(c: Conn, d: Conn)
    requires Edges(c)
    requires d.log.forged == c.log.forged && d.tcb.state == c.tcb.state
    requires d.tcb.synSequenceNumber == c.tcb.synSequenceNumber
    requires Relative(d) >= Relative(c)
    requires d.inbox.Remaining() + Relative(d) >= c.inbox.Remaining() + Relative(c)
    ensures Edges(d)
  {
    forall i | 0 <= i < |d.log.forged| && Rank(d.log.forged[i].state) >= 2
      ensures Rank(d.tcb.state) >= 2 && EdgeHonoured(d, d.log.forged[i])
    {
      assert EdgeHonoured(c, c.log.forged[i]);
    }
  }

  lemma AcceptPayloadKeeps(c: Conn, s: Segment)
    requires Inv(c) && c.tcb.state != Init
    requires |s.payload| <= c.inbox.Remaining() && s.sequenceNumber == c.tcb.acknowledgementNumber
    ensures Inv(c.AcceptPayload(s))
  {
    hide Upstream;
    hide Edges;
    hide Lifecycle;
    hide Numbers;
    hide Downstream;
    hide Packets;
    hide Deferral;
    var d := c.AcceptPayload(s);
    AcceptUpstream(c, s);
    EdgesAdvance(c, d);
    LifecycleFrame(c, d);
    NumbersFrame(c, d);
    DeviceFrame(c, d);
  }

  lemma CountFinUpstream(c: Conn, ofSocket: bool)
    requires c.Ok() && Upstream(c) && c.tcb.state != Init
    ensures Upstream(c.CountFin(ofSocket))
  {
    hide AcceptedBytes;
    AcceptancesFrame(c, c.CountFin(ofSocket));
    WrapAdd(c.tcb.synSequenceNumber + 1 + Relative(c), 1);
  }

  lemma CountFinState(c: Conn, ofSocket: bool)
    requires c.Ok()
    ensures c.CountFin(ofSocket).tcb.state == c.tcb.state
  {
  }

  lemma CountFinKeeps(c: Conn, ofSocket: bool)
    requires Inv(c) && c.tcb.state != Init
    ensures Inv(c.CountFin(ofSocket))
  {
    hide Upstream;
    hide Edges;
    hide Lifecycle;
    hide Numbers;
    hide Downstream;
    hide Packets;
    hide Deferral;
    var d := c.CountFin(ofSocket);
    CountFinUpstream(c, ofSocket);
    EdgesAdvance(c, d);
    LifecycleFrame(c, d);
    NumbersFrame(c, d);
    DeviceFrame(c, d);
  }

  lemma DrainInboxUpstream(c: Conn, io: IoWrite)
    requires c.Ok() && Upstream(c)
    ensures Upstream(c.DrainInbox(io))
  {
    hide Queue.WriteTo;
    hide Queue.Sent;
    hide AcceptedBytes;
    hide Acceptances;
    AcceptancesFrame(c, c.DrainInbox(io));
    assert c.log.written + c.inbox.contents == (c.log.written + c.inbox.Sent(io)) + c.inbox.WriteTo(io).contents;
  }

  lemma DrainInboxKeeps(c: Conn, io: IoWrite)
    requires Inv(c)
    ensures Inv(c.DrainInbox(io))
  {
    hide Upstream;
    hide Edges;
    hide Lifecycle;
    hide Numbers;
    hide Downstream;
    hide Packets;
    hide Deferral;
    hide Queue.WriteTo;
    hide Queue.Sent;
    var d := c.DrainInbox(io);
    DrainInboxUpstream(c, io);
    EdgesAdvance(c, d);
    LifecycleFrame(c, d);
    NumbersFrame(c, d);
    DeviceFrame(c, d);
  }

  // ── SYN and FIN of our own ──

  lemma SendFinKeeps(c: Conn, next: TcpState, busy: bool)
    requires Inv(c) && c.tcb.state == Established && (next == LastAck || next == FinWait1)
    ensures Inv(c.SendFin(next, busy))
  {
    hide Upstream;
    hide Edges;
    hide Lifecycle;
    hide Numbers;
    hide Downstream;
    hide Packets;
    hide Deferral;
    hide Conn.SendEmpty;
    hide Pk.Synced;
    hide Whole;
    var e := c.SendEmpty(FIN + ACK, busy);
    SendEmptyKeepsRest(c, FIN + ACK, busy);
    SentEmptyCounts(c, e, FIN + ACK);
    var d := c.SendFin(next, busy);
    UpstreamFrame(e, d);
    EdgesFrame(e, d);
    DeviceFrame(e, d);
    FinCounted(c, d);
  }

  lemma FinCounted(c: Conn, d: Conn)
    requires Lifecycle(c) && Numbers(c) && c.tcb.state == Established
    requires d.tcb.state == LastAck || d.tcb.state == FinWait1
    requires d.tcb.finSequenceNumber == Some(c.tcb.sequenceNumber)
    requires d.tcb.sequenceNumber == Wrap32(c.tcb.sequenceNumber + 1)
    requires Fins(d.log.forged) == Fins(c.log.forged) + 1 && Syns(d.log.forged) == Syns(c.log.forged)
    requires d.log.attempts == c.log.attempts && d.log.built == c.log.built && d.log.flushes == c.log.flushes
    requires d.log.initialNumber == c.log.initialNumber && d.deferred == c.deferred
    ensures Lifecycle(d) && Numbers(d)
  {
    hide DirectLength;
    hide FlushedLength;
    hide Deferrals;
    forall k | 0 <= k < |d.log.built|
      ensures Positioned(d, k)
    {
      assert Positioned(c, k);
    }
    WrapAdd(c.log.initialNumber + Syns(c.log.forged) + DirectLength(c.log.built)
            + FlushedLength(c.log.flushes) + Fins(c.log.forged), 1);
  }

  lemma ProcessConnectKeeps(c: Conn, busy: bool)
    requires Inv(c) && c.tcb.state == SynSent
    ensures Inv(c.ProcessConnect(busy))
  {
    hide Upstream;
    hide Edges;
    hide Lifecycle;
    hide Numbers;
    hide Downstream;
    hide Packets;
    hide Deferral;
    hide Conn.SendEmpty;
    hide Pk.Synced;
    hide Whole;
    var b := c.(tcb := c.tcb.(state := SynReceived));
    EdgesFrame(c, b);
    UpstreamFrame(c, b);
    DeviceFrame(c, b);
    var e := b.SendEmpty(SYN + ACK, busy);
    SendEmptyKeepsRest(b, SYN + ACK, busy);
    SentEmptyCounts(b, e, SYN + ACK);
    var d := c.ProcessConnect(busy);
    UpstreamFrame(e, d);
    EdgesFrame(e, d);
    DeviceFrame(e, d);
    SynCounted(c, d);
  }

  lemma SynCounted(c: Conn, d: Conn)
    requires Lifecycle(c) && Numbers(c) && c.tcb.state == SynSent
    requires d.tcb.state == SynReceived && d.tcb.finSequenceNumber == c.tcb.finSequenceNumber
    requires d.tcb.sequenceNumber == Wrap32(c.tcb.sequenceNumber + 1)
    requires Syns(d.log.forged) == Syns(c.log.forged) + 1 && Fins(d.log.forged) == Fins(c.log.forged)
    requires d.log.attempts == c.log.attempts && d.log.built == c.log.built && d.log.flushes == c.log.flushes
    requires d.log.initialNumber == c.log.initialNumber && d.deferred == c.deferred
    ensures Lifecycle(d) && Numbers(d)
  {
    WrapAdd(c.log.initialNumber + Syns(c.log.forged) + DirectLength(c.log.built)
            + FlushedLength(c.log.flushes) + Fins(c.log.forged), 1);
  }

  // ── the device's SYN ──

  /** An RST to the device, then the end of the connection. */
  lemma ResetKeeps(c: Conn, busy: bool)
    requires Inv(c)
    ensures Inv(c.SendEmpty(RST, busy).Close())
  {
    hide Inv;
    hide Conn.Ok;
    hide Conn.SendEmpty;
    InvOk(c);
    SendEmptyKeeps(c, RST, busy);
    CloseKeeps(c.SendEmpty(RST, busy));
  }

  lemma FirstPacketKeeps(c: Conn, s: Segment, random: u32, busy: bool)
    requires Inv(c) && c.tcb.state == Init
    ensures Inv(c.HandleFirstPacket(s, random, busy))
  {
    if s.IsSyn() {
      FirstSynKeeps(c, s, random, busy);
    } else {
      var b := c.(tcb := c.tcb.(sequenceNumber := s.acknowledgementNumber));
      ResetBeforeSyn(c, b);
      ResetKeeps(b, busy);
    }
  }

  lemma FirstSynKeeps(c: Conn, s: Segment, random: u32, busy: bool)
    requires Inv(c) && c.tcb.state == Init && s.IsSyn()
    ensures Inv(c.HandleFirstPacket(s, random, busy))
  {
    hide Upstream;
    hide Edges;
    hide Lifecycle;
    hide Numbers;
    hide Downstream;
    hide Packets;
    hide Deferral;
    var d := c.HandleFirstPacket(s, random, busy);
    StartCounting(c, d);
    DeviceFrame(c, d);
  }

  lemma StartCounting(c: Conn, d: Conn)
    requires Upstream(c) && Edges(c) && Lifecycle(c) && Numbers(c) && c.tcb.state == Init
    requires d.tcb.state == SynSent && d.tcb.finSequenceNumber == c.tcb.finSequenceNumber
    requires d.tcb.acknowledgementNumber == Wrap32(d.tcb.synSequenceNumber + 1) && Relative(d) == 0
    requires d.tcb.sequenceNumber == d.log.initialNumber
    requires d.log.accepted == c.log.accepted && d.log.written == c.log.written && d.inbox == c.inbox
    requires d.log.synAt == |d.log.accepted|
    requires d.log.forged == c.log.forged && d.log.attempts == c.log.attempts
    requires d.log.built == c.log.built && d.log.flushes == c.log.flushes && d.deferred == c.deferred
    ensures Upstream(d) && Edges(d) && Lifecycle(d) && Numbers(d)
  {
    AcceptancesRestart(c, d);
  }

  lemma AcceptancesRestart(c: Conn, d: Conn)
    requires Acceptances(c) && d.log.accepted == c.log.accepted
    requires d.log.synAt == |d.log.accepted| && d.log.sinceSyn == 0
    ensures Acceptances(d)
  {
    assert d.log.accepted[d.log.synAt..] == [];
    forall i | 0 <= i < |d.log.accepted|
      ensures AcceptedInPlace(d, i)
    {
      assert AcceptedInPlace(c, i);
    }
  }

  lemma UncountedBeforeSyn(c: Conn, b: Conn)
    requires Numbers(c) && Lifecycle(c) && c.tcb.state == Init
    requires b == c.(tcb := c.tcb.(sequenceNumber := b.tcb.sequenceNumber))
    ensures Numbers(b)
  {
  }

  /** Before the SYN no sequence number counts yet. */
  lemma ResetBeforeSyn(c: Conn, b: Conn)
    requires Inv(c) && c.tcb.state == Init
    requires b == c.(tcb := c.tcb.(sequenceNumber := b.tcb.sequenceNumber))
    ensures Inv(b)
  {
    hide Upstream;
    hide Edges;
    hide Lifecycle;
    hide Numbers;
    hide Downstream;
    hide Packets;
    hide Deferral;
    UncountedBeforeSyn(c, b);
    UpstreamFrame(c, b);
    EdgesFrame(c, b);
    LifecycleFrame(c, b);
    DeviceFrame(c, b);
  }

  lemma DuplicateSynKeeps(c: Conn, s: Segment, busy: bool)
    requires Inv(c) && c.tcb.state != Init
    ensures Inv(c.HandleDuplicateSyn(s, busy))
  {
    if c.tcb.state.SynSent? {
      RestartKeeps(c, s);
    } else {
      ResetKeeps(c, busy);
    }
  }

  lemma RestartKeeps(c: Conn, s: Segment)
    requires Inv(c) && c.tcb.state == SynSent
    ensures Inv(c.Synchronize(s, SynSent))
  {
    hide Upstream;
    hide Edges;
    hide Lifecycle;
    hide Numbers;
    hide Downstream;
    hide Packets;
    hide Deferral;
    var d := c.Synchronize(s, SynSent);
    Restarted(c, d);
    LifecycleFrame(c, d);
    NumbersFrame(c, d);
    DeviceFrame(c, d);
  }

  lemma Restarted(c: Conn, d: Conn)
    requires Upstream(c) && Edges(c) && c.tcb.state == SynSent == d.tcb.state
    requires d.tcb.acknowledgementNumber == Wrap32(d.tcb.synSequenceNumber + 1) && Relative(d) == 0
    requires d.log.accepted == c.log.accepted && d.log.written == c.log.written && d.inbox == c.inbox
    requires d.log.synAt == |d.log.accepted|
    requires d.log.forged == c.log.forged
    ensures Upstream(d) && Edges(d)
  {
    hide AcceptedBytes;
    hide Acceptances;
    AcceptancesRestart(c, d);
  }

  // ── handlers made of the above ──

  lemma DoHandleFinKeeps(c: Conn, busy: bool)
    requires Inv(c) && c.tcb.state != Init
    ensures Inv(c.DoHandleFin(busy))
  {
    hide Conn.CountFin;
    hide Inv;
    hide Conn.Ok;
    hide Conn.SendEmpty;
    hide Conn.SendFin;
    hide Conn.Close;
    InvOk(c);
    CountFinKeeps(c, false);
    var d := c.CountFin(false);
    CountFinState(c, false);
    match c.tcb.state {
      case Established => SendFinKeeps(d, LastAck, busy);
      case FinWait1 => CloseWithAckKeeps(d, busy);
      case FinWait2 =>
        SendEmptyKeeps(d, ACK, busy);
        CloseKeeps(d.SendEmpty(ACK, busy));
      case _ =>
    }
  }

  lemma CloseWithAckKeeps(d: Conn, busy: bool)
    requires Inv(d) && d.tcb.state == FinWait1
    ensures var e := d.SendEmpty(ACK, busy); Inv(e.(tcb := e.tcb.(state := Closing)))
  {
    hide Conn.SendEmpty;
    hide Inv;
    hide Conn.Ok;
    InvOk(d);
    SendEmptyKeeps(d, ACK, busy);
    SendEmptyTcb(d, ACK, busy);
    var e := d.SendEmpty(ACK, busy);
    TcbOk(e, e.tcb.(state := Closing));
    QuietChange(e, e.(tcb := e.tcb.(state := Closing)));
  }

  lemma SendEmptyTcb(c: Conn, flags: u16, busy: bool)
    requires c.Ok()
    ensures var d := c.SendEmpty(flags, busy);
      d.tcb == c.tcb && d.inbox == c.inbox && d.deferred == c.deferred && d.closed == c.closed
  {
  }

  lemma AcceptPayloadState(c: Conn, s: Segment)
    requires c.Ok() && |s.payload| <= c.inbox.Remaining()
    ensures c.AcceptPayload(s).tcb.state == c.tcb.state
  {
  }

  lemma HandleAckKeeps(c: Conn, s: Segment, busy: bool)
    requires Inv(c) && c.tcb.state != Init && s.sequenceNumber == c.tcb.acknowledgementNumber
    ensures Inv(c.HandleAck(s, busy)) && c.HandleAck(s, busy).tcb.state != Init
  {
    hide Inv;
    hide Conn.SendEmpty;
    hide Conn.AcceptPayload;
    hide Conn.Ok;
    InvOk(c);
    if c.tcb.state.SynReceived? {
      TcbOk(c, c.tcb.(state := Established));
      QuietChange(c, c.HandleAck(s, busy));
    } else if s.payload == [] {
    } else if c.inbox.Remaining() < |s.payload| {
      SendEmptyKeeps(c, ACK, busy);
      SendEmptyTcb(c, ACK, busy);
    } else {
      AcceptPayloadKeeps(c, s);
      AcceptPayloadState(c, s);
      SendEmptyKeeps(c.AcceptPayload(s), ACK, busy);
      SendEmptyTcb(c.AcceptPayload(s), ACK, busy);
    }
  }

  lemma HandleFinKeeps(c: Conn, busy: bool)
    requires Inv(c) && c.tcb.state != Init
    ensures Inv(c.HandleFin(busy))
  {
    hide Inv;
    hide Conn.DoHandleFin;
    hide Conn.Ok;
    InvOk(c);
    var d := c.(tcb := c.tcb.(finReceived := true));
    TcbOk(c, d.tcb);
    QuietChange(c, d);
    if c.inbox.contents == [] {
      DoHandleFinKeeps(d, busy);
    }
  }

  lemma HandleFinAckKeeps(c: Conn)
    requires Inv(c)
    ensures Inv(c.HandleFinAck())
  {
    hide Inv;
    hide Conn.Ok;
    InvOk(c);
    TcbOk(c, c.tcb.(state := FinWait2));
    if c.tcb.state.LastAck? || c.tcb.state.Closing? {
      CloseKeeps(c);
    } else if c.tcb.state.FinWait1? {
      QuietChange(c, c.HandleFinAck());
    }
  }

  lemma HandleExpectedKeeps(c: Conn, s: Segment, busy: bool)
    requires Inv(c) && c.tcb.state != Init && s.sequenceNumber == c.tcb.acknowledgementNumber
    ensures Inv(c.HandleExpected(s, busy))
  {
    hide Inv;
    hide Conn.HandleAck;
    hide Conn.HandleFin;
    hide Conn.HandleFinAck;
    hide Conn.Close;
    hide Conn.Ok;
    InvOk(c);
    var b := c.Meet(s);
    QuietChange(c, b);
    if s.IsRst() {
      CloseKeeps(b);
    } else {
      HandleAckKeeps(b, s, busy);
      var d := if s.IsAck() then b.HandleAck(s, busy) else b;
      HandleFinKeeps(d, busy);
      HandleFinAckKeeps(if s.IsFin() then d.HandleFin(busy) else d);
    }
  }

  /** Any packet from the device. */
  lemma HandlePacketKeeps(c: Conn, s: Segment, random: u32, busy: bool)
    requires Inv(c)
    ensures Inv(c.HandlePacket(s, random, busy))
  {
    hide Inv;
    hide Conn.HandleExpected;
    hide Conn.HandleFirstPacket;
    hide Conn.HandleDuplicateSyn;
    hide Conn.SendEmpty;
    hide Conn.Ok;
    InvOk(c);
    if c.tcb.state.Init? {
      FirstPacketKeeps(c, s, random, busy);
    } else if s.IsSyn() {
      DuplicateSynKeeps(c, s, busy);
    } else if s.sequenceNumber == c.tcb.acknowledgementNumber {
      HandleExpectedKeeps(c, s, busy);
    } else {
      SendEmptyKeeps(c, ACK, busy);
    }
  }
}
