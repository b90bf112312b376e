/** Two runs with an orderly device, possible for every opening packet: a byte that never
    reaches the network, and a connection that cannot be closed by FINs. */
module TcpDeviceRuns {
  import opened Bytes
  import opened Sockets
  import opened StreamBuffers
  import opened TcpSpec
  import opened TcpInvariant
  import opened TcpSteps
  import opened TcpHandlers
  import opened TcpNetwork
  import opened TcpRuns
  import opened TcpProgress
  import opened TcpDevice
  import opened TcpSpoiled

  lemma {:induction false} OrderlyOnward(dev: Device, c: Conn, events: seq<Event>, e: Event)
    requires c.Ok() && Orderly(dev, c, events) && (e.FromDevice? ==> Speaks(dev, Run(c, events), e.segment))
    ensures Orderly(dev, c, events + [e])
    decreases |events|
  {
    hide Step;
    hide Speaks;
    hide Conn.Ok;
    var all := events + [e];
    if events == [] {
      assert all[0] == e && all[1..] == [];
      RunNothing(c);
      OrderlyNothing(dev, Step(c, e));
    } else {
      assert all[0] == events[0] && all[1..] == events[1..] + [e];
      OrderlyOnward(dev, Step(c, events[0]), events[1..], e);
    }
  }

  lemma OrderlyNothing(dev: Device, c: Conn)
    requires c.Ok()
    ensures Orderly(dev, c, [])
  {
  }

  // ── the handshake ──

  const SYN_ARRIVES := FromDevice(Segment(0, 0, SYN, 1000, []), 0, false)
  const SOCKET_CONNECTS := PollSockets(PollEnv(false, WriteBlocks, [], Took(0)))
  const ACK_ARRIVES := FromDevice(Segment(1, 1, ACK, 1000, []), 0, false)

  /** Nothing was counted since the SYN. */
  ghost predicate Blank(c: Conn, tcb: Tcb) {
    && c.Ok() && c.tcb == tcb && c.inbox.contents == [] && c.deferred.None? && !c.closed && c.log.accepted == []
    && c.log.sinceSyn == 0 && c.log.fins == [] && c.log.socketEnds == 0
  }

  lemma CalmIsBlank(c: Conn, tcb: Tcb, pi: nat, n: nat)
    requires Reached(c) && Calm(c, tcb, pi, n) && !tcb.finReceived
    requires tcb.state == SynReceived || tcb.state == Established
    ensures Blank(c, tcb)
  {
    hide Reached;
    hide Inv;
    ReachedInv(c);
    EndsOfRuns(c);
    NothingSince(c);
  }

  lemma NothingSince(c: Conn)
    requires Inv(c) && c.log.accepted == []
    ensures c.log.sinceSyn == 0
  {
    hide Edges;
    hide Lifecycle;
    hide Numbers;
    hide Downstream;
    hide Packets;
    hide Deferral;
  }

  /** A SYN and the connection of the socket. */
  lemma Connected(dev: Device, c: Conn, ipRaw: seq<byte>, tcpRaw: seq<byte>, outbox: Queue)
    requires StartOf(c, ipRaw, tcpRaw, outbox) && dev.syn == 0
    ensures c.Ok() && Orderly(dev, c, [SYN_ARRIVES] + [SOCKET_CONNECTS])
    ensures
      var d := Run(c, [SYN_ARRIVES] + [SOCKET_CONNECTS]);
      Reached(d) && Calm(d, CONNECTED, c.pk.pi, outbox.capacity)
  {
    hide Step;
    hide Run;
    hide StartOf;
    hide Calm;
    CreateCalm(c, ipRaw, tcpRaw, outbox);
    CalmOk(c, NEW_TCB, c.pk.pi, outbox.capacity);
    OrderlyNothing(dev, c);
    RunNothing(c);
    assert [] + [SYN_ARRIVES] == [SYN_ARRIVES];
    assert SYN_ARRIVES == Deferring(outbox.capacity)[0] && SOCKET_CONNECTS == Deferring(outbox.capacity)[1];
    assert Segment(0, 0, SYN, 1000, []).IsSyn();
    OrderlyOnward(dev, c, [], SYN_ARRIVES);
    RunOnward(c, [], SYN_ARRIVES);
    SynArrives(c, c.pk.pi, outbox.capacity);
    OrderlyOnward(dev, c, [SYN_ARRIVES], SOCKET_CONNECTS);
    RunOnward(c, [SYN_ARRIVES], SOCKET_CONNECTS);
    SocketConnects(Run(c, [SYN_ARRIVES]), c.pk.pi, outbox.capacity);
    StartIsReached(c, ipRaw, tcpRaw, outbox, [SYN_ARRIVES] + [SOCKET_CONNECTS]);
  }

  // ── a FIN with the ACK of the handshake ──

  const TWO_BYTES := Device(0, [7, 8])
  const ALL_AT_ONCE := FromDevice(Segment(1, 1, ACK + FIN, 1000, [7, 8]), 0, false)
  const SECOND_BYTE := FromDevice(Segment(2, 1, ACK, 1000, [8]), 0, false)

  /** The device sends its two bytes and its FIN with the ACK of the handshake, and later the
      second byte again. */
  const EARLY_FIN: seq<Event> := [SYN_ARRIVES] + [SOCKET_CONNECTS] + [ALL_AT_ONCE] + [SECOND_BYTE]

  const ANSWERED := Tcb(LastAck, 0, 2, 2, 1, Some(1), true, 1000)

  lemma PayloadIsPassedOver(c: Conn)
    requires Blank(c, CONNECTED)
    ensures var d := Step(c, ALL_AT_ONCE);
      d.Ok() && d.tcb == ANSWERED && d.inbox == c.inbox && d.log.accepted == [] && d.log.fins == [FinCount(2, 0)]
      && d.log.Place() == 1
  {
    hide Conn.SendEmpty;
    hide Conn.AcceptPayload;
    hide Conn.HandleFirstPacket;
    hide Conn.HandleDuplicateSyn;
    hide Conn.Ok;
    var s := ALL_AT_ONCE.segment;
    assert !s.IsSyn() && !s.IsRst() && s.IsAck() && s.IsFin();
    var b := c.Meet(s);
    var e := b.(tcb := b.tcb.(state := Established, finReceived := true));
    TcbOk(b, e.tcb);
    var f := e.CountFin(false);
    SendEmptyTcb(f, FIN + ACK, false);
    SendEmptyQuiet(f, FIN + ACK, false);
  }

  lemma SecondByteIsTaken(c: Conn)
    requires c.Ok() && c.tcb == ANSWERED && c.inbox.contents == [] && c.log.accepted == [] && c.inbox.capacity >= 1
    ensures var d := Step(c, SECOND_BYTE); d.Ok() && AcceptedBytes(d.log.accepted) == [8]
  {
    hide Conn.HandlePacket;
    var s := SECOND_BYTE.segment;
    assert !s.IsSyn() && !s.IsRst() && s.IsAck();
    PayloadIsAcceptedIff(c, s, 0, false);
    AcceptedGrows(c.log.accepted, c.Accepted(s));
    assert AcceptedBytes([]) == [] && [] + [8 as byte] == [8];
  }

  /** The FIN is counted where the payload should have been, so the first byte of the device
      never reaches the network, while the second does. */
  lemma EarlyFinLosesAByte(c: Conn, ipRaw: seq<byte>, tcpRaw: seq<byte>, outbox: Queue)
    requires StartOf(c, ipRaw, tcpRaw, outbox)
    ensures c.Ok() && Orderly(TWO_BYTES, c, EARLY_FIN)
    ensures AcceptedBytes(Run(c, EARLY_FIN).log.accepted) == [8] && !Gapless(TWO_BYTES, Run(c, EARLY_FIN))
  {
    hide Step;
    hide Run;
    hide StartOf;
    hide Calm;
    hide AcceptedBytes;
    hide Gapless;
    hide Reached;
    var first := [SYN_ARRIVES] + [SOCKET_CONNECTS];
    Connected(TWO_BYTES, c, ipRaw, tcpRaw, outbox);
    var d := Run(c, first);
    CalmIsBlank(d, CONNECTED, c.pk.pi, outbox.capacity);
    SpeaksAllAtOnce(d);
    OrderlyOnward(TWO_BYTES, c, first, ALL_AT_ONCE);
    RunOnward(c, first, ALL_AT_ONCE);
    PayloadIsPassedOver(d);
    var e := Run(c, first + [ALL_AT_ONCE]);
    SpeaksSecondByte(e);
    OrderlyOnward(TWO_BYTES, c, first + [ALL_AT_ONCE], SECOND_BYTE);
    RunOnward(c, first + [ALL_AT_ONCE], SECOND_BYTE);
    RoomForOne(c, ipRaw, tcpRaw, outbox, first + [ALL_AT_ONCE]);
    SecondByteIsTaken(e);
    EightIsNoBeginning(Run(c, EARLY_FIN));
  }

  lemma EightIsNoBeginning(d: Conn)
    requires AcceptedBytes(d.log.accepted) == [8]
    ensures !Gapless(TWO_BYTES, d)
  {
    hide AcceptedBytes;
    if d.log.sinceSyn <= 2 {
      assert d.log.sinceSyn > 0 ==> TWO_BYTES.data[..d.log.sinceSyn][0] == 7;
    }
  }

  lemma SpeaksAllAtOnce(d: Conn)
    requires Blank(d, CONNECTED)
    ensures Speaks(TWO_BYTES, d, ALL_AT_ONCE.segment)
  {
    var s := ALL_AT_ONCE.segment;
    assert !s.IsSyn();
    assert [7 as byte, 8][0..2] == [7, 8];
    assert Sends(TWO_BYTES, s, 0) && Near(0, d.log.Place());
  }

  lemma SpeaksSecondByte(d: Conn)
    requires d.tcb == ANSWERED && d.log.Place() == 1
    ensures Speaks(TWO_BYTES, d, SECOND_BYTE.segment)
  {
    var s := SECOND_BYTE.segment;
    assert !s.IsSyn() && !s.IsFin();
    assert [7 as byte, 8][1..2] == [8];
    assert Sends(TWO_BYTES, s, 1) && Near(1, d.log.Place());
  }

  lemma RoomForOne(c: Conn, ipRaw: seq<byte>, tcpRaw: seq<byte>, outbox: Queue, events: seq<Event>)
    requires StartOf(c, ipRaw, tcpRaw, outbox)
    ensures c.Ok() && Run(c, events).inbox.capacity >= 1
  {
    hide Run;
  }

  // ── the end of the socket ──

  const NOTHING := Device(0, [])
  const SOCKET_ENDS := PollSockets(PollEnv(false, WriteBlocks, [Arrived([])], WriteBlocks))

  /** The device's FIN, with the ACK of ours. */
  const FIN_ARRIVES := FromDevice(Segment(1, 2, ACK + FIN, 1000, []), 0, false)

  const CLOSING: seq<Event> := [SYN_ARRIVES] + [SOCKET_CONNECTS] + [ACK_ARRIVES] + [SOCKET_ENDS] + [FIN_ARRIVES]

  const ENDED := Tcb(FinWait1, 0, 2, 2, 1, Some(1), false, 1000)

  lemma SocketEndIsCounted(c: Conn)
    requires Blank(c, OPENED)
    ensures var d := Step(c, SOCKET_ENDS); d.Ok() && d.tcb == ENDED && d.log.socketEnds == 1 && d.log.Place() == 1
  {
    hide Conn.PrepareRead;
    hide Conn.SendEmpty;
    hide HeaderReady;
    hide Conn.Ok;
    PrepareReadReady(c);
    PrepareReadRoom(c);
    PrepareReadQuiet(c);
    var p := c.PrepareRead();
    var f := p.CountFin(true);
    SendEmptyTcb(f, FIN + ACK, false);
    SendEmptyQuiet(f, FIN + ACK, false);
    var d := p.Eof(false);
    assert c.ReceiveOne(Arrived([]), false) == (d, true, false);
    assert c.ReceiveFrom([Arrived([])], 0, false) == (d, true);
    assert c.MayRead();
  }

  lemma FinIsTakenForOld(c: Conn)
    requires Reached(c) && c.Ok() && c.tcb == ENDED && c.log.socketEnds == 1 && c.log.Place() == 1
    ensures var d := Step(c, FIN_ARRIVES);
      d.Ok() && d.tcb == ENDED && d.log.fins == [] && d.log.socketEnds == 1 && d.log.Place() == 1
  {
    hide Conn.HandlePacket;
    hide Conn.SendEmpty;
    hide Reached;
    var s := FIN_ARRIVES.segment;
    assert !s.IsSyn();
    NextSegmentIsTakenForOld(c, s, 0, false);
    SendEmptyQuiet(c, ACK, false);
  }

  /** The network ends first; then the device's FIN and its ACK of ours are both taken for
      old: the endpoint stays in FinWait1, and however often the device repeats them. */
  lemma DeviceCannotClose(c: Conn, ipRaw: seq<byte>, tcpRaw: seq<byte>, outbox: Queue)
    requires StartOf(c, ipRaw, tcpRaw, outbox)
    ensures c.Ok() && Orderly(NOTHING, c, CLOSING)
    ensures var d := Run(c, CLOSING);
      d.tcb == ENDED && d.log.fins == [] && Step(d, FIN_ARRIVES).tcb == ENDED && !Gapless(NOTHING, d)
  {
    hide Step;
    hide Run;
    hide StartOf;
    hide Calm;
    hide Gapless;
    hide Reached;
    var first := [SYN_ARRIVES] + [SOCKET_CONNECTS];
    Connected(NOTHING, c, ipRaw, tcpRaw, outbox);
    var d1 := Run(c, first);
    CalmIsBlank(d1, CONNECTED, c.pk.pi, outbox.capacity);
    SpeaksAck(d1);
    assert ACK_ARRIVES == Deferring(outbox.capacity)[2];
    OrderlyOnward(NOTHING, c, first, ACK_ARRIVES);
    RunOnward(c, first, ACK_ARRIVES);
    AckArrives(d1, c.pk.pi, outbox.capacity);
    StartIsReached(c, ipRaw, tcpRaw, outbox, first + [ACK_ARRIVES]);
    var d2 := Run(c, first + [ACK_ARRIVES]);
    CalmIsBlank(d2, OPENED, c.pk.pi, outbox.capacity);
    OrderlyOnward(NOTHING, c, first + [ACK_ARRIVES], SOCKET_ENDS);
    RunOnward(c, first + [ACK_ARRIVES], SOCKET_ENDS);
    SocketEndIsCounted(d2);
    StartIsReached(c, ipRaw, tcpRaw, outbox, first + [ACK_ARRIVES] + [SOCKET_ENDS]);
    var d3 := Run(c, first + [ACK_ARRIVES] + [SOCKET_ENDS]);
    SpeaksFin(d3);
    OrderlyOnward(NOTHING, c, first + [ACK_ARRIVES] + [SOCKET_ENDS], FIN_ARRIVES);
    RunOnward(c, first + [ACK_ARRIVES] + [SOCKET_ENDS], FIN_ARRIVES);
    FinIsTakenForOld(d3);
    StartIsReached(c, ipRaw, tcpRaw, outbox, CLOSING);
    var d := Run(c, CLOSING);
    FinIsTakenForOld(d);
    NotGapless(d);
  }

  lemma SpeaksAck(d: Conn)
    requires Blank(d, CONNECTED)
    ensures Speaks(NOTHING, d, ACK_ARRIVES.segment)
  {
    var s := ACK_ARRIVES.segment;
    assert !s.IsSyn() && !s.IsFin();
    assert NOTHING.data[0..0] == [];
    assert Sends(NOTHING, s, 0) && Near(0, d.log.Place());
  }

  lemma SpeaksFin(d: Conn)
    requires d.tcb == ENDED && d.log.Place() == 1
    ensures Speaks(NOTHING, d, FIN_ARRIVES.segment)
  {
    var s := FIN_ARRIVES.segment;
    assert !s.IsSyn();
    assert NOTHING.data[0..0] == [];
    assert Sends(NOTHING, s, 0) && Near(0, d.log.Place());
  }

  lemma NotGapless(d: Conn)
    requires d.log.socketEnds == 1 && d.log.fins == []
    ensures !Gapless(NOTHING, d)
  {
  }
}
