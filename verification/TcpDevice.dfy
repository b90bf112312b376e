/** An orderly device at the other end: what it sends are pieces of one stream of bytes with
    a FIN behind it. When the endpoint accepts that stream without a gap. */
module TcpDevice {
  import opened Bytes
  import opened Sockets
  import opened StreamBuffers
  import opened Packetizers
  import opened TcpSpec
  import opened TcpInvariant
  import opened TcpSteps
  import opened TcpHandlers
  import opened TcpNetwork
  import opened TcpRuns
  import opened TcpProgress

  /** The number of its SYN, and all it has to say. */
  datatype Device = Device(syn: u32, data: seq<byte>)

  /** A segment that carries the stream from `o` on: any piece of the data, with the FIN only
      at the end, or nothing behind the FIN. */
  ghost predicate Sends(dev: Device, s: Segment, o: nat) {
    && s.sequenceNumber == Wrap32(dev.syn + 1 + o)
    && (|| (&& o + |s.payload| <= |dev.data| && s.payload == dev.data[o..o + |s.payload|]
            && (s.IsFin() ==> o + |s.payload| == |dev.data|))
        || (o == |dev.data| + 1 && s.payload == [] && !s.IsFin()))
  }

  /** Close enough to be told apart by 32-bit numbers. */
  predicate Near(o: nat, place: nat) {
    o < place + TWO32 && place < o + TWO32
  }

  /** Any piece may be sent again, late or early, but nothing behind the SYN before the
      connection is answered. */
  ghost predicate Speaks(dev: Device, c: Conn, s: Segment) {
    if s.IsSyn() then s.sequenceNumber == dev.syn
    else c.tcb.state != SynSent && exists o: nat :: Sends(dev, s, o) && Near(o, c.log.Place())
  }

  ghost predicate Orderly(dev: Device, c: Conn, events: seq<Event>)
    requires c.Ok()
    decreases |events|
  {
    events != [] ==>
      && (events[0].FromDevice? ==> Speaks(dev, c, events[0].segment))
      && Orderly(dev, Step(c, events[0]), events[1..])
  }

  /** What was accepted is a beginning of the data, and the acknowledgement number is right
      behind it, or behind the FIN. */
  ghost predicate Gapless(dev: Device, c: Conn) {
    && c.log.sinceSyn <= |dev.data| && AcceptedBytes(c.log.accepted) == dev.data[..c.log.sinceSyn]
    && c.log.Place() == c.log.sinceSyn + if c.log.fins != [] && c.log.sinceSyn == |dev.data| then 1 else 0
  }

  /** No end of the socket was counted, and the device's FIN at most once and at its place. */
  ghost predicate CountedInPlace(c: Conn) {
    c.log.socketEnds == 0 && |c.log.fins| <= 1 && forall i :: 0 <= i < |c.log.fins| ==> InPlace(c.log.fins[i])
  }

  predicate InPlace(f: FinCount) {
    f.at == f.place
  }

  // ── the invariant ──

  ghost predicate Follows(dev: Device, c: Conn) {
    && c.log.synAt == 0
    && (Rank(c.tcb.state) < 2 ==>
          && c.log.accepted == [] && c.log.sinceSyn == 0
          && c.log.fins == [] && c.log.socketEnds == 0 && !c.tcb.finReceived)
    && (c.tcb.state != Init ==> c.tcb.synSequenceNumber == dev.syn)
    && (c.tcb.finReceived ==> c.log.finPlace == |dev.data|)
    && c.log.sinceSyn <= |dev.data|
    && (forall i :: 0 <= i < |c.log.fins| ==> c.log.fins[i].place == |dev.data|)
    && (c.log.socketEnds == 0 ==> Sofar(dev, c.log))
  }

  /** Before the FIN is counted there is no gap; one counted too early leaves a byte that is
      never accepted. */
  ghost predicate Sofar(dev: Device, log: History) {
    if log.fins == [] then log.sinceSyn <= |dev.data| && AcceptedBytes(log.accepted) == dev.data[..log.sinceSyn]
    else if log.fins[0].at != |dev.data| then log.sinceSyn < |dev.data|
    else |log.fins| == 1 ==> AcceptedBytes(log.accepted) == dev.data && log.sinceSyn == |dev.data|
  }

  lemma FollowsMeansIff(dev: Device, c: Conn)
    requires Follows(dev, c)
    ensures Gapless(dev, c) <==> CountedInPlace(c)
  {
    hide AcceptedBytes;
    if CountedInPlace(c) && c.log.fins != [] {
      assert InPlace(c.log.fins[0]);
      assert dev.data[..|dev.data|] == dev.data;
    }
  }

  // ── steps that do not concern the device's stream ──

  ghost predicate Quiet(c: Conn, d: Conn) {
    && d.log.accepted == c.log.accepted && d.log.synAt == c.log.synAt && d.log.sinceSyn == c.log.sinceSyn
    && d.log.fins == c.log.fins && d.log.socketEnds == c.log.socketEnds && d.log.finPlace == c.log.finPlace
    && d.tcb.synSequenceNumber == c.tcb.synSequenceNumber && d.tcb.finReceived == c.tcb.finReceived
    && (d.tcb.state == c.tcb.state || (c.tcb.state != Init && Rank(d.tcb.state) >= 2))
  }

  lemma QuietKeeps(dev: Device, c: Conn, d: Conn)
    requires Follows(dev, c) && Quiet(c, d)
    ensures Follows(dev, d)
  {
    hide AcceptedBytes;
  }

  lemma SendEmptyQuiet(c: Conn, flags: u16, busy: bool)
    requires c.Ok()
    ensures Quiet(c, c.SendEmpty(flags, busy))
  {
    hide Pk.UpdateHeaders;
    hide Pk.Build;
  }

  lemma SendFinQuiet(c: Conn, next: TcpState, busy: bool)
    requires c.Ok() && c.tcb.state != Init && Rank(next) >= 2
    ensures Quiet(c, c.SendFin(next, busy))
  {
    hide Conn.SendEmpty;
    hide Conn.Ok;
    SendEmptyQuiet(c, FIN + ACK, busy);
  }

  lemma DeliverQuiet(c: Conn, payload: seq<byte>, busy: bool)
    requires c.Ok() && c.deferred.None? && 0 < |payload| <= MAX_PAYLOAD_LENGTH
    ensures Quiet(c, c.Deliver(payload, busy))
  {
    hide Pk.Fill;
    hide Pk.Build;
  }

  lemma PrepareReadQuiet(c: Conn)
    requires c.Ok()
    ensures Quiet(c, c.PrepareRead())
  {
    hide Pk.UpdateHeaders;
  }

  lemma FlushQuiet(c: Conn, busy: bool)
    requires c.Ok()
    ensures Quiet(c, c.FlushPending(busy).0)
  {
    hide Queue.Append;
  }

  // ── what the device sends ──

  /** A segment at the expected number carries the stream from where the endpoint is. */
  lemma Located(dev: Device, c: Conn, s: Segment)
    requires Inv(c) && Follows(dev, c) && c.tcb.state != Init && !s.IsSyn() && Speaks(dev, c, s)
    requires s.sequenceNumber == c.tcb.acknowledgementNumber
    ensures Sends(dev, s, c.log.Place())
  {
    hide Inv;
    InvNumber(c);
    var o: nat :| Sends(dev, s, o) && Near(o, c.log.Place());
    SameNumber(dev.syn, o, c.log.Place());
  }

  lemma SameNumber(syn: u32, o: nat, place: nat)
    requires Near(o, place) && Wrap32(syn + 1 + o) == Wrap32(syn + 1 + place)
    ensures o == place
  {
    var d := o - place;
    assert d % TWO32 == 0 by {
      assert (syn + 1 + place + d) % TWO32 == (syn + 1 + place) % TWO32;
    }
  }

  lemma MeetKeeps(dev: Device, c: Conn, s: Segment)
    requires c.Ok() && Follows(dev, c) && Rank(c.tcb.state) >= 2 && Sends(dev, s, c.log.Place())
    ensures Follows(dev, c.Meet(s)) && c.Meet(s).log.Place() == c.log.Place() && c.Meet(s).tcb.state == c.tcb.state
    ensures s.IsFin() ==> c.Meet(s).log.finPlace == |dev.data|
  {
    hide AcceptedBytes;
  }

  lemma AcceptKeeps(dev: Device, c: Conn, s: Segment)
    requires c.Ok() && Follows(dev, c) && Rank(c.tcb.state) >= 2 && Sends(dev, s, c.log.Place())
    requires 0 < |s.payload| <= c.inbox.Remaining()
    ensures Follows(dev, c.AcceptPayload(s))
  {
    hide AcceptedBytes;
    var d := c.AcceptPayload(s);
    AcceptedGrows(c.log.accepted, c.Accepted(s));
    var n := c.log.sinceSyn;
    if c.log.fins == [] && c.log.socketEnds == 0 {
      assert dev.data[..n] + dev.data[n..n + |s.payload|] == dev.data[..n + |s.payload|];
    }
  }

  lemma HandleAckKeepsStream(dev: Device, c: Conn, s: Segment, busy: bool)
    requires c.Ok() && Follows(dev, c) && Rank(c.tcb.state) >= 2 && Sends(dev, s, c.log.Place())
    ensures Follows(dev, c.HandleAck(s, busy)) && Rank(c.HandleAck(s, busy).tcb.state) >= 2
    ensures c.HandleAck(s, busy).log.finPlace == c.log.finPlace
  {
    hide Conn.SendEmpty;
    hide Follows;
    hide Conn.Ok;
    hide Sends;
    QuietKeeps(dev, c, c);
    SendEmptyQuiet(c, ACK, busy);
    if c.tcb.state.SynReceived? {
      QuietKeeps(dev, c, c.HandleAck(s, busy));
    } else if s.payload == [] {
    } else if c.inbox.Remaining() < |s.payload| {
      QuietKeeps(dev, c, c.SendEmpty(ACK, busy));
    } else {
      AcceptKeeps(dev, c, s);
      var a := c.AcceptPayload(s);
      SendEmptyQuiet(a, ACK, busy);
      QuietKeeps(dev, a, a.SendEmpty(ACK, busy));
    }
  }

  lemma CountFinKeepsStream(dev: Device, c: Conn, ofSocket: bool)
    requires c.Ok() && Follows(dev, c) && Rank(c.tcb.state) >= 2 && (!ofSocket ==> c.tcb.finReceived)
    ensures Follows(dev, c.CountFin(ofSocket))
  {
    hide AcceptedBytes;
    assert dev.data[..|dev.data|] == dev.data;
  }

  lemma DoHandleFinKeepsStream(dev: Device, c: Conn, busy: bool)
    requires c.Ok() && Follows(dev, c) && Rank(c.tcb.state) >= 2 && c.tcb.finReceived
    ensures Follows(dev, c.DoHandleFin(busy)) && Rank(c.DoHandleFin(busy).tcb.state) >= 2
  {
    hide Conn.SendEmpty;
    hide Conn.SendFin;
    hide Conn.Ok;
    hide Follows;
    CountFinKeepsStream(dev, c, false);
    var b := c.CountFin(false);
    SendFinQuiet(b, LastAck, busy);
    SendEmptyQuiet(b, ACK, busy);
    QuietKeeps(dev, b, b.SendFin(LastAck, busy));
    SendFinState(b, LastAck, busy);
    var e := b.SendEmpty(ACK, busy);
    QuietKeeps(dev, b, e);
    QuietKeeps(dev, e, e.(closed := true));
    QuietKeeps(dev, e, e.(tcb := e.tcb.(state := Closing)));
  }

  lemma SendFinState(c: Conn, next: TcpState, busy: bool)
    requires c.Ok()
    ensures c.SendFin(next, busy).tcb.state == next
  {
    hide Conn.SendEmpty;
    hide Conn.Ok;
  }

  lemma HandleFinKeepsStream(dev: Device, c: Conn, busy: bool)
    requires c.Ok() && Follows(dev, c) && Rank(c.tcb.state) >= 2 && c.log.finPlace == |dev.data|
    ensures Follows(dev, c.HandleFin(busy)) && Rank(c.HandleFin(busy).tcb.state) >= 2
  {
    hide Conn.DoHandleFin;
    hide Conn.Ok;
    hide AcceptedBytes;
    var b := c.(tcb := c.tcb.(finReceived := true));
    TcbOk(c, b.tcb);
    assert Follows(dev, b);
    DoHandleFinKeepsStream(dev, b, busy);
  }

  lemma HandleExpectedKeepsStream(dev: Device, c: Conn, s: Segment, busy: bool)
    requires c.Ok() && Follows(dev, c) && Rank(c.tcb.state) >= 2 && Sends(dev, s, c.log.Place())
    ensures Follows(dev, c.HandleExpected(s, busy))
  {
    hide Conn.HandleAck;
    hide Conn.HandleFin;
    hide Conn.Meet;
    hide Conn.Ok;
    hide Follows;
    hide Sends;
    MeetKeeps(dev, c, s);
    var b := c.Meet(s);
    QuietKeeps(dev, b, b.(closed := true));
    HandleAckKeepsStream(dev, b, s, busy);
    var d := if s.IsAck() then b.HandleAck(s, busy) else b;
    if s.IsFin() {
      HandleFinKeepsStream(dev, d, busy);
    }
    var e := if s.IsFin() then d.HandleFin(busy) else d;
    QuietKeeps(dev, e, e.(closed := true));
    QuietKeeps(dev, e, e.(tcb := e.tcb.(state := FinWait2)));
    QuietKeeps(dev, e, e);
  }

  lemma SynKeepsStream(dev: Device, c: Conn, s: Segment)
    requires c.Ok() && Follows(dev, c) && Rank(c.tcb.state) < 2 && s.sequenceNumber == dev.syn
    ensures Follows(dev, c.Synchronize(s, SynSent))
  {
    assert AcceptedBytes([]) == [] && dev.data[..0] == [];
  }

  lemma HandlePacketKeepsStream(dev: Device, c: Conn, s: Segment, random: u32, busy: bool)
    requires Inv(c) && c.Ok() && Follows(dev, c) && Speaks(dev, c, s)
    ensures Follows(dev, c.HandlePacket(s, random, busy))
  {
    hide Inv;
    hide Conn.HandleExpected;
    hide Conn.SendEmpty;
    hide Conn.Synchronize;
    hide Conn.Ok;
    hide Follows;
    hide Sends;
    SendEmptyQuiet(c, RST, busy);
    SendEmptyQuiet(c, ACK, busy);
    QuietKeeps(dev, c, c.SendEmpty(ACK, busy));
    QuietKeeps(dev, c, c.SendEmpty(RST, busy).Close());
    if c.tcb.state.Init? {
      InitKeepsStream(dev, c, s, random, busy);
    } else if s.IsSyn() {
      if c.tcb.state.SynSent? {
        SynKeepsStream(dev, c, s);
      }
    } else if s.sequenceNumber == c.tcb.acknowledgementNumber {
      Located(dev, c, s);
      HandleExpectedKeepsStream(dev, c, s, busy);
    }
  }

  lemma InitKeepsStream(dev: Device, c: Conn, s: Segment, random: u32, busy: bool)
    requires c.Ok() && Follows(dev, c) && c.tcb.state == Init && (s.IsSyn() ==> s.sequenceNumber == dev.syn)
    ensures Follows(dev, c.HandleFirstPacket(s, random, busy))
  {
    hide Conn.SendEmpty;
    hide Conn.Ok;
    hide AcceptedBytes;
    if s.IsSyn() {
      SynKeepsStream(dev, c, s);
    } else {
      var b := c.(tcb := c.tcb.(sequenceNumber := s.acknowledgementNumber));
      TcbOk(c, b.tcb);
      SendEmptyQuiet(b, RST, busy);
    }
  }

  // ── the socket ──

  lemma ProcessSendKeepsStream(dev: Device, c: Conn, io: IoWrite, busy: bool)
    requires c.Ok() && Follows(dev, c) && c.inbox.contents != [] && Rank(c.tcb.state) >= 2
    ensures Follows(dev, c.ProcessSend(io, busy).0)
  {
    hide Conn.DoHandleFin;
    hide Conn.SendEmpty;
    hide Conn.Ok;
    hide Follows;
    hide Queue.WriteResult;
    hide Queue.WriteTo;
    hide Queue.Sent;
    OkInbox(c);
    var d := c.DrainInbox(io);
    QuietKeeps(dev, c, d);
    QuietKeeps(dev, d, d.(closed := true));
    SendEmptyQuiet(d, ACK, busy);
    QuietKeeps(dev, d, d.SendEmpty(ACK, busy));
    SendEmptyQuiet(c, RST, busy);
    QuietKeeps(dev, c, c.SendEmpty(RST, busy).Close());
    if d.tcb.finReceived {
      DoHandleFinKeepsStream(dev, d, busy);
    }
  }

  lemma {:induction false} ReceiveFromKeepsStream(dev: Device, c: Conn, answers: seq<IoRead>, i: nat, busy: bool)
    requires c.Ok() && Follows(dev, c) && c.tcb.state == Established && i <= MAX_PACKETS_PER_POLL
    ensures Follows(dev, c.ReceiveFrom(answers, i, busy).0)
    decreases MAX_PACKETS_PER_POLL - i
  {
    hide Conn.Ok;
    hide Follows;
    hide Conn.PrepareRead;
    hide Conn.Deliver;
    hide Conn.SendFin;
    hide Conn.CountFin;
    hide Conn.SendEmpty;
    hide HeaderReady;
    hide Tcb.RemainingClientWindow;
    if i == MAX_PACKETS_PER_POLL || c.deferred.Some? || c.tcb.RemainingClientWindow() == 0 {
    } else {
      PrepareReadReady(c);
      PrepareReadQuiet(c);
      var p := c.PrepareRead();
      QuietKeeps(dev, c, p);
      match if i < |answers| then answers[i] else ReadBlocks {
        case Arrived(data) =>
          if data == [] {
            CountFinKeepsStream(dev, p, true);
            CountFinState(p, true);
            SendFinQuiet(p.CountFin(true), FinWait1, busy);
            QuietKeeps(dev, p.CountFin(true), p.CountFin(true).SendFin(FinWait1, busy));
          } else {
            var payload := data[..Min(Min(c.tcb.RemainingClientWindow(), MAX_PAYLOAD_LENGTH), |data|)];
            DeliverQuiet(p, payload, busy);
            DeliverState(p, payload, busy);
            QuietKeeps(dev, p, p.Deliver(payload, busy));
            var d := p.Deliver(payload, busy);
            if d.deferred.None? {
              ReceiveFromKeepsStream(dev, d, answers, i + 1, busy);
            }
          }
        case ReadBlocks =>
        case ReadFails =>
          SendEmptyQuiet(p, RST, busy);
          QuietKeeps(dev, p, p.SendEmpty(RST, busy).Close());
      }
    }
  }

  lemma TryConnectKeepsStream(dev: Device, c: Conn, io: IoWrite, busy: bool)
    requires c.Ok() && Follows(dev, c)
    ensures Follows(dev, c.TryConnect(io, busy).0)
  {
    hide Conn.SendEmpty;
    hide Conn.Ok;
    hide Follows;
    var b := c.(tcb := c.tcb.(state := SynReceived));
    TcbOk(c, b.tcb);
    SendEmptyQuiet(b, SYN + ACK, busy);
    if c.tcb.state.SynSent? {
      QuietKeeps(dev, c, c.TryConnect(io, busy).0);
    }
  }

  lemma PollKeepsStream(dev: Device, c: Conn, env: PollEnv)
    requires Inv(c) && c.Ok() && Follows(dev, c)
    ensures Follows(dev, c.Poll(env).0)
  {
    hide Inv;
    hide Conn.Ok;
    hide Follows;
    hide Conn.FlushPending;
    hide Conn.ProcessSend;
    hide Conn.ReceiveFrom;
    hide Conn.TryConnect;
    hide Tcb.RemainingClientWindow;
    if !c.closed && c.FlushPending(env.busy).1 {
      FlushPendingKeeps(c, env.busy);
      FlushQuiet(c, env.busy);
      var d := c.FlushPending(env.busy).0;
      QuietKeeps(dev, c, d);
      if d.inbox.contents != [] {
        BufferedMeansConnected(dev, d);
        ProcessSendKeepsStream(dev, d, env.write, env.busy);
      }
      var e := if d.inbox.contents != [] then d.ProcessSend(env.write, env.busy).0 else d;
      if !e.closed && e.MayRead() {
        ReceiveFromKeepsStream(dev, e, env.answers, 0, env.busy);
      }
      var f := if !e.closed && e.MayRead() then e.ReceiveFrom(env.answers, 0, env.busy).0 else e;
      TryConnectKeepsStream(dev, f, env.connect, env.busy);
    }
  }

  lemma BufferedMeansConnected(dev: Device, c: Conn)
    requires Inv(c) && Follows(dev, c) && c.inbox.contents != []
    ensures Rank(c.tcb.state) >= 2
  {
    hide Edges;
    hide Lifecycle;
    hide Numbers;
    hide Downstream;
    hide Packets;
    hide Deferral;
    hide Acceptances;
    assert AcceptedBytes([]) == [];
  }

  // ── runs ──

  lemma {:induction false} RunFollows(dev: Device, c: Conn, events: seq<Event>)
    requires Inv(c) && c.Ok() && Follows(dev, c) && Orderly(dev, c, events)
    ensures Follows(dev, Run(c, events))
    decreases |events|
  {
    hide Inv;
    hide Conn.Ok;
    hide Follows;
    hide Speaks;
    hide Conn.HandlePacket;
    hide Conn.Poll;
    if events != [] {
      var e := events[0];
      StepKeeps(c, e);
      match e {
        case FromDevice(s, random, busy) => HandlePacketKeepsStream(dev, c, s, random, busy);
        case PollSockets(env) => PollKeepsStream(dev, c, env);
        case Elsewhere(q) => QuietKeeps(dev, c, Step(c, e));
      }
      RunFollows(dev, Step(c, e), events[1..]);
    }
  }

  lemma CreateFollows(dev: Device, ipRaw: seq<byte>, tcpRaw: seq<byte>, outbox: Queue)
    requires Opening(ipRaw, tcpRaw, outbox)
    ensures Follows(dev, Create(ipRaw, tcpRaw, outbox))
  {
    assert AcceptedBytes([]) == [] && dev.data[..0] == [];
  }

  /** Main result: with an orderly device, in every run, what was accepted is a beginning of
      its data and the acknowledgement number is right behind it, if and only if every FIN was
      counted at its place, at most once, and no end of the socket was counted. */
  lemma StreamIsGaplessIff(dev: Device, ipRaw: seq<byte>, tcpRaw: seq<byte>, outbox: Queue, events: seq<Event>)
    requires Opening(ipRaw, tcpRaw, outbox)
    requires Orderly(dev, Create(ipRaw, tcpRaw, outbox), events)
    ensures
      var c := Run(Create(ipRaw, tcpRaw, outbox), events);
      && (Gapless(dev, c) <==> CountedInPlace(c))
      && (c.tcb.state != Init ==> c.tcb.acknowledgementNumber == Wrap32(dev.syn + 1 + c.log.Place()))
  {
    hide Inv;
    hide Opening;
    hide Run;
    hide Create;
    hide Follows;
    hide Gapless;
    hide CountedInPlace;
    var start := Create(ipRaw, tcpRaw, outbox);
    CreateInv(ipRaw, tcpRaw, outbox);
    CreateFollows(dev, ipRaw, tcpRaw, outbox);
    RunFollows(dev, start, events);
    RunKeeps(start, events);
    var c := Run(start, events);
    FollowsMeansIff(dev, c);
    InvNumber(c);
    SynIsDevices(dev, c);
  }

  lemma SynIsDevices(dev: Device, c: Conn)
    requires Follows(dev, c)
    ensures c.tcb.state != Init ==> c.tcb.synSequenceNumber == dev.syn
  {
  }

  /** Hence what went to the network, with what is buffered, is then a beginning of what the
      device said: nothing missing, doubled or out of order. */
  lemma NetworkGetsTheStream(dev: Device, ipRaw: seq<byte>, tcpRaw: seq<byte>, outbox: Queue, events: seq<Event>)
    requires Opening(ipRaw, tcpRaw, outbox)
    requires Orderly(dev, Create(ipRaw, tcpRaw, outbox), events)
    requires CountedInPlace(Run(Create(ipRaw, tcpRaw, outbox), events))
    ensures
      var c := Run(Create(ipRaw, tcpRaw, outbox), events);
      c.log.written + c.inbox.contents <= dev.data
  {
    hide Opening;
    hide Run;
    hide Create;
    hide Reached;
    hide AcceptedBytes;
    StreamIsGaplessIff(dev, ipRaw, tcpRaw, outbox, events);
    StartReached(ipRaw, tcpRaw, outbox, events);
    NothingAcceptedIsLost(Run(Create(ipRaw, tcpRaw, outbox), events));
  }

  lemma StartReached(ipRaw: seq<byte>, tcpRaw: seq<byte>, outbox: Queue, events: seq<Event>)
    requires Opening(ipRaw, tcpRaw, outbox)
    ensures Reached(Run(Create(ipRaw, tcpRaw, outbox), events))
  {
    hide Opening;
    hide Run;
    hide Create;
  }

  // ── one FIN ──

  /** A FIN counted in the step that brings it is at its place if and only if its segment has
      no payload: a payload that was not taken is left behind it. */
  lemma FinAtOnceIsInPlaceIff(c: Conn, s: Segment, busy: bool)
    requires c.Ok() && c.tcb.state != Init && !s.IsRst() && s.IsFin()
    requires c.inbox.contents == []
    requires !(s.IsAck() && c.tcb.state != SynReceived && 0 < |s.payload| <= c.inbox.Remaining())
    ensures
      var d := c.HandleExpected(s, busy);
      && d.log.fins == c.log.fins + [FinCount(c.log.Place() + |s.payload|, c.log.Place())]
      && (InPlace(d.log.fins[|c.log.fins|]) <==> s.payload == [])
  {
    hide Conn.SendEmpty;
    hide Conn.SendFin;
    hide Conn.AcceptPayload;
    hide Conn.Ok;
    var b := c.Meet(s);
    SendEmptyQuiet(b, ACK, busy);
    SendEmptyTcb(b, ACK, busy);
    var d := if s.IsAck() then b.HandleAck(s, busy) else b;
    var e := d.(tcb := d.tcb.(finReceived := true));
    TcbOk(d, e.tcb);
    SendEmptyQuiet(e.CountFin(false), ACK, busy);
    SendFinLog(e.CountFin(false), LastAck, busy);
  }

  lemma SendFinLog(c: Conn, next: TcpState, busy: bool)
    requires c.Ok()
    ensures c.SendFin(next, busy).log.fins == c.log.fins
  {
    hide Conn.SendEmpty;
    hide Conn.Ok;
    SendEmptyQuiet(c, FIN + ACK, busy);
  }

  // ── after the end of the socket ──

  /** The acknowledgement number less the ends of the socket counted in it: what the device
      sends next, as far as its bytes and FINs were counted. */
  function WithoutEnds(c: Conn): u32 {
    Wrap32(c.tcb.synSequenceNumber + 1 + c.log.sinceSyn + |c.log.fins|)
  }

  /** After an end of the socket the next segment of the device, its FIN or its ACK of ours
      included, is taken for an old one: it is answered by an ACK and changes nothing else. */
  lemma NextSegmentIsTakenForOld(c: Conn, s: Segment, random: u32, busy: bool)
    requires Reached(c) && c.log.socketEnds > 0 && !s.IsSyn() && s.sequenceNumber == WithoutEnds(c)
    ensures c.Ok() && c.HandlePacket(s, random, busy) == c.SendEmpty(ACK, busy)
    ensures var d := c.HandlePacket(s, random, busy);
      d.tcb == c.tcb && d.inbox == c.inbox && d.closed == c.closed && d.log.accepted == c.log.accepted
  {
    hide Reached;
    hide Inv;
    hide Conn.SendEmpty;
    hide Conn.HandleExpected;
    ReachedInv(c);
    InvOk(c);
    InvNumber(c);
    EndsOfRuns(c);
    OneBehind((c.tcb.synSequenceNumber as int) + 1 + c.log.sinceSyn + |c.log.fins|);
    SendEmptyTcb(c, ACK, busy);
    SendEmptyLog(c, ACK, busy);
  }

  lemma OneBehind(x: int)
    ensures Wrap32(Wrap32(x) - Wrap32(x + 1)) == 0xFFFF_FFFF
  {
  }
}
