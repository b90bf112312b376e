/** The client's window as the device told it: taken from the events of a run, not from the
    control block. */
module TcpWindow {
  import opened Bytes
  import opened Sockets
  import opened StreamBuffers
  import opened Packetizers
  import opened TcpSpec
  import opened TcpInvariant
  import opened TcpHandlers
  import opened TcpNetwork
  import opened TcpRuns
  import opened TcpReading

  /** A window and the number behind which it lies. */
  datatype Told = Told(window: u16, acknowledged: u32)

  const NOTHING_TOLD := Told(0, 0)

  /** What a packet tells: the first SYN its window, a packet at the expected number both, any
      other packet nothing. */
  function Hear(c: Conn, told: Told, e: Event): Told {
    if !e.FromDevice? then told
    else if c.tcb.state == Init then
      if e.segment.IsSyn() then Told(e.segment.window, told.acknowledged) else told
    else if !e.segment.IsSyn() && e.segment.sequenceNumber == c.tcb.acknowledgementNumber then
      Told(e.segment.window, e.segment.acknowledgementNumber)
    else told
  }

  /** What the device told last in a run. */
  function LastTold(c: Conn, told: Told, events: seq<Event>): Told
    requires c.Ok()
    decreases |events|
  {
    if events == [] then told else LastTold(Step(c, events[0]), Hear(c, told, events[0]), events[1..])
  }

  function Stored(c: Conn): Told {
    Told(c.tcb.clientWindow, c.tcb.theirAcknowledgementNumber)
  }

  // ── steps ──

  lemma SendEmptyStored(c: Conn, flags: u16, busy: bool)
    requires c.Ok()
    ensures Stored(c.SendEmpty(flags, busy)) == Stored(c)
  {
    hide Conn.Ok;
    hide Conn.Forge;
    hide Conn.BuildEmpty;
    SendEmptyTcb(c, flags, busy);
  }

  lemma SendFinStored(c: Conn, next: TcpState, busy: bool)
    requires c.Ok()
    ensures Stored(c.SendFin(next, busy)) == Stored(c)
  {
    hide Conn.SendEmpty;
    hide Conn.Ok;
    SendEmptyStored(c, FIN + ACK, busy);
  }

  lemma DoHandleFinStored(c: Conn, busy: bool)
    requires c.Ok()
    ensures Stored(c.DoHandleFin(busy)) == Stored(c)
  {
    hide Conn.SendEmpty;
    hide Conn.SendFin;
    hide Conn.Ok;
    SendEmptyStored(c.CountFin(false), ACK, busy);
    SendFinStored(c.CountFin(false), LastAck, busy);
  }

  lemma HandleFinStored(c: Conn, busy: bool)
    requires c.Ok()
    ensures Stored(c.HandleFin(busy)) == Stored(c)
  {
    hide Conn.DoHandleFin;
    hide Conn.Ok;
    var b := c.(tcb := c.tcb.(finReceived := true));
    TcbOk(c, b.tcb);
    DoHandleFinStored(b, busy);
  }

  lemma HandleAckStored(c: Conn, s: Segment, busy: bool)
    requires c.Ok()
    ensures Stored(c.HandleAck(s, busy)) == Stored(c)
  {
    hide Conn.SendEmpty;
    hide Conn.Ok;
    SendEmptyStored(c, ACK, busy);
    if |s.payload| <= c.inbox.Remaining() {
      SendEmptyStored(c.AcceptPayload(s), ACK, busy);
    }
  }

  /** A segment at the expected number that is no SYN sets window and acknowledgement to what
      it says, a zero window included; the first SYN sets the window; nothing else does. */
  lemma PacketTells(c: Conn, s: Segment, random: u32, busy: bool)
    requires c.Ok()
    ensures Stored(c.HandlePacket(s, random, busy)) == Hear(c, Stored(c), FromDevice(s, random, busy))
  {
    hide Conn.SendEmpty;
    hide Conn.HandleAck;
    hide Conn.HandleFin;
    hide Conn.Ok;
    SendEmptyStored(c, RST, busy);
    SendEmptyStored(c, ACK, busy);
    var b := c.(tcb := c.tcb.(sequenceNumber := s.acknowledgementNumber));
    TcbOk(c, b.tcb);
    SendEmptyStored(b, RST, busy);
    var m := c.Meet(s);
    HandleAckStored(m, s, busy);
    HandleFinStored(if s.IsAck() then m.HandleAck(s, busy) else m, busy);
  }

  lemma ProcessSendStored(c: Conn, io: IoWrite, busy: bool)
    requires c.Ok()
    ensures Stored(c.ProcessSend(io, busy).0) == Stored(c)
  {
    hide Conn.DoHandleFin;
    hide Conn.SendEmpty;
    hide Conn.Ok;
    hide Queue.WriteResult;
    hide Queue.WriteTo;
    hide Queue.Sent;
    OkInbox(c);
    var d := c.DrainInbox(io);
    DoHandleFinStored(d, busy);
    SendEmptyStored(d, ACK, busy);
    SendEmptyStored(c, RST, busy);
  }

  lemma {:induction false} ReceiveFromStored(c: Conn, answers: seq<IoRead>, i: nat, busy: bool)
    requires c.Ok() && i <= MAX_PACKETS_PER_POLL
    ensures Stored(c.ReceiveFrom(answers, i, busy).0) == Stored(c)
    decreases MAX_PACKETS_PER_POLL - i
  {
    hide Conn.Ok;
    hide Conn.PrepareRead;
    hide Conn.Deliver;
    hide Conn.SendFin;
    hide Conn.SendEmpty;
    hide HeaderReady;
    hide Tcb.RemainingClientWindow;
    if i == MAX_PACKETS_PER_POLL || c.deferred.Some? || c.tcb.RemainingClientWindow() == 0 {
    } else {
      PrepareReadReady(c);
      PrepareReadSame(c);
      var p := c.PrepareRead();
      match AnswerAt(answers, i) {
        case Arrived(data) =>
          if data == [] {
            SendFinStored(p.CountFin(true), FinWait1, busy);
          } else {
            var payload := Portion(data, c.tcb.RemainingClientWindow());
            DeliverIsDirectIff(p, payload, busy);
            var e := p.Deliver(payload, busy);
            if e.deferred.None? {
              ReceiveFromStored(e, answers, i + 1, busy);
            }
          }
        case ReadBlocks =>
        case ReadFails => SendEmptyStored(p, RST, busy);
      }
    }
  }

  lemma FlushStored(c: Conn, busy: bool)
    requires c.Ok()
    ensures var f := c.FlushPending(busy).0; Stored(f) == Stored(c) && f.log.built == c.log.built
  {
    hide Queue.Append;
  }

  lemma TryConnectStored(c: Conn, io: IoWrite, busy: bool)
    requires c.Ok()
    ensures Stored(c.TryConnect(io, busy).0) == Stored(c)
  {
    hide Conn.SendEmpty;
    hide Conn.Ok;
    var b := c.(tcb := c.tcb.(state := SynReceived));
    TcbOk(c, b.tcb);
    SendEmptyStored(b, SYN + ACK, busy);
  }

  lemma PollStored(c: Conn, env: PollEnv)
    requires c.Ok()
    ensures Stored(c.Poll(env).0) == Stored(c)
  {
    hide Conn.Ok;
    hide Conn.FlushPending;
    hide Conn.ProcessSend;
    hide Conn.ReceiveFrom;
    hide Conn.TryConnect;
    hide Conn.MayRead;
    FlushStored(c, env.busy);
    var f := c.FlushPending(env.busy).0;
    ProcessSendStored(f, env.write, env.busy);
    var e := Written(c, env);
    ReceiveFromStored(e, env.answers, 0, env.busy);
    TryConnectStored(e, env.connect, env.busy);
    TryConnectStored(e.ReceiveFrom(env.answers, 0, env.busy).0, env.connect, env.busy);
  }

  // ── runs ──

  lemma {:induction false} ToldIsStored(c: Conn, events: seq<Event>)
    requires c.Ok()
    ensures Stored(Run(c, events)) == LastTold(c, Stored(c), events)
    decreases |events|
  {
    hide Conn.Ok;
    hide Conn.HandlePacket;
    hide Conn.Poll;
    hide Stored;
    hide Hear;
    if events != [] {
      StepTells(c, events[0]);
      ToldIsStored(Step(c, events[0]), events[1..]);
    }
  }

  lemma StepTells(c: Conn, e: Event)
    requires c.Ok()
    ensures Stored(Step(c, e)) == Hear(c, Stored(c), e)
  {
    hide Conn.Ok;
    hide Conn.HandlePacket;
    hide Conn.Poll;
    match e {
      case FromDevice(s, random, busy) => PacketTells(c, s, random, busy);
      case PollSockets(env) => PollStored(c, env);
      case Elsewhere(q) =>
    }
  }

  // ── data packets ──

  /** A poll builds inside the stored window, and nothing when that is zero. */
  lemma {:induction false} LoopBuildsInWindow(c: Conn, answers: seq<IoRead>, i: nat, busy: bool)
    requires c.Ok() && i <= MAX_PACKETS_PER_POLL
    ensures
      var d := c.ReceiveFrom(answers, i, busy).0;
      && c.log.built <= d.log.built
      && (forall k :: |c.log.built| <= k < |d.log.built| ==> EndsInside(d.log.built[k], Stored(c)))
    decreases MAX_PACKETS_PER_POLL - i
  {
    hide Conn.Ok;
    hide Conn.PrepareRead;
    hide Conn.Deliver;
    hide Conn.Eof;
    hide Conn.SendEmpty;
    hide Conn.Close;
    hide HeaderReady;
    hide EndsInside;
    hide Tcb.RemainingClientWindow;
    if i == MAX_PACKETS_PER_POLL || c.deferred.Some? || c.tcb.RemainingClientWindow() == 0 {
    } else {
      PrepareReadReady(c);
      PrepareReadSame(c);
      var p := c.PrepareRead();
      match AnswerAt(answers, i) {
        case Arrived(data) =>
          if data == [] {
            EofSame(p, busy);
          } else {
            var payload := Portion(data, c.tcb.RemainingClientWindow());
            DeliverIsDirectIff(p, payload, busy);
            BuiltInWindow(p, payload, busy);
            var e := p.Deliver(payload, busy);
            if e.deferred.None? {
              LoopBuildsInWindow(e, answers, i + 1, busy);
            }
          }
        case ReadBlocks =>
        case ReadFails => ResetSame(p, busy);
      }
    }
  }

  /** The packet's last byte lies within the window, counted from the number acknowledged. */
  ghost predicate EndsInside(b: Built, told: Told) {
    && 0 < |b.payload| && told.window > 0
    && Wrap32(b.tcb.sequenceNumber + |b.payload| - told.acknowledged) <= told.window
  }

  lemma BuiltInWindow(c: Conn, payload: seq<byte>, busy: bool)
    requires c.Ok() && c.deferred.None? && 0 < |payload| <= MAX_PAYLOAD_LENGTH
    requires |payload| <= c.tcb.RemainingClientWindow()
    ensures
      var d := c.Deliver(payload, busy);
      && |d.log.built| == |c.log.built| + 1 && EndsInside(d.log.built[|c.log.built|], Stored(c))
      && (d.deferred.None? ==> Stored(d) == Stored(c))
  {
    hide Pk.Fill;
    hide Pk.Build;
    hide FlushedLength;
    var t := c.tcb;
    InWindow(t.theirAcknowledgementNumber, t.clientWindow, t.sequenceNumber, |payload|);
  }

  lemma InWindow(acknowledged: u32, window: u16, sequence: u32, n: nat)
    ensures (0 < n <= Wrap32(acknowledged + window - sequence) <= window) ==>
              Wrap32(sequence + n - acknowledged) <= window
  {
  }

  lemma PollBuildsInWindow(c: Conn, env: PollEnv)
    requires c.Ok()
    ensures
      var d := c.Poll(env).0;
      && c.log.built <= d.log.built
      && (forall k :: |c.log.built| <= k < |d.log.built| ==> EndsInside(d.log.built[k], Stored(c)))
  {
    hide Conn.Ok;
    hide Conn.FlushPending;
    hide Conn.ProcessSend;
    hide Conn.ReceiveFrom;
    hide Conn.TryConnect;
    hide Conn.MayRead;
    hide EndsInside;
    FlushStored(c, env.busy);
    var f := c.FlushPending(env.busy).0;
    ProcessSendStored(f, env.write, env.busy);
    ProcessSendBuilt(f, env.write, env.busy);
    var e := Written(c, env);
    LoopBuildsInWindow(e, env.answers, 0, env.busy);
    TryConnectReads(e, env.connect, env.busy);
    TryConnectReads(e.ReceiveFrom(env.answers, 0, env.busy).0, env.connect, env.busy);
  }

  lemma ProcessSendBuilt(c: Conn, io: IoWrite, busy: bool)
    requires c.Ok()
    ensures c.ProcessSend(io, busy).0.log.built == c.log.built
  {
    hide Conn.SendEmpty;
    hide Conn.Ok;
    hide Queue.WriteResult;
    hide Queue.WriteTo;
    hide Queue.Sent;
    OkInbox(c);
    var d := c.DrainInbox(io);
    var f := d.CountFin(false);
    SendEmptyBuilt(d, ACK, busy);
    SendEmptyBuilt(c, RST, busy);
    SendEmptyBuilt(f, ACK, busy);
    SendEmptyBuilt(f, FIN + ACK, busy);
  }

  lemma PacketBuildsNothing(c: Conn, s: Segment, random: u32, busy: bool)
    requires c.Ok()
    ensures c.HandlePacket(s, random, busy).log.built == c.log.built
  {
    hide Conn.SendEmpty;
    hide Conn.Ok;
    hide Conn.HandleAck;
    hide Conn.HandleFin;
    SendEmptyBuilt(c, RST, busy);
    SendEmptyBuilt(c, ACK, busy);
    var b := c.(tcb := c.tcb.(sequenceNumber := s.acknowledgementNumber));
    TcbOk(c, b.tcb);
    SendEmptyBuilt(b, RST, busy);
    var m := c.Meet(s);
    HandleAckBuilt(m, s, busy);
    HandleFinBuilt(if s.IsAck() then m.HandleAck(s, busy) else m, busy);
  }

  lemma HandleAckBuilt(c: Conn, s: Segment, busy: bool)
    requires c.Ok()
    ensures c.HandleAck(s, busy).log.built == c.log.built
  {
    hide Conn.SendEmpty;
    hide Conn.Ok;
    SendEmptyBuilt(c, ACK, busy);
    if |s.payload| <= c.inbox.Remaining() {
      SendEmptyBuilt(c.AcceptPayload(s), ACK, busy);
    }
  }

  lemma HandleFinBuilt(c: Conn, busy: bool)
    requires c.Ok()
    ensures c.HandleFin(busy).log.built == c.log.built
  {
    hide Conn.SendEmpty;
    hide Conn.Ok;
    var b := c.(tcb := c.tcb.(finReceived := true));
    TcbOk(c, b.tcb);
    SendEmptyBuilt(b.CountFin(false), ACK, busy);
    SendEmptyBuilt(b.CountFin(false), FIN + ACK, busy);
  }

  /** Over whole runs: every data packet is built by a poll and ends inside the window that the
      device told last before it; when that is zero, the poll builds none. */
  lemma DataStaysInToldWindow(ipRaw: seq<byte>, tcpRaw: seq<byte>, outbox: Queue, events: seq<Event>, e: Event)
    requires Opening(ipRaw, tcpRaw, outbox)
    ensures
      var start := Create(ipRaw, tcpRaw, outbox);
      var c := Run(start, events);
      var d := Step(c, e);
      var told := LastTold(start, NOTHING_TOLD, events);
      && c.log.built <= d.log.built
      && (forall k :: |c.log.built| <= k < |d.log.built| ==> e.PollSockets? && EndsInside(d.log.built[k], told))
      && (told.window == 0 ==> d.log.built == c.log.built)
  {
    hide Run;
    hide Opening;
    hide Conn.Poll;
    hide Conn.HandlePacket;
    hide Conn.Ok;
    hide LastTold;
    var start := Create(ipRaw, tcpRaw, outbox);
    var c := Run(start, events);
    NothingStored(ipRaw, tcpRaw, outbox);
    ToldIsStored(start, events);
    match e {
      case FromDevice(s, random, busy) => PacketBuildsNothing(c, s, random, busy);
      case PollSockets(env) => PollBuildsInWindow(c, env);
      case Elsewhere(q) =>
    }
    var d := Step(c, e);
    ZeroWindowHoldsNothing(d.log.built, |c.log.built|, Stored(c));
  }

  lemma ZeroWindowHoldsNothing(built: seq<Built>, from: nat, told: Told)
    requires from <= |built| && forall k :: from <= k < |built| ==> EndsInside(built[k], told)
    ensures told.window == 0 ==> |built| == from
  {
    if |built| > from {
      assert EndsInside(built[from], told);
    }
  }

  lemma NothingStored(ipRaw: seq<byte>, tcpRaw: seq<byte>, outbox: Queue)
    requires Opening(ipRaw, tcpRaw, outbox)
    ensures Stored(Create(ipRaw, tcpRaw, outbox)) == NOTHING_TOLD
  {
  }
}
