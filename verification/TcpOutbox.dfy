/** The shared buffer under the endpoint: what each step puts into it, and the one step
    that overruns it. */
module TcpOutbox {
  import opened Bytes
  import opened Chunks
  import opened Sockets
  import opened StreamBuffers
  import opened Packetizers
  import opened TcpSpec
  import opened TcpInvariant
  import opened TcpSteps
  import opened TcpHandlers
  import opened TcpNetwork
  import opened TcpRuns

  /** The packets handed to the shared buffer on the way from `c` to `d`. */
  function Handed(c: Conn, d: Conn): seq<seq<byte>>
    requires c.log.appended <= d.log.appended
  {
    d.log.appended[|c.log.appended|..]
  }

  /** The shared buffer holds what it held, followed by the packets handed to it. */
  ghost predicate Queued(c: Conn, d: Conn) {
    && c.log.appended <= d.log.appended && c.log.flushes <= d.log.flushes
    && d.outbox == c.outbox.(contents := c.outbox.contents + Flatten(Handed(c, d)))
  }

  lemma QueuedNothing(c: Conn, d: Conn)
    requires d.log.appended == c.log.appended && d.outbox == c.outbox && d.log.flushes == c.log.flushes
    ensures Queued(c, d)
  {
    assert Handed(c, d) == [];
    assert c.outbox.contents + [] == c.outbox.contents;
  }

  lemma QueuedOne(c: Conn, d: Conn, raw: seq<byte>)
    requires d.log.appended == c.log.appended + [raw] && c.log.flushes <= d.log.flushes
    requires d.outbox == c.outbox.(contents := c.outbox.contents + raw)
    ensures Queued(c, d)
  {
    assert Handed(c, d) == [raw];
    assert raw + [] == raw;
  }

  lemma QueuedTwice(c: Conn, d: Conn, e: Conn)
    requires Queued(c, d) && Queued(d, e)
    ensures Queued(c, e)
  {
    assert Handed(c, e) == Handed(c, d) + Handed(d, e);
    FlattenConcat(Handed(c, d), Handed(d, e));
    ConcatAssociates(c.outbox.contents, Flatten(Handed(c, d)), Flatten(Handed(d, e)));
  }

  // ── the steps ──

  lemma SendEmptyQueued(c: Conn, flags: u16, busy: bool)
    requires c.Ok()
    ensures Queued(c, c.SendEmpty(flags, busy))
  {
    hide Pk.UpdateHeaders;
    hide Pk.Build;
    hide Queued;
    var d := c.SendEmpty(flags, busy);
    if d.log.appended == c.log.appended {
      QueuedNothing(c, d);
    } else {
      QueuedOne(c, d, d.log.appended[|c.log.appended|]);
    }
  }

  lemma DeliverQueued(c: Conn, payload: seq<byte>, busy: bool)
    requires c.Ok() && c.deferred.None? && 0 < |payload| <= MAX_PAYLOAD_LENGTH
    ensures Queued(c, c.Deliver(payload, busy))
  {
    hide Pk.Fill;
    hide Pk.Build;
    hide Queued;
    hide FlushedLength;
    var d := c.Deliver(payload, busy);
    if d.log.appended == c.log.appended {
      QueuedNothing(c, d);
    } else {
      QueuedOne(c, d, d.log.appended[|c.log.appended|]);
    }
  }

  lemma SendFinQueued(c: Conn, next: TcpState, busy: bool)
    requires c.Ok()
    ensures Queued(c, c.SendFin(next, busy))
  {
    hide Conn.SendEmpty;
    hide Conn.Ok;
    SendEmptyQueued(c, FIN + ACK, busy);
  }

  lemma DoHandleFinQueued(c: Conn, busy: bool)
    requires c.Ok()
    ensures Queued(c, c.DoHandleFin(busy))
  {
    hide Conn.SendEmpty;
    hide Conn.SendFin;
    hide Conn.Ok;
    var b := c.CountFin(false);
    QueuedNothing(c, b);
    SendFinQueued(b, LastAck, busy);
    SendEmptyQueued(b, ACK, busy);
  }

  lemma HandleAckQueued(c: Conn, s: Segment, busy: bool)
    requires c.Ok()
    ensures Queued(c, c.HandleAck(s, busy))
  {
    hide Conn.SendEmpty;
    hide Conn.Ok;
    QueuedNothing(c, c);
    SendEmptyQueued(c, ACK, busy);
    if |s.payload| <= c.inbox.Remaining() {
      SendEmptyQueued(c.AcceptPayload(s), ACK, busy);
    }
  }

  lemma HandleFinQueued(c: Conn, busy: bool)
    requires c.Ok()
    ensures Queued(c, c.HandleFin(busy))
  {
    hide Conn.DoHandleFin;
    hide Conn.Ok;
    var b := c.(tcb := c.tcb.(finReceived := true));
    TcbOk(c, b.tcb);
    QueuedNothing(c, b);
    DoHandleFinQueued(b, busy);
  }

  lemma HandleExpectedQueued(c: Conn, s: Segment, busy: bool)
    requires c.Ok()
    ensures Queued(c, c.HandleExpected(s, busy))
  {
    hide Conn.HandleAck;
    hide Conn.HandleFin;
    hide Conn.Ok;
    hide Queued;
    var b := c.Meet(s);
    QueuedNothing(c, b);
    QueuedNothing(c, b.Close());
    HandleAckQueued(b, s, busy);
    var d := if s.IsAck() then b.HandleAck(s, busy) else b;
    QueuedNothing(b, b);
    QueuedTwice(c, b, d);
    HandleFinQueued(d, busy);
    QueuedNothing(d, d);
    var e := if s.IsFin() then d.HandleFin(busy) else d;
    QueuedTwice(c, d, e);
    QueuedNothing(e, e.HandleFinAck());
    QueuedTwice(c, e, e.HandleFinAck());
  }

  lemma HandlePacketQueued(c: Conn, s: Segment, random: u32, busy: bool)
    requires c.Ok()
    ensures Queued(c, c.HandlePacket(s, random, busy))
  {
    hide Conn.HandleExpected;
    hide Conn.SendEmpty;
    hide Conn.Ok;
    HandleExpectedQueued(c, s, busy);
    QueuedNothing(c, c);
    var b := c.(tcb := c.tcb.(sequenceNumber := s.acknowledgementNumber));
    TcbOk(c, b.tcb);
    SendEmptyQueued(b, RST, busy);
    SendEmptyQueued(c, RST, busy);
    SendEmptyQueued(c, ACK, busy);
  }

  lemma ProcessSendQueued(c: Conn, io: IoWrite, busy: bool)
    requires c.Ok()
    ensures Queued(c, c.ProcessSend(io, busy).0)
  {
    hide Conn.DoHandleFin;
    hide Conn.SendEmpty;
    hide Conn.Ok;
    hide Queue.WriteResult;
    hide Queue.WriteTo;
    hide Queue.Sent;
    QueuedNothing(c, c);
    OkInbox(c);
    var d := c.DrainInbox(io);
    QueuedNothing(c, d);
    DoHandleFinQueued(d, busy);
    SendEmptyQueued(d, ACK, busy);
    SendEmptyQueued(c, RST, busy);
  }

  lemma PrepareReadQueued(c: Conn)
    requires c.Ok()
    ensures Queued(c, c.PrepareRead())
  {
    hide Pk.UpdateHeaders;
    QueuedNothing(c, c.PrepareRead());
  }

  lemma EofQueued(c: Conn, busy: bool)
    requires c.Ok()
    ensures Queued(c, c.Eof(busy))
  {
    hide Conn.SendFin;
    hide Conn.Ok;
    SendFinQueued(c.CountFin(true), FinWait1, busy);
  }

  lemma ReceiveOneQueued(c: Conn, answer: IoRead, busy: bool)
    requires c.Ok() && c.deferred.None? && c.tcb.RemainingClientWindow() > 0
    ensures Queued(c, c.ReceiveOne(answer, busy).0)
  {
    hide Conn.Ok;
    hide Conn.PrepareRead;
    hide Conn.Deliver;
    hide Conn.Eof;
    hide Conn.SendEmpty;
    hide HeaderReady;
    hide Queued;
    hide Tcb.RemainingClientWindow;
    PrepareReadReady(c);
    PrepareReadQueued(c);
    var p := c.PrepareRead();
    match answer {
      case Arrived(data) =>
        if data == [] {
          EofQueued(p, busy);
          QueuedTwice(c, p, p.Eof(busy));
        } else {
          var payload := data[..Min(Min(c.tcb.RemainingClientWindow(), MAX_PAYLOAD_LENGTH), |data|)];
          DeliverQueued(p, payload, busy);
          QueuedTwice(c, p, p.Deliver(payload, busy));
        }
      case ReadBlocks =>
      case ReadFails =>
        SendEmptyQueued(p, RST, busy);
        QueuedTwice(c, p, p.SendEmpty(RST, busy));
        QueuedNothing(p.SendEmpty(RST, busy), p.SendEmpty(RST, busy).Close());
        QueuedTwice(c, p.SendEmpty(RST, busy), p.SendEmpty(RST, busy).Close());
    }
  }

  lemma {:induction false} ReceiveFromQueued(c: Conn, answers: seq<IoRead>, i: nat, busy: bool)
    requires c.Ok() && i <= MAX_PACKETS_PER_POLL
    ensures Queued(c, c.ReceiveFrom(answers, i, busy).0)
    decreases MAX_PACKETS_PER_POLL - i
  {
    hide Conn.Ok;
    hide Conn.ReceiveOne;
    hide Queued;
    hide Tcb.RemainingClientWindow;
    if i == MAX_PACKETS_PER_POLL || c.deferred.Some? || c.tcb.RemainingClientWindow() == 0 {
      QueuedNothing(c, c);
    } else {
      var answer := if i < |answers| then answers[i] else ReadBlocks;
      ReceiveOneQueued(c, answer, busy);
      var d := c.ReceiveOne(answer, busy).0;
      if c.ReceiveOne(answer, busy).2 {
        ReceiveFromQueued(d, answers, i + 1, busy);
        QueuedTwice(c, d, d.ReceiveFrom(answers, i + 1, busy).0);
      }
    }
  }

  lemma TryConnectQueued(c: Conn, io: IoWrite, busy: bool)
    requires c.Ok()
    ensures Queued(c, c.TryConnect(io, busy).0)
  {
    hide Conn.SendEmpty;
    hide Conn.Ok;
    QueuedNothing(c, c);
    var b := c.(tcb := c.tcb.(state := SynReceived));
    TcbOk(c, b.tcb);
    SendEmptyQueued(b, SYN + ACK, busy);
  }

  /** A poll after its flush. */
  lemma RestOfPollQueued(c: Conn, env: PollEnv)
    requires c.Ok() && !c.closed && c.FlushPending(env.busy).1
    ensures Queued(c.FlushPending(env.busy).0, c.Poll(env).0)
  {
    hide Conn.Ok;
    hide Conn.FlushPending;
    hide Conn.ProcessSend;
    hide Conn.ReceiveFrom;
    hide Conn.TryConnect;
    hide Conn.MayRead;
    hide Queued;
    var d := c.FlushPending(env.busy).0;
    QueuedNothing(d, d);
    ProcessSendQueued(d, env.write, env.busy);
    var e := if d.inbox.contents != [] then d.ProcessSend(env.write, env.busy).0 else d;
    ReceiveFromQueued(e, env.answers, 0, env.busy);
    QueuedNothing(e, e);
    var f := if !e.closed && e.MayRead() then e.ReceiveFrom(env.answers, 0, env.busy).0 else e;
    QueuedTwice(d, e, f);
    TryConnectQueued(f, env.connect, env.busy);
    QueuedTwice(d, f, f.TryConnect(env.connect, env.busy).0);
  }

  // ── the flush ──

  /** The deferred packet is longer than the room that is left, but its header, spoilt by a
      control packet, claims a length that fits. */
  predicate Overruns(c: Conn)
    requires c.outbox.Ok()
  {
    c.deferred.Some? && c.pk.ip.TotalLength() <= c.outbox.Remaining() < c.deferred.value
  }

  lemma FlushQueued(c: Conn, busy: bool)
    requires c.Ok() && (busy || !Overruns(c))
    ensures Queued(c, c.FlushPending(busy).0)
  {
    if c.deferred.Some? && c.FlushPending(busy).1 {
      QueuedOne(c, c.FlushPending(busy).0, c.pk.buf[..c.deferred.value]);
    } else {
      QueuedNothing(c, c.FlushPending(busy).0);
    }
  }

  /** The bytes of an overrunning flush run over everything that was queued. */
  lemma OverrunLosesAll(c: Conn)
    requires c.Ok() && Overruns(c)
    ensures c.deferred.value <= |c.pk.buf|
    ensures
      var (d, flushed) := c.FlushPending(false);
      && flushed && d.log.appended == c.log.appended + [c.pk.buf[..c.deferred.value]]
      && |d.log.flushes| == |c.log.flushes| + 1 && d.log.flushes[|c.log.flushes|].intact == c.log.intact
      && d.outbox == c.outbox.(contents := c.pk.buf[..c.deferred.value][c.outbox.Remaining() + 1..])
  {
  }

  /** A flush that reports success appends its bytes if and only if they fit; they do when
      no header was forged since the packet was deferred. */
  lemma FlushAppendsIff(c: Conn, busy: bool)
    requires Reached(c) && c.deferred.Some?
    ensures c.Ok() && c.deferred.value <= |c.pk.buf|
    ensures c.FlushPending(busy).1 ==>
              (c.FlushPending(busy).0.outbox.contents == c.outbox.contents + c.pk.buf[..c.deferred.value]
               <==> c.log.intact || c.deferred.value <= c.outbox.Remaining())
  {
    hide Reached;
    hide Inv;
    ReachedInv(c);
    InvOk(c);
    IntactLength(c);
    if c.FlushPending(busy).1 && c.deferred.value > c.outbox.Remaining() {
      OverrunLosesAll(c);
    }
  }

  lemma IntactLength(c: Conn)
    requires Inv(c) && c.deferred.Some?
    ensures c.deferred.value <= |c.pk.buf| && (c.log.intact ==> c.pk.ip.TotalLength() == c.deferred.value)
    ensures !c.log.intact ==> c.pk.ip.TotalLength() == c.pk.pi
  {
    hide Upstream;
    hide Edges;
    hide Lifecycle;
    hide Numbers;
    hide Downstream;
    hide Packets;
    hide Pk.Synced;
  }

  // ── every step ──

  /** When a step overruns the shared buffer. */
  predicate StepOverruns(c: Conn, e: Event)
    requires c.Ok()
  {
    e.PollSockets? && !c.closed && !e.env.busy && Overruns(c)
  }

  lemma OverrunIsNotQueued(c: Conn, d: Conn, e: Conn)
    requires c.outbox.Ok() && c.deferred.Some? && c.deferred.value <= |c.pk.buf|
    requires c.outbox.Remaining() < c.deferred.value
    requires d.log.appended == c.log.appended + [c.pk.buf[..c.deferred.value]]
    requires d.outbox == c.outbox.(contents := c.pk.buf[..c.deferred.value][c.outbox.Remaining() + 1..])
    requires Queued(d, e)
    ensures !Queued(c, e)
  {
    var raw := c.pk.buf[..c.deferred.value];
    if c.log.appended <= e.log.appended {
      assert Handed(c, e) == [raw] + Handed(d, e);
      FlattenUnfolds(Handed(c, e));
      assert Handed(c, e)[1..] == Handed(d, e);
      assert |e.outbox.contents| < |c.outbox.contents + Flatten(Handed(c, e))|;
    }
  }

  /** The shared buffer follows the history: after every step it holds what it held and the
      packets the step handed to it, if and only if the step is no flush of a spoilt packet
      that is longer than the room left. */
  lemma SharedBufferFollowsIff(c: Conn, e: Event)
    requires c.Ok() && !e.Elsewhere?
    ensures Queued(c, Step(c, e)) <==> !StepOverruns(c, e)
  {
    hide Conn.HandlePacket;
    hide Conn.Ok;
    hide Queued;
    match e {
      case FromDevice(s, random, busy) => HandlePacketQueued(c, s, random, busy);
      case PollSockets(env) => PollFollowsIff(c, env);
    }
  }

  lemma PollFollowsIff(c: Conn, env: PollEnv)
    requires c.Ok()
    ensures Queued(c, c.Poll(env).0) <==> !StepOverruns(c, PollSockets(env))
  {
    hide Queued;
    if c.closed || !c.FlushPending(env.busy).1 {
      hide Queue.Append;
      NotFlushed(c, env);
      QueuedNothing(c, c);
    } else {
      RestOfPollQueued(c, env);
      hide Conn.Poll;
      var d := c.FlushPending(env.busy).0;
      if StepOverruns(c, PollSockets(env)) {
        OverrunLosesAll(c);
        OverrunIsNotQueued(c, d, c.Poll(env).0);
      } else {
        FlushQueued(c, env.busy);
        QueuedTwice(c, d, c.Poll(env).0);
      }
    }
  }

  /** An overrun leaves a spoilt flush in the history. */
  lemma OverrunIsRecorded(c: Conn, e: Event)
    requires Inv(c) && c.Ok() && StepOverruns(c, e)
    ensures !AllIntact(Step(c, e).log.flushes)
  {
    hide Inv;
    hide Conn.Poll;
    hide Conn.FlushPending;
    IntactLength(c);
    OverrunLosesAll(c);
    RestOfPollQueued(c, e.env);
    var flushes := Step(c, e).log.flushes;
    assert c.FlushPending(false).0.log.flushes <= flushes;
    assert flushes[|c.log.flushes|] == c.FlushPending(false).0.log.flushes[|c.log.flushes|];
  }

  lemma NotFlushed(c: Conn, env: PollEnv)
    requires c.Ok() && (c.closed || !c.FlushPending(env.busy).1)
    ensures c.Poll(env).0 == c && !StepOverruns(c, PollSockets(env))
  {
    hide Queue.Append;
    hide Conn.ProcessSend;
    hide Conn.ReceiveFrom;
    hide Conn.TryConnect;
  }

  // ── what the device is told ──

  /** The header of a packet as the device reads it. */
  ghost predicate Says(raw: seq<byte>, sequence: u32, ack: u32, flags: u16, window: u16) {
    && Whole(raw) && ParsePacket(raw).value.transport.TcpData?
    && var t := ParsePacket(raw).value.transport;
    && t.sequenceNumber == sequence && t.acknowledgementNumber == ack && t.flags == flags && t.window == window
  }

  /** A control packet says what the control block says, and is queued whole exactly when the
      shared buffer is free and has room for it. */
  lemma ControlPacketSays(c: Conn, flags: u16, busy: bool)
    requires c.Ok() && c.pk.Synced() && flags < 0x200
    ensures
      var d := c.SendEmpty(flags, busy);
      if !busy && c.pk.pi <= c.outbox.Remaining() then
        && |d.log.appended| == |c.log.appended| + 1
        && var raw := d.log.appended[|c.log.appended|];
        && d.log.appended == c.log.appended + [raw]
        && Says(raw, c.tcb.sequenceNumber, c.tcb.acknowledgementNumber, flags, c.AdvertisedWindow())
        && d.outbox.contents == c.outbox.contents + raw
      else d.outbox == c.outbox
  {
    hide Pk.UpdateHeaders;
    hide Pk.Build;
    hide ParsePacket;
    hide Pk.Synced;
    hide Whole;
    ForgeEffect(c, flags);
    var f := c.Forge(flags);
    BuildIsWhole(f.pk, 0);
    ForgedParses(f.pk);
  }

  /** A SYN or FIN is handed over exactly when the shared buffer is free and has room. */
  lemma ControlIsHandedIff(c: Conn, flags: u16, busy: bool)
    requires c.Ok() && c.pk.Synced() && flags < 0x200
    ensures
      var d := c.SendEmpty(flags, busy);
      var fits := !busy && c.pk.pi <= c.outbox.Remaining();
      var (before, after) := (c.log.appended, d.log.appended);
      && SynsHanded(after, c.pk.pi) == SynsHanded(before, c.pk.pi) + (if fits then flags / 2 % 2 else 0)
      && FinsHanded(after, c.pk.pi) == FinsHanded(before, c.pk.pi) + (if fits then flags % 2 else 0)
  {
    hide Pk.Synced;
    hide ControlFlags;
    hide SynsHanded;
    hide FinsHanded;
    hide Whole;
    SendEmptyFits(c, flags, busy);
    SendEmptyEffect(c, flags, busy);
    var d := c.SendEmpty(flags, busy);
    if d.log.appended != c.log.appended {
      HandedGrows(c.log.appended, d.log.appended[|c.log.appended|], c.pk.pi);
    }
  }

  lemma SendEmptyFits(c: Conn, flags: u16, busy: bool)
    requires c.Ok()
    ensures var d := c.SendEmpty(flags, busy);
      (!busy && c.pk.pi <= c.outbox.Remaining() <==> |d.log.appended| == |c.log.appended| + 1)
      && (!(!busy && c.pk.pi <= c.outbox.Remaining()) ==> d.log.appended == c.log.appended)
  {
    hide Pk.UpdateHeaders;
    hide Pk.Build;
    hide Queue.Append;
  }

  /** When the socket connects, the endpoint counts its SYN; the SYN-ACK is lost if and only if
      the shared buffer is borrowed or has no room for it. */
  lemma SynAckIsLostIff(c: Conn, busy: bool)
    requires Reached(c) && c.tcb.state == SynSent
    ensures c.Ok()
    ensures
      var d := c.ProcessConnect(busy);
      && d.tcb.state == SynReceived && d.tcb.sequenceNumber == Wrap32(c.tcb.sequenceNumber + 1)
      && (SynsHanded(d.log.appended, d.pk.pi) == 0 <==> busy || c.pk.pi > c.outbox.Remaining())
  {
    hide Reached;
    hide Inv;
    hide Conn.SendEmpty;
    hide SynsHanded;
    hide FinsHanded;
    hide Pk.Synced;
    ReachedInv(c);
    InvOk(c);
    InvSynced(c);
    LostControlsOfRuns(c);
    LifecycleOfRuns(c);
    var b := c.(tcb := c.tcb.(state := SynReceived));
    TcbOk(c, b.tcb);
    ControlIsHandedIff(b, SYN + ACK, busy);
    SendEmptyTcb(b, SYN + ACK, busy);
  }

  /** The device's repeated SYN does not bring a lost SYN-ACK back: it is ignored. */
  lemma RepeatedSynIsIgnored(c: Conn, s: Segment, random: u32, busy: bool)
    requires c.Ok() && Rank(c.tcb.state) >= 2 && s.IsSyn() && s.sequenceNumber == c.tcb.synSequenceNumber
    ensures c.HandlePacket(s, random, busy) == c
  {
    hide Conn.SendEmpty;
    hide Conn.HandleExpected;
    hide Conn.HandleFirstPacket;
  }

  /** An accepted payload is answered, whatever else the segment carries: when the shared
      buffer is free and has room, the next packet in it is an ACK of the number behind the
      payload, with the room then left as its window. */
  lemma AcceptedPayloadIsAnswered(c: Conn, s: Segment, random: u32, busy: bool)
    requires Reached(c) && Accepts(c, s) && !busy && c.Ok() && c.pk.pi <= c.outbox.Remaining()
    ensures
      var d := c.HandlePacket(s, random, busy);
      && |d.log.appended| > |c.log.appended|
      && var raw := d.log.appended[|c.log.appended|];
      && Says(raw, c.tcb.sequenceNumber, Wrap32(c.tcb.acknowledgementNumber + |s.payload|), ACK,
              Min(c.inbox.Remaining() - |s.payload|, 0xFFFF))
      && c.outbox.contents + raw <= d.outbox.contents
  {
    hide Reached;
    hide Inv;
    hide Conn.SendEmpty;
    hide Conn.HandleFin;
    hide Conn.Ok;
    hide Says;
    hide Pk.Synced;
    ReachedInv(c);
    InvSynced(c);
    var b := c.Meet(s);
    AcceptedForAnswer(b, s);
    var a := b.AcceptPayload(s);
    ControlPacketSays(a, ACK, busy);
    var e := a.SendEmpty(ACK, busy);
    HandleFinQueued(e, busy);
    var f := if s.IsFin() then e.HandleFin(busy) else e;
    QueuedNothing(e, e);
    QueuedNothing(f, f.HandleFinAck());
    QueuedTwice(e, f, f.HandleFinAck());
    assert c.HandlePacket(s, random, busy) == f || c.HandlePacket(s, random, busy) == f.HandleFinAck();
  }

  /** A segment away from the expected number changes neither the control block nor the
      inbox. An old one is answered by one ACK of the current numbers and window, when the
      shared buffer takes it; one from the future by nothing. */
  lemma OutOfOrderIsAnswered(c: Conn, s: Segment, random: u32, busy: bool)
    requires Reached(c) && c.tcb.state != Init && !s.IsSyn() && s.sequenceNumber != c.tcb.acknowledgementNumber
    ensures c.Ok()
    ensures
      var d := c.HandlePacket(s, random, busy);
      var past := Wrap32(s.sequenceNumber - c.tcb.acknowledgementNumber) >= 0x8000_0000;
      && d.tcb == c.tcb && d.inbox == c.inbox && d.closed == c.closed && d.log.accepted == c.log.accepted
      && (!past ==> d == c)
      && (past && !busy && c.pk.pi <= c.outbox.Remaining() ==>
            && |d.log.appended| == |c.log.appended| + 1
            && var raw := d.log.appended[|c.log.appended|];
            && d.outbox.contents == c.outbox.contents + raw
            && Says(raw, c.tcb.sequenceNumber, c.tcb.acknowledgementNumber, ACK, c.AdvertisedWindow()))
  {
    hide Reached;
    hide Inv;
    hide Conn.SendEmpty;
    hide Says;
    hide Pk.Synced;
    ReachedInv(c);
    InvOk(c);
    InvSynced(c);
    ControlPacketSays(c, ACK, busy);
    SendEmptyTcb(c, ACK, busy);
    SendEmptyLog(c, ACK, busy);
  }

  lemma InvSynced(c: Conn)
    requires Inv(c)
    ensures c.pk.Synced()
  {
    hide Upstream;
    hide Edges;
    hide Lifecycle;
    hide Numbers;
    hide Downstream;
    hide Packets;
    DeferralSynced(c);
  }

  lemma AcceptedForAnswer(c: Conn, s: Segment)
    requires c.Ok() && |s.payload| <= c.inbox.Remaining()
    ensures
      var a := c.AcceptPayload(s);
      && a.pk == c.pk && a.outbox == c.outbox && a.log.appended == c.log.appended
      && a.tcb == c.tcb.(acknowledgementNumber := Wrap32(c.tcb.acknowledgementNumber + |s.payload|))
      && a.Ok() && a.AdvertisedWindow() == Min(c.inbox.Remaining() - |s.payload|, 0xFFFF)
  {
  }
}
