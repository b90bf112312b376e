/** Runs, possible for every opening packet, in which a full shared buffer does harm: the
    deferred packet is spoilt, it overruns the buffer, it throws the sequence number off, and
    the SYN-ACK is lost. */
module TcpSpoiled {
  import opened Bytes
  import opened Sockets
  import opened StreamBuffers
  import opened Packetizers
  import opened TcpSpec
  import opened TcpInvariant
  import opened TcpHandlers
  import opened TcpNetwork
  import opened TcpRuns
  import opened TcpOutbox

  function Holding(size: nat, capacity: nat): Queue {
    Queue(seq(size, _ => 0 as byte), 0, capacity)
  }

  const QUIET := PollEnv(false, WriteBlocks, [], WriteBlocks)
  const OLD := Segment(0, 1, ACK, 1000, [])

  /** A SYN, the connection of the socket, the device's ACK, other connections filling the
      shared buffer, and one byte from the network. */
  function Deferring(capacity: nat): seq<Event> {
    [FromDevice(Segment(0, 0, SYN, 1000, []), 0, false),
     PollSockets(PollEnv(false, WriteBlocks, [], Took(0))),
     FromDevice(Segment(1, 1, ACK, 1000, []), 0, false),
     Elsewhere(Holding(capacity, capacity)),
     PollSockets(PollEnv(false, WriteBlocks, [Arrived([0])], WriteBlocks))]
  }

  const SYNCHRONIZED := Tcb(SynSent, 0, 0, 1, 0, None, false, 1000)
  const CONNECTED := Tcb(SynReceived, 0, 1, 1, 0, None, false, 1000)
  const OPENED := Tcb(Established, 0, 1, 1, 1, None, false, 1000)

  ghost predicate Calm(c: Conn, tcb: Tcb, pi: nat, capacity: nat) {
    && c.Ok() && c.tcb == tcb && c.inbox.contents == [] && c.deferred.None? && !c.closed
    && c.pk.pi == pi && c.outbox.capacity == capacity && c.log.flushes == [] && c.log.accepted == []
  }

  lemma SynArrives(c: Conn, pi: nat, capacity: nat)
    requires Calm(c, NEW_TCB, pi, capacity)
    ensures Calm(Step(c, Deferring(capacity)[0]), SYNCHRONIZED, pi, capacity)
  {
    hide Conn.Ok;
    hide Conn.Poll;
    hide Conn.SendEmpty;
    hide Conn.HandleDuplicateSyn;
    hide Conn.HandleExpected;
    assert Deferring(capacity)[0].segment.IsSyn();
  }

  lemma SendEmptyCalm(c: Conn, flags: u16, pi: nat, capacity: nat)
    requires Calm(c, c.tcb, pi, capacity)
    ensures Calm(c.SendEmpty(flags, false), c.tcb, pi, capacity)
  {
    hide Pk.UpdateHeaders;
    hide Pk.Build;
  }

  lemma SocketConnects(c: Conn, pi: nat, capacity: nat)
    requires Calm(c, SYNCHRONIZED, pi, capacity)
    ensures Calm(Step(c, Deferring(capacity)[1]), CONNECTED, pi, capacity)
  {
    hide Conn.SendEmpty;
    hide Conn.Ok;
    var b := c.(tcb := c.tcb.(state := SynReceived));
    TcbOk(c, b.tcb);
    SendEmptyCalm(b, SYN + ACK, pi, capacity);
    var d := b.SendEmpty(SYN + ACK, false);
    TcbOk(d, CONNECTED);
  }

  lemma AckArrives(c: Conn, pi: nat, capacity: nat)
    requires Calm(c, CONNECTED, pi, capacity)
    ensures Calm(Step(c, Deferring(capacity)[2]), OPENED, pi, capacity)
  {
    hide Conn.Ok;
    hide Conn.Poll;
    hide Conn.SendEmpty;
    hide Conn.HandleFirstPacket;
    hide Conn.HandleDuplicateSyn;
    hide Conn.HandleFin;
    hide Conn.AcceptPayload;
    var s := Deferring(capacity)[2].segment;
    assert !s.IsSyn() && !s.IsRst() && s.IsAck() && !s.IsFin();
  }

  lemma BufferFills(c: Conn, pi: nat, capacity: nat)
    requires Calm(c, OPENED, pi, capacity)
    ensures var d := Step(c, Deferring(capacity)[3]);
      Calm(d, OPENED, pi, capacity) && d.outbox.Remaining() == 0
  {
  }

  /** One byte is deferred, after which nothing else has happened. */
  ghost predicate Waiting(c: Conn, pi: nat, capacity: nat) {
    && c.Ok() && c.tcb == OPENED && c.inbox.contents == [] && !c.closed
    && c.deferred == Some(pi + 1) && c.pk.pi == pi && c.outbox.capacity == capacity && c.log.flushes == []
  }

  lemma ByteIsDeferred(c: Conn, pi: nat, capacity: nat)
    requires Calm(c, OPENED, pi, capacity) && c.outbox.Remaining() == 0
    ensures Waiting(Step(c, Deferring(capacity)[4]), pi, capacity)
  {
    hide Conn.PrepareRead;
    hide Conn.Deliver;
    hide HeaderReady;
    hide Conn.Ok;
    PrepareReadReady(c);
    var p := c.PrepareRead();
    PrepareReadRoom(c);
    PrepareReadLog(c);
    assert [0 as byte][..1] == [0];
    FullDefers(p, [0]);
    var d := p.Deliver([0], false);
    assert c.ReceiveOne(Arrived([0]), false) == (d, false, false);
    assert c.ReceiveFrom([Arrived([0])], 0, false) == (d, false);
    assert c.MayRead();
  }

  lemma PrepareReadRoom(c: Conn)
    requires c.Ok()
    ensures c.PrepareRead().outbox == c.outbox && c.PrepareRead().inbox == c.inbox
  {
    hide Pk.UpdateHeaders;
  }

  lemma FullDefers(c: Conn, payload: seq<byte>)
    requires c.Ok() && c.deferred.None? && 0 < |payload| <= MAX_PAYLOAD_LENGTH && c.outbox.Remaining() == 0
    ensures var d := c.Deliver(payload, false);
      && d.deferred == Some(c.pk.pi + |payload|) && d.tcb == c.tcb && d.inbox == c.inbox && d.closed == c.closed
      && d.log.flushes == c.log.flushes
  {
    hide Pk.Fill;
    hide Pk.Build;
  }

  ghost predicate StartOf(c: Conn, ipRaw: seq<byte>, tcpRaw: seq<byte>, outbox: Queue) {
    Opening(ipRaw, tcpRaw, outbox) && c == Create(ipRaw, tcpRaw, outbox)
  }

  lemma CreateCalm(c: Conn, ipRaw: seq<byte>, tcpRaw: seq<byte>, outbox: Queue)
    requires StartOf(c, ipRaw, tcpRaw, outbox)
    ensures Calm(c, NEW_TCB, c.pk.pi, outbox.capacity)
  {
  }

  /** For every opening packet there is a run that leaves one byte deferred. */
  lemma DeferralIsReachable(c: Conn, ipRaw: seq<byte>, tcpRaw: seq<byte>, outbox: Queue)
    requires StartOf(c, ipRaw, tcpRaw, outbox)
    ensures c.Ok() && Waiting(Run(c, Deferring(outbox.capacity)), c.pk.pi, outbox.capacity)
  {
    hide Step;
    hide Run;
    hide StartOf;
    hide Calm;
    hide Waiting;
    CreateCalm(c, ipRaw, tcpRaw, outbox);
    CalmOk(c, NEW_TCB, c.pk.pi, outbox.capacity);
    var pi, n := c.pk.pi, outbox.capacity;
    var events := Deferring(n);
    assert Run(c, events[..0]) == c by { RunNothing(c); }
    RunPrefix(c, events, 0);
    SynArrives(c, pi, n);
    RunPrefix(c, events, 1);
    SocketConnects(Run(c, events[..1]), pi, n);
    RunPrefix(c, events, 2);
    AckArrives(Run(c, events[..2]), pi, n);
    RunPrefix(c, events, 3);
    BufferFills(Run(c, events[..3]), pi, n);
    RunPrefix(c, events, 4);
    ByteIsDeferred(Run(c, events[..4]), pi, n);
    assert events[..5] == events;
  }

  lemma CalmOk(c: Conn, tcb: Tcb, pi: nat, capacity: nat)
    requires Calm(c, tcb, pi, capacity)
    ensures c.Ok()
  {
  }

  // ── spoilt ──

  function Spoiling(capacity: nat): seq<Event> {
    Deferring(capacity) + [FromDevice(OLD, 0, false)]
  }

  /** Then a segment that the device sends again makes the waiting bytes no packet. */
  lemma SpoiledPacketIsReachable(c: Conn, ipRaw: seq<byte>, tcpRaw: seq<byte>, outbox: Queue)
    requires StartOf(c, ipRaw, tcpRaw, outbox)
    ensures c.Ok()
    ensures
      var d := Run(c, Spoiling(outbox.capacity));
      && Waiting(d, c.pk.pi, outbox.capacity) && d.pk.ip.TotalLength() == c.pk.pi
      && d.deferred.value <= |d.pk.buf| && !Whole(d.pk.buf[..d.deferred.value])
  {
    hide Run;
    hide Whole;
    hide Create;
    hide Opening;
    DeferralIsReachable(c, ipRaw, tcpRaw, outbox);
    var w := Run(c, Deferring(outbox.capacity));
    RunOnward(c, Deferring(outbox.capacity), FromDevice(OLD, 0, false));
    assert Reached(w);
    OldSegmentSpoils(w, c.pk.pi, outbox.capacity);
  }

  lemma OldSegmentSpoils(c: Conn, pi: nat, capacity: nat)
    requires Reached(c) && Waiting(c, pi, capacity)
    ensures var d := Step(c, FromDevice(OLD, 0, false));
      && Waiting(d, pi, capacity) && d.pk.ip.TotalLength() == pi
      && d.deferred.value <= |d.pk.buf| && !Whole(d.pk.buf[..d.deferred.value])
  {
    hide Reached;
    hide Inv;
    hide Conn.SendEmpty;
    hide Conn.HandleExpected;
    hide Whole;
    ReachedInv(c);
    assert !OLD.IsSyn();
    assert Step(c, FromDevice(OLD, 0, false)) == c.SendEmpty(ACK, false);
    SendEmptyTcb(c, ACK, false);
    SendEmptyFlushes(c);
    SendEmptySpoils(c, ACK, false);
    RetransmissionSpoilsDeferredPacket(c, OLD, 0, false);
  }

  lemma SendEmptyFlushes(c: Conn)
    requires c.Ok()
    ensures c.SendEmpty(ACK, false).log.flushes == c.log.flushes
  {
    hide Pk.UpdateHeaders;
    hide Pk.Build;
  }

  // ── overrun ──

  function Overrunning(pi: nat, capacity: nat): seq<Event>
    requires pi <= capacity
  {
    Spoiling(capacity) + [Elsewhere(Holding(capacity - pi, capacity))] + [PollSockets(QUIET)]
  }

  /** Then, once there is room for its header and no more, the flush reports success, logs
      the packet as handed over, and leaves the shared buffer empty: all it held is gone. */
  lemma OverrunIsReachable(c: Conn, ipRaw: seq<byte>, tcpRaw: seq<byte>, outbox: Queue)
    requires StartOf(c, ipRaw, tcpRaw, outbox)
    ensures c.Ok() && 0 < c.pk.pi < outbox.capacity
    ensures
      var n := outbox.capacity;
      var before := Run(c, Spoiling(n) + [Elsewhere(Holding(n - c.pk.pi, n))]);
      var after := Run(c, Overrunning(c.pk.pi, n));
      && |before.outbox.contents| == n - c.pk.pi && after.outbox.contents == []
      && after.deferred.None? && |after.log.appended| == |before.log.appended| + 1
      && !Queued(before, after)
  {
    hide Run;
    hide Step;
    hide StartOf;
    hide Queued;
    hide Whole;
    hide Waiting;
    var n := outbox.capacity;
    StartIsSmall(c, ipRaw, tcpRaw, outbox);
    SpoiledPacketIsReachable(c, ipRaw, tcpRaw, outbox);
    var d := Run(c, Spoiling(n));
    var room := Elsewhere(Holding(n - c.pk.pi, n));
    RunOnward(c, Spoiling(n), room);
    RunOnward(c, Spoiling(n) + [room], PollSockets(QUIET));
    RoomForHeader(d, c.pk.pi, n);
    assert |Holding(n - c.pk.pi, n).contents| == n - c.pk.pi;
    FlushOverruns(Step(d, room), c.pk.pi, n);
  }

  lemma StartIsSmall(c: Conn, ipRaw: seq<byte>, tcpRaw: seq<byte>, outbox: Queue)
    requires StartOf(c, ipRaw, tcpRaw, outbox)
    ensures c.Ok() && 0 < c.pk.pi < outbox.capacity
  {
  }

  lemma RoomForHeader(d: Conn, pi: nat, n: nat)
    requires Waiting(d, pi, n) && d.pk.ip.TotalLength() == pi < n
    ensures var e := Step(d, Elsewhere(Holding(n - pi, n)));
      Waiting(e, pi, n) && e.pk == d.pk && e.outbox == Holding(n - pi, n)
  {
  }

  lemma FlushOverruns(c: Conn, pi: nat, n: nat)
    requires Waiting(c, pi, n) && pi < n && c.pk.ip.TotalLength() == pi && c.outbox == Holding(n - pi, n)
    ensures
      var d := Step(c, PollSockets(QUIET));
      && d.outbox.contents == [] && d.deferred.None? && |d.log.appended| == |c.log.appended| + 1
      && !Queued(c, d)
  {
    hide Conn.FlushPending;
    hide Conn.Poll;
    hide Conn.PrepareRead;
    OverrunLosesAll(c);
    FlushingPoll(c, pi, n);
    var f := c.FlushPending(false).0;
    PrepareReadRoom(f);
    PrepareReadLog(f);
    PrepareReadReady(f);
    SharedBufferFollowsIff(c, PollSockets(QUIET));
  }

  /** What a poll with nothing to write and nothing to read does after a flush. */
  lemma FlushingPoll(c: Conn, pi: nat, n: nat)
    requires Waiting(c, pi, n) && c.FlushPending(false).1
    ensures c.Poll(QUIET).0 == c.FlushPending(false).0.PrepareRead()
    ensures c.FlushPending(false).0.deferred.None?
  {
    hide Conn.PrepareRead;
    hide Queue.Append;
    hide HeaderReady;
    var f := c.FlushPending(false).0;
    PrepareReadReady(f);
    assert f.tcb.RemainingClientWindow() == 1000 - (pi + 1);
    assert f.ReceiveFrom([], 0, false) == (f.PrepareRead(), false);
  }

  lemma PrepareReadLog(c: Conn)
    requires c.Ok()
    ensures c.PrepareRead().log.appended == c.log.appended && c.PrepareRead().log.flushes == c.log.flushes
  {
    hide Pk.UpdateHeaders;
  }

  // ── the wrong number ──

  function Flushing(capacity: nat): seq<Event> {
    Deferring(capacity) + [Elsewhere(Holding(0, capacity))] + [PollSockets(QUIET)]
  }

  /** Without any disturbance, once the buffer has room the deferred packet is flushed and the
      sequence number is not the one the device expects. */
  lemma WrongNumberIsReachable(c: Conn, ipRaw: seq<byte>, tcpRaw: seq<byte>, outbox: Queue)
    requires StartOf(c, ipRaw, tcpRaw, outbox)
    ensures c.Ok()
    ensures
      var d := Run(c, Flushing(outbox.capacity));
      && d.deferred.None? && d.tcb.state != Init
      && d.tcb.sequenceNumber
         != Wrap32(d.log.initialNumber + SynsHanded(d.log.appended, d.pk.pi)
                   + |AppendedPayloads(d.log.appended, d.pk.pi)| + FinsHanded(d.log.appended, d.pk.pi))
  {
    hide Run;
    hide Create;
    hide Opening;
    hide SynsHanded;
    hide FinsHanded;
    hide AppendedPayloads;
    hide Wrap32;
    hide Waiting;
    hide Step;
    var n := outbox.capacity;
    DeferralIsReachable(c, ipRaw, tcpRaw, outbox);
    RunOnward(c, Deferring(n), Elsewhere(Holding(0, n)));
    RunOnward(c, Deferring(n) + [Elsewhere(Holding(0, n))], PollSockets(QUIET));
    var e := Run(c, Deferring(n) + [Elsewhere(Holding(0, n))]);
    var d := Run(c, Flushing(n));
    assert Reached(e) && Reached(d);
    BufferEmpties(Run(c, Deferring(n)), c.pk.pi, n);
    FlushCounts(e, c.pk.pi, n);
    SequenceNumberIsRightIff(d);
    SurplusIsSmall(d);
  }

  lemma SurplusIsSmall(d: Conn)
    requires d.Ok() && |d.log.flushes| <= 1
    ensures d.pk.pi * |d.log.flushes| + 2 < TWO32
  {
  }

  // ── the lost SYN-ACK ──

  /** A SYN; other connections fill the shared buffer; the socket connects; the buffer is
      emptied; the device repeats its SYN. */
  function Losing(capacity: nat): seq<Event> {
    [FromDevice(Segment(0, 0, SYN, 1000, []), 0, false),
     Elsewhere(Holding(capacity, capacity)),
     PollSockets(PollEnv(false, WriteBlocks, [], Took(0))),
     Elsewhere(Holding(0, capacity)),
     FromDevice(Segment(0, 0, SYN, 1000, []), 0, false)]
  }

  ghost predicate Silent(c: Conn, tcb: Tcb, pi: nat, capacity: nat) {
    Calm(c, tcb, pi, capacity) && c.log.appended == []
  }

  lemma SilentSyn(c: Conn, pi: nat, capacity: nat)
    requires Silent(c, NEW_TCB, pi, capacity)
    ensures Silent(Step(c, Losing(capacity)[0]), SYNCHRONIZED, pi, capacity)
  {
    hide Conn.Ok;
    hide Conn.Poll;
    hide Conn.SendEmpty;
    hide Conn.HandleDuplicateSyn;
    hide Conn.HandleExpected;
    assert Losing(capacity)[0].segment.IsSyn();
  }

  lemma SilentFill(c: Conn, tcb: Tcb, size: nat, pi: nat, capacity: nat)
    requires Silent(c, tcb, pi, capacity) && size <= capacity
    ensures var d := Step(c, Elsewhere(Holding(size, capacity)));
      Silent(d, tcb, pi, capacity) && d.outbox == Holding(size, capacity)
  {
  }

  lemma SilentConnect(c: Conn, pi: nat, capacity: nat)
    requires Silent(c, SYNCHRONIZED, pi, capacity) && c.outbox.Remaining() == 0
    ensures Silent(Step(c, Losing(capacity)[2]), CONNECTED, pi, capacity)
  {
    hide Conn.SendEmpty;
    hide Conn.Ok;
    var b := c.(tcb := c.tcb.(state := SynReceived));
    TcbOk(c, b.tcb);
    SendEmptyCalm(b, SYN + ACK, pi, capacity);
    SendEmptyFits(b, SYN + ACK, false);
    PositiveHeader(c);
    var d := b.SendEmpty(SYN + ACK, false);
    TcbOk(d, CONNECTED);
  }

  lemma PositiveHeader(c: Conn)
    requires c.Ok()
    ensures c.pk.pi > 0
  {
  }

  /** For every opening packet: the SYN-ACK is lost, the number counts it all the same though
      nothing was ever deferred, and the device's repeated SYN gets no answer, buffer or no
      buffer: the handshake cannot complete. */
  lemma LostSynAckIsReachable(c: Conn, ipRaw: seq<byte>, tcpRaw: seq<byte>, outbox: Queue)
    requires StartOf(c, ipRaw, tcpRaw, outbox)
    ensures c.Ok()
    ensures
      var d := Run(c, Losing(outbox.capacity));
      && d.tcb.state == SynReceived && d.log.flushes == [] && d.log.appended == []
      && d.outbox.contents == []
      && d.tcb.sequenceNumber
         != Wrap32(d.log.initialNumber + SynsHanded(d.log.appended, d.pk.pi)
                   + |AppendedPayloads(d.log.appended, d.pk.pi)| + FinsHanded(d.log.appended, d.pk.pi))
  {
    hide Step;
    hide Run;
    hide StartOf;
    hide Silent;
    hide Wrap32;
    hide SynsHanded;
    hide FinsHanded;
    hide AppendedPayloads;
    hide Reached;
    var n := outbox.capacity;
    var events := Losing(n);
    SilentStart(c, ipRaw, tcpRaw, outbox);
    var pi := c.pk.pi;
    assert Run(c, events[..0]) == c by { RunNothing(c); }
    RunPrefix(c, events, 0);
    SilentSyn(c, pi, n);
    RunPrefix(c, events, 1);
    SilentFill(Run(c, events[..1]), SYNCHRONIZED, n, pi, n);
    RunPrefix(c, events, 2);
    SilentConnect(Run(c, events[..2]), pi, n);
    RunPrefix(c, events, 3);
    SilentFill(Run(c, events[..3]), CONNECTED, 0, pi, n);
    RunPrefix(c, events, 4);
    SynRepeated(Run(c, events[..4]), pi, n);
    assert Holding(0, n).contents == [];
    assert events[..5] == events;
    StartIsReached(c, ipRaw, tcpRaw, outbox, events);
    SynAckUnseen(Run(c, events), pi, n);
  }

  lemma SilentStart(c: Conn, ipRaw: seq<byte>, tcpRaw: seq<byte>, outbox: Queue)
    requires StartOf(c, ipRaw, tcpRaw, outbox)
    ensures c.Ok() && Silent(c, NEW_TCB, c.pk.pi, outbox.capacity)
  {
  }

  lemma StartIsReached(c: Conn, ipRaw: seq<byte>, tcpRaw: seq<byte>, outbox: Queue, events: seq<Event>)
    requires StartOf(c, ipRaw, tcpRaw, outbox)
    ensures c.Ok() && Reached(Run(c, events))
  {
    hide Run;
  }

  lemma SynRepeated(c: Conn, pi: nat, capacity: nat)
    requires Silent(c, CONNECTED, pi, capacity)
    ensures Step(c, Losing(capacity)[4]) == c
  {
    hide Conn.HandlePacket;
    RepeatedSynIsIgnored(c, Losing(capacity)[4].segment, 0, false);
  }

  lemma SynAckUnseen(d: Conn, pi: nat, capacity: nat)
    requires Reached(d) && Silent(d, CONNECTED, pi, capacity)
    ensures d.tcb.state == SynReceived && d.log.flushes == [] && d.log.appended == []
    ensures d.tcb.sequenceNumber
            != Wrap32(d.log.initialNumber + SynsHanded(d.log.appended, d.pk.pi)
                      + |AppendedPayloads(d.log.appended, d.pk.pi)| + FinsHanded(d.log.appended, d.pk.pi))
  {
    hide Reached;
    SequenceNumberIsRightIff(d);
    LifecycleOfRuns(d);
    SurplusIsSmall(d);
  }

  lemma BufferEmpties(c: Conn, pi: nat, n: nat)
    requires Waiting(c, pi, n)
    ensures var d := Step(c, Elsewhere(Holding(0, n)));
      Waiting(d, pi, n) && d.outbox == Holding(0, n) && d.log == c.log
  {
  }

  lemma FlushCounts(c: Conn, pi: nat, n: nat)
    requires Reached(c) && Waiting(c, pi, n) && c.outbox == Holding(0, n)
    ensures var d := Step(c, PollSockets(QUIET));
      d.Ok() && d.deferred.None? && d.tcb.state != Init && |d.log.flushes| == 1
  {
    hide Conn.Poll;
    hide Conn.PrepareRead;
    hide Reached;
    hide Inv;
    ReachedInv(c);
    NothingReadIsLost(c);
    IntactLength(c);
    DeferredFits(c);
    FlushingPoll(c, pi, n);
    var f := c.FlushPending(false).0;
    PrepareReadLog(f);
    PrepareReadReady(f);
  }

  lemma DeferredFits(c: Conn)
    requires c.Ok() && c.deferred.Some? && c.outbox.contents == []
    requires c.pk.ip.TotalLength() == c.deferred.value || c.pk.ip.TotalLength() == c.pk.pi
    ensures var (d, flushed) := c.FlushPending(false);
      flushed && |d.log.flushes| == |c.log.flushes| + 1 && d.tcb.state == c.tcb.state && d.deferred.None?
  {
    hide Queue.Append;
  }

  // ── runs, event by event ──

  lemma RunPrefix(c: Conn, events: seq<Event>, k: nat)
    requires c.Ok() && k < |events|
    ensures Run(c, events[..k + 1]) == Step(Run(c, events[..k]), events[k])
  {
    hide Step;
    hide Conn.Ok;
    assert events[..k + 1] == events[..k] + [events[k]];
    RunOnward(c, events[..k], events[k]);
  }

  lemma {:induction false} RunOnward(c: Conn, events: seq<Event>, e: Event)
    requires c.Ok()
    ensures Run(c, events + [e]) == Step(Run(c, events), e)
    decreases |events|
  {
    hide Step;
    hide Conn.Ok;
    var all := events + [e];
    if events == [] {
      assert all[0] == e && all[1..] == [];
      RunNothing(Step(c, e));
      assert Run(c, all) == Run(Step(c, all[0]), all[1..]);
      RunNothing(c);
    } else {
      assert all[1..] == events[1..] + [e] && all[0] == events[0];
      RunOnward(Step(c, events[0]), events[1..], e);
      assert Run(c, all) == Run(Step(c, all[0]), all[1..]);
      assert Run(c, events) == Run(Step(c, events[0]), events[1..]);
    }
  }

  lemma RunNothing(c: Conn)
    requires c.Ok()
    ensures Run(c, []) == c
  {
  }
}
