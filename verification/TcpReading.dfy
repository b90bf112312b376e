/** What one read loop does, counted in plain numbers: which answers of the socket become
    packets, which of them go to the shared buffer, and which one is deferred. */
module TcpReading {
  import opened Bytes
  import opened Chunks
  import opened Sockets
  import opened StreamBuffers
  import opened Packetizers
  import opened TcpSpec
  import opened TcpInvariant
  import opened TcpHandlers
  import opened TcpNetwork
  import opened TcpRuns
  import opened TcpProgress
  import opened TcpOutbox

  /** The payloads put in the shared buffer, the one deferred behind them, and the answer that
      ended the loop: the end of the socket or a failure. */
  datatype Reading = Reading(direct: seq<seq<byte>>, deferred: Option<seq<byte>>, last: Option<IoRead>)

  function AnswerAt(answers: seq<IoRead>, i: nat): IoRead {
    if i < |answers| then answers[i] else ReadBlocks
  }

  /** The bytes one round takes with `w` bytes of window left: what fits a packet of 1500. */
  function Portion(data: seq<byte>, w: nat): seq<byte> {
    data[..Min(Min(w, 1460), |data|)]
  }

  /** The rounds from the `i`-th on, with `w` bytes of the client's window and `room` bytes of
      the shared buffer left. */
  function Rounds(answers: seq<IoRead>, i: nat, w: nat, room: int, pi: nat, busy: bool): Reading
    requires i <= MAX_PACKETS_PER_POLL
    decreases MAX_PACKETS_PER_POLL - i
  {
    if i == MAX_PACKETS_PER_POLL || w == 0 then Reading([], None, None) else
    match AnswerAt(answers, i)
    case ReadBlocks => Reading([], None, None)
    case ReadFails => Reading([], None, Some(ReadFails))
    case Arrived(data) =>
      if data == [] then Reading([], None, Some(Arrived([]))) else
      var payload := Portion(data, w);
      var length := pi + |payload|;
      if busy || length > room then Reading([], Some(payload), None) else
      var r := Rounds(answers, i + 1, w - |payload|, room - length, pi, busy);
      r.(direct := [payload] + r.direct)
  }

  /** All that the window and the number of rounds let through, room or no room. */
  function Payloads(answers: seq<IoRead>, i: nat, w: nat): seq<seq<byte>>
    requires i <= MAX_PACKETS_PER_POLL
    decreases MAX_PACKETS_PER_POLL - i
  {
    if i == MAX_PACKETS_PER_POLL || w == 0 || !AnswerAt(answers, i).Arrived? || AnswerAt(answers, i).data == [] then []
    else [Portion(AnswerAt(answers, i).data, w)] + Payloads(answers, i + 1, w - |Portion(AnswerAt(answers, i).data, w)|)
  }

  /** With answers enough and window enough one poll reads 32 packets. */
  lemma {:induction false} PayloadsOfFullLoop(answers: seq<IoRead>, i: nat, w: nat)
    requires i <= MAX_PACKETS_PER_POLL && |answers| >= 32 && w >= (32 - i) * 1460
    requires forall k :: 0 <= k < |answers| ==> answers[k].Arrived? && answers[k].data != []
    ensures |Payloads(answers, i, w)| == 32 - i
    decreases MAX_PACKETS_PER_POLL - i
  {
    if i < MAX_PACKETS_PER_POLL {
      assert answers[i].Arrived?;
      PayloadsOfFullLoop(answers, i + 1, w - |Portion(answers[i].data, w)|);
    }
  }

  function PacketBytes(payloads: seq<seq<byte>>, pi: nat): nat {
    if payloads == [] then 0 else pi + |payloads[0]| + PacketBytes(payloads[1..], pi)
  }

  /** There is one more payload to send. */
  predicate Goes(answers: seq<IoRead>, i: nat, w: nat) {
    i < MAX_PACKETS_PER_POLL && w > 0 && AnswerAt(answers, i).Arrived? && AnswerAt(answers, i).data != []
  }

  lemma RoundsUnfold(answers: seq<IoRead>, i: nat, w: nat, room: int, pi: nat, busy: bool)
    requires i <= MAX_PACKETS_PER_POLL
    ensures
      var r := Rounds(answers, i, w, room, pi, busy);
      if !Goes(answers, i, w) then Payloads(answers, i, w) == [] && r.direct == [] && r.deferred.None?
      else
        var payload := Portion(AnswerAt(answers, i).data, w);
        var length := pi + |payload|;
        && Payloads(answers, i, w) == [payload] + Payloads(answers, i + 1, w - |payload|)
        && if busy || length > room then r == Reading([], Some(payload), None) else
           var rest := Rounds(answers, i + 1, w - |payload|, room - length, pi, busy);
           r == rest.(direct := [payload] + rest.direct)
  {
  }

  /** Nothing is deferred if and only if there is nothing to send, or the shared buffer is free
      and has room for all of it; then all of it is sent. */
  lemma {:induction false} NothingIsDeferredIff(answers: seq<IoRead>, i: nat, w: nat, room: int, pi: nat, busy: bool)
    requires i <= MAX_PACKETS_PER_POLL
    ensures
      var r := Rounds(answers, i, w, room, pi, busy);
      var all := Payloads(answers, i, w);
      && (r.deferred.None? <==> all == [] || (!busy && PacketBytes(all, pi) <= room))
      && r.direct <= all && (r.deferred.None? ==> r.direct == all)
    decreases MAX_PACKETS_PER_POLL - i
  {
    hide Rounds;
    hide Payloads;
    hide PacketBytes;
    hide Portion;
    hide AnswerAt;
    RoundsUnfold(answers, i, w, room, pi, busy);
    if Goes(answers, i, w) {
      PortionFits(AnswerAt(answers, i).data, w);
      var payload := Portion(AnswerAt(answers, i).data, w);
      var later := Payloads(answers, i + 1, w - |payload|);
      var length := pi + |payload|;
      NothingIsDeferredIff(answers, i + 1, w - |payload|, room - length, pi, busy);
      OneMorePacket(payload, later, Rounds(answers, i + 1, w - |payload|, room - length, pi, busy).direct, pi);
      NoPacketNoBytes(pi);
    }
  }

  lemma PortionFits(data: seq<byte>, w: nat)
    ensures |Portion(data, w)| <= w
  {
  }

  lemma NoPacketNoBytes(pi: nat)
    ensures PacketBytes([], pi) == 0
  {
  }

  lemma OneMorePacket(payload: seq<byte>, later: seq<seq<byte>>, direct: seq<seq<byte>>, pi: nat)
    ensures PacketBytes([payload] + later, pi) == pi + |payload| + PacketBytes(later, pi)
    ensures direct <= later ==> [payload] + direct <= [payload] + later
  {
    assert ([payload] + later)[1..] == later;
  }

  // ── one round ──

  /** A built packet goes to the shared buffer if and only if that is free and has room. */
  lemma DeliverIsDirectIff(c: Conn, payload: seq<byte>, busy: bool)
    requires c.Ok() && c.deferred.None? && 0 < |payload| <= MAX_PAYLOAD_LENGTH
    ensures
      var d := c.Deliver(payload, busy);
      var direct := !busy && c.pk.pi + |payload| <= c.outbox.Remaining();
      && d.deferred == (if direct then None else Some(c.pk.pi + |payload|))
      && d.tcb == (if direct then c.tcb.(sequenceNumber := Wrap32(c.tcb.sequenceNumber + |payload|)) else c.tcb)
      && |d.log.built| == |c.log.built| + 1
      && var b := d.log.built[|c.log.built|];
      && d.log.built == c.log.built + [b] && b.payload == payload && b.direct == direct
      && d.log.received == c.log.received + payload && d.closed == c.closed && d.pk.pi == c.pk.pi
      && d.log.appended == c.log.appended + (if direct then [b.raw] else [])
      && d.outbox.Remaining() == c.outbox.Remaining() - (if direct then c.pk.pi + |payload| else 0)
  {
    hide Pk.Fill;
    hide Pk.Build;
    hide FlushedLength;
  }

  lemma PrepareReadSame(c: Conn)
    requires c.Ok()
    ensures
      var p := c.PrepareRead();
      && p.tcb == c.tcb && p.deferred == c.deferred && p.closed == c.closed && p.outbox == c.outbox
      && p.log.built == c.log.built && p.log.received == c.log.received && p.log.appended == c.log.appended
      && p.pk.pi == c.pk.pi && p.inbox == c.inbox
  {
    hide Pk.UpdateHeaders;
  }

  lemma EofSame(c: Conn, busy: bool)
    requires c.Ok()
    ensures
      var d := c.Eof(busy);
      && d.tcb.sequenceNumber == Wrap32(c.tcb.sequenceNumber + 1) && d.tcb.state == FinWait1
      && d.deferred == c.deferred && d.closed == c.closed && d.log.built == c.log.built
      && d.log.received == c.log.received && c.log.appended <= d.log.appended
  {
    hide Pk.UpdateHeaders;
    hide Pk.Build;
  }

  lemma ResetSame(c: Conn, busy: bool)
    requires c.Ok()
    ensures
      var d := c.SendEmpty(RST, busy).Close();
      && d.tcb == c.tcb && d.deferred == c.deferred && d.closed && d.log.built == c.log.built
      && d.log.received == c.log.received && c.log.appended <= d.log.appended
  {
    hide Pk.UpdateHeaders;
    hide Pk.Build;
  }

  // ── the loop ──

  function EndCount(last: Option<IoRead>): nat {
    if last == Some(Arrived([])) then 1 else 0
  }

  /** `d` comes from `c` by a loop that reads `r`: every payload of `r.direct` is a packet in
      the shared buffer, in order, the deferred one waits, and the numbers count what went. */
  ghost predicate LoopIs(c: Conn, d: Conn, r: Reading) {
    LoopBuilds(c, d, r) && LoopCounts(c, d, r)
  }

  ghost predicate LoopBuilds(c: Conn, d: Conn, r: Reading) {
    && c.log.built <= d.log.built && c.log.appended <= d.log.appended
    && var built := d.log.built[|c.log.built|..];
    && |built| == |r.direct| + (if r.deferred.Some? then 1 else 0) && |Handed(c, d)| >= |r.direct|
    && (forall k :: 0 <= k < |r.direct| ==>
          built[k].payload == r.direct[k] && built[k].direct && Handed(c, d)[k] == built[k].raw)
    && (r.deferred.Some? ==>
          && built[|r.direct|].payload == r.deferred.value && !built[|r.direct|].direct
          && d.deferred == Some(c.pk.pi + |r.deferred.value|))
    && (r.deferred.None? ==> d.deferred.None?)
  }

  ghost predicate LoopCounts(c: Conn, d: Conn, r: Reading) {
    && d.log.received == c.log.received + Flatten(r.direct) + (if r.deferred.Some? then r.deferred.value else [])
    && d.tcb.sequenceNumber == Wrap32(c.tcb.sequenceNumber + |Flatten(r.direct)| + EndCount(r.last))
    && d.tcb.state == (if r.last == Some(Arrived([])) then FinWait1 else c.tcb.state)
    && d.closed == (c.closed || r.last == Some(ReadFails))
  }

  lemma LoopOfNothing(c: Conn, d: Conn, last: Option<IoRead>)
    requires c.deferred.None? && d.deferred.None?
    requires d.log.built == c.log.built && c.log.appended <= d.log.appended && d.log.received == c.log.received
    requires d.tcb.sequenceNumber == Wrap32(c.tcb.sequenceNumber + EndCount(last))
    requires d.tcb.state == (if last == Some(Arrived([])) then FinWait1 else c.tcb.state)
    requires d.closed == (c.closed || last == Some(ReadFails))
    ensures LoopIs(c, d, Reading([], None, last))
  {
    assert d.log.built[|c.log.built|..] == [];
    assert c.log.received + [] + [] == c.log.received;
  }

  lemma LoopOfDeferred(c: Conn, d: Conn, payload: seq<byte>, b: Built)
    requires d.deferred == Some(c.pk.pi + |payload|) && d.log.built == c.log.built + [b]
    requires b.payload == payload && !b.direct && d.log.appended == c.log.appended
    requires d.log.received == c.log.received + payload && d.tcb == c.tcb && d.closed == c.closed
    ensures LoopIs(c, d, Reading([], Some(payload), None))
  {
    assert d.log.built[|c.log.built|..] == [b];
    assert c.log.received + [] + payload == c.log.received + payload;
  }

  lemma LoopOfMore(c: Conn, e: Conn, d: Conn, payload: seq<byte>, b: Built, r: Reading)
    requires e.log.built == c.log.built + [b] && b.payload == payload && b.direct
    requires e.log.appended == c.log.appended + [b.raw] && e.log.received == c.log.received + payload
    requires e.tcb == c.tcb.(sequenceNumber := Wrap32(c.tcb.sequenceNumber + |payload|)) && e.closed == c.closed
    requires e.pk.pi == c.pk.pi && LoopIs(e, d, r)
    ensures LoopIs(c, d, r.(direct := [payload] + r.direct))
  {
    hide LoopBuilds;
    hide LoopCounts;
    MoreIsBuilt(c, e, d, payload, b, r);
    MoreIsCounted(c, e, d, payload, r);
  }

  lemma MoreIsBuilt(c: Conn, e: Conn, d: Conn, payload: seq<byte>, b: Built, r: Reading)
    requires e.log.built == c.log.built + [b] && b.payload == payload && b.direct
    requires e.log.appended == c.log.appended + [b.raw] && e.pk.pi == c.pk.pi && LoopBuilds(e, d, r)
    ensures LoopBuilds(c, d, r.(direct := [payload] + r.direct))
  {
    var built, all := d.log.built[|c.log.built|..], [payload] + r.direct;
    assert built == [b] + d.log.built[|e.log.built|..];
    assert Handed(c, d) == [b.raw] + Handed(e, d);
    forall k | 0 <= k < |all|
      ensures built[k].payload == all[k] && built[k].direct && Handed(c, d)[k] == built[k].raw
    {
      if k > 0 {
        assert built[k] == d.log.built[|e.log.built|..][k - 1] && Handed(c, d)[k] == Handed(e, d)[k - 1];
      }
    }
  }

  lemma MoreIsCounted(c: Conn, e: Conn, d: Conn, payload: seq<byte>, r: Reading)
    requires e.log.received == c.log.received + payload && e.closed == c.closed
    requires e.tcb == c.tcb.(sequenceNumber := Wrap32(c.tcb.sequenceNumber + |payload|)) && LoopCounts(e, d, r)
    ensures LoopCounts(c, d, r.(direct := [payload] + r.direct))
  {
    hide Flatten;
    var all := [payload] + r.direct;
    FlattenUnfolds(all);
    assert all[1..] == r.direct;
    var tail := if r.deferred.Some? then r.deferred.value else [];
    assert c.log.received + payload + Flatten(r.direct) + tail == c.log.received + Flatten(all) + tail;
    WrapAdd(c.tcb.sequenceNumber + |payload|, |Flatten(r.direct)| + EndCount(r.last));
  }

  /** The read loop is exactly the rounds counted above. */
  lemma {:induction false} ReadLoopIs(c: Conn, answers: seq<IoRead>, i: nat, busy: bool)
    requires c.Ok() && c.deferred.None? && i <= MAX_PACKETS_PER_POLL
    ensures LoopIs(c, c.ReceiveFrom(answers, i, busy).0,
                   Rounds(answers, i, c.tcb.RemainingClientWindow(), c.outbox.Remaining(), c.pk.pi, busy))
    decreases MAX_PACKETS_PER_POLL - i
  {
    hide Conn.Ok;
    hide Conn.PrepareRead;
    hide Conn.Deliver;
    hide Conn.Eof;
    hide Conn.SendEmpty;
    hide Conn.Close;
    hide HeaderReady;
    hide LoopIs;
    hide Tcb.RemainingClientWindow;
    var w := c.tcb.RemainingClientWindow();
    if i == MAX_PACKETS_PER_POLL || w == 0 {
      SameNumbers(c);
      LoopOfNothing(c, c, None);
    } else {
      PrepareReadReady(c);
      PrepareReadSame(c);
      var p := c.PrepareRead();
      match AnswerAt(answers, i) {
        case Arrived(data) =>
          if data == [] {
            EofSame(p, busy);
            LoopOfNothing(c, p.Eof(busy), Some(Arrived([])));
          } else {
            var payload := Portion(data, w);
            DeliverIsDirectIff(p, payload, busy);
            DeliverReceived(p, payload, busy);
            var e := p.Deliver(payload, busy);
            var b := e.log.built[|c.log.built|];
            if e.deferred.None? {
              ReadLoopIs(e, answers, i + 1, busy);
              var r := Rounds(answers, i + 1, e.tcb.RemainingClientWindow(), e.outbox.Remaining(), c.pk.pi, busy);
              LoopOfMore(c, e, e.ReceiveFrom(answers, i + 1, busy).0, payload, b, r);
            } else {
              LoopOfDeferred(c, e, payload, b);
            }
          }
        case ReadBlocks =>
          SameNumbers(c);
          LoopOfNothing(c, p, None);
        case ReadFails =>
          SameNumbers(c);
          ResetSame(p, busy);
          LoopOfNothing(c, p.SendEmpty(RST, busy).Close(), Some(ReadFails));
      }
    }
  }

  lemma SameNumbers(c: Conn)
    ensures Wrap32(c.tcb.sequenceNumber + 0) == c.tcb.sequenceNumber
  {
  }

  // ── the poll ──

  /** A poll after its flush and its write to the socket. */
  function Written(c: Conn, env: PollEnv): (d: Conn)
    requires c.Ok()
    ensures c.Kin(d)
  {
    var f := c.FlushPending(env.busy).0;
    if f.inbox.contents != [] then f.ProcessSend(env.write, env.busy).0 else f
  }

  /** Then the poll of an open connection reads exactly those rounds, when the socket may be
      read, and otherwise nothing. */
  lemma PollReads(c: Conn, env: PollEnv)
    requires c.Ok() && !c.closed && c.FlushPending(env.busy).1
    ensures
      var e := Written(c, env);
      var d := c.Poll(env).0;
      var t := e.tcb;
      if !e.closed && t.state == Established && e.deferred.None? then
        LoopIs(e, d, Rounds(env.answers, 0, t.RemainingClientWindow(), e.outbox.Remaining(), e.pk.pi, env.busy))
      else d.log.built == e.log.built && d.log.received == e.log.received
  {
    hide Conn.Ok;
    hide Conn.FlushPending;
    hide Conn.ProcessSend;
    hide Conn.ReceiveFrom;
    hide Tcb.RemainingClientWindow;
    hide LoopIs;
    hide Rounds;
    var e := Written(c, env);
    var t := e.tcb;
    if !e.closed && t.state == Established && e.deferred.None? {
      ReadLoopIs(e, env.answers, 0, env.busy);
      if e.MayRead() {
        EstablishedAfterLoop(e, env.answers, env.busy);
      } else {
        LoopWithoutWindow(e, env);
      }
    } else {
      TryConnectReads(e, env.connect, env.busy);
    }
  }

  lemma EstablishedAfterLoop(e: Conn, answers: seq<IoRead>, busy: bool)
    requires e.Ok() && e.deferred.None? && e.tcb.state == Established
    ensures !e.ReceiveFrom(answers, 0, busy).0.tcb.state.SynSent?
  {
    hide Conn.Ok;
    hide Conn.ReceiveFrom;
    ReadLoopIs(e, answers, 0, busy);
  }

  lemma LoopWithoutWindow(e: Conn, env: PollEnv)
    requires e.Ok() && e.tcb.RemainingClientWindow() == 0
    ensures e.ReceiveFrom(env.answers, 0, env.busy).0 == e
  {
    hide Tcb.RemainingClientWindow;
  }

  lemma TryConnectReads(c: Conn, io: IoWrite, busy: bool)
    requires c.Ok()
    ensures var d := c.TryConnect(io, busy).0; d.log.built == c.log.built && d.log.received == c.log.received
  {
    hide Conn.SendEmpty;
    hide Conn.Ok;
    var b := c.(tcb := c.tcb.(state := SynReceived));
    TcbOk(c, b.tcb);
    SendEmptyBuilt(b, SYN + ACK, busy);
  }

  lemma SendEmptyBuilt(c: Conn, flags: u16, busy: bool)
    requires c.Ok()
    ensures var d := c.SendEmpty(flags, busy); d.log.built == c.log.built && d.log.received == c.log.received
  {
    hide Pk.UpdateHeaders;
    hide Pk.Build;
  }

  /** With nothing deferred and nothing to write, and room for all the packets that window and
      rounds allow: one poll puts them all in the shared buffer, in order, defers none, and
      advances the number by the bytes read. */
  lemma RoomyPollDeliversAll(c: Conn, env: PollEnv)
    requires Reached(c) && !c.closed && c.tcb.state == Established && c.deferred.None? && c.inbox.contents == []
    requires
      var all := Payloads(env.answers, 0, c.tcb.RemainingClientWindow());
      all == [] || (!env.busy && PacketBytes(all, c.pk.pi) <= c.outbox.Remaining())
    ensures c.Ok()
    ensures
      var all := Payloads(env.answers, 0, c.tcb.RemainingClientWindow());
      var d := c.Poll(env).0;
      && c.log.appended <= d.log.appended && |Handed(c, d)| >= |all|
      && (forall k :: 0 <= k < |all| ==> Carries(Handed(c, d)[k], all[k], c.pk.pi))
      && Queued(c, d) && d.deferred.None? && Deferrals(d.log.built) == Deferrals(c.log.built)
      && d.log.received == c.log.received + Flatten(all)
      && (d.tcb.state == Established ==> d.tcb.sequenceNumber == Wrap32(c.tcb.sequenceNumber + |Flatten(all)|))
  {
    hide Reached;
    hide Inv;
    hide Conn.Ok;
    hide Conn.Poll;
    hide Rounds;
    hide Payloads;
    hide Flatten;
    hide Queued;
    hide Faithful;
    hide Tcb.RemainingClientWindow;
    ReachedInv(c);
    InvOk(c);
    var w := c.tcb.RemainingClientWindow();
    var all := Payloads(env.answers, 0, w);
    NothingIsDeferredIff(env.answers, 0, w, c.outbox.Remaining(), c.pk.pi, env.busy);
    NothingToFlush(c, env);
    PollReads(c, env);
    var d := c.Poll(env).0;
    PollKeeps(c, env);
    SharedBufferFollowsIff(c, PollSockets(env));
    BuiltDeferrals(c.log.built, d.log.built);
    assert c.log.received + Flatten(all) + [] == c.log.received + Flatten(all);
    forall k | 0 <= k < |all|
      ensures Carries(Handed(c, d)[k], all[k], c.pk.pi)
    {
      var j := |c.log.built| + k;
      assert d.log.built[|c.log.built|..][k] == d.log.built[j];
      InvFaithful(d, j);
      FaithfulShape(d.log.built[j], c.pk.pi);
    }
  }

  lemma NothingToFlush(c: Conn, env: PollEnv)
    requires c.Ok() && c.deferred.None? && c.inbox.contents == []
    ensures c.FlushPending(env.busy) == (c, true) && Written(c, env) == c
    ensures !StepOverruns(c, PollSockets(env))
    ensures c.Kin(c.Poll(env).0)
  {
  }

  lemma InvFaithful(d: Conn, j: nat)
    requires Inv(d) && j < |d.log.built|
    ensures Faithful(d.log.built[j], d.pk.pi)
  {
    hide Upstream;
    hide Edges;
    hide Lifecycle;
    hide Numbers;
    hide Packets;
    hide Deferral;
  }

  lemma {:induction false} BuiltDeferrals(a: seq<Built>, b: seq<Built>)
    requires a <= b && forall k :: 0 <= k < |b[|a|..]| ==> b[|a|..][k].direct
    ensures Deferrals(b) == Deferrals(a)
    decreases |b|
  {
    if |b| > |a| {
      var init := b[..|b| - 1];
      assert b[|a|..][|b| - 1 - |a|] == b[|b| - 1];
      forall k | 0 <= k < |init[|a|..]|
        ensures init[|a|..][k].direct
      {
        assert init[|a|..][k] == b[|a|..][k];
      }
      BuiltDeferrals(a, init);
    } else {
      assert a == b;
    }
  }

  /** A whole packet around this payload. */
  ghost predicate Carries(raw: seq<byte>, payload: seq<byte>, pi: nat) {
    Whole(raw) && |raw| == pi + |payload| && raw[pi..] == payload
  }
}
