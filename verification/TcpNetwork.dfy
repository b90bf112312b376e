/** The network side of tcp_connection.rs keeps the invariant: flushing, sending,
    reading, connecting, and the poll made of them. */
module TcpNetwork {
  import opened Bytes
  import opened Sockets
  import opened StreamBuffers
  import opened Packetizers
  import opened PacketizerLaws
  import opened TcpSpec
  import opened TcpInvariant
  import opened TcpSteps
  import opened TcpHandlers

  // ── reading the socket ──

  lemma PrepareReadKeeps(c: Conn)
    requires Inv(c) && c.tcb.state == Established && c.deferred.None? && c.tcb.RemainingClientWindow() > 0
    ensures Inv(c.PrepareRead())
  {
    hide Upstream;
    hide Edges;
    hide Lifecycle;
    hide Numbers;
    hide Downstream;
    hide Packets;
    hide Deferral;
    hide Pk.Synced;
    hide Pk.UpdateHeaders;
    hide Whole;
    DeferralSynced(c);
    ForgeEffect(c, ACK + PSH);
    var f := c.Forge(ACK + PSH);
    assert SentEmpty(c, f, ACK + PSH);
    SentEmptyCounts(c, f, ACK + PSH);
    SentEmptyEdges(c, f, ACK + PSH);
    SentEmptyDownstream(c, f, ACK + PSH);
    SentEmptyDeferral(c, f, ACK + PSH);
    var d := c.PrepareRead();
    UpstreamFrame(c, d);
    EdgesFrame(f, d);
    NumbersFrame(c, d);
    DeviceFrame(f, d);
    AttemptNoted(c, d);
  }

  lemma AttemptNoted(c: Conn, d: Conn)
    requires Lifecycle(c) && d.tcb == c.tcb && ReadAllowed(Attempt(c.tcb, c.deferred))
    requires Fins(d.log.forged) == Fins(c.log.forged) && Syns(d.log.forged) == Syns(c.log.forged)
    requires d.log.attempts == c.log.attempts + [Attempt(c.tcb, c.deferred)]
    ensures Lifecycle(d)
  {
  }

  /** The stored header is the one `update_headers` writes for a data packet now. */
  ghost predicate HeaderReady(c: Conn)
    requires c.Ok()
  {
    && c.pk.tr.sequenceNumber == c.tcb.sequenceNumber
    && c.pk.tr.acknowledgementNumber == c.tcb.acknowledgementNumber
    && c.pk.tr.flags == ACK + PSH && c.pk.tr.window == c.AdvertisedWindow()
  }

  lemma PrepareReadReady(c: Conn)
    requires c.Ok()
    ensures var d := c.PrepareRead();
      d.tcb == c.tcb && d.deferred == c.deferred && HeaderReady(d) && d.log.built == c.log.built && d.closed == c.closed
  {
    hide Pk.UpdateHeaders;
  }

  /** The packet built around received bytes. */
  lemma DeliveredPacket(p: Pk, payload: seq<byte>)
    requires p.Synced() && p.tr.TcpData? && p.pi + |payload| <= 0xFFFF
    ensures
      var q := p.Fill(payload).Build(|payload|);
      var raw := q.buf[..p.pi + |payload|];
      && q.Synced() && q.pi == p.pi && q.ti == p.ti && q.ip.TotalLength() == |raw| == p.pi + |payload|
      && Whole(raw) && raw[p.pi..] == payload && q.buf[p.pi..p.pi + |payload|] == payload
      && ParsePacket(raw).value.transport == p.tr
  {
    hide Pk.Fill;
    hide Pk.Build;
    hide ParsePacket;
    hide Pk.Synced;
    hide Whole;
    SyncedShaped(p);
    FillSynced(p, payload);
    var f := p.Fill(payload);
    BuildIsWhole(f, |payload|);
    BuildParses(f, |payload|);
    var q := f.Build(|payload|);
    assert q.buf[p.pi..p.pi + |payload|] == f.buf[p.pi..p.pi + |payload|];
  }

  lemma SyncedShaped(p: Pk)
    requires p.Synced()
    ensures p.Shaped()
  {
  }

  /** The ghost-free effect of `Deliver`, with the new entry of the history. */
  function NewBuilt(c: Conn, payload: seq<byte>, busy: bool): Built
    requires c.Ok() && c.deferred.None? && 0 < |payload| <= MAX_PAYLOAD_LENGTH
  {
    var d := c.Deliver(payload, busy);
    d.log.built[|d.log.built| - 1]
  }

  ghost predicate Delivered(c: Conn, d: Conn, payload: seq<byte>, b: Built)
    requires c.Ok()
  {
    && c.Kin(d) && d.pk.Synced()
    && d.inbox == c.inbox && d.closed == c.closed
    && Faithful(b, c.pk.pi) && b.payload == payload && b.tcb == c.tcb
    && b.flushedBefore == FlushedLength(c.log.flushes)
    && d.pk.ip.TotalLength() == |b.raw| <= |d.pk.buf| && d.pk.buf[..|b.raw|] == b.raw
    && d.tcb == (if b.direct then c.tcb.(sequenceNumber := Wrap32(c.tcb.sequenceNumber + |payload|)) else c.tcb)
    && d.deferred == (if b.direct then None else Some(|b.raw|))
    && d.log == c.log.(received := c.log.received + payload, built := c.log.built + [b], intact := !b.direct,
                       appended := if b.direct then c.log.appended + [b.raw] else c.log.appended)
  }

  lemma DeliverEffect(c: Conn, payload: seq<byte>, busy: bool)
    requires c.Ok() && c.pk.Synced() && c.deferred.None? && 0 < |payload| <= MAX_PAYLOAD_LENGTH && HeaderReady(c)
    ensures Delivered(c, c.Deliver(payload, busy), payload, NewBuilt(c, payload, busy))
  {
    hide Pk.Fill;
    hide Pk.Build;
    hide ParsePacket;
    hide Pk.Synced;
    hide Queue.Append;
    DeliveredPacket(c.pk, payload);
    var d := c.Deliver(payload, busy);
    var b := NewBuilt(c, payload, busy);
    assert d.log.built == c.log.built + [b];
  }

  lemma DeliveredNumbers(c: Conn, d: Conn, payload: seq<byte>, b: Built)
    requires c.Ok() && Delivered(c, d, payload, b)
    requires Lifecycle(c) && Numbers(c) && c.tcb.state == Established && c.deferred.None?
    ensures Numbers(d)
  {
    hide Pk.Synced;
    hide Faithful;
    hide DirectLength;
    hide Deferrals;
    hide Fins;
    hide Syns;
    BuiltGrows(c.log.built, b);
    var n := |c.log.built|;
    WrapAdd(c.log.initialNumber + 1 + DirectLength(c.log.built) + FlushedLength(c.log.flushes), |payload|);
    forall k | 0 <= k < |d.log.built|
      ensures Positioned(d, k)
    {
      if k < n {
        assert Positioned(c, k);
        assert d.log.built[..k] == c.log.built[..k];
      } else {
        assert d.log.built[..k] == c.log.built;
      }
    }
  }

  lemma DeliveredInWindow(c: Conn, d: Conn, payload: seq<byte>, b: Built)
    requires c.Ok() && Delivered(c, d, payload, b)
    requires c.tcb.state == Established && 0 < |payload| <= MAX_PAYLOAD_LENGTH
    requires |payload| <= c.tcb.RemainingClientWindow()
    ensures InsideClientWindow(b)
  {
    hide Pk.Synced;
    hide Faithful;
    var t := c.tcb;
    var x := t.theirAcknowledgementNumber + t.clientWindow - t.sequenceNumber;
    assert t.sequenceNumber + |payload| - t.theirAcknowledgementNumber == t.clientWindow - x + |payload|;
  }

  lemma DeliveredDownstream(c: Conn, d: Conn, payload: seq<byte>, b: Built)
    requires c.Ok() && Delivered(c, d, payload, b)
    requires Downstream(c) && Packets(c) && InsideClientWindow(b) && c.deferred.None?
    ensures Downstream(d) && Packets(d)
  {
    hide Pk.Synced;
    hide InsideClientWindow;
    hide Faithful;
    hide Whole;
    hide AppendedPayloads;
    hide Packets;
    FaithfulShape(b, c.pk.pi);
    DeliveredPackets(c, d, payload, b);
    if b.direct {
      AppendedGrows(c.log.appended, b.raw, c.pk.pi);
    }
    forall k | 0 <= k < |d.log.built|
      ensures Faithful(d.log.built[k], d.pk.pi) && InsideClientWindow(d.log.built[k])
    {
      if k < |c.log.built| {
        assert d.log.built[k] == c.log.built[k];
      }
    }
  }

  lemma DeliveredPackets(c: Conn, d: Conn, payload: seq<byte>, b: Built)
    requires c.Ok() && Delivered(c, d, payload, b) && Packets(c) && InsideClientWindow(b)
    ensures Packets(d)
  {
    hide Pk.Synced;
    hide InsideClientWindow;
    hide Faithful;
    hide Whole;
    hide AppendedPayloads;
    hide FinsHanded;
    hide SynsHanded;
    hide ControlFlags;
    FaithfulShape(b, c.pk.pi);
    BuiltGrows(c.log.built, b);
    if b.direct {
      AppendedGrows(c.log.appended, b.raw, c.pk.pi);
      PayloadIsNotEmpty(b);
      NoControl(b.raw, c.pk.pi);
      HandedGrows(c.log.appended, b.raw, c.pk.pi);
    }
  }

  lemma NoControl(raw: seq<byte>, pi: nat)
    requires |raw| > pi
    ensures ControlFlags(raw, pi) == 0
  {
  }

  lemma PayloadIsNotEmpty(b: Built)
    requires InsideClientWindow(b)
    ensures b.payload != []
  {
  }

  lemma FaithfulShape(b: Built, pi: nat)
    requires Faithful(b, pi)
    ensures Whole(b.raw) && |b.raw| == pi + |b.payload| && b.raw[pi..] == b.payload
  {
    hide Whole;
  }

  lemma DeliveredDeferral(c: Conn, d: Conn, payload: seq<byte>, b: Built)
    requires c.Ok() && Delivered(c, d, payload, b) && Deferral(c)
    ensures Deferral(d)
  {
    hide Pk.Synced;
    hide Faithful;
    hide Whole;
    FaithfulShape(b, c.pk.pi);
    assert d.pk.buf[c.pk.pi..|b.raw|] == d.pk.buf[..|b.raw|][c.pk.pi..];
  }

  lemma DeliverKeeps(c: Conn, payload: seq<byte>, busy: bool)
    requires Inv(c) && c.tcb.state == Established && c.deferred.None? && HeaderReady(c)
    requires 0 < |payload| <= MAX_PAYLOAD_LENGTH && |payload| <= c.tcb.RemainingClientWindow()
    ensures Inv(c.Deliver(payload, busy))
  {
    hide Upstream;
    hide Edges;
    hide Lifecycle;
    hide Numbers;
    hide Downstream;
    hide Packets;
    hide Deferral;
    hide Pk.Synced;
    hide Conn.Deliver;
    hide NewBuilt;
    hide Faithful;
    hide InsideClientWindow;
    DeferralSynced(c);
    DeliverEffect(c, payload, busy);
    var d := c.Deliver(payload, busy);
    var b := NewBuilt(c, payload, busy);
    DeliveredNumbers(c, d, payload, b);
    DeliveredInWindow(c, d, payload, b);
    DeliveredDownstream(c, d, payload, b);
    DeliveredDeferral(c, d, payload, b);
    UpstreamFrame(c, d);
    EdgesFrame(c, d);
    LifecycleFrame(c, d);
  }

  lemma EofKeeps(c: Conn, busy: bool)
    requires Inv(c) && c.tcb.state == Established
    ensures Inv(c.Eof(busy))
  {
    hide Inv;
    hide Conn.Ok;
    hide Conn.CountFin;
    hide Conn.SendFin;
    InvOk(c);
    CountFinKeeps(c, true);
    CountFinState(c, true);
    SendFinKeeps(c.CountFin(true), FinWait1, busy);
  }

  lemma {:induction false} ReceiveFromKeeps(c: Conn, answers: seq<IoRead>, i: nat, busy: bool)
    requires Inv(c) && c.tcb.state == Established && i <= MAX_PACKETS_PER_POLL
    ensures Inv(c.ReceiveFrom(answers, i, busy).0)
    decreases MAX_PACKETS_PER_POLL - i
  {
    hide Inv;
    hide Conn.Ok;
    hide Conn.PrepareRead;
    hide Conn.Deliver;
    hide Conn.Eof;
    hide Conn.SendEmpty;
    hide Conn.Close;
    hide HeaderReady;
    hide Tcb.RemainingClientWindow;
    InvOk(c);
    if i == MAX_PACKETS_PER_POLL || c.deferred.Some? || c.tcb.RemainingClientWindow() == 0 {
    } else {
      var limit := Min(c.tcb.RemainingClientWindow(), MAX_PAYLOAD_LENGTH);
      PrepareReadKeeps(c);
      PrepareReadReady(c);
      var p := c.PrepareRead();
      match if i < |answers| then answers[i] else ReadBlocks {
        case Arrived(data) =>
          if data == [] {
            EofKeeps(p, busy);
          } else {
            var payload := data[..Min(limit, |data|)];
            DeliverKeeps(p, payload, busy);
            DeliverState(p, payload, busy);
            var d := p.Deliver(payload, busy);
            if d.deferred.None? {
              ReceiveFromKeeps(d, answers, i + 1, busy);
            }
          }
        case ReadBlocks =>
        case ReadFails => ResetKeeps(p, busy);
      }
    }
  }

  lemma DeliverState(c: Conn, payload: seq<byte>, busy: bool)
    requires c.Ok() && c.deferred.None? && 0 < |payload| <= MAX_PAYLOAD_LENGTH
    ensures c.Deliver(payload, busy).tcb.state == c.tcb.state
  {
    hide Pk.Fill;
    hide Pk.Build;
  }

  // ── the deferred packet ──

  lemma FlushNumbers(c: Conn, d: Conn, x: Flush)
    requires Numbers(c) && Lifecycle(c) && c.deferred.Some? && d.deferred.None?
    requires d.tcb == c.tcb.(sequenceNumber := Wrap32(c.tcb.sequenceNumber + x.length))
    requires d.log.built == c.log.built && d.log.forged == c.log.forged && d.log.attempts == c.log.attempts
    requires d.log.initialNumber == c.log.initialNumber
    requires d.log.flushes == c.log.flushes + [x]
    ensures Numbers(d) && Lifecycle(d)
  {
    hide DirectLength;
    hide Deferrals;
    hide Fins;
    hide Syns;
    hide FlushedLength;
    FlushesGrow(c.log.flushes, x);
    WrapAdd(c.log.initialNumber + Syns(c.log.forged) + DirectLength(c.log.built)
            + FlushedLength(c.log.flushes) + Fins(c.log.forged), x.length);
    forall k | 0 <= k < |d.log.built|
      ensures Positioned(d, k)
    {
      assert Positioned(c, k);
    }
  }

  /** The bytes a flush puts in the shared buffer. */
  lemma FlushedBytes(c: Conn)
    requires c.Ok() && Downstream(c) && Deferral(c) && c.deferred.Some?
    ensures c.log.built != [] && c.deferred.value <= |c.pk.buf|
    ensures
      var last := c.log.built[|c.log.built| - 1];
      var raw := c.pk.buf[..c.deferred.value];
      && raw[c.pk.pi..] == last.payload == Pending(c) && c.pk.pi < c.deferred.value
      && (c.log.intact ==> raw == last.raw && Whole(raw))
  {
    hide Pk.Synced;
    hide InsideClientWindow;
    hide Whole;
    var last := c.log.built[|c.log.built| - 1];
    assert Faithful(last, c.pk.pi) && InsideClientWindow(last);
    PayloadIsNotEmpty(last);
    assert c.pk.buf[..c.deferred.value][c.pk.pi..] == c.pk.buf[c.pk.pi..c.deferred.value];
  }

  lemma FlushDownstream(c: Conn, d: Conn, raw: seq<byte>)
    requires c.Ok() && Downstream(c) && c.deferred.Some? && d.deferred.None?
    requires |raw| >= c.pk.pi && raw[c.pk.pi..] == Pending(c)
    requires d.pk == c.pk && d.log.built == c.log.built && d.log.received == c.log.received
    requires d.log.appended == c.log.appended + [raw]
    ensures Downstream(d)
  {
    hide Faithful;
    hide InsideClientWindow;
    hide AppendedPayloads;
    AppendedGrows(c.log.appended, raw, c.pk.pi);
  }

  lemma FlushPackets(c: Conn, d: Conn, x: Flush)
    requires c.Ok() && Packets(c) && |x.raw| == x.length > c.pk.pi && (x.intact ==> Whole(x.raw))
    requires d.pk == c.pk && d.log.built == c.log.built && d.log.forged == c.log.forged
    requires d.log.flushes == c.log.flushes + [x] && d.log.appended == c.log.appended + [x.raw]
    ensures Packets(d)
  {
    hide Whole;
    hide AppendedPayloads;
    hide FlushedLength;
    hide DirectLength;
    hide FinsHanded;
    hide SynsHanded;
    AppendedGrows(c.log.appended, x.raw, c.pk.pi);
    HandedGrows(c.log.appended, x.raw, c.pk.pi);
    FlushesGrow(c.log.flushes, x);
    OneMore(c.pk.pi, |c.log.flushes|);
    if AllIntact(d.log.flushes) {
      assert d.log.flushes[|c.log.flushes|] == x;
      forall i | 0 <= i < |c.log.flushes|
        ensures c.log.flushes[i].intact
      {
        assert d.log.flushes[i] == c.log.flushes[i];
      }
    }
  }

  lemma OneMore(a: nat, n: nat)
    ensures a * (n + 1) == a * n + a
  {
  }

  lemma FlushDevice(c: Conn, d: Conn, x: Flush)
    requires c.Ok() && Downstream(c) && Packets(c) && Deferral(c) && c.deferred.Some? && d.deferred.None?
    requires c.deferred.value <= |c.pk.buf| && x == Flush(c.pk.buf[..c.deferred.value], c.deferred.value, c.log.intact)
    requires d.pk == c.pk
    requires d.log == c.log.(flushes := c.log.flushes + [x], appended := c.log.appended + [x.raw])
    ensures Downstream(d) && Packets(d) && Deferral(d)
  {
    hide Downstream;
    hide Packets;
    hide Pk.Synced;
    hide Whole;
    FlushedBytes(c);
    FlushDownstream(c, d, x.raw);
    FlushPackets(c, d, x);
  }

  lemma FlushPendingKeeps(c: Conn, busy: bool)
    requires Inv(c)
    ensures Inv(c.FlushPending(busy).0)
  {
    hide Upstream;
    hide Edges;
    hide Lifecycle;
    hide Numbers;
    hide Downstream;
    hide Packets;
    hide Deferral;
    hide Queue.Append;
    if c.deferred.Some? && c.FlushPending(busy).1 {
      var d := c.FlushPending(busy).0;
      var x := Flush(c.pk.buf[..c.deferred.value], c.deferred.value, c.log.intact);
      FlushNumbers(c, d, x);
      FlushDevice(c, d, x);
      UpstreamFrame(c, d);
      EdgesFrame(c, d);
    }
  }

  // ── the poll ──

  lemma ProcessSendKeeps(c: Conn, io: IoWrite, busy: bool)
    requires Inv(c) && c.inbox.contents != []
    ensures Inv(c.ProcessSend(io, busy).0)
  {
    hide Inv;
    hide Conn.Ok;
    hide Conn.DrainInbox;
    hide Conn.DoHandleFin;
    hide Conn.SendEmpty;
    hide Conn.Close;
    hide Queue.WriteResult;
    InvOk(c);
    OkInbox(c);
    match c.inbox.WriteResult(io) {
      case Ok(w) =>
        DrainInboxKeeps(c, io);
        var d := c.DrainInbox(io);
        DrainInboxTcb(c, io);
        InitIsEmpty(c);
        CloseKeeps(d);
        DoHandleFinKeeps(d, busy);
        SendEmptyKeeps(d, ACK, busy);
      case WouldBlock =>
      case Error => ResetKeeps(c, busy);
    }
  }

  lemma OkInbox(c: Conn)
    requires c.Ok()
    ensures c.inbox.Ok()
  {
  }

  lemma DrainInboxTcb(c: Conn, io: IoWrite)
    requires c.Ok()
    ensures c.DrainInbox(io).tcb == c.tcb
  {
  }

  /** Nothing is accepted before the SYN. */
  lemma InitIsEmpty(c: Conn)
    requires Inv(c) && c.inbox.contents != []
    ensures c.tcb.state != Init
  {
  }

  lemma TryConnectKeeps(c: Conn, io: IoWrite, busy: bool)
    requires Inv(c)
    ensures Inv(c.TryConnect(io, busy).0)
  {
    hide Inv;
    hide Conn.Ok;
    hide Conn.ProcessConnect;
    hide Conn.Close;
    InvOk(c);
    if c.tcb.state.SynSent? {
      ProcessConnectKeeps(c, busy);
      CloseKeeps(c);
    }
  }

  /** Any poll, whatever the sockets answer. */
  lemma PollKeeps(c: Conn, env: PollEnv)
    requires Inv(c)
    ensures Inv(c.Poll(env).0)
  {
    hide Inv;
    hide Conn.Ok;
    hide Conn.FlushPending;
    hide Conn.ProcessSend;
    hide Conn.ReceiveFrom;
    hide Conn.TryConnect;
    hide Tcb.RemainingClientWindow;
    InvOk(c);
    if !c.closed && c.FlushPending(env.busy).1 {
      FlushPendingKeeps(c, env.busy);
      var d := c.FlushPending(env.busy).0;
      if d.inbox.contents != [] {
        ProcessSendKeeps(d, env.write, env.busy);
      }
      var e := if d.inbox.contents != [] then d.ProcessSend(env.write, env.busy).0 else d;
      if !e.closed && e.MayRead() {
        ReceiveFromKeeps(e, env.answers, 0, env.busy);
      }
      var f := if !e.closed && e.MayRead() then e.ReceiveFrom(env.answers, 0, env.busy).0 else e;
      TryConnectKeeps(f, env.connect, env.busy);
    }
  }
}
