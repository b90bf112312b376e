/** The connection as the object the source has. Every method is proved to compute the
    function of TcpSpec of the same name, so the theorems of TcpRuns and TcpProgress
    hold of this object. What the sockets answer, the random initial sequence number
    and whether the shared buffer is borrowed are parameters. */
module TcpConnections {
  import opened Bytes
  import opened Sockets
  import opened StreamBuffers
  import opened Packetizers
  import opened PacketizerObject
  import opened TcpSpec
  import opened TcpNetwork
  import opened TcpRuns

  class TcpConnection {
    const buffer: StreamBuffer
    const clientToNetwork: StreamBuffer
    const networkToClient: Packetizer
    var packetForClientLength: Option<nat>
    var closed: bool
    var tcb: Tcb
    ghost var log: History

    ghost function Footprint(): set<object> {
      {this, buffer, buffer.buf, clientToNetwork, clientToNetwork.buf, networkToClient, networkToClient.buffer}
    }

    ghost function View(): Conn
      reads Footprint()
    {
      Conn(tcb, clientToNetwork.queue, networkToClient.View(), packetForClientLength, closed, buffer.queue, log)
    }

    /** The three objects are apart and each is in order. */
    ghost predicate Apart()
    {
      && buffer != clientToNetwork
      && buffer.buf != clientToNetwork.buf
      && networkToClient.buffer != buffer.buf && networkToClient.buffer != clientToNetwork.buf
    }

    ghost predicate Valid()
      reads Footprint()
    {
      Apart() && buffer.Valid() && clientToNetwork.Valid() && networkToClient.Valid() && View().Ok()
    }

    lemma ValidOk()
      requires Valid()
      ensures View().Ok()
    {
    }

    /** `create`: the packetizer gets the opening packet's headers without TCP options. */
    constructor (ipRaw: seq<byte>, tcpRaw: seq<byte>, buffer: StreamBuffer)
      requires buffer.Valid() && Opening(ipRaw, tcpRaw, buffer.queue)
      ensures Valid() && this.buffer == buffer
      ensures View() == Create(ipRaw, tcpRaw, buffer.queue)
    {
      this.buffer := buffer;
      clientToNetwork := new StreamBuffer(32 * MAX_PACKET_LENGTH);
      networkToClient := new Packetizer(ipRaw, ShrinkOptions(tcpRaw));
      packetForClientLength := None;
      closed := false;
      tcb := NEW_TCB;
      log := NO_HISTORY;
    }

    function AdvertisedWindow(): (w: u16)
      reads Footprint()
      requires Valid()
      ensures w == View().AdvertisedWindow()
    {
      Min(clientToNetwork.Remaining(), 0xFFFF)
    }

    predicate MayRead()
      reads Footprint()
      requires Valid()
      ensures MayRead() == View().MayRead()
    {
      && tcb.state.IsConnected() && !tcb.state.IsClosed()
      && packetForClientLength.None?
      && tcb.RemainingClientWindow() > 0
    }

    predicate MayWrite()
      reads Footprint()
      requires Valid()
      ensures MayWrite() <==> View().inbox.contents != []
    {
      !clientToNetwork.IsEmpty()
    }

    // ── packets to the device ──

    /** `send_packet_to_buffer`. */
    method SendPacketToBuffer(packet: Packet, busy: bool) returns (sent: bool)
      requires Valid() && |packet.raw| <= 0xFFFF
      modifies Footprint()
      ensures Valid()
      ensures sent == old(View()).Fits(packet, busy)
      ensures View() == if sent then old(View()).Put(packet) else old(View())
    {
      hide Queue.Append;
      if busy {
        return false;
      }
      if packet.ip.TotalLength() <= buffer.Remaining() {
        buffer.ReadFrom(packet.raw);
        log := log.(appended := log.appended + [packet.raw]);
        return true;
      }
      return false;
    }

    /** `update_headers` with the current numbers and window. */
    method Forge(flags: u16)
      requires Valid()
      modifies Footprint()
      ensures Valid() && View() == old(View()).Forge(flags)
    {
      hide Pk.UpdateHeaders;
      var window := AdvertisedWindow();
      networkToClient.UpdateHeaders(tcb.sequenceNumber, tcb.acknowledgementNumber, flags, window);
      log := log.(
        forged := log.forged + [Forged(tcb.state, flags, tcb.sequenceNumber, tcb.acknowledgementNumber,
                                       log.Place(), window)],
        intact := false);
    }

    /** `send_empty_packet_to_client` and `reply_empty_packet_to_client`. */
    method SendEmpty(flags: u16, busy: bool)
      requires Valid()
      modifies Footprint()
      ensures Valid() && View() == old(View()).SendEmpty(flags, busy)
    {
      hide Pk.Build;
      hide Conn.Forge;
      hide Conn.Put;
      Forge(flags);
      networkToClient.Build(0);
      var packet := networkToClient.Inflate(networkToClient.payloadIndex);
      var _ := SendPacketToBuffer(packet, busy);
    }

    method Close()
      requires Valid()
      modifies Footprint()
      ensures Valid() && View() == old(View()).Close()
    {
      closed := true;
    }

    // ── packets from the device ──

    method HandlePacket(s: Segment, random: u32, busy: bool)
      requires Valid()
      modifies Footprint()
      ensures Valid() && View() == old(View()).HandlePacket(s, random, busy)
    {
      hide Conn.HandleFirstPacket;
      hide Conn.HandleDuplicateSyn;
      hide Conn.HandleExpected;
      hide Conn.SendEmpty;
      if tcb.state.Init? {
        HandleFirstPacket(s, random, busy);
        return;
      }
      if s.IsSyn() {
        HandleDuplicateSyn(s, busy);
        return;
      }
      var expected := tcb.acknowledgementNumber;
      if s.sequenceNumber != expected {
        if Wrap32(s.sequenceNumber - expected) >= 0x8000_0000 {
          // a retransmission: acknowledge again
          SendEmpty(ACK, busy);
        }
        return;
      }
      HandleExpected(s, busy);
    }

    /** The end of `handle_packet`, for a packet with the expected number. */
    method HandleExpected(s: Segment, busy: bool)
      requires Valid()
      modifies Footprint()
      ensures Valid() && View() == old(View()).HandleExpected(s, busy)
    {
      hide Conn.HandleAck;
      hide Conn.HandleFin;
      hide Conn.HandleFinAck;
      hide Conn.Close;
      hide Conn.Ok;
      hide Valid;
      ValidOk();
      SetPeer(s);
      if s.IsRst() {
        Close();
        return;
      }
      if s.IsAck() {
        HandleAck(s, busy);
      }
      if s.IsFin() {
        HandleFin(busy);
      }
      if tcb.finSequenceNumber.Some? && s.acknowledgementNumber == Wrap32(tcb.finSequenceNumber.value + 1) {
        HandleFinAck();
      }
    }

    method SetPeer(s: Segment)
      requires Valid()
      modifies this
      ensures Valid()
      ensures View() == old(View()).Meet(s)
    {
      tcb := tcb.(clientWindow := s.window, theirAcknowledgementNumber := s.acknowledgementNumber);
      log := if s.IsFin() then log.(finPlace := log.Place() + |s.payload|) else log;
    }

    method HandleFirstPacket(s: Segment, random: u32, busy: bool)
      requires Valid()
      modifies Footprint()
      ensures Valid() && View() == old(View()).HandleFirstPacket(s, random, busy)
    {
      hide Conn.SendEmpty;
      if s.IsSyn() {
        tcb := tcb.(acknowledgementNumber := Wrap32(s.sequenceNumber + 1), synSequenceNumber := s.sequenceNumber,
                    sequenceNumber := random, clientWindow := s.window, state := SynSent);
        log := log.(synAt := |log.accepted|, sinceSyn := 0, fins := [], socketEnds := 0, finPlace := 0,
                    initialNumber := random);
      } else {
        tcb := tcb.(sequenceNumber := s.acknowledgementNumber);
        SendEmpty(RST, busy);
        Close();
      }
    }

    method HandleDuplicateSyn(s: Segment, busy: bool)
      requires Valid()
      modifies Footprint()
      ensures Valid() && View() == old(View()).HandleDuplicateSyn(s, busy)
    {
      hide Conn.SendEmpty;
      if tcb.state.SynSent? {
        tcb := tcb.(synSequenceNumber := s.sequenceNumber, acknowledgementNumber := Wrap32(s.sequenceNumber + 1));
        log := log.(synAt := |log.accepted|, sinceSyn := 0, fins := [], socketEnds := 0, finPlace := 0);
      } else if s.sequenceNumber != tcb.synSequenceNumber {
        SendEmpty(RST, busy);
        Close();
      }
    }

    method HandleAck(s: Segment, busy: bool)
      requires Valid()
      modifies Footprint()
      ensures Valid() && View() == old(View()).HandleAck(s, busy)
    {
      hide Conn.SendEmpty;
      hide Queue.Append;
      if tcb.state.SynReceived? {
        tcb := tcb.(state := Established);
        return;
      }
      if s.payload == [] {
        return;
      }
      if clientToNetwork.Remaining() < |s.payload| {
        // not enough space: drop it and repeat the acknowledgement
        SendEmpty(ACK, busy);
        return;
      }
      clientToNetwork.ReadFrom(s.payload);
      log := log.(accepted := log.accepted + [View().Accepted(s)], sinceSyn := log.sinceSyn + |s.payload|);
      tcb := tcb.(acknowledgementNumber := Wrap32(tcb.acknowledgementNumber + |s.payload|));
      SendEmpty(ACK, busy);
    }

    method HandleFin(busy: bool)
      requires Valid()
      modifies Footprint()
      ensures Valid() && View() == old(View()).HandleFin(busy)
    {
      hide Conn.DoHandleFin;
      tcb := tcb.(finReceived := true);
      if clientToNetwork.IsEmpty() {
        DoHandleFin(busy);
      }
    }

    method DoHandleFin(busy: bool)
      requires Valid()
      modifies Footprint()
      ensures Valid() && View() == old(View()).DoHandleFin(busy)
    {
      hide Conn.SendEmpty;
      hide Conn.SendFin;
      CountFin(false);
      if tcb.state.Established? {
        SendFin(LastAck, busy);
      } else if tcb.state.FinWait1? {
        SendEmpty(ACK, busy);
        tcb := tcb.(state := Closing);
      } else if tcb.state.FinWait2? {
        SendEmpty(ACK, busy);
        Close();
      }
    }

    method CountFin(ghost ofSocket: bool)
      requires Valid()
      modifies Footprint()
      ensures Valid() && View() == old(View()).CountFin(ofSocket)
    {
      tcb := tcb.(acknowledgementNumber := Wrap32(tcb.acknowledgementNumber + 1));
      log := if ofSocket then log.(socketEnds := log.socketEnds + 1)
             else log.(fins := log.fins + [FinCount(log.finPlace, log.Place())]);
    }

    method SendFin(next: TcpState, busy: bool)
      requires Valid()
      modifies Footprint()
      ensures Valid() && View() == old(View()).SendFin(next, busy)
    {
      hide Conn.SendEmpty;
      SendEmpty(FIN + ACK, busy);
      tcb := tcb.(finSequenceNumber := Some(tcb.sequenceNumber),
                  sequenceNumber := Wrap32(tcb.sequenceNumber + 1), state := next);
    }

    method HandleFinAck()
      requires Valid()
      modifies Footprint()
      ensures Valid() && View() == old(View()).HandleFinAck()
    {
      if tcb.state.LastAck? || tcb.state.Closing? {
        Close();
      } else if tcb.state.FinWait1? {
        tcb := tcb.(state := FinWait2);
      }
    }

    // ── the network socket ──

    method FlushPending(busy: bool) returns (flushed: bool)
      requires Valid()
      modifies Footprint()
      ensures Valid() && (View(), flushed) == old(View()).FlushPending(busy)
    {
      hide Queue.Append;
      if packetForClientLength.None? {
        return true;
      }
      var length := packetForClientLength.value;
      ghost var intact := log.intact;
      var packet := networkToClient.Inflate(length);
      var sent := SendPacketToBuffer(packet, busy);
      if !sent {
        return false;
      }
      NoteFlush(packet, length, intact);
      return true;
    }

    method NoteFlush(packet: Packet, length: nat, ghost intact: bool)
      requires Valid()
      modifies this
      ensures Valid()
      ensures View() == var c := old(View());
        c.(tcb := c.tcb.(sequenceNumber := Wrap32(c.tcb.sequenceNumber + length)), deferred := None,
           log := c.log.(flushes := c.log.flushes + [Flush(packet.raw, length, intact)]))
    {
      tcb := tcb.(sequenceNumber := Wrap32(tcb.sequenceNumber + length));
      packetForClientLength := None;
      log := log.(flushes := log.flushes + [Flush(packet.raw, length, intact)]);
    }

    method ProcessSend(io: IoWrite, busy: bool) returns (progress: bool)
      requires Valid()
      modifies Footprint()
      ensures Valid() && (View(), progress) == old(View()).ProcessSend(io, busy)
    {
      hide Conn.DoHandleFin;
      hide Conn.SendEmpty;
      hide Queue.WriteTo;
      hide Queue.Sent;
      hide Queue.WriteResult;
      var result, sent := clientToNetwork.WriteTo(io);
      match result {
        case Ok(w) =>
          log := log.(written := log.written + sent);
          if w != 0 {
            if tcb.finReceived && clientToNetwork.IsEmpty() {
              DoHandleFin(busy);
            } else {
              SendEmpty(ACK, busy);
            }
          } else {
            Close();
          }
        case WouldBlock =>
          BlockedChangesNothing(old(clientToNetwork.queue), io);
          return false;
        case Error =>
          BlockedChangesNothing(old(clientToNetwork.queue), io);
          SendEmpty(RST, busy);
          Close();
      }
      return true;
    }

    /** One `update_headers` for a data packet, before the socket is read. */
    method PrepareRead()
      requires Valid()
      modifies Footprint()
      ensures Valid() && View() == old(View()).PrepareRead()
    {
      hide Conn.Forge;
      ghost var before := Attempt(tcb, packetForClientLength);
      Forge(ACK + PSH);
      log := log.(attempts := log.attempts + [before]);
    }

    /** The packet around a received payload. */
    method BuildData(payload: seq<byte>) returns (packet: Packet)
      requires Valid() && 0 < |payload| <= MAX_PAYLOAD_LENGTH
      modifies networkToClient, networkToClient.buffer
      ensures Valid()
      ensures View() == var c := old(View()); c.(pk := c.pk.Fill(payload).Build(|payload|))
      ensures packet == View().pk.Inflate(View().pk.pi + |payload|)
    {
      hide Pk.Fill;
      hide Pk.Build;
      networkToClient.Receive(payload);
      networkToClient.Build(|payload|);
      packet := networkToClient.Inflate(networkToClient.payloadIndex + |payload|);
    }

    method Deliver(payload: seq<byte>, busy: bool)
      requires Valid() && packetForClientLength.None? && 0 < |payload| <= MAX_PAYLOAD_LENGTH
      modifies Footprint()
      ensures Valid() && View() == old(View()).Deliver(payload, busy)
    {
      hide Pk.Fill;
      hide Pk.Build;
      hide Conn.Ok;
      hide Valid;
      hide FlushedLength;
      ValidOk();
      ghost var before := View();
      var packet := BuildData(payload);
      ghost var direct := View().Fits(packet, busy);
      NoteBuilt(Built(before.tcb, before.AdvertisedWindow(), payload, packet.raw, direct,
                      FlushedLength(before.log.flushes)));
      ghost var noted := View();
      var sent := SendPacketToBuffer(packet, busy);
      SettleDelivery(before.tcb, payload, packet, sent);
    }

    ghost method NoteBuilt(b: Built)
      requires Valid()
      modifies `log
      ensures Valid()
      ensures View() == var c := old(View());
        c.(log := c.log.(received := c.log.received + b.payload, built := c.log.built + [b], intact := !b.direct))
    {
      log := log.(received := log.received + b.payload, built := log.built + [b], intact := !b.direct);
    }

    method SettleDelivery(ghost before: Tcb, payload: seq<byte>, packet: Packet, sent: bool)
      requires Valid() && tcb == before
      requires View().pk.pi <= |packet.raw| <= View().pk.pi + MAX_PAYLOAD_LENGTH
      modifies this
      ensures Valid()
      ensures View() == var c := old(View());
        if sent then c.(tcb := before.(sequenceNumber := Wrap32(before.sequenceNumber + |payload|)))
        else c.(deferred := Some(|packet.raw|))
    {
      if sent {
        tcb := tcb.(sequenceNumber := Wrap32(tcb.sequenceNumber + |payload|));
      } else {
        packetForClientLength := Some(|packet.raw|);
      }
    }

    method Eof(busy: bool)
      requires Valid()
      modifies Footprint()
      ensures Valid() && View() == old(View()).Eof(busy)
    {
      hide Conn.CountFin;
      hide Conn.SendFin;
      CountFin(true);
      SendFin(FinWait1, busy);
    }

    method ReceiveOne(answer: IoRead, busy: bool) returns (progress: bool, more: bool)
      requires Valid() && packetForClientLength.None? && tcb.RemainingClientWindow() > 0
      modifies Footprint()
      ensures Valid() && (View(), progress, more) == old(View()).ReceiveOne(answer, busy)
    {
      hide Conn.Ok;
      hide Conn.PrepareRead;
      hide Conn.Deliver;
      hide Conn.Eof;
      hide Conn.SendEmpty;
      hide Conn.Close;
      hide Tcb.RemainingClientWindow;
      hide HeaderReady;
      hide Valid;
      ValidOk();
      var limit := Min(tcb.RemainingClientWindow(), MAX_PAYLOAD_LENGTH);
      PrepareReadReady(View());
      PrepareRead();
      match answer {
        case Arrived(data) =>
          if data == [] {
            Eof(busy);
            return true, false;
          }
          Deliver(data[..Min(limit, |data|)], busy);
          return packetForClientLength.None?, packetForClientLength.None?;
        case ReadBlocks =>
          return false, false;
        case ReadFails =>
          SendEmpty(RST, busy);
          Close();
          return true, false;
      }
    }

    /** The read loop, at most 32 packets. */
    method ProcessReceive(answers: seq<IoRead>, busy: bool) returns (progress: bool)
      requires Valid()
      modifies Footprint()
      ensures Valid() && (View(), progress) == old(View()).ReceiveFrom(answers, 0, busy)
    {
      hide Conn.Ok;
      hide Conn.ReceiveOne;
      hide Tcb.RemainingClientWindow;
      hide Valid;
      progress := false;
      ValidOk();
      ghost var goal := View().ReceiveFrom(answers, 0, busy);
      for i := 0 to MAX_PACKETS_PER_POLL
        invariant Valid() && View().Ok()
        invariant goal == (View().ReceiveFrom(answers, i, busy).0,
                           progress || View().ReceiveFrom(answers, i, busy).1)
      {
        if packetForClientLength.Some? || tcb.RemainingClientWindow() == 0 {
          return;
        }
        var made, more := ReceiveOne(if i < |answers| then answers[i] else ReadBlocks, busy);
        progress := progress || made;
        if !more {
          return;
        }
        ValidOk();
      }
    }

    method ProcessConnect(busy: bool)
      requires Valid()
      modifies Footprint()
      ensures Valid() && View() == old(View()).ProcessConnect(busy)
    {
      hide Conn.SendEmpty;
      tcb := tcb.(state := SynReceived);
      SendEmpty(SYN + ACK, busy);
      tcb := tcb.(sequenceNumber := Wrap32(tcb.sequenceNumber + 1));
    }

    method TryConnect(io: IoWrite, busy: bool) returns (progress: bool)
      requires Valid()
      modifies Footprint()
      ensures Valid() && (View(), progress) == old(View()).TryConnect(io, busy)
    {
      hide Conn.ProcessConnect;
      if !tcb.state.SynSent? {
        return false;
      }
      match io {
        case Took(_) =>
          ProcessConnect(busy);
          return true;
        case WriteBlocks =>
          return false;
        case WriteFails =>
          Close();
          return true;
      }
    }

    /** `poll_self`: true stands for Ok, false for WouldBlock. */
    method Poll(env: PollEnv) returns (progress: bool)
      requires Valid()
      modifies Footprint()
      ensures Valid() && (View(), progress) == old(View()).Poll(env)
    {
      hide Conn.Ok;
      hide Conn.FlushPending;
      hide Conn.ProcessSend;
      hide Conn.ReceiveFrom;
      hide Conn.TryConnect;
      hide Conn.MayRead;
      if closed {
        return true;
      }
      progress := packetForClientLength.Some?;
      var flushed := FlushPending(env.busy);
      if !flushed {
        FailedFlush(old(View()), env.busy);
        return false;
      }
      if MayWrite() {
        var sent := ProcessSend(env.write, env.busy);
        progress := progress || sent;
      }
      if !closed && MayRead() {
        var received := ProcessReceive(env.answers, env.busy);
        progress := progress || received;
      }
      var connected := TryConnect(env.connect, env.busy);
      progress := progress || connected;
    }
  }

  lemma FailedFlush(c: Conn, busy: bool)
    requires c.Ok() && !c.FlushPending(busy).1
    ensures c.FlushPending(busy).0 == c
  {
  }

  lemma BlockedChangesNothing(q: Queue, io: IoWrite)
    requires q.Ok() && !q.WriteResult(io).Ok?
    ensures q.WriteTo(io) == q && q.Sent(io) == []
  {
  }
}
