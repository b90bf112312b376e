/** The TCP endpoint of tcp_connection.rs as a function of its state. `Conn` is the
    abstract value of class TcpConnection; `History` records what the run has done so
    far and is never read by the protocol. Sockets, the random initial number and the
    borrow state of the shared buffer are parameters. */
module TcpSpec {
  import opened Bytes
  import opened Sockets
  import opened StreamBuffers
  import opened Packetizers

  const FIN: u16 := 1
  const SYN: u16 := 2
  const RST: u16 := 4
  const PSH: u16 := 8
  const ACK: u16 := 16
  const MAX_PAYLOAD_LENGTH: u16 := 1500 - 20 - 20
  const MAX_PACKETS_PER_POLL: nat := 32

  datatype TcpState = Init | SynSent | SynReceived | Established | LastAck | Closing | FinWait1 | FinWait2
  {
    predicate IsConnected() {
      !(Init? || SynSent? || SynReceived?)
    }

    predicate IsClosed() {
      FinWait1? || FinWait2? || Closing? || LastAck?
    }
  }

  datatype Tcb = Tcb(
    state: TcpState,
    synSequenceNumber: u32,
    sequenceNumber: u32,
    acknowledgementNumber: u32,
    theirAcknowledgementNumber: u32,
    finSequenceNumber: Option<u32>,
    finReceived: bool,
    clientWindow: u16)
  {
    function RemainingClientWindow(): (r: u16)
      ensures r <= clientWindow
    {
      var remaining := Wrap32(theirAcknowledgementNumber + clientWindow - sequenceNumber);
      if clientWindow != 0 && remaining <= clientWindow then remaining else 0
    }
  }

  const NEW_TCB := Tcb(Init, 0, 0, 0, 0, None, false, 0)

  /** What the endpoint reads of a packet from the device. */
  datatype Segment = Segment(sequenceNumber: u32, acknowledgementNumber: u32, flags: u16, window: u16,
                             payload: seq<byte>)
  {
    predicate IsFin() { flags % 2 == 1 }
    predicate IsSyn() { flags / 2 % 2 == 1 }
    predicate IsRst() { flags / 4 % 2 == 1 }
    predicate IsAck() { flags / 16 % 2 == 1 }
  }

  /** A payload taken from the device: the number it carried and the one expected, the SYN
      in force, the index of the first acceptance since that SYN, and the FINs counted since. */
  datatype Acceptance = Acceptance(sequenceNumber: u32, expected: u32, payload: seq<byte>,
                                   syn: u32, from: nat, fins: nat)

  /** A FIN of the device counted in the acknowledgement number: its place behind the SYN,
      and the place at which it was counted. */
  datatype FinCount = FinCount(place: nat, at: nat)

  /** A moment at which the socket was about to be read. */
  datatype Attempt = Attempt(tcb: Tcb, deferred: Option<nat>)

  /** A header written by `update_headers`. `relative` is the acknowledgement number
      counted from the SYN without wrap-around. */
  datatype Forged = Forged(state: TcpState, flags: u16, sequenceNumber: u32, acknowledgementNumber: u32,
                           relative: nat, window: u16)

  /** A packet built around bytes of the socket: the control block at that moment, the
      packet bytes, and whether it went to the shared buffer at once. */
  datatype Built = Built(tcb: Tcb, window: u16, payload: seq<byte>, raw: seq<byte>, direct: bool, flushedBefore: nat)

  /** A deferred packet that was flushed. `intact`: no header was forged meanwhile. */
  datatype Flush = Flush(raw: seq<byte>, length: nat, intact: bool)

  /** What a run has done. Since the last SYN, which came when `synAt` payloads had been
      accepted: the payload bytes accepted, the device's FINs and the ends of the socket
      counted in the acknowledgement number, and the place of the last FIN received. */
  datatype History = History(
    accepted: seq<Acceptance>,
    written: seq<byte>,
    synAt: nat,
    sinceSyn: nat,
    fins: seq<FinCount>,
    socketEnds: nat,
    finPlace: nat,
    forged: seq<Forged>,
    initialNumber: u32,
    attempts: seq<Attempt>,
    received: seq<byte>,
    built: seq<Built>,
    flushes: seq<Flush>,
    intact: bool,
    appended: seq<seq<byte>>)
  {
    function Fins(): nat {
      |fins| + socketEnds
    }

    /** How far behind the SYN the acknowledgement number is. */
    function Place(): nat {
      sinceSyn + Fins()
    }
  }

  const NO_HISTORY := History([], [], 0, 0, [], 0, 0, [], 0, [], [], [], [], false, [])

  datatype Conn = Conn(
    tcb: Tcb,
    inbox: Queue,
    pk: Pk,
    deferred: Option<nat>,
    closed: bool,
    outbox: Queue,
    log: History)
  {
    /** What construction establishes and every slice and copy relies on. */
    ghost predicate Ok() {
      && inbox.Ok() && outbox.Ok() && outbox.capacity >= 0xFFFF
      && pk.Shaped() && pk.tr.TcpData? && pk.tr.headerLength == 20
      && (deferred.Some? ==> pk.pi <= deferred.value <= pk.pi + MAX_PAYLOAD_LENGTH)
    }

    /** Same objects, same sizes: what no operation changes. */
    ghost predicate Kin(c: Conn) {
      && c.Ok() && c.inbox.capacity == inbox.capacity && c.outbox.capacity == outbox.capacity
      && c.pk.ti == pk.ti && c.pk.pi == pk.pi
    }

    function AdvertisedWindow(): (w: u16)
      requires Ok()
    {
      Min(inbox.Remaining(), 0xFFFF)
    }

    function MayRead(): bool {
      && tcb.state.IsConnected() && !tcb.state.IsClosed()
      && deferred.None?
      && tcb.RemainingClientWindow() > 0
    }

    // ── packets to the device ──

    /** `send_packet_to_buffer`: refused when the buffer is borrowed or too full. */
    predicate Fits(packet: Packet, busy: bool) {
      !busy && packet.ip.TotalLength() <= outbox.Remaining()
    }

    function Put(packet: Packet): (c: Conn)
      requires Ok() && |packet.raw| <= 0xFFFF
      ensures Kin(c)
    {
      this.(outbox := outbox.Append(packet.raw), log := log.(appended := log.appended + [packet.raw]))
    }

    function Forge(flags: u16): (c: Conn)
      requires Ok()
      ensures Kin(c)
    {
      var window := AdvertisedWindow();
      this.(pk := pk.UpdateHeaders(tcb.sequenceNumber, tcb.acknowledgementNumber, flags, window),
            log := log.(
              forged := log.forged + [Forged(tcb.state, flags, tcb.sequenceNumber, tcb.acknowledgementNumber,
                                             log.Place(), window)],
              intact := false))
    }

    function BuildEmpty(): (c: Conn)
      requires Ok()
      ensures Kin(c) && c.pk.ip.TotalLength() == pk.pi
    {
      this.(pk := pk.Build(0))
    }

    function SendEmpty(flags: u16, busy: bool): (c: Conn)
      requires Ok()
      ensures Kin(c)
    {
      var c := Forge(flags).BuildEmpty();
      var packet := c.pk.Inflate(c.pk.pi);
      if c.Fits(packet, busy) then c.Put(packet) else c
    }

    function Close(): (c: Conn)
      requires Ok()
      ensures Kin(c)
    {
      this.(closed := true)
    }

    // ── packets from the device ──

    function Synchronize(s: Segment, state: TcpState): (c: Conn)
      requires Ok()
      ensures Kin(c)
    {
      this.(tcb := tcb.(acknowledgementNumber := Wrap32(s.sequenceNumber + 1), synSequenceNumber := s.sequenceNumber,
                        state := state),
            log := log.(synAt := |log.accepted|, sinceSyn := 0, fins := [], socketEnds := 0, finPlace := 0))
    }

    function HandleFirstPacket(s: Segment, random: u32, busy: bool): (c: Conn)
      requires Ok()
      ensures Kin(c)
    {
      if s.IsSyn() then
        var c := Synchronize(s, SynSent);
        c.(tcb := c.tcb.(sequenceNumber := random, clientWindow := s.window), log := c.log.(initialNumber := random))
      else
        this.(tcb := tcb.(sequenceNumber := s.acknowledgementNumber)).SendEmpty(RST, busy).Close()
    }

    function HandleDuplicateSyn(s: Segment, busy: bool): (c: Conn)
      requires Ok()
      ensures Kin(c)
    {
      if tcb.state.SynSent? then Synchronize(s, SynSent)
      else if s.sequenceNumber != tcb.synSequenceNumber then SendEmpty(RST, busy).Close()
      else this
    }

    function Accepted(s: Segment): Acceptance {
      Acceptance(s.sequenceNumber, tcb.acknowledgementNumber, s.payload, tcb.synSequenceNumber, log.synAt, log.Fins())
    }

    function AcceptPayload(s: Segment): (c: Conn)
      requires Ok() && |s.payload| <= inbox.Remaining()
      ensures Kin(c)
    {
      this.(inbox := inbox.Append(s.payload),
            tcb := tcb.(acknowledgementNumber := Wrap32(tcb.acknowledgementNumber + |s.payload|)),
            log := log.(
              accepted := log.accepted + [Accepted(s)],
              sinceSyn := log.sinceSyn + |s.payload|))
    }

    function HandleAck(s: Segment, busy: bool): (c: Conn)
      requires Ok()
      ensures Kin(c)
    {
      if tcb.state.SynReceived? then this.(tcb := tcb.(state := Established))
      else if s.payload == [] then this
      else if inbox.Remaining() < |s.payload| then SendEmpty(ACK, busy)
      else AcceptPayload(s).SendEmpty(ACK, busy)
    }

    /** One more acknowledged byte that is no payload: a FIN, or the end of the socket. */
    function CountFin(ofSocket: bool): (c: Conn)
      requires Ok()
      ensures Kin(c)
    {
      this.(tcb := tcb.(acknowledgementNumber := Wrap32(tcb.acknowledgementNumber + 1)),
            log := if ofSocket then log.(socketEnds := log.socketEnds + 1)
                   else log.(fins := log.fins + [FinCount(log.finPlace, log.Place())]))
    }

    function SendFin(next: TcpState, busy: bool): (c: Conn)
      requires Ok()
      ensures Kin(c)
    {
      var c := SendEmpty(FIN + ACK, busy);
      c.(tcb := c.tcb.(finSequenceNumber := Some(c.tcb.sequenceNumber),
                       sequenceNumber := Wrap32(c.tcb.sequenceNumber + 1), state := next))
    }

    function DoHandleFin(busy: bool): (r: Conn)
      requires Ok()
      ensures Kin(r)
    {
      var c := CountFin(false);
      match tcb.state
      case Established => c.SendFin(LastAck, busy)
      case FinWait1 => var d := c.SendEmpty(ACK, busy); d.(tcb := d.tcb.(state := Closing))
      case FinWait2 => c.SendEmpty(ACK, busy).Close()
      case _ => c
    }

    function HandleFin(busy: bool): (r: Conn)
      requires Ok()
      ensures Kin(r)
    {
      var c := this.(tcb := tcb.(finReceived := true));
      if inbox.contents == [] then c.DoHandleFin(busy) else c
    }

    function HandleFinAck(): (c: Conn)
      requires Ok()
      ensures Kin(c)
    {
      if tcb.state.LastAck? || tcb.state.Closing? then Close()
      else if tcb.state.FinWait1? then this.(tcb := tcb.(state := FinWait2))
      else this
    }

    /** What every packet with the expected number changes. */
    function Meet(s: Segment): (c: Conn)
      requires Ok()
      ensures Kin(c)
    {
      this.(tcb := tcb.(clientWindow := s.window, theirAcknowledgementNumber := s.acknowledgementNumber),
            log := if s.IsFin() then log.(finPlace := log.Place() + |s.payload|) else log)
    }

    /** The packet carries the expected sequence number. */
    function HandleExpected(s: Segment, busy: bool): (r: Conn)
      requires Ok()
      ensures Kin(r)
    {
      var c := Meet(s);
      if s.IsRst() then c.Close() else
      var d := if s.IsAck() then c.HandleAck(s, busy) else c;
      var e := if s.IsFin() then d.HandleFin(busy) else d;
      if e.tcb.finSequenceNumber.Some? && s.acknowledgementNumber == Wrap32(e.tcb.finSequenceNumber.value + 1)
      then e.HandleFinAck() else e
    }

    function HandlePacket(s: Segment, random: u32, busy: bool): (c: Conn)
      requires Ok()
      ensures Kin(c)
    {
      if tcb.state.Init? then HandleFirstPacket(s, random, busy)
      else if s.IsSyn() then HandleDuplicateSyn(s, busy)
      else if s.sequenceNumber == tcb.acknowledgementNumber then HandleExpected(s, busy)
      else if Wrap32(s.sequenceNumber - tcb.acknowledgementNumber) >= 0x8000_0000 then SendEmpty(ACK, busy)
      else this
    }

    // ── the network socket ──

    function FlushPending(busy: bool): (r: (Conn, bool))
      requires Ok()
      ensures Kin(r.0)
    {
      if deferred.None? then (this, true) else
      var packet := pk.Inflate(deferred.value);
      if !Fits(packet, busy) then (this, false) else
      var c := Put(packet);
      (c.(tcb := tcb.(sequenceNumber := Wrap32(tcb.sequenceNumber + deferred.value)), deferred := None,
          log := c.log.(flushes := log.flushes + [Flush(packet.raw, deferred.value, log.intact)])),
       true)
    }

    function DrainInbox(io: IoWrite): (c: Conn)
      requires Ok()
      ensures Kin(c)
    {
      this.(inbox := inbox.WriteTo(io), log := log.(written := log.written + inbox.Sent(io)))
    }

    function ProcessSend(io: IoWrite, busy: bool): (r: (Conn, bool))
      requires Ok()
      ensures Kin(r.0)
    {
      match inbox.WriteResult(io)
      case Ok(w) =>
        var c := DrainInbox(io);
        (if w == 0 then c.Close()
         else if c.tcb.finReceived && c.inbox.contents == [] then c.DoHandleFin(busy)
         else c.SendEmpty(ACK, busy),
         true)
      case WouldBlock => (this, false)
      case Error => (SendEmpty(RST, busy).Close(), true)
    }

    function PrepareRead(): (c: Conn)
      requires Ok()
      ensures Kin(c)
    {
      var c := Forge(ACK + PSH);
      c.(log := c.log.(attempts := c.log.attempts + [Attempt(tcb, deferred)]))
    }

    /** Build a packet around received bytes; put it in the shared buffer or defer it. */
    function Deliver(payload: seq<byte>, busy: bool): (r: Conn)
      requires Ok() && deferred.None? && 0 < |payload| <= MAX_PAYLOAD_LENGTH
      ensures Kin(r)
    {
      var c := this.(pk := pk.Fill(payload).Build(|payload|));
      var length := pk.pi + |payload|;
      var packet := c.pk.Inflate(length);
      var direct := c.Fits(packet, busy);
      var noted := c.(log := log.(
        received := log.received + payload,
        built := log.built + [Built(tcb, AdvertisedWindow(), payload, packet.raw, direct, FlushedLength(log.flushes))],
        intact := !direct));
      if direct then
        var d := noted.Put(packet);
        d.(tcb := tcb.(sequenceNumber := Wrap32(tcb.sequenceNumber + |payload|)))
      else noted.(deferred := Some(length))
    }

    function Eof(busy: bool): (c: Conn)
      requires Ok()
      ensures Kin(c)
    {
      CountFin(true).SendFin(FinWait1, busy)
    }

    /** One round of the read loop: the new state, whether it made progress, and whether
        the loop goes on. */
    function ReceiveOne(answer: IoRead, busy: bool): (r: (Conn, bool, bool))
      requires Ok() && deferred.None? && tcb.RemainingClientWindow() > 0
      ensures Kin(r.0) && (r.2 ==> r.1)
    {
      var limit := Min(tcb.RemainingClientWindow(), MAX_PAYLOAD_LENGTH);
      var c := PrepareRead();
      match answer
      case Arrived(data) =>
        if data == [] then (c.Eof(busy), true, false) else
        var d := c.Deliver(data[..Min(limit, |data|)], busy);
        (d, d.deferred.None?, d.deferred.None?)
      case ReadBlocks => (c, false, false)
      case ReadFails => (c.SendEmpty(RST, busy).Close(), true, false)
    }

    /** The read loop from its `i`-th round on. */
    function ReceiveFrom(answers: seq<IoRead>, i: nat, busy: bool): (r: (Conn, bool))
      requires Ok() && i <= MAX_PACKETS_PER_POLL
      ensures Kin(r.0)
      decreases MAX_PACKETS_PER_POLL - i
    {
      if i == MAX_PACKETS_PER_POLL || deferred.Some? || tcb.RemainingClientWindow() == 0 then (this, false) else
      var (c, progress, more) := ReceiveOne(if i < |answers| then answers[i] else ReadBlocks, busy);
      if more then (c.ReceiveFrom(answers, i + 1, busy).0, true) else (c, progress)
    }

    function ProcessConnect(busy: bool): (r: Conn)
      requires Ok()
      ensures Kin(r)
    {
      var c := this.(tcb := tcb.(state := SynReceived)).SendEmpty(SYN + ACK, busy);
      c.(tcb := c.tcb.(sequenceNumber := Wrap32(c.tcb.sequenceNumber + 1)))
    }

    /** Probe of a socket that is still connecting: a blocked, failed or finished connect. */
    function TryConnect(io: IoWrite, busy: bool): (r: (Conn, bool))
      requires Ok()
      ensures Kin(r.0)
    {
      if !tcb.state.SynSent? then (this, false)
      else match io
        case Took(_) => (ProcessConnect(busy), true)
        case WriteBlocks => (this, false)
        case WriteFails => (Close(), true)
    }

    /** `poll_self`; the result tells Ok from WouldBlock. */
    function Poll(env: PollEnv): (r: (Conn, bool))
      requires Ok()
      ensures Kin(r.0)
    {
      if closed then (this, true) else
      var (c, flushed) := FlushPending(env.busy);
      if !flushed then (this, false) else
      var (d, sent) := if c.inbox.contents != [] then c.ProcessSend(env.write, env.busy) else (c, false);
      var (e, received) := if !d.closed && d.MayRead() then d.ReceiveFrom(env.answers, 0, env.busy) else (d, false);
      var (f, connected) := e.TryConnect(env.connect, env.busy);
      (f, deferred.Some? || sent || received || connected)
    }
  }

  /** The answers of the outside world during one poll. */
  datatype PollEnv = PollEnv(busy: bool, write: IoWrite, answers: seq<IoRead>, connect: IoWrite)

  function FlushedLength(flushes: seq<Flush>): nat {
    if flushes == [] then 0 else FlushedLength(flushes[..|flushes| - 1]) + flushes[|flushes| - 1].length
  }
}
