/** The invariant of every run of the TCP endpoint, one predicate per concern. */
module TcpInvariant {
  import opened Bytes
  import opened Checksums
  import opened Headers
  import opened Packetizers
  import opened TcpSpec

  // ── what a history amounts to ──

  function AcceptedBytes(a: seq<Acceptance>): seq<byte> {
    if a == [] then [] else AcceptedBytes(a[..|a| - 1]) + a[|a| - 1].payload
  }

  /** The payloads behind the 20-byte TCP header of packets put in the shared buffer. */
  function AppendedPayloads(raws: seq<seq<byte>>, pi: nat): seq<byte> {
    if raws == [] then [] else
    var last := raws[|raws| - 1];
    AppendedPayloads(raws[..|raws| - 1], pi) + if pi <= |last| then last[pi..] else []
  }

  /** Bytes of packets that went to the shared buffer when they were built. */
  function DirectLength(b: seq<Built>): nat {
    if b == [] then 0 else
    var last := b[|b| - 1];
    DirectLength(b[..|b| - 1]) + if last.direct then |last.payload| else 0
  }

  function Deferrals(b: seq<Built>): nat {
    if b == [] then 0 else Deferrals(b[..|b| - 1]) + if b[|b| - 1].direct then 0 else 1
  }

  function Fins(f: seq<Forged>): nat {
    if f == [] then 0 else Fins(f[..|f| - 1]) + f[|f| - 1].flags % 2
  }

  function Syns(f: seq<Forged>): nat {
    if f == [] then 0 else Syns(f[..|f| - 1]) + f[|f| - 1].flags / 2 % 2
  }

  /** The flags of a packet without payload, as a receiver reads them. */
  function ControlFlags(raw: seq<byte>, pi: nat): u16 {
    if |raw| == pi && ParsePacket(raw).Some? && ParsePacket(raw).value.transport.TcpData?
    then ParsePacket(raw).value.transport.flags else 0
  }

  /** FIN and SYN packets handed to the shared buffer; those it had no room for are missing. */
  function FinsHanded(raws: seq<seq<byte>>, pi: nat): nat {
    if raws == [] then 0 else FinsHanded(raws[..|raws| - 1], pi) + ControlFlags(raws[|raws| - 1], pi) % 2
  }

  function SynsHanded(raws: seq<seq<byte>>, pi: nat): nat {
    if raws == [] then 0 else SynsHanded(raws[..|raws| - 1], pi) + ControlFlags(raws[|raws| - 1], pi) / 2 % 2
  }

  // ── the concerns ──

  function Rank(s: TcpState): nat {
    match s
    case Init => 0
    case SynSent => 1
    case SynReceived => 2
    case Established => 3
    case LastAck => 4
    case FinWait1 => 4
    case Closing => 5
    case FinWait2 => 5
  }

  function Relative(c: Conn): nat {
    c.log.Place()
  }

  /** Where each accepted payload lies: behind the SYN it came after, the payloads accepted
      since that SYN and the FINs counted since. */
  ghost predicate Acceptances(c: Conn) {
    && c.log.synAt <= |c.log.accepted| && c.log.sinceSyn == |AcceptedBytes(c.log.accepted[c.log.synAt..])|
    && forall i :: 0 <= i < |c.log.accepted| ==> AcceptedInPlace(c, i)
  }

  ghost predicate AcceptedInPlace(c: Conn, i: nat)
    requires i < |c.log.accepted|
  {
    var a := c.log.accepted[i];
    && a.sequenceNumber == a.expected && a.from <= i
    && a.expected == Wrap32(a.syn + 1 + |AcceptedBytes(c.log.accepted[a.from..i])| + a.fins)
    && (c.log.synAt <= i ==> a.from == c.log.synAt && a.syn == c.tcb.synSequenceNumber && a.fins <= c.log.Fins())
  }

  /** Device to network: nothing accepted is lost or reordered, and the acknowledgement
      number counts it. */
  ghost predicate Upstream(c: Conn) {
    && AcceptedBytes(c.log.accepted) == c.log.written + c.inbox.contents
    && Acceptances(c)
    && (c.tcb.state != Init ==>
          c.tcb.acknowledgementNumber == Wrap32(c.tcb.synSequenceNumber + 1 + Relative(c)))
    && (c.tcb.state == Init ==> c.log.accepted == [])
  }

  /** The window edge advertised in `f` still fits in the free space. */
  ghost predicate EdgeHonoured(c: Conn, f: Forged) {
    && f.relative <= Relative(c)
    && f.relative + f.window - Relative(c) <= c.inbox.Remaining()
    && f.acknowledgementNumber == Wrap32(c.tcb.synSequenceNumber + 1 + f.relative)
  }

  ghost predicate Edges(c: Conn) {
    forall i :: 0 <= i < |c.log.forged| && Rank(c.log.forged[i].state) >= 2 ==>
      Rank(c.tcb.state) >= 2 && EdgeHonoured(c, c.log.forged[i])
  }

  /** What was true whenever the socket was about to be read. */
  predicate ReadAllowed(a: Attempt) {
    a.tcb.state == Established && a.deferred.None? && a.tcb.RemainingClientWindow() > 0
  }

  ghost predicate Lifecycle(c: Conn) {
    && (c.tcb.finSequenceNumber.Some? <==> c.tcb.state.IsClosed())
    && Fins(c.log.forged) == (if c.tcb.state.IsClosed() then 1 else 0)
    && Syns(c.log.forged) == (if Rank(c.tcb.state) >= 2 then 1 else 0)
    && (forall i :: 0 <= i < |c.log.attempts| ==> ReadAllowed(c.log.attempts[i]))
    && (c.log.attempts != [] ==> Rank(c.tcb.state) >= 3)
  }

  /** The sequence number counts what the device was sent, deferred packets with their
      headers included. */
  ghost predicate Numbers(c: Conn) {
    && (c.tcb.state != Init ==>
          c.tcb.sequenceNumber == Wrap32(c.log.initialNumber + Syns(c.log.forged) + DirectLength(c.log.built)
                                         + FlushedLength(c.log.flushes) + Fins(c.log.forged)))
    && |c.log.flushes| + (if c.deferred.Some? then 1 else 0) == Deferrals(c.log.built)
    && (Rank(c.tcb.state) < 3 ==> c.log.built == [])
    && (c.tcb.finSequenceNumber.Some? && Deferrals(c.log.built) == 0 ==>
          c.tcb.sequenceNumber == Wrap32(c.tcb.finSequenceNumber.value + 1))
    && (forall k :: 0 <= k < |c.log.built| ==> Positioned(c, k))
  }

  ghost predicate Positioned(c: Conn, k: nat)
    requires k < |c.log.built|
  {
    var b := c.log.built[k];
    && b.tcb.sequenceNumber == Wrap32(c.log.initialNumber + 1 + DirectLength(c.log.built[..k]) + b.flushedBefore)
    && (Deferrals(c.log.built) == 0 ==> b.flushedBefore == 0)
  }

  /** A packet that its own length field describes, so that a framer cuts it out whole,
      and whose checksums the receiver accepts. */
  ghost predicate Whole(raw: seq<byte>) {
    ParsePacket(raw).Some? && ParsePacket(raw).value.raw == raw && Checksummed(ParsePacket(raw).value)
  }

  ghost predicate Checksummed(p: Packet) {
    var h := p.ip.HeaderLength();
    && h <= |p.raw| <= 0xFFFF
    && (p.ip.V4? ==> Verifies(p.raw[..h]))
    && (p.transport.TcpData? ==> Verifies(PseudoHeader(p.ip, |p.raw| - h) + p.raw[h..]))
  }

  /** The bytes of a data packet say what the control block said. */
  ghost predicate Faithful(b: Built, pi: nat) {
    && Whole(b.raw) && |b.raw| == pi + |b.payload| && b.raw[pi..] == b.payload
    && var t := ParsePacket(b.raw).value.transport;
    && t.TcpData?
    && t.sequenceNumber == b.tcb.sequenceNumber && t.acknowledgementNumber == b.tcb.acknowledgementNumber
    && t.flags == ACK + PSH && t.window == b.window
  }

  ghost predicate InsideClientWindow(b: Built) {
    && b.tcb.state == Established
    && 0 < |b.payload| <= MAX_PAYLOAD_LENGTH
    && Wrap32(b.tcb.sequenceNumber + |b.payload| - b.tcb.theirAcknowledgementNumber) <= b.tcb.clientWindow
  }

  /** Network to device: what was read is what was built, and what was built is in the
      shared buffer or deferred. */
  ghost predicate Downstream(c: Conn) {
    && (forall k :: 0 <= k < |c.log.built| ==> Faithful(c.log.built[k], c.pk.pi) && InsideClientWindow(c.log.built[k]))
    && c.log.received == AppendedPayloads(c.log.appended, c.pk.pi)
                         + (if c.deferred.Some? then Pending(c) else [])
  }

  function Pending(c: Conn): seq<byte> {
    if c.log.built == [] then [] else c.log.built[|c.log.built| - 1].payload
  }

  /** No SYN or FIN is handed over that was not forged. */
  ghost predicate ControlsHanded(c: Conn) {
    && FinsHanded(c.log.appended, c.pk.pi) <= Fins(c.log.forged)
    && SynsHanded(c.log.appended, c.pk.pi) <= Syns(c.log.forged)
  }

  ghost predicate Packets(c: Conn) {
    && ControlsHanded(c)
    && (forall i :: 0 <= i < |c.log.appended| ==> |c.log.appended[i]| >= c.pk.pi)
    && |AppendedPayloads(c.log.appended, c.pk.pi)| + c.pk.pi * |c.log.flushes|
       == DirectLength(c.log.built) + FlushedLength(c.log.flushes)
    && (AllIntact(c.log.flushes) ==> forall i :: 0 <= i < |c.log.appended| ==> Whole(c.log.appended[i]))
  }

  ghost predicate AllIntact(f: seq<Flush>) {
    forall i :: 0 <= i < |f| ==> f[i].intact
  }

  ghost predicate Deferral(c: Conn) {
    && c.pk.Synced()
    && (c.deferred.Some? ==>
          && c.log.built != []
          && var last := c.log.built[|c.log.built| - 1];
          && !last.direct && c.deferred.value == c.pk.pi + |last.payload| <= |c.pk.buf|
          && c.pk.buf[c.pk.pi..c.deferred.value] == last.payload
          && (c.log.intact ==> c.pk.buf[..c.deferred.value] == last.raw && c.pk.ip.TotalLength() == c.deferred.value)
          && (!c.log.intact ==> c.pk.ip.TotalLength() == c.pk.pi))
    && (forall i :: 0 <= i < |c.log.flushes| ==>
          c.log.flushes[i].length == |c.log.flushes[i].raw| >= c.pk.pi)
  }

  ghost predicate Inv(c: Conn) {
    && c.Ok()
    && Upstream(c) && Edges(c) && Lifecycle(c) && Numbers(c) && Downstream(c) && Packets(c) && Deferral(c)
  }
}
