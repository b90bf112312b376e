/** Building IP packets around socket data (packetizer.rs, with the header setters of
    tcp_header.rs, udp_header.rs, ipv4_header.rs and ipv6_header.rs). Header values are
    kept twice, parsed and as raw bytes; `Synced` says that the two agree. */
module Packetizers {
  import opened Bytes
  import opened Checksums
  import opened Headers
  import opened TcpChecksum

  const MAX_PACKET_LENGTH: nat := 0x1_0000

  /** A finished packet, as `IpPacket` presents it to its users. */
  datatype Packet = Packet(raw: seq<byte>, ip: IpHeaderData, transport: TransportHeaderData)

  /** `IpPacket::parse` on a buffer that starts with a TCP or UDP packet: the headers
      are read from the bytes, and the raw packet ends where the IP header says. */
  function ParseIp(raw: seq<byte>): Option<IpHeaderData> {
    if |raw| >= 20 && raw[0] / 16 == 4 then Some(ParseIpv4(raw))
    else if |raw| >= 40 && raw[0] / 16 == 6 then Some(ParseIpv6(raw))
    else None
  }

  function ParseTransport(protocol: Protocol, raw: seq<byte>, off: nat): Option<TransportHeaderData> {
    if protocol == Tcp && off + 16 <= |raw| then Some(ParseTcp(raw, off))
    else if protocol == Udp && off + 4 <= |raw| then Some(ParseUdp(raw, off))
    else None
  }

  function ParsePacket(raw: seq<byte>): Option<Packet> {
    var ip := ParseIp(raw);
    if ip.None? || ip.value.TotalLength() > |raw| then None else
    var packet := raw[..ip.value.TotalLength()];
    // the IPv4 parser looks for the transport header in all of its input
    var transport := ParseTransport(ip.value.TransportProtocol(), if ip.value.V4? then raw else packet,
                                    ip.value.HeaderLength());
    if transport.None? then None else Some(Packet(packet, ip.value, transport.value))
  }

  datatype Pk = Pk(buf: seq<byte>, ti: nat, pi: nat, ip: IpHeaderData, tr: TransportHeaderData) {

    /** What every slice taken by the source needs. */
    ghost predicate Shaped() {
      && |buf| == MAX_PACKET_LENGTH
      && 20 <= ti <= 60 && ti % 2 == 0 && ti == ip.HeaderLength()
      && pi == ti + tr.HeaderLength()
      && (tr.TcpData? ==> 20 <= tr.headerLength <= 60 && tr.headerLength % 2 == 0)
      && ValidAddresses(ip)
    }

    /** The raw bytes of both headers parse to the stored data. */
    ghost predicate Synced() {
      && Shaped()
      && ParseIp(buf) == Some(ip)
      && ParseTransport(ip.TransportProtocol(), buf, ti) == Some(tr)
    }

    function SetSequenceNumber(v: u32): Pk
      requires Shaped() && tr.TcpData?
    {
      this.(buf := PutU32(buf, ti + 4, v), tr := tr.(sequenceNumber := v))
    }

    function SetAcknowledgementNumber(v: u32): Pk
      requires Shaped() && tr.TcpData?
    {
      this.(buf := PutU32(buf, ti + 8, v), tr := tr.(acknowledgementNumber := v))
    }

    function SetFlags(v: u16): Pk
      requires Shaped() && tr.TcpData?
    {
      var w := U16At(buf, ti + 12);
      this.(buf := PutU16(buf, ti + 12, w - w % 0x200 + v % 0x200), tr := tr.(flags := v))
    }

    function SetWindow(v: u16): Pk
      requires Shaped() && tr.TcpData?
    {
      this.(buf := PutU16(buf, ti + 14, v), tr := tr.(window := v))
    }

    /** `update_headers` of tcp_connection.rs. */
    function UpdateHeaders(sequence: u32, ack: u32, flags: u16, window: u16): (p: Pk)
      requires Shaped() && tr.TcpData?
      ensures p.Shaped() && p.tr.TcpData? && p.ti == ti && p.pi == pi && p.ip == ip
      ensures p.tr == tr.(sequenceNumber := sequence, acknowledgementNumber := ack, flags := flags, window := window)
    {
      SetSequenceNumber(sequence).SetAcknowledgementNumber(ack).SetFlags(flags).SetWindow(window)
    }

    /** Receiving into the payload area. */
    function Fill(data: seq<byte>): (p: Pk)
      requires Shaped() && pi + |data| <= MAX_PACKET_LENGTH
      ensures p.Shaped() && p.ti == ti && p.pi == pi && p.ip == ip && p.tr == tr
      ensures p.buf[pi..pi + |data|] == data
    {
      this.(buf := Splice(buf, pi, data))
    }

    function SetLengths(n: nat): (p: Pk)
      requires Shaped() && pi + n <= 0xFFFF
      ensures p.Shaped() && p.ti == ti && p.pi == pi && p.tr == tr
      ensures p.ip == if ip.V4? then ip.(totalLength := pi + n) else ip.(payloadLength := pi + n - 40)
      ensures forall k :: pi <= k < |buf| ==> p.buf[k] == buf[k]
    {
      var p := if ip.V4? then this.(buf := PutU16(buf, 2, pi + n), ip := ip.(totalLength := pi + n))
               else this.(buf := PutU16(buf, 4, pi + n - 40), ip := ip.(payloadLength := pi + n - 40));
      if tr.UdpData? then p.(buf := PutU16(p.buf, ti + 4, 8 + n)) else p
    }

    function ComputeChecksums(total: nat): (p: Pk)
      requires Shaped() && pi <= total <= 0xFFFF
      ensures p == this.(buf := p.buf) && |p.buf| == |buf|
      ensures forall k :: pi <= k < |buf| ==> p.buf[k] == buf[k]
    {
      var p := if ip.V4? then this.(buf := WithChecksum(buf, [], 0, ti, 10)) else this;
      if tr.UdpData? then p.(buf := PutU16(p.buf, ti + 6, 0))
      else p.(buf := WithChecksum(p.buf, PseudoHeader(ip, total - ti), ti, total, ti + 16))
    }

    function Build(n: nat): (p: Pk)
      requires Shaped() && pi + n <= 0xFFFF
      ensures p.Shaped() && p.ti == ti && p.pi == pi && p.tr == tr
      ensures p.ip == if ip.V4? then ip.(totalLength := pi + n) else ip.(payloadLength := pi + n - 40)
      ensures forall k :: pi <= k < |buf| ==> p.buf[k] == buf[k]
    {
      hide SetLengths;
      hide ComputeChecksums;
      SetLengths(n).ComputeChecksums(pi + n)
    }

    /** The packet made of the first `length` bytes and the headers as they are now. */
    function Inflate(length: nat): Packet
      requires length <= |buf|
    {
      Packet(buf[..length], ip, tr)
    }
  }

  /** `shrink_options` on a copy of the first 20 bytes of a TCP header. */
  function ShrinkOptions(tcp: seq<byte>): (r: seq<byte>)
    requires |tcp| >= 20
    ensures |r| == 20
  {
    ShrunkWord(U16At(tcp, 12));
    PutU16(tcp[..20], 12, U16At(tcp, 12) % 0x1000 + 5 * 0x1000)
  }

  lemma ShrunkWord(w: u16)
    ensures var v := w % 0x1000 + 5 * 0x1000;
      0 <= v < 0x1_0000 && v / 0x1000 == 5 && v % 0x200 == w % 0x200 && v % 0x100 == w % 0x100
  {
  }

  /** A reference packet's headers that `Packetizer::new` can work with. */
  ghost predicate ValidReference(ipRaw: seq<byte>, trRaw: seq<byte>) {
    && ParseIp(ipRaw).Some? && |ipRaw| == ParseIp(ipRaw).value.HeaderLength()
    && var tr := ParseTransport(ParseIp(ipRaw).value.TransportProtocol(), trRaw, 0);
    && tr.Some? && |trRaw| == tr.value.HeaderLength()
    && (tr.value.TcpData? ==> |trRaw| >= 20)
  }

  /** The reference's header bytes at the front of a blank buffer, endpoints exchanged. */
  function NewBytes(ipRaw: seq<byte>, trRaw: seq<byte>, v4: bool): (b: seq<byte>)
    requires |ipRaw| >= (if v4 then 20 else 40) && |trRaw| >= 4 && |ipRaw| + |trRaw| <= MAX_PACKET_LENGTH
    ensures |b| == MAX_PACKET_LENGTH
  {
    var ip := if v4 then SwapBlocks(ipRaw, 12, 16, 4) else SwapBlocks(ipRaw, 8, 24, 16);
    ip + SwapBlocks(trRaw, 0, 2, 2) + seq(MAX_PACKET_LENGTH - |ipRaw| - |trRaw|, _ => 0 as byte)
  }

  function NewPk(ipRaw: seq<byte>, trRaw: seq<byte>): (p: Pk)
    requires ValidReference(ipRaw, trRaw)
    ensures p.Shaped()
  {
    var ip := ParseIp(ipRaw).value;
    var tr := ParseTransport(ip.TransportProtocol(), trRaw, 0).value;
    Pk(NewBytes(ipRaw, trRaw, ip.V4?), |ipRaw|, |ipRaw| + |trRaw|, ip.Swapped(), tr.Swapped())
  }
}
