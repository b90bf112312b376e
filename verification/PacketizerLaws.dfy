/** Building and parsing are inverse, from the creation of a packetizer through any
    sequence of header changes, payloads and builds. */
module PacketizerLaws {
  import opened Bytes
  import opened Checksums
  import opened Headers
  import opened TcpChecksum
  import opened Packetizers

  /** Parsing the IP header depends on its bytes only, and for IPv4 not on the checksum. */
  lemma IpHeaderFrame(s: seq<byte>, t: seq<byte>)
    requires ParseIp(s).Some? && |s| == |t|
    requires forall k :: 0 <= k < (if s[0] / 16 == 4 then 20 else 40) && !(s[0] / 16 == 4 && 10 <= k < 12)
               ==> t[k] == s[k]
    ensures ParseIp(t) == ParseIp(s)
  {
    if s[0] / 16 == 6 {
      assert t[8..24] == s[8..24] && t[24..40] == s[24..40];
    }
  }

  lemma TransportFrame(protocol: Protocol, s: seq<byte>, t: seq<byte>, off: nat)
    requires ParseTransport(protocol, s, off).Some? && |s| == |t|
    requires forall k :: off <= k < |s| && k < off + 16 && !(protocol == Udp && k >= off + 4) ==> t[k] == s[k]
    ensures ParseTransport(protocol, t, off) == ParseTransport(protocol, s, off)
  {
  }

  lemma NewIpParses(ipRaw: seq<byte>, rest: seq<byte>, v4: bool)
    requires |ipRaw| >= (if v4 then 20 else 40) && ipRaw[0] / 16 == (if v4 then 4 else 6)
    ensures
      var swapped := if v4 then SwapBlocks(ipRaw, 12, 16, 4) else SwapBlocks(ipRaw, 8, 24, 16);
      ParseIp(swapped + rest) == Some(ParseIp(ipRaw).value.Swapped())
  {
    if v4 {
      var r := SwapBlocks(ipRaw, 12, 16, 4);
      assert forall k :: 0 <= k < 4 ==> r[12 + k] == r[12..16][k] == ipRaw[16..20][k];
      assert forall k :: 0 <= k < 4 ==> r[16 + k] == r[16..20][k] == ipRaw[12..16][k];
      assert forall k :: 0 <= k < 20 ==> (r + rest)[k] == r[k];
    } else {
      var r := SwapBlocks(ipRaw, 8, 24, 16);
      assert (r + rest)[8..24] == r[8..24] && (r + rest)[24..40] == r[24..40];
    }
  }

  lemma NewTransportParses(protocol: Protocol, before: seq<byte>, trRaw: seq<byte>, rest: seq<byte>)
    requires ParseTransport(protocol, trRaw, 0).Some?
    ensures |trRaw| >= 4
    ensures ParseTransport(protocol, before + SwapBlocks(trRaw, 0, 2, 2) + rest, |before|)
         == Some(ParseTransport(protocol, trRaw, 0).value.Swapped())
  {
    var r := SwapBlocks(trRaw, 0, 2, 2);
    var all := before + r + rest;
    assert forall k :: 0 <= k < 2 ==> r[k] == r[0..2][k] == trRaw[2..4][k];
    assert forall k :: 0 <= k < 2 ==> r[2 + k] == r[2..4][k] == trRaw[0..2][k];
    assert all[|before|..|before| + |r|] == r;
    forall k | 0 <= k < |r|
      ensures all[|before| + k] == r[k]
    {
    }
  }

  /** A new packetizer holds the reference's headers with both endpoints exchanged. */
  lemma NewIsSynced(ipRaw: seq<byte>, trRaw: seq<byte>)
    requires ValidReference(ipRaw, trRaw)
    ensures NewPk(ipRaw, trRaw).Synced()
    ensures NewPk(ipRaw, trRaw).ip == ParseIp(ipRaw).value.Swapped()
    ensures Some(NewPk(ipRaw, trRaw).tr.Swapped())
         == ParseTransport(ParseIp(ipRaw).value.TransportProtocol(), trRaw, 0)
  {
    var p := NewPk(ipRaw, trRaw);
    var ip := ParseIp(ipRaw).value;
    var swapped := if ip.V4? then SwapBlocks(ipRaw, 12, 16, 4) else SwapBlocks(ipRaw, 8, 24, 16);
    var tr := SwapBlocks(trRaw, 0, 2, 2);
    var blank := seq(MAX_PACKET_LENGTH - |ipRaw| - |trRaw|, _ => 0 as byte);
    assert p.buf == swapped + (tr + blank);
    NewIpParses(ipRaw, tr + blank, ip.V4?);
    NewTransportParses(ip.TransportProtocol(), swapped, trRaw, blank);
  }

  lemma SequenceNumberParses(s: seq<byte>, off: nat, v: u32)
    requires off + 16 <= |s|
    ensures var d := ParseTcp(s, off);
      d.TcpData? && ParseTcp(PutU32(s, off + 4, v), off) == d.(sequenceNumber := v)
  {
    var r := PutU32(s, off + 4, v);
    assert U32At(r, off + 4) == v;
  }

  lemma AcknowledgementNumberParses(s: seq<byte>, off: nat, v: u32)
    requires off + 16 <= |s|
    ensures var d := ParseTcp(s, off);
      d.TcpData? && ParseTcp(PutU32(s, off + 8, v), off) == d.(acknowledgementNumber := v)
  {
    var r := PutU32(s, off + 8, v);
    assert U32At(r, off + 8) == v;
  }

  lemma FlagsParse(s: seq<byte>, off: nat, v: u16)
    requires off + 16 <= |s|
    ensures var w, d := U16At(s, off + 12), ParseTcp(s, off);
      d.TcpData? && ParseTcp(PutU16(s, off + 12, w - w % 0x200 + v % 0x200), off) == d.(flags := v % 0x200)
  {
    FlagsWord(U16At(s, off + 12), v);
  }

  /** Replacing the low nine bits keeps the data offset. */
  lemma FlagsWord(w: u16, v: u16)
    ensures var x := w - w % 0x200 + v % 0x200;
      0 <= x < 0x1_0000 && x % 0x200 == v % 0x200 && x / 0x1000 == w / 0x1000
  {
  }

  lemma WindowParses(s: seq<byte>, off: nat, v: u16)
    requires off + 16 <= |s|
    ensures var d := ParseTcp(s, off);
      d.TcpData? && ParseTcp(PutU16(s, off + 14, v), off) == d.(window := v)
  {
  }

  /** The stored flags agree with the nine bits kept in the header exactly when they
      fit in nine bits. */
  lemma SetFlagsSynced(p: Pk, flags: u16)
    requires p.Synced() && p.tr.TcpData?
    ensures ParseTcp(p.SetFlags(flags).buf, p.ti) == p.tr.(flags := flags % 0x200)
    ensures p.SetFlags(flags).Synced() <==> flags < 0x200
  {
    hide ParseIpv4;
    hide ParseIpv6;
    hide ParseTcp;
    hide PutU16;
    FlagsParse(p.buf, p.ti, flags);
    IpHeaderFrame(p.buf, p.SetFlags(flags).buf);
  }

  /** Dropping the options keeps every other field. */
  lemma ShrinkOptionsParses(tcp: seq<byte>)
    requires |tcp| >= 20
    ensures var d := ParseTcp(tcp, 0); d.TcpData? && ParseTcp(ShrinkOptions(tcp), 0) == d.(headerLength := 20)
  {
    ShrunkWord(U16At(tcp, 12));
  }

  /** A header change touches nothing outside the transport header. */
  lemma UpdateHeadersFrame(p: Pk, sequence: u32, ack: u32, flags: u16, window: u16)
    requires p.Shaped() && p.tr.TcpData?
    ensures forall k :: 0 <= k < |p.buf| && !(p.ti + 4 <= k < p.ti + 16)
              ==> p.UpdateHeaders(sequence, ack, flags, window).buf[k] == p.buf[k]
  {
  }

  lemma UpdateHeadersParse(p: Pk, sequence: u32, ack: u32, flags: u16, window: u16)
    requires p.Shaped() && p.tr.TcpData? && ParseTcp(p.buf, p.ti) == p.tr && flags < 0x200
    ensures var q := p.UpdateHeaders(sequence, ack, flags, window); ParseTcp(q.buf, p.ti) == q.tr
  {
    hide ParseTcp;
    SequenceNumberParses(p.buf, p.ti, sequence);
    var p1 := p.SetSequenceNumber(sequence);
    AcknowledgementNumberParses(p1.buf, p.ti, ack);
    var p2 := p1.SetAcknowledgementNumber(ack);
    FlagsParse(p2.buf, p.ti, flags);
    var p3 := p2.SetFlags(flags);
    WindowParses(p3.buf, p.ti, window);
  }

  lemma UpdateHeadersSynced(p: Pk, sequence: u32, ack: u32, flags: u16, window: u16)
    requires p.Synced() && p.tr.TcpData? && flags < 0x200
    ensures p.UpdateHeaders(sequence, ack, flags, window).Synced()
  {
    hide ParseTcp;
    hide Pk.UpdateHeaders;
    UpdateHeadersParse(p, sequence, ack, flags, window);
    UpdateHeadersFrame(p, sequence, ack, flags, window);
    IpHeaderFrame(p.buf, p.UpdateHeaders(sequence, ack, flags, window).buf);
  }

  lemma FillSynced(p: Pk, data: seq<byte>)
    requires p.Synced() && p.pi + |data| <= MAX_PACKET_LENGTH
    ensures p.Fill(data).Synced()
  {
    IpHeaderFrame(p.buf, p.Fill(data).buf);
    TransportFrame(p.ip.TransportProtocol(), p.buf, p.Fill(data).buf, p.ti);
  }

  lemma SetLengthsSynced(p: Pk, n: nat)
    requires p.Synced() && p.pi + n <= 0xFFFF
    ensures p.SetLengths(n).Synced()
  {
    hide ParseTcp;
    hide ParseUdp;
    hide ParseIpv4;
    hide ParseIpv6;
    hide PutU16;
    var q := p.SetLengths(n);
    var b := if p.ip.V4? then PutU16(p.buf, 2, p.pi + n) else PutU16(p.buf, 4, p.pi + n - 40);
    LengthFieldParses(p.buf, p.pi + n);
    IpHeaderFrame(b, q.buf);
    TransportFrame(p.ip.TransportProtocol(), p.buf, q.buf, p.ti);
  }

  lemma LengthFieldParses(s: seq<byte>, total: u16)
    requires ParseIp(s).Some? && (ParseIp(s).value.V6? ==> total >= 40)
    ensures var ip := ParseIp(s).value;
      if ip.V4? then ParseIp(PutU16(s, 2, total)) == Some(ip.(totalLength := total))
      else ParseIp(PutU16(s, 4, total - 40)) == Some(ip.(payloadLength := total - 40))
  {
    if ParseIp(s).value.V6? {
      var b := PutU16(s, 4, total - 40);
      assert b[8..24] == s[8..24] && b[24..40] == s[24..40];
    }
  }

  lemma ComputeChecksumsSynced(p: Pk, total: nat)
    requires p.Synced() && p.pi <= total <= 0xFFFF
    ensures p.ComputeChecksums(total).Synced()
  {
    var q := p.ComputeChecksums(total);
    IpHeaderFrame(p.buf, q.buf);
    TransportFrame(p.ip.TransportProtocol(), p.buf, q.buf, p.ti);
  }

  lemma BuildSynced(p: Pk, n: nat)
    requires p.Synced() && p.pi + n <= 0xFFFF
    ensures p.Build(n).Synced()
  {
    hide Pk.SetLengths;
    hide Pk.ComputeChecksums;
    hide ParseIp;
    hide ParseTransport;
    SetLengthsSynced(p, n);
    ComputeChecksumsSynced(p.SetLengths(n), p.pi + n);
  }

  /** Both checksums verify at the receiver once they are computed. */
  lemma ChecksumsVerify(p: Pk, total: nat)
    requires p.Shaped() && p.pi <= total <= 0xFFFF
    ensures var b := p.ComputeChecksums(total).buf;
      && (p.ip.V4? ==> Verifies(b[..p.ti]))
      && (p.tr.TcpData? ==> Verifies(PseudoHeader(p.ip, total - p.ti) + b[p.ti..total]))
  {
    hide PseudoHeader;
    hide Verifies;
    hide WithChecksum;
    var h := if p.ip.V4? then WithChecksum(p.buf, [], 0, p.ti, 10) else p.buf;
    var b := p.ComputeChecksums(total).buf;
    if p.ip.V4? {
      WithChecksumVerifies(p.buf, [], 0, p.ti, 10);
      assert [] + h[0..p.ti] == b[..p.ti];
    }
    if p.tr.TcpData? {
      PseudoHeaderIsEven(p.ip, total - p.ti);
      WithChecksumVerifies(h, PseudoHeader(p.ip, total - p.ti), p.ti, total, p.ti + 16);
    }
  }

  lemma PseudoHeaderIsEven(ip: IpHeaderData, length: u16)
    requires ValidAddresses(ip)
    ensures |PseudoHeader(ip, length)| % 2 == 0
  {
    if ip.V4? { PseudoHeaderSumV4(ip, length); } else { PseudoHeaderSumV6(ip, length); }
  }

  /** Receiver check for every built packet. */
  lemma BuildVerifies(p: Pk, n: nat)
    requires p.Shaped() && p.pi + n <= 0xFFFF
    ensures var b := p.Build(n);
      && (p.ip.V4? ==> Verifies(b.buf[..p.ti]))
      && (p.tr.TcpData? ==> Verifies(PseudoHeader(b.ip, p.pi + n - p.ti) + b.buf[p.ti..p.pi + n]))
  {
    hide PseudoHeader;
    hide Verifies;
    hide Pk.SetLengths;
    hide Pk.ComputeChecksums;
    ChecksumsVerify(p.SetLengths(n), p.pi + n);
  }

  lemma ParseIpPrefix(s: seq<byte>, n: nat)
    requires ParseIp(s).Some? && n <= |s| && n >= (if s[0] / 16 == 4 then 20 else 40)
    ensures ParseIp(s[..n]) == ParseIp(s)
  {
    if s[0] / 16 == 6 {
      assert s[..n][8..24] == s[8..24] && s[..n][24..40] == s[24..40];
    }
  }

  lemma ParseTransportPrefix(protocol: Protocol, s: seq<byte>, off: nat, n: nat)
    requires ParseTransport(protocol, s, off).Some? && n <= |s|
    requires n >= off + if protocol == Tcp then 16 else 4
    ensures ParseTransport(protocol, s[..n], off) == ParseTransport(protocol, s, off)
  {
  }

  /** What no parser reads: the length field and the disabled checksum of UDP. */
  ghost predicate UdpFieldsRight(raw: seq<byte>, ti: nat) {
    ti + 8 <= |raw| && U16At(raw, ti + 4) == |raw| - ti && U16At(raw, ti + 6) == 0
  }

  lemma BuildSetsUdpFields(p: Pk, n: nat)
    requires p.Shaped() && p.pi + n <= 0xFFFF && p.tr.UdpData?
    ensures UdpFieldsRight(p.Build(n).buf[..p.pi + n], p.ti)
  {
    hide WithChecksum;
    var a := p.SetLengths(n);
    assert U16At(a.buf, p.ti + 4) == 8 + n;
    var h := if p.ip.V4? then WithChecksum(a.buf, [], 0, p.ti, 10) else a.buf;
    var b := p.Build(n);
    assert b.buf == PutU16(h, p.ti + 6, 0);
    var raw := b.buf[..p.pi + n];
    assert forall k :: p.ti <= k < p.ti + 8 ==> raw[k] == b.buf[k];
  }

  /** Main law: the bytes of a built packet parse to exactly the stored headers, with
      the right lengths and the payload that was put in. */
  lemma BuildParses(p: Pk, n: nat)
    requires p.Synced() && p.pi + n <= 0xFFFF
    ensures var b := p.Build(n); var raw := b.buf[..p.pi + n];
      && ParsePacket(raw) == Some(Packet(raw, b.ip, b.tr))
      && b.ip.TotalLength() == |raw|
      && (p.tr.UdpData? ==> UdpFieldsRight(raw, p.ti))
      && raw[p.pi..] == p.buf[p.pi..p.pi + n]
  {
    hide UdpFieldsRight;
    hide Pk.Build;
    hide ParsePacket;
    hide ParseIp;
    hide ParseTransport;
    BuildSynced(p, n);
    if p.tr.UdpData? {
      BuildSetsUdpFields(p, n);
    }
    SyncedParses(p.Build(n), p.pi + n);
    assert p.Build(n).buf[..p.pi + n][p.pi..] == p.buf[p.pi..p.pi + n];
  }

  lemma SyncedParses(b: Pk, total: nat)
    requires b.Synced() && b.pi <= total == b.ip.TotalLength()
    ensures total <= |b.buf|
    ensures ParsePacket(b.buf[..total]) == Some(Packet(b.buf[..total], b.ip, b.tr))
  {
    assert b.ip.HeaderLength() == b.ti && (b.buf[0] / 16 == 6 ==> b.ti == 40) && (b.buf[0] / 16 == 4 ==> b.ti >= 20);
    ParseIpPrefix(b.buf, total);
    ParseTransportPrefix(b.ip.TransportProtocol(), b.buf, b.ti, total);
    assert b.buf[..total][..total] == b.buf[..total];
  }

  /** Inflating gives a packet that is what its bytes say if and only if the length asked
      for is the one the header holds now. */
  lemma InflateParsesIff(p: Pk, length: nat)
    requires p.Synced() && p.pi <= length <= |p.buf|
    ensures ParsePacket(p.Inflate(length).raw) == Some(p.Inflate(length)) <==> p.ip.TotalLength() == length
  {
    var raw := p.buf[..length];
    ParseIpPrefix(p.buf, length);
    if p.ip.TotalLength() == length {
      SyncedParses(p, length);
    } else if p.ip.TotalLength() < length {
      assert |raw[..p.ip.TotalLength()]| != |raw|;
    }
  }

  /** The uses of a packetizer after its creation. */
  datatype Use =
    | Headers(sequence: u32, ack: u32, flags: u16, window: u16)
    | Payload(data: seq<byte>)
    | BuildOf(n: nat)

  ghost predicate Legal(p: Pk, use: Use) {
    match use
    case Headers(_, _, flags, _) => p.tr.TcpData? && flags < 0x200
    case Payload(data) => p.pi + |data| <= MAX_PACKET_LENGTH
    case BuildOf(n) => p.pi + n <= 0xFFFF
  }

  function Apply(p: Pk, use: Use): (q: Pk)
    requires p.Shaped() && Legal(p, use)
    ensures q.Shaped() && q.pi == p.pi && q.ti == p.ti
  {
    match use
    case Headers(s, a, f, w) => p.UpdateHeaders(s, a, f, w)
    case Payload(data) => p.Fill(data)
    case BuildOf(n) => p.Build(n)
  }

  ghost predicate AllLegal(p: Pk, uses: seq<Use>)
    requires p.Shaped()
    decreases |uses|
  {
    uses != [] ==> Legal(p, uses[0]) && AllLegal(Apply(p, uses[0]), uses[1..])
  }

  function ApplyAll(p: Pk, uses: seq<Use>): (q: Pk)
    requires p.Shaped() && AllLegal(p, uses)
    decreases |uses|
  {
    if uses == [] then p else ApplyAll(Apply(p, uses[0]), uses[1..])
  }

  ghost predicate SameEndpoints(p: Pk, q: Pk) {
    && p.ti == q.ti && p.pi == q.pi && p.ip.V4? == q.ip.V4? && p.tr.TcpData? == q.tr.TcpData?
    && p.ip.TransportProtocol() == q.ip.TransportProtocol()
    && (p.ip.V4? ==> p.ip.source4 == q.ip.source4 && p.ip.destination4 == q.ip.destination4)
    && (p.ip.V6? ==> p.ip.source6 == q.ip.source6 && p.ip.destination6 == q.ip.destination6)
    && p.tr.sourcePort == q.tr.sourcePort && p.tr.destinationPort == q.tr.destinationPort
    && (p.tr.TcpData? ==> p.tr.headerLength == q.tr.headerLength)
  }

  lemma {:induction false} UsesKeepSync(p: Pk, uses: seq<Use>)
    requires p.Synced() && AllLegal(p, uses)
    ensures ApplyAll(p, uses).Synced() && SameEndpoints(p, ApplyAll(p, uses))
    decreases |uses|
  {
    if uses != [] {
      match uses[0] {
        case Headers(s, a, f, w) => UpdateHeadersSynced(p, s, a, f, w);
        case Payload(data) => FillSynced(p, data);
        case BuildOf(n) => BuildSynced(p, n);
      }
      UsesKeepSync(Apply(p, uses[0]), uses[1..]);
    }
  }

  /** From a reference packet, through any uses, to a parsed result: the built bytes
      parse to the stored headers, whose endpoints are the reference's exchanged. */
  lemma BuildAndParseAreInverse(ipRaw: seq<byte>, trRaw: seq<byte>, uses: seq<Use>, n: nat)
    requires ValidReference(ipRaw, trRaw)
    requires AllLegal(NewPk(ipRaw, trRaw), uses)
    requires |ipRaw| + |trRaw| + n <= 0xFFFF
    ensures
      var p := ApplyAll(NewPk(ipRaw, trRaw), uses);
      p.Shaped() && p.pi == |ipRaw| + |trRaw| &&
      var raw := p.Build(n).buf[..p.pi + n];
      && ParsePacket(raw) == Some(Packet(raw, p.Build(n).ip, p.tr))
      && SameEndpoints(NewPk(ipRaw, trRaw), p.Build(n))
      && p.Build(n).ip.TotalLength() == |raw|
      && (p.tr.UdpData? ==> UdpFieldsRight(raw, |ipRaw|))
      && raw[p.pi..] == p.buf[p.pi..p.pi + n]
  {
    hide UdpFieldsRight;
    hide NewPk;
    hide Pk.Build;
    hide ParsePacket;
    hide SameEndpoints;
    hide ParseTcp;
    hide ParseUdp;
    hide ParseIpv4;
    hide ParseIpv6;
    NewIsSynced(ipRaw, trRaw);
    var first := NewPk(ipRaw, trRaw);
    UsesKeepSync(first, uses);
    assert first.pi == |ipRaw| + |trRaw|;
    var p := ApplyAll(first, uses);
    SameIndex(first, p);
    assert first.ti == |ipRaw|;
    BuildParses(p, n);
    BuildSameEndpoints(first, p, n);
  }

  lemma SameIndex(p: Pk, q: Pk)
    requires SameEndpoints(p, q)
    ensures p.pi == q.pi && p.ti == q.ti
  {
  }

  lemma BuildSameEndpoints(p: Pk, q: Pk, n: nat)
    requires SameEndpoints(p, q) && q.Shaped() && q.pi + n <= 0xFFFF
    ensures SameEndpoints(p, q.Build(n))
  {
    hide Pk.Build;
  }
}
