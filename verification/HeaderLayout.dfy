/** The layouts of the standards, written out as encoders, and the parsers that invert them:
    section 3.1 of RFC 791, section 3 of RFC 8200, section 3.1 of RFC 9293, RFC 768. */
module HeaderLayout {
  import opened Bytes
  import opened Headers
  import opened TcpSpec

  function Word(v: u16): (s: seq<byte>)
    ensures |s| == 2
  {
    [v / 0x100, v % 0x100]
  }

  function DoubleWord(v: u32): (s: seq<byte>)
    ensures |s| == 4
  {
    Word(v / 0x1_0000) + Word(v % 0x1_0000)
  }

  lemma WordsParse(before: seq<byte>, v: u32, after: seq<byte>)
    ensures v < 0x1_0000 ==> U16At(before + Word(v) + after, |before|) == v
    ensures U32At(before + DoubleWord(v) + after, |before|) == v
  {
    var s := before + DoubleWord(v) + after;
    assert s[|before|..|before| + 4] == DoubleWord(v);
    assert U32At(s, |before|) == U32At(s[|before|..|before| + 4], 0);
    if v < 0x1_0000 {
      var t := before + Word(v) + after;
      assert t[|before|..|before| + 2] == Word(v);
      assert U16At(t, |before|) == U16At(t[|before|..|before| + 2], 0);
    }
  }

  // ── IPv4 ──

  function Ipv4Bytes(ihl: byte, service: byte, total: u16, identification: u16, fragment: u16, hops: byte,
                     protocol: byte, checksum: u16, source: u32, destination: u32): (s: seq<byte>)
    requires ihl < 16
    ensures |s| == 20 && s[0] / 16 == 4
  {
    [0x40 + ihl, service] + Word(total) + Word(identification) + Word(fragment) + [hops, protocol] + Word(checksum)
    + DoubleWord(source) + DoubleWord(destination)
  }

  function ProtocolOf(number: byte): Protocol {
    if number == 1 then Icmp else if number == 6 then Tcp else if number == 17 then Udp else Other
  }

  lemma Ipv4Parses(ihl: byte, service: byte, total: u16, identification: u16, fragment: u16, hops: byte,
                   protocol: byte, checksum: u16, source: u32, destination: u32, rest: seq<byte>)
    requires ihl < 16
    ensures
      var s := Ipv4Bytes(ihl, service, total, identification, fragment, hops, protocol, checksum, source, destination);
      ParseIpv4(s + rest) == V4(4 * ihl, total, ProtocolOf(protocol), source, destination)
  {
    hide DoubleWord;
    hide U16At;
    hide U32At;
    var s := Ipv4Bytes(ihl, service, total, identification, fragment, hops, protocol, checksum, source, destination);
    var all := s + rest;
    var a := [0x40 + ihl, service];
    var tail := Word(identification) + Word(fragment) + [hops, protocol] + Word(checksum)
                + DoubleWord(source) + DoubleWord(destination) + rest;
    assert all == a + Word(total) + tail;
    WordsParse(a, total, tail);
    var b := a + Word(total) + Word(identification) + Word(fragment) + [hops, protocol] + Word(checksum);
    assert all == b + DoubleWord(source) + (DoubleWord(destination) + rest);
    WordsParse(b, source, DoubleWord(destination) + rest);
    assert all == (b + DoubleWord(source)) + DoubleWord(destination) + rest;
    WordsParse(b + DoubleWord(source), destination, rest);
    assert all[9] == b[9] == protocol;
  }

  // ── IPv6 ──

  function Ipv6Bytes(trafficClass: byte, flow: u32, length: u16, next: byte, hops: byte, source: seq<byte>,
                     destination: seq<byte>): (s: seq<byte>)
    requires flow < 0x10_0000 && |source| == |destination| == 16
    ensures |s| == 40
  {
    [0x60 + trafficClass / 16, trafficClass % 16 * 16 + flow / 0x1_0000] + Word(flow % 0x1_0000) + Word(length)
    + [next, hops] + source + destination
  }

  lemma Ipv6Parses(trafficClass: byte, flow: u32, length: u16, next: byte, hops: byte, source: seq<byte>,
                   destination: seq<byte>, rest: seq<byte>)
    requires flow < 0x10_0000 && |source| == |destination| == 16
    ensures
      var s := Ipv6Bytes(trafficClass, flow, length, next, hops, source, destination);
      && ParseIpv6(s + rest) == V6(length, if next == 6 then Tcp else if next == 17 then Udp else Other, hops,
                                   source, destination)
      && s[0] / 16 == 6
  {
    hide U16At;
    var s := Ipv6Bytes(trafficClass, flow, length, next, hops, source, destination);
    var all := s + rest;
    var a := [0x60 + trafficClass / 16, trafficClass % 16 * 16 + flow / 0x1_0000] + Word(flow % 0x1_0000);
    assert all == a + Word(length) + ([next, hops] + source + destination + rest);
    WordsParse(a, length, [next, hops] + source + destination + rest);
    assert all[8..24] == source && all[24..40] == destination;
  }

  // ── TCP and UDP ──

  function Bit(isSet: bool): nat {
    if isSet then 1 else 0
  }

  /** The control bits of section 3.1 of RFC 9293, from the right. */
  function ControlBits(fin: bool, syn: bool, rst: bool, psh: bool, ack: bool): u16 {
    Bit(fin) + 2 * Bit(syn) + 4 * Bit(rst) + 8 * Bit(psh) + 16 * Bit(ack)
  }

  function TcpBytes(sourcePort: u16, destinationPort: u16, sequence: u32, ack: u32, offset: byte, reserved: byte,
                    flags: u16, window: u16, checksum: u16, urgent: u16): (s: seq<byte>)
    requires offset < 16 && reserved < 8 && flags < 0x200
    ensures |s| == 20
  {
    Word(sourcePort) + Word(destinationPort) + DoubleWord(sequence) + DoubleWord(ack)
    + Word((offset as int) * 0x1000 + (reserved as int) * 0x200 + flags) + Word(window) + Word(checksum) + Word(urgent)
  }

  lemma OffsetAndFlags(offset: byte, reserved: byte, flags: u16)
    requires offset < 16 && reserved < 8 && flags < 0x200
    ensures
      var w := (offset as int) * 0x1000 + (reserved as int) * 0x200 + flags;
      0 <= w < 0x1_0000 && w / 0x1000 == offset && w % 0x200 == flags
  {
  }

  lemma TcpParses(before: seq<byte>, sourcePort: u16, destinationPort: u16, sequence: u32, ack: u32, offset: byte,
                  reserved: byte, flags: u16, window: u16, checksum: u16, urgent: u16, rest: seq<byte>)
    requires offset < 16 && reserved < 8 && flags < 0x200
    ensures
      var s := TcpBytes(sourcePort, destinationPort, sequence, ack, offset, reserved, flags, window, checksum, urgent);
      ParseTcp(before + s + rest, |before|) ==
        TcpData(sourcePort, destinationPort, sequence, ack, 4 * offset, flags, window)
  {
    hide DoubleWord;
    hide Word;
    hide U16At;
    hide U32At;
    OffsetAndFlags(offset, reserved, flags);
    var w := (offset as int) * 0x1000 + (reserved as int) * 0x200 + flags;
    var s := TcpBytes(sourcePort, destinationPort, sequence, ack, offset, reserved, flags, window, checksum, urgent);
    var all := before + s + rest;
    var behind := Word(checksum) + Word(urgent) + rest;
    var p0 := before;
    var p2 := p0 + Word(sourcePort);
    var p4 := p2 + Word(destinationPort);
    var p8 := p4 + DoubleWord(sequence);
    var p12 := p8 + DoubleWord(ack);
    var p14 := p12 + Word(w);
    var t14 := Word(window) + behind;
    var t12 := Word(w) + t14;
    var t8 := DoubleWord(ack) + t12;
    var t4 := DoubleWord(sequence) + t8;
    var t2 := Word(destinationPort) + t4;
    assert all == p0 + Word(sourcePort) + t2;
    WordsParse(p0, sourcePort, t2);
    assert all == p2 + Word(destinationPort) + t4;
    WordsParse(p2, destinationPort, t4);
    assert all == p4 + DoubleWord(sequence) + t8;
    WordsParse(p4, sequence, t8);
    assert all == p8 + DoubleWord(ack) + t12;
    WordsParse(p8, ack, t12);
    assert all == p12 + Word(w) + t14;
    WordsParse(p12, w, t14);
    assert all == p14 + Word(window) + behind;
    WordsParse(p14, window, behind);
  }

  lemma UdpParses(before: seq<byte>, sourcePort: u16, destinationPort: u16, length: u16, checksum: u16, rest: seq<byte>)
    ensures
      var s := Word(sourcePort) + Word(destinationPort) + Word(length) + Word(checksum);
      ParseUdp(before + s + rest, |before|) == UdpData(sourcePort, destinationPort)
  {
    hide Word;
    hide U16At;
    var s := Word(sourcePort) + Word(destinationPort) + Word(length) + Word(checksum);
    var all := before + s + rest;
    var behind := Word(length) + Word(checksum) + rest;
    assert all == before + Word(sourcePort) + (Word(destinationPort) + behind);
    WordsParse(before, sourcePort, Word(destinationPort) + behind);
    assert all == (before + Word(sourcePort)) + Word(destinationPort) + behind;
    WordsParse(before + Word(sourcePort), destinationPort, behind);
  }

  lemma BitsRead(fin: nat, syn: nat, rst: nat, psh: nat, ack: nat)
    requires fin <= 1 && syn <= 1 && rst <= 1 && psh <= 1 && ack <= 1
    ensures
      var v := fin + 2 * syn + 4 * rst + 8 * psh + 16 * ack;
      v % 2 == fin && v / 2 % 2 == syn && v / 4 % 2 == rst && v / 16 % 2 == ack
  {
  }

  /** What the endpoint sends and reads as FIN, SYN, RST, PSH and ACK are those bits. */
  lemma FlagsAreControlBits(s: Segment, fin: bool, syn: bool, rst: bool, psh: bool, ack: bool)
    ensures s.flags == ControlBits(fin, syn, rst, psh, ack) ==>
              s.IsFin() == fin && s.IsSyn() == syn && s.IsRst() == rst && s.IsAck() == ack
    ensures FIN + ACK == ControlBits(true, false, false, false, true)
    ensures SYN + ACK == ControlBits(false, true, false, false, true)
    ensures RST == ControlBits(false, false, true, false, false)
    ensures ACK + PSH == ControlBits(false, false, false, true, true)
    ensures ACK == ControlBits(false, false, false, false, true)
  {
    BitsRead(Bit(fin), Bit(syn), Bit(rst), Bit(psh), Bit(ack));
  }
}
