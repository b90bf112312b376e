/** The parsed forms of the IP and transport headers. Masks and shifts of the
    source are written as remainders and quotients. */
module Headers {
  import opened Bytes

  datatype Protocol = Tcp | Udp | Icmp | Other

  datatype IpHeaderData =
    | V4(headerLength: byte, totalLength: u16, protocol: Protocol, source4: u32, destination4: u32)
    | V6(payloadLength: u16, nextHeader: Protocol, hopLimit: byte, source6: seq<byte>, destination6: seq<byte>)
  {
    function HeaderLength(): byte {
      if V4? then headerLength else 40
    }

    /** For IPv6 a 16-bit sum, which wraps. */
    function TotalLength(): u16 {
      if V4? then totalLength else (40 + payloadLength) % 0x1_0000
    }

    function TransportProtocol(): Protocol {
      if V4? then protocol else nextHeader
    }

    function Swapped(): IpHeaderData {
      if V4? then this.(source4 := destination4, destination4 := source4)
      else this.(source6 := destination6, destination6 := source6)
    }
  }

  datatype TransportHeaderData =
    | TcpData(sourcePort: u16, destinationPort: u16, sequenceNumber: u32, acknowledgementNumber: u32,
              headerLength: byte, flags: u16, window: u16)
    | UdpData(sourcePort: u16, destinationPort: u16)
  {
    function HeaderLength(): byte {
      if TcpData? then headerLength else 8
    }

    function Swapped(): TransportHeaderData {
      this.(sourcePort := destinationPort, destinationPort := sourcePort)
    }
  }

  function ParseIpv4(raw: seq<byte>): (d: IpHeaderData)
    requires |raw| >= 20
    ensures d.V4?
  {
    V4((raw[0] % 16) * 4, U16At(raw, 2),
       if raw[9] == 1 then Icmp else if raw[9] == 6 then Tcp else if raw[9] == 17 then Udp else Other,
       U32At(raw, 12), U32At(raw, 16))
  }

  function ParseIpv6(raw: seq<byte>): (d: IpHeaderData)
    requires |raw| >= 40
    ensures d.V6?
  {
    V6(U16At(raw, 4),
       if raw[6] == 6 then Tcp else if raw[6] == 17 then Udp else Other,
       raw[7], raw[8..24], raw[24..40])
  }

  /** `TcpHeaderData::parse` on the bytes from `off` on. */
  function ParseTcp(raw: seq<byte>, off: nat): (d: TransportHeaderData)
    requires off + 16 <= |raw|
    ensures d.TcpData?
  {
    var w := U16At(raw, off + 12);
    TcpData(U16At(raw, off), U16At(raw, off + 2), U32At(raw, off + 4), U32At(raw, off + 8),
            (w / 0x1000) * 4, w % 0x200, U16At(raw, off + 14))
  }

  function ParseUdp(raw: seq<byte>, off: nat): (d: TransportHeaderData)
    requires off + 4 <= |raw|
    ensures d.UdpData?
  {
    UdpData(U16At(raw, off), U16At(raw, off + 2))
  }

  /** The pseudo-header covered by the TCP checksum: section 3.1 of RFC 9293 for
      IPv4, section 8.1 of RFC 8200 for IPv6. */
  function PseudoHeader(ip: IpHeaderData, transportLength: u16): seq<byte> {
    var length := [transportLength / 0x100, transportLength % 0x100];
    if ip.V4? then PutU32([0, 0, 0, 0], 0, ip.source4) + PutU32([0, 0, 0, 0], 0, ip.destination4) + [0, 6] + length
    else ip.source6 + ip.destination6 + [0, 0] + length + [0, 0, 0, 6]
  }

  /** `s` with the `n` bytes at `i` and the `n` bytes at `j` exchanged. */
  function SwapBlocks(s: seq<byte>, i: nat, j: nat, n: nat): (r: seq<byte>)
    requires i + n <= j && j + n <= |s|
    ensures |r| == |s|
    ensures r[i..i + n] == s[j..j + n] && r[j..j + n] == s[i..i + n]
    ensures forall k :: 0 <= k < |s| && !(i <= k < i + n) && !(j <= k < j + n) ==> r[k] == s[k]
  {
    s[..i] + s[j..j + n] + s[i + n..j] + s[i..i + n] + s[j + n..]
  }

  lemma SwapBlocksIs(s: seq<byte>, r: seq<byte>, i: nat, j: nat, n: nat)
    requires i + n <= j && j + n <= |s| == |r|
    requires forall m :: i <= m < i + n ==> r[m] == s[m + (j - i)]
    requires forall m :: j <= m < j + n ==> r[m] == s[m - (j - i)]
    requires forall m :: 0 <= m < |s| && !(i <= m < i + n) && !(j <= m < j + n) ==> r[m] == s[m]
    ensures r == SwapBlocks(s, i, j, n)
  {
    assert r[..i] == s[..i];
    assert r[i..i + n] == s[j..j + n];
    assert r[i + n..j] == s[i + n..j];
    assert r[j..j + n] == s[i..i + n];
    assert r[j + n..] == s[j + n..];
    FivePieces(r, i, i + n, j, j + n);
  }

  lemma FivePieces(r: seq<byte>, a: nat, b: nat, c: nat, d: nat)
    requires a <= b <= c <= d <= |r|
    ensures r == r[..a] + r[a..b] + r[b..c] + r[c..d] + r[d..]
  {
  }

  lemma SwapBlocksAt(s: seq<byte>, i: nat, j: nat, n: nat)
    requires i + n <= j && j + n <= |s|
    ensures forall m :: i <= m < i + n ==> SwapBlocks(s, i, j, n)[m] == s[m + (j - i)]
    ensures forall m :: j <= m < j + n ==> SwapBlocks(s, i, j, n)[m] == s[m - (j - i)]
  {
    var r := SwapBlocks(s, i, j, n);
    assert forall m :: i <= m < i + n ==> r[m] == r[i..i + n][m - i] == s[j..j + n][m - i];
    assert forall m :: j <= m < j + n ==> r[m] == r[j..j + n][m - j] == s[i..i + n][m - j];
  }

  method SwapInPlace(a: array<byte>, i: nat, j: nat, n: nat)
    requires i + n <= j && j + n <= a.Length
    modifies a
    ensures a[..] == SwapBlocks(old(a[..]), i, j, n)
  {
    ghost var s := a[..];
    for k := 0 to n
      invariant forall m :: i <= m < i + k ==> a[m] == s[m + (j - i)]
      invariant forall m :: j <= m < j + k ==> a[m] == s[m - (j - i)]
      invariant forall m :: 0 <= m < a.Length && !(i <= m < i + k) && !(j <= m < j + k) ==> a[m] == s[m]
    {
      a[i + k], a[j + k] := a[j + k], a[i + k];
    }
    SwapBlocksIs(s, a[..], i, j, n);
  }
}
