/** The in-place checksum routines: the optimised TCP checksum of tcp_header.rs and
    the IPv4 header checksum of ipv4_header.rs, both proved equal to the plain
    definition of module Checksums. Sums are `u32`, so overflow is excluded. */
module TcpChecksum {
  import opened Bytes
  import opened Checksums
  import opened Headers

  ghost predicate ValidAddresses(ip: IpHeaderData) {
    ip.V6? ==> |ip.source6| == 16 && |ip.destination6| == 16
  }

  lemma PseudoHeaderSumV4(ip: IpHeaderData, length: u16)
    requires ip.V4?
    ensures |PseudoHeader(ip, length)| == 12
    ensures WordSum(PseudoHeader(ip, length)) ==
            6 + ip.source4 / 0x1_0000 + ip.source4 % 0x1_0000
              + ip.destination4 / 0x1_0000 + ip.destination4 % 0x1_0000 + length
  {
    var s, d := PutU32([0, 0, 0, 0], 0, ip.source4), PutU32([0, 0, 0, 0], 0, ip.destination4);
    var l := [length / 0x100, length % 0x100];
    FourByteSum(s);
    FourByteSum(d);
    assert PseudoHeader(ip, length) == s + (d + ([0, 6] + l));
    WordSumConcat(s, d + ([0, 6] + l));
    WordSumConcat(d, [0, 6] + l);
    FourByteSum([0, 6] + l);
  }

  lemma FourByteSum(s: seq<byte>)
    requires |s| == 4
    ensures WordSum(s) == U32At(s, 0) / 0x1_0000 + U32At(s, 0) % 0x1_0000
  {
    assert WordSum(s) == U16At(s, 0) + WordSum(s[2..]);
    assert WordSum(s[2..]) == U16At(s, 2) + WordSum(s[2..][2..]);
  }

  lemma PseudoHeaderSumV6(ip: IpHeaderData, length: u16)
    requires ip.V6? && ValidAddresses(ip)
    ensures |PseudoHeader(ip, length)| == 40
    ensures WordSum(PseudoHeader(ip, length)) == WordSum(ip.source6) + WordSum(ip.destination6) + length + 6
  {
    var l := [length / 0x100, length % 0x100];
    var tail := [0, 0] + l + [0, 0, 0, 6];
    assert PseudoHeader(ip, length) == ip.source6 + (ip.destination6 + tail);
    WordSumConcat(ip.source6, ip.destination6 + tail);
    WordSumConcat(ip.destination6, tail);
    assert tail == ([0, 0] + l) + [0, 0, 0, 6];
    WordSumConcat([0, 0] + l, [0, 0, 0, 6]);
    FourByteSum([0, 0] + l);
    FourByteSum([0, 0, 0, 6]);
  }

  /** The two unrolled pointer loops: high-order and low-order bytes summed apart. */
  method ByteSums(a: array<byte>, lo: nat, hi: nat) returns (h: u32, l: u32)
    requires lo <= hi <= a.Length && hi - lo <= 0x1_0000
    ensures h == High(a[lo..hi]) && l == Low(a[lo..hi])
  {
    ghost var s := a[lo..hi];
    var n := hi - lo;
    assert High(s[..0]) == 0 && Low(s[..0]) == 0;
    hide High;
    hide Low;
    h, l := 0, 0;
    var k := 0;
    while k < n - 1
      invariant 0 <= k <= n && k % 2 == 0
      invariant h == High(s[..k]) && l == Low(s[..k])
    {
      SplitStep(s, k);
      SumsBounded(s[..k]);
      h := h + a[lo + k];
      l := l + a[lo + k + 1];
      k := k + 2;
    }
    assert s[..n] == s;
    if n % 2 != 0 {
      // odd length: the last byte is considered high-order
      SplitLast(s);
      SumsBounded(s[..k]);
      h := h + a[lo + n - 1];
    }
  }

  method PseudoSumV4(ip: IpHeaderData, length: u16) returns (sum: u32)
    requires ip.V4?
    ensures sum == WordSum(PseudoHeader(ip, length)) && sum <= 0x5_0005
  {
    sum := 6;
    sum := sum + ip.source4 / 0x1_0000;
    sum := sum + ip.source4 % 0x1_0000;
    sum := sum + ip.destination4 / 0x1_0000;
    sum := sum + ip.destination4 % 0x1_0000;
    sum := sum + length;
    PseudoHeaderSumV4(ip, length);
  }

  method AddressSum(address: seq<byte>) returns (sum: u32)
    requires |address| == 16
    ensures sum == WordSum(address) && sum <= 8 * 0xFFFF
  {
    sum := 0;
    for i := 0 to 8
      invariant sum == WordSum(address[..2 * i]) && sum <= i * 0xFFFF
    {
      WordSumStep(address, 2 * i);
      sum := sum + U16At(address, 2 * i);
    }
    assert address[..16] == address;
  }

  method PseudoSumV6(ip: IpHeaderData, length: u16) returns (sum: u32)
    requires ip.V6? && ValidAddresses(ip)
    ensures sum == WordSum(PseudoHeader(ip, length)) && sum <= 17 * 0xFFFF + 6
  {
    sum := AddressSum(ip.source6);
    var d := AddressSum(ip.destination6);
    sum := sum + d;
    sum := sum + length;
    sum := sum + 6;
    PseudoHeaderSumV6(ip, length);
  }

  lemma SegmentSum(pseudo: seq<byte>, header: seq<byte>, payload: seq<byte>)
    requires |pseudo| % 2 == 0 && |header| % 2 == 0
    ensures WordSum(pseudo + (header + payload)) ==
            WordSum(pseudo) + Low(header) + Low(payload) + (High(header) + High(payload)) * 0x100
  {
    WordSumConcat(pseudo, header + payload);
    WordSumConcat(header, payload);
    WordSumIsSplit(header);
    WordSumIsSplit(payload);
  }

  method PseudoSum(ip: IpHeaderData, length: u16) returns (sum: u32)
    requires ValidAddresses(ip)
    ensures |PseudoHeader(ip, length)| % 2 == 0
    ensures sum == WordSum(PseudoHeader(ip, length)) && sum <= 0x12_0000
  {
    if ip.V4? {
      sum := PseudoSumV4(ip, length);
      PseudoHeaderSumV4(ip, length);
    } else {
      sum := PseudoSumV6(ip, length);
      PseudoHeaderSumV6(ip, length);
    }
  }

  /** Header and payload added to the sum of the pseudo-header, high bytes shifted once. */
  method SegmentSums(a: array<byte>, ti: nat, pi: nat, total: nat, start: u32, ghost pseudo: seq<byte>)
    returns (sum: u32)
    requires ti <= pi <= total <= a.Length && (pi - ti) % 2 == 0 && total <= 0xFFFF
    requires |pseudo| % 2 == 0 && start == WordSum(pseudo) && start <= 0x12_0000
    ensures sum == WordSum(pseudo + a[ti..total])
  {
    var h1, l1 := ByteSums(a, ti, pi);
    var h2, l2 := ByteSums(a, pi, total);
    SumsBounded(a[ti..pi]);
    SumsBounded(a[pi..total]);
    sum := start + l1 + l2;
    sum := sum + (h1 + h2) * 0x100;
    assert a[ti..total] == a[ti..pi] + a[pi..total];
    SegmentSum(pseudo, a[ti..pi], a[pi..total]);
  }

  /** `update_checksum_v4` and `update_checksum_v6` on the TCP header at `ti`, whose
      payload starts at `pi`, in a packet that ends at `total`. */
  method UpdateTcpChecksum(a: array<byte>, ip: IpHeaderData, ti: nat, pi: nat, total: nat)
    requires ValidAddresses(ip)
    requires ti + 20 <= pi <= total <= a.Length && (pi - ti) % 2 == 0 && total <= 0xFFFF
    modifies a
    ensures a[..] == WithChecksum(old(a[..]), PseudoHeader(ip, total - ti), ti, total, ti + 16)
  {
    hide PseudoHeader;
    hide WordSum;
    hide Fold;
    hide PutU16;
    ghost var before := a[..];
    var sum := PseudoSum(ip, total - ti);
    WriteU16(a, ti + 16, 0);
    sum := SegmentSums(a, ti, pi, total, sum, PseudoHeader(ip, total - ti));
    assert a[ti..total] == a[..][ti..total] == PutU16(before, ti + 16, 0)[ti..total];
    var folded := FoldCarries(sum);
    WriteU16(a, ti + 16, 0xFFFF - folded);
    PutU16Twice(before, ti + 16, 0, 0xFFFF - folded);
  }

  /** `Ipv4HeaderMut::update_checksum`: the words before and after the checksum field. */
  method UpdateIpv4Checksum(a: array<byte>, headerLength: nat)
    requires 20 <= headerLength <= 60 && headerLength % 2 == 0 && headerLength <= a.Length
    modifies a
    ensures a[..] == WithChecksum(old(a[..]), [], 0, headerLength, 10)
  {
    var sum := HeaderWords(a[..headerLength]);
    var folded := FoldCarries(sum);
    assert [] + PutU16(a[..], 10, 0)[0..headerLength] == PutU16(a[..headerLength], 10, 0);
    WriteU16(a, 10, 0xFFFF - folded);
  }

  method HeaderWords(header: seq<byte>) returns (sum: u32)
    requires 20 <= |header| <= 60 && |header| % 2 == 0
    ensures sum == WordSum(PutU16(header, 10, 0))
  {
    ghost var zeroed := PutU16(header, 10, 0);
    sum := 0;
    for i := 0 to |header| / 2
      invariant sum == WordSum(zeroed[..2 * i]) && sum <= i * 0xFFFF
    {
      WordSumStep(zeroed, 2 * i);
      if i != 5 {
        sum := sum + U16At(header, 2 * i);
      }
    }
    assert zeroed[..|header|] == zeroed;
  }
}
