/** The ICMP packets of icmp_handler.rs, built and patched in a byte vector: Echo Reply
    and Port Unreachable (RFC 792), with the plain checksum loop. */
module Icmp {
  import opened Bytes
  import opened Checksums
  import opened Headers
  import opened Packetizers
  import opened Framing

  const IPV4_HEADER_MIN_LEN: nat := 20
  const ICMP_HEADER_LEN: nat := 8
  const PROTOCOL_ICMP: byte := 1
  const ICMP_TYPE_ECHO_REQUEST: byte := 8
  const ICMP_TYPE_ECHO_REPLY: byte := 0

  /** `checksum`: the loop over words, the odd byte, the folding. */
  method ChecksumLoop(data: seq<byte>) returns (sum: u16)
    requires |data| <= 0x1_0000
    ensures sum == Checksum(data)
  {
    hide Fold;
    var s: u32 := 0;
    var i := 0;
    while i + 1 < |data|
      invariant 0 <= i <= |data| && i % 2 == 0
      invariant s == WordSum(data[..i]) && s <= i / 2 * 0xFFFF
    {
      WordSumStep(data, i);
      s := s + U16At(data, i);
      i := i + 2;
    }
    if i < |data| {
      WordSumLast(data);
      s := s + (data[i] as int) * 0x100;
    }
    assert data[..|data|] == data;
    var folded := FoldCarries(s);
    sum := 0xFFFF - folded;
  }

  lemma WordSumLast(s: seq<byte>)
    requires |s| % 2 == 1
    ensures WordSum(s) == WordSum(s[..|s| - 1]) + (s[|s| - 1] as int) * 0x100
  {
    assert s == s[..|s| - 1] + [s[|s| - 1]];
    WordSumConcat(s[..|s| - 1], [s[|s| - 1]]);
  }

  /** Zero the field at `at`, sum the bytes `lo..hi`, store. */
  method StoreChecksum(a: array<byte>, lo: nat, hi: nat, at: nat)
    requires lo <= at && at + 2 <= hi <= a.Length && hi - lo <= 0x1_0000
    modifies a
    ensures a[..] == WithChecksum(old(a[..]), [], lo, hi, at)
  {
    ghost var before := a[..];
    WriteU16(a, at, 0);
    assert a[lo..hi] == [] + PutU16(before, at, 0)[lo..hi];
    var sum := ChecksumLoop(a[lo..hi]);
    WriteU16(a, at, sum);
    PutU16Twice(before, at, 0, sum);
  }

  // ── Echo Reply ──

  function HeaderLengthOf(request: seq<byte>): nat
    requires |request| >= 1
  {
    request[0] % 16 * 4
  }

  /** What `build_echo_reply` answers to. */
  predicate IsEchoRequest(request: seq<byte>) {
    && |request| >= IPV4_HEADER_MIN_LEN + ICMP_HEADER_LEN
    && request[0] / 16 == 4
    && HeaderLengthOf(request) >= IPV4_HEADER_MIN_LEN && |request| >= HeaderLengthOf(request) + ICMP_HEADER_LEN
    && request[9] == PROTOCOL_ICMP && request[HeaderLengthOf(request)] == ICMP_TYPE_ECHO_REQUEST
    && HeaderLengthOf(request) + ICMP_HEADER_LEN <= U16At(request, 2) <= |request|
  }

  /** Answered are exactly the IPv4 packets that carry ICMP with type 8, a header of at least
      20 bytes, and within their own length the 8 bytes of an ICMP header. */
  lemma EchoRequestIff(request: seq<byte>)
    ensures IsEchoRequest(request) <==>
      && ParseIp(request).Some?
      && var ip := ParseIp(request).value;
      && ip.V4? && ip.protocol == Protocol.Icmp
      && 20 <= ip.headerLength && ip.headerLength + 8 <= ip.totalLength <= |request|
      && request[ip.headerLength] == 8
  {
  }

  /** What the router takes for an echo request: ICMP with an 8 behind the IPv4 header. */
  predicate LooksLikeEcho(raw: seq<byte>, ip: IpHeaderData) {
    ip.V4? && ip.protocol == Protocol.Icmp && ip.headerLength < |raw| && raw[ip.headerLength] == 8
  }

  /** Of those the packets with both headers in them are answered, and no other packet. */
  lemma EchoIsAnsweredIff(raw: seq<byte>)
    requires ParseIp(raw).Some? && ParseIp(raw).value.TotalLength() <= |raw|
    ensures
      var ip := ParseIp(raw).value;
      var packet := raw[..ip.TotalLength()];
      IsEchoRequest(packet) <==>
        LooksLikeEcho(packet, ip) && 20 <= ip.headerLength && ip.headerLength + 8 <= ip.totalLength
  {
    var packet := raw[..ParseIp(raw).value.TotalLength()];
    if |packet| >= 28 {
      assert forall k :: 0 <= k < 28 ==> packet[k] == raw[k];
      assert ParseIpv4(packet) == ParseIpv4(raw);
    }
    EchoRequestIff(packet);
  }

  function EchoReply(request: seq<byte>): (reply: seq<byte>)
    requires IsEchoRequest(request)
    ensures |reply| == U16At(request, 2)
  {
    var ihl, total := HeaderLengthOf(request), U16At(request, 2);
    var typed := SwapBlocks(request[..total], 12, 16, 4)[ihl := ICMP_TYPE_ECHO_REPLY];
    WithChecksum(WithChecksum(typed, [], ihl, total, ihl + 2), [], 0, ihl, 10)
  }

  method BuildEchoReply(request: seq<byte>) returns (reply: Option<seq<byte>>)
    ensures reply == if IsEchoRequest(request) then Some(EchoReply(request)) else None
  {
    hide WithChecksum;
    if |request| < IPV4_HEADER_MIN_LEN + ICMP_HEADER_LEN {
      return None;
    }
    if request[0] / 16 != 4 {
      return None;
    }
    var ihl := request[0] % 16 * 4;
    if ihl < IPV4_HEADER_MIN_LEN || |request| < ihl + ICMP_HEADER_LEN {
      return None;
    }
    if request[9] != PROTOCOL_ICMP || request[ihl] != ICMP_TYPE_ECHO_REQUEST {
      return None;
    }
    var total := U16At(request, 2);
    if total > |request| || total < ihl + ICMP_HEADER_LEN {
      return None;
    }
    var a := new byte[total](i requires 0 <= i < total => request[i]);
    assert a[..] == request[..total];
    SwapInPlace(a, 12, 16, 4);
    a[ihl] := ICMP_TYPE_ECHO_REPLY;
    StoreChecksum(a, ihl, total, ihl + 2);
    StoreChecksum(a, 0, ihl, 10);
    reply := Some(a[..]);
  }

  /** The reply differs from the request in the exchanged addresses, the type and the two
      checksums only. */
  lemma EchoReplyDiffersOnlyThere(request: seq<byte>, k: nat)
    requires IsEchoRequest(request) && k < U16At(request, 2)
    requires !(10 <= k < 12) && !(HeaderLengthOf(request) + 2 <= k < HeaderLengthOf(request) + 4)
    ensures EchoReply(request)[k] ==
      if 12 <= k < 16 then request[k + 4]
      else if 16 <= k < 20 then request[k - 4]
      else if k == HeaderLengthOf(request) then ICMP_TYPE_ECHO_REPLY
      else request[k]
  {
    hide Checksum;
    var ihl, total := HeaderLengthOf(request), U16At(request, 2);
    var swapped := SwapBlocks(request[..total], 12, 16, 4);
    SwapBlocksAt(request[..total], 12, 16, 4);
    hide SwapBlocks;
    var typed := swapped[ihl := ICMP_TYPE_ECHO_REPLY];
    var summed := WithChecksum(typed, [], ihl, total, ihl + 2);
    hide WithChecksum;
    assert EchoReply(request)[k] == summed[k] == typed[k];
  }

  /** The reply parses to the request's header with the addresses exchanged; its type is 0. */
  lemma EchoReplyParses(request: seq<byte>)
    requires IsEchoRequest(request)
    ensures ParseIp(request).Some?
    ensures
      var ip := ParseIp(request).value;
      && ParseIp(EchoReply(request)) == Some(ip.Swapped()) && |EchoReply(request)| == ip.TotalLength()
      && ip.headerLength < |EchoReply(request)| && EchoReply(request)[ip.headerLength] == 0
  {
    hide IsEchoRequest;
    EchoRequestIff(request);
    EchoReplyHeader(request);
    EchoReplyDiffersOnlyThere(request, HeaderLengthOf(request));
  }

  lemma EchoReplyHeader(request: seq<byte>)
    requires IsEchoRequest(request)
    ensures var r := EchoReply(request);
      && r[0] == request[0] && r[9] == request[9] && U16At(r, 2) == U16At(request, 2)
      && U32At(r, 12) == U32At(request, 16) && U32At(r, 16) == U32At(request, 12)
  {
    hide EchoReply;
    EchoReplyDiffersOnlyThere(request, 0);
    EchoReplyDiffersOnlyThere(request, 2);
    EchoReplyDiffersOnlyThere(request, 3);
    EchoReplyDiffersOnlyThere(request, 9);
    EchoReplyDiffersOnlyThere(request, 12);
    EchoReplyDiffersOnlyThere(request, 13);
    EchoReplyDiffersOnlyThere(request, 14);
    EchoReplyDiffersOnlyThere(request, 15);
    EchoReplyDiffersOnlyThere(request, 16);
    EchoReplyDiffersOnlyThere(request, 17);
    EchoReplyDiffersOnlyThere(request, 18);
    EchoReplyDiffersOnlyThere(request, 19);
  }

  /** Receiver check: both sums of the reply verify. */
  lemma EchoReplyVerifies(request: seq<byte>)
    requires IsEchoRequest(request)
    ensures var ihl := HeaderLengthOf(request);
      ihl <= |EchoReply(request)| && Verifies(EchoReply(request)[..ihl]) && Verifies(EchoReply(request)[ihl..])
  {
    hide Checksum;
    hide Verifies;
    hide SwapBlocks;
    var ihl, total := HeaderLengthOf(request), U16At(request, 2);
    var typed := SwapBlocks(request[..total], 12, 16, 4)[ihl := ICMP_TYPE_ECHO_REPLY];
    BothVerify(typed, ihl, total);
  }

  /** Two checksums over neighbouring ranges do not disturb each other. */
  lemma BothVerify(s: seq<byte>, h: nat, total: nat)
    requires 12 <= h && h + 4 <= total == |s|
    ensures var r := WithChecksum(WithChecksum(s, [], h, total, h + 2), [], 0, h, 10);
      Verifies(r[..h]) && Verifies(r[h..])
  {
    hide Checksum;
    hide Verifies;
    var inner := WithChecksum(s, [], h, total, h + 2);
    var r := WithChecksum(inner, [], 0, h, 10);
    WithChecksumVerifies(s, [], h, total, h + 2);
    WithChecksumVerifies(inner, [], 0, h, 10);
    hide WithChecksum;
    assert [] + inner[h..total] == inner[h..total] == r[h..];
    assert [] + r[0..h] == r[..h];
  }

  /** The reply is cut out whole by the framers on both sides. */
  lemma EchoReplyIsWellFormed(request: seq<byte>)
    requires IsEchoRequest(request)
    ensures WellFormed(Relay, EchoReply(request)) && WellFormed(Device, EchoReply(request))
  {
    hide EchoReply;
    EchoReplyDiffersOnlyThere(request, 0);
    EchoReplyDiffersOnlyThere(request, 2);
    EchoReplyDiffersOnlyThere(request, 3);
    EchoReplyDiffersOnlyThere(request, 9);
    IcmpIsWellFormed(EchoReply(request));
  }

  /** An IPv4 packet with an ICMP body holds all that the parser reads. */
  lemma IcmpIsWellFormed(p: seq<byte>)
    requires |p| >= IPV4_HEADER_MIN_LEN && p[0] / 16 == 4 && HeaderLengthOf(p) <= |p| == U16At(p, 2)
    requires p[9] == PROTOCOL_ICMP
    ensures WellFormed(Relay, p) && WellFormed(Device, p)
  {
  }

  // ── Port Unreachable ──

  /** How much of the original packet is quoted: its header and at most 8 bytes more. */
  function Quoted(original: Packet): seq<byte>
    requires original.ip.V4? && original.ip.headerLength <= |original.raw|
  {
    original.raw[..Min(|original.raw|, original.ip.headerLength + 8)]
  }

  predicate Answerable(original: Packet) {
    original.ip.V4? && original.ip.headerLength <= |original.raw| && original.ip.headerLength <= 60
  }

  /** Of the packets that parse, answered are the IPv4 packets whose header lies within them. */
  lemma AnswerableIff(raw: seq<byte>)
    requires ParsePacket(raw).Some?
    ensures
      var p := ParsePacket(raw).value;
      Answerable(p) <==> p.ip.V4? && p.ip.HeaderLength() <= p.ip.TotalLength()
  {
  }

  function U32Bytes(v: u32): (s: seq<byte>)
    ensures |s| == 4 && U32At(s, 0) == v
  {
    PutU32([0, 0, 0, 0], 0, v)
  }

  /** The IPv4 header of the reply before its checksum. */
  function ReplyHeader(source: u32, destination: u32, total: u16): (s: seq<byte>)
    ensures |s| == IPV4_HEADER_MIN_LEN
  {
    [0x45, 0, total / 0x100, total % 0x100, 0, 0, 0, 0, 64, PROTOCOL_ICMP, 0, 0]
    + U32Bytes(source) + U32Bytes(destination)
  }

  function ReplyLength(original: Packet): u16
    requires Answerable(original)
  {
    IPV4_HEADER_MIN_LEN + ICMP_HEADER_LEN + |Quoted(original)|
  }

  function PortUnreachable(original: Packet): (reply: seq<byte>)
    requires Answerable(original)
    ensures |reply| == ReplyLength(original)
  {
    var header := WithChecksum(
      ReplyHeader(original.ip.destination4, original.ip.source4, ReplyLength(original)), [], 0, 20, 10);
    var s := header + ([3, 3, 0, 0, 0, 0, 0, 0] + Quoted(original));
    WithChecksum(s, [], 20, |s|, 22)
  }

  method BuildPortUnreachable(original: Packet) returns (reply: Option<seq<byte>>)
    requires original.ip.V4? ==> original.ip.headerLength <= 60
    ensures reply == if Answerable(original) then Some(PortUnreachable(original)) else None
  {
    hide WithChecksum;
    if !original.ip.V4? {
      return None;
    }
    var headerLength := original.ip.headerLength;
    if |original.raw| < headerLength {
      return None;
    }
    var copied := Min(|original.raw| - headerLength, 8);
    var quoted := original.raw[..headerLength + copied];
    assert quoted == Quoted(original);
    var total := IPV4_HEADER_MIN_LEN + ICMP_HEADER_LEN + |quoted|;
    var a := new byte[total](_ => 0);
    FillHeader(a, original.ip.destination4, original.ip.source4);
    ghost var header := ReplyHeader(original.ip.destination4, original.ip.source4, total);
    ghost var rest := a[IPV4_HEADER_MIN_LEN..];
    assert a[..] == header + rest;
    ChecksumOfFront(header, rest);
    StoreChecksum(a, 0, IPV4_HEADER_MIN_LEN, 10);
    FillIcmp(a, quoted);
    StoreChecksum(a, IPV4_HEADER_MIN_LEN, total, 22);
    reply := Some(a[..]);
  }

  method FillHeader(a: array<byte>, source: u32, destination: u32)
    requires IPV4_HEADER_MIN_LEN <= a.Length <= 0xFFFF && forall k :: 0 <= k < a.Length ==> a[k] == 0
    modifies a
    ensures a[..IPV4_HEADER_MIN_LEN] == ReplyHeader(source, destination, a.Length)
    ensures forall k :: IPV4_HEADER_MIN_LEN <= k < a.Length ==> a[k] == 0
  {
    hide U32Bytes;
    FillFirstWords(a);
    ghost var first := a[..];
    CopyInto(a, 12, U32Bytes(source));
    CopyInto(a, 16, U32Bytes(destination));
    TwoSplices(first, U32Bytes(source), U32Bytes(destination));
  }

  method FillFirstWords(a: array<byte>)
    requires IPV4_HEADER_MIN_LEN <= a.Length <= 0xFFFF && forall k :: 0 <= k < a.Length ==> a[k] == 0
    modifies a
    ensures a[..12] == [0x45, 0, a.Length / 0x100, a.Length % 0x100, 0, 0, 0, 0, 64, PROTOCOL_ICMP, 0, 0]
    ensures forall k :: 12 <= k < a.Length ==> a[k] == 0
  {
    a[0] := 0x45;
    a[8] := 64;
    a[9] := PROTOCOL_ICMP;
    a[2], a[3] := a.Length / 0x100, a.Length % 0x100;
  }

  lemma TwoSplices(s: seq<byte>, x: seq<byte>, y: seq<byte>)
    requires |s| >= 20 && |x| == 4 && |y| == 4
    ensures Splice(Splice(s, 12, x), 16, y)[..20] == s[..12] + x + y
    ensures forall k :: 20 <= k < |s| ==> Splice(Splice(s, 12, x), 16, y)[k] == s[k]
  {
    assert Splice(s, 12, x) == s[..12] + x + s[16..];
  }

  method FillIcmp(a: array<byte>, quoted: seq<byte>)
    requires a.Length == IPV4_HEADER_MIN_LEN + ICMP_HEADER_LEN + |quoted|
    requires forall k :: IPV4_HEADER_MIN_LEN <= k < a.Length ==> a[k] == 0
    modifies a
    ensures a[..] == old(a[..IPV4_HEADER_MIN_LEN]) + ([3, 3, 0, 0, 0, 0, 0, 0] + quoted)
  {
    a[20] := 3;
    a[21] := 3;
    CopyInto(a, 28, quoted);
    assert a[28..28 + |quoted|] == quoted;
    assert a[20..28] == [3, 3, 0, 0, 0, 0, 0, 0];
    assert a[..] == a[..20] + (a[20..28] + a[28..]);
  }

  /** A checksum over the front leaves the bytes behind alone. */
  lemma ChecksumOfFront(s: seq<byte>, rest: seq<byte>)
    requires |s| == 20
    ensures WithChecksum(s + rest, [], 0, 20, 10) == WithChecksum(s, [], 0, 20, 10) + rest
  {
    hide Checksum;
    assert PutU16(s + rest, 10, 0)[0..20] == PutU16(s, 10, 0)[0..20];
  }

  /** Receiver check for both headers; the addresses are the original's exchanged, the
      quote is the original header and 8 bytes, and the packet is well formed. */
  lemma PortUnreachableVerifies(original: Packet)
    requires Answerable(original)
    ensures var r := PortUnreachable(original);
      && Verifies(r[..20]) && Verifies(r[20..])
      && U32At(r, 12) == original.ip.destination4 && U32At(r, 16) == original.ip.source4
      && r[20] == 3 && r[21] == 3 && r[28..] == Quoted(original)
  {
    hide Checksum;
    hide Verifies;
    hide Quoted;
    var plain := ReplyHeader(original.ip.destination4, original.ip.source4, ReplyLength(original));
    var header := WithChecksum(plain, [], 0, 20, 10);
    var body := [3, 3, 0, 0, 0, 0, 0, 0] + Quoted(original);
    var s := header + body;
    var r := WithChecksum(s, [], 20, |s|, 22);
    WithChecksumVerifies(plain, [], 0, 20, 10);
    WithChecksumVerifies(s, [], 20, |s|, 22);
    ReplyHeaderAddresses(original.ip.destination4, original.ip.source4, ReplyLength(original));
    hide WithChecksum;
    hide ReplyHeader;
    assert [] + header[0..20] == header == r[..20];
    assert [] + r[20..|s|] == r[20..];
    assert r[28..] == s[28..] == body[8..] == Quoted(original);
    assert forall k :: 12 <= k < 20 ==> r[k] == s[k] == header[k] == plain[k];
    assert r[20] == s[20] == body[0] && r[21] == s[21] == body[1];
  }

  /** The reply is an IPv4 packet of its own length with ICMP in it, no options and a hop limit of
      64, from the original's destination to its source; what it leaves unused is zero. */
  lemma PortUnreachableParses(original: Packet)
    requires Answerable(original)
    ensures
      var r := PortUnreachable(original);
      && |r| == 28 + Min(|original.raw|, original.ip.headerLength + 8)
      && ParseIp(r) == Some(V4(20, |r|, Protocol.Icmp, original.ip.destination4, original.ip.source4))
      && r[8] == 64 && r[1] == 0 && r[4..8] == [0, 0, 0, 0] && r[24..28] == [0, 0, 0, 0]
  {
    hide Checksum;
    hide Quoted;
    var plain := ReplyHeader(original.ip.destination4, original.ip.source4, ReplyLength(original));
    var header := WithChecksum(plain, [], 0, 20, 10);
    var body := [3, 3, 0, 0, 0, 0, 0, 0] + Quoted(original);
    var s := header + body;
    ReplyHeaderAddresses(original.ip.destination4, original.ip.source4, ReplyLength(original));
    QuotedLength(original);
    var r := PortUnreachable(original);
    assert forall k :: 0 <= k < 20 && k != 10 && k != 11 ==> r[k] == s[k] == header[k] == plain[k];
    assert forall k :: 24 <= k < 28 ==> r[k] == s[k] == body[k - 20] == 0;
    assert plain[8] == 64 && plain[1] == 0 && plain[4..8] == [0, 0, 0, 0];
  }

  lemma QuotedLength(original: Packet)
    requires Answerable(original)
    ensures |Quoted(original)| == Min(|original.raw|, original.ip.headerLength + 8)
  {
  }

  lemma ReplyHeaderAddresses(source: u32, destination: u32, total: u16)
    ensures var h := ReplyHeader(source, destination, total);
      U32At(h, 12) == source && U32At(h, 16) == destination && h[0] == 0x45 && U16At(h, 2) == total && h[9] == 1
  {
    var h := ReplyHeader(source, destination, total);
    assert h[12..16] == U32Bytes(source) && h[16..20] == U32Bytes(destination);
    assert U32At(h, 12) == U32At(h[12..16], 0) && U32At(h, 16) == U32At(h[16..20], 0);
  }

  lemma PortUnreachableIsWellFormed(original: Packet)
    requires Answerable(original)
    ensures WellFormed(Relay, PortUnreachable(original)) && WellFormed(Device, PortUnreachable(original))
  {
    hide Checksum;
    hide Quoted;
    ReplyHeaderAddresses(original.ip.destination4, original.ip.source4, ReplyLength(original));
    hide ReplyHeader;
    var r := PortUnreachable(original);
    assert r[0] == 0x45 && U16At(r, 2) == |r| && r[9] == PROTOCOL_ICMP;
    hide PortUnreachable;
    IcmpIsWellFormed(r);
  }
}
