/** Cutting a byte stream into IP packets: the rules of the relay (ip_packet_buffer.rs)
    and of the device (IPPacketOutputStream.java), and what both have in common. */
module Framing {
  import opened Bytes
  import opened Chunks
  import opened Headers
  import opened Packetizers
  import opened PacketizerLaws
  import opened TcpInvariant

  datatype Dialect = Relay | Device

  /** What the bytes at the front of the buffer are. */
  datatype Head = Cuttable(length: nat) | Garbage | Incomplete | Unsupported | Unreadable

  /** The packet at the front by its length field alone. */
  function FrontOf(d: Dialect, s: seq<byte>): (h: Head)
    ensures h.Cuttable? ==> h.length <= |s|
    ensures h.Garbage? ==> s != []
    ensures !h.Unreadable?
  {
    if s == [] then Incomplete
    else if s[0] / 16 == 4 then
      if |s| < 4 || U16At(s, 2) > |s| then Incomplete else Cuttable(U16At(s, 2))
    else if s[0] / 16 == 6 then
      if |s| < 6 then Incomplete else
      // a 16-bit sum on the relay, a 32-bit sum on the device
      var total := U16At(s, 4) + 40;
      var length := if d == Relay then total % 0x1_0000 else total;
      if length > |s| then Incomplete else Cuttable(length)
    else if d == Relay then Garbage
    else Unsupported
  }

  /** The relay parses a packet before it cuts it, reading in the whole buffer: whether all
      that `IpPacket::parse` reads is there. For IPv4 the transport header is looked for
      behind the packet too, for IPv6 in the packet only. */
  predicate Readable(s: seq<byte>) {
    && ParseIp(s).Some?
    && var ip := ParseIp(s).value;
    && ip.HeaderLength() <= |s| && ip.TotalLength() <= |s| && (ip.V6? ==> 40 <= ip.TotalLength())
    && var seen := if ip.V4? then s else s[..ip.TotalLength()];
    && (ip.TransportProtocol() == Tcp || ip.TransportProtocol() == Udp ==>
          ParseTransport(ip.TransportProtocol(), seen, ip.HeaderLength()).Some?)
  }

  const QUIC_PORT: u16 := 443

  /** The router lets a parsed packet go without looking into its bytes: no TCP or UDP, or
      UDP to the port of QUIC. Of any other packet it takes the headers out. */
  predicate Dropped(s: seq<byte>)
    requires Readable(s) && ParseIp(s).value.V4?
  {
    var ip := ParseIp(s).value;
    var transport := ParseTransport(ip.TransportProtocol(), s, ip.HeaderLength());
    transport.None? || (transport.value.UdpData? && transport.value.destinationPort == QUIC_PORT)
  }

  /** The front as the framing loop meets it. On the relay an index out of range ends the
      thread: in the parser, or in the router when it takes the headers out of an empty
      packet. */
  function HeadOf(d: Dialect, s: seq<byte>): (h: Head)
    ensures h.Cuttable? ==> h.length <= |s|
    ensures h.Garbage? ==> s != []
  {
    var front := FrontOf(d, s);
    if d == Device || !front.Cuttable? then front
    else if !Readable(s) then Unreadable
    else if front.length == 0 && (!ParseIp(s).value.V4? || !Dropped(s)) then Unreadable
    else front
  }

  /** How a framing loop ends: for want of bytes, on an empty packet that it would cut out
      for ever, on a version the device does not support, or by a panic of the relay. */
  datatype End = Waiting | Stuck | Failed | Panicked

  datatype Frames = Frames(packets: seq<seq<byte>>, rest: seq<byte>, end: End)

  /** The framing loop. Every round but the last shortens the buffer. */
  function Cut(d: Dialect, s: seq<byte>): (f: Frames)
    ensures |f.rest| <= |s|
    decreases |s|
  {
    match HeadOf(d, s)
    case Incomplete => Frames([], s, Waiting)
    case Unsupported => Frames([], s, Failed)
    case Unreadable => Frames([], s, Panicked)
    case Garbage => Cut(d, s[1..])
    case Cuttable(n) =>
      if n == 0 then Frames([], s, Stuck) else
      var f := Cut(d, s[n..]);
      f.(packets := [s[..n]] + f.packets)
  }

  /** More bytes behind do not change what is already decided at the front, save that a
      packet the parser cannot read may become readable. */
  lemma HeadIsStable(d: Dialect, s: seq<byte>, t: seq<byte>)
    ensures !HeadOf(d, s).Incomplete? && !HeadOf(d, s).Unreadable? ==> HeadOf(d, s + t) == HeadOf(d, s)
    ensures HeadOf(d, s).Unreadable? ==> HeadOf(d, s + t).Unreadable? || HeadOf(d, s + t) == FrontOf(d, s)
    ensures !HeadOf(d, s).Incomplete? ==> !HeadOf(d, s + t).Incomplete?
  {
    hide Readable;
    hide Dropped;
    hide ParseIp;
    FrontIsStable(d, s, t);
    if d == Relay && HeadOf(d, s).Cuttable? {
      ReadableIsStable(s, t);
    }
  }

  lemma FrontIsStable(d: Dialect, s: seq<byte>, t: seq<byte>)
    ensures !FrontOf(d, s).Incomplete? ==> FrontOf(d, s + t) == FrontOf(d, s)
  {
    if |s| >= 4 {
      assert U16At(s + t, 2) == U16At(s, 2);
    }
    if |s| >= 6 {
      assert U16At(s + t, 4) == U16At(s, 4);
    }
  }

  lemma ReadableIsStable(s: seq<byte>, t: seq<byte>)
    requires Readable(s)
    ensures Readable(s + t) && ParseIp(s + t) == ParseIp(s)
    ensures ParseIp(s).value.V4? ==> Dropped(s + t) == Dropped(s)
  {
    assert (s + t)[..|s|] == s;
    ParseIpPrefix(s + t, |s|);
    var ip := ParseIp(s).value;
    hide ParseIp;
    if ip.V4? {
      TransportIsStable(ip.TransportProtocol(), s, t, ip.HeaderLength());
    } else {
      assert (s + t)[..ip.TotalLength()] == s[..ip.TotalLength()];
    }
  }

  lemma TransportIsStable(protocol: Protocol, s: seq<byte>, t: seq<byte>, off: nat)
    requires protocol == Tcp || protocol == Udp ==> ParseTransport(protocol, s, off).Some?
    ensures ParseTransport(protocol, s + t, off) == ParseTransport(protocol, s, off)
  {
  }

  /** Cutting in two steps: what waits from the first is cut with the second. */
  lemma {:induction false} CutConcat(d: Dialect, s: seq<byte>, t: seq<byte>)
    ensures
      var f := Cut(d, s);
      var g := Cut(d, f.rest + t);
      if f.end == Waiting then Cut(d, s + t) == Frames(f.packets + g.packets, g.rest, g.end)
      else f.end != Panicked ==> Cut(d, s + t) == Frames(f.packets, f.rest + t, f.end)
    decreases |s|
  {
    hide HeadOf;
    HeadIsStable(d, s, t);
    match HeadOf(d, s) {
      case Incomplete =>
      case Unsupported =>
      case Unreadable =>
      case Garbage =>
        assert (s + t)[1..] == s[1..] + t;
        CutConcat(d, s[1..], t);
      case Cuttable(n) =>
        if n > 0 {
          assert (s + t)[n..] == s[n..] + t;
          assert (s + t)[..n] == s[..n];
          CutConcat(d, s[n..], t);
          ConcatAssociates([s[..n]], Cut(d, s[n..]).packets, Cut(d, Cut(d, s[n..]).rest + t).packets);
        }
    }
  }

  lemma {:induction false} WaitingRestIsIncomplete(d: Dialect, s: seq<byte>)
    requires Cut(d, s).end == Waiting
    ensures HeadOf(d, Cut(d, s).rest).Incomplete?
    decreases |s|
  {
    hide HeadOf;
    match HeadOf(d, s) {
      case Incomplete =>
      case Garbage => WaitingRestIsIncomplete(d, s[1..]);
      case Cuttable(n) => WaitingRestIsIncomplete(d, s[n..]);
    }
  }

  /** The device reads no further than the length field. */
  lemma {:induction false} DeviceNeverPanics(s: seq<byte>)
    ensures Cut(Device, s).end != Panicked
    decreases |s|
  {
    match HeadOf(Device, s) {
      case Cuttable(n) =>
        if n > 0 {
          DeviceNeverPanics(s[n..]);
        }
      case _ =>
    }
  }

  // ── chunks ──

  /** One read's worth of bytes after another, cut after each; a loop that does not end
      waiting reads no more. */
  function CutChunks(d: Dialect, rest: seq<byte>, chunks: seq<seq<byte>>): Frames
    decreases |chunks|
  {
    if chunks == [] then Frames([], rest, Waiting) else
    var f := Cut(d, rest + chunks[0]);
    if f.end != Waiting then f else
    var g := CutChunks(d, f.rest, chunks[1..]);
    g.(packets := f.packets + g.packets)
  }

  /** Two outcomes of framing are the same: packets, end, and residue while it waits. */
  predicate Agree(f: Frames, g: Frames) {
    f.packets == g.packets && f.end == g.end && (f.end == Waiting ==> f.rest == g.rest)
  }

  /** Framing in chunks that does not panic is framing of the whole stream at once, for any
      bytes, garbage included. */
  lemma {:induction false} ChunkingIsInvisible(d: Dialect, rest: seq<byte>, chunks: seq<seq<byte>>)
    requires HeadOf(d, rest).Incomplete?
    ensures
      var f := CutChunks(d, rest, chunks);
      && (f.end != Panicked ==> Agree(f, Cut(d, rest + Flatten(chunks))))
      && (f.end == Waiting ==> HeadOf(d, f.rest).Incomplete?)
    decreases |chunks|
  {
    hide HeadOf;
    if chunks == [] {
      assert rest + [] == rest;
    } else {
      var f := Cut(d, rest + chunks[0]);
      assert rest + Flatten(chunks) == (rest + chunks[0]) + Flatten(chunks[1..]);
      CutConcat(d, rest + chunks[0], Flatten(chunks[1..]));
      if f.end == Waiting {
        WaitingRestIsIncomplete(d, rest + chunks[0]);
        ChunkingIsInvisible(d, f.rest, chunks[1..]);
      }
    }
  }

  /** The device never panics, so for it chunking is always invisible. */
  lemma {:induction false} DeviceChunkingIsInvisible(rest: seq<byte>, chunks: seq<seq<byte>>)
    requires HeadOf(Device, rest).Incomplete?
    ensures Agree(CutChunks(Device, rest, chunks), Cut(Device, rest + Flatten(chunks)))
    decreases |chunks|
  {
    hide HeadOf;
    ChunksNeverPanic(rest, chunks);
    ChunkingIsInvisible(Device, rest, chunks);
  }

  lemma {:induction false} ChunksNeverPanic(rest: seq<byte>, chunks: seq<seq<byte>>)
    ensures CutChunks(Device, rest, chunks).end != Panicked
    decreases |chunks|
  {
    if chunks != [] {
      DeviceNeverPanics(rest + chunks[0]);
      ChunksNeverPanic(Cut(Device, rest + chunks[0]).rest, chunks[1..]);
    }
  }

  // ── well-formed packets ──

  ghost predicate WellFormed(d: Dialect, p: seq<byte>) {
    p != [] && HeadOf(d, p) == Cuttable(|p|)
  }

  ghost predicate AllWellFormed(d: Dialect, ps: seq<seq<byte>>) {
    forall i :: 0 <= i < |ps| ==> WellFormed(d, ps[i])
  }

  /** Every beginning of a well-formed packet is recognised as one to wait for. */
  lemma PrefixIsIncomplete(d: Dialect, p: seq<byte>, n: nat)
    requires WellFormed(d, p) && n < |p|
    ensures HeadOf(d, p[..n]).Incomplete?
  {
    if n >= 4 {
      assert U16At(p[..n], 2) == U16At(p, 2);
    }
    if n >= 6 {
      assert U16At(p[..n], 4) == U16At(p, 4);
    }
  }

  lemma IncompleteIsNoExtension(d: Dialect, p: seq<byte>, s: seq<byte>)
    requires WellFormed(d, p) && HeadOf(d, s).Incomplete?
    ensures !(p <= s)
  {
    hide HeadOf;
    if p <= s {
      assert s == p + s[|p|..];
      HeadIsStable(d, p, s[|p|..]);
    }
  }

  /** Well-formed packets followed by an incomplete one come out exactly. */
  lemma {:induction false} CutOfPackets(d: Dialect, ps: seq<seq<byte>>, partial: seq<byte>)
    requires AllWellFormed(d, ps) && HeadOf(d, partial).Incomplete?
    ensures Cut(d, Flatten(ps) + partial) == Frames(ps, partial, Waiting)
    decreases |ps|
  {
    hide HeadOf;
    hide Flatten;
    FlattenUnfolds(ps);
    if ps == [] {
      assert [] + partial == partial;
    } else {
      var p, later := ps[0], Flatten(ps[1..]) + partial;
      assert WellFormed(d, p);
      ConcatAssociates(p, Flatten(ps[1..]), partial);
      CutOfOne(d, p, later);
      assert AllWellFormed(d, ps[1..]);
      CutOfPackets(d, ps[1..], partial);
    }
  }

  lemma CutOfOne(d: Dialect, p: seq<byte>, later: seq<byte>)
    requires WellFormed(d, p)
    ensures var f := Cut(d, later); Cut(d, p + later) == f.(packets := [p] + f.packets)
  {
    hide HeadOf;
    HeadIsStable(d, p, later);
    assert (p + later)[..|p|] == p && (p + later)[|p|..] == later;
  }

  /** A prefix of a concatenation is some packets and a beginning of the next. */
  lemma {:induction false} SplitPrefix(ps: seq<seq<byte>>, n: nat) returns (k: nat, m: nat)
    requires (forall i :: 0 <= i < |ps| ==> ps[i] != []) && n <= |Flatten(ps)|
    ensures k <= |ps| && (k == |ps| ==> m == 0) && (k < |ps| ==> m < |ps[k]|)
    ensures Flatten(ps)[..n] == Flatten(ps[..k]) + (if k < |ps| then ps[k][..m] else [])
    ensures n == |Flatten(ps)| ==> k == |ps|
    decreases |ps|
  {
    hide Flatten;
    FlattenUnfolds(ps);
    FlattenUnfolds([]);
    if ps == [] || n < |ps[0]| {
      k, m := 0, n;
      assert ps[..0] == [];
      assert Flatten(ps)[..n] == if ps == [] then [] else ps[0][..n];
    } else {
      k, m := SplitPrefix(ps[1..], n - |ps[0]|);
      k := k + 1;
      FlattenUnfolds(ps[..k]);
      assert ps[..k][1..] == ps[1..][..k - 1];
      var last := if k < |ps| then ps[k][..m] else [];
      assert Flatten(ps)[..n] == ps[0] + Flatten(ps[1..])[..n - |ps[0]|];
      ConcatAssociates(ps[0], Flatten(ps[..k][1..]), last);
    }
  }

  /** Any prefix of a concatenation of well-formed packets is cut into the first of them. */
  lemma CutOfPrefix(d: Dialect, ps: seq<seq<byte>>, n: nat)
    requires AllWellFormed(d, ps) && n <= |Flatten(ps)|
    ensures
      var f := Cut(d, Flatten(ps)[..n]);
      && f.end == Waiting && f.packets <= ps
      && Flatten(f.packets) + f.rest == Flatten(ps)[..n]
      && (n == |Flatten(ps)| ==> f.packets == ps && f.rest == [])
  {
    assert forall i :: 0 <= i < |ps| ==> WellFormed(d, ps[i]);
    var k, m := SplitPrefix(ps, n);
    var partial := if k < |ps| then ps[k][..m] else [];
    if k < |ps| {
      PrefixIsIncomplete(d, ps[k], m);
    }
    assert AllWellFormed(d, ps[..k]);
    CutOfPackets(d, ps[..k], partial);
  }

  // ── when the relay's framing depends on the chunks ──

  /** Every packet cut out of the stream can be parsed when nothing is behind it, and the
      loop does not get stuck. */
  ghost predicate SelfContained(f: Frames) {
    f.end != Stuck && AllWellFormed(Relay, f.packets)
  }

  /** Cutting a beginning of such a stream waits, or panics where the whole does. */
  lemma {:induction false} BeginningAgrees(s: seq<byte>, t: seq<byte>)
    requires SelfContained(Cut(Relay, s + t))
    ensures
      var f := Cut(Relay, s);
      f.end == Waiting || (f.end == Panicked == Cut(Relay, s + t).end && f.packets == Cut(Relay, s + t).packets)
    decreases |s|
  {
    hide HeadOf;
    hide FrontOf;
    HeadIsStable(Relay, s, t);
    NeverUnsupported(s);
    match HeadOf(Relay, s) {
      case Incomplete =>
      case Unreadable =>
        if !HeadOf(Relay, s + t).Unreadable? {
          UnreadableIsNotWellFormed(s, t);
        }
      case Garbage =>
        assert (s + t)[1..] == s[1..] + t;
        BeginningAgrees(s[1..], t);
      case Cuttable(n) =>
        assert n > 0;
        assert (s + t)[n..] == s[n..] + t && (s + t)[..n] == s[..n];
        LaterPackets(s + t, n);
        BeginningAgrees(s[n..], t);
    }
  }

  lemma NeverUnsupported(s: seq<byte>)
    ensures !HeadOf(Relay, s).Unsupported?
  {
  }

  lemma LaterPackets(s: seq<byte>, n: nat)
    requires HeadOf(Relay, s) == Cuttable(n) && n > 0 && SelfContained(Cut(Relay, s))
    ensures WellFormed(Relay, s[..n]) && SelfContained(Cut(Relay, s[n..]))
  {
    hide HeadOf;
    var ps := Cut(Relay, s).packets;
    assert ps[0] == s[..n] && ps[1..] == Cut(Relay, s[n..]).packets;
    forall i | 0 <= i < |ps[1..]|
      ensures WellFormed(Relay, ps[1..][i])
    {
      assert ps[1..][i] == ps[i + 1];
    }
  }

  /** A packet that becomes readable by the bytes behind it cannot be parsed alone. */
  lemma UnreadableIsNotWellFormed(s: seq<byte>, t: seq<byte>)
    requires HeadOf(Relay, s).Unreadable? && !HeadOf(Relay, s + t).Unreadable?
    ensures !SelfContained(Cut(Relay, s + t))
  {
    hide HeadOf;
    hide FrontOf;
    HeadIsStable(Relay, s, t);
    FrontOfUnreadable(s);
    var n := FrontOf(Relay, s).length;
    if n > 0 {
      var p := Cut(Relay, s + t).packets[0];
      assert p == (s + t)[..n] == s[..n];
      assert s == p + s[n..];
      HeadIsStable(Relay, p, s[n..]);
      assert !WellFormed(Relay, p);
    }
  }

  lemma FrontOfUnreadable(s: seq<byte>)
    requires HeadOf(Relay, s).Unreadable?
    ensures FrontOf(Relay, s).Cuttable? && FrontOf(Relay, s).length <= |s|
  {
  }

  lemma {:induction false} SelfContainedChunksAgree(rest: seq<byte>, chunks: seq<seq<byte>>)
    requires HeadOf(Relay, rest).Incomplete? && SelfContained(Cut(Relay, rest + Flatten(chunks)))
    ensures Agree(CutChunks(Relay, rest, chunks), Cut(Relay, rest + Flatten(chunks)))
    decreases |chunks|
  {
    hide HeadOf;
    hide AllWellFormed;
    if chunks == [] {
      assert rest + [] == rest;
    } else {
      var s, t := rest + chunks[0], Flatten(chunks[1..]);
      assert rest + Flatten(chunks) == s + t;
      BeginningAgrees(s, t);
      if Cut(Relay, s).end == Waiting {
        CutConcat(Relay, s, t);
        WaitingRestIsIncomplete(Relay, s);
        RestIsSelfContained(Cut(Relay, s).packets, Cut(Relay, Cut(Relay, s).rest + t));
        SelfContainedChunksAgree(Cut(Relay, s).rest, chunks[1..]);
      }
    }
  }

  lemma RestIsSelfContained(front: seq<seq<byte>>, g: Frames)
    requires SelfContained(g.(packets := front + g.packets))
    ensures SelfContained(g)
  {
    hide WellFormed;
    forall i | 0 <= i < |g.packets|
      ensures WellFormed(Relay, g.packets[i])
    {
      assert (front + g.packets)[|front| + i] == g.packets[i];
    }
  }

  /** A stream that is not self-contained has a cut in two at which the relay panics though
      it survives the stream in one piece. */
  lemma {:induction false} BadCut(s: seq<byte>) returns (m: nat)
    requires !SelfContained(Cut(Relay, s))
    ensures m <= |s| && !Agree(CutChunks(Relay, [], [s[..m], s[m..]]), Cut(Relay, s))
    decreases |s|
  {
    hide HeadOf;
    hide FrontOf;
    NeverUnsupported(s);
    match HeadOf(Relay, s) {
      case Garbage =>
        m := BadCut(s[1..]);
        GarbageHead(s, m);
        m := m + 1;
      case Cuttable(n) =>
        if n > 0 && WellFormed(Relay, s[..n]) {
          StillBad(s, n);
          m := BadCut(s[n..]);
          PacketHead(s, n, m);
          m := n + m;
        } else {
          m := if n < 4 then 4 else n;
          CutShort(s, n, m);
        }
      case _ =>
    }
  }

  lemma StillBad(s: seq<byte>, n: nat)
    requires HeadOf(Relay, s) == Cuttable(n) && n > 0 && WellFormed(Relay, s[..n]) && !SelfContained(Cut(Relay, s))
    ensures !SelfContained(Cut(Relay, s[n..]))
  {
    hide HeadOf;
    var ps := Cut(Relay, s).packets;
    assert ps == [s[..n]] + Cut(Relay, s[n..]).packets;
  }

  /** A cut in two, spelled out. */
  lemma TwoChunks(a: seq<byte>, b: seq<byte>)
    ensures var f := Cut(Relay, a); var g := Cut(Relay, f.rest + b);
      CutChunks(Relay, [], [a, b]) ==
        if f.end != Waiting then f
        else if g.end != Waiting then g.(packets := f.packets + g.packets)
        else Frames(f.packets + g.packets, g.rest, Waiting)
  {
    var f := Cut(Relay, a);
    var g := Cut(Relay, f.rest + b);
    hide Cut;
    assert [] + a == a;
    assert [a, b][1..] == [b] && [b][1..] == [];
    assert CutChunks(Relay, g.rest, []) == Frames([], g.rest, Waiting);
    assert g.packets + [] == g.packets;
    assert CutChunks(Relay, f.rest, [b]) == if g.end != Waiting then g else Frames(g.packets, g.rest, Waiting);
    assert f.packets + (g.packets + []) == f.packets + g.packets;
  }

  lemma GarbageHead(s: seq<byte>, m: nat)
    requires HeadOf(Relay, s).Garbage? && m <= |s| - 1
    requires !Agree(CutChunks(Relay, [], [s[1..][..m], s[1..][m..]]), Cut(Relay, s[1..]))
    ensures !Agree(CutChunks(Relay, [], [s[..m + 1], s[m + 1..]]), Cut(Relay, s))
  {
    hide HeadOf;
    GarbageByFirst(s, m + 1);
    assert s[..m + 1][1..] == s[1..][..m] && s[1..][m..] == s[m + 1..];
    TwoChunks(s[..m + 1], s[m + 1..]);
    TwoChunks(s[1..][..m], s[1..][m..]);
  }

  lemma GarbageByFirst(s: seq<byte>, m: nat)
    requires HeadOf(Relay, s).Garbage? && 0 < m <= |s|
    ensures HeadOf(Relay, s[..m]).Garbage?
  {
  }

  lemma PacketHead(s: seq<byte>, n: nat, m: nat)
    requires HeadOf(Relay, s) == Cuttable(n) && n > 0 && WellFormed(Relay, s[..n]) && m <= |s| - n
    requires !Agree(CutChunks(Relay, [], [s[n..][..m], s[n..][m..]]), Cut(Relay, s[n..]))
    ensures !Agree(CutChunks(Relay, [], [s[..n + m], s[n + m..]]), Cut(Relay, s))
  {
    hide HeadOf;
    hide Cut;
    hide WellFormed;
    var p, a, b := s[..n], s[n..][..m], s[n..][m..];
    assert s[..n + m] == p + a && s[n + m..] == b && s == p + s[n..];
    CutOfOne(Relay, p, a);
    CutOfOne(Relay, p, s[n..]);
    TwoChunks(p + a, b);
    TwoChunks(a, b);
    var f := Cut(Relay, a);
    ConcatAssociates([p], f.packets, Cut(Relay, f.rest + b).packets);
    var x, y := CutChunks(Relay, [], [a, b]), Cut(Relay, s[n..]);
    assert CutChunks(Relay, [], [p + a, b]) == x.(packets := [p] + x.packets);
    if [p] + x.packets == [p] + y.packets {
      assert x.packets == ([p] + x.packets)[1..] == ([p] + y.packets)[1..] == y.packets;
    }
  }

  /** Cut right behind a packet that cannot be parsed alone, or behind the length field. */
  lemma CutShort(s: seq<byte>, n: nat, m: nat)
    requires HeadOf(Relay, s) == Cuttable(n) && m == (if n < 4 then 4 else n)
    requires n == 0 || !WellFormed(Relay, s[..n])
    ensures m <= |s| && !Agree(CutChunks(Relay, [], [s[..m], s[m..]]), Cut(Relay, s))
  {
    hide HeadOf;
    ShortIsUnreadable(s, n, m);
    TwoChunks(s[..m], s[m..]);
  }

  lemma ShortIsUnreadable(s: seq<byte>, n: nat, m: nat)
    requires HeadOf(Relay, s) == Cuttable(n) && m == (if n < 4 then 4 else n)
    requires n == 0 || !WellFormed(Relay, s[..n])
    ensures m <= |s| && HeadOf(Relay, s[..m]).Unreadable?
  {
    hide Readable;
    hide Dropped;
    ReadableIsLong(s);
    FrontOfPrefix(s, n, m);
    if m < 20 && Readable(s[..m]) {
      ReadableIsLong(s[..m]);
    }
  }

  lemma ReadableIsLong(s: seq<byte>)
    requires Readable(s)
    ensures |s| >= 20 && (s[0] / 16 == 6 ==> |s| >= 40 && ParseIp(s).value.TotalLength() >= 40)
  {
  }

  lemma FrontOfPrefix(s: seq<byte>, n: nat, m: nat)
    requires FrontOf(Relay, s) == Cuttable(n) && n <= m <= |s| && 4 <= m && (s[0] / 16 == 6 ==> 6 <= m)
    ensures FrontOf(Relay, s[..m]) == Cuttable(n)
  {
    assert U16At(s[..m], 2) == U16At(s, 2);
    if m >= 6 {
      assert U16At(s[..m], 4) == U16At(s, 4);
    }
  }

  /** The exact condition: the relay frames a stream alike in whatever chunks it comes if and
      only if every packet in it can be parsed alone and no empty packet stops the loop. */
  lemma ChunkingIsInvisibleIff(s: seq<byte>)
    ensures
      (forall chunks :: Flatten(chunks) == s ==> Agree(CutChunks(Relay, [], chunks), Cut(Relay, s)))
      <==> SelfContained(Cut(Relay, s))
  {
    hide Cut;
    hide CutChunks;
    hide SelfContained;
    hide Agree;
    if SelfContained(Cut(Relay, s)) {
      forall chunks | Flatten(chunks) == s
        ensures Agree(CutChunks(Relay, [], chunks), Cut(Relay, s))
      {
        assert [] + s == s;
        SelfContainedChunksAgree([], chunks);
      }
    } else {
      var m := BadCut(s);
      FlattenTwo(s[..m], s[m..]);
      assert s[..m] + s[m..] == s;
    }
  }

  lemma FlattenTwo(a: seq<byte>, b: seq<byte>)
    ensures Flatten([a, b]) == a + b
  {
    FlattenUnfolds([a, b]);
    FlattenUnfolds([b]);
    FlattenUnfolds([]);
    assert [a, b][1..] == [b] && [b][1..] == [];
    assert b + [] == b;
  }

  // ── how a loop ends ──

  /** What one round takes off the front of `p + later`: a packet of the length its header
      says, or on the relay one byte that starts none. The header may reach into `later`. */
  ghost predicate Piece(d: Dialect, p: seq<byte>, later: seq<byte>) {
    p != [] && (HeadOf(d, p + later) == Cuttable(|p|) || (HeadOf(d, p + later).Garbage? && |p| == 1))
  }

  /** `ps` are pieces one after the other, with `z` behind them. */
  ghost predicate Pieces(d: Dialect, ps: seq<seq<byte>>, z: seq<byte>)
    decreases |ps|
  {
    ps != [] ==> Piece(d, ps[0], Flatten(ps[1..]) + z) && Pieces(d, ps[1..], z)
  }

  /** The bytes start with a packet that is cut out for ever: an IPv4 total length of 0; on
      the relay with as many bytes buffered as the parser reads, and with a protocol that is
      not TCP, and not UDP unless to port 443. */
  predicate StartsEmptyPacket(d: Dialect, z: seq<byte>) {
    && |z| >= 4 && z[0] / 16 == 4 && z[2] == 0 && z[3] == 0
    && (d == Relay ==>
          && |z| >= 20 && |z| >= z[0] % 16 * 4
          && z[9] != 6
          && (z[9] == 17 ==> |z| >= z[0] % 16 * 4 + 4 && U16At(z, z[0] % 16 * 4 + 2) == 443))
  }

  /** The bytes start with a packet at which the relay panics: complete by its length field,
      but the parser reads beyond the buffer or, for IPv6, beyond the packet; or an IPv4
      packet of length 0 out of which the router takes the headers. */
  predicate StartsUnreadable(z: seq<byte>) {
    || (|z| >= 4 && z[0] / 16 == 4 && U16At(z, 2) <= |z|
        && var header := z[0] % 16 * 4;
           || |z| < 20 || |z| < header
           || (z[9] == 6 && (|z| < header + 16 || U16At(z, 2) == 0))
           || (z[9] == 17 && (|z| < header + 4 || (U16At(z, 2) == 0 && U16At(z, header + 2) != 443))))
    || (|z| >= 6 && z[0] / 16 == 6
        && var total := (U16At(z, 4) + 40) % 0x1_0000;
           && total <= |z|
           && (total < 40 || (z[6] == 6 && total < 56) || (z[6] == 17 && total < 44)))
  }

  predicate StartsUnsupported(d: Dialect, z: seq<byte>) {
    d == Device && z != [] && z[0] / 16 != 4 && z[0] / 16 != 6
  }

  lemma PieceIsTaken(d: Dialect, p: seq<byte>, later: seq<byte>)
    requires Piece(d, p, later)
    ensures Cut(d, p + later).rest == Cut(d, later).rest && Cut(d, p + later).end == Cut(d, later).end
  {
    hide HeadOf;
    assert (p + later)[|p|..] == later;
  }

  lemma WellFormedIsPiece(d: Dialect, p: seq<byte>, later: seq<byte>)
    requires WellFormed(d, p)
    ensures Piece(d, p, later)
  {
    hide HeadOf;
    HeadIsStable(d, p, later);
  }

  lemma {:induction false} PiecesAreTaken(d: Dialect, ps: seq<seq<byte>>, z: seq<byte>)
    requires Pieces(d, ps, z)
    ensures Cut(d, Flatten(ps) + z).rest == Cut(d, z).rest && Cut(d, Flatten(ps) + z).end == Cut(d, z).end
    decreases |ps|
  {
    hide Cut;
    hide Piece;
    hide Flatten;
    FlattenUnfolds(ps);
    if ps == [] {
      assert [] + z == z;
    } else {
      ConcatAssociates(ps[0], Flatten(ps[1..]), z);
      PieceIsTaken(d, ps[0], Flatten(ps[1..]) + z);
      PiecesAreTaken(d, ps[1..], z);
    }
  }

  lemma FirstPiece(d: Dialect, s: seq<byte>, n: nat)
    requires 0 < n <= |s| && (HeadOf(d, s) == Cuttable(n) || (HeadOf(d, s).Garbage? && n == 1))
    ensures Piece(d, s[..n], s[n..])
  {
    hide HeadOf;
    assert s[..n] + s[n..] == s;
  }

  lemma CutUnfolds(d: Dialect, s: seq<byte>)
    ensures var h := HeadOf(d, s);
      Cut(d, s).rest == if h.Cuttable? && h.length > 0 then Cut(d, s[h.length..]).rest
                        else if h.Garbage? then Cut(d, s[1..]).rest
                        else s
  {
    hide HeadOf;
  }

  /** Whatever the bytes, they are pieces taken one after the other and a rest. */
  lemma {:induction false} CutTakesPieces(d: Dialect, s: seq<byte>) returns (ps: seq<seq<byte>>)
    ensures Pieces(d, ps, Cut(d, s).rest) && s == Flatten(ps) + Cut(d, s).rest
    decreases |s|
  {
    hide HeadOf;
    hide Flatten;
    hide Piece;
    hide Cut;
    CutUnfolds(d, s);
    ps := [];
    FlattenUnfolds(ps);
    assert s == [] + s;
    var n := match HeadOf(d, s) case Cuttable(n) => n case Garbage => 1 case _ => 0;
    if n > 0 {
      FirstPiece(d, s, n);
      var later := CutTakesPieces(d, s[n..]);
      ps := [s[..n]] + later;
      FlattenUnfolds(ps);
      assert ps[1..] == later;
      ConcatAssociates(s[..n], Flatten(later), Cut(d, s[n..]).rest);
      assert s == s[..n] + s[n..];
    }
  }

  lemma EndOfRest(d: Dialect, s: seq<byte>)
    ensures HeadOf(d, s) == Cuttable(0) <==> StartsEmptyPacket(d, s)
    ensures HeadOf(d, s).Unsupported? <==> StartsUnsupported(d, s)
    ensures HeadOf(d, s).Unreadable? <==> d == Relay && StartsUnreadable(s)
  {
  }

  lemma {:induction false} RestDecides(d: Dialect, s: seq<byte>)
    ensures var f := Cut(d, s);
      && (f.end == Stuck <==> StartsEmptyPacket(d, f.rest))
      && (f.end == Failed <==> StartsUnsupported(d, f.rest))
      && (f.end == Panicked <==> d == Relay && StartsUnreadable(f.rest))
    decreases |s|
  {
    hide HeadOf;
    hide StartsEmptyPacket;
    hide StartsUnsupported;
    hide StartsUnreadable;
    EndOfRest(d, s);
    match HeadOf(d, s) {
      case Incomplete =>
      case Unsupported =>
      case Unreadable =>
      case Garbage => RestDecides(d, s[1..]);
      case Cuttable(n) =>
        if n > 0 {
          RestDecides(d, s[n..]);
        }
    }
  }

  /** A framing loop does not end if and only if its input is a sequence of packets (on the
      relay also of single bytes that start none) followed by an empty packet that the
      parser can read and the router lets go. */
  lemma LoopIsEndlessIff(d: Dialect, s: seq<byte>)
    ensures Cut(d, s).end == Stuck <==>
            exists ps: seq<seq<byte>>, z: seq<byte> ::
              Pieces(d, ps, z) && s == Flatten(ps) + z && StartsEmptyPacket(d, z)
  {
    hide Cut;
    hide Pieces;
    hide Flatten;
    hide StartsEmptyPacket;
    if Cut(d, s).end == Stuck {
      var ps := CutTakesPieces(d, s);
      RestDecides(d, s);
      var z := Cut(d, s).rest;
      assert Pieces(d, ps, z) && s == Flatten(ps) + z && StartsEmptyPacket(d, z);
    }
    forall ps: seq<seq<byte>>, z: seq<byte> | Pieces(d, ps, z) && s == Flatten(ps) + z && StartsEmptyPacket(d, z)
      ensures Cut(d, s).end == Stuck
    {
      PiecesAreTaken(d, ps, z);
      EmptyPacketSticks(d, z);
    }
  }

  lemma EmptyPacketSticks(d: Dialect, z: seq<byte>)
    requires StartsEmptyPacket(d, z)
    ensures Cut(d, z) == Frames([], z, Stuck)
  {
    EndOfRest(d, z);
  }

  /** The device's loop gives up if and only if its input is a sequence of packets followed
      by a byte with neither version. */
  lemma LoopFailsIff(d: Dialect, s: seq<byte>)
    ensures Cut(d, s).end == Failed <==>
            exists ps: seq<seq<byte>>, z: seq<byte> ::
              Pieces(d, ps, z) && s == Flatten(ps) + z && StartsUnsupported(d, z)
  {
    hide Cut;
    hide Pieces;
    hide Flatten;
    hide StartsUnsupported;
    if Cut(d, s).end == Failed {
      var ps := CutTakesPieces(d, s);
      RestDecides(d, s);
      var z := Cut(d, s).rest;
      assert Pieces(d, ps, z) && s == Flatten(ps) + z && StartsUnsupported(d, z);
    }
    forall ps: seq<seq<byte>>, z: seq<byte> | Pieces(d, ps, z) && s == Flatten(ps) + z && StartsUnsupported(d, z)
      ensures Cut(d, s).end == Failed
    {
      PiecesAreTaken(d, ps, z);
      UnsupportedFails(d, z);
    }
  }

  lemma UnsupportedFails(d: Dialect, z: seq<byte>)
    requires StartsUnsupported(d, z)
    ensures Cut(d, z) == Frames([], z, Failed)
  {
    EndOfRest(d, z);
  }

  /** The relay's loop panics if and only if its input is a sequence of packets and garbage
      bytes followed by a packet it cannot read. */
  lemma LoopPanicsIff(s: seq<byte>)
    ensures Cut(Relay, s).end == Panicked <==>
            exists ps: seq<seq<byte>>, z: seq<byte> ::
              Pieces(Relay, ps, z) && s == Flatten(ps) + z && StartsUnreadable(z)
  {
    hide Cut;
    hide Pieces;
    hide Flatten;
    hide StartsUnreadable;
    if Cut(Relay, s).end == Panicked {
      var ps := CutTakesPieces(Relay, s);
      RestDecides(Relay, s);
      var z := Cut(Relay, s).rest;
      assert Pieces(Relay, ps, z) && s == Flatten(ps) + z && StartsUnreadable(z);
    }
    forall ps: seq<seq<byte>>, z: seq<byte> | Pieces(Relay, ps, z) && s == Flatten(ps) + z && StartsUnreadable(z)
      ensures Cut(Relay, s).end == Panicked
    {
      PiecesAreTaken(Relay, ps, z);
      UnreadablePanics(z);
    }
  }

  lemma UnreadablePanics(z: seq<byte>)
    requires StartsUnreadable(z)
    ensures Cut(Relay, z) == Frames([], z, Panicked)
  {
    EndOfRest(Relay, z);
  }

  /** An IPv4 header of length 0 with protocol 255. */
  const EMPTY_PACKET: seq<byte> := [0x45, 0, 0, 0, 0, 0, 0, 0, 64, 255, 0, 0, 10, 0, 0, 1, 10, 0, 0, 2]

  /** It happens: after any packet, an IPv4 header of length 0 stops either end for ever. Its
      first four bytes alone stop the device and make the relay panic; so does, on the relay
      only, an IPv6 header whose length wraps. */
  lemma EndlessInputs(p: seq<byte>)
    requires WellFormed(Relay, p) && WellFormed(Device, p)
    ensures Cut(Relay, p + EMPTY_PACKET).end == Stuck
    ensures Cut(Device, p + EMPTY_PACKET).end == Stuck
    ensures Cut(Device, p + EMPTY_PACKET[..4]).end == Stuck
    ensures Cut(Relay, p + EMPTY_PACKET[..4]).end == Panicked
    ensures Cut(Relay, p + [0x60, 0, 0, 0, 0xFF, 0xD8]).end == Panicked
    ensures Cut(Device, p + [0x60, 0, 0, 0, 0xFF, 0xD8]).end == Waiting
  {
    hide Cut;
    hide HeadOf;
    hide StartsEmptyPacket;
    hide StartsUnreadable;
    Starts();
    var v6: seq<byte> := [0x60, 0, 0, 0, 0xFF, 0xD8];
    EmptyPacketSticks(Relay, EMPTY_PACKET);
    EmptyPacketSticks(Device, EMPTY_PACKET);
    EmptyPacketSticks(Device, EMPTY_PACKET[..4]);
    UnreadablePanics(EMPTY_PACKET[..4]);
    UnreadablePanics(v6);
    JumboWaits(v6);
    AfterPacket(p, EMPTY_PACKET);
    AfterPacket(p, EMPTY_PACKET[..4]);
    AfterPacket(p, v6);
  }

  lemma Starts()
    ensures StartsEmptyPacket(Relay, EMPTY_PACKET) && StartsEmptyPacket(Device, EMPTY_PACKET)
    ensures StartsEmptyPacket(Device, EMPTY_PACKET[..4]) && StartsUnreadable(EMPTY_PACKET[..4])
    ensures StartsUnreadable([0x60, 0, 0, 0, 0xFF, 0xD8])
  {
    var z := EMPTY_PACKET[..4];
    assert |z| == 4 && z[0] == 0x45 && z[2] == 0 && z[3] == 0;
    assert U16At(z, 2) == 0;
    var v6: seq<byte> := [0x60, 0, 0, 0, 0xFF, 0xD8];
    assert U16At(v6, 4) == 0xFFD8;
  }

  lemma AfterPacket(p: seq<byte>, z: seq<byte>)
    requires WellFormed(Relay, p) && WellFormed(Device, p)
    ensures Cut(Relay, p + z).end == Cut(Relay, z).end && Cut(Device, p + z).end == Cut(Device, z).end
  {
    hide HeadOf;
    hide Cut;
    WellFormedIsPiece(Relay, p, z);
    WellFormedIsPiece(Device, p, z);
    PieceIsTaken(Relay, p, z);
    PieceIsTaken(Device, p, z);
  }

  lemma JumboWaits(z: seq<byte>)
    requires z == [0x60, 0, 0, 0, 0xFF, 0xD8]
    ensures Cut(Device, z).end == Waiting
  {
  }

  // ── the relay ──

  /** Bytes that cannot start a packet are thrown away without a trace. */
  lemma {:induction false} GarbagePrefixIsSkipped(g: seq<byte>, s: seq<byte>)
    requires forall i :: 0 <= i < |g| ==> g[i] / 16 != 4 && g[i] / 16 != 6
    ensures Cut(Relay, g + s) == Cut(Relay, s)
  {
    if g == [] {
      assert g + s == s;
    } else {
      assert (g + s)[1..] == g[1..] + s;
      GarbagePrefixIsSkipped(g[1..], s);
    }
  }

  /** The loop never leaves the 65536-byte buffer full, whatever it was fed. */
  lemma ResidueLeavesRoom(s: seq<byte>)
    requires Cut(Relay, s).end == Waiting
    ensures |Cut(Relay, s).rest| < MAX_PACKET_LENGTH - 1
  {
    WaitingRestIsIncomplete(Relay, s);
  }

  // ── what the relay builds ──

  /** A whole packet of the relay is well formed for both framers. */
  lemma WholeIsWellFormed(raw: seq<byte>)
    requires Whole(raw)
    ensures WellFormed(Relay, raw) && WellFormed(Device, raw)
  {
    hide Checksummed;
  }
}
