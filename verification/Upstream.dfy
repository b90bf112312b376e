/** From the device to the network in one run: bytes of the device's stream in chunks, cut
    into packets, parsed, handled by the endpoint, written to its socket. */
module Upstream {
  import opened Bytes
  import opened Chunks
  import opened StreamBuffers
  import opened Headers
  import opened HeaderLayout
  import opened Packetizers
  import opened TcpSpec
  import opened TcpRuns
  import opened TcpDevice
  import opened Framing
  import opened DeviceFeed

  /** Both packets belong to the same connection. */
  predicate SameFlow(a: Packet, b: Packet) {
    && a.transport.TcpData? && b.transport.TcpData? && a.ip.V4? == b.ip.V4?
    && (a.ip.V4? ==> a.ip.source4 == b.ip.source4 && a.ip.destination4 == b.ip.destination4)
    && (a.ip.V6? ==> a.ip.source6 == b.ip.source6 && a.ip.destination6 == b.ip.destination6)
    && a.transport.sourcePort == b.transport.sourcePort && a.transport.destinationPort == b.transport.destinationPort
  }

  /** What the endpoint of `flow` reads of a routed packet; nothing of packets for others. */
  function SegmentOf(flow: Packet, raw: seq<byte>): Option<Segment> {
    var p := ParsePacket(raw);
    if p.None? || !SameFlow(flow, p.value) then None else
    var t := p.value.transport;
    var payload := p.value.ip.HeaderLength() + t.HeaderLength();
    if payload > |p.value.raw| then None
    else Some(Segment(t.sequenceNumber, t.acknowledgementNumber, t.flags, t.window, p.value.raw[payload..]))
  }

  /** Of a packet laid out as RFC 791 and RFC 9293 say the endpoint of its flow reads exactly
      number, acknowledgement, control bits, window and payload, and no other endpoint anything. */
  lemma SegmentIsRead(flow: Packet, source: u32, destination: u32, sourcePort: u16, destinationPort: u16, s: Segment,
                      identification: u16, hops: byte, checksums: (u16, u16))
    requires s.flags < 0x200 && 40 + |s.payload| <= 0xFFFF
    ensures
      var ip := Ipv4Bytes(5, 0, 40 + |s.payload|, identification, 0, hops, 6, checksums.0, source, destination);
      var tcp := TcpBytes(sourcePort, destinationPort, s.sequenceNumber, s.acknowledgementNumber, 5, 0, s.flags,
                          s.window, checksums.1, 0);
      SegmentOf(flow, ip + tcp + s.payload) ==
        if && flow.transport.TcpData? && flow.ip.V4?
           && (flow.ip.source4, flow.ip.destination4) == (source, destination)
           && (flow.transport.sourcePort, flow.transport.destinationPort) == (sourcePort, destinationPort)
        then Some(s) else None
  {
    hide Ipv4Bytes;
    hide TcpBytes;
    hide ParseIpv4;
    hide ParseTcp;
    var ip := Ipv4Bytes(5, 0, 40 + |s.payload|, identification, 0, hops, 6, checksums.0, source, destination);
    var tcp := TcpBytes(sourcePort, destinationPort, s.sequenceNumber, s.acknowledgementNumber, 5, 0, s.flags,
                        s.window, checksums.1, 0);
    var raw := ip + tcp + s.payload;
    assert raw == ip + (tcp + s.payload);
    Ipv4Parses(5, 0, 40 + |s.payload|, identification, 0, hops, 6, checksums.0, source, destination, tcp + s.payload);
    TcpParses(ip, sourcePort, destinationPort, s.sequenceNumber, s.acknowledgementNumber, 5, 0, s.flags, s.window,
              checksums.1, 0, s.payload);
    assert raw[..|raw|] == raw && raw[40..] == s.payload;
    assert raw[0] == ip[0];
  }

  function SegmentsOf(flow: Packet, raws: seq<seq<byte>>): seq<Segment> {
    if raws == [] then [] else
    (if SegmentOf(flow, raws[0]).Some? then [SegmentOf(flow, raws[0]).value] else []) + SegmentsOf(flow, raws[1..])
  }

  function Handling(segments: seq<Segment>, random: u32, busy: bool): seq<Event> {
    if segments == [] then [] else
    [FromDevice(segments[0], random, busy)] + Handling(segments[1..], random, busy)
  }

  /** The segments a run has handled. */
  function Handled(events: seq<Event>): seq<Segment> {
    if events == [] then [] else
    (if events[0].FromDevice? then [events[0].segment] else []) + Handled(events[1..])
  }

  datatype Turn = Arrive(chunk: seq<byte>, random: u32, busy: bool) | Meanwhile(event: Event)

  datatype Path = Path(residue: seq<byte>, end: End, routed: seq<seq<byte>>, conn: Conn, events: seq<Event>)

  /** A chunk is fed, as `Client.FeedDeviceData` does it, and every packet of the connection is
      handled; a poll or a use of the shared buffer comes in between. */
  function Take(flow: Packet, p: Path, turn: Turn): (r: Path)
    requires p.conn.Ok() && |p.residue| <= MAX_PACKET_LENGTH
    ensures r.conn.Ok() && |r.residue| <= MAX_PACKET_LENGTH
  {
    match turn
    case Arrive(chunk, random, busy) =>
      if p.end != Waiting then p else
      var f := Cut(Relay, Kept(p.residue, chunk));
      var events := Handling(SegmentsOf(flow, f.packets), random, busy);
      Path(f.rest, f.end, p.routed + f.packets, Run(p.conn, events), p.events + events)
    case Meanwhile(event) =>
      if event.FromDevice? then p else p.(conn := Step(p.conn, event), events := p.events + [event])
  }

  function TakeAll(flow: Packet, p: Path, turns: seq<Turn>): (r: Path)
    requires p.conn.Ok() && |p.residue| <= MAX_PACKET_LENGTH
    ensures r.conn.Ok() && |r.residue| <= MAX_PACKET_LENGTH
    decreases |turns|
  {
    if turns == [] then p else TakeAll(flow, Take(flow, p, turns[0]), turns[1..])
  }

  /** The bytes that arrive in a run. */
  function Arriving(turns: seq<Turn>): seq<byte> {
    if turns == [] then [] else
    (if turns[0].Arrive? then turns[0].chunk else []) + Arriving(turns[1..])
  }

  /** Every chunk fits behind the residue it finds. */
  ghost predicate Fitting(flow: Packet, p: Path, turns: seq<Turn>)
    requires p.conn.Ok() && |p.residue| <= MAX_PACKET_LENGTH
    decreases |turns|
  {
    turns != [] ==>
      && (turns[0].Arrive? ==> |p.residue| + |turns[0].chunk| <= MAX_PACKET_LENGTH)
      && Fitting(flow, Take(flow, p, turns[0]), turns[1..])
  }

  // ── the run of the endpoint ──

  lemma {:induction false} RunConcat(c: Conn, a: seq<Event>, b: seq<Event>)
    requires c.Ok()
    ensures Run(c, a + b) == Run(Run(c, a), b)
    decreases |a|
  {
    hide Step;
    hide Conn.Ok;
    var all := a + b;
    if a == [] {
      assert all == b;
    } else {
      assert all[0] == a[0] && all[1..] == a[1..] + b;
      RunConcat(Step(c, a[0]), a[1..], b);
      assert Run(c, all) == Run(Step(c, all[0]), all[1..]);
      assert Run(c, a) == Run(Step(c, a[0]), a[1..]);
    }
  }

  lemma RunOne(c: Conn, e: Event)
    requires c.Ok()
    ensures Run(c, [e]) == Step(c, e)
  {
    hide Step;
    hide Conn.Ok;
    assert [e][0] == e && [e][1..] == [];
    assert Run(Step(c, e), []) == Step(c, e);
  }

  lemma {:induction false} HandledConcat(a: seq<Event>, b: seq<Event>)
    ensures Handled(a + b) == Handled(a) + Handled(b)
  {
    if a == [] {
      assert a + b == b;
    } else {
      var all := a + b;
      assert all[1..] == a[1..] + b && all[0] == a[0];
      HandledConcat(a[1..], b);
      ConcatAssociates(if a[0].FromDevice? then [a[0].segment] else [], Handled(a[1..]), Handled(b));
    }
  }

  lemma {:induction false} HandledAll(segments: seq<Segment>, random: u32, busy: bool)
    ensures Handled(Handling(segments, random, busy)) == segments
  {
    if segments != [] {
      HandledAll(segments[1..], random, busy);
      assert Handling(segments, random, busy)[1..] == Handling(segments[1..], random, busy);
    }
  }

  lemma {:induction false} SegmentsConcat(flow: Packet, a: seq<seq<byte>>, b: seq<seq<byte>>)
    ensures SegmentsOf(flow, a + b) == SegmentsOf(flow, a) + SegmentsOf(flow, b)
  {
    hide SegmentOf;
    if a == [] {
      assert a + b == b;
    } else {
      var all := a + b;
      assert all[1..] == a[1..] + b && all[0] == a[0];
      SegmentsConcat(flow, a[1..], b);
      ConcatAssociates(if SegmentOf(flow, a[0]).Some? then [SegmentOf(flow, a[0]).value] else [],
                       SegmentsOf(flow, a[1..]), SegmentsOf(flow, b));
    }
  }

  // ── the invariant ──

  /** `ps` is all the device sends and `later` what has not arrived yet. */
  ghost predicate Exact(flow: Packet, start: Conn, ps: seq<seq<byte>>, p: Path, later: seq<byte>) {
    && start.Ok() && p.conn == Run(start, p.events) && Handled(p.events) == SegmentsOf(flow, p.routed)
    && p.end == Waiting && HeadOf(Relay, p.residue).Incomplete? && |p.residue| <= MAX_PACKET_LENGTH
    && p.routed <= ps && Flatten(ps[|p.routed|..]) == p.residue + later
  }

  lemma ArriveKeeps(flow: Packet, start: Conn, ps: seq<seq<byte>>, p: Path, later: seq<byte>, turn: Turn)
    requires AllWellFormed(Relay, ps) && turn.Arrive? && Exact(flow, start, ps, p, turn.chunk + later)
    requires |p.residue| + |turn.chunk| <= MAX_PACKET_LENGTH
    ensures p.conn.Ok() && Exact(flow, start, ps, Take(flow, p, turn), later)
  {
    hide HeadOf;
    hide Cut;
    hide Flatten;
    hide WellFormed;
    hide Run;
    hide Handled;
    hide Handling;
    hide SegmentsOf;
    hide Conn.Ok;
    var s := p.residue + turn.chunk;
    assert Kept(p.residue, turn.chunk) == s;
    ConcatAssociates(p.residue, turn.chunk, later);
    var rest := ps[|p.routed|..];
    assert Flatten(rest) == s + later && Flatten(rest)[..|s|] == s;
    LaterWellFormed(ps, |p.routed|);
    CutOfPrefix(Relay, rest, |s|);
    WaitingRestIsIncomplete(Relay, s);
    var f := Cut(Relay, s);
    Routed(ps, p.routed, f, s, later);
    var segments := SegmentsOf(flow, f.packets);
    var events := Handling(segments, turn.random, turn.busy);
    RunConcat(start, p.events, events);
    HandledConcat(p.events, events);
    HandledAll(segments, turn.random, turn.busy);
    SegmentsConcat(flow, p.routed, f.packets);
  }

  lemma LaterWellFormed(ps: seq<seq<byte>>, k: nat)
    requires AllWellFormed(Relay, ps) && k <= |ps|
    ensures AllWellFormed(Relay, ps[k..])
  {
    hide WellFormed;
  }

  lemma Routed(ps: seq<seq<byte>>, routed: seq<seq<byte>>, f: Frames, s: seq<byte>, later: seq<byte>)
    requires routed <= ps && f.packets <= ps[|routed|..] && Flatten(ps[|routed|..]) == s + later
    requires Flatten(f.packets) + f.rest == s
    ensures routed + f.packets <= ps && Flatten(ps[|routed + f.packets|..]) == f.rest + later
  {
    hide Flatten;
    var rest := ps[|routed|..];
    var tail := rest[|f.packets|..];
    assert ps == routed + rest && rest == f.packets + tail && ps[|routed + f.packets|..] == tail;
    FlattenConcat(f.packets, tail);
    ConcatAssociates(Flatten(f.packets), f.rest, later);
    assert Flatten(tail) == (Flatten(f.packets) + Flatten(tail))[|Flatten(f.packets)|..];
    assert f.rest + later == (Flatten(f.packets) + (f.rest + later))[|Flatten(f.packets)|..];
  }

  lemma MeanwhileKeeps(flow: Packet, start: Conn, ps: seq<seq<byte>>, p: Path, later: seq<byte>, turn: Turn)
    requires turn.Meanwhile? && Exact(flow, start, ps, p, later)
    ensures p.conn.Ok() && Exact(flow, start, ps, Take(flow, p, turn), later)
  {
    hide HeadOf;
    hide Flatten;
    hide Run;
    hide Step;
    hide SegmentsOf;
    hide Conn.Ok;
    if !turn.event.FromDevice? {
      RunConcat(start, p.events, [turn.event]);
      RunOne(p.conn, turn.event);
      HandledConcat(p.events, [turn.event]);
      assert [turn.event][1..] == [] && Handled([turn.event]) == [];
      assert Handled(p.events) + [] == Handled(p.events);
    }
  }

  lemma {:induction false} TurnsKeep(flow: Packet, start: Conn, ps: seq<seq<byte>>, p: Path, later: seq<byte>,
                                     turns: seq<Turn>)
    requires AllWellFormed(Relay, ps) && p.conn.Ok() && |p.residue| <= MAX_PACKET_LENGTH && Fitting(flow, p, turns)
    requires Exact(flow, start, ps, p, Arriving(turns) + later)
    ensures Exact(flow, start, ps, TakeAll(flow, p, turns), later)
    decreases |turns|
  {
    hide Exact;
    hide Take;
    hide AllWellFormed;
    hide Conn.Ok;
    if turns == [] {
      assert [] + later == later;
    } else {
      var rest := Arriving(turns[1..]) + later;
      match turns[0] {
        case Arrive(chunk, _, _) =>
          ConcatAssociates(chunk, Arriving(turns[1..]), later);
          ArriveKeeps(flow, start, ps, p, rest, turns[0]);
        case Meanwhile(_) =>
          assert Arriving(turns) == Arriving(turns[1..]);
          MeanwhileKeeps(flow, start, ps, p, rest, turns[0]);
      }
      TurnsKeep(flow, start, ps, Take(flow, p, turns[0]), later, turns[1..]);
    }
  }

  // ── the results ──

  function Begin(c: Conn): Path {
    Path([], Waiting, [], c, [])
  }

  /** However the device's packets are cut into chunks that fit, and whatever happens between
      them: the endpoint's run is one of `TcpRuns`, and the segments it handled are exactly
      those of its connection in the packets that have arrived whole, in order. */
  lemma HandledSegmentsAreTheSentOnes(flow: Packet, start: Conn, ps: seq<seq<byte>>, later: seq<byte>, turns: seq<Turn>)
    requires start.Ok() && AllWellFormed(Relay, ps) && Fitting(flow, Begin(start), turns)
    requires Flatten(ps) == Arriving(turns) + later
    ensures
      var p := TakeAll(flow, Begin(start), turns);
      && p.end == Waiting && p.routed <= ps && Flatten(p.routed) + p.residue == Arriving(turns)
      && p.conn == Run(start, p.events) && Handled(p.events) == SegmentsOf(flow, p.routed)
      && (later == [] ==> p.routed == ps)
  {
    hide HeadOf;
    hide TakeAll;
    hide Fitting;
    hide Flatten;
    hide AllWellFormed;
    hide Conn.Ok;
    hide SegmentsOf;
    var p0 := Begin(start);
    assert ps[0..] == ps && [] + (Arriving(turns) + later) == Arriving(turns) + later;
    BeginExact(flow, start, ps, Arriving(turns) + later);
    TurnsKeep(flow, start, ps, p0, later, turns);
    var p := TakeAll(flow, p0, turns);
    var k := |p.routed|;
    assert ps == p.routed + ps[k..];
    FlattenConcat(p.routed, ps[k..]);
    ConcatAssociates(Flatten(p.routed), p.residue, later);
    SameFront(Flatten(p.routed) + p.residue, Arriving(turns), later);
    if later == [] {
      LaterWellFormed(ps, k);
      NothingIsLeft(ps[k..], p.residue);
    }
  }

  lemma BeginExact(flow: Packet, start: Conn, ps: seq<seq<byte>>, later: seq<byte>)
    requires start.Ok() && Flatten(ps) == later
    ensures Exact(flow, start, ps, Begin(start), later)
  {
    hide Conn.Ok;
    assert ps[0..] == ps && [] + later == later;
  }

  lemma SameFront(a: seq<byte>, b: seq<byte>, c: seq<byte>)
    requires a + c == b + c
    ensures a == b
  {
    assert |a| == |b|;
    assert a == (a + c)[..|a|] && b == (b + c)[..|b|];
  }

  /** The packets left cannot be a mere beginning of a packet. */
  lemma NothingIsLeft(rest: seq<seq<byte>>, residue: seq<byte>)
    requires AllWellFormed(Relay, rest) && HeadOf(Relay, residue).Incomplete? && Flatten(rest) == residue + []
    ensures rest == []
  {
    hide HeadOf;
    if rest != [] {
      assert residue + [] == residue;
      assert WellFormed(Relay, rest[0]);
      assert rest[0] <= residue by {
        FlattenUnfolds(rest);
      }
      IncompleteIsNoExtension(Relay, rest[0], residue);
    }
  }

  /** From an orderly device to the network: if the segments are pieces of its data and its FIN
      was counted in place, what the endpoint wrote to its socket and holds for it is a
      beginning of what the device said. */
  lemma NetworkGetsWhatTheDeviceSaid(dev: Device, flow: Packet, ipRaw: seq<byte>, tcpRaw: seq<byte>, outbox: Queue,
                                     ps: seq<seq<byte>>, later: seq<byte>, turns: seq<Turn>)
    requires Opening(ipRaw, tcpRaw, outbox) && AllWellFormed(Relay, ps)
    requires Fitting(flow, Begin(Create(ipRaw, tcpRaw, outbox)), turns) && Flatten(ps) == Arriving(turns) + later
    requires
      var p := TakeAll(flow, Begin(Create(ipRaw, tcpRaw, outbox)), turns);
      Orderly(dev, Create(ipRaw, tcpRaw, outbox), p.events) && CountedInPlace(p.conn)
    ensures
      var p := TakeAll(flow, Begin(Create(ipRaw, tcpRaw, outbox)), turns);
      && Handled(p.events) == SegmentsOf(flow, p.routed) && p.routed <= ps
      && p.conn.log.written + p.conn.inbox.contents <= dev.data
  {
    hide TakeAll;
    hide Fitting;
    hide Flatten;
    hide AllWellFormed;
    hide SegmentsOf;
    hide Orderly;
    hide CountedInPlace;
    hide Create;
    hide Opening;
    hide Run;
    var start := Create(ipRaw, tcpRaw, outbox);
    HandledSegmentsAreTheSentOnes(flow, start, ps, later, turns);
    NetworkGetsTheStream(dev, ipRaw, tcpRaw, outbox, TakeAll(flow, Begin(start), turns).events);
  }
}
