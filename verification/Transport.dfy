/** Relay to device, end to end: packets appended to the shared buffer, drained by the
    client's main loop, written to the socket in parts, received in chunks and cut by
    the device. */
module Transport {
  import opened Bytes
  import opened Chunks
  import opened Sockets
  import opened StreamBuffers
  import opened TcpInvariant
  import opened Framing
  import opened DeviceStream

  /** What `drain_outgoing` returns: as many bytes as the buffer holds, of which only
      those that one write of the ring offers are real; the others stay zero. */
  function Drained(q: Queue): (s: seq<byte>)
    requires q.Ok()
    ensures |s| == |q.contents|
    ensures q.tail == 0 ==> s == q.contents
  {
    q.contents[..q.Offered()] + seq(|q.contents| - q.Offered(), _ => 0 as byte)
  }

  /** The output half of client.rs. */
  class ClientOutput {
    const networkToClient: StreamBuffer
    var pendingOutgoing: seq<byte>

    ghost predicate Valid()
      reads this, networkToClient, networkToClient.buf
    {
      networkToClient.Valid()
    }

    constructor (capacity: nat)
      ensures Valid() && fresh(networkToClient) && fresh(networkToClient.buf)
      ensures networkToClient.queue == Queue([], 0, capacity) && pendingOutgoing == []
    {
      networkToClient := new StreamBuffer(capacity);
      pendingOutgoing := [];
    }

    /** `send_to_client` and `send_raw_to_client`: a whole packet or nothing. */
    method SendToClient(packet: seq<byte>, busy: bool) returns (sent: bool)
      requires Valid()
      modifies networkToClient, networkToClient.buf
      ensures Valid()
      ensures sent == (!busy && |packet| <= old(networkToClient.queue).Remaining())
      ensures var q := old(networkToClient.queue); networkToClient.queue == if sent then q.Append(packet) else q
    {
      hide Queue.Append;
      hide Between;
      if !busy && |packet| <= networkToClient.Remaining() {
        QueueIsOk(networkToClient);
        networkToClient.ReadFrom(packet);
        return true;
      }
      return false;
    }

    method DrainOutgoing(busy: bool) returns (outgoing: seq<byte>)
      requires Valid()
      modifies networkToClient
      ensures Valid() && old(networkToClient.queue).Ok()
      ensures outgoing == if busy then [] else Drained(old(networkToClient.queue))
      ensures var q := old(networkToClient.queue);
        networkToClient.queue == if busy then q else q.WriteTo(Took(|q.contents|))
    {
      hide Between;
      QueueIsOk(networkToClient);
      if busy {
        return [];
      }
      var size := networkToClient.Size();
      if size == 0 {
        return [];
      }
      // the cursor over a vector of `size` zeros takes all that the ring offers
      var _, written := networkToClient.WriteTo(Took(size));
      outgoing := written + seq(size - |written|, _ => 0 as byte);
    }

    /** One turn of the main loop: drain, then write what the socket takes. */
    method Pump(busy: bool, io: IoWrite) returns (wired: seq<byte>)
      requires Valid()
      modifies this, networkToClient
      ensures Valid() && old(networkToClient.queue).Ok()
      ensures
        var q := old(networkToClient.queue);
        var all := old(pendingOutgoing) + if busy then [] else Drained(q);
        && networkToClient.queue == (if busy then q else q.WriteTo(Took(|q.contents|)))
        && wired == (if io.Took? then all[..Min(io.w, |all|)] else [])
        && pendingOutgoing == all[|wired|..]
    {
      var outgoing := DrainOutgoing(busy);
      pendingOutgoing := pendingOutgoing + outgoing;
      var n := if io.Took? then Min(io.w, |pendingOutgoing|) else 0;
      wired := pendingOutgoing[..n];
      pendingOutgoing := pendingOutgoing[n..];
    }
  }

  lemma QueueIsOk(b: StreamBuffer)
    requires b.Valid()
    ensures b.queue.Ok()
  {
  }

  // ── the whole path ──

  datatype Path = Path(
    queue: Queue,
    pending: seq<byte>,
    wire: seq<byte>,
    residue: seq<byte>,
    broken: bool,
    appended: seq<seq<byte>>,
    written: seq<seq<byte>>)

  datatype Move =
    | Append(packet: seq<byte>, busy: bool)
    | Pump(busy: bool, io: IoWrite)
    | Receive(n: nat)

  function Start(capacity: nat): Path {
    Path(Queue([], 0, capacity), [], [], [], false, [], [])
  }

  /** Each move is what the method of the same name of class Link does; `Receive` writes a
      chunk of at most 65536 bytes to the device's framer. */
  function Step(p: Path, m: Move): (r: Path)
    requires p.queue.Ok()
    ensures r.queue.Ok()
  {
    match m
    case Append(packet, busy) =>
      if busy || |packet| > p.queue.Remaining() then p
      else p.(queue := p.queue.Append(packet), appended := p.appended + [packet])
    case Pump(busy, io) =>
      var all := p.pending + if busy then [] else Drained(p.queue);
      var wired := if io.Took? then all[..Min(io.w, |all|)] else [];
      p.(queue := if busy then p.queue else p.queue.WriteTo(Took(|p.queue.contents|)),
         pending := all[|wired|..], wire := p.wire + wired)
    case Receive(n) =>
      var chunk := p.wire[..Min(Min(n, |p.wire|), MAX_IP_PACKET_LENGTH)];
      var f := Cut(Device, p.residue + chunk);
      if p.broken || |chunk| > CAPACITY - |p.residue| || f.end != Waiting then p.(broken := true)
      else p.(wire := p.wire[|chunk|..], residue := f.rest, written := p.written + f.packets)
  }

  function Run(p: Path, moves: seq<Move>): (r: Path)
    requires p.queue.Ok()
    ensures r.queue.Ok()
    decreases |moves|
  {
    if moves == [] then p else Run(Step(p, moves[0]), moves[1..])
  }

  /** The packets a relay appends: well formed, with lengths of 16 bits. */
  ghost predicate Sendable(packet: seq<byte>) {
    WellFormed(Device, packet) && |packet| <= 0xFFFF
  }

  ghost predicate AllSendable(moves: seq<Move>) {
    forall i :: 0 <= i < |moves| && moves[i].Append? ==> Sendable(moves[i].packet)
  }

  /** The bytes between the shared buffer and the device's framer, in order. */
  function InFlight(p: Path): seq<byte> {
    p.wire + (p.pending + p.queue.contents)
  }

  ghost predicate Transparent(p: Path) {
    && p.queue.Ok() && p.queue.tail == 0 && !p.broken
    && (forall i :: 0 <= i < |p.appended| ==> Sendable(p.appended[i]))
    && p.written <= p.appended
    && HeadOf(Device, p.residue).Incomplete? && |p.residue| <= MAX_IP_PACKET_LENGTH
    && Flatten(p.appended[|p.written|..]) == p.residue + InFlight(p)
    && (InFlight(p) == [] ==> p.residue == [])
  }

  lemma AppendKeeps(p: Path, packet: seq<byte>, busy: bool)
    requires Transparent(p) && Sendable(packet)
    ensures Transparent(Step(p, Append(packet, busy)))
  {
    hide HeadOf;
    hide Sendable;
    var r := Step(p, Append(packet, busy));
    if r != p {
      var rest := p.appended[|p.written|..];
      assert r.appended[|r.written|..] == rest + [packet];
      AppendedBehind(p.wire, p.pending, p.queue.contents, packet);
      FlattenConcat(rest, [packet]);
      assert Flatten([packet]) == packet + Flatten([]);
      SendableNotEmpty(packet);
      assert p.residue + (InFlight(p) + packet) == (p.residue + InFlight(p)) + packet;
    }
  }

  lemma AppendedBehind(a: seq<byte>, b: seq<byte>, c: seq<byte>, d: seq<byte>)
    ensures a + (b + (c + d)) == (a + (b + c)) + d
  {
  }

  lemma SendableNotEmpty(packet: seq<byte>)
    requires Sendable(packet)
    ensures packet != [] && WellFormed(Device, packet)
  {
  }

  lemma PumpKeeps(p: Path, busy: bool, io: IoWrite)
    requires Transparent(p)
    ensures Transparent(Step(p, Pump(busy, io)))
  {
    hide HeadOf;
    hide Sendable;
    hide Flatten;
    var r := Step(p, Pump(busy, io));
    var drained := if busy then [] else Drained(p.queue);
    DrainIsExact(p.queue);
    var all := p.pending + drained;
    var wired := if io.Took? then all[..Min(io.w, |all|)] else [];
    Regroup(p.wire, wired, r.pending, r.queue.contents, p.pending, drained, p.queue.contents);
  }

  lemma Regroup(wire: seq<byte>, wired: seq<byte>, pending: seq<byte>, contents: seq<byte>,
                oldPending: seq<byte>, drained: seq<byte>, oldContents: seq<byte>)
    requires oldPending + drained == wired + pending && drained + contents == oldContents
    ensures (wire + wired) + (pending + contents) == wire + (oldPending + oldContents)
  {
    assert oldPending + (drained + contents) == (oldPending + drained) + contents;
    assert (wired + pending) + contents == wired + (pending + contents);
  }

  /** With tail at 0 one drain empties the ring and leaves tail at 0. */
  lemma DrainIsExact(q: Queue)
    requires q.Ok() && q.tail == 0
    ensures Drained(q) == q.contents
    ensures q.WriteTo(Took(|q.contents|)).contents == [] && q.WriteTo(Took(|q.contents|)).tail == 0
  {
  }

  lemma ReceiveKeeps(p: Path, n: nat)
    requires Transparent(p)
    ensures Transparent(Step(p, Receive(n)))
  {
    hide HeadOf;
    hide Cut;
    hide Flatten;
    hide Sendable;
    var chunk := p.wire[..Min(Min(n, |p.wire|), MAX_IP_PACKET_LENGTH)];
    var rest := p.appended[|p.written|..];
    var s := p.residue + chunk;
    var after := p.wire[|chunk|..] + (p.pending + p.queue.contents);
    assert Flatten(rest) == s + after by {
      assert p.wire == chunk + p.wire[|chunk|..];
    }
    assert Flatten(rest)[..|s|] == s;
    RestIsWellFormed(p);
    CutOfPrefix(Device, rest, |s|);
    WaitingRestIsIncomplete(Device, s);
    var f := Cut(Device, s);
    Delivered(p, f, s, after);
    ResidueIsShort(rest, s, f);
  }

  /** The residue is a beginning of the next packet, so it is shorter than one. */
  lemma ResidueIsShort(rest: seq<seq<byte>>, s: seq<byte>, f: Frames)
    requires f == Cut(Device, s) && f.end == Waiting && HeadOf(Device, f.rest).Incomplete?
    requires forall i :: 0 <= i < |rest| ==> |rest[i]| <= 0xFFFF && WellFormed(Device, rest[i])
    requires f.packets <= rest && f.rest <= Flatten(rest[|f.packets|..])
    ensures |f.rest| <= MAX_IP_PACKET_LENGTH
  {
    hide Cut;
    hide HeadOf;
    var next := rest[|f.packets|..];
    if next != [] {
      IncompleteIsNoExtension(Device, next[0], f.rest);
      assert Flatten(next) == next[0] + Flatten(next[1..]);
      assert next[0] <= f.rest <==> |next[0]| <= |f.rest|;
    }
  }

  lemma RestIsWellFormed(p: Path)
    requires forall i :: 0 <= i < |p.appended| ==> Sendable(p.appended[i])
    requires |p.written| <= |p.appended|
    ensures AllWellFormed(Device, p.appended[|p.written|..])
    ensures forall i :: 0 <= i < |p.appended[|p.written|..]| ==> |p.appended[|p.written|..][i]| <= 0xFFFF
  {
    hide HeadOf;
    var rest := p.appended[|p.written|..];
    forall i | 0 <= i < |rest|
      ensures WellFormed(Device, rest[i]) && |rest[i]| <= 0xFFFF
    {
      assert Sendable(p.appended[|p.written| + i]);
    }
  }

  lemma Delivered(p: Path, f: Frames, s: seq<byte>, after: seq<byte>)
    requires p.written <= p.appended && f.packets <= p.appended[|p.written|..]
    requires Flatten(p.appended[|p.written|..]) == s + after
    requires Flatten(f.packets) + f.rest == s
    ensures p.written + f.packets <= p.appended
    ensures p.appended[|p.written + f.packets|..] == p.appended[|p.written|..][|f.packets|..]
    ensures Flatten(p.appended[|p.written + f.packets|..]) == f.rest + after
  {
    hide Flatten;
    var rest := p.appended[|p.written|..];
    var tail := rest[|f.packets|..];
    assert p.appended == p.written + rest;
    assert rest == f.packets + tail;
    FlattenConcat(f.packets, tail);
    var a, b := Flatten(f.packets), Flatten(tail);
    assert a + b == (a + f.rest) + after;
    assert b == (a + b)[|a|..];
    assert f.rest + after == ((a + f.rest) + after)[|a|..];
  }

  /** The packets of the endpoint and of the packetizer are sendable. */
  lemma WholeIsSendable(raw: seq<byte>)
    requires Whole(raw)
    ensures Sendable(raw)
  {
    hide Whole;
    WholeIsWellFormed(raw);
    WholeIsShort(raw);
  }

  lemma WholeIsShort(raw: seq<byte>)
    requires Whole(raw)
    ensures |raw| <= 0xFFFF
  {
  }

  lemma {:induction false} RunIsTransparent(p: Path, moves: seq<Move>)
    requires Transparent(p) && AllSendable(moves)
    ensures Transparent(Run(p, moves))
    decreases |moves|
  {
    hide Transparent;
    hide Step;
    hide Sendable;
    TransparentOk(p);
    if moves != [] {
      match moves[0] {
        case Append(packet, busy) =>
          assert Sendable(moves[0].packet);
          AppendKeeps(p, packet, busy);
        case Pump(busy, io) => PumpKeeps(p, busy, io);
        case Receive(n) => ReceiveKeeps(p, n);
      }
      RunIsTransparent(Step(p, moves[0]), moves[1..]);
    }
  }

  lemma TransparentOk(p: Path)
    requires Transparent(p)
    ensures p.queue.Ok()
  {
    hide HeadOf;
  }

  /** Main result: under any drains, partial writes and receive chunks the device writes
      exactly the packets appended, one by one and in order, and all of them once no
      byte is on the way; the framer never fails and its buffer never overflows. */
  lemma RelayToDeviceIsTransparent(capacity: nat, moves: seq<Move>)
    requires AllSendable(moves)
    ensures
      var r := Run(Start(capacity), moves);
      && r.written <= r.appended && !r.broken
      && (r.queue.contents == [] && r.pending == [] && r.wire == [] ==> r.written == r.appended)
  {
    hide Run;
    hide Sendable;
    var s := Start(capacity);
    assert Transparent(s);
    RunIsTransparent(s, moves);
    var r := Run(s, moves);
    if r.queue.contents == [] && r.pending == [] && r.wire == [] {
      WrittenWhenEmpty(r);
    }
  }

  /** A packet is taken whole exactly when the buffer is free and has room for it. */
  lemma AppendTakesIff(p: Path, packet: seq<byte>, busy: bool)
    requires p.queue.Ok() && packet != []
    ensures
      var r := Step(p, Append(packet, busy));
      var takes := !busy && |p.queue.contents| + |packet| <= p.queue.capacity;
      && r.appended == p.appended + (if takes then [packet] else [])
      && r.queue.contents == p.queue.contents + (if takes then packet else [])
  {
  }

  function Receives(n: nat): seq<Move> {
    seq(n, _ => Receive(MAX_IP_PACKET_LENGTH))
  }

  lemma ReceiveTakesSome(p: Path)
    requires Transparent(p) && p.wire != []
    ensures
      var r := Step(p, Receive(MAX_IP_PACKET_LENGTH));
      && r.queue == p.queue && r.pending == p.pending && r.appended == p.appended
      && |r.wire| == |p.wire| - Min(|p.wire|, MAX_IP_PACKET_LENGTH)
  {
    hide Cut;
    hide HeadOf;
    hide Sendable;
    hide Flatten;
    ReceiveKeeps(p, MAX_IP_PACKET_LENGTH);
  }

  lemma ReceiveOfNothing(p: Path)
    requires Transparent(p) && p.wire == []
    ensures
      var r := Step(p, Receive(MAX_IP_PACKET_LENGTH));
      r.queue == p.queue && r.pending == p.pending && r.appended == p.appended && r.wire == []
  {
    hide Cut;
    hide HeadOf;
    hide Sendable;
    hide Flatten;
    ReceiveKeeps(p, MAX_IP_PACKET_LENGTH);
  }

  lemma {:induction false} ReceivesEmptyTheWire(p: Path, n: nat)
    requires Transparent(p) && n >= |p.wire|
    ensures
      var r := Run(p, Receives(n));
      && Transparent(r) && r.wire == [] && r.queue == p.queue && r.pending == p.pending && r.appended == p.appended
    decreases n
  {
    hide Transparent;
    hide Step;
    TransparentOk(p);
    if n > 0 {
      if p.wire == [] {
        ReceiveOfNothing(p);
      } else {
        ReceiveTakesSome(p);
      }
      ReceiveKeeps(p, MAX_IP_PACKET_LENGTH);
      assert Receives(n)[1..] == Receives(n - 1);
      ReceivesEmptyTheWire(Step(p, Receive(MAX_IP_PACKET_LENGTH)), n - 1);
    }
  }

  /** Nothing is ever stuck on the way: after any moves, one turn of the main loop whose socket
      takes everything and enough receives bring every packet appended to the device. */
  lemma EverythingArrives(capacity: nat, moves: seq<Move>, w: nat, n: nat)
    requires AllSendable(moves)
    requires
      var r := Run(Start(capacity), moves);
      w >= |r.pending| + |r.queue.contents| && n >= |InFlight(r)|
    ensures
      var r := Run(Start(capacity), moves);
      Run(Step(r, Pump(false, Took(w))), Receives(n)).written == r.appended
  {
    hide Run;
    hide Sendable;
    var s := Start(capacity);
    assert Transparent(s);
    RunIsTransparent(s, moves);
    hide Transparent;
    TransparentArrives(Run(s, moves), w, n);
  }

  lemma TransparentArrives(r: Path, w: nat, n: nat)
    requires Transparent(r) && r.queue.Ok() && w >= |r.pending| + |r.queue.contents| && n >= |InFlight(r)|
    ensures
      var end := Run(Step(r, Pump(false, Took(w))), Receives(n));
      end.written == end.appended == r.appended
  {
    hide Run;
    hide Step;
    PumpKeeps(r, false, Took(w));
    PumpTakesAll(r, w);
    hide Transparent;
    var q := Step(r, Pump(false, Took(w)));
    ReceivesEmptyTheWire(q, n);
    WrittenWhenEmpty(Run(q, Receives(n)));
  }

  lemma PumpTakesAll(p: Path, w: nat)
    requires Transparent(p) && w >= |p.pending| + |p.queue.contents|
    ensures
      var r := Step(p, Pump(false, Took(w)));
      && r.queue.contents == [] && r.pending == [] && r.appended == p.appended && |r.wire| == |InFlight(p)|
  {
    hide HeadOf;
    hide Sendable;
    hide Flatten;
    DrainIsExact(p.queue);
  }

  lemma WrittenWhenEmpty(r: Path)
    requires Transparent(r) && r.queue.contents == [] && r.pending == [] && r.wire == []
    ensures r.written == r.appended
  {
    hide Sendable;
    var rest := r.appended[|r.written|..];
    if rest != [] {
      assert rest[0] == r.appended[|r.written|];
      SendableNotEmpty(rest[0]);
    }
  }

  /** The exactness of a drain rests on tail being 0: with tail anywhere else and the
      contents wrapped, bytes of the ring are replaced by zeros and stay behind. */
  lemma DrainIsExactIff(q: Queue)
    requires q.Ok()
    ensures q.WriteTo(Took(|q.contents|)).contents == [] <==> q.tail + |q.contents| <= q.capacity + 1
  {
  }

  // ── the objects on the path ──

  /** The two ends as they are, joined by the bytes on their way between the sockets. */
  class Link {
    const output: ClientOutput
    const device: IPPacketOutputStream
    var wire: seq<byte>
    var broken: bool
    ghost var appended: seq<seq<byte>>

    ghost function Footprint(): set<object> {
      {this, output, output.networkToClient, output.networkToClient.buf, device, device.bytes}
    }

    ghost predicate Valid()
      reads Footprint()
    {
      && output.Valid() && device.Valid() && (!broken ==> device.limit == CAPACITY)
      && output.networkToClient.buf != device.bytes
    }

    ghost function View(): Path
      reads Footprint()
      requires Valid()
    {
      Path(output.networkToClient.queue, output.pendingOutgoing, wire, device.Pending(), broken, appended,
           device.target)
    }

    constructor (capacity: nat)
      ensures Valid() && View() == Start(capacity)
    {
      output := new ClientOutput(capacity);
      device := new IPPacketOutputStream();
      wire, broken, appended := [], false, [];
    }

    method Append(packet: seq<byte>, busy: bool)
      requires Valid()
      modifies Footprint()
      ensures Valid() && old(View()).queue.Ok()
      ensures View() == Step(old(View()), Move.Append(packet, busy))
    {
      hide Queue.Append;
      QueueIsOk(output.networkToClient);
      var sent := output.SendToClient(packet, busy);
      if sent {
        appended := appended + [packet];
      }
    }

    method Pump(busy: bool, io: IoWrite)
      requires Valid()
      modifies Footprint()
      ensures Valid() && old(View()).queue.Ok()
      ensures View() == Step(old(View()), Move.Pump(busy, io))
    {
      hide Queue.WriteTo;
      hide Drained;
      var wired := output.Pump(busy, io);
      wire := wire + wired;
    }

    /** The device receives part of what is on the wire. */
    method Receive(n: nat)
      requires Valid()
      modifies Footprint()
      ensures Valid() && old(View()).queue.Ok()
      ensures broken == Step(old(View()), Move.Receive(n)).broken
      ensures !broken ==> View() == Step(old(View()), Move.Receive(n))
    {
      hide Cut;
      QueueIsOk(output.networkToClient);
      if broken {
        return;
      }
      var chunk := wire[..Min(Min(n, |wire|), MAX_IP_PACKET_LENGTH)];
      var f := Cut(Device, device.bytes[..device.position] + chunk);
      var outcome := device.Write(chunk, None);
      if outcome != Written {
        broken := true;
        return;
      }
      broken := f.end != Waiting;
      wire := wire[|chunk|..];
    }
  }
}
