/** The endpoint and the way to the device in one run: the endpoint's shared buffer is the
    ring that the client's main loop drains, and other connections write to it too. */
module EndToEnd {
  import opened Bytes
  import opened Chunks
  import opened Sockets
  import opened StreamBuffers
  import opened TcpSpec
  import opened TcpInvariant
  import TcpRuns
  import opened TcpOutbox
  import opened Framing
  import opened Transport

  /** `mine` tells which of the packets appended to the path are the endpoint's. */
  datatype Joint = Joint(conn: Conn, path: Path, mine: seq<bool>)

  datatype Turn = Endpoint(event: TcpRuns.Event) | Others(move: Move)

  function NewPackets(c: Conn, d: Conn): seq<seq<byte>> {
    if |c.log.appended| <= |d.log.appended| then d.log.appended[|c.log.appended|..] else []
  }

  function Same(n: nat, b: bool): seq<bool> {
    seq(n, _ => b)
  }

  ghost predicate Joined(j: Joint) {
    j.conn.Ok() && j.path.queue == j.conn.outbox
  }

  /** A step of the endpoint leaves its shared buffer to the path; a move of the others, of
      the main loop or of the device leaves the path's ring to the endpoint. */
  function Take(j: Joint, turn: Turn): (r: Joint)
    requires Joined(j)
    ensures Joined(r)
  {
    match turn
    case Endpoint(event) =>
      if event.Elsewhere? then j else
      var d := TcpRuns.Step(j.conn, event);
      var packets := NewPackets(j.conn, d);
      Joint(d, j.path.(queue := d.outbox, appended := j.path.appended + packets), j.mine + Same(|packets|, true))
    case Others(move) =>
      StepCapacity(j.path, move);
      var p := Step(j.path, move);
      Joint(TcpRuns.Step(j.conn, TcpRuns.Elsewhere(p.queue)), p,
            j.mine + Same(|p.appended| - |j.path.appended|, false))
  }

  lemma StepCapacity(p: Path, move: Move)
    requires p.queue.Ok()
    ensures Step(p, move).queue.capacity == p.queue.capacity
    ensures p.appended <= Step(p, move).appended
    ensures !move.Append? ==> Step(p, move).appended == p.appended
  {
  }

  function TakeAll(j: Joint, turns: seq<Turn>): (r: Joint)
    requires Joined(j)
    ensures Joined(r)
    decreases |turns|
  {
    if turns == [] then j else TakeAll(Take(j, turns[0]), turns[1..])
  }

  /** The packets marked as the endpoint's. */
  function Own(packets: seq<seq<byte>>, mine: seq<bool>): seq<seq<byte>> {
    if packets == [] || mine == [] then [] else
    (if mine[0] then [packets[0]] else []) + Own(packets[1..], mine[1..])
  }

  lemma {:induction false} OwnConcat(a: seq<seq<byte>>, b: seq<seq<byte>>, m: seq<bool>, n: seq<bool>)
    requires |a| == |m|
    ensures Own(a + b, m + n) == Own(a, m) + Own(b, n)
  {
    if a == [] {
      assert a + b == b && m + n == n;
    } else {
      assert (a + b)[1..] == a[1..] + b && (m + n)[1..] == m[1..] + n;
      OwnConcat(a[1..], b, m[1..], n);
    }
  }

  lemma {:induction false} OwnSame(a: seq<seq<byte>>, b: bool)
    ensures Own(a, Same(|a|, b)) == if b then a else []
  {
    if a != [] {
      assert Same(|a|, b)[1..] == Same(|a| - 1, b);
      OwnSame(a[1..], b);
    }
  }

  ghost predicate Sound(j: Joint) {
    && Joined(j) && Inv(j.conn)
    && |j.mine| == |j.path.appended| && Own(j.path.appended, j.mine) == j.conn.log.appended
    && (AllIntact(j.conn.log.flushes) ==> Transparent(j.path))
  }

  ghost predicate Fair(turn: Turn) {
    turn.Others? && turn.move.Append? ==> Sendable(turn.move.packet)
  }

  // ── a turn of the endpoint ──

  lemma EndpointFollows(c: Conn, event: TcpRuns.Event)
    requires Inv(c) && c.Ok() && !event.Elsewhere? && AllIntact(TcpRuns.Step(c, event).log.flushes)
    ensures var d := TcpRuns.Step(c, event);
      && Queued(c, d) && AllIntact(c.log.flushes) && Inv(d)
      && forall i :: 0 <= i < |d.log.appended| ==> Sendable(d.log.appended[i])
  {
    hide Inv;
    hide TcpRuns.Step;
    hide Queued;
    hide Conn.Ok;
    hide Sendable;
    var d := TcpRuns.Step(c, event);
    if StepOverruns(c, event) {
      OverrunIsRecorded(c, event);
    }
    SharedBufferFollowsIff(c, event);
    IntactBefore(c, d);
    TcpRuns.StepKeeps(c, event);
    IntactIsSendable(d);
  }

  lemma IntactBefore(c: Conn, d: Conn)
    requires Queued(c, d) && AllIntact(d.log.flushes)
    ensures AllIntact(c.log.flushes)
  {
    forall i | 0 <= i < |c.log.flushes|
      ensures c.log.flushes[i].intact
    {
      assert d.log.flushes[i] == c.log.flushes[i];
    }
  }

  lemma IntactIsSendable(d: Conn)
    requires Inv(d) && AllIntact(d.log.flushes)
    ensures forall i :: 0 <= i < |d.log.appended| ==> Sendable(d.log.appended[i])
  {
    hide Upstream;
    hide Edges;
    hide Lifecycle;
    hide Numbers;
    hide Downstream;
    hide Deferral;
    hide Sendable;
    hide Whole;
    forall i | 0 <= i < |d.log.appended|
      ensures Sendable(d.log.appended[i])
    {
      WholeIsSendable(d.log.appended[i]);
    }
  }

  /** Whole packets behind those already on the way. */
  lemma PacketsKeep(p: Path, queue: Queue, packets: seq<seq<byte>>)
    requires Transparent(p) && forall i :: 0 <= i < |packets| ==> Sendable(packets[i])
    requires queue.Ok() && queue == p.queue.(contents := p.queue.contents + Flatten(packets))
    ensures Transparent(p.(queue := queue, appended := p.appended + packets))
  {
    hide HeadOf;
    hide Sendable;
    hide Flatten;
    hide InFlight;
    var r := p.(queue := queue, appended := p.appended + packets);
    BothSendable(p.appended, packets);
    LongerList(p.appended, packets, p.written);
    FlattenConcat(p.appended[|p.written|..], packets);
    QueuedBehind(p, r, Flatten(packets));
    ConcatAssociates(p.residue, InFlight(p), Flatten(packets));
  }

  lemma LongerList(a: seq<seq<byte>>, b: seq<seq<byte>>, front: seq<seq<byte>>)
    requires front <= a
    ensures front <= a + b && (a + b)[|front|..] == a[|front|..] + b
  {
  }

  lemma BothSendable(a: seq<seq<byte>>, b: seq<seq<byte>>)
    requires forall i :: 0 <= i < |a| ==> Sendable(a[i])
    requires forall i :: 0 <= i < |b| ==> Sendable(b[i])
    ensures forall i :: 0 <= i < |a + b| ==> Sendable((a + b)[i])
  {
    hide Sendable;
  }

  lemma QueuedBehind(p: Path, r: Path, bytes: seq<byte>)
    requires r.wire == p.wire && r.pending == p.pending && r.queue.contents == p.queue.contents + bytes
    ensures InFlight(r) == InFlight(p) + bytes
    ensures InFlight(r) == [] ==> InFlight(p) == []
  {
    AppendedBehind(p.wire, p.pending, p.queue.contents, bytes);
  }

  lemma EndpointKeeps(j: Joint, event: TcpRuns.Event)
    requires Sound(j)
    ensures Sound(Take(j, Endpoint(event)))
  {
    hide Inv;
    hide TcpRuns.Step;
    hide Transparent;
    hide Sendable;
    hide Conn.Ok;
    hide Own;
    if !event.Elsewhere? {
      var c, d := j.conn, TcpRuns.Step(j.conn, event);
      var packets := NewPackets(c, d);
      TcpRuns.StepKeeps(c, event);
      AppendedOnly(c, event);
      OwnConcat(j.path.appended, packets, j.mine, Same(|packets|, true));
      OwnSame(packets, true);
      if AllIntact(d.log.flushes) {
        EndpointFollows(c, event);
        OkOutbox(d);
        assert forall i :: 0 <= i < |packets| ==> packets[i] == d.log.appended[|c.log.appended| + i];
        PacketsKeep(j.path, d.outbox, packets);
      }
    }
  }

  lemma OkOutbox(c: Conn)
    requires c.Ok()
    ensures c.outbox.Ok()
  {
  }

  /** Whatever happens to the ring, the history only grows. */
  lemma AppendedOnly(c: Conn, event: TcpRuns.Event)
    requires c.Ok() && !event.Elsewhere?
    ensures c.log.appended <= TcpRuns.Step(c, event).log.appended
  {
    hide Conn.Ok;
    hide Conn.Poll;
    hide Conn.HandlePacket;
    hide Conn.FlushPending;
    match event {
      case FromDevice(s, random, busy) => HandlePacketQueued(c, s, random, busy);
      case PollSockets(env) =>
        if c.closed || !c.FlushPending(env.busy).1 {
          NotFlushed(c, env);
        } else {
          RestOfPollQueued(c, env);
          FlushAppends(c, env.busy);
        }
    }
  }

  lemma FlushAppends(c: Conn, busy: bool)
    requires c.Ok()
    ensures c.log.appended <= c.FlushPending(busy).0.log.appended
  {
    hide Queue.Append;
  }

  // ── a turn of anybody else ──

  lemma OthersKeep(j: Joint, move: Move)
    requires Sound(j) && Fair(Others(move))
    ensures Sound(Take(j, Others(move)))
  {
    hide Inv;
    hide Transparent;
    hide Sendable;
    hide Step;
    hide Own;
    var p := Step(j.path, move);
    StepCapacity(j.path, move);
    TcpRuns.StepKeeps(j.conn, TcpRuns.Elsewhere(p.queue));
    var packets := p.appended[|j.path.appended|..];
    assert p.appended == j.path.appended + packets;
    OwnConcat(j.path.appended, packets, j.mine, Same(|packets|, false));
    OwnSame(packets, false);
    assert j.conn.log.appended + [] == j.conn.log.appended;
    if AllIntact(j.conn.log.flushes) {
      MoveKeeps(j.path, move);
    }
  }

  lemma MoveKeeps(p: Path, move: Move)
    requires Transparent(p) && (move.Append? ==> Sendable(move.packet))
    ensures p.queue.Ok() && Transparent(Step(p, move))
  {
    hide Transparent;
    hide Sendable;
    hide Step;
    TransparentOk(p);
    match move {
      case Append(packet, busy) => AppendKeeps(p, packet, busy);
      case Pump(busy, io) => PumpKeeps(p, busy, io);
      case Receive(n) => ReceiveKeeps(p, n);
    }
  }

  lemma {:induction false} TurnsKeep(j: Joint, turns: seq<Turn>)
    requires Sound(j) && forall i :: 0 <= i < |turns| ==> Fair(turns[i])
    ensures Sound(TakeAll(j, turns))
    decreases |turns|
  {
    hide Sound;
    hide Take;
    hide Fair;
    SoundJoined(j);
    if turns != [] {
      match turns[0] {
        case Endpoint(event) => EndpointKeeps(j, event);
        case Others(move) =>
          assert Fair(turns[0]);
          OthersKeep(j, move);
      }
      TurnsKeep(Take(j, turns[0]), turns[1..]);
    }
  }

  lemma SoundJoined(j: Joint)
    requires Sound(j)
    ensures Joined(j)
  {
    hide Inv;
    hide Transparent;
  }

  // ── the result ──

  function Begin(ipRaw: seq<byte>, tcpRaw: seq<byte>, capacity: nat): (j: Joint)
    requires TcpRuns.Opening(ipRaw, tcpRaw, Queue([], 0, capacity))
    ensures Joined(j)
  {
    Joint(TcpRuns.Create(ipRaw, tcpRaw, Queue([], 0, capacity)), Start(capacity), [])
  }

  lemma BeginSound(ipRaw: seq<byte>, tcpRaw: seq<byte>, capacity: nat)
    requires TcpRuns.Opening(ipRaw, tcpRaw, Queue([], 0, capacity))
    ensures Sound(Begin(ipRaw, tcpRaw, capacity))
  {
    hide Inv;
    hide TcpRuns.Opening;
    TcpRuns.CreateInv(ipRaw, tcpRaw, Queue([], 0, capacity));
  }

  /** What the device wrote of the endpoint's packets so far. */
  function Received(j: Joint): seq<seq<byte>> {
    Own(j.path.written, j.mine)
  }

  /** Main result. Run the endpoint, any other senders of whole packets, the main loop with
      partial writes, and the device with any chunks, interleaved in any way. Unless a flush
      was spoilt: the device's framer neither fails nor overflows and writes the packets of
      all senders in order; what it wrote of the endpoint's is a beginning of what the endpoint
      handed over; and once no byte is on the way, the payloads it wrote are exactly the bytes
      the endpoint read from the network, up to the one packet that may be deferred. */
  lemma NetworkBytesReachTheDevice(ipRaw: seq<byte>, tcpRaw: seq<byte>, capacity: nat, turns: seq<Turn>)
    requires TcpRuns.Opening(ipRaw, tcpRaw, Queue([], 0, capacity))
    requires forall i :: 0 <= i < |turns| ==> Fair(turns[i])
    requires AllIntact(TakeAll(Begin(ipRaw, tcpRaw, capacity), turns).conn.log.flushes)
    ensures
      var j := TakeAll(Begin(ipRaw, tcpRaw, capacity), turns);
      && !j.path.broken && j.path.written <= j.path.appended
      && Received(j) <= j.conn.log.appended
      && (j.path.queue.contents == [] && j.path.pending == [] && j.path.wire == [] ==>
            && j.path.written == j.path.appended
            && j.conn.log.received == AppendedPayloads(Received(j), j.conn.pk.pi)
                                      + (if j.conn.deferred.Some? then Pending(j.conn) else []))
  {
    hide TakeAll;
    hide Begin;
    hide Sound;
    var start := Begin(ipRaw, tcpRaw, capacity);
    BeginSound(ipRaw, tcpRaw, capacity);
    TurnsKeep(start, turns);
    SoundDelivers(TakeAll(start, turns));
  }

  lemma SoundDelivers(j: Joint)
    requires Sound(j) && AllIntact(j.conn.log.flushes)
    ensures
      && !j.path.broken && j.path.written <= j.path.appended
      && Received(j) <= j.conn.log.appended
      && (j.path.queue.contents == [] && j.path.pending == [] && j.path.wire == [] ==>
            && j.path.written == j.path.appended
            && j.conn.log.received == AppendedPayloads(Received(j), j.conn.pk.pi)
                                      + (if j.conn.deferred.Some? then Pending(j.conn) else []))
  {
    hide Inv;
    hide Transparent;
    hide Own;
    hide AppendedPayloads;
    TransparentWritten(j.path);
    ReceivedIsPrefix(j);
    TcpRuns.InvReceived(j.conn);
    if j.path.queue.contents == [] && j.path.pending == [] && j.path.wire == [] {
      WrittenWhenEmpty(j.path);
    }
  }

  lemma TransparentWritten(p: Path)
    requires Transparent(p)
    ensures !p.broken && p.written <= p.appended
  {
    hide HeadOf;
    hide Sendable;
  }

  lemma ReceivedIsPrefix(j: Joint)
    requires j.path.written <= j.path.appended && |j.mine| == |j.path.appended|
    ensures Received(j) <= Own(j.path.appended, j.mine)
  {
    hide Own;
    var k := |j.path.written|;
    assert j.path.appended == j.path.written + j.path.appended[k..];
    assert j.mine == j.mine[..k] + j.mine[k..];
    OwnConcat(j.path.written, j.path.appended[k..], j.mine[..k], j.mine[k..]);
    OwnConcat(j.path.written, [], j.mine[..k], j.mine[k..]);
    OwnNothing(j.mine[k..]);
    assert j.path.written + [] == j.path.written;
  }

  lemma OwnNothing(mine: seq<bool>)
    ensures Own([], mine) == []
  {
  }

  // ── nothing stays on the way ──

  function AsTurns(moves: seq<Move>): seq<Turn> {
    if moves == [] then [] else [Others(moves[0])] + AsTurns(moves[1..])
  }

  /** Turns of the main loop and of the device leave the endpoint alone, but for its ring. */
  lemma {:induction false} MovesAsTurns(j: Joint, moves: seq<Move>)
    requires Joined(j) && forall i :: 0 <= i < |moves| ==> !moves[i].Append?
    ensures
      var r := TakeAll(j, AsTurns(moves));
      && r.path == Run(j.path, moves) && r.mine == j.mine
      && r.conn.log == j.conn.log && r.conn.deferred == j.conn.deferred && r.conn.pk == j.conn.pk
    decreases |moves|
  {
    hide Step;
    hide Take;
    if moves != [] {
      assert !moves[0].Append?;
      MoveAsTurn(j, moves[0]);
      forall i | 0 <= i < |moves[1..]|
        ensures !moves[1..][i].Append?
      {
        assert moves[1..][i] == moves[i + 1];
      }
      MovesAsTurns(Take(j, Others(moves[0])), moves[1..]);
      assert AsTurns(moves)[1..] == AsTurns(moves[1..]);
    }
  }

  lemma MoveAsTurn(j: Joint, move: Move)
    requires Joined(j) && !move.Append?
    ensures j.path.queue.Ok()
    ensures
      var r := Take(j, Others(move));
      && r.path == Step(j.path, move) && r.mine == j.mine
      && r.conn.log == j.conn.log && r.conn.deferred == j.conn.deferred && r.conn.pk == j.conn.pk
  {
    hide Step;
    StepCapacity(j.path, move);
    assert j.mine + Same(0, false) == j.mine;
  }

  /** Whatever came before, unless a flush was spoilt: one turn of the main loop whose socket
      takes everything and enough receives bring all that the endpoint read from the network
      to the device, up to the one packet that may be deferred. */
  lemma EverythingReadArrives(ipRaw: seq<byte>, tcpRaw: seq<byte>, capacity: nat, turns: seq<Turn>, w: nat, n: nat)
    requires TcpRuns.Opening(ipRaw, tcpRaw, Queue([], 0, capacity))
    requires forall i :: 0 <= i < |turns| ==> Fair(turns[i])
    requires
      var j := TakeAll(Begin(ipRaw, tcpRaw, capacity), turns);
      && AllIntact(j.conn.log.flushes)
      && w >= |j.path.pending| + |j.path.queue.contents| && n >= |InFlight(j.path)|
    ensures
      var j := TakeAll(Begin(ipRaw, tcpRaw, capacity), turns);
      var r := TakeAll(j, AsTurns([Pump(false, Took(w))] + Receives(n)));
      && r.path.written == r.path.appended == j.path.appended
      && j.conn.log.received == AppendedPayloads(Received(r), j.conn.pk.pi)
                                + (if j.conn.deferred.Some? then Pending(j.conn) else [])
  {
    hide TakeAll;
    hide Begin;
    hide Sound;
    hide Run;
    var start := Begin(ipRaw, tcpRaw, capacity);
    BeginSound(ipRaw, tcpRaw, capacity);
    TurnsKeep(start, turns);
    SoundArrives(TakeAll(start, turns), w, n);
  }

  lemma SoundArrives(j: Joint, w: nat, n: nat)
    requires Sound(j) && AllIntact(j.conn.log.flushes)
    requires w >= |j.path.pending| + |j.path.queue.contents| && n >= |InFlight(j.path)|
    ensures
      var r := TakeAll(j, AsTurns([Pump(false, Took(w))] + Receives(n)));
      && r.path.written == r.path.appended == j.path.appended
      && j.conn.log.received == AppendedPayloads(Received(r), j.conn.pk.pi)
                                + (if j.conn.deferred.Some? then Pending(j.conn) else [])
  {
    hide Inv;
    hide Transparent;
    hide Own;
    hide AppendedPayloads;
    hide TakeAll;
    hide Run;
    hide Step;
    var moves := [Pump(false, Took(w))] + Receives(n);
    MovesAsTurns(j, moves);
    TransparentArrives(j.path, w, n);
    RunOfMoves(j.path, Pump(false, Took(w)), Receives(n));
    TcpRuns.InvReceived(j.conn);
    assert j.mine[..|j.mine|] == j.mine;
  }

  lemma RunOfMoves(p: Path, move: Move, moves: seq<Move>)
    requires p.queue.Ok()
    ensures Run(p, [move] + moves) == Run(Step(p, move), moves)
  {
    hide Step;
    assert ([move] + moves)[1..] == moves;
  }
}
