/** What the endpoint answers: the control packets every step puts in the shared buffer, word
    for word, where each step moves the control block, and when a poll closes or blocks. */
module TcpAnswers {
  import opened Bytes
  import opened Chunks
  import opened Sockets
  import opened StreamBuffers
  import opened Packetizers
  import opened TcpSpec
  import opened TcpInvariant
  import opened TcpSteps
  import opened TcpHandlers
  import opened TcpNetwork
  import opened TcpRuns
  import opened TcpProgress
  import opened TcpOutbox
  import opened TcpReading

  /** The header of a control packet. */
  datatype Reply = Reply(sequenceNumber: u32, acknowledgementNumber: u32, flags: u16, window: u16)

  /** How many of `n` control packets the shared buffer takes. */
  function Fitting(n: nat, room: int, pi: nat, busy: bool): (k: nat)
    ensures k <= n
  {
    if n == 0 || busy || pi > room then 0 else 1 + Fitting(n - 1, room - pi, pi, busy)
  }

  ghost predicate SaysReply(raw: seq<byte>, r: Reply, pi: nat) {
    |raw| == pi && Says(raw, r.sequenceNumber, r.acknowledgementNumber, r.flags, r.window)
  }

  /** On the way from `c` to `d` these replies, as many as fit, and nothing else is put in the
      shared buffer. */
  ghost predicate Answers(c: Conn, d: Conn, replies: seq<Reply>, busy: bool) {
    && Queued(c, d) && d.pk.pi == c.pk.pi
    && |Handed(c, d)| == Fitting(|replies|, c.outbox.Remaining(), c.pk.pi, busy)
    && forall i :: 0 <= i < |Handed(c, d)| ==> SaysReply(Handed(c, d)[i], replies[i], c.pk.pi)
  }

  ghost predicate Ready(c: Conn) {
    c.Ok() && c.pk.Synced()
  }

  lemma ReachedReady(c: Conn)
    requires Reached(c)
    ensures Ready(c)
  {
    hide Reached;
    hide Inv;
    hide Pk.Synced;
    hide Conn.Ok;
    ReachedInv(c);
    InvOk(c);
    InvSynced(c);
  }

  // ── composition ──

  /** A step that touches neither packets nor buffers. */
  lemma AnswersNothing(c: Conn, d: Conn, busy: bool)
    requires d.pk.pi == c.pk.pi && d.outbox == c.outbox
    requires d.log.appended == c.log.appended && d.log.flushes == c.log.flushes
    ensures Answers(c, d, [], busy)
  {
    QueuedNothing(c, d);
  }

  lemma QueuedRoom(c: Conn, d: Conn)
    requires Queued(c, d)
    ensures d.outbox.Remaining() == c.outbox.Remaining() - |Flatten(Handed(c, d))|
  {
  }

  /** At most one reply, and then the others. */
  lemma AnswersThen(c: Conn, d: Conn, e: Conn, first: seq<Reply>, rest: seq<Reply>, busy: bool)
    requires |first| <= 1 && Answers(c, d, first, busy) && Answers(d, e, rest, busy)
    ensures Answers(c, e, first + rest, busy)
  {
    hide Queued;
    hide SaysReply;
    QueuedPrefix(c, d);
    QueuedPrefix(d, e);
    QueuedTwice(c, d, e);
    QueuedPrefix(c, e);
    QueuedRoom(c, d);
    assert Handed(c, e) == Handed(c, d) + Handed(d, e);
    if Handed(c, d) != [] {
      FlattenOne(Handed(c, d));
      assert SaysReply(Handed(c, d)[0], first[0], c.pk.pi);
      SaysLength(Handed(c, d)[0], first[0], c.pk.pi);
    }
  }

  /** Replies, and then nothing for the shared buffer. */
  lemma AnswersThenQuiet(c: Conn, d: Conn, e: Conn, replies: seq<Reply>, busy: bool)
    requires Answers(c, d, replies, busy) && e.pk.pi == d.pk.pi && e.outbox == d.outbox
    requires e.log.appended == d.log.appended && e.log.flushes == d.log.flushes
    ensures Answers(c, e, replies, busy)
  {
    hide SaysReply;
    hide Flatten;
  }

  lemma QueuedPrefix(c: Conn, d: Conn)
    requires Queued(c, d)
    ensures c.log.appended <= d.log.appended
  {
  }

  lemma FlattenOne(raws: seq<seq<byte>>)
    requires |raws| == 1
    ensures Flatten(raws) == raws[0]
  {
    assert raws == [raws[0]] && raws[0] + [] == raws[0];
  }

  lemma SaysLength(raw: seq<byte>, r: Reply, pi: nat)
    requires SaysReply(raw, r, pi)
    ensures |raw| == pi
  {
    hide Says;
  }

  // ── one control packet ──

  function ReplyOf(c: Conn, flags: u16): Reply
    requires c.Ok()
  {
    Reply(c.tcb.sequenceNumber, c.tcb.acknowledgementNumber, flags, c.AdvertisedWindow())
  }

  lemma EmptyIsAnswer(c: Conn, flags: u16, busy: bool)
    requires Ready(c) && flags < 0x200
    ensures
      var d := c.SendEmpty(flags, busy);
      && Answers(c, d, [ReplyOf(c, flags)], busy) && Ready(d)
      && d.tcb == c.tcb && d.inbox == c.inbox && d.closed == c.closed
  {
    hide Conn.SendEmpty;
    hide Pk.Synced;
    hide Whole;
    hide Says;
    hide Queued;
    hide ControlFlags;
    ControlPacketSays(c, flags, busy);
    SendEmptyEffect(c, flags, busy);
    SendEmptyFits(c, flags, busy);
    SendEmptyQueued(c, flags, busy);
  }

  lemma FinIsAnswer(c: Conn, next: TcpState, busy: bool)
    requires Ready(c)
    ensures
      var d := c.SendFin(next, busy);
      && Answers(c, d, [ReplyOf(c, FIN + ACK)], busy) && Ready(d)
      && d.tcb == c.tcb.(finSequenceNumber := Some(c.tcb.sequenceNumber),
                         sequenceNumber := Wrap32(c.tcb.sequenceNumber + 1), state := next)
      && d.inbox == c.inbox && d.closed == c.closed
  {
    hide Conn.SendEmpty;
    hide Conn.Ok;
    hide Pk.Synced;
    hide Answers;
    EmptyIsAnswer(c, FIN + ACK, busy);
    var e := c.SendEmpty(FIN + ACK, busy);
    var d := c.SendFin(next, busy);
    TcbOk(e, d.tcb);
    AnswersThenQuiet(c, e, d, [ReplyOf(c, FIN + ACK)], busy);
  }

  // ── the FIN of the device ──

  /** The state behind a FIN that counts. */
  function StateAfterFin(state: TcpState): TcpState {
    match state
    case Established => LastAck
    case FinWait1 => Closing
    case _ => state
  }

  /** The control block behind a FIN that counts: one byte acknowledged, and in Established our
      own FIN sent. */
  function BehindFin(t: Tcb): Tcb {
    var u := t.(acknowledgementNumber := Wrap32(t.acknowledgementNumber + 1), state := StateAfterFin(t.state));
    if t.state != Established then u
    else u.(finSequenceNumber := Some(t.sequenceNumber), sequenceNumber := Wrap32(t.sequenceNumber + 1))
  }

  /** A FIN that counts is answered by ours in Established, by an ACK behind our own. */
  function FinReplies(t: Tcb, window: u16): seq<Reply> {
    var next := Wrap32(t.acknowledgementNumber + 1);
    if t.state == Established then [Reply(t.sequenceNumber, next, FIN + ACK, window)]
    else if t.state == FinWait1 || t.state == FinWait2 then [Reply(t.sequenceNumber, next, ACK, window)]
    else []
  }

  lemma CountedFinIsAnswered(c: Conn, busy: bool)
    requires Ready(c)
    ensures
      var d := c.DoHandleFin(busy);
      && Answers(c, d, FinReplies(c.tcb, c.AdvertisedWindow()), busy) && Ready(d)
      && d.tcb == BehindFin(c.tcb) && d.inbox == c.inbox
      && d.closed == (c.closed || c.tcb.state == FinWait2)
  {
    hide Conn.SendEmpty;
    hide Conn.SendFin;
    hide Conn.Ok;
    hide Pk.Synced;
    hide Answers;
    OkInbox(c);
    var b := c.CountFin(false);
    var d := c.DoHandleFin(busy);
    QuietIsReady(c, b);
    AnswersNothing(c, b, busy);
    var replies := FinReplies(c.tcb, c.AdvertisedWindow());
    assert [] + replies == replies && replies + [] == replies;
    match c.tcb.state {
      case Established =>
        FinIsAnswer(b, LastAck, busy);
        AnswersThen(c, b, d, [], replies, busy);
      case FinWait1 =>
        EmptyIsAnswer(b, ACK, busy);
        ThenQuiet(b, b.SendEmpty(ACK, busy), d, replies, busy);
        AnswersThen(c, b, d, [], replies, busy);
      case FinWait2 =>
        EmptyIsAnswer(b, ACK, busy);
        ThenQuiet(b, b.SendEmpty(ACK, busy), d, replies, busy);
        AnswersThen(c, b, d, [], replies, busy);
      case _ =>
    }
  }

  lemma QuietIsReady(c: Conn, d: Conn)
    requires Ready(c) && d.pk == c.pk && d.deferred == c.deferred && d.outbox == c.outbox && d.inbox.Ok()
    ensures Ready(d)
  {
    hide Pk.Synced;
  }

  /** A reply, and then only the control block or the end of the connection. */
  lemma ThenQuiet(c: Conn, d: Conn, e: Conn, replies: seq<Reply>, busy: bool)
    requires Ready(d) && Answers(c, d, replies, busy)
    requires e == d.(tcb := e.tcb, closed := e.closed)
    ensures Answers(c, e, replies, busy) && Ready(e)
  {
    hide Pk.Synced;
    hide Answers;
    hide Conn.Ok;
    OkInbox(d);
    QuietIsReady(d, e);
    AnswersThenQuiet(c, d, e, replies, busy);
  }

  lemma FinIsAnswered(c: Conn, busy: bool)
    requires Ready(c)
    ensures
      var d := c.HandleFin(busy);
      var counts := c.inbox.contents == [];
      var t := c.tcb.(finReceived := true);
      && Answers(c, d, if counts then FinReplies(t, c.AdvertisedWindow()) else [], busy) && Ready(d)
      && d.tcb == (if counts then BehindFin(t) else t) && d.inbox == c.inbox
      && d.closed == (c.closed || (counts && c.tcb.state == FinWait2))
  {
    hide Conn.DoHandleFin;
    hide Conn.Ok;
    hide Pk.Synced;
    hide Answers;
    hide FinReplies;
    hide BehindFin;
    OkInbox(c);
    var b := c.(tcb := c.tcb.(finReceived := true));
    QuietIsReady(c, b);
    AnswersNothing(c, b, busy);
    if c.inbox.contents == [] {
      CountedFinIsAnswered(b, busy);
      var replies := FinReplies(b.tcb, b.AdvertisedWindow());
      AnswersThen(c, b, b.DoHandleFin(busy), [], replies, busy);
      assert [] + replies == replies;
    }
  }

  // ── a payload ──

  /** The payload bytes that are taken. */
  function Taken(c: Conn, s: Segment): (n: nat)
    ensures n <= |s.payload|
  {
    if Accepts(c, s) then |s.payload| else 0
  }

  /** What an ACK of a segment takes: nothing when it completes the handshake or does not fit. */
  function AckTakes(c: Conn, s: Segment): nat {
    if c.tcb.state != SynReceived && |s.payload| <= c.inbox.Remaining() then |s.payload| else 0
  }

  /** Taken or dropped, a payload is answered by an ACK of what is expected now, with the room
      that is left. */
  function AckReplies(c: Conn, s: Segment): seq<Reply>
    requires c.Ok()
  {
    if c.tcb.state == SynReceived || s.payload == [] then []
    else [Reply(c.tcb.sequenceNumber, Wrap32(c.tcb.acknowledgementNumber + AckTakes(c, s)), ACK,
                Min(c.inbox.Remaining() - AckTakes(c, s), 0xFFFF))]
  }

  lemma AckIsAnswered(c: Conn, s: Segment, busy: bool)
    requires Ready(c)
    ensures
      var d := c.HandleAck(s, busy);
      && Answers(c, d, AckReplies(c, s), busy) && Ready(d)
      && d.tcb == c.tcb.(state := if c.tcb.state == SynReceived then Established else c.tcb.state,
                         acknowledgementNumber := Wrap32(c.tcb.acknowledgementNumber + AckTakes(c, s)))
      && d.inbox.contents == c.inbox.contents + s.payload[..AckTakes(c, s)]
      && d.inbox.capacity == c.inbox.capacity && d.closed == c.closed
  {
    hide Conn.SendEmpty;
    hide Pk.Synced;
    hide Answers;
    hide Conn.AcceptPayload;
    var d := c.HandleAck(s, busy);
    assert c.inbox.contents + s.payload[..0] == c.inbox.contents;
    assert s.payload[..|s.payload|] == s.payload;
    if c.tcb.state == SynReceived || s.payload == [] {
      AnswersNothing(c, d, busy);
    } else if c.inbox.Remaining() < |s.payload| {
      EmptyIsAnswer(c, ACK, busy);
    } else {
      var a := c.AcceptPayload(s);
      AcceptedForAnswer(c, s);
      AcceptedIsLogged(c, s);
      AcceptIsQuiet(c, s);
      AnswersNothing(c, a, busy);
      EmptyIsAnswer(a, ACK, busy);
      AnswersThen(c, a, d, [], [ReplyOf(a, ACK)], busy);
      assert [] + [ReplyOf(a, ACK)] == [ReplyOf(a, ACK)];
    }
  }

  lemma AcceptIsQuiet(c: Conn, s: Segment)
    requires Ready(c) && |s.payload| <= c.inbox.Remaining()
    ensures
      var a := c.AcceptPayload(s);
      Ready(a) && a.log.flushes == c.log.flushes && a.closed == c.closed && a.inbox.capacity == c.inbox.capacity
  {
    hide Pk.Synced;
  }

  // ── any packet ──

  /** Our FIN's acknowledgement, given the control block it may have been sent from. */
  predicate AcknowledgesFin(t: Tcb, s: Segment) {
    t.finSequenceNumber.Some? && s.acknowledgementNumber == Wrap32(t.finSequenceNumber.value + 1)
  }

  /** A FIN counts when nothing waits for the network, its own payload included. */
  predicate FinCounts(c: Conn, s: Segment) {
    s.IsFin() && c.inbox.contents == [] && !Accepts(c, s)
  }

  /** The control block a segment at the expected number finds: its window and acknowledgement
      noted and the handshake completed. */
  function Found(c: Conn, s: Segment): Tcb {
    c.tcb.(clientWindow := s.window, theirAcknowledgementNumber := s.acknowledgementNumber,
           state := if c.tcb.state == SynReceived && s.IsAck() && !s.IsRst() then Established else c.tcb.state,
           finReceived := c.tcb.finReceived || (s.IsFin() && !s.IsRst()))
  }

  /** The control block after any packet. */
  function Afterwards(c: Conn, s: Segment, random: u32): Tcb {
    var t := c.tcb;
    var synchronized := t.(synSequenceNumber := s.sequenceNumber,
                           acknowledgementNumber := Wrap32(s.sequenceNumber + 1));
    if t.state == Init then
      if s.IsSyn() then synchronized.(state := SynSent, sequenceNumber := random, clientWindow := s.window)
      else t.(sequenceNumber := s.acknowledgementNumber)
    else if s.IsSyn() then if t.state == SynSent then synchronized else t
    else if s.sequenceNumber != t.acknowledgementNumber then t
    else if s.IsRst() then Found(c, s)
    else
      var taken := Found(c, s).(acknowledgementNumber := Wrap32(t.acknowledgementNumber + Taken(c, s)));
      var e := if FinCounts(c, s) then BehindFin(taken) else taken;
      if AcknowledgesFin(e, s) && e.state == FinWait1 then e.(state := FinWait2) else e
  }

  /** The answer to any packet. */
  function Replies(c: Conn, s: Segment): seq<Reply>
    requires c.Ok()
  {
    var t := c.tcb;
    if t.state == Init then
      if s.IsSyn() then []
      else [Reply(s.acknowledgementNumber, t.acknowledgementNumber, RST, c.AdvertisedWindow())]
    else if s.IsSyn() then if Closes(c, s) then [ReplyOf(c, RST)] else []
    else if s.sequenceNumber != t.acknowledgementNumber then
      if Wrap32(s.sequenceNumber - t.acknowledgementNumber) >= 0x8000_0000 then [ReplyOf(c, ACK)] else []
    else if s.IsRst() then []
    else (if s.IsAck() then AckReplies(c, s) else [])
         + (if FinCounts(c, s) then FinReplies(Found(c, s), c.AdvertisedWindow()) else [])
  }

  /** The segment is met and its ACK handled. */
  function Acked(c: Conn, s: Segment, busy: bool): (d: Conn)
    requires c.Ok()
    ensures c.Kin(d)
  {
    if s.IsAck() then c.Meet(s).HandleAck(s, busy) else c.Meet(s)
  }

  lemma AckedIsAnswered(c: Conn, s: Segment, busy: bool)
    requires Ready(c) && c.tcb.state != Init && !s.IsSyn() && !s.IsRst()
    requires s.sequenceNumber == c.tcb.acknowledgementNumber
    ensures
      var d := Acked(c, s, busy);
      && Answers(c, d, if s.IsAck() then AckReplies(c, s) else [], busy) && Ready(d)
      && d.tcb == Found(c, s).(acknowledgementNumber := Wrap32(c.tcb.acknowledgementNumber + Taken(c, s)),
                               finReceived := c.tcb.finReceived)
      && d.inbox.contents == c.inbox.contents + s.payload[..Taken(c, s)]
      && d.inbox.capacity == c.inbox.capacity && d.closed == c.closed
  {
    hide Conn.HandleAck;
    hide Conn.Ok;
    hide Pk.Synced;
    hide Answers;
    OkInbox(c);
    var m := c.Meet(s);
    QuietIsReady(c, m);
    AnswersNothing(c, m, busy);
    AckIsAnswered(m, s, busy);
    assert c.inbox.contents + s.payload[..0] == c.inbox.contents;
    if s.IsAck() {
      assert AckReplies(m, s) == AckReplies(c, s) && AckTakes(m, s) == Taken(c, s);
      AnswersThen(c, m, m.HandleAck(s, busy), [], AckReplies(c, s), busy);
      assert [] + AckReplies(c, s) == AckReplies(c, s);
    }
  }

  /** The FIN after the ACK. */
  function Finned(c: Conn, s: Segment, busy: bool): (e: Conn)
    requires c.Ok()
    ensures c.Kin(e)
  {
    if s.IsFin() then Acked(c, s, busy).HandleFin(busy) else Acked(c, s, busy)
  }

  lemma FinnedIsAnswered(c: Conn, s: Segment, busy: bool)
    requires Ready(c) && c.tcb.state != Init && !s.IsSyn() && !s.IsRst()
    requires s.sequenceNumber == c.tcb.acknowledgementNumber
    ensures
      var e := Finned(c, s, busy);
      var taken := Found(c, s).(acknowledgementNumber := Wrap32(c.tcb.acknowledgementNumber + Taken(c, s)));
      && Answers(c, e, Replies(c, s), busy) && e.tcb == (if FinCounts(c, s) then BehindFin(taken) else taken)
  {
    hide Acked;
    hide Conn.HandleFin;
    hide Conn.Ok;
    hide Pk.Synced;
    hide Answers;
    hide FinReplies;
    hide BehindFin;
    hide AckReplies;
    var d := Acked(c, s, busy);
    AckedIsAnswered(c, s, busy);
    var acks := if s.IsAck() then AckReplies(c, s) else [];
    var fins := if FinCounts(c, s) then FinReplies(Found(c, s), c.AdvertisedWindow()) else [];
    AnswersNothing(d, d, busy);
    FinIsAnswered(d, busy);
    assert d.inbox.contents == [] <==> c.inbox.contents == [] && Taken(c, s) == 0;
    if FinCounts(c, s) {
      FoundFin(c, s, d);
    }
    AckRepliesAtMostOne(c, s);
    AnswersThen(c, d, Finned(c, s, busy), acks, fins, busy);
  }

  lemma AckRepliesAtMostOne(c: Conn, s: Segment)
    requires c.Ok()
    ensures |AckReplies(c, s)| <= 1
  {
  }

  lemma ExpectedIsFinned(c: Conn, s: Segment, busy: bool)
    requires c.Ok() && !s.IsRst()
    ensures
      var e := Finned(c, s, busy);
      c.HandleExpected(s, busy) == if AcknowledgesFin(e.tcb, s) then e.HandleFinAck() else e
  {
    hide Conn.HandleAck;
    hide Conn.HandleFin;
    hide Conn.HandleFinAck;
    hide Conn.Ok;
    hide Conn.Meet;
  }

  lemma FinAckMoves(c: Conn)
    requires c.Ok()
    ensures
      var d := c.HandleFinAck();
      && d.tcb == (if c.tcb.state == FinWait1 then c.tcb.(state := FinWait2) else c.tcb)
      && d.pk == c.pk && d.outbox == c.outbox && d.log == c.log
  {
    hide Conn.Ok;
  }

  lemma ExpectedIsAnswered(c: Conn, s: Segment, random: u32, busy: bool)
    requires Ready(c) && c.tcb.state != Init && !s.IsSyn() && s.sequenceNumber == c.tcb.acknowledgementNumber
    ensures
      var d := c.HandleExpected(s, busy);
      Answers(c, d, Replies(c, s), busy) && d.tcb == Afterwards(c, s, random)
  {
    hide Finned;
    hide Conn.HandleFinAck;
    hide Conn.HandleAck;
    hide Conn.HandleFin;
    hide Conn.Ok;
    hide Pk.Synced;
    hide Answers;
    hide FinReplies;
    hide BehindFin;
    hide AckReplies;
    if s.IsRst() {
      AnswersNothing(c, c.Meet(s).Close(), busy);
    } else {
      hide Conn.HandleExpected;
      ExpectedIsFinned(c, s, busy);
      FinnedIsAnswered(c, s, busy);
      FinAckMoves(Finned(c, s, busy));
      AnswersThenQuiet(c, Finned(c, s, busy), c.HandleExpected(s, busy), Replies(c, s), busy);
    }
  }

  /** Any packet is answered by exactly these replies, as far as the shared buffer takes them,
      and moves the control block exactly there. */
  lemma PacketIsAnswered(c: Conn, s: Segment, random: u32, busy: bool)
    requires Reached(c)
    ensures c.Ok()
    ensures
      var d := c.HandlePacket(s, random, busy);
      Answers(c, d, Replies(c, s), busy) && d.tcb == Afterwards(c, s, random)
  {
    hide Reached;
    hide Conn.SendEmpty;
    hide Conn.HandleExpected;
    hide Conn.Ok;
    hide Pk.Synced;
    hide Answers;
    hide ExpectedCloses;
    ReachedReady(c);
    OkInbox(c);
    AnswersNothing(c, c, busy);
    if c.tcb.state == Init {
      FirstIsAnswered(c, s, random, busy);
    } else if s.IsSyn() {
      SynIsAnswered(c, s, busy);
    } else if s.sequenceNumber == c.tcb.acknowledgementNumber {
      ExpectedIsAnswered(c, s, random, busy);
    } else {
      EmptyIsAnswer(c, ACK, busy);
    }
  }

  lemma FirstIsAnswered(c: Conn, s: Segment, random: u32, busy: bool)
    requires Ready(c) && c.tcb.state == Init
    ensures
      var d := c.HandleFirstPacket(s, random, busy);
      Answers(c, d, Replies(c, s), busy) && d.tcb == Afterwards(c, s, random)
  {
    hide Conn.SendEmpty;
    hide Conn.Ok;
    hide Pk.Synced;
    hide Answers;
    OkInbox(c);
    var d := c.HandleFirstPacket(s, random, busy);
    if s.IsSyn() {
      AnswersNothing(c, d, busy);
    } else {
      var b := c.(tcb := c.tcb.(sequenceNumber := s.acknowledgementNumber));
      QuietIsReady(c, b);
      AnswersNothing(c, b, busy);
      EmptyIsAnswer(b, RST, busy);
      AnswersThenQuiet(b, b.SendEmpty(RST, busy), d, [ReplyOf(b, RST)], busy);
      AnswersThen(c, b, d, [], [ReplyOf(b, RST)], busy);
      assert [] + [ReplyOf(b, RST)] == Replies(c, s);
    }
  }

  lemma SynIsAnswered(c: Conn, s: Segment, busy: bool)
    requires Ready(c) && c.tcb.state != Init && s.IsSyn()
    ensures
      var d := c.HandleDuplicateSyn(s, busy);
      && Answers(c, d, Replies(c, s), busy)
      && d.tcb == (if c.tcb.state != SynSent then c.tcb
                   else c.tcb.(synSequenceNumber := s.sequenceNumber,
                               acknowledgementNumber := Wrap32(s.sequenceNumber + 1)))
  {
    hide Conn.SendEmpty;
    hide Conn.Ok;
    hide Pk.Synced;
    hide Answers;
    hide ExpectedCloses;
    var d := c.HandleDuplicateSyn(s, busy);
    if c.tcb.state != SynSent && s.sequenceNumber != c.tcb.synSequenceNumber {
      EmptyIsAnswer(c, RST, busy);
      AnswersThenQuiet(c, c.SendEmpty(RST, busy), d, [ReplyOf(c, RST)], busy);
    } else {
      AnswersNothing(c, d, busy);
    }
  }

  /** A FIN that counts finds the number and the room unchanged. */
  lemma FoundFin(c: Conn, s: Segment, d: Conn)
    requires c.Ok() && d.Ok() && d.inbox.contents == [] && d.inbox.capacity == c.inbox.capacity && FinCounts(c, s)
    requires d.tcb == Found(c, s).(acknowledgementNumber := Wrap32(c.tcb.acknowledgementNumber + Taken(c, s)),
                                   finReceived := c.tcb.finReceived)
    ensures
      FinReplies(d.tcb.(finReceived := true), d.AdvertisedWindow()) == FinReplies(Found(c, s), c.AdvertisedWindow())
  {
  }
}
