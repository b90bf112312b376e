/** What a poll does: the answer to a write, to the end of the socket and to its connection,
    and when a poll closes the connection or reports WouldBlock. */
module TcpPolling {
  import opened Bytes
  import opened Chunks
  import opened Sockets
  import opened StreamBuffers
  import opened Packetizers
  import opened TcpSpec
  import opened TcpInvariant
  import opened TcpSteps
  import opened TcpHandlers
  import opened TcpNetwork
  import opened TcpRuns
  import opened TcpProgress
  import opened TcpOutbox
  import opened TcpReading
  import opened TcpAnswers

  // ── the write ──

  /** The write leaves nothing before a FIN that waits. */
  predicate FreesFin(c: Conn, io: IoWrite)
    requires c.Ok()
  {
    io.Took? && io.w > 0 && c.tcb.finReceived && c.inbox.Sent(io) == c.inbox.contents
  }

  /** Bytes taken by the network are answered by an ACK with the room made, or by what the FIN
      that waited for them calls for; a failure by an RST. */
  function WriteReplies(c: Conn, io: IoWrite): seq<Reply>
    requires c.Ok()
  {
    var window := Min(c.inbox.Remaining() + |c.inbox.Sent(io)|, 0xFFFF);
    match io
    case WriteBlocks => []
    case WriteFails => [ReplyOf(c, RST)]
    case Took(w) =>
      if w == 0 then []
      else if FreesFin(c, io) then FinReplies(c.tcb, window)
      else [Reply(c.tcb.sequenceNumber, c.tcb.acknowledgementNumber, ACK, window)]
  }

  predicate WriteCloses(c: Conn, io: IoWrite)
    requires c.Ok()
  {
    io.WriteFails? || io == Took(0) || (FreesFin(c, io) && c.tcb.state == FinWait2)
  }

  lemma WriteIsAnswered(c: Conn, io: IoWrite, busy: bool)
    requires Ready(c) && c.inbox.contents != []
    ensures
      var d := c.ProcessSend(io, busy).0;
      && Answers(c, d, WriteReplies(c, io), busy) && Ready(d)
      && d.tcb == (if FreesFin(c, io) then BehindFin(c.tcb) else c.tcb)
      && d.inbox == c.inbox.WriteTo(io) && d.log.written == c.log.written + c.inbox.Sent(io)
      && d.closed == (c.closed || WriteCloses(c, io)) && c.ProcessSend(io, busy).1 == !io.WriteBlocks?
  {
    hide Conn.SendEmpty;
    hide Conn.DoHandleFin;
    hide Conn.DrainInbox;
    hide Conn.Ok;
    hide Pk.Synced;
    hide Answers;
    hide FinReplies;
    hide BehindFin;
    hide Queue.Sent;
    hide Queue.WriteTo;
    OkInbox(c);
    var (d, _) := c.ProcessSend(io, busy);
    match io {
      case WriteBlocks =>
        NothingSent(c.inbox, io);
        assert c.log.written + [] == c.log.written;
        AnswersNothing(c, c, busy);
      case WriteFails =>
        NothingSent(c.inbox, io);
        assert c.log.written + [] == c.log.written;
        EmptyIsAnswer(c, RST, busy);
        SendEmptyWritten(c, RST, busy);
        ThenQuiet(c, c.SendEmpty(RST, busy), d, [ReplyOf(c, RST)], busy);
      case Took(w) =>
        TakenIsAnswered(c, w, busy);
    }
  }

  lemma NothingSent(q: Queue, io: IoWrite)
    requires q.Ok() && !io.Took?
    ensures q.WriteTo(io) == q && q.Sent(io) == []
  {
  }

  lemma SendEmptyWritten(c: Conn, flags: u16, busy: bool)
    requires c.Ok()
    ensures c.SendEmpty(flags, busy).log.written == c.log.written
  {
    hide Pk.UpdateHeaders;
    hide Pk.Build;
  }

  lemma DoHandleFinWritten(c: Conn, busy: bool)
    requires c.Ok()
    ensures c.DoHandleFin(busy).log.written == c.log.written
  {
    hide Conn.SendEmpty;
    hide Conn.Ok;
    SendEmptyWritten(c.CountFin(false), ACK, busy);
    SendEmptyWritten(c.CountFin(false), FIN + ACK, busy);
  }

  lemma Drained(c: Conn, w: nat)
    requires Ready(c) && c.inbox.contents != []
    ensures
      var b := c.DrainInbox(Took(w));
      && Ready(b) && b == c.(inbox := c.inbox.WriteTo(Took(w)), log := b.log)
      && b.log.appended == c.log.appended && b.log.flushes == c.log.flushes
      && b.log.written == c.log.written + c.inbox.Sent(Took(w))
      && b.AdvertisedWindow() == Min(c.inbox.Remaining() + |c.inbox.Sent(Took(w))|, 0xFFFF)
      && (b.inbox.contents == [] <==> c.inbox.Sent(Took(w)) == c.inbox.contents)
      && c.inbox.WriteResult(Took(w)) == IoResult.Ok(|c.inbox.Sent(Took(w))|)
      && (c.inbox.Sent(Took(w)) == [] <==> w == 0)
  {
    hide Pk.Synced;
  }

  lemma TakenIsAnswered(c: Conn, w: nat, busy: bool)
    requires Ready(c) && c.inbox.contents != []
    ensures
      var io := Took(w);
      var d := c.ProcessSend(io, busy).0;
      && Answers(c, d, WriteReplies(c, io), busy) && Ready(d)
      && d.tcb == (if FreesFin(c, io) then BehindFin(c.tcb) else c.tcb)
      && d.inbox == c.inbox.WriteTo(io) && d.log.written == c.log.written + c.inbox.Sent(io)
      && d.closed == (c.closed || WriteCloses(c, io)) && c.ProcessSend(io, busy).1
  {
    hide Conn.SendEmpty;
    hide Conn.DoHandleFin;
    hide Conn.DrainInbox;
    hide Conn.Ok;
    hide Pk.Synced;
    hide Answers;
    hide FinReplies;
    hide BehindFin;
    hide Queue.Sent;
    hide Queue.WriteTo;
    hide Queue.WriteResult;
    hide Conn.AdvertisedWindow;
    var io := Took(w);
    OkInbox(c);
    Drained(c, w);
    var b := c.DrainInbox(io);
    AnswersNothing(c, b, busy);
    var replies := WriteReplies(c, io);
    assert [] + replies == replies;
    if w == 0 {
      AnswersThenQuiet(c, b, b.Close(), [], busy);
      ThenQuiet(c, b, b.Close(), [], busy);
    } else if FreesFin(c, io) {
      CountedFinIsAnswered(b, busy);
      DoHandleFinWritten(b, busy);
      AnswersThen(c, b, b.DoHandleFin(busy), [], replies, busy);
    } else {
      EmptyIsAnswer(b, ACK, busy);
      SendEmptyWritten(b, ACK, busy);
      AnswersThen(c, b, b.SendEmpty(ACK, busy), [], replies, busy);
    }
  }

  /** Room made is announced: a write that takes bytes and does not make a waiting FIN count
      is answered by exactly one packet, when the shared buffer is free and has room. It
      acknowledges what was expected before and carries the room there is now. */
  lemma RoomIsAnnounced(c: Conn, io: IoWrite, busy: bool)
    requires Reached(c) && c.Ok() && c.inbox.contents != [] && io.Took? && io.w > 0 && !FreesFin(c, io)
    requires !busy && c.pk.pi <= c.outbox.Remaining()
    ensures
      var d := c.ProcessSend(io, busy).0;
      && |d.log.appended| == |c.log.appended| + 1
      && var raw := d.log.appended[|c.log.appended|];
      && d.log.appended == c.log.appended + [raw] && d.outbox.contents == c.outbox.contents + raw
      && Says(raw, c.tcb.sequenceNumber, c.tcb.acknowledgementNumber, ACK,
              Min(c.inbox.Remaining() + |c.inbox.Sent(io)|, 0xFFFF))
  {
    hide Reached;
    hide Conn.ProcessSend;
    hide Conn.Ok;
    hide Pk.Synced;
    hide Says;
    ReachedReady(c);
    WriteIsAnswered(c, io, busy);
    var d := c.ProcessSend(io, busy).0;
    assert Handed(c, d) == [d.log.appended[|c.log.appended|]];
    FlattenOne(Handed(c, d));
    assert SaysReply(Handed(c, d)[0], WriteReplies(c, io)[0], c.pk.pi);
  }

  // ── the end of the read loop ──

  /** The end of the socket is answered by our FIN, a failure by an RST. */
  function EndReplies(sequence: u32, ack: u32, window: u16, last: Option<IoRead>): seq<Reply> {
    if last == Some(Arrived([])) then [Reply(sequence, Wrap32(ack + 1), FIN + ACK, window)]
    else if last == Some(ReadFails) then [Reply(sequence, ack, RST, window)]
    else []
  }

  /** Behind the data packets of the loop the shared buffer gets these replies. */
  ghost predicate EndsWith(c: Conn, d: Conn, r: Reading, busy: bool)
    requires c.Ok()
  {
    && c.log.appended <= d.log.appended && |Handed(c, d)| >= |r.direct|
    && var end := Handed(c, d)[|r.direct|..];
    var replies := EndReplies(Wrap32(c.tcb.sequenceNumber + |Flatten(r.direct)|), c.tcb.acknowledgementNumber,
                              c.AdvertisedWindow(), r.last);
    && |end| == Fitting(|replies|, c.outbox.Remaining() - PacketBytes(r.direct, c.pk.pi), c.pk.pi, busy)
    && forall i :: 0 <= i < |end| ==> SaysReply(end[i], replies[i], c.pk.pi)
  }

  lemma EndOfAnswer(c: Conn, p: Conn, d: Conn, last: Option<IoRead>, busy: bool)
    requires c.Ok() && p.Ok() && p.tcb == c.tcb && p.inbox == c.inbox && p.outbox == c.outbox && p.pk.pi == c.pk.pi
    requires p.log.appended == c.log.appended
    requires Answers(p, d, EndReplies(c.tcb.sequenceNumber, c.tcb.acknowledgementNumber, c.AdvertisedWindow(), last),
                     busy)
    ensures EndsWith(c, d, Reading([], None, last), busy)
  {
    hide Conn.Ok;
    hide SaysReply;
    SameNumbers(c);
    assert Handed(c, d)[0..] == Handed(p, d);
  }

  lemma EndOfMore(c: Conn, e: Conn, d: Conn, payload: seq<byte>, raw: seq<byte>, r: Reading, busy: bool)
    requires c.Ok() && e.Ok() && e.log.appended == c.log.appended + [raw]
    requires e.tcb == c.tcb.(sequenceNumber := Wrap32(c.tcb.sequenceNumber + |payload|))
    requires e.pk.pi == c.pk.pi && e.inbox == c.inbox
    requires e.outbox.Remaining() == c.outbox.Remaining() - (c.pk.pi + |payload|) && EndsWith(e, d, r, busy)
    ensures EndsWith(c, d, r.(direct := [payload] + r.direct), busy)
  {
    hide Flatten;
    hide SaysReply;
    hide Conn.Ok;
    var all := [payload] + r.direct;
    FlattenUnfolds(all);
    assert all[1..] == r.direct;
    assert Handed(c, d) == [raw] + Handed(e, d);
    assert Handed(c, d)[|all|..] == Handed(e, d)[|r.direct|..];
    WrapAdd(c.tcb.sequenceNumber + |payload|, |Flatten(r.direct)|);
  }

  /** Nothing follows a deferred packet. */
  lemma EndOfDeferred(c: Conn, d: Conn, payload: seq<byte>, busy: bool)
    requires c.Ok() && d.log.appended == c.log.appended
    ensures EndsWith(c, d, Reading([], Some(payload), None), busy)
  {
  }

  lemma PrepareReadIsReady(c: Conn)
    requires Ready(c)
    ensures Ready(c.PrepareRead()) && c.PrepareRead().log.flushes == c.log.flushes
  {
    hide Pk.UpdateHeaders;
    hide Pk.Synced;
    ForgeEffect(c, ACK + PSH);
  }

  lemma DeliverIsReady(c: Conn, payload: seq<byte>, busy: bool)
    requires Ready(c) && c.deferred.None? && 0 < |payload| <= MAX_PAYLOAD_LENGTH && HeaderReady(c)
    ensures Ready(c.Deliver(payload, busy)) && c.Deliver(payload, busy).inbox == c.inbox
  {
    hide Pk.Synced;
    hide Conn.Deliver;
    hide NewBuilt;
    hide Faithful;
    DeliverEffect(c, payload, busy);
  }

  lemma EofIsAnswered(c: Conn, busy: bool)
    requires Ready(c)
    ensures
      var d := c.Eof(busy);
      && Answers(c, d, EndReplies(c.tcb.sequenceNumber, c.tcb.acknowledgementNumber, c.AdvertisedWindow(),
                                  Some(Arrived([]))), busy)
      && d.tcb.finSequenceNumber == Some(c.tcb.sequenceNumber)
      && d.tcb.acknowledgementNumber == Wrap32(c.tcb.acknowledgementNumber + 1)
  {
    hide Conn.SendFin;
    hide Conn.Ok;
    hide Pk.Synced;
    hide Answers;
    OkInbox(c);
    var b := c.CountFin(true);
    QuietIsReady(c, b);
    AnswersNothing(c, b, busy);
    FinIsAnswer(b, FinWait1, busy);
    AnswersThen(c, b, c.Eof(busy), [], [ReplyOf(b, FIN + ACK)], busy);
    assert [] + [ReplyOf(b, FIN + ACK)] == [ReplyOf(b, FIN + ACK)];
  }

  lemma ResetIsAnswer(c: Conn, busy: bool)
    requires Ready(c)
    ensures Answers(c, c.SendEmpty(RST, busy).Close(), [ReplyOf(c, RST)], busy)
  {
    hide Conn.SendEmpty;
    hide Conn.Ok;
    hide Pk.Synced;
    hide Answers;
    EmptyIsAnswer(c, RST, busy);
    AnswersThenQuiet(c, c.SendEmpty(RST, busy), c.SendEmpty(RST, busy).Close(), [ReplyOf(c, RST)], busy);
  }

  /** Behind its data packets a read loop puts our FIN or an RST in the shared buffer, if the
      socket ended or failed, and otherwise nothing. */
  lemma {:induction false} ReadLoopEnds(c: Conn, answers: seq<IoRead>, i: nat, busy: bool)
    requires Ready(c) && c.deferred.None? && i <= MAX_PACKETS_PER_POLL
    ensures
      var r := Rounds(answers, i, c.tcb.RemainingClientWindow(), c.outbox.Remaining(), c.pk.pi, busy);
      EndsWith(c, c.ReceiveFrom(answers, i, busy).0, r, busy)
    decreases MAX_PACKETS_PER_POLL - i
  {
    hide Conn.Ok;
    hide Pk.Synced;
    hide Conn.PrepareRead;
    hide Conn.Deliver;
    hide Conn.Eof;
    hide Conn.SendEmpty;
    hide Conn.Close;
    hide Conn.AdvertisedWindow;
    hide HeaderReady;
    hide EndsWith;
    hide Answers;
    hide Tcb.RemainingClientWindow;
    var w := c.tcb.RemainingClientWindow();
    if i == MAX_PACKETS_PER_POLL || w == 0 {
      AnswersNothing(c, c, busy);
      EndOfAnswer(c, c, c, None, busy);
    } else {
      PrepareReadReady(c);
      PrepareReadSame(c);
      PrepareReadIsReady(c);
      var p := c.PrepareRead();
      SameWindow(c, p);
      match AnswerAt(answers, i) {
        case Arrived(data) =>
          if data == [] {
            EofIsAnswered(p, busy);
            EndOfAnswer(c, p, p.Eof(busy), Some(Arrived([])), busy);
          } else {
            var payload := Portion(data, w);
            DeliverIsDirectIff(p, payload, busy);
            DeliverReceived(p, payload, busy);
            DeliverIsReady(p, payload, busy);
            var e := p.Deliver(payload, busy);
            if e.deferred.None? {
              ReadLoopEnds(e, answers, i + 1, busy);
              var r := Rounds(answers, i + 1, e.tcb.RemainingClientWindow(), e.outbox.Remaining(), c.pk.pi, busy);
              EndOfMore(c, e, e.ReceiveFrom(answers, i + 1, busy).0, payload, e.log.built[|c.log.built|].raw, r, busy);
            } else {
              EndOfDeferred(c, e, payload, busy);
            }
          }
        case ReadBlocks =>
          AnswersNothing(p, p, busy);
          EndOfAnswer(c, p, p, None, busy);
        case ReadFails =>
          ResetIsAnswer(p, busy);
          EndOfAnswer(c, p, p.SendEmpty(RST, busy).Close(), Some(ReadFails), busy);
      }
    }
  }

  /** It reports progress exactly when it sent a packet or reached the end or a failure. */
  lemma ReadLoopProgresses(c: Conn, answers: seq<IoRead>, i: nat, busy: bool)
    requires c.Ok() && c.deferred.None? && i <= MAX_PACKETS_PER_POLL
    ensures
      var r := Rounds(answers, i, c.tcb.RemainingClientWindow(), c.outbox.Remaining(), c.pk.pi, busy);
      c.ReceiveFrom(answers, i, busy).1 <==> r.direct != [] || r.last.Some?
  {
    hide Conn.Ok;
    hide Conn.PrepareRead;
    hide Conn.Deliver;
    hide Conn.Eof;
    hide Conn.SendEmpty;
    hide Conn.Close;
    hide HeaderReady;
    hide Tcb.RemainingClientWindow;
    if i < MAX_PACKETS_PER_POLL && c.tcb.RemainingClientWindow() > 0 {
      PrepareReadReady(c);
      PrepareReadSame(c);
      var answer := AnswerAt(answers, i);
      if answer.Arrived? && answer.data != [] {
        DeliverIsDirectIff(c.PrepareRead(), Portion(answer.data, c.tcb.RemainingClientWindow()), busy);
      }
    }
  }

  lemma SameWindow(c: Conn, p: Conn)
    requires c.Ok() && p.Ok() && p.inbox == c.inbox
    ensures p.AdvertisedWindow() == c.AdvertisedWindow()
  {
  }

  // ── the connection of the socket ──

  /** A socket that connects moves SynSent to SynReceived and is answered by the SYN-ACK; one
      that fails to closes; in no other state is the socket tried. */
  lemma ConnectIsAnswered(c: Conn, io: IoWrite, busy: bool)
    requires Ready(c)
    ensures
      var (d, progress) := c.TryConnect(io, busy);
      var connects := c.tcb.state == SynSent && io.Took?;
      && Answers(c, d, if connects then [ReplyOf(c, SYN + ACK)] else [], busy)
      && d.tcb == (if !connects then c.tcb
                   else c.tcb.(state := SynReceived, sequenceNumber := Wrap32(c.tcb.sequenceNumber + 1)))
      && d.closed == (c.closed || (c.tcb.state == SynSent && io.WriteFails?))
      && (progress <==> c.tcb.state == SynSent && !io.WriteBlocks?)
  {
    hide Conn.SendEmpty;
    hide Conn.Ok;
    hide Pk.Synced;
    hide Answers;
    OkInbox(c);
    var d := c.TryConnect(io, busy).0;
    if c.tcb.state == SynSent && io.Took? {
      var b := c.(tcb := c.tcb.(state := SynReceived));
      QuietIsReady(c, b);
      AnswersNothing(c, b, busy);
      EmptyIsAnswer(b, SYN + ACK, busy);
      AnswersThenQuiet(b, b.SendEmpty(SYN + ACK, busy), d, [ReplyOf(b, SYN + ACK)], busy);
      AnswersThen(c, b, d, [], [ReplyOf(b, SYN + ACK)], busy);
      SameWindow(c, b);
      assert [] + [ReplyOf(b, SYN + ACK)] == [ReplyOf(c, SYN + ACK)];
    } else {
      AnswersNothing(c, d, busy);
    }
  }

  /** In every run whose SYN brought no data: when the socket connects, the SYN-ACK carries the
      random initial number, the number behind the device's SYN and the largest window there
      is, and is the one packet queued. */
  lemma SynAckSays(c: Conn, busy: bool)
    requires Reached(c) && c.Ok() && c.tcb.state == SynSent && c.log.Place() == 0 && c.inbox.contents == []
    requires !busy && c.pk.pi <= c.outbox.Remaining()
    ensures
      var d := c.TryConnect(Took(0), busy).0;
      && |d.log.appended| == |c.log.appended| + 1
      && var raw := d.log.appended[|c.log.appended|];
      && d.log.appended == c.log.appended + [raw] && d.outbox.contents == c.outbox.contents + raw
      && Says(raw, c.log.initialNumber, Wrap32(c.tcb.synSequenceNumber + 1), SYN + ACK, 0xFFFF)
      && d.tcb.state == SynReceived && d.tcb.sequenceNumber == Wrap32(c.log.initialNumber + 1)
  {
    hide Reached;
    hide Conn.TryConnect;
    hide Conn.Ok;
    hide Pk.Synced;
    hide Says;
    hide Inv;
    ReachedReady(c);
    ReachedInv(c);
    NumbersBeforeSyn(c);
    InvNumber(c);
    InboxOfRuns(c);
    ConnectIsAnswered(c, Took(0), busy);
    var d := c.TryConnect(Took(0), busy).0;
    assert Handed(c, d) == [d.log.appended[|c.log.appended|]];
    FlattenOne(Handed(c, d));
    assert SaysReply(Handed(c, d)[0], ReplyOf(c, SYN + ACK), c.pk.pi);
  }

  lemma NumbersBeforeSyn(c: Conn)
    requires Inv(c) && c.tcb.state == SynSent
    ensures c.tcb.sequenceNumber == c.log.initialNumber
  {
    hide Upstream;
    hide Edges;
    hide Downstream;
    hide Packets;
    hide Deferral;
  }

  lemma InboxOfRuns(c: Conn)
    requires Reached(c)
    ensures c.inbox.capacity == 0x20_0000
  {
    hide Run;
    hide Opening;
    var ipRaw, tcpRaw, outbox, events :|
      Opening(ipRaw, tcpRaw, outbox) && c == Run(Create(ipRaw, tcpRaw, outbox), events);
  }

  // ── the poll ──

  predicate Flushes(c: Conn, env: PollEnv)
    requires c.Ok()
  {
    c.deferred.None? || c.Fits(c.pk.Inflate(c.deferred.value), env.busy)
  }

  /** What a poll reads once it has flushed and written. */
  function PollReading(c: Conn, env: PollEnv): Reading
    requires c.Ok()
  {
    var e := Written(c, env);
    if !e.closed && e.tcb.state == Established && e.deferred.None? then
      Rounds(env.answers, 0, e.tcb.RemainingClientWindow(), e.outbox.Remaining(), e.pk.pi, env.busy)
    else Reading([], None, None)
  }

  lemma FlushIsReady(c: Conn, busy: bool)
    requires Ready(c)
    ensures
      var (f, flushed) := c.FlushPending(busy);
      && Ready(f) && f.inbox == c.inbox && f.closed == c.closed && f.log.written == c.log.written
      && f.tcb == c.tcb.(sequenceNumber := f.tcb.sequenceNumber)
      && (flushed <==> Flushes(c, PollEnv(busy, WriteBlocks, [], WriteBlocks))) && (flushed ==> f.deferred.None?)
      && (!flushed ==> f == c)
  {
    hide Pk.Synced;
    hide Queue.Append;
  }

  /** After the flush and the write of a poll. */
  lemma WrittenIs(c: Conn, env: PollEnv)
    requires Ready(c) && Flushes(c, env)
    ensures
      var f := c.FlushPending(env.busy).0;
      var e := Written(c, env);
      && Ready(e) && e.inbox == c.inbox.WriteTo(env.write)
      && e.log.written == c.log.written + c.inbox.Sent(env.write)
      && e.closed == (c.closed || (c.inbox.contents != [] && WriteCloses(c, env.write)))
      && (e.tcb.state == SynSent <==> c.tcb.state == SynSent)
      && (c.inbox.contents != [] ==>
            && Answers(f, e, WriteReplies(f, env.write), env.busy)
            && f.ProcessSend(env.write, env.busy).1 == !env.write.WriteBlocks?)
  {
    hide Conn.FlushPending;
    hide Conn.ProcessSend;
    hide Conn.Ok;
    hide Pk.Synced;
    hide Answers;
    hide Queue.Sent;
    hide Queue.WriteTo;
    hide WriteReplies;
    FlushIsReady(c, env.busy);
    OkInbox(c);
    var f := c.FlushPending(env.busy).0;
    if c.inbox.contents != [] {
      WriteIsAnswered(f, env.write, env.busy);
    } else {
      EmptyIsNotWritten(c.inbox, env.write);
      assert c.log.written + [] == c.log.written;
    }
  }

  lemma EmptyIsNotWritten(q: Queue, io: IoWrite)
    requires q.Ok() && q.contents == []
    ensures q.WriteTo(io) == q && q.Sent(io) == []
  {
  }

  /** The rest of the poll: the read loop, then the connection. */
  lemma RestOfPoll(c: Conn, env: PollEnv)
    requires Ready(c) && !c.closed && Flushes(c, env)
    ensures
      var e := Written(c, env);
      var (d, progress) := c.Poll(env);
      var r := PollReading(c, env);
      && d.closed == (e.closed || r.last == Some(ReadFails) || (e.tcb.state == SynSent && env.connect.WriteFails?))
      && (progress <==>
            || c.deferred.Some? || (c.inbox.contents != [] && !env.write.WriteBlocks?) || r.direct != [] || r.last.Some?
            || (e.tcb.state == SynSent && !env.connect.WriteBlocks?))
  {
    hide Conn.Ok;
    hide Pk.Synced;
    hide Conn.FlushPending;
    hide Conn.ProcessSend;
    hide Conn.ReceiveFrom;
    hide Conn.TryConnect;
    hide Answers;
    hide WriteReplies;
    hide WriteCloses;
    hide LoopIs;
    hide Rounds;
    hide Tcb.RemainingClientWindow;
    FlushIsReady(c, env.busy);
    WrittenIs(c, env);
    var e := Written(c, env);
    ConnectIsAnswered(e, env.connect, env.busy);
    if !e.closed && e.tcb.state == Established && e.deferred.None? {
      ReadLoopMoves(e, env.answers, env.busy);
      ReadLoopProgresses(e, env.answers, 0, env.busy);
      if e.MayRead() {
        NotConnecting(e.ReceiveFrom(env.answers, 0, env.busy).0, env.connect, env.busy);
      } else {
        WindowlessRounds(e, env);
      }
    }
  }

  lemma ReadLoopMoves(e: Conn, answers: seq<IoRead>, busy: bool)
    requires e.Ok() && e.deferred.None? && e.tcb.state == Established
    ensures
      var d := e.ReceiveFrom(answers, 0, busy).0;
      var r := Rounds(answers, 0, e.tcb.RemainingClientWindow(), e.outbox.Remaining(), e.pk.pi, busy);
      d.closed == (e.closed || r.last == Some(ReadFails)) && d.tcb.state != SynSent
  {
    hide Conn.Ok;
    hide Conn.ReceiveFrom;
    hide Rounds;
    hide Tcb.RemainingClientWindow;
    ReadLoopIs(e, answers, 0, busy);
  }

  lemma NotConnecting(c: Conn, io: IoWrite, busy: bool)
    requires c.Ok() && c.tcb.state != SynSent
    ensures c.TryConnect(io, busy) == (c, false)
  {
  }

  lemma WindowlessRounds(e: Conn, env: PollEnv)
    requires e.Ok() && e.tcb.RemainingClientWindow() == 0
    ensures Rounds(env.answers, 0, e.tcb.RemainingClientWindow(), e.outbox.Remaining(), e.pk.pi, env.busy)
            == Reading([], None, None)
  {
    hide Tcb.RemainingClientWindow;
  }

  /** The exact condition under which a poll closes an open connection: it got past the
      deferred packet, and the network took nothing of what was offered, failed, or took the
      last bytes before a FIN that ends the connection; or the read loop met a failure; or the
      socket failed to connect. */
  lemma PollClosesIff(c: Conn, env: PollEnv)
    requires Reached(c) && c.Ok() && !c.closed
    ensures c.Poll(env).0.closed <==>
      && Flushes(c, env)
      && (|| (c.inbox.contents != [] && WriteCloses(c, env.write))
          || PollReading(c, env).last == Some(ReadFails)
          || (c.tcb.state == SynSent && env.connect.WriteFails?))
  {
    hide Reached;
    hide Conn.Ok;
    hide Conn.Poll;
    hide Pk.Synced;
    hide PollReading;
    hide WriteCloses;
    hide Answers;
    ReachedReady(c);
    if Flushes(c, env) {
      WrittenIs(c, env);
      RestOfPoll(c, env);
    } else {
      BlockedPoll(c, env);
    }
  }

  /** And under which it reports WouldBlock. */
  lemma PollBlocksIff(c: Conn, env: PollEnv)
    requires Reached(c) && c.Ok() && !c.closed
    ensures !c.Poll(env).1 <==>
      || !Flushes(c, env)
      || (&& c.deferred.None? && (c.inbox.contents == [] || env.write.WriteBlocks?)
          && PollReading(c, env).direct == [] && PollReading(c, env).last.None?
          && (c.tcb.state != SynSent || env.connect.WriteBlocks?))
  {
    hide Reached;
    hide Conn.Ok;
    hide Conn.Poll;
    hide Pk.Synced;
    hide PollReading;
    hide WriteCloses;
    hide Answers;
    ReachedReady(c);
    if Flushes(c, env) {
      WrittenIs(c, env);
      RestOfPoll(c, env);
    } else {
      BlockedPoll(c, env);
    }
  }

  lemma BlockedPoll(c: Conn, env: PollEnv)
    requires Ready(c) && !c.closed && !Flushes(c, env)
    ensures c.Poll(env) == (c, false)
  {
    hide Conn.ProcessSend;
    hide Conn.ReceiveFrom;
    hide Conn.TryConnect;
    hide Queue.Append;
    hide Pk.Synced;
  }

  /** What a poll that gets past the deferred packet puts in the shared buffer: the answer to
      the write, then the data packets of the read loop and its end, or the SYN-ACK. */
  lemma PollSends(c: Conn, env: PollEnv)
    requires Reached(c) && c.Ok() && !c.closed && Flushes(c, env)
    ensures
      var f := c.FlushPending(env.busy).0;
      var e := Written(c, env);
      var d := c.Poll(env).0;
      var connects := c.tcb.state == SynSent && env.connect.Took?;
      && (if c.inbox.contents != [] then Answers(f, e, WriteReplies(f, env.write), env.busy) else e == f)
      && (if !e.closed && e.tcb.state == Established && e.deferred.None? then
            LoopIs(e, d, PollReading(c, env)) && EndsWith(e, d, PollReading(c, env), env.busy)
          else Answers(e, d, if connects then [ReplyOf(e, SYN + ACK)] else [], env.busy))
  {
    hide Reached;
    hide Conn.Ok;
    hide Pk.Synced;
    hide Conn.FlushPending;
    hide Conn.ProcessSend;
    hide Conn.ReceiveFrom;
    hide Conn.TryConnect;
    hide Answers;
    hide WriteReplies;
    hide WriteCloses;
    hide LoopIs;
    hide EndsWith;
    hide Rounds;
    hide Tcb.RemainingClientWindow;
    ReachedReady(c);
    FlushIsReady(c, env.busy);
    WrittenIs(c, env);
    PollReads(c, env);
    var e := Written(c, env);
    if !e.closed && e.tcb.state == Established && e.deferred.None? {
      ReadLoopMoves(e, env.answers, env.busy);
      ReadLoopEnds(e, env.answers, 0, env.busy);
      if e.MayRead() {
        NotConnecting(e.ReceiveFrom(env.answers, 0, env.busy).0, env.connect, env.busy);
      } else {
        LoopWithoutWindow(e, env);
        NotConnecting(e, env.connect, env.busy);
      }
    } else {
      ConnectIsAnswered(e, env.connect, env.busy);
    }
  }

  lemma {:induction false} ReadLoopKeepsInbox(c: Conn, answers: seq<IoRead>, i: nat, busy: bool)
    requires c.Ok() && i <= MAX_PACKETS_PER_POLL
    ensures var d := c.ReceiveFrom(answers, i, busy).0; d.inbox == c.inbox && d.log.written == c.log.written
    decreases MAX_PACKETS_PER_POLL - i
  {
    hide Conn.Ok;
    hide Conn.PrepareRead;
    hide Conn.Deliver;
    hide Conn.Eof;
    hide Conn.SendEmpty;
    hide HeaderReady;
    hide Tcb.RemainingClientWindow;
    if i == MAX_PACKETS_PER_POLL || c.deferred.Some? || c.tcb.RemainingClientWindow() == 0 {
    } else {
      PrepareReadReady(c);
      PrepareReadInbox(c);
      var p := c.PrepareRead();
      match AnswerAt(answers, i) {
        case Arrived(data) =>
          if data == [] {
            EofInbox(p, busy);
          } else {
            var payload := Portion(data, c.tcb.RemainingClientWindow());
            DeliverInbox(p, payload, busy);
            var e := p.Deliver(payload, busy);
            if e.deferred.None? {
              ReadLoopKeepsInbox(e, answers, i + 1, busy);
            }
          }
        case ReadBlocks =>
        case ReadFails =>
          SendEmptyTcb(p, RST, busy);
          SendEmptyWritten(p, RST, busy);
      }
    }
  }

  lemma PrepareReadInbox(c: Conn)
    requires c.Ok()
    ensures c.PrepareRead().inbox == c.inbox && c.PrepareRead().log.written == c.log.written
  {
    hide Pk.UpdateHeaders;
  }

  lemma EofInbox(c: Conn, busy: bool)
    requires c.Ok()
    ensures c.Eof(busy).inbox == c.inbox && c.Eof(busy).log.written == c.log.written
  {
    hide Pk.UpdateHeaders;
    hide Pk.Build;
  }

  lemma DeliverInbox(c: Conn, payload: seq<byte>, busy: bool)
    requires c.Ok() && c.deferred.None? && 0 < |payload| <= MAX_PAYLOAD_LENGTH
    ensures c.Deliver(payload, busy).inbox == c.inbox && c.Deliver(payload, busy).log.written == c.log.written
  {
    hide Pk.Fill;
    hide Pk.Build;
    hide FlushedLength;
  }

  lemma ConnectKeepsInbox(c: Conn, io: IoWrite, busy: bool)
    requires c.Ok()
    ensures var d := c.TryConnect(io, busy).0; d.inbox == c.inbox && d.log.written == c.log.written
  {
    hide Conn.SendEmpty;
    hide Conn.Ok;
    var b := c.(tcb := c.tcb.(state := SynReceived));
    TcbOk(c, b.tcb);
    SendEmptyTcb(b, SYN + ACK, busy);
    SendEmptyWritten(b, SYN + ACK, busy);
  }

  /** Every poll that gets past the deferred packet hands the network what it takes of the
      contiguous bytes from the tail on, all of them when it takes that many; nothing else
      leaves the buffer. */
  lemma PollWrites(c: Conn, env: PollEnv)
    requires Reached(c) && c.Ok() && !c.closed && Flushes(c, env)
    ensures
      var d := c.Poll(env).0;
      var n := if env.write.Took? then Min(env.write.w, c.inbox.Offered()) else 0;
      && d.log.written == c.log.written + c.inbox.contents[..n]
      && d.inbox.contents == c.inbox.contents[n..]
  {
    hide Reached;
    hide Conn.Ok;
    hide Pk.Synced;
    hide Conn.Poll;
    ReachedReady(c);
    OkInbox(c);
    ReadyPollWrites(c, env);
    WriteIsExact(c.inbox, env.write);
  }

  lemma ReadyPollWrites(c: Conn, env: PollEnv)
    requires Ready(c) && !c.closed && Flushes(c, env)
    ensures
      var d := c.Poll(env).0;
      d.log.written == c.log.written + c.inbox.Sent(env.write) && d.inbox == c.inbox.WriteTo(env.write)
  {
    hide Conn.Ok;
    hide Pk.Synced;
    hide Conn.FlushPending;
    hide Conn.ProcessSend;
    hide Conn.ReceiveFrom;
    hide Conn.TryConnect;
    hide Answers;
    hide WriteReplies;
    hide WriteCloses;
    hide Conn.MayRead;
    hide Queue.Sent;
    hide Queue.WriteTo;
    FlushIsReady(c, env.busy);
    WrittenIs(c, env);
    OkInbox(c);
    var e := Written(c, env);
    ReadLoopKeepsInbox(e, env.answers, 0, env.busy);
    ConnectKeepsInbox(e, env.connect, env.busy);
    ConnectKeepsInbox(e.ReceiveFrom(env.answers, 0, env.busy).0, env.connect, env.busy);
  }

  /** A poll whose sockets only take what is written. */
  function Writing(w: nat, busy: bool): PollEnv {
    PollEnv(busy, Took(w), [], WriteBlocks)
  }

  lemma QuietPollDefersNothing(c: Conn, w: nat, busy: bool)
    requires Ready(c) && !c.closed && c.deferred.None?
    ensures c.Poll(Writing(w, busy)).0.deferred.None?
  {
    hide Conn.Ok;
    hide Pk.Synced;
    hide Conn.ProcessSend;
    hide Conn.PrepareRead;
    hide Answers;
    hide WriteReplies;
    hide Tcb.RemainingClientWindow;
    hide HeaderReady;
    var env := Writing(w, busy);
    WriteDefersNothing(c, env.write, busy);
    var e := Written(c, env);
    if e.MayRead() {
      PrepareReadReady(e);
    }
  }

  lemma WriteDefersNothing(c: Conn, io: IoWrite, busy: bool)
    requires c.Ok()
    ensures c.ProcessSend(io, busy).0.deferred == c.deferred
  {
    hide Conn.SendEmpty;
    hide Conn.Ok;
    hide Queue.Sent;
    hide Queue.WriteTo;
    hide Queue.WriteResult;
    OkInbox(c);
    var d := c.DrainInbox(io);
    SendEmptyTcb(c, RST, busy);
    SendEmptyTcb(d, ACK, busy);
    SendEmptyTcb(d.CountFin(false), ACK, busy);
    SendEmptyTcb(d.CountFin(false), FIN + ACK, busy);
  }

  /** Nothing accepted stays behind: in every run, two polls of an open connection with nothing
      deferred, to a network that takes what it is offered, write all that was ever accepted
      from the device. */
  lemma TwoPollsWriteEverything(c: Conn, w: nat, busy: bool)
    requires Reached(c) && c.Ok() && !c.closed && c.deferred.None? && w > 0 && w >= |c.inbox.contents|
    ensures
      var d := c.Poll(Writing(w, busy)).0;
      var e := d.Poll(Writing(w, busy)).0;
      e.inbox.contents == [] && e.log.written == AcceptedBytes(c.log.accepted)
  {
    hide Reached;
    hide Inv;
    hide Conn.Ok;
    hide Pk.Synced;
    hide Conn.Poll;
    hide AcceptedBytes;
    hide AcceptedInPlace;
    hide Queue.Sent;
    hide Queue.WriteTo;
    var env := Writing(w, busy);
    ReachedReady(c);
    ReachedInv(c);
    OkInbox(c);
    NothingAcceptedIsLost(c);
    ReadyPollWrites(c, env);
    QuietPollDefersNothing(c, w, busy);
    PollKeeps(c, env);
    var d := c.Poll(env).0;
    InvOk(d);
    InvSynced(d);
    OkInbox(d);
    TwoWritesSend(c.inbox, w);
    if d.closed {
      ClosedOnlyWhenWritten(c, w, busy);
      ClosedPollIsNothing(d, env);
    } else {
      ReadyPollWrites(d, env);
    }
    ConcatAssociates(c.log.written, c.inbox.Sent(env.write), d.inbox.Sent(env.write));
  }

  lemma TwoWritesSend(q: Queue, w: nat)
    requires q.Ok() && w >= |q.contents|
    ensures
      var r := q.WriteTo(Took(w));
      && r.WriteTo(Took(w)).contents == [] && q.Sent(Took(w)) + r.Sent(Took(w)) == q.contents
      && (r.contents == [] ==> q.Sent(Took(w)) == q.contents)
  {
    TwoWritesEmpty(q, w);
    var r := q.WriteTo(Took(w));
    assert q.contents == q.Sent(Took(w)) + r.contents;
    assert r.contents == r.Sent(Took(w)) + [];
  }

  lemma ClosedPollIsNothing(d: Conn, env: PollEnv)
    requires d.Ok() && d.closed
    ensures d.Poll(env).0 == d
  {
    hide Conn.FlushPending;
  }

  lemma ClosedOnlyWhenWritten(c: Conn, w: nat, busy: bool)
    requires Reached(c) && c.Ok() && !c.closed && c.deferred.None? && w > 0
    requires c.Poll(Writing(w, busy)).0.closed
    ensures c.inbox.WriteTo(Took(w)).contents == []
  {
    hide Reached;
    hide Conn.Poll;
    hide Pk.Synced;
    var env := Writing(w, busy);
    PollClosesIff(c, env);
    QuietReading(c, env);
    assert c.inbox.contents == c.inbox.Sent(Took(w)) + c.inbox.WriteTo(Took(w)).contents;
  }

  lemma QuietReading(c: Conn, env: PollEnv)
    requires c.Ok() && env.answers == []
    ensures PollReading(c, env) == Reading([], None, None)
  {
    hide Tcb.RemainingClientWindow;
    hide Written;
  }
}
