/** Bytes from the device on their way to the router: byte_buffer.rs, ip_packet_buffer.rs
    and the feeding loop of client.rs. The router is represented by the list of packets
    it was given. */
module DeviceFeed {
  import opened Bytes
  import opened Chunks
  import opened Packetizers
  import opened Framing

  class ByteBuffer {
    const buf: array<byte>
    var head: nat

    ghost predicate Valid()
      reads this, buf
    {
      head <= buf.Length
    }

    function Peek(): seq<byte>
      reads this, buf
      requires Valid()
    {
      buf[..head]
    }

    constructor (length: nat)
      ensures Valid() && fresh(buf) && buf.Length == length && Peek() == []
    {
      buf := new byte[length](_ => 0);
      head := 0;
    }

    /** Takes what fits; true if that is anything. */
    method ReadFrom(source: seq<byte>) returns (any: bool)
      requires Valid()
      modifies this, buf
      ensures Valid()
      ensures var taken := source[..Min(|source|, buf.Length - |old(Peek())|)];
        Peek() == old(Peek()) + taken && any == (taken != [])
    {
      var r := Min(|source|, buf.Length - head);
      CopyInto(buf, head, source[..r]);
      head := head + r;
      any := r > 0;
    }

    /** Drops the first bytes and moves the others to the front, as memmove does. */
    method Consume(length: nat)
      requires Valid() && length <= |Peek()|
      modifies this, buf
      ensures Valid() && Peek() == old(Peek())[length..]
    {
      head := head - length;
      if head > 0 {
        forall k | 0 <= k < head {
          buf[k] := buf[k + length];
        }
      }
    }
  }

  class IpPacketBuffer {
    const buf: ByteBuffer

    ghost predicate Valid()
      reads this, buf, buf.buf
    {
      buf.Valid() && buf.buf.Length == MAX_PACKET_LENGTH
    }

    constructor ()
      ensures Valid() && fresh(buf) && fresh(buf.buf) && buf.Peek() == []
    {
      buf := new ByteBuffer(MAX_PACKET_LENGTH);
    }

    /** The length of the packet at the front, if it is there in full. */
    function AvailablePacketInfo(): (length: Option<nat>)
      reads this, buf, buf.buf
      requires Valid()
      ensures length == match FrontOf(Relay, buf.Peek()) case Cuttable(n) => Some(n) case _ => None
    {
      var data := buf.Peek();
      if |data| < 4 then None
      else if data[0] / 16 == 4 then
        if U16At(data, 2) <= |data| then Some(U16At(data, 2)) else None
      else if data[0] / 16 == 6 then
        if |data| < 6 then None else
        var total := (U16At(data, 4) + 40) % 0x1_0000;
        if total <= |data| then Some(total) else None
      else None
    }

    method Next()
      requires Valid()
      modifies buf, buf.buf
      ensures Valid()
      ensures var s := old(buf.Peek());
        buf.Peek() == match FrontOf(Relay, s) case Cuttable(n) => s[n..] case _ => s
    {
      var info := AvailablePacketInfo();
      if info.Some? {
        buf.Consume(info.value);
      }
    }

    method SkipMalformed() returns (skipped: bool)
      requires Valid()
      modifies buf, buf.buf
      ensures Valid() && skipped == HeadOf(Relay, old(buf.Peek())).Garbage?
      ensures buf.Peek() == if skipped then old(buf.Peek())[1..] else old(buf.Peek())
    {
      var data := buf.Peek();
      if data == [] || data[0] / 16 == 4 || data[0] / 16 == 6 {
        return false;
      }
      buf.Consume(1);
      return true;
    }
  }

  class Client {
    const clientToNetwork: IpPacketBuffer
    var routed: seq<seq<byte>>
    /** `Waiting` as long as the client's thread runs and its loop ends. */
    var end: End

    ghost function Footprint(): set<object> {
      {this, clientToNetwork, clientToNetwork.buf, clientToNetwork.buf.buf}
    }

    function Residue(): seq<byte>
      reads clientToNetwork, clientToNetwork.buf, clientToNetwork.buf.buf
      requires clientToNetwork.Valid()
    {
      clientToNetwork.buf.Peek()
    }

    /** Between two calls the buffer starts with an incomplete packet. */
    ghost predicate Valid()
      reads Footprint()
    {
      clientToNetwork.Valid() && (end == Waiting ==> HeadOf(Relay, Residue()).Incomplete?)
    }

    constructor ()
      ensures Valid() && fresh(Footprint()) && routed == [] && end == Waiting && Residue() == []
    {
      clientToNetwork := new IpPacketBuffer();
      routed := [];
      end := Waiting;
    }

    /** Route every complete packet. Where the source's loop does not end, or its thread
        panics, the method returns with `end` saying so. */
    method FeedDeviceData(data: seq<byte>) returns (count: nat)
      requires Valid() && end == Waiting
      modifies Footprint()
      ensures Valid()
      ensures
        var f := Cut(Relay, Kept(old(Residue()), data));
        && routed == old(routed) + f.packets && count == |f.packets|
        && Residue() == f.rest && end == f.end
    {
      hide HeadOf;
      ghost var kept := Kept(Residue(), data);
      IncompleteIsKept(Residue());
      var any := clientToNetwork.buf.ReadFrom(data);
      assert Residue() == kept;
      hide Kept;
      if !any {
        assert Residue() == old(Residue());
        return 0;
      }
      count := RouteAll();
    }

    method RouteAll() returns (count: nat)
      requires clientToNetwork.Valid() && end == Waiting
      modifies Footprint()
      ensures Valid()
      ensures
        var f := Cut(Relay, old(Residue()));
        && routed == old(routed) + f.packets && count == |f.packets|
        && Residue() == f.rest && end == f.end
    {
      hide HeadOf;
      count := 0;
      ghost var f := Cut(Relay, Residue());
      ghost var done: seq<seq<byte>> := [];
      while true
        invariant clientToNetwork.Valid() && end == Waiting
        invariant routed == old(routed) + done && count == |done|
        invariant f == Cut(Relay, Residue()).(packets := done + Cut(Relay, Residue()).packets)
        decreases |Residue()|
      {
        ghost var before := Residue();
        NeverUnsupported(before);
        var more, one := RouteOne();
        if !more {
          return;
        }
        if one {
          count := count + 1;
          ConcatAssociates(done, [before[..HeadOf(Relay, before).length]], Cut(Relay, Residue()).packets);
          done := done + [before[..HeadOf(Relay, before).length]];
        }
      }
    }

    /** One round: a packet parsed and routed, a byte skipped, or nothing more to do. */
    method RouteOne() returns (more: bool, one: bool)
      requires clientToNetwork.Valid() && end == Waiting
      modifies Footprint()
      ensures clientToNetwork.Valid()
      ensures match HeadOf(Relay, old(Residue()))
        case Cuttable(n) =>
          if n == 0 then
            !more && end == Stuck && Residue() == old(Residue()) && routed == old(routed)
          else
            && more && one && end == Waiting
            && Residue() == old(Residue())[n..] && routed == old(routed) + [old(Residue())[..n]]
        case Unreadable => !more && end == Panicked && Residue() == old(Residue()) && routed == old(routed)
        case Garbage => more && !one && end == Waiting && Residue() == old(Residue())[1..] && routed == old(routed)
        case _ => !more && end == Waiting && Residue() == old(Residue()) && routed == old(routed)
    {
      hide ParseTransport;
      hide Dropped;
      hide FrontOf;
      hide ParseIp;
      var info := clientToNetwork.AvailablePacketInfo();
      if info.Some? {
        // the packet is parsed in place before it is routed
        if !Readable(Residue()) {
          end := Panicked;
          return false, false;
        }
        if info.value == 0 {
          end := if ParseIp(Residue()).value.V4? && Dropped(Residue()) then Stuck else Panicked;
          return false, false;
        }
        routed := routed + [Residue()[..info.value]];
        clientToNetwork.Next();
        return true, true;
      }
      more := clientToNetwork.SkipMalformed();
      one := false;
    }
  }

  lemma IncompleteIsKept(s: seq<byte>)
    requires HeadOf(Relay, s).Incomplete?
    ensures Cut(Relay, s) == Frames([], s, Waiting)
  {
  }

  /** The residue and what the buffer takes of a chunk. */
  function Kept(residue: seq<byte>, chunk: seq<byte>): (s: seq<byte>)
    requires |residue| <= MAX_PACKET_LENGTH
    ensures s == residue + chunk <==> |residue| + |chunk| <= 0x1_0000
  {
    residue + chunk[..Min(|chunk|, MAX_PACKET_LENGTH - |residue|)]
  }

  /** A whole sequence of `FeedDeviceData` calls: packets routed, residue, how it ended. */
  function FeedAll(residue: seq<byte>, chunks: seq<seq<byte>>): Frames
    requires |residue| <= MAX_PACKET_LENGTH
    decreases |chunks|
  {
    if chunks == [] then Frames([], residue, Waiting) else
    var f := Cut(Relay, Kept(residue, chunks[0]));
    if f.end != Waiting then f else
    var g := FeedAll(f.rest, chunks[1..]);
    g.(packets := f.packets + g.packets)
  }

  /** Every chunk fits behind the residue it finds. */
  ghost predicate AllFit(residue: seq<byte>, chunks: seq<seq<byte>>)
    requires |residue| <= MAX_PACKET_LENGTH
    decreases |chunks|
  {
    chunks != [] ==>
      && |residue| + |chunks[0]| <= MAX_PACKET_LENGTH
      && AllFit(Cut(Relay, residue + chunks[0]).rest, chunks[1..])
  }

  lemma {:induction false} FeedingIsCutting(residue: seq<byte>, chunks: seq<seq<byte>>)
    requires |residue| <= MAX_PACKET_LENGTH && AllFit(residue, chunks)
    ensures FeedAll(residue, chunks) == CutChunks(Relay, residue, chunks)
    decreases |chunks|
  {
    if chunks != [] {
      FeedingIsCutting(Cut(Relay, residue + chunks[0]).rest, chunks[1..]);
    }
  }

  /** Device to relay: however a concatenation of well-formed packets is cut into chunks
      that fit, after any number of its bytes the packets routed are exactly the complete
      ones in order, and the buffer holds exactly the beginning of the next. */
  lemma RoutedPacketsAreTheCompleteOnes(ps: seq<seq<byte>>, n: nat, chunks: seq<seq<byte>>)
    requires AllWellFormed(Relay, ps) && n <= |Flatten(ps)|
    requires Flatten(chunks) == Flatten(ps)[..n] && AllFit([], chunks)
    ensures
      var f := FeedAll([], chunks);
      && f.end == Waiting && f.packets <= ps && Flatten(f.packets) + f.rest == Flatten(ps)[..n]
      && HeadOf(Relay, f.rest).Incomplete?
      && (n == |Flatten(ps)| ==> f.packets == ps && f.rest == [])
  {
    hide HeadOf;
    hide Cut;
    hide AllWellFormed;
    hide CutChunks;
    hide Flatten;
    FeedingIsCutting([], chunks);
    assert [] + Flatten(chunks) == Flatten(chunks);
    CutOfPrefix(Relay, ps, n);
    PrefixIsSelfContained(ps, Cut(Relay, Flatten(ps)[..n]));
    NothingIsIncomplete();
    SelfContainedChunksAgree([], chunks);
    ChunkingIsInvisible(Relay, [], chunks);
  }

  lemma NothingIsIncomplete()
    ensures HeadOf(Relay, []).Incomplete?
  {
  }

  lemma PrefixIsSelfContained(ps: seq<seq<byte>>, f: Frames)
    requires AllWellFormed(Relay, ps) && f.end == Waiting && f.packets <= ps
    ensures SelfContained(f)
  {
    hide WellFormed;
    forall i | 0 <= i < |f.packets|
      ensures WellFormed(Relay, f.packets[i])
    {
      assert f.packets[i] == ps[i];
    }
  }

  /** After any call that ends, there is room for at least two bytes: the relay can
      always read on. */
  lemma {:induction false} FeedLeavesRoom(residue: seq<byte>, chunks: seq<seq<byte>>)
    requires |residue| < MAX_PACKET_LENGTH - 1 && FeedAll(residue, chunks).end == Waiting
    ensures |FeedAll(residue, chunks).rest| < MAX_PACKET_LENGTH - 1
    decreases |chunks|
  {
    if chunks != [] {
      var kept := Kept(residue, chunks[0]);
      ResidueLeavesRoom(kept);
      FeedLeavesRoom(Cut(Relay, kept).rest, chunks[1..]);
    }
  }
}
