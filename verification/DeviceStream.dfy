/** The device's framer, IPPacketOutputStream.java: a `java.nio.ByteBuffer` of two packets,
    written in place, and the packets it writes one at a time to its target. */
module DeviceStream {
  import opened Bytes
  import opened Framing

  const MAX_IP_PACKET_LENGTH: nat := 0x1_0000
  const CAPACITY: nat := 2 * MAX_IP_PACKET_LENGTH

  /** How `write` ends: normally, with one of its two exceptions, with an exception of the
      target, or not at all. */
  datatype Outcome = Written | ChunkTooLong | BufferFull | TargetFailed | Endless

  class IPPacketOutputStream {
    const bytes: array<byte>
    var position: nat
    var limit: nat
    var target: seq<seq<byte>>

    ghost predicate Valid()
      reads this, bytes
    {
      bytes.Length == CAPACITY && position <= limit <= CAPACITY
    }

    /** Between writes: the bytes kept for later. */
    ghost function Pending(): seq<byte>
      reads this, bytes
      requires Valid()
    {
      bytes[..position]
    }

    /** During a write: the bytes still to be cut. */
    ghost function Unread(): seq<byte>
      reads this, bytes
      requires Valid()
    {
      bytes[position..limit]
    }

    constructor ()
      ensures Valid() && fresh(bytes) && limit == CAPACITY && Pending() == [] && target == []
    {
      bytes := new byte[CAPACITY](_ => 0);
      position, limit := 0, CAPACITY;
      target := [];
    }

    /** `write(b, off, len)`. The target takes the first `k` packets of this call and
        throws on the next when `takes` is `Some(k)`. After an unsupported version the buffer
        is cleared and then compacted, which leaves it full. */
    method Write(chunk: seq<byte>, takes: Option<nat>) returns (outcome: Outcome)
      requires Valid() && limit == CAPACITY
      modifies this, bytes
      ensures Valid()
      ensures outcome.ChunkTooLong? <==> |chunk| > 0x1_0000
      ensures outcome.BufferFull? <==> |chunk| <= 0x1_0000 && |old(Pending())| + |chunk| > 0x2_0000
      ensures outcome.ChunkTooLong? || outcome.BufferFull? ==>
                target == old(target) && Pending() == old(Pending()) && limit == CAPACITY
      ensures !outcome.ChunkTooLong? && !outcome.BufferFull? ==>
                var f := Cut(Device, old(Pending()) + chunk);
                && target == old(target) + Taken(f, takes)
                && (outcome.TargetFailed? <==> Throws(f, takes))
                && (outcome.Endless? <==> f.end == Stuck && takes.None?)
                && (outcome.Written? && f.end == Waiting ==> Pending() == f.rest && limit == CAPACITY)
                && (outcome.Written? && f.end == Failed ==> |Pending()| == CAPACITY && limit == CAPACITY)
                && (outcome.TargetFailed? ==> LeftAfter(f, takes.value, Cut(Device, Unread())))
    {
      if |chunk| > MAX_IP_PACKET_LENGTH {
        return ChunkTooLong;
      }
      if |chunk| > limit - position {
        return BufferFull;
      }
      ghost var kept := Pending();
      CopyInto(bytes, position, chunk);
      position, limit := 0, position + |chunk|; // flip
      assert Unread() == kept + chunk;
      outcome := Sink(takes);
      if outcome == Written {
        Compact();
      }
    }

    /** Write out every complete packet. */
    method Sink(takes: Option<nat>) returns (outcome: Outcome)
      requires Valid()
      modifies this
      ensures Valid()
      ensures outcome.Written? || outcome.TargetFailed? || outcome.Endless?
      ensures var f := Cut(Device, old(Unread()));
        && target == old(target) + Taken(f, takes)
        && (outcome.TargetFailed? <==> Throws(f, takes))
        && (outcome.Endless? <==> f.end == Stuck && takes.None?)
        && (outcome.Written? && f.end == Waiting ==> Unread() == f.rest)
        && (outcome.Written? && f.end == Failed ==> position == 0 && limit == CAPACITY)
        && (outcome.TargetFailed? ==> LeftAfter(f, takes.value, Cut(Device, Unread())))
    {
      hide HeadOf;
      hide Cut;
      ghost var f := Cut(Device, Unread());
      ghost var before := target;
      var done: nat := 0;
      while true
        invariant Valid()
        invariant done <= |f.packets| && (takes.Some? ==> done <= takes.value)
        invariant target == before + f.packets[..done]
        invariant Cut(Device, Unread()) == f.(packets := f.packets[done..])
        decreases |Unread()|
      {
        ghost var unread := Unread();
        NextPacket(f, done, unread);
        var start := position;
        var more, thrown := SinkPacket(takes == Some(done));
        if thrown {
          return TargetFailed;
        }
        if !more {
          return Written;
        }
        if position == start {
          // nothing was consumed: empty packets are written until the target throws
          if takes.None? {
            return Endless;
          }
          WrittenForNothing(takes.value - done);
          target := target + Empties(takes.value - done - 1);
          return TargetFailed;
        }
        done := done + 1;
      }
    }

    method SinkPacket(throws: bool) returns (written: bool, thrown: bool)
      requires Valid()
      modifies this
      ensures Valid()
      ensures thrown <==> throws && HeadOf(Device, old(Unread())).Cuttable?
      ensures thrown ==> !written && target == old(target) && Unread() == old(Unread())
      ensures !thrown ==> match HeadOf(Device, old(Unread()))
        case Cuttable(n) =>
          && written && target == old(target) + [old(Unread())[..n]] && Unread() == old(Unread())[n..]
          && position == old(position) + n
        case Unsupported =>
          !written && target == old(target) && position == 0 && limit == CAPACITY
        case _ =>
          !written && target == old(target) && Unread() == old(Unread())
    {
      var version := ReadPacketVersion();
      if version == -1 {
        return false, false;
      }
      var length: int;
      if version == 4 {
        length := ReadPacketLength();
      } else if version == 6 {
        length := ReadIpv6PacketLength();
      } else {
        position, limit := 0, CAPACITY; // clear
        return false, false;
      }
      if length == -1 || length > limit - position {
        return false, false;
      }
      assert bytes[position..position + length] == Unread()[..length];
      assert bytes[position + length..limit] == Unread()[length..];
      assert HeadOf(Device, Unread()) == Cuttable(length);
      if throws {
        return false, true;
      }
      target := target + [bytes[position..position + length]];
      position := position + length;
      return true, false;
    }

    function ReadPacketVersion(): (version: int)
      reads this, bytes
      requires Valid()
      ensures version == if Unread() == [] then -1 else Unread()[0] / 16
    {
      if position == limit then -1 else bytes[position] / 16
    }

    function ReadPacketLength(): (length: int)
      reads this, bytes
      requires Valid()
      ensures length == if |Unread()| < 4 then -1 else U16At(Unread(), 2)
    {
      if limit < position + 4 then -1 else (bytes[position + 2] as int) * 0x100 + bytes[position + 3]
    }

    function ReadIpv6PacketLength(): (length: int)
      reads this, bytes
      requires Valid()
      ensures length == if |Unread()| < 6 then -1 else U16At(Unread(), 4) + 40
    {
      if limit < position + 6 then -1 else (bytes[position + 4] as int) * 0x100 + bytes[position + 5] + 40
    }

    /** `ByteBuffer.compact`: what is left moves to the front. */
    method Compact()
      requires Valid()
      modifies this, bytes
      ensures Valid() && Pending() == old(Unread()) && limit == CAPACITY && target == old(target)
    {
      var left := limit - position;
      forall k | 0 <= k < left {
        bytes[k] := bytes[position + k];
      }
      position, limit := left, CAPACITY;
    }
  }

  function Empties(n: nat): seq<seq<byte>> {
    seq(n, _ => [])
  }

  lemma WrittenForNothing(n: nat)
    ensures n > 0 ==> Empties(n) == [[]] + Empties(n - 1)
  {
  }

  /** What the target has taken when the call ends; of the empty packets written by a loop
      that does not end, the first. */
  function Taken(f: Frames, takes: Option<nat>): seq<seq<byte>> {
    if takes.Some? && takes.value <= |f.packets| then f.packets[..takes.value]
    else if f.end != Stuck then f.packets
    else f.packets + Empties(if takes.Some? then takes.value - |f.packets| else 1)
  }

  /** The target is asked for more packets than it takes. */
  predicate Throws(f: Frames, takes: Option<nat>) {
    takes.Some? && (takes.value < |f.packets| || f.end == Stuck)
  }

  /** An exception loses nothing: what is left unread still holds the other packets. */
  predicate LeftAfter(f: Frames, k: nat, left: Frames) {
    left == f.(packets := f.packets[Min(k, |f.packets|)..])
  }

  /** The next packet of a call, when there is one. */
  lemma NextPacket(f: Frames, done: nat, s: seq<byte>)
    requires done <= |f.packets| && Cut(Device, s) == f.(packets := f.packets[done..])
    ensures !HeadOf(Device, s).Garbage? && !HeadOf(Device, s).Unreadable?
    ensures HeadOf(Device, s).Incomplete? ==> done == |f.packets| && f.end == Waiting && f.rest == s
    ensures HeadOf(Device, s).Unsupported? ==> done == |f.packets| && f.end == Failed
    ensures HeadOf(Device, s) == Cuttable(0) ==> done == |f.packets| && f.end == Stuck
    ensures done == |f.packets| ==> f.packets[..done] == f.packets
    ensures HeadOf(Device, s).Cuttable? && HeadOf(Device, s).length > 0 ==>
              var n := HeadOf(Device, s).length;
              && done < |f.packets| && f.packets[..done] + [s[..n]] == f.packets[..done + 1]
              && Cut(Device, s[n..]) == f.(packets := f.packets[done + 1..])
  {
    hide HeadOf;
    NeverGarbage(s);
    var h := HeadOf(Device, s);
    if h.Cuttable? && h.length > 0 {
      var p, later := s[..h.length], Cut(Device, s[h.length..]).packets;
      assert f.packets[done..] == [p] + later;
      assert f.packets[done] == f.packets[done..][0] == p;
      assert f.packets[done + 1..] == f.packets[done..][1..] == later;
    }
  }

  lemma NeverGarbage(s: seq<byte>)
    ensures !HeadOf(Device, s).Garbage? && !HeadOf(Device, s).Unreadable?
  {
  }

  /** The residue of a device that waits is shorter than the largest length its framer can
      compute, 65535 + 40. */
  lemma DeviceResidue(s: seq<byte>)
    requires Cut(Device, s).end == Waiting
    ensures |Cut(Device, s).rest| < 0xFFFF + 40 && HeadOf(Device, Cut(Device, s).rest).Incomplete?
  {
    WaitingRestIsIncomplete(Device, s);
  }

  /** "The buffer must always accept one full packet and any partial packet" fails: the
      beginning of the largest IPv6 packet leaves less room than that. */
  lemma JumboResidueLeavesTooLittleRoom(s: seq<byte>)
    requires |s| == 0xFFFF + 39 && s[0] / 16 == 6 && U16At(s, 4) == 0xFFFF
    ensures Cut(Device, s) == Frames([], s, Waiting)
    ensures CAPACITY - |s| < MAX_IP_PACKET_LENGTH
  {
  }
}
