/** The device's framer over whole runs of writes: when its buffer always has room. */
module DeviceWrites {
  import opened Bytes
  import opened Chunks
  import opened Framing
  import opened DeviceStream

  ghost predicate AllSmall(chunks: seq<seq<byte>>) {
    forall i :: 0 <= i < |chunks| ==> |chunks[i]| <= MAX_IP_PACKET_LENGTH
  }

  /** One write after another, to a target that does not throw: none of them is refused.
      Each finds the residue that the one before has left. */
  predicate Accepted(residue: seq<byte>, chunks: seq<seq<byte>>)
    decreases |chunks|
  {
    chunks != [] ==>
      && |chunks[0]| <= MAX_IP_PACKET_LENGTH && |chunks[0]| <= CAPACITY - |residue|
      && var f := Cut(Device, residue + chunks[0]);
      f.end == Waiting ==> Accepted(f.rest, chunks[1..])
  }

  /** A packet longer than 65537 bytes comes so late that the buffer holds it and all that
      follows. */
  ghost predicate RoomFor(ps: seq<seq<byte>>) {
    forall i :: 0 <= i < |ps| ==> |ps[i]| <= MAX_IP_PACKET_LENGTH + 1 || |Flatten(ps[i..])| <= CAPACITY
  }

  lemma {:induction false} RoomMeansAccepted(qs: seq<seq<byte>>, residue: seq<byte>, chunks: seq<seq<byte>>)
    requires AllWellFormed(Device, qs) && RoomFor(qs) && AllSmall(chunks)
    requires residue + Flatten(chunks) == Flatten(qs)
    requires residue != [] ==> qs != [] && |residue| < |qs[0]|
    ensures Accepted(residue, chunks)
    decreases |chunks|
  {
    hide HeadOf;
    hide Flatten;
    hide Cut;
    hide WellFormed;
    if chunks != [] {
      var c, later := chunks[0], Flatten(chunks[1..]);
      FlattenUnfolds(chunks);
      ConcatAssociates(residue, c, later);
      assert qs != [] ==> qs[0..] == qs;
      assert |residue| + |c| <= |Flatten(qs)|;
      NextWrite(qs, residue + c, later);
      var f := Cut(Device, residue + c);
      RoomLater(qs, |f.packets|);
      RoomMeansAccepted(qs[|f.packets|..], f.rest, chunks[1..]);
    }
  }

  lemma RoomLater(qs: seq<seq<byte>>, k: nat)
    requires k <= |qs| && RoomFor(qs) && AllWellFormed(Device, qs)
    ensures RoomFor(qs[k..]) && AllWellFormed(Device, qs[k..])
  {
    hide Flatten;
    hide WellFormed;
    forall i | 0 <= i < |qs[k..]|
      ensures WellFormed(Device, qs[k..][i])
      ensures |qs[k..][i]| <= MAX_IP_PACKET_LENGTH + 1 || |Flatten(qs[k..][i..])| <= CAPACITY
    {
      assert qs[k..][i] == qs[k + i] && qs[k..][i..] == qs[k + i..];
    }
  }

  /** What a write leaves is the beginning of the next packet. */
  lemma NextWrite(qs: seq<seq<byte>>, s: seq<byte>, later: seq<byte>)
    requires AllWellFormed(Device, qs) && s + later == Flatten(qs)
    ensures
      var f := Cut(Device, s);
      && f.end == Waiting && |f.packets| <= |qs|
      && var rest := qs[|f.packets|..];
      && f.rest + later == Flatten(rest)
      && (f.rest != [] ==> rest != [] && |f.rest| < |rest[0]|)
  {
    hide HeadOf;
    hide Cut;
    hide WellFormed;
    assert Flatten(qs)[..|s|] == s;
    CutOfPrefix(Device, qs, |s|);
    WaitingRestIsIncomplete(Device, s);
    var f := Cut(Device, s);
    var rest := qs[|f.packets|..];
    assert qs == f.packets + rest;
    FlattenConcat(f.packets, rest);
    Cancel(Flatten(f.packets), f.rest + later, Flatten(rest));
    if rest != [] && |f.rest| >= |rest[0]| {
      assert rest[0] == (f.rest + later)[..|rest[0]|] == f.rest[..|rest[0]|];
      assert WellFormed(Device, rest[0]);
      IncompleteIsNoExtension(Device, rest[0], f.rest);
    }
  }

  lemma Cancel(a: seq<byte>, b: seq<byte>, c: seq<byte>)
    requires a + b == a + c
    ensures b == c
  {
    assert b == (a + b)[|a|..] && c == (a + c)[|a|..];
  }

  // ── refused ──

  /** Bytes in writes of full size. */
  function Split(s: seq<byte>): (chunks: seq<seq<byte>>)
    ensures AllSmall(chunks) && Flatten(chunks) == s
    decreases |s|
  {
    if s == [] then []
    else if |s| <= MAX_IP_PACKET_LENGTH then
      assert [s][1..] == [] && s + [] == s;
      [s]
    else
      var chunks := [s[..MAX_IP_PACKET_LENGTH]] + Split(s[MAX_IP_PACKET_LENGTH..]);
      assert chunks[1..] == Split(s[MAX_IP_PACKET_LENGTH..]);
      chunks
  }

  /** The later writes of an accepted run find what the earlier ones have left. */
  lemma {:induction false} AcceptedLater(residue: seq<byte>, a: seq<seq<byte>>, b: seq<seq<byte>>)
    requires HeadOf(Device, residue).Incomplete? && Accepted(residue, a + b)
    requires Cut(Device, residue + Flatten(a)).end == Waiting
    ensures Accepted(Cut(Device, residue + Flatten(a)).rest, b)
    decreases |a|
  {
    hide HeadOf;
    if a == [] {
      assert a + b == b && residue + [] == residue;
    } else {
      var x, later := a[0], Flatten(a[1..]);
      assert (a + b)[0] == x && (a + b)[1..] == a[1..] + b;
      ConcatAssociates(residue, x, later);
      DeviceNeverPanics(residue + x);
      CutConcat(Device, residue + x, later);
      WaitingRestIsIncomplete(Device, residue + x);
      AcceptedLater(Cut(Device, residue + x).rest, a[1..], b);
    }
  }

  /** Where a full write is refused: behind packets and the first `m` bytes of one more, if
      and only if `m` is more than 65536. The room falls short by 38 bytes at most. */
  lemma FullWriteIsRefusedIff(ps: seq<seq<byte>>, p: seq<byte>, m: nat, chunk: seq<byte>)
    requires AllWellFormed(Device, ps) && WellFormed(Device, p) && m < |p| && |chunk| == MAX_IP_PACKET_LENGTH
    ensures
      var f := Cut(Device, Flatten(ps) + p[..m]);
      && f == Frames(ps, p[..m], Waiting)
      && (Accepted(f.rest, [chunk]) <==> m <= MAX_IP_PACKET_LENGTH)
      && CAPACITY - |f.rest| >= MAX_IP_PACKET_LENGTH - 38
  {
    hide HeadOf;
    hide Cut;
    PrefixIsIncomplete(Device, p, m);
    CutOfPackets(Device, ps, p[..m]);
    DeviceResidue(Flatten(ps) + p[..m]);
    assert [chunk][1..] == [];
  }

  /** Cut just before the end of a packet that is too long, the stream is refused. */
  lemma TooLongIsRefused(ps: seq<seq<byte>>, i: nat) returns (chunks: seq<seq<byte>>)
    requires AllWellFormed(Device, ps) && i < |ps|
    requires |ps[i]| > MAX_IP_PACKET_LENGTH + 1 && |Flatten(ps[i..])| > CAPACITY
    ensures AllSmall(chunks) && Flatten(chunks) == Flatten(ps) && !Accepted([], chunks)
  {
    hide HeadOf;
    hide Flatten;
    hide Cut;
    hide WellFormed;
    var p, m := ps[i], |ps[i]| - 1;
    var size := CAPACITY - m + 1;
    assert WellFormed(Device, p);
    LongestPacket(p);
    var stream := Flatten(ps);
    Layout(ps, i);
    var front := |Flatten(ps[..i])| + m;
    var a, c, b := stream[..front], stream[front..front + size], stream[front + size..];
    assert a == Flatten(ps[..i]) + p[..m];
    chunks := Split(a) + ([c] + Split(b));
    FlattenThree(Split(a), c, Split(b));
    assert stream == a + (c + b);
    ThreeSmall(Split(a), c, Split(b));
    assert ([c] + Split(b))[0] == c && |c| == size;
    if Accepted([], chunks) {
      PrefixIsIncomplete(Device, p, m);
      assert AllWellFormed(Device, ps[..i]);
      CutOfPackets(Device, ps[..i], p[..m]);
      NothingIncomplete();
      assert [] + a == a;
      AcceptedLater([], Split(a), [c] + Split(b));
    }
  }

  lemma NothingIncomplete()
    ensures HeadOf(Device, []).Incomplete?
  {
  }

  lemma LongestPacket(p: seq<byte>)
    requires WellFormed(Device, p)
    ensures 0 < |p| <= 0xFFFF + 40
  {
  }

  lemma Layout(ps: seq<seq<byte>>, i: nat)
    requires i < |ps|
    ensures Flatten(ps) == Flatten(ps[..i]) + Flatten(ps[i..])
    ensures Flatten(ps[i..]) == ps[i] + Flatten(ps[i + 1..])
  {
    assert ps == ps[..i] + ps[i..] && ps[i..][1..] == ps[i + 1..];
    FlattenConcat(ps[..i], ps[i..]);
    FlattenUnfolds(ps[i..]);
  }

  lemma FlattenThree(a: seq<seq<byte>>, c: seq<byte>, b: seq<seq<byte>>)
    ensures Flatten(a + ([c] + b)) == Flatten(a) + (c + Flatten(b))
  {
    FlattenConcat(a, [c] + b);
    FlattenUnfolds([c] + b);
    assert ([c] + b)[1..] == b;
  }

  lemma ThreeSmall(a: seq<seq<byte>>, c: seq<byte>, b: seq<seq<byte>>)
    requires AllSmall(a) && AllSmall(b) && |c| <= MAX_IP_PACKET_LENGTH
    ensures AllSmall(a + ([c] + b))
  {
  }

  /** The exact condition on a stream of packets: all its writes of at most 65536 bytes are
      accepted, however it is cut, if and only if every packet longer than 65537 bytes comes
      so late that from it on no more than the capacity is left. */
  lemma WritesAreAcceptedIff(ps: seq<seq<byte>>)
    requires AllWellFormed(Device, ps)
    ensures
      (forall chunks :: AllSmall(chunks) && Flatten(chunks) == Flatten(ps) ==> Accepted([], chunks))
      <==> RoomFor(ps)
  {
    hide HeadOf;
    hide Flatten;
    hide Accepted;
    hide AllSmall;
    hide WellFormed;
    if RoomFor(ps) {
      forall chunks | AllSmall(chunks) && Flatten(chunks) == Flatten(ps)
        ensures Accepted([], chunks)
      {
        assert [] + Flatten(chunks) == Flatten(chunks);
        RoomMeansAccepted(ps, [], chunks);
      }
    } else {
      var i :| 0 <= i < |ps| && !(|ps[i]| <= MAX_IP_PACKET_LENGTH + 1 || |Flatten(ps[i..])| <= CAPACITY);
      var chunks := TooLongIsRefused(ps, i);
    }
  }
}
