/** Every operation of the endpoint keeps the invariant. The proofs follow the calls:
    an empty packet first, then the handlers made of it. */
module TcpSteps {
  import opened Bytes
  import opened Checksums
  import opened StreamBuffers
  import opened Headers
  import opened Packetizers
  import opened PacketizerLaws
  import opened TcpSpec
  import opened TcpInvariant

  // ── appending one entry to a history ──

  lemma ForgedCounts(f: seq<Forged>, x: Forged)
    ensures Fins(f + [x]) == Fins(f) + x.flags % 2
    ensures Syns(f + [x]) == Syns(f) + x.flags / 2 % 2
  {
    assert (f + [x])[..|f|] == f;
  }

  lemma AcceptedGrows(a: seq<Acceptance>, x: Acceptance)
    ensures AcceptedBytes(a + [x]) == AcceptedBytes(a) + x.payload
  {
    assert (a + [x])[..|a|] == a;
  }

  lemma AppendedGrows(raws: seq<seq<byte>>, raw: seq<byte>, pi: nat)
    requires |raw| >= pi
    ensures AppendedPayloads(raws + [raw], pi) == AppendedPayloads(raws, pi) + raw[pi..]
  {
    assert (raws + [raw])[..|raws|] == raws;
  }

  lemma HandedGrows(raws: seq<seq<byte>>, raw: seq<byte>, pi: nat)
    ensures FinsHanded(raws + [raw], pi) == FinsHanded(raws, pi) + ControlFlags(raw, pi) % 2
    ensures SynsHanded(raws + [raw], pi) == SynsHanded(raws, pi) + ControlFlags(raw, pi) / 2 % 2
  {
    hide ControlFlags;
    assert (raws + [raw])[..|raws|] == raws;
  }

  lemma BuiltGrows(b: seq<Built>, x: Built)
    ensures DirectLength(b + [x]) == DirectLength(b) + if x.direct then |x.payload| else 0
    ensures Deferrals(b + [x]) == Deferrals(b) + if x.direct then 0 else 1
  {
    assert (b + [x])[..|b|] == b;
  }

  lemma FlushesGrow(f: seq<Flush>, x: Flush)
    ensures FlushedLength(f + [x]) == FlushedLength(f) + x.length
  {
    assert (f + [x])[..|f|] == f;
  }

  // ── an empty packet to the device ──

  ghost predicate SentEmpty(c: Conn, d: Conn, flags: u16)
    requires c.Ok()
  {
    && c.Kin(d) && d.pk.Synced()
    && d.tcb == c.tcb && d.inbox == c.inbox && d.deferred == c.deferred && d.closed == c.closed
    && d.log == c.log.(
         forged := c.log.forged + [Forged(c.tcb.state, flags, c.tcb.sequenceNumber, c.tcb.acknowledgementNumber,
                                          Relative(c), c.AdvertisedWindow())],
         intact := false, appended := d.log.appended)
    && (|| d.log.appended == c.log.appended
        || (&& |d.log.appended| == |c.log.appended| + 1
            && d.log.appended == c.log.appended + [d.log.appended[|c.log.appended|]]
            && |d.log.appended[|c.log.appended|]| == c.pk.pi
            && ControlFlags(d.log.appended[|c.log.appended|], c.pk.pi) == flags
            && Whole(d.log.appended[|c.log.appended|])))
    && d.pk.buf[c.pk.pi..] == c.pk.buf[c.pk.pi..]
    && (c.deferred.Some? ==> d.pk.ip.TotalLength() == c.pk.pi)
  }

  lemma ForgeEffect(c: Conn, flags: u16)
    requires c.Ok() && c.pk.Synced() && flags < 0x200
    ensures c.Forge(flags).pk.Synced()
    ensures c.Forge(flags).pk.buf[c.pk.pi..] == c.pk.buf[c.pk.pi..]
  {
    hide Pk.UpdateHeaders;
    UpdateHeadersSynced(c.pk, c.tcb.sequenceNumber, c.tcb.acknowledgementNumber, flags, c.AdvertisedWindow());
    UpdateHeadersFrame(c.pk, c.tcb.sequenceNumber, c.tcb.acknowledgementNumber, flags, c.AdvertisedWindow());
  }

  lemma BuildIsWhole(p: Pk, n: nat)
    requires p.Synced() && p.pi + n <= 0xFFFF
    ensures p.Build(n).Synced() && Whole(p.Build(n).buf[..p.pi + n])
  {
    hide Pk.Build;
    hide ParsePacket;
    hide Verifies;
    hide PseudoHeader;
    BuildSynced(p, n);
    BuildParses(p, n);
    BuildVerifies(p, n);
    var b := p.Build(n);
    var raw := b.buf[..p.pi + n];
    assert raw[..p.ti] == b.buf[..p.ti];
    assert raw[p.ti..] == b.buf[p.ti..p.pi + n];
  }

  lemma ForgedParses(p: Pk)
    requires p.Synced() && p.pi <= 0xFFFF
    ensures var raw := p.Build(0).buf[..p.pi];
      && ParsePacket(raw).Some? && ParsePacket(raw).value.transport == p.tr
      && (p.tr.TcpData? ==> ControlFlags(raw, p.pi) == p.tr.flags)
  {
    hide Pk.Build;
    hide ParsePacket;
    hide Pk.Synced;
    BuildParses(p, 0);
  }

  lemma SendEmptyEffect(c: Conn, flags: u16, busy: bool)
    requires c.Ok() && c.pk.Synced() && flags < 0x200
    ensures SentEmpty(c, c.SendEmpty(flags, busy), flags)
  {
    hide Pk.UpdateHeaders;
    hide Pk.Build;
    hide ParsePacket;
    hide Pk.Synced;
    hide Whole;
    hide Queue.Append;
    ForgeEffect(c, flags);
    var f := c.Forge(flags);
    BuildIsWhole(f.pk, 0);
    ForgedParses(f.pk);
    var d := f.BuildEmpty();
    assert d.pk.buf[c.pk.pi..] == f.pk.buf[c.pk.pi..];
  }

  lemma SentEmptyEdges(c: Conn, d: Conn, flags: u16)
    requires c.Ok() && SentEmpty(c, d, flags)
    requires Upstream(c) && Edges(c)
    ensures Edges(d)
  {
    hide Pk.Synced;
    hide Whole;
    forall i | 0 <= i < |d.log.forged| && Rank(d.log.forged[i].state) >= 2
      ensures Rank(d.tcb.state) >= 2 && EdgeHonoured(d, d.log.forged[i])
    {
      if i < |c.log.forged| {
        assert d.log.forged[i] == c.log.forged[i];
        assert EdgeHonoured(c, c.log.forged[i]);
      }
    }
  }

  lemma SentEmptyDownstream(c: Conn, d: Conn, flags: u16)
    requires c.Ok() && SentEmpty(c, d, flags)
    requires Downstream(c) && Packets(c)
    ensures Downstream(d) && Packets(d)
  {
    hide Pk.Synced;
    hide Whole;
    hide Faithful;
    hide InsideClientWindow;
    hide ControlFlags;
    hide FinsHanded;
    hide SynsHanded;
    hide Fins;
    hide Syns;
    SentEmptyCounts(c, d, flags);
    if d.log.appended != c.log.appended {
      var raw := d.log.appended[|c.log.appended|];
      AppendedGrows(c.log.appended, raw, c.pk.pi);
      HandedGrows(c.log.appended, raw, c.pk.pi);
      assert raw[c.pk.pi..] == [];
    }
  }

  lemma SentEmptyDeferral(c: Conn, d: Conn, flags: u16)
    requires c.Ok() && SentEmpty(c, d, flags) && Deferral(c)
    ensures Deferral(d)
  {
    hide Pk.Synced;
    hide Whole;
    if c.deferred.Some? {
      var pi, end := c.pk.pi, c.deferred.value;
      assert d.pk.buf[pi..end] == d.pk.buf[pi..][..end - pi];
      assert c.pk.buf[pi..end] == c.pk.buf[pi..][..end - pi];
    }
  }

  // ── what each concern depends on ──

  lemma UpstreamFrame(c: Conn, d: Conn)
    requires Upstream(c)
    requires d.log.accepted == c.log.accepted && d.log.written == c.log.written
    requires d.inbox.contents == c.inbox.contents && d.log.synAt == c.log.synAt
    requires d.log.sinceSyn == c.log.sinceSyn && d.log.Fins() == c.log.Fins()
    requires d.tcb.acknowledgementNumber == c.tcb.acknowledgementNumber
    requires d.tcb.synSequenceNumber == c.tcb.synSequenceNumber
    requires d.tcb.state == c.tcb.state || (c.tcb.state != Init && d.tcb.state != Init)
    ensures Upstream(d)
  {
    hide AcceptedBytes;
    AcceptancesFrame(c, d);
  }

  lemma AcceptancesFrame(c: Conn, d: Conn)
    requires Acceptances(c) && d.log.accepted == c.log.accepted && d.log.synAt == c.log.synAt
    requires d.log.sinceSyn == c.log.sinceSyn && d.log.Fins() >= c.log.Fins()
    requires d.tcb.synSequenceNumber == c.tcb.synSequenceNumber
    ensures Acceptances(d)
  {
    hide AcceptedBytes;
    forall i | 0 <= i < |d.log.accepted|
      ensures AcceptedInPlace(d, i)
    {
      assert AcceptedInPlace(c, i);
    }
  }

  lemma EdgesFrame(c: Conn, d: Conn)
    requires Edges(c)
    requires d.log.forged == c.log.forged && Relative(d) == Relative(c)
    requires d.inbox.Remaining() >= c.inbox.Remaining()
    requires d.tcb.synSequenceNumber == c.tcb.synSequenceNumber
    requires Rank(d.tcb.state) >= Rank(c.tcb.state)
    ensures Edges(d)
  {
    forall i | 0 <= i < |d.log.forged| && Rank(d.log.forged[i].state) >= 2
      ensures Rank(d.tcb.state) >= 2 && EdgeHonoured(d, d.log.forged[i])
    {
      assert EdgeHonoured(c, c.log.forged[i]);
    }
  }

  /** `Numbers` looks at the control block and at these parts of the history only. */
  lemma NumbersFrame(c: Conn, d: Conn)
    requires Numbers(c)
    requires d.tcb.sequenceNumber == c.tcb.sequenceNumber
    requires d.tcb.finSequenceNumber == c.tcb.finSequenceNumber && d.deferred == c.deferred
    requires d.tcb.state == c.tcb.state || (c.tcb.state != Init && Rank(d.tcb.state) >= 3)
    requires d.log.built == c.log.built && d.log.flushes == c.log.flushes
    requires d.log.initialNumber == c.log.initialNumber
    requires Fins(d.log.forged) == Fins(c.log.forged) && Syns(d.log.forged) == Syns(c.log.forged)
    ensures Numbers(d)
  {
    forall k | 0 <= k < |d.log.built|
      ensures Positioned(d, k)
    {
      assert Positioned(c, k);
    }
  }

  lemma LifecycleFrame(c: Conn, d: Conn)
    requires Lifecycle(c)
    requires d.tcb.finSequenceNumber == c.tcb.finSequenceNumber
    requires d.tcb.state == c.tcb.state
    requires Fins(d.log.forged) == Fins(c.log.forged) && Syns(d.log.forged) == Syns(c.log.forged)
    requires d.log.attempts == c.log.attempts
    ensures Lifecycle(d)
  {
  }

  /** The concerns that only packets to the device touch. */
  lemma DeviceFrame(c: Conn, d: Conn)
    requires Downstream(c) && Packets(c) && Deferral(c)
    requires d.pk == c.pk && d.deferred == c.deferred
    requires d.log.built == c.log.built && d.log.received == c.log.received && d.log.appended == c.log.appended
    requires d.log.flushes == c.log.flushes && d.log.intact == c.log.intact
    requires Fins(d.log.forged) >= Fins(c.log.forged) && Syns(d.log.forged) >= Syns(c.log.forged)
    ensures Downstream(d) && Packets(d) && Deferral(d)
  {
    hide Faithful;
    hide InsideClientWindow;
    hide Whole;
    hide Pk.Synced;
  }

  lemma SentEmptyCounts(c: Conn, d: Conn, flags: u16)
    requires c.Ok() && SentEmpty(c, d, flags)
    ensures Fins(d.log.forged) == Fins(c.log.forged) + flags % 2
    ensures Syns(d.log.forged) == Syns(c.log.forged) + flags / 2 % 2
    ensures Relative(d) == Relative(c)
  {
    hide Pk.Synced;
    hide Whole;
    hide Fins;
    hide Syns;
    hide Conn.Kin;
    hide Conn.Ok;
    ForgedCounts(c.log.forged, Forged(c.tcb.state, flags, c.tcb.sequenceNumber, c.tcb.acknowledgementNumber,
                                      Relative(c), c.AdvertisedWindow()));
  }

  /** What an empty packet keeps whatever its flags. */
  lemma SendEmptyKeepsRest(c: Conn, flags: u16, busy: bool)
    requires c.Ok() && Upstream(c) && Edges(c) && Downstream(c) && Packets(c) && Deferral(c) && flags < 0x200
    ensures var d := c.SendEmpty(flags, busy);
      && SentEmpty(c, d, flags) && Upstream(d) && Edges(d) && Downstream(d) && Packets(d) && Deferral(d)
  {
    hide Upstream;
    hide Downstream;
    hide Packets;
    hide Edges;
    hide Conn.SendEmpty;
    hide Whole;
    hide Pk.Synced;
    hide Deferral;
    var d := c.SendEmpty(flags, busy);
    DeferralSynced(c);
    SendEmptyEffect(c, flags, busy);
    SentEmptyCounts(c, d, flags);
    SentEmptyEdges(c, d, flags);
    SentEmptyDownstream(c, d, flags);
    SentEmptyDeferral(c, d, flags);
    UpstreamFrame(c, d);
  }

  lemma DeferralSynced(c: Conn)
    requires Deferral(c)
    ensures c.pk.Synced()
  {
  }

  lemma SendEmptyKeeps(c: Conn, flags: u16, busy: bool)
    requires Inv(c) && flags < 0x200 && flags % 2 == 0 && flags / 2 % 2 == 0
    ensures Inv(c.SendEmpty(flags, busy))
  {
    hide Upstream;
    hide Edges;
    hide Lifecycle;
    hide Numbers;
    hide Downstream;
    hide Packets;
    hide Deferral;
    hide Conn.SendEmpty;
    hide Pk.Synced;
    hide Whole;
    SendEmptyKeepsRest(c, flags, busy);
    var d := c.SendEmpty(flags, busy);
    SentEmptyCounts(c, d, flags);
    NumbersFrame(c, d);
    LifecycleFrame(c, d);
  }
}
