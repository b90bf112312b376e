/** The packetizer as the object the source has: one buffer, edited in place, beside the
    parsed headers. Its methods are proved to compute the functions of `Pk`. */
module PacketizerObject {
  import opened Bytes
  import opened Checksums
  import opened Headers
  import opened TcpChecksum
  import opened Packetizers

  class Packetizer {
    const buffer: array<byte>
    const transportIndex: nat
    const payloadIndex: nat
    var ipHeaderData: IpHeaderData
    var transportHeaderData: TransportHeaderData

    ghost function View(): Pk
      reads this, buffer
    {
      Pk(buffer[..], transportIndex, payloadIndex, ipHeaderData, transportHeaderData)
    }

    ghost predicate Valid()
      reads this, buffer
    {
      View().Shaped()
    }

    /** `Packetizer::new`, from the raw headers of a reference packet. */
    constructor (ipRaw: seq<byte>, trRaw: seq<byte>)
      requires ValidReference(ipRaw, trRaw)
      ensures Valid() && fresh(buffer)
      ensures View() == NewPk(ipRaw, trRaw)
    {
      hide NewBytes;
      hide ParseIp;
      hide ParseTransport;
      hide ValidReference;
      ReferenceSizes(ipRaw, trRaw);
      var ip := ParseIp(ipRaw).value;
      buffer := new byte[MAX_PACKET_LENGTH](_ => 0);
      transportIndex := |ipRaw|;
      payloadIndex := |ipRaw| + |trRaw|;
      ipHeaderData := ip.Swapped();
      transportHeaderData := ParseTransport(ip.TransportProtocol(), trRaw, 0).value.Swapped();
      new;
      FillReference(buffer, ipRaw, trRaw, ip.V4?);
      assert NewPk(ipRaw, trRaw).buf == buffer[..];
    }

    method UpdateHeaders(sequence: u32, ack: u32, flags: u16, window: u16)
      requires Valid() && transportHeaderData.TcpData?
      modifies this, buffer
      ensures Valid() && View() == old(View()).UpdateHeaders(sequence, ack, flags, window)
    {
      SetSequenceNumber(sequence);
      SetAcknowledgementNumber(ack);
      SetFlags(flags);
      SetWindow(window);
    }

    method SetSequenceNumber(v: u32)
      requires Valid() && transportHeaderData.TcpData?
      modifies this, buffer
      ensures Valid() && View() == old(View()).SetSequenceNumber(v)
    {
      transportHeaderData := transportHeaderData.(sequenceNumber := v);
      WriteU32(buffer, transportIndex + 4, v);
    }

    method SetAcknowledgementNumber(v: u32)
      requires Valid() && transportHeaderData.TcpData?
      modifies this, buffer
      ensures Valid() && View() == old(View()).SetAcknowledgementNumber(v)
    {
      transportHeaderData := transportHeaderData.(acknowledgementNumber := v);
      WriteU32(buffer, transportIndex + 8, v);
    }

    method SetFlags(v: u16)
      requires Valid() && transportHeaderData.TcpData?
      modifies this, buffer
      ensures Valid() && View() == old(View()).SetFlags(v)
    {
      transportHeaderData := transportHeaderData.(flags := v);
      var word := U16At(buffer[transportIndex + 12..transportIndex + 14], 0);
      WriteU16(buffer, transportIndex + 12, word - word % 0x200 + v % 0x200);
    }

    method SetWindow(v: u16)
      requires Valid() && transportHeaderData.TcpData?
      modifies this, buffer
      ensures Valid() && View() == old(View()).SetWindow(v)
    {
      transportHeaderData := transportHeaderData.(window := v);
      WriteU16(buffer, transportIndex + 14, v);
    }

    /** The receive into the payload area of `packetize` and `packetize_read`. */
    method Receive(data: seq<byte>)
      requires Valid() && payloadIndex + |data| <= MAX_PACKET_LENGTH
      modifies buffer
      ensures Valid() && View() == old(View()).Fill(data)
    {
      CopyInto(buffer, payloadIndex, data);
    }

    method SetLengths(n: nat)
      requires Valid() && payloadIndex + n <= 0xFFFF
      modifies this, buffer
      ensures Valid() && View() == old(View()).SetLengths(n)
    {
      hide PutU16;
      if ipHeaderData.V4? {
        ipHeaderData := ipHeaderData.(totalLength := payloadIndex + n);
        WriteU16(buffer, 2, payloadIndex + n);
      } else {
        ipHeaderData := ipHeaderData.(payloadLength := payloadIndex + n - 40);
        WriteU16(buffer, 4, payloadIndex + n - 40);
      }
      if transportHeaderData.UdpData? {
        WriteU16(buffer, transportIndex + 4, 8 + n);
      }
    }

    method ComputeChecksums(total: nat)
      requires Valid() && payloadIndex <= total <= 0xFFFF
      modifies buffer
      ensures Valid() && View() == old(View()).ComputeChecksums(total)
    {
      hide WithChecksum;
      hide PseudoHeader;
      if ipHeaderData.V4? {
        UpdateIpv4Checksum(buffer, transportIndex);
      }
      if transportHeaderData.UdpData? {
        WriteU16(buffer, transportIndex + 6, 0);
      } else {
        UpdateTcpChecksum(buffer, ipHeaderData, transportIndex, payloadIndex, total);
      }
    }

    method Build(n: nat)
      requires Valid() && payloadIndex + n <= 0xFFFF
      modifies this, buffer
      ensures Valid() && View() == old(View()).Build(n)
    {
      hide Pk.SetLengths;
      hide Pk.ComputeChecksums;
      SetLengths(n);
      ComputeChecksums(payloadIndex + n);
    }

    method Inflate(length: nat) returns (packet: Packet)
      requires length <= buffer.Length
      ensures packet == View().Inflate(length)
    {
      packet := Packet(buffer[..length], ipHeaderData, transportHeaderData);
    }
  }

  lemma ReferenceSizes(ipRaw: seq<byte>, trRaw: seq<byte>)
    requires ValidReference(ipRaw, trRaw)
    ensures ParseIp(ipRaw).Some? && |ipRaw| >= if ParseIp(ipRaw).value.V4? then 20 else 40
    ensures ParseTransport(ParseIp(ipRaw).value.TransportProtocol(), trRaw, 0).Some? && |trRaw| >= 4
    ensures |ipRaw| + |trRaw| <= MAX_PACKET_LENGTH
  {
  }

  /** Copy the reference headers to the front and exchange their endpoints in place. */
  method FillReference(buffer: array<byte>, ipRaw: seq<byte>, trRaw: seq<byte>, v4: bool)
    requires |ipRaw| >= (if v4 then 20 else 40) && |trRaw| >= 4
    requires |ipRaw| + |trRaw| <= MAX_PACKET_LENGTH == buffer.Length
    requires forall k :: 0 <= k < buffer.Length ==> buffer[k] == 0
    modifies buffer
    ensures buffer[..] == NewBytes(ipRaw, trRaw, v4)
  {
    hide Splice;
    hide SwapBlocks;
    hide NewBytes;
    ReferenceBytes(buffer[..], ipRaw, trRaw, v4);
    CopyInto(buffer, 0, ipRaw);
    CopyInto(buffer, |ipRaw|, trRaw);
    if v4 {
      SwapInPlace(buffer, 12, 16, 4);
    } else {
      SwapInPlace(buffer, 8, 24, 16);
    }
    SwapInPlace(buffer, |ipRaw|, |ipRaw| + 2, 2);
  }

  lemma ReferenceBytes(blank: seq<byte>, ipRaw: seq<byte>, trRaw: seq<byte>, v4: bool)
    requires |ipRaw| >= (if v4 then 20 else 40) && |trRaw| >= 4 && |ipRaw| + |trRaw| <= MAX_PACKET_LENGTH == |blank|
    requires forall k :: 0 <= k < |blank| ==> blank[k] == 0
    ensures
      var copied := Splice(Splice(blank, 0, ipRaw), |ipRaw|, trRaw);
      var swapped := if v4 then SwapBlocks(copied, 12, 16, 4) else SwapBlocks(copied, 8, 24, 16);
      SwapBlocks(swapped, |ipRaw|, |ipRaw| + 2, 2) == NewBytes(ipRaw, trRaw, v4)
  {
    hide SwapBlocks;
    hide Splice;
    var pi := |ipRaw| + |trRaw|;
    var rest := seq(MAX_PACKET_LENGTH - pi, _ => 0 as byte);
    CopiedBytes(blank, ipRaw, trRaw);
    assert blank[pi..] == rest;
    SwappedCopy(ipRaw, trRaw, rest, v4);
  }

  /** Exchanging within the copies is copying what was exchanged. */
  lemma SwappedCopy(ipRaw: seq<byte>, trRaw: seq<byte>, rest: seq<byte>, v4: bool)
    requires |ipRaw| >= (if v4 then 20 else 40) && |trRaw| >= 4
    ensures
      var copied := ipRaw + (trRaw + rest);
      var swapped := if v4 then SwapBlocks(copied, 12, 16, 4) else SwapBlocks(copied, 8, 24, 16);
      var ip := if v4 then SwapBlocks(ipRaw, 12, 16, 4) else SwapBlocks(ipRaw, 8, 24, 16);
      SwapBlocks(swapped, |ipRaw|, |ipRaw| + 2, 2) == ip + SwapBlocks(trRaw, 0, 2, 2) + rest
  {
    hide SwapBlocks;
    var ip := if v4 then SwapBlocks(ipRaw, 12, 16, 4) else SwapBlocks(ipRaw, 8, 24, 16);
    if v4 {
      SwapInFront(ipRaw, trRaw + rest, 12, 16, 4);
    } else {
      SwapInFront(ipRaw, trRaw + rest, 8, 24, 16);
    }
    SwapBehind(ip, trRaw + rest, 0, 2, 2);
    SwapInFront(trRaw, rest, 0, 2, 2);
    ConcatAssociates(ip, SwapBlocks(trRaw, 0, 2, 2), rest);
  }

  lemma CopiedBytes(blank: seq<byte>, ipRaw: seq<byte>, trRaw: seq<byte>)
    requires |ipRaw| + |trRaw| <= |blank|
    ensures Splice(Splice(blank, 0, ipRaw), |ipRaw|, trRaw) == ipRaw + (trRaw + blank[|ipRaw| + |trRaw|..])
  {
    var one := Splice(blank, 0, ipRaw);
    assert one == ipRaw + blank[|ipRaw|..];
    assert Splice(one, |ipRaw|, trRaw) == one[..|ipRaw|] + trRaw + one[|ipRaw| + |trRaw|..];
    assert one[|ipRaw| + |trRaw|..] == blank[|ipRaw| + |trRaw|..];
  }

  lemma SwapInFront(s: seq<byte>, rest: seq<byte>, i: nat, j: nat, n: nat)
    requires i + n <= j && j + n <= |s|
    ensures SwapBlocks(s + rest, i, j, n) == SwapBlocks(s, i, j, n) + rest
  {
    hide SwapBlocks;
    SwapBlocksAt(s, i, j, n);
    SwapBlocksIs(s + rest, SwapBlocks(s, i, j, n) + rest, i, j, n);
  }

  lemma SwapBehind(front: seq<byte>, s: seq<byte>, i: nat, j: nat, n: nat)
    requires i + n <= j && j + n <= |s|
    ensures SwapBlocks(front + s, |front| + i, |front| + j, n) == front + SwapBlocks(s, i, j, n)
  {
    hide SwapBlocks;
    SwapBlocksAt(s, i, j, n);
    SwapBlocksIs(front + s, front + SwapBlocks(s, i, j, n), |front| + i, |front| + j, n);
  }
}
