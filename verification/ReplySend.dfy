/** How stub_send_ret_submit puts one reply together: an I/O vector over the header, parts of the transfer
    buffer and the packet descriptors. */
module ReplySend {
  import opened Usb
  import opened WireCodec
  import opened IsoTransfers
  import opened UrbQueues
  import opened UrbProtocol
  import opened ReplyStream

  const TWO_64 := 0x1_0000_0000_0000_0000

  /** One struct iovec: bytes of its own, or a part of the transfer buffer. */
  datatype Slot = Bytes(data: seq<byte>) | Part(offset: int32, length: nat)

  predicate SlotInBounds(s: Slot, n: nat) {
    s.Part? ==> 0 <= s.offset && s.offset + s.length <= n
  }

  predicate InBounds(iov: seq<Slot>, n: nat) {
    forall i :: 0 <= i < |iov| ==> SlotInBounds(iov[i], n)
  }

  /** The bytes of a slot; of one that is not in bounds nothing is said. */
  function SlotBytes(s: Slot, buffer: seq<byte>): seq<byte> {
    match s
    case Bytes(data) => data
    case Part(offset, length) =>
      if 0 <= offset && offset + length <= |buffer| then buffer[offset..offset + length] else []
  }

  /** What writev writes. */
  function Written(iov: seq<Slot>, buffer: seq<byte>): seq<byte> {
    if iov == [] then [] else SlotBytes(iov[0], buffer) + Written(iov[1..], buffer)
  }

  lemma {:induction false} WrittenAppend(iov: seq<Slot>, more: seq<Slot>, buffer: seq<byte>)
    ensures Written(iov + more, buffer) == Written(iov, buffer) + Written(more, buffer)
  {
    if iov == [] {
      assert iov + more == more;
    } else {
      assert (iov + more)[1..] == iov[1..] + more;
      WrittenAppend(iov[1..], more, buffer);
    }
  }

  lemma OneWritten(s: Slot, buffer: seq<byte>)
    ensures Written([s], buffer) == SlotBytes(s, buffer)
  {
  }

  /** memset, setup_ret_submit_pdu and usbip_header_correct_endian. */
  method PackHeader(little: bool, ws: seq<uint32>) returns (header: seq<byte>)
    requires Padded(ws)
    ensures header == NetBytes(ws)
  {
    var b := HostBytes(little, ws);
    var pdu := new byte[HEADER_SIZE](i requires 0 <= i < HEADER_SIZE => b[i]);
    assert pdu[..] == b;
    HeaderCorrectEndian(little, pdu, true);
    WireIsHostIndependent(little, ws);
    header := pdu[..];
  }

  /** The sum over np packets has room in a size_t. */
  lemma {:induction false} SumBounded(ps: seq<Packet>, k: nat)
    requires k <= |ps|
    ensures CursorOf(ps, k) <= k * TWO_32
  {
    if k > 0 {
      SumBounded(ps, k - 1);
    }
  }

  /** The sizes differ exactly when the sum of the actual lengths does not fit into an `int`. */
  lemma SizeMismatch(ps: seq<Packet>)
    requires |ps| < TWO_31
    ensures (HEADER_SIZE + SumActual(ps)) % TWO_64 != (HEADER_SIZE + AsInt(SumActual(ps))) % TWO_64
       <==> SumActual(ps) >= TWO_31
  {
    SumBounded(ps, |ps|);
    assert SumActual(ps) < TWO_31 * TWO_32;
  }

  /** It does fit when the packets fit into a buffer: the driver's check then never fails. */
  lemma NoMismatch(ps: seq<Packet>, n: nat)
    requires Fits(ps, n) && n < TWO_31
    ensures SumActual(ps) < TWO_31 && AsInt(SumActual(ps)) == SumActual(ps)
  {
    ActualFits(ps, n, |ps|);
  }

  /** The slots of the first k packets. */
  function PacketSlots(ps: seq<Packet>, k: nat): (iov: seq<Slot>)
    requires k <= |ps|
    ensures |iov| == k
  {
    if k == 0 then []
    else PacketSlots(ps, k - 1) + [Part(AsInt(OffsetOf(ps, k - 1)), ps[k - 1].actualLength)]
  }

  lemma PartIsData(buffer: seq<byte>, ps: seq<Packet>, k: nat)
    requires Fits(ps, |buffer|) && |buffer| < TWO_31 && k < |ps|
    ensures var s := Part(AsInt(OffsetOf(ps, k)), ps[k].actualLength);
      SlotInBounds(s, |buffer|) && SlotBytes(s, buffer) == DataOf(buffer, ps, k)
  {
    PacketsDisjoint(ps, |buffer|, k, |ps|);
  }

  lemma {:induction false} PacketsWritten(buffer: seq<byte>, ps: seq<Packet>, k: nat)
    requires Fits(ps, |buffer|) && |buffer| < TWO_31 && k <= |ps|
    ensures InBounds(PacketSlots(ps, k), |buffer|)
    ensures Written(PacketSlots(ps, k), buffer) == Gather(buffer, ps, k)
  {
    if k > 0 {
      PacketsWritten(buffer, ps, k - 1);
      PartIsData(buffer, ps, k - 1);
      var s := Part(AsInt(OffsetOf(ps, k - 1)), ps[k - 1].actualLength);
      OneWritten(s, buffer);
      WrittenAppend(PacketSlots(ps, k - 1), [s], buffer);
    }
  }

  function PayloadSlots(p: Priv): seq<Slot>
    requires p.trx.Transfer?
  {
    if p.dir != DIR_IN then []
    else if p.trx.kind == Isochronous then PacketSlots(p.trx.packets, |p.trx.packets|)
    else if p.trx.actualLength > 0 then [Part(SetupSize(p.trx.kind), p.trx.actualLength)]
    else []
  }

  /** The vector for one entry. */
  function SlotsOf(p: Priv): seq<Slot>
    requires p.trx.Transfer?
  {
    [Bytes(NetBytes(SubmitWords(p)))] + PayloadSlots(p)
      + if p.trx.kind == Isochronous then [Bytes(EncodeDescriptors(DescriptorsOf(p.trx.packets)))] else []
  }

  /** The vector the source declares, of 2 + num_iso_packets slots, is never too short, and an
      isochronous IN transfer fills it. */
  lemma SlotsFit(p: Priv)
    requires p.trx.Transfer?
    ensures |SlotsOf(p)| <= 2 + |p.trx.packets|
    ensures p.trx.kind == Isochronous && p.dir == DIR_IN ==> |SlotsOf(p)| == 2 + |p.trx.packets|
  {
  }

  lemma PayloadWritten(p: Priv)
    requires Sendable(p)
    ensures InBounds(PayloadSlots(p), |p.trx.buffer|)
    ensures Written(PayloadSlots(p), p.trx.buffer) == SubmitPayload(p)
  {
    if p.dir == DIR_IN && p.trx.kind == Isochronous {
      PacketsWritten(p.trx.buffer, p.trx.packets, |p.trx.packets|);
    } else if p.dir == DIR_IN && p.trx.actualLength > 0 {
      OneWritten(PayloadSlots(p)[0], p.trx.buffer);
    }
  }

  /** Every part lies in the buffer, and writing them all writes the reply. */
  lemma SlotsWritten(p: Priv)
    requires Sendable(p)
    ensures InBounds(SlotsOf(p), |p.trx.buffer|)
    ensures Written(SlotsOf(p), p.trx.buffer) == Encode(RetSubmit(p))
  {
    var buffer := p.trx.buffer;
    var header, payload := [Bytes(NetBytes(SubmitWords(p)))], PayloadSlots(p);
    OneWritten(header[0], buffer);
    PayloadWritten(p);
    WrittenAppend(header, payload, buffer);
    if p.trx.kind == Isochronous {
      var pdu := EncodeDescriptors(DescriptorsOf(p.trx.packets));
      OneWritten(Bytes(pdu), buffer);
      WrittenAppend(header + payload, [Bytes(pdu)], buffer);
    }
  }

  /** The loop over the packets of an isochronous IN transfer. */
  method GatherPackets(ps: seq<Packet>, iov: seq<Slot>, txsize: nat) returns (slots: seq<Slot>, total: nat)
    ensures slots == iov + PacketSlots(ps, |ps|)
    ensures total == txsize + SumActual(ps)
  {
    slots, total := iov, txsize;
    var offset: int32 := 0;
    for i := 0 to |ps|
      invariant slots == iov + PacketSlots(ps, i)
      invariant total == txsize + CursorOf(ps, i) && offset == AsInt(OffsetOf(ps, i))
    {
      slots, total := slots + [Part(offset, ps[i].actualLength)], total + ps[i].actualLength;
      SumWraps(offset, OffsetOf(ps, i), ps[i].length);
      offset := AsInt(AsWord(offset) + ps[i].length);
    }
  }

  /** The part of stub_send_ret_submit between taking an entry and writing it. It gives up, with an event,
      when there is no memory for the descriptors or the sizes differ. */
  method PackRetSubmit(little: bool, p: Priv, allocOk: bool) returns (ok: bool, iov: seq<Slot>, txsize: nat)
    requires p.trx.Transfer? && |p.trx.packets| < TWO_31
    ensures !ok <==> (p.trx.kind == Isochronous
      && (!allocOk || (p.dir == DIR_IN && SumActual(p.trx.packets) >= TWO_31)))
    ensures ok ==> iov == SlotsOf(p) && txsize == RetSubmitSize(p)
  {
    var iso := p.trx.kind == Isochronous;
    var actual := p.trx.actualLength;
    if iso {
      actual := FixupActualLength(p.trx.packets);
    }
    var header := PackHeader(little,
      [RET_SUBMIT, p.seqnum, 0, 0, 0, AsWord(TrxStat2Error(p.trx.status)), AsWord(actual), 0,
       AsWord(|p.trx.packets|), 0, 0, 0]);
    iov, txsize := [Bytes(header)], HEADER_SIZE;
    if p.dir == DIR_IN && !iso && actual > 0 {
      var offset := if p.trx.kind == Control then 8 else 0;
      iov, txsize := iov + [Part(offset, actual)], txsize + actual;
    } else if p.dir == DIR_IN && iso {
      iov, txsize := GatherPackets(p.trx.packets, iov, txsize);
      SizeMismatch(p.trx.packets);
      if txsize % TWO_64 != (HEADER_SIZE + actual) % TWO_64 {
        return false, iov, txsize;
      }
    }
    if iso {
      if !allocOk {
        return false, iov, txsize;
      }
      var pdu := AllocIsoDescPdu(p.trx.packets);
      iov, txsize := iov + [Bytes(pdu)], txsize + |pdu|;
    }
    ok := true;
  }

  /** setup_ret_unlink_pdu and the single slot of stub_send_ret_unlink. */
  method PackRetUnlink(little: bool, u: Unlink) returns (iov: seq<Slot>, txsize: nat)
    ensures Written(iov, []) == Encode(RetUnlink(u)) && |iov| == 1 && txsize == HEADER_SIZE
  {
    var header := PackHeader(little, UnlinkWords(u));
    iov, txsize := [Bytes(header)], HEADER_SIZE;
  }
}
