/** Isochronous transfers. On the host the packets lie in the transfer buffer with padding after
    each; over the wire they go without it, followed by one descriptor a packet. */
module IsoTransfers {
  import opened Usb
  import opened WireCodec

  // The errno values of Linux that the driver puts into replies, and reads out of descriptors.
  const ENOENT: int := 2
  const EPIPE: int := 32
  const EOVERFLOW: int := 75
  const ECONNRESET: int := 104
  const ESHUTDOWN: int := 108
  const ETIMEDOUT: int := 110

  /** trxstat2error */
  function TrxStat2Error(status: TransferStatus): (e: int32)
    ensures e <= 0 && (e == 0 <==> status == Completed)
  {
    match status
    case Completed => 0
    case Cancelled => -ECONNRESET
    case Error | Stall | TimedOut | Overflow => -EPIPE
    case NoDevice => -ESHUTDOWN
  }

  /** error2trxstat */
  function Error2TrxStat(e: int32): TransferStatus {
    if e == 0 then Completed
    else if e == -ENOENT then Error
    else if e == -ECONNRESET then Cancelled
    else if e == -ETIMEDOUT then TimedOut
    else if e == -EPIPE then Stall
    else if e == -ESHUTDOWN then NoDevice
    else if e == -EOVERFLOW then Overflow
    else Error
  }

  /** Going over the wire keeps four of the seven statuses and turns the other three into a stall;
      the error a reader of the descriptor sees is the same either way. */
  lemma StatusRoundTrip(status: TransferStatus)
    ensures Error2TrxStat(TrxStat2Error(status)) == status <==> status in {Completed, Cancelled, Stall, NoDevice}
    ensures status in {Error, TimedOut, Overflow} ==> Error2TrxStat(TrxStat2Error(status)) == Stall
    ensures TrxStat2Error(Error2TrxStat(TrxStat2Error(status))) == TrxStat2Error(status)
  {
    match status
    case Completed =>
    case Error =>
    case TimedOut =>
    case Cancelled =>
    case Stall =>
    case NoDevice =>
    case Overflow =>
  }

  /** The errors by number: those of a cancelled, a stalled and a lost device; all other failures read as a stall. */
  lemma ErrorNumbers(status: TransferStatus)
    ensures TrxStat2Error(status)
         == if status == Completed then 0 else if status == Cancelled then -104 else if status == NoDevice then -108
            else -32
  {
  }

  /** ... and the statuses that error numbers are read as; all other numbers are read as an error. */
  lemma StatusNumbers(e: int32)
    ensures Error2TrxStat(e) == Completed <==> e == 0
    ensures Error2TrxStat(e) == Cancelled <==> e == -104
    ensures Error2TrxStat(e) == TimedOut <==> e == -110
    ensures Error2TrxStat(e) == Stall <==> e == -32
    ensures Error2TrxStat(e) == NoDevice <==> e == -108
    ensures Error2TrxStat(e) == Overflow <==> e == -75
  {
  }

  /** An error survives being stored as a status exactly when it is one of those replies carry. */
  lemma ErrorRoundTrip(e: int32)
    ensures TrxStat2Error(Error2TrxStat(e)) == e <==> e in {0, -ECONNRESET, -EPIPE, -ESHUTDOWN}
  {
    StatusRoundTrip(Error2TrxStat(e));
  }

  /** fixup_actual_length: the sum as the `int` it is added up in. */
  method FixupActualLength(packets: seq<Packet>) returns (len: int32)
    ensures len == AsInt(SumActual(packets))
  {
    len := 0;
    for i := 0 to |packets|
      invariant len == AsInt(CursorOf(packets, i))
    {
      SumWraps(len, CursorOf(packets, i), packets[i].actualLength);
      len := AsInt(AsWord(len) + packets[i].actualLength);
    }
  }

  lemma SumWraps(len: int32, sum: nat, n: uint32)
    requires len == AsInt(sum)
    ensures AsInt(AsWord(len) + n) == AsInt(sum + n)
  {
    assert (AsWord(len) + n) % TWO_32 == (sum + n) % TWO_32;
  }

  // ----- where the packets are -----

  /** No packet is longer than its place, and the places fit into n bytes. */
  predicate Fits(ps: seq<Packet>, n: nat) {
    && (forall k :: 0 <= k < |ps| ==> ps[k].actualLength <= ps[k].length)
    && OffsetOf(ps, |ps|) <= n
  }

  /** In bounds and disjoint: a packet's data ends within its place, before the next one starts
      and before the buffer ends. */
  lemma {:induction false} PacketsDisjoint(ps: seq<Packet>, n: nat, j: nat, k: nat)
    requires Fits(ps, n) && j < k <= |ps|
    ensures OffsetOf(ps, j) + ps[j].actualLength <= OffsetOf(ps, k) <= n
  {
    if j + 1 < k {
      PacketsDisjoint(ps, n, j, k - 1);
    }
    OffsetWithin(ps, n, k);
  }

  lemma {:induction false} OffsetWithin(ps: seq<Packet>, n: nat, k: nat)
    requires OffsetOf(ps, |ps|) <= n && k <= |ps|
    ensures OffsetOf(ps, k) <= n
    decreases |ps| - k
  {
    if k < |ps| {
      OffsetWithin(ps, n, k + 1);
    }
  }

  function DataOf(buffer: seq<byte>, ps: seq<Packet>, k: nat): (data: seq<byte>)
    requires Fits(ps, |buffer|) && k < |ps|
    ensures |data| == ps[k].actualLength && OffsetOf(ps, k) + |data| <= |buffer|
    ensures data == buffer[OffsetOf(ps, k)..OffsetOf(ps, k) + |data|]
  {
    PacketsDisjoint(ps, |buffer|, k, |ps|);
    buffer[OffsetOf(ps, k)..OffsetOf(ps, k) + ps[k].actualLength]
  }

  /** The data of the first k packets without the padding between them. */
  function Gather(buffer: seq<byte>, ps: seq<Packet>, k: nat): (data: seq<byte>)
    requires Fits(ps, |buffer|) && k <= |ps|
    ensures |data| == CursorOf(ps, k)
  {
    if k == 0 then [] else Gather(buffer, ps, k - 1) + DataOf(buffer, ps, k - 1)
  }

  lemma {:induction false} GatherGrows(buffer: seq<byte>, ps: seq<Packet>, j: nat, k: nat)
    requires Fits(ps, |buffer|) && j <= k <= |ps|
    ensures Gather(buffer, ps, j) <= Gather(buffer, ps, k)
  {
    if j < k {
      GatherGrows(buffer, ps, j, k - 1);
    }
  }

  // ----- descriptors -----

  /** A struct usbip_iso_packet_descriptor, and the order of its members. */
  datatype Descriptor = Descriptor(offset: uint32, length: uint32, actualLength: uint32, status: uint32)
  {
    function Word(k: nat): uint32 {
      if k == 0 then offset else if k == 1 then length else if k == 2 then actualLength else status
    }
  }

  function DescriptorOf(ps: seq<Packet>, k: nat): Descriptor
    requires k < |ps|
  {
    Descriptor(AsWord(OffsetOf(ps, k)), ps[k].length, ps[k].actualLength, AsWord(TrxStat2Error(ps[k].status)))
  }

  function DescriptorsOf(ps: seq<Packet>): (ds: seq<Descriptor>)
    ensures |ds| == |ps|
  {
    seq(|ps|, k requires 0 <= k < |ps| => DescriptorOf(ps, k))
  }

  function DescriptorWords(ds: seq<Descriptor>): (ws: seq<uint32>)
    ensures |ws| == 4 * |ds|
  {
    seq(4 * |ds|, i requires 0 <= i < 4 * |ds| => ds[i / 4].Word(i % 4))
  }

  function EncodeDescriptors(ds: seq<Descriptor>): (b: seq<byte>)
    ensures |b| == DescriptorBytes(|ds|)
  {
    NetBytes(DescriptorWords(ds))
  }

  function DescriptorAt(ws: seq<uint32>, k: nat): Descriptor
    requires 4 * k + 4 <= |ws|
  {
    Descriptor(ws[4 * k], ws[4 * k + 1], ws[4 * k + 2], ws[4 * k + 3])
  }

  function DescriptorsIn(ws: seq<uint32>, np: nat): (ds: seq<Descriptor>)
    requires 4 * np <= |ws|
    ensures |ds| == np
  {
    seq(np, k requires 0 <= k < np => DescriptorAt(ws, k))
  }

  function DecodeDescriptors(b: seq<byte>, np: nat): (ds: seq<Descriptor>)
    requires DescriptorBytes(np) <= |b|
    ensures |ds| == np
  {
    DescriptorsIn(NetWords(b, 4 * np), np)
  }

  lemma DescriptorsInWords(ds: seq<Descriptor>)
    ensures DescriptorsIn(DescriptorWords(ds), |ds|) == ds
  {
  }

  lemma DescriptorRoundTrip(ds: seq<Descriptor>)
    ensures DecodeDescriptors(EncodeDescriptors(ds), |ds|) == ds
  {
    WordsRoundTrip(DescriptorWords(ds));
    DescriptorsInWords(ds);
  }

  /** usbip_alloc_iso_desc_pdu: the offsets are added up in an `int`. */
  method AllocIsoDescPdu(packets: seq<Packet>) returns (pdu: seq<byte>)
    ensures pdu == EncodeDescriptors(DescriptorsOf(packets))
  {
    pdu := [];
    var offset: int32 := 0;
    ghost var ds := DescriptorsOf(packets);
    for i := 0 to |packets|
      invariant offset == AsInt(OffsetOf(packets, i))
      invariant pdu == EncodeDescriptors(ds[..i])
    {
      var d := Descriptor(AsWord(offset), packets[i].length, packets[i].actualLength,
                          AsWord(TrxStat2Error(packets[i].status)));
      EncodeDescriptorsNext(ds, i);
      pdu := pdu + ToNet(d.offset) + ToNet(d.length) + ToNet(d.actualLength) + ToNet(d.status);
      SumWraps(offset, OffsetOf(packets, i), packets[i].length);
      offset := AsInt(AsWord(offset) + packets[i].length);
    }
    assert ds[..|packets|] == ds;
  }

  lemma EncodeDescriptorsNext(ds: seq<Descriptor>, i: nat)
    requires i < |ds|
    ensures EncodeDescriptors(ds[..i + 1]) == EncodeDescriptors(ds[..i])
      + ToNet(ds[i].offset) + ToNet(ds[i].length) + ToNet(ds[i].actualLength) + ToNet(ds[i].status)
  {
    var d := ds[i];
    DescriptorWordsNext(ds, i);
    NetBytesAppend(DescriptorWords(ds[..i]), [d.offset, d.length, d.actualLength, d.status]);
    FourWords(d.offset, d.length, d.actualLength, d.status);
  }

  lemma DescriptorWordsNext(ds: seq<Descriptor>, i: nat)
    requires i < |ds|
    ensures DescriptorWords(ds[..i + 1])
         == DescriptorWords(ds[..i]) + [ds[i].offset, ds[i].length, ds[i].actualLength, ds[i].status]
  {
  }

  lemma FourWords(w0: uint32, w1: uint32, w2: uint32, w3: uint32)
    ensures NetBytes([w0, w1, w2, w3]) == ToNet(w0) + ToNet(w1) + ToNet(w2) + ToNet(w3)
  {
    NetBytesAppend([w0, w1], [w2, w3]);
    NetBytesAppend([w0], [w1]);
    NetBytesAppend([w2], [w3]);
    OneWord(w0);
    OneWord(w1);
    OneWord(w2);
    OneWord(w3);
  }

  lemma OneWord(w: uint32)
    ensures NetBytes([w]) == ToNet(w)
  {
  }

  lemma NetBytesAppend(v: seq<uint32>, w: seq<uint32>)
    ensures NetBytes(v + w) == NetBytes(v) + NetBytes(w)
  {
  }

  // ----- the client's side -----

  function DataBefore(ds: seq<Descriptor>, k: nat): nat
    requires k <= |ds|
  {
    if k == 0 then 0 else DataBefore(ds, k - 1) + ds[k - 1].actualLength
  }

  /** Putting the data of the first k packets back at the offsets of their descriptors. A packet
      that is not there, or has no place, is left out. */
  function Scatter(room: seq<byte>, data: seq<byte>, ds: seq<Descriptor>, k: nat): (b: seq<byte>)
    requires k <= |ds|
    ensures |b| == |room|
  {
    if k == 0 then room else
      var d, cursor := ds[k - 1], DataBefore(ds, k - 1);
      var b := Scatter(room, data, ds, k - 1);
      if d.offset + d.actualLength <= |room| && cursor + d.actualLength <= |data|
      then Place(b, d.offset, data[cursor..cursor + d.actualLength])
      else b
  }

  function Place(b: seq<byte>, at: nat, part: seq<byte>): (r: seq<byte>)
    requires at + |part| <= |b|
    ensures |r| == |b|
    ensures forall i :: 0 <= i < |b| ==> r[i] == if at <= i < at + |part| then part[i - at] else b[i]
  {
    b[..at] + part + b[at + |part|..]
  }

  /** Position i of the buffer holds data of packet k. */
  predicate InPacket(ps: seq<Packet>, k: nat, i: nat)
    requires k < |ps|
  {
    OffsetOf(ps, k) <= i < OffsetOf(ps, k) + ps[k].actualLength
  }

  /** The first k packets of `got` are those of `buffer`; the rest of it is that of `room`. */
  predicate Restored(got: seq<byte>, room: seq<byte>, buffer: seq<byte>, ps: seq<Packet>, k: nat)
    requires |got| == |room| == |buffer| && k <= |ps|
  {
    forall i :: 0 <= i < |room| ==> got[i] == if InSome(ps, k, i) then buffer[i] else room[i]
  }

  predicate InSome(ps: seq<Packet>, k: nat, i: nat)
    requires k <= |ps|
  {
    exists j :: 0 <= j < k && InPacket(ps, j, i)
  }

  lemma {:induction false} DataIsCursor(ps: seq<Packet>, k: nat)
    requires k <= |ps|
    ensures DataBefore(DescriptorsOf(ps), k) == CursorOf(ps, k)
  {
    if k > 0 {
      DataIsCursor(ps, k - 1);
    }
  }

  lemma GatherLast(data: seq<byte>, buffer: seq<byte>, ps: seq<Packet>, k: nat)
    requires Fits(ps, |buffer|) && k < |ps| && Gather(buffer, ps, k + 1) <= data
    ensures CursorOf(ps, k) + ps[k].actualLength <= |data|
    ensures data[CursorOf(ps, k)..CursorOf(ps, k) + ps[k].actualLength] == DataOf(buffer, ps, k)
  {
    EndOfPrefix(Gather(buffer, ps, k), DataOf(buffer, ps, k), data);
  }

  lemma EndOfPrefix(a: seq<byte>, b: seq<byte>, data: seq<byte>)
    requires a + b <= data
    ensures |a| + |b| <= |data| && data[|a|..|a| + |b|] == b
  {
    assert data[|a|..|a| + |b|] == (a + b)[|a|..];
  }

  lemma ScatterOne(room: seq<byte>, data: seq<byte>, ds: seq<Descriptor>, k: nat, at: nat, part: seq<byte>)
    requires k < |ds| && ds[k].offset == at && ds[k].actualLength == |part| && at + |part| <= |room|
    requires DataBefore(ds, k) + |part| <= |data|
    requires data[DataBefore(ds, k)..DataBefore(ds, k) + |part|] == part
    ensures Scatter(room, data, ds, k + 1) == Place(Scatter(room, data, ds, k), at, part)
  {
  }

  function Payload(buffer: seq<byte>, ps: seq<Packet>): (data: seq<byte>)
    requires Fits(ps, |buffer|)
    ensures |data| == SumActual(ps)
  {
    Gather(buffer, ps, |ps|)
  }

  /** Packet k's data in the payload. */
  lemma PayloadAt(buffer: seq<byte>, ps: seq<Packet>, k: nat)
    requires Fits(ps, |buffer|) && k < |ps|
    ensures CursorOf(ps, k) + ps[k].actualLength <= SumActual(ps)
    ensures Payload(buffer, ps)[CursorOf(ps, k)..CursorOf(ps, k) + ps[k].actualLength] == DataOf(buffer, ps, k)
  {
    GatherGrows(buffer, ps, k + 1, |ps|);
    GatherLast(Payload(buffer, ps), buffer, ps, k);
  }

  /** What a receiver has after the first k packets of what is sent for these. */
  function Rebuilt(room: seq<byte>, buffer: seq<byte>, ps: seq<Packet>, k: nat): (b: seq<byte>)
    requires Fits(ps, |buffer|) && k <= |ps|
    ensures |b| == |room|
  {
    Scatter(room, Payload(buffer, ps), DescriptorsOf(ps), k)
  }

  lemma ScatterNext(room: seq<byte>, buffer: seq<byte>, ps: seq<Packet>, k: nat)
    requires Fits(ps, |buffer|) && |buffer| < TWO_32 && |room| == |buffer| && k < |ps|
    ensures Rebuilt(room, buffer, ps, k + 1)
         == Place(Rebuilt(room, buffer, ps, k), OffsetOf(ps, k), DataOf(buffer, ps, k))
  {
    PayloadAt(buffer, ps, k);
    DataIsCursor(ps, k);
    assert DescriptorsOf(ps)[k] == DescriptorOf(ps, k);
    ScatterOne(room, Payload(buffer, ps), DescriptorsOf(ps), k, OffsetOf(ps, k), DataOf(buffer, ps, k));
  }

  lemma RestoredNext(got: seq<byte>, next: seq<byte>, room: seq<byte>, buffer: seq<byte>, ps: seq<Packet>, k: nat)
    requires Fits(ps, |buffer|) && |got| == |room| == |buffer| && k < |ps| && Restored(got, room, buffer, ps, k)
    requires next == Place(got, OffsetOf(ps, k), DataOf(buffer, ps, k))
    ensures Restored(next, room, buffer, ps, k + 1)
  {
    forall i | 0 <= i < |room|
      ensures next[i] == if InSome(ps, k + 1, i) then buffer[i] else room[i]
    {
      InSomeNext(ps, k, i);
      DataAt(buffer, ps, k, i);
    }
  }

  lemma InSomeNext(ps: seq<Packet>, k: nat, i: nat)
    requires k < |ps|
    ensures InSome(ps, k + 1, i) <==> InSome(ps, k, i) || InPacket(ps, k, i)
  {
  }

  lemma DataAt(buffer: seq<byte>, ps: seq<Packet>, k: nat, i: nat)
    requires Fits(ps, |buffer|) && k < |ps|
    ensures InPacket(ps, k, i) ==> i < |buffer| && DataOf(buffer, ps, k)[i - OffsetOf(ps, k)] == buffer[i]
  {
    if InPacket(ps, k, i) {
      var at, data := OffsetOf(ps, k), DataOf(buffer, ps, k);
      assert data[i - at] == buffer[at..at + |data|][i - at];
    }
  }

  /** Scattering what was gathered, at the offsets that were sent, restores every byte of every
      packet and touches no other. */
  lemma {:induction false} ScatterGather(room: seq<byte>, buffer: seq<byte>, ps: seq<Packet>, k: nat)
    requires Fits(ps, |buffer|) && |buffer| < TWO_32 && |room| == |buffer| && k <= |ps|
    ensures Restored(Rebuilt(room, buffer, ps, k), room, buffer, ps, k)
  {
    if k > 0 {
      ScatterGather(room, buffer, ps, k - 1);
      ScatterNext(room, buffer, ps, k - 1);
      RestoredNext(Rebuilt(room, buffer, ps, k - 1), Rebuilt(room, buffer, ps, k), room, buffer, ps, k - 1);
    }
  }

  // ----- the buffer as the packets' places, one after the other -----

  /** One place a packet, of its length. */
  predicate PlacesOf(places: seq<seq<byte>>, ps: seq<Packet>) {
    |places| == |ps| && forall k :: 0 <= k < |ps| ==> |places[k]| == ps[k].length && ps[k].actualLength <= ps[k].length
  }

  function Together(places: seq<seq<byte>>, k: nat): seq<byte>
    requires k <= |places|
  {
    if k == 0 then [] else Together(places, k - 1) + places[k - 1]
  }

  /** What is sent: of each place, as many bytes as were transferred. */
  function Transferred(places: seq<seq<byte>>, ps: seq<Packet>, k: nat): seq<byte>
    requires PlacesOf(places, ps) && k <= |ps|
  {
    if k == 0 then [] else Transferred(places, ps, k - 1) + places[k - 1][..ps[k - 1].actualLength]
  }

  lemma {:induction false} PlaceStarts(places: seq<seq<byte>>, ps: seq<Packet>, k: nat)
    requires PlacesOf(places, ps) && k <= |ps|
    ensures |Together(places, k)| == OffsetOf(ps, k)
  {
    if k > 0 {
      PlaceStarts(places, ps, k - 1);
    }
  }

  lemma {:induction false} PlacesGrow(places: seq<seq<byte>>, j: nat, k: nat)
    requires j <= k <= |places|
    ensures Together(places, j) <= Together(places, k)
  {
    if j < k {
      PlacesGrow(places, j, k - 1);
    }
  }

  lemma PlaceInBuffer(places: seq<seq<byte>>, ps: seq<Packet>, k: nat)
    requires PlacesOf(places, ps) && k < |ps|
    ensures var buffer := Together(places, |places|);
      && Fits(ps, |buffer|) && OffsetOf(ps, k) + ps[k].length <= |buffer|
      && buffer[OffsetOf(ps, k)..OffsetOf(ps, k) + ps[k].length] == places[k]
  {
    PlaceStarts(places, ps, k);
    PlaceStarts(places, ps, |ps|);
    PlacesGrow(places, k + 1, |places|);
    EndOfPrefix(Together(places, k), places[k], Together(places, |places|));
  }

  lemma BeginningOfSlice(b: seq<byte>, at: nat, len: nat, n: nat)
    requires n <= len && at + len <= |b|
    ensures b[at..at + n] == b[at..at + len][..n]
  {
  }

  /** A packet's data is the beginning of its place. */
  lemma DataInPlace(places: seq<seq<byte>>, ps: seq<Packet>, k: nat)
    requires PlacesOf(places, ps) && k < |ps|
    ensures Fits(ps, |Together(places, |places|)|)
    ensures DataOf(Together(places, |places|), ps, k) == places[k][..ps[k].actualLength]
  {
    PlaceInBuffer(places, ps, k);
    BeginningOfSlice(Together(places, |places|), OffsetOf(ps, k), ps[k].length, ps[k].actualLength);
  }

  /** Its descriptor says where its place starts. */
  lemma DescriptorOfPlace(places: seq<seq<byte>>, ps: seq<Packet>, k: nat)
    requires PlacesOf(places, ps) && k < |ps| && |Together(places, |places|)| < TWO_32
    ensures DescriptorsOf(ps)[k].offset == |Together(places, k)|
    ensures DescriptorsOf(ps)[k].length == ps[k].length && DescriptorsOf(ps)[k].actualLength == ps[k].actualLength
  {
    PlaceStarts(places, ps, k);
    PlaceStarts(places, ps, |ps|);
    OffsetWithin(ps, |Together(places, |places|)|, k);
    SentDescriptor(ps, k);
  }

  lemma SmallWord(i: nat)
    requires i < TWO_32
    ensures AsWord(i) == i
  {
  }

  lemma SentDescriptor(ps: seq<Packet>, k: nat)
    requires k < |ps| && OffsetOf(ps, k) < TWO_32
    ensures var d := DescriptorsOf(ps)[k];
      (d.offset, d.length, d.actualLength) == (OffsetOf(ps, k), ps[k].length, ps[k].actualLength)
  {
    SmallWord(OffsetOf(ps, k));
  }

  /** The payload of an isochronous reply is what was transferred into the places, in order. */
  lemma {:induction false} PayloadIsTransferred(places: seq<seq<byte>>, ps: seq<Packet>, k: nat)
    requires PlacesOf(places, ps) && k <= |ps|
    ensures Fits(ps, |Together(places, |places|)|)
    ensures Gather(Together(places, |places|), ps, k) == Transferred(places, ps, k)
  {
    PlaceStarts(places, ps, |ps|);
    if k > 0 {
      PayloadIsTransferred(places, ps, k - 1);
      DataInPlace(places, ps, k - 1);
    }
  }

  // ----- receiving descriptors -----

  /** usbip_pack_iso, unpacking. */
  function PacketOf(d: Descriptor): Packet {
    Packet(d.length, d.actualLength, Error2TrxStat(AsInt(d.status)))
  }

  /** What usbip_recv_iso makes of the descriptors it reads; the offsets are ignored. */
  function Received(ds: seq<Descriptor>): (ps: seq<Packet>)
    ensures |ps| == |ds|
  {
    seq(|ds|, k requires 0 <= k < |ds| => PacketOf(ds[k]))
  }

  /** usbip_recv_iso's verdict on them. */
  predicate Accepted(ds: seq<Descriptor>, actualLength: int32) {
    ds == [] || AsInt(SumActual(Received(ds))) == actualLength
  }

  lemma {:induction false} SameActual(ps: seq<Packet>, qs: seq<Packet>, k: nat)
    requires k <= |ps| == |qs| && forall i :: 0 <= i < k ==> ps[i].actualLength == qs[i].actualLength
    ensures CursorOf(ps, k) == CursorOf(qs, k)
  {
    if k > 0 {
      SameActual(ps, qs, k - 1);
    }
  }

  lemma {:induction false} ReceivedSum(ds: seq<Descriptor>, k: nat)
    requires k <= |ds|
    ensures CursorOf(Received(ds), k) == DataBefore(ds, k)
  {
    if k > 0 {
      ReceivedSum(ds, k - 1);
    }
  }

  /** Descriptors are accepted if and only if there are none, or their actual lengths add up, modulo 2^32, to the actual
      length of the transfer. */
  lemma AcceptedBySum(ds: seq<Descriptor>, actualLength: int32)
    ensures Accepted(ds, actualLength) <==> ds == [] || DataBefore(ds, |ds|) % TWO_32 == actualLength % TWO_32
  {
    ReceivedSum(ds, |ds|);
    AsWordAsInt(actualLength);
  }

  lemma AsWordAsInt(i: int32)
    ensures AsInt(i % TWO_32) == i
  {
  }

  /** The descriptors of any transfer are accepted by a receiver that knows the actual length the
      driver put into the header, and give it the packets with their statuses as far as errors
      tell them apart. */
  lemma DescriptorsAccepted(ps: seq<Packet>)
    ensures var ds := DecodeDescriptors(EncodeDescriptors(DescriptorsOf(ps)), |ps|);
      && Accepted(ds, AsInt(SumActual(ps)))
      && forall k :: 0 <= k < |ps| ==>
           Received(ds)[k] == ps[k].(status := Error2TrxStat(TrxStat2Error(ps[k].status)))
  {
    DescriptorRoundTrip(DescriptorsOf(ps));
    forall k | 0 <= k < |ps|
      ensures Received(DescriptorsOf(ps))[k] == ps[k].(status := Error2TrxStat(TrxStat2Error(ps[k].status)))
    {
      ReceivedAt(ps, k);
    }
    SameActual(ps, Received(DescriptorsOf(ps)), |ps|);
  }

  lemma ReceivedAt(ps: seq<Packet>, k: nat)
    requires k < |ps|
    ensures Received(DescriptorsOf(ps))[k] == ps[k].(status := Error2TrxStat(TrxStat2Error(ps[k].status)))
  {
    assert DescriptorsOf(ps)[k] == DescriptorOf(ps, k);
  }
}
