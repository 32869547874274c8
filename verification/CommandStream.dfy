/** The commands as bytes: what stub_rx.c makes of a stream, and what a client has to write so that the
    driver takes every command it meant. */
module CommandStream {
  import opened Usb
  import opened WireCodec
  import opened IsoTransfers
  import opened Sockets

  const NOP: uint32 := 0

  /** The largest type stub_get_transfer_type finds; it answers 0xff for an unknown endpoint. */
  const TYPE_MASK: byte := 3

  /** From so many packets on their descriptors have no size in an `int`. */
  const MAX_PACKETS: nat := 0x800_0000

  /** A submit that is ready for libusb. `flags` are the client's. */
  datatype Submission = Submission(seqnum: Seqnum, dir: byte, endpoint: byte, kind: TransferType, flags: uint32,
                                   buffer: seq<byte>, packets: seq<Packet>)

  /** What became of one PDU. For a refused submit there was no memory for an entry; an abandoned one has its
      entry queued and no transfer in libusb. */
  datatype Outcome =
    | Lost
    | Ignored(seqnum: Seqnum)
    | Refused(seqnum: Seqnum)
    | Unlinked(seqnum: Seqnum, target: Seqnum)
    | Submitted(sub: Submission)
    | Abandoned(seqnum: Seqnum, dir: byte)

  /** ... whether an event was raised with it, and what is left to read. */
  datatype Pdu = Pdu(outcome: Outcome, event: bool, rest: seq<byte>)

  function KindOf(t: byte): TransferType
    requires t <= TYPE_MASK
  {
    if t == 0 then Control else if t == 1 then Isochronous else if t == 2 then Bulk else Interrupt
  }

  type Setup = b: seq<byte> | |b| == 8 witness [0, 0, 0, 0, 0, 0, 0, 0]

  /** The words of a struct usbip_header_cmd_submit and its setup packet, in a header as received. */
  datatype SubmitHeader = SubmitHeader(seqnum: Seqnum, direction: uint32, ep: uint32, flags: uint32,
                                       length: int32, np: int32, setup: Setup)

  function SubmitHeaderOf(h: seq<byte>): SubmitHeader
    requires |h| == HEADER_SIZE
  {
    SubmitHeader(NetWord(h, 1), NetWord(h, 3), NetWord(h, 4), NetWord(h, 5),
                 AsInt(NetWord(h, 6)), AsInt(NetWord(h, 8)), h[40..48])
  }

  function EndpointByte(ep: uint32): byte { ep % 0x100 }

  /** endpoint |= USB_DIR_IN */
  function WithDirIn(endpoint: byte): byte { if endpoint < 0x80 then endpoint + 0x80 else endpoint }

  function Zeros(n: nat): (b: seq<byte>)
    ensures |b| == n && forall i :: 0 <= i < n ==> b[i] == 0
  {
    seq(n, i => 0)
  }

  function DataLength(s: SubmitHeader): nat { if s.length > 0 then s.length else 0 }

  /** The descriptors the driver expects after the payload. */
  function Packets(s: SubmitHeader, kind: TransferType): int32 { if kind == Isochronous then s.np else 0 }

  function SubmissionOf(s: SubmitHeader, kind: TransferType, data: seq<byte>, packets: seq<Packet>): Submission {
    Submission(s.seqnum, s.direction % 0x100,
               if s.direction == DIR_IN then WithDirIn(EndpointByte(s.ep)) else EndpointByte(s.ep),
               kind, s.flags, (if kind == Control then s.setup else []) + data, packets)
  }

  /** Which allocations for a submit succeed: of its entry, its transfer, its buffer, and of the room to receive
      its descriptors in. */
  datatype Memory = Memory(entry: bool, transfer: bool, buffer: bool, descriptors: bool)

  /** What the driver does not decide: the types of the endpoints, which stub_get_transfer_type looks up, and
      the memory. */
  datatype Env = Env(types: byte -> byte, memory: SubmitHeader -> Memory)

  function BufferLength(s: SubmitHeader, kind: TransferType): nat {
    (if kind == Control then 8 else 0) + DataLength(s)
  }

  /** The transfer and its buffer can be allocated. */
  predicate CanSetUp(env: Env, s: SubmitHeader, kind: TransferType) {
    && 0 <= Packets(s, kind) < MAX_PACKETS
    && env.memory(s).transfer
    && (BufferLength(s, kind) > 0 ==> env.memory(s).buffer)
  }

  /** usbip_recv_iso: the packets, if the descriptors arrive and add up to nothing. A new transfer has
      an actual length of 0. Without room for the descriptors none are read, and no event is raised. */
  datatype IsoResult = IsoResult(ok: bool, event: bool, packets: seq<Packet>, rest: seq<byte>)

  function ReceiveIso(b: seq<byte>, closed: bool, np: nat, room: bool): IsoResult {
    if np == 0 then IsoResult(true, false, [], b)
    else if !room then IsoResult(false, false, [], b)
    else
      var r := Receive(b, closed, DescriptorBytes(np));
      if r.ret != DescriptorBytes(np) then IsoResult(false, true, [], r.rest)
      else
        var ds := DecodeDescriptors(r.data, np);
        IsoResult(Accepted(ds, 0), !Accepted(ds, 0), Received(ds), r.rest)
  }

  /** usbip_recv_xbuff: the payload, padded with the zeros of a new buffer. At the end of the connection
      an event is raised and what there is counts. */
  datatype PayloadResult = PayloadResult(ret: int, data: seq<byte>, event: bool, rest: seq<byte>)

  function ReceivePayload(b: seq<byte>, closed: bool, n: nat): (p: PayloadResult)
    ensures |p.rest| <= |b|
  {
    if n == 0 then PayloadResult(0, [], false, b)
    else
      var r := Receive(b, closed, n);
      if r.ret == n then PayloadResult(r.ret, r.data, false, r.rest)
      else PayloadResult(r.ret, r.data + Zeros(n - |r.data|), true, r.rest)
  }

  /** stub_recv_cmd_submit */
  function ReceiveSubmit(env: Env, s: SubmitHeader, b: seq<byte>, closed: bool): Pdu {
    var t := env.types(EndpointByte(s.ep));
    var abandoned := Abandoned(s.seqnum, s.direction % 0x100);
    if t > TYPE_MASK then Pdu(Ignored(s.seqnum), false, b)
    else if !env.memory(s).entry then Pdu(Refused(s.seqnum), true, b)
    else if !CanSetUp(env, s, KindOf(t)) then Pdu(abandoned, true, b)
    else
      var p := if s.direction == DIR_IN then PayloadResult(0, Zeros(DataLength(s)), false, b)
               else ReceivePayload(b, closed, DataLength(s));
      if p.ret < 0 then Pdu(abandoned, true, p.rest)
      else
        var iso := ReceiveIso(p.rest, closed, Packets(s, KindOf(t)), env.memory(s).descriptors);
        Pdu(if iso.ok then Submitted(SubmissionOf(s, KindOf(t), p.data, iso.packets)) else abandoned,
            p.event || iso.event, iso.rest)
  }

  /** The switch of stub_rx_pdu. */
  function Dispatch(env: Env, h: seq<byte>, b: seq<byte>, closed: bool): (p: Pdu)
    requires |h| == HEADER_SIZE
    ensures |p.rest| <= |b|
  {
    var cmd := NetWord(h, 0);
    if cmd == CMD_UNLINK then Pdu(Unlinked(NetWord(h, 1), NetWord(h, 5)), false, b)
    else if cmd == CMD_SUBMIT then
      SubmitShortens(env, SubmitHeaderOf(h), b, closed);
      ReceiveSubmit(env, SubmitHeaderOf(h), b, closed)
    else Pdu(Lost, true, b)
  }

  /** stub_rx_pdu: commands that do nothing are passed over. */
  function ReceivePdu(env: Env, b: seq<byte>, closed: bool): (p: Pdu)
    ensures !p.event ==> |p.rest| < |b|
    decreases |b|
  {
    var r := Receive(b, closed, HEADER_SIZE);
    if r.ret != HEADER_SIZE then Pdu(Lost, true, r.rest)
    else if NetWord(r.data, 0) == NOP then ReceivePdu(env, r.rest, closed)
    else Dispatch(env, r.data, r.rest, closed)
  }

  lemma SubmitShortens(env: Env, s: SubmitHeader, b: seq<byte>, closed: bool)
    ensures |ReceiveSubmit(env, s, b, closed).rest| <= |b|
  {
  }

  /** stub_rx_loop, up to the first event of its own. */
  function Handled(env: Env, b: seq<byte>, closed: bool): (os: seq<Outcome>)
    ensures os != []
    decreases |b|
  {
    var p := ReceivePdu(env, b, closed);
    if p.event then [p.outcome] else [p.outcome] + Handled(env, p.rest, closed)
  }
}
