/** What a client writes to have the driver take its commands, and that the driver takes them so. */
module CommandClient {
  import opened Usb
  import opened WireCodec
  import opened IsoTransfers
  import opened Sockets
  import opened CommandStream

  /** `devid`, `startFrame` and `interval` are sent and not looked at. */
  datatype Command =
    | CmdNop(seqnum: Seqnum)
    | CmdUnlink(devid: uint32, seqnum: Seqnum, target: Seqnum)
    | CmdSubmit(devid: uint32, startFrame: uint32, interval: uint32, header: SubmitHeader,
                data: seq<byte>, descriptors: seq<Descriptor>)

  function SubmitWords(c: Command): (ws: seq<uint32>)
    requires c.CmdSubmit?
    ensures |ws| == 10
  {
    var s := c.header;
    [CMD_SUBMIT, s.seqnum, c.devid, s.direction, s.ep, s.flags, AsWord(s.length), c.startFrame, AsWord(s.np),
     c.interval]
  }

  function HeaderBytes(c: Command): (h: seq<byte>)
    ensures |h| == HEADER_SIZE
  {
    match c
    case CmdNop(seqnum) => NetBytes([NOP, seqnum, 0, 0, 0, 0, 0, 0, 0, 0, 0, 0])
    case CmdUnlink(devid, seqnum, target) =>
      NetBytes([CMD_UNLINK, seqnum, devid, 0, 0, target, 0, 0, 0, 0, 0, 0])
    case CmdSubmit(_, _, _, s, _, _) => NetBytes(SubmitWords(c)) + s.setup
  }

  function EncodeCommand(c: Command): (b: seq<byte>)
    ensures |b| >= HEADER_SIZE
  {
    HeaderBytes(c) + if c.CmdSubmit? then c.data + EncodeDescriptors(c.descriptors) else []
  }

  /** A command that carries what its header announces: an OUT payload of the announced length, a
      descriptor a packet, and nothing for an endpoint the device does not have. */
  predicate WellFormed(env: Env, c: Command) {
    c.CmdSubmit? ==>
      var t := env.types(EndpointByte(c.header.ep));
      if t > TYPE_MASK then c.data == [] && c.descriptors == []
      else
        && |c.data| == (if c.header.direction == DIR_IN then 0 else DataLength(c.header))
        && |c.descriptors| == Packets(c.header, KindOf(t)) && |c.descriptors| < MAX_PACKETS
  }

  /** There is room to receive its descriptors. */
  predicate HasRoom(env: Env, c: Command) {
    c.CmdSubmit? && c.descriptors != [] ==> env.memory(c.header).descriptors
  }

  function Data(c: Command): seq<byte>
    requires c.CmdSubmit?
  {
    if c.header.direction == DIR_IN then Zeros(DataLength(c.header)) else c.data
  }

  /** What the driver should make of a command. */
  function OutcomeOf(env: Env, c: Command): Outcome
    requires !c.CmdNop?
  {
    match c
    case CmdUnlink(_, seqnum, target) => Unlinked(seqnum, target)
    case CmdSubmit(_, _, _, s, _, ds) =>
      var t := env.types(EndpointByte(s.ep));
      if t > TYPE_MASK then Ignored(s.seqnum)
      else if !env.memory(s).entry then Refused(s.seqnum)
      else if !CanSetUp(env, s, KindOf(t)) || !Accepted(ds, 0) then Abandoned(s.seqnum, s.direction % 0x100)
      else Submitted(SubmissionOf(s, KindOf(t), Data(c), Received(ds)))
  }

  /** What ends the connection: a lack of memory, and packets that claim to have transferred something already. */
  predicate EndsConnection(env: Env, c: Command) {
    !c.CmdNop? && (OutcomeOf(env, c).Refused? || OutcomeOf(env, c).Abandoned?)
  }

  lemma NetWordInFront(a: seq<byte>, b: seq<byte>, k: nat)
    requires 4 * k + 4 <= |a|
    ensures NetWord(a + b, k) == NetWord(a, k)
  {
    assert (a + b)[4 * k..4 * k + 4] == a[4 * k..4 * k + 4];
  }

  lemma WordInFront(ws: seq<uint32>, b: seq<byte>, k: nat)
    requires k < |ws|
    ensures NetWord(NetBytes(ws) + b, k) == ws[k]
  {
    NetWordInFront(NetBytes(ws), b, k);
    NetWordOfBytes(ws, k);
  }

  lemma HeaderRead(c: Command)
    requires c.CmdSubmit?
    ensures NetWord(HeaderBytes(c), 0) == CMD_SUBMIT
    ensures SubmitHeaderOf(HeaderBytes(c)) == c.header
  {
    var ws, setup := SubmitWords(c), c.header.setup;
    WordInFront(ws, setup, 0);
    WordInFront(ws, setup, 1);
    WordInFront(ws, setup, 3);
    WordInFront(ws, setup, 4);
    WordInFront(ws, setup, 5);
    WordInFront(ws, setup, 6);
    WordInFront(ws, setup, 8);
    assert (NetBytes(ws) + setup)[40..48] == setup;
  }

  lemma ReceiveFront(a: seq<byte>, b: seq<byte>, closed: bool)
    requires a != []
    ensures Receive(a + b, closed, |a|) == Reception(|a|, a, b)
  {
  }

  lemma IsoRead(ds: seq<Descriptor>, rest: seq<byte>, closed: bool)
    ensures ReceiveIso(EncodeDescriptors(ds) + rest, closed, |ds|, true)
         == IsoResult(Accepted(ds, 0), !Accepted(ds, 0), Received(ds), rest)
  {
    if ds != [] {
      ReceiveFront(EncodeDescriptors(ds), rest, closed);
      DescriptorRoundTrip(ds);
    } else {
      assert EncodeDescriptors(ds) + rest == rest;
    }
  }

  lemma PayloadRead(data: seq<byte>, rest: seq<byte>, closed: bool)
    ensures ReceivePayload(data + rest, closed, |data|) == PayloadResult(|data|, data, false, rest)
  {
    if data != [] {
      ReceiveFront(data, rest, closed);
    } else {
      assert data + rest == rest;
    }
  }

  /** The PDU is this command, and where it ends the next one starts. */
  predicate Takes(p: Pdu, env: Env, c: Command, rest: seq<byte>)
    requires !c.CmdNop?
  {
    p.outcome == OutcomeOf(env, c) && p.event == EndsConnection(env, c) && (!p.event ==> p.rest == rest)
  }

  lemma SubmitRead(env: Env, c: Command, rest: seq<byte>, closed: bool)
    requires c.CmdSubmit? && WellFormed(env, c) && HasRoom(env, c)
    ensures var body := c.data + (EncodeDescriptors(c.descriptors) + rest);
      Takes(ReceiveSubmit(env, c.header, body, closed), env, c, rest)
  {
    IsoRead(c.descriptors, rest, closed);
    PayloadRead(c.data, EncodeDescriptors(c.descriptors) + rest, closed);
    if c.data == [] {
      assert c.data + (EncodeDescriptors(c.descriptors) + rest) == EncodeDescriptors(c.descriptors) + rest;
    }
    if c.descriptors == [] {
      assert EncodeDescriptors(c.descriptors) + rest == rest;
    }
  }

  lemma PduRead(env: Env, c: Command, body: seq<byte>, closed: bool)
    requires NetWord(HeaderBytes(c), 0) != NOP
    ensures ReceivePdu(env, HeaderBytes(c) + body, closed) == Dispatch(env, HeaderBytes(c), body, closed)
  {
    ReceiveFront(HeaderBytes(c), body, closed);
  }

  lemma UnlinkRead(c: Command)
    requires c.CmdUnlink?
    ensures NetWord(HeaderBytes(c), 0) == CMD_UNLINK
    ensures NetWord(HeaderBytes(c), 1) == c.seqnum && NetWord(HeaderBytes(c), 5) == c.target
  {
    var ws := [CMD_UNLINK, c.seqnum, c.devid, 0, 0, c.target, 0, 0, 0, 0, 0, 0];
    NetWordOfBytes(ws, 0);
    NetWordOfBytes(ws, 1);
    NetWordOfBytes(ws, 5);
  }

  lemma WordsInFront(ws: seq<uint32>, rest: seq<byte>)
    ensures |NetBytes(ws) + rest| >= 4 * |ws| && NetWords(NetBytes(ws) + rest, |ws|) == ws
  {
    forall k | 0 <= k < |ws| ensures NetWord(NetBytes(ws) + rest, k) == ws[k] {
      WordInFront(ws, rest, k);
    }
  }

  /** The header, word by word, as the protocol numbers them; a submit's ends with the setup packet. */
  lemma CommandWords(c: Command)
    ensures match c
      case CmdNop(n) => EncodeCommand(c) == NetBytes([0, n, 0, 0, 0, 0, 0, 0, 0, 0, 0, 0])
      case CmdUnlink(devid, n, target) =>
        EncodeCommand(c) == NetBytes([2, n, devid, 0, 0, target, 0, 0, 0, 0, 0, 0])
      case CmdSubmit(devid, startFrame, interval, h, _, _) =>
        && NetWords(EncodeCommand(c), 10) == [1, h.seqnum, devid, h.direction, h.ep, h.flags,
                                              AsWord(h.length), startFrame, AsWord(h.np), interval]
        && EncodeCommand(c)[40..48] == h.setup
  {
    match c
    case CmdNop(_) =>
    case CmdUnlink(_, _, _) =>
    case CmdSubmit(_, _, _, h, data, ds) =>
      var rest := data + EncodeDescriptors(ds);
      WordsInFront(SubmitWords(c), h.setup + rest);
      assert EncodeCommand(c) == NetBytes(SubmitWords(c)) + (h.setup + rest);
  }

  /** Whatever follows it, the driver takes a well-formed command as what it says and stops at its end;
      it raises an event exactly for a lack of memory and for packets that do not add up to nothing. */
  lemma CommandRoundTrip(env: Env, c: Command, rest: seq<byte>, closed: bool)
    requires WellFormed(env, c) && HasRoom(env, c) && !c.CmdNop?
    ensures Takes(ReceivePdu(env, EncodeCommand(c) + rest, closed), env, c, rest)
  {
    if c.CmdUnlink? {
      assert EncodeCommand(c) + rest == HeaderBytes(c) + rest;
      UnlinkRead(c);
      PduRead(env, c, rest, closed);
    } else {
      SubmitRoundTrip(env, c, rest, closed);
    }
  }

  lemma SubmitRoundTrip(env: Env, c: Command, rest: seq<byte>, closed: bool)
    requires WellFormed(env, c) && HasRoom(env, c) && c.CmdSubmit?
    ensures Takes(ReceivePdu(env, EncodeCommand(c) + rest, closed), env, c, rest)
  {
    var body := c.data + (EncodeDescriptors(c.descriptors) + rest);
    assert EncodeCommand(c) + rest == HeaderBytes(c) + body;
    HeaderRead(c);
    PduRead(env, c, body, closed);
    SubmitRead(env, c, rest, closed);
  }

  // ----- what a submit comes to, in terms of the command -----

  /** How many bytes a submit asks for. */
  function AskedFor(c: Command): nat
    requires c.CmdSubmit?
  {
    if c.header.length > 0 then c.header.length else 0
  }

  /** The submission says what the command says: its number, flags and direction; the endpoint with bit 0x80 for IN; the
      type that the endpoint has; the setup packet of a control transfer and then the data, or room for it; and
      the packets. */
  predicate Carries(env: Env, c: Command, sub: Submission)
    requires c.CmdSubmit?
  {
    var h, t := c.header, env.types(c.header.ep % 0x100);
    var skip := if t == 0 then 8 else 0;
    && sub.seqnum == h.seqnum && sub.flags == h.flags
    && sub.dir == h.direction % 0x100 && (h.direction < 2 ==> (sub.dir == DIR_IN <==> h.direction == 1))
    && sub.endpoint % 0x80 == h.ep % 0x80
    && (sub.endpoint >= 0x80 <==> h.direction == 1 || h.ep % 0x100 >= 0x80)
    && (sub.kind == Control <==> t == 0) && (sub.kind == Isochronous <==> t == 1)
    && (sub.kind == Bulk <==> t == 2) && (sub.kind == Interrupt <==> t == 3)
    && |sub.buffer| == skip + AskedFor(c)
    && (t == 0 ==> sub.buffer[..skip] == h.setup)
    && (if h.direction == 1 then forall i :: skip <= i < |sub.buffer| ==> sub.buffer[i] == 0
        else sub.buffer[skip..] == c.data)
    && |sub.packets| == |c.descriptors|
    && (forall k :: 0 <= k < |sub.packets| ==>
         && sub.packets[k].length == c.descriptors[k].length
         && sub.packets[k].actualLength == c.descriptors[k].actualLength)
  }

  lemma OutcomeCarries(env: Env, c: Command)
    requires c.CmdSubmit? && WellFormed(env, c) && OutcomeOf(env, c).Submitted?
    ensures Carries(env, c, OutcomeOf(env, c).sub)
  {
    var s := c.header;
    assert EndpointByte(s.ep) == s.ep % 0x100;
    assert Data(c) == if s.direction == 1 then Zeros(AskedFor(c)) else c.data;
    var sub := OutcomeOf(env, c).sub;
    if env.types(s.ep % 0x100) == 0 {
      assert sub.buffer[..8] == s.setup && sub.buffer[8..] == Data(c);
    } else {
      assert sub.buffer == Data(c) && sub.buffer[0..] == Data(c);
    }
  }

  /** Whatever follows it, a well-formed submit that reaches libusb does so as the client wrote it. */
  lemma SubmitCarried(env: Env, c: Command, rest: seq<byte>, closed: bool)
    requires c.CmdSubmit? && WellFormed(env, c) && HasRoom(env, c)
    requires ReceivePdu(env, EncodeCommand(c) + rest, closed).outcome.Submitted?
    ensures Carries(env, c, ReceivePdu(env, EncodeCommand(c) + rest, closed).outcome.sub)
  {
    CommandRoundTrip(env, c, rest, closed);
    OutcomeCarries(env, c);
  }

  /** No endpoint; no entry; no transfer or buffer, or the wrong sum of actual lengths; or libusb. */
  predicate Becomes(env: Env, c: Command, o: Outcome)
    requires c.CmdSubmit?
  {
    var h, t, m := c.header, env.types(c.header.ep % 0x100), env.memory(c.header);
    if t > 3 then o == Ignored(h.seqnum)
    else if !m.entry then o == Refused(h.seqnum)
    else if !m.transfer || ((t == 0 || h.length > 0) && !m.buffer)
            || DataBefore(c.descriptors, |c.descriptors|) % TWO_32 != 0
    then o == Abandoned(h.seqnum, h.direction % 0x100)
    else o.Submitted?
  }

  lemma OutcomeBecomes(env: Env, c: Command)
    requires c.CmdSubmit? && WellFormed(env, c)
    ensures Becomes(env, c, OutcomeOf(env, c))
  {
    AcceptedBySum(c.descriptors, 0);
    assert EndpointByte(c.header.ep) == c.header.ep % 0x100;
  }

  /** What becomes of a well-formed submit. An event goes with what is given up. */
  lemma SubmitOutcome(env: Env, c: Command, rest: seq<byte>, closed: bool)
    requires c.CmdSubmit? && WellFormed(env, c) && HasRoom(env, c)
    ensures var p := ReceivePdu(env, EncodeCommand(c) + rest, closed);
      Becomes(env, c, p.outcome) && (p.event <==> p.outcome.Refused? || p.outcome.Abandoned?)
  {
    CommandRoundTrip(env, c, rest, closed);
    OutcomeBecomes(env, c);
  }

  /** Without room for its descriptors a submit is abandoned without an event, and what it left unread is
      taken for the next command. */
  lemma DescriptorsUnread(env: Env, c: Command, rest: seq<byte>, closed: bool)
    requires c.CmdSubmit? && WellFormed(env, c) && !HasRoom(env, c)
    requires env.memory(c.header).entry && CanSetUp(env, c.header, Isochronous)
    ensures ReceivePdu(env, EncodeCommand(c) + rest, closed)
         == Pdu(Abandoned(c.header.seqnum, c.header.direction % 0x100), false, EncodeDescriptors(c.descriptors) + rest)
  {
    var body := EncodeDescriptors(c.descriptors) + rest;
    assert EncodeCommand(c) + rest == HeaderBytes(c) + (c.data + body);
    HeaderRead(c);
    PduRead(env, c, c.data + body, closed);
    PayloadRead(c.data, body, closed);
    if c.data == [] {
      assert c.data + body == body;
    }
  }

  /** Out of memory before anything but the header is read, there is an event. */
  lemma NotSetUp(env: Env, c: Command, rest: seq<byte>, closed: bool)
    requires c.CmdSubmit? && WellFormed(env, c) && !HasRoom(env, c)
    requires !(env.memory(c.header).entry && CanSetUp(env, c.header, Isochronous))
    ensures ReceivePdu(env, EncodeCommand(c) + rest, closed).event
  {
    var body := c.data + EncodeDescriptors(c.descriptors) + rest;
    assert EncodeCommand(c) + rest == HeaderBytes(c) + body;
    HeaderRead(c);
    PduRead(env, c, body, closed);
  }

  /** A well-formed submit is given up without an event if and only if there is no room for its descriptors, and
      memory for all else. */
  lemma GivenUpSilently(env: Env, c: Command, rest: seq<byte>, closed: bool)
    requires c.CmdSubmit? && WellFormed(env, c)
    ensures var p := ReceivePdu(env, EncodeCommand(c) + rest, closed);
      (p.outcome.Abandoned? || p.outcome.Refused?) && !p.event
      <==> !HasRoom(env, c) && env.memory(c.header).entry && CanSetUp(env, c.header, Isochronous)
  {
    if HasRoom(env, c) {
      CommandRoundTrip(env, c, rest, closed);
    } else if env.memory(c.header).entry && CanSetUp(env, c.header, Isochronous) {
      DescriptorsUnread(env, c, rest, closed);
    } else {
      NotSetUp(env, c, rest, closed);
    }
  }

  /** One packet on an isochronous endpoint, and no room for its descriptor. */
  const NO_ROOM := Env((ep: byte) => 1 as byte, (s: SubmitHeader) => Memory(true, true, true, false))
  const ONE_PACKET := CmdSubmit(0, 0, 0, SubmitHeader(1, 1, 1, 0, 0, 1, [0, 0, 0, 0, 0, 0, 0, 0]), [],
                                [Descriptor(0, 0, 0, 0)])

  lemma OnePacketHasNoRoom()
    ensures WellFormed(NO_ROOM, ONE_PACKET) && !HasRoom(NO_ROOM, ONE_PACKET)
    ensures NO_ROOM.memory(ONE_PACKET.header).entry && CanSetUp(NO_ROOM, ONE_PACKET.header, Isochronous)
  {
  }

  lemma TooShort(env: Env, b: seq<byte>)
    requires |b| < HEADER_SIZE
    ensures Handled(env, b, true) == [Lost]
  {
  }

  /** One or two descriptors that are left in the stream are read as a header that never ends. */
  lemma GivenUpThenLost(env: Env, c: Command)
    requires c.CmdSubmit? && WellFormed(env, c) && !HasRoom(env, c) && |c.descriptors| < 3
    requires env.memory(c.header).entry && CanSetUp(env, c.header, Isochronous)
    ensures Handled(env, EncodeCommand(c), true) == [Abandoned(c.header.seqnum, c.header.direction % 0x100), Lost]
  {
    DescriptorsUnread(env, c, [], true);
    assert EncodeCommand(c) + [] == EncodeCommand(c);
    assert EncodeDescriptors(c.descriptors) + [] == EncodeDescriptors(c.descriptors);
    TooShort(env, EncodeDescriptors(c.descriptors));
  }

  /** So it is with this one: given up without an event. */
  lemma OnePacketIsLost() returns (env: Env, c: Command)
    ensures env == NO_ROOM && c == ONE_PACKET && WellFormed(env, c)
    ensures Handled(env, EncodeCommand(c), true) == [Abandoned(c.header.seqnum, c.header.direction % 0x100), Lost]
  {
    env, c := NO_ROOM, ONE_PACKET;
    OnePacketHasNoRoom();
    GivenUpThenLost(env, c);
  }

  /** A NOP is as if it had not been sent. */
  lemma NopRoundTrip(env: Env, c: Command, rest: seq<byte>, closed: bool)
    requires c.CmdNop?
    ensures ReceivePdu(env, EncodeCommand(c) + rest, closed) == ReceivePdu(env, rest, closed)
  {
    var h := HeaderBytes(c);
    assert EncodeCommand(c) + rest == h + rest;
    ReceiveFront(h, rest, closed);
    NetWordOfBytes([NOP, c.seqnum, 0, 0, 0, 0, 0, 0, 0, 0, 0, 0], 0);
  }

  function EncodeCommands(cs: seq<Command>): seq<byte>
  {
    if cs == [] then [] else EncodeCommand(cs[0]) + EncodeCommands(cs[1..])
  }

  /** What the driver takes: the commands in order, up to one that ends the connection. */
  function Taken(env: Env, cs: seq<Command>): seq<Outcome> {
    if cs == [] then []
    else if cs[0].CmdNop? then Taken(env, cs[1..])
    else [OutcomeOf(env, cs[0])] + if EndsConnection(env, cs[0]) then [] else Taken(env, cs[1..])
  }

  predicate GaveUp(os: seq<Outcome>) {
    os != [] && (os[|os| - 1].Refused? || os[|os| - 1].Abandoned?)
  }

  lemma CommandHandled(env: Env, c: Command, rest: seq<byte>, closed: bool)
    requires WellFormed(env, c) && HasRoom(env, c)
    ensures Handled(env, EncodeCommand(c) + rest, closed)
         == if c.CmdNop? then Handled(env, rest, closed)
            else [OutcomeOf(env, c)] + if EndsConnection(env, c) then [] else Handled(env, rest, closed)
  {
    if c.CmdNop? {
      NopRoundTrip(env, c, rest, closed);
    } else {
      CommandRoundTrip(env, c, rest, closed);
    }
  }

  /** What is handled in all: at the end of the stream the header is lost. */
  function WithEnd(os: seq<Outcome>): seq<Outcome> { if GaveUp(os) then os else os + [Lost] }

  lemma TakenNext(env: Env, cs: seq<Command>)
    requires cs != []
    ensures WithEnd(Taken(env, cs))
         == if cs[0].CmdNop? then WithEnd(Taken(env, cs[1..]))
            else [OutcomeOf(env, cs[0])] + if EndsConnection(env, cs[0]) then [] else WithEnd(Taken(env, cs[1..]))
  {
    if !cs[0].CmdNop? && !EndsConnection(env, cs[0]) {
      var os := Taken(env, cs[1..]);
      assert os != [] ==> ([OutcomeOf(env, cs[0])] + os)[|os|] == os[|os| - 1];
    }
  }

  /** For any commands, in any number, with NOPs anywhere between them; then comes the end of the stream. */
  lemma {:induction false} CommandsRoundTrip(env: Env, cs: seq<Command>, closed: bool)
    requires forall i :: 0 <= i < |cs| ==> WellFormed(env, cs[i]) && HasRoom(env, cs[i])
    ensures Handled(env, EncodeCommands(cs), closed) == WithEnd(Taken(env, cs))
  {
    if cs != [] {
      CommandsRoundTrip(env, cs[1..], closed);
      CommandHandled(env, cs[0], EncodeCommands(cs[1..]), closed);
      TakenNext(env, cs);
    }
  }

  /** A connection closed inside an OUT payload is no failure to the driver: it raises an event and still
      submits what it has, padded with zeros; only descriptors that are missing stop it. */
  lemma CutShort(env: Env, c: Command, k: nat, closed: bool)
    requires c.CmdSubmit? && WellFormed(env, c) && env.types(EndpointByte(c.header.ep)) <= TYPE_MASK
    requires env.memory(c.header).entry && CanSetUp(env, c.header, KindOf(env.types(EndpointByte(c.header.ep))))
    requires k < |c.data|
    ensures var padded := c.data[..k] + Zeros(|c.data| - k);
      var kind := KindOf(env.types(EndpointByte(c.header.ep)));
      Handled(env, HeaderBytes(c) + c.data[..k], closed)
        == if closed && c.descriptors == [] then [Submitted(SubmissionOf(c.header, kind, padded, []))]
           else [Abandoned(c.header.seqnum, c.header.direction % 0x100)]
  {
    HeaderRead(c);
    PduRead(env, c, c.data[..k], closed);
    SubmitCutShort(env, c, k, closed);
  }

  lemma SubmitCutShort(env: Env, c: Command, k: nat, closed: bool)
    requires c.CmdSubmit? && WellFormed(env, c) && env.types(EndpointByte(c.header.ep)) <= TYPE_MASK
    requires env.memory(c.header).entry && CanSetUp(env, c.header, KindOf(env.types(EndpointByte(c.header.ep))))
    requires k < |c.data|
    ensures var padded := c.data[..k] + Zeros(|c.data| - k);
      var kind := KindOf(env.types(EndpointByte(c.header.ep)));
      ReceiveSubmit(env, c.header, c.data[..k], closed)
        == Pdu(if closed && c.descriptors == [] then Submitted(SubmissionOf(c.header, kind, padded, []))
               else Abandoned(c.header.seqnum, c.header.direction % 0x100), true, [])
  {
    assert ReceivePayload(c.data[..k], closed, |c.data|)
        == PayloadResult(if closed then 0 else -1, c.data[..k] + Zeros(|c.data| - k), true, []);
    NothingLeft(closed, |c.descriptors|, env.memory(c.header).descriptors);
  }

  lemma NothingLeft(closed: bool, np: nat, room: bool)
    ensures ReceiveIso([], closed, np, room) == IsoResult(np == 0, np != 0 && room, [], [])
  {
  }
}
