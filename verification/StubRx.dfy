/** The loops of stub_rx.c over a socket. Each is proved against what CommandStream.dfy says about the
    bytes, so none depends on how they arrive. */
module StubRx {
  import opened Usb
  import opened WireCodec
  import opened IsoTransfers
  import opened Sockets
  import opened CommandStream

  /** usbip_recv_iso */
  method UsbipRecvIso(sock: Socket, np: nat, room: bool) returns (ok: bool, event: bool, packets: seq<Packet>)
    modifies sock
    ensures IsoResult(ok, event, packets, sock.Stream()) == ReceiveIso(old(sock.Stream()), sock.closed, np, room)
  {
    if np == 0 {
      return true, false, [];
    }
    if !room {
      return false, false, [];
    }
    var size := DescriptorBytes(np);
    var ret, data := UsbipRecv(sock, size);
    if ret != size {
      return false, true, [];
    }
    var total;
    packets, total := UnpackIso(DecodeDescriptors(data, np));
    ok, event := total == 0, total != 0;
  }

  /** The loop over the descriptors, which are added up in an `int`. */
  method UnpackIso(ds: seq<Descriptor>) returns (packets: seq<Packet>, total: int32)
    ensures packets == Received(ds) && total == AsInt(SumActual(packets))
  {
    packets, total := [], 0;
    ghost var all := Received(ds);
    for i := 0 to |ds|
      invariant packets == all[..i] && total == AsInt(CursorOf(all, i))
    {
      packets := packets + [PacketOf(ds[i])];
      SumWraps(total, CursorOf(all, i), ds[i].actualLength);
      total := AsInt(AsWord(total) + ds[i].actualLength);
    }
  }

  /** usbip_recv_xbuff into a buffer of zeros. */
  method UsbipRecvXbuff(sock: Socket, size: nat) returns (ret: int, data: seq<byte>, event: bool)
    modifies sock
    ensures PayloadResult(ret, data, event, sock.Stream()) == ReceivePayload(old(sock.Stream()), sock.closed, size)
  {
    if size == 0 {
      return 0, [], false;
    }
    ret, data := UsbipRecv(sock, size);
    event := ret != size;
    if event {
      data := data + Zeros(size - |data|);
    }
  }

  /** stub_recv_cmd_submit */
  method StubRecvCmdSubmit(sock: Socket, env: Env, pdu: SubmitHeader) returns (outcome: Outcome, event: bool)
    modifies sock
    ensures Pdu(outcome, event, sock.Stream()) == ReceiveSubmit(env, pdu, old(sock.Stream()), sock.closed)
  {
    var endpoint := EndpointByte(pdu.ep);
    var t := env.types(endpoint);
    if t > TYPE_MASK {
      return Ignored(pdu.seqnum), false;
    }
    if pdu.direction == DIR_IN {
      endpoint := WithDirIn(endpoint);
    }
    var memory := env.memory(pdu);
    if !memory.entry {
      return Refused(pdu.seqnum), true;
    }
    outcome := Abandoned(pdu.seqnum, pdu.direction % 0x100);
    var np := 0;
    if t == 1 {
      np := pdu.np;
    }
    if !(0 <= np < MAX_PACKETS) || !memory.transfer {
      return outcome, true;
    }
    var setup, length := [], 0;
    if t == 0 {
      setup := pdu.setup;
    }
    if pdu.length > 0 {
      length := pdu.length;
    }
    if |setup| + length > 0 && !memory.buffer {
      return outcome, true;
    }
    var data, ret, ok, packets, failed := Zeros(length), 0, false, [], false;
    event := false;
    if pdu.direction != DIR_IN {
      ret, data, event := UsbipRecvXbuff(sock, length);
      if ret < 0 {
        return outcome, true;
      }
    }
    ok, failed, packets := UsbipRecvIso(sock, np, memory.descriptors);
    event := event || failed;
    if ok {
      outcome := Submitted(
        Submission(pdu.seqnum, pdu.direction % 0x100, endpoint, KindOf(t), pdu.flags, setup + data, packets));
    }
  }

  /** A word of a converted header is the word that was sent, as far as the command has words. */
  lemma ConvertedWord(little: bool, h: seq<byte>, k: nat)
    requires |h| == HEADER_SIZE && k < BASE_WORDS + UnionWords(NetWord(h, 0))
    ensures HostWord(little, CorrectEndian(little, h, false), k) == NetWord(h, k)
  {
    ConvertedCommand(little, h);
    SwappedWord(little, h, BASE_WORDS + UnionWords(NetWord(h, 0)), k);
  }

  lemma SwappedWord(little: bool, h: seq<byte>, n: nat, k: nat)
    requires k < n && 4 * n <= |h|
    ensures HostWord(little, SwapWords(little, h, 0, n), k) == NetWord(h, k)
  {
    SwappedBytes(little, h, n, k);
    assert Reverse4(Reverse4(h[4 * k..4 * k + 4])) == h[4 * k..4 * k + 4];
  }

  lemma MirrorWord(k: nat)
    ensures Mirror(4 * k) == 4 * k + 3 && Mirror(4 * k + 1) == 4 * k + 2
    ensures Mirror(4 * k + 2) == 4 * k + 1 && Mirror(4 * k + 3) == 4 * k
  {
  }

  lemma SwappedBytes(little: bool, h: seq<byte>, n: nat, k: nat)
    requires k < n && 4 * n <= |h|
    ensures SwapWords(little, h, 0, n)[4 * k..4 * k + 4]
         == if little then Reverse4(h[4 * k..4 * k + 4]) else h[4 * k..4 * k + 4]
  {
    var s := SwapWords(little, h, 0, n);
    if little {
      MirrorWord(k);
      assert s[4 * k] == h[4 * k + 3] && s[4 * k + 1] == h[4 * k + 2];
      assert s[4 * k + 2] == h[4 * k + 1] && s[4 * k + 3] == h[4 * k];
    }
  }

  lemma ConvertedCommand(little: bool, h: seq<byte>)
    requires |h| == HEADER_SIZE
    ensures CorrectEndian(little, h, false) == SwapWords(little, h, 0, BASE_WORDS + UnionWords(NetWord(h, 0)))
  {
    SwappedWord(little, h, BASE_WORDS, 0);
  }

  lemma ConvertedSetup(little: bool, h: seq<byte>)
    requires |h| == HEADER_SIZE
    ensures CorrectEndian(little, h, false)[40..48] == h[40..48]
  {
    ConvertedCommand(little, h);
  }

  lemma ConvertedSubmit(little: bool, h: seq<byte>)
    requires |h| == HEADER_SIZE && NetWord(h, 0) == CMD_SUBMIT
    ensures HostSubmitHeader(little, CorrectEndian(little, h, false)) == SubmitHeaderOf(h)
  {
    ConvertedWord(little, h, 1);
    ConvertedWord(little, h, 3);
    ConvertedWord(little, h, 4);
    ConvertedWord(little, h, 5);
    ConvertedWord(little, h, 6);
    ConvertedWord(little, h, 8);
    ConvertedSetup(little, h);
  }

  /** The header in the memory of the host. */
  function HostSubmitHeader(little: bool, h: seq<byte>): SubmitHeader
    requires |h| == HEADER_SIZE
  {
    SubmitHeader(HostWord(little, h, 1), HostWord(little, h, 3), HostWord(little, h, 4), HostWord(little, h, 5),
                 AsInt(HostWord(little, h, 6)), AsInt(HostWord(little, h, 8)), h[40..48])
  }

  /** usbip_header_correct_endian on what was received. */
  method ConvertHeader(little: bool, data: seq<byte>) returns (h: seq<byte>)
    requires |data| == HEADER_SIZE
    ensures h == CorrectEndian(little, data, false)
  {
    var pdu := new byte[HEADER_SIZE](i requires 0 <= i < HEADER_SIZE => data[i]);
    assert pdu[..] == data;
    HeaderCorrectEndian(little, pdu, false);
    h := pdu[..];
  }

  /** stub_rx_pdu */
  method StubRxPdu(sock: Socket, little: bool, env: Env) returns (outcome: Outcome, event: bool)
    modifies sock
    ensures Pdu(outcome, event, sock.Stream()) == ReceivePdu(env, old(sock.Stream()), sock.closed)
  {
    ghost var stream := sock.Stream();
    while true
      invariant ReceivePdu(env, sock.Stream(), sock.closed) == ReceivePdu(env, stream, sock.closed)
      decreases |sock.Stream()|
    {
      var ret, data := UsbipRecv(sock, HEADER_SIZE);
      if ret != HEADER_SIZE {
        return Lost, true;
      }
      var h := ConvertHeader(little, data);
      ConvertedWord(little, data, 0);
      var command := HostWord(little, h, 0);
      if command == NOP {
        continue;
      }
      if command == CMD_UNLINK {
        ConvertedWord(little, data, 1);
        ConvertedWord(little, data, 5);
        return Unlinked(HostWord(little, h, 1), HostWord(little, h, 5)), false;
      } else if command == CMD_SUBMIT {
        ConvertedSubmit(little, data);
        outcome, event := StubRecvCmdSubmit(sock, env, HostSubmitHeader(little, h));
        return;
      } else {
        return Lost, true;
      }
    }
  }

  /** stub_rx_loop. Another thread's event, or the end of the device, may be seen at any of its tests: it is
      seen after `stopAfter` PDUs if the loop comes so far. Until then it handles what the bytes say, whatever the
      pieces in which they arrive and the interruptions between them, on either kind of host. */
  method StubRxLoop(sock: Socket, little: bool, env: Env, stopAfter: nat) returns (handled: seq<Outcome>)
    modifies sock
    ensures var all := Handled(env, old(sock.Stream()), sock.closed);
      handled == if stopAfter < |all| then all[..stopAfter] else all
  {
    handled := [];
    ghost var all := Handled(env, sock.Stream(), sock.closed);
    var event := false;
    while !event && |handled| < stopAfter
      invariant |handled| <= stopAfter
      invariant event ==> handled == all
      invariant !event ==> handled + Handled(env, sock.Stream(), sock.closed) == all
      decreases !event, |sock.Stream()|
    {
      var outcome;
      outcome, event := StubRxPdu(sock, little, env);
      Regrouped(handled, outcome, Handled(env, sock.Stream(), sock.closed));
      handled := handled + [outcome];
    }
    assert !event ==> all[..stopAfter] == handled;
  }

  lemma Regrouped(os: seq<Outcome>, o: Outcome, rest: seq<Outcome>)
    ensures os + ([o] + rest) == os + [o] + rest
  {
  }
}
