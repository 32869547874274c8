/** The replies as bytes: what stub_tx.c writes for one queue entry, and what a client that remembers its
    requests reads out of any number of them. */
module ReplyStream {
  import opened Usb
  import opened WireCodec
  import opened IsoTransfers
  import opened UrbQueues
  import opened UrbProtocol

  /** The bytes of the setup packet in front of the data of a control transfer. */
  function SetupSize(kind: TransferType): nat { if kind == Control then 8 else 0 }

  /** trx->actual_length when the header is packed: fixup_actual_length has been there. */
  function ActualLength(trx: Transfer): int32
    requires trx.Transfer?
  {
    if trx.kind == Isochronous then AsInt(SumActual(trx.packets)) else trx.actualLength
  }

  /** setup_ret_submit_pdu */
  function SubmitWords(p: Priv): (ws: seq<uint32>)
    requires p.trx.Transfer?
    ensures Padded(ws)
  {
    [RET_SUBMIT, p.seqnum, 0, 0, 0, AsWord(TrxStat2Error(p.trx.status)), AsWord(ActualLength(p.trx)), 0,
     AsWord(|p.trx.packets|), 0, 0, 0]
  }

  /** setup_ret_unlink_pdu */
  function UnlinkWords(u: Unlink): (ws: seq<uint32>)
    ensures Padded(ws)
  {
    [RET_UNLINK, u.seqnum, 0, 0, 0, AsWord(TrxStat2Error(u.status)), 0, 0, 0, 0, 0, 0]
  }

  /** What libusb answers for of a transfer it has completed: sizes a C `int` holds, and no more data than
      the buffer has room for. The packets of an isochronous one are as the client laid them out. */
  predicate Sendable(p: Priv) {
    && p.trx.Transfer? && |p.trx.buffer| < TWO_31 && |p.trx.packets| < TWO_31
    && (p.dir == DIR_IN ==>
         if p.trx.kind == Isochronous then Fits(p.trx.packets, |p.trx.buffer|)
         else p.trx.actualLength > 0 ==> SetupSize(p.trx.kind) + p.trx.actualLength <= |p.trx.buffer|)
  }

  function SubmitPayload(p: Priv): (b: seq<byte>)
    requires Sendable(p)
    ensures |b| == PayloadSize(p)
    ensures |b| == if p.dir == DIR_IN && ActualLength(p.trx) > 0 then ActualLength(p.trx) else 0
  {
    if p.dir != DIR_IN then []
    else if p.trx.kind == Isochronous then
      ActualFits(p.trx.packets, |p.trx.buffer|, |p.trx.packets|);
      Payload(p.trx.buffer, p.trx.packets)
    else if p.trx.actualLength > 0 then
      var at := SetupSize(p.trx.kind);
      p.trx.buffer[at..at + p.trx.actualLength]
    else []
  }

  lemma {:induction false} ActualFits(ps: seq<Packet>, n: nat, k: nat)
    requires Fits(ps, n) && k <= |ps|
    ensures CursorOf(ps, k) <= OffsetOf(ps, k) <= n
  {
    if k > 0 {
      ActualFits(ps, n, k - 1);
    }
    OffsetWithin(ps, n, k);
  }

  function SubmitDescriptors(p: Priv): (ds: seq<Descriptor>)
    requires p.trx.Transfer?
  {
    if p.trx.kind == Isochronous then DescriptorsOf(p.trx.packets) else []
  }

  predicate CanEncode(r: Reply) { r.RetSubmit? ==> Sendable(r.priv) }

  function Encode(r: Reply): (b: seq<byte>)
    requires CanEncode(r)
    ensures |b| == if r.RetSubmit? then RetSubmitSize(r.priv) else HEADER_SIZE
  {
    match r
    case RetSubmit(p) =>
      NetBytes(SubmitWords(p)) + SubmitPayload(p) + EncodeDescriptors(SubmitDescriptors(p))
    case RetUnlink(u) => NetBytes(UnlinkWords(u))
  }

  predicate CanEncodeAll(rs: seq<Reply>) {
    forall i :: 0 <= i < |rs| ==> CanEncode(rs[i])
  }

  function EncodeAll(rs: seq<Reply>): seq<byte>
    requires CanEncodeAll(rs)
  {
    if rs == [] then [] else Encode(rs[0]) + EncodeAll(rs[1..])
  }

  // ----- the client -----

  /** What a client remembers of a submit, and what a reply tells it. */
  datatype Request = Request(isIn: bool, iso: bool, np: nat)

  datatype Answer =
    | Submitted(seqnum: Seqnum, status: int32, actualLength: int32, packets: int32,
                payload: seq<byte>, descriptors: seq<Descriptor>)
    | Unlinked(seqnum: Seqnum, status: int32)

  function RequestOf(p: Priv): Request
    requires p.trx.Transfer?
  {
    Request(p.dir == DIR_IN, p.trx.kind == Isochronous, |p.trx.packets|)
  }

  function AnswerOf(r: Reply): Answer
    requires CanEncode(r)
  {
    match r
    case RetSubmit(p) =>
      Submitted(p.seqnum, TrxStat2Error(p.trx.status), ActualLength(p.trx), |p.trx.packets|,
                SubmitPayload(p), SubmitDescriptors(p))
    case RetUnlink(u) => Unlinked(u.seqnum, TrxStat2Error(u.status))
  }

  /** How many bytes follow a header: the payload and the descriptors. */
  function PayloadBytes(e: Request, actualLength: int32): nat {
    if e.isIn && actualLength > 0 then actualLength else 0
  }

  function PacketCount(e: Request): nat { if e.iso then e.np else 0 }

  /** Reads one reply off the front; the second part of the result is where the next one starts. */
  function DecodeOne(known: map<Seqnum, Request>, b: seq<byte>): (r: Option<(Answer, nat)>)
    ensures r.Some? ==> HEADER_SIZE <= r.value.1 <= |b|
  {
    if |b| < HEADER_SIZE then None
    else DecodeBody(known, NetWords(b, HEADER_WORDS), b[HEADER_SIZE..])
  }

  function DecodeBody(known: map<Seqnum, Request>, ws: seq<uint32>, body: seq<byte>): (r: Option<(Answer, nat)>)
    requires |ws| == HEADER_WORDS
    ensures r.Some? ==> HEADER_SIZE <= r.value.1 <= HEADER_SIZE + |body|
  {
    if ws[0] == RET_UNLINK then Some((Unlinked(ws[1], AsInt(ws[5])), HEADER_SIZE))
    else if ws[0] == RET_SUBMIT && ws[1] in known then
      var e := known[ws[1]];
      var n, np := PayloadBytes(e, AsInt(ws[6])), PacketCount(e);
      if |body| < n + DescriptorBytes(np) then None
      else
        Some((Submitted(ws[1], AsInt(ws[5]), AsInt(ws[6]), AsInt(ws[8]), body[..n], DecodeDescriptors(body[n..], np)),
              HEADER_SIZE + n + DescriptorBytes(np)))
    else None
  }

  function Decode(known: map<Seqnum, Request>, b: seq<byte>): Option<seq<Answer>> {
    if b == [] then Some([]) else
      match DecodeOne(known, b)
      case None => None
      case Some((answer, next)) =>
        match Decode(known, b[next..])
        case None => None
        case Some(answers) => Some([answer] + answers)
  }

  predicate Expected(known: map<Seqnum, Request>, r: Reply)
    requires CanEncode(r)
  {
    r.RetSubmit? ==> r.priv.seqnum in known && known[r.priv.seqnum] == RequestOf(r.priv)
  }

  lemma HeaderWordsRead(ws: seq<uint32>, rest: seq<byte>)
    requires |ws| == HEADER_WORDS
    ensures NetWords(NetBytes(ws) + rest, HEADER_WORDS) == ws
    ensures (NetBytes(ws) + rest)[HEADER_SIZE..] == rest
  {
    WordsRoundTrip(ws);
    forall k | 0 <= k < HEADER_WORDS ensures NetWord(NetBytes(ws) + rest, k) == NetWord(NetBytes(ws), k) {
      assert (NetBytes(ws) + rest)[4 * k..4 * k + 4] == NetBytes(ws)[4 * k..4 * k + 4];
    }
  }

  lemma SubmitRead(known: map<Seqnum, Request>, p: Priv, rest: seq<byte>)
    requires Sendable(p) && Expected(known, RetSubmit(p))
    ensures var body := SubmitPayload(p) + (EncodeDescriptors(SubmitDescriptors(p)) + rest);
      DecodeBody(known, SubmitWords(p), body) == Some((AnswerOf(RetSubmit(p)), RetSubmitSize(p)))
  {
    var ds := SubmitDescriptors(p);
    var tail := EncodeDescriptors(ds) + rest;
    assert (SubmitPayload(p) + tail)[..|SubmitPayload(p)|] == SubmitPayload(p);
    assert (SubmitPayload(p) + tail)[|SubmitPayload(p)|..] == tail;
    DescriptorsRead(ds, rest);
  }

  lemma DescriptorsRead(ds: seq<Descriptor>, rest: seq<byte>)
    ensures DecodeDescriptors(EncodeDescriptors(ds) + rest, |ds|) == ds
  {
    DescriptorRoundTrip(ds);
    var b := EncodeDescriptors(ds);
    forall k | 0 <= k < 4 * |ds| ensures NetWord(b + rest, k) == NetWord(b, k) {
      assert (b + rest)[4 * k..4 * k + 4] == b[4 * k..4 * k + 4];
    }
    assert NetWords(b + rest, 4 * |ds|) == NetWords(b, 4 * |ds|);
  }

  lemma DecodeFrom(known: map<Seqnum, Request>, ws: seq<uint32>, body: seq<byte>)
    requires |ws| == HEADER_WORDS
    ensures DecodeOne(known, NetBytes(ws) + body) == DecodeBody(known, ws, body)
  {
    HeaderWordsRead(ws, body);
  }

  /** Whatever follows it, a reply is read back as what it says and the reader stops at its end. */
  lemma ReplyRoundTrip(known: map<Seqnum, Request>, r: Reply, rest: seq<byte>)
    requires CanEncode(r) && Expected(known, r)
    ensures DecodeOne(known, Encode(r) + rest) == Some((AnswerOf(r), |Encode(r)|))
  {
    if r.RetUnlink? {
      DecodeFrom(known, UnlinkWords(r.unlink), rest);
    } else {
      SubmitRoundTrip(known, r.priv, rest);
    }
  }

  lemma SubmitRoundTrip(known: map<Seqnum, Request>, p: Priv, rest: seq<byte>)
    requires Sendable(p) && Expected(known, RetSubmit(p))
    ensures DecodeOne(known, Encode(RetSubmit(p)) + rest) == Some((AnswerOf(RetSubmit(p)), RetSubmitSize(p)))
  {
    var payload, ds := SubmitPayload(p), EncodeDescriptors(SubmitDescriptors(p));
    Regroup(NetBytes(SubmitWords(p)), payload, ds, rest);
    DecodeFrom(known, SubmitWords(p), payload + (ds + rest));
    SubmitRead(known, p, rest);
  }

  function AnswersOf(rs: seq<Reply>): (a: seq<Answer>)
    requires CanEncodeAll(rs)
    ensures |a| == |rs| && forall i :: 0 <= i < |rs| ==> a[i] == AnswerOf(rs[i])
  {
    if rs == [] then [] else [AnswerOf(rs[0])] + AnswersOf(rs[1..])
  }

  /** The reply stream is uniquely decodable: a client that remembers its requests gets back exactly the
      replies, from any number of them written one after the other. */
  lemma {:induction false} StreamRoundTrip(known: map<Seqnum, Request>, rs: seq<Reply>)
    requires CanEncodeAll(rs) && forall i :: 0 <= i < |rs| ==> Expected(known, rs[i])
    ensures Decode(known, EncodeAll(rs)) == Some(AnswersOf(rs))
  {
    if rs != [] {
      StreamRoundTrip(known, rs[1..]);
      ReplyRoundTrip(known, rs[0], EncodeAll(rs[1..]));
      DecodeNext(known, Encode(rs[0]), EncodeAll(rs[1..]));
    }
  }

  lemma DecodeNext(known: map<Seqnum, Request>, b: seq<byte>, rest: seq<byte>)
    requires DecodeOne(known, b + rest).Some? && DecodeOne(known, b + rest).value.1 == |b|
    requires Decode(known, rest).Some?
    ensures Decode(known, b + rest) == Some([DecodeOne(known, b + rest).value.0] + Decode(known, rest).value)
  {
    assert (b + rest)[|b|..] == rest;
  }

  // ----- what a reply tells the client, in terms of the transfer -----

  /** The header, word by word, as the protocol numbers them. */
  lemma ReplyWords(r: Reply)
    requires CanEncode(r)
    ensures |Encode(r)| >= 48 && NetWords(Encode(r), 12) ==
      match r
      case RetSubmit(p) =>
        [3, p.seqnum, 0, 0, 0, AsWord(TrxStat2Error(p.trx.status)), AsWord(ActualLength(p.trx)), 0,
         AsWord(|p.trx.packets|), 0, 0, 0]
      case RetUnlink(u) => [4, u.seqnum, 0, 0, 0, AsWord(TrxStat2Error(u.status)), 0, 0, 0, 0, 0, 0]
  {
    match r
    case RetUnlink(u) => WordsRoundTrip(UnlinkWords(u));
    case RetSubmit(p) =>
      var rest := SubmitPayload(p) + EncodeDescriptors(SubmitDescriptors(p));
      assert Encode(r) == NetBytes(SubmitWords(p)) + rest;
      HeaderWordsRead(SubmitWords(p), rest);
  }

  /** The number, the error and the sizes. */
  lemma AnswerTells(known: map<Seqnum, Request>, p: Priv, rest: seq<byte>)
    requires Sendable(p) && Expected(known, RetSubmit(p))
    ensures DecodeOne(known, Encode(RetSubmit(p)) + rest).Some?
    ensures var a := DecodeOne(known, Encode(RetSubmit(p)) + rest).value.0;
      && a.Submitted? && a.seqnum == p.seqnum && a.status == TrxStat2Error(p.trx.status)
      && (p.trx.kind != Isochronous ==> a.actualLength == p.trx.actualLength && a.descriptors == [])
      && (p.trx.kind == Isochronous ==>
           && a.actualLength % TWO_32 == SumActual(p.trx.packets) % TWO_32
           && a.descriptors == DescriptorsOf(p.trx.packets))
      && (p.dir != DIR_IN ==> a.payload == [])
  {
    ReplyRoundTrip(known, RetSubmit(p), rest);
  }

  /** An IN reply that is not isochronous brings the data of the transfer: of a control transfer, what lies behind the 8
      bytes of the setup packet; of another, the buffer from its start. */
  lemma PayloadIsData(known: map<Seqnum, Request>, p: Priv, rest: seq<byte>, front: seq<byte>, data: seq<byte>)
    requires Sendable(p) && Expected(known, RetSubmit(p))
    requires p.dir == DIR_IN && p.trx.kind != Isochronous
    requires p.trx.buffer == front + data && |front| == if p.trx.kind == Control then 8 else 0
    ensures DecodeOne(known, Encode(RetSubmit(p)) + rest).Some?
    ensures p.trx.actualLength <= |data|
    ensures DecodeOne(known, Encode(RetSubmit(p)) + rest).value.0.payload
         == if p.trx.actualLength > 0 then data[..p.trx.actualLength] else []
  {
    ReplyRoundTrip(known, RetSubmit(p), rest);
    if p.trx.actualLength > 0 {
      BehindFront(front, data, p.trx.actualLength);
    }
  }

  lemma BehindFront(front: seq<byte>, data: seq<byte>, n: nat)
    requires n <= |data|
    ensures (front + data)[|front|..|front| + n] == data[..n]
  {
  }

  /** An isochronous one brings what was transferred into the places of the packets, without the padding. */
  lemma PayloadIsPackets(known: map<Seqnum, Request>, p: Priv, rest: seq<byte>, places: seq<seq<byte>>)
    requires Sendable(p) && Expected(known, RetSubmit(p))
    requires p.dir == DIR_IN && p.trx.kind == Isochronous
    requires PlacesOf(places, p.trx.packets) && p.trx.buffer == Together(places, |places|)
    ensures DecodeOne(known, Encode(RetSubmit(p)) + rest).Some?
    ensures DecodeOne(known, Encode(RetSubmit(p)) + rest).value.0.payload
         == Transferred(places, p.trx.packets, |p.trx.packets|)
  {
    ReplyRoundTrip(known, RetSubmit(p), rest);
    PayloadIsTransferred(places, p.trx.packets, |p.trx.packets|);
  }
}
