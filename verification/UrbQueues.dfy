/** The five queues of a stub_device as values, and what each region of code under
    `priv_lock` does to them. The heap model in StubDevice.dfy is proved against these
    functions; the protocol in UrbProtocol.dfy takes them as its steps. */
module UrbQueues {
  import opened Usb

  /** struct stub_priv. `id` stands for its address, which libusb hands back in trx->user_data. */
  datatype Priv = Priv(id: nat, seqnum: Seqnum, dir: byte, unlinking: bool, trx: Transfer)

  /** struct stub_unlink. */
  datatype Unlink = Unlink(seqnum: Seqnum, status: TransferStatus)

  datatype Queues = Queues(
    privInit: seq<Priv>,
    privTx: seq<Priv>,
    privFree: seq<Priv>,
    unlinkTx: seq<Unlink>,
    unlinkFree: seq<Unlink>)

  const EMPTY := Queues([], [], [], [], [])

  /** Index of the first entry that passes a test, or |ps|. */
  function FirstWhere(ps: seq<Priv>, test: Priv -> bool): (i: nat)
    ensures i <= |ps|
    ensures i < |ps| ==> test(ps[i])
    ensures forall j :: 0 <= j < i ==> !test(ps[j])
  {
    if ps == [] || test(ps[0]) then 0 else 1 + FirstWhere(ps[1..], test)
  }

  /** Index of the first entry with this sequence number, or |ps|. */
  function FirstWithSeqnum(ps: seq<Priv>, seqnum: Seqnum): (i: nat)
    ensures i <= |ps|
    ensures i < |ps| ==> ps[i].seqnum == seqnum
    ensures forall j :: 0 <= j < i ==> ps[j].seqnum != seqnum
  {
    FirstWhere(ps, (p: Priv) => p.seqnum == seqnum)
  }

  /** Index of the first entry with this address, or |ps|. */
  function FirstWithId(ps: seq<Priv>, id: nat): (i: nat)
    ensures i <= |ps|
    ensures i < |ps| ==> ps[i].id == id
    ensures forall j :: 0 <= j < i ==> ps[j].id != id
  {
    FirstWhere(ps, (p: Priv) => p.id == id)
  }

  /** stub_priv_alloc */
  function Alloc(q: Queues, id: nat, seqnum: Seqnum, dir: byte): Queues {
    q.(privInit := q.privInit + [Priv(id, seqnum, dir, false, Null)])
  }

  /** stub_recv_cmd_submit fills the transfer of the entry it has just queued. */
  function SetTransfer(q: Queues, id: nat, trx: Transfer): Queues {
    var i := FirstWithId(q.privInit, id);
    if i < |q.privInit| then q.(privInit := q.privInit[i := q.privInit[i].(trx := trx)]) else q
  }

  /** An intercepted control request is complete at once: it moves to priv_tx without libusb. */
  function Intercept(q: Queues, id: nat, trx: Transfer): Queues {
    var i := FirstWithId(q.privInit, id);
    if i < |q.privInit| then
      q.(privInit := RemoveAt(q.privInit, i), privTx := q.privTx + [q.privInit[i].(trx := trx)])
    else q
  }

  /** stub_enqueue_ret_unlink; nothing is queued when the allocation fails. */
  function EnqueueRetUnlink(q: Queues, seqnum: Seqnum, status: TransferStatus, allocOk: bool): Queues {
    if allocOk then q.(unlinkTx := q.unlinkTx + [Unlink(seqnum, status)]) else q
  }

  /** stub_recv_cmd_unlink: a pending victim takes over the number of the unlink that hit it. */
  function RecvUnlink(q: Queues, seqnum: Seqnum, target: Seqnum, allocOk: bool): Queues {
    var i := FirstWithSeqnum(q.privInit, target);
    if i < |q.privInit| then
      q.(privInit := q.privInit[i := q.privInit[i].(seqnum := seqnum, unlinking := true)])
    else EnqueueRetUnlink(q, seqnum, Completed, allocOk)
  }

  /** The status stub_complete leaves in the transfer: an error on a transfer whose short reads
      count as errors is passed on as a completion. */
  function Reported(trx: Transfer): Transfer
    requires trx.Transfer?
  {
    if trx.status == Error && trx.shortNotOk then trx.(status := Completed) else trx
  }

  /** stub_complete, for the entry whose address the transfer carries. */
  function Complete(q: Queues, connected: bool, id: nat, trx: Transfer, allocOk: bool): Queues
    requires trx.Transfer?
  {
    var i := FirstWithId(q.privInit, id);
    if i == |q.privInit| then q
    else
      var p := q.privInit[i].(trx := Reported(trx));
      var rest := q.(privInit := RemoveAt(q.privInit, i));
      if !connected then q.(privInit := q.privInit[i := p])
      else if p.unlinking then EnqueueRetUnlink(rest, p.seqnum, p.trx.status, allocOk)
      else rest.(privTx := rest.privTx + [p])
  }

  /** dequeue_from_priv_tx */
  function DequeueSubmit(q: Queues): Queues {
    if q.privTx == [] then q
    else q.(privTx := q.privTx[1..], privFree := q.privFree + [q.privTx[0]])
  }

  /** dequeue_from_unlink_tx */
  function DequeueUnlink(q: Queues): Queues {
    if q.unlinkTx == [] then q
    else q.(unlinkTx := q.unlinkTx[1..], unlinkFree := q.unlinkFree + [q.unlinkTx[0]])
  }

  /** The free loops at the end of stub_send_ret_submit and stub_send_ret_unlink. */
  function FreeSubmits(q: Queues): Queues { q.(privFree := []) }

  function FreeUnlinks(q: Queues): Queues { q.(unlinkFree := []) }

  /** The payload bytes of a RET_SUBMIT: none for an OUT transfer, the packets without their
      padding for an isochronous one. */
  function PayloadSize(p: Priv): nat {
    if p.trx.Null? || p.dir != DIR_IN then 0
    else if p.trx.kind == Isochronous then SumActual(p.trx.packets)
    else if p.trx.actualLength > 0 then p.trx.actualLength
    else 0
  }

  function DescriptorsSize(p: Priv): nat {
    if p.trx.Transfer? && p.trx.kind == Isochronous then DescriptorBytes(|p.trx.packets|) else 0
  }

  /** What stub_send_ret_submit adds to its byte count for one entry. */
  function RetSubmitSize(p: Priv): nat {
    HEADER_SIZE + PayloadSize(p) + DescriptorsSize(p)
  }

  // ----- replies, and what a pass of the tx loop makes of the queues -----

  datatype Reply = RetSubmit(priv: Priv) | RetUnlink(unlink: Unlink)

  function SubmitReplies(ps: seq<Priv>): seq<Reply> {
    seq(|ps|, i requires 0 <= i < |ps| => RetSubmit(ps[i]))
  }

  function UnlinkReplies(us: seq<Unlink>): seq<Reply> {
    seq(|us|, i requires 0 <= i < |us| => RetUnlink(us[i]))
  }

  function SubmitBytes(ps: seq<Priv>): nat {
    if ps == [] then 0 else RetSubmitSize(ps[0]) + SubmitBytes(ps[1..])
  }

  function UnlinkBytes(us: seq<Unlink>): nat {
    if us == [] then 0 else HEADER_SIZE + UnlinkBytes(us[1..])
  }

  lemma {:induction false} UnlinkBytesAppend(us: seq<Unlink>, u: Unlink)
    ensures UnlinkBytes(us + [u]) == UnlinkBytes(us) + HEADER_SIZE
  {
    if us == [] {
      assert [] + [u] == [u] && [u][1..] == [];
    } else {
      assert (us + [u])[1..] == us[1..] + [u];
      UnlinkBytesAppend(us[1..], u);
    }
  }

  lemma {:induction false} SubmitBytesAppend(ps: seq<Priv>, p: Priv)
    ensures SubmitBytes(ps + [p]) == SubmitBytes(ps) + RetSubmitSize(p)
  {
    if ps == [] {
      assert [] + [p] == [p] && [p][1..] == [];
    } else {
      assert (ps + [p])[1..] == ps[1..] + [p];
      SubmitBytesAppend(ps[1..], p);
    }
  }

  datatype PassResult = PassResult(goesOn: bool, event: bool, q: Queues, sent: seq<Reply>)

  /** stub_send_ret_submit, and whether the loop goes on to the unlinks. */
  function SubmitPass(q: Queues, sent: seq<Reply>, failAt: nat): PassResult {
    if failAt < |q.privTx| then
      PassResult(false, true,
                 q.(privTx := q.privTx[failAt + 1..], privFree := q.privFree + q.privTx[..failAt + 1]),
                 sent + SubmitReplies(q.privTx[..failAt]))
    else
      PassResult(!ReadsNegative(SubmitBytes(q.privTx)), false, q.(privTx := [], privFree := []),
                 sent + SubmitReplies(q.privTx))
  }

  /** stub_send_ret_unlink, and whether the loop goes on. */
  function UnlinkPass(q: Queues, sent: seq<Reply>, failAt: nat): PassResult {
    if failAt < |q.unlinkTx| then
      PassResult(false, true,
                 q.(unlinkTx := q.unlinkTx[failAt + 1..], unlinkFree := q.unlinkFree + q.unlinkTx[..failAt + 1]),
                 sent + UnlinkReplies(q.unlinkTx[..failAt]))
    else
      PassResult(!ReadsNegative(UnlinkBytes(q.unlinkTx)), false, q.(unlinkTx := [], unlinkFree := []),
                 sent + UnlinkReplies(q.unlinkTx))
  }

  /** What they return. */
  function SubmitReturn(q: Queues, failAt: nat): int32 {
    if failAt < |q.privTx| then -1 else AsInt(SubmitBytes(q.privTx))
  }

  function UnlinkReturn(q: Queues, failAt: nat): int32 {
    if failAt < |q.unlinkTx| then -1 else AsInt(UnlinkBytes(q.unlinkTx))
  }

  /** One turn of stub_tx_loop after its poll. */
  function Pass(event: bool, q: Queues, sent: seq<Reply>, submitFailAt: nat, unlinkFailAt: nat): PassResult {
    if event then PassResult(false, true, q, sent)
    else
      var p := SubmitPass(q, sent, submitFailAt);
      if p.goesOn then UnlinkPass(p.q, p.sent, unlinkFailAt) else p
  }
}
