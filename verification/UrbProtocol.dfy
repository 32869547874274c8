/** The life of a URB as a step machine. The rx thread, libusb's completions and the tx
    thread interleave freely; one step is one region under `priv_lock`, one call into libusb
    or one send. A log records every command taken, every entry queued and every reply sent. */
module UrbProtocol {
  import opened Usb
  import opened UrbQueues
  import opened Bags

  /** Where the rx thread is: between two PDUs, setting up the entry it has just queued, or
      past an error that it raised itself. */
  datatype RxPc = Idle | Preparing(id: nat) | Halted

  /** Where the tx thread is in its loop; at the poll it may also be past a poll that failed.
      A send that failed stopped it with one reply unsent. */
  datatype TxPc =
    | Poll
    | Submits | SendSubmit(priv: Priv) | FreeingSubmits
    | Unlinks | SendUnlink(unlink: Unlink) | FreeingUnlinks
    | Stopped | FailedSubmit(priv: Priv) | FailedUnlink(unlink: Unlink)

  /** An unlink that found its victim pending: the victim's number and the unlink's own. */
  datatype Takeover = Takeover(victim: Seqnum, unlinkedBy: Seqnum)

  datatype Log = Log(
    nextId: nat,                // stub_privs allocated so far
    submits: seq<Seqnum>,       // CMD_SUBMITs that got an entry
    unlinks: seq<Seqnum>,       // CMD_UNLINKs
    ignored: seq<Seqnum>,       // CMD_SUBMITs without an entry: unknown endpoint, no memory
    takeovers: seq<Takeover>,
    enteredTx: seq<Priv>,       // in the order they entered priv_tx
    enteredUnlink: seq<Unlink>, // in the order they entered unlink_tx
    lost: seq<Seqnum>,          // unlinks whose reply could not be allocated
    freedTx: seq<Priv>,         // freed by stub_send_ret_submit
    freedUnlinking: seq<Priv>,  // freed by stub_complete
    wire: seq<Reply>)           // fully sent

  datatype State = State(
    q: Queues,
    rx: RxPc,
    tx: TxPc,
    connected: bool,
    inFlight: set<nat>,
    event: bool,
    passBytes: nat,
    log: Log)

  datatype Step =
    | RxIgnore(seqnum: Seqnum)
    | RxAlloc(seqnum: Seqnum, dir: byte)
    | RxAllocFails(seqnum: Seqnum)
    | RxSubmit(trx: Transfer)
    | RxIntercept(trx: Transfer)
    | RxAbandon(trx: Transfer)
    | RxUnlink(seqnum: Seqnum, target: Seqnum, allocOk: bool)
    | Completion(id: nat, trx: Transfer, allocOk: bool)
    | TxPoll(ok: bool)
    | TxBreak
    | TxDequeueSubmit
    | TxSendSubmit(ok: bool)
    | TxFreeSubmits
    | TxDequeueUnlink
    | TxSendUnlink(ok: bool)
    | TxFreeUnlinks

  function Init(connected: bool): State {
    State(EMPTY, Idle, Poll, connected, {}, false, 0, Log(0, [], [], [], [], [], [], [], [], [], []))
  }

  predicate Fresh(l: Log, n: Seqnum) {
    n !in l.submits && n !in l.unlinks && n !in l.ignored
  }

  /** tweak_special_requests only carries out the clearing of a halt, the setting of an interface and the reset of
      a port by itself. The configuration is left to libusb. */
  predicate IsSpecial(setup: seq<byte>)
    requires |setup| >= 8
  {
    var kind, recipient, request := setup[0] / 0x20 % 4, setup[0] % 0x20, setup[1];
    || (request == 1 && recipient == 2 && setup[2] == 0 && setup[3] == 0)
    || (request == 11 && recipient == 1)
    || (request == 3 && kind == 1 && recipient == 3 && setup[2] == 4 && setup[3] == 0)
  }

  // ----- the fields of a setup packet, by section 9.3 of USB 2.0 -----

  const CLEAR_FEATURE: byte := 1
  const SET_FEATURE: byte := 3
  const SET_INTERFACE: byte := 11

  const CLASS: byte := 1

  const INTERFACE: byte := 1
  const ENDPOINT: byte := 2
  const OTHER: byte := 3

  const ENDPOINT_HALT: nat := 0
  const PORT_RESET: nat := 4

  function SetupPacket(isIn: bool, kind: nat, recipient: nat, request: byte, value: nat, tail: seq<byte>): seq<byte>
    requires kind < 4 && recipient < 0x20 && value < 0x1_0000
  {
    [(if isIn then 0x80 else 0) + 0x20 * kind + recipient, request, value % 0x100, value / 0x100] + tail
  }

  lemma SpecialRequests(isIn: bool, kind: nat, recipient: nat, request: byte, value: nat, tail: seq<byte>)
    requires kind < 4 && recipient < 0x20 && value < 0x1_0000 && |tail| >= 4
    ensures IsSpecial(SetupPacket(isIn, kind, recipient, request, value, tail)) <==>
      || (request == CLEAR_FEATURE && recipient == ENDPOINT && value == ENDPOINT_HALT)
      || (request == SET_INTERFACE && recipient == INTERFACE)
      || (request == SET_FEATURE && kind == CLASS && recipient == OTHER && value == PORT_RESET)
  {
  }

  /** Such a request, as the rx thread answers it. */
  predicate Intercepted(trx: Transfer) {
    && trx.Transfer? && trx.kind == Control && |trx.buffer| >= 8 && IsSpecial(trx.buffer)
    && trx.status == Completed && trx.actualLength == 0
  }

  /** libusb completes a transfer of the type, and with as many packets, as it was given. */
  predicate KeepsRequest(q: Queues, id: nat, trx: Transfer)
    requires trx.Transfer?
  {
    var i := FirstWithId(q.privInit, id);
    i < |q.privInit| && q.privInit[i].trx.Transfer? ==>
      q.privInit[i].trx.kind == trx.kind && |q.privInit[i].trx.packets| == |trx.packets|
  }

  /** When a step can be taken: the position of its thread, a client that numbers every command
      afresh and unlinks only submits, and a libusb that completes each accepted transfer once. */
  predicate Enabled(s: State, step: Step) {
    match step
    case RxIgnore(n) => s.rx == Idle && Fresh(s.log, n)
    case RxAlloc(n, _) => s.rx == Idle && Fresh(s.log, n)
    case RxAllocFails(n) => s.rx == Idle && Fresh(s.log, n)
    case RxSubmit(trx) => s.rx.Preparing? && trx.Transfer?
    case RxIntercept(trx) => s.rx.Preparing? && Intercepted(trx)
    case RxAbandon(_) => s.rx.Preparing?
    case RxUnlink(n, target, _) =>
      s.rx == Idle && Fresh(s.log, n) && (target in s.log.submits || target in s.log.ignored)
    case Completion(id, trx, _) => id in s.inFlight && trx.Transfer? && KeepsRequest(s.q, id, trx)
    case TxPoll(_) => s.tx == Poll
    case TxBreak => s.tx == Poll && s.event
    case TxDequeueSubmit => s.tx == Submits
    case TxSendSubmit(_) => s.tx.SendSubmit?
    case TxFreeSubmits => s.tx == FreeingSubmits
    case TxDequeueUnlink => s.tx == Unlinks
    case TxSendUnlink(_) => s.tx.SendUnlink?
    case TxFreeUnlinks => s.tx == FreeingUnlinks
  }

  /** What a completion adds to priv_tx. */
  function NewTx(q: Queues, q': Queues): seq<Priv>
    requires |q.privTx| <= |q'.privTx|
  {
    q'.privTx[|q.privTx|..]
  }

  /** stub_recv_cmd_submit up to the point where its entry is queued. */
  function AllocStep(s: State, n: Seqnum, dir: byte): State {
    var id := s.log.nextId;
    s.(q := Alloc(s.q, id, n, dir), rx := Preparing(id),
       log := s.log.(nextId := id + 1, submits := s.log.submits + [n]))
  }

  function SubmitStep(s: State, trx: Transfer): State
    requires s.rx.Preparing?
  {
    s.(q := SetTransfer(s.q, s.rx.id, trx), rx := Idle, inFlight := s.inFlight + {s.rx.id})
  }

  function InterceptStep(s: State, trx: Transfer): State
    requires s.rx.Preparing?
  {
    var q := Intercept(s.q, s.rx.id, trx);
    s.(q := q, rx := Idle, log := s.log.(enteredTx := s.log.enteredTx + NewTx(s.q, q)))
  }

  function AbandonStep(s: State, trx: Transfer): State
    requires s.rx.Preparing?
  {
    s.(q := SetTransfer(s.q, s.rx.id, trx), rx := Halted, event := true)
  }

  function UnlinkStep(s: State, n: Seqnum, target: Seqnum, allocOk: bool): State {
    var log := s.log.(unlinks := s.log.unlinks + [n]);
    var s' := s.(q := RecvUnlink(s.q, n, target, allocOk));
    if FirstWithSeqnum(s.q.privInit, target) < |s.q.privInit| then
      s'.(log := log.(takeovers := log.takeovers + [Takeover(target, n)]))
    else if allocOk then
      s'.(log := log.(enteredUnlink := log.enteredUnlink + [Unlink(n, Completed)]))
    else
      s'.(event := true, log := log.(lost := log.lost + [n]))
  }

  function CompletionStep(s: State, id: nat, trx: Transfer, allocOk: bool): State
    requires trx.Transfer?
  {
    var i := FirstWithId(s.q.privInit, id);
    var s' := s.(q := Complete(s.q, s.connected, id, trx, allocOk), inFlight := s.inFlight - {id});
    if i == |s.q.privInit| || !s.connected then s'
    else
      var p := s.q.privInit[i].(trx := Reported(trx));
      if !p.unlinking then s'.(log := s.log.(enteredTx := s.log.enteredTx + [p]))
      else
        var log := s.log.(freedUnlinking := s.log.freedUnlinking + [p]);
        if allocOk then
          s'.(log := log.(enteredUnlink := log.enteredUnlink + [Unlink(p.seqnum, p.trx.status)]))
        else
          s'.(event := true, log := log.(lost := log.lost + [p.seqnum]))
  }

  function DequeueSubmitStep(s: State): State {
    if s.q.privTx == [] then s.(tx := FreeingSubmits)
    else s.(q := DequeueSubmit(s.q), tx := SendSubmit(s.q.privTx[0]))
  }

  function SendSubmitStep(s: State, ok: bool): State
    requires s.tx.SendSubmit?
  {
    if ok then
      s.(tx := Submits, passBytes := s.passBytes + RetSubmitSize(s.tx.priv),
         log := s.log.(wire := s.log.wire + [RetSubmit(s.tx.priv)]))
    else s.(tx := FailedSubmit(s.tx.priv), event := true)
  }

  function FreeSubmitsStep(s: State): State {
    s.(q := FreeSubmits(s.q), tx := if ReadsNegative(s.passBytes) then Stopped else Unlinks,
       passBytes := 0, log := s.log.(freedTx := s.log.freedTx + s.q.privFree))
  }

  function DequeueUnlinkStep(s: State): State {
    if s.q.unlinkTx == [] then s.(tx := FreeingUnlinks)
    else s.(q := DequeueUnlink(s.q), tx := SendUnlink(s.q.unlinkTx[0]))
  }

  function SendUnlinkStep(s: State, ok: bool): State
    requires s.tx.SendUnlink?
  {
    if ok then
      s.(tx := Unlinks, passBytes := s.passBytes + HEADER_SIZE,
         log := s.log.(wire := s.log.wire + [RetUnlink(s.tx.unlink)]))
    else s.(tx := FailedUnlink(s.tx.unlink), event := true)
  }

  function FreeUnlinksStep(s: State): State {
    s.(q := FreeUnlinks(s.q), tx := if ReadsNegative(s.passBytes) then Stopped else Poll)
  }

  function Apply(s: State, step: Step): State
    requires Enabled(s, step)
  {
    match step
    case RxIgnore(n) => s.(log := s.log.(ignored := s.log.ignored + [n]))
    case RxAlloc(n, dir) => AllocStep(s, n, dir)
    case RxAllocFails(n) =>
      s.(rx := Halted, event := true, log := s.log.(ignored := s.log.ignored + [n]))
    case RxSubmit(trx) => SubmitStep(s, trx)
    case RxIntercept(trx) => InterceptStep(s, trx)
    case RxAbandon(trx) => AbandonStep(s, trx)
    case RxUnlink(n, target, allocOk) => UnlinkStep(s, n, target, allocOk)
    case Completion(id, trx, allocOk) => CompletionStep(s, id, trx, allocOk)
    case TxPoll(ok) => if ok then s.(tx := Submits, passBytes := 0) else s.(event := true)
    case TxBreak => s.(tx := Stopped)
    case TxDequeueSubmit => DequeueSubmitStep(s)
    case TxSendSubmit(ok) => SendSubmitStep(s, ok)
    case TxFreeSubmits => FreeSubmitsStep(s)
    case TxDequeueUnlink => DequeueUnlinkStep(s)
    case TxSendUnlink(ok) => SendUnlinkStep(s, ok)
    case TxFreeUnlinks => FreeUnlinksStep(s)
  }

  /** A run: every step is enabled where it is taken. */
  ghost predicate Legal(s: State, run: seq<Step>)
    decreases |run|, 0
  {
    run == [] ||
    var before := run[..|run| - 1];
    Legal(s, before) && Enabled(After(s, before), run[|run| - 1])
  }

  ghost function After(s: State, run: seq<Step>): State
    requires Legal(s, run)
    decreases |run|, 1
  {
    if run == [] then s
    else Apply(After(s, run[..|run| - 1]), run[|run| - 1])
  }

  lemma Extend(s: State, run: seq<Step>, step: Step)
    requires Legal(s, run) && Enabled(After(s, run), step)
    ensures Legal(s, run + [step]) && After(s, run + [step]) == Apply(After(s, run), step)
  {
    assert (run + [step])[..|run|] == run;
  }

  lemma {:induction false} LegalConcat(s: State, a: seq<Step>, b: seq<Step>)
    requires Legal(s, a) && Legal(After(s, a), b)
    ensures Legal(s, a + b) && After(s, a + b) == After(After(s, a), b)
    decreases |b|
  {
    if b == [] {
      assert a + b == a;
    } else {
      var before := b[..|b| - 1];
      LegalConcat(s, a, before);
      assert (a + b)[..|a + b| - 1] == a + before;
    }
  }

  // ----- what the invariants count -----

  ghost function NumOf(p: Priv): multiset<Seqnum> { multiset{p.seqnum} }

  ghost function LiveOf(p: Priv): multiset<Seqnum> { if p.unlinking then multiset{} else multiset{p.seqnum} }

  ghost function CarriedOf(p: Priv): multiset<Seqnum> { if p.unlinking then multiset{p.seqnum} else multiset{} }

  ghost function IdOf(p: Priv): multiset<nat> { multiset{p.id} }

  ghost function UnlinkNumOf(u: Unlink): multiset<Seqnum> { multiset{u.seqnum} }

  ghost function VictimOf(t: Takeover): multiset<Seqnum> { multiset{t.victim} }

  ghost function UnlinkerOf(t: Takeover): multiset<Seqnum> { multiset{t.unlinkedBy} }

  /** The entries behind the RET_SUBMITs of a reply stream, and behind its RET_UNLINKs, in order. */
  function SubmitsOf(rs: seq<Reply>): seq<Priv> {
    if rs == [] then []
    else SubmitsOf(rs[..|rs| - 1]) + (match rs[|rs| - 1] case RetSubmit(p) => [p] case RetUnlink(_) => [])
  }

  function UnlinksOf(rs: seq<Reply>): seq<Unlink> {
    if rs == [] then []
    else UnlinksOf(rs[..|rs| - 1]) + (match rs[|rs| - 1] case RetSubmit(_) => [] case RetUnlink(u) => [u])
  }

  /** A reply that has been dequeued and is not on the wire. */
  function UnsentSubmits(tx: TxPc): seq<Priv> {
    match tx
    case SendSubmit(p) => [p]
    case FailedSubmit(p) => [p]
    case _ => []
  }

  function UnsentUnlinks(tx: TxPc): seq<Unlink> {
    match tx
    case SendUnlink(u) => [u]
    case FailedUnlink(u) => [u]
    case _ => []
  }

  ghost function IdRange(n: nat): multiset<nat> {
    if n == 0 then multiset{} else IdRange(n - 1) + multiset{n - 1}
  }

  // ----- the invariant -----

  /** FIFO: priv_tx and unlink_tx are queues, the wire carries what left them in order, and the
      *_free lists hold what was dequeued and not yet freed. */
  ghost predicate Fifo(s: State) {
    var l := s.log;
    && SubmitsOf(l.wire) + UnsentSubmits(s.tx) + s.q.privTx == l.enteredTx
    && UnlinksOf(l.wire) + UnsentUnlinks(s.tx) + s.q.unlinkTx == l.enteredUnlink
    && l.freedTx + s.q.privFree == SubmitsOf(l.wire) + UnsentSubmits(s.tx)
    && l.freedTx <= SubmitsOf(l.wire)
  }

  /** Every stub_priv is in exactly one place: pending, past priv_tx, or freed by its unlink. */
  ghost predicate Owned(s: State) {
    Bag(s.q.privInit, IdOf) + Bag(s.log.enteredTx, IdOf) + Bag(s.log.freedUnlinking, IdOf)
    == IdRange(s.log.nextId)
  }

  /** libusb and the rx thread only hold entries that are still pending. */
  ghost predicate Held(s: State) {
    && (forall id :: id in s.inFlight ==> id in Bag(s.q.privInit, IdOf))
    && (s.rx.Preparing? ==> s.rx.id in Bag(s.q.privInit, IdOf) && s.rx.id !in s.inFlight)
    && (s.rx.Preparing? ==> forall p :: p in s.q.privInit && p.id == s.rx.id ==> !p.unlinking)
  }

  /** Only an entry that no unlink took over reaches priv_tx; stub_complete frees only the others. */
  ghost predicate Sorted(s: State) {
    && (forall p :: p in s.log.enteredTx ==> !p.unlinking)
    && (forall p :: p in s.log.freedUnlinking ==> p.unlinking)
  }

  /** Every number is used once. */
  ghost predicate DistinctNumbers(l: Log) {
    forall n :: multiset(l.submits + l.unlinks + l.ignored)[n] <= 1
  }

  /** Where the submits are: still pending under their number, past priv_tx, or taken over. */
  ghost predicate SubmitsAccounted(s: State) {
    multiset(s.log.submits)
    == Bag(s.q.privInit, LiveOf) + Bag(s.log.enteredTx, NumOf) + Bag(s.log.takeovers, VictimOf)
  }

  /** Where the unlinks are: carried by the entry they hit, past unlink_tx, or lost for lack of memory. */
  ghost predicate UnlinksAccounted(s: State) {
    multiset(s.log.unlinks)
    == Bag(s.q.privInit, CarriedOf) + Bag(s.log.enteredUnlink, UnlinkNumOf) + multiset(s.log.lost)
  }

  /** Where the unlinks that took an entry over are, and what became of those whose entry is freed. */
  ghost predicate TakeoversAccounted(s: State) {
    && Bag(s.log.takeovers, UnlinkerOf) == Bag(s.q.privInit, CarriedOf) + Bag(s.log.freedUnlinking, NumOf)
    && Bag(s.log.freedUnlinking, NumOf) <= Bag(s.log.enteredUnlink, UnlinkNumOf) + multiset(s.log.lost)
  }

  ghost predicate Accounted(s: State) {
    DistinctNumbers(s.log) && SubmitsAccounted(s) && UnlinksAccounted(s) && TakeoversAccounted(s)
  }

  /** What holds because of where the threads are, and because no error was raised. */
  ghost predicate Positions(s: State) {
    && (s.tx.Poll? || s.tx.Unlinks? || s.tx.SendUnlink? || s.tx.FreeingUnlinks? ==> s.q.privFree == [])
    && (s.tx.Poll? || s.tx.Submits? || s.tx.SendSubmit? || s.tx.FreeingSubmits? ==> s.q.unlinkFree == [])
    && (!s.event ==>
      && s.log.lost == []
      && s.rx != Halted
      && !s.tx.FailedSubmit? && !s.tx.FailedUnlink?
      && (s.connected ==> forall p :: p in s.q.privInit ==>
           p.id in s.inFlight || s.rx == Preparing(p.id)))
  }

  ghost predicate Inv(s: State) {
    Fifo(s) && Owned(s) && Held(s) && Sorted(s) && Accounted(s) && Positions(s)
  }
}
