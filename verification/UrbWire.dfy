/** The protocol seen by the client: what it noted of its own commands is enough to read the bytes that any run
    has written as exactly the replies. */
module UrbWire {
  import opened Usb
  import opened UrbQueues
  import opened Bags
  import opened UrbProtocol
  import opened UrbInvariant
  import opened UrbAccounts
  import opened ReplyStream

  /** The requests by number; and of the command being sent, its number and direction. */
  datatype Notes = Notes(known: map<Seqnum, Request>, seqnum: Seqnum, dir: byte)

  /** What the client writes down with each of its commands. The direction comes with the header; the type of
      the endpoint and the packet count with the transfer that is set up for it. */
  function Note(c: Notes, step: Step): Notes {
    match step
    case RxAlloc(n, dir) => c.(seqnum := n, dir := dir)
    case RxSubmit(trx) => Requested(c, trx)
    case RxIntercept(trx) => Requested(c, trx)
    case _ => c
  }

  function Requested(c: Notes, trx: Transfer): Notes {
    if trx.Null? then c
    else c.(known := c.known[c.seqnum := Request(c.dir == DIR_IN, trx.kind == Isochronous, |trx.packets|)])
  }

  /** The notes of a run depend on the rx thread's steps alone. */
  function Noted(run: seq<Step>): Notes {
    if run == [] then Notes(map[], 0, 0) else Note(Noted(run[..|run| - 1]), run[|run| - 1])
  }

  // ----- the notes agree with the entries -----

  /** The entry is what the client asked for under its number. */
  predicate Matches(known: map<Seqnum, Request>, p: Priv) {
    p.trx.Transfer? && p.seqnum in known && known[p.seqnum] == RequestOf(p)
  }

  predicate NotedNumbers(s: State, c: Notes) {
    && (forall n :: n in c.known ==> n in s.log.submits)
    && (s.rx.Preparing? ==> c.seqnum in s.log.submits && c.seqnum !in c.known)
  }

  /** The entry being set up is that of the command being noted. */
  predicate BeingNoted(s: State, c: Notes) {
    s.rx.Preparing? ==> forall p :: p in s.q.privInit && p.id == s.rx.id ==> p.seqnum == c.seqnum && p.dir == c.dir
  }

  /** Those that libusb has are set up, and are what was asked for unless an unlink took them over. */
  predicate PendingMatch(s: State, c: Notes) {
    forall p :: p in s.q.privInit && p.id in s.inFlight ==>
      p.trx.Transfer? && (!p.unlinking ==> Matches(c.known, p))
  }

  predicate QueuedMatch(s: State, c: Notes) {
    forall p :: p in s.log.enteredTx ==> Matches(c.known, p)
  }

  predicate Agree(s: State, c: Notes) {
    NotedNumbers(s, c) && BeingNoted(s, c) && PendingMatch(s, c) && QueuedMatch(s, c)
  }

  /** An entry that matched still does when another number is noted. */
  lemma MatchesStill(c: Notes, trx: Transfer, p: Priv)
    requires Matches(c.known, p) && c.seqnum !in c.known
    ensures Matches(Requested(c, trx).known, p)
  {
  }

  lemma AllocAgrees(s: State, c: Notes, n: Seqnum, dir: byte)
    requires Owned(s) && Held(s) && Agree(s, c) && Fresh(s.log, n)
    ensures Agree(AllocStep(s, n, dir), c.(seqnum := n, dir := dir))
  {
    IdsBelow(s, s.log.nextId);
  }

  /** The entry being set up, and no other, has its address. */
  lemma BeingSetUp(s: State)
    requires Owned(s) && Held(s) && s.rx.Preparing?
    ensures var ps, i := s.q.privInit, FirstWithId(s.q.privInit, s.rx.id);
      i < |ps| && ps[i].id == s.rx.id && forall j :: 0 <= j < |ps| && j != i ==> ps[j].id != s.rx.id
  {
    FoundById(s.q.privInit, s.rx.id);
    OthersById(s, FirstWithId(s.q.privInit, s.rx.id));
  }

  lemma OthersById(s: State, i: nat)
    requires Owned(s) && i < |s.q.privInit|
    ensures forall j :: 0 <= j < |s.q.privInit| && j != i ==> s.q.privInit[j].id != s.q.privInit[i].id
  {
    var ps := s.q.privInit;
    UniqueIds(s, i);
    forall j | 0 <= j < |ps| && j != i ensures ps[j].id != ps[i].id {
      assert RemoveAt(ps, i)[if j < i then j else j - 1] == ps[j];
    }
  }

  lemma SubmitAgrees(s: State, c: Notes, trx: Transfer)
    requires Owned(s) && Held(s) && Agree(s, c) && s.rx.Preparing? && trx.Transfer?
    ensures Agree(SubmitStep(s, trx), Requested(c, trx))
  {
    BeingSetUp(s);
    var ps, i := s.q.privInit, FirstWithId(s.q.privInit, s.rx.id);
    var ps' := SubmitStep(s, trx).q.privInit;
    assert ps[i] in ps;
    forall j | 0 <= j < |ps'| && ps'[j].id in s.inFlight + {s.rx.id} && !ps'[j].unlinking
      ensures Matches(Requested(c, trx).known, ps'[j])
    {
      if j != i {
        assert ps'[j] == ps[j] && ps[j] in ps;
        MatchesStill(c, trx, ps[j]);
      }
    }
  }

  lemma InterceptAgrees(s: State, c: Notes, trx: Transfer)
    requires Owned(s) && Held(s) && Agree(s, c) && s.rx.Preparing? && trx.Transfer?
    ensures Agree(InterceptStep(s, trx), Requested(c, trx))
  {
    BeingSetUp(s);
    var ps, i := s.q.privInit, FirstWithId(s.q.privInit, s.rx.id);
    assert ps[i] in ps;
    var s' := InterceptStep(s, trx);
    assert NewTx(s.q, s'.q) == [ps[i].(trx := trx)];
    forall p | p in s'.q.privInit ensures p in ps {
    }
  }

  lemma AbandonAgrees(s: State, c: Notes, trx: Transfer)
    requires Owned(s) && Held(s) && Agree(s, c) && s.rx.Preparing?
    ensures Agree(AbandonStep(s, trx), c)
  {
    BeingSetUp(s);
    var ps, ps' := s.q.privInit, AbandonStep(s, trx).q.privInit;
    forall p | p in ps' && p.id in s.inFlight ensures p in ps {
    }
  }

  lemma UnlinkAgrees(s: State, c: Notes, n: Seqnum, target: Seqnum, allocOk: bool)
    requires Agree(s, c) && s.rx == Idle
    ensures Agree(UnlinkStep(s, n, target, allocOk), c)
  {
    var s' := UnlinkStep(s, n, target, allocOk);
    forall p | p in s'.q.privInit && !p.unlinking ensures p in s.q.privInit {
    }
  }

  /** An entry leaves priv_init, to be answered or freed. */
  lemma LeaveAgrees(s: State, s': State, c: Notes, i: nat, p: Priv)
    requires Owned(s) && Agree(s, c) && i < |s.q.privInit| && s.q.privInit[i].id in s.inFlight
    requires s'.q.privInit == RemoveAt(s.q.privInit, i) && s'.inFlight <= s.inFlight && s'.rx == s.rx
    requires s'.log.submits == s.log.submits
    requires s'.log.enteredTx == s.log.enteredTx || (s'.log.enteredTx == s.log.enteredTx + [p] && Matches(c.known, p))
    ensures Agree(s', c)
  {
    forall q | q in s'.q.privInit ensures q in s.q.privInit {
    }
  }

  /** Without a socket it stays, and libusb is through with it. */
  lemma StayAgrees(s: State, s': State, c: Notes, i: nat, trx: Transfer)
    requires Owned(s) && Held(s) && Agree(s, c) && i < |s.q.privInit| && s.q.privInit[i].id in s.inFlight
    requires s' == s.(q := s.q.(privInit := s.q.privInit[i := s.q.privInit[i].(trx := trx)]),
                      inFlight := s.inFlight - {s.q.privInit[i].id})
    ensures Agree(s', c)
  {
    OthersById(s, i);
    forall p | p in s'.q.privInit && p.id in s'.inFlight ensures p in s.q.privInit {
    }
  }

  lemma CompletionAgrees(s: State, c: Notes, id: nat, trx: Transfer, allocOk: bool)
    requires Owned(s) && Held(s) && Agree(s, c) && Enabled(s, Completion(id, trx, allocOk))
    ensures Agree(CompletionStep(s, id, trx, allocOk), c)
  {
    FoundById(s.q.privInit, id);
    var i := FirstWithId(s.q.privInit, id);
    var p := s.q.privInit[i];
    assert p in s.q.privInit;
    if s.connected {
      LeaveAgrees(s, CompletionStep(s, id, trx, allocOk), c, i, p.(trx := Reported(trx)));
    } else {
      StayAgrees(s, CompletionStep(s, id, trx, allocOk), c, i, Reported(trx));
    }
  }

  /** The tx thread's steps, and a command without an entry. */
  lemma OtherAgrees(s: State, s': State, c: Notes)
    requires Agree(s, c) && s'.q.privInit == s.q.privInit && s'.inFlight == s.inFlight
    requires s'.rx == s.rx || !s'.rx.Preparing?
    requires s'.log.submits == s.log.submits && s'.log.enteredTx == s.log.enteredTx
    ensures Agree(s', c)
  {
  }

  lemma TxAgrees(s: State, c: Notes, step: Step)
    requires Agree(s, c) && Enabled(s, step) && IsTx(step)
    ensures Agree(Apply(s, step), c)
  {
    OtherAgrees(s, Apply(s, step), c);
  }

  lemma StepAgrees(s: State, c: Notes, step: Step)
    requires Owned(s) && Held(s) && Agree(s, c) && Enabled(s, step)
    ensures Agree(Apply(s, step), Note(c, step))
  {
    match step
    case RxAlloc(n, dir) => AllocAgrees(s, c, n, dir);
    case RxSubmit(trx) => SubmitAgrees(s, c, trx);
    case RxIntercept(trx) => InterceptAgrees(s, c, trx);
    case RxAbandon(trx) => AbandonAgrees(s, c, trx);
    case RxUnlink(n, target, allocOk) => UnlinkAgrees(s, c, n, target, allocOk);
    case Completion(id, trx, allocOk) => CompletionAgrees(s, c, id, trx, allocOk);
    case RxIgnore(_) => OtherAgrees(s, Apply(s, step), c);
    case RxAllocFails(_) => OtherAgrees(s, Apply(s, step), c);
    case _ => TxAgrees(s, c, step);
  }

  lemma {:induction false} RunAgrees(connected: bool, run: seq<Step>)
    requires Legal(Init(connected), run)
    ensures Agree(After(Init(connected), run), Noted(run))
    decreases |run|
  {
    if run != [] {
      var before := run[..|run| - 1];
      RunAgrees(connected, before);
      RunInv(connected, before);
      StepAgrees(After(Init(connected), before), Noted(before), run[|run| - 1]);
    }
  }

  /** An entry that libusb may complete, or an unlink may cancel, has its transfer, whether an unlink took it over
      or not. */
  lemma InFlightHaveTransfers(connected: bool, run: seq<Step>, p: Priv)
    requires Legal(Init(connected), run)
    requires p in After(Init(connected), run).q.privInit && p.id in After(Init(connected), run).inFlight
    ensures p.trx.Transfer?
  {
    RunAgrees(connected, run);
  }

  // ----- reading the replies -----

  /** In no run are two RET_SUBMITs sent for one number. */
  lemma WireNumbersDistinct(connected: bool, run: seq<Step>, n: Seqnum)
    requires Legal(Init(connected), run)
    ensures Bag(After(Init(connected), run).log.wire, RetSubmitNum)[n] <= 1
  {
    SubmitInOnePlace(connected, run, n);
  }

  /** Every reply is to a request that the client noted, and is of the kind it noted. */
  lemma RepliesExpected(connected: bool, run: seq<Step>)
    requires Legal(Init(connected), run) && CanEncodeAll(After(Init(connected), run).log.wire)
    ensures forall r :: r in After(Init(connected), run).log.wire ==> Expected(Noted(run).known, r)
  {
    var s := After(Init(connected), run);
    RunAgrees(connected, run);
    WireIsFifo(connected, run);
    forall r | r in s.log.wire && r.RetSubmit? ensures Matches(Noted(run).known, r.priv) {
      InSubmitsOf(s.log.wire, r.priv);
      assert r.priv in s.log.enteredTx;
    }
  }

  /** After any run, a client that noted its own commands decodes the bytes written so far to the replies sent
      so far. */
  lemma RunIsDecodable(connected: bool, run: seq<Step>)
    requires Legal(Init(connected), run)
    requires CanEncodeAll(After(Init(connected), run).log.wire)
    ensures var wire := After(Init(connected), run).log.wire;
      Decode(Noted(run).known, EncodeAll(wire)) == Some(AnswersOf(wire))
  {
    RepliesExpected(connected, run);
    StreamRoundTrip(Noted(run).known, After(Init(connected), run).log.wire);
  }
}
