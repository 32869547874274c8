/** The invariant of UrbProtocol.dfy holds in every state of every run, and what it says about
    one command. */
module UrbInvariant {
  import opened Usb
  import opened UrbQueues
  import opened Bags
  import opened UrbProtocol

  /** One reply more on the wire. */
  lemma SentSubmit(rs: seq<Reply>, p: Priv)
    ensures SubmitsOf(rs + [RetSubmit(p)]) == SubmitsOf(rs) + [p]
    ensures UnlinksOf(rs + [RetSubmit(p)]) == UnlinksOf(rs)
  {
    assert (rs + [RetSubmit(p)])[..|rs|] == rs;
  }

  lemma SentUnlink(rs: seq<Reply>, u: Unlink)
    ensures SubmitsOf(rs + [RetUnlink(u)]) == SubmitsOf(rs)
    ensures UnlinksOf(rs + [RetUnlink(u)]) == UnlinksOf(rs) + [u]
  {
    assert (rs + [RetUnlink(u)])[..|rs|] == rs;
  }

  // ----- the tx thread: it moves entries along and sends -----

  /** What a step leaves alone when it neither takes a command nor completes a transfer. */
  ghost predicate SameAccounts(s: State, s': State) {
    && Bag(s'.q.privInit, IdOf) == Bag(s.q.privInit, IdOf)
    && Bag(s'.q.privInit, LiveOf) == Bag(s.q.privInit, LiveOf)
    && Bag(s'.q.privInit, CarriedOf) == Bag(s.q.privInit, CarriedOf)
    && s'.log == s.log.(freedTx := s'.log.freedTx, wire := s'.log.wire)
  }

  lemma AccountsFrame(s: State, s': State)
    requires Owned(s) && Sorted(s) && Accounted(s) && SameAccounts(s, s')
    ensures Owned(s') && Sorted(s') && Accounted(s')
  {
  }

  lemma DequeueSubmitFifo(s: State)
    requires Fifo(s) && s.tx == Submits
    ensures Fifo(DequeueSubmitStep(s)) && SameAccounts(s, DequeueSubmitStep(s))
  {
    if s.q.privTx != [] {
      var p, rest := s.q.privTx[0], s.q.privTx[1..];
      assert s.q.privTx == [p] + rest;
      assert SubmitsOf(s.log.wire) + [p] + rest == SubmitsOf(s.log.wire) + ([p] + rest);
      assert s.log.freedTx + (s.q.privFree + [p]) == s.log.freedTx + s.q.privFree + [p];
    }
  }

  lemma DequeueUnlinkFifo(s: State)
    requires Fifo(s) && s.tx == Unlinks
    ensures Fifo(DequeueUnlinkStep(s)) && SameAccounts(s, DequeueUnlinkStep(s))
  {
    if s.q.unlinkTx != [] {
      var u, rest := s.q.unlinkTx[0], s.q.unlinkTx[1..];
      assert s.q.unlinkTx == [u] + rest;
      assert UnlinksOf(s.log.wire) + [u] + rest == UnlinksOf(s.log.wire) + ([u] + rest);
    }
  }

  lemma SendSubmitFifo(s: State, ok: bool)
    requires Fifo(s) && s.tx.SendSubmit?
    ensures Fifo(SendSubmitStep(s, ok)) && SameAccounts(s, SendSubmitStep(s, ok))
  {
    SentSubmit(s.log.wire, s.tx.priv);
  }

  lemma SendUnlinkFifo(s: State, ok: bool)
    requires Fifo(s) && s.tx.SendUnlink?
    ensures Fifo(SendUnlinkStep(s, ok)) && SameAccounts(s, SendUnlinkStep(s, ok))
  {
    SentUnlink(s.log.wire, s.tx.unlink);
  }

  lemma FreeSubmitsFifo(s: State)
    requires Fifo(s) && s.tx == FreeingSubmits
    ensures Fifo(FreeSubmitsStep(s)) && SameAccounts(s, FreeSubmitsStep(s))
  {
    assert s.log.freedTx + s.q.privFree + [] == s.log.freedTx + s.q.privFree;
  }

  lemma FreeUnlinksFifo(s: State)
    requires Fifo(s) && s.tx == FreeingUnlinks
    ensures Fifo(FreeUnlinksStep(s)) && SameAccounts(s, FreeUnlinksStep(s))
  {
  }

  predicate IsTx(step: Step) {
    step.TxPoll? || step.TxBreak? || step.TxDequeueSubmit? || step.TxSendSubmit? || step.TxFreeSubmits? ||
    step.TxDequeueUnlink? || step.TxSendUnlink? || step.TxFreeUnlinks?
  }

  lemma TxFifo(s: State, step: Step)
    requires Fifo(s) && Enabled(s, step) && IsTx(step)
    ensures Fifo(Apply(s, step)) && SameAccounts(s, Apply(s, step))
  {
    match step {
      case TxDequeueSubmit => DequeueSubmitFifo(s);
      case TxSendSubmit(ok) => SendSubmitFifo(s, ok);
      case TxFreeSubmits => FreeSubmitsFifo(s);
      case TxDequeueUnlink => DequeueUnlinkFifo(s);
      case TxSendUnlink(ok) => SendUnlinkFifo(s, ok);
      case TxFreeUnlinks => FreeUnlinksFifo(s);
      case _ =>
    }
  }

  lemma TxPositions(s: State, step: Step)
    requires Positions(s) && Enabled(s, step) && IsTx(step)
    ensures Positions(Apply(s, step))
  {
  }

  lemma TxTouches(s: State, step: Step)
    requires Enabled(s, step) && IsTx(step)
    ensures var s' := Apply(s, step);
      s'.q.privInit == s.q.privInit && s'.rx == s.rx && s'.inFlight == s.inFlight && s'.connected == s.connected
  {
  }

  lemma HeldFrame(s: State, s': State)
    requires Held(s) && s'.q.privInit == s.q.privInit && s'.rx == s.rx && s'.inFlight == s.inFlight
    ensures Held(s')
  {
  }

  lemma TxInv(s: State, step: Step)
    requires Inv(s) && Enabled(s, step) && IsTx(step)
    ensures Inv(Apply(s, step))
  {
    TxFifo(s, step);
    TxTouches(s, step);
    HeldFrame(s, Apply(s, step));
    TxPositions(s, step);
    AccountsFrame(s, Apply(s, step));
  }

  // ----- the rx thread and libusb -----

  lemma AllocOwned(s: State, n: Seqnum, dir: byte)
    requires Owned(s) && Held(s) && s.rx == Idle
    ensures Owned(AllocStep(s, n, dir)) && Held(AllocStep(s, n, dir))
  {
    var p := Priv(s.log.nextId, n, dir, false, Null);
    BagAppend(s.q.privInit, p, IdOf);
    IdsBelow(s, s.log.nextId);
  }

  lemma {:induction false} IdRangeOnce(n: nat, id: nat)
    ensures IdRange(n)[id] == if id < n then 1 else 0
  {
    if n > 0 { IdRangeOnce(n - 1, id); }
  }

  lemma IdsBelow(s: State, id: nat)
    requires Owned(s) && id >= s.log.nextId
    ensures id !in Bag(s.q.privInit, IdOf)
    ensures forall p :: p in s.q.privInit ==> p.id < s.log.nextId
  {
    IdRangeOnce(s.log.nextId, id);
    assert IdRange(s.log.nextId)[id] >= Bag(s.q.privInit, IdOf)[id];
    forall p | p in s.q.privInit ensures p.id < s.log.nextId {
      var i :| 0 <= i < |s.q.privInit| && s.q.privInit[i] == p;
      BagContains(s.q.privInit, i, IdOf);
      IdRangeOnce(s.log.nextId, p.id);
      assert p.id in IdOf(p) && p.id in Bag(s.q.privInit, IdOf);
      assert p.id in IdRange(s.log.nextId);
    }
  }

  /** A number the log does not hold is used once more. */
  lemma NextNumber(l: Log, l': Log, n: Seqnum)
    requires DistinctNumbers(l) && Fresh(l, n)
    requires || (l'.submits == l.submits + [n] && l'.unlinks == l.unlinks && l'.ignored == l.ignored)
             || (l'.submits == l.submits && l'.unlinks == l.unlinks + [n] && l'.ignored == l.ignored)
             || (l'.submits == l.submits && l'.unlinks == l.unlinks && l'.ignored == l.ignored + [n])
    ensures DistinctNumbers(l')
  {
    var ms := multiset(l.submits + l.unlinks + l.ignored);
    assert multiset(l'.submits + l'.unlinks + l'.ignored) == ms + multiset{n};
    assert ms[n] == 0 by {
      assert n !in l.submits + l.unlinks + l.ignored;
    }
  }

  lemma AllocSubmits(s: State, n: Seqnum, dir: byte)
    requires SubmitsAccounted(s)
    ensures SubmitsAccounted(AllocStep(s, n, dir))
  {
    BagAppend(s.q.privInit, Priv(s.log.nextId, n, dir, false, Null), LiveOf);
  }

  lemma AllocUnlinks(s: State, n: Seqnum, dir: byte)
    requires UnlinksAccounted(s) && TakeoversAccounted(s)
    ensures UnlinksAccounted(AllocStep(s, n, dir)) && TakeoversAccounted(AllocStep(s, n, dir))
  {
    BagAppend(s.q.privInit, Priv(s.log.nextId, n, dir, false, Null), CarriedOf);
    assert Bag(AllocStep(s, n, dir).q.privInit, CarriedOf) == Bag(s.q.privInit, CarriedOf);
  }

  // ----- entries by address -----

  lemma FoundById(ps: seq<Priv>, id: nat)
    ensures id in Bag(ps, IdOf) <==> FirstWithId(ps, id) < |ps|
  {
    var i := FirstWithId(ps, id);
    if i < |ps| {
      BagContains(ps, i, IdOf);
      assert id in IdOf(ps[i]);
    }
    if id in Bag(ps, IdOf) {
      var j := BagSource(ps, id, IdOf);
      assert ps[j].id == id;
    }
  }

  /** Two entries never share an address. */
  lemma UniqueIds(s: State, i: nat)
    requires Owned(s) && i < |s.q.privInit|
    ensures forall p :: p in RemoveAt(s.q.privInit, i) ==> p.id != s.q.privInit[i].id
  {
    var ps := s.q.privInit;
    var id := ps[i].id;
    var rest := RemoveAt(ps, i);
    BagRemove(ps, i, IdOf);
    IdRangeOnce(s.log.nextId, id);
    assert IdRange(s.log.nextId)[id] >= Bag(ps, IdOf)[id] >= Bag(rest, IdOf)[id] + IdOf(ps[i])[id];
    assert id !in Bag(rest, IdOf);
    forall j | 0 <= j < |rest| ensures rest[j].id != id {
      BagContains(rest, j, IdOf);
      assert rest[j].id in IdOf(rest[j]);
    }
  }

  // ----- SetTransfer: RxSubmit and RxAbandon -----

  lemma SetTransferBags(q: Queues, id: nat, trx: Transfer)
    ensures Bag(SetTransfer(q, id, trx).privInit, IdOf) == Bag(q.privInit, IdOf)
    ensures Bag(SetTransfer(q, id, trx).privInit, LiveOf) == Bag(q.privInit, LiveOf)
    ensures Bag(SetTransfer(q, id, trx).privInit, CarriedOf) == Bag(q.privInit, CarriedOf)
  {
    var i := FirstWithId(q.privInit, id);
    if i < |q.privInit| {
      var p := q.privInit[i].(trx := trx);
      BagSame(q.privInit, i, p, IdOf);
      BagSame(q.privInit, i, p, LiveOf);
      BagSame(q.privInit, i, p, CarriedOf);
    }
  }

  lemma SetTransferHeld(s: State, s': State, trx: Transfer)
    requires Held(s) && s.rx.Preparing?
    requires s' == SubmitStep(s, trx) || s' == AbandonStep(s, trx)
    ensures Held(s') && SameAccounts(s, s')
  {
    SetTransferBags(s.q, s.rx.id, trx);
  }

  lemma SetTransferFifo(s: State, s': State, trx: Transfer)
    requires Fifo(s) && s.rx.Preparing?
    requires s' == SubmitStep(s, trx) || s' == AbandonStep(s, trx)
    ensures Fifo(s')
  {
  }

  lemma SetTransferInv(s: State, s': State, trx: Transfer)
    requires Inv(s) && s.rx.Preparing?
    requires s' == SubmitStep(s, trx) || s' == AbandonStep(s, trx)
    ensures Inv(s')
  {
    SetTransferFifo(s, s', trx);
    SetTransferHeld(s, s', trx);
    AccountsFrame(s, s');
    SetTransferPositions(s, s', trx);
  }

  lemma SetTransferPositions(s: State, s': State, trx: Transfer)
    requires Positions(s) && s.rx.Preparing?
    requires s' == SubmitStep(s, trx) || s' == AbandonStep(s, trx)
    ensures Positions(s')
  {
    var i := FirstWithId(s.q.privInit, s.rx.id);
    forall p | p in s'.q.privInit
      ensures exists p' :: p' in s.q.privInit && p'.id == p.id
    {
      var j :| 0 <= j < |s'.q.privInit| && s'.q.privInit[j] == p;
      assert s.q.privInit[j].id == p.id;
    }
  }

  // ----- an entry leaves priv_init for priv_tx: Intercept and Completion -----

  /** The entry at i, with its transfer filled in, is now the last of priv_tx. */
  ghost predicate Moved(s: State, s': State, i: nat, p: Priv) {
    && i < |s.q.privInit| && p == s.q.privInit[i].(trx := p.trx) && !p.unlinking
    && s'.q == s.q.(privInit := RemoveAt(s.q.privInit, i), privTx := s.q.privTx + [p])
    && s'.tx == s.tx && s'.log == s.log.(enteredTx := s.log.enteredTx + [p])
    && s'.event == s.event && s'.connected == s.connected
  }

  lemma MovedFifo(s: State, s': State, i: nat, p: Priv)
    requires Fifo(s) && Moved(s, s', i, p)
    ensures Fifo(s')
  {
    assert s'.q.privTx == s.q.privTx + [p];
  }

  lemma MovedOwned(s: State, s': State, i: nat, p: Priv)
    requires Owned(s) && Sorted(s) && Moved(s, s', i, p)
    ensures Owned(s') && Sorted(s')
  {
    BagRemove(s.q.privInit, i, IdOf);
    BagAppend(s.log.enteredTx, p, IdOf);
  }

  lemma MovedAccounted(s: State, s': State, i: nat, p: Priv)
    requires Accounted(s) && Moved(s, s', i, p)
    ensures Accounted(s')
  {
    BagRemove(s.q.privInit, i, CarriedOf);
    assert Bag(s'.q.privInit, CarriedOf) == Bag(s.q.privInit, CarriedOf);
    assert SubmitsAccounted(s') by {
      BagRemove(s.q.privInit, i, LiveOf);
      BagAppend(s.log.enteredTx, p, NumOf);
    }
  }

  /** The entry at i has left priv_init, and nobody refers to it any more. */
  ghost predicate LetGo(s: State, s': State, i: nat) {
    && i < |s.q.privInit|
    && s'.q.privInit == RemoveAt(s.q.privInit, i)
    && var id := s.q.privInit[i].id;
       || (s.rx == Preparing(id) && s'.rx == Idle && s'.inFlight == s.inFlight)
       || (id in s.inFlight && s'.rx == s.rx && s'.inFlight == s.inFlight - {id})
  }

  lemma LetGoHeld(s: State, s': State, i: nat)
    requires Held(s) && LetGo(s, s', i)
    ensures Held(s')
  {
    BagRemove(s.q.privInit, i, IdOf);
    forall p | p in s'.q.privInit ensures p in s.q.privInit {
    }
  }

  lemma LetGoPositions(s: State, s': State, i: nat)
    requires Owned(s) && Positions(s) && LetGo(s, s', i)
    requires s'.connected == s.connected && s'.tx == s.tx
    requires s'.q.privFree == s.q.privFree && s'.q.unlinkFree == s.q.unlinkFree
    requires (s'.event == s.event && s'.log.lost == s.log.lost) || s'.event
    ensures Positions(s')
  {
    UniqueIds(s, i);
    forall p | p in s'.q.privInit ensures p in s.q.privInit {
    }
  }

  lemma InterceptInv(s: State, trx: Transfer)
    requires Inv(s) && s.rx.Preparing? && trx.Transfer?
    ensures Inv(InterceptStep(s, trx))
  {
    var s' := InterceptStep(s, trx);
    FoundById(s.q.privInit, s.rx.id);
    var i := FirstWithId(s.q.privInit, s.rx.id);
    var p := s.q.privInit[i].(trx := trx);
    assert s.q.privInit[i] in s.q.privInit;
    assert NewTx(s.q, Intercept(s.q, s.rx.id, trx)) == [p];
    MovedFifo(s, s', i, p);
    MovedOwned(s, s', i, p);
    MovedAccounted(s, s', i, p);
    LetGoHeld(s, s', i);
    LetGoPositions(s, s', i);
  }

  // ----- an entry that carries an unlink completes: it is freed and its unlink answered -----

  ghost predicate Released(s: State, s': State, i: nat, p: Priv, allocOk: bool) {
    && i < |s.q.privInit| && p == s.q.privInit[i].(trx := p.trx) && p.trx.Transfer? && p.unlinking
    && s'.tx == s.tx && s'.connected == s.connected
    && var u := Unlink(p.seqnum, p.trx.status);
       var q := s.q.(privInit := RemoveAt(s.q.privInit, i));
       var l := s.log.(freedUnlinking := s.log.freedUnlinking + [p]);
       if allocOk then
         && s'.q == q.(unlinkTx := q.unlinkTx + [u])
         && s'.log == l.(enteredUnlink := l.enteredUnlink + [u])
         && s'.event == s.event
       else
         s'.q == q && s'.log == l.(lost := l.lost + [p.seqnum]) && s'.event
  }

  lemma ReleasedFifo(s: State, s': State, i: nat, p: Priv, allocOk: bool)
    requires Fifo(s) && Released(s, s', i, p, allocOk)
    ensures Fifo(s')
  {
    if allocOk {
      assert s'.q.unlinkTx == s.q.unlinkTx + [Unlink(p.seqnum, p.trx.status)];
    }
  }

  lemma ReleasedOwned(s: State, s': State, i: nat, p: Priv, allocOk: bool)
    requires Owned(s) && Released(s, s', i, p, allocOk)
    ensures Owned(s')
  {
    BagRemove(s.q.privInit, i, IdOf);
    BagAppend(s.log.freedUnlinking, p, IdOf);
    assert s'.log.enteredTx == s.log.enteredTx && s'.log.nextId == s.log.nextId;
  }

  lemma ReleasedSorted(s: State, s': State, i: nat, p: Priv, allocOk: bool)
    requires Sorted(s) && Released(s, s', i, p, allocOk)
    ensures Sorted(s')
  {
  }

  lemma ReleasedSubmits(s: State, s': State, i: nat, p: Priv, allocOk: bool)
    requires SubmitsAccounted(s) && Released(s, s', i, p, allocOk)
    ensures SubmitsAccounted(s')
  {
    BagRemove(s.q.privInit, i, LiveOf);
    assert Bag(s'.q.privInit, LiveOf) == Bag(s.q.privInit, LiveOf);
  }

  lemma ReleasedUnlinks(s: State, s': State, i: nat, p: Priv, allocOk: bool)
    requires UnlinksAccounted(s) && Released(s, s', i, p, allocOk)
    ensures UnlinksAccounted(s')
  {
    BagRemove(s.q.privInit, i, CarriedOf);
    if allocOk { BagAppend(s.log.enteredUnlink, Unlink(p.seqnum, p.trx.status), UnlinkNumOf); }
  }

  lemma ReleasedTakeovers(s: State, s': State, i: nat, p: Priv, allocOk: bool)
    requires TakeoversAccounted(s) && Released(s, s', i, p, allocOk)
    ensures TakeoversAccounted(s')
  {
    BagRemove(s.q.privInit, i, CarriedOf);
    BagAppend(s.log.freedUnlinking, p, NumOf);
    if allocOk { BagAppend(s.log.enteredUnlink, Unlink(p.seqnum, p.trx.status), UnlinkNumOf); }
  }

  lemma ReleasedInv(s: State, s': State, i: nat, p: Priv, allocOk: bool)
    requires Inv(s) && Released(s, s', i, p, allocOk) && LetGo(s, s', i)
    ensures Inv(s')
  {
    ReleasedFifo(s, s', i, p, allocOk);
    ReleasedOwned(s, s', i, p, allocOk);
    ReleasedSorted(s, s', i, p, allocOk);
    ReleasedSubmits(s, s', i, p, allocOk);
    ReleasedUnlinks(s, s', i, p, allocOk);
    ReleasedTakeovers(s, s', i, p, allocOk);
    LetGoHeld(s, s', i);
    LetGoPositions(s, s', i);
  }

  lemma CompletionInv(s: State, id: nat, trx: Transfer, allocOk: bool)
    requires Inv(s) && id in s.inFlight && trx.Transfer?
    ensures Inv(CompletionStep(s, id, trx, allocOk))
  {
    var s' := CompletionStep(s, id, trx, allocOk);
    FoundById(s.q.privInit, id);
    var i := FirstWithId(s.q.privInit, id);
    var p := s.q.privInit[i].(trx := Reported(trx));
    if !s.connected {
      DisconnectedInv(s, s', i, p);
    } else if p.unlinking {
      ReleasedInv(s, s', i, p, allocOk);
    } else {
      MovedFifo(s, s', i, p);
      MovedOwned(s, s', i, p);
      MovedAccounted(s, s', i, p);
      LetGoHeld(s, s', i);
      LetGoPositions(s, s', i);
    }
  }

  /** Without a socket the entry stays where it is. */
  lemma DisconnectedInv(s: State, s': State, i: nat, p: Priv)
    requires Inv(s) && i < |s.q.privInit| && p == s.q.privInit[i].(trx := p.trx) && p.id in s.inFlight
    requires !s.connected
    requires s' == s.(q := s.q.(privInit := s.q.privInit[i := p]), inFlight := s.inFlight - {p.id})
    ensures Inv(s')
  {
    BagSame(s.q.privInit, i, p, IdOf);
    BagSame(s.q.privInit, i, p, LiveOf);
    BagSame(s.q.privInit, i, p, CarriedOf);
    AccountsFrame(s, s');
    DisconnectedHeld(s, s', i, p);
  }

  lemma DisconnectedHeld(s: State, s': State, i: nat, p: Priv)
    requires Held(s) && i < |s.q.privInit| && p == s.q.privInit[i].(trx := p.trx) && p.id in s.inFlight
    requires s' == s.(q := s.q.(privInit := s.q.privInit[i := p]), inFlight := s.inFlight - {p.id})
    ensures Held(s')
  {
    BagSame(s.q.privInit, i, p, IdOf);
    forall p' | p' in s'.q.privInit && p' != p ensures p' in s.q.privInit {
    }
    assert s.q.privInit[i] in s.q.privInit;
  }

  // ----- CMD_UNLINK -----

  /** The number of a submit never names an entry that an unlink took over. */
  lemma VictimIsLive(s: State, n: Seqnum, target: Seqnum)
    requires DistinctNumbers(s.log) && UnlinksAccounted(s)
    requires target in s.log.submits || target in s.log.ignored
    requires FirstWithSeqnum(s.q.privInit, target) < |s.q.privInit|
    ensures !s.q.privInit[FirstWithSeqnum(s.q.privInit, target)].unlinking
  {
    var l := s.log;
    assert multiset(l.submits + l.unlinks + l.ignored)
        == multiset(l.submits) + multiset(l.unlinks) + multiset(l.ignored);
    assert multiset(l.submits + l.unlinks + l.ignored)[target] <= 1;
    assert target in multiset(l.submits) + multiset(l.ignored);
    assert target !in multiset(l.unlinks);
    assert target !in Bag(s.q.privInit, CarriedOf);
    var i := FirstWithSeqnum(s.q.privInit, target);
    BagContains(s.q.privInit, i, CarriedOf);
    assert target !in CarriedOf(s.q.privInit[i]);
  }

  /** A pending victim takes over the number of its unlink. */
  ghost predicate TakenOver(s: State, s': State, i: nat, n: Seqnum) {
    && i < |s.q.privInit| && !s.q.privInit[i].unlinking
    && s' == s.(q := s.q.(privInit := s.q.privInit[i := s.q.privInit[i].(seqnum := n, unlinking := true)]),
                log := s.log.(unlinks := s.log.unlinks + [n],
                              takeovers := s.log.takeovers + [Takeover(s.q.privInit[i].seqnum, n)]))
  }

  lemma TakenOverHeld(s: State, s': State, i: nat, n: Seqnum)
    requires Owned(s) && Held(s) && Sorted(s) && s.rx == Idle && TakenOver(s, s', i, n)
    ensures Owned(s') && Held(s') && Sorted(s')
  {
    BagSame(s.q.privInit, i, s'.q.privInit[i], IdOf);
  }

  lemma TakenOverSubmits(s: State, s': State, i: nat, n: Seqnum)
    requires SubmitsAccounted(s) && TakenOver(s, s', i, n)
    ensures SubmitsAccounted(s')
  {
    var p := s.q.privInit[i];
    BagUpdate(s.q.privInit, i, s'.q.privInit[i], LiveOf);
    assert Bag(s.q.privInit, LiveOf) == Bag(s'.q.privInit, LiveOf) + multiset{p.seqnum};
    BagAppend(s.log.takeovers, Takeover(p.seqnum, n), VictimOf);
    assert Bag(s'.log.takeovers, VictimOf) == Bag(s.log.takeovers, VictimOf) + multiset{p.seqnum};
  }

  lemma TakenOverUnlinks(s: State, s': State, i: nat, n: Seqnum)
    requires UnlinksAccounted(s) && TakenOver(s, s', i, n)
    ensures UnlinksAccounted(s')
  {
    BagUpdate(s.q.privInit, i, s'.q.privInit[i], CarriedOf);
    assert Bag(s'.q.privInit, CarriedOf) == Bag(s.q.privInit, CarriedOf) + multiset{n};
  }

  lemma TakenOverCarried(s: State, s': State, i: nat, n: Seqnum)
    requires TakenOver(s, s', i, n)
    ensures Bag(s'.q.privInit, CarriedOf) == Bag(s.q.privInit, CarriedOf) + multiset{n}
    ensures Bag(s'.log.takeovers, UnlinkerOf) == Bag(s.log.takeovers, UnlinkerOf) + multiset{n}
  {
    BagUpdate(s.q.privInit, i, s'.q.privInit[i], CarriedOf);
    BagAppend(s.log.takeovers, Takeover(s.q.privInit[i].seqnum, n), UnlinkerOf);
  }

  lemma TakenOverTakeovers(s: State, s': State, i: nat, n: Seqnum)
    requires TakeoversAccounted(s) && TakenOver(s, s', i, n)
    ensures TakeoversAccounted(s')
  {
    TakenOverCarried(s, s', i, n);
    assert s'.log.freedUnlinking == s.log.freedUnlinking && s'.log.enteredUnlink == s.log.enteredUnlink;
  }

  lemma TakenOverPositions(s: State, s': State, i: nat, n: Seqnum)
    requires Positions(s) && TakenOver(s, s', i, n)
    ensures Positions(s')
  {
    forall j | 0 <= j < |s'.q.privInit| ensures s'.q.privInit[j].id == s.q.privInit[j].id {
    }
  }

  lemma TakenOverInv(s: State, s': State, i: nat, n: Seqnum)
    requires Inv(s) && s.rx == Idle && Fresh(s.log, n) && TakenOver(s, s', i, n)
    ensures Inv(s')
  {
    TakenOverHeld(s, s', i, n);
    NextNumber(s.log, s'.log, n);
    TakenOverSubmits(s, s', i, n);
    TakenOverUnlinks(s, s', i, n);
    TakenOverTakeovers(s, s', i, n);
    TakenOverPositions(s, s', i, n);
  }

  /** A late unlink is answered from unlink_tx, or lost when there is no memory for its reply. */
  ghost predicate Late(s: State, s': State, n: Seqnum, allocOk: bool) {
    var l := s.log.(unlinks := s.log.unlinks + [n]);
    var u := Unlink(n, Completed);
    if allocOk then
      s' == s.(q := s.q.(unlinkTx := s.q.unlinkTx + [u]), log := l.(enteredUnlink := l.enteredUnlink + [u]))
    else
      s' == s.(event := true, log := l.(lost := l.lost + [n]))
  }

  lemma LateFifo(s: State, s': State, n: Seqnum, allocOk: bool)
    requires Fifo(s) && Late(s, s', n, allocOk)
    ensures Fifo(s')
  {
    if allocOk { assert s'.q.unlinkTx == s.q.unlinkTx + [Unlink(n, Completed)]; }
  }

  lemma LateAccounted(s: State, s': State, n: Seqnum, allocOk: bool)
    requires SubmitsAccounted(s) && UnlinksAccounted(s) && TakeoversAccounted(s) && Late(s, s', n, allocOk)
    ensures SubmitsAccounted(s') && UnlinksAccounted(s') && TakeoversAccounted(s')
  {
    if allocOk { BagAppend(s.log.enteredUnlink, Unlink(n, Completed), UnlinkNumOf); }
  }

  lemma LateInv(s: State, s': State, n: Seqnum, allocOk: bool)
    requires Inv(s) && Fresh(s.log, n) && Late(s, s', n, allocOk)
    ensures Inv(s')
  {
    LateFifo(s, s', n, allocOk);
    NextNumber(s.log, s'.log, n);
    LateAccounted(s, s', n, allocOk);
  }

  lemma UnlinkInv(s: State, n: Seqnum, target: Seqnum, allocOk: bool)
    requires Inv(s) && Enabled(s, RxUnlink(n, target, allocOk))
    ensures Inv(UnlinkStep(s, n, target, allocOk))
  {
    var s' := UnlinkStep(s, n, target, allocOk);
    var i := FirstWithSeqnum(s.q.privInit, target);
    if i < |s.q.privInit| {
      VictimIsLive(s, n, target);
      TakenOverInv(s, s', i, n);
    } else {
      LateInv(s, s', n, allocOk);
    }
  }

  // ----- every step, every run -----

  lemma AllocPositions(s: State, n: Seqnum, dir: byte)
    requires Fifo(s) && Sorted(s) && Positions(s) && s.rx == Idle
    ensures Fifo(AllocStep(s, n, dir)) && Sorted(AllocStep(s, n, dir)) && Positions(AllocStep(s, n, dir))
  {
  }

  lemma AllocInv(s: State, n: Seqnum, dir: byte)
    requires Inv(s) && s.rx == Idle && Fresh(s.log, n)
    ensures Inv(AllocStep(s, n, dir))
  {
    AllocOwned(s, n, dir);
    AllocPositions(s, n, dir);
    NextNumber(s.log, AllocStep(s, n, dir).log, n);
    AllocSubmits(s, n, dir);
    AllocUnlinks(s, n, dir);
  }

  lemma IgnoreInv(s: State, s': State, n: Seqnum)
    requires Inv(s) && s.rx == Idle && Fresh(s.log, n)
    requires s' == s.(log := s.log.(ignored := s.log.ignored + [n]))
          || s' == s.(rx := Halted, event := true, log := s.log.(ignored := s.log.ignored + [n]))
    ensures Inv(s')
  {
    NextNumber(s.log, s'.log, n);
  }

  lemma StepInv(s: State, step: Step)
    requires Inv(s) && Enabled(s, step)
    ensures Inv(Apply(s, step))
  {
    match step {
      case RxIgnore(n) => IgnoreInv(s, Apply(s, step), n);
      case RxAllocFails(n) => IgnoreInv(s, Apply(s, step), n);
      case RxAlloc(n, dir) => AllocInv(s, n, dir);
      case RxSubmit(trx) => SetTransferInv(s, SubmitStep(s, trx), trx);
      case RxAbandon(trx) => SetTransferInv(s, AbandonStep(s, trx), trx);
      case RxIntercept(trx) => InterceptInv(s, trx);
      case RxUnlink(n, target, allocOk) => UnlinkInv(s, n, target, allocOk);
      case Completion(id, trx, allocOk) => CompletionInv(s, id, trx, allocOk);
      case _ => TxInv(s, step);
    }
  }

  lemma {:induction false} RunInv(c: bool, run: seq<Step>)
    requires Legal(Init(c), run)
    ensures Inv(After(Init(c), run))
    decreases |run|
  {
    if run == [] {
      InitInv(c);
    } else {
      RunInv(c, run[..|run| - 1]);
      StepInv(After(Init(c), run[..|run| - 1]), run[|run| - 1]);
    }
  }

  lemma InitInv(c: bool)
    ensures Inv(Init(c))
  {
  }
}
