/** The unlink race. A late unlink u of a submit t that has completed gets its own RET_UNLINK, and
    the tx loop sends submits before unlinks so that the client sees RET_SUBMIT(t) first. That order
    holds exactly when tx is not between seeing priv_tx empty and seeing unlink_tx empty with t
    queued meanwhile. */
module UrbOrder {
  import opened Usb
  import opened UrbQueues
  import opened Bags
  import opened UrbProtocol
  import opened UrbInvariant
  import opened UrbAccounts

  /** tx has seen priv_tx empty and not yet seen unlink_tx empty. */
  predicate DrainingUnlinks(tx: TxPc) {
    tx.FreeingSubmits? || tx.Unlinks? || tx.SendUnlink?
  }

  predicate QueuedTx(s: State, t: Seqnum) { exists p :: p in s.q.privTx && p.seqnum == t }

  predicate Answers(r: Reply, t: Seqnum) { r.RetSubmit? && r.priv.seqnum == t }

  predicate Confirms(r: Reply, u: Seqnum) { r.RetUnlink? && r.unlink.seqnum == u }

  predicate Answered(wire: seq<Reply>, t: Seqnum) { exists i :: 0 <= i < |wire| && Answers(wire[i], t) }

  predicate Confirmed(wire: seq<Reply>, u: Seqnum) { exists j :: 0 <= j < |wire| && Confirms(wire[j], u) }

  /** The client reads the result of t before the result of its unlink u. */
  predicate ResultFirst(wire: seq<Reply>, t: Seqnum, u: Seqnum) {
    exists i, j :: 0 <= i < j < |wire| && Answers(wire[i], t) && Confirms(wire[j], u)
  }

  // ----- counts as places -----

  lemma AnsweredCount(s: State, t: Seqnum)
    ensures Answered(s.log.wire, t) <==> Bag(s.log.wire, RetSubmitNum)[t] > 0
    ensures Confirmed(s.log.wire, t) <==> Bag(s.log.wire, RetUnlinkNum)[t] > 0
  {
    var w := s.log.wire;
    if Bag(w, RetSubmitNum)[t] > 0 {
      var i := BagSource(w, t, RetSubmitNum);
      assert Answers(w[i], t);
    }
    if Bag(w, RetUnlinkNum)[t] > 0 {
      var i := BagSource(w, t, RetUnlinkNum);
      assert Confirms(w[i], t);
    }
    forall i | 0 <= i < |w| && Answers(w[i], t) ensures t in Bag(w, RetSubmitNum) {
      BagContains(w, i, RetSubmitNum);
      assert t in RetSubmitNum(w[i]);
    }
    forall i | 0 <= i < |w| && Confirms(w[i], t) ensures t in Bag(w, RetUnlinkNum) {
      BagContains(w, i, RetUnlinkNum);
      assert t in RetUnlinkNum(w[i]);
    }
  }

  /** A submit still in priv_tx has no reply yet; a confirmed unlink is queued nowhere else. */
  lemma Exclusive(s: State, n: Seqnum)
    requires Fifo(s) && Accounted(s)
    ensures QueuedTx(s, n) ==> !Answered(s.log.wire, n)
    ensures Confirmed(s.log.wire, n) ==> forall u :: u in UnsentUnlinks(s.tx) ==> u.seqnum != n
  {
    CountOnce(s, n);
    EnteredPlaces(s, n);
    AnsweredCount(s, n);
    assert SubmitsAccounted(s) && UnlinksAccounted(s);
    assert Bag(s.log.enteredTx, NumOf)[n] <= multiset(s.log.submits)[n];
    assert Bag(s.log.enteredUnlink, UnlinkNumOf)[n] <= multiset(s.log.unlinks)[n];
    if QueuedTx(s, n) {
      var i :| 0 <= i < |s.q.privTx| && s.q.privTx[i].seqnum == n;
      BagContains(s.q.privTx, i, NumOf);
      assert n in NumOf(s.q.privTx[i]);
    }
    if Confirmed(s.log.wire, n) {
      var us := UnsentUnlinks(s.tx);
      forall i | 0 <= i < |us| ensures us[i].seqnum != n {
        BagContains(us, i, UnlinkNumOf);
        assert us[i].seqnum in UnlinkNumOf(us[i]);
      }
    }
  }

  // ----- one step -----

  /** Nobody but the tx thread's sends touches the wire, and nothing but its dequeue takes t away. */
  lemma QueueGrows(s: State, step: Step, t: Seqnum)
    requires Enabled(s, step)
    ensures var s' := Apply(s, step);
      && (s'.log.wire == s.log.wire
          || (step.TxSendSubmit? && s'.log.wire == s.log.wire + [RetSubmit(s.tx.priv)])
          || (step.TxSendUnlink? && s'.log.wire == s.log.wire + [RetUnlink(s.tx.unlink)]))
      && (!IsTx(step) ==> s'.tx == s.tx && s'.log.wire == s.log.wire)
      && (QueuedTx(s, t) && !step.TxDequeueSubmit? ==> QueuedTx(s', t))
      && (forall u :: u in s.q.unlinkTx && !step.TxDequeueUnlink? ==> u in s'.q.unlinkTx)
  {
    if QueuedTx(s, t) && !step.TxDequeueSubmit? {
      var p :| p in s.q.privTx && p.seqnum == t;
      assert p in Apply(s, step).q.privTx;
    }
  }

  /** The tx thread has left its loop. */
  predicate Ended(tx: TxPc) { tx.Stopped? || tx.FailedSubmit? || tx.FailedUnlink? }

  /** On the way to the result first. */
  ghost predicate Good(s: State, t: Seqnum, u: Seqnum) {
    if Answered(s.log.wire, t) then Confirmed(s.log.wire, u) ==> ResultFirst(s.log.wire, t, u)
    else
      && !Confirmed(s.log.wire, u)
      && (|| Ended(s.tx)
          || (s.tx.SendSubmit? && s.tx.priv.seqnum == t)
          || (QueuedTx(s, t) && !DrainingUnlinks(s.tx)))
  }

  /** On the way to the confirmation first. */
  ghost predicate Bad(s: State, t: Seqnum, u: Seqnum) {
    if Confirmed(s.log.wire, u) then !ResultFirst(s.log.wire, t, u)
    else
      && !Answered(s.log.wire, t)
      && (|| Ended(s.tx)
          || (QueuedTx(s, t) && s.tx.SendUnlink? && s.tx.unlink.seqnum == u)
          || (QueuedTx(s, t) && DrainingUnlinks(s.tx) && exists x :: x in s.q.unlinkTx && x.seqnum == u))
  }

  lemma WireGrows(w: seq<Reply>, r: Reply, t: Seqnum, u: Seqnum)
    ensures Answered(w + [r], t) <==> Answered(w, t) || Answers(r, t)
    ensures Confirmed(w + [r], u) <==> Confirmed(w, u) || Confirms(r, u)
    ensures ResultFirst(w + [r], t, u) <==> ResultFirst(w, t, u) || (Answered(w, t) && Confirms(r, u))
  {
    var w' := w + [r];
    forall i | 0 <= i < |w| ensures w'[i] == w[i] {
    }
    assert w'[|w|] == r;
    if ResultFirst(w', t, u) {
      var i, j :| 0 <= i < j < |w'| && Answers(w'[i], t) && Confirms(w'[j], u);
      assert Answers(w[i], t);
    }
    if ResultFirst(w, t, u) {
      var i, j :| 0 <= i < j < |w| && Answers(w[i], t) && Confirms(w[j], u);
      assert Answers(w'[i], t) && Confirms(w'[j], u);
    }
    if Answered(w, t) {
      var i :| 0 <= i < |w| && Answers(w[i], t);
      assert Answers(w'[i], t);
    }
    if Confirmed(w, u) {
      var j :| 0 <= j < |w| && Confirms(w[j], u);
      assert Confirms(w'[j], u);
    }
  }

  lemma SendSubmitKeeps(s: State, ok: bool, t: Seqnum, u: Seqnum)
    requires s.tx.SendSubmit?
    ensures Good(s, t, u) ==> Good(SendSubmitStep(s, ok), t, u)
    ensures Bad(s, t, u) ==> Bad(SendSubmitStep(s, ok), t, u)
  {
    WireGrows(s.log.wire, RetSubmit(s.tx.priv), t, u);
  }

  lemma SendUnlinkKeeps(s: State, ok: bool, t: Seqnum, u: Seqnum)
    requires s.tx.SendUnlink? && (Confirmed(s.log.wire, u) ==> s.tx.unlink.seqnum != u)
    ensures Good(s, t, u) ==> Good(SendUnlinkStep(s, ok), t, u)
    ensures Bad(s, t, u) ==> Bad(SendUnlinkStep(s, ok), t, u)
  {
    WireGrows(s.log.wire, RetUnlink(s.tx.unlink), t, u);
  }

  lemma DequeueSubmitKeeps(s: State, t: Seqnum, u: Seqnum)
    requires s.tx == Submits
    ensures Good(s, t, u) ==> Good(DequeueSubmitStep(s), t, u)
    ensures Bad(s, t, u) ==> Bad(DequeueSubmitStep(s), t, u)
  {
    if QueuedTx(s, t) {
      var p :| p in s.q.privTx && p.seqnum == t;
      assert s.q.privTx == [s.q.privTx[0]] + s.q.privTx[1..];
      if s.q.privTx[0].seqnum != t { assert p in DequeueSubmitStep(s).q.privTx; }
    }
  }

  lemma DequeueUnlinkKeeps(s: State, t: Seqnum, u: Seqnum)
    requires s.tx == Unlinks
    ensures Good(s, t, u) ==> Good(DequeueUnlinkStep(s), t, u)
    ensures Bad(s, t, u) ==> Bad(DequeueUnlinkStep(s), t, u)
  {
    if s.q.unlinkTx != [] {
      assert s.q.unlinkTx == [s.q.unlinkTx[0]] + s.q.unlinkTx[1..];
    }
  }

  lemma QuietStepKeeps(s: State, step: Step, t: Seqnum, u: Seqnum)
    requires Enabled(s, step) && !step.TxDequeueSubmit? && !step.TxDequeueUnlink?
    requires !step.TxSendSubmit? && !step.TxSendUnlink?
    ensures Good(s, t, u) ==> Good(Apply(s, step), t, u)
    ensures Bad(s, t, u) ==> Bad(Apply(s, step), t, u)
  {
    QueueGrows(s, step, t);
    var s' := Apply(s, step);
    assert s'.log.wire == s.log.wire;
    if DrainingUnlinks(s.tx) { assert DrainingUnlinks(s'.tx) || Ended(s'.tx); }
    if DrainingUnlinks(s'.tx) { assert DrainingUnlinks(s.tx); }
  }

  lemma StepKeeps(s: State, step: Step, t: Seqnum, u: Seqnum)
    requires Enabled(s, step)
    requires Confirmed(s.log.wire, u) ==> forall x :: x in UnsentUnlinks(s.tx) ==> x.seqnum != u
    ensures Good(s, t, u) ==> Good(Apply(s, step), t, u)
    ensures Bad(s, t, u) ==> Bad(Apply(s, step), t, u)
  {
    match step {
      case TxDequeueSubmit => DequeueSubmitKeeps(s, t, u);
      case TxDequeueUnlink => DequeueUnlinkKeeps(s, t, u);
      case TxSendSubmit(ok) => SendSubmitKeeps(s, ok, t, u);
      case TxSendUnlink(ok) =>
        assert s.tx.unlink in UnsentUnlinks(s.tx);
        SendUnlinkKeeps(s, ok, t, u);
      case _ => QuietStepKeeps(s, step, t, u);
    }
  }

  lemma {:induction false} RunKeeps(s: State, run: seq<Step>, t: Seqnum, u: Seqnum)
    requires Inv(s) && Legal(s, run)
    ensures Inv(After(s, run))
    ensures Good(s, t, u) ==> Good(After(s, run), t, u)
    ensures Bad(s, t, u) ==> Bad(After(s, run), t, u)
    decreases |run|
  {
    if run != [] {
      var before := run[..|run| - 1];
      RunKeeps(s, before, t, u);
      StepInv(After(s, before), run[|run| - 1]);
      Exclusive(After(s, before), u);
      StepKeeps(After(s, before), run[|run| - 1], t, u);
    }
  }

  // ----- the theorem -----

  /** u is handled in state s when t has already moved to priv_tx: its reply is queued by itself. */
  ghost predicate LateUnlink(s: State, u: Seqnum, t: Seqnum) {
    && Enabled(s, RxUnlink(u, t, true))
    && exists p :: p in s.log.enteredTx && p.seqnum == t
  }

  /** t is no longer pending, and its entry is where its reply comes from. */
  lemma CompletedPlace(s: State, t: Seqnum)
    requires Fifo(s) && Accounted(s) && exists p :: p in s.log.enteredTx && p.seqnum == t
    ensures t !in Bag(s.q.privInit, LiveOf)
    ensures Answered(s.log.wire, t) || QueuedTx(s, t) || exists p :: p in UnsentSubmits(s.tx) && p.seqnum == t
  {
    CountOnce(s, t);
    EnteredPlaces(s, t);
    AnsweredCount(s, t);
    var k :| 0 <= k < |s.log.enteredTx| && s.log.enteredTx[k].seqnum == t;
    BagContains(s.log.enteredTx, k, NumOf);
    assert t in NumOf(s.log.enteredTx[k]);
    assert SubmitsAccounted(s);
    assert Bag(s.q.privInit, LiveOf)[t] + Bag(s.log.enteredTx, NumOf)[t] <= multiset(s.log.submits)[t];
    if Bag(s.q.privTx, NumOf)[t] > 0 {
      var j := BagSource(s.q.privTx, t, NumOf);
      assert s.q.privTx[j] in s.q.privTx;
    }
    if Bag(UnsentSubmits(s.tx), NumOf)[t] > 0 {
      var j := BagSource(UnsentSubmits(s.tx), t, NumOf);
      assert UnsentSubmits(s.tx)[j] in UnsentSubmits(s.tx);
    }
  }

  lemma NotYetConfirmed(s: State, u: Seqnum)
    requires Fifo(s) && UnlinksAccounted(s) && u !in s.log.unlinks
    ensures !Confirmed(s.log.wire, u)
  {
    EnteredPlaces(s, u);
    AnsweredCount(s, u);
    assert u !in multiset(s.log.unlinks);
    assert Bag(s.log.enteredUnlink, UnlinkNumOf)[u] <= multiset(s.log.unlinks)[u];
  }

  lemma NotPending(s: State, u: Seqnum, t: Seqnum)
    requires DistinctNumbers(s.log) && UnlinksAccounted(s) && (t in s.log.submits || t in s.log.ignored)
    requires t !in Bag(s.q.privInit, LiveOf)
    ensures FirstWithSeqnum(s.q.privInit, t) == |s.q.privInit|
  {
    forall i | 0 <= i < |s.q.privInit| && !s.q.privInit[i].unlinking ensures s.q.privInit[i].seqnum != t {
      BagContains(s.q.privInit, i, LiveOf);
      assert s.q.privInit[i].seqnum in LiveOf(s.q.privInit[i]);
    }
    if FirstWithSeqnum(s.q.privInit, t) < |s.q.privInit| {
      VictimIsLive(s, u, t);
    }
  }

  lemma LateEffect(s: State, u: Seqnum, t: Seqnum)
    requires FirstWithSeqnum(s.q.privInit, t) == |s.q.privInit| && !Confirmed(s.log.wire, u)
    requires Answered(s.log.wire, t) || QueuedTx(s, t) || exists p :: p in UnsentSubmits(s.tx) && p.seqnum == t
    requires QueuedTx(s, t) ==> !Answered(s.log.wire, t)
    ensures var s1 := UnlinkStep(s, u, t, true);
      if QueuedTx(s, t) && DrainingUnlinks(s.tx) then Bad(s1, t, u) else Good(s1, t, u)
  {
    var s1 := UnlinkStep(s, u, t, true);
    assert s1.q.unlinkTx[|s.q.unlinkTx|] == Unlink(u, Completed);
    assert Unlink(u, Completed) in s1.q.unlinkTx;
    assert s1.tx == s.tx && s1.log.wire == s.log.wire && s1.q.privTx == s.q.privTx;
  }

  /** What the invariant says of a late unlink's target: it is neither pending nor confirmed, and where its reply
      comes from. */
  lemma LateTarget(s: State, u: Seqnum, t: Seqnum)
    requires Fifo(s) && Accounted(s) && LateUnlink(s, u, t)
    ensures FirstWithSeqnum(s.q.privInit, t) == |s.q.privInit| && !Confirmed(s.log.wire, u)
    ensures Answered(s.log.wire, t) || QueuedTx(s, t) || exists p :: p in UnsentSubmits(s.tx) && p.seqnum == t
  {
    CompletedPlace(s, t);
    NotYetConfirmed(s, u);
    NotPending(s, u, t);
  }

  lemma LateStart(s: State, u: Seqnum, t: Seqnum)
    requires Fifo(s) && Accounted(s) && LateUnlink(s, u, t)
    ensures var s1 := UnlinkStep(s, u, t, true);
      if QueuedTx(s, t) && DrainingUnlinks(s.tx) then Bad(s1, t, u) else Good(s1, t, u)
  {
    LateTarget(s, u, t);
    Exclusive(s, t);
    LateEffect(s, u, t);
  }

  /** In every run in which the confirmation goes out, the result of t comes before it if and only if t was not
      waiting in priv_tx while tx was draining unlinks at the moment u was handled. */
  lemma LateUnlinkOrder(connected: bool, before: seq<Step>, u: Seqnum, t: Seqnum, after: seq<Step>)
    requires Legal(Init(connected), before)
    requires LateUnlink(After(Init(connected), before), u, t)
    requires Legal(Apply(After(Init(connected), before), RxUnlink(u, t, true)), after)
    requires Confirmed(After(Apply(After(Init(connected), before), RxUnlink(u, t, true)), after).log.wire, u)
    ensures var s := After(Init(connected), before);
      var w := After(Apply(s, RxUnlink(u, t, true)), after).log.wire;
      ResultFirst(w, t, u) <==> !(QueuedTx(s, t) && DrainingUnlinks(s.tx))
  {
    var s := After(Init(connected), before);
    RunInv(connected, before);
    StepInv(s, RxUnlink(u, t, true));
    LateStart(s, u, t);
    RunKeeps(Apply(s, RxUnlink(u, t, true)), after, t, u);
  }

  // ----- what the comment in stub_tx_loop relies on, and what breaks it -----

  /** rx answers t itself: t is a control request that it intercepts. */
  predicate Intercepts(s: State, step: Step, t: Seqnum) {
    step.RxIntercept? && s.rx.Preparing? &&
    var i := FirstWithId(s.q.privInit, s.rx.id);
    i < |s.q.privInit| && s.q.privInit[i].seqnum == t
  }

  /** libusb completes transfers only while the tx thread polls it, and t is never intercepted. */
  ghost predicate CompletesInPoll(s: State, run: seq<Step>, t: Seqnum)
    requires Legal(s, run)
    decreases |run|
  {
    run == [] ||
    var before, step := run[..|run| - 1], run[|run| - 1];
    && CompletesInPoll(s, before, t)
    && (step.Completion? ==> After(s, before).tx.Poll?)
    && !Intercepts(After(s, before), step, t)
  }

  lemma {:induction false} NeverQueuedWhileDraining(connected: bool, run: seq<Step>, t: Seqnum)
    requires Legal(Init(connected), run) && CompletesInPoll(Init(connected), run, t)
    ensures var s := After(Init(connected), run); DrainingUnlinks(s.tx) ==> !QueuedTx(s, t)
    decreases |run|
  {
    if run != [] {
      var before, step := run[..|run| - 1], run[|run| - 1];
      NeverQueuedWhileDraining(connected, before, t);
      StillNotQueued(After(Init(connected), before), step, t);
    }
  }

  lemma StillNotQueued(s: State, step: Step, t: Seqnum)
    requires Enabled(s, step) && (step.Completion? ==> s.tx.Poll?) && !Intercepts(s, step, t)
    requires DrainingUnlinks(s.tx) ==> !QueuedTx(s, t)
    ensures DrainingUnlinks(Apply(s, step).tx) ==> !QueuedTx(Apply(s, step), t)
  {
  }

  /** The order that the tx loop is written for: it holds in every such run. */
  lemma ResultBeforeLateUnlink(connected: bool, before: seq<Step>, u: Seqnum, t: Seqnum, after: seq<Step>)
    requires Legal(Init(connected), before) && CompletesInPoll(Init(connected), before, t)
    requires LateUnlink(After(Init(connected), before), u, t)
    requires Legal(Apply(After(Init(connected), before), RxUnlink(u, t, true)), after)
    ensures var w := After(Apply(After(Init(connected), before), RxUnlink(u, t, true)), after).log.wire;
      Confirmed(w, u) ==> ResultFirst(w, t, u)
  {
    var s := After(Init(connected), before);
    var s1 := Apply(s, RxUnlink(u, t, true));
    NeverQueuedWhileDraining(connected, before, t);
    RunInv(connected, before);
    StepInv(s, RxUnlink(u, t, true));
    LateStart(s, u, t);
    RunKeeps(s1, after, t, u);
  }

  /** A SET_INTERFACE request. */
  const INTERCEPTED_TRX := Transfer(Control, false, Completed, 0, [1, 11, 1, 0, 0, 0, 0, 0], [])
  const INTERCEPTED_PRIV := Priv(0, 1, 0, false, INTERCEPTED_TRX)
  const LATE_REPLY := Unlink(2, Completed)

  /** tx has drained an empty priv_tx. */
  lemma UnlinksReached() returns (run: seq<Step>)
    ensures Legal(Init(true), run) && After(Init(true), run) == Init(true).(tx := Unlinks)
  {
    run := [];
    Extend(Init(true), run, TxPoll(true)); run := run + [TxPoll(true)];
    Extend(Init(true), run, TxDequeueSubmit); run := run + [TxDequeueSubmit];
    Extend(Init(true), run, TxFreeSubmits); run := run + [TxFreeSubmits];
  }

  lemma SetInterfaceIsIntercepted()
    ensures Intercepted(INTERCEPTED_TRX)
  {
  }

  lemma OneIntercepted(s: State)
    requires s.q == EMPTY && s.log.nextId == 0
    ensures InterceptStep(AllocStep(s, 1, 0), INTERCEPTED_TRX).q == EMPTY.(privTx := [INTERCEPTED_PRIV])
  {
    assert AllocStep(s, 1, 0).q.privInit == [Priv(0, 1, 0, false, Null)];
  }

  /** ... and then rx intercepts submit 1 and handles its unlink 2. */
  lemma OvertakenSetup() returns (run: seq<Step>)
    ensures Legal(Init(true), run)
    ensures var s := After(Init(true), run);
      s.q == EMPTY.(privTx := [INTERCEPTED_PRIV], unlinkTx := [LATE_REPLY]) && s.tx == Unlinks && s.log.wire == []
      && s.passBytes == 0
  {
    run := UnlinksReached();
    OneIntercepted(After(Init(true), run));
    SetInterfaceIsIntercepted();
    Extend(Init(true), run, RxAlloc(1, 0));
    run := run + [RxAlloc(1, 0)];
    Extend(Init(true), run, RxIntercept(INTERCEPTED_TRX));
    run := run + [RxIntercept(INTERCEPTED_TRX)];
    Extend(Init(true), run, RxUnlink(2, 1, true));
    run := run + [RxUnlink(2, 1, true)];
  }

  /** ... and tx confirms the unlink. */
  lemma UnlinkConfirmed() returns (run: seq<Step>)
    ensures Legal(Init(true), run)
    ensures var s := After(Init(true), run);
      s.q.privTx == [INTERCEPTED_PRIV] && s.tx == Poll && s.log.wire == [RetUnlink(LATE_REPLY)]
  {
    run := OvertakenSetup();
    Extend(Init(true), run, TxDequeueUnlink);
    run := run + [TxDequeueUnlink];
    Extend(Init(true), run, TxSendUnlink(true));
    run := run + [TxSendUnlink(true)];
    Extend(Init(true), run, TxDequeueUnlink);
    run := run + [TxDequeueUnlink];
    Extend(Init(true), run, TxFreeUnlinks);
    run := run + [TxFreeUnlinks];
  }

  /** A request that rx intercepts while tx drains unlinks is overtaken by its own late unlink. */
  lemma InterceptedIsOvertaken() returns (run: seq<Step>)
    ensures Legal(Init(true), run)
    ensures var w := After(Init(true), run).log.wire;
      |w| == 2 && Confirms(w[0], 2) && Answers(w[1], 1) && !ResultFirst(w, 1, 2)
  {
    run := UnlinkConfirmed();
    Extend(Init(true), run, TxPoll(true));
    run := run + [TxPoll(true)];
    Extend(Init(true), run, TxDequeueSubmit);
    run := run + [TxDequeueSubmit];
    Extend(Init(true), run, TxSendSubmit(true));
    run := run + [TxSendSubmit(true)];
    assert After(Init(true), run).log.wire == [RetUnlink(LATE_REPLY), RetSubmit(INTERCEPTED_PRIV)];
  }
}
