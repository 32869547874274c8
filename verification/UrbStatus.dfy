/** The result that libusb reports is the result the client reads. Only an error on a transfer whose short reads count
    as errors is turned into a completion. */
module UrbStatus {
  import opened Usb
  import opened IsoTransfers
  import opened UrbQueues
  import opened UrbProtocol
  import opened UrbInvariant
  import opened UrbAccounts
  import opened ReplyStream

  /** The two results that count as success. */
  predicate Succeeded(trx: Transfer)
    requires trx.Transfer?
  {
    trx.status == Completed || (trx.status == Error && trx.shortNotOk)
  }

  /** t is passed on for the result trx: with libusb's data, and its status unless that counts as success. */
  predicate PassedOn(trx: Transfer, t: Transfer) {
    && trx.Transfer? && t.Transfer?
    && t.kind == trx.kind && t.shortNotOk == trx.shortNotOk && t.actualLength == trx.actualLength
    && t.buffer == trx.buffer && t.packets == trx.packets
    && t.status == if Succeeded(trx) then Completed else trx.status
  }

  /** The entry that a completion takes off priv_init at i, with its transfer as passed on. */
  predicate Completes(p: Priv, trx: Transfer, p': Priv) {
    p'.id == p.id && p'.seqnum == p.seqnum && p'.dir == p.dir && p'.unlinking == p.unlinking && PassedOn(trx, p'.trx)
  }

  /** What stub_complete does on an open connection: an entry that no unlink took over joins priv_tx with libusb's
      result; of another the result joins unlink_tx under its number, if there is memory. */
  lemma CompletionQueues(q: Queues, i: nat, trx: Transfer, allocOk: bool)
    requires i < |q.privInit| && trx.Transfer?
    requires forall j :: 0 <= j < i ==> q.privInit[j].id != q.privInit[i].id
    ensures var p, q' := q.privInit[i], Complete(q, true, q.privInit[i].id, trx, allocOk);
      && q'.privInit == q.privInit[..i] + q.privInit[i + 1..]
      && q'.privFree == q.privFree && q'.unlinkFree == q.unlinkFree
      && (!p.unlinking ==>
           && |q'.privTx| == |q.privTx| + 1 && q.privTx <= q'.privTx && Completes(p, trx, q'.privTx[|q.privTx|])
           && q'.unlinkTx == q.unlinkTx)
      && (p.unlinking ==>
           && q'.privTx == q.privTx
           && q'.unlinkTx == q.unlinkTx + if !allocOk then []
                else [Unlink(p.seqnum, if Succeeded(trx) then Completed else trx.status)])
  {
    assert FirstWithId(q.privInit, q.privInit[i].id) == i;
  }

  /** On a closed one the entry stays where it is, with its result, and nothing is queued. */
  lemma ClosedQueues(q: Queues, i: nat, trx: Transfer, allocOk: bool)
    requires i < |q.privInit| && trx.Transfer?
    requires forall j :: 0 <= j < i ==> q.privInit[j].id != q.privInit[i].id
    ensures var q' := Complete(q, false, q.privInit[i].id, trx, allocOk);
      && |q'.privInit| == |q.privInit| && Completes(q.privInit[i], trx, q'.privInit[i])
      && (forall j :: 0 <= j < |q.privInit| && j != i ==> q'.privInit[j] == q.privInit[j])
      && q' == q.(privInit := q'.privInit)
  {
    assert FirstWithId(q.privInit, q.privInit[i].id) == i;
  }

  /** An unlink whose victim is pending takes over the first such entry: only its number and its mark change, and no
      reply is queued. */
  lemma TakeoverQueues(q: Queues, i: nat, seqnum: Seqnum, target: Seqnum, allocOk: bool)
    requires i < |q.privInit| && q.privInit[i].seqnum == target
    requires forall j :: 0 <= j < i ==> q.privInit[j].seqnum != target
    ensures var p, q' := q.privInit[i], RecvUnlink(q, seqnum, target, allocOk);
      && q' == q.(privInit := q'.privInit) && |q'.privInit| == |q.privInit|
      && (forall j :: 0 <= j < |q.privInit| && j != i ==> q'.privInit[j] == q.privInit[j])
      && q'.privInit[i] == Priv(p.id, seqnum, p.dir, true, p.trx)
  {
    assert FirstWithSeqnum(q.privInit, target) == i;
  }

  /** A late unlink is confirmed as completed. */
  lemma LateUnlinkQueues(q: Queues, seqnum: Seqnum, target: Seqnum)
    requires forall p :: p in q.privInit ==> p.seqnum != target
    ensures RecvUnlink(q, seqnum, target, true) == q.(unlinkTx := q.unlinkTx + [Unlink(seqnum, Completed)])
  {
  }

  // ----- in runs -----

  /** The step of the run that gave the entry its result. */
  predicate ResultOf(step: Step, p: Priv) {
    || (step.Completion? && step.id == p.id && PassedOn(step.trx, p.trx))
    || (step.RxIntercept? && p.trx == step.trx && p.trx.Transfer? && p.trx.status == Completed && !p.unlinking)
  }

  predicate HasResult(run: seq<Step>, p: Priv) {
    exists k :: 0 <= k < |run| && ResultOf(run[k], p)
  }

  predicate HaveResults(run: seq<Step>, ps: seq<Priv>) {
    forall p :: p in ps ==> HasResult(run, p)
  }

  /** An unlink is confirmed as completed because it came too late, or with the result of the entry that carried it. */
  predicate LateIn(run: seq<Step>, u: Unlink) {
    exists k :: 0 <= k < |run| && run[k].RxUnlink? && run[k].seqnum == u.seqnum && u.status == Completed
  }

  predicate CarriedBy(ps: seq<Priv>, u: Unlink) {
    exists p :: p in ps && p.trx.Transfer? && u == Unlink(p.seqnum, p.trx.status)
  }

  predicate HaveReasons(run: seq<Step>, s: State) {
    forall u :: u in s.log.enteredUnlink ==> LateIn(run, u) || CarriedBy(s.log.freedUnlinking, u)
  }

  lemma ResultsStay(run: seq<Step>, step: Step, ps: seq<Priv>)
    requires HaveResults(run, ps)
    ensures HaveResults(run + [step], ps)
  {
    forall p | p in ps ensures HasResult(run + [step], p) {
      var k :| 0 <= k < |run| && ResultOf(run[k], p);
      assert ResultOf((run + [step])[k], p);
    }
  }

  /** What a step adds has its result from that step. */
  lemma StepHasResult(s: State, step: Step, p: Priv)
    requires Enabled(s, step) && Held(s)
    requires (p in Apply(s, step).log.enteredTx && p !in s.log.enteredTx)
          || (p in Apply(s, step).log.freedUnlinking && p !in s.log.freedUnlinking)
    ensures ResultOf(step, p)
  {
  }

  lemma StepHasReason(s: State, step: Step, u: Unlink)
    requires Enabled(s, step) && u in Apply(s, step).log.enteredUnlink && u !in s.log.enteredUnlink
    ensures (step.RxUnlink? && step.seqnum == u.seqnum && u.status == Completed)
         || CarriedBy(Apply(s, step).log.freedUnlinking, u)
  {
    if step.Completion? {
      var freed := Apply(s, step).log.freedUnlinking;
      assert freed[|s.log.freedUnlinking|] in freed;
    }
  }

  lemma StepKeepsFreed(s: State, step: Step)
    requires Enabled(s, step)
    ensures s.log.freedUnlinking <= Apply(s, step).log.freedUnlinking
  {
  }

  lemma ReasonsStay(run: seq<Step>, s: State, step: Step)
    requires Enabled(s, step) && HaveReasons(run, s)
    ensures HaveReasons(run + [step], Apply(s, step))
  {
    var s' := Apply(s, step);
    StepKeepsFreed(s, step);
    forall u | u in s'.log.enteredUnlink ensures LateIn(run + [step], u) || CarriedBy(s'.log.freedUnlinking, u) {
      if u !in s.log.enteredUnlink {
        StepHasReason(s, step, u);
        assert (run + [step])[|run|] == step;
      } else if LateIn(run, u) {
        var k :| 0 <= k < |run| && run[k].RxUnlink? && run[k].seqnum == u.seqnum && u.status == Completed;
        assert (run + [step])[k] == run[k];
      } else {
        var p :| p in s.log.freedUnlinking && p.trx.Transfer? && u == Unlink(p.seqnum, p.trx.status);
        assert p in s'.log.freedUnlinking;
      }
    }
  }

  lemma NewResults(run: seq<Step>, s: State, step: Step, ps': seq<Priv>, ps: seq<Priv>)
    requires Enabled(s, step) && Held(s) && HaveResults(run, ps)
    requires var l, l' := s.log, Apply(s, step).log;
      (ps == l.enteredTx && ps' == l'.enteredTx) || (ps == l.freedUnlinking && ps' == l'.freedUnlinking)
    ensures HaveResults(run + [step], ps')
  {
    ResultsStay(run, step, ps);
    assert (run + [step])[|run|] == step;
    forall p | p in ps' ensures HasResult(run + [step], p) {
      if p !in ps {
        StepHasResult(s, step, p);
      }
    }
  }

  /** Each entry past priv_init, and each that carried an unlink, has the result of a step; each unlink has a reason. */
  predicate Explained(run: seq<Step>, s: State) {
    HaveResults(run, s.log.enteredTx) && HaveResults(run, s.log.freedUnlinking) && HaveReasons(run, s)
  }

  lemma StepExplained(run: seq<Step>, s: State)
    requires run != [] && Enabled(s, run[|run| - 1]) && Held(s) && Explained(run[..|run| - 1], s)
    ensures Explained(run, Apply(s, run[|run| - 1]))
  {
    var before, step := run[..|run| - 1], run[|run| - 1];
    assert run == before + [step];
    NewResults(before, s, step, Apply(s, step).log.enteredTx, s.log.enteredTx);
    NewResults(before, s, step, Apply(s, step).log.freedUnlinking, s.log.freedUnlinking);
    ReasonsStay(before, s, step);
  }

  lemma RunHeld(connected: bool, run: seq<Step>)
    requires Legal(Init(connected), run)
    ensures Held(After(Init(connected), run))
  {
    RunInv(connected, run);
  }

  /** So it is in every run. */
  lemma {:induction false} RunResults(connected: bool, run: seq<Step>)
    requires Legal(Init(connected), run)
    ensures Explained(run, After(Init(connected), run))
    decreases |run|
  {
    if run != [] {
      RunResults(connected, run[..|run| - 1]);
      RunHeld(connected, run[..|run| - 1]);
      StepExplained(run, After(Init(connected), run[..|run| - 1]));
    }
  }

  // ----- what the client reads -----

  /** The step answers the submit, and the status is 0 exactly for a success. */
  predicate AnswersWith(step: Step, p: Priv, status: int32) {
    && ResultOf(step, p)
    && (status == 0 <==> step.RxIntercept? || Succeeded(step.trx))
  }

  /** Every RET_SUBMIT of a run answers with the result of its transfer: its status is 0 if and only if libusb reported
      a success or the request was intercepted, and its actual length and data are libusb's. */
  lemma SubmitStatus(connected: bool, run: seq<Step>, p: Priv)
    requires Legal(Init(connected), run) && RetSubmit(p) in After(Init(connected), run).log.wire && Sendable(p)
    ensures exists k :: 0 <= k < |run| && AnswersWith(run[k], p, AnswerOf(RetSubmit(p)).status)
  {
    var s := After(Init(connected), run);
    RunResults(connected, run);
    WireIsFifo(connected, run);
    InSubmitsOf(s.log.wire, p);
    assert p in s.log.enteredTx;
    var k :| 0 <= k < |run| && ResultOf(run[k], p);
    assert AnswersWith(run[k], p, AnswerOf(RetSubmit(p)).status);
  }

  lemma {:induction false} InUnlinksOf(rs: seq<Reply>, u: Unlink)
    ensures u in UnlinksOf(rs) <==> RetUnlink(u) in rs
  {
    if rs != [] {
      InUnlinksOf(rs[..|rs| - 1], u);
    }
  }

  predicate ConfirmsLate(step: Step, u: Unlink, status: int32) {
    step.RxUnlink? && step.seqnum == u.seqnum && status == 0
  }

  /** The step completed the entry p, which the unlink had taken over. */
  predicate ConfirmsResult(step: Step, p: Priv, u: Unlink, status: int32) {
    && step.Completion? && step.id == p.id && p.seqnum == u.seqnum
    && step.trx.Transfer? && (status == 0 <==> Succeeded(step.trx))
  }

  predicate ConfirmedBy(run: seq<Step>, p: Priv, u: Unlink, status: int32) {
    exists k :: 0 <= k < |run| && ConfirmsResult(run[k], p, u, status)
  }

  lemma CarriedResult(run: seq<Step>, s: State, u: Unlink) returns (p: Priv)
    requires CarriedBy(s.log.freedUnlinking, u) && HaveResults(run, s.log.freedUnlinking) && Sorted(s)
    ensures p in s.log.freedUnlinking && p.unlinking && ConfirmedBy(run, p, u, TrxStat2Error(u.status))
  {
    p :| p in s.log.freedUnlinking && p.trx.Transfer? && u == Unlink(p.seqnum, p.trx.status);
    var k :| 0 <= k < |run| && ResultOf(run[k], p);
    assert ConfirmsResult(run[k], p, u, TrxStat2Error(u.status));
  }

  lemma LateResult(run: seq<Step>, u: Unlink)
    requires LateIn(run, u)
    ensures exists k :: 0 <= k < |run| && ConfirmsLate(run[k], u, TrxStat2Error(u.status))
  {
    var k :| 0 <= k < |run| && run[k].RxUnlink? && run[k].seqnum == u.seqnum && u.status == Completed;
    assert ConfirmsLate(run[k], u, TrxStat2Error(u.status));
  }

  /** Every RET_UNLINK confirms either an unlink that came too late, with status 0, or one that took an entry over, with
      a status that is 0 if and only if libusb completed this entry with a success. */
  lemma UnlinkStatus(connected: bool, run: seq<Step>, u: Unlink)
    requires Legal(Init(connected), run) && RetUnlink(u) in After(Init(connected), run).log.wire
    ensures var status, freed := AnswerOf(RetUnlink(u)).status, After(Init(connected), run).log.freedUnlinking;
      || (exists k :: 0 <= k < |run| && ConfirmsLate(run[k], u, status))
      || (exists p :: p in freed && p.unlinking && ConfirmedBy(run, p, u, status))
  {
    var s := After(Init(connected), run);
    RunResults(connected, run);
    RunInv(connected, run);
    WireIsFifo(connected, run);
    InUnlinksOf(s.log.wire, u);
    assert u in s.log.enteredUnlink;
    if LateIn(run, u) {
      LateResult(run, u);
    } else {
      var p := CarriedResult(run, s, u);
    }
  }
}
