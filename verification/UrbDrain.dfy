/** Drain: once nothing is in flight and no command arrives, one pass of the tx loop empties every
    queue and leaves every command answered, unless a pass sends so much that its byte count
    comes back negative. */
module UrbDrain {
  import opened Usb
  import opened UrbQueues
  import opened Bags
  import opened UrbProtocol
  import opened UrbInvariant
  import opened UrbAccounts

  predicate InPass(tx: TxPc) {
    tx.Submits? || tx.SendSubmit? || tx.FreeingSubmits? || tx.Unlinks? || tx.SendUnlink? || tx.FreeingUnlinks?
  }

  /** The tx thread's next step when sends succeed. */
  function NextStep(tx: TxPc): Step
    requires InPass(tx)
  {
    match tx
    case Submits => TxDequeueSubmit
    case SendSubmit(_) => TxSendSubmit(true)
    case FreeingSubmits => TxFreeSubmits
    case Unlinks => TxDequeueUnlink
    case SendUnlink(_) => TxSendUnlink(true)
    case FreeingUnlinks => TxFreeUnlinks
  }

  function Phase(tx: TxPc): nat {
    match tx
    case Submits => 4
    case SendSubmit(_) => 4
    case FreeingSubmits => 3
    case Unlinks => 2
    case SendUnlink(_) => 2
    case FreeingUnlinks => 1
    case _ => 0
  }

  function Work(s: State): nat {
    2 * |s.q.privTx| + 2 * |s.q.unlinkTx| + if s.tx.SendSubmit? || s.tx.SendUnlink? then 1 else 0
  }

  /** The rest of a pass, taken without a step of another thread. */
  function RestOfPass(s: State): seq<Step>
    decreases Phase(s.tx), Work(s)
  {
    if !InPass(s.tx) then []
    else [NextStep(s.tx)] + RestOfPass(Apply(s, NextStep(s.tx)))
  }

  /** Where that leaves the state. */
  function FinishPass(s: State): (r: State)
    ensures !InPass(r.tx)
    decreases Phase(s.tx), Work(s)
  {
    if !InPass(s.tx) then s else FinishPass(Apply(s, NextStep(s.tx)))
  }

  lemma {:induction false} PassIsRun(s: State)
    ensures Legal(s, RestOfPass(s)) && After(s, RestOfPass(s)) == FinishPass(s)
    decreases Phase(s.tx), Work(s)
  {
    if InPass(s.tx) {
      PassIsRun(Apply(s, NextStep(s.tx)));
      Extend(s, [], NextStep(s.tx));
      assert [] + [NextStep(s.tx)] == [NextStep(s.tx)];
      LegalConcat(s, [NextStep(s.tx)], RestOfPass(Apply(s, NextStep(s.tx))));
    }
  }

  // ----- what a pass does -----

  function SubmitsSent(s: State): State {
    s.(tx := FreeingSubmits, q := s.q.(privTx := [], privFree := s.q.privFree + s.q.privTx),
       passBytes := s.passBytes + SubmitBytes(s.q.privTx),
       log := s.log.(wire := s.log.wire + SubmitReplies(s.q.privTx)))
  }

  function UnlinksSent(s: State): State {
    s.(tx := FreeingUnlinks, q := s.q.(unlinkTx := [], unlinkFree := s.q.unlinkFree + s.q.unlinkTx),
       passBytes := s.passBytes + UnlinkBytes(s.q.unlinkTx),
       log := s.log.(wire := s.log.wire + UnlinkReplies(s.q.unlinkTx)))
  }

  lemma {:induction false} SubmitPhase(s: State)
    requires s.tx == Submits
    ensures FinishPass(s) == FinishPass(SubmitsSent(s))
    decreases |s.q.privTx|
  {
    if s.q.privTx == [] {
      assert s.q.privFree + [] == s.q.privFree && s.log.wire + [] == s.log.wire;
      assert SubmitsSent(s) == DequeueSubmitStep(s);
    } else {
      var p := s.q.privTx[0];
      var s1 := DequeueSubmitStep(s);
      var s2 := SendSubmitStep(s1, true);
      SubmitPhase(s2);
      assert s.q.privFree + [p] + s.q.privTx[1..] == s.q.privFree + s.q.privTx;
      assert s.log.wire + [RetSubmit(p)] + SubmitReplies(s.q.privTx[1..])
          == s.log.wire + SubmitReplies(s.q.privTx);
      assert SubmitsSent(s2) == SubmitsSent(s);
      assert Apply(s, NextStep(s.tx)) == s1 && Apply(s1, NextStep(s1.tx)) == s2;
    }
  }

  lemma {:induction false} UnlinkPhase(s: State)
    requires s.tx == Unlinks
    ensures FinishPass(s) == FinishPass(UnlinksSent(s))
    decreases |s.q.unlinkTx|
  {
    if s.q.unlinkTx == [] {
      assert s.q.unlinkFree + [] == s.q.unlinkFree && s.log.wire + [] == s.log.wire;
      assert UnlinksSent(s) == DequeueUnlinkStep(s);
    } else {
      var u := s.q.unlinkTx[0];
      var s1 := DequeueUnlinkStep(s);
      var s2 := SendUnlinkStep(s1, true);
      UnlinkPhase(s2);
      assert s.q.unlinkFree + [u] + s.q.unlinkTx[1..] == s.q.unlinkFree + s.q.unlinkTx;
      assert s.log.wire + [RetUnlink(u)] + UnlinkReplies(s.q.unlinkTx[1..])
          == s.log.wire + UnlinkReplies(s.q.unlinkTx);
      assert UnlinksSent(s2) == UnlinksSent(s);
      assert Apply(s, NextStep(s.tx)) == s1 && Apply(s1, NextStep(s1.tx)) == s2;
    }
  }

  /** Whether the pass under way comes back to the poll: no byte count may read negative, neither that of the
      submits still to be sent in it nor that of the unlinks. */
  predicate PassContinues(s: State) {
    match s.tx
    case Poll => true
    case Submits =>
      !ReadsNegative(s.passBytes + SubmitBytes(s.q.privTx)) && !ReadsNegative(UnlinkBytes(s.q.unlinkTx))
    case SendSubmit(p) =>
      && !ReadsNegative(s.passBytes + RetSubmitSize(p) + SubmitBytes(s.q.privTx))
      && !ReadsNegative(UnlinkBytes(s.q.unlinkTx))
    case FreeingSubmits => !ReadsNegative(s.passBytes) && !ReadsNegative(UnlinkBytes(s.q.unlinkTx))
    case Unlinks => !ReadsNegative(s.passBytes + UnlinkBytes(s.q.unlinkTx))
    case SendUnlink(_) => !ReadsNegative(s.passBytes + HEADER_SIZE + UnlinkBytes(s.q.unlinkTx))
    case FreeingUnlinks => !ReadsNegative(s.passBytes)
    case Stopped => false
    case FailedSubmit(_) => false
    case FailedUnlink(_) => false
  }

  lemma LastStep(s: State)
    requires s.tx == FreeingUnlinks
    ensures FinishPass(s) == FreeUnlinksStep(s)
  {
    assert FinishPass(s) == FinishPass(FreeUnlinksStep(s));
  }

  lemma {:induction false} UnlinksEnd(s: State)
    requires s.tx.Unlinks? || s.tx.SendUnlink? || s.tx.FreeingUnlinks?
    ensures FinishPass(s).tx == Poll <==> PassContinues(s)
    decreases Phase(s.tx), Work(s)
  {
    if s.tx.FreeingUnlinks? {
      LastStep(s);
    } else {
      UnlinksEnd(Apply(s, NextStep(s.tx)));
    }
  }

  /** From wherever the tx thread is, its pass comes back to the poll if and only if that holds. */
  lemma {:induction false} PassEnds(s: State)
    ensures FinishPass(s).tx == Poll <==> PassContinues(s)
    decreases Phase(s.tx), Work(s)
  {
    if s.tx.Unlinks? || s.tx.SendUnlink? || s.tx.FreeingUnlinks? {
      UnlinksEnd(s);
    } else if InPass(s.tx) {
      PassEnds(Apply(s, NextStep(s.tx)));
    }
  }

  /** The pass from where the last submit has been sent. */
  lemma AfterSubmits(s: State)
    requires s.tx == FreeingSubmits
    ensures FinishPass(s) == if ReadsNegative(s.passBytes) then FreeSubmitsStep(s)
                             else FreeUnlinksStep(UnlinksSent(FreeSubmitsStep(s)))
  {
    assert FinishPass(s) == FinishPass(FreeSubmitsStep(s));
    if !ReadsNegative(s.passBytes) {
      UnlinkPhase(FreeSubmitsStep(s));
      LastStep(UnlinksSent(FreeSubmitsStep(s)));
    }
  }

  /** A full pass from the poll: all that was queued is on the wire, submits before unlinks, and the
      loop goes on if and only if neither byte count read as negative. When that of the submits does, it has
      ended before the unlinks. */
  lemma FullPass(s: State)
    requires s.tx == Poll
    ensures var s', big := FinishPass(Apply(s, TxPoll(true))), ReadsNegative(SubmitBytes(s.q.privTx));
      && (s'.tx == Poll <==> !big && !ReadsNegative(UnlinkBytes(s.q.unlinkTx)))
      && s'.q == (if big then s.q.(privTx := [], privFree := [])
                  else s.q.(privTx := [], privFree := [], unlinkTx := [], unlinkFree := []))
      && s'.log.wire == s.log.wire + SubmitReplies(s.q.privTx) + if big then [] else UnlinkReplies(s.q.unlinkTx)
  {
    SubmitPhase(Apply(s, TxPoll(true)));
    AfterSubmits(SubmitsSent(Apply(s, TxPoll(true))));
  }

  /** When no event is pending and the sends succeed, a turn of stub_tx_loop is the pass of the machine in the same
      state: with its queues and replies, and on to the next poll when that goes on. */
  lemma PassIsMachinePass(s: State, submitFailAt: nat, unlinkFailAt: nat)
    requires s.tx == Poll && |s.q.privTx| <= submitFailAt && |s.q.unlinkTx| <= unlinkFailAt
    ensures var p, s' := Pass(false, s.q, s.log.wire, submitFailAt, unlinkFailAt), FinishPass(Apply(s, TxPoll(true)));
      && (p.goesOn <==> s'.tx == Poll) && !p.event
      && p.q == s'.q && p.sent == s'.log.wire
  {
    FullPass(s);
  }

  // ----- the theorem -----

  lemma {:induction false} InvAlong(s: State, run: seq<Step>)
    requires Inv(s) && Legal(s, run)
    ensures Inv(After(s, run))
    decreases |run|
  {
    if run != [] {
      InvAlong(s, run[..|run| - 1]);
      StepInv(After(s, run[..|run| - 1]), run[|run| - 1]);
    }
  }

  predicate IsCompletion(step: Step) { step.Completion? && step.allocOk }

  /** Completions leave the threads where they are. */
  lemma {:induction false} CompletionsAlong(s: State, run: seq<Step>)
    requires Legal(s, run) && forall step :: step in run ==> IsCompletion(step)
    ensures var s' := After(s, run);
      s'.rx == s.rx && s'.tx == s.tx && s'.event == s.event && s'.connected == s.connected
    decreases |run|
  {
    if run != [] {
      var step := run[|run| - 1];
      assert step in run;
      CompletionsAlong(s, run[..|run| - 1]);
    }
  }

  /** Nothing in flight, no command being set up, no error. */
  predicate Quiet(s: State) {
    !s.event && s.connected && s.rx == Idle && s.inFlight == {}
  }

  lemma {:induction false} FinishKeepsQuiet(s: State)
    requires Quiet(s)
    ensures Quiet(FinishPass(s))
    decreases Phase(s.tx), Work(s)
  {
    if InPass(s.tx) {
      FinishKeepsQuiet(Apply(s, NextStep(s.tx)));
    }
  }

  lemma QuietInv(s: State)
    requires Inv(s)
    ensures Inv(FinishPass(s))
  {
    PassIsRun(s);
    InvAlong(s, RestOfPass(s));
  }

  /** With empty queues every command has its one answer. */
  lemma AllAnswered(s: State, n: Seqnum)
    requires Inv(s) && Quiet(s) && s.q == EMPTY && s.tx == Poll
    ensures var p := SubmitPlaces(s, n);
      p[0] == p[1] == p[2] == 0 && p[3] + p[4] == if n in s.log.submits then 1 else 0
    ensures var p := UnlinkPlaces(s, n);
      p[0] == p[1] == p[2] == p[4] == 0 && p[3] == if n in s.log.unlinks then 1 else 0
  {
    CountOnce(s, n);
    EnteredPlaces(s, n);
    assert SubmitsAccounted(s) && UnlinksAccounted(s) && Positions(s);
  }

  lemma QuietInitEmpty(s: State)
    requires Positions(s) && Quiet(s)
    ensures s.q.privInit == []
  {
    FirstIsIn(s.q.privInit);
  }

  lemma FirstIsIn<T>(ps: seq<T>)
    ensures ps != [] ==> ps[0] in ps
  {
  }

  /** Every submit has its RET_SUBMIT, or was taken over; every unlink has its RET_UNLINK. */
  ghost predicate EveryCommandAnswered(s: State) {
    forall n: Seqnum ::
      && SubmitPlaces(s, n)[3] + SubmitPlaces(s, n)[4] == (if n in s.log.submits then 1 else 0)
      && UnlinkPlaces(s, n)[3] == (if n in s.log.unlinks then 1 else 0)
  }

  /** The pass after that: it ends at the poll if and only if no byte count read as negative, and then
      with nothing left to do. */
  ghost predicate PassDrains(s: State)
    requires s.tx == Poll
  {
    var s' := FinishPass(Apply(s, TxPoll(true)));
    && (s'.tx == Poll <==>
         !ReadsNegative(SubmitBytes(s.q.privTx)) && !ReadsNegative(UnlinkBytes(s.q.unlinkTx)))
    && (s'.tx == Poll ==> s'.q == EMPTY && EveryCommandAnswered(s'))
  }

  lemma QuietPassDrains(s: State)
    requires Inv(s) && Quiet(s) && s.tx == Poll
    ensures PassDrains(s)
  {
    FullPass(s);
    QuietInitEmpty(s);
    AfterQuietPass(s);
  }

  lemma AfterQuietPass(s: State)
    requires Inv(s) && Quiet(s) && s.tx == Poll
    ensures var s' := FinishPass(Apply(s, TxPoll(true)));
      s'.tx == Poll && s'.q == EMPTY ==> EveryCommandAnswered(s')
  {
    StepInv(s, TxPoll(true));
    QuietInv(Apply(s, TxPoll(true)));
    FinishKeepsQuiet(Apply(s, TxPoll(true)));
    EmptyMeansAnswered(FinishPass(Apply(s, TxPoll(true))));
  }

  lemma EmptyMeansAnswered(s: State)
    requires Inv(s) && Quiet(s)
    ensures s.q == EMPTY && s.tx == Poll ==> EveryCommandAnswered(s)
  {
    if s.q == EMPTY && s.tx == Poll {
      forall n: Seqnum
        ensures SubmitPlaces(s, n)[3] + SubmitPlaces(s, n)[4] == (if n in s.log.submits then 1 else 0)
        ensures UnlinkPlaces(s, n)[3] == (if n in s.log.unlinks then 1 else 0)
      {
        AllAnswered(s, n);
      }
    }
  }

  lemma StepKeepsSocket(s: State, step: Step)
    requires Enabled(s, step)
    ensures Apply(s, step).connected == s.connected
  {
  }

  lemma {:induction false} StaysConnected(run: seq<Step>)
    requires Legal(Init(true), run)
    ensures After(Init(true), run).connected
    decreases |run|
  {
    if run != [] {
      StaysConnected(run[..|run| - 1]);
      StepKeepsSocket(After(Init(true), run[..|run| - 1]), run[|run| - 1]);
    }
  }

  /** From any event-free state between two commands: when libusb has completed what was in flight and
      sends succeed, the tx loop finishes its pass if and only if PassContinues; and then one more pass empties
      every queue and leaves every command answered exactly once, if and only if its own byte counts do not
      read negative. */
  lemma Drain(run: seq<Step>, completions: seq<Step>)
    requires Legal(Init(true), run)
    requires !After(Init(true), run).event && After(Init(true), run).rx == Idle
    requires Legal(After(Init(true), run), completions)
    requires forall step :: step in completions ==> IsCompletion(step)
    requires After(After(Init(true), run), completions).inFlight == {}
    ensures var s := After(After(Init(true), run), completions);
      && (FinishPass(s).tx == Poll <==> PassContinues(s))
      && (PassContinues(s) ==> PassDrains(FinishPass(s)))
  {
    var s0 := After(Init(true), run);
    var s := After(s0, completions);
    RunInv(true, run);
    StaysConnected(run);
    CompletionsAlong(s0, completions);
    InvAlong(s0, completions);
    QuietInv(s);
    FinishKeepsQuiet(s);
    PassEnds(s);
    if FinishPass(s).tx == Poll {
      QuietPassDrains(FinishPass(s));
    }
  }
}
