/** A run in which the tx loop ends without an error: two replies of a gigabyte each add up to a byte count that
    reads negative, and whoever waits for a third is never answered. */
module UrbStops {
  import opened Usb
  import opened UrbQueues
  import opened UrbProtocol
  import opened UrbDrain
  import opened UrbOrder

  const GIGABYTE: nat := 0x4000_0000

  /** A bulk read of a gigabyte. */
  function Bulky(actualLength: int32): Transfer {
    Transfer(Bulk, false, Completed, actualLength, seq(GIGABYTE, i => 0), [])
  }

  /** The entry of submit number id + 1. */
  function Read(id: nat, actualLength: int32): Priv
    requires id < 3
  {
    Priv(id, id + 1, DIR_IN, false, Bulky(actualLength))
  }

  function Reads(n: nat): (ps: seq<Priv>)
    requires n <= 3
    ensures |ps| == n
  {
    seq(n, id requires 0 <= id < n => Read(id, 0))
  }

  function Ids(n: nat): set<nat> { if n == 0 then {} else Ids(n - 1) + {n - 1} }

  function Numbers(n: nat): (ns: seq<Seqnum>)
    requires n <= 3
    ensures |ns| == n
  {
    seq(n, id requires 0 <= id < n => id + 1)
  }

  /** n of them are in flight. */
  function Asked(n: nat): State
    requires n <= 3
  {
    Init(true).(q := EMPTY.(privInit := Reads(n)), inFlight := Ids(n),
                log := Init(true).log.(nextId := n, submits := Numbers(n)))
  }

  lemma AskOne(n: nat)
    requires n < 3
    ensures Enabled(Asked(n), RxAlloc(n + 1, DIR_IN))
    ensures var s := Apply(Asked(n), RxAlloc(n + 1, DIR_IN));
      Enabled(s, RxSubmit(Bulky(0))) && Apply(s, RxSubmit(Bulky(0))) == Asked(n + 1)
  {
    var s := AllocStep(Asked(n), n + 1, DIR_IN);
    assert s.q.privInit[n].id == n;
    assert FirstWithId(s.q.privInit, n) == n;
    assert SetTransfer(s.q, n, Bulky(0)).privInit == Reads(n + 1);
  }

  lemma {:induction false} AskAll(n: nat) returns (run: seq<Step>)
    requires n <= 3
    ensures Legal(Init(true), run) && After(Init(true), run) == Asked(n)
  {
    run := [];
    if n > 0 {
      run := AskAll(n - 1);
      AskOne(n - 1);
      Extend(Init(true), run, RxAlloc(n, DIR_IN));
      run := run + [RxAlloc(n, DIR_IN)];
      Extend(Init(true), run, RxSubmit(Bulky(0)));
      run := run + [RxSubmit(Bulky(0))];
    }
  }

  /** The first pending entry completes. */
  lemma FirstCompletes(s: State, p: Priv, rest: seq<Priv>, trx: Transfer)
    requires s.connected && s.q.privInit == [p] + rest && p.id in s.inFlight && !p.unlinking
    requires trx.Transfer? && Reported(trx) == trx
    ensures CompletionStep(s, p.id, trx, true)
         == s.(q := s.q.(privInit := rest, privTx := s.q.privTx + [p.(trx := trx)]), inFlight := s.inFlight - {p.id},
               log := s.log.(enteredTx := s.log.enteredTx + [p.(trx := trx)]))
  {
    assert s.q.privInit[0] == p && FirstWithId(s.q.privInit, p.id) == 0;
    assert RemoveAt(s.q.privInit, 0) == rest;
  }

  lemma MayComplete(s: State, id: nat)
    requires id in s.inFlight && forall p :: p in s.q.privInit ==> p.trx == Bulky(0)
    ensures Enabled(s, Completion(id, Bulky(GIGABYTE), true))
  {
  }

  predicate Undisturbed(s: State) {
    s.tx == Poll && !s.event && s.connected && s.log.wire == [] && s.log.submits == [1, 2, 3]
  }

  lemma AllAsked() returns (run: seq<Step>)
    ensures Legal(Init(true), run)
    ensures var s := After(Init(true), run);
      && s.q == EMPTY.(privInit := [Read(0, 0)] + [Read(1, 0), Read(2, 0)]) && s.inFlight == {0, 1, 2}
      && Undisturbed(s)
  {
    run := AskAll(3);
    ThreeReads();
    ThreeNumbers();
  }

  lemma ThreeReads()
    ensures Reads(3) == [Read(0, 0)] + [Read(1, 0), Read(2, 0)]
  {
  }

  lemma ThreeNumbers()
    ensures Numbers(3) == [1, 2, 3] && Ids(3) == {0, 1, 2}
  {
    assert Ids(2) == {0, 1};
  }

  lemma OneCompletes() returns (run: seq<Step>)
    ensures Legal(Init(true), run)
    ensures var s := After(Init(true), run);
      s.q == Queues([Read(1, 0), Read(2, 0)], [Read(0, GIGABYTE)], [], [], []) && s.inFlight == {1, 2} && Undisturbed(s)
  {
    run := AllAsked();
    var s := After(Init(true), run);
    FirstCompletes(s, Read(0, 0), [Read(1, 0), Read(2, 0)], Bulky(GIGABYTE));
    MayComplete(s, 0);
    Extend(Init(true), run, Completion(0, Bulky(GIGABYTE), true));
    run := run + [Completion(0, Bulky(GIGABYTE), true)];
  }

  /** Two have completed; the third has not. */
  lemma TwoComplete() returns (run: seq<Step>)
    ensures Legal(Init(true), run)
    ensures var s := After(Init(true), run);
      s.q == Queues([Read(2, 0)], [Read(0, GIGABYTE), Read(1, GIGABYTE)], [], [], []) && Undisturbed(s)
  {
    run := OneCompletes();
    var s := After(Init(true), run);
    assert s.q.privInit == [Read(1, 0)] + [Read(2, 0)];
    FirstCompletes(s, Read(1, 0), [Read(2, 0)], Bulky(GIGABYTE));
    MayComplete(s, 1);
    Extend(Init(true), run, Completion(1, Bulky(GIGABYTE), true));
    run := run + [Completion(1, Bulky(GIGABYTE), true)];
  }

  lemma TwoGigabytes()
    ensures SubmitBytes([Read(0, GIGABYTE), Read(1, GIGABYTE)]) == 2 * (HEADER_SIZE + GIGABYTE)
  {
    var ps := [Read(0, GIGABYTE), Read(1, GIGABYTE)];
    assert ps[1..] == [Read(1, GIGABYTE)];
    assert SubmitBytes([Read(1, GIGABYTE)]) == RetSubmitSize(Read(1, GIGABYTE)) == HEADER_SIZE + GIGABYTE;
  }

  /** What a pass over two such replies does. */
  lemma PassStops(s: State)
    requires s.tx == Poll && s.q.privTx == [Read(0, GIGABYTE), Read(1, GIGABYTE)]
    ensures var s' := FinishPass(Apply(s, TxPoll(true)));
      s'.tx == Stopped && s'.event == s.event && s'.connected == s.connected && s'.log.submits == s.log.submits
      && s'.log.wire == s.log.wire + [RetSubmit(Read(0, GIGABYTE)), RetSubmit(Read(1, GIGABYTE))]
  {
    var s0 := Apply(s, TxPoll(true));
    SubmitPhase(s0);
    var s1 := SubmitsSent(s0);
    TwoGigabytes();
    assert FinishPass(s1) == FinishPass(FreeSubmitsStep(s1));
    assert SubmitReplies(s.q.privTx) == [RetSubmit(Read(0, GIGABYTE)), RetSubmit(Read(1, GIGABYTE))];
  }

  /** What the tx thread has done, and what it holds. */
  predicate SameTx(s: State, t: State) {
    t.tx == s.tx && t.log.wire == s.log.wire && t.log.freedTx == s.log.freedTx && t.q.privFree == s.q.privFree
  }

  lemma EndedStep(s: State, step: Step)
    requires Ended(s.tx) && Enabled(s, step)
    ensures SameTx(s, Apply(s, step))
  {
  }

  /** A tx thread that has left its loop, after a send that failed or otherwise, sends nothing more and frees
      nothing more, whatever the other threads do. */
  lemma {:induction false} EndedForGood(s: State, run: seq<Step>)
    requires Ended(s.tx) && Legal(s, run)
    ensures SameTx(s, After(s, run))
    decreases |run|
  {
    if run != [] {
      EndedForGood(s, run[..|run| - 1]);
      EndedStep(After(s, run[..|run| - 1]), run[|run| - 1]);
    }
  }

  /** The loop has ended, no event was raised, the connection is open, and whatever happens from here on, submit 3
      gets no answer. */
  lemma LoopEndsSilently() returns (run: seq<Step>)
    ensures Legal(Init(true), run)
    ensures var s := After(Init(true), run);
      && s.tx == Stopped && !s.event && s.connected && |s.log.wire| == 2 && 3 in s.log.submits
      && forall more :: Legal(s, more) ==> !Answered(After(s, more).log.wire, 3)
  {
    var before := TwoComplete();
    var s := After(Init(true), before);
    Extend(Init(true), before, TxPoll(true));
    PassStops(s);
    PassIsRun(Apply(s, TxPoll(true)));
    LegalConcat(Init(true), before + [TxPoll(true)], RestOfPass(Apply(s, TxPoll(true))));
    run := before + [TxPoll(true)] + RestOfPass(Apply(s, TxPoll(true)));
    var s' := After(Init(true), run);
    forall more | Legal(s', more) ensures !Answered(After(s', more).log.wire, 3) {
      EndedForGood(s', more);
    }
  }
}
