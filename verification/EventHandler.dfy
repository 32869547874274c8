/** The event handler of a connection. Any thread adds events; one handler waits for them on a mutex that
    is used as a binary semaphore, shuts the connection down and ends. */
module EventHandler {

  // The bits of an event, and the events of stub_common.h.
  const EH_SHUTDOWN: bv8 := 1
  const EH_BYE: bv8 := 2
  const EH_RESET: bv8 := 4
  const EH_UNUSABLE: bv8 := 8

  const REMOVED: bv8 := EH_SHUTDOWN | EH_RESET | EH_BYE
  const DOWN: bv8 := EH_SHUTDOWN | EH_RESET
  const ERROR_TCP: bv8 := EH_SHUTDOWN | EH_RESET
  const ERROR_SUBMIT: bv8 := EH_SHUTDOWN | EH_RESET
  const ERROR_MALLOC: bv8 := EH_SHUTDOWN | EH_UNUSABLE

  predicate IsEvent(e: bv8) {
    e == REMOVED || e == DOWN || e == ERROR_TCP || e == ERROR_SUBMIT || e == ERROR_MALLOC
  }

  predicate Has(e: bv8, bit: bv8) { e & bit != 0 }

  datatype Status = Available | Used | Error

  /** The fields of a usbip_device that threads share; `waitq` says that the mutex is free. */
  datatype Shared = Shared(event: bv8, waitq: bool, shouldStop: bool, ehShouldStop: bool, status: Status)

  datatype Call = Shutdown | Reset(failed: bool) | Unusable

  /** Where the handler is: at the loop test, at the wait, past it, or at a stage of its batch. */
  datatype Pc =
    | Checking | Waiting | Fetching
    | Stopping(batch: bv8) | StoppingEh(batch: bv8) | Waking(batch: bv8)
    | Resetting(batch: bv8) | Marking(batch: bv8) | Leaving(batch: bv8)
    | Exited

  /** `posting` are the threads that have added an event and not yet freed the mutex. */
  datatype State = State(
    ud: Shared,
    posting: set<nat>,
    pc: Pc,
    raised: seq<bv8>,     // events added
    batches: seq<bv8>,    // what each wake-up found
    calls: seq<Call>)     // eh_ops called

  datatype Step = Add(thread: nat, event: bv8) | Post(thread: nat) | Handler(resetFails: bool)

  /** usbip_start_eh */
  function Init(): State {
    State(Shared(0, true, false, false, Used), {}, Checking, [], [], [])
  }

  predicate Enabled(s: State, step: Step) {
    match step
    case Add(t, e) => t !in s.posting && IsEvent(e)
    case Post(t) => t in s.posting
    case Handler(_) => s.pc != Exited && (s.pc == Waiting ==> s.ud.waitq)
  }

  // ----- what each step does to the shared fields -----

  function AddEvent(ud: Shared, e: bv8): Shared { ud.(event := ud.event | e) }

  function FreeWaitq(ud: Shared): Shared { ud.(waitq := true) }

  function AfterReset(ud: Shared, fails: bool): Shared { ud.(status := if fails then Error else Available) }

  function HandlerStep(s: State, resetFails: bool): State {
    match s.pc
    case Checking => s.(pc := if s.ud.ehShouldStop then Exited else Waiting)
    case Waiting => s.(ud := s.ud.(waitq := false), pc := Fetching)
    case Fetching =>
      s.(ud := s.ud.(event := 0), batches := s.batches + [s.ud.event], pc := Stopping(s.ud.event))
    case Stopping(b) =>
      if Has(b, EH_SHUTDOWN) then
        s.(ud := s.ud.(shouldStop := true), calls := s.calls + [Shutdown], pc := StoppingEh(b))
      else s.(pc := Resetting(b))
    case StoppingEh(b) => s.(ud := s.ud.(ehShouldStop := true), pc := Waking(b))
    case Waking(b) => s.(ud := FreeWaitq(s.ud), pc := Resetting(b))
    case Resetting(b) =>
      if Has(b, EH_RESET) then
        s.(ud := AfterReset(s.ud, resetFails), calls := s.calls + [Reset(resetFails)], pc := Marking(b))
      else s.(pc := Marking(b))
    case Marking(b) =>
      if Has(b, EH_UNUSABLE) then
        s.(ud := s.ud.(status := Error), calls := s.calls + [Unusable], pc := Leaving(b))
      else s.(pc := Leaving(b))
    case Leaving(b) => s.(pc := if Has(b, EH_BYE) then Exited else Checking)
    case Exited => s
  }

  function Apply(s: State, step: Step): State
    requires Enabled(s, step)
  {
    match step
    case Add(t, e) => s.(ud := AddEvent(s.ud, e), posting := s.posting + {t}, raised := s.raised + [e])
    case Post(t) => s.(ud := FreeWaitq(s.ud), posting := s.posting - {t})
    case Handler(fails) => HandlerStep(s, fails)
  }

  ghost predicate Legal(s: State, run: seq<Step>)
    decreases |run|, 0
  {
    run == [] ||
    var before := run[..|run| - 1];
    Legal(s, before) && Enabled(After(s, before), run[|run| - 1])
  }

  ghost function After(s: State, run: seq<Step>): State
    requires Legal(s, run)
    decreases |run|, 1
  {
    if run == [] then s else Apply(After(s, run[..|run| - 1]), run[|run| - 1])
  }

  // ----- the invariant -----

  /** A pending event will be found: the mutex is free, or is about to be, or the handler is past it. */
  predicate NoLostWakeup(s: State) {
    s.ud.event != 0 ==> s.ud.waitq || s.posting != {} || s.pc == Fetching || s.ud.ehShouldStop
  }

  /** Once any event was raised, the shutdown has happened or is on its way. */
  predicate NoLostShutdown(s: State) {
    s.raised != [] ==>
      || s.ud.ehShouldStop
      || Has(s.ud.event, EH_SHUTDOWN)
      || ((s.pc.Stopping? || s.pc.StoppingEh?) && Has(s.pc.batch, EH_SHUTDOWN))
  }

  /** The batch being handled, or the last one. */
  function Batch(s: State): bv8 { if s.batches == [] then 0 else s.batches[|s.batches| - 1] }

  predicate Working(pc: Pc) { !(pc.Checking? || pc.Waiting? || pc.Fetching? || pc.Exited?) }

  /** Batches were empty so far: a batch that is not has a SHUTDOWN bit, and ends the loop. */
  predicate OneBatch(s: State) { Batches(s) && Stage(s) }

  predicate Batches(s: State) {
    && (s.ud.event != 0 ==> Has(s.ud.event, EH_SHUTDOWN))
    && (s.raised == [] ==> s.ud.event == 0 && Batch(s) == 0)
    && (forall i :: 0 <= i < |s.batches| - 1 ==> s.batches[i] == 0)
    && (Batch(s) != 0 ==> Has(Batch(s), EH_SHUTDOWN))
  }

  /** What the stage of the handler says about its batch. */
  predicate Stage(s: State) {
    && (Working(s.pc) ==> s.batches != [] && s.pc.batch == Batch(s))
    && (s.pc.Waiting? || s.pc.Fetching? ==> Batch(s) == 0)
    && (s.pc.StoppingEh? || s.pc.Waking? ==> Batch(s) != 0)
    && (s.pc.Exited? ==> s.ud.ehShouldStop)
  }

  /** How far a batch is handled: whether its shutdown, its reset and its marking are behind. */
  predicate PastShutdown(pc: Pc) { !pc.Stopping? }

  predicate PastReset(pc: Pc) { PastShutdown(pc) && !(pc.StoppingEh? || pc.Waking? || pc.Resetting?) }

  predicate PastMarking(pc: Pc) { PastReset(pc) && !pc.Marking? }

  function CallsOf(s: State, resetFailed: bool): seq<Call> {
    (if Has(Batch(s), EH_SHUTDOWN) && PastShutdown(s.pc) then [Shutdown] else [])
    + (if Has(Batch(s), EH_RESET) && PastReset(s.pc) then [Reset(resetFailed)] else [])
    + (if Has(Batch(s), EH_UNUSABLE) && PastMarking(s.pc) then [Unusable] else [])
  }

  function StatusOf(s: State, resetFailed: bool): Status {
    if Has(Batch(s), EH_UNUSABLE) && PastMarking(s.pc) then Error
    else if Has(Batch(s), EH_RESET) && PastReset(s.pc) then if resetFailed then Error else Available
    else Used
  }

  /** The flags that end the threads are set by the shutdown of a batch and by nothing else. */
  predicate Flags(s: State) {
    && s.ud.shouldStop == (Has(Batch(s), EH_SHUTDOWN) && PastShutdown(s.pc))
    && s.ud.ehShouldStop == (Has(Batch(s), EH_SHUTDOWN) && PastShutdown(s.pc) && !s.pc.StoppingEh?)
  }

  predicate CallsInOrder(s: State, resetFailed: bool) {
    s.calls == CallsOf(s, resetFailed) && s.ud.status == StatusOf(s, resetFailed)
  }

  ghost predicate Inv(s: State) {
    NoLostWakeup(s) && NoLostShutdown(s) && OneBatch(s) && Flags(s) && (exists failed :: CallsInOrder(s, failed))
  }

  lemma EventHasShutdown(e: bv8, old': bv8)
    requires IsEvent(e)
    ensures Has(old' | e, EH_SHUTDOWN) && old' | e != 0
  {
  }

  lemma ShutdownIsNotEmpty(e: bv8)
    ensures Has(e, EH_SHUTDOWN) ==> e != 0
    ensures !Has(0, EH_SHUTDOWN) && !Has(0, EH_RESET) && !Has(0, EH_UNUSABLE) && !Has(0, EH_BYE)
  {
  }

  lemma AddInv(s: State, t: nat, e: bv8)
    requires Inv(s) && Enabled(s, Add(t, e))
    ensures Inv(Apply(s, Add(t, e)))
  {
    EventHasShutdown(e, s.ud.event);
    var s' := Apply(s, Add(t, e));
    var failed :| CallsInOrder(s, failed);
    assert CallsInOrder(s', failed);
  }

  lemma PostInv(s: State, t: nat)
    requires Inv(s) && Enabled(s, Post(t))
    ensures Inv(Apply(s, Post(t)))
  {
    var failed :| CallsInOrder(s, failed);
    assert CallsInOrder(Apply(s, Post(t)), failed);
  }

  lemma FetchInv(s: State, failed: bool)
    requires OneBatch(s) && Flags(s) && CallsInOrder(s, failed) && s.pc == Fetching
    ensures var s' := HandlerStep(s, false); OneBatch(s') && Flags(s') && CallsInOrder(s', failed)
  {
    ShutdownIsNotEmpty(s.ud.event);
    ShutdownIsNotEmpty(Batch(s));
  }

  lemma HandlerBatches(s: State, fails: bool)
    requires OneBatch(s) && Flags(s) && Enabled(s, Handler(fails)) && s.pc != Fetching
    ensures Batches(HandlerStep(s, fails))
  {
  }

  lemma HandlerStage(s: State, fails: bool)
    requires OneBatch(s) && Flags(s) && Enabled(s, Handler(fails)) && s.pc != Fetching
    ensures Stage(HandlerStep(s, fails))
  {
    ShutdownIsNotEmpty(Batch(s));
  }

  lemma HandlerFlags(s: State, fails: bool)
    requires OneBatch(s) && Flags(s) && Enabled(s, Handler(fails)) && s.pc != Fetching
    ensures Flags(HandlerStep(s, fails))
  {
    ShutdownIsNotEmpty(Batch(s));
  }

  lemma HandlerKeepsEvents(s: State, fails: bool)
    requires NoLostWakeup(s) && NoLostShutdown(s) && OneBatch(s) && Flags(s) && Enabled(s, Handler(fails))
    ensures NoLostWakeup(HandlerStep(s, fails)) && NoLostShutdown(HandlerStep(s, fails))
  {
    ShutdownIsNotEmpty(s.ud.event);
    ShutdownIsNotEmpty(Batch(s));
  }

  lemma HandlerCalls(s: State, fails: bool, failed: bool)
    requires OneBatch(s) && Flags(s) && CallsInOrder(s, failed) && Enabled(s, Handler(fails)) && s.pc != Fetching
    ensures CallsInOrder(HandlerStep(s, fails), if s.pc.Resetting? then fails else failed)
  {
    ShutdownIsNotEmpty(Batch(s));
  }

  lemma HandlerInv(s: State, fails: bool)
    requires Inv(s) && Enabled(s, Handler(fails))
    ensures Inv(HandlerStep(s, fails))
  {
    var failed :| CallsInOrder(s, failed);
    HandlerKeepsEvents(s, fails);
    if s.pc == Fetching {
      FetchInv(s, failed);
    } else {
      HandlerBatches(s, fails);
      HandlerStage(s, fails);
      HandlerFlags(s, fails);
      HandlerCalls(s, fails, failed);
    }
  }

  lemma {:induction false} RunInv(run: seq<Step>)
    requires Legal(Init(), run)
    ensures Inv(After(Init(), run))
    decreases |run|
  {
    if run == [] {
      assert CallsInOrder(Init(), false);
    } else {
      var before := run[..|run| - 1];
      RunInv(before);
      var s := After(Init(), before);
      match run[|run| - 1]
      case Add(t, e) => AddInv(s, t, e);
      case Post(t) => PostInv(s, t);
      case Handler(fails) => HandlerInv(s, fails);
    }
  }

  // ----- what it means for a run -----

  /** No lost wakeup and no lost shutdown, for any number of threads adding events in any order. */
  lemma {:induction false} NothingIsLost(run: seq<Step>)
    requires Legal(Init(), run)
    ensures var s := After(Init(), run);
      && (s.ud.event != 0 ==> s.ud.waitq || s.posting != {} || s.pc == Fetching || s.ud.ehShouldStop)
      && (s.raised != [] ==>
            || s.ud.ehShouldStop
            || Has(s.ud.event, EH_SHUTDOWN)
            || ((s.pc.Stopping? || s.pc.StoppingEh?) && Has(s.pc.batch, EH_SHUTDOWN)))
  {
    RunInv(run);
  }

  /** What handling a batch amounts to: the calls in their order, and the last status written. */
  predicate HandledAs(e: bv8, resetFailed: bool, calls: seq<Call>, status: Status) {
    && calls == (if Has(e, EH_SHUTDOWN) then [Shutdown] else [])
             + (if Has(e, EH_RESET) then [Reset(resetFailed)] else [])
             + (if Has(e, EH_UNUSABLE) then [Unusable] else [])
    && status == if Has(e, EH_UNUSABLE) then Error
                 else if !Has(e, EH_RESET) then Used
                 else if resetFailed then Error else Available
  }

  /** The first batch that is not empty is the last one, and a shutdown is in it. Shutdown, reset and unusable
      are called in this order, each at most once; the status left behind is an error when the batch held
      an UNUSABLE, whatever else was in it. */
  lemma HandledOnce(run: seq<Step>)
    requires Legal(Init(), run) && After(Init(), run).pc == Exited
    ensures var s := After(Init(), run);
      && s.ud.shouldStop && s.ud.ehShouldStop
      && s.batches != [] && (forall i :: 0 <= i < |s.batches| - 1 ==> s.batches[i] == 0)
      && var e := s.batches[|s.batches| - 1];
         Has(e, EH_SHUTDOWN) && exists failed :: HandledAs(e, failed, s.calls, s.ud.status)
  {
    var s := After(Init(), run);
    RunInv(run);
    ShutdownIsNotEmpty(Batch(s));
    var failed :| CallsInOrder(s, failed);
    assert HandledAs(Batch(s), failed, s.calls, s.ud.status);
  }

  /** The handler is never stuck: when an event was raised and every thread is through with its own, it can
      go on until it ends. */
  lemma NeverStuck(run: seq<Step>, fails: bool)
    requires Legal(Init(), run)
    requires var s := After(Init(), run); s.raised != [] && s.posting == {} && s.pc != Exited
    ensures Enabled(After(Init(), run), Handler(fails))
  {
    RunInv(run);
    if After(Init(), run).pc == Waiting {
      MayGoOn(After(Init(), run));
    }
  }

  lemma MayGoOn(s: State)
    requires NoLostWakeup(s) && NoLostShutdown(s) && Stage(s) && Flags(s)
    requires s.raised != [] && s.posting == {} && s.pc == Waiting
    ensures s.ud.waitq
  {
    ShutdownIsNotEmpty(Batch(s));
    assert !s.ud.ehShouldStop;
    ShutdownIsNotEmpty(s.ud.event);
  }

  /** How many steps the handler is from its end when it is left alone: a batch takes nine, and after a
      batch that was empty one more is needed. */
  function ToBatchEnd(pc: Pc): nat {
    match pc
    case Checking => 9
    case Waiting => 8
    case Fetching => 7
    case Stopping(_) => 6
    case StoppingEh(_) => 5
    case Waking(_) => 4
    case Resetting(_) => 3
    case Marking(_) => 2
    case Leaving(_) => 1
    case Exited => 0
  }

  /** Events that were raised are in hand: the loop ends at the next test. */
  predicate Ending(s: State) {
    || s.ud.ehShouldStop
    || ((s.pc.Stopping? || s.pc.StoppingEh?) && Has(s.pc.batch, EH_SHUTDOWN))
  }

  function Remaining(s: State): nat {
    if s.pc == Exited then 0
    else if s.pc == Checking && s.ud.ehShouldStop then 1
    else if Ending(s) || s.pc.Checking? || s.pc.Waiting? || s.pc.Fetching? then 1 + ToBatchEnd(s.pc)
    else 11 + ToBatchEnd(s.pc)
  }

  lemma HandlerProgress(s: State, fails: bool)
    requires OneBatch(s) && Flags(s) && NoLostShutdown(s)
    requires s.raised != [] && s.pc != Exited
    ensures Remaining(HandlerStep(s, fails)) < Remaining(s)
  {
    ShutdownIsNotEmpty(Batch(s));
    ShutdownIsNotEmpty(s.ud.event);
  }

  /** Left alone, with any outcome of the device reset, the handler goes on to its end: the shutdown of every
      raised event happens, within 17 of its steps. */
  lemma {:induction false} ShutdownHappens(run: seq<Step>, fails: bool) returns (more: seq<Step>)
    requires Legal(Init(), run)
    requires After(Init(), run).raised != [] && After(Init(), run).posting == {}
    ensures |more| <= Remaining(After(Init(), run)) <= 17
    ensures forall i :: 0 <= i < |more| ==> more[i] == Handler(fails)
    ensures Legal(Init(), run + more) && After(Init(), run + more).pc == Exited
    decreases Remaining(After(Init(), run))
  {
    var s := After(Init(), run);
    if s.pc == Exited {
      more := [];
      assert run + more == run;
    } else {
      NeverStuck(run, fails);
      RunInv(run);
      HandlerProgress(s, fails);
      var next := run + [Handler(fails)];
      assert next[..|next| - 1] == run;
      var rest := ShutdownHappens(next, fails);
      more := [Handler(fails)] + rest;
      assert run + more == next + rest;
    }
  }
}
