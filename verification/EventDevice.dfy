/** The event fields of a usbip_device and the functions of stub_event.c and of its handlers that update
    them. They are proved against the steps of EventHandler.dfy. */
module EventDevices {
  import opened EventHandler

  /** What event_handler makes of the pending events. */
  function HandleBatch(ud: Shared, resetFails: bool): Shared {
    var e := ud.event;
    Shared(0, ud.waitq || Has(e, EH_SHUTDOWN), ud.shouldStop || Has(e, EH_SHUTDOWN),
           ud.ehShouldStop || Has(e, EH_SHUTDOWN),
           if Has(e, EH_UNUSABLE) then Error
           else if Has(e, EH_RESET) then if resetFails then Error else Available
           else ud.status)
  }

  /** The handler, left alone until it has finished the batch it is about to fetch, or is in. */
  function FinishBatch(s: State, resetFails: bool): State
    requires s.pc.Fetching? || Working(s.pc)
    decreases ToBatchEnd(s.pc)
  {
    var next := HandlerStep(s, resetFails);
    if s.pc.Leaving? then next else FinishBatch(next, resetFails)
  }

  /** In one piece or step by step, a batch comes to the same, when nobody adds to it meanwhile. */
  lemma BatchInOnePiece(s: State, resetFails: bool)
    requires s.pc == Fetching
    ensures var t := FinishBatch(s, resetFails);
      && t.ud == HandleBatch(s.ud, resetFails)
      && t.batches == s.batches + [s.ud.event]
      && (t.pc == Exited <==> Has(s.ud.event, EH_BYE)) && t.pc in {Exited, Checking}
  {
    var e := s.ud.event;
    var s1 := HandlerStep(s, resetFails);
    var s2 := HandlerStep(s1, resetFails);
    assert FinishBatch(s, resetFails) == FinishBatch(s1, resetFails) == FinishBatch(s2, resetFails);
    if Has(e, EH_SHUTDOWN) {
      var s3 := HandlerStep(s2, resetFails);
      var s4 := HandlerStep(s3, resetFails);
      assert FinishBatch(s2, resetFails) == FinishBatch(s3, resetFails) == FinishBatch(s4, resetFails);
      FinishFromResetting(s4, resetFails);
    } else {
      FinishFromResetting(s2, resetFails);
    }
  }

  lemma FinishFromResetting(s: State, resetFails: bool)
    requires s.pc.Resetting?
    ensures var t, e := FinishBatch(s, resetFails), s.pc.batch;
      && t.ud == s.ud.(status := if Has(e, EH_UNUSABLE) then Error
                                 else if Has(e, EH_RESET) then if resetFails then Error else Available
                                 else s.ud.status)
      && t.batches == s.batches && t.pc == if Has(e, EH_BYE) then Exited else Checking
  {
    var s1 := HandlerStep(s, resetFails);
    var s2 := HandlerStep(s1, resetFails);
    assert FinishBatch(s1, resetFails) == FinishBatch(s2, resetFails) == HandlerStep(s2, resetFails);
  }

  /** What other threads add, from one fetch of the handler to the next: while it handles a batch, and while it
      waits. */
  datatype Adds = Adds(waiting: bv8, handling: bv8)

  /** What the handler finds at its fetch number k. */
  function BatchAt(adds: seq<Adds>, k: nat): bv8
    requires k < |adds|
  {
    adds[k].waiting | if k == 0 then 0 else adds[k - 1].handling
  }

  /** Number of the first batch from k on that is not empty, or |adds|. */
  function FirstBatch(adds: seq<Adds>, k: nat): (i: nat)
    requires k <= |adds|
    ensures k <= i <= |adds| && (forall j :: k <= j < i ==> BatchAt(adds, j) == 0)
    ensures i < |adds| ==> BatchAt(adds, i) != 0
    decreases |adds| - k
  {
    if k == |adds| || BatchAt(adds, k) != 0 then k else FirstBatch(adds, k + 1)
  }

  /** The handled device, when others have added events to it meanwhile. */
  function AddedTo(ud: Shared, e: bv8): Shared {
    ud.(event := ud.event | e, waitq := ud.waitq || e != 0)
  }

  class UsbipDevice {
    var event: bv8
    var waitq: bool
    var shouldStop: bool
    var ehShouldStop: bool
    var status: Status

    function View(): Shared
      reads this
    {
      Shared(event, waitq, shouldStop, ehShouldStop, status)
    }

    /** usbip_start_eh, once the device is in use. */
    constructor ()
      ensures View() == Init().ud
    {
      event, waitq, shouldStop, ehShouldStop, status := 0, true, false, false, Used;
    }

    method EventGet() returns (e: bv8)
      modifies this`event
      ensures e == old(event) && View() == old(View()).(event := 0)
    {
      e := event;
      event := 0;
    }

    method UsbipEventAdd(e: bv8)
      modifies this`event, this`waitq
      ensures View() == FreeWaitq(AddEvent(old(View()), e))
    {
      event := event | e;
      waitq := true;
    }

    method UsbipEventHappened() returns (happened: bool)
      ensures happened <==> event != 0
    {
      happened := false;
      if event != 0 {
        happened := true;
      }
    }

    method UsbipStopEh()
      modifies this`ehShouldStop, this`waitq
      ensures View() == FreeWaitq(old(View()).(ehShouldStop := true))
    {
      ehShouldStop := true;
      waitq := true;
    }

    method StubShutdown()
      modifies this`shouldStop, this`ehShouldStop, this`waitq
      ensures View() == FreeWaitq(old(View()).(shouldStop := true, ehShouldStop := true))
    {
      shouldStop := true;
      UsbipStopEh();
    }

    method StubDeviceReset(fails: bool)
      modifies this`status
      ensures View() == AfterReset(old(View()), fails)
    {
      if fails {
        status := Error;
      } else {
        status := Available;
      }
    }

    method StubDeviceUnusable()
      modifies this`status
      ensures View() == old(View()).(status := Error)
    {
      status := Error;
    }

    /** event_handler */
    method HandleEvents(resetFails: bool) returns (ret: int)
      modifies this
      ensures View() == HandleBatch(old(View()), resetFails)
      ensures ret == if Has(old(event), EH_BYE) then -1 else 0
    {
      var e := EventGet();
      if Has(e, EH_SHUTDOWN) {
        StubShutdown();
      }
      if Has(e, EH_RESET) {
        StubDeviceReset(resetFails);
      }
      if Has(e, EH_UNUSABLE) {
        StubDeviceUnusable();
      }
      ret := if Has(e, EH_BYE) then -1 else 0;
    }

    /** Other threads' usbip_event_add, and its post. */
    method OthersAdd(e: bv8)
      modifies this`event, this`waitq
      ensures View() == AddedTo(old(View()), e)
    {
      event := event | e;
      waitq := waitq || e != 0;
    }

    /** event_handler_loop, with what other threads add before, during and after each batch; it waits for ever when
        there is no further wake-up. The first batch that is not empty is handled, and no other; what came
        in meanwhile stays pending. */
    method EventHandlerLoop(adds: seq<Adds>, resetFails: bool) returns (handled: nat)
      requires event == 0 && !ehShouldStop
      requires forall i :: 0 <= i < |adds| && BatchAt(adds, i) != 0 ==> Has(BatchAt(adds, i), EH_SHUTDOWN)
      modifies this
      ensures var i := FirstBatch(adds, 0);
        if i == |adds| then handled == |adds| && !ehShouldStop && shouldStop == old(shouldStop) && status == old(status)
        else
          && handled == i + 1
          && View() == AddedTo(HandleBatch(old(View()).(event := BatchAt(adds, i), waitq := false), resetFails),
                               adds[i].handling)
    {
      handled := 0;
      ghost var start := View();
      var ret := 0;
      EmptyBatch(0);
      while !ehShouldStop && ret == 0 && handled < |adds|
        invariant handled <= |adds|
        invariant !ehShouldStop ==> FirstBatch(adds, 0) == FirstBatch(adds, handled)
        invariant !ehShouldStop ==> ret == 0 && shouldStop == start.shouldStop && status == start.status
        invariant !ehShouldStop ==> event == if handled == 0 then 0 else adds[handled - 1].handling
        invariant ehShouldStop ==> handled == FirstBatch(adds, 0) + 1
        invariant ehShouldStop ==>
          View() == AddedTo(HandleBatch(start.(event := BatchAt(adds, handled - 1), waitq := false), resetFails),
                            adds[handled - 1].handling)
        decreases |adds| - handled
      {
        OrIsSymmetric(event, adds[handled].waiting);
        OthersAdd(adds[handled].waiting);
        waitq := false;
        EmptyBatch(event);
        EmptyBatch(adds[handled].handling);
        ret := HandleEvents(resetFails);
        OthersAdd(adds[handled].handling);
        handled := handled + 1;
      }
    }
  }

  lemma OrIsSymmetric(a: bv8, b: bv8)
    ensures a | b == b | a
  {
  }

  lemma EmptyBatch(e: bv8)
    ensures 0 | e == e
    ensures !Has(0, EH_SHUTDOWN) && !Has(0, EH_RESET) && !Has(0, EH_UNUSABLE) && !Has(0, EH_BYE)
  {
  }
}
