/** From bytes to the protocol: what the rx thread reads out of a client's stream are steps of the machine. */
module UrbCommands {
  import opened Usb
  import opened UrbQueues
  import opened UrbProtocol
  import opened UrbInvariant
  import opened ReplyStream
  import opened UrbWire
  import opened CommandStream
  import opened CommandClient

  /** What tweak_special_requests and masking_bogus_flags make of a submit: the transfer as it goes to libusb,
      or as it is answered when the request was intercepted. */
  datatype Ready = Ready(intercepted: bool, trx: Transfer)

  /** They keep the type and the packets, and intercept special requests only. */
  predicate IsReady(s: Submission, r: Ready) {
    && r.trx.Transfer? && r.trx.kind == s.kind && |r.trx.packets| == |s.packets|
    && (r.intercepted ==> Intercepted(r.trx))
  }

  type Tweak = f: Submission -> Ready | forall s :: IsReady(s, f(s))
    witness (s: Submission) => Ready(false, Transfer(s.kind, false, Completed, 0, s.buffer, s.packets))

  /** The steps of the rx thread for one PDU. */
  function StepsOf(o: Outcome, tweak: Tweak): seq<Step> {
    match o
    case Lost => []
    case Ignored(n) => [RxIgnore(n)]
    case Refused(n) => [RxAllocFails(n)]
    case Unlinked(n, target) => [RxUnlink(n, target, true)]
    case Submitted(s) =>
      [RxAlloc(s.seqnum, s.dir), if tweak(s).intercepted then RxIntercept(tweak(s).trx) else RxSubmit(tweak(s).trx)]
    case Abandoned(n, dir) => [RxAlloc(n, dir), RxAbandon(Null)]
  }

  function RunOf(os: seq<Outcome>, tweak: Tweak): seq<Step> {
    if os == [] then [] else RunOf(os[..|os| - 1], tweak) + StepsOf(os[|os| - 1], tweak)
  }

  // The numbers in a list of outcomes, by what the log calls them.
  function SubmitNums(os: seq<Outcome>): seq<Seqnum> {
    if os == [] then []
    else SubmitNums(os[..|os| - 1]) + match os[|os| - 1]
      case Submitted(s) => [s.seqnum]
      case Abandoned(n, _) => [n]
      case _ => []
  }

  function UnlinkNums(os: seq<Outcome>): seq<Seqnum> {
    if os == [] then []
    else UnlinkNums(os[..|os| - 1]) + if os[|os| - 1].Unlinked? then [os[|os| - 1].seqnum] else []
  }

  function IgnoredNums(os: seq<Outcome>): seq<Seqnum> {
    if os == [] then []
    else IgnoredNums(os[..|os| - 1]) + match os[|os| - 1]
      case Ignored(n) => [n]
      case Refused(n) => [n]
      case _ => []
  }

  function CommandNum(o: Outcome): Seqnum
    requires !o.Lost?
  {
    match o
    case Ignored(n) => n
    case Refused(n) => n
    case Unlinked(n, _) => n
    case Submitted(s) => s.seqnum
    case Abandoned(n, _) => n
  }

  /** A client that gives every command a new number and unlinks what it has submitted. The driver takes nothing
      after a submit that it had to give up. */
  predicate Honest(os: seq<Outcome>) {
    os == [] ||
    var before, o := os[..|os| - 1], os[|os| - 1];
    && Honest(before)
    && !o.Lost? && !GaveUp(before)
    && CommandNum(o) !in SubmitNums(before) + UnlinkNums(before) + IgnoredNums(before)
    && (o.Unlinked? ==> o.target in SubmitNums(before) + IgnoredNums(before))
  }

  /** The rx thread has logged every number, and is idle unless it had to give up. */
  ghost predicate Logged(s: State, os: seq<Outcome>) {
    && s.log.submits == SubmitNums(os) && s.log.unlinks == UnlinkNums(os) && s.log.ignored == IgnoredNums(os)
    && s.rx == if GaveUp(os) then Halted else Idle
  }

  lemma TwoSteps(s: State, run: seq<Step>, a: Step, b: Step)
    requires Legal(s, run) && Enabled(After(s, run), a) && Enabled(Apply(After(s, run), a), b)
    ensures Legal(s, run + [a, b]) && After(s, run + [a, b]) == Apply(Apply(After(s, run), a), b)
  {
    Extend(s, run, a);
    Extend(s, run + [a], b);
    assert run + [a] + [b] == run + [a, b];
  }

  /** What the log has after one more outcome. */
  ghost predicate LogsOne(s: State, t: State, o: Outcome)
    requires !o.Lost?
  {
    && t.rx == (if o.Refused? || o.Abandoned? then Halted else Idle)
    && t.log.submits == s.log.submits + (if o.Submitted? || o.Abandoned? then [CommandNum(o)] else [])
    && t.log.unlinks == s.log.unlinks + (if o.Unlinked? then [CommandNum(o)] else [])
    && t.log.ignored == s.log.ignored + (if o.Ignored? || o.Refused? then [CommandNum(o)] else [])
  }

  /** The effect of the two steps of a submit. */
  lemma SubmitLogged(s: State, o: Outcome, tweak: Tweak)
    requires s.rx == Idle && (o.Submitted? || o.Abandoned?) && Fresh(s.log, CommandNum(o))
    ensures var a, b := StepsOf(o, tweak)[0], StepsOf(o, tweak)[1];
      Enabled(s, a) && Enabled(Apply(s, a), b) && LogsOne(s, Apply(Apply(s, a), b), o)
  {
  }

  /** ... and of the one step of any other command. */
  lemma OtherLogged(s: State, o: Outcome, tweak: Tweak)
    requires s.rx == Idle && (o.Ignored? || o.Refused? || o.Unlinked?) && Fresh(s.log, CommandNum(o))
    requires o.Unlinked? ==> o.target in s.log.submits || o.target in s.log.ignored
    ensures Enabled(s, StepsOf(o, tweak)[0]) && LogsOne(s, Apply(s, StepsOf(o, tweak)[0]), o)
  {
  }

  /** What the driver takes from an honest client is a legal run of the rx thread. It gives each submit to an
      endpoint that exists an entry, and logs every number where it belongs. */
  lemma {:induction false} OutcomesAreRun(connected: bool, os: seq<Outcome>, tweak: Tweak)
    requires Honest(os)
    ensures Legal(Init(connected), RunOf(os, tweak))
    ensures Logged(After(Init(connected), RunOf(os, tweak)), os)
  {
    if os != [] {
      OutcomesAreRun(connected, os[..|os| - 1], tweak);
      TakesOne(connected, RunOf(os[..|os| - 1], tweak), os[|os| - 1], tweak);
    }
  }

  lemma TakesOne(connected: bool, run: seq<Step>, o: Outcome, tweak: Tweak)
    requires Legal(Init(connected), run) && !o.Lost?
    requires var s := After(Init(connected), run);
      && s.rx == Idle && Fresh(s.log, CommandNum(o))
      && (o.Unlinked? ==> o.target in s.log.submits || o.target in s.log.ignored)
    ensures Legal(Init(connected), run + StepsOf(o, tweak))
    ensures LogsOne(After(Init(connected), run), After(Init(connected), run + StepsOf(o, tweak)), o)
  {
    var s := After(Init(connected), run);
    if o.Submitted? || o.Abandoned? {
      SubmitLogged(s, o, tweak);
      TwoSteps(Init(connected), run, StepsOf(o, tweak)[0], StepsOf(o, tweak)[1]);
    } else {
      OtherLogged(s, o, tweak);
      Extend(Init(connected), run, StepsOf(o, tweak)[0]);
    }
  }

  // ----- among the other threads -----

  predicate IsRx(step: Step) {
    step.RxIgnore? || step.RxAlloc? || step.RxAllocFails? || step.RxSubmit? || step.RxIntercept? || step.RxAbandon?
    || step.RxUnlink?
  }

  /** The rx thread's own steps in a run. Whether the reply to an unlink could be allocated makes no difference
      to it. */
  function RxSteps(run: seq<Step>): seq<Step> {
    if run == [] then [] else RxSteps(run[..|run| - 1]) + RxPart(run[|run| - 1])
  }

  function RxPart(step: Step): seq<Step> {
    match step
    case RxUnlink(n, target, _) => [RxUnlink(n, target, true)]
    case _ => if IsRx(step) then [step] else []
  }

  /** All that the rx thread's steps depend on and change, but for the queues. */
  datatype RxView = RxView(rx: RxPc, nextId: nat, submits: seq<Seqnum>, unlinks: seq<Seqnum>, ignored: seq<Seqnum>)

  function ViewOf(s: State): RxView {
    RxView(s.rx, s.log.nextId, s.log.submits, s.log.unlinks, s.log.ignored)
  }

  lemma OtherStep(s: State, step: Step)
    requires Enabled(s, step) && !IsRx(step)
    ensures ViewOf(Apply(s, step)) == ViewOf(s)
  {
  }

  lemma RxStep(s: State, t: State, step: Step)
    requires Enabled(s, step) && IsRx(step) && ViewOf(s) == ViewOf(t)
    ensures Enabled(t, RxPart(step)[0]) && ViewOf(Apply(s, step)) == ViewOf(Apply(t, RxPart(step)[0]))
  {
  }

  /** The rx thread does not see the others: its own steps are a run, and take it to the same place. */
  lemma {:induction false} RxAlone(connected: bool, run: seq<Step>)
    requires Legal(Init(connected), run)
    ensures Legal(Init(connected), RxSteps(run))
    ensures ViewOf(After(Init(connected), run)) == ViewOf(After(Init(connected), RxSteps(run)))
    decreases |run|
  {
    if run != [] {
      var before, step := run[..|run| - 1], run[|run| - 1];
      RxAlone(connected, before);
      var s, t := After(Init(connected), before), After(Init(connected), RxSteps(before));
      if IsRx(step) {
        RxStep(s, t, step);
        Extend(Init(connected), RxSteps(before), RxPart(step)[0]);
      } else {
        OtherStep(s, step);
        assert RxSteps(run) == RxSteps(before);
      }
    }
  }

  lemma RxStepsNext(run: seq<Step>, step: Step)
    ensures RxSteps(run + [step]) == RxSteps(run) + RxPart(step)
  {
    assert (run + [step])[..|run|] == run;
  }

  /** One outcome's steps are the rx thread's own. */
  lemma OwnSteps(run: seq<Step>, o: Outcome, tweak: Tweak)
    ensures RxSteps(run + StepsOf(o, tweak)) == RxSteps(run) + StepsOf(o, tweak)
  {
    var steps := StepsOf(o, tweak);
    if |steps| == 2 {
      assert run + steps == run + [steps[0]] + [steps[1]];
      RxStepsNext(run, steps[0]);
      RxStepsNext(run + [steps[0]], steps[1]);
    } else if |steps| == 1 {
      assert run + steps == run + [steps[0]];
      RxStepsNext(run, steps[0]);
    } else {
      assert run + steps == run;
    }
  }

  /** The run of the rx thread alone is one of those in which its steps are these. */
  lemma {:induction false} OwnRun(os: seq<Outcome>, tweak: Tweak)
    ensures RxSteps(RunOf(os, tweak)) == RunOf(os, tweak)
  {
    if os != [] {
      OwnRun(os[..|os| - 1], tweak);
      OwnSteps(RunOf(os[..|os| - 1], tweak), os[|os| - 1], tweak);
    }
  }

  /** From a client's bytes to the machine. Whatever well-formed commands it writes, the driver handles them up to one
      that it gives up, or the end of the stream. In every run that interleaves the rx thread's steps for them
      with any completions and any steps of the tx thread, every number is logged where it belongs and the
      invariant holds. */
  lemma StreamIsRun(env: Env, cs: seq<Command>, closed: bool, connected: bool, tweak: Tweak, run: seq<Step>)
    requires forall i :: 0 <= i < |cs| ==> WellFormed(env, cs[i]) && HasRoom(env, cs[i])
    requires Honest(Taken(env, cs))
    requires Legal(Init(connected), run) && RxSteps(run) == RunOf(Taken(env, cs), tweak)
    ensures Handled(env, EncodeCommands(cs), closed) == WithEnd(Taken(env, cs))
    ensures Logged(After(Init(connected), run), Taken(env, cs)) && Inv(After(Init(connected), run))
  {
    CommandsRoundTrip(env, cs, closed);
    OutcomesAreRun(connected, Taken(env, cs), tweak);
    RxAlone(connected, run);
    RunInv(connected, run);
  }

  /** ... and there is such a run. */
  lemma StreamHasRun(env: Env, cs: seq<Command>, connected: bool, tweak: Tweak)
    requires Honest(Taken(env, cs))
    ensures Legal(Init(connected), RunOf(Taken(env, cs), tweak))
    ensures RxSteps(RunOf(Taken(env, cs), tweak)) == RunOf(Taken(env, cs), tweak)
  {
    OutcomesAreRun(connected, Taken(env, cs), tweak);
    OwnRun(Taken(env, cs), tweak);
  }

  // ----- the client's dictionary -----

  function RequestIn(s: Submission): Request { Request(s.dir == DIR_IN, s.kind == Isochronous, |s.packets|) }

  function Learn(known: map<Seqnum, Request>, o: Outcome): map<Seqnum, Request> {
    match o
    case Submitted(s) => known[s.seqnum := RequestIn(s)]
    case _ => known
  }

  /** What the driver makes of the submits it took: the number, direction, type and packet count of each. */
  function KnownOf(os: seq<Outcome>): map<Seqnum, Request> {
    if os == [] then map[] else Learn(KnownOf(os[..|os| - 1]), os[|os| - 1])
  }

  lemma NotedNext(run: seq<Step>, step: Step)
    ensures Noted(run + [step]) == Note(Noted(run), step)
  {
    assert (run + [step])[..|run|] == run;
  }

  /** What is noted in a run depends on the rx thread's own steps alone. */
  lemma {:induction false} NotedByRx(run: seq<Step>)
    ensures Noted(run) == Noted(RxSteps(run))
  {
    if run != [] {
      NotedByRx(run[..|run| - 1]);
      NotedPart(RxSteps(run[..|run| - 1]), run[|run| - 1]);
    }
  }

  lemma NotedPart(run: seq<Step>, step: Step)
    ensures Noted(run + RxPart(step)) == Note(Noted(run), step)
  {
    if IsRx(step) {
      NotedNext(run, RxPart(step)[0]);
    } else {
      assert run + RxPart(step) == run;
    }
  }

  /** One more outcome is noted as it is known. */
  lemma NotedOutcome(run: seq<Step>, o: Outcome, tweak: Tweak)
    ensures Noted(run + StepsOf(o, tweak)).known == Learn(Noted(run).known, o)
  {
    var steps := StepsOf(o, tweak);
    if |steps| == 2 {
      assert run + steps == run + [steps[0]] + [steps[1]];
      NotedNext(run, steps[0]);
      NotedNext(run + [steps[0]], steps[1]);
      if o.Submitted? {
        assert IsReady(o.sub, tweak(o.sub));
      }
    } else if |steps| == 1 {
      assert run + steps == run + [steps[0]];
      NotedNext(run, steps[0]);
    } else {
      assert run + steps == run;
    }
  }

  /** What is noted in a run is what the driver made of the submits. */
  lemma {:induction false} NotedIsKnown(os: seq<Outcome>, tweak: Tweak)
    ensures Noted(RunOf(os, tweak)).known == KnownOf(os)
  {
    if os != [] {
      NotedIsKnown(os[..|os| - 1], tweak);
      NotedOutcome(RunOf(os[..|os| - 1], tweak), os[|os| - 1], tweak);
    }
  }

  /** The dictionary a client makes of its own commands: of each submit to an endpoint the device has, its direction,
      whether the endpoint is isochronous, and how many packets it has. */
  function ClientKnown(env: Env, cs: seq<Command>): map<Seqnum, Request> {
    if cs == [] then map[]
    else
      var known := ClientKnown(env, cs[1..]);
      match cs[0]
      case CmdSubmit(_, _, _, h, _, ds) =>
        var t := env.types(h.ep % 0x100);
        if t <= 3 then known[h.seqnum := Request(h.direction == 1, t == 1, |ds|)] else known
      case _ => known
  }

  /** Directions are 0 or 1. */
  predicate HasDirection(c: Command) { c.CmdSubmit? ==> c.header.direction < 2 }

  predicate NumbersDiffer(os: seq<Outcome>) {
    && (forall i :: 0 <= i < |os| ==> !os[i].Lost?)
    && (forall i, j :: 0 <= i < j < |os| ==> CommandNum(os[i]) != CommandNum(os[j]))
  }

  lemma {:induction false} NumberIsListed(os: seq<Outcome>, i: nat)
    requires i < |os| && !os[i].Lost?
    ensures CommandNum(os[i]) in SubmitNums(os) + UnlinkNums(os) + IgnoredNums(os)
  {
    if i < |os| - 1 {
      NumberIsListed(os[..|os| - 1], i);
    }
  }

  lemma {:induction false} HonestNumbersDiffer(os: seq<Outcome>)
    requires Honest(os)
    ensures NumbersDiffer(os)
  {
    if os != [] {
      var before := os[..|os| - 1];
      HonestNumbersDiffer(before);
      forall i | 0 <= i < |before| ensures CommandNum(os[i]) != CommandNum(os[|os| - 1]) {
        NumberIsListed(before, i);
      }
    }
  }

  lemma {:induction false} LearnedFrom(os: seq<Outcome>, n: Seqnum) returns (i: nat)
    requires n in KnownOf(os)
    ensures i < |os| && os[i].Submitted? && os[i].sub.seqnum == n && KnownOf(os)[n] == RequestIn(os[i].sub)
  {
    i := |os| - 1;
    if !(os[i].Submitted? && os[i].sub.seqnum == n) {
      i := LearnedFrom(os[..|os| - 1], n);
    }
  }

  /** What reached libusb is in the client's dictionary. */
  lemma {:induction false} ClientHas(env: Env, cs: seq<Command>, i: nat)
    requires forall k :: 0 <= k < |cs| ==> WellFormed(env, cs[k]) && HasDirection(cs[k])
    requires NumbersDiffer(Taken(env, cs)) && i < |Taken(env, cs)| && Taken(env, cs)[i].Submitted?
    ensures var sub := Taken(env, cs)[i].sub;
      sub.seqnum in ClientKnown(env, cs) && ClientKnown(env, cs)[sub.seqnum] == RequestIn(sub)
  {
    var os, c := Taken(env, cs), cs[0];
    if c.CmdNop? {
      ClientHas(env, cs[1..], i);
    } else if i == 0 {
      OutcomeCarries(env, c);
    } else {
      assert os[1..] == Taken(env, cs[1..]);
      assert forall a :: 0 <= a < |os[1..]| ==> os[1..][a] == os[a + 1];
      ClientHas(env, cs[1..], i - 1);
      assert CommandNum(os[0]) != CommandNum(os[i]);
    }
  }

  /** From end to end: whatever commands an honest client writes, and however the threads interleave, the bytes it reads
      back decode to exactly the replies sent, with the dictionary it makes of its own commands. */
  lemma StreamIsDecodable(env: Env, cs: seq<Command>, connected: bool, tweak: Tweak, run: seq<Step>)
    requires forall k :: 0 <= k < |cs| ==> WellFormed(env, cs[k]) && HasDirection(cs[k])
    requires Honest(Taken(env, cs))
    requires Legal(Init(connected), run) && RxSteps(run) == RunOf(Taken(env, cs), tweak)
    requires CanEncodeAll(After(Init(connected), run).log.wire)
    ensures var wire := After(Init(connected), run).log.wire;
      Decode(ClientKnown(env, cs), EncodeAll(wire)) == Some(AnswersOf(wire))
  {
    var os, wire := Taken(env, cs), After(Init(connected), run).log.wire;
    NotedByRx(run);
    NotedIsKnown(os, tweak);
    RepliesExpected(connected, run);
    HonestNumbersDiffer(os);
    forall r | r in wire ensures Expected(ClientKnown(env, cs), r) {
      if r.RetSubmit? {
        var i := LearnedFrom(os, r.priv.seqnum);
        ClientHas(env, cs, i);
      }
    }
    StreamRoundTrip(ClientKnown(env, cs), wire);
  }

  /** The reply to a control read that the client wrote: the setup packet it sent is in front, and what libusb put
      behind it comes back. */
  lemma ControlReply(env: Env, c: Command, sub: Submission, p: Priv, data: seq<byte>,
                     known: map<Seqnum, Request>, rest: seq<byte>)
    requires c.CmdSubmit? && Carries(env, c, sub) && sub.kind == Control && c.header.direction == 1
    requires p.dir == sub.dir && Sendable(p) && Expected(known, RetSubmit(p))
    requires p.trx.kind == sub.kind && p.trx.buffer == sub.buffer[..8] + data
    ensures p.trx.buffer == c.header.setup + data && p.trx.actualLength <= |data|
    ensures DecodeOne(known, Encode(RetSubmit(p)) + rest).Some?
    ensures DecodeOne(known, Encode(RetSubmit(p)) + rest).value.0.payload
         == if p.trx.actualLength > 0 then data[..p.trx.actualLength] else []
  {
    PayloadIsData(known, p, rest, c.header.setup, data);
  }
}
