/** What the invariant says about one command in any run: it is in one place and answered at
    most once, in order, and its entry is freed once, after its answer. */
module UrbAccounts {
  import opened Usb
  import opened UrbQueues
  import opened Bags
  import opened UrbProtocol
  import opened UrbInvariant

  ghost function RetSubmitNum(r: Reply): multiset<Seqnum> {
    match r case RetSubmit(p) => multiset{p.seqnum} case RetUnlink(_) => multiset{}
  }

  ghost function RetUnlinkNum(r: Reply): multiset<Seqnum> {
    match r case RetSubmit(_) => multiset{} case RetUnlink(u) => multiset{u.seqnum}
  }

  lemma {:induction false} WireNumbers(rs: seq<Reply>)
    ensures Bag(SubmitsOf(rs), NumOf) == Bag(rs, RetSubmitNum)
    ensures Bag(UnlinksOf(rs), UnlinkNumOf) == Bag(rs, RetUnlinkNum)
  {
    if rs != [] {
      var before := rs[..|rs| - 1];
      WireNumbers(before);
      match rs[|rs| - 1] {
        case RetSubmit(p) =>
          assert UnlinksOf(rs) == UnlinksOf(before);
          BagAppend(SubmitsOf(before), p, NumOf);
        case RetUnlink(u) =>
          assert SubmitsOf(rs) == SubmitsOf(before);
          BagAppend(UnlinksOf(before), u, UnlinkNumOf);
      }
    }
  }

  /** How often a sequence number counts as a submit that is: pending; in priv_tx; dequeued and
      not sent; answered by a RET_SUBMIT; taken over by an unlink. */
  ghost function SubmitPlaces(s: State, n: Seqnum): seq<nat> {
    [ Bag(s.q.privInit, LiveOf)[n],
      Bag(s.q.privTx, NumOf)[n],
      Bag(UnsentSubmits(s.tx), NumOf)[n],
      Bag(s.log.wire, RetSubmitNum)[n],
      Bag(s.log.takeovers, VictimOf)[n] ]
  }

  /** How often it counts as an unlink that is: carried by the entry it hit; in unlink_tx; dequeued
      and not sent; answered by a RET_UNLINK; lost because there was no memory for the reply. */
  ghost function UnlinkPlaces(s: State, n: Seqnum): seq<nat> {
    [ Bag(s.q.privInit, CarriedOf)[n],
      Bag(s.q.unlinkTx, UnlinkNumOf)[n],
      Bag(UnsentUnlinks(s.tx), UnlinkNumOf)[n],
      Bag(s.log.wire, RetUnlinkNum)[n],
      multiset(s.log.lost)[n] ]
  }

  /** Exactly one place for a taken command, none for a number that was not taken as one. */
  ghost predicate InOnePlace(places: seq<nat>, taken: bool)
    requires |places| == 5
  {
    places[0] + places[1] + places[2] + places[3] + places[4] == if taken then 1 else 0
  }

  lemma CountOnce(s: State, n: Seqnum)
    requires DistinctNumbers(s.log)
    ensures multiset(s.log.submits)[n] == if n in s.log.submits then 1 else 0
    ensures multiset(s.log.unlinks)[n] == if n in s.log.unlinks then 1 else 0
    ensures !(n in s.log.submits && n in s.log.unlinks)
  {
    var l := s.log;
    assert multiset(l.submits + l.unlinks + l.ignored)
        == multiset(l.submits) + multiset(l.unlinks) + multiset(l.ignored);
    assert multiset(l.submits + l.unlinks + l.ignored)[n] <= 1;
    assert n in l.submits <==> n in multiset(l.submits);
    assert n in l.unlinks <==> n in multiset(l.unlinks);
  }

  lemma EnteredPlaces(s: State, n: Seqnum)
    requires Fifo(s)
    ensures Bag(s.log.enteredTx, NumOf)[n]
         == SubmitPlaces(s, n)[1] + SubmitPlaces(s, n)[2] + SubmitPlaces(s, n)[3]
    ensures Bag(s.log.enteredUnlink, UnlinkNumOf)[n]
         == UnlinkPlaces(s, n)[1] + UnlinkPlaces(s, n)[2] + UnlinkPlaces(s, n)[3]
  {
    WireNumbers(s.log.wire);
    BagConcat(SubmitsOf(s.log.wire), UnsentSubmits(s.tx), NumOf);
    BagConcat(SubmitsOf(s.log.wire) + UnsentSubmits(s.tx), s.q.privTx, NumOf);
    BagConcat(UnlinksOf(s.log.wire), UnsentUnlinks(s.tx), UnlinkNumOf);
    BagConcat(UnlinksOf(s.log.wire) + UnsentUnlinks(s.tx), s.q.unlinkTx, UnlinkNumOf);
  }

  /** In every state of every interleaving, a submit that got an entry is in exactly one place. */
  lemma SubmitInOnePlace(connected: bool, run: seq<Step>, n: Seqnum)
    requires Legal(Init(connected), run)
    ensures var s := After(Init(connected), run); InOnePlace(SubmitPlaces(s, n), n in s.log.submits)
  {
    var s := After(Init(connected), run);
    RunInv(connected, run);
    CountOnce(s, n);
    EnteredPlaces(s, n);
    assert SubmitsAccounted(s);
  }

  /** ... and so is every unlink. */
  lemma UnlinkInOnePlace(connected: bool, run: seq<Step>, n: Seqnum)
    requires Legal(Init(connected), run)
    ensures var s := After(Init(connected), run); InOnePlace(UnlinkPlaces(s, n), n in s.log.unlinks)
  {
    var s := After(Init(connected), run);
    RunInv(connected, run);
    CountOnce(s, n);
    EnteredPlaces(s, n);
    assert UnlinksAccounted(s);
  }

  /** A reply is lost only together with an event, and a submit is taken over by one unlink. */
  lemma TakenOverByOne(connected: bool, run: seq<Step>, i: nat, j: nat)
    requires Legal(Init(connected), run)
    requires var ts := After(Init(connected), run).log.takeovers; i < |ts| && j < |ts|
    ensures var s := After(Init(connected), run);
      && s.log.takeovers[i].victim in s.log.submits
      && s.log.takeovers[i].unlinkedBy in s.log.unlinks
      && (i != j ==> s.log.takeovers[i].victim != s.log.takeovers[j].victim)
      && (i != j ==> s.log.takeovers[i].unlinkedBy != s.log.takeovers[j].unlinkedBy)
  {
    var s := After(Init(connected), run);
    var ts := s.log.takeovers;
    RunInv(connected, run);
    BagContains(ts, i, VictimOf);
    BagContains(ts, i, UnlinkerOf);
    var v, u := ts[i].victim, ts[i].unlinkedBy;
    assert v in VictimOf(ts[i]) && u in UnlinkerOf(ts[i]);
    TakeoverCounts(s, v);
    TakeoverCounts(s, u);
    if i != j {
      BagPair(ts, i, j, VictimOf);
      BagPair(ts, i, j, UnlinkerOf);
    }
  }

  lemma {:induction false} BagPair<A, B>(s: seq<A>, i: nat, j: nat, f: A -> multiset<B>)
    requires i < |s| && j < |s| && i != j
    ensures f(s[i]) + f(s[j]) <= Bag(s, f)
  {
    BagRemove(s, i, f);
    var k := if j < i then j else j - 1;
    assert RemoveAt(s, i)[k] == s[j];
    BagContains(RemoveAt(s, i), k, f);
  }

  lemma TakeoverCounts(s: State, n: Seqnum)
    requires Accounted(s)
    ensures Bag(s.log.takeovers, VictimOf)[n] <= if n in s.log.submits then 1 else 0
    ensures Bag(s.log.takeovers, UnlinkerOf)[n] <= if n in s.log.unlinks then 1 else 0
  {
    CountOnce(s, n);
    assert SubmitsAccounted(s) && UnlinksAccounted(s) && TakeoversAccounted(s);
    assert multiset(s.log.submits)[n] >= Bag(s.log.takeovers, VictimOf)[n];
    assert multiset(s.log.unlinks)[n] >= Bag(s.log.takeovers, UnlinkerOf)[n];
  }

  /** FIFO: the replies on the wire, and the one being sent, are those that entered the queue first. */
  lemma WireIsFifo(connected: bool, run: seq<Step>)
    requires Legal(Init(connected), run)
    ensures var s := After(Init(connected), run);
      && SubmitsOf(s.log.wire) <= s.log.enteredTx
      && UnlinksOf(s.log.wire) <= s.log.enteredUnlink
      && s.log.enteredTx == SubmitsOf(s.log.wire) + UnsentSubmits(s.tx) + s.q.privTx
      && s.log.enteredUnlink == UnlinksOf(s.log.wire) + UnsentUnlinks(s.tx) + s.q.unlinkTx
  {
    RunInv(connected, run);
  }

  /** Ownership: every stub_priv ever allocated is on exactly one list, or was freed exactly once. */
  lemma OnOneListOrFreedOnce(connected: bool, run: seq<Step>, id: nat)
    requires Legal(Init(connected), run)
    ensures var s := After(Init(connected), run);
      Bag(s.q.privInit, IdOf)[id] + Bag(s.q.privTx, IdOf)[id] + Bag(s.q.privFree, IdOf)[id]
      + Bag(s.log.freedTx, IdOf)[id] + Bag(s.log.freedUnlinking, IdOf)[id]
      == if id < s.log.nextId then 1 else 0
  {
    var s := After(Init(connected), run);
    RunInv(connected, run);
    IdRangeOnce(s.log.nextId, id);
    assert s.log.enteredTx == s.log.freedTx + s.q.privFree + s.q.privTx;
    BagConcat(s.log.freedTx, s.q.privFree, IdOf);
    BagConcat(s.log.freedTx + s.q.privFree, s.q.privTx, IdOf);
    assert Owned(s);
  }

  /** stub_send_ret_submit frees an entry only after its RET_SUBMIT went out whole, so never one whose
      send failed; stub_complete frees one only when the RET_UNLINK in its place is queued. */
  lemma FreedOnlyWhenAnswered(connected: bool, run: seq<Step>, p: Priv)
    requires Legal(Init(connected), run)
    ensures var s := After(Init(connected), run);
      && (p in s.log.freedTx ==> RetSubmit(p) in s.log.wire)
      && (p in UnsentSubmits(s.tx) ==> p in s.q.privFree && p !in s.log.freedTx)
      && (p in s.log.freedUnlinking ==>
           p.seqnum in s.log.lost || exists u :: u in s.log.enteredUnlink && u.seqnum == p.seqnum)
  {
    var s := After(Init(connected), run);
    RunInv(connected, run);
    InSubmitsOf(s.log.wire, p);
    if p in UnsentSubmits(s.tx) {
      UnsentIsHeld(s, p);
    }
    if p in s.log.freedUnlinking {
      FreedIsReplaced(s, p);
    }
  }

  lemma FreedIsReplaced(s: State, p: Priv)
    requires TakeoversAccounted(s) && p in s.log.freedUnlinking
    ensures p.seqnum in s.log.lost || exists u :: u in s.log.enteredUnlink && u.seqnum == p.seqnum
  {
    var i :| 0 <= i < |s.log.freedUnlinking| && s.log.freedUnlinking[i] == p;
    BagContains(s.log.freedUnlinking, i, NumOf);
    assert p.seqnum in NumOf(p);
    assert p.seqnum in Bag(s.log.enteredUnlink, UnlinkNumOf) + multiset(s.log.lost);
    if p.seqnum in Bag(s.log.enteredUnlink, UnlinkNumOf) {
      var k := BagSource(s.log.enteredUnlink, p.seqnum, UnlinkNumOf);
      assert s.log.enteredUnlink[k].seqnum == p.seqnum;
    }
  }

  lemma {:induction false} InSubmitsOf(rs: seq<Reply>, p: Priv)
    ensures p in SubmitsOf(rs) <==> RetSubmit(p) in rs
  {
    if rs != [] {
      InSubmitsOf(rs[..|rs| - 1], p);
    }
  }

  lemma UnsentIsHeld(s: State, p: Priv)
    requires Fifo(s) && Owned(s) && p in UnsentSubmits(s.tx)
    ensures p in s.q.privFree && p !in s.log.freedTx
  {
    var ws, fs := SubmitsOf(s.log.wire), s.log.freedTx;
    var all := fs + s.q.privFree;
    assert all == ws + [p];
    assert all[|ws|] == p;
    assert s.q.privFree[|ws| - |fs|] == p;
    assert s.log.enteredTx == all + s.q.privTx;
    IdRangeOnce(s.log.nextId, p.id);
    assert IdRange(s.log.nextId)[p.id] >= Bag(s.log.enteredTx, IdOf)[p.id];
    forall i | 0 <= i < |fs| ensures fs[i] != p {
      BagPair(s.log.enteredTx, i, |ws|, IdOf);
      assert s.log.enteredTx[i] == fs[i] && s.log.enteredTx[|ws|] == p;
      assert (IdOf(fs[i]) + IdOf(p))[p.id] <= 1;
    }
  }

  ghost predicate HaveTransfers(ps: seq<Priv>) {
    forall p :: p in ps ==> p.trx.Transfer?
  }

  lemma StepQueuesTransfers(s: State, step: Step)
    requires Enabled(s, step) && HaveTransfers(s.log.enteredTx)
    ensures HaveTransfers(Apply(s, step).log.enteredTx)
  {
    if step.RxIntercept? {
      InterceptQueues(s, step.trx);
    }
  }

  lemma InterceptQueues(s: State, trx: Transfer)
    requires s.rx.Preparing? && trx.Transfer?
    ensures HaveTransfers(NewTx(s.q, Intercept(s.q, s.rx.id, trx)))
  {
  }

  /** The tx thread never meets an entry whose transfer is not set yet: not among those queued, not in its
      hands, not on the wire. */
  lemma {:induction false} QueuedHaveTransfers(connected: bool, run: seq<Step>)
    requires Legal(Init(connected), run)
    ensures var s := After(Init(connected), run);
      HaveTransfers(s.log.enteredTx) && HaveTransfers(s.q.privTx) && HaveTransfers(UnsentSubmits(s.tx))
      && HaveTransfers(SubmitsOf(s.log.wire))
    decreases |run|
  {
    if run != [] {
      QueuedHaveTransfers(connected, run[..|run| - 1]);
      StepQueuesTransfers(After(Init(connected), run[..|run| - 1]), run[|run| - 1]);
    }
    RunInv(connected, run);
    var s := After(Init(connected), run);
    assert s.log.enteredTx == SubmitsOf(s.log.wire) + UnsentSubmits(s.tx) + s.q.privTx;
  }
}
