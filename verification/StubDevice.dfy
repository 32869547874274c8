/** The five lists of a stub_device on the heap. Each method is one region of code under
    `priv_lock`, or one of the loops around them, and refines the same region of UrbQueues.dfy. */
module StubDevices {
  import opened Usb
  import opened UrbQueues
  import opened Lists
  import opened ListGroups

  // The places of priv_init, priv_tx and priv_free, and of unlink_tx and unlink_free.
  const INIT: nat := 0
  const TX: nat := 1
  const FREE: nat := 2
  const UNLINK_TX: nat := 0
  const UNLINK_FREE: nat := 1

  /** The first entry of list a, if any, goes to the end of list b. */
  ghost function FirstToTail<T>(ls: seq<seq<T>>, a: nat, b: nat): seq<seq<T>>
    requires a < |ls| && b < |ls| && a != b
  {
    if ls[a] == [] then ls else Shift(ls, a, 0, b)
  }

  /** The first n entries of list a have gone to the end of list b. */
  ghost function Dequeued<T>(ls: seq<seq<T>>, a: nat, b: nat, n: nat): seq<seq<T>>
    requires a < |ls| && b < |ls| && a != b && n <= |ls[a]|
  {
    ls[a := ls[a][n..]][b := ls[b] + ls[a][..n]]
  }

  /** The lists after the loops are those of the pass. */
  lemma SubmitPassIs(q: Queues, before: seq<seq<Priv>>, after: seq<seq<Priv>>, sent: seq<Reply>, failAt: nat)
    requires |before| == 3 && q.privInit == before[INIT] && q.privTx == before[TX] && q.privFree == before[FREE]
    requires after == if failAt < |before[TX]| then Dequeued(before, TX, FREE, failAt + 1)
                      else before[TX := []][FREE := []]
    ensures |after| == 3 && after[INIT] == before[INIT]
    ensures SubmitPass(q, sent, failAt).q == q.(privTx := after[TX], privFree := after[FREE])
  {
  }

  lemma UnlinkPassIs(
      q: Queues, before: seq<seq<Unlink>>, after: seq<seq<Unlink>>, sent: seq<Reply>, failAt: nat)
    requires |before| == 2 && q.unlinkTx == before[UNLINK_TX] && q.unlinkFree == before[UNLINK_FREE]
    requires after == if failAt < |before[UNLINK_TX]| then Dequeued(before, UNLINK_TX, UNLINK_FREE, failAt + 1)
                      else before[UNLINK_TX := []][UNLINK_FREE := []]
    ensures UnlinkPass(q, sent, failAt).q == q.(unlinkTx := after[UNLINK_TX], unlinkFree := after[UNLINK_FREE])
  {
  }

  lemma AllDequeued<T>(ls: seq<seq<T>>, a: nat, b: nat)
    requires a < |ls| && b < |ls| && a != b
    ensures ls[a][..|ls[a]|] == ls[a]
    ensures Dequeued(ls, a, b, |ls[a]|)[b := []] == ls[a := []][b := []]
  {
    assert ls[a][|ls[a]|..] == [];
  }

  lemma DequeuedNext<T>(ls: seq<seq<T>>, a: nat, b: nat, n: nat)
    requires a < |ls| && b < |ls| && a != b && n <= |ls[a]|
    ensures FirstToTail(Dequeued(ls, a, b, n), a, b) == Dequeued(ls, a, b, if n < |ls[a]| then n + 1 else n)
  {
    if n < |ls[a]| {
      assert ls[b] + ls[a][..n] + [ls[a][n]] == ls[b] + ls[a][..n + 1];
      assert RemoveAt(ls[a][n..], 0) == ls[a][n + 1..];
    }
  }

  lemma NextSubmitSent(ls: seq<seq<Priv>>, n: nat)
    requires |ls| > FREE && n <= |ls[TX]|
    ensures n == 0 ==> Dequeued(ls, TX, FREE, 0) == ls && SubmitReplies(ls[TX][..0]) == []
    ensures FirstToTail(Dequeued(ls, TX, FREE, n), TX, FREE)
         == Dequeued(ls, TX, FREE, if n < |ls[TX]| then n + 1 else n)
    ensures n < |ls[TX]| ==>
      && SubmitReplies(ls[TX][..n]) + [RetSubmit(ls[TX][n])] == SubmitReplies(ls[TX][..n + 1])
      && SubmitBytes(ls[TX][..n + 1]) == SubmitBytes(ls[TX][..n]) + RetSubmitSize(ls[TX][n])
  {
    var q := ls[TX];
    DequeuedNext(ls, TX, FREE, n);
    if n == 0 { assert ls[FREE] + q[..0] == ls[FREE]; }
    if n < |q| {
      assert q[..n + 1] == q[..n] + [q[n]];
      SubmitBytesAppend(q[..n], q[n]);
    }
  }

  lemma NextUnlinkSent(ls: seq<seq<Unlink>>, n: nat)
    requires |ls| > UNLINK_FREE && n <= |ls[UNLINK_TX]|
    ensures n == 0 ==>
      Dequeued(ls, UNLINK_TX, UNLINK_FREE, 0) == ls && UnlinkReplies(ls[UNLINK_TX][..0]) == []
    ensures FirstToTail(Dequeued(ls, UNLINK_TX, UNLINK_FREE, n), UNLINK_TX, UNLINK_FREE)
         == Dequeued(ls, UNLINK_TX, UNLINK_FREE, if n < |ls[UNLINK_TX]| then n + 1 else n)
    ensures n < |ls[UNLINK_TX]| ==>
      && UnlinkReplies(ls[UNLINK_TX][..n]) + [RetUnlink(ls[UNLINK_TX][n])]
           == UnlinkReplies(ls[UNLINK_TX][..n + 1])
      && UnlinkBytes(ls[UNLINK_TX][..n + 1]) == UnlinkBytes(ls[UNLINK_TX][..n]) + HEADER_SIZE
  {
    var q := ls[UNLINK_TX];
    DequeuedNext(ls, UNLINK_TX, UNLINK_FREE, n);
    if n == 0 { assert ls[UNLINK_FREE] + q[..0] == ls[UNLINK_FREE]; }
    if n < |q| {
      assert q[..n + 1] == q[..n] + [q[n]];
      UnlinkBytesAppend(q[..n], q[n]);
    }
  }

  ghost predicate DistinctIds(ps: seq<Priv>) {
    forall i, j :: 0 <= i < j < |ps| ==> ps[i].id != ps[j].id
  }

  lemma FoundAt(ps: seq<Priv>, k: nat)
    requires DistinctIds(ps) && k < |ps|
    ensures FirstWithId(ps, ps[k].id) == k
  {
  }

  lemma FirstIs(ps: seq<Priv>, seqnum: Seqnum, k: nat)
    requires k <= |ps| && (k < |ps| ==> ps[k].seqnum == seqnum)
    requires forall i :: 0 <= i < k ==> ps[i].seqnum != seqnum
    ensures FirstWithSeqnum(ps, seqnum) == k
  {
  }

  lemma RemovedUpdate<A>(s: seq<A>, k: nat, a: A)
    requires k < |s|
    ensures RemoveAt(s[k := a], k) == RemoveAt(s, k)
  {
  }

  lemma PositionOf<T(0)>(g: ListGroup<T>, a: nat, node: ListHead<T>) returns (k: nat)
    requires g.Valid() && a < |g.heads| && node in g.nodes[a]
    ensures k < |g.nodes[a]| && g.nodes[a][k] == node && g.lists[a][k] == node.entry
    ensures node in g.Repr
  {
    assert ListOk(g.heads[a], g.nodes[a], g.lists[a]);
    assert node in NodeSet(g.heads[a], g.nodes[a]);
    k :| 0 <= k < |g.nodes[a]| && g.nodes[a][k] == node;
  }

  class StubDevice {
    const privs: ListGroup<Priv>
    const unlinks: ListGroup<Unlink>
    const connected: bool
    var event: bool         // some usbip_event_add was made
    var sent: seq<Reply>    // the replies written to the socket

    /** Five rings without a common entry (a stub_priv is no stub_unlink); no two pending entries have the same
        address. */
    ghost predicate Valid()
      reads privs, privs.Repr, unlinks, unlinks.Repr
    {
      && privs.Valid() && |privs.heads| == 3
      && unlinks.Valid() && |unlinks.heads| == 2
      && DistinctIds(privs.lists[INIT])
    }

    ghost function Contents(): Queues
      requires Valid()
      reads privs, privs.Repr, unlinks, unlinks.Repr
    {
      Queues(privs.lists[INIT], privs.lists[TX], privs.lists[FREE],
             unlinks.lists[UNLINK_TX], unlinks.lists[UNLINK_FREE])
    }

    /** stub_device_new */
    constructor (connected: bool)
      ensures Valid() && Contents() == EMPTY && !event && sent == []
      ensures this.connected == connected
      ensures fresh(privs) && fresh(privs.Repr) && fresh(unlinks) && fresh(unlinks.Repr)
    {
      privs := new ListGroup<Priv>(3);
      unlinks := new ListGroup<Unlink>(2);
      event, sent := false, [];
      this.connected := connected;
    }

    /** stub_priv_alloc; the address of the new record is not that of a pending one. Without memory there is
        no record, and an event. */
    method StubPrivAlloc(id: nat, seqnum: Seqnum, dir: byte, allocOk: bool) returns (node: ListHead?<Priv>)
      requires Valid() && forall p :: p in Contents().privInit ==> p.id != id
      modifies this`event, privs`nodes, privs`lists, privs`Repr, privs.Repr`next, privs.Repr`prev
      ensures Valid()
      ensures Contents() == if allocOk then Alloc(old(Contents()), id, seqnum, dir) else old(Contents())
      ensures node == null <==> !allocOk
      ensures node != null ==> node in privs.nodes[INIT] && node.entry == Priv(id, seqnum, dir, false, Null)
      ensures event == (old(event) || !allocOk)
      ensures fresh(privs.Repr - old(privs.Repr))
    {
      if !allocOk {
        event := true;
        return null;
      }
      node := privs.Append(INIT, Priv(id, seqnum, dir, false, Null));
      assert privs.nodes[INIT][|privs.nodes[INIT]| - 1] == node;
    }

    /** stub_recv_cmd_submit sets the transfer of the entry it has queued. */
    method SetPrivTransfer(node: ListHead<Priv>, trx: Transfer)
      requires Valid() && node in privs.nodes[INIT]
      modifies privs`lists, node`entry
      ensures Valid() && Contents() == SetTransfer(old(Contents()), old(node.entry.id), trx)
      ensures privs.nodes == old(privs.nodes) && node.entry == old(node.entry).(trx := trx)
    {
      ghost var k := PositionOf(privs, INIT, node);
      FoundAt(privs.lists[INIT], k);
      privs.SetEntry(INIT, node, k, node.entry.(trx := trx));
    }

    /** An intercepted request is complete without data, and goes straight to priv_tx. */
    method InterceptRequest(node: ListHead<Priv>)
      requires Valid() && node in privs.nodes[INIT] && node.entry.trx.Transfer?
      modifies privs`lists, privs`nodes, privs.Repr`next, privs.Repr`prev, node`entry
      ensures Valid()
      ensures Contents() == Intercept(old(Contents()), old(node.entry.id),
                                      old(node.entry.trx).(status := Completed, actualLength := 0))
    {
      ghost var k := PositionOf(privs, INIT, node);
      ghost var ps := Contents().privInit;
      FoundAt(ps, k);
      SetPrivTransfer(node, node.entry.trx.(status := Completed, actualLength := 0));
      RemovedUpdate(ps, k, node.entry);
      QueueCompleted(node, k);
    }

    /** stub_enqueue_ret_unlink */
    method StubEnqueueRetUnlink(seqnum: Seqnum, status: TransferStatus, allocOk: bool)
      requires Valid()
      modifies this`event, unlinks`nodes, unlinks`lists, unlinks`Repr, unlinks.Repr`next, unlinks.Repr`prev
      ensures Valid() && Contents() == EnqueueRetUnlink(old(Contents()), seqnum, status, allocOk)
      ensures event == (old(event) || !allocOk)
      ensures fresh(unlinks.Repr - old(unlinks.Repr))
    {
      if !allocOk {
        event := true;
        return;
      }
      var u := unlinks.Append(UNLINK_TX, Unlink(seqnum, status));
    }

    /** stub_recv_cmd_unlink: walks priv_init for the victim. The transfer of what it returns is then
        cancelled, outside the lock; null is returned when there is nothing to cancel. */
    method StubRecvCmdUnlink(seqnum: Seqnum, target: Seqnum, allocOk: bool) returns (cancel: ListHead?<Priv>)
      requires Valid()
      modifies this`event, privs`lists, privs.Repr`entry
      modifies unlinks`nodes, unlinks`lists, unlinks`Repr, unlinks.Repr`next, unlinks.Repr`prev
      ensures Valid() && Contents() == RecvUnlink(old(Contents()), seqnum, target, allocOk)
      ensures privs.nodes == old(privs.nodes)
      ensures var i, ps := FirstWithSeqnum(old(Contents()).privInit, target), old(Contents()).privInit;
        && (i == |ps| ==> cancel == null && event == (old(event) || !allocOk))
        && (i < |ps| ==> i < |privs.nodes[INIT]| && cancel == privs.nodes[INIT][i] && event == old(event))
    {
      assert ListOk(privs.heads[INIT], privs.nodes[INIT], privs.lists[INIT]);
      ghost var k;
      cancel, k := FindFirst(privs.heads[INIT], privs.nodes[INIT], (p: Priv) => p.seqnum == target);
      FirstIs(privs.lists[INIT], target, k);
      if cancel != null {
        assert cancel in NodeSet(privs.heads[INIT], privs.nodes[INIT]);
        privs.SetEntry(INIT, cancel, k, cancel.entry.(seqnum := seqnum, unlinking := true));
        assert unlinks.Valid();
      } else {
        StubEnqueueRetUnlink(seqnum, Completed, allocOk);
      }
    }

    /** list_del and list_add of a completed entry. */
    method QueueCompleted(node: ListHead<Priv>, ghost k: nat)
      requires Valid() && k < |privs.nodes[INIT]| && privs.nodes[INIT][k] == node
      modifies privs`lists, privs`nodes, privs.Repr`next, privs.Repr`prev
      ensures Valid()
      ensures var q := old(Contents());
        Contents() == q.(privInit := RemoveAt(q.privInit, k), privTx := q.privTx + [q.privInit[k]])
    {
      privs.Move(INIT, node, k, TX);
      assert unlinks.Valid();
    }

    /** stub_free_priv_and_trx on a pending entry. */
    method FreePending(node: ListHead<Priv>, ghost k: nat)
      requires Valid() && k < |privs.nodes[INIT]| && privs.nodes[INIT][k] == node
      modifies privs`lists, privs`nodes, privs.Repr`next, privs.Repr`prev
      ensures Valid()
      ensures var q := old(Contents()); Contents() == q.(privInit := RemoveAt(q.privInit, k))
    {
      privs.Delete(INIT, node, k);
    }

    /** What stub_complete does under the lock, on an open connection. */
    method ReleasePending(node: ListHead<Priv>, ghost k: nat, allocOk: bool)
      requires Valid() && k < |privs.nodes[INIT]| && privs.nodes[INIT][k] == node
      requires node.entry == Contents().privInit[k] && node.entry.trx.Transfer?
      modifies this`event, privs`lists, privs`nodes, privs.Repr`next, privs.Repr`prev
      modifies unlinks`nodes, unlinks`lists, unlinks`Repr, unlinks.Repr`next, unlinks.Repr`prev
      ensures Valid()
      ensures var q, p := old(Contents()), old(node.entry);
        var rest := q.(privInit := RemoveAt(q.privInit, k));
        Contents() == if p.unlinking then EnqueueRetUnlink(rest, p.seqnum, p.trx.status, allocOk)
                      else rest.(privTx := rest.privTx + [p])
      ensures event == (old(event) || (old(node.entry.unlinking) && !allocOk))
    {
      if node.entry.unlinking {
        var seqnum, status := node.entry.seqnum, node.entry.trx.status;
        FreePending(node, k);
        StubEnqueueRetUnlink(seqnum, status, allocOk);
      } else {
        QueueCompleted(node, k);
      }
    }

    /** stub_complete, on the entry that the transfer points back to. */
    method StubComplete(node: ListHead<Priv>, trx: Transfer, allocOk: bool)
      requires Valid() && node in privs.nodes[INIT] && trx.Transfer?
      modifies this`event, privs`lists, privs`nodes, privs.Repr`next, privs.Repr`prev, node`entry
      modifies unlinks`nodes, unlinks`lists, unlinks`Repr, unlinks.Repr`next, unlinks.Repr`prev
      ensures Valid() && Contents() == Complete(old(Contents()), connected, old(node.entry.id), trx, allocOk)
      ensures event == (old(event) || (connected && old(node.entry.unlinking) && !allocOk))
    {
      ghost var k := PositionOf(privs, INIT, node);
      ghost var ps := Contents().privInit;
      FoundAt(ps, k);
      SetPrivTransfer(node, Reported(trx));
      RemovedUpdate(ps, k, node.entry);
      if connected {
        ReleasePending(node, k, allocOk);
      }
    }

    /** dequeue_from_priv_tx */
    method DequeueFromPrivTx() returns (node: ListHead?<Priv>)
      requires privs.Valid() && |privs.heads| == 3
      modifies privs`nodes, privs`lists, privs.Repr`next, privs.Repr`prev
      ensures privs.Valid() && privs.lists == FirstToTail(old(privs.lists), TX, FREE)
      ensures node == null <==> old(privs.lists)[TX] == []
      ensures node != null ==> node.entry == old(privs.lists)[TX][0]
      ensures old(Valid()) ==> Valid() && Contents() == DequeueSubmit(old(Contents()))
    {
      node := privs.First(TX);
      if node != null {
        privs.Move(TX, node, 0, FREE);
      }
    }

    /** dequeue_from_unlink_tx */
    method DequeueFromUnlinkTx() returns (node: ListHead?<Unlink>)
      requires unlinks.Valid() && |unlinks.heads| == 2
      modifies unlinks`nodes, unlinks`lists, unlinks.Repr`next, unlinks.Repr`prev
      ensures unlinks.Valid() && unlinks.lists == FirstToTail(old(unlinks.lists), UNLINK_TX, UNLINK_FREE)
      ensures node == null <==> old(unlinks.lists)[UNLINK_TX] == []
      ensures node != null ==> node.entry == old(unlinks.lists)[UNLINK_TX][0]
      ensures old(Valid()) ==> Valid() && Contents() == DequeueUnlink(old(Contents()))
    {
      node := unlinks.First(UNLINK_TX);
      if node != null {
        unlinks.Move(UNLINK_TX, node, 0, UNLINK_FREE);
      }
    }

    /** The loops of stub_send_ret_submit: dequeue and send until priv_tx is empty or the send number
        `failAt` fails (none does when there are no more than that to make). */
    method SendSubmits(failAt: nat) returns (total: nat, failed: bool, replies: seq<Reply>)
      requires privs.Valid() && |privs.heads| == 3
      modifies privs`nodes, privs`lists, privs.Repr`next, privs.Repr`prev
      ensures privs.Valid()
      ensures var ls, q := old(privs.lists), old(privs.lists)[TX];
        if failAt < |q| then
          failed && privs.lists == Dequeued(ls, TX, FREE, failAt + 1) && replies == SubmitReplies(q[..failAt])
        else
          && !failed && privs.lists == ls[TX := []][FREE := []]
          && replies == SubmitReplies(q) && total == SubmitBytes(q)
    {
      ghost var ls, q := privs.lists, privs.lists[TX];
      AllDequeued(ls, TX, FREE);
      var n, done := 0, false;
      total, failed, replies := 0, false, [];
      NextSubmitSent(ls, 0);
      while !done && !failed
        invariant privs.Valid() && n <= |q| && n <= failAt
        invariant done ==> n == |q| && !failed
        invariant failed ==> n == failAt && n < |q|
        invariant privs.lists == Dequeued(ls, TX, FREE, if failed then n + 1 else n)
        invariant replies == SubmitReplies(q[..n]) && total == SubmitBytes(q[..n])
        decreases |q| - n, !failed, !done
      {
        NextSubmitSent(ls, n);
        var node := DequeueFromPrivTx();
        if node == null {
          done := true;
        } else if n == failAt {
          failed := true;
        } else {
          replies, total, n := replies + [RetSubmit(node.entry)], total + RetSubmitSize(node.entry), n + 1;
        }
      }
      if !failed {
        var freed := privs.Drain(FREE);
      }
    }

    /** stub_send_ret_submit: what was queued goes out in order and is then freed; a failed send keeps
        its entry and everything dequeued before. */
    method StubSendRetSubmit(failAt: nat) returns (ret: int)
      requires Valid()
      modifies this`event, this`sent, privs`nodes, privs`lists, privs.Repr`next, privs.Repr`prev
      ensures Valid()
      ensures var p := SubmitPass(old(Contents()), old(sent), failAt);
        (Contents(), sent, event, ret) == (p.q, p.sent, old(event) || p.event, SubmitReturn(old(Contents()), failAt))
    {
      ghost var q, before := Contents(), privs.lists;
      var total, failed, replies := SendSubmits(failAt);
      SubmitPassIs(q, before, privs.lists, sent, failAt);
      assert Valid();
      sent, event, ret := sent + replies, event || failed, if failed then -1 else AsInt(total);
    }

    /** The loops of stub_send_ret_unlink: dequeue and send until unlink_tx is empty or the send number
        `failAt` fails (none does when there are no more than that to make). */
    method SendUnlinks(failAt: nat) returns (total: nat, failed: bool, replies: seq<Reply>)
      requires unlinks.Valid() && |unlinks.heads| == 2
      modifies unlinks`nodes, unlinks`lists, unlinks.Repr`next, unlinks.Repr`prev
      ensures unlinks.Valid()
      ensures var ls, q := old(unlinks.lists), old(unlinks.lists)[UNLINK_TX];
        if failAt < |q| then
          && failed && unlinks.lists == Dequeued(ls, UNLINK_TX, UNLINK_FREE, failAt + 1)
          && replies == UnlinkReplies(q[..failAt])
        else
          && !failed && unlinks.lists == ls[UNLINK_TX := []][UNLINK_FREE := []]
          && replies == UnlinkReplies(q) && total == UnlinkBytes(q)
    {
      ghost var ls, q := unlinks.lists, unlinks.lists[UNLINK_TX];
      AllDequeued(ls, UNLINK_TX, UNLINK_FREE);
      var n, done := 0, false;
      total, failed, replies := 0, false, [];
      NextUnlinkSent(ls, 0);
      while !done && !failed
        invariant unlinks.Valid() && n <= |q| && n <= failAt
        invariant done ==> n == |q| && !failed
        invariant failed ==> n == failAt && n < |q|
        invariant unlinks.lists == Dequeued(ls, UNLINK_TX, UNLINK_FREE, if failed then n + 1 else n)
        invariant replies == UnlinkReplies(q[..n]) && total == UnlinkBytes(q[..n])
        decreases |q| - n, !failed, !done
      {
        NextUnlinkSent(ls, n);
        var node := DequeueFromUnlinkTx();
        if node == null {
          done := true;
        } else if n == failAt {
          failed := true;
        } else {
          replies, total, n := replies + [RetUnlink(node.entry)], total + HEADER_SIZE, n + 1;
        }
      }
      if !failed {
        var freed := unlinks.Drain(UNLINK_FREE);
      }
    }

    /** stub_send_ret_unlink: what was queued goes out in order and is then freed; a failed send keeps
        its entry and everything dequeued before. */
    method StubSendRetUnlink(failAt: nat) returns (ret: int)
      requires Valid()
      modifies this`event, this`sent, unlinks`nodes, unlinks`lists, unlinks.Repr`next, unlinks.Repr`prev
      ensures Valid()
      ensures var p := UnlinkPass(old(Contents()), old(sent), failAt);
        (Contents(), sent, event, ret) == (p.q, p.sent, old(event) || p.event, UnlinkReturn(old(Contents()), failAt))
    {
      ghost var q, before := Contents(), unlinks.lists;
      var total, failed, replies := SendUnlinks(failAt);
      UnlinkPassIs(q, before, unlinks.lists, sent, failAt);
      assert Valid();
      sent, event, ret := sent + replies, event || failed, if failed then -1 else AsInt(total);
    }

    /** One turn of stub_tx_loop after its poll, which tells whether the loop goes on. It ends without another
        step at a pending event, and after the submits when a send of theirs fails or their count reads
        negative; the unlinks end it likewise. */
    method StubTxPass(submitFailAt: nat, unlinkFailAt: nat) returns (goesOn: bool)
      requires Valid()
      modifies this`event, this`sent, privs`nodes, privs`lists, privs.Repr`next, privs.Repr`prev
      modifies unlinks`nodes, unlinks`lists, unlinks.Repr`next, unlinks.Repr`prev
      ensures Valid()
      ensures PassResult(goesOn, event, Contents(), sent)
           == Pass(old(event), old(Contents()), old(sent), submitFailAt, unlinkFailAt)
    {
      if event {
        return false;
      }
      var ret := StubSendRetSubmit(submitFailAt);
      if ret < 0 {
        return false;
      }
      ret := StubSendRetUnlink(unlinkFailAt);
      goesOn := ret >= 0;
    }

    /** stub_priv_pop: it warns of every entry that is still there and takes none away. What it returns is null,
        so stub_device_cleanup_transfers ends at once. */
    method StubPrivPop() returns (priv: ListHead?<Priv>, warned: seq<Priv>)
      requires Valid()
      ensures priv == null
      ensures warned == Contents().privInit + Contents().privTx + Contents().privFree
    {
      var init := privs.All(INIT);
      var tx := privs.All(TX);
      var free := privs.All(FREE);
      priv, warned := null, init + tx + free;
    }

    /** stub_device_cleanup_unlinks */
    method StubDeviceCleanupUnlinks()
      requires Valid()
      modifies unlinks`nodes, unlinks`lists, unlinks.Repr`next, unlinks.Repr`prev
      ensures Valid() && Contents() == old(Contents()).(unlinkTx := [], unlinkFree := [])
    {
      var freed := unlinks.Drain(UNLINK_TX);
      freed := unlinks.Drain(UNLINK_FREE);
    }
  }
}
