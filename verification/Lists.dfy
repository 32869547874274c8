/** The circular doubly linked list of include/list.h on the heap. A ghost sequence names the
    entries of a list in order; a list is a ring when every link agrees with it. */
module Lists {
  import opened Usb

  /** struct list_head inside the record it is embedded in: `entry` is what list_entry finds.
      The entry of a list's head is never read. A null link stands for the poison that list_del
      leaves, and for the zeroes of a fresh record. */
  class ListHead<T(0)> {
    var next: ListHead?<T>
    var prev: ListHead?<T>
    var entry: T

    /** INIT_LIST_HEAD on a new head. */
    constructor ()
      ensures Ring(this, [])
    {
      next, prev := this, this;
    }

    /** A record that is not on a list. */
    constructor Unlinked(e: T)
      ensures entry == e
    {
      next, prev, entry := null, null, e;
    }
  }

  /** Once around the list, from the head back to the head. */
  ghost function Cycle<T(0)>(head: ListHead<T>, nodes: seq<ListHead<T>>): (c: seq<ListHead<T>>)
    ensures |c| == |nodes| + 2 && c[0] == head && c[|nodes| + 1] == head
    ensures forall i :: 0 <= i < |nodes| ==> c[i + 1] == nodes[i]
  {
    [head] + nodes + [head]
  }

  ghost function NodeSet<T(0)>(head: ListHead<T>, nodes: seq<ListHead<T>>): set<ListHead<T>> {
    {head} + set n | n in nodes
  }

  /** The head and the entries are all different. */
  ghost predicate Distinct<T(0)>(head: ListHead<T>, nodes: seq<ListHead<T>>) {
    && (forall i :: 0 <= i < |nodes| ==> nodes[i] != head)
    && (forall i, j :: 0 <= i < j < |nodes| ==> nodes[i] != nodes[j])
  }

  ghost predicate Linked<T(0)>(c: seq<ListHead<T>>)
    reads (set n | n in c)`next, (set n | n in c)`prev
  {
    && (forall i :: 0 <= i < |c| - 1 ==> c[i].next == c[i + 1])
    && (forall i :: 0 < i < |c| ==> c[i].prev == c[i - 1])
  }

  ghost predicate Ring<T(0)>(head: ListHead<T>, nodes: seq<ListHead<T>>)
    reads NodeSet(head, nodes)`next, NodeSet(head, nodes)`prev
  {
    Distinct(head, nodes) && Linked(Cycle(head, nodes))
  }

  /** The records hold these values, in this order. */
  ghost predicate Holds<T(0)>(nodes: seq<ListHead<T>>, es: seq<T>)
    reads (set n | n in nodes)`entry
  {
    |es| == |nodes| && forall i :: 0 <= i < |nodes| ==> nodes[i].entry == es[i]
  }

  lemma HoldsRemoved<T(0)>(nodes: seq<ListHead<T>>, es: seq<T>, k: nat)
    requires Holds(nodes, es) && k < |nodes|
    ensures Holds(RemoveAt(nodes, k), RemoveAt(es, k))
  {
  }

  lemma HoldsAppended<T(0)>(nodes: seq<ListHead<T>>, es: seq<T>, node: ListHead<T>)
    requires Holds(nodes, es)
    ensures Holds(nodes + [node], es + [node.entry])
  {
  }

  /** __list_add */
  method InsertBetween<T(0)>(neo: ListHead<T>, prev: ListHead<T>, next: ListHead<T>)
    requires neo != prev && neo != next
    modifies next`prev, neo`next, neo`prev, prev`next
    ensures next.prev == neo && neo.next == next && neo.prev == prev && prev.next == neo
  {
    next.prev := neo;
    neo.next := next;
    neo.prev := prev;
    prev.next := neo;
  }

  lemma CycleDistinct<T(0)>(head: ListHead<T>, nodes: seq<ListHead<T>>)
    requires Distinct(head, nodes)
    ensures var c := Cycle(head, nodes);
      && (forall i, j :: 0 <= i < j < |c| - 1 ==> c[i] != c[j])
      && (forall i, j :: 0 < i < j < |c| ==> c[i] != c[j])
      && (forall i :: 0 <= i < |c| ==> c[i] in NodeSet(head, nodes))
  {
  }

  lemma DistinctInserted<T(0)>(head: ListHead<T>, nodes: seq<ListHead<T>>, neo: ListHead<T>, k: nat)
    requires Distinct(head, nodes) && neo !in NodeSet(head, nodes) && k <= |nodes|
    ensures Distinct(head, nodes[..k] + [neo] + nodes[k..])
  {
    var all := nodes[..k] + [neo] + nodes[k..];
    assert forall i :: 0 <= i < |nodes| ==> nodes[i] in NodeSet(head, nodes);
    assert forall i :: 0 <= i < k ==> all[i] == nodes[i];
    assert forall i :: k < i < |all| ==> all[i] == nodes[i - 1];
  }

  lemma NodeSetRemoved<T(0)>(head: ListHead<T>, nodes: seq<ListHead<T>>, k: nat)
    requires Distinct(head, nodes) && k < |nodes|
    ensures NodeSet(head, RemoveAt(nodes, k)) == NodeSet(head, nodes) - {nodes[k]}
  {
    var rest := RemoveAt(nodes, k);
    forall i | 0 <= i < |nodes| && i != k ensures nodes[i] in rest {
      assert nodes[i] == rest[if i < k then i else i - 1];
    }
  }

  /** A cycle whose links are whole but for the gap after position k, which leads over neo. */
  lemma RingInserted<T(0)>(head: ListHead<T>, nodes: seq<ListHead<T>>, neo: ListHead<T>, k: nat)
    requires Distinct(head, nodes) && neo !in NodeSet(head, nodes) && k <= |nodes|
    requires var c := Cycle(head, nodes);
      && c[k].next == neo && neo.prev == c[k] && neo.next == c[k + 1] && c[k + 1].prev == neo
      && (forall i :: 0 <= i < |c| - 1 && i != k ==> c[i].next == c[i + 1])
      && (forall i :: 0 < i < |c| && i != k + 1 ==> c[i].prev == c[i - 1])
    ensures Ring(head, nodes[..k] + [neo] + nodes[k..])
  {
    InsertedLinks(Cycle(head, nodes), neo, k);
    assert Cycle(head, nodes[..k] + [neo] + nodes[k..])
        == Cycle(head, nodes)[..k + 1] + [neo] + Cycle(head, nodes)[k + 1..];
    DistinctInserted(head, nodes, neo, k);
  }

  lemma InsertedLinks<T(0)>(c: seq<ListHead<T>>, neo: ListHead<T>, k: nat)
    requires k + 1 < |c|
    requires c[k].next == neo && neo.prev == c[k] && neo.next == c[k + 1] && c[k + 1].prev == neo
    requires forall i :: 0 <= i < |c| - 1 && i != k ==> c[i].next == c[i + 1]
    requires forall i :: 0 < i < |c| && i != k + 1 ==> c[i].prev == c[i - 1]
    ensures Linked(c[..k + 1] + [neo] + c[k + 1..])
  {
    var c' := c[..k + 1] + [neo] + c[k + 1..];
    forall i | 0 <= i < |c'| - 1 ensures c'[i].next == c'[i + 1] {
      if i > k + 1 { assert c'[i] == c[i - 1] && c'[i + 1] == c[i]; }
    }
    forall i | 0 < i < |c'| ensures c'[i].prev == c'[i - 1] {
      if i > k + 2 { assert c'[i] == c[i - 1] && c'[i - 1] == c[i - 2]; }
    }
  }

  /** A cycle whose links skip position k + 1. */
  lemma RingRemoved<T(0)>(head: ListHead<T>, nodes: seq<ListHead<T>>, k: nat)
    requires Distinct(head, nodes) && k < |nodes|
    requires var c := Cycle(head, nodes);
      && c[k].next == c[k + 2] && c[k + 2].prev == c[k]
      && (forall i :: 0 <= i < |c| - 1 && i != k && i != k + 1 ==> c[i].next == c[i + 1])
      && (forall i :: 0 < i < |c| && i != k + 1 && i != k + 2 ==> c[i].prev == c[i - 1])
    ensures Ring(head, RemoveAt(nodes, k))
  {
    RemovedLinks(Cycle(head, nodes), k);
    assert Cycle(head, RemoveAt(nodes, k)) == Cycle(head, nodes)[..k + 1] + Cycle(head, nodes)[k + 2..];
    DistinctRemoved(head, nodes, k);
  }

  lemma DistinctRemoved<T(0)>(head: ListHead<T>, nodes: seq<ListHead<T>>, k: nat)
    requires Distinct(head, nodes) && k < |nodes|
    ensures Distinct(head, RemoveAt(nodes, k))
  {
  }

  lemma RemovedLinks<T(0)>(c: seq<ListHead<T>>, k: nat)
    requires k + 2 < |c| && c[k].next == c[k + 2] && c[k + 2].prev == c[k]
    requires forall i :: 0 <= i < |c| - 1 && i != k && i != k + 1 ==> c[i].next == c[i + 1]
    requires forall i :: 0 < i < |c| && i != k + 1 && i != k + 2 ==> c[i].prev == c[i - 1]
    ensures Linked(c[..k + 1] + c[k + 2..])
  {
    var c' := c[..k + 1] + c[k + 2..];
    forall i | 0 <= i < |c'| - 1 ensures c'[i].next == c'[i + 1] {
      if i > k { assert c'[i] == c[i + 1] && c'[i + 1] == c[i + 2]; }
    }
    forall i | 0 < i < |c'| ensures c'[i].prev == c'[i - 1] {
      if i > k + 1 { assert c'[i] == c[i + 1] && c'[i - 1] == c[i]; }
    }
  }

  /** list_add behind the entry before position k (the head is before position 0): every later
      entry moves up by one. */
  method ListAdd<T(0)>(neo: ListHead<T>, at: ListHead<T>,
                       ghost head: ListHead<T>, ghost nodes: seq<ListHead<T>>, ghost k: nat)
    requires Ring(head, nodes) && k <= |nodes| && at == Cycle(head, nodes)[k]
    requires neo !in NodeSet(head, nodes)
    modifies neo`next, neo`prev, NodeSet(head, nodes)`next, NodeSet(head, nodes)`prev
    ensures Ring(head, nodes[..k] + [neo] + nodes[k..])
  {
    ghost var c := Cycle(head, nodes);
    CycleDistinct(head, nodes);
    assert at.next == c[k + 1];
    InsertBetween(neo, at, at.next);
    RingInserted(head, nodes, neo, k);
  }

  /** list_add(&node, head.prev) */
  method ListAddTail<T(0)>(neo: ListHead<T>, head: ListHead<T>, ghost nodes: seq<ListHead<T>>)
    requires Ring(head, nodes) && neo !in NodeSet(head, nodes)
    modifies neo`next, neo`prev, NodeSet(head, nodes)`next, NodeSet(head, nodes)`prev
    ensures Ring(head, nodes + [neo])
    ensures NodeSet(head, nodes + [neo]) == NodeSet(head, nodes) + {neo}
  {
    assert Cycle(head, nodes)[|nodes|] == head.prev;
    ListAdd(neo, head.prev, head, nodes, |nodes|);
    assert nodes[..|nodes|] + [neo] + nodes[|nodes|..] == nodes + [neo];
  }

  /** list_del of the entry at position k. */
  method ListDel<T(0)>(node: ListHead<T>, ghost head: ListHead<T>, ghost nodes: seq<ListHead<T>>, ghost k: nat)
    requires Ring(head, nodes) && k < |nodes| && nodes[k] == node
    modifies NodeSet(head, nodes)`next, NodeSet(head, nodes)`prev
    ensures Ring(head, RemoveAt(nodes, k))
    ensures node.next == null && node.prev == null
  {
    ghost var c := Cycle(head, nodes);
    CycleDistinct(head, nodes);
    assert c[k + 1] == node && node.prev == c[k] && node.next == c[k + 2];
    var prev, next := node.prev, node.next;
    next.prev := prev;
    prev.next := next;
    node.next := null;
    node.prev := null;
    RingRemoved(head, nodes, k);
  }

  /** list_del here, then list_add before the other head: the step by which an entry changes queue. */
  method MoveToTail<T(0)>(node: ListHead<T>, ghost src: ListHead<T>, ghost from: seq<ListHead<T>>, ghost k: nat,
                          dst: ListHead<T>, ghost to: seq<ListHead<T>>)
    requires Ring(src, from) && k < |from| && from[k] == node
    requires Ring(dst, to) && NodeSet(src, from) !! NodeSet(dst, to)
    modifies NodeSet(src, from)`next, NodeSet(src, from)`prev, NodeSet(dst, to)`next, NodeSet(dst, to)`prev
    ensures Ring(src, RemoveAt(from, k))
    ensures Ring(dst, to + [node])
    ensures NodeSet(src, RemoveAt(from, k)) == NodeSet(src, from) - {node}
    ensures NodeSet(dst, to + [node]) == NodeSet(dst, to) + {node}
  {
    assert node in NodeSet(src, from);
    NodeSetRemoved(src, from, k);
    ListDel(node, src, from, k);
    ghost var rest := NodeSet(src, RemoveAt(from, k));
    assert node !in rest && rest !! NodeSet(dst, to);
    ListAddTail(node, dst, to);
  }

  /** list_for_each_safe with list_del (and free) as its body: every entry is visited once, in order,
      and the list ends up empty. */
  method DrainList<T(0)>(head: ListHead<T>, ghost nodes: seq<ListHead<T>>) returns (visited: seq<ListHead<T>>)
    requires Ring(head, nodes)
    modifies NodeSet(head, nodes)`next, NodeSet(head, nodes)`prev
    ensures visited == nodes
    ensures Ring(head, [])
  {
    visited := [];
    ghost var k := 0;
    assert nodes[0..] == nodes;
    FirstLink(head, nodes);
    var pos: ListHead<T> := head.next;
    while pos != head
      invariant k <= |nodes| && Ring(head, nodes[k..])
      invariant visited == nodes[..k]
      invariant pos == if k < |nodes| then nodes[k] else head
      decreases |nodes| - k
    {
      var n := DeleteFirst(pos, head, nodes, k);
      visited, k, pos := visited + [pos], k + 1, n;
    }
  }

  lemma FirstLink<T(0)>(head: ListHead<T>, nodes: seq<ListHead<T>>)
    requires Ring(head, nodes)
    ensures head.next == if nodes == [] then head else nodes[0]
    ensures nodes != [] ==> nodes[0].next == if |nodes| == 1 then head else nodes[1]
  {
    var c := Cycle(head, nodes);
    assert c[0].next == c[1];
    if nodes != [] { assert c[1].next == c[2]; }
  }

  /** One round of list_for_each_safe, when the first k entries are gone: the successor is read
      before the entry goes. */
  method DeleteFirst<T(0)>(pos: ListHead<T>, ghost head: ListHead<T>, ghost nodes: seq<ListHead<T>>, ghost k: nat)
    returns (n: ListHead<T>)
    requires k < |nodes| && Ring(head, nodes[k..]) && pos == nodes[k]
    modifies NodeSet(head, nodes)`next, NodeSet(head, nodes)`prev
    ensures n == if k + 1 < |nodes| then nodes[k + 1] else head
    ensures Ring(head, nodes[k + 1..])
  {
    FirstLink(head, nodes[k..]);
    n := pos.next;
    ListDel(pos, head, nodes[k..], 0);
    assert RemoveAt(nodes[k..], 0) == nodes[k + 1..];
  }

  /** list_for_each with a test: the first entry that passes it, or none. */
  method FindFirst<T(0)>(head: ListHead<T>, ghost nodes: seq<ListHead<T>>, test: T -> bool)
    returns (found: ListHead?<T>, ghost k: nat)
    requires Ring(head, nodes)
    ensures k <= |nodes| && (found == null <==> k == |nodes|)
    ensures found != null ==> found == nodes[k] && test(found.entry)
    ensures forall i :: 0 <= i < k ==> !test(nodes[i].entry)
  {
    k := 0;
    found := null;
    assert head.next == Cycle(head, nodes)[1];
    var pos := head.next;
    while pos != head
      invariant k <= |nodes| && pos == Cycle(head, nodes)[k + 1]
      invariant forall i :: 0 <= i < k ==> !test(nodes[i].entry)
      decreases |nodes| - k
    {
      assert pos == nodes[k];
      if test(pos.entry) {
        found := pos;
        return;
      }
      assert pos.next == Cycle(head, nodes)[k + 2];
      pos := pos.next;
      k := k + 1;
    }
  }

  /** list_for_each over a whole list: every entry once, in order. */
  method Traverse<T(0)>(head: ListHead<T>, ghost nodes: seq<ListHead<T>>) returns (es: seq<T>)
    requires Ring(head, nodes)
    ensures Holds(nodes, es)
  {
    ghost var k := 0;
    es := [];
    assert head.next == Cycle(head, nodes)[1];
    var pos := head.next;
    while pos != head
      invariant k == |es| <= |nodes| && pos == Cycle(head, nodes)[k + 1]
      invariant forall i :: 0 <= i < k ==> nodes[i].entry == es[i]
      decreases |nodes| - k
    {
      assert pos == nodes[k];
      assert pos.next == Cycle(head, nodes)[k + 2];
      es := es + [pos.entry];
      pos := pos.next;
      k := k + 1;
    }
  }
}
