/** Several list heads in one record, as a stub_device holds them: an entry is on at most one of
    the lists, and what happens on one or two lists leaves the others alone. */
module ListGroups {
  import opened Usb
  import opened Lists

  /** No two lists have a record in common. */
  ghost predicate Apart<T(0)>(heads: seq<ListHead<T>>, nodes: seq<seq<ListHead<T>>>)
    requires |heads| == |nodes|
  {
    forall a, b :: 0 <= a < b < |heads| ==> NodeSet(heads[a], nodes[a]) !! NodeSet(heads[b], nodes[b])
  }

  /** One list is a ring of records that hold the given values. */
  ghost predicate ListOk<T(0)>(head: ListHead<T>, nodes: seq<ListHead<T>>, es: seq<T>)
    reads NodeSet(head, nodes)
  {
    Ring(head, nodes) && Holds(nodes, es)
  }

  /** All lists are, but for those in `except`. */
  ghost predicate GroupOk<T(0)>(heads: seq<ListHead<T>>, nodes: seq<seq<ListHead<T>>>, lists: seq<seq<T>>,
                                repr: set<ListHead<T>>, except: set<nat>)
    reads repr
  {
    && |lists| == |nodes| == |heads|
    && (forall a :: 0 <= a < |heads| ==> NodeSet(heads[a], nodes[a]) <= repr)
    && Apart(heads, nodes)
    && (forall a: nat :: a < |heads| && a !in except ==> ListOk(heads[a], nodes[a], lists[a]))
  }

  /** A list that is whole again leaves the exceptions; `more` is what it holds in addition. */
  lemma Mended<T(0)>(heads: seq<ListHead<T>>, nodes: seq<seq<ListHead<T>>>, lists: seq<seq<T>>,
                     repr: set<ListHead<T>>, except: set<nat>, a: nat,
                     ns: seq<ListHead<T>>, es: seq<T>, more: set<ListHead<T>>)
    requires GroupOk(heads, nodes, lists, repr, except) && a < |heads|
    requires ListOk(heads[a], ns, es)
    requires NodeSet(heads[a], ns) <= NodeSet(heads[a], nodes[a]) + more && more <= repr
    requires forall c :: 0 <= c < |heads| && c != a ==> NodeSet(heads[c], nodes[c]) !! more
    ensures GroupOk(heads, nodes[a := ns], lists[a := es], repr, except - {a})
  {
    forall c, d | 0 <= c < d < |heads|
      ensures NodeSet(heads[c], nodes[a := ns][c]) !! NodeSet(heads[d], nodes[a := ns][d])
    {
      assert NodeSet(heads[c], nodes[c]) !! NodeSet(heads[d], nodes[d]);
    }
  }

  /** The element at position k of list a goes to the end of list b. */
  ghost function Shift<A>(ls: seq<seq<A>>, a: nat, k: nat, b: nat): seq<seq<A>>
    requires a < |ls| && b < |ls| && a != b && k < |ls[a]|
  {
    ls[a := RemoveAt(ls[a], k)][b := ls[b] + [ls[a][k]]]
  }

  /** Two lists are whole again after the entry at position k of one went to the end of the other. */
  lemma Moved<T(0)>(heads: seq<ListHead<T>>, nodes: seq<seq<ListHead<T>>>, lists: seq<seq<T>>,
                    repr: set<ListHead<T>>, a: nat, k: nat, b: nat)
    requires GroupOk(heads, nodes, lists, repr, {a, b}) && a < |heads| && b < |heads| && a != b
    requires k < |nodes[a]| && k < |lists[a]| && Distinct(heads[a], nodes[a])
    requires ListOk(heads[a], RemoveAt(nodes[a], k), RemoveAt(lists[a], k))
    requires ListOk(heads[b], nodes[b] + [nodes[a][k]], lists[b] + [lists[a][k]])
    ensures GroupOk(heads, Shift(nodes, a, k, b), Shift(lists, a, k, b), repr, {})
  {
    var node := nodes[a][k];
    assert node in NodeSet(heads[a], nodes[a]);
    NodeSetRemoved(heads[a], nodes[a], k);
    var ns, ls := nodes[a := RemoveAt(nodes[a], k)], lists[a := RemoveAt(lists[a], k)];
    Mended(heads, nodes, lists, repr, {a, b}, a, ns[a], ls[a], {});
    assert {a, b} - {a} == {b};
    forall c | 0 <= c < |heads| && c != b ensures node !in NodeSet(heads[c], ns[c]) {
      assert c != a ==> NodeSet(heads[a], nodes[a]) !! NodeSet(heads[c], nodes[c]);
    }
    Mended(heads, ns, ls, repr, {b}, b, nodes[b] + [node], lists[b] + [lists[a][k]], {node});
    assert {b} - {b} == {};
  }

  method NewHeads<T(0)>(n: nat) returns (hs: seq<ListHead<T>>)
    ensures |hs| == n && forall h :: h in hs ==> fresh(h) && Ring(h, [])
    ensures forall i, j :: 0 <= i < j < n ==> hs[i] != hs[j]
  {
    hs := [];
    while |hs| < n
      invariant |hs| <= n
      invariant forall h :: h in hs ==> fresh(h) && Ring(h, [])
      invariant forall i, j :: 0 <= i < j < |hs| ==> hs[i] != hs[j]
    {
      var h := new ListHead<T>();
      hs := hs + [h];
    }
  }

  class ListGroup<T(0)> {
    const heads: seq<ListHead<T>>
    ghost var lists: seq<seq<T>>            // what each list holds, in order
    ghost var nodes: seq<seq<ListHead<T>>>  // the records that hold it
    ghost var Repr: set<ListHead<T>>        // the heads and every record the group ever held

    ghost predicate Valid()
      reads this, Repr
    {
      GroupOk(heads, nodes, lists, Repr, {})
    }

    constructor (n: nat)
      ensures Valid() && |heads| == n && lists == seq(n, i => []) && fresh(Repr)
    {
      var hs := NewHeads<T>(n);
      heads := hs;
      nodes, lists := seq(n, i => []), seq(n, i => []);
      Repr := set h | h in hs;
      new;
      assert forall i :: 0 <= i < n ==> heads[i] in Repr && NodeSet(heads[i], []) == {heads[i]};
    }

    /** The links of two lists change; the ghost fields are yet to follow. */
    method Relink(a: nat, node: ListHead<T>, ghost k: nat, b: nat)
      requires Valid() && a < |heads| && b < |heads| && a != b
      requires k < |nodes[a]| && nodes[a][k] == node
      modifies Repr`next, Repr`prev
      ensures GroupOk(heads, nodes, lists, Repr, {a, b})
      ensures ListOk(heads[a], RemoveAt(nodes[a], k), RemoveAt(lists[a], k))
      ensures ListOk(heads[b], nodes[b] + [node], lists[b] + [lists[a][k]])
    {
      assert NodeSet(heads[a], nodes[a]) !! NodeSet(heads[b], nodes[b]);
      MoveToTail(node, heads[a], nodes[a], k, heads[b], nodes[b]);
      forall c: nat | c < |heads| && c != a && c != b ensures ListOk(heads[c], nodes[c], lists[c]) {
        assert old(ListOk(heads[c], nodes[c], lists[c]));
      }
      HoldsRemoved(nodes[a], lists[a], k);
      HoldsAppended(nodes[b], lists[b], node);
    }

    /** Moves the entry at position k of list a to the end of list b. */
    method Move(a: nat, node: ListHead<T>, ghost k: nat, b: nat)
      requires Valid() && a < |heads| && b < |heads| && a != b
      requires k < |nodes[a]| && nodes[a][k] == node
      modifies this`nodes, this`lists, Repr`next, Repr`prev
      ensures Valid()
      ensures nodes == Shift(old(nodes), a, k, b) && lists == Shift(old(lists), a, k, b)
    {
      ghost var ns, ls := nodes, lists;
      assert Distinct(heads[a], nodes[a]) by { assert ListOk(heads[a], nodes[a], lists[a]); }
      Relink(a, node, k, b);
      nodes, lists := Shift(ns, a, k, b), Shift(ls, a, k, b);
      Moved(heads, ns, ls, Repr, a, k, b);
    }

    /** A record that is on no list becomes the last of list a. */
    method Link(a: nat, node: ListHead<T>)
      requires Valid() && a < |heads| && node !in Repr
      modifies this`nodes, this`lists, this`Repr, Repr`next, Repr`prev, node`next, node`prev
      ensures Valid() && Repr == old(Repr) + {node}
      ensures nodes == old(nodes)[a := old(nodes)[a] + [node]]
      ensures lists == old(lists)[a := old(lists)[a] + [node.entry]]
    {
      var head := heads[a];
      ghost var ns := nodes[a] + [node];
      assert NodeSet(head, nodes[a]) <= Repr;
      ListAddTail(node, head, nodes[a]);
      forall c: nat | c < |heads| && c != a ensures ListOk(heads[c], nodes[c], lists[c]) {
        assert old(ListOk(heads[c], nodes[c], lists[c]));
      }
      HoldsAppended(nodes[a], lists[a], node);
      Repr := Repr + {node};
      ghost var all, ls := nodes, lists;
      nodes, lists := all[a := ns], ls[a := ls[a] + [node.entry]];
      assert {a} - {a} == {};
      Mended(heads, all, ls, Repr, {a}, a, ns, ls[a] + [node.entry], {node});
    }

    /** A new record becomes the last of list a. */
    method Append(a: nat, e: T) returns (node: ListHead<T>)
      requires Valid() && a < |heads|
      modifies this`nodes, this`lists, this`Repr, Repr`next, Repr`prev
      ensures Valid() && fresh(node) && node.entry == e && Repr == old(Repr) + {node}
      ensures nodes == old(nodes)[a := old(nodes)[a] + [node]]
      ensures lists == old(lists)[a := old(lists)[a] + [e]]
    {
      node := new ListHead<T>.Unlinked(e);
      Link(a, node);
    }

    /** The entry at position k of list a leaves it, to be freed. */
    method Delete(a: nat, node: ListHead<T>, ghost k: nat)
      requires Valid() && a < |heads|
      requires k < |nodes[a]| && nodes[a][k] == node
      modifies this`nodes, this`lists, Repr`next, Repr`prev
      ensures Valid()
      ensures nodes == old(nodes)[a := RemoveAt(old(nodes)[a], k)]
      ensures lists == old(lists)[a := RemoveAt(old(lists)[a], k)]
    {
      NodeSetRemoved(heads[a], nodes[a], k);
      ListDel(node, heads[a], nodes[a], k);
      forall c: nat | c < |heads| && c != a ensures ListOk(heads[c], nodes[c], lists[c]) {
        assert old(ListOk(heads[c], nodes[c], lists[c]));
      }
      HoldsRemoved(nodes[a], lists[a], k);
      ghost var ns, ls := nodes, lists;
      nodes, lists := ns[a := RemoveAt(ns[a], k)], ls[a := RemoveAt(ls[a], k)];
      assert {a} - {a} == {};
      Mended(heads, ns, ls, Repr, {a}, a, RemoveAt(ns[a], k), RemoveAt(ls[a], k), {});
    }

    /** Every entry of list a is deleted, in order. */
    method Drain(a: nat) returns (freed: seq<ListHead<T>>)
      requires Valid() && a < |heads|
      modifies this`nodes, this`lists, Repr`next, Repr`prev
      ensures Valid() && freed == old(nodes)[a]
      ensures nodes == old(nodes)[a := []] && lists == old(lists)[a := []]
    {
      freed := DrainList(heads[a], nodes[a]);
      forall c: nat | c < |heads| && c != a ensures ListOk(heads[c], nodes[c], lists[c]) {
        assert old(ListOk(heads[c], nodes[c], lists[c]));
      }
      ghost var ns, ls := nodes, lists;
      nodes, lists := ns[a := []], ls[a := []];
      assert {a} - {a} == {};
      Mended(heads, ns, ls, Repr, {a}, a, [], [], {});
    }

    /** The fields of the entry at position k of list a change in place. */
    method SetEntry(a: nat, node: ListHead<T>, ghost k: nat, e: T)
      requires Valid() && a < |heads|
      requires k < |nodes[a]| && nodes[a][k] == node
      modifies this`lists, node`entry
      ensures Valid() && lists == old(lists)[a := old(lists)[a][k := e]]
    {
      assert node in NodeSet(heads[a], nodes[a]) && node in Repr;
      ghost var ls := lists;
      node.entry := e;
      assert Ring(heads[a], nodes[a]);
      forall c: nat | c < |heads| && c != a ensures ListOk(heads[c], nodes[c], ls[c]) {
        assert old(ListOk(heads[c], nodes[c], ls[c]));
        assert NodeSet(heads[c], nodes[c]) !! NodeSet(heads[a], nodes[a]);
      }
      lists := ls[a := ls[a][k := e]];
      assert {a} - {a} == {};
      Mended(heads, nodes, ls, Repr, {a}, a, nodes[a], ls[a][k := e], {});
      assert nodes[a := nodes[a]] == nodes;
    }

    /** The first entry of list a, or null. */
    method First(a: nat) returns (node: ListHead?<T>)
      requires Valid() && a < |heads|
      ensures node == null <==> lists[a] == []
      ensures node != null ==> nodes[a] != [] && node == nodes[a][0] && node.entry == lists[a][0]
    {
      assert ListOk(heads[a], nodes[a], lists[a]);
      FirstLink(heads[a], nodes[a]);
      node := if heads[a].next == heads[a] then null else heads[a].next;
    }

    /** Every entry of list a, in order. */
    method All(a: nat) returns (es: seq<T>)
      requires Valid() && a < |heads|
      ensures es == lists[a]
    {
      assert ListOk(heads[a], nodes[a], lists[a]);
      es := Traverse(heads[a], nodes[a]);
    }
  }
}
