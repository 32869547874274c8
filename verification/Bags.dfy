/** The multiset of what each element of a sequence contributes, and how it follows the
    sequence as elements are appended, removed and replaced. */
module Bags {
  import opened Usb

  ghost function Bag<A, B>(s: seq<A>, f: A -> multiset<B>): multiset<B> {
    if s == [] then multiset{} else Bag(s[..|s| - 1], f) + f(s[|s| - 1])
  }

  lemma {:induction false} BagConcat<A, B>(s: seq<A>, t: seq<A>, f: A -> multiset<B>)
    ensures Bag(s + t, f) == Bag(s, f) + Bag(t, f)
  {
    if t == [] {
      assert s + t == s;
    } else {
      assert (s + t)[..|s + t| - 1] == s + t[..|t| - 1];
      BagConcat(s, t[..|t| - 1], f);
    }
  }

  lemma {:induction false} BagOne<A, B>(a: A, f: A -> multiset<B>)
    ensures Bag([a], f) == f(a)
  {
    assert [a][..0] == [];
  }

  lemma {:induction false} BagAppend<A, B>(s: seq<A>, a: A, f: A -> multiset<B>)
    ensures Bag(s + [a], f) == Bag(s, f) + f(a)
  {
    BagConcat(s, [a], f);
    BagOne(a, f);
  }

  /** Splits off the element at one index. */
  lemma {:induction false} BagRemove<A, B>(s: seq<A>, i: nat, f: A -> multiset<B>)
    requires i < |s|
    ensures Bag(s, f) == Bag(RemoveAt(s, i), f) + f(s[i])
  {
    assert s == s[..i] + ([s[i]] + s[i + 1..]);
    BagConcat(s[..i], [s[i]] + s[i + 1..], f);
    BagConcat([s[i]], s[i + 1..], f);
    BagConcat(s[..i], s[i + 1..], f);
    BagOne(s[i], f);
  }

  lemma {:induction false} BagUpdate<A, B>(s: seq<A>, i: nat, a: A, f: A -> multiset<B>)
    requires i < |s|
    ensures Bag(s[i := a], f) + f(s[i]) == Bag(s, f) + f(a)
  {
    BagRemove(s, i, f);
    BagRemove(s[i := a], i, f);
    assert RemoveAt(s[i := a], i) == RemoveAt(s, i);
  }

  /** Only an element can have put something into the bag. */
  lemma {:induction false} BagSource<A, B>(s: seq<A>, b: B, f: A -> multiset<B>) returns (i: nat)
    requires b in Bag(s, f)
    ensures i < |s| && b in f(s[i])
  {
    if b in f(s[|s| - 1]) {
      i := |s| - 1;
    } else {
      i := BagSource(s[..|s| - 1], b, f);
    }
  }

  lemma {:induction false} BagContains<A, B>(s: seq<A>, i: nat, f: A -> multiset<B>)
    requires i < |s|
    ensures f(s[i]) <= Bag(s, f)
  {
    BagRemove(s, i, f);
  }

  /** Replacing an element by one that contributes the same. */
  lemma {:induction false} BagSame<A, B>(s: seq<A>, i: nat, a: A, f: A -> multiset<B>)
    requires i < |s| && f(a) == f(s[i])
    ensures Bag(s[i := a], f) == Bag(s, f)
  {
    BagRemove(s, i, f);
    BagRemove(s[i := a], i, f);
    assert RemoveAt(s[i := a], i) == RemoveAt(s, i);
  }
}
