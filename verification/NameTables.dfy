/** A hash table of names.c: 16 chains of entries that are never changed. Looked up and inserted into as the
    source does, it is a finite map. */
module NameTables {
  import opened Usb
  import opened NumberHash

  /** An entry of a chain; `chain` are the numbers and names from here to its end. */
  class Entry {
    const num: uint32
    const name: string
    const next: Entry?
    ghost const chain: seq<(uint32, string)>

    constructor (num: uint32, name: string, next: Entry?)
      ensures this.num == num && this.name == name && this.next == next
      ensures chain == [(num, name)] + ChainOf(next)
    {
      this.num, this.name, this.next := num, name, next;
      this.chain := [(num, name)] + ChainOf(next);
    }
  }

  ghost function ChainOf(e: Entry?): seq<(uint32, string)> { if e == null then [] else e.chain }

  ghost predicate Linked(e: Entry?)
    decreases |ChainOf(e)|
  {
    e != null ==>
      && e.chain == [(e.num, e.name)] + ChainOf(e.next)
      && Linked(e.next)
  }

  /** The map that a chain stands for: of two entries with one number the first counts. */
  ghost function Find(chain: seq<(uint32, string)>, num: uint32): Option<string> {
    if chain == [] then None
    else if chain[0].0 == num then Some(chain[0].1)
    else Find(chain[1..], num)
  }

  ghost predicate Unique(chain: seq<(uint32, string)>) {
    forall i, j :: 0 <= i < j < |chain| ==> chain[i].0 != chain[j].0
  }

  /** A chain holds numbers of its bucket only, each once, and those of the map. */
  ghost predicate Bucket(e: Entry?, h: nat, names: map<uint32, string>) {
    && Linked(e) && Unique(ChainOf(e))
    && (forall i :: 0 <= i < |ChainOf(e)| ==> HashOf(ChainOf(e)[i].0) == h)
    && (forall num: uint32 :: HashOf(num) == h ==>
          Find(ChainOf(e), num) == if num in names then Some(names[num]) else None)
  }

  class NameTable {
    const buckets: array<Entry?>
    ghost var names: map<uint32, string>

    ghost predicate Valid()
      reads this, buckets
    {
      buckets.Length == HASHSZ && forall h :: 0 <= h < HASHSZ ==> Bucket(buckets[h], h, names)
    }

    constructor ()
      ensures Valid() && fresh(buckets) && names == map[]
    {
      buckets := new Entry?[HASHSZ](i => null);
      names := map[];
    }

    /** names_vendor and its like. */
    method Lookup(num: uint32) returns (r: Option<string>)
      requires Valid()
      ensures r == if num in names then Some(names[num]) else None
    {
      var h := HashNumber(num);
      var e := buckets[h];
      while e != null
        invariant Linked(e) && Find(ChainOf(e), num) == Find(ChainOf(buckets[h]), num)
        decreases |ChainOf(e)|
      {
        if e.num == num {
          return Some(e.name);
        }
        e := e.next;
      }
      r := None;
    }

    /** new_vendor and its like. A number that is there keeps its first name. */
    method Insert(num: uint32, name: string, allocOk: bool) returns (ret: int)
      requires Valid()
      modifies this`names, buckets
      ensures Valid()
      ensures ret == if num !in old(names) && allocOk then 0 else -1
      ensures names == if allocOk then InsertName(old(names), num, name) else old(names)
    {
      var found := Lookup(num);
      if found.Some? || !allocOk {
        return -1;
      }
      var h := HashNumber(num);
      var e := new Entry(num, name, buckets[h]);
      InsertedBucket(buckets[h], e, h, names);
      OtherBuckets(h, num, name, names);
      buckets[h] := e;
      names := names[num := name];
      ret := 0;
    }
  }

  lemma {:induction false} FindNone(chain: seq<(uint32, string)>, num: uint32)
    requires Find(chain, num) == None
    ensures forall i :: 0 <= i < |chain| ==> chain[i].0 != num
  {
    if chain != [] {
      FindNone(chain[1..], num);
      assert forall i :: 1 <= i < |chain| ==> chain[i] == chain[1..][i - 1];
    }
  }

  lemma InsertedBucket(head: Entry?, e: Entry, h: nat, names: map<uint32, string>)
    requires Bucket(head, h, names) && e.next == head && e.chain == [(e.num, e.name)] + ChainOf(head)
    requires HashOf(e.num) == h && e.num !in names
    ensures Bucket(e, h, names[e.num := e.name])
  {
    FindNone(ChainOf(head), e.num);
    forall num: uint32 | HashOf(num) == h
      ensures var names' := names[e.num := e.name];
        Find(e.chain, num) == if num in names' then Some(names'[num]) else None
    {
      assert e.chain[1..] == ChainOf(head);
    }
  }

  lemma OtherBuckets(h: nat, num: uint32, name: string, names: map<uint32, string>)
    requires HashOf(num) == h
    ensures forall e, h' :: h' != h && Bucket(e, h', names) ==> Bucket(e, h', names[num := name])
  {
  }

  // ----- any number of insertions -----

  function InsertName(names: map<uint32, string>, num: uint32, name: string): (r: map<uint32, string>)
  {
    if num in names then names else names[num := name]
  }

  function InsertAll(names: map<uint32, string>, entries: seq<(uint32, string)>): map<uint32, string> {
    if entries == [] then names
    else
      var last := entries[|entries| - 1];
      InsertName(InsertAll(names, entries[..|entries| - 1]), last.0, last.1)
  }

  function FirstWith(entries: seq<(uint32, string)>, num: uint32): (i: nat)
    ensures i <= |entries| && (i < |entries| ==> entries[i].0 == num)
    ensures forall j :: 0 <= j < i ==> entries[j].0 != num
  {
    if entries == [] || entries[0].0 == num then 0 else 1 + FirstWith(entries[1..], num)
  }

  /** Whatever is inserted in whatever order: a number is there when it was inserted, with its first name. */
  lemma {:induction false} FirstNameWins(entries: seq<(uint32, string)>, num: uint32)
    ensures var names, i := InsertAll(map[], entries), FirstWith(entries, num);
      (num in names <==> i < |entries|) && (num in names ==> names[num] == entries[i].1)
  {
    if entries != [] {
      var before := entries[..|entries| - 1];
      FirstNameWins(before, num);
      var i, k := FirstWith(entries, num), FirstWith(before, num);
      assert forall j :: 0 <= j < |before| ==> before[j] == entries[j];
      assert k < |before| ==> i == k by {
        if k < |before| {
          assert !(i < k) && !(k < i);
        }
      }
    }
  }
}
