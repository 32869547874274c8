/** The hash of names.c. It folds the bits of a number into four by a loop over masks; here a number is the
    sequence of its bits, lowest first, of any width. */
module NumberHash {
  import opened Usb

  type Word = seq<bool>

  const WIDTH: nat := 32
  const HASH_BITS: nat := 4

  function Xor(a: bool, b: bool): bool { a != b }

  /** The XOR of the bits j, j + 3, j + 6, ... */
  function Stride(w: Word, j: nat): bool
    decreases |w| - j
  {
    if j >= |w| then false else Xor(w[j], Stride(w, j + 3))
  }

  /** The closed form: bit 0 stays, and each of bits 1 to 3 collects its stride. */
  function Fold(w: Word): (h: Word)
    ensures |h| == HASH_BITS
  {
    [|w| > 0 && w[0], Stride(w, 1), Stride(w, 2), Stride(w, 3)]
  }

  /** hashnum. A set bit of mask1 flips the bit of mask2, three below; both masks move down to HASH1. */
  method HashNum(num: Word) returns (h: Word)
    requires |num| >= HASH_BITS
    ensures h == Fold(num)
  {
    var w := num;
    var mask1 := |w| - 1;
    while mask1 >= 4
      invariant 3 <= mask1 < |w| == |num|
      invariant forall p :: 1 <= p && mask1 - 3 < p < |w| ==> w[p] == Stride(num, p)
      invariant forall p :: 0 <= p < |w| && (p == 0 || p <= mask1 - 3) ==> w[p] == num[p]
    {
      var mask2 := mask1 - 3;
      if w[mask1] {
        w := w[mask2 := !w[mask2]];
      }
      mask1 := mask1 - 1;
    }
    h := w[..HASH_BITS];
    assert h == [w[0], w[1], w[2], w[3]];
  }

  function XorWords(a: Word, b: Word): (w: Word)
    requires |a| == |b|
    ensures |w| == |a|
  {
    seq(|a|, i requires 0 <= i < |a| => Xor(a[i], b[i]))
  }

  lemma {:induction false} StrideIsLinear(a: Word, b: Word, j: nat)
    requires |a| == |b|
    ensures Stride(XorWords(a, b), j) == Xor(Stride(a, j), Stride(b, j))
    decreases |a| - j
  {
    if j < |a| {
      StrideIsLinear(a, b, j + 3);
    }
  }

  /** The hash of an XOR is the XOR of the hashes. */
  lemma HashIsLinear(a: Word, b: Word)
    requires |a| == |b|
    ensures Fold(XorWords(a, b)) == XorWords(Fold(a), Fold(b))
  {
    StrideIsLinear(a, b, 1);
    StrideIsLinear(a, b, 2);
    StrideIsLinear(a, b, 3);
  }

  // ----- numbers -----

  function BitsOf(num: nat, width: nat): (w: Word)
    ensures |w| == width
  {
    if width == 0 then [] else [num % 2 == 1] + BitsOf(num / 2, width - 1)
  }

  function ValueOf(w: Word): nat {
    if w == [] then 0 else (if w[0] then 1 else 0) + 2 * ValueOf(w[1..])
  }

  function Power2(n: nat): nat { if n == 0 then 1 else 2 * Power2(n - 1) }

  lemma {:induction false} ValueBounded(w: Word)
    ensures ValueOf(w) < Power2(|w|)
  {
    if w != [] {
      ValueBounded(w[1..]);
    }
  }

  /** Bit i of a number. */
  function Bit(num: nat, i: nat): bool {
    if i == 0 then num % 2 == 1 else Bit(num / 2, i - 1)
  }

  lemma {:induction false} BitsAreBits(num: nat, width: nat, i: nat)
    requires i < width
    ensures BitsOf(num, width)[i] == Bit(num, i)
  {
    if i > 0 {
      BitsAreBits(num / 2, width - 1, i - 1);
    }
  }

  lemma {:induction false} ValueHasBits(w: Word, i: nat)
    requires i < |w|
    ensures Bit(ValueOf(w), i) == w[i]
  {
    if i > 0 {
      ValueHasBits(w[1..], i - 1);
      assert ValueOf(w) / 2 == ValueOf(w[1..]);
    }
  }

  /** The XOR of the bits j, j + 3, j + 6, ... of a 32-bit number. */
  function StrideOf(num: uint32, j: nat): bool
    decreases WIDTH - j
  {
    if j >= WIDTH then false else Xor(Bit(num, j), StrideOf(num, j + 3))
  }

  lemma {:induction false} StrideOfBits(num: uint32, j: nat)
    ensures Stride(BitsOf(num, WIDTH), j) == StrideOf(num, j)
    decreases WIDTH - j
  {
    if j < WIDTH {
      BitsAreBits(num, WIDTH, j);
      StrideOfBits(num, j + 3);
    }
  }

  /** The bucket of a number, one of the HASHSZ there are. */
  function HashOf(num: uint32): (h: nat)
    ensures h < HASHSZ
  {
    var w := Fold(BitsOf(num, WIDTH));
    ValueBounded(w);
    assert Power2(4) == 16;
    ValueOf(w)
  }

  const HASHSZ: nat := 16

  /** The closed form for a number: bit 0 of its hash is its bit 0, and each of the other three is the XOR of every
      third of its other bits. */
  lemma HashBits(num: uint32, j: nat)
    requires j < HASH_BITS
    ensures Bit(HashOf(num), j) == if j == 0 then Bit(num, 0) else StrideOf(num, j)
  {
    ValueHasBits(Fold(BitsOf(num, WIDTH)), j);
    BitsAreBits(num, WIDTH, 0);
    StrideOfBits(num, j);
  }

  method HashNumber(num: uint32) returns (h: nat)
    ensures h == HashOf(num)
  {
    var w := HashNum(BitsOf(num, WIDTH));
    h := ValueOf(w);
  }
}
