/** Byte order of a struct usbip_header. The conversion swaps words in place and must know which
    member of the union is live: before sending it reads the command ahead of the swap, after
    receiving behind it. */
module WireCodec {
  import opened Usb

  const CMD_SUBMIT: uint32 := 1
  const CMD_UNLINK: uint32 := 2
  const RET_SUBMIT: uint32 := 3
  const RET_UNLINK: uint32 := 4

  /** The four bytes of a word as the network wants them. */
  function ToNet(w: uint32): (b: seq<byte>)
    ensures |b| == 4 && FromNet(b) == w
  {
    [w / 0x100 / 0x100 / 0x100, w / 0x100 / 0x100 % 0x100, w / 0x100 % 0x100, w % 0x100]
  }

  function FromNet(b: seq<byte>): (w: uint32)
    requires |b| == 4
  {
    (((b[0] as int) * 0x100 + b[1]) * 0x100 + b[2]) * 0x100 + b[3]
  }

  lemma NetIsOneToOne(b: seq<byte>)
    requires |b| == 4
    ensures ToNet(FromNet(b)) == b
  {
    var n := FromNet(b);
    assert n / 0x100 == ((b[0] as int) * 0x100 + b[1]) * 0x100 + b[2];
  }

  /** The four bytes of a word as the host stores it. */
  function ToHost(little: bool, w: uint32): (b: seq<byte>)
    ensures |b| == 4
  {
    if little then Reverse4(ToNet(w)) else ToNet(w)
  }

  function Reverse4(b: seq<byte>): seq<byte>
    requires |b| == 4
  {
    [b[3], b[2], b[1], b[0]]
  }

  function BigEndian(b0: int, b1: int, b2: int, b3: int): int {
    0x100_0000 * b0 + 0x1_0000 * b1 + 0x100 * b2 + b3
  }

  /** On the wire the most significant byte comes first; so it does on a big-endian host, and last on a
      little-endian one. */
  lemma ByteOrder(little: bool, w: uint32)
    ensures var b := ToNet(w); BigEndian(b[0], b[1], b[2], b[3]) == w
    ensures var b := ToHost(little, w);
      w == if little then BigEndian(b[3], b[2], b[1], b[0]) else BigEndian(b[0], b[1], b[2], b[3])
  {
  }

  function HostWord(little: bool, h: seq<byte>, k: nat): uint32
    requires 4 * k + 4 <= |h|
  {
    var b := h[4 * k..4 * k + 4];
    FromNet(if little then Reverse4(b) else b)
  }

  /** htonl or ntohl of the words from lo up to hi. */
  function SwapWords(little: bool, h: seq<byte>, lo: nat, hi: nat): (s: seq<byte>)
    requires 4 * hi <= |h|
    ensures |s| == |h|
    ensures forall i :: 0 <= i < |h| ==>
      s[i] == if little && 4 * lo <= i < 4 * hi then h[Mirror(i)] else h[i]
  {
    seq(|h|, i requires 0 <= i < |h| => if little && 4 * lo <= i < 4 * hi then h[Mirror(i)] else h[i])
  }

  /** Where a byte of a word goes; done twice, it is back. */
  function Mirror(i: nat): (m: nat)
    ensures m / 4 == i / 4 && m % 4 == 3 - i % 4
  {
    i / 4 * 4 + 3 - i % 4
  }

  /** How many words of the union a command uses. */
  function UnionWords(cmd: uint32): nat {
    if cmd == CMD_SUBMIT || cmd == RET_SUBMIT then 5
    else if cmd == CMD_UNLINK || cmd == RET_UNLINK then 1
    else 0
  }

  const BASE_WORDS: nat := 5

  /** usbip_header_correct_endian */
  function CorrectEndian(little: bool, h: seq<byte>, send: bool): (r: seq<byte>)
    requires |h| == HEADER_SIZE
    ensures |r| == HEADER_SIZE
  {
    var cmd := HostWord(little, if send then h else SwapWords(little, h, 0, BASE_WORDS), 0);
    SwapWords(little, h, 0, BASE_WORDS + UnionWords(cmd))
  }

  lemma SwapTwice(little: bool, h: seq<byte>, n: nat)
    requires 4 * n <= |h|
    ensures SwapWords(little, SwapWords(little, h, 0, n), 0, n) == h
  {
    forall i | 0 <= i < |h| ensures SwapWords(little, SwapWords(little, h, 0, n), 0, n)[i] == h[i] {
      SwapTwiceAt(little, h, n, i);
    }
  }

  lemma SwapTwiceAt(little: bool, h: seq<byte>, n: nat, i: nat)
    requires 4 * n <= |h| && i < |h|
    ensures SwapWords(little, SwapWords(little, h, 0, n), 0, n)[i] == h[i]
  {
    if little && i < 4 * n {
      MirrorTwice(i, n);
      assert SwapWords(little, h, 0, n)[Mirror(i)] == h[Mirror(Mirror(i))];
    }
  }

  lemma MirrorTwice(i: nat, n: nat)
    requires i < 4 * n
    ensures Mirror(Mirror(i)) == i && Mirror(i) < 4 * n
  {
  }

  /** The first word after a swap does not depend on how much else was swapped. */
  lemma FirstWord(little: bool, h: seq<byte>, m: nat, n: nat)
    requires 0 < m && 4 * m <= |h| && 0 < n && 4 * n <= |h|
    ensures HostWord(little, SwapWords(little, h, 0, m), 0) == HostWord(little, SwapWords(little, h, 0, n), 0)
  {
    assert SwapWords(little, h, 0, m)[0..4] == SwapWords(little, h, 0, n)[0..4];
  }

  /** Sending and receiving are inverse on every 48 bytes, known command or not. */
  lemma EndianRoundTrip(little: bool, h: seq<byte>)
    requires |h| == HEADER_SIZE
    ensures CorrectEndian(little, CorrectEndian(little, h, true), false) == h
    ensures CorrectEndian(little, CorrectEndian(little, h, false), true) == h
  {
    forall send: bool ensures CorrectEndian(little, CorrectEndian(little, h, send), !send) == h {
      var once := CorrectEndian(little, h, send);
      var cmd := HostWord(little, if send then h else SwapWords(little, h, 0, BASE_WORDS), 0);
      var n := BASE_WORDS + UnionWords(cmd);
      SwapTwice(little, h, n);
      FirstWord(little, h, BASE_WORDS, n);
      FirstWord(little, once, BASE_WORDS, n);
    }
  }

  /** The bytes of a header whose words are ws: on the wire, and in the memory of a host. */
  function NetBytes(ws: seq<uint32>): (b: seq<byte>)
    ensures |b| == 4 * |ws|
  {
    seq(4 * |ws|, i requires 0 <= i < 4 * |ws| => ToNet(ws[i / 4])[i % 4])
  }

  function HostBytes(little: bool, ws: seq<uint32>): (b: seq<byte>)
    ensures |b| == 4 * |ws|
  {
    seq(4 * |ws|, i requires 0 <= i < 4 * |ws| => ToHost(little, ws[i / 4])[i % 4])
  }

  function NetWord(b: seq<byte>, k: nat): uint32
    requires 4 * k + 4 <= |b|
  {
    FromNet(b[4 * k..4 * k + 4])
  }

  lemma NetWordOfBytes(ws: seq<uint32>, k: nat)
    requires k < |ws|
    ensures NetWord(NetBytes(ws), k) == ws[k]
  {
    assert NetBytes(ws)[4 * k..4 * k + 4] == ToNet(ws[k]);
  }

  function NetWords(b: seq<byte>, n: nat): (ws: seq<uint32>)
    requires 4 * n <= |b|
    ensures |ws| == n
  {
    seq(n, k requires 0 <= k < n => NetWord(b, k))
  }

  lemma WordsRoundTrip(ws: seq<uint32>)
    ensures NetWords(NetBytes(ws), |ws|) == ws
  {
    forall k | 0 <= k < |ws| ensures NetWord(NetBytes(ws), k) == ws[k] {
      NetWordOfBytes(ws, k);
    }
  }

  const HEADER_WORDS: nat := 12

  /** The words a command does not use are zero. */
  predicate Padded(ws: seq<uint32>) {
    |ws| == HEADER_WORDS &&
    forall k :: BASE_WORDS + UnionWords(ws[0]) <= k < HEADER_WORDS ==> ws[k] == 0
  }

  lemma SwapHostBytes(little: bool, ws: seq<uint32>, n: nat)
    requires n <= |ws|
    requires forall k :: n <= k < |ws| ==> ws[k] == 0
    ensures SwapWords(little, HostBytes(little, ws), 0, n) == NetBytes(ws)
  {
  }

  lemma HostWordOfBytes(little: bool, ws: seq<uint32>)
    requires |ws| > 0
    ensures HostWord(little, HostBytes(little, ws), 0) == ws[0]
  {
    assert HostBytes(little, ws)[0..4] == ToHost(little, ws[0]);
    assert Reverse4(Reverse4(ToNet(ws[0]))) == ToNet(ws[0]);
  }

  /** What goes over the wire is the same for either kind of host, and each reads it back as the
      words that were sent. */
  lemma WireIsHostIndependent(little: bool, ws: seq<uint32>)
    requires Padded(ws)
    ensures CorrectEndian(little, HostBytes(little, ws), true) == NetBytes(ws)
    ensures CorrectEndian(little, NetBytes(ws), false) == HostBytes(little, ws)
  {
    HostWordOfBytes(little, ws);
    SwapHostBytes(little, ws, BASE_WORDS + UnionWords(ws[0]));
    EndianRoundTrip(little, HostBytes(little, ws));
  }

  lemma SwapJoins(little: bool, h: seq<byte>, lo: nat, mid: nat, hi: nat)
    requires lo <= mid <= hi && 4 * hi <= |h|
    ensures SwapWords(little, SwapWords(little, h, lo, mid), mid, hi) == SwapWords(little, h, lo, hi)
  {
  }

  /** htonl or ntohl of one word, in place. */
  method SwapWord(little: bool, a: array<byte>, k: nat)
    requires 4 * k + 4 <= a.Length
    modifies a
    ensures a[..] == SwapWords(little, old(a[..]), k, k + 1)
  {
    if little {
      a[4 * k], a[4 * k + 1], a[4 * k + 2], a[4 * k + 3] :=
        a[4 * k + 3], a[4 * k + 2], a[4 * k + 1], a[4 * k];
    }
  }

  /** Five 32-bit members in a row: correct_endian_basic, correct_endian_cmd_submit and
      correct_endian_ret_submit. */
  method SwapFive(little: bool, a: array<byte>, k: nat)
    requires 4 * (k + 5) <= a.Length
    modifies a
    ensures a[..] == SwapWords(little, old(a[..]), k, k + 5)
  {
    ghost var h := a[..];
    SwapWord(little, a, k);
    SwapWord(little, a, k + 1);
    SwapJoins(little, h, k, k + 1, k + 2);
    SwapWord(little, a, k + 2);
    SwapJoins(little, h, k, k + 2, k + 3);
    SwapWord(little, a, k + 3);
    SwapJoins(little, h, k, k + 3, k + 4);
    SwapWord(little, a, k + 4);
    SwapJoins(little, h, k, k + 4, k + 5);
  }

  /** usbip_header_correct_endian, in place. */
  method HeaderCorrectEndian(little: bool, pdu: array<byte>, send: bool)
    requires pdu.Length == HEADER_SIZE
    modifies pdu
    ensures pdu[..] == CorrectEndian(little, old(pdu[..]), send)
  {
    ghost var h := pdu[..];
    var cmd := 0;
    if send {
      cmd := HostWord(little, pdu[..], 0);
    }
    SwapFive(little, pdu, 0);
    if !send {
      cmd := HostWord(little, pdu[..], 0);
    }
    if cmd == CMD_SUBMIT || cmd == RET_SUBMIT {
      SwapFive(little, pdu, BASE_WORDS);
    } else if cmd == CMD_UNLINK || cmd == RET_UNLINK {
      SwapWord(little, pdu, BASE_WORDS);
    }
    SwapJoins(little, h, 0, BASE_WORDS, BASE_WORDS + UnionWords(cmd));
  }
}
