/** Types shared by the models: the parts of libusb and of the USB/IP protocol
    that the host driver reads and writes. */
module Usb {

  type byte = b: int | 0 <= b < 0x100

  datatype Option<T> = None | Some(value: T)

  // uint32_t and int; TWO_31 is the first value that `int` does not read back unchanged.
  const TWO_31 := 0x8000_0000
  const TWO_32 := 0x1_0000_0000
  type uint32 = w: int | 0 <= w < TWO_32
  type int32 = w: int | -TWO_31 <= w < TWO_31

  /** A sequence number; the client numbers its commands. */
  type Seqnum = uint32

  /** The bytes of one struct usbip_header, and of np struct usbip_iso_packet_descriptor. */
  const HEADER_SIZE: nat := 48

  function DescriptorBytes(np: nat): nat { 16 * np }

  const DIR_IN: byte := 1

  datatype TransferType = Control | Isochronous | Bulk | Interrupt

  /** enum libusb_transfer_status, in its order. */
  datatype TransferStatus = Completed | Error | TimedOut | Cancelled | Stall | NoDevice | Overflow

  /** struct libusb_iso_packet_descriptor. */
  datatype Packet = Packet(length: uint32, actualLength: uint32, status: TransferStatus)

  /** struct libusb_transfer; `Null` is the pointer of a stub_priv whose transfer is not set yet.
      num_iso_packets is |packets|, `length` is |buffer|, and `shortNotOk` is the flag
      LIBUSB_TRANSFER_SHORT_NOT_OK. */
  datatype Transfer =
    | Null
    | Transfer(kind: TransferType, shortNotOk: bool, status: TransferStatus, actualLength: int32,
               buffer: seq<byte>, packets: seq<Packet>)

  /** The byte count of a pass comes back as an `int`, and the loop ends when that is negative. */
  predicate ReadsNegative(total: nat) { total % TWO_32 >= TWO_31 }

  /** An unsigned count stored in an `int`, and an `int` stored in an unsigned word. */
  function AsInt(total: nat): (i: int32)
    ensures i % TWO_32 == total % TWO_32
    ensures total < TWO_31 ==> i == total
    ensures i < 0 <==> ReadsNegative(total)
  {
    if ReadsNegative(total) then total % TWO_32 - TWO_32 else total % TWO_32
  }

  function AsWord(i: int): (w: uint32)
    ensures -TWO_31 <= i < TWO_31 ==> AsInt(w) == i
  {
    i % TWO_32
  }

  function RemoveAt<T>(s: seq<T>, i: nat): (r: seq<T>)
    requires i < |s|
    ensures |r| == |s| - 1
  {
    s[..i] + s[i + 1..]
  }

  lemma Regroup(a: seq<byte>, b: seq<byte>, c: seq<byte>, d: seq<byte>)
    ensures a + b + c + d == a + (b + (c + d))
  {
  }

  /** Where packet k starts in the buffer: the lengths of those before it. */
  function OffsetOf(ps: seq<Packet>, k: nat): nat
    requires k <= |ps|
  {
    if k == 0 then 0 else OffsetOf(ps, k - 1) + ps[k - 1].length
  }

  /** Where the data of packet k starts once the padding is gone. */
  function CursorOf(ps: seq<Packet>, k: nat): nat
    requires k <= |ps|
  {
    if k == 0 then 0 else CursorOf(ps, k - 1) + ps[k - 1].actualLength
  }

  function SumActual(ps: seq<Packet>): nat { CursorOf(ps, |ps|) }
}
