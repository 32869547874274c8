/** A socket as recv sees it: what will arrive, in the pieces in which it will arrive. */
module Sockets {
  import opened Usb

  /** One result of recv: some bytes, of which the caller may take a part, or EAGAIN or EINTR. */
  type Chunk = b: seq<byte> | b != [] witness [0]

  datatype Arrival = Data(bytes: Chunk) | Again

  /** The bytes of a schedule of arrivals, whatever its pieces. */
  function Bytes(items: seq<Arrival>): seq<byte> {
    if items == [] then [] else (if items[0].Data? then items[0].bytes else []) + Bytes(items[1..])
  }

  /** How usbip_recv ends: the whole size, 0 at the end of the connection, or -1. */
  datatype Reception = Reception(ret: int, data: seq<byte>, rest: seq<byte>)

  /** usbip_recv on a stream of bytes. A connection that is closed on the way counts as no data. */
  function Receive(stream: seq<byte>, closed: bool, size: nat): (r: Reception)
    ensures r.ret == size && size > 0 ==> r.data + r.rest == stream && |r.data| == size
    ensures r.ret in {-1, 0, size as int} && |r.data| <= size
  {
    if size == 0 then Reception(-1, [], stream)
    else if size <= |stream| then Reception(size, stream[..size], stream[size..])
    else Reception(if closed then 0 else -1, stream, [])
  }

  class Socket {
    var arrivals: seq<Arrival>
    const closed: bool   // whether the connection is closed at the end, or fails

    constructor (arrivals: seq<Arrival>, closed: bool)
      ensures this.arrivals == arrivals && this.closed == closed
    {
      this.arrivals, this.closed := arrivals, closed;
    }

    function Stream(): seq<byte>
      reads this
    {
      Bytes(arrivals)
    }

    /** recv(2) */
    method Recv(size: nat) returns (result: int, data: seq<byte>, again: bool)
      requires size > 0
      modifies this
      ensures |data| <= size && old(Stream()) == data + Stream()
      ensures Again in arrivals ==> Again in old(arrivals)
      ensures again ==> Again in old(arrivals)
      ensures again ==> result < 0 && data == [] && |arrivals| < |old(arrivals)|
      ensures !again && data != [] ==> result == |data| && |arrivals| <= |old(arrivals)|
      ensures !again && data == [] ==> result == (if closed then 0 else -1) && Stream() == []
    {
      again, data := false, [];
      if arrivals == [] {
        result := if closed then 0 else -1;
      } else if arrivals[0].Again? {
        arrivals, again, result := arrivals[1..], true, -1;
      } else {
        var b := arrivals[0].bytes;
        if |b| <= size {
          arrivals, data := arrivals[1..], b;
        } else {
          data := b[..size];
          arrivals := [Data(b[size..])] + arrivals[1..];
          assert b == b[..size] + b[size..];
        }
        result := |data|;
      }
    }
  }

  /** usbip_recv. What it returns depends on the bytes alone, not on how they are split nor on how
      often recv is interrupted. */
  method UsbipRecv(sock: Socket, size: nat) returns (ret: int, data: seq<byte>)
    modifies sock
    ensures Reception(ret, data, sock.Stream()) == Receive(old(sock.Stream()), sock.closed, size)
  {
    data := [];
    if size == 0 {
      return -1, [];
    }
    ghost var stream := sock.Stream();
    var left := size;
    while left > 0
      invariant left >= 0 && left + |data| == size
      invariant stream == data + sock.Stream()
      decreases left, |sock.arrivals|
    {
      var result, more, again := sock.Recv(left);
      if again {
        result := 0;
      } else if result <= 0 {
        assert stream == data;
        return result, data;
      }
      left, data := left - result, data + more;
    }
    assert stream[..size] == data;
    ret := size;
  }

  /** usbip_net_recv. It gives up at an interruption; without one it gets all it asked for, in any pieces. */
  method UsbipNetRecv(sock: Socket, bufflen: nat) returns (ret: int, data: seq<byte>)
    modifies sock
    ensures old(sock.Stream()) == data + sock.Stream() && |data| <= bufflen
    ensures if |data| == bufflen then ret == bufflen else ret <= 0
    ensures |data| < bufflen && Again !in old(sock.arrivals) ==>
      sock.Stream() == [] && ret == if sock.closed then 0 else -1
  {
    data := [];
    while |data| != bufflen
      invariant |data| <= bufflen && old(sock.Stream()) == data + sock.Stream()
      invariant Again in sock.arrivals ==> Again in old(sock.arrivals)
      decreases bufflen - |data|
    {
      var more, again;
      ret, more, again := sock.Recv(bufflen - |data|);
      if ret <= 0 {
        return;
      }
      data := data + more;
    }
    ret := bufflen;
  }
}
