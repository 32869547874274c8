/** The reply to a device list request: a header, a count, and for each device a record followed by one
    record an interface. It is written by a loop over send. */
module Devlist {
  import opened Usb
  import opened WireCodec
  import opened Sockets
  import opened DeviceTables

  type uint16 = w: int | 0 <= w < 0x1_0000

  const VERSION: uint16 := 0x0111
  const OP_REP_DEVLIST: uint16 := 0x0005
  const ST_OK: uint32 := 0

  const PATH_MAX: nat := 256
  const BUS_ID_SIZE: nat := 32
  const DEVICE_SIZE: nat := 312
  const INTERFACE_SIZE: nat := 4

  type Path = b: seq<byte> | |b| == PATH_MAX witness seq(256, i => 0)
  type BusId = b: seq<byte> | |b| == BUS_ID_SIZE witness seq(32, i => 0)

  /** struct usbip_usb_interface */
  datatype Interface = Interface(class_: byte, subclass: byte, protocol: byte, number: byte)

  /** bNumInterfaces counts in eight bits. */
  type Interfaces = s: seq<Interface> | |s| < 0x100

  /** struct usbip_usb_device with its interfaces, whose number is the last member. */
  datatype Device = Device(path: Path, busid: BusId, busnum: uint32, devnum: uint32, speed: uint32,
                           idVendor: uint16, idProduct: uint16, bcdDevice: uint16,
                           class_: byte, subclass: byte, protocol: byte,
                           configurationValue: byte, numConfigurations: byte, interfaces: Interfaces)

  function ToNet16(w: uint16): (b: seq<byte>)
    ensures |b| == 2 && FromNet16(b) == w
    ensures w == 0x100 * (b[0] as int) + b[1]
  {
    [w / 0x100, w % 0x100]
  }

  function FromNet16(b: seq<byte>): uint16
    requires |b| == 2
  {
    (b[0] as int) * 0x100 + b[1]
  }

  /** The record after PACK_OP_IMPORT_REPLY. */
  function EncodeDevice(d: Device): (b: seq<byte>)
    ensures |b| == DEVICE_SIZE
  {
    d.path + d.busid + ToNet(d.busnum) + ToNet(d.devnum) + ToNet(d.speed)
    + ToNet16(d.idVendor) + ToNet16(d.idProduct) + ToNet16(d.bcdDevice)
    + [d.class_, d.subclass, d.protocol, d.configurationValue, d.numConfigurations, |d.interfaces|]
  }

  function EncodeInterface(i: Interface): (b: seq<byte>)
    ensures |b| == INTERFACE_SIZE
  {
    [i.class_, i.subclass, i.protocol, i.number]
  }

  function EncodeInterfaces(s: seq<Interface>): (b: seq<byte>)
    ensures |b| == 4 * |s|
  {
    if s == [] then [] else EncodeInterface(s[0]) + EncodeInterfaces(s[1..])
  }

  function EncodeDevices(ds: seq<Device>): seq<byte> {
    if ds == [] then [] else EncodeDevice(ds[0]) + EncodeInterfaces(ds[0].interfaces) + EncodeDevices(ds[1..])
  }

  function EncodeOpCommon(code: uint16, status: uint32): (b: seq<byte>)
    ensures |b| == 8
  {
    ToNet16(VERSION) + ToNet16(code) + ToNet(status)
  }

  function EncodeReply(ds: seq<Device>): seq<byte>
    requires |ds| < TWO_32
  {
    EncodeOpCommon(OP_REP_DEVLIST, ST_OK) + ToNet(|ds|) + EncodeDevices(ds)
  }

  // ----- the reader -----

  /** The record without its interfaces, and how many of them follow. */
  function DecodeDevice(b: seq<byte>, interfaces: Interfaces): Device
    requires |b| == DEVICE_SIZE
  {
    Device(b[..256], b[256..288], FromNet(b[288..292]), FromNet(b[292..296]), FromNet(b[296..300]),
           FromNet16(b[300..302]), FromNet16(b[302..304]), FromNet16(b[304..306]),
           b[306], b[307], b[308], b[309], b[310], interfaces)
  }

  function DecodeInterfaces(b: seq<byte>, n: nat): (s: seq<Interface>)
    requires 4 * n <= |b|
    ensures |s| == n
  {
    if n == 0 then [] else [Interface(b[0], b[1], b[2], b[3])] + DecodeInterfaces(b[4..], n - 1)
  }

  function DecodeDevices(b: seq<byte>, n: nat): Option<(seq<Device>, seq<byte>)> {
    if n == 0 then Some(([], b))
    else if |b| < DEVICE_SIZE then None
    else
      var body := b[DEVICE_SIZE..];
      var m: nat := b[DEVICE_SIZE - 1];
      if |body| < 4 * m then None
      else
        match DecodeDevices(body[4 * m..], n - 1)
        case None => None
        case Some((ds, rest)) => Some(([DecodeDevice(b[..DEVICE_SIZE], DecodeInterfaces(body, m))] + ds, rest))
  }

  /** The checks are those of usbip_net_recv_op_common. */
  function DecodeReply(b: seq<byte>): Option<(seq<Device>, seq<byte>)> {
    if |b| < 12 then None
    else if FromNet16(b[0..2]) != VERSION || FromNet16(b[2..4]) != OP_REP_DEVLIST || FromNet(b[4..8]) != ST_OK then None
    else DecodeDevices(b[12..], FromNet(b[8..12]))
  }

  lemma DeviceRead(d: Device)
    ensures DecodeDevice(EncodeDevice(d), d.interfaces) == d
    ensures EncodeDevice(d)[DEVICE_SIZE - 1] == |d.interfaces|
  {
    var b := EncodeDevice(d);
    assert b[..256] == d.path;
    assert b[256..288] == d.busid;
    assert b[288..292] == ToNet(d.busnum);
    assert b[292..296] == ToNet(d.devnum);
    assert b[296..300] == ToNet(d.speed);
    assert b[300..302] == ToNet16(d.idVendor);
    assert b[302..304] == ToNet16(d.idProduct);
    assert b[304..306] == ToNet16(d.bcdDevice);
  }

  lemma {:induction false} InterfacesRead(s: seq<Interface>, rest: seq<byte>)
    ensures DecodeInterfaces(EncodeInterfaces(s) + rest, |s|) == s
  {
    if s != [] {
      InterfacesRead(s[1..], rest);
      assert (EncodeInterfaces(s) + rest)[4..] == EncodeInterfaces(s[1..]) + rest;
    }
  }

  lemma {:induction false} DevicesRead(ds: seq<Device>, b: seq<byte>, rest: seq<byte>)
    requires b == EncodeDevices(ds) + rest
    ensures DecodeDevices(b, |ds|) == Some((ds, rest))
  {
    if ds == [] {
      assert b == rest;
    } else {
      FirstDevice(ds, rest);
      DevicesRead(ds[1..], EncodeDevices(ds[1..]) + rest, rest);
      DeviceInFront(b, ds[0], EncodeDevices(ds[1..]) + rest, ds[1..], rest);
    }
  }

  lemma FirstDevice(ds: seq<Device>, rest: seq<byte>)
    requires ds != []
    ensures [ds[0]] + ds[1..] == ds
    ensures EncodeDevices(ds) + rest
         == EncodeDevice(ds[0]) + (EncodeInterfaces(ds[0].interfaces) + (EncodeDevices(ds[1..]) + rest))
  {
    Regroup(EncodeDevice(ds[0]), EncodeInterfaces(ds[0].interfaces), EncodeDevices(ds[1..]), rest);
  }

  lemma DeviceInFront(b: seq<byte>, d: Device, tail: seq<byte>, ds: seq<Device>, rest: seq<byte>)
    requires b == EncodeDevice(d) + (EncodeInterfaces(d.interfaces) + tail)
    requires DecodeDevices(tail, |ds|) == Some((ds, rest))
    ensures DecodeDevices(b, |ds| + 1) == Some(([d] + ds, rest))
  {
    var body := EncodeInterfaces(d.interfaces) + tail;
    assert b[DEVICE_SIZE..] == body && b[..DEVICE_SIZE] == EncodeDevice(d);
    assert b[DEVICE_SIZE - 1] == EncodeDevice(d)[DEVICE_SIZE - 1];
    assert body[4 * |d.interfaces|..] == tail;
    DeviceRead(d);
    InterfacesRead(d.interfaces, tail);
  }

  /** The count is the number of records, so the reader gets the list back and stops at its end. */
  lemma ReplyRoundTrip(ds: seq<Device>, rest: seq<byte>)
    requires |ds| < TWO_32
    ensures DecodeReply(EncodeReply(ds) + rest) == Some((ds, rest))
  {
    var b := EncodeReply(ds) + rest;
    assert b[0..2] == ToNet16(VERSION);
    assert b[2..4] == ToNet16(OP_REP_DEVLIST);
    assert b[4..8] == ToNet(ST_OK);
    assert b[8..12] == ToNet(|ds|);
    DevicesRead(ds, b[12..], rest);
  }

  // ----- the bytes -----

  /** A 32-bit or 16-bit member of a record, most significant byte first. */
  predicate LongAt(b: seq<byte>, at: nat, w: uint32)
    requires at + 4 <= |b|
  {
    w == BigEndian(b[at], b[at + 1], b[at + 2], b[at + 3])
  }

  predicate ShortAt(b: seq<byte>, at: nat, w: uint16)
    requires at + 2 <= |b|
  {
    w == BigEndian(0, 0, b[at], b[at + 1])
  }

  lemma LongIn(b: seq<byte>, at: nat, w: uint32)
    requires at + 4 <= |b| && b[at..at + 4] == ToNet(w)
    ensures LongAt(b, at, w)
  {
    ByteOrder(false, w);
    assert b[at..at + 4] == [b[at], b[at + 1], b[at + 2], b[at + 3]];
  }

  lemma ShortIn(b: seq<byte>, at: nat, w: uint16)
    requires at + 2 <= |b| && b[at..at + 2] == ToNet16(w)
    ensures ShortAt(b, at, w)
  {
    assert b[at..at + 2] == [b[at], b[at + 1]];
  }

  /** The members of a device record are where the packed struct has them. */
  lemma RecordBytes(d: Device)
    ensures var b := EncodeDevice(d);
      && b[..256] == d.path && b[256..288] == d.busid
      && LongAt(b, 288, d.busnum) && LongAt(b, 292, d.devnum) && LongAt(b, 296, d.speed)
      && ShortAt(b, 300, d.idVendor) && ShortAt(b, 302, d.idProduct) && ShortAt(b, 304, d.bcdDevice)
      && b[306..] == [d.class_, d.subclass, d.protocol, d.configurationValue, d.numConfigurations, |d.interfaces|]
  {
    var b := EncodeDevice(d);
    assert b[288..292] == ToNet(d.busnum) && b[292..296] == ToNet(d.devnum) && b[296..300] == ToNet(d.speed);
    assert b[300..302] == ToNet16(d.idVendor) && b[302..304] == ToNet16(d.idProduct);
    assert b[304..306] == ToNet16(d.bcdDevice);
    LongIn(b, 288, d.busnum);
    LongIn(b, 292, d.devnum);
    LongIn(b, 296, d.speed);
    ShortIn(b, 300, d.idVendor);
    ShortIn(b, 302, d.idProduct);
    ShortIn(b, 304, d.bcdDevice);
  }

  lemma {:induction false} InterfaceBytes(s: seq<Interface>, k: nat)
    requires k < |s|
    ensures EncodeInterfaces(s)[4 * k..4 * k + 4] == [s[k].class_, s[k].subclass, s[k].protocol, s[k].number]
  {
    if k > 0 {
      InterfaceBytes(s[1..], k - 1);
      assert EncodeInterfaces(s)[4 * k..4 * k + 4] == EncodeInterfaces(s[1..])[4 * (k - 1)..4 * (k - 1) + 4];
    }
  }

  lemma OpCommonBytes()
    ensures EncodeOpCommon(OP_REP_DEVLIST, ST_OK) == [1, 0x11, 0, 5, 0, 0, 0, 0]
  {
  }

  lemma FrontBytes(front: seq<byte>, w: uint32, rest: seq<byte>)
    ensures (front + ToNet(w) + rest)[..|front|] == front && LongAt(front + ToNet(w) + rest, |front|, w)
  {
    ByteOrder(false, w);
  }

  /** A reply begins with version 1.1.1, its code, the status and the number of devices. */
  lemma ReplyBytes(ds: seq<Device>)
    requires |ds| < TWO_32
    ensures |EncodeReply(ds)| >= 12 && EncodeReply(ds)[..8] == [1, 0x11, 0, 5, 0, 0, 0, 0]
    ensures LongAt(EncodeReply(ds), 8, |ds|)
  {
    OpCommonBytes();
    FrontBytes(EncodeOpCommon(OP_REP_DEVLIST, ST_OK), |ds|, EncodeDevices(ds));
  }

  // ----- sending -----

  /** A socket as send sees it: how much each call takes, until one fails. */
  class Sink {
    var sent: seq<byte>
    var room: seq<nat>   // 0 is a failure, and so is the end

    method Send(b: seq<byte>) returns (ret: int)
      requires b != []
      modifies this
      ensures ret <= |b| && |room| <= |old(room)|
      ensures ret > 0 ==> sent == old(sent) + b[..ret] && |room| < |old(room)|
      ensures ret <= 0 ==> sent == old(sent)
    {
      if room == [] || room[0] == 0 {
        return -1;
      }
      ret := if room[0] < |b| then room[0] else |b|;
      sent, room := sent + b[..ret], room[1..];
    }
  }

  /** What of a message has gone out: all of it when the call succeeds, some of it when it fails. */
  ghost predicate Went(before: seq<byte>, after: seq<byte>, message: seq<byte>, ok: bool) {
    before <= after <= before + message && (ok ==> after == before + message)
  }

  /** One message of several: `todo` is what is left of them all before it, and `tail` after it. */
  lemma OneOfSeveral(start: seq<byte>, all: seq<byte>, now: seq<byte>, after: seq<byte>,
                     message: seq<byte>, tail: seq<byte>, ok: bool)
    requires start <= now && now + (message + tail) == start + all && Went(now, after, message, ok)
    ensures Went(start, after, all, false)
    ensures ok ==> after + tail == start + all
  {
    assert now + message + tail == start + all;
    assert now + message <= start + all;
  }

  /** usbip_net_send */
  method UsbipNetSend(sock: Sink, buff: seq<byte>) returns (ret: int)
    modifies sock
    ensures ret == |buff| || ret == -1
    ensures Went(old(sock.sent), sock.sent, buff, ret == |buff|)
  {
    var left, total := buff, 0;
    assert buff[0..] == buff;
    while left != []
      invariant 0 <= total <= |buff| && left == buff[total..]
      invariant sock.sent == old(sock.sent) + buff[..total]
      decreases |left|
    {
      var n := sock.Send(left);
      if n <= 0 {
        return -1;
      }
      assert buff[..total] + left[..n] == buff[..total + n];
      left, total := left[n..], total + n;
    }
    ret := total;
  }

  lemma InterfacesFrom(s: seq<Interface>, i: nat)
    requires i < |s|
    ensures EncodeInterfaces(s[i..]) == EncodeInterface(s[i]) + EncodeInterfaces(s[i + 1..])
  {
    assert s[i..][1..] == s[i + 1..];
  }

  /** The inner loop of recv_request_devlist. */
  method SendInterfaces(sock: Sink, uinf: seq<Interface>) returns (rc: int)
    modifies sock
    ensures rc == 0 || rc == -1
    ensures Went(old(sock.sent), sock.sent, EncodeInterfaces(uinf), rc == 0)
  {
    ghost var start, all := sock.sent, EncodeInterfaces(uinf);
    assert uinf[0..] == uinf;
    for i := 0 to |uinf|
      invariant start <= sock.sent && sock.sent + EncodeInterfaces(uinf[i..]) == start + all
    {
      ghost var now := sock.sent;
      var message := EncodeInterface(uinf[i]);
      InterfacesFrom(uinf, i);
      var ret := UsbipNetSend(sock, message);
      OneOfSeveral(start, all, now, sock.sent, message, EncodeInterfaces(uinf[i + 1..]), ret == |message|);
      if ret < 0 {
        return -1;
      }
    }
    assert uinf[|uinf|..] == [];
    rc := 0;
  }

  lemma DevicesFrom(ds: seq<Device>, k: nat)
    requires k < |ds|
    ensures EncodeDevices(ds[k..])
         == EncodeDevice(ds[k]) + (EncodeInterfaces(ds[k].interfaces) + EncodeDevices(ds[k + 1..]))
  {
    assert ds[k..][1..] == ds[k + 1..];
  }

  /** The outer loop: a device's record, then its interfaces. */
  method SendDevices(sock: Sink, edevs: seq<Device>) returns (rc: int)
    modifies sock
    ensures rc == 0 || rc == -1
    ensures Went(old(sock.sent), sock.sent, EncodeDevices(edevs), rc == 0)
  {
    ghost var start, all := sock.sent, EncodeDevices(edevs);
    assert edevs[0..] == edevs;
    for k := 0 to |edevs|
      invariant start <= sock.sent && sock.sent + EncodeDevices(edevs[k..]) == start + all
    {
      var udev := EncodeDevice(edevs[k]);
      ghost var now, uinf, tail :=
        sock.sent, EncodeInterfaces(edevs[k].interfaces), EncodeDevices(edevs[k + 1..]);
      DevicesFrom(edevs, k);
      var ret := UsbipNetSend(sock, udev);
      OneOfSeveral(start, all, now, sock.sent, udev, uinf + tail, ret == |udev|);
      if ret < 0 {
        return -1;
      }
      now := sock.sent;
      rc := SendInterfaces(sock, edevs[k].interfaces);
      OneOfSeveral(start, all, now, sock.sent, uinf, tail, rc == 0);
      if rc < 0 {
        return;
      }
    }
    assert edevs[|edevs|..] == [];
    rc := 0;
  }

  /** What is sent for a list of devices and a count of them. */
  method SendReply(sock: Sink, ndev: uint32, edevs: seq<Device>) returns (rc: int)
    modifies sock
    ensures rc == 0 || rc == -1
    ensures Went(old(sock.sent), sock.sent,
                 EncodeOpCommon(OP_REP_DEVLIST, ST_OK) + ToNet(ndev) + EncodeDevices(edevs), rc == 0)
  {
    ghost var start, devices := sock.sent, EncodeDevices(edevs);
    var common, count := EncodeOpCommon(OP_REP_DEVLIST, ST_OK), ToNet(ndev);
    ghost var all := common + count + devices;
    assert all == common + (count + devices);
    var ret := UsbipNetSend(sock, common);
    OneOfSeveral(start, all, start, sock.sent, common, count + devices, ret == |common|);
    if ret < 0 {
      return -1;
    }
    ghost var now := sock.sent;
    ret := UsbipNetSend(sock, count);
    OneOfSeveral(start, all, now, sock.sent, count, devices, ret == |count|);
    if ret < 0 {
      return -1;
    }
    now := sock.sent;
    rc := SendDevices(sock, edevs);
    OneOfSeveral(start, all, now, sock.sent, devices, [], rc == 0);
  }

  /** recv_request_devlist. Nothing is sent unless the devices could be listed; then, however little each send
      takes, a reply that went out is the whole reply, and one that did not is the beginning of it. */
  method RecvRequestDevlist(sock: Sink, listed: bool, found: seq<Found<Device>>) returns (rc: int)
    requires |found| < TWO_31
    modifies sock
    ensures var before, all := old(sock.sent), Reversed(Exported(found));
      if !listed || NoDescriptor in found then rc == -1 && sock.sent == before
      else |all| < TWO_31 && Went(before, sock.sent, EncodeReply(all), rc == 0)
  {
    var edevs := new ExportedDevices<Device>();
    var ret := edevs.Refresh(listed, found);
    if ret < 0 {
      return -1;
    }
    ExportedCounted(found);
    rc := SendReply(sock, edevs.ndevs, edevs.devices);
  }

  lemma InReversed(s: seq<Device>, d: Device)
    ensures d in Reversed(s) <==> d in s
  {
    if d in s {
      var k :| 0 <= k < |s| && s[k] == d;
      assert Reversed(s)[|s| - 1 - k] == d;
    }
  }

  /** The usable devices and no others, the last found first: each behind as many as are usable after it. */
  ghost predicate ListsUsable(read: seq<Device>, found: seq<Found<Device>>) {
    && |read| == CountUsable(found)
    && (forall d :: d in read <==> Usable(d) in found)
    && (forall k :: 0 <= k < |found| && found[k].Usable? ==>
          CountUsable(found[..k]) < |read| && read[|read| - 1 - CountUsable(found[..k])] == found[k].device)
  }

  lemma ExportedAreUsable(found: seq<Found<Device>>)
    ensures ListsUsable(Reversed(Exported(found)), found)
  {
    ExportedCounted(found);
    forall d ensures d in Reversed(Exported(found)) <==> Usable(d) in found {
      ExportedIsUsable(found, d);
      InReversed(Exported(found), d);
    }
    forall k | 0 <= k < |found| && found[k].Usable? {
      ExportedAt(found, k);
    }
  }

  /** Who reads a reply that went out gets them, and stops at its end. */
  lemma ReplyListsDevices(before: seq<byte>, after: seq<byte>, found: seq<Found<Device>>) returns (read: seq<Device>)
    requires |Exported(found)| < TWO_31 && Went(before, after, EncodeReply(Reversed(Exported(found))), true)
    ensures DecodeReply(after[|before|..]) == Some((read, [])) && ListsUsable(read, found)
  {
    read := Reversed(Exported(found));
    var reply := EncodeReply(read);
    assert after[|before|..] == reply == reply + [];
    ReplyRoundTrip(read, []);
    ExportedAreUsable(found);
  }
}
