/** The tables usbip_host_driver.c builds from libusb's descriptors: the endpoints of a device, and the list
    of the devices that can be exported. */
module DeviceTables {
  import opened Usb

  datatype EndpointDesc = EndpointDesc(address: byte, attributes: byte)

  /** One alternate setting of an interface. */
  datatype Setting = Setting(class_: byte, subclass: byte, protocol: byte, number: byte, endpoints: seq<EndpointDesc>)

  /** An interface has at least one setting. */
  type Settings = s: seq<Setting> | s != [] witness [Setting(0, 0, 0, 0, [])]

  /** struct libusb_config_descriptor; the counts of the arrays are their lengths. */
  datatype Config = Config(value: byte, interfaces: seq<Settings>)

  /** struct stub_endpoint */
  datatype Endpoint = Endpoint(nr: byte, dir: byte, kind: byte)

  function EndpointOf(d: EndpointDesc): Endpoint {
    Endpoint(d.address % 0x10, d.address / 0x80 * 0x80, d.attributes % 4)
  }

  // ----- in descriptor order -----

  /** The endpoints of the first j settings of an interface, and of the first i interfaces. */
  function OfSettings(s: seq<Setting>, j: nat): seq<EndpointDesc>
    requires j <= |s|
  {
    if j == 0 then [] else OfSettings(s, j - 1) + s[j - 1].endpoints
  }

  function OfInterfaces(c: Config, i: nat): seq<EndpointDesc>
    requires i <= |c.interfaces|
  {
    if i == 0 then [] else OfInterfaces(c, i - 1) + OfSettings(c.interfaces[i - 1], |c.interfaces[i - 1]|)
  }

  function AllEndpoints(c: Config): seq<EndpointDesc> { OfInterfaces(c, |c.interfaces|) }

  function Filled(ds: seq<EndpointDesc>): (eps: seq<Endpoint>)
    ensures |eps| == |ds|
  {
    seq(|ds|, k requires 0 <= k < |ds| => EndpointOf(ds[k]))
  }

  lemma {:induction false} SettingsWithin(s: seq<Setting>, j: nat, k: nat)
    requires j <= k <= |s|
    ensures OfSettings(s, j) <= OfSettings(s, k)
  {
    if j < k {
      SettingsWithin(s, j, k - 1);
    }
  }

  lemma {:induction false} InterfacesWithin(c: Config, i: nat, k: nat)
    requires i <= k <= |c.interfaces|
    ensures OfInterfaces(c, i) <= OfInterfaces(c, k)
  {
    if i < k {
      InterfacesWithin(c, i, k - 1);
    }
  }

  /** count_endpoints */
  method CountEndpoints(config: Config) returns (num: nat)
    ensures num == |AllEndpoints(config)|
  {
    num := 0;
    for i := 0 to |config.interfaces|
      invariant num == |OfInterfaces(config, i)|
    {
      var intf := config.interfaces[i];
      for j := 0 to |intf|
        invariant num == |OfInterfaces(config, i)| + |OfSettings(intf, j)|
      {
        num := num + |intf[j].endpoints|;
      }
    }
  }

  /** The endpoints of ds are in the table from place num on; the other places are as they were. */
  twostate predicate Wrote(ep: array<Endpoint>, num: nat, ds: seq<EndpointDesc>)
    reads ep
  {
    forall m :: 0 <= m < ep.Length ==>
      ep[m] == if num <= m < num + |ds| then EndpointOf(ds[m - num]) else old(ep[m])
  }

  /** The innermost loop of fill_stub_endpoints: one setting. */
  method FillSetting(ep: array<Endpoint>, num: nat, ds: seq<EndpointDesc>)
    requires num + |ds| <= ep.Length
    modifies ep
    ensures Wrote(ep, num, ds)
  {
    for k := 0 to |ds|
      invariant Wrote(ep, num, ds[..k])
    {
      ep[num + k] := EndpointOf(ds[k]);
    }
    assert ds[..|ds|] == ds;
  }

  /** The loop over the settings of an interface. */
  method FillInterface(ep: array<Endpoint>, start: nat, intf: seq<Setting>) returns (num: nat)
    requires start + |OfSettings(intf, |intf|)| <= ep.Length
    modifies ep
    ensures Wrote(ep, start, OfSettings(intf, |intf|)) && num == start + |OfSettings(intf, |intf|)|
  {
    num := start;
    for j := 0 to |intf|
      invariant num == start + |OfSettings(intf, j)| && Wrote(ep, start, OfSettings(intf, j))
    {
      SettingsWithin(intf, j + 1, |intf|);
      FillSetting(ep, num, intf[j].endpoints);
      num := num + |intf[j].endpoints|;
    }
  }

  /** fill_stub_endpoints into an array that is large enough. */
  method FillStubEndpoints(ep: array<Endpoint>, config: Config)
    requires ep.Length >= |AllEndpoints(config)|
    modifies ep
    ensures Wrote(ep, 0, AllEndpoints(config))
  {
    var num := 0;
    for i := 0 to |config.interfaces|
      invariant num == |OfInterfaces(config, i)| && Wrote(ep, 0, OfInterfaces(config, i))
    {
      InterfacesWithin(config, i + 1, |config.interfaces|);
      num := FillInterface(ep, num, config.interfaces[i]);
    }
  }

  /** The table of exported_device_new: as many places as are counted, all of them filled. */
  method NewEndpoints(config: Config) returns (ep: array<Endpoint>)
    ensures fresh(ep) && ep[..] == Filled(AllEndpoints(config))
  {
    var num := CountEndpoints(config);
    ep := new Endpoint[num](_ => Endpoint(0, 0, 0));
    FillStubEndpoints(ep, config);
  }

  const UNKNOWN_TYPE: byte := 0xff

  /** What stub_get_transfer_type promises: 0 is the control endpoint; otherwise the first endpoint with this
      number, in descriptor order and in either direction, decides. */
  ghost predicate TypeOf(eps: seq<Endpoint>, ep: byte, t: byte) {
    if ep == 0 then t == 0
    else
      || (t == UNKNOWN_TYPE && forall e :: e in eps ==> e.nr != ep % 0x10)
      || (exists i :: 0 <= i < |eps| && eps[i].nr == ep % 0x10 && eps[i].kind == t
                      && forall j :: 0 <= j < i ==> eps[j].nr != ep % 0x10)
  }

  /** get_endpoint, as an index. */
  method GetEndpoint(eps: array<Endpoint>, ep: byte) returns (i: nat)
    ensures i <= eps.Length && (i < eps.Length ==> eps[i].nr == ep % 0x10)
    ensures forall j :: 0 <= j < i ==> eps[j].nr != ep % 0x10
  {
    i := 0;
    while i < eps.Length
      invariant i <= eps.Length && forall j :: 0 <= j < i ==> eps[j].nr != ep % 0x10
    {
      if eps[i].nr == ep % 0x10 {
        return;
      }
      i := i + 1;
    }
  }

  method StubGetTransferType(eps: array<Endpoint>, ep: byte) returns (t: byte)
    ensures TypeOf(eps[..], ep, t)
  {
    if ep == 0 {
      return 0;
    }
    var i := GetEndpoint(eps, ep);
    t := if i == eps.Length then UNKNOWN_TYPE else eps[i].kind;
  }

  /** A configuration has a type for an endpoint number, and only one. The numbers in its table are four
      bits wide, and their types two, so it is never taken for unknown. */
  lemma TypeIsUnique(c: Config, ep: byte, t: byte, u: byte)
    requires TypeOf(Filled(AllEndpoints(c)), ep, t) && TypeOf(Filled(AllEndpoints(c)), ep, u)
    ensures t == u && (t == UNKNOWN_TYPE || t < 4)
    ensures t == UNKNOWN_TYPE <==> (ep != 0 && forall d :: d in AllEndpoints(c) ==> d.address % 0x10 != ep % 0x10)
  {
    var ds, eps := AllEndpoints(c), Filled(AllEndpoints(c));
    assert forall k :: 0 <= k < |ds| ==> eps[k] == EndpointOf(ds[k]);
    if t == UNKNOWN_TYPE && ep != 0 {
      forall d | d in ds ensures d.address % 0x10 != ep % 0x10 {
        var k :| 0 <= k < |ds| && ds[k] == d;
        assert eps[k] in eps;
      }
    }
  }

  /** How many endpoints the first j settings of an interface, and the first i interfaces, have. */
  function CountSettings(s: seq<Setting>, j: nat): nat
    requires j <= |s|
  {
    if j == 0 then 0 else CountSettings(s, j - 1) + |s[j - 1].endpoints|
  }

  function CountInterfaces(c: Config, i: nat): nat
    requires i <= |c.interfaces|
  {
    if i == 0 then 0 else CountInterfaces(c, i - 1) + CountSettings(c.interfaces[i - 1], |c.interfaces[i - 1]|)
  }

  lemma {:induction false} SettingsCounted(s: seq<Setting>, j: nat)
    requires j <= |s|
    ensures |OfSettings(s, j)| == CountSettings(s, j)
  {
    if j > 0 {
      SettingsCounted(s, j - 1);
    }
  }

  lemma {:induction false} InterfacesCounted(c: Config, i: nat)
    requires i <= |c.interfaces|
    ensures |OfInterfaces(c, i)| == CountInterfaces(c, i)
  {
    if i > 0 {
      InterfacesCounted(c, i - 1);
      SettingsCounted(c.interfaces[i - 1], |c.interfaces[i - 1]|);
    }
  }

  lemma PlaceInTable(c: Config, i: nat, j: nat)
    requires i < |c.interfaces| && j < |c.interfaces[i]|
    ensures OfInterfaces(c, i) + OfSettings(c.interfaces[i], j) + c.interfaces[i][j].endpoints <= AllEndpoints(c)
  {
    var intf := c.interfaces[i];
    SettingsWithin(intf, j + 1, |intf|);
    InterfacesWithin(c, i + 1, |c.interfaces|);
    assert OfInterfaces(c, i) + OfSettings(intf, j) + intf[j].endpoints
        == OfInterfaces(c, i) + OfSettings(intf, j + 1);
    assert OfInterfaces(c, i) + OfSettings(intf, j + 1) <= OfInterfaces(c, i + 1);
  }

  lemma EndpointAt(c: Config, i: nat, j: nat, k: nat)
    requires i < |c.interfaces| && j < |c.interfaces[i]| && k < |c.interfaces[i][j].endpoints|
    ensures var at := CountInterfaces(c, i) + CountSettings(c.interfaces[i], j) + k;
      at < |AllEndpoints(c)| && AllEndpoints(c)[at] == c.interfaces[i][j].endpoints[k]
  {
    InterfacesCounted(c, i);
    SettingsCounted(c.interfaces[i], j);
    PlaceInTable(c, i, j);
    InPrefix(OfInterfaces(c, i) + OfSettings(c.interfaces[i], j), c.interfaces[i][j].endpoints, AllEndpoints(c), k);
  }

  lemma InPrefix(before: seq<EndpointDesc>, part: seq<EndpointDesc>, all: seq<EndpointDesc>, k: nat)
    requires before + part <= all && k < |part|
    ensures |before| + k < |all| && all[|before| + k] == part[k]
  {
    assert (before + part)[|before| + k] == part[k];
  }

  lemma FilledAt(ds: seq<EndpointDesc>, at: nat)
    requires at < |ds|
    ensures Filled(ds)[at].nr == ds[at].address % 0x10 && Filled(ds)[at].kind == ds[at].attributes % 4
    ensures Filled(ds)[at].dir == if ds[at].address >= 0x80 then 0x80 else 0
  {
  }

  /** The table in descriptor order: endpoint k of setting j of interface i comes after those of the interfaces, the
      settings and the endpoints before it, and its entry has its number, its direction and its type. */
  lemma EndpointInTable(c: Config, i: nat, j: nat, k: nat) returns (e: Endpoint)
    requires i < |c.interfaces| && j < |c.interfaces[i]| && k < |c.interfaces[i][j].endpoints|
    ensures |Filled(AllEndpoints(c))| == CountInterfaces(c, |c.interfaces|)
    ensures var at := CountInterfaces(c, i) + CountSettings(c.interfaces[i], j) + k;
      at < |Filled(AllEndpoints(c))| && Filled(AllEndpoints(c))[at] == e
    ensures var d := c.interfaces[i][j].endpoints[k];
      e.nr == d.address % 0x10 && e.kind == d.attributes % 4 && e.dir == if d.address >= 0x80 then 0x80 else 0
  {
    var at := CountInterfaces(c, i) + CountSettings(c.interfaces[i], j) + k;
    InterfacesCounted(c, |c.interfaces|);
    EndpointAt(c, i, j, k);
    FilledAt(AllEndpoints(c), at);
    e := Filled(AllEndpoints(c))[at];
  }

  /** The type of an endpoint number is in the low two bits of the attributes of the first descriptor with it. */
  lemma TypeOfDescriptor(c: Config, ep: byte, t: byte) returns (k: nat)
    requires TypeOf(Filled(AllEndpoints(c)), ep, t) && ep != 0 && t != UNKNOWN_TYPE
    ensures k < |AllEndpoints(c)| && AllEndpoints(c)[k].address % 0x10 == ep % 0x10
    ensures forall m :: 0 <= m < k ==> AllEndpoints(c)[m].address % 0x10 != ep % 0x10
    ensures t == AllEndpoints(c)[k].attributes % 4
  {
    var ds, eps := AllEndpoints(c), Filled(AllEndpoints(c));
    assert forall m :: 0 <= m < |ds| ==> eps[m] == EndpointOf(ds[m]);
    k :| 0 <= k < |eps| && eps[k].nr == ep % 0x10 && eps[k].kind == t
         && forall m :: 0 <= m < k ==> eps[m].nr != ep % 0x10;
  }

  // ----- the device list -----

  /** What libusb says about a device: no descriptor, a hub, no configuration, or one that can be exported. */
  datatype Found<D> = NoDescriptor | Hub | NoConfig | Usable(device: D)

  /** The devices that are exported, in libusb's order. */
  function Exported<D>(found: seq<Found<D>>): seq<D> {
    if found == [] then []
    else
      var last := found[|found| - 1];
      Exported(found[..|found| - 1]) + if last.Usable? then [last.device] else []
  }

  function CountUsable<D>(found: seq<Found<D>>): nat {
    if found == [] then 0 else CountUsable(found[..|found| - 1]) + if found[|found| - 1].Usable? then 1 else 0
  }

  lemma {:induction false} ExportedCounted<D>(found: seq<Found<D>>)
    ensures |Exported(found)| == CountUsable(found) <= |found|
  {
    if found != [] {
      ExportedCounted(found[..|found| - 1]);
    }
  }

  /** Each usable device is exported, behind as many as are usable before it. */
  lemma {:induction false} ExportedAt<D>(found: seq<Found<D>>, k: nat)
    requires k < |found| && found[k].Usable?
    ensures CountUsable(found[..k]) < |Exported(found)| && Exported(found)[CountUsable(found[..k])] == found[k].device
  {
    var before := found[..|found| - 1];
    ExportedCounted(before);
    if k < |before| {
      ExportedAt(before, k);
      assert before[..k] == found[..k];
    }
  }

  /** Nothing else is exported. */
  lemma {:induction false} ExportedIsUsable<D>(found: seq<Found<D>>, d: D)
    ensures d in Exported(found) <==> Usable(d) in found
  {
    if found != [] {
      var before, last := found[..|found| - 1], found[|found| - 1];
      ExportedIsUsable(before, d);
      assert found == before + [last];
    }
  }

  function Reversed<D>(s: seq<D>): (r: seq<D>)
    ensures |r| == |s| && forall k :: 0 <= k < |s| ==> r[k] == s[|s| - 1 - k]
  {
    seq(|s|, k requires 0 <= k < |s| => s[|s| - 1 - k])
  }

  /** struct usbip_exported_devices */
  class ExportedDevices<D> {
    var ndevs: nat
    var devices: seq<D>   // edev_list

    constructor ()
    {
      ndevs, devices := 0, [];
    }

    /** usbip_refresh_device_list. Devices are added at the head. It gives up without libusb's list, or at a device
        without a descriptor, and then keeps what it has; the count is right in any case. */
    method Refresh(listed: bool, found: seq<Found<D>>) returns (ret: int)
      modifies this
      ensures ndevs == |devices|
      ensures ret == if !listed || NoDescriptor in found then -1 else 0
      ensures !listed ==> devices == []
      ensures ret == 0 ==> devices == Reversed(Exported(found))
      ensures listed && ret == -1 ==>
        exists k :: 0 <= k < |found| && found[k].NoDescriptor? && NoDescriptor !in found[..k]
                    && devices == Reversed(Exported(found[..k]))
    {
      ndevs, devices := 0, [];
      if !listed {
        return -1;
      }
      for i := 0 to |found|
        invariant NoDescriptor !in found[..i]
        invariant ndevs == |devices| && devices == Reversed(Exported(found[..i]))
      {
        assert found[..i + 1] == found[..i] + [found[i]];
        match found[i] {
          case NoDescriptor => return -1;
          case Hub =>
          case NoConfig =>
          case Usable(device) =>
            ReversedNext(Exported(found[..i]), device);
            devices := [device] + devices;
            ndevs := ndevs + 1;
        }
      }
      assert found[..|found|] == found;
      ret := 0;
    }
  }

  lemma ReversedNext<D>(s: seq<D>, d: D)
    ensures Reversed(s + [d]) == [d] + Reversed(s)
  {
  }
}
