/** What each RUTX11Manager operation does, as functions of the router's
    collections and of the status codes it answers with: the requests sent,
    the collection afterwards and, for the operations that raise, whether they
    raised.  The lemmas state the reconciliation properties the manager is
    written for. */
module Rutx11Spec {
  import opened Basics
  import opened Table
  import opened RouterApi

  /** Whether an operation returned normally or raised, with the exception's text. */
  datatype Outcome = Success | Failure(message: string)

  /** The requests an operation sent, one collection afterwards, and how it ended. */
  datatype Change<A> = Change(requests: seq<Request>, table: seq<Entry<A>>, outcome: Outcome)

  /** A configuration step of `factory_reset`: it never raises. */
  datatype Step<A> = Step(requests: seq<Request>, table: seq<Entry<A>>)

  const GetNetworksFailed := "Failed to get WiFi networks"
  const UpdateNetworkFailed := "Failed to update WiFi network"
  const AddNetworkFailed := "Failed to add WiFi network"
  const RemoveNetworkFailed := "Failed to remove WiFi network"
  const LeaseFieldsRequired := "IP, MAC and name are required"
  const InvalidIp := "Invalid IP address"
  const InvalidMac := "Invalid MAC address"
  const AddLeaseFailed := "Failed to add static lease."
  const InvalidModel := "Invalid robot model. Valid options are 'PTH' or 'LNX'."
  const InvalidSerial := "Robot serial number must be 4 characters long"

  const ListNetworks := Request(Get, MultiApPath, Empty)
  const ListInterfaces := Request(Get, WirelessInterfacesPath, Empty)
  const ListLeases := Request(Get, StaticLeasesPath, Empty)

  function HasSsid(ssid: string): Entry<Network> -> bool {
    (e: Entry<Network>) => e.attrs.ssid == ssid
  }

  /** The payload `add_wifi_network` sends for both the update and the create. */
  function NetworkPayload(ssid: string, password: string): Network {
    Network(ssid, password, "1")
  }

  /** The first entry with the SSID, as `FirstIndex` finds it. */
  lemma {:induction false} FirstWithSsid(t: seq<Entry<Network>>, ssid: string) returns (i: nat)
    requires exists i :: 0 <= i < |t| && t[i].attrs.ssid == ssid
    ensures FirstIndex(t, HasSsid(ssid)) == Some(i)
    ensures i < |t| && t[i].attrs.ssid == ssid && forall j :: 0 <= j < i ==> t[j].attrs.ssid != ssid
  {
    var k :| 0 <= k < |t| && t[k].attrs.ssid == ssid;
    assert HasSsid(ssid)(t[k]);
    i := FirstIndex(t, HasSsid(ssid)).value;
    forall j | 0 <= j < i ensures t[j].attrs.ssid != ssid {
      assert !HasSsid(ssid)(t[j]);
    }
  }

  /** `FirstIndex` finds no entry exactly when none has the SSID. */
  lemma {:induction false} SsidAbsent(t: seq<Entry<Network>>, ssid: string)
    ensures FirstIndex(t, HasSsid(ssid)).None? <==> forall i :: 0 <= i < |t| ==> t[i].attrs.ssid != ssid
  {
    assert forall i :: 0 <= i < |t| ==> (HasSsid(ssid)(t[i]) <==> t[i].attrs.ssid == ssid);
  }

  // ----- add_wifi_network -----

  function AddNetwork(t: seq<Entry<Network>>, ssid: string, password: string, getStatus: int, writeStatus: int): Change<Network> {
    var n := NetworkPayload(ssid, password);
    if !Succeeded(Get, getStatus) then Change([ListNetworks], t, Failure(GetNetworksFailed))
    else match FirstIndex(t, HasSsid(ssid))
      case Some(i) =>
        var ok := Succeeded(Put, writeStatus);
        Change([ListNetworks, Request(Put, MultiApPath + "/" + t[i].id, NetworkBody(n))],
               if ok then UpdateId(t, t[i].id, n) else t,
               if ok then Success else Failure(UpdateNetworkFailed))
      case None =>
        var ok := Succeeded(Post, writeStatus);
        Change([ListNetworks, Request(Post, MultiApPath, NetworkBody(n))],
               if ok then t + [Entry(FreshId(t), n)] else t,
               if ok then Success else Failure(AddNetworkFailed))
  }

  /** The requests `add_wifi_network` sends: nothing is written when the list
      cannot be read; otherwise exactly one write, a PUT to the first entry
      with the SSID when there is one and a POST when there is none. */
  lemma {:induction false} AddNetworkRequests(t: seq<Entry<Network>>, ssid: string, password: string, g: int, w: int)
    ensures var c := AddNetwork(t, ssid, password, g, w);
      && c.requests[0] == ListNetworks
      && (!Succeeded(Get, g) ==> |c.requests| == 1 && c.table == t && c.outcome == Failure(GetNetworksFailed))
      && (Succeeded(Get, g) ==> |c.requests| == 2)
      && (Succeeded(Get, g) && (exists i :: 0 <= i < |t| && t[i].attrs.ssid == ssid) ==>
            exists i :: (0 <= i < |t| && t[i].attrs.ssid == ssid && (forall j :: 0 <= j < i ==> t[j].attrs.ssid != ssid)
              && c.requests[1] == Request(Put, MultiApPath + "/" + t[i].id, NetworkBody(Network(ssid, password, "1")))))
      && (Succeeded(Get, g) && (forall i :: 0 <= i < |t| ==> t[i].attrs.ssid != ssid) ==>
            c.requests[1] == Request(Post, MultiApPath, NetworkBody(Network(ssid, password, "1"))))
  {
    SsidAbsent(t, ssid);
    if Succeeded(Get, g) && exists i :: 0 <= i < |t| && t[i].attrs.ssid == ssid {
      var i := FirstWithSsid(t, ssid);
    }
  }

  /** A successful update rewrites the first entry with the SSID, keeps its
      id, and leaves every other entry as it was. */
  lemma {:induction false} AddNetworkUpdatesFirstMatchOnly(t: seq<Entry<Network>>, ssid: string, password: string, g: int, w: int)
    requires DistinctIds(t)
    requires Succeeded(Get, g) && Succeeded(Put, w)
    requires exists i :: 0 <= i < |t| && t[i].attrs.ssid == ssid
    ensures exists i :: (0 <= i < |t| && t[i].attrs.ssid == ssid && (forall j :: 0 <= j < i ==> t[j].attrs.ssid != ssid)
      && AddNetwork(t, ssid, password, g, w).table == t[i := Entry(t[i].id, Network(ssid, password, "1"))])
  {
    var i := FirstWithSsid(t, ssid);
    UpdateIdAt(t, i, NetworkPayload(ssid, password));
  }

  /** After a successful add, the ids stay distinct and no duplicate SSID
      appears: when no entry had the SSID, the collection gains one entry,
      the only one with it; otherwise it keeps its size and ids, and the
      entries with the SSID are exactly those that had it before. */
  lemma {:induction false} AddNetworkNoDuplicates(t: seq<Entry<Network>>, ssid: string, password: string, g: int, w: int)
    requires DistinctIds(t)
    requires AddNetwork(t, ssid, password, g, w).outcome == Success
    ensures var after := AddNetwork(t, ssid, password, g, w).table;
      && DistinctIds(after)
      && ((forall i :: 0 <= i < |t| ==> t[i].attrs.ssid != ssid) ==>
            |after| == |t| + 1 && after[..|t|] == t && after[|t|].attrs == Network(ssid, password, "1"))
      && ((exists i :: 0 <= i < |t| && t[i].attrs.ssid == ssid) ==>
            |after| == |t| && forall k :: 0 <= k < |t| ==>
              after[k].id == t[k].id && (after[k].attrs.ssid == ssid <==> t[k].attrs.ssid == ssid))
  {
    var n := NetworkPayload(ssid, password);
    var after := AddNetwork(t, ssid, password, g, w).table;
    SsidAbsent(t, ssid);
    if exists i :: 0 <= i < |t| && t[i].attrs.ssid == ssid {
      var i := FirstWithSsid(t, ssid);
      UpdateIdAt(t, i, n);
      UpdateIdKeepsDistinct(t, t[i].id, n);
      assert after == t[i := Entry(t[i].id, n)];
      forall k | 0 <= k < |t| ensures after[k].id == t[k].id && (after[k].attrs.ssid == ssid <==> t[k].attrs.ssid == ssid) {
        if k != i {
          assert after[k] == t[k];
        }
      }
    } else {
      AppendFreshKeepsDistinct(t, n);
      assert after == t + [Entry(FreshId(t), n)];
      assert after[..|t|] == t;
    }
  }

  /** Where a successful add leaves the network: at an index before which no entry has the SSID. */
  lemma {:induction false} AddNetworkPlaces(t: seq<Entry<Network>>, ssid: string, password: string, g: int, w: int) returns (i: nat)
    requires DistinctIds(t)
    requires AddNetwork(t, ssid, password, g, w).outcome == Success
    ensures var once := AddNetwork(t, ssid, password, g, w).table;
      && DistinctIds(once) && i < |once| && once[i].attrs == NetworkPayload(ssid, password)
      && forall j :: 0 <= j < i ==> once[j].attrs.ssid != ssid
  {
    var n := NetworkPayload(ssid, password);
    var once := AddNetwork(t, ssid, password, g, w).table;
    SsidAbsent(t, ssid);
    if exists i :: 0 <= i < |t| && t[i].attrs.ssid == ssid {
      i := FirstWithSsid(t, ssid);
      UpdateIdKeepsDistinct(t, t[i].id, n);
      UpdateIdAt(t, i, n);
      assert once == t[i := Entry(t[i].id, n)];
    } else {
      i := |t|;
      AppendFreshKeepsDistinct(t, n);
      assert once == t + [Entry(FreshId(t), n)];
    }
  }

  /** Adding a network that is already the first entry with its SSID issues a PUT that changes nothing. */
  lemma {:induction false} AddNetworkPresent(u: seq<Entry<Network>>, ssid: string, password: string, i: nat, g: int, w: int)
    requires DistinctIds(u) && Succeeded(Get, g)
    requires i < |u| && u[i].attrs == NetworkPayload(ssid, password)
    requires forall j :: 0 <= j < i ==> u[j].attrs.ssid != ssid
    ensures AddNetwork(u, ssid, password, g, w).requests[1].verb == Put
    ensures AddNetwork(u, ssid, password, g, w).table == u
  {
    var n := NetworkPayload(ssid, password);
    var i2 := FirstWithSsid(u, ssid);
    assert i2 == i;
    UpdateIdAt(u, i, n);
    assert u[i := Entry(u[i].id, n)] == u;
  }

  /** Adding the same network a second time after a successful add takes the
      update branch (a PUT, no POST) and leaves the collection as it is. */
  lemma {:induction false} AddNetworkIdempotent(t: seq<Entry<Network>>, ssid: string, password: string, g1: int, w1: int, g2: int, w2: int)
    requires DistinctIds(t)
    requires AddNetwork(t, ssid, password, g1, w1).outcome == Success
    requires Succeeded(Get, g2)
    ensures var once := AddNetwork(t, ssid, password, g1, w1).table;
      var twice := AddNetwork(once, ssid, password, g2, w2);
      && twice.requests[1].verb == Put
      && twice.table == once
  {
    var i := AddNetworkPlaces(t, ssid, password, g1, w1);
    AddNetworkPresent(AddNetwork(t, ssid, password, g1, w1).table, ssid, password, i, g2, w2);
  }

  // ----- remove_wifi_network -----

  function RemoveNetwork(t: seq<Entry<Network>>, ssid: string, getStatus: int, deleteStatus: int): Change<Network> {
    if !Succeeded(Get, getStatus) then Change([ListNetworks], t, Failure(GetNetworksFailed))
    else match FirstIndex(t, HasSsid(ssid))
      case None => Change([ListNetworks], t, Success)
      case Some(i) =>
        var ok := Succeeded(Delete, deleteStatus);
        Change([ListNetworks, Request(Delete, MultiApPath + "/" + t[i].id, Empty)],
               if ok then DeleteIds(t, [t[i].id]) else t,
               if ok then Success else Failure(RemoveNetworkFailed))
  }

  /** An absent SSID changes nothing and does not raise. */
  lemma {:induction false} RemoveAbsentIsNoop(t: seq<Entry<Network>>, ssid: string, g: int, d: int)
    requires Succeeded(Get, g)
    requires forall i :: 0 <= i < |t| ==> t[i].attrs.ssid != ssid
    ensures RemoveNetwork(t, ssid, g, d) == Change([ListNetworks], t, Success)
  {
    SsidAbsent(t, ssid);
  }

  /** A successful removal deletes exactly the first entry with the SSID, one
      entry with that SSID fewer, and keeps the others in order. */
  lemma {:induction false} RemoveNetworkFirstMatchOnly(t: seq<Entry<Network>>, ssid: string, g: int, d: int)
    requires DistinctIds(t) && Succeeded(Get, g) && Succeeded(Delete, d)
    requires exists i :: 0 <= i < |t| && t[i].attrs.ssid == ssid
    ensures var c := RemoveNetwork(t, ssid, g, d);
      && c.outcome == Success
      && exists i :: (0 <= i < |t| && t[i].attrs.ssid == ssid && (forall j :: 0 <= j < i ==> t[j].attrs.ssid != ssid)
           && c.requests == [ListNetworks, Request(Delete, MultiApPath + "/" + t[i].id, Empty)]
           && c.table == t[..i] + t[i + 1..])
  {
    var i := FirstWithSsid(t, ssid);
    DeleteIdAt(t, i);
  }

  // ----- add_static_lease -----

  /** The check `add_static_lease` makes before it sends anything. */
  function LeaseInputError(ip: string, mac: string, name: string): Option<string> {
    if ip == "" || mac == "" || name == "" then Some(LeaseFieldsRequired)
    else if |Split(ip, '.')| != 4 then Some(InvalidIp)
    else if |Split(mac, ':')| != 6 then Some(InvalidMac)
    else None
  }

  /** The input is accepted exactly when no field is empty, the IP has three
      dots and the MAC five colons. */
  lemma {:induction false} LeaseInputAccepted(ip: string, mac: string, name: string)
    ensures LeaseInputError(ip, mac, name).None? <==>
      ip != "" && mac != "" && name != "" && multiset(ip)['.'] == 3 && multiset(mac)[':'] == 5
    ensures LeaseInputError(ip, mac, name).None? ==>
      Join(Split(ip, '.'), '.') == ip && Join(Split(mac, ':'), ':') == mac
  {
    SplitPieces(ip, '.');
    SplitPieces(mac, ':');
    JoinSplit(ip, '.');
    JoinSplit(mac, ':');
  }

  function AddLease(t: seq<Entry<Lease>>, ip: string, mac: string, name: string, postStatus: int): Change<Lease> {
    match LeaseInputError(ip, mac, name)
    case Some(m) => Change([], t, Failure(m))
    case None =>
      var l := Lease(ip, mac, name);
      var ok := Succeeded(Post, postStatus);
      Change([Request(Post, StaticLeasesPath, LeaseBody(l))],
             if ok then t + [Entry(FreshId(t), l)] else t,
             if ok then Success else Failure(AddLeaseFailed))
  }

  // ----- factory_reset -----

  /** The check `factory_reset` makes of its arguments before configuring anything. */
  function ResetArgsError(model: string, serial: string): Option<string> {
    if model != "PTH" && model != "LNX" then Some(InvalidModel)
    else if |serial| != 4 then Some(InvalidSerial)
    else None
  }

  function SsidPrefix(model: string): string {
    if model == "LNX" then "Lynx_" else "Panther_"
  }

  /** The names `_configure_wireless_interfaces` gives the two default access points. */
  function DefaultSsids(model: string, serial: string): seq<SsidUpdate> {
    [ SsidUpdate("default_radio0", SsidPrefix(model) + serial, "husarion"),
      SsidUpdate("default_radio1", SsidPrefix(model) + "5G_" + serial, "husarion") ]
  }

  /** The prefix is "Lynx_" exactly for model "LNX"; band 0 is prefix and
      serial, band 1 puts "5G_" between them; both use the key "husarion". */
  lemma {:induction false} DefaultSsidsShape(model: string, serial: string)
    ensures var u := DefaultSsids(model, serial);
      && |u| == 2 && u[0].id == "default_radio0" && u[1].id == "default_radio1"
      && u[0].key == "husarion" && u[1].key == "husarion"
      && (model == "LNX" ==> u[0].ssid == "Lynx_" + serial && u[1].ssid == "Lynx_5G_" + serial)
      && (model != "LNX" ==> u[0].ssid == "Panther_" + serial && u[1].ssid == "Panther_5G_" + serial)
  {
    if model == "LNX" {
      assert "Lynx_" + "5G_" + serial == "Lynx_5G_" + serial;
    } else {
      assert "Panther_" + "5G_" + serial == "Panther_5G_" + serial;
    }
  }

  /** Robots with serials of one length never share a default SSID: the SSID
      determines the band, the serial and whether the robot is a Lynx. */
  lemma {:induction false} DefaultSsidsDistinct(m1: string, s1: string, b1: nat, m2: string, s2: string, b2: nat)
    requires |s1| == |s2| && b1 < 2 && b2 < 2
    requires DefaultSsids(m1, s1)[b1].ssid == DefaultSsids(m2, s2)[b2].ssid
    ensures b1 == b2 && s1 == s2 && (m1 == "LNX" <==> m2 == "LNX")
  {
    DefaultSsidsShape(m1, s1);
    DefaultSsidsShape(m2, s2);
    var x := DefaultSsids(m1, s1)[b1].ssid;
    var n1 := |x| - |s1|;
    assert x[0] == (if m1 == "LNX" then 'L' else 'P');
    assert x[0] == (if m2 == "LNX" then 'L' else 'P');
    assert m1 == "LNX" <==> m2 == "LNX";
    assert b1 == b2;
    assert s1 == x[n1..] == s2;
  }

  /** After the bulk PUT of the default names, the entries with the two
      default ids carry the derived SSIDs and the key, and no other entry changes. */
  lemma {:induction false} DefaultSsidsInstalled(t: seq<Entry<Interface>>, model: string, serial: string)
    ensures var r := ApplySsidUpdates(t, DefaultSsids(model, serial));
      && |r| == |t|
      && forall i :: 0 <= i < |t| ==>
           && r[i].id == t[i].id
           && (t[i].id == "default_radio0" ==> r[i].attrs == t[i].attrs.(ssid := Some(SsidPrefix(model) + serial), key := Some("husarion")))
           && (t[i].id == "default_radio1" ==> r[i].attrs == t[i].attrs.(ssid := Some(SsidPrefix(model) + "5G_" + serial), key := Some("husarion")))
           && (t[i].id != "default_radio0" && t[i].id != "default_radio1" ==> r[i] == t[i])
  {
    var u := DefaultSsids(model, serial);
    var t1 := SetSsid(t, u[0]);
    var t2 := SetSsid(t1, u[1]);
    assert u[1..][1..] == [];
    assert ApplySsidUpdates(t, u) == ApplySsidUpdates(t1, u[1..]) == ApplySsidUpdates(t2, []) == t2;
    forall i | 0 <= i < |t| ensures t2[i].id == t[i].id {
      assert t2[i].id == Ids(t2)[i] == Ids(t)[i];
    }
  }

  // ----- _configure_multi_ap_interface -----

  const MultiApMode := "multi_ap"

  /** The interface `_configure_multi_ap_interface` posts. */
  const MultiApInterface := Entry("wifi-iface", Interface(MultiApMode, None, None, "wwan", ["radio1"], "1", "30"))

  function IsMultiAp(): Entry<Interface> -> bool {
    (e: Entry<Interface>) => e.attrs.mode == MultiApMode
  }

  function ReplaceMultiAp(t: seq<Entry<Interface>>, getStatus: int, deleteStatus: int, postStatus: int): Step<Interface> {
    var create := Request(Post, WirelessInterfacesPath, InterfaceBody(MultiApInterface));
    if !Succeeded(Get, getStatus) then Step([ListInterfaces], t)
    else match FirstIndex(t, IsMultiAp())
      case None =>
        Step([ListInterfaces, create], if Succeeded(Post, postStatus) then InsertById(t, MultiApInterface) else t)
      case Some(i) =>
        var remove := Request(Delete, WirelessInterfacesPath, IdList([t[i].id]));
        if !Succeeded(Delete, deleteStatus) then Step([ListInterfaces, remove], t)
        else
          var rest := DeleteIds(t, [t[i].id]);
          Step([ListInterfaces, remove, create], if Succeeded(Post, postStatus) then InsertById(rest, MultiApInterface) else rest)
  }

  /** The first interface in Multi-AP mode, as `FirstIndex` finds it. */
  lemma {:induction false} FirstMultiAp(t: seq<Entry<Interface>>) returns (i: nat)
    requires exists i :: 0 <= i < |t| && t[i].attrs.mode == MultiApMode
    ensures FirstIndex(t, IsMultiAp()) == Some(i)
    ensures i < |t| && t[i].attrs.mode == MultiApMode && forall j :: 0 <= j < i ==> t[j].attrs.mode != MultiApMode
  {
    var k :| 0 <= k < |t| && t[k].attrs.mode == MultiApMode;
    assert IsMultiAp()(t[k]);
    i := FirstIndex(t, IsMultiAp()).value;
    forall j | 0 <= j < i ensures t[j].attrs.mode != MultiApMode {
      assert !IsMultiAp()(t[j]);
    }
  }

  /** `FirstIndex` finds no interface exactly when none is in Multi-AP mode. */
  lemma {:induction false} MultiApAbsent(t: seq<Entry<Interface>>)
    ensures FirstIndex(t, IsMultiAp()).None? <==> forall i :: 0 <= i < |t| ==> t[i].attrs.mode != MultiApMode
  {
    assert forall i :: 0 <= i < |t| ==> (IsMultiAp()(t[i]) <==> t[i].attrs.mode == MultiApMode);
  }

  /** With no interface in `multi_ap` mode, the replace deletes nothing and
      posts the `wifi-iface` interface. */
  lemma {:induction false} ReplaceMultiApWhenNone(t: seq<Entry<Interface>>, g: int, d: int, p: int)
    requires Succeeded(Get, g)
    requires forall i :: 0 <= i < |t| ==> t[i].attrs.mode != MultiApMode
    ensures var c := ReplaceMultiAp(t, g, d, p);
      && c.requests == [ListInterfaces, Request(Post, WirelessInterfacesPath, InterfaceBody(MultiApInterface))]
      && c.table == if Succeeded(Post, p) then InsertById(t, MultiApInterface) else t
  {
    MultiApAbsent(t);
  }

  /** The replace deletes only the first interface in `multi_ap` mode, by
      its id; it issues no POST when that DELETE fails, and otherwise
      exactly one POST of the `wifi-iface` interface. */
  lemma {:induction false} ReplaceMultiApDeletesFirst(t: seq<Entry<Interface>>, g: int, d: int, p: int)
    requires DistinctIds(t) && Succeeded(Get, g)
    requires exists i :: 0 <= i < |t| && t[i].attrs.mode == MultiApMode
    ensures var c := ReplaceMultiAp(t, g, d, p);
      exists i :: (0 <= i < |t| && t[i].attrs.mode == MultiApMode && (forall j :: 0 <= j < i ==> t[j].attrs.mode != MultiApMode)
        && (!Succeeded(Delete, d) ==>
              c.requests == [ListInterfaces, Request(Delete, WirelessInterfacesPath, IdList([t[i].id]))] && c.table == t)
        && (Succeeded(Delete, d) ==>
              c.requests == [ListInterfaces, Request(Delete, WirelessInterfacesPath, IdList([t[i].id])),
                             Request(Post, WirelessInterfacesPath, InterfaceBody(MultiApInterface))]
              && c.table == if Succeeded(Post, p) then InsertById(t[..i] + t[i + 1..], MultiApInterface) else t[..i] + t[i + 1..]))
  {
    var i := FirstMultiAp(t);
    var c := ReplaceMultiAp(t, g, d, p);
    var remove := Request(Delete, WirelessInterfacesPath, IdList([t[i].id]));
    var create := Request(Post, WirelessInterfacesPath, InterfaceBody(MultiApInterface));
    if Succeeded(Delete, d) {
      DeleteIdAt(t, i);
      var rest := t[..i] + t[i + 1..];
      assert c == Step([ListInterfaces, remove, create], if Succeeded(Post, p) then InsertById(rest, MultiApInterface) else rest);
    } else {
      assert c == Step([ListInterfaces, remove], t);
    }
  }

  /** Without its first Multi-AP interface, a collection that held at most one holds none. */
  lemma {:induction false} RemoveOnlyMultiAp(t: seq<Entry<Interface>>, i: nat)
    requires i < |t| && t[i].attrs.mode == MultiApMode
    requires forall i, j :: 0 <= i < j < |t| && t[i].attrs.mode == MultiApMode ==> t[j].attrs.mode != MultiApMode
    requires forall j :: 0 <= j < i ==> t[j].attrs.mode != MultiApMode
    ensures var rest := t[..i] + t[i + 1..]; forall j :: 0 <= j < |rest| ==> rest[j].attrs.mode != MultiApMode
  {
    var rest := t[..i] + t[i + 1..];
    forall j | 0 <= j < |rest| ensures rest[j].attrs.mode != MultiApMode {
      if j >= i {
        assert rest[j] == t[j + 1];
      } else {
        assert rest[j] == t[j];
      }
    }
  }

  /** Posting `wifi-iface` into a collection with no Multi-AP interface leaves exactly one. */
  lemma {:induction false} InsertOnlyMultiAp(rest: seq<Entry<Interface>>)
    requires DistinctIds(rest)
    requires forall j :: 0 <= j < |rest| ==> rest[j].attrs.mode != MultiApMode
    ensures var after := InsertById(rest, MultiApInterface);
      && DistinctIds(after)
      && exists k :: (0 <= k < |after| && after[k] == MultiApInterface
           && forall j :: 0 <= j < |after| && j != k ==> after[j].attrs.mode != MultiApMode)
  {
    InsertByIdKeepsDistinct(rest, MultiApInterface);
    var after := InsertById(rest, MultiApInterface);
    if HasId(rest, MultiApInterface.id) {
      var k :| 0 <= k < |rest| && rest[k].id == MultiApInterface.id;
      UpdateIdAt(rest, k, MultiApInterface.attrs);
      assert after == rest[k := MultiApInterface];
      assert after[k] == MultiApInterface;
    } else {
      assert after == rest + [MultiApInterface];
      assert after[|rest|] == MultiApInterface;
    }
  }

  /** When the router held at most one Multi-AP interface and every request
      succeeds, it holds exactly one afterwards, the posted `wifi-iface`, and
      its ids stay distinct. */
  lemma {:induction false} ReplaceMultiApLeavesOne(t: seq<Entry<Interface>>, g: int, d: int, p: int)
    requires DistinctIds(t)
    requires forall i, j :: 0 <= i < j < |t| && t[i].attrs.mode == MultiApMode ==> t[j].attrs.mode != MultiApMode
    requires Succeeded(Get, g) && Succeeded(Delete, d) && Succeeded(Post, p)
    ensures var after := ReplaceMultiAp(t, g, d, p).table;
      && DistinctIds(after)
      && exists k :: (0 <= k < |after| && after[k] == MultiApInterface
           && forall j :: 0 <= j < |after| && j != k ==> after[j].attrs.mode != MultiApMode)
  {
    MultiApAbsent(t);
    match FirstIndex(t, IsMultiAp()) {
      case None =>
        InsertOnlyMultiAp(t);
      case Some(_) =>
        var i := FirstMultiAp(t);
        DeleteIdAt(t, i);
        DeleteIdsKeepsDistinct(t, [t[i].id]);
        RemoveOnlyMultiAp(t, i);
        InsertOnlyMultiAp(t[..i] + t[i + 1..]);
    }
  }

  // ----- _configure_static_leases -----

  function WipeLeases(t: seq<Entry<Lease>>, getStatus: int, deleteStatus: int): Step<Lease> {
    if !Succeeded(Get, getStatus) || |t| == 0 then Step([ListLeases], t)
    else Step([ListLeases, Request(Delete, StaticLeasesPath, IdList(Ids(t)))],
              if Succeeded(Delete, deleteStatus) then DeleteIds(t, Ids(t)) else t)
  }

  /** The lease reset sends at most one DELETE, naming every existing lease,
      and none for an empty collection; once it succeeds no lease is left. */
  lemma {:induction false} WipeLeasesEmpties(t: seq<Entry<Lease>>, g: int, d: int)
    ensures var c := WipeLeases(t, g, d);
      && c.requests[0] == ListLeases
      && (|t| == 0 || !Succeeded(Get, g) ==> c.requests == [ListLeases] && c.table == t)
      && (|t| > 0 && Succeeded(Get, g) ==>
            |c.requests| == 2 && c.requests[1].verb == Delete && c.requests[1].body.IdList?
            && (forall e :: e in t ==> e.id in c.requests[1].body.ids)
            && (forall id :: id in c.requests[1].body.ids ==> HasId(t, id)))
      && (Succeeded(Get, g) && (|t| == 0 || Succeeded(Delete, d)) ==> c.table == [])
  {
    DeleteAllIds(t, Ids(t));
    forall id | id in Ids(t) ensures HasId(t, id) {
      var k :| 0 <= k < |Ids(t)| && Ids(t)[k] == id;
      assert t[k].id == id;
    }
    forall e | e in t ensures e.id in Ids(t) {
      var k :| 0 <= k < |t| && t[k] == e;
      assert Ids(t)[k] == e.id;
    }
  }

  // ----- the order of factory_reset -----

  /** The status codes the router answers the requests of `factory_reset` with, in order. */
  datatype ResetReplies = ResetReplies(
    dhcp: int, wan: int, wwan: int, lan: int, firewall: int, ntp: int, gps: int,
    nmeaForwarding: int, nmeaRules: int, radios: int, radiosGlobal: int,
    defaultNames: int, interfacesGet: int, multiApDelete: int, multiApPost: int,
    leasesGet: int, leasesDelete: int)

  /** A step of two PUTs where the second is sent only when the first succeeded. */
  function PutPair(first: string, second: string, status: int): seq<Request> {
    [Request(Put, first, Fixed)] + if Succeeded(Put, status) then [Request(Put, second, Fixed)] else []
  }

  /** The interfaces as the Multi-AP step finds them: renamed when the PUT of the default names succeeded. */
  function NamedInterfaces(t: seq<Entry<Interface>>, model: string, serial: string, status: int): seq<Entry<Interface>> {
    if Succeeded(Put, status) then ApplySsidUpdates(t, DefaultSsids(model, serial)) else t
  }

  /** The requests of the first nine steps of `factory_reset`, whose payloads are constants. */
  function FixedSegments(r: ResetReplies): seq<seq<Request>> {
    [ [Request(Put, DhcpServerLanPath, Fixed)],
      [Request(Put, InterfacesPath, Fixed)],
      [Request(Post, InterfacesPath, Fixed)],
      [Request(Put, InterfacesLanPath, Fixed)],
      [Request(Put, FirewallZone3Path, Fixed)],
      [Request(Put, NtpClientPath, Fixed)],
      [Request(Put, GpsGlobalPath, Fixed)],
      PutPair(NmeaForwardingPath, NmeaRulesPath, r.nmeaForwarding),
      PutPair(WirelessDevicesPath, WirelessDevicesGlobalPath, r.radios) ]
  }

  /** The requests of the last three steps, which depend on the robot and on the router's collections. */
  function TableSegments(model: string, serial: string, r: ResetReplies, interfaces: seq<Entry<Interface>>, leases: seq<Entry<Lease>>): seq<seq<Request>> {
    [ [Request(Put, WirelessInterfacesPath, SsidUpdates(DefaultSsids(model, serial)))],
      ReplaceMultiAp(NamedInterfaces(interfaces, model, serial, r.defaultNames), r.interfacesGet, r.multiApDelete, r.multiApPost).requests,
      WipeLeases(leases, r.leasesGet, r.leasesDelete).requests ]
  }

  /** The requests of the twelve steps of `factory_reset`, one segment per step. */
  function ResetSegments(model: string, serial: string, r: ResetReplies, interfaces: seq<Entry<Interface>>, leases: seq<Entry<Lease>>): seq<seq<Request>> {
    FixedSegments(r) + TableSegments(model, serial, r, interfaces, leases)
  }

  /** The first request of each step, in the order `factory_reset` calls the steps. */
  const StepStarts: seq<(Verb, string)> := [
    (Put, DhcpServerLanPath), (Put, InterfacesPath), (Post, InterfacesPath), (Put, InterfacesLanPath),
    (Put, FirewallZone3Path), (Put, NtpClientPath), (Put, GpsGlobalPath), (Put, NmeaForwardingPath),
    (Put, WirelessDevicesPath), (Put, WirelessInterfacesPath), (Get, WirelessInterfacesPath), (Get, StaticLeasesPath)]

  /** `prefix` followed by the segments from index `k` on, in order. */
  function AppendFrom<T>(prefix: seq<T>, segs: seq<seq<T>>, k: nat): seq<T>
    decreases |segs| - k
  {
    if k >= |segs| then prefix else AppendFrom(prefix + segs[k], segs, k + 1)
  }

  lemma {:induction false} AppendFromShift<T>(prefix: seq<T>, a: seq<seq<T>>, b: seq<seq<T>>, j: nat)
    requires j <= |b|
    ensures AppendFrom(prefix, a + b, |a| + j) == AppendFrom(prefix, b, j)
    decreases |b| - j
  {
    if j < |b| {
      assert (a + b)[|a| + j] == b[j];
      AppendFromShift(prefix + b[j], a, b, j + 1);
    }
  }

  /** Appending two lists of segments is appending the first, then the second. */
  lemma {:induction false} AppendFromConcat<T>(prefix: seq<T>, a: seq<seq<T>>, b: seq<seq<T>>, k: nat)
    requires k <= |a|
    ensures AppendFrom(prefix, a + b, k) == AppendFrom(AppendFrom(prefix, a, k), b, 0)
    decreases |a| - k
  {
    if k < |a| {
      assert (a + b)[k] == a[k];
      AppendFromConcat(prefix + a[k], a, b, k + 1);
    } else {
      AppendFromShift(prefix, a, b, 0);
    }
  }

  /** Whatever status the router answers, all twelve steps send their first request,
      in order: a failing step ends only itself. */
  lemma {:induction false} ResetRunsEveryStep(model: string, serial: string, r: ResetReplies, interfaces: seq<Entry<Interface>>, leases: seq<Entry<Lease>>)
    ensures var segs := ResetSegments(model, serial, r, interfaces, leases);
      && |segs| == |StepStarts| == 12
      && forall k :: 0 <= k < 12 ==> |segs[k]| > 0 && (segs[k][0].verb, segs[k][0].path) == StepStarts[k]
  {
    var named := NamedInterfaces(interfaces, model, serial, r.defaultNames);
    assert ReplaceMultiAp(named, r.interfacesGet, r.multiApDelete, r.multiApPost).requests[0] == ListInterfaces;
    assert WipeLeases(leases, r.leasesGet, r.leasesDelete).requests[0] == ListLeases;
  }

  /** The interfaces after `factory_reset`. */
  function ResetInterfaces(model: string, serial: string, r: ResetReplies, interfaces: seq<Entry<Interface>>): seq<Entry<Interface>> {
    ReplaceMultiAp(NamedInterfaces(interfaces, model, serial, r.defaultNames), r.interfacesGet, r.multiApDelete, r.multiApPost).table
  }

  /** The leases after `factory_reset`. */
  function ResetLeases(r: ResetReplies, leases: seq<Entry<Lease>>): seq<Entry<Lease>> {
    WipeLeases(leases, r.leasesGet, r.leasesDelete).table
  }

  /** A `factory_reset` every request of which succeeds, on a router with at
      most one Multi-AP interface, leaves no static lease and exactly one
      Multi-AP interface, the `wifi-iface` it posted. */
  lemma {:induction false} ResetAllSucceeded(model: string, serial: string, r: ResetReplies, interfaces: seq<Entry<Interface>>, leases: seq<Entry<Lease>>)
    requires DistinctIds(interfaces)
    requires forall i, j :: 0 <= i < j < |interfaces| && interfaces[i].attrs.mode == MultiApMode ==> interfaces[j].attrs.mode != MultiApMode
    requires Succeeded(Put, r.defaultNames) && Succeeded(Get, r.interfacesGet) && Succeeded(Delete, r.multiApDelete)
    requires Succeeded(Post, r.multiApPost) && Succeeded(Get, r.leasesGet) && Succeeded(Delete, r.leasesDelete)
    ensures ResetLeases(r, leases) == []
    ensures var after := ResetInterfaces(model, serial, r, interfaces);
      && DistinctIds(after)
      && exists k :: (0 <= k < |after| && after[k] == MultiApInterface
           && forall j :: 0 <= j < |after| && j != k ==> after[j].attrs.mode != MultiApMode)
  {
    WipeLeasesEmpties(leases, r.leasesGet, r.leasesDelete);
    var named := NamedInterfaces(interfaces, model, serial, r.defaultNames);
    IdsDetermineDistinct(interfaces, named);
    ReplaceMultiApLeavesOne(named, r.interfacesGet, r.multiApDelete, r.multiApPost);
  }
}
