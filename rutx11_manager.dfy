/** `RUTX11Manager`: the operations that reconcile the router's configuration,
    written as the step-by-step request sequences they are, each proved to
    leave the router and its request log as the matching function of
    `Rutx11Spec` says.  The status code of every response is a parameter. */
module Rutx11 {
  import opened Basics
  import opened Table
  import opened RouterApi
  import opened Rutx11Spec

  class Rutx11Manager {
    /** The router the manager is logged in to. */
    const router: Router
    var robotModel: string
    var robotSerialNumber: string

    constructor (router: Router)
      ensures this.router == router
      ensures robotModel == "" && robotSerialNumber == ""
    {
      this.router := router;
      robotModel, robotSerialNumber := "", "";
    }

    /** `add_wifi_network`: update the first network with the SSID, or create one. */
    method AddWifiNetwork(ssid: string, password: string, getStatus: int, writeStatus: int) returns (outcome: Outcome)
      requires router.Valid()
      modifies router`log, router`networks
      ensures router.Valid()
      ensures var c := AddNetwork(old(router.networks), ssid, password, getStatus, writeStatus);
        && router.networks == c.table && router.log == old(router.log) + c.requests && outcome == c.outcome
    {
      var ok, data := router.GetNetworks(getStatus);
      if !ok {
        return Failure(GetNetworksFailed);
      }
      var n := NetworkPayload(ssid, password);
      for k := 0 to |data|
        invariant forall j :: 0 <= j < k ==> data[j].attrs.ssid != ssid
        invariant router.networks == data == old(router.networks)
        invariant router.log == old(router.log) + [ListNetworks]
      {
        if data[k].attrs.ssid == ssid {
          FirstIndexAt(data, HasSsid(ssid), k);
          AppendPair(old(router.log), ListNetworks, Request(Put, MultiApPath + "/" + data[k].id, NetworkBody(n)));
          ok := router.PutNetwork(data[k].id, n, writeStatus);
          if !ok {
            return Failure(UpdateNetworkFailed);
          }
          return Success;
        }
      }
      SsidAbsent(data, ssid);
      AppendPair(old(router.log), ListNetworks, Request(Post, MultiApPath, NetworkBody(n)));
      ok := router.PostNetwork(n, writeStatus);
      if !ok {
        return Failure(AddNetworkFailed);
      }
      return Success;
    }

    /** `remove_wifi_network`: delete the first network with the SSID, if any. */
    method RemoveWifiNetwork(ssid: string, getStatus: int, deleteStatus: int) returns (outcome: Outcome)
      requires router.Valid()
      modifies router`log, router`networks
      ensures router.Valid()
      ensures var c := RemoveNetwork(old(router.networks), ssid, getStatus, deleteStatus);
        && router.networks == c.table && router.log == old(router.log) + c.requests && outcome == c.outcome
    {
      var ok, data := router.GetNetworks(getStatus);
      if !ok {
        return Failure(GetNetworksFailed);
      }
      for k := 0 to |data|
        invariant forall j :: 0 <= j < k ==> data[j].attrs.ssid != ssid
        invariant router.networks == data == old(router.networks)
        invariant router.log == old(router.log) + [ListNetworks]
      {
        if data[k].attrs.ssid == ssid {
          FirstIndexAt(data, HasSsid(ssid), k);
          AppendPair(old(router.log), ListNetworks, Request(Delete, MultiApPath + "/" + data[k].id, Empty));
          ok := router.DeleteNetwork(data[k].id, deleteStatus);
          if !ok {
            return Failure(RemoveNetworkFailed);
          }
          return Success;
        }
      }
      SsidAbsent(data, ssid);
      return Success;
    }

    /** `add_static_lease`: validate the input, then create the lease. */
    method AddStaticLease(ip: string, mac: string, name: string, postStatus: int) returns (outcome: Outcome)
      requires router.Valid()
      modifies router`log, router`leases
      ensures router.Valid()
      ensures var c := AddLease(old(router.leases), ip, mac, name, postStatus);
        && router.leases == c.table && router.log == old(router.log) + c.requests && outcome == c.outcome
    {
      if ip == "" || mac == "" || name == "" {
        return Failure(LeaseFieldsRequired);
      }
      var ipParts := Split(ip, '.');
      if |ipParts| != 4 {
        return Failure(InvalidIp);
      }
      var macParts := Split(mac, ':');
      if |macParts| != 6 {
        return Failure(InvalidMac);
      }
      var ok := router.PostLease(Lease(ip, mac, name), postStatus);
      if !ok {
        return Failure(AddLeaseFailed);
      }
      return Success;
    }

    /** `reboot`: one POST; a failure is only reported. */
    method Reboot(status: int)
      modifies router`log
      ensures router.log == old(router.log) + [Request(Post, RebootPath, Empty)]
    {
      var ok := router.Send(Post, RebootPath, Empty, status);
    }

    /** `factory_reset`: check the arguments, remember them, then run the
        twelve configuration steps in order, each of which gives up on its
        own failure without stopping the others. */
    method FactoryReset(model: string, serial: string, r: ResetReplies) returns (outcome: Outcome)
      requires router.Valid()
      modifies this`robotModel, this`robotSerialNumber, router`log, router`interfaces, router`leases
      ensures router.Valid()
      ensures router.networks == old(router.networks)
      ensures ResetArgsError(model, serial).Some? ==>
        && outcome == Failure(ResetArgsError(model, serial).value)
        && router.log == old(router.log) && router.interfaces == old(router.interfaces) && router.leases == old(router.leases)
        && robotModel == old(robotModel) && robotSerialNumber == old(robotSerialNumber)
      ensures ResetArgsError(model, serial).None? ==>
        && outcome == Success && robotModel == model && robotSerialNumber == serial
        && router.log == AppendFrom(old(router.log), ResetSegments(model, serial, r, old(router.interfaces), old(router.leases)), 0)
        && router.interfaces == ResetInterfaces(model, serial, r, old(router.interfaces))
        && router.leases == ResetLeases(r, old(router.leases))
    {
      if model != "PTH" && model != "LNX" {
        return Failure(InvalidModel);
      }
      if |serial| != 4 {
        return Failure(InvalidSerial);
      }
      robotModel := model;
      robotSerialNumber := serial;
      // `goal` is the log the whole reset produces; after each step it is
      // the current log followed by the segments of the steps still to run.
      ghost var tail := TableSegments(model, serial, r, router.interfaces, router.leases);
      ghost var goal := AppendFrom(router.log, ResetSegments(model, serial, r, router.interfaces, router.leases), 0);
      AppendFromConcat(router.log, FixedSegments(r), tail, 0);
      ApplyFixedSettings(r);
      assert goal == AppendFrom(router.log, tail, 0);
      ConfigureWirelessInterfaces(r.defaultNames);
      assert goal == AppendFrom(router.log, tail, 1);
      ConfigureMultiApInterface(r.interfacesGet, r.multiApDelete, r.multiApPost);
      assert goal == AppendFrom(router.log, tail, 2);
      ConfigureStaticLeases(r.leasesGet, r.leasesDelete);
      assert goal == AppendFrom(router.log, tail, 3);
      return Success;
    }

    /** The first nine steps of `factory_reset`, whose payloads are constants. */
    method ApplyFixedSettings(r: ResetReplies)
      modifies router`log
      ensures router.log == AppendFrom(old(router.log), FixedSegments(r), 0)
    {
      ghost var segs := FixedSegments(r);
      ghost var goal := AppendFrom(router.log, segs, 0);
      ConfigureDhcp(r.dhcp);
      assert goal == AppendFrom(router.log, segs, 1);
      ConfigureInterfacesWan(r.wan);
      assert goal == AppendFrom(router.log, segs, 2);
      ConfigureInterfacesWwan(r.wwan);
      assert goal == AppendFrom(router.log, segs, 3);
      ConfigureInterfacesLan(r.lan);
      assert goal == AppendFrom(router.log, segs, 4);
      ConfigureFirewall(r.firewall);
      assert goal == AppendFrom(router.log, segs, 5);
      ConfigureNtpClient(r.ntp);
      assert goal == AppendFrom(router.log, segs, 6);
      ConfigureGps(r.gps);
      assert goal == AppendFrom(router.log, segs, 7);
      ConfigureNmea(r.nmeaForwarding, r.nmeaRules);
      assert goal == AppendFrom(router.log, segs, 8);
      ConfigureWirelessDevices(r.radios, r.radiosGlobal);
      assert goal == AppendFrom(router.log, segs, 9);
    }

    method ConfigureDhcp(status: int)
      modifies router`log
      ensures router.log == old(router.log) + [Request(Put, DhcpServerLanPath, Fixed)]
    {
      var ok := router.Send(Put, DhcpServerLanPath, Fixed, status);
    }

    /** Disables `wan` and `wan6` with one PUT to the interfaces collection. */
    method ConfigureInterfacesWan(status: int)
      modifies router`log
      ensures router.log == old(router.log) + [Request(Put, InterfacesPath, Fixed)]
    {
      var ok := router.Send(Put, InterfacesPath, Fixed, status);
    }

    /** Creates the `wwan` interface with one POST to the interfaces collection. */
    method ConfigureInterfacesWwan(status: int)
      modifies router`log
      ensures router.log == old(router.log) + [Request(Post, InterfacesPath, Fixed)]
    {
      var ok := router.Send(Post, InterfacesPath, Fixed, status);
    }

    method ConfigureInterfacesLan(status: int)
      modifies router`log
      ensures router.log == old(router.log) + [Request(Put, InterfacesLanPath, Fixed)]
    {
      var ok := router.Send(Put, InterfacesLanPath, Fixed, status);
    }

    method ConfigureFirewall(status: int)
      modifies router`log
      ensures router.log == old(router.log) + [Request(Put, FirewallZone3Path, Fixed)]
    {
      var ok := router.Send(Put, FirewallZone3Path, Fixed, status);
    }

    method ConfigureNtpClient(status: int)
      modifies router`log
      ensures router.log == old(router.log) + [Request(Put, NtpClientPath, Fixed)]
    {
      var ok := router.Send(Put, NtpClientPath, Fixed, status);
    }

    method ConfigureGps(status: int)
      modifies router`log
      ensures router.log == old(router.log) + [Request(Put, GpsGlobalPath, Fixed)]
    {
      var ok := router.Send(Put, GpsGlobalPath, Fixed, status);
    }

    /** NMEA forwarding, then the NMEA rules only if forwarding was accepted. */
    method ConfigureNmea(forwardingStatus: int, rulesStatus: int)
      modifies router`log
      ensures router.log == old(router.log) + PutPair(NmeaForwardingPath, NmeaRulesPath, forwardingStatus)
    {
      var ok := router.Send(Put, NmeaForwardingPath, Fixed, forwardingStatus);
      if !ok {
        return;
      }
      ok := router.Send(Put, NmeaRulesPath, Fixed, rulesStatus);
    }

    /** The radio channels, then the country only if the channels were accepted. */
    method ConfigureWirelessDevices(devicesStatus: int, globalStatus: int)
      modifies router`log
      ensures router.log == old(router.log) + PutPair(WirelessDevicesPath, WirelessDevicesGlobalPath, devicesStatus)
    {
      var ok := router.Send(Put, WirelessDevicesPath, Fixed, devicesStatus);
      if !ok {
        return;
      }
      ok := router.Send(Put, WirelessDevicesGlobalPath, Fixed, globalStatus);
    }

    /** Renames the two default access points after the robot. */
    method ConfigureWirelessInterfaces(status: int)
      requires router.Valid()
      modifies router`log, router`interfaces
      ensures router.Valid()
      ensures router.log == old(router.log) + [Request(Put, WirelessInterfacesPath, SsidUpdates(DefaultSsids(robotModel, robotSerialNumber)))]
      ensures router.interfaces == NamedInterfaces(old(router.interfaces), robotModel, robotSerialNumber, status)
    {
      var ok := router.PutInterfaces(DefaultSsids(robotModel, robotSerialNumber), status);
    }

    /** Replaces the first Multi-AP interface by `wifi-iface`. */
    method ConfigureMultiApInterface(getStatus: int, deleteStatus: int, postStatus: int)
      requires router.Valid()
      modifies router`log, router`interfaces
      ensures router.Valid()
      ensures var s := ReplaceMultiAp(old(router.interfaces), getStatus, deleteStatus, postStatus);
        && router.interfaces == s.table && router.log == old(router.log) + s.requests
    {
      var ok, data := router.GetInterfaces(getStatus);
      if !ok {
        return;
      }
      var k := 0;
      while k < |data|
        invariant 0 <= k <= |data|
        invariant forall j :: 0 <= j < k ==> data[j].attrs.mode != MultiApMode
        invariant router.interfaces == data == old(router.interfaces)
        invariant router.log == old(router.log) + [ListInterfaces]
      {
        if data[k].attrs.mode == MultiApMode {
          FirstIndexAt(data, IsMultiAp(), k);
          var remove := Request(Delete, WirelessInterfacesPath, IdList([data[k].id]));
          AppendPair(old(router.log), ListInterfaces, remove);
          AppendTriple(old(router.log), ListInterfaces, remove, Request(Post, WirelessInterfacesPath, InterfaceBody(MultiApInterface)));
          ok := router.DeleteInterfaces([data[k].id], deleteStatus);
          if !ok {
            return;
          }
          break;
        }
        k := k + 1;
      }
      ghost var found := k < |data|;
      if !found {
        MultiApAbsent(data);
        AppendPair(old(router.log), ListInterfaces, Request(Post, WirelessInterfacesPath, InterfaceBody(MultiApInterface)));
      }
      ok := router.PostInterface(MultiApInterface, postStatus);
    }

    /** Deletes every static lease with one request, or none when there is none. */
    method ConfigureStaticLeases(getStatus: int, deleteStatus: int)
      requires router.Valid()
      modifies router`log, router`leases
      ensures router.Valid()
      ensures var s := WipeLeases(old(router.leases), getStatus, deleteStatus);
        && router.leases == s.table && router.log == old(router.log) + s.requests
    {
      var ok, data := router.GetLeases(getStatus);
      if !ok {
        return;
      }
      if |data| > 0 {
        ok := router.DeleteLeases(Ids(data), deleteStatus);
      }
    }
  }
}
