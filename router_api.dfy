/** The RUTX11 REST API as the manager sees it: the endpoints it calls, the
    status codes each request method accepts as success, the requests it
    sends, and the router's collections (Multi-AP networks, wireless
    interfaces, static DHCP leases) as in-memory tables.

    Transport (HTTPS, bearer token, JSON) is not modelled.  A request takes
    the status code the router answers with as a parameter; the router's
    collection changes exactly when the manager's status check accepts that
    code, and every request is appended to `log`. */
module RouterApi {
  import opened Basics
  import opened Table

  // ----- RUTX11HTTPCommands -----
  const RebootPath := "/api/system/actions/reboot"
  const DhcpServerLanPath := "/api/dhcp/servers/ipv4/config/lan"
  const StaticLeasesPath := "/api/dhcp/static_leases/ipv4/config"
  const InterfacesPath := "/api/interfaces/config"
  const InterfacesLanPath := "/api/interfaces/config/lan"
  const WirelessDevicesPath := "/api/wireless/devices/config"
  const WirelessDevicesGlobalPath := "/api/wireless/devices/global"
  const WirelessInterfacesPath := "/api/wireless/interfaces/config"
  const MultiApPath := "/api/wireless/multi_ap/config"
  const GpsGlobalPath := "/api/gps/global"
  const NmeaForwardingPath := "/api/gps/nmea/config/nmea_forwarding"
  const NmeaRulesPath := "/api/gps/nmea/rules/config"
  const NtpClientPath := "/api/date_time/ntp/client/config/ntpclient"
  const FirewallZone3Path := "/api/firewall/zones/config/3"

  datatype Verb = Get | Put | Post | Delete

  /** The check `_request_get`, `_request_put`, `_request_post` and
      `_request_delete` apply to the response's status code. */
  predicate Succeeded(verb: Verb, status: int) {
    match verb
    case Post => status == 200 || status == 201
    case _ => status == 200
  }

  lemma {:induction false} AcceptedStatuses(verb: Verb, status: int)
    ensures verb != Post ==> (Succeeded(verb, status) <==> status == 200)
    ensures verb == Post ==> (Succeeded(verb, status) <==> status in {200, 201})
  {
  }

  // ----- entries of the three collections -----

  /** An entry of `/api/wireless/multi_ap/config`: an uplink network the router may join. */
  datatype Network = Network(ssid: string, key: string, enabled: string)

  /** An entry of `/api/wireless/interfaces/config`; `None` marks an option the entry does not set. */
  datatype Interface = Interface(
    mode: string, ssid: Option<string>, key: Option<string>,
    network: string, device: seq<string>, enabled: string, scanTime: string)

  /** An entry of `/api/dhcp/static_leases/ipv4/config`. */
  datatype Lease = Lease(ip: string, mac: string, name: string)

  /** One element of the bulk PUT that renames the default access points. */
  datatype SsidUpdate = SsidUpdate(id: string, ssid: string, key: string)

  /** The JSON body of a request.  `Fixed` stands for a constant payload
      (DHCP, WAN, LAN, firewall, NTP, GPS, NMEA, radios) whose fields are not modelled. */
  datatype Body =
    | Empty
    | NetworkBody(network: Network)
    | InterfaceBody(iface: Entry<Interface>)
    | LeaseBody(lease: Lease)
    | SsidUpdates(updates: seq<SsidUpdate>)
    | IdList(ids: seq<string>)
    | Fixed

  datatype Request = Request(verb: Verb, path: string, body: Body)

  /** The bulk PUT of interface settings: each update sets `ssid` and `key` of the entry with its id. */
  function ApplySsidUpdates(t: seq<Entry<Interface>>, us: seq<SsidUpdate>): (r: seq<Entry<Interface>>)
    ensures Ids(r) == Ids(t)
    ensures |r| == |t| && forall i :: 0 <= i < |t| ==> r[i].attrs.mode == t[i].attrs.mode
    decreases |us|
  {
    if |us| == 0 then t
    else ApplySsidUpdates(SetSsid(t, us[0]), us[1..])
  }

  function SetSsid(t: seq<Entry<Interface>>, u: SsidUpdate): (r: seq<Entry<Interface>>)
    ensures Ids(r) == Ids(t)
    ensures |r| == |t| && forall i :: 0 <= i < |t| ==> r[i].attrs.mode == t[i].attrs.mode
    ensures forall i :: 0 <= i < |t| ==> r[i] == if t[i].id == u.id then Entry(t[i].id, t[i].attrs.(ssid := Some(u.ssid), key := Some(u.key))) else t[i]
  {
    if |t| == 0 then []
    else
      var e := t[0];
      var e' := if e.id == u.id then Entry(e.id, e.attrs.(ssid := Some(u.ssid), key := Some(u.key))) else e;
      [e'] + SetSsid(t[1..], u)
  }

  lemma {:induction false} IdsDetermineDistinct<A, B>(t: seq<Entry<A>>, u: seq<Entry<B>>)
    requires Ids(t) == Ids(u)
    ensures DistinctIds(t) <==> DistinctIds(u)
  {
    assert forall i :: 0 <= i < |t| ==> t[i].id == Ids(t)[i] == u[i].id;
  }

  /** The router's collections and the requests it has been sent. */
  class Router {
    var networks: seq<Entry<Network>>
    var interfaces: seq<Entry<Interface>>
    var leases: seq<Entry<Lease>>
    var log: seq<Request>

    ghost predicate Valid()
      reads this
    {
      DistinctIds(networks) && DistinctIds(interfaces) && DistinctIds(leases)
    }

    constructor (networks: seq<Entry<Network>>, interfaces: seq<Entry<Interface>>, leases: seq<Entry<Lease>>)
      requires DistinctIds(networks) && DistinctIds(interfaces) && DistinctIds(leases)
      ensures Valid()
      ensures this.networks == networks && this.interfaces == interfaces && this.leases == leases
      ensures log == []
    {
      this.networks, this.interfaces, this.leases := networks, interfaces, leases;
      log := [];
    }

    /** A request to a singleton resource with a constant payload: only logged. */
    method Send(verb: Verb, path: string, body: Body, status: int) returns (ok: bool)
      modifies this`log
      ensures ok == Succeeded(verb, status)
      ensures log == old(log) + [Request(verb, path, body)]
    {
      log := log + [Request(verb, path, body)];
      ok := Succeeded(verb, status);
    }

    method GetNetworks(status: int) returns (ok: bool, data: seq<Entry<Network>>)
      modifies this`log
      ensures ok == Succeeded(Get, status)
      ensures data == if ok then networks else []
      ensures log == old(log) + [Request(Get, MultiApPath, Empty)]
    {
      ok := Send(Get, MultiApPath, Empty, status);
      data := if ok then networks else [];
    }

    /** PUT `/api/wireless/multi_ap/config/<id>`. */
    method PutNetwork(id: string, n: Network, status: int) returns (ok: bool)
      requires Valid()
      modifies this`log, this`networks
      ensures Valid()
      ensures ok == Succeeded(Put, status)
      ensures networks == if ok then UpdateId(old(networks), id, n) else old(networks)
      ensures log == old(log) + [Request(Put, MultiApPath + "/" + id, NetworkBody(n))]
    {
      ok := Send(Put, MultiApPath + "/" + id, NetworkBody(n), status);
      if ok {
        IdsDetermineDistinct(networks, UpdateId(networks, id, n));
        networks := UpdateId(networks, id, n);
      }
    }

    /** POST `/api/wireless/multi_ap/config`; the router picks the new entry's id. */
    method PostNetwork(n: Network, status: int) returns (ok: bool)
      requires Valid()
      modifies this`log, this`networks
      ensures Valid()
      ensures ok == Succeeded(Post, status)
      ensures networks == if ok then old(networks) + [Entry(FreshId(old(networks)), n)] else old(networks)
      ensures log == old(log) + [Request(Post, MultiApPath, NetworkBody(n))]
    {
      ok := Send(Post, MultiApPath, NetworkBody(n), status);
      if ok {
        networks := networks + [Entry(FreshId(networks), n)];
      }
    }

    /** DELETE `/api/wireless/multi_ap/config/<id>`. */
    method DeleteNetwork(id: string, status: int) returns (ok: bool)
      requires Valid()
      modifies this`log, this`networks
      ensures Valid()
      ensures ok == Succeeded(Delete, status)
      ensures networks == if ok then DeleteIds(old(networks), [id]) else old(networks)
      ensures log == old(log) + [Request(Delete, MultiApPath + "/" + id, Empty)]
    {
      ok := Send(Delete, MultiApPath + "/" + id, Empty, status);
      if ok {
        DeleteIdsKeepsDistinct(networks, [id]);
        networks := DeleteIds(networks, [id]);
      }
    }

    method GetInterfaces(status: int) returns (ok: bool, data: seq<Entry<Interface>>)
      modifies this`log
      ensures ok == Succeeded(Get, status)
      ensures data == if ok then interfaces else []
      ensures log == old(log) + [Request(Get, WirelessInterfacesPath, Empty)]
    {
      ok := Send(Get, WirelessInterfacesPath, Empty, status);
      data := if ok then interfaces else [];
    }

    /** The bulk PUT of `/api/wireless/interfaces/config`. */
    method PutInterfaces(us: seq<SsidUpdate>, status: int) returns (ok: bool)
      requires Valid()
      modifies this`log, this`interfaces
      ensures Valid()
      ensures ok == Succeeded(Put, status)
      ensures interfaces == if ok then ApplySsidUpdates(old(interfaces), us) else old(interfaces)
      ensures log == old(log) + [Request(Put, WirelessInterfacesPath, SsidUpdates(us))]
    {
      ok := Send(Put, WirelessInterfacesPath, SsidUpdates(us), status);
      if ok {
        IdsDetermineDistinct(interfaces, ApplySsidUpdates(interfaces, us));
        interfaces := ApplySsidUpdates(interfaces, us);
      }
    }

    /** The bulk DELETE of `/api/wireless/interfaces/config`. */
    method DeleteInterfaces(ids: seq<string>, status: int) returns (ok: bool)
      requires Valid()
      modifies this`log, this`interfaces
      ensures Valid()
      ensures ok == Succeeded(Delete, status)
      ensures interfaces == if ok then DeleteIds(old(interfaces), ids) else old(interfaces)
      ensures log == old(log) + [Request(Delete, WirelessInterfacesPath, IdList(ids))]
    {
      ok := Send(Delete, WirelessInterfacesPath, IdList(ids), status);
      if ok {
        DeleteIdsKeepsDistinct(interfaces, ids);
        interfaces := DeleteIds(interfaces, ids);
      }
    }

    /** POST `/api/wireless/interfaces/config` with the id given in the payload. */
    method PostInterface(e: Entry<Interface>, status: int) returns (ok: bool)
      requires Valid()
      modifies this`log, this`interfaces
      ensures Valid()
      ensures ok == Succeeded(Post, status)
      ensures interfaces == if ok then InsertById(old(interfaces), e) else old(interfaces)
      ensures log == old(log) + [Request(Post, WirelessInterfacesPath, InterfaceBody(e))]
    {
      ok := Send(Post, WirelessInterfacesPath, InterfaceBody(e), status);
      if ok {
        InsertByIdKeepsDistinct(interfaces, e);
        interfaces := InsertById(interfaces, e);
      }
    }

    method GetLeases(status: int) returns (ok: bool, data: seq<Entry<Lease>>)
      modifies this`log
      ensures ok == Succeeded(Get, status)
      ensures data == if ok then leases else []
      ensures log == old(log) + [Request(Get, StaticLeasesPath, Empty)]
    {
      ok := Send(Get, StaticLeasesPath, Empty, status);
      data := if ok then leases else [];
    }

    /** The bulk DELETE of `/api/dhcp/static_leases/ipv4/config`. */
    method DeleteLeases(ids: seq<string>, status: int) returns (ok: bool)
      requires Valid()
      modifies this`log, this`leases
      ensures Valid()
      ensures ok == Succeeded(Delete, status)
      ensures leases == if ok then DeleteIds(old(leases), ids) else old(leases)
      ensures log == old(log) + [Request(Delete, StaticLeasesPath, IdList(ids))]
    {
      ok := Send(Delete, StaticLeasesPath, IdList(ids), status);
      if ok {
        DeleteIdsKeepsDistinct(leases, ids);
        leases := DeleteIds(leases, ids);
      }
    }

    /** POST `/api/dhcp/static_leases/ipv4/config`; the router picks the new lease's id. */
    method PostLease(l: Lease, status: int) returns (ok: bool)
      requires Valid()
      modifies this`log, this`leases
      ensures Valid()
      ensures ok == Succeeded(Post, status)
      ensures leases == if ok then old(leases) + [Entry(FreshId(old(leases)), l)] else old(leases)
      ensures log == old(log) + [Request(Post, StaticLeasesPath, LeaseBody(l))]
    {
      ok := Send(Post, StaticLeasesPath, LeaseBody(l), status);
      if ok {
        leases := leases + [Entry(FreshId(leases), l)];
      }
    }
  }
}
