# RUTX11 router setup, modelled in Dafny

This project models the parts of the Husarion router-setup tools that decide
what gets configured on a Teltonika RUTX11 router:

- `RUTX11Manager` (`rutx11_manager.py`) talks to the router over its REST
  API. It sets up the router for a Panther or Lynx robot (`factory_reset`
  and its twelve configuration steps). It adds, updates and removes Multi-AP
  uplink networks. It adds static DHCP leases and reboots the router.
- `setup_wifi.py` and `setup.py` read the `wifi_client` records of
  `config.json` and validate them in place. They turn the records into UCI
  commands (`set_multi_wifi`) with priorities 1..n. They pick the client
  radio from `wifi_client_radio` and send one shell command over SSH. That
  command deletes the old `multi_wifi` list and writes the new one,
  switching the radio when needed.

The model has these modules:

- `Basics`: Option, "first element that satisfies", Python's `str.split`
  and `str.join` for a one-character separator, and `"".join`.
- `Table`: the router's collections as sequences of entries keyed by id,
  with what a DELETE, PUT or POST by id does to them.
- `RouterApi`:
  - the endpoints and the success check the manager applies to each
    request method's status code;
  - the request bodies;
  - a `Router` class that holds the three collections the manager reads
    and changes, plus the log of requests sent to it.
- `Rutx11Spec`: each manager operation as a function of the router's
  collections and the status codes of the replies. It gives the requests
  sent, the collection afterwards and whether the operation raised. Lemmas
  state the reconciliation properties.
- `Rutx11`: the `Rutx11Manager` class. Its methods send requests one by
  one, and each is proved to leave the log and the collections as the
  matching `Rutx11Spec` function says.
- `MultiWifi`: the logic both scripts share. That covers the per-record
  validation rule, `set_multi_wifi`, the accumulated client command and
  its read-back, the radio choice, the radio switch and the whole command.
- `SetupWifi` and `Setup`: the loops of each script. They cover the
  validator, which updates the record list (an `array`) in place, and the
  priority loop. `SetupWifi` uses `enumerate`; `Setup` uses hand-kept
  `index` and `priority` counters. A last method covers the
  client-configuration section. Each is proved against the `MultiWifi`
  functions.

A reply's status code is an input everywhere. A router collection changes
exactly when the manager's status check accepts the code.

## Model

| member | source | states |
|---|---|---|
| RouterApi.AcceptedStatuses | rutx11_manager.py:439-497 | GET, PUT and DELETE succeed exactly on status 200; POST succeeds exactly on 200 or 201 |
| RouterApi.Router.Send | rutx11_manager.py:439-497 | a request is appended to the log, and its success is the status check of its method |
| RouterApi.Router.GetNetworks | rutx11_manager.py:77 | one GET of the Multi-AP networks; on an accepted status it returns the router's networks, otherwise nothing |
| RouterApi.Router.PutNetwork | rutx11_manager.py:92-94 | one PUT to the network's id; the networks change exactly when the status is accepted, and then only the entry with that id takes the payload; ids stay distinct |
| RouterApi.Router.PostNetwork | rutx11_manager.py:102 | one POST to the networks; exactly when the status is accepted, the payload is appended at the end under a fresh id |
| RouterApi.Router.DeleteNetwork | rutx11_manager.py:115-117 | one DELETE of the network's id; exactly when the status is accepted, the entry with that id is removed and the others keep their order |
| RouterApi.Router.GetInterfaces | rutx11_manager.py:390 | one GET of the wireless interfaces; on an accepted status it returns the router's interfaces, otherwise nothing |
| RouterApi.Router.PutInterfaces | rutx11_manager.py:382 | one bulk PUT; exactly when the status is accepted, each update sets `ssid` and `key` of the entry with its id; ids stay distinct |
| RouterApi.Router.DeleteInterfaces | rutx11_manager.py:398-400 | one bulk DELETE naming the ids; exactly when the status is accepted, the entries with those ids are removed |
| RouterApi.Router.PostInterface | rutx11_manager.py:417 | one POST of an interface carrying its own id; exactly when the status is accepted, it replaces any entry with that id or is appended |
| RouterApi.Router.GetLeases | rutx11_manager.py:425 | one GET of the static leases; on an accepted status it returns the router's leases, otherwise nothing |
| RouterApi.Router.DeleteLeases | rutx11_manager.py:432 | one bulk DELETE naming the ids; exactly when the status is accepted, the leases with those ids are removed |
| RouterApi.Router.PostLease | rutx11_manager.py:147 | one POST of the lease; exactly when the status is accepted, it is appended at the end under a fresh id |
| Rutx11Spec.AddNetworkRequests | rutx11_manager.py:76-106 | `add_wifi_network` first lists the networks; if the list fails it writes nothing and raises "Failed to get WiFi networks"; otherwise it sends exactly one write: a PUT of `{enabled: "1", ssid, key}` to the first network with the SSID when there is one, a POST to the collection when there is none |
| Rutx11Spec.AddNetworkUpdatesFirstMatchOnly | rutx11_manager.py:89-100 | a successful update rewrites only the first network with the SSID, keeping its id |
| Rutx11Spec.AddNetworkNoDuplicates | rutx11_manager.py:76-106 | after a successful add, ids stay distinct. A new SSID gives exactly one new entry at the end. An existing SSID keeps the size and ids, and the same entries carry it as before |
| Rutx11Spec.AddNetworkPlaces | rutx11_manager.py:76-106 | after a successful add, the payload sits at an index before which no network has the SSID |
| Rutx11Spec.AddNetworkPresent | rutx11_manager.py:89-100 | when the first network with the SSID already carries the payload, the add takes the PUT branch and changes nothing |
| Rutx11Spec.AddNetworkIdempotent | rutx11_manager.py:76-106 | adding the same network again after a successful add sends a PUT, not a POST, and leaves the collection as it is |
| Rutx11Spec.RemoveAbsentIsNoop | rutx11_manager.py:108-125 | removing an SSID no network has sends only the list request, changes nothing and does not raise |
| Rutx11Spec.RemoveNetworkFirstMatchOnly | rutx11_manager.py:113-123 | a successful removal sends one DELETE, by id, of the first network with the SSID, and removes exactly that entry, keeping the others in order |
| Rutx11Spec.LeaseInputAccepted | rutx11_manager.py:127-137 | the lease input passes exactly when ip, mac and name are non-empty, the IP has three dots (four parts) and the MAC five colons (six parts); the parts join back to the input |
| Basics.SplitPieces | rutx11_manager.py:131-136 | `str.split(sep)` gives one part more than there are separators, and no part holds the separator |
| Basics.JoinSplit | rutx11_manager.py:131-136 | joining the parts of `str.split(sep)` with `sep` gives the original string |
| Rutx11Spec.DefaultSsidsShape | rutx11_manager.py:365-379 | the two default access points are renamed prefix+serial (`default_radio0`) and prefix+"5G_"+serial (`default_radio1`), both with key "husarion"; the prefix is "Lynx_" exactly for model LNX, "Panther_" otherwise |
| Rutx11Spec.DefaultSsidsDistinct | rutx11_manager.py:365-379 | for serials of one length, a default SSID determines the band, the serial and whether the robot is a Lynx |
| Rutx11Spec.DefaultSsidsInstalled | rutx11_manager.py:364-387 | after the bulk PUT, the entries with the two default ids carry the derived SSIDs and the key, and the other entries are unchanged |
| Rutx11Spec.ReplaceMultiApWhenNone | rutx11_manager.py:389-422 | with no interface in `multi_ap` mode nothing is deleted, and the `wifi-iface` interface is posted once |
| Rutx11Spec.ReplaceMultiApDeletesFirst | rutx11_manager.py:395-420 | only the first `multi_ap` interface is deleted, by id. If that DELETE fails, no POST follows and nothing changes. Otherwise exactly one POST of `wifi-iface` follows |
| Rutx11Spec.ReplaceMultiApLeavesOne | rutx11_manager.py:389-422 | when every request succeeds on a router with at most one `multi_ap` interface, exactly one remains, `wifi-iface`, and ids stay distinct |
| Rutx11Spec.WipeLeasesEmpties | rutx11_manager.py:424-437 | the lease reset sends one DELETE naming every existing lease, or none for an empty list; once it succeeds no lease is left |
| Rutx11Spec.ResetRunsEveryStep | rutx11_manager.py:58-69 | whatever status the router answers, all twelve configuration steps send their first request, in the fixed order; a failing step ends only itself |
| Rutx11Spec.ResetAllSucceeded | rutx11_manager.py:48-69 | a reset in which every request succeeds, on a router with at most one Multi-AP interface, leaves no static lease and exactly one Multi-AP interface, `wifi-iface` |
| Rutx11.Rutx11Manager.FactoryReset | rutx11_manager.py:48-69 | a model other than PTH or LNX, or a serial whose length is not 4, raises with the source's message and changes nothing. Otherwise it records model and serial and leaves the log and the collections as the twelve steps in order produce them |
| Rutx11.Rutx11Manager.ApplyFixedSettings | rutx11_manager.py:58-66 | the first nine steps send their constant requests in order |
| Rutx11.Rutx11Manager.ConfigureDhcp | rutx11_manager.py:189-197 | one PUT to the LAN DHCP server |
| Rutx11.Rutx11Manager.ConfigureInterfacesWan | rutx11_manager.py:199-216 | one PUT to the interfaces collection |
| Rutx11.Rutx11Manager.ConfigureInterfacesWwan | rutx11_manager.py:218-234 | one POST to the interfaces collection |
| Rutx11.Rutx11Manager.ConfigureInterfacesLan | rutx11_manager.py:236-249 | one PUT to the LAN interface |
| Rutx11.Rutx11Manager.ConfigureFirewall | rutx11_manager.py:251-259 | one PUT to firewall zone 3 |
| Rutx11.Rutx11Manager.ConfigureNtpClient | rutx11_manager.py:261-276 | one PUT to the NTP client |
| Rutx11.Rutx11Manager.ConfigureGps | rutx11_manager.py:278-293 | one PUT to the GPS global settings |
| Rutx11.Rutx11Manager.ConfigureNmea | rutx11_manager.py:295-337 | a PUT of NMEA forwarding, then a PUT of the NMEA rules only if the first succeeded |
| Rutx11.Rutx11Manager.ConfigureWirelessDevices | rutx11_manager.py:339-362 | a PUT of the radio devices, then a PUT of the global device settings only if the first succeeded |
| Rutx11.Rutx11Manager.ConfigureWirelessInterfaces | rutx11_manager.py:364-387 | one bulk PUT of the two default names; the interfaces are renamed exactly when it succeeds |
| Rutx11.Rutx11Manager.ConfigureMultiApInterface | rutx11_manager.py:389-422 | the loop leaves the log and interfaces as `ReplaceMultiAp` says |
| Rutx11.Rutx11Manager.ConfigureStaticLeases | rutx11_manager.py:424-437 | leaves the log and leases as `WipeLeases` says |
| Rutx11.Rutx11Manager.AddWifiNetwork | rutx11_manager.py:76-106 | the loop leaves the log, the networks and the outcome as `AddNetwork` says |
| Rutx11.Rutx11Manager.RemoveWifiNetwork | rutx11_manager.py:108-125 | the loop leaves the log, the networks and the outcome as `RemoveNetwork` says |
| Rutx11.Rutx11Manager.AddStaticLease | rutx11_manager.py:127-151 | validation, then one POST; leaves the log, the leases and the outcome as `AddLease` says |
| Rutx11.Rutx11Manager.Reboot | rutx11_manager.py:71-74 | one POST to the reboot action, whatever the reply |
| MultiWifi.Validate | setup_wifi.py:28-51 | the validator stops at the first record with a problem, numbered from 1, with that problem; it passes exactly when no record has one |
| MultiWifi.NormalizeEntry | setup_wifi.py:37-51 | an accepted record keeps its SSID; a missing or empty password becomes `None`; any other password stays |
| MultiWifi.ValidateAccepts | setup_wifi.py:28-51 | the list passes exactly when every record has a non-empty string SSID and a password that is missing, empty or at least 8 characters long; every record is then ready for `set_multi_wifi` |
| MultiWifi.NullSsidPassesAsWritten | setup_wifi.py:31-32 | as written, a `null` SSID passes, and the command built for it sets the SSID to the text `None` |
| MultiWifi.NatToStringValue | setup_wifi.py:59 | `str(n)` of a priority is a non-empty string of digits that reads back as the number |
| MultiWifi.SetMultiWifiIsBlock | setup_wifi.py:53-60 | `set_multi_wifi` writes its block line by line, each line ended by a newline |
| MultiWifi.SetMultiWifiLines | setup_wifi.py:53-60 | for an SSID and password on one line each, the block's lines are the `add` line, the `ssid` line, the `key` line only when a password is given, the `enabled='1'` line and the `priority` line, in that order |
| MultiWifi.KeyLineIffPassword | setup_wifi.py:56-57 | for an SSID and password on one line each, a block has a line setting `key` exactly when the password is not `None` |
| MultiWifi.ClientCommandsSnoc | setup_wifi.py:80-81 | one more record adds its block to the command, with the next priority |
| MultiWifi.ClientCommandsRoundTrip | setup_wifi.py:80-81 | for SSIDs and passwords on one line each, the accumulated command reads back as one block per record, in list order, with priorities 1..n, the record's SSID and its password |
| MultiWifi.RadioChoiceAccepts | setup_wifi.py:84-92 | the accepted settings are exactly 0, 1, '0', '1' and absent; absent means radio 0; the chosen radio is "0" or "1" |
| MultiWifi.TrueRadioAcceptedAsWritten | setup_wifi.py:86 | as written, `true` passes the check and the radio becomes `True`, and `1.0` passes and the radio becomes `1.0` |
| MultiWifi.RadioSwitchIff | setup_wifi.py:105-106 | the radio switch is appended exactly when the device in use differs from `radio` + the choice, and it names that radio |
| MultiWifi.ReadUsedRadio | setup_wifi.py:99-104 | the loop over the output leaves the last line, or `None` when there is none |
| MultiWifi.ReconfigurePlanSends | setup_wifi.py:72-110 | a command is sent exactly when the section is present, the validator passes and the radio is accepted. For single-line records it is the delete loop, then one block per normalized record with priorities 1..n, then the radio switch, then commit and reload |
| SetupWifi.MultiWifiConfigValidator | setup_wifi.py:28-51 | the result is `Validate` of the input. On success every record is normalized in place; on a stop the records before it are normalized and the rest untouched |
| SetupWifi.BuildClientCommand | setup_wifi.py:80-81 | the `enumerate` loop builds the command of the records with priorities from 1 |
| SetupWifi.ReconfigureClients | setup_wifi.py:72-110 | the section's outcome is `ReconfigurePlan` of the input; when the validator passes, the records are normalized in place |
| Setup.MultiWifiConfigValidator | setup.py:26-51 | as in `setup_wifi.py`, with a hand-kept `index` counter equal to the 1-based position |
| Setup.BuildClientCommand | setup.py:80-83 | the hand-kept `priority` counter gives the same command as `enumerate` from 1 |
| Setup.ReconfigureClients | setup.py:72-112 | the section's outcome is `ReconfigurePlan` of the input; when the validator passes, the records are normalized in place |

`setup.py:26-60` repeats `setup_wifi.py:28-60` apart from the counters and
the console output, so the `MultiWifi` rows cover both scripts. The radio
rules of `setup.py` are at lines 86-94 and 107-108.

## Left out

- Transport and login: HTTPS, tokens and JSON decoding are not modelled. So are `_is_available` (ping), `__init__` and `_login`. Each reply is reduced to its status code and, for a GET, the router's current collection.
- Constant payloads: the first nine `factory_reset` steps send payloads whose fields are not modelled (`Fixed`). Only their method, path and order are.
- Console output, `click.secho` colours and the `debug_flag` prints are not modelled.
- SSH: connecting, `run_command`, `time.sleep`, the `ConnectionError` handler and the Husarnet part of the scripts are not modelled. The `uci get` output is a parameter, and the command is the plan's result.
- The delete loop at the front of the command is an opaque string. Its shell semantics are not modelled.
- Loading `config.json`: `open` and `json.load` failures and the CLI of `rutx11_manager.py` (`main`) are not modelled.
- JSON kinds other than strings, `null` and absence are not modelled for `ssid` and `password` (numbers, lists). Neither are Python comparisons between them. For the radio, integers, strings, booleans and floats are modelled. As written, the floats `0.0` and `1.0` pass the check and name the devices `radio0.0` and `radio1.0` (`RadioChoiceAsWritten`). A radio setting of any other kind is `OtherValue` and is refused.
- Error replies: on a refused status every `_request_*` prints `response.json()` (`rutx11_manager.py:449, 464, 479, 494`). The model assumes every error reply carries a JSON body. A body that is not JSON would raise there. Under `main`, which calls `factory_reset` without a `try`, that would stop the remaining steps, which `Rutx11Spec.ResetRunsEveryStep` does not cover.
- MultiWifi.ClientCommandsRoundTrip: holds only for SSID and password texts with no line end. The same holds for MultiWifi.SetMultiWifiLines, MultiWifi.KeyLineIffPassword and MultiWifi.ReconfigurePlanSends. The validator lets line ends and quotes through in both texts (`setup_wifi.py:31-51`), and `set_multi_wifi` pastes them into the shell command unescaped. So an SSID such as `a` + newline + `uci set multi_wifi.@wifi-iface[-1].key='x'` writes a key line for a record with no password. The model does not capture this newline and quote injection beyond that requirement.
- The `name` argument of the validator only appears in messages, so it is left out.
- Rutx11.Rutx11Manager.RemoveWifiNetwork: as written, `raise Exception(..., fg="red")` raises a `TypeError`. The model raises the intended message instead. The same holds for Rutx11.Rutx11Manager.AddStaticLease.
- SetupWifi.ReconfigureClients: with no `wifi_client` section the source reads an undefined `reconfigure_multi_wifi` and stops with a `NameError`. The model returns `Skip`, the intended "skip client configuration". The same holds for Setup.ReconfigureClients.
- MultiWifi.RadioChoice: the `sys.exit` after the `TypeError` (`setup_wifi.py:87-88`, `setup.py:89-90`) can never be reached. A refused radio is modelled as a stop (`InvalidRadio`).
- MultiWifi.EntryProblem: a `null` password makes `len(None)` raise an uncaught `TypeError`, which stops the script. The model records it as the stop `PasswordNotText`.
- Router ids: the router, not the manager, picks the id of a POSTed network or lease. The source does not say where the router puts them. Appending them at the end under a fresh id (`FreshId`) is this model's choice. That covers "one new entry at the end" in `Rutx11Spec.AddNetworkNoDuplicates`. The POSTed interface carries its own id and replaces an entry with that id, also by the model's choice.

## Findings

| source | as written | input that shows it | evidently intended | confidence | as-written member | corrected member |
|---|---|---|---|---|---|---|
| setup_wifi.py:31 (and setup.py:30) | `key["ssid"] == ''` stops only a missing or empty SSID | a record `{"ssid": null, "password": "husarion"}` passes, and the command sets `ssid='None'` | a `null` SSID stops the validator, like a missing or empty one | not executed | MultiWifi.NullSsidPassesAsWritten | MultiWifi.ValidateAccepts |
| setup_wifi.py:86 (and setup.py:88) | `wifi_client_radio not in [0,1,'0','1']` accepts `true`, `false`, `0.0` and `1.0`, which equal 0 and 1 | `"wifi_client_radio": true` passes, and the command names device `radioTrue`; `1.0` passes and names `radio1.0` | only 0, 1, '0' and '1' (or absence) are accepted | not executed | MultiWifi.TrueRadioAcceptedAsWritten | MultiWifi.RadioChoiceAccepts |
