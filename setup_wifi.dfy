/** `setup_wifi.py`: the part of the script that reconfigures the router's
    client networks (`multi_wifi`) from the `wifi_client` section of
    `config.json`.  The validator updates the records in place; the command is
    accumulated in a loop whose `enumerate(..., start=1)` gives the
    priorities. */
module SetupWifi {
  import opened Basics
  import opened MultiWifi

  /** `multi_wifi_config_validator`: stops at the first record with no SSID
      or a bad password, numbering records from 1, and otherwise turns every
      missing or empty password into `null` in place. */
  method MultiWifiConfigValidator(data: array<ClientEntry>) returns (abort: Option<Abort>)
    modifies data
    ensures abort == Validate(old(data[..]))
    ensures abort.None? ==> data[..] == Normalized(old(data[..]))
    ensures abort.Some? ==>
      data[..] == Normalized(old(data[..])[..abort.value.entry - 1]) + old(data[..])[abort.value.entry - 1..]
  {
    ghost var input := data[..];
    for k := 0 to data.Length
      invariant forall j :: 0 <= j < k ==> data[j] == NormalizeEntry(input[j])
      invariant forall j :: k <= j < data.Length ==> data[j] == input[j]
      invariant forall j :: 0 <= j < k ==> EntryProblem(input[j]).None?
    {
      var index := k + 1;
      var key := data[k];
      assert key == input[k];
      if key.ssid == Missing || key.ssid == Null || key.ssid == Text("") {
        ValidateStopsAt(input, k);
        NormalizedUpTo(input, data[..], k);
        return Some(Abort(index, NoSsid));
      }
      var stop: Option<AbortReason> := None;
      match key.password {
        case Missing =>
          data[k] := key.(password := Null);
        case Null =>
          stop := Some(PasswordNotText);
        case Text(p) =>
          if |p| < MinPasswordLength {
            if p == "" {
              data[k] := key.(password := Null);
            } else {
              stop := Some(ShortPassword);
            }
          }
      }
      if stop.Some? {
        assert stop == EntryProblem(key);
        ValidateStopsAt(input, k);
        NormalizedUpTo(input, data[..], k);
        return Some(Abort(index, stop.value));
      }
      assert data[k] == NormalizeEntry(key);
    }
    NormalizedUpTo(input, data[..], data.Length);
    abort := None;
  }

  /** The loop `for priority, key in enumerate(..., start=1)` that
      accumulates one `set_multi_wifi` block per record. */
  method BuildClientCommand(data: array<ClientEntry>) returns (cmd: string)
    requires forall i :: 0 <= i < data.Length ==> data[i].ssid != Missing && data[i].password != Missing
    ensures cmd == ClientCommands(data[..], 1)
  {
    cmd := "";
    for k := 0 to data.Length
      invariant cmd == ClientCommands(data[..k], 1)
    {
      var priority := k + 1;
      var key := data[k];
      assert data[..k + 1] == data[..k] + [key];
      ClientCommandsSnoc(data[..k], key, 1);
      cmd := cmd + SetMultiWifi(FieldText(key.ssid), PasswordOption(key.password), priority);
    }
    assert data[..data.Length] == data[..];
  }

  /** The client-network part of the script: validate the `wifi_client`
      records, build their commands, choose the radio, compare it with the
      device in use (the lines `uci get wireless.multi_wifi.device` printed)
      and send one command that replaces the list. */
  method ReconfigureClients(section: Option<array<ClientEntry>>, setting: RadioSetting, stdout: seq<string>)
    returns (plan: Plan)
    modifies if section.Some? then {section.value} else {}
    ensures plan == ReconfigurePlan(if section.Some? then Some(old(section.value[..])) else None, setting, stdout)
    ensures section.Some? && Validate(old(section.value[..])).None? ==>
      section.value[..] == Normalized(old(section.value[..]))
  {
    if section.None? {
      return Skip;
    }
    var data := section.value;
    ghost var input := data[..];
    var abort := MultiWifiConfigValidator(data);
    if abort.Some? {
      return Exit(InvalidEntry(abort.value));
    }
    ValidateAccepts(input);
    var cmd := BuildClientCommand(data);
    var choice := RadioChoice(setting);
    if choice.None? {
      return Exit(InvalidRadio);
    }
    var radio := choice.value;
    var used := ReadUsedRadio(stdout);
    var clients := cmd;
    if used != Some("radio" + radio) {
      cmd := cmd + RadioSwitchCommand(radio);
    }
    assert cmd == clients + RadioSwitch(used, radio);
    Associate(DeleteLoop, clients, RadioSwitch(used, radio));
    plan := Send(DeleteLoop + cmd + "uci commit;" + "reload_config");
  }
}
