/** What `setup_wifi.py` and `setup.py` share: the `wifi_client` records of
    `config.json`, the rule their validator applies to each record, the UCI
    command `set_multi_wifi` builds for one record, the `wifi_client_radio`
    choice and the radio-switch command.  The scripts' loops, which update the
    record list in place and accumulate the command, are in `SetupWifi` and
    `Setup`; they are proved against the functions here. */
module MultiWifi {
  import opened Basics

  /** A JSON member of a `wifi_client` record: absent, `null`, or a string. */
  datatype Field = Missing | Null | Text(s: string)

  datatype ClientEntry = ClientEntry(ssid: Field, password: Field)

  /** Why the validator stops the script: `sys.exit` after a missing or empty
      SSID or a short password, or the `TypeError` that `len(None)` raises
      for a `null` password. */
  datatype AbortReason = NoSsid | ShortPassword | PasswordNotText

  /** The validator stopped at the record numbered `entry`, counting from 1. */
  datatype Abort = Abort(entry: nat, reason: AbortReason)

  const MinPasswordLength := 8

  // ----- multi_wifi_config_validator -----

  /** Whether the validator stops at this record.  A `null` SSID stops it too:
      it is no SSID, as a missing or empty one is. */
  function EntryProblem(e: ClientEntry): Option<AbortReason> {
    if e.ssid == Missing || e.ssid == Null || e.ssid == Text("") then Some(NoSsid)
    else match e.password
      case Missing => None
      case Null => Some(PasswordNotText)
      case Text(p) => if 0 < |p| < MinPasswordLength then Some(ShortPassword) else None
  }

  /** The same check as written: `key["ssid"] == ''` is false for `null`, so
      a `null` SSID passes. */
  function EntryProblemAsWritten(e: ClientEntry): Option<AbortReason> {
    if e.ssid == Missing || e.ssid == Text("") then Some(NoSsid)
    else match e.password
      case Missing => None
      case Null => Some(PasswordNotText)
      case Text(p) => if 0 < |p| < MinPasswordLength then Some(ShortPassword) else None
  }

  /** What the validator leaves in a record it accepts: a missing or empty
      password becomes `null`; the SSID and a long password stay as they are. */
  function NormalizeEntry(e: ClientEntry): (r: ClientEntry)
    ensures r.ssid == e.ssid
    ensures e.password == Missing || e.password == Text("") ==> r.password == Null
    ensures e.password != Missing && e.password != Text("") ==> r.password == e.password
  {
    match e.password
    case Missing => e.(password := Null)
    case Text(p) => if p == "" then e.(password := Null) else e
    case Null => e
  }

  function HasProblem(): ClientEntry -> bool {
    (e: ClientEntry) => EntryProblem(e).Some?
  }

  /** The first record the validator stops at, numbered from 1, or none. */
  function Validate(es: seq<ClientEntry>): (r: Option<Abort>)
    ensures r.Some? ==> 1 <= r.value.entry <= |es| && EntryProblem(es[r.value.entry - 1]) == Some(r.value.reason)
    ensures r.Some? ==> forall j :: 0 <= j < r.value.entry - 1 ==> EntryProblem(es[j]).None?
    ensures r.None? <==> forall j :: 0 <= j < |es| ==> EntryProblem(es[j]).None?
  {
    match FirstIndex(es, HasProblem())
    case None =>
      assert forall j :: 0 <= j < |es| ==> (HasProblem()(es[j]) <==> EntryProblem(es[j]).Some?);
      None
    case Some(i) =>
      assert forall j :: 0 <= j < i ==> !HasProblem()(es[j]);
      Some(Abort(i + 1, EntryProblem(es[i]).value))
  }

  function Normalized(es: seq<ClientEntry>): (r: seq<ClientEntry>)
    ensures |r| == |es| && forall i :: 0 <= i < |es| ==> r[i] == NormalizeEntry(es[i])
  {
    seq(|es|, i requires 0 <= i < |es| => NormalizeEntry(es[i]))
  }

  /** Once the records before `k` pass and record `k` does not, the
      validator stops at record `k + 1`. */
  lemma {:induction false} ValidateStopsAt(es: seq<ClientEntry>, k: nat)
    requires k < |es| && EntryProblem(es[k]).Some?
    requires forall j :: 0 <= j < k ==> EntryProblem(es[j]).None?
    ensures Validate(es) == Some(Abort(k + 1, EntryProblem(es[k]).value))
  {
    FirstIndexAt(es, HasProblem(), k);
  }

  /** The list a validator run leaves when it has normalized the first `k`
      records in place and not touched the others. */
  lemma {:induction false} NormalizedUpTo(input: seq<ClientEntry>, out: seq<ClientEntry>, k: nat)
    requires |out| == |input| && k <= |input|
    requires forall j :: 0 <= j < k ==> out[j] == NormalizeEntry(input[j])
    requires forall j :: k <= j < |input| ==> out[j] == input[j]
    ensures out == Normalized(input[..k]) + input[k..]
    ensures k == |input| ==> out == Normalized(input)
  {
    var r := Normalized(input[..k]) + input[k..];
    assert forall j :: 0 <= j < k ==> r[j] == NormalizeEntry(input[j]);
    assert forall j :: k <= j < |input| ==> r[j] == input[j];
  }

  /** A record ready for `set_multi_wifi`: a non-empty SSID, and either no
      password (`null`) or one of at least eight characters. */
  predicate Ready(e: ClientEntry) {
    e.ssid.Text? && e.ssid.s != ""
    && (e.password == Null || (e.password.Text? && |e.password.s| >= MinPasswordLength))
  }

  /** The validator accepts exactly the lists whose every record has a
      non-empty SSID and a password that is absent, empty, or at least eight
      characters long, and then leaves every record ready. */
  lemma {:induction false} ValidateAccepts(es: seq<ClientEntry>)
    ensures Validate(es).None? <==> forall i :: 0 <= i < |es| ==>
      && es[i].ssid.Text? && es[i].ssid.s != ""
      && (es[i].password == Missing || (es[i].password.Text? && (|es[i].password.s| == 0 || |es[i].password.s| >= MinPasswordLength)))
    ensures Validate(es).None? ==> forall i :: 0 <= i < |es| ==> Ready(Normalized(es)[i])
  {
  }

  /** As written, a `null` SSID passes the validator, and the command built
      for that record sets the SSID to the text `None`. */
  lemma {:induction false} NullSsidPassesAsWritten()
    ensures EntryProblemAsWritten(ClientEntry(Null, Text("husarion"))).None?
    ensures EntryProblem(ClientEntry(Null, Text("husarion"))) == Some(NoSsid)
    ensures ParseBlocks(Split(ClientCommands([ClientEntry(Null, Text("husarion"))], 1), '\n'))
      == Some([ClientBlock("None", Some("husarion"), 1)])
  {
    var es := [ClientEntry(Null, Text("husarion"))];
    assert OneLine("None") && OneLine("husarion");
    assert SingleLine(es[0]);
    ClientCommandsRoundTrip(es, 1);
    var bs := Blocks(es, 1);
    assert bs[0] == ClientBlock("None", Some("husarion"), 1);
    assert bs == [bs[0]];
  }

  // ----- set_multi_wifi -----

  const AddLine := "uci add multi_wifi wifi-iface"
  const SsidPrefix := "uci set multi_wifi.@wifi-iface[-1].ssid='"
  const KeyPrefix := "uci set multi_wifi.@wifi-iface[-1].key='"
  const EnabledLine := "uci set multi_wifi.@wifi-iface[-1].enabled='1'"
  const PriorityPrefix := "uci set multi_wifi.@wifi-iface[-1].priority='"

  predicate IsDigit(c: char) {
    '0' <= c <= '9'
  }

  function Digit(d: nat): (c: char)
    requires d < 10
    ensures IsDigit(c) && (c as int) - ('0' as int) == d
  {
    (('0' as int) + d) as char
  }

  /** Python's `str(n)` for a natural number. */
  function NatToString(n: nat): string
    decreases n
  {
    if n < 10 then [Digit(n)] else NatToString(n / 10) + [Digit(n % 10)]
  }

  /** The number a string of decimal digits denotes. */
  function DecimalValue(s: string): nat
    requires forall i :: 0 <= i < |s| ==> IsDigit(s[i])
  {
    if |s| == 0 then 0
    else
      assert IsDigit(s[|s| - 1]);
      DecimalValue(s[..|s| - 1]) * 10 + ((s[|s| - 1] as int) - ('0' as int))
  }

  /** `str(n)` is a non-empty string of digits that reads back as `n`. */
  lemma {:induction false} NatToStringValue(n: nat)
    ensures |NatToString(n)| > 0
    ensures forall i :: 0 <= i < |NatToString(n)| ==> IsDigit(NatToString(n)[i])
    ensures DecimalValue(NatToString(n)) == n
    decreases n
  {
    if n >= 10 {
      NatToStringValue(n / 10);
      var s := NatToString(n / 10);
      assert NatToString(n) == s + [Digit(n % 10)];
      assert (s + [Digit(n % 10)])[..|s|] == s;
    }
  }

  /** The text Python's `format` gives a field the validator let through. */
  function FieldText(f: Field): string
    requires f != Missing
  {
    if f.Text? then f.s else "None"
  }

  /** The `password` argument as `set_multi_wifi` sees it: `None` or a string. */
  function PasswordOption(f: Field): Option<string>
    requires f != Missing
  {
    if f.Text? then Some(f.s) else None
  }

  function SsidLine(ssid: string): string {
    SsidPrefix + ssid + "'"
  }

  function KeyLine(password: string): string {
    KeyPrefix + password + "'"
  }

  function PriorityLine(priority: nat): string {
    PriorityPrefix + NatToString(priority) + "'"
  }

  /** The `key` line with its line end, when there is a password. */
  function KeyText(password: Option<string>): string {
    if password.Some? then KeyLine(password.value) + "\n" else ""
  }

  /** `set_multi_wifi`: the UCI commands that add one client network. */
  function SetMultiWifi(ssid: string, password: Option<string>, priority: nat): string {
    AddLine + "\n"
    + SsidLine(ssid) + "\n"
    + KeyText(password)
    + EnabledLine + "\n"
    + PriorityLine(priority) + "\n"
  }

  function KeyLines(password: Option<string>): seq<string> {
    if password.Some? then [KeyLine(password.value)] else []
  }

  /** The lines of one `set_multi_wifi` block, without their line ends. */
  function BlockLines(ssid: string, password: Option<string>, priority: nat): seq<string> {
    [AddLine, SsidLine(ssid)] + KeyLines(password) + [EnabledLine, PriorityLine(priority)]
  }

  /** Each line followed by a line end. */
  function Unlines(ls: seq<string>): string {
    if |ls| == 0 then "" else ls[0] + "\n" + Unlines(ls[1..])
  }

  /** One more line written after some lines is one more line in the list. */
  lemma {:induction false} UnlinesSnoc(ls: seq<string>, x: string)
    ensures Unlines(ls) + x + "\n" == Unlines(ls + [x])
  {
    if |ls| == 0 {
      assert ls + [x] == [x];
      assert [x][1..] == [];
    } else {
      UnlinesSnoc(ls[1..], x);
      assert (ls + [x])[1..] == ls[1..] + [x];
      assert Unlines(ls) + x + "\n" == ls[0] + "\n" + (Unlines(ls[1..]) + x + "\n");
    }
  }

  lemma {:induction false} UnlinesKey(ls: seq<string>, password: Option<string>)
    ensures Unlines(ls) + KeyText(password) == Unlines(ls + KeyLines(password))
  {
    if password.Some? {
      UnlinesSnoc(ls, KeyLine(password.value));
      assert Unlines(ls) + KeyText(password) == Unlines(ls) + KeyLine(password.value) + "\n";
    } else {
      assert ls + KeyLines(password) == ls;
    }
  }

  /** `set_multi_wifi` writes its block line by line. */
  lemma {:induction false} SetMultiWifiIsBlock(ssid: string, password: Option<string>, priority: nat)
    ensures SetMultiWifi(ssid, password, priority) == Unlines(BlockLines(ssid, password, priority))
  {
    var l1 := [AddLine];
    assert Unlines(l1) == AddLine + "\n" by {
      UnlinesSnoc([], AddLine);
      assert [] + [AddLine] == l1;
    }
    var l2 := l1 + [SsidLine(ssid)];
    UnlinesSnoc(l1, SsidLine(ssid));
    var l3 := l2 + KeyLines(password);
    UnlinesKey(l2, password);
    var l4 := l3 + [EnabledLine];
    UnlinesSnoc(l3, EnabledLine);
    var l5 := l4 + [PriorityLine(priority)];
    UnlinesSnoc(l4, PriorityLine(priority));
    assert l5 == BlockLines(ssid, password, priority);
  }

  /** Text with no line end in it. */
  predicate OneLine(s: string) {
    '\n' !in s
  }

  /** A record whose SSID and password text hold no line end. */
  predicate SingleLine(e: ClientEntry) {
    (e.ssid != Missing ==> OneLine(FieldText(e.ssid)))
    && (e.password.Text? ==> OneLine(e.password.s))
  }

  lemma {:induction false} SplitUnlines(ls: seq<string>, rest: string)
    requires forall i :: 0 <= i < |ls| ==> OneLine(ls[i])
    ensures Split(Unlines(ls) + rest, '\n') == ls + Split(rest, '\n')
  {
    if |ls| > 0 {
      SplitUnlines(ls[1..], rest);
      assert Unlines(ls) + rest == ls[0] + ['\n'] + (Unlines(ls[1..]) + rest);
      SplitAfter(ls[0], '\n', Unlines(ls[1..]) + rest);
      assert ls == [ls[0]] + ls[1..];
    } else {
      assert Unlines(ls) + rest == rest;
    }
  }

  /** Lines written out with their line ends split back into the same lines,
      and the empty text after the last line end. */
  lemma {:induction false} SplitUnlinesEnd(ls: seq<string>)
    requires forall i :: 0 <= i < |ls| ==> OneLine(ls[i])
    ensures Split(Unlines(ls), '\n') == ls + [""]
  {
    SplitUnlines(ls, "");
    assert Unlines(ls) + "" == Unlines(ls);
  }

  lemma {:induction false} DigitsOneLine(n: nat)
    ensures OneLine(NatToString(n))
  {
    NatToStringValue(n);
    var s := NatToString(n);
    forall i | 0 <= i < |s| ensures s[i] != '\n' {
      assert IsDigit(s[i]);
    }
  }

  lemma {:induction false} OneLineConcat(a: string, b: string, c: string)
    requires OneLine(a) && OneLine(b) && OneLine(c)
    ensures OneLine(a + b + c)
  {
    var s := a + b + c;
    forall k | 0 <= k < |s| ensures s[k] != '\n' {
      if k < |a| {
        assert s[k] == a[k];
      } else if k < |a| + |b| {
        assert s[k] == b[k - |a|];
      } else {
        assert s[k] == c[k - |a| - |b|];
      }
    }
  }

  lemma {:induction false} ConstantsOneLine()
    ensures OneLine(AddLine) && OneLine(SsidPrefix) && OneLine(KeyPrefix)
    ensures OneLine(EnabledLine) && OneLine(PriorityPrefix) && OneLine("'")
  {
  }

  lemma {:induction false} BlockOneLine(ssid: string, password: Option<string>, priority: nat)
    requires OneLine(ssid) && (password.Some? ==> OneLine(password.value))
    ensures forall i :: 0 <= i < |BlockLines(ssid, password, priority)| ==> OneLine(BlockLines(ssid, password, priority)[i])
  {
    ConstantsOneLine();
    DigitsOneLine(priority);
    OneLineConcat(SsidPrefix, ssid, "'");
    OneLineConcat(PriorityPrefix, NatToString(priority), "'");
    if password.Some? {
      OneLineConcat(KeyPrefix, password.value, "'");
    }
  }

  /** For an SSID and password on one line each, the block is, line by line:
      the `add` line, the `ssid` line, a `key` line exactly when there is a
      password, the `enabled='1'` line and the `priority` line. */
  lemma {:induction false} SetMultiWifiLines(ssid: string, password: Option<string>, priority: nat)
    requires OneLine(ssid) && (password.Some? ==> OneLine(password.value))
    ensures Split(SetMultiWifi(ssid, password, priority), '\n') ==
      [AddLine, SsidLine(ssid)] + KeyLines(password) + [EnabledLine, PriorityLine(priority), ""]
  {
    SetMultiWifiIsBlock(ssid, password, priority);
    BlockOneLine(ssid, password, priority);
    SplitUnlinesEnd(BlockLines(ssid, password, priority));
  }

  /** Only the `key` line of a block starts with the `key` prefix, so a block
      has a line setting a key exactly when a password is given. */
  lemma {:induction false} KeyLineIffPassword(ssid: string, password: Option<string>, priority: nat)
    requires OneLine(ssid) && (password.Some? ==> OneLine(password.value))
    ensures var lines := Split(SetMultiWifi(ssid, password, priority), '\n');
      (exists k :: 0 <= k < |lines| && KeyPrefix <= lines[k]) <==> password.Some?
  {
    SetMultiWifiLines(ssid, password, priority);
    var lines := Split(SetMultiWifi(ssid, password, priority), '\n');
    if password.Some? {
      var l := KeyLine(password.value);
      assert lines[2] == l;
      assert l[..|KeyPrefix|] == KeyPrefix;
    } else {
      assert lines == [AddLine, SsidLine(ssid), EnabledLine, PriorityLine(priority), ""];
      forall k | 0 <= k < |lines| ensures !(KeyPrefix <= lines[k]) {
        NotKeyLine(lines[k], ssid, priority);
      }
    }
  }

  /** `AddLine`, the `ssid`, `enabled` and `priority` lines and an empty line
      differ from the `key` prefix at position 4 or 35. */
  lemma {:induction false} NotKeyLine(line: string, ssid: string, priority: nat)
    requires line in [AddLine, SsidLine(ssid), EnabledLine, PriorityLine(priority), ""]
    ensures !(KeyPrefix <= line)
  {
    assert KeyPrefix[4] == 's' && KeyPrefix[35] == 'k';
    if line == SsidLine(ssid) {
      assert line[35] == SsidPrefix[35] == 's';
    } else if line == PriorityLine(priority) {
      assert line[35] == PriorityPrefix[35] == 'p';
    } else if line == EnabledLine {
      assert line[35] == 'e';
    } else if line == AddLine {
      assert line[4] == 'a';
    } else {
      assert line == "";
    }
  }

  // ----- the accumulated command and the priority counter -----

  /** The `set_multi_wifi` block for one record the validator let through. */
  function EntryBlock(e: ClientEntry, priority: nat): string
    requires e.ssid != Missing && e.password != Missing
  {
    SetMultiWifi(FieldText(e.ssid), PasswordOption(e.password), priority)
  }

  /** The blocks of the records, the record at position i getting priority `first + i`. */
  function ClientBlocks(es: seq<ClientEntry>, first: nat): (bs: seq<string>)
    requires forall i :: 0 <= i < |es| ==> es[i].ssid != Missing && es[i].password != Missing
  {
    seq(|es|, i requires 0 <= i < |es| => EntryBlock(es[i], first + i))
  }

  /** The command the scripts accumulate for `wifi_client`: the blocks of
      all records one after the other. */
  function ClientCommands(es: seq<ClientEntry>, first: nat): string
    requires forall i :: 0 <= i < |es| ==> es[i].ssid != Missing && es[i].password != Missing
  {
    Concat(ClientBlocks(es, first))
  }

  /** Appending one more record to the list appends its block, with the next priority. */
  lemma {:induction false} ClientCommandsSnoc(es: seq<ClientEntry>, e: ClientEntry, first: nat)
    requires forall i :: 0 <= i < |es| ==> es[i].ssid != Missing && es[i].password != Missing
    requires e.ssid != Missing && e.password != Missing
    ensures ClientCommands(es + [e], first) == ClientCommands(es, first) + EntryBlock(e, first + |es|)
  {
    var t := es + [e];
    var bs := ClientBlocks(es, first);
    var x := EntryBlock(e, first + |es|);
    assert ClientBlocks(t, first) == bs + [x] by {
      assert forall i :: 0 <= i < |es| ==> t[i] == es[i];
      assert t[|es|] == e;
    }
    ConcatSnoc(bs, x);
  }

  /** The command starts with the first record's block. */
  lemma {:induction false} ClientCommandsCons(es: seq<ClientEntry>, first: nat)
    requires |es| > 0
    requires forall i :: 0 <= i < |es| ==> es[i].ssid != Missing && es[i].password != Missing
    ensures ClientCommands(es, first) == EntryBlock(es[0], first) + ClientCommands(es[1..], first + 1)
  {
    var bs := ClientBlocks(es, first);
    assert bs[1..] == ClientBlocks(es[1..], first + 1) by {
      assert forall i :: 0 <= i < |es| - 1 ==> es[1..][i] == es[i + 1];
    }
  }

  /** A `set_multi_wifi` block read back from command text. */
  datatype ClientBlock = ClientBlock(ssid: string, key: Option<string>, priority: nat)

  /** The blocks the accumulated command is meant to hold, in list order with priorities `first`, `first + 1`, ... */
  function Blocks(es: seq<ClientEntry>, first: nat): (bs: seq<ClientBlock>)
    requires forall i :: 0 <= i < |es| ==> es[i].ssid != Missing && es[i].password != Missing
    ensures |bs| == |es|
  {
    seq(|es|, i requires 0 <= i < |es| => ClientBlock(FieldText(es[i].ssid), PasswordOption(es[i].password), first + i))
  }

  predicate Quoted(line: string, prefix: string) {
    |prefix| + 1 <= |line| && prefix <= line && line[|line| - 1] == '\''
  }

  function Unquote(line: string, prefix: string): string
    requires Quoted(line, prefix)
  {
    line[|prefix|..|line| - 1]
  }

  predicate AllDigits(s: string) {
    |s| > 0 && forall i :: 0 <= i < |s| ==> IsDigit(s[i])
  }

  /** Reads `set_multi_wifi` blocks back from the lines of a command; the
      last line must be the empty text after the final line end. */
  function ParseBlocks(lines: seq<string>): Option<seq<ClientBlock>>
    decreases |lines|
  {
    if |lines| < 5 then (if lines == [""] then Some([]) else None)
    else if lines[0] != AddLine || !Quoted(lines[1], SsidPrefix) then None
    else
      var hasKey := Quoted(lines[2], KeyPrefix);
      var r := if hasKey then 3 else 2;
      if r + 2 > |lines| || lines[r] != EnabledLine || !Quoted(lines[r + 1], PriorityPrefix)
         || !AllDigits(Unquote(lines[r + 1], PriorityPrefix)) then None
      else
        match ParseBlocks(lines[r + 2..])
        case None => None
        case Some(bs) =>
          var key := if hasKey then Some(Unquote(lines[2], KeyPrefix)) else None;
          Some([ClientBlock(Unquote(lines[1], SsidPrefix), key, DecimalValue(Unquote(lines[r + 1], PriorityPrefix)))] + bs)
  }

  lemma {:induction false} UnquoteOf(prefix: string, s: string)
    ensures Quoted(prefix + s + "'", prefix) && Unquote(prefix + s + "'", prefix) == s
  {
    var l := prefix + s + "'";
    assert l[..|prefix|] == prefix;
    assert l[|prefix|..|l| - 1] == s;
  }

  /** Parsing one block followed by more lines reads the block, then the rest. */
  lemma {:induction false} ParseBlock(ssid: string, password: Option<string>, priority: nat, more: seq<string>)
    requires |more| > 0
    ensures ParseBlocks(BlockLines(ssid, password, priority) + more) ==
      match ParseBlocks(more)
      case None => None
      case Some(bs) => Some([ClientBlock(ssid, password, priority)] + bs)
  {
    var lines := BlockLines(ssid, password, priority) + more;
    UnquoteOf(SsidPrefix, ssid);
    UnquoteOf(PriorityPrefix, NatToString(priority));
    NatToStringValue(priority);
    var r: nat;
    if password.Some? {
      UnquoteOf(KeyPrefix, password.value);
      r := 3;
      assert lines[2] == KeyPrefix + password.value + "'";
    } else {
      r := 2;
      assert lines[2] == EnabledLine;
      NotKeyLine(EnabledLine, ssid, priority);
    }
    assert lines[r] == EnabledLine;
    assert lines[r + 1] == PriorityPrefix + NatToString(priority) + "'";
    assert lines[r + 2..] == more;
  }

  /** Reading back one more block in front of command text already read back. */
  lemma {:induction false} RoundTripStep(e: ClientEntry, first: nat, rest: string, bs: seq<ClientBlock>)
    requires e.ssid != Missing && e.password != Missing && SingleLine(e)
    requires ParseBlocks(Split(rest, '\n')) == Some(bs)
    ensures ParseBlocks(Split(EntryBlock(e, first) + rest, '\n'))
      == Some([ClientBlock(FieldText(e.ssid), PasswordOption(e.password), first)] + bs)
  {
    var s, p := FieldText(e.ssid), PasswordOption(e.password);
    var bl := BlockLines(s, p, first);
    SetMultiWifiIsBlock(s, p, first);
    BlockOneLine(s, p, first);
    SplitUnlines(bl, rest);
    ParseBlock(s, p, first, Split(rest, '\n'));
  }

  /** The accumulated command reads back as the records' blocks, in list
      order, each with a key exactly when it has a password, and with the
      priorities `first`, `first + 1`, ... */
  lemma {:induction false} ClientCommandsRoundTrip(es: seq<ClientEntry>, first: nat)
    requires forall i :: 0 <= i < |es| ==> es[i].ssid != Missing && es[i].password != Missing
    requires forall i :: 0 <= i < |es| ==> SingleLine(es[i])
    ensures ParseBlocks(Split(ClientCommands(es, first), '\n')) == Some(Blocks(es, first))
    decreases |es|
  {
    if |es| == 0 {
      assert ClientCommands(es, first) == "";
    } else {
      var e := es[0];
      assert SingleLine(e);
      var rest := ClientCommands(es[1..], first + 1);
      ClientCommandsRoundTrip(es[1..], first + 1);
      ClientCommandsCons(es, first);
      RoundTripStep(e, first, rest, Blocks(es[1..], first + 1));
      BlocksCons(es, first);
    }
  }

  lemma {:induction false} BlocksCons(es: seq<ClientEntry>, first: nat)
    requires |es| > 0
    requires forall i :: 0 <= i < |es| ==> es[i].ssid != Missing && es[i].password != Missing
    ensures Blocks(es, first) == [ClientBlock(FieldText(es[0].ssid), PasswordOption(es[0].password), first)] + Blocks(es[1..], first + 1)
  {
    var bs := Blocks(es, first);
    assert bs[0] == ClientBlock(FieldText(es[0].ssid), PasswordOption(es[0].password), first);
    assert bs[1..] == Blocks(es[1..], first + 1);
  }

  // ----- wifi_client_radio -----

  /** The JSON value of `wifi_client_radio`; `Unset` when the key is absent.
      JSON `true`/`false` load as Python booleans, and a number written with a
      fraction or an exponent (`1.0`, `1e0`) as a float. */
  datatype RadioSetting = Unset | Number(n: int) | Str(s: string) | Flag(b: bool) | Float(x: real) | OtherValue

  /** The radio the scripts put after `radio` in the device name, or `None`
      when they stop with a `TypeError`.  An absent setting means radio 0. */
  function RadioChoice(setting: RadioSetting): Option<string> {
    match setting
    case Unset => Some("0")
    case Number(n) => if n == 0 || n == 1 then Some(NatToString(n)) else None
    case Str(s) => if s == "0" || s == "1" then Some(s) else None
    case _ => None
  }

  /** The check as written: `wifi_client_radio not in [0, 1, '0', '1']` is
      false for `true` and `false` and for the floats `0.0` and `1.0`, which
      compare equal to 0 and 1, and `str` then gives `True`, `False`, `0.0` or
      `1.0`. */
  function RadioChoiceAsWritten(setting: RadioSetting): Option<string> {
    match setting
    case Flag(b) => Some(if b then "True" else "False")
    case Float(x) => if x == 0.0 then Some("0.0") else if x == 1.0 then Some("1.0") else None
    case _ => RadioChoice(setting)
  }

  /** The accepted settings are exactly 0, 1, '0', '1' and absent, and the
      radio is 0 when absent; the result is always "0" or "1". */
  lemma {:induction false} RadioChoiceAccepts(setting: RadioSetting)
    ensures RadioChoice(setting).Some? <==>
      setting in {Unset, Number(0), Number(1), Str("0"), Str("1")}
    ensures setting == Unset ==> RadioChoice(setting) == Some("0")
    ensures RadioChoice(setting).Some? ==> RadioChoice(setting).value in {"0", "1"}
  {
    if setting.Number? && (setting.n == 0 || setting.n == 1) {
      assert NatToString(0) == "0" && NatToString(1) == "1";
    }
  }

  /** As written, `true` is accepted and names the device `radioTrue`, and
      `1.0` is accepted and names it `radio1.0`. */
  lemma {:induction false} TrueRadioAcceptedAsWritten()
    ensures RadioChoiceAsWritten(Flag(true)) == Some("True")
    ensures RadioChoice(Flag(true)).None?
    ensures RadioChoiceAsWritten(Float(1.0)) == Some("1.0")
    ensures RadioChoice(Float(1.0)).None?
  {
  }

  /** The command that moves `multi_wifi` to the chosen radio. */
  function RadioSwitchCommand(radio: string): string {
    "uci set wireless.multi_wifi.device='radio" + radio + "';"
  }

  /** What the scripts append to the command for the radio: the switch
      command when the device in use is not `radio` + the choice. */
  function RadioSwitch(used: Option<string>, radio: string): string {
    if used != Some("radio" + radio) then RadioSwitchCommand(radio) else ""
  }

  /** The switch command is appended exactly when the device differs, and it
      names the chosen radio. */
  lemma {:induction false} RadioSwitchIff(used: Option<string>, radio: string)
    ensures RadioSwitch(used, radio) != "" <==> used != Some("radio" + radio)
    ensures RadioSwitch(used, radio) != "" ==> RadioSwitch(used, radio) == RadioSwitchCommand(radio)
  {
  }

  /** The device `uci get wireless.multi_wifi.device` printed: its last
      output line, or none when it printed nothing. */
  method ReadUsedRadio(stdout: seq<string>) returns (used: Option<string>)
    ensures used == LastLine(stdout)
  {
    used := None;
    for k := 0 to |stdout|
      invariant used == if k == 0 then None else Some(stdout[k - 1])
    {
      used := Some(stdout[k]);
    }
  }

  // ----- the reconfiguration the scripts send -----

  /** The remote loop that deletes the current `multi_wifi` list; its shell
      semantics are not modelled. */
  const DeleteLoop := "for x in $(seq $(expr $(uci get multi_wifi.@wifi-iface[-1].priority) - 1) -1 0); do uci delete multi_wifi.@wifi-iface[$x]; done; "

  datatype ExitReason = InvalidEntry(abort: Abort) | InvalidRadio

  /** What the client-configuration part of a script ends in: nothing to do
      (no `wifi_client` section), a stop, or the command it sends over SSH. */
  datatype Plan = Skip | Exit(reason: ExitReason) | Send(command: string)

  lemma {:induction false} Associate(a: string, b: string, c: string)
    ensures a + (b + c) == a + b + c
  {
  }

  /** The whole command sent to the router. */
  function ReconfigureCommand(clients: string, used: Option<string>, radio: string): string {
    DeleteLoop + clients + RadioSwitch(used, radio) + "uci commit;" + "reload_config"
  }

  /** The last output line, as the scripts' `for line in stdout` loop leaves it. */
  function LastLine(stdout: seq<string>): Option<string> {
    if |stdout| == 0 then None else Some(stdout[|stdout| - 1])
  }

  /** The client-configuration part of the scripts, from the `wifi_client`
      section, the `wifi_client_radio` setting and the output of the `uci get`
      of the device in use. */
  function ReconfigurePlan(section: Option<seq<ClientEntry>>, setting: RadioSetting, stdout: seq<string>): Plan {
    match section
    case None => Skip
    case Some(es) =>
      match Validate(es)
      case Some(a) => Exit(InvalidEntry(a))
      case None =>
        ValidateAccepts(es);
        match RadioChoice(setting)
        case None => Exit(InvalidRadio)
        case Some(radio) => Send(ReconfigureCommand(ClientCommands(Normalized(es), 1), LastLine(stdout), radio))
  }

  /** A command is sent exactly for a valid list and an accepted radio.  It
      deletes the old list, then holds one block per record, in list order,
      with priorities 1..n and a key exactly for a non-empty password, then
      the radio switch, then the commit and reload. */
  lemma {:induction false} ReconfigurePlanSends(section: Option<seq<ClientEntry>>, setting: RadioSetting, stdout: seq<string>)
    ensures ReconfigurePlan(section, setting, stdout).Send? <==>
      section.Some? && Validate(section.value).None? && RadioChoice(setting).Some?
    ensures ReconfigurePlan(section, setting, stdout).Send? && (forall i :: 0 <= i < |section.value| ==> SingleLine(section.value[i])) ==>
      exists clients: string ::
        && ReconfigurePlan(section, setting, stdout).command == ReconfigureCommand(clients, LastLine(stdout), RadioChoice(setting).value)
        && ParseBlocks(Split(clients, '\n')) == Some(Blocks(Normalized(section.value), 1))
  {
    if ReconfigurePlan(section, setting, stdout).Send? && (forall i :: 0 <= i < |section.value| ==> SingleLine(section.value[i])) {
      var es := section.value;
      ValidateAccepts(es);
      var ns := Normalized(es);
      forall i | 0 <= i < |ns| ensures SingleLine(ns[i]) {
        assert SingleLine(es[i]);
      }
      ClientCommandsRoundTrip(ns, 1);
      var clients := ClientCommands(ns, 1);
      assert ReconfigurePlan(section, setting, stdout).command == ReconfigureCommand(clients, LastLine(stdout), RadioChoice(setting).value);
    }
  }
}
