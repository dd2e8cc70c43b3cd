/**
  The device configuration endpoints: set_device_config checks a list of
  interfaces (every entry an object with a name, and an IPv4 address with
  an optional prefix, netmask or hostmask), stores them normalised, and
  rewrites the hostname line of the device's initial configuration;
  get_device_config reads that hostname back from the first line.

  The request, the database row and the response are values: a Device
  goes in, and the outcome says what is answered and what is stored.
*/
module DeviceConfig {
  import opened Options
  import opened Text
  import opened Json
  import opened Ipv4
  import opened Topology
  import opened Addresses

  // ---------------------------------------------------------------- one interface entry

  /** (it.get(key) or "").strip(): a falsy value reads as "", a truthy non-string makes strip() raise (None). */
  function FieldText(v: Option<Json>): Option<string> {
    if v.None? || !Truthy(v.value) then Some("")
    else if v.value.JStr? then Some(PyStrip(v.value.s))
    else None
  }

  /** ip_interface(ip) when ip has a "/", else ip_interface(ip + "/32"). */
  function NormalizeIp(ip: string): Option<Interface> {
    if '/' in ip then ParseInterface(ip) else ParseInterface(ip + "/32")
  }

  /** The object stored for a checked entry. */
  function Entry(name: string, ip: string, address: string, network: string): Json {
    JObj([("name", JStr(name)), ("ip", JStr(ip)), ("address", JStr(address)), ("network", JStr(network))])
  }

  function MustBeObject(idx: nat): string {
    "interface at index " + NatToString(idx) + " must be an object"
  }

  function MissingName(idx: nat): string {
    "interface at index " + NatToString(idx) + " missing name"
  }

  /** The invalid-ip message names the interface by its name, or by its index when the name is empty. */
  function InvalidIp(name: string, idx: nat, ip: string): string {
    "interface \"" + (if name != [] then name else NatToString(idx)) + "\" has invalid ip \"" + ip + "\""
  }

  /** What one list entry gives: the entry to store (none for a non-object) and its errors, or a raise. */
  datatype ItemCheck = ItemCrash | ItemDone(entry: Option<Json>, errors: seq<string>)

  /** The checks the loop body of set_device_config makes on entry idx. */
  function CheckItem(idx: nat, it: Json): ItemCheck {
    if !it.JObj? then ItemDone(None, [MustBeObject(idx)])
    else
      match (FieldText(Get(it.fields, "name")), FieldText(Get(it.fields, "ip")))
      case (Some(name), Some(ip)) =>
        var nameErrors := if name == [] then [MissingName(idx)] else [];
        if ip == [] then ItemDone(Some(Entry(name, "", "", "")), nameErrors)
        else
          (match NormalizeIp(ip)
           case Some(i) => ItemDone(Some(Entry(name, FormatInterface(i), FormatAddress(i.addr), FormatNetwork(i))), nameErrors)
           case None => ItemDone(Some(Entry(name, ip, "", "")), nameErrors + [InvalidIp(name, idx, ip)]))
      case _ => ItemCrash
  }

  /** An entry that passes: an object with a non-empty name and an empty or parsable ip. */
  predicate Acceptable(it: Json) {
    && it.JObj?
    && FieldText(Get(it.fields, "name")).Some? && FieldText(Get(it.fields, "name")).value != []
    && FieldText(Get(it.fields, "ip")).Some?
    && (FieldText(Get(it.fields, "ip")).value == [] || NormalizeIp(FieldText(Get(it.fields, "ip")).value).Some?)
  }

  /** An entry adds no error and does not raise exactly when it is acceptable. */
  lemma CheckItemAccepts(idx: nat, it: Json)
    ensures (CheckItem(idx, it).ItemDone? && CheckItem(idx, it).errors == []) <==> Acceptable(it)
    ensures Acceptable(it) ==> CheckItem(idx, it).entry.Some?
  {
  }

  /** An accepted entry with a parsable ip is stored with the normalised interface, its address and its network. */
  lemma CheckItemParsed(idx: nat, it: Json, name: string, ip: string, i: Interface)
    requires it.JObj? && FieldText(Get(it.fields, "name")) == Some(name) && name != []
    requires FieldText(Get(it.fields, "ip")) == Some(ip) && ip != [] && NormalizeIp(ip) == Some(i)
    ensures CheckItem(idx, it) == ItemDone(Some(Entry(name, FormatInterface(i), FormatAddress(i.addr), FormatNetwork(i))), [])
  {
  }

  /** A bare address parses as the host interface /32. */
  lemma BareAddressHost(a: string, x: nat)
    requires '/' !in a && ParseAddress(a) == Some(x)
    ensures NormalizeIp(a) == Some(Interface(x, 32))
  {
    HostPrefixDefault(a);
    SplitOnWithout(a, '/');
  }

  /** The host interface of a canonical address a prints as "a/32". */
  lemma HostInterfaceText(a: string, x: nat)
    requires ParseAddress(a) == Some(x)
    ensures FormatAddress(x) == a
    ensures FormatInterface(Interface(x, 32)) == a + "/32"
  {
    ParseAddressIff(a, x);
    assert NatToString(32) == "32" by {
      assert NatToString(3) == "3";
    }
  }

  /** A bare address a is stored as "a/32", with address a and the /32 network. */
  lemma BareAddressStored(idx: nat, it: Json, name: string, a: string, x: nat)
    requires it.JObj? && FieldText(Get(it.fields, "name")) == Some(name) && name != []
    requires FieldText(Get(it.fields, "ip")) == Some(a) && '/' !in a && ParseAddress(a) == Some(x)
    ensures CheckItem(idx, it) == ItemDone(Some(Entry(name, a + "/32", a, FormatNetwork(Interface(x, 32)))), [])
  {
    BareAddressHost(a, x);
    HostInterfaceText(a, x);
    CheckItemParsed(idx, it, name, a, Interface(x, 32));
  }

  /** An address with a mask is stored as the interface it parses to, its address and its masked network. */
  lemma PrefixedAddressStored(idx: nat, it: Json, name: string, ip: string, i: Interface)
    requires it.JObj? && FieldText(Get(it.fields, "name")) == Some(name) && name != []
    requires FieldText(Get(it.fields, "ip")) == Some(ip) && '/' in ip && ParseInterface(ip) == Some(i)
    ensures CheckItem(idx, it) == ItemDone(Some(Entry(name, FormatInterface(i), FormatAddress(i.addr), FormatNetwork(i))), [])
  {
    CheckItemParsed(idx, it, name, ip, i);
  }

  /**
    The three stored texts read back: "ip" parses to the same interface,
    "address" to its address, and "network" to the interface of its
    network, whose address has no host bits and contains the address.
  */
  lemma StoredFieldsParse(i: Interface)
    requires ValidInterface(i)
    ensures ParseInterface(FormatInterface(i)) == Some(i)
    ensures ParseAddress(FormatAddress(i.addr)) == Some(i.addr)
    ensures var n := NetworkAddress(i);
            && ParseInterface(FormatNetwork(i)) == Some(Interface(n, i.prefix))
            && n % Pow2(32 - i.prefix) == 0
            && n <= i.addr < n + Pow2(32 - i.prefix)
  {
    FormatInterfaceRoundTrip(i);
    ParseAddressIff(FormatAddress(i.addr), i.addr);
    NetworkAddressSpec(i);
    var net := Interface(NetworkAddress(i), i.prefix);
    assert FormatNetwork(i) == FormatInterface(net);
    FormatInterfaceRoundTrip(net);
  }

  // ---------------------------------------------------------------- the list

  /** The loop's state: a raise ended it, or the entries kept and the errors so far. */
  datatype Validation = Stopped | Checked(validated: seq<Json>, errors: seq<string>)

  /** The loop over the interface list, entry by entry. */
  function Validate(items: seq<Json>): Validation {
    if items == [] then Checked([], [])
    else Step(Validate(items[..|items| - 1]), CheckItem(|items| - 1, items[|items| - 1]))
  }

  /** One pass of the loop body: a raise stops, otherwise the entry and errors are appended. */
  function Step(v: Validation, c: ItemCheck): Validation {
    match v
    case Stopped => Stopped
    case Checked(vs, es) =>
      match c
      case ItemCrash => Stopped
      case ItemDone(e, errs) => Checked(vs + (if e.Some? then [e.value] else []), es + errs)
  }

  /** The validation loop of set_device_config, filling validated and errors. */
  method ValidateInterfaces(items: seq<Json>) returns (v: Validation)
    ensures v == Validate(items)
  {
    var validated: seq<Json> := [];
    var errors: seq<string> := [];
    for idx := 0 to |items|
      invariant Validate(items[..idx]) == Checked(validated, errors)
    {
      ValidateSnoc(items, idx);
      var c := CheckEntry(idx, items[idx]);
      if c.ItemCrash? {
        ValidateStops(items, idx + 1);
        return Stopped;
      }
      if c.entry.Some? {
        validated := validated + [c.entry.value];
      }
      errors := errors + c.errors;
    }
    assert items[..|items|] == items;
    v := Checked(validated, errors);
  }

  lemma ValidateSnoc(items: seq<Json>, idx: nat)
    requires idx < |items|
    ensures Validate(items[..idx + 1]) == Step(Validate(items[..idx]), CheckItem(idx, items[idx]))
  {
    assert items[..idx + 1][..idx] == items[..idx];
  }

  /** The loop body's checks on entry idx: what it appends to validated and errors, or the raise. */
  method CheckEntry(idx: nat, it: Json) returns (c: ItemCheck)
    ensures c == CheckItem(idx, it)
  {
    if !it.JObj? {
      return ItemDone(None, [MustBeObject(idx)]);
    }
    var name := FieldText(Get(it.fields, "name"));
    var ip := FieldText(Get(it.fields, "ip"));
    if name.None? || ip.None? {
      return ItemCrash;
    }
    var errors := if name.value == [] then [MissingName(idx)] else [];
    var ipNorm, address, network := "", "", "";
    if ip.value != [] {
      var parsed := NormalizeIp(ip.value);
      if parsed.Some? {
        ipNorm, address, network := FormatInterface(parsed.value), FormatAddress(parsed.value.addr), FormatNetwork(parsed.value);
      } else {
        errors := errors + [InvalidIp(name.value, idx, ip.value)];
        ipNorm := ip.value;
      }
    }
    return ItemDone(Some(Entry(name.value, ipNorm, address, network)), errors);
  }

  /** Once an entry has raised, the handler has raised. */
  lemma {:induction false} ValidateStops(items: seq<Json>, i: nat)
    requires i <= |items| && Validate(items[..i]).Stopped?
    ensures Validate(items).Stopped?
    decreases |items|
  {
    if i < |items| {
      var init := items[..|items| - 1];
      assert init[..i] == items[..i];
      ValidateStops(init, i);
    } else {
      assert items[..i] == items;
    }
  }

  /** All or nothing: the list passes without error exactly when every entry is acceptable. */
  lemma {:induction false} ValidateAccepts(items: seq<Json>)
    ensures (Validate(items).Checked? && Validate(items).errors == []) <==> AllAcceptable(items)
    decreases |items|
  {
    if items != [] {
      var n := |items|;
      var init := items[..n - 1];
      ValidateAccepts(init);
      CheckItemAccepts(n - 1, items[n - 1]);
      StepAccepts(Validate(init), CheckItem(n - 1, items[n - 1]));
      AllAcceptableSnoc(items);
    }
  }

  predicate AllAcceptable(items: seq<Json>) {
    forall k :: 0 <= k < |items| ==> Acceptable(items[k])
  }

  lemma AllAcceptableSnoc(items: seq<Json>)
    requires items != []
    ensures AllAcceptable(items) <==> AllAcceptable(items[..|items| - 1]) && Acceptable(items[|items| - 1])
  {
    var init, x := items[..|items| - 1], items[|items| - 1];
    assert items == init + [x];
    EverySnoc(init, x, Acceptable);
  }

  /** The generic form of AllAcceptableSnoc, kept apart so that p's definition stays out of the proof. */
  lemma EverySnoc<T>(init: seq<T>, x: T, p: T -> bool)
    ensures (forall k :: 0 <= k < |init + [x]| ==> p((init + [x])[k])) <==>
              (forall k :: 0 <= k < |init| ==> p(init[k])) && p(x)
  {
    var s := init + [x];
    assert forall k :: 0 <= k < |init| ==> s[k] == init[k];
    assert s[|init|] == x;
  }

  /** A list that passes is stored entry for entry, in order, each as its check made it. */
  lemma {:induction false} ValidateEntries(items: seq<Json>)
    requires Validate(items).Checked? && Validate(items).errors == []
    ensures |Validate(items).validated| == |items|
    ensures forall k :: 0 <= k < |items| ==> CheckItem(k, items[k]) == ItemDone(Some(Validate(items).validated[k]), [])
    decreases |items|
  {
    if items != [] {
      var n := |items|;
      var init := items[..n - 1];
      var c := CheckItem(n - 1, items[n - 1]);
      StepClean(Validate(init), c);
      CheckItemAccepts(n - 1, items[n - 1]);
      ValidateEntries(init);
      var vs := Validate(items).validated;
      assert vs == Validate(init).validated + [c.entry.value];
      forall k | 0 <= k < n ensures CheckItem(k, items[k]) == ItemDone(Some(vs[k]), []) {
        if k < n - 1 {
          assert init[k] == items[k];
          assert vs[k] == Validate(init).validated[k];
        }
      }
    }
  }

  /** A step ends clean exactly when the state before it was clean and the entry raised nothing and added no error. */
  lemma StepAccepts(v: Validation, c: ItemCheck)
    ensures (Step(v, c).Checked? && Step(v, c).errors == []) <==> (v.Checked? && v.errors == [] && c.ItemDone? && c.errors == [])
  {
  }

  /** A step that leaves no error came from a clean state and a clean entry. */
  lemma StepClean(v: Validation, c: ItemCheck)
    requires Step(v, c).Checked? && Step(v, c).errors == []
    ensures v.Checked? && v.errors == [] && c.ItemDone? && c.errors == []
    ensures Step(v, c).validated == v.validated + (if c.entry.Some? then [c.entry.value] else [])
  {
  }

  // ---------------------------------------------------------------- hostname

  /**
    The hostname rewrite: the first line is replaced by "hostname <h>" when
    it already starts (in any case) with "hostname", otherwise that line is
    put in front; the lines are joined with "\n".
  */
  function SetHostname(config: string, h: string): string {
    var lines := PySplitLines(config);
    var first := "hostname " + h;
    if lines != [] && StartsWithIgnoringCase(lines[0], "hostname") then JoinOn([first] + lines[1..], '\n')
    else JoinOn([first] + lines, '\n')
  }

  /** The hostname a stripped first line names: its second word when it starts with "hostname", else the device name. */
  function HostnameFromLine(name: string, line: string): string {
    var parts := PySplit(line);
    if StartsWithIgnoringCase(line, "hostname") && |parts| >= 2 then parts[1] else name
  }

  /** get_device_config's hostname as written: None where it raises IndexError (a whitespace-only configuration). */
  function ReadHostnameAsWritten(name: string, config: string): Option<string> {
    if config == [] then Some(name)
    else
      var lines := PySplitLines(PyStrip(config));
      if lines == [] then None
      else Some(HostnameFromLine(name, PyStrip(lines[0])))
  }

  /** get_device_config's hostname, falling back to the device name when the configuration holds no line. */
  function ReadHostname(name: string, config: string): string {
    var lines := PySplitLines(PyStrip(config));
    if lines == [] then name
    else HostnameFromLine(name, PyStrip(lines[0]))
  }

  /** A configuration of whitespace only, such as " \n", makes the handler raise. */
  lemma WhitespaceConfigRaises(name: string)
    ensures ReadHostnameAsWritten(name, " \n") == None
  {
    var config := " \n";
    assert IsPySpace(config[0]) && IsPySpace(config[1]);
    StripAllSpace(config);
  }

  /** The corrected read agrees with the code wherever the code does not raise, and gives the device name where it does. */
  lemma ReadHostnameCorrects(name: string, config: string)
    ensures ReadHostnameAsWritten(name, config).Some? ==> ReadHostnameAsWritten(name, config) == Some(ReadHostname(name, config))
    ensures ReadHostnameAsWritten(name, config).None? <==> config != [] && PyStrip(config) == []
    ensures PyStrip(config) == [] ==> ReadHostname(name, config) == name
  {
    if config == [] {
      assert PyLStrip(config) == [];
    }
  }

  lemma JoinFirst(first: string, rest: seq<string>)
    ensures JoinOn([first] + rest, '\n') == first + (if rest == [] then [] else ['\n'] + JoinOn(rest, '\n'))
  {
    var ps := [first] + rest;
    assert ps[0] == first && ps[1..] == rest;
  }

  lemma LowerHostname()
    ensures LowerAsciiStr("hostname") == "hostname"
  {
    var w := "hostname";
    forall i | 0 <= i < |w| ensures !('A' <= w[i] <= 'Z') {
      assert 'a' <= w[i] <= 'z';
    }
    LowerOfLowercase(w);
  }

  /** The line "hostname <h>", for h a single word, reads back as h. */
  lemma HostnameLine(name: string, h: string)
    requires h != [] && NoPySpace(h)
    ensures HostnameFromLine(name, "hostname " + h) == h
  {
    var first := "hostname " + h;
    assert "hostname" + " " + h == first;
    HostnameKeyword(h);
    SplitTwoWords("hostname", h);
  }

  lemma HostnameKeyword(h: string)
    ensures NoPySpace("hostname")
    ensures StartsWithIgnoringCase("hostname " + h, "hostname")
  {
    var w := "hostname";
    forall i | 0 <= i < |w| ensures !IsPySpace(w[i]) {
      assert 'a' <= w[i] <= 'z';
    }
    assert ("hostname " + h)[..8] == w;
    LowerHostname();
  }

  /**
    Round trip: after set_device_config writes hostname h (one word),
    get_device_config reads h back, whatever the configuration held.
  */
  lemma HostnameRoundTrip(name: string, config: string, h: string)
    requires h != [] && NoPySpace(h)
    ensures ReadHostname(name, SetHostname(config, h)) == h
  {
    SetHostnameShape(config, h);
    ReadsFirstLine(name, SetHostname(config, h), h);
  }

  /** The rewritten configuration starts with the line "hostname <h>". */
  lemma SetHostnameShape(config: string, h: string)
    ensures var r := SetHostname(config, h);
            var first := "hostname " + h;
            |first| <= |r| && r[..|first|] == first && (|first| < |r| ==> r[|first|] == '\n')
  {
    var lines := PySplitLines(config);
    var first := "hostname " + h;
    var rest := if lines != [] && StartsWithIgnoringCase(lines[0], "hostname") then lines[1..] else lines;
    JoinFirst(first, rest);
  }

  /** A configuration whose first line is "hostname <h>" reads back as h. */
  lemma ReadsFirstLine(name: string, r: string, h: string)
    requires h != [] && NoPySpace(h)
    requires var first := "hostname " + h;
             |first| <= |r| && r[..|first|] == first && (|first| < |r| ==> r[|first|] == '\n')
    ensures ReadHostname(name, r) == h
  {
    var first := "hostname " + h;
    var k := |first|;
    assert r[0] == first[0] == 'h';
    assert r[k - 1] == first[k - 1] == h[|h| - 1];
    StripKeepsPrefix(r, k);
    var st := PyStrip(r);
    assert st[..k] == first;
    FirstLineBreakFree(h);
    assert k < |st| ==> st[k] == '\n';
    FirstLineOf(st, k);
    assert first[0] == 'h';
    StripKeepsPrefix(first, k);
    assert PyStrip(first) == first;
    HostnameLine(name, h);
  }

  lemma FirstLineBreakFree(h: string)
    requires NoPySpace(h)
    ensures NoLineBreak("hostname " + h)
  {
    var first := "hostname " + h;
    forall i | 0 <= i < |first| ensures !IsLineBreak(first[i]) {
      LineBreakIsSpace(first[i]);
      if i >= 9 {
        assert first[i] == h[i - 9];
      }
    }
  }

  // ---------------------------------------------------------------- the two handlers

  /** What get_device_config answers. */
  datatype ConfigView = ConfigView(device: string, hostname: string, interfaces: Json)

  /** get_device_config as written: None where it raises. */
  function GetDeviceConfigAsWritten(d: Device): Option<ConfigView> {
    match ReadHostnameAsWritten(d.name, d.initialConfig)
    case None => None
    case Some(h) => Some(ConfigView(d.name, h, if d.interfaces.Some? then d.interfaces.value else JArr([])))
  }

  /** The stripped first line of the stripped configuration, empty when there is none. */
  function FirstConfigLine(config: string): string {
    var lines := PySplitLines(PyStrip(config));
    if lines == [] then [] else PyStrip(lines[0])
  }

  /**
    get_device_config with the hostname read corrected: the second word of
    the first line when that line starts with "hostname" (in any case) and
    has a second word, otherwise the device name.
  */
  function GetDeviceConfig(d: Device): (v: ConfigView)
    ensures v.device == d.name
    ensures v.interfaces == if d.interfaces.Some? then d.interfaces.value else JArr([])
    ensures PyStrip(d.initialConfig) == [] ==> v.hostname == d.name
    ensures var line := FirstConfigLine(d.initialConfig);
            if StartsWithIgnoringCase(line, "hostname") && |PySplit(line)| >= 2 then v.hostname == PySplit(line)[1]
            else v.hostname == d.name
    ensures v.hostname == d.name || (v.hostname != [] && NoPySpace(v.hostname))
  {
    ReadHostnameCorrects(d.name, d.initialConfig);
    ConfigView(d.name, ReadHostname(d.name, d.initialConfig), if d.interfaces.Some? then d.interfaces.value else JArr([]))
  }

  /**
    What set_device_config answers: a raise (Failed), "interfaces must be a
    list", the list of errors, the device as stored with the echoed
    hostname, or NotModelled for a hostname given as an array or object.
  */
  datatype SetOutcome = Failed | NotAList | Invalid(errors: seq<string>) | Applied(device: Device, hostname: Json) | NotModelled

  const NotAListError := "interfaces must be a list"

  /** The interfaces value of a request, when one is given (a JSON null counts as not given). */
  function InterfacesGiven(fields: seq<(string, Json)>): Option<Json> {
    var v := Get(fields, "interfaces");
    if v.Some? && v.value != JNull then v else None
  }

  /** set_device_config for a request body and the device row it addresses. */
  function SetResult(body: Json, d: Device): SetOutcome {
    var data := if Truthy(body) then body else JObj([]);
    if !data.JObj? then Failed
    else
      var ifs := InterfacesGiven(data.fields);
      if ifs.Some? && !ifs.value.JArr? then NotAList
      else
        var v := if ifs.Some? then Validate(ifs.value.items) else Checked([], []);
        if v.Stopped? then Failed
        else if v.errors != [] then Invalid(v.errors)
        else SetApplied(data.fields, d, if ifs.Some? then Some(JArr(v.validated)) else d.interfaces)
  }

  /** The hostname part, after the interfaces have been settled. */
  function SetApplied(fields: seq<(string, Json)>, d: Device, interfaces: Option<Json>): SetOutcome {
    var host := Get(fields, "hostname");
    if host.Some? && Truthy(host.value) then
      (match PyStr(host.value)
       case None => NotModelled
       case Some(h) => Applied(d.(interfaces := interfaces, initialConfig := SetHostname(d.initialConfig, h)), host.value))
    else Applied(d.(interfaces := interfaces), JNull)
  }

  /** The handler: read the body, check and store the interfaces, then rewrite the hostname. */
  method SetDeviceConfig(body: Json, d: Device) returns (out: SetOutcome)
    ensures out == SetResult(body, d)
  {
    var data := if Truthy(body) then body else JObj([]);
    if !data.JObj? {
      return Failed;
    }
    var interfaces := InterfacesGiven(data.fields);
    var stored := d.interfaces;
    if interfaces.Some? {
      if !interfaces.value.JArr? {
        return NotAList;
      }
      var v := ValidateInterfaces(interfaces.value.items);
      if v.Stopped? {
        return Failed;
      }
      if v.errors != [] {
        return Invalid(v.errors);
      }
      stored := Some(JArr(v.validated));
    }
    var hostname := Get(data.fields, "hostname");
    var config := d.initialConfig;
    if hostname.Some? && Truthy(hostname.value) {
      var text := PyStr(hostname.value);
      if text.None? {
        return NotModelled;
      }
      config := SetHostname(config, text.value);
      return Applied(d.(interfaces := stored, initialConfig := config), hostname.value);
    }
    return Applied(d.(interfaces := stored), JNull);
  }

  /**
    Any bad entry rejects the whole request: the answer is the error list
    exactly when the list is given, no entry raises, and some entry is not
    acceptable.  Nothing is stored then.
  */
  lemma SetRejects(body: Json, d: Device)
    ensures var data := if Truthy(body) then body else JObj([]);
            SetResult(body, d).Invalid? <==>
              && data.JObj?
              && InterfacesGiven(data.fields).Some? && InterfacesGiven(data.fields).value.JArr?
              && Validate(InterfacesGiven(data.fields).value.items).Checked?
              && exists k :: 0 <= k < |InterfacesGiven(data.fields).value.items| &&
                             !Acceptable(InterfacesGiven(data.fields).value.items[k])
    ensures SetResult(body, d).Invalid? ==> SetResult(body, d).errors != []
  {
    var data := if Truthy(body) then body else JObj([]);
    if data.JObj? && InterfacesGiven(data.fields).Some? && InterfacesGiven(data.fields).value.JArr? {
      ValidateAccepts(InterfacesGiven(data.fields).value.items);
    }
  }

  /**
    A request that is applied stores the checked entries, one per given
    entry and in order, when interfaces are given, and leaves the stored
    interfaces alone otherwise; the device keeps its name and role.
  */
  lemma SetStores(body: Json, d: Device)
    requires SetResult(body, d).Applied?
    ensures var data := if Truthy(body) then body else JObj([]);
            var d2 := SetResult(body, d).device;
            && data.JObj?
            && d2.name == d.name && d2.deviceType == d.deviceType
            && (InterfacesGiven(data.fields).None? ==> d2.interfaces == d.interfaces)
            && (InterfacesGiven(data.fields).Some? ==>
                  var items := InterfacesGiven(data.fields).value.items;
                  && (forall k :: 0 <= k < |items| ==> Acceptable(items[k]))
                  && d2.interfaces.Some? && d2.interfaces.value.JArr?
                  && |d2.interfaces.value.items| == |items|
                  && forall k :: 0 <= k < |items| ==> CheckItem(k, items[k]) == ItemDone(Some(d2.interfaces.value.items[k]), []))
  {
    var data := if Truthy(body) then body else JObj([]);
    if InterfacesGiven(data.fields).Some? {
      var items := InterfacesGiven(data.fields).value.items;
      ValidateAccepts(items);
      ValidateEntries(items);
    }
  }

  /**
    The two handlers agree: once set_device_config has applied a request
    naming a one-word hostname, get_device_config on the stored row reports
    that hostname, and the row keeps its name.
  */
  lemma SetThenGetHostname(body: Json, d: Device, h: string)
    requires body.JObj? && Get(body.fields, "hostname") == Some(JStr(h)) && h != [] && NoPySpace(h)
    requires SetResult(body, d).Applied?
    ensures GetDeviceConfig(SetResult(body, d).device).hostname == h
    ensures GetDeviceConfig(SetResult(body, d).device).device == d.name
  {
    GetSpec(body.fields, "hostname");
    assert Truthy(body);
    var ifs := InterfacesGiven(body.fields);
    var stored := if ifs.Some? then Some(JArr(Validate(ifs.value.items).validated)) else d.interfaces;
    assert SetResult(body, d) == SetApplied(body.fields, d, stored);
    AppliedHostname(body.fields, d, stored, h);
    HostnameRoundTrip(d.name, d.initialConfig, h);
  }

  lemma AppliedHostname(fields: seq<(string, Json)>, d: Device, interfaces: Option<Json>, h: string)
    requires Get(fields, "hostname") == Some(JStr(h)) && h != []
    ensures SetApplied(fields, d, interfaces).device.initialConfig == SetHostname(d.initialConfig, h)
    ensures SetApplied(fields, d, interfaces).device.name == d.name
  {
  }

  /** A stored entry never makes the address scan raise. */
  lemma EntryScans(name: string, ip: string, address: string, network: string)
    ensures ItemAddresses(Entry(name, ip, address, network)).Found?
    ensures Get(Entry(name, ip, address, network).fields, "address") == Some(JStr(address))
  {
    var f := Entry(name, ip, address, network).fields;
    assert "network"[0] != "address"[0];
    assert f[..|f| - 1] == [("name", JStr(name)), ("ip", JStr(ip)), ("address", JStr(address))];
    assert Get(f, "address") == Get(f[..|f| - 1], "address");
  }

  lemma {:induction false} AddressTextNonEmpty(x: nat)
    requires x < AddressSpace
    ensures FormatAddress(x) != []
  {
    var o := Octets(x);
    var ps := [NatToString(o[0]), NatToString(o[1]), NatToString(o[2]), NatToString(o[3])];
    assert JoinOn(ps, '.') == ps[0] + ['.'] + JoinOn(ps[1..], '.');
  }

  /**
    The addresses stored by set_device_config are ones ping and traceroute
    find: entry k with a parsable ip makes its address owned by the device.
  */
  lemma StoredAddressOwned(body: Json, d: Device, k: nat)
    requires SetResult(body, d).Applied?
    requires var data := if Truthy(body) then body else JObj([]);
             data.JObj? && InterfacesGiven(data.fields).Some? && InterfacesGiven(data.fields).value.JArr? &&
             k < |InterfacesGiven(data.fields).value.items|
    requires var data := if Truthy(body) then body else JObj([]);
             var it := InterfacesGiven(data.fields).value.items[k];
             it.JObj? && FieldText(Get(it.fields, "ip")).Some? && FieldText(Get(it.fields, "ip")).value != []
    ensures var data := if Truthy(body) then body else JObj([]);
            var it := InterfacesGiven(data.fields).value.items[k];
            var i := NormalizeIp(FieldText(Get(it.fields, "ip")).value);
            i.Some? && FormatAddress(i.value.addr) in OwnedAddresses(SetResult(body, d).device)
  {
    var data := if Truthy(body) then body else JObj([]);
    var items := InterfacesGiven(data.fields).value.items;
    var d2 := SetResult(body, d).device;
    SetStores(body, d);
    var stored := d2.interfaces.value.items;
    forall j | 0 <= j < k + 1 ensures ItemAddresses(stored[j]).Found? {
      CheckedEntryScans(j, items[j], stored[j]);
    }
    var it := items[k];
    var name := FieldText(Get(it.fields, "name")).value;
    var i := NormalizeIp(FieldText(Get(it.fields, "ip")).value).value;
    assert stored[k] == Entry(name, FormatInterface(i), FormatAddress(i.addr), FormatNetwork(i));
    EntryScans(name, FormatInterface(i), FormatAddress(i.addr), FormatNetwork(i));
    AddressTextNonEmpty(i.addr);
    AddressFieldOwned(d2, k, FormatAddress(i.addr));
  }

  /** Whatever an entry's check stores never makes the address scan raise. */
  lemma CheckedEntryScans(j: nat, it: Json, e: Json)
    requires CheckItem(j, it) == ItemDone(Some(e), [])
    ensures ItemAddresses(e).Found?
  {
    var name := FieldText(Get(it.fields, "name")).value;
    var ip := FieldText(Get(it.fields, "ip")).value;
    if ip == [] {
      EntryScans(name, "", "", "");
    } else {
      var i := NormalizeIp(ip).value;
      EntryScans(name, FormatInterface(i), FormatAddress(i.addr), FormatNetwork(i));
    }
  }
}
