/**
  _extract_ips: the set of addresses a device answers to, gathered from
  its stored interfaces and from the dotted quads in its initial
  configuration, and the list of devices that own a ping or traceroute
  target.

  Only strings matter here: a target is a string, so a non-string value
  Python would put in the set (an integer "address", say) can never equal
  it and is not recorded.
*/
module Addresses {
  import opened Options
  import opened Text
  import opened Json
  import opened DottedQuad
  import opened Topology

  /** What one entry of an interface list contributes, or Crash when adding it raises. */
  datatype ItemResult = Crash | Found(addrs: set<string>)

  /** The dotted quads re.findall reports in s, as a set. */
  function QuadsIn(s: string): (r: set<string>)
    ensures forall m :: m in r ==> Shaped(m)
  {
    FindAllShaped(s, 0);
    set m | m in FindAll(s)
  }

  /** The dotted quads in the string values of an object (the last value of a repeated key). */
  function QuadsInValues(fields: seq<(string, Json)>): set<string> {
    set i, m | 0 <= i < |fields| && !Overridden(fields, i) && fields[i].1.JStr? && m in QuadsIn(fields[i].1.s) :: m
  }

  /**
    str(v).split("/")[0] for a truthy "ip" value: the text before the first
    "/" of a string, the decimal text of an integer, "True" for true.
  */
  function IpText(v: Json): set<string> {
    match v
    case JStr(s) => {SplitOn(s, '/')[0]}
    case JInt(n) => {IntToString(n)}
    case JBool(b) => if b then {"True"} else {"False"}
    case _ => {}
  }

  /** One entry of an interface list: its "address", else its "ip", else the quads in its string values. */
  function ItemAddresses(item: Json): ItemResult {
    match item
    case JObj(fields) =>
      var address := Get(fields, "address");
      var ip := Get(fields, "ip");
      if address.Some? && Truthy(address.value) then
        (match address.value
         case JStr(s) => Found({s})
         case JArr(_) => Crash
         case JObj(_) => Crash
         case _ => Found({}))
      else if ip.Some? && Truthy(ip.value) then Found(IpText(ip.value))
      else Found(QuadsInValues(fields))
    case JStr(s) => Found(QuadsIn(s))
    case _ => Found({})
  }

  /** The addresses collected from a list, and whether an entry raised (which ends the scan). */
  function ScanItems(items: seq<Json>): (set<string>, bool) {
    if items == [] then ({}, false)
    else
      var (found, stopped) := ScanItems(items[..|items| - 1]);
      if stopped then (found, true)
      else
        match ItemAddresses(items[|items| - 1])
        case Crash => (found, true)
        case Found(t) => (found + t, false)
  }

  /** _walk: the dotted quads in every string anywhere inside a decoded value. */
  function Walk(j: Json): set<string>
    decreases j
  {
    match j
    case JStr(s) => QuadsIn(s)
    case JArr(items) => set i, m | 0 <= i < |items| && m in Walk(items[i]) :: m
    case JObj(fields) =>
      set i, m | 0 <= i < |fields| && !Overridden(fields, i) && m in Walk(fields[i].1) :: m
    case _ => {}
  }

  /** The addresses found in the stored interfaces: a list entry by entry, anything else by walking it. */
  function InterfaceAddresses(interfaces: Option<Json>): set<string> {
    match interfaces
    case None => {}
    case Some(JArr(items)) => ScanItems(items).0
    case Some(j) => Walk(j)
  }

  /** _extract_ips for one device. */
  function OwnedAddresses(d: Device): set<string> {
    InterfaceAddresses(d.interfaces) + QuadsIn(d.initialConfig)
  }

  /** _extract_ips: the interface entries until one raises (or a walk of other values), then the configuration's quads. */
  method ExtractIps(d: Device) returns (ips: set<string>)
    ensures ips == OwnedAddresses(d)
  {
    if d.interfaces.Some? && d.interfaces.value.JArr? {
      ips := ScanList(d.interfaces.value.items);
    } else {
      ips := InterfaceAddresses(d.interfaces);
    }
    ips := AddQuads(ips, d.initialConfig);
  }

  /** The loop over a stored interface list, left at the first entry that raises. */
  method ScanList(items: seq<Json>) returns (ips: set<string>)
    ensures ips == ScanItems(items).0
  {
    ips := {};
    var i := 0;
    var stopped := false;
    while i < |items| && !stopped
      invariant i <= |items|
      invariant ScanItems(items[..i]) == (ips, stopped)
      decreases |items| - i
    {
      assert items[..i + 1][..i] == items[..i];
      var r := ItemAddresses(items[i]);
      if r.Crash? {
        stopped := true;
      } else {
        ips := ips + r.addrs;
      }
      i := i + 1;
    }
    if stopped {
      ScanStopped(items, i);
    } else {
      assert items[..i] == items;
    }
  }

  /** The loop adding every dotted quad of a configuration text. */
  method AddQuads(ips: set<string>, config: string) returns (r: set<string>)
    ensures r == ips + QuadsIn(config)
  {
    r := ips;
    var quads := FindAll(config);
    for k := 0 to |quads|
      invariant r == ips + set m | m in quads[..k]
    {
      assert quads[..k + 1] == quads[..k] + [quads[k]];
      r := r + {quads[k]};
    }
    assert quads[..|quads|] == quads;
  }

  /** Once an entry has raised, later entries add nothing. */
  lemma {:induction false} ScanStopped(items: seq<Json>, i: nat)
    requires i <= |items| && ScanItems(items[..i]).1
    ensures ScanItems(items) == ScanItems(items[..i])
    decreases |items|
  {
    if i < |items| {
      var init := items[..|items| - 1];
      assert init[..i] == items[..i];
      ScanStopped(init, i);
    } else {
      assert items[..i] == items;
    }
  }

  /** No entry before k raises. */
  predicate NoCrashBefore(items: seq<Json>, k: nat)
    requires k <= |items|
  {
    forall j :: 0 <= j < k ==> ItemAddresses(items[j]).Found?
  }

  /** When no entry raises, the scan collects exactly the addresses of all entries. */
  lemma {:induction false} ScanUnion(items: seq<Json>, a: string)
    requires NoCrashBefore(items, |items|)
    ensures !ScanItems(items).1
    ensures a in ScanItems(items).0 <==>
              exists j :: 0 <= j < |items| && ItemAddresses(items[j]).Found? && a in ItemAddresses(items[j]).addrs
    decreases |items|
  {
    if items != [] {
      var n := |items|;
      var init := items[..n - 1];
      assert forall j :: 0 <= j < n - 1 ==> init[j] == items[j];
      ScanUnion(init, a);
      if a in ScanItems(init).0 {
        var j :| 0 <= j < n - 1 && ItemAddresses(init[j]).Found? && a in ItemAddresses(init[j]).addrs;
        assert init[j] == items[j];
      }
      if exists j :: 0 <= j < n && ItemAddresses(items[j]).Found? && a in ItemAddresses(items[j]).addrs {
        var j :| 0 <= j < n && ItemAddresses(items[j]).Found? && a in ItemAddresses(items[j]).addrs;
        if j < n - 1 {
          assert init[j] == items[j];
        }
      }
    }
  }

  /** When entry k is the first to raise, the scan keeps what the entries before it gave, and stops. */
  lemma ScanCrash(items: seq<Json>, k: nat)
    requires k < |items| && NoCrashBefore(items, k) && ItemAddresses(items[k]).Crash?
    ensures ScanItems(items) == (ScanItems(items[..k]).0, true)
  {
    var p := items[..k + 1];
    assert p[..k] == items[..k];
    assert NoCrashBefore(items[..k], k);
    ScanUnion(items[..k], "");
    ScanStopped(items, k + 1);
  }

  /** An entry with a non-empty string "address", reached before any entry raises, makes that address owned. */
  lemma AddressFieldOwned(d: Device, k: nat, s: string)
    requires d.interfaces.Some? && d.interfaces.value.JArr? && k < |d.interfaces.value.items|
    requires NoCrashBefore(d.interfaces.value.items, k + 1)
    requires d.interfaces.value.items[k].JObj?
    requires Get(d.interfaces.value.items[k].fields, "address") == Some(JStr(s)) && s != []
    ensures s in OwnedAddresses(d)
  {
    var items := d.interfaces.value.items;
    var p := items[..k + 1];
    assert p[k] == items[k];
    assert NoCrashBefore(p, k + 1);
    ScanUnion(p, s);
    ScanGrows(items, k + 1);
  }

  /**
    An entry without a usable "address" but with a non-empty string "ip"
    contributes exactly the text of that ip before its first "/".
  */
  lemma IpFieldText(fields: seq<(string, Json)>, s: string)
    requires Get(fields, "address").None? || !Truthy(Get(fields, "address").value)
    requires Get(fields, "ip") == Some(JStr(s)) && s != []
    ensures ItemAddresses(JObj(fields)) == Found({s[..IndexOf(s, '/')]})
    ensures '/' !in s[..IndexOf(s, '/')]
  {
    var k := IndexOf(s, '/');
    assert SplitOn(s, '/')[0] == s[..k];
  }

  /** The scan only grows as entries are added. */
  lemma {:induction false} ScanGrows(items: seq<Json>, i: nat)
    requires i <= |items|
    ensures ScanItems(items[..i]).0 <= ScanItems(items).0
    decreases |items|
  {
    if i < |items| {
      var init := items[..|items| - 1];
      assert init[..i] == items[..i];
      ScanGrows(init, i);
    } else {
      assert items[..i] == items;
    }
  }

  /** The names of the devices that own target, in table order. */
  function Owners(table: seq<Device>, target: string): seq<string> {
    if table == [] then []
    else
      var d := table[|table| - 1];
      Owners(table[..|table| - 1], target) + (if target in OwnedAddresses(d) then [d.name] else [])
  }

  /** A name is listed exactly when a device of that name owns the target. */
  lemma {:induction false} OwnersIff(table: seq<Device>, target: string, x: string)
    ensures x in Owners(table, target) <==>
              exists i :: 0 <= i < |table| && table[i].name == x && target in OwnedAddresses(table[i])
    decreases |table|
  {
    if table != [] {
      var n := |table|;
      var init := table[..n - 1];
      OwnersIff(init, target, x);
      if exists i :: 0 <= i < n && table[i].name == x && target in OwnedAddresses(table[i]) {
        var i :| 0 <= i < n && table[i].name == x && target in OwnedAddresses(table[i]);
        if i < n - 1 {
          assert init[i] == table[i];
        }
      }
      if x in Owners(init, target) {
        var i :| 0 <= i < n - 1 && init[i].name == x && target in OwnedAddresses(init[i]);
        assert init[i] == table[i];
      }
    }
  }

  /** The target-owner list comprehension of ping and traceroute. */
  method FindOwners(table: seq<Device>, target: string) returns (owners: seq<string>)
    ensures owners == Owners(table, target)
  {
    owners := [];
    for i := 0 to |table|
      invariant owners == Owners(table[..i], target)
    {
      assert table[..i + 1][..i] == table[..i];
      var ips := ExtractIps(table[i]);
      if target in ips {
        owners := owners + [table[i].name];
      }
    }
    assert table[..|table|] == table;
  }
}
