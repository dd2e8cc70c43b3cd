/**
  The ping and traceroute commands of the simulated CLI.  Both take the
  target from the command's second word, refuse a target that is not an
  address, build the lab's graph, find the devices that own the target
  and search for a fewest-hop path from the device the command runs on.
  Ping reports only whether a path exists; traceroute prints one line per
  node of the path, with a latency taken from the link that leads to it.

  The lab's configuration is given decoded (None when it is empty).  A
  configuration that does not decode, or that is not an object, gives no
  links and so no link metadata: every hop then shows latency 1, which is
  what None or a non-object gives here too.
*/
module Reachability {
  import opened Options
  import opened Text
  import opened Json
  import opened Ipv4
  import opened Topology
  import opened GraphBuild
  import opened Addresses
  import opened PathSearch
  import opened Latency

  // ---------------------------------------------------------------- target

  const PingDefault: string := "127.0.0.1"
  const TraceDefault: string := "8.8.8.8"

  /** command.split()[1], or the command's default target when it has one word only. */
  function TargetOf(command: string, default: string): string {
    var words := PySplit(command);
    if |words| > 1 then words[1] else default
  }

  /** "ping t" and "traceroute t" aim at t. */
  lemma TargetOfCommand(verb: string, t: string, default: string)
    requires verb != [] && t != [] && NoPySpace(verb) && NoPySpace(t)
    ensures TargetOf(verb + " " + t, default) == t
  {
    SplitTwoWords(verb, t);
  }

  /** A command of one word aims at the default. */
  lemma TargetOfVerbAlone(verb: string, default: string)
    requires verb != [] && NoPySpace(verb)
    ensures TargetOf(verb, default) == default
  {
    SplitOneWord(verb);
  }

  /**
    What a command answers: the text it prints, a raised exception (the
    request fails), or a text outside this model (str() of a list or an
    object used as an interface label).
  */
  datatype Reply = Printed(text: string) | Raised | NotModelled

  /** The reply to a target that ipaddress.ip_address refuses. */
  function UnknownHost(t: string): string {
    "% Unknown host " + t + "\n"
  }

  // ---------------------------------------------------------------- the search

  /** The graph both commands search: stored links, else roles, over the lab's devices by name. */
  function LabGraph(devices: seq<Device>, config: Option<Json>): Adjacency {
    AdjacencyOf(TopologyEdges(DeviceTable(devices), config))
  }

  /** The names of the lab's devices that own the target. */
  function TargetOwners(devices: seq<Device>, t: string): seq<string> {
    Owners(DeviceTable(devices), t)
  }

  /** Some walk from the source device ends at a device that owns t. */
  ghost predicate Reachable(devices: seq<Device>, config: Option<Json>, src: string, t: string) {
    exists w :: ReachesTarget(LabGraph(devices, config), src, TargetOwners(devices, t), w)
  }

  /** A path the search may return: a simple walk to an owner with no shorter walk to one. */
  ghost predicate ShortestRoute(devices: seq<Device>, config: Option<Json>, src: string, t: string, p: seq<string>) {
    var adj, owners := LabGraph(devices, config), TargetOwners(devices, t);
    && ReachesTarget(adj, src, owners, p)
    && Simple(p)
    && forall w :: ReachesTarget(adj, src, owners, w) ==> |p| <= |w|
  }

  /**
    The search both commands run once the target is accepted: raised when
    building the graph raises, otherwise a fewest-hop route to an owner, or
    None exactly when no owner is reachable.
  */
  method FindRoute(src: string, devices: seq<Device>, config: Option<Json>, t: string)
    returns (raised: bool, path: Option<seq<string>>)
    ensures raised <==> !LinksIterable(config)
    ensures !raised ==> (path.None? <==> !Reachable(devices, config, src, t))
    ensures !raised && path.Some? ==> ShortestRoute(devices, config, src, t, path.value)
  {
    var table := DeviceTable(devices);
    var graph := BuildAdjacency(table, config);
    if graph.None? {
      return true, None;
    }
    raised := false;
    var adj := graph.value;
    var owners := FindOwners(table, t);
    path := Bfs(adj, src, owners);
    assert adj == LabGraph(devices, config) && owners == TargetOwners(devices, t);
    if path.None? {
      NotReachable(devices, config, src, t);
    } else {
      assert ReachesTarget(adj, src, owners, path.value);
    }
  }

  // ---------------------------------------------------------------- ping

  function PingSuccess(t: string): string {
    "Sending 5, 100-byte ICMP Echos to " + t + ", timeout is 2 seconds:\n!!!!!\n"
    + "Success rate is 100 percent (5/5), round-trip min/avg/max = 1/2/4 ms"
  }

  function PingFailure(t: string): string {
    "Sending 5, 100-byte ICMP Echos to " + t + ", timeout is 2 seconds:\n.....\n"
    + "Success rate is 0 percent (0/5), round-trip min/avg/max = 0/0/0 ms\nDestination host unreachable"
  }

  /**
    What ping answers: refusal of a non-address, a raise when the stored
    links cannot be iterated, then success exactly when an owner is
    reachable.
  */
  ghost function PingOutput(command: string, src: string, devices: seq<Device>, config: Option<Json>): Reply {
    var t := TargetOf(command, PingDefault);
    if !IsAddress(t) then Printed(UnknownHost(t))
    else if !LinksIterable(config) then Raised
    else if Reachable(devices, config, src, t) then Printed(PingSuccess(t))
    else Printed(PingFailure(t))
  }

  /** The ping branch of simulate_network_command, run on the device named src. */
  method Ping(command: string, src: string, devices: seq<Device>, config: Option<Json>) returns (out: Reply)
    ensures out == PingOutput(command, src, devices, config)
  {
    var t := TargetOf(command, PingDefault);
    if !IsAddress(t) {
      return Printed(UnknownHost(t));
    }
    var raised, path := FindRoute(src, devices, config, t);
    if raised {
      out := Raised;
    } else if path.Some? {
      out := Printed(PingSuccess(t));
    } else {
      out := Printed(PingFailure(t));
    }
  }

  /**
    A lab whose stored "links" is a non-zero integer makes every ping of a
    valid address raise, whatever the devices.
  */
  lemma PingIntegerLinks(command: string, src: string, devices: seq<Device>, n: int)
    requires IsAddress(TargetOf(command, PingDefault)) && n != 0
    ensures PingOutput(command, src, devices, Some(JObj([("links", JInt(n))]))) == Raised
  {
    IntegerLinks(n);
  }

  /** A non-zero integer under "links" is truthy and cannot be iterated. */
  lemma IntegerLinks(n: int)
    requires n != 0
    ensures !LinksIterable(Some(JObj([("links", JInt(n))])))
  {
    var fields := [("links", JInt(n))];
    assert fields[|fields| - 1].0 == "links";
    assert Get(fields, "links") == Some(JInt(n));
    assert Truthy(JInt(n));
  }

  /** Pinging an address of the device itself succeeds, whatever links can be iterated. */
  lemma PingSelf(command: string, src: string, devices: seq<Device>, config: Option<Json>)
    requires IsAddress(TargetOf(command, PingDefault)) && LinksIterable(config)
    requires src in TargetOwners(devices, TargetOf(command, PingDefault))
    ensures PingOutput(command, src, devices, config) == Printed(PingSuccess(TargetOf(command, PingDefault)))
  {
    SelfReachable(devices, config, src, TargetOf(command, PingDefault));
  }

  /** The one-node walk [src] reaches an owner when src is one. */
  lemma SelfReachable(devices: seq<Device>, config: Option<Json>, src: string, t: string)
    requires src in TargetOwners(devices, t)
    ensures Reachable(devices, config, src, t)
  {
    OneNodeWalk(LabGraph(devices, config), src, TargetOwners(devices, t));
  }

  lemma OneNodeWalk(adj: Adjacency, src: string, owners: seq<string>)
    requires src in owners
    ensures ReachesTarget(adj, src, owners, [src])
  {
  }

  /** An address no device owns cannot be reached. */
  lemma PingUnowned(command: string, src: string, devices: seq<Device>, config: Option<Json>)
    requires IsAddress(TargetOf(command, PingDefault)) && LinksIterable(config)
    requires forall d :: d in DeviceTable(devices) ==> TargetOf(command, PingDefault) !in OwnedAddresses(d)
    ensures PingOutput(command, src, devices, config) == Printed(PingFailure(TargetOf(command, PingDefault)))
  {
    var t := TargetOf(command, PingDefault);
    var table := DeviceTable(devices);
    forall x ensures x !in TargetOwners(devices, t) {
      OwnersIff(table, t, x);
      assert forall i :: 0 <= i < |table| ==> table[i] in table;
    }
    NotReachable(devices, config, src, t);
    PingFails(command, src, devices, config);
  }

  /** No walk ending at an owner: the target is not reachable. */
  lemma NotReachable(devices: seq<Device>, config: Option<Json>, src: string, t: string)
    requires forall w :: WalkFrom(LabGraph(devices, config), src, w) ==> Last(w) !in TargetOwners(devices, t)
    ensures !Reachable(devices, config, src, t)
  {
  }

  /** An address that cannot be reached gives the failure report. */
  lemma PingFails(command: string, src: string, devices: seq<Device>, config: Option<Json>)
    requires IsAddress(TargetOf(command, PingDefault)) && LinksIterable(config)
    requires !Reachable(devices, config, src, TargetOf(command, PingDefault))
    ensures PingOutput(command, src, devices, config) == Printed(PingFailure(TargetOf(command, PingDefault)))
  {
  }

  /**
    Without stored links, a device that is neither router, switch nor PC
    is on no edge: if it alone owns the target, every other device's ping
    fails.
  */
  lemma PingIsolated(command: string, src: string, devices: seq<Device>, config: Option<Json>, d: Device)
    requires IsAddress(TargetOf(command, PingDefault)) && !ExplicitMode(config)
    requires d in DeviceTable(devices) && d.name != src
    requires !HasRole(d, "router") && !HasRole(d, "switch") && !HasRole(d, "pc")
    requires TargetOwners(devices, TargetOf(command, PingDefault)) == [d.name]
    ensures PingOutput(command, src, devices, config) == Printed(PingFailure(TargetOf(command, PingDefault)))
  {
    var t := TargetOf(command, PingDefault);
    DerivedIterable(config);
    forall w | WalkFrom(LabGraph(devices, config), src, w) ensures Last(w) !in TargetOwners(devices, t) {
      IsolatedWalk(devices, config, src, d, w);
    }
    NotReachable(devices, config, src, t);
    PingFails(command, src, devices, config);
  }

  /** No walk from another device ends at a device on no edge. */
  lemma IsolatedWalk(devices: seq<Device>, config: Option<Json>, src: string, d: Device, w: seq<string>)
    requires !ExplicitMode(config) && d in DeviceTable(devices) && d.name != src
    requires !HasRole(d, "router") && !HasRole(d, "switch") && !HasRole(d, "pc")
    requires WalkFrom(LabGraph(devices, config), src, w)
    ensures Last(w) != d.name
  {
    if |w| > 1 {
      var x := w[|w| - 2];
      assert w[|w| - 1] in Neighbours(LabGraph(devices, config), x);
      IsolatedNoNeighbour(devices, config, d, x);
    }
  }

  /** A device that is neither router, switch nor PC is nobody's neighbour in the derived graph. */
  lemma IsolatedNoNeighbour(devices: seq<Device>, config: Option<Json>, d: Device, x: string)
    requires !ExplicitMode(config) && d in DeviceTable(devices)
    requires !HasRole(d, "router") && !HasRole(d, "switch") && !HasRole(d, "pc")
    ensures d.name !in Neighbours(LabGraph(devices, config), x)
  {
    var table := DeviceTable(devices);
    var es := TopologyEdges(table, config);
    forall i | 0 <= i < |es| ensures es[i] != (x, d.name) && es[i] != (d.name, x) {
      DerivedIsolation(table, d, i);
    }
    AdjacencyMembers(es, x, d.name);
  }

  // ---------------------------------------------------------------- traceroute

  /** The latency shown for node k of the path: 1 at the source, else from the link leading to it. */
  function HopLatencyAt(path: seq<string>, k: nat, links: seq<Json>, config: Option<Json>, sm: Sampler): (l: int)
    requires k < |path|
    ensures l >= 1
  {
    if k == 0 then 1 else HopLatency(FindLink(links, path[k - 1], path[k]), config, k, sm)
  }

  /** The interface labels shown for node k: none at the source, else those of the link leading to it. */
  function HopIfaceAt(path: seq<string>, k: nat, links: seq<Json>): Option<string>
    requires k < |path|
  {
    if k == 0 then Some("") else IfaceInfo(FindLink(links, path[k - 1], path[k]))
  }

  /** One hop line: number, node, labels, then max(1, l - 1), l and l + 1 milliseconds. */
  function HopText(hop: nat, node: string, iface: string, l: nat): string {
    "  " + NatToString(hop) + " " + node + iface + " [simulated] "
    + NatToString(Max(1, l - 1)) + " msec " + NatToString(l) + " msec " + NatToString(l + 1) + " msec"
  }

  /** Every hop's labels can be shown (str() of an array or object is not modelled). */
  predicate Showable(path: seq<string>, links: seq<Json>) {
    forall k :: 0 <= k < |path| ==> HopIfaceAt(path, k, links).Some?
  }

  /** The line for node k: hop number k + 1, the node, the labels and latency of the link leading to it. */
  function HopLine(path: seq<string>, k: nat, links: seq<Json>, config: Option<Json>, sm: Sampler): string
    requires k < |path|
  {
    var iface := match HopIfaceAt(path, k, links) case Some(x) => x case None => "";
    HopText(k + 1, path[k], iface, HopLatencyAt(path, k, links, config, sm))
  }

  /** One line per node of the path, in path order; None when a label cannot be shown. */
  function HopLines(path: seq<string>, links: seq<Json>, config: Option<Json>, sm: Sampler): (r: Option<seq<string>>)
    ensures r.Some? ==> |r.value| == |path|
  {
    if Showable(path, links) then Some(seq(|path|, k requires 0 <= k < |path| => HopLine(path, k, links, config, sm)))
    else None
  }

  /** The loop that appends one line per node of the path, counting hops from 1. */
  method TraceLines(path: seq<string>, links: seq<Json>, config: Option<Json>, sm: Sampler) returns (lines: Option<seq<string>>)
    ensures lines == HopLines(path, links, config, sm)
  {
    var acc: seq<string> := [];
    var hop := 1;
    for i := 0 to |path|
      invariant hop == i + 1 && |acc| == i
      invariant LinesSoFar(path, links, config, sm, acc)
    {
      var latency := 1;
      var iface := "";
      if i > 0 {
        var meta := FindLinkIn(links, path[i - 1], path[i]);
        latency := HopLatency(meta, config, i, sm);
        var info := IfaceInfo(meta);
        if info.None? {
          assert !Showable(path, links) by {
            assert HopIfaceAt(path, i, links).None?;
          }
          return None;
        }
        iface := info.value;
      }
      assert HopIfaceAt(path, i, links) == Some(iface) && HopLatencyAt(path, i, links, config, sm) == latency;
      var line := HopText(hop, path[i], iface, latency);
      assert line == HopLine(path, i, links, config, sm);
      LinesSoFarAppend(path, links, config, sm, acc, line);
      acc := acc + [line];
      hop := hop + 1;
    }
    assert Showable(path, links);
    assert acc == HopLines(path, links, config, sm).value;
    return Some(acc);
  }

  /** The lines built so far are those of the first |acc| nodes, whose labels can all be shown. */
  predicate LinesSoFar(path: seq<string>, links: seq<Json>, config: Option<Json>, sm: Sampler, acc: seq<string>) {
    |acc| <= |path| &&
    forall k :: 0 <= k < |acc| ==> HopIfaceAt(path, k, links).Some? && acc[k] == HopLine(path, k, links, config, sm)
  }

  lemma LinesSoFarAppend(path: seq<string>, links: seq<Json>, config: Option<Json>, sm: Sampler, acc: seq<string>, line: string)
    requires LinesSoFar(path, links, config, sm, acc) && |acc| < |path|
    requires HopIfaceAt(path, |acc|, links).Some? && line == HopLine(path, |acc|, links, config, sm)
    ensures LinesSoFar(path, links, config, sm, acc + [line])
  {
    var s := acc + [line];
    forall k | 0 <= k < |s| ensures HopIfaceAt(path, k, links).Some? && s[k] == HopLine(path, k, links, config, sm) {
      if k < |acc| {
        assert s[k] == acc[k];
      }
    }
  }

  /** A hop without link metadata: latency 1 and no labels. */
  lemma PlainHopText(hop: nat, node: string)
    ensures HopText(hop, node, "", 1) == "  " + NatToString(hop) + " " + node + " [simulated] 1 msec 1 msec 2 msec"
  {
    assert NatToString(1) == "1" && NatToString(2) == "2";
    assert Max(1, 0) == 1;
  }

  function RouteHeader(t: string): string {
    "Tracing the route to " + t
  }

  /** The reply when no owner of the target can be reached. */
  function NoRoute(t: string): string {
    RouteHeader(t) + "\n  * * *"
  }

  /** The header and the hop lines, joined by newlines. */
  function RouteText(t: string, lines: Option<seq<string>>): Reply {
    match lines
    case None => NotModelled
    case Some(ls) => Printed(JoinOn([RouteHeader(t)] + ls, '\n'))
  }

  /** The links _find_link looks through: the stored links' entries. */
  function LinkEntries(config: Option<Json>): seq<Json> {
    Entries(LinksValue(config))
  }

  /**
    What traceroute answers: refusal of a non-address; a raise when the
    stored links cannot be iterated; "* * *" exactly when no owner is
    reachable; otherwise the lines of a fewest-hop route (NotModelled when
    a label cannot be shown).
  */
  ghost predicate TraceOutcome(command: string, src: string, devices: seq<Device>, config: Option<Json>, sm: Sampler,
                               out: Reply) {
    var t := TargetOf(command, TraceDefault);
    if !IsAddress(t) then out == Printed(UnknownHost(t))
    else if !LinksIterable(config) then out == Raised
    else if !Reachable(devices, config, src, t) then out == Printed(NoRoute(t))
    else exists p :: ShortestRoute(devices, config, src, t, p) && out == RouteText(t, HopLines(p, LinkEntries(config), config, sm))
  }

  /** The traceroute branch of simulate_network_command, run on the device named src. */
  method Traceroute(command: string, src: string, devices: seq<Device>, config: Option<Json>, sm: Sampler)
    returns (out: Reply)
    ensures TraceOutcome(command, src, devices, config, sm, out)
  {
    var t := TargetOf(command, TraceDefault);
    if !IsAddress(t) {
      return Printed(UnknownHost(t));
    }
    var raised, path := FindRoute(src, devices, config, t);
    if raised {
      return Raised;
    }
    if path.None? {
      return Printed(NoRoute(t));
    }
    var lines := TraceLines(path.value, LinkEntries(config), config, sm);
    out := RouteText(t, lines);
  }

  /** The source is hop 1, with no labels, at latency 1 (its line reads as PlainHopText shows). */
  lemma SourceHop(path: seq<string>, links: seq<Json>, config: Option<Json>, sm: Sampler)
    requires |path| > 0 && HopLines(path, links, config, sm).Some?
    ensures HopLines(path, links, config, sm).value[0] == HopText(1, path[0], "", 1)
  {
    assert HopLines(path, links, config, sm).value[0] == HopLine(path, 0, links, config, sm);
  }

  /**
    With a jitter seed s, hop k (k >= 1) over a costed link with positive
    jitter shows the draw seeded with s + k: the first link uses s + 1.
  */
  lemma SeededHop(path: seq<string>, k: nat, links: seq<Json>, config: Option<Json>, sm: Sampler, f: Fields)
    requires 0 < k < |path| && FindLink(links, path[k - 1], path[k]) == Some(f)
    requires Get(f, "cost").Some? && JitterOf(f) > 0 && SeedOf(config).Seeded?
    ensures HopLatencyAt(path, k, links, config, sm)
         == Max(1, BaseCost(f) + sm.seeded(SeedOf(config).n + k, JitterOf(f)))
  {
    HopOverLink(path, k, links, config, sm, f);
    SeededDraw(f, config, k, sm);
  }

  /** Past the source, a hop's latency is that of the link found for it. */
  lemma HopOverLink(path: seq<string>, k: nat, links: seq<Json>, config: Option<Json>, sm: Sampler, f: Fields)
    requires 0 < k < |path| && FindLink(links, path[k - 1], path[k]) == Some(f)
    ensures HopLatencyAt(path, k, links, config, sm) == HopLatency(Some(f), config, k, sm)
  {
  }

  /**
    Tracing an address of the device itself gives the header and the one
    source line.
  */
  lemma TraceSelf(command: string, src: string, devices: seq<Device>, config: Option<Json>, sm: Sampler, out: Reply)
    requires IsAddress(TargetOf(command, TraceDefault)) && LinksIterable(config)
    requires src in TargetOwners(devices, TargetOf(command, TraceDefault))
    requires TraceOutcome(command, src, devices, config, sm, out)
    ensures out == Printed(JoinOn([RouteHeader(TargetOf(command, TraceDefault)), HopText(1, src, "", 1)], '\n'))
  {
    var t := TargetOf(command, TraceDefault);
    SelfReachable(devices, config, src, t);
    var p :| ShortestRoute(devices, config, src, t, p) && out == RouteText(t, HopLines(p, LinkEntries(config), config, sm));
    SelfRoute(devices, config, src, t, p);
    SelfLines(src, LinkEntries(config), config, sm);
    PairDisplay(RouteHeader(t), HopText(1, src, "", 1));
  }

  /** When the source owns the target, the only fewest-hop route is the source alone. */
  lemma SelfRoute(devices: seq<Device>, config: Option<Json>, src: string, t: string, p: seq<string>)
    requires src in TargetOwners(devices, t) && ShortestRoute(devices, config, src, t, p)
    ensures p == [src]
  {
    OneNodeWalk(LabGraph(devices, config), src, TargetOwners(devices, t));
    assert |p| == 1;
  }

  /** The route [src] prints as its one source line. */
  lemma SelfLines(src: string, links: seq<Json>, config: Option<Json>, sm: Sampler)
    ensures HopLines([src], links, config, sm) == Some([HopText(1, src, "", 1)])
  {
    var line := HopText(1, src, "", 1);
    assert Showable([src], links);
    SourceHop([src], links, config, sm);
    var lines := HopLines([src], links, config, sm).value;
    assert |lines| == 1 && lines[0] == line;
    assert lines == [line];
  }

  /** Without link metadata every hop shows latency 1 and no labels: only the numbering and names vary. */
  lemma PlainHops(path: seq<string>, links: seq<Json>, config: Option<Json>, sm: Sampler)
    requires forall k :: 0 < k < |path| ==> FindLink(links, path[k - 1], path[k]).None?
    ensures HopLines(path, links, config, sm).Some?
    ensures forall k :: 0 <= k < |path| ==> HopLines(path, links, config, sm).value[k] == HopText(k + 1, path[k], "", 1)
  {
    assert Showable(path, links);
    forall k | 0 <= k < |path| ensures HopLines(path, links, config, sm).value[k] == HopText(k + 1, path[k], "", 1) {
      assert HopLines(path, links, config, sm).value[k] == HopLine(path, k, links, config, sm);
    }
  }
}
