/**
  The lab topology: devices, the links stored in the lab configuration,
  the edge list derived from them (or from device roles when there are no
  links), and the undirected adjacency the ping and traceroute commands
  search.  Everything here is a value; the handlers that build these
  values step by step are in GraphBuild and TopologySave.
*/
module Topology {
  import opened Options
  import opened Text
  import opened Json

  /**
    A lab device as the simulator reads it.  interfaces is the decoded
    interface JSON, None when the stored text is empty or does not decode;
    initialConfig is "" when no configuration is stored.
  */
  datatype Device = Device(name: string, deviceType: string, interfaces: Option<Json>, initialConfig: string)

  /** An edge from one device name to another, in the orientation it was produced. */
  type Edge = (string, string)

  function Names(devices: seq<Device>): (r: seq<string>)
    ensures |r| == |devices| && forall i :: 0 <= i < |devices| ==> r[i] == devices[i].name
  {
    seq(|devices|, i requires 0 <= i < |devices| => devices[i].name)
  }

  predicate DistinctNames(devices: seq<Device>) {
    forall i, j :: 0 <= i < j < |devices| ==> devices[i].name != devices[j].name
  }

  // ---------------------------------------------------------------- the device table

  /** Index of the first device called name, or |t| when there is none. */
  function FindName(t: seq<Device>, name: string): (k: nat)
    ensures k <= |t|
    ensures k < |t| ==> t[k].name == name
    ensures forall i :: 0 <= i < k ==> t[i].name != name
  {
    if t == [] then 0
    else if t[0].name == name then 0
    else 1 + FindName(t[1..], name)
  }

  /** Storing d under its name in a dict: an existing entry is replaced in place, a new one goes last. */
  function Enter(t: seq<Device>, d: Device): seq<Device> {
    var k := FindName(t, d.name);
    if k < |t| then t[k := d] else t + [d]
  }

  /**
    {d.device_name: d for d in devices}, as the ping and traceroute
    commands build it: one entry per name, in order of first appearance,
    holding the last device of that name.
  */
  function DeviceTable(devices: seq<Device>): (t: seq<Device>)
    ensures DistinctNames(t)
    ensures forall x :: x in Names(t) <==> x in Names(devices)
  {
    if devices == [] then []
    else
      var rest := DeviceTable(devices[..|devices| - 1]);
      var d := devices[|devices| - 1];
      EnterKeepsNames(rest, d);
      assert forall x :: x in Names(devices) <==> x in Names(devices[..|devices| - 1]) || x == d.name by {
        assert forall i :: 0 <= i < |devices| - 1 ==> devices[..|devices| - 1][i] == devices[i];
      }
      Enter(rest, d)
  }

  lemma EnterKeepsNames(t: seq<Device>, d: Device)
    requires DistinctNames(t)
    ensures DistinctNames(Enter(t, d))
    ensures forall x :: x in Names(Enter(t, d)) <==> x in Names(t) || x == d.name
  {
    var k := FindName(t, d.name);
    var u := Enter(t, d);
    if k < |t| {
      assert forall i :: 0 <= i < |t| ==> u[i].name == t[i].name;
      assert Names(u) == Names(t);
    } else {
      assert forall i :: 0 <= i < |t| ==> u[i] == t[i];
      assert Names(u) == Names(t) + [d.name];
    }
  }

  /** Every entry of the table is the last device of its name. */
  lemma {:induction false} DeviceTableHoldsLast(devices: seq<Device>, j: nat)
    requires j < |DeviceTable(devices)|
    ensures exists i :: 0 <= i < |devices| && devices[i] == DeviceTable(devices)[j]
              && forall i' :: i < i' < |devices| ==> devices[i'].name != devices[i].name
    decreases |devices|
  {
    var n := |devices|;
    var init := devices[..n - 1];
    var rest := DeviceTable(init);
    var d := devices[n - 1];
    var t := DeviceTable(devices);
    assert t == Enter(rest, d);
    var k := FindName(rest, d.name);
    if t[j] == d {
      assert devices[n - 1] == t[j];
    } else {
      assert j < |rest| && t[j] == rest[j];
      assert rest[j].name != d.name by {
        if k < |rest| {
          assert j != k;
          assert rest[k].name == d.name;
        }
      }
      DeviceTableHoldsLast(init, j);
      var i :| 0 <= i < |init| && init[i] == rest[j]
                && forall i' :: i < i' < |init| ==> init[i'].name != init[i].name;
      assert devices[i] == t[j];
      LaterNamesDiffer(devices, init, i);
    }
  }

  /** A name not repeated later in the prefix, nor by the last device, is not repeated later at all. */
  lemma LaterNamesDiffer(devices: seq<Device>, init: seq<Device>, i: nat)
    requires i < |devices| - 1 && init == devices[..|devices| - 1]
    requires forall i' :: i < i' < |init| ==> init[i'].name != devices[i].name
    requires devices[|devices| - 1].name != devices[i].name
    ensures forall i' :: i < i' < |devices| ==> devices[i'].name != devices[i].name
  {
    forall i' | i < i' < |devices| ensures devices[i'].name != devices[i].name {
      if i' < |devices| - 1 {
        assert devices[i'] == init[i'];
      }
    }
  }

  /** With distinct names the table is the device list itself. */
  lemma {:induction false} DeviceTableOfDistinct(devices: seq<Device>)
    requires DistinctNames(devices)
    ensures DeviceTable(devices) == devices
    decreases |devices|
  {
    if devices != [] {
      var n := |devices|;
      var init := devices[..n - 1];
      DeviceTableOfDistinct(init);
      var d := devices[n - 1];
      assert FindName(init, d.name) == |init|;
      assert init + [d] == devices;
    }
  }

  // ---------------------------------------------------------------- roles

  /** d.device_type and d.device_type.lower() == role */
  predicate HasRole(d: Device, role: string) {
    d.deviceType != [] && EqualsIgnoringCase(d.deviceType, role)
  }

  /** [d.device_name for d in devices if <d has role>] */
  function RoleNames(devices: seq<Device>, role: string): (r: seq<string>)
    ensures forall x :: x in r <==> exists i :: 0 <= i < |devices| && devices[i].name == x && HasRole(devices[i], role)
  {
    if devices == [] then []
    else
      var init := devices[..|devices| - 1];
      var d := devices[|devices| - 1];
      assert forall i :: 0 <= i < |init| ==> init[i] == devices[i];
      RoleNames(init, role) + (if HasRole(d, role) then [d.name] else [])
  }

  // ---------------------------------------------------------------- stored links

  /**
    cfg.get("links", []) or [] for the decoded lab configuration.  A
    configuration that does not decode, or decodes to something other than
    an object, yields [] (the handlers catch the error).
  */
  function LinksValue(config: Option<Json>): Json {
    match config
    case Some(JObj(fields)) =>
      (match Get(fields, "links")
       case Some(v) => if Truthy(v) then v else JArr([])
       case None => JArr([]))
    case _ => JArr([])
  }

  /** Stored links are used, rather than device roles, exactly when the links value is truthy. */
  predicate ExplicitMode(config: Option<Json>) {
    Truthy(LinksValue(config))
  }

  /**
    `for link in links` runs without raising: a truthy integer or boolean
    raises TypeError there, outside any try, so the whole request fails.
    A string or an object iterates its characters or keys, which are
    skipped as links.
  */
  predicate LinksIterable(config: Option<Json>) {
    !LinksValue(config).JInt? && !LinksValue(config).JBool?
  }

  /** Without stored links nothing is iterated, so nothing raises. */
  lemma DerivedIterable(config: Option<Json>)
    requires !ExplicitMode(config)
    ensures LinksIterable(config)
  {
  }

  /**
    The entries `for link in links` visits that can be links: the items of
    an array.  Iterating a string or an object yields strings, which are
    never links; an integer or a boolean is not iterable (LinksIterable).
  */
  function Entries(links: Json): seq<Json> {
    if links.JArr? then links.items else []
  }

  /** A name among the device names, when v holds one. */
  function NameIn(v: Option<Json>, names: seq<string>): Option<string> {
    if v.Some? && v.value.JStr? && v.value.s in names then Some(v.value.s) else None
  }

  /**
    The edge a stored link stands for: an object with "from" and "to", or
    an array whose first two items are names; None when an endpoint is not
    a device name, or the entry is neither.
  */
  function EntryEdge(e: Json, names: seq<string>): (r: Option<Edge>)
    ensures r.Some? ==> r.value.0 in names && r.value.1 in names
  {
    match e
    case JObj(fields) =>
      (match (NameIn(Get(fields, "from"), names), NameIn(Get(fields, "to"), names))
       case (Some(a), Some(b)) => Some((a, b))
       case _ => None)
    case JArr(items) =>
      if |items| >= 2 && items[0].JStr? && items[0].s in names && items[1].JStr? && items[1].s in names
      then Some((items[0].s, items[1].s))
      else None
    case _ => None
  }

  /** The edges of the stored links, in list order, with unusable entries dropped. */
  function ExplicitEdges(entries: seq<Json>, names: seq<string>): (r: seq<Edge>)
    ensures forall i :: 0 <= i < |r| ==> r[i].0 in names && r[i].1 in names
  {
    if entries == [] then []
    else
      var last := entries[|entries| - 1];
      ExplicitEdges(entries[..|entries| - 1], names)
      + (match EntryEdge(last, names) case Some(e) => [e] case None => [])
  }

  /** Membership is all ExplicitEdges asks of the names: the same name set gives the same edges. */
  lemma {:induction false} ExplicitEdgesByNameSet(entries: seq<Json>, n1: seq<string>, n2: seq<string>)
    requires forall x :: x in n1 <==> x in n2
    ensures ExplicitEdges(entries, n1) == ExplicitEdges(entries, n2)
    decreases |entries|
  {
    if entries != [] {
      ExplicitEdgesByNameSet(entries[..|entries| - 1], n1, n2);
    }
  }

  // ---------------------------------------------------------------- derived edges

  /** (xs[i], xs[i + 1]) for consecutive elements. */
  function Chain(xs: seq<string>): (r: seq<Edge>)
    ensures |r| == if xs == [] then 0 else |xs| - 1
    ensures forall i :: 0 <= i < |r| ==> r[i] == (xs[i], xs[i + 1])
  {
    if |xs| <= 1 then [] else seq(|xs| - 1, i requires 0 <= i < |xs| - 1 => (xs[i], xs[i + 1]))
  }

  /** (x, hub) for every x. */
  function Star(xs: seq<string>, hub: string): (r: seq<Edge>)
    ensures |r| == |xs|
    ensures forall i :: 0 <= i < |r| ==> r[i] == (xs[i], hub)
  {
    seq(|xs|, i requires 0 <= i < |xs| => (xs[i], hub))
  }

  /** The edges attaching switches: to the first router, or a chain when there is none. */
  function SwitchEdges(routers: seq<string>, switches: seq<string>): seq<Edge> {
    if routers != [] then Star(switches, routers[0]) else Chain(switches)
  }

  /** The edges attaching PCs: to the first switch, else to the first router, else none. */
  function PcEdges(routers: seq<string>, switches: seq<string>, pcs: seq<string>): seq<Edge> {
    if switches != [] then Star(pcs, switches[0])
    else if routers != [] then Star(pcs, routers[0])
    else []
  }

  /** The role-based topology used when there are no stored links. */
  function DerivedEdges(devices: seq<Device>): seq<Edge> {
    var routers := RoleNames(devices, "router");
    var switches := RoleNames(devices, "switch");
    var pcs := RoleNames(devices, "pc");
    Chain(routers) + SwitchEdges(routers, switches) + PcEdges(routers, switches, pcs)
  }

  /** The edges of a lab: its stored links when there are any, otherwise the role-based ones. */
  function TopologyEdges(devices: seq<Device>, config: Option<Json>): seq<Edge> {
    if ExplicitMode(config) then ExplicitEdges(Entries(LinksValue(config)), Names(devices))
    else DerivedEdges(devices)
  }

  /** Both endpoints of every edge are names of lab devices. */
  lemma TopologyEdgesAreDevices(devices: seq<Device>, config: Option<Json>)
    ensures forall i :: 0 <= i < |TopologyEdges(devices, config)| ==>
              TopologyEdges(devices, config)[i].0 in Names(devices) && TopologyEdges(devices, config)[i].1 in Names(devices)
  {
    if !ExplicitMode(config) {
      var es := DerivedEdges(devices);
      forall i | 0 <= i < |es| ensures es[i].0 in Names(devices) && es[i].1 in Names(devices) {
        DerivedEndpoint(devices, i);
      }
    }
  }

  /** A role-list element is a device name with that role. */
  lemma RoleMember(devices: seq<Device>, role: string, x: string)
    requires x in RoleNames(devices, role)
    ensures x in Names(devices)
  {
    var i :| 0 <= i < |devices| && devices[i].name == x && HasRole(devices[i], role);
    assert Names(devices)[i] == x;
  }

  /** Each endpoint of a derived edge is a router, a switch or a PC of the lab. */
  lemma DerivedEndpoint(devices: seq<Device>, i: nat)
    requires i < |DerivedEdges(devices)|
    ensures var e := DerivedEdges(devices)[i];
      && (e.0 in RoleNames(devices, "router") || e.0 in RoleNames(devices, "switch") || e.0 in RoleNames(devices, "pc"))
      && (e.1 in RoleNames(devices, "router") || e.1 in RoleNames(devices, "switch"))
      && e.0 in Names(devices) && e.1 in Names(devices)
  {
    var routers := RoleNames(devices, "router");
    var switches := RoleNames(devices, "switch");
    var pcs := RoleNames(devices, "pc");
    var e := DerivedEdges(devices)[i];
    RoleEdgeEnds(routers, switches, pcs, i);
    if e.0 in routers { RoleMember(devices, "router", e.0); }
    if e.0 in switches { RoleMember(devices, "switch", e.0); }
    if e.0 in pcs { RoleMember(devices, "pc", e.0); }
    if e.1 in routers { RoleMember(devices, "router", e.1); }
    if e.1 in switches { RoleMember(devices, "switch", e.1); }
  }

  /** Each role-based edge runs from a router, switch or PC to a router or switch. */
  lemma RoleEdgeEnds(routers: seq<string>, switches: seq<string>, pcs: seq<string>, i: nat)
    requires i < |Chain(routers) + SwitchEdges(routers, switches) + PcEdges(routers, switches, pcs)|
    ensures var e := (Chain(routers) + SwitchEdges(routers, switches) + PcEdges(routers, switches, pcs))[i];
      && (e.0 in routers || e.0 in switches || e.0 in pcs)
      && (e.1 in routers || e.1 in switches)
  {
    var c, s, p := Chain(routers), SwitchEdges(routers, switches), PcEdges(routers, switches, pcs);
    var e := (c + s + p)[i];
    if i < |c| {
      assert e == c[i];
    } else if i < |c| + |s| {
      assert e == s[i - |c|];
    } else {
      assert e == p[i - |c| - |s|];
    }
  }

  /** A device that is not a router, switch or PC is on no derived edge. */
  lemma DerivedIsolation(devices: seq<Device>, d: Device, i: nat)
    requires DistinctNames(devices) && d in devices
    requires !HasRole(d, "router") && !HasRole(d, "switch") && !HasRole(d, "pc")
    requires i < |DerivedEdges(devices)|
    ensures DerivedEdges(devices)[i].0 != d.name && DerivedEdges(devices)[i].1 != d.name
  {
    DerivedEndpoint(devices, i);
    var j :| 0 <= j < |devices| && devices[j] == d;
    NotInRole(devices, j, "router");
    NotInRole(devices, j, "switch");
    NotInRole(devices, j, "pc");
  }

  /** With distinct names, a device without a role is missing from that role's list. */
  lemma NotInRole(devices: seq<Device>, j: nat, role: string)
    requires DistinctNames(devices) && j < |devices| && !HasRole(devices[j], role)
    ensures devices[j].name !in RoleNames(devices, role)
  {
  }

  /** The derived topology: the router chain, the switch attachments, and every PC on the hub. */
  lemma DerivedShape(devices: seq<Device>)
    ensures var routers, switches, pcs := RoleNames(devices, "router"), RoleNames(devices, "switch"), RoleNames(devices, "pc");
      var es := DerivedEdges(devices);
      && (forall i :: 0 <= i < |routers| - 1 ==> (routers[i], routers[i + 1]) in es)
      && (routers != [] ==> forall sw :: sw in switches ==> (sw, routers[0]) in es)
      && (routers == [] ==> forall i :: 0 <= i < |switches| - 1 ==> (switches[i], switches[i + 1]) in es)
      && (switches != [] ==> forall pc :: pc in pcs ==> (pc, switches[0]) in es)
      && (switches == [] && routers != [] ==> forall pc :: pc in pcs ==> (pc, routers[0]) in es)
      && (routers == [] && switches == [] ==> es == [])
  {
    var routers, switches, pcs := RoleNames(devices, "router"), RoleNames(devices, "switch"), RoleNames(devices, "pc");
    var c, s, p := Chain(routers), SwitchEdges(routers, switches), PcEdges(routers, switches, pcs);
    assert DerivedEdges(devices) == c + s + p;
    ChainMembers(routers);
    if routers != [] {
      StarMembers(switches, routers[0]);
    } else {
      ChainMembers(switches);
    }
    if switches != [] {
      StarMembers(pcs, switches[0]);
    } else if routers != [] {
      StarMembers(pcs, routers[0]);
    }
  }

  lemma ChainMembers(xs: seq<string>)
    ensures forall i :: 0 <= i < |xs| - 1 ==> (xs[i], xs[i + 1]) in Chain(xs)
  {
    var c := Chain(xs);
    forall i | 0 <= i < |xs| - 1 ensures (xs[i], xs[i + 1]) in c {
      assert c[i] == (xs[i], xs[i + 1]);
    }
  }

  lemma StarMembers(xs: seq<string>, hub: string)
    ensures forall x :: x in xs ==> (x, hub) in Star(xs, hub)
  {
    var st := Star(xs, hub);
    forall x | x in xs ensures (x, hub) in st {
      var k :| 0 <= k < |xs| && xs[k] == x;
      assert st[k] == (x, hub);
    }
  }

  // ---------------------------------------------------------------- adjacency

  /** collections.defaultdict(list): name -> neighbour names in insertion order. */
  type Adjacency = map<string, seq<string>>

  /** adj.get(x, []) */
  function Neighbours(adj: Adjacency, x: string): seq<string> {
    if x in adj then adj[x] else []
  }

  /** adj[a].append(b); adj[b].append(a) */
  function AddEdge(adj: Adjacency, e: Edge): Adjacency {
    var adj1 := adj[e.0 := Neighbours(adj, e.0) + [e.1]];
    adj1[e.1 := Neighbours(adj1, e.1) + [e.0]]
  }

  /** The edges added one after another, in order. */
  function AddEdges(adj: Adjacency, es: seq<Edge>): Adjacency {
    if es == [] then adj else AddEdge(AddEdges(adj, es[..|es| - 1]), es[|es| - 1])
  }

  /** The adjacency of an edge list, starting from the empty defaultdict. */
  function AdjacencyOf(es: seq<Edge>): Adjacency {
    AddEdges(map[], es)
  }

  lemma NeighboursAddEdge(adj: Adjacency, e: Edge, a: string)
    ensures Neighbours(AddEdge(adj, e), a)
         == Neighbours(adj, a) + (if a == e.0 then [e.1] else []) + (if a == e.1 then [e.0] else [])
  {
  }

  lemma {:induction false} AddEdgesAppend(adj: Adjacency, ps: seq<Edge>, qs: seq<Edge>)
    ensures AddEdges(adj, ps + qs) == AddEdges(AddEdges(adj, ps), qs)
    decreases |qs|
  {
    if qs == [] {
      assert ps + qs == ps;
    } else {
      var n := |qs|;
      assert (ps + qs)[..|ps + qs| - 1] == ps + qs[..n - 1];
      assert (ps + qs)[|ps + qs| - 1] == qs[n - 1];
      AddEdgesAppend(adj, ps, qs[..n - 1]);
    }
  }

  /** Adding the first i + 1 edges is adding the first i, then edge i. */
  lemma AddEdgesStep(adj: Adjacency, es: seq<Edge>, i: nat)
    requires i < |es|
    ensures AddEdges(adj, es[..i + 1]) == AddEdge(AddEdges(adj, es[..i]), es[i])
  {
    assert es[..i + 1][..i] == es[..i];
  }

  /** How many times the directed pair (a, b) occurs. */
  function Directed(es: seq<Edge>, a: string, b: string): nat {
    if es == [] then 0
    else Directed(es[..|es| - 1], a, b) + (if es[|es| - 1] == (a, b) then 1 else 0)
  }

  lemma {:induction false} DirectedPositive(es: seq<Edge>, a: string, b: string)
    ensures Directed(es, a, b) > 0 <==> (a, b) in es
    decreases |es|
  {
    if es != [] {
      var init := es[..|es| - 1];
      DirectedPositive(init, a, b);
      assert es == init + [es[|es| - 1]];
    }
  }

  /**
    The neighbour list of a gains b once for every edge (a, b) and once for
    every edge (b, a): each edge is recorded in both directions.
  */
  lemma {:induction false} AddEdgesCount(adj: Adjacency, es: seq<Edge>, a: string, b: string)
    ensures multiset(Neighbours(AddEdges(adj, es), a))[b]
         == multiset(Neighbours(adj, a))[b] + Directed(es, a, b) + Directed(es, b, a)
    decreases |es|
  {
    if es != [] {
      var init := es[..|es| - 1];
      var e := es[|es| - 1];
      AddEdgesCount(adj, init, a, b);
      NeighboursAddEdge(AddEdges(adj, init), e, a);
    }
  }

  /** The adjacency is symmetric: b is listed under a as often as a is listed under b. */
  lemma AdjacencySymmetric(es: seq<Edge>, a: string, b: string)
    ensures multiset(Neighbours(AdjacencyOf(es), a))[b] == multiset(Neighbours(AdjacencyOf(es), b))[a]
  {
    AddEdgesCount(map[], es, a, b);
    AddEdgesCount(map[], es, b, a);
  }

  /** b is a neighbour of a exactly when some edge joins them, in either orientation. */
  lemma AdjacencyMembers(es: seq<Edge>, a: string, b: string)
    ensures b in Neighbours(AdjacencyOf(es), a) <==> (a, b) in es || (b, a) in es
  {
    AddEdgesCount(map[], es, a, b);
    DirectedPositive(es, a, b);
    DirectedPositive(es, b, a);
  }
}
