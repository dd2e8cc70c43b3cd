/**
  The two places the simulator turns a lab into a graph: the adjacency
  the ping and traceroute commands build before searching it, and the
  edge list lab_topology hands to the visualisation.  Both follow the
  same rules (stored links, else device roles); the lemma at the end shows
  that the visualisation's edge list, read back as links and expanded in
  both directions, is the adjacency the commands search.
*/
module GraphBuild {
  import opened Options
  import opened Json
  import opened Topology
  import opened Text

  /** The link keys lab_topology copies onto an edge, in the order it copies them. */
  const EdgeMetadataKeys: seq<string> := ["label", "cost", "src_if", "dst_if", "jitter"]

  /** The (key, value) pairs of fields for the keys it has, in the order of keys. */
  function Metadata(fields: seq<(string, Json)>, keys: seq<string>): (r: seq<(string, Json)>)
    ensures forall i :: 0 <= i < |r| ==> r[i].0 in keys
  {
    if keys == [] then []
    else
      var head := match Get(fields, keys[0]) case Some(v) => [(keys[0], v)] case None => [];
      var rest := Metadata(fields, keys[1..]);
      assert forall i :: 0 <= i < |rest| ==> rest[i].0 in keys;
      head + rest
  }

  /** The copied pairs are exactly the listed keys the link has, with the link's values. */
  lemma {:induction false} MetadataCopies(fields: seq<(string, Json)>, keys: seq<string>, k: string)
    requires k in keys
    ensures Get(Metadata(fields, keys), k) == Get(fields, k)
  {
    var head := match Get(fields, keys[0]) case Some(v) => [(keys[0], v)] case None => [];
    var rest := Metadata(fields, keys[1..]);
    assert Metadata(fields, keys) == head + rest;
    if k in keys[1..] {
      MetadataCopies(fields, keys[1..], k);
      GetAppend(head, rest, k);
    } else {
      assert k == keys[0];
      assert forall i :: 0 <= i < |rest| ==> rest[i].0 != k;
      GetAbsent(rest, k);
      GetAppend(head, rest, k);
    }
  }

  /** {"from": a, "to": b} followed by the copied metadata. */
  function EdgeRecord(e: Edge, meta: seq<(string, Json)>): Json {
    JObj([("from", JStr(e.0)), ("to", JStr(e.1))] + meta)
  }

  /** The visualisation edge for one stored link: metadata is copied from link objects only. */
  function EntryRecord(entry: Json, names: seq<string>): Option<Json> {
    match EntryEdge(entry, names)
    case None => None
    case Some(e) => Some(EdgeRecord(e, if entry.JObj? then Metadata(entry.fields, EdgeMetadataKeys) else []))
  }

  function ExplicitRecords(entries: seq<Json>, names: seq<string>): seq<Json> {
    if entries == [] then []
    else
      ExplicitRecords(entries[..|entries| - 1], names)
      + (match EntryRecord(entries[|entries| - 1], names) case Some(r) => [r] case None => [])
  }

  /** Records without metadata, one per edge. */
  function PlainRecords(es: seq<Edge>): seq<Json> {
    if es == [] then [] else PlainRecords(es[..|es| - 1]) + [EdgeRecord(es[|es| - 1], [])]
  }

  lemma PlainRecordsStep(es: seq<Edge>, i: nat)
    requires i < |es|
    ensures PlainRecords(es[..i + 1]) == PlainRecords(es[..i]) + [EdgeRecord(es[i], [])]
  {
    assert es[..i + 1][..i] == es[..i];
  }

  lemma {:induction false} PlainRecordsAppend(ps: seq<Edge>, qs: seq<Edge>)
    ensures PlainRecords(ps + qs) == PlainRecords(ps) + PlainRecords(qs)
    decreases |qs|
  {
    if qs == [] {
      assert ps + qs == ps;
    } else {
      var s := ps + qs;
      assert s[..|s| - 1] == ps + qs[..|qs| - 1];
      PlainRecordsAppend(ps, qs[..|qs| - 1]);
    }
  }

  /** The edge list lab_topology returns. */
  function TopologyRecords(devices: seq<Device>, config: Option<Json>): seq<Json> {
    if ExplicitMode(config) then ExplicitRecords(Entries(LinksValue(config)), Names(devices))
    else PlainRecords(DerivedEdges(devices))
  }

  /** A record read back as a stored link gives the edge it was made from. */
  lemma RecordEdge(e: Edge, meta: seq<(string, Json)>, names: seq<string>)
    requires e.0 in names && e.1 in names
    requires forall i :: 0 <= i < |meta| ==> meta[i].0 != "from" && meta[i].0 != "to"
    ensures EntryEdge(EdgeRecord(e, meta), names) == Some(e)
  {
    var fields := [("from", JStr(e.0)), ("to", JStr(e.1))] + meta;
    assert fields[0] == ("from", JStr(e.0)) && fields[1] == ("to", JStr(e.1));
    var ends := [("from", JStr(e.0)), ("to", JStr(e.1))];
    GetAbsent(meta, "from");
    GetAbsent(meta, "to");
    GetAppend(ends, meta, "from");
    GetAppend(ends, meta, "to");
    assert ends[..1] == [("from", JStr(e.0))];
  }

  lemma MetadataKeysAreNotEndpoints(fields: seq<(string, Json)>)
    ensures var m := Metadata(fields, EdgeMetadataKeys);
      forall i :: 0 <= i < |m| ==> m[i].0 != "from" && m[i].0 != "to"
  {
  }

  /** ExplicitEdges of a list with one more entry. */
  lemma ExplicitEdgesSnoc(init: seq<Json>, x: Json, names: seq<string>)
    ensures ExplicitEdges(init + [x], names)
         == ExplicitEdges(init, names) + (match EntryEdge(x, names) case Some(e) => [e] case None => [])
  {
    assert (init + [x])[..|init|] == init;
  }

  lemma {:induction false} ExplicitRecordsReadBack(entries: seq<Json>, names: seq<string>)
    ensures ExplicitEdges(ExplicitRecords(entries, names), names) == ExplicitEdges(entries, names)
    decreases |entries|
  {
    if entries != [] {
      var init := entries[..|entries| - 1];
      var last := entries[|entries| - 1];
      ExplicitRecordsReadBack(init, names);
      var rs := ExplicitRecords(init, names);
      assert entries == init + [last];
      ExplicitEdgesSnoc(init, last, names);
      match EntryRecord(last, names)
      case None =>
        assert ExplicitRecords(entries, names) == rs + [];
        assert rs + [] == rs;
      case Some(r) =>
        var e := EntryEdge(last, names).value;
        if last.JObj? {
          MetadataKeysAreNotEndpoints(last.fields);
        }
        RecordEdge(e, if last.JObj? then Metadata(last.fields, EdgeMetadataKeys) else [], names);
        ExplicitEdgesSnoc(rs, r, names);
    }
  }

  lemma {:induction false} DerivedRecordsReadBack(es: seq<Edge>, names: seq<string>)
    requires forall i :: 0 <= i < |es| ==> es[i].0 in names && es[i].1 in names
    ensures ExplicitEdges(PlainRecords(es), names) == es
    decreases |es|
  {
    if es != [] {
      var n := |es|;
      var init := es[..n - 1];
      DerivedRecordsReadBack(init, names);
      RecordEdge(es[n - 1], [], names);
      ExplicitEdgesSnoc(PlainRecords(init), EdgeRecord(es[n - 1], []), names);
      assert es == init + [es[n - 1]];
    }
  }

  /** The visualisation edges, read back as links, are exactly the lab's edges. */
  lemma TopologyRecordsReadBack(devices: seq<Device>, config: Option<Json>)
    ensures ExplicitEdges(TopologyRecords(devices, config), Names(devices)) == TopologyEdges(devices, config)
  {
    if ExplicitMode(config) {
      ExplicitRecordsReadBack(Entries(LinksValue(config)), Names(devices));
    } else {
      DerivedReadBack(devices);
    }
  }

  lemma DerivedReadBack(devices: seq<Device>)
    ensures ExplicitEdges(PlainRecords(DerivedEdges(devices)), Names(devices)) == DerivedEdges(devices)
  {
    var es := DerivedEdges(devices);
    forall i | 0 <= i < |es| ensures es[i].0 in Names(devices) && es[i].1 in Names(devices) {
      DerivedEndpoint(devices, i);
    }
    DerivedRecordsReadBack(es, Names(devices));
  }

  /** The edges between neighbours of xs added to adj in order: the router (or switch) chain loop. */
  method AddChain(adj: Adjacency, xs: seq<string>) returns (r: Adjacency)
    ensures r == AddEdges(adj, Chain(xs))
  {
    r := adj;
    var i := 0;
    while i + 1 < |xs|
      invariant i <= |Chain(xs)|
      invariant r == AddEdges(adj, Chain(xs)[..i])
    {
      AddEdgesStep(adj, Chain(xs), i);
      var a, b := xs[i], xs[i + 1];
      r := r[a := Neighbours(r, a) + [b]];
      r := r[b := Neighbours(r, b) + [a]];
      i := i + 1;
    }
    assert Chain(xs)[..i] == Chain(xs);
  }

  /** Every x joined to hub, added to adj in order: the switch and PC star loops. */
  method AddStar(adj: Adjacency, xs: seq<string>, hub: string) returns (r: Adjacency)
    ensures r == AddEdges(adj, Star(xs, hub))
  {
    r := adj;
    for k := 0 to |xs|
      invariant r == AddEdges(adj, Star(xs, hub)[..k])
    {
      AddEdgesStep(adj, Star(xs, hub), k);
      var x := xs[k];
      r := r[x := Neighbours(r, x) + [hub]];
      r := r[hub := Neighbours(r, hub) + [x]];
    }
    assert Star(xs, hub)[..|xs|] == Star(xs, hub);
  }

  /**
    The adjacency of the ping and traceroute commands: stored links when
    there are any, otherwise the role-based chain and stars, each edge
    appended in both directions.  None when the stored links value cannot
    be iterated, where the command raises.
  */
  method BuildAdjacency(table: seq<Device>, config: Option<Json>) returns (adj: Option<Adjacency>)
    ensures adj.None? <==> !LinksIterable(config)
    ensures adj.Some? ==> adj.value == AdjacencyOf(TopologyEdges(table, config))
  {
    var a: Adjacency := map[];
    var links := LinksValue(config);
    if Truthy(links) {
      if links.JInt? || links.JBool? {
        return None;
      }
      var entries := Entries(links);
      var names := Names(table);
      for i := 0 to |entries|
        invariant a == AdjacencyOf(ExplicitEdges(entries[..i], names))
      {
        assert entries[..i + 1] == entries[..i] + [entries[i]];
        ExplicitEdgesSnoc(entries[..i], entries[i], names);
        match EntryEdge(entries[i], names)
        case Some(e) =>
          AddEdgesAppend(map[], ExplicitEdges(entries[..i], names), [e]);
          a := a[e.0 := Neighbours(a, e.0) + [e.1]];
          a := a[e.1 := Neighbours(a, e.1) + [e.0]];
        case None =>
          assert ExplicitEdges(entries[..i], names) + [] == ExplicitEdges(entries[..i], names);
      }
      assert entries[..|entries|] == entries;
    } else {
      var routers := RoleNames(table, "router");
      var switches := RoleNames(table, "switch");
      var pcs := RoleNames(table, "pc");
      a := AddChain(a, routers);
      if routers != [] {
        a := AddStar(a, switches, routers[0]);
      } else {
        a := AddChain(a, switches);
      }
      if switches != [] {
        a := AddStar(a, pcs, switches[0]);
      } else if routers != [] {
        a := AddStar(a, pcs, routers[0]);
      }
      DerivedAdjacency(routers, switches, pcs);
    }
    adj := Some(a);
  }

  /** The three stages together give the adjacency of the derived edge list. */
  lemma DerivedAdjacency(routers: seq<string>, switches: seq<string>, pcs: seq<string>)
    ensures AdjacencyOf(Chain(routers) + SwitchEdges(routers, switches) + PcEdges(routers, switches, pcs))
         == AddEdges(AddEdges(AdjacencyOf(Chain(routers)), SwitchEdges(routers, switches)), PcEdges(routers, switches, pcs))
  {
    AddEdgesAppend(map[], Chain(routers) + SwitchEdges(routers, switches), PcEdges(routers, switches, pcs));
    AddEdgesAppend(map[], Chain(routers), SwitchEdges(routers, switches));
  }

  /**
    lab_topology's edge list: one record per stored link that joins two
    devices, else the role-based edges; None when the stored links value
    cannot be iterated, where the handler raises.
  */
  method LabTopology(devices: seq<Device>, config: Option<Json>) returns (edges: Option<seq<Json>>)
    ensures edges.None? <==> !LinksIterable(config)
    ensures edges.Some? ==> edges.value == TopologyRecords(devices, config)
  {
    var links := LinksValue(config);
    if Truthy(links) {
      if links.JInt? || links.JBool? {
        return None;
      }
      var records := LinkRecords(Entries(links), Names(devices));
      edges := Some(records);
    } else {
      var records := RoleRecords(devices);
      edges := Some(records);
    }
  }

  /** The stored-links loop of lab_topology. */
  method LinkRecords(entries: seq<Json>, names: seq<string>) returns (edges: seq<Json>)
    ensures edges == ExplicitRecords(entries, names)
  {
    edges := [];
    for i := 0 to |entries|
      invariant edges == ExplicitRecords(entries[..i], names)
    {
      assert entries[..i + 1][..i] == entries[..i];
      match EntryRecord(entries[i], names)
      case Some(r) =>
        edges := edges + [r];
      case None =>
    }
    assert entries[..|entries|] == entries;
  }

  /** The role-based loops of lab_topology. */
  method RoleRecords(devices: seq<Device>) returns (edges: seq<Json>)
    ensures edges == PlainRecords(DerivedEdges(devices))
  {
    var routers := RoleNames(devices, "router");
    var switches := RoleNames(devices, "switch");
    var pcs := RoleNames(devices, "pc");
    ghost var c, s, p := Chain(routers), SwitchEdges(routers, switches), PcEdges(routers, switches, pcs);
    edges := ChainRecords([], routers);
    assert edges == PlainRecords(c);
    if routers != [] {
      edges := StarRecords(edges, switches, routers[0]);
    } else {
      edges := ChainRecords(edges, switches);
    }
    assert edges == PlainRecords(c) + PlainRecords(s);
    if switches != [] {
      edges := StarRecords(edges, pcs, switches[0]);
    } else if routers != [] {
      edges := StarRecords(edges, pcs, routers[0]);
    } else {
      assert PlainRecords(p) == [];
    }
    assert edges == PlainRecords(c) + PlainRecords(s) + PlainRecords(p);
    PlainRecordsAppend(c + s, p);
    PlainRecordsAppend(c, s);
  }

  /** The chain loop of lab_topology: one record per pair of neighbours in xs, appended to edges. */
  method ChainRecords(edges: seq<Json>, xs: seq<string>) returns (r: seq<Json>)
    ensures r == edges + PlainRecords(Chain(xs))
  {
    r := edges;
    var i := 0;
    while i + 1 < |xs|
      invariant i <= |Chain(xs)|
      invariant r == edges + PlainRecords(Chain(xs)[..i])
    {
      PlainRecordsStep(Chain(xs), i);
      r := r + [EdgeRecord((xs[i], xs[i + 1]), [])];
      i := i + 1;
    }
    assert Chain(xs)[..i] == Chain(xs);
  }

  /** The star loops of lab_topology: one record per x joined to hub, appended to edges. */
  method StarRecords(edges: seq<Json>, xs: seq<string>, hub: string) returns (r: seq<Json>)
    ensures r == edges + PlainRecords(Star(xs, hub))
  {
    r := edges;
    for k := 0 to |xs|
      invariant r == edges + PlainRecords(Star(xs, hub)[..k])
    {
      PlainRecordsStep(Star(xs, hub), k);
      r := r + [EdgeRecord((xs[k], hub), [])];
    }
    assert Star(xs, hub)[..|xs|] == Star(xs, hub);
  }

  /**
    With distinct device names, the visualisation's edge list read back
    as links and expanded both ways is the adjacency ping and traceroute
    search (they index devices by name, so the lists agree).
  */
  lemma VisualisationMatchesCommands(devices: seq<Device>, config: Option<Json>)
    requires DistinctNames(devices)
    ensures AdjacencyOf(ExplicitEdges(TopologyRecords(devices, config), Names(devices)))
         == AdjacencyOf(TopologyEdges(DeviceTable(devices), config))
  {
    TopologyRecordsReadBack(devices, config);
    DeviceTableOfDistinct(devices);
  }

  /**
    Without distinct names the two disagree: a router and a switch both
    called R1 give the visualisation an R1-R1 edge, while the commands keep
    only the switch (the later device of that name) and find no edge.
  */
  lemma DuplicateNamesDiverge()
    ensures var devices := [Device("R1", "router", None, ""), Device("R1", "switch", None, "")];
            AdjacencyOf(ExplicitEdges(TopologyRecords(devices, None), Names(devices)))
            != AdjacencyOf(TopologyEdges(DeviceTable(devices), None))
  {
    var router, switch := Device("R1", "router", None, ""), Device("R1", "switch", None, "");
    RoleFacts(router, switch);
    var devices := [router, switch];
    RouterAndSwitch(router, switch);
    SwitchAlone(switch);
    TableOfSameName(router, switch);
    Diverge(devices, "R1");
  }

  /** The visualisation has an edge at x while the commands' table has no edge at all. */
  lemma Diverge(devices: seq<Device>, x: string)
    requires x in AdjacencyOf(DerivedEdges(devices)) && DerivedEdges(DeviceTable(devices)) == []
    ensures AdjacencyOf(ExplicitEdges(TopologyRecords(devices, None), Names(devices)))
         != AdjacencyOf(TopologyEdges(DeviceTable(devices), None))
  {
    TopologyRecordsReadBack(devices, None);
    assert LinksValue(None) == JArr([]);
    assert TopologyEdges(devices, None) == DerivedEdges(devices);
    assert TopologyEdges(DeviceTable(devices), None) == [];
    assert AdjacencyOf([]) == map[];
  }

  /** The two device types each read as their own role and no other. */
  lemma RoleFacts(router: Device, switch: Device)
    requires router.deviceType == "router" && switch.deviceType == "switch"
    ensures HasRole(router, "router") && !HasRole(router, "switch") && !HasRole(router, "pc")
    ensures !HasRole(switch, "router") && HasRole(switch, "switch") && !HasRole(switch, "pc")
  {
    LowerOfLowercase("router");
    LowerOfLowercase("switch");
  }

  lemma RoleNamesOne(d: Device, role: string)
    ensures RoleNames([d], role) == if HasRole(d, role) then [d.name] else []
  {
    assert [d][..0] == [];
  }

  lemma RoleNamesTwo(a: Device, b: Device, role: string)
    ensures RoleNames([a, b], role) == RoleNames([a], role) + (if HasRole(b, role) then [b.name] else [])
  {
    assert [a, b][..1] == [a];
  }

  /** A router followed by a switch of the same name: one edge, from the name to itself. */
  lemma RouterAndSwitch(router: Device, switch: Device)
    requires HasRole(router, "router") && !HasRole(router, "switch") && !HasRole(router, "pc")
    requires !HasRole(switch, "router") && HasRole(switch, "switch") && !HasRole(switch, "pc")
    requires router.name == switch.name
    ensures router.name in AdjacencyOf(DerivedEdges([router, switch]))
  {
    var x := router.name;
    RoleNamesOne(router, "router");
    RoleNamesOne(router, "switch");
    RoleNamesOne(router, "pc");
    RoleNamesTwo(router, switch, "router");
    RoleNamesTwo(router, switch, "switch");
    RoleNamesTwo(router, switch, "pc");
    assert DerivedEdges([router, switch]) == Chain([x]) + Star([x], x) + Star([], x);
    assert Chain([x]) + Star([x], x) + Star([], x) == [(x, x)];
    assert [(x, x)][..0] == [];
  }

  /** A lone switch has no edge. */
  lemma SwitchAlone(switch: Device)
    requires !HasRole(switch, "router") && HasRole(switch, "switch") && !HasRole(switch, "pc")
    ensures DerivedEdges([switch]) == []
  {
    RoleNamesOne(switch, "router");
    RoleNamesOne(switch, "switch");
    RoleNamesOne(switch, "pc");
  }

  /** The table of two devices of one name holds only the later one. */
  lemma TableOfSameName(a: Device, b: Device)
    requires a.name == b.name
    ensures DeviceTable([a, b]) == [b]
  {
    assert [a, b][..1] == [a];
    assert [a][..0] == [];
    assert DeviceTable([a]) == [a];
    assert FindName([a], b.name) == 0;
  }
}
