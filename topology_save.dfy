/**
  save_lab_topology: the visualisation posts its edge list back, and the
  edges that are objects joining two lab devices are stored as the lab's
  links, with their label, cost and interface names.  Node positions and a
  jitter seed may ride along.

  The stored lab configuration is given already decoded: None stands for
  an empty or undecodable configuration, which the route replaces by {}.
  Failed stands for the exceptions Python raises (a request body or a
  stored configuration that is not an object).
*/
module TopologySave {
  import opened Options
  import opened Json
  import opened Topology
  import opened GraphBuild

  /** The link keys kept when a link is stored, in the order they are copied. */
  const SavedLinkKeys: seq<string> := ["label", "cost", "src_if", "dst_if"]

  const EdgesRequired: string := "edges list required"

  datatype SaveOutcome =
    | Rejected(error: string)
    | Saved(config: Json, links: seq<Json>, positions: Option<Json>, jitterSeed: Option<Json>)
    | Failed

  /** The stored form of one posted edge: an object whose endpoints are device names. */
  function CleanLink(e: Json, names: seq<string>): Option<Json> {
    if !e.JObj? then None
    else
      match (NameIn(Get(e.fields, "from"), names), NameIn(Get(e.fields, "to"), names))
      case (Some(a), Some(b)) => Some(EdgeRecord((a, b), Metadata(e.fields, SavedLinkKeys)))
      case _ => None
  }

  /** The cleaned list: the stored form of each posted edge that has one, in order. */
  function CleanedLinks(edges: seq<Json>, names: seq<string>): seq<Json> {
    if edges == [] then []
    else
      CleanedLinks(edges[..|edges| - 1], names)
      + (match CleanLink(edges[|edges| - 1], names) case Some(l) => [l] case None => [])
  }

  /** The loop of save_lab_topology that builds the cleaned list. */
  method CleanEdges(edges: seq<Json>, names: seq<string>) returns (cleaned: seq<Json>)
    ensures cleaned == CleanedLinks(edges, names)
  {
    cleaned := [];
    for i := 0 to |edges|
      invariant cleaned == CleanedLinks(edges[..i], names)
    {
      assert edges[..i + 1][..i] == edges[..i];
      var e := edges[i];
      if e.JObj? {
        var a := Get(e.fields, "from");
        var b := Get(e.fields, "to");
        if NameIn(a, names).Some? && NameIn(b, names).Some? {
          var link := EdgeRecord((a.value.s, b.value.s), Metadata(e.fields, SavedLinkKeys));
          cleaned := cleaned + [link];
        }
      }
    }
    assert edges[..|edges|] == edges;
  }

  /** The key is present with a value other than null. */
  predicate Given(fields: seq<(string, Json)>, key: string) {
    Get(fields, key).Some? && Get(fields, key).value != JNull
  }

  /** The seed to store: jitter_seed when given and not null, else seed when given and not null. */
  function SeedValue(fields: seq<(string, Json)>): (r: Option<Json>)
    ensures r.Some? ==> r.value != JNull
    ensures Given(fields, "jitter_seed") ==> r == Get(fields, "jitter_seed")
    ensures !Given(fields, "jitter_seed") && Given(fields, "seed") ==> r == Get(fields, "seed")
    ensures r.None? <==> !Given(fields, "jitter_seed") && !Given(fields, "seed")
  {
    var j := Get(fields, "jitter_seed");
    if j.Some? && j.value != JNull then j
    else
      var s := Get(fields, "seed");
      if s.Some? && s.value != JNull then s else None
  }

  /** Positions are stored when they are a non-empty object. */
  function PositionsValue(fields: seq<(string, Json)>): Option<Json> {
    var p := Get(fields, "positions");
    if p.Some? && p.value.JObj? && Truthy(p.value) then p else None
  }

  /** The decoded stored configuration, {} standing in for an empty or undecodable one. */
  function StoredConfig(stored: Option<Json>): Json {
    if stored.Some? then stored.value else JObj([])
  }

  /** What save_lab_topology answers for a request body, a stored configuration and the lab's device names. */
  function SaveResult(body: Json, stored: Option<Json>, names: seq<string>): SaveOutcome {
    var data := if Truthy(body) then body else JObj([]);
    if !data.JObj? then Failed
    else
      var edges := Get(data.fields, "edges");
      if edges.None? || !edges.value.JArr? then Rejected(EdgesRequired)
      else
        var cfg := StoredConfig(stored);
        if !cfg.JObj? then Failed
        else
          var cleaned := CleanedLinks(edges.value.items, names);
          var updated := UpdatedConfig(cfg.fields, cleaned, data.fields);
          Saved(JObj(updated), cleaned, Get(updated, "positions"), Get(updated, "jitter_seed"))
  }

  /** The stored configuration after a save: links replaced, then positions and seed when sent. */
  function UpdatedConfig(cfg: seq<(string, Json)>, cleaned: seq<Json>, data: seq<(string, Json)>): seq<(string, Json)> {
    var f1 := Put(cfg, "links", JArr(cleaned));
    var positions := PositionsValue(data);
    var f2 := if positions.Some? then Put(f1, "positions", positions.value) else f1;
    var seed := SeedValue(data);
    if seed.Some? then Put(f2, "jitter_seed", seed.value) else f2
  }

  /**
    Reading the saved configuration: "links" holds the cleaned links,
    "positions" and "jitter_seed" the values sent (the old ones when none
    was sent), and every other key its old value.
  */
  lemma GetUpdated(cfg: seq<(string, Json)>, cleaned: seq<Json>, data: seq<(string, Json)>, k: string)
    ensures Get(UpdatedConfig(cfg, cleaned, data), k)
         == if k == "links" then Some(JArr(cleaned))
            else if k == "positions" && PositionsValue(data).Some? then PositionsValue(data)
            else if k == "jitter_seed" && SeedValue(data).Some? then SeedValue(data)
            else Get(cfg, k)
  {
    var f1 := Put(cfg, "links", JArr(cleaned));
    var positions := PositionsValue(data);
    var f2 := if positions.Some? then Put(f1, "positions", positions.value) else f1;
    var seed := SeedValue(data);
    GetPut(cfg, "links", JArr(cleaned), k);
    if positions.Some? {
      GetPut(f1, "positions", positions.value, k);
    }
    if seed.Some? {
      GetPut(f2, "jitter_seed", seed.value, k);
    }
  }

  /** save_lab_topology with its cleaning loop. */
  method SaveLabTopology(body: Json, stored: Option<Json>, names: seq<string>) returns (out: SaveOutcome)
    ensures out == SaveResult(body, stored, names)
  {
    var data := if Truthy(body) then body else JObj([]);
    if !data.JObj? {
      return Failed;
    }
    var edges := Get(data.fields, "edges");
    if edges.None? || !edges.value.JArr? {
      return Rejected(EdgesRequired);
    }
    var cleaned := CleanEdges(edges.value.items, names);
    var cfg := StoredConfig(stored);
    if !cfg.JObj? {
      return Failed;
    }
    var fields := Put(cfg.fields, "links", JArr(cleaned));
    var positions := PositionsValue(data.fields);
    if positions.Some? {
      fields := Put(fields, "positions", positions.value);
    }
    var seed := SeedValue(data.fields);
    if seed.Some? {
      fields := Put(fields, "jitter_seed", seed.value);
    }
    out := Saved(JObj(fields), cleaned, Get(fields, "positions"), Get(fields, "jitter_seed"));
  }

  /** The request is refused exactly when it is an object without a list under "edges". */
  lemma SaveRejected(body: Json, stored: Option<Json>, names: seq<string>)
    ensures SaveResult(body, stored, names).Rejected? <==>
              (!Truthy(body) || body.JObj?) &&
              (var data := if Truthy(body) then body.fields else [];
               var edges := Get(data, "edges");
               edges.None? || !edges.value.JArr?)
    ensures SaveResult(body, stored, names).Rejected? ==> SaveResult(body, stored, names).error == EdgesRequired
  {
  }

  /** A save happens exactly for an object body with a list under "edges" and a stored object (or none). */
  lemma SaveSaved(body: Json, stored: Option<Json>, names: seq<string>)
    ensures SaveResult(body, stored, names).Saved? <==>
              body.JObj? && Get(body.fields, "edges").Some? && Get(body.fields, "edges").value.JArr?
              && StoredConfig(stored).JObj?
    ensures SaveResult(body, stored, names).Saved? ==>
              var out := SaveResult(body, stored, names);
              && out.links == CleanedLinks(Get(body.fields, "edges").value.items, names)
              && out.config == JObj(UpdatedConfig(StoredConfig(stored).fields, out.links, body.fields))
  {
  }

  /** The keys of a cleaned link: the endpoints, then some of label, cost, src_if, dst_if. */
  lemma CleanLinkKeys(e: Json, names: seq<string>)
    requires CleanLink(e, names).Some?
    ensures var l := CleanLink(e, names).value;
      && l.JObj?
      && (forall i :: 2 <= i < |l.fields| ==> l.fields[i].0 in SavedLinkKeys)
      && |l.fields| >= 2 && l.fields[0].0 == "from" && l.fields[1].0 == "to"
      && (forall i :: 0 <= i < |l.fields| ==> l.fields[i].0 != "jitter")
  {
    var m := Metadata(e.fields, SavedLinkKeys);
    var l := CleanLink(e, names).value;
    assert l.fields == l.fields[..2] + m;
    forall i | 2 <= i < |l.fields| ensures l.fields[i].0 in SavedLinkKeys {
      assert l.fields[i] == m[i - 2];
    }
  }

  /** A stored link keeps the posted edge's endpoints and its values for the kept keys. */
  lemma CleanLinkReads(e: Json, names: seq<string>, k: string)
    requires CleanLink(e, names).Some?
    ensures EntryEdge(CleanLink(e, names).value, names) == EntryEdge(e, names)
    ensures k in SavedLinkKeys ==> Get(CleanLink(e, names).value.fields, k) == Get(e.fields, k)
  {
    CleanLinkEdge(e, names);
    if k in SavedLinkKeys {
      CleanLinkKeeps(e, names, k);
    }
  }

  lemma CleanLinkEdge(e: Json, names: seq<string>)
    requires CleanLink(e, names).Some?
    ensures EntryEdge(CleanLink(e, names).value, names) == EntryEdge(e, names)
  {
    var m := Metadata(e.fields, SavedLinkKeys);
    var a, b := NameIn(Get(e.fields, "from"), names).value, NameIn(Get(e.fields, "to"), names).value;
    assert forall i :: 0 <= i < |m| ==> m[i].0 != "from" && m[i].0 != "to";
    RecordEdge((a, b), m, names);
  }

  lemma CleanLinkKeeps(e: Json, names: seq<string>, k: string)
    requires CleanLink(e, names).Some? && k in SavedLinkKeys
    ensures Get(CleanLink(e, names).value.fields, k) == Get(e.fields, k)
  {
    var m := Metadata(e.fields, SavedLinkKeys);
    var a, b := NameIn(Get(e.fields, "from"), names).value, NameIn(Get(e.fields, "to"), names).value;
    var ends := [("from", JStr(a)), ("to", JStr(b))];
    assert CleanLink(e, names).value.fields == ends + m;
    GetAppend(ends, m, k);
    GetAbsent(ends, k);
    MetadataCopies(e.fields, SavedLinkKeys, k);
  }

  /** Only objects whose endpoints are both device names are kept. */
  lemma CleanLinkKept(e: Json, names: seq<string>)
    ensures CleanLink(e, names).Some? <==> e.JObj? && EntryEdge(e, names).Some?
  {
  }

  /** Metadata depends only on the values under the listed keys. */
  lemma {:induction false} MetadataByValues(f: seq<(string, Json)>, g: seq<(string, Json)>, keys: seq<string>)
    requires forall k :: k in keys ==> Get(f, k) == Get(g, k)
    ensures Metadata(f, keys) == Metadata(g, keys)
    decreases |keys|
  {
    if keys != [] {
      MetadataByValues(f, g, keys[1..]);
    }
  }

  /** Cleaning a stored link gives it back unchanged. */
  lemma CleanLinkIdempotent(e: Json, names: seq<string>)
    requires CleanLink(e, names).Some?
    ensures CleanLink(CleanLink(e, names).value, names) == CleanLink(e, names)
  {
    var l := CleanLink(e, names).value;
    CleanLinkReads(e, names, "from");
    forall k | k in SavedLinkKeys ensures Get(l.fields, k) == Get(e.fields, k) {
      CleanLinkReads(e, names, k);
    }
    MetadataByValues(l.fields, e.fields, SavedLinkKeys);
    RecordEdge(EntryEdge(e, names).value, [], names);
  }

  lemma CleanedLinksSnoc(edges: seq<Json>, x: Json, names: seq<string>)
    ensures CleanedLinks(edges + [x], names)
         == CleanedLinks(edges, names) + (match CleanLink(x, names) case Some(l) => [l] case None => [])
  {
    assert (edges + [x])[..|edges|] == edges;
  }

  /** Saving the stored links again stores the same links. */
  lemma {:induction false} CleanedLinksIdempotent(edges: seq<Json>, names: seq<string>)
    ensures CleanedLinks(CleanedLinks(edges, names), names) == CleanedLinks(edges, names)
    decreases |edges|
  {
    if edges != [] {
      var init, x := edges[..|edges| - 1], edges[|edges| - 1];
      assert edges == init + [x];
      var c := CleanedLinks(init, names);
      CleanedLinksIdempotent(init, names);
      CleanedLinksSnoc(init, x, names);
      match CleanLink(x, names)
      case None =>
        assert CleanedLinks(edges, names) == c + [] == c;
      case Some(l) =>
        assert CleanedLinks(edges, names) == c + [l];
        CleanLinkIdempotent(x, names);
        CleanedLinksSnoc(c, l, names);
        assert CleanedLinks(c + [l], names) == c + [l];
    }
  }

  /** The posted entries that are objects. */
  function Objects(edges: seq<Json>): (r: seq<Json>)
    ensures forall i :: 0 <= i < |r| ==> r[i].JObj?
  {
    if edges == [] then []
    else Objects(edges[..|edges| - 1]) + (if edges[|edges| - 1].JObj? then [edges[|edges| - 1]] else [])
  }

  /** The stored links stand for the same edges as the posted objects do. */
  lemma {:induction false} CleanedLinksReadBack(edges: seq<Json>, names: seq<string>)
    ensures ExplicitEdges(CleanedLinks(edges, names), names) == ExplicitEdges(Objects(edges), names)
    decreases |edges|
  {
    if edges != [] {
      var init, x := edges[..|edges| - 1], edges[|edges| - 1];
      CleanedLinksReadBack(init, names);
      var c, o := CleanedLinks(init, names), Objects(init);
      assert edges == init + [x];
      assert Objects(edges) == o + (if x.JObj? then [x] else []);
      match CleanLink(x, names)
      case None =>
        assert CleanedLinks(edges, names) == c + [] == c;
        if x.JObj? {
          CleanLinkKept(x, names);
          ExplicitEdgesSnoc(o, x, names);
        } else {
          assert Objects(edges) == o;
        }
      case Some(l) =>
        assert CleanedLinks(edges, names) == c + [l];
        CleanLinkReads(x, names, "from");
        ExplicitEdgesSnoc(c, l, names);
        ExplicitEdgesSnoc(o, x, names);
    }
  }

  lemma {:induction false} ObjectsOfObjects(edges: seq<Json>)
    requires forall i :: 0 <= i < |edges| ==> edges[i].JObj?
    ensures Objects(edges) == edges
    decreases |edges|
  {
    if edges != [] {
      ObjectsOfObjects(edges[..|edges| - 1]);
      assert edges == edges[..|edges| - 1] + [edges[|edges| - 1]];
    }
  }

  lemma {:induction false} RecordsAreObjects(devices: seq<Device>, config: Option<Json>)
    ensures forall i :: 0 <= i < |TopologyRecords(devices, config)| ==> TopologyRecords(devices, config)[i].JObj?
  {
    if ExplicitMode(config) {
      ExplicitRecordsAreObjects(Entries(LinksValue(config)), Names(devices));
    } else {
      PlainRecordsAreObjects(DerivedEdges(devices));
    }
  }

  lemma {:induction false} ExplicitRecordsAreObjects(entries: seq<Json>, names: seq<string>)
    ensures forall i :: 0 <= i < |ExplicitRecords(entries, names)| ==> ExplicitRecords(entries, names)[i].JObj?
    decreases |entries|
  {
    if entries != [] {
      ExplicitRecordsAreObjects(entries[..|entries| - 1], names);
    }
  }

  lemma {:induction false} PlainRecordsAreObjects(es: seq<Edge>)
    ensures forall i :: 0 <= i < |PlainRecords(es)| ==> PlainRecords(es)[i].JObj?
    decreases |es|
  {
    if es != [] {
      PlainRecordsAreObjects(es[..|es| - 1]);
    }
  }

  /**
    Posting back the edge list lab_topology produced stores links that
    describe the same topology, as long as that topology has an edge.
  */
  lemma SaveRoundTrip(devices: seq<Device>, stored: Option<Json>)
    requires stored.None? || stored.value.JObj?
    requires TopologyEdges(devices, stored) != []
    ensures var body := JObj([("edges", JArr(TopologyRecords(devices, stored)))]);
      var out := SaveResult(body, stored, Names(devices));
      out.Saved? && TopologyEdges(devices, Some(out.config)) == TopologyEdges(devices, stored)
  {
    var records := TopologyRecords(devices, stored);
    var body := JObj([("edges", JArr(records))]);
    var names := Names(devices);
    var cleaned := CleanedLinks(records, names);
    assert ExplicitEdges(cleaned, names) == TopologyEdges(devices, stored) by {
      RecordsAreObjects(devices, stored);
      ObjectsOfObjects(records);
      CleanedLinksReadBack(records, names);
      TopologyRecordsReadBack(devices, stored);
    }
    assert Get(body.fields, "edges") == Some(JArr(records));
    SaveSaved(body, stored, names);
    var out := SaveResult(body, stored, names);
    assert out.links == cleaned;
    SavedLinksDecide(StoredConfig(stored).fields, cleaned, body.fields, names);
  }

  /** The saved configuration uses the saved links when there are any, and role-based edges otherwise. */
  lemma SavedLinksDecide(cfg: seq<(string, Json)>, cleaned: seq<Json>, data: seq<(string, Json)>, names: seq<string>)
    ensures var c := Some(JObj(UpdatedConfig(cfg, cleaned, data)));
      && (ExplicitMode(c) <==> cleaned != [])
      && (cleaned != [] ==> LinksValue(c) == JArr(cleaned))
  {
    GetUpdated(cfg, cleaned, data, "links");
  }

  /** A save that keeps no link leaves the lab on role-based edges, and one that keeps some on those links. */
  lemma SaveEmptyFallsBack(body: Json, stored: Option<Json>, names: seq<string>)
    requires SaveResult(body, stored, names).Saved?
    ensures SaveResult(body, stored, names).links == [] <==> !ExplicitMode(Some(SaveResult(body, stored, names).config))
  {
    SaveSaved(body, stored, names);
    var out := SaveResult(body, stored, names);
    SavedLinksDecide(StoredConfig(stored).fields, out.links, body.fields, names);
  }
}
