# Network lab simulator: topology, reachability and device configuration

This project models the core of a web-based network lab. A lab holds devices: routers, switches, PCs and others. Each device has a name, a role, stored interfaces and an initial configuration text. A lab may also store a list of links between devices, and optionally a seed for latency jitter.

The model covers five parts of the system:

* **The lab's edge list** (`lab_topology`). It is taken from the stored links when the lab has any. Otherwise it is derived from the devices' roles:
  * routers form a chain;
  * switches hang off the first router, or form a chain when there is no router;
  * PCs hang off the first switch, or else off the first router.
* **Saving an edge list** (`save_lab_topology`). Each edge is cleaned to its endpoints and four metadata keys, and is then merged into the stored lab configuration together with the positions and the jitter seed.
* **The simulated `ping` and `traceroute` commands:**
  * validating the target address;
  * finding which devices own it by scanning their interfaces and configuration text for dotted quads;
  * a breadth-first search over the same adjacency the topology view shows;
  * the success or failure text for ping;
  * for traceroute, one hop line per device on the route. The latency comes from the link's cost, with optional seeded jitter, and the line is labelled with the link's interface names.
* **Reading and writing a device's configuration** (`get_device_config`, `set_device_config`):
  * each interface entry is validated with the semantics of Python's `ipaddress.ip_interface`, and a bare address becomes a `/32` host interface;
  * the request is rejected as a whole when any entry is bad;
  * the first line of the configuration text is rewritten to `hostname <name>`, and read back the same way.
* **The browser's check of an interface address** (`static/js/device_config.js`): the per-field `validateIpValue` and the looser regular expression applied when the form is saved.

Data is modelled as values:
* a device is a `Device` datatype;
* decoded JSON is a `Json` datatype, in which an object is a list of key/value pairs and a repeated key is read at its last occurrence, as Python's `json` module does;
* the database row that a handler reads or writes is a parameter or a result.

The handlers that build lists in loops are methods with loops. Each is proved equal to a specification function, and the system's promises are proved as lemmas about those functions.

Modules, one file each:
* `Text` (Python's and JavaScript's string operations);
* `Options` and `Json`;
* `DottedQuad` (the `re.findall` of the dotted-quad pattern);
* `Ipv4` (the parts of `ipaddress` that are used);
* `Topology`, `GraphBuild` and `TopologySave`;
* `Addresses` (`_extract_ips`);
* `PathSearch` (the breadth-first search);
* `Latency` (`_find_link` and hop latency);
* `Reachability` (the two commands);
* `DeviceConfig`;
* `ClientValidation`.

Behaviours of the code that the model keeps as they are:
* **Self-loops.** Stored links that join a device to itself are kept, both in the edge list and in the adjacency.
* **Interface scan.** When reading one interface entry raises, for example an `"address"` that is a list, the whole interface scan of `_extract_ips` stops at that entry. Entries before it count; the configuration text is still scanned.
* **Links that cannot be iterated.** A stored `"links"` value that is a non-zero integer or `true` makes `for link in links` raise TypeError, outside any `try`. `lab_topology`, `ping` and `traceroute` then fail as requests; the model answers None or `Raised` there.
* **Interface separator.** The traceroute interface label joins the two interface names with the three characters `â`, `†`, `”`. This is what `app.py:1278` holds as text; it is the UTF-8 encoding of an arrow, read as another encoding.

## Model

| member | source | states |
|---|---|---|
| Text.PySplit | app.py:960 | `str.split()` with no argument yields only non-empty words free of Python whitespace, and none exactly when the string is all whitespace |
| Text.SplitSkipsSpace | app.py:960 | leading whitespace does not change the split |
| Text.SplitWordSpace | app.py:960 | a word, a whitespace character and a tail split into the word followed by the tail's words |
| Text.SplitTwoWords | app.py:715-717 | splitting "a b" for two words gives exactly [a, b], so the second word of a `hostname` line is the name |
| Text.PySplitLines | app.py:713 | `splitlines()` yields lines with no line boundary, is empty exactly for the empty string, its first line is everything before the first boundary, and a text without boundaries is one line |
| Text.StripAllSpace | app.py:713 | stripping a string made only of whitespace leaves the empty string |
| Text.SplitOnInverse | app.py:980 | joining the pieces of `split(c)` with c gives back the original string |
| Text.NatToStringOfDecimal | app.py:763-765 | the decimal text of a canonical digit string's value is that string |
| Json.GetSpec | app.py:479-480 | `dict.get` finds a key exactly when some pair carries it, and returns the value of its last occurrence |
| Json.GetPut | app.py:576 | after `cfg[key] = v`, reading key gives v and every other key is unchanged |
| Json.GetAppend | app.py:482-486 | a key read from a concatenation of fields comes from the later part when it holds the key |
| Json.IntOf | app.py:1252 | `int()` of an integer is itself, of a boolean 0 or 1, of a string the value of its stripped signed digits (raising otherwise); of null, a list or an object it raises |
| Json.IntOfPrinted | app.py:1252 | `int(str(n))` is n for every integer n |
| Json.PyStr | app.py:977 | `str()` of a string is the string; only lists and objects are outside the model |
| DottedQuad.FindAllShaped | app.py:984-985 | every match of the dotted-quad pattern is four runs of one to three digits joined by dots |
| DottedQuad.MatchShaped | app.py:984-985 | a match found at a position spans a shaped dotted quad |
| DottedQuad.GroupsShaped | app.py:984-985 | the pattern's repeated groups consume exactly n dot-separated digit runs |
| DottedQuad.GroupsComplete | app.py:984-985 | conversely, a string of n dot-separated short digit runs is consumed whole by the groups |
| DottedQuad.ShapedFoundWhole | app.py:1006-1008 | a configuration text that is just a dotted quad yields exactly that quad |
| DottedQuad.FoundInContext | app.py:1006-1008 | conversely, a dotted quad standing between word boundaries and not right after a dot is found wherever it occurs |
| DottedQuad.LongRunNotFound | app.py:1006-1008 | a four-digit leading run such as "1234.1.1.1" yields no match, because of the word boundaries |
| Ipv4.ParseOctetIff | app.py:1011-1014 | an octet parses to v exactly when v < 256 and the text is v's canonical decimal (no leading zero) |
| Ipv4.ParseAddressIff | app.py:1011-1014 | `ip_address` accepts a string as x exactly when x < 2^32 and the string is x's dotted-decimal form |
| Ipv4.PrefixFromIpIntIff | app.py:759 | a netmask given as an address denotes prefix p exactly when it is p ones followed by zeros |
| Ipv4.MakeNetmaskSpec | app.py:759 | an accepted mask part yields a prefix of at most 32, written as a decimal prefix length, as a netmask of that many leading ones, or as the matching hostmask |
| Ipv4.ParseInterface | app.py:758-762 | a parsed interface has an address below 2^32 and a prefix of at most 32 |
| Ipv4.FormatInterfaceRoundTrip | app.py:763 | `str(ip_interface)` parses back to the same interface |
| Ipv4.HostPrefixDefault | app.py:758-762 | a string without "/" parses as the same interface as with "/32" appended |
| Ipv4.PrefixLeadingZero | app.py:759 | a prefix written with a leading zero, such as "/024", is accepted |
| Ipv4.OctetLeadingZero | app.py:1011-1014 | an octet with a leading zero, as in "010.0.0.1", is refused |
| Ipv4.NetworkAddressSpec | app.py:765 | the network address is aligned to the block size 2^(32-p) and is the start of the block holding the address |
| Ipv4.NetworkAddressIdempotent | app.py:765 | the network of a network address is itself |
| Ipv4.ParsedHasNoSlash | app.py:758-762 | a parsable address has no "/", so both branches of the "/" test agree |
| Topology.DeviceTable | app.py:1018 | the name-keyed dictionary of devices has distinct names, and exactly the names of the device list |
| Topology.DeviceTableHoldsLast | app.py:1018 | every entry of the dictionary is one of the listed devices |
| Topology.DeviceTableOfDistinct | app.py:1018 | with distinct names, the dictionary holds the devices in list order |
| Topology.RoleNames | app.py:511-513 | a name is in a role list exactly when a device of that name has that role (case-insensitively) |
| Topology.DerivedIterable | app.py:475-477 | without truthy stored links nothing is iterated, so nothing raises |
| Topology.EntryEdge | app.py:477-494 | an edge read from a link entry joins two known devices |
| Topology.ExplicitEdges | app.py:1027-1037 | every edge taken from the stored links joins two known devices |
| Topology.ExplicitEdgesByNameSet | app.py:1032 | the stored links' edges depend only on the set of known names, not on their order or repetition |
| Topology.Chain | app.py:516-517 | a chain joins each element to the next, one edge fewer than elements |
| Topology.Star | app.py:522-523 | a star joins each element to the hub, one edge per element |
| Topology.TopologyEdgesAreDevices | app.py:462-537 | every edge of the lab, stored or derived, joins two devices of the lab |
| Topology.DerivedEndpoint | app.py:509-537 | a derived edge starts at a router, switch or PC and ends at a router or switch |
| Topology.DerivedIsolation | app.py:509-537 | a device of any other role has no derived edge |
| Topology.DerivedShape | app.py:509-537 | the derived edges contain the router chain, switch to first router (or the switch chain), PC to first switch (or first router), and nothing without routers or switches |
| Topology.AddEdgesCount | app.py:1033-1034 | adding edges lists b under a once per edge in either direction, beyond what was there |
| Topology.AdjacencySymmetric | app.py:1033-1034 | the adjacency lists b under a as many times as a under b |
| Topology.AdjacencyMembers | app.py:1016-1066 | b is a neighbour of a exactly when an edge joins them in either direction |
| GraphBuild.MetadataCopies | app.py:484-486 | each copied metadata key reads back the link's own value |
| GraphBuild.AddChain | app.py:1043-1046 | the loop adding the router chain adds exactly the chain's edges |
| GraphBuild.AddStar | app.py:1049-1051 | the loop attaching members to a hub adds exactly the star's edges |
| GraphBuild.BuildAdjacency | app.py:1016-1066 | the build raises exactly when the stored links are a non-zero integer or `true`; otherwise the adjacency is that of the lab's edges |
| GraphBuild.LabTopology | app.py:462-537 | the handler raises exactly when the stored links are a non-zero integer or `true`; otherwise the edge records are those of the stored links, or of the derived topology |
| GraphBuild.LinkRecords | app.py:475-494 | the loop over stored links emits one record per usable link, with its metadata |
| GraphBuild.RoleRecords | app.py:509-537 | the derivation loops emit the records of the derived edges, in order |
| GraphBuild.ChainRecords | app.py:516-517 | the chain loop appends one record per consecutive pair |
| GraphBuild.StarRecords | app.py:522-523 | the star loop appends one record per member |
| GraphBuild.ExplicitRecordsReadBack | app.py:475-494 | reading the emitted records as links gives the same edges as the stored links |
| GraphBuild.TopologyRecordsReadBack | app.py:462-537 | reading the topology view's records as links gives the lab's edges |
| GraphBuild.VisualisationMatchesCommands | app.py:1016-1066 | when the lab's device names are distinct, the graph the topology view shows is the graph ping and traceroute search |
| GraphBuild.DuplicateNamesDiverge | app.py:509-523 | a router and a switch both named R1 give the topology view an R1-R1 edge that the commands' graph lacks |
| TopologySave.CleanEdges | app.py:555-567 | the cleaning loop keeps exactly the cleaned links of the object entries whose endpoints are devices |
| TopologySave.SeedValue | app.py:582-584 | "jitter_seed" wins when present and not null, else "seed" when present and not null, else nothing is stored; a null is never stored |
| TopologySave.GetUpdated | app.py:576-584 | the saved configuration holds the new links, positions only when given as a non-empty object, the seed only when given, and otherwise the stored keys |
| TopologySave.SaveLabTopology | app.py:544-594 | the handler's answer is the specified rejection or saved configuration |
| TopologySave.SaveRejected | app.py:549-552 | a body without an "edges" list is rejected with "edges list required" |
| TopologySave.SaveSaved | app.py:549-594 | a save succeeds exactly when "edges" is a list and the stored configuration is an object, and stores the cleaned links |
| TopologySave.CleanLinkKeys | app.py:563-566 | a cleaned link holds "from", "to", then only label, cost, src_if or dst_if, and never "jitter" |
| TopologySave.CleanLinkReads | app.py:563-566 | a cleaned link joins the same devices and keeps the kept keys' values |
| TopologySave.CleanLinkKept | app.py:557-562 | an entry is kept exactly when it is an object joining two devices |
| TopologySave.CleanLinkIdempotent | app.py:557-567 | cleaning a cleaned link changes nothing |
| TopologySave.CleanedLinksIdempotent | app.py:555-567 | cleaning a saved list again changes nothing |
| TopologySave.CleanedLinksReadBack | app.py:555-567 | the saved links give the same edges as the object entries submitted |
| TopologySave.SaveRoundTrip | app.py:462-594 | saving the edge list the topology view returned leaves the lab's edges unchanged |
| TopologySave.SavedLinksDecide | app.py:576 | after a save, the lab uses stored links exactly when the cleaned list is non-empty |
| TopologySave.SaveEmptyFallsBack | app.py:576 | saving no usable edge sends the lab back to the derived topology |
| Addresses.QuadsIn | app.py:1006-1008 | every address found in a configuration text is a shaped dotted quad |
| Addresses.ExtractIps | app.py:966-1009 | `_extract_ips` returns the interface addresses up to the first entry that raises, plus the configuration's quads |
| Addresses.ScanList | app.py:972-989 | the loop over an interface list returns the scan's addresses, stopping at an entry that raises |
| Addresses.AddQuads | app.py:1006-1008 | the configuration loop adds exactly the quads of the text |
| Addresses.ScanStopped | app.py:1004-1005 | once an entry has raised, later entries add nothing |
| Addresses.ScanUnion | app.py:972-989 | when no entry raises, an address is found exactly when some entry gives it |
| Addresses.ScanCrash | app.py:975-976 | the first entry that raises ends the scan with what came before it |
| Addresses.AddressFieldOwned | app.py:975-976 | a non-empty string "address" reached before any raise is owned by the device |
| Addresses.IpFieldText | app.py:977-980 | without an "address", a string "ip" contributes its text before the first "/", which holds no "/" |
| Addresses.ScanGrows | app.py:972-989 | scanning more entries never loses an address |
| Addresses.OwnersIff | app.py:1069 | a name is a target owner exactly when a device of that name owns the target |
| Addresses.FindOwners | app.py:1069 | the owner list is computed by scanning each device once, in table order |
| PathSearch.Bfs | app.py:1071-1085 | the search returns a simple walk from the source to an owner with no shorter one, and None exactly when no walk reaches an owner |
| PathSearch.Expand | app.py:1082-1085 | expanding a popped path queues one extension per unvisited neighbour and marks it visited |
| Latency.FindLinkIn | app.py:1232-1242 | the link search loop returns the specified link |
| Latency.FindLinkFirst | app.py:1232-1242 | a link is found exactly when an object entry joins the two nodes with no earlier entry ending the search, and the one found is that entry |
| Latency.FindLinkSymmetric | app.py:1235-1240 | searching from a to b finds what searching from b to a does |
| Latency.HopLatency | app.py:1245-1275 | a hop's latency is at least 1 |
| Latency.LatencyWithoutCost | app.py:1250 | a hop without a link or without a "cost" has latency 1 |
| Latency.LatencyBounds | app.py:1250-1275 | with a cost, latency lies between max(1, cost) and max(1, cost + jitter) |
| Latency.LatencyWithoutDraw | app.py:1255-1275 | with no positive jitter, or a seed that is not an integer, latency is max(1, cost) |
| Latency.SeededDraw | app.py:1264-1275 | with a seed, hop i's jitter is the draw of the generator seeded with seed + i |
| Latency.SeededRepeats | app.py:1264-1268 | with a seed, a hop's latency depends only on the seeded draw, so it repeats from run to run |
| Latency.IfaceInfoOfStrings | app.py:1277-1278 | two non-empty interface names are shown in parentheses around the separator |
| Latency.IfaceInfoEmpty | app.py:1277-1278 | the interface label is empty exactly when either name is missing or empty |
| Reachability.TargetOfCommand | app.py:960 | the target is the command's second word |
| Reachability.TargetOfVerbAlone | app.py:960 | a command of one word uses the default target |
| Reachability.FindRoute | app.py:1016-1085 | the search raises exactly when the stored links cannot be iterated; otherwise a route is found exactly when an owner is reachable, and it is a shortest simple one |
| Reachability.Ping | app.py:959-1096 | ping answers unknown host for a non-address, raises when the stored links cannot be iterated, and otherwise prints success exactly when an owner is reachable |
| Reachability.PingIntegerLinks | app.py:1027-1028 | with a non-zero integer stored as "links", pinging any valid address raises |
| Reachability.IntegerLinks | app.py:1027-1028 | a non-zero integer under "links" is truthy and cannot be iterated |
| Reachability.PingSelf | app.py:1079-1081 | pinging an address the source owns succeeds |
| Reachability.SelfReachable | app.py:1073-1081 | a target the source owns is reachable |
| Reachability.PingUnowned | app.py:1069-1096 | pinging an address no device owns fails |
| Reachability.PingFails | app.py:1087-1096 | when no owner of the target is reachable from the source, ping prints the failure text |
| Reachability.PingIsolated | app.py:1038-1066 | with no stored links, a device outside the three roles cannot be pinged from another device |
| Reachability.HopLatencyAt | app.py:1244-1275 | every hop's latency on a route is at least 1 |
| Reachability.HopLines | app.py:1244-1283 | traceroute prints one hop line per device on the route |
| Reachability.TraceLines | app.py:1244-1283 | the hop loop produces the specified hop lines |
| Reachability.Traceroute | app.py:1098-1286 | traceroute answers with unknown host, raises when the stored links cannot be iterated, prints "* * *" exactly when no owner is reachable, or else the hop lines of a shortest route |
| Reachability.PlainHopText | app.py:1279-1282 | a latency-1 hop prints "1 msec 1 msec 2 msec" |
| Reachability.SourceHop | app.py:1244-1247 | the first hop line is the source, with latency 1 and no interface label |
| Reachability.SeededHop | app.py:1264-1275 | hop k over a seeded jittered link draws from seed + k |
| Reachability.HopOverLink | app.py:1248-1275 | a hop's latency is that of the link `_find_link` finds between it and the previous device |
| Reachability.TraceSelf | app.py:1226-1284 | tracing an address the source owns prints the header and one hop, the source itself |
| Reachability.SelfRoute | app.py:1076-1081 | the shortest route to an address the source owns is the source alone |
| Reachability.SelfLines | app.py:1244-1283 | a one-device route prints one plain hop line |
| Reachability.PlainHops | app.py:1244-1283 | with no link metadata along the route, every hop line is plain with latency 1 |
| DeviceConfig.CheckItemAccepts | app.py:747-775 | an entry raises no error exactly when it is an object with a name, and with an ip that is empty or valid |
| DeviceConfig.CheckItemParsed | app.py:763-775 | a valid entry is stored with the normalised interface, its address and its network |
| DeviceConfig.BareAddressHost | app.py:760-762 | a bare address is the /32 host interface |
| DeviceConfig.BareAddressStored | app.py:760-775 | a bare address is stored as "a/32" with address a |
| DeviceConfig.PrefixedAddressStored | app.py:758-775 | an address with a prefix is stored with the parsed interface |
| DeviceConfig.StoredFieldsParse | app.py:763-765 | the stored ip, address and network texts parse back to the interface, its address and its aligned network |
| DeviceConfig.ValidateInterfaces | app.py:743-775 | the validation loop computes the specified validated list and errors |
| DeviceConfig.CheckEntry | app.py:748-775 | one loop iteration computes the specified entry and errors |
| DeviceConfig.ValidateStops | app.py:747-775 | once an entry raises, the whole validation raises |
| DeviceConfig.ValidateAccepts | app.py:747-777 | validation finishes without errors exactly when every entry is acceptable |
| DeviceConfig.ValidateEntries | app.py:775-778 | without errors, one stored entry is kept per given entry, in order |
| DeviceConfig.HostnameLine | app.py:714-717 | a "hostname h" line reads back h |
| DeviceConfig.HostnameRoundTrip | app.py:711-786 | after writing a one-word hostname into any configuration, reading it back gives that hostname |
| DeviceConfig.SetHostnameShape | app.py:781-786 | the rewritten configuration starts with "hostname h" followed by a line break or nothing |
| DeviceConfig.WhitespaceConfigRaises | app.py:712-713 | a configuration of whitespace only makes the handler as written raise |
| DeviceConfig.ReadHostnameCorrects | app.py:711-717 | the corrected read agrees wherever the written one answers; it fails exactly on non-empty whitespace-only text, where the device name is used instead |
| DeviceConfig.GetDeviceConfig | app.py:695-718 | the view names the device and echoes the stored interfaces (or an empty list); the hostname is the second word of the first line when that line starts with "hostname" in any case, and the device name otherwise; it is always the device name or one whitespace-free word |
| DeviceConfig.SetDeviceConfig | app.py:723-788 | the handler answers as specified |
| DeviceConfig.SetRejects | app.py:736-777 | the request is rejected with a non-empty error list exactly when a given list has a bad entry and none raises |
| DeviceConfig.SetStores | app.py:778-788 | an applied request stores one checked entry per given entry, leaves absent interfaces alone, and keeps the device's name and role |
| DeviceConfig.SetThenGetHostname | app.py:711-786 | after set_device_config applies a one-word hostname, get_device_config reports it |
| DeviceConfig.EntryScans | app.py:775 | a stored entry never makes the address scan raise, and its address is the scan's "address" |
| DeviceConfig.StoredAddressOwned | app.py:775-778 | an address stored by set_device_config is owned by the device for ping and traceroute |
| ClientValidation.ValidateOutcomes | static/js/device_config.js:44-54 | the check accepts blank or in-range input, reports "Invalid IP format" exactly when the pattern fails, and "IP octet out of range" exactly when an octet exceeds 255 |
| ClientValidation.AcceptedIff | static/js/device_config.js:44-54 | a value is accepted exactly when its trimmed text is empty or an in-range address with an optional 0-32 prefix |
| ClientValidation.PrefixShapeIff | static/js/device_config.js:48 | the prefix alternatives match exactly the canonical decimals 0 to 32 |
| ClientValidation.CoreInRange | static/js/device_config.js:48-52 | a core matching the pattern with no octet over 255 is exactly an in-range address |
| ClientValidation.QuadRange | static/js/device_config.js:51-52 | the octet check passes exactly when all four groups are at most 255 |
| ClientValidation.JsTrimIdempotent | static/js/device_config.js:45 | trimming twice is trimming once |
| ClientValidation.JsTrimEnds | static/js/device_config.js:45 | a trimmed value neither starts nor ends with JavaScript whitespace |
| ClientValidation.SaveRegexAgrees | static/js/device_config.js:121-127 | the save-time pattern accepts exactly the trimmed values the field check does not call badly formatted |
| ClientValidation.SaveRegexAdmitsLargeOctet | static/js/device_config.js:121 | the save-time pattern accepts "999.1.1.1", which the field check rejects as out of range |
| ClientValidation.LargeOctetPasses | static/js/device_config.js:121-127 | every well-formed value with an octet over 255 passes the save-time pattern |
| ClientValidation.SaveCheckInRange | static/js/device_config.js:121-128 | the corrected save check accepts exactly empty or in-range addresses |
| ClientValidation.SaveCheckRefusesLargeOctet | static/js/device_config.js:121-128 | the corrected save check refuses "999.1.1.1" |
| ClientValidation.ServerAgrees | static/js/device_config.js:44-54 | an address the browser accepts is accepted by the server exactly when no octet has a leading zero |
| ClientValidation.CoreParses | static/js/device_config.js:48-52 | an in-range core is a valid server-side interface exactly when it is not zero-padded |
| ClientValidation.PrefixParses | static/js/device_config.js:48 | every prefix the browser accepts is one the server accepts |
| ClientValidation.ParseAddressOfGroups | static/js/device_config.js:51-52 | four in-range groups parse as an address exactly when none is zero-padded |

## Left out

- Persistence: the Flask request, SQLAlchemy, login and the 404 paths. The stored rows and the lab configuration are values passed in, and what a handler writes is its result. Decoding the stored JSON is not modelled: the model receives the decoded value, or None when the text does not decode.
- IPv6: `ipaddress.ip_address` and `ip_interface` also accept IPv6 text. The model accepts IPv4 only, so an IPv6 ping target or interface address is refused.
- Python's `str()` of a list or an object: the model does not produce this text. `Json.PyStr` returns None for these values. `Reachability.HopLines` is None when an interface label is such a value, and `Reachability.Traceroute` then answers `NotModelled`. `DeviceConfig.SetResult` is `NotModelled` for such a hostname.
- JSON floating-point numbers are not modelled. Integers, strings, booleans, null, lists and objects are.
- Randomness: Python's Mersenne Twister is a parameter (`Sampler`) whose draws are assumed to lie in [0, jitter]. Latency.SeededRepeats states repetition in terms of that parameter, not of the generator's actual output. An unseeded draw is a separate parameter, so its value is arbitrary within the range.
- PathSearch.Bfs: its contract says "a simple shortest walk to an owner". The source returns the first such walk in adjacency order, so this is weaker than the exact tie-breaking. The method itself does follow the adjacency order.
- Reachability.FindRoute: inherits the same weaker statement about which shortest route is found.
- Reachability.Traceroute: inherits the same weaker statement about which shortest route is printed.
- Json.IntOf: strings with underscores between digits ("1_0") and non-ASCII decimal digits, which Python's `int()` also accepts, are treated as raising.
- Hashing: an unhashable link endpoint (a list used as "from") is treated as not being a device name. Python would raise there.
- Addresses.ExtractIps: non-string values that Python puts into the set (an integer "address", say) are dropped, because a target is a string and can never equal them.
- Regular expressions: `\d` and `\s` are taken as ASCII digits and the listed whitespace characters; Unicode digits are not modelled. `\w` and `\b` are taken as ASCII too, so a dotted quad right after a non-ASCII letter (as in "é1.2.3.4") is found by the model, while Python's Unicode `\b` finds nothing there. Case-insensitive tests use ASCII case folding, which is exact for the keywords involved.
- `lab_topology`'s node list and its `positions` output, which feed only the drawing, are not modelled. `save_lab_topology`'s answer is modelled with its links, positions and seed.
- The other command branches are not modelled: `show` commands, the Arista simulation, enable gating, DNS and the PC browser.
- The browser's DOM handling is not modelled: rendering, button state and the fetch calls. Only the two address checks are.
- Concurrency between requests is not modelled.

## Findings

| source | as written | input that shows it | evidently intended | confidence | as-written member | corrected member |
|---|---|---|---|---|---|---|
| app.py:712-713 | a non-empty configuration is stripped, split into lines, and the first line is taken | initial_config = " \n": strip gives "", `splitlines()` gives [], and `[0]` raises IndexError | a configuration holding no line falls back to the device name as hostname | high (not executed) | DeviceConfig.WhitespaceConfigRaises | DeviceConfig.ReadHostnameCorrects |
| app.py:509-523 | `lab_topology` derives edges from the device list, while `ping` and `traceroute` derive them from a dictionary keyed by name, which keeps only the last device of each name | a router and a switch both named R1: the topology view shows an R1-R1 edge, the commands' graph has no edge | the topology view shows the graph the commands search | medium (not executed; names are usually unique, but nothing enforces it) | GraphBuild.DuplicateNamesDiverge | GraphBuild.VisualisationMatchesCommands |
| static/js/device_config.js:121 | the save-time pattern checks only the shape of the address | "999.1.1.1" passes the save-time pattern, while `validateIpValue` rejects it as out of range | the save-time check applies the same octet range as the field check | medium (not executed; the field check normally disables the save button first) | ClientValidation.SaveRegexAdmitsLargeOctet | ClientValidation.SaveCheckInRange |
