/**
  The per-hop figures traceroute prints: the stored link joining two
  consecutive nodes of the path (_find_link), the latency derived from
  its "cost" and "jitter", and the interface labels shown beside the
  node.

  Python's random number generator is not modelled: a Sampler stands for
  it, giving for a seed and a bound what random.Random(seed).randint(0,
  bound) returns, and for an unseeded generator some value per hop.  The
  only thing assumed of it is that its values lie in [0, bound].
*/
module Latency {
  import opened Options
  import opened Text
  import opened Json

  type Fields = seq<(string, Json)>

  // ---------------------------------------------------------------- _find_link

  /** A dict link joining a and b, in either orientation. */
  predicate DictJoins(f: Fields, a: string, b: string) {
    || (Get(f, "from") == Some(JStr(a)) && Get(f, "to") == Some(JStr(b)))
    || (Get(f, "from") == Some(JStr(b)) && Get(f, "to") == Some(JStr(a)))
  }

  /** A list link of at least two items whose first two are a and b, in either orientation. */
  predicate PairJoins(items: seq<Json>, a: string, b: string) {
    |items| >= 2 && ((items[0] == JStr(a) && items[1] == JStr(b)) || (items[0] == JStr(b) && items[1] == JStr(a)))
  }

  /** The entries that end the search: a joining dict (found) or a joining list (no metadata). */
  predicate Stops(e: Json, a: string, b: string) {
    match e
    case JObj(f) => DictJoins(f, a, b)
    case JArr(items) => PairJoins(items, a, b)
    case _ => false
  }

  /** _find_link: the first entry joining a and b decides; a dict is returned, a list gives None. */
  function FindLink(links: seq<Json>, a: string, b: string): Option<Fields> {
    if links == [] then None
    else if Stops(links[0], a, b) then (if links[0].JObj? then Some(links[0].fields) else None)
    else FindLink(links[1..], a, b)
  }

  /** The loop of _find_link, returning at the first entry that joins a and b. */
  method FindLinkIn(links: seq<Json>, a: string, b: string) returns (r: Option<Fields>)
    ensures r == FindLink(links, a, b)
  {
    var i := 0;
    while i < |links|
      invariant i <= |links|
      invariant FindLink(links, a, b) == FindLink(links[i..], a, b)
    {
      assert links[i..][1..] == links[i + 1..];
      if Stops(links[i], a, b) {
        if links[i].JObj? {
          return Some(links[i].fields);
        }
        return None;
      }
      i := i + 1;
    }
    return None;
  }

  /**
    The link found is the first entry that stops the search, and it is a
    dict joining a and b; None means the first such entry is a list, or
    there is none.
  */
  lemma {:induction false} FindLinkFirst(links: seq<Json>, a: string, b: string)
    ensures FindLink(links, a, b).Some? <==>
              exists i :: 0 <= i < |links| && links[i].JObj? && DictJoins(links[i].fields, a, b) &&
                          forall j :: 0 <= j < i ==> !Stops(links[j], a, b)
    ensures FindLink(links, a, b).Some? ==>
              exists i :: 0 <= i < |links| && links[i] == JObj(FindLink(links, a, b).value) &&
                          DictJoins(links[i].fields, a, b)
    decreases |links|
  {
    if links != [] && !Stops(links[0], a, b) {
      var tail := links[1..];
      FindLinkFirst(tail, a, b);
      if FindLink(tail, a, b).Some? {
        var i :| 0 <= i < |tail| && tail[i].JObj? && DictJoins(tail[i].fields, a, b) &&
                 forall j :: 0 <= j < i ==> !Stops(tail[j], a, b);
        assert links[i + 1] == tail[i];
        forall j | 0 <= j < i + 1 ensures !Stops(links[j], a, b) {
          if j > 0 {
            assert links[j] == tail[j - 1];
          }
        }
        var k :| 0 <= k < |tail| && tail[k] == JObj(FindLink(tail, a, b).value) && DictJoins(tail[k].fields, a, b);
        assert links[k + 1] == tail[k];
      }
      if exists i :: 0 <= i < |links| && links[i].JObj? && DictJoins(links[i].fields, a, b) &&
                     forall j :: 0 <= j < i ==> !Stops(links[j], a, b) {
        var i :| 0 <= i < |links| && links[i].JObj? && DictJoins(links[i].fields, a, b) &&
                 forall j :: 0 <= j < i ==> !Stops(links[j], a, b);
        assert i > 0;
        assert tail[i - 1] == links[i];
        forall j | 0 <= j < i - 1 ensures !Stops(tail[j], a, b) {
          assert tail[j] == links[j + 1];
        }
      }
    }
  }

  /** The search does not care which end of the hop is named first. */
  lemma {:induction false} FindLinkSymmetric(links: seq<Json>, a: string, b: string)
    ensures FindLink(links, a, b) == FindLink(links, b, a)
    decreases |links|
  {
    if links != [] {
      FindLinkSymmetric(links[1..], a, b);
    }
  }

  // ---------------------------------------------------------------- latency

  /** jitter_seed of the lab configuration: absent or null, an integer, or a value int() rejects. */
  datatype Seed = Unseeded | Seeded(n: int) | BadSeed

  /**
    The seed the sampling uses.  A configuration that is not an object
    makes cfg_all.get raise, as does a seed int() rejects: either way the
    jitter is 0.  (An absent configuration reads as "{}".)
  */
  function SeedOf(config: Option<Json>): Seed {
    match config
    case None => Unseeded
    case Some(JObj(f)) =>
      (match Get(f, "jitter_seed")
       case None => Unseeded
       case Some(JNull) => Unseeded
       case Some(v) => (match IntOf(v) case Some(n) => Seeded(n) case None => BadSeed))
    case Some(_) => BadSeed
  }

  /** What stands for Python's generator: a seeded draw and a per-hop unseeded draw. */
  datatype Sampler = Sampler(seeded: (int, nat) -> int, unseeded: (nat, nat) -> int)

  /** randint(0, bound) returns a value in [0, bound]. */
  ghost predicate InRange(sm: Sampler) {
    && (forall s: int, bound: nat :: 0 <= sm.seeded(s, bound) <= bound)
    && (forall i: nat, bound: nat :: 0 <= sm.unseeded(i, bound) <= bound)
  }

  /** jval for hop i: a draw when the jitter is positive and the seed usable, else 0. */
  function JitterValue(seed: Seed, i: nat, jitter: int, sm: Sampler): int {
    if seed.BadSeed? || jitter <= 0 then 0
    else if seed.Seeded? then sm.seeded(seed.n + i, jitter)
    else sm.unseeded(i, jitter)
  }

  /** int(link_meta.get("cost", 1)), 1 when int() raises. */
  function BaseCost(f: Fields): int {
    match Get(f, "cost")
    case None => 1
    case Some(v) => (match IntOf(v) case Some(n) => n case None => 1)
  }

  /** int(link_meta.get("jitter", 0)), 0 when int() raises. */
  function JitterOf(f: Fields): int {
    match Get(f, "jitter")
    case None => 0
    case Some(v) => (match IntOf(v) case Some(n) => n case None => 0)
  }

  function Max(a: int, b: int): int { if a >= b then a else b }

  /**
    The latency of hop i reached over the link found: 1 unless the link is
    a dict with a "cost", then max(1, cost + jitter draw).
  */
  function HopLatency(meta: Option<Fields>, config: Option<Json>, i: nat, sm: Sampler): (l: int)
    ensures l >= 1
  {
    if meta.Some? && Get(meta.value, "cost").Some? then
      Max(1, BaseCost(meta.value) + JitterValue(SeedOf(config), i, JitterOf(meta.value), sm))
    else 1
  }

  /** Without a cost there is no link latency: every hop then shows 1. */
  lemma LatencyWithoutCost(meta: Option<Fields>, config: Option<Json>, i: nat, sm: Sampler)
    requires meta.None? || Get(meta.value, "cost").None?
    ensures HopLatency(meta, config, i, sm) == 1
  {
  }

  /**
    With a usable cost c and jitter j, the latency lies between max(1, c)
    and max(1, c + j), whatever is drawn.
  */
  lemma LatencyBounds(f: Fields, config: Option<Json>, i: nat, sm: Sampler)
    requires InRange(sm) && Get(f, "cost").Some?
    ensures Max(1, BaseCost(f)) <= HopLatency(Some(f), config, i, sm) <= Max(1, BaseCost(f) + Max(0, JitterOf(f)))
  {
    var j := JitterOf(f);
    var jv := JitterValue(SeedOf(config), i, j, sm);
    assert 0 <= jv <= Max(0, j) by {
      if !(SeedOf(config).BadSeed? || j <= 0) {
        if SeedOf(config).Seeded? {
          assert 0 <= sm.seeded(SeedOf(config).n + i, j) <= j;
        } else {
          assert 0 <= sm.unseeded(i, j) <= j;
        }
      }
    }
  }

  /** A non-positive jitter, or a seed int() rejects, draws nothing: the latency is max(1, cost). */
  lemma LatencyWithoutDraw(f: Fields, config: Option<Json>, i: nat, sm: Sampler)
    requires Get(f, "cost").Some? && (JitterOf(f) <= 0 || SeedOf(config).BadSeed?)
    ensures HopLatency(Some(f), config, i, sm) == Max(1, BaseCost(f))
  {
  }

  /** With a seed n and a positive jitter, hop i's latency uses the draw seeded with n + i. */
  lemma SeededDraw(f: Fields, config: Option<Json>, i: nat, sm: Sampler)
    requires Get(f, "cost").Some? && JitterOf(f) > 0 && SeedOf(config).Seeded?
    ensures HopLatency(Some(f), config, i, sm) == Max(1, BaseCost(f) + sm.seeded(SeedOf(config).n + i, JitterOf(f)))
  {
    var seed, j := SeedOf(config), JitterOf(f);
    var jv := JitterValue(seed, i, j, sm);
    assert jv == sm.seeded(seed.n + i, j);
    assert HopLatency(Some(f), config, i, sm) == Max(1, BaseCost(f) + jv);
  }

  /**
    With a seed, the latency depends on the seeded draw alone, at seed + i:
    two samplers that agree there give the same latency, so a seeded lab
    repeats its figures.
  */
  lemma SeededRepeats(f: Fields, config: Option<Json>, i: nat, sm1: Sampler, sm2: Sampler)
    requires SeedOf(config).Seeded?
    requires JitterOf(f) <= 0 || sm1.seeded(SeedOf(config).n + i, JitterOf(f)) == sm2.seeded(SeedOf(config).n + i, JitterOf(f))
    ensures HopLatency(Some(f), config, i, sm1) == HopLatency(Some(f), config, i, sm2)
  {
    var seed := SeedOf(config);
    assert JitterValue(seed, i, JitterOf(f), sm1) == JitterValue(seed, i, JitterOf(f), sm2);
  }

  // ---------------------------------------------------------------- interface labels

  /** The separator between the two labels: the arrow as the source file's bytes read back, three characters. */
  const Arrow: string := "\U{00E2}\U{2020}\U{201D}"

  /**
    iface_info: " (src_if<arrow>dst_if)" when the link is a dict with both
    labels truthy, "" otherwise; None when a label is an array or object.
  */
  function IfaceInfo(meta: Option<Fields>): Option<string> {
    if meta.Some? then
      var s := Get(meta.value, "src_if");
      var d := Get(meta.value, "dst_if");
      if s.Some? && Truthy(s.value) && d.Some? && Truthy(d.value) then
        (match (PyStr(s.value), PyStr(d.value))
         case (Some(x), Some(y)) => Some(" (" + x + Arrow + y + ")")
         case _ => None)
      else Some("")
    else Some("")
  }

  /** String labels are shown verbatim, in the link's own order, whichever way the hop goes. */
  lemma IfaceInfoOfStrings(f: Fields, x: string, y: string)
    requires Get(f, "src_if") == Some(JStr(x)) && Get(f, "dst_if") == Some(JStr(y)) && x != [] && y != []
    ensures IfaceInfo(Some(f)) == Some(" (" + x + Arrow + y + ")")
  {
  }

  /** Only a link with both labels truthy shows any: otherwise the suffix is empty. */
  lemma IfaceInfoEmpty(meta: Option<Fields>)
    ensures IfaceInfo(meta) == Some("") <==>
              meta.None? || !(Get(meta.value, "src_if").Some? && Truthy(Get(meta.value, "src_if").value) &&
                              Get(meta.value, "dst_if").Some? && Truthy(Get(meta.value, "dst_if").value))
  {
  }
}
