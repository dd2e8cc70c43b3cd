/**
  The breadth-first search ping and traceroute run from the source device
  over the adjacency: a queue of paths, a visited set seeded with the
  source, and a stop as soon as the path taken from the queue ends at a
  target.  The result is a path of fewest hops to a target, or None when
  no target can be reached.
*/
module PathSearch {
  import opened Options
  import opened Topology

  function Last(w: seq<string>): string
    requires |w| > 0
  {
    w[|w| - 1]
  }

  /** Consecutive nodes of w are neighbours in adj. */
  predicate IsWalk(adj: Adjacency, w: seq<string>) {
    |w| > 0 && forall k :: 0 <= k < |w| - 1 ==> w[k + 1] in Neighbours(adj, w[k])
  }

  predicate WalkFrom(adj: Adjacency, src: string, w: seq<string>) {
    IsWalk(adj, w) && w[0] == src
  }

  /** No node occurs twice. */
  predicate Simple(w: seq<string>) {
    forall i, j :: 0 <= i < j < |w| ==> w[i] != w[j]
  }

  /** A walk from src that ends at a target. */
  predicate ReachesTarget(adj: Adjacency, src: string, targets: seq<string>, w: seq<string>) {
    WalkFrom(adj, src, w) && Last(w) in targets
  }

  /** Every node the adjacency mentions. */
  function Nodes(adj: Adjacency): set<string> {
    adj.Keys + set k, i | k in adj && 0 <= i < |adj[k]| :: adj[k][i]
  }

  /** The nodes the queued paths end at. */
  function Lasts(q: seq<seq<string>>): set<string> {
    set i | 0 <= i < |q| && |q[i]| > 0 :: Last(q[i])
  }

  /** Every queued path is a simple walk from src over visited nodes. */
  predicate QueueWalks(adj: Adjacency, src: string, visited: set<string>, q: seq<seq<string>>) {
    forall i :: 0 <= i < |q| ==>
      WalkFrom(adj, src, q[i]) && Simple(q[i]) && forall k :: 0 <= k < |q[i]| ==> q[i][k] in visited
  }

  /** Queued paths have level or level + 1 nodes, shorter ones first. */
  predicate Levels(q: seq<seq<string>>, level: nat) {
    && (forall i :: 0 <= i < |q| ==> level <= |q[i]| <= level + 1)
    && (forall i, j :: 0 <= i < j < |q| ==> |q[i]| <= |q[j]|)
  }

  /** depth records, for each visited node, the length of the path that discovered it. */
  predicate Depths(visited: set<string>, q: seq<seq<string>>, depth: map<string, nat>, level: nat) {
    && depth.Keys == visited
    && (forall i :: 0 <= i < |q| ==> |q[i]| > 0 && Last(q[i]) in depth && depth[Last(q[i])] == |q[i]|)
    && (forall v :: v in depth ==> depth[v] <= level + 1)
  }

  /** The neighbours of every finished node are visited, at most one step deeper. */
  predicate Closed(adj: Adjacency, done: set<string>, depth: map<string, nat>) {
    forall u, v :: u in done && u in depth && v in Neighbours(adj, u) ==> v in depth && depth[v] <= depth[u] + 1
  }

  /** Every node reachable from src in at most level nodes is visited, no deeper than that walk. */
  ghost predicate Covered(adj: Adjacency, src: string, depth: map<string, nat>, level: nat) {
    forall w :: WalkFrom(adj, src, w) && |w| <= level ==> Last(w) in depth && depth[Last(w)] <= |w|
  }

  /** The loop invariant of the search. */
  ghost predicate SearchState(adj: Adjacency, src: string, targets: seq<string>, visited: set<string>,
                        q: seq<seq<string>>, done: set<string>, depth: map<string, nat>, level: nat) {
    && src in visited
    && visited <= Nodes(adj) + {src}
    && QueueWalks(adj, src, visited, q)
    && Levels(q, level)
    && Depths(visited, q, depth, level)
    && visited == done + Lasts(q)
    && done <= visited
    && (forall u :: u in done ==> u !in targets)
    && Closed(adj, done, depth)
    && Covered(adj, src, depth, level)
  }

  /** After looking at the neighbours nbs: each one not visited before is visited and queued once, at depth |p| + 1. */
  ghost predicate Grown(p: seq<string>, nbs: seq<string>, visited0: set<string>, rest: seq<seq<string>>, depth0: map<string, nat>,
                        visited: set<string>, q: seq<seq<string>>, depth: map<string, nat>) {
    && |p| > 0
    && depth0.Keys == visited0
    && visited == visited0 + (set x | x in nbs)
    && |rest| <= |q|
    && q[..|rest|] == rest
    && (forall j :: |rest| <= j < |q| ==>
          |q[j]| == |p| + 1 && q[j][..|p|] == p && Last(q[j]) in nbs && Last(q[j]) !in visited0)
    && Lasts(q[|rest|..]) == visited - visited0
    && depth.Keys == visited
    && (forall v :: v in visited ==> depth[v] == if v in visited0 then depth0[v] else |p| + 1)
  }

  /** What one expansion step does: each unvisited neighbour of the path's end is visited and queued. */
  ghost predicate Expanded(adj: Adjacency, p: seq<string>, visited0: set<string>, rest: seq<seq<string>>, depth0: map<string, nat>,
                           visited: set<string>, q: seq<seq<string>>, depth: map<string, nat>) {
    |p| > 0 && Grown(p, Neighbours(adj, Last(p)), visited0, rest, depth0, visited, q, depth)
  }

  /**
    The search of ping and traceroute.  A path, when found, is a simple
    walk from src to a target with no shorter such walk; None means no
    walk from src reaches a target.
  */
  method Bfs(adj: Adjacency, src: string, targets: seq<string>) returns (path: Option<seq<string>>)
    ensures path.Some? ==> ReachesTarget(adj, src, targets, path.value) && Simple(path.value)
    ensures path.Some? ==> forall w :: ReachesTarget(adj, src, targets, w) ==> |path.value| <= |w|
    ensures path.None? <==> forall w :: WalkFrom(adj, src, w) ==> Last(w) !in targets
  {
    var visited := {src};
    var q := [[src]];
    ghost var done: set<string> := {};
    ghost var depth: map<string, nat> := map[src := 1];
    ghost var level: nat := 1;
    InitialState(adj, src, targets);
    while q != []
      invariant level >= 1
      invariant SearchState(adj, src, targets, visited, q, done, depth, level)
      decreases |Nodes(adj) + {src} - visited|, |q|
    {
      var p := q[0];
      if |p| == level + 1 {
        LevelUp(adj, src, targets, visited, q, done, depth, level);
        level := level + 1;
      }
      var node := Last(p);
      if node in targets {
        FoundShortest(adj, src, targets, visited, q, done, depth, level);
        return Some(p);
      }
      ghost var visited0, q0, depth0 := visited, q, depth;
      visited, q, depth := Expand(adj, p, visited, q[1..], depth);
      Popped(adj, src, targets, visited0, q0, done, depth0, level, visited, q, depth);
      PoppedMeasure(adj, src, visited0, q0, depth0, visited, q, depth);
      done := done + {node};
    }
    Exhausted(adj, src, targets, visited, done, depth, level);
    path := None;
  }

  /** The inner loop: for nb in adj.get(node, []), queue p + [nb] for each nb not yet visited. */
  method Expand(adj: Adjacency, p: seq<string>, visited0: set<string>, rest: seq<seq<string>>, ghost depth0: map<string, nat>)
    returns (visited: set<string>, q: seq<seq<string>>, ghost depth: map<string, nat>)
    requires |p| > 0 && depth0.Keys == visited0
    ensures Expanded(adj, p, visited0, rest, depth0, visited, q, depth)
  {
    var nbs := Neighbours(adj, p[|p| - 1]);
    visited, q, depth := visited0, rest, depth0;
    GrowStart(p, visited0, rest, depth0);
    for k := 0 to |nbs|
      invariant Grown(p, nbs[..k], visited0, rest, depth0, visited, q, depth)
    {
      var nb := nbs[k];
      assert nbs[..k + 1] == nbs[..k] + [nb];
      if nb !in visited {
        GrowAdd(p, nbs[..k], nb, visited0, rest, depth0, visited, q, depth);
        visited := visited + {nb};
        q := q + [p + [nb]];
        depth := depth[nb := |p| + 1];
      } else {
        GrowSkip(p, nbs[..k], nb, visited0, rest, depth0, visited, q, depth);
      }
    }
    assert nbs[..|nbs|] == nbs;
  }

  lemma GrowStart(p: seq<string>, visited0: set<string>, rest: seq<seq<string>>, depth0: map<string, nat>)
    requires |p| > 0 && depth0.Keys == visited0
    ensures Grown(p, [], visited0, rest, depth0, visited0, rest, depth0)
  {
    assert rest[|rest|..] == [];
    assert Lasts([]) == {};
  }

  lemma GrowSkip(p: seq<string>, nbs: seq<string>, nb: string, visited0: set<string>, rest: seq<seq<string>>,
                 depth0: map<string, nat>, visited: set<string>, q: seq<seq<string>>, depth: map<string, nat>)
    requires Grown(p, nbs, visited0, rest, depth0, visited, q, depth)
    requires nb in visited
    ensures Grown(p, nbs + [nb], visited0, rest, depth0, visited, q, depth)
  {
    assert (set x | x in nbs + [nb]) == (set x | x in nbs) + {nb};
  }

  lemma GrowAdd(p: seq<string>, nbs: seq<string>, nb: string, visited0: set<string>, rest: seq<seq<string>>,
                depth0: map<string, nat>, visited: set<string>, q: seq<seq<string>>, depth: map<string, nat>)
    requires Grown(p, nbs, visited0, rest, depth0, visited, q, depth)
    requires nb !in visited
    ensures Grown(p, nbs + [nb], visited0, rest, depth0, visited + {nb}, q + [p + [nb]], depth[nb := |p| + 1])
  {
    var q' := q + [p + [nb]];
    assert (set x | x in nbs + [nb]) == (set x | x in nbs) + {nb};
    assert q'[..|rest|] == q[..|rest|];
    assert q'[|rest|..] == q[|rest|..] + [p + [nb]];
    LastsAppend(q[|rest|..], [p + [nb]]);
    assert Last(p + [nb]) == nb;
    assert Lasts([p + [nb]]) == {nb} by {
      assert [p + [nb]][0] == p + [nb];
    }
    forall j | |rest| <= j < |q'|
      ensures |q'[j]| == |p| + 1 && q'[j][..|p|] == p && Last(q'[j]) in nbs + [nb] && Last(q'[j]) !in visited0
    {
      if j < |q| {
        assert q'[j] == q[j];
      } else {
        assert q'[j] == p + [nb];
      }
    }
    var visited', depth' := visited + {nb}, depth[nb := |p| + 1];
    assert visited' == visited0 + (set x | x in nbs + [nb]);
    assert Lasts(q'[|rest|..]) == visited' - visited0;
    assert depth'.Keys == visited';
    forall v | v in visited' ensures depth'[v] == if v in visited0 then depth0[v] else |p| + 1 {
      if v != nb {
        assert v in visited;
      }
    }
  }

  lemma LastsAppend(a: seq<seq<string>>, b: seq<seq<string>>)
    ensures Lasts(a + b) == Lasts(a) + Lasts(b)
  {
    var ab := a + b;
    forall x | x in Lasts(ab) ensures x in Lasts(a) + Lasts(b) {
      var i :| 0 <= i < |ab| && |ab[i]| > 0 && x == Last(ab[i]);
      if i < |a| {
        assert ab[i] == a[i];
      } else {
        assert ab[i] == b[i - |a|];
      }
    }
    forall x | x in Lasts(a) + Lasts(b) ensures x in Lasts(ab) {
      if x in Lasts(a) {
        var i :| 0 <= i < |a| && |a[i]| > 0 && x == Last(a[i]);
        assert ab[i] == a[i];
      } else {
        var i :| 0 <= i < |b| && |b[i]| > 0 && x == Last(b[i]);
        assert ab[|a| + i] == b[i];
      }
    }
  }

  lemma InitialState(adj: Adjacency, src: string, targets: seq<string>)
    ensures SearchState(adj, src, targets, {src}, [[src]], {}, map[src := 1], 1)
  {
    var q := [[src]];
    assert Lasts(q) == {src} by {
      assert Last(q[0]) == src;
    }
    forall w | WalkFrom(adj, src, w) && |w| <= 1 ensures Last(w) == src {
    }
  }

  /** When every queued path has level + 1 nodes, every walk of level + 1 nodes has been covered. */
  lemma LevelUp(adj: Adjacency, src: string, targets: seq<string>, visited: set<string>,
                q: seq<seq<string>>, done: set<string>, depth: map<string, nat>, level: nat)
    requires level >= 1
    requires SearchState(adj, src, targets, visited, q, done, depth, level)
    requires q != [] && |q[0]| == level + 1
    ensures SearchState(adj, src, targets, visited, q, done, depth, level + 1)
  {
    forall i | 0 <= i < |q| ensures |q[i]| == level + 1 {
      if i > 0 {
        assert |q[0]| <= |q[i]|;
      }
    }
    forall w | WalkFrom(adj, src, w) && |w| <= level + 1
      ensures Last(w) in depth && depth[Last(w)] <= |w|
    {
      if |w| == level + 1 {
        CoverNext(adj, src, targets, visited, q, done, depth, level, w);
      }
    }
  }

  lemma CoverNext(adj: Adjacency, src: string, targets: seq<string>, visited: set<string>,
                  q: seq<seq<string>>, done: set<string>, depth: map<string, nat>, level: nat, w: seq<string>)
    requires level >= 1
    requires Covered(adj, src, depth, level) && Depths(visited, q, depth, level)
    requires visited == done + Lasts(q) && Closed(adj, done, depth)
    requires forall i :: 0 <= i < |q| ==> |q[i]| == level + 1
    requires WalkFrom(adj, src, w) && |w| == level + 1
    ensures Last(w) in depth && depth[Last(w)] <= |w|
  {
    var w' := w[..|w| - 1];
    WalkPrefix(adj, src, w);
    var u := Last(w');
    assert u in depth && depth[u] <= level;
    assert u !in Lasts(q) by {
      forall i | 0 <= i < |q| && |q[i]| > 0 ensures Last(q[i]) != u {
        assert depth[Last(q[i])] == level + 1;
      }
    }
    assert w[|w| - 1] in Neighbours(adj, w[|w| - 2]);
  }

  /** Dropping the last node of a walk from src leaves a walk from src. */
  lemma WalkPrefix(adj: Adjacency, src: string, w: seq<string>)
    requires WalkFrom(adj, src, w) && |w| > 1
    ensures WalkFrom(adj, src, w[..|w| - 1])
  {
    var w' := w[..|w| - 1];
    forall k | 0 <= k < |w'| - 1 ensures w'[k + 1] in Neighbours(adj, w'[k]) {
      assert w'[k] == w[k] && w'[k + 1] == w[k + 1];
    }
  }

  /** A path ending at a target that is taken from the front of the queue is a shortest one. */
  lemma FoundShortest(adj: Adjacency, src: string, targets: seq<string>, visited: set<string>,
                      q: seq<seq<string>>, done: set<string>, depth: map<string, nat>, level: nat)
    requires SearchState(adj, src, targets, visited, q, done, depth, level)
    requires q != [] && |q[0]| <= level && Last(q[0]) in targets
    ensures ReachesTarget(adj, src, targets, q[0]) && Simple(q[0])
    ensures forall w :: ReachesTarget(adj, src, targets, w) ==> |q[0]| <= |w|
  {
    forall w | ReachesTarget(adj, src, targets, w) ensures |q[0]| <= |w| {
      if |w| <= level {
        var x := Last(w);
        assert x in depth && depth[x] <= |w|;
        assert x !in done;
        assert x in Lasts(q);
        var i :| 0 <= i < |q| && |q[i]| > 0 && x == Last(q[i]);
        assert |q[0]| <= level <= |q[i]| == depth[x];
      }
    }
  }

  /** With the queue empty, the finished nodes are closed under neighbours and hold no target. */
  lemma Exhausted(adj: Adjacency, src: string, targets: seq<string>, visited: set<string>,
                  done: set<string>, depth: map<string, nat>, level: nat)
    requires SearchState(adj, src, targets, visited, [], done, depth, level)
    ensures forall w :: WalkFrom(adj, src, w) ==> Last(w) !in targets
  {
    assert Lasts([]) == {};
    forall w | WalkFrom(adj, src, w) ensures Last(w) in done {
      WalkStaysIn(adj, done, depth, w, |w|);
    }
  }

  lemma {:induction false} WalkStaysIn(adj: Adjacency, done: set<string>, depth: map<string, nat>, w: seq<string>, n: nat)
    requires IsWalk(adj, w) && w[0] in done && depth.Keys == done
    requires Closed(adj, done, depth)
    requires 1 <= n <= |w|
    ensures w[n - 1] in done
  {
    if n > 1 {
      WalkStaysIn(adj, done, depth, w, n - 1);
      assert w[n - 1] in Neighbours(adj, w[n - 2]);
    }
  }

  /**
    Taking the front path off the queue, finishing its end node and
    queueing its unvisited neighbours keeps the search state.
  */
  lemma Popped(adj: Adjacency, src: string, targets: seq<string>, visited0: set<string>, q0: seq<seq<string>>,
               done: set<string>, depth0: map<string, nat>, level: nat,
               visited: set<string>, q: seq<seq<string>>, depth: map<string, nat>)
    requires SearchState(adj, src, targets, visited0, q0, done, depth0, level)
    requires q0 != [] && |q0[0]| == level && Last(q0[0]) !in targets
    requires Expanded(adj, q0[0], visited0, q0[1..], depth0, visited, q, depth)
    ensures SearchState(adj, src, targets, visited, q, done + {Last(q0[0])}, depth, level)
  {
    PoppedNodes(adj, Last(q0[0]));
    PoppedQueue(adj, src, visited0, q0, level, visited, q, depth0, depth);
    PoppedLasts(visited0, q0, done, visited, q);
    PoppedClosed(adj, visited0, q0, done, depth0, level, visited, q, depth);
    PoppedCovered(adj, src, visited0, depth0, level, visited, depth);
  }

  /** Each round either visits a new node or shortens the queue. */
  lemma PoppedMeasure(adj: Adjacency, src: string, visited0: set<string>, q0: seq<seq<string>>, depth0: map<string, nat>,
                      visited: set<string>, q: seq<seq<string>>, depth: map<string, nat>)
    requires q0 != [] && |q0[0]| > 0 && visited0 <= Nodes(adj) + {src}
    requires Expanded(adj, q0[0], visited0, q0[1..], depth0, visited, q, depth)
    ensures visited == visited0 ==> |q| < |q0|
    ensures |Nodes(adj) + {src} - visited| <= |Nodes(adj) + {src} - visited0|
    ensures visited != visited0 ==> |Nodes(adj) + {src} - visited| < |Nodes(adj) + {src} - visited0|
  {
    PoppedNodes(adj, Last(q0[0]));
    if visited == visited0 {
      NothingQueued(q0[1..], q);
    }
    Shrinks(Nodes(adj) + {src}, visited0, visited);
  }

  /** Appending only paths whose ends are new: when nothing is new, nothing was appended. */
  lemma NothingQueued(rest: seq<seq<string>>, q: seq<seq<string>>)
    requires |rest| <= |q| && Lasts(q[|rest|..]) == {}
    requires forall j :: |rest| <= j < |q| ==> |q[j]| > 0
    ensures |q| == |rest|
  {
    LastsHas(q[|rest|..], 0);
  }

  lemma LastsHas(q: seq<seq<string>>, k: int)
    ensures 0 <= k < |q| && |q[k]| > 0 ==> Last(q[k]) in Lasts(q)
  {
  }

  /** Visiting more nodes of a set leaves fewer unvisited. */
  lemma Shrinks(all: set<string>, visited0: set<string>, visited: set<string>)
    requires visited0 <= visited <= all
    ensures |all - visited| <= |all - visited0|
    ensures visited != visited0 ==> |all - visited| < |all - visited0|
  {
    if visited != visited0 {
      var x :| x in visited && x !in visited0;
      assert all - visited <= (all - visited0) - {x};
      SubsetCard(all - visited, (all - visited0) - {x});
    }
    SubsetCard(all - visited, all - visited0);
  }

  lemma SubsetCard(a: set<string>, b: set<string>)
    requires a <= b
    ensures |a| <= |b|
  {
    assert b == a + (b - a);
  }

  lemma PoppedCovered(adj: Adjacency, src: string, visited0: set<string>, depth0: map<string, nat>, level: nat,
                      visited: set<string>, depth: map<string, nat>)
    requires Covered(adj, src, depth0, level) && depth0.Keys == visited0 && depth.Keys == visited
    requires forall v :: v in visited0 ==> v in visited && depth[v] == depth0[v]
    ensures Covered(adj, src, depth, level)
  {
    forall w | WalkFrom(adj, src, w) && |w| <= level ensures Last(w) in depth && depth[Last(w)] <= |w| {
      assert Last(w) in depth0;
    }
  }

  lemma PoppedNodes(adj: Adjacency, u: string)
    ensures (set x | x in Neighbours(adj, u)) <= Nodes(adj)
  {
    forall x | x in Neighbours(adj, u) ensures x in Nodes(adj) {
      var i :| 0 <= i < |adj[u]| && adj[u][i] == x;
    }
  }

  lemma PoppedQueue(adj: Adjacency, src: string, visited0: set<string>, q0: seq<seq<string>>, level: nat,
                    visited: set<string>, q: seq<seq<string>>, depth0: map<string, nat>, depth: map<string, nat>)
    requires QueueWalks(adj, src, visited0, q0) && Levels(q0, level) && Depths(visited0, q0, depth0, level)
    requires q0 != [] && |q0[0]| == level
    requires Expanded(adj, q0[0], visited0, q0[1..], depth0, visited, q, depth)
    ensures QueueWalks(adj, src, visited, q)
    ensures Levels(q, level)
    ensures Depths(visited, q, depth, level)
  {
    var p, rest := q0[0], q0[1..];
    forall j | 0 <= j < |q|
      ensures WalkFrom(adj, src, q[j]) && Simple(q[j]) && forall k :: 0 <= k < |q[j]| ==> q[j][k] in visited
      ensures level <= |q[j]| <= level + 1
      ensures |q[j]| > 0 && Last(q[j]) in depth && depth[Last(q[j])] == |q[j]|
    {
      if j < |rest| {
        assert q[j] == q[..|rest|][j] == rest[j] == q0[j + 1];
      } else {
        NewPath(adj, src, visited0, p, q[j]);
      }
    }
    forall i, j | 0 <= i < j < |q| ensures |q[i]| <= |q[j]| {
      if j < |rest| {
        assert q[i] == q0[i + 1] && q[j] == q0[j + 1];
      } else if i < |rest| {
        assert q[i] == q0[i + 1];
      }
    }
  }

  /** p extended by an unvisited neighbour of its end is again a simple walk from src. */
  lemma NewPath(adj: Adjacency, src: string, visited0: set<string>, p: seq<string>, w: seq<string>)
    requires WalkFrom(adj, src, p) && Simple(p) && forall k :: 0 <= k < |p| ==> p[k] in visited0
    requires |w| == |p| + 1 && w[..|p|] == p && Last(w) in Neighbours(adj, Last(p)) && Last(w) !in visited0
    ensures WalkFrom(adj, src, w) && Simple(w)
  {
    assert w == p + [Last(w)];
    forall i, j | 0 <= i < j < |w| ensures w[i] != w[j] {
      if j < |p| {
        assert w[i] == p[i] && w[j] == p[j];
      } else {
        assert w[i] == p[i] && p[i] in visited0;
      }
    }
    forall k | 0 <= k < |w| - 1 ensures w[k + 1] in Neighbours(adj, w[k]) {
      if k < |p| - 1 {
        assert w[k] == p[k] && w[k + 1] == p[k + 1];
      }
    }
  }

  lemma PoppedLasts(visited0: set<string>, q0: seq<seq<string>>, done: set<string>,
                    visited: set<string>, q: seq<seq<string>>)
    requires visited0 == done + Lasts(q0)
    requires q0 != [] && |q0[0]| > 0
    requires visited0 <= visited && |q0| - 1 <= |q| && q[..|q0| - 1] == q0[1..]
    requires Lasts(q[|q0| - 1..]) == visited - visited0
    ensures visited == done + {Last(q0[0])} + Lasts(q)
  {
    var rest := q0[1..];
    PoppedFront(q0);
    assert q == rest + q[|rest|..];
    LastsAppend(rest, q[|rest|..]);
  }

  lemma PoppedFront(q0: seq<seq<string>>)
    requires q0 != [] && |q0[0]| > 0
    ensures Lasts(q0) == {Last(q0[0])} + Lasts(q0[1..])
  {
    assert q0 == [q0[0]] + q0[1..];
    LastsAppend([q0[0]], q0[1..]);
    assert Lasts([q0[0]]) == {Last(q0[0])} by {
      assert [q0[0]][0] == q0[0];
    }
  }

  lemma PoppedClosed(adj: Adjacency, visited0: set<string>, q0: seq<seq<string>>,
                     done: set<string>, depth0: map<string, nat>, level: nat,
                     visited: set<string>, q: seq<seq<string>>, depth: map<string, nat>)
    requires Closed(adj, done, depth0) && Depths(visited0, q0, depth0, level) && done <= visited0
    requires q0 != [] && |q0[0]| == level
    requires Expanded(adj, q0[0], visited0, q0[1..], depth0, visited, q, depth)
    ensures Closed(adj, done + {Last(q0[0])}, depth)
  {
    var u := Last(q0[0]);
    assert u in Lasts(q0);
    forall a, v | a in done + {u} && a in depth && v in Neighbours(adj, a)
      ensures v in depth && depth[v] <= depth[a] + 1
    {
      if a in done {
        assert v in depth0 && depth0[v] <= depth0[a] + 1;
      } else {
        assert depth[a] == depth0[a] == level;
      }
    }
  }
}
