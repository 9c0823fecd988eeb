/** The two depth-capped breadth-first searches of the metrics script: path lengths from
    sampled sources, and betweenness counts along the parent links of sampled pairs. */
module ShortestPaths {
  import opened Graphs

  type Distances = map<Node, nat>

  /** `n` is reachable from `s` in `d` steps and in no fewer. */
  ghost predicate AtDistance(adj: Adjacency, s: Node, n: Node, d: nat) {
    n in Ball(adj, s, d) && (d > 0 ==> n !in Ball(adj, s, d - 1))
  }

  /** The nodes a search can ever meet. */
  ghost function Universe(adj: Adjacency, s: Node): set<Node> {
    {s} + set a, b | a in adj && b in adj[a] :: b
  }

  // ---------------------------------------------------------------- the search invariant

  ghost predicate Precedes(adj: Adjacency, dist: Distances, p: Node, n: Node) {
    p in dist && n in dist && dist[p] + 1 == dist[n] && n in Neighbours(adj, p)
  }

  /** Every node but the source was discovered from a node one step closer. */
  ghost predicate Grounded(adj: Adjacency, s: Node, dist: Distances) {
    && s in dist && dist[s] == 0
    && forall n | n in dist && n != s :: exists p :: Precedes(adj, dist, p, n)
  }

  ghost predicate Expanded(adj: Adjacency, dist: Distances, u: Node)
    requires u in dist
  {
    forall v | v in Neighbours(adj, u) :: v in dist && dist[v] <= dist[u] + 1
  }

  ghost predicate ExpandedBelow(adj: Adjacency, dist: Distances, level: nat) {
    forall u | u in dist && dist[u] < level :: Expanded(adj, dist, u)
  }

  /** The queue lists recorded nodes without repetition, nearest first. */
  ghost predicate Ordered(dist: Distances, queue: seq<Node>) {
    && (forall q | q in queue :: q in dist)
    && (forall i, j | 0 <= i < j < |queue| :: queue[i] != queue[j] && dist[queue[i]] <= dist[queue[j]])
  }

  /** Between two iterations: the queue holds, in order of distance, the nodes still to be expanded. */
  ghost predicate Frontier(adj: Adjacency, s: Node, dist: Distances, queue: seq<Node>, cap: nat) {
    && Grounded(adj, s, dist)
    && (forall n | n in dist :: dist[n] <= cap)
    && Ordered(dist, queue)
    && (forall u | u in dist && u !in queue && dist[u] < cap :: Expanded(adj, dist, u))
    && (queue != [] ==> forall n | n in dist :: dist[n] <= dist[queue[0]] + 1)
    && (queue != [] ==> forall n | n in dist && n !in queue :: dist[n] <= dist[queue[0]])
  }

  /** While `u` is being expanded and its neighbours in `todo` have not been looked at. */
  ghost predicate Expanding(adj: Adjacency, s: Node, dist: Distances, queue: seq<Node>, cap: nat, u: Node, todo: set<Node>) {
    && Grounded(adj, s, dist)
    && u in dist && u !in queue && dist[u] < cap
    && todo <= Neighbours(adj, u) <= dist.Keys + todo
    && (forall n | n in dist :: dist[n] <= dist[u] + 1)
    && Ordered(dist, queue)
    && (forall q | q in queue :: dist[u] <= dist[q])
    && (forall w | w in dist && w !in queue :: dist[w] <= dist[u])
    && (forall w | w in dist && w !in queue && w != u :: Expanded(adj, dist, w))
  }

  /** Below a level at which every node has been expanded, recorded distances are the true ones. */
  lemma {:induction false} DistancesExact(adj: Adjacency, s: Node, dist: Distances, level: nat, k: nat)
    requires Grounded(adj, s, dist) && ExpandedBelow(adj, dist, level) && k <= level
    ensures forall n :: n in Ball(adj, s, k) <==> n in dist && dist[n] <= k
    decreases k
  {
    hide Grounded, ExpandedBelow, Ball;
    if k == 0 {
      OthersAreFarther(adj, s, dist);
      BallOfSource(adj, s);
    } else {
      DistancesExact(adj, s, dist, level, k - 1);
      forall n: Node
        ensures n in Ball(adj, s, k) <==> n in dist && dist[n] <= k
      {
        OneLevel(adj, s, dist, level, k, n);
      }
    }
  }

  lemma BallOfSource(adj: Adjacency, s: Node)
    ensures Ball(adj, s, 0) == {s}
  {
  }

  lemma BallUnfolds(adj: Adjacency, s: Node, k: nat, n: Node)
    requires k > 0
    ensures n in Ball(adj, s, k) <==> n in Ball(adj, s, k - 1) || exists u | u in Ball(adj, s, k - 1) :: n in Neighbours(adj, u)
  {
  }

  /** One node, one level further out. */
  lemma OneLevel(adj: Adjacency, s: Node, dist: Distances, level: nat, k: nat, n: Node)
    requires Grounded(adj, s, dist) && ExpandedBelow(adj, dist, level) && 0 < k <= level
    requires forall m :: m in Ball(adj, s, k - 1) <==> m in dist && dist[m] <= k - 1
    ensures n in Ball(adj, s, k) <==> n in dist && dist[n] <= k
  {
    hide Grounded, ExpandedBelow, Ball, Neighbours;
    BallUnfolds(adj, s, k, n);
    if n in dist && dist[n] == k {
      var p := PredecessorOf(adj, s, dist, n);
      assert p in Ball(adj, s, k - 1);
    }
    if u :| u in Ball(adj, s, k - 1) && n in Neighbours(adj, u) {
      NeighbourIsClose(adj, dist, level, u, n);
    }
  }

  lemma PredecessorOf(adj: Adjacency, s: Node, dist: Distances, n: Node) returns (p: Node)
    requires Grounded(adj, s, dist) && n in dist && dist[n] > 0
    ensures p in dist && dist[p] + 1 == dist[n] && n in Neighbours(adj, p)
  {
    hide Neighbours;
    p :| Precedes(adj, dist, p, n);
  }

  lemma NeighbourIsClose(adj: Adjacency, dist: Distances, level: nat, u: Node, n: Node)
    requires ExpandedBelow(adj, dist, level) && u in dist && dist[u] < level && n in Neighbours(adj, u)
    ensures n in dist && dist[n] <= dist[u] + 1
  {
    hide Neighbours;
    assert Expanded(adj, dist, u);
  }

  lemma RecordedIsDistance(adj: Adjacency, s: Node, dist: Distances, n: Node)
    requires Grounded(adj, s, dist) && n in dist && ExpandedBelow(adj, dist, dist[n])
    ensures AtDistance(adj, s, n, dist[n])
  {
    hide Grounded, ExpandedBelow, Ball;
    DistancesExact(adj, s, dist, dist[n], dist[n]);
    if dist[n] > 0 {
      DistancesExact(adj, s, dist, dist[n], dist[n] - 1);
    }
  }

  lemma FrontierStart(adj: Adjacency, s: Node, cap: nat)
    ensures Frontier(adj, s, map[s := 0], [s], cap)
  {
  }

  lemma FrontierBasics(adj: Adjacency, s: Node, dist: Distances, queue: seq<Node>, cap: nat)
    requires Frontier(adj, s, dist, queue, cap)
    ensures Grounded(adj, s, dist) && dist.Keys <= Universe(adj, s)
    ensures forall n | n in dist :: dist[n] <= cap
    ensures queue != [] ==> queue[0] in dist
  {
    WithinUniverse(adj, s, dist);
  }

  lemma WithinUniverse(adj: Adjacency, s: Node, dist: Distances)
    requires Grounded(adj, s, dist)
    ensures dist.Keys <= Universe(adj, s)
  {
    forall n | n in dist && n != s
      ensures n in Universe(adj, s)
    {
      var p :| Precedes(adj, dist, p, n);
    }
  }

  /** The front of the queue is the first unexpanded level. */
  lemma FrontLevel(adj: Adjacency, s: Node, dist: Distances, queue: seq<Node>, cap: nat)
    requires Frontier(adj, s, dist, queue, cap)
    ensures queue != [] ==> ExpandedBelow(adj, dist, dist[queue[0]])
    ensures queue == [] ==> ExpandedBelow(adj, dist, cap)
  {
  }

  lemma DropFront(adj: Adjacency, s: Node, dist: Distances, queue: seq<Node>, cap: nat)
    requires Frontier(adj, s, dist, queue, cap) && queue != []
    ensures dist[queue[0]] >= cap ==> Frontier(adj, s, dist, queue[1..], cap)
    ensures dist[queue[0]] < cap ==> Expanding(adj, s, dist, queue[1..], cap, queue[0], Neighbours(adj, queue[0]))
  {
    var u, rest := queue[0], queue[1..];
    assert forall w | w in queue :: w == u || w in rest;
    assert forall i | 0 <= i < |rest| :: rest[i] == queue[i + 1];
  }

  lemma SkipKnown(adj: Adjacency, s: Node, dist: Distances, queue: seq<Node>, cap: nat, u: Node, todo: set<Node>, v: Node)
    requires Expanding(adj, s, dist, queue, cap, u, todo) && v in todo && v in dist
    ensures Expanding(adj, s, dist, queue, cap, u, todo - {v})
  {
  }

  lemma Discover(adj: Adjacency, s: Node, dist: Distances, queue: seq<Node>, cap: nat, u: Node, todo: set<Node>, v: Node)
    requires Expanding(adj, s, dist, queue, cap, u, todo) && v in todo && v !in dist
    ensures Expanding(adj, s, dist[v := dist[u] + 1], queue + [v], cap, u, todo - {v})
  {
    var dist', queue' := dist[v := dist[u] + 1], queue + [v];
    GroundedExtends(adj, s, dist, u, v);
    OrderedExtends(dist, queue, v, dist[u] + 1);
    QueueMembers(queue, v);
    forall w | w in dist' && w !in queue' && w != u
      ensures Expanded(adj, dist', w)
    {
      assert Expanded(adj, dist, w);
    }
  }

  lemma QueueMembers(queue: seq<Node>, v: Node)
    ensures forall w :: w in queue + [v] <==> w in queue || w == v
  {
  }

  lemma GroundedExtends(adj: Adjacency, s: Node, dist: Distances, u: Node, v: Node)
    requires Grounded(adj, s, dist) && u in dist && v in Neighbours(adj, u) && v !in dist
    ensures Grounded(adj, s, dist[v := dist[u] + 1])
  {
    var dist' := dist[v := dist[u] + 1];
    assert Precedes(adj, dist', u, v);
    forall n | n in dist && n != s
      ensures exists p :: Precedes(adj, dist', p, n)
    {
      var p :| Precedes(adj, dist, p, n);
      assert Precedes(adj, dist', p, n);
    }
  }

  lemma OrderedExtends(dist: Distances, queue: seq<Node>, v: Node, k: nat)
    requires Ordered(dist, queue) && v !in dist
    requires forall q | q in queue :: dist[q] <= k
    ensures Ordered(dist[v := k], queue + [v])
  {
    forall i | 0 <= i < |queue|
      ensures queue[i] != v && queue[i] in dist
    {
      assert queue[i] in queue;
    }
  }

  lemma FinishExpanding(adj: Adjacency, s: Node, dist: Distances, queue: seq<Node>, cap: nat, u: Node)
    requires Expanding(adj, s, dist, queue, cap, u, {})
    ensures Frontier(adj, s, dist, queue, cap)
  {
  }

  // ---------------------------------------------------------------- compute_paths

  /** The discovered nodes other than the source at recorded distance `d`. */
  ghost function Layer(dist: Distances, s: Node, d: nat): set<Node> {
    set n | n in dist && n != s && dist[n] == d
  }

  /** How many entries `d` the searches from `sources` are due: one per node at exactly that distance. */
  ghost function PairsAt(adj: Adjacency, sources: seq<Node>, cap: nat, d: nat): nat {
    if sources == [] || d == 0 || d > cap then 0
    else
      var rest := sources[..|sources| - 1];
      var s := sources[|sources| - 1];
      PairsAt(adj, rest, cap, d) + |Ball(adj, s, d) - Ball(adj, s, d - 1)|
  }

  ghost predicate IsLargest(max: nat, paths: seq<nat>) {
    (forall i | 0 <= i < |paths| :: paths[i] <= max) && (if paths == [] then max == 0 else max in paths)
  }

  method SearchFrom(adj: Adjacency, s: Node, cap: nat, allPaths: seq<nat>, maxPath: nat)
      returns (visited: Distances, paths: seq<nat>, max: nat)
    requires IsLargest(maxPath, allPaths)
    ensures visited.Keys == Ball(adj, s, cap)
    ensures forall n | n in visited :: AtDistance(adj, s, n, visited[n])
    ensures allPaths <= paths && IsLargest(max, paths)
    ensures forall d: nat :: multiset(paths)[d] == multiset(allPaths)[d] + PairsAt(adj, [s], cap, d)
  {
    hide Frontier, Expanding, Tallied, ExpandedBelow, AtDistance, Universe, IsLargest, Grounded, Ball, PairsAt, Layer, Neighbours;
    paths, max := allPaths, maxPath;
    visited := map[s := 0];
    var queue := [s];
    FrontierStart(adj, s, cap);
    TallyStart(s, allPaths, maxPath);
    while queue != []
      invariant Frontier(adj, s, visited, queue, cap)
      invariant Tallied(s, visited, allPaths, paths, max)
      decreases Universe(adj, s) - visited.Keys, |queue|
    {
      DropFront(adj, s, visited, queue, cap);
      FrontierBasics(adj, s, visited, queue, cap);
      var current := queue[0];
      queue := queue[1..];
      var dist := visited[current];
      if dist >= cap {
        continue;
      }
      visited, queue, paths, max := ExpandNode(adj, s, cap, current, allPaths, visited, queue, paths, max);
      FrontierBasics(adj, s, visited, queue, cap);
    }
    FrontierBasics(adj, s, visited, queue, cap);
    FrontLevel(adj, s, visited, queue, cap);
    SearchIsExact(adj, s, visited, cap);
    TallyEnd(s, visited, allPaths, paths, max);
    forall d: nat
      ensures multiset(paths)[d] == multiset(allPaths)[d] + PairsAt(adj, [s], cap, d)
    {
      LayerIsShell(adj, s, visited, cap, d);
    }
  }

  /** The `for neighbor in ...` loop of one node. */
  method ExpandNode(adj: Adjacency, s: Node, cap: nat, current: Node, ghost allPaths: seq<nat>,
                    visited0: Distances, queue0: seq<Node>, paths0: seq<nat>, max0: nat)
      returns (visited: Distances, queue: seq<Node>, paths: seq<nat>, max: nat)
    requires Expanding(adj, s, visited0, queue0, cap, current, Neighbours(adj, current)) && current in visited0
    requires Tallied(s, visited0, allPaths, paths0, max0)
    ensures Frontier(adj, s, visited, queue, cap)
    ensures Tallied(s, visited, allPaths, paths, max)
    ensures visited0.Keys <= visited.Keys && (visited0.Keys == visited.Keys ==> queue == queue0)
  {
    hide Expanding, Frontier, Tallied;
    visited, queue, paths, max := visited0, queue0, paths0, max0;
    var dist := visited[current];
    var todo := Neighbours(adj, current);
    while todo != {}
      invariant Expanding(adj, s, visited, queue, cap, current, todo)
      invariant current in visited && visited[current] == dist
      invariant visited0.Keys <= visited.Keys && (visited0.Keys == visited.Keys ==> queue == queue0)
      invariant Tallied(s, visited, allPaths, paths, max)
    {
      var neighbour :| neighbour in todo;
      if neighbour !in visited {
        Discover(adj, s, visited, queue, cap, current, todo, neighbour);
        TallyOne(s, visited, allPaths, paths, max, neighbour, dist + 1);
        assert neighbour !in visited0.Keys;
        visited := visited[neighbour := dist + 1];
        assert neighbour in visited.Keys;
        queue := queue + [neighbour];
        paths := paths + [dist + 1];
        max := if max >= dist + 1 then max else dist + 1;
      } else {
        SkipKnown(adj, s, visited, queue, cap, current, todo, neighbour);
      }
      todo := todo - {neighbour};
    }
    FinishExpanding(adj, s, visited, queue, cap, current);
  }

  /** The entries appended since the search began count the discovered nodes, layer by layer. */
  ghost predicate Tallied(s: Node, dist: Distances, allPaths: seq<nat>, paths: seq<nat>, max: nat) {
    && s in dist
    && allPaths <= paths && IsLargest(max, paths)
    && forall d: nat :: multiset(paths)[d] == multiset(allPaths)[d] + |Layer(dist, s, d)|
  }

  lemma TallyStart(s: Node, allPaths: seq<nat>, max: nat)
    requires IsLargest(max, allPaths)
    ensures Tallied(s, map[s := 0], allPaths, allPaths, max)
  {
    assert forall d: nat :: Layer(map[s := 0], s, d) == {};
  }

  lemma TallyEnd(s: Node, dist: Distances, allPaths: seq<nat>, paths: seq<nat>, max: nat)
    requires Tallied(s, dist, allPaths, paths, max)
    ensures allPaths <= paths && IsLargest(max, paths)
    ensures forall d: nat :: multiset(paths)[d] == multiset(allPaths)[d] + |Layer(dist, s, d)|
  {
  }

  lemma TallyOne(s: Node, dist: Distances, allPaths: seq<nat>, paths: seq<nat>, max: nat, v: Node, k: nat)
    requires Tallied(s, dist, allPaths, paths, max) && v !in dist
    ensures Tallied(s, dist[v := k], allPaths, paths + [k], if max >= k then max else k)
  {
    LayersGrow(dist, s, v, k);
    assert (paths + [k])[|paths|] == k;
    if paths != [] {
      var i :| 0 <= i < |paths| && paths[i] == max;
      assert (paths + [k])[i] == max;
    }
  }

  lemma LayersGrow(dist: Distances, s: Node, v: Node, k: nat)
    requires s in dist && v !in dist
    ensures forall d: nat :: |Layer(dist[v := k], s, d)| == |Layer(dist, s, d)| + if d == k then 1 else 0
  {
    forall d: nat
      ensures |Layer(dist[v := k], s, d)| == |Layer(dist, s, d)| + if d == k then 1 else 0
    {
      assert Layer(dist[v := k], s, d) == Layer(dist, s, d) + if d == k then {v} else {};
    }
  }

  lemma SearchIsExact(adj: Adjacency, s: Node, dist: Distances, cap: nat)
    requires Grounded(adj, s, dist) && ExpandedBelow(adj, dist, cap)
    requires forall n | n in dist :: dist[n] <= cap
    ensures dist.Keys == Ball(adj, s, cap)
    ensures forall n | n in dist :: AtDistance(adj, s, n, dist[n])
  {
    DistancesExact(adj, s, dist, cap, cap);
    forall n | n in dist
      ensures AtDistance(adj, s, n, dist[n])
    {
      RecordedIsDistance(adj, s, dist, n);
    }
  }

  lemma LayerIsShell(adj: Adjacency, s: Node, dist: Distances, cap: nat, d: nat)
    requires Grounded(adj, s, dist) && ExpandedBelow(adj, dist, cap)
    requires forall n | n in dist :: dist[n] <= cap
    ensures |Layer(dist, s, d)| == PairsAt(adj, [s], cap, d)
  {
    hide ExpandedBelow, Grounded, Ball;
    assert [s][..0] == [];
    OthersAreFarther(adj, s, dist);
    if d == 0 || d > cap {
      assert Layer(dist, s, d) == {};
    } else {
      DistancesExact(adj, s, dist, cap, d);
      DistancesExact(adj, s, dist, cap, d - 1);
      forall n
        ensures n in Layer(dist, s, d) <==> n in Ball(adj, s, d) - Ball(adj, s, d - 1)
      {
        assert n in Ball(adj, s, d) <==> n in dist && dist[n] <= d;
        assert n in Ball(adj, s, d - 1) <==> n in dist && dist[n] <= d - 1;
      }
      assert Layer(dist, s, d) == Ball(adj, s, d) - Ball(adj, s, d - 1);
    }
  }

  lemma OthersAreFarther(adj: Adjacency, s: Node, dist: Distances)
    requires Grounded(adj, s, dist)
    ensures s in dist && dist[s] == 0
    ensures forall n | n in dist && n != s :: dist[n] > 0
  {
    forall n | n in dist && n != s
      ensures dist[n] > 0
    {
      var p :| Precedes(adj, dist, p, n);
    }
  }

  /** `compute_paths` for the sources its sampling picked. */
  method ComputePaths(adj: Adjacency, sources: seq<Node>, cap: nat) returns (allPaths: seq<nat>, maxPath: nat)
    ensures forall d: nat :: multiset(allPaths)[d] == PairsAt(adj, sources, cap, d)
    ensures IsLargest(maxPath, allPaths)
  {
    hide PairsAt, AtDistance, Ball;
    allPaths, maxPath := [], 0;
    PairsAtNone(adj, cap);
    for i := 0 to |sources|
      invariant forall d: nat :: multiset(allPaths)[d] == PairsAt(adj, sources[..i], cap, d)
      invariant IsLargest(maxPath, allPaths)
    {
      var visited;
      visited, allPaths, maxPath := SearchFrom(adj, sources[i], cap, allPaths, maxPath);
      PairsAtOneMore(adj, sources, cap, i);
    }
    assert sources[..|sources|] == sources;
  }

  lemma PairsAtNone(adj: Adjacency, cap: nat)
    ensures forall d: nat :: PairsAt(adj, [], cap, d) == 0
  {
  }

  lemma PairsAtOneMore(adj: Adjacency, sources: seq<Node>, cap: nat, i: nat)
    requires i < |sources|
    ensures forall d: nat :: PairsAt(adj, sources[..i + 1], cap, d) ==
                             PairsAt(adj, sources[..i], cap, d) + PairsAt(adj, [sources[i]], cap, d)
  {
    assert sources[..i + 1][..i] == sources[..i];
    assert [sources[i]][..0] == [];
  }
}
