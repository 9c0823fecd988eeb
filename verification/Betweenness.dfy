/** Betweenness counts: for each sampled pair, a search that stops at the target and a walk back
    along the recorded parents that credits every interior node of the path it traces. */
module Betweenness {
  import opened Wrappers
  import opened Graphs
  import opened ShortestPaths

  datatype Visit = Visit(dist: nat, parent: Option<Node>)
  type Visits = map<Node, Visit>
  datatype SampleError = SampleLargerThanPopulation

  ghost function Dists(visited: Visits): Distances {
    map n | n in visited :: visited[n].dist
  }

  /** Parents are recorded nodes one step closer; only the source has none. */
  ghost predicate Linked(adj: Adjacency, s: Node, visited: Visits) {
    && s in visited && visited[s] == Visit(0, None)
    && forall n | n in visited && n != s ::
         && visited[n].parent.Some?
         && Precedes(adj, Dists(visited), visited[n].parent.value, n)
  }

  ghost predicate ShortestPath(adj: Adjacency, s: Node, t: Node, p: seq<Node>) {
    && WalkBetween(adj, s, t, p)
    && AtDistance(adj, s, t, |p| - 1)
    && forall i, j | 0 <= i < j < |p| :: p[i] != p[j]
  }

  /** The nodes a path passes strictly between its ends. */
  ghost function Interior(p: seq<Node>): seq<Node> {
    if |p| < 2 then [] else p[1..|p| - 1]
  }

  function Count(counts: map<Node, nat>, n: Node): nat {
    if n in counts then counts[n] else 0
  }

  // ---------------------------------------------------------------- the search for one pair

  lemma DistsDiscover(visited: Visits, v: Node, visit: Visit)
    ensures Dists(visited[v := visit]) == Dists(visited)[v := visit.dist]
  {
  }

  lemma LinkedExtends(adj: Adjacency, s: Node, visited: Visits, u: Node, v: Node)
    requires Linked(adj, s, visited) && u in visited && v !in visited && v in Neighbours(adj, u)
    ensures Linked(adj, s, visited[v := Visit(visited[u].dist + 1, Some(u))])
  {
    var visited' := visited[v := Visit(visited[u].dist + 1, Some(u))];
    DistsDiscover(visited, v, Visit(visited[u].dist + 1, Some(u)));
    forall n | n in visited && n != s
      ensures visited'[n].parent.Some? && Precedes(adj, Dists(visited'), visited'[n].parent.value, n)
    {
      assert Precedes(adj, Dists(visited), visited[n].parent.value, n);
    }
  }

  /** The neighbours of one node, with the node itself recorded as parent of the new ones. */
  method ExpandNode(adj: Adjacency, s: Node, cap: nat, current: Node, visited0: Visits, queue0: seq<Node>)
      returns (visited: Visits, queue: seq<Node>)
    requires current in visited0 && Linked(adj, s, visited0)
    requires Expanding(adj, s, Dists(visited0), queue0, cap, current, Neighbours(adj, current))
    ensures Linked(adj, s, visited) && Frontier(adj, s, Dists(visited), queue, cap)
    ensures visited0.Keys <= visited.Keys && queue0 <= queue
    ensures forall n | n in visited && n !in visited0 :: n in queue
    ensures visited0.Keys == visited.Keys ==> queue == queue0
  {
    hide Expanding, Frontier, Linked;
    visited, queue := visited0, queue0;
    var dist := visited[current].dist;
    var todo := Neighbours(adj, current);
    while todo != {}
      invariant todo <= Neighbours(adj, current)
      invariant Linked(adj, s, visited) && Expanding(adj, s, Dists(visited), queue, cap, current, todo)
      invariant current in visited && visited[current].dist == dist
      invariant visited0.Keys <= visited.Keys && queue0 <= queue
      invariant forall n | n in visited && n !in visited0 :: n in queue
      invariant visited0.Keys == visited.Keys ==> queue == queue0
    {
      var neighbour :| neighbour in todo;
      if neighbour !in visited {
        var visit := Visit(dist + 1, Some(current));
        Discover(adj, s, Dists(visited), queue, cap, current, todo, neighbour);
        DistsDiscover(visited, neighbour, visit);
        LinkedExtends(adj, s, visited, current, neighbour);
        QueueMembers(queue, neighbour);
        assert neighbour !in visited0.Keys;
        visited := visited[neighbour := visit];
        assert neighbour in visited.Keys;
        queue := queue + [neighbour];
      } else {
        SkipKnown(adj, s, Dists(visited), queue, cap, current, todo, neighbour);
      }
      todo := todo - {neighbour};
    }
    FinishExpanding(adj, s, Dists(visited), queue, cap, current);
  }

  /** The target is found exactly when it lies within the cap, and then at its true distance. */
  method FindTarget(adj: Adjacency, src: Node, dst: Node, cap: nat) returns (visited: Visits, found: bool)
    ensures Linked(adj, src, visited)
    ensures found <==> dst in Ball(adj, src, cap)
    ensures found ==> dst in visited && AtDistance(adj, src, dst, visited[dst].dist)
  {
    hide Frontier, Expanding, ExpandedBelow, Ball, Universe, Linked, AtDistance, Dists, Grounded;
    visited := map[src := Visit(0, None)];
    var queue := [src];
    found := false;
    SearchStart(adj, src, cap);
    while queue != [] && !found
      invariant !found
      invariant Linked(adj, src, visited)
      invariant Frontier(adj, src, Dists(visited), queue, cap)
      invariant dst in visited ==> dst in queue
      decreases Universe(adj, src) - visited.Keys, |queue|
    {
      DropFront(adj, src, Dists(visited), queue, cap);
      SearchBasics(adj, src, visited, queue, cap);
      FrontOrRest(queue, dst);
      var current := queue[0];
      queue := queue[1..];
      if current == dst {
        found := true;
        FoundIsExact(adj, src, dst, visited, [dst] + queue, cap);
        break;
      }
      var dist := visited[current].dist;
      if dist >= cap {
        continue;
      }
      visited, queue := ExpandNode(adj, src, cap, current, visited, queue);
      SearchBasics(adj, src, visited, queue, cap);
    }
    if !found {
      SearchBasics(adj, src, visited, queue, cap);
      FrontLevel(adj, src, Dists(visited), queue, cap);
      SearchIsExact(adj, src, Dists(visited), cap);
    }
  }

  lemma SearchStart(adj: Adjacency, s: Node, cap: nat)
    ensures var visited: Visits := map[s := Visit(0, None)];
            Linked(adj, s, visited) && Frontier(adj, s, Dists(visited), [s], cap)
  {
    assert Dists(map[s := Visit(0, None)]) == map[s := 0];
    FrontierStart(adj, s, cap);
  }

  lemma SearchBasics(adj: Adjacency, s: Node, visited: Visits, queue: seq<Node>, cap: nat)
    requires Frontier(adj, s, Dists(visited), queue, cap)
    ensures Dists(visited).Keys == visited.Keys <= Universe(adj, s)
    ensures forall n | n in visited :: Dists(visited)[n] == visited[n].dist <= cap
    ensures Grounded(adj, s, Dists(visited))
    ensures queue != [] ==> queue[0] in visited
  {
    FrontierBasics(adj, s, Dists(visited), queue, cap);
  }

  lemma FrontOrRest(queue: seq<Node>, n: Node)
    requires queue != []
    ensures n in queue ==> n == queue[0] || n in queue[1..]
    ensures queue == [queue[0]] + queue[1..]
  {
  }

  lemma FoundIsExact(adj: Adjacency, src: Node, dst: Node, visited: Visits, queue: seq<Node>, cap: nat)
    requires Frontier(adj, src, Dists(visited), queue, cap) && queue != [] && queue[0] == dst
    ensures dst in visited && AtDistance(adj, src, dst, visited[dst].dist) && dst in Ball(adj, src, cap)
  {
    SearchBasics(adj, src, visited, queue, cap);
    FrontLevel(adj, src, Dists(visited), queue, cap);
    RecordedIsDistance(adj, src, Dists(visited), dst);
    BallGrows(adj, src, visited[dst].dist, cap);
  }

  // ---------------------------------------------------------------- the walk back

  /** What the parent walk has traced so far: a path from a neighbour of `node` on to the target. */
  ghost predicate Traced(adj: Adjacency, visited: Visits, dst: Node, node: Option<Node>, path: seq<Node>) {
    && (node.Some? ==> node.value in visited)
    && (forall n | n in path :: n in visited)
    && (forall i | 0 <= i < |path| :: visited[path[i]].dist == visited[path[0]].dist + i)
    && (path != [] ==> Walk(adj, path) && path[|path| - 1] == dst)
    && (node.Some? ==>
          if path == [] then node.value == dst
          else path[0] in Neighbours(adj, node.value) && visited[path[0]].dist == visited[node.value].dist + 1)
    && (node.None? ==> path != [] && visited[path[0]].dist == 0)
  }

  lemma ParentOf(adj: Adjacency, s: Node, visited: Visits, n: Node)
    requires Linked(adj, s, visited) && n in visited
    ensures n == s ==> visited[n] == Visit(0, None)
    ensures n != s ==>
              && visited[n].parent.Some? && visited[n].parent.value in visited
              && visited[visited[n].parent.value].dist + 1 == visited[n].dist && n in Neighbours(adj, visited[n].parent.value)
  {
    hide Neighbours;
    if n != s {
      assert Precedes(adj, Dists(visited), visited[n].parent.value, n);
    }
  }

  lemma WalkFrom(adj: Adjacency, n: Node, path: seq<Node>)
    requires Walk(adj, path) && path[0] in Neighbours(adj, n)
    ensures Walk(adj, [n] + path)
  {
    hide Neighbours;
    var longer := [n] + path;
    forall i | 0 <= i < |longer| - 1
      ensures longer[i + 1] in Neighbours(adj, longer[i])
    {
      if i > 0 {
        assert path[i] in Neighbours(adj, path[i - 1]);
      }
    }
  }

  lemma DistancesFrom(visited: Visits, n: Node, path: seq<Node>)
    requires n in visited && forall m | m in path :: m in visited
    requires forall i | 0 <= i < |path| :: visited[path[i]].dist == visited[n].dist + 1 + i
    ensures forall m | m in [n] + path :: m in visited
    ensures forall i | 0 <= i < |[n] + path| :: visited[([n] + path)[i]].dist == visited[n].dist + i
  {
    var longer := [n] + path;
    forall m | m in longer
      ensures m in visited
    {
    }
    forall i | 0 <= i < |longer|
      ensures visited[longer[i]].dist == visited[n].dist + i
    {
      if i > 0 {
        assert longer[i] == path[i - 1];
      }
    }
  }

  lemma TracedStep(adj: Adjacency, s: Node, visited: Visits, dst: Node, n: Node, path: seq<Node>)
    requires Linked(adj, s, visited) && Traced(adj, visited, dst, Some(n), path)
    ensures Traced(adj, visited, dst, visited[n].parent, [n] + path)
  {
    ParentOf(adj, s, visited, n);
    hide Linked, Neighbours, Walk;
    DistancesFrom(visited, n, path);
    if path != [] {
      WalkFrom(adj, n, path);
    } else {
      LoneWalk(adj, n);
      assert [n] + path == [n];
    }
  }

  lemma LoneWalk(adj: Adjacency, n: Node)
    ensures Walk(adj, [n])
  {
  }

  lemma TracedEnd(adj: Adjacency, s: Node, visited: Visits, dst: Node, path: seq<Node>)
    requires Linked(adj, s, visited) && Traced(adj, visited, dst, None, path)
    requires dst in visited && AtDistance(adj, s, dst, visited[dst].dist)
    ensures ShortestPath(adj, s, dst, path) && |path| == visited[dst].dist + 1
  {
    forall n | n in visited && n != s
      ensures visited[n].dist > 0
    {
      assert Precedes(adj, Dists(visited), visited[n].parent.value, n);
    }
    forall i, j | 0 <= i < j < |path|
      ensures path[i] != path[j]
    {
      assert visited[path[i]].dist < visited[path[j]].dist;
    }
  }

  /** Of the nodes traced so far, those that have been credited. */
  ghost function Credited(src: Node, dst: Node, path: seq<Node>): set<Node> {
    set n | n in path && n != src && n != dst
  }

  lemma CreditedIsInterior(adj: Adjacency, src: Node, dst: Node, path: seq<Node>)
    requires ShortestPath(adj, src, dst, path)
    ensures forall n :: n in Credited(src, dst, path) <==> n in Interior(path)
  {
    forall n | n in Credited(src, dst, path)
      ensures n in Interior(path)
    {
      var i :| 0 <= i < |path| && path[i] == n;
      assert Interior(path)[i - 1] == n;
    }
    forall n | n in Interior(path)
      ensures n in Credited(src, dst, path)
    {
      var i :| 0 <= i < |path| - 2 && path[i + 1] == n;
      assert path[i + 1] != path[0] && path[i + 1] != path[|path| - 1];
    }
  }

  /** The parent walk terminates and credits, once each, the interior of a shortest path. */
  method CreditPath(adj: Adjacency, src: Node, dst: Node, visited: Visits, betweenness: map<Node, nat>)
      returns (credited: map<Node, nat>, ghost path: seq<Node>)
    requires Linked(adj, src, visited)
    requires dst in visited && AtDistance(adj, src, dst, visited[dst].dist)
    ensures ShortestPath(adj, src, dst, path) && |path| == visited[dst].dist + 1
    ensures forall n :: Count(credited, n) == Count(betweenness, n) + if n in Interior(path) then 1 else 0
    ensures Count(credited, src) == Count(betweenness, src) && Count(credited, dst) == Count(betweenness, dst)
  {
    hide AtDistance, ShortestPath, Linked, Traced;
    credited := betweenness;
    path := [];
    var node := Some(dst);
    TracedStart(adj, src, visited, dst);
    while node.Some?
      invariant Traced(adj, visited, dst, node, path)
      invariant forall n :: Count(credited, n) == Count(betweenness, n) + if n in Credited(src, dst, path) then 1 else 0
      decreases if node.Some? then Dist(visited, node.value) + 1 else 0
    {
      LinkedNode(adj, src, visited, dst, node.value, path);
      TracedStep(adj, src, visited, dst, node.value, path);
      var parent := visited[node.value].parent;
      assert forall n :: n in Credited(src, dst, [node.value] + path) <==>
                         n in Credited(src, dst, path) || (n == node.value && n != src && n != dst);
      if parent.Some? && node.value != src && node.value != dst {
        credited := credited[node.value := Count(credited, node.value) + 1];
      }
      path := [node.value] + path;
      node := parent;
    }
    TracedEnd(adj, src, visited, dst, path);
    CreditedIsInterior(adj, src, dst, path);
  }

  ghost function Dist(visited: Visits, n: Node): nat {
    if n in visited then visited[n].dist else 0
  }

  lemma TracedStart(adj: Adjacency, s: Node, visited: Visits, dst: Node)
    requires dst in visited
    ensures Traced(adj, visited, dst, Some(dst), [])
  {
  }

  /** The facts about the current node that the walk relies on. */
  lemma LinkedNode(adj: Adjacency, s: Node, visited: Visits, dst: Node, n: Node, path: seq<Node>)
    requires Linked(adj, s, visited) && Traced(adj, visited, dst, Some(n), path)
    ensures n in visited && n !in path
    ensures visited[n].parent.None? <==> n == s
    ensures visited[n].parent.Some? ==> Dist(visited, visited[n].parent.value) < visited[n].dist
  {
    if n != s {
      assert Precedes(adj, Dists(visited), visited[n].parent.value, n);
    }
  }

  // ---------------------------------------------------------------- all sampled pairs

  /** How many of the traced paths pass through `n`. */
  ghost function Passing(paths: seq<seq<Node>>, n: Node): nat {
    if paths == [] then 0
    else Passing(paths[..|paths| - 1], n) + if n in Interior(paths[|paths| - 1]) then 1 else 0
  }

  /** The betweenness half of `compute_centrality`. Drawing two distinct nodes fails when exactly one
      is eligible; otherwise each count is the number of traced shortest paths through the node, one
      path for every drawn pair whose target lies within the cap. */
  method ComputeBetweenness(adj: Adjacency, eligible: seq<Node>, samplePairs: nat, cap: nat)
      returns (r: Result<map<Node, nat>, SampleError>, ghost pairs: seq<(Node, Node)>, ghost paths: seq<seq<Node>>)
    requires forall i, j | 0 <= i < j < |eligible| :: eligible[i] != eligible[j]
    ensures r.Err? <==> samplePairs > 0 && |eligible| == 1
    ensures r.Ok? ==> |paths| == |pairs| == if samplePairs < |eligible| then samplePairs else |eligible|
    ensures r.Ok? ==> forall k | 0 <= k < |pairs| ::
              && pairs[k].0 != pairs[k].1 && pairs[k].0 in eligible && pairs[k].1 in eligible
              && if pairs[k].1 in Ball(adj, pairs[k].0, cap) then ShortestPath(adj, pairs[k].0, pairs[k].1, paths[k])
                 else paths[k] == []
    ensures r.Ok? ==> forall n :: Count(r.value, n) == Passing(paths, n)
  {
    hide ShortestPath, AtDistance, Ball, Linked;
    pairs, paths := [], [];
    var draws := if samplePairs < |eligible| then samplePairs else |eligible|;
    if draws > 0 && |eligible| < 2 {
      return Err(SampleLargerThanPopulation), [], [];
    }
    var betweenness: map<Node, nat> := map[];
    for k := 0 to draws
      invariant |paths| == |pairs| == k
      invariant forall j | 0 <= j < k ::
              && pairs[j].0 != pairs[j].1 && pairs[j].0 in eligible && pairs[j].1 in eligible
              && if pairs[j].1 in Ball(adj, pairs[j].0, cap) then ShortestPath(adj, pairs[j].0, pairs[j].1, paths[j])
                 else paths[j] == []
      invariant forall n :: Count(betweenness, n) == Passing(paths, n)
    {
      var src, dst := DrawTwo(eligible);
      var visited, found := FindTarget(adj, src, dst, cap);
      ghost var path := [];
      if found {
        betweenness, path := CreditPath(adj, src, dst, visited, betweenness);
      }
      assert (paths + [path])[..|paths|] == paths;
      pairs, paths := pairs + [(src, dst)], paths + [path];
    }
    r := Ok(betweenness);
  }

  /** `random.sample(eligible, 2)`: any two distinct positions. */
  method DrawTwo(eligible: seq<Node>) returns (a: Node, b: Node)
    requires |eligible| >= 2
    requires forall i, j | 0 <= i < j < |eligible| :: eligible[i] != eligible[j]
    ensures a != b && a in eligible && b in eligible
  {
    var i: nat :| i < |eligible|;
    var other: nat := if i == 0 then 1 else 0;
    assert other < |eligible| && other != i;
    var j: nat :| j < |eligible| && j != i;
    a, b := eligible[i], eligible[j];
  }

  /** A path at distance `d` has exactly `d - 1` interior nodes, all different and none an end. */
  lemma InteriorOfShortest(adj: Adjacency, s: Node, t: Node, p: seq<Node>)
    requires ShortestPath(adj, s, t, p) && s != t
    ensures |Interior(p)| == |p| - 2
    ensures forall i, j | 0 <= i < j < |Interior(p)| :: Interior(p)[i] != Interior(p)[j]
    ensures s !in Interior(p) && t !in Interior(p)
  {
    forall i | 0 <= i < |Interior(p)|
      ensures Interior(p)[i] == p[i + 1] && p[i + 1] != p[0] && p[i + 1] != p[|p| - 1]
    {
    }
  }
}
