/** The adjacency map the metrics run over, how the loader builds it from edge rows, and the
    two notions of distance used to specify the searches: walks, and balls around a node. */
module Graphs {
  import opened Collections
  import opened Sums

  datatype Node = Node(id: int)
  datatype Edge = Edge(start: Node, end: Node)
  type Adjacency = map<Node, set<Node>>

  datatype GraphData = GraphData(degrees: map<Node, nat>, adjacency: Adjacency, totalEdges: nat)

  /** `adjacency.get(n, set())` */
  function Neighbours(adj: Adjacency, n: Node): set<Node> {
    if n in adj then adj[n] else {}
  }

  function Degree(degrees: map<Node, nat>, n: Node): nat {
    if n in degrees then degrees[n] else 0
  }

  ghost predicate Symmetric(adj: Adjacency) {
    forall a, b :: b in Neighbours(adj, a) ==> a in Neighbours(adj, b)
  }

  ghost predicate Within(adj: Adjacency, nodes: set<Node>) {
    adj.Keys <= nodes && forall a | a in adj :: adj[a] <= nodes
  }

  // ---------------------------------------------------------------- walks and balls

  ghost predicate Walk(adj: Adjacency, p: seq<Node>) {
    p != [] && forall i | 0 <= i < |p| - 1 :: p[i + 1] in Neighbours(adj, p[i])
  }

  ghost predicate WalkBetween(adj: Adjacency, s: Node, t: Node, p: seq<Node>) {
    Walk(adj, p) && p[0] == s && p[|p| - 1] == t
  }

  /** The nodes at most `k` steps from `s`. */
  ghost function Ball(adj: Adjacency, s: Node, k: nat): set<Node> {
    if k == 0 then {s}
    else
      var inner := Ball(adj, s, k - 1);
      inner + set u, v | u in inner && v in Neighbours(adj, u) :: v
  }

  lemma {:induction false} BallGrows(adj: Adjacency, s: Node, j: nat, k: nat)
    requires j <= k
    ensures Ball(adj, s, j) <= Ball(adj, s, k)
    decreases k - j
  {
    if j < k {
      BallGrows(adj, s, j, k - 1);
    }
  }

  /** A ball of radius `k` is exactly what walks of at most `k` steps reach. */
  lemma {:induction false} WalkStaysInBall(adj: Adjacency, s: Node, p: seq<Node>)
    requires Walk(adj, p) && p[0] == s
    ensures p[|p| - 1] in Ball(adj, s, |p| - 1)
    decreases |p|
  {
    if |p| > 1 {
      var q := p[..|p| - 1];
      WalkStaysInBall(adj, s, q);
      assert p[|p| - 1] in Neighbours(adj, q[|q| - 1]);
    }
  }

  lemma {:induction false} BallHasWalk(adj: Adjacency, s: Node, t: Node, k: nat) returns (p: seq<Node>)
    requires t in Ball(adj, s, k)
    ensures WalkBetween(adj, s, t, p) && |p| <= k + 1
    decreases k
  {
    if k == 0 {
      p := [s];
    } else if t in Ball(adj, s, k - 1) {
      p := BallHasWalk(adj, s, t, k - 1);
    } else {
      var u :| u in Ball(adj, s, k - 1) && t in Neighbours(adj, u);
      var q := BallHasWalk(adj, s, u, k - 1);
      p := q + [t];
    }
  }

  lemma BallIsWalks(adj: Adjacency, s: Node, t: Node, k: nat)
    ensures t in Ball(adj, s, k) <==> exists p :: WalkBetween(adj, s, t, p) && |p| <= k + 1
  {
    if t in Ball(adj, s, k) {
      var p := BallHasWalk(adj, s, t, k);
    }
    if p :| WalkBetween(adj, s, t, p) && |p| <= k + 1 {
      WalkStaysInBall(adj, s, p);
      BallGrows(adj, s, |p| - 1, k);
    }
  }

  // ---------------------------------------------------------------- the loader

  function Starts(rows: seq<Edge>): seq<Node> {
    seq(|rows|, i requires 0 <= i < |rows| => rows[i].start)
  }

  function Ends(rows: seq<Edge>): seq<Node> {
    seq(|rows|, i requires 0 <= i < |rows| => rows[i].end)
  }

  function Rows<T>(tables: seq<seq<T>>): seq<T> {
    if tables == [] then [] else Rows(tables[..|tables| - 1]) + tables[|tables| - 1]
  }

  /** How many row ends touch `n`; a row from `n` to itself counts twice. */
  function Incidence(rows: seq<Edge>, n: Node): nat {
    Occurrences(Starts(rows), n) + Occurrences(Ends(rows), n)
  }

  function Endpoints(rows: seq<Edge>): set<Node> {
    (set e | e in rows :: e.start) + (set e | e in rows :: e.end)
  }

  function AdjacentIn(rows: seq<Edge>, n: Node): set<Node> {
    (set e | e in rows && e.start == n :: e.end) + (set e | e in rows && e.end == n :: e.start)
  }

  function Occurrences(ids: seq<Node>, n: Node): nat {
    multiset(ids)[n]
  }

  /** SELECT id, COUNT( * ) ... GROUP BY id */
  function GroupedCounts(ids: seq<Node>): map<Node, nat> {
    map n | n in Elements(ids) :: Occurrences(ids, n)
  }

  lemma GroupedCountsCount(ids: seq<Node>, n: Node)
    ensures Degree(GroupedCounts(ids), n) == Occurrences(ids, n)
  {
  }

  /** Adds the rows of a GROUP BY count query to the degree map. */
  method AddCounts(degrees: map<Node, nat>, counts: map<Node, nat>) returns (r: map<Node, nat>)
    ensures r.Keys == degrees.Keys + counts.Keys
    ensures forall n :: Degree(r, n) == Degree(degrees, n) + Degree(counts, n)
  {
    r := degrees;
    var todo := counts.Keys;
    while todo != {}
      invariant todo <= counts.Keys
      invariant r.Keys == degrees.Keys + (counts.Keys - todo)
      invariant forall n | n in r :: r[n] == Degree(degrees, n) + if n in todo then 0 else Degree(counts, n)
    {
      var n :| n in todo;
      r := r[n := Degree(r, n) + counts[n]];
      todo := todo - {n};
    }
  }

  /** `load_graph_data` from the rows the SQL queries return: ids of the vertex tables, and the
      (start, end) rows of the edge tables. */
  method LoadGraph(vertexTables: seq<seq<Node>>, edgeTables: seq<seq<Edge>>) returns (data: GraphData)
    ensures data.degrees.Keys == Elements(Rows(vertexTables)) + Endpoints(Rows(edgeTables))
    ensures Loaded(data, Rows(edgeTables))
  {
    var totalEdges := 0;
    for t := 0 to |edgeTables|
      invariant totalEdges == |Rows(edgeTables[..t])|
    {
      RowsOneMore(edgeTables, t);
      totalEdges := totalEdges + |edgeTables[t]|;
    }
    assert edgeTables[..|edgeTables|] == edgeTables;
    var degrees := LoadDegrees(vertexTables, edgeTables);
    var adj := LoadAdjacency(edgeTables);
    data := GraphData(degrees, adj, totalEdges);
  }

  method LoadDegrees(vertexTables: seq<seq<Node>>, edgeTables: seq<seq<Edge>>) returns (degrees: map<Node, nat>)
    ensures degrees.Keys == Elements(Rows(vertexTables)) + Endpoints(Rows(edgeTables))
    ensures forall n :: Degree(degrees, n) == Incidence(Rows(edgeTables), n)
  {
    degrees := map[];
    for t := 0 to |vertexTables|
      invariant degrees.Keys == Elements(Rows(vertexTables[..t]))
      invariant forall n | n in degrees :: degrees[n] == 0
    {
      RowsOneMore(vertexTables, t);
      degrees := degrees + map n: Node | n in Elements(vertexTables[t]) :: 0 as nat;
    }
    assert vertexTables[..|vertexTables|] == vertexTables;
    assert forall n :: Incidence(Rows(edgeTables[..0]), n) == 0;
    for t := 0 to |edgeTables|
      invariant degrees.Keys == Elements(Rows(vertexTables)) + Endpoints(Rows(edgeTables[..t]))
      invariant forall n :: Degree(degrees, n) == Incidence(Rows(edgeTables[..t]), n)
    {
      RowsOneMore(edgeTables, t);
      IncidenceAppends(Rows(edgeTables[..t]), edgeTables[t]);
      EndpointsAppend(Rows(edgeTables[..t]), edgeTables[t]);
      degrees := AddCounts(degrees, GroupedCounts(Starts(edgeTables[t])));
      degrees := AddCounts(degrees, GroupedCounts(Ends(edgeTables[t])));
      forall n
        ensures Degree(degrees, n) == Incidence(Rows(edgeTables[..t + 1]), n)
      {
        GroupedCountsCount(Starts(edgeTables[t]), n);
        GroupedCountsCount(Ends(edgeTables[t]), n);
      }
    }
    assert edgeTables[..|edgeTables|] == edgeTables;
  }

  method LoadAdjacency(edgeTables: seq<seq<Edge>>) returns (adj: Adjacency)
    ensures adj.Keys == Endpoints(Rows(edgeTables))
    ensures forall n :: Neighbours(adj, n) == AdjacentIn(Rows(edgeTables), n)
  {
    adj := map[];
    for t := 0 to |edgeTables|
      invariant adj.Keys == Endpoints(Rows(edgeTables[..t]))
      invariant forall n :: Neighbours(adj, n) == AdjacentIn(Rows(edgeTables[..t]), n)
    {
      RowsOneMore(edgeTables, t);
      ghost var before := Rows(edgeTables[..t]);
      assert before + edgeTables[t][..0] == before;
      for i := 0 to |edgeTables[t]|
        invariant adj.Keys == Endpoints(before + edgeTables[t][..i])
        invariant forall n :: Neighbours(adj, n) == AdjacentIn(before + edgeTables[t][..i], n)
      {
        assert before + edgeTables[t][..i + 1] == before + edgeTables[t][..i] + [edgeTables[t][i]];
        adj := Link(before + edgeTables[t][..i], adj, edgeTables[t][i]);
      }
      assert edgeTables[t][..|edgeTables[t]|] == edgeTables[t];
    }
    assert edgeTables[..|edgeTables|] == edgeTables;
  }

  /** `adjacency[start].add(end); adjacency[end].add(start)` */
  method Link(ghost rows: seq<Edge>, adj: Adjacency, e: Edge) returns (r: Adjacency)
    requires adj.Keys == Endpoints(rows)
    requires forall n :: Neighbours(adj, n) == AdjacentIn(rows, n)
    ensures r.Keys == Endpoints(rows + [e])
    ensures forall n :: Neighbours(r, n) == AdjacentIn(rows + [e], n)
  {
    r := adj[e.start := Neighbours(adj, e.start) + {e.end}];
    r := r[e.end := Neighbours(r, e.end) + {e.start}];
    forall n
      ensures Neighbours(r, n) == AdjacentIn(rows + [e], n)
    {
      assert Neighbours(adj, n) == AdjacentIn(rows, n);
      AdjacentInOneMore(rows, e, n);
    }
    EndpointsAppend(rows, [e]);
  }

  lemma RowsOneMore<T>(tables: seq<seq<T>>, t: nat)
    requires t < |tables|
    ensures Rows(tables[..t + 1]) == Rows(tables[..t]) + tables[t]
  {
    assert tables[..t + 1][..t] == tables[..t];
  }

  lemma IncidenceAppends(a: seq<Edge>, b: seq<Edge>)
    ensures forall n :: Incidence(a + b, n) == Incidence(a, n) + Incidence(b, n)
  {
    assert Starts(a + b) == Starts(a) + Starts(b);
    assert Ends(a + b) == Ends(a) + Ends(b);
  }

  lemma EndpointsAppend(a: seq<Edge>, b: seq<Edge>)
    ensures Endpoints(a + b) == Endpoints(a) + Endpoints(b)
    ensures Endpoints(b) == Elements(Starts(b)) + Elements(Ends(b))
  {
    forall n | n in Endpoints(b)
      ensures n in Starts(b) || n in Ends(b)
    {
      var i :| 0 <= i < |b| && (b[i].start == n || b[i].end == n);
      assert Starts(b)[i] == b[i].start && Ends(b)[i] == b[i].end;
    }
  }

  lemma AdjacentInOneMore(rows: seq<Edge>, e: Edge, n: Node)
    ensures AdjacentIn(rows + [e], n) ==
            AdjacentIn(rows, n) + (if e.start == n then {e.end} else {}) + (if e.end == n then {e.start} else {})
  {
    forall m | m in AdjacentIn(rows, n)
      ensures m in AdjacentIn(rows + [e], n)
    {
      var f :| f in rows && ((f.start == n && f.end == m) || (f.end == n && f.start == m));
      assert f in rows + [e];
    }
    assert e in rows + [e];
  }

  // ---------------------------------------------------------------- what every loaded graph satisfies

  ghost predicate Loaded(data: GraphData, rows: seq<Edge>) {
    && Endpoints(rows) <= data.degrees.Keys
    && (forall n :: Degree(data.degrees, n) == Incidence(rows, n))
    && data.adjacency.Keys == Endpoints(rows)
    && (forall n :: Neighbours(data.adjacency, n) == AdjacentIn(rows, n))
    && data.totalEdges == |rows|
  }

  lemma LoadedIsSymmetric(data: GraphData, rows: seq<Edge>)
    requires Loaded(data, rows)
    ensures Symmetric(data.adjacency) && Within(data.adjacency, data.degrees.Keys)
  {
    forall a, b | b in Neighbours(data.adjacency, a)
      ensures a in Neighbours(data.adjacency, b)
    {
      assert b in AdjacentIn(rows, a);
      assert a in AdjacentIn(rows, b);
    }
    forall a, b | a in data.adjacency && b in data.adjacency[a]
      ensures b in data.degrees.Keys
    {
      assert b in Neighbours(data.adjacency, a) && b in AdjacentIn(rows, a);
    }
  }

  /** A neighbour set is never larger than the degree; it is smaller under parallel rows. */
  lemma {:induction false} NeighboursWithinDegree(rows: seq<Edge>, n: Node)
    ensures |AdjacentIn(rows, n)| <= Incidence(rows, n)
    decreases |rows|
  {
    if rows == [] {
      assert AdjacentIn(rows, n) == {};
    } else {
      var e := rows[|rows| - 1];
      var rest := rows[..|rows| - 1];
      assert rows == rest + [e];
      NeighboursWithinDegree(rest, n);
      AdjacentInOneMore(rest, e, n);
      assert Starts([e]) == [e.start] && Ends([e]) == [e.end];
      IncidenceAppends(rest, [e]);
    }
  }

  /** One more row adds one at either end. */
  lemma HandshakeStep(nodes: set<Node>, e: Edge, before: Node -> int, after: Node -> int)
    requires e.start in nodes && e.end in nodes
    requires forall n | n in nodes :: after(n) == before(n) + (Is(n, e.start) + Is(n, e.end))
    ensures Sum(nodes, after) == Sum(nodes, before) + 2
  {
    hide Is;
    var both := n => Is(n, e.start) + Is(n, e.end);
    SumIndicator(nodes, e.start);
    SumIndicator(nodes, e.end);
    SumAdds(nodes, n => Is(n, e.start), n => Is(n, e.end), both);
    SumAdds(nodes, before, both, after);
  }

  /** Degrees sum to twice the number of edge rows. */
  lemma {:induction false} HandshakeRows(nodes: set<Node>, rows: seq<Edge>)
    requires Endpoints(rows) <= nodes
    ensures Sum(nodes, n => Incidence(rows, n)) == 2 * |rows|
    decreases |rows|
  {
    var f := n => Incidence(rows, n);
    if rows == [] {
      SumConstant(nodes, f, 0);
    } else {
      var e := rows[|rows| - 1];
      var rest := rows[..|rows| - 1];
      assert rows == rest + [e];
      EndpointsAppend(rest, [e]);
      assert e in rows && e.start in Endpoints(rows) && e.end in Endpoints(rows);
      HandshakeRows(nodes, rest);
      IncidenceOneMore(rest, e);
      hide Incidence, Endpoints;
      HandshakeStep(nodes, e, n => Incidence(rest, n), f);
    }
  }

  lemma IncidenceOneMore(rows: seq<Edge>, e: Edge)
    ensures forall n :: Incidence(rows + [e], n) == Incidence(rows, n) + (Is(n, e.start) + Is(n, e.end))
  {
    assert Starts([e]) == [e.start] && Ends([e]) == [e.end];
    IncidenceAppends(rows, [e]);
  }

  function Is(n: Node, m: Node): nat {
    if n == m then 1 else 0
  }

  lemma SumIndicator(nodes: set<Node>, m: Node)
    requires m in nodes
    ensures Sum(nodes, n => Is(n, m)) == 1
  {
    SumPick(nodes, n => Is(n, m), m);
    SumConstant(nodes - {m}, n => Is(n, m), 0);
  }

  lemma Handshake(data: GraphData, rows: seq<Edge>)
    requires Loaded(data, rows)
    ensures Sum(data.degrees.Keys, n => Degree(data.degrees, n)) == 2 * data.totalEdges
  {
    HandshakeRows(data.degrees.Keys, rows);
    SumCongruent(data.degrees.Keys, n => Degree(data.degrees, n), n => Incidence(rows, n));
  }
}
