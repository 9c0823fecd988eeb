/** The PageRank half of the centrality metrics, over exact reals. */
module PageRank {
  import opened Sums
  import opened Graphs

  type Ranks = map<Node, real>

  const DAMPING := 0.85

  function Rank(pr: Ranks, n: Node): real {
    if n in pr then pr[n] else 0.0
  }

  /** What `u` hands to each of its neighbours in one iteration. */
  function Share(adj: Adjacency, pr: Ranks, u: Node): real {
    var out := |Neighbours(adj, u)|;
    if out > 0 then DAMPING * Rank(pr, u) / out as real else 0.0
  }

  function Base(nodes: set<Node>): real
    requires nodes != {}
  {
    (1.0 - DAMPING) / |nodes| as real
  }

  ghost function Received(adj: Adjacency, pr: Ranks, v: Node): real {
    RealSum(Neighbours(adj, v), u => Share(adj, pr, u))
  }

  ghost function Next(nodes: set<Node>, adj: Adjacency, pr: Ranks): Ranks {
    map v | v in nodes :: Base(nodes) + Received(adj, pr, v)
  }

  ghost function Iterate(nodes: set<Node>, adj: Adjacency, k: nat): Ranks {
    if k == 0 then map v | v in nodes :: 1.0 / |nodes| as real
    else Next(nodes, adj, Iterate(nodes, adj, k - 1))
  }

  ghost function Total(nodes: set<Node>, pr: Ranks): real {
    RealSum(nodes, n => Rank(pr, n))
  }

  function Connected(nodes: set<Node>, adj: Adjacency): set<Node> {
    set n | n in nodes && Neighbours(adj, n) != {}
  }

  // ---------------------------------------------------------------- the loops

  method ComputePageRank(nodes: set<Node>, adj: Adjacency, iterations: nat) returns (pagerank: Ranks)
    ensures pagerank == Iterate(nodes, adj, iterations)
  {
    hide Base, Received, Rank;
    pagerank := map v | v in nodes :: 1.0 / |nodes| as real;
    for k := 0 to iterations
      invariant pagerank == Iterate(nodes, adj, k)
    {
      var next: Ranks := map[];
      var todo := nodes;
      while todo != {}
        invariant todo <= nodes && next.Keys == nodes - todo
        invariant forall v | v in next :: next[v] == Base(nodes) + Received(adj, pagerank, v)
      {
        var node :| node in todo;
        var rank := RankOf(nodes, adj, pagerank, node);
        next := next[node := rank];
        todo := todo - {node};
      }
      assert next == Next(nodes, adj, pagerank);
      pagerank := next;
    }
  }

  method RankOf(nodes: set<Node>, adj: Adjacency, pagerank: Ranks, node: Node) returns (rank: real)
    requires nodes != {}
    ensures rank == Base(nodes) + Received(adj, pagerank, node)
  {
    hide RealSum, Rank, Share, Neighbours, Received;
    ReceivedIs(adj, pagerank, node);
    rank := (1.0 - DAMPING) / |nodes| as real;
    SumOfNone(u => Share(adj, pagerank, u));
    ghost var share := u => Share(adj, pagerank, u);
    var todo := Neighbours(adj, node);
    ghost var done: set<Node> := {};
    while todo != {}
      invariant todo !! done && todo + done == Neighbours(adj, node)
      invariant rank == Base(nodes) + RealSum(done, share)
      decreases |todo|
    {
      var neighbour :| neighbour in todo;
      SumOneMore(done, share, neighbour);
      ShareIs(adj, pagerank, neighbour);
      var out := |Neighbours(adj, neighbour)|;
      if out > 0 {
        rank := rank + DAMPING * Rank(pagerank, neighbour) / out as real;
      }
      todo, done := todo - {neighbour}, done + {neighbour};
    }
  }

  lemma ReceivedIs(adj: Adjacency, pr: Ranks, v: Node)
    ensures Received(adj, pr, v) == RealSum(Neighbours(adj, v), u => Share(adj, pr, u))
  {
  }

  lemma ShareIs(adj: Adjacency, pr: Ranks, u: Node)
    ensures Neighbours(adj, u) != {} ==> Share(adj, pr, u) == DAMPING * Rank(pr, u) / |Neighbours(adj, u)| as real
    ensures Neighbours(adj, u) == {} ==> Share(adj, pr, u) == 0.0
  {
    hide Neighbours, Rank;
  }

  lemma SumOfNone(f: Node -> real)
    ensures RealSum({}, f) == 0.0
  {
  }

  lemma SumOneMore(done: set<Node>, f: Node -> real, x: Node)
    requires x !in done
    ensures RealSum(done + {x}, f) == RealSum(done, f) + f(x)
  {
    RealSumPick(done + {x}, f, x);
    assert done + {x} - {x} == done;
  }

  // ---------------------------------------------------------------- conservation

  /** The share of `u` that reaches `v`. */
  ghost function Flow(adj: Adjacency, pr: Ranks, v: Node, u: Node): real {
    if u in Neighbours(adj, v) then Share(adj, pr, u) else 0.0
  }

  ghost function Inflow(nodes: set<Node>, adj: Adjacency, pr: Ranks, v: Node): real {
    RealSum(nodes, u => Flow(adj, pr, v, u))
  }

  ghost function Outflow(nodes: set<Node>, adj: Adjacency, pr: Ranks, u: Node): real {
    RealSum(nodes, v => Flow(adj, pr, v, u))
  }

  lemma ReceivedIsInflow(nodes: set<Node>, adj: Adjacency, pr: Ranks, v: Node)
    requires Within(adj, nodes)
    ensures Received(adj, pr, v) == Inflow(nodes, adj, pr, v)
  {
    RealSumRestrict(nodes, Neighbours(adj, v), u => Flow(adj, pr, v, u));
    RealSumCongruent(Neighbours(adj, v), u => Flow(adj, pr, v, u), u => Share(adj, pr, u));
  }

  lemma ShareSpent(adj: Adjacency, pr: Ranks, u: Node)
    requires Neighbours(adj, u) != {}
    ensures Share(adj, pr, u) * |Neighbours(adj, u)| as real == DAMPING * Rank(pr, u)
  {
  }

  /** By symmetry `u` is heard by exactly its neighbours, so it hands out all it has, damped. */
  lemma OutflowIsDampedRank(nodes: set<Node>, adj: Adjacency, pr: Ranks, u: Node)
    requires Symmetric(adj) && Within(adj, nodes)
    ensures Outflow(nodes, adj, pr, u) == if Neighbours(adj, u) != {} then DAMPING * Rank(pr, u) else 0.0
  {
    RealSumRestrict(nodes, Neighbours(adj, u), v => Flow(adj, pr, v, u));
    RealSumConstant(Neighbours(adj, u), v => Flow(adj, pr, v, u), Share(adj, pr, u));
    if Neighbours(adj, u) != {} {
      ShareSpent(adj, pr, u);
    }
  }

  /** One iteration: the new total is the base mass plus the damped mass of the connected nodes. */
  lemma NextTotal(nodes: set<Node>, adj: Adjacency, pr: Ranks)
    requires nodes != {} && Symmetric(adj) && Within(adj, nodes)
    ensures Total(nodes, Next(nodes, adj, pr)) == 0.15 + 0.85 * Total(Connected(nodes, adj), pr)
  {
    hide Base, Inflow, Outflow, Received, Symmetric;
    var next := n => Rank(Next(nodes, adj, pr), n);
    var inflow := v => Inflow(nodes, adj, pr, v);
    forall v | v in nodes
      ensures next(v) == Base(nodes) + inflow(v)
    {
      ReceivedIsInflow(nodes, adj, pr, v);
    }
    RealSumConstant(nodes, v => Base(nodes), Base(nodes));
    RealSumAdds(nodes, v => Base(nodes), inflow, next);
    BaseMass(nodes);
    FlowsExchange(nodes, nodes, adj, pr);
    TotalOutflow(nodes, adj, pr);
  }

  lemma BaseMass(nodes: set<Node>)
    requires nodes != {}
    ensures Base(nodes) * |nodes| as real == 1.0 - DAMPING
  {
  }

  /** Exchanging the order of the double sum over all flows. */
  lemma {:induction false} FlowsExchange(rows: set<Node>, columns: set<Node>, adj: Adjacency, pr: Ranks)
    ensures RealSum(rows, v => Inflow(columns, adj, pr, v)) == RealSum(columns, u => Outflow(rows, adj, pr, u))
    decreases |rows|
  {
    var inflow := v => Inflow(columns, adj, pr, v);
    var outflow := u => Outflow(rows, adj, pr, u);
    if rows == {} {
      RealSumConstant(columns, outflow, 0.0);
    } else {
      var v0 :| v0 in rows;
      RealSumPick(rows, inflow, v0);
      FlowsExchange(rows - {v0}, columns, adj, pr);
      forall u | u in columns
        ensures outflow(u) == Flow(adj, pr, v0, u) + Outflow(rows - {v0}, adj, pr, u)
      {
        RealSumPick(rows, v => Flow(adj, pr, v, u), v0);
      }
      RealSumAdds(columns, u => Flow(adj, pr, v0, u), u => Outflow(rows - {v0}, adj, pr, u), outflow);
    }
  }

  lemma TotalOutflow(nodes: set<Node>, adj: Adjacency, pr: Ranks)
    requires Symmetric(adj) && Within(adj, nodes)
    ensures RealSum(nodes, u => Outflow(nodes, adj, pr, u)) == DAMPING * Total(Connected(nodes, adj), pr)
  {
    var outflow := u => Outflow(nodes, adj, pr, u);
    var connected := Connected(nodes, adj);
    forall u | u in nodes
      ensures outflow(u) == if u in connected then Times(DAMPING, Rank(pr, u)) else 0.0
    {
      OutflowIsDampedRank(nodes, adj, pr, u);
    }
    RealSumRestrict(nodes, connected, outflow);
    RealSumScales(connected, n => Rank(pr, n), outflow, DAMPING);
  }

  lemma SharesNonNegative(adj: Adjacency, pr: Ranks, v: Node)
    requires forall n | n in pr :: pr[n] >= 0.0
    ensures Received(adj, pr, v) >= 0.0
  {
    RealSumConstant(Neighbours(adj, v), u => 0.0, 0.0);
    RealSumMonotone(Neighbours(adj, v), u => 0.0, u => Share(adj, pr, u));
  }

  /** Every rank is at least the base share, after any number of iterations. */
  lemma {:induction false} RanksAtLeastBase(nodes: set<Node>, adj: Adjacency, k: nat)
    requires nodes != {}
    ensures Iterate(nodes, adj, k).Keys == nodes
    ensures forall n | n in nodes :: Iterate(nodes, adj, k)[n] >= Base(nodes) > 0.0
  {
    if k > 0 {
      RanksAtLeastBase(nodes, adj, k - 1);
      forall n | n in nodes
        ensures Iterate(nodes, adj, k)[n] >= Base(nodes)
      {
        SharesNonNegative(adj, Iterate(nodes, adj, k - 1), n);
      }
    } else {
      assert 1.0 / |nodes| as real >= Base(nodes);
    }
  }

  lemma ConnectedMass(nodes: set<Node>, adj: Adjacency, pr: Ranks)
    requires forall n | n in nodes :: Rank(pr, n) > 0.0
    ensures Total(Connected(nodes, adj), pr) <= Total(nodes, pr)
    ensures Total(Connected(nodes, adj), pr) == Total(nodes, pr) <==> Connected(nodes, adj) == nodes
  {
    var rank := n => Rank(pr, n);
    var connected := Connected(nodes, adj);
    var kept := n => if n in connected then rank(n) else 0.0;
    RealSumRestrict(nodes, connected, kept);
    RealSumCongruent(connected, kept, rank);
    RealSumMonotone(nodes, kept, rank);
    if n :| n in nodes && n !in connected {
      RealSumPick(nodes, kept, n);
      RealSumPick(nodes, rank, n);
      RealSumMonotone(nodes - {n}, kept, rank);
    }
  }

  /** Total rank never exceeds 1. It starts at 1 and stays there exactly when no node is isolated. */
  lemma {:induction false} TotalRank(nodes: set<Node>, adj: Adjacency, k: nat)
    requires nodes != {} && Symmetric(adj) && Within(adj, nodes)
    ensures Total(nodes, Iterate(nodes, adj, k)) <= 1.0
    ensures Total(nodes, Iterate(nodes, adj, k)) == 1.0 <==> k == 0 || Connected(nodes, adj) == nodes
  {
    hide RealSum, Connected, Base, Symmetric, Within, Next;
    if k == 0 {
      InitialTotal(nodes, adj);
    } else {
      var pr := Iterate(nodes, adj, k - 1);
      TotalRank(nodes, adj, k - 1);
      RanksAtLeastBase(nodes, adj, k - 1);
      NextTotal(nodes, adj, pr);
      ConnectedMass(nodes, adj, pr);
    }
  }

  lemma InitialTotal(nodes: set<Node>, adj: Adjacency)
    requires nodes != {}
    ensures Total(nodes, Iterate(nodes, adj, 0)) == 1.0
  {
    RealSumConstant(nodes, n => Rank(Iterate(nodes, adj, 0), n), 1.0 / |nodes| as real);
    Reciprocal(|nodes| as real);
  }

  lemma Reciprocal(x: real)
    requires x != 0.0
    ensures 1.0 / x * x == 1.0
  {
  }

  // ---------------------------------------------------------------- convergence

  function Abs(x: real): (r: real)
    ensures r >= 0.0 && (r == x || r == -x)
  {
    if x < 0.0 then -x else x
  }

  /** How far apart two rankings are, node by node. */
  ghost function Gap(nodes: set<Node>, a: Ranks, b: Ranks): Ranks {
    map n | n in nodes :: Abs(Rank(a, n) - Rank(b, n))
  }

  ghost function Distance(nodes: set<Node>, a: Ranks, b: Ranks): real {
    Total(nodes, Gap(nodes, a, b))
  }

  lemma {:induction false} GapOfSums(s: set<Node>, f: Node -> real, g: Node -> real, h: Node -> real)
    requires forall x | x in s :: h(x) == Abs(f(x) - g(x))
    ensures Abs(RealSum(s, f) - RealSum(s, g)) <= RealSum(s, h)
    decreases |s|
  {
    if s != {} {
      var x :| x in s;
      RealSumPick(s, f, x);
      RealSumPick(s, g, x);
      RealSumPick(s, h, x);
      GapOfSums(s - {x}, f, g, h);
    }
  }

  lemma Scaling(x: real, y: real, d: real)
    requires d > 0.0
    ensures Abs(DAMPING * x / d - DAMPING * y / d) == DAMPING * Abs(x - y) / d
  {
    assert DAMPING * x / d - DAMPING * y / d == DAMPING * (x - y) / d;
    if x - y < 0.0 {
      assert DAMPING * (x - y) / d == -(DAMPING * (y - x) / d);
      NonNegative(y - x, d);
    } else {
      NonNegative(x - y, d);
    }
  }

  lemma NonNegative(x: real, d: real)
    requires x >= 0.0 && d > 0.0
    ensures DAMPING * x / d >= 0.0
  {
  }

  lemma ShareOfGap(nodes: set<Node>, adj: Adjacency, a: Ranks, b: Ranks, u: Node)
    requires u in nodes
    ensures Share(adj, Gap(nodes, a, b), u) == Abs(Share(adj, a, u) - Share(adj, b, u))
  {
    var out := |Neighbours(adj, u)|;
    if out > 0 {
      Scaling(Rank(a, u), Rank(b, u), out as real);
    }
  }

  /** What a node receives differs by no more than it would receive of the gap. */
  lemma ReceivedGap(nodes: set<Node>, adj: Adjacency, a: Ranks, b: Ranks, v: Node)
    requires Within(adj, nodes)
    ensures Abs(Received(adj, a, v) - Received(adj, b, v)) <= Received(adj, Gap(nodes, a, b), v)
  {
    var f, g, h := u => Share(adj, a, u), u => Share(adj, b, u), u => Share(adj, Gap(nodes, a, b), u);
    forall u | u in Neighbours(adj, v)
      ensures h(u) == Abs(f(u) - g(u))
    {
      ShareOfGap(nodes, adj, a, b, u);
    }
    GapOfSums(Neighbours(adj, v), f, g, h);
  }

  /** One iteration brings any two rankings closer, by the damping factor at least. */
  lemma NextContracts(nodes: set<Node>, adj: Adjacency, a: Ranks, b: Ranks)
    requires nodes != {} && Symmetric(adj) && Within(adj, nodes)
    ensures Distance(nodes, Next(nodes, adj, a), Next(nodes, adj, b)) <= DAMPING * Distance(nodes, a, b)
  {
    hide Base, Received, Inflow, Outflow, Symmetric, Abs;
    var gap := Gap(nodes, a, b);
    var left, inflow := n => Rank(Gap(nodes, Next(nodes, adj, a), Next(nodes, adj, b)), n), v => Inflow(nodes, adj, gap, v);
    forall v | v in nodes
      ensures left(v) <= inflow(v)
    {
      ReceivedGap(nodes, adj, a, b, v);
      ReceivedIsInflow(nodes, adj, gap, v);
      assert Rank(Next(nodes, adj, a), v) - Rank(Next(nodes, adj, b), v) == Received(adj, a, v) - Received(adj, b, v);
    }
    RealSumMonotone(nodes, left, inflow);
    FlowsExchange(nodes, nodes, adj, gap);
    TotalOutflow(nodes, adj, gap);
    ConnectedPart(nodes, adj, gap);
  }

  lemma ConnectedPart(nodes: set<Node>, adj: Adjacency, pr: Ranks)
    requires forall n | n in pr :: pr[n] >= 0.0
    ensures Total(Connected(nodes, adj), pr) <= Total(nodes, pr)
  {
    var rank := n => Rank(pr, n);
    var connected := Connected(nodes, adj);
    var kept := n => if n in connected then rank(n) else 0.0;
    RealSumRestrict(nodes, connected, kept);
    RealSumCongruent(connected, kept, rank);
    RealSumMonotone(nodes, kept, rank);
  }

  ghost function Power(x: real, k: nat): real {
    if k == 0 then 1.0 else x * Power(x, k - 1)
  }

  /** Iterating converges: after `k` iterations the ranks are within the `k`-th power of the damping factor of any
      ranking that an iteration leaves as it is, times the distance at the start. */
  lemma {:induction false} Converges(nodes: set<Node>, adj: Adjacency, pr: Ranks, k: nat)
    requires nodes != {} && Symmetric(adj) && Within(adj, nodes) && Next(nodes, adj, pr) == pr
    ensures Distance(nodes, Iterate(nodes, adj, k), pr) <= Power(0.85, k) * Distance(nodes, Iterate(nodes, adj, 0), pr)
  {
    hide Distance, Next, Symmetric, Within;
    if k > 0 {
      Converges(nodes, adj, pr, k - 1);
      NextContracts(nodes, adj, Iterate(nodes, adj, k - 1), pr);
      Damped(Distance(nodes, Iterate(nodes, adj, k - 1), pr), Power(DAMPING, k - 1), Distance(nodes, Iterate(nodes, adj, 0), pr));
    }
  }

  lemma Damped(d: real, power: real, start: real)
    requires d <= power * start
    ensures DAMPING * d <= DAMPING * power * start
  {
    assert DAMPING * power * start == DAMPING * (power * start);
  }

  lemma DistanceBounds(nodes: set<Node>, a: Ranks, b: Ranks, n: Node)
    requires n in nodes
    ensures Distance(nodes, a, b) >= Abs(Rank(a, n) - Rank(b, n))
  {
    hide Abs;
    var gap := x => Rank(Gap(nodes, a, b), x);
    RealSumPick(nodes, gap, n);
    RealSumConstant(nodes - {n}, x => 0.0, 0.0);
    RealSumMonotone(nodes - {n}, x => 0.0, gap);
  }

  /** At most one ranking is left as it is by an iteration. */
  lemma FixedRanksAreUnique(nodes: set<Node>, adj: Adjacency, a: Ranks, b: Ranks)
    requires nodes != {} && Symmetric(adj) && Within(adj, nodes) && Next(nodes, adj, a) == a && Next(nodes, adj, b) == b
    ensures a == b
  {
    assert a.Keys == nodes && b.Keys == nodes;
    NextContracts(nodes, adj, a, b);
    hide Distance, Next, Symmetric, Within, Abs;
    forall n | n in nodes
      ensures a[n] == b[n]
    {
      DistanceBounds(nodes, a, b, n);
    }
  }
}
