/** Community detection by label propagation. Besides what one run keeps, a potential argument
    shows that every change of a label makes progress, so that some number of sweeps, computed
    from the graph alone, always suffices to reach a fixpoint whatever order is shuffled. */
module Communities {
  import opened Collections
  import opened Sums
  import opened Graphs

  type Labels = map<Node, Node>

  ghost predicate Labelling(nodes: set<Node>, labels: Labels) {
    labels.Keys == nodes && forall n | n in labels :: labels[n] in nodes
  }

  /** The neighbours of `n` that carry label `l`. */
  ghost function Voters(adj: Adjacency, labels: Labels, n: Node, l: Node): set<Node> {
    set m | m in Neighbours(adj, n) && m in labels && labels[m] == l
  }

  ghost function Votes(adj: Adjacency, labels: Labels, n: Node, l: Node): nat {
    |Voters(adj, labels, n, l)|
  }

  /** `b` is the least of the most frequent labels around `n`. */
  ghost predicate Plurality(adj: Adjacency, labels: Labels, n: Node, b: Node) {
    && Votes(adj, labels, n, b) > 0
    && forall l :: Votes(adj, labels, n, l) <= Votes(adj, labels, n, b)
                   && (Votes(adj, labels, n, l) == Votes(adj, labels, n, b) ==> b.id <= l.id)
  }

  ghost predicate SameComponent(adj: Adjacency, a: Node, b: Node) {
    exists k: nat :: b in Ball(adj, a, k)
  }

  /** Every label names a node of the component; nodes without neighbours keep their own. */
  ghost predicate Localised(adj: Adjacency, labels: Labels) {
    forall n | n in labels ::
      SameComponent(adj, labels[n], n) && (Neighbours(adj, n) == {} ==> labels[n] == n)
  }

  ghost predicate Settled(adj: Adjacency, labels: Labels, nodes: set<Node>) {
    forall n | n in nodes && n in labels && Neighbours(adj, n) != {} :: Plurality(adj, labels, n, labels[n])
  }

  // ---------------------------------------------------------------- the potential

  function LabelOf(labels: Labels, n: Node): Node {
    if n in labels then labels[n] else n
  }

  ghost function Agreeing(adj: Adjacency, labels: Labels, n: Node): nat {
    Votes(adj, labels, n, LabelOf(labels, n))
  }

  /** How many (node, neighbour) pairs carry the same label. */
  ghost function Agreement(nodes: set<Node>, adj: Adjacency, labels: Labels): int {
    Sum(nodes, n => Agreeing(adj, labels, n))
  }

  /** How many nodes have a smaller id. */
  ghost function Position(nodes: set<Node>, l: Node): nat {
    |set m | m in nodes && m.id < l.id|
  }

  ghost function Height(nodes: set<Node>, labels: Labels): int {
    Sum(nodes, n => HeightOf(nodes, labels, n))
  }

  ghost function HeightOf(nodes: set<Node>, labels: Labels, n: Node): nat {
    Position(nodes, LabelOf(labels, n))
  }

  /** Agreement counts first; among equal agreements, smaller labels count. */
  ghost function Potential(nodes: set<Node>, adj: Adjacency, labels: Labels): int {
    Agreement(nodes, adj, labels) * (|nodes| * |nodes| + 1) - Height(nodes, labels)
  }

  ghost function Pairs(nodes: set<Node>, adj: Adjacency): int {
    Sum(nodes, n => |Neighbours(adj, n)|)
  }

  /** No run can change labels more often than this, in whatever order nodes are visited. */
  ghost function ChangeBound(nodes: set<Node>, adj: Adjacency): int {
    Pairs(nodes, adj) * (|nodes| * |nodes| + 1) + |nodes| * |nodes|
  }

  lemma VotersOfOther(adj: Adjacency, labels: Labels, n: Node, b: Node, m: Node)
    requires Symmetric(adj) && n in labels && m in labels && m != n && b != labels[n]
    ensures Agreeing(adj, labels[n := b], m) ==
            Agreeing(adj, labels, m) + Gain(adj, labels, n, b, m) - Gain(adj, labels, n, labels[n], m)
  {
    var before := Voters(adj, labels, m, labels[m]);
    var after := Voters(adj, labels[n := b], m, labels[m]);
    if m in Neighbours(adj, n) && labels[m] == b {
      assert after == before + {n};
    } else if m in Neighbours(adj, n) && labels[m] == labels[n] {
      assert before == after + {n};
    } else {
      assert after == before;
    }
  }

  /** One if `m` votes for `l` at `n`. */
  ghost function Gain(adj: Adjacency, labels: Labels, n: Node, l: Node, m: Node): nat {
    if m in Voters(adj, labels, n, l) then 1 else 0
  }

  lemma GainsAreVotes(nodes: set<Node>, adj: Adjacency, labels: Labels, n: Node, l: Node)
    requires Within(adj, nodes) && labels.Keys == nodes
    ensures Sum(nodes - {n}, m => Gain(adj, labels, n, l, m)) == |Voters(adj, labels, n, l) - {n}|
  {
    var voters := Voters(adj, labels, n, l) - {n};
    SumRestrict(nodes - {n}, voters, m => Gain(adj, labels, n, l, m));
    SumConstant(voters, m => Gain(adj, labels, n, l, m), 1);
  }

  /** Adopting the plurality label raises agreement by twice the votes gained, and by at least two
      when the node is its own neighbour. */
  lemma AgreementAfterChange(nodes: set<Node>, adj: Adjacency, labels: Labels, n: Node, b: Node)
    requires Symmetric(adj) && Within(adj, nodes) && labels.Keys == nodes && n in nodes && b != labels[n]
    ensures var self := if n in Neighbours(adj, n) then 1 else 0;
            Agreement(nodes, adj, labels[n := b]) ==
            Agreement(nodes, adj, labels) + 2 * (Votes(adj, labels, n, b) - Votes(adj, labels, n, labels[n]) + self)
  {
    hide Voters, Gain, Symmetric, Within, Votes, Agreeing;
    var a, labels' := labels[n], labels[n := b];
    var others := nodes - {n};
    var before := m => Agreeing(adj, labels, m);
    var after := m => Agreeing(adj, labels', m);
    var gain := m => Gain(adj, labels, n, b, m);
    var loss := m => Gain(adj, labels, n, a, m);
    var kept := m => before(m) + gain(m);
    SumPick(nodes, before, n);
    SumPick(nodes, after, n);
    forall m | m in others
      ensures kept(m) == after(m) + loss(m)
    {
      VotersOfOther(adj, labels, n, b, m);
    }
    SumAdds(others, before, gain, kept);
    SumAdds(others, after, loss, kept);
    GainsAreVotes(nodes, adj, labels, n, b);
    GainsAreVotes(nodes, adj, labels, n, a);
    OwnVotes(adj, labels, n, b);
  }

  lemma OwnVotes(adj: Adjacency, labels: Labels, n: Node, b: Node)
    requires n in labels && b != labels[n]
    ensures var self := if n in Neighbours(adj, n) then 1 else 0;
            && |Voters(adj, labels, n, b) - {n}| == Votes(adj, labels, n, b)
            && |Voters(adj, labels, n, labels[n]) - {n}| == Votes(adj, labels, n, labels[n]) - self
            && Agreeing(adj, labels, n) == Votes(adj, labels, n, labels[n])
            && Agreeing(adj, labels[n := b], n) == Votes(adj, labels, n, b) + self
  {
    OwnVotesBefore(adj, labels, n, b);
    OwnVotesAfter(adj, labels, n, b);
  }

  lemma OwnVotesBefore(adj: Adjacency, labels: Labels, n: Node, b: Node)
    requires n in labels && b != labels[n]
    ensures |Voters(adj, labels, n, b) - {n}| == Votes(adj, labels, n, b)
    ensures |Voters(adj, labels, n, labels[n]) - {n}| ==
            Votes(adj, labels, n, labels[n]) - if n in Neighbours(adj, n) then 1 else 0
  {
    assert Voters(adj, labels, n, b) - {n} == Voters(adj, labels, n, b);
    var same := Voters(adj, labels, n, labels[n]);
    assert n in Neighbours(adj, n) ==> same == (same - {n}) + {n};
    assert n !in Neighbours(adj, n) ==> same == same - {n};
  }

  lemma OwnVotesAfter(adj: Adjacency, labels: Labels, n: Node, b: Node)
    requires n in labels && b != labels[n]
    ensures Agreeing(adj, labels[n := b], n) == Votes(adj, labels, n, b) + if n in Neighbours(adj, n) then 1 else 0
  {
    var after := Voters(adj, labels[n := b], n, b);
    var before := Voters(adj, labels, n, b);
    if n in Neighbours(adj, n) {
      assert after == before + {n};
    } else {
      assert after == before;
    }
  }

  lemma HeightAfterChange(nodes: set<Node>, labels: Labels, n: Node, b: Node)
    requires labels.Keys == nodes && n in nodes
    ensures Height(nodes, labels[n := b]) == Height(nodes, labels) - Position(nodes, labels[n]) + Position(nodes, b)
  {
    hide Position;
    var labels' := labels[n := b];
    var before := m => HeightOf(nodes, labels, m);
    var after := m => HeightOf(nodes, labels', m);
    SumPick(nodes, before, n);
    SumPick(nodes, after, n);
    SumCongruent(nodes - {n}, before, after);
  }

  lemma PositionBounds(nodes: set<Node>, l: Node)
    ensures Position(nodes, l) <= |nodes|
  {
    Smaller((set m | m in nodes && m.id < l.id), nodes);
  }

  lemma PositionMonotone(nodes: set<Node>, a: Node, b: Node)
    requires b in nodes && b.id < a.id
    ensures Position(nodes, b) < Position(nodes, a)
  {
    var below := set m | m in nodes && m.id < b.id;
    Smaller(below + {b}, (set m | m in nodes && m.id < a.id));
  }

  lemma HeightBounds(nodes: set<Node>, labels: Labels)
    ensures 0 <= Height(nodes, labels) <= |nodes| * |nodes|
  {
    var h := n => HeightOf(nodes, labels, n);
    forall n | n in nodes
      ensures 0 <= h(n) <= |nodes|
    {
      PositionBounds(nodes, LabelOf(labels, n));
    }
    SumConstant(nodes, n => 0, 0);
    SumConstant(nodes, n => |nodes|, |nodes|);
    SumMonotone(nodes, n => 0, h);
    SumMonotone(nodes, h, n => |nodes|);
  }

  lemma AgreementBounds(nodes: set<Node>, adj: Adjacency, labels: Labels)
    ensures 0 <= Agreement(nodes, adj, labels) <= Pairs(nodes, adj)
  {
    var f := n => Agreeing(adj, labels, n);
    forall n | n in nodes
      ensures f(n) <= |Neighbours(adj, n)|
    {
      Smaller(Voters(adj, labels, n, LabelOf(labels, n)), Neighbours(adj, n));
    }
    SumConstant(nodes, n => 0, 0);
    SumMonotone(nodes, n => 0, f);
    SumMonotone(nodes, f, n => |Neighbours(adj, n)|);
  }

  /** Every change of a label raises the potential. */
  lemma ChangeRaisesPotential(nodes: set<Node>, adj: Adjacency, labels: Labels, n: Node, b: Node)
    requires Symmetric(adj) && Within(adj, nodes) && Labelling(nodes, labels)
    requires n in nodes && b in nodes && b != labels[n] && Plurality(adj, labels, n, b)
    ensures Potential(nodes, adj, labels[n := b]) >= Potential(nodes, adj, labels) + 1
  {
    hide Agreement, Height, Symmetric, Within, Votes, Position;
    AgreementAfterChange(nodes, adj, labels, n, b);
    HeightAfterChange(nodes, labels, n, b);
    HeightBounds(nodes, labels);
    HeightBounds(nodes, labels[n := b]);
    assert Votes(adj, labels, n, labels[n]) <= Votes(adj, labels, n, b);
    if Votes(adj, labels, n, labels[n]) == Votes(adj, labels, n, b) && n !in Neighbours(adj, n) {
      PositionMonotone(nodes, labels[n], b);
    } else {
      MoreAgreement(Agreement(nodes, adj, labels), Agreement(nodes, adj, labels[n := b]), |nodes| * |nodes| + 1);
    }
  }

  lemma MoreAgreement(a: int, a': int, w: int)
    requires a' >= a + 1 && w >= 0
    ensures a' * w >= a * w + w
  {
    Scaled(a + 1, a', w);
    assert (a + 1) * w == a * w + w;
  }

  lemma PotentialBounds(nodes: set<Node>, adj: Adjacency, labels: Labels, labels': Labels)
    ensures Potential(nodes, adj, labels') - Potential(nodes, adj, labels) <= ChangeBound(nodes, adj)
  {
    hide Agreement, Height, Pairs;
    var w := |nodes| * |nodes| + 1;
    HeightBounds(nodes, labels);
    HeightBounds(nodes, labels');
    AgreementBounds(nodes, adj, labels);
    AgreementBounds(nodes, adj, labels');
    Scaled(Agreement(nodes, adj, labels'), Pairs(nodes, adj), w);
    Scaled(0, Agreement(nodes, adj, labels), w);
  }

  lemma Scaled(a: int, b: int, w: int)
    requires a <= b && w >= 0
    ensures a * w <= b * w
  {
    var d := b - a;
    assert d * w >= 0;
    assert b * w == (a + d) * w == a * w + d * w;
  }

  // ---------------------------------------------------------------- one node

  lemma AdoptKeepsLocalised(adj: Adjacency, labels: Labels, n: Node, b: Node)
    requires Symmetric(adj) && Localised(adj, labels) && n in labels && Votes(adj, labels, n, b) > 0
    ensures Localised(adj, labels[n := b])
  {
    var m :| m in Voters(adj, labels, n, b);
    var k: nat :| m in Ball(adj, b, k);
    assert n in Neighbours(adj, m);
    assert n in Ball(adj, b, k + 1);
  }

  /** The counts are the votes of the given neighbours. */
  ghost predicate CountsVotes(labels: Labels, some: set<Node>, counts: map<Node, nat>) {
    && (forall l :: l in counts <==> Among(labels, some, l) != {})
    && (forall l | l in counts :: counts[l] == |Among(labels, some, l)|)
  }

  lemma OneMoreVote(labels: Labels, some: set<Node>, m: Node, counts: map<Node, nat>)
    requires CountsVotes(labels, some, counts) && m !in some && m in labels
    ensures var l := labels[m];
            CountsVotes(labels, some + {m}, counts[l := if l in counts then counts[l] + 1 else 1])
  {
    AmongOneMore(labels, some, m);
    hide Among;
  }

  /** `label_counts` around one node. */
  method CountLabels(adj: Adjacency, labels: Labels, n: Node) returns (counts: map<Node, nat>)
    requires Neighbours(adj, n) <= labels.Keys
    ensures forall l :: l in counts <==> Votes(adj, labels, n, l) > 0
    ensures forall l | l in counts :: counts[l] == Votes(adj, labels, n, l)
  {
    hide Neighbours, Among, CountsVotes, Voters, Votes;
    counts := map[];
    NoVotes(labels);
    var todo := Neighbours(adj, n);
    ghost var done: set<Node> := {};
    while todo != {}
      invariant todo !! done && todo + done == Neighbours(adj, n)
      invariant CountsVotes(labels, done, counts)
      decreases |todo|
    {
      var m :| m in todo;
      var l := labels[m];
      OneMoreVote(labels, done, m, counts);
      counts := counts[l := if l in counts then counts[l] + 1 else 1];
      todo, done := todo - {m}, done + {m};
    }
    assert done == Neighbours(adj, n);
    AllVotes(adj, labels, n, counts);
  }

  lemma NoVotes(labels: Labels)
    ensures CountsVotes(labels, {}, map[])
  {
    AmongNone(labels);
  }

  lemma AllVotes(adj: Adjacency, labels: Labels, n: Node, counts: map<Node, nat>)
    requires CountsVotes(labels, Neighbours(adj, n), counts)
    ensures forall l :: l in counts <==> Votes(adj, labels, n, l) > 0
    ensures forall l | l in counts :: counts[l] == Votes(adj, labels, n, l)
  {
    hide Neighbours, Among, Votes;
    forall l
      ensures Votes(adj, labels, n, l) == |Among(labels, Neighbours(adj, n), l)|
    {
      AmongAll(adj, labels, n, l);
    }
  }

  lemma AmongNone(labels: Labels)
    ensures forall l :: Among(labels, {}, l) == {}
  {
  }

  lemma AmongAll(adj: Adjacency, labels: Labels, n: Node, l: Node)
    ensures Votes(adj, labels, n, l) == |Among(labels, Neighbours(adj, n), l)|
  {
    hide Neighbours;
    assert Among(labels, Neighbours(adj, n), l) == Voters(adj, labels, n, l);
  }

  ghost function Among(labels: Labels, some: set<Node>, l: Node): set<Node> {
    set m | m in some && m in labels && labels[m] == l
  }

  lemma AmongOneMore(labels: Labels, some: set<Node>, m: Node)
    requires m !in some && m in labels
    ensures Among(labels, some + {m}, labels[m]) == Among(labels, some, labels[m]) + {m} && m !in Among(labels, some, labels[m])
    ensures forall l | l != labels[m] :: Among(labels, some + {m}, l) == Among(labels, some, l)
  {
  }

  /** `min(lbl for lbl, cnt in label_counts.items() if cnt == max(label_counts.values()))` */
  method PickBest(counts: map<Node, nat>) returns (best: Node)
    requires counts != map[]
    ensures best in counts
    ensures forall l | l in counts :: counts[l] <= counts[best] && (counts[l] == counts[best] ==> best.id <= l.id)
  {
    best :| best in counts;
    var todo := counts.Keys - {best};
    while todo != {}
      invariant todo <= counts.Keys && best in counts && best !in todo
      invariant forall l | l in counts && l !in todo ::
                  counts[l] <= counts[best] && (counts[l] == counts[best] ==> best.id <= l.id)
    {
      var l :| l in todo;
      if counts[l] > counts[best] || (counts[l] == counts[best] && l.id < best.id) {
        best := l;
      }
      todo := todo - {l};
    }
  }

  // ---------------------------------------------------------------- sweeps

  /** What every sweep keeps: labels stay local, and the changes so far are paid for in potential. */
  ghost predicate Kept(nodes: set<Node>, adj: Adjacency, start: Labels, labels: Labels, changes: nat) {
    && Labelling(nodes, labels) && Localised(adj, labels)
    && Potential(nodes, adj, labels) - Potential(nodes, adj, start) >= changes
  }

  lemma KeptAfterChange(nodes: set<Node>, adj: Adjacency, start: Labels, labels: Labels, changes: nat, n: Node, b: Node)
    requires Symmetric(adj) && Within(adj, nodes) && Kept(nodes, adj, start, labels, changes)
    requires n in nodes && b != labels[n] && Plurality(adj, labels, n, b)
    ensures Kept(nodes, adj, start, labels[n := b], changes + 1)
  {
    hide Potential, Localised, Symmetric, Within;
    var m :| m in Voters(adj, labels, n, b);
    AdoptKeepsLocalised(adj, labels, n, b);
    ChangeRaisesPotential(nodes, adj, labels, n, b);
  }

  lemma BestIsPlurality(adj: Adjacency, labels: Labels, n: Node, counts: map<Node, nat>, best: Node)
    requires forall l :: l in counts <==> Votes(adj, labels, n, l) > 0
    requires forall l | l in counts :: counts[l] == Votes(adj, labels, n, l)
    requires best in counts
    requires forall l | l in counts :: counts[l] <= counts[best] && (counts[l] == counts[best] ==> best.id <= l.id)
    ensures Plurality(adj, labels, n, best)
    ensures forall b | Plurality(adj, labels, n, b) :: b == best
  {
    forall b | Plurality(adj, labels, n, b)
      ensures b == best
    {
      assert Votes(adj, labels, n, best) <= Votes(adj, labels, n, b);
      assert b.id == best.id;
    }
  }

  lemma SomeLabelVoted(adj: Adjacency, labels: Labels, n: Node, m: Node)
    requires m in Neighbours(adj, n) && m in labels
    ensures Votes(adj, labels, n, labels[m]) > 0
  {
    assert m in Voters(adj, labels, n, labels[m]);
  }

  /** One pass over the shuffled nodes. With no change the labels were already settled on them. */
  method Sweep(ghost nodes: set<Node>, adj: Adjacency, order: seq<Node>, ghost start: Labels, labels0: Labels, ghost before: nat)
      returns (labels: Labels, changes: nat)
    requires Symmetric(adj) && Within(adj, nodes) && Kept(nodes, adj, start, labels0, before) && labels0.Keys == nodes
    requires forall n | n in order :: n in nodes
    ensures Kept(nodes, adj, start, labels, before + changes) && labels.Keys == nodes
    ensures changes == 0 ==> labels == labels0 && Settled(adj, labels, Elements(order))
  {
    hide Plurality, Kept, Symmetric;
    labels, changes := labels0, 0;
    for i := 0 to |order|
      invariant Kept(nodes, adj, start, labels, before + changes)
      invariant labels.Keys == nodes
      invariant changes == 0 ==> labels == labels0
      invariant changes == 0 ==>
                  forall j | 0 <= j < i && Neighbours(adj, order[j]) != {} :: Plurality(adj, labels, order[j], labels[order[j]])
    {
      var node := order[i];
      if Neighbours(adj, node) == {} {
        continue;
      }
      var counts := CountLabels(adj, labels, node);
      ghost var m :| m in Neighbours(adj, node);
      SomeLabelVoted(adj, labels, node, m);
      var best := PickBest(counts);
      BestIsPlurality(adj, labels, node, counts, best);
      if labels[node] != best {
        KeptAfterChange(nodes, adj, start, labels, before + changes, node, best);
        labels := labels[node := best];
        changes := changes + 1;
      }
    }
  }

  /** `random.shuffle`: some permutation. */
  method Shuffle(items: seq<Node>) returns (r: seq<Node>)
    ensures multiset(r) == multiset(items)
  {
    r := [];
    var pool := items;
    while pool != []
      invariant multiset(r) + multiset(pool) == multiset(items)
      decreases |pool|
    {
      var i: nat :| i < |pool|;
      assert pool == pool[..i] + [pool[i]] + pool[i + 1..];
      r := r + [pool[i]];
      pool := pool[..i] + pool[i + 1..];
    }
  }

  /** The propagation loop. Whatever the shuffles, labels stay within their component, isolated nodes
      keep their own, stopping early means a fixpoint, and enough sweeps always do stop early. */
  method Propagate(degrees: map<Node, nat>, adj: Adjacency, connected0: seq<Node>, maxIterations: nat)
      returns (labels: Labels, converged: bool)
    requires Symmetric(adj) && Within(adj, degrees.Keys)
    requires forall n :: n in connected0 <==> n in degrees && degrees[n] > 0
    requires forall n | n in degrees && Neighbours(adj, n) != {} :: degrees[n] > 0
    ensures Labelling(degrees.Keys, labels) && Localised(adj, labels)
    ensures converged ==> Settled(adj, labels, degrees.Keys)
    ensures maxIterations > ChangeBound(degrees.Keys, adj) ==> converged
  {
    hide Kept, ChangeBound, Symmetric, Localised, Labelling;
    labels := map n | n in degrees :: n;
    ghost var start := labels;
    StartKept(degrees.Keys, adj, labels);
    ghost var total: nat := 0;
    converged := false;
    var connected := connected0;
    for iteration := 0 to maxIterations
      invariant Kept(degrees.Keys, adj, start, labels, total) && labels.Keys == degrees.Keys
      invariant !converged && iteration <= total
      invariant multiset(connected) == multiset(connected0)
    {
      connected := Shuffle(connected);
      SameMembers(connected, connected0);
      var changes;
      labels, changes := Sweep(degrees.Keys, adj, connected, start, labels, total);
      total := total + changes;
      if changes == 0 {
        converged := true;
        break;
      }
    }
    KeptBounds(degrees.Keys, adj, start, labels, total);
  }

  lemma StartKept(nodes: set<Node>, adj: Adjacency, labels: Labels)
    requires labels == map n | n in nodes :: n
    ensures Kept(nodes, adj, labels, labels, 0)
  {
    forall n | n in labels
      ensures SameComponent(adj, labels[n], n)
    {
      assert n in Ball(adj, n, 0);
    }
  }

  lemma KeptBounds(nodes: set<Node>, adj: Adjacency, start: Labels, labels: Labels, total: nat)
    requires Kept(nodes, adj, start, labels, total)
    ensures Labelling(nodes, labels) && Localised(adj, labels)
    ensures total <= ChangeBound(nodes, adj)
  {
    PotentialBounds(nodes, adj, start, labels);
  }

  // ---------------------------------------------------------------- community sizes

  ghost function Members(labels: Labels, c: Node): set<Node> {
    set n | n in labels && labels[n] == c
  }

  /** Each community has exactly its members, and together they are all the nodes. */
  method CommunitySizes(labels: Labels) returns (sizes: map<Node, nat>)
    ensures sizes.Keys == labels.Values
    ensures forall c | c in sizes :: sizes[c] == |Members(labels, c)| > 0
    ensures SizeTotal(sizes) == |labels|
  {
    hide SizeTotal, SizesOf;
    sizes := map[];
    NoSizes(labels);
    var todo := labels.Keys;
    ghost var done: set<Node> := {};
    while todo != {}
      invariant todo !! done && todo + done == labels.Keys
      invariant SizesOf(labels, done, sizes)
      invariant SizeTotal(sizes) == |done|
      decreases |todo|
    {
      var n :| n in todo;
      var c := labels[n];
      SizesGrow(sizes, c);
      SizesOneMore(labels, done, sizes, n);
      sizes := sizes[c := if c in sizes then sizes[c] + 1 else 1];
      todo, done := todo - {n}, done + {n};
    }
    assert done == labels.Keys;
    SizesAreMembers(labels, sizes);
  }

  ghost predicate SizesOf(labels: Labels, some: set<Node>, sizes: map<Node, nat>) {
    && (forall c :: c in sizes <==> Among(labels, some, c) != {})
    && forall c | c in sizes :: sizes[c] == |Among(labels, some, c)|
  }

  lemma SizesOneMore(labels: Labels, some: set<Node>, sizes: map<Node, nat>, n: Node)
    requires SizesOf(labels, some, sizes) && n !in some && n in labels
    ensures var c := labels[n];
            SizesOf(labels, some + {n}, sizes[c := if c in sizes then sizes[c] + 1 else 1])
  {
    AmongOneMore(labels, some, n);
  }

  lemma SizesAreMembers(labels: Labels, sizes: map<Node, nat>)
    requires SizesOf(labels, labels.Keys, sizes)
    ensures sizes.Keys == labels.Values
    ensures forall c | c in sizes :: sizes[c] == |Members(labels, c)| > 0
  {
    forall c
      ensures Among(labels, labels.Keys, c) == Members(labels, c)
      ensures c in labels.Values <==> c in sizes
    {
      if c in labels.Values {
        var n :| n in labels && labels[n] == c;
        assert n in Members(labels, c);
      }
    }
  }

  ghost function SizeTotal(sizes: map<Node, nat>): int {
    Sum(sizes.Keys, c => LookUp(sizes, c))
  }

  lemma NoSizes(labels: Labels)
    ensures SizeTotal(map[]) == 0 && SizesOf(labels, {}, map[])
  {
  }

  ghost function LookUp(sizes: map<Node, nat>, c: Node): nat {
    if c in sizes then sizes[c] else 0
  }

  lemma SizesGrow(sizes: map<Node, nat>, c: Node)
    ensures var sizes' := sizes[c := if c in sizes then sizes[c] + 1 else 1];
            SizeTotal(sizes') == SizeTotal(sizes) + 1
  {
    var sizes' := sizes[c := if c in sizes then sizes[c] + 1 else 1];
    SumPick(sizes'.Keys, d => LookUp(sizes', d), c);
    SumCongruent(sizes'.Keys - {c}, d => LookUp(sizes', d), d => LookUp(sizes, d));
    if c in sizes {
      SumPick(sizes.Keys, d => LookUp(sizes, d), c);
      assert sizes'.Keys == sizes.Keys;
    } else {
      assert sizes'.Keys - {c} == sizes.Keys;
    }
  }
}
