/** Local counts over the adjacency map: clustering coefficients, reciprocity and hub dependency. */
module GraphStatistics {
  import opened Collections
  import opened Sums
  import opened Graphs
  import Sorting

  /** `list(neighbors)`: the members in some order. */
  method Listing(items: set<Node>) returns (r: seq<Node>)
    ensures Distinct(r) && Elements(r) == items && |r| == |items|
  {
    r := [];
    var todo := items;
    while todo != {}
      invariant todo <= items && Elements(r) == items - todo && |r| + |todo| == |items|
      invariant Distinct(r)
      decreases |todo|
    {
      var x :| x in todo;
      assert x !in Elements(r);
      DistinctOneMore(r, x);
      r := r + [x];
      todo := todo - {x};
    }
  }

  lemma DistinctOneMore(r: seq<Node>, x: Node)
    ensures Elements(r + [x]) == Elements(r) + {x}
    ensures Elements([x] + r) == Elements(r) + {x}
  {
  }

  // ---------------------------------------------------------------- clustering

  /** Later members of the list that are linked to `n`. */
  ghost function LinkedLater(adj: Adjacency, n: Node, later: seq<Node>): nat {
    if later == [] then 0
    else LinkedLater(adj, n, later[..|later| - 1]) + if later[|later| - 1] in Neighbours(adj, n) then 1 else 0
  }

  /** Linked pairs `j < k` of the list. */
  ghost function LinkedPairs(adj: Adjacency, list: seq<Node>): nat {
    if list == [] then 0 else LinkedLater(adj, list[0], list[1..]) + LinkedPairs(adj, list[1..])
  }

  /** Other members of the set that `n` is linked to. */
  ghost function LinksInto(adj: Adjacency, group: set<Node>, n: Node): nat {
    |set m | m in group && m != n && m in Neighbours(adj, n)|
  }

  /** Ordered linked pairs of a set: no listing involved. */
  ghost function OrderedLinks(adj: Adjacency, group: set<Node>): int {
    Sum(group, n => LinksInto(adj, group, n))
  }

  ghost predicate Clique(adj: Adjacency, group: set<Node>) {
    forall a, b | a in group && b in group && a != b :: b in Neighbours(adj, a)
  }

  ghost function LinkedAmong(adj: Adjacency, n: Node, list: seq<Node>): set<Node> {
    set m | m in list && m in Neighbours(adj, n)
  }

  lemma LinkedOneMore(adj: Adjacency, n: Node, list: seq<Node>, x: Node)
    requires x !in list
    ensures |LinkedAmong(adj, n, list + [x])| == |LinkedAmong(adj, n, list)| + if x in Neighbours(adj, n) then 1 else 0
  {
    hide Neighbours;
    var before := LinkedAmong(adj, n, list);
    assert LinkedAmong(adj, n, list + [x]) == if x in Neighbours(adj, n) then before + {x} else before;
  }

  lemma {:induction false} LinkedLaterCounts(adj: Adjacency, n: Node, later: seq<Node>)
    requires Distinct(later)
    ensures LinkedLater(adj, n, later) == |LinkedAmong(adj, n, later)| <= |later|
    decreases |later|
  {
    if later == [] {
      assert LinkedAmong(adj, n, later) == {};
    } else {
      var init, last := later[..|later| - 1], later[|later| - 1];
      assert later == init + [last];
      LinkedLaterCounts(adj, n, init);
      LinkedOneMore(adj, n, init, last);
    }
  }

  /** Adding one node to a group adds its links in both directions. */
  lemma OrderedLinksGrow(adj: Adjacency, group: set<Node>, n: Node)
    requires Symmetric(adj) && n !in group
    ensures OrderedLinks(adj, group + {n}) == OrderedLinks(adj, group) + 2 * |set m | m in group && m in Neighbours(adj, n)|
  {
    hide Symmetric, LinksInto;
    var links := set m | m in group && m in Neighbours(adj, n);
    var before := m => LinksInto(adj, group, m);
    var after := m => LinksInto(adj, group + {n}, m);
    var extra := m => if m in links then 1 else 0;
    forall m | m in group
      ensures after(m) == before(m) + extra(m)
    {
      LinksIntoGrow(adj, group, n, m);
    }
    SumAdds(group, before, extra, after);
    SumRestrict(group, links, extra);
    SumConstant(links, extra, 1);
    SumPick(group + {n}, after, n);
    assert group + {n} - {n} == group;
    OwnLinks(adj, group, n);
  }

  lemma LinksIntoGrow(adj: Adjacency, group: set<Node>, n: Node, m: Node)
    requires Symmetric(adj) && n !in group && m in group
    ensures LinksInto(adj, group + {n}, m) == LinksInto(adj, group, m) + if m in Neighbours(adj, n) then 1 else 0
  {
    var before := set x | x in group && x != m && x in Neighbours(adj, m);
    assert (set x | x in group + {n} && x != m && x in Neighbours(adj, m)) ==
           if m in Neighbours(adj, n) then before + {n} else before;
  }

  lemma OwnLinks(adj: Adjacency, group: set<Node>, n: Node)
    requires n !in group
    ensures LinksInto(adj, group + {n}, n) == |set m | m in group && m in Neighbours(adj, n)|
  {
    assert (set x | x in group + {n} && x != n && x in Neighbours(adj, n)) ==
           (set m | m in group && m in Neighbours(adj, n));
  }

  /** The pairs found in any listing are half the ordered links of the set: order does not matter. */
  lemma {:induction false} PairsIgnoreOrder(adj: Adjacency, list: seq<Node>)
    requires Symmetric(adj) && Distinct(list)
    ensures 2 * LinkedPairs(adj, list) == OrderedLinks(adj, Elements(list))
    decreases |list|
  {
    if list == [] {
      assert Elements(list) == {};
    } else {
      var first, rest := list[0], list[1..];
      assert list == [first] + rest;
      assert first !in rest && Distinct(rest);
      hide Symmetric, Elements, Distinct, LinkedAmong, LinkedLater, OrderedLinks;
      PairsIgnoreOrder(adj, rest);
      LinkedLaterCounts(adj, first, rest);
      DistinctOneMore(rest, first);
      LinkedAmongSet(adj, first, rest);
      OrderedLinksGrow(adj, Elements(rest), first);
    }
  }

  lemma LinkedAmongSet(adj: Adjacency, n: Node, list: seq<Node>)
    ensures LinkedAmong(adj, n, list) == set m | m in Elements(list) && m in Neighbours(adj, n)
    ensures n in Elements(list) <==> n in list
  {
    hide Neighbours;
  }

  /** How many ordered pairs of different members a group of `k` has. */
  ghost function OrderedPairs(k: int): int {
    k * (k - 1)
  }

  /** At most `k * (k - 1) / 2` pairs are found, and that many exactly in a clique. */
  lemma {:induction false} PairsBounded(adj: Adjacency, list: seq<Node>)
    requires Symmetric(adj) && Distinct(list)
    ensures 2 * LinkedPairs(adj, list) <= OrderedPairs(|list|)
    ensures 2 * LinkedPairs(adj, list) == OrderedPairs(|list|) <==> Clique(adj, Elements(list))
    decreases |list|
  {
    hide Clique, Symmetric, OrderedPairs, Elements, LinkedAmong, LinkedLater;
    if list == [] {
      NoPairs(adj);
    } else {
      var first, rest := list[0], list[1..];
      assert list == [first] + rest;
      PairsBounded(adj, rest);
      LinkedLaterCounts(adj, first, rest);
      DistinctOneMore(rest, first);
      FullRow(adj, first, rest);
      CliqueGrows(adj, first, rest);
      RowsAdd(LinkedPairs(adj, rest), LinkedLater(adj, first, rest), |rest|);
    }
  }

  lemma NoPairs(adj: Adjacency)
    ensures Clique(adj, Elements([])) && OrderedPairs(0) == 0
  {
  }

  lemma CliqueGrows(adj: Adjacency, n: Node, list: seq<Node>)
    requires Symmetric(adj) && n !in list
    ensures Clique(adj, Elements(list) + {n}) <==> Clique(adj, Elements(list)) && forall m | m in list :: m in Neighbours(adj, n)
  {
    forall m | m in list
      ensures m in Elements(list) && (m in Neighbours(adj, n) <==> n in Neighbours(adj, m))
    {
    }
  }

  lemma RowsAdd(pairs: int, row: int, k: int)
    requires 2 * pairs <= OrderedPairs(k) && row <= k
    ensures 2 * (pairs + row) <= OrderedPairs(k + 1)
    ensures 2 * (pairs + row) == OrderedPairs(k + 1) <==> 2 * pairs == OrderedPairs(k) && row == k
  {
    assert (k + 1) * k == k * (k - 1) + 2 * k;
  }

  lemma FullRow(adj: Adjacency, n: Node, list: seq<Node>)
    requires Distinct(list)
    ensures |LinkedAmong(adj, n, list)| == |list| <==> forall m | m in list :: m in Neighbours(adj, n)
  {
    DistinctCount(list);
    var linked := LinkedAmong(adj, n, list);
    if m :| m in list && m !in Neighbours(adj, n) {
      assert m in Elements(list);
      assert linked + (Elements(list) - linked) == Elements(list);
      assert m in Elements(list) - linked;
    } else {
      assert linked == Elements(list);
    }
  }

  /** The coefficient of one node with at least two neighbours. */
  ghost function Coefficient(adj: Adjacency, n: Node): real
    requires |Neighbours(adj, n)| >= 2
  {
    var k := |Neighbours(adj, n)|;
    OrderedLinks(adj, Neighbours(adj, n)) as real / (k * (k - 1)) as real
  }

  ghost function Coefficients(adj: Adjacency, sample: seq<Node>): seq<real> {
    if sample == [] then []
    else
      var n := sample[|sample| - 1];
      Coefficients(adj, sample[..|sample| - 1]) + if |Neighbours(adj, n)| < 2 then [] else [Coefficient(adj, n)]
  }

  /** `edges_between` over one listing of the neighbours. */
  method CountPairs(adj: Adjacency, list: seq<Node>) returns (found: nat)
    ensures found == LinkedPairs(adj, list)
  {
    found := 0;
    assert list[|list|..] == [];
    for j := |list| downto 0
      invariant found == LinkedPairs(adj, list[j..])
    {
      var row := 0;
      assert list[j + 1..][..0] == [];
      for k := j + 1 to |list|
        invariant row == LinkedLater(adj, list[j], list[j + 1..][..k - j - 1])
      {
        assert list[j + 1..][..k - j][..k - j - 1] == list[j + 1..][..k - j - 1];
        if list[k] in Neighbours(adj, list[j]) {
          row := row + 1;
        }
      }
      assert list[j + 1..][..|list| - j - 1] == list[j + 1..];
      assert list[j..][0] == list[j] && list[j..][1..] == list[j + 1..];
      found := found + row;
    }
    assert list[0..] == list;
  }

  /** The sampled coefficients, whatever order each neighbour set is listed in. */
  method ComputeClustering(adj: Adjacency, sample: seq<Node>) returns (coefficients: seq<real>)
    requires Symmetric(adj)
    ensures coefficients == Coefficients(adj, sample)
  {
    hide Symmetric, LinkedPairs, OrderedLinks;
    coefficients := [];
    for i := 0 to |sample|
      invariant coefficients == Coefficients(adj, sample[..i])
    {
      assert sample[..i + 1][..i] == sample[..i];
      var list := Listing(Neighbours(adj, sample[i]));
      var k := |list|;
      if k >= 2 {
        var found := CountPairs(adj, list);
        PairsIgnoreOrder(adj, list);
        Halves(found, k);
        coefficients := coefficients + [found as real / (k * (k - 1) / 2) as real];
      }
    }
    assert sample[..|sample|] == sample;
  }

  lemma Halves(found: nat, k: nat)
    requires k >= 2
    ensures k * (k - 1) / 2 > 0 && k * (k - 1) > 0
    ensures found as real / (k * (k - 1) / 2) as real == (2 * found) as real / (k * (k - 1)) as real
  {
    EvenProduct(k);
    var p := k * (k - 1) / 2;
    assert 2 * p == k * (k - 1);
    assert (2 * found) as real / (2 * p) as real == found as real / p as real;
  }

  lemma {:induction false} EvenProduct(k: nat)
    requires k >= 1
    ensures k * (k - 1) % 2 == 0
    ensures k >= 2 ==> k * (k - 1) >= 2
    decreases k
  {
    if k > 1 {
      EvenProduct(k - 1);
      assert k * (k - 1) == (k - 1) * (k - 2) + 2 * (k - 1);
    }
  }

  /** Coefficients lie between 0 and 1, and are 1 exactly when all neighbours know each other. */
  lemma CoefficientRange(adj: Adjacency, n: Node, list: seq<Node>)
    requires Symmetric(adj) && |Neighbours(adj, n)| >= 2
    requires Distinct(list) && Elements(list) == Neighbours(adj, n)
    ensures 0.0 <= Coefficient(adj, n) <= 1.0
    ensures Coefficient(adj, n) == 1.0 <==> Clique(adj, Neighbours(adj, n))
  {
    hide Symmetric, Clique, LinkedPairs, OrderedLinks, Distinct;
    var k := |Neighbours(adj, n)|;
    DistinctCount(list);
    PairsIgnoreOrder(adj, list);
    PairsBounded(adj, list);
    EvenProduct(k);
    RatioRange(2 * LinkedPairs(adj, list), k * (k - 1));
  }

  lemma RatioRange(a: int, b: int)
    requires 0 <= a <= b && b > 0
    ensures 0.0 <= a as real / b as real <= 1.0
    ensures a as real / b as real == 1.0 <==> a == b
  {
    var q := a as real / b as real;
    assert q * b as real == a as real;
  }

  // ---------------------------------------------------------------- reciprocity

  /** `compute_reciprocity` over the first sampled nodes: on a symmetric map every checked neighbour
      is reciprocal, so the score only tells whether anything was checked. */
  method ComputeReciprocity(adj: Adjacency, sampled: seq<Node>) returns (score: real, checked: nat, reciprocal: nat)
    requires Symmetric(adj)
    ensures reciprocal == checked
    ensures checked == 0 <==> forall n | n in sampled :: Neighbours(adj, n) == {}
    ensures score == if exists n | n in sampled :: Neighbours(adj, n) != {} then 1.0 else 0.0
  {
    checked, reciprocal := 0, 0;
    for i := 0 to |sampled|
      invariant reciprocal == checked
      invariant checked == 0 <==> forall n | n in sampled[..i] :: Neighbours(adj, n) == {}
    {
      var todo := Neighbours(adj, sampled[i]);
      ghost var before := checked;
      while todo != {}
        invariant todo <= Neighbours(adj, sampled[i])
        invariant reciprocal == checked >= before
        invariant checked == before <==> todo == Neighbours(adj, sampled[i])
      {
        var neighbour :| neighbour in todo;
        checked := checked + 1;
        if sampled[i] in Neighbours(adj, neighbour) {
          reciprocal := reciprocal + 1;
        }
        todo := todo - {neighbour};
      }
      assert sampled[..i + 1] == sampled[..i] + [sampled[i]];
    }
    assert sampled[..|sampled|] == sampled;
    var atLeastOne := if checked > 1 then checked else 1;
    score := reciprocal as real / atLeastOne as real;
    RatioRange(reciprocal, atLeastOne);
  }

  // ---------------------------------------------------------------- hub dependency

  datatype Resilience = Fragile | Moderate | Robust

  const HUBS := 5

  function RankKey(degrees: map<Node, nat>, n: Node): int {
    0 - Degree(degrees, n)
  }

  /** The first five of a stable ranking by degree, the largest first. */
  function TopHubs(degrees: map<Node, nat>, order: seq<Node>): set<Node> {
    var ranked := Sorting.SortBy(order, (n: Node) => RankKey(degrees, n));
    Elements(if |ranked| <= HUBS then ranked else ranked[..HUBS])
  }

  /** However the degree map is ordered, the hubs are five nodes, or all of them, that no other node
      exceeds in degree. */
  lemma HubsAreLargest(degrees: map<Node, nat>, order: seq<Node>)
    requires Distinct(order) && Elements(order) == degrees.Keys
    ensures var hubs := TopHubs(degrees, order);
            && hubs <= degrees.Keys && |hubs| == (if |degrees| <= 5 then |degrees| else 5)
            && forall h, n | h in hubs && n in degrees && n !in hubs :: Degree(degrees, n) <= Degree(degrees, h)
  {
    var key := (n: Node) => RankKey(degrees, n);
    var ranked := Sorting.SortBy(order, key);
    Sorting.SortFacts(order, key);
    SamePermutation(ranked, order);
    var top := if |ranked| <= HUBS then ranked else ranked[..HUBS];
    assert top == ranked[..|top|] && Distinct(top);
    DistinctCount(order);
    DistinctCount(top);
    assert |multiset(ranked)| == |multiset(order)|;
    FirstAreSmallest(ranked, key, |top|);
    hide Distinct, Degree;
    forall h, n | h in Elements(top) && n in degrees && n !in Elements(top)
      ensures Degree(degrees, n) <= Degree(degrees, h)
    {
      assert n in Elements(order);
      assert n in ranked && key(h) <= key(n);
    }
  }

  lemma FirstAreSmallest(ranked: seq<Node>, key: Node -> int, k: nat)
    requires Sorting.Ascending(ranked, key) && k <= |ranked|
    ensures forall h, n | h in ranked[..k] && n in ranked && n !in ranked[..k] :: key(h) <= key(n)
  {
    forall h, n | h in ranked[..k] && n in ranked && n !in ranked[..k]
      ensures key(h) <= key(n)
    {
      var i :| 0 <= i < k && ranked[..k][i] == h;
      assert ranked == ranked[..k] + ranked[k..];
      var j :| 0 <= j < |ranked| - k && ranked[k..][j] == n;
      assert ranked[i] == h && ranked[k + j] == n;
    }
  }

  lemma SamePermutation(a: seq<Node>, b: seq<Node>)
    requires multiset(a) == multiset(b) && Distinct(b)
    ensures Distinct(a) && forall n :: n in a <==> n in b
  {
    forall n: Node
      ensures n in a <==> n in b
      ensures multiset(a)[n] <= 1
    {
      assert n in multiset(a) <==> n in multiset(b);
      OnceAtMost(b, n);
    }
    forall i, j | 0 <= i < j < |a|
      ensures a[i] != a[j]
    {
      TwiceIfRepeated(a, i, j);
    }
  }

  lemma {:induction false} OnceAtMost(s: seq<Node>, n: Node)
    requires Distinct(s)
    ensures multiset(s)[n] <= 1
    decreases |s|
  {
    if s != [] {
      var init, last := s[..|s| - 1], s[|s| - 1];
      assert s == init + [last];
      OnceAtMost(init, n);
    }
  }

  lemma TwiceIfRepeated(s: seq<Node>, i: nat, j: nat)
    requires i < j < |s|
    ensures s[i] == s[j] ==> multiset(s)[s[i]] >= 2
  {
    assert s == s[..j] + [s[j]] + s[j + 1..];
    assert s[i] in s[..j];
  }

  /** Entries of the adjacency map that touch a hub. */
  ghost function HubEntries(adj: Adjacency, hubs: set<Node>, n: Node): nat {
    if n in hubs then |Neighbours(adj, n)| else |Neighbours(adj, n) * hubs|
  }

  ghost function HubSum(adj: Adjacency, hubs: set<Node>, nodes: set<Node>): int {
    Sum(nodes, n => HubEntries(adj, hubs, n))
  }

  lemma HubSumEmpty(adj: Adjacency, hubs: set<Node>)
    ensures HubSum(adj, hubs, {}) == 0
  {
  }

  lemma HubSumGrows(adj: Adjacency, hubs: set<Node>, done: set<Node>, n: Node)
    requires n !in done
    ensures HubSum(adj, hubs, done + {n}) == HubSum(adj, hubs, done) + HubEntries(adj, hubs, n)
  {
    SumPick(done + {n}, m => HubEntries(adj, hubs, m), n);
    assert done + {n} - {n} == done;
  }

  lemma HubEntriesWithinDegree(adj: Adjacency, hubs: set<Node>, n: Node)
    ensures HubEntries(adj, hubs, n) <= |Neighbours(adj, n)|
  {
    assert Neighbours(adj, n) == Neighbours(adj, n) * hubs + (Neighbours(adj, n) - hubs);
  }

  /** Hub-touching edges, counted from both ends and halved, never outnumber the edge rows. */
  lemma HubEdgesWithinTotal(data: GraphData, rows: seq<Edge>, hubs: set<Node>)
    requires Loaded(data, rows)
    ensures 0 <= HubSum(data.adjacency, hubs, data.adjacency.Keys) <= 2 * data.totalEdges
  {
    var adj, nodes := data.adjacency, data.degrees.Keys;
    var entries := n => HubEntries(adj, hubs, n);
    forall n | n in nodes
      ensures entries(n) <= Degree(data.degrees, n)
    {
      HubEntriesWithinDegree(adj, hubs, n);
      assert Neighbours(adj, n) == AdjacentIn(rows, n);
      NeighboursWithinDegree(rows, n);
    }
    SumRestrict(nodes, adj.Keys, entries);
    SumMonotone(nodes, entries, n => Degree(data.degrees, n));
    SumConstant(nodes, n => 0, 0);
    SumMonotone(nodes, n => 0, entries);
    Handshake(data, rows);
  }

  /** `compute_resilience`; `order` is the order in which the degree map lists the nodes. */
  method ComputeResilience(data: GraphData, order: seq<Node>, ghost rows: seq<Edge>)
      returns (hubDependency: real, resilience: Resilience)
    requires Loaded(data, rows) && Distinct(order) && Elements(order) == data.degrees.Keys
    ensures var hubs := TopHubs(data.degrees, order);
            var halved := HubSum(data.adjacency, hubs, data.adjacency.Keys) / 2;
            && hubDependency == halved as real / (if data.totalEdges > 1 then data.totalEdges else 1) as real
            && 0.0 <= hubDependency <= 1.0
    ensures resilience == if hubDependency > 0.5 then Fragile else if hubDependency > 0.25 then Moderate else Robust
  {
    hide Loaded, HubEntries, Sum, TopHubs;
    var hubs := TopHubs(data.degrees, order);
    var adj := data.adjacency;
    var through := 0;
    var todo := adj.Keys;
    ghost var done: set<Node> := {};
    HubSumEmpty(adj, hubs);
    while todo != {}
      invariant todo !! done && todo + done == adj.Keys
      invariant through == HubSum(adj, hubs, done)
      decreases |todo|
    {
      var node :| node in todo;
      var row := CountHubEntries(adj, hubs, node);
      HubSumGrows(adj, hubs, done, node);
      through := through + row;
      todo, done := todo - {node}, done + {node};
    }
    assert done == adj.Keys;
    HubEdgesWithinTotal(data, rows, hubs);
    var atLeastOne := if data.totalEdges > 1 then data.totalEdges else 1;
    hubDependency := (through / 2) as real / atLeastOne as real;
    RatioRange(through / 2, atLeastOne);
    resilience := if hubDependency > 0.5 then Fragile else if hubDependency > 0.25 then Moderate else Robust;
  }

  lemma OneMoreHub(done: set<Node>, n: Node, hubs: set<Node>)
    requires n !in done
    ensures |done + {n}| == |done| + 1
    ensures |(done + {n}) * hubs| == |done * hubs| + if n in hubs then 1 else 0
  {
    assert (done + {n}) * hubs == if n in hubs then done * hubs + {n} else done * hubs;
  }

  method CountHubEntries(adj: Adjacency, hubs: set<Node>, node: Node) returns (row: nat)
    ensures row == HubEntries(adj, hubs, node)
  {
    hide Neighbours;
    row := 0;
    var todo := Neighbours(adj, node);
    ghost var done: set<Node> := {};
    while todo != {}
      invariant todo !! done && todo + done == Neighbours(adj, node)
      invariant row == if node in hubs then |done| else |done * hubs|
      decreases |todo|
    {
      var neighbour :| neighbour in todo;
      OneMoreHub(done, neighbour, hubs);
      if node in hubs || neighbour in hubs {
        row := row + 1;
      }
      todo, done := todo - {neighbour}, done + {neighbour};
    }
    assert done == Neighbours(adj, node);
  }

  // ---------------------------------------------------------------- what the counts are

  /** The links among the members of a group, from both ends. */
  ghost function LinksWithin(adj: Adjacency, group: set<Node>): set<(Node, Node)> {
    set a, b | a in group && b in group && a != b && b in Neighbours(adj, a) :: (a, b)
  }

  function LinkedTo(adj: Adjacency, group: set<Node>, a: Node): set<Node> {
    set b | b in group && b != a && b in Neighbours(adj, a)
  }

  lemma OrderedLinksCount(adj: Adjacency, group: set<Node>)
    ensures OrderedLinks(adj, group) == |LinksWithin(adj, group)|
  {
    var linked := a => LinkedTo(adj, group, a);
    forall a | a in group
      ensures LinksInto(adj, group, a) == |linked(a)|
    {
      assert linked(a) == set b | b in group && b != a && b in Neighbours(adj, a);
    }
    PairsCount(group, linked, n => LinksInto(adj, group, n));
    assert LinksWithin(adj, group) == Pairs(group, linked);
  }

  /** A coefficient is the share of the ordered pairs of different neighbours that are linked. */
  lemma CoefficientCounts(adj: Adjacency, n: Node)
    requires |Neighbours(adj, n)| >= 2
    ensures var k := |Neighbours(adj, n)|;
            k * (k - 1) > 0 && Coefficient(adj, n) == |LinksWithin(adj, Neighbours(adj, n))| as real / (k * (k - 1)) as real
  {
    EvenProduct(|Neighbours(adj, n)|);
    OrderedLinksCount(adj, Neighbours(adj, n));
  }

  /** The sampled nodes with two neighbours or more, in order. */
  ghost function Eligible(adj: Adjacency, sample: seq<Node>): seq<Node> {
    Sorting.Select(sample, n => if |Neighbours(adj, n)| >= 2 then 1 else 0, 1)
  }

  /** There is one coefficient for each of them, in order, and none for any other node. */
  lemma {:induction false} CoefficientsCover(adj: Adjacency, sample: seq<Node>)
    ensures |Coefficients(adj, sample)| == |Eligible(adj, sample)|
    ensures forall i | 0 <= i < |Eligible(adj, sample)| ::
              |Neighbours(adj, Eligible(adj, sample)[i])| >= 2 && Coefficients(adj, sample)[i] == Coefficient(adj, Eligible(adj, sample)[i])
    decreases |sample|
  {
    hide Neighbours, Coefficient;
    if sample != [] {
      CoefficientsCover(adj, sample[..|sample| - 1]);
    }
  }

  /** The entries of the adjacency map of which one end is a hub. */
  ghost function ThroughHubs(adj: Adjacency, hubs: set<Node>): set<(Node, Node)> {
    set n, m | n in adj && m in Neighbours(adj, n) && (n in hubs || m in hubs) :: (n, m)
  }

  function Touching(adj: Adjacency, hubs: set<Node>, n: Node): set<Node> {
    set m | m in Neighbours(adj, n) && (n in hubs || m in hubs)
  }

  lemma TouchingIs(adj: Adjacency, hubs: set<Node>, n: Node)
    ensures HubEntries(adj, hubs, n) == |Touching(adj, hubs, n)|
  {
    hide Neighbours;
    assert Touching(adj, hubs, n) == if n in hubs then Neighbours(adj, n) else Neighbours(adj, n) * hubs;
  }

  lemma HubSumCounts(adj: Adjacency, hubs: set<Node>)
    ensures HubSum(adj, hubs, adj.Keys) == |ThroughHubs(adj, hubs)|
  {
    var touching := n => Touching(adj, hubs, n);
    assert ThroughHubs(adj, hubs) == Pairs(adj.Keys, touching);
    hide HubEntries, Touching, ThroughHubs, Pairs, Neighbours;
    forall n | n in adj.Keys
      ensures HubEntries(adj, hubs, n) == |touching(n)|
    {
      TouchingIs(adj, hubs, n);
    }
    PairsCount(adj.Keys, touching, n => HubEntries(adj, hubs, n));
  }
}
