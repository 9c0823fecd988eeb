/** The type imbalance score of the schema metrics: a Gini coefficient of the label counts. */
module TypeImbalance {
  import opened Sorting

  ghost function TotalOf(v: seq<nat>): nat {
    if v == [] then 0 else TotalOf(v[..|v| - 1]) + v[|v| - 1]
  }

  /** `sum((2 * (i + 1) - n - 1) * v for i, v in enumerate(values))` */
  ghost function Weighted(v: seq<nat>, n: int): int {
    if v == [] then 0 else Weighted(v[..|v| - 1], n) + (2 * |v| - n - 1) * v[|v| - 1]
  }

  /** The sum of `x - y` over the members `y` of `v`. */
  ghost function Gaps(x: int, v: seq<nat>): int {
    if v == [] then 0 else Gaps(x, v[..|v| - 1]) + (x - v[|v| - 1])
  }

  /** The sum of `v[j] - v[i]` over all pairs `i < j`. */
  ghost function PairGaps(v: seq<nat>): int {
    if v == [] then 0 else PairGaps(v[..|v| - 1]) + Gaps(v[|v| - 1], v[..|v| - 1])
  }

  lemma {:induction false} GapsClosed(x: int, v: seq<nat>)
    ensures Gaps(x, v) == |v| * x - TotalOf(v)
    decreases |v|
  {
    if v != [] {
      GapsClosed(x, v[..|v| - 1]);
    }
  }

  lemma {:induction false} WeightedShift(v: seq<nat>, n: int)
    ensures Weighted(v, n) == Weighted(v, n - 1) - TotalOf(v)
    decreases |v|
  {
    if v != [] {
      WeightedShift(v[..|v| - 1], n);
      var c, last := 2 * |v| - n - 1, v[|v| - 1];
      assert (c + 1) * last == c * last + last;
    }
  }

  /** The weighted sum of the script is the sum of all pairwise gaps. */
  lemma {:induction false} WeightedIsPairGaps(v: seq<nat>)
    ensures Weighted(v, |v|) == PairGaps(v)
    decreases |v|
  {
    if v != [] {
      var init, last := v[..|v| - 1], v[|v| - 1];
      WeightedIsPairGaps(init);
      WeightedShift(init, |v|);
      GapsClosed(last, init);
      assert (2 * |v| - |v| - 1) * last == |init| * last;
    }
  }

  ghost predicate AllEqual(v: seq<nat>) {
    forall i, j | 0 <= i < j < |v| :: v[i] == v[j]
  }

  lemma {:induction false} GapsSign(x: int, v: seq<nat>)
    requires forall i | 0 <= i < |v| :: v[i] <= x
    ensures Gaps(x, v) >= 0
    ensures Gaps(x, v) == 0 <==> forall i | 0 <= i < |v| :: v[i] == x
    decreases |v|
  {
    if v != [] {
      GapsSign(x, v[..|v| - 1]);
    }
  }

  lemma {:induction false} PairGapsSign(v: seq<nat>)
    requires Ascending(v, (x: nat) => x)
    ensures PairGaps(v) >= 0
    ensures PairGaps(v) == 0 <==> AllEqual(v)
    decreases |v|
  {
    if v != [] {
      var init, last := v[..|v| - 1], v[|v| - 1];
      assert Ascending(init, (x: nat) => x);
      PairGapsSign(init);
      GapsSign(last, init);
    }
  }

  lemma {:induction false} PairGapsUpper(v: seq<nat>)
    requires v != []
    ensures PairGaps(v) <= (|v| - 1) * TotalOf(v)
    ensures PairGaps(v) == (|v| - 1) * TotalOf(v) <==> forall i | 0 <= i < |v| - 1 :: v[i] == 0
    decreases |v|
  {
    var init, last := v[..|v| - 1], v[|v| - 1];
    GapsClosed(last, init);
    var n, t := |v|, TotalOf(init);
    assert TotalOf(v) == t + last;
    assert (n - 1) * (t + last) == (n - 1) * t + (n - 1) * last;
    TotalZero(init);
    if init != [] {
      PairGapsUpper(init);
      assert (n - 1) * t == (n - 2) * t + t;
    }
  }

  lemma {:induction false} TotalZero(v: seq<nat>)
    ensures TotalOf(v) == 0 <==> forall i | 0 <= i < |v| :: v[i] == 0
    decreases |v|
  {
    if v != [] {
      TotalZero(v[..|v| - 1]);
    }
  }

  /** `compute_schema_quality`: the imbalance of the label counts. */
  ghost function Gini(counts: seq<nat>): real {
    var values := SortBy(counts, (x: nat) => x);
    if values == [] || TotalOf(values) == 0 then 0.0
    else Weighted(values, |values|) as real / (|values| * TotalOf(values)) as real
  }

  lemma AllEqualSorted(counts: seq<nat>)
    ensures AllEqual(SortBy(counts, (x: nat) => x)) <==> AllEqual(counts)
  {
    var values := SortBy(counts, (x: nat) => x);
    SortFacts(counts, (x: nat) => x);
    AllEqualIsOneValue(values);
    AllEqualIsOneValue(counts);
    assert forall x :: x in values <==> x in multiset(values);
    assert forall x :: x in counts <==> x in multiset(counts);
  }

  lemma AllEqualIsOneValue(v: seq<nat>)
    ensures AllEqual(v) <==> forall x, y | x in v && y in v :: x == y
  {
    assert forall i | 0 <= i < |v| :: v[i] in v;
  }

  lemma Quotient(a: int, b: int, c: int)
    requires 0 <= a <= (b - 1) * c && b > 0 && c > 0
    ensures b * c > 0
    ensures 0.0 <= a as real / (b * c) as real <= (b - 1) as real / b as real
    ensures a as real / (b * c) as real == 0.0 <==> a == 0
  {
    Positive(b, c);
    ShareOf(a as real, (b * c) as real);
    NoLarger(a as real, ((b - 1) * c) as real, (b * c) as real);
    Cancels(b - 1, b, c);
  }

  lemma Positive(b: int, c: int)
    requires b > 0 && c > 0
    ensures b * c > 0
  {
  }

  lemma ShareOf(x: real, d: real)
    requires x >= 0.0 && d > 0.0
    ensures x / d >= 0.0 && (x / d == 0.0 <==> x == 0.0)
  {
  }

  lemma NoLarger(x: real, y: real, d: real)
    requires x <= y && d > 0.0
    ensures x / d <= y / d
  {
  }

  lemma Cancels(p: int, b: int, c: int)
    requires b > 0 && c > 0 && b * c > 0
    ensures (p * c) as real / (b * c) as real == p as real / b as real
  {
    var x, y, z := p as real, b as real, c as real;
    assert (p * c) as real == x * z && (b * c) as real == y * z;
    CancelsReal(x, y, z);
  }

  lemma CancelsReal(x: real, y: real, z: real)
    requires y > 0.0 && z > 0.0 && y * z > 0.0
    ensures (x * z) / (y * z) == x / y
  {
    var q := x / y;
    assert q * y == x;
    Regrouped(q, y, z);
    Undone(q, y * z);
  }

  lemma Regrouped(q: real, y: real, z: real)
    ensures (q * y) * z == q * (y * z)
  {
  }

  lemma Undone(q: real, d: real)
    requires d > 0.0
    ensures (q * d) / d == q
  {
  }

  /** The score lies between 0 and (n-1)/n, and is 0 exactly when no label count differs. */
  lemma GiniRange(counts: seq<nat>)
    requires counts != []
    ensures 0.0 <= Gini(counts) <= (|counts| - 1) as real / |counts| as real
    ensures Gini(counts) == 0.0 <==> AllEqual(counts)
  {
    hide SortBy, Weighted, PairGaps, TotalOf, AllEqual, Ascending;
    var values := SortBy(counts, (x: nat) => x);
    SortFacts(counts, (x: nat) => x);
    assert |values| == |multiset(values)| == |counts|;
    AllEqualSorted(counts);
    WeightedIsPairGaps(values);
    PairGapsSign(values);
    PairGapsUpper(values);
    if TotalOf(values) > 0 {
      Quotient(PairGaps(values), |values|, TotalOf(values));
    } else {
      NothingCounted(values);
    }
  }

  lemma NothingCounted(v: seq<nat>)
    requires TotalOf(v) == 0
    ensures AllEqual(v)
  {
    TotalZero(v);
  }

  // ---------------------------------------------------------------- what the score is

  function Gap(x: int, y: int): nat {
    if x >= y then x - y else y - x
  }

  /** How far the members of `v` are from `x`, summed. */
  ghost function Distances(x: int, v: seq<nat>): nat {
    if v == [] then 0 else Distances(x, v[..|v| - 1]) + Gap(x, v[|v| - 1])
  }

  /** How far apart the members are, summed over all pairs, in whatever order they stand. */
  ghost function PairDistances(v: seq<nat>): nat {
    if v == [] then 0 else PairDistances(v[..|v| - 1]) + Distances(v[|v| - 1], v[..|v| - 1])
  }

  lemma Snoc(v: seq<nat>, x: nat)
    ensures TotalOf(v + [x]) == TotalOf(v) + x
    ensures forall y :: Distances(y, v + [x]) == Distances(y, v) + Gap(y, x)
    ensures PairDistances(v + [x]) == PairDistances(v) + Distances(x, v)
  {
    assert (v + [x])[..|v|] == v;
  }

  lemma {:induction false} InsertAdds(v: seq<nat>, x: nat, y: int)
    ensures TotalOf(Insert(v, x, (n: nat) => n)) == TotalOf(v) + x
    ensures Distances(y, Insert(v, x, (n: nat) => n)) == Distances(y, v) + Gap(y, x)
    decreases |v|
  {
    if v == [] || v[|v| - 1] <= x {
      Snoc(v, x);
    } else {
      var init, last := v[..|v| - 1], v[|v| - 1];
      InsertAdds(init, x, y);
      Snoc(Insert(init, x, (n: nat) => n), last);
      Snoc(init, last);
    }
  }

  lemma {:induction false} InsertKeepsDistances(v: seq<nat>, x: nat)
    ensures PairDistances(Insert(v, x, (n: nat) => n)) == PairDistances(v) + Distances(x, v)
    decreases |v|
  {
    if v == [] || v[|v| - 1] <= x {
      Snoc(v, x);
    } else {
      var init, last := v[..|v| - 1], v[|v| - 1];
      InsertKeepsDistances(init, x);
      InsertAdds(init, x, last);
      Snoc(Insert(init, x, (n: nat) => n), last);
      Snoc(init, last);
    }
  }

  lemma {:induction false} SortKeepsSums(v: seq<nat>)
    ensures TotalOf(SortBy(v, (n: nat) => n)) == TotalOf(v) && PairDistances(SortBy(v, (n: nat) => n)) == PairDistances(v)
    decreases |v|
  {
    if v != [] {
      var init, last := v[..|v| - 1], v[|v| - 1];
      SortKeepsSums(init);
      InsertAdds(SortBy(init, (n: nat) => n), last, 0);
      InsertKeepsDistances(SortBy(init, (n: nat) => n), last);
      SortKeepsDistances(init, last);
    }
  }

  lemma {:induction false} SortKeepsDistances(v: seq<nat>, x: int)
    ensures Distances(x, SortBy(v, (n: nat) => n)) == Distances(x, v)
    decreases |v|
  {
    if v != [] {
      SortKeepsDistances(v[..|v| - 1], x);
      InsertAdds(SortBy(v[..|v| - 1], (n: nat) => n), v[|v| - 1], x);
    }
  }

  lemma {:induction false} AscendingDistances(v: seq<nat>, x: int)
    requires forall i | 0 <= i < |v| :: v[i] <= x
    ensures Distances(x, v) == Gaps(x, v)
    decreases |v|
  {
    if v != [] {
      AscendingDistances(v[..|v| - 1], x);
    }
  }

  lemma {:induction false} AscendingPairs(v: seq<nat>)
    requires Ascending(v, (n: nat) => n)
    ensures PairDistances(v) == PairGaps(v)
    decreases |v|
  {
    if v != [] {
      var init, last := v[..|v| - 1], v[|v| - 1];
      assert Ascending(init, (n: nat) => n);
      AscendingPairs(init);
      AscendingDistances(init, last);
    }
  }

  /** The score is the sum of the distances between any two counts over their number times their total: no sorting
      involved. */
  lemma GiniIsMeanDistance(counts: seq<nat>)
    ensures TotalOf(counts) > 0 ==> |counts| * TotalOf(counts) > 0
                                    && Gini(counts) == PairDistances(counts) as real / (|counts| * TotalOf(counts)) as real
    ensures TotalOf(counts) == 0 ==> Gini(counts) == 0.0
  {
    var values := SortBy(counts, (n: nat) => n);
    SortFacts(counts, (n: nat) => n);
    assert |values| == |multiset(values)| == |counts|;
    SortKeepsSums(counts);
    WeightedIsPairGaps(values);
    AscendingPairs(values);
    if TotalOf(counts) > 0 {
      Positive(|counts|, TotalOf(counts));
    }
  }
}
