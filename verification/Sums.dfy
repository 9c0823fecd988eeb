/** Sums of integers and of reals over finite sets of node ids, with the few laws the graph
    metrics need: taking one element out, comparing term by term and adding termwise. */
module Sums {

  ghost function Sum<T>(s: set<T>, f: T -> int): int
  {
    if s == {} then 0 else var x :| x in s; f(x) + Sum(s - {x}, f)
  }

  lemma {:induction false} SumPick<T>(s: set<T>, f: T -> int, x: T)
    requires x in s
    ensures Sum(s, f) == f(x) + Sum(s - {x}, f)
    decreases |s|
  {
    var y :| y in s && Sum(s, f) == f(y) + Sum(s - {y}, f);
    if y != x {
      SumPick(s - {y}, f, x);
      SumPick(s - {x}, f, y);
      assert s - {y} - {x} == s - {x} - {y};
    }
  }

  lemma {:induction false} SumMonotone<T>(s: set<T>, f: T -> int, g: T -> int)
    requires forall x | x in s :: f(x) <= g(x)
    ensures Sum(s, f) <= Sum(s, g)
    decreases |s|
  {
    if s != {} {
      var x :| x in s;
      SumPick(s, f, x);
      SumPick(s, g, x);
      SumMonotone(s - {x}, f, g);
    }
  }

  lemma SumCongruent<T>(s: set<T>, f: T -> int, g: T -> int)
    requires forall x | x in s :: f(x) == g(x)
    ensures Sum(s, f) == Sum(s, g)
  {
    SumMonotone(s, f, g);
    SumMonotone(s, g, f);
  }

  lemma {:induction false} SumAdds<T>(s: set<T>, f: T -> int, g: T -> int, h: T -> int)
    requires forall x | x in s :: h(x) == f(x) + g(x)
    ensures Sum(s, h) == Sum(s, f) + Sum(s, g)
    decreases |s|
  {
    if s != {} {
      var x :| x in s;
      SumPick(s, f, x);
      SumPick(s, g, x);
      SumPick(s, h, x);
      SumAdds(s - {x}, f, g, h);
    }
  }

  lemma {:induction false} SumConstant<T>(s: set<T>, f: T -> int, c: int)
    requires forall x | x in s :: f(x) == c
    ensures Sum(s, f) == c * |s|
    decreases |s|
  {
    if s != {} {
      var x :| x in s;
      SumPick(s, f, x);
      SumConstant(s - {x}, f, c);
    }
  }

  /** Terms outside `t` that vanish can be dropped from the range of summation. */
  lemma {:induction false} SumRestrict<T>(s: set<T>, t: set<T>, f: T -> int)
    requires t <= s
    requires forall x | x in s - t :: f(x) == 0
    ensures Sum(s, f) == Sum(t, f)
    decreases |s|
  {
    if x :| x in s && x !in t {
      SumPick(s, f, x);
      SumRestrict(s - {x}, t, f);
    } else {
      assert s == t;
    }
  }

  ghost function RealSum<T>(s: set<T>, f: T -> real): real
  {
    if s == {} then 0.0 else var x :| x in s; f(x) + RealSum(s - {x}, f)
  }

  lemma {:induction false} RealSumPick<T>(s: set<T>, f: T -> real, x: T)
    requires x in s
    ensures RealSum(s, f) == f(x) + RealSum(s - {x}, f)
    decreases |s|
  {
    var y :| y in s && RealSum(s, f) == f(y) + RealSum(s - {y}, f);
    if y != x {
      RealSumPick(s - {y}, f, x);
      RealSumPick(s - {x}, f, y);
      assert s - {y} - {x} == s - {x} - {y};
    }
  }

  lemma {:induction false} RealSumMonotone<T>(s: set<T>, f: T -> real, g: T -> real)
    requires forall x | x in s :: f(x) <= g(x)
    ensures RealSum(s, f) <= RealSum(s, g)
    decreases |s|
  {
    if s != {} {
      var x :| x in s;
      RealSumPick(s, f, x);
      RealSumPick(s, g, x);
      RealSumMonotone(s - {x}, f, g);
    }
  }

  lemma RealSumCongruent<T>(s: set<T>, f: T -> real, g: T -> real)
    requires forall x | x in s :: f(x) == g(x)
    ensures RealSum(s, f) == RealSum(s, g)
  {
    RealSumMonotone(s, f, g);
    RealSumMonotone(s, g, f);
  }

  lemma {:induction false} RealSumConstant<T>(s: set<T>, f: T -> real, c: real)
    requires forall x | x in s :: f(x) == c
    ensures RealSum(s, f) == c * |s| as real
    decreases |s|
  {
    if s != {} {
      var x :| x in s;
      RealSumPick(s, f, x);
      RealSumConstant(s - {x}, f, c);
    }
  }

  lemma {:induction false} RealSumAdds<T>(s: set<T>, f: T -> real, g: T -> real, h: T -> real)
    requires forall x | x in s :: h(x) == f(x) + g(x)
    ensures RealSum(s, h) == RealSum(s, f) + RealSum(s, g)
    decreases |s|
  {
    if s != {} {
      var x :| x in s;
      RealSumPick(s, f, x);
      RealSumPick(s, g, x);
      RealSumPick(s, h, x);
      RealSumAdds(s - {x}, f, g, h);
    }
  }

  /** Multiplication under a name, so that it is not multiplied out under a quantifier. */
  ghost function Times(c: real, a: real): real {
    c * a
  }

  lemma TimesDistributes(c: real, a: real, b: real)
    ensures Times(c, a + b) == Times(c, a) + Times(c, b)
  {
  }

  lemma {:induction false} RealSumScales<T>(s: set<T>, f: T -> real, g: T -> real, c: real)
    requires forall x | x in s :: g(x) == Times(c, f(x))
    ensures RealSum(s, g) == Times(c, RealSum(s, f))
    decreases |s|
  {
    if s != {} {
      var x :| x in s;
      RealSumPick(s, f, x);
      RealSumPick(s, g, x);
      RealSumScales(s - {x}, f, g, c);
      TimesDistributes(c, f(x), RealSum(s - {x}, f));
    }
  }

  lemma {:induction false} RealSumRestrict<T>(s: set<T>, t: set<T>, f: T -> real)
    requires t <= s
    requires forall x | x in s - t :: f(x) == 0.0
    ensures RealSum(s, f) == RealSum(t, f)
    decreases |s|
  {
    if x :| x in s && x !in t {
      RealSumPick(s, f, x);
      RealSumRestrict(s - {x}, t, f);
    } else {
      assert s == t;
    }
  }

  /** The pairs of a member and something listed for it. */
  ghost function Pairs<T, U>(s: set<T>, f: T -> set<U>): set<(T, U)> {
    set x, y | x in s && y in f(x) :: (x, y)
  }

  lemma {:induction false} PairsCount<T, U>(s: set<T>, f: T -> set<U>, size: T -> int)
    requires forall x | x in s :: size(x) == |f(x)|
    ensures |Pairs(s, f)| == Sum(s, size)
    decreases |s|
  {
    if s == {} {
      assert Pairs(s, f) == {};
    } else {
      var x :| x in s;
      PairsCount(s - {x}, f, size);
      SumPick(s, size, x);
      hide Sum;
      var row := set y | y in f(x) :: (x, y);
      RowCount(x, f(x));
      assert Pairs(s, f) == row + Pairs(s - {x}, f);
      assert row !! Pairs(s - {x}, f);
    }
  }

  lemma {:induction false} RowCount<T, U>(x: T, ys: set<U>)
    ensures |set y | y in ys :: (x, y)| == |ys|
    decreases |ys|
  {
    if y0 :| y0 in ys {
      RowCount(x, ys - {y0});
      assert (set y | y in ys :: (x, y)) == (set y | y in ys - {y0} :: (x, y)) + {(x, y0)};
    } else {
      assert (set y | y in ys :: (x, y)) == {};
    }
  }
}
