/** Outcomes of unpacking repository files and how `merge` combines them: sums, a maximum, ordered
    de-duplication, and a sample of at most twelve paths. */
module Materialization {
  import opened Collections

  const SAMPLE := 12

  datatype Outcome = Outcome(
    filesWritten: nat, packagesRequested: nat, packagesFound: nat, packagesMissing: seq<string>,
    pathsRequested: seq<string>, pathsNotFound: seq<string>, samplePaths: seq<string>, warnings: seq<string>)

  const EMPTY := Outcome(0, 0, 0, [], [], [], [], [])

  /** `tuple(dict.fromkeys(s))`: first occurrences, in order. */
  function Dedup(s: seq<string>): seq<string> {
    if s == [] then []
    else
      var d, last := Dedup(s[..|s| - 1]), s[|s| - 1];
      if last in d then d else d + [last]
  }

  function Take(s: seq<string>): seq<string> {
    if |s| <= SAMPLE then s else s[..SAMPLE]
  }

  function Merge(a: Outcome, b: Outcome): Outcome {
    Outcome(
      a.filesWritten + b.filesWritten,
      if a.packagesRequested >= b.packagesRequested then a.packagesRequested else b.packagesRequested,
      a.packagesFound + b.packagesFound,
      Dedup(a.packagesMissing + b.packagesMissing),
      Dedup(a.pathsRequested + b.pathsRequested),
      Dedup(a.pathsNotFound + b.pathsNotFound),
      Take(Dedup(a.samplePaths + b.samplePaths)),
      Dedup(a.warnings + b.warnings))
  }

  // ---------------------------------------------------------------- ordered de-duplication

  function Without(s: seq<string>, seen: seq<string>): seq<string> {
    if s == [] then []
    else Without(s[..|s| - 1], seen) + if s[|s| - 1] in seen then [] else [s[|s| - 1]]
  }

  /** First occurrences are kept: what comes later neither reorders nor drops what is there. */
  lemma {:induction false} DedupPrefix(s: seq<string>, k: nat)
    requires k <= |s|
    ensures Dedup(s[..k]) <= Dedup(s)
    decreases |s|
  {
    if k == |s| {
      assert s[..k] == s;
    } else {
      DedupPrefix(s[..|s| - 1], k);
      assert s[..|s| - 1][..k] == s[..k];
    }
  }

  lemma DedupSnoc(s: seq<string>, x: string)
    ensures Dedup(s + [x]) == if x in Dedup(s) then Dedup(s) else Dedup(s) + [x]
  {
    assert (s + [x])[..|s|] == s;
  }

  lemma {:induction false} DedupShape(s: seq<string>)
    ensures Distinct(Dedup(s))
    ensures forall x :: x in Dedup(s) <==> x in s
    decreases |s|
  {
    if s != [] {
      var init, last := s[..|s| - 1], s[|s| - 1];
      DedupShape(init);
      assert s == init + [last];
    }
  }

  /** De-duplicating leaves a list alone exactly when nothing in it repeats. */
  lemma {:induction false} DedupFixes(s: seq<string>)
    ensures Dedup(s) == s <==> Distinct(s)
    decreases |s|
  {
    DedupShape(s);
    if Distinct(s) && s != [] {
      DedupFixes(s[..|s| - 1]);
    }
  }

  lemma WithoutSnoc(s: seq<string>, x: string, seen: seq<string>)
    ensures x in seen ==> Without(s + [x], seen) == Without(s, seen)
    ensures x !in seen ==> Without(s + [x], seen) == Without(s, seen) + [x]
  {
    assert (s + [x])[..|s|] == s;
  }

  /** What a second list adds is what of it the first did not have. */
  lemma {:induction false} DedupAppends(a: seq<string>, b: seq<string>)
    ensures Dedup(a + b) == Dedup(a) + Without(Dedup(b), a)
    decreases |b|
  {
    if b == [] {
      assert a + b == a;
    } else {
      var init, last := b[..|b| - 1], b[|b| - 1];
      assert a + b == (a + init) + [last] && b == init + [last];
      DedupAppends(a, init);
      DedupAppendsOne(a, init, last);
    }
  }

  lemma DedupAppendsOne(a: seq<string>, init: seq<string>, last: string)
    requires Dedup(a + init) == Dedup(a) + Without(Dedup(init), a)
    ensures Dedup((a + init) + [last]) == Dedup(a) + Without(Dedup(init + [last]), a)
  {
    hide Dedup, Without, Distinct;
    DedupShape(a + init);
    DedupShape(init);
    DedupSnoc(a + init, last);
    DedupSnoc(init, last);
    WithoutSnoc(Dedup(init), last, a);
    assert last in a + init <==> last in a || last in init;
    var x, y := Dedup(a), Without(Dedup(init), a);
    assert (x + y) + [last] == x + (y + [last]);
  }

  lemma {:induction false} WithoutSameSet(s: seq<string>, a: seq<string>, b: seq<string>)
    requires forall x :: x in a <==> x in b
    ensures Without(s, a) == Without(s, b)
    decreases |s|
  {
    if s != [] {
      WithoutSameSet(s[..|s| - 1], a, b);
    }
  }

  lemma DedupLeft(a: seq<string>, b: seq<string>)
    ensures Dedup(Dedup(a) + b) == Dedup(a + b)
  {
    DedupShape(a);
    DedupFixes(Dedup(a));
    DedupAppends(a, b);
    DedupAppends(Dedup(a), b);
    WithoutSameSet(Dedup(b), a, Dedup(a));
  }

  lemma DedupRight(a: seq<string>, b: seq<string>)
    ensures Dedup(a + Dedup(b)) == Dedup(a + b)
  {
    DedupShape(b);
    DedupFixes(Dedup(b));
    DedupAppends(a, b);
    DedupAppends(a, Dedup(b));
  }

  lemma DedupAssociative(a: seq<string>, b: seq<string>, c: seq<string>)
    ensures Dedup(Dedup(a + b) + c) == Dedup(a + b + c)
    ensures Dedup(a + Dedup(b + c)) == Dedup(a + b + c)
  {
    hide Dedup;
    DedupLeft(a + b, c);
    DedupRight(a, b + c);
    assert a + (b + c) == a + b + c;
  }

  // ---------------------------------------------------------------- truncating early

  /** Truncating the left operand first changes nothing that the truncated result shows. */
  lemma TakeLeft(a: seq<string>, b: seq<string>)
    ensures Take(Dedup(Take(Dedup(a)) + b)) == Take(Dedup(a + b))
  {
    DedupLeft(a, b);
    var d := Dedup(a);
    DedupShape(a);
    if |d| > SAMPLE {
      var t := Take(d);
      DedupFixes(t);
      DedupFixes(d);
      DedupAppends(t, b);
      DedupAppends(d, b);
      assert (t + Without(Dedup(b), t))[..SAMPLE] == t;
      assert (d + Without(Dedup(b), d))[..SAMPLE] == t;
    }
  }

  lemma {:induction false} WithoutPrefix(s: seq<string>, n: nat, seen: seq<string>)
    requires n <= |s|
    ensures Without(s[..n], seen) <= Without(s, seen)
    decreases |s|
  {
    if n == |s| {
      assert s[..n] == s;
    } else {
      WithoutPrefix(s[..|s| - 1], n, seen);
      assert s[..|s| - 1][..n] == s[..n];
    }
  }

  lemma CommonOneMore(s: seq<string>, x: string, seen: seq<string>)
    requires x !in s
    ensures |Elements(s + [x]) * Elements(seen)| == |Elements(s) * Elements(seen)| + if x in seen then 1 else 0
  {
    assert Elements(s + [x]) * Elements(seen) == Elements(s) * Elements(seen) + if x in seen then {x} else {};
  }

  /** A distinct list is what is left of it and what it has in common. */
  lemma {:induction false} WithoutCounts(s: seq<string>, seen: seq<string>)
    requires Distinct(s)
    ensures |Without(s, seen)| + |Elements(s) * Elements(seen)| == |s|
    decreases |s|
  {
    if s != [] {
      var init, last := s[..|s| - 1], s[|s| - 1];
      assert s == init + [last] && last !in init;
      WithoutCounts(init, seen);
      hide Without, Elements;
      WithoutSnoc(init, last, seen);
      CommonOneMore(init, last, seen);
    }
  }

  /** Leaving out what `seen` has costs a distinct list no more than the length of `seen`. */
  lemma WithoutLoses(s: seq<string>, seen: seq<string>)
    requires Distinct(s)
    ensures |Without(s, seen)| + |seen| >= |s|
  {
    hide Without, Distinct;
    WithoutCounts(s, seen);
    DistinctCount(seen);
    Smaller(Elements(s) * Elements(seen), Elements(seen));
  }

  lemma PrefixTake(p: seq<string>, s: seq<string>)
    requires p <= s && |p| >= SAMPLE
    ensures Take(p) == Take(s)
  {
  }

  /** Nor does truncating the right operand first: at least twelve paths still come through. */
  lemma TakeRight(a: seq<string>, b: seq<string>)
    ensures Take(Dedup(a + Take(Dedup(b)))) == Take(Dedup(a + b))
  {
    var d, e := Dedup(a), Dedup(b);
    DedupShape(a);
    DedupShape(b);
    if |e| > SAMPLE {
      var t := Take(e);
      DedupFixes(t);
      DedupAppends(a, t);
      DedupAppends(a, b);
      WithoutSameSet(t, a, d);
      WithoutSameSet(e, a, d);
      WithoutPrefix(e, SAMPLE, d);
      WithoutLoses(t, d);
      assert |d + Without(t, d)| >= SAMPLE;
      assert d + Without(t, d) <= d + Without(e, d);
      PrefixTake(d + Without(t, d), d + Without(e, d));
    } else {
      DedupRight(a, b);
    }
  }

  lemma SampleAssociative(a: seq<string>, b: seq<string>, c: seq<string>)
    ensures Take(Dedup(Take(Dedup(a + b)) + c)) == Take(Dedup(a + b + c))
    ensures Take(Dedup(a + Take(Dedup(b + c)))) == Take(Dedup(a + b + c))
  {
    hide Take, Dedup;
    TakeLeft(a + b, c);
    TakeRight(a, b + c);
    assert a + (b + c) == a + b + c;
  }

  // ---------------------------------------------------------------- the algebra of merge

  lemma MergeAssociative(a: Outcome, b: Outcome, c: Outcome)
    ensures Merge(Merge(a, b), c) == Merge(a, Merge(b, c))
  {
    hide Dedup, Take;
    DedupAssociative(a.packagesMissing, b.packagesMissing, c.packagesMissing);
    DedupAssociative(a.pathsRequested, b.pathsRequested, c.pathsRequested);
    DedupAssociative(a.pathsNotFound, b.pathsNotFound, c.pathsNotFound);
    DedupAssociative(a.warnings, b.warnings, c.warnings);
    SampleAssociative(a.samplePaths, b.samplePaths, c.samplePaths);
  }

  predicate Normalised(a: Outcome) {
    && Distinct(a.packagesMissing) && Distinct(a.pathsRequested) && Distinct(a.pathsNotFound)
    && Distinct(a.samplePaths) && |a.samplePaths| <= SAMPLE && Distinct(a.warnings)
  }

  lemma MergeNormalises(a: Outcome, b: Outcome)
    ensures Normalised(Merge(a, b))
  {
    DedupShape(a.packagesMissing + b.packagesMissing);
    DedupShape(a.pathsRequested + b.pathsRequested);
    DedupShape(a.pathsNotFound + b.pathsNotFound);
    DedupShape(a.warnings + b.warnings);
    DedupShape(a.samplePaths + b.samplePaths);
  }

  /** The empty outcome is a unit, on either side, for exactly the normalised outcomes. */
  lemma EmptyIsUnit(a: Outcome)
    ensures Merge(EMPTY, a) == a <==> Normalised(a)
    ensures Merge(a, EMPTY) == a <==> Normalised(a)
  {
    UnitLaw(a.packagesMissing);
    UnitLaw(a.pathsRequested);
    UnitLaw(a.pathsNotFound);
    UnitLaw(a.warnings);
    UnitLaw(a.samplePaths);
    hide Distinct, Dedup;
    SampleUnit(a.samplePaths);
  }

  lemma UnitLaw(s: seq<string>)
    ensures [] + s == s && s + [] == s
    ensures Dedup(s) == s <==> Distinct(s)
  {
    DedupFixes(s);
  }

  lemma SampleUnit(s: seq<string>)
    ensures Take(Dedup(s)) == s <==> Distinct(s) && |s| <= SAMPLE
  {
    DedupShape(s);
    DedupFixes(s);
  }

  // ---------------------------------------------------------------- merging a whole list

  function MergeAll(outcomes: seq<Outcome>): Outcome {
    if outcomes == [] then EMPTY else Merge(MergeAll(outcomes[..|outcomes| - 1]), outcomes[|outcomes| - 1])
  }

  /** What the outcomes hold in one of their lists, end to end. */
  function Gather(outcomes: seq<Outcome>, f: Outcome -> seq<string>): seq<string> {
    if outcomes == [] then [] else Gather(outcomes[..|outcomes| - 1], f) + f(outcomes[|outcomes| - 1])
  }

  function TotalBy(outcomes: seq<Outcome>, f: Outcome -> nat): nat {
    if outcomes == [] then 0 else TotalBy(outcomes[..|outcomes| - 1], f) + f(outcomes[|outcomes| - 1])
  }

  /** Merging one by one lists what collecting everything and de-duplicating once would; the sample is the first
      twelve of that. */
  lemma {:induction false} MergeAllSamples(outcomes: seq<Outcome>)
    ensures var m, paths := MergeAll(outcomes), Dedup(Gather(outcomes, (o: Outcome) => o.samplePaths));
            m.samplePaths == if |paths| <= 12 then paths else paths[..12]
    ensures MergeAll(outcomes).pathsRequested == Dedup(Gather(outcomes, (o: Outcome) => o.pathsRequested))
    ensures MergeAll(outcomes).pathsNotFound == Dedup(Gather(outcomes, (o: Outcome) => o.pathsNotFound))
    ensures MergeAll(outcomes).packagesMissing == Dedup(Gather(outcomes, (o: Outcome) => o.packagesMissing))
    ensures MergeAll(outcomes).warnings == Dedup(Gather(outcomes, (o: Outcome) => o.warnings))
    decreases |outcomes|
  {
    hide Dedup;
    if outcomes != [] {
      var init, last := outcomes[..|outcomes| - 1], outcomes[|outcomes| - 1];
      MergeAllSamples(init);
      TakeLeft(Gather(init, (o: Outcome) => o.samplePaths), last.samplePaths);
      DedupLeft(Gather(init, (o: Outcome) => o.pathsRequested), last.pathsRequested);
      DedupLeft(Gather(init, (o: Outcome) => o.pathsNotFound), last.pathsNotFound);
      DedupLeft(Gather(init, (o: Outcome) => o.packagesMissing), last.packagesMissing);
      DedupLeft(Gather(init, (o: Outcome) => o.warnings), last.warnings);
    } else {
      NothingListed();
    }
  }

  lemma NothingListed()
    ensures Dedup([]) == []
  {
  }

  /** Files written and packages found add up; of the packages requested the largest number is kept. */
  lemma {:induction false} MergeAllCounts(outcomes: seq<Outcome>)
    ensures MergeAll(outcomes).filesWritten == TotalBy(outcomes, (o: Outcome) => o.filesWritten)
    ensures MergeAll(outcomes).packagesFound == TotalBy(outcomes, (o: Outcome) => o.packagesFound)
    ensures forall i | 0 <= i < |outcomes| :: outcomes[i].packagesRequested <= MergeAll(outcomes).packagesRequested
    ensures MergeAll(outcomes).packagesRequested > 0 ==>
              exists i | 0 <= i < |outcomes| :: outcomes[i].packagesRequested == MergeAll(outcomes).packagesRequested
    decreases |outcomes|
  {
    hide Dedup, Take;
    if outcomes != [] {
      var init, last := outcomes[..|outcomes| - 1], outcomes[|outcomes| - 1];
      MergeAllCounts(init);
      assert outcomes[|outcomes| - 1] == last;
      if MergeAll(outcomes).packagesRequested > last.packagesRequested {
        var i :| 0 <= i < |init| && init[i].packagesRequested == MergeAll(init).packagesRequested;
        assert outcomes[i] == init[i];
      }
    }
  }

  /** Merging does not depend on how a list of outcomes is grouped. */
  lemma {:induction false} MergeAllAppends(a: seq<Outcome>, b: seq<Outcome>)
    ensures MergeAll(a + b) == Merge(MergeAll(a), MergeAll(b))
    decreases |b|
  {
    hide Merge;
    if b == [] {
      assert a + b == a;
      MergeAllIsNormalised(a);
      EmptyIsUnit(MergeAll(a));
    } else {
      var init, last := b[..|b| - 1], b[|b| - 1];
      assert (a + b)[..|a + b| - 1] == a + init;
      MergeAllAppends(a, init);
      MergeAssociative(MergeAll(a), MergeAll(init), last);
    }
  }

  lemma MergeAllIsNormalised(a: seq<Outcome>)
    ensures Normalised(MergeAll(a))
  {
    if a != [] {
      MergeNormalises(MergeAll(a[..|a| - 1]), a[|a| - 1]);
    }
  }
}
