/** Distribution of values into labelled buckets with ascending upper bounds. */
module Buckets {
  import opened Wrappers
  import opened Sums

  datatype Bucket = Bucket(name: string, maxValue: Option<real>)

  predicate Admits(b: Bucket, v: real) {
    b.maxValue.None? || v <= b.maxValue.value
  }

  /** `i` is the first bucket that admits `v`. */
  ghost predicate FirstAdmits(buckets: seq<Bucket>, v: real, i: nat) {
    i < |buckets| && Admits(buckets[i], v) && forall j | 0 <= j < i :: !Admits(buckets[j], v)
  }

  ghost predicate Lands(buckets: seq<Bucket>, v: real, name: string) {
    exists i: nat :: FirstAdmits(buckets, v, i) && buckets[i].name == name
  }

  ghost function Landed(values: seq<real>, buckets: seq<Bucket>, name: string): nat {
    if values == [] then 0
    else Landed(values[..|values| - 1], buckets, name) + if Lands(buckets, values[|values| - 1], name) then 1 else 0
  }

  ghost function Admitted(values: seq<real>, buckets: seq<Bucket>): nat {
    if values == [] then 0
    else Admitted(values[..|values| - 1], buckets) + if exists b | b in buckets :: Admits(b, values[|values| - 1]) then 1 else 0
  }

  function Labels(buckets: seq<Bucket>): set<string> {
    set b | b in buckets :: b.name
  }

  function Count(result: map<string, nat>, l: string): nat {
    if l in result then result[l] else 0
  }

  /** Each value is counted once, in the first bucket that admits it, or not at all. */
  method Bucketize(values: seq<real>, buckets: seq<Bucket>) returns (result: map<string, nat>)
    ensures result.Keys == Labels(buckets)
    ensures forall l | l in result :: result[l] == Landed(values, buckets, l)
    ensures Sum(Labels(buckets), l => Count(result, l)) == Admitted(values, buckets)
  {
    result := map l | l in Labels(buckets) :: 0;
    SumConstant(Labels(buckets), l => Count(result, l), 0);
    NothingLanded(buckets);
    hide Lands, Admits, Sum, FirstAdmits, Landed, Admitted;
    assert values[..0] == [];
    for k := 0 to |values|
      invariant result.Keys == Labels(buckets)
      invariant forall l | l in result :: result[l] == Landed(values[..k], buckets, l)
      invariant Sum(Labels(buckets), l => Count(result, l)) == Admitted(values[..k], buckets)
    {
      var i := FirstBucket(buckets, values[k]);
      OneMoreValue(values, buckets, k);
      if i.Some? {
        var name := buckets[i.value].name;
        LandsThere(buckets, values[k], i.value);
        CountOneMore(Labels(buckets), result, name);
        result := result[name := result[name] + 1];
      } else {
        LandsNowhere(buckets, values[k]);
      }
    }
    assert values[..|values|] == values;
  }

  /** The inner loop: the first bucket that admits the value. */
  method FirstBucket(buckets: seq<Bucket>, v: real) returns (r: Option<nat>)
    ensures r.Some? ==> FirstAdmits(buckets, v, r.value)
    ensures r.None? ==> forall j | 0 <= j < |buckets| :: !Admits(buckets[j], v)
  {
    hide Admits;
    for i := 0 to |buckets|
      invariant forall j | 0 <= j < i :: !Admits(buckets[j], v)
    {
      if Admits(buckets[i], v) {
        return Some(i);
      }
    }
    return None;
  }

  lemma NothingLanded(buckets: seq<Bucket>)
    ensures Admitted([], buckets) == 0 && forall l :: Landed([], buckets, l) == 0
  {
  }

  lemma OneMoreValue(values: seq<real>, buckets: seq<Bucket>, k: nat)
    requires k < |values|
    ensures forall l :: Landed(values[..k + 1], buckets, l) == Landed(values[..k], buckets, l) + if Lands(buckets, values[k], l) then 1 else 0
    ensures Admitted(values[..k + 1], buckets)
            == Admitted(values[..k], buckets) + if exists b | b in buckets :: Admits(b, values[k]) then 1 else 0
  {
    hide Lands, Admits;
    assert values[..k + 1][..k] == values[..k];
  }

  lemma LandsNowhere(buckets: seq<Bucket>, v: real)
    requires forall j | 0 <= j < |buckets| :: !Admits(buckets[j], v)
    ensures forall l :: !Lands(buckets, v, l)
    ensures !(exists b | b in buckets :: Admits(b, v))
  {
    hide Admits;
  }

  lemma LandsThere(buckets: seq<Bucket>, v: real, i: nat)
    requires FirstAdmits(buckets, v, i)
    ensures buckets[i].name in Labels(buckets) && exists b | b in buckets :: Admits(b, v)
    ensures forall l :: Lands(buckets, v, l) <==> l == buckets[i].name
  {
    hide Admits;
    assert buckets[i] in buckets;
    forall l | Lands(buckets, v, l)
      ensures l == buckets[i].name
    {
      var j: nat :| FirstAdmits(buckets, v, j) && buckets[j].name == l;
      assert !(i < j) && !(j < i);
    }
  }

  lemma CountOneMore(labels: set<string>, result: map<string, nat>, name: string)
    requires name in labels && name in result
    ensures Sum(labels, l => Count(result[name := result[name] + 1], l)) == Sum(labels, l => Count(result, l)) + 1
  {
    var result' := result[name := result[name] + 1];
    SumPick(labels, l => Count(result, l), name);
    SumPick(labels, l => Count(result', l), name);
    SumCongruent(labels - {name}, l => Count(result, l), l => Count(result', l));
  }

  /** A final unbounded bucket loses no value. */
  lemma {:induction false} UnboundedAdmitsAll(values: seq<real>, buckets: seq<Bucket>, b: Bucket)
    requires b in buckets && b.maxValue.None?
    ensures Admitted(values, buckets) == |values|
    decreases |values|
  {
    if values != [] {
      assert Admits(b, values[|values| - 1]);
      UnboundedAdmitsAll(values[..|values| - 1], buckets, b);
    }
  }

  /** Bounds grow from bucket to bucket, and only the last may be unbounded. */
  ghost predicate BoundsAscend(buckets: seq<Bucket>) {
    forall i, j | 0 <= i < j < |buckets| ::
      buckets[i].maxValue.Some? && (buckets[j].maxValue.Some? ==> buckets[i].maxValue.value < buckets[j].maxValue.value)
  }

  /** Buckets in ascending order are intervals: a value lands where it is above the bound before and not above the
      bound itself. */
  lemma AscendingIntervals(buckets: seq<Bucket>, v: real, i: nat)
    requires BoundsAscend(buckets) && i < |buckets|
    ensures FirstAdmits(buckets, v, i)
            <==> (i > 0 ==> buckets[i - 1].maxValue.Some? && buckets[i - 1].maxValue.value < v) && (buckets[i].maxValue.Some? ==> v <= buckets[i].maxValue.value)
  {
  }
}
