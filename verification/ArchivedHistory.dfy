/** Mutation history: archived jobs grouped by extraction run and then by job set, with totals. */
module ArchivedHistory {
  import opened Wrappers
  import opened Sums
  import opened Text
  import opened MutationMetrics
  import opened SessionJournal

  /** The start of the run a job belonged to; nothing is the unknown run. */
  type RunKey = Option<Time>
  datatype Shown = Shown(job: Job, writeOps: nat)
  datatype RunGroup = RunGroup(jobSets: map<string, seq<Shown>>, jobCount: nat, writeOps: nat, inputTokens: int,
        outputTokens: int, cost: real)
  datatype SetGroup = SetGroup(jobs: seq<Shown>, jobCount: nat, writeOps: nat)
  datatype RunPayload = RunPayload(totals: RunGroup, jobSets: map<string, SetGroup>)

  // ---------------------------------------------------------------- the jobs of a group

  /** The jobs for which `f` gives `k`, in order. */
  ghost function Only<K>(jobs: seq<Job>, f: Job -> K, k: K): seq<Job> {
    if jobs == [] then []
    else Only(jobs[..|jobs| - 1], f, k) + if f(jobs[|jobs| - 1]) == k then [jobs[|jobs| - 1]] else []
  }

  function RunOf(j: Job): RunKey {
    j.runStartedAt
  }

  function SetOf(j: Job): string {
    j.jobSet
  }

  ghost function InRun(jobs: seq<Job>, key: RunKey): seq<Job> {
    Only(jobs, RunOf, key)
  }

  ghost function InSet(jobs: seq<Job>, name: string): seq<Job> {
    Only(jobs, SetOf, name)
  }

  ghost function ShownAs(decode: Decoder, jobs: seq<Job>): (r: seq<Shown>) {
    seq(|jobs|, i requires 0 <= i < |jobs| => Shown(jobs[i], ArchivedJobWriteOps(decode, jobs[i])))
  }

  ghost function Weight(jobs: seq<Job>, w: Job -> int): int {
    if jobs == [] then 0 else Weight(jobs[..|jobs| - 1], w) + w(jobs[|jobs| - 1])
  }

  ghost function CostOf(jobs: seq<Job>): real {
    if jobs == [] then 0.0 else CostOf(jobs[..|jobs| - 1]) + jobs[|jobs| - 1].usage.cost
  }

  /** Grouping loses nothing and counts nothing twice: over any keys that cover the jobs, the weights of
      the groups add up to the weight of the whole. */
  lemma {:induction false} GroupsPartition<K(!new)>(jobs: seq<Job>, f: Job -> K, w: Job -> int, keys: set<K>)
    requires forall i | 0 <= i < |jobs| :: f(jobs[i]) in keys
    ensures Sum(keys, k => Weight(Only(jobs, f, k), w)) == Weight(jobs, w)
    decreases |jobs|
  {
    var whole := (k: K) => Weight(Only(jobs, f, k), w);
    if jobs == [] {
      SumConstant(keys, whole, 0);
    } else {
      var init, last := jobs[..|jobs| - 1], jobs[|jobs| - 1];
      assert jobs == init + [last];
      GroupsPartition(init, f, w, keys);
      WeightSnoc(init, last, w);
      GroupsGain(init, last, f, w, keys);
    }
  }

  lemma GroupsGain<K(!new)>(jobs: seq<Job>, j: Job, f: Job -> K, w: Job -> int, keys: set<K>)
    requires f(j) in keys
    ensures Sum(keys, k => Weight(Only(jobs + [j], f, k), w)) == Sum(keys, k => Weight(Only(jobs, f, k), w)) + w(j)
  {
    hide Weight, Only;
    var whole := (k: K) => Weight(Only(jobs + [j], f, k), w);
    var part := (k: K) => Weight(Only(jobs, f, k), w);
    var one := (k: K) => if k == f(j) then w(j) else 0;
    forall k | k in keys
      ensures whole(k) == part(k) + one(k)
    {
      OnlySnoc(jobs, j, f, k);
      WeightSnoc(Only(jobs, f, k), j, w);
    }
    SumAdds(keys, part, one, whole);
    SumPick(keys, one, f(j));
    SumConstant(keys - {f(j)}, one, 0);
  }

  lemma WeightSnoc(jobs: seq<Job>, j: Job, w: Job -> int)
    ensures Weight(jobs + [j], w) == Weight(jobs, w) + w(j)
  {
    assert (jobs + [j])[..|jobs|] == jobs;
  }

  // ---------------------------------------------------------------- the grouping loop

  ghost predicate SetsRight(decode: Decoder, jobSets: map<string, seq<Shown>>, jobs: seq<Job>) {
    && (forall name :: name in jobSets <==> InSet(jobs, name) != [])
    && (forall name | name in jobSets :: jobSets[name] == ShownAs(decode, InSet(jobs, name)))
  }

  ghost function OpsOf(decode: Decoder, jobs: seq<Job>): int {
    Weight(jobs, (j: Job) => ArchivedJobWriteOps(decode, j))
  }

  /** The group holds exactly these jobs, each under its set, and their totals. */
  ghost predicate GroupRight(decode: Decoder, g: RunGroup, jobs: seq<Job>) {
    && SetsRight(decode, g.jobSets, jobs)
    && g.jobCount == |jobs| && g.writeOps == OpsOf(decode, jobs)
    && g.inputTokens == Weight(jobs, (j: Job) => j.usage.input)
    && g.outputTokens == Weight(jobs, (j: Job) => j.usage.output)
    && g.cost == CostOf(jobs)
  }

  ghost predicate RunsRight(decode: Decoder, runs: map<RunKey, RunGroup>, jobs: seq<Job>) {
    && (forall key :: key in runs <==> InRun(jobs, key) != [])
    && (forall key | key in runs :: GroupRight(decode, runs[key], InRun(jobs, key)))
  }

  method WriteOpsOfArchivedJob(decode: Decoder, job: Job) returns (n: nat)
    ensures n == ArchivedJobWriteOps(decode, job)
    ensures job.strategy == "graph_management_session" && job.mutations.Some? && job.mutations.value != "" ==>
              n == CountWrites(decode, Lines(job.mutations.value))
    ensures job.strategy != "graph_management_session" || job.mutations.None? || job.mutations.value == "" ==>
              n == job.entitiesCreated + job.entitiesModified + job.relationshipsCreated + job.relationshipsModified
  {
    if job.strategy == STRATEGY && job.mutations.Some? && job.mutations.value != "" {
      var m := MetricsFromMutationJsonl(decode, job.mutations.value);
      return m.WriteOps();
    }
    n := job.WriteOps();
  }

  lemma OnlySnoc<K>(jobs: seq<Job>, j: Job, f: Job -> K, k: K)
    ensures f(j) == k ==> Only(jobs + [j], f, k) == Only(jobs, f, k) + [j]
    ensures f(j) != k ==> Only(jobs + [j], f, k) == Only(jobs, f, k)
  {
    assert (jobs + [j])[..|jobs|] == jobs;
  }

  lemma ShownSnoc(decode: Decoder, jobs: seq<Job>, j: Job)
    ensures ShownAs(decode, jobs + [j]) == ShownAs(decode, jobs) + [Shown(j, ArchivedJobWriteOps(decode, j))]
  {
  }

  lemma SetsStep(decode: Decoder, jobSets: map<string, seq<Shown>>, jobs: seq<Job>, j: Job)
    requires SetsRight(decode, jobSets, jobs)
    ensures var before := if j.jobSet in jobSets then jobSets[j.jobSet] else [];
            SetsRight(decode, jobSets[j.jobSet := before + [Shown(j, ArchivedJobWriteOps(decode, j))]], jobs + [j])
  {
    hide ArchivedJobWriteOps, ShownAs, Only;
    assert ShownAs(decode, []) == [] by { ShownOfNone(decode); }
    forall name: string
      ensures j.jobSet == name ==> InSet(jobs + [j], name) == InSet(jobs, name) + [j]
      ensures j.jobSet != name ==> InSet(jobs + [j], name) == InSet(jobs, name)
    {
      OnlySnoc(jobs, j, SetOf, name);
    }
    ShownSnoc(decode, InSet(jobs, j.jobSet), j);
  }

  lemma ShownOfNone(decode: Decoder)
    ensures ShownAs(decode, []) == []
  {
  }

  lemma GroupStep(decode: Decoder, g: RunGroup, jobs: seq<Job>, j: Job, after: RunGroup)
    requires GroupRight(decode, g, jobs)
    requires var ops := ArchivedJobWriteOps(decode, j);
             var before := if j.jobSet in g.jobSets then g.jobSets[j.jobSet] else [];
             after == RunGroup(g.jobSets[j.jobSet := before + [Shown(j, ops)]], g.jobCount + 1, g.writeOps + ops,
                               g.inputTokens + j.usage.input, g.outputTokens + j.usage.output, g.cost + j.usage.cost)
    ensures GroupRight(decode, after, jobs + [j])
  {
    hide SetsRight, ArchivedJobWriteOps;
    SetsStep(decode, g.jobSets, jobs, j);
    WeightSnoc(jobs, j, (x: Job) => ArchivedJobWriteOps(decode, x));
    WeightSnoc(jobs, j, (x: Job) => x.usage.input);
    WeightSnoc(jobs, j, (x: Job) => x.usage.output);
    assert (jobs + [j])[..|jobs|] == jobs;
  }

  lemma RunsStep(decode: Decoder, runs: map<RunKey, RunGroup>, jobs: seq<Job>, j: Job, after: RunGroup)
    requires RunsRight(decode, runs, jobs)
    requires GroupRight(decode, after, InRun(jobs, j.runStartedAt) + [j])
    ensures RunsRight(decode, runs[j.runStartedAt := after], jobs + [j])
  {
    hide GroupRight, Only;
    forall key: RunKey
      ensures j.runStartedAt == key ==> InRun(jobs + [j], key) == InRun(jobs, key) + [j]
      ensures j.runStartedAt != key ==> InRun(jobs + [j], key) == InRun(jobs, key)
    {
      OnlySnoc(jobs, j, RunOf, key);
    }
  }

  lemma EmptyGroupRight(decode: Decoder)
    ensures GroupRight(decode, RunGroup(map[], 0, 0, 0, 0, 0.0), [])
    ensures RunsRight(decode, map[], [])
  {
  }

  method GroupArchivedJobsByRunAndSet(decode: Decoder, jobs: seq<Job>) returns (grouped: map<RunKey, RunPayload>)
    ensures forall key :: key in grouped <==> InRun(jobs, key) != []
    ensures forall key | key in grouped :: GroupRight(decode, grouped[key].totals, InRun(jobs, key))
    ensures forall key | key in grouped :: grouped[key].jobSets == SetGroups(grouped[key].totals)
  {
    hide RunsRight, GroupRight, InRun, ArchivedJobWriteOps, CountWrites, Contents, SplitLines, SetGroups;
    var runs: map<RunKey, RunGroup> := map[];
    EmptyGroupRight(decode);
    assert jobs[..0] == [];
    for i := 0 to |jobs|
      invariant RunsRight(decode, runs, jobs[..i])
    {
      var job := jobs[i];
      var key := job.runStartedAt;
      var ops := WriteOpsOfArchivedJob(decode, job);
      RunFacts(decode, runs, jobs[..i], key);
      ghost var before := runs;
      if key !in runs {
        runs := runs[key := RunGroup(map[], 0, 0, 0, 0, 0.0)];
      }
      var run := runs[key];
      var shown := if job.jobSet in run.jobSets then run.jobSets[job.jobSet] else [];
      shown := shown + [Shown(job, ops)];
      var after := RunGroup(run.jobSets[job.jobSet := shown], run.jobCount + 1, run.writeOps + ops,
                            run.inputTokens + job.usage.input, run.outputTokens + job.usage.output, run.cost + job.usage.cost);
      GroupStep(decode, run, InRun(jobs[..i], key), job, after);
      assert jobs[..i + 1] == jobs[..i] + [job];
      RunsStep(decode, before, jobs[..i], job, after);
      assert before[key := after] == runs[key := after];
      runs := runs[key := after];
    }
    assert jobs[..|jobs|] == jobs;
    grouped := map key | key in runs :: RunPayload(runs[key], SetGroups(runs[key]));
    forall key: RunKey
      ensures key in runs <==> InRun(jobs, key) != []
      ensures key in runs ==> GroupRight(decode, runs[key], InRun(jobs, key))
    {
      RunFacts(decode, runs, jobs, key);
    }
  }

  lemma RunFacts(decode: Decoder, runs: map<RunKey, RunGroup>, jobs: seq<Job>, key: RunKey)
    requires RunsRight(decode, runs, jobs)
    ensures key in runs <==> InRun(jobs, key) != []
    ensures key in runs ==> GroupRight(decode, runs[key], InRun(jobs, key))
  {
    hide GroupRight, InRun;
  }

  function ShownOps(shown: seq<Shown>): nat {
    if shown == [] then 0 else ShownOps(shown[..|shown| - 1]) + shown[|shown| - 1].writeOps
  }

  function SetGroups(run: RunGroup): map<string, SetGroup> {
    map name | name in run.jobSets :: SetGroup(run.jobSets[name], |run.jobSets[name]|, ShownOps(run.jobSets[name]))
  }

  // ---------------------------------------------------------------- conservation

  lemma {:induction false} ShownOpsAre(decode: Decoder, jobs: seq<Job>)
    ensures ShownOps(ShownAs(decode, jobs)) == OpsOf(decode, jobs)
    decreases |jobs|
  {
    hide ArchivedJobWriteOps;
    if jobs != [] {
      var init, last := jobs[..|jobs| - 1], jobs[|jobs| - 1];
      assert jobs == init + [last];
      ShownSnoc(decode, init, last);
      ShownOpsAre(decode, init);
      var s := ShownAs(decode, init);
      assert (s + [Shown(last, ArchivedJobWriteOps(decode, last))])[..|s|] == s;
    }
  }

  lemma {:induction false} SetCoversMember(jobs: seq<Job>, i: nat)
    requires i < |jobs|
    ensures InSet(jobs, jobs[i].jobSet) != []
    decreases |jobs|
  {
    if i < |jobs| - 1 {
      SetCoversMember(jobs[..|jobs| - 1], i);
    }
  }

  lemma {:induction false} RunCoversMember(jobs: seq<Job>, i: nat)
    requires i < |jobs|
    ensures InRun(jobs, jobs[i].runStartedAt) != []
    decreases |jobs|
  {
    if i < |jobs| - 1 {
      RunCoversMember(jobs[..|jobs| - 1], i);
    }
  }

  lemma {:induction false} WeightOfOnes(jobs: seq<Job>)
    ensures Weight(jobs, (j: Job) => 1) == |jobs|
    decreases |jobs|
  {
    if jobs != [] {
      WeightOfOnes(jobs[..|jobs| - 1]);
    }
  }

  /** Within a run, the sets' job counts and write counts add up to the run's. */
  lemma SetTotalsAddUp(decode: Decoder, run: RunGroup, jobs: seq<Job>)
    requires GroupRight(decode, run, jobs)
    ensures Sum(run.jobSets.Keys, name => if name in run.jobSets then |run.jobSets[name]| else 0) == run.jobCount
    ensures Sum(run.jobSets.Keys, name => if name in run.jobSets then ShownOps(run.jobSets[name]) else 0) == run.writeOps
  {
    hide ArchivedJobWriteOps, ShownAs, ShownOps;
    var f := SetOf;
    var ops := (j: Job) => ArchivedJobWriteOps(decode, j);
    var ones := (j: Job) => 1;
    var keys := run.jobSets.Keys;
    forall i | 0 <= i < |jobs|
      ensures f(jobs[i]) in keys
    {
      SetCoversMember(jobs, i);
    }
    GroupsPartition(jobs, f, ones, keys);
    GroupsPartition(jobs, f, ops, keys);
    WeightOfOnes(jobs);
    forall name | name in keys
      ensures |run.jobSets[name]| == Weight(Only(jobs, f, name), ones)
      ensures ShownOps(run.jobSets[name]) == Weight(Only(jobs, f, name), ops)
    {
      ShownLength(decode, InSet(jobs, name));
      WeightOfOnes(InSet(jobs, name));
      ShownOpsAre(decode, InSet(jobs, name));
    }
    SumCongruent(keys, name => if name in run.jobSets then |run.jobSets[name]| else 0, name => Weight(Only(jobs, f, name), ones));
    SumCongruent(keys, name => if name in run.jobSets then ShownOps(run.jobSets[name]) else 0, name => Weight(Only(jobs, f, name), ops));
  }

  lemma ShownLength(decode: Decoder, jobs: seq<Job>)
    ensures |ShownAs(decode, jobs)| == |jobs|
  {
  }

  /** Over the whole history, the runs' counts add up to the jobs archived and to their write count. */
  lemma RunTotalsAddUp(decode: Decoder, grouped: map<RunKey, RunPayload>, jobs: seq<Job>)
    requires forall key :: key in grouped <==> InRun(jobs, key) != []
    requires forall key | key in grouped :: GroupRight(decode, grouped[key].totals, InRun(jobs, key))
    ensures Sum(grouped.Keys, key => if key in grouped then grouped[key].totals.jobCount else 0) == |jobs|
    ensures Sum(grouped.Keys, key => if key in grouped then grouped[key].totals.writeOps else 0) == OpsOf(decode, jobs)
  {
    hide ArchivedJobWriteOps, SetsRight;
    var f := RunOf;
    var ops := (j: Job) => ArchivedJobWriteOps(decode, j);
    var ones := (j: Job) => 1;
    var keys := grouped.Keys;
    forall i | 0 <= i < |jobs|
      ensures f(jobs[i]) in keys
    {
      RunCoversMember(jobs, i);
    }
    GroupsPartition(jobs, f, ones, keys);
    GroupsPartition(jobs, f, ops, keys);
    WeightOfOnes(jobs);
    forall key | key in keys
      ensures grouped[key].totals.jobCount == Weight(Only(jobs, f, key), ones)
      ensures grouped[key].totals.writeOps == Weight(Only(jobs, f, key), ops)
    {
      WeightOfOnes(InRun(jobs, key));
    }
    SumCongruent(keys, key => if key in grouped then grouped[key].totals.jobCount else 0, key => Weight(Only(jobs, f, key), ones));
    SumCongruent(keys, key => if key in grouped then grouped[key].totals.writeOps else 0, key => Weight(Only(jobs, f, key), ops));
  }
}
