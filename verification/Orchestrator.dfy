/** The orchestrator object and the rows it works on. Every method is one atomic step of the
    transition system, carried out by assignments in the order the program makes them. */
module Orchestrator {
  import opened Wrappers
  import opened ExtractionRun

  datatype CancelAnswer = Removed | Stopping | Refused | NotFound

  /** The pool has a worker at its loop test in every slot from the task count it had up to the target, and all
      other workers stand where they stood. */
  ghost predicate Grew(s: State, t: State, p: PoolId, target: nat) {
    && p in s.pools && p in t.pools && t.pools[p].workerCount == target && t.pools[p].stop == s.pools[p].stop
    && t.pools[p].tasks == (if s.pools[p].tasks > target then s.pools[p].tasks else target)
    && (forall v :: v in t.workers <==> v in s.workers || (v.pool == p && s.pools[p].tasks <= v.index < target))
    && (forall v | v in t.workers ::
          t.workers[v] == if v.pool == p && s.pools[p].tasks <= v.index < target then Looping else s.workers[v])
  }

  class ExtractionRunOrchestrator {
    var jobs: map<JobId, JobStatus>
    var run: Option<RunRow>
    var pools: map<PoolId, Pool>
    var active: Option<PoolId>
    var workers: map<WorkerId, Phase>
    var starter: Starter
    var haltsPending: nat
    var advances: nat
    var cancels: multiset<JobId>

    function View(): State
      reads this
    {
      State(jobs, run, pools, active, workers, starter, haltsPending, advances, cancels)
    }

    /** One holder per job, held jobs in progress or failed by a halt or a cancellation, worker slots counted. */
    ghost predicate Valid()
      reads this
    {
      Inv(View())
    }

    constructor (pending: set<JobId>)
      ensures Initial(View()) && Valid()
      ensures jobs == map j | j in pending :: Pending
    {
      jobs := map j | j in pending :: Pending;
      run, active, starter := None, None, NoStart;
      pools, workers := map[], map[];
      haltsPending, advances, cancels := 0, 0, multiset{};
    }

    /** `_spawn_workers`: one more task at a time until the pool has its target. */
    method SpawnWorkers(p: PoolId, target: nat)
      requires p in pools
      modifies this`pools, this`workers
      ensures View() == Spawn(old(View()), p, target)
      ensures Grew(old(View()), View(), p, target)
    {
      hide NewWorkers, Grown;
      var tasks := pools[p].tasks;
      ghost var first := tasks;
      GrownByNone(workers, p, first, first);
      while tasks < target
        invariant first <= tasks && (tasks <= target || tasks == first)
        invariant pools == old(pools) && workers == Grown(old(workers), p, first, tasks)
      {
        OneMoreWorker(old(workers), p, first, tasks, tasks + 1);
        workers := workers[WorkerId(p, tasks) := Looping];
        tasks := tasks + 1;
      }
      GrownToTarget(old(workers), p, first, tasks, target);
      SpawnGrows(old(View()), p, target);
      SpawnIsGrown(old(View()), p, target);
      pools := pools[p := Pool(pools[p].stop, tasks, target)];
    }

    /** `start`, up to its first await: grow the live pool, or register a new one. No job is touched and
        no worker has a job that it did not have. */
    method BeginStart(count: nat, newPool: PoolId)
      requires Valid() && Enabled(View(), StartBegin(count, newPool))
      modifies this
      ensures Valid() && View() == Apply(old(View()), StartBegin(count, newPool))
      ensures active.Some? && Live(View()) && pools[active.value].workerCount >= 1 && pools[active.value].workerCount >= count
      ensures Live(old(View())) ==> active == old(active)
      ensures Live(old(View())) && starter.NoStart? ==> View() == old(View())
      ensures Live(old(View())) && !starter.NoStart? ==>
                starter.CommitScale? && starter.requested >= count && Grew(old(View()), View(), active.value, starter.requested)
      ensures !Live(old(View())) ==> active == Some(newPool) && starter == CommitFresh(newPool) && workers == old(workers)
      ensures jobs == old(jobs) && forall w, j | Holds(workers, w, j) :: Holds(old(workers), w, j)
    {
      StepKeepsInv(View(), StartBegin(count, newPool));
      StartsNobody(View(), StartBegin(count, newPool));
      hide Inv;
      var requested := if count > 1 then count else 1;
      if active.Some? && active.value in pools && !pools[active.value].stop {
        if pools[active.value].workerCount < requested {
          SpawnWorkers(active.value, requested);
          starter := CommitScale(requested);
        }
        return;
      }
      pools := pools[newPool := Pool(false, 0, requested)];
      active := Some(newPool);
      starter := CommitFresh(newPool);
    }

    /** From here on workers of a live pool may claim again: a stored pause is gone. */
    method CommitStart()
      requires Valid() && Enabled(View(), StartCommit)
      modifies this`run, this`starter
      ensures Valid() && View() == Apply(old(View()), StartCommit)
      ensures run.Some? && run.value.status.Running? && !PauseRequested(run)
      ensures old(starter).CommitScale? ==> run.value.workerCount == old(starter).requested && starter.NoStart?
      ensures old(starter).CommitFresh? ==> run.value.workerCount == pools[old(starter).pool].workerCount && starter == SpawnFresh(old(starter).pool)
    {
      StepKeepsInv(View(), StartCommit);
      hide Inv;
      match starter {
        case CommitFresh(p) =>
          run := Some(RunRow(Running, if p in pools then pools[p].workerCount else 1, false));
          starter := SpawnFresh(p);
        case CommitScale(requested) =>
          run := Some(RunRow(Running, requested, false));
          starter := NoStart;
        case _ =>
      }
    }

    method FinishStart()
      requires Valid() && Enabled(View(), StartSpawn)
      modifies this
      ensures Valid() && View() == Apply(old(View()), StartSpawn)
      ensures jobs == old(jobs) && forall w, j :: Holds(workers, w, j) <==> Holds(old(workers), w, j)
      ensures starter.NoStart? && Grew(old(View()), View(), old(starter).pool, old(pools)[old(starter).pool].workerCount)
    {
      StepKeepsInv(View(), StartSpawn);
      SpawnKeepsHolders(View(), starter.pool, pools[starter.pool].workerCount);
      hide Inv;
      SpawnWorkers(starter.pool, pools[starter.pool].workerCount);
      starter := NoStart;
    }

    /** No job and no worker is touched; with the request stored, nobody can claim. */
    method PauseRun()
      requires Valid()
      modifies this`run
      ensures Valid() && View() == Apply(old(View()), RequestPause)
      ensures forall w, j | Enabled(View(), Poll(w, Some(j))) :: Apply(View(), Poll(w, Some(j))).jobs == jobs
    {
      StepKeepsInv(View(), RequestPause);
      hide Inv;
      run := Some(RunRow(Pausing, 1, true));
    }

    /** `stop_workers` and `stop_active_run`: stop event, cancellation, deregistration. Nobody of the
        registered pool holds a job any more, everybody else keeps theirs, and no job is touched. */
    method StopPool()
      requires Valid()
      modifies this`pools, this`workers, this`active
      ensures Valid() && View() == Apply(old(View()), StopWorkers)
      ensures active.None? && (old(active).Some? && old(active).value in old(pools) ==> PoolStopped(View(), old(active).value))
      ensures forall w, j :: Holds(workers, w, j) <==>
                             Holds(old(workers), w, j) && (w.pool in old(pools) ==> old(active) != Some(w.pool))
    {
      StepKeepsInv(View(), StopWorkers);
      if active.Some? && active.value in pools {
        var p := active.value;
        pools := pools[p := pools[p].(stop := true)];
        workers := map w | w in workers :: if w.pool == p then Done else workers[w];
      }
      active := None;
    }

    method BeginHalt()
      requires Valid()
      modifies this
      ensures Valid() && View() == Apply(old(View()), ExtractionRun.HaltBegin)
      ensures jobs == old(jobs) && forall w, j | Holds(workers, w, j) :: Holds(old(workers), w, j)
    {
      StepKeepsInv(View(), ExtractionRun.HaltBegin);
      StopPool();
      haltsPending := haltsPending + 1;
    }

    /** Nothing is in progress any more, and nothing else has changed. A worker that still executes now
        holds a failed job. */
    method CommitHalt()
      requires Valid() && Enabled(View(), HaltCommit)
      modifies this`jobs, this`run, this`haltsPending
      ensures Valid() && View() == Apply(old(View()), HaltCommit)
      ensures !AnyJob(jobs, InProgress) && !PauseRequested(run)
      ensures forall w, j | Holds(workers, w, j) :: j in jobs && jobs[j].Failed?
    {
      StepKeepsInv(View(), HaltCommit);
      jobs := map j | j in jobs :: if jobs[j].InProgress? then Failed else jobs[j];
      run := Some(RunRow(Halted, 1, false));
      haltsPending := haltsPending - 1;
    }

    /** The loop test of `_worker_loop`: a worker of a stopped pool leaves, any other goes on to poll. Other
        workers are left alone; nobody gets a job. */
    method TestStop(w: WorkerId)
      requires Valid() && Enabled(View(), CheckStop(w))
      modifies this`workers
      ensures Valid() && View() == Apply(old(View()), CheckStop(w))
      ensures w in workers && (workers[w].Done? <==> pools[w.pool].stop) && (workers[w].Polling? <==> !pools[w.pool].stop)
      ensures forall v, j | Holds(workers, v, j) :: v != w && Holds(old(workers), v, j)
    {
      StepKeepsInv(View(), CheckStop(w));
      if pools[w.pool].stop {
        workers := workers[w := Done];
      } else {
        workers := workers[w := Polling];
      }
    }

    /** The polling transaction: honour a pause, or claim, or decide whether the queue has drained.
        A claim may come back empty although pending rows exist, when their locks are skipped. Under a
        stored pause no job moves and the worker's pool stops; a claimed job was pending and has this worker as
        its only holder; and a worker goes on to finish the run exactly when nothing is pending or in progress. */
    method PollForJob(w: WorkerId, claim: Option<JobId>)
      requires Valid() && Enabled(View(), Poll(w, claim))
      modifies this
      ensures Valid() && View() == Apply(old(View()), Poll(w, claim))
      ensures PauseRequested(old(run)) ==>
                && jobs == old(jobs) && PoolStopped(View(), w.pool)
                && run == Some(RunRow(Paused, old(pools)[w.pool].workerCount, true))
      ensures workers[w].Done? <==> PauseRequested(old(run))
      ensures workers[w].Executing? <==> !PauseRequested(old(run)) && claim.Some?
      ensures forall j | Holds(workers, w, j) ::
                claim == Some(j) && old(jobs)[j].Pending? && jobs[j].InProgress? && forall v | Holds(workers, v, j) :: v == w
      ensures workers[w].Draining? <==>
                !PauseRequested(old(run)) && claim.None? && !AnyJob(jobs, Pending) && !AnyJob(jobs, InProgress)
    {
      StepKeepsInv(View(), Poll(w, claim));
      PollGivesOneJob(View(), w, claim);
      PollIs(View(), w, claim);
      hide Inv, AnyJob, Apply, PoolStopped, Holds;
      if PauseRequested(run) {
        run := Some(RunRow(Paused, pools[w.pool].workerCount, true));
        pools := pools[w.pool := pools[w.pool].(stop := true)];
        workers := workers[w := Done];
        return;
      }
      match claim {
        case Some(j) =>
          jobs := jobs[j := InProgress];
          workers := workers[w := Executing(j)];
        case None =>
          if AnyJob(jobs, InProgress) {
            workers := workers[w := Looping];
          } else if AnyJob(jobs, Pending) {
            workers := workers[w := Looping];
          } else {
            workers := workers[w := Draining];
          }
      }
    }

    /** Storing what the executor returned or raised, with no test of the stored status: no other job
        changes, and nobody holds this one any more. */
    method StoreOutcome(w: WorkerId, outcome: Outcome)
      requires Valid() && Enabled(View(), Finish(w, outcome))
      modifies this`jobs, this`workers
      ensures Valid() && View() == Apply(old(View()), Finish(w, outcome))
      ensures var j := old(workers)[w].job;
              && j in old(jobs) && jobs == old(jobs)[j := FinalStatus(outcome)]
              && forall v :: !Holds(workers, v, j)
    {
      StepKeepsInv(View(), Finish(w, outcome));
      FinishFreesJob(View(), w, outcome);
      hide Inv;
      var j := workers[w].job;
      if j in jobs {
        jobs := jobs[j := FinalStatus(outcome)];
      }
      workers := workers[w := Looping];
    }

    /** `reconcile_quiescent_extraction_run`: reports, and acts, exactly when the queue has drained and a
        row is there that is not idle, whatever its status. */
    method ReconcileQuiescent() returns (reconciled: bool, runWasActive: bool)
      requires Valid()
      modifies this`run, this`advances
      ensures Valid() && View() == Apply(old(View()), Reconcile)
      ensures runWasActive == reconciled == ReconcileRun(old(View())).1
      ensures reconciled <==> old(run).Some? && !IsIdle(old(run)) && !AnyJob(jobs, Pending) && !AnyJob(jobs, InProgress)
      ensures reconciled ==> IsIdle(run) && advances == old(advances) + if AnyJob(jobs, Failed) then 0 else 1
    {
      StepKeepsInv(View(), Reconcile);
      hide Inv;
      if AnyJob(jobs, Pending) || AnyJob(jobs, InProgress) {
        return false, false;
      }
      if run.None? || run.value.status.Idle? {
        return false, false;
      }
      run := Some(RunRow(Idle, run.value.workerCount, false));
      if !AnyJob(jobs, Failed) {
        advances := advances + 1;
      }
      return true, true;
    }

    /** `_maybe_finish_run`: the worker's own pool stops, whichever pool is registered is dropped. */
    method MaybeFinishRun(w: WorkerId)
      requires Valid() && Enabled(View(), ReconcileAsWorker(w))
      modifies this
      ensures Valid() && View() == Apply(old(View()), ReconcileAsWorker(w))
      ensures jobs == old(jobs) && forall v, j | Holds(workers, v, j) :: v != w && Holds(old(workers), v, j)
      ensures w in workers && workers[w].Done?
      ensures if run != old(run) then IsIdle(run) && active.None? && PoolStopped(View(), w.pool) else active == old(active) && pools == old(pools)
    {
      StepKeepsInv(View(), ReconcileAsWorker(w));
      LastPollFreesWorker(View(), w);
      LastPollIs(View(), w);
      ReconcileKeepsPools(View());
      hide Inv, AnyJob, ReconcileRun, Holds, Apply, PoolStopped, IsIdle;
      var _, runWasActive := ReconcileQuiescent();
      if runWasActive {
        pools := pools[w.pool := pools[w.pool].(stop := true)];
        active := None;
      }
      workers := workers[w := Done];
    }

    /** `ensure_workers_for_pending`: start only for pending work of a run left without a live pool. */
    method EnsureWorkersForPending(newPool: PoolId)
      requires Valid() && starter.NoStart? && newPool !in pools
      modifies this
      ensures Valid()
      ensures var s := old(View());
              if !Live(s) && AnyJob(s.jobs, Pending) && s.run.Some? && (s.run.value.status.Running? || s.run.value.status.Pausing?)
              then View() == Apply(s, StartBegin(s.run.value.workerCount, newPool))
              else View() == s
    {
      hide Inv;
      if active.Some? && active.value in pools && !pools[active.value].stop {
        return;
      }
      if !AnyJob(jobs, Pending) {
        return;
      }
      if run.None? || !(run.value.status.Running? || run.value.status.Pausing?) {
        return;
      }
      BeginStart(run.value.workerCount, newPool);
    }

    /** `cancel_job` up to stopping the job's container. A pending job is removed and a running one is
        marked for failing; no other job and no worker is touched. */
    method BeginCancel(j: JobId) returns (answer: CancelAnswer)
      requires Valid()
      modifies this`jobs, this`cancels
      ensures Valid()
      ensures answer.Removed? <==> j in old(jobs) && old(jobs)[j].Pending?
      ensures answer.Stopping? <==> j in old(jobs) && old(jobs)[j].InProgress?
      ensures answer.NotFound? <==> j !in old(jobs)
      ensures View() == match answer
                        case Removed => Apply(old(View()), Withdraw(j))
                        case Stopping => Apply(old(View()), CancelBegin(j))
                        case _ => old(View())
      ensures answer.Removed? ==> NobodyHolds(View(), j) && jobs == old(jobs) - {j}
    {
      if j !in jobs {
        return NotFound;
      }
      if jobs[j].Pending? {
        StepKeepsInv(View(), Withdraw(j));
        PendingIsFree(View(), j);
        hide Inv;
        jobs := jobs - {j};
        return Removed;
      }
      if !jobs[j].InProgress? {
        return Refused;
      }
      StepKeepsInv(View(), CancelBegin(j));
      hide Inv;
      cancels := cancels + multiset{j};
      return Stopping;
    }

    /** The end of `cancel_job`: the job is failed whatever its status is by now, and whoever executes it
        goes on executing it. */
    method CommitCancel(j: JobId)
      requires Valid() && Enabled(View(), CancelCommit(j))
      modifies this`jobs, this`cancels
      ensures Valid() && View() == Apply(old(View()), CancelCommit(j))
      ensures jobs == if j in old(jobs) then old(jobs)[j := Failed] else old(jobs)
      ensures forall w | Holds(workers, w, j) :: Enabled(View(), Finish(w, NoWrites)) && Overwrites(View(), Finish(w, NoWrites))
    {
      StepKeepsInv(View(), CancelCommit(j));
      if j in jobs {
        jobs := jobs[j := Failed];
      }
      cancels := cancels - multiset{j};
    }

    /** `reset_jobs_by_status`: the jobs of that status are pending again, whoever holds them, and whoever
        holds them still does. Two workers can then come to hold one job exactly if a held job was reset. */
    method ResetJobsByStatus(from: JobStatus)
      requires Enabled(View(), Reset({from}))
      modifies this`jobs
      ensures View() == Apply(old(View()), Reset({from}))
      ensures !AnyJob(jobs, from)
      ensures old(Valid()) ==> OneHolder(View()) && (CanDouble(View()) <==> !ResetSafe(old(View()), {from}))
      ensures old(Valid()) ==> (Valid() <==> ResetSafe(old(View()), {from}))
    {
      if Inv(View()) {
        ResetDoublesExactly(View(), {from});
        StepKeepsInv(View(), Reset({from}));
      }
      ResetLeavesNone(View(), from);
      hide Inv, ResetSafe, AnyJob, CanDouble, OneHolder;
      jobs := map j | j in jobs :: if jobs[j] == from then Pending else jobs[j];
    }

    /** `reset_all_non_pending`, one status after the other: two workers can then come to hold one job
        exactly if somebody executes. */
    method ResetAllNonPending()
      modifies this`jobs
      ensures View() == Apply(old(View()), Reset({InProgress, Completed, Failed}))
      ensures old(Valid()) ==> OneHolder(View()) && (CanDouble(View()) <==> !NobodyExecutes(old(View())))
      ensures old(Valid()) ==> (Valid() <==> NobodyExecutes(old(View())))
    {
      if Inv(View()) {
        ResetDoublesExactly(View(), {InProgress, Completed, Failed});
        StepKeepsInv(View(), Reset({InProgress, Completed, Failed}));
        ResetAllNeedsRest(View());
      }
      ResetsCompose(View());
      hide Inv, ResetSafe, NobodyExecutes, Apply, CanDouble, OneHolder;
      ResetJobsByStatus(InProgress);
      ResetJobsByStatus(Completed);
      ResetJobsByStatus(Failed);
    }

    /** `promote_completed_job_to_archived` */
    method PromoteCompletedJob(j: JobId) returns (promoted: bool)
      requires Valid()
      modifies this`jobs
      ensures Valid() && promoted == (j in old(jobs) && old(jobs)[j].Completed?)
      ensures View() == if promoted then Apply(old(View()), Promote(j)) else old(View())
      ensures promoted ==> jobs == old(jobs)[j := Archived]
    {
      if j in jobs && jobs[j].Completed? {
        StepKeepsInv(View(), Promote(j));
        hide Inv;
        jobs := jobs[j := Archived];
        return true;
      }
      return false;
    }
  }

  /** Nobody holds a pending job. */
  lemma PendingIsFree(s: State, j: JobId)
    requires Inv(s) && j in s.jobs && s.jobs[j].Pending?
    ensures NobodyHolds(s, j)
  {
  }

  lemma ReconcileKeepsPools(s: State)
    ensures ReconcileRun(s).0.pools == s.pools && ReconcileRun(s).0.workers == s.workers && Apply(s, Reconcile) == ReconcileRun(s).0
  {
    hide AnyJob;
  }

  lemma LastPollFreesWorker(s: State, w: WorkerId)
    requires Inv(s) && Enabled(s, ReconcileAsWorker(w))
    ensures Apply(s, ReconcileAsWorker(w)).jobs == s.jobs
    ensures forall v, j | Holds(Apply(s, ReconcileAsWorker(w)).workers, v, j) :: v != w && Holds(s.workers, v, j)
  {
    hide AnyJob;
    NoNewHolder(s.workers, Apply(s, ReconcileAsWorker(w)).workers, w, Done);
  }

  /** The last step of a worker, from the reconciled state on. */
  lemma LastPollIs(s: State, w: WorkerId)
    requires Enabled(s, ReconcileAsWorker(w))
    ensures var (r, finished), t := ReconcileRun(s), Apply(s, ReconcileAsWorker(w));
            && t == r.(pools := if finished then s.pools[w.pool := s.pools[w.pool].(stop := true)] else s.pools,
                       active := if finished then None else s.active, workers := s.workers[w := Done])
            && r.active == s.active && r.starter == s.starter && r.haltsPending == s.haltsPending && r.cancels == s.cancels && r.jobs == s.jobs
            && w in t.workers && t.workers[w].Done?
            && (finished <==> t.run != s.run) && (finished ==> IsIdle(t.run) && PoolStopped(t, w.pool))
  {
    hide AnyJob;
  }

  lemma ResetLeavesNone(s: State, from: JobStatus)
    requires Enabled(s, Reset({from}))
    ensures !AnyJob(Apply(s, Reset({from})).jobs, from)
  {
  }

  lemma ResetsCompose(s: State)
    ensures Apply(Apply(Apply(s, Reset({InProgress})), Reset({Completed})), Reset({Failed}))
            == Apply(s, Reset({InProgress, Completed, Failed}))
  {
    ResetsJoin(s, {InProgress}, {Completed});
    assert {InProgress} + {Completed} == {InProgress, Completed};
    ResetsJoin(s, {InProgress, Completed}, {Failed});
    assert {InProgress, Completed} + {Failed} == {InProgress, Completed, Failed};
  }

  lemma ResetsJoin(s: State, a: set<JobStatus>, b: set<JobStatus>)
    requires Enabled(s, Reset(a)) && Enabled(s, Reset(b)) && Pending !in a + b
    ensures Apply(Apply(s, Reset(a)), Reset(b)) == Apply(s, Reset(a + b))
  {
    assert Apply(Apply(s, Reset(a)), Reset(b)).jobs == Apply(s, Reset(a + b)).jobs;
  }

  lemma ResetAllNeedsRest(s: State)
    requires Inv(s)
    ensures ResetSafe(s, {InProgress, Completed, Failed}) <==> NobodyExecutes(s)
  {
    if !NobodyExecutes(s) {
      var w, j :| Holds(s.workers, w, j);
      assert j in s.jobs && (s.jobs[j].InProgress? || s.jobs[j].Failed?);
    }
  }

  lemma StartsNobody(s: State, a: Action)
    requires SlotsCounted(s) && Enabled(s, a) && a.StartBegin?
    ensures forall w, j | Holds(Apply(s, a).workers, w, j) :: Holds(s.workers, w, j)
  {
    forall w, j | Holds(Apply(s, a).workers, w, j)
      ensures Holds(s.workers, w, j)
    {
      OnlyClaimsStartWork(s, a, w, j);
    }
  }

  lemma PollGivesOneJob(s: State, w: WorkerId, claim: Option<JobId>)
    requires Inv(s) && Enabled(s, Poll(w, claim))
    ensures var t := Apply(s, Poll(w, claim));
            forall j | Holds(t.workers, w, j) ::
              claim == Some(j) && s.jobs[j].Pending? && t.jobs[j].InProgress? && forall v | Holds(t.workers, v, j) :: v == w
  {
    StepKeepsInv(s, Poll(w, claim));
  }

  /** The polling transaction, case by case. */
  lemma PollIs(s: State, w: WorkerId, claim: Option<JobId>)
    requires Enabled(s, Poll(w, claim))
    ensures var t := Apply(s, Poll(w, claim));
            t == if PauseRequested(s.run) then
                   s.(run := Some(RunRow(Paused, s.pools[w.pool].workerCount, true)),
                      pools := s.pools[w.pool := s.pools[w.pool].(stop := true)], workers := s.workers[w := Done])
                 else if claim.Some? then s.(jobs := s.jobs[claim.value := InProgress], workers := s.workers[w := Executing(claim.value)])
                 else if AnyJob(s.jobs, InProgress) || AnyJob(s.jobs, Pending) then s.(workers := s.workers[w := Looping])
                 else s.(workers := s.workers[w := Draining])
    ensures PauseRequested(s.run) ==> PoolStopped(Apply(s, Poll(w, claim)), w.pool)
  {
    hide AnyJob;
  }

  lemma FinishFreesJob(s: State, w: WorkerId, outcome: Outcome)
    requires Inv(s) && Enabled(s, Finish(w, outcome))
    ensures var t, j := Apply(s, Finish(w, outcome)), s.workers[w].job; j in s.jobs && forall v :: !Holds(t.workers, v, j)
  {
    var j := s.workers[w].job;
    assert Holds(s.workers, w, j);
    forall v
      ensures !Holds(Apply(s, Finish(w, outcome)).workers, v, j)
    {
      assert v != w && Holds(s.workers, v, j) ==> v == w;
    }
  }

  /** The workers with the loops of a pool from one index up to another added. */
  ghost function Grown(before: map<WorkerId, Phase>, p: PoolId, from: nat, to: nat): map<WorkerId, Phase> {
    before + map w | w in NewWorkers(p, from, to) :: Looping
  }

  lemma GrownByNone(before: map<WorkerId, Phase>, p: PoolId, from: nat, to: nat)
    requires from >= to
    ensures Grown(before, p, from, to) == before
  {
    assert NewWorkers(p, from, to) == {};
  }

  lemma OneMoreWorker(before: map<WorkerId, Phase>, p: PoolId, from: nat, to: nat, next: nat)
    requires from <= to && next == to + 1
    ensures Grown(before, p, from, to)[WorkerId(p, to) := Looping] == Grown(before, p, from, next)
  {
    assert NewWorkers(p, from, next) == NewWorkers(p, from, to) + {WorkerId(p, to)};
  }

  lemma GrownToTarget(before: map<WorkerId, Phase>, p: PoolId, from: nat, to: nat, target: nat)
    requires from <= to && to >= target && (to <= target || to == from)
    ensures Grown(before, p, from, to) == Grown(before, p, from, target)
  {
    hide Grown;
    if to != target {
      GrownByNone(before, p, from, to);
      GrownByNone(before, p, from, target);
    }
  }

  lemma SpawnGrows(s: State, p: PoolId, target: nat)
    requires p in s.pools
    ensures Grew(s, Spawn(s, p, target), p, target)
  {
    var pool := s.pools[p];
    assert forall v :: v in NewWorkers(p, pool.tasks, target) <==> v.pool == p && pool.tasks <= v.index < target;
  }

  lemma SpawnIsGrown(s: State, p: PoolId, target: nat)
    requires p in s.pools
    ensures var pool := s.pools[p];
            Spawn(s, p, target) == s.(workers := Grown(s.workers, p, pool.tasks, target),
                                      pools := s.pools[p := Pool(pool.stop, if pool.tasks > target then pool.tasks else target, target)])
  {
  }
}
