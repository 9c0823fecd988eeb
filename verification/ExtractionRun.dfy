/** The extraction run of one knowledge graph as a transition system. A step is one transaction of a
    worker or a control call, or one stretch of in-memory work between two awaits; any interleaving
    of steps is an execution. */
module ExtractionRun {
  import opened Wrappers

  type JobId = string
  datatype JobStatus = Pending | InProgress | Completed | Archived | Failed
  datatype RunStatus = Idle | Running | Pausing | Paused | Halted
  datatype RunRow = RunRow(status: RunStatus, workerCount: nat, pauseRequested: bool)

  datatype PoolId = PoolId(number: nat)
  datatype WorkerId = WorkerId(pool: PoolId, index: nat)
  /** `stop_event`, `len(tasks)` and `worker_count` of one orchestrator state. */
  datatype Pool = Pool(stop: bool, tasks: nat, workerCount: nat)
  /** Where a worker stands: before the loop test, before its polling transaction, inside the job
      executor, before reconciling a drained queue, or gone. */
  datatype Phase = Looping | Polling | Executing(job: JobId) | Draining | Done
  /** What the holder of the start lock still has to do. */
  datatype Starter = NoStart | CommitFresh(pool: PoolId) | SpawnFresh(pool: PoolId) | CommitScale(requested: nat)

  datatype State = State(
    jobs: map<JobId, JobStatus>,
    run: Option<RunRow>,
    pools: map<PoolId, Pool>,
    active: Option<PoolId>,
    workers: map<WorkerId, Phase>,
    starter: Starter,
    haltsPending: nat,
    advances: nat,
    cancels: multiset<JobId>)

  datatype Outcome = Wrote | NoWrites | Raised

  datatype Action =
    | StartBegin(count: nat, newPool: PoolId)
    | StartCommit
    | StartSpawn
    | RequestPause
    | StopWorkers
    | HaltBegin
    | HaltCommit
    | Reconcile
    | CheckStop(worker: WorkerId)
    | Poll(worker: WorkerId, claim: Option<JobId>)
    | Finish(worker: WorkerId, outcome: Outcome)
    | ReconcileAsWorker(worker: WorkerId)
    | Enqueue(job: JobId)
    | Withdraw(job: JobId)
    | CancelBegin(job: JobId)
    | CancelCommit(job: JobId)
    | Promote(job: JobId)
    | Reset(from: set<JobStatus>)

  // ---------------------------------------------------------------- pieces of steps

  predicate AnyJob(jobs: map<JobId, JobStatus>, status: JobStatus) {
    exists j | j in jobs :: jobs[j] == status
  }

  predicate PauseRequested(run: Option<RunRow>) {
    run.Some? && run.value.pauseRequested
  }

  function NewWorkers(pool: PoolId, from: nat, to: nat): set<WorkerId> {
    set i: nat | from <= i < to :: WorkerId(pool, i)
  }

  /** `_spawn_workers`: grow the task list to the target and record the target. */
  function Spawn(s: State, p: PoolId, target: nat): State
    requires p in s.pools
  {
    var pool := s.pools[p];
    s.(workers := s.workers + map w | w in NewWorkers(p, pool.tasks, target) :: Looping,
       pools := s.pools[p := Pool(pool.stop, if pool.tasks > target then pool.tasks else target, target)])
  }

  /** Set the stop event of the registered pool, cancel its tasks and drop it. */
  function StopActive(s: State): State {
    if s.active.None? || s.active.value !in s.pools then s.(active := None)
    else
      var p := s.active.value;
      s.(pools := s.pools[p := s.pools[p].(stop := true)],
         workers := map w | w in s.workers :: if w.pool == p then Done else s.workers[w],
         active := None)
  }

  /** `reconcile_quiescent_extraction_run`: the new state and whether an active run was finished. */
  function ReconcileRun(s: State): (State, bool) {
    if AnyJob(s.jobs, Pending) || AnyJob(s.jobs, InProgress) then (s, false)
    else if s.run.None? || s.run.value.status.Idle? then (s, false)
    else
      (s.(run := Some(RunRow(Idle, s.run.value.workerCount, false)),
          advances := if AnyJob(s.jobs, Failed) then s.advances else s.advances + 1), true)
  }

  function FinalStatus(outcome: Outcome): JobStatus {
    match outcome case Wrote => Archived case NoWrites => Completed case Raised => Failed
  }

  predicate Live(s: State) {
    s.active.Some? && s.active.value in s.pools && !s.pools[s.active.value].stop
  }

  predicate At(s: State, w: WorkerId, phase: Phase) {
    w in s.workers && s.workers[w] == phase && w.pool in s.pools
  }

  // ---------------------------------------------------------------- the steps

  predicate Enabled(s: State, a: Action) {
    match a
    case StartBegin(count, newPool) => s.starter.NoStart? && newPool !in s.pools
    case StartCommit => s.starter.CommitFresh? || s.starter.CommitScale?
    case StartSpawn => s.starter.SpawnFresh? && s.starter.pool in s.pools
    case RequestPause => true
    case StopWorkers => true
    case HaltBegin => true
    case HaltCommit => s.haltsPending > 0
    case Reconcile => true
    case CheckStop(w) => At(s, w, Looping)
    case Poll(w, claim) => At(s, w, Polling) && (claim.Some? ==> claim.value in s.jobs && s.jobs[claim.value].Pending?)
    case Finish(w, _) => w in s.workers && w.pool in s.pools && s.workers[w].Executing?
    case ReconcileAsWorker(w) => At(s, w, Draining)
    case Enqueue(j) => j !in s.jobs
    case Withdraw(j) => j in s.jobs && s.jobs[j].Pending?
    case CancelBegin(j) => j in s.jobs && s.jobs[j].InProgress?
    case CancelCommit(j) => j in s.cancels
    case Promote(j) => j in s.jobs && s.jobs[j].Completed?
    case Reset(from) => from <= {InProgress, Completed, Failed}
  }

  function Apply(s: State, a: Action): State
    requires Enabled(s, a)
  {
    match a
    case StartBegin(count, newPool) =>
      var requested := if count > 1 then count else 1;
      if Live(s) then
        if s.pools[s.active.value].workerCount < requested
        then Spawn(s, s.active.value, requested).(starter := CommitScale(requested))
        else s
      else s.(pools := s.pools[newPool := Pool(false, 0, requested)], active := Some(newPool), starter := CommitFresh(newPool))
    case StartCommit =>
      (match s.starter
       case CommitFresh(p) =>
         s.(run := Some(RunRow(Running, if p in s.pools then s.pools[p].workerCount else 1, false)), starter := SpawnFresh(p))
       case CommitScale(requested) => s.(run := Some(RunRow(Running, requested, false)), starter := NoStart)
       case _ => s)
    case StartSpawn =>
      var p := s.starter.pool;
      Spawn(s, p, s.pools[p].workerCount).(starter := NoStart)
    case RequestPause => s.(run := Some(RunRow(Pausing, 1, true)))
    case StopWorkers => StopActive(s)
    case HaltBegin => StopActive(s).(haltsPending := s.haltsPending + 1)
    case HaltCommit =>
      s.(jobs := map j | j in s.jobs :: if s.jobs[j].InProgress? then Failed else s.jobs[j],
         run := Some(RunRow(Halted, 1, false)),
         haltsPending := s.haltsPending - 1)
    case Reconcile => ReconcileRun(s).0
    case CheckStop(w) => s.(workers := s.workers[w := if s.pools[w.pool].stop then Done else Polling])
    case Poll(w, claim) =>
      if PauseRequested(s.run) then
        s.(run := Some(RunRow(Paused, s.pools[w.pool].workerCount, true)),
           pools := s.pools[w.pool := s.pools[w.pool].(stop := true)],
           workers := s.workers[w := Done])
      else if claim.Some? then
        s.(jobs := s.jobs[claim.value := InProgress], workers := s.workers[w := Executing(claim.value)])
      else if AnyJob(s.jobs, InProgress) || AnyJob(s.jobs, Pending) then s.(workers := s.workers[w := Looping])
      else s.(workers := s.workers[w := Draining])
    case Finish(w, outcome) =>
      var j := s.workers[w].job;
      s.(jobs := if j in s.jobs then s.jobs[j := FinalStatus(outcome)] else s.jobs, workers := s.workers[w := Looping])
    case ReconcileAsWorker(w) =>
      var (r, wasActive) := ReconcileRun(s);
      r.(pools := if wasActive then r.pools[w.pool := r.pools[w.pool].(stop := true)] else r.pools,
         active := if wasActive then None else r.active,
         workers := r.workers[w := Done])
    case Enqueue(j) => s.(jobs := s.jobs[j := Pending])
    case Withdraw(j) => s.(jobs := s.jobs - {j})
    case CancelBegin(j) => s.(cancels := s.cancels + multiset{j})
    case CancelCommit(j) => s.(jobs := if j in s.jobs then s.jobs[j := Failed] else s.jobs, cancels := s.cancels - multiset{j})
    case Promote(j) => s.(jobs := s.jobs[j := Archived])
    case Reset(from) => s.(jobs := map j | j in s.jobs :: if s.jobs[j] in from then Pending else s.jobs[j])
  }

  /** A process before any call: no pool yet, and whatever job table the process before it left behind. */
  ghost predicate Initial(s: State) {
    && s.pools == map[] && s.active.None? && s.workers == map[] && s.starter.NoStart?
    && s.haltsPending == 0 && s.cancels == multiset{}
  }

  ghost predicate Execution(states: seq<State>, actions: seq<Action>) {
    && |states| == |actions| + 1
    && forall i | 0 <= i < |actions| :: Enabled(states[i], actions[i]) && states[i + 1] == Apply(states[i], actions[i])
  }

  lemma StepOf(states: seq<State>, actions: seq<Action>, i: nat)
    requires Execution(states, actions) && i + 1 < |states|
    ensures i < |actions| && Enabled(states[i], actions[i]) && states[i + 1] == Apply(states[i], actions[i])
  {
    hide Enabled, Apply;
  }

  // ---------------------------------------------------------------- no job has two holders

  ghost predicate Holds(workers: map<WorkerId, Phase>, w: WorkerId, j: JobId) {
    w in workers && workers[w] == Executing(j)
  }

  /** A held job is in progress, or was marked failed by a halt or a cancellation while its holder ran on. */
  ghost predicate HeldJobsRun(s: State) {
    forall w, j | Holds(s.workers, w, j) :: j in s.jobs && (s.jobs[j].InProgress? || s.jobs[j].Failed?)
  }

  ghost predicate OneHolder(s: State) {
    forall v, w, j | Holds(s.workers, v, j) && Holds(s.workers, w, j) :: v == w
  }

  /** Worker slots beyond the task count of their pool are unused, so spawning never reuses one. */
  ghost predicate SlotsCounted(s: State) {
    && (forall w | w in s.workers :: w.pool in s.pools && w.index < s.pools[w.pool].tasks)
    && (s.starter.CommitFresh? ==> s.starter.pool in s.pools)
    && (s.starter.SpawnFresh? ==> s.starter.pool in s.pools)
  }

  ghost predicate Inv(s: State) {
    HeldJobsRun(s) && OneHolder(s) && SlotsCounted(s)
  }

  /** No held job has a status that is being reset. */
  ghost predicate ResetSafe(s: State, from: set<JobStatus>) {
    forall w, j | Holds(s.workers, w, j) && j in s.jobs :: s.jobs[j] !in from
  }

  ghost predicate SafeIfReset(s: State, a: Action) {
    a.Reset? ==> ResetSafe(s, a.from)
  }

  lemma SpawnKeepsHolders(s: State, p: PoolId, target: nat)
    requires SlotsCounted(s) && p in s.pools
    ensures SlotsCounted(Spawn(s, p, target))
    ensures forall w, j :: Holds(Spawn(s, p, target).workers, w, j) <==> Holds(s.workers, w, j)
    ensures Spawn(s, p, target).jobs == s.jobs
  {
    forall w | w in NewWorkers(p, s.pools[p].tasks, target)
      ensures w !in s.workers
    {
    }
  }

  lemma StopKeepsHolders(s: State)
    requires SlotsCounted(s)
    ensures SlotsCounted(StopActive(s)) && StopActive(s).jobs == s.jobs
    ensures forall w, j | Holds(StopActive(s).workers, w, j) :: Holds(s.workers, w, j) && s.active != Some(w.pool)
  {
  }

  predicate OfWorker(a: Action) {
    a.CheckStop? || a.Poll? || a.Finish? || a.ReconcileAsWorker?
  }

  lemma WorkerKeepsSlots(s: State, a: Action)
    requires SlotsCounted(s) && Enabled(s, a) && OfWorker(a)
    ensures SlotsCounted(Apply(s, a))
  {
    hide AnyJob;
  }

  /** Every step keeps the worker slots counted, resets of held jobs included. */
  lemma StepKeepsSlots(s: State, a: Action)
    requires SlotsCounted(s) && Enabled(s, a)
    ensures SlotsCounted(Apply(s, a))
  {
    hide AnyJob;
    if OfWorker(a) {
      WorkerKeepsSlots(s, a);
    } else {
      match a
      case StartBegin(count, newPool) =>
        if Live(s) {
          SpawnKeepsHolders(s, s.active.value, if count > 1 then count else 1);
        }
      case StartSpawn => SpawnKeepsHolders(s, s.starter.pool, s.pools[s.starter.pool].workerCount);
      case StopWorkers => StopKeepsHolders(s);
      case HaltBegin => StopKeepsHolders(s);
      case _ =>
    }
  }

  /** Only a claim gives a worker a job, and it takes a pending job while no pause is stored. */
  lemma OnlyClaimsStartWork(s: State, a: Action, w: WorkerId, j: JobId)
    requires SlotsCounted(s) && Enabled(s, a) && Holds(Apply(s, a).workers, w, j)
    ensures Holds(s.workers, w, j) || (a == Poll(w, Some(j)) && s.jobs[j].Pending? && !PauseRequested(s.run))
  {
    hide AnyJob;
    match a
    case StartBegin(count, newPool) =>
      if Live(s) {
        SpawnKeepsHolders(s, s.active.value, if count > 1 then count else 1);
      }
    case StartSpawn => SpawnKeepsHolders(s, s.starter.pool, s.pools[s.starter.pool].workerCount);
    case StopWorkers => StopKeepsHolders(s);
    case HaltBegin => StopKeepsHolders(s);
    case _ =>
  }

  /** Apart from claims, stored outcomes and resets, no step takes a job out of the two statuses that a
      held job may have. */
  lemma BusyJobsStay(s: State, a: Action, j: JobId)
    requires Enabled(s, a) && !a.Poll? && !a.Finish? && !a.Reset?
    requires j in s.jobs && (s.jobs[j].InProgress? || s.jobs[j].Failed?)
    ensures j in Apply(s, a).jobs && (Apply(s, a).jobs[j].InProgress? || Apply(s, a).jobs[j].Failed?)
  {
    hide AnyJob, Spawn, StopActive, ReconcileRun;
    if StartsOrStops(a) {
      StartsTouchNoJob(s, a);
      hide Apply;
    } else if a.Reconcile? || a.ReconcileAsWorker? {
      ReconcilingTouchesNoJob(s, a);
      hide Apply;
    }
  }

  lemma ReconcilingTouchesNoJob(s: State, a: Action)
    requires Enabled(s, a) && (a.Reconcile? || a.ReconcileAsWorker?)
    ensures Apply(s, a).jobs == s.jobs
  {
    hide AnyJob;
  }

  predicate StartsOrStops(a: Action) {
    a.StartBegin? || a.StartSpawn? || a.StopWorkers? || a.HaltBegin?
  }

  lemma StartsTouchNoJob(s: State, a: Action)
    requires Enabled(s, a) && StartsOrStops(a)
    ensures Apply(s, a).jobs == s.jobs
  {
    hide AnyJob;
  }

  /** Every step keeps the invariant, except that a reset keeps it exactly when it takes no job from a
      worker: a job that is pending again while somebody holds it is what two holders come from. */
  lemma StepKeepsInv(s: State, a: Action)
    requires Inv(s) && Enabled(s, a)
    ensures Inv(Apply(s, a)) <==> SafeIfReset(s, a)
  {
    hide Inv, Apply, Enabled, ResetSafe;
    match a
    case Poll(w, claim) => PollKeepsInv(s, w, claim);
    case Finish(w, outcome) => FinishKeepsInv(s, w, outcome);
    case Reset(from) => ResetKeepsInv(s, from);
    case _ => QuietStepKeepsInv(s, a);
  }

  lemma QuietStepKeepsInv(s: State, a: Action)
    requires Inv(s) && Enabled(s, a) && !a.Poll? && !a.Finish? && !a.Reset?
    ensures Inv(Apply(s, a))
  {
    hide Apply, Enabled, SlotsCounted;
    StepKeepsSlots(s, a);
    var t := Apply(s, a);
    forall w, j | Holds(t.workers, w, j)
      ensures Holds(s.workers, w, j) && j in t.jobs && (t.jobs[j].InProgress? || t.jobs[j].Failed?)
    {
      OnlyClaimsStartWork(s, a, w, j);
      BusyJobsStay(s, a, j);
    }
    FewerHolders(s, t);
  }

  lemma FewerHolders(s: State, t: State)
    requires Inv(s) && SlotsCounted(t)
    requires forall w, j | Holds(t.workers, w, j) ::
               Holds(s.workers, w, j) && j in t.jobs && (t.jobs[j].InProgress? || t.jobs[j].Failed?)
    ensures Inv(t)
  {
    hide SlotsCounted, Holds;
  }

  /** Resetting failed jobs is safe exactly when no held job is failed, resetting those in progress
      exactly when no held job is in progress, and resetting completed ones always. */
  lemma ResetKeepsInv(s: State, from: set<JobStatus>)
    requires Inv(s) && Enabled(s, Reset(from))
    ensures Inv(Apply(s, Reset(from))) <==> ResetSafe(s, from)
    ensures from <= {Completed} ==> ResetSafe(s, from)
  {
    var t := Apply(s, Reset(from));
    if !ResetSafe(s, from) {
      var w, j :| Holds(s.workers, w, j) && j in s.jobs && s.jobs[j] in from;
      assert Holds(t.workers, w, j) && t.jobs[j].Pending?;
    }
  }

  /** When one worker moves to a phase without a job, holders can only disappear. */
  lemma NoNewHolder(before: map<WorkerId, Phase>, after: map<WorkerId, Phase>, w: WorkerId, phase: Phase)
    requires w in before && !phase.Executing? && after == before[w := phase]
    ensures forall v, j | Holds(after, v, j) :: v != w && Holds(before, v, j)
  {
  }

  lemma PollKeepsInv(s: State, w: WorkerId, claim: Option<JobId>)
    requires Inv(s) && Enabled(s, Poll(w, claim))
    ensures Inv(Apply(s, Poll(w, claim)))
  {
    var t := Apply(s, Poll(w, claim));
    if !PauseRequested(s.run) && claim.Some? {
      forall v, j | Holds(t.workers, v, j)
        ensures (v == w && j == claim.value) || (v != w && j != claim.value && Holds(s.workers, v, j))
      {
        assert t.workers == s.workers[w := Executing(claim.value)];
        if v != w {
          assert Holds(s.workers, v, j);
        }
      }
    } else {
      NoNewHolder(s.workers, t.workers, w, t.workers[w]);
    }
  }

  lemma FinishKeepsInv(s: State, w: WorkerId, outcome: Outcome)
    requires Inv(s) && Enabled(s, Finish(w, outcome))
    ensures Inv(Apply(s, Finish(w, outcome)))
  {
    var t := Apply(s, Finish(w, outcome));
    assert Holds(s.workers, w, s.workers[w].job);
    NoNewHolder(s.workers, t.workers, w, Looping);
  }

  /** No reset of the execution takes a job away from a worker. */
  ghost predicate ResetsAreSafe(states: seq<State>, actions: seq<Action>)
    requires Execution(states, actions)
  {
    forall n | 0 <= n < |actions| :: SafeIfReset(states[n], actions[n])
  }

  /** In every execution whose resets are safe, at every moment, no two workers hold the same job. */
  lemma {:induction false} ExclusiveHolders(states: seq<State>, actions: seq<Action>, i: nat)
    requires Execution(states, actions) && Initial(states[0]) && ResetsAreSafe(states, actions) && i < |states|
    ensures Inv(states[i])
    decreases i
  {
    if i > 0 {
      hide Execution, Enabled, Apply, Inv, Initial, SafeIfReset;
      StepOf(states, actions, i - 1);
      ExclusiveHolders(states, actions, i - 1);
      StepKeepsInv(states[i - 1], actions[i - 1]);
    }
  }

  lemma NobodyAtFirst(s: State, w: WorkerId, j: JobId)
    requires Initial(s)
    ensures !Holds(s.workers, w, j)
  {
  }

  lemma {:induction false} SlotsStayCounted(states: seq<State>, actions: seq<Action>, i: nat)
    requires Execution(states, actions) && Initial(states[0]) && i < |states|
    ensures SlotsCounted(states[i])
    decreases i
  {
    if i > 0 {
      hide Execution, Enabled, Apply, SlotsCounted, Initial;
      StepOf(states, actions, i - 1);
      SlotsStayCounted(states, actions, i - 1);
      StepKeepsSlots(states[i - 1], actions[i - 1]);
    }
  }

  /** In every execution, whatever is reset, whoever holds a job claimed it from pending and has held it
      ever since. */
  lemma {:induction false} HeldJobsWereClaimed(states: seq<State>, actions: seq<Action>, i: nat, w: WorkerId, j: JobId) returns (k: nat)
    requires Execution(states, actions) && Initial(states[0]) && i < |states| && Holds(states[i].workers, w, j)
    ensures k < i && actions[k] == Poll(w, Some(j)) && j in states[k].jobs && states[k].jobs[j].Pending?
    ensures !PauseRequested(states[k].run)
    ensures forall n | k < n <= i :: Holds(states[n].workers, w, j)
    decreases i
  {
    hide Execution, Initial, Apply, SlotsCounted, Holds;
    NobodyAtFirst(states[0], w, j);
    SlotsStayCounted(states, actions, i - 1);
    StepOf(states, actions, i - 1);
    OnlyClaimsStartWork(states[i - 1], actions[i - 1], w, j);
    if Holds(states[i - 1].workers, w, j) {
      k := HeldJobsWereClaimed(states, actions, i - 1, w, j);
    } else {
      k := i - 1;
    }
  }

  // ---------------------------------------------------------------- pausing

  predicate ClearsPause(a: Action) {
    a.StartCommit? || a.HaltCommit? || a.Reconcile? || a.ReconcileAsWorker?
  }

  lemma PausedStep(s: State, a: Action)
    requires Enabled(s, a) && PauseRequested(s.run) && !ClearsPause(a)
    ensures PauseRequested(Apply(s, a).run)
    ensures forall j | j in Apply(s, a).jobs && Apply(s, a).jobs[j].InProgress? :: j in s.jobs && s.jobs[j].InProgress?
  {
  }

  /** From a stored pause until a start, a halt or a reconciliation commits, running jobs only drain. */
  lemma {:induction false} PauseDrains(states: seq<State>, actions: seq<Action>, i: nat, k: nat)
    requires Execution(states, actions) && i <= k < |states| && PauseRequested(states[i].run)
    requires forall n | i <= n < k :: !ClearsPause(actions[n])
    ensures PauseRequested(states[k].run)
    ensures forall j | j in states[k].jobs && states[k].jobs[j].InProgress? :: j in states[i].jobs && states[i].jobs[j].InProgress?
    decreases k - i
  {
    hide Execution, Enabled, Apply, PauseRequested, ClearsPause;
    if i < k {
      StepOf(states, actions, k - 1);
      PauseDrains(states, actions, i, k - 1);
      PausedStep(states[k - 1], actions[k - 1]);
    }
  }

  // ---------------------------------------------------------------- stopping

  predicate PoolStopped(s: State, p: PoolId) {
    p in s.pools && s.pools[p].stop
  }

  /** Between these two moments the worker came to hold a job that it did not hold before. */
  ghost predicate Gains(s: State, t: State, w: WorkerId) {
    exists j :: Holds(t.workers, w, j) && !Holds(s.workers, w, j)
  }

  /** How many jobs the worker came to hold from moment `i` to moment `k`. */
  ghost function Gained(states: seq<State>, w: WorkerId, i: nat, k: nat): nat
    requires i <= k < |states|
    decreases k
  {
    if i == k then 0 else Gained(states, w, i, k - 1) + if Gains(states[k - 1], states[k], w) then 1 else 0
  }

  /** The poll that a worker is already in. */
  function PollUnderWay(s: State, w: WorkerId): nat {
    if w in s.workers && s.workers[w].Polling? then 1 else 0
  }

  lemma StoppedStep(s: State, a: Action, w: WorkerId)
    requires Enabled(s, a) && PoolStopped(s, w.pool)
    ensures PoolStopped(Apply(s, a), w.pool)
    ensures PollUnderWay(Apply(s, a), w) + (if Gains(s, Apply(s, a), w) then 1 else 0) <= PollUnderWay(s, w)
  {
    hide Apply, Enabled, PoolStopped, PollUnderWay, Gains;
    if OfWorker(a) {
      StoppedStepOfWorker(s, a, w);
    } else {
      StoppedStepOfOthers(s, a, w);
    }
  }

  lemma StoppedStepOfWorker(s: State, a: Action, w: WorkerId)
    requires Enabled(s, a) && PoolStopped(s, w.pool) && OfWorker(a)
    ensures PoolStopped(Apply(s, a), w.pool)
    ensures PollUnderWay(Apply(s, a), w) + (if Gains(s, Apply(s, a), w) then 1 else 0) <= PollUnderWay(s, w)
  {
    hide AnyJob;
  }

  lemma StoppedStepOfOthers(s: State, a: Action, w: WorkerId)
    requires Enabled(s, a) && PoolStopped(s, w.pool) && !OfWorker(a)
    ensures PoolStopped(Apply(s, a), w.pool)
    ensures PollUnderWay(Apply(s, a), w) + (if Gains(s, Apply(s, a), w) then 1 else 0) <= PollUnderWay(s, w)
  {
    hide AnyJob, ReconcileRun;
    if a.Reconcile? {
      ReconcilingLeavesWorkers(s);
    }
  }

  lemma ReconcilingLeavesWorkers(s: State)
    ensures Apply(s, Reconcile).workers == s.workers && Apply(s, Reconcile).pools == s.pools
  {
    hide AnyJob;
  }

  /** A stop event stays set, and from then on each worker of the pool comes to hold at most the one job that it
      was already polling for. */
  lemma {:induction false} StoppedPoolWindsDown(states: seq<State>, actions: seq<Action>, i: nat, k: nat, w: WorkerId)
    requires Execution(states, actions) && i <= k < |states| && PoolStopped(states[i], w.pool)
    ensures PoolStopped(states[k], w.pool)
    ensures Gained(states, w, i, k) + PollUnderWay(states[k], w) <= PollUnderWay(states[i], w)
    decreases k
  {
    hide Execution, Enabled, Apply, PoolStopped, PollUnderWay, Gains;
    if i < k {
      StepOf(states, actions, k - 1);
      StoppedPoolWindsDown(states, actions, i, k - 1, w);
      StoppedStep(states[k - 1], actions[k - 1], w);
    }
  }

  /** Once the workers of the registered pool are stopped, by themselves or by a halt, none of them ever comes to
      hold a job, not even one whose task was still to be started. */
  lemma StoppedRunClaimsNothing(states: seq<State>, actions: seq<Action>, i: nat, k: nat, w: WorkerId)
    requires Execution(states, actions) && i < k < |states| && (actions[i].StopWorkers? || actions[i].HaltBegin?)
    requires states[i].active == Some(w.pool) && w.pool in states[i].pools
    ensures Gained(states, w, i + 1, k) == 0
  {
    hide Execution, Apply, Enabled, PoolStopped, PollUnderWay, Gained;
    StepOf(states, actions, i);
    StopEndsPolls(states[i], actions[i], w);
    StoppedPoolWindsDown(states, actions, i + 1, k, w);
  }

  lemma StopEndsPolls(s: State, a: Action, w: WorkerId)
    requires (a.StopWorkers? || a.HaltBegin?) && s.active == Some(w.pool) && w.pool in s.pools
    ensures PoolStopped(Apply(s, a), w.pool) && PollUnderWay(Apply(s, a), w) == 0
  {
  }

  /** A row turns to paused only when a worker honours the pause, and its pool is stopped with it. */
  lemma PausedPoolIsStopped(s: State, a: Action)
    requires Enabled(s, a) && s.run != Apply(s, a).run && Apply(s, a).run.Some? && Apply(s, a).run.value.status.Paused?
    ensures a.Poll? && PauseRequested(s.run) && PoolStopped(Apply(s, a), a.worker.pool)
  {
    hide AnyJob;
  }

  /** Jobs come and go as pending ones only. */
  lemma JobsComeAndGoPending(s: State, a: Action, j: JobId)
    requires Enabled(s, a)
    ensures j !in s.jobs ==> (j in Apply(s, a).jobs <==> a == Enqueue(j)) && (a == Enqueue(j) ==> Apply(s, a).jobs[j].Pending?)
    ensures j in s.jobs ==> (j !in Apply(s, a).jobs <==> a == Withdraw(j)) && (a == Withdraw(j) ==> s.jobs[j].Pending?)
  {
    hide AnyJob;
  }

  // ---------------------------------------------------------------- status only moves forward

  /** Pending to in progress to a final status, and from completed to archived; never back. */
  predicate Forward(before: JobStatus, after: JobStatus) {
    || before == after
    || (before.Pending? && after.InProgress?)
    || (before.InProgress? && (after.Completed? || after.Archived? || after.Failed?))
    || (before.Completed? && after.Archived?)
  }

  /** The job of this worker has been failed, and the worker now stores a success over it. */
  predicate Overwrites(s: State, a: Action)
    requires Enabled(s, a)
  {
    && a.Finish? && !a.outcome.Raised?
    && s.workers[a.worker].job in s.jobs && s.jobs[s.workers[a.worker].job].Failed?
  }

  /** A cancellation that commits after its job has left the executor: it fails a job that is finished, or
      pending again. */
  predicate CancelsLate(s: State, a: Action) {
    a.CancelCommit? && a.job in s.jobs && !s.jobs[a.job].InProgress? && !s.jobs[a.job].Failed?
  }

  predicate ResetsSome(s: State, a: Action) {
    a.Reset? && exists j | j in s.jobs :: s.jobs[j] in a.from
  }

  ghost predicate AllForward(before: map<JobId, JobStatus>, after: map<JobId, JobStatus>) {
    forall j | j in before && j in after :: Forward(before[j], after[j])
  }

  /** A step moves every job forward unless, and only unless, it overwrites a failed job, cancels one too
      late, or resets one. */
  lemma StepIsForward(s: State, a: Action)
    requires Inv(s) && Enabled(s, a)
    ensures AllForward(s.jobs, Apply(s, a).jobs) <==> !Overwrites(s, a) && !CancelsLate(s, a) && !ResetsSome(s, a)
  {
    hide Inv, Enabled, Apply, AllForward;
    match a
    case Finish(w, outcome) => FinishIsForward(s, w, outcome);
    case CancelCommit(j) => CancelIsForward(s, j);
    case Reset(from) => ResetIsForward(s, from);
    case _ => QuietStepIsForward(s, a);
  }

  lemma QuietStepIsForward(s: State, a: Action)
    requires Enabled(s, a) && !a.Finish? && !a.CancelCommit? && !a.Reset?
    ensures AllForward(s.jobs, Apply(s, a).jobs)
  {
    hide AnyJob;
    if StartsOrStops(a) {
      StartsTouchNoJob(s, a);
    }
  }

  lemma FinishIsForward(s: State, w: WorkerId, outcome: Outcome)
    requires Inv(s) && Enabled(s, Finish(w, outcome))
    ensures AllForward(s.jobs, Apply(s, Finish(w, outcome)).jobs) <==> !Overwrites(s, Finish(w, outcome))
  {
    var j := s.workers[w].job;
    assert Holds(s.workers, w, j);
    OneJobMoves(s.jobs, j, FinalStatus(outcome));
  }

  lemma CancelIsForward(s: State, j: JobId)
    requires Enabled(s, CancelCommit(j))
    ensures AllForward(s.jobs, Apply(s, CancelCommit(j)).jobs) <==> !CancelsLate(s, CancelCommit(j))
  {
    if j in s.jobs {
      OneJobMoves(s.jobs, j, Failed);
    }
  }

  lemma OneJobMoves(jobs: map<JobId, JobStatus>, j: JobId, status: JobStatus)
    requires j in jobs
    ensures AllForward(jobs, jobs[j := status]) <==> Forward(jobs[j], status)
  {
    assert jobs[j := status][j] == status;
  }

  lemma ResetIsForward(s: State, from: set<JobStatus>)
    requires Enabled(s, Reset(from))
    ensures AllForward(s.jobs, Apply(s, Reset(from)).jobs) <==> !ResetsSome(s, Reset(from))
  {
    assert forall j | j in s.jobs && s.jobs[j] in from :: !Forward(s.jobs[j], Apply(s, Reset(from)).jobs[j]);
  }

  ghost predicate NobodyExecutes(s: State) {
    forall w, j :: !Holds(s.workers, w, j)
  }

  ghost predicate HeldInProgress(s: State) {
    forall w, j | Holds(s.workers, w, j) :: j in s.jobs && s.jobs[j].InProgress?
  }

  ghost predicate NobodyHolds(s: State, j: JobId) {
    forall w :: !Holds(s.workers, w, j)
  }

  /** Neither a halt nor a reset of jobs in progress commits while a worker is inside the executor, and no
      held job is cancelled. */
  ghost predicate Undisturbed(s: State, a: Action) {
    && (a.HaltCommit? || (a.Reset? && InProgress in a.from) ==> NobodyExecutes(s))
    && (a.CancelCommit? ==> NobodyHolds(s, a.job))
  }

  /** While every held job is in progress, a step leaves it so if and only if it disturbs no worker. */
  lemma HeldStayInProgress(s: State, a: Action)
    requires Inv(s) && HeldInProgress(s) && Enabled(s, a)
    ensures HeldInProgress(Apply(s, a)) <==> Undisturbed(s, a)
  {
    if Undisturbed(s, a) {
      UndisturbedStay(s, a);
    } else {
      DisturbedFail(s, a);
    }
  }

  lemma UndisturbedStay(s: State, a: Action)
    requires Inv(s) && HeldInProgress(s) && Enabled(s, a) && Undisturbed(s, a)
    ensures Inv(Apply(s, a)) && HeldInProgress(Apply(s, a))
  {
    var t := Apply(s, a);
    StepKeepsInv(s, a);
    forall w, j | Holds(t.workers, w, j)
      ensures j in t.jobs && t.jobs[j].InProgress?
    {
      OnlyClaimsStartWork(s, a, w, j);
      if Holds(s.workers, w, j) && a.Finish? {
        assert Holds(s.workers, a.worker, s.workers[a.worker].job);
      }
    }
  }

  lemma DisturbedFail(s: State, a: Action)
    requires HeldInProgress(s) && Enabled(s, a) && !Undisturbed(s, a)
    ensures !HeldInProgress(Apply(s, a))
  {
    var t := Apply(s, a);
    if a.CancelCommit? {
      var w :| Holds(s.workers, w, a.job);
      assert Holds(t.workers, w, a.job) && !t.jobs[a.job].InProgress?;
    } else {
      var w, j :| Holds(s.workers, w, j);
      assert Holds(t.workers, w, j) && !t.jobs[j].InProgress?;
    }
  }

  /** If executing workers are left undisturbed, every held job is in progress, no job has two holders,
      and statuses only move forward except where an operator resets them or cancels too late. */
  lemma {:induction false} CleanHaltsKeepOrder(states: seq<State>, actions: seq<Action>, i: nat)
    requires Execution(states, actions) && Initial(states[0]) && i < |actions|
    requires forall n | 0 <= n < |actions| :: Undisturbed(states[n], actions[n])
    ensures Inv(states[i]) && HeldInProgress(states[i])
    ensures AllForward(states[i].jobs, states[i + 1].jobs)
            <==> !CancelsLate(states[i], actions[i]) && !ResetsSome(states[i], actions[i])
    decreases i
  {
    StepOf(states, actions, i);
    hide Execution, Apply, Undisturbed, AllForward;
    if i > 0 {
      StepOf(states, actions, i - 1);
      CleanHaltsKeepOrder(states, actions, i - 1);
      UndisturbedStay(states[i - 1], actions[i - 1]);
    }
    if actions[i].Finish? {
      assert Holds(states[i].workers, actions[i].worker, states[i].workers[actions[i].worker].job);
    }
    StepIsForward(states[i], actions[i]);
  }

  /** Once the job of an executing worker has been failed, that worker's success is a possible next step,
      and it takes the job from failed to completed. */
  lemma SuccessAfterFailure(s: State, w: WorkerId, j: JobId)
    requires SlotsCounted(s) && Holds(s.workers, w, j) && j in s.jobs && s.jobs[j].Failed?
    ensures Enabled(s, Finish(w, NoWrites)) && Apply(s, Finish(w, NoWrites)).jobs[j].Completed?
  {
  }

  /** A halt that commits while a worker executes fails its job and lets the worker run on. */
  lemma DirtyHaltBreaksOrder(s: State, w: WorkerId, j: JobId)
    requires Inv(s) && Enabled(s, HaltCommit) && Holds(s.workers, w, j)
    ensures var halted := Apply(s, HaltCommit);
            && Enabled(halted, Finish(w, NoWrites))
            && halted.jobs[j].Failed?
            && Apply(halted, Finish(w, NoWrites)).jobs[j].Completed?
  {
    SuccessAfterFailure(Apply(s, HaltCommit), w, j);
  }

  /** So does a cancellation of its job. */
  lemma DirtyCancelBreaksOrder(s: State, w: WorkerId, j: JobId)
    requires Inv(s) && Enabled(s, CancelCommit(j)) && Holds(s.workers, w, j)
    ensures var cancelled := Apply(s, CancelCommit(j));
            && Enabled(cancelled, Finish(w, NoWrites))
            && cancelled.jobs[j].Failed?
            && Apply(cancelled, Finish(w, NoWrites)).jobs[j].Completed?
  {
    SuccessAfterFailure(Apply(s, CancelCommit(j)), w, j);
  }

  /** The state after a sequence of steps, if each is enabled when its turn comes. */
  function After(s: State, actions: seq<Action>): Option<State>
    decreases |actions|
  {
    if actions == [] then Some(s)
    else if Enabled(s, actions[0]) then After(Apply(s, actions[0]), actions[1..])
    else None
  }

  lemma {:induction false} AfterAppends(s: State, a: seq<Action>, b: seq<Action>)
    requires After(s, a).Some?
    ensures After(s, a + b) == After(After(s, a).value, b)
    decreases |a|
  {
    if a == [] {
      assert a + b == b;
    } else {
      AfterAppends(Apply(s, a[0]), a[1..], b);
      assert (a + b)[1..] == a[1..] + b;
    }
  }

  /** One enabled step. */
  ghost predicate Moves(s: State, a: Action, t: State) {
    Enabled(s, a) && Apply(s, a) == t
  }

  lemma AfterOne(s: State, a: Action, t: State)
    requires Moves(s, a, t)
    ensures After(s, [a]) == Some(t)
  {
    hide Apply;
    assert [a][1..] == [];
    assert After(t, []) == Some(t);
  }

  lemma AfterBoth(s: State, a: seq<Action>, t: State, b: seq<Action>, u: State)
    requires After(s, a) == Some(t) && After(t, b) == Some(u)
    ensures After(s, a + b) == Some(u)
  {
    hide Apply, Enabled;
    AfterAppends(s, a, b);
  }

  lemma AfterTwo(s: State, a: Action, t: State, b: Action, u: State)
    requires Moves(s, a, t) && Moves(t, b, u)
    ensures After(s, [a, b]) == Some(u)
  {
    AfterOne(s, a, t);
    AfterOne(t, b, u);
    hide After, Moves;
    AfterBoth(s, [a], t, [b], u);
    assert [a] + [b] == [a, b];
  }

  lemma AfterThree(s: State, a: Action, t: State, b: Action, u: State, c: Action, v: State)
    requires Moves(s, a, t) && Moves(t, b, u) && Moves(u, c, v)
    ensures After(s, [a, b, c]) == Some(v)
  {
    AfterTwo(s, a, t, b, u);
    AfterOne(u, c, v);
    hide After, Moves;
    AfterBoth(s, [a, b], u, [c], v);
    assert [a, b] + [c] == [a, b, c];
  }

  const FIRST_POOL := PoolId(0)
  const SECOND_POOL := PoolId(1)

  /** One pending job and nobody at work. */
  ghost function Fresh(j: JobId): State {
    State(map[j := Pending], None, map[], None, map[], NoStart, 0, 0, multiset{})
  }

  /** Two workers started on one pending job. */
  ghost function Started(j: JobId): State {
    State(map[j := Pending], Some(RunRow(Running, 2, false)), map[FIRST_POOL := Pool(false, 2, 2)], Some(FIRST_POOL),
          map[WorkerId(FIRST_POOL, 0) := Looping, WorkerId(FIRST_POOL, 1) := Looping], NoStart, 0, 0, multiset{})
  }

  /** The second worker has claimed the job. */
  ghost function Claimed(j: JobId): State {
    Started(j).(jobs := map[j := InProgress],
                workers := map[WorkerId(FIRST_POOL, 0) := Looping, WorkerId(FIRST_POOL, 1) := Executing(j)])
  }

  /** The second worker is executing the job; the first has honoured a pause and stopped the pool. */
  ghost function PausedOver(j: JobId): State {
    State(map[j := InProgress], Some(RunRow(Paused, 2, true)), map[FIRST_POOL := Pool(true, 2, 2)], Some(FIRST_POOL),
          map[WorkerId(FIRST_POOL, 0) := Done, WorkerId(FIRST_POOL, 1) := Executing(j)], NoStart, 0, 0, multiset{})
  }

  lemma SpawnTwo(s: State)
    requires s.pools == map[FIRST_POOL := Pool(false, 0, 2)] && s.workers == map[] && s.starter == SpawnFresh(FIRST_POOL)
    ensures Moves(s, StartSpawn, s.(workers := map[WorkerId(FIRST_POOL, 0) := Looping, WorkerId(FIRST_POOL, 1) := Looping],
                                    pools := map[FIRST_POOL := Pool(false, 2, 2)], starter := NoStart))
  {
    assert NewWorkers(FIRST_POOL, 0, 2) == {WorkerId(FIRST_POOL, 0), WorkerId(FIRST_POOL, 1)};
  }

  lemma ReachStarted(j: JobId)
    ensures After(Fresh(j), [StartBegin(2, FIRST_POOL), StartCommit, StartSpawn]) == Some(Started(j))
  {
    var begun := Fresh(j).(pools := map[FIRST_POOL := Pool(false, 0, 2)], active := Some(FIRST_POOL), starter := CommitFresh(FIRST_POOL));
    var committed := begun.(run := Some(RunRow(Running, 2, false)), starter := SpawnFresh(FIRST_POOL));
    assert Moves(Fresh(j), StartBegin(2, FIRST_POOL), begun);
    assert Moves(begun, StartCommit, committed);
    SpawnTwo(committed);
    hide After, Moves;
    AfterThree(Fresh(j), StartBegin(2, FIRST_POOL), begun, StartCommit, committed, StartSpawn, Started(j));
  }

  lemma ReachClaimed(j: JobId)
    ensures var second := WorkerId(FIRST_POOL, 1);
            After(Started(j), [CheckStop(second), Poll(second, Some(j))]) == Some(Claimed(j))
  {
    var second := WorkerId(FIRST_POOL, 1);
    var polling := Started(j).(workers := map[WorkerId(FIRST_POOL, 0) := Looping, second := Polling]);
    assert Moves(Started(j), CheckStop(second), polling) by { hide AnyJob; }
    assert Moves(polling, Poll(second, Some(j)), Claimed(j)) by {
      hide AnyJob;
      assert polling.workers[second := Executing(j)] == Claimed(j).workers;
    }
    hide After, Moves, Started, Claimed;
    AfterTwo(Started(j), CheckStop(second), polling, Poll(second, Some(j)), Claimed(j));
  }

  lemma PauseHonoured(j: JobId, s: State)
    requires s == PausedOver(j).(run := Some(RunRow(Pausing, 1, true)), pools := map[FIRST_POOL := Pool(false, 2, 2)],
                                 workers := map[WorkerId(FIRST_POOL, 0) := Polling, WorkerId(FIRST_POOL, 1) := Executing(j)])
    ensures Moves(s, Poll(WorkerId(FIRST_POOL, 0), None), PausedOver(j))
  {
    hide AnyJob;
    var first := WorkerId(FIRST_POOL, 0);
    assert s.workers[first := Done] == PausedOver(j).workers;
    assert s.pools[FIRST_POOL := Pool(true, 2, 2)] == PausedOver(j).pools;
  }

  lemma ReachPaused(j: JobId)
    ensures var first := WorkerId(FIRST_POOL, 0);
            After(Claimed(j), [RequestPause, CheckStop(first), Poll(first, None)]) == Some(PausedOver(j))
  {
    var first := WorkerId(FIRST_POOL, 0);
    var asked := Claimed(j).(run := Some(RunRow(Pausing, 1, true)));
    var polling := asked.(workers := map[first := Polling, WorkerId(FIRST_POOL, 1) := Executing(j)]);
    assert Moves(Claimed(j), RequestPause, asked);
    assert Moves(asked, CheckStop(first), polling) by { hide AnyJob; }
    PauseHonoured(j, polling);
    hide After, Moves;
    AfterThree(Claimed(j), RequestPause, asked, CheckStop(first), polling, Poll(first, None), PausedOver(j));
  }

  /** A start, and a claim by the second worker. */
  function ClaimingRun(j: JobId): seq<Action> {
    var second := WorkerId(FIRST_POOL, 1);
    [StartBegin(2, FIRST_POOL), StartCommit, StartSpawn] + [CheckStop(second), Poll(second, Some(j))]
  }

  lemma ReachClaimedOver(j: JobId)
    ensures After(Fresh(j), ClaimingRun(j)) == Some(Claimed(j))
  {
    var second := WorkerId(FIRST_POOL, 1);
    ReachStarted(j);
    ReachClaimed(j);
    hide After;
    AfterBoth(Fresh(j), [StartBegin(2, FIRST_POOL), StartCommit, StartSpawn], Started(j),
              [CheckStop(second), Poll(second, Some(j))], Claimed(j));
  }

  /** The same, and a pause honoured by the first worker. */
  function PausingRun(j: JobId): seq<Action> {
    var first := WorkerId(FIRST_POOL, 0);
    ClaimingRun(j) + [RequestPause, CheckStop(first), Poll(first, None)]
  }

  lemma ReachPausedOver(j: JobId)
    ensures After(Fresh(j), PausingRun(j)) == Some(PausedOver(j))
  {
    var first := WorkerId(FIRST_POOL, 0);
    ReachClaimedOver(j);
    ReachPaused(j);
    hide After, ClaimingRun;
    AfterBoth(Fresh(j), ClaimingRun(j), Claimed(j), [RequestPause, CheckStop(first), Poll(first, None)], PausedOver(j));
  }

  /** A start that finds no live pool runs one worker in a new one. */
  ghost function Restarted(s: State, p: PoolId): State {
    s.(run := Some(RunRow(Running, 1, false)), pools := s.pools[p := Pool(false, 1, 1)], active := Some(p),
       workers := s.workers[WorkerId(p, 0) := Looping])
  }

  lemma Restart(s: State, p: PoolId)
    requires s.starter.NoStart? && p !in s.pools && !Live(s) && WorkerId(p, 0) !in s.workers
    ensures After(s, [StartBegin(1, p), StartCommit, StartSpawn]) == Some(Restarted(s, p))
  {
    var begun := s.(pools := s.pools[p := Pool(false, 0, 1)], active := Some(p), starter := CommitFresh(p));
    var committed := begun.(run := Some(RunRow(Running, 1, false)), starter := SpawnFresh(p));
    assert Moves(s, StartBegin(1, p), begun);
    assert Moves(begun, StartCommit, committed);
    SpawnOne(committed, p);
    assert committed.pools[p := Pool(false, 1, 1)] == s.pools[p := Pool(false, 1, 1)];
    hide After, Moves;
    AfterThree(s, StartBegin(1, p), begun, StartCommit, committed, StartSpawn, Restarted(s, p));
  }

  lemma SpawnOne(s: State, p: PoolId)
    requires p in s.pools && s.pools[p] == Pool(false, 0, 1) && s.starter == SpawnFresh(p)
    ensures Moves(s, StartSpawn, s.(workers := s.workers[WorkerId(p, 0) := Looping],
                                    pools := s.pools[p := Pool(false, 1, 1)], starter := NoStart))
  {
    assert NewWorkers(p, 0, 1) == {WorkerId(p, 0)};
    var added: map<WorkerId, Phase> := map w | w in NewWorkers(p, 0, 1) :: Looping;
    assert s.workers + added == s.workers[WorkerId(p, 0) := Looping];
  }

  /** A halt has begun, the restarted pool is stopped, and the worker of the paused one still executes. */
  ghost function HaltingOver(j: JobId): State {
    State(map[j := InProgress], Some(RunRow(Running, 1, false)),
          map[FIRST_POOL := Pool(true, 2, 2), SECOND_POOL := Pool(true, 1, 1)], None,
          map[WorkerId(FIRST_POOL, 0) := Done, WorkerId(FIRST_POOL, 1) := Executing(j), WorkerId(SECOND_POOL, 0) := Done],
          NoStart, 1, 0, multiset{})
  }

  lemma HaltStopsRestarted(j: JobId)
    ensures Moves(Restarted(PausedOver(j), SECOND_POOL), HaltBegin, HaltingOver(j))
  {
    var s := Restarted(PausedOver(j), SECOND_POOL);
    var workers := map w | w in s.workers :: if w.pool == SECOND_POOL then Done else s.workers[w];
    assert workers == HaltingOver(j).workers;
    assert s.pools[SECOND_POOL := Pool(true, 1, 1)] == HaltingOver(j).pools;
  }

  lemma ReachHalting(j: JobId)
    ensures After(Fresh(j), PausingRun(j) + [StartBegin(1, SECOND_POOL), StartCommit, StartSpawn] + [HaltBegin]) == Some(HaltingOver(j))
  {
    var running := Restarted(PausedOver(j), SECOND_POOL);
    ReachPausedOver(j);
    Restart(PausedOver(j), SECOND_POOL);
    HaltStopsRestarted(j);
    AfterOne(running, HaltBegin, HaltingOver(j));
    hide After, Moves, PausingRun;
    AfterBoth(Fresh(j), PausingRun(j), PausedOver(j), [StartBegin(1, SECOND_POOL), StartCommit, StartSpawn], running);
    AfterBoth(Fresh(j), PausingRun(j) + [StartBegin(1, SECOND_POOL), StartCommit, StartSpawn], running, [HaltBegin], HaltingOver(j));
  }

  /** A worker of a paused pool outlives a restart: a later halt commits while it is still executing. */
  lemma HaltMayCatchAWorker(j: JobId) returns (start: State, actions: seq<Action>, w: WorkerId)
    ensures Initial(start) && After(start, actions).Some?
    ensures var s := After(start, actions).value; Enabled(s, HaltCommit) && s.active.None? && Holds(s.workers, w, j)
  {
    start, w := Fresh(j), WorkerId(FIRST_POOL, 1);
    actions := PausingRun(j) + [StartBegin(1, SECOND_POOL), StartCommit, StartSpawn] + [HaltBegin];
    ReachHalting(j);
    hide After;
  }

  /** A running job has been cancelled, and its worker has not noticed. */
  ghost function Cancelled(j: JobId): State {
    Claimed(j).(jobs := map[j := Failed])
  }

  lemma ReachCancelled(j: JobId)
    ensures After(Fresh(j), ClaimingRun(j) + [CancelBegin(j), CancelCommit(j)]) == Some(Cancelled(j))
  {
    var stopping := Claimed(j).(cancels := multiset{j});
    assert Moves(Claimed(j), CancelBegin(j), stopping);
    assert Moves(stopping, CancelCommit(j), Cancelled(j));
    ReachClaimedOver(j);
    hide After, Moves, ClaimingRun, Fresh, Claimed, Cancelled;
    AfterTwo(Claimed(j), CancelBegin(j), stopping, CancelCommit(j), Cancelled(j));
    AfterBoth(Fresh(j), ClaimingRun(j), Claimed(j), [CancelBegin(j), CancelCommit(j)], Cancelled(j));
  }

  predicate WithoutHalt(actions: seq<Action>) {
    forall a | a in actions :: !a.StopWorkers? && !a.HaltBegin? && !a.HaltCommit?
  }

  /** With no halt, no restart and no reset at all: a job that its worker still executes has failed. */
  lemma CancelMayCatchAWorker(j: JobId) returns (start: State, actions: seq<Action>, w: WorkerId)
    ensures Initial(start) && After(start, actions).Some? && WithoutReset(actions) && WithoutHalt(actions)
    ensures var s := After(start, actions).value; Holds(s.workers, w, j) && j in s.jobs && s.jobs[j].Failed?
  {
    start, w := Fresh(j), WorkerId(FIRST_POOL, 1);
    actions := ClaimingRun(j) + [CancelBegin(j), CancelCommit(j)];
    ReachCancelled(j);
    hide After;
  }

  /** Its worker finished while the cancellation was under way. */
  ghost function ArchivedMeanwhile(j: JobId): State {
    Started(j).(jobs := map[j := Archived], cancels := multiset{j})
  }

  lemma FinishWhileCancelled(j: JobId, s: State)
    requires s == Claimed(j).(cancels := multiset{j})
    ensures Moves(s, Finish(WorkerId(FIRST_POOL, 1), Wrote), ArchivedMeanwhile(j))
  {
    hide AnyJob;
    assert s.workers[WorkerId(FIRST_POOL, 1) := Looping] == Started(j).workers;
    assert s.jobs[j := Archived] == map[j := Archived];
  }

  lemma FinishMeanwhile(j: JobId)
    ensures var second := WorkerId(FIRST_POOL, 1);
            After(Claimed(j), [CancelBegin(j), Finish(second, Wrote)]) == Some(ArchivedMeanwhile(j))
  {
    var second := WorkerId(FIRST_POOL, 1);
    var stopping := Claimed(j).(cancels := multiset{j});
    assert Moves(Claimed(j), CancelBegin(j), stopping) by { hide AnyJob; }
    FinishWhileCancelled(j, stopping);
    hide After, Moves, Claimed, ArchivedMeanwhile;
    AfterTwo(Claimed(j), CancelBegin(j), stopping, Finish(second, Wrote), ArchivedMeanwhile(j));
  }

  lemma LateCancel(j: JobId)
    ensures var s := ArchivedMeanwhile(j);
            s.jobs[j].Archived? && Enabled(s, CancelCommit(j)) && Apply(s, CancelCommit(j)).jobs[j].Failed?
  {
  }

  /** A cancellation that has begun fails its job even after the job has been archived. */
  lemma CancelMayFailAnArchivedJob(j: JobId) returns (start: State, actions: seq<Action>)
    ensures Initial(start) && After(start, actions).Some?
    ensures var s := After(start, actions).value;
            j in s.jobs && s.jobs[j].Archived? && Enabled(s, CancelCommit(j)) && Apply(s, CancelCommit(j)).jobs[j].Failed?
  {
    start := Fresh(j);
    assert Initial(start);
    assert j in ArchivedMeanwhile(j).jobs;
    LateCancel(j);
    ReachClaimedOver(j);
    FinishMeanwhile(j);
    hide After, ClaimingRun, Fresh, Claimed, ArchivedMeanwhile, Initial, Enabled, Apply;
    var meanwhile := [CancelBegin(j), Finish(WorkerId(FIRST_POOL, 1), Wrote)];
    actions := ClaimingRun(j) + meanwhile;
    AfterBoth(start, ClaimingRun(j), Claimed(j), meanwhile, ArchivedMeanwhile(j));
  }

  // ---------------------------------------------------------------- what an unsafe reset leads to

  predicate WithoutReset(actions: seq<Action>) {
    forall a | a in actions :: !a.Reset?
  }

  predicate StartsAndClaims(actions: seq<Action>) {
    forall a | a in actions :: a.StartBegin? || a.StartCommit? || a.StartSpawn? || a.CheckStop? || a.Poll?
  }

  /** Steps without a further reset are possible after which some job has two holders. */
  ghost predicate CanDouble(s: State) {
    exists actions: seq<Action> | WithoutReset(actions) && After(s, actions).Some? :: !OneHolder(After(s, actions).value)
  }

  lemma {:induction false} InvStays(s: State, actions: seq<Action>)
    requires Inv(s) && WithoutReset(actions) && After(s, actions).Some?
    ensures Inv(After(s, actions).value)
    decreases |actions|
  {
    hide Inv, Enabled, Apply;
    if actions != [] {
      StepKeepsInv(s, actions[0]);
      InvStays(Apply(s, actions[0]), actions[1..]);
    }
  }

  /** A worker that will poll when its turn comes, and may claim. */
  predicate Ready(s: State, w: WorkerId) {
    At(s, w, Looping) && !s.pools[w.pool].stop && !PauseRequested(s.run)
  }

  /** No job has moved, and whoever held one still does. */
  ghost predicate KeepsAtWork(s: State, t: State) {
    && t.jobs == s.jobs && SlotsCounted(t)
    && forall w | w in s.workers :: w in t.workers && t.workers[w] == s.workers[w]
  }

  lemma {:induction false} NumbersBelow(pools: set<PoolId>) returns (n: nat)
    ensures forall p | p in pools :: p.number < n
    decreases |pools|
  {
    if pools == {} {
      n := 0;
    } else {
      var p :| p in pools;
      n := NumbersBelow(pools - {p});
      n := if p.number < n then n else p.number + 1;
    }
  }

  /** Whatever the start lock is held for can be brought to its end. */
  lemma Settle(s: State) returns (actions: seq<Action>, t: State)
    requires SlotsCounted(s)
    ensures StartsAndClaims(actions) && After(s, actions) == Some(t) && t.starter.NoStart? && KeepsAtWork(s, t)
  {
    match s.starter
    case NoStart => actions, t := [], s;
    case CommitScale(requested) =>
      actions, t := [StartCommit], Apply(s, StartCommit);
      AfterOne(s, StartCommit, t);
    case CommitFresh(p) =>
      var committed := Apply(s, StartCommit);
      actions, t := [StartCommit, StartSpawn], Apply(committed, StartSpawn);
      SpawnsInto(committed, p, committed.pools[p].workerCount);
      AfterTwo(s, StartCommit, committed, StartSpawn, t);
    case SpawnFresh(p) =>
      actions, t := [StartSpawn], Apply(s, StartSpawn);
      SpawnsInto(s, p, s.pools[p].workerCount);
      AfterOne(s, StartSpawn, t);
  }

  lemma SpawnsInto(s: State, p: PoolId, target: nat)
    requires SlotsCounted(s) && p in s.pools
    ensures KeepsAtWork(s, Spawn(s, p, target))
    ensures s.pools[p].tasks < target ==> var w := WorkerId(p, s.pools[p].tasks); w !in s.workers && At(Spawn(s, p, target), w, Looping)
  {
    SpawnKeepsHolders(s, p, target);
  }

  /** A worker more can be had in any state: the live pool is scaled up, or a new one opened. */
  lemma StartOne(s: State) returns (actions: seq<Action>, t: State, w: WorkerId)
    requires SlotsCounted(s) && s.starter.NoStart?
    ensures StartsAndClaims(actions) && After(s, actions) == Some(t) && KeepsAtWork(s, t)
    ensures w !in s.workers && Ready(t, w)
  {
    var n := NumbersBelow(s.pools.Keys);
    var p := PoolId(n);
    if Live(s) {
      actions, t, w := ScaleUp(s, p);
    } else {
      Restart(s, p);
      actions, t, w := [StartBegin(1, p), StartCommit, StartSpawn], Restarted(s, p), WorkerId(p, 0);
    }
  }

  /** A start that grows the live pool. */
  function Scaled(s: State, k: nat): State
    requires Live(s)
  {
    Spawn(s, s.active.value, k).(run := Some(RunRow(Running, k, false)), starter := NoStart)
  }

  lemma ScaleMoves(s: State, k: nat, p: PoolId)
    requires s.starter.NoStart? && Live(s) && p !in s.pools && k > s.pools[s.active.value].workerCount
    ensures var begun := Spawn(s, s.active.value, k).(starter := CommitScale(k));
            Moves(s, StartBegin(k, p), begun) && Moves(begun, StartCommit, Scaled(s, k))
  {
    hide AnyJob, Spawn;
  }

  lemma ScaleUp(s: State, p: PoolId) returns (actions: seq<Action>, t: State, w: WorkerId)
    requires SlotsCounted(s) && s.starter.NoStart? && Live(s) && p !in s.pools
    ensures StartsAndClaims(actions) && After(s, actions) == Some(t) && KeepsAtWork(s, t)
    ensures w !in s.workers && Ready(t, w)
  {
    var q := s.active.value;
    var pool := s.pools[q];
    var k := if pool.tasks > pool.workerCount then pool.tasks + 1 else pool.workerCount + 1;
    var grown := Spawn(s, q, k);
    SpawnsInto(s, q, k);
    actions, t, w := [StartBegin(k, p), StartCommit], Scaled(s, k), WorkerId(q, pool.tasks);
    ScaleMoves(s, k, p);
    hide Moves, After, Holds;
    AfterTwo(s, StartBegin(k, p), grown.(starter := CommitScale(k)), StartCommit, t);
  }

  lemma ReadyClaims(s: State, w: WorkerId, j: JobId)
    requires Ready(s, w) && j in s.jobs && s.jobs[j].Pending?
    ensures After(s, [CheckStop(w), Poll(w, Some(j))]) == Some(s.(jobs := s.jobs[j := InProgress], workers := s.workers[w := Executing(j)]))
  {
    var polling := s.(workers := s.workers[w := Polling]);
    var claimed := s.(jobs := s.jobs[j := InProgress], workers := s.workers[w := Executing(j)]);
    assert Moves(s, CheckStop(w), polling);
    assert polling.workers[w := Executing(j)] == s.workers[w := Executing(j)];
    assert Moves(polling, Poll(w, Some(j)), claimed);
    hide After, Moves;
    AfterTwo(s, CheckStop(w), polling, Poll(w, Some(j)), claimed);
  }

  /** A pending job that somebody holds can get a second holder: finish the start under way, start another
      worker, and let it claim. */
  lemma SecondHolder(s: State, v: WorkerId, j: JobId) returns (actions: seq<Action>, w: WorkerId)
    requires SlotsCounted(s) && Holds(s.workers, v, j) && j in s.jobs && s.jobs[j].Pending?
    ensures StartsAndClaims(actions) && After(s, actions).Some? && v != w
    ensures var t := After(s, actions).value; Holds(t.workers, v, j) && Holds(t.workers, w, j)
  {
    hide After, SlotsCounted;
    var a, t := Settle(s);
    var b, u, x := StartOne(t);
    w := x;
    ReadyClaims(u, w, j);
    var c, claimed := [CheckStop(w), Poll(w, Some(j))], u.(jobs := u.jobs[j := InProgress], workers := u.workers[w := Executing(j)]);
    actions := a + b + c;
    AfterBoth(s, a, t, b, u);
    AfterBoth(s, a + b, u, c, claimed);
  }

  /** A reset leaves every holder in place, so no job has two of them at once. Exactly if it takes a job from a
      worker can two holders follow, without a further reset and whatever else is under way. */
  lemma ResetDoublesExactly(s: State, from: set<JobStatus>)
    requires Inv(s) && Enabled(s, Reset(from))
    ensures OneHolder(Apply(s, Reset(from)))
    ensures CanDouble(Apply(s, Reset(from))) <==> !ResetSafe(s, from)
  {
    var t := Apply(s, Reset(from));
    if ResetSafe(s, from) {
      ResetKeepsInv(s, from);
      hide Apply, Enabled, After, SlotsCounted;
      forall actions | WithoutReset(actions) && After(t, actions).Some?
        ensures OneHolder(After(t, actions).value)
      {
        InvStays(t, actions);
      }
    } else {
      var v, j :| Holds(s.workers, v, j) && j in s.jobs && s.jobs[j] in from;
      StepKeepsSlots(s, Reset(from));
      assert Holds(t.workers, v, j) && t.jobs[j].Pending?;
      hide Apply, Enabled, After, SlotsCounted;
      var actions, w := SecondHolder(t, v, j);
    }
  }

  /** The halt has committed, the failed job has been reset, and nobody else is at work. */
  ghost function ResetOver(j: JobId): State {
    HaltingOver(j).(jobs := map[j := Pending], run := Some(RunRow(Halted, 1, false)), haltsPending := 0)
  }

  lemma ReachReset(j: JobId)
    ensures After(HaltingOver(j), [HaltCommit, Reset({Failed})]) == Some(ResetOver(j))
  {
    var halted := ResetOver(j).(jobs := map[j := Failed]);
    assert Moves(HaltingOver(j), HaltCommit, halted);
    assert Moves(halted, Reset({Failed}), ResetOver(j));
    hide After, Moves;
    AfterTwo(HaltingOver(j), HaltCommit, halted, Reset({Failed}), ResetOver(j));
  }

  /** Pause, restart, halt, reset the failed job: the job that the first worker never gave up can be
      claimed by a second one. */
  lemma ResetMayDoubleAJob(j: JobId) returns (start: State, actions: seq<Action>, v: WorkerId, w: WorkerId)
    ensures Initial(start) && After(start, actions).Some? && v != w
    ensures var s := After(start, actions).value; Holds(s.workers, v, j) && Holds(s.workers, w, j)
  {
    start, v := Fresh(j), WorkerId(FIRST_POOL, 1);
    var a := PausingRun(j) + [StartBegin(1, SECOND_POOL), StartCommit, StartSpawn] + [HaltBegin];
    var b := [HaltCommit, Reset({Failed})];
    ReachHalting(j);
    ReachReset(j);
    hide After, PausingRun;
    AfterBoth(start, a, HaltingOver(j), b, ResetOver(j));
    var c, x := SecondHolder(ResetOver(j), v, j);
    w, actions := x, a + b + c;
    AfterBoth(start, a + b, ResetOver(j), c, After(ResetOver(j), c).value);
  }

  /** The cancelled job has been reset. */
  ghost function Requeued(j: JobId): State {
    Claimed(j).(jobs := map[j := Pending])
  }

  lemma ReachRequeued(j: JobId)
    ensures After(Fresh(j), ClaimingRun(j) + [CancelBegin(j), CancelCommit(j)] + [Reset({Failed})]) == Some(Requeued(j))
  {
    assert Moves(Cancelled(j), Reset({Failed}), Requeued(j));
    ReachCancelled(j);
    AfterOne(Cancelled(j), Reset({Failed}), Requeued(j));
    hide After, Moves, ClaimingRun, Cancelled, Requeued, Fresh;
    AfterBoth(Fresh(j), ClaimingRun(j) + [CancelBegin(j), CancelCommit(j)], Cancelled(j), [Reset({Failed})], Requeued(j));
  }

  /** A cancellation instead of the halt gets there without a pause or a restart. */
  lemma CancelMayDoubleAJob(j: JobId) returns (start: State, actions: seq<Action>, v: WorkerId, w: WorkerId)
    ensures Initial(start) && After(start, actions).Some? && WithoutHalt(actions) && v != w
    ensures var s := After(start, actions).value; Holds(s.workers, v, j) && Holds(s.workers, w, j)
  {
    start, v := Fresh(j), WorkerId(FIRST_POOL, 1);
    assert Initial(start);
    var a := ClaimingRun(j) + [CancelBegin(j), CancelCommit(j)] + [Reset({Failed})];
    assert WithoutHalt(a);
    ReachRequeued(j);
    var c, x := SecondHolder(Requeued(j), v, j);
    hide After, ClaimingRun, Fresh, Requeued, Holds, Initial;
    w, actions := x, a + c;
    AfterBoth(start, a, Requeued(j), c, After(Requeued(j), c).value);
  }

  // ---------------------------------------------------------------- reconciliation

  predicate IsIdle(run: Option<RunRow>) {
    run.Some? && run.value.status.Idle?
  }

  predicate TurnsIdle(s: State, t: State) {
    !IsIdle(s.run) && IsIdle(t.run)
  }

  /** Reconciling turns the row idle exactly when the queue has drained and the row is not idle yet,
      be it running, pausing, paused or halted. */
  lemma ReconcileTurnsIdle(s: State)
    ensures TurnsIdle(s, Apply(s, Reconcile))
            <==> s.run.Some? && !IsIdle(s.run) && !AnyJob(s.jobs, Pending) && !AnyJob(s.jobs, InProgress)
  {
  }

  /** Nobody at work on a job table. */
  function Unattended(jobs: map<JobId, JobStatus>, run: Option<RunRow>, advances: nat): State {
    State(jobs, run, map[], None, map[], NoStart, 0, advances, multiset{})
  }

  /** A halted run counts as active: over any job table with nothing left to do and nothing failed, a halt
      and then a poll advance the baselines. */
  lemma HaltedRunAdvances(jobs: map<JobId, JobStatus>)
    requires !AnyJob(jobs, Pending) && !AnyJob(jobs, InProgress) && !AnyJob(jobs, Failed)
    ensures Initial(Unattended(jobs, None, 0))
    ensures After(Unattended(jobs, None, 0), [HaltBegin, HaltCommit]) == Some(Unattended(jobs, Some(RunRow(Halted, 1, false)), 0))
    ensures After(Unattended(jobs, None, 0), [HaltBegin, HaltCommit, Reconcile])
            == Some(Unattended(jobs, Some(RunRow(Idle, 1, false)), 1))
  {
    var start, halted := Unattended(jobs, None, 0), Unattended(jobs, Some(RunRow(Halted, 1, false)), 0);
    var begun, idle := start.(haltsPending := 1), Unattended(jobs, Some(RunRow(Idle, 1, false)), 1);
    UnattendedHalt(jobs);
    HaltFailsNothing(begun);
    UnattendedReconcile(jobs, RunRow(Halted, 1, false));
    assert Moves(begun, HaltCommit, halted) by {
      hide Apply, AnyJob;
    }
    hide After, Moves, AnyJob, Initial;
    AfterTwo(start, HaltBegin, begun, HaltCommit, halted);
    AfterThree(start, HaltBegin, begun, HaltCommit, halted, Reconcile, idle);
  }

  lemma UnattendedHalt(jobs: map<JobId, JobStatus>)
    requires !AnyJob(jobs, InProgress)
    ensures Initial(Unattended(jobs, None, 0)) && Moves(Unattended(jobs, None, 0), HaltBegin, Unattended(jobs, None, 0).(haltsPending := 1))
  {
    hide AnyJob;
  }

  lemma UnattendedReconcile(jobs: map<JobId, JobStatus>, row: RunRow)
    requires !AnyJob(jobs, Pending) && !AnyJob(jobs, InProgress) && !AnyJob(jobs, Failed) && !row.status.Idle?
    ensures Moves(Unattended(jobs, Some(row), 0), Reconcile, Unattended(jobs, Some(RunRow(Idle, row.workerCount, false)), 1))
  {
    hide AnyJob;
  }

  lemma HaltFailsNothing(s: State)
    requires Enabled(s, HaltCommit) && !AnyJob(s.jobs, InProgress)
    ensures Apply(s, HaltCommit) == s.(run := Some(RunRow(Halted, 1, false)), haltsPending := s.haltsPending - 1)
  {
    assert forall j | j in s.jobs :: !s.jobs[j].InProgress?;
    assert Apply(s, HaltCommit).jobs == s.jobs;
  }

  /** The row turns idle only on a drained queue; baselines advance exactly then, if nothing failed. */
  lemma IdleOnlyWhenDrained(s: State, a: Action)
    requires Enabled(s, a)
    ensures TurnsIdle(s, Apply(s, a)) ==> !AnyJob(s.jobs, Pending) && !AnyJob(s.jobs, InProgress) && (a.Reconcile? || a.ReconcileAsWorker?)
    ensures Apply(s, a).advances ==
            s.advances + if TurnsIdle(s, Apply(s, a)) && !AnyJob(s.jobs, Failed) then 1 else 0
  {
  }

  /** Polling an idle run changes nothing at all. */
  lemma ReconcileIdleIsNoOp(s: State)
    requires IsIdle(s.run)
    ensures Apply(s, Reconcile) == s
  {
  }

  lemma ReconcileTwice(s: State)
    ensures var t := Apply(s, Reconcile); Apply(t, Reconcile) == t
  {
  }

  /** Transitions to idle up to step `i` at which no job had failed. */
  ghost function CleanFinishes(states: seq<State>, i: nat): nat
    requires i < |states|
  {
    if i == 0 then 0
    else CleanFinishes(states, i - 1)
         + if TurnsIdle(states[i - 1], states[i]) && !AnyJob(states[i - 1].jobs, Failed) then 1 else 0
  }

  /** Over any execution, baselines advance once per clean finish of a run and never otherwise. */
  lemma {:induction false} BaselinesCountFinishes(states: seq<State>, actions: seq<Action>, i: nat)
    requires Execution(states, actions) && i < |states|
    ensures states[i].advances == states[0].advances + CleanFinishes(states, i)
    decreases i
  {
    hide Execution, Enabled, Apply, AnyJob;
    if i > 0 {
      StepOf(states, actions, i - 1);
      BaselinesCountFinishes(states, actions, i - 1);
      IdleOnlyWhenDrained(states[i - 1], actions[i - 1]);
    }
  }
}
