/** Whole runs of the container-backed lease manager, and the in-memory manager that it simulates. */
module LeaseSimulation {
  import opened Wrappers
  import opened RuntimeLeases

  // ---------------------------------------------------------------- the in-memory manager

  function MemGetOrStart(m: map<SessionId, Lease>, s: SessionId, scope: Scope, now: Time, ttl: int,
        id: ContainerId): map<SessionId, Lease> {
    m[s := if Unexpired(m, s, now) then Refreshed(m[s], now, ttl) else NewLease(s, id, scope, now, ttl, false)]
  }

  function MemReset(m: map<SessionId, Lease>, s: SessionId, scope: Scope, now: Time, ttl: int,
        id: ContainerId): map<SessionId, Lease> {
    MemGetOrStart(m - {s}, s, scope, now, ttl, id)
  }

  function MemTerminate(m: map<SessionId, Lease>, s: SessionId): map<SessionId, Lease> {
    m - {s}
  }

  function MemCleanup(m: map<SessionId, Lease>, now: Time): map<SessionId, Lease> {
    m - ExpiredSessions(m, now)
  }

  function MemResolve(m: map<SessionId, Lease>, s: SessionId, now: Time, ttl: int): (map<SessionId, Lease>, Option<Lease>) {
    if Unexpired(m, s, now) then (m[s := Refreshed(m[s], now, ttl)], Some(Refreshed(m[s], now, ttl))) else (m, None)
  }

  // ---------------------------------------------------------------- operations and runs

  datatype Op =
    | OpGetOrStart(s: SessionId, scope: Scope, now: Time, bootstrap: Option<Bootstrap>, launch: Option<ContainerId>,
          memId: ContainerId)
    | OpReset(s: SessionId, scope: Scope, now: Time, bootstrap: Option<Bootstrap>, launch: Option<ContainerId>,
          memId: ContainerId)
    | OpTerminate(s: SessionId)
    | OpCleanup(now: Time)
    | OpIsActive(s: SessionId, scope: Scope, now: Time, hint: Option<ContainerId>)
    | OpCrash(id: ContainerId)

  /** What the caller learns that both managers can agree on. */
  datatype Answer = Leased(until: Time) | Refused(error: StartError) | Active(yes: bool) | Done

  function AnswerOf(r: Result<Lease, StartError>): Answer {
    match r
    case Ok(lease) => Leased(lease.expires)
    case Err(error) => Refused(error)
  }

  ghost function Step(f: Fleet, op: Op, ttl: int): (Fleet, Answer) {
    match op
    case OpGetOrStart(s, scope, now, bootstrap, launch, _) =>
      var (after, r) := GetOrStart(f, s, scope, now, ttl, bootstrap, launch); (after, AnswerOf(r))
    case OpReset(s, scope, now, bootstrap, launch, _) =>
      var (after, r) := Reset(f, s, scope, now, ttl, bootstrap, launch); (after, AnswerOf(r))
    case OpTerminate(s) => (Terminate(f, s), Done)
    case OpCleanup(now) => (Cleanup(f, now), Done)
    case OpIsActive(s, scope, now, hint) =>
      var (after, r) := TryResolve(f, s, scope, now, ttl, hint); (after, Active(r.Some?))
    case OpCrash(id) => (Crash(f, id), Done)
  }

  function MemStep(m: map<SessionId, Lease>, op: Op, ttl: int): (map<SessionId, Lease>, Answer) {
    match op
    case OpGetOrStart(s, scope, now, _, _, id) => (MemGetOrStart(m, s, scope, now, ttl, id), Leased(now + ttl))
    case OpReset(s, scope, now, _, _, id) => (MemReset(m, s, scope, now, ttl, id), Leased(now + ttl))
    case OpTerminate(s) => (MemTerminate(m, s), Done)
    case OpCleanup(now) => (MemCleanup(m, now), Done)
    case OpIsActive(s, _, now, _) => var (after, r) := MemResolve(m, s, now, ttl); (after, Active(r.Some?))
    case OpCrash(_) => (m, Done)
  }

  /** Only known sessions, ids the engine never issued before, and hints of the session's own. */
  ghost predicate Legal(f: Fleet, sessions: set<SessionId>, op: Op) {
    match op
    case OpGetOrStart(s, _, _, _, launch, _) => s in sessions && LaunchOk(f, launch)
    case OpReset(s, _, _, _, launch, _) => s in sessions && LaunchOk(f, launch)
    case OpIsActive(s, _, _, hint) => s in sessions && OwnHint(f, s, hint)
    case _ => true
  }

  ghost predicate LegalRun(f: Fleet, sessions: set<SessionId>, ops: seq<Op>, ttl: int)
    decreases |ops|
  {
    ops == [] || (Legal(f, sessions, ops[0]) && LegalRun(Step(f, ops[0], ttl).0, sessions, ops[1..], ttl))
  }

  ghost function Run(f: Fleet, ops: seq<Op>, ttl: int): (Fleet, seq<Answer>)
    decreases |ops|
  {
    if ops == [] then (f, [])
    else
      var (mid, answer) := Step(f, ops[0], ttl);
      var (end, answers) := Run(mid, ops[1..], ttl);
      (end, [answer] + answers)
  }

  function MemRun(m: map<SessionId, Lease>, ops: seq<Op>, ttl: int): (map<SessionId, Lease>, seq<Answer>)
    decreases |ops|
  {
    if ops == [] then (m, [])
    else
      var (mid, answer) := MemStep(m, ops[0], ttl);
      var (end, answers) := MemRun(mid, ops[1..], ttl);
      (end, [answer] + answers)
  }

  // ---------------------------------------------------------------- safety over runs with crashes

  lemma StepKeepsInv(f: Fleet, sessions: set<SessionId>, op: Op, ttl: int)
    requires FleetInv(f, sessions) && Legal(f, sessions, op)
    ensures FleetInv(Step(f, op, ttl).0, sessions)
  {
    hide FleetInv, GetOrStart, Reset, TryResolve, Cleanup, Terminate, Crash;
    match op {
      case OpGetOrStart(s, scope, now, bootstrap, launch, _) => GetOrStartCorrect(f, sessions, s, scope, now, ttl,
            bootstrap, launch);
      case OpReset(s, scope, now, bootstrap, launch, _) => ResetCorrect(f, sessions, s, scope, now, ttl, bootstrap, launch);
      case OpTerminate(s) => TerminateKeepsInv(f, sessions, s);
      case OpCleanup(now) => CleanupCorrect(f, sessions, now);
      case OpIsActive(s, scope, now, hint) => TryResolveCorrect(f, sessions, s, scope, now, ttl, hint);
      case OpCrash(id) => CrashKeepsInv(f, sessions, id);
    }
  }

  /** Over every run, crashes included: each container that has not been removed is held by the lease
      of its own session, and no two sessions share one. */
  lemma {:induction false} RunIsSafe(f: Fleet, sessions: set<SessionId>, ops: seq<Op>, ttl: int)
    requires FleetInv(f, sessions) && LegalRun(f, sessions, ops, ttl)
    ensures var end := Run(f, ops, ttl).0;
            && FleetInv(end, sessions) && UniqueNames(end.containers)
            && forall a, b | a in end.leases && b in end.leases && end.leases[a].container == end.leases[b].container :: a == b
    decreases |ops|
  {
    if ops == [] {
      NoSharing(f, sessions);
    } else {
      hide FleetInv, Step, Legal, UniqueNames;
      StepKeepsInv(f, sessions, ops[0], ttl);
      RunIsSafe(Step(f, ops[0], ttl).0, sessions, ops[1..], ttl);
    }
  }

  lemma EmptyFleetIsSafe(sessions: set<SessionId>)
    requires forall s | s in sessions :: ContainerNames.Kept(s)
    ensures FleetInv(Fleet(map[], map[], map[]), sessions)
  {
    KeptSessionsHaveDistinctNames(sessions);
  }

  // ---------------------------------------------------------------- simulation without crashes

  function Expiries(leases: map<SessionId, Lease>): map<SessionId, Time> {
    map s | s in leases :: leases[s].expires
  }

  ghost predicate AllRunning(f: Fleet) {
    forall s | s in f.leases :: Running(f.containers, f.leases[s].container)
  }

  ghost predicate Simulates(f: Fleet, m: map<SessionId, Lease>, sessions: set<SessionId>) {
    FleetInv(f, sessions) && AllRunning(f) && Expiries(f.leases) == Expiries(m)
  }

  lemma ExpiriesPointwise(a: map<SessionId, Lease>, b: map<SessionId, Lease>)
    ensures Expiries(a) == Expiries(b) <==> forall t :: (t in a <==> t in b) && (t in a ==> a[t].expires == b[t].expires)
  {
    if Expiries(a) == Expiries(b) {
      forall t
        ensures (t in a <==> t in b) && (t in a ==> a[t].expires == b[t].expires)
      {
        assert t in a <==> t in Expiries(a);
        assert t in b <==> t in Expiries(b);
        if t in a { assert Expiries(a)[t] == Expiries(b)[t]; }
      }
    }
  }

  function Cleared(f: Fleet, s: SessionId): Fleet {
    if s in f.leases then Terminated(f, f.leases[s].container) else f
  }

  /** Which containers there are after asking for a runtime. */
  lemma ContainersAfter(f: Fleet, s: SessionId, scope: Scope, now: Time, ttl: int, bootstrap: Option<Bootstrap>, launch: Option<ContainerId>)
    ensures GetOrStart(f, s, scope, now, ttl, bootstrap, launch).0.containers
            == if LiveLease(f, s, now) || NamedRunning(f.containers, ContainerNames.ContainerName(s)).Some? then f.containers
               else StartRuntime(Cleared(f, s), s, scope, now, ttl, bootstrap, launch).0.containers
  {
    hide LiveLease, NamedRunning, StartRuntime, Terminated;
  }

  /** Starting a runtime for one session leaves every other session's container as it was. */
  lemma OthersKeepRunning(f: Fleet, sessions: set<SessionId>, s: SessionId, scope: Scope, now: Time, ttl: int,
      bootstrap: Option<Bootstrap>, launch: Option<ContainerId>, t: SessionId)
    requires FleetInv(f, sessions) && s in sessions && LaunchOk(f, launch) && t in f.leases && t != s
    ensures var after := GetOrStart(f, s, scope, now, ttl, bootstrap, launch).0;
            Running(after.containers, f.leases[t].container) <==> Running(f.containers, f.leases[t].container)
  {
    hide FleetInv, NamedRunning, LiveLease, StartRuntime, GetOrStart;
    ContainersAfter(f, s, scope, now, ttl, bootstrap, launch);
    if !LiveLease(f, s, now) && NamedRunning(f.containers, ContainerNames.ContainerName(s)).None? {
      OwnContainersDiffer(f, sessions, s, t);
      TerminatedKeepsInv(f, sessions, s);
      assert Running(Cleared(f, s).containers, f.leases[t].container) <==> Running(f.containers, f.leases[t].container);
      StartLeavesRunning(Cleared(f, s), sessions, s, scope, now, ttl, bootstrap, launch, f.leases[t].container);
    }
  }

  lemma OwnContainersDiffer(f: Fleet, sessions: set<SessionId>, s: SessionId, t: SessionId)
    requires FleetInv(f, sessions) && t in f.leases && t != s
    ensures f.leases[t].container in f.issued && (s in f.leases ==> f.leases[s].container != f.leases[t].container)
  {
    hide DistinctNames, Labelled, Held;
  }

  /** A start touches only containers of its own name and the id it launches. */
  lemma StartLeavesRunning(f: Fleet, sessions: set<SessionId>, s: SessionId, scope: Scope, now: Time, ttl: int,
      bootstrap: Option<Bootstrap>, launch: Option<ContainerId>, other: ContainerId)
    requires FleetInv(f, sessions) && s in sessions && LaunchOk(f, launch) && other in f.issued
    requires forall id | id in f.containers :: f.containers[id].session != s
    ensures Running(StartRuntime(f, s, scope, now, ttl, bootstrap, launch).0.containers, other) <==> Running(f.containers, other)
  {
    ClearingTouchesNothing(f, sessions, s);
    hide FleetInv, WithoutName, CheckBootstrap;
  }

  lemma TerminateKeepsOthersRunning(f: Fleet, sessions: set<SessionId>, s: SessionId)
    requires FleetInv(f, sessions) && AllRunning(f)
    ensures AllRunning(Terminate(f, s))
  {
    NoSharing(f, sessions);
  }

  /** The credentials are refused, or the engine cannot launch. */
  predicate CannotLaunch(scope: Scope, now: Time, bootstrap: Option<Bootstrap>, launch: Option<ContainerId>) {
    !Admitted(bootstrap, scope.graph, now) || launch.None?
  }

  /** A start is refused exactly when the session holds no running container and none can be launched. */
  lemma RefusedExactly(f: Fleet, sessions: set<SessionId>, s: SessionId, scope: Scope, now: Time, ttl: int,
      bootstrap: Option<Bootstrap>, launch: Option<ContainerId>)
    requires FleetInv(f, sessions) && s in sessions
    ensures GetOrStart(f, s, scope, now, ttl, bootstrap, launch).1.Err?
            <==> !HoldsRunning(f, s) && CannotLaunch(scope, now, bootstrap, launch)
  {
    hide FleetInv, NamedRunning, WithoutName;
    if HoldsRunning(f, s) {
      HeldIsNamed(f, sessions, s);
    }
    if NamedRunning(f.containers, ContainerNames.ContainerName(s)).Some? {
      NamedIsHeld(f, sessions, s);
    }
  }

  /** After asking for a runtime the session's lease points to a container that is gone, exactly when it
      had a lease whose container was not running and nothing could be launched: the old container is
      removed and the lease kept. */
  lemma StaleLeaseStays(f: Fleet, sessions: set<SessionId>, s: SessionId, scope: Scope, now: Time, ttl: int,
      bootstrap: Option<Bootstrap>, launch: Option<ContainerId>)
    requires FleetInv(f, sessions) && s in sessions && LaunchOk(f, launch)
    ensures var after := GetOrStart(f, s, scope, now, ttl, bootstrap, launch).0;
            (s in after.leases && after.leases[s].container !in after.containers)
            <==> s in f.leases && !HoldsRunning(f, s) && CannotLaunch(scope, now, bootstrap, launch)
  {
    RefusedExactly(f, sessions, s, scope, now, ttl, bootstrap, launch);
    GetOrStartCorrect(f, sessions, s, scope, now, ttl, bootstrap, launch);
    if s in f.leases && !HoldsRunning(f, s) {
      if NamedRunning(f.containers, ContainerNames.ContainerName(s)).Some? {
        NamedIsHeld(f, sessions, s);
      }
      hide FleetInv, NamedRunning;
    }
  }

  /** A run that leaves a stale lease behind: a container started, crashed, and not started again. */
  lemma StaleLeaseReached(s: SessionId, scope: Scope, id: ContainerId, now: Time, ttl: int)
    ensures var empty := Fleet(map[], map[], map[]);
            var ops := [OpGetOrStart(s, scope, now, None, Some(id), id)] + [OpCrash(id)] + [OpGetOrStart(s, scope, now, None, None, id)];
            && FleetInv(empty, {s}) && LegalRun(empty, {s}, ops, ttl)
            && var end := Run(empty, ops, ttl).0; s in end.leases && end.leases[s].container !in end.containers
  {
    var empty := Fleet(map[], map[], map[]);
    var start, crash, retry := OpGetOrStart(s, scope, now, None, Some(id), id), OpCrash(id), OpGetOrStart(s, scope, now, None, None, id);
    var started := Step(empty, start, ttl).0;
    var crashed := Step(started, crash, ttl).0;
    GetOrStartCorrect(empty, {s}, s, scope, now, ttl, None, Some(id));
    RefusedExactly(empty, {s}, s, scope, now, ttl, None, Some(id));
    StartedFromNothing(s, scope, now, ttl, id);
    CrashKeepsInv(started, {s}, id);
    StaleLeaseStays(crashed, {s}, s, scope, now, ttl, None, None);
    hide FleetInv, GetOrStart;
    RunOfThree(empty, {s}, start, crash, retry, ttl);
  }

  lemma StartedFromNothing(s: SessionId, scope: Scope, now: Time, ttl: int, id: ContainerId)
    ensures var after := GetOrStart(Fleet(map[], map[], map[]), s, scope, now, ttl, None, Some(id)).0;
            s in after.leases && after.leases[s].container == id
  {
    var empty: map<ContainerId, Container> := map[];
    assert NamedRunning(empty, ContainerNames.ContainerName(s)).None? by {
      assert forall i :: !Running(empty, i);
    }
  }

  lemma RunOfThree(f: Fleet, sessions: set<SessionId>, a: Op, b: Op, c: Op, ttl: int)
    requires var g := Step(f, a, ttl).0; var h := Step(g, b, ttl).0;
             Legal(f, sessions, a) && Legal(g, sessions, b) && Legal(h, sessions, c)
    ensures LegalRun(f, sessions, [a] + [b] + [c], ttl)
    ensures var g := Step(f, a, ttl).0; var h := Step(g, b, ttl).0;
            Run(f, [a] + [b] + [c], ttl).0 == Step(h, c, ttl).0
  {
    hide Step, Legal;
    var ops := [a] + [b] + [c];
    var g := Step(f, a, ttl).0;
    var h := Step(g, b, ttl).0;
    RunOfOne(h, sessions, c, ttl);
    RunUnfolds(g, sessions, b, [c], ttl);
    RunUnfolds(f, sessions, a, [b] + [c], ttl);
    assert ops == [a] + ([b] + [c]);
  }

  lemma RunOfOne(f: Fleet, sessions: set<SessionId>, op: Op, ttl: int)
    ensures LegalRun(f, sessions, [op], ttl) == Legal(f, sessions, op)
    ensures Run(f, [op], ttl).0 == Step(f, op, ttl).0
  {
    hide Step, Legal;
    assert [op][1..] == [];
  }

  lemma RunUnfolds(f: Fleet, sessions: set<SessionId>, op: Op, rest: seq<Op>, ttl: int)
    ensures LegalRun(f, sessions, [op] + rest, ttl) == (Legal(f, sessions, op) && LegalRun(Step(f, op, ttl).0, sessions, rest, ttl))
    ensures Run(f, [op] + rest, ttl).0 == Run(Step(f, op, ttl).0, rest, ttl).0
  {
    hide Step, Legal;
    assert ([op] + rest)[1..] == rest;
  }

  /** Get or start on matching states: the expiry maps stay equal, with the same lifetime given, unless,
      and only unless, the session has no lease and nothing can be launched. */
  lemma GetOrStartSimulates(f: Fleet, m: map<SessionId, Lease>, sessions: set<SessionId>, s: SessionId, scope: Scope,
      now: Time, ttl: int, bootstrap: Option<Bootstrap>, launch: Option<ContainerId>, memId: ContainerId)
    requires Simulates(f, m, sessions) && s in sessions && LaunchOk(f, launch)
    ensures var (after, r) := GetOrStart(f, s, scope, now, ttl, bootstrap, launch);
            var m' := MemGetOrStart(m, s, scope, now, ttl, memId);
            && (Expiries(after.leases) == Expiries(m') <==> s in f.leases || !CannotLaunch(scope, now, bootstrap, launch))
            && (r.Ok? <==> s in f.leases || !CannotLaunch(scope, now, bootstrap, launch))
            && (s in f.leases || !CannotLaunch(scope, now, bootstrap, launch) ==>
                  Simulates(after, m', sessions) && r.Ok? && r.value.expires == now + ttl)
  {
    hide FleetInv, GetOrStart, CannotLaunch, MemGetOrStart;
    var (after, r) := GetOrStart(f, s, scope, now, ttl, bootstrap, launch);
    var m' := MemGetOrStart(m, s, scope, now, ttl, memId);
    GetOrStartCorrect(f, sessions, s, scope, now, ttl, bootstrap, launch);
    RefusedExactly(f, sessions, s, scope, now, ttl, bootstrap, launch);
    MemStores(m, s, scope, now, ttl, memId);
    hide Expiries;
    ExpiriesPointwise(f.leases, m);
    ExpiriesPointwise(after.leases, m');
    if r.Ok? {
      StillAllRunning(f, sessions, s, scope, now, ttl, bootstrap, launch);
    }
  }

  lemma MemStores(m: map<SessionId, Lease>, s: SessionId, scope: Scope, now: Time, ttl: int, id: ContainerId)
    ensures var m' := MemGetOrStart(m, s, scope, now, ttl, id);
            && s in m' && m'[s].expires == now + ttl
            && (forall t | t != s :: t in m <==> t in m') && (forall t | t in m && t != s :: m'[t] == m[t])
  {
  }

  lemma StillAllRunning(f: Fleet, sessions: set<SessionId>, s: SessionId, scope: Scope, now: Time, ttl: int,
      bootstrap: Option<Bootstrap>, launch: Option<ContainerId>)
    requires FleetInv(f, sessions) && AllRunning(f) && s in sessions && LaunchOk(f, launch)
    requires GetOrStart(f, s, scope, now, ttl, bootstrap, launch).1.Ok?
    ensures AllRunning(GetOrStart(f, s, scope, now, ttl, bootstrap, launch).0)
  {
    hide FleetInv, GetOrStart;
    var after := GetOrStart(f, s, scope, now, ttl, bootstrap, launch).0;
    GetOrStartCorrect(f, sessions, s, scope, now, ttl, bootstrap, launch);
    forall t | t in after.leases && t != s
      ensures Running(after.containers, after.leases[t].container)
    {
      OthersKeepRunning(f, sessions, s, scope, now, ttl, bootstrap, launch, t);
    }
  }

  lemma TerminateSimulates(f: Fleet, m: map<SessionId, Lease>, sessions: set<SessionId>, s: SessionId)
    requires Simulates(f, m, sessions)
    ensures Simulates(Terminate(f, s), MemTerminate(m, s), sessions)
  {
    hide FleetInv;
    TerminateKeepsInv(f, sessions, s);
    TerminateKeepsOthersRunning(f, sessions, s);
    ExpiriesPointwise(f.leases, m);
    ExpiriesPointwise(Terminate(f, s).leases, MemTerminate(m, s));
  }

  /** A reset drops the lease first, so the maps stay equal exactly when something can be launched. */
  lemma ResetSimulates(f: Fleet, m: map<SessionId, Lease>, sessions: set<SessionId>, s: SessionId, scope: Scope,
      now: Time, ttl: int, bootstrap: Option<Bootstrap>, launch: Option<ContainerId>, memId: ContainerId)
    requires Simulates(f, m, sessions) && s in sessions && LaunchOk(f, launch)
    ensures var (after, r) := Reset(f, s, scope, now, ttl, bootstrap, launch);
            var m' := MemReset(m, s, scope, now, ttl, memId);
            && (Expiries(after.leases) == Expiries(m') <==> !CannotLaunch(scope, now, bootstrap, launch))
            && (r.Ok? <==> !CannotLaunch(scope, now, bootstrap, launch))
            && (!CannotLaunch(scope, now, bootstrap, launch) ==> Simulates(after, m', sessions) && r.Ok? && r.value.expires == now + ttl)
  {
    hide Simulates, GetOrStart, CannotLaunch;
    TerminateSimulates(f, m, sessions, s);
    assert Terminate(f, s).issued == f.issued;
    GetOrStartSimulates(Terminate(f, s), m - {s}, sessions, s, scope, now, ttl, bootstrap, launch, memId);
  }

  lemma CleanupSimulates(f: Fleet, m: map<SessionId, Lease>, sessions: set<SessionId>, now: Time)
    requires Simulates(f, m, sessions)
    ensures Simulates(Cleanup(f, now), MemCleanup(m, now), sessions)
  {
    CleanupCorrect(f, sessions, now);
    NoSharing(f, sessions);
    hide FleetInv;
    var after := Cleanup(f, now);
    ExpiriesPointwise(f.leases, m);
    ExpiriesPointwise(after.leases, MemCleanup(m, now));
    forall s | s in after.leases
      ensures Running(after.containers, after.leases[s].container)
    {
      assert f.leases[s].container !in (set t | t in ExpiredSessions(f.leases, now) :: f.leases[t].container);
    }
  }

  /** On matching states the two managers give the same activity answer exactly when the session has
      no expired lease at that instant, and then the states still match. Otherwise the container manager
      renews the lease and the in-memory one leaves it expired, so the expiry maps come apart, unless the
      lifetime is so negative that the renewed lease expires when the old one did. */
  lemma ActivityAgrees(f: Fleet, m: map<SessionId, Lease>, sessions: set<SessionId>, s: SessionId, scope: Scope,
        now: Time, ttl: int, hint: Option<ContainerId>)
    requires Simulates(f, m, sessions) && s in sessions && OwnHint(f, s, hint)
    ensures var (after, r) := TryResolve(f, s, scope, now, ttl, hint);
            var (after', r') := MemResolve(m, s, now, ttl);
            && (r.Some? == r'.Some? <==> !(s in f.leases && f.leases[s].expires <= now))
            && (r.Some? == r'.Some? ==> Simulates(after, after', sessions))
            && (Expiries(after.leases) == Expiries(after') <==>
                  !(s in f.leases && f.leases[s].expires <= now && f.leases[s].expires != now + ttl))
  {
    hide FleetInv, TryResolve;
    var (after, r) := TryResolve(f, s, scope, now, ttl, hint);
    var (after', r') := MemResolve(m, s, now, ttl);
    TryResolveCorrect(f, sessions, s, scope, now, ttl, hint);
    ExpiriesPointwise(f.leases, m);
    ExpiriesPointwise(after.leases, after');
  }

  /** In particular they always agree once expired leases have been cleaned up at that instant. */
  lemma ActivityAgreesAfterCleanup(f: Fleet, m: map<SessionId, Lease>, sessions: set<SessionId>, s: SessionId,
        scope: Scope, now: Time, ttl: int, hint: Option<ContainerId>)
    requires Simulates(f, m, sessions) && s in sessions && OwnHint(f, s, hint)
    ensures TryResolve(Cleanup(f, now), s, scope, now, ttl, hint).1.Some? == MemResolve(MemCleanup(m, now), s, now, ttl).1.Some?
  {
    CleanupSimulates(f, m, sessions, now);
    CleanupCorrect(f, sessions, now);
    hide Simulates, FleetInv, TryResolve, MemResolve;
    var after := Cleanup(f, now);
    assert OwnHint(after, s, hint);
    assert s in after.leases && after.leases[s].expires <= now ==> s in ExpiredSessions(after.leases, now);
    ActivityAgrees(after, MemCleanup(m, now), sessions, s, scope, now, ttl, hint);
  }

  /** What can be said of an operation before it is carried out: no crash, a start only for a session
      with a lease or where one can be launched, and a question about activity only where no expired
      lease of the session is left over. */
  predicate Gentle(f: Fleet, op: Op) {
    match op
    case OpGetOrStart(s, scope, now, bootstrap, launch, _) => s in f.leases || !CannotLaunch(scope, now, bootstrap, launch)
    case OpReset(_, scope, now, bootstrap, launch, _) => !CannotLaunch(scope, now, bootstrap, launch)
    case OpIsActive(s, _, now, _) => !(s in f.leases && f.leases[s].expires <= now)
    case OpCrash(_) => false
    case _ => true
  }

  ghost predicate Smooth(f: Fleet, ops: seq<Op>, ttl: int)
    decreases |ops|
  {
    ops == [] || (Gentle(f, ops[0]) && Smooth(Step(f, ops[0], ttl).0, ops[1..], ttl))
  }

  lemma SameExpiries(f: Fleet, m: map<SessionId, Lease>, sessions: set<SessionId>)
    requires Simulates(f, m, sessions)
    ensures Expiries(f.leases) == Expiries(m)
  {
  }

  /** From matching states, an operation other than a crash gets the same answer from both managers if and
      only if it is gentle, and then the states still match. With a positive lifetime the expiry maps come
      apart in every other case. */
  lemma StepSimulates(f: Fleet, m: map<SessionId, Lease>, sessions: set<SessionId>, op: Op, ttl: int)
    requires Simulates(f, m, sessions) && Legal(f, sessions, op) && !op.OpCrash?
    ensures Step(f, op, ttl).1 == MemStep(m, op, ttl).1 <==> Gentle(f, op)
    ensures Gentle(f, op) ==> Simulates(Step(f, op, ttl).0, MemStep(m, op, ttl).0, sessions)
    ensures ttl > 0 ==> (Expiries(Step(f, op, ttl).0.leases) == Expiries(MemStep(m, op, ttl).0) <==> Gentle(f, op))
  {
    hide Simulates, GetOrStart, Reset, TryResolve, MemGetOrStart, MemReset, MemResolve, Cleanup, MemCleanup, Terminate, MemTerminate, CannotLaunch;
    match op {
      case OpGetOrStart(s, scope, now, bootstrap, launch, id) =>
        GetOrStartSimulates(f, m, sessions, s, scope, now, ttl, bootstrap, launch, id);
      case OpReset(s, scope, now, bootstrap, launch, id) =>
        ResetSimulates(f, m, sessions, s, scope, now, ttl, bootstrap, launch, id);
      case OpTerminate(s) =>
        TerminateSimulates(f, m, sessions, s);
        SameExpiries(Terminate(f, s), MemTerminate(m, s), sessions);
      case OpCleanup(now) =>
        CleanupSimulates(f, m, sessions, now);
        SameExpiries(Cleanup(f, now), MemCleanup(m, now), sessions);
      case OpIsActive(s, scope, now, hint) => ActivityAgrees(f, m, sessions, s, scope, now, ttl, hint);
    }
  }

  /** Simulation over whole runs: same answers, and the same session-to-expiry map at the end. */
  lemma {:induction false} RunSimulates(f: Fleet, m: map<SessionId, Lease>, sessions: set<SessionId>, ops: seq<Op>, ttl: int)
    requires Simulates(f, m, sessions) && LegalRun(f, sessions, ops, ttl) && Smooth(f, ops, ttl)
    ensures Run(f, ops, ttl).1 == MemRun(m, ops, ttl).1
    ensures Expiries(Run(f, ops, ttl).0.leases) == Expiries(MemRun(m, ops, ttl).0)
    decreases |ops|
  {
    if ops != [] {
      hide FleetInv, Step, MemStep, Legal, Gentle;
      StepSimulates(f, m, sessions, ops[0], ttl);
      RunSimulates(Step(f, ops[0], ttl).0, MemStep(m, ops[0], ttl).0, sessions, ops[1..], ttl);
    }
  }
}
