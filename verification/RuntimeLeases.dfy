/** Sticky session runtimes: what the container-backed and the in-memory manager do to their lease
    table and to the containers, as functions on states, and what every run of them guarantees. */
module RuntimeLeases {
  import opened Wrappers
  import opened ContainerNames

  type SessionId = string
  type Time = int
  datatype ContainerId = ContainerId(number: nat)
  datatype Container = Container(name: string, session: SessionId, running: bool)
  /** Who the runtime is for. */
  datatype Scope = Scope(user: string, graph: string, mode: string)
  datatype Lease = Lease(session: SessionId, container: ContainerId, scope: Scope, lastActivity: Time, expires: Time,
        hasToken: bool)
  datatype Bootstrap = Bootstrap(tenant: string, scopes: set<string>, expiresAt: Time)
  datatype StartError = CredentialScopeInvalid | CredentialsExpired | LaunchFailed

  /** Leases, existing containers, and for every container id ever issued the session it was issued to. */
  datatype Fleet = Fleet(leases: map<SessionId, Lease>, containers: map<ContainerId, Container>, issued: map<ContainerId,
        SessionId>)

  // ---------------------------------------------------------------- the container runtime

  predicate Running(containers: map<ContainerId, Container>, id: ContainerId) {
    id in containers && containers[id].running
  }

  ghost predicate UniqueNames(containers: map<ContainerId, Container>) {
    forall a, b | a in containers && b in containers && containers[a].name == containers[b].name :: a == b
  }

  /** `container_id_for_name`: only running containers answer. */
  ghost function NamedRunning(containers: map<ContainerId, Container>, name: string): Option<ContainerId> {
    if exists id :: Running(containers, id) && containers[id].name == name
    then var id :| Running(containers, id) && containers[id].name == name; Some(id)
    else None
  }

  function WithoutName(containers: map<ContainerId, Container>, name: string): map<ContainerId, Container> {
    map id | id in containers && containers[id].name != name :: containers[id]
  }

  function Crash(f: Fleet, id: ContainerId): Fleet {
    if id in f.containers then f.(containers := f.containers[id := f.containers[id].(running := false)]) else f
  }

  // ---------------------------------------------------------------- the container-backed manager

  function Refreshed(lease: Lease, now: Time, ttl: int): Lease {
    lease.(lastActivity := now, expires := now + ttl)
  }

  function NewLease(s: SessionId, id: ContainerId, scope: Scope, now: Time, ttl: int, hasToken: bool): Lease {
    Lease(s, id, scope, now, now + ttl, hasToken)
  }

  predicate Unexpired(leases: map<SessionId, Lease>, s: SessionId, now: Time) {
    s in leases && leases[s].expires > now
  }

  /** The session's own lease is unexpired and its container is up. */
  predicate LiveLease(f: Fleet, s: SessionId, now: Time) {
    Unexpired(f.leases, s, now) && Running(f.containers, f.leases[s].container)
  }

  function Terminated(f: Fleet, id: ContainerId): Fleet {
    f.(containers := f.containers - {id})
  }

  function CheckBootstrap(bootstrap: Option<Bootstrap>, graph: string, now: Time): Option<StartError> {
    match bootstrap
    case None => None
    case Some(b) =>
      if !({"tenant:" + b.tenant, "knowledge_graph:" + graph, "workload:write"} <= b.scopes) then Some(CredentialScopeInvalid)
      else if b.expiresAt <= now then Some(CredentialsExpired)
      else None
  }

  /** `_start_runtime`; `launch` is what the engine answers: a new container id, or a failure. */
  function StartRuntime(f: Fleet, s: SessionId, scope: Scope, now: Time, ttl: int, bootstrap: Option<Bootstrap>,
        launch: Option<ContainerId>): (Fleet, Result<Lease, StartError>) {
    match CheckBootstrap(bootstrap, scope.graph, now)
    case Some(error) => (f, Err(error))
    case None =>
      var cleared := f.(containers := WithoutName(f.containers, ContainerName(s)));
      match launch
      case None => (cleared, Err(LaunchFailed))
      case Some(id) =>
        (cleared.(containers := cleared.containers[id := Container(ContainerName(s), s, true)], issued := f.issued[id := s]),
         Ok(NewLease(s, id, scope, now, ttl, true)))
  }

  ghost function GetOrStart(f: Fleet, s: SessionId, scope: Scope, now: Time, ttl: int, bootstrap: Option<Bootstrap>,
        launch: Option<ContainerId>): (Fleet, Result<Lease, StartError>) {
    if LiveLease(f, s, now) then
      var lease := Refreshed(f.leases[s], now, ttl);
      (f.(leases := f.leases[s := lease]), Ok(lease))
    else match NamedRunning(f.containers, ContainerName(s))
      case Some(id) =>
        var lease := NewLease(s, id, scope, now, ttl, false);
        (f.(leases := f.leases[s := lease]), Ok(lease))
      case None =>
        var cleared := if s in f.leases then Terminated(f, f.leases[s].container) else f;
        var (started, r) := StartRuntime(cleared, s, scope, now, ttl, bootstrap, launch);
        match r
        case Ok(lease) => (started.(leases := started.leases[s := lease]), r)
        case Err(_) => (started, r)
  }

  function Terminate(f: Fleet, s: SessionId): Fleet {
    if s in f.leases then Terminated(f, f.leases[s].container).(leases := f.leases - {s}) else f
  }

  ghost function Reset(f: Fleet, s: SessionId, scope: Scope, now: Time, ttl: int, bootstrap: Option<Bootstrap>,
        launch: Option<ContainerId>): (Fleet, Result<Lease, StartError>) {
    GetOrStart(Terminate(f, s), s, scope, now, ttl, bootstrap, launch)
  }

  function ExpiredSessions(leases: map<SessionId, Lease>, now: Time): set<SessionId> {
    set s | s in leases && leases[s].expires <= now
  }

  function Cleanup(f: Fleet, now: Time): Fleet {
    var expired := ExpiredSessions(f.leases, now);
    f.(leases := f.leases - expired, containers := f.containers - set s | s in expired :: f.leases[s].container)
  }

  /** `try_resolve_active_lease`, with the hint the caller remembers for the session. */
  ghost function TryResolve(f: Fleet, s: SessionId, scope: Scope, now: Time, ttl: int,
        hint: Option<ContainerId>): (Fleet, Option<Lease>) {
    if LiveLease(f, s, now) then
      var lease := Refreshed(f.leases[s], now, ttl);
      (f.(leases := f.leases[s := lease]), Some(lease))
    else
      var adoptAs := if s in f.leases then f.leases[s].scope else scope;
      var named := NamedRunning(f.containers, ContainerName(s));
      if hint.Some? && Running(f.containers, hint.value) then
        var lease := NewLease(s, hint.value, adoptAs, now, ttl, false);
        (f.(leases := f.leases[s := lease]), Some(lease))
      else if named.Some? then
        var lease := NewLease(s, named.value, adoptAs, now, ttl, false);
        (f.(leases := f.leases[s := lease]), Some(lease))
      else (f, None)
  }

  // ---------------------------------------------------------------- the fleet invariant

  /** The sessions in use get pairwise different container names. */
  ghost predicate DistinctNames(sessions: set<SessionId>) {
    forall a, b | a in sessions && b in sessions && ContainerName(a) == ContainerName(b) :: a == b
  }

  lemma KeptSessionsHaveDistinctNames(sessions: set<SessionId>)
    requires forall s | s in sessions :: Kept(s)
    ensures DistinctNames(sessions)
  {
    forall a, b | a in sessions && b in sessions && ContainerName(a) == ContainerName(b)
      ensures a == b
    {
      KeptIdsGetDistinctNames(a, b);
    }
  }

  /** Containers carry the name of the session they were issued to. */
  ghost predicate Labelled(f: Fleet, sessions: set<SessionId>) {
    forall id | id in f.containers ::
      && id in f.issued && f.issued[id] == f.containers[id].session
      && f.containers[id].session in sessions
      && f.containers[id].name == ContainerName(f.containers[id].session)
  }

  /** Every container that has not been removed is held by the lease of its own session. */
  ghost predicate Held(f: Fleet) {
    forall id | id in f.containers ::
      f.containers[id].session in f.leases && f.leases[f.containers[id].session].container == id
  }

  /** A lease is stored under its session and points to a container issued to that session. */
  ghost predicate OwnLeases(f: Fleet, sessions: set<SessionId>) {
    forall s | s in f.leases ::
      && s in sessions && f.leases[s].session == s
      && f.leases[s].container in f.issued && f.issued[f.leases[s].container] == s
  }

  ghost predicate FleetInv(f: Fleet, sessions: set<SessionId>) {
    DistinctNames(sessions) && Labelled(f, sessions) && Held(f) && OwnLeases(f, sessions)
  }

  /** No two sessions share a container, and names are unique. */
  lemma NoSharing(f: Fleet, sessions: set<SessionId>)
    requires FleetInv(f, sessions)
    ensures forall a, b | a in f.leases && b in f.leases && f.leases[a].container == f.leases[b].container :: a == b
    ensures UniqueNames(f.containers)
  {
  }

  /** The engine never reuses an id. */
  predicate LaunchOk(f: Fleet, launch: Option<ContainerId>) {
    launch.Some? ==> launch.value !in f.issued
  }

  /** A hint remembers a container once issued to the same session. */
  predicate OwnHint(f: Fleet, s: SessionId, hint: Option<ContainerId>) {
    hint.Some? ==> hint.value in f.issued && f.issued[hint.value] == s
  }

  /** A running container found by name is the one the session's lease already points to. */
  lemma NamedIsHeld(f: Fleet, sessions: set<SessionId>, s: SessionId)
    requires FleetInv(f, sessions) && s in sessions && NamedRunning(f.containers, ContainerName(s)).Some?
    ensures var id := NamedRunning(f.containers, ContainerName(s)).value;
            Running(f.containers, id) && s in f.leases && f.leases[s].container == id
  {
    var id := NamedRunning(f.containers, ContainerName(s)).value;
    assert Running(f.containers, id) && f.containers[id].name == ContainerName(s);
  }

  lemma StoreKeepsInv(f: Fleet, sessions: set<SessionId>, s: SessionId, lease: Lease)
    requires FleetInv(f, sessions) && s in f.leases
    requires lease.session == s && lease.container == f.leases[s].container
    ensures FleetInv(f.(leases := f.leases[s := lease]), sessions)
  {
  }

  lemma TerminateKeepsInv(f: Fleet, sessions: set<SessionId>, s: SessionId)
    requires FleetInv(f, sessions)
    ensures FleetInv(Terminate(f, s), sessions)
    ensures s !in Terminate(f, s).leases
    ensures forall id | id in Terminate(f, s).containers :: Terminate(f, s).containers[id].session != s
  {
  }

  lemma TerminatedKeepsInv(f: Fleet, sessions: set<SessionId>, s: SessionId)
    requires FleetInv(f, sessions) && s in sessions
    ensures var cleared := if s in f.leases then Terminated(f, f.leases[s].container) else f;
            FleetInv(cleared, sessions) && forall id | id in cleared.containers :: cleared.containers[id].session != s
  {
  }

  lemma StartKeepsInv(f: Fleet, sessions: set<SessionId>, s: SessionId, scope: Scope, now: Time, ttl: int,
        bootstrap: Option<Bootstrap>, launch: Option<ContainerId>)
    requires FleetInv(f, sessions) && s in sessions && LaunchOk(f, launch)
    requires forall id | id in f.containers :: f.containers[id].session != s
    ensures var (started, r) := StartRuntime(f, s, scope, now, ttl, bootstrap, launch);
            match r
            case Ok(lease) =>
              && FleetInv(started.(leases := started.leases[s := lease]), sessions)
              && lease == NewLease(s, lease.container, scope, now, ttl, true) && Running(started.containers, lease.container)
            case Err(_) => FleetInv(started, sessions)
  {
    var (started, r) := StartRuntime(f, s, scope, now, ttl, bootstrap, launch);
    if r.Ok? || r == Err(LaunchFailed) {
      ClearingTouchesNothing(f, sessions, s);
      if r.Ok? {
        LaunchKeepsInv(f, sessions, s, launch.value, r.value);
      }
    }
  }

  /** With distinct names, removing by name before a launch finds nothing of another session. */
  lemma ClearingTouchesNothing(f: Fleet, sessions: set<SessionId>, s: SessionId)
    requires FleetInv(f, sessions) && s in sessions
    requires forall id | id in f.containers :: f.containers[id].session != s
    ensures WithoutName(f.containers, ContainerName(s)) == f.containers
  {
  }

  lemma LaunchKeepsInv(f: Fleet, sessions: set<SessionId>, s: SessionId, id: ContainerId, lease: Lease)
    requires FleetInv(f, sessions) && s in sessions && id !in f.issued
    requires forall id | id in f.containers :: f.containers[id].session != s
    requires lease.session == s && lease.container == id
    ensures FleetInv(Fleet(f.leases[s := lease], f.containers[id := Container(ContainerName(s), s, true)], f.issued[id := s]), sessions)
  {
    var after := Fleet(f.leases[s := lease], f.containers[id := Container(ContainerName(s), s, true)], f.issued[id := s]);
    assert Labelled(after, sessions);
    assert Held(after);
    assert OwnLeases(after, sessions);
  }

  /** `get_or_start_runtime` keeps the invariant; on success the returned lease is stored, is valid for
      the whole lifetime from now, and its container is running. */
  lemma GetOrStartCorrect(f: Fleet, sessions: set<SessionId>, s: SessionId, scope: Scope, now: Time, ttl: int,
        bootstrap: Option<Bootstrap>, launch: Option<ContainerId>)
    requires FleetInv(f, sessions) && s in sessions && LaunchOk(f, launch)
    ensures var (after, r) := GetOrStart(f, s, scope, now, ttl, bootstrap, launch);
            && FleetInv(after, sessions)
            && (r.Ok? ==> s in after.leases && after.leases[s] == r.value
                          && r.value.expires == now + ttl && Running(after.containers, r.value.container))
            && (r.Err? ==> after.leases == f.leases)
            && (forall t | t != s :: t in f.leases <==> t in after.leases)
            && (forall t | t in f.leases && t != s :: after.leases[t] == f.leases[t])
  {
    hide FleetInv, StartRuntime, NamedRunning;
    if LiveLease(f, s, now) {
      LeaseShape(f, sessions, s);
      StoreKeepsInv(f, sessions, s, Refreshed(f.leases[s], now, ttl));
    } else {
      match NamedRunning(f.containers, ContainerName(s)) {
        case Some(id) =>
          NamedIsHeld(f, sessions, s);
          StoreKeepsInv(f, sessions, s, NewLease(s, id, scope, now, ttl, false));
        case None =>
          var cleared := if s in f.leases then Terminated(f, f.leases[s].container) else f;
          TerminatedKeepsInv(f, sessions, s);
          StartKeepsInv(cleared, sessions, s, scope, now, ttl, bootstrap, launch);
          StartTouchesNoLease(cleared, s, scope, now, ttl, bootstrap, launch);
      }
    }
  }

  // ---------------------------------------------------------------- what each operation does, case by case

  /** The credentials cover the tenant, the graph and writing. */
  predicate CoversScopes(b: Bootstrap, graph: string) {
    "tenant:" + b.tenant in b.scopes && "knowledge_graph:" + graph in b.scopes && "workload:write" in b.scopes
  }

  /** No credentials are asked for, or those given cover the scopes and have not expired. */
  predicate Admitted(bootstrap: Option<Bootstrap>, graph: string, now: Time) {
    bootstrap.Some? ==> CoversScopes(bootstrap.value, graph) && bootstrap.value.expiresAt > now
  }

  /** Which start is refused, and why: missing scopes first, then expiry, then the engine. A refusal for the
      credentials touches nothing. */
  lemma StartRefusals(f: Fleet, s: SessionId, scope: Scope, now: Time, ttl: int, bootstrap: Option<Bootstrap>,
        launch: Option<ContainerId>)
    ensures var (after, r) := StartRuntime(f, s, scope, now, ttl, bootstrap, launch);
            && (r.Ok? <==> Admitted(bootstrap, scope.graph, now) && launch.Some?)
            && (r == Err(CredentialScopeInvalid) <==> bootstrap.Some? && !CoversScopes(bootstrap.value, scope.graph))
            && (r == Err(CredentialsExpired) <==> bootstrap.Some? && CoversScopes(bootstrap.value, scope.graph) && bootstrap.value.expiresAt <= now)
            && (r == Err(LaunchFailed) <==> Admitted(bootstrap, scope.graph, now) && launch.None?)
            && (!Admitted(bootstrap, scope.graph, now) ==> after == f)
            && after.leases == f.leases
  {
  }

  /** The session holds a lease on a running container. */
  predicate HoldsRunning(f: Fleet, s: SessionId) {
    s in f.leases && Running(f.containers, f.leases[s].container)
  }

  /** The containers without the one that the session's lease points to. */
  function WithoutOwn(f: Fleet, s: SessionId): map<ContainerId, Container> {
    if s in f.leases then f.containers - {f.leases[s].container} else f.containers
  }

  /** Asking for a runtime, case by case. A running container is kept, with a renewed lease: the same one while it
      is unexpired, else one for the scope given and without a token. Without a running container one is
      launched exactly if the credentials are admitted and the engine answers; in any other case the
      containers of the session are gone, its lease is as it was, and the error says why. */
  lemma GetOrStartAccount(f: Fleet, sessions: set<SessionId>, s: SessionId, scope: Scope, now: Time, ttl: int,
        bootstrap: Option<Bootstrap>, launch: Option<ContainerId>)
    requires FleetInv(f, sessions) && s in sessions && LaunchOk(f, launch)
    ensures var (after, r) := GetOrStart(f, s, scope, now, ttl, bootstrap, launch);
            if HoldsRunning(f, s) then
              var old' := f.leases[s];
              var lease := if old'.expires > now then Lease(s, old'.container, old'.scope, now, now + ttl, old'.hasToken)
                           else Lease(s, old'.container, scope, now, now + ttl, false);
              after == Fleet(f.leases[s := lease], f.containers, f.issued) && r == Ok(lease)
            else if Admitted(bootstrap, scope.graph, now) && launch.Some? then
              var lease := Lease(s, launch.value, scope, now, now + ttl, true);
              && after == Fleet(f.leases[s := lease], WithoutOwn(f, s)[launch.value := Container(ContainerName(s), s, true)],
                                f.issued[launch.value := s])
              && r == Ok(lease)
            else
              && after == Fleet(f.leases, WithoutOwn(f, s), f.issued)
              && r == Err(if Admitted(bootstrap, scope.graph, now) then LaunchFailed
                          else if CoversScopes(bootstrap.value, scope.graph) then CredentialsExpired else CredentialScopeInvalid)
  {
    hide FleetInv, NamedRunning, WithoutName;
    if s in f.leases {
      LeaseShape(f, sessions, s);
    }
    if HoldsRunning(f, s) {
      HeldIsNamed(f, sessions, s);
    }
    if NamedRunning(f.containers, ContainerName(s)).Some? {
      NamedIsHeld(f, sessions, s);
    } else {
      TerminatedKeepsInv(f, sessions, s);
      ClearingTouchesNothing(if s in f.leases then Terminated(f, f.leases[s].container) else f, sessions, s);
    }
  }

  /** Terminating removes the session's lease and its containers and leaves everything else alone. */
  lemma TerminateAccount(f: Fleet, sessions: set<SessionId>, s: SessionId)
    requires FleetInv(f, sessions)
    ensures Terminate(f, s) == Fleet(f.leases - {s}, map id | id in f.containers && f.containers[id].session != s :: f.containers[id], f.issued)
  {
    hide DistinctNames, Labelled;
    forall id | id in f.containers
      ensures id in Terminate(f, s).containers <==> f.containers[id].session != s
    {
      OwnContainerOnly(f, sessions, s, id);
    }
  }

  /** A container belongs to a session exactly if the session's lease points to it. */
  lemma OwnContainerOnly(f: Fleet, sessions: set<SessionId>, s: SessionId, id: ContainerId)
    requires FleetInv(f, sessions) && id in f.containers
    ensures f.containers[id].session == s <==> s in f.leases && f.leases[s].container == id
  {
  }

  /** Cleaning up removes exactly the expired leases and the containers of their sessions. */
  lemma CleanupAccount(f: Fleet, sessions: set<SessionId>, now: Time)
    requires FleetInv(f, sessions)
    ensures var after := Cleanup(f, now);
            && after.issued == f.issued
            && after.leases == (map s | s in f.leases && f.leases[s].expires > now :: f.leases[s])
            && after.containers == map id | id in f.containers && f.leases[f.containers[id].session].expires > now :: f.containers[id]
  {
    var after := Cleanup(f, now);
    forall id | id in f.containers
      ensures id in after.containers <==> f.leases[f.containers[id].session].expires > now
    {
      assert f.leases[f.containers[id].session].container == id;
    }
  }

  lemma LeaseShape(f: Fleet, sessions: set<SessionId>, s: SessionId)
    requires FleetInv(f, sessions) && s in f.leases
    ensures f.leases[s].session == s && s in sessions
  {
  }

  lemma StartTouchesNoLease(f: Fleet, s: SessionId, scope: Scope, now: Time, ttl: int, bootstrap: Option<Bootstrap>,
        launch: Option<ContainerId>)
    ensures StartRuntime(f, s, scope, now, ttl, bootstrap, launch).0.leases == f.leases
  {
  }

  lemma ResetCorrect(f: Fleet, sessions: set<SessionId>, s: SessionId, scope: Scope, now: Time, ttl: int,
        bootstrap: Option<Bootstrap>, launch: Option<ContainerId>)
    requires FleetInv(f, sessions) && s in sessions && LaunchOk(f, launch)
    ensures var (after, r) := Reset(f, s, scope, now, ttl, bootstrap, launch);
            && FleetInv(after, sessions)
            && (r.Ok? ==> launch == Some(r.value.container) && s in after.leases && after.leases[s] == r.value
                          && Running(after.containers, r.value.container))
            && (r.Err? ==> s !in after.leases)
  {
    TerminateKeepsInv(f, sessions, s);
    GetOrStartCorrect(Terminate(f, s), sessions, s, scope, now, ttl, bootstrap, launch);
    if NamedRunning(Terminate(f, s).containers, ContainerName(s)).Some? {
      NamedIsHeld(Terminate(f, s), sessions, s);
    }
  }

  lemma CleanupCorrect(f: Fleet, sessions: set<SessionId>, now: Time)
    requires FleetInv(f, sessions)
    ensures FleetInv(Cleanup(f, now), sessions)
    ensures ExpiredSessions(Cleanup(f, now).leases, now) == {}
    ensures forall s | s in f.leases && f.leases[s].expires > now :: s in Cleanup(f, now).leases && Cleanup(f, now).leases[s] == f.leases[s]
  {
    var after := Cleanup(f, now);
    forall id | id in after.containers
      ensures after.containers[id].session in after.leases && after.leases[after.containers[id].session].container == id
    {
      assert f.containers[id].session !in ExpiredSessions(f.leases, now);
    }
  }

  lemma CrashKeepsInv(f: Fleet, sessions: set<SessionId>, id: ContainerId)
    requires FleetInv(f, sessions)
    ensures FleetInv(Crash(f, id), sessions)
  {
  }

  /** With a hint of its own, resolving keeps the invariant, and answers with a running container. */
  lemma TryResolveCorrect(f: Fleet, sessions: set<SessionId>, s: SessionId, scope: Scope, now: Time, ttl: int,
        hint: Option<ContainerId>)
    requires FleetInv(f, sessions) && s in sessions && OwnHint(f, s, hint)
    ensures var (after, r) := TryResolve(f, s, scope, now, ttl, hint);
            && FleetInv(after, sessions)
            && (r.Some? <==> s in f.leases && Running(f.containers, f.leases[s].container))
            && (r.Some? ==>
                  var lease := f.leases[s];
                  && after.leases == f.leases[s := r.value]
                  && r.value == Lease(s, lease.container, lease.scope, now, now + ttl, lease.hasToken && lease.expires > now))
            && after.issued == f.issued
            && (r.None? ==> after == f)
            && after.containers == f.containers
  {
    hide FleetInv;
    if s in f.leases {
      LeaseShape(f, sessions, s);
    }
    if LiveLease(f, s, now) {
      StoreKeepsInv(f, sessions, s, Refreshed(f.leases[s], now, ttl));
    } else {
      if hint.Some? && Running(f.containers, hint.value) {
        OwnHintIsHeld(f, sessions, s, hint);
      }
      if s in f.leases && Running(f.containers, f.leases[s].container) {
        HeldIsNamed(f, sessions, s);
        NamedIsHeld(f, sessions, s);
        StoreKeepsInv(f, sessions, s, NewLease(s, f.leases[s].container, f.leases[s].scope, now, ttl, false));
      } else if NamedRunning(f.containers, ContainerName(s)).Some? {
        NamedIsHeld(f, sessions, s);
      }
    }
  }

  lemma OwnHintIsHeld(f: Fleet, sessions: set<SessionId>, s: SessionId, hint: Option<ContainerId>)
    requires FleetInv(f, sessions) && OwnHint(f, s, hint) && hint.Some? && Running(f.containers, hint.value)
    ensures s in f.leases && f.leases[s].container == hint.value
  {
  }

  lemma HeldIsNamed(f: Fleet, sessions: set<SessionId>, s: SessionId)
    requires FleetInv(f, sessions) && s in f.leases && Running(f.containers, f.leases[s].container)
    ensures NamedRunning(f.containers, ContainerName(s)).Some?
  {
    var id := f.leases[s].container;
    assert Running(f.containers, id) && f.containers[id].name == ContainerName(s);
  }

  /** Exactly when the own lease is not live and the hint is another session's running container does
      resolving end in two sessions leasing one container. */
  lemma SharingNeedsForeignHint(f: Fleet, sessions: set<SessionId>, s: SessionId, scope: Scope, now: Time, ttl: int,
        hint: Option<ContainerId>)
    requires FleetInv(f, sessions) && s in sessions
    ensures var after := TryResolve(f, s, scope, now, ttl, hint).0;
            (exists t | t in after.leases :: t != s && s in after.leases && after.leases[t].container == after.leases[s].container)
            <==> !LiveLease(f, s, now) && hint.Some? && Running(f.containers, hint.value) && f.containers[hint.value].session != s
  {
    var after := TryResolve(f, s, scope, now, ttl, hint).0;
    if !LiveLease(f, s, now) && hint.Some? && Running(f.containers, hint.value) {
      var owner := f.containers[hint.value].session;
      assert owner in f.leases && f.leases[owner].container == hint.value;
      if owner != s {
        assert owner in after.leases && after.leases[owner].container == after.leases[s].container;
      } else {
        assert after.leases[s].container == f.leases[s].container;
      }
    } else if !LiveLease(f, s, now) && NamedRunning(f.containers, ContainerName(s)).Some? {
      NamedIsHeld(f, sessions, s);
    }
  }
}
