/** The two sticky runtime managers as the objects they are, over a container engine on the heap. Every
    method does to the state what its function in RuntimeLeases or LeaseSimulation says. */
module LeaseManagers {
  import opened Wrappers
  import opened ContainerNames
  import opened RuntimeLeases
  import opened LeaseSimulation

  /** The container engine: names are unique, ids are never reused. */
  class ContainerRuntime {
    var containers: map<ContainerId, Container>
    ghost var issued: map<ContainerId, SessionId>

    constructor ()
      ensures containers == map[] && issued == map[]
    {
      containers, issued := map[], map[];
    }

    predicate IsRunning(id: ContainerId)
      reads this
    {
      Running(containers, id)
    }

    method ContainerIdForName(name: string) returns (r: Option<ContainerId>)
      requires UniqueNames(containers)
      ensures r == NamedRunning(containers, name)
    {
      if id :| id in containers && containers[id].running && containers[id].name == name {
        assert Running(containers, id);
        r := Some(id);
      } else {
        r := None;
      }
    }

    method Stop(id: ContainerId)
      modifies this`containers
      ensures containers == if id in old(containers) then old(containers)[id := old(containers)[id].(running := false)] else old(containers)
    {
      if id in containers {
        containers := containers[id := containers[id].(running := false)];
      }
    }

    method Remove(id: ContainerId)
      modifies this`containers
      ensures containers == old(containers) - {id}
    {
      containers := containers - {id};
    }

    method RemoveByName(name: string)
      modifies this`containers
      ensures containers == WithoutName(old(containers), name)
    {
      containers := WithoutName(containers, name);
    }

    /** `launch` is the id the engine hands out, or nothing when it cannot start the container. A taken
        name is refused. */
    method Launch(name: string, session: SessionId, launch: Option<ContainerId>) returns (r: Option<ContainerId>)
      modifies this
      ensures r == if exists id | id in old(containers) :: old(containers)[id].name == name then None else launch
      ensures r.None? ==> containers == old(containers) && issued == old(issued)
      ensures r.Some? ==> containers == old(containers)[r.value := Container(name, session, true)] && issued == old(issued)[r.value := session]
    {
      if (exists id | id in containers :: containers[id].name == name) || launch.None? {
        return None;
      }
      r := launch;
      containers := containers[r.value := Container(name, session, true)];
      issued := issued[r.value := session];
    }
  }

  class ContainerStickySessionRuntimeManager {
    const runtime: ContainerRuntime
    const ttl: int
    var leases: map<SessionId, Lease>

    constructor (runtime: ContainerRuntime, ttl: int)
      ensures this.runtime == runtime && this.ttl == ttl && leases == map[]
    {
      this.runtime, this.ttl, leases := runtime, ttl, map[];
    }

    ghost function View(): Fleet
      reads this, runtime
    {
      Fleet(leases, runtime.containers, runtime.issued)
    }

    ghost predicate Valid()
      reads this, runtime
    {
      UniqueNames(runtime.containers)
    }

    method GetOrStartRuntime(s: SessionId, scope: Scope, now: Time, bootstrap: Option<Bootstrap>, launch: Option<ContainerId>)
      returns (r: Result<Lease, StartError>)
      requires Valid()
      modifies this, runtime
      ensures Valid()
      ensures (View(), r) == GetOrStart(old(View()), s, scope, now, ttl, bootstrap, launch)
    {
      hide WithoutName, CheckBootstrap, NamedRunning;
      if s in leases && leases[s].expires > now && runtime.IsRunning(leases[s].container) {
        leases := leases[s := leases[s].(lastActivity := now, expires := now + ttl)];
        return Ok(leases[s]);
      }
      var adopted := AdoptRunningContainerIfPresent(s, scope, now, None);
      if adopted.Some? {
        leases := leases[s := adopted.value];
        return Ok(adopted.value);
      }
      if s in leases {
        TerminateContainer(leases[s].container);
      }
      r := StartSessionRuntime(s, scope, now, bootstrap, launch);
      if r.Ok? {
        leases := leases[s := r.value];
      }
    }

    method ResetRuntime(s: SessionId, scope: Scope, now: Time, bootstrap: Option<Bootstrap>, launch: Option<ContainerId>)
      returns (r: Result<Lease, StartError>)
      requires Valid()
      modifies this, runtime
      ensures Valid()
      ensures (View(), r) == Reset(old(View()), s, scope, now, ttl, bootstrap, launch)
    {
      TerminateRuntime(s);
      r := GetOrStartRuntime(s, scope, now, bootstrap, launch);
    }

    method TerminateRuntime(s: SessionId)
      requires Valid()
      modifies this, runtime
      ensures Valid() && View() == Terminate(old(View()), s)
    {
      if s in leases {
        var existing := leases[s];
        leases := leases - {s};
        TerminateContainer(existing.container);
      }
    }

    method CleanupExpired(now: Time) returns (terminated: seq<ContainerId>)
      requires Valid()
      modifies this, runtime
      ensures Valid() && View() == Cleanup(old(View()), now)
      ensures |terminated| == |ExpiredSessions(old(leases), now)|
      ensures forall id :: id in terminated <==> exists s | s in ExpiredSessions(old(leases), now) :: old(leases)[s].container == id
    {
      var expired := ExpiredSessions(leases, now);
      var done: set<SessionId> := {};
      terminated := [];
      while done != expired
        invariant done <= expired && Valid()
        invariant leases == old(leases) - done
        invariant runtime.containers == old(runtime.containers) - ContainersOf(old(leases), done)
        invariant runtime.issued == old(runtime.issued)
        invariant |terminated| == |done|
        invariant forall id :: id in terminated <==> id in ContainersOf(old(leases), done)
        decreases expired - done
      {
        var s :| s in expired && s !in done;
        var lease := leases[s];
        leases := leases - {s};
        TerminateContainer(lease.container);
        terminated := terminated + [lease.container];
        assert ContainersOf(old(leases), done + {s}) == ContainersOf(old(leases), done) + {lease.container};
        done := done + {s};
      }
      assert ContainersOf(old(leases), expired) == set s | s in expired :: old(leases)[s].container;
    }

    method TryResolveActiveLease(s: SessionId, scope: Scope, now: Time,
          containerId: Option<ContainerId>) returns (r: Option<Lease>)
      requires Valid()
      modifies this`leases
      ensures (View(), r) == TryResolve(old(View()), s, scope, now, ttl, containerId)
    {
      if s in leases && leases[s].expires > now && runtime.IsRunning(leases[s].container) {
        leases := leases[s := leases[s].(lastActivity := now, expires := now + ttl)];
        return Some(leases[s]);
      }
      var adoptAs := if s in leases then leases[s].scope else scope;
      var hints := if containerId.Some? then [containerId.value] else [];
      var named := runtime.ContainerIdForName(ContainerName(s));
      if named.Some? {
        hints := hints + [named.value];
      }
      assert named.Some? ==> hints[|hints| - 1] == named.value;
      for i := 0 to |hints|
        invariant leases == old(leases)
        invariant forall j | 0 <= j < i :: !runtime.IsRunning(hints[j])
      {
        if runtime.IsRunning(hints[i]) {
          var adopted := AdoptRunningContainerIfPresent(s, adoptAs, now, Some(hints[i]));
          if adopted.Some? {
            leases := leases[s := adopted.value];
            NamedRuns(runtime.containers, ContainerName(s));
            assert containerId.Some? ==> hints[0] == containerId.value;
            return adopted;
          }
        }
      }
      NamedRuns(runtime.containers, ContainerName(s));
      assert containerId.Some? ==> hints[0] == containerId.value;
      return None;
    }

    method IsRuntimeActive(s: SessionId, scope: Scope, now: Time, containerId: Option<ContainerId>) returns (active: bool)
      requires Valid()
      modifies this`leases
      ensures View() == TryResolve(old(View()), s, scope, now, ttl, containerId).0
      ensures active <==> TryResolve(old(View()), s, scope, now, ttl, containerId).1.Some?
    {
      var lease := TryResolveActiveLease(s, scope, now, containerId);
      active := lease.Some?;
    }

    method AdoptRunningContainerIfPresent(s: SessionId, scope: Scope, now: Time,
          hint: Option<ContainerId>) returns (r: Option<Lease>)
      requires Valid()
      ensures var id := if hint.Some? then hint else NamedRunning(runtime.containers, ContainerName(s));
              r == if id.Some? && Running(runtime.containers, id.value) then Some(NewLease(s, id.value, scope, now, ttl, false)) else None
      ensures hint.None? ==> (r.Some? <==> NamedRunning(runtime.containers, ContainerName(s)).Some?)
    {
      var id := hint;
      if hint.None? {
        id := runtime.ContainerIdForName(ContainerName(s));
        NamedRuns(runtime.containers, ContainerName(s));
      }
      if id.None? || !runtime.IsRunning(id.value) {
        return None;
      }
      r := Some(Lease(s, id.value, scope, now, now + ttl, false));
    }

    method StartSessionRuntime(s: SessionId, scope: Scope, now: Time, bootstrap: Option<Bootstrap>, launch: Option<ContainerId>)
      returns (r: Result<Lease, StartError>)
      requires Valid()
      modifies runtime
      ensures Valid()
      ensures (View(), r) == StartRuntime(old(View()), s, scope, now, ttl, bootstrap, launch)
      ensures r.Ok? <==> Admitted(bootstrap, scope.graph, now) && launch.Some?
      ensures r.Ok? ==> r.value == Lease(s, launch.value, scope, now, now + ttl, true)
                        && launch.value in runtime.containers && runtime.containers[launch.value] == Container(ContainerName(s), s, true)
    {
      var refusal := CheckBootstrap(bootstrap, scope.graph, now);
      if refusal.Some? {
        return Err(refusal.value);
      }
      runtime.RemoveByName(ContainerName(s));
      var launched := runtime.Launch(ContainerName(s), s, launch);
      if launched.None? {
        return Err(LaunchFailed);
      }
      r := Ok(Lease(s, launched.value, scope, now, now + ttl, true));
    }

    method TerminateContainer(id: ContainerId)
      modifies runtime`containers
      ensures runtime.containers == old(runtime.containers) - {id}
    {
      if runtime.IsRunning(id) {
        runtime.Stop(id);
      }
      runtime.Remove(id);
    }
  }

  function ContainersOf(leases: map<SessionId, Lease>, sessions: set<SessionId>): set<ContainerId>
    requires sessions <= leases.Keys
  {
    set s | s in sessions :: leases[s].container
  }

  lemma NamedRuns(containers: map<ContainerId, Container>, name: string)
    ensures var named := NamedRunning(containers, name); named.Some? ==> Running(containers, named.value)
  {
  }

  class InMemoryStickySessionRuntimeManager {
    const ttl: int
    var leases: map<SessionId, Lease>

    constructor (ttl: int)
      ensures this.ttl == ttl && leases == map[]
    {
      this.ttl, leases := ttl, map[];
    }

    /** `id` is the new identifier drawn when a lease has to be created. */
    method GetOrStartRuntime(s: SessionId, scope: Scope, now: Time, id: ContainerId) returns (lease: Lease)
      modifies this
      ensures leases == MemGetOrStart(old(leases), s, scope, now, ttl, id) && leases == old(leases)[s := lease]
      ensures s in old(leases) && old(leases)[s].expires > now ==> lease == old(leases)[s].(lastActivity := now, expires := now + ttl)
      ensures !(s in old(leases) && old(leases)[s].expires > now) ==> lease == Lease(s, id, scope, now, now + ttl, false)
    {
      if s in leases && leases[s].expires > now {
        lease := leases[s].(lastActivity := now, expires := now + ttl);
      } else {
        lease := Lease(s, id, scope, now, now + ttl, false);
      }
      leases := leases[s := lease];
    }

    method ResetRuntime(s: SessionId, scope: Scope, now: Time, id: ContainerId) returns (lease: Lease)
      modifies this
      ensures leases == MemReset(old(leases), s, scope, now, ttl, id) && leases == old(leases)[s := lease]
      ensures lease == Lease(s, id, scope, now, now + ttl, false)
    {
      leases := leases - {s};
      lease := GetOrStartRuntime(s, scope, now, id);
    }

    method TerminateRuntime(s: SessionId)
      modifies this
      ensures leases == MemTerminate(old(leases), s)
      ensures forall t :: t in leases <==> t in old(leases) && t != s
      ensures forall t | t in leases :: leases[t] == old(leases)[t]
    {
      leases := leases - {s};
    }

    method CleanupExpired(now: Time) returns (terminated: seq<ContainerId>)
      modifies this
      ensures leases == MemCleanup(old(leases), now)
      ensures leases == map t | t in old(leases) && old(leases)[t].expires > now :: old(leases)[t]
      ensures |terminated| == |ExpiredSessions(old(leases), now)|
      ensures forall id :: id in terminated <==> exists s | s in ExpiredSessions(old(leases), now) :: old(leases)[s].container == id
    {
      var expired := ExpiredSessions(leases, now);
      var done: set<SessionId> := {};
      terminated := [];
      while done != expired
        invariant done <= expired
        invariant leases == old(leases) - done
        invariant |terminated| == |done|
        invariant forall id :: id in terminated <==> id in ContainersOf(old(leases), done)
        decreases expired - done
      {
        var s :| s in expired && s !in done;
        terminated := terminated + [leases[s].container];
        leases := leases - {s};
        done := done + {s};
      }
    }

    method TryResolveActiveLease(s: SessionId, now: Time) returns (r: Option<Lease>)
      modifies this
      ensures (leases, r) == MemResolve(old(leases), s, now, ttl)
      ensures r.Some? <==> s in old(leases) && old(leases)[s].expires > now
      ensures r.Some? ==> r.value == old(leases)[s].(lastActivity := now, expires := now + ttl) && leases == old(leases)[s := r.value]
      ensures r.None? ==> leases == old(leases)
    {
      if s in leases && leases[s].expires > now {
        leases := leases[s := leases[s].(lastActivity := now, expires := now + ttl)];
        return Some(leases[s]);
      }
      return None;
    }
  }
}
