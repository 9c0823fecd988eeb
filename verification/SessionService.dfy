/** The session entity and the service that moves it through its life, as objects: rows are loaded into an
    entity, changed there and saved back. */
module SessionService {
  import opened Wrappers
  import opened Text
  import opened MutationMetrics
  import opened SessionJournal
  import opened Sessions
  import opened SessionRuns

  /** How many lines are not blank. */
  method CountLines(text: string) returns (count: nat)
    ensures count == |Lines(text)|
  {
    count := 0;
    var lines := SplitLines(text);
    ghost var all := Contents(lines);
    LinesOfNothing();
    assert lines[0..] == lines;
    hide Contents, SplitLines, Strip;
    for i := 0 to |lines|
      invariant count + |Contents(lines[i..])| == |all|
    {
      assert lines[i..] == [lines[i]] + lines[i + 1..];
      ContentsOfOne(lines[i], lines[i + 1..]);
      if Strip(lines[i]) != "" {
        count := count + 1;
      }
    }
    NoContents(lines[|lines|..]);
  }

  lemma NoContents(lines: seq<string>)
    requires lines == []
    ensures Contents(lines) == []
  {
  }

  class ExtractionAgentSession {
    const id: SessionId
    const scope: Scope
    const createdAt: Time
    var updatedAt: Time
    var archivedAt: Option<Time>
    var journal: Option<Journal>
    var phase: Option<string>

    constructor (row: SessionRow)
      ensures Row() == row
    {
      id, scope, createdAt := row.id, row.scope, row.createdAt;
      updatedAt, archivedAt, journal, phase := row.updatedAt, row.archivedAt, row.journal, row.phase;
    }

    function Row(): SessionRow
      reads this
    {
      SessionRow(id, scope, createdAt, updatedAt, archivedAt, journal, phase)
    }

    method Archive(now: Time)
      modifies this
      ensures Row() == old(Row()).(archivedAt := Some(now), updatedAt := now)
    {
      archivedAt := Some(now);
      updatedAt := now;
    }

    method UpdateTurn(phase: Option<string>, now: Time)
      modifies this
      ensures Row() == old(Row()).(updatedAt := now, phase := phase)
    {
      updatedAt := now;
      this.phase := phase;
    }

    method EnsureStarted() returns (j: Journal)
      ensures j == EnsureJournal(journal, createdAt)
    {
      j := if journal.Some? then journal.value else Journal(createdAt, "", "", 0, NO_USAGE);
    }

    method AppendAppliedJsonl(text: string)
      modifies this
      ensures Row() == old(Row()).(journal := AppendApplied(old(journal), createdAt, text))
    {
      hide Strip, Lines;
      var chunk := Strip(text);
      if chunk == "" {
        return;
      }
      var j := EnsureStarted();
      var previous := Strip(j.jsonl);
      var combined := if previous == "" then chunk else previous + ("\n" + chunk);
      var count := CountLines(combined);
      journal := Some(j.(jsonl := combined, lineCount := count));
    }

    method AppendInstanceChangesJsonl(text: string)
      modifies this
      ensures Row() == old(Row()).(journal := AppendInstanceChanges(old(journal), createdAt, text))
    {
      var chunk := Strip(text);
      if chunk == "" {
        return;
      }
      var j := EnsureStarted();
      var previous := Strip(j.instanceChanges);
      var combined := if previous == "" then chunk else previous + ("\n" + chunk);
      journal := Some(j.(instanceChanges := combined));
    }

    method AppendTurnUsage(usage: Option<Usage>)
      modifies this
      ensures Row() == old(Row()).(journal := AppendUsage(old(journal), createdAt, usage))
    {
      if usage.None? {
        return;
      }
      var j := EnsureStarted();
      var u := usage.value;
      journal := Some(j.(usage := Usage(j.usage.input + u.input, j.usage.output + u.output, j.usage.cacheRead + u.cacheRead,
                                        j.usage.cacheCreation + u.cacheCreation, j.usage.cost + u.cost)));
    }
  }

  class ExtractionAgentSessionService {
    const decode: Decoder
    const ttl: int
    var rows: map<SessionId, SessionRow>
    var jobs: seq<Job>
    ghost var log: seq<Event>

    constructor (decode: Decoder, ttl: int)
      ensures this.decode == decode && this.ttl == ttl
      ensures View() == EMPTY && Valid()
    {
      this.decode, this.ttl := decode, ttl;
      rows, jobs, log := map[], [], [];
      new;
      EmptyIsConsistent(decode);
    }

    ghost function View(): State
      reads this
    {
      State(rows, jobs, log)
    }

    ghost predicate Valid()
      reads this
    {
      Inv(decode, View())
    }

    method Load(id: SessionId) returns (session: ExtractionAgentSession)
      requires id in rows
      ensures fresh(session) && session.Row() == rows[id]
    {
      session := new ExtractionAgentSession(rows[id]);
    }

    method Save(session: ExtractionAgentSession)
      modifies this`rows
      ensures rows == old(rows)[session.id := session.Row()]
    {
      rows := rows[session.id := session.Row()];
    }

    /** `archive_session_mutations`: insert the one row the journal gives rise to. */
    method ArchiveSessionMutations(session: ExtractionAgentSession, now: Time)
      modifies this`jobs
      ensures var r := ArchiveRecord(decode, session.id, session.scope.graph, session.scope.ui, session.journal, now);
              jobs == if r.Some? then old(jobs) + [r.value] else old(jobs)
    {
      hide Strip, Lines, MetricsOf, CountWrites;
      if session.journal.None? {
        return;
      }
      var j := session.journal.value;
      var jsonl, changes := Strip(j.jsonl), Strip(j.instanceChanges);
      if jsonl == "" {
        return;
      }
      var m := MetricsFromMutationJsonl(decode, jsonl);
      if m.WriteOps() <= 0 {
        return;
      }
      jobs := jobs + [Job(session.scope.graph, JobId(session.id), JobSetName(session.scope.ui), STRATEGY, Some(j.startedAt), now,
                          Some(jsonl), if changes == "" then None else Some(changes), j.usage,
                          m.entitiesCreated, m.entitiesModified, m.relationshipsCreated, m.relationshipsModified)];
    }

    /** `_end_session_record`: terminate the sandbox, archive the journal, archive the session. */
    method EndSessionRecord(session: ExtractionAgentSession, now: Time)
      requires Valid() && session.id in rows && session.Row() == rows[session.id]
      modifies this, session
      ensures Valid() && View() == EndRecord(decode, old(View()), session.id, now)
      ensures session.id in rows && session.Row() == rows[session.id]
    {
      ghost var before := View();
      assert before.rows[session.id].id == session.id;
      EndRecordKeepsInv(decode, before, session.id, now);
      hide Inv, ArchiveRecord;
      if session.archivedAt.Some? {
        return;
      }
      log := log + [RuntimeTerminated(session.id)];
      ArchiveSessionMutations(session, now);
      session.Archive(now);
      Save(session);
      log := log + [Archived(session.id)];
      assert log == before.log + [RuntimeTerminated(session.id), Archived(session.id)];
    }

    /** `_expire_idle_sessions` over the listing of the user's active sessions. */
    method ExpireIdleSessions(scope: Scope, env: Env)
      requires Valid() && IsListing(View(), scope.user, scope.graph, env.order)
      modifies this
      ensures Valid() && View() == ExpireListed(decode, old(View()), env.order, env.now, ttl)
    {
      ghost var first := View();
      assert env.order[..0] == [];
      for i := 0 to |env.order|
        invariant Valid() && View() == ExpireListed(decode, first, env.order[..i], env.now, ttl)
      {
        hide Inv, EndRecord;
        var id := env.order[i];
        assert env.order[..i + 1][..i] == env.order[..i];
        ExpireEndsIdle(decode, first, env.order[..i], env.now, ttl);
        assert Active(first, id) && id !in env.order[..i] by { hide LastUpdate; }
        assert rows[id] == first.rows[id];
        if rows[id].updatedAt + ttl <= env.now {
          var session := Load(id);
          RowsKeepTheirIds(decode, View(), id);
          EndSessionRecord(session, env.now);
        }
      }
      assert env.order[..|env.order|] == env.order;
    }

    method FindActiveByUiMode(scope: Scope) returns (r: Option<SessionId>)
      requires OneActive(View())
      ensures r == FindActive(View(), scope)
    {
      FindActiveIs(decode, View(), scope);
      if id :| id in rows && rows[id].archivedAt.None? && rows[id].scope == scope {
        assert ActiveIn(View(), id, scope);
        r := Some(id);
      } else {
        r := None;
        assert forall id :: !ActiveIn(View(), id, scope);
      }
    }

    method ReconcileOrphanedStickySession(session: ExtractionAgentSession, env: Env) returns (r: Option<SessionId>)
      requires Valid() && session.id in rows && session.Row() == rows[session.id]
      modifies this, session
      ensures Valid() && (View(), r) == Reconcile(decode, old(View()), session.id, env)
    {
      hide Inv, EndRecord;
      if session.phase.None? || session.phase.value !in ["starting", "ready", "unhealthy", "failed"] {
        return Some(session.id);
      }
      if env.alive {
        return Some(session.id);
      }
      EndSessionRecord(session, env.now);
      return None;
    }

    method CreateSession(scope: Scope, id: SessionId, now: Time)
      requires Valid() && id !in rows && !(exists a :: ActiveIn(View(), a, scope))
      modifies this
      ensures Valid() && View() == Create(old(View()), id, scope, now)
    {
      CreateKeepsInv(decode, View(), id, scope, now);
      hide Inv;
      var session := new ExtractionAgentSession(SessionRow(id, scope, now, now, None, None, None));
      Save(session);
      log := log + [Created(id)];
    }

    method GetActiveSession(scope: Scope, env: Env) returns (r: Option<SessionId>)
      requires Valid() && IsListing(View(), scope.user, scope.graph, env.order)
      modifies this
      ensures Valid() && (View(), r) == GetActive(decode, old(View()), scope, env, ttl)
    {
      ExpireIdleSessions(scope, env);
      FindActiveIs(decode, View(), scope);
      var found := FindActiveByUiMode(scope);
      hide Inv, ExpireListed, FindActive, Reconcile;
      if found.None? {
        return None;
      }
      var session := Load(found.value);
      RowsKeepTheirIds(decode, View(), found.value);
      r := ReconcileOrphanedStickySession(session, env);
    }

    method StartSession(scope: Scope, env: Env, newId: SessionId) returns (id: SessionId)
      requires Valid() && IsListing(View(), scope.user, scope.graph, env.order) && newId !in rows
      modifies this
      ensures Valid() && (View(), id) == Start(decode, old(View()), scope, env, ttl, newId)
    {
      hide Inv, GetActive, IsListing;
      GetActiveCorrect(decode, View(), scope, env, ttl);
      var existing := GetActiveSession(scope, env);
      if existing.Some? {
        return existing.value;
      }
      CreateSession(scope, newId, env.now);
      return newId;
    }

    method EndSession(scope: Scope, env: Env) returns (r: Option<SessionId>)
      requires Valid() && IsListing(View(), scope.user, scope.graph, env.order)
      modifies this
      ensures Valid() && (View(), r) == End(decode, old(View()), scope, env, ttl)
    {
      ExpireIdleSessions(scope, env);
      FindActiveIs(decode, View(), scope);
      r := FindActiveByUiMode(scope);
      hide Inv, ExpireListed, FindActive, EndRecord;
      if r.Some? {
        var session := Load(r.value);
        RowsKeepTheirIds(decode, View(), r.value);
        EndSessionRecord(session, env.now);
      }
    }

    /** `env'.order` lists the sessions still active once the scope's own session has ended. */
    method ClearChatHistory(scope: Scope, env: Env, env': Env, newId: SessionId) returns (id: SessionId)
      requires Valid() && IsListing(View(), scope.user, scope.graph, env.order) && newId !in rows
      requires IsListing(End(decode, View(), scope, env, ttl).0, scope.user, scope.graph, env'.order)
      modifies this
      ensures Valid() && (View(), id) == ClearChat(decode, old(View()), scope, env, env', ttl, newId)
    {
      hide Inv, End, Start, IsListing;
      EndCorrect(decode, View(), scope, env, ttl);
      var ended := EndSession(scope, env);
      id := StartSession(scope, env', newId);
    }

    /** Without a mode of the user interface the default of the backend mode is taken; a mode that does
        not belong to the backend mode is refused before anything is done. */
    method GetOrCreateActiveSession(user: string, graph: string, mode: BackendMode, ui: Option<UiMode>, env: Env, env': Env, newId: SessionId)
      returns (r: Result<SessionId, ModeMismatch>)
      requires Valid() && newId !in rows && IsListing(View(), user, graph, env.order)
      requires var asked := GetActive(decode, View(), Scope(user, graph, ResolvedMode(mode, ui)), env, ttl);
               asked.1.None? ==> IsListing(asked.0, user, graph, env'.order)
      modifies this
      ensures Valid()
      ensures r.Err? <==> ui.Some? && BackendModeOf(ui.value) != mode
      ensures r.Err? ==> View() == old(View())
      ensures r.Ok? ==>
                (View(), r.value) == GetOrCreate(decode, old(View()), Scope(user, graph, ResolvedMode(mode, ui)), env, env', ttl, newId)
      ensures r.Err? <==> ui.Some? && ui.value.InitialSchemaDesign? != mode.SchemaBootstrap?
      ensures r.Ok? ==>
                ActiveIn(View(), r.value, Scope(user, graph, if ui.Some? then ui.value else if mode.SchemaBootstrap? then InitialSchemaDesign else ExtractionJobs))
    {
      GetOrCreateCorrect(decode, View(), Scope(user, graph, ResolvedMode(mode, ui)), env, env', ttl, newId);
      hide Inv, GetActive, Start, IsListing;
      var resolved := if ui.Some? then ui.value else if mode.SchemaBootstrap? then InitialSchemaDesign else ExtractionJobs;
      if BackendModeOf(resolved) != mode {
        return Err(ModeMismatch);
      }
      var scope := Scope(user, graph, resolved);
      GetActiveCorrect(decode, View(), scope, env, ttl);
      var existing := GetActiveSession(scope, env);
      if existing.Some? {
        return Ok(existing.value);
      }
      var id := StartSession(scope, env', newId);
      r := Ok(id);
    }

    /** A chat turn, loaded, extended and saved in one go. */
    method SaveSession(id: SessionId, usage: Option<Usage>, phase: Option<string>, now: Time)
      requires Valid()
      modifies this
      ensures Valid() && View() == SaveTurn(old(View()), id, usage, phase, now)
    {
      SaveKeepsInv(decode, View(), id, usage, phase, now);
      SaveTurnIs(View(), id, usage, phase, now);
      hide SaveTurn;
      if id !in rows || rows[id].archivedAt.Some? {
        return;
      }
      RowsKeepTheirIds(decode, View(), id);
      hide Inv, AppendUsage;
      var session := Load(id);
      session.AppendTurnUsage(usage);
      session.UpdateTurn(phase, now);
      Save(session);
      log := log + [Appended(id, Turn(usage))];
    }

    method ArchiveSession(id: SessionId, now: Time)
      requires Valid()
      modifies this
      ensures Valid() && View() == EndRecord(decode, old(View()), id, now)
    {
      hide Inv, ArchiveRecord;
      if id !in rows || rows[id].archivedAt.Some? {
        return;
      }
      var session := Load(id);
      RowsKeepTheirIds(decode, View(), id);
      EndSessionRecord(session, now);
    }

    /** `append_applied_jsonl` and its siblings: nothing unless the session is active. */
    method AppendToJournal(id: SessionId, e: SessionJournal.Entry)
      requires Valid()
      modifies this
      ensures Valid() && View() == AppendTo(old(View()), id, e)
    {
      AppendKeepsInv(decode, View(), id, e);
      if id !in rows || rows[id].archivedAt.Some? {
        return;
      }
      RowsKeepTheirIds(decode, View(), id);
      hide Inv, AppendApplied, AppendInstanceChanges, AppendUsage;
      var session := Load(id);
      match e {
        case Applied(text) => session.AppendAppliedJsonl(text);
        case InstanceChange(text) => session.AppendInstanceChangesJsonl(text);
        case Turn(usage) => session.AppendTurnUsage(usage);
      }
      Save(session);
      log := log + [Appended(id, e)];
    }
  }

  /** A saved turn is one update of the row. */
  lemma SaveTurnIs(st: State, id: SessionId, usage: Option<Usage>, phase: Option<string>, now: Time)
    ensures !Active(st, id) ==> SaveTurn(st, id, usage, phase, now) == st
    ensures Active(st, id) ==>
              var row := st.rows[id];
              SaveTurn(st, id, usage, phase, now)
              == State(st.rows[id := row.(journal := AppendUsage(row.journal, row.createdAt, usage), updatedAt := now, phase := phase)],
                       st.jobs, st.log + [Appended(id, Turn(usage))])
  {
    hide AppendUsage;
    if Active(st, id) {
      var row := st.rows[id];
      var appended := row.(journal := AppendUsage(row.journal, row.createdAt, usage));
      var saved := appended.(updatedAt := now, phase := phase);
      assert st.rows[id := appended][id := saved] == st.rows[id := saved];
    }
  }

  lemma RowsKeepTheirIds(decode: Decoder, st: State, id: SessionId)
    requires Inv(decode, st) && id in st.rows
    ensures st.rows[id].id == id
  {
    assert Consistent(decode, id, RowOf(st, id), RecordsOf(st.jobs, id), LogOf(st.log, id));
  }
}
