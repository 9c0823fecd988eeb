/** Lifecycle of assistant sessions: the effect of each service operation on the session rows and on the
    archived jobs, and what holds in every sequential run of them. */
module Sessions {
  import opened Wrappers
  import opened MutationMetrics
  import opened SessionJournal
  import opened ArchivedHistory

  type SessionId = string
  /** The session modes behind the modes of the user interface. */
  datatype BackendMode = SchemaBootstrap | ExtractionOperations
  datatype ModeMismatch = ModeMismatch

  function BackendModeOf(ui: UiMode): BackendMode {
    if ui.InitialSchemaDesign? then SchemaBootstrap else ExtractionOperations
  }

  /** The mode asked for, or the default one of the backend mode. */
  function ResolvedMode(mode: BackendMode, ui: Option<UiMode>): UiMode {
    if ui.Some? then ui.value else if mode.SchemaBootstrap? then InitialSchemaDesign else ExtractionJobs
  }

  datatype Scope = Scope(user: string, graph: string, ui: UiMode)
  datatype SessionRow = SessionRow(id: SessionId, scope: Scope, createdAt: Time, updatedAt: Time, archivedAt: Option<Time>,
                                   journal: Option<Journal>, phase: Option<string>)

  /** What happened, in order; the rows do not remember it. */
  datatype Event =
    | Created(id: SessionId)
    | Appended(id: SessionId, e: SessionJournal.Entry)
    | RuntimeTerminated(id: SessionId)
    | Archived(id: SessionId)

  datatype State = State(rows: map<SessionId, SessionRow>, jobs: seq<Job>, log: seq<Event>)

  /** What a call meets: the clock, the listing of the user's active sessions, and whether the sandbox
      of the session it asks about is still there. */
  datatype Env = Env(now: Time, order: seq<SessionId>, alive: bool)

  predicate Active(st: State, id: SessionId) {
    id in st.rows && st.rows[id].archivedAt.None?
  }

  predicate ActiveIn(st: State, id: SessionId, scope: Scope) {
    Active(st, id) && st.rows[id].scope == scope
  }

  function LastUpdate(st: State, id: SessionId): Time {
    if id in st.rows then st.rows[id].updatedAt else 0
  }

  /** The active sessions of the user on the graph, each once, the last updated first. */
  ghost predicate IsListing(st: State, user: string, graph: string, order: seq<SessionId>) {
    && (forall i, j | 0 <= i < j < |order| :: order[i] != order[j])
    && (forall id :: id in order <==> Active(st, id) && st.rows[id].scope.user == user && st.rows[id].scope.graph == graph)
    && (forall i, j | 0 <= i < j < |order| :: LastUpdate(st, order[i]) >= LastUpdate(st, order[j]))
  }

  // ---------------------------------------------------------------- operations

  ghost function EndRecord(decode: Decoder, st: State, id: SessionId, now: Time): State {
    if !Active(st, id) then st
    else
      var row := st.rows[id];
      var record := ArchiveRecord(decode, id, row.scope.graph, row.scope.ui, row.journal, now);
      State(st.rows[id := row.(archivedAt := Some(now), updatedAt := now)],
            if record.Some? then st.jobs + [record.value] else st.jobs,
            st.log + [RuntimeTerminated(id), Archived(id)])
  }

  predicate Idle(st: State, id: SessionId, now: Time, ttl: int) {
    id in st.rows && st.rows[id].updatedAt + ttl <= now
  }

  /** End the listed sessions that were idle when the listing was made. */
  ghost function ExpireListed(decode: Decoder, st: State, order: seq<SessionId>, now: Time, ttl: int): State {
    if order == [] then st
    else
      var id, init := order[|order| - 1], order[..|order| - 1];
      var before := ExpireListed(decode, st, init, now, ttl);
      if Idle(st, id, now, ttl) then EndRecord(decode, before, id, now) else before
  }

  ghost function FindActive(st: State, scope: Scope): Option<SessionId> {
    if exists id :: ActiveIn(st, id, scope) then var id :| ActiveIn(st, id, scope); Some(id) else None
  }

  predicate RuntimeAttempted(row: SessionRow) {
    row.phase.Some? && row.phase.value in ["starting", "ready", "unhealthy", "failed"]
  }

  ghost function Reconcile(decode: Decoder, st: State, id: SessionId, env: Env): (State, Option<SessionId>)
    requires id in st.rows
  {
    if !RuntimeAttempted(st.rows[id]) || env.alive then (st, Some(id))
    else (EndRecord(decode, st, id, env.now), None)
  }

  function Create(st: State, id: SessionId, scope: Scope, now: Time): State {
    State(st.rows[id := SessionRow(id, scope, now, now, None, None, None)], st.jobs, st.log + [Created(id)])
  }

  ghost function GetActive(decode: Decoder, st: State, scope: Scope, env: Env, ttl: int): (State, Option<SessionId>) {
    var expired := ExpireListed(decode, st, env.order, env.now, ttl);
    match FindActive(expired, scope)
    case None => (expired, None)
    case Some(id) => Reconcile(decode, expired, id, env)
  }

  ghost function Start(decode: Decoder, st: State, scope: Scope, env: Env, ttl: int, newId: SessionId): (State, SessionId) {
    var (ready, existing) := GetActive(decode, st, scope, env, ttl);
    if existing.Some? then (ready, existing.value) else (Create(ready, newId, scope, env.now), newId)
  }

  ghost function End(decode: Decoder, st: State, scope: Scope, env: Env, ttl: int): (State, Option<SessionId>) {
    var expired := ExpireListed(decode, st, env.order, env.now, ttl);
    match FindActive(expired, scope)
    case None => (expired, None)
    case Some(id) => (EndRecord(decode, expired, id, env.now), Some(id))
  }

  ghost function ClearChat(decode: Decoder, st: State, scope: Scope, env: Env, env': Env, ttl: int,
        newId: SessionId): (State, SessionId) {
    Start(decode, End(decode, st, scope, env, ttl).0, scope, env', ttl, newId)
  }

  /** Loading an active session, appending to its journal and saving it, as one step. */
  function AppendTo(st: State, id: SessionId, e: SessionJournal.Entry): State {
    if !Active(st, id) then st
    else
      var row := st.rows[id];
      State(st.rows[id := row.(journal := Append(row.journal, row.createdAt, e))], st.jobs, st.log + [Appended(id, e)])
  }

  /** A chat turn saved: its usage, the state of the sandbox, and the time of the last update. */
  function SaveTurn(st: State, id: SessionId, usage: Option<Usage>, phase: Option<string>, now: Time): State {
    Touch(AppendTo(st, id, Turn(usage)), id, phase, now)
  }

  function Touch(st: State, id: SessionId, phase: Option<string>, now: Time): State {
    if !Active(st, id) then st else st.(rows := st.rows[id := st.rows[id].(updatedAt := now, phase := phase)])
  }

  // ---------------------------------------------------------------- the history of one session

  /** The events of one session, in order. */
  ghost function LogOf(log: seq<Event>, id: SessionId): seq<Event> {
    if log == [] then []
    else LogOf(log[..|log| - 1], id) + if log[|log| - 1].id == id then [log[|log| - 1]] else []
  }

  /** What was appended, in order. */
  ghost function EntriesIn(log: seq<Event>): seq<SessionJournal.Entry> {
    if log == [] then []
    else EntriesIn(log[..|log| - 1]) + if log[|log| - 1].Appended? then [log[|log| - 1].e] else []
  }

  ghost function Appends(id: SessionId, entries: seq<SessionJournal.Entry>): seq<Event> {
    seq(|entries|, i requires 0 <= i < |entries| => Appended(id, entries[i]))
  }

  /** A life: created once, appended to while active, and at the end, if it has ended, its runtime
      terminated and it archived, once each and in this order. */
  ghost function Life(id: SessionId, entries: seq<SessionJournal.Entry>, ended: bool): seq<Event> {
    [Created(id)] + Appends(id, entries) + if ended then [RuntimeTerminated(id), Archived(id)] else []
  }

  /** The session a row of mutation history was written for. */
  function SessionOf(job: Job): SessionId {
    if |job.jobId| >= 4 then job.jobId[4..] else ""
  }

  ghost function RecordsOf(jobs: seq<Job>, id: SessionId): seq<Job> {
    Only(jobs, SessionOf, id)
  }

  function RowOf(st: State, id: SessionId): Option<SessionRow> {
    if id in st.rows then Some(st.rows[id]) else None
  }

  ghost function RecordFor(decode: Decoder, row: SessionRow): seq<Job> {
    if row.archivedAt.None? then []
    else
      var r := ArchiveRecord(decode, row.id, row.scope.graph, row.scope.ui, row.journal, row.archivedAt.value);
      if r.Some? then [r.value] else []
  }

  /** A row, its records and its events fit together. */
  ghost predicate Consistent(decode: Decoder, id: SessionId, row: Option<SessionRow>, records: seq<Job>, events: seq<Event>) {
    if row.None? then records == [] && events == []
    else
      && row.value.id == id
      && events == Life(id, EntriesIn(events), row.value.archivedAt.Some?)
      && row.value.journal == AppendAll(None, row.value.createdAt, EntriesIn(events))
      && records == RecordFor(decode, row.value)
  }

  ghost predicate OneActive(st: State) {
    forall a, b | Active(st, a) && Active(st, b) && st.rows[a].scope == st.rows[b].scope :: a == b
  }

  ghost predicate Inv(decode: Decoder, st: State) {
    && OneActive(st)
    && forall id: SessionId :: Consistent(decode, id, RowOf(st, id), RecordsOf(st.jobs, id), LogOf(st.log, id))
  }

  /** From one state to a later one: no session disappears or changes scope, and an archived one keeps
      its row for good. */
  ghost predicate Evolves(st: State, later: State) {
    && (forall id | id in st.rows :: id in later.rows && later.rows[id].scope == st.rows[id].scope)
    && (forall id | id in st.rows && st.rows[id].archivedAt.Some? :: later.rows[id] == st.rows[id])
  }

  // ---------------------------------------------------------------- primitive steps keep the invariant

  lemma LogOfSnoc(log: seq<Event>, e: Event, id: SessionId)
    ensures e.id == id ==> LogOf(log + [e], id) == LogOf(log, id) + [e]
    ensures e.id != id ==> LogOf(log + [e], id) == LogOf(log, id)
  {
    assert (log + [e])[..|log|] == log;
  }

  lemma EntriesSnoc(log: seq<Event>, e: Event)
    ensures e.Appended? ==> EntriesIn(log + [e]) == EntriesIn(log) + [e.e]
    ensures !e.Appended? ==> EntriesIn(log + [e]) == EntriesIn(log)
  {
    assert (log + [e])[..|log|] == log;
  }

  lemma RecordsSnoc(jobs: seq<Job>, job: Job, id: SessionId)
    ensures SessionOf(job) == id ==> RecordsOf(jobs + [job], id) == RecordsOf(jobs, id) + [job]
    ensures SessionOf(job) != id ==> RecordsOf(jobs + [job], id) == RecordsOf(jobs, id)
  {
    OnlySnoc(jobs, job, SessionOf, id);
  }

  lemma EndConsistent(decode: Decoder, id: SessionId, row: SessionRow, events: seq<Event>, now: Time)
    requires row.archivedAt.None? && Consistent(decode, id, Some(row), [], events)
    ensures var after := row.(archivedAt := Some(now), updatedAt := now);
            Consistent(decode, id, Some(after), RecordFor(decode, after), events + [RuntimeTerminated(id)] + [Archived(id)])
  {
    hide AppendAll, ArchiveRecord, EntriesIn;
    EntriesSnoc(events, RuntimeTerminated(id));
    EntriesSnoc(events + [RuntimeTerminated(id)], Archived(id));
    var entries := EntriesIn(events);
    assert Life(id, entries, false) == [Created(id)] + Appends(id, entries);
    assert Life(id, entries, true) == events + [RuntimeTerminated(id)] + [Archived(id)];
  }

  lemma EndedLog(log: seq<Event>, id: SessionId, j: SessionId)
    ensures id == j ==> LogOf(log + [RuntimeTerminated(id), Archived(id)], j) == LogOf(log, j) + [RuntimeTerminated(id)] + [Archived(id)]
    ensures id != j ==> LogOf(log + [RuntimeTerminated(id), Archived(id)], j) == LogOf(log, j)
  {
    LogOfSnoc(log, RuntimeTerminated(id), j);
    LogOfSnoc(log + [RuntimeTerminated(id)], Archived(id), j);
    assert log + [RuntimeTerminated(id)] + [Archived(id)] == log + [RuntimeTerminated(id), Archived(id)];
  }

  lemma ConsistentAt(decode: Decoder, st: State, j: SessionId)
    requires Inv(decode, st)
    ensures Consistent(decode, j, RowOf(st, j), RecordsOf(st.jobs, j), LogOf(st.log, j))
  {
    hide Consistent, RecordsOf, LogOf, OneActive;
  }

  lemma NoRecordYet(decode: Decoder, st: State, id: SessionId)
    requires Inv(decode, st) && (id in st.rows ==> st.rows[id].archivedAt.None?)
    ensures RecordsOf(st.jobs, id) == []
    ensures id !in st.rows ==> LogOf(st.log, id) == []
  {
    ConsistentAt(decode, st, id);
    hide RecordsOf, LogOf, EntriesIn, Life, AppendAll;
  }

  /** What ending `id` does to the part of `j`. */
  lemma EndedPart(decode: Decoder, st: State, id: SessionId, now: Time, j: SessionId)
    requires Inv(decode, st) && Active(st, id)
    ensures var after := EndRecord(decode, st, id, now);
            && (j != id ==> RowOf(after, j) == RowOf(st, j) && RecordsOf(after.jobs, j) == RecordsOf(st.jobs, j) && LogOf(after.log, j) == LogOf(st.log, j))
            && (j == id ==> RowOf(after, j) == Some(st.rows[id].(archivedAt := Some(now), updatedAt := now))
                            && RecordsOf(after.jobs, j) == RecordFor(decode, st.rows[id].(archivedAt := Some(now), updatedAt := now))
                            && LogOf(after.log, j) == LogOf(st.log, j) + [RuntimeTerminated(id)] + [Archived(id)])
  {
    NoRecordYet(decode, st, id);
    ConsistentAt(decode, st, id);
    assert st.rows[id].id == id;
    var row := st.rows[id];
    var record := ArchiveRecord(decode, id, row.scope.graph, row.scope.ui, row.journal, now);
    RecordNamesSession(decode, id, row, now);
    hide Inv, Consistent, ArchiveRecord, RecordsOf, LogOf;
    EndedLog(st.log, id, j);
    if record.Some? {
      RecordsSnoc(st.jobs, record.value, j);
    }
  }

  lemma EndRecordKeepsInv(decode: Decoder, st: State, id: SessionId, now: Time)
    requires Inv(decode, st)
    ensures Inv(decode, EndRecord(decode, st, id, now)) && Evolves(st, EndRecord(decode, st, id, now))
    ensures !Active(EndRecord(decode, st, id, now), id)
    ensures Active(st, id) ==>
              && EndRecord(decode, st, id, now).rows == st.rows[id := st.rows[id].(archivedAt := Some(now), updatedAt := now)]
              && EndRecord(decode, st, id, now).log == st.log + [RuntimeTerminated(id), Archived(id)]
    ensures !Active(st, id) ==> EndRecord(decode, st, id, now) == st
  {
    if Active(st, id) {
      var row, after := st.rows[id], EndRecord(decode, st, id, now);
      EndKeepsOneActive(decode, st, id, now);
      forall j: SessionId
        ensures Consistent(decode, j, RowOf(after, j), RecordsOf(after.jobs, j), LogOf(after.log, j))
      {
        ConsistentAt(decode, st, j);
        NoRecordYet(decode, st, id);
        hide Inv, Consistent, RecordFor, RecordsOf, LogOf, RowOf, EndRecord;
        EndedPart(decode, st, id, now, j);
        if j == id {
          assert RowOf(st, id) == Some(row) by { RowIs(st, id); }
          EndConsistent(decode, id, row, LogOf(st.log, id), now);
        }
      }
      hide Consistent, RecordsOf, LogOf, ArchiveRecord, OneActive;
    }
  }

  lemma RowIs(st: State, id: SessionId)
    requires id in st.rows
    ensures RowOf(st, id) == Some(st.rows[id])
  {
  }

  lemma EndKeepsOneActive(decode: Decoder, st: State, id: SessionId, now: Time)
    requires OneActive(st)
    ensures OneActive(EndRecord(decode, st, id, now))
  {
    hide ArchiveRecord;
    var after := EndRecord(decode, st, id, now);
    assert forall a | Active(after, a) :: Active(st, a) && after.rows[a] == st.rows[a];
  }

  lemma RecordNamesSession(decode: Decoder, id: SessionId, row: SessionRow, now: Time)
    ensures var r := ArchiveRecord(decode, id, row.scope.graph, row.scope.ui, row.journal, now); r.Some? ==> SessionOf(r.value) == id
  {
    assert JobId(id)[4..] == id;
  }

  lemma CreateConsistent(decode: Decoder, id: SessionId, scope: Scope, now: Time)
    ensures Consistent(decode, id, Some(SessionRow(id, scope, now, now, None, None, None)), [], [] + [Created(id)])
  {
    hide ArchiveRecord;
    EntriesSnoc([], Created(id));
    assert Life(id, [], false) == [Created(id)];
  }

  lemma CreateKeepsInv(decode: Decoder, st: State, id: SessionId, scope: Scope, now: Time)
    requires Inv(decode, st) && id !in st.rows && !(exists a :: ActiveIn(st, a, scope))
    ensures Inv(decode, Create(st, id, scope, now)) && Evolves(st, Create(st, id, scope, now))
  {
    var after := Create(st, id, scope, now);
    CreateConsistent(decode, id, scope, now);
    forall j: SessionId
      ensures Consistent(decode, j, RowOf(after, j), RecordsOf(after.jobs, j), LogOf(after.log, j))
    {
      assert j == id ==> RecordsOf(st.jobs, j) == [] && LogOf(st.log, j) == [] by {
        assert Consistent(decode, j, RowOf(st, j), RecordsOf(st.jobs, j), LogOf(st.log, j));
        hide LogOf, RecordsOf;
      }
      hide Consistent, LogOf, RecordsOf;
      assert Consistent(decode, j, RowOf(st, j), RecordsOf(st.jobs, j), LogOf(st.log, j));
      LogOfSnoc(st.log, Created(id), j);
    }
    CreateKeepsOneActive(st, id, scope, now);
  }

  lemma CreateKeepsOneActive(st: State, id: SessionId, scope: Scope, now: Time)
    requires OneActive(st) && id !in st.rows && !(exists a :: ActiveIn(st, a, scope))
    ensures OneActive(Create(st, id, scope, now))
  {
    var after := Create(st, id, scope, now);
    forall a, b | Active(after, a) && Active(after, b) && after.rows[a].scope == after.rows[b].scope
      ensures a == b
    {
      assert a != id ==> Active(st, a) && !ActiveIn(st, a, scope);
      assert b != id ==> Active(st, b) && !ActiveIn(st, b, scope);
    }
  }

  lemma AppendConsistent(decode: Decoder, id: SessionId, row: SessionRow, events: seq<Event>, e: SessionJournal.Entry)
    requires row.archivedAt.None? && Consistent(decode, id, Some(row), [], events)
    ensures Consistent(decode, id, Some(row.(journal := Append(row.journal, row.createdAt, e))), [], events + [Appended(id, e)])
  {
    hide ArchiveRecord, EntriesIn, Append;
    EntriesSnoc(events, Appended(id, e));
    var entries := EntriesIn(events);
    assert (entries + [e])[..|entries|] == entries;
    assert Life(id, entries + [e], false) == events + [Appended(id, e)];
  }

  lemma SameRowsOneActive(st: State, later: State)
    requires OneActive(st)
    requires forall id | Active(later, id) :: Active(st, id) && later.rows[id].scope == st.rows[id].scope
    ensures OneActive(later)
  {
  }

  /** Appending reaches an active session and is recorded; it leaves its last update and all else alone. For any other
      session nothing happens. */
  lemma AppendAccount(st: State, id: SessionId, e: SessionJournal.Entry)
    ensures Active(st, id) ==>
              var after := AppendTo(st, id, e);
              && after.log == st.log + [Appended(id, e)] && after.jobs == st.jobs
              && after.rows.Keys == st.rows.Keys && (forall x | x in st.rows && x != id :: after.rows[x] == st.rows[x])
              && after.rows[id] == st.rows[id].(journal := after.rows[id].journal)
    ensures !Active(st, id) ==> AppendTo(st, id, e) == st
  {
    hide Append;
  }

  lemma AppendKeepsInv(decode: Decoder, st: State, id: SessionId, e: SessionJournal.Entry)
    requires Inv(decode, st)
    ensures Inv(decode, AppendTo(st, id, e)) && Evolves(st, AppendTo(st, id, e))
  {
    if Active(st, id) {
      hide Append;
      var after := AppendTo(st, id, e);
      SameRowsOneActive(st, after);
      forall j: SessionId
        ensures Consistent(decode, j, RowOf(after, j), RecordsOf(after.jobs, j), LogOf(after.log, j))
      {
        AppendedPart(decode, st, id, e, j);
      }
      hide Consistent, OneActive, LogOf, RecordsOf, RowOf;
    }
  }

  lemma AppendedPart(decode: Decoder, st: State, id: SessionId, e: SessionJournal.Entry, j: SessionId)
    requires Inv(decode, st) && Active(st, id)
    ensures var after := AppendTo(st, id, e);
            Consistent(decode, j, RowOf(after, j), RecordsOf(after.jobs, j), LogOf(after.log, j))
  {
    ConsistentAt(decode, st, j);
    NoRecordYet(decode, st, id);
    hide Inv, Consistent, LogOf, RecordsOf, Append;
    LogOfSnoc(st.log, Appended(id, e), j);
    if j == id {
      AppendConsistent(decode, id, st.rows[id], LogOf(st.log, id), e);
    }
  }

  lemma TouchKeepsInv(decode: Decoder, st: State, id: SessionId, phase: Option<string>, now: Time)
    requires Inv(decode, st)
    ensures Inv(decode, Touch(st, id, phase, now)) && Evolves(st, Touch(st, id, phase, now))
  {
    if Active(st, id) {
      var after := Touch(st, id, phase, now);
      SameRowsOneActive(st, after);
      forall j: SessionId
        ensures Consistent(decode, j, RowOf(after, j), RecordsOf(after.jobs, j), LogOf(after.log, j))
      {
        ConsistentAt(decode, st, j);
        hide Inv, OneActive, LogOf, RecordsOf, EntriesIn, AppendAll, Life, ArchiveRecord;
      }
      hide Consistent, OneActive, LogOf, RecordsOf, RowOf;
    }
  }

  /** Saving a chat turn records its usage and sets the time of the last update and the state of the sandbox. */
  lemma SaveAccount(st: State, id: SessionId, usage: Option<Usage>, phase: Option<string>, now: Time)
    ensures Active(st, id) ==>
              var after := SaveTurn(st, id, usage, phase, now);
              && after.log == st.log + [Appended(id, Turn(usage))] && after.jobs == st.jobs
              && after.rows.Keys == st.rows.Keys && (forall x | x in st.rows && x != id :: after.rows[x] == st.rows[x])
              && after.rows[id].updatedAt == now && after.rows[id].phase == phase
    ensures !Active(st, id) ==> SaveTurn(st, id, usage, phase, now) == st
  {
    AppendAccount(st, id, Turn(usage));
    hide AppendTo;
  }

  lemma SaveKeepsInv(decode: Decoder, st: State, id: SessionId, usage: Option<Usage>, phase: Option<string>, now: Time)
    requires Inv(decode, st)
    ensures Inv(decode, SaveTurn(st, id, usage, phase, now)) && Evolves(st, SaveTurn(st, id, usage, phase, now))
  {
    hide Inv, AppendTo, Touch;
    AppendKeepsInv(decode, st, id, Turn(usage));
    TouchKeepsInv(decode, AppendTo(st, id, Turn(usage)), id, phase, now);
  }
}
