/** What every sequential run of the session service guarantees. */
module SessionRuns {
  import opened Wrappers
  import opened Sums
  import opened MutationMetrics
  import opened SessionJournal
  import opened ArchivedHistory
  import opened Sessions

  lemma EvolvesTransitive(a: State, b: State, c: State)
    requires Evolves(a, b) && Evolves(b, c)
    ensures Evolves(a, c)
  {
  }

  // ---------------------------------------------------------------- the operations

  lemma {:induction false} ExpireKeepsInv(decode: Decoder, st: State, order: seq<SessionId>, now: Time, ttl: int)
    requires Inv(decode, st)
    ensures Inv(decode, ExpireListed(decode, st, order, now, ttl)) && Evolves(st, ExpireListed(decode, st, order, now, ttl))
    decreases |order|
  {
    hide Inv, EndRecord;
    if order != [] {
      var id, init := order[|order| - 1], order[..|order| - 1];
      var before := ExpireListed(decode, st, init, now, ttl);
      ExpireKeepsInv(decode, st, init, now, ttl);
      if Idle(st, id, now, ttl) {
        EndRecordKeepsInv(decode, before, id, now);
        EvolvesTransitive(st, before, EndRecord(decode, before, id, now));
      }
    }
  }

  /** Exactly the listed sessions whose last update is that long ago are ended, now; the others keep their rows. */
  lemma {:induction false} ExpireEndsIdle(decode: Decoder, st: State, order: seq<SessionId>, now: Time, ttl: int)
    ensures var after := ExpireListed(decode, st, order, now, ttl);
            && after.rows.Keys == st.rows.Keys
            && (forall id | Active(st, id) && id in order && st.rows[id].updatedAt + ttl <= now ::
                  after.rows[id] == st.rows[id].(archivedAt := Some(now), updatedAt := now))
            && (forall id | id in st.rows && !(Active(st, id) && id in order && st.rows[id].updatedAt + ttl <= now) :: after.rows[id] == st.rows[id])
    decreases |order|
  {
    if order != [] {
      var last, init := order[|order| - 1], order[..|order| - 1];
      ExpireEndsIdle(decode, st, init, now, ttl);
      assert order == init + [last];
      assert forall id :: id in order <==> id in init || id == last;
      hide ArchiveRecord;
    }
  }

  /** With a full listing, no session of the user on the graph stays active past its idle time. */
  lemma NoIdleSessionSurvives(decode: Decoder, st: State, scope: Scope, env: Env, ttl: int)
    requires IsListing(st, scope.user, scope.graph, env.order)
    ensures var after := ExpireListed(decode, st, env.order, env.now, ttl);
            forall id | Active(after, id) && after.rows[id].scope.user == scope.user && after.rows[id].scope.graph == scope.graph ::
              after.rows[id].updatedAt + ttl > env.now
  {
    ExpireEndsIdle(decode, st, env.order, env.now, ttl);
    hide ExpireListed;
    var after := ExpireListed(decode, st, env.order, env.now, ttl);
    forall id | Active(after, id) && after.rows[id].scope.user == scope.user && after.rows[id].scope.graph == scope.graph
      ensures after.rows[id].updatedAt + ttl > env.now
    {
      assert Active(st, id);
      assert after.rows[id] == st.rows[id] && id in env.order;
    }
  }

  lemma FindActiveIs(decode: Decoder, st: State, scope: Scope)
    requires OneActive(st)
    ensures FindActive(st, scope).Some? ==> ActiveIn(st, FindActive(st, scope).value, scope)
    ensures forall id :: ActiveIn(st, id, scope) <==> FindActive(st, scope) == Some(id)
  {
  }

  predicate Stale(st: State, id: SessionId, env: Env, ttl: int) {
    id in env.order && id in st.rows && st.rows[id].updatedAt + ttl <= env.now
  }

  /** The session of the scope that is neither idle for too long nor, with a sandbox that was attempted, without
      it. */
  predicate Usable(st: State, id: SessionId, scope: Scope, env: Env, ttl: int) {
    && ActiveIn(st, id, scope) && !Stale(st, id, env, ttl)
    && !(st.rows[id].phase in [Some("starting"), Some("ready"), Some("unhealthy"), Some("failed")] && !env.alive)
  }

  /** After the idle sessions have been ended, the session found for the scope is the one that was active in it and not
      idle. */
  lemma FoundAfterExpiry(decode: Decoder, st: State, scope: Scope, env: Env, ttl: int)
    requires Inv(decode, st)
    ensures var expired := ExpireListed(decode, st, env.order, env.now, ttl);
            && Inv(decode, expired) && Evolves(st, expired) && expired.rows.Keys == st.rows.Keys
            && (forall id :: FindActive(expired, scope) == Some(id) <==> ActiveIn(st, id, scope) && !Stale(st, id, env, ttl))
            && (forall id :: ActiveIn(expired, id, scope) <==> FindActive(expired, scope) == Some(id))
            && (FindActive(expired, scope).Some? ==> var id := FindActive(expired, scope).value; id in st.rows && expired.rows[id] == st.rows[id])
  {
    var expired := ExpireListed(decode, st, env.order, env.now, ttl);
    ExpireKeepsInv(decode, st, env.order, env.now, ttl);
    ExpireEndsIdle(decode, st, env.order, env.now, ttl);
    assert OneActive(expired);
    FindActiveIs(decode, expired, scope);
    hide Inv, FindActive, ExpireListed, OneActive, Evolves;
    forall id
      ensures ActiveIn(expired, id, scope) <==> ActiveIn(st, id, scope) && !Stale(st, id, env, ttl)
    {
    }
  }

  /** The active session of the scope, if it is not idle and its sandbox is still there; otherwise the scope has
      none. */
  lemma GetActiveCorrect(decode: Decoder, st: State, scope: Scope, env: Env, ttl: int)
    requires Inv(decode, st)
    ensures var (after, r) := GetActive(decode, st, scope, env, ttl);
            && Inv(decode, after) && Evolves(st, after) && after.rows.Keys == st.rows.Keys
            && (forall id :: ActiveIn(after, id, scope) <==> r == Some(id))
            && (forall id :: Usable(st, id, scope, env, ttl) <==> r == Some(id))
            && (r.Some? ==> after.rows[r.value] == st.rows[r.value])
  {
    var expired := ExpireListed(decode, st, env.order, env.now, ttl);
    FoundAfterExpiry(decode, st, scope, env, ttl);
    hide Inv, FindActive, ExpireListed, EndRecord, Evolves;
    if FindActive(expired, scope).Some? {
      var id := FindActive(expired, scope).value;
      EndRecordKeepsInv(decode, expired, id, env.now);
      EvolvesTransitive(st, expired, EndRecord(decode, expired, id, env.now));
    }
  }

  /** Starting gives the one active session of the scope: the usable one, as it was, or else a new one with nothing
      in it. */
  lemma StartCorrect(decode: Decoder, st: State, scope: Scope, env: Env, ttl: int, newId: SessionId)
    requires Inv(decode, st) && newId !in st.rows
    ensures var (after, id) := Start(decode, st, scope, env, ttl, newId);
            && Inv(decode, after) && Evolves(st, after)
            && (forall x :: ActiveIn(after, x, scope) <==> x == id)
            && after.rows.Keys <= st.rows.Keys + {newId}
            && (forall x | Usable(st, x, scope, env, ttl) :: id == x && after.rows[x] == st.rows[x])
            && ((forall x :: !Usable(st, x, scope, env, ttl)) ==>
                  id == newId && after.rows[newId] == SessionRow(newId, scope, env.now, env.now, None, None, None))
  {
    hide Inv, GetActive, Usable;
    var (ready, existing) := GetActive(decode, st, scope, env, ttl);
    GetActiveCorrect(decode, st, scope, env, ttl);
    if existing.None? {
      CreateKeepsInv(decode, ready, newId, scope, env.now);
      EvolvesTransitive(st, ready, Create(ready, newId, scope, env.now));
      forall x
        ensures ActiveIn(Create(ready, newId, scope, env.now), x, scope) <==> x == newId
      {
        assert !ActiveIn(ready, x, scope);
      }
    }
  }

  /** Ending leaves the scope without an active session, and answers with the one it had, unless that was idle. */
  lemma EndCorrect(decode: Decoder, st: State, scope: Scope, env: Env, ttl: int)
    requires Inv(decode, st)
    ensures var (after, r) := End(decode, st, scope, env, ttl);
            && Inv(decode, after) && Evolves(st, after) && after.rows.Keys == st.rows.Keys
            && (forall x :: !ActiveIn(after, x, scope))
            && (forall x :: r == Some(x) <==> ActiveIn(st, x, scope) && !Stale(st, x, env, ttl))
            && (r.Some? ==> after.rows[r.value].archivedAt == Some(env.now))
  {
    var expired := ExpireListed(decode, st, env.order, env.now, ttl);
    FoundAfterExpiry(decode, st, scope, env, ttl);
    hide Inv, FindActive, ExpireListed, EndRecord, Evolves, Stale;
    if FindActive(expired, scope).Some? {
      var id := FindActive(expired, scope).value;
      EndRecordKeepsInv(decode, expired, id, env.now);
      EvolvesTransitive(st, expired, EndRecord(decode, expired, id, env.now));
    }
  }

  /** Clearing the chat always leaves a new session behind, with nothing in it. */
  lemma ClearChatStartsOver(decode: Decoder, st: State, scope: Scope, env: Env, env': Env, ttl: int, newId: SessionId)
    requires Inv(decode, st) && newId !in st.rows
    ensures var (after, id) := ClearChat(decode, st, scope, env, env', ttl, newId);
            && Inv(decode, after) && Evolves(st, after) && id == newId
            && (forall x :: ActiveIn(after, x, scope) <==> x == newId)
            && after.rows[newId] == SessionRow(newId, scope, env'.now, env'.now, None, None, None)
  {
    hide Inv, End, Start;
    var ended := End(decode, st, scope, env, ttl).0;
    EndCorrect(decode, st, scope, env, ttl);
    StartCorrect(decode, ended, scope, env', ttl, newId);
    EvolvesTransitive(st, ended, ClearChat(decode, st, scope, env, env', ttl, newId).0);
    forall x
      ensures !Usable(ended, x, scope, env', ttl)
    {
      assert !ActiveIn(ended, x, scope);
    }
  }

  // ---------------------------------------------------------------- runs

  datatype Op =
    | OpGet(scope: Scope, env: Env)
    | OpStart(scope: Scope, env: Env, newId: SessionId)
    | OpEnd(scope: Scope, env: Env)
    | OpGetOrCreate(scope: Scope, env: Env, env': Env, newId: SessionId)
    | OpClearChat(scope: Scope, env: Env, env': Env, newId: SessionId)
    | OpArchive(id: SessionId, now: Time)
    | OpAppend(id: SessionId, e: SessionJournal.Entry)
    | OpSaveTurn(id: SessionId, usage: Option<Usage>, phase: Option<string>, now: Time)

  /** Session ids are never drawn twice. */
  predicate Legal(st: State, op: Op) {
    op.OpStart? || op.OpGetOrCreate? || op.OpClearChat? ==> op.newId !in st.rows
  }

  ghost function GetOrCreate(decode: Decoder, st: State, scope: Scope, env: Env, env': Env, ttl: int,
        newId: SessionId): (State, SessionId) {
    var (ready, existing) := GetActive(decode, st, scope, env, ttl);
    if existing.Some? then (ready, existing.value) else Start(decode, ready, scope, env', ttl, newId)
  }

  /** Asking for a session or a new one: the usable session of the scope as it was, or else a new one. */
  lemma GetOrCreateCorrect(decode: Decoder, st: State, scope: Scope, env: Env, env': Env, ttl: int, newId: SessionId)
    requires Inv(decode, st) && newId !in st.rows
    ensures var (after, id) := GetOrCreate(decode, st, scope, env, env', ttl, newId);
            && Inv(decode, after) && Evolves(st, after)
            && (forall x :: ActiveIn(after, x, scope) <==> x == id)
            && (forall x | Usable(st, x, scope, env, ttl) :: id == x && after.rows[x] == st.rows[x])
            && ((forall x :: !Usable(st, x, scope, env, ttl)) ==>
                  id == newId && after.rows[newId] == SessionRow(newId, scope, env'.now, env'.now, None, None, None))
  {
    hide Inv, GetActive, Start;
    var (ready, existing) := GetActive(decode, st, scope, env, ttl);
    GetActiveCorrect(decode, st, scope, env, ttl);
    if existing.None? {
      StartCorrect(decode, ready, scope, env', ttl, newId);
      EvolvesTransitive(st, ready, Start(decode, ready, scope, env', ttl, newId).0);
      forall x
        ensures !Usable(ready, x, scope, env', ttl)
      {
        assert !ActiveIn(ready, x, scope);
      }
    }
  }

  ghost function Step(decode: Decoder, st: State, op: Op, ttl: int): State {
    match op
    case OpGet(scope, env) => GetActive(decode, st, scope, env, ttl).0
    case OpStart(scope, env, newId) => Start(decode, st, scope, env, ttl, newId).0
    case OpEnd(scope, env) => End(decode, st, scope, env, ttl).0
    case OpGetOrCreate(scope, env, env', newId) => GetOrCreate(decode, st, scope, env, env', ttl, newId).0
    case OpClearChat(scope, env, env', newId) => ClearChat(decode, st, scope, env, env', ttl, newId).0
    case OpArchive(id, now) => EndRecord(decode, st, id, now)
    case OpAppend(id, e) => AppendTo(st, id, e)
    case OpSaveTurn(id, usage, phase, now) => SaveTurn(st, id, usage, phase, now)
  }

  lemma StepKeepsInv(decode: Decoder, st: State, op: Op, ttl: int)
    requires Inv(decode, st) && Legal(st, op)
    ensures Inv(decode, Step(decode, st, op, ttl)) && Evolves(st, Step(decode, st, op, ttl))
  {
    hide Inv, Evolves, GetActive, Start, End, ClearChat, GetOrCreate, EndRecord, AppendTo, SaveTurn, Usable;
    match op {
      case OpGet(scope, env) => GetActiveCorrect(decode, st, scope, env, ttl);
      case OpStart(scope, env, newId) => StartCorrect(decode, st, scope, env, ttl, newId);
      case OpEnd(scope, env) => EndCorrect(decode, st, scope, env, ttl);
      case OpGetOrCreate(scope, env, env', newId) => GetOrCreateCorrect(decode, st, scope, env, env', ttl, newId);
      case OpClearChat(scope, env, env', newId) => ClearChatStartsOver(decode, st, scope, env, env', ttl, newId);
      case OpArchive(id, now) => EndRecordKeepsInv(decode, st, id, now);
      case OpAppend(id, e) => AppendKeepsInv(decode, st, id, e);
      case OpSaveTurn(id, usage, phase, now) => SaveKeepsInv(decode, st, id, usage, phase, now);
    }
  }

  ghost predicate LegalRun(decode: Decoder, st: State, ops: seq<Op>, ttl: int)
    decreases |ops|
  {
    ops == [] || (Legal(st, ops[0]) && LegalRun(decode, Step(decode, st, ops[0], ttl), ops[1..], ttl))
  }

  ghost function Run(decode: Decoder, st: State, ops: seq<Op>, ttl: int): State
    decreases |ops|
  {
    if ops == [] then st else Run(decode, Step(decode, st, ops[0], ttl), ops[1..], ttl)
  }

  /** Over every run: at most one active session per user, graph and mode, archived sessions stay as they
      are for good, and each is archived once, after its runtime was terminated. */
  lemma {:induction false} RunKeepsInv(decode: Decoder, st: State, ops: seq<Op>, ttl: int)
    requires Inv(decode, st) && LegalRun(decode, st, ops, ttl)
    ensures Inv(decode, Run(decode, st, ops, ttl)) && Evolves(st, Run(decode, st, ops, ttl))
    decreases |ops|
  {
    hide Inv, Step, Legal;
    if ops != [] {
      var next := Step(decode, st, ops[0], ttl);
      StepKeepsInv(decode, st, ops[0], ttl);
      RunKeepsInv(decode, next, ops[1..], ttl);
      EvolvesTransitive(st, next, Run(decode, next, ops[1..], ttl));
    }
  }

  const EMPTY := State(map[], [], [])

  lemma EmptyIsConsistent(decode: Decoder)
    ensures Inv(decode, EMPTY)
  {
  }

  // ---------------------------------------------------------------- conservation

  ghost function AppliedIn(st: State, id: SessionId): seq<string> {
    AppliedLines(EntriesIn(LogOf(st.log, id)))
  }

  ghost function ChangedIn(st: State, id: SessionId): seq<string> {
    ChangedLines(EntriesIn(LogOf(st.log, id)))
  }

  /** In every reachable state an ended session has exactly one row of history if it ever applied a
      write, and none otherwise; the row counts every write line applied, and stores all its lines, all its
      instance changes and all its usage. An active session has none yet. */
  lemma SessionIsArchivedOnce(decode: Decoder, ops: seq<Op>, ttl: int, id: SessionId)
    requires LegalRun(decode, EMPTY, ops, ttl)
    ensures var st := Run(decode, EMPTY, ops, ttl);
            var records := RecordsOf(st.jobs, id);
            id in st.rows ==>
              && (st.rows[id].archivedAt.None? ==> records == [])
              && (st.rows[id].archivedAt.Some? ==>
                    && |records| == (if CountWrites(decode, AppliedIn(st, id)) > 0 then 1 else 0)
                    && (records != [] ==>
                          && ArchivedJobWriteOps(decode, records[0]) == CountWrites(decode, AppliedIn(st, id))
                          && Records(decode, records[0], id, st.rows[id].scope.graph, st.rows[id].scope.ui, AppliedIn(st, id), ChangedIn(st, id),
                                     UsageTotal(EntriesIn(LogOf(st.log, id))), st.rows[id].createdAt, st.rows[id].archivedAt.value)))
  {
    EmptyIsConsistent(decode);
    RunKeepsInv(decode, EMPTY, ops, ttl);
    hide Run, LegalRun, ArchiveRecord, ArchivedJobWriteOps, CountWrites, AppliedLines, ChangedLines, UsageTotal, AppendAll, Life, Records,
          LogOf, RecordsOf, EntriesIn;
    var st := Run(decode, EMPTY, ops, ttl);
    assert Consistent(decode, id, RowOf(st, id), RecordsOf(st.jobs, id), LogOf(st.log, id));
    if id in st.rows && st.rows[id].archivedAt.Some? {
      var row := st.rows[id];
      ArchiveConserves(decode, id, row.scope.graph, row.scope.ui, row.createdAt, EntriesIn(LogOf(st.log, id)),
            row.archivedAt.value);
    }
  }

  /** The order of events of a session: created, appended to, and then, once and in this order, its
      runtime terminated and the session archived. */
  lemma LifeOfSession(decode: Decoder, ops: seq<Op>, ttl: int, id: SessionId)
    requires LegalRun(decode, EMPTY, ops, ttl)
    ensures var st := Run(decode, EMPTY, ops, ttl);
            LogOf(st.log, id) == if id in st.rows then Life(id, EntriesIn(LogOf(st.log, id)), st.rows[id].archivedAt.Some?) else []
    ensures OneActive(Run(decode, EMPTY, ops, ttl))
  {
    EmptyIsConsistent(decode);
    RunKeepsInv(decode, EMPTY, ops, ttl);
    hide Run, LegalRun, LogOf, EntriesIn, Life, RecordsOf, ArchiveRecord, AppendAll;
    var st := Run(decode, EMPTY, ops, ttl);
    assert Consistent(decode, id, RowOf(st, id), RecordsOf(st.jobs, id), LogOf(st.log, id));
  }

  lemma {:induction false} OnlyCovers(jobs: seq<Job>, i: nat)
    requires i < |jobs|
    ensures RecordsOf(jobs, SessionOf(jobs[i])) != []
    decreases |jobs|
  {
    if i < |jobs| - 1 {
      OnlyCovers(jobs[..|jobs| - 1], i);
    }
  }

  /** Nothing applied is lost or counted twice: the write count of the whole history is the number of
      write lines ever applied in sessions that have ended. */
  lemma HistoryCountsEverything(decode: Decoder, ops: seq<Op>, ttl: int)
    requires LegalRun(decode, EMPTY, ops, ttl)
    ensures var st := Run(decode, EMPTY, ops, ttl);
            OpsOf(decode, st.jobs) == Sum(st.rows.Keys, id => if Active(st, id) then 0 else CountWrites(decode, AppliedIn(st, id)))
  {
    var st := Run(decode, EMPTY, ops, ttl);
    var w := (j: Job) => ArchivedJobWriteOps(decode, j);
    forall i | 0 <= i < |st.jobs|
      ensures SessionOf(st.jobs[i]) in st.rows.Keys
    {
      OnlyCovers(st.jobs, i);
      StrangersHaveNoRecord(decode, ops, ttl, SessionOf(st.jobs[i]));
    }
    GroupsPartition(st.jobs, SessionOf, w, st.rows.Keys);
    forall id | id in st.rows.Keys
      ensures Weight(Only(st.jobs, SessionOf, id), w) == if Active(st, id) then 0 else CountWrites(decode, AppliedIn(st, id))
    {
      SessionIsArchivedOnce(decode, ops, ttl, id);
      hide Run, LegalRun, ArchivedJobWriteOps, CountWrites, AppliedIn;
      WeightOfAtMostOne(RecordsOf(st.jobs, id), w);
    }
    hide Run, LegalRun, ArchivedJobWriteOps, CountWrites, AppliedIn, Only;
    SumCongruent(st.rows.Keys, id => Weight(Only(st.jobs, SessionOf, id), w), id => if Active(st, id) then 0 else CountWrites(decode, AppliedIn(st, id)));
  }

  lemma WeightOfAtMostOne(jobs: seq<Job>, w: Job -> int)
    requires |jobs| <= 1
    ensures Weight(jobs, w) == if jobs == [] then 0 else w(jobs[0])
  {
    if jobs != [] {
      assert jobs[..0] == [];
    }
  }

  lemma StrangersHaveNoRecord(decode: Decoder, ops: seq<Op>, ttl: int, id: SessionId)
    requires LegalRun(decode, EMPTY, ops, ttl)
    ensures id !in Run(decode, EMPTY, ops, ttl).rows ==> RecordsOf(Run(decode, EMPTY, ops, ttl).jobs, id) == []
  {
    EmptyIsConsistent(decode);
    RunKeepsInv(decode, EMPTY, ops, ttl);
    hide Run, LegalRun, LogOf, EntriesIn, Life, RecordsOf;
    var st := Run(decode, EMPTY, ops, ttl);
    assert Consistent(decode, id, RowOf(st, id), RecordsOf(st.jobs, id), LogOf(st.log, id));
  }
}
