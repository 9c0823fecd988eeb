/** The journal a Graph Management Assistant session keeps of its applied mutations, and the one archived
    job row written from it when the session ends. */
module SessionJournal {
  import opened Wrappers
  import opened Text
  import opened MutationMetrics

  type Time = int
  datatype UiMode = InitialSchemaDesign | ExtractionJobs | OneOffMutations
  datatype Usage = Usage(input: int, output: int, cacheRead: int, cacheCreation: int, cost: real) {
    function Plus(u: Usage): Usage {
      Usage(input + u.input, output + u.output, cacheRead + u.cacheRead, cacheCreation + u.cacheCreation, cost + u.cost)
    }
  }
  datatype Journal = Journal(startedAt: Time, jsonl: string, instanceChanges: string, lineCount: nat, usage: Usage)

  /** One archived job row, as far as mutation history reads it. */
  datatype Job = Job(
    graph: string, jobId: string, jobSet: string, strategy: string, runStartedAt: Option<Time>, archivedAt: Time,
    mutations: Option<string>, instanceChanges: Option<string>, usage: Usage,
    entitiesCreated: nat, entitiesModified: nat, relationshipsCreated: nat, relationshipsModified: nat)
  {
    /** Deletes have no column, so they are not in it. */
    function WriteOps(): nat {
      entitiesCreated + entitiesModified + relationshipsCreated + relationshipsModified
    }
  }

  const NO_USAGE := Usage(0, 0, 0, 0, 0.0)
  const STRATEGY := "graph_management_session"

  function JobSetName(ui: UiMode): string {
    match ui
    case InitialSchemaDesign => "Graph Management · Initial Schema Design"
    case ExtractionJobs => "Graph Management · Extraction Jobs"
    case OneOffMutations => "Graph Management · One-off Mutations"
  }

  // ---------------------------------------------------------------- appending

  function EnsureJournal(journal: Option<Journal>, createdAt: Time): Journal {
    if journal.Some? then journal.value else Journal(createdAt, "", "", 0, NO_USAGE)
  }

  /** Two parts joined by a line feed, an empty part left out. */
  function Joined(previous: string, chunk: string): string {
    if previous == "" then chunk else if chunk == "" then previous else previous + ("\n" + chunk)
  }

  function AppendApplied(journal: Option<Journal>, createdAt: Time, text: string): Option<Journal> {
    var chunk := Strip(text);
    if chunk == "" then journal
    else
      var j := EnsureJournal(journal, createdAt);
      var combined := Joined(Strip(j.jsonl), chunk);
      Some(j.(jsonl := combined, lineCount := |Lines(combined)|))
  }

  function AppendInstanceChanges(journal: Option<Journal>, createdAt: Time, text: string): Option<Journal> {
    var chunk := Strip(text);
    if chunk == "" then journal
    else
      var j := EnsureJournal(journal, createdAt);
      Some(j.(instanceChanges := Joined(Strip(j.instanceChanges), chunk)))
  }

  /** `usage` is what a chat turn reported, if anything. */
  function AppendUsage(journal: Option<Journal>, createdAt: Time, usage: Option<Usage>): Option<Journal> {
    if usage.None? then journal
    else
      var j := EnsureJournal(journal, createdAt);
      Some(j.(usage := j.usage.Plus(usage.value)))
  }

  function JournalLines(journal: Option<Journal>): seq<string> {
    if journal.Some? then Lines(journal.value.jsonl) else []
  }

  function InstanceLines(journal: Option<Journal>): seq<string> {
    if journal.Some? then Lines(journal.value.instanceChanges) else []
  }

  /** When the journal was begun, or would be. */
  function StartOf(journal: Option<Journal>, createdAt: Time): Time {
    if journal.Some? then journal.value.startedAt else createdAt
  }

  function UsageOf(journal: Option<Journal>): Usage {
    if journal.Some? then journal.value.usage else NO_USAGE
  }

  /** The stored line count is the number of lines stored. */
  predicate Counted(journal: Option<Journal>) {
    journal.Some? ==> journal.value.lineCount == |Lines(journal.value.jsonl)|
  }

  lemma JoinedKeepsLines(previous: string, chunk: string)
    ensures Lines(Joined(Strip(previous), Strip(chunk))) == Lines(previous) + Lines(chunk)
  {
    hide Lines, Strip;
    StripKeepsLines(previous);
    StripKeepsLines(chunk);
    LinesOfNothing();
    JoinKeepsLines(Strip(previous), Strip(chunk));
  }

  /** The metrics of joined chunks are the component-wise sum of the metrics of the chunks. */
  lemma MetricsOfJoined(decode: Decoder, previous: string, chunk: string)
    ensures MetricsOf(decode, Lines(Joined(Strip(previous), Strip(chunk))))
            == MetricsOf(decode, Lines(previous)).Plus(MetricsOf(decode, Lines(chunk)))
  {
    hide Lines, Strip, MetricsOf;
    JoinedKeepsLines(previous, chunk);
    MetricsAppend(decode, Lines(previous), Lines(chunk));
  }

  /** Despite stripping and joining, the journal holds what it held and then the lines of the text. */
  lemma AppendAppliedKeepsLines(journal: Option<Journal>, createdAt: Time, text: string)
    requires Counted(journal)
    ensures JournalLines(AppendApplied(journal, createdAt, text)) == JournalLines(journal) + Lines(text)
    ensures InstanceLines(AppendApplied(journal, createdAt, text)) == InstanceLines(journal)
    ensures UsageOf(AppendApplied(journal, createdAt, text)) == UsageOf(journal)
    ensures Counted(AppendApplied(journal, createdAt, text))
    ensures StartOf(AppendApplied(journal, createdAt, text), createdAt) == StartOf(journal, createdAt)
  {
    hide Lines, Strip;
    LinesOfNothing();
    TextWithLinesIsNotBlank(text);
    JoinedKeepsLines(EnsureJournal(journal, createdAt).jsonl, text);
  }

  lemma AppendInstanceKeepsLines(journal: Option<Journal>, createdAt: Time, text: string)
    requires Counted(journal)
    ensures InstanceLines(AppendInstanceChanges(journal, createdAt, text)) == InstanceLines(journal) + Lines(text)
    ensures JournalLines(AppendInstanceChanges(journal, createdAt, text)) == JournalLines(journal)
    ensures UsageOf(AppendInstanceChanges(journal, createdAt, text)) == UsageOf(journal)
    ensures Counted(AppendInstanceChanges(journal, createdAt, text))
    ensures StartOf(AppendInstanceChanges(journal, createdAt, text), createdAt) == StartOf(journal, createdAt)
  {
    hide Lines, Strip;
    LinesOfNothing();
    TextWithLinesIsNotBlank(text);
    JoinedKeepsLines(EnsureJournal(journal, createdAt).instanceChanges, text);
  }

  lemma AppendUsageAdds(journal: Option<Journal>, createdAt: Time, usage: Option<Usage>)
    requires Counted(journal)
    ensures UsageOf(AppendUsage(journal, createdAt, usage)) == UsageOf(journal).Plus(if usage.Some? then usage.value else NO_USAGE)
    ensures var before, after, u := UsageOf(journal), UsageOf(AppendUsage(journal, createdAt, usage)), if usage.Some? then usage.value else NO_USAGE;
            && after.input == before.input + u.input && after.output == before.output + u.output
            && after.cacheRead == before.cacheRead + u.cacheRead && after.cacheCreation == before.cacheCreation + u.cacheCreation
            && after.cost == before.cost + u.cost
    ensures JournalLines(AppendUsage(journal, createdAt, usage)) == JournalLines(journal)
    ensures InstanceLines(AppendUsage(journal, createdAt, usage)) == InstanceLines(journal)
    ensures Counted(AppendUsage(journal, createdAt, usage))
    ensures StartOf(AppendUsage(journal, createdAt, usage), createdAt) == StartOf(journal, createdAt)
  {
    hide Lines;
    LinesOfNothing();
  }

  // ---------------------------------------------------------------- archiving

  function JobId(session: string): string {
    "gma-" + session
  }

  lemma JobIdIsInjective(a: string, b: string)
    ensures JobId(a) == JobId(b) <==> a == b
  {
    assert JobId(a)[4..] == a && JobId(b)[4..] == b;
  }

  /** The row written when a session ends; nothing when its journal holds no write. */
  ghost function ArchiveRecord(decode: Decoder, session: string, graph: string, ui: UiMode, journal: Option<Journal>,
        now: Time): Option<Job> {
    if journal.None? then None
    else
      var j := journal.value;
      var jsonl, changes := Strip(j.jsonl), Strip(j.instanceChanges);
      var m := MetricsOf(decode, Lines(jsonl));
      if jsonl == "" || m.WriteOps() <= 0 then None
      else Some(Job(graph, JobId(session), JobSetName(ui), STRATEGY, Some(j.startedAt), now,
                    Some(jsonl), if changes == "" then None else Some(changes), j.usage,
                    m.entitiesCreated, m.entitiesModified, m.relationshipsCreated, m.relationshipsModified))
  }

  /** Write operations as history shows them: recounted from the stored lines for session rows. */
  ghost function ArchivedJobWriteOps(decode: Decoder, job: Job): nat {
    if job.strategy == STRATEGY && job.mutations.Some? && job.mutations.value != ""
    then MetricsOf(decode, Lines(job.mutations.value)).WriteOps()
    else job.WriteOps()
  }

  /** The row of a session stores these lines, these instance changes and this usage, and a column for each kind of
      write but deletes. */
  ghost predicate Records(decode: Decoder, job: Job, session: string, graph: string, ui: UiMode, lines: seq<string>,
        changes: seq<string>, usage: Usage, startedAt: Time, now: Time) {
    && job.jobId == "gma-" + session && job.graph == graph && job.strategy == "graph_management_session"
    && (ui.InitialSchemaDesign? ==> job.jobSet == "Graph Management · Initial Schema Design")
    && (ui.ExtractionJobs? ==> job.jobSet == "Graph Management · Extraction Jobs")
    && (ui.OneOffMutations? ==> job.jobSet == "Graph Management · One-off Mutations")
    && job.runStartedAt == Some(startedAt) && job.archivedAt == now && job.usage == usage
    && job.mutations.Some? && Lines(job.mutations.value) == lines
    && (job.instanceChanges.None? <==> changes == [])
    && (job.instanceChanges.Some? ==> Lines(job.instanceChanges.value) == changes)
    && job.entitiesCreated == Count(decode, lines, Row(CREATE, NODE)) && job.entitiesModified == Count(decode, lines, Row(UPDATE, NODE))
    && job.relationshipsCreated == Count(decode, lines, Row(CREATE, EDGE)) && job.relationshipsModified == Count(decode, lines, Row(UPDATE, EDGE))
  }

  /** Exactly one row when the journal holds a write, none otherwise. The row stores the very lines, the very
      instance changes and the token usage of the journal, and history counts each write line once. */
  lemma ArchiveRecordCorrect(decode: Decoder, session: string, graph: string, ui: UiMode, journal: Option<Journal>, now: Time)
    ensures var r := ArchiveRecord(decode, session, graph, ui, journal, now);
            && (r.Some? <==> CountWrites(decode, JournalLines(journal)) > 0)
            && (r.Some? ==>
                  && journal.Some?
                  && Records(decode, r.value, session, graph, ui, JournalLines(journal), InstanceLines(journal), UsageOf(journal), journal.value.startedAt, now)
                  && ArchivedJobWriteOps(decode, r.value) == CountWrites(decode, JournalLines(journal)))
  {
    hide Lines, Strip, CountWrites, Count;
    assert CountWrites(decode, []) == 0 by { WriteOpsCountWrites(decode, []); assert MetricsOf(decode, []).WriteOps() == 0 by { NothingCounted(decode); } }
    if journal.Some? {
      var jsonl, changes := journal.value.jsonl, journal.value.instanceChanges;
      StripKeepsLines(jsonl);
      StripKeepsLines(changes);
      NoLinesMeansBlank(changes);
      TextWithLinesIsNotBlank(jsonl);
      WriteOpsCountWrites(decode, Lines(jsonl));
    }
  }

  /** The rows of extraction jobs have no lines to recount, or are not recounted: history shows the sum of their
      columns. */
  lemma ExtractionJobsShowColumns(decode: Decoder, job: Job)
    requires job.strategy != "graph_management_session" || job.mutations.None? || job.mutations.value == ""
    ensures ArchivedJobWriteOps(decode, job)
            == job.entitiesCreated + job.entitiesModified + job.relationshipsCreated + job.relationshipsModified
  {
  }

  /** The stored columns alone add up to that count exactly when nothing was deleted. */
  lemma ColumnsMissDeletes(decode: Decoder, session: string, graph: string, ui: UiMode, journal: Option<Journal>, now: Time)
    requires ArchiveRecord(decode, session, graph, ui, journal, now).Some?
    ensures var job := ArchiveRecord(decode, session, graph, ui, journal, now).value;
            var lines := JournalLines(journal);
            job.WriteOps() == ArchivedJobWriteOps(decode, job)
            <==> Count(decode, lines, Row(DELETE, NODE)) == 0 && Count(decode, lines, Row(DELETE, EDGE)) == 0
  {
    hide Lines, Strip, Count, CountWrites, JobSetName;
    StripKeepsLines(journal.value.jsonl);
  }

  // ---------------------------------------------------------------- whole sessions

  datatype Entry = Applied(text: string) | InstanceChange(text: string) | Turn(usage: Option<Usage>)

  function Append(journal: Option<Journal>, createdAt: Time, e: Entry): Option<Journal> {
    match e
    case Applied(text) => AppendApplied(journal, createdAt, text)
    case InstanceChange(text) => AppendInstanceChanges(journal, createdAt, text)
    case Turn(usage) => AppendUsage(journal, createdAt, usage)
  }

  function AppendAll(journal: Option<Journal>, createdAt: Time, entries: seq<Entry>): Option<Journal> {
    if entries == [] then journal
    else Append(AppendAll(journal, createdAt, entries[..|entries| - 1]), createdAt, entries[|entries| - 1])
  }

  /** All lines applied, in order. */
  ghost function AppliedLines(entries: seq<Entry>): seq<string> {
    if entries == [] then []
    else
      var last := entries[|entries| - 1];
      AppliedLines(entries[..|entries| - 1]) + if last.Applied? then Lines(last.text) else []
  }

  ghost function ChangedLines(entries: seq<Entry>): seq<string> {
    if entries == [] then []
    else
      var last := entries[|entries| - 1];
      ChangedLines(entries[..|entries| - 1]) + if last.InstanceChange? then Lines(last.text) else []
  }

  ghost function UsageTotal(entries: seq<Entry>): Usage {
    if entries == [] then NO_USAGE
    else
      var last := entries[|entries| - 1];
      UsageTotal(entries[..|entries| - 1]).Plus(if last.Turn? && last.usage.Some? then last.usage.value else NO_USAGE)
  }

  /** The journal holds these lines, instance changes and usage, counts its lines right, and began at this time. */
  ghost predicate Conserved(journal: Option<Journal>, createdAt: Time, entries: seq<Entry>) {
    && JournalLines(journal) == AppliedLines(entries) && InstanceLines(journal) == ChangedLines(entries)
    && UsageOf(journal) == UsageTotal(entries) && Counted(journal) && StartOf(journal, createdAt) == createdAt
  }

  /** Conservation: whatever a session appended, in whatever order, its journal holds each applied line
      exactly once and in order, each instance change likewise, and the sum of all usage. */
  lemma {:induction false} JournalConserves(createdAt: Time, entries: seq<Entry>)
    ensures Conserved(AppendAll(None, createdAt, entries), createdAt, entries)
  {
    hide Conserved;
    if entries == [] {
      NothingConserved(createdAt);
    } else {
      var init, last := entries[..|entries| - 1], entries[|entries| - 1];
      JournalConserves(createdAt, init);
      OneMoreConserved(AppendAll(None, createdAt, init), createdAt, entries);
    }
  }

  lemma NothingConserved(createdAt: Time)
    ensures Conserved(None, createdAt, [])
  {
  }

  lemma OneMoreConserved(journal: Option<Journal>, createdAt: Time, entries: seq<Entry>)
    requires entries != [] && Conserved(journal, createdAt, entries[..|entries| - 1])
    ensures Conserved(Append(journal, createdAt, entries[|entries| - 1]), createdAt, entries)
  {
    hide Lines, AppendApplied, AppendInstanceChanges, AppendUsage, Counted, JournalLines, InstanceLines, UsageOf, StartOf;
    match entries[|entries| - 1] {
      case Applied(text) => AppendAppliedKeepsLines(journal, createdAt, text);
      case InstanceChange(text) => AppendInstanceKeepsLines(journal, createdAt, text);
      case Turn(usage) => AppendUsageAdds(journal, createdAt, usage);
    }
    NoUsageIsUnit(UsageTotal(entries[..|entries| - 1]));
    assert AppliedLines(entries[..|entries| - 1]) + [] == AppliedLines(entries[..|entries| - 1]);
    assert ChangedLines(entries[..|entries| - 1]) + [] == ChangedLines(entries[..|entries| - 1]);
  }

  lemma NoUsageIsUnit(u: Usage)
    ensures u.Plus(NO_USAGE) == u
  {
  }

  /** What a whole session appended is what its archived row accounts for. */
  lemma ArchiveConserves(decode: Decoder, session: string, graph: string, ui: UiMode, createdAt: Time,
        entries: seq<Entry>, now: Time)
    ensures var r := ArchiveRecord(decode, session, graph, ui, AppendAll(None, createdAt, entries), now);
            && (r.Some? <==> CountWrites(decode, AppliedLines(entries)) > 0)
            && (r.Some? ==> ArchivedJobWriteOps(decode, r.value) == CountWrites(decode, AppliedLines(entries))
                            && Records(decode, r.value, session, graph, ui, AppliedLines(entries), ChangedLines(entries), UsageTotal(entries), createdAt, now))
  {
    hide ArchiveRecord, ArchivedJobWriteOps, CountWrites, AppendAll, AppliedLines, ChangedLines, UsageTotal, Records;
    JournalConserves(createdAt, entries);
    ArchiveRecordCorrect(decode, session, graph, ui, AppendAll(None, createdAt, entries), now);
  }

  /** A session whose turns used tokens but that applied no write leaves no row, so its usage is in none. */
  lemma UsageOfIdleSessionsIsDropped(decode: Decoder, session: string, graph: string, ui: UiMode, createdAt: Time, entries: seq<Entry>, now: Time)
    requires CountWrites(decode, AppliedLines(entries)) == 0
    ensures UsageOf(AppendAll(None, createdAt, entries)) == UsageTotal(entries)
    ensures ArchiveRecord(decode, session, graph, ui, AppendAll(None, createdAt, entries), now).None?
  {
    hide ArchiveRecord, Lines, AppendAll, UsageTotal, CountWrites;
    ArchiveConserves(decode, session, graph, ui, createdAt, entries, now);
    JournalConserves(createdAt, entries);
  }

  /** And so it is for turns alone, whatever they used. */
  lemma {:induction false} TurnsAreNoWrites(decode: Decoder, entries: seq<Entry>)
    requires forall i | 0 <= i < |entries| :: entries[i].Turn?
    ensures CountWrites(decode, AppliedLines(entries)) == 0
    decreases |entries|
  {
    if entries == [] {
      assert CountWrites(decode, []) == 0;
    } else {
      TurnsAreNoWrites(decode, entries[..|entries| - 1]);
      assert AppliedLines(entries) == AppliedLines(entries[..|entries| - 1]);
    }
  }
}
