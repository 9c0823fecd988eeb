/** Counting graph writes in applied mutation JSONL. Decoding one line is a parameter: it says which
    operation and which type, whatever their case, a line holding a JSON object names, or nothing. */
module MutationMetrics {
  import opened Wrappers
  import opened Text

  datatype OpName = CREATE | UPDATE | DELETE | DEFINE | OTHER_OP
  datatype TypeName = NODE | EDGE | OTHER_TYPE
  datatype Row = Row(op: OpName, entity: TypeName)
  type Decoder = string -> Option<Row>

  datatype Metrics = Metrics(
    entitiesCreated: nat, entitiesModified: nat, entitiesDeleted: nat,
    relationshipsCreated: nat, relationshipsModified: nat, relationshipsDeleted: nat)
  {
    function WriteOps(): nat {
      entitiesCreated + entitiesModified + entitiesDeleted + relationshipsCreated + relationshipsModified + relationshipsDeleted
    }

    function Plus(m: Metrics): Metrics {
      Metrics(entitiesCreated + m.entitiesCreated, entitiesModified + m.entitiesModified, entitiesDeleted + m.entitiesDeleted,
              relationshipsCreated + m.relationshipsCreated, relationshipsModified + m.relationshipsModified,
              relationshipsDeleted + m.relationshipsDeleted)
    }
  }

  const NOTHING := Metrics(0, 0, 0, 0, 0, 0)

  /** How many lines hold this operation on this kind of thing. */
  ghost function Count(decode: Decoder, lines: seq<string>, row: Row): nat {
    if lines == [] then 0 else (if decode(lines[0]) == Some(row) then 1 else 0) + Count(decode, lines[1..], row)
  }

  ghost function MetricsOf(decode: Decoder, lines: seq<string>): Metrics {
    Metrics(Count(decode, lines, Row(CREATE, NODE)), Count(decode, lines, Row(UPDATE, NODE)), Count(decode, lines, Row(DELETE, NODE)),
            Count(decode, lines, Row(CREATE, EDGE)), Count(decode, lines, Row(UPDATE, EDGE)), Count(decode, lines, Row(DELETE, EDGE)))
  }

  /** A CREATE, UPDATE or DELETE of a node or an edge. */
  predicate IsWrite(row: Option<Row>) {
    row.Some? && (row.value.op.CREATE? || row.value.op.UPDATE? || row.value.op.DELETE?) && !row.value.entity.OTHER_TYPE?
  }

  ghost function CountWrites(decode: Decoder, lines: seq<string>): nat {
    if lines == [] then 0 else (if IsWrite(decode(lines[0])) then 1 else 0) + CountWrites(decode, lines[1..])
  }

  lemma {:induction false} CountAppends(decode: Decoder, a: seq<string>, b: seq<string>, row: Row)
    ensures Count(decode, a + b, row) == Count(decode, a, row) + Count(decode, b, row)
  {
    if a == [] {
      assert a + b == b;
    } else {
      CountAppends(decode, a[1..], b, row);
      assert (a + b)[1..] == a[1..] + b;
    }
  }

  lemma MetricsAppend(decode: Decoder, a: seq<string>, b: seq<string>)
    ensures MetricsOf(decode, a + b) == MetricsOf(decode, a).Plus(MetricsOf(decode, b))
  {
    hide Count;
    CountAppends(decode, a, b, Row(CREATE, NODE));
    CountAppends(decode, a, b, Row(UPDATE, NODE));
    CountAppends(decode, a, b, Row(DELETE, NODE));
    CountAppends(decode, a, b, Row(CREATE, EDGE));
    CountAppends(decode, a, b, Row(UPDATE, EDGE));
    CountAppends(decode, a, b, Row(DELETE, EDGE));
  }

  function Hit(r: Option<Row>, row: Row): nat {
    if r == Some(row) then 1 else 0
  }

  /** What one decoded line counts for. */
  function MetricsOfRow(r: Option<Row>): Metrics {
    match r
    case Some(Row(CREATE, NODE)) => Metrics(1, 0, 0, 0, 0, 0)
    case Some(Row(UPDATE, NODE)) => Metrics(0, 1, 0, 0, 0, 0)
    case Some(Row(DELETE, NODE)) => Metrics(0, 0, 1, 0, 0, 0)
    case Some(Row(CREATE, EDGE)) => Metrics(0, 0, 0, 1, 0, 0)
    case Some(Row(UPDATE, EDGE)) => Metrics(0, 0, 0, 0, 1, 0)
    case Some(Row(DELETE, EDGE)) => Metrics(0, 0, 0, 0, 0, 1)
    case _ => NOTHING
  }

  lemma RowCountsOnce(r: Option<Row>)
    ensures MetricsOfRow(r).WriteOps() == if IsWrite(r) then 1 else 0
  {
  }

  lemma RowHits(r: Option<Row>)
    ensures MetricsOfRow(r).entitiesCreated == Hit(r, Row(CREATE, NODE)) && MetricsOfRow(r).entitiesModified == Hit(r, Row(UPDATE, NODE))
    ensures MetricsOfRow(r).entitiesDeleted == Hit(r, Row(DELETE, NODE)) && MetricsOfRow(r).relationshipsCreated == Hit(r, Row(CREATE, EDGE))
    ensures MetricsOfRow(r).relationshipsModified == Hit(r, Row(UPDATE, EDGE)) && MetricsOfRow(r).relationshipsDeleted == Hit(r, Row(DELETE, EDGE))
  {
  }

  lemma CountFirst(decode: Decoder, lines: seq<string>, row: Row)
    requires lines != []
    ensures Count(decode, lines, row) == Hit(decode(lines[0]), row) + Count(decode, lines[1..], row)
  {
  }

  lemma MetricsOfFirst(decode: Decoder, lines: seq<string>)
    requires lines != []
    ensures MetricsOf(decode, lines) == MetricsOfRow(decode(lines[0])).Plus(MetricsOf(decode, lines[1..]))
  {
    hide Count, Hit, MetricsOfRow;
    RowHits(decode(lines[0]));
    CountFirst(decode, lines, Row(CREATE, NODE));
    CountFirst(decode, lines, Row(UPDATE, NODE));
    CountFirst(decode, lines, Row(DELETE, NODE));
    CountFirst(decode, lines, Row(CREATE, EDGE));
    CountFirst(decode, lines, Row(UPDATE, EDGE));
    CountFirst(decode, lines, Row(DELETE, EDGE));
  }

  lemma PlusAddsWriteOps(a: Metrics, b: Metrics)
    ensures a.Plus(b).WriteOps() == a.WriteOps() + b.WriteOps()
  {
  }

  /** The six counters together count each write line once. */
  lemma {:induction false} WriteOpsCountWrites(decode: Decoder, lines: seq<string>)
    ensures MetricsOf(decode, lines).WriteOps() == CountWrites(decode, lines)
  {
    hide MetricsOf, MetricsOfRow, IsWrite;
    if lines == [] {
      NothingCounted(decode);
    } else {
      WriteOpsCountWrites(decode, lines[1..]);
      MetricsOfFirst(decode, lines);
      RowCountsOnce(decode(lines[0]));
      PlusAddsWriteOps(MetricsOfRow(decode(lines[0])), MetricsOf(decode, lines[1..]));
    }
  }

  lemma CountOne(decode: Decoder, line: string, row: Row)
    ensures Count(decode, [line], row) == Hit(decode(line), row)
  {
    assert [line][1..] == [];
  }

  /** One line at a time, as the loop sees it: `tallied` is `m` with that line counted. */
  lemma MetricsStep(decode: Decoder, lines: seq<string>, i: nat, m: Metrics, tallied: Metrics)
    requires i < |lines|
    requires tallied == m.Plus(MetricsOf(decode, Entry(lines[i])))
    ensures tallied.Plus(MetricsOf(decode, Contents(lines[i + 1..]))) == m.Plus(MetricsOf(decode, Contents(lines[i..])))
  {
    hide Contents, MetricsOf, Entry;
    assert lines[i..] == [lines[i]] + lines[i + 1..];
    ContentsOfOne(lines[i], lines[i + 1..]);
    MetricsAppend(decode, Entry(lines[i]), Contents(lines[i + 1..]));
  }

  lemma NothingCounted(decode: Decoder)
    ensures MetricsOf(decode, []) == NOTHING && Contents([]) == []
  {
  }

  method MetricsFromMutationJsonl(decode: Decoder, content: string) returns (m: Metrics)
    ensures m == MetricsOf(decode, Lines(content))
    ensures m.WriteOps() == CountWrites(decode, Lines(content))
  {
    hide Contents, MetricsOf, CountWrites, SplitLines, Strip, IsWrite, Count;
    var lines := SplitLines(content);
    m := NOTHING;
    assert lines[0..] == lines;
    NothingCounted(decode);
    for i := 0 to |lines|
      invariant m.Plus(MetricsOf(decode, Contents(lines[i..]))) == MetricsOf(decode, Lines(content))
    {
      var line, before := Strip(lines[i]), m;
      if line != "" {
        m := Tally(m, decode, line);
      }
      MetricsStep(decode, lines, i, before, m);
    }
    assert lines[|lines|..] == [] && Contents([]) == [] by { NothingCounted(decode); }
    WriteOpsCountWrites(decode, Lines(content));
  }

  method Tally(before: Metrics, decode: Decoder, line: string) returns (m: Metrics)
    ensures m == before.Plus(MetricsOf(decode, [line]))
  {
    m := before;
    var row := decode(line);
    forall r: Row
      ensures Count(decode, [line], r) == Hit(row, r)
    {
      CountOne(decode, line, r);
    }
    hide Count;
    if row.None? || row.value.op == DEFINE || row.value.op == OTHER_OP {
      return;
    }
    if row.value.entity == NODE {
      if row.value.op == CREATE {
        m := m.(entitiesCreated := m.entitiesCreated + 1);
      } else if row.value.op == UPDATE {
        m := m.(entitiesModified := m.entitiesModified + 1);
      } else {
        m := m.(entitiesDeleted := m.entitiesDeleted + 1);
      }
    } else if row.value.entity == EDGE {
      if row.value.op == CREATE {
        m := m.(relationshipsCreated := m.relationshipsCreated + 1);
      } else if row.value.op == UPDATE {
        m := m.(relationshipsModified := m.relationshipsModified + 1);
      } else {
        m := m.(relationshipsDeleted := m.relationshipsDeleted + 1);
      }
    }
  }
}
