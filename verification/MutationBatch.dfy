/** Mutation batches: validation, the referential-integrity sort, and what running a sorted batch
    against a property graph guarantees. */
module MutationBatch {
  import opened Wrappers
  import opened Collections
  import opened Sorting

  type Id = string
  type Props = map<string, string>

  datatype OpType = DEFINE | CREATE | UPDATE | DELETE
  datatype EntityType = NODE | EDGE

  datatype Operation = Operation(
    op: OpType,
    entity: EntityType,
    id: Option<Id>,
    name: Option<string>,
    startId: Option<Id>,
    endId: Option<Id>,
    setProperties: Option<Props>,
    removeProperties: Option<seq<string>>,
    description: Option<string>,
    requiredProperties: Option<set<string>>,
    optionalProperties: Option<set<string>>)

  datatype Invalid =
    | DefineIncomplete | DefineCarriesData
    | IdMissing | LabelMissing | PropertiesMissing | DataSourceMissing | SlugMissing | EndpointsMissing | StampMissing
    | NothingToUpdate
    | DeleteCarriesData

  datatype MutationResult = MutationResult(success: bool, operationsApplied: nat, errors: seq<Invalid>)

  // ---------------------------------------------------------------- validation

  predicate Given(text: Option<string>) {
    text.Some? && text.value != ""
  }

  function SetProps(op: Operation): Props {
    if op.setProperties.Some? then op.setProperties.value else map[]
  }

  function RemoveProps(op: Operation): seq<string> {
    if op.removeProperties.Some? then op.removeProperties.value else []
  }

  function Validate(op: Operation): Option<Invalid> {
    match op.op
    case DEFINE =>
      if !Given(op.name) || !Given(op.description) || op.requiredProperties.None? then Some(DefineIncomplete)
      else if SetProps(op) != map[] || RemoveProps(op) != [] || Given(op.startId) || Given(op.endId) then Some(DefineCarriesData)
      else None
    case CREATE =>
      if !Given(op.id) then Some(IdMissing)
      else if !Given(op.name) then Some(LabelMissing)
      else if SetProps(op) == map[] then Some(PropertiesMissing)
      else if "data_source_id" !in SetProps(op) then Some(DataSourceMissing)
      else if op.entity.NODE? && "slug" !in SetProps(op) then Some(SlugMissing)
      else if op.entity.EDGE? && (!Given(op.startId) || !Given(op.endId)) then Some(EndpointsMissing)
      else if "knowledge_graph_id" !in SetProps(op) then Some(StampMissing)
      else None
    case UPDATE =>
      if !Given(op.id) then Some(IdMissing)
      else if SetProps(op) == map[] && RemoveProps(op) == [] then Some(NothingToUpdate)
      else None
    case DELETE =>
      if !Given(op.id) then Some(IdMissing)
      else if SetProps(op) != map[] || RemoveProps(op) != [] || Given(op.name) || Given(op.startId) || Given(op.endId) then Some(DeleteCarriesData)
      else None
  }

  predicate Valid(op: Operation) {
    Validate(op).None?
  }

  predicate AllValid(ops: seq<Operation>) {
    forall op | op in ops :: Valid(op)
  }

  // ---------------------------------------------------------------- the sort

  /** The pair (operation priority, type priority) of the sort key, as one number. */
  function Key(op: Operation): int {
    var priority := match op.op case DEFINE => 0 case DELETE => 1 case CREATE => 2 case UPDATE => 3;
    var typePriority := if op.op.DELETE? then (if op.entity.EDGE? then 0 else 1) else (if op.entity.NODE? then 0 else 1);
    2 * priority + typePriority
  }

  function SortOperations(ops: seq<Operation>): seq<Operation> {
    SortBy(ops, Key)
  }

  /** The sort is a stable permutation into execution order. */
  lemma SortIsStablePermutation(ops: seq<Operation>)
    ensures multiset(SortOperations(ops)) == multiset(ops)
    ensures Ascending(SortOperations(ops), Key)
    ensures forall k :: Select(SortOperations(ops), Key, k) == Select(ops, Key, k)
    ensures forall op :: op in SortOperations(ops) <==> op in ops
  {
    SortFacts(ops, Key);
    SameMembers(SortOperations(ops), ops);
  }

  // ---------------------------------------------------------------- the store

  datatype TypeDefinition = TypeDefinition(description: string, required: set<string>, optional: set<string>)
  datatype Vertex = Vertex(name: string, props: Props)
  datatype Link = Link(name: string, start: Id, end: Id, props: Props)
  datatype Store = Store(types: map<(EntityType, string), TypeDefinition>, nodes: map<Id, Vertex>, edges: map<Id, Link>)

  function ToTypeDefinition(op: Operation): TypeDefinition
    requires op.op.DEFINE? && Valid(op)
  {
    TypeDefinition(op.description.value, op.requiredProperties.value,
                   if op.optionalProperties.Some? then op.optionalProperties.value else {})
  }

  function Changed(props: Props, op: Operation): Props {
    (props + SetProps(op)) - set k | k in RemoveProps(op)
  }

  /** One operation: declare, merge, match-and-set, or delete with its edges. */
  function Exec(s: Store, op: Operation): Store
    requires Valid(op)
  {
    match (op.op, op.entity)
    case (DEFINE, _) => s.(types := s.types[(op.entity, op.name.value) := ToTypeDefinition(op)])
    case (CREATE, NODE) =>
      var id := op.id.value;
      s.(nodes := s.nodes[id := if id in s.nodes then s.nodes[id].(props := s.nodes[id].props + SetProps(op))
                                else Vertex(op.name.value, SetProps(op))])
    case (CREATE, EDGE) =>
      var id := op.id.value;
      s.(edges := s.edges[id := if id in s.edges then s.edges[id].(props := s.edges[id].props + SetProps(op))
                                else Link(op.name.value, op.startId.value, op.endId.value, SetProps(op))])
    case (UPDATE, NODE) =>
      var id := op.id.value;
      if id in s.nodes then s.(nodes := s.nodes[id := s.nodes[id].(props := Changed(s.nodes[id].props, op))]) else s
    case (UPDATE, EDGE) =>
      var id := op.id.value;
      if id in s.edges then s.(edges := s.edges[id := s.edges[id].(props := Changed(s.edges[id].props, op))]) else s
    case (DELETE, NODE) =>
      var id := op.id.value;
      s.(nodes := s.nodes - {id}, edges := map e | e in s.edges && s.edges[e].start != id && s.edges[e].end != id :: s.edges[e])
    case (DELETE, EDGE) => s.(edges := s.edges - {op.id.value})
  }

  function Run(s: Store, ops: seq<Operation>): Store
    requires AllValid(ops)
  {
    if ops == [] then s else Exec(Run(s, ops[..|ops| - 1]), ops[|ops| - 1])
  }

  /** `apply_batch` over any bulk loading strategy. */
  function ApplyBatch(s: Store, ops: seq<Operation>, strategy: (Store, seq<Operation>) -> (Store,
        MutationResult)): (Store, MutationResult) {
    if ops == [] then (s, MutationResult(true, 0, []))
    else match FirstInvalid(ops)
      case Some(error) => (s, MutationResult(false, 0, [error]))
      case None => strategy(s, SortOperations(ops))
  }

  function FirstInvalid(ops: seq<Operation>): (r: Option<Invalid>)
    ensures r.None? <==> AllValid(ops)
    ensures r.Some? ==> exists i | 0 <= i < |ops| :: AllValid(ops[..i]) && Validate(ops[i]) == r
  {
    if ops == [] then None
    else
      var init, last := ops[..|ops| - 1], ops[|ops| - 1];
      assert ops == init + [last];
      assert AllValid(ops) <==> AllValid(init) && Valid(last) by { MembersOfExtension(ops); }
      assert forall i | 0 <= i <= |init| :: ops[..i] == init[..i];
      var r := FirstInvalid(init);
      assert r.None? ==> AllValid(ops[..|init|]) && ops[|init|] == last;
      if r.Some? then r else Validate(last)
  }

  /** One invalid operation keeps the whole batch away from the strategy and from the store. */
  lemma InvalidBatchTouchesNothing(s: Store, ops: seq<Operation>, strategy: (Store, seq<Operation>) -> (Store, MutationResult))
    ensures var (after, result) := ApplyBatch(s, ops, strategy);
            if !AllValid(ops) then
              && after == s && !result.success && result.operationsApplied == 0
              && exists i | 0 <= i < |ops| :: AllValid(ops[..i]) && !Valid(ops[i]) && result.errors == [Validate(ops[i]).value]
            else if ops == [] then (after, result) == (s, MutationResult(true, 0, []))
            else (after, result) == strategy(s, SortOperations(ops))
  {
    if ops != [] && !AllValid(ops) {
      assert FirstInvalid(ops).Some?;
      var i :| 0 <= i < |ops| && AllValid(ops[..i]) && Validate(ops[i]) == FirstInvalid(ops);
      assert !Valid(ops[i]);
    }
  }

  // ---------------------------------------------------------------- referential integrity

  ghost predicate NoDangling(s: Store) {
    forall e | e in s.edges :: s.edges[e].start in s.nodes && s.edges[e].end in s.nodes
  }

  predicate IsCreate(op: Operation, entity: EntityType, id: Id) {
    op.op.CREATE? && op.entity == entity && op.id == Some(id)
  }

  predicate IsDelete(op: Operation, entity: EntityType, id: Id) {
    op.op.DELETE? && op.entity == entity && op.id == Some(id)
  }

  ghost predicate Creates(ops: seq<Operation>, entity: EntityType, id: Id) {
    exists op :: op in ops && IsCreate(op, entity, id)
  }

  ghost predicate Deletes(ops: seq<Operation>, entity: EntityType, id: Id) {
    exists op :: op in ops && IsDelete(op, entity, id)
  }

  /** The node exists once the deletes and the node creations of the batch are done. */
  ghost predicate Available(s: Store, ops: seq<Operation>, id: Id) {
    (id in s.nodes && !Deletes(ops, NODE, id)) || Creates(ops, NODE, id)
  }

  /** The edge is in the store and neither it nor an end of it is deleted by the batch. */
  ghost predicate Survives(s: Store, ops: seq<Operation>, e: Id) {
    && e in s.edges && !Deletes(ops, EDGE, e)
    && !Deletes(ops, NODE, s.edges[e].start) && !Deletes(ops, NODE, s.edges[e].end)
  }

  /** Every edge the batch really inserts has both ends available. */
  ghost predicate EndpointsAvailable(s: Store, ops: seq<Operation>) {
    forall op | op in ops && op.op.CREATE? && op.entity.EDGE? && Valid(op) && !Survives(s, ops, op.id.value) ::
      Available(s, ops, op.startId.value) && Available(s, ops, op.endId.value)
  }

  ghost predicate EdgeIdsCreatedOnce(ops: seq<Operation>) {
    forall a, b, e | a in ops && b in ops && IsCreate(a, EDGE, e) && IsCreate(b, EDGE, e) :: a == b
  }

  lemma MembersOfExtension(ops: seq<Operation>)
    requires ops != []
    ensures forall op :: op in ops <==> op in ops[..|ops| - 1] || op == ops[|ops| - 1]
  {
    assert ops == ops[..|ops| - 1] + [ops[|ops| - 1]];
  }

  lemma BatchExtension(ops: seq<Operation>, entity: EntityType, id: Id)
    requires ops != []
    ensures var init, last := ops[..|ops| - 1], ops[|ops| - 1];
            && (Creates(ops, entity, id) <==> Creates(init, entity, id) || IsCreate(last, entity, id))
            && (Deletes(ops, entity, id) <==> Deletes(init, entity, id) || IsDelete(last, entity, id))
  {
    MembersOfExtension(ops);
    var init, last := ops[..|ops| - 1], ops[|ops| - 1];
    if op :| op in ops && IsCreate(op, entity, id) {
      assert op in init || op == last;
    }
    if op :| op in ops && IsDelete(op, entity, id) {
      assert op in init || op == last;
    }
  }

  /** In sorted order deletes come first, so they never undo a creation of the batch. */
  lemma NothingCreatedBeforeDelete(ops: seq<Operation>, entity: EntityType, id: Id)
    requires Ascending(ops, Key) && ops != [] && ops[|ops| - 1].op.DELETE?
    ensures !Creates(ops, entity, id)
  {
    forall op | op in ops
      ensures Key(op) <= Key(ops[|ops| - 1])
    {
    }
  }

  /** The nodes after a sorted run. */
  lemma {:induction false} NodesAfter(s: Store, ops: seq<Operation>, id: Id)
    requires AllValid(ops) && Ascending(ops, Key)
    ensures id in Run(s, ops).nodes <==> Available(s, ops, id)
    decreases |ops|
  {
    if ops != [] {
      hide Creates, Deletes;
      var init, last := ops[..|ops| - 1], ops[|ops| - 1];
      PrefixFacts(ops, |ops| - 1);
      NodesAfter(s, init, id);
      BatchExtension(ops, NODE, id);
      if last.op.DELETE? {
        NothingCreatedBeforeDelete(ops, NODE, id);
      }
      StepNodes(Run(s, init), last, id);
    } else {
      NoBatch(s, id);
    }
  }

  lemma NoBatch(s: Store, id: Id)
    ensures forall entity :: !Creates([], entity, id) && !Deletes([], entity, id)
  {
  }

  lemma StepNodes(s: Store, op: Operation, id: Id)
    requires Valid(op)
    ensures id in Exec(s, op).nodes <==> (id in s.nodes && !IsDelete(op, NODE, id)) || IsCreate(op, NODE, id)
  {
  }

  /** Where an edge present after a sorted run came from. */
  ghost predicate Origin(s: Store, ops: seq<Operation>, e: Id, link: Link) {
    if Survives(s, ops, e) then link.start == s.edges[e].start && link.end == s.edges[e].end
    else exists op :: op in ops && IsCreate(op, EDGE, e) && op.startId == Some(link.start) && op.endId == Some(link.end)
  }

  lemma SurvivesExtension(s: Store, ops: seq<Operation>, e: Id)
    requires ops != [] && e in s.edges
    ensures var last := ops[|ops| - 1];
            Survives(s, ops, e) <==> Survives(s, ops[..|ops| - 1], e) && !RemovesEdge(last, e, s.edges[e])
  {
    BatchExtension(ops, EDGE, e);
    BatchExtension(ops, NODE, s.edges[e].start);
    BatchExtension(ops, NODE, s.edges[e].end);
  }

  predicate RemovesEdge(op: Operation, e: Id, link: Link) {
    IsDelete(op, EDGE, e) || IsDelete(op, NODE, link.start) || IsDelete(op, NODE, link.end)
  }

  lemma StepEdges(s: Store, op: Operation, e: Id)
    requires Valid(op)
    ensures e in Exec(s, op).edges <==> (e in s.edges && !RemovesEdge(op, e, s.edges[e])) || IsCreate(op, EDGE, e)
    ensures e in Exec(s, op).edges ==>
              var link := Exec(s, op).edges[e];
              if e in s.edges then link.start == s.edges[e].start && link.end == s.edges[e].end
              else IsCreate(op, EDGE, e) && op.startId == Some(link.start) && op.endId == Some(link.end)
  {
  }

  lemma {:induction false} EdgesAfter(s: Store, ops: seq<Operation>, e: Id)
    requires AllValid(ops) && Ascending(ops, Key)
    ensures e in Run(s, ops).edges <==> Survives(s, ops, e) || Creates(ops, EDGE, e)
    ensures e in Run(s, ops).edges ==> Origin(s, ops, e, Run(s, ops).edges[e])
    decreases |ops|
  {
    if ops != [] {
      hide Creates, Deletes, Survives, Origin, Exec;
      var init, last := ops[..|ops| - 1], ops[|ops| - 1];
      PrefixFacts(ops, |ops| - 1);
      EdgesAfter(s, init, e);
      BatchExtension(ops, EDGE, e);
      StepEdges(Run(s, init), last, e);
      if last.op.DELETE? {
        NothingCreatedBeforeDelete(ops, EDGE, e);
      }
      OriginExtension(s, ops, e);
    }
  }

  /** One more operation of a sorted run keeps the account of where an edge came from. */
  lemma OriginExtension(s: Store, ops: seq<Operation>, e: Id)
    requires ops != [] && AllValid(ops) && Ascending(ops, Key)
    requires AllValid(ops[..|ops| - 1])
    requires var before := Run(s, ops[..|ops| - 1]);
             && (e in before.edges <==> Survives(s, ops[..|ops| - 1], e) || Creates(ops[..|ops| - 1], EDGE, e))
             && (e in before.edges ==> Origin(s, ops[..|ops| - 1], e, before.edges[e]))
    ensures e in Run(s, ops).edges <==> Survives(s, ops, e) || Creates(ops, EDGE, e)
    ensures e in Run(s, ops).edges ==> Origin(s, ops, e, Run(s, ops).edges[e])
  {
    hide Exec, Creates, Deletes;
    var init, last := ops[..|ops| - 1], ops[|ops| - 1];
    var before, after := Run(s, init), Run(s, ops);
    BatchExtension(ops, EDGE, e);
    StepEdges(before, last, e);
    MembersOfExtension(ops);
    if e in s.edges {
      SurvivesExtension(s, ops, e);
    }
    if last.op.DELETE? {
      NothingCreatedBeforeDelete(ops, EDGE, e);
    }
  }

  lemma PrefixFacts(ops: seq<Operation>, k: nat)
    requires k <= |ops|
    ensures AllValid(ops) ==> AllValid(ops[..k])
    ensures Ascending(ops, Key) ==> Ascending(ops[..k], Key)
    ensures forall op | op in ops[..k] :: op in ops
  {
  }

  /** If every inserted edge has its ends available, no prefix of the sorted run leaves a dangling edge. */
  lemma NoPrefixDangles(s: Store, ops: seq<Operation>, k: nat)
    requires AllValid(ops) && AllValid(SortOperations(ops)) && k <= |SortOperations(ops)|
    requires NoDangling(s) && EndpointsAvailable(s, ops)
    ensures AllValid(SortOperations(ops)[..k]) && NoDangling(Run(s, SortOperations(ops)[..k]))
  {
    var sorted := SortOperations(ops);
    var prefix := sorted[..k];
    SortIsStablePermutation(ops);
    PrefixFacts(sorted, k);
    var after := Run(s, prefix);
    forall e | e in after.edges
      ensures after.edges[e].start in after.nodes && after.edges[e].end in after.nodes
    {
      EdgesAfter(s, prefix, e);
      NodesAfter(s, prefix, after.edges[e].start);
      NodesAfter(s, prefix, after.edges[e].end);
      if !Survives(s, prefix, e) {
        var op :| op in prefix && IsCreate(op, EDGE, e) && op.startId == Some(after.edges[e].start) && op.endId == Some(after.edges[e].end);
        StillMissing(s, ops, sorted, k, e);
        AvailableByThen(s, ops, sorted, k, op, after.edges[e].start);
        AvailableByThen(s, ops, sorted, k, op, after.edges[e].end);
      }
    }
  }

  lemma StillMissing(s: Store, ops: seq<Operation>, sorted: seq<Operation>, k: nat, e: Id)
    requires k <= |sorted| && (forall op :: op in sorted <==> op in ops)
    requires !Survives(s, sorted[..k], e)
    ensures !Survives(s, ops, e)
  {
    if e in s.edges {
      forall entity: EntityType, id: Id | Deletes(sorted[..k], entity, id)
        ensures Deletes(ops, entity, id)
      {
        var op :| op in sorted[..k] && IsDelete(op, entity, id);
        assert op in ops;
      }
    }
  }

  lemma AvailableByThen(s: Store, ops: seq<Operation>, sorted: seq<Operation>, k: nat, create: Operation, id: Id)
    requires k <= |sorted| && (forall op :: op in sorted <==> op in ops) && Ascending(sorted, Key)
    requires create in sorted[..k] && create.op.CREATE? && create.entity.EDGE?
    requires Available(s, ops, id)
    ensures Available(s, sorted[..k], id)
  {
    var i :| 0 <= i < k && sorted[i] == create;
    if Creates(ops, NODE, id) {
      var op :| op in ops && IsCreate(op, NODE, id);
      var j :| 0 <= j < |sorted| && sorted[j] == op;
      assert Key(op) < Key(create);
      assert j < i;
      assert sorted[..k][j] == op;
    } else {
      PrefixFacts(sorted, k);
    }
  }

  /** Conversely, when edge ids are created once, a clean result means the ends were available. */
  lemma CleanResultMeansAvailable(s: Store, ops: seq<Operation>)
    requires AllValid(ops) && AllValid(SortOperations(ops)) && EdgeIdsCreatedOnce(ops)
    requires NoDangling(Run(s, SortOperations(ops)))
    ensures EndpointsAvailable(s, ops)
  {
    hide Run, Available, Survives, Origin, EdgeIdsCreatedOnce, SortOperations;
    var sorted := SortOperations(ops);
    SortIsStablePermutation(ops);
    SameBatch(s, sorted, ops);
    forall op | op in ops && op.op.CREATE? && op.entity.EDGE? && Valid(op) && !Survives(s, ops, op.id.value)
      ensures Available(s, ops, op.startId.value) && Available(s, ops, op.endId.value)
    {
      var e := op.id.value;
      EdgesAfter(s, sorted, e);
      InsertedAsAsked(s, sorted, op, Run(s, sorted).edges[e]);
      NodesAfter(s, sorted, op.startId.value);
      NodesAfter(s, sorted, op.endId.value);
    }
  }

  lemma InsertedAsAsked(s: Store, ops: seq<Operation>, op: Operation, link: Link)
    requires op in ops && op.op.CREATE? && op.entity.EDGE? && Valid(op)
    requires EdgeIdsCreatedOnce(ops) && !Survives(s, ops, op.id.value) && Origin(s, ops, op.id.value, link)
    ensures op.startId == Some(link.start) && op.endId == Some(link.end)
  {
    assert IsCreate(op, EDGE, op.id.value);
  }

  lemma SameBatch(s: Store, a: seq<Operation>, b: seq<Operation>)
    requires forall op :: op in a <==> op in b
    ensures forall id :: Available(s, a, id) <==> Available(s, b, id)
    ensures forall e :: Survives(s, a, e) <==> Survives(s, b, e)
    ensures EdgeIdsCreatedOnce(b) ==> EdgeIdsCreatedOnce(a)
  {
    forall entity: EntityType, id: Id
      ensures Creates(a, entity, id) <==> Creates(b, entity, id)
      ensures Deletes(a, entity, id) <==> Deletes(b, entity, id)
    {
    }
  }

  /** Sorting is what buys this: unsorted, an edge may dangle until its node arrives. */
  lemma UnsortedMayDangle() returns (s: Store, ops: seq<Operation>)
    ensures |ops| == 2 && AllValid(ops) && NoDangling(s) && EndpointsAvailable(s, ops)
    ensures !NoDangling(Run(s, ops[..1])) && NoDangling(Run(s, ops))
  {
    var props := map["data_source_id" := "d", "slug" := "x", "knowledge_graph_id" := "g"];
    var node := Operation(CREATE, NODE, Some("n"), Some("thing"), None, None, Some(props), None, None, None, None);
    var edge := Operation(CREATE, EDGE, Some("e"), Some("link"), Some("n"), Some("n"), Some(props), None, None, None, None);
    s := Store(map[], map[], map[]);
    ops := [edge, node];
    assert "data_source_id" in props;
    assert Valid(edge) && Valid(node);
    assert IsCreate(node, NODE, "n") && node in ops;
    RunTwo(s, edge, node);
    var first := Exec(s, edge);
    assert first.edges["e"].start == "n" && "n" !in first.nodes;
  }

  lemma RunTwo(s: Store, a: Operation, b: Operation)
    requires Valid(a) && Valid(b)
    ensures AllValid([a, b]) && [a, b][..1] == [a] && Run(s, [a]) == Exec(s, a) && Run(s, [a, b]) == Exec(Exec(s, a), b)
  {
    assert [a, b][..1] == [a];
    assert [a][..0] == [];
  }
}
