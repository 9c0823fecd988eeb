/** What a batch of mutations leaves in the store, entity by entity and property by property, in whatever
    order its operations were submitted. */
module MutationEffects {
  import opened Wrappers
  import opened Collections
  import opened Sorting
  import opened MutationBatch
  import opened MutationOrder

  // ---------------------------------------------------------------- what is looked at

  /** The properties of a node or an edge, if it is there. */
  function PropsOf(s: Store, entity: EntityType, id: Id): Option<Props> {
    match entity
    case NODE => if id in s.nodes then Some(s.nodes[id].props) else None
    case EDGE => if id in s.edges then Some(s.edges[id].props) else None
  }

  function LabelOf(s: Store, entity: EntityType, id: Id): Option<string> {
    match entity
    case NODE => if id in s.nodes then Some(s.nodes[id].name) else None
    case EDGE => if id in s.edges then Some(s.edges[id].name) else None
  }

  function ValueOf(props: Option<Props>, k: string): Option<string> {
    if props.Some? && k in props.value then Some(props.value[k]) else None
  }

  /** The entity was in the store and the batch deletes neither it nor, for an edge, an end of it. */
  ghost predicate Stays(s: Store, ops: seq<Operation>, entity: EntityType, id: Id) {
    match entity
    case NODE => id in s.nodes && !Deletes(ops, NODE, id)
    case EDGE => Survives(s, ops, id)
  }

  predicate On(op: Operation, entity: EntityType, id: Id) {
    op.entity == entity && op.id == Some(id)
  }

  predicate Sets(op: Operation, kind: OpType, entity: EntityType, id: Id, k: string) {
    op.op == kind && On(op, entity, id) && k in SetProps(op) && k !in RemoveProps(op)
  }

  predicate Removes(op: Operation, entity: EntityType, id: Id, k: string) {
    op.op.UPDATE? && On(op, entity, id) && k in RemoveProps(op)
  }

  ghost predicate UpdatedIn(ops: seq<Operation>, entity: EntityType, id: Id, k: string) {
    exists op :: op in ops && (Sets(op, UPDATE, entity, id, k) || Removes(op, entity, id, k))
  }

  predicate CreateSets(op: Operation, entity: EntityType, id: Id, k: string) {
    IsCreate(op, entity, id) && k in SetProps(op)
  }

  /** The value a property is left with: gone if an update removes it; else what an update sets; else what a creation
      sets; else what it was, if the entity was there and stayed. */
  ghost predicate ValueIs(s: Store, ops: seq<Operation>, entity: EntityType, id: Id, k: string, value: Option<string>) {
    && (forall op | op in ops && Removes(op, entity, id, k) :: value == None)
    && (forall op | op in ops && Sets(op, UPDATE, entity, id, k) :: value == Some(SetProps(op)[k]))
    && (!UpdatedIn(ops, entity, id, k) ==>
          && (forall op | op in ops && CreateSets(op, entity, id, k) :: value == Some(SetProps(op)[k]))
          && ((forall op | op in ops :: !CreateSets(op, entity, id, k)) ==>
                value == if Stays(s, ops, entity, id) then ValueOf(PropsOf(s, entity, id), k) else None))
  }

  /** A label never changes; a new entity has the one it was created with. */
  ghost predicate LabelIs(s: Store, ops: seq<Operation>, entity: EntityType, id: Id, name: Option<string>) {
    if Stays(s, ops, entity, id) then name == LabelOf(s, entity, id)
    else forall op | op in ops && IsCreate(op, entity, id) :: name == op.name
  }

  ghost predicate Accounted(s: Store, t: Store, ops: seq<Operation>, entity: EntityType, id: Id, k: string) {
    && (PropsOf(t, entity, id).Some? <==> Stays(s, ops, entity, id) || Creates(ops, entity, id))
    && (PropsOf(t, entity, id).Some? ==>
          ValueIs(s, ops, entity, id, k, ValueOf(PropsOf(t, entity, id), k)) && LabelIs(s, ops, entity, id, LabelOf(t, entity, id)))
  }

  // ---------------------------------------------------------------- one operation

  /** One operation seen from one entity. */
  predicate RemovesEntity(s: Store, op: Operation, entity: EntityType, id: Id) {
    match entity
    case NODE => IsDelete(op, NODE, id)
    case EDGE => id in s.edges && RemovesEdge(op, id, s.edges[id])
  }

  lemma StepProps(s: Store, op: Operation, entity: EntityType, id: Id)
    requires Valid(op)
    ensures PropsOf(Exec(s, op), entity, id) ==
            if RemovesEntity(s, op, entity, id) then None
            else if IsCreate(op, entity, id) then
              Some(if PropsOf(s, entity, id).Some? then PropsOf(s, entity, id).value + SetProps(op) else SetProps(op))
            else if op.op.UPDATE? && On(op, entity, id) && PropsOf(s, entity, id).Some? then
              Some(Changed(PropsOf(s, entity, id).value, op))
            else PropsOf(s, entity, id)
    ensures LabelOf(Exec(s, op), entity, id) ==
            if RemovesEntity(s, op, entity, id) then None
            else if IsCreate(op, entity, id) && LabelOf(s, entity, id).None? then op.name
            else LabelOf(s, entity, id)
  {
    hide Changed, SetProps;
  }

  /** In execution order deletes precede creations and creations precede updates. */
  lemma KindsBefore(ops: seq<Operation>)
    requires Ascending(ops, Key) && ops != []
    ensures var last := ops[|ops| - 1];
            forall op | op in ops :: (last.op.DELETE? || last.op.DEFINE? ==> !op.op.CREATE? && !op.op.UPDATE?) && (last.op.CREATE? ==> !op.op.UPDATE?)
  {
    forall op | op in ops
      ensures Key(op) <= Key(ops[|ops| - 1])
    {
    }
  }

  lemma StaysExtension(s: Store, ops: seq<Operation>, entity: EntityType, id: Id)
    requires ops != [] && AllValid(ops) && AllValid(ops[..|ops| - 1]) && Ascending(ops[..|ops| - 1], Key)
    ensures var before, last := Run(s, ops[..|ops| - 1]), ops[|ops| - 1];
            Stays(s, ops, entity, id) <==> Stays(s, ops[..|ops| - 1], entity, id) && !RemovesEntity(before, last, entity, id)
  {
    hide Creates, Deletes, Run;
    BatchExtension(ops, entity, id);
    if entity.EDGE? && id in s.edges {
      SurvivesExtension(s, ops, id);
      EdgesAfter(s, ops[..|ops| - 1], id);
    }
  }

  // ---------------------------------------------------------------- whole runs

  /** An operation that sets or removes nothing of `k` on this entity. */
  predicate Irrelevant(op: Operation, entity: EntityType, id: Id, k: string) {
    !Sets(op, UPDATE, entity, id, k) && !Removes(op, entity, id, k) && !CreateSets(op, entity, id, k)
  }

  /** Such an operation at the end changes what is said of a value only by removing the entity. */
  lemma IrrelevantKeepsValue(s: Store, ops: seq<Operation>, entity: EntityType, id: Id, k: string, value: Option<string>)
    requires ops != [] && Irrelevant(ops[|ops| - 1], entity, id, k)
    requires Stays(s, ops, entity, id) <==> Stays(s, ops[..|ops| - 1], entity, id)
    requires ValueIs(s, ops[..|ops| - 1], entity, id, k, value)
    ensures ValueIs(s, ops, entity, id, k, value)
  {
    MembersOfExtension(ops);
    hide Stays, Removes, Sets, CreateSets;
    var init, last := ops[..|ops| - 1], ops[|ops| - 1];
    assert (forall op | op in ops :: !CreateSets(op, entity, id, k)) <==> (forall op | op in init :: !CreateSets(op, entity, id, k));
  }

  /** After an update that touches `k` its value is what that update says, and no other update says otherwise. */
  lemma UpdateDecides(s: Store, ops: seq<Operation>, entity: EntityType, id: Id, k: string, props: Props)
    requires ops != [] && AllValid(ops) && Conflictless(ops)
    requires var last := ops[|ops| - 1]; Sets(last, UPDATE, entity, id, k) || Removes(last, entity, id, k)
    ensures ValueIs(s, ops, entity, id, k, ValueOf(Some(Changed(props, ops[|ops| - 1])), k))
  {
    var last := ops[|ops| - 1];
    assert last in ops;
    var value := ValueOf(Some(Changed(props, last)), k);
    assert value == if k in RemoveProps(last) then None else Some(SetProps(last)[k]);
    forall op | op in ops && Removes(op, entity, id, k)
      ensures value == None
    {
      assert op != last ==> Compatible(op, last);
    }
    forall op | op in ops && Sets(op, UPDATE, entity, id, k)
      ensures value == Some(SetProps(op)[k])
    {
      assert op != last ==> Compatible(op, last) && Compatible(last, op);
    }
    assert UpdatedIn(ops, entity, id, k);
  }

  /** Before any update, after a creation that sets `k`, its value is what that creation says. */
  lemma CreateDecides(s: Store, ops: seq<Operation>, entity: EntityType, id: Id, k: string)
    requires ops != [] && AllValid(ops) && Conflictless(ops)
    requires CreateSets(ops[|ops| - 1], entity, id, k) && forall op | op in ops :: !op.op.UPDATE?
    ensures ValueIs(s, ops, entity, id, k, Some(SetProps(ops[|ops| - 1])[k]))
  {
    var last := ops[|ops| - 1];
    assert last in ops;
    forall op | op in ops && CreateSets(op, entity, id, k)
      ensures SetProps(op)[k] == SetProps(last)[k]
    {
      assert op != last ==> Compatible(op, last);
    }
  }

  lemma AbsentBefore(s: Store, ops: seq<Operation>, entity: EntityType, id: Id, k: string)
    requires !Stays(s, ops, entity, id) && !Creates(ops, entity, id) && forall op | op in ops :: !op.op.UPDATE?
    ensures ValueIs(s, ops, entity, id, k, None)
  {
    hide Stays;
  }

  /** The value of `k` after one more operation that leaves the entity there. */
  lemma ValueGrows(s: Store, ops: seq<Operation>, entity: EntityType, id: Id, k: string)
    requires ops != [] && AllValid(ops) && AllValid(ops[..|ops| - 1]) && Ascending(ops, Key) && Ascending(ops[..|ops| - 1], Key) && Conflictless(ops)
    requires Accounted(s, Run(s, ops[..|ops| - 1]), ops[..|ops| - 1], entity, id, k)
    requires PropsOf(Run(s, ops), entity, id).Some?
    ensures ValueIs(s, ops, entity, id, k, ValueOf(PropsOf(Run(s, ops), entity, id), k))
  {
    var init, last := ops[..|ops| - 1], ops[|ops| - 1];
    var before := Run(s, init);
    assert last in ops;
    RunUnfolds(s, ops);
    StepProps(before, last, entity, id);
    KindsBefore(ops);
    StaysExtension(s, ops, entity, id);
    hide Run, Stays, Ascending, Conflictless, AllValid, RemovesEntity, Creates, Exec;
    if Irrelevant(last, entity, id, k) {
      if PropsOf(before, entity, id).None? {
        MembersOfExtension(ops);
        AbsentBefore(s, init, entity, id, k);
      }
      hide ValueIs;
      IrrelevantKeepsValue(s, ops, entity, id, k, ValueOf(PropsOf(before, entity, id), k));
    } else if last.op.CREATE? {
      CreateDecides(s, ops, entity, id, k);
    } else {
      UpdateDecides(s, ops, entity, id, k, PropsOf(before, entity, id).value);
    }
  }

  lemma LabelGrows(s: Store, ops: seq<Operation>, entity: EntityType, id: Id, k: string)
    requires ops != [] && AllValid(ops) && AllValid(ops[..|ops| - 1]) && Ascending(ops[..|ops| - 1], Key) && Conflictless(ops)
    requires Accounted(s, Run(s, ops[..|ops| - 1]), ops[..|ops| - 1], entity, id, k)
    requires PropsOf(Run(s, ops), entity, id).Some?
    ensures LabelIs(s, ops, entity, id, LabelOf(Run(s, ops), entity, id))
  {
    var init, last := ops[..|ops| - 1], ops[|ops| - 1];
    var before := Run(s, init);
    RunUnfolds(s, ops);
    StepProps(before, last, entity, id);
    StaysExtension(s, ops, entity, id);
    MembersOfExtension(ops);
    assert Accounted(s, before, init, entity, id, k);
    hide Run, Stays, Ascending, RemovesEntity, Exec, ValueIs, Conflictless, Compatible;
    forall op | !Stays(s, ops, entity, id) && op in ops && IsCreate(op, entity, id)
      ensures LabelOf(Run(s, ops), entity, id) == op.name
    {
      if Creates(init, entity, id) {
        var first :| first in init && IsCreate(first, entity, id);
        assert LabelOf(before, entity, id) == first.name;
        CreatesAgree(ops, first, op);
      }
    }
  }

  lemma CreatesAgree(ops: seq<Operation>, a: Operation, b: Operation)
    requires AllValid(ops) && Conflictless(ops) && a in ops && b in ops
    requires a.op.CREATE? && b.op.CREATE? && a.entity == b.entity && a.id == b.id
    ensures a.name == b.name && (a.entity.EDGE? ==> a.startId == b.startId && a.endId == b.endId)
  {
    assert a != b ==> Compatible(a, b);
  }

  lemma PresenceGrows(s: Store, ops: seq<Operation>, entity: EntityType, id: Id)
    requires ops != [] && AllValid(ops) && AllValid(ops[..|ops| - 1]) && Ascending(ops, Key) && Ascending(ops[..|ops| - 1], Key)
    requires var init := ops[..|ops| - 1];
             PropsOf(Run(s, init), entity, id).Some? <==> Stays(s, init, entity, id) || Creates(init, entity, id)
    ensures PropsOf(Run(s, ops), entity, id).Some? <==> Stays(s, ops, entity, id) || Creates(ops, entity, id)
  {
    RunUnfolds(s, ops);
    StepProps(Run(s, ops[..|ops| - 1]), ops[|ops| - 1], entity, id);
    StaysExtension(s, ops, entity, id);
    hide Creates, Deletes, Run, Stays, Exec;
    BatchExtension(ops, entity, id);
    if ops[|ops| - 1].op.DELETE? {
      NothingCreatedBeforeDelete(ops, entity, id);
    }
  }

  /** The account of a run in execution order. */
  lemma {:induction false} RunAccount(s: Store, ops: seq<Operation>, entity: EntityType, id: Id, k: string)
    requires AllValid(ops) && Ascending(ops, Key) && Conflictless(ops)
    ensures Accounted(s, Run(s, ops), ops, entity, id, k)
    decreases |ops|
  {
    if ops == [] {
      NoBatch(s, id);
    } else {
      var init := ops[..|ops| - 1];
      PrefixFacts(ops, |ops| - 1);
      StillConflictless(ops, init);
      RunAccount(s, init, entity, id, k);
      hide Conflictless, Ascending, Stays, Creates, ValueIs, LabelIs;
      PresenceGrows(s, ops, entity, id);
      if PropsOf(Run(s, ops), entity, id).Some? {
        ValueGrows(s, ops, entity, id, k);
        LabelGrows(s, ops, entity, id, k);
      }
    }
  }

  lemma SameAccount(s: Store, t: Store, a: seq<Operation>, b: seq<Operation>, entity: EntityType, id: Id, k: string)
    requires forall op :: op in a <==> op in b
    requires Accounted(s, t, a, entity, id, k)
    ensures Accounted(s, t, b, entity, id, k)
  {
    SameBatch(s, a, b);
    assert Creates(a, entity, id) <==> Creates(b, entity, id);
    assert Deletes(a, NODE, id) <==> Deletes(b, NODE, id);
    assert UpdatedIn(a, entity, id, k) <==> UpdatedIn(b, entity, id, k);
    assert Stays(s, a, entity, id) <==> Stays(s, b, entity, id);
    hide Stays, Creates, UpdatedIn, Survives, Available;
  }

  /** The account of a whole batch, however it was submitted: for every node and edge whether it is there, under which
      label, and for every property with which value. */
  lemma BatchAccount(s: Store, ops: seq<Operation>, entity: EntityType, id: Id, k: string)
    requires AllValid(ops) && Conflictless(ops)
    ensures AllValid(SortOperations(ops))
    ensures Accounted(s, Run(s, SortOperations(ops)), ops, entity, id, k)
  {
    SortIsStablePermutation(ops);
    StillConflictless(ops, SortOperations(ops));
    hide Accounted, Conflictless, SortOperations;
    RunAccount(s, SortOperations(ops), entity, id, k);
    SameAccount(s, Run(s, SortOperations(ops)), SortOperations(ops), ops, entity, id, k);
  }

  /** In particular an update reaches an entity that the same batch creates. */
  lemma UpdateReachesCreated(s: Store, ops: seq<Operation>, create: Operation, update: Operation, id: Id, k: string)
    requires AllValid(ops) && Conflictless(ops) && create in ops && update in ops
    requires IsCreate(create, update.entity, id) && Sets(update, UPDATE, update.entity, id, k)
    ensures AllValid(SortOperations(ops))
    ensures ValueOf(PropsOf(Run(s, SortOperations(ops)), update.entity, id), k) == Some(SetProps(update)[k])
  {
    hide Conflictless, SortOperations, LabelIs, Stays;
    BatchAccount(s, ops, update.entity, id, k);
    assert Creates(ops, update.entity, id);
  }

  // ---------------------------------------------------------------- types, order and validity

  predicate Defines(op: Operation, entity: EntityType, name: string) {
    op.op.DEFINE? && op.entity == entity && op.name == Some(name)
  }

  ghost predicate TypeIs(s: Store, t: Store, ops: seq<Operation>, entity: EntityType, name: string) {
    && ((entity, name) in t.types <==> (entity, name) in s.types || exists op :: op in ops && Defines(op, entity, name))
    && (forall op | op in ops && Defines(op, entity, name) && Valid(op) ::
          (entity, name) in t.types && t.types[(entity, name)] ==
          TypeDefinition(op.description.value, op.requiredProperties.value, if op.optionalProperties.Some? then op.optionalProperties.value else {}))
    && ((forall op | op in ops :: !Defines(op, entity, name)) && (entity, name) in s.types ==> t.types[(entity, name)] == s.types[(entity, name)])
  }

  lemma StepTypes(s: Store, op: Operation, entity: EntityType, name: string)
    requires Valid(op)
    ensures Defines(op, entity, name) ==>
              Exec(s, op).types == s.types[(entity, name) := TypeDefinition(op.description.value, op.requiredProperties.value,
                                                               if op.optionalProperties.Some? then op.optionalProperties.value else {})]
    ensures !Defines(op, entity, name) ==>
              && ((entity, name) in Exec(s, op).types <==> (entity, name) in s.types)
              && ((entity, name) in s.types ==> Exec(s, op).types[(entity, name)] == s.types[(entity, name)])
  {
  }

  lemma {:induction false} RunTypes(s: Store, ops: seq<Operation>, entity: EntityType, name: string)
    requires AllValid(ops) && Conflictless(ops)
    ensures TypeIs(s, Run(s, ops), ops, entity, name)
    decreases |ops|
  {
    if ops != [] {
      var init, last := ops[..|ops| - 1], ops[|ops| - 1];
      PrefixFacts(ops, |ops| - 1);
      StillConflictless(ops, init);
      RunTypes(s, init, entity, name);
      StepTypes(Run(s, init), last, entity, name);
      RunUnfolds(s, ops);
      MembersOfExtension(ops);
      hide Run, Exec;
      forall op | op in init && Defines(op, entity, name) && Defines(last, entity, name)
        ensures ToTypeDefinition(op) == ToTypeDefinition(last)
      {
        assert op in ops && last in ops && (op != last ==> Compatible(op, last));
      }
    }
  }

  /** Every type the batch declares is declared as asked, and every other type is as it was. */
  lemma BatchTypes(s: Store, ops: seq<Operation>, entity: EntityType, name: string)
    requires AllValid(ops) && Conflictless(ops)
    ensures AllValid(SortOperations(ops)) && TypeIs(s, Run(s, SortOperations(ops)), ops, entity, name)
  {
    SortIsStablePermutation(ops);
    StillConflictless(ops, SortOperations(ops));
    hide Conflictless, SortOperations;
    RunTypes(s, SortOperations(ops), entity, name);
    hide Run, AllValid;
    assert (exists op :: op in ops && Defines(op, entity, name)) <==> exists op :: op in SortOperations(ops) && Defines(op, entity, name);
  }

  /** The execution order that is documented: declarations, deleted edges, deleted nodes, created nodes, created
      edges, updates. */
  predicate MustPrecede(a: Operation, b: Operation) {
    match a.op
    case DEFINE => !b.op.DEFINE?
    case DELETE => b.op.CREATE? || b.op.UPDATE? || (b.op.DELETE? && a.entity.EDGE? && b.entity.NODE?)
    case CREATE => b.op.UPDATE? || (b.op.CREATE? && a.entity.NODE? && b.entity.EDGE?)
    case UPDATE => false
  }

  lemma SortedAsDocumented(ops: seq<Operation>)
    ensures forall i, j | 0 <= i < j < |SortOperations(ops)| :: !MustPrecede(SortOperations(ops)[j], SortOperations(ops)[i])
  {
    SortIsStablePermutation(ops);
    hide SortOperations;
    forall i, j | 0 <= i < j < |SortOperations(ops)|
      ensures !MustPrecede(SortOperations(ops)[j], SortOperations(ops)[i])
    {
      assert Key(SortOperations(ops)[i]) <= Key(SortOperations(ops)[j]);
    }
  }

  /** What an operation must carry, and what it must not. */
  lemma AcceptedExactly(op: Operation)
    ensures Valid(op) <==>
            && (!op.op.DEFINE? ==> Given(op.id))
            && (op.op.DEFINE? || op.op.CREATE? ==> Given(op.name))
            && (op.op.DEFINE? ==> Given(op.description) && op.requiredProperties.Some?)
            && (op.op.CREATE? ==> "data_source_id" in SetProps(op) && "knowledge_graph_id" in SetProps(op) && (op.entity.NODE? ==> "slug" in SetProps(op)))
            && (op.op.CREATE? && op.entity.EDGE? ==> Given(op.startId) && Given(op.endId))
            && (op.op.UPDATE? ==> SetProps(op) != map[] || RemoveProps(op) != [])
            && (op.op.DEFINE? || op.op.DELETE? ==> SetProps(op) == map[] && RemoveProps(op) == [] && !Given(op.startId) && !Given(op.endId))
            && (op.op.DELETE? ==> !Given(op.name))
  {
  }
}
