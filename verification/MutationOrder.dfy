/** Why the order of a submitted batch does not matter, and why re-discovering entities is harmless. */
module MutationOrder {
  import opened Collections
  import opened Sorting
  import opened MutationBatch

  // ---------------------------------------------------------------- order independence

  ghost predicate Agree(a: Props, b: Props) {
    forall k | k in a && k in b :: a[k] == b[k]
  }

  /** Two valid operations of one class either touch different things or say the same about them. */
  ghost predicate Compatible(a: Operation, b: Operation)
    requires Valid(a) && Valid(b)
  {
    match a.op
    case DEFINE => b.op.DEFINE? && a.entity == b.entity && a.name == b.name ==> ToTypeDefinition(a) == ToTypeDefinition(b)
    case CREATE =>
      b.op.CREATE? && a.entity == b.entity && a.id == b.id ==>
        && a.name == b.name && Agree(SetProps(a), SetProps(b))
        && (a.entity.EDGE? ==> a.startId == b.startId && a.endId == b.endId)
    case UPDATE =>
      b.op.UPDATE? && a.entity == b.entity && a.id == b.id ==>
        && Agree(SetProps(a), SetProps(b))
        && (forall k | k in SetProps(a) :: k !in RemoveProps(b))
        && (forall k | k in SetProps(b) :: k !in RemoveProps(a))
    case DELETE => true
  }

  ghost predicate Conflictless(ops: seq<Operation>)
    requires AllValid(ops)
  {
    forall a, b | a in ops && b in ops && a != b :: Compatible(a, b)
  }

  lemma ChangesCommute(props: Props, a: Operation, b: Operation)
    requires Agree(SetProps(a), SetProps(b))
    requires forall k | k in SetProps(a) :: k !in RemoveProps(b)
    requires forall k | k in SetProps(b) :: k !in RemoveProps(a)
    ensures Changed(Changed(props, a), b) == Changed(Changed(props, b), a)
  {
  }

  lemma MergesCommute(p: Props, a: Props, b: Props)
    requires Agree(a, b)
    ensures p + a + b == p + b + a
    ensures a + b == b + a
  {
  }

  /** Equal operations, and compatible ones of one class, can be run in either order. */
  lemma Commute(s: Store, a: Operation, b: Operation)
    requires Valid(a) && Valid(b) && Key(a) == Key(b) && (a == b || Compatible(a, b))
    ensures Exec(Exec(s, a), b) == Exec(Exec(s, b), a)
  {
    if a == b {
      return;
    }
    match a.op
    case DEFINE => CommuteDefines(s, a, b);
    case CREATE => if a.entity.NODE? { CommuteNodeCreates(s, a, b); } else { CommuteEdgeCreates(s, a, b); }
    case UPDATE => if a.entity.NODE? { CommuteNodeUpdates(s, a, b); } else { CommuteEdgeUpdates(s, a, b); }
    case DELETE => CommuteDeletes(s, a, b);
  }

  lemma CommuteDefines(s: Store, a: Operation, b: Operation)
    requires Valid(a) && Valid(b) && a.op.DEFINE? && b.op.DEFINE? && Compatible(a, b)
    ensures Exec(Exec(s, a), b) == Exec(Exec(s, b), a)
  {
    assert Exec(Exec(s, a), b).types == Exec(Exec(s, b), a).types;
  }

  lemma PutsCommute<K, V>(m: map<K, V>, i: K, x: V, j: K, y: V)
    requires i != j
    ensures m[i := x][j := y] == m[j := y][i := x]
  {
  }

  lemma PutsOverwrite<K, V>(m: map<K, V>, i: K, x: V, y: V)
    ensures m[i := x][i := y] == m[i := y]
  {
  }

  function CreatedNode(nodes: map<Id, Vertex>, op: Operation): Vertex
    requires Valid(op) && op.op.CREATE? && op.entity.NODE?
  {
    var id := op.id.value;
    if id in nodes then nodes[id].(props := nodes[id].props + SetProps(op)) else Vertex(op.name.value, SetProps(op))
  }

  lemma CommuteNodeCreates(s: Store, a: Operation, b: Operation)
    requires Valid(a) && Valid(b) && a.op.CREATE? && b.op.CREATE? && a.entity.NODE? && b.entity.NODE? && Compatible(a, b)
    ensures Exec(Exec(s, a), b) == Exec(Exec(s, b), a)
  {
    var m, i, j := s.nodes, a.id.value, b.id.value;
    var x, y := CreatedNode(m, a), CreatedNode(m, b);
    assert Exec(s, a) == s.(nodes := m[i := x]) && Exec(s, b) == s.(nodes := m[j := y]);
    var x', y' := CreatedNode(m[j := y], a), CreatedNode(m[i := x], b);
    assert Exec(Exec(s, a), b) == s.(nodes := m[i := x][j := y']) && Exec(Exec(s, b), a) == s.(nodes := m[j := y][i := x']);
    hide Exec;
    if i == j {
      MergesCommute(if i in m then m[i].props else map[], SetProps(a), SetProps(b));
      assert x' == y';
      PutsOverwrite(m, i, x, y');
      PutsOverwrite(m, i, y, x');
    } else {
      assert x' == x && y' == y;
      PutsCommute(m, i, x, j, y);
    }
  }

  function CreatedEdge(edges: map<Id, Link>, op: Operation): Link
    requires Valid(op) && op.op.CREATE? && op.entity.EDGE?
  {
    var id := op.id.value;
    if id in edges then edges[id].(props := edges[id].props + SetProps(op)) else Link(op.name.value, op.startId.value, op.endId.value, SetProps(op))
  }

  lemma CommuteEdgeCreates(s: Store, a: Operation, b: Operation)
    requires Valid(a) && Valid(b) && a.op.CREATE? && b.op.CREATE? && a.entity.EDGE? && b.entity.EDGE? && Compatible(a, b)
    ensures Exec(Exec(s, a), b) == Exec(Exec(s, b), a)
  {
    var m, i, j := s.edges, a.id.value, b.id.value;
    var x, y := CreatedEdge(m, a), CreatedEdge(m, b);
    assert Exec(s, a) == s.(edges := m[i := x]) && Exec(s, b) == s.(edges := m[j := y]);
    var x', y' := CreatedEdge(m[j := y], a), CreatedEdge(m[i := x], b);
    assert Exec(Exec(s, a), b) == s.(edges := m[i := x][j := y']) && Exec(Exec(s, b), a) == s.(edges := m[j := y][i := x']);
    hide Exec;
    if i == j {
      MergesCommute(if i in m then m[i].props else map[], SetProps(a), SetProps(b));
      assert x' == y';
      PutsOverwrite(m, i, x, y');
      PutsOverwrite(m, i, y, x');
    } else {
      assert x' == x && y' == y;
      PutsCommute(m, i, x, j, y);
    }
  }

  lemma CommuteNodeUpdates(s: Store, a: Operation, b: Operation)
    requires Valid(a) && Valid(b) && a.op.UPDATE? && b.op.UPDATE? && a.entity.NODE? && b.entity.NODE? && Compatible(a, b)
    ensures Exec(Exec(s, a), b) == Exec(Exec(s, b), a)
  {
    hide Changed;
    var m, i, j := s.nodes, a.id.value, b.id.value;
    if i in m && j in m {
      var x, y := m[i].(props := Changed(m[i].props, a)), m[j].(props := Changed(m[j].props, b));
      if i == j {
        ChangesCommute(m[i].props, a, b);
        var z := x.(props := Changed(x.props, b));
        PutsOverwrite(m, i, x, z);
        PutsOverwrite(m, i, y, z);
      } else {
        PutsCommute(m, i, x, j, y);
      }
    }
  }

  lemma CommuteEdgeUpdates(s: Store, a: Operation, b: Operation)
    requires Valid(a) && Valid(b) && a.op.UPDATE? && b.op.UPDATE? && a.entity.EDGE? && b.entity.EDGE? && Compatible(a, b)
    ensures Exec(Exec(s, a), b) == Exec(Exec(s, b), a)
  {
    hide Changed;
    var m, i, j := s.edges, a.id.value, b.id.value;
    if i in m && j in m {
      var x, y := m[i].(props := Changed(m[i].props, a)), m[j].(props := Changed(m[j].props, b));
      if i == j {
        ChangesCommute(m[i].props, a, b);
        var z := x.(props := Changed(x.props, b));
        PutsOverwrite(m, i, x, z);
        PutsOverwrite(m, i, y, z);
      } else {
        PutsCommute(m, i, x, j, y);
      }
    }
  }

  lemma CommuteDeletes(s: Store, a: Operation, b: Operation)
    requires Valid(a) && Valid(b) && a.op.DELETE? && b.op.DELETE? && a.entity == b.entity
    ensures Exec(Exec(s, a), b) == Exec(Exec(s, b), a)
  {
    var ab, ba := Exec(Exec(s, a), b), Exec(Exec(s, b), a);
    hide Exec, IsDelete, RemovesEdge;
    DeletesRemove(s, a, b);
    DeletesRemove(s, b, a);
    MapsEqual(ab.nodes, ba.nodes);
    MapsEqual(ab.edges, ba.edges);
  }

  lemma MapsEqual<K, V>(m: map<K, V>, n: map<K, V>)
    requires forall k :: k in m <==> k in n
    requires forall k | k in m :: m[k] == n[k]
    ensures m == n
  {
  }

  lemma DeletesRemove(s: Store, a: Operation, b: Operation)
    requires Valid(a) && Valid(b) && a.op.DELETE? && b.op.DELETE? && a.entity == b.entity
    ensures var t := Exec(Exec(s, a), b);
            && t.types == s.types
            && (forall id :: id in t.nodes <==> id in s.nodes && !IsDelete(a, NODE, id) && !IsDelete(b, NODE, id))
            && (forall id | id in t.nodes :: t.nodes[id] == s.nodes[id])
            && (forall e :: e in t.edges <==> e in s.edges && !RemovesEdge(a, e, s.edges[e]) && !RemovesEdge(b, e, s.edges[e]))
            && (forall e | e in t.edges :: t.edges[e] == s.edges[e])
  {
    DeleteRemoves(s, a);
    DeleteRemoves(Exec(s, a), b);
  }

  lemma DeleteRemoves(s: Store, a: Operation)
    requires Valid(a) && a.op.DELETE?
    ensures var t := Exec(s, a);
            && t.types == s.types
            && (forall id :: id in t.nodes <==> id in s.nodes && !IsDelete(a, NODE, id))
            && (forall id | id in t.nodes :: t.nodes[id] == s.nodes[id])
            && (forall e :: e in t.edges <==> e in s.edges && !RemovesEdge(a, e, s.edges[e]))
            && (forall e | e in t.edges :: t.edges[e] == s.edges[e])
  {
  }

  /** Moves the operation at `i` past the later ones of its own class to the end of the run. */
  lemma {:induction false} MoveToEnd(s: Store, ops: seq<Operation>, i: nat)
    requires i < |ops| && AllValid(ops) && Conflictless(ops)
    requires forall j | i <= j < |ops| :: Key(ops[j]) == Key(ops[i])
    ensures AllValid(ops[..i] + ops[i + 1..])
    ensures Run(s, ops) == Exec(Run(s, ops[..i] + ops[i + 1..]), ops[i])
    decreases |ops|
  {
    var rest := ops[..i] + ops[i + 1..];
    WithoutOne(ops, i);
    if i == |ops| - 1 {
      assert rest == ops[..|ops| - 1];
    } else {
      hide Exec, Conflictless, Key;
      var init, last := ops[..|ops| - 1], ops[|ops| - 1];
      PrefixFacts(ops, |ops| - 1);
      MoveToEnd(s, init, i);
      var rest' := init[..i] + init[i + 1..];
      LastStaysLast(ops, i);
      hide AllValid;
      PairIsCompatible(ops, i, |ops| - 1);
      Commute(Run(s, rest'), ops[i], last);
    }
  }

  lemma LastStaysLast(ops: seq<Operation>, i: nat)
    requires i < |ops| - 1
    ensures var init, rest := ops[..|ops| - 1], ops[..i] + ops[i + 1..];
            rest[..|rest| - 1] == init[..i] + init[i + 1..] && rest[|rest| - 1] == ops[|ops| - 1] && init[i] == ops[i]
  {
  }

  lemma PairIsCompatible(ops: seq<Operation>, i: nat, j: nat)
    requires AllValid(ops) && Conflictless(ops) && i < |ops| && j < |ops|
    ensures Valid(ops[i]) && Valid(ops[j]) && (ops[i] == ops[j] || Compatible(ops[i], ops[j]))
  {
    hide Compatible, Valid;
  }

  lemma WithoutOne(ops: seq<Operation>, i: nat)
    requires i < |ops|
    ensures forall op | op in ops[..i] + ops[i + 1..] :: op in ops
    ensures multiset(ops) == multiset(ops[..i] + ops[i + 1..]) + multiset{ops[i]}
  {
    assert ops == ops[..i] + [ops[i]] + ops[i + 1..];
  }

  /** Two sorted runs of the same conflict-free operations end in the same store. */
  lemma {:induction false} SortedRunsAgree(s: Store, a: seq<Operation>, b: seq<Operation>)
    requires AllValid(a) && AllValid(b) && Ascending(a, Key) && Ascending(b, Key)
    requires multiset(a) == multiset(b) && Conflictless(b)
    ensures Run(s, a) == Run(s, b)
    decreases |a|
  {
    hide Exec, Conflictless, Ascending, Run, AllValid;
    if a == [] {
      assert |multiset(a)| == |multiset(b)|;
      assert b == [];
    } else {
      var rest := Peel(s, a, b);
      SortedRunsAgree(s, a[..|a| - 1], rest);
      RunUnfolds(s, a);
    }
  }

  /** The last operation of one list taken out of the other, where it can be run last. */
  lemma Peel(s: Store, a: seq<Operation>, b: seq<Operation>) returns (rest: seq<Operation>)
    requires a != [] && AllValid(a) && AllValid(b) && Ascending(a, Key) && Ascending(b, Key)
    requires multiset(a) == multiset(b) && Conflictless(b)
    ensures AllValid(a[..|a| - 1]) && Ascending(a[..|a| - 1], Key)
    ensures AllValid(rest) && Ascending(rest, Key) && Conflictless(rest)
    ensures multiset(a[..|a| - 1]) == multiset(rest)
    ensures Run(s, b) == Exec(Run(s, rest), a[|a| - 1])
  {
    hide Exec, Conflictless, Run, Ascending;
    SameMembers(a, b);
    var i := LastInOther(a, b);
    MoveToEnd(s, b, i);
    WithoutOne(b, i);
    rest := b[..i] + b[i + 1..];
    PrefixFacts(a, |a| - 1);
    StillAscending(b, i);
    StillConflictless(b, rest);
    AllButLast(a);
    RestsMatch(a[..|a| - 1], rest, a[|a| - 1], a, b);
  }

  lemma RestsMatch(init: seq<Operation>, rest: seq<Operation>, last: Operation, a: seq<Operation>, b: seq<Operation>)
    requires multiset(a) == multiset(b)
    requires multiset(a) == multiset(init) + multiset{last} && multiset(b) == multiset(rest) + multiset{last}
    ensures multiset(init) == multiset(rest)
  {
    assert multiset(init) == multiset(a) - multiset{last};
  }

  lemma AllButLast(a: seq<Operation>)
    requires a != []
    ensures multiset(a) == multiset(a[..|a| - 1]) + multiset{a[|a| - 1]}
    ensures Ascending(a, Key) ==> Ascending(a[..|a| - 1], Key)
  {
    assert a == a[..|a| - 1] + [a[|a| - 1]];
  }

  lemma RunUnfolds(s: Store, ops: seq<Operation>)
    requires ops != [] && AllValid(ops)
    ensures AllValid(ops[..|ops| - 1])
    ensures Run(s, ops) == Exec(Run(s, ops[..|ops| - 1]), ops[|ops| - 1])
  {
  }

  lemma StillAscending(ops: seq<Operation>, i: nat)
    requires Ascending(ops, Key) && i < |ops|
    ensures Ascending(ops[..i] + ops[i + 1..], Key)
  {
  }

  /** The last of one sorted list sits in the other among equal keys up to the end. */
  lemma LastInOther(a: seq<Operation>, b: seq<Operation>) returns (i: nat)
    requires a != [] && Ascending(a, Key) && Ascending(b, Key)
    requires forall op :: op in a <==> op in b
    ensures i < |b| && b[i] == a[|a| - 1]
    ensures forall j | i <= j < |b| :: Key(b[j]) == Key(b[i])
  {
    var last := a[|a| - 1];
    assert last in a;
    i :| 0 <= i < |b| && b[i] == last;
    forall j | i <= j < |b|
      ensures Key(b[j]) == Key(b[i])
    {
      assert b[j] in b;
      var k :| 0 <= k < |a| && a[k] == b[j];
    }
  }

  lemma StillConflictless(ops: seq<Operation>, some: seq<Operation>)
    requires AllValid(ops) && Conflictless(ops)
    requires forall op | op in some :: op in ops
    ensures AllValid(some) && Conflictless(some)
  {
  }

  /** Submitting a conflict-free batch in another order gives the same store. */
  lemma OrderDoesNotMatter(s: Store, a: seq<Operation>, b: seq<Operation>)
    requires AllValid(a) && AllValid(b) && multiset(a) == multiset(b) && Conflictless(a)
    ensures AllValid(SortOperations(a)) && AllValid(SortOperations(b))
    ensures Run(s, SortOperations(a)) == Run(s, SortOperations(b))
  {
    SortIsStablePermutation(a);
    SortIsStablePermutation(b);
    SameMembers(a, b);
    StillConflictless(a, SortOperations(b));
    SortedRunsAgree(s, SortOperations(a), SortOperations(b));
  }

  // ---------------------------------------------------------------- idempotent discovery

  ghost predicate OnlyCreates(ops: seq<Operation>) {
    forall op | op in ops :: op.op.CREATE?
  }

  /** What the creations of one entity add up to, later values winning. */
  ghost function Overlay(ops: seq<Operation>, entity: EntityType, id: Id): Props {
    if ops == [] then map[]
    else
      var last := ops[|ops| - 1];
      Overlay(ops[..|ops| - 1], entity, id) + if IsCreate(last, entity, id) then SetProps(last) else map[]
  }

  /** One creation, seen from one node id. */
  lemma CreateNodeStep(s: Store, op: Operation, id: Id)
    requires Valid(op) && op.op.CREATE?
    ensures var t := Exec(s, op);
            && t.types == s.types && (id in t.nodes <==> id in s.nodes || IsCreate(op, NODE, id))
            && (IsCreate(op, NODE, id) ==>
                  if id in s.nodes then t.nodes[id] == s.nodes[id].(props := s.nodes[id].props + SetProps(op))
                  else t.nodes[id].props == SetProps(op))
            && (!IsCreate(op, NODE, id) && id in s.nodes ==> t.nodes[id] == s.nodes[id])
  {
    hide SetProps;
  }

  /** One creation, seen from one edge id. */
  lemma CreateEdgeStep(s: Store, op: Operation, id: Id)
    requires Valid(op) && op.op.CREATE?
    ensures var t := Exec(s, op);
            && t.types == s.types && (id in t.edges <==> id in s.edges || IsCreate(op, EDGE, id))
            && (IsCreate(op, EDGE, id) ==>
                  if id in s.edges then t.edges[id] == s.edges[id].(props := s.edges[id].props + SetProps(op))
                  else t.edges[id].props == SetProps(op))
            && (!IsCreate(op, EDGE, id) && id in s.edges ==> t.edges[id] == s.edges[id])
  {
    hide SetProps;
  }

  /** The account of a run of creations, for the node `id`. */
  ghost predicate NodeAccount(s: Store, t: Store, ops: seq<Operation>, id: Id) {
    && t.types == s.types
    && (id in t.nodes <==> id in s.nodes || Creates(ops, NODE, id))
    && (id in s.nodes ==> t.nodes[id] == s.nodes[id].(props := s.nodes[id].props + Overlay(ops, NODE, id)))
    && (id !in s.nodes && id in t.nodes ==> t.nodes[id].props == Overlay(ops, NODE, id))
    && (!Creates(ops, NODE, id) ==> Overlay(ops, NODE, id) == map[])
  }

  ghost predicate EdgeAccount(s: Store, t: Store, ops: seq<Operation>, id: Id) {
    && (id in t.edges <==> id in s.edges || Creates(ops, EDGE, id))
    && (id in s.edges ==> t.edges[id] == s.edges[id].(props := s.edges[id].props + Overlay(ops, EDGE, id)))
    && (id !in s.edges && id in t.edges ==> t.edges[id].props == Overlay(ops, EDGE, id))
    && (!Creates(ops, EDGE, id) ==> Overlay(ops, EDGE, id) == map[])
  }

  /** Merging a run of creations adds up, entity by entity, to one overlay of properties. */
  lemma {:induction false} CreatesAccount(s: Store, ops: seq<Operation>, id: Id)
    requires AllValid(ops) && OnlyCreates(ops)
    ensures NodeAccount(s, Run(s, ops), ops, id)
    ensures EdgeAccount(s, Run(s, ops), ops, id)
    decreases |ops|
  {
    hide Creates, Deletes, Exec;
    if ops == [] {
      NoBatch(s, id);
    } else {
      var init, last := ops[..|ops| - 1], ops[|ops| - 1];
      PrefixFacts(ops, |ops| - 1);
      CreatesAccount(s, init, id);
      NodeAccountGrows(s, ops, id);
      EdgeAccountGrows(s, ops, id);
    }
  }

  lemma MergeAssociates(p: Props, a: Props, b: Props)
    ensures (p + a) + b == p + (a + b) && map[] + b == b
  {
  }

  lemma OverlayGrows(ops: seq<Operation>, entity: EntityType, id: Id)
    requires ops != []
    ensures var init, last := ops[..|ops| - 1], ops[|ops| - 1];
            Overlay(ops, entity, id) == if IsCreate(last, entity, id) then Overlay(init, entity, id) + SetProps(last) else Overlay(init, entity, id)
  {
    var init, last := ops[..|ops| - 1], ops[|ops| - 1];
    assert Overlay(init, entity, id) + map[] == Overlay(init, entity, id);
  }

  lemma NodeAccountGrows(s: Store, ops: seq<Operation>, id: Id)
    requires ops != [] && AllValid(ops) && OnlyCreates(ops) && AllValid(ops[..|ops| - 1])
    requires NodeAccount(s, Run(s, ops[..|ops| - 1]), ops[..|ops| - 1], id)
    ensures NodeAccount(s, Run(s, ops), ops, id)
  {
    hide Creates, Deletes, Exec, Run, Overlay, IsCreate, IsDelete, SetProps, Valid;
    RunUnfolds(s, ops);
    var init, last := ops[..|ops| - 1], ops[|ops| - 1];
    assert last in ops;
    CreateNodeStep(Run(s, init), last, id);
    BatchExtension(ops, NODE, id);
    OverlayGrows(ops, NODE, id);
    MergeAssociates(if id in s.nodes then s.nodes[id].props else map[], Overlay(init, NODE, id), SetProps(last));
  }

  lemma EdgeAccountGrows(s: Store, ops: seq<Operation>, id: Id)
    requires ops != [] && AllValid(ops) && OnlyCreates(ops) && AllValid(ops[..|ops| - 1])
    requires EdgeAccount(s, Run(s, ops[..|ops| - 1]), ops[..|ops| - 1], id)
    ensures EdgeAccount(s, Run(s, ops), ops, id)
  {
    hide Creates, Deletes, Exec, Run, Overlay, IsCreate, IsDelete, SetProps, Valid;
    RunUnfolds(s, ops);
    var init, last := ops[..|ops| - 1], ops[|ops| - 1];
    assert last in ops;
    CreateEdgeStep(Run(s, init), last, id);
    BatchExtension(ops, EDGE, id);
    OverlayGrows(ops, EDGE, id);
    MergeAssociates(if id in s.edges then s.edges[id].props else map[], Overlay(init, EDGE, id), SetProps(last));
  }

  /** Applying a batch of discoveries twice is applying it once. */
  lemma CreatesAreIdempotent(s: Store, ops: seq<Operation>)
    requires AllValid(ops) && OnlyCreates(ops)
    ensures AllValid(SortOperations(ops))
    ensures var once := Run(s, SortOperations(ops)); Run(once, SortOperations(ops)) == once
  {
    hide SortOperations, Run;
    var sorted := SortOperations(ops);
    SortIsStablePermutation(ops);
    var once := Run(s, sorted);
    var twice := Run(once, sorted);
    CreatesAccount(once, sorted, "");
    forall id
      ensures id in once.nodes <==> id in twice.nodes
      ensures id in once.nodes ==> once.nodes[id] == twice.nodes[id]
      ensures id in once.edges <==> id in twice.edges
      ensures id in once.edges ==> once.edges[id] == twice.edges[id]
    {
      CreatesAccount(s, sorted, id);
      CreatesAccount(once, sorted, id);
      SameAgain(s, once, twice, sorted, id);
    }
    assert once.nodes == twice.nodes && once.edges == twice.edges;
  }

  lemma SameAgain(s: Store, once: Store, twice: Store, ops: seq<Operation>, id: Id)
    requires NodeAccount(s, once, ops, id) && NodeAccount(once, twice, ops, id)
    requires EdgeAccount(s, once, ops, id) && EdgeAccount(once, twice, ops, id)
    ensures id in once.nodes <==> id in twice.nodes
    ensures id in once.nodes ==> once.nodes[id] == twice.nodes[id]
    ensures id in once.edges <==> id in twice.edges
    ensures id in once.edges ==> once.edges[id] == twice.edges[id]
  {
    hide Creates, Overlay;
    if id in once.nodes {
      Reapplied(if id in s.nodes then s.nodes[id].props else map[], Overlay(ops, NODE, id));
    }
    if id in once.edges {
      Reapplied(if id in s.edges then s.edges[id].props else map[], Overlay(ops, EDGE, id));
    }
  }

  lemma Reapplied(p: Props, o: Props)
    ensures (p + o) + o == p + o && map[] + o == o && o + o == o
  {
  }
}
