/** What Execute writes under a new root, a query deep enough reads back. */
module RoundTrip {
  import opened Seqs
  import opened Types
  import opened QueryModel
  import opened QueryRun
  import QueryDelete
  import QuerySchedule
  import opened UpdateModel
  import opened Forest
  import opened ForestQuery

  // ---------------------------------------------------------------- the expected result

  function ColumnsOf(h: Head, props: seq<(string, string)>): map<string, seq<Object>> {
    if props == [] then map[]
    else
      var p := props[|props| - 1];
      ColumnsOf(h, props[..|props| - 1])[p.0 := [Object(p.1, h.source, h.nanoTs)]]
  }

  /** The written tree as a result: same shape, kinds and ids, one version per property. */
  function ResultOf(n: Node): Result
    decreases n
  {
    Result(n.head.id, n.head.kind, ColumnsOf(n.head, n.props), ResultsOf(n.kids))
  }

  function ResultsOf(kids: seq<Node>): seq<Result>
    decreases kids
  {
    if kids == [] then [] else ResultsOf(kids[..|kids| - 1]) + [ResultOf(kids[|kids| - 1])]
  }

  /** The number of levels below a node. */
  function Levels(n: Node): nat
    decreases n
  {
    LevelsIn(n.kids)
  }

  function LevelsIn(kids: seq<Node>): (h: nat)
    ensures forall k :: k in kids ==> Levels(k) < h
    decreases kids
  {
    if kids == [] then 0
    else
      var h := LevelsIn(kids[1..]);
      var k := Levels(kids[0]);
      assert kids == [kids[0]] + kids[1..];
      if k < h then h else k + 1
  }

  ghost predicate DistinctNames(props: seq<(string, string)>) {
    forall i, j :: 0 <= i < j < |props| ==> props[i].0 != props[j].0
  }

  /** No reserved predicates, non-empty ids below the root, each property listed once. */
  ghost predicate Storable(n: Node)
    decreases n
  {
    && (forall i :: 0 <= i < |n.props| ==> n.props[i].0 != PARENT && n.props[i].0 != DELETE)
    && DistinctNames(n.props)
    && forall i :: 0 <= i < |n.kids| ==>
         n.kids[i].head.id != "" && n.kids[i].head.kind != PARENT && n.kids[i].head.kind != DELETE && Storable(n.kids[i])
  }

  // ---------------------------------------------------------------- where a node's rows are

  lemma {:induction false} FlatKidsAppend(h: Head, a: seq<Node>, b: seq<Node>)
    ensures FlatKids(h, a + b) == FlatKids(h, a) + FlatKids(h, b)
    decreases |b|
  {
    if b == [] {
      assert a + b == a;
    } else {
      assert (a + b)[..|a + b| - 1] == a + b[..|b| - 1];
      FlatKidsAppend(h, a, b[..|b| - 1]);
    }
  }

  lemma {:induction false} IdsInAppend(a: seq<Node>, b: seq<Node>)
    ensures IdsIn(a + b) == IdsIn(a) + IdsIn(b)
    decreases |b|
  {
    if b == [] {
      assert a + b == a;
    } else {
      assert (a + b)[..|a + b| - 1] == a + b[..|b| - 1];
      IdsInAppend(a, b[..|b| - 1]);
    }
  }

  lemma LastProperty(h: Head, props: seq<(string, string)>)
    requires props != []
    ensures PropertyRows(h, props) == PropertyRows(h, props[..|props| - 1]) + [PropertyRow(h, props[|props| - 1])]
  {
  }

  lemma {:induction false} OwnSubject(h: Head, props: seq<(string, string)>)
    ensures forall i :: 0 <= i < |PropertyRows(h, props)| ==> PropertyRows(h, props)[i].subjectId == h.id
  {
    if props != [] {
      LastProperty(h, props);
      OwnSubject(h, props[..|props| - 1]);
    }
  }

  lemma {:induction false} OwnRows(h: Head, props: seq<(string, string)>)
    ensures RowsOf(PropertyRows(h, props), h.id) == PropertyRows(h, props)
  {
    if props != [] {
      var n := |props| - 1;
      var r := PropertyRow(h, props[n]);
      OwnRows(h, props[..n]);
      LastProperty(h, props);
      RowsOfAppend(PropertyRows(h, props[..n]), [r], h.id);
      FlatMapOne(SubjectFn(h.id), r);
    }
  }

  /** The child edges of a node, in order. */
  function ChildEdges(h: Head, kids: seq<Node>): seq<Instruction> {
    if kids == [] then []
    else ChildEdges(h, kids[..|kids| - 1]) + [EdgeRows(h, kids[|kids| - 1].head)[0]]
  }

  /** Rows belong to the entities of the tree they were generated from. */
  lemma {:induction false} FlatWithin(n: Node, id: string)
    requires id !in Ids(n)
    ensures Unused(Flat(n), id)
    decreases n, 0
  {
    OwnSubject(n.head, n.props);
    assert Ids(n)[0] == n.head.id;
    FlatKidsWithin(n.head, n.kids, id);
  }

  lemma {:induction false} FlatKidsWithin(h: Head, kids: seq<Node>, id: string)
    requires id != h.id && id !in IdsIn(kids)
    ensures Unused(FlatKids(h, kids), id)
    decreases kids, 0
  {
    if kids != [] {
      var n := |kids| - 1;
      LastKid(h, kids);
      FlatKidsWithin(h, kids[..n], id);
      FlatWithin(kids[n], id);
      assert Ids(kids[n])[0] == kids[n].head.id;
    }
  }

  lemma {:induction false} ParentsRows(h: Head, kids: seq<Node>)
    requires h.id !in IdsIn(kids)
    ensures RowsOf(FlatKids(h, kids), h.id) == ChildEdges(h, kids)
  {
    if kids != [] {
      hide *;
      var n := |kids| - 1;
      LastKid(h, kids);
      RootFirst(kids[n]);
      ParentsRows(h, kids[..n]);
      FlatWithin(kids[n], h.id);
      UnusedRows(Flat(kids[n]), h.id);
      RowsOfAppend(FlatKids(h, kids[..n]) + EdgeRows(h, kids[n].head), Flat(kids[n]), h.id);
      RowsOfAppend(FlatKids(h, kids[..n]), EdgeRows(h, kids[n].head), h.id);
      PairRows(h, kids[n].head);
      LastEdge(h, kids);
    }
  }

  lemma PairRows(h: Head, kid: Head)
    requires kid.id != h.id
    ensures RowsOf(EdgeRows(h, kid), h.id) == [EdgeRows(h, kid)[0]]
    ensures RowsOf(EdgeRows(h, kid), kid.id) == [EdgeRows(h, kid)[1]]
    ensures forall id :: id != h.id && id != kid.id ==> Unused(EdgeRows(h, kid), id)
  {
    var pair := EdgeRows(h, kid);
    assert pair == [pair[0]] + [pair[1]];
    RowsOfAppend([pair[0]], [pair[1]], h.id);
    RowsOfAppend([pair[0]], [pair[1]], kid.id);
    FlatMapOne(SubjectFn(h.id), pair[0]);
    FlatMapOne(SubjectFn(h.id), pair[1]);
    FlatMapOne(SubjectFn(kid.id), pair[0]);
    FlatMapOne(SubjectFn(kid.id), pair[1]);
  }

  lemma LastEdge(h: Head, kids: seq<Node>)
    requires kids != []
    ensures ChildEdges(h, kids) == ChildEdges(h, kids[..|kids| - 1]) + [EdgeRows(h, kids[|kids| - 1].head)[0]]
  {
  }

  lemma NodeRows(n: Node)
    requires n.head.id !in IdsIn(n.kids)
    ensures RowsOf(Flat(n), n.head.id) == PropertyRows(n.head, n.props) + ChildEdges(n.head, n.kids)
  {
    OwnRows(n.head, n.props);
    ParentsRows(n.head, n.kids);
    RowsOfAppend(PropertyRows(n.head, n.props), FlatKids(n.head, n.kids), n.head.id);
  }

  // ---------------------------------------------------------------- reading one node

  /** Rows that a node may have before its own: the edge back to its parent. */
  ghost predicate OnlyParentRows(rows: seq<Instruction>, h: Head) {
    forall r :: r in rows ==> r.pred == PARENT && r.subjectType == h.kind
  }

  ghost predicate OfNode(r: Instruction, h: Head) {
    r.subjectType == h.kind && r.pred != DELETE
  }

  lemma {:induction false} ColumnsOfProps(h: Head, before: seq<Instruction>, props: seq<(string, string)>)
    requires OnlyParentRows(before, h) && DistinctNames(props)
    requires forall i :: 0 <= i < |props| ==> props[i].0 != PARENT
    ensures Columns(before + PropertyRows(h, props)) == ColumnsOf(h, props)
    ensures forall p :: p in ColumnsOf(h, props) ==> exists i :: 0 <= i < |props| && props[i].0 == p
  {
    if props == [] {
      assert before + PropertyRows(h, props) == before;
      assert PropertyNames(before) == {};
    } else {
      var n := |props| - 1;
      var r := PropertyRow(h, props[n]);
      ColumnsOfProps(h, before, props[..n]);
      LastProperty(h, props);
      assert before + PropertyRows(h, props) == before + PropertyRows(h, props[..n]) + [r];
      QuerySchedule.ColumnsStep(before + PropertyRows(h, props[..n]), r);
      forall p | p in ColumnsOf(h, props)
        ensures exists i :: 0 <= i < |props| && props[i].0 == p
      {
        if p in ColumnsOf(h, props[..n]) {
          var i :| 0 <= i < |props[..n]| && props[..n][i].0 == p;
          assert props[i].0 == p;
        } else {
          assert props[n].0 == p;
        }
      }
      forall p | p in ColumnsOf(h, props[..n])
        ensures p != r.pred
      {
        var i :| 0 <= i < |props[..n]| && props[..n][i].0 == p;
        assert props[i].0 != props[n].0;
      }
      assert [] + [ObjectOf(r)] == [ObjectOf(r)];
    }
  }

  lemma {:induction false} ColumnsSkipEdges(rows: seq<Instruction>, h: Head, kids: seq<Node>)
    requires forall i :: 0 <= i < |kids| ==> kids[i].head.id != ""
    ensures Columns(rows + ChildEdges(h, kids)) == Columns(rows)
  {
    if kids == [] {
      assert rows + ChildEdges(h, kids) == rows;
    } else {
      var n := |kids| - 1;
      var e := EdgeRows(h, kids[n].head)[0];
      ColumnsSkipEdges(rows, h, kids[..n]);
      assert rows + ChildEdges(h, kids) == rows + ChildEdges(h, kids[..n]) + [e];
      QuerySchedule.ColumnsStep(rows + ChildEdges(h, kids[..n]), e);
    }
  }

  /** Rows of the node's own kind, none of them a delete mark. */
  ghost predicate AllOfNode(rows: seq<Instruction>, h: Head) {
    forall r :: r in rows ==> OfNode(r, h)
  }

  lemma {:induction false} PropertiesOfNode(h: Head, props: seq<(string, string)>)
    requires forall i :: 0 <= i < |props| ==> props[i].0 != PARENT && props[i].0 != DELETE
    ensures AllOfNode(PropertyRows(h, props), h)
    ensures forall r :: r in PropertyRows(h, props) ==> IsProperty(r)
  {
    if props != [] {
      LastProperty(h, props);
      PropertiesOfNode(h, props[..|props| - 1]);
    }
  }

  lemma {:induction false} EdgesOfNode(h: Head, kids: seq<Node>)
    requires forall i :: 0 <= i < |kids| ==> kids[i].head.kind != DELETE
    ensures AllOfNode(ChildEdges(h, kids), h)
  {
    if kids != [] {
      EdgesOfNode(h, kids[..|kids| - 1]);
    }
  }

  lemma {:induction false} NoSpawns(c: Call, rows: seq<Instruction>)
    requires forall r :: r in rows ==> r.pred == PARENT || r.objectId == ""
    ensures Spawns(c, rows) == []
  {
    if rows != [] {
      var n := |rows| - 1;
      assert rows[n] in rows && forall r :: r in rows[..n] ==> r in rows;
      LastSpawn(c, rows);
      hide *;
      NoSpawns(c, rows[..n]);
    }
  }

  lemma LastSpawn(c: Call, rows: seq<Instruction>)
    requires rows != []
    ensures var n := |rows| - 1;
            && Spawns(c, rows) == Spawns(c, rows[..n]) + SpawnFn(c)(rows[n])
            && (rows[n].pred == PARENT || rows[n].objectId == "" ==> SpawnFn(c)(rows[n]) == [])
  {
    hide Follow, FreshPlan;
  }

  /** A plain depth query at the given level. */
  ghost predicate PlainCall(c: Call, id: string) {
    c.q.id == id && c.q.kids == [] && c.q.filterOut == {} && !c.q.getDeleted
  }

  function KidCall(c: Call, id: string): Call {
    Call(FreshPlan(id, false), c.level + 1, c.max)
  }

  lemma KidSpawned(c: Call, h: Head, kid: Head)
    requires PlainCall(c, h.id) && c.level < c.max && kid.id != "" && kid.kind != PARENT
    ensures SpawnFn(c)(EdgeRows(h, kid)[0]) == [KidCall(c, kid.id)]
  {
  }

  lemma {:induction false} KidsRead(log: seq<Instruction>, c: Call, h: Head, kids: seq<Node>)
    requires PlainCall(c, h.id) && (kids != [] ==> c.level < c.max)
    requires forall i :: 0 <= i < |kids| ==> kids[i].head.id != "" && kids[i].head.kind != PARENT
    requires forall i :: 0 <= i < |kids| ==> Answer(log, KidCall(c, kids[i].head.id)) == Some(ResultOf(kids[i]))
    ensures FlatMap(AnswerFn(log), Spawns(c, ChildEdges(h, kids))) == ResultsOf(kids)
  {
    if kids != [] {
      hide Answer, ResultOf;
      var n := |kids| - 1;
      var e := EdgeRows(h, kids[n].head)[0];
      KidsRead(log, c, h, kids[..n]);
      LastEdge(h, kids);
      KidSpawned(c, h, kids[n].head);
      FlatMapAppend(SpawnFn(c), ChildEdges(h, kids[..n]), [e]);
      FlatMapOne(SpawnFn(c), e);
      FlatMapAppend(AnswerFn(log), Spawns(c, ChildEdges(h, kids[..n])), [KidCall(c, kids[n].head.id)]);
      FlatMapOne(AnswerFn(log), KidCall(c, kids[n].head.id));
    }
  }

  /** One node, given its rows and its children's answers. */
  lemma NodeRead(log: seq<Instruction>, c: Call, n: Node, before: seq<Instruction>)
    requires Storable(n) && PlainCall(c, n.head.id) && (n.kids != [] ==> c.level < c.max)
    requires RowsOf(log, n.head.id) == before + PropertyRows(n.head, n.props) + ChildEdges(n.head, n.kids)
    requires RowsOf(log, n.head.id) != [] && OnlyParentRows(before, n.head)
    requires forall i :: 0 <= i < |n.kids| ==> Answer(log, KidCall(c, n.kids[i].head.id)) == Some(ResultOf(n.kids[i]))
    ensures Answer(log, c) == Some(ResultOf(n))
  {
    hide Answer, Answers, Columns, Spawns, ColumnsOf, ResultsOf, PropertyRows, ChildEdges;
    var own, edges := PropertyRows(n.head, n.props), ChildEdges(n.head, n.kids);
    var rows := before + own + edges;
    PropertiesOfNode(n.head, n.props);
    EdgesOfNode(n.head, n.kids);
    QueryDelete.EarliestIn(rows);
    ColumnsOfProps(n.head, before, n.props);
    ColumnsSkipEdges(before + own, n.head, n.kids);
    KidsRead(log, c, n.head, n.kids);
    NoSpawns(c, before + own);
    AppendSpawns(c, before + own, edges);
    AnswerUnfold(log, c);
    assert Spawns(c, rows) == Spawns(c, edges);
    assert forall r :: r in rows ==> r in before || r in own || r in edges;
    assert Earliest(rows).subjectType == n.head.kind;
    assert Visible(c.q, rows);
  }

  lemma AppendSpawns(c: Call, a: seq<Instruction>, b: seq<Instruction>)
    ensures Spawns(c, a + b) == Spawns(c, a) + Spawns(c, b)
  {
    FlatMapAppend(SpawnFn(c), a, b);
  }

  // ---------------------------------------------------------------- the whole tree

  /** The rows around those of subtree n belong to others, but for the edge to its parent. */
  ghost predicate Around(pre: seq<Instruction>, n: Node, post: seq<Instruction>) {
    && OnlyParentRows(RowsOf(pre, n.head.id), n.head) && Unused(post, n.head.id)
    && forall id :: id in IdsIn(n.kids) ==> Unused(pre, id) && Unused(post, id)
  }

  function PreOf(pre: seq<Instruction>, n: Node, i: nat): seq<Instruction>
    requires i < |n.kids|
  {
    pre + PropertyRows(n.head, n.props) + FlatKids(n.head, n.kids[..i]) + EdgeRows(n.head, n.kids[i].head)
  }

  function PostOf(n: Node, i: nat, post: seq<Instruction>): seq<Instruction>
    requires i < |n.kids|
  {
    FlatKids(n.head, n.kids[i + 1..]) + post
  }

  lemma KidInPlace(pre: seq<Instruction>, n: Node, post: seq<Instruction>, i: nat)
    requires i < |n.kids|
    ensures PreOf(pre, n, i) + Flat(n.kids[i]) + PostOf(n, i, post) == pre + Flat(n) + post
    ensures IdsIn(n.kids) == IdsIn(n.kids[..i]) + Ids(n.kids[i]) + IdsIn(n.kids[i + 1..])
  {
    hide FlatKids, IdsIn, Ids, EdgeRows, PropertyRows;
    var a, k, b := n.kids[..i], n.kids[i], n.kids[i + 1..];
    assert n.kids == a + [k] + b;
    FlatKidsAppend(n.head, a + [k], b);
    IdsInAppend(a + [k], b);
    LastKid(n.head, a + [k]);
    assert (a + [k])[..|a|] == a;
    Regroup(pre, PropertyRows(n.head, n.props), FlatKids(n.head, a), EdgeRows(n.head, k.head), Flat(k),
            FlatKids(n.head, b), post);
  }

  lemma Regroup<T>(a: seq<T>, b: seq<T>, c: seq<T>, d: seq<T>, e: seq<T>, f: seq<T>, g: seq<T>)
    ensures (a + b + c + d) + e + (f + g) == a + (b + ((c + d + e) + f)) + g
  {
  }

  /** Nothing before child i mentions an id of the child's subtree, except the edge to it. */
  lemma BeforeKid(pre: seq<Instruction>, n: Node, i: nat, id: string)
    requires i < |n.kids| && id != n.head.id && id !in IdsIn(n.kids[..i]) && Unused(pre, id)
    ensures Unused(pre + PropertyRows(n.head, n.props) + FlatKids(n.head, n.kids[..i]), id)
  {
    OwnSubject(n.head, n.props);
    FlatKidsWithin(n.head, n.kids[..i], id);
    UnusedAppend(pre, PropertyRows(n.head, n.props), id);
    UnusedAppend(pre + PropertyRows(n.head, n.props), FlatKids(n.head, n.kids[..i]), id);
  }

  lemma KidAround(pre: seq<Instruction>, n: Node, post: seq<Instruction>, i: nat)
    requires i < |n.kids| && NoDuplicates(Ids(n)) && Around(pre, n, post)
    ensures Around(PreOf(pre, n, i), n.kids[i], PostOf(n, i, post))
    ensures RowsOf(PreOf(pre, n, i), n.kids[i].head.id) != [] && NoDuplicates(Ids(n.kids[i]))
  {
    hide Flat, FlatKids, Unused, EdgeRows, PropertyRows, RowsOf, NoDuplicates, Ids, IdsIn;
    var k := n.kids[i];
    var a, b := IdsIn(n.kids[..i]), IdsIn(n.kids[i + 1..]);
    KidInPlace(pre, n, post, i);
    RootFirst(n);
    RootFirst(k);
    SplitNoDuplicates([n.head.id], IdsIn(n.kids));
    SplitNoDuplicates(a + Ids(k), b);
    SplitNoDuplicates(a, Ids(k));
    forall id | id in Ids(k)
      ensures id != n.head.id && id !in a && id !in b && id in IdsIn(n.kids)
    {
      assert id in [n.head.id] + IdsIn(n.kids);
    }
    var early := pre + PropertyRows(n.head, n.props) + FlatKids(n.head, n.kids[..i]);
    PairRows(n.head, k.head);
    forall id | id in Ids(k)
      ensures Unused(early, id) && Unused(PostOf(n, i, post), id)
      ensures id != k.head.id ==> Unused(PreOf(pre, n, i), id)
    {
      BeforeKid(pre, n, i, id);
      FlatKidsWithin(n.head, n.kids[i + 1..], id);
      UnusedAppend(FlatKids(n.head, n.kids[i + 1..]), post, id);
      UnusedAppend(early, EdgeRows(n.head, k.head), id);
    }
    RowsOfAppend(early, EdgeRows(n.head, k.head), k.head.id);
    UnusedRows(early, k.head.id);
    EdgeBack(n.head, k.head);
    forall id | id in IdsIn(k.kids)
      ensures id in Ids(k) && id != k.head.id
    {
      NotTheRoot(k, id);
    }
  }

  lemma EdgeBack(h: Head, kid: Head)
    ensures EdgeRows(h, kid)[1].pred == PARENT && EdgeRows(h, kid)[1].subjectType == kid.kind
  {
  }

  lemma LevelsBelow(n: Node, i: nat)
    requires i < |n.kids|
    ensures Levels(n.kids[i]) < Levels(n)
  {
    assert n.kids[i] in n.kids;
  }

  lemma KidFacts(n: Node, i: nat)
    requires Storable(n) && i < |n.kids|
    ensures Storable(n.kids[i]) && n.kids[i].head.id != ""
  {
  }

  /** A subtree in place reads back as itself when the query still has its levels to go. */
  lemma {:induction false} ReadTree(pre: seq<Instruction>, n: Node, post: seq<Instruction>, c: Call)
    requires Storable(n) && NoDuplicates(Ids(n)) && Around(pre, n, post)
    requires PlainCall(c, n.head.id) && Levels(n) <= c.max - c.level
    requires RowsOf(pre, n.head.id) != [] || Flat(n) != []
    ensures Answer(pre + Flat(n) + post, c) == Some(ResultOf(n))
    decreases n
  {
    hide *;
    var log := pre + Flat(n) + post;
    forall i | 0 <= i < |n.kids|
      ensures Answer(log, KidCall(c, n.kids[i].head.id)) == Some(ResultOf(n.kids[i])) && c.level < c.max
    {
      KidInPlace(pre, n, post, i);
      KidAround(pre, n, post, i);
      LevelsBelow(n, i);
      KidFacts(n, i);
      KidIsPlain(c, n.kids[i].head.id);
      ReadTree(PreOf(pre, n, i), n.kids[i], PostOf(n, i, post), KidCall(c, n.kids[i].head.id));
    }
    RowsInPlace(pre, n, post);
    if n.kids != [] {
      LevelsBelow(n, 0);
    }
    NodeRead(log, c, n, RowsOf(pre, n.head.id));
  }

  lemma KidIsPlain(c: Call, id: string)
    ensures PlainCall(KidCall(c, id), id)
    ensures KidCall(c, id).level == c.level + 1 && KidCall(c, id).max == c.max
  {
  }

  lemma FirstRowUsed(rows: seq<Instruction>, h: Head)
    requires rows != [] && EntityOf(rows[0]) == NodeEntity(h)
    ensures !Unused(rows, h.id)
  {
  }

  lemma RowsInPlace(pre: seq<Instruction>, n: Node, post: seq<Instruction>)
    requires NoDuplicates(Ids(n)) && Around(pre, n, post)
    requires RowsOf(pre, n.head.id) != [] || Flat(n) != []
    ensures var rows := RowsOf(pre + Flat(n) + post, n.head.id);
            rows == RowsOf(pre, n.head.id) + PropertyRows(n.head, n.props) + ChildEdges(n.head, n.kids) && rows != []
    ensures OnlyParentRows(RowsOf(pre, n.head.id), n.head)
  {
    hide Flat, RowsOf, IdsIn, PropertyRows, ChildEdges, NoDuplicates, Unused;
    if n.head.id in IdsIn(n.kids) {
      NotTheRoot(n, n.head.id);
    }
    NodeRows(n);
    RowsOfAppend(pre + Flat(n), post, n.head.id);
    RowsOfAppend(pre, Flat(n), n.head.id);
    UnusedRows(post, n.head.id);
    if Flat(n) != [] {
      FirstRow(n);
      FirstRowUsed(Flat(n), n.head);
      UnusedRows(Flat(n), n.head.id);
    }
  }

  // ---------------------------------------------------------------- what a run delivers

  /** Every node of the result is, kind and id, one of these entities. */
  ghost predicate EntitiesWithin(r: Result, es: seq<Entity>)
    decreases r
  {
    Entity(r.kind, r.id) in es && forall k :: k in r.kids ==> EntitiesWithin(k, es)
  }

  lemma {:induction false} WrittenIds(n: Node)
    ensures IdsOf(ResultOf(n)) == multiset(Ids(n))
    decreases n
  {
    WrittenIdsIn(n.kids);
    assert multiset(Ids(n)) == multiset([n.head.id]) + multiset(IdsIn(n.kids));
  }

  lemma {:induction false} WrittenIdsIn(kids: seq<Node>)
    ensures IdsOfAll(ResultsOf(kids)) == multiset(IdsIn(kids))
    decreases kids
  {
    if kids != [] {
      var n := |kids| - 1;
      WrittenIdsIn(kids[..n]);
      WrittenIds(kids[n]);
      IdsOfAllAppend(ResultsOf(kids[..n]), [ResultOf(kids[n])]);
      IdsOfOne(ResultOf(kids[n]));
      assert multiset(IdsIn(kids)) == multiset(IdsIn(kids[..n])) + multiset(Ids(kids[n]));
    }
  }

  /** Every generated row is about an entity of the tree. */
  lemma {:induction false} RowEntities(n: Node, r: Instruction)
    requires r in Flat(n)
    ensures EntityOf(r) in Preorder(n)
    decreases n, 0
  {
    if r in PropertyRows(n.head, n.props) {
      PropertyEntity(n.head, n.props, r);
    } else {
      KidRowEntities(n.head, n.kids, r);
    }
  }

  lemma {:induction false} PropertyEntity(h: Head, props: seq<(string, string)>, r: Instruction)
    requires r in PropertyRows(h, props)
    ensures EntityOf(r) == NodeEntity(h)
  {
    LastProperty(h, props);
    if r in PropertyRows(h, props[..|props| - 1]) {
      PropertyEntity(h, props[..|props| - 1], r);
    }
  }

  lemma {:induction false} KidRowEntities(h: Head, kids: seq<Node>, r: Instruction)
    requires r in FlatKids(h, kids)
    ensures EntityOf(r) in [NodeEntity(h)] + PreorderIn(kids)
    decreases kids, 0
  {
    var n := |kids| - 1;
    if r in FlatKids(h, kids[..n]) {
      KidRowEntities(h, kids[..n], r);
    } else if r in Flat(kids[n]) {
      RowEntities(kids[n], r);
    } else {
      assert Preorder(kids[n])[0] == NodeEntity(kids[n].head);
      assert r == EdgeRows(h, kids[n].head)[0] || r == EdgeRows(h, kids[n].head)[1];
    }
  }

  lemma KidIdsWithin(r: Result, k: Result, ids: seq<string>)
    requires k in r.kids && forall id :: id in IdsOf(r) ==> id in ids
    ensures forall id :: id in IdsOf(k) ==> id in ids
  {
    var j :| 0 <= j < |r.kids| && r.kids[j] == k;
    assert r.kids == r.kids[..j] + [k] + r.kids[j + 1..];
    IdsOfAllAppend(r.kids[..j] + [k], r.kids[j + 1..]);
    IdsOfAllAppend(r.kids[..j], [k]);
    IdsOfOne(k);
  }

  lemma {:induction false} KindsRead(log: seq<Instruction>, n: Node, r: Result)
    requires Faithful(log + Flat(n), r)
    requires forall id :: id in Ids(n) ==> Unused(log, id)
    requires forall id :: id in IdsOf(r) ==> id in Ids(n)
    ensures EntitiesWithin(r, Preorder(n))
    decreases r
  {
    var e :| e in log + Flat(n) && e.subjectId == r.id && e.subjectType == r.kind;
    assert r.id in IdsOf(r);
    assert Unused(log, r.id);
    RowEntities(n, e);
    forall k | k in r.kids
      ensures EntitiesWithin(k, Preorder(n))
    {
      KidIdsWithin(r, k, Ids(n));
      KindsRead(log, n, k);
    }
  }

  /** The query that reads a tree back. */
  function ReadPlan(id: string, depth: int): Plan {
    Plan("", id, {}, depth, [], false)
  }

  /** Write, then read: under a root without prior rows, a query at least as deep as the
      tree delivers exactly the tree that was written, up to the order of children: the
      assigned ids and kinds, and one version per property with its value, source and
      timestamp. */
  lemma WriteThenRead(log: seq<Instruction>, n: Node, depth: int, m: Result)
    requires Storable(n) && NoDuplicates(Ids(n)) && n.head.id != "" && Flat(n) != []
    requires forall id :: id in Ids(n) ==> Unused(log, id)
    requires Levels(n) <= depth
    requires Delivers(log + Flat(n), RootCall(ReadPlan(n.head.id, depth)), m)
    ensures CanonOf(m) == CanonOf(ResultOf(n))
    ensures EntitiesWithin(m, Preorder(n))
  {
    hide *;
    var c := RootCall(ReadPlan(n.head.id, depth));
    ReadPlanIsPlain(n.head.id, depth);
    NothingBefore(log, n);
    ReadTree(log, n, [], c);
    assert log + Flat(n) + [] == log + Flat(n);
    DeliversParts(log + Flat(n), c, m);
    DeliveredFaithful(log + Flat(n), c, m);
    IdsAnyOrder(m, ResultOf(n));
    WrittenIds(n);
    KindsRead(log, n, m);
  }

  lemma ReadPlanIsPlain(id: string, depth: int)
    ensures PlainCall(RootCall(ReadPlan(id, depth)), id)
    ensures RootCall(ReadPlan(id, depth)).max == depth && RootCall(ReadPlan(id, depth)).level == 0
  {
  }

  lemma NothingBefore(log: seq<Instruction>, n: Node)
    requires forall id :: id in Ids(n) ==> Unused(log, id)
    ensures Around(log, n, [])
  {
    assert Ids(n)[0] == n.head.id;
    UnusedRows(log, n.head.id);
    forall id | id in IdsIn(n.kids)
      ensures id in Ids(n)
    {
      assert id in [n.head.id] + IdsIn(n.kids);
    }
  }

  lemma DeliveredFaithful(log: seq<Instruction>, c: Call, m: Result)
    requires Delivers(log, c, m) && Answer(log, c).Some?
    ensures Faithful(log, m)
  {
  }
}
