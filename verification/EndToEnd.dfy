/** What the components promise together: Execute and then Run, MarkDeleted and then Run,
    and the documents of the index against the store. */
module EndToEnd {
  import opened Seqs
  import opened Types
  import opened QueryModel
  import opened QueryRun
  import opened QueryDelete
  import opened UpdateModel
  import opened Forest
  import opened ForestUpdate
  import opened RoundTrip
  import opened LevelScan
  import Indexer
  import UpdateRows
  import Versioning

  /** What a successful Execute writes is what the caller built, with the missing ids filled
      in: row for row, and nothing else. */
  lemma ExecuteWritesDraft(log: seq<Instruction>, d: Draft, draws: nat -> string, n: Node) returns (named: Draft)
    requires Wrote(log, d, draws, n)
    ensures Named(d, named) && named.id == d.id && Lists(n, named)
    ensures forall r :: r in Flat(n) <==> UpdateRows.Says(named, r)
  {
    var ks := AssignKids(d.kids, draws, UpdateBuilder.IsNewIn(log), 0).0.value;
    named := d.(kids := ks);
    AssignedNamed(d.kids, draws, UpdateBuilder.IsNewIn(log), 0);
    UpdateRows.AllSaid(n, named);
  }

  /** Any successful Execute of a draft under a root without prior rows, followed by any run
      of a deep enough query, delivers the tree that was written, with the drawn ids. */
  lemma ExecuteThenRun(log: seq<Instruction>, d: Draft, draws: nat -> string, n: Node, depth: int, m: Result)
    requires Wrote(log, d, draws, n) && NoDuplicates(AssignedIds(log, d, draws)) && Storable(n) && Flat(n) != []
    requires d.id != "" && Unused(log, d.id) && Levels(n) <= depth
    requires Delivers(log + Flat(n), RootCall(ReadPlan(d.id, depth)), m)
    ensures CanonOf(m) == CanonOf(ResultOf(n)) && EntitiesWithin(m, Preorder(n))
  {
    hide *;
    WroteIds(log, d, draws, n);
    RootThenKids(n);
    WriteThenRead(log, n, depth, m);
  }

  lemma RootThenKids(n: Node)
    ensures forall id :: id in Ids(n) <==> id == n.head.id || id in IdsIn(n.kids)
  {
  }

  // ---------------------------------------------------------------- deletion

  /** Marking an entity deleted, and nothing else, commits one row. */
  lemma MarkIsOneRow(d: Draft, n: Node)
    requires Lists(n, d) && d.edges == map[DELETE := "true"] && d.kids == []
    ensures Flat(n) == [Instruction(d.id, d.kind, DELETE, "true", "", d.nanoTs, d.source)]
  {
    assert ListsEdges(n.props, d.edges) && DELETE in d.edges;
    var i :| 0 <= i < |n.props| && n.props[i].0 == DELETE;
    assert n.props[0].0 == n.props[|n.props| - 1].0;
    assert n.props == [(DELETE, "true")];
    FlatMapOne(PropertyFn(n.head), (DELETE, "true"));
  }

  /** Deletion is pruning: once the draft of NewUpdate(kind, id).MarkDeleted() has been
      executed, later than anything the entity has, a run without AllowDeleted delivers its
      earlier result without the subtrees of the entity, and one with it the same tree with
      the mark in the entity's delete column. */
  lemma MarkDeletedPrunes(log: seq<Instruction>, d: Draft, n: Node, c: Call, before: Result, after: Result)
    requires Lists(n, d) && d.edges == map[DELETE := "true"] && d.kids == []
    requires !Unused(log, d.id) && forall r :: r in log && r.subjectId == d.id ==> r.nanoTs <= d.nanoTs
    requires c.q.getDeleted ==> NoDeleteFilter(c.q)
    requires c.q.id != "" && Delivers(log, c, before) && Delivers(log + Flat(n), c, after)
    ensures CanonAll(Keep([], after)) ==
              CanonAll(EditAll(Keep([], before),
                               if c.q.getDeleted then Mark(d.id, Object("true", d.source, d.nanoTs)) else Prune(d.id)))
  {
    MarkIsOneRow(d, n);
    UnusedRows(log, d.id);
    hide CanonAll, EditAll, Delivers, NoDeleteFilter, RowsOf, Flat;
    DeletionIsPruning(log, Flat(n)[0], c, before, after);
  }

  // ---------------------------------------------------------------- what an answer depends on

  /** The answer to c depends on the rows of entity id: it is c's own, or that of an
      activation started for a node that shows. */
  ghost predicate Reads(log: seq<Instruction>, c: Call, id: string)
    decreases Height(c.q), Gap(c)
  {
    || id == c.q.id
    || (Visible(c.q, RowsOf(log, c.q.id)) &&
        exists x :: x in Spawns(c, RowsOf(log, c.q.id)) && Below(x, c) && Reads(log, x, id))
  }

  /** Two stores agree on everything that the answer depends on. */
  ghost predicate AgreeFor(a: seq<Instruction>, b: seq<Instruction>, c: Call) {
    forall id :: Reads(a, c, id) ==> RowsOf(a, id) == RowsOf(b, id)
  }

  lemma AgreeBelow(a: seq<Instruction>, b: seq<Instruction>, c: Call)
    requires AgreeFor(a, b, c)
    ensures RowsOf(a, c.q.id) == RowsOf(b, c.q.id)
    ensures Visible(c.q, RowsOf(a, c.q.id)) ==>
              forall x :: x in Spawns(c, RowsOf(a, c.q.id)) ==> Below(x, c) && AgreeFor(a, b, x)
  {
    SpawnsBelow(c, RowsOf(a, c.q.id));
    assert Reads(a, c, c.q.id);
    if Visible(c.q, RowsOf(a, c.q.id)) {
      forall x, id | x in Spawns(c, RowsOf(a, c.q.id)) && Reads(a, x, id)
        ensures RowsOf(a, id) == RowsOf(b, id)
      {
        assert Reads(a, c, id);
      }
    }
  }

  /** Stores that agree on what the answer depends on give the same answer, and its nodes
      have the same rows in both. */
  lemma {:induction false} SameAnswer(a: seq<Instruction>, b: seq<Instruction>, c: Call)
    requires AgreeFor(a, b, c)
    ensures Answer(a, c) == Answer(b, c)
    ensures Answer(a, c).Some? ==> SameRows(a, b, Answer(a, c).value)
    decreases Height(c.q), Gap(c)
  {
    AgreeBelow(a, b, c);
    AnswerUnfold(a, c);
    AnswerUnfold(b, c);
    hide *;
    var rows := RowsOf(a, c.q.id);
    var calls := Spawns(c, rows);
    if Visible(c.q, rows) {
      forall x | x in calls
        ensures AnswerFn(a)(x) == AnswerFn(b)(x) && AllSameRows(a, b, AnswerFn(a)(x))
      {
        BelowIs(x, c);
        SameAnswer(a, b, x);
        QueryDelete.AnswerFnIs(a, x);
        QueryDelete.AnswerFnIs(b, x);
        OneSameRows(a, b, Answer(a, x));
      }
      FlatMapSame(AnswerFn(a), AnswerFn(b), calls);
      FlatSameRows(a, b, AnswerFn(a), calls);
      SameRowsIs(a, b, Answer(a, c).value);
    }
  }

  lemma BelowIs(x: Call, c: Call)
    requires Below(x, c)
    ensures Height(x.q) < Height(c.q) || (Height(x.q) == Height(c.q) && Gap(x) < Gap(c))
  {
  }

  ghost predicate SameRows(a: seq<Instruction>, b: seq<Instruction>, r: Result)
    decreases r
  {
    RowsOf(a, r.id) == RowsOf(b, r.id) && forall k :: k in r.kids ==> SameRows(a, b, k)
  }

  ghost predicate AllSameRows(a: seq<Instruction>, b: seq<Instruction>, rs: seq<Result>) {
    forall r :: r in rs ==> SameRows(a, b, r)
  }

  lemma SameRowsIs(a: seq<Instruction>, b: seq<Instruction>, r: Result)
    ensures SameRows(a, b, r) <==> RowsOf(a, r.id) == RowsOf(b, r.id) && AllSameRows(a, b, r.kids)
  {
  }

  lemma OneSameRows(a: seq<Instruction>, b: seq<Instruction>, r: Option<Result>)
    ensures r.Some? && SameRows(a, b, r.value) ==> AllSameRows(a, b, [r.value])
    ensures AllSameRows(a, b, [])
  {
  }

  lemma FlatSameRows(a: seq<Instruction>, b: seq<Instruction>, f: Call -> seq<Result>, calls: seq<Call>)
    requires forall x :: x in calls ==> AllSameRows(a, b, f(x))
    ensures AllSameRows(a, b, FlatMap(f, calls))
  {
    hide SameRows;
    forall r | r in FlatMap(f, calls)
      ensures SameRows(a, b, r)
    {
      FlatMapMember(f, calls, r);
    }
  }

  lemma {:induction false} SameRowsAnyOrder(a: seq<Instruction>, b: seq<Instruction>, r: Result, m: Result)
    requires CanonOf(r) == CanonOf(m) && SameRows(a, b, r)
    ensures SameRows(a, b, m)
    decreases m
  {
    hide CanonOf, RowsOf;
    Versioning.CanonColumns(r, m);
    forall k | k in m.kids
      ensures SameRows(a, b, k)
    {
      var x := Versioning.SameKid(r, m, k);
      SameRowsAnyOrder(a, b, x, k);
    }
  }

  lemma {:induction false} SameFaithful(a: seq<Instruction>, b: seq<Instruction>, m: Result)
    requires SameRows(a, b, m) && QueryModel.Faithful(a, m)
    ensures QueryModel.Faithful(b, m)
    decreases m
  {
    RowsOfAll(a, m.id);
    RowsOfAll(b, m.id);
    hide RowsOf;
    var e :| e in a && e.subjectId == m.id && e.subjectType == m.kind &&
             forall x :: x in a && x.subjectId == m.id ==> e.nanoTs <= x.nanoTs;
    assert e in b;
    forall k | k in m.kids
      ensures QueryModel.Faithful(b, k)
    {
      SameFaithful(a, b, k);
    }
  }

  lemma SameDelivered(a: seq<Instruction>, b: seq<Instruction>, c: Call, m: Result)
    requires AgreeFor(a, b, c)
    ensures Delivers(a, c, m) <==> Delivers(b, c, m)
  {
    SameAnswer(a, b, c);
    hide SameRows, QueryModel.Faithful, CanonOf, Answer;
    if Answer(a, c).Some? && CanonOf(m) == CanonOf(Answer(a, c).value) {
      SameRowsAnyOrder(a, b, Answer(a, c).value, m);
      SameRowsBack(a, b, m);
      if QueryModel.Faithful(a, m) {
        SameFaithful(a, b, m);
      }
      if QueryModel.Faithful(b, m) {
        SameFaithful(b, a, m);
      }
    }
  }

  lemma {:induction false} SameRowsBack(a: seq<Instruction>, b: seq<Instruction>, r: Result)
    requires SameRows(a, b, r)
    ensures SameRows(b, a, r)
    decreases r
  {
    hide RowsOf;
    forall k | k in r.kids
      ensures SameRows(b, a, k)
    {
      SameRowsBack(a, b, k);
    }
  }

  // ---------------------------------------------------------------- documents

  lemma {:induction false} LaterRows(log: seq<Instruction>, n: nat, id: string)
    requires n <= |log| && forall i :: n <= i < |log| ==> log[i].subjectId != id
    ensures RowsOf(log[..n], id) == RowsOf(log, id)
  {
    assert log == log[..n] + log[n..];
    RowsOfAppend(log[..n], log[n..], id);
    UnusedRows(log[n..], id);
  }

  /** Whatever q reads, an update of it has y regenerated. */
  ghost predicate Watches(c: Indexer.Config, log: seq<Instruction>, q: Plan, y: Entity) {
    forall x :: Touches(log, x) && Reads(log, RootCall(q), x.id) ==> Indexer.Affects(c, x, y)
  }

  /** Documents are current: when the indexing pipeline is at rest, and updates of all that
      query q reads have y regenerated, the results from which the document of y can have
      been made by running q are exactly those that q can deliver now. */
  lemma IndexIsCurrent(c: Indexer.Config, workers: nat, evs: seq<Indexer.Event>, s: Indexer.State, y: Entity, q: Plan)
    requires Indexer.Reaches(c, workers, evs, s) && Indexer.Quiescent(s) && y in s.docs && Watches(c, s.log, q, y)
    ensures s.docs[y].seen <= |s.log|
    ensures forall m :: Delivers(s.log[..s.docs[y].seen], RootCall(q), m) <==> Delivers(s.log, RootCall(q), m)
  {
    Indexer.ReachesInv(c, workers, evs, s);
    assert Indexer.Timely(s, s.docs[y].ts, s.docs[y].seen);
    var n := s.docs[y].seen;
    hide Delivers, Indexer.Reaches, Indexer.Inv, Indexer.Affects, RowsOf, Reads;
    forall id | Reads(s.log, RootCall(q), id)
      ensures RowsOf(s.log, id) == RowsOf(s.log[..n], id)
    {
      forall i | n <= i < |s.log|
        ensures s.log[i].subjectId != id
      {
        if s.log[i].subjectId == id {
          var x := EntityOf(s.log[i]);
          assert Touches(s.log, x);
          Affected(c, x, y);
          Indexer.IndexAgreesWithStore(c, workers, evs, s, x, y);
        }
      }
      LaterRows(s.log, n, id);
    }
    forall m
      ensures Delivers(s.log[..n], RootCall(q), m) <==> Delivers(s.log, RootCall(q), m)
    {
      SameDelivered(s.log, s.log[..n], RootCall(q), m);
    }
  }

  lemma Affected(c: Indexer.Config, x: Entity, y: Entity)
    requires Indexer.Affects(c, x, y)
    ensures x.kind in c.registered && y.kind in c.registered && y in c.onUpdate(x)
  {
  }

  lemma {:induction false} NoneSpawned(c: Call, rows: seq<Instruction>)
    requires c.q.kids == [] && c.level >= c.max
    ensures Spawns(c, rows) == []
  {
    if rows != [] {
      LastSpawn(c, rows);
      assert SpawnFn(c)(rows[|rows| - 1]) == [];
      hide *;
      NoneSpawned(c, rows[..|rows| - 1]);
    }
  }

  /** In particular for NewQuery(id).Run(): it reads its own entity only, so it is enough
      that OnUpdate names the entity itself. */
  lemma DocumentIsCurrent(c: Indexer.Config, workers: nat, evs: seq<Indexer.Event>, s: Indexer.State, e: Entity)
    requires Indexer.Reaches(c, workers, evs, s) && Indexer.Quiescent(s)
    requires e in c.onUpdate(e) && e.kind in c.registered && Touches(s.log, e) && OneKind(s.log)
    ensures e in s.docs && s.docs[e].seen <= |s.log|
    ensures forall m :: Delivers(s.log[..s.docs[e].seen], RootCall(ReadPlan(e.id, 0)), m) <==>
                        Delivers(s.log, RootCall(ReadPlan(e.id, 0)), m)
  {
    Indexer.IndexAgreesWithStore(c, workers, evs, s, e, e);
    NoneSpawned(RootCall(ReadPlan(e.id, 0)), RowsOf(s.log, e.id));
    forall x | Touches(s.log, x) && Reads(s.log, RootCall(ReadPlan(e.id, 0)), x.id)
      ensures x == e
    {
      var i :| 0 <= i < |s.log| && EntityOf(s.log[i]) == x;
      var j :| 0 <= j < |s.log| && EntityOf(s.log[j]) == e;
    }
    hide Indexer.Reaches, Indexer.Quiescent, Delivers, Reads;
    IndexIsCurrent(c, workers, evs, s, e, ReadPlan(e.id, 0));
  }
}
