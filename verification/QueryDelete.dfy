/** A later delete mark on one entity, seen by queries that do and do not allow deleted
    entities (store/query.go:191-200). */
module QueryDelete {
  import opened Seqs
  import opened Types
  import opened QueryModel
  import opened QueryRun
  import opened QuerySchedule

  /** What a delete mark on v does to a result: drop every subtree rooted at v, or show
      the mark as one more version of a column of v. */
  datatype Edit = Prune(v: string) | Mark(v: string, o: Object)

  function EditOne(r: Result, e: Edit): seq<Result>
    decreases r
  {
    if e.Prune? && r.id == e.v then []
    else
      var cols := if e.Mark? && r.id == e.v then AddVersion(r.cols, DELETE, e.o) else r.cols;
      [r.(cols := cols, kids := EditAll(r.kids, e))]
  }

  function EditAll(rs: seq<Result>, e: Edit): seq<Result>
    decreases rs
  {
    if rs == [] then [] else EditAll(rs[..|rs| - 1], e) + EditOne(rs[|rs| - 1], e)
  }

  /** The root's flag decides which of the two a query sees. */
  function EditFor(q: Plan, d: Instruction): Edit {
    if q.getDeleted then Mark(d.subjectId, ObjectOf(d)) else Prune(d.subjectId)
  }

  ghost predicate NoDeleteFilter(p: Plan)
    decreases p
  {
    DELETE !in p.filterOut && forall k :: k in p.kids ==> NoDeleteFilter(k)
  }

  /** The row that MarkDeleted adds: a delete property, later than everything the entity
      has; the entity exists. */
  ghost predicate LaterMark(log: seq<Instruction>, d: Instruction) {
    && d.pred == DELETE && d.objectId == ""
    && RowsOf(log, d.subjectId) != []
    && forall r :: r in log && r.subjectId == d.subjectId ==> r.nanoTs <= d.nanoTs
  }

  lemma {:induction false} EditAllAppend(a: seq<Result>, b: seq<Result>, e: Edit)
    ensures EditAll(a + b, e) == EditAll(a, e) + EditAll(b, e)
  {
    if b == [] {
      assert a + b == a;
    } else {
      assert (a + b)[..|a + b| - 1] == a + b[..|b| - 1];
      EditAllAppend(a, b[..|b| - 1], e);
    }
  }

  lemma EditAllOne(r: Result, e: Edit)
    ensures EditAll([r], e) == EditOne(r, e)
  {
    assert [r][..0] == [];
  }

  lemma {:induction false} EarliestStays(rows: seq<Instruction>, d: Instruction)
    requires rows != [] && forall r :: r in rows ==> r.nanoTs <= d.nanoTs
    ensures Earliest(rows + [d]) == Earliest(rows)
  {
    assert (rows + [d])[..|rows|] == rows;
    EarliestIn(rows);
  }

  lemma {:induction false} EarliestIn(rows: seq<Instruction>)
    requires rows != []
    ensures Earliest(rows) in rows
  {
    if |rows| > 1 {
      EarliestIn(rows[..|rows| - 1]);
    }
  }

  /** The rows seen for an entity after the mark. */
  lemma RowsAfter(log: seq<Instruction>, d: Instruction, id: string)
    ensures RowsOf(log + [d], id) == RowsOf(log, id) + if id == d.subjectId then [d] else []
  {
    RowsOfAppend(log, [d], id);
    FlatMapOne(SubjectFn(id), d);
  }

  lemma {:induction false} EditedKids(log: seq<Instruction>, d: Instruction, c: Call, rows: seq<Instruction>)
    requires forall r :: RowAnswers(log + [d], c, r) == EditAll(RowAnswers(log, c, r), EditFor(c.q, d))
    ensures FlatMap(AnswerFn(log + [d]), Spawns(c, rows)) ==
            EditAll(FlatMap(AnswerFn(log), Spawns(c, rows)), EditFor(c.q, d))
  {
    if rows == [] {
      assert EditAll([], EditFor(c.q, d)) == [];
    } else {
      var n := |rows| - 1;
      EditedKids(log, d, c, rows[..n]);
      SpawnedAnswers(log, c, rows);
      SpawnedAnswers(log + [d], c, rows);
      EditAllAppend(FlatMap(AnswerFn(log), Spawns(c, rows[..n])), RowAnswers(log, c, rows[n]), EditFor(c.q, d));
    }
  }

  /** One activation, given that its children are edited. */
  lemma EditedNode(log: seq<Instruction>, d: Instruction, c: Call)
    requires LaterMark(log, d)
    requires c.q.getDeleted ==> NoDeleteFilter(c.q)
    requires forall r :: RowAnswers(log + [d], c, r) == EditAll(RowAnswers(log, c, r), EditFor(c.q, d))
    ensures AnswerFn(log + [d])(c) == EditAll(AnswerFn(log)(c), EditFor(c.q, d))
  {
    hide Answer, Answers, EditAll, Columns, Spawns, Earliest;
    var rows := RowsOf(log, c.q.id);
    var e := EditFor(c.q, d);
    RowsAfter(log, d, c.q.id);
    AnswerUnfold(log, c);
    AnswerUnfold(log + [d], c);
    EditedKids(log, d, c, rows);
    EditNothing(e);
    if Answer(log, c).Some? {
      EditAllOne(Answer(log, c).value, e);
    }
    if c.q.id == d.subjectId {
      VisibleAfter(c.q, rows, d);
      if c.q.getDeleted {
        RowsOfAll(log, c.q.id);
        EarliestStays(rows, d);
        ColumnsStep(rows, d);
        SpawnsStep(c, rows, d);
        assert SpawnFn(c)(d) == [];
        assert Spawns(c, rows + [d]) == Spawns(c, rows);
        assert IsProperty(d);
      }
    } else {
      assert rows + [] == rows;
    }
  }

  lemma EditNothing(e: Edit)
    ensures EditAll([], e) == []
  {
  }

  lemma VisibleAfter(q: Plan, rows: seq<Instruction>, d: Instruction)
    requires d.pred == DELETE && rows != [] && (q.getDeleted ==> DELETE !in q.filterOut)
    ensures Visible(q, rows + [d]) <==> q.getDeleted && Visible(q, rows)
  {
    assert d in rows + [d];
    forall r
      ensures r in rows + [d] <==> r in rows || r == d
    {
    }
  }

  /** After a later delete mark on v every activation answers as before, edited: without
      AllowDeleted the subtrees at v are gone and nothing else changes; with it the mark is
      one more version in v's delete column and nothing else changes. */
  lemma {:induction false} EditedAnswer(log: seq<Instruction>, d: Instruction, c: Call)
    requires LaterMark(log, d)
    requires c.q.getDeleted ==> NoDeleteFilter(c.q)
    ensures AnswerFn(log + [d])(c) == EditAll(AnswerFn(log)(c), EditFor(c.q, d))
    decreases Height(c.q), Gap(c)
  {
    forall r
      ensures RowAnswers(log + [d], c, r) == EditAll(RowAnswers(log, c, r), EditFor(c.q, d))
    {
      hide *;
      RowAnswersAre(log, c, r);
      RowAnswersAre(log + [d], c, r);
      EditNothing(EditFor(c.q, d));
      if SpawnOf(c, r).Some? {
        var x := SpawnOf(c, r).value;
        SpawnKeepsFlag(c, r);
        SpawnSmaller(c, r);
        EditForFlag(c.q, x.q, d);
        EditedAnswer(log, d, x);
      }
    }
    EditedNode(log, d, c);
  }

  lemma RowAnswersAre(log: seq<Instruction>, c: Call, r: Instruction)
    ensures RowAnswers(log, c, r) == if SpawnOf(c, r).Some? then AnswerFn(log)(SpawnOf(c, r).value) else []
  {
  }

  lemma EditForFlag(q: Plan, q': Plan, d: Instruction)
    requires q.getDeleted == q'.getDeleted
    ensures EditFor(q, d) == EditFor(q', d)
  {
  }

  lemma SpawnSmaller(c: Call, r: Instruction)
    requires SpawnOf(c, r).Some?
    ensures var x := SpawnOf(c, r).value;
            Height(x.q) < Height(c.q) || (Height(x.q) == Height(c.q) && Gap(x) < Gap(c))
  {
    SpawnBelow(c, r);
  }

  lemma SpawnKeepsFlag(c: Call, r: Instruction)
    requires SpawnOf(c, r).Some?
    ensures SpawnOf(c, r).value.q.getDeleted == c.q.getDeleted
    ensures NoDeleteFilter(c.q) ==> NoDeleteFilter(SpawnOf(c, r).value.q)
  {
    FollowFound(c.q.kids, r.pred);
    match Follow(c.q.kids, r.pred)
    case Some(k) =>
      if NoDeleteFilter(c.q) {
        assert NoDeleteFilter(k);
      }
    case None =>
  }

  // ---------------------------------------------------------------- for delivered results

  ghost function EditFn(e: Edit): Result -> multiset<Canon> {
    (r: Result) => CanonAll(EditOne(r, e))
  }

  lemma {:induction false} EditAllIsSum(rs: seq<Result>, e: Edit)
    ensures CanonAll(EditAll(rs, e)) == MSum(EditFn(e), rs)
  {
    if rs != [] {
      var n := |rs| - 1;
      EditAllIsSum(rs[..n], e);
      CanonAllAppend(EditAll(rs[..n], e), EditOne(rs[n], e));
    }
  }

  lemma CanonAdded(a: Result, b: Result, p: string, o: Object, ka: seq<Result>, kb: seq<Result>)
    requires CanonOf(a) == CanonOf(b) && CanonAll(ka) == CanonAll(kb)
    ensures CanonOf(a.(cols := AddVersion(a.cols, p, o), kids := ka)) ==
            CanonOf(b.(cols := AddVersion(b.cols, p, o), kids := kb))
  {
    var ca, cb := CanonOf(a).cols, CanonOf(b).cols;
    assert ca.Keys == a.cols.Keys && cb.Keys == b.cols.Keys;
    var na, nb := AddVersion(a.cols, p, o), AddVersion(b.cols, p, o);
    forall x | x in na
      ensures x in nb && multiset(na[x]) == multiset(nb[x])
    {
      if x in a.cols {
        assert ca[x] == multiset(a.cols[x]) && cb[x] == multiset(b.cols[x]);
      }
    }
    SameCanon(a.(cols := na, kids := ka), b.(cols := nb, kids := kb));
  }

  lemma {:induction false} EditAnyOrder(a: Result, b: Result, e: Edit)
    requires CanonOf(a) == CanonOf(b)
    ensures CanonAll(EditOne(a, e)) == CanonAll(EditOne(b, e))
    decreases a
  {
    hide *;
    CanonParts(a, b);
    forall x, y | x in a.kids && y in b.kids && CanonOf(x) == CanonOf(y)
      ensures EditFn(e)(x) == EditFn(e)(y)
    {
      EditAnyOrder(x, y, e);
      EditFnIs(x, e);
      EditFnIs(y, e);
    }
    Congruence(EditFn(e), a.kids, b.kids);
    EditAllIsSum(a.kids, e);
    EditAllIsSum(b.kids, e);
    EditOneAlike(a, b, e);
  }

  lemma EditFnIs(r: Result, e: Edit)
    ensures EditFn(e)(r) == CanonAll(EditOne(r, e))
  {
  }

  lemma EditOneAlike(a: Result, b: Result, e: Edit)
    requires CanonOf(a) == CanonOf(b) && CanonAll(EditAll(a.kids, e)) == CanonAll(EditAll(b.kids, e))
    ensures CanonAll(EditOne(a, e)) == CanonAll(EditOne(b, e))
  {
    hide CanonOf, CanonAll, EditAll;
    CanonParts(a, b);
    var ka, kb := EditAll(a.kids, e), EditAll(b.kids, e);
    if !(e.Prune? && a.id == e.v) {
      CanonAllOne(EditOne(a, e)[0]);
      CanonAllOne(EditOne(b, e)[0]);
      if e.Mark? && a.id == e.v {
        CanonAdded(a, b, DELETE, e.o, ka, kb);
      } else {
        CanonOfKids(a, ka);
        CanonOfKids(b, kb);
      }
    }
  }

  /** Deletion is pruning, for what runs deliver: the run after the mark agrees, up to
      order, with the edited result of any run before it. */
  lemma DeletionIsPruning(log: seq<Instruction>, d: Instruction, c: Call, before: Result, after: Result)
    requires LaterMark(log, d)
    requires c.q.getDeleted ==> NoDeleteFilter(c.q)
    requires c.q.id != "" && Delivers(log, c, before) && Delivers(log + [d], c, after)
    ensures CanonAll(Keep([], after)) == CanonAll(EditAll(Keep([], before), EditFor(c.q, d)))
  {
    hide *;
    var e := EditFor(c.q, d);
    EditedAnswer(log, d, c);
    KeptAnswer(log, c, before);
    KeptAnswer(log + [d], c, after);
    KeptEdited(log, c, before, e);
  }

  lemma KeptAnswer(log: seq<Instruction>, c: Call, m: Result)
    requires c.q.id != "" && Delivers(log, c, m)
    ensures CanonAll(Keep([], m)) == CanonAll(AnswerFn(log)(c))
  {
    DeliveredShare(log, c, m);
    ShareIsAnswer(log, c);
  }

  lemma KeptEdited(log: seq<Instruction>, c: Call, m: Result, e: Edit)
    requires c.q.id != "" && Delivers(log, c, m)
    ensures CanonAll(EditAll(Keep([], m), e)) == CanonAll(EditAll(AnswerFn(log)(c), e))
  {
    hide CanonOf, CanonAll, EditOne;
    if Answer(log, c).Some? {
      EditAllOne(m, e);
      EditAllOne(Answer(log, c).value, e);
      assert Keep([], m) == [m];
      EditAnyOrder(m, Answer(log, c).value, e);
    }
  }

  // ---------------------------------------------------------------- the flags of sub-queries

  ghost predicate SameButFlags(p: Plan, p': Plan)
    decreases p
  {
    && p'.kind == p.kind && p'.id == p.id && p'.filterOut == p.filterOut && p'.maxDepth == p.maxDepth
    && |p'.kids| == |p.kids|
    && forall i :: 0 <= i < |p.kids| ==> SameButFlags(p.kids[i], p'.kids[i])
  }

  ghost predicate SameCall(c: Call, c': Call) {
    SameButFlags(c.q, c'.q) && c.q.getDeleted == c'.q.getDeleted && c.level == c'.level && c.max == c'.max
  }

  lemma {:induction false} FollowSame(kids: seq<Plan>, kids': seq<Plan>, kind: string)
    requires |kids| == |kids'| && forall i :: 0 <= i < |kids| ==> SameButFlags(kids[i], kids'[i])
    ensures Follow(kids, kind).Some? <==> Follow(kids', kind).Some?
    ensures Follow(kids, kind).Some? ==> SameButFlags(Follow(kids, kind).value, Follow(kids', kind).value)
  {
    if kids != [] {
      var n := |kids| - 1;
      assert SameButFlags(kids[n], kids'[n]);
      FollowSame(kids[..n], kids'[..n], kind);
    }
  }

  lemma SpawnSame(c: Call, c': Call, r: Instruction)
    requires SameCall(c, c')
    ensures SpawnOf(c, r).Some? <==> SpawnOf(c', r).Some?
    ensures SpawnOf(c, r).Some? ==> SameCall(SpawnOf(c, r).value, SpawnOf(c', r).value)
  {
    FollowSame(c.q.kids, c'.q.kids, r.pred);
  }

  lemma {:induction false} SameKids(log: seq<Instruction>, c: Call, c': Call, rows: seq<Instruction>)
    requires forall r :: RowAnswers(log, c, r) == RowAnswers(log, c', r)
    ensures FlatMap(AnswerFn(log), Spawns(c, rows)) == FlatMap(AnswerFn(log), Spawns(c', rows))
  {
    if rows != [] {
      SameKids(log, c, c', rows[..|rows| - 1]);
      SpawnedAnswers(log, c, rows);
      SpawnedAnswers(log, c', rows);
    }
  }

  lemma SameVisible(q: Plan, q': Plan, rows: seq<Instruction>)
    requires q.filterOut == q'.filterOut && q.getDeleted == q'.getDeleted
    ensures Visible(q, rows) <==> Visible(q', rows)
  {
    assert forall r :: Discards(q, r) <==> Discards(q', r);
  }

  /** The flag of the root governs the whole run: AllowDeleted on a sub-query alone, or
      its absence there, has no effect. */
  lemma {:induction false} RootFlagGoverns(log: seq<Instruction>, c: Call, c': Call)
    requires SameCall(c, c')
    ensures Answer(log, c) == Answer(log, c')
    decreases Height(c.q), Gap(c)
  {
    forall r
      ensures RowAnswers(log, c, r) == RowAnswers(log, c', r)
    {
      hide *;
      RowAnswersAre(log, c, r);
      RowAnswersAre(log, c', r);
      SpawnSame(c, c', r);
      if SpawnOf(c, r).Some? {
        SpawnSmaller(c, r);
        RootFlagGoverns(log, SpawnOf(c, r).value, SpawnOf(c', r).value);
        AnswerFnIs(log, SpawnOf(c, r).value);
        AnswerFnIs(log, SpawnOf(c', r).value);
      }
    }
    hide Answer, Answers;
    AnswerUnfold(log, c);
    AnswerUnfold(log, c');
    SameVisible(c.q, c'.q, RowsOf(log, c.q.id));
    SameKids(log, c, c', RowsOf(log, c.q.id));
  }

  lemma AnswerFnIs(log: seq<Instruction>, c: Call)
    ensures AnswerFn(log)(c) == if Answer(log, c).Some? then [Answer(log, c).value] else []
  {
  }
}
