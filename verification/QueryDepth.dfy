/** How a result changes when the depth grows by one, when an entity is marked deleted,
    and when only the sub-queries' own AllowDeleted flags differ. */
module QueryDepth {
  import opened Seqs
  import opened Types
  import opened QueryModel
  import opened QueryRun

  // ---------------------------------------------------------------- depth

  /** Everything deeper than k levels below the root cut off. */
  function Truncate(r: Result, k: int): Result
    decreases r
  {
    r.(kids := if k <= 0 then [] else TruncateAll(r.kids, k - 1))
  }

  function TruncateAll(rs: seq<Result>, k: int): seq<Result>
    decreases rs
  {
    if rs == [] then [] else TruncateAll(rs[..|rs| - 1], k) + [Truncate(rs[|rs| - 1], k)]
  }

  lemma {:induction false} TruncateAllAppend(a: seq<Result>, b: seq<Result>, k: int)
    ensures TruncateAll(a + b, k) == TruncateAll(a, k) + TruncateAll(b, k)
  {
    if b == [] {
      assert a + b == a;
    } else {
      assert (a + b)[..|a + b| - 1] == a + b[..|b| - 1];
      TruncateAllAppend(a, b[..|b| - 1], k);
    }
  }

  ghost function CutFn(k: int): Result -> multiset<Canon> {
    (r: Result) => multiset{CanonOf(Truncate(r, k))}
  }

  lemma {:induction false} CutAllIsSum(rs: seq<Result>, k: int)
    ensures CanonAll(TruncateAll(rs, k)) == MSum(CutFn(k), rs)
  {
    if rs != [] {
      var n := |rs| - 1;
      CutAllIsSum(rs[..n], k);
      CanonAllAppend(TruncateAll(rs[..n], k), [Truncate(rs[n], k)]);
      CanonAllOne(Truncate(rs[n], k));
    }
  }

  lemma TruncateParts(r: Result, k: int)
    ensures Truncate(r, k) == r.(kids := if k <= 0 then [] else TruncateAll(r.kids, k - 1))
    ensures CutFn(k)(r) == multiset{CanonOf(Truncate(r, k))}
  {
  }

  lemma {:induction false} TruncateAnyOrder(a: Result, b: Result, k: int)
    requires CanonOf(a) == CanonOf(b)
    ensures CanonOf(Truncate(a, k)) == CanonOf(Truncate(b, k))
    decreases a
  {
    hide *;
    TruncateParts(a, k);
    TruncateParts(b, k);
    CanonParts(a, b);
    CanonOfKids(a, Truncate(a, k).kids);
    CanonOfKids(b, Truncate(b, k).kids);
    if k > 0 {
      forall x, y | x in a.kids && y in b.kids && CanonOf(x) == CanonOf(y)
        ensures CutFn(k - 1)(x) == CutFn(k - 1)(y)
      {
        TruncateAnyOrder(x, y, k - 1);
        TruncateParts(x, k - 1);
        TruncateParts(y, k - 1);
      }
      Congruence(CutFn(k - 1), a.kids, b.kids);
      CutAllIsSum(a.kids, k - 1);
      CutAllIsSum(b.kids, k - 1);
    }
  }

  ghost predicate CutOf(big: Option<Result>, small: Option<Result>, k: int) {
    match big
    case None => small == None
    case Some(t) => small == Some(Truncate(t, k))
  }

  lemma {:induction false} DepthOfAnswer(log: seq<Instruction>, q: Plan, level: int, max: int)
    requires q.kids == []
    ensures CutOf(Answer(log, Call(q, level, max + 1)), Answer(log, Call(q, level, max)), max - level)
    decreases if level < max then max - level else 0
  {
    hide *;
    forall r
      ensures Shorter(RowAnswers(log, Call(q, level, max + 1), r), RowAnswers(log, Call(q, level, max), r), max - level)
    {
      DepthOfRow(log, q, level, max, r);
    }
    DepthOfKids(log, Call(q, level, max), Call(q, level, max + 1), max - level, RowsOf(log, q.id));
    CutFromKids(log, q, level, max);
  }

  lemma CutFromKids(log: seq<Instruction>, q: Plan, level: int, max: int)
    requires Shorter(FlatMap(AnswerFn(log), Spawns(Call(q, level, max + 1), RowsOf(log, q.id))),
                     FlatMap(AnswerFn(log), Spawns(Call(q, level, max), RowsOf(log, q.id))), max - level)
    ensures CutOf(Answer(log, Call(q, level, max + 1)), Answer(log, Call(q, level, max)), max - level)
  {
    AnswerUnfold(log, Call(q, level, max));
    AnswerUnfold(log, Call(q, level, max + 1));
  }

  ghost predicate Shorter(big: seq<Result>, small: seq<Result>, k: int) {
    small == if k <= 0 then [] else TruncateAll(big, k - 1)
  }

  lemma {:induction false} DepthOfRow(log: seq<Instruction>, q: Plan, level: int, max: int, r: Instruction)
    requires q.kids == []
    ensures Shorter(RowAnswers(log, Call(q, level, max + 1), r), RowAnswers(log, Call(q, level, max), r), max - level)
    decreases if level < max then max - level else 0, 0
  {
    hide *;
    var kid := FreshPlan(r.objectId, q.getDeleted);
    FreshHasNoKids(r.objectId, q.getDeleted);
    if level < max {
      DepthOfAnswer(log, kid, level + 1, max);
    }
    RowFromCut(log, q, level, max, r);
  }

  lemma FreshHasNoKids(id: string, getDeleted: bool)
    ensures FreshPlan(id, getDeleted).kids == []
  {
  }

  lemma RowFromCut(log: seq<Instruction>, q: Plan, level: int, max: int, r: Instruction)
    requires q.kids == []
    requires var kid := FreshPlan(r.objectId, q.getDeleted);
             level < max ==>
               CutOf(Answer(log, Call(kid, level + 1, max + 1)), Answer(log, Call(kid, level + 1, max)), max - (level + 1))
    ensures Shorter(RowAnswers(log, Call(q, level, max + 1), r), RowAnswers(log, Call(q, level, max), r), max - level)
  {
    hide Answer, Truncate;
    assert TruncateAll([], max - level - 1) == [];
    var t := Answer(log, Call(FreshPlan(r.objectId, q.getDeleted), level + 1, max + 1));
    if t.Some? {
      assert [t.value][..0] == [];
      assert TruncateAll([t.value], max - level - 1) == [Truncate(t.value, max - level - 1)];
    }
  }

  lemma {:induction false} DepthOfKids(log: seq<Instruction>, small: Call, big: Call, k: int, rows: seq<Instruction>)
    requires forall r :: Shorter(RowAnswers(log, big, r), RowAnswers(log, small, r), k)
    ensures Shorter(FlatMap(AnswerFn(log), Spawns(big, rows)), FlatMap(AnswerFn(log), Spawns(small, rows)), k)
  {
    if rows != [] {
      var n := |rows| - 1;
      DepthOfKids(log, small, big, k, rows[..n]);
      SpawnedAnswers(log, small, rows);
      SpawnedAnswers(log, big, rows);
      ShorterAppend(FlatMap(AnswerFn(log), Spawns(big, rows[..n])), FlatMap(AnswerFn(log), Spawns(small, rows[..n])),
                    RowAnswers(log, big, rows[n]), RowAnswers(log, small, rows[n]), k);
    }
  }

  lemma ShorterAppend(big: seq<Result>, small: seq<Result>, big': seq<Result>, small': seq<Result>, k: int)
    requires Shorter(big, small, k) && Shorter(big', small', k)
    ensures Shorter(big + big', small + small', k)
  {
    TruncateAllAppend(big, big', k - 1);
  }

  /** Without Collect, a run to depth d delivers the run to depth d + 1 with everything
      below depth d cut off, on any store. */
  lemma DepthMonotone(log: seq<Instruction>, q: Plan, d: int, small: Result, big: Result)
    requires q.kids == []
    requires Delivers(log, RootCall(q.(maxDepth := d)), small)
    requires Delivers(log, RootCall(q.(maxDepth := d + 1)), big)
    ensures CanonOf(small) == CanonOf(Truncate(big, d))
  {
    hide *;
    // The root's own maxDepth is not consulted again after Run has started it.
    OwnDepthUnused(log, q, d);
    OwnDepthUnused(log, q, d + 1);
    var less, more := Answer(log, Call(q, 0, d)), Answer(log, Call(q, 0, d + 1));
    DepthOfAnswer(log, q, 0, d);
    CutParts(more, less, d);
    DeliversParts(log, RootCall(q.(maxDepth := d)), small);
    DeliversParts(log, RootCall(q.(maxDepth := d + 1)), big);
    if more.Some? {
      TruncateAnyOrder(big, more.value, d);
    } else {
      TruncateEmpty(d);
    }
  }

  lemma TruncateEmpty(k: int)
    ensures Truncate(EMPTY, k) == EMPTY
  {
  }

  lemma CutParts(big: Option<Result>, small: Option<Result>, k: int)
    requires CutOf(big, small, k)
    ensures small == if big.Some? then Some(Truncate(big.value, k)) else None
  {
  }

  lemma OwnDepthUnused(log: seq<Instruction>, q: Plan, d: int)
    ensures Answer(log, RootCall(q.(maxDepth := d))) == Answer(log, Call(q, 0, d))
  {
    var c, c' := Call(q, 0, d), RootCall(q.(maxDepth := d));
    AnswerUnfold(log, c);
    AnswerUnfold(log, c');
    SameSpawns(c, c', RowsOf(log, q.id));
  }

  lemma {:induction false} SameSpawns(c: Call, c': Call, rows: seq<Instruction>)
    requires forall r :: SpawnOf(c, r) == SpawnOf(c', r)
    ensures Spawns(c, rows) == Spawns(c', rows)
  {
    if rows != [] {
      SameSpawns(c, c', rows[..|rows| - 1]);
    }
  }
}
