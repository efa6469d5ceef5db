/** On the stores that Execute builds, a query result mentions each entity at most once. */
module ForestQuery {
  import opened Seqs
  import opened Types
  import opened QueryModel
  import opened QueryRun
  import opened QueryPaths
  import opened Forest

  /** All entities of a result, with multiplicity. */
  function IdsOf(r: Result): multiset<string>
    decreases r
  {
    multiset{r.id} + IdsOfAll(r.kids)
  }

  function IdsOfAll(rs: seq<Result>): multiset<string>
    decreases rs
  {
    if rs == [] then multiset{} else IdsOfAll(rs[..|rs| - 1]) + IdsOf(rs[|rs| - 1])
  }

  lemma {:induction false} IdsOfAllAppend(a: seq<Result>, b: seq<Result>)
    ensures IdsOfAll(a + b) == IdsOfAll(a) + IdsOfAll(b)
  {
    if b == [] {
      assert a + b == a;
    } else {
      assert (a + b)[..|a + b| - 1] == a + b[..|b| - 1];
      IdsOfAllAppend(a, b[..|b| - 1]);
    }
  }

  lemma EdgeParent(log: seq<Instruction>, i: int)
    requires IsForest(log) && 0 <= i < |log| && IsEdge(log[i])
    ensures ParentOf(log, log[i].objectId) == Some(log[i].subjectId)
  {
    assert HasBack(log, i);
    var j :| Paired(log, i, j);
    ParentRow(log, j);
  }

  /** id sits below edge i of activation c: going up from it reaches the edge's target. */
  ghost predicate Through(log: seq<Instruction>, c: Call, i: int, id: string, k: nat) {
    0 <= i < |log| && Leads(c, log[i]) && Up(log, id, k) == Some(log[i].objectId)
  }

  ghost predicate BelowEdge(log: seq<Instruction>, c: Call, i: int, id: string) {
    exists k: nat :: Through(log, c, i, id, k)
  }

  ghost function AnswerIds(log: seq<Instruction>, c: Call): multiset<string> {
    match Answer(log, c) case Some(t) => IdsOf(t) case None => multiset{}
  }

  lemma IdsOfOne(t: Result)
    ensures IdsOfAll([t]) == IdsOf(t)
  {
    assert [t][..0] == [];
    assert IdsOfAll([t]) == IdsOfAll([t][..0]) + IdsOf(t);
  }

  lemma KidIds(log: seq<Instruction>, c: Call, r: Instruction)
    ensures IdsOfAll(KidFn(log, c)(r)) == if Leads(c, r) then AnswerIds(log, SpawnOf(c, r).value) else multiset{}
  {
    hide Answer;
    if Leads(c, r) {
      var d := SpawnOf(c, r).value;
      assert KidFn(log, c)(r) == AnswerFn(log)(d);
      if Answer(log, d).Some? {
        IdsOfOne(Answer(log, d).value);
      }
    }
  }

  /** What both induction claims say about one activation: everything in its answer has the
      activation's entity above it, and is there once. */
  ghost predicate Tidy(log: seq<Instruction>, id: string, ids: multiset<string>) {
    forall x :: x in ids ==> ids[x] == 1 && exists k: nat :: Up(log, x, k) == Some(id)
  }

  lemma {:induction false} AnswerTidy(log: seq<Instruction>, c: Call)
    requires IsForest(log)
    ensures Tidy(log, c.q.id, AnswerIds(log, c))
    decreases Height(c.q), Gap(c), 1
  {
    hide IsForest, Answer, Answers, IdsOfAll, Through, Up;
    AnswerUnfold(log, c);
    KidsOfRows(log, c, log);
    if Answer(log, c).Some? {
      PrefixTidy(log, c, |log|);
      assert log[..|log|] == log;
      var kids := IdsOfAll(FlatMap(KidFn(log, c), log));
      UpZero(log, c.q.id);
      forall x | x in kids
        ensures x != c.q.id && exists k: nat :: Up(log, x, k) == Some(c.q.id)
      {
        var i :| i < |log| && BelowEdge(log, c, i, x);
        var k: nat :| Through(log, c, i, x, k);
        ThroughUp(log, c, i, x, k);
      }
      assert AnswerIds(log, c) == multiset{c.q.id} + kids;
    }
  }

  lemma UpZero(log: seq<Instruction>, id: string)
    ensures Up(log, id, 0) == Some(id)
  {
  }

  lemma ThroughUp(log: seq<Instruction>, c: Call, i: int, x: string, k: nat)
    requires IsForest(log) && Through(log, c, i, x, k)
    ensures Up(log, x, k + 1) == Some(c.q.id) && x != c.q.id
    ensures 0 <= i < |log| && IsEdge(log[i]) && Up(log, x, k) == Some(log[i].objectId)
  {
    EdgeParent(log, i);
    Acyclic(log, c.q.id, k + 1);
  }

  ghost predicate PrefixOk(log: seq<Instruction>, c: Call, n: nat, ids: multiset<string>) {
    forall x :: x in ids ==> ids[x] == 1 && exists i :: i < n && BelowEdge(log, c, i, x)
  }

  lemma {:induction false} PrefixTidy(log: seq<Instruction>, c: Call, n: nat)
    requires IsForest(log) && n <= |log|
    ensures PrefixOk(log, c, n, IdsOfAll(FlatMap(KidFn(log, c), log[..n])))
    decreases Height(c.q), Gap(c), 0, n
  {
    if n > 0 {
      PrefixTidy(log, c, n - 1);
      hide *;
      var before := IdsOfAll(FlatMap(KidFn(log, c), log[..n - 1]));
      FlatMapTake(KidFn(log, c), log, n);
      IdsOfAllAppend(FlatMap(KidFn(log, c), log[..n - 1]), KidFn(log, c)(log[n - 1]));
      KidIds(log, c, log[n - 1]);
      if Leads(c, log[n - 1]) {
        LeadsBelow(c, log[n - 1]);
        AnswerTidy(log, SpawnOf(c, log[n - 1]).value);
        PrefixStep(log, c, n, before, AnswerIds(log, SpawnOf(c, log[n - 1]).value));
      } else {
        assert before + multiset{} == before;
        PrefixWeaker(log, c, n, before);
      }
    }
  }

  lemma LeadsBelow(c: Call, r: Instruction)
    requires Leads(c, r)
    ensures SpawnOf(c, r).Some?
    ensures var x := SpawnOf(c, r).value;
            Height(x.q) < Height(c.q) || (Height(x.q) == Height(c.q) && Gap(x) < Gap(c))
  {
    SpawnBelow(c, r);
  }

  lemma PrefixWeaker(log: seq<Instruction>, c: Call, n: nat, ids: multiset<string>)
    requires n > 0 && PrefixOk(log, c, n - 1, ids)
    ensures PrefixOk(log, c, n, ids)
  {
    hide BelowEdge;
  }

  lemma PrefixStep(log: seq<Instruction>, c: Call, n: nat, before: multiset<string>, last: multiset<string>)
    requires IsForest(log) && 0 < n <= |log| && Leads(c, log[n - 1]) && PrefixOk(log, c, n - 1, before)
    requires Tidy(log, SpawnOf(c, log[n - 1]).value.q.id, last)
    ensures PrefixOk(log, c, n, before + last)
  {
    hide IsForest, Up, Through;
    forall x | x in last
      ensures x !in before && BelowEdge(log, c, n - 1, x)
    {
      var k: nat :| Up(log, x, k) == Some(SpawnOf(c, log[n - 1]).value.q.id);
      ThroughLast(log, c, n - 1, x, k);
      if x in before {
        var i :| i < n - 1 && BelowEdge(log, c, i, x);
        var k': nat :| Through(log, c, i, x, k');
        OneWayUp(log, c, i, k', n - 1, k, x);
      }
    }
  }

  lemma ThroughLast(log: seq<Instruction>, c: Call, i: int, x: string, k: nat)
    requires 0 <= i < |log| && Leads(c, log[i]) && Up(log, x, k) == Some(SpawnOf(c, log[i]).value.q.id)
    ensures Through(log, c, i, x, k)
  {
  }

  lemma TargetsDiffer(log: seq<Instruction>, i: int, j: int)
    requires IsForest(log) && i != j && 0 <= i < |log| && 0 <= j < |log| && IsEdge(log[i]) && IsEdge(log[j])
    ensures log[i].objectId != log[j].objectId
  {
    if j < i {
      TargetsDiffer(log, j, i);
    }
  }

  /** An entity cannot sit below two edges of one parent. */
  lemma OneWayUp(log: seq<Instruction>, c: Call, i: int, k: nat, j: int, l: nat, x: string)
    requires IsForest(log) && i != j && Through(log, c, i, x, k)
    ensures !Through(log, c, j, x, l)
  {
    hide *;
    if Through(log, c, j, x, l) {
      ThroughUp(log, c, i, x, k);
      ThroughUp(log, c, j, x, l);
      TargetsDiffer(log, i, j);
      if k < l {
        UpTwice(log, x, k + 1, l - k);
        Acyclic(log, c.q.id, l - k);
      } else if l < k {
        UpTwice(log, x, l + 1, k - l);
        Acyclic(log, c.q.id, k - l);
      }
    }
  }

  // ---------------------------------------------------------------- for delivered results

  ghost function IdsFn(): Result -> multiset<string> {
    (r: Result) => IdsOf(r)
  }

  lemma {:induction false} IdsAsSum(rs: seq<Result>)
    ensures IdsOfAll(rs) == MSum(IdsFn(), rs)
  {
    if rs != [] {
      IdsAsSum(rs[..|rs| - 1]);
    }
  }

  lemma {:induction false} IdsAnyOrder(a: Result, b: Result)
    requires CanonOf(a) == CanonOf(b)
    ensures IdsOf(a) == IdsOf(b)
    decreases a
  {
    CanonParts(a, b);
    hide CanonOf, CanonAll;
    forall x, y | x in a.kids && y in b.kids && CanonOf(x) == CanonOf(y)
      ensures IdsFn()(x) == IdsFn()(y)
    {
      IdsAnyOrder(x, y);
    }
    Congruence(IdsFn(), a.kids, b.kids);
    IdsAsSum(a.kids);
    IdsAsSum(b.kids);
  }

  /** Whatever a run over a forest delivers, to any depth and with any sub-queries, lists
      each entity at most once. */
  lemma EachEntityOnce(log: seq<Instruction>, c: Call, m: Result, id: string)
    requires IsForest(log) && c.q.id != "" && Delivers(log, c, m)
    ensures IdsOf(m)[id] <= 1
  {
    hide CanonOf, IsForest, Answer;
    AnswerTidy(log, c);
    DeliversParts(log, c, m);
    if Answer(log, c).Some? {
      IdsAnyOrder(m, Answer(log, c).value);
    }
  }
}
