/** Which paths of stored rows show up in a result, and how often. */
module QueryPaths {
  import opened Seqs
  import opened Types
  import opened QueryModel
  import opened QueryRun

  // ---------------------------------------------------------------- paths in a result

  /** How many root-to-node paths of a result spell the ids. */
  function Occurrences(r: Result, ids: seq<string>): nat
    decreases r
  {
    if ids == [] || r.id != ids[0] then 0
    else if |ids| == 1 then 1
    else OccurrencesIn(r.kids, ids[1..])
  }

  function OccurrencesIn(rs: seq<Result>, ids: seq<string>): nat
    decreases rs
  {
    if rs == [] then 0 else OccurrencesIn(rs[..|rs| - 1], ids) + Occurrences(rs[|rs| - 1], ids)
  }

  // ---------------------------------------------------------------- paths in the store

  /** The node shows: it has rows, no delete mark unless allowed, and no property or edge
      name that its own query filters out. */
  ghost predicate Shows(log: seq<Instruction>, q: Plan) {
    (exists r :: r in log && r.subjectId == q.id) &&
    forall r :: r in log && r.subjectId == q.id ==>
      (r.pred == DELETE ==> q.getDeleted) && (r.pred in q.filterOut ==> r.pred == PARENT)
  }

  /** The row is followed from activation c to activation d: by the sub-query collecting
      its kind, which restarts at level 0 with its own depth, else while level < max. */
  ghost predicate Followed(c: Call, r: Instruction, d: Call) {
    && r.subjectId == c.q.id
    && r.pred != PARENT
    && r.objectId != ""
    && d.q.id == r.objectId
    && d.q.getDeleted == c.q.getDeleted
    && if exists k :: k in c.q.kids && k.kind == r.pred then
         (exists k :: k in c.q.kids && k.kind == r.pred &&
           d == Call(k.(id := d.q.id, getDeleted := d.q.getDeleted), 0, k.maxDepth))
       else
         c.level < c.max && d == Call(FreshPlan(d.q.id, d.q.getDeleted), c.level + 1, c.max)
  }

  /** The rows log[path[0]], log[path[1]], ... lead from activation c through the
      activations cs along the entities ids, all of which show. */
  ghost predicate Trail(log: seq<Instruction>, c: Call, path: seq<nat>, ids: seq<string>, cs: seq<Call>) {
    && |cs| == |ids| == |path| + 1
    && cs[0] == c
    && (forall i :: 0 <= i < |cs| ==> cs[i].q.id == ids[i] && Shows(log, cs[i].q))
    && (forall i :: 0 <= i < |path| ==> path[i] < |log| && Followed(cs[i], log[path[i]], cs[i + 1]))
  }

  /** Collect never adds two sub-queries of one kind. */
  ghost predicate DistinctKinds(p: Plan)
    decreases p
  {
    (forall i, j :: 0 <= i < j < |p.kids| ==> p.kids[i].kind != p.kids[j].kind) &&
    forall k :: k in p.kids ==> DistinctKinds(k)
  }

  lemma ShowsIsVisible(log: seq<Instruction>, q: Plan)
    ensures Shows(log, q) <==> Visible(q, RowsOf(log, q.id))
  {
    RowsOfAll(log, q.id);
    if Visible(q, RowsOf(log, q.id)) {
      assert RowsOf(log, q.id)[0] in RowsOf(log, q.id);
    }
  }

  lemma FollowedIsSpawn(c: Call, r: Instruction, d: Call)
    requires DistinctKinds(c.q)
    ensures Followed(c, r, d) <==> r.subjectId == c.q.id && SpawnOf(c, r) == Some(d)
  {
    FollowFound(c.q.kids, r.pred);
  }

  lemma SpawnDistinct(c: Call, r: Instruction)
    requires DistinctKinds(c.q) && SpawnOf(c, r).Some?
    ensures DistinctKinds(SpawnOf(c, r).value.q)
  {
    FollowFound(c.q.kids, r.pred);
  }

  // ---------------------------------------------------------------- counting

  /** The trails from c along ids, as index paths. */
  ghost function Walks(log: seq<Instruction>, c: Call, ids: seq<string>): set<seq<nat>>
    decreases |ids|, |log| + 1
  {
    if ids == [] || c.q.id != ids[0] || !Shows(log, c.q) then {}
    else if |ids| == 1 then {[]}
    else WalksFrom(log, c, |log|, ids)
  }

  ghost function Prefixed(i: nat, s: set<seq<nat>>): set<seq<nat>> {
    set p | p in s :: [i] + p
  }

  ghost function WalksFrom(log: seq<Instruction>, c: Call, n: nat, ids: seq<string>): set<seq<nat>>
    requires n <= |log| && |ids| > 1
    decreases |ids|, n
  {
    if n == 0 then {}
    else
      WalksFrom(log, c, n - 1, ids) +
      if Leads(c, log[n - 1])
      then Prefixed(n - 1, Walks(log, SpawnOf(c, log[n - 1]).value, ids[1..]))
      else {}
  }

  lemma {:induction false} PrefixedSize(i: nat, s: set<seq<nat>>)
    ensures |Prefixed(i, s)| == |s|
  {
    if s == {} {
      assert Prefixed(i, s) == {};
    } else {
      var p :| p in s;
      PrefixedSize(i, s - {p});
      assert Prefixed(i, s) == Prefixed(i, s - {p}) + {[i] + p};
      forall p' | p' in s - {p}
        ensures [i] + p' != [i] + p
      {
        assert ([i] + p')[1..] == p' && ([i] + p)[1..] == p;
      }
    }
  }

  lemma {:induction false} WalksFromStart(log: seq<Instruction>, c: Call, n: nat, ids: seq<string>, p: seq<nat>)
    requires n <= |log| && |ids| > 1
    ensures p in WalksFrom(log, c, n, ids) <==>
            p != [] && p[0] < n && Leads(c, log[p[0]]) &&
            p[1..] in Walks(log, SpawnOf(c, log[p[0]]).value, ids[1..])
    decreases n
  {
    if n > 0 {
      WalksFromStart(log, c, n - 1, ids, p);
      if p != [] && p[0] == n - 1 {
        assert p == [n - 1] + p[1..];
      }
    }
  }

  lemma OccurrencesInAppend(a: seq<Result>, b: seq<Result>, ids: seq<string>)
    ensures OccurrencesIn(a + b, ids) == OccurrencesIn(a, ids) + OccurrencesIn(b, ids)
  {
    if b == [] {
      assert a + b == a;
    } else {
      assert (a + b)[..|a + b| - 1] == a + b[..|b| - 1];
      OccurrencesInAppend(a, b[..|b| - 1], ids);
    }
  }

  ghost function AnswerOccurrences(log: seq<Instruction>, c: Call, ids: seq<string>): nat {
    match Answer(log, c) case Some(t) => Occurrences(t, ids) case None => 0
  }

  /** The subtrees that one stored row contributes below activation c. */
  ghost function KidFn(log: seq<Instruction>, c: Call): Instruction -> seq<Result> {
    (r: Instruction) =>
      if r.subjectId == c.q.id then (match SpawnOf(c, r) case Some(d) => AnswerFn(log)(d) case None => []) else []
  }

  lemma KidOfRow(log: seq<Instruction>, c: Call, r: Instruction)
    ensures FlatMap(AnswerFn(log), Spawns(c, SubjectFn(c.q.id)(r))) == KidFn(log, c)(r)
  {
    if r.subjectId == c.q.id {
      FlatMapOne(SpawnFn(c), r);
      if SpawnOf(c, r).Some? {
        FlatMapOne(AnswerFn(log), SpawnOf(c, r).value);
      }
    }
  }

  /** The children of an answer, row by row of the whole store. */
  lemma {:induction false} KidsOfRows(log: seq<Instruction>, c: Call, rows: seq<Instruction>)
    ensures FlatMap(AnswerFn(log), Spawns(c, RowsOf(rows, c.q.id))) == FlatMap(KidFn(log, c), rows)
  {
    if rows != [] {
      var n := |rows| - 1;
      var mine, last := RowsOf(rows[..n], c.q.id), SubjectFn(c.q.id)(rows[n]);
      KidsOfRows(log, c, rows[..n]);
      KidOfRow(log, c, rows[n]);
      FlatMapAppend(SpawnFn(c), mine, last);
      FlatMapAppend(AnswerFn(log), Spawns(c, mine), Spawns(c, last));
    }
  }

  lemma {:induction false} WalksCounted(log: seq<Instruction>, c: Call, ids: seq<string>)
    ensures |Walks(log, c, ids)| == AnswerOccurrences(log, c, ids)
    decreases |ids|, |log| + 1
  {
    ShowsIsVisible(log, c.q);
    AnswerUnfold(log, c);
    if |ids| > 1 && c.q.id == ids[0] && Shows(log, c.q) {
      WalksFromCounted(log, c, |log|, ids);
      assert log[..|log|] == log;
      KidsOfRows(log, c, log);
    }
  }

  lemma {:induction false} WalksFromCounted(log: seq<Instruction>, c: Call, n: nat, ids: seq<string>)
    requires n <= |log| && |ids| > 1
    ensures |WalksFrom(log, c, n, ids)| == OccurrencesIn(FlatMap(KidFn(log, c), log[..n]), ids[1..])
    decreases |ids|, n
  {
    if n == 0 {
      hide Walks, Occurrences, KidFn;
      assert log[..0] == [];
      assert WalksFrom(log, c, 0, ids) == {} && FlatMap(KidFn(log, c), log[..0]) == [];
    } else {
      hide *;
      WalksFromCounted(log, c, n - 1, ids);
      WalksFromStep(log, c, n, ids);
      KidOccurrences(log, c, n, ids[1..]);
      if Leads(c, log[n - 1]) {
        WalksCounted(log, SpawnOf(c, log[n - 1]).value, ids[1..]);
      }
    }
  }

  predicate Leads(c: Call, r: Instruction) {
    r.subjectId == c.q.id && SpawnOf(c, r).Some?
  }

  lemma KidOccurrences(log: seq<Instruction>, c: Call, n: nat, ids: seq<string>)
    requires 0 < n <= |log|
    ensures OccurrencesIn(FlatMap(KidFn(log, c), log[..n]), ids) ==
            OccurrencesIn(FlatMap(KidFn(log, c), log[..n - 1]), ids) +
            if Leads(c, log[n - 1])
            then AnswerOccurrences(log, SpawnOf(c, log[n - 1]).value, ids) else 0
  {
    var r := log[n - 1];
    FlatMapTake(KidFn(log, c), log, n);
    OccurrencesInAppend(FlatMap(KidFn(log, c), log[..n - 1]), KidFn(log, c)(r), ids);
    if r.subjectId == c.q.id && SpawnOf(c, r).Some? {
      OneOccurrence(log, SpawnOf(c, r).value, ids);
    }
  }

  lemma OneOccurrence(log: seq<Instruction>, d: Call, ids: seq<string>)
    ensures OccurrencesIn(AnswerFn(log)(d), ids) == AnswerOccurrences(log, d, ids)
  {
    var one := AnswerFn(log)(d);
    if one != [] {
      assert one[..0] == [];
    }
  }

  lemma WalksApart(log: seq<Instruction>, c: Call, n: nat, ids: seq<string>, s: set<seq<nat>>)
    requires n <= |log| && |ids| > 1
    ensures WalksFrom(log, c, n, ids) !! Prefixed(n, s)
  {
    forall p | p in WalksFrom(log, c, n, ids)
      ensures p !in Prefixed(n, s)
    {
      WalksFromStart(log, c, n, ids, p);
    }
  }

  lemma DisjointSize<T>(a: set<T>, b: set<T>)
    requires a !! b
    ensures |a + b| == |a| + |b|
  {
  }

  lemma WalksFromStep(log: seq<Instruction>, c: Call, n: nat, ids: seq<string>)
    requires 0 < n <= |log| && |ids| > 1
    ensures |WalksFrom(log, c, n, ids)| ==
            |WalksFrom(log, c, n - 1, ids)| +
            if Leads(c, log[n - 1]) then |Walks(log, SpawnOf(c, log[n - 1]).value, ids[1..])| else 0
  {
    WalksFromLast(log, c, n, ids);
    if Leads(c, log[n - 1]) {
      var b := Walks(log, SpawnOf(c, log[n - 1]).value, ids[1..]);
      PrefixedSize(n - 1, b);
      WalksApart(log, c, n - 1, ids, b);
      DisjointSize(WalksFrom(log, c, n - 1, ids), Prefixed(n - 1, b));
    }
  }

  lemma WalksFromLast(log: seq<Instruction>, c: Call, n: nat, ids: seq<string>)
    requires 0 < n <= |log| && |ids| > 1
    ensures WalksFrom(log, c, n, ids) ==
            if Leads(c, log[n - 1])
            then WalksFrom(log, c, n - 1, ids) + Prefixed(n - 1, Walks(log, SpawnOf(c, log[n - 1]).value, ids[1..]))
            else WalksFrom(log, c, n - 1, ids)
  {
  }

  // ---------------------------------------------------------------- trails and walks

  lemma {:induction false} WalkHasTrail(log: seq<Instruction>, c: Call, ids: seq<string>, path: seq<nat>) returns (cs: seq<Call>)
    requires DistinctKinds(c.q) && path in Walks(log, c, ids)
    ensures Trail(log, c, path, ids, cs)
    decreases |ids|
  {
    if |ids| == 1 {
      cs := [c];
    } else {
      WalksFromStart(log, c, |log|, ids, path);
      var r := log[path[0]];
      var d := SpawnOf(c, r).value;
      FollowedIsSpawn(c, r, d);
      SpawnDistinct(c, r);
      var rest := WalkHasTrail(log, d, ids[1..], path[1..]);
      cs := [c] + rest;
      forall i | 0 <= i < |path|
        ensures path[i] < |log| && Followed(cs[i], log[path[i]], cs[i + 1])
      {
        if i > 0 {
          assert path[i] == path[1..][i - 1];
        }
      }
      forall i | 0 <= i < |cs|
        ensures cs[i].q.id == ids[i] && Shows(log, cs[i].q)
      {
        if i > 0 {
          assert ids[i] == ids[1..][i - 1];
        }
      }
    }
  }

  lemma {:induction false} TrailIsWalk(log: seq<Instruction>, c: Call, ids: seq<string>, path: seq<nat>, cs: seq<Call>)
    requires DistinctKinds(c.q) && Trail(log, c, path, ids, cs)
    ensures path in Walks(log, c, ids)
    decreases |ids|
  {
    if |ids| > 1 {
      var r := log[path[0]];
      assert Followed(cs[0], r, cs[1]);
      FollowedIsSpawn(c, r, cs[1]);
      SpawnDistinct(c, r);
      forall i | 0 <= i < |path[1..]|
        ensures path[1..][i] < |log| && Followed(cs[1..][i], log[path[1..][i]], cs[1..][i + 1])
      {
        assert path[1..][i] == path[i + 1];
      }
      TrailIsWalk(log, cs[1], ids[1..], path[1..], cs[1..]);
      WalksFromStart(log, c, |log|, ids, path);
    } else {
      assert path == [];
    }
  }

  // ---------------------------------------------------------------- the result of a run

  function Copies(ids: seq<string>): Result -> multiset<()> {
    (r: Result) => multiset{}[() := Occurrences(r, ids)]
  }

  lemma {:induction false} OccurrencesAsSum(rs: seq<Result>, ids: seq<string>)
    ensures MSum(Copies(ids), rs)[()] == OccurrencesIn(rs, ids)
  {
    if rs != [] {
      OccurrencesAsSum(rs[..|rs| - 1], ids);
    }
  }

  lemma {:induction false} OccurrencesAnyOrder(a: Result, b: Result, ids: seq<string>)
    requires CanonOf(a) == CanonOf(b)
    ensures Occurrences(a, ids) == Occurrences(b, ids)
    decreases |ids|
  {
    if |ids| > 1 {
      forall x, y | x in a.kids && y in b.kids && CanonOf(x) == CanonOf(y)
        ensures Copies(ids[1..])(x) == Copies(ids[1..])(y)
      {
        OccurrencesAnyOrder(x, y, ids[1..]);
      }
      Congruence(Copies(ids[1..]), a.kids, b.kids);
      OccurrencesAsSum(a.kids, ids[1..]);
      OccurrencesAsSum(b.kids, ids[1..]);
    }
  }

  /** On any store, cyclic or not, the number of times a path of entities appears in the
      result of a run is the number of paths of rows along it whose every edge is followed
      and whose every node shows. */
  lemma PathCharacterisation(log: seq<Instruction>, c: Call, m: Result, ids: seq<string>) returns (paths: set<seq<nat>>)
    requires DistinctKinds(c.q) && Delivers(log, c, m)
    requires ids != [] && ids[0] == c.q.id != ""
    ensures forall p :: p in paths <==> exists cs :: Trail(log, c, p, ids, cs)
    ensures Occurrences(m, ids) == |paths|
  {
    paths := Walks(log, c, ids);
    forall p
      ensures p in paths <==> exists cs :: Trail(log, c, p, ids, cs)
    {
      if p in paths {
        var cs := WalkHasTrail(log, c, ids, p);
      }
      if cs :| Trail(log, c, p, ids, cs) {
        TrailIsWalk(log, c, ids, p, cs);
      }
    }
    WalksCounted(log, c, ids);
    if Answer(log, c).Some? {
      OccurrencesAnyOrder(m, Answer(log, c).value, ids);
    }
  }
}
