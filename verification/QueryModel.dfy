/** Queries as values and what they mean: the tree that the recursion of
    store/query.go:162-277 builds when every child is answered in row order. */
module QueryModel {
  import opened Seqs
  import opened Types

  /** A Query and, below it, the sub-queries added by Collect. */
  datatype Plan = Plan(
    kind: string,
    id: string,
    filterOut: set<string>,
    maxDepth: int,
    kids: seq<Plan>,
    getDeleted: bool)

  /** The fresh Query that plain depth traversal starts on a child: no sub-queries and no
      filters, whatever the parent has. */
  function FreshPlan(id: string, getDeleted: bool): Plan {
    Plan("", id, {}, 0, [], getDeleted)
  }

  /** One activation of doRun. */
  datatype Call = Call(q: Plan, level: int, max: int)

  /** Run starts the root at level 0 with its own depth. */
  function RootCall(q: Plan): Call {
    Call(q, 0, q.maxDepth)
  }

  datatype Object = Object(value: string, source: string, nanoTs: int)

  datatype Result = Result(id: string, kind: string, cols: map<string, seq<Object>>, kids: seq<Result>)

  /** new(Result), the answer for an absent or discarded entity. */
  const EMPTY := Result("", "", map[], [])

  // ---------------------------------------------------------------- following edges

  /** The `follow` map: a later sub-query of the same kind replaces an earlier one. */
  function Follow(kids: seq<Plan>, kind: string): Option<Plan> {
    if kids == [] then None
    else if kids[|kids| - 1].kind == kind then Some(kids[|kids| - 1])
    else Follow(kids[..|kids| - 1], kind)
  }

  /** The activation a row starts, if any: a matching sub-query restarts at level 0 with
      its own depth; otherwise plain depth goes one level down. */
  function SpawnOf(c: Call, r: Instruction): Option<Call> {
    if r.pred == PARENT || r.objectId == "" then None
    else match Follow(c.q.kids, r.pred)
      case Some(k) =>
        Some(Call(k.(id := r.objectId, getDeleted := c.q.getDeleted), 0, k.maxDepth))
      case None =>
        if c.level < c.max then Some(Call(FreshPlan(r.objectId, c.q.getDeleted), c.level + 1, c.max))
        else None
  }

  function SpawnFn(c: Call): Instruction -> seq<Call> {
    (r: Instruction) => match SpawnOf(c, r) case Some(x) => [x] case None => []
  }

  function Spawns(c: Call, rows: seq<Instruction>): seq<Call> {
    FlatMap(SpawnFn(c), rows)
  }

  // ---------------------------------------------------------------- one entity

  /** A row that makes doRun answer with the empty result. */
  predicate Discards(q: Plan, r: Instruction) {
    (r.pred == DELETE && !q.getDeleted) || (r.pred != PARENT && r.pred in q.filterOut)
  }

  ghost predicate Visible(q: Plan, rows: seq<Instruction>) {
    rows != [] && forall r :: r in rows ==> !Discards(q, r)
  }

  predicate IsProperty(r: Instruction) {
    r.pred != PARENT && r.objectId == ""
  }

  function ObjectOf(r: Instruction): Object {
    Object(r.obj, r.source, r.nanoTs)
  }

  function VersionFn(p: string): Instruction -> seq<Object> {
    (r: Instruction) => if IsProperty(r) && r.pred == p then [ObjectOf(r)] else []
  }

  function VersionsOf(rows: seq<Instruction>, p: string): seq<Object> {
    FlatMap(VersionFn(p), rows)
  }

  function PropertyNames(rows: seq<Instruction>): set<string> {
    set r | r in rows && IsProperty(r) :: r.pred
  }

  function Columns(rows: seq<Instruction>): map<string, seq<Object>> {
    map p | p in PropertyNames(rows) :: VersionsOf(rows, p)
  }

  /** The first row with the smallest timestamp. */
  function Earliest(rows: seq<Instruction>): Instruction
    requires rows != []
  {
    if |rows| == 1 then rows[0]
    else
      var e := Earliest(rows[..|rows| - 1]);
      if rows[|rows| - 1].nanoTs < e.nanoTs then rows[|rows| - 1] else e
  }

  // ---------------------------------------------------------------- termination measure

  /** Height of the tree of Collect sub-queries. */
  function Height(p: Plan): nat
    decreases p
  {
    MaxHeight(p.kids)
  }

  function MaxHeight(kids: seq<Plan>): (h: nat)
    ensures forall k :: k in kids ==> Height(k) < h
    decreases kids
  {
    if kids == [] then 0
    else
      var h := MaxHeight(kids[1..]);
      var k := Height(kids[0]);
      assert kids == [kids[0]] + kids[1..];
      if k < h then h else k + 1
  }

  function Gap(c: Call): nat {
    if c.level < c.max then c.max - c.level else 0
  }

  /** The lexicographic measure (remaining Collect height, remaining depth). */
  ghost predicate Below(x: Call, c: Call) {
    Height(x.q) < Height(c.q) || (Height(x.q) == Height(c.q) && Gap(x) < Gap(c))
  }

  lemma {:induction false} FollowFound(kids: seq<Plan>, kind: string)
    ensures Follow(kids, kind).Some? ==> Follow(kids, kind).value in kids && Follow(kids, kind).value.kind == kind
    ensures Follow(kids, kind).None? <==> forall k :: k in kids ==> k.kind != kind
  {
    if kids != [] {
      var n := |kids| - 1;
      FollowFound(kids[..n], kind);
      assert kids == kids[..n] + [kids[n]];
    }
  }

  /** Of several sub-queries of one kind the last one is followed. */
  lemma {:induction false} LastIsFollowed(kids: seq<Plan>, i: nat)
    requires i < |kids| && forall j :: i < j < |kids| ==> kids[j].kind != kids[i].kind
    ensures Follow(kids, kids[i].kind) == Some(kids[i])
  {
    if i < |kids| - 1 {
      LastIsFollowed(kids[..|kids| - 1], i);
    }
  }

  /** Every activation that a row starts is smaller than the one that starts it, whatever
      the stored graph looks like. */
  lemma SpawnBelow(c: Call, r: Instruction)
    ensures SpawnOf(c, r).Some? ==> Below(SpawnOf(c, r).value, c)
  {
    FollowFound(c.q.kids, r.pred);
    match Follow(c.q.kids, r.pred)
    case Some(k) =>
      assert Height(k.(id := r.objectId, getDeleted := c.q.getDeleted)) == Height(k);
    case None =>
      assert Height(FreshPlan(r.objectId, c.q.getDeleted)) == 0;
  }

  lemma SpawnsBelow(c: Call, rows: seq<Instruction>)
    ensures forall x :: x in Spawns(c, rows) ==> Below(x, c)
  {
    forall x | x in Spawns(c, rows)
      ensures Below(x, c)
    {
      FlatMapMember(SpawnFn(c), rows, x);
      var i :| 0 <= i < |rows| && x in SpawnFn(c)(rows[i]);
      SpawnBelow(c, rows[i]);
    }
  }

  // ---------------------------------------------------------------- the sequential answer

  /** The tree for one activation over a fixed store; None is the empty result. Cyclic and
      self-linked stores are allowed: the recursion descends on Height and Gap. */
  ghost function Answer(log: seq<Instruction>, c: Call): Option<Result>
    decreases Height(c.q), Gap(c), 1
  {
    var rows := RowsOf(log, c.q.id);
    if Visible(c.q, rows) then
      SpawnsBelow(c, rows);
      Some(Result(c.q.id, Earliest(rows).subjectType, Columns(rows), Answers(log, c, Spawns(c, rows))))
    else None
  }

  ghost function Answers(log: seq<Instruction>, c: Call, calls: seq<Call>): seq<Result>
    requires forall x :: x in calls ==> Below(x, c)
    decreases Height(c.q), Gap(c), 0, |calls|
  {
    if calls == [] then []
    else
      var n := |calls| - 1;
      assert Below(calls[n], c);
      Answers(log, c, calls[..n]) + (match Answer(log, calls[n]) case Some(r) => [r] case None => [])
  }

  ghost function AnswerFn(log: seq<Instruction>): Call -> seq<Result> {
    (c: Call) => match Answer(log, c) case Some(r) => [r] case None => []
  }

  lemma {:induction false} AnswersFlat(log: seq<Instruction>, c: Call, calls: seq<Call>)
    requires forall x :: x in calls ==> Below(x, c)
    ensures Answers(log, c, calls) == FlatMap(AnswerFn(log), calls)
  {
    if calls != [] {
      AnswersFlat(log, c, calls[..|calls| - 1]);
    }
  }

  /** The equation of Answer with the children as one flat list. */
  lemma AnswerUnfold(log: seq<Instruction>, c: Call)
    ensures var rows := RowsOf(log, c.q.id);
            Answer(log, c) ==
              if Visible(c.q, rows) then
                Some(Result(c.q.id, Earliest(rows).subjectType, Columns(rows),
                            FlatMap(AnswerFn(log), Spawns(c, rows))))
              else None
  {
    var rows := RowsOf(log, c.q.id);
    SpawnsBelow(c, rows);
    AnswersFlat(log, c, Spawns(c, rows));
  }

  // ---------------------------------------------------------------- up to order

  /** A result with the order of children, and of versions within a column, forgotten. */
  datatype Canon = Canon(id: string, cols: map<string, multiset<Object>>, kids: multiset<Canon>)

  ghost function CanonOf(r: Result): Canon
    decreases r
  {
    Canon(r.id, map p | p in r.cols :: multiset(r.cols[p]), CanonAll(r.kids))
  }

  ghost function CanonAll(rs: seq<Result>): multiset<Canon>
    decreases rs
  {
    if rs == [] then multiset{}
    else CanonAll(rs[..|rs| - 1]) + multiset{CanonOf(rs[|rs| - 1])}
  }

  ghost function CanonFn(): Result -> multiset<Canon> {
    Single(CanonKey())
  }

  ghost function CanonKey(): Result -> Canon {
    (r: Result) => CanonOf(r)
  }

  lemma {:induction false} CanonAllIsSum(rs: seq<Result>)
    ensures CanonAll(rs) == MSum(CanonFn(), rs)
  {
    if rs != [] {
      CanonAllIsSum(rs[..|rs| - 1]);
    }
  }

  lemma CanonAllAppend(a: seq<Result>, b: seq<Result>)
    ensures CanonAll(a + b) == CanonAll(a) + CanonAll(b)
  {
    CanonAllIsSum(a);
    CanonAllIsSum(b);
    CanonAllIsSum(a + b);
    MSumAppend(CanonFn(), a, b);
  }

  lemma CanonAllOne(r: Result)
    ensures CanonAll([r]) == multiset{CanonOf(r)}
  {
    CanonAllIsSum([r]);
    MSumOne(CanonFn(), r);
  }

  lemma CanonAllReordered(a: seq<Result>, b: seq<Result>)
    requires multiset(a) == multiset(b)
    ensures CanonAll(a) == CanonAll(b)
  {
    CanonAllIsSum(a);
    CanonAllIsSum(b);
    MSumPerm(CanonFn(), a, b);
  }

  /** What order forgetting leaves out and the code still guarantees: in every node each
      column runs in time order, and the kind is that of an earliest row. */
  ghost predicate Faithful(log: seq<Instruction>, r: Result)
    decreases r
  {
    (forall p :: p in r.cols ==> Ascending(r.cols[p])) &&
    (exists e :: e in log && e.subjectId == r.id && e.subjectType == r.kind &&
      (forall x :: x in log && x.subjectId == r.id ==> e.nanoTs <= x.nanoTs)) &&
    forall k :: k in r.kids ==> Faithful(log, k)
  }

  ghost predicate Ascending(os: seq<Object>) {
    forall i, j :: 0 <= i < j < |os| ==> os[i].nanoTs <= os[j].nanoTs
  }

  /** With one kind per entity, a faithful node has exactly that kind. */
  lemma FaithfulKind(log: seq<Instruction>, r: Result, kind: string)
    requires Faithful(log, r)
    requires forall x :: x in log && x.subjectId == r.id ==> x.subjectType == kind
    ensures r.kind == kind
  {
  }
}
