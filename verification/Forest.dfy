/** The store that Execute builds is a forest: child edges and parent rows come in pairs,
    nobody has two parents, and parents are older than their children
    (store/update.go:180-223, store/query.go:85-97). */
module Forest {
  import opened Seqs
  import opened Types
  import opened UpdateModel

  // ---------------------------------------------------------------- the invariant

  predicate IsEdge(r: Instruction) {
    r.pred != PARENT && r.objectId != ""
  }

  predicate IsParentRow(r: Instruction) {
    r.pred == PARENT
  }

  /** j is the way back of edge i: same two entities, same source and timestamp, and the
      edge is named after the child's kind. */
  ghost predicate Paired(log: seq<Instruction>, i: int, j: int) {
    && 0 <= i < |log| && 0 <= j < |log| && IsEdge(log[i]) && IsParentRow(log[j])
    && log[j].subjectId == log[i].objectId && log[j].objectId == log[i].subjectId
    && log[j].subjectType == log[i].pred && log[j].source == log[i].source && log[j].nanoTs == log[i].nanoTs
  }

  /** Row j is the first of its entity, and the parent already has a row. */
  ghost predicate BornAt(log: seq<Instruction>, j: int)
    requires 0 <= j < |log|
  {
    (forall k :: 0 <= k < j ==> log[k].subjectId != log[j].subjectId) &&
    exists k :: 0 <= k < j && log[k].subjectId == log[j].objectId
  }

  ghost predicate HasBack(log: seq<Instruction>, i: int) {
    exists j :: Paired(log, i, j)
  }

  ghost predicate HasEdge(log: seq<Instruction>, j: int) {
    exists i :: Paired(log, i, j)
  }

  ghost predicate IsForest(log: seq<Instruction>) {
    && (forall i :: 0 <= i < |log| && IsEdge(log[i]) ==> HasBack(log, i))
    && (forall j :: 0 <= j < |log| && IsParentRow(log[j]) ==> BornAt(log, j) && HasEdge(log, j))
    && OneEdge(log)
  }

  /** No entity is the target of two child edges. */
  ghost predicate OneEdge(log: seq<Instruction>) {
    forall i, i' :: 0 <= i < i' < |log| && IsEdge(log[i]) && IsEdge(log[i']) ==> log[i].objectId != log[i'].objectId
  }

  /** At most one parent row per entity follows: each is its entity's first row. */
  lemma OneParent(log: seq<Instruction>, j: int, j': int)
    requires IsForest(log) && 0 <= j < |log| && 0 <= j' < |log|
    requires IsParentRow(log[j]) && IsParentRow(log[j']) && log[j].subjectId == log[j'].subjectId
    ensures j == j'
  {
    assert BornAt(log, j) && BornAt(log, j');
  }

  // ---------------------------------------------------------------- what one Execute adds

  ghost predicate Unused(log: seq<Instruction>, id: string) {
    forall i :: 0 <= i < |log| ==> log[i].subjectId != id
  }

  lemma UnusedRows(log: seq<Instruction>, id: string)
    ensures Unused(log, id) <==> RowsOf(log, id) == []
  {
    RowsOfAll(log, id);
    if RowsOf(log, id) != [] {
      assert RowsOf(log, id)[0] in log;
    }
    if !Unused(log, id) {
      var i :| 0 <= i < |log| && log[i].subjectId == id;
      assert log[i] in RowsOf(log, id);
    }
  }

  lemma UnusedAppend(a: seq<Instruction>, b: seq<Instruction>, id: string)
    ensures Unused(a + b, id) <==> Unused(a, id) && Unused(b, id)
  {
    UnusedRows(a, id);
    UnusedRows(b, id);
    UnusedRows(a + b, id);
    RowsOfAppend(a, b, id);
  }

  /** What was paired or born stays so when rows are added. */
  lemma Grows(log: seq<Instruction>, more: seq<Instruction>, i: int)
    requires log <= more && 0 <= i < |log|
    ensures HasBack(log, i) ==> HasBack(more, i)
    ensures HasEdge(log, i) ==> HasEdge(more, i)
    ensures BornAt(log, i) ==> BornAt(more, i)
  {
    if HasBack(log, i) {
      var j :| Paired(log, i, j);
      assert Paired(more, i, j);
    }
    if HasEdge(log, i) {
      var j :| Paired(log, j, i);
      assert Paired(more, j, i);
    }
    if BornAt(log, i) {
      var k :| 0 <= k < i && log[k].subjectId == log[i].objectId;
      assert more[k].subjectId == more[i].objectId;
      assert forall k :: 0 <= k < i ==> more[k] == log[k];
    }
  }

  lemma AllGrow(log: seq<Instruction>, more: seq<Instruction>)
    requires IsForest(log) && log <= more
    ensures forall i :: 0 <= i < |log| && IsEdge(more[i]) ==> HasBack(more, i)
    ensures forall j :: 0 <= j < |log| && IsParentRow(more[j]) ==> BornAt(more, j) && HasEdge(more, j)
  {
    forall i | 0 <= i < |log|
      ensures more[i] == log[i]
      ensures HasBack(log, i) ==> HasBack(more, i)
      ensures BornAt(log, i) && HasEdge(log, i) ==> BornAt(more, i) && HasEdge(more, i)
    {
      Grows(log, more, i);
    }
  }

  lemma AddProperty(log: seq<Instruction>, r: Instruction)
    requires IsForest(log) && !IsEdge(r) && !IsParentRow(r)
    ensures IsForest(log + [r])
  {
    hide HasBack, HasEdge, BornAt;
    AllGrow(log, log + [r]);
  }

  /** In a forest the target of an edge has a row. */
  lemma TargetUsed(log: seq<Instruction>, i: int, id: string)
    requires IsForest(log) && 0 <= i < |log| && IsEdge(log[i]) && Unused(log, id)
    ensures log[i].objectId != id
  {
    assert HasBack(log, i);
    var j :| Paired(log, i, j);
  }

  lemma AddPair(log: seq<Instruction>, h: Head, kid: Head)
    requires IsForest(log) && Unused(log, kid.id) && kid.id != h.id && kid.id != "" && kid.kind != PARENT
    ensures IsForest(log + EdgeRows(h, kid))
  {
    var more := log + EdgeRows(h, kid);
    NewPair(log, h, kid);
    forall i | 0 <= i < |log| && IsEdge(log[i])
      ensures log[i].objectId != kid.id
    {
      TargetUsed(log, i, kid.id);
    }
    OneMoreEdge(log, EdgeRows(h, kid)[0], EdgeRows(h, kid)[1]);
    hide HasBack, HasEdge, BornAt, OneEdge;
    AllGrow(log, more);
  }

  lemma OneMoreEdge(log: seq<Instruction>, e: Instruction, back: Instruction)
    requires OneEdge(log) && !IsEdge(back)
    requires forall i :: 0 <= i < |log| && IsEdge(log[i]) ==> log[i].objectId != e.objectId
    ensures OneEdge(log + [e, back])
  {
  }

  lemma NewPair(log: seq<Instruction>, h: Head, kid: Head)
    requires Unused(log, kid.id) && kid.id != h.id && kid.id != "" && kid.kind != PARENT
    ensures var more, n := log + EdgeRows(h, kid), |log|;
            HasBack(more, n) && HasEdge(more, n + 1) && BornAt(more, n + 1)
  {
    var more, n := log + EdgeRows(h, kid), |log|;
    assert Paired(more, n, n + 1);
    assert more[n].subjectId == more[n + 1].objectId;
  }

  /** Ids in the order in which they are drawn: parents first. */
  function Ids(n: Node): seq<string>
    decreases n
  {
    [n.head.id] + IdsIn(n.kids)
  }

  function IdsIn(kids: seq<Node>): seq<string>
    decreases kids
  {
    if kids == [] then [] else IdsIn(kids[..|kids| - 1]) + Ids(kids[|kids| - 1])
  }

  /** The reserved predicates are not used, and ids are not empty. */
  ghost predicate Plain(n: Node)
    decreases n
  {
    (forall i :: 0 <= i < |n.props| ==> n.props[i].0 != PARENT) && PlainKids(n.kids)
  }

  ghost predicate PlainKids(kids: seq<Node>)
    decreases kids
  {
    forall i :: 0 <= i < |kids| ==> kids[i].head.id != "" && kids[i].head.kind != PARENT && Plain(kids[i])
  }

  lemma {:induction false} AddProperties(log: seq<Instruction>, h: Head, props: seq<(string, string)>)
    requires IsForest(log) && forall i :: 0 <= i < |props| ==> props[i].0 != PARENT
    ensures IsForest(log + PropertyRows(h, props))
    ensures forall id :: id != h.id && Unused(log, id) ==> Unused(log + PropertyRows(h, props), id)
  {
    if props == [] {
      assert log + PropertyRows(h, props) == log;
    } else {
      var n := |props| - 1;
      AddProperties(log, h, props[..n]);
      var r := PropertyFn(h)(props[n])[0];
      AddProperty(log + PropertyRows(h, props[..n]), r);
      assert log + PropertyRows(h, props) == log + PropertyRows(h, props[..n]) + [r];
    }
  }

  /** Adding the rows of a tree whose descendants are all new keeps the forest. */
  lemma {:induction false} AddTree(log: seq<Instruction>, n: Node)
    requires IsForest(log) && Plain(n) && NoDuplicates(Ids(n))
    requires forall id :: id in IdsIn(n.kids) ==> Unused(log, id)
    ensures IsForest(log + Flat(n))
    ensures forall id :: id !in Ids(n) && Unused(log, id) ==> Unused(log + Flat(n), id)
    decreases n, 0
  {
    var mid := log + PropertyRows(n.head, n.props);
    AddProperties(log, n.head, n.props);
    hide IsForest, FlatKids, PropertyRows, Unused;
    forall id | id in IdsIn(n.kids)
      ensures id != n.head.id && Unused(mid, id)
    {
      NotTheRoot(n, id);
    }
    assert Ids(n)[1..] == IdsIn(n.kids);
    AddKids(mid, n.head, n.kids);
    assert log + Flat(n) == mid + FlatKids(n.head, n.kids);
  }

  lemma NotTheRoot(n: Node, id: string)
    requires NoDuplicates(Ids(n)) && id in IdsIn(n.kids)
    ensures id != n.head.id
  {
    var i :| 0 <= i < |IdsIn(n.kids)| && IdsIn(n.kids)[i] == id;
    assert Ids(n)[i + 1] == id && Ids(n)[0] == n.head.id;
  }

  lemma {:induction false} AddKids(log: seq<Instruction>, h: Head, kids: seq<Node>)
    requires IsForest(log) && PlainKids(kids) && NoDuplicates(IdsIn(kids)) && h.id !in IdsIn(kids)
    requires forall id :: id in IdsIn(kids) ==> Unused(log, id)
    ensures IsForest(log + FlatKids(h, kids))
    ensures forall id :: id != h.id && id !in IdsIn(kids) && Unused(log, id) ==> Unused(log + FlatKids(h, kids), id)
    decreases kids
  {
    if kids == [] {
      assert log + FlatKids(h, kids) == log;
    } else {
      hide *;
      var n := |kids| - 1;
      LastKid(h, kids);
      SplitNoDuplicates(IdsIn(kids[..n]), Ids(kids[n]));
      assert forall id :: id in IdsIn(kids) <==> id in IdsIn(kids[..n]) || id in Ids(kids[n]);
      AddKids(log, h, kids[..n]);
      var mid := log + FlatKids(h, kids[..n]);
      forall id | id in Ids(kids[n])
        ensures Unused(mid, id)
      {
      }
      AddKid(mid, h, kids[n]);
      Reassociate(log, FlatKids(h, kids[..n]), EdgeRows(h, kids[n].head), Flat(kids[n]));
    }
  }

  lemma {:induction false} AddKid(log: seq<Instruction>, h: Head, k: Node)
    requires IsForest(log) && Plain(k) && NoDuplicates(Ids(k)) && h.id !in Ids(k)
    requires k.head.id != "" && k.head.kind != PARENT
    requires forall id :: id in Ids(k) ==> Unused(log, id)
    ensures IsForest(log + EdgeRows(h, k.head) + Flat(k))
    ensures forall id :: id != h.id && id !in Ids(k) && Unused(log, id) ==>
              Unused(log + EdgeRows(h, k.head) + Flat(k), id)
    decreases k, 1
  {
    hide *;
    var ready := log + EdgeRows(h, k.head);
    RootFirst(k);
    AddPair(log, h, k.head);
    forall id | id != h.id && id != k.head.id && Unused(log, id)
      ensures Unused(ready, id)
    {
      PairUnused(log, h, k.head, id);
    }
    forall id | id in IdsIn(k.kids)
      ensures id in Ids(k) && id != k.head.id
    {
      NotTheRoot(k, id);
    }
    AddTree(ready, k);
  }

  lemma RootFirst(k: Node)
    ensures Ids(k) == [k.head.id] + IdsIn(k.kids)
    ensures k.head.id in Ids(k)
  {
  }

  lemma LastKid(h: Head, kids: seq<Node>)
    requires kids != []
    ensures var n := |kids| - 1; var k := kids[n];
            && IdsIn(kids) == IdsIn(kids[..n]) + Ids(k)
            && FlatKids(h, kids) == FlatKids(h, kids[..n]) + EdgeRows(h, k.head) + Flat(k)
            && (PlainKids(kids) ==> PlainKids(kids[..n]) && Plain(k) && k.head.id != "" && k.head.kind != PARENT)
  {
  }

  lemma Reassociate<T>(a: seq<T>, b: seq<T>, c: seq<T>, d: seq<T>)
    ensures a + (b + c + d) == a + b + c + d
  {
  }

  lemma PairUnused(log: seq<Instruction>, h: Head, kid: Head, id: string)
    requires id != h.id && id != kid.id && Unused(log, id)
    ensures Unused(log + EdgeRows(h, kid), id)
  {
  }

  lemma SplitNoDuplicates<T>(a: seq<T>, b: seq<T>)
    requires NoDuplicates(a + b)
    ensures NoDuplicates(a) && NoDuplicates(b) && forall x :: x in a ==> x !in b
  {
    var s := a + b;
    assert forall i :: 0 <= i < |a| ==> s[i] == a[i];
    assert forall i :: 0 <= i < |b| ==> s[|a| + i] == b[i];
  }

  // ---------------------------------------------------------------- exactly when it is kept

  function TargetFn(): Instruction -> seq<string> {
    (r: Instruction) => if IsEdge(r) then [r.objectId] else []
  }

  /** The targets of child edges, in order. */
  function Targets(rows: seq<Instruction>): seq<string> {
    FlatMap(TargetFn(), rows)
  }

  lemma {:induction false} DistinctTargets(rows: seq<Instruction>)
    requires OneEdge(rows)
    ensures NoDuplicates(Targets(rows))
  {
    if rows != [] {
      var n := |rows| - 1;
      DistinctTargets(rows[..n]);
      if IsEdge(rows[n]) {
        FlatMapMember(TargetFn(), rows[..n], rows[n].objectId);
        assert rows[n].objectId !in Targets(rows[..n]);
      }
    }
  }

  lemma OneEdgeLater(a: seq<Instruction>, b: seq<Instruction>)
    requires OneEdge(a + b)
    ensures OneEdge(b)
  {
    assert forall i :: 0 <= i < |b| ==> b[i] == (a + b)[|a| + i];
  }

  lemma {:induction false} PropertyTargets(h: Head, props: seq<(string, string)>)
    ensures Targets(PropertyRows(h, props)) == []
  {
    if props != [] {
      var n := |props| - 1;
      PropertyTargets(h, props[..n]);
      assert PropertyRows(h, props)[..|PropertyRows(h, props[..n])|] == PropertyRows(h, props[..n]);
    }
  }

  /** The edges of a tree lead to its descendants, in the order of their ids. */
  lemma {:induction false} TreeTargets(n: Node)
    requires Plain(n)
    ensures Targets(Flat(n)) == IdsIn(n.kids)
    decreases n
  {
    FlatMapAppend(TargetFn(), PropertyRows(n.head, n.props), FlatKids(n.head, n.kids));
    PropertyTargets(n.head, n.props);
    KidsTargets(n.head, n.kids);
  }

  lemma {:induction false} KidsTargets(h: Head, kids: seq<Node>)
    requires PlainKids(kids)
    ensures Targets(FlatKids(h, kids)) == IdsIn(kids)
    decreases kids
  {
    if kids != [] {
      hide *;
      var n := |kids| - 1;
      LastKid(h, kids);
      KidsTargets(h, kids[..n]);
      TreeTargets(kids[n]);
      PairTargets(h, kids[n].head);
      RootFirst(kids[n]);
      TargetsAppend(FlatKids(h, kids[..n]), EdgeRows(h, kids[n].head));
      TargetsAppend(FlatKids(h, kids[..n]) + EdgeRows(h, kids[n].head), Flat(kids[n]));
    }
  }

  lemma TargetsAppend(a: seq<Instruction>, b: seq<Instruction>)
    ensures Targets(a + b) == Targets(a) + Targets(b)
  {
    FlatMapAppend(TargetFn(), a, b);
  }

  lemma PairTargets(h: Head, kid: Head)
    requires kid.id != "" && kid.kind != PARENT
    ensures Targets(EdgeRows(h, kid)) == [kid.id]
  {
    var e := EdgeRows(h, kid);
    assert e == [e[0]] + [e[1]];
    TargetsAppend([e[0]], [e[1]]);
    FlatMapOne(TargetFn(), e[0]);
    FlatMapOne(TargetFn(), e[1]);
  }

  /** The first row of a tree with children is its root's, and not a parent row. */
  lemma TreeStarts(n: Node)
    requires Plain(n) && n.kids != []
    ensures Flat(n) != [] && Flat(n)[0].subjectId == n.head.id && !IsParentRow(Flat(n)[0])
  {
    if n.props == [] {
      FirstEdge(n.head, n.kids);
    } else {
      FirstProperty(n.head, n.props);
    }
  }

  /** In a forest the first row of an edge's target is its parent row. */
  lemma BornAsChild(log: seq<Instruction>, i: int, k: int)
    requires IsForest(log) && 0 <= i < |log| && IsEdge(log[i])
    requires 0 <= k < |log| && log[k].subjectId == log[i].objectId
    requires forall j :: 0 <= j < k ==> log[j].subjectId != log[i].objectId
    ensures IsParentRow(log[k])
  {
    assert HasBack(log, i);
    var j :| Paired(log, i, j);
    assert BornAt(log, j);
  }

  /** So a tree's root is not among its own descendants: it has rows before any edge to it. */
  lemma RootNotBelow(log: seq<Instruction>, n: Node)
    requires IsForest(log + Flat(n)) && Plain(n) && n.kids != [] && Unused(log, n.head.id)
    ensures n.head.id !in IdsIn(n.kids)
  {
    TreeStarts(n);
    TreeTargets(n);
    FlatMapMember(TargetFn(), Flat(n), n.head.id);
    hide IsForest, Plain, Flat, Targets;
    forall i | 0 <= i < |Flat(n)|
      ensures n.head.id !in TargetFn()(Flat(n)[i])
    {
      NoEdgeToFirst(log, Flat(n), i);
    }
  }

  lemma NoEdgeToFirst(log: seq<Instruction>, rows: seq<Instruction>, i: nat)
    requires IsForest(log + rows) && i < |rows| && !IsParentRow(rows[0]) && Unused(log, rows[0].subjectId)
    ensures !(IsEdge(rows[i]) && rows[i].objectId == rows[0].subjectId)
  {
    hide IsForest;
    var more := log + rows;
    assert more[|log|] == rows[0] && more[|log| + i] == rows[i];
    if IsEdge(rows[i]) && rows[i].objectId == rows[0].subjectId {
      BornAsChild(more, |log| + i, |log|);
    }
  }

  /** Descendants being new to the store, a tree keeps the forest if and only if the ids of
      its nodes are distinct. */
  lemma ForestIffDistinct(log: seq<Instruction>, n: Node)
    requires IsForest(log) && Plain(n) && forall id :: id in IdsIn(n.kids) ==> Unused(log, id)
    ensures IsForest(log + Flat(n)) <==> NoDuplicates(Ids(n))
  {
    if NoDuplicates(Ids(n)) {
      AddTree(log, n);
    }
    if IsForest(log + Flat(n)) {
      OneEdgeLater(log, Flat(n));
      DistinctTargets(Flat(n));
      TreeTargets(n);
      if n.head.id in IdsIn(n.kids) {
        RootNotBelow(log, n);
      }
    }
  }

  // ---------------------------------------------------------------- whole histories

  /** The rows of a history of executed updates. */
  function Rows(history: seq<Node>): seq<Instruction> {
    FlatMap(FlatFn(), history)
  }

  function FlatFn(): Node -> seq<Instruction> {
    (n: Node) => Flat(n)
  }

  /** An update whose drawn ids are new to the store, and distinct from each other and from
      the root's id; reserved predicates are not used. */
  ghost predicate Executable(log: seq<Instruction>, n: Node) {
    Plain(n) && NoDuplicates(Ids(n)) && forall id :: id in IdsIn(n.kids) ==> Unused(log, id)
  }

  ghost predicate History(history: seq<Node>) {
    forall i :: 0 <= i < |history| ==> Executable(Rows(history[..i]), history[i])
  }

  /** Every history of Execute calls leaves a forest. Roots may be new or old entities,
      with or without a parent. */
  lemma {:induction false} HistoryIsForest(history: seq<Node>)
    requires History(history)
    ensures IsForest(Rows(history))
  {
    if history != [] {
      var n := |history| - 1;
      forall i | 0 <= i < n
        ensures Executable(Rows(history[..n][..i]), history[..n][i])
      {
        assert history[..n][..i] == history[..i];
        assert Executable(Rows(history[..i]), history[i]);
      }
      HistoryIsForest(history[..n]);
      assert Executable(Rows(history[..n]), history[n]);
      AddTree(Rows(history[..n]), history[n]);
    }
  }

  // ---------------------------------------------------------------- parents

  /** store.Parent over the rows an engine returned. */
  function Parent(rows: seq<Instruction>): Option<string> {
    if rows == [] then None
    else if rows[0].pred == PARENT then Some(rows[0].objectId)
    else Parent(rows[1..])
  }

  method FindParent(rows: seq<Instruction>) returns (p: Option<string>)
    ensures p == Parent(rows)
  {
    var i := 0;
    while i < |rows|
      invariant i <= |rows|
      invariant Parent(rows[i..]) == Parent(rows)
    {
      assert rows[i..][1..] == rows[i + 1..];
      if rows[i].pred == PARENT {
        return Some(rows[i].objectId);
      }
      i := i + 1;
    }
    p := None;
  }

  lemma {:induction false} ParentIs(rows: seq<Instruction>, p: string)
    requires exists r :: r in rows && r.pred == PARENT && r.objectId == p
    requires forall r :: r in rows && r.pred == PARENT ==> r.objectId == p
    ensures Parent(rows) == Some(p)
  {
    assert rows == [rows[0]] + rows[1..];
    if rows[0].pred != PARENT {
      ParentIs(rows[1..], p);
    } else {
      assert rows[0] in rows;
    }
  }

  lemma {:induction false} NoParent(rows: seq<Instruction>)
    requires forall r :: r in rows ==> r.pred != PARENT
    ensures Parent(rows) == None
  {
    if rows != [] {
      assert rows[0] in rows;
      NoParent(rows[1..]);
    }
  }

  /** The parent of an entity, as Parent finds it in commit order. */
  function ParentOf(log: seq<Instruction>, id: string): Option<string> {
    Parent(RowsOf(log, id))
  }

  lemma ParentRow(log: seq<Instruction>, j: int)
    requires IsForest(log) && 0 <= j < |log| && IsParentRow(log[j])
    ensures ParentOf(log, log[j].subjectId) == Some(log[j].objectId)
  {
    var rows := RowsOf(log, log[j].subjectId);
    RowsOfAll(log, log[j].subjectId);
    assert log[j] in rows;
    forall r | r in rows && r.pred == PARENT
      ensures r.objectId == log[j].objectId
    {
      var j' :| 0 <= j' < |log| && log[j'] == r;
      OneParent(log, j, j');
    }
    ParentIs(rows, log[j].objectId);
  }

  /** Parent gives the same answer whatever order the rows come in. */
  lemma ParentAnyOrder(log: seq<Instruction>, id: string, rows: seq<Instruction>)
    requires IsForest(log) && multiset(rows) == multiset(RowsOf(log, id))
    ensures Parent(rows) == ParentOf(log, id)
  {
    var stored := RowsOf(log, id);
    forall r
      ensures r in rows <==> r in stored
    {
      PermMember(rows, stored, r);
    }
    if r :| r in stored && r.pred == PARENT {
      RowsOfMember(log, id, r);
      var j :| 0 <= j < |log| && log[j] == r;
      ParentRow(log, j);
      forall x | x in stored && x.pred == PARENT
        ensures x.objectId == r.objectId
      {
        RowsOfMember(log, id, x);
        var j' :| 0 <= j' < |log| && log[j'] == x;
        OneParent(log, j, j');
      }
      assert r in rows;
      ParentIs(rows, r.objectId);
    } else {
      NoParent(rows);
      NoParent(stored);
    }
  }

  // ---------------------------------------------------------------- no cycles

  /** The position of an entity's first row; |log| when it has none. */
  function Birth(log: seq<Instruction>, id: string): nat {
    if log == [] then 0
    else if log[0].subjectId == id then 0
    else 1 + Birth(log[1..], id)
  }

  lemma {:induction false} BirthIs(log: seq<Instruction>, j: nat)
    requires j < |log| && forall k :: 0 <= k < j ==> log[k].subjectId != log[j].subjectId
    ensures Birth(log, log[j].subjectId) == j
  {
    if j > 0 {
      assert log[0].subjectId != log[j].subjectId;
      BirthIs(log[1..], j - 1);
    }
  }

  lemma {:induction false} BirthAtMost(log: seq<Instruction>, k: nat)
    requires k < |log|
    ensures Birth(log, log[k].subjectId) <= k
  {
    if k > 0 {
      BirthAtMost(log[1..], k - 1);
    }
  }

  lemma {:induction false} HasParentRow(rows: seq<Instruction>)
    ensures Parent(rows).Some? ==> exists r :: r in rows && r.pred == PARENT && r.objectId == Parent(rows).value
  {
    if rows != [] {
      if rows[0].pred == PARENT {
        assert rows[0] in rows;
      } else {
        HasParentRow(rows[1..]);
      }
    }
  }

  /** Parents are born first. */
  lemma ParentIsOlder(log: seq<Instruction>, id: string)
    requires IsForest(log) && ParentOf(log, id).Some?
    ensures Birth(log, ParentOf(log, id).value) < Birth(log, id)
  {
    HasParentRow(RowsOf(log, id));
    var r :| r in RowsOf(log, id) && r.pred == PARENT && r.objectId == ParentOf(log, id).value;
    RowsOfMember(log, id, r);
    var j :| 0 <= j < |log| && log[j] == r;
    assert BornAt(log, j);
    BirthIs(log, j);
    var k :| 0 <= k < j && log[k].subjectId == log[j].objectId;
    BirthAtMost(log, k);
  }

  /** k steps up. */
  function Up(log: seq<Instruction>, id: string, k: nat): Option<string> {
    if k == 0 then Some(id)
    else match Up(log, id, k - 1)
      case None => None
      case Some(x) => ParentOf(log, x)
  }

  lemma {:induction false} UpIsOlder(log: seq<Instruction>, id: string, k: nat)
    requires IsForest(log) && Up(log, id, k).Some?
    ensures Birth(log, Up(log, id, k).value) + k <= Birth(log, id)
  {
    if k > 0 {
      UpIsOlder(log, id, k - 1);
      ParentIsOlder(log, Up(log, id, k - 1).value);
    }
  }

  /** The parent relation has no cycles. */
  lemma Acyclic(log: seq<Instruction>, id: string, k: nat)
    requires IsForest(log) && k > 0
    ensures Up(log, id, k) != Some(id)
  {
    if Up(log, id, k) == Some(id) {
      UpIsOlder(log, id, k);
    }
  }

  lemma {:induction false} UpTwice(log: seq<Instruction>, id: string, a: nat, b: nat)
    requires Up(log, id, a).Some?
    ensures Up(log, id, a + b) == Up(log, Up(log, id, a).value, b)
  {
    if b > 0 {
      UpTwice(log, id, a, b - 1);
    }
  }
}
