/** Version histories: what a column holds after many updates, the read-only accessors on it,
    and their use by ToMap (store/query.go:39-81, store/query.go:305-345). */
module Versioning {
  import opened Seqs
  import opened Types
  import opened QueryModel
  import opened QueryRun
  import opened QuerySchedule
  import opened UpdateModel
  import opened Forest

  /** Object{}, with no value at all. */
  const NO_OBJECT := Object("", "", 0)

  function LatestOf(vs: seq<Object>): Object {
    if vs == [] then NO_OBJECT else vs[|vs| - 1]
  }

  function OldestOf(vs: seq<Object>): Object {
    if vs == [] then NO_OBJECT else vs[0]
  }

  class Versions {
    var versions: seq<Object>

    constructor ()
      ensures versions == []
    {
      versions := [];
    }

    /** The result is false where the code stops the process. */
    method Add(o: Object) returns (ok: bool)
      modifies this`versions
      ensures ok == !(old(versions) != [] && old(versions)[|old(versions)| - 1].nanoTs > o.nanoTs)
      ensures versions == if ok then old(versions) + [o] else old(versions)
      ensures old(Ascending(versions)) ==> Ascending(versions)
    {
      if |versions| > 0 {
        var i := |versions| - 1;
        if versions[i].nanoTs > o.nanoTs {
          return false;
        }
      }
      versions := versions + [o];
      ok := true;
    }

    function Latest(): (o: Object)
      reads this
      ensures versions == [] ==> o == Object("", "", 0)
      ensures versions != [] && Ascending(versions) ==>
                o in versions && forall x :: x in versions ==> x.nanoTs <= o.nanoTs
    {
      LatestOf(versions)
    }

    function Oldest(): (o: Object)
      reads this
      ensures versions == [] ==> o == Object("", "", 0)
      ensures versions != [] && Ascending(versions) ==>
                o in versions && forall x :: x in versions ==> o.nanoTs <= x.nanoTs
    {
      OldestOf(versions)
    }

    function Count(): (n: nat)
      reads this
      ensures n == |versions|
    {
      |versions|
    }
  }

  // ---------------------------------------------------------------- histories

  /** The values that one executed Update tree sets for property p of entity id. */
  function SetOf(n: Node, id: string, p: string): seq<Object>
    decreases n
  {
    (if n.head.id == id then FlatMap(SetFn(n.head, p), n.props) else []) + SetIn(n.kids, id, p)
  }

  function SetIn(kids: seq<Node>, id: string, p: string): seq<Object>
    decreases kids
  {
    if kids == [] then [] else SetIn(kids[..|kids| - 1], id, p) + SetOf(kids[|kids| - 1], id, p)
  }

  function SetFn(h: Head, p: string): ((string, string)) -> seq<Object> {
    (e: (string, string)) => if e.0 == p then [Object(e.1, h.source, h.nanoTs)] else []
  }

  /** The values set over a run of updates, in the order of the updates. */
  function Sets(history: seq<Node>, id: string, p: string): seq<Object> {
    if history == [] then [] else Sets(history[..|history| - 1], id, p) + SetOf(history[|history| - 1], id, p)
  }

  lemma VersionsAppend(a: seq<Instruction>, b: seq<Instruction>, id: string, p: string)
    ensures VersionsOf(RowsOf(a + b, id), p) == VersionsOf(RowsOf(a, id), p) + VersionsOf(RowsOf(b, id), p)
  {
    RowsOfAppend(a, b, id);
    FlatMapAppend(VersionFn(p), RowsOf(a, id), RowsOf(b, id));
  }

  lemma OneRow(r: Instruction, id: string, p: string)
    ensures VersionsOf(RowsOf([r], id), p) == if r.subjectId == id then VersionFn(p)(r) else []
  {
    FlatMapOne(SubjectFn(id), r);
    if r.subjectId == id {
      FlatMapOne(VersionFn(p), r);
    }
  }

  lemma {:induction false} SetByProperties(h: Head, props: seq<(string, string)>, id: string, p: string)
    requires p != PARENT
    ensures VersionsOf(RowsOf(PropertyRows(h, props), id), p) == if h.id == id then FlatMap(SetFn(h, p), props) else []
  {
    if props == [] {
      assert RowsOf([], id) == [] && VersionsOf([], p) == [];
    } else {
      var n := |props| - 1;
      var r := PropertyRow(h, props[n]);
      LastProperty(h, props, p);
      hide *;
      SetByProperties(h, props[..n], id, p);
      VersionsAppend(PropertyRows(h, props[..n]), [r], id, p);
      OneRow(r, id, p);
    }
  }

  lemma LastProperty(h: Head, props: seq<(string, string)>, p: string)
    requires props != [] && p != PARENT
    ensures var n := |props| - 1;
            && PropertyRows(h, props) == PropertyRows(h, props[..n]) + [PropertyRow(h, props[n])]
            && FlatMap(SetFn(h, p), props) == FlatMap(SetFn(h, p), props[..n]) + VersionFn(p)(PropertyRow(h, props[n]))
            && PropertyRow(h, props[n]).subjectId == h.id
  {
  }

  /** Edges set nothing: the one down names a child, the one up is the parent edge. */
  lemma SetByEdges(h: Head, kid: Head, id: string, p: string)
    requires kid.id != ""
    ensures VersionsOf(RowsOf(EdgeRows(h, kid), id), p) == []
  {
    var e := EdgeRows(h, kid);
    assert e == [e[0]] + [e[1]];
    VersionsAppend([e[0]], [e[1]], id, p);
    OneRow(e[0], id, p);
    OneRow(e[1], id, p);
  }

  lemma {:induction false} SetByTree(n: Node, id: string, p: string)
    requires Plain(n) && p != PARENT
    ensures VersionsOf(RowsOf(Flat(n), id), p) == SetOf(n, id, p)
    decreases n
  {
    hide VersionsOf, RowsOf, PropertyRows;
    VersionsAppend(PropertyRows(n.head, n.props), FlatKids(n.head, n.kids), id, p);
    SetByProperties(n.head, n.props, id, p);
    SetByKids(n.head, n.kids, id, p);
  }

  lemma {:induction false} SetByKids(h: Head, kids: seq<Node>, id: string, p: string)
    requires PlainKids(kids) && p != PARENT
    ensures VersionsOf(RowsOf(FlatKids(h, kids), id), p) == SetIn(kids, id, p)
    decreases kids
  {
    if kids == [] {
      assert RowsOf([], id) == [] && VersionsOf([], p) == [];
    } else {
      var n := |kids| - 1;
      assert Plain(kids[n]) && PlainKids(kids[..n]) && kids[n].head.id != "";
      hide *;
      SetByKids(h, kids[..n], id, p);
      SetByEdges(h, kids[n].head, id, p);
      SetByTree(kids[n], id, p);
      LastKid(h, kids, id, p);
      VersionsAppend(FlatKids(h, kids[..n]), EdgeRows(h, kids[n].head), id, p);
      VersionsAppend(FlatKids(h, kids[..n]) + EdgeRows(h, kids[n].head), Flat(kids[n]), id, p);
    }
  }

  lemma LastKid(h: Head, kids: seq<Node>, id: string, p: string)
    requires kids != []
    ensures var n := |kids| - 1;
            && FlatKids(h, kids) == FlatKids(h, kids[..n]) + EdgeRows(h, kids[n].head) + Flat(kids[n])
            && SetIn(kids, id, p) == SetIn(kids[..n], id, p) + [] + SetOf(kids[n], id, p)
  {
    hide SetOf, Flat, EdgeRows;
  }

  /** The property rows of an entity are the values set, in the order in which they were. */
  lemma {:induction false} SetByHistory(history: seq<Node>, id: string, p: string)
    requires p != PARENT && forall i :: 0 <= i < |history| ==> Plain(history[i])
    ensures VersionsOf(RowsOf(Rows(history), id), p) == Sets(history, id, p)
  {
    if history == [] {
      assert RowsOf([], id) == [] && VersionsOf([], p) == [];
    } else {
      hide VersionsOf, RowsOf, Flat, SetOf;
      var n := |history| - 1;
      SetByHistory(history[..n], id, p);
      SetByTree(history[n], id, p);
      VersionsAppend(Rows(history[..n]), Flat(history[n]), id, p);
    }
  }

  ghost predicate Rising(vs: seq<Object>) {
    forall i, j :: 0 <= i < j < |vs| ==> vs[i].nanoTs < vs[j].nanoTs
  }

  /** Values with equal timestamps are equal. */
  ghost predicate NoTies(vs: seq<Object>) {
    forall i, j :: 0 <= i < |vs| && 0 <= j < |vs| && vs[i].nanoTs == vs[j].nanoTs ==> vs[i] == vs[j]
  }

  /** Without ties a list in time order is its only arrangement in time order. */
  lemma {:induction false} OneArrangement(a: seq<Object>, b: seq<Object>)
    requires Ascending(a) && NoTies(a) && Ascending(b) && multiset(a) == multiset(b)
    ensures a == b
  {
    assert |multiset(a)| == |multiset(b)|;
    if a != [] {
      var n := |a| - 1;
      assert Ascending(a[..n]) && NoTies(a[..n]) && Ascending(b[..n]);
      hide *;
      LastAgrees(a, b);
      InitPerm(a, b);
      OneArrangement(a[..n], b[..n]);
      assert a == a[..n] + [a[n]] && b == b[..n] + [b[n]];
    }
  }

  lemma InitPerm<T>(a: seq<T>, b: seq<T>)
    requires multiset(a) == multiset(b) && a != [] && b != [] && a[|a| - 1] == b[|b| - 1]
    ensures multiset(a[..|a| - 1]) == multiset(b[..|b| - 1])
  {
    var n, m := |a| - 1, |b| - 1;
    assert a == a[..n] + [a[n]] && b == b[..m] + [b[m]];
    Cancel(multiset(a[..n]), multiset(b[..m]), multiset{a[n]});
  }

  lemma LastAgrees(a: seq<Object>, b: seq<Object>)
    requires Ascending(a) && NoTies(a) && Ascending(b) && multiset(a) == multiset(b) && a != [] && |a| == |b|
    ensures a[|a| - 1] == b[|a| - 1]
  {
    var n := |a| - 1;
    PermMember(a, b, a[n]);
    PermMember(a, b, b[n]);
    var i :| 0 <= i <= n && a[i] == b[n];
    var j :| 0 <= j <= n && b[j] == a[n];
  }

  // ---------------------------------------------------------------- strictly increasing clock

  /** All nodes of an update tree carry the timestamp of its root, as AddChild sees to. */
  predicate OneStamp(n: Node, ts: int)
    decreases n
  {
    n.head.nanoTs == ts && forall i :: 0 <= i < |n.kids| ==> OneStamp(n.kids[i], ts)
  }

  predicate EdgesAreMaps(n: Node)
    decreases n
  {
    (forall i, j :: 0 <= i < j < |n.props| ==> n.props[i].0 != n.props[j].0) &&
    forall i :: 0 <= i < |n.kids| ==> EdgesAreMaps(n.kids[i])
  }

  /** One tree sets a property of an entity at most once. */
  lemma {:induction false} SetOnce(n: Node, id: string, p: string)
    requires NoDuplicates(Ids(n)) && EdgesAreMaps(n)
    ensures |SetOf(n, id, p)| <= 1 && (id !in Ids(n) ==> SetOf(n, id, p) == [])
    decreases n
  {
    SplitNoDuplicates([n.head.id], IdsIn(n.kids));
    SetOnceIn(n.kids, id, p);
    NamedOnce(n.head, n.props, p);
    assert n.head.id in [n.head.id];
  }

  lemma {:induction false} SetOnceIn(kids: seq<Node>, id: string, p: string)
    requires NoDuplicates(IdsIn(kids)) && forall i :: 0 <= i < |kids| ==> EdgesAreMaps(kids[i])
    ensures |SetIn(kids, id, p)| <= 1 && (id !in IdsIn(kids) ==> SetIn(kids, id, p) == [])
    decreases kids
  {
    if kids != [] {
      hide NoDuplicates, EdgesAreMaps, SetOf;
      var n := |kids| - 1;
      SplitNoDuplicates(IdsIn(kids[..n]), Ids(kids[n]));
      SetOnceIn(kids[..n], id, p);
      SetOnce(kids[n], id, p);
    }
  }

  lemma {:induction false} NamedOnce(h: Head, props: seq<(string, string)>, p: string)
    requires forall i, j :: 0 <= i < j < |props| ==> props[i].0 != props[j].0
    ensures |FlatMap(SetFn(h, p), props)| <= 1
    ensures (forall i :: 0 <= i < |props| ==> props[i].0 != p) ==> FlatMap(SetFn(h, p), props) == []
  {
    if props != [] {
      NamedOnce(h, props[..|props| - 1], p);
    }
  }

  lemma {:induction false} SetStamp(n: Node, id: string, p: string, ts: int)
    requires OneStamp(n, ts)
    ensures forall o :: o in SetOf(n, id, p) ==> o.nanoTs == ts
    decreases n
  {
    PropertyStamp(n.head, n.props, p);
    SetStampIn(n.kids, id, p, ts);
  }

  lemma {:induction false} SetStampIn(kids: seq<Node>, id: string, p: string, ts: int)
    requires forall i :: 0 <= i < |kids| ==> OneStamp(kids[i], ts)
    ensures forall o :: o in SetIn(kids, id, p) ==> o.nanoTs == ts
    decreases kids
  {
    if kids != [] {
      hide SetOf, OneStamp;
      SetStampIn(kids[..|kids| - 1], id, p, ts);
      SetStamp(kids[|kids| - 1], id, p, ts);
    }
  }

  lemma {:induction false} PropertyStamp(h: Head, props: seq<(string, string)>, p: string)
    ensures forall o :: o in FlatMap(SetFn(h, p), props) ==> o.nanoTs == h.nanoTs
  {
    if props != [] {
      PropertyStamp(h, props[..|props| - 1], p);
    }
  }

  /** Executed updates under a strictly increasing clock. */
  ghost predicate Timed(history: seq<Node>) {
    (forall i :: 0 <= i < |history| ==> OneStamp(history[i], history[i].head.nanoTs) && EdgesAreMaps(history[i])) &&
    forall i, j :: 0 <= i < j < |history| ==> history[i].head.nanoTs < history[j].head.nanoTs
  }

  lemma {:induction false} SetsRise(history: seq<Node>, id: string, p: string)
    requires Timed(history) && forall i :: 0 <= i < |history| ==> NoDuplicates(Ids(history[i]))
    ensures Rising(Sets(history, id, p)) && Ascending(Sets(history, id, p)) && NoTies(Sets(history, id, p))
    ensures forall o :: o in Sets(history, id, p) ==> o.nanoTs <= history[|history| - 1].head.nanoTs
  {
    if history != [] {
      var n := |history| - 1;
      SetsRise(history[..n], id, p);
      SetOnce(history[n], id, p);
      SetStamp(history[n], id, p, history[n].head.nanoTs);
      RisingThen(Sets(history[..n], id, p), SetOf(history[n], id, p), history[n].head.nanoTs);
    }
  }

  lemma RisingThen(a: seq<Object>, b: seq<Object>, ts: int)
    requires Rising(a) && |b| <= 1
    requires forall o :: o in a ==> o.nanoTs < ts
    requires forall o :: o in b ==> o.nanoTs == ts
    ensures Rising(a + b) && forall o :: o in a + b ==> o.nanoTs <= ts
  {
    assert forall i :: 0 <= i < |a| ==> a[i] in a;
  }

  /** Version history: after any run of Execute calls, whatever order the store returns rows
      in, each column of an entity is exactly the list of values ever set for it, in the
      order of the updates. So Count is the number of updates that set it, and Latest and
      Oldest are the last and the first of them. */
  lemma VersionHistory(history: seq<Node>, id: string, p: string, rows: seq<Instruction>)
    requires History(history) && Timed(history) && p != PARENT
    requires IsFetch(Rows(history), id, rows)
    ensures p in Columns(rows) <==> Sets(history, id, p) != []
    ensures p in Columns(rows) ==> Columns(rows)[p] == Sets(history, id, p)
    ensures Rising(Sets(history, id, p)) && |Sets(history, id, p)| == |Setters(history, id, p)|
  {
    var stored := RowsOf(Rows(history), id);
    assert multiset(rows) == multiset(stored) && SortedByTs(rows);
    hide *;
    HistoryParts(history);
    SetByHistory(history, id, p);
    SetsRise(history, id, p);
    CountIs(history, id, p);
    FlatMapPerm(VersionFn(p), stored, rows);
    VersionsParts(stored, p);
    VersionsParts(rows, p);
    VersionsAscend(rows, p);
    OneArrangement(VersionsOf(stored, p), VersionsOf(rows, p));
    ColumnIs(rows, p);
  }

  /** The updates that set property p of the entity. */
  function Setters(history: seq<Node>, id: string, p: string): set<nat> {
    set i: nat | i < |history| && SetOf(history[i], id, p) != []
  }

  /** Count: the number of updates that set the property, whatever was read. */
  lemma {:induction false} CountIs(history: seq<Node>, id: string, p: string)
    requires Timed(history) && forall i :: 0 <= i < |history| ==> NoDuplicates(Ids(history[i]))
    ensures |Sets(history, id, p)| == |Setters(history, id, p)|
  {
    if history == [] {
      assert Setters(history, id, p) == {};
    } else {
      var n := |history| - 1;
      assert Timed(history[..n]) && EdgesAreMaps(history[n]);
      SettersMore(history, id, p);
      hide Setters, SetOf, NoDuplicates, Timed, EdgesAreMaps;
      CountIs(history[..n], id, p);
      SetOnce(history[n], id, p);
    }
  }

  lemma SettersMore(history: seq<Node>, id: string, p: string)
    requires history != []
    ensures var n := |history| - 1;
            |Setters(history, id, p)| == |Setters(history[..n], id, p)| + if SetOf(history[n], id, p) != [] then 1 else 0
  {
    hide SetOf;
    var n := |history| - 1;
    var before := Setters(history[..n], id, p);
    assert Setters(history, id, p) == before + if SetOf(history[n], id, p) != [] then {n} else {};
  }

  lemma HistoryParts(history: seq<Node>)
    requires History(history)
    ensures forall i :: 0 <= i < |history| ==> Plain(history[i]) && NoDuplicates(Ids(history[i]))
  {
    hide Rows, Plain, NoDuplicates;
    forall i | 0 <= i < |history|
      ensures Plain(history[i]) && NoDuplicates(Ids(history[i]))
    {
      assert Executable(Rows(history[..i]), history[i]);
    }
  }

  lemma VersionsParts(rows: seq<Instruction>, p: string)
    ensures VersionsOf(rows, p) == FlatMap(VersionFn(p), rows)
  {
  }

  lemma ColumnIs(rows: seq<Instruction>, p: string)
    ensures p in Columns(rows) <==> VersionsOf(rows, p) != []
    ensures p in Columns(rows) ==> Columns(rows)[p] == VersionsOf(rows, p)
  {
    if p in PropertyNames(rows) {
      var r :| r in rows && IsProperty(r) && r.pred == p;
      FlatMapMember(VersionFn(p), rows, ObjectOf(r));
      var i :| 0 <= i < |rows| && rows[i] == r;
      assert ObjectOf(r) in VersionFn(p)(rows[i]);
    } else {
      NoVersions(rows, p);
    }
  }

  // ---------------------------------------------------------------- whole results

  /** Every node of the result shows, for each property, exactly the values ever set. */
  ghost predicate ShowsHistory(history: seq<Node>, r: Result)
    decreases r
  {
    (forall p :: p != PARENT ==> ColumnShows(r.cols, p, Sets(history, r.id, p))) &&
    forall k :: k in r.kids ==> ShowsHistory(history, k)
  }

  ghost predicate ColumnShows(cols: map<string, seq<Object>>, p: string, vs: seq<Object>) {
    (p in cols <==> vs != []) && (p in cols ==> cols[p] == vs)
  }

  /** The columns of every node are those of its stored rows, up to order. */
  ghost predicate Stored(log: seq<Instruction>, r: Result)
    decreases r
  {
    (forall p :: ColumnStored(r.cols, p, VersionsOf(RowsOf(log, r.id), p))) &&
    forall k :: k in r.kids ==> Stored(log, k)
  }

  ghost predicate ColumnStored(cols: map<string, seq<Object>>, p: string, vs: seq<Object>) {
    (p in cols <==> vs != []) && (p in cols ==> multiset(cols[p]) == multiset(vs))
  }

  lemma {:induction false} AnswerStored(log: seq<Instruction>, c: Call)
    requires Answer(log, c).Some?
    ensures Stored(log, Answer(log, c).value)
    decreases Height(c.q), Gap(c)
  {
    var rows := RowsOf(log, c.q.id);
    AnswerUnfold(log, c);
    var t := Answer(log, c).value;
    hide Answer, VersionsOf, RowsOf, Columns, Visible;
    forall p
      ensures ColumnStored(t.cols, p, VersionsOf(rows, p))
    {
      ColumnIs(rows, p);
    }
    forall k | k in t.kids
      ensures Stored(log, k)
    {
      FlatMapMember(AnswerFn(log), Spawns(c, rows), k);
      var i :| 0 <= i < |Spawns(c, rows)| && k in AnswerFn(log)(Spawns(c, rows)[i]);
      SpawnsBelow(c, rows);
      assert Below(Spawns(c, rows)[i], c);
      AnswerStored(log, Spawns(c, rows)[i]);
    }
  }

  lemma {:induction false} StoredAnyOrder(log: seq<Instruction>, a: Result, b: Result)
    requires CanonOf(a) == CanonOf(b) && Stored(log, a)
    ensures Stored(log, b)
    decreases b
  {
    hide VersionsOf, RowsOf, CanonOf, CanonAll;
    CanonColumns(a, b);
    forall p
      ensures ColumnStored(b.cols, p, VersionsOf(RowsOf(log, b.id), p))
    {
      assert ColumnStored(a.cols, p, VersionsOf(RowsOf(log, a.id), p));
    }
    forall k | k in b.kids
      ensures Stored(log, k)
    {
      var x := SameKid(a, b, k);
      StoredAnyOrder(log, x, k);
    }
  }

  lemma CanonColumns(a: Result, b: Result)
    requires CanonOf(a) == CanonOf(b)
    ensures a.id == b.id && a.cols.Keys == b.cols.Keys
    ensures forall p :: p in a.cols ==> multiset(a.cols[p]) == multiset(b.cols[p])
  {
    var ca, cb := CanonOf(a).cols, CanonOf(b).cols;
    assert ca.Keys == a.cols.Keys && cb.Keys == b.cols.Keys;
    assert forall p :: p in a.cols ==> ca[p] == multiset(a.cols[p]) && cb[p] == multiset(b.cols[p]);
  }

  /** A child has a counterpart in any result that is the same up to order. */
  lemma SameKid(a: Result, b: Result, k: Result) returns (x: Result)
    requires CanonOf(a) == CanonOf(b) && k in b.kids
    ensures x in a.kids && CanonOf(x) == CanonOf(k)
  {
    assert CanonAll(a.kids) == CanonAll(b.kids);
    hide CanonOf, CanonAll;
    CanonAllIsSum(a.kids);
    CanonAllIsSum(b.kids);
    var i :| 0 <= i < |b.kids| && b.kids[i] == k;
    MSumWithout(CanonFn(), b.kids, i);
    var j := MSumMember(CanonKey(), a.kids, CanonOf(k));
    x := a.kids[j];
  }

  lemma {:induction false} StoredHistory(history: seq<Node>, r: Result)
    requires History(history) && Timed(history) && Stored(Rows(history), r) && QueryModel.Faithful(Rows(history), r)
    ensures ShowsHistory(history, r)
    decreases r
  {
    hide VersionsOf, RowsOf, Sets, History, Timed, Rows, Rising;
    forall p | p != PARENT
      ensures ColumnShows(r.cols, p, Sets(history, r.id, p))
    {
      HistoryParts(history);
      SetByHistory(history, r.id, p);
      SetsRise(history, r.id, p);
      assert ColumnStored(r.cols, p, VersionsOf(RowsOf(Rows(history), r.id), p));
      if p in r.cols {
        OneArrangement(Sets(history, r.id, p), r.cols[p]);
      }
    }
    forall k | k in r.kids
      ensures ShowsHistory(history, k)
    {
      StoredHistory(history, k);
    }
  }

  /** Version history, for what runs deliver: at every node of a delivered result each column
      is exactly the list of values ever set for that entity, in the order of the updates. */
  lemma DeliveredHistory(history: seq<Node>, c: Call, m: Result)
    requires History(history) && Timed(history) && Delivers(Rows(history), c, m)
    ensures Answer(Rows(history), c).Some? ==> ShowsHistory(history, m)
  {
    hide Stored, ShowsHistory, QueryModel.Faithful, CanonOf;
    if Answer(Rows(history), c).Some? {
      AnswerStored(Rows(history), c);
      StoredAnyOrder(Rows(history), Answer(Rows(history), c).value, m);
      StoredHistory(history, m);
    }
  }

  // ---------------------------------------------------------------- ties

  /** What every read of the entity agrees on. */
  ghost predicate Determined(log: seq<Instruction>, id: string, p: string) {
    forall a, b :: IsFetch(log, id, a) && IsFetch(log, id, b) ==> VersionsOf(a, p) == VersionsOf(b, p)
  }

  /** A column is the same in every read if and only if no two different values of it carry
      one timestamp. */
  lemma DeterminedIff(log: seq<Instruction>, id: string, p: string)
    ensures Determined(log, id, p) <==> NoTies(VersionsOf(RowsOf(log, id), p))
  {
    hide RowsOf, VersionsOf;
    if NoTies(VersionsOf(RowsOf(log, id), p)) {
      forall a, b | IsFetch(log, id, a) && IsFetch(log, id, b)
        ensures VersionsOf(a, p) == VersionsOf(b, p)
      {
        OneColumn(log, id, p, a, b);
      }
    } else {
      var a, b := TwoReads(log, id, p);
    }
  }

  lemma OneColumn(log: seq<Instruction>, id: string, p: string, a: seq<Instruction>, b: seq<Instruction>)
    requires IsFetch(log, id, a) && IsFetch(log, id, b) && NoTies(VersionsOf(RowsOf(log, id), p))
    ensures VersionsOf(a, p) == VersionsOf(b, p)
  {
    VersionsParts(a, p);
    VersionsParts(b, p);
    VersionsParts(RowsOf(log, id), p);
    hide RowsOf, VersionsOf, FlatMap;
    FlatMapPerm(VersionFn(p), RowsOf(log, id), a);
    FlatMapPerm(VersionFn(p), RowsOf(log, id), b);
    VersionsAscend(a, p);
    VersionsAscend(b, p);
    NoTiesPerm(VersionsOf(RowsOf(log, id), p), VersionsOf(a, p));
    OneArrangement(VersionsOf(a, p), VersionsOf(b, p));
  }

  lemma NoTiesPerm(a: seq<Object>, b: seq<Object>)
    requires NoTies(a) && multiset(a) == multiset(b)
    ensures NoTies(b)
  {
    forall i, j | 0 <= i < |b| && 0 <= j < |b| && b[i].nanoTs == b[j].nanoTs
      ensures b[i] == b[j]
    {
      PermMember(a, b, b[i]);
      PermMember(a, b, b[j]);
    }
  }

  /** With a tie, swapping the two rows in a read gives another read, with another column. */
  lemma TwoReads(log: seq<Instruction>, id: string, p: string) returns (a: seq<Instruction>, b: seq<Instruction>)
    requires !NoTies(VersionsOf(RowsOf(log, id), p))
    ensures IsFetch(log, id, a) && IsFetch(log, id, b) && VersionsOf(a, p) != VersionsOf(b, p)
  {
    a := SomeOrder(RowsOf(log, id));
    VersionsParts(a, p);
    VersionsParts(RowsOf(log, id), p);
    FlatMapPerm(VersionFn(p), RowsOf(log, id), a);
    if NoTies(VersionsOf(a, p)) {
      NoTiesPerm(VersionsOf(a, p), VersionsOf(RowsOf(log, id), p));
    }
    var i, j := TiedRows(a, p);
    b := a[i := a[j]][j := a[i]];
    SwappedRows(a, p, i, j);
  }

  lemma TiedRows(rows: seq<Instruction>, p: string) returns (i: nat, j: nat)
    requires !NoTies(VersionsOf(rows, p))
    ensures i < j < |rows| && rows[i].nanoTs == rows[j].nanoTs && ObjectOf(rows[i]) != ObjectOf(rows[j])
    ensures VersionFn(p)(rows[i]) == [ObjectOf(rows[i])] && VersionFn(p)(rows[j]) == [ObjectOf(rows[j])]
  {
    var vs := VersionsOf(rows, p);
    var x, y :| 0 <= x < |vs| && 0 <= y < |vs| && vs[x].nanoTs == vs[y].nanoTs && vs[x] != vs[y];
    FlatMapMember(VersionFn(p), rows, vs[x]);
    FlatMapMember(VersionFn(p), rows, vs[y]);
    var k :| 0 <= k < |rows| && vs[x] in VersionFn(p)(rows[k]);
    var l :| 0 <= l < |rows| && vs[y] in VersionFn(p)(rows[l]);
    i, j := if k < l then k else l, if k < l then l else k;
  }

  lemma SwappedRows(a: seq<Instruction>, p: string, i: nat, j: nat)
    requires SortedByTs(a) && i < j < |a| && a[i].nanoTs == a[j].nanoTs && ObjectOf(a[i]) != ObjectOf(a[j])
    requires VersionFn(p)(a[i]) == [ObjectOf(a[i])] && VersionFn(p)(a[j]) == [ObjectOf(a[j])]
    ensures var b := a[i := a[j]][j := a[i]];
            SortedByTs(b) && multiset(b) == multiset(a) && VersionsOf(a, p) != VersionsOf(b, p)
  {
    var b := a[i := a[j]][j := a[i]];
    assert a[..i] == b[..i];
    VersionsAt(a, p, i);
    VersionsAt(b, p, i);
  }

  /** Where the version of row i stands in its column. */
  lemma VersionsAt(rows: seq<Instruction>, p: string, i: nat)
    requires i < |rows| && VersionFn(p)(rows[i]) == [ObjectOf(rows[i])]
    ensures var k := |VersionsOf(rows[..i], p)|;
            k < |VersionsOf(rows, p)| && VersionsOf(rows, p)[k] == ObjectOf(rows[i])
  {
    assert rows == rows[..i] + [rows[i]] + rows[i + 1..];
    FlatMapAppend(VersionFn(p), rows[..i] + [rows[i]], rows[i + 1..]);
    FlatMapAppend(VersionFn(p), rows[..i], [rows[i]]);
    FlatMapOne(VersionFn(p), rows[i]);
  }
}
