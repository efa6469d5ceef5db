/** Updates as values, the instructions they stand for, and what Execute promises about
    their number, their order and the entities it reports (store/update.go:134-265). */
module UpdateModel {
  import opened Seqs
  import opened Types

  /** An Update tree as its caller builds it: `edges` is the Go map of properties, to JSON
      text. */
  datatype Draft = Draft(
    kind: string,
    id: string,
    source: string,
    edges: map<string, string>,
    nanoTs: int,
    kids: seq<Draft>)

  /** The same tree with each property map listed in the order in which one execution
      happened to range over it. */
  datatype Node = Node(head: Head, props: seq<(string, string)>, kids: seq<Node>)

  datatype Head = Head(kind: string, id: string, source: string, nanoTs: int)

  ghost predicate ListsEdges(props: seq<(string, string)>, edges: map<string, string>) {
    (forall i, j :: 0 <= i < j < |props| ==> props[i].0 != props[j].0) &&
    (forall i :: 0 <= i < |props| ==> props[i].0 in edges && edges[props[i].0] == props[i].1) &&
    forall p :: p in edges ==> exists i :: 0 <= i < |props| && props[i].0 == p
  }

  /** n is d with its properties listed in some order, at every node. */
  ghost predicate Lists(n: Node, d: Draft)
    decreases d
  {
    && n.head == Head(d.kind, d.id, d.source, d.nanoTs)
    && ListsEdges(n.props, d.edges)
    && |n.kids| == |d.kids|
    && forall i :: 0 <= i < |d.kids| ==> Lists(n.kids[i], d.kids[i])
  }

  // ---------------------------------------------------------------- instructions

  function PropertyFn(h: Head): ((string, string)) -> seq<Instruction> {
    (p: (string, string)) => [PropertyRow(h, p)]
  }

  function PropertyRow(h: Head, p: (string, string)): Instruction {
    Instruction(h.id, h.kind, p.0, p.1, "", h.nanoTs, h.source)
  }

  function PropertyRows(h: Head, props: seq<(string, string)>): seq<Instruction> {
    FlatMap(PropertyFn(h), props)
  }

  /** The edge from parent to child, and the edge back, both signed by the parent. */
  function EdgeRows(h: Head, kid: Head): seq<Instruction> {
    [Instruction(h.id, h.kind, kid.kind, "", kid.id, h.nanoTs, h.source),
     Instruction(kid.id, kid.kind, PARENT, "", h.id, h.nanoTs, h.source)]
  }

  function Flat(n: Node): seq<Instruction>
    decreases n
  {
    PropertyRows(n.head, n.props) + FlatKids(n.head, n.kids)
  }

  function FlatKids(h: Head, kids: seq<Node>): seq<Instruction>
    decreases kids
  {
    if kids == [] then []
    else
      FlatKids(h, kids[..|kids| - 1]) + EdgeRows(h, kids[|kids| - 1].head) + Flat(kids[|kids| - 1])
  }

  // ---------------------------------------------------------------- when Execute fails

  /** Every node that generates an instruction of its own names a source. */
  ghost predicate Sourced(d: Draft)
    decreases d
  {
    ((d.edges != map[] || d.kids != []) ==> d.source != "") &&
    forall i :: 0 <= i < |d.kids| ==> Sourced(d.kids[i])
  }

  /** The retry loop for one new id: up to 31 draws, the first one that is new. */
  function FindId(draws: nat -> string, isNew: string -> bool, cur: nat, idx: nat): (Option<string>, nat)
    requires idx <= 30
    decreases 30 - idx
  {
    if isNew(draws(cur)) then (Some(draws(cur)), cur + 1)
    else if idx >= 30 then (None, cur + 1)
    else FindId(draws, isNew, cur + 1, idx + 1)
  }

  /** The search gives up after 31 taken draws, and else ends with the first that is new. */
  lemma {:induction false} FoundId(draws: nat -> string, isNew: string -> bool, cur: nat, idx: nat)
    requires idx <= 30
    ensures var (id, next) := FindId(draws, isNew, cur, idx);
            && cur < next <= cur + 31 - idx
            && (forall k :: cur <= k < next - 1 ==> !isNew(draws(k)))
            && if id.Some? then isNew(id.value) && id.value == draws(next - 1)
               else next == cur + 31 - idx && !isNew(draws(next - 1))
    decreases 30 - idx
  {
    if !isNew(draws(cur)) && idx < 30 {
      FoundId(draws, isNew, cur + 1, idx + 1);
    }
  }

  /** Ids for all descendants of a node, in the order the recursion asks for them; None
      when some search gives up or some child already has an id. */
  function AssignKids(kids: seq<Draft>, draws: nat -> string, isNew: string -> bool, cur: nat): (Option<seq<Draft>>, nat)
    decreases kids
  {
    if kids == [] then (Some([]), cur)
    else
      var n := |kids| - 1;
      var (done, c1) := AssignKids(kids[..n], draws, isNew, cur);
      if done.None? then (None, c1) else
      var (kid, c2) := AssignKid(kids[n], draws, isNew, c1);
      if kid.None? then (None, c2) else (Some(done.value + [kid.value]), c2)
  }

  function AssignKid(k: Draft, draws: nat -> string, isNew: string -> bool, cur: nat): (Option<Draft>, nat)
    decreases k
  {
    if k.id != "" then (None, cur) else
    var (id, c1) := FindId(draws, isNew, cur, 0);
    if id.None? then (None, c1) else
    var (kids, c2) := AssignKids(k.kids, draws, isNew, c1);
    if kids.None? then (None, c2) else (Some(k.(id := id.value, kids := kids.value)), c2)
  }

  lemma {:induction false} AssignPrefix(kids: seq<Draft>, i: nat, draws: nat -> string, isNew: string -> bool, cur: nat)
    requires i <= |kids|
    ensures AssignKids(kids[..i], draws, isNew, cur).0.None? ==> AssignKids(kids, draws, isNew, cur).0.None?
    ensures AssignKids(kids, draws, isNew, cur).0.Some? ==>
              |AssignKids(kids, draws, isNew, cur).0.value| == |kids|
    decreases |kids|
  {
    if i == |kids| {
      assert kids[..i] == kids;
      if kids != [] {
        AssignPrefix(kids[..i - 1], i - 1, draws, isNew, cur);
      }
    } else {
      assert kids[..|kids| - 1][..i] == kids[..i];
      AssignPrefix(kids[..|kids| - 1], i, draws, isNew, cur);
    }
  }

  // ---------------------------------------------------------------- conservation

  function Nodes(n: Node): nat
    decreases n
  {
    1 + NodesIn(n.kids)
  }

  function NodesIn(kids: seq<Node>): nat
    decreases kids
  {
    if kids == [] then 0 else NodesIn(kids[..|kids| - 1]) + Nodes(kids[|kids| - 1])
  }

  function Props(n: Node): nat
    decreases n
  {
    |n.props| + PropsIn(n.kids)
  }

  function PropsIn(kids: seq<Node>): nat
    decreases kids
  {
    if kids == [] then 0 else PropsIn(kids[..|kids| - 1]) + Props(kids[|kids| - 1])
  }

  lemma {:induction false} PropertyCount(h: Head, props: seq<(string, string)>)
    ensures |PropertyRows(h, props)| == |props|
  {
    if props != [] {
      PropertyCount(h, props[..|props| - 1]);
    }
  }

  /** One instruction per property, two per parent-child pair, and no others. */
  lemma {:induction false} FlatCount(n: Node)
    ensures |Flat(n)| == Props(n) + 2 * (Nodes(n) - 1)
    decreases n
  {
    PropertyCount(n.head, n.props);
    FlatKidsCount(n.head, n.kids);
  }

  lemma {:induction false} FlatKidsCount(h: Head, kids: seq<Node>)
    ensures |FlatKids(h, kids)| == PropsIn(kids) + 2 * NodesIn(kids)
    decreases kids
  {
    if kids != [] {
      FlatKidsCount(h, kids[..|kids| - 1]);
      FlatCount(kids[|kids| - 1]);
    }
  }

  /** Nothing is generated exactly for a root with neither properties nor children. */
  lemma FlatEmpty(n: Node)
    ensures Flat(n) == [] <==> n.props == [] && n.kids == []
  {
    PropertyCount(n.head, n.props);
    if n.kids != [] {
      assert |EdgeRows(n.head, n.kids[|n.kids| - 1].head)| == 2;
    }
  }

  // ---------------------------------------------------------------- distinct entities

  function EntityOf(r: Instruction): Entity {
    Entity(r.subjectType, r.subjectId)
  }

  /** The loop of Execute that finds distinct entities: `seen` so far, then these rows. */
  function AddEntities(seen: seq<Entity>, its: seq<Instruction>): seq<Entity> {
    if its == [] then seen
    else
      var d := AddEntities(seen, its[..|its| - 1]);
      var e := EntityOf(its[|its| - 1]);
      if e in d then d else d + [e]
  }

  function Distinct(its: seq<Instruction>): seq<Entity> {
    AddEntities([], its)
  }

  ghost predicate Touches(its: seq<Instruction>, e: Entity) {
    exists i :: 0 <= i < |its| && EntityOf(its[i]) == e
  }

  /** k is the position of the first row of entity e. */
  ghost predicate FirstAt(its: seq<Instruction>, e: Entity, k: int) {
    0 <= k < |its| && EntityOf(its[k]) == e && forall i :: 0 <= i < k ==> EntityOf(its[i]) != e
  }

  ghost predicate InFirstOrder(its: seq<Instruction>, d: seq<Entity>) {
    forall i, j, k, l :: 0 <= i < j < |d| && FirstAt(its, d[i], k) && FirstAt(its, d[j], l) ==> k < l
  }

  lemma TouchesMore(its: seq<Instruction>, r: Instruction, e: Entity)
    ensures Touches(its + [r], e) <==> Touches(its, e) || EntityOf(r) == e
  {
    if i :| 0 <= i < |its + [r]| && EntityOf((its + [r])[i]) == e {
      if i < |its| {
        assert EntityOf(its[i]) == e;
      }
    }
    if i :| 0 <= i < |its| && EntityOf(its[i]) == e {
      assert EntityOf((its + [r])[i]) == e;
    }
    if EntityOf(r) == e {
      assert EntityOf((its + [r])[|its|]) == e;
    }
  }

  lemma FirstAtEarlier(its: seq<Instruction>, r: Instruction, e: Entity, k: int)
    requires FirstAt(its + [r], e, k) && Touches(its, e)
    ensures FirstAt(its, e, k)
  {
    var i :| 0 <= i < |its| && EntityOf(its[i]) == e;
    assert EntityOf((its + [r])[i]) == e;
    assert forall j :: 0 <= j < |its| ==> (its + [r])[j] == its[j];
  }

  /** Each entity of the rows once, no other, in first-appearance order. */
  lemma {:induction false} DistinctIs(its: seq<Instruction>)
    ensures NoDuplicates(Distinct(its))
    ensures forall e :: e in Distinct(its) <==> Touches(its, e)
    ensures InFirstOrder(its, Distinct(its))
  {
    if its != [] {
      var n := |its| - 1;
      var short := its[..n];
      DistinctIs(short);
      assert its == short + [its[n]];
      var d := Distinct(short);
      forall x
        ensures x in Distinct(its) <==> Touches(its, x)
      {
        TouchesMore(short, its[n], x);
      }
      forall i, j, k, l | 0 <= i < j < |Distinct(its)| &&
                          FirstAt(its, Distinct(its)[i], k) && FirstAt(its, Distinct(its)[j], l)
        ensures k < l
      {
        assert d[i] in d;
        FirstAtEarlier(short, its[n], d[i], k);
        if j < |d| {
          assert d[j] in d;
          FirstAtEarlier(short, its[n], d[j], l);
        } else if l < n {
          assert EntityOf(short[l]) == Distinct(its)[j];
          assert Touches(short, Distinct(its)[j]);
        }
      }
    }
  }

  function NodeEntity(h: Head): Entity {
    Entity(h.kind, h.id)
  }

  /** The entities of a tree, parents before children. */
  function Preorder(n: Node): seq<Entity>
    decreases n
  {
    [NodeEntity(n.head)] + PreorderIn(n.kids)
  }

  function PreorderIn(kids: seq<Node>): seq<Entity>
    decreases kids
  {
    if kids == [] then [] else PreorderIn(kids[..|kids| - 1]) + Preorder(kids[|kids| - 1])
  }

  lemma {:induction false} AddAppend(seen: seq<Entity>, a: seq<Instruction>, b: seq<Instruction>)
    ensures AddEntities(seen, a + b) == AddEntities(AddEntities(seen, a), b)
  {
    if b == [] {
      assert a + b == a;
    } else {
      assert (a + b)[..|a + b| - 1] == a + b[..|b| - 1];
      AddAppend(seen, a, b[..|b| - 1]);
    }
  }

  lemma AddOne(seen: seq<Entity>, r: Instruction)
    ensures AddEntities(seen, [r]) == if EntityOf(r) in seen then seen else seen + [EntityOf(r)]
  {
    assert [r][..0] == [];
  }

  lemma {:induction false} AddOwnRows(seen: seq<Entity>, h: Head, props: seq<(string, string)>)
    requires NodeEntity(h) in seen
    ensures AddEntities(seen, PropertyRows(h, props)) == seen
  {
    if props != [] {
      var rows := PropertyRows(h, props);
      AddOwnRows(seen, h, props[..|props| - 1]);
      assert rows[..|rows| - 1] == PropertyRows(h, props[..|props| - 1]);
    }
  }

  /** Once a node is known, its rows report its descendants, parents first. */
  lemma {:induction false} FlatReports(seen: seq<Entity>, n: Node)
    requires NodeEntity(n.head) in seen && NoDuplicates(seen + PreorderIn(n.kids))
    ensures AddEntities(seen, Flat(n)) == seen + PreorderIn(n.kids)
    decreases n
  {
    AddOwnRows(seen, n.head, n.props);
    AddAppend(seen, PropertyRows(n.head, n.props), FlatKids(n.head, n.kids));
    FlatKidsReport(seen, n.head, n.kids);
  }

  lemma NoDuplicatesParts<T>(a: seq<T>, x: T, b: seq<T>)
    requires NoDuplicates(a + [x] + b)
    ensures NoDuplicates(a) && x !in a
  {
    var all := a + [x] + b;
    assert forall i :: 0 <= i < |a| ==> all[i] == a[i];
    assert all[|a|] == x;
  }

  lemma {:induction false} FlatKidsReport(seen: seq<Entity>, h: Head, kids: seq<Node>)
    requires NodeEntity(h) in seen && NoDuplicates(seen + PreorderIn(kids))
    ensures AddEntities(seen, FlatKids(h, kids)) == seen + PreorderIn(kids)
    decreases kids
  {
    if kids == [] {
      assert seen + [] == seen;
    } else {
      var k := kids[|kids| - 1];
      var e := NodeEntity(k.head);
      var before := FlatKids(h, kids[..|kids| - 1]);
      var mid := seen + PreorderIn(kids[..|kids| - 1]);
      assert seen + PreorderIn(kids) == mid + [e] + PreorderIn(k.kids);
      NoDuplicatesParts(mid, e, PreorderIn(k.kids));
      FlatKidsReport(seen, h, kids[..|kids| - 1]);
      AddAppend(seen, before + EdgeRows(h, k.head), Flat(k));
      AddAppend(seen, before, EdgeRows(h, k.head));
      assert EdgeRows(h, k.head) == [EdgeRows(h, k.head)[0]] + [EdgeRows(h, k.head)[1]];
      AddAppend(mid, [EdgeRows(h, k.head)[0]], [EdgeRows(h, k.head)[1]]);
      AddOne(mid, EdgeRows(h, k.head)[0]);
      AddOne(mid, EdgeRows(h, k.head)[1]);
      FlatReports(mid + [e], k);
    }
  }

  /** What Execute reports is the tree itself, each entity once, parents before children. */
  lemma DistinctIsPreorder(n: Node)
    requires NoDuplicates(Preorder(n)) && Flat(n) != []
    ensures Distinct(Flat(n)) == Preorder(n)
  {
    var e := NodeEntity(n.head);
    var its := Flat(n);
    FirstRow(n);
    assert its == [its[0]] + its[1..];
    AddAppend([], [its[0]], its[1..]);
    AddOne([], its[0]);
    assert [] + [e] == [e];
    AddAppend([e], [its[0]], its[1..]);
    AddOne([e], its[0]);
    FlatReports([e], n);
  }

  lemma {:induction false} FirstRow(n: Node)
    requires Flat(n) != []
    ensures EntityOf(Flat(n)[0]) == NodeEntity(n.head)
  {
    if n.props != [] {
      FirstProperty(n.head, n.props);
    } else {
      FirstEdge(n.head, n.kids);
    }
  }

  lemma {:induction false} FirstProperty(h: Head, props: seq<(string, string)>)
    requires props != []
    ensures PropertyRows(h, props) != [] && PropertyRows(h, props)[0] == PropertyRow(h, props[0])
  {
    if |props| > 1 {
      FirstProperty(h, props[..|props| - 1]);
    } else {
      assert props == [props[0]];
      FlatMapOne(PropertyFn(h), props[0]);
    }
  }

  lemma {:induction false} FirstEdge(h: Head, kids: seq<Node>)
    requires kids != []
    ensures FlatKids(h, kids) != [] && FlatKids(h, kids)[0] == EdgeRows(h, kids[0].head)[0]
    decreases |kids|
  {
    if |kids| > 1 {
      FirstEdge(h, kids[..|kids| - 1]);
    }
  }

  // ---------------------------------------------------------------- recursion measures and stamping

  function Tall(d: Draft): nat
    decreases d
  {
    TallIn(d.kids)
  }

  function TallIn(kids: seq<Draft>): (h: nat)
    ensures forall k :: k in kids ==> Tall(k) < h
    decreases kids
  {
    if kids == [] then 0
    else
      var h := TallIn(kids[1..]);
      var k := Tall(kids[0]);
      assert kids == [kids[0]] + kids[1..];
      if k < h then h else k + 1
  }

  /** SetCommitTs on a whole tree. */
  function Stamped(d: Draft, ts: int): Draft
    decreases d
  {
    d.(nanoTs := ts, kids := seq(|d.kids|, i requires 0 <= i < |d.kids| => Stamped(d.kids[i], ts)))
  }
}
