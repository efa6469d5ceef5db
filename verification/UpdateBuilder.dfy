/** The mutable Update tree of store/update.go, its builder methods and Execute. Each node
    carries, as ghost state, its position in the tree and the Draft it stands for. */
module UpdateBuilder {
  import opened Seqs
  import opened Types
  import opened UpdateModel
  import UpdateRows

  class Update {
    var kind: string
    var id: string
    var source: string
    var children: seq<Update>
    var parent: Update?
    var edges: map<string, string>
    var nanoTs: int

    ghost const path: seq<nat>
    ghost var draft: Draft

    /** NewUpdate; the clock is a parameter. */
    constructor (kind: string, id: string, now: int)
      ensures parent == null && path == [] && Shape({this}) && Faithful({this})
      ensures draft == Draft(kind, id, "", map[], now, [])
    {
      this.kind, this.id, this.source, this.nanoTs := kind, id, "", now;
      children, parent, edges := [], null, map[];
      path, draft := [], Draft(kind, id, "", map[], now, []);
    }

    constructor Child(kind: string, source: string, nanoTs: int, parent: Update, ghost path: seq<nat>)
      ensures this.kind == kind && this.id == "" && this.source == source && this.nanoTs == nanoTs
      ensures children == [] && this.parent == parent && edges == map[] && this.path == path
      ensures draft == Draft(kind, "", source, map[], nanoTs, [])
    {
      this.kind, this.id, this.source, this.nanoTs := kind, "", source, nanoTs;
      children, this.parent, edges := [], parent, map[];
      this.path, draft := path, Draft(kind, "", source, map[], nanoTs, []);
    }

    /** S is one closed tree in which parents and children agree: child i of a node is at
        that node's path extended by i. */
    static ghost predicate Shape(S: set<Update>)
      reads S`children, S`parent
    {
      (forall o :: o in S ==> o.HoldsChildren(S) && o.HeldByParent(S)) && OneRoot(S)
    }

    static ghost predicate OneRoot(S: set<Update>)
      reads S`parent
    {
      forall o, o' :: o in S && o' in S && o.parent == null && o'.parent == null ==> o == o'
    }

    ghost predicate HoldsChildren(S: set<Update>)
      reads this`children, S`parent
    {
      forall i :: 0 <= i < |children| ==> children[i] in S && children[i].Under(this, i)
    }

    ghost predicate HeldByParent(S: set<Update>)
      requires this in S
      reads S`children, S`parent
    {
      if parent == null then path == []
      else parent in S && HeldIn(parent.children)
    }

    ghost predicate HeldIn(kids: seq<Update>) {
      path != [] && path[|path| - 1] < |kids| && kids[path[|path| - 1]] == this
    }

    ghost predicate Under(p: Update, i: nat)
      reads this`parent
    {
      parent == p && path == p.path + [i]
    }

    /** The node's draft is what its fields and its children's drafts say. */
    ghost predicate DraftOk()
      reads this, children
    {
      && draft == Draft(kind, id, source, edges, nanoTs, draft.kids)
      && |draft.kids| == |children|
      && forall i :: 0 <= i < |children| ==> draft.kids[i] == children[i].draft
    }

    static ghost predicate Faithful(S: set<Update>)
      requires Shape(S)
      reads S
    {
      forall o :: o in S ==> o.DraftOk()
    }

    ghost method Refresh(S: set<Update>)
      requires this in S && Shape(S)
      requires forall o :: o in S && o != this ==> o.DraftOk()
      modifies this`draft
      ensures DraftOk()
      ensures forall o :: o in S && o != parent ==> o.DraftOk()
      ensures forall i :: 0 <= i < |children| ==> draft.kids[i] == old(children[i].draft)
    {
      draft := Draft(kind, id, source, edges, nanoTs,
                     seq(|children|, i requires 0 <= i < |children| reads this, children => children[i].draft));
    }

    /** Brings the drafts on the way to the root up to date after this node has changed. */
    ghost method Climb(S: set<Update>)
      requires this in S && Shape(S)
      requires forall o :: o in S && o != this ==> o.DraftOk()
      modifies S`draft
      ensures Faithful(S)
      ensures forall o :: o in S && !(o.path <= path) ==> o.draft == old(o.draft)
      decreases |path|
    {
      Refresh(S);
      if parent != null {
        parent.Climb(S);
      }
    }

    /** The same, naming the new draft: the children's drafts are not on that way. */
    ghost method ClimbTo(S: set<Update>, kids: seq<Draft>)
      requires this in S && Shape(S)
      requires forall o :: o in S && o != this ==> o.DraftOk()
      requires |kids| == |children| && forall i :: 0 <= i < |children| ==> kids[i] == children[i].draft
      modifies S`draft
      ensures Faithful(S)
      ensures draft == Draft(kind, id, source, edges, nanoTs, kids)
    {
      forall i | 0 <= i < |children|
        ensures !(children[i].path <= path)
      {
        assert children[i].Under(this, i);
      }
      Climb(S);
    }

    method SetSource(source: string, ghost S: set<Update>)
      requires this in S && Shape(S) && Faithful(S)
      modifies this`source, S`draft
      ensures Faithful(S)
      ensures this.source == source && draft == old(draft).(source := source)
    {
      this.source := source;
      ClimbTo(S, draft.kids);
    }

    method Set(property: string, value: string, ghost S: set<Update>)
      requires this in S && Shape(S) && Faithful(S)
      modifies this`edges, S`draft
      ensures Faithful(S)
      ensures edges == old(edges)[property := value] && draft == old(draft).(edges := edges)
    {
      edges := edges[property := value];
      ClimbTo(S, draft.kids);
    }

    method MarkDeleted(ghost S: set<Update>)
      requires this in S && Shape(S) && Faithful(S)
      modifies this`edges, S`draft
      ensures Faithful(S)
      ensures draft == old(draft).(edges := old(edges)["_delete_" := "true"])
    {
      Set(DELETE, "true", S);
    }

    /** S is a tree but for this node's list of children, for which `kids` would do. */
    ghost predicate Fits(kids: seq<Update>, S: set<Update>)
      reads (S - {this})`children, S`parent
    {
      && (forall i :: 0 <= i < |kids| ==> kids[i] in S && kids[i].Under(this, i))
      && (forall o :: o in S && o != this ==> o.HoldsChildren(S))
      && (forall o :: o in S ==>
            if o.parent == null then o.path == []
            else o.parent in S && o.HeldIn(if o.parent == this then kids else o.parent.children))
      && OneRoot(S)
    }

    lemma FitsOf(S: set<Update>)
      requires this in S && Shape(S)
      ensures Fits(children, S)
    {
      forall o | o in S
        ensures o.HeldByParent(S)
      {
      }
    }

    lemma Grown(child: Update, S: set<Update>, kids: seq<Update>)
      requires this in S && child !in S && Fits(kids, S) && children == kids + [child]
      requires child.parent == this && child.path == path + [|kids|] && child.children == []
      ensures Shape(S + {child})
    {
      var T := S + {child};
      forall o | o in T
        ensures o.HoldsChildren(T)
      {
        assert o in S && o != this ==> o.HoldsChildren(S);
      }
      forall o | o in T
        ensures o.HeldByParent(T)
      {
        assert o in S && o.parent == this ==> o.HeldIn(kids);
      }
    }

    /** Puts a new node in place as the last child. */
    method Attach(child: Update, ghost S: set<Update>)
      requires this in S && child !in S && Shape(S)
      requires child.parent == this && child.path == path + [|children|] && child.children == []
      modifies this`children
      ensures children == old(children) + [child]
      ensures Shape(S + {child})
    {
      ghost var kids := children;
      FitsOf(S);
      hide *;
      children := children + [child];
      Grown(child, S, kids);
    }

    /** A new last child, with this node's source and timestamp and no id yet. */
    method AddChild(kind: string, ghost S: set<Update>) returns (child: Update)
      requires this in S && Shape(S) && Faithful(S)
      modifies this`children, S`draft
      ensures fresh(child) && child.parent == this && children == old(children) + [child]
      ensures Shape(S + {child}) && Faithful(S + {child})
      ensures child.draft == Draft(kind, "", source, map[], nanoTs, [])
      ensures draft == old(draft).(kids := old(draft).kids + [child.draft])
    {
      hide Shape;
      child := new Update.Child(kind, source, nanoTs, this, path + [|children|]);
      Attach(child, S);
      forall o | o in S + {child} && o != this
        ensures o.DraftOk()
      {
        assert o != child ==> old(o.DraftOk());
      }
      ClimbTo(S + {child}, draft.kids + [child.draft]);
    }

    /** The topmost node, found by following parents. */
    method Root(ghost S: set<Update>) returns (r: Update)
      requires this in S && Shape(S)
      ensures r in S && r.parent == null && r.path == []
    {
      r := this;
      while r.parent != null
        invariant r in S
        decreases |r.path|
      {
        assert r.Under(r.parent, r.path[|r.path| - 1]);
        r := r.parent;
      }
    }

    // -------------------------------------------------------------- recursion over the tree

    /** This node and everything below it. */
    ghost function Subtree(S: set<Update>): set<Update> {
      set o | o in S && path <= o.path
    }

    lemma Inside(S: set<Update>)
      requires this in S && Shape(S)
      ensures forall o, i :: o in Subtree(S) && 0 <= i < |o.children| ==> o.children[i] in Subtree(S)
    {
      forall o, i | o in Subtree(S) && 0 <= i < |o.children|
        ensures o.children[i] in Subtree(S)
      {
        assert o.children[i].Under(o, i);
      }
    }

    ghost predicate FaithfulBelow(S: set<Update>)
      requires this in S && Shape(S)
      reads S`children, S`parent, Subtree(S)
    {
      Inside(S);
      forall o :: o in Subtree(S) ==> o.DraftOk()
    }

    /** Children's subtrees lie inside, apart from each other and from this node. */
    lemma Apart(S: set<Update>, i: nat)
      requires this in S && Shape(S) && i < |children|
      ensures children[i] in S && children[i].Subtree(S) <= Subtree(S) - {this}
      ensures forall j :: 0 <= j < |children| && j != i ==> children[i].Subtree(S) !! children[j].Subtree(S)
    {
      assert children[i].Under(this, i);
      forall j, o | 0 <= j < |children| && j != i && o in children[i].Subtree(S)
        ensures o !in children[j].Subtree(S)
      {
        assert children[j].Under(this, j);
        assert o.path[|path|] == children[i].path[|path|] == i;
      }
    }

    method GiveId(x: string, ghost S: set<Update>)
      requires this in S && Shape(S) && FaithfulBelow(S)
      modifies this`id, this`draft
      ensures id == x && draft == old(draft).(id := x) && FaithfulBelow(S)
    {
      id := x;
      draft := draft.(id := x);
      Inside(S);
      forall o | o in Subtree(S)
        ensures o.DraftOk()
      {
        assert old(o.DraftOk());
        forall i | 0 <= i < |o.children|
          ensures o.children[i] != this
        {
          assert o.children[i].Under(o, i);
        }
      }
    }

    lemma {:induction false} OnePath(S: set<Update>, o: Update)
      requires this in S && o in S && Shape(S) && o.path == path
      ensures o == this
      decreases |path|
    {
      if parent != null {
        assert Under(parent, path[|path| - 1]) && o.Under(o.parent, path[|path| - 1]);
        assert parent.path == path[..|path| - 1] == o.parent.path;
        parent.OnePath(S, o.parent);
      }
    }

    /** Everything below this node is below one of its children. */
    lemma {:induction false} Covered(S: set<Update>, o: Update) returns (j: nat)
      requires this in S && Shape(S) && o in Subtree(S) && o != this
      ensures j < |children| && o in children[j].Subtree(S)
      decreases |o.path|
    {
      if o.path == path {
        OnePath(S, o);
      }
      var p := o.parent;
      j := o.path[|o.path| - 1];
      assert o.Under(p, j);
      if p == this {
        assert children[j] == o;
      } else {
        assert path <= p.path;
        j := Covered(S, p);
      }
    }

    ghost method RefreshBelow(S: set<Update>, kids: seq<Draft>)
      requires this in S && Shape(S)
      requires KidsAre(S, kids)
      modifies this`draft
      ensures draft == Draft(kind, id, source, edges, nanoTs, kids)
      ensures FaithfulBelow(S)
    {
      draft := Draft(kind, id, source, edges, nanoTs, kids);
      forall o | o in Subtree(S)
        ensures o.DraftOk()
      {
        if o == this {
          forall i | 0 <= i < |children|
            ensures children[i] != this && children[i].draft == kids[i]
          {
            assert children[i].Under(this, i) && old(KidIs(S, children[i], kids[i]));
          }
        } else {
          var j := Covered(S, o);
          assert old(KidIs(S, children[j], kids[j]));
          assert old(o.DraftOk());
          forall i | 0 <= i < |o.children|
            ensures o.children[i] != this
          {
            assert children[j].Under(this, j);
            assert o.children[i].Under(o, i);
          }
        }
      }
    }

    /** The children stand for these drafts, and so does everything below them. */
    ghost predicate KidsAre(S: set<Update>, want: seq<Draft>)
      requires this in S && Shape(S)
      reads S
    {
      |want| == |children| &&
      forall j :: 0 <= j < |children| ==> KidIs(S, children[j], want[j])
    }

    static ghost predicate KidIs(S: set<Update>, k: Update, want: Draft)
      requires Shape(S)
      reads S
    {
      k in S && k.FaithfulBelow(S) && k.draft == want
    }

    lemma KidsFromDraft(S: set<Update>)
      requires this in S && Shape(S) && FaithfulBelow(S)
      ensures KidsAre(S, draft.kids) && DraftOk()
    {
      assert this in Subtree(S) && DraftOk();
      forall j | 0 <= j < |children|
        ensures KidIs(S, children[j], draft.kids[j])
      {
        Apart(S, j);
      }
    }

    /** setCommitTs: this node, then each child in turn. */
    method Stamp(ts: int, ghost S: set<Update>)
      requires this in S && Shape(S) && FaithfulBelow(S)
      modifies Subtree(S)`nanoTs, Subtree(S)`draft
      ensures FaithfulBelow(S) && draft == Stamped(old(draft), ts)
      decreases Tall(draft), 0
    {
      hide Shape, KidIs, FaithfulBelow;
      ghost var d := draft;
      ghost var want := draft.kids;
      KidsFromDraft(S);
      StampSelf(ts, S, want);
      var i := 0;
      while i < |children|
        invariant i <= |children| && nanoTs == ts && draft == d
        invariant KidsAre(S, want)
        invariant forall j :: 0 <= j < i ==> want[j] == Stamped(d.kids[j], ts)
        invariant forall j :: i <= j < |children| ==> want[j] == d.kids[j]
      {
        Apart(S, i);
        StampKid(i, ts, S, want);
        want := want[i := Stamped(want[i], ts)];
        i := i + 1;
      }
      RefreshBelow(S, want);
    }

    method StampSelf(ts: int, ghost S: set<Update>, ghost want: seq<Draft>)
      requires this in S && Shape(S) && KidsAre(S, want)
      modifies this`nanoTs
      ensures nanoTs == ts && KidsAre(S, want)
    {
      nanoTs := ts;
      forall j | 0 <= j < |children|
        ensures KidIs(S, children[j], want[j])
      {
        assert old(KidIs(S, children[j], want[j]));
        Apart(S, j);
      }
    }

    method StampKid(i: nat, ts: int, ghost S: set<Update>, ghost want: seq<Draft>)
      requires this in S && Shape(S) && i < |children| && KidsAre(S, want)
      modifies children[i].Subtree(S)`nanoTs, children[i].Subtree(S)`draft
      ensures KidsAre(S, want[i := Stamped(want[i], ts)])
      decreases Tall(want[i]), 1
    {
      assert KidIs(S, children[i], want[i]);
      children[i].Stamp(ts, S);
      Apart(S, i);
      forall j | 0 <= j < |children|
        ensures KidIs(S, children[j], want[i := Stamped(want[i], ts)][j])
      {
        if j != i {
          assert old(KidIs(S, children[j], want[j]));
          assert children[j] in children[j].Subtree(S);
        }
      }
    }

    /** SetCommitTs: the whole tree when called on its root, nothing otherwise. */
    method SetCommitTs(ts: int, ghost S: set<Update>)
      requires this in S && Shape(S) && Faithful(S)
      modifies Subtree(S)`nanoTs, Subtree(S)`draft
      ensures Faithful(S)
      ensures parent != null ==> forall o :: o in S ==> o.nanoTs == old(o.nanoTs) && o.draft == old(o.draft)
      ensures parent == null ==> draft == Stamped(old(draft), ts)
    {
      if parent != null {
        return;
      }
      assert Subtree(S) == S;
      Stamp(ts, S);
    }

    // -------------------------------------------------------------- doExecute

    ghost function HeadOf(): Head
      reads `kind, `id, `source, `nanoTs
    {
      Head(kind, id, source, nanoTs)
    }

    /** One instruction per property, in whatever order the map is ranged over. */
    method PushProperties(its: seq<Instruction>)
        returns (err: Option<Error>, out: seq<Instruction>, ghost props: seq<(string, string)>)
      ensures err == if edges == map[] || source != "" then None else Some(NoSource)
      ensures err.None? ==> ListsEdges(props, edges) && out == its + PropertyRows(HeadOf(), props)
    {
      err, out, props := None, its, [];
      var rest := edges.Keys;
      while rest != {}
        invariant rest <= edges.Keys
        invariant out == its + PropertyRows(HeadOf(), props)
        invariant source == "" ==> rest == edges.Keys
        invariant ListsEdges(props, edges - rest)
        decreases rest
      {
        var pred :| pred in rest;
        if source == "" {
          assert edges != map[];
          return Some(NoSource), out, props;
        }
        out := out + [Instruction(id, kind, pred, edges[pred], "", nanoTs, source)];
        AddListed(props, edges, rest, pred);
        FlatMapAppend(PropertyFn(HeadOf()), props, [(pred, edges[pred])]);
        FlatMapOne(PropertyFn(HeadOf()), (pred, edges[pred]));
        props := props + [(pred, edges[pred])];
        rest := rest - {pred};
      }
      assert edges - {} == edges;
    }

    static lemma AddListed(props: seq<(string, string)>, edges: map<string, string>, rest: set<string>, p: string)
      requires p in rest && rest <= edges.Keys && ListsEdges(props, edges - rest)
      ensures ListsEdges(props + [(p, edges[p])], edges - (rest - {p}))
    {
      var more := props + [(p, edges[p])];
      forall q | q in edges - (rest - {p})
        ensures exists i :: 0 <= i < |more| && more[i].0 == q
      {
        if q == p {
          assert more[|props|].0 == q;
        } else {
          assert q in edges - rest;
          var i :| 0 <= i < |props| && props[i].0 == q;
          assert more[i].0 == q;
        }
      }
    }

    /** The retry loop around x.UniqueString. */
    static method DrawId(draws: nat -> string, isNew: string -> bool, cur: nat) returns (id: Option<string>, next: nat)
      ensures (id, next) == FindId(draws, isNew, cur, 0)
      ensures cur < next <= cur + 31 && forall k :: cur <= k < next - 1 ==> !isNew(draws(k))
      ensures id.Some? ==> id.value == draws(next - 1) && isNew(id.value)
      ensures id.None? ==> next == cur + 31 && !isNew(draws(next - 1))
    {
      FoundId(draws, isNew, cur, 0);
      var idx := 0;
      next := cur;
      while true
        invariant 0 <= idx <= 30
        invariant FindId(draws, isNew, next, idx) == FindId(draws, isNew, cur, 0)
        decreases 30 - idx
      {
        var x := draws(next);
        next := next + 1;
        if isNew(x) {
          return Some(x), next;
        }
        if idx >= 30 {
          return None, next;
        }
        idx := idx + 1;
      }
    }

    method DoExecute(draws: nat -> string, isNew: string -> bool, cur: nat, its: seq<Instruction>, ghost S: set<Update>)
        returns (err: Option<Error>, out: seq<Instruction>, next: nat, ghost n: Node)
      requires this in S && Shape(S) && FaithfulBelow(S)
      modifies Subtree(S)`id, Subtree(S)`draft
      ensures id == old(id)
      ensures err.None? <==> Sourced(old(draft)) && AssignKids(old(draft).kids, draws, isNew, cur).0.Some?
      ensures err.Some? ==> Reason(err.value, Sourced(old(draft)), old(draft).kids, draws, isNew, cur)
      ensures cur <= next
      ensures err.None? ==>
                && FaithfulBelow(S)
                && AssignKids(old(draft).kids, draws, isNew, cur) == (Some(draft.kids), next)
                && draft == old(draft).(kids := draft.kids)
                && Lists(n, draft) && out == its + Flat(n)
      decreases Tall(draft), 2
    {
      hide *;
      ghost var d := draft;
      KidsFromDraft(S);
      FieldsOf(d);
      SourcedIs(d);
      TallKids(d);
      SelfIn(S);
      ghost var props;
      next := cur;
      n := Node(HeadOf(), [], []);
      err, out, props := PushProperties(its);
      Unsourced(d, draws, isNew, cur);
      if err.Some? {
        return;
      }
      if |children| > 0 && source == "" {
        return Some(NoSource), out, next, n;
      }
      ghost var nodes;
      err, out, next, nodes := ExecuteKids(draws, isNew, cur, out, S, d.kids);
      if err.Some? {
        ReasonAbove(err.value, d, draws, isNew, cur);
        return;
      }
      RefreshBelow(S, AssignKids(d.kids, draws, isNew, cur).0.value);
      n := Node(HeadOf(), props, nodes);
      FlatIs(its, n);
      ListsIs(n, draft);
    }

    lemma FieldsOf(d: Draft)
      requires DraftOk() && d == draft
      ensures d == Draft(kind, id, source, edges, nanoTs, d.kids) && |d.kids| == |children|
      ensures HeadOf() == Head(kind, id, source, nanoTs)
    {
    }

    static lemma SourcedIs(d: Draft)
      ensures Sourced(d) <==>
                ((d.edges != map[] || d.kids != []) ==> d.source != "") && forall i :: 0 <= i < |d.kids| ==> Sourced(d.kids[i])
    {
    }

    static lemma TallKids(d: Draft)
      ensures Tall(d) == TallIn(d.kids)
    {
    }

    lemma SelfIn(S: set<Update>)
      requires this in S
      ensures this in Subtree(S)
    {
    }

    static lemma ListsHead(n: Node, d: Draft)
      requires Lists(n, d)
      ensures n.head == Head(d.kind, d.id, d.source, d.nanoTs)
    {
    }

    static lemma FlatIs(its: seq<Instruction>, n: Node)
      ensures its + PropertyRows(n.head, n.props) + FlatKids(n.head, n.kids) == its + Flat(n)
    {
    }

    static lemma ListsIs(n: Node, d: Draft)
      requires n.head == Head(d.kind, d.id, d.source, d.nanoTs) && ListsEdges(n.props, d.edges)
      requires |n.kids| == |d.kids| && forall i :: 0 <= i < |d.kids| ==> Lists(n.kids[i], d.kids[i])
      ensures Lists(n, d)
    {
    }

    static lemma AssignNone(draws: nat -> string, isNew: string -> bool, cur: nat)
      ensures AssignKids([], draws, isNew, cur) == (Some([]), cur)
    {
    }

    static lemma AssignStep(kids: seq<Draft>, i: nat, draws: nat -> string, isNew: string -> bool, cur: nat,
                            done: seq<Draft>, c: nat)
      requires i < |kids| && AssignKids(kids[..i], draws, isNew, cur) == (Some(done), c)
      ensures var (k, c') := AssignKid(kids[i], draws, isNew, c);
              AssignKids(kids[..i + 1], draws, isNew, cur) ==
                if k.None? then (None, c') else (Some(done + [k.value]), c')
    {
      assert kids[..i + 1][..i] == kids[..i];
    }

    static lemma FlatNone(h: Head)
      ensures FlatKids(h, []) == []
    {
    }

    static lemma FlatKidsStep(h: Head, nodes: seq<Node>, n: Node)
      ensures FlatKids(h, nodes + [n]) == FlatKids(h, nodes) + EdgeRows(h, n.head) + Flat(n)
    {
      assert (nodes + [n])[..|nodes|] == nodes;
    }

    /** The loop over children. */
    method ExecuteKids(draws: nat -> string, isNew: string -> bool, cur: nat, its: seq<Instruction>,
                       ghost S: set<Update>, ghost kids: seq<Draft>)
        returns (err: Option<Error>, out: seq<Instruction>, next: nat, ghost nodes: seq<Node>)
      requires this in S && Shape(S) && KidsAre(S, kids)
      modifies (Subtree(S) - {this})`id, (Subtree(S) - {this})`draft
      ensures err.None? <==>
                (forall j :: 0 <= j < |kids| ==> Sourced(kids[j])) && AssignKids(kids, draws, isNew, cur).0.Some?
      ensures err.Some? ==> Reason(err.value, forall j :: 0 <= j < |kids| ==> Sourced(kids[j]), kids, draws, isNew, cur)
      ensures cur <= next
      ensures err.None? ==>
                var after := AssignKids(kids, draws, isNew, cur);
                && next == after.1
                && KidsAre(S, after.0.value)
                && |nodes| == |after.0.value|
                && (forall j :: 0 <= j < |nodes| ==> Lists(nodes[j], after.0.value[j]))
                && out == its + FlatKids(HeadOf(), nodes)
      decreases TallIn(kids), 1
    {
      hide Shape, KidIs, Tall, TallIn, Sourced, Lists, AssignKid, AssignKids, Flat, FlatKids, Subtree;
      AssignNone(draws, isNew, cur);
      assert kids[..0] == [];
      FlatNone(HeadOf());
      ghost var want := kids;
      err, out, next, nodes := None, its, cur, [];
      var i := 0;
      while i < |children|
        invariant i <= |children| && |want| == |children| == |kids| && |nodes| == i && err.None? && cur <= next
        invariant KidsAre(S, want)
        invariant forall j :: i <= j < |children| ==> want[j] == kids[j]
        invariant forall j :: 0 <= j < i ==> Sourced(kids[j])
        invariant AssignKids(kids[..i], draws, isNew, cur) == (Some(want[..i]), next)
        invariant forall j :: 0 <= j < i ==> Lists(nodes[j], want[j])
        invariant out == its + FlatKids(HeadOf(), nodes)
      {
        Apart(S, i);
        assert kids[i] in kids;
        ghost var before := next;
        ghost var node;
        AssignStep(kids, i, draws, isNew, cur, want[..i], next);
        err, out, next, node := ExecuteKid(i, draws, isNew, next, out, S, want);
        if err.Some? {
          AssignPrefix(kids, i + 1, draws, isNew, cur);
          ReasonAmong(err.value, kids, i, draws, isNew, cur, before);
          return;
        }
        ghost var done := want[..i];
        want := want[i := AssignKid(kids[i], draws, isNew, before).0.value];
        assert want[..i + 1] == done + [want[i]];
        FlatKidsStep(HeadOf(), nodes, node);
        nodes := nodes + [node];
        i := i + 1;
      }
      assert kids[..i] == kids && want[..i] == want;
    }

    /** One turn of the loop over children: a new id, the two edges, the child's own
        instructions. */
    method ExecuteKid(i: nat, draws: nat -> string, isNew: string -> bool, cur: nat, its: seq<Instruction>,
                      ghost S: set<Update>, ghost want: seq<Draft>)
        returns (err: Option<Error>, out: seq<Instruction>, next: nat, ghost n: Node)
      requires this in S && Shape(S) && i < |children| && KidsAre(S, want)
      modifies children[i].Subtree(S)`id, children[i].Subtree(S)`draft
      ensures err.None? <==> Sourced(want[i]) && AssignKid(want[i], draws, isNew, cur).0.Some?
      ensures err.Some? ==> Reason(err.value, Sourced(want[i]), [want[i]], draws, isNew, cur)
      ensures cur <= next
      ensures err.None? ==>
                && AssignKid(want[i], draws, isNew, cur).1 == next
                && KidsAre(S, want[i := AssignKid(want[i], draws, isNew, cur).0.value])
                && Lists(n, AssignKid(want[i], draws, isNew, cur).0.value)
                && out == its + EdgeRows(HeadOf(), n.head) + Flat(n)
      decreases Tall(want[i]), 3
    {
      hide Shape, Flat, FlatKids, AssignKids, Lists, Tall, Sourced, FaithfulBelow;
      ghost var k := want[i];
      var child := children[i];
      assert KidIs(S, child, k);
      KidFields(S, child, k);
      out, next, n := its, cur, Node(HeadOf(), [], []);
      if child.id != "" {
        OwnReason(k, draws, isNew, cur);
        return Some(ChildHasId), out, next, n;
      }
      var id;
      id, next := DrawId(draws, isNew, cur);
      if id.None? {
        TakenReason(k, draws, isNew, cur);
        return Some(NoNewId), out, next, n;
      }
      ghost var drawn := next;
      child.GiveId(id.value, S);
      out := out + [Instruction(this.id, kind, child.kind, "", child.id, nanoTs, source)]
                 + [Instruction(child.id, child.kind, PARENT, "", this.id, nanoTs, source)];
      KidFields(S, child, child.draft);
      SameButId(k, child.draft);
      err, out, next, n := child.DoExecute(draws, isNew, next, out, S);
      if err.Some? {
        ReasonBelow(err.value, k, draws, isNew, cur, drawn);
      } else {
        ListsHead(n, child.draft);
        Apart(S, i);
        forall j | 0 <= j < |children|
          ensures KidIs(S, children[j], want[i := child.draft][j])
        {
          if j != i {
            assert old(KidIs(S, children[j], want[j]));
            assert children[j] in children[j].Subtree(S);
          }
        }
      }
    }

    static lemma SameButId(k: Draft, k': Draft)
      requires k' == k.(id := k'.id)
      ensures Sourced(k') <==> Sourced(k)
      ensures Tall(k') == Tall(k)
    {
    }

    static lemma KidFields(S: set<Update>, k: Update, want: Draft)
      requires Shape(S) && KidIs(S, k, want)
      ensures want == Draft(k.kind, k.id, k.source, k.edges, k.nanoTs, want.kids)
    {
      assert k in k.Subtree(S);
    }
  }

  // ---------------------------------------------------------------- why it fails

  /** Some child, at any depth, has an id already. */
  ghost predicate NamedKid(kids: seq<Draft>)
    decreases kids
  {
    exists k :: k in kids && (k.id != "" || NamedKid(k.kids))
  }

  /** From draw j on 31 draws are taken. */
  ghost predicate TakenFrom(draws: nat -> string, isNew: string -> bool, j: nat) {
    forall k :: j <= k < j + 31 ==> !isNew(draws(k))
  }

  ghost predicate Exhausted(draws: nat -> string, isNew: string -> bool, cur: nat) {
    exists j :: cur <= j && TakenFrom(draws, isNew, j)
  }

  /** What each error of the recursion says about the draft and the draws. */
  ghost predicate Reason(err: Error, sourced: bool, kids: seq<Draft>, draws: nat -> string, isNew: string -> bool, cur: nat) {
    match err
    case NoSource => !sourced
    case ChildHasId => NamedKid(kids)
    case NoNewId => Exhausted(draws, isNew, cur)
    case _ => false
  }

  lemma ReasonAmong(err: Error, kids: seq<Draft>, i: nat, draws: nat -> string, isNew: string -> bool, cur: nat, before: nat)
    requires i < |kids| && cur <= before && Reason(err, Sourced(kids[i]), [kids[i]], draws, isNew, before)
    ensures Reason(err, forall j :: 0 <= j < |kids| ==> Sourced(kids[j]), kids, draws, isNew, cur)
  {
    hide TakenFrom, Sourced;
    if err.ChildHasId? {
      assert kids[i] in kids && (kids[i].id != "" || NamedKid(kids[i].kids));
    }
  }

  lemma ReasonAbove(err: Error, d: Draft, draws: nat -> string, isNew: string -> bool, cur: nat)
    requires Reason(err, forall j :: 0 <= j < |d.kids| ==> Sourced(d.kids[j]), d.kids, draws, isNew, cur)
    ensures Reason(err, Sourced(d), d.kids, draws, isNew, cur)
  {
    hide TakenFrom, NamedKid;
  }

  lemma ReasonBelow(err: Error, k: Draft, draws: nat -> string, isNew: string -> bool, cur: nat, drawn: nat)
    requires cur <= drawn && Reason(err, Sourced(k), k.kids, draws, isNew, drawn)
    ensures Reason(err, Sourced(k), [k], draws, isNew, cur)
  {
    hide TakenFrom, Sourced;
    assert k in [k];
  }

  lemma Unsourced(d: Draft, draws: nat -> string, isNew: string -> bool, cur: nat)
    ensures (d.edges != map[] || d.kids != []) && d.source == "" ==> Reason(NoSource, Sourced(d), d.kids, draws, isNew, cur)
  {
  }

  lemma OwnReason(k: Draft, draws: nat -> string, isNew: string -> bool, cur: nat)
    ensures k.id != "" ==> Reason(ChildHasId, Sourced(k), [k], draws, isNew, cur)
  {
    assert k in [k];
  }

  lemma TakenReason(k: Draft, draws: nat -> string, isNew: string -> bool, cur: nat)
    requires FindId(draws, isNew, cur, 0).0.None?
    ensures Reason(NoNewId, Sourced(k), [k], draws, isNew, cur)
  {
    FoundId(draws, isNew, cur, 0);
    assert TakenFrom(draws, isNew, cur);
  }

  datatype Error = NoSource | NoNewId | ChildHasId | NothingGenerated | BadContext | CommitFailed

  function IsNewIn(rows: seq<Instruction>): string -> bool {
    (id: string) => RowsOf(rows, id) == []
  }

  /** The contract of store.go: a growing list of rows. */
  class Store {
    var rows: seq<Instruction>

    /** Whether a given commit fails is up to the engine; it is all or nothing. */
    method Commit(its: seq<Instruction>, fails: bool) returns (err: Option<Error>)
      modifies this
      ensures fails ==> err == Some(CommitFailed) && rows == old(rows)
      ensures !fails ==> err == None && rows == old(rows) + its
    {
      if fails {
        return Some(CommitFailed);
      }
      rows := rows + its;
      err := None;
    }
  }

  /** The loop that sends each distinct entity to the indexer. */
  method Report(its: seq<Instruction>) returns (sent: seq<Entity>)
    ensures sent == Distinct(its)
  {
    sent := [];
    var updates: set<Entity> := {};
    var i := 0;
    while i < |its|
      invariant i <= |its|
      invariant sent == Distinct(its[..i])
      invariant forall e :: e in updates <==> e in sent
    {
      assert its[..i + 1][..i] == its[..i];
      var e := Entity(its[i].subjectType, its[i].subjectId);
      if e !in updates {
        sent := sent + [e];
        updates := updates + {e};
      }
      i := i + 1;
    }
    assert its[..i] == its;
  }

  /** Execute, called on any node n of the tree S; r is the root it finds. */
  method Execute(n: Update, numCharsUnique: int, hasIndexer: bool, store: Store, commitFails: bool,
                 draws: nat -> string, ghost S: set<Update>)
      returns (err: Option<Error>, sent: seq<Entity>, r: Update, ghost tree: Node)
    requires n in S && Update.Shape(S) && Update.Faithful(S)
    modifies S`id, S`draft, store
    ensures r in S && r.parent == null
    ensures err.None? <==>
              numCharsUnique > 0 && !commitFails && Sourced(old(r.draft)) && GeneratesRows(old(r.draft)) &&
              AssignKids(old(r.draft).kids, draws, IsNewIn(old(store.rows)), 0).0.Some?
    ensures err.Some? ==> store.rows == old(store.rows) && sent == []
    ensures err == Some(BadContext) <==> numCharsUnique <= 0
    ensures err in {Some(NoSource), Some(ChildHasId), Some(NoNewId)} ==>
              Reason(err.value, Sourced(old(r.draft)), old(r.draft).kids, draws, IsNewIn(old(store.rows)), 0)
    ensures err == Some(NothingGenerated) <==> numCharsUnique > 0 && !GeneratesRows(old(r.draft))
    ensures err == Some(CommitFailed) <==>
              numCharsUnique > 0 && commitFails && Sourced(old(r.draft)) && GeneratesRows(old(r.draft)) &&
              AssignKids(old(r.draft).kids, draws, IsNewIn(old(store.rows)), 0).0.Some?
    ensures err.None? ==>
              && Lists(tree, old(r.draft).(kids := AssignKids(old(r.draft).kids, draws, IsNewIn(old(store.rows)), 0).0.value))
              && store.rows == old(store.rows) + Flat(tree)
              && (forall x :: x in Flat(tree) <==>
                    UpdateRows.Says(old(r.draft).(kids := AssignKids(old(r.draft).kids, draws, IsNewIn(old(store.rows)), 0).0.value), x))
              && |store.rows| == |old(store.rows)| + Props(tree) + 2 * (Nodes(tree) - 1)
              && sent == if hasIndexer then Distinct(Flat(tree)) else []
  {
    hide Flat, AssignKids, Sourced, Distinct;
    sent := [];
    r := n.Root(S);
    tree := Node(Head("", "", "", 0), [], []);
    if numCharsUnique <= 0 {
      return Some(BadContext), sent, r, tree;
    }
    var its, next;
    ghost var d := r.draft;
    assert r.FaithfulBelow(S);
    NothingToAssign(d, draws, IsNewIn(store.rows));
    err, its, next, tree := r.DoExecute(draws, IsNewIn(store.rows), 0, [], S);
    if err.Some? {
      return;
    }
    assert its == Flat(tree);
    UpdateRows.AllSaid(tree, r.draft);
    FlatEmpty(tree);
    ListsGenerates(tree, r.draft);
    if |its| == 0 {
      return Some(NothingGenerated), sent, r, tree;
    }
    err := store.Commit(its, commitFails);
    if err.Some? {
      return;
    }
    FlatCount(tree);
    if hasIndexer {
      sent := Report(its);
    }
  }

  ghost predicate GeneratesRows(d: Draft) {
    d.edges != map[] || d.kids != []
  }

  lemma NothingToAssign(d: Draft, draws: nat -> string, isNew: string -> bool)
    ensures !GeneratesRows(d) ==> Sourced(d) && AssignKids(d.kids, draws, isNew, 0).0.Some?
  {
  }

  lemma ListsGenerates(n: Node, d: Draft)
    requires Lists(n, d)
    ensures n.props == [] && n.kids == [] <==> !GeneratesRows(d)
  {
    if n.props != [] {
      assert n.props[0].0 in d.edges;
    }
  }
}
