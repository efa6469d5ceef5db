/** The mutable Query tree of store/query.go, its builder methods, and doRun and Run as one
    particular schedule executes them. Each node carries, as ghost state, its position in
    the tree and the Plan it stands for. */
module QueryBuilder {
  import opened Seqs
  import opened Types
  import opened QueryModel
  import opened QueryRun
  import opened QuerySchedule
  import opened QueryPaths
  import opened Versioning

  class Query {
    var kind: string
    var id: string
    var filterOut: set<string>
    var maxDepth: int
    var children: seq<Query>
    var parent: Query?
    var getDeleted: bool

    ghost const path: seq<nat>
    ghost var plan: Plan

    /** NewQuery. */
    constructor (id: string)
      ensures parent == null && path == [] && Shape({this}) && Faithful({this}) && OnePerKind({this})
      ensures plan == Plan("", id, {}, 0, [], false)
    {
      kind, this.id, filterOut, maxDepth, children, parent, getDeleted := "", id, {}, 0, [], null, false;
      path, plan := [], Plan("", id, {}, 0, [], false);
    }

    constructor Child(kind: string, parent: Query, getDeleted: bool, ghost path: seq<nat>)
      ensures this.kind == kind && this.parent == parent && this.path == path && children == []
      ensures plan == Plan(kind, "", {}, 0, [], getDeleted) && PlanOk()
    {
      this.kind, id, filterOut, maxDepth, children := kind, "", {}, 0, [];
      this.parent, this.getDeleted := parent, getDeleted;
      this.path, plan := path, Plan(kind, "", {}, 0, [], getDeleted);
    }

    /** A struct copy with another id and flag; it shares the children. */
    constructor Copy(q: Query, id: string, getDeleted: bool)
      requires q.PlanOk()
      ensures this.id == id && maxDepth == q.maxDepth && children == q.children && PlanOk()
      ensures plan == q.plan.(id := id, getDeleted := getDeleted)
    {
      kind, this.id, filterOut, maxDepth := q.kind, id, q.filterOut, q.maxDepth;
      children, parent, this.getDeleted := q.children, q.parent, getDeleted;
      path, plan := q.path, q.plan.(id := id, getDeleted := getDeleted);
    }

    /** The node that plain depth traversal starts on a child. */
    constructor Fresh(id: string, getDeleted: bool)
      ensures this.id == id && children == [] && PlanOk() && plan == FreshPlan(id, getDeleted)
    {
      kind, this.id, filterOut, maxDepth, children, parent, this.getDeleted := "", id, {}, 0, [], null, getDeleted;
      path, plan := [], FreshPlan(id, getDeleted);
    }

    /** S is one closed tree in which parents and children agree: child i of a node is at
        that node's path extended by i. */
    static ghost predicate Shape(S: set<Query>)
      reads S`children, S`parent
    {
      (forall o :: o in S ==> o.HoldsChildren(S) && o.HeldByParent(S)) && OneRoot(S)
    }

    static ghost predicate OneRoot(S: set<Query>)
      reads S`parent
    {
      forall o, o' :: o in S && o' in S && o.parent == null && o'.parent == null ==> o == o'
    }

    ghost predicate HoldsChildren(S: set<Query>)
      reads this`children, S`parent
    {
      forall i :: 0 <= i < |children| ==> children[i] in S && children[i].Under(this, i)
    }

    ghost predicate HeldByParent(S: set<Query>)
      requires this in S
      reads S`children, S`parent
    {
      if parent == null then path == []
      else parent in S && HeldIn(parent.children)
    }

    ghost predicate HeldIn(kids: seq<Query>) {
      path != [] && path[|path| - 1] < |kids| && kids[path[|path| - 1]] == this
    }

    ghost predicate Under(p: Query, i: nat)
      reads this`parent
    {
      parent == p && path == p.path + [i]
    }

    /** The node's plan is what its fields and its children's plans say. */
    ghost predicate PlanOk()
      reads this, children`plan
    {
      && plan == Plan(kind, id, filterOut, maxDepth, plan.kids, getDeleted)
      && |plan.kids| == |children|
      && forall i :: 0 <= i < |children| ==> plan.kids[i] == children[i].plan
    }

    static ghost predicate Faithful(S: set<Query>)
      requires Shape(S)
      reads S
    {
      forall o :: o in S ==> o.PlanOk()
    }

    /** No node has two sub-queries of one kind. */
    static ghost predicate OnePerKind(S: set<Query>)
      requires Shape(S)
      reads S`children, S`parent, S`kind
    {
      forall o :: o in S ==> o.KindsApart(S)
    }

    ghost predicate KindsApart(S: set<Query>)
      requires HoldsChildren(S)
      reads this`children, S`parent, S`kind
    {
      forall i, j :: 0 <= i < j < |children| ==> children[i].kind != children[j].kind
    }

    /** So the plan of every node of a tree built with Collect has distinct kinds. */
    lemma {:induction false} PlanKindsApart(S: set<Query>)
      requires this in S && Shape(S) && Faithful(S) && OnePerKind(S)
      ensures DistinctKinds(plan)
      decreases plan
    {
      assert PlanOk() && KindsApart(S);
      forall i | 0 <= i < |children|
        ensures DistinctKinds(plan.kids[i]) && plan.kids[i].kind == children[i].kind
      {
        assert children[i].Under(this, i) && children[i].PlanOk();
        children[i].PlanKindsApart(S);
      }
    }

    /** The plans of all nodes but this one are right. */
    ghost predicate OthersOk(S: set<Query>)
      requires Shape(S)
      reads S - {this}, S`plan, S`children, S`parent
    {
      forall o :: o in S && o != this ==> o.PlanOk()
    }

    ghost predicate KidPlans(kids: seq<Plan>)
      reads this`children, children`plan
    {
      |kids| == |children| && forall i :: 0 <= i < |children| ==> kids[i] == children[i].plan
    }

    ghost method Refresh(S: set<Query>)
      requires this in S && Shape(S)
      requires forall o :: o in S && o != this ==> o.PlanOk()
      modifies this`plan
      ensures PlanOk()
      ensures forall o :: o in S && o != parent ==> o.PlanOk()
      ensures forall i :: 0 <= i < |children| ==> plan.kids[i] == old(children[i].plan)
    {
      plan := Plan(kind, id, filterOut, maxDepth,
                   seq(|children|, i requires 0 <= i < |children| reads this, children => children[i].plan), getDeleted);
    }

    /** Brings the plans on the way to the root up to date after this node has changed. */
    ghost method Climb(S: set<Query>)
      requires this in S && Shape(S)
      requires forall o :: o in S && o != this ==> o.PlanOk()
      modifies S`plan
      ensures Faithful(S)
      ensures forall o :: o in S && !(o.path <= path) ==> o.plan == old(o.plan)
      decreases |path|
    {
      Refresh(S);
      if parent != null {
        parent.Climb(S);
      }
    }

    /** The same, naming the new plan: the children's plans are not on that way. */
    ghost method ClimbTo(S: set<Query>, kids: seq<Plan>)
      requires this in S && Shape(S) && OthersOk(S) && KidPlans(kids)
      modifies S`plan
      ensures Faithful(S)
      ensures plan == Plan(kind, id, filterOut, maxDepth, kids, getDeleted)
    {
      forall i | 0 <= i < |children|
        ensures !(children[i].path <= path)
      {
        assert children[i].Under(this, i);
      }
      Climb(S);
    }

    // -------------------------------------------------------------- builder methods

    lemma Ready(S: set<Query>)
      requires this in S && Shape(S) && Faithful(S)
      ensures OthersOk(S) && KidPlans(plan.kids)
      ensures plan == Plan(kind, id, filterOut, maxDepth, plan.kids, getDeleted)
    {
      assert PlanOk();
    }

    method UptoDepth(level: int, ghost S: set<Query>)
      requires this in S && Shape(S) && Faithful(S)
      modifies this`maxDepth, S`plan
      ensures Faithful(S) && plan == old(plan).(maxDepth := level)
    {
      Ready(S);
      hide *;
      maxDepth := level;
      ClimbTo(S, plan.kids);
    }

    method AllowDeleted(ghost S: set<Query>)
      requires this in S && Shape(S) && Faithful(S)
      modifies this`getDeleted, S`plan
      ensures Faithful(S) && plan == old(plan).(getDeleted := true)
    {
      Ready(S);
      hide *;
      getDeleted := true;
      ClimbTo(S, plan.kids);
    }

    method FilterOut(property: string, ghost S: set<Query>)
      requires this in S && Shape(S) && Faithful(S)
      modifies this`filterOut, S`plan
      ensures Faithful(S) && plan == old(plan).(filterOut := old(plan).filterOut + {property})
    {
      Ready(S);
      hide *;
      filterOut := filterOut + {property};
      ClimbTo(S, plan.kids);
    }

    /** Puts a new node in place as the last child. */
    method Attach(child: Query, ghost S: set<Query>)
      requires this in S && child !in S && Shape(S)
      requires child.parent == this && child.path == path + [|children|] && child.children == []
      modifies this`children
      ensures children == old(children) + [child]
      ensures Shape(S + {child})
      ensures old(OnePerKind(S)) && (forall i :: 0 <= i < |old(children)| ==> old(children)[i].kind != child.kind) ==>
                OnePerKind(S + {child})
    {
      AttachInPlace(child, S);
      ghost var T := S + {child};
      if old(OnePerKind(S)) && forall i :: 0 <= i < |old(children)| ==> old(children)[i].kind != child.kind {
        forall o | o in T
          ensures o.HoldsChildren(T) && o.KindsApart(T)
        {
          if o in S {
            assert old(o.HoldsChildren(S)) && old(o.KindsApart(S));
          }
        }
      }
    }

    /** S is a tree but for this node's list of children, for which `kids` would do. */
    ghost predicate Fits(kids: seq<Query>, S: set<Query>)
      reads (S - {this})`children, S`parent
    {
      && (forall i :: 0 <= i < |kids| ==> kids[i] in S && kids[i].Under(this, i))
      && (forall o :: o in S && o != this ==> o.HoldsChildren(S))
      && (forall o :: o in S ==>
            if o.parent == null then o.path == []
            else o.parent in S && o.HeldIn(if o.parent == this then kids else o.parent.children))
      && OneRoot(S)
    }

    lemma FitsOf(S: set<Query>)
      requires this in S && Shape(S)
      ensures Fits(children, S)
    {
      forall o | o in S
        ensures o.HeldByParent(S)
      {
      }
    }

    lemma Grown(child: Query, S: set<Query>, kids: seq<Query>)
      requires this in S && child !in S && Fits(kids, S) && children == kids + [child]
      requires child.parent == this && child.path == path + [|kids|] && child.children == []
      ensures Shape(S + {child})
    {
      var T := S + {child};
      forall o | o in T
        ensures o.HoldsChildren(T)
      {
        assert o in S && o != this ==> o.HoldsChildren(S);
      }
      forall o | o in T
        ensures o.HeldByParent(T)
      {
        assert o in S && o.parent == this ==> o.HeldIn(kids);
      }
    }

    method AttachInPlace(child: Query, ghost S: set<Query>)
      requires this in S && child !in S && Shape(S)
      requires child.parent == this && child.path == path + [|children|] && child.children == []
      modifies this`children
      ensures children == old(children) + [child]
      ensures Shape(S + {child})
    {
      ghost var kids := children;
      FitsOf(S);
      hide *;
      children := children + [child];
      Grown(child, S, kids);
    }

    /** The same, with what the plans then say: only this node's is out of date. */
    method Adopt(child: Query, ghost S: set<Query>)
      requires this in S && child !in S && Shape(S) && Faithful(S) && child.PlanOk()
      requires child.parent == this && child.path == path + [|children|] && child.children == []
      modifies this`children
      ensures children == old(children) + [child]
      ensures Shape(S + {child}) && OthersOk(S + {child}) && KidPlans(plan.kids + [child.plan])
      ensures old(OnePerKind(S)) && (forall i :: 0 <= i < |old(children)| ==> old(children)[i].kind != child.kind) ==>
                OnePerKind(S + {child})
    {
      Ready(S);
      hide Shape, OnePerKind, PlanOk, Faithful, HoldsChildren, KindsApart;
      ghost var kids := plan.kids;
      Attach(child, S);
      forall o | o in S + {child} && o != this
        ensures o.PlanOk()
      {
        assert o != child ==> old(o.PlanOk());
      }
      assert KidPlans(kids + [child.plan]);
    }

    method AddChild(kind: string, ghost S: set<Query>) returns (child: Query)
      requires this in S && Shape(S) && Faithful(S)
      modifies this`children, S`plan
      ensures fresh(child) && child.parent == this && children == old(children) + [child]
      ensures Shape(S + {child}) && Faithful(S + {child})
      ensures child.children == [] && child.kind == kind && child.plan == Plan(kind, "", {}, 0, [], getDeleted)
      ensures plan == old(plan).(kids := old(plan).kids + [child.plan])
      ensures old(OnePerKind(S)) && (forall i :: 0 <= i < |old(children)| ==> old(children)[i].kind != kind) ==>
                OnePerKind(S + {child})
    {
      Ready(S);
      hide *;
      child := new Query.Child(kind, this, getDeleted, path + [|children|]);
      Adopt(child, S);
      ClimbTo(S + {child}, plan.kids + [child.plan]);
    }

    lemma InPlace(S: set<Query>, i: nat)
      requires this in S && Shape(S) && i < |children|
      ensures children[i] in S && children[i].parent == this
    {
      assert children[i].Under(this, i);
    }

    /** The sub-query for a kind: the existing one if there is one, or a new last one. So a
        node never has two sub-queries of one kind. */
    method Collect(kind: string, ghost S: set<Query>) returns (child: Query, ghost T: set<Query>)
      requires this in S && Shape(S) && Faithful(S)
      modifies this`children, S`plan
      ensures child.parent == this && child.kind == kind && child in T && T == S + {child}
      ensures Shape(T) && Faithful(T)
      ensures if exists i :: 0 <= i < |old(children)| && old(children)[i].kind == kind
              then child in old(children) && T == S && plan == old(plan)
              else fresh(child) && plan == old(plan).(kids := old(plan).kids + [Plan(kind, "", {}, 0, [], getDeleted)])
      ensures child in S ==> forall o :: o in S ==> o.plan == old(o.plan)
      ensures old(OnePerKind(S)) ==> OnePerKind(T)
    {
      hide *;
      var i := 0;
      while i < |children|
        invariant i <= |children| && forall j :: 0 <= j < i ==> children[j].kind != kind
      {
        if children[i].kind == kind {
          InPlace(S, i);
          return children[i], S;
        }
        i := i + 1;
      }
      child := AddChild(kind, S);
      T := S + {child};
    }

    method Root(ghost S: set<Query>) returns (r: Query)
      requires this in S && Shape(S)
      ensures r in S && r.parent == null && r.path == []
    {
      r := this;
      while r.parent != null
        invariant r in S
        decreases |r.path|
      {
        assert r.Under(r.parent, r.path[|r.path| - 1]);
        r := r.parent;
      }
    }

    // -------------------------------------------------------------- doRun

    /** The node is in the tree S or a copy of a node in it. */
    ghost predicate Over(S: set<Query>)
      requires Shape(S)
      reads this, S
    {
      Faithful(S) && (forall i :: 0 <= i < |children| ==> children[i] in S) && PlanOk()
    }

    /** `follow` holds, for each kind, the sub-query that the model follows. */
    static ghost predicate FollowOk(follow: map<string, Query>, kids: seq<Plan>, S: set<Query>)
      reads S
    {
      forall k ::
        (k in follow <==> Follow(kids, k).Some?) &&
        (k in follow ==> follow[k] in S && follow[k].plan == Follow(kids, k).value)
    }

    static lemma FollowAt(follow: map<string, Query>, kids: seq<Plan>, S: set<Query>, k: string)
      requires FollowOk(follow, kids, S)
      ensures k in follow <==> Follow(kids, k).Some?
      ensures k in follow ==> follow[k] in S && follow[k].plan == Follow(kids, k).value
    {
    }

    /** The loop that fills `follow`: of two sub-queries of one kind the later one stays. */
    method FollowMap(ghost S: set<Query>) returns (follow: map<string, Query>)
      requires Shape(S) && Over(S)
      ensures FollowOk(follow, plan.kids, S)
    {
      follow := map[];
      var i := 0;
      while i < |children|
        invariant i <= |children|
        invariant FollowOk(follow, plan.kids[..i], S)
      {
        assert plan.kids[..i + 1][..i] == plan.kids[..i];
        assert children[i].PlanOk();
        follow := follow[children[i].kind := children[i]];
        i := i + 1;
      }
      assert plan.kids[..i] == plan.kids;
    }

    /** The child that a row asks for, with its level and depth. */
    method Spawn(r: Instruction, level: int, max: int, follow: map<string, Query>, ghost S: set<Query>)
        returns (started: Option<Started>)
      requires Shape(S) && Over(S) && r.pred != PARENT && r.objectId != ""
      requires FollowOk(follow, plan.kids, S)
      ensures started.Some? ==> Sound(started.value, S)
      ensures SpawnOf(Call(plan, level, max), r) == if started.None? then None else Some(CallOf(started.value, S))
    {
      SpawnIs(Call(plan, level, max), r);
      OverParts(S);
      FollowAt(follow, plan.kids, S, r.pred);
      hide Shape, Over, Follow, SpawnOf, FollowOk;
      if r.pred in follow {
        var childq := follow[r.pred];
        childq.InTree(S);
        started := Some(Started(Some(childq), r.objectId, getDeleted, 0, childq.maxDepth));
      } else if level < max {
        started := Some(Started(None, r.objectId, getDeleted, level + 1, max));
      } else {
        started := None;
      }
    }

    /** The child's own Query: a copy of the followed one with the child's id, or a new one. */
    static method Own(k: Started, ghost S: set<Query>) returns (q: Query)
      requires Shape(S) && Faithful(S) && Sound(k, S)
      ensures fresh(q) && q.Over(S) && q.id == k.id && Call(q.plan, k.level, k.max) == CallOf(k, S)
    {
      hide Shape, Faithful, Query.Over, FreshPlan;
      if k.childq.Some? {
        q := CopyFor(k.childq.value, k.id, k.getDeleted, S);
      } else {
        q := FreshFor(k.id, k.getDeleted, S);
      }
    }

    static method FreshFor(id: string, getDeleted: bool, ghost S: set<Query>) returns (q: Query)
      requires Shape(S) && Faithful(S)
      ensures fresh(q) && q.Over(S) && q.id == id && q.plan == FreshPlan(id, getDeleted)
    {
      hide *;
      q := new Query.Fresh(id, getDeleted);
      q.IsOver(S);
    }

    static method CopyFor(childq: Query, id: string, getDeleted: bool, ghost S: set<Query>) returns (q: Query)
      requires Shape(S) && Faithful(S) && childq in S
      ensures fresh(q) && q.Over(S) && q.id == id && q.maxDepth == childq.plan.maxDepth
      ensures q.plan == childq.plan.(id := id, getDeleted := getDeleted)
    {
      childq.InTree(S);
      hide *;
      q := new Query.Copy(childq, id, getDeleted);
      q.IsOver(S);
    }

    lemma OverParts(S: set<Query>)
      requires Shape(S) && Over(S)
      ensures Faithful(S) && PlanOk() && plan.getDeleted == getDeleted
    {
    }

    lemma InTree(S: set<Query>)
      requires this in S && Shape(S) && Faithful(S)
      ensures PlanOk() && plan.maxDepth == maxDepth && forall i :: 0 <= i < |children| ==> children[i] in S
    {
      assert HoldsChildren(S);
    }

    lemma IsOver(S: set<Query>)
      requires Shape(S) && Faithful(S) && PlanOk() && forall i :: 0 <= i < |children| ==> children[i] in S
      ensures Over(S)
    {
    }

    /** A row that starts a child, or none. */
    method AddSpawn(it: Instruction, level: int, max: int, follow: map<string, Query>, started: seq<Started>,
                    ghost calls: seq<Call>, ghost S: set<Query>)
        returns (started': seq<Started>)
      requires Shape(S) && Over(S) && it.pred != PARENT && it.objectId != ""
      requires FollowOk(follow, plan.kids, S)
      requires AllSound(started, S) && CallsOf(started, S) == calls
      ensures AllSound(started', S) && CallsOf(started', S) == calls + SpawnFn(Call(plan, level, max))(it)
    {
      SpawnFnIs(Call(plan, level, max), it);
      hide Shape, Over, Follow, SpawnFn, SpawnOf;
      started' := started;
      var kid := Spawn(it, level, max, follow, S);
      if kid.Some? {
        started' := started + [kid.value];
      }
    }

    /** A row that does not discard; `before` are the rows handled so far. */
    method KeepRow(it: Instruction, level: int, max: int, follow: map<string, Query>, cols: map<string, Versions>,
                   started: seq<Started>, ghost before: seq<Instruction>, ghost S: set<Query>)
        returns (cols': map<string, Versions>, started': seq<Started>)
      requires Shape(S) && Over(S) && SortedByTs(before + [it])
      requires FollowOk(follow, plan.kids, S) && Hold(cols, Columns(before))
      requires AllSound(started, S) && CallsOf(started, S) == Spawns(Call(plan, level, max), before)
      modifies cols.Values`versions
      ensures Hold(cols', Columns(before + [it]))
      ensures fresh(cols'.Values - cols.Values)
      ensures AllSound(started', S) && CallsOf(started', S) == Spawns(Call(plan, level, max), before + [it])
    {
      ghost var c := Call(plan, level, max);
      RowAdded(c, before, it);
      hide *;
      cols', started' := cols, started;
      if it.pred == PARENT {
        return;
      }
      if it.objectId == "" {
        var ok;
        cols', ok := AddTo(cols, it.pred, ObjectOf(it), Columns(before));
        assert ok;
      } else {
        started' := AddSpawn(it, level, max, follow, started, Spawns(c, before), S);
      }
    }

    /** Whether the row discards: the delete mark, or a filtered predicate other than the
        parent row's. */
    method Discarded(it: Instruction) returns (discarded: bool)
      requires PlanOk()
      ensures discarded <==> Discards(plan, it)
    {
      discarded := (it.pred == DELETE && !getDeleted) || (it.pred != PARENT && it.pred in filterOut);
    }

    /** One turn of the loop, on row i. */
    method VisitRow(its: array<Instruction>, i: nat, level: int, max: int, follow: map<string, Query>,
                    cols: map<string, Versions>, started: seq<Started>, ghost rows: seq<Instruction>, ghost S: set<Query>)
        returns (discarded: bool, cols': map<string, Versions>, started': seq<Started>)
      requires Shape(S) && Over(S) && its[..] == rows && SortedByTs(rows) && i < its.Length
      requires FollowOk(follow, plan.kids, S) && Hold(cols, Columns(rows[..i])) && !AnyDiscards(plan, rows[..i])
      requires AllSound(started, S) && CallsOf(started, S) == Spawns(Call(plan, level, max), rows[..i])
      modifies cols.Values`versions
      ensures AllSound(started', S) && (discarded ==> AnyDiscards(plan, rows))
      ensures !discarded ==> !AnyDiscards(plan, rows[..i + 1]) && Hold(cols', Columns(rows[..i + 1]))
      ensures !discarded ==> CallsOf(started', S) == Spawns(Call(plan, level, max), rows[..i + 1])
      ensures fresh(cols'.Values - cols.Values)
    {
      OverParts(S);
      hide *;
      NextRow(plan, rows, i);
      cols', started' := cols, started;
      discarded := Discarded(its[i]);
      if !discarded {
        cols', started' := KeepRow(its[i], level, max, follow, cols, started, rows[..i], S);
      }
    }

    /** The loop over the sorted rows. An activation that is discarded leaves at once. */
    method VisitRows(its: array<Instruction>, level: int, max: int, follow: map<string, Query>, ghost S: set<Query>)
        returns (discarded: bool, cols: map<string, Versions>, started: seq<Started>)
      requires Shape(S) && Over(S) && SortedByTs(its[..]) && FollowOk(follow, plan.kids, S)
      ensures discarded <==> AnyDiscards(plan, its[..])
      ensures AllSound(started, S)
      ensures !discarded ==> Hold(cols, Columns(its[..])) && CallsOf(started, S) == Spawns(Call(plan, level, max), its[..])
    {
      ghost var rows := its[..];
      discarded, cols, started := false, map[], [];
      NoRows(Call(plan, level, max));
      assert !AnyDiscards(plan, []) && Hold(cols, map[]) && AllSound([], S) && CallsOf([], S) == [];
      hide *;
      assert rows[..0] == [];
      var i := 0;
      while i < its.Length
        invariant i <= its.Length && its[..] == rows && !AnyDiscards(plan, rows[..i])
        invariant Hold(cols, Columns(rows[..i])) && fresh(cols.Values)
        invariant AllSound(started, S) && CallsOf(started, S) == Spawns(Call(plan, level, max), rows[..i])
      {
        discarded, cols, started := VisitRow(its, i, level, max, follow, cols, started, rows, S);
        if discarded {
          return;
        }
        i := i + 1;
      }
      assert rows[..i] == rows;
    }

    /** The children's answers, awaited one after the other. */
    static method RunKids(log: seq<Instruction>, started: seq<Started>, ghost c: Call, ghost S: set<Query>)
        returns (results: seq<Result>)
      requires NamedKinds(log) && Shape(S) && Faithful(S) && AllSound(started, S)
      requires forall x :: x in CallsOf(started, S) ==> Below(x, c)
      ensures CanonAll(results) == CanonAll(FlatMap(AnswerFn(log), CallsOf(started, S)))
      ensures forall r :: r in results ==> QueryModel.Faithful(log, r)
      decreases Height(c.q), Gap(c), 1
    {
      hide Shape, Height, Gap, Keep, CanonAll, FlatMap, Delivers;
      ghost var calls := CallsOf(started, S);
      results := [];
      NoKids(log);
      assert calls[..0] == [];
      var i := 0;
      while i < |started|
        invariant i <= |started|
        invariant i <= |calls| && CanonAll(results) == CanonAll(FlatMap(AnswerFn(log), calls[..i]))
        invariant forall r :: r in results ==> QueryModel.Faithful(log, r)
      {
        var k := started[i];
        CallAt(started, S, i);
        assert calls[i] in calls;
        var q := Own(k, S);
        var m := q.DoRun(log, k.level, k.max, S);
        KidAnswered(log, calls, i, results, m);
        results := Keep(results, m);
        i := i + 1;
      }
      assert calls[..i] == calls;
    }

    /** doRun, with its children run one after the other once the rows have been visited. */
    method DoRun(log: seq<Instruction>, level: int, max: int, ghost S: set<Query>) returns (m: Result)
      requires NamedKinds(log) && Shape(S) && Over(S) && id != ""
      ensures Delivers(log, Call(plan, level, max), m)
      decreases Height(plan), Gap(Call(plan, level, max)), 3
    {
      assert plan.id == id;
      hide *;
      var its := GetEntity(log, id);
      Sort(its);
      IsFetched(log, id, its[..]);
      if its.Length == 0 {
        DiscardedIsRight(log, Call(plan, level, max), its[..]);
        return EMPTY;
      }
      m := Visit(log, its, level, max, S);
    }

    method Visit(log: seq<Instruction>, its: array<Instruction>, level: int, max: int, ghost S: set<Query>)
        returns (m: Result)
      requires NamedKinds(log) && Shape(S) && Over(S) && plan.id == id
      requires IsFetch(log, id, its[..]) && SortedByTs(its[..]) && its.Length > 0
      ensures Delivers(log, Call(plan, level, max), m)
      decreases Height(plan), Gap(Call(plan, level, max)), 2
    {
      hide *;
      ghost var c := Call(plan, level, max);
      ghost var rows := its[..];
      var follow := FollowMap(S);
      var discarded, cols, started := VisitRows(its, level, max, follow, S);
      if discarded {
        DiscardedIsRight(log, c, rows);
        return EMPTY;
      }
      SpawnsBelow(c, rows);
      OverParts(S);
      var kids := RunKids(log, started, c, S);
      FetchedAnswers(log, c, rows);
      NoneDiscards(plan, rows);
      AnsweredIsRight(log, c, rows, kids);
      m := Result(its[0].subjectId, its[0].subjectType, Contents(cols, Columns(rows)), kids);
    }

    /** Run, called on any node of the tree: the root decides. */
    method Run(log: seq<Instruction>, ghost S: set<Query>) returns (m: Option<Result>)
      requires this in S && Shape(S) && Faithful(S) && NamedKinds(log)
      ensures forall r :: r in S && r.parent == null ==>
                (m.None? <==> r.id == "") && (m.Some? ==> Delivers(log, RootCall(r.plan), m.value))
    {
      var q := Root(S);
      assert forall r :: r in S && r.parent == null ==> r == q;
      if |q.id| == 0 {
        return None;
      }
      q.InTree(S);
      q.IsOver(S);
      hide *;
      var got := q.DoRun(log, 0, q.maxDepth, S);
      m := Some(got);
    }
  }

  /** A child activation about to run: of a sub-query, or of plain depth. */
  datatype Started = Started(childq: Option<Query>, id: string, getDeleted: bool, level: int, max: int)

  ghost predicate Sound(k: Started, S: set<Query>) {
    k.id != "" && (k.childq.Some? ==> k.childq.value in S)
  }

  ghost predicate AllSound(s: seq<Started>, S: set<Query>) {
    forall k :: k in s ==> Sound(k, S)
  }

  ghost function CallOf(k: Started, S: set<Query>): Call
    requires Sound(k, S)
    reads S`plan
  {
    if k.childq.Some? then Call(k.childq.value.plan.(id := k.id, getDeleted := k.getDeleted), k.level, k.max)
    else Call(FreshPlan(k.id, k.getDeleted), k.level, k.max)
  }

  ghost function CallsOf(s: seq<Started>, S: set<Query>): (calls: seq<Call>)
    requires AllSound(s, S)
    reads S`plan
    ensures |calls| == |s|
  {
    if s == [] then [] else CallsOf(s[..|s| - 1], S) + [CallOf(s[|s| - 1], S)]
  }

  lemma CallAt(s: seq<Started>, S: set<Query>, i: nat)
    requires AllSound(s, S) && i < |s|
    ensures i < |CallsOf(s, S)| && Sound(s[i], S) && CallsOf(s, S)[i] == CallOf(s[i], S)
  {
    if i < |s| - 1 {
      CallAt(s[..|s| - 1], S, i);
    }
  }

  lemma NoRows(c: Call)
    ensures Columns([]) == map[] && Spawns(c, []) == []
  {
  }

  /** The columns hold these versions, each in an object of its own. */
  ghost predicate Hold(cols: map<string, Versions>, want: map<string, seq<Object>>)
    reads cols.Values
  {
    && cols.Keys == want.Keys
    && (forall p :: p in cols ==> cols[p].versions == want[p])
    && forall p, q :: p in cols && q in cols && p != q ==> cols[p] != cols[q]
  }

  method AddTo(cols: map<string, Versions>, p: string, o: Object, ghost want: map<string, seq<Object>>)
      returns (cols': map<string, Versions>, ok: bool)
    requires Hold(cols, want)
    modifies cols.Values`versions
    ensures ok == !AddIsFatal(want, p, o)
    ensures ok ==> Hold(cols', AddVersion(want, p, o))
    ensures fresh(cols'.Values - cols.Values)
  {
    cols' := cols;
    if p !in cols' {
      var vs := new Versions();
      cols' := cols'[p := vs];
    }
    ok := cols'[p].Add(o);
  }

  function Contents(cols: map<string, Versions>, ghost want: map<string, seq<Object>>): (m: map<string, seq<Object>>)
    requires Hold(cols, want)
    reads cols.Values
    ensures m == want
  {
    map p | p in cols :: cols[p].versions
  }

  /** What the store answers: the entity's rows, in an order of its own. */
  method GetEntity(log: seq<Instruction>, id: string) returns (its: array<Instruction>)
    ensures fresh(its) && multiset(its[..]) == multiset(RowsOf(log, id))
  {
    var rows := RowsOf(log, id);
    its := new Instruction[|rows|](i requires 0 <= i < |rows| => rows[i]);
    assert its[..] == rows;
  }

  lemma IsFetched(log: seq<Instruction>, id: string, its: seq<Instruction>)
    requires SortedByTs(its) && multiset(its) == multiset(RowsOf(log, id))
    ensures IsFetch(log, id, its)
  {
  }

  lemma FetchedAnswers(log: seq<Instruction>, c: Call, its: seq<Instruction>)
    requires IsFetch(log, c.q.id, its)
    ensures CanonAll(FlatMap(AnswerFn(log), Spawns(c, its))) ==
            CanonAll(FlatMap(AnswerFn(log), Spawns(c, RowsOf(log, c.q.id))))
  {
    hide RowsOf, FlatMap, CanonAll;
    AnswersReordered(log, c, its, RowsOf(log, c.q.id));
  }

  lemma DiscardedIsRight(log: seq<Instruction>, c: Call, its: seq<Instruction>)
    requires IsFetch(log, c.q.id, its)
    requires its == [] || AnyDiscards(c.q, its)
    ensures Delivers(log, c, EMPTY)
  {
    VisibleAnyOrder(log, c.q, its);
  }

  lemma NoKids(log: seq<Instruction>)
    ensures CanonAll([]) == CanonAll(FlatMap(AnswerFn(log), []))
  {
  }

  lemma KidAnswered(log: seq<Instruction>, calls: seq<Call>, i: nat, results: seq<Result>, m: Result)
    requires i < |calls| && calls[i].q.id != "" && Delivers(log, calls[i], m)
    requires CanonAll(results) == CanonAll(FlatMap(AnswerFn(log), calls[..i]))
    requires forall r :: r in results ==> Faithful(log, r)
    ensures CanonAll(Keep(results, m)) == CanonAll(FlatMap(AnswerFn(log), calls[..i + 1]))
    ensures forall r :: r in Keep(results, m) ==> Faithful(log, r)
  {
    hide *;
    DeliveredShare(log, calls[i], m);
    KeptShare(results, m);
    ShareIsAnswer(log, calls[i]);
    FlatMapTake(AnswerFn(log), calls, i + 1);
    CanonAllAppend(FlatMap(AnswerFn(log), calls[..i]), AnswerFn(log)(calls[i]));
  }

  lemma SpawnIs(c: Call, r: Instruction)
    requires r.pred != PARENT && r.objectId != ""
    ensures SpawnOf(c, r) ==
              match Follow(c.q.kids, r.pred)
              case Some(k) => Some(Call(k.(id := r.objectId, getDeleted := c.q.getDeleted), 0, k.maxDepth))
              case None => if c.level < c.max then Some(Call(FreshPlan(r.objectId, c.q.getDeleted), c.level + 1, c.max)) else None
  {
  }

  ghost predicate AnyDiscards(q: Plan, rows: seq<Instruction>) {
    exists i :: 0 <= i < |rows| && Discards(q, rows[i])
  }

  lemma NoneDiscards(q: Plan, rows: seq<Instruction>)
    ensures !AnyDiscards(q, rows) ==> forall i :: 0 <= i < |rows| ==> !Discards(q, rows[i])
  {
  }

  lemma NextRow(q: Plan, rows: seq<Instruction>, i: nat)
    requires SortedByTs(rows) && i < |rows|
    ensures rows[..i + 1] == rows[..i] + [rows[i]] && SortedByTs(rows[..i + 1])
    ensures AnyDiscards(q, rows[..i + 1]) <==> AnyDiscards(q, rows[..i]) || Discards(q, rows[i])
    ensures Discards(q, rows[i]) ==> AnyDiscards(q, rows)
  {
    if AnyDiscards(q, rows[..i]) {
      var j :| 0 <= j < i && Discards(q, rows[..i][j]);
      assert Discards(q, rows[..i + 1][j]);
    }
    assert rows[..i + 1][i] == rows[i];
  }

  /** What one more row in time order adds to columns and children; the fatal branch of
      Versions.add is out of reach. */
  lemma RowAdded(c: Call, before: seq<Instruction>, it: Instruction)
    requires SortedByTs(before + [it])
    ensures it.pred == PARENT || it.objectId == "" ==> Spawns(c, before + [it]) == Spawns(c, before)
    ensures it.pred == PARENT || it.objectId != "" ==> Columns(before + [it]) == Columns(before)
    ensures it.pred != PARENT && it.objectId == "" ==>
              !AddIsFatal(Columns(before), it.pred, ObjectOf(it)) &&
              Columns(before + [it]) == AddVersion(Columns(before), it.pred, ObjectOf(it))
    ensures Spawns(c, before + [it]) == Spawns(c, before) + SpawnFn(c)(it)
  {
    hide Columns, Spawns, AddIsFatal, AddVersion;
    var rows := before + [it];
    assert rows[..|before|] == before && rows[..|before| + 1] == rows;
    RowStep(c, rows, |before|);
    AddNeverFatal(rows, |before|);
  }

  lemma SpawnFnIs(c: Call, it: Instruction)
    ensures SpawnFn(c)(it) == if SpawnOf(c, it).Some? then [SpawnOf(c, it).value] else []
  {
  }
}
