/** Which rows Execute stores, said of the caller's draft alone: what each carries, who signs
    it and when (store/update.go:115-225). */
module UpdateRows {
  import opened Seqs
  import opened Types
  import opened UpdateModel
  import Versioning

  // ---------------------------------------------------------------- exactly these rows

  /** Row r is a property of d itself. */
  ghost predicate Property(d: Draft, r: Instruction) {
    r.pred in d.edges && r == Instruction(d.id, d.kind, r.pred, d.edges[r.pred], "", d.nanoTs, d.source)
  }

  /** Row r is the edge from d to its child k, or the way back; both are signed by d. */
  ghost predicate Link(d: Draft, k: Draft, r: Instruction) {
    || r == Instruction(d.id, d.kind, k.kind, "", k.id, d.nanoTs, d.source)
    || r == Instruction(k.id, k.kind, "_parent_", "", d.id, d.nanoTs, d.source)
  }

  /** The draft, or one of its descendants, asks for row r. */
  ghost predicate Says(d: Draft, r: Instruction)
    decreases d
  {
    Property(d, r) || exists k :: k in d.kids && (Link(d, k, r) || Says(k, r))
  }

  lemma {:induction false} PropertiesSaid(h: Head, props: seq<(string, string)>, r: Instruction)
    ensures r in PropertyRows(h, props) <==>
              exists i :: 0 <= i < |props| && r == Instruction(h.id, h.kind, props[i].0, props[i].1, "", h.nanoTs, h.source)
  {
    FlatMapMember(PropertyFn(h), props, r);
    if i :| 0 <= i < |props| && r == Instruction(h.id, h.kind, props[i].0, props[i].1, "", h.nanoTs, h.source) {
      assert r in PropertyFn(h)(props[i]);
    }
  }

  lemma OwnSaid(n: Node, d: Draft, r: Instruction)
    requires n.head == Head(d.kind, d.id, d.source, d.nanoTs) && ListsEdges(n.props, d.edges)
    ensures r in PropertyRows(n.head, n.props) <==> Property(d, r)
  {
    PropertiesSaid(n.head, n.props, r);
  }

  lemma {:induction false} KidsSaid(h: Head, kids: seq<Node>, r: Instruction)
    ensures r in FlatKids(h, kids) <==>
              exists i :: 0 <= i < |kids| && (r in EdgeRows(h, kids[i].head) || r in Flat(kids[i]))
    decreases |kids|
  {
    if kids != [] {
      hide Flat, EdgeRows;
      var n := |kids| - 1;
      KidsSaid(h, kids[..n], r);
      assert forall i :: 0 <= i < n ==> kids[..n][i] == kids[i];
    }
  }

  /** A successful Execute stores exactly the rows that the draft asks for: for every node
      its properties, and for every child an edge and a way back, both with the source and
      the time of the parent. */
  lemma {:induction false} RowsAreSaid(n: Node, d: Draft, r: Instruction)
    requires Lists(n, d)
    ensures r in Flat(n) <==> Says(d, r)
    decreases d
  {
    OwnSaid(n, d, r);
    KidsSaid(n.head, n.kids, r);
    FlatParts(n, r);
    hide Flat, FlatKids, PropertyRows, Property, ListsEdges, EdgeRows, Link;
    forall i | 0 <= i < |d.kids|
      ensures r in EdgeRows(n.head, n.kids[i].head) <==> Link(d, d.kids[i], r)
      ensures r in Flat(n.kids[i]) <==> Says(d.kids[i], r)
    {
      RowsAreSaid(n.kids[i], d.kids[i], r);
      LinkSaid(n, d, n.kids[i], d.kids[i], r);
    }
  }

  lemma AllSaid(n: Node, d: Draft)
    requires Lists(n, d)
    ensures forall r :: r in Flat(n) <==> Says(d, r)
  {
    forall r
      ensures r in Flat(n) <==> Says(d, r)
    {
      RowsAreSaid(n, d, r);
    }
  }

  lemma FlatParts(n: Node, r: Instruction)
    ensures r in Flat(n) <==> r in PropertyRows(n.head, n.props) || r in FlatKids(n.head, n.kids)
  {
  }

  lemma LinkSaid(n: Node, d: Draft, kid: Node, k: Draft, r: Instruction)
    requires Lists(n, d) && Lists(kid, k)
    ensures r in EdgeRows(n.head, kid.head) <==> Link(d, k, r)
  {
  }

  // ---------------------------------------------------------------- who signs, and when

  /** x is d or one of its descendants. */
  ghost predicate NodeOf(d: Draft, x: Draft)
    decreases d
  {
    x == d || exists k :: k in d.kids && NodeOf(k, x)
  }

  /** The reserved name is used neither for a property nor for a kind of children. */
  ghost predicate Unreserved(d: Draft)
    decreases d
  {
    "_parent_" !in d.edges && forall k :: k in d.kids ==> k.kind != "_parent_" && Unreserved(k)
  }

  /** Every row carries source and time of one node: a parent row those of the parent it
      names, any other row those of its subject. */
  lemma {:induction false} Signed(d: Draft, r: Instruction) returns (x: Draft)
    requires Says(d, r) && Unreserved(d)
    ensures NodeOf(d, x) && r.source == x.source && r.nanoTs == x.nanoTs
    ensures x.id == if r.pred == "_parent_" then r.objectId else r.subjectId
    decreases d
  {
    x := d;
    if !Property(d, r) {
      var k :| k in d.kids && (Link(d, k, r) || Says(k, r));
      if !Link(d, k, r) {
        x := Signed(k, r);
      }
    }
  }

  /** Execute's check for sources is exactly that no row goes unsigned. */
  lemma {:induction false} SourcedIff(d: Draft)
    ensures Sourced(d) <==> forall r :: Says(d, r) ==> r.source != ""
    decreases d
  {
    forall k | k in d.kids
      ensures Sourced(k) <==> forall r :: Says(k, r) ==> r.source != ""
    {
      SourcedIff(k);
    }
    if d.edges != map[] {
      var p :| p in d.edges;
      assert Property(d, Instruction(d.id, d.kind, p, d.edges[p], "", d.nanoTs, d.source));
    }
    if d.kids != [] {
      assert d.kids[0] in d.kids && Link(d, d.kids[0], Instruction(d.id, d.kind, d.kids[0].kind, "", d.kids[0].id, d.nanoTs, d.source));
    }
    if forall r :: Says(d, r) ==> r.source != "" {
      forall i | 0 <= i < |d.kids|
        ensures Sourced(d.kids[i])
      {
        assert forall r :: Says(d.kids[i], r) ==> Says(d, r);
      }
    }
  }

  lemma {:induction false} OneTime(n: Node, ts: int, r: Instruction)
    requires Versioning.OneStamp(n, ts) && r in Flat(n)
    ensures r.nanoTs == ts
    decreases n
  {
    PropertiesSaid(n.head, n.props, r);
    KidsSaid(n.head, n.kids, r);
    if i :| 0 <= i < |n.kids| && r in Flat(n.kids[i]) {
      OneTime(n.kids[i], ts, r);
    }
  }

  // ---------------------------------------------------------------- SetCommitTs

  /** The same tree but for timestamps, which are all ts. */
  ghost predicate Restamped(d: Draft, d': Draft, ts: int)
    decreases d
  {
    && d' == d.(nanoTs := ts, kids := d'.kids) && |d'.kids| == |d.kids|
    && forall i :: 0 <= i < |d.kids| ==> Restamped(d.kids[i], d'.kids[i], ts)
  }

  lemma {:induction false} StampedIs(d: Draft, ts: int)
    ensures Restamped(d, Stamped(d, ts), ts)
    decreases d
  {
    forall i | 0 <= i < |d.kids|
      ensures Restamped(d.kids[i], Stamped(d, ts).kids[i], ts)
    {
      StampedIs(d.kids[i], ts);
    }
  }

  lemma {:induction false} RestampedOnce(d: Draft, d': Draft, ts: int, n: Node)
    requires Restamped(d, d', ts) && Lists(n, d')
    ensures Versioning.OneStamp(n, ts)
    decreases d
  {
    forall i | 0 <= i < |n.kids|
      ensures Versioning.OneStamp(n.kids[i], ts)
    {
      RestampedOnce(d.kids[i], d'.kids[i], ts, n.kids[i]);
    }
  }

  /** After SetCommitTs(ts) on its root a draft asks for the same rows as before, all of them
      at time ts, and whatever Execute then lists has that one time throughout. */
  lemma StampedRows(d: Draft, ts: int, n: Node)
    requires Lists(n, Stamped(d, ts))
    ensures Versioning.OneStamp(n, ts)
    ensures forall r :: r in Flat(n) <==> r.nanoTs == ts && exists t :: Says(d, r.(nanoTs := t))
  {
    StampedIs(d, ts);
    RestampedOnce(d, Stamped(d, ts), ts, n);
    forall r
      ensures r in Flat(n) <==> r.nanoTs == ts && exists t :: Says(d, r.(nanoTs := t))
    {
      RowsAreSaid(n, Stamped(d, ts), r);
      if r in Flat(n) {
        OneTime(n, ts, r);
        var t := SaidBefore(d, Stamped(d, ts), ts, r);
      }
      if t :| r.nanoTs == ts && Says(d, r.(nanoTs := t)) {
        SaidAfter(d, Stamped(d, ts), ts, r.(nanoTs := t));
      }
    }
  }

  lemma {:induction false} SaidBefore(d: Draft, d': Draft, ts: int, r: Instruction) returns (t: int)
    requires Restamped(d, d', ts) && Says(d', r)
    ensures Says(d, r.(nanoTs := t))
    decreases d
  {
    t := d.nanoTs;
    if !Property(d', r) {
      var k' :| k' in d'.kids && (Link(d', k', r) || Says(k', r));
      var i :| 0 <= i < |d'.kids| && d'.kids[i] == k';
      if Link(d', k', r) {
        assert Link(d, d.kids[i], r.(nanoTs := t));
      } else {
        t := SaidBefore(d.kids[i], k', ts, r);
      }
    } else {
      assert Property(d, r.(nanoTs := t));
    }
  }

  lemma {:induction false} SaidAfter(d: Draft, d': Draft, ts: int, r: Instruction)
    requires Restamped(d, d', ts) && Says(d, r)
    ensures Says(d', r.(nanoTs := ts))
    decreases d
  {
    if !Property(d, r) {
      var k :| k in d.kids && (Link(d, k, r) || Says(k, r));
      var i :| 0 <= i < |d.kids| && d.kids[i] == k;
      assert d'.kids[i] in d'.kids;
      if Link(d, k, r) {
        assert Link(d', d'.kids[i], r.(nanoTs := ts));
      } else {
        SaidAfter(k, d'.kids[i], ts, r);
      }
    } else {
      assert Property(d', r.(nanoTs := ts));
    }
  }
}
