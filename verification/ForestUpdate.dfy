/** When the ids that one Execute draws make it a step of a forest history. IsNew asks the
    store only, so the draws of one run must differ from each other and from the root. */
module ForestUpdate {
  import opened Seqs
  import opened Types
  import opened UpdateModel
  import opened UpdateBuilder
  import opened Forest

  function DraftIds(d: Draft): seq<string>
    decreases d
  {
    [d.id] + DraftIdsIn(d.kids)
  }

  function DraftIdsIn(kids: seq<Draft>): seq<string>
    decreases kids
  {
    if kids == [] then [] else DraftIdsIn(kids[..|kids| - 1]) + DraftIds(kids[|kids| - 1])
  }

  ghost predicate Injective(draws: nat -> string, lo: nat, hi: nat) {
    forall i, j :: lo <= i < j < hi ==> draws(i) != draws(j)
  }

  ghost predicate DrawnAt(draws: nat -> string, lo: nat, hi: nat, id: string, j: nat) {
    lo <= j < hi && draws(j) == id
  }

  ghost predicate Drawn(draws: nat -> string, isNew: string -> bool, lo: nat, hi: nat, ids: seq<string>) {
    forall i :: 0 <= i < |ids| ==> isNew(ids[i]) && exists j :: DrawnAt(draws, lo, hi, ids[i], j)
  }

  lemma DrawnWider(draws: nat -> string, isNew: string -> bool, lo: nat, hi: nat, lo': nat, hi': nat, ids: seq<string>)
    requires Drawn(draws, isNew, lo, hi, ids) && lo' <= lo && hi <= hi'
    ensures Drawn(draws, isNew, lo', hi', ids)
  {
    forall i | 0 <= i < |ids|
      ensures isNew(ids[i]) && exists j :: DrawnAt(draws, lo', hi', ids[i], j)
    {
      var j :| DrawnAt(draws, lo, hi, ids[i], j);
      assert DrawnAt(draws, lo', hi', ids[i], j);
    }
  }

  /** Ids from two stretches of different draws do not meet. */
  lemma Stretches(draws: nat -> string, isNew: string -> bool, lo: nat, mid: nat, hi: nat, a: seq<string>, b: seq<string>)
    requires Drawn(draws, isNew, lo, mid, a) && Drawn(draws, isNew, mid, hi, b) && lo <= mid <= hi
    ensures Drawn(draws, isNew, lo, hi, a + b)
    ensures Injective(draws, lo, hi) && NoDuplicates(a) && NoDuplicates(b) ==> NoDuplicates(a + b)
  {
    DrawnWider(draws, isNew, lo, mid, lo, hi, a);
    DrawnWider(draws, isNew, mid, hi, lo, hi, b);
    forall i, j | 0 <= i < |a| && 0 <= j < |b| && Injective(draws, lo, hi)
      ensures a[i] != b[j]
    {
      var k :| DrawnAt(draws, lo, mid, a[i], k);
      var l :| DrawnAt(draws, mid, hi, b[j], l);
    }
    assert forall i :: 0 <= i < |a + b| ==> (a + b)[i] == if i < |a| then a[i] else b[i - |a|];
  }

  lemma {:induction false} AssignedKids(kids: seq<Draft>, draws: nat -> string, isNew: string -> bool, cur: nat)
    requires AssignKids(kids, draws, isNew, cur).0.Some?
    ensures var (ks, next) := AssignKids(kids, draws, isNew, cur);
            cur <= next && Drawn(draws, isNew, cur, next, DraftIdsIn(ks.value)) &&
            (Injective(draws, cur, next) ==> NoDuplicates(DraftIdsIn(ks.value)))
    decreases kids
  {
    if kids != [] {
      var n := |kids| - 1;
      var (done, c1) := AssignKids(kids[..n], draws, isNew, cur);
      var (kid, c2) := AssignKid(kids[n], draws, isNew, c1);
      AssignedForward(kids[n], draws, isNew, c1);
      AssignedKids(kids[..n], draws, isNew, cur);
      AssignedKid(kids[n], draws, isNew, c1);
      Stretches(draws, isNew, cur, c1, c2, DraftIdsIn(done.value), DraftIds(kid.value));
      assert (done.value + [kid.value])[..|done.value|] == done.value;
    }
  }

  lemma {:induction false} AssignedForward(k: Draft, draws: nat -> string, isNew: string -> bool, cur: nat)
    ensures cur <= AssignKid(k, draws, isNew, cur).1
    decreases k
  {
    FoundId(draws, isNew, cur, 0);
    if k.id == "" && FindId(draws, isNew, cur, 0).0.Some? {
      AssignedKidsForward(k.kids, draws, isNew, FindId(draws, isNew, cur, 0).1);
    }
  }

  lemma {:induction false} AssignedKidsForward(kids: seq<Draft>, draws: nat -> string, isNew: string -> bool, cur: nat)
    ensures cur <= AssignKids(kids, draws, isNew, cur).1
    decreases kids
  {
    if kids != [] {
      var n := |kids| - 1;
      AssignedKidsForward(kids[..n], draws, isNew, cur);
      AssignedForward(kids[n], draws, isNew, AssignKids(kids[..n], draws, isNew, cur).1);
    }
  }

  lemma {:induction false} AssignedKid(k: Draft, draws: nat -> string, isNew: string -> bool, cur: nat)
    requires AssignKid(k, draws, isNew, cur).0.Some?
    ensures var (d, next) := AssignKid(k, draws, isNew, cur);
            Drawn(draws, isNew, cur, next, DraftIds(d.value)) &&
            (Injective(draws, cur, next) ==> NoDuplicates(DraftIds(d.value)))
    decreases k
  {
    hide *;
    KidParts(k, draws, isNew, cur);
    var (id, c1) := FindId(draws, isNew, cur, 0);
    var (kids, c2) := AssignKids(k.kids, draws, isNew, c1);
    FoundId(draws, isNew, cur, 0);
    AssignedKidsForward(k.kids, draws, isNew, c1);
    AssignedKids(k.kids, draws, isNew, c1);
    OneDrawn(draws, isNew, cur, c1, id.value);
    if Injective(draws, cur, c2) {
      InjectiveWithin(draws, cur, c1, c2);
    }
    Stretches(draws, isNew, cur, c1, c2, [id.value], DraftIdsIn(kids.value));
  }

  lemma KidParts(k: Draft, draws: nat -> string, isNew: string -> bool, cur: nat)
    requires AssignKid(k, draws, isNew, cur).0.Some?
    ensures var (d, next) := AssignKid(k, draws, isNew, cur);
            var (id, c1) := FindId(draws, isNew, cur, 0);
            var (kids, c2) := AssignKids(k.kids, draws, isNew, c1);
            id.Some? && kids.Some? && next == c2 && DraftIds(d.value) == [id.value] + DraftIdsIn(kids.value)
  {
    var r := AssignKid(k, draws, isNew, cur);
    assert k.id == "" && FindId(draws, isNew, cur, 0).0.Some?;
  }

  lemma InjectiveWithin(draws: nat -> string, lo: nat, mid: nat, hi: nat)
    requires Injective(draws, lo, hi) && lo <= mid
    ensures Injective(draws, mid, hi) && (mid <= hi ==> Injective(draws, lo, mid))
  {
  }

  lemma OneDrawn(draws: nat -> string, isNew: string -> bool, lo: nat, hi: nat, id: string)
    requires lo < hi && isNew(id) && draws(hi - 1) == id
    ensures Drawn(draws, isNew, lo, hi, [id]) && NoDuplicates([id])
  {
    assert DrawnAt(draws, lo, hi, [id][0], hi - 1);
  }

  lemma {:induction false} ListedIds(n: Node, d: Draft)
    requires Lists(n, d)
    ensures Ids(n) == DraftIds(d)
    decreases d
  {
    ListedIdsIn(n.kids, d.kids);
  }

  lemma {:induction false} ListedIdsIn(kids: seq<Node>, drafts: seq<Draft>)
    requires |kids| == |drafts| && forall i :: 0 <= i < |drafts| ==> Lists(kids[i], drafts[i])
    ensures IdsIn(kids) == DraftIdsIn(drafts)
    decreases drafts
  {
    if drafts != [] {
      var n := |drafts| - 1;
      ListedIdsIn(kids[..n], drafts[..n]);
      ListedIds(kids[n], drafts[n]);
    }
  }

  /** The same tree, but for the ids of descendants, which d lacks and d' has. */
  ghost predicate Named(d: Draft, d': Draft)
    decreases d
  {
    && d' == d.(id := d'.id, kids := d'.kids) && |d'.kids| == |d.kids|
    && forall i :: 0 <= i < |d.kids| ==> d.kids[i].id == "" && Named(d.kids[i], d'.kids[i])
  }

  /** Giving out ids changes nothing else: kinds, sources, times, properties and the shape of
      the tree stay as the caller built them. */
  lemma {:induction false} AssignedNamed(kids: seq<Draft>, draws: nat -> string, isNew: string -> bool, cur: nat)
    requires AssignKids(kids, draws, isNew, cur).0.Some?
    ensures var ks := AssignKids(kids, draws, isNew, cur).0.value;
            |ks| == |kids| && forall i :: 0 <= i < |kids| ==> kids[i].id == "" && Named(kids[i], ks[i])
    decreases kids
  {
    if kids != [] {
      var n := |kids| - 1;
      AssignedNamed(kids[..n], draws, isNew, cur);
      KidNamed(kids[n], draws, isNew, AssignKids(kids[..n], draws, isNew, cur).1);
    }
  }

  lemma {:induction false} KidNamed(k: Draft, draws: nat -> string, isNew: string -> bool, cur: nat)
    requires AssignKid(k, draws, isNew, cur).0.Some?
    ensures k.id == "" && Named(k, AssignKid(k, draws, isNew, cur).0.value)
    decreases k
  {
    AssignedNamed(k.kids, draws, isNew, FindId(draws, isNew, cur, 0).1);
  }

  /** The ids that one Execute gives to the tree: the root's own, then those it drew. */
  ghost function AssignedIds(log: seq<Instruction>, d: Draft, draws: nat -> string): seq<string>
    requires AssignKids(d.kids, draws, IsNewIn(log), 0).0.Some?
  {
    [d.id] + DraftIdsIn(AssignKids(d.kids, draws, IsNewIn(log), 0).0.value)
  }

  /** A successful Execute wrote tree n for draft d. */
  ghost predicate Wrote(log: seq<Instruction>, d: Draft, draws: nat -> string, n: Node) {
    var ks := AssignKids(d.kids, draws, IsNewIn(log), 0).0;
    ks.Some? && Lists(n, d.(kids := ks.value))
  }

  /** All drawn ids are new to the store; that they differ from each other is another matter. */
  lemma WroteIds(log: seq<Instruction>, d: Draft, draws: nat -> string, n: Node)
    requires Wrote(log, d, draws, n)
    ensures n.head.id == d.id && Ids(n) == AssignedIds(log, d, draws)
    ensures forall id :: id in IdsIn(n.kids) ==> Unused(log, id)
  {
    hide Lists, AssignKids;
    var ks := AssignKids(d.kids, draws, IsNewIn(log), 0).0;
    AssignedKids(d.kids, draws, IsNewIn(log), 0);
    ListedIds(n, d.(kids := ks.value));
    var ids := DraftIdsIn(ks.value);
    forall i | 0 <= i < |ids|
      ensures Unused(log, ids[i])
    {
      UnusedRows(log, ids[i]);
    }
    assert Ids(n)[1..] == IdsIn(n.kids) && AssignedIds(log, d, draws)[1..] == ids;
  }

  /** A successful Execute keeps the forest if and only if the ids it assigned, which are a
      function of the draft, the draws and the store, are distinct. */
  lemma ExecuteKeepsForest(log: seq<Instruction>, d: Draft, draws: nat -> string, n: Node)
    requires IsForest(log) && Plain(n) && Wrote(log, d, draws, n)
    ensures IsForest(log + Flat(n)) <==> NoDuplicates(AssignedIds(log, d, draws))
    ensures Executable(log, n) <==> NoDuplicates(AssignedIds(log, d, draws))
  {
    hide Wrote, IsForest, Flat, Plain, AssignedIds;
    WroteIds(log, d, draws, n);
    ForestIffDistinct(log, n);
  }

  /** That is so when the draws differ from each other and from the root's id. */
  lemma DistinctDraws(log: seq<Instruction>, d: Draft, draws: nat -> string)
    requires AssignKids(d.kids, draws, IsNewIn(log), 0).0.Some?
    requires Injective(draws, 0, AssignKids(d.kids, draws, IsNewIn(log), 0).1)
    requires forall j :: 0 <= j < AssignKids(d.kids, draws, IsNewIn(log), 0).1 ==> draws(j) != d.id
    ensures NoDuplicates(AssignedIds(log, d, draws))
  {
    hide AssignKids;
    var (ks, next) := AssignKids(d.kids, draws, IsNewIn(log), 0);
    AssignedKids(d.kids, draws, IsNewIn(log), 0);
    var ids := DraftIdsIn(ks.value);
    forall i | 0 <= i < |ids|
      ensures ids[i] != d.id
    {
      var j :| DrawnAt(draws, 0, next, ids[i], j);
    }
    assert forall i :: 0 < i <= |ids| ==> AssignedIds(log, d, draws)[i] == ids[i - 1];
  }

  /** A generator that repeats itself. */
  function Stuck(): nat -> string {
    (j: nat) => "a"
  }

  function TwoKids(id: string): Draft {
    var kid := Draft("K", id, "s", map[], 0, []);
    Draft("R", "r", "s", map[], 0, [kid, kid])
  }

  lemma StuckIds()
    ensures AssignKids(TwoKids("").kids, Stuck(), IsNewIn([]), 0) == (Some(TwoKids("a").kids), 2)
  {
    var draws, isNew := Stuck(), IsNewIn([]);
    var kids := TwoKids("").kids;
    var kid, named := kids[0], TwoKids("a").kids[0];
    UnusedRows([], "a");
    assert isNew("a");
    assert FindId(draws, isNew, 0, 0) == (Some("a"), 1);
    assert FindId(draws, isNew, 1, 0) == (Some("a"), 2);
    Update.AssignNone(draws, isNew, 1);
    Update.AssignNone(draws, isNew, 2);
    Update.AssignNone(draws, isNew, 0);
    assert kids[..0] == [] && kids[..2] == kids;
    Update.AssignStep(kids, 0, draws, isNew, 0, [], 0);
    assert AssignKid(kid, draws, isNew, 0) == (Some(named), 1);
    assert AssignKid(kid, draws, isNew, 1) == (Some(named), 2);
    assert [] + [named] == [named];
    Update.AssignStep(kids, 1, draws, isNew, 0, [named], 1);
    assert [named] + [named] == TwoKids("a").kids;
  }

  function Twins(): Node {
    var k := Node(Head("K", "a", "s", 0), [], []);
    Node(Head("R", "r", "s", 0), [], [k, k])
  }

  lemma TwinsListed()
    ensures Lists(Twins(), TwoKids("a")) && Plain(Twins())
  {
    var k := Twins().kids[0];
    assert Lists(k, TwoKids("a").kids[0]);
    assert PlainKids([]) && Plain(k);
  }

  lemma TwinRows()
    ensures !IsForest(Flat(Twins()))
  {
    hide IsForest;
    var k := Twins().kids[0];
    var h := Twins().head;
    assert [k][..0] == [] && [k, k][..1] == [k];
    assert Flat(k) == [];
    var edge := EdgeRows(h, k.head);
    assert FlatKids(h, [k]) == edge;
    assert FlatKids(h, [k, k]) == edge + edge;
    assert Flat(Twins()) == edge + edge;
    TwoEdges(edge + edge);
  }

  lemma TwoEdges(log: seq<Instruction>)
    requires |log| > 2 && IsEdge(log[0]) && IsEdge(log[2]) && log[0].objectId == log[2].objectId
    ensures !IsForest(log)
  {
  }

  /** Without that condition it can fail: when the generator repeats itself within one run,
      two children of a new root share an id, which then has two parent rows. */
  lemma RepeatedDrawBreaksForest()
    ensures AssignKids(TwoKids("").kids, Stuck(), IsNewIn([]), 0).0 == Some(TwoKids("a").kids)
    ensures exists n :: Lists(n, TwoKids("a")) && Plain(n) && !IsForest(Flat(n))
  {
    hide *;
    StuckIds();
    TwinsListed();
    TwinRows();
  }
}
