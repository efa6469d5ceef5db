/** LoopOnce driven by the LevelDB Iterate: each chunk starts again at the last entity of
    the one before (drivers/leveldb/leveldb.go:128-163, indexer/server.go:58-77). */
module LevelScan {
  import opened Seqs
  import opened Types
  import opened UpdateModel
  import opened KeyOrder
  import opened LeveldbDriver
  import opened Paging

  ghost predicate OneKind(log: seq<Instruction>) {
    forall i, j :: 0 <= i < |log| && 0 <= j < |log| && log[i].subjectId == log[j].subjectId ==>
      log[i].subjectType == log[j].subjectType
  }

  // ---------------------------------------------------------------- keys in order

  /** K lists keys in order, es the entities they belong to. */
  ghost predicate Sorted(K: seq<string>, es: seq<Entity>) {
    && |K| == |es| && Ascending(K)
    && (forall i :: 0 <= i < |K| ==> IsKeyOf(K[i], es[i].id))
    && (forall i, j :: 0 <= i < |es| && 0 <= j < |es| && es[i].id != es[j].id ==> Apart(es[i].id, es[j].id))
    && (forall i, j :: 0 <= i < |es| && 0 <= j < |es| && es[i].id == es[j].id ==> es[i] == es[j])
  }

  /** A key compares with an id that is apart from its own as the two ids do. */
  lemma KeyVersusId(key: string, id: string, other: string)
    requires IsKeyOf(key, id) && Apart(id, other)
    ensures Less(key, other) <==> Less(id, other)
    ensures Less(other, key) <==> Less(other, id)
  {
    OwnPrefix(key, id);
    assert key == id + key[|id|..];
    assert other == other + "";
    LessExtended(id, other, key[|id|..], "");
    LessExtended(other, id, "", key[|id|..]);
  }

  lemma IdsInOrder(K: seq<string>, es: seq<Entity>, i: nat, j: nat)
    requires Sorted(K, es) && i < j < |es| && es[i].id != es[j].id
    ensures Less(es[i].id, es[j].id)
  {
    var a, b := es[i].id, es[j].id;
    OwnPrefix(K[i], a);
    OwnPrefix(K[j], b);
    assert K[i] == a + K[i][|a|..] && K[j] == b + K[j][|b|..];
    LessExtended(a, b, K[i][|a|..], K[j][|b|..]);
    assert Less(K[i], K[j]);
  }

  lemma SortedIsContiguous(K: seq<string>, es: seq<Entity>)
    requires Sorted(K, es)
    ensures Contiguous(es)
  {
    forall i, j, k | 0 <= i < j < k < |es| && es[i].id == es[k].id
      ensures es[j].id == es[i].id
    {
      if es[j].id != es[i].id {
        IdsInOrder(K, es, i, j);
        IdsInOrder(K, es, j, k);
        LessTransitive(es[i].id, es[j].id, es[i].id);
        LessIrreflexive(es[i].id);
      }
    }
  }

  /** Starting at an id that the store holds, the scan begins at that id's first row. */
  lemma StartsAtGroup(K: seq<string>, es: seq<Entity>, s: nat, i: nat)
    requires Sorted(K, es) && s < |es| && Boundary(es, s) && i < |K|
    ensures Less(K[i], es[s].id) <==> i < s
  {
    var id := es[s].id;
    SortedIsContiguous(K, es);
    if es[i].id == id {
      OwnPrefix(K[i], id);
      assert K[i] == id + K[i][|id|..];
      NotLessThanPrefix(id, K[i][|id|..]);
      if i < s {
        BoundaryApart(es, s, i, s);
      }
    } else {
      KeyVersusId(K[i], es[i].id, id);
      if i < s {
        IdsInOrder(K, es, i, s);
      } else {
        IdsInOrder(K, es, s, i);
        if Less(es[i].id, id) {
          LessTransitive(id, es[i].id, id);
          LessIrreflexive(id);
        }
      }
    }
  }

  lemma TailMember(s: seq<string>, k: string)
    requires Ascending(s) && s != []
    ensures k in s[1..] <==> k in s && k != s[0]
  {
    AscendingDistinct(s);
    assert s == [s[0]] + s[1..];
    if k in s[1..] {
      var i :| 0 <= i < |s[1..]| && s[1..][i] == k;
      assert s[i + 1] == k;
    }
  }

  /** There is one ascending list of given keys. */
  lemma {:induction false} OneScan(a: seq<string>, b: seq<string>)
    requires Ascending(a) && Ascending(b) && forall k :: k in a <==> k in b
    ensures a == b
  {
    assert b != [] ==> b[0] in b;
    if a != [] {
      assert a[0] in b;
      assert b[0] in a;
      var i :| 0 <= i < |b| && b[i] == a[0];
      var j :| 0 <= j < |a| && a[j] == b[0];
      if a[0] != b[0] {
        LessTransitive(a[0], a[j], a[0]);
        LessIrreflexive(a[0]);
      }
      forall k
        ensures k in a[1..] <==> k in b[1..]
      {
        TailMember(a, k);
        TailMember(b, k);
      }
      OneScan(a[1..], b[1..]);
    }
  }

  // ---------------------------------------------------------------- chunks

  /** The whole store in key order: all keys and their entities. */
  ghost predicate Whole(db: map<string, Instruction>, K: seq<string>, es: seq<Entity>) {
    IsScan(db, "", K) && (forall k :: k in K ==> k in db) && es == EntitiesAt(db, K) && Sorted(K, es)
  }

  /** K[i] is the key of some committed row x. */
  ghost predicate RowOfKey(keys: seq<string>, log: seq<Instruction>, K: seq<string>, es: seq<Entity>, i: int, x: int)
    requires |K| == |es| && |keys| == |log|
  {
    0 <= i < |K| && 0 <= x < |log| && keys[x] == K[i] && es[i] == EntityOf(log[x])
  }

  lemma FindRow(db: map<string, Instruction>, keys: seq<string>, log: seq<Instruction>, K: seq<string>, i: nat) returns (x: nat)
    requires Stores(db, keys, log) && IsScan(db, "", K) && i < |K|
    ensures RowOfKey(keys, log, K, EntitiesAt(db, K), i, x)
  {
    assert K[i] in K && K[i] in keys;
    x :| 0 <= x < |keys| && keys[x] == K[i];
  }

  lemma StoreIsSorted(db: map<string, Instruction>, keys: seq<string>, log: seq<Instruction>, K: seq<string>)
    requires Stores(db, keys, log) && PrefixFree(log) && OneKind(log) && IsScan(db, "", K)
    ensures Sorted(K, EntitiesAt(db, K))
  {
    var es := EntitiesAt(db, K);
    forall i | 0 <= i < |K|
      ensures IsKeyOf(K[i], es[i].id)
    {
      var x := FindRow(db, keys, log, K, i);
    }
    forall i, j | 0 <= i < |es| && 0 <= j < |es|
      ensures es[i].id != es[j].id ==> Apart(es[i].id, es[j].id)
      ensures es[i].id == es[j].id ==> es[i] == es[j]
    {
      hide Stores, IsScan, EntitiesAt, IsKeyOf;
      var x := FindRow(db, keys, log, K, i);
      var y := FindRow(db, keys, log, K, j);
    }
  }

  lemma StoreIsWhole(db: map<string, Instruction>, keys: seq<string>, log: seq<Instruction>, K: seq<string>)
    requires Stores(db, keys, log) && PrefixFree(log) && OneKind(log) && IsScan(db, "", K)
    ensures Whole(db, K, EntitiesAt(db, K))
    ensures forall e :: e in EntitiesAt(db, K) <==> Touches(log, e)
  {
    hide PrefixFree, OneKind, Sorted, IsKeyOf;
    StoreIsSorted(db, keys, log, K);
    var es := EntitiesAt(db, K);
    forall e
      ensures e in es <==> Touches(log, e)
    {
      if i :| 0 <= i < |es| && es[i] == e {
        var x := FindRow(db, keys, log, K, i);
        assert EntityOf(log[x]) == e;
      }
      if x :| 0 <= x < |log| && EntityOf(log[x]) == e {
        NothingLess(keys[x]);
        assert keys[x] in K;
        var i :| 0 <= i < |K| && K[i] == keys[x];
        assert es[i] == e;
      }
    }
  }

  /** A later scan is the rest of the whole one. */
  lemma RestOfScan(db: map<string, Instruction>, K: seq<string>, es: seq<Entity>, s: nat, fromId: string, scan: seq<string>)
    requires Whole(db, K, es) && s <= |K| && IsScan(db, fromId, scan)
    requires forall i :: 0 <= i < |K| ==> (Less(K[i], fromId) <==> i < s)
    ensures scan == K[s..] && (forall k :: k in scan ==> k in db) && EntitiesAt(db, scan) == es[s..]
  {
    hide Less, Sorted;
    forall k
      ensures k in scan <==> k in K[s..]
    {
      if k in scan {
        assert k in K by {
          NothingLess(k);
        }
        var i :| 0 <= i < |K| && K[i] == k;
        assert K[s..][i - s] == k;
      }
      if k in K[s..] {
        var i :| 0 <= i < |K[s..]| && K[s..][i] == k;
        assert K[s + i] == k;
      }
    }
    assert forall i, j :: 0 <= i < j < |K[s..]| ==> K[s..][i] == K[s + i] && K[s..][j] == K[s + j];
    OneScan(scan, K[s..]);
  }

  lemma NothingLess(k: string)
    ensures !Less(k, "")
  {
  }

  lemma SameIdSame(es: seq<Entity>)
    requires Contiguous(es)
    ensures forall i :: 0 < i < |es| && es[i - 1].id == es[i].id ==> es[i - 1] == es[i]
  {
  }

  /** Where the group of row i starts. */
  lemma {:induction false} GroupStart(es: seq<Entity>, i: nat) returns (s: nat)
    requires Contiguous(es) && i < |es|
    ensures s <= i && Boundary(es, s) && es[s] == es[i]
    ensures Firsts(es[..i + 1]) == Firsts(es[..s]) + [es[i]]
  {
    hide Contiguous;
    SameIdSame(es);
    if i > 0 && es[i - 1].id == es[i].id {
      s := GroupStart(es, i - 1);
      assert es[i - 1] == es[i];
      FirstsSame(es, i, i + 1);
    } else {
      s := i;
      assert es[..i + 1][..i] == es[..i];
      FirstsAre(es[..i]);
      forall j | 0 <= j < |es[..i]|
        ensures es[..i][j] != es[i]
      {
        BoundaryApart(es, i, j, i);
      }
    }
  }

  /** How many entities have been passed when chunk c starts. */
  function Passed(c: nat, num: nat, total: nat): nat
    requires num >= 1 && total >= 1
  {
    if c == 0 then 0 else
    var b := Passed(c - 1, num, total);
    Min(b + num, total) - 1
  }

  lemma {:induction false} PassedIs(c: nat, num: nat, total: nat)
    requires num >= 1 && total >= 1
    ensures Passed(c, num, total) == Min(c * (num - 1), total - 1)
  {
    if c > 0 {
      PassedIs(c - 1, num, total);
      assert c * (num - 1) == (c - 1) * (num - 1) + (num - 1);
      assert (c - 1) * (num - 1) >= 0;
    }
  }

  /** The page that chunk c sends: from the last entity already sent on. */
  function ChunkPage(d: seq<Entity>, c: nat, num: nat): seq<Entity>
    requires num >= 1 && d != []
  {
    var b := Passed(c, num, |d|);
    if b < |d| then d[b..Min(b + num, |d|)] else []
  }

  /** The scan may start at row s: from the beginning, or at an entity's first row. */
  ghost predicate StartsAt(K: seq<string>, es: seq<Entity>, fromId: string, s: nat, b: nat) {
    && s < |es| && |K| == |es| && Boundary(es, s)
    && |Firsts(es[..s])| == b
    && forall i :: 0 <= i < |K| ==> (Less(K[i], fromId) <==> i < s)
  }

  /** A page of a scan that starts at row s, and where its last entity's rows start. */
  lemma PageMoves(K: seq<string>, es: seq<Entity>, s: nat, num: nat, q: nat) returns (s': nat)
    requires Sorted(K, es) && s < |es| && Boundary(es, s) && num >= 1 && StopsAt(es[s..], num, q)
    ensures 0 < q <= |es| - s
    ensures var d, b := Firsts(es), |Firsts(es[..s])|; var e := Min(b + num, |d|);
            b < e <= |d| && Firsts(es[s..][..q]) == d[b..e] && StartsAt(K, es, es[s + q - 1].id, s', e - 1)
  {
    hide Firsts, Sorted, Less, Contiguous, StopsAt;
    SortedIsContiguous(K, es);
    PageIs(es, s, num, q);
    PageSize(es[s..], num, q);
    PageEnds(es, s, q);
    s' := GroupStart(es, s + q - 1);
    GroupAt(K, es, s');
  }

  lemma GroupAt(K: seq<string>, es: seq<Entity>, s: nat)
    requires Sorted(K, es) && s < |es| && Boundary(es, s)
    ensures |K| == |es| && forall i :: 0 <= i < |K| ==> (Less(K[i], es[s].id) <==> i < s)
  {
    forall i | 0 <= i < |K|
      ensures Less(K[i], es[s].id) <==> i < s
    {
      StartsAtGroup(K, es, s, i);
    }
  }

  /** One chunk: it sends the next page and moves on to that page's last entity. */
  lemma ChunkStep(db: map<string, Instruction>, K: seq<string>, es: seq<Entity>, fromId: string, s: nat, c: nat, num: nat,
                  scan: seq<string>, q: nat) returns (s': nat)
    requires Whole(db, K, es) && es != [] && num >= 1
    requires Firsts(es) != [] && StartsAt(K, es, fromId, s, Passed(c, num, |Firsts(es)|))
    requires IsScan(db, fromId, scan) && StopsAt(EntitiesAt(db, scan), num, q)
    ensures var rows := EntitiesAt(db, scan);
            && rows != [] && 0 < q <= |rows|
            && Firsts(rows[..q]) == ChunkPage(Firsts(es), c, num) && Firsts(rows[..q]) != []
            && StartsAt(K, es, rows[q - 1].id, s', Passed(c + 1, num, |Firsts(es)|))
  {
    hide Firsts, Sorted, Less, Contiguous, StopsAt, Boundary, EntitiesAt, IsScan;
    RestOfScan(db, K, es, s, fromId, scan);
    s' := PageMoves(K, es, s, num, q);
  }

  /** Entities passed by the end of a page. */
  lemma PageEnds(es: seq<Entity>, s: nat, q: nat)
    requires Contiguous(es) && Boundary(es, s) && s + q <= |es| && q > 0
    ensures |Firsts(es[..s + q])| == |Firsts(es[..s])| + |Firsts(es[s..][..q])|
  {
    ContiguousPart(es, 0, s + q);
    assert es[0..s + q] == es[..s + q];
    assert es[..s + q][..s] == es[..s] && es[..s + q][s..] == es[s..][..q];
    FirstsSplit(es[..s + q], s);
  }

  /** Turn c of the loop sent page c, and it was not empty. */
  ghost predicate PagesAre(pages: seq<seq<Entity>>, d: seq<Entity>, num: nat)
    requires num >= 1 && d != []
  {
    forall c :: 0 <= c < |pages| ==> pages[c] == ChunkPage(d, c, num) && pages[c] != []
  }

  lemma OnePageMore(pages: seq<seq<Entity>>, d: seq<Entity>, num: nat, sent: seq<Entity>)
    requires num >= 1 && d != [] && PagesAre(pages, d, num) && sent == ChunkPage(d, |pages|, num) && sent != []
    ensures PagesAre(pages + [sent], d, num)
  {
  }

  /** The first k turns of LoopOnce: turn c sends exactly the entities from position
      Passed(c) on, at most num of them, so all but the first re-send the last entity of
      the turn before, and no turn comes back empty. */
  method LoopChunks(l: Leveldb, num: nat, k: nat, ghost K: seq<string>) returns (pages: seq<seq<Entity>>, ghost d: seq<Entity>)
    requires l.Valid() && PrefixFree(l.log) && OneKind(l.log) && l.log != [] && num >= 1 && IsScan(l.db, "", K)
    ensures d != [] && NoDuplicates(d) && forall e :: e in d <==> Touches(l.log, e)
    ensures |pages| == k && PagesAre(pages, d, num)
  {
    WholeStart(l.db, l.keys, l.log, K);
    StoreIsWhole(l.db, l.keys, l.log, K);
    FirstsAre(EntitiesAt(l.db, K));
    d := Firsts(EntitiesAt(l.db, K));
    pages := Chunks(l, num, k, K, EntitiesAt(l.db, K));
  }

  lemma NoPages(d: seq<Entity>, num: nat)
    requires num >= 1 && d != []
    ensures Passed(0, num, |d|) == 0 && PagesAre([], d, num)
  {
  }

  method Chunks(l: Leveldb, num: nat, k: nat, ghost K: seq<string>, ghost es: seq<Entity>) returns (pages: seq<seq<Entity>>)
    requires Whole(l.db, K, es) && es != [] && Firsts(es) != [] && num >= 1 && StartsAt(K, es, "", 0, 0)
    ensures |pages| == k && PagesAre(pages, Firsts(es), num)
  {
    hide *;
    pages := [];
    var from := "";
    ghost var s: nat := 0;
    ghost var d := Firsts(es);
    NoPages(d, num);
    while |pages| < k
      invariant |pages| <= k && PagesAre(pages, d, num)
      invariant StartsAt(K, es, from, s, Passed(|pages|, num, |d|))
    {
      var found, last, sent;
      found, last, sent, s := OneChunk(l, from, num, K, es, s, |pages|);
      OnePageMore(pages, d, num, sent);
      pages := pages + [sent];
      from := last.id;
    }
  }

  lemma PageParts(db: map<string, Instruction>, fromId: string, num: int, scan: seq<string>, q: nat,
                  sent: seq<Entity>, rlast: Entity)
    requires IsPage(db, fromId, num, scan, q, sent, rlast)
    ensures IsScan(db, fromId, scan)
    ensures var rows := EntitiesAt(db, scan);
            StopsAt(rows, num, q) && q <= |rows| && sent == Firsts(rows[..q]) && (rows != [] ==> q > 0 && rlast == rows[q - 1])
  {
  }

  method OneChunk(l: Leveldb, fromId: string, num: nat, ghost K: seq<string>, ghost es: seq<Entity>, ghost s: nat, ghost c: nat)
      returns (found: nat, last: Entity, sent: seq<Entity>, ghost s': nat)
    requires Whole(l.db, K, es) && es != [] && num >= 1
    requires Firsts(es) != [] && StartsAt(K, es, fromId, s, Passed(c, num, |Firsts(es)|))
    ensures sent == ChunkPage(Firsts(es), c, num) && sent != [] && found == |sent|
    ensures StartsAt(K, es, last.id, s', Passed(c + 1, num, |Firsts(es)|))
  {
    hide *;
    found, last, sent := l.Iterate(fromId, num);
    ghost var scan, q :| IsPage(l.db, fromId, num, scan, q, sent, last);
    PageParts(l.db, fromId, num, scan, q, sent, last);
    s' := ChunkStep(l.db, K, es, fromId, s, c, num, scan, q);
  }

  lemma WholeStart(db: map<string, Instruction>, keys: seq<string>, log: seq<Instruction>, K: seq<string>)
    requires Stores(db, keys, log) && PrefixFree(log) && OneKind(log) && log != [] && IsScan(db, "", K)
    ensures (forall k :: k in K ==> k in db)
    ensures var es := EntitiesAt(db, K);
            Whole(db, K, es) && es != [] && Firsts(es) != [] && StartsAt(K, es, "", 0, 0)
  {
    StoreIsWhole(db, keys, log, K);
    var es := EntitiesAt(db, K);
    assert Touches(log, EntityOf(log[0]));
    assert EntityOf(log[0]) in es;
    FirstsSome(es);
    assert es[..0] == [];
  }

  /** With pages of at least two entities, the i-th has been sent by turn i, so all have
      been sent after as many turns as there are entities. */
  lemma {:induction false} SentBy(d: seq<Entity>, num: nat, i: nat, c: nat) returns (t: nat)
    requires num >= 1 && i < |d| && i < Passed(c, num, |d|) + num
    ensures t <= c && d[i] in ChunkPage(d, t, num)
  {
    var b := Passed(c, num, |d|);
    PassedIs(c, num, |d|);
    if i >= b {
      t := c;
      assert ChunkPage(d, c, num)[i - b] == d[i];
    } else {
      t := SentBy(d, num, i, c - 1);
    }
  }

  lemma AllSentEventually(d: seq<Entity>, num: nat, i: nat) returns (t: nat)
    requires num >= 2 && i < |d|
    ensures t <= i && d[i] in ChunkPage(d, t, num)
  {
    PassedIs(i, num, |d|);
    assert i * (num - 1) >= i by {
      assert i * (num - 1) == i + i * (num - 2);
    }
    t := SentBy(d, num, i, i);
  }

  /** With pages of one entity the scan never leaves the first one. */
  lemma StuckWithPagesOfOne(d: seq<Entity>, c: nat)
    requires d != []
    ensures ChunkPage(d, c, 1) == [d[0]]
  {
    PassedIs(c, 1, |d|);
  }

  // ---------------------------------------------------------------- when the loop ends

  /** A place where LoopOnce may start a turn: the beginning, or an id with rows. */
  ghost predicate StartOfTurn(log: seq<Instruction>, fromId: string) {
    fromId == "" || exists i :: 0 <= i < |log| && log[i].subjectId == fromId
  }

  /** Whatever ids the store holds, a turn finds nothing exactly when there is nothing. */
  lemma NothingFound(db: map<string, Instruction>, keys: seq<string>, log: seq<Instruction>, fromId: string, scan: seq<string>)
    requires Stores(db, keys, log) && IsScan(db, fromId, scan) && StartOfTurn(log, fromId)
    ensures scan == [] <==> log == []
  {
    assert scan != [] ==> scan[0] in scan;
    if log != [] {
      var i :| 0 <= i < |log| && (fromId == "" || log[i].subjectId == fromId);
      if fromId == "" {
        NotLessThanPrefix("", keys[i]);
        assert "" + keys[i] == keys[i];
      } else {
        OwnPrefix(keys[i], fromId);
        assert keys[i] == fromId + keys[i][|fromId|..];
        NotLessThanPrefix(fromId, keys[i][|fromId|..]);
      }
      assert keys[i] in scan;
    }
  }

  /** One turn, on any store: what it finds is not nothing unless there is nothing, and the
      next turn starts at an id with rows. */
  lemma TurnFinds(db: map<string, Instruction>, keys: seq<string>, log: seq<Instruction>, fromId: string, num: int,
                  scan: seq<string>, q: nat, sent: seq<Entity>, last: Entity)
    requires Stores(db, keys, log) && StartOfTurn(log, fromId) && IsPage(db, fromId, num, scan, q, sent, last)
    ensures sent == [] <==> log == []
    ensures sent != [] ==> StartOfTurn(log, last.id)
  {
    NothingFound(db, keys, log, fromId, scan);
    var rows := EntitiesAt(db, scan);
    FirstsAre(rows[..q]);
    if rows == [] {
      assert rows[..q] == [];
    } else {
      assert rows[..q][q - 1] in Firsts(rows[..q]);
      assert scan[q - 1] in scan && scan[q - 1] in keys;
    }
  }

  /** LoopOnce over this driver, stopped after k turns if it has not ended by then. Over any
      store and for any page size it ends if and only if the store is empty, and then at
      once; otherwise every turn finds something. */
  method LoopTurns(l: Leveldb, num: int, k: nat) returns (pages: seq<seq<Entity>>, ended: bool)
    requires l.Valid()
    ensures ended <==> k > 0 && l.log == []
    ensures |pages| == if l.log == [] then 0 else k
    ensures forall c :: 0 <= c < |pages| ==> pages[c] != []
  {
    pages, ended := [], false;
    var from := "";
    while |pages| < k
      invariant |pages| <= k && StartOfTurn(l.log, from) && (l.log == [] ==> pages == [])
      invariant forall c :: 0 <= c < |pages| ==> pages[c] != []
    {
      var found, last, sent := l.Iterate(from, num);
      ghost var scan, q :| IsPage(l.db, from, num, scan, q, sent, last);
      TurnFinds(l.db, l.keys, l.log, from, num, scan, q, sent, last);
      if found == 0 {
        return pages, true;
      }
      pages := pages + [sent];
      from := last.id;
    }
  }

  /** Every entity is sent sooner or later if and only if pages hold two or more, or there is
      only one entity. */
  lemma SentIff(d: seq<Entity>, num: nat)
    requires NoDuplicates(d) && d != [] && num >= 1
    ensures (forall i :: 0 <= i < |d| ==> SentSometime(d, num, i)) <==> num >= 2 || |d| == 1
  {
    if num >= 2 {
      forall i | 0 <= i < |d|
        ensures SentSometime(d, num, i)
      {
        var t := AllSentEventually(d, num, i);
      }
    } else if |d| == 1 {
      StuckWithPagesOfOne(d, 0);
      assert d[0] in ChunkPage(d, 0, num);
    } else {
      forall t: nat
        ensures d[1] !in ChunkPage(d, t, num)
      {
        StuckWithPagesOfOne(d, t);
      }
      assert !SentSometime(d, num, 1);
    }
  }

  ghost predicate SentSometime(d: seq<Entity>, num: nat, i: int)
    requires num >= 1 && d != [] && 0 <= i < |d|
  {
    exists t: nat :: d[i] in ChunkPage(d, t, num)
  }
}
