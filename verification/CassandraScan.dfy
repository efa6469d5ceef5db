/** LoopOnce driven by the Cassandra Iterate: pages limited in rows, each starting strictly
    after the last entity of the one before (drivers/cassandra/cassandra.go:73-74, 119-143,
    indexer/server.go:58-80). */
module CassandraScan {
  import opened Seqs
  import opened Types
  import opened Paging

  /** The table in the order in which it is scanned. */
  datatype Table = Table(rows: seq<Entity>, token: string -> int)

  /** Rows come in token order, tokens tell ids apart, an id has one kind, and the empty
      string that starts a scan has a smaller token than any id. */
  ghost predicate Scannable(t: Table) {
    && (forall i, j :: 0 <= i < j < |t.rows| ==> t.token(t.rows[i].id) <= t.token(t.rows[j].id))
    && (forall i, j :: 0 <= i < j < |t.rows| && t.token(t.rows[i].id) == t.token(t.rows[j].id) ==> t.rows[i] == t.rows[j])
    && (forall i :: 0 <= i < |t.rows| ==> t.token("") < t.token(t.rows[i].id))
  }

  /** The first row whose token is greater than x. */
  function After(t: Table, x: int, i: nat): (p: nat)
    requires i <= |t.rows|
    ensures i <= p <= |t.rows|
    ensures forall k :: i <= k < p ==> t.token(t.rows[k].id) <= x
    ensures p < |t.rows| ==> t.token(t.rows[p].id) > x
    decreases |t.rows| - i
  {
    if i < |t.rows| && t.token(t.rows[i].id) <= x then After(t, x, i + 1) else i
  }

  /** select ... where token(subject_id) > token(fromId) limit num */
  function Select(t: Table, fromId: string, num: nat): seq<Entity> {
    var p := After(t, t.token(fromId), 0);
    t.rows[p..Min(p + num, |t.rows|)]
  }

  /** The query's answer: rows strictly after fromId only, at most num, and all of them if
      there are fewer. */
  lemma Selected(t: Table, fromId: string, num: nat)
    requires Scannable(t)
    ensures var page := Select(t, fromId, num);
            && |page| <= num
            && (forall e :: e in page ==> e in t.rows && t.token(e.id) > t.token(fromId))
            && (|page| < num ==> forall e :: e in t.rows && t.token(e.id) > t.token(fromId) ==> e in page)
  {
    var p := After(t, t.token(fromId), 0);
    var page := Select(t, fromId, num);
    assert page == t.rows[p..Min(p + num, |t.rows|)];
    hide After, Select;
    forall i | 0 <= i < |page|
      ensures page[i] in t.rows && t.token(page[i].id) > t.token(fromId)
    {
      assert page[i] == t.rows[p + i] && (i > 0 ==> t.token(t.rows[p].id) <= t.token(t.rows[p + i].id));
    }
    if |page| < num {
      forall e | e in t.rows && t.token(e.id) > t.token(fromId)
        ensures e in page
      {
        var i :| 0 <= i < |t.rows| && t.rows[i] == e;
        assert page[i - p] == e;
      }
    }
  }

  lemma ScannableIsContiguous(t: Table)
    requires Scannable(t)
    ensures Contiguous(t.rows)
  {
    var es := t.rows;
    forall i, j, k | 0 <= i < j < k < |es| && es[i].id == es[k].id
      ensures es[j].id == es[i].id
    {
      assert t.token(es[i].id) <= t.token(es[j].id) <= t.token(es[k].id);
      assert es[i] == es[j];
    }
    forall i, j | 0 <= i < j < |es| && es[i].id == es[j].id
      ensures es[i] == es[j]
    {
    }
  }

  /** A row limit cannot be exceeded by entities, so a page ends with its rows. */
  lemma PageIsWhole(rows: seq<Entity>, num: nat, q: nat)
    requires |rows| <= num && StopsAt(rows, num, q) && q > 0
    ensures q == |rows|
  {
    FirstsAre(rows[..q]);
  }

  /** The scan has passed rows up to p, and has sent their entities. */
  ghost predicate At(t: Table, fromId: string, p: nat) {
    p == After(t, t.token(fromId), 0) && (0 < p < |t.rows| ==> t.token(t.rows[p - 1].id) < t.token(t.rows[p].id))
  }

  lemma AfterLast(t: Table, r: nat)
    requires Scannable(t) && 0 < r <= |t.rows|
    ensures var p' := After(t, t.token(t.rows[r - 1].id), 0);
            r <= p' && At(t, t.rows[r - 1].id, p') && forall i :: r <= i < p' ==> t.rows[i] == t.rows[r - 1]
  {
    var p' := After(t, t.token(t.rows[r - 1].id), 0);
    forall i | r <= i < p'
      ensures t.rows[i] == t.rows[r - 1]
    {
      assert t.token(t.rows[r - 1].id) <= t.token(t.rows[i].id);
    }
  }

  /** The page from row p to row r continues the scan up to p; what is left of its last
      entity adds nothing. */
  lemma PageContinues(t: Table, fromId: string, p: nat, r: nat, p': nat)
    requires Scannable(t) && At(t, fromId, p) && p < r <= p' <= |t.rows|
    requires forall i :: r <= i < p' ==> t.rows[i] == t.rows[r - 1]
    ensures Firsts(t.rows[..p']) == Firsts(t.rows[..p]) + Firsts(t.rows[p..r])
  {
    hide Firsts, Scannable, After;
    var es := t.rows;
    FirstsSame(es, r, p');
    ScannableIsContiguous(t);
    ContiguousPart(es, 0, r);
    assert es[0..r] == es[..r];
    assert es[..r][..p] == es[..p] && es[..r][p..] == es[p..r];
    assert Boundary(es[..r], p);
    FirstsSplit(es[..r], p);
  }

  /** One turn of LoopOnce: at the end of the table, or further on. */
  lemma Turn(t: Table, fromId: string, num: nat, p: nat)
    requires Scannable(t) && num >= 1 && At(t, fromId, p)
    ensures var rows := Select(t, fromId, num);
            if Firsts(rows) == [] then p == |t.rows|
            else
              var p' := After(t, t.token(rows[|rows| - 1].id), 0);
              p < p' <= |t.rows| && At(t, rows[|rows| - 1].id, p') && Firsts(t.rows[..p']) == Firsts(t.rows[..p]) + Firsts(rows)
  {
    hide *;
    SelectIs(t, fromId, num, p);
    if Select(t, fromId, num) == [] {
      FirstsNone();
    } else {
      NextPage(t, fromId, p, p + |Select(t, fromId, num)|);
    }
  }

  lemma NextPage(t: Table, fromId: string, p: nat, r: nat)
    requires Scannable(t) && At(t, fromId, p) && p < r <= |t.rows|
    ensures var rows := t.rows[p..r]; var p' := After(t, t.token(rows[|rows| - 1].id), 0);
            && Firsts(rows) != [] && p < p' <= |t.rows| && At(t, rows[|rows| - 1].id, p')
            && Firsts(t.rows[..p']) == Firsts(t.rows[..p]) + Firsts(rows)
  {
    hide *;
    FirstsSome(t.rows[p..r]);
    AfterLast(t, r);
    PageContinues(t, fromId, p, r, After(t, t.token(t.rows[r - 1].id), 0));
  }

  lemma SelectIs(t: Table, fromId: string, num: nat, p: nat)
    requires num >= 1 && At(t, fromId, p)
    ensures var r := p + |Select(t, fromId, num)|;
            && p <= r <= |t.rows| && Select(t, fromId, num) == t.rows[p..r]
            && (r == p ==> p == |t.rows|)
  {
  }

  lemma FirstsNone()
    ensures Firsts([]) == []
  {
  }

  class Server {
    var ch: seq<Entity>

    /** Cassandra.Iterate. */
    method Iterate(t: Table, fromId: string, num: nat) returns (rnum: nat, rlast: Entity)
      modifies this
      ensures var rows := Select(t, fromId, num);
              && ch == old(ch) + Firsts(rows)
              && rnum == |Firsts(rows)|
              && (rows != [] ==> rlast == rows[|rows| - 1])
    {
      var rows := Select(t, fromId, num);
      ghost var q;
      var sent;
      rnum, rlast, sent, q := EmitPage(rows, num);
      if rows != [] {
        PageIsWhole(rows, num, q);
        assert rows[..q] == rows;
      }
      ch := ch + sent;
    }

    /** LoopOnce over a fixed table terminates and sends every entity exactly once, in scan
        order, whatever the page size. */
    method LoopOnce(t: Table, num: nat) returns (total: nat)
      requires Scannable(t) && num >= 1
      modifies this
      ensures ch == old(ch) + Firsts(t.rows) && total == |Firsts(t.rows)|
    {
      hide *;
      total := 0;
      var from := "";
      ghost var p := 0;
      StartOfTable(t);
      ghost var before, sofar := ch, Firsts(t.rows[..0]);
      while true
        invariant p <= |t.rows| && At(t, from, p) && sofar == Firsts(t.rows[..p])
        invariant ch == before + sofar && total == |sofar|
        decreases |t.rows| - p
      {
        Turn(t, from, num, p);
        var found, last := Iterate(t, from, num);
        if found == 0 {
          assert t.rows[..p] == t.rows;
          return;
        }
        ghost var page := Firsts(Select(t, from, num));
        assert before + sofar + page == before + (sofar + page);
        total := total + found;
        from := last.id;
        p, sofar := After(t, t.token(from), 0), sofar + page;
      }
    }
  }

  lemma StartOfTable(t: Table)
    requires Scannable(t)
    ensures At(t, "", 0) && Firsts(t.rows[..0]) == []
  {
  }

  /** So each entity of the table is sent, once. */
  lemma EachOnce(t: Table, e: Entity)
    ensures NoDuplicates(Firsts(t.rows)) && (e in Firsts(t.rows) <==> e in t.rows)
  {
    FirstsAre(t.rows);
  }
}
