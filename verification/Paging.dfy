/** One page of a scan over rows sorted by entity: the loop that both Iterate drivers share,
    and what it means on lists whose entities are contiguous. */
module Paging {
  import opened Seqs
  import opened Types

  /** Entities at their first appearance. */
  function Firsts(es: seq<Entity>): seq<Entity> {
    if es == [] then []
    else
      var d := Firsts(es[..|es| - 1]);
      if es[|es| - 1] in d then d else d + [es[|es| - 1]]
  }

  lemma {:induction false} FirstsAre(es: seq<Entity>)
    ensures NoDuplicates(Firsts(es))
    ensures forall e :: e in Firsts(es) <==> e in es
    ensures |Firsts(es)| <= |es|
  {
    if es != [] {
      var n := |es| - 1;
      FirstsAre(es[..n]);
      assert es == es[..n] + [es[n]];
    }
  }

  lemma FirstsLast(es: seq<Entity>)
    requires es != []
    ensures var n := |es| - 1;
            Firsts(es) == if es[n] in es[..n] then Firsts(es[..n]) else Firsts(es[..n]) + [es[n]]
  {
    FirstsAre(es[..|es| - 1]);
  }

  lemma FirstsSome(es: seq<Entity>)
    requires es != []
    ensures Firsts(es) != []
  {
    FirstsAre(es);
    assert es[0] in Firsts(es);
  }

  /** Where a page stopped: at the end, or as soon as it had num entities. */
  ghost predicate StopsAt(rows: seq<Entity>, num: int, q: nat) {
    && q <= |rows| && (rows != [] ==> q > 0)
    && (q < |rows| ==> |Firsts(rows[..q])| >= num)
    && (q > 0 ==> q == 1 || |Firsts(rows[..q - 1])| < num)
    && (q < |rows| ==> rows[q - 1] !in rows[..q - 1])
  }

  /** The body of Iterate over the rows a scan yields: send each entity when it is new, and
      stop after num of them. */
  method EmitPage(rows: seq<Entity>, num: int) returns (rnum: nat, rlast: Entity, sent: seq<Entity>, ghost q: nat)
    ensures StopsAt(rows, num, q)
    ensures sent == Firsts(rows[..q]) && rnum == |sent|
    ensures rows != [] ==> rlast == rows[q - 1]
    ensures rows == [] ==> sent == []
  {
    rnum, rlast, sent, q := 0, Entity("", ""), [], 0;
    var handled: set<Entity> := {};
    var i := 0;
    while i < |rows|
      invariant i <= |rows| && q == i
      invariant sent == Firsts(rows[..i]) && rnum == |sent|
      invariant forall e :: e in handled <==> e in sent
      invariant i > 0 ==> rlast == rows[i - 1] && |sent| < num
      invariant i > 0 ==> i == 1 || |Firsts(rows[..i - 1])| < num
    {
      FirstsAre(rows[..i]);
      assert rows[..i + 1][..i] == rows[..i];
      var e := rows[i];
      rlast := e;
      i := i + 1;
      q := i;
      if e in handled {
        continue;
      }
      sent := sent + [e];
      handled := handled + {e};
      rnum := rnum + 1;
      if rnum >= num {
        return;
      }
    }
  }

  // ---------------------------------------------------------------- contiguous lists

  /** All rows of an entity are adjacent, and an id has one kind. */
  ghost predicate Contiguous(es: seq<Entity>) {
    && (forall i, j, k :: 0 <= i < j < k < |es| && es[i].id == es[k].id ==> es[j].id == es[i].id)
    && (forall i, j :: 0 <= i < j < |es| && es[i].id == es[j].id ==> es[i] == es[j])
  }

  /** A new entity starts at row s. */
  ghost predicate Boundary(es: seq<Entity>, s: nat) {
    s <= |es| && (0 < s < |es| ==> es[s - 1].id != es[s].id)
  }

  lemma {:induction false} FirstsApart(a: seq<Entity>, b: seq<Entity>)
    requires forall e :: e in b ==> e !in a
    ensures Firsts(a + b) == Firsts(a) + Firsts(b)
  {
    if b == [] {
      assert a + b == a;
    } else {
      var n := |b| - 1;
      assert (a + b)[..|a + b| - 1] == a + b[..n];
      assert b == b[..n] + [b[n]];
      FirstsApart(a, b[..n]);
      FirstsAre(a);
    }
  }

  /** At a boundary the scan so far and the rest have nothing in common. */
  lemma FirstsSplit(es: seq<Entity>, s: nat)
    requires Contiguous(es) && Boundary(es, s)
    ensures Firsts(es) == Firsts(es[..s]) + Firsts(es[s..])
  {
    hide Firsts, Contiguous;
    assert es == es[..s] + es[s..];
    forall e | e in es[s..]
      ensures e !in es[..s]
    {
      var j :| 0 <= j < |es[s..]| && es[s..][j] == e;
      forall i | 0 <= i < |es[..s]|
        ensures es[..s][i] != e
      {
        BoundaryApart(es, s, i, s + j);
      }
    }
    FirstsApart(es[..s], es[s..]);
  }

  lemma BoundaryApart(es: seq<Entity>, s: nat, i: nat, j: nat)
    requires Contiguous(es) && Boundary(es, s) && i < s <= j < |es|
    ensures es[i].id != es[j].id
  {
    Between(es, i, s - 1, j);
    Between(es, i, s, j);
  }

  lemma Between(es: seq<Entity>, i: nat, j: nat, k: nat)
    requires Contiguous(es) && i <= j <= k < |es|
    ensures es[i].id == es[k].id ==> es[j].id == es[i].id
  {
  }

  lemma ContiguousPart(es: seq<Entity>, a: nat, b: nat)
    requires Contiguous(es) && a <= b <= |es|
    ensures Contiguous(es[a..b])
  {
    var part := es[a..b];
    forall i, j, k | 0 <= i < j < k < |part| && part[i].id == part[k].id
      ensures part[j].id == part[i].id
    {
      assert es[a + i].id == es[a + k].id;
    }
    forall i, j | 0 <= i < j < |part| && part[i].id == part[j].id
      ensures part[i] == part[j]
    {
      assert es[a + i].id == es[a + j].id;
    }
  }

  /** Further rows of the last entity add nothing. */
  lemma {:induction false} FirstsSame(es: seq<Entity>, r: nat, p: nat)
    requires 0 < r <= p <= |es| && forall i :: r <= i < p ==> es[i] == es[r - 1]
    ensures Firsts(es[..p]) == Firsts(es[..r])
  {
    if r < p {
      hide *;
      FirstsSame(es, r, p - 1);
      assert es[..p][..p - 1] == es[..p - 1];
      assert es[..p - 1][r - 1] == es[p - 1];
      FirstsLast(es[..p]);
    }
  }

  /** An entity seen before is the entity of the row just before. */
  lemma StillThere(es: seq<Entity>, n: nat)
    requires Contiguous(es) && n < |es| && es[n] in es[..n]
    ensures n > 0 && es[n - 1] == es[n]
  {
    var i :| 0 <= i < n && es[..n][i] == es[n];
    assert es[i].id == es[n].id;
    assert i < n - 1 ==> es[n - 1].id == es[i].id;
  }

  /** In a contiguous list the last entity found is that of the last row. */
  lemma {:induction false} FirstsEnd(es: seq<Entity>)
    requires Contiguous(es) && es != []
    ensures Firsts(es) != [] && Firsts(es)[|Firsts(es)| - 1] == es[|es| - 1]
  {
    var n := |es| - 1;
    FirstsLast(es);
    if es[n] in es[..n] {
      hide *;
      StillThere(es, n);
      ContiguousPart(es, 0, n);
      assert es[0..n] == es[..n];
      FirstsEnd(es[..n]);
    }
  }

  // ---------------------------------------------------------------- one page of a contiguous list

  lemma {:induction false} FirstsPrefix(es: seq<Entity>, q: nat)
    requires q <= |es|
    ensures Firsts(es[..q]) <= Firsts(es)
  {
    if q == |es| {
      assert es[..q] == es;
    } else {
      assert es[..|es| - 1][..q] == es[..q];
      FirstsPrefix(es[..|es| - 1], q);
    }
  }

  function Min(a: int, b: int): int {
    if a < b then a else b
  }

  /** A page that starts at boundary s, where b entities have been passed, holds the next
      num entities, or all that are left, and its last row is of the last of them. */
  lemma PageIs(es: seq<Entity>, s: nat, num: int, q: nat)
    requires Contiguous(es) && Boundary(es, s) && s < |es| && num >= 1 && StopsAt(es[s..], num, q)
    ensures var d, b := Firsts(es), |Firsts(es[..s])|; var e := Min(b + num, |d|);
            && b < e <= |d|
            && Firsts(es[s..][..q]) == d[b..e]
            && es[s..][q - 1] == d[e - 1]
            && (e < |d| ==> s + q < |es|)
  {
    hide Contiguous, Firsts, StopsAt, Boundary;
    var rest := es[s..];
    FirstsSplit(es, s);
    PageSize(rest, num, q);
    ContiguousPart(es, s, s + q);
    assert es[s..s + q] == rest[..q];
    FirstsEnd(rest[..q]);
    FirstsSome(rest);
    PartOf(Firsts(es), Firsts(es[..s]), Firsts(rest), Min(num, |Firsts(rest)|));
  }

  lemma PartOf<T>(d: seq<T>, a: seq<T>, r: seq<T>, m: nat)
    requires d == a + r && 0 < m <= |r|
    ensures r[..m] == d[|a|..|a| + m] && r[..m][m - 1] == d[|a| + m - 1]
  {
  }

  /** A page is full or complete. */
  lemma PageSize(rest: seq<Entity>, num: int, q: nat)
    requires rest != [] && num >= 1 && StopsAt(rest, num, q)
    ensures 0 < q <= |rest|
    ensures Firsts(rest[..q]) == Firsts(rest)[..Min(num, |Firsts(rest)|)]
    ensures |Firsts(rest[..q])| < |Firsts(rest)| ==> q < |rest|
  {
    var page := Firsts(rest[..q]);
    FirstsPrefix(rest, q);
    assert rest[..q][..q - 1] == rest[..q - 1];
    if q == 1 {
      assert rest[..1][..0] == [];
    }
    if q == |rest| {
      assert rest[..q] == rest;
    }
  }
}
