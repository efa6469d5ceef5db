/** The shared data of x/x.go: instructions, entities and the timestamp order on rows. */
module Types {
  import opened Seqs

  datatype Option<+T> = None | Some(value: T)

  /** One row of a store. A property row has an empty objectId and its JSON text in
      `obj`; an edge row names its target in objectId. */
  datatype Instruction = Instruction(
    subjectId: string,
    subjectType: string,
    pred: string,
    obj: string,
    objectId: string,
    nanoTs: int,
    source: string)

  datatype Entity = Entity(kind: string, id: string)

  const PARENT := "_parent_"
  const DELETE := "_delete_"

  function SubjectFn(id: string): Instruction -> seq<Instruction> {
    (r: Instruction) => if r.subjectId == id then [r] else []
  }

  /** The rows a store holds for one entity, in commit order. */
  function RowsOf(log: seq<Instruction>, id: string): seq<Instruction> {
    FlatMap(SubjectFn(id), log)
  }

  lemma RowsOfAppend(a: seq<Instruction>, b: seq<Instruction>, id: string)
    ensures RowsOf(a + b, id) == RowsOf(a, id) + RowsOf(b, id)
  {
    FlatMapAppend(SubjectFn(id), a, b);
  }

  lemma RowsOfMember(log: seq<Instruction>, id: string, r: Instruction)
    ensures r in RowsOf(log, id) <==> r in log && r.subjectId == id
  {
    FlatMapMember(SubjectFn(id), log, r);
    if r in log && r.subjectId == id {
      var i :| 0 <= i < |log| && log[i] == r;
      assert r in SubjectFn(id)(log[i]);
    }
  }

  lemma RowsOfAll(log: seq<Instruction>, id: string)
    ensures forall r :: r in RowsOf(log, id) <==> r in log && r.subjectId == id
  {
    forall r
      ensures r in RowsOf(log, id) <==> r in log && r.subjectId == id
    {
      RowsOfMember(log, id, r);
    }
  }

  /** Its.Less never decreases along the list. */
  ghost predicate SortedByTs(rows: seq<Instruction>) {
    forall i, j :: 0 <= i < j < |rows| ==> rows[i].nanoTs <= rows[j].nanoTs
  }

  /** What a query may see of an entity: its rows in some timestamp order. Rows with equal
      timestamps come in any order, since sort.Sort is not stable. */
  ghost predicate IsFetch(log: seq<Instruction>, id: string, rows: seq<Instruction>) {
    multiset(rows) == multiset(RowsOf(log, id)) && SortedByTs(rows)
  }

  function InsertByTs(rows: seq<Instruction>, r: Instruction): seq<Instruction> {
    if rows == [] || rows[|rows| - 1].nanoTs <= r.nanoTs then rows + [r]
    else InsertByTs(rows[..|rows| - 1], r) + [rows[|rows| - 1]]
  }

  lemma {:induction false} InsertByTsKeeps(rows: seq<Instruction>, r: Instruction)
    ensures multiset(InsertByTs(rows, r)) == multiset(rows) + multiset{r}
  {
    if !(rows == [] || rows[|rows| - 1].nanoTs <= r.nanoTs) {
      var n := |rows| - 1;
      InsertByTsKeeps(rows[..n], r);
      assert rows == rows[..n] + [rows[n]];
    }
  }

  lemma {:induction false} InsertByTsSorts(rows: seq<Instruction>, r: Instruction)
    requires SortedByTs(rows)
    ensures SortedByTs(InsertByTs(rows, r))
    ensures |InsertByTs(rows, r)| == |rows| + 1
    ensures var last := InsertByTs(rows, r)[|rows|];
            last.nanoTs == r.nanoTs ||
            (rows != [] && last == rows[|rows| - 1] && r.nanoTs < rows[|rows| - 1].nanoTs)
  {
    if !(rows == [] || rows[|rows| - 1].nanoTs <= r.nanoTs) {
      InsertByTsSorts(rows[..|rows| - 1], r);
    }
  }

  /** Every entity has a timestamp order, so a read always has an outcome. */
  lemma {:induction false} SomeOrder(rows: seq<Instruction>) returns (sorted: seq<Instruction>)
    ensures SortedByTs(sorted) && multiset(sorted) == multiset(rows)
  {
    if rows == [] {
      sorted := [];
    } else {
      var short := SomeOrder(rows[..|rows| - 1]);
      InsertByTsSorts(short, rows[|rows| - 1]);
      InsertByTsKeeps(short, rows[|rows| - 1]);
      sorted := InsertByTs(short, rows[|rows| - 1]);
      assert rows == rows[..|rows| - 1] + [rows[|rows| - 1]];
    }
  }

  /** Its.Swap. */
  method Swap(its: array<Instruction>, i: nat, j: nat)
    requires i < its.Length && j < its.Length
    modifies its
    ensures its[..] == old(its[..])[i := old(its[j])][j := old(its[i])]
    ensures multiset(its[..]) == multiset(old(its[..]))
  {
    its[i], its[j] := its[j], its[i];
  }

  /** Every pair among the first n+1 rows is in order, except those ending at the row
      that is moving, which sits at j. */
  ghost predicate SortedBut(rows: seq<Instruction>, n: nat, j: nat) {
    n < |rows| && forall a, b :: 0 <= a < b <= n && b != j ==> rows[a].nanoTs <= rows[b].nanoTs
  }

  method Sift(its: array<Instruction>, n: nat)
    requires n < its.Length && SortedByTs(its[..n])
    modifies its
    ensures SortedByTs(its[..n + 1])
    ensures multiset(its[..]) == multiset(old(its[..]))
  {
    var j := n;
    assert SortedBut(its[..], n, j) by {
      assert forall k :: 0 <= k < n ==> its[k] == its[..n][k];
    }
    while j > 0 && its[j].nanoTs < its[j - 1].nanoTs
      invariant 0 <= j <= n < its.Length
      invariant SortedBut(its[..], n, j)
      invariant multiset(its[..]) == multiset(old(its[..]))
    {
      Swap(its, j, j - 1);
      j := j - 1;
    }
  }

  /** sort.Sort(x.Its(its)): in place, through Less and Swap only. The contract says no
      more than that the rows end up in some timestamp order. */
  method Sort(its: array<Instruction>)
    modifies its
    ensures SortedByTs(its[..])
    ensures multiset(its[..]) == multiset(old(its[..]))
  {
    var n := 0;
    while n < its.Length
      invariant 0 <= n <= its.Length
      invariant SortedByTs(its[..n])
      invariant multiset(its[..]) == multiset(old(its[..]))
    {
      Sift(its, n);
      n := n + 1;
    }
    assert its[..n] == its[..];
  }
}
