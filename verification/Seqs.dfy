/** Sequence facts shared by the models: mapping every element to a short list and
    concatenating, adding up a weight, and how both behave under append and reordering. */
module Seqs {

  /** f(s[0]) + f(s[1]) + ... ; with singleton or empty images it is a filter or a map. */
  function FlatMap<T, U>(f: T -> seq<U>, s: seq<T>): seq<U> {
    if s == [] then [] else FlatMap(f, s[..|s| - 1]) + f(s[|s| - 1])
  }

  function Sum<T>(f: T -> nat, s: seq<T>): nat {
    if s == [] then 0 else Sum(f, s[..|s| - 1]) + f(s[|s| - 1])
  }

  function MSum<T, U>(f: T -> multiset<U>, s: seq<T>): multiset<U> {
    if s == [] then multiset{} else MSum(f, s[..|s| - 1]) + f(s[|s| - 1])
  }

  function Last<T>(s: seq<T>): T
    requires s != []
  {
    s[|s| - 1]
  }

  function Init<T>(s: seq<T>): (r: seq<T>)
    requires s != []
    ensures |r| < |s|
  {
    s[..|s| - 1]
  }

  /** Replacing one element moves the total by the difference of its weights. */
  lemma {:induction false} SumUpdate<T>(f: T -> nat, s: seq<T>, j: nat, x: T)
    requires j < |s|
    ensures Sum(f, s[j := x]) + f(s[j]) == Sum(f, s) + f(x)
  {
    var n := |s| - 1;
    if j == n {
      assert s[j := x][..n] == s[..n];
    } else {
      assert s[j := x][..n] == s[..n][j := x];
      SumUpdate(f, s[..n], j, x);
    }
  }

  lemma {:induction false} MSumUpdate<T, U>(f: T -> multiset<U>, s: seq<T>, j: nat, x: T)
    requires j < |s|
    ensures MSum(f, s[j := x]) + f(s[j]) == MSum(f, s) + f(x)
  {
    var n := |s| - 1;
    if j == n {
      assert s[j := x][..n] == s[..n];
    } else {
      assert s[j := x][..n] == s[..n][j := x];
      MSumUpdate(f, s[..n], j, x);
      var m := MSum(f, s[..n][j := x]);
      assert (m + f(s[n])) + f(s[j]) == (m + f(s[j])) + f(s[n]);
    }
  }

  lemma {:induction false} MSumAppend<T, U>(f: T -> multiset<U>, a: seq<T>, b: seq<T>)
    ensures MSum(f, a + b) == MSum(f, a) + MSum(f, b)
  {
    if b == [] {
      assert a + b == a;
    } else {
      assert (a + b)[..|a + b| - 1] == a + b[..|b| - 1];
      MSumAppend(f, a, b[..|b| - 1]);
    }
  }

  lemma {:induction false} MSumOne<T, U>(f: T -> multiset<U>, x: T)
    ensures MSum(f, [x]) == f(x)
  {
    assert [x][..0] == [];
    assert MSum(f, [x][..0]) == multiset{};
  }

  lemma {:induction false} MSumPerm<T, U>(f: T -> multiset<U>, a: seq<T>, b: seq<T>)
    requires multiset(a) == multiset(b)
    ensures MSum(f, a) == MSum(f, b)
  {
    if a == [] {
      assert |multiset(b)| == 0;
      assert b == [];
    } else {
      var j := TakeOut(a, b);
      MSumPerm(f, a[..|a| - 1], b[..j] + b[j + 1..]);
      MSumAppend(f, b[..j], b[j + 1..]);
      MSumAppend(f, b[..j] + [b[j]], b[j + 1..]);
      MSumAppend(f, b[..j], [b[j]]);
      MSumOne(f, b[j]);
    }
  }

  lemma MSumSame<T, U>(f: T -> multiset<U>, s: seq<T>, j: nat, x: T)
    requires j < |s| && f(x) == f(s[j])
    ensures MSum(f, s[j := x]) == MSum(f, s)
  {
    MSumUpdate(f, s, j, x);
    var m, m' := MSum(f, s), MSum(f, s[j := x]);
    assert m' == (m' + f(x)) - f(x) == (m + f(x)) - f(x) == m;
  }

  lemma MSumGains<T, U>(f: T -> multiset<U>, s: seq<T>, j: nat, x: T)
    requires j < |s| && f(s[j]) == multiset{}
    ensures MSum(f, s[j := x]) == MSum(f, s) + f(x)
  {
    MSumUpdate(f, s, j, x);
    assert MSum(f, s[j := x]) == MSum(f, s[j := x]) + f(s[j]);
  }

  lemma {:induction false} FlatMapAppend<T, U>(f: T -> seq<U>, a: seq<T>, b: seq<T>)
    ensures FlatMap(f, a + b) == FlatMap(f, a) + FlatMap(f, b)
  {
    if b == [] {
      assert a + b == a;
    } else {
      assert (a + b)[..|a + b| - 1] == a + b[..|b| - 1];
      FlatMapAppend(f, a, b[..|b| - 1]);
    }
  }

  lemma {:induction false} FlatMapOne<T, U>(f: T -> seq<U>, x: T)
    ensures FlatMap(f, [x]) == f(x)
  {
    assert [x][..0] == [];
    assert FlatMap(f, [x][..0]) == [];
  }

  lemma FlatMapTake<T, U>(f: T -> seq<U>, s: seq<T>, n: nat)
    requires 0 < n <= |s|
    ensures FlatMap(f, s[..n]) == FlatMap(f, s[..n - 1]) + f(s[n - 1])
  {
    assert s[..n][..n - 1] == s[..n - 1];
  }

  lemma {:induction false} SumAppend<T>(f: T -> nat, a: seq<T>, b: seq<T>)
    ensures Sum(f, a + b) == Sum(f, a) + Sum(f, b)
  {
    if b == [] {
      assert a + b == a;
    } else {
      assert (a + b)[..|a + b| - 1] == a + b[..|b| - 1];
      SumAppend(f, a, b[..|b| - 1]);
    }
  }

  lemma {:induction false} SumOne<T>(f: T -> nat, x: T)
    ensures Sum(f, [x]) == f(x)
  {
    assert [x][..0] == [];
    assert Sum(f, [x][..0]) == 0;
  }

  lemma {:induction false} FlatMapMember<T, U>(f: T -> seq<U>, s: seq<T>, u: U)
    ensures u in FlatMap(f, s) <==> exists i :: 0 <= i < |s| && u in f(s[i])
  {
    if s != [] {
      var n := |s| - 1;
      FlatMapMember(f, s[..n], u);
      if u in FlatMap(f, s[..n]) {
        var i :| 0 <= i < n && u in f(s[..n][i]);
        assert u in f(s[i]);
      }
      if i :| 0 <= i < |s| && u in f(s[i]) {
        if i < n {
          assert u in f(s[..n][i]);
        }
      }
    }
  }

  lemma {:induction false} FlatMapSame<T, U>(f: T -> seq<U>, g: T -> seq<U>, s: seq<T>)
    requires forall x :: x in s ==> f(x) == g(x)
    ensures FlatMap(f, s) == FlatMap(g, s)
  {
    if s != [] {
      FlatMapSame(f, g, s[..|s| - 1]);
    }
  }

  /** Where the last element of `a` sits in a reordering `b` of `a`. */
  lemma TakeOut<T>(a: seq<T>, b: seq<T>) returns (j: nat)
    requires multiset(a) == multiset(b) && a != []
    ensures j < |b| && b[j] == a[|a| - 1]
    ensures b == b[..j] + [b[j]] + b[j + 1..]
    ensures multiset(a[..|a| - 1]) == multiset(b[..j] + b[j + 1..])
  {
    var n := |a| - 1;
    assert a == a[..n] + [a[n]];
    assert a[n] in multiset(b);
    j :| 0 <= j < |b| && b[j] == a[n];
    assert b == b[..j] + [b[j]] + b[j + 1..];
    var rest := b[..j] + b[j + 1..];
    assert multiset(b) == multiset(b[..j]) + multiset{b[j]} + multiset(b[j + 1..]);
    assert multiset(rest) == multiset(b) - multiset{a[n]};
    assert multiset(a) == multiset(a[..n]) + multiset{a[n]};
    assert multiset(a[..n]) == multiset(a) - multiset{a[n]};
  }

  lemma {:induction false} FlatMapPerm<T, U>(f: T -> seq<U>, a: seq<T>, b: seq<T>)
    requires multiset(a) == multiset(b)
    ensures multiset(FlatMap(f, a)) == multiset(FlatMap(f, b))
  {
    if a == [] {
      assert |multiset(b)| == 0;
      assert b == [];
    } else {
      var j := TakeOut(a, b);
      FlatMapPerm(f, a[..|a| - 1], b[..j] + b[j + 1..]);
      FlatMapAppend(f, b[..j], b[j + 1..]);
      FlatMapAppend(f, b[..j] + [b[j]], b[j + 1..]);
      FlatMapAppend(f, b[..j], [b[j]]);
      FlatMapOne(f, b[j]);
    }
  }

  lemma {:induction false} SumPerm<T>(f: T -> nat, a: seq<T>, b: seq<T>)
    requires multiset(a) == multiset(b)
    ensures Sum(f, a) == Sum(f, b)
  {
    if a == [] {
      assert |multiset(b)| == 0;
      assert b == [];
    } else {
      var j := TakeOut(a, b);
      SumPerm(f, a[..|a| - 1], b[..j] + b[j + 1..]);
      SumAppend(f, b[..j], b[j + 1..]);
      SumAppend(f, b[..j] + [b[j]], b[j + 1..]);
      SumAppend(f, b[..j], [b[j]]);
      SumOne(f, b[j]);
    }
  }

  lemma {:induction false} PermMember<T>(a: seq<T>, b: seq<T>, x: T)
    requires multiset(a) == multiset(b)
    ensures x in a <==> x in b
  {
    assert x in a <==> x in multiset(a);
    assert x in b <==> x in multiset(b);
  }

  // ---------------------------------------------------------------- duplicates

  ghost predicate NoDuplicates<T>(s: seq<T>) {
    forall i, j :: 0 <= i < j < |s| ==> s[i] != s[j]
  }

  lemma {:induction false} CountDistinct<T>(s: seq<T>, x: T)
    requires NoDuplicates(s)
    ensures multiset(s)[x] == if x in s then 1 else 0
  {
    if s != [] {
      var n := |s| - 1;
      CountDistinct(s[..n], x);
      assert s == s[..n] + [s[n]];
    }
  }

  /** Two duplicate-free lists with the same members are permutations of each other. */
  lemma SameMembers<T>(a: seq<T>, b: seq<T>)
    requires NoDuplicates(a) && NoDuplicates(b) && forall x :: x in a <==> x in b
    ensures multiset(a) == multiset(b)
  {
    forall x
      ensures multiset(a)[x] == multiset(b)[x]
    {
      CountDistinct(a, x);
      CountDistinct(b, x);
    }
  }

  // ---------------------------------------------------------------- equal up to a key

  function Single<T, K>(key: T -> K): T -> multiset<K> {
    (x: T) => multiset{key(x)}
  }

  lemma Cancel<T>(a: multiset<T>, b: multiset<T>, x: multiset<T>)
    requires a + x == b + x
    ensures a == b
  {
    assert a == (a + x) - x;
    assert b == (b + x) - x;
  }

  lemma {:induction false} MSumSize<T, K>(key: T -> K, s: seq<T>)
    ensures |MSum(Single(key), s)| == |s|
  {
    if s != [] {
      MSumSize(key, s[..|s| - 1]);
    }
  }

  lemma {:induction false} MSumMember<T, K>(key: T -> K, s: seq<T>, k: K) returns (j: nat)
    requires k in MSum(Single(key), s)
    ensures j < |s| && key(s[j]) == k
  {
    var n := |s| - 1;
    if key(s[n]) == k {
      j := n;
    } else {
      j := MSumMember(key, s[..n], k);
    }
  }

  lemma MSumWithout<T, U>(f: T -> multiset<U>, s: seq<T>, j: nat)
    requires j < |s|
    ensures MSum(f, s) == MSum(f, s[..j] + s[j + 1..]) + f(s[j])
  {
    hide *;
    var a, b := s[..j], s[j + 1..];
    assert s == a + [s[j]] + b;
    MSumAppend(f, a + [s[j]], b);
    MSumAppend(f, a, [s[j]]);
    MSumAppend(f, a, b);
    MSumOne(f, s[j]);
    SwapSummands(MSum(f, a), f(s[j]), MSum(f, b));
  }

  lemma SwapSummands<T>(a: multiset<T>, x: multiset<T>, b: multiset<T>)
    ensures a + x + b == a + b + x
  {
  }

  /** Two lists with the same keys, as multisets, have the same total of any weight that
      depends on the key only. */
  lemma {:induction false} CongruenceBy<T, K, U>(key: T -> K, f: T -> multiset<U>, a: seq<T>, b: seq<T>)
    requires MSum(Single(key), a) == MSum(Single(key), b)
    requires forall x, y :: x in a && y in b && key(x) == key(y) ==> f(x) == f(y)
    ensures MSum(f, a) == MSum(f, b)
  {
    MSumSize(key, a);
    MSumSize(key, b);
    if a != [] {
      var n := |a| - 1;
      assert key(a[n]) in MSum(Single(key), a);
      var j := MSumMember(key, b, key(a[n]));
      var rest := b[..j] + b[j + 1..];
      MSumWithout(Single(key), b, j);
      Cancel(MSum(Single(key), a[..n]), MSum(Single(key), rest), multiset{key(a[n])});
      CongruenceBy(key, f, a[..n], rest);
      MSumWithout(f, b, j);
      assert a[n] in a && b[j] in b;
    }
  }
}
