/** Byte-wise order on keys, prefixes, and the ordered iterator of the key-value engine. */
module KeyOrder {

  /** Lexicographic order, a proper prefix first. */
  predicate Less(a: string, b: string) {
    b != "" && (a == "" || a[0] < b[0] || (a[0] == b[0] && Less(a[1..], b[1..])))
  }

  /** a and b agree up to position k, where a has the smaller character. */
  ghost predicate PartAt(a: string, b: string, k: int) {
    0 <= k < |a| && k < |b| && a[..k] == b[..k] && a[k] < b[k]
  }

  /** The order on strings: a proper prefix comes first, otherwise the first difference decides. */
  lemma {:induction false} LessIs(a: string, b: string)
    ensures Less(a, b) <==> (a <= b && a != b) || exists k :: PartAt(a, b, k)
    decreases |a|
  {
    if a == "" {
      assert forall k :: !PartAt(a, b, k);
    } else if b != "" && a[0] < b[0] {
      assert PartAt(a, b, 0);
    } else if b != "" && a[0] == b[0] {
      LessIs(a[1..], b[1..]);
      assert a == [a[0]] + a[1..] && b == [b[0]] + b[1..];
      if k :| PartAt(a, b, k) {
        assert a[1..][..k - 1] == a[..k][1..] && b[1..][..k - 1] == b[..k][1..];
        assert PartAt(a[1..], b[1..], k - 1);
      }
      if k :| PartAt(a[1..], b[1..], k) {
        assert a[..k + 1] == [a[0]] + a[1..][..k] && b[..k + 1] == [b[0]] + b[1..][..k];
        assert PartAt(a, b, k + 1);
      }
    } else {
      forall k | 0 < k < |a| && k < |b|
        ensures a[..k] != b[..k]
      {
        assert a[..k][0] == a[0] && b[..k][0] == b[0];
      }
    }
  }

  lemma {:induction false} LessTotal(a: string, b: string)
    ensures Less(a, b) || a == b || Less(b, a)
    decreases |a|
  {
    if a != "" && b != "" && a[0] == b[0] {
      LessTotal(a[1..], b[1..]);
      assert a == [a[0]] + a[1..] && b == [b[0]] + b[1..];
    }
  }

  lemma {:induction false} LessTransitive(a: string, b: string, c: string)
    requires Less(a, b) && Less(b, c)
    ensures Less(a, c)
    decreases |a|
  {
    if a != "" && a[0] == b[0] && b[0] == c[0] {
      LessTransitive(a[1..], b[1..], c[1..]);
    }
  }

  lemma {:induction false} LessIrreflexive(a: string)
    ensures !Less(a, a)
    decreases |a|
  {
    if a != "" {
      LessIrreflexive(a[1..]);
    }
  }

  /** Strings that part ways before either ends compare as they do there, whatever follows. */
  lemma {:induction false} LessExtended(a: string, b: string, x: string, y: string)
    requires !(a <= b) && !(b <= a)
    ensures Less(a + x, b + y) <==> Less(a, b)
    decreases |a|
  {
    assert a != "" && b != "";
    assert (a + x)[0] == a[0] && (b + y)[0] == b[0];
    assert (a + x)[1..] == a[1..] + x && (b + y)[1..] == b[1..] + y;
    if a[0] == b[0] {
      assert a == [a[0]] + a[1..] && b == [b[0]] + b[1..];
      LessExtended(a[1..], b[1..], x, y);
    }
  }

  /** A string is not less than its own prefixes. */
  lemma {:induction false} NotLessThanPrefix(a: string, x: string)
    ensures !Less(a + x, a)
    decreases |a|
  {
    if a != "" {
      assert (a + x)[0] == a[0] && (a + x)[1..] == a[1..] + x;
      NotLessThanPrefix(a[1..], x);
    }
  }

  ghost predicate Ascending(keys: seq<string>) {
    forall i, j :: 0 <= i < j < |keys| ==> Less(keys[i], keys[j])
  }

  method Smallest(keys: set<string>) returns (k: string)
    requires keys != {}
    ensures k in keys && forall x :: x in keys && x != k ==> Less(k, x)
  {
    k :| k in keys;
    var rest := keys - {k};
    while rest != {}
      invariant rest <= keys && k in keys && k !in rest
      invariant forall x :: x in keys && x !in rest && x != k ==> Less(k, x)
      decreases rest
    {
      var y :| y in rest;
      LessTotal(k, y);
      if Less(y, k) {
        forall x | x in keys && x !in rest && x != k
          ensures Less(y, x)
        {
          LessTransitive(y, k, x);
        }
        k := y;
      }
      rest := rest - {y};
    }
  }

  /** The engine's iterator over some of its keys: each once, in ascending order. */
  method Iterator(keys: set<string>) returns (s: seq<string>)
    ensures Ascending(s)
    ensures forall k :: k in s <==> k in keys
  {
    s := [];
    var rest := keys;
    while rest != {}
      invariant rest <= keys && Ascending(s)
      invariant forall k :: k in s <==> k in keys - rest
      invariant forall k, x :: k in s && x in rest ==> Less(k, x)
      decreases rest
    {
      var k := Smallest(rest);
      s := s + [k];
      rest := rest - {k};
    }
  }

  lemma AscendingDistinct(keys: seq<string>)
    requires Ascending(keys)
    ensures forall i, j :: 0 <= i < j < |keys| ==> keys[i] != keys[j]
  {
    forall i, j | 0 <= i < j < |keys|
      ensures keys[i] != keys[j]
    {
      LessIrreflexive(keys[i]);
    }
  }
}
