/** What clauses and orders mean, said of field names and values directly
    (drivers/memsearch/memsearch.go:104-132, 167-231). */
module SearchMeaning {
  import opened Seqs
  import opened KeyOrder
  import opened Memsearch

  // ---------------------------------------------------------------- field names

  function Lower(ch: char): char {
    if 'A' <= ch <= 'Z' then (ch as int + 32) as char else ch
  }

  /** The name starts with "data.", in any case, and goes on. */
  ghost predicate Dotted(name: string) {
    |name| > 5 && forall i :: 0 <= i < 5 ==> Lower(name[i]) == "data."[i]
  }

  /** A field name as a caller writes it: bare, or behind "data.". */
  ghost predicate Names(name: string, field: string) {
    if Dotted(name) then name[5..] == field else name == field
  }

  lemma NamesIff(name: string, field: string)
    ensures Names(name, field) <==> Bare(name) == field
  {
    if |name| > 5 {
      var s := name[..5];
      assert forall i :: 0 <= i < 5 ==> name[i] == s[i];
      assert "data."[0] == 'd' && "data."[1] == 'a' && "data."[2] == 't' && "data."[3] == 'a' && "data."[4] == '.';
      IsDotted(s);
    }
  }

  lemma IsDotted(s: string)
    requires |s| == 5
    ensures IsDataDot(s) <==> Lower(s[0]) == 'd' && Lower(s[1]) == 'a' && Lower(s[2]) == 't' && Lower(s[3]) == 'a' && Lower(s[4]) == '.'
  {
  }

  // ---------------------------------------------------------------- clauses

  /** An exact clause keeps the documents whose field has that very value; a regular
      expression those whose field is a string that it matches. */
  lemma ClauseKeeps(f: Filter, field: string, d: Doc, matches: (string, string) -> bool)
    requires Names(f.field, field)
    ensures f.regex == "" ==> (Accepts(f, d, matches) <==> field in d.data && d.data[field] == f.value)
    ensures f.regex != "" ==> (Accepts(f, d, matches) <==> exists s :: field in d.data && d.data[field] == Str(s) && matches(f.regex, s))
  {
    NamesIff(f.field, field);
    if field in d.data && d.data[field].Str? {
      assert d.data[field] == Str(d.data[field].s);
    }
  }

  /** The exact clauses field = value for a list of pairs. */
  ghost predicate Exacts(filters: seq<Filter>, pairs: seq<(string, Value)>) {
    |filters| == |pairs| &&
    forall i :: 0 <= i < |pairs| ==>
      filters[i].field != "" && Names(filters[i].field, pairs[i].0) && filters[i].value == pairs[i].1 && filters[i].regex == ""
  }

  /** The document has one of the values. */
  ghost predicate HasOne(pairs: seq<(string, Value)>, d: Doc) {
    exists i :: 0 <= i < |pairs| && pairs[i].0 in d.data && d.data[pairs[i].0] == pairs[i].1
  }

  ghost function HasOneFn(pairs: seq<(string, Value)>): Doc -> seq<Doc> {
    (d: Doc) => if HasOne(pairs, d) then [d] else []
  }

  lemma JudgeExacts(filters: seq<Filter>, pairs: seq<(string, Value)>, d: Doc, matches: (string, string) -> bool)
    requires Exacts(filters, pairs)
    ensures Judge(filters, d, matches) == if HasOne(pairs, d) then Keep else Drop
  {
    JudgeIs(filters, d, matches);
    hide Judge, Names, Accepts;
    forall i | 0 <= i < |pairs|
      ensures Accepts(filters[i], d, matches) <==> pairs[i].0 in d.data && d.data[pairs[i].0] == pairs[i].1
    {
      ClauseKeeps(filters[i], pairs[i].0, d, matches);
    }
    if HasOne(pairs, d) {
      var i :| 0 <= i < |pairs| && pairs[i].0 in d.data && d.data[pairs[i].0] == pairs[i].1;
      assert AcceptsAt(filters, d, matches, i);
    }
  }

  /** A filter of exact clauses never fails, and keeps the documents that have one of the
      values asked for, in their order and no others. */
  lemma {:induction false} ExactsKeep(filters: seq<Filter>, pairs: seq<(string, Value)>, docs: seq<Doc>,
                                      matches: (string, string) -> bool)
    requires Exacts(filters, pairs)
    ensures AllValid(filters, docs, matches)
    ensures FlatMap(KeepFn(filters, matches), docs) == FlatMap(HasOneFn(pairs), docs)
  {
    hide Judge, HasOne, Exacts;
    forall d | d in docs
      ensures Judge(filters, d, matches) == if HasOne(pairs, d) then Keep else Drop
    {
      JudgeExacts(filters, pairs, d, matches);
    }
    if docs != [] {
      ExactsKeep(filters, pairs, docs[..|docs| - 1], matches);
    }
  }

  // ---------------------------------------------------------------- order

  /** The prefix first, else the smaller character at the first difference. */
  ghost predicate Alphabetic(s: string, t: string) {
    s <= t || exists k :: 0 <= k < |s| && k < |t| && s[..k] == t[..k] && s[k] < t[k]
  }

  lemma AlphabeticIff(s: string, t: string)
    ensures Alphabetic(s, t) <==> !Less(t, s)
  {
    LessIs(s, t);
    LessIs(t, s);
    LessTotal(s, t);
    if Alphabetic(s, t) && Less(t, s) {
      assert s != t;
      if k :| 0 <= k < |s| && k < |t| && s[..k] == t[..k] && s[k] < t[k] {
        assert PartAt(s, t, k);
      }
      LessTransitive(s, t, s);
      LessIrreflexive(s);
    }
    if Less(s, t) {
      if k :| PartAt(s, t, k) {
        assert s[k] < t[k];
      }
    }
  }

  /** Two values of one type, the first not greater than the second. */
  ghost predicate AtMost(a: Value, b: Value) {
    match (a, b)
    case (Int(m), Int(n)) => m <= n
    case (Int64(m), Int64(n)) => m <= n
    case (Int32(m), Int32(n)) => m <= n
    case (Float(x), Float(y)) => x <= y
    case (Str(s), Str(t)) => Alphabetic(s, t)
    case _ => false
  }

  lemma AtMostIff(a: Value, b: Value)
    requires Comparable(a, b)
    ensures AtMost(a, b) <==> !ValueLess(b, a)
  {
    if a.Str? {
      AlphabeticIff(a.s, b.s);
    }
  }

  /** The order asked for by name, or by a minus and the name. */
  function Asked(name: string, down: bool): string {
    if down then "-" + name else name
  }

  /** Those of the documents that have the field, in their order. */
  function Having(docs: seq<Doc>, field: string): seq<Doc> {
    FlatMap((d: Doc) => if field in d.data then [d] else [], docs)
  }

  /** Order("f") lists the documents that have f, each as often as before, with their values
      of f ascending; Order("-f") with them descending. */
  lemma OrderMeans(all: seq<Doc>, docs: seq<Doc>, name: string, field: string, down: bool)
    requires Names(name, field) && (down || (name != "" && name[0] != '-'))
    requires IsOrdering(all, docs, Asked(name, down))
    ensures multiset(all) == multiset(Having(docs, field))
    ensures forall i :: 0 <= i < |all| ==> field in all[i].data
    ensures forall i, j :: 0 <= i < j < |all| ==>
              if down then AtMost(all[j].data[field], all[i].data[field]) else AtMost(all[i].data[field], all[j].data[field])
  {
    NamesIff(name, field);
    assert down ==> Asked(name, down)[1..] == name;
    assert SortField(Asked(name, down)) == (field, down);
    hide SortField, Bare;
    FlatMapSame(HasFn(field), (d: Doc) => if field in d.data then [d] else [], docs);
    forall i, j | 0 <= i < j < |all|
      ensures if down then AtMost(all[j].data[field], all[i].data[field]) else AtMost(all[i].data[field], all[j].data[field])
    {
      AtMostIff(all[i].data[field], all[j].data[field]);
      AtMostIff(all[j].data[field], all[i].data[field]);
      assert !Before(all[j], all[i], field, down);
    }
  }

  /** All values of the field are of the type that `kind` tells. */
  ghost predicate AllAre(docs: seq<Doc>, field: string, kind: Value -> bool) {
    forall i :: 0 <= i < |docs| ==> field in docs[i].data && kind(docs[i].data[field])
  }

  /** Sorting needs the field in every document, and when there are several, values of one of
      the five orderable types. */
  lemma OrderableIff(docs: seq<Doc>, field: string)
    ensures Orderable(docs, field) <==>
              || (|docs| <= 1 && forall i :: 0 <= i < |docs| ==> field in docs[i].data)
              || AllAre(docs, field, (v: Value) => v.Str?) || AllAre(docs, field, (v: Value) => v.Int?)
              || AllAre(docs, field, (v: Value) => v.Int64?) || AllAre(docs, field, (v: Value) => v.Int32?)
              || AllAre(docs, field, (v: Value) => v.Float?)
  {
    if Orderable(docs, field) && |docs| > 1 {
      assert Comparable(docs[0].data[field], docs[0].data[field]);
      assert forall i :: 0 <= i < |docs| ==> Comparable(docs[0].data[field], docs[i].data[field]);
    }
  }
}
