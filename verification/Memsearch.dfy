/** The in-memory search engine: versioned documents, and queries that filter, order and
    page a slice in place (drivers/memsearch/memsearch.go). */
module Memsearch {
  import opened Seqs
  import opened Types
  import opened KeyOrder

  /** The property values that Less can compare, and all others. */
  datatype Value =
    | Nil
    | Str(s: string)
    | Int64(n: int)
    | Int32(n: int)
    | Int(n: int)
    | Float(x: real)
    | Other(json: string)

  datatype Doc = Doc(kind: string, id: string, nanoTs: int, data: map<string, Value>)

  // ---------------------------------------------------------------- the engine

  function Key(kind: string, id: string): string {
    kind + ":" + id
  }

  lemma KeyHead(kind: string, id: string)
    ensures if kind == "" then Key(kind, id)[0] == ':' && Key(kind, id)[1..] == id
            else Key(kind, id)[0] == kind[0] && Key(kind, id)[1..] == Key(kind[1..], id)
  {
    if kind != "" {
      assert Key(kind, id)[1..] == Key(kind[1..], id);
    }
  }

  /** Entities of two kinds can share a key exactly when one kind, followed by a colon,
      starts the other. */
  lemma KeysMeet(kind: string, kind': string)
    requires kind != kind'
    ensures (exists id, id' :: Key(kind, id) == Key(kind', id')) <==> kind + ":" <= kind' || kind' + ":" <= kind
  {
    if kind + ":" <= kind' {
      KeyOfLonger(kind, kind');
      assert Key(kind, kind'[|kind| + 1..] + ":") == Key(kind', "");
    }
    if kind' + ":" <= kind {
      KeyOfLonger(kind', kind);
      assert Key(kind, "") == Key(kind', kind[|kind'| + 1..] + ":");
    }
    if id, id' :| Key(kind, id) == Key(kind', id') {
      KeyPrefix(kind, id, kind', id');
    }
  }

  lemma KeyOfLonger(kind: string, kind': string)
    requires kind + ":" <= kind'
    ensures Key(kind, kind'[|kind| + 1..] + ":") == Key(kind', "")
  {
    assert kind' == (kind + ":") + kind'[|kind| + 1..];
  }

  lemma {:induction false} KeyPrefix(kind: string, id: string, kind': string, id': string)
    requires Key(kind, id) == Key(kind', id')
    ensures kind == kind' || kind + ":" <= kind' || kind' + ":" <= kind
    ensures kind == kind' ==> id == id'
    decreases |kind|
  {
    KeyHead(kind, id);
    KeyHead(kind', id');
    if kind != "" && kind' != "" {
      KeyPrefix(kind[1..], id, kind'[1..], id');
      assert kind == [kind[0]] + kind[1..] && kind' == [kind'[0]] + kind'[1..];
      assert kind + ":" == [kind[0]] + (kind[1..] + ":") && kind' + ":" == [kind'[0]] + (kind'[1..] + ":");
    }
  }

  /** So keys tell entities apart as long as kinds contain no colon. */
  lemma KeyInjective(kind: string, id: string, kind': string, id': string)
    requires ':' !in kind && ':' !in kind' && Key(kind, id) == Key(kind', id')
    ensures kind == kind' && id == id'
  {
    KeyPrefix(kind, id, kind', id');
    ColonIn(kind, kind');
    ColonIn(kind', kind);
  }

  lemma ColonIn(a: string, b: string)
    ensures a + ":" <= b ==> ':' in b
  {
    assert a + ":" <= b ==> b[|a|] == (a + ":")[|a|];
  }

  class MemSearch {
    var docs: map<string, Doc>

    constructor ()
      ensures docs == map[] && Valid()
    {
      docs := map[];
    }

    /** A document replaces only a strictly older one. */
    method Update(doc: Doc) returns (ok: bool)
      requires Valid()
      modifies this
      ensures Valid()
      ensures var key := Key(doc.kind, doc.id);
              && ok == !(key in old(docs) && old(docs)[key].nanoTs >= doc.nanoTs)
              && docs == if ok then old(docs)[key := doc] else old(docs)
      ensures forall us :: old(docs) == Updated(us) ==> docs == Updated(us + [doc])
    {
      forall us | docs == Updated(us)
        ensures (us + [doc])[..|us|] == us
      {
      }
      var key := Key(doc.kind, doc.id);
      if key in docs && docs[key].nanoTs >= doc.nanoTs {
        return false;
      }
      docs := docs[key := doc];
      ok := true;
    }

    ghost predicate Valid()
      reads this
    {
      forall key :: key in docs ==> key == Key(docs[key].kind, docs[key].id)
    }

    /** The documents of one kind, each once, in whatever order the map is ranged over. */
    method NewQuery(kind: string) returns (q: MemQuery)
      requires Valid()
      ensures fresh(q) && fresh(q.arr) && q.Valid() && NoDuplicates(q.Docs())
      ensures q.filter == null && q.from == 0 && q.limit == 0 && q.order == ""
      ensures forall d :: d in q.Docs() <==> d.kind == kind && d in docs.Values
    {
      hide Key;
      var found: seq<Doc> := [];
      var rest := docs.Keys;
      while rest != {}
        invariant rest <= docs.Keys && NoDuplicates(found)
        invariant forall d :: d in found <==> d.kind == kind && Stored(docs, d) && Key(d.kind, d.id) !in rest
        decreases rest
      {
        var key :| key in rest;
        rest := rest - {key};
        if docs[key].kind == kind {
          found := found + [docs[key]];
        }
      }
      q := new MemQuery(found);
      assert q.Docs() == found;
      forall d
        ensures d in docs.Values <==> Stored(docs, d)
      {
        if d in docs.Values {
          var key :| key in docs && docs[key] == d;
        }
      }
    }
  }

  /** The document sits at its key. */
  predicate Stored(docs: map<string, Doc>, d: Doc) {
    var key := Key(d.kind, d.id);
    key in docs && docs[key] == d
  }

  function DocKey(d: Doc): string {
    Key(d.kind, d.id)
  }

  /** The engine after these updates, from an empty one on. */
  function Updated(updates: seq<Doc>): map<string, Doc> {
    if updates == [] then map[]
    else
      var docs := Updated(updates[..|updates| - 1]);
      var doc := updates[|updates| - 1];
      var key := DocKey(doc);
      if key in docs && docs[key].nanoTs >= doc.nanoTs then docs else docs[key := doc]
  }

  /** Update i is the first of the newest ones for its key. */
  ghost predicate Wins(updates: seq<Doc>, i: int) {
    && 0 <= i < |updates|
    && forall j :: 0 <= j < |updates| && DocKey(updates[j]) == DocKey(updates[i]) ==>
         updates[j].nanoTs <= updates[i].nanoTs && (j < i ==> updates[j].nanoTs < updates[i].nanoTs)
  }

  /** Whatever came in when: the engine holds, for every key, the newest document that was
      ever given for it, the first of them if several are, and nothing else. */
  lemma {:induction false} NewestStays(updates: seq<Doc>)
    ensures forall i :: 0 <= i < |updates| ==> DocKey(updates[i]) in Updated(updates)
    ensures forall key :: key in Updated(updates) ==>
              exists i :: Wins(updates, i) && DocKey(updates[i]) == key && updates[i] == Updated(updates)[key]
  {
    if updates != [] {
      hide DocKey;
      var n := |updates| - 1;
      var short := updates[..n];
      NewestStays(short);
      forall key | key in Updated(updates)
        ensures exists i :: Wins(updates, i) && DocKey(updates[i]) == key && updates[i] == Updated(updates)[key]
      {
        StillNewest(updates, key);
      }
      forall i | 0 <= i < |updates|
        ensures DocKey(updates[i]) in Updated(updates)
      {
        assert i < n ==> short[i] == updates[i];
      }
    }
  }

  lemma StillNewest(updates: seq<Doc>, key: string)
    requires updates != [] && key in Updated(updates)
    requires var short := updates[..|updates| - 1];
             && (forall i :: 0 <= i < |short| ==> DocKey(short[i]) in Updated(short))
             && (key in Updated(short) ==>
                   exists i :: Wins(short, i) && DocKey(short[i]) == key && short[i] == Updated(short)[key])
    ensures exists i :: Wins(updates, i) && DocKey(updates[i]) == key && updates[i] == Updated(updates)[key]
  {
    hide DocKey;
    var n := |updates| - 1;
    var short := updates[..n];
    if key in Updated(short) {
      var i :| Wins(short, i) && DocKey(short[i]) == key && short[i] == Updated(short)[key];
      if DocKey(updates[n]) == key && updates[n].nanoTs > short[i].nanoTs {
        assert Wins(updates, n);
      } else {
        assert Wins(updates, i);
      }
    } else {
      forall j | 0 <= j < n
        ensures DocKey(updates[j]) != key
      {
        assert short[j] == updates[j];
      }
      assert Wins(updates, n);
    }
  }

  /** No two different documents of one entity carry the same time. */
  ghost predicate TimesDiffer(updates: seq<Doc>) {
    forall i, j :: 0 <= i < |updates| && 0 <= j < |updates| && updates[i] != updates[j] &&
                   DocKey(updates[i]) == DocKey(updates[j]) ==>
      updates[i].nanoTs != updates[j].nanoTs
  }

  /** So the order of the updates does not matter, as long as times tell documents apart. */
  lemma UpdatesAnyOrder(a: seq<Doc>, b: seq<Doc>)
    requires multiset(a) == multiset(b) && TimesDiffer(a)
    ensures Updated(a) == Updated(b)
  {
    hide DocKey, Updated;
    NewestStays(a);
    NewestStays(b);
    forall key
      ensures key in Updated(a) <==> key in Updated(b)
      ensures key in Updated(a) && key in Updated(b) ==> Updated(a)[key] == Updated(b)[key]
    {
      if key in Updated(a) {
        var i :| Wins(a, i) && DocKey(a[i]) == key && a[i] == Updated(a)[key];
        var j := SameAt(a, b, i);
        assert DocKey(b[j]) in Updated(b);
      }
      if key in Updated(b) {
        var i :| Wins(b, i) && DocKey(b[i]) == key && b[i] == Updated(b)[key];
        var j := SameAt(b, a, i);
        assert DocKey(a[j]) in Updated(a);
        var k :| Wins(a, k) && DocKey(a[k]) == key && a[k] == Updated(a)[key];
        var l := SameAt(a, b, k);
        assert a[j].nanoTs <= a[k].nanoTs && b[l].nanoTs <= b[i].nanoTs;
      }
    }
  }

  lemma SameAt<T>(a: seq<T>, b: seq<T>, i: nat) returns (j: nat)
    requires multiset(a) == multiset(b) && i < |a|
    ensures j < |b| && b[j] == a[i]
  {
    PermMember(a, b, a[i]);
    j :| 0 <= j < |b| && b[j] == a[i];
  }

  // ---------------------------------------------------------------- filters

  /** An exact filter, or a regular expression when `regex` is non-empty. */
  datatype Filter = Filter(field: string, value: Value, regex: string)

  /** `data.x`, in any case, means `x`. */
  function Bare(field: string): string {
    if |field| > 5 && IsDataDot(field[..5]) then field[5..] else field
  }

  predicate IsDataDot(s: string)
    requires |s| == 5
  {
    (s[0] == 'd' || s[0] == 'D') && (s[1] == 'a' || s[1] == 'A') && (s[2] == 't' || s[2] == 'T') &&
    (s[3] == 'a' || s[3] == 'A') && s[4] == '.'
  }

  /** Whether one filter accepts a document; `matches` stands for the regexp engine. */
  predicate Accepts(f: Filter, d: Doc, matches: (string, string) -> bool) {
    var field := Bare(f.field);
    field in d.data &&
    if f.regex != "" then d.data[field].Str? && matches(f.regex, d.data[field].s) else d.data[field] == f.value
  }

  /** Filter i is looked at: no filter before it has accepted or ended the search. */
  ghost predicate LookedAt(filters: seq<Filter>, d: Doc, matches: (string, string) -> bool, i: int) {
    0 <= i < |filters| && filters[i].field != "" &&
    forall j :: 0 <= j < i ==> filters[j].field != "" && !Accepts(filters[j], d, matches)
  }

  predicate StrIfAny(f: Filter, d: Doc) {
    Bare(f.field) in d.data ==> d.data[Bare(f.field)].Str?
  }

  /** A regular expression is only ever applied to strings; the code panics otherwise. */
  ghost predicate RegexSafe(filters: seq<Filter>, docs: seq<Doc>, matches: (string, string) -> bool) {
    forall d, i :: d in docs && LookedAt(filters, d, matches, i) && filters[i].regex != "" ==> StrIfAny(filters[i], d)
  }

  datatype Verdict = Keep | Drop | Invalid

  /** Filters are tried in order: the first to accept decides, an empty field before that is
      an error. */
  function Judge(filters: seq<Filter>, d: Doc, matches: (string, string) -> bool): Verdict {
    if filters == [] then Drop
    else if filters[0].field == "" then Invalid
    else if Accepts(filters[0], d, matches) then Keep
    else Judge(filters[1..], d, matches)
  }

  /** Filter i accepts, and no filter up to it has an empty field. */
  ghost predicate AcceptsAt(filters: seq<Filter>, d: Doc, matches: (string, string) -> bool, i: int) {
    0 <= i < |filters| && Accepts(filters[i], d, matches) && forall j :: 0 <= j <= i ==> filters[j].field != ""
  }

  /** The search reaches filter i, which has an empty field. */
  ghost predicate EmptyAt(filters: seq<Filter>, d: Doc, matches: (string, string) -> bool, i: int) {
    0 <= i < |filters| && filters[i].field == "" &&
    forall j :: 0 <= j < i ==> filters[j].field != "" && !Accepts(filters[j], d, matches)
  }

  lemma {:induction false} JudgeIs(filters: seq<Filter>, d: Doc, matches: (string, string) -> bool)
    ensures Judge(filters, d, matches) == Keep <==> exists i :: AcceptsAt(filters, d, matches, i)
    ensures Judge(filters, d, matches) == Invalid <==> exists i :: EmptyAt(filters, d, matches, i)
    ensures Judge(filters, d, matches) == Drop <==>
              forall i :: 0 <= i < |filters| ==> filters[i].field != "" && !Accepts(filters[i], d, matches)
  {
    if filters != [] {
      hide Accepts;
      var rest := filters[1..];
      JudgeIs(rest, d, matches);
      assert forall i :: 0 <= i < |rest| ==> rest[i] == filters[i + 1];
      assert forall i :: 0 < i < |filters| ==> filters[i] == rest[i - 1];
      if filters[0].field == "" {
        assert EmptyAt(filters, d, matches, 0);
      } else if Accepts(filters[0], d, matches) {
        assert AcceptsAt(filters, d, matches, 0);
      } else {
        JudgeOn(filters, d, matches);
      }
    }
  }

  /** Behind a filter that does not decide, the search goes on as in the rest. */
  lemma JudgeOn(filters: seq<Filter>, d: Doc, matches: (string, string) -> bool)
    requires filters != [] && filters[0].field != "" && !Accepts(filters[0], d, matches)
    ensures (exists i :: AcceptsAt(filters, d, matches, i)) <==> exists i :: AcceptsAt(filters[1..], d, matches, i)
    ensures (exists i :: EmptyAt(filters, d, matches, i)) <==> exists i :: EmptyAt(filters[1..], d, matches, i)
  {
    hide Accepts;
    var rest := filters[1..];
    assert forall i :: 0 <= i < |rest| ==> rest[i] == filters[i + 1];
    assert forall i :: 0 < i < |filters| ==> filters[i] == rest[i - 1];
    if i :| AcceptsAt(filters, d, matches, i) {
      assert AcceptsAt(rest, d, matches, i - 1);
    }
    if i :| AcceptsAt(rest, d, matches, i) {
      assert AcceptsAt(filters, d, matches, i + 1);
    }
    if i :| EmptyAt(filters, d, matches, i) {
      assert EmptyAt(rest, d, matches, i - 1);
    }
    if i :| EmptyAt(rest, d, matches, i) {
      assert EmptyAt(filters, d, matches, i + 1);
    }
  }

  /** No document meets an empty field. */
  ghost predicate AllValid(filters: seq<Filter>, docs: seq<Doc>, matches: (string, string) -> bool) {
    forall d :: d in docs ==> Judge(filters, d, matches) != Invalid
  }

  function KeepFn(filters: seq<Filter>, matches: (string, string) -> bool): Doc -> seq<Doc> {
    (d: Doc) => if Judge(filters, d, matches) == Keep then [d] else []
  }

  function HasFn(field: string): Doc -> seq<Doc> {
    (d: Doc) => if field in d.data then [d] else []
  }

  // ---------------------------------------------------------------- AND filters

  ghost predicate AcceptsAll(filters: seq<Filter>, d: Doc, matches: (string, string) -> bool) {
    forall i :: 0 <= i < |filters| ==> Accepts(filters[i], d, matches)
  }

  ghost function AllFn(filters: seq<Filter>, matches: (string, string) -> bool): Doc -> seq<Doc> {
    (d: Doc) => if AcceptsAll(filters, d, matches) then [d] else []
  }

  ghost predicate AcceptsSome(filters: seq<Filter>, d: Doc, matches: (string, string) -> bool) {
    exists i :: 0 <= i < |filters| && Accepts(filters[i], d, matches)
  }

  /** No document is accepted by one clause and not by another. */
  ghost predicate NoneSplit(filters: seq<Filter>, docs: seq<Doc>, matches: (string, string) -> bool) {
    forall d :: d in docs && AcceptsSome(filters, d, matches) ==> AcceptsAll(filters, d, matches)
  }

  lemma KeepIsSome(filters: seq<Filter>, d: Doc, matches: (string, string) -> bool)
    requires Judge(filters, d, matches) != Invalid
    ensures Judge(filters, d, matches) == Keep <==> AcceptsSome(filters, d, matches)
    ensures filters != [] && AcceptsAll(filters, d, matches) ==> AcceptsSome(filters, d, matches)
  {
    JudgeIs(filters, d, matches);
    if i :| AcceptsAt(filters, d, matches, i) {
      assert Accepts(filters[i], d, matches);
    }
    if filters != [] && AcceptsAll(filters, d, matches) {
      assert Accepts(filters[0], d, matches);
    }
  }

  /** The loop of an AND filter keeps a document at its first accepting clause, as an OR
      filter does. So, when it does not fail, it computes the conjunction if and only if
      there are clauses and no document is accepted by some of them only, or there are no
      documents: without clauses it keeps none where the conjunction keeps all. */
  lemma AndFilterIs(filters: seq<Filter>, docs: seq<Doc>, matches: (string, string) -> bool)
    requires AllValid(filters, docs, matches)
    ensures FlatMap(KeepFn(filters, matches), docs) == FlatMap(AllFn(filters, matches), docs) <==>
              docs == [] || (filters != [] && NoneSplit(filters, docs, matches))
  {
    if docs != [] && filters == [] {
      NoClauses(docs, matches);
    } else if docs != [] {
      SomeClauses(filters, docs, matches);
    }
  }

  lemma {:induction false} NoClauses(docs: seq<Doc>, matches: (string, string) -> bool)
    ensures FlatMap(KeepFn([], matches), docs) == [] && FlatMap(AllFn([], matches), docs) == docs
  {
    if docs != [] {
      NoClauses(docs[..|docs| - 1], matches);
    }
  }

  lemma {:induction false} SomeClauses(filters: seq<Filter>, docs: seq<Doc>, matches: (string, string) -> bool)
    requires AllValid(filters, docs, matches) && filters != []
    ensures FlatMap(KeepFn(filters, matches), docs) == FlatMap(AllFn(filters, matches), docs) <==>
              NoneSplit(filters, docs, matches)
    ensures |FlatMap(AllFn(filters, matches), docs)| <= |FlatMap(KeepFn(filters, matches), docs)|
  {
    if docs != [] {
      AllValidLast(filters, docs, matches);
      hide *;
      var n := |docs| - 1;
      SomeClauses(filters, docs[..n], matches);
      KeepIsSome(filters, docs[n], matches);
      AndFilterLast(filters, docs, matches);
      SameAfter(FlatMap(KeepFn(filters, matches), docs[..n]), FlatMap(AllFn(filters, matches), docs[..n]), docs[n]);
    } else {
      AndFilterNone(filters, matches);
    }
  }

  lemma AllValidLast(filters: seq<Filter>, docs: seq<Doc>, matches: (string, string) -> bool)
    requires AllValid(filters, docs, matches) && docs != []
    ensures AllValid(filters, docs[..|docs| - 1], matches) && Judge(filters, docs[|docs| - 1], matches) != Invalid
  {
    hide Judge;
    assert docs[|docs| - 1] in docs;
  }

  lemma AndFilterNone(filters: seq<Filter>, matches: (string, string) -> bool)
    ensures FlatMap(KeepFn(filters, matches), []) == [] && FlatMap(AllFn(filters, matches), []) == []
    ensures NoneSplit(filters, [], matches)
  {
  }

  lemma SameAfter<T>(a: seq<T>, b: seq<T>, x: T)
    requires |b| <= |a|
    ensures a + [x] == b + [x] <==> a == b
    ensures a + [x] != b + [] && a + [] == a && b + [] == b
  {
    assert (a + [x])[..|a|] == a && (b + [x])[..|b|] == b;
    assert |a + [x]| > |b + []|;
  }

  lemma AndFilterLast(filters: seq<Filter>, docs: seq<Doc>, matches: (string, string) -> bool)
    requires docs != []
    ensures var n := |docs| - 1;
            && FlatMap(KeepFn(filters, matches), docs) ==
                 FlatMap(KeepFn(filters, matches), docs[..n]) + (if Judge(filters, docs[n], matches) == Keep then [docs[n]] else [])
            && FlatMap(AllFn(filters, matches), docs) ==
                 FlatMap(AllFn(filters, matches), docs[..n]) + (if AcceptsAll(filters, docs[n], matches) then [docs[n]] else [])
            && (NoneSplit(filters, docs, matches) <==>
                  (NoneSplit(filters, docs[..n], matches) &&
                   (AcceptsSome(filters, docs[n], matches) ==> AcceptsAll(filters, docs[n], matches))))
  {
    hide Judge, AcceptsAll, AcceptsSome;
    var n := |docs| - 1;
    assert docs == docs[..n] + [docs[n]];
    assert forall d :: d in docs <==> d in docs[..n] || d == docs[n];
  }

  /** A document on which the two differ: it satisfies the second of two clauses only. */
  lemma AndIsNotConjunction(matches: (string, string) -> bool)
    ensures var f, g := Filter("x", Int(1), ""), Filter("y", Int(2), "");
            var d := Doc("K", "i", 0, map["y" := Int(2)]);
            Judge([f, g], d, matches) == Keep && !AcceptsAll([f, g], d, matches)
  {
    var f, g := Filter("x", Int(1), ""), Filter("y", Int(2), "");
    var d := Doc("K", "i", 0, map["y" := Int(2)]);
    assert [f, g][1..] == [g];
    assert !Accepts([f, g][0], d, matches);
  }

  // ---------------------------------------------------------------- order and pages

  /** `-f` sorts by f in reverse. */
  function SortField(order: string): (string, bool) {
    if order != "" && order[0] == '-' then (Bare(order[1..]), true) else (Bare(order), false)
  }

  predicate Comparable(a: Value, b: Value) {
    (a.Str? && b.Str?) || (a.Int64? && b.Int64?) || (a.Int32? && b.Int32?) || (a.Int? && b.Int?) || (a.Float? && b.Float?)
  }

  predicate ValueLess(a: Value, b: Value)
    requires Comparable(a, b)
  {
    match a
    case Str(s) => Less(s, b.s)
    case Int64(n) => n < b.n
    case Int32(n) => n < b.n
    case Int(n) => n < b.n
    case Float(x) => x < b.x
  }

  /** The documents all have the field, and if there are several their values are of one
      orderable type; the code stops the process otherwise. */
  ghost predicate Orderable(docs: seq<Doc>, field: string) {
    (forall i :: 0 <= i < |docs| ==> field in docs[i].data) &&
    (|docs| > 1 ==>
       forall i, j :: 0 <= i < |docs| && 0 <= j < |docs| ==> Comparable(docs[i].data[field], docs[j].data[field]))
  }

  predicate Before(a: Doc, b: Doc, field: string, reverse: bool)
    requires field in a.data && field in b.data && Comparable(a.data[field], b.data[field])
  {
    if reverse then ValueLess(b.data[field], a.data[field]) else ValueLess(a.data[field], b.data[field])
  }

  ghost predicate Ordered(docs: seq<Doc>, field: string, reverse: bool)
    requires Orderable(docs, field)
  {
    forall i, j :: 0 <= i < j < |docs| ==> !Before(docs[j], docs[i], field, reverse)
  }

  /** What From and Limit leave of a list: an offset at or past its end is ignored. */
  function PageOf(docs: seq<Doc>, from: int, limit: int): seq<Doc> {
    var rest := if 0 < from < |docs| then docs[from..] else docs;
    if 0 < limit < |rest| then rest[..limit] else rest
  }

  lemma ValueLessTransitive(a: Value, b: Value, c: Value)
    requires Comparable(a, b) && Comparable(b, c)
    ensures Comparable(a, c)
    ensures !ValueLess(b, a) && !ValueLess(c, b) ==> !ValueLess(c, a)
    ensures ValueLess(a, b) && ValueLess(b, c) ==> ValueLess(a, c)
    ensures !ValueLess(a, a)
    ensures ValueLess(a, b) || a == b || ValueLess(b, a)
  {
    if a.Str? {
      LessIrreflexive(a.s);
      LessTotal(a.s, b.s);
      LessTotal(b.s, c.s);
      if Less(a.s, b.s) && Less(b.s, c.s) {
        LessTransitive(a.s, b.s, c.s);
      }
      if Less(c.s, a.s) && Less(a.s, b.s) {
        LessTransitive(c.s, a.s, b.s);
      }
      if Less(b.s, c.s) && Less(c.s, a.s) {
        LessTransitive(b.s, c.s, a.s);
      }
    }
  }

  ghost predicate DistinctValues(docs: seq<Doc>, field: string)
    requires Orderable(docs, field)
  {
    forall i, j :: 0 <= i < j < |docs| ==> docs[i].data[field] != docs[j].data[field]
  }

  lemma HeadsAgree(a: seq<Doc>, b: seq<Doc>, field: string, reverse: bool)
    requires Orderable(a, field) && Orderable(b, field) && a != [] && b != []
    requires Ordered(a, field, reverse) && Ordered(b, field, reverse)
    requires DistinctValues(a, field) && DistinctValues(b, field)
    requires a[0] in b && b[0] in a
    ensures a[0] == b[0]
  {
    var i :| 0 <= i < |b| && b[i] == a[0];
    var j :| 0 <= j < |a| && a[j] == b[0];
    if i > 0 && j > 0 {
      ValueLessTransitive(a[0].data[field], b[0].data[field], a[0].data[field]);
    }
  }

  lemma TailOrder(a: seq<Doc>, field: string, reverse: bool)
    requires Orderable(a, field) && Ordered(a, field, reverse) && DistinctValues(a, field) && a != []
    ensures Orderable(a[1..], field) && Ordered(a[1..], field, reverse) && DistinctValues(a[1..], field)
  {
  }

  lemma TailPerm<T>(a: seq<T>, b: seq<T>)
    requires multiset(a) == multiset(b) && a != [] && b != [] && a[0] == b[0]
    ensures multiset(a[1..]) == multiset(b[1..])
  {
    assert a == [a[0]] + a[1..] && b == [b[0]] + b[1..];
    assert multiset(a[1..]) == multiset(a) - multiset{a[0]};
    assert multiset(b[1..]) == multiset(b) - multiset{b[0]};
  }

  /** Two orders of the same documents agree when sort values are pairwise distinct. */
  lemma {:induction false} OneOrder(a: seq<Doc>, b: seq<Doc>, field: string, reverse: bool)
    requires Orderable(a, field) && Orderable(b, field) && multiset(a) == multiset(b)
    requires Ordered(a, field, reverse) && Ordered(b, field, reverse)
    requires DistinctValues(a, field) && DistinctValues(b, field)
    ensures a == b
  {
    assert |multiset(a)| == |multiset(b)|;
    if a != [] {
      hide *;
      PermMember(a, b, a[0]);
      PermMember(a, b, b[0]);
      HeadsAgree(a, b, field, reverse);
      TailOrder(a, field, reverse);
      TailOrder(b, field, reverse);
      TailPerm(a, b);
      OneOrder(a[1..], b[1..], field, reverse);
      assert a == [a[0]] + a[1..] && b == [b[0]] + b[1..];
    }
  }

  // ---------------------------------------------------------------- the query

  class MemFilter {
    var filters: seq<Filter>

    constructor ()
      ensures filters == []
    {
      filters := [];
    }

    method AddExact(field: string, value: Value)
      modifies this
      ensures filters == old(filters) + [Filter(field, value, "")]
    {
      filters := filters + [Filter(field, value, "")];
    }

    method AddRegex(field: string, value: string)
      modifies this
      ensures filters == old(filters) + [Filter(field, Nil, value)]
    {
      filters := filters + [Filter(field, Nil, value)];
    }
  }

  const AND := 1
  const OR := 2

  ghost function MatchedOf(filters: Option<seq<Filter>>, docs: seq<Doc>, matches: (string, string) -> bool): seq<Doc> {
    if filters.None? then docs else FlatMap(KeepFn(filters.value, matches), docs)
  }

  /** `all` is the documents that have the sort field, in some order by it. */
  ghost predicate IsOrdering(all: seq<Doc>, docs: seq<Doc>, order: string) {
    var (field, reverse) := SortField(order);
    multiset(all) == multiset(FlatMap(HasFn(field), docs)) && Orderable(all, field) && Ordered(all, field, reverse)
  }

  /** The documents a query works on are a slice of an array it owns. */
  class MemQuery {
    var arr: array<Doc>
    var off: nat
    var len: nat
    var filter: MemFilter?
    var filterType: int
    var from: int
    var limit: int
    var order: string

    constructor (found: seq<Doc>)
      ensures fresh(arr) && arr[..] == found && off == 0 && len == |found| == arr.Length
      ensures filter == null && filterType == 0 && from == 0 && limit == 0 && order == ""
    {
      arr := new Doc[|found|](i requires 0 <= i < |found| => found[i]);
      off, len, filter, filterType, from, limit, order := 0, |found|, null, 0, 0, 0, "";
    }

    method NewAndFilter() returns (f: MemFilter)
      modifies this`filter, this`filterType
      ensures fresh(f) && filter == f && f.filters == [] && filterType == AND
    {
      f := new MemFilter();
      filter, filterType := f, AND;
    }

    method NewOrFilter() returns (f: MemFilter)
      modifies this`filter, this`filterType
      ensures fresh(f) && filter == f && f.filters == [] && filterType == OR
    {
      f := new MemFilter();
      filter, filterType := f, OR;
    }

    ghost function Clauses(): Option<seq<Filter>>
      reads this, filter
    {
      if filter == null then None else Some(filter.filters)
    }

    ghost predicate Safe(matches: (string, string) -> bool)
      requires Valid()
      reads this, arr, filter
    {
      filter != null ==> RegexSafe(filter.filters, Docs(), matches)
    }

    /** An invalid filter is noticed only when some document is put to it. */
    ghost predicate FilterFails(matches: (string, string) -> bool)
      requires Valid()
      reads this, arr, filter
    {
      filter != null && ((filterType != AND && filterType != OR) || !AllValid(filter.filters, Docs(), matches))
    }

    ghost function Matched(matches: (string, string) -> bool): seq<Doc>
      requires Valid()
      reads this, arr, filter
    {
      MatchedOf(Clauses(), Docs(), matches)
    }

    ghost predicate Valid()
      reads this
    {
      off + len <= arr.Length
    }

    function Docs(): (s: seq<Doc>)
      requires Valid()
      reads this, arr
      ensures |s| == len
    {
      arr[off..off + len]
    }

    /** The inner loop of runOrFilter and of runAndFilter. */
    static method Decide(filters: seq<Filter>, d: Doc, matches: (string, string) -> bool) returns (v: Verdict)
      ensures v == Judge(filters, d, matches)
    {
      var i := 0;
      while i < |filters|
        invariant i <= |filters| && Judge(filters[i..], d, matches) == Judge(filters, d, matches)
      {
        assert filters[i..][1..] == filters[i + 1..];
        if filters[i].field == "" {
          return Invalid;
        }
        if Accepts(filters[i], d, matches) {
          return Keep;
        }
        i := i + 1;
      }
      v := Drop;
    }

    /** filtered = append(filtered, doc), with filtered starting at the slice itself. */
    method Put(k: nat, d: Doc)
      requires Valid() && k < len
      modifies arr
      ensures Docs() == old(Docs())[k := d]
    {
      arr[off + k] := d;
    }

    method At(i: nat) returns (d: Doc)
      requires Valid() && i < len
      ensures d == Docs()[i]
    {
      d := arr[off + i];
    }

    /** Reslicing to the first k documents. */
    method Take(k: nat)
      requires Valid() && k <= len
      modifies this`len
      ensures Valid() && len == k && Docs() == old(Docs())[..k]
    {
      len := k;
    }

    /** runOrFilter and runAndFilter compact into the slice they are reading. */
    method Compact(filters: seq<Filter>, matches: (string, string) -> bool) returns (ok: bool)
      requires Valid() && RegexSafe(filters, Docs(), matches)
      modifies this`len, arr
      ensures Valid() && ok == AllValid(filters, old(Docs()), matches)
      ensures ok ==> Docs() == FlatMap(KeepFn(filters, matches), old(Docs()))
    {
      hide Docs, Compacting, FlatMap, Judge;
      ghost var docs := Docs();
      ghost var f := KeepFn(filters, matches);
      var k := 0;
      var i := 0;
      CompactingStart(f, docs);
      while i < len
        invariant k <= i <= len == |docs| && Valid()
        invariant Compacting(f, docs, Docs(), k, i)
        invariant forall j :: 0 <= j < i ==> Judge(filters, docs[j], matches) != Invalid
      {
        CompactingStep(f, docs, Docs(), k, i);
        var d := At(i);
        var v := Decide(filters, d, matches);
        if v == Invalid {
          assert docs[i] in docs;
          return false;
        }
        if v == Keep {
          Put(k, d);
          k := k + 1;
        }
        i := i + 1;
      }
      CompactingEnd(f, docs, Docs(), k);
      Take(k);
      ok := true;
    }

    method RunFilter(matches: (string, string) -> bool) returns (ok: bool)
      requires Valid() && filter != null && Safe(matches)
      modifies this`len, arr
      ensures Valid() && ok == !old(FilterFails(matches))
      ensures ok ==> Docs() == old(Matched(matches))
    {
      if filterType == AND {
        ok := Compact(filter.filters, matches);
      } else if filterType == OR {
        ok := Compact(filter.filters, matches);
      } else {
        ok := false;
      }
    }

    /** The first half of bringOrder: only documents that have the field are eligible. */
    method KeepEligible(field: string)
      requires Valid()
      modifies this`len, arr
      ensures Valid() && Docs() == FlatMap(HasFn(field), old(Docs()))
    {
      hide Docs, Compacting, FlatMap;
      ghost var docs := Docs();
      ghost var f := HasFn(field);
      var k := 0;
      var i := 0;
      CompactingStart(f, docs);
      while i < len
        invariant k <= i <= len == |docs| && Valid()
        invariant Compacting(f, docs, Docs(), k, i)
      {
        CompactingStep(f, docs, Docs(), k, i);
        var d := At(i);
        if field in d.data {
          Put(k, d);
          k := k + 1;
        }
        i := i + 1;
      }
      CompactingEnd(f, docs, Docs(), k);
      Take(k);
    }

    /** Of the original documents the first i have been filtered into the first k places;
        the rest is untouched. */
    static ghost predicate Compacting(f: Doc -> seq<Doc>, docs: seq<Doc>, now: seq<Doc>, k: nat, i: nat) {
      k <= i <= |docs| == |now| && now[..k] == FlatMap(f, docs[..i]) && now[i..] == docs[i..]
    }

    static lemma CompactingStart(f: Doc -> seq<Doc>, docs: seq<Doc>)
      ensures Compacting(f, docs, docs, 0, 0)
    {
    }

    /** Since k <= i the write never overtakes the read. */
    static lemma CompactingStep(f: Doc -> seq<Doc>, docs: seq<Doc>, now: seq<Doc>, k: nat, i: nat)
      requires Compacting(f, docs, now, k, i) && i < |docs|
      ensures now[i] == docs[i]
      ensures f(docs[i]) == [] ==> Compacting(f, docs, now, k, i + 1)
      ensures f(docs[i]) == [docs[i]] ==> Compacting(f, docs, now[k := docs[i]], k + 1, i + 1)
    {
      assert now[i..][0] == docs[i..][0];
      FlatMapTake(f, docs, i + 1);
      assert now[i..][1..] == now[i + 1..] && docs[i..][1..] == docs[i + 1..];
      var put := now[k := docs[i]];
      assert put[..k + 1] == now[..k] + [docs[i]] && put[i + 1..] == now[i + 1..];
    }

    static lemma CompactingEnd(f: Doc -> seq<Doc>, docs: seq<Doc>, now: seq<Doc>, k: nat)
      requires Compacting(f, docs, now, k, |docs|)
      ensures now[..k] == FlatMap(f, docs)
    {
      assert docs[..|docs|] == docs;
    }

    /** Docs.Swap. */
    method Swap(i: nat, j: nat)
      requires Valid() && i < len && j < len
      modifies arr
      ensures Docs() == old(Docs())[i := old(Docs()[j])][j := old(Docs()[i])]
      ensures multiset(Docs()) == multiset(old(Docs()))
    {
      hide *;
      ghost var d := Docs();
      var x := At(i);
      var y := At(j);
      Put(i, y);
      Put(j, x);
      assert Docs() == d[i := d[j]][j := d[i]];
      SwapPerm(d, i, j);
    }

    /** All pairs up to n are in order but those that end at the moving document j. */
    static ghost predicate OrderedBut(docs: seq<Doc>, field: string, reverse: bool, n: nat, j: nat)
      requires Orderable(docs, field)
    {
      n < |docs| && forall a, b :: 0 <= a < b <= n && b != j ==> !Before(docs[b], docs[a], field, reverse)
    }

    /** The first n documents are in order. */
    static ghost predicate OrderedUpto(docs: seq<Doc>, field: string, reverse: bool, n: nat)
      requires Orderable(docs, field)
    {
      n <= |docs| && forall a, b :: 0 <= a < b < n ==> !Before(docs[b], docs[a], field, reverse)
    }

    static predicate CanCompare(docs: seq<Doc>, field: string, j: nat) {
      0 < j < |docs| ==>
        field in docs[j].data && field in docs[j - 1].data && Comparable(docs[j].data[field], docs[j - 1].data[field])
    }

    static predicate Smaller(docs: seq<Doc>, field: string, reverse: bool, j: nat)
      requires CanCompare(docs, field, j)
    {
      0 < j < |docs| && Before(docs[j], docs[j - 1], field, reverse)
    }

    method IsLess(j: nat, field: string, reverse: bool) returns (less: bool)
      requires Valid() && j < len && Orderable(Docs(), field)
      ensures CanCompare(Docs(), field, j) && less == Smaller(Docs(), field, reverse, j)
    {
      less := j > 0 && Before(arr[off + j], arr[off + j - 1], field, reverse);
    }

    method MoveDown(field: string, reverse: bool, ghost n: nat, j: nat)
      requires Valid() && j <= n < len && Orderable(Docs(), field) && OrderedBut(Docs(), field, reverse, n, j)
      requires CanCompare(Docs(), field, j) && Smaller(Docs(), field, reverse, j)
      modifies arr
      ensures j > 0 && multiset(Docs()) == multiset(old(Docs())) && Orderable(Docs(), field)
      ensures OrderedBut(Docs(), field, reverse, n, j - 1)
    {
      hide *;
      SwapKeeps(Docs(), field, reverse, n, j);
      Swap(j, j - 1);
    }

    method Sift(field: string, reverse: bool, n: nat)
      requires Valid() && n < len && Orderable(Docs(), field)
      requires OrderedUpto(Docs(), field, reverse, n)
      modifies arr
      ensures multiset(Docs()) == multiset(old(Docs())) && Orderable(Docs(), field)
      ensures OrderedUpto(Docs(), field, reverse, n + 1)
    {
      StartMoving(Docs(), field, reverse, n);
      hide *;
      var j: nat := n;
      var less := IsLess(j, field, reverse);
      while less
        invariant j <= n < len && Valid()
        invariant multiset(Docs()) == multiset(old(Docs())) && Orderable(Docs(), field)
        invariant OrderedBut(Docs(), field, reverse, n, j)
        invariant CanCompare(Docs(), field, j) && less == Smaller(Docs(), field, reverse, j)
        decreases j
      {
        MoveDown(field, reverse, n, j);
        j := j - 1;
        less := IsLess(j, field, reverse);
      }
      InPlace(Docs(), field, reverse, n, j);
    }

    /** sort.Sort on the slice: some order, with no promise about equal values. */
    method Sort(field: string, reverse: bool)
      requires Valid() && Orderable(Docs(), field)
      modifies arr
      ensures multiset(Docs()) == multiset(old(Docs()))
      ensures Orderable(Docs(), field) && Ordered(Docs(), field, reverse)
    {
      var n := 0;
      while n < len
        invariant n <= len && Valid()
        invariant multiset(Docs()) == multiset(old(Docs())) && Orderable(Docs(), field)
        invariant OrderedUpto(Docs(), field, reverse, n)
      {
        Sift(field, reverse, n);
        n := n + 1;
      }
    }

    method BringOrder()
      requires Valid() && Orderable(FlatMap(HasFn(SortField(order).0), Docs()), SortField(order).0)
      modifies this`len, arr
      ensures Valid() && IsOrdering(Docs(), old(Docs()), order)
    {
      hide Orderable, Ordered, FlatMap, Docs, SortField;
      var (field, reverse) := SortField(order);
      KeepEligible(field);
      Sort(field, reverse);
    }

    method Slice(a: nat, b: nat)
      requires Valid() && a <= b <= len
      modifies this`off, this`len
      ensures Valid() && Docs() == old(Docs())[a..b]
    {
      off, len := off + a, b - a;
    }

    /** From and Limit. */
    method Page()
      requires Valid()
      modifies this`off, this`len
      ensures Valid() && Docs() == PageOf(old(Docs()), from, limit)
    {
      if from > 0 && from < len {
        Slice(from, len);
      }
      if limit > 0 && len > limit {
        Slice(0, limit);
      }
    }

    /** Filter, order, page. `all` is the list that is paged. */
    method Run(matches: (string, string) -> bool) returns (docs: seq<Doc>, ok: bool, ghost all: seq<Doc>)
      requires Valid() && Safe(matches)
      requires !FilterFails(matches) && order != "" ==>
                 Orderable(FlatMap(HasFn(SortField(order).0), Matched(matches)), SortField(order).0)
      modifies this`off, this`len, arr
      ensures Valid() && ok == !old(FilterFails(matches))
      ensures ok ==> docs == Docs() == PageOf(all, from, limit)
      ensures ok ==> if order == "" then all == old(Matched(matches)) else IsOrdering(all, old(Matched(matches)), order)
    {
      hide Orderable, FlatMap, Docs, SortField, IsOrdering, PageOf;
      docs, ok, all := [], true, [];
      if filter != null {
        ok := RunFilter(matches);
        if !ok {
          return;
        }
      }
      if |order| > 0 {
        BringOrder();
      }
      all := Docs();
      Page();
      docs := Docs();
    }

    method Count(matches: (string, string) -> bool) returns (n: nat, ok: bool)
      requires Valid() && Safe(matches)
      modifies this`len, arr
      ensures Valid() && ok == !old(FilterFails(matches))
      ensures n == if ok then |old(Matched(matches))| else 0
    {
      n, ok := 0, true;
      if filter != null {
        ok := RunFilter(matches);
        if !ok {
          return;
        }
      }
      n := len;
    }
  }

  lemma SwapPerm<T>(s: seq<T>, i: nat, j: nat)
    requires i < |s| && j < |s|
    ensures |s[i := s[j]]| == |s| && multiset(s[i := s[j]][j := s[i]]) == multiset(s)
  {
  }

  lemma StartMoving(docs: seq<Doc>, field: string, reverse: bool, n: nat)
    requires Orderable(docs, field) && n < |docs| && MemQuery.OrderedUpto(docs, field, reverse, n)
    ensures MemQuery.OrderedBut(docs, field, reverse, n, n)
  {
  }

  lemma SwapKeeps(docs: seq<Doc>, field: string, reverse: bool, n: nat, j: nat)
    requires Orderable(docs, field) && j <= n < |docs| && MemQuery.OrderedBut(docs, field, reverse, n, j)
    requires MemQuery.CanCompare(docs, field, j) && MemQuery.Smaller(docs, field, reverse, j)
    ensures j > 0
    ensures var after := docs[j := docs[j - 1]][j - 1 := docs[j]];
            Orderable(after, field) && MemQuery.OrderedBut(after, field, reverse, n, j - 1)
  {
    ValueLessTransitive(docs[j].data[field], docs[j - 1].data[field], docs[j].data[field]);
  }

  lemma InPlace(docs: seq<Doc>, field: string, reverse: bool, n: nat, j: nat)
    requires Orderable(docs, field) && j <= n < |docs| && MemQuery.OrderedBut(docs, field, reverse, n, j)
    requires MemQuery.CanCompare(docs, field, j) && !MemQuery.Smaller(docs, field, reverse, j)
    ensures MemQuery.OrderedUpto(docs, field, reverse, n + 1)
  {
    forall a | 0 <= a < j
      ensures !Before(docs[j], docs[a], field, reverse)
    {
      if a < j - 1 {
        var x, y, z := docs[a].data[field], docs[j - 1].data[field], docs[j].data[field];
        ValueLessTransitive(x, y, z);
        ValueLessTransitive(z, y, x);
      }
    }
  }

  // ---------------------------------------------------------------- pages of one order

  /** The part of s from `from` on, at most `limit` long; a limit of 0 is none. */
  function Window(s: seq<Doc>, from: nat, limit: nat): seq<Doc> {
    if from >= |s| then [] else if limit == 0 || |s| - from <= limit then s[from..] else s[from..from + limit]
  }

  /** From and Limit give the window they name exactly when it starts inside the list. */
  lemma PageIsWindow(s: seq<Doc>, from: nat, limit: nat)
    ensures PageOf(s, from, limit) == Window(s, from, limit) <==> from < |s| || s == []
  {
    if 0 < from < |s| {
      assert |s| - from > limit ==> s[from..][..limit] == s[from..from + limit];
    }
  }

  function Joined(pages: seq<seq<Doc>>): seq<Doc> {
    if pages == [] then [] else Joined(pages[..|pages| - 1]) + pages[|pages| - 1]
  }

  /** Where page k starts. */
  function Offset(k: nat, limit: nat): nat {
    k * limit
  }

  lemma NextOffset(k: nat, limit: nat)
    ensures Offset(k + 1, limit) == Offset(k, limit) + limit && Offset(0, limit) == 0
  {
  }

  ghost predicate PagesOf(all: seq<Doc>, limit: nat, pages: seq<seq<Doc>>) {
    forall k :: 0 <= k < |pages| ==> Offset(k, limit) < |all| && pages[k] == PageOf(all, Offset(k, limit), limit)
  }

  lemma {:induction false} JoinedPages(all: seq<Doc>, limit: nat, pages: seq<seq<Doc>>)
    requires limit > 0 && PagesOf(all, limit, pages)
    ensures Joined(pages) == if Offset(|pages|, limit) <= |all| then all[..Offset(|pages|, limit)] else all
  {
    hide PageOf, Offset;
    if pages == [] {
      NextOffset(0, limit);
    } else {
      var n := |pages| - 1;
      JoinedPages(all, limit, pages[..n]);
      var from := Offset(n, limit);
      NextOffset(n, limit);
      PageIsWindow(all, from, limit);
      WindowExtends(all, from, limit);
    }
  }

  lemma WindowExtends(s: seq<Doc>, from: nat, limit: nat)
    requires from < |s| && limit > 0
    ensures s[..from] + Window(s, from, limit) == if from + limit <= |s| then s[..from + limit] else s
  {
  }

  lemma MatchedAnyOrder(filters: Option<seq<Filter>>, a: seq<Doc>, b: seq<Doc>, matches: (string, string) -> bool)
    requires multiset(a) == multiset(b)
    ensures multiset(MatchedOf(filters, a, matches)) == multiset(MatchedOf(filters, b, matches))
  {
    if filters.Some? {
      FlatMapPerm(KeepFn(filters.value, matches), a, b);
    }
  }

  /** One run of the query: the map was ranged over as `found`, `all` is the list paged. */
  datatype Ranging = Ranging(found: seq<Doc>, all: seq<Doc>)

  ghost predicate RunsOf(rs: seq<Ranging>, kept: set<Doc>, filters: Option<seq<Filter>>, order: string,
                         matches: (string, string) -> bool) {
    forall k :: 0 <= k < |rs| ==>
      NoDuplicates(rs[k].found) && (forall d :: d in rs[k].found <==> d in kept) &&
      IsOrdering(rs[k].all, MatchedOf(filters, rs[k].found, matches), order)
  }

  ghost predicate DistinctSort(all: seq<Doc>, order: string) {
    Orderable(all, SortField(order).0) && DistinctValues(all, SortField(order).0)
  }

  lemma DistinctPerm(a: seq<Doc>, b: seq<Doc>, field: string)
    requires Orderable(a, field) && Orderable(b, field) && multiset(a) == multiset(b) && DistinctValues(a, field)
    ensures DistinctValues(b, field)
  {
    assert NoDuplicates(a);
    PermKeepsDistinct(a, b);
    forall i, j | 0 <= i < j < |b|
      ensures b[i].data[field] != b[j].data[field]
    {
      PermMember(a, b, b[i]);
      PermMember(a, b, b[j]);
      var i' :| 0 <= i' < |a| && a[i'] == b[i];
      var j' :| 0 <= j' < |a| && a[j'] == b[j];
      assert i' != j';
      assert i' < j' || j' < i';
    }
  }

  lemma CountTwice<T>(s: seq<T>, i: nat, j: nat)
    requires i < j < |s|
    ensures s[i] == s[j] ==> multiset(s)[s[i]] >= 2
  {
    assert s == s[..i] + [s[i]] + s[i + 1..];
    assert s[i + 1..][j - i - 1] == s[j];
    assert s[j] in multiset(s[i + 1..]);
  }

  lemma PermKeepsDistinct<T>(a: seq<T>, b: seq<T>)
    requires NoDuplicates(a) && multiset(a) == multiset(b)
    ensures NoDuplicates(b)
  {
    forall i, j | 0 <= i < j < |b|
      ensures b[i] != b[j]
    {
      CountDistinct(a, b[i]);
      CountTwice(b, i, j);
    }
  }

  /** When the sort values of the matching documents are pairwise distinct, every run orders
      them in the same way, whatever order the map was ranged over. */
  lemma RunsAgree(x: Ranging, y: Ranging, kept: set<Doc>, filters: Option<seq<Filter>>, order: string,
                  matches: (string, string) -> bool)
    requires RunsOf([x, y], kept, filters, order, matches) && DistinctSort(x.all, order)
    ensures x.all == y.all
  {
    assert DistinctValues(x.all, SortField(order).0);
    hide *;
    var (field, reverse) := SortField(order);
    BothRuns(x, y, kept, filters, order, matches);
    SameMembers(x.found, y.found);
    MatchedAnyOrder(filters, x.found, y.found, matches);
    FlatMapPerm(HasFn(field), MatchedOf(filters, x.found, matches), MatchedOf(filters, y.found, matches));
    OrderingIs(x.all, MatchedOf(filters, x.found, matches), order);
    OrderingIs(y.all, MatchedOf(filters, y.found, matches), order);
    DistinctPerm(x.all, y.all, field);
    OneOrder(x.all, y.all, field, reverse);
  }

  lemma BothRuns(x: Ranging, y: Ranging, kept: set<Doc>, filters: Option<seq<Filter>>, order: string,
                 matches: (string, string) -> bool)
    requires RunsOf([x, y], kept, filters, order, matches)
    ensures NoDuplicates(x.found) && NoDuplicates(y.found)
    ensures forall d :: d in x.found <==> d in y.found
    ensures IsOrdering(x.all, MatchedOf(filters, x.found, matches), order)
    ensures IsOrdering(y.all, MatchedOf(filters, y.found, matches), order)
  {
    hide NoDuplicates, IsOrdering, MatchedOf;
    assert [x, y][0] == x && [x, y][1] == y;
  }

  lemma OrderingIs(all: seq<Doc>, docs: seq<Doc>, order: string)
    requires IsOrdering(all, docs, order)
    ensures var (field, reverse) := SortField(order);
            multiset(all) == multiset(FlatMap(HasFn(field), docs)) && Orderable(all, field) && Ordered(all, field, reverse)
  {
  }

  /** Pages tile: run the query once per page, each time with the map in another order. If
      the sort values are pairwise distinct, the pages From(k * limit).Limit(limit) that
      start inside the result, put together, are the whole sorted list. */
  lemma PagesTile(rs: seq<Ranging>, kept: set<Doc>, filters: Option<seq<Filter>>, order: string,
                  matches: (string, string) -> bool, limit: nat, pages: seq<seq<Doc>>)
    requires rs != [] && RunsOf(rs, kept, filters, order, matches) && DistinctSort(rs[0].all, order)
    requires limit > 0 && |pages| == |rs|
    requires forall k :: 0 <= k < |rs| ==>
               Offset(k, limit) < |rs[k].all| && pages[k] == PageOf(rs[k].all, Offset(k, limit), limit)
    requires |rs[0].all| <= Offset(|rs|, limit)
    ensures Joined(pages) == rs[0].all
  {
    hide PageOf, Offset, Joined, IsOrdering, DistinctSort, NoDuplicates, MatchedOf;
    forall k | 0 <= k < |rs|
      ensures rs[k].all == rs[0].all
    {
      RunsAgree(rs[0], rs[k], kept, filters, order, matches);
    }
    JoinedPages(rs[0].all, limit, pages);
    assert rs[0].all[..|rs[0].all|] == rs[0].all;
  }
}
