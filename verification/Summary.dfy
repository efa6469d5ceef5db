/** ToMap: a result as a JSON object, with aggregates that look only at the newest and the
    oldest version of each column (store/query.go:305-345). */
module Summary {
  import opened Seqs
  import opened Types
  import opened QueryModel
  import opened QueryRun
  import opened Versioning

  datatype Json = Text(s: string) | Number(n: int) | Raw(value: string) | Objects(items: seq<Obj>)

  datatype Obj = Obj(fields: map<string, Json>)

  const NANOS_PER_MILLI := 1000000

  /** Go's integer division, which truncates toward zero. */
  function Millis(nanos: int): (ms: int)
    ensures nanos >= 0 ==> ms * 1000000 <= nanos < (ms + 1) * 1000000
    ensures nanos <= 0 ==> (ms - 1) * 1000000 < nanos <= ms * 1000000
  {
    if nanos >= 0 then nanos / NANOS_PER_MILLI else -((-nanos) / NANOS_PER_MILLI)
  }

  const RESERVED: set<string> := {"id", "kind", "modifier", "creator", "creation_ms", "modification_ms"}

  function KindFn(kind: string): Result -> seq<Result> {
    (r: Result) => if r.kind == kind then [r] else []
  }

  /** The children of one kind, in order. */
  function OfKind(kids: seq<Result>, kind: string): seq<Result> {
    FlatMap(KindFn(kind), kids)
  }

  function Kinds(kids: seq<Result>): set<string> {
    set k | k in kids :: k.kind
  }

  /** What doRun delivers: no column is empty and each is in time order. */
  ghost predicate Proper(cols: map<string, seq<Object>>) {
    forall p :: p in cols ==> cols[p] != [] && Ascending(cols[p])
  }

  /** Names of columns, kinds of children and the names ToMap adds do not meet. */
  ghost predicate Clean(r: Result)
    decreases r
  {
    && Proper(r.cols)
    && r.cols.Keys !! Kinds(r.kids)
    && RESERVED !! r.cols.Keys && RESERVED !! Kinds(r.kids)
    && forall i :: 0 <= i < |r.kids| ==> Clean(r.kids[i])
  }

  // ---------------------------------------------------------------- the specification

  ghost predicate Held(cols: map<string, seq<Object>>, o: Object) {
    exists p :: p in cols && o in cols[p]
  }

  /** o is a newest version of all. */
  ghost predicate Newest(cols: map<string, seq<Object>>, o: Object) {
    Held(cols, o) && forall x :: Held(cols, x) ==> x.nanoTs <= o.nanoTs
  }

  ghost predicate OldestOne(cols: map<string, seq<Object>>, o: Object) {
    Held(cols, o) && forall x :: Held(cols, x) ==> o.nanoTs <= x.nanoTs
  }

  /** The modifier signed a newest version over all columns, provided any is later than the
      epoch. */
  ghost predicate Modified(fields: map<string, Json>, cols: map<string, seq<Object>>) {
    && "modification_ms" in fields
    && ("modifier" in fields <==> exists o :: Held(cols, o) && o.nanoTs > 0)
    && ("modifier" in fields ==>
          exists o :: Newest(cols, o) && fields["modifier"] == Text(o.source) &&
                      fields["modification_ms"] == Number(Millis(o.nanoTs)))
    && ("modifier" !in fields ==> fields["modification_ms"] == Number(0))
  }

  /** The creator signed an oldest version over all columns, provided any is before now. */
  ghost predicate Created(fields: map<string, Json>, cols: map<string, seq<Object>>, now: int) {
    && "creation_ms" in fields
    && ("creator" in fields <==> exists o :: Held(cols, o) && o.nanoTs < now)
    && ("creator" in fields ==>
          exists o :: OldestOne(cols, o) && fields["creator"] == Text(o.source) &&
                      fields["creation_ms"] == Number(Millis(o.nanoTs)))
    && ("creator" !in fields ==> fields["creation_ms"] == Number(Millis(now)))
  }

  /** The fields that are not lists of children. */
  ghost predicate Own(fields: map<string, Json>, r: Result, now: int) {
    && "id" in fields && fields["id"] == Text(r.id)
    && "kind" in fields && fields["kind"] == Text(r.kind)
    && (forall p :: p in r.cols ==> p in fields && fields[p] == Raw(LatestOf(r.cols[p]).value))
    && Modified(fields, r.cols)
    && Created(fields, r.cols, now)
  }

  /** The same, with the clock read at `floor` or later. */
  ghost predicate OwnSince(fields: map<string, Json>, r: Result, floor: int) {
    exists now :: floor <= now && Own(fields, r, now)
  }

  /** The object shows the result: its own fields, and for each kind the list of all
      children of that kind, in their order; nothing else. Every node reads the clock for
      itself, at `floor` or later. */
  ghost predicate Shows(o: Obj, r: Result, floor: int)
    decreases r, 0
  {
    && OwnSince(o.fields, r, floor)
    && (forall kind :: kind in Kinds(r.kids) ==>
          kind in o.fields && o.fields[kind].Objects? && ShowsAll(o.fields[kind].items, r.kids, kind, floor))
    && (forall name :: name in o.fields ==> name in RESERVED || name in r.cols || name in Kinds(r.kids))
  }

  ghost predicate ShowsAll(items: seq<Obj>, kids: seq<Result>, kind: string, floor: int)
    decreases kids, 1
  {
    if kids == [] then items == []
    else
      var n := |kids| - 1;
      if kids[n].kind != kind then ShowsAll(items, kids[..n], kind, floor)
      else
        items != [] && ShowsAll(items[..|items| - 1], kids[..n], kind, floor) &&
        Shows(items[|items| - 1], kids[n], floor)
  }

  ghost predicate CreatorIsOldest(fields: map<string, Json>, cols: map<string, seq<Object>>) {
    "creator" in fields && "creation_ms" in fields &&
    exists x :: OldestOne(cols, x) && fields["creator"] == Text(x.source) &&
                fields["creation_ms"] == Number(Millis(x.nanoTs))
  }

  ghost predicate AllBefore(cols: map<string, seq<Object>>, time: int) {
    forall x :: Held(cols, x) ==> x.nanoTs < time
  }

  /** When every version of a node is older than the call of ToMap, the creator is that of an
      oldest version and creation_ms its time, whatever the clock then says. */
  lemma CreatorShown(fields: map<string, Json>, r: Result, floor: int)
    ensures OwnSince(fields, r, floor) && r.cols != map[] && Proper(r.cols) && AllBefore(r.cols, floor) ==>
              CreatorIsOldest(fields, r.cols)
  {
    if OwnSince(fields, r, floor) && r.cols != map[] && Proper(r.cols) && AllBefore(r.cols, floor) {
      var now :| floor <= now && Own(fields, r, now);
      var p :| p in r.cols;
      assert Held(r.cols, r.cols[p][0]);
      assert Created(fields, r.cols, now);
    }
  }

  // ---------------------------------------------------------------- the loop over columns

  /** The source in `data["modifier"]` and the timestamp beside it, after some columns. */
  ghost predicate NewestUpto(cols: map<string, seq<Object>>, m: Option<Object>, latest: int) {
    match m
    case None => latest == 0 && forall x :: Held(cols, x) ==> x.nanoTs <= 0
    case Some(o) => Newest(cols, o) && latest == o.nanoTs > 0
  }

  ghost predicate OldestUpto(cols: map<string, seq<Object>>, c: Option<Object>, oldest: int, now: int) {
    match c
    case None => oldest == now && forall x :: Held(cols, x) ==> now <= x.nanoTs
    case Some(o) => OldestOne(cols, o) && oldest == o.nanoTs < now
  }

  ghost predicate Signed(data: map<string, Json>, name: string, o: Option<Object>) {
    match o
    case None => name !in data
    case Some(x) => name in data && data[name] == Text(x.source)
  }

  /** Everything in data after the columns `cols` have been handled. */
  ghost predicate Handled(data: map<string, Json>, r: Result, cols: map<string, seq<Object>>,
                          m: Option<Object>, c: Option<Object>) {
    && "id" in data && data["id"] == Text(r.id)
    && "kind" in data && data["kind"] == Text(r.kind)
    && (forall p :: p in cols ==> p in data && data[p] == Raw(LatestOf(cols[p]).value))
    && Signed(data, "modifier", m)
    && Signed(data, "creator", c)
    && (forall name :: name in data ==> name in RESERVED || name in cols)
  }

  lemma HeldStep(cols: map<string, seq<Object>>, p: string, vs: seq<Object>)
    requires p !in cols
    ensures forall x :: Held(cols[p := vs], x) <==> Held(cols, x) || x in vs
  {
    forall x
      ensures Held(cols[p := vs], x) <==> Held(cols, x) || x in vs
    {
      var more := cols[p := vs];
      if Held(cols, x) {
        var q :| q in cols && x in cols[q];
        assert q in more && x in more[q];
      }
      if x in vs {
        assert p in more && x in more[p];
      }
    }
  }

  lemma NewestStep(cols: map<string, seq<Object>>, p: string, vs: seq<Object>, m: Option<Object>, latest: int)
    requires p !in cols && vs != [] && Ascending(vs) && NewestUpto(cols, m, latest)
    ensures var o := LatestOf(vs);
            if o.nanoTs > latest then NewestUpto(cols[p := vs], Some(o), o.nanoTs) else NewestUpto(cols[p := vs], m, latest)
  {
    hide Held;
    HeldStep(cols, p, vs);
    assert LatestOf(vs) in vs;
  }

  lemma OldestStep(cols: map<string, seq<Object>>, p: string, vs: seq<Object>, c: Option<Object>, oldest: int, now: int)
    requires p !in cols && vs != [] && Ascending(vs) && OldestUpto(cols, c, oldest, now)
    ensures var o := OldestOf(vs);
            if o.nanoTs < oldest then OldestUpto(cols[p := vs], Some(o), o.nanoTs, now)
            else OldestUpto(cols[p := vs], c, oldest, now)
  {
    hide Held;
    HeldStep(cols, p, vs);
    assert OldestOf(vs) in vs;
  }

  /** One column. Its name may not be one of those that ToMap itself writes. */
  method AddColumn(data: map<string, Json>, pred: string, vs: seq<Object>, latest: int, oldest: int, ghost r: Result,
                   ghost cols: map<string, seq<Object>>, ghost m: Option<Object>, ghost c: Option<Object>, ghost now: int)
      returns (data': map<string, Json>, latest': int, oldest': int, ghost m': Option<Object>, ghost c': Option<Object>)
    ensures pred !in cols && pred !in RESERVED && vs != [] && Ascending(vs) &&
            Handled(data, r, cols, m, c) && NewestUpto(cols, m, latest) && OldestUpto(cols, c, oldest, now) ==>
              Handled(data', r, cols[pred := vs], m', c') && NewestUpto(cols[pred := vs], m', latest') &&
              OldestUpto(cols[pred := vs], c', oldest', now)
  {
    hide NewestUpto, OldestUpto;
    data' := data[pred := Raw(LatestOf(vs).value)];
    latest', oldest', m', c' := latest, oldest, m, c;
    if LatestOf(vs).nanoTs > latest {
      latest', m' := LatestOf(vs).nanoTs, Some(LatestOf(vs));
      data' := data'["modifier" := Text(LatestOf(vs).source)];
    }
    if OldestOf(vs).nanoTs < oldest {
      oldest', c' := OldestOf(vs).nanoTs, Some(OldestOf(vs));
      data' := data'["creator" := Text(OldestOf(vs).source)];
    }
    if pred !in cols && vs != [] && Ascending(vs) && NewestUpto(cols, m, latest) && OldestUpto(cols, c, oldest, now) {
      NewestStep(cols, pred, vs, m, latest);
      OldestStep(cols, pred, vs, c, oldest, now);
    }
  }

  lemma OneMoreColumn(cols: map<string, seq<Object>>, rest: set<string>, p: string)
    requires p in rest && rest <= cols.Keys
    ensures cols - (rest - {p}) == (cols - rest)[p := cols[p]] && p !in cols - rest
  {
  }

  lemma ColumnParts(cols: map<string, seq<Object>>, p: string)
    requires p in cols
    ensures Proper(cols) ==> cols[p] != [] && Ascending(cols[p])
    ensures RESERVED !! cols.Keys ==> p !in RESERVED
  {
  }

  lemma NothingHandled(r: Result, now: int)
    ensures Handled(map["id" := Text(r.id), "kind" := Text(r.kind)], r, map[], None, None)
    ensures NewestUpto(map[], None, 0) && OldestUpto(map[], None, now, now)
  {
  }

  lemma OwnFromHandled(data: map<string, Json>, r: Result, m: Option<Object>, c: Option<Object>,
                       latest: int, oldest: int, now: int)
    requires Handled(data, r, r.cols, m, c) && RESERVED !! r.cols.Keys
    requires NewestUpto(r.cols, m, latest) && OldestUpto(r.cols, c, oldest, now)
    ensures var fields := data["creation_ms" := Number(Millis(oldest))]["modification_ms" := Number(Millis(latest))];
            Own(fields, r, now) && forall name :: name in fields ==> name in RESERVED || name in r.cols
  {
    var fields := data["creation_ms" := Number(Millis(oldest))]["modification_ms" := Number(Millis(latest))];
    MillisPut(data, Number(Millis(oldest)), Number(Millis(latest)));
    hide Millis, NewestUpto, OldestUpto;
    IsModified(fields, r.cols, m, latest);
    IsCreated(fields, r.cols, c, oldest, now);
    hide Modified, Created, Signed;
    forall p | p in r.cols
      ensures p in fields && fields[p] == data[p]
    {
      assert p !in RESERVED;
    }
  }

  /** Two more fields leave the others alone. */
  lemma MillisPut(data: map<string, Json>, x: Json, y: Json)
    ensures var fields := data["creation_ms" := x]["modification_ms" := y];
            && "creation_ms" in fields && fields["creation_ms"] == x
            && "modification_ms" in fields && fields["modification_ms"] == y
            && (forall name :: name in fields <==> name in data || name == "creation_ms" || name == "modification_ms")
            && (forall name :: name in data && name != "creation_ms" && name != "modification_ms" ==>
                  fields[name] == data[name])
  {
  }

  lemma IsModified(fields: map<string, Json>, cols: map<string, seq<Object>>, m: Option<Object>, latest: int)
    requires NewestUpto(cols, m, latest) && Signed(fields, "modifier", m)
    requires "modification_ms" in fields && fields["modification_ms"] == Number(Millis(latest))
    ensures Modified(fields, cols)
  {
    hide Held;
  }

  lemma IsCreated(fields: map<string, Json>, cols: map<string, seq<Object>>, c: Option<Object>, oldest: int, now: int)
    requires OldestUpto(cols, c, oldest, now) && Signed(fields, "creator", c)
    requires "creation_ms" in fields && fields["creation_ms"] == Number(Millis(oldest))
    ensures Created(fields, cols, now)
  {
    hide Held;
  }

  /** ToMap up to the children. */
  method OwnFields(r: Result, now: int) returns (data: map<string, Json>)
    ensures Proper(r.cols) && RESERVED !! r.cols.Keys ==>
              Own(data, r, now) && forall name :: name in data ==> name in RESERVED || name in r.cols
  {
    hide *;
    data := map["id" := Text(r.id), "kind" := Text(r.kind)];
    var latest, oldest := 0, now;
    ghost var m: Option<Object>, c: Option<Object> := None, None;
    ghost var good := Proper(r.cols) && RESERVED !! r.cols.Keys;
    var rest := r.cols.Keys;
    NothingHandled(r, now);
    assert r.cols - rest == map[];
    while rest != {}
      invariant rest <= r.cols.Keys
      invariant good ==> Handled(data, r, r.cols - rest, m, c)
      invariant good ==> NewestUpto(r.cols - rest, m, latest) && OldestUpto(r.cols - rest, c, oldest, now)
      decreases rest
    {
      var pred :| pred in rest;
      ghost var seen := r.cols - rest;
      OneMoreColumn(r.cols, rest, pred);
      ColumnParts(r.cols, pred);
      data, latest, oldest, m, c := AddColumn(data, pred, r.cols[pred], latest, oldest, r, seen, m, c, now);
      rest := rest - {pred};
    }
    assert r.cols - {} == r.cols;
    if good {
      OwnFromHandled(data, r, m, c, latest, oldest, now);
    }
    data := data["creation_ms" := Number(Millis(oldest))];
    data := data["modification_ms" := Number(Millis(latest))];
  }

  // ---------------------------------------------------------------- children

  method KindsOf(kids: seq<Result>) returns (kinds: set<string>)
    ensures kinds == Kinds(kids)
  {
    kinds := {};
    var i := 0;
    while i < |kids|
      invariant i <= |kids| && kinds == Kinds(kids[..i])
    {
      assert kids[..i + 1] == kids[..i] + [kids[i]];
      kinds := kinds + {kids[i].kind};
      i := i + 1;
    }
    assert kids[..i] == kids;
  }

  lemma OwnKept(data: map<string, Json>, r: Result, now: int, kind: string, list: Json)
    requires Own(data, r, now) && kind !in RESERVED && kind !in r.cols
    ensures Own(data[kind := list], r, now)
  {
    var more := data[kind := list];
    assert forall name :: name in RESERVED ==> (name in more <==> name in data) && (name in data ==> more[name] == data[name]);
    assert Modified(more, r.cols) && Created(more, r.cols, now);
  }

  /** The lists put so far. */
  ghost predicate Listed(data: map<string, Json>, r: Result, kinds: set<string>, floor: int) {
    forall kind :: kind in kinds ==>
      kind in data && data[kind].Objects? && ShowsAll(data[kind].items, r.kids, kind, floor)
  }

  ghost predicate NamesOf(data: map<string, Json>, r: Result) {
    forall name :: name in data ==> name in RESERVED || name in r.cols || name in Kinds(r.kids)
  }

  lemma ShowsIs(data: map<string, Json>, r: Result, floor: int, now: int)
    requires floor <= now && Own(data, r, now) && Listed(data, r, Kinds(r.kids), floor) && NamesOf(data, r)
    ensures Shows(Obj(data), r, floor)
  {
    hide Own, ShowsAll;
  }

  /** Readings of the clock from the given one on are at `floor` or later. */
  ghost predicate NotBefore(clock: nat -> int, tick: nat, floor: int) {
    forall j :: tick <= j ==> floor <= clock(j)
  }

  /** The k-th reading of the clock is clock(k); `next` is the first one not yet used. */
  method ToMap(r: Result, clock: nat -> int, tick: nat, ghost floor: int) returns (o: Obj, next: nat)
    requires NotBefore(clock, tick, floor)
    ensures tick < next
    ensures Clean(r) ==> Shows(o, r, floor) && Own(o.fields, r, clock(tick))
    decreases r, 2
  {
    assert floor <= clock(tick);
    var data := OwnFields(r, clock(tick));
    next := tick + 1;
    var left := KindsOf(r.kids);
    if Clean(r) {
      CleanParts(r);
    }
    hide *;
    NothingListed(data, r, floor);
    while left != {}
      invariant left <= Kinds(r.kids) && tick < next
      invariant Clean(r) ==>
                  Own(data, r, clock(tick)) && Listed(data, r, Kinds(r.kids) - left, floor) && NamesOf(data, r)
      decreases left
    {
      var kind :| kind in left;
      LaterReadings(clock, tick, next, floor);
      var l;
      l, next := ListOf(r.kids, kind, clock, next, floor);
      if Clean(r) {
        OwnKept(data, r, clock(tick), kind, Objects(l));
        ListedMore(data, r, Kinds(r.kids) - left, kind, l, floor);
      }
      data := data[kind := Objects(l)];
      assert Kinds(r.kids) - (left - {kind}) == Kinds(r.kids) - left + {kind};
      left := left - {kind};
    }
    assert Kinds(r.kids) - {} == Kinds(r.kids);
    o := Obj(data);
    if Clean(r) {
      ShowsIs(data, r, floor, clock(tick));
    }
  }

  lemma LaterReadings(clock: nat -> int, tick: nat, next: nat, floor: int)
    requires NotBefore(clock, tick, floor) && tick <= next
    ensures NotBefore(clock, next, floor)
  {
  }

  /** One inner loop over all children. */
  method ListOf(kids: seq<Result>, kind: string, clock: nat -> int, tick: nat, ghost floor: int)
      returns (l: seq<Obj>, next: nat)
    requires NotBefore(clock, tick, floor)
    ensures tick <= next
    ensures (forall i :: 0 <= i < |kids| ==> Clean(kids[i])) ==> ShowsAll(l, kids, kind, floor)
    decreases kids, 1
  {
    hide Clean, Shows;
    l, next := [], tick;
    var i := 0;
    while i < |kids|
      invariant i <= |kids| && tick <= next
      invariant (forall j :: 0 <= j < i ==> Clean(kids[j])) ==> ShowsAll(l, kids[..i], kind, floor)
    {
      assert kids[..i + 1][..i] == kids[..i];
      if kind == kids[i].kind {
        var o;
        o, next := ToMap(kids[i], clock, next, floor);
        assert (l + [o])[..|l|] == l;
        l := l + [o];
      }
      i := i + 1;
    }
    assert kids[..i] == kids;
  }

  lemma NothingListed(data: map<string, Json>, r: Result, floor: int)
    ensures Listed(data, r, {}, floor)
    ensures (forall name :: name in data ==> name in RESERVED || name in r.cols) ==> NamesOf(data, r)
  {
  }

  lemma ListedMore(data: map<string, Json>, r: Result, done: set<string>, kind: string, l: seq<Obj>, floor: int)
    requires Listed(data, r, done, floor) && NamesOf(data, r) && kind in Kinds(r.kids)
    requires ShowsAll(l, r.kids, kind, floor)
    ensures Listed(data[kind := Objects(l)], r, done + {kind}, floor) && NamesOf(data[kind := Objects(l)], r)
  {
    hide ShowsAll;
  }

  lemma CleanParts(r: Result)
    requires Clean(r)
    ensures Proper(r.cols) && RESERVED !! r.cols.Keys && forall i :: 0 <= i < |r.kids| ==> Clean(r.kids[i])
    ensures forall kind :: kind in Kinds(r.kids) ==> kind !in RESERVED && kind !in r.cols
  {
  }

  /** The list of a kind is the children of that kind, one object each, in order. So every
      child is in exactly one list, once. */
  lemma {:induction false} ListIs(items: seq<Obj>, kids: seq<Result>, kind: string, floor: int)
    requires ShowsAll(items, kids, kind, floor)
    ensures |items| == |OfKind(kids, kind)|
    ensures forall i :: 0 <= i < |items| ==> Shows(items[i], OfKind(kids, kind)[i], floor)
  {
    hide Shows;
    if kids != [] {
      var n := |kids| - 1;
      ListIs(if kids[n].kind == kind then items[..|items| - 1] else items, kids[..n], kind, floor);
    }
  }

  /** What a run delivers is fit for ToMap, as far as columns go. */
  lemma DeliveredIsProper(log: seq<Instruction>, c: Call, m: Result)
    requires Delivers(log, c, m)
    ensures Proper(m.cols)
  {
    AnswerUnfold(log, c);
    if Answer(log, c).Some? {
      var t := Answer(log, c).value;
      var rows := RowsOf(log, c.q.id);
      CanonColumns(m, t);
      forall p | p in m.cols
        ensures m.cols[p] != [] && Ascending(m.cols[p])
      {
        ColumnIs(rows, p);
        assert |multiset(m.cols[p])| == |multiset(t.cols[p])|;
      }
    }
  }
}
