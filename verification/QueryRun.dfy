/** The goroutines of doRun as a step system (store/query.go:162-292). An activation reads
    its rows, walks them one by one starting children as it goes, takes the children's
    messages in whatever order they are offered, and offers one message itself. All
    channels are unbuffered, so a send and its receive are one step. An activation that is
    discarded after starting children leaves them blocked on its private channel. */
module QueryRun {
  import opened Seqs
  import opened Types
  import opened QueryModel

  /** Crashed is log.Fatal in Versions.add. */
  datatype Phase = Ready | Scanning | Sending(msg: Result) | Sent(msg: Result) | Crashed

  datatype Act = Act(
    call: Call,
    phase: Phase,
    rows: seq<Instruction>,
    pos: nat,
    cols: map<string, seq<Object>>,
    started: seq<Act>,
    received: nat,
    results: seq<Result>,
    sends: nat)

  function Start(c: Call): Act {
    Act(c, Ready, [], 0, map[], [], 0, [], 0)
  }

  /** Within(j, e) is a step of the j-th started child, which goes on even when its parent
      has already answered. */
  datatype Event =
    | Fetch(fetched: seq<Instruction>)
    | ScanRow
    | Receive(j: nat)
    | Finish
    | Within(child: nat, e: Event)

  ghost predicate Enabled(log: seq<Instruction>, a: Act, ev: Event)
    decreases ev
  {
    match ev
    case Fetch(rows) => a.phase.Ready? && IsFetch(log, a.call.q.id, rows)
    case ScanRow => a.phase.Scanning? && a.pos < |a.rows|
    case Receive(j) =>
      a.phase.Scanning? && a.pos == |a.rows| && a.received < |a.started| &&
      j < |a.started| && a.started[j].phase.Sending?
    case Finish => a.phase.Scanning? && 0 < a.pos == |a.rows| && a.received >= |a.started|
    case Within(j, e) => j < |a.started| && Enabled(log, a.started[j], e)
  }

  /** Versions.add dies when the new version is older than the last one. */
  predicate AddIsFatal(cols: map<string, seq<Object>>, p: string, o: Object) {
    p in cols && cols[p] != [] && cols[p][|cols[p]| - 1].nanoTs > o.nanoTs
  }

  function AddVersion(cols: map<string, seq<Object>>, p: string, o: Object): map<string, seq<Object>> {
    cols[p := (if p in cols then cols[p] else []) + [o]]
  }

  /** One turn of the loop over rows. */
  function Scan(a: Act): Act
    requires a.pos < |a.rows|
  {
    var r := a.rows[a.pos];
    if Discards(a.call.q, r) then
      a.(phase := Sending(EMPTY))
    else if r.pred == PARENT then
      a.(pos := a.pos + 1)
    else if r.objectId == "" then
      if AddIsFatal(a.cols, r.pred, ObjectOf(r)) then a.(phase := Crashed)
      else a.(pos := a.pos + 1, cols := AddVersion(a.cols, r.pred, ObjectOf(r)))
    else match SpawnOf(a.call, r)
      case Some(c) => a.(pos := a.pos + 1, started := a.started + [Start(c)])
      case None => a.(pos := a.pos + 1)
  }

  /** A received message is kept when it names an entity. */
  function Keep(results: seq<Result>, m: Result): seq<Result> {
    if m.id != "" && m.kind != "" then results + [m] else results
  }

  /** The message leaves the sender. */
  function Take(a: Act): Act
    requires a.phase.Sending?
  {
    a.(phase := Sent(a.phase.msg), sends := a.sends + 1)
  }

  function Apply(log: seq<Instruction>, a: Act, ev: Event): Act
    requires Enabled(log, a, ev)
    decreases ev
  {
    match ev
    case Fetch(rows) =>
      if rows == [] then a.(phase := Sending(EMPTY)) else a.(phase := Scanning, rows := rows)
    case ScanRow => Scan(a)
    case Receive(j) =>
      var child := a.started[j];
      a.(received := a.received + 1,
         results := Keep(a.results, child.phase.msg),
         started := a.started[j := Take(child)])
    case Finish =>
      a.(phase := Sending(Result(a.rows[0].subjectId, a.rows[0].subjectType, a.cols, a.results)))
    case Within(j, e) =>
      a.(started := a.started[j := Apply(log, a.started[j], e)])
  }

  // ---------------------------------------------------------------- the invariant

  /** Kinds are non-empty, as the store's callers are expected to keep them. */
  ghost predicate NamedKinds(log: seq<Instruction>) {
    forall r :: r in log ==> r.subjectType != ""
  }

  /** The message m is the right answer to call c, up to the order of children and of
      versions with equal timestamps. */
  ghost predicate Delivers(log: seq<Instruction>, c: Call, m: Result) {
    match Answer(log, c)
    case None => m == EMPTY
    case Some(t) => m.id == c.q.id && m.kind != "" && CanonOf(m) == CanonOf(t) && Faithful(log, m)
  }

  function Calls(s: seq<Act>): seq<Call> {
    seq(|s|, i requires 0 <= i < |s| => s[i].call)
  }

  function SentFn(): Act -> nat {
    (a: Act) => if a.phase.Sent? then 1 else 0
  }

  /** What the answer to a call adds to its parent's children. */
  ghost function Share(log: seq<Instruction>, c: Call): multiset<Canon> {
    match Answer(log, c) case Some(t) => multiset{CanonOf(t)} case None => multiset{}
  }

  ghost function ShareFn(log: seq<Instruction>): Act -> multiset<Canon> {
    (a: Act) => if a.phase.Sent? then Share(log, a.call) else multiset{}
  }

  ghost predicate Inv(log: seq<Instruction>, a: Act)
    decreases a
  {
    if a.phase.Ready? then
      a == Start(a.call)
    else
      && (forall k :: k in a.started ==> Inv(log, k))
      && a.sends == (if a.phase.Sent? then 1 else 0)
      && match a.phase
         case Scanning => ScanInv(log, a)
         case Sending(m) => SendInv(log, a, m)
         case Sent(m) => SendInv(log, a, m)
         case Crashed => false
  }

  ghost predicate ScanInv(log: seq<Instruction>, a: Act) {
    && IsFetch(log, a.call.q.id, a.rows)
    && a.rows != []
    && a.pos <= |a.rows|
    && (forall i :: 0 <= i < a.pos ==> !Discards(a.call.q, a.rows[i]))
    && a.cols == Columns(a.rows[..a.pos])
    && Calls(a.started) == Spawns(a.call, a.rows[..a.pos])
    && Tally(log, a.started, a.received, a.results)
  }

  /** The parent has taken exactly the messages its children sent, and kept their answers. */
  ghost predicate Tally(log: seq<Instruction>, started: seq<Act>, received: nat, results: seq<Result>) {
    && received == Sum(SentFn(), started)
    && CanonAll(results) == MSum(ShareFn(log), started)
    && (forall r :: r in results ==> Faithful(log, r))
  }

  /** A message has been offered: it is right, and unless the activation was discarded
      every child it started has been received. */
  ghost predicate SendInv(log: seq<Instruction>, a: Act, m: Result) {
    && Delivers(log, a.call, m)
    && (m != EMPTY ==> a.received == |a.started| && forall k :: k in a.started ==> k.phase.Sent?)
  }

  // ---------------------------------------------------------------- measuring results up to order

  /** A weight that does not tell equal-up-to-order results apart has the same total over
      two lists that are equal up to order. */
  lemma Congruence<U>(f: Result -> multiset<U>, a: seq<Result>, b: seq<Result>)
    requires CanonAll(a) == CanonAll(b)
    requires forall x, y :: x in a && y in b && CanonOf(x) == CanonOf(y) ==> f(x) == f(y)
    ensures MSum(f, a) == MSum(f, b)
  {
    CanonAllIsSum(a);
    CanonAllIsSum(b);
    CongruenceBy(CanonKey(), f, a, b);
  }

  lemma CanonOfKids(r: Result, kids: seq<Result>)
    ensures CanonOf(r.(kids := kids)) == CanonOf(r).(kids := CanonAll(kids))
  {
  }

  lemma CanonParts(a: Result, b: Result)
    requires CanonOf(a) == CanonOf(b)
    ensures a.id == b.id && CanonAll(a.kids) == CanonAll(b.kids)
  {
    CanonOfKids(a, a.kids);
    CanonOfKids(b, b.kids);
  }

  /** The subtrees that a row of the entity adds below activation c. */
  ghost function RowAnswers(log: seq<Instruction>, c: Call, r: Instruction): seq<Result> {
    match SpawnOf(c, r) case Some(x) => AnswerFn(log)(x) case None => []
  }

  /** The last row adds the answer of the activation it starts, if any. */
  lemma SpawnedAnswers(log: seq<Instruction>, c: Call, rows: seq<Instruction>)
    requires rows != []
    ensures FlatMap(AnswerFn(log), Spawns(c, rows)) ==
            FlatMap(AnswerFn(log), Spawns(c, rows[..|rows| - 1])) + RowAnswers(log, c, rows[|rows| - 1])
  {
    var n := |rows| - 1;
    FlatMapAppend(AnswerFn(log), Spawns(c, rows[..n]), SpawnFn(c)(rows[n]));
    if SpawnOf(c, rows[n]).Some? {
      FlatMapOne(AnswerFn(log), SpawnOf(c, rows[n]).value);
    }
  }

  lemma DeliversParts(log: seq<Instruction>, c: Call, m: Result)
    requires Delivers(log, c, m)
    ensures Answer(log, c).None? ==> m == EMPTY
    ensures Answer(log, c).Some? ==> CanonOf(m) == CanonOf(Answer(log, c).value)
  {
  }
}
