/** Real-time indexing: Execute commits and then sends entities down a bounded channel, a
    pool of workers turns them into documents, and the search engine keeps the newer one
    (store/update.go:247-263, indexer/indexer.go:41-87, drivers/memsearch/memsearch.go:65-74). */
module Indexer {
  import opened Seqs
  import opened Types
  import opened UpdateModel

  /** A document says when it was stamped and how much of the store it was made from: its
      data was generated from the first `seen` rows ever committed. */
  datatype Doc = Doc(ts: nat, seen: nat)

  /** A worker between two messages, or with a list of entities to regenerate, or within
      Regenerate before and after it has read the store. */
  datatype Worker =
    | Idle
    | Busy(todo: seq<Entity>)
    | Stamped(e: Entity, ts: nat, todo: seq<Entity>)
    | Loaded(e: Entity, ts: nat, seen: nat, todo: seq<Entity>)

  /** The clock is strictly increasing: the k-th reading is k, and stamps[k] records how
      many rows had been committed then. sending holds what each Execute has yet to send. */
  datatype State = State(
    log: seq<Instruction>,
    stamps: seq<nat>,
    sending: seq<seq<Entity>>,
    queue: seq<Entity>,
    workers: seq<Worker>,
    docs: map<Entity, Doc>)

  /** The registered kinds, what OnUpdate returns, and the channel's capacity. */
  datatype Config = Config(registered: set<string>, onUpdate: Entity -> seq<Entity>, capacity: nat)

  datatype Event =
    | Commit(its: seq<Instruction>)
    | Send(p: nat)
    | Handoff(p: nat, w: nat)
    | Receive(w: nat)
    | Stamp(w: nat)
    | Load(w: nat)
    | Write(w: nat)
    | Done(w: nat)

  function Initial(workers: nat): State {
    State([], [], [], [], seq(workers, i => Idle), map[])
  }

  predicate Enabled(c: Config, s: State, ev: Event) {
    match ev
    case Commit(its) => its != []
    case Send(p) => p < |s.sending| && s.sending[p] != [] && |s.queue| < c.capacity
    case Handoff(p, w) =>
      p < |s.sending| && s.sending[p] != [] && s.queue == [] && w < |s.workers| && s.workers[w].Idle?
    case Receive(w) => w < |s.workers| && s.workers[w].Idle? && s.queue != []
    case Stamp(w) => w < |s.workers| && s.workers[w].Busy? && s.workers[w].todo != []
    case Load(w) => w < |s.workers| && s.workers[w].Stamped?
    case Write(w) => w < |s.workers| && s.workers[w].Loaded?
    case Done(w) => w < |s.workers| && s.workers[w] == Busy([])
  }

  /** What a worker does with a received entity. */
  function Taken(c: Config, e: Entity): Worker {
    if e.kind in c.registered then Busy(c.onUpdate(e)) else Idle
  }

  /** MemSearch.Update: a document replaces a strictly older one. */
  function Update(docs: map<Entity, Doc>, e: Entity, d: Doc): (r: map<Entity, Doc>)
    ensures e in r && r[e].ts >= d.ts && forall x :: x in docs && x != e ==> x in r && r[x] == docs[x]
    ensures e in docs && docs[e].ts == d.ts ==> r == docs
  {
    if e in docs && docs[e].ts >= d.ts then docs else docs[e := d]
  }

  function Apply(c: Config, s: State, ev: Event): State
    requires Enabled(c, s, ev)
  {
    match ev
    case Commit(its) => s.(log := s.log + its, sending := s.sending + [Distinct(its)])
    case Send(p) =>
      s.(queue := s.queue + [s.sending[p][0]], sending := s.sending[p := s.sending[p][1..]])
    case Handoff(p, w) =>
      s.(workers := s.workers[w := Taken(c, s.sending[p][0])], sending := s.sending[p := s.sending[p][1..]])
    case Receive(w) =>
      s.(workers := s.workers[w := Taken(c, s.queue[0])], queue := s.queue[1..])
    case Stamp(w) =>
      var todo := s.workers[w].todo;
      if todo[0].kind in c.registered then
        s.(workers := s.workers[w := Stamped(todo[0], |s.stamps|, todo[1..])], stamps := s.stamps + [|s.log|])
      else
        s.(workers := s.workers[w := Busy(todo[1..])])
    case Load(w) =>
      var k := s.workers[w];
      s.(workers := s.workers[w := Loaded(k.e, k.ts, |s.log|, k.todo)])
    case Write(w) =>
      var k := s.workers[w];
      s.(workers := s.workers[w := Busy(k.todo)], docs := Update(s.docs, k.e, Doc(k.ts, k.seen)))
    case Done(w) => s.(workers := s.workers[w := Idle])
  }

  // ---------------------------------------------------------------- the invariant

  /** A document, or one in the making, was stamped before its read. */
  ghost predicate Timely(s: State, ts: nat, seen: nat) {
    ts < |s.stamps| && s.stamps[ts] <= seen <= |s.log|
  }

  ghost predicate WorkerOk(s: State, k: Worker) {
    match k
    case Idle => true
    case Busy(todo) => true
    case Stamped(e, ts, todo) => ts < |s.stamps|
    case Loaded(e, ts, seen, todo) => Timely(s, ts, seen)
  }

  ghost predicate StampsOk(s: State) {
    && (forall i, j :: 0 <= i <= j < |s.stamps| ==> s.stamps[i] <= s.stamps[j])
    && (forall i :: 0 <= i < |s.stamps| ==> s.stamps[i] <= |s.log|)
  }

  ghost predicate AllTimely(s: State) {
    && (forall w :: 0 <= w < |s.workers| ==> WorkerOk(s, s.workers[w]))
    && (forall e :: e in s.docs ==> Timely(s, s.docs[e].ts, s.docs[e].seen))
  }

  ghost predicate Clocked(s: State) {
    StampsOk(s) && AllTimely(s)
  }

  /** Rows of e occur only before position n. */
  ghost predicate NoneFrom(log: seq<Instruction>, e: Entity, n: nat) {
    forall i :: n <= i < |log| ==> EntityOf(log[i]) != e
  }

  /** A reading of the clock that is recent enough for e. */
  ghost predicate Recent(s: State, e: Entity, ts: nat) {
    ts < |s.stamps| && NoneFrom(s.log, e, s.stamps[ts])
  }

  /** The worker still has y before it, or has it in hand with a stamp recent for x. */
  ghost predicate Holds(s: State, k: Worker, x: Entity, y: Entity) {
    match k
    case Idle => false
    case Busy(todo) => y in todo
    case Stamped(e, ts, todo) => y in todo || (e == y && Recent(s, x, ts))
    case Loaded(e, ts, seen, todo) => y in todo || (e == y && Recent(s, x, ts))
  }

  ghost predicate WorkerHolds(s: State, w: int, x: Entity, y: Entity) {
    0 <= w < |s.workers| && Holds(s, s.workers[w], x, y)
  }

  ghost predicate StillToSend(s: State, p: int, e: Entity) {
    0 <= p < |s.sending| && e in s.sending[p]
  }

  /** The document of y has been made with all rows of x in the store. */
  ghost predicate DocRecent(s: State, x: Entity, y: Entity) {
    y in s.docs && Recent(s, x, s.docs[y].ts)
  }

  /** The document of y is up to date with x, or an update of x is on its way to y. */
  ghost predicate Covered(s: State, x: Entity, y: Entity) {
    || DocRecent(s, x, y)
    || x in s.queue
    || (exists p :: StillToSend(s, p, x))
    || (exists w :: WorkerHolds(s, w, x, y))
  }

  /** When x is touched, y is to be regenerated. */
  ghost predicate Affects(c: Config, x: Entity, y: Entity) {
    x.kind in c.registered && y.kind in c.registered && y in c.onUpdate(x)
  }

  ghost predicate AllCovered(c: Config, s: State) {
    forall x: Entity, y: Entity :: Affects(c, x, y) && Touches(s.log, x) ==> Covered(s, x, y)
  }

  /** Some touched entity asks for y. */
  ghost predicate AskedFor(c: Config, log: seq<Instruction>, y: Entity) {
    exists x :: Touches(log, x) && x.kind in c.registered && y in c.onUpdate(x)
  }

  ghost predicate WorkerAsked(c: Config, log: seq<Instruction>, k: Worker) {
    match k
    case Idle => true
    case Busy(todo) => forall y :: y in todo ==> AskedFor(c, log, y)
    case Stamped(e, ts, todo) =>
      e.kind in c.registered && AskedFor(c, log, e) && forall y :: y in todo ==> AskedFor(c, log, y)
    case Loaded(e, ts, seen, todo) =>
      e.kind in c.registered && AskedFor(c, log, e) && forall y :: y in todo ==> AskedFor(c, log, y)
  }

  /** Nothing is on its way, in hand or in the index that nobody asked for. */
  ghost predicate AllAsked(c: Config, s: State) {
    && (forall p, e :: StillToSend(s, p, e) ==> Touches(s.log, e))
    && (forall e :: e in s.queue ==> Touches(s.log, e))
    && (forall w :: 0 <= w < |s.workers| ==> WorkerAsked(c, s.log, s.workers[w]))
    && (forall y :: y in s.docs ==> y.kind in c.registered && AskedFor(c, s.log, y))
  }

  ghost predicate Inv(c: Config, s: State) {
    Clocked(s) && AllCovered(c, s) && AllAsked(c, s) && |s.queue| <= c.capacity
  }

  // ---------------------------------------------------------------- every step keeps it

  lemma StampsStep(c: Config, s: State, ev: Event)
    requires StampsOk(s) && Enabled(c, s, ev)
    ensures StampsOk(Apply(c, s, ev))
    ensures s.stamps <= Apply(c, s, ev).stamps && |s.log| <= |Apply(c, s, ev).log|
  {
  }

  /** What was timely stays timely as the log and the clock go on. */
  lemma WorkerLater(s: State, t: State, k: Worker)
    requires s.stamps <= t.stamps && |s.log| <= |t.log| && WorkerOk(s, k)
    ensures WorkerOk(t, k)
  {
  }

  lemma TimelyStep(c: Config, s: State, ev: Event)
    requires Clocked(s) && Enabled(c, s, ev)
    ensures Clocked(Apply(c, s, ev))
  {
    var t := Apply(c, s, ev);
    StampsStep(c, s, ev);
    forall w | 0 <= w < |s.workers|
      ensures WorkerOk(t, s.workers[w]) && WorkerOk(s, s.workers[w])
    {
      WorkerLater(s, t, s.workers[w]);
    }
  }

  lemma TouchedBy(log: seq<Instruction>, its: seq<Instruction>, e: Entity)
    ensures Touches(log + its, e) ==> Touches(log, e) || Touches(its, e)
    ensures !Touches(its, e) ==> forall n: nat :: NoneFrom(log, e, n) ==> NoneFrom(log + its, e, n)
  {
    if i :| 0 <= i < |log + its| && EntityOf((log + its)[i]) == e {
      if i < |log| {
        assert EntityOf(log[i]) == e;
      } else {
        assert EntityOf(its[i - |log|]) == e;
      }
    }
    if !Touches(its, e) {
      forall n: nat | NoneFrom(log, e, n)
        ensures NoneFrom(log + its, e, n)
      {
        forall i | n <= i < |log + its|
          ensures EntityOf((log + its)[i]) != e
        {
          assert i >= |log| ==> (log + its)[i] == its[i - |log|];
        }
      }
    }
  }

  /** A commit puts every entity it touches on its way and disturbs no other. */
  lemma CommitCovers(c: Config, s: State, its: seq<Instruction>, x: Entity, y: Entity)
    requires its != [] && (Touches(s.log, x) ==> Covered(s, x, y)) && Touches(s.log + its, x)
    ensures Covered(Apply(c, s, Commit(its)), x, y)
  {
    var t := Apply(c, s, Commit(its));
    TouchedBy(s.log, its, x);
    DistinctIs(its);
    if Touches(its, x) {
      assert StillToSend(t, |s.sending|, x);
    } else if p :| StillToSend(s, p, x) {
      assert StillToSend(t, p, x);
    } else if w :| WorkerHolds(s, w, x, y) {
      assert WorkerHolds(t, w, x, y);
    }
  }

  /** s and t differ in worker w only, but for messages and documents. */
  ghost predicate OnlyWorker(s: State, t: State, w: int) {
    && t.log == s.log && s.stamps <= t.stamps && |t.workers| == |s.workers|
    && forall v :: 0 <= v < |s.workers| && v != w ==> t.workers[v] == s.workers[v]
  }

  lemma OthersHold(s: State, t: State, w: int, v: int, x: Entity, y: Entity)
    requires OnlyWorker(s, t, w) && v != w && WorkerHolds(s, v, x, y)
    ensures WorkerHolds(t, v, x, y)
  {
  }

  /** A step of worker w that keeps messages, when w goes on holding what it held. */
  lemma WorkerCovers(s: State, t: State, w: int, x: Entity, y: Entity)
    requires OnlyWorker(s, t, w) && t.sending == s.sending && t.queue == s.queue && Covered(s, x, y)
    requires DocRecent(s, x, y) ==> DocRecent(t, x, y)
    requires WorkerHolds(s, w, x, y) ==> WorkerHolds(t, w, x, y) || DocRecent(t, x, y)
    ensures Covered(t, x, y)
  {
    if p :| StillToSend(s, p, x) {
      assert StillToSend(t, p, x);
    } else if v :| WorkerHolds(s, v, x, y) {
      if v != w {
        OthersHold(s, t, w, v, x, y);
      }
    }
  }

  lemma SendCovers(s: State, t: State, p: nat, x: Entity, y: Entity)
    requires p < |s.sending| && s.sending[p] != []
    requires t == s.(queue := s.queue + [s.sending[p][0]], sending := s.sending[p := s.sending[p][1..]])
    requires Covered(s, x, y)
    ensures Covered(t, x, y)
  {
    if q :| StillToSend(s, q, x) {
      Shorter(s.sending, p, q, x);
      if x != s.sending[p][0] {
        assert StillToSend(t, q, x);
      }
    } else if w :| WorkerHolds(s, w, x, y) {
      assert WorkerHolds(t, w, x, y);
    }
  }

  /** Taking the head of list p loses no entity but that head. */
  lemma Shorter(lists: seq<seq<Entity>>, p: nat, q: int, e: Entity)
    requires p < |lists| && lists[p] != [] && 0 <= q < |lists| && e in lists[q]
    ensures e == lists[p][0] || e in lists[p := lists[p][1..]][q]
  {
    assert lists[p] == [lists[p][0]] + lists[p][1..];
  }

  /** An idle worker takes e, from the queue or straight from a sender, and with it all that
      e affects. */
  lemma TakeCovers(c: Config, s: State, t: State, w: nat, e: Entity, x: Entity, y: Entity)
    requires Affects(c, x, y) && Covered(s, x, y)
    requires w < |s.workers| && s.workers[w].Idle? && t.workers == s.workers[w := Taken(c, e)]
    requires t.log == s.log && t.stamps == s.stamps && t.docs == s.docs
    requires x in s.queue ==> x == e || x in t.queue
    requires forall p :: StillToSend(s, p, x) ==> x == e || StillToSend(t, p, x)
    ensures Covered(t, x, y)
  {
    assert OnlyWorker(s, t, w);
    if x == e {
      assert WorkerHolds(t, w, x, y);
    } else if p :| StillToSend(s, p, x) {
      assert StillToSend(t, p, x);
    } else if v :| WorkerHolds(s, v, x, y) {
      OthersHold(s, t, w, v, x, y);
    }
  }

  lemma HandoffCovers(c: Config, s: State, p: nat, w: nat, x: Entity, y: Entity)
    requires Enabled(c, s, Handoff(p, w)) && Affects(c, x, y) && Covered(s, x, y)
    ensures Covered(Apply(c, s, Handoff(p, w)), x, y)
  {
    var t := Apply(c, s, Handoff(p, w));
    forall q | StillToSend(s, q, x)
      ensures x == s.sending[p][0] || StillToSend(t, q, x)
    {
      Shorter(s.sending, p, q, x);
    }
    TakeCovers(c, s, t, w, s.sending[p][0], x, y);
  }

  lemma ReceiveCovers(c: Config, s: State, w: nat, x: Entity, y: Entity)
    requires Enabled(c, s, Receive(w)) && Affects(c, x, y) && Covered(s, x, y)
    ensures Covered(Apply(c, s, Receive(w)), x, y)
  {
    var t := Apply(c, s, Receive(w));
    assert s.queue == [s.queue[0]] + s.queue[1..];
    assert forall p :: StillToSend(s, p, x) ==> StillToSend(t, p, x);
    TakeCovers(c, s, t, w, s.queue[0], x, y);
  }

  /** A stamp taken now is recent for every entity; unregistered entities are skipped. */
  lemma StampCovers(c: Config, s: State, w: nat, x: Entity, y: Entity)
    requires Enabled(c, s, Stamp(w)) && Affects(c, x, y) && Covered(s, x, y)
    ensures Covered(Apply(c, s, Stamp(w)), x, y)
  {
    var t := Apply(c, s, Stamp(w));
    var todo := s.workers[w].todo;
    assert todo == [todo[0]] + todo[1..];
    if todo[0].kind in c.registered {
      assert Recent(t, x, |s.stamps|);
    }
    WorkerCovers(s, t, w, x, y);
  }

  /** The engine keeps whichever of two documents was stamped later; since stamps are taken
      before reads, the later one is at least as recent. */
  lemma WriteCovers(c: Config, s: State, w: nat, x: Entity, y: Entity)
    requires Clocked(s) && Enabled(c, s, Write(w)) && Covered(s, x, y)
    ensures Covered(Apply(c, s, Write(w)), x, y)
  {
    var t := Apply(c, s, Write(w));
    var k := s.workers[w];
    assert WorkerOk(s, k);
    if k.e == y {
      forall ts: nat, later: nat | Recent(s, x, ts) && ts <= later < |s.stamps|
        ensures Recent(s, x, later)
      {
        assert s.stamps[ts] <= s.stamps[later];
      }
    }
    WorkerCovers(s, t, w, x, y);
  }

  /** Any step but a commit keeps every pair covered. */
  lemma StepCovers(c: Config, s: State, ev: Event, x: Entity, y: Entity)
    requires Clocked(s) && Enabled(c, s, ev) && !ev.Commit? && Affects(c, x, y) && Covered(s, x, y)
    ensures Covered(Apply(c, s, ev), x, y)
  {
    hide Covered;
    match ev
    case Send(p) => SendCovers(s, Apply(c, s, ev), p, x, y);
    case Handoff(p, w) => HandoffCovers(c, s, p, w, x, y);
    case Receive(w) => ReceiveCovers(c, s, w, x, y);
    case Stamp(w) => StampCovers(c, s, w, x, y);
    case Load(w) => WorkerCovers(s, Apply(c, s, ev), w, x, y);
    case Write(w) => WriteCovers(c, s, w, x, y);
    case Done(w) => WorkerCovers(s, Apply(c, s, ev), w, x, y);
  }

  lemma CoveredStep(c: Config, s: State, ev: Event)
    requires Clocked(s) && AllCovered(c, s) && Enabled(c, s, ev)
    ensures AllCovered(c, Apply(c, s, ev))
  {
    hide Covered, Clocked, Affects;
    var t := Apply(c, s, ev);
    forall x: Entity, y: Entity | Affects(c, x, y) && Touches(t.log, x)
      ensures Covered(t, x, y)
    {
      if ev.Commit? {
        CommitCovers(c, s, ev.its, x, y);
      } else {
        StepCovers(c, s, ev, x, y);
      }
    }
  }

  // ---------------------------------------------------------------- nothing unasked

  lemma AskedLater(c: Config, log: seq<Instruction>, its: seq<Instruction>)
    ensures forall e :: Touches(log, e) || Touches(its, e) ==> Touches(log + its, e)
    ensures forall y :: AskedFor(c, log, y) ==> AskedFor(c, log + its, y)
    ensures forall k :: WorkerAsked(c, log, k) ==> WorkerAsked(c, log + its, k)
  {
    forall e | Touches(log, e) || Touches(its, e)
      ensures Touches(log + its, e)
    {
      if i :| 0 <= i < |log| && EntityOf(log[i]) == e {
        assert EntityOf((log + its)[i]) == e;
      } else {
        var i :| 0 <= i < |its| && EntityOf(its[i]) == e;
        assert EntityOf((log + its)[|log| + i]) == e;
      }
    }
    hide Touches;
    assert forall y :: AskedFor(c, log, y) ==> AskedFor(c, log + its, y);
  }

  lemma CommitAsked(c: Config, s: State, its: seq<Instruction>)
    requires AllAsked(c, s) && its != []
    ensures AllAsked(c, Apply(c, s, Commit(its)))
  {
    AskedLater(c, s.log, its);
    DistinctIs(its);
    hide Touches, AskedFor, WorkerAsked, Distinct;
    var t := Apply(c, s, Commit(its));
    forall p, e | StillToSend(t, p, e)
      ensures Touches(t.log, e)
    {
      assert p < |s.sending| ==> StillToSend(s, p, e);
    }
  }

  lemma TakenAsked(c: Config, log: seq<Instruction>, e: Entity)
    requires Touches(log, e)
    ensures WorkerAsked(c, log, Taken(c, e))
  {
  }

  lemma AskedStep(c: Config, s: State, ev: Event)
    requires AllAsked(c, s) && Enabled(c, s, ev)
    ensures AllAsked(c, Apply(c, s, ev))
  {
    if ev.Commit? {
      CommitAsked(c, s, ev.its);
    } else {
      hide Touches, AskedFor, Taken;
      var t := Apply(c, s, ev);
      assert ev.Send? || ev.Handoff? ==> StillToSend(s, ev.p, s.sending[ev.p][0]);
      if ev.Handoff? {
        TakenAsked(c, s.log, s.sending[ev.p][0]);
      }
      if ev.Receive? {
        TakenAsked(c, s.log, s.queue[0]);
      }
      forall p, e | StillToSend(t, p, e)
        ensures Touches(t.log, e)
      {
        assert StillToSend(s, p, e);
      }
    }
  }

  lemma StepKeeps(c: Config, s: State, ev: Event)
    requires Inv(c, s) && Enabled(c, s, ev)
    ensures Inv(c, Apply(c, s, ev))
  {
    TimelyStep(c, s, ev);
    CoveredStep(c, s, ev);
    AskedStep(c, s, ev);
    hide Clocked, AllCovered, AllAsked;
  }

  // ---------------------------------------------------------------- whole runs

  ghost predicate Leads(c: Config, s: State, ev: Event, t: State) {
    Enabled(c, s, ev) && t == Apply(c, s, ev)
  }

  ghost predicate Reaches(c: Config, workers: nat, evs: seq<Event>, s: State)
    decreases |evs|
  {
    if evs == [] then s == Initial(workers)
    else exists mid :: Leads(c, mid, Last(evs), s) && Reaches(c, workers, Init(evs), mid)
  }

  lemma LedTo(c: Config, s: State, ev: Event, t: State)
    requires Leads(c, s, ev, t)
    ensures Enabled(c, s, ev) && t == Apply(c, s, ev)
    ensures |t.workers| == |s.workers| && (!ev.Commit? ==> t.log == s.log)
  {
  }

  lemma {:induction false} ReachesInv(c: Config, workers: nat, evs: seq<Event>, s: State)
    requires Reaches(c, workers, evs, s)
    ensures Inv(c, s) && |s.workers| == workers && |s.queue| <= c.capacity
    decreases |evs|
  {
    if evs != [] {
      hide Inv, Apply, Enabled;
      var mid :| Leads(c, mid, Last(evs), s) && Reaches(c, workers, Init(evs), mid);
      ReachesInv(c, workers, Init(evs), mid);
      StepKeeps(c, mid, Last(evs));
      LedTo(c, mid, Last(evs), s);
    }
  }

  /** Nothing is left to send, to receive or in hand. */
  ghost predicate Quiescent(s: State) {
    && (forall p :: 0 <= p < |s.sending| ==> s.sending[p] == [])
    && s.queue == []
    && (forall w :: 0 <= w < |s.workers| ==> s.workers[w].Idle?)
  }

  /** However commits, senders and workers interleave: when the pipeline has come to rest,
      a touched entity and everything that OnUpdate names for it have documents, as far as
      kinds are registered, and these were made from a store that already held every row
      ever committed for the touched entity. */
  lemma IndexAgreesWithStore(c: Config, workers: nat, evs: seq<Event>, s: State, x: Entity, y: Entity)
    requires Reaches(c, workers, evs, s) && Quiescent(s)
    requires Touches(s.log, x) && x.kind in c.registered && y in c.onUpdate(x) && y.kind in c.registered
    ensures y in s.docs && s.docs[y].seen <= |s.log| && NoneFrom(s.log, x, s.docs[y].seen)
  {
    ReachesInv(c, workers, evs, s);
    assert Affects(c, x, y);
    assert Covered(s, x, y);
  }

  /** At rest the index holds the documents that were asked for and no others: those of
      registered kinds that OnUpdate named for a touched entity of a registered kind. */
  lemma IndexedIff(c: Config, workers: nat, evs: seq<Event>, s: State, y: Entity)
    requires Reaches(c, workers, evs, s) && Quiescent(s)
    ensures y in s.docs <==>
              y.kind in c.registered && exists x :: Touches(s.log, x) && x.kind in c.registered && y in c.onUpdate(x)
  {
    ReachesInv(c, workers, evs, s);
    if y.kind in c.registered {
      if x :| Touches(s.log, x) && x.kind in c.registered && y in c.onUpdate(x) {
        IndexAgreesWithStore(c, workers, evs, s, x, y);
      }
    }
  }

  // ---------------------------------------------------------------- coming to rest

  /** Steps an entity still costs once it has been received. */
  function Cost(c: Config, e: Entity): nat {
    3 * |c.onUpdate(e)| + 3
  }

  function CostFn(c: Config): Entity -> nat {
    (e: Entity) => Cost(c, e)
  }

  function SendCostFn(c: Config): seq<Entity> -> nat {
    (es: seq<Entity>) => Sum(CostFn(c), es) + |es|
  }

  function WorkerCostFn(): Worker -> nat {
    (k: Worker) => match k
      case Idle => 0
      case Busy(todo) => 3 * |todo| + 1
      case Stamped(e, ts, todo) => 3 * |todo| + 3
      case Loaded(e, ts, seen, todo) => 3 * |todo| + 2
  }

  function Backlog(c: Config, s: State): nat {
    Sum(SendCostFn(c), s.sending) + Sum(CostFn(c), s.queue) + Sum(WorkerCostFn(), s.workers)
  }

  lemma HeadCost<T>(f: T -> nat, s: seq<T>)
    requires s != []
    ensures Sum(f, s) == f(s[0]) + Sum(f, s[1..])
  {
    assert s == [s[0]] + s[1..];
    SumAppend(f, [s[0]], s[1..]);
    SumOne(f, s[0]);
  }

  /** Every step other than a commit shortens the backlog. */
  lemma StepShortens(c: Config, s: State, ev: Event)
    requires Enabled(c, s, ev) && !ev.Commit?
    ensures Backlog(c, Apply(c, s, ev)) < Backlog(c, s)
  {
    var t := Apply(c, s, ev);
    match ev
    case Send(p) => {
      HeadCost(CostFn(c), s.sending[p]);
      SumUpdate(SendCostFn(c), s.sending, p, s.sending[p][1..]);
      SumAppend(CostFn(c), s.queue, [s.sending[p][0]]);
      SumOne(CostFn(c), s.sending[p][0]);
    }
    case Handoff(p, w) => {
      HeadCost(CostFn(c), s.sending[p]);
      SumUpdate(SendCostFn(c), s.sending, p, s.sending[p][1..]);
      SumUpdate(WorkerCostFn(), s.workers, w, t.workers[w]);
    }
    case Receive(w) => {
      HeadCost(CostFn(c), s.queue);
      SumUpdate(WorkerCostFn(), s.workers, w, t.workers[w]);
    }
    case Stamp(w) => SumUpdate(WorkerCostFn(), s.workers, w, t.workers[w]);
    case Load(w) => SumUpdate(WorkerCostFn(), s.workers, w, t.workers[w]);
    case Write(w) => SumUpdate(WorkerCostFn(), s.workers, w, t.workers[w]);
    case Done(w) => SumUpdate(WorkerCostFn(), s.workers, w, t.workers[w]);
  }

  /** With at least one worker the pipeline is never stuck, whatever the capacity of the
      channel; an unbuffered one hands over directly. */
  lemma NeverStuck(c: Config, s: State) returns (ev: Event)
    requires s.workers != [] && !Quiescent(s)
    ensures Enabled(c, s, ev) && !ev.Commit?
  {
    if w :| 0 <= w < |s.workers| && !s.workers[w].Idle? {
      match s.workers[w]
      case Busy(todo) => ev := if todo == [] then Done(w) else Stamp(w);
      case Stamped(_, _, _) => ev := Load(w);
      case Loaded(_, _, _, _) => ev := Write(w);
    } else if s.queue != [] {
      ev := Receive(0);
    } else {
      var p :| 0 <= p < |s.sending| && s.sending[p] != [];
      ev := Handoff(p, 0);
    }
  }

  /** Once commits stop, every run comes to rest, and the index is then up to date. */
  lemma {:induction false} ComesToRest(c: Config, workers: nat, evs: seq<Event>, s: State) returns (all: seq<Event>, t: State)
    requires workers > 0 && Reaches(c, workers, evs, s)
    ensures evs <= all && Reaches(c, workers, all, t) && Quiescent(t) && t.log == s.log
    ensures |all| <= |evs| + Backlog(c, s)
    decreases Backlog(c, s)
  {
    ReachesInv(c, workers, evs, s);
    if Quiescent(s) {
      all, t := evs, s;
    } else {
      var ev := NeverStuck(c, s);
      StepShortens(c, s, ev);
      assert Init(evs + [ev]) == evs;
      assert Leads(c, s, ev, Apply(c, s, ev));
      all, t := ComesToRest(c, workers, evs + [ev], Apply(c, s, ev));
    }
  }

  /** The steps evs lead through the states ss. */
  ghost predicate Continues(c: Config, ss: seq<State>, evs: seq<Event>) {
    |ss| == |evs| + 1 && forall i :: 0 <= i < |evs| ==> Leads(c, ss[i], evs[i], ss[i + 1])
  }

  /** Every way to go on without commits is at most as long as the backlog, and where it can
      go on no more, everything is at rest. */
  lemma {:induction false} EveryRunRests(c: Config, ss: seq<State>, evs: seq<Event>)
    requires Continues(c, ss, evs) && forall i :: 0 <= i < |evs| ==> !evs[i].Commit?
    ensures var s, t := ss[0], ss[|evs|];
            && |evs| + Backlog(c, t) <= Backlog(c, s) && t.log == s.log && |t.workers| == |s.workers|
            && (s.workers != [] && (forall ev :: Enabled(c, t, ev) ==> ev.Commit?) ==> Quiescent(t))
  {
    var t := ss[|evs|];
    if evs != [] {
      var n := |evs| - 1;
      assert Continues(c, ss[..n + 1], evs[..n]);
      hide Backlog, Leads, Quiescent, Enabled;
      EveryRunRests(c, ss[..n + 1], evs[..n]);
      LedTo(c, ss[n], evs[n], t);
      StepShortens(c, ss[n], evs[n]);
    }
    if t.workers != [] && !Quiescent(t) {
      var ev := NeverStuck(c, t);
    }
  }
}
