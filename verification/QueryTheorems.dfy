/** Run as a whole: the caller waits on its own channel while the activations interleave.
    Every schedule of them is finite, on any store, with a bound known before the start. */
module QueryTheorems {
  import opened Seqs
  import opened Types
  import opened QueryModel
  import opened QueryRun
  import opened QuerySchedule

  // ---------------------------------------------------------------- a bound on the steps

  /** The number of steps an activation and everything it starts can take. */
  ghost function Work(log: seq<Instruction>, c: Call): nat
    decreases Height(c.q), Gap(c), 1
  {
    var rows := RowsOf(log, c.q.id);
    SpawnsBelow(c, rows);
    2 + |rows| + WorkAll(log, c, Spawns(c, rows))
  }

  ghost function WorkAll(log: seq<Instruction>, c: Call, calls: seq<Call>): nat
    requires forall x :: x in calls ==> Below(x, c)
    decreases Height(c.q), Gap(c), 0, |calls|
  {
    if calls == [] then 0
    else
      assert Below(calls[|calls| - 1], c);
      WorkAll(log, c, calls[..|calls| - 1]) + 1 + Work(log, calls[|calls| - 1])
  }

  ghost function WorkFn(log: seq<Instruction>): Call -> nat {
    (c: Call) => 1 + Work(log, c)
  }

  lemma {:induction false} WorkAllIsSum(log: seq<Instruction>, c: Call, calls: seq<Call>)
    requires forall x :: x in calls ==> Below(x, c)
    ensures WorkAll(log, c, calls) == Sum(WorkFn(log), calls)
  {
    if calls != [] {
      WorkAllIsSum(log, c, calls[..|calls| - 1]);
    }
  }

  function Minus(a: nat, b: nat): nat {
    if a >= b then a - b else 0
  }

  /** The steps an activation and its children still have ahead of them, at most. */
  ghost function Left(log: seq<Instruction>, a: Act): nat
    decreases a
  {
    match a.phase
    case Ready => Work(log, a.call)
    case Scanning =>
      1 + Minus(|a.rows|, a.pos)
      + (if a.pos <= |a.rows| then Sum(WorkFn(log), Spawns(a.call, a.rows[a.pos..])) else 0)
      + Minus(|a.started|, a.received) + LeftAll(log, a.started)
    case _ => LeftAll(log, a.started)
  }

  ghost function LeftAll(log: seq<Instruction>, s: seq<Act>): nat
    decreases s
  {
    if s == [] then 0 else LeftAll(log, s[..|s| - 1]) + Left(log, s[|s| - 1])
  }

  lemma {:induction false} LeftAllUpdate(log: seq<Instruction>, s: seq<Act>, j: nat, x: Act)
    requires j < |s|
    ensures LeftAll(log, s[j := x]) + Left(log, s[j]) == LeftAll(log, s) + Left(log, x)
    decreases |s|
  {
    var n := |s| - 1;
    if j == n {
      assert s[j := x][..n] == s[..n];
    } else {
      assert s[j := x][..n] == s[..n][j := x];
      LeftAllUpdate(log, s[..n], j, x);
    }
  }

  lemma FetchWorks(log: seq<Instruction>, a: Act, rows: seq<Instruction>)
    requires a == Start(a.call) && IsFetch(log, a.call.q.id, rows)
    ensures Left(log, Apply(log, a, Fetch(rows))) < Left(log, a)
  {
    var stored := RowsOf(log, a.call.q.id);
    assert |multiset(rows)| == |multiset(stored)|;
    SpawnsBelow(a.call, stored);
    WorkAllIsSum(log, a.call, Spawns(a.call, stored));
    FlatMapPerm(SpawnFn(a.call), rows, stored);
    SumPerm(WorkFn(log), Spawns(a.call, rows), Spawns(a.call, stored));
    assert rows[0..] == rows;
  }

  lemma SpawnsAhead(c: Call, rows: seq<Instruction>, pos: nat)
    requires pos < |rows|
    ensures Spawns(c, rows[pos..]) == SpawnFn(c)(rows[pos]) + Spawns(c, rows[pos + 1..])
  {
    assert rows[pos..] == [rows[pos]] + rows[pos + 1..];
    FlatMapAppend(SpawnFn(c), [rows[pos]], rows[pos + 1..]);
    FlatMapOne(SpawnFn(c), rows[pos]);
  }

  lemma StartedWork(log: seq<Instruction>, s: seq<Act>, c: Call)
    ensures LeftAll(log, s + [Start(c)]) == LeftAll(log, s) + Work(log, c)
  {
    assert (s + [Start(c)])[..|s|] == s;
  }

  lemma WorkAhead(log: seq<Instruction>, c: Call, rows: seq<Instruction>, pos: nat)
    requires pos < |rows|
    ensures Sum(WorkFn(log), Spawns(c, rows[pos..])) ==
            (match SpawnOf(c, rows[pos]) case Some(x) => 1 + Work(log, x) case None => 0)
            + Sum(WorkFn(log), Spawns(c, rows[pos + 1..]))
  {
    SpawnsAhead(c, rows, pos);
    SumAppend(WorkFn(log), SpawnFn(c)(rows[pos]), Spawns(c, rows[pos + 1..]));
    if SpawnOf(c, rows[pos]).Some? {
      SumOne(WorkFn(log), SpawnOf(c, rows[pos]).value);
    }
  }

  lemma ScanWorks(log: seq<Instruction>, a: Act)
    requires a.phase.Scanning? && a.pos < |a.rows| && a.received <= |a.started|
    requires !Scan(a).phase.Crashed?
    ensures Left(log, Scan(a)) < Left(log, a)
  {
    WorkAhead(log, a.call, a.rows, a.pos);
    ScanMoves(a);
    hide Scan, Sum, Spawns, WorkFn, LeftAll, Work;
    if SpawnOf(a.call, a.rows[a.pos]).Some? {
      StartedWork(log, a.started, SpawnOf(a.call, a.rows[a.pos]).value);
    }
  }

  /** One row either ends the scan or is passed, with the child it starts if any. */
  lemma ScanMoves(a: Act)
    requires a.phase.Scanning? && a.pos < |a.rows| && !Scan(a).phase.Crashed?
    ensures var b := Scan(a); var spawned := SpawnOf(a.call, a.rows[a.pos]);
            || (b.phase.Sending? && b.started == a.started)
            || (b.phase.Scanning? && b.pos == a.pos + 1 && b.rows == a.rows && b.call == a.call && b.received == a.received &&
                b.started == a.started + if spawned.Some? then [Start(spawned.value)] else [])
  {
  }

  /** Each step uses up some of the remaining work. */
  lemma {:induction false} StepWorks(log: seq<Instruction>, a: Act, ev: Event)
    requires Inv(log, a) && Enabled(log, a, ev)
    ensures Left(log, Apply(log, a, ev)) < Left(log, a)
    decreases ev
  {
    match ev
    case Fetch(rows) => FetchWorks(log, a, rows);
    case ScanRow => {
      AllSent(a.started);
      ScanKeeps(log, a);
      ScanWorks(log, a);
    }
    case Receive(j) => ReceiveWorks(log, a, j);
    case Finish =>
    case Within(j, e) => {
      assert Inv(log, a.started[j]);
      StepWorks(log, a.started[j], e);
      WithinWorks(log, a, j, e);
    }
  }

  lemma ReceiveWorks(log: seq<Instruction>, a: Act, j: nat)
    requires Enabled(log, a, Receive(j))
    ensures Left(log, Apply(log, a, Receive(j))) < Left(log, a)
  {
    LeftAllUpdate(log, a.started, j, Take(a.started[j]));
  }

  lemma WithinWorks(log: seq<Instruction>, a: Act, j: nat, e: Event)
    requires Inv(log, a) && Enabled(log, a, Within(j, e))
    requires Left(log, Apply(log, a.started[j], e)) < Left(log, a.started[j])
    ensures Left(log, Apply(log, a, Within(j, e))) < Left(log, a)
  {
    LeftAllUpdate(log, a.started, j, Apply(log, a.started[j], e));
  }

  /** An activation that has not offered its message can take a step, alone or through a
      child: nobody waits for ever. */
  lemma {:induction false} CanStep(log: seq<Instruction>, a: Act) returns (ev: Event)
    requires Inv(log, a) && !a.phase.Sending? && !a.phase.Sent?
    ensures Enabled(log, a, ev)
    decreases a
  {
    if a.phase.Ready? {
      var rows := SomeOrder(RowsOf(log, a.call.q.id));
      ev := Fetch(rows);
    } else if a.pos < |a.rows| {
      ev := ScanRow;
    } else if a.received >= |a.started| {
      ev := Finish;
    } else {
      AllSent(a.started);
      var k :| k in a.started && !k.phase.Sent?;
      var j :| 0 <= j < |a.started| && a.started[j] == k;
      if k.phase.Sending? {
        ev := Receive(j);
      } else {
        var e := CanStep(log, k);
        ev := Within(j, e);
      }
    }
  }

  // ---------------------------------------------------------------- Run and its caller

  datatype System = System(root: Act, got: Option<Result>)

  /** Deliver is the rendezvous on Run's channel. */
  datatype Move = Inside(e: Event) | Deliver

  function Launch(q: Plan): System {
    System(Start(RootCall(q)), None)
  }

  ghost predicate CanMove(log: seq<Instruction>, s: System, m: Move) {
    match m
    case Inside(e) => Enabled(log, s.root, e)
    case Deliver => s.got.None? && s.root.phase.Sending?
  }

  function Do(log: seq<Instruction>, s: System, m: Move): System
    requires CanMove(log, s, m)
  {
    match m
    case Inside(e) => s.(root := Apply(log, s.root, e))
    case Deliver => System(Take(s.root), Some(s.root.phase.msg))
  }

  ghost predicate Leads(log: seq<Instruction>, s: System, m: Move, t: System) {
    CanMove(log, s, m) && t == Do(log, s, m)
  }

  /** The moves ms, one after the other, lead from a freshly started run to s. */
  ghost predicate Reaches(log: seq<Instruction>, q: Plan, ms: seq<Move>, s: System)
    decreases |ms|
  {
    if ms == [] then s == Launch(q)
    else
      exists mid :: Leads(log, mid, Last(ms), s) && Reaches(log, q, Init(ms), mid)
  }

  ghost predicate SystemInv(log: seq<Instruction>, q: Plan, s: System) {
    && Inv(log, s.root)
    && s.root.call == RootCall(q)
    && (s.got.Some? <==> s.root.phase.Sent?)
    && (s.got.Some? ==> s.root.phase.msg == s.got.value)
  }

  ghost function StepsLeft(log: seq<Instruction>, s: System): nat {
    Left(log, s.root) + if s.got.None? then 1 else 0
  }

  lemma {:induction false} ReachesInv(log: seq<Instruction>, q: Plan, ms: seq<Move>, s: System)
    requires NamedKinds(log) && Reaches(log, q, ms, s)
    ensures SystemInv(log, q, s)
    ensures |ms| + StepsLeft(log, s) <= Work(log, RootCall(q)) + 1
    decreases |ms|
  {
    if ms != [] {
      var mid :| Leads(log, mid, Last(ms), s) && Reaches(log, q, Init(ms), mid);
      hide *;
      ReachesInv(log, q, Init(ms), mid);
      MoveKeeps(log, q, mid, Last(ms), s);
    }
  }

  lemma MoveKeeps(log: seq<Instruction>, q: Plan, s: System, m: Move, t: System)
    requires NamedKinds(log) && SystemInv(log, q, s) && Leads(log, s, m, t)
    ensures SystemInv(log, q, t) && StepsLeft(log, t) < StepsLeft(log, s)
  {
    hide Left, Apply, Enabled, Inv;
    match m
    case Inside(e) => {
      StepKeeps(log, s.root, e);
      StepWorks(log, s.root, e);
      StepFacts(log, s.root, e);
    }
    case Deliver => DeliverKeeps(log, s.root);
  }

  lemma DeliverKeeps(log: seq<Instruction>, a: Act)
    requires Inv(log, a) && a.phase.Sending?
    ensures Inv(log, Take(a)) && Left(log, Take(a)) == Left(log, a)
  {
    hide Delivers;
  }

  /** Nobody has died in Versions.add, nobody has sent twice, and an activation whose
      answer is not the empty result has taken exactly one message from each child. */
  ghost predicate Orderly(a: Act)
    decreases a
  {
    && !a.phase.Crashed?
    && a.sends == (if a.phase.Sent? then 1 else 0)
    && ((a.phase.Sending? || a.phase.Sent?) && a.phase.msg != EMPTY ==>
          a.received == |a.started| && forall k :: k in a.started ==> k.phase.Sent?)
    && forall k :: k in a.started ==> Orderly(k)
  }

  lemma {:induction false} InvOrderly(log: seq<Instruction>, a: Act)
    requires Inv(log, a)
    ensures Orderly(a)
    decreases a
  {
    forall k | k in a.started
      ensures Orderly(k)
    {
      InvOrderly(log, k);
    }
  }

  /** The answer of a run does not depend on the schedule: however the goroutines
      interleave, whatever order the store returns rows in, what Run receives is the
      sequential tree up to the order of children. Run cannot be left waiting, and no
      schedule is longer than Work. */
  lemma ScheduleIndependence(log: seq<Instruction>, q: Plan, ms: seq<Move>, s: System)
    requires NamedKinds(log) && Reaches(log, q, ms, s)
    ensures s.got.Some? ==> Delivers(log, RootCall(q), s.got.value)
    ensures s.got.None? ==> exists m :: CanMove(log, s, m)
    ensures |ms| <= Work(log, RootCall(q)) + 1
    ensures Orderly(s.root)
  {
    ReachesInv(log, q, ms, s);
    InvOrderly(log, s.root);
    if s.got.None? {
      if s.root.phase.Sending? {
        assert CanMove(log, s, Deliver);
      } else {
        var e := CanStep(log, s.root);
        assert CanMove(log, s, Inside(e));
      }
    }
  }

  lemma OneMore(log: seq<Instruction>, q: Plan, ms: seq<Move>, s: System, m: Move)
    requires NamedKinds(log) && Reaches(log, q, ms, s) && CanMove(log, s, m)
    ensures Reaches(log, q, ms + [m], Do(log, s, m))
    ensures StepsLeft(log, Do(log, s, m)) < StepsLeft(log, s)
  {
    assert Init(ms + [m]) == ms;
    assert Leads(log, s, m, Do(log, s, m));
    ReachesInv(log, q, ms, s);
    MoveKeeps(log, q, s, m, Do(log, s, m));
  }

  /** From every reachable state some continuation delivers. */
  lemma {:induction false} CanComplete(log: seq<Instruction>, q: Plan, ms: seq<Move>, s: System)
      returns (all: seq<Move>, t: System)
    requires NamedKinds(log) && Reaches(log, q, ms, s)
    ensures ms <= all && Reaches(log, q, all, t) && t.got.Some?
    decreases StepsLeft(log, s)
  {
    if s.got.Some? {
      all, t := ms, s;
    } else {
      var m := NextMove(log, q, ms, s);
      OneMore(log, q, ms, s, m);
      all, t := CanComplete(log, q, ms + [m], Do(log, s, m));
    }
  }

  lemma NextMove(log: seq<Instruction>, q: Plan, ms: seq<Move>, s: System) returns (m: Move)
    requires NamedKinds(log) && Reaches(log, q, ms, s) && s.got.None?
    ensures CanMove(log, s, m)
  {
    ScheduleIndependence(log, q, ms, s);
    m :| CanMove(log, s, m);
  }
}
