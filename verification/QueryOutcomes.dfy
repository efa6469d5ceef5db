/** Exactly which results the goroutines of a run can deliver: not only is every outcome
    right, every way of reading the rows and of receiving the children really happens
    (store/query.go:162-292). */
module QueryOutcomes {
  import opened Seqs
  import opened Types
  import opened QueryModel
  import opened QueryRun
  import opened QuerySchedule
  import opened QueryTheorems

  // ---------------------------------------------------------------- what can be sent

  /** order lists the numbers below n, each once. */
  ghost predicate Permutes(order: seq<nat>, n: nat) {
    |order| == n && NoDuplicates(order) && forall k :: 0 <= k < n ==> order[k] < n
  }

  /** The messages that are kept when they are received in this order. */
  function KeptIn(order: seq<nat>, msgs: seq<Result>): seq<Result>
    requires forall k :: 0 <= k < |order| ==> order[k] < |msgs|
  {
    if order == [] then [] else Keep(KeptIn(order[..|order| - 1], msgs), msgs[order[|order| - 1]])
  }

  /** Having read these rows, activation c can send m: the empty result when there are none
      or one of them discards; otherwise the node with these rows' columns and first kind,
      with the children's messages in any order. */
  ghost predicate SendsFrom(log: seq<Instruction>, c: Call, rows: seq<Instruction>, m: Result)
    decreases Height(c.q), Gap(c), 0
  {
    if rows == [] || exists i :: 0 <= i < |rows| && Discards(c.q, rows[i]) then m == EMPTY
    else
      SpawnsBelow(c, rows);
      exists msgs: seq<Result>, order ::
        && |msgs| == |Spawns(c, rows)| && Permutes(order, |msgs|)
        && (forall i :: 0 <= i < |msgs| ==> Below(Spawns(c, rows)[i], c) && Sends(log, Spawns(c, rows)[i], msgs[i]))
        && m == Result(rows[0].subjectId, rows[0].subjectType, Columns(rows), KeptIn(order, msgs))
  }

  ghost predicate Sends(log: seq<Instruction>, c: Call, m: Result)
    decreases Height(c.q), Gap(c), 1
  {
    exists rows :: IsFetch(log, c.q.id, rows) && SendsFrom(log, c, rows, m)
  }

  // ---------------------------------------------------------------- schedules of one activation

  /** The events es, one after the other, lead from a to b. */
  ghost predicate Steps(log: seq<Instruction>, a: Act, es: seq<Event>, b: Act)
    decreases |es|
  {
    if es == [] then a == b
    else Enabled(log, a, es[0]) && Steps(log, Apply(log, a, es[0]), es[1..], b)
  }

  lemma {:induction false} StepsOn(log: seq<Instruction>, a: Act, es: seq<Event>, b: Act, fs: seq<Event>, d: Act)
    requires Steps(log, a, es, b) && Steps(log, b, fs, d)
    ensures Steps(log, a, es + fs, d)
    decreases |es|
  {
    if es == [] {
      assert es + fs == fs;
    } else {
      assert (es + fs)[1..] == es[1..] + fs;
      hide Apply, Enabled;
      StepsOn(log, Apply(log, a, es[0]), es[1..], b, fs, d);
    }
  }

  lemma OneStep(log: seq<Instruction>, a: Act, e: Event)
    requires Enabled(log, a, e)
    ensures Steps(log, a, [e], Apply(log, a, e))
  {
    hide Apply, Enabled;
    assert [e][1..] == [];
    assert Steps(log, Apply(log, a, e), [], Apply(log, a, e));
  }

  function WithinAll(j: nat, es: seq<Event>): seq<Event> {
    seq(|es|, i requires 0 <= i < |es| => Within(j, es[i]))
  }

  /** What a child can do alone it can do inside its parent. */
  lemma {:induction false} StepsWithin(log: seq<Instruction>, a: Act, j: nat, es: seq<Event>, b: Act)
    requires j < |a.started| && Steps(log, a.started[j], es, b)
    ensures Steps(log, a, WithinAll(j, es), a.(started := a.started[j := b]))
    decreases |es|
  {
    if es == [] {
      assert a.started[j := b] == a.started;
    } else {
      var next := Apply(log, a, Within(j, es[0]));
      assert next.started[j] == Apply(log, a.started[j], es[0]);
      assert WithinAll(j, es)[1..] == WithinAll(j, es[1..]);
      assert next.(started := next.started[j := b]) == a.(started := a.started[j := b]);
      StepsWithin(log, next, j, es[1..], b);
    }
  }

  // ---------------------------------------------------------------- every outcome happens

  /** The activation after n rows that do not discard. */
  function Scanned(c: Call, rows: seq<Instruction>, n: nat): Act
    requires n <= |rows|
  {
    var calls := Spawns(c, rows[..n]);
    Act(c, Scanning, rows, n, Columns(rows[..n]), seq(|calls|, i requires 0 <= i < |calls| => Start(calls[i])), 0, [], 0)
  }

  lemma StartedMore(calls: seq<Call>, more: seq<Call>)
    ensures seq(|calls + more|, i requires 0 <= i < |calls + more| => Start((calls + more)[i])) ==
            seq(|calls|, i requires 0 <= i < |calls| => Start(calls[i])) +
            seq(|more|, i requires 0 <= i < |more| => Start(more[i]))
  {
  }

  lemma ScanNext(log: seq<Instruction>, c: Call, rows: seq<Instruction>, n: nat)
    requires SortedByTs(rows) && n < |rows| && !Discards(c.q, rows[n])
    ensures Enabled(log, Scanned(c, rows, n), ScanRow)
    ensures Apply(log, Scanned(c, rows, n), ScanRow) == Scanned(c, rows, n + 1)
  {
    RowStep(c, rows, n);
    AddNeverFatal(rows, n);
    StartedMore(Spawns(c, rows[..n]), SpawnFn(c)(rows[n]));
    hide Columns, Spawns, AddVersion, AddIsFatal;
  }

  lemma {:induction false} ScanTo(log: seq<Instruction>, c: Call, rows: seq<Instruction>, n: nat) returns (es: seq<Event>)
    requires IsFetch(log, c.q.id, rows) && rows != [] && n <= |rows|
    requires forall i :: 0 <= i < n ==> !Discards(c.q, rows[i])
    ensures Steps(log, Start(c), es, Scanned(c, rows, n))
  {
    if n == 0 {
      es := [Fetch(rows)];
      assert rows[..0] == [] && Columns([]) == map[] && Spawns(c, []) == [];
      assert Apply(log, Start(c), Fetch(rows)) == Scanned(c, rows, 0);
      OneStep(log, Start(c), Fetch(rows));
    } else {
      var before := ScanTo(log, c, rows, n - 1);
      ScanNext(log, c, rows, n - 1);
      OneStep(log, Scanned(c, rows, n - 1), ScanRow);
      StepsOn(log, Start(c), before, Scanned(c, rows, n - 1), [ScanRow], Scanned(c, rows, n));
      es := before + [ScanRow];
    }
  }

  lemma FirstDiscard(q: Plan, rows: seq<Instruction>) returns (n: nat)
    requires exists i :: 0 <= i < |rows| && Discards(q, rows[i])
    ensures n < |rows| && Discards(q, rows[n]) && forall i :: 0 <= i < n ==> !Discards(q, rows[i])
  {
    n := 0;
    while !Discards(q, rows[n])
      invariant n < |rows| && forall i :: 0 <= i < n ==> !Discards(q, rows[i])
      invariant exists i :: n <= i < |rows| && Discards(q, rows[i])
      decreases |rows| - n
    {
      n := n + 1;
    }
  }

  lemma SendsEmpty(log: seq<Instruction>, c: Call, rows: seq<Instruction>) returns (es: seq<Event>, b: Act)
    requires IsFetch(log, c.q.id, rows) && (rows == [] || exists i :: 0 <= i < |rows| && Discards(c.q, rows[i]))
    ensures Steps(log, Start(c), es, b) && b.phase == Sending(EMPTY)
  {
    if rows == [] {
      es, b := [Fetch(rows)], Apply(log, Start(c), Fetch(rows));
      OneStep(log, Start(c), Fetch(rows));
    } else {
      var n := FirstDiscard(c.q, rows);
      var before := ScanTo(log, c, rows, n);
      es, b := before + [ScanRow], Apply(log, Scanned(c, rows, n), ScanRow);
      OneStep(log, Scanned(c, rows, n), ScanRow);
      StepsOn(log, Start(c), before, Scanned(c, rows, n), [ScanRow], b);
    }
  }

  /** Activation a has received the children order[..k], who sent msgs; the others have not
      begun. */
  ghost predicate Received(a: Act, c: Call, rows: seq<Instruction>, msgs: seq<Result>, order: seq<nat>, k: nat) {
    && k <= |order| && Permutes(order, |msgs|) && |msgs| == |Spawns(c, rows)| == |a.started|
    && a == Scanned(c, rows, |rows|).(started := a.started, received := k, results := KeptIn(order[..k], msgs))
    && forall i :: 0 <= i < |msgs| && i !in order[..k] ==> a.started[i] == Start(Spawns(c, rows)[i])
  }

  lemma ReceivedNone(c: Call, rows: seq<Instruction>, msgs: seq<Result>, order: seq<nat>)
    requires |msgs| == |Spawns(c, rows)| && Permutes(order, |msgs|)
    ensures Received(Scanned(c, rows, |rows|), c, rows, msgs, order, 0)
  {
    assert rows[..|rows|] == rows;
    assert order[..0] == [];
  }

  lemma NextInOrder(order: seq<nat>, n: nat, k: nat)
    requires Permutes(order, n) && k < |order|
    ensures order[k] < n && order[k] !in order[..k]
    ensures forall i :: i !in order[..k + 1] ==> i !in order[..k] && i != order[k]
  {
    assert order[..k + 1] == order[..k] + [order[k]];
  }

  lemma KeptNext(order: seq<nat>, msgs: seq<Result>, k: nat)
    requires Permutes(order, |msgs|) && k < |order|
    ensures order[k] < |msgs| && KeptIn(order[..k + 1], msgs) == Keep(KeptIn(order[..k], msgs), msgs[order[k]])
  {
    assert order[..k + 1][..k] == order[..k];
  }

  /** The next child in order has sent its message, and the parent takes it. */
  lemma ReceiveNext(log: seq<Instruction>, a: Act, c: Call, rows: seq<Instruction>, msgs: seq<Result>, order: seq<nat>,
                    k: nat, b: Act)
    requires Received(a, c, rows, msgs, order, k) && k < |order| && order[k] < |msgs| && b.phase == Sending(msgs[order[k]])
    ensures order[k] < |a.started| && a.started[order[k]] == Start(Spawns(c, rows)[order[k]])
    ensures var ready := a.(started := a.started[order[k] := b]);
            && Enabled(log, ready, Receive(order[k]))
            && Received(Apply(log, ready, Receive(order[k])), c, rows, msgs, order, k + 1)
  {
    NextInOrder(order, |msgs|, k);
    KeptNext(order, msgs, k);
    hide KeptIn, Spawns, Columns, Keep, NoDuplicates;
    var j := order[k];
    var ready := a.(started := a.started[j := b]);
    assert ready.phase.Scanning? && ready.pos == |ready.rows| && ready.started[j] == b;
    var t := Apply(log, ready, Receive(j));
    assert t.started == a.started[j := Take(b)];
    assert t == a.(received := k + 1, results := KeptIn(order[..k + 1], msgs), started := t.started);
  }

  lemma {:induction false} ReceiveTo(log: seq<Instruction>, c: Call, rows: seq<Instruction>, msgs: seq<Result>,
                                     order: seq<nat>, k: nat) returns (es: seq<Event>, a: Act)
    requires IsFetch(log, c.q.id, rows) && rows != [] && forall i :: 0 <= i < |rows| ==> !Discards(c.q, rows[i])
    requires |msgs| == |Spawns(c, rows)| && Permutes(order, |msgs|) && k <= |order|
    requires forall i :: 0 <= i < |msgs| ==> Below(Spawns(c, rows)[i], c) && Sends(log, Spawns(c, rows)[i], msgs[i])
    ensures Steps(log, Start(c), es, a) && Received(a, c, rows, msgs, order, k)
    decreases Height(c.q), Gap(c), 0, k
  {
    if k == 0 {
      es := ScanTo(log, c, rows, |rows|);
      a := Scanned(c, rows, |rows|);
      ReceivedNone(c, rows, msgs, order);
    } else {
      var before, mid := ReceiveTo(log, c, rows, msgs, order, k - 1);
      var j := order[k - 1];
      var x := Spawns(c, rows)[j];
      assert Below(x, c);
      var kid, b := CanSend(log, x, msgs[j]);
      ReceiveNext(log, mid, c, rows, msgs, order, k - 1, b);
      hide *;
      StepsWithin(log, mid, j, kid, b);
      var ready := mid.(started := mid.started[j := b]);
      StepsOn(log, Start(c), before, mid, WithinAll(j, kid), ready);
      a := Apply(log, ready, Receive(j));
      OneStep(log, ready, Receive(j));
      StepsOn(log, Start(c), before + WithinAll(j, kid), ready, [Receive(j)], a);
      es := before + WithinAll(j, kid) + [Receive(j)];
    }
  }

  lemma FinishNext(log: seq<Instruction>, a: Act, c: Call, rows: seq<Instruction>, msgs: seq<Result>, order: seq<nat>)
    requires rows != [] && Received(a, c, rows, msgs, order, |order|)
    ensures Enabled(log, a, Finish)
    ensures Apply(log, a, Finish).phase ==
              Sending(Result(rows[0].subjectId, rows[0].subjectType, Columns(rows), KeptIn(order, msgs)))
  {
    assert order[..|order|] == order && rows[..|rows|] == rows;
  }

  /** Whatever the activation can send by the rules above, some schedule has it send. */
  lemma {:induction false} CanSend(log: seq<Instruction>, c: Call, m: Result) returns (es: seq<Event>, b: Act)
    requires Sends(log, c, m)
    ensures Steps(log, Start(c), es, b) && b.phase == Sending(m)
    decreases Height(c.q), Gap(c), 1
  {
    var rows :| IsFetch(log, c.q.id, rows) && SendsFrom(log, c, rows, m);
    if rows == [] || exists i :: 0 <= i < |rows| && Discards(c.q, rows[i]) {
      es, b := SendsEmpty(log, c, rows);
    } else {
      var msgs, order := Parts(log, c, rows, m);
      var before, a := ReceiveTo(log, c, rows, msgs, order, |order|);
      hide Steps, Enabled, Apply;
      FinishNext(log, a, c, rows, msgs, order);
      OneStep(log, a, Finish);
      b := Apply(log, a, Finish);
      StepsOn(log, Start(c), before, a, [Finish], b);
      es := before + [Finish];
    }
  }

  lemma Parts(log: seq<Instruction>, c: Call, rows: seq<Instruction>, m: Result) returns (msgs: seq<Result>, order: seq<nat>)
    requires SendsFrom(log, c, rows, m) && rows != [] && forall i :: 0 <= i < |rows| ==> !Discards(c.q, rows[i])
    ensures |msgs| == |Spawns(c, rows)| && Permutes(order, |msgs|)
    ensures forall i :: 0 <= i < |msgs| ==> Below(Spawns(c, rows)[i], c) && Sends(log, Spawns(c, rows)[i], msgs[i])
    ensures m == Result(rows[0].subjectId, rows[0].subjectType, Columns(rows), KeptIn(order, msgs))
  {
    msgs, order :|
        && |msgs| == |Spawns(c, rows)| && Permutes(order, |msgs|)
        && (forall i :: 0 <= i < |msgs| ==> Below(Spawns(c, rows)[i], c) && Sends(log, Spawns(c, rows)[i], msgs[i]))
        && m == Result(rows[0].subjectId, rows[0].subjectType, Columns(rows), KeptIn(order, msgs));
  }

  // ---------------------------------------------------------------- nothing else happens

  /** The message of each child that has sent one. */
  function Msgs(started: seq<Act>): seq<Result> {
    seq(|started|, i requires 0 <= i < |started| => if started[i].phase.Sent? then started[i].phase.msg else EMPTY)
  }

  /** The children received so far, in this order, and what was kept of their messages. */
  ghost predicate TakenIn(a: Act, order: seq<nat>) {
    && |order| == a.received && NoDuplicates(order)
    && (forall k :: 0 <= k < |order| ==> order[k] < |a.started| && a.started[order[k]].phase.Sent?)
    && a.results == KeptIn(order, Msgs(a.started))
  }

  ghost predicate Tracked(log: seq<Instruction>, a: Act)
    decreases a
  {
    && (forall k :: k in a.started ==> Tracked(log, k))
    && match a.phase
       case Scanning => exists order :: TakenIn(a, order)
       case Sending(m) => Sends(log, a.call, m)
       case Sent(m) => Sends(log, a.call, m)
       case _ => true
  }

  lemma {:induction false} KeptSame(order: seq<nat>, msgs: seq<Result>, more: seq<Result>)
    requires forall k :: 0 <= k < |order| ==> order[k] < |msgs| && order[k] < |more| && msgs[order[k]] == more[order[k]]
    ensures KeptIn(order, msgs) == KeptIn(order, more)
  {
    if order != [] {
      KeptSame(order[..|order| - 1], msgs, more);
    }
  }

  /** Children change, but not those that have been received. */
  lemma StillTaken(a: Act, b: Act, order: seq<nat>)
    requires TakenIn(a, order) && b.received == a.received && b.results == a.results && |a.started| <= |b.started|
    requires forall i :: 0 <= i < |a.started| && a.started[i].phase.Sent? ==> b.started[i].phase == a.started[i].phase
    ensures TakenIn(b, order)
  {
    hide NoDuplicates;
    KeptSame(order, Msgs(a.started), Msgs(b.started));
  }

  lemma FetchTracked(log: seq<Instruction>, a: Act, rows: seq<Instruction>)
    requires a == Start(a.call) && IsFetch(log, a.call.q.id, rows)
    ensures Tracked(log, Apply(log, a, Fetch(rows)))
  {
    var b := Apply(log, a, Fetch(rows));
    if rows == [] {
      assert SendsFrom(log, a.call, rows, EMPTY);
    } else {
      assert TakenIn(b, []);
    }
  }

  lemma ScanTracked(log: seq<Instruction>, a: Act)
    requires Inv(log, a) && Tracked(log, a) && a.phase.Scanning? && a.pos < |a.rows|
    ensures Tracked(log, Scan(a))
  {
    RowsRead(log, a);
    hide Inv;
    var b := Scan(a);
    if Discards(a.call.q, a.rows[a.pos]) {
      DiscardedSent(log, a.call, a.rows, a.pos);
      hide Sends, Discards, IsFetch;
      assert b == a.(phase := Sending(EMPTY));
    } else if b.phase.Scanning? {
      ScanMoves(a);
      hide *;
      PassedTracked(log, a, b);
    }
  }

  lemma RowsRead(log: seq<Instruction>, a: Act)
    requires Inv(log, a) && a.phase.Scanning?
    ensures IsFetch(log, a.call.q.id, a.rows)
  {
  }

  /** A row has been passed and may have started a child. */
  lemma PassedTracked(log: seq<Instruction>, a: Act, b: Act)
    requires Tracked(log, a) && a.phase.Scanning? && b.phase.Scanning?
    requires b.received == a.received && b.results == a.results
    requires b.started == a.started || exists x :: b.started == a.started + [Start(x)]
    ensures Tracked(log, b)
  {
    var order :| TakenIn(a, order);
    hide TakenIn;
    StillTaken(a, b, order);
    forall k | k in b.started
      ensures Tracked(log, k)
    {
      if k !in a.started {
        assert k.phase.Ready? && k.started == [];
      }
    }
    TrackedIs(log, b);
  }

  lemma DiscardedSent(log: seq<Instruction>, c: Call, rows: seq<Instruction>, i: nat)
    requires IsFetch(log, c.q.id, rows) && i < |rows| && Discards(c.q, rows[i])
    ensures Sends(log, c, EMPTY)
  {
    assert SendsFrom(log, c, rows, EMPTY);
  }

  lemma ReceiveTracked(log: seq<Instruction>, a: Act, j: nat)
    requires Tracked(log, a) && Enabled(log, a, Receive(j))
    ensures Tracked(log, Apply(log, a, Receive(j)))
  {
    var b := Apply(log, a, Receive(j));
    var order :| TakenIn(a, order);
    assert Tracked(log, a.started[j]) && Tracked(log, Take(a.started[j]));
    hide Tracked, Sends, TakenIn;
    TakenMore(a, b, order, j);
    KidReplaced(log, a.started, j, b.started[j]);
    TrackedIs(log, b);
  }

  lemma TakenMore(a: Act, b: Act, order: seq<nat>, j: nat)
    requires TakenIn(a, order) && j < |a.started| && a.started[j].phase.Sending?
    requires b.started == a.started[j := Take(a.started[j])]
    requires b.received == a.received + 1 && b.results == Keep(a.results, a.started[j].phase.msg)
    ensures TakenIn(b, order + [j])
  {
    assert j !in order;
    assert (order + [j])[..|order|] == order;
    KeptSame(order, Msgs(a.started), Msgs(b.started));
  }

  lemma TrackedIs(log: seq<Instruction>, a: Act)
    requires a.phase.Scanning? && (exists order :: TakenIn(a, order)) && forall k :: k in a.started ==> Tracked(log, k)
    ensures Tracked(log, a)
  {
  }

  lemma KidReplaced(log: seq<Instruction>, s: seq<Act>, j: nat, x: Act)
    requires j < |s|
    ensures Tracked(log, x) && (forall k :: k in s ==> Tracked(log, k)) ==> forall k :: k in s[j := x] ==> Tracked(log, k)
  {
    hide Tracked;
    assert forall k :: k in s[j := x] ==> k == x || k in s;
  }

  /** Everybody has been received, so the order is one of all children. */
  lemma FinishTracked(log: seq<Instruction>, a: Act)
    requires Inv(log, a) && Tracked(log, a) && Enabled(log, a, Finish)
    ensures Tracked(log, Apply(log, a, Finish))
  {
    var order :| TakenIn(a, order);
    AllSent(a.started);
    assert a.rows[..a.pos] == a.rows;
    SpawnsBelow(a.call, a.rows);
    var msgs := Msgs(a.started);
    var m := Result(a.rows[0].subjectId, a.rows[0].subjectType, a.cols, a.results);
    forall i | 0 <= i < |msgs|
      ensures Below(Spawns(a.call, a.rows)[i], a.call) && Sends(log, Spawns(a.call, a.rows)[i], msgs[i])
    {
      assert a.started[i] in a.started && Tracked(log, a.started[i]);
      assert Calls(a.started)[i] == a.started[i].call;
      assert Spawns(a.call, a.rows)[i] in Spawns(a.call, a.rows);
    }
    assert |a.started| == |Calls(a.started)| == |Spawns(a.call, a.rows)|;
    assert Permutes(order, |msgs|);
    NodeSent(log, a.call, a.rows, msgs, order, m);
  }

  lemma NodeSent(log: seq<Instruction>, c: Call, rows: seq<Instruction>, msgs: seq<Result>, order: seq<nat>, m: Result)
    requires IsFetch(log, c.q.id, rows) && rows != [] && forall i :: 0 <= i < |rows| ==> !Discards(c.q, rows[i])
    requires |msgs| == |Spawns(c, rows)| && Permutes(order, |msgs|)
    requires forall i :: 0 <= i < |msgs| ==> Below(Spawns(c, rows)[i], c) && Sends(log, Spawns(c, rows)[i], msgs[i])
    requires m == Result(rows[0].subjectId, rows[0].subjectType, Columns(rows), KeptIn(order, msgs))
    ensures Sends(log, c, m)
  {
    assert SendsFrom(log, c, rows, m);
  }

  lemma WithinTracked(log: seq<Instruction>, a: Act, j: nat, e: Event)
    requires Tracked(log, a) && Enabled(log, a, Within(j, e)) && Tracked(log, Apply(log, a.started[j], e))
    ensures Tracked(log, Apply(log, a, Within(j, e)))
  {
    var b := Apply(log, a, Within(j, e));
    StepFacts(log, a.started[j], e);
    KidReplaced(log, a.started, j, b.started[j]);
    if a.phase.Scanning? {
      var order :| TakenIn(a, order);
      StillTaken(a, b, order);
    }
  }

  lemma {:induction false} StepTracked(log: seq<Instruction>, a: Act, ev: Event)
    requires Inv(log, a) && Tracked(log, a) && Enabled(log, a, ev)
    ensures Tracked(log, Apply(log, a, ev))
    decreases ev
  {
    match ev
    case Fetch(rows) => FetchTracked(log, a, rows);
    case ScanRow => ScanTracked(log, a);
    case Receive(j) => ReceiveTracked(log, a, j);
    case Finish => FinishTracked(log, a);
    case Within(j, e) => {
      assert Inv(log, a.started[j]) && Tracked(log, a.started[j]);
      StepTracked(log, a.started[j], e);
      WithinTracked(log, a, j, e);
    }
  }

  // ---------------------------------------------------------------- whole runs

  lemma {:induction false} ReachesTracked(log: seq<Instruction>, q: Plan, ms: seq<Move>, s: System)
    requires NamedKinds(log) && Reaches(log, q, ms, s)
    ensures Tracked(log, s.root)
    decreases |ms|
  {
    if ms != [] {
      var mid :| Leads(log, mid, Last(ms), s) && Reaches(log, q, Init(ms), mid);
      hide Tracked, Reaches, Enabled, Apply, Inv;
      ReachesTracked(log, q, Init(ms), mid);
      ReachesInv(log, q, Init(ms), mid);
      match Last(ms)
      case Inside(e) => StepTracked(log, mid.root, e);
      case Deliver => TakeTracked(log, mid.root);
    }
  }

  lemma TakeTracked(log: seq<Instruction>, a: Act)
    requires Tracked(log, a) && a.phase.Sending?
    ensures Tracked(log, Take(a))
  {
  }

  function InsideAll(es: seq<Event>): seq<Move> {
    seq(|es|, i requires 0 <= i < |es| => Inside(es[i]))
  }

  lemma OneMove(log: seq<Instruction>, q: Plan, ms: seq<Move>, s: System, m: Move)
    requires Reaches(log, q, ms, s) && CanMove(log, s, m)
    ensures Reaches(log, q, ms + [m], Do(log, s, m))
  {
    assert Init(ms + [m]) == ms && Leads(log, s, m, Do(log, s, m));
  }

  lemma FirstStep(log: seq<Instruction>, a: Act, es: seq<Event>, b: Act)
    requires Steps(log, a, es, b) && es != []
    ensures Enabled(log, a, es[0]) && Steps(log, Apply(log, a, es[0]), es[1..], b)
  {
  }

  lemma InsideMore(ms: seq<Move>, es: seq<Event>)
    requires es != []
    ensures ms + [Inside(es[0])] + InsideAll(es[1..]) == ms + InsideAll(es)
  {
  }

  lemma NoneInside(ms: seq<Move>)
    ensures ms + InsideAll([]) == ms
  {
  }

  lemma {:induction false} RunSteps(log: seq<Instruction>, q: Plan, ms: seq<Move>, a: Act, es: seq<Event>, b: Act)
    requires Reaches(log, q, ms, System(a, None)) && Steps(log, a, es, b)
    ensures Reaches(log, q, ms + InsideAll(es), System(b, None))
    decreases |es|
  {
    if es == [] {
      NoneInside(ms);
    } else {
      FirstStep(log, a, es, b);
      hide Steps, Reaches, Enabled, Apply, InsideAll;
      var m := Inside(es[0]);
      OneMove(log, q, ms, System(a, None), m);
      RunSteps(log, q, ms + [m], Apply(log, a, es[0]), es[1..], b);
      InsideMore(ms, es);
    }
  }

  /** Some interleaving of the goroutines has Run receive m. */
  ghost predicate CanReceive(log: seq<Instruction>, q: Plan, m: Result) {
    exists ms, s :: Reaches(log, q, ms, s) && s.got == Some(m)
  }

  /** What Run can receive is exactly what the rules of Sends allow: any timestamp order of
      the rows of every entity, independently of each other, and any order of the children
      of every node; nothing more, and nothing less. */
  lemma OutcomesAre(log: seq<Instruction>, q: Plan, m: Result)
    requires NamedKinds(log)
    ensures CanReceive(log, q, m) <==> Sends(log, RootCall(q), m)
  {
    hide Sends, Tracked;
    if ms, s :| Reaches(log, q, ms, s) && s.got == Some(m) {
      ReachesTracked(log, q, ms, s);
      ReachesInv(log, q, ms, s);
      RootSent(log, q, s);
    }
    if Sends(log, RootCall(q), m) {
      var es, b := CanSend(log, RootCall(q), m);
      RunSteps(log, q, [], Start(RootCall(q)), es, b);
      var s := System(b, None);
      var ms := [] + InsideAll(es);
      OneMove(log, q, ms, s, Deliver);
    }
  }

  lemma RootSent(log: seq<Instruction>, q: Plan, s: System)
    requires SystemInv(log, q, s) && Tracked(log, s.root) && s.got.Some?
    ensures Sends(log, RootCall(q), s.got.value)
  {
  }

  /** So every such outcome is right. */
  lemma OutcomesDeliver(log: seq<Instruction>, q: Plan, m: Result)
    requires NamedKinds(log) && Sends(log, RootCall(q), m)
    ensures Delivers(log, RootCall(q), m)
  {
    OutcomesAre(log, q, m);
    var ms, s :| Reaches(log, q, ms, s) && s.got == Some(m);
    ScheduleIndependence(log, q, ms, s);
  }
}
