/** Every interleaving of the doRun goroutines gives the same answer, none of them gets
    stuck, and all of them are finite. */
module QuerySchedule {
  import opened Seqs
  import opened Types
  import opened QueryModel
  import opened QueryRun

  // ---------------------------------------------------------------- columns

  lemma PropertyNamesStep(rows: seq<Instruction>, r: Instruction)
    ensures PropertyNames(rows + [r]) == PropertyNames(rows) + if IsProperty(r) then {r.pred} else {}
  {
    forall x | x in rows
      ensures x in rows + [r]
    {
    }
    assert r in rows + [r];
  }

  lemma VersionsStep(rows: seq<Instruction>, r: Instruction, p: string)
    ensures VersionsOf(rows + [r], p) == VersionsOf(rows, p) + VersionFn(p)(r)
  {
    assert (rows + [r])[..|rows|] == rows;
  }

  lemma ColumnsAre(rows: seq<Instruction>, m: map<string, seq<Object>>)
    requires m.Keys == PropertyNames(rows)
    requires forall p :: p in m ==> m[p] == VersionsOf(rows, p)
    ensures Columns(rows) == m
  {
  }

  lemma ColumnsStep(rows: seq<Instruction>, r: Instruction)
    ensures Columns(rows + [r]) ==
            if IsProperty(r) then AddVersion(Columns(rows), r.pred, ObjectOf(r)) else Columns(rows)
  {
    var before := Columns(rows);
    var want := if IsProperty(r) then AddVersion(before, r.pred, ObjectOf(r)) else before;
    PropertyNamesStep(rows, r);
    forall p | p in want
      ensures want[p] == VersionsOf(rows + [r], p)
    {
      VersionsStep(rows, r, p);
      if p !in before {
        NoVersions(rows, p);
      }
    }
    ColumnsAre(rows + [r], want);
  }

  lemma {:induction false} NoVersions(rows: seq<Instruction>, p: string)
    requires p !in PropertyNames(rows)
    ensures VersionsOf(rows, p) == []
  {
    if rows != [] {
      var n := |rows| - 1;
      assert rows == rows[..n] + [rows[n]];
      PropertyNamesStep(rows[..n], rows[n]);
      NoVersions(rows[..n], p);
    }
  }

  /** Rows in time order give columns in time order. */
  lemma {:induction false} VersionsAscend(rows: seq<Instruction>, p: string)
    requires SortedByTs(rows)
    ensures Ascending(VersionsOf(rows, p))
    ensures forall o :: o in VersionsOf(rows, p) ==> o.nanoTs <= rows[|rows| - 1].nanoTs
  {
    if rows != [] {
      var n := |rows| - 1;
      VersionsAscend(rows[..n], p);
      var short := VersionsOf(rows[..n], p);
      forall i | 0 <= i < |short|
        ensures short[i].nanoTs <= rows[n].nanoTs
      {
        assert short[i] in short;
      }
    }
  }

  /** The fatal branch of Versions.add cannot be taken on sorted rows. */
  lemma AddNeverFatal(rows: seq<Instruction>, pos: nat)
    requires SortedByTs(rows) && pos < |rows|
    ensures !AddIsFatal(Columns(rows[..pos]), rows[pos].pred, ObjectOf(rows[pos]))
  {
    var p := rows[pos].pred;
    VersionsAscend(rows[..pos], p);
    var vs := VersionsOf(rows[..pos], p);
    if p in Columns(rows[..pos]) && vs != [] {
      assert vs[|vs| - 1] in vs;
    }
  }

  lemma ColumnsReordered(a: seq<Instruction>, b: seq<Instruction>)
    requires multiset(a) == multiset(b)
    ensures Columns(a).Keys == Columns(b).Keys
    ensures forall p :: p in Columns(a) ==> multiset(Columns(a)[p]) == multiset(Columns(b)[p])
  {
    forall x
      ensures x in a <==> x in b
    {
      PermMember(a, b, x);
    }
    forall p
      ensures multiset(VersionsOf(a, p)) == multiset(VersionsOf(b, p))
    {
      FlatMapPerm(VersionFn(p), a, b);
    }
  }

  // ---------------------------------------------------------------- children

  lemma SpawnsStep(c: Call, rows: seq<Instruction>, r: Instruction)
    ensures Spawns(c, rows + [r]) == Spawns(c, rows) + SpawnFn(c)(r)
  {
    assert (rows + [r])[..|rows|] == rows;
  }

  lemma {:induction false} AllSent(s: seq<Act>)
    ensures Sum(SentFn(), s) <= |s|
    ensures Sum(SentFn(), s) == |s| <==> forall k :: k in s ==> k.phase.Sent?
  {
    if s != [] {
      var n := |s| - 1;
      assert s == s[..n] + [s[n]];
      AllSent(s[..n]);
    }
  }

  lemma ShareIsAnswer(log: seq<Instruction>, c: Call)
    ensures CanonAll(AnswerFn(log)(c)) == Share(log, c)
  {
    if Answer(log, c).Some? {
      CanonAllOne(Answer(log, c).value);
    }
  }

  lemma {:induction false} AllShares(log: seq<Instruction>, s: seq<Act>)
    requires forall k :: k in s ==> k.phase.Sent?
    ensures MSum(ShareFn(log), s) == CanonAll(FlatMap(AnswerFn(log), Calls(s)))
  {
    if s != [] {
      var n := |s| - 1;
      AllShares(log, s[..n]);
      assert Calls(s)[..n] == Calls(s[..n]);
      assert s[n] in s;
      ShareIsAnswer(log, s[n].call);
      CanonAllAppend(FlatMap(AnswerFn(log), Calls(s[..n])), AnswerFn(log)(s[n].call));
    }
  }

  // ---------------------------------------------------------------- the answer of one activation

  lemma RowsFacts(log: seq<Instruction>, id: string, rows: seq<Instruction>)
    requires IsFetch(log, id, rows)
    ensures forall r :: r in rows <==> r in log && r.subjectId == id
    ensures rows == [] <==> RowsOf(log, id) == []
  {
    forall r
      ensures r in rows <==> r in log && r.subjectId == id
    {
      PermMember(rows, RowsOf(log, id), r);
      RowsOfMember(log, id, r);
    }
    if rows == [] {
      assert |multiset(RowsOf(log, id))| == 0;
    }
    if RowsOf(log, id) == [] {
      assert |multiset(rows)| == 0;
    }
  }

  /** Whether an entity is discarded does not depend on the order of its rows. */
  lemma VisibleAnyOrder(log: seq<Instruction>, q: Plan, rows: seq<Instruction>)
    requires IsFetch(log, q.id, rows)
    ensures Visible(q, RowsOf(log, q.id)) <==> rows != [] && forall i :: 0 <= i < |rows| ==> !Discards(q, rows[i])
  {
    RowsFacts(log, q.id, rows);
    RowsOfAll(log, q.id);
    if rows != [] && forall i :: 0 <= i < |rows| ==> !Discards(q, rows[i]) {
      forall r | r in RowsOf(log, q.id)
        ensures !Discards(q, r)
      {
        assert r in rows;
      }
    }
    if Visible(q, RowsOf(log, q.id)) {
      forall i | 0 <= i < |rows|
        ensures !Discards(q, rows[i])
      {
        assert rows[i] in rows;
      }
    }
  }

  lemma AnswersReordered(log: seq<Instruction>, c: Call, a: seq<Instruction>, b: seq<Instruction>)
    requires multiset(a) == multiset(b)
    ensures CanonAll(FlatMap(AnswerFn(log), Spawns(c, a))) == CanonAll(FlatMap(AnswerFn(log), Spawns(c, b)))
  {
    FlatMapPerm(SpawnFn(c), a, b);
    FlatMapPerm(AnswerFn(log), Spawns(c, a), Spawns(c, b));
    CanonAllReordered(FlatMap(AnswerFn(log), Spawns(c, a)), FlatMap(AnswerFn(log), Spawns(c, b)));
  }

  lemma AnsweredKids(log: seq<Instruction>, a: Act)
    requires ScanInv(log, a) && a.pos == |a.rows| && a.received >= |a.started|
    ensures a.received == |a.started| && forall k :: k in a.started ==> k.phase.Sent?
    ensures CanonAll(a.results) ==
            CanonAll(FlatMap(AnswerFn(log), Spawns(a.call, RowsOf(log, a.call.q.id))))
  {
    AllSent(a.started);
    AllShares(log, a.started);
    assert a.rows[..a.pos] == a.rows;
    AnswersReordered(log, a.call, a.rows, RowsOf(log, a.call.q.id));
  }

  lemma SameCanon(m: Result, t: Result)
    requires m.id == t.id && m.cols.Keys == t.cols.Keys && CanonAll(m.kids) == CanonAll(t.kids)
    requires forall p :: p in m.cols ==> multiset(m.cols[p]) == multiset(t.cols[p])
    ensures CanonOf(m) == CanonOf(t)
  {
    var mc := map p | p in m.cols :: multiset(m.cols[p]);
    var tc := map p | p in t.cols :: multiset(t.cols[p]);
    assert mc == tc;
  }

  /** Rows seen in some order, none of them discarding, and the children's answers make the
      answer. */
  lemma AnsweredIsRight(log: seq<Instruction>, c: Call, seen: seq<Instruction>, results: seq<Result>)
    requires NamedKinds(log) && IsFetch(log, c.q.id, seen) && seen != []
    requires forall i :: 0 <= i < |seen| ==> !Discards(c.q, seen[i])
    requires CanonAll(results) == CanonAll(FlatMap(AnswerFn(log), Spawns(c, RowsOf(log, c.q.id))))
    requires forall r :: r in results ==> Faithful(log, r)
    ensures Delivers(log, c, Result(seen[0].subjectId, seen[0].subjectType, Columns(seen), results))
  {
    var rows := RowsOf(log, c.q.id);
    var m := Result(seen[0].subjectId, seen[0].subjectType, Columns(seen), results);
    RowsFacts(log, c.q.id, seen);
    VisibleAnyOrder(log, c.q, seen);
    AnswerUnfold(log, c);
    ColumnsReordered(seen, rows);
    assert seen[0] in seen;
    AnsweredIsFaithful(log, c.q.id, seen, m);
    SameCanon(m, Answer(log, c).value);
  }

  lemma AnsweredIsFaithful(log: seq<Instruction>, id: string, seen: seq<Instruction>, m: Result)
    requires IsFetch(log, id, seen) && seen != [] && forall r :: r in m.kids ==> Faithful(log, r)
    requires m == Result(seen[0].subjectId, seen[0].subjectType, Columns(seen), m.kids)
    ensures Faithful(log, m)
  {
    RowsFacts(log, id, seen);
    forall p | p in m.cols
      ensures Ascending(m.cols[p])
    {
      VersionsAscend(seen, p);
    }
    var e := seen[0];
    assert e in seen;
    forall x | x in log && x.subjectId == m.id
      ensures e.nanoTs <= x.nanoTs
    {
      assert x in seen;
    }
  }

  lemma FinishIsRight(log: seq<Instruction>, a: Act)
    requires NamedKinds(log)
    requires ScanInv(log, a) && a.pos == |a.rows| && a.received >= |a.started|
    ensures Delivers(log, a.call, Result(a.rows[0].subjectId, a.rows[0].subjectType, a.cols, a.results))
  {
    AnsweredKids(log, a);
    assert a.rows[..a.pos] == a.rows;
    AnsweredIsRight(log, a.call, a.rows, a.results);
  }

  // ---------------------------------------------------------------- every step keeps the invariant

  lemma TallyStarts(log: seq<Instruction>, started: seq<Act>, received: nat, results: seq<Result>, c: Call)
    requires Tally(log, started, received, results)
    ensures Tally(log, started + [Start(c)], received, results)
    ensures Calls(started + [Start(c)]) == Calls(started) + [c]
  {
    assert (started + [Start(c)])[..|started|] == started;
  }

  /** One more row handled, given what it does to the columns and the children. */
  lemma Advance(log: seq<Instruction>, a: Act, b: Act)
    requires ScanInv(log, a) && a.pos < |a.rows| && !Discards(a.call.q, a.rows[a.pos])
    requires b == a.(pos := a.pos + 1, cols := b.cols, started := b.started)
    requires b.cols == Columns(a.rows[..a.pos + 1])
    requires Calls(b.started) == Spawns(a.call, a.rows[..a.pos + 1])
    requires Tally(log, b.started, a.received, a.results)
    ensures ScanInv(log, b)
  {
    hide Columns, Spawns, Tally, Calls, IsFetch, Discards;
  }

  lemma ScanSkips(log: seq<Instruction>, a: Act)
    requires ScanInv(log, a) && a.phase.Scanning? && a.pos < |a.rows|
    requires !Discards(a.call.q, a.rows[a.pos]) && !IsProperty(a.rows[a.pos])
    ensures ScanInv(log, Scan(a)) && Scan(a).phase.Scanning?
  {
    var r := a.rows[a.pos];
    RowStep(a.call, a.rows, a.pos);
    if SpawnOf(a.call, r).Some? {
      TallyStarts(log, a.started, a.received, a.results, SpawnOf(a.call, r).value);
    }
    Advance(log, a, Scan(a));
  }

  lemma RowStep(c: Call, rows: seq<Instruction>, pos: nat)
    requires pos < |rows|
    ensures Columns(rows[..pos + 1]) ==
            if IsProperty(rows[pos]) then AddVersion(Columns(rows[..pos]), rows[pos].pred, ObjectOf(rows[pos]))
            else Columns(rows[..pos])
    ensures Spawns(c, rows[..pos + 1]) == Spawns(c, rows[..pos]) + SpawnFn(c)(rows[pos])
  {
    assert rows[..pos + 1] == rows[..pos] + [rows[pos]];
    ColumnsStep(rows[..pos], rows[pos]);
    SpawnsStep(c, rows[..pos], rows[pos]);
  }

  lemma ScanAdds(log: seq<Instruction>, a: Act)
    requires ScanInv(log, a) && a.phase.Scanning? && a.pos < |a.rows|
    requires !Discards(a.call.q, a.rows[a.pos]) && IsProperty(a.rows[a.pos])
    ensures ScanInv(log, Scan(a)) && Scan(a).phase.Scanning?
  {
    RowStep(a.call, a.rows, a.pos);
    AddNeverFatal(a.rows, a.pos);
    Advance(log, a, Scan(a));
  }

  lemma KidStarted(log: seq<Instruction>, s: seq<Act>, c: Call)
    requires forall k :: k in s ==> Inv(log, k)
    ensures forall k :: k in s + [Start(c)] ==> Inv(log, k)
  {
  }

  lemma ScanDiscards(log: seq<Instruction>, a: Act)
    requires ScanInv(log, a) && a.pos < |a.rows| && Discards(a.call.q, a.rows[a.pos])
    ensures SendInv(log, Scan(a), EMPTY)
  {
    VisibleAnyOrder(log, a.call.q, a.rows);
  }

  lemma ScanKeeps(log: seq<Instruction>, a: Act)
    requires Inv(log, a) && a.phase.Scanning? && a.pos < |a.rows|
    ensures Inv(log, Scan(a))
  {
    var r := a.rows[a.pos];
    if Discards(a.call.q, r) {
      ScanDiscards(log, a);
    } else if IsProperty(r) {
      ScanAdds(log, a);
    } else {
      ScanSkips(log, a);
      if SpawnOf(a.call, r).Some? {
        KidStarted(log, a.started, SpawnOf(a.call, r).value);
      }
    }
  }

  lemma FetchKeeps(log: seq<Instruction>, a: Act, rows: seq<Instruction>)
    requires a == Start(a.call) && IsFetch(log, a.call.q.id, rows)
    ensures Inv(log, Apply(log, a, Fetch(rows)))
  {
    VisibleAnyOrder(log, a.call.q, rows);
    assert rows[..0] == [];
    assert Calls([]) == [];
  }

  /** The children of a row have named entities to look up. */
  lemma SpawnIds(c: Call, rows: seq<Instruction>)
    ensures forall x :: x in Spawns(c, rows) ==> x.q.id != ""
  {
    forall x | x in Spawns(c, rows)
      ensures x.q.id != ""
    {
      FlatMapMember(SpawnFn(c), rows, x);
    }
  }

  lemma DeliveredShare(log: seq<Instruction>, c: Call, m: Result)
    requires Delivers(log, c, m) && c.q.id != ""
    ensures CanonAll(Keep([], m)) == Share(log, c)
    ensures forall r :: r in Keep([], m) ==> Faithful(log, r)
  {
    if Keep([], m) != [] {
      assert Keep([], m) == [m];
      CanonAllOne(m);
    }
  }

  lemma TallyReceives(log: seq<Instruction>, started: seq<Act>, received: nat, results: seq<Result>, j: nat)
    requires Tally(log, started, received, results)
    requires j < |started| && started[j].phase.Sending? && started[j].call.q.id != ""
    requires Delivers(log, started[j].call, started[j].phase.msg)
    ensures Tally(log, started[j := Take(started[j])], received + 1, Keep(results, started[j].phase.msg))
  {
    var m := started[j].phase.msg;
    SumUpdate(SentFn(), started, j, Take(started[j]));
    MSumGains(ShareFn(log), started, j, Take(started[j]));
    DeliveredShare(log, started[j].call, m);
    KeptShare(results, m);
  }

  lemma KeptShare(results: seq<Result>, m: Result)
    ensures CanonAll(Keep(results, m)) == CanonAll(results) + CanonAll(Keep([], m))
    ensures forall r :: r in Keep(results, m) ==> r in results || r in Keep([], m)
  {
    var kept := Keep([], m);
    assert Keep(results, m) == results + kept;
    CanonAllAppend(results, kept);
  }

  lemma SameCalls(s: seq<Act>, j: nat, x: Act)
    requires j < |s| && x.call == s[j].call
    ensures Calls(s[j := x]) == Calls(s)
  {
  }

  lemma ReceiveAdds(log: seq<Instruction>, a: Act, j: nat)
    requires ScanInv(log, a) && Enabled(log, a, Receive(j))
    requires Delivers(log, a.started[j].call, a.started[j].phase.msg)
    ensures ScanInv(log, Apply(log, a, Receive(j)))
  {
    var b := Apply(log, a, Receive(j));
    SameCalls(a.started, j, b.started[j]);
    SpawnIds(a.call, a.rows[..a.pos]);
    assert Calls(a.started)[j] == a.started[j].call;
    TallyReceives(log, a.started, a.received, a.results, j);
  }

  lemma ReceiveKeeps(log: seq<Instruction>, a: Act, j: nat)
    requires Inv(log, a) && Enabled(log, a, Receive(j))
    ensures Inv(log, Apply(log, a, Receive(j)))
  {
    var b := Apply(log, a, Receive(j));
    assert Inv(log, a.started[j]);
    assert Inv(log, b.started[j]);
    ReceiveAdds(log, a, j);
    KidsReplaced(log, a.started, j, b.started[j]);
  }

  lemma KidsReplaced(log: seq<Instruction>, s: seq<Act>, j: nat, x: Act)
    requires j < |s| && Inv(log, x) && forall k :: k in s ==> Inv(log, k)
    ensures forall k :: k in s[j := x] ==> Inv(log, k)
  {
    forall k | k in s[j := x]
      ensures Inv(log, k)
    {
      if k != x {
        assert k in s;
      }
    }
  }

  lemma WithinLocal(log: seq<Instruction>, a: Act, j: nat, x: Act)
    requires ScanInv(log, a) && j < |a.started|
    requires x.call == a.started[j].call && (x.phase.Sent? <==> a.started[j].phase.Sent?)
    ensures ScanInv(log, a.(started := a.started[j := x]))
  {
    SumUpdate(SentFn(), a.started, j, x);
    MSumSame(ShareFn(log), a.started, j, x);
    SameCalls(a.started, j, x);
  }

  lemma WithinKeeps(log: seq<Instruction>, a: Act, j: nat, e: Event)
    requires Inv(log, a) && Enabled(log, a, Within(j, e))
    requires Inv(log, Apply(log, a.started[j], e))
    ensures Inv(log, Apply(log, a, Within(j, e)))
  {
    var x := Apply(log, a.started[j], e);
    StepFacts(log, a.started[j], e);
    KidsReplaced(log, a.started, j, x);
    if a.phase.Scanning? {
      WithinLocal(log, a, j, x);
    } else {
      SentReplaced(a.started, j, x);
    }
  }

  lemma SentReplaced(s: seq<Act>, j: nat, x: Act)
    requires j < |s| && (x.phase.Sent? <==> s[j].phase.Sent?)
    ensures (forall k :: k in s ==> k.phase.Sent?) ==> forall k :: k in s[j := x] ==> k.phase.Sent?
  {
    forall k | k in s[j := x] && k != x
      ensures k in s
    {
    }
  }

  /** A step never changes the call, and an activation that has answered stays so. */
  lemma StepFacts(log: seq<Instruction>, a: Act, e: Event)
    requires Enabled(log, a, e)
    ensures var b := Apply(log, a, e);
            b.call == a.call && (a.phase.Sent? <==> b.phase.Sent?) && (a.phase.Sending? || a.phase.Sent? ==> b.phase == a.phase)
  {
  }

  lemma {:induction false} StepKeeps(log: seq<Instruction>, a: Act, ev: Event)
    requires NamedKinds(log) && Inv(log, a) && Enabled(log, a, ev)
    ensures Inv(log, Apply(log, a, ev))
    decreases ev
  {
    match ev
    case Fetch(rows) => FetchKeeps(log, a, rows);
    case ScanRow => ScanKeeps(log, a);
    case Receive(j) => ReceiveKeeps(log, a, j);
    case Finish => {
      FinishIsRight(log, a);
      AnsweredKids(log, a);
    }
    case Within(j, e) => {
      assert Inv(log, a.started[j]);
      StepKeeps(log, a.started[j], e);
      WithinKeeps(log, a, j, e);
    }
  }
}
