/** Ids stay prefix-free over any sequence of Execute calls on LevelDB, because IsNew scans
    by prefix and drawn ids all have one length (drivers/leveldb/leveldb.go:43-62,
    store/update.go:187-197, x/x.go:172-179). */
module PrefixFreeRuns {
  import opened Seqs
  import opened Types
  import opened UpdateModel
  import opened Forest
  import opened LeveldbDriver
  import RoundTrip

  /** One executed update, with the keys its rows were stored under. */
  datatype Step = Step(tree: Node, picked: seq<string>)

  function LogOf(steps: seq<Step>): seq<Instruction> {
    if steps == [] then [] else LogOf(steps[..|steps| - 1]) + Flat(steps[|steps| - 1].tree)
  }

  function KeysOf(steps: seq<Step>): seq<string> {
    if steps == [] then [] else KeysOf(steps[..|steps| - 1]) + steps[|steps| - 1].picked
  }

  /** What IsNew answered for a drawn id. */
  ghost predicate FoundNew(keys: seq<string>, id: string) {
    forall i :: 0 <= i < |keys| ==> !(id <= keys[i])
  }

  /** The conditions on one Execute with ids of n characters. The root's id is chosen by
      the caller: at least n long, and new and apart from all others or already there. The
      drawn ids were found new, differ from each other, and none is a prefix of the root. */
  ghost predicate Allowed(keys: seq<string>, log: seq<Instruction>, s: Step, n: nat) {
    var ids := IdsIn(s.tree.kids);
    && |s.picked| == |Flat(s.tree)|
    && (forall i :: 0 <= i < |s.picked| ==> IsKeyOf(s.picked[i], Flat(s.tree)[i].subjectId))
    && |s.tree.head.id| >= n && FitsIn(log, s.tree.head.id)
    && NoDuplicates(ids)
    && forall i :: 0 <= i < |ids| ==> |ids[i]| == n && FoundNew(keys, ids[i]) && !(ids[i] <= s.tree.head.id)
  }

  ghost predicate Run(steps: seq<Step>, n: nat) {
    forall i :: 0 <= i < |steps| ==> Allowed(KeysOf(steps[..i]), LogOf(steps[..i]), steps[i], n)
  }

  ghost predicate Keyed(keys: seq<string>, log: seq<Instruction>) {
    |keys| == |log| && forall i :: 0 <= i < |keys| ==> IsKeyOf(keys[i], log[i].subjectId)
  }

  ghost predicate LongIds(log: seq<Instruction>, n: nat) {
    forall i :: 0 <= i < |log| ==> |log[i].subjectId| >= n
  }

  // ---------------------------------------------------------------- exactly when

  lemma PrefixFreeByIds(log: seq<Instruction>)
    ensures PrefixFree(log) <==> forall a, b :: !Unused(log, a) && !Unused(log, b) && a != b ==> Apart(a, b)
  {
    if forall a, b :: !Unused(log, a) && !Unused(log, b) && a != b ==> Apart(a, b) {
      forall i, j | 0 <= i < |log| && 0 <= j < |log| && log[i].subjectId != log[j].subjectId
        ensures Apart(log[i].subjectId, log[j].subjectId)
      {
        assert !Unused(log, log[i].subjectId) && !Unused(log, log[j].subjectId);
      }
    }
  }

  /** The entities with rows of their own in a non-empty tree are all of its nodes. */
  lemma {:induction false} TreeIds(t: Node, id: string)
    requires Flat(t) != []
    ensures !Unused(Flat(t), id) <==> id in Ids(t)
    decreases t
  {
    if id !in Ids(t) {
      RoundTrip.FlatWithin(t, id);
    } else if id == t.head.id {
      FirstRow(t);
      assert Flat(t)[0].subjectId == id;
    } else {
      KidIds(t.head, t.kids, id);
      UnusedAppend(PropertyRows(t.head, t.props), FlatKids(t.head, t.kids), id);
    }
  }

  lemma {:induction false} KidIds(h: Head, kids: seq<Node>, id: string)
    requires id in IdsIn(kids)
    ensures !Unused(FlatKids(h, kids), id)
    decreases kids
  {
    hide Unused, Flat, EdgeRows;
    var n := |kids| - 1;
    var k := kids[n];
    UnusedAppend(FlatKids(h, kids[..n]), EdgeRows(h, k.head), id);
    UnusedAppend(FlatKids(h, kids[..n]) + EdgeRows(h, k.head), Flat(k), id);
    if id in IdsIn(kids[..n]) {
      KidIds(h, kids[..n], id);
    } else if id == k.head.id {
      EdgeBack(h, k.head);
    } else {
      KidIds(k.head, k.kids, id);
      FlatHasKids(k, id);
    }
  }

  lemma EdgeBack(h: Head, kid: Head)
    ensures !Unused(EdgeRows(h, kid), kid.id)
  {
    assert EdgeRows(h, kid)[1].subjectId == kid.id;
  }

  lemma FlatHasKids(k: Node, id: string)
    requires !Unused(FlatKids(k.head, k.kids), id)
    ensures !Unused(Flat(k), id)
  {
    UnusedAppend(PropertyRows(k.head, k.props), FlatKids(k.head, k.kids), id);
  }

  /** The root fits into the store, no stored id starts a drawn one, and no drawn id and the
      root start one another. */
  ghost predicate Harmless(log: seq<Instruction>, t: Node) {
    && FitsIn(log, t.head.id)
    && forall x :: x in IdsIn(t.kids) ==>
         (forall i :: 0 <= i < |log| ==> !(log[i].subjectId <= x)) && (x == t.head.id || Apart(x, t.head.id))
  }

  /** What IsNew accepts is no prefix of a stored id. */
  lemma NewIsNoPrefix(keys: seq<string>, log: seq<Instruction>, id: string)
    requires Keyed(keys, log) && FoundNew(keys, id)
    ensures forall i :: 0 <= i < |log| ==> !(id <= log[i].subjectId)
  {
    forall i | 0 <= i < |log|
      ensures !(id <= log[i].subjectId)
    {
      OwnPrefix(keys[i], log[i].subjectId);
    }
  }

  /** Drawn ids being new and of one length, an Execute keeps the store prefix-free if and
      only if it is harmless. */
  lemma PrefixFreeIff(keys: seq<string>, log: seq<Instruction>, t: Node, n: nat)
    requires Keyed(keys, log) && PrefixFree(log) && Flat(t) != []
    requires forall x :: x in IdsIn(t.kids) ==> |x| == n && FoundNew(keys, x)
    ensures PrefixFree(log + Flat(t)) <==> Harmless(log, t)
  {
    hide Flat, IdsIn;
    PrefixFreeByIds(log);
    PrefixFreeByIds(log + Flat(t));
    RootFirst(t);
    forall id
      ensures !Unused(log + Flat(t), id) <==> !Unused(log, id) || id == t.head.id || id in IdsIn(t.kids)
    {
      UnusedAppend(log, Flat(t), id);
      TreeIds(t, id);
    }
    forall x | x in IdsIn(t.kids)
      ensures forall i :: 0 <= i < |log| ==> !(x <= log[i].subjectId)
    {
      NewIsNoPrefix(keys, log, x);
    }
    IdsIffHarmless(log, t, n);
  }

  ghost predicate ApartWith(log: seq<Instruction>, t: Node, a: string, b: string) {
    var known := (x: string) => !Unused(log, x) || x == t.head.id || x in IdsIn(t.kids);
    known(a) && known(b) && a != b ==> Apart(a, b)
  }

  lemma IdsIffHarmless(log: seq<Instruction>, t: Node, n: nat)
    requires forall a, b :: !Unused(log, a) && !Unused(log, b) && a != b ==> Apart(a, b)
    requires forall x :: x in IdsIn(t.kids) ==> |x| == n && forall i :: 0 <= i < |log| ==> !(x <= log[i].subjectId)
    ensures (forall a, b :: ApartWith(log, t, a, b)) <==> Harmless(log, t)
  {
    hide IdsIn;
    if forall a, b :: ApartWith(log, t, a, b) {
      forall i | 0 <= i < |log|
        ensures !Unused(log, log[i].subjectId)
      {
      }
      forall i | 0 <= i < |log|
        ensures log[i].subjectId == t.head.id || Apart(log[i].subjectId, t.head.id)
      {
        assert ApartWith(log, t, log[i].subjectId, t.head.id);
      }
      forall x | x in IdsIn(t.kids)
        ensures (forall i :: 0 <= i < |log| ==> !(log[i].subjectId <= x)) && (x == t.head.id || Apart(x, t.head.id))
      {
        assert ApartWith(log, t, x, t.head.id);
        forall i | 0 <= i < |log|
          ensures !(log[i].subjectId <= x)
        {
          assert ApartWith(log, t, log[i].subjectId, x);
          assert x <= x;
        }
      }
    }
    if Harmless(log, t) {
      forall a, b
        ensures ApartWith(log, t, a, b)
      {
        HarmlessApart(log, t, n, a, b);
      }
    }
  }

  lemma HarmlessApart(log: seq<Instruction>, t: Node, n: nat, a: string, b: string)
    requires forall a, b :: !Unused(log, a) && !Unused(log, b) && a != b ==> Apart(a, b)
    requires forall x :: x in IdsIn(t.kids) ==> |x| == n && forall i :: 0 <= i < |log| ==> !(x <= log[i].subjectId)
    requires Harmless(log, t)
    ensures ApartWith(log, t, a, b)
  {
    hide IdsIn;
    if !Unused(log, a) {
      var i :| 0 <= i < |log| && log[i].subjectId == a;
    }
    if !Unused(log, b) {
      var i :| 0 <= i < |log| && log[i].subjectId == b;
    }
  }

  lemma RowIdIn(t: Node, i: nat)
    requires i < |Flat(t)|
    ensures Flat(t)[i].subjectId in Ids(t)
  {
    if Flat(t)[i].subjectId !in Ids(t) {
      RoundTrip.FlatWithin(t, Flat(t)[i].subjectId);
    }
  }

  /** So ids at least as long as the drawn ones, and draws that are no prefix of the root,
      are enough. */
  lemma StepKeepsPrefixFree(keys: seq<string>, log: seq<Instruction>, s: Step, n: nat)
    requires Keyed(keys, log) && LongIds(log, n) && PrefixFree(log) && Allowed(keys, log, s, n)
    ensures Keyed(keys + s.picked, log + Flat(s.tree))
    ensures LongIds(log + Flat(s.tree), n) && PrefixFree(log + Flat(s.tree))
  {
    var rows := Flat(s.tree);
    AllowedIds(keys, log, s, n);
    hide Flat, IdsIn, Ids;
    forall i | 0 <= i < |rows|
      ensures |rows[i].subjectId| >= n
    {
      RowIdIn(s.tree, i);
    }
    if rows == [] {
      assert log + rows == log;
    } else {
      PrefixFreeIff(keys, log, s.tree, n);
    }
  }

  lemma AllowedIds(keys: seq<string>, log: seq<Instruction>, s: Step, n: nat)
    requires Keyed(keys, log) && LongIds(log, n) && Allowed(keys, log, s, n)
    ensures forall x :: x in IdsIn(s.tree.kids) ==> |x| == n && FoundNew(keys, x)
    ensures Harmless(log, s.tree) && forall x :: x in Ids(s.tree) ==> |x| >= n
  {
    RootFirst(s.tree);
    forall x | x in IdsIn(s.tree.kids)
      ensures |x| == n && FoundNew(keys, x) && (x == s.tree.head.id || Apart(x, s.tree.head.id))
      ensures forall i :: 0 <= i < |log| ==> !(log[i].subjectId <= x)
    {
      NewIsNoPrefix(keys, log, x);
      forall i | 0 <= i < |log|
        ensures !(log[i].subjectId <= x)
      {
        LongPrefix(log[i].subjectId, x);
        assert !(x <= log[i].subjectId) && x <= x;
      }
      LongPrefix(s.tree.head.id, x);
    }
  }

  lemma LongPrefix(a: string, b: string)
    requires |a| >= |b|
    ensures a <= b ==> a == b && b <= a
  {
  }

  /** Every run of Execute over LevelDB under those conditions keeps the ids prefix-free. */
  lemma {:induction false} RunIsPrefixFree(steps: seq<Step>, n: nat)
    requires Run(steps, n)
    ensures PrefixFree(LogOf(steps)) && LongIds(LogOf(steps), n) && Keyed(KeysOf(steps), LogOf(steps))
  {
    if steps != [] {
      var k := |steps| - 1;
      var before := steps[..k];
      forall i | 0 <= i < k
        ensures Allowed(KeysOf(before[..i]), LogOf(before[..i]), before[i], n)
      {
        assert before[..i] == steps[..i];
        assert Allowed(KeysOf(steps[..i]), LogOf(steps[..i]), steps[i], n);
      }
      RunIsPrefixFree(before, n);
      assert Allowed(KeysOf(steps[..k]), LogOf(steps[..k]), steps[k], n);
      StepKeepsPrefixFree(KeysOf(before), LogOf(before), steps[k], n);
    }
  }

  // ---------------------------------------------------------------- with the driver's own keys

  function BatchesOf(steps: seq<Step>): seq<seq<Instruction>> {
    seq(|steps|, i requires 0 <= i < |steps| => Flat(steps[i].tree))
  }

  /** Each batch went in under the keys that Commit chose for it. */
  ghost predicate PickedBy(steps: seq<Step>, draws: nat -> string) {
    forall i :: 0 <= i < |steps| ==>
      var (db, cur) := Committed(BatchesOf(steps[..i]), draws);
      steps[i].picked == PickKeys(db, Flat(steps[i].tree), draws, cur).0
  }

  lemma {:induction false} BatchesAreLog(steps: seq<Step>)
    ensures AllRows(BatchesOf(steps)) == LogOf(steps)
  {
    if steps != [] {
      var k := |steps| - 1;
      assert BatchesOf(steps)[..k] == BatchesOf(steps[..k]);
      hide Flat;
      BatchesAreLog(steps[..k]);
    }
  }

  lemma LastPicked(steps: seq<Step>, draws: nat -> string)
    requires PickedBy(steps, draws) && steps != []
    ensures var k := |steps| - 1; var (db, cur) := Committed(BatchesOf(steps[..k]), draws);
            && PickedBy(steps[..k], draws)
            && steps[k].picked == PickKeys(db, Flat(steps[k].tree), draws, cur).0
            && Committed(BatchesOf(steps), draws).0 == Put(db, steps[k].picked, Flat(steps[k].tree))
  {
    var k := |steps| - 1;
    hide PickKeys, Flat, Put;
    assert BatchesOf(steps)[..k] == BatchesOf(steps[..k]);
    LastBatch(BatchesOf(steps), draws);
    forall i | 0 <= i < k
      ensures steps[..k][..i] == steps[..i]
    {
    }
  }

  /** The driver has stored the log under these keys. */
  lemma {:induction false} RunIsStored(steps: seq<Step>, draws: nat -> string)
    requires PickedBy(steps, draws) && NeverRepeats(draws) && forall j: nat :: |draws(j)| == 5
    ensures Stores(Committed(BatchesOf(steps), draws).0, KeysOf(steps), LogOf(steps))
    ensures KeyedInTurn(KeysOf(steps), LogOf(steps), draws)
    ensures Committed(BatchesOf(steps), draws).1 == |LogOf(steps)|
  {
    if steps == [] {
      assert BatchesOf(steps) == [];
    } else {
      LastPicked(steps, draws);
      KeysAndLog(steps);
      hide *;
      var k := |steps| - 1;
      RunIsStored(steps[..k], draws);
      OneCommitMore(Committed(BatchesOf(steps[..k]), draws).0, KeysOf(steps[..k]), LogOf(steps[..k]),
                    Flat(steps[k].tree), draws);
      BatchesAreLog(steps);
      var keys := CommitsStore(BatchesOf(steps), draws);
    }
  }

  lemma KeysAndLog(steps: seq<Step>)
    requires steps != []
    ensures var k := |steps| - 1;
            && KeysOf(steps) == KeysOf(steps[..k]) + steps[k].picked
            && LogOf(steps) == LogOf(steps[..k]) + Flat(steps[k].tree)
  {
  }

  /** What is written to LevelDB is what is read back: after any run of Execute under those
      conditions, with a generator of keys that never repeats itself, a lookup of any id that
      fits in, such as any id in the store, returns exactly the rows ever committed for it. */
  lemma LookupIsExact(steps: seq<Step>, n: nat, draws: nat -> string, id: string)
    requires Run(steps, n) && PickedBy(steps, draws) && NeverRepeats(draws) && forall j: nat :: |draws(j)| == 5
    requires FitsIn(LogOf(steps), id) || !Unused(LogOf(steps), id)
    ensures Stores(Committed(BatchesOf(steps), draws).0, KeysOf(steps), LogOf(steps))
    ensures multiset(RowsUnder(KeysOf(steps), LogOf(steps), id)) == multiset(RowsOf(LogOf(steps), id))
  {
    hide Run, PickedBy, LogOf, KeysOf, Committed, RowsUnder, RowsOf, Stores;
    RunIsStored(steps, draws);
    RunIsPrefixFree(steps, n);
    PrefixFreeIsExact(Committed(BatchesOf(steps), draws).0, KeysOf(steps), LogOf(steps), id);
  }

  /** The condition on the root's length is needed: with three-character draws and a root
      "ab", the id "abc" is found new, and from then on a lookup of "ab" also returns the
      row of "abc". */
  lemma ShortRootLeaks()
    ensures var r := Instruction("ab", "K", "p", "1", "", 0, "s");
            var r' := Instruction("abc", "K", "p", "2", "", 0, "s");
            && FoundNew(["ab_00000"], "abc")
            && Keyed(["ab_00000", "abc_00000"], [r, r'])
            && multiset(RowsUnder(["ab_00000", "abc_00000"], [r, r'], "ab")) != multiset(RowsOf([r, r'], "ab"))
  {
    var r := Instruction("ab", "K", "p", "1", "", 0, "s");
    var r' := Instruction("abc", "K", "p", "2", "", 0, "s");
    var keys, log := ["ab_00000", "abc_00000"], [r, r'];
    assert keys[0][2] == '_' && "abc"[2] == 'c';
    assert IsKeyOf(keys[0], "ab") by {
      assert keys[0][..3] == "ab" + "_";
    }
    assert IsKeyOf(keys[1], "abc") by {
      assert keys[1][..4] == "abc" + "_";
    }
    assert "ab" <= keys[1] && log[1].subjectId != "ab";
    PrefixFindsMore(keys, log, "ab");
    assert |multiset(RowsUnder(keys, log, "ab"))| != |multiset(RowsOf(log, "ab"))|;
  }
}
