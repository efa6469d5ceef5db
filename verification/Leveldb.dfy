/** The LevelDB driver: rows under keys `subject_xxxxx`, looked up by prefix
    (drivers/leveldb/leveldb.go:43-163). */
module LeveldbDriver {
  import opened Seqs
  import opened Types
  import opened UpdateModel
  import opened KeyOrder
  import opened Forest
  import opened Paging

  /** key was made for subject id: the id, an underscore and five drawn characters. */
  ghost predicate IsKeyOf(key: string, id: string) {
    |key| == |id| + 6 && key[..|id| + 1] == id + "_"
  }

  /** Every committed row sits under its own key. */
  ghost predicate Stores(db: map<string, Instruction>, keys: seq<string>, log: seq<Instruction>) {
    && |keys| == |log|
    && (forall i, j :: 0 <= i < j < |keys| ==> keys[i] != keys[j])
    && (forall i :: 0 <= i < |keys| ==> keys[i] in db && db[keys[i]] == log[i] && IsKeyOf(keys[i], log[i].subjectId))
    && (forall k :: k in db ==> k in keys)
  }

  /** The rows whose key starts with id, in commit order. */
  ghost function RowsUnder(keys: seq<string>, log: seq<Instruction>, id: string): seq<Instruction>
    requires |keys| == |log|
  {
    if log == [] then []
    else
      var n := |log| - 1;
      RowsUnder(keys[..n], log[..n], id) + if id <= keys[n] then [log[n]] else []
  }

  function KeyWith(id: string, draw: string): string {
    id + "_" + draw
  }

  /** The keys Commit settles on: for each row the first of ten draws that is free, or else
      the tenth. */
  function PickKey(db: map<string, Instruction>, id: string, draws: nat -> string, cur: nat, m: nat): (string, nat)
    requires m < 10
    decreases 10 - m
  {
    var key := KeyWith(id, draws(cur));
    if key in db && m < 9 then PickKey(db, id, draws, cur + 1, m + 1) else (key, cur + 1)
  }

  /** The key is free if one of the ten draws is, and is then the first such. */
  lemma {:induction false} PickedFree(db: map<string, Instruction>, id: string, draws: nat -> string, cur: nat, m: nat)
    requires m < 10
    ensures var (key, next) := PickKey(db, id, draws, cur, m);
            && cur < next <= cur + 10 - m && key == KeyWith(id, draws(next - 1))
            && (forall k :: cur <= k < next - 1 ==> KeyWith(id, draws(k)) in db)
            && (key in db ==> next == cur + 10 - m)
    decreases 10 - m
  {
    if KeyWith(id, draws(cur)) in db && m < 9 {
      PickedFree(db, id, draws, cur + 1, m + 1);
    }
  }

  function PickKeys(db: map<string, Instruction>, its: seq<Instruction>, draws: nat -> string, cur: nat): (r: (seq<string>, nat))
    ensures |r.0| == |its|
  {
    if its == [] then ([], cur)
    else
      var (keys, c1) := PickKeys(db, its[..|its| - 1], draws, cur);
      var (key, c2) := PickKey(db, its[|its| - 1].subjectId, draws, c1, 0);
      (keys + [key], c2)
  }

  /** No key of the batch is taken, in the database or by another row of the batch. */
  ghost predicate FreeKeys(db: map<string, Instruction>, picked: seq<string>) {
    (forall i :: 0 <= i < |picked| ==> picked[i] !in db) &&
    forall i, j :: 0 <= i < j < |picked| ==> picked[i] != picked[j]
  }

  lemma {:induction false} PickedKey(db: map<string, Instruction>, id: string, draws: nat -> string, cur: nat, m: nat)
    requires m < 10 && forall j: nat :: |draws(j)| == 5
    ensures IsKeyOf(PickKey(db, id, draws, cur, m).0, id)
    decreases 10 - m
  {
    var key := KeyWith(id, draws(cur));
    if key in db && m < 9 {
      PickedKey(db, id, draws, cur + 1, m + 1);
    } else {
      assert key[..|id| + 1] == id + "_";
    }
  }

  lemma {:induction false} PickedKeys(db: map<string, Instruction>, its: seq<Instruction>, draws: nat -> string, cur: nat)
    requires forall j: nat :: |draws(j)| == 5
    ensures var keys := PickKeys(db, its, draws, cur).0;
            forall i :: 0 <= i < |its| ==> IsKeyOf(keys[i], its[i].subjectId)
  {
    if its != [] {
      var n := |its| - 1;
      PickedKeys(db, its[..n], draws, cur);
      PickedKey(db, its[n].subjectId, draws, PickKeys(db, its[..n], draws, cur).1, 0);
    }
  }

  /** Where the search for the key of row i starts, if at[i] is where the one before ended. */
  function SearchFrom(at: seq<nat>, cur: nat, i: nat): nat
    requires i <= |at|
  {
    if i == 0 then cur else at[i - 1] + 1
  }

  /** Row i has the key of its own subject with draw at[i]. Every draw serves one row, in
      order; those passed over would have given keys that are taken, and a taken key stands
      only after ten tries. */
  ghost predicate KeysDrawn(db: map<string, Instruction>, its: seq<Instruction>, draws: nat -> string, cur: nat,
                            keys: seq<string>, at: seq<nat>, next: nat) {
    && |keys| == |its| == |at| && next == SearchFrom(at, cur, |at|)
    && (forall i {:trigger keys[i]} :: 0 <= i < |its| ==> KeyDrawn(db, its[i].subjectId, draws, SearchFrom(at, cur, i), keys[i], at[i]))
  }

  ghost predicate KeyDrawn(db: map<string, Instruction>, id: string, draws: nat -> string, from: nat, key: string, at: nat) {
    && from <= at < from + 10 && key == KeyWith(id, draws(at))
    && (forall j :: from <= j < at ==> KeyWith(id, draws(j)) in db)
    && (key in db ==> at == from + 9)
  }

  lemma PickDrawn(db: map<string, Instruction>, id: string, draws: nat -> string, cur: nat)
    ensures var (key, next) := PickKey(db, id, draws, cur, 0);
            next > 0 && KeyDrawn(db, id, draws, cur, key, next - 1)
  {
    PickedFree(db, id, draws, cur, 0);
  }

  lemma OneMoreDrawn(db: map<string, Instruction>, its: seq<Instruction>, draws: nat -> string, cur: nat,
                     keys: seq<string>, at: seq<nat>, next: nat, r: Instruction, key: string, j: nat)
    requires KeysDrawn(db, its, draws, cur, keys, at, next) && KeyDrawn(db, r.subjectId, draws, next, key, j)
    ensures KeysDrawn(db, its + [r], draws, cur, keys + [key], at + [j], j + 1)
  {
    hide KeyDrawn;
    forall i | 0 <= i < |its|
      ensures KeyDrawn(db, its[i].subjectId, draws, SearchFrom(at + [j], cur, i), keys[i], at[i])
    {
      assert SearchFrom(at + [j], cur, i) == SearchFrom(at, cur, i);
    }
  }

  lemma PickKeysLast(db: map<string, Instruction>, its: seq<Instruction>, draws: nat -> string, cur: nat)
    requires its != []
    ensures var n := |its| - 1; var (keys, c1) := PickKeys(db, its[..n], draws, cur);
            var (key, c2) := PickKey(db, its[n].subjectId, draws, c1, 0);
            PickKeys(db, its, draws, cur) == (keys + [key], c2)
  {
    hide PickKey;
  }

  lemma {:induction false} PicksDrawn(db: map<string, Instruction>, its: seq<Instruction>, draws: nat -> string, cur: nat)
      returns (at: seq<nat>)
    ensures KeysDrawn(db, its, draws, cur, PickKeys(db, its, draws, cur).0, at, PickKeys(db, its, draws, cur).1)
  {
    if its == [] {
      at := [];
    } else {
      PickKeysLast(db, its, draws, cur);
      hide *;
      var n := |its| - 1;
      var before := PicksDrawn(db, its[..n], draws, cur);
      var (keys, c1) := PickKeys(db, its[..n], draws, cur);
      var (key, c2) := PickKey(db, its[n].subjectId, draws, c1, 0);
      PickDrawn(db, its[n].subjectId, draws, c1);
      OneMoreDrawn(db, its[..n], draws, cur, keys, before, c1, its[n], key, c2 - 1);
      assert its[..n] + [its[n]] == its;
      at := before + [c2 - 1];
    }
  }

  /** Keys for one id, or for two, are equal exactly when id and draw are. */
  lemma SameKey(a: string, b: string, x: string, y: string)
    requires |x| == |y|
    ensures KeyWith(a, x) == KeyWith(b, y) <==> a == b && x == y
  {
    var k, l := KeyWith(a, x), KeyWith(b, y);
    if k == l {
      assert k[..|a|] == a && l[..|b|] == b;
      assert k[|a| + 1..] == x && l[|b| + 1..] == y;
    }
  }

  /** The batch goes in without loss if and only if no row has spent its ten tries and no two
      rows of one entity have drawn alike. */
  lemma FreeKeysIff(db: map<string, Instruction>, its: seq<Instruction>, draws: nat -> string, cur: nat,
                    keys: seq<string>, at: seq<nat>, next: nat)
    requires KeysDrawn(db, its, draws, cur, keys, at, next) && forall j: nat :: |draws(j)| == 5
    ensures FreeKeys(db, keys) <==>
              (forall i :: 0 <= i < |its| ==> KeyWith(its[i].subjectId, draws(at[i])) !in db) &&
              forall i, j :: 0 <= i < j < |its| && its[i].subjectId == its[j].subjectId ==> draws(at[i]) != draws(at[j])
  {
    hide KeyWith, SearchFrom;
    forall i | 0 <= i < |its|
      ensures keys[i] == KeyWith(its[i].subjectId, draws(at[i]))
    {
      assert KeyDrawn(db, its[i].subjectId, draws, SearchFrom(at, cur, i), keys[i], at[i]);
    }
    forall i, j | 0 <= i < j < |its|
      ensures keys[i] == keys[j] <==> its[i].subjectId == its[j].subjectId && draws(at[i]) == draws(at[j])
    {
      SameKey(its[i].subjectId, its[j].subjectId, draws(at[i]), draws(at[j]));
    }
  }

  /** Among n draws from cur on none repeats and none gives a taken key for a row of its. */
  ghost predicate GoodDraws(db: map<string, Instruction>, its: seq<Instruction>, draws: nat -> string, cur: nat, n: nat) {
    && (forall j, k :: cur <= j < k < cur + n ==> draws(j) != draws(k))
    && forall i, j :: 0 <= i < |its| && cur <= j < cur + n ==> KeyWith(its[i].subjectId, draws(j)) !in db
  }

  lemma NextSearch(at: seq<nat>, cur: nat, n: nat)
    requires n <= |at|
    ensures SearchFrom(at, cur, n) == if n == 0 then cur else at[n - 1] + 1
  {
  }

  lemma FirstDrawServes(db: map<string, Instruction>, its: seq<Instruction>, draws: nat -> string, cur: nat,
                        keys: seq<string>, at: seq<nat>, next: nat, i: nat)
    requires KeysDrawn(db, its, draws, cur, keys, at, next) && GoodDraws(db, its, draws, cur, |its|) && i < |its|
    requires SearchFrom(at, cur, i) == cur + i
    ensures i < |at| && i < |keys| && at[i] == cur + i && keys[i] == KeyWith(its[i].subjectId, draws(cur + i))
  {
    hide KeyWith, SearchFrom;
    assert KeyWith(its[i].subjectId, draws(cur + i)) !in db;
    assert KeyDrawn(db, its[i].subjectId, draws, cur + i, keys[i], at[i]);
  }

  /** With good draws every row takes the next one. */
  lemma {:induction false} DrawnInTurn(db: map<string, Instruction>, its: seq<Instruction>, draws: nat -> string, cur: nat,
                                       keys: seq<string>, at: seq<nat>, next: nat, n: nat)
    requires KeysDrawn(db, its, draws, cur, keys, at, next) && GoodDraws(db, its, draws, cur, |its|)
    requires |keys| == |at| == |its| && n <= |its|
    ensures SearchFrom(at, cur, n) == cur + n
    ensures forall i :: 0 <= i < n ==> at[i] == cur + i && keys[i] == KeyWith(its[i].subjectId, draws(cur + i))
  {
    hide *;
    NextSearch(at, cur, n);
    if n > 0 {
      DrawnInTurn(db, its, draws, cur, keys, at, next, n - 1);
      FirstDrawServes(db, its, draws, cur, keys, at, next, n - 1);
    }
  }

  /** Good draws are enough: the rows get the keys of their own subjects with the next draws,
      one each, and no row is lost. */
  lemma GoodDrawsServe(db: map<string, Instruction>, its: seq<Instruction>, draws: nat -> string, cur: nat)
    requires GoodDraws(db, its, draws, cur, |its|) && forall j: nat :: |draws(j)| == 5
    ensures var (keys, next) := PickKeys(db, its, draws, cur);
            && FreeKeys(db, keys) && |keys| == |its| && next == cur + |its|
            && forall i :: 0 <= i < |its| ==> keys[i] == KeyWith(its[i].subjectId, draws(cur + i))
  {
    var (keys, next) := PickKeys(db, its, draws, cur);
    var at := PicksDrawn(db, its, draws, cur);
    hide PickKeys, KeyDrawn, FreeKeys, KeyWith;
    DrawnInTurn(db, its, draws, cur, keys, at, next, |its|);
    FreeKeysIff(db, its, draws, cur, keys, at, next);
  }

  lemma GoodIsFree(db: map<string, Instruction>, its: seq<Instruction>, draws: nat -> string, cur: nat)
    requires forall j: nat :: |draws(j)| == 5
    ensures GoodDraws(db, its, draws, cur, |its|) ==>
              FreeKeys(db, PickKeys(db, its, draws, cur).0) && PickKeys(db, its, draws, cur).1 == cur + |its|
  {
    hide *;
    if GoodDraws(db, its, draws, cur, |its|) {
      GoodDrawsServe(db, its, draws, cur);
    }
  }

  /** An abstract batch write: later puts win. */
  function Put(db: map<string, Instruction>, keys: seq<string>, its: seq<Instruction>): map<string, Instruction>
    requires |keys| == |its|
  {
    if its == [] then db
    else Put(db, keys[..|its| - 1], its[..|its| - 1])[keys[|its| - 1] := its[|its| - 1]]
  }

  lemma StoresOneMore(db: map<string, Instruction>, keys: seq<string>, log: seq<Instruction>, k: string, r: Instruction)
    requires Stores(db, keys, log) && k !in keys && IsKeyOf(k, r.subjectId)
    ensures Stores(db[k := r], keys + [k], log + [r])
  {
    hide IsKeyOf;
  }

  lemma FreeOneMore(db: map<string, Instruction>, picked: seq<string>)
    requires picked != []
    ensures var n := |picked| - 1;
            FreeKeys(db, picked) <==> FreeKeys(db, picked[..n]) && picked[n] !in db && picked[n] !in picked[..n]
  {
    var n := |picked| - 1;
    assert picked == picked[..n] + [picked[n]];
    if FreeKeys(db, picked) {
      assert forall i :: 0 <= i < n ==> picked[..n][i] == picked[i];
    }
  }

  lemma StoredKeys(db: map<string, Instruction>, keys: seq<string>, log: seq<Instruction>)
    requires Stores(db, keys, log)
    ensures forall k :: k in keys ==> k in db
  {
  }

  lemma PutLast(db: map<string, Instruction>, picked: seq<string>, its: seq<Instruction>)
    requires |picked| == |its| && its != []
    ensures var n := |its| - 1;
            Put(db, picked, its) == Put(db, picked[..n], its[..n])[picked[n] := its[n]]
  {
  }

  lemma LastOf<T>(a: seq<T>, b: seq<T>)
    requires b != []
    ensures a + b == a + b[..|b| - 1] + [b[|b| - 1]]
  {
  }

  lemma {:induction false} PutStores(db: map<string, Instruction>, keys: seq<string>, log: seq<Instruction>,
                                     picked: seq<string>, its: seq<Instruction>)
    requires Stores(db, keys, log) && |picked| == |its| && FreeKeys(db, picked)
    requires forall i :: 0 <= i < |its| ==> IsKeyOf(picked[i], its[i].subjectId)
    ensures Stores(Put(db, picked, its), keys + picked, log + its)
  {
    if its == [] {
      assert keys + picked == keys && log + its == log;
    } else {
      hide *;
      var n := |its| - 1;
      FreeOneMore(db, picked);
      PutStores(db, keys, log, picked[..n], its[..n]);
      StoredKeys(db, keys, log);
      StoresOneMore(Put(db, picked[..n], its[..n]), keys + picked[..n], log + its[..n], picked[n], its[n]);
      PutLast(db, picked, its);
      LastOf(keys, picked);
      LastOf(log, its);
    }
  }

  lemma {:induction false} PutKeys(db: map<string, Instruction>, picked: seq<string>, its: seq<Instruction>)
    requires |picked| == |its|
    ensures forall k :: k in Put(db, picked, its) <==> k in db || k in picked
  {
    if its != [] {
      var n := |its| - 1;
      PutKeys(db, picked[..n], its[..n]);
      assert picked == picked[..n] + [picked[n]];
    }
  }

  /** A batch is stored in full, every row in a place of its own, exactly when its keys are
      free: any collision overwrites a row, of the database or of the batch. */
  lemma {:induction false} PutIsWhole(db: map<string, Instruction>, picked: seq<string>, its: seq<Instruction>)
    requires |picked| == |its|
    ensures |Put(db, picked, its)| <= |db| + |its|
    ensures |Put(db, picked, its)| == |db| + |its| <==> FreeKeys(db, picked)
  {
    if its == [] {
      assert Put(db, picked, its) == db && FreeKeys(db, picked);
    } else {
      hide *;
      var n := |its| - 1;
      PutLast(db, picked, its);
      PutIsWhole(db, picked[..n], its[..n]);
      PutKeys(db, picked[..n], its[..n]);
      FreeOneMore(db, picked);
      OneKeyMore(Put(db, picked[..n], its[..n]), picked[n], its[n]);
    }
  }

  lemma OneKeyMore(db: map<string, Instruction>, k: string, r: Instruction)
    ensures |db[k := r]| == if k in db then |db| else |db| + 1
  {
    assert db[k := r].Keys == db.Keys + {k};
  }

  class Leveldb {
    var db: map<string, Instruction>
    ghost var keys: seq<string>
    ghost var log: seq<Instruction>

    ghost predicate Valid()
      reads this
    {
      Stores(db, keys, log)
    }

    constructor ()
      ensures Valid() && log == []
    {
      db, keys, log := map[], [], [];
    }

    /** True exactly when no key starts with id. */
    method IsNew(id: string) returns (isnew: bool)
      requires Valid()
      ensures isnew <==> forall i :: 0 <= i < |keys| ==> !(id <= keys[i])
    {
      var scan := Iterator(set k | k in db && id <= k);
      isnew := true;
      var i := 0;
      while i < |scan|
        invariant i <= |scan|
        invariant isnew <==> i == 0
      {
        isnew := false;
        i := i + 1;
      }
      if scan != [] {
        assert scan[0] in scan && scan[0] in keys;
      }
      forall i | 0 <= i < |keys| && id <= keys[i]
        ensures keys[i] in scan
      {
      }
    }

    method ChooseKey(id: string, draws: nat -> string, cur: nat) returns (key: string, next: nat)
      ensures (key, next) == PickKey(db, id, draws, cur, 0)
      ensures cur < next <= cur + 10 && key == KeyWith(id, draws(next - 1))
      ensures forall k :: cur <= k < next - 1 ==> KeyWith(id, draws(k)) in db
      ensures key in db ==> next == cur + 10
    {
      PickedFree(db, id, draws, cur, 0);
      key, next := "", cur;
      var m := 0;
      while m < 10
        invariant m < 10
        invariant PickKey(db, id, draws, next, m) == PickKey(db, id, draws, cur, 0)
        decreases 10 - m
      {
        key := id + "_" + draws(next);
        next := next + 1;
        if key in db && m < 9 {
          m := m + 1;
          continue;
        }
        break;
      }
    }

    method ChooseKeys(its: seq<Instruction>, draws: nat -> string, cur: nat) returns (picked: seq<string>, next: nat)
      ensures (picked, next) == PickKeys(db, its, draws, cur)
    {
      picked, next := [], cur;
      var i := 0;
      while i < |its|
        invariant i <= |its| && |picked| == i
        invariant (picked, next) == PickKeys(db, its[..i], draws, cur)
      {
        assert its[..i + 1][..i] == its[..i];
        var key;
        key, next := ChooseKey(its[i].subjectId, draws, next);
        picked := picked + [key];
        i := i + 1;
      }
      assert its[..i] == its;
    }

    method WriteBatch(picked: seq<string>, its: seq<Instruction>)
      requires |picked| == |its|
      modifies this`db
      ensures db == Put(old(db), picked, its)
    {
      var batch := db;
      var i := 0;
      while i < |its|
        invariant i <= |its|
        invariant batch == Put(db, picked[..i], its[..i])
      {
        assert its[..i + 1][..i] == its[..i] && picked[..i + 1][..i] == picked[..i];
        batch := batch[picked[i] := its[i]];
        i := i + 1;
      }
      assert its[..i] == its && picked[..i] == picked;
      db := batch;
    }

    /** One key per row, looked for in the database only, then one batch. If the keys are
        free the driver stores the old rows and the new ones; it does not notice if not. */
    method Commit(its: seq<Instruction>, draws: nat -> string, cur: nat) returns (next: nat, ghost at: seq<nat>)
      requires Valid() && forall j: nat :: |draws(j)| == 5
      modifies this
      ensures db == Put(old(db), PickKeys(old(db), its, draws, cur).0, its)
      ensures KeysDrawn(old(db), its, draws, cur, PickKeys(old(db), its, draws, cur).0, at, next)
      ensures |db| == |old(db)| + |its| <==> FreeKeys(old(db), PickKeys(old(db), its, draws, cur).0)
      ensures FreeKeys(old(db), PickKeys(old(db), its, draws, cur).0) ==>
                Valid() && log == old(log) + its && keys == old(keys) + PickKeys(old(db), its, draws, cur).0
      ensures GoodDraws(old(db), its, draws, cur, |its|) ==>
                Valid() && log == old(log) + its && |db| == |old(db)| + |its| && next == cur + |its|
    {
      hide PickKeys, KeysDrawn, GoodDraws, FreeKeys, Put, Stores, IsKeyOf;
      PickedKeys(db, its, draws, cur);
      at := PicksDrawn(db, its, draws, cur);
      GoodIsFree(db, its, draws, cur);
      var picked;
      picked, next := ChooseKeys(its, draws, cur);
      PutIsWhole(db, picked, its);
      if FreeKeys(db, picked) {
        PutStores(db, keys, log, picked, its);
      }
      WriteBatch(picked, its);
      keys, log := keys + picked, log + its;
    }

    /** All rows whose key starts with id, in key order. */
    method GetEntity(id: string) returns (result: seq<Instruction>)
      requires Valid()
      ensures multiset(result) == multiset(RowsUnder(keys, log, id))
    {
      var scan := Iterator(set k | k in db && id <= k);
      result := [];
      var i := 0;
      while i < |scan|
        invariant i <= |scan| && |result| == i
        invariant forall j :: 0 <= j < i ==> scan[j] in db && result[j] == db[scan[j]]
      {
        assert scan[i] in scan;
        result := result + [db[scan[i]]];
        i := i + 1;
      }
      AscendingDistinct(scan);
      ScanIsRowsUnder(db, keys, log, id, scan, result);
    }

    /** One page of the rows from key fromId on, at most num entities. */
    method Iterate(fromId: string, num: int) returns (rnum: nat, rlast: Entity, sent: seq<Entity>)
      ensures exists scan, q :: IsPage(db, fromId, num, scan, q, sent, rlast) && rnum == |sent|
    {
      var scan := Iterator(set k | k in db && !Less(k, fromId));
      ghost var q;
      rnum, rlast, sent, q := EmitPage(EntitiesAt(db, scan), num);
      assert IsPage(db, fromId, num, scan, q, sent, rlast);
    }
  }

  /** A page: the entities of the first q rows of the scan, and the entity of the last one. */
  ghost predicate IsPage(db: map<string, Instruction>, fromId: string, num: int, scan: seq<string>, q: nat,
                         sent: seq<Entity>, rlast: Entity) {
    && IsScan(db, fromId, scan)
    && var rows := EntitiesAt(db, scan);
       StopsAt(rows, num, q) && sent == Firsts(rows[..q]) && (rows != [] ==> rlast == rows[q - 1])
  }

  /** The keys from a starting point on, as the iterator yields them. */
  ghost predicate IsScan(db: map<string, Instruction>, fromId: string, scan: seq<string>) {
    Ascending(scan) && forall k :: k in scan <==> k in db && !Less(k, fromId)
  }

  function EntitiesAt(db: map<string, Instruction>, scan: seq<string>): seq<Entity>
    requires forall k :: k in scan ==> k in db
  {
    seq(|scan|, i requires 0 <= i < |scan| => EntityOf(db[scan[i]]))
  }

  function PrefixFn(id: string): string -> seq<string> {
    (k: string) => if id <= k then [k] else []
  }

  function RowFn(db: map<string, Instruction>): string -> seq<Instruction> {
    (k: string) => if k in db then [db[k]] else []
  }

  lemma {:induction false} RowsUnderAre(db: map<string, Instruction>, keys: seq<string>, log: seq<Instruction>, id: string)
    requires |keys| == |log| && forall i :: 0 <= i < |keys| ==> keys[i] in db && db[keys[i]] == log[i]
    ensures RowsUnder(keys, log, id) == FlatMap(RowFn(db), FlatMap(PrefixFn(id), keys))
  {
    if log != [] {
      var n := |log| - 1;
      RowsUnderAre(db, keys[..n], log[..n], id);
      FlatMapAppend(RowFn(db), FlatMap(PrefixFn(id), keys[..n]), PrefixFn(id)(keys[n]));
      FlatMapOne(RowFn(db), keys[n]);
    }
  }

  lemma {:induction false} ScannedAre(db: map<string, Instruction>, scan: seq<string>, result: seq<Instruction>)
    requires |result| == |scan| && forall j :: 0 <= j < |scan| ==> scan[j] in db && result[j] == db[scan[j]]
    ensures result == FlatMap(RowFn(db), scan)
  {
    if scan != [] {
      var n := |scan| - 1;
      ScannedAre(db, scan[..n], result[..n]);
    }
  }

  lemma {:induction false} PrefixedKeys(keys: seq<string>, id: string)
    requires NoDuplicates(keys)
    ensures NoDuplicates(FlatMap(PrefixFn(id), keys))
    ensures forall k :: k in FlatMap(PrefixFn(id), keys) <==> k in keys && id <= k
  {
    if keys != [] {
      var n := |keys| - 1;
      assert keys == keys[..n] + [keys[n]];
      PrefixedKeys(keys[..n], id);
      assert keys[n] !in keys[..n];
    }
  }

  /** Listing the keys in another order gives the same rows. */
  lemma ScanIsRowsUnder(db: map<string, Instruction>, keys: seq<string>, log: seq<Instruction>, id: string,
                        scan: seq<string>, result: seq<Instruction>)
    requires Stores(db, keys, log) && NoDuplicates(scan)
    requires forall k :: k in scan <==> k in keys && id <= k
    requires |result| == |scan| && forall j :: 0 <= j < |scan| ==> scan[j] in db && result[j] == db[scan[j]]
    ensures multiset(result) == multiset(RowsUnder(keys, log, id))
  {
    hide IsKeyOf;
    PrefixedKeys(keys, id);
    SameMembers(scan, FlatMap(PrefixFn(id), keys));
    FlatMapPerm(RowFn(db), scan, FlatMap(PrefixFn(id), keys));
    RowsUnderAre(db, keys, log, id);
    ScannedAre(db, scan, result);
  }

  // ---------------------------------------------------------------- which rows a prefix finds

  /** No other entity's key starts with id. */
  ghost predicate NoStrays(keys: seq<string>, log: seq<Instruction>, id: string)
    requires |keys| == |log|
  {
    forall i :: 0 <= i < |log| && id <= keys[i] ==> log[i].subjectId == id
  }

  lemma OwnPrefix(key: string, id: string)
    requires IsKeyOf(key, id)
    ensures id <= key
  {
    assert id == (id + "_")[..|id|];
    assert key[..|id| + 1][..|id|] == id;
  }

  lemma {:induction false} PrefixFindsMore(keys: seq<string>, log: seq<Instruction>, id: string)
    requires |keys| == |log| && forall i :: 0 <= i < |keys| ==> IsKeyOf(keys[i], log[i].subjectId)
    ensures NoStrays(keys, log, id) ==> RowsUnder(keys, log, id) == RowsOf(log, id)
    ensures !NoStrays(keys, log, id) ==> |RowsUnder(keys, log, id)| > |RowsOf(log, id)|
    ensures |RowsUnder(keys, log, id)| >= |RowsOf(log, id)|
  {
    if log != [] {
      var n := |log| - 1;
      PrefixFindsMore(keys[..n], log[..n], id);
      OwnPrefix(keys[n], log[n].subjectId);
      if !NoStrays(keys, log, id) && NoStrays(keys[..n], log[..n], id) {
        assert id <= keys[n] && log[n].subjectId != id;
      }
    }
  }

  /** GetEntity(id) returns exactly the committed rows of id if and only if no other
      entity's key happens to start with id. */
  lemma GetEntityIsExact(db: map<string, Instruction>, keys: seq<string>, log: seq<Instruction>, id: string)
    requires Stores(db, keys, log)
    ensures multiset(RowsUnder(keys, log, id)) == multiset(RowsOf(log, id)) <==> NoStrays(keys, log, id)
  {
    PrefixFindsMore(keys, log, id);
    if !NoStrays(keys, log, id) {
      assert |multiset(RowsUnder(keys, log, id))| != |multiset(RowsOf(log, id))|;
    }
  }

  // ---------------------------------------------------------------- prefix-free ids

  ghost predicate Apart(a: string, b: string) {
    !(a <= b) && !(b <= a)
  }

  /** No id in the store is a prefix of another. */
  ghost predicate PrefixFree(log: seq<Instruction>) {
    forall i, j :: 0 <= i < |log| && 0 <= j < |log| && log[i].subjectId != log[j].subjectId ==>
      Apart(log[i].subjectId, log[j].subjectId)
  }

  /** id fits in: it is in the store already, or apart from every id there. */
  ghost predicate FitsIn(log: seq<Instruction>, id: string) {
    forall i :: 0 <= i < |log| ==> log[i].subjectId == id || Apart(log[i].subjectId, id)
  }

  lemma StrayMeansPrefix(key: string, s: string, id: string)
    requires IsKeyOf(key, s) && id <= key
    ensures id <= s || s <= id
  {
    OwnPrefix(key, s);
  }

  /** For prefix-free ids the driver is the plain list of rows: GetEntity and IsNew are
      about the entity asked for and no other. */
  lemma PrefixFreeIsExact(db: map<string, Instruction>, keys: seq<string>, log: seq<Instruction>, id: string)
    requires Stores(db, keys, log) && FitsIn(log, id)
    ensures multiset(RowsUnder(keys, log, id)) == multiset(RowsOf(log, id))
    ensures (forall i :: 0 <= i < |keys| ==> !(id <= keys[i])) <==> Unused(log, id)
  {
    forall i | 0 <= i < |log| && id <= keys[i]
      ensures log[i].subjectId == id
    {
      StrayMeansPrefix(keys[i], log[i].subjectId, id);
    }
    GetEntityIsExact(db, keys, log, id);
    forall i | 0 <= i < |log| && log[i].subjectId == id
      ensures id <= keys[i]
    {
      OwnPrefix(keys[i], id);
    }
  }

  /** What IsNew promises without any condition: the id has no rows, and is no prefix of an
      id that has. */
  lemma NewMeansUnused(db: map<string, Instruction>, keys: seq<string>, log: seq<Instruction>, id: string)
    requires Stores(db, keys, log) && forall i :: 0 <= i < |keys| ==> !(id <= keys[i])
    ensures Unused(log, id) && forall i :: 0 <= i < |log| ==> !(id <= log[i].subjectId)
  {
    forall i | 0 <= i < |log|
      ensures !(id <= log[i].subjectId)
    {
      OwnPrefix(keys[i], log[i].subjectId);
    }
  }

  // ---------------------------------------------------------------- any sequence of commits

  /** The database and the draws used after these batches, from an empty database on. */
  function Committed(batches: seq<seq<Instruction>>, draws: nat -> string): (map<string, Instruction>, nat) {
    if batches == [] then (map[], 0)
    else
      var n := |batches| - 1;
      var (db, cur) := Committed(batches[..n], draws);
      var (keys, next) := PickKeys(db, batches[n], draws, cur);
      (Put(db, keys, batches[n]), next)
  }

  function AllRows(batches: seq<seq<Instruction>>): seq<Instruction> {
    if batches == [] then [] else AllRows(batches[..|batches| - 1]) + batches[|batches| - 1]
  }

  ghost predicate NeverRepeats(draws: nat -> string) {
    forall i: nat, j: nat :: i < j ==> draws(i) != draws(j)
  }

  /** Row i of the log has the key of its subject with draw i. */
  ghost predicate KeyedInTurn(keys: seq<string>, log: seq<Instruction>, draws: nat -> string) {
    |keys| == |log| && forall i :: 0 <= i < |keys| ==> keys[i] == KeyWith(log[i].subjectId, draws(i))
  }

  lemma StillGood(db: map<string, Instruction>, keys: seq<string>, log: seq<Instruction>, its: seq<Instruction>, draws: nat -> string)
    requires Stores(db, keys, log) && KeyedInTurn(keys, log, draws)
    requires NeverRepeats(draws) && forall j: nat :: |draws(j)| == 5
    ensures GoodDraws(db, its, draws, |log|, |its|)
  {
    hide KeyWith, IsKeyOf;
    forall i, j | 0 <= i < |its| && |log| <= j < |log| + |its|
      ensures KeyWith(its[i].subjectId, draws(j)) !in db
    {
      var key := KeyWith(its[i].subjectId, draws(j));
      if key in db {
        var k :| 0 <= k < |keys| && keys[k] == key;
        SameKey(its[i].subjectId, log[k].subjectId, draws(j), draws(k));
      }
    }
  }

  lemma InTurnOn(keys: seq<string>, log: seq<Instruction>, picked: seq<string>, its: seq<Instruction>, draws: nat -> string)
    requires KeyedInTurn(keys, log, draws) && |picked| == |its|
    requires forall i :: 0 <= i < |its| ==> picked[i] == KeyWith(its[i].subjectId, draws(|log| + i))
    ensures KeyedInTurn(keys + picked, log + its, draws)
  {
    hide KeyWith;
    forall i | |log| <= i < |log + its|
      ensures (keys + picked)[i] == KeyWith((log + its)[i].subjectId, draws(i))
    {
      assert (keys + picked)[i] == picked[i - |log|] && (log + its)[i] == its[i - |log|];
    }
  }

  lemma OneCommitMore(db: map<string, Instruction>, keys: seq<string>, log: seq<Instruction>, its: seq<Instruction>,
                      draws: nat -> string)
    requires Stores(db, keys, log) && KeyedInTurn(keys, log, draws)
    requires NeverRepeats(draws) && forall j: nat :: |draws(j)| == 5
    ensures var (picked, next) := PickKeys(db, its, draws, |log|);
            && Stores(Put(db, picked, its), keys + picked, log + its)
            && KeyedInTurn(keys + picked, log + its, draws) && next == |log + its|
  {
    hide *;
    var (picked, next) := PickKeys(db, its, draws, |log|);
    StillGood(db, keys, log, its, draws);
    GoodDrawsServe(db, its, draws, |log|);
    PickedKeys(db, its, draws, |log|);
    PutStores(db, keys, log, picked, its);
    InTurnOn(keys, log, picked, its, draws);
  }

  /** With a generator that never repeats itself no commit ever loses a row: after any
      sequence of batches the database holds exactly the rows committed, the i-th under the
      key made of its subject and draw i. */
  lemma {:induction false} CommitsStore(batches: seq<seq<Instruction>>, draws: nat -> string) returns (keys: seq<string>)
    requires NeverRepeats(draws) && forall j: nat :: |draws(j)| == 5
    ensures Stores(Committed(batches, draws).0, keys, AllRows(batches))
    ensures KeyedInTurn(keys, AllRows(batches), draws) && Committed(batches, draws).1 == |AllRows(batches)|
  {
    if batches == [] {
      keys := [];
    } else {
      LastBatch(batches, draws);
      hide *;
      var n := |batches| - 1;
      var before := CommitsStore(batches[..n], draws);
      var (db, cur) := Committed(batches[..n], draws);
      OneCommitMore(db, before, AllRows(batches[..n]), batches[n], draws);
      keys := before + PickKeys(db, batches[n], draws, cur).0;
    }
  }

  lemma LastBatch(batches: seq<seq<Instruction>>, draws: nat -> string)
    requires batches != []
    ensures var n := |batches| - 1; var (db, cur) := Committed(batches[..n], draws);
            var (keys, next) := PickKeys(db, batches[n], draws, cur);
            && Committed(batches, draws) == (Put(db, keys, batches[n]), next)
            && AllRows(batches) == AllRows(batches[..n]) + batches[n]
  {
  }

  /** So a lookup after any such sequence returns exactly the rows ever committed for the
      entity, if and only if no other entity's key starts with its id. */
  lemma LookupAfterCommits(batches: seq<seq<Instruction>>, draws: nat -> string, id: string) returns (keys: seq<string>)
    requires NeverRepeats(draws) && forall j: nat :: |draws(j)| == 5
    ensures var log := AllRows(batches);
            && Stores(Committed(batches, draws).0, keys, log)
            && (multiset(RowsUnder(keys, log, id)) == multiset(RowsOf(log, id)) <==>
                  forall i :: 0 <= i < |log| && id <= KeyWith(log[i].subjectId, draws(i)) ==> log[i].subjectId == id)
  {
    keys := CommitsStore(batches, draws);
    hide Committed, AllRows, KeyWith, Stores, RowsUnder, RowsOf;
    GetEntityIsExact(Committed(batches, draws).0, keys, AllRows(batches), id);
  }
}
