# Verification model of gocrud

Gocrud stores every entity as append-only graph edges, rebuilds trees of entities from them
with concurrent recursive queries, and keeps a search index in step. This project models
that core in Dafny and proves what it promises. `dafny verify dfyconfig.toml` checks the
whole project.

## How the model is organised

- **Shared data.** `Types` has the `Instruction` row and the timestamp order. A store is a
  list of rows in commit order. What a read may see of an entity is *any* timestamp-sorted
  permutation of its rows, because engines return rows in any order and `sort.Sort` is not
  stable. `Seqs` has list facts.
- **Queries.** `QueryModel` gives the meaning of a query: the tree the recursion builds
  sequentially (`Answer`). `QueryRun` is `doRun` as a step system: every goroutine is a node
  of a tree of activations, a step is a fetch, one row, a receive from any ready child, or
  the final answer, and channels are unbuffered, so a send and its receive are one step.
  `QuerySchedule` and `QueryTheorems` prove that every interleaving
  delivers that meaning. `Delivers` says how: the same tree with the order of children, and
  of versions with equal timestamps, forgotten, each column in time order, the kind that of
  an earliest row. `QueryOutcomes` has the exact set of results that interleavings can
  deliver, with their order. `QueryPaths`, `QueryDepth` and `QueryDelete` prove what results contain,
  for everything that delivers. `QueryBuilder` is the mutable `Query` tree, with `doRun`
  and `Run` as imperative methods on it that follow one schedule.
- **Versions.** `Versioning` has `Versions` and the history of a column over many updates;
  `Summary` has `ToMap`.
- **Updates.** `UpdateModel` says which instructions a tree stands for; `UpdateBuilder` is
  the mutable `Update` tree and `Execute`, each node carrying the draft it stands for as
  ghost state. `Forest`, `ForestQuery` and `ForestUpdate` prove the forest invariant over
  all histories; `UpdateRows` says which rows are stored in terms of the caller's draft
  alone; `RoundTrip` and `EndToEnd` prove that what is written is what is read.
- **Indexing.** `Indexer` interleaves commits, sends on the bounded channel, and workers
  that stamp, read and write.
- **Drivers.** `LeveldbDriver` and `PrefixFreeRuns` treat prefix lookup as an index;
  `Paging`, `CassandraScan` and `LevelScan` the paged scan with an exclusive and with an
  inclusive start; `KeyOrder` the key order. `Memsearch` is the in-memory search engine,
  `SearchMeaning` what its clauses and orders mean for field values.

Randomness (id and key draws), clocks, the regular expression engine, the order in which
Go ranges over a map, and whether a commit fails are parameters or left open by contracts.
A JSON value is its text. Where the code calls `log.Fatal`, the model either proves the call
unreachable (`Versions.add`), returns an error (`Execute` without a character count, a child
that already has an id), or asks for the condition as a precondition (sorting documents).

## Where the code and its description differ

- An AND filter keeps a document at its *first* accepting clause
  (drivers/memsearch/memsearch.go:238-254). `Memsearch.AndFilterIs` says exactly when that
  is the conjunction, `Memsearch.AndIsNotConjunction` gives a document on which it is not.
  Without any clause it keeps no document, where the conjunction would keep all.
- Kinds and ids are joined by a colon to make a key (drivers/memsearch/memsearch.go:66);
  `Memsearch.KeysMeet` says exactly which kinds can then share keys.
- `From` at or past the end of the result is ignored, so such a page starts at the
  beginning again (drivers/memsearch/memsearch.go:319); see `Memsearch.PageIsWindow`.
- `IsNew` asks the store only (store/update.go:190), so ids drawn within one `Execute` can
  collide with each other; `ForestUpdate.RepeatedDrawBreaksForest` shows the effect, and
  `ForestUpdate.ExecuteKeepsForest` says exactly when all is well.
- `store.Iterate` promises that zero found entities mark the end (store/store.go:36-38).
  The LevelDB scan restarts *at* the last id and always finds it again, so `LoopOnce` over
  it ends if and only if the store is empty (`LevelScan.LoopTurns`). `LevelScan.LoopChunks`
  says what each turn sends, `LevelScan.SentIff` when every entity is among it.
- LevelDB finds entities by key prefix; `LeveldbDriver.GetEntityIsExact` says exactly when
  that is right, `PrefixFreeRuns.PrefixFreeIff` exactly when an `Execute` keeps it so, and
  `PrefixFreeRuns.ShortRootLeaks` gives a case where it does not.
- The LevelDB `Commit` looks for its keys in the database only, and keeps the tenth draw
  whether free or not; `LeveldbDriver.PutIsWhole` says exactly when no row is overwritten.
- Rows with equal timestamps are read in any order; `Versioning.DeterminedIff` says exactly
  when a column does not depend on it.

## Model

| member | source | states |
|---|---|---|
| Types.Sort | x/x.go:112-117 | sorting in place through Less and Swap only leaves the same rows, as a multiset, in some timestamp order; nothing is promised about ties |
| Types.SomeOrder | x/x.go:112-117 | every list of rows has a timestamp order, so the set of possible reads is never empty |
| QueryModel.SpawnBelow | store/query.go:234-257 | any activation that a row starts is smaller than its parent in the lexicographic measure (height of the remaining Collect tree, max minus level), whatever the stored graph |
| QueryModel.LastIsFollowed | store/query.go:176-180 | of several sub-queries of one kind the last one is followed |
| QueryModel.AnswerUnfold | store/query.go:162-277 | the sequential answer of an activation: absent when there are no rows or one of them discards, else id, earliest kind, columns and the answers of all activations its rows start |
| QueryModel.FaithfulKind | store/query.go:184-186 | a delivered node shows the entity's kind when all rows of the entity agree on it, although the code takes it from one row |
| QuerySchedule.ColumnsStep | store/query.go:219-231 | handling one more row changes the columns exactly as Versions.add does, and edges and parent rows leave them alone |
| QuerySchedule.AddNeverFatal | store/query.go:53-62 | on rows in timestamp order the fatal branch of add cannot be taken, at any row of any entity |
| QuerySchedule.VisibleAnyOrder | store/query.go:191-217 | whether an entity is discarded depends on which rows it has, not on the order they come in |
| QuerySchedule.AnsweredIsRight | store/query.go:260-277 | rows in any timestamp order together with the children's answers in any order make the sequential answer, up to that order |
| QuerySchedule.StepKeeps | store/query.go:162-277 | every step of every goroutine (fetch, one row, receive from any ready child, finish, or a step inside a child) keeps the invariant of the whole tree of activations |
| QueryTheorems.StepWorks | store/query.go:162-277 | every step strictly lowers the work left, a number fixed by the store and the query before anything starts |
| QueryTheorems.CanStep | store/query.go:260-275 | an activation that has not offered its message can move, alone or through a child: no deadlock on the unbuffered channels |
| QueryTheorems.ReachesInv | store/query.go:162-292 | every state reached by any interleaving satisfies the invariant, and steps made plus steps left never exceed the initial work |
| QueryTheorems.InvOrderly | store/query.go:162-277 | nobody dies in add, nobody sends twice, and an activation that answers with a node has taken exactly one message from each child it started |
| QueryTheorems.ScheduleIndependence | store/query.go:162-292 | whatever the interleaving, what Run receives is the sequential tree up to order; Run is never left waiting; every schedule is finite |
| QueryTheorems.CanComplete | store/query.go:282-292 | from every reachable state some continuation delivers |
| QueryOutcomes.OutcomesAre | store/query.go:162-292 | the exact set of results that Run can receive: those made by reading the rows of every entity in some timestamp order and receiving the children of every node in some order; each of these really happens under some interleaving, and no other does |
| QueryOutcomes.CanSend | store/query.go:260-277 | for any such choice of reads and of orders, at every node independently, there is a schedule that has the activation send that result |
| QueryOutcomes.StepTracked | store/query.go:162-277 | every step keeps the record of which children have been received, in which order, and what was kept of their messages |
| QueryOutcomes.OutcomesDeliver | store/query.go:162-292 | every such outcome is the sequential tree up to order |
| QueryPaths.PathCharacterisation | store/query.go:176-257 | on any store a path of entities occurs in a delivered result exactly as often as there are row paths whose every edge is followed (matching Collect restarted at level 0, else level below max) and whose every node has rows, no delete mark unless allowed, and nothing filtered out |
| QueryPaths.WalksCounted | store/query.go:191-257 | the number of admissible row paths along a list of ids equals the occurrences of that list in the sequential answer |
| QueryPaths.WalkHasTrail | store/query.go:234-257 | a counted row path comes with the activations that follow it, edge by edge |
| QueryPaths.TrailIsWalk | store/query.go:234-257 | and every row path with such activations is counted |
| QueryPaths.OccurrencesAnyOrder | store/query.go:261-273 | occurrences do not depend on the order in which children were received |
| QueryDepth.DepthMonotone | store/query.go:113-116 | without Collect, the result to depth d is the result to depth d+1 with everything deeper than d cut off, also on cyclic stores |
| QueryDepth.DepthOfAnswer | store/query.go:248-257 | the same for any activation at any level, by induction over the recursion |
| QueryDelete.EditedAnswer | store/query.go:191-200 | after a later delete mark on v every activation answers as before with the subtrees at v removed, or, when deleted entities are allowed, with one more version in v's delete column |
| QueryDelete.DeletionIsPruning | store/query.go:191-200 | the same for what concurrent runs deliver before and after any later delete mark |
| QueryDelete.RootFlagGoverns | store/query.go:234-252 | the root's AllowDeleted decides for every node of a run; flags of sub-queries never matter |
| QueryBuilder.Query.constructor | store/query.go:101-105 | a one-node query tree standing for the plan with that id and depth 0 |
| QueryBuilder.Query.UptoDepth | store/query.go:113-116 | changes the depth in this node's plan and keeps the whole tree consistent with its plans |
| QueryBuilder.Query.AllowDeleted | store/query.go:121-124 | sets the flag in this node's plan only |
| QueryBuilder.Query.FilterOut | store/query.go:147-153 | adds one property to this node's filters, keeping earlier ones |
| QueryBuilder.Query.Collect | store/query.go:131-143 | returns the existing sub-query of the kind and changes nothing, or appends a fresh one that inherits the flag; kinds stay distinct at every node of the tree |
| QueryBuilder.Query.PlanKindsApart | store/query.go:131-143 | so every query that can be built meets the distinct-kinds condition of PathCharacterisation |
| QueryBuilder.Query.Root | store/query.go:155-160 | following parents ends at the one node without a parent |
| QueryBuilder.Query.FollowMap | store/query.go:176-180 | the follow map agrees with the lookup in which a later sub-query of a kind wins |
| QueryBuilder.Query.Spawn | store/query.go:234-257 | the follow map and the level decide on exactly the activation that the model starts for the row, or on none |
| QueryBuilder.Query.Own | store/query.go:235-250 | the copied or new Query object stands for that activation: its own id, the parent's flag, and for a followed kind the same filters and the same sub-queries |
| QueryBuilder.Query.KeepRow | store/query.go:202-258 | one turn of the loop for a row that does not discard: columns and started children grow as the model says, and the fatal branch of add is not reached |
| QueryBuilder.Query.VisitRows | store/query.go:188-258 | the loop over sorted rows: discards exactly when some row does, otherwise holds all columns and all children; the fatal branch is not reached |
| QueryBuilder.Query.RunKids | store/query.go:260-273 | awaiting the children collects exactly their non-empty answers |
| QueryBuilder.Query.DoRun | store/query.go:162-277 | the imperative recursion terminates on any store and delivers the answer of its activation |
| QueryBuilder.Query.Run | store/query.go:282-292 | an error exactly when the root's id is empty, otherwise the answer of the root at level 0, from whichever node Run is called |
| QueryBuilder.AddTo | store/query.go:227-231 | creates the column when missing and appends; fails exactly where add is fatal; no other column changes |
| Versioning.Versions.Add | store/query.go:53-62 | appends, or refuses exactly when the new version is older than the last; keeps time order |
| Versioning.Versions.Latest | store/query.go:64-70 | in a non-empty column in time order, a version that no other is later than |
| Versioning.Versions.Oldest | store/query.go:72-77 | in a non-empty column in time order, a version that no other is earlier than |
| Versioning.Versions.Count | store/query.go:79-81 | the number of versions held |
| Versioning.VersionHistory | store/query.go:174-231 | over any history of Execute calls under a strictly increasing clock, whatever order the store returns rows in, each column is exactly the list of values ever set, in update order; their number is the number of updates that set the property |
| Versioning.CountIs | testx/store_test.go:35-46 | the list of values ever set is as long as there are updates that set the property |
| Versioning.DeliveredHistory | store/query.go:162-277 | each column is exactly the list of values ever set, in update order, at every node of what any run delivers |
| Versioning.DeterminedIff | x/x.go:112-117 | a column is the same in every possible read of an entity if and only if no two different values of it carry one timestamp |
| Versioning.SetByHistory | store/update.go:135-155 | the property rows committed for an entity are the values set for it, in order; edges set nothing |
| Summary.ToMap | store/query.go:305-345 | for clean names: id, kind, the latest value per column, the global aggregates with the creation capped by the clock reading of this very call, and per kind the list of all children of that kind, recursively, each with a reading of its own; no other key; the order of ranging over maps does not matter |
| Summary.OwnFields | store/query.go:306-327 | modifier and modification_ms come from a newest version over all columns, creator and creation_ms from an oldest one capped by the given reading of the clock, each present exactly when such a version exists after the epoch, or before that reading |
| Summary.Millis | store/query.go:326-327 | a time in nanoseconds as milliseconds: divided by 1000000 and cut toward zero |
| Summary.CreatorShown | store/query.go:321-326 | when all versions are older than the call, creator is present and signs an oldest version over all columns, and creation_ms is its time |
| Summary.NewestStep | store/query.go:316-320 | comparing Latest of one more sorted column with the newest so far gives a newest version over all columns seen |
| Summary.OldestStep | store/query.go:321-324 | comparing Oldest of one more sorted column with the oldest so far gives an oldest version over all columns seen, capped by now |
| Summary.ListIs | store/query.go:328-343 | the list of a kind shows the children of that kind, each once, in order |
| Summary.DeliveredIsProper | store/query.go:219-231 | what a run delivers has non-empty columns in time order, as ToMap needs |
| UpdateModel.FlatCount | store/update.go:134-225 | a tree generates one instruction per property and two per parent-child pair, no more and no fewer |
| UpdateModel.FlatEmpty | store/update.go:243-245 | nothing is generated exactly for a root without properties and children |
| UpdateModel.FoundId | store/update.go:187-197 | the search for an id gives up after exactly 31 draws that are all taken, and else ends with the first that is new |
| UpdateModel.DistinctIs | store/update.go:254-262 | the notification loop sends each touched entity once, no other, in first-appearance order |
| UpdateModel.DistinctIsPreorder | store/update.go:254-262 | for a tree of distinct entities that is the tree itself, parents before children |
| UpdateBuilder.Update.constructor | store/update.go:28-39 | a one-node tree standing for an empty draft with that kind, id and time |
| UpdateBuilder.Update.SetSource | store/update.go:43-46 | changes the source in this node's draft and keeps the whole tree consistent with its drafts |
| UpdateBuilder.Update.Set | store/update.go:72-79 | replaces one property of this node's draft |
| UpdateBuilder.Update.MarkDeleted | store/update.go:85-87 | sets the reserved delete property to true |
| UpdateBuilder.Update.AddChild | store/update.go:56-65 | appends a last child that inherits source and time and has no id; the tree stays closed, with one parent per child |
| UpdateBuilder.Update.Root | store/update.go:96-101 | following parents ends at the one node without a parent |
| UpdateBuilder.Update.Stamp | store/update.go:115-120 | stamps this node and everything below it, and nothing else |
| UpdateBuilder.Update.SetCommitTs | store/update.go:125-132 | stamps the whole tree when called on the root; on a child nothing in the tree changes |
| UpdateBuilder.Update.PushProperties | store/update.go:135-155 | one instruction per property in some order of the map; fails exactly when there are properties and no source |
| UpdateBuilder.Update.DrawId | store/update.go:187-197 | the first of up to 31 draws that IsNew accepts; none exactly when all 31 are taken |
| UpdateBuilder.Update.DoExecute | store/update.go:134-225 | succeeds exactly when every node that generates rows has a source and ids can be found, and otherwise with an error that names what is missing; on success appends exactly the rows of the tree, and the objects carry the ids |
| UpdateBuilder.Update.ExecuteKids | store/update.go:180-224 | the loop over children assigns ids and appends rows child by child, leaving other subtrees alone |
| UpdateBuilder.Update.ExecuteKid | store/update.go:180-223 | one child: an id, the two edges, its own rows; fails exactly on a child with an id, on exhausted draws or inside the child |
| UpdateBuilder.Store.Commit | store/store.go:18-19 | all rows are appended or none |
| UpdateBuilder.Report | store/update.go:254-262 | the loop with its map of seen entities sends the distinct entities |
| UpdateBuilder.Execute | store/update.go:230-265 | exact success condition; what each error says: a node that generates rows without a source, a child with an id, 31 draws in a row taken, nothing generated, a failing commit; on failure nothing is stored or sent; on success the store grows by exactly the rows that the draft, with its new ids, asks for, properties + 2*(nodes - 1) in number, and each entity is sent once |
| UpdateRows.RowsAreSaid | store/update.go:134-225 | the rows stored are exactly these: for every node of the draft one per property with its value, and for every child an edge named after its kind and a `_parent_` row back; each with kind and id of its subject, and both links with source and time of the parent |
| UpdateRows.Signed | store/update.go:204-216 | every row carries source and time of one node of the draft: a parent row those of the parent it names, any other row those of its subject |
| UpdateRows.SourcedIff | store/update.go:136-139 | the check for sources passes if and only if no row of the draft would go without one |
| UpdateRows.OneTime | store/update.go:56-65 | when all nodes carry one time, as AddChild and SetCommitTs see to, so do all rows |
| UpdateRows.StampedIs | store/update.go:115-120 | stamping changes the times of all nodes to the given one, and nothing else |
| UpdateRows.StampedRows | store/update.go:115-132 | after SetCommitTs the draft stores the same rows as before but for their time, which is the given one |
| Forest.AddTree | store/update.go:180-223 | committing a tree with new, distinct ids keeps the forest: edges and parent rows come in pairs with equal source and time, nobody has two parents |
| Forest.ForestIffDistinct | store/update.go:180-223 | descendants being new to the store, committing a tree keeps the forest if and only if the ids of its nodes are distinct |
| Forest.HistoryIsForest | store/update.go:230-265 | every history of Execute calls leaves a forest |
| Forest.OneParent | store/query.go:92-96 | an entity has at most one parent row in the whole store |
| Forest.FindParent | store/query.go:85-97 | the loop of Parent finds the first parent row, or none |
| Forest.ParentAnyOrder | store/query.go:85-97 | on a forest Parent answers the same whatever order rows come in |
| Forest.ParentIsOlder | store/update.go:209-216 | a parent has its first row before its child has |
| Forest.Acyclic | store/update.go:180-223 | going up from an entity never comes back to it |
| ForestQuery.AnswerTidy | store/query.go:162-277 | every entity in an answer is below the root in the parent relation and is there once |
| ForestQuery.EachEntityOnce | store/query.go:113-116 | a result over a forest lists each entity at most once, with any depth and any sub-queries |
| ForestUpdate.AssignedKids | store/update.go:187-197 | the ids one Execute assigns are values of its draws, each accepted by IsNew, and distinct if the draws are |
| ForestUpdate.AssignedNamed | store/update.go:187-189 | giving out ids changes nothing else in the tree, and every child had none before |
| ForestUpdate.ExecuteKeepsForest | store/update.go:187-223 | a successful Execute keeps the forest if and only if the ids it assigned, a function of the draft, the draws and the store, are distinct; all it needs otherwise is that reserved predicates are not used |
| ForestUpdate.DistinctDraws | store/update.go:187-197 | that is so when the draws differ from each other and from the root's id |
| ForestUpdate.RepeatedDrawBreaksForest | store/update.go:187-197 | a generator that repeats itself: IsNew does not see ids drawn earlier in the same run, so two children of a new root share an id and the forest is lost |
| RoundTrip.ReadTree | store/query.go:162-277 | a subtree whose rows sit anywhere in a store reads back as itself when enough depth is left |
| RoundTrip.WriteThenRead | store/query.go:282-292 | under a root without prior rows any run to at least the tree's height delivers exactly the written tree up to child order: ids, kinds, and one version per property with value, source and time |
| EndToEnd.ExecuteWritesDraft | store/update.go:134-265 | what a successful Execute writes is what the caller built, row for row, with the missing ids filled in |
| EndToEnd.ExecuteThenRun | store/update.go:230-265 | the round trip stated for Execute itself: from a draft, a generator whose draws differ, and whatever tree Execute wrote |
| EndToEnd.MarkDeletedPrunes | store/update.go:81-87 | executing NewUpdate(kind, id).MarkDeleted() no earlier than anything the entity has commits one row, and runs then deliver their earlier result without its subtrees, or with the mark when deleted entities are allowed |
| EndToEnd.SameAnswer | store/query.go:162-277 | an answer depends on the rows of the entities that it reads, following the nodes that show, and on no others |
| EndToEnd.IndexIsCurrent | indexer/indexer.go:24-35 | at rest, when updates of all that a query reads have an entity regenerated, the results from which its document can have been made by that query, of any depth and with any sub-queries, are exactly those the query can deliver now |
| EndToEnd.DocumentIsCurrent | usage_test.go:77-90 | in particular for NewQuery(id).Run(), as soon as OnUpdate names the entity itself |
| Indexer.CommitCovers | store/update.go:247-263 | a commit puts every touched entity on its way to all that it affects and disturbs no other |
| Indexer.WriteCovers | drivers/memsearch/memsearch.go:65-74 | keeping the strictly newer of two documents never loses an up-to-date one, because stamps are taken before reads |
| Indexer.StepKeeps | indexer/indexer.go:41-68 | every step of senders and workers keeps, for every touched entity and everything OnUpdate names for it, the document up to date or an update on its way; nothing is in the pipeline that nobody asked for, and the channel holds no more than its capacity |
| Indexer.ReachesInv | indexer/indexer.go:41-87 | so does every interleaving of any length with any number of workers |
| Indexer.IndexAgreesWithStore | indexer/indexer.go:44-66 | when the pipeline is at rest, for every touched entity of a registered kind, every entity of a registered kind that OnUpdate names for it has a document, made from a store holding every row ever committed for the touched one |
| Indexer.IndexedIff | indexer/indexer.go:44-66 | at rest an entity has a document if and only if its kind is registered and OnUpdate named it for some touched entity of a registered kind |
| Indexer.StepShortens | indexer/indexer.go:41-68 | every step other than a commit lowers the backlog |
| Indexer.NeverStuck | indexer/indexer.go:70-87 | with one worker or more the pipeline can always move until it is at rest, for any channel capacity |
| Indexer.ComesToRest | indexer/indexer.go:83-87 | from every reachable state some continuation without commits comes to rest within the backlog |
| Indexer.EveryRunRests | indexer/indexer.go:83-87 | every continuation without commits is at most as long as the backlog, and where none is possible any more everything is at rest |
| LeveldbDriver.Leveldb.IsNew | drivers/leveldb/leveldb.go:43-62 | true exactly when no stored key starts with the id |
| LeveldbDriver.Leveldb.ChooseKey | drivers/leveldb/leveldb.go:66-83 | the first of up to ten keys that the database does not hold; a taken key only when all ten are |
| LeveldbDriver.PickedFree | drivers/leveldb/leveldb.go:66-83 | the same about the value that the loop computes |
| LeveldbDriver.PicksDrawn | drivers/leveldb/leveldb.go:65-84 | the keys of a batch: row i has its own subject and draw at[i], where the draws are used in order and never twice, those passed over gave taken keys, and a taken key stands only after ten tries |
| LeveldbDriver.FreeKeysIff | drivers/leveldb/leveldb.go:65-84 | the keys collide neither with the database nor with each other if and only if no row's last draw gives a taken key and no two rows of one entity drew alike |
| LeveldbDriver.GoodDrawsServe | drivers/leveldb/leveldb.go:65-84 | when no draw repeats and none gives a taken key, row i gets the i-th draw and no row is lost |
| LeveldbDriver.CommitsStore | drivers/leveldb/leveldb.go:64-103 | with a generator that never repeats itself, after any sequence of commits the database holds exactly the rows committed, the i-th under its subject and draw i |
| LeveldbDriver.LookupAfterCommits | drivers/leveldb/leveldb.go:64-126 | and a lookup then returns exactly the rows ever committed for the entity, if and only if no other entity's key starts with its id |
| LeveldbDriver.Leveldb.Commit | drivers/leveldb/leveldb.go:64-103 | every row gets a key of its own subject with a draw of its own, in order; the database becomes the batch put over what it held; it grows by the whole batch if and only if the keys are free, which they are when no draw repeats and none gives a taken key, and then stores exactly the old rows and the new ones, one key each |
| LeveldbDriver.Leveldb.GetEntity | drivers/leveldb/leveldb.go:105-126 | returns the rows whose key starts with the id, each once |
| LeveldbDriver.Leveldb.Iterate | drivers/leveldb/leveldb.go:128-163 | one page of the rows from fromId on: entities at first appearance, stopping at the num-th, with the last row's entity |
| LeveldbDriver.PutStores | drivers/leveldb/leveldb.go:86-99 | a batch under free keys extends the stored rows by the batch |
| LeveldbDriver.PutIsWhole | drivers/leveldb/leveldb.go:86-99 | a batch is stored in full if and only if its keys collide neither with the database nor with each other |
| LeveldbDriver.GetEntityIsExact | drivers/leveldb/leveldb.go:105-126 | GetEntity returns exactly the rows of the subject if and only if no other subject's key starts with the id |
| LeveldbDriver.PrefixFreeIsExact | store/store.go:21-29 | for ids that fit into a prefix-free store the driver is the plain row list: GetEntity is exact and IsNew means no rows |
| LeveldbDriver.NewMeansUnused | drivers/leveldb/leveldb.go:43-62 | without any condition, an id found new has no rows and is no prefix of an id that has |
| PrefixFreeRuns.PrefixFreeIff | store/update.go:187-197 | drawn ids being found new and of one length, an Execute keeps the ids prefix-free if and only if the root fits into the store, no stored id starts a drawn one, and no drawn id and the root start one another |
| PrefixFreeRuns.StepKeepsPrefixFree | store/update.go:187-197 | so it does when ids are at least as long as the draws and no draw is a prefix of the root |
| PrefixFreeRuns.RunIsPrefixFree | store/update.go:187-197 | so does every sequence of them |
| PrefixFreeRuns.LookupIsExact | drivers/leveldb/leveldb.go:64-126 | what is written to LevelDB is what is read back: after any such run, with a generator of keys that never repeats itself, a lookup of any id that fits into the store returns exactly the rows ever committed for it |
| PrefixFreeRuns.ShortRootLeaks | drivers/leveldb/leveldb.go:105-108 | with a root shorter than the draws it can fail, and the root's lookup then returns another entity's row |
| KeyOrder.LessIs | drivers/leveldb/leveldb.go:130-135 | the order of keys and of strings: a proper prefix first, else the smaller character at the first difference |
| Paging.EmitPage | drivers/cassandra/cassandra.go:122-139 | the loop sends each new entity of the rows it takes, counts them, and stops at the num-th or at the end |
| Paging.PageIs | drivers/leveldb/leveldb.go:133-156 | over contiguous rows a page is the next num entities of the whole list, and it ends on the last of them |
| CassandraScan.Server.Iterate | drivers/cassandra/cassandra.go:119-143 | sends each entity of the selected rows once and reports their number and the last row's entity |
| CassandraScan.Selected | drivers/cassandra/cassandra.go:73-74 | a page holds only rows strictly after fromId, at most num of them, and all of them if there are fewer |
| CassandraScan.Server.LoopOnce | indexer/server.go:58-80 | terminates and sends every entity of the table exactly once, in scan order, for any page size, although pages are limited in rows and may end inside an entity |
| CassandraScan.Turn | indexer/server.go:61-77 | each turn either has reached the end of the table or moves on, and what is left of a split entity adds nothing |
| CassandraScan.EachOnce | indexer/server.go:57-58 | the list sent has no duplicates and holds exactly the table's entities |
| LevelScan.LoopTurns | indexer/server.go:58-80 | over every store of this driver, for any page size: the loop ends, and then at once, if and only if the store is empty; otherwise every turn finds something |
| LevelScan.NothingFound | store/store.go:36-38 | a turn that starts at the beginning or at an id with rows finds no rows if and only if the store has none |
| LevelScan.LoopChunks | indexer/server.go:58-77 | over a non-empty store with prefix-free ids and one kind per id, the first k turns: turn c sends exactly the entities from position c*(num-1) on, so only the boundary entity is sent again and none is skipped |
| LevelScan.PassedIs | drivers/leveldb/leveldb.go:128-163 | where each turn starts, in closed form |
| LevelScan.ChunkStep | drivers/leveldb/leveldb.go:128-163 | restarting at the last id re-finds the first row of that entity and nothing before it |
| LevelScan.StoreIsWhole | drivers/leveldb/leveldb.go:130-135 | the key order of a prefix-free store keeps the rows of an entity together and covers every entity |
| LevelScan.AllSentEventually | indexer/server.go:57-80 | with pages of two or more, entity i has been sent by turn i |
| LevelScan.SentIff | indexer/server.go:57-80 | every entity is sent sooner or later if and only if pages hold two or more, or there is only one entity |
| LevelScan.StuckWithPagesOfOne | indexer/server.go:61-77 | with pages of one every turn re-sends the first entity for ever |
| Memsearch.KeyInjective | drivers/memsearch/memsearch.go:66 | so keys tell entities apart when kinds contain no colon |
| Memsearch.KeysMeet | drivers/memsearch/memsearch.go:66 | entities of two kinds can share a key if and only if one kind followed by a colon starts the other |
| Memsearch.MemSearch.Update | drivers/memsearch/memsearch.go:65-74 | a document replaces only a strictly older one, or nothing; all others stay |
| Memsearch.MemSearch.NewQuery | drivers/memsearch/memsearch.go:54-63 | the stored documents of the kind, each once, in some order |
| Memsearch.NewestStays | drivers/memsearch/memsearch.go:65-74 | after any sequence of updates the engine holds, for every key, the newest document ever given for it, the first of them if several are equally new, and nothing else |
| Memsearch.UpdatesAnyOrder | drivers/memsearch/memsearch.go:65-74 | when times tell the documents of an entity apart, the order in which updates arrive does not matter |
| Memsearch.MemFilter.AddExact | drivers/memsearch/memsearch.go:88-94 | appends an exact clause |
| Memsearch.MemFilter.AddRegex | drivers/memsearch/memsearch.go:96-102 | appends a clause with no value, which an empty expression turns into an exact one for nil |
| Memsearch.MemQuery.NewAndFilter | drivers/memsearch/memsearch.go:76-80 | replaces any filter by an empty conjunctive one |
| Memsearch.MemQuery.NewOrFilter | drivers/memsearch/memsearch.go:82-86 | replaces any filter by an empty disjunctive one |
| Memsearch.JudgeIs | drivers/memsearch/memsearch.go:265-281 | kept exactly when some clause accepts and no clause up to it has an empty field; an error exactly when the search reaches an empty field; dropped exactly when no clause does either |
| Memsearch.MemQuery.Decide | drivers/memsearch/memsearch.go:266-281 | the inner loop over clauses gives that verdict |
| Memsearch.MemQuery.Compact | drivers/memsearch/memsearch.go:260-290 | compacting into the slice being read equals filtering a copy; an error exactly when some document meets an empty field |
| Memsearch.AndFilterIs | drivers/memsearch/memsearch.go:233-258 | whenever the AND loop does not fail, it gives the conjunction if and only if there are no documents, or there are clauses and no document is accepted by some of them and not by all |
| Memsearch.AndIsNotConjunction | drivers/memsearch/memsearch.go:245-255 | a document that the AND filter keeps although it fails the first clause |
| Memsearch.MemQuery.KeepEligible | drivers/memsearch/memsearch.go:215-222 | in-place compaction to the documents that have the sort field |
| Memsearch.MemQuery.Sort | drivers/memsearch/memsearch.go:156-203 | sorting the slice in place through Less and Swap permutes it into order, ascending or descending |
| Memsearch.MemQuery.BringOrder | drivers/memsearch/memsearch.go:205-231 | the eligible documents in some order by the field |
| Memsearch.OneOrder | drivers/memsearch/memsearch.go:224-229 | with pairwise distinct sort values there is only one order |
| Memsearch.MemQuery.Page | drivers/memsearch/memsearch.go:319-324 | reslicing by From and Limit |
| Memsearch.PageIsWindow | drivers/memsearch/memsearch.go:319-324 | From and Limit, with or without a limit, give the window they name if and only if it starts inside the result or the result is empty; a From at or past the end is ignored |
| Memsearch.MemQuery.Run | drivers/memsearch/memsearch.go:310-326 | filter, order, page: exact error condition, and the page of the filtered, ordered list |
| Memsearch.MemQuery.Count | drivers/memsearch/memsearch.go:328-335 | the number of matching documents, not ordered |
| Memsearch.RunsAgree | drivers/memsearch/memsearch.go:54-63 | with pairwise distinct sort values two runs order the matches alike, whatever order the map produced |
| Memsearch.PagesTile | drivers/memsearch/memsearch.go:310-326 | the pages From(k*L).Limit(L) that start inside the result, taken from separate runs with the map in any order, put together are the whole sorted list, without gap or overlap |
| SearchMeaning.NamesIff | drivers/memsearch/memsearch.go:107-109 | a field name stands for itself, or behind `data.` in any case for the rest |
| SearchMeaning.ClauseKeeps | drivers/memsearch/memsearch.go:104-138 | an exact clause accepts the documents whose field has that value, a regular expression those whose field is a string that it matches |
| SearchMeaning.ExactsKeep | drivers/memsearch/memsearch.go:260-290 | a filter of exact clauses never fails and keeps, in order, the documents that have one of the values asked for and no others |
| SearchMeaning.OrderMeans | drivers/memsearch/memsearch.go:167-231 | Order("f") lists the documents that have f with their values ascending, Order("-f") descending: numbers by size, strings by their first difference with a prefix first; `data.f` means f |
| SearchMeaning.OrderableIff | drivers/memsearch/memsearch.go:164-201 | sorting needs the field in every document and, when there are several, values of one of the five orderable types |

## Left out

- Network and database drivers (sqlstore, mongodb, rethinkdb, datastore, elasticsearch, and Cassandra apart from its scan): thin wrappers over libraries; the store contract stands in for them.
- `encoding/json` and `encoding/gob`: values are opaque, encoding and decoding succeed.
- Failing reads: `GetEntity` succeeds. The code logs a child's failure through the outer, nil error (store/query.go:265-266), so that path has no sensible result.
- A store that changes while a query runs: a run reads one fixed store.
- Rows without a kind: a message whose kind is empty is dropped by its receiver (store/query.go:268). The theorems about runs assume that stored kinds are not empty; children's ids never are.
- Two `Execute` calls racing between `IsNew` and `Commit`, and executing one `Update` twice: draws of different calls are assumed apart.
- QueryBuilder.Query.DoRun: runs children one after the other once all rows have been visited, and makes a child's copy of its Query then; this is one of the schedules, all others are covered by `QueryTheorems`, on values.
- QueryBuilder.Query.Collect: the number of steps to find an existing sub-query is not modelled.
- Indexer.IndexAgreesWithStore: the clock is strictly increasing, `OnUpdate` returns a list that depends on the entity only, `Regenerate` makes a document of the entity it is asked for and reads the store at one moment after taking its stamp, and a worker's update of the engine is one atomic step.
- The incremental server's own workers (indexer/server.go:39-55) and `InfiniteLoop`: the former are the workers of `Indexer` without `OnUpdate`, the latter repeats `LoopOnce`.
- LeveldbDriver.Leveldb.Commit: after a collision the driver's later behaviour is not modelled, since the rows it overwrote are gone; engine errors are left out.
- LevelScan.LoopChunks: any number of turns, given in advance, over a non-empty store with prefix-free ids and one kind per id, since the loop over this driver does not end there; `LevelScan.LoopTurns` has no such condition but says less about what is sent.
- CassandraScan.Server.LoopOnce: tokens tell ids apart, an id has one kind, and the empty string sorts before every id.
- Versioning.VersionHistory: all nodes of one update carry its root's timestamp, as AddChild sees to; setting a child's timestamp by other means is not modelled.
- Summary.ToMap: readings of the clock during the call are not before a floor that the caller names; names of columns, kinds of children and the keys that ToMap adds itself are disjoint; the code otherwise lets whichever is written last win.
- Memsearch.MemQuery.Run: a regular expression is only put to strings and sorted values have one orderable type, the code stopping otherwise; ordering is over reals for float64 and over unbounded integers; the `From`, `Limit` and `Order` setters are plain field assignments; calling Run twice, or Count together with Order, follows from the contracts but has no theorem.
- Unsynchronised access to the engine's map, and kinds with a colon beyond the clash shown.
- `UniqueString` (x/x.go:172-179) beyond the length of its result: its alphabet and its randomness.
- The registries, logging, HTTP helpers, `Drop`, `Debug`, `ToJson`, `Print`, examples and presentation programs: no behaviour of interest.
