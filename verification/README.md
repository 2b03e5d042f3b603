# eos-go: verified models of its stateful core

A Dafny 4.11 project on the parts of eos-go (an EOSIO node in Go) whose correctness is hardest to see: the undo
log of the object database, the fork database and fork switching, the lockstep of database revision and chain
head, the byte-ordered index keys, resource and memory accounting, the block log, and the text codecs of names
and assets. `dafny verify dfyconfig.toml` checks everything.

| file | part of the node |
|---|---|
| UndoLog, UndoLaws, UndoDatabase, UndoIndex | sessions of the object database: layers of undo records, their laws over every run, and the loops that implement them |
| Traces, Effects, Lockstep | session handles, transactions, scheduled transactions and blocks over that database, and what they leave in it |
| ForkTree, ForkDatabase (module ForkDb), ForkFlags | the tree of blocks, pruning, irreversibility and current-chain flags |
| ChainRules, ForkSwitch, ChainStore, Renaming | blocks applied in sessions and taken back by undoing them, switching forks with rollback, when the object database makes that exact, and databases that differ only in their ids |
| ByteOrder, Bits, IndexKeys, FloatKeys, TypedKeys | index keys whose byte order is the order of the fields |
| MapSum, ResourceLimits, RamRows | account limits and their totals, contract rows and their memory bill |
| BlockLog (module BlockLogs) | the two files of the block log |
| Names, Assets, AssetTexts | names and asset amounts as text |
| Options | a shared `Option` |

How the code is represented:

- Objects that the source updates in place are classes; each mutating method is tied to a step of a specification
  on values, and the laws are proved about runs of these steps. The store, the fork index and the tables are maps,
  files are byte sequences with a seek position.
- A thrown exception is a result value. After a throw the contracts only speak about what the source relies on.
- An undo layer keeps one map per record kind over (type name, id) keys; the source keeps such maps per type name.
- For fork switching, applying a block is a deterministic function of state, block and status that yields the state
  reached and the session's record, and undoing is a function of record and state (`Rules`); nothing says that
  undoing is exact. The statements about switches that lose nothing assume `Regular`: undoing does the same to
  states with the same objects; a block has the same effect on states that are alike (the same objects up to the ids
  they were given); and a block that applies under the full checks applies with the same result without them.
  `StoreRules` are these rules over the object database and the traces of blocks; for it the first part is proved
  (`StoresAreNear`), and all of it for blocks that insert nothing (`InsertFreeIsRegular`) and for blocks whose work
  respects a renaming of ids (`RenamingIsRegular`). In the latter, a database that holds an id never handed out, which
  does not arise, counts as one whose counters are above all its ids (`Raised`).
- The block header state, signatures and the choice among equally ranked blocks of an index are left open: contracts
  hold for every choice.
- Index entries are kept object by object, on the assumption that different objects have different entry keys.
- Machine integers are written out where they can wrap: 8-bit precision, 32-bit block numbers, row counts and index
  positions, 64-bit amounts and usage.

Where the code departs from its comments or from what one expects, the code is followed and the exact condition
is proved:

- An object modified and then removed in one session comes back modified (`LostUpdate`, `SessionRestores`).
- So popping or aborting a block need not bring the objects back (`ExactExactly`, `PoppedBranch`), and a failed fork
  switch can leave another database than before (`SwitchDoesNotRestore`), or one the old branch no longer applies to
  (the ending `Stranded`).
- Ids handed out are not taken back by undoing (`InsertedAgain`).
- The head of the controller can be settled away under it (`HeadSettled`); then only a child of it is followed.
- A squash loses the older value of a key modified below and removed above (`SquashThenUndo`).
- Undo restores objects but can leave index entries of a later version behind (`StaleEntry`, `UndoEntriesProper`).
- A transaction with extensions leaves its session open (`PushTransaction`, `PushScheduled`); a block that holds one
  breaks the lockstep of revision and head for good (`ApplyBlock`, `LeakedBlockStays`).
- `UpperBound` on a key that ends in byte 255 finds rows that are not greater (`UpperBoundExact`).
- Signed integer keys sort negative numbers after positive ones (`SignedOrder`).
- Each kind of table index remembers its own copy of a table, so a table used by two kinds can be dropped while it
  has rows (`RemovalCounts`, `LiveTableDropped`).
- `ReadHead` takes the end of the genesis data for a position while there is no block.
- The block log compares block numbers modulo 2^29 (`AgreesExactly`, `WrappedNumberTaken`).
- Reading an asset can miss an overflow and take a text that is no number for zero (`OverflowMissed`, `NoNumberIsZero`).
- `NameSuffix` counts leading dots as dots, although its comment says they do not count.

## Model

| member | source | states |
|---|---|---|
| `UndoLog.UndoStore` | database/database.go:234-269 | undoing a layer over a whole store acts key by key: every key, recorded or not, ends with the value the layer says it returns to |
| `UndoLaws.StepKeepsWf` | database/undo_state.go:81-116 | every operation, called on live objects, keeps the database well formed: in each layer a key is recorded by at most one of the three maps, records agree with what is live, never-issued ids are recorded nowhere, and revisions are consecutive and end at the database revision |
| `UndoLaws.SquashComposes` | database/database.go:982-1018 | undoing a squashed layer equals undoing its two parts, at a given key, if and only if the lower part did not modify a key that the upper removed with another value |
| `UndoLaws.TouchMovesHorizon` | database/undo_state.go:81-116 | an insertion, modification or removal changes what older sessions will bring back for no other key, and for its own key exactly as far down as no older layer records it |
| `UndoLaws.SquashMovesHorizon` | database/database.go:982-1018 | a squash changes what an older session will bring back exactly for keys modified below and removed above that no layer in between records |
| `UndoLaws.StepKeepsPromises` | database/database.go:234-328 | each faithful call keeps, for every open session at any depth and every key, the promise of what undoing down to that session brings back: the snapshot taken at its start, or the removed value of a lost key |
| `UndoLaws.RunKeepsPromises` | database/database.go:234-328 | the same over every run of calls with any nesting of sessions, squashes and commits |
| `UndoLaws.UndoKeepsPromise` | database/database.go:234-269 | Undo makes the newest promise true at every key |
| `UndoLaws.InsideKeepsBelow` | database/database.go:271-306 | no call inside a session changes the layers below it or the snapshot it remembers |
| `UndoLaws.SessionUndoes` | database/database.go:234-269 | starting a session, making any faithful calls with nested sessions, and undoing restores layers, revision and every key; only keys modified and then removed come back with the value they had when removed |
| `UndoLaws.SessionRestores` | database/undo_state.go:86-105 | the whole store is the snapshot again if and only if every such key was removed with the value it had at the start |
| `UndoLaws.LostUpdate` | database/undo_state.go:93-97 | an object modified and then removed in one session comes back modified, so the unconditional law is false |
| `UndoLaws.SquashThenUndo` | database/database.go:278-299 | squash then undo reaches the same layers and revision as two undos, and the same value at a key if and only if the squash does not lose that key |
| `UndoLaws.SquashThenUndoStores` | database/database.go:278-299 | as whole stores the two are equal if and only if no key is lost |
| `UndoLaws.CommitDropsUpTo` | database/database.go:308-328 | commit keeps the store and drops exactly the layers of revisions up to the given one |
| `UndoLaws.CommitKeepsPromises` | database/database.go:308-328 | what the surviving sessions undo to is unchanged by a commit |
| `UndoLaws.IdsStayIssued` | database/undo_state.go:22-29 | over every run, with undos and squashes, an issued id stays issued and the next fresh key is in neither the store nor any layer |
| `UndoDatabase.UndoState.RecordInsert` | database/undo_state.go:81-84 | the key is added to the insertions of the layer, as the recorded insertion of the laws, and the other two maps are kept |
| `UndoDatabase.UndoState.RecordRemove` | database/undo_state.go:86-105 | map by map: a key added in the layer vanishes from it, a modified one moves to the removals with the copy given, a removed one stays as it is; this is the recorded removal of the laws |
| `UndoDatabase.UndoState.RecordModify` | database/undo_state.go:107-116 | the first old value of a key is kept, and keys added in the layer are not recorded; this is the recorded modification of the laws |
| `UndoDatabase.UndoState.Absorb` | database/database.go:982-1018 | merging the newer state in place, map by map, gives the squashed layer of the laws |
| `UndoDatabase.Database.Insert` | database/database.go:358-393 | the object is stored under the next id of its type, which the counter then passes; store, layer and counters move as one step of the laws |
| `UndoDatabase.Database.Modify` | database/database.go:523-559 | the new object is stored and nothing else; store and newest layer move as one step of the laws, other objects of the stack untouched |
| `UndoDatabase.Database.Remove` | database/database.go:433-465 | an unknown object is reported and nothing changes; otherwise store and newest layer move as one step of the laws |
| `UndoDatabase.Database.StartSession` | database/database.go:301-306 | one fresh layer with the next revision, sharing the id counters |
| `UndoDatabase.Database.Undo` | database/database.go:234-269 | every object comes back as the newest layer says: a removed one, none for an added one, the first old value of a modified one, any other as it is; the revision falls by one, and this is the undo step of the laws; without a session nothing happens |
| `UndoDatabase.Database.UndoAll` | database/database.go:271-276 | terminates with no session open and every key at its value before the oldest session |
| `UndoDatabase.Database.Squash` | database/database.go:278-299 | the loops over the newer layer are the squash step of the laws, for one open session and for more |
| `UndoDatabase.Database.Commit` | database/database.go:308-328 | exactly the layers from the front with a revision up to the given one are dropped, objects and revision kept; this is the commit step of the laws |
| `UndoDatabase.Database.SetRevision` | database/database.go:330-341 | refused with nothing changed exactly while a session is open |
| `UndoIndex.ChangeKeepsConsistent` | database/database.go:523-585 | insertions, removals and modifications with the stored copy keep every object with exactly the index entries of its value |
| `UndoIndex.UndoEntriesProper` | database/database.go:245-263 | undo leaves an object with exactly the entries of its restored value if and only if its current version has no entry that neither the first modified nor the restored version has |
| `UndoIndex.StaleEntry` | database/undo_state.go:107-115 | two modifications of an indexed field, then undo: the object is restored and a stale entry stays |
| `Lockstep.Session.Push` | database/session.go:10-15 | a pushed handle can no longer squash or undo |
| `Lockstep.Session.Squash` | database/session.go:17-25 | acts on the database at most once over the life of the handle, as a squash |
| `Lockstep.Session.Undo` | database/session.go:27-35 | acts on the database at most once over the life of the handle, as an undo |
| `Traces.UndoneSession` | chain/transaction_context.go:345-349 | an undone session, whatever sessions were nested and ended in it, restores layers, revision and every object except those modified and then removed |
| `Traces.UndoneChanges` | chain/controller.go:437-537 | an undone transaction without removals is taken back completely |
| `Traces.NoRemovalLosesNothing` | database/undo_state.go:86-105 | a run of changes without a removal loses nothing |
| `Traces.AttemptNeutral` | chain/controller.go:724-808 | a scheduled transaction, its error handler and its billing together end every session they start, in every combination of failures |
| `Traces.UndoneScheduled` | chain/controller.go:682-809 | a scheduled transaction that is not ready, fails subjectively or throws in billing leaves the database as it was, up to lost objects |
| `Traces.BlockBodyNeutral` | chain/controller.go:344-408 | whatever part of a block was run, from the promotion of a schedule to the closing changes, every session it started is ended if and only if no transaction that was run carries extensions; otherwise exactly one is left |
| `Traces.FailedBlockRestores` | chain/controller.go:954-1003 | a block that fails at any point, the closing included, leaves layers and revision as they were if and only if no transaction that was run carries extensions; then every object is as it was, up to objects that the part run modified and then removed |
| `Traces.LeakedBlockStays` | chain/controller.go:991-1002 | otherwise aborting undoes the session left behind instead of the block: the session of the block stays open with everything done before that transaction |
| `Traces.ReachedMeans` | chain/controller.go:959-989 | the run of a block stops at its first bad transaction (thrown, failed though it must not, without receipt or with another receipt), or runs them all |
| `Lockstep.Controller.RunInSession` | chain/transaction_context.go:339-349 | the deferred undo after a squash does nothing: the database makes exactly the run of one session |
| `Effects.UndoneSame` | database/session.go:27-35 | an undone session does the same to the objects whatever sessions are open below it |
| `Effects.TrxLeaves` | chain/controller.go:437-537 | a transaction that neither fails nor is discarded leaves what its changes leave without a session; any other is the undone session of its changes |
| `Effects.FailedTrxRestores` | chain/controller.go:523-536 | a failed or discarded transaction leaves every object as it was, up to those it modified and then removed |
| `Effects.UndoneModifying` | database/database.go:234-269 | a session that only modified objects is undone without a trace, ids included |
| `Effects.ScheduledExits` | chain/controller.go:682-809 | what each of the six ways a scheduled transaction can end leaves, told from its removal, changes, handler and billing |
| `Effects.HandledExactly` | chain/controller.go:754-766 | a failed transaction that only modified objects leaves, when its sender handles it, just the removal from the schedule and the changes of the handler |
| `Effects.GoodMeans` | chain/controller.go:959-989 | a transaction ends its block unless it has the receipt in the block, carries no extensions, and succeeds or, when scheduled, is due and expires, is handled, or fails as the block allows |
| `Effects.PlainGrows` | chain/controller.go:959-972 | a transaction of a block contributes all its changes, after those of the transactions before it |
| `Effects.DeferredGrows` | chain/controller.go:959-989 | a scheduled transaction contributes the changes of the way it ended |
| `Effects.BlockLeaves` | chain/controller.go:954-1003 | an applied block leaves the objects and ids that the changes of all its parts leave, run in their order without any session |
| `Effects.LeaksMeans` | chain/controller.go:437-537 | a block leaves a session behind if and only if its opening succeeds and a transaction carries extensions while all before it are good |
| `Lockstep.Controller.PushTransaction` | chain/controller.go:437-537 | every outcome leaves the revision unchanged if and only if the transaction has no extensions; a failed or discarded transaction is run and undone; any other leaves the objects and ids that its changes alone leave, with as many layers as before |
| `Lockstep.Controller.PushScheduled` | chain/controller.go:682-809 | both sessions are ended and the revision is unchanged if and only if no session was abandoned over extensions; exact throws; exit by exit, from the fields: expired leaves the removal, executed the removal and its changes, handled the removal and the changes of the handler, hard failure the removal and the billing; not due, subjective and failing in billing are undone |
| `Lockstep.Controller.RunScheduled` | chain/controller.go:724-808 | on success, handled failure, hard failure and subjective failure: exact database run, and the outer session is squashed exactly when the result is kept |
| `Lockstep.Controller.AbortBlock` | chain/controller.go:327-337 | with a pending block the newest session is undone, without one nothing happens; lockstep holds after it if and only if it held before |
| `Lockstep.Controller.StartBlock` | chain/controller.go:344-408 | exact outcomes; in lockstep the check of the revision against the head never fails; a started block has revision head + 1 and has run promotion, on-block transaction and opening in this order; a throw undoes the whole opening |
| `Lockstep.Controller.CommitBlock` | chain/controller.go:1005-1037 | a block settled on the way is committed, and then the block is kept or undone; the revision equals the number of the head if and only if the block became fork head, or the fork head kept its number |
| `Lockstep.Controller.ApplyBlock` | chain/controller.go:954-1003 | applies if and only if no part throws, every transaction has the receipt in the block and carries no extensions, and each succeeds or, when scheduled, expires, is handled, or fails as the block allows; then the objects and ids are those that the changes of promotion, on-block transaction, opening, transactions and closing leave in this order without any session, in one more session, and the revision is head + 1; otherwise the exact run is undone, and lockstep is kept if and only if no transaction that was run carries extensions |
| `Lockstep.Controller.Extend` | chain/controller.go:1077-1086 | apply and move the head: the head moves if and only if the block is good, and then the objects are those its changes leave in order; lockstep is broken if and only if the block fails over a transaction with extensions |
| `Lockstep.Controller.PopBlock` | chain/controller.go:242-267 | popping keeps lockstep if and only if the session of the block is still on the undo stack |
| `ForkTree.AncestorsOrdered` | chain/fork_database.go:164-197 | the ancestors of a block form a chain |
| `ForkTree.AncestorAt` | chain/fork_database.go:164-197 | from every indexed block one reaches an indexed ancestor of each number down to the lowest |
| `ForkTree.WithoutKeepsTree` | chain/fork_database.go:200-218 | removing a block with its descendants keeps every surviving block placed on its parent |
| `ForkTree.AboveIsTree` | chain/fork_database.go:242-267 | the proper descendants of a lowest block form a tree again, on that block |
| `ForkTree.AboveAbove` | chain/fork_database.go:242-267 | settling a block and then one standing on it leaves what settling the second alone would leave |
| `ForkTree.PruningDone` | chain/fork_database.go:258-266 | once no block of the lowest number is left, exactly the proper descendants of the settled block remain |
| `ForkTree.OldestIsLowest` | chain/fork_database.go:116-121 | the block picked as oldest has the lowest number |
| `ForkTree.BestMeans` | chain/types/generated_containers/forkdb_multi_index/multi_index.go:63-90 | a block is best if and only if none has a greater dpos irreversible number, none with the same a greater bft irreversible number, and none with both the same a greater block number |
| `ForkTree.OldestMeans` | chain/fork_database.go:116-121 | a block is oldest if and only if none has a lower number and, when a block of the same number is in the current chain, it is too |
| `ForkTree.SingleBranchBest` | chain/fork_database.go:110-124 | while the index holds one branch along which irreversible numbers grow, its last block is the best |
| `ForkDb.ForkDatabase.constructor` | chain/fork_database.go:97-108 | one block, a log holding that block, nothing irreversible yet |
| `ForkDb.ForkDatabase.AddBlockState` | chain/fork_database.go:110-124 | a duplicate is refused; otherwise no block has a greater dpos number than the head, none with the same a greater bft number, none with both the same a greater block number, and the oldest block is signalled if and only if some indexed block has an irreversible number above the lowest block number; then exactly its proper descendants stay; the best block survives if and only if it stands on it |
| `ForkDb.ForkDatabase.AddSignedBlock` | chain/fork_database.go:126-141 | known and unlinkable blocks are refused with nothing changed; others extend the tree, not yet valid or current, with the bft number of their parent, and settle the oldest block exactly when it is passed, with the exact index and irreversible chain in both cases; the head is then greatest by dpos, bft and block number, in this order |
| `ForkDb.ForkDatabase.AddConfirmation` | chain/fork_database.go:143-152 | exact outcomes; the confirmation that reaches more than two thirds spreads the number over the subtree, any other changes the confirmations only |
| `ForkDb.ForkDatabase.FetchBranchFrom` | chain/fork_database.go:164-197 | terminates without meeting a missing block, with two parent-linked paths from the given blocks to blocks of equal number and equal parent, disjoint above their last blocks |
| `ForkDb.BranchesUnique` | chain/fork_database.go:164-197 | the two branches are the only ones with these properties |
| `ForkDb.ParentIndexed` | chain/fork_database.go:164-197 | the common parent of two branches is indexed if and only if some indexed block other than the two heads is an ancestor of both |
| `ForkDb.ForkDatabase.Remove` | chain/fork_database.go:200-218 | the work queue terminates having deleted exactly the block and its descendants; then no block left has a greater dpos number than the head, none with the same a greater bft number, none with both the same a greater block number |
| `ForkDb.ForkDatabase.SetValid` | chain/fork_database.go:220-227 | marks the block valid and changes nothing else |
| `ForkDb.ForkDatabase.MarkInCurrentChain` | chain/fork_database.go:228-240 | sets one flag and changes nothing else |
| `ForkDb.ForkDatabase.Prune` | chain/fork_database.go:242-267 | every prune emits parent-linked irreversible blocks and leaves the proper descendants of the last of them, or nothing; pruning a lowest block emits just that block |
| `ForkDb.ForkDatabase.Settle` | chain/fork_database.go:242-267 | one level: the block is signalled, its siblings are removed with their descendants, and all remaining lowest blocks share it as parent |
| `ForkDb.ForkDatabase.SetBftIrreversible` | chain/fork_database.go:294-331 | the level-by-level walk, which stops at unchanged blocks, raises exactly the descendants, to the maximum of old value and block number, and touches nothing else |
| `ForkDb.ForkDatabase.OnIrreversible` | chain/controller.go:284-297 | neither linkability check can fail: the logged blocks stay one parent-linked chain, the same as the emitted ones |
| `ForkDb.BftWalkDone` | chain/fork_database.go:294-331 | because irreversible numbers never decrease from parent to child, a finished walk has reached the whole subtree |
| `ForkDb.ExtendKeepsTree` | chain/fork_database.go:126-141 | a new block with inherited number keeps the tree and the growth of irreversible numbers |
| `ForkFlags.OldestIsAncestor` | chain/fork_database.go:110-124 | while the flags follow the head, the block picked as oldest is an ancestor of the head |
| `ForkFlags.BranchApart` | chain/controller.go:1113-1131 | no block of the old branch stands on a block of the new branch that the two do not share |
| `ForkFlags.FlagsDetermined` | chain/fork_database.go:228-240 | the head determines the flags |
| `ChainRules.PopsExactly` | database/database.go:234-269 | popping sessions passes through the objects each of them started from if and only if each, undone where it ended, brings these back |
| `ChainRules.BackDown` | chain/controller.go:1117-1122 | popping blocks that were applied without loss comes back to the objects they were applied to |
| `ChainRules.ReapplyAll` | chain/controller.go:1124-1130 | a branch applied before applies again to any state its blocks cannot tell from the one it was applied to, and gives a state they cannot tell from the one it gave |
| `ChainRules.HistoryUp` | chain/controller.go:1097-1111 | the undo stack after applying a branch tells its blocks, one session each, on top of what it told before |
| `ChainRules.HistoryAbove` | chain/controller.go:284-297 | settling the lowest block and forgetting its session leaves the rest of the history |
| `ChainRules.FailedIsNotShared` | chain/controller.go:1113-1131 | after a popping without loss the block that fails is not one of the old branch, so restoring never meets it |
| `ChainRules.CleanVerdict` | chain/controller.go:1075-1136 | if nothing is lost by undoing, a switch never ends with the old branch impossible to restore |
| `ChainRules.CleanBack` | chain/controller.go:1113-1131 | a failed switch that lost nothing leaves a database its blocks cannot tell from the one before, and an undo stack that tells the old branch |
| `ChainRules.LosesNothingIsClean` | chain/controller.go:1075-1136 | if no block loses anything when undone, no switch does |
| `ChainRules.StatusMeans` | chain/controller.go:1097-1130 | a block is applied as validated if and only if it is marked valid, and always when a branch is restored |
| `ForkSwitch.ChildLeads` | chain/controller.go:1039-1064 | a received child of the best block with at least its dpos number becomes the head of the fork database, whatever is settled |
| `ForkSwitch.HeadSettled` | chain/fork_database.go:110-124 | settling the oldest block leaves the head indexed if and only if the head is above the lowest number, and the flags right in both cases |
| `ForkSwitch.ReceivedHistory` | chain/controller.go:284-297 | receiving a block, settled block and forgotten session included, keeps the history of the current chain |
| `ForkSwitch.CleanSwitch` | chain/controller.go:1075-1136 | a switch without loss leaves the history of the new branch or that of the old one applied again, and nothing else |
| `ForkSwitch.FollowedCounts` | chain/controller.go:1075-1136 | however following a block ends, stranded or popped too far included, the revision moves by as much as the number of the head |
| `ForkSwitch.Controller.ApplyBlock` | chain/controller.go:954-1003 | a failing block has its session undone, which brings the objects back if and only if nothing it did is lost on undoing |
| `ForkSwitch.Controller.PopBlock` | chain/controller.go:242-267 | the parent becomes head and the newest session is undone, unless the parent is not indexed |
| `ForkSwitch.Controller.PopBranch` | chain/controller.go:1091-1096 | the database is what undoing the sessions of the branch one by one leaves; popping stops at the last block if and only if that has the lowest number |
| `ForkSwitch.Controller.ApplyBranch` | chain/controller.go:1097-1111 | either all blocks are applied in order, each under the status its validity asks for, or the position of the first failing one is known with all before it applied and that one undone |
| `ForkSwitch.Controller.RestoreBranch` | chain/controller.go:1113-1131 | the old branch is applied again to what undoing left, if and only if it does not share the failing block and every block of it applies; then head and flags are those before and the index lacks exactly the failing block and its descendants |
| `ForkSwitch.Controller.MaybeSwitchForks` | chain/controller.go:1075-1136 | which of its endings a switch takes is decided exactly by index, heads, database and undo stack before it, with the exact index, head, database and undo stack after each of them; revision minus head number is kept; if nothing is lost on the way, the new branch is applied to the objects at the common parent, or the old branch is restored with a database its blocks cannot tell from the one before |
| `ForkSwitch.Controller.Extend` | chain/controller.go:1077-1086 | a child of the head is applied, flagged and marked valid, and nothing else in the index changes; or it is undone and removed |
| `ForkSwitch.Controller.Receive` | chain/controller.go:1039-1064 | exact refusals; the oldest block is settled, and its session forgotten, if and only if it is passed; an indexed head leaves the index if and only if it is that block; flags and history are kept, also while the head is a block settled earlier |
| `ForkSwitch.Controller.PushBlock` | chain/controller.go:1039-1064 | the ending is decided exactly by the state before the call, with the exact state after it; the head is the head of the fork database unless a block failed, the head was settled away or a switch popped too far; revision minus head number is kept; without loss every received block keeps flags, database and undo stack true to the current chain; a child of a best head with at least its dpos number, if it applies, becomes the head |
| `ChainStore.BlockInDatabase` | chain/controller.go:954-1003 | the record, the objects after a block and the objects after undoing it do not depend on the sessions below |
| `ChainStore.PoppedBlock` | chain/controller.go:242-267 | a popped block leaves every object as it was, except that those it modified and then removed come back as they were when removed |
| `ChainStore.ExactExactly` | chain/controller.go:327-337 | undoing a block brings the objects back if and only if every object it modified and then removed had its first value again when removed |
| `ChainStore.PoppedBranch` | chain/controller.go:1091-1096 | popping a branch passes through the objects each block was applied to if and only if that holds of every block |
| `ChainStore.SwitchDoesNotRestore` | chain/controller.go:1113-1131 | a block that copies a counter, raises it and removes it is left for a block that ranks higher and fails: the old branch is applied again to the raised counter and leaves another copy than before |
| `ChainStore.FailedSwitch` | chain/controller.go:1075-1136 | the same as a call: the controller is back at the old head with another database |
| `ChainStore.StoreCounts` | chain/controller.go:954-1003 | applying a block adds one to the revision and undoing takes one off, if and only if no block leaves a session behind |
| `ChainStore.InsertedAgain` | database/database.go:409-414 | undoing an insertion does not take the id back: applied again, the block stores its object under the next id |
| `ChainStore.InsertFreeIsRegular` | chain/controller.go:954-1003 | for blocks that insert nothing and whose work depends on the objects alone, holding the same objects is all a block can see |
| `Renaming.RunSame` | database/database.go:409-414 | the same calls up to a pairing of ids, on databases that are the same under it, undo records included, lead to such databases |
| `Renaming.SameRenames` | database/database.go:409-414 | databases that are the same under a pairing of ids hold the same objects up to ids, ids inside objects included |
| `Renaming.UpToIdsIsEquivalence` | database/database.go:409-414 | holding the same objects up to ids is an equivalence |
| `Renaming.RenamingIsRegular` | chain/controller.go:954-1003 | blocks whose work respects renamings of the ids handed out cannot tell databases apart that hold the same objects up to ids, whatever they insert |
| `Renaming.InsertingIsRegular` | chain/controller.go:954-1003 | in particular blocks that insert an object, under another id whenever they are applied again |
| `ByteOrder.BigEndianRoundTrip` | database/pack.go:319-339 | fixed-width big-endian numbers are read back |
| `ByteOrder.BigEndianOrder` | database/pack.go:319-339 | byte order of fixed-width unsigned numbers is numeric order, and equal bytes mean equal numbers |
| `ByteOrder.SignedOrder` | database/pack.go:341-355 | for signed numbers of any width byte order is numeric order if and only if both have the same sign |
| `IndexKeys.FieldValueToByte` | database/keys.go:43-64 | the appended key is the encoding of the leading fields |
| `IndexKeys.KeyEnd` | database/keys.go:36-41 | the last byte of a copy is raised, wrapping at 255 |
| `IndexKeys.EncodedOrder` | database/keys.go:28-34 | byte order of concatenated fixed-width fields is tuple order, and equal encodings mean equal tuples |
| `IndexKeys.KeyLayout` | database/keys.go:28-64 | two underscores stand in front of every field, one at the end of a stored key |
| `IndexKeys.StoredOrder` | database/extract.go:358-382 | rows of one index lie in tuple order |
| `IndexKeys.LowerBoundKey` | database/database.go:693-714 | a seek to the query passes over exactly the rows whose leading fields are less |
| `IndexKeys.LowerBoundFinds` | database/database.go:693-714 | LowerBound finds a row if and only if it is the least row with leading fields at least the query |
| `IndexKeys.UpperBoundKey` | database/database.go:716-742 | unless the last byte is 255, the raised key passes over exactly the rows whose leading fields are not greater |
| `IndexKeys.UpperBoundFinds` | database/database.go:716-742 | UpperBound then finds a row if and only if it is the least row with greater leading fields |
| `IndexKeys.UpperBoundWraps` | database/keys.go:36-41 | with last byte 255 every matching row is found although it is not greater |
| `IndexKeys.UpperBoundExact` | database/database.go:716-742 | the raised key is right for all rows if and only if the last byte of the query is not 255 |
| `TypedKeys.FieldsOrdered` | database/pack.go:319-339 | the bytes of an unsigned number of any width, of a 64-bit and of a 128-bit float are ordered as the values are, and equal only for equal values |
| `TypedKeys.TypedOrder` | database/extract.go:358-382 | rows of typed fields lie in the order of their values, field by field |
| `TypedKeys.TypedLowerBound` | database/database.go:693-714 | LowerBound finds a row of typed fields if and only if it is the least with leading values at least the query |
| `TypedKeys.TypedUpperBound` | database/database.go:716-742 | UpperBound finds a row of typed fields if and only if it is the least with leading values greater than the query, as long as the query key does not end in byte 255 |
| `TypedKeys.NumberWraps` | database/keys.go:36-41 | a query that ends in an unsigned number ends in byte 255 if and only if the number is 255 modulo 256 |
| `FloatKeys.RoundTrip64` | database/unpack.go:118-138 | every 64-bit pattern, NaNs included, is read back from its key |
| `FloatKeys.RoundTrip128` | database/unpack.go:140-164 | every 128-bit pattern is read back from its key |
| `FloatKeys.WrittenZero` | database/pack.go:105-126 | the eleven bytes written for 0 |
| `FloatKeys.WrittenMinusOne` | database/pack.go:105-126 | the eleven bytes written for -1 |
| `FloatKeys.Order64` | database/pack.go:105-126 | byte order of keys is sign-magnitude order of the patterns |
| `FloatKeys.Order128` | database/pack.go:128-155 | the same for 128-bit floats |
| `FloatKeys.Numeric64` | database/pack.go:105-126 | for values other than NaN byte order is numeric order with -0 before +0 (section 5.10 of IEEE 754-2008) |
| `FloatKeys.Numeric128` | database/pack.go:128-155 | the same for 128-bit floats |
| `FloatKeys.SubnormalsMeetNormals` | database/pack.go:105-155 | values without the hidden bit are multiples of the least positive value, up to and including the first with it |
| `FloatKeys.NeighboursDouble` | database/pack.go:105-155 | above that the distance between neighbours doubles with every exponent |
| `ResourceLimits.ProcessTotals` | chain/resource_limits.go:297-360 | making one record actual moves each total by the difference of positive parts |
| `ResourceLimits.OnePromoted` | chain/resource_limits.go:297-360 | when the limits of one account become actual, each total grows by the new limit and shrinks by the old one, limits that are not positive counting as none |
| `ResourceLimits.Manager.InitializeAccount` | chain/resource_limits.go:41-55 | a new account without limits leaves every total right |
| `ResourceLimits.Manager.SetAccountLimits` | chain/resource_limits.go:236-275 | only the limits in force of that account change; the answer says exactly whether memory shrank |
| `ResourceLimits.Manager.GetAccountLimits` | chain/resource_limits.go:277-295 | the pending record, else the actual one, else zeros |
| `ResourceLimits.Manager.Shift` | chain/resource_limits.go:304-316 | each total moves from the old limit to the new one, limits that are not positive counting as none; the underflow assertion never fires while the total includes the value; overflow is reported exactly |
| `ResourceLimits.Manager.ProcessAccountLimitUpdates` | chain/resource_limits.go:297-360 | terminates; it succeeds if and only if at no account, in name order, the limits promoted up to it and the remaining actual ones overflow a total; then nothing is pending and each total is the sum of the positive limits; in both cases the limits in force of every account are what they were; with one account pending each total moves by the difference of its limits, as far as positive |
| `RamRows.WrappingAddExact` | chain/resource_limits.go:185-208 | the wrapping unsigned addition equals the mathematical sum whenever that fits |
| `RamRows.ApplyContext.AddPendingRamUsage` | chain/resource_limits.go:185-208 | accepted if and only if the sum is a 64-bit number, and then the usage is that sum |
| `RamRows.ApplyContext.UpdateDbUsage` | chain/apply_context.go:676-690 | a charge needs the authority of its payer, a refund does not |
| `RamRows.ApplyContext.FindOrCreateTable` | chain/apply_context.go:580-597 | a missing table is created for 112 bytes at the expense of the payer; exact failures |
| `RamRows.ApplyContext.CacheTable` | chain/apply_context.go:120-139 | up to eight tables are remembered, each with the copy of that moment |
| `RamRows.ApplyContext.Store` | chain/apply_context.go:758-790 | exact success; the payer is charged 112 bytes and one per byte of a primary row, 128 for a secondary one, nobody else is; usage stays the sum of the rows each account pays for, and tables used by one kind of index stay right |
| `RamRows.ApplyContext.Update` | chain/apply_context.go:792-821 | exact success; the row keeps kind and table and gets the new size and, unless zero, the new payer; the old payer gets the old size with overhead back, the new one pays the new size with overhead, and nobody else is charged; the refund is always covered |
| `RamRows.ApplyContext.Remove` | chain/apply_context.go:823-843 | the payer gets exactly the size of the row back; a table used by one kind of index is dropped exactly with its last row |
| `RamRows.BalancedUpdate` | chain/contract_secondary_idx_64.go:72-95 | replacing a row keeps, for every account, usage equal to other charges plus the rows it pays for |
| `RamRows.BalancedRemove` | chain/contract_secondary_idx_64.go:50-70 | so does removing a row, and the usage always covers it |
| `RamRows.StoredTablesOk` | chain/contract_secondary_idx_64.go:23-48 | storing keeps the count of every table used by one kind of index equal to its rows |
| `RamRows.RemovedTablesOk` | chain/apply_context.go:823-843 | removing keeps those counts, dropping a table exactly at zero |
| `RamRows.RemovalCounts` | chain/apply_context.go:832-842 | removing a row leaves its table right if and only if the copy remembered by its index has the right count |
| `RamRows.LiveTableDropped` | chain/contract_secondary_idx_64.go:50-70 | a table used by two kinds of index is dropped while a row is left in it |
| `BlockLogs.AppendKeepsLayout` | chain/block_log.go:178-187 | an append keeps every earlier block and index entry in place and adds one behind them |
| `BlockLogs.StoredParts` | chain/block_log.go:243-266 | reading size, data and position of a stored block gives back the block and its own position |
| `BlockLogs.Word32Bytes` | chain/block_log.go:178-187 | a 32-bit number is written with its low-order byte first |
| `BlockLogs.ExpectedIndexSizeMeans` | chain/block_log.go:175-176 | in 32-bit arithmetic the position check compares block numbers modulo 2^29 |
| `BlockLogs.AgreesExactly` | chain/block_log.go:165-302 | every number up to the head finds the block appended in that turn and every other number nothing, if and only if no block number was zero or above 2^29 |
| `BlockLogs.WrappedNumberTaken` | chain/block_log.go:175-176 | a log accepts a first block of number 2^29 + 1 and then finds nothing |
| `BlockLogs.BlockLog.Append` | chain/block_log.go:165-193 | exact acceptance, for numbers up to 2^29 that of the block numbered one more than there are blocks; size, encoding and position are added at the old end of the file and the position to the index; the layout holds after any number of appends |
| `BlockLogs.BlockLog.ResetToGenesis` | chain/block_log.go:198-242 | a log of just the genesis block behind version, size and genesis data |
| `BlockLogs.BlockLog.ReadBlock` | chain/block_log.go:243-266 | a stored block is returned with its own position |
| `BlockLogs.BlockLog.ReadBlockByNum` | chain/block_log.go:267-283 | the n-th appended block for n up to the head and nothing otherwise, while block numbers are in range; in general exactly what the lookup says, error included |
| `BlockLogs.BlockLog.GetBlockPos` | chain/block_log.go:289-302 | the index entry of a block is its position |
| `BlockLogs.BlockLog.ReadHead` | chain/block_log.go:303-318 | the last appended block, or nothing, if and only if there is a block or the file is at most eight bytes long; a longer file without a block is read at whatever position its last bytes spell |
| `Names.N` | common/name.go:79-101 | the number of the digits of a text, refused above thirteen characters |
| `Names.S` | common/name.go:104-126 | the shortest text of a number |
| `Names.NumberOfText` | common/name.go:79-126 | every 64-bit number is the number of its text, and that text is canonical |
| `Names.AlphabetMeans` | common/name.go:169 | the digits of names are the dot, 1 to 5 and a to z in this order |
| `Names.SystemName` | common/name_test.go:11-19 | the number of the name of the system account |
| `Names.TextOfNumber` | common/name.go:79-126 | a text is the text of its number if and only if it is canonical |
| `Names.TextOrder` | common/name.go:104-126 | numbers are ordered as their texts are, byte by byte |
| `Names.NameOrder` | common/name.go:79-101 | canonical names are ordered as their numbers are |
| `Names.NameSuffix` | common/name.go:128-156 | for every 64-bit number, the number of the text behind the last dot of its text |
| `Assets.FromString` | common/asset.go:99-153 | the loop computes the parser of which inversion is proved, errors included; what it accepts has an amount below 2^62, a precision up to 18 and capital letters as symbol; a text without a space is refused |
| `AssetTexts.DecimalRead` | common/asset.go:99-153 | a decimal number with up to 18 digits behind the point is read as that number if and only if it has at most 19 digits in front and its digits make up at most 2^62 - 1 |
| `AssetTexts.OverflowMissed` | common/asset.go:134-142 | the overflow check while scaling misses a product that wraps to a larger number |
| `AssetTexts.NoNumberIsZero` | common/asset.go:120-133 | a short text that is no number is read as zero |
| `AssetTexts.CheckMeans` | common/asset.go:155-163 | the textual range check accepts digits if and only if there are at most 19 and their number is below 2^63 |
| `AssetTexts.FractionAdded` | common/asset.go:143-150 | adding the fraction gives the sum if it fits into 64 bits, and the overflow or underflow otherwise |
| `AssetTexts.ScaleCaught` | common/asset.go:134-142 | scaling notices a product that wraps to the other sign, for both signs |
| `AssetTexts.PrecisionWraps` | common/asset.go:211-222 | the precision of a symbol is its number modulo 256, and at most 18 |
| `AssetTexts.TrailingPoint` | common/asset.go:99-119 | a point with no digit behind it is refused |
| `AssetTexts.NewAssetMeans` | common/asset.go:311-337 | NewAsset accepts exactly an optional sign, digits with at most one point before, in or after them, a space and up to seven capital letters, while the amount is below 2^62 and the precision, modulo 256, at most 18 |
| `Assets.ScaleExact` | common/asset.go:134-142 | scaling neither overflows nor trips its check while the scaled amount fits into 64 bits |
| `Assets.ParseSigned` | common/asset.go:120-133 | a printed whole part is read back with its sign |
| `Assets.CheckSigned` | common/asset.go:155-163 | a printed whole part passes the textual range check |
| `Assets.SymbolInverts` | common/asset.go:211-222 | precision and name survive the way through the symbol text |
| `Assets.ParseInvertsString` | common/asset.go:76-153 | FromString undoes String for every valid asset, negative amounts without whole part included |
| `Assets.NewAssetInvertsString` | common/asset.go:311-337 | NewAsset undoes String for a valid asset if and only if its symbol has at most seven letters |

## Left out

- LevelDB, file handles, logging, signals and reflection over struct tags: the store is a map, a file a byte sequence, key fields are already extracted.
- Persistence of undo stack, revision and id counters across closing and reopening the database.
- `BlockLog.ConstructIndex` and opening an existing log: the index scan does not follow the layout that Append writes.
- Refund of the memory charged for a table record: removing rows drops the record without it, so the conservation law is about rows and everything else is one other charge per account.
- The irreversible read mode and replay with sessions skipped, which follow other session rules.
- `CheckNetUsage`, usage accumulators, elastic limits, the authority checker, block header state, the 128-bit arithmetic package and generated containers.
- A block with block extensions, which is refused before its session is started, and the empty opening of the read-only mode.
- `PushConfirmation` in the controller: the fork database part is modelled, the switch after it is the one of PushBlock.
- A session left behind by a transaction with extensions in the middle of a fork switch: ChainStore speaks about blocks that leave none.
- WASM execution, signatures and hashing; a block id is its number and an opaque hash.
- The four other secondary-index files, which repeat the 64-bit one, and iterators over rows.
- Unapplied-transaction lists, reversible-block records and everything else CommitBlock and PopBlock do besides sessions, head and flags.
- Keys with variable-width (string) fields: only fixed-width fields have the order proved.
- The linked list of `database/deque.go`: the undo stack is a sequence of layer objects.
- `deque.LastSecond` on fewer than two layers; Squash is only called with an open session, as its callers do.
- UndoIndex.ChangeKeepsConsistent: assumes that entries of different objects have different keys, which the store does not enforce.
- ForkDb.ForkDatabase.Prune: for a block above the lowest number it does not say which of several roots is settled at each level, because the index order between them is open.
- BlockLogs.BlockLog.Append: block encodings are below 2^32 bytes and files below 2^63 bytes.
- Assets.FromString: a text is a sequence of byte characters; printing needs a precision below 255, where the source would slice out of range.
