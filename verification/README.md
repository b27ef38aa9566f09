# A verified model of the Gyre, its store plane and its planner

The repository is a settlement game that is a database. A ward and each of its Sparks are
SQLite files kept in an ordered key-value store by a virtual file system; a cycle of the game is
one commit across several of those files; the Queen decides what to build by asking an HTN
planner; a client reads the ward as CBOR. This project models the parts of it that are hard to
get right and proves what they promise, for all inputs, all runs and all reachable states.

| file | module | what it models |
|---|---|---|
| `store_rows.dfy` | `StoreRows` | the rows of one database and the transaction bodies that change them |
| `handle.dfy` | `HandleSteps` | an open file as a sequence of transactions over those rows |
| `shared_store.dfy` | `SharedStore` | any number of handles, interleaved, crashing anywhere |
| `group_commit.dfy`, `group_proofs.dfy`, `group_theorems.dfy` | `GroupCommit`, `GroupProofs`, `GroupTheorems` | the parallel commit across databases, and recovery |
| `recoverers.dfy` | `Recoverers` | any number of recoverers of one record at once |
| `fdb_file.dfy` | `OpenFile` | `FdbFile` as a class: dirty buffer, read-ahead window, bytes, flush, compaction |
| `file_history.dfy` | `FileHistory` | a file through any history of writes, reads, syncs, folds and crashes |
| `keys.dfy` | `Keys` | big-endian numbers, key ranges and the key layout |
| `htn_domain.dfy`, `htn_witness.dfy`, `htn_plain.dfy`, `htn_complete.dfy`, `htn_search.dfy` | `HtnDomain`, `HtnWitness`, `HtnPlain`, `HtnComplete`, `HtnSearch` | plans and derivations, the reachability pre-check, the plain search, when it finds a plan, the memoised search |
| `sol_tree.dfy`, `htn_tree_plain.dfy`, `htn_tree.dfy` | `SolutionTree`, `HtnTreePlain`, `HtnTree` | the derivation tree and its rollback, the search that skips methods, the search that builds the tree |
| `queen_planner.dfy` | `QueenPlanner` | the ward as a planning domain, and the closed form of its search |
| `totals.dfy`, `gyre.dfy` | `Totals`, `Gyre` | sums over sequences; cycles, payments, commissions, migrations and the books |
| `stn.dfy`, `plan_timing.dfy`, `durations.dfy` | `TemporalNetwork`, `PlanTiming`, `Durations` | the temporal network, the timing of a plan, durations as text |
| `rebac.dfy` | `Rebac` | the relation graph, its indexes and its evaluator |
| `cbor.dfy`, `replies.dfy`, `reader.dfy` | `Cbor`, `Replies`, `ReplyReader` | the encoding, the writer and the reply, the client's reader |

## How the code is modelled

- A transaction body is one atomic step. A process dies before a write transaction or not at all
  (thirdparty/store-plane/fdb_vfs.c:132, :224). `HtnSearch`, `FdbFile`, `Ward`, `Stn`, `Graph`,
  `Writer`, `Reader` and the trees are classes whose methods change their fields, as in the source;
  protocols are functions from state and action to state, and a run is a sequence of actions.
- No truncate is pending. `put_head` writes the dirty PIDX rows and then clears the truncated
  range (thirdparty/store-plane/fdb_vfs.c:973-985), and recovery carries no truncate (:1678-1703).
- For groups one process is live at a time and hands over by crashing: `resolve_body` tests a head
  read by an earlier transaction (:1639, :1683), and `vfs_open` recovers and opens in separate
  transactions (:1957-1961). `Recoverers` drops that assumption for the recovery of one record.
- An unretryable transaction error ends the process; in `Gyre` a commit that does not land ends the
  game. `weft_txn_abort` (:1435-1442) keeps the dirty buffer and the staged rows, so a group is
  abandoned only before its first member staged.
- SQLite syncs every member last before the record is written, as `weft_txn_commit` expects.
- Range reads in `ra_fill` may stop anywhere with `more` but do not fail; the recovery range reads
  return everything, since the code ignores `more` there (:1594-1606, :1660-1668).
- The sweep of `weft_txn_recover` takes one record at a time instead of batches of 64.
- Page numbers, txids, counters and scrip are unbounded integers; key encodings state their widths.
- Memo keys of the planner are the exact state and task list, its clock never fires, a planner
  value is nothing, a boolean, an integer or a string, and how a goal binding is judged in a state
  is a function of the domain. An action or method is a function of its state and arguments.
- In the ward, tables are fields, dice and salvage names are arbitrary functions, places, wire names
  and contract kinds are not kept. An SQL statement fails only on a repeated primary key, and a group's
  commit lands, or fails at any participant's own COMMIT, or at its record. A Spark's database, as its
  connection sees it, is part of the Spark that holds it.
- Times in the network are exact integers. Text in a reply is its bytes.

Where the code does not meet what it says, the model follows the code:

- `prevent_body` calls the rows it clears unreachable (thirdparty/store-plane/fdb_vfs.c:1715-1735). They are
  unreachable exactly when no PIDX row names the recorded txid, and a participant that wrote
  nothing is recorded at its own head, whose rows are reachable. `RecordsNeverAbort` shows that
  a record `record_body` wrote never gets there with one live process.
- A write that is refused half way, for want of room in one commit, leaves its first pages in the
  buffer and the size as it was (thirdparty/store-plane/fdb_vfs.c:884-905). Pages past the
  end of the file go into the store with the next sync and read as they were written. A fold goes over
  the pages of the file only (:1181-1187), and drops every page past its end that the base at the head
  did not hold already. `FileHistory` follows every history through this;
  `RefusedWriteLosesAByte` is one in which a byte is written, committed and then lost, and
  `WithRoomThePlainArray` says that nothing is lost while every write has room.
- Key ranges are byte ranges. What they hold is stated for every name: a row of another database
  lies in the range cleared at open exactly when its key goes on from name/DELTA/ with bytes not
  before the number of head + 1, which takes a slash in a name, and `vfs_open` accepts any name
  (thirdparty/store-plane/fdb_vfs.c:1941).
- `pay_alone` puts the memory back when its group does not land, so that `honest` will not report a
  hole the databases do not have (src/queen.c:579-586). If it was the record that failed, every
  participant has committed, the connections go on holding the payment, and `honest` is off by its
  amount.
- A cycle that is not done does not put its memory back (src/queen.c:722-734). The memory still adds
  up; the sum that `honest` takes from the databases holds exactly when nobody whose database was
  rolled back had been paid.
- `migrate` checks the size of the array, not the zone's budget (src/queen.c:858), so a full ward can
  be taken over the budget that `join_ward` keeps.
- Ids are meant to be unique across the game (src/queen.c:239-240), and an arrival takes its id, and
  with it a database name, from the current count (:725). It keeps the ids unique exactly when its ward
  has not given that id out before. While the ids a ward has given out are a run from its first on, it
  has exactly when more of the ward's own Sparks are away than there are strangers in the ward; one
  arrival while there are more strangers leaves a gap in the run.
- The reachability pre-check is called sound (thirdparty/taskweft/tw_planner.hpp:238-252). It judges goals that
  are still to come in the current state, so a goal whose variable has no method and that an earlier action
  would meet loses its plan, as `PreCheckLosesAPlan` shows. Where every goal's variable has a method nothing is lost:
  `FindsExactlyIfSolvable`.
- `tw_expand` leaves out the direct delegates that `check_base` accepts for CONTROLS
  (thirdparty/taskweft/tw_rebac.hpp:232-267), as one delegation shows.

## Model

| member | source | states |
|---|---|---|
| StoreRows.NewestIsLargest | thirdparty/store-plane/fdb_vfs.c:699-709 | the base a read falls back to is the largest marked version not above the head, and there is none exactly when no such version is marked |
| StoreRows.OpenKeepsView | thirdparty/store-plane/fdb_vfs.c:734-777 | opening clears only rows no reader can reach: every visible page is unchanged and the store's invariant holds |
| StoreRows.StageKeepsView | thirdparty/store-plane/fdb_vfs.c:950-966 | pages staged above the head are seen by nobody |
| StoreRows.HeadLaysPages | thirdparty/store-plane/fdb_vfs.c:968-1009 | moving the head over staged pages shows exactly those pages over the old ones |
| StoreRows.CommitLaysPages | thirdparty/store-plane/fdb_vfs.c:950-1017 | the one-transaction commit shows the same |
| StoreRows.FoldWriteKeepsView | thirdparty/store-plane/fdb_vfs.c:1122-1139 | a window of a fold, over whatever orphan rows an earlier one left, changes no visible page |
| StoreRows.FinishKeepsView | thirdparty/store-plane/fdb_vfs.c:1145-1175 | replacing the log by a complete base changes no visible page |
| StoreRows.HeadKeepsPagesInsideExactly | thirdparty/store-plane/fdb_vfs.c:968-998 | a commit keeps every page inside the file exactly when none of its own lies past the new end |
| StoreRows.FinishShowsBase | thirdparty/store-plane/fdb_vfs.c:1145-1175 | once a fold has finished, a reader sees exactly the rows of the new base, whatever they cover |
| StoreRows.FoldKeepsReadsExactly | thirdparty/store-plane/fdb_vfs.c:1145-1225 | a finished fold, whose windows end with the file, keeps every read exactly when each page past the end was in the base at the head before |
| HandleSteps.OwnerStep | thirdparty/store-plane/fdb_vfs.c:934-1225 | every step of the owning handle keeps the store in order and the handle's cached head, base version, log count and staged pages true |
| HandleSteps.OwnerReads | thirdparty/store-plane/fdb_vfs.c:642-673 | what the owner answers from its caches is the visible page |
| SharedStore.StaleChangesNothing | thirdparty/store-plane/fdb_vfs.c:934-948 | no step of a handle that is not the latest opener changes any row |
| SharedStore.NextKeeps | thirdparty/store-plane/fdb_vfs.c:744-777 | any open, step or crash of any handle keeps the store equal to its reference file |
| SharedStore.RunsRefineFlat | thirdparty/store-plane/fdb_vfs.c:744-1225 | over every interleaving of any number of handles with crashes anywhere, readers see exactly the commits that landed and the owner's caches are the store's numbers |
| SharedStore.CommitShowsLastWrites | thirdparty/store-plane/fdb_vfs.c:850-1017 | told from the list of actions alone: a commit that lands shows on each page the last write its handle made there since its commit before, and the old page where it made none; the file is as long as the longest write, and LOGN grows by the pages written |
| SharedStore.OwnerCanCommit | thirdparty/store-plane/fdb_vfs.c:850-1017 | after any run the latest opener can write any page and commit it, and readers then see that page |
| SharedStore.OwnerCanFold | thirdparty/store-plane/fdb_vfs.c:1122-1225 | after any run it can fold: the log is gone into a marked base at the head and every page reads as it did |
| SharedStore.OwnerSeesCommitted | thirdparty/store-plane/fdb_vfs.c:744-1077 | in every reachable state the latest opener reads the committed file |
| SharedStore.ReopenReadsLastCommit | thirdparty/store-plane/fdb_vfs.c:734-777 | a reopen after any run, however it was cut, reads the file as of the last whole commit |
| GroupProofs.GNextKeeps | thirdparty/store-plane/fdb_vfs.c:1303-1523 | each transaction of begin, join, stage, record, resolve and recovery keeps the protocol's invariant |
| GroupProofs.GRunsHold | thirdparty/store-plane/fdb_vfs.c:1303-1523 | so it holds after every run, with the process dying anywhere |
| GroupProofs.ResolvedShowsReference | thirdparty/store-plane/fdb_vfs.c:1510-1523 | whenever nothing is owed, every database shows exactly what committed |
| GroupProofs.RecoveryEndsResolved | thirdparty/store-plane/fdb_vfs.c:1787-1843 | a recovery that runs to its end leaves nothing owed |
| GroupProofs.RecordsNeverAbort | thirdparty/store-plane/fdb_vfs.c:1737-1778 | recovery never takes its abort branch for a record that `record_body` wrote |
| GroupProofs.UnrecordedStaysHidden | thirdparty/store-plane/fdb_vfs.c:1365-1425 | while the process that gathers a group lives, no member shows a staged page; what a death then leaves is `GroupInNone` |
| GroupTheorems.GroupAllOrNothing | thirdparty/store-plane/fdb_vfs.c:1303-1523 | for every run with an open group, whatever it has staged, and any crashes and recoveries after it: without the record no member changes, pages or size; with it, once nothing is owed, every member holds its pages and its size |
| GroupTheorems.GroupInNone | thirdparty/store-plane/fdb_vfs.c:1365-1425 | a group that dies anywhere before its record, some members staged and some not, is in none of them |
| GroupTheorems.GroupInAll | thirdparty/store-plane/fdb_vfs.c:1397-1523 | a group whose record landed is in all of them |
| GroupTheorems.NothingOwedNothingMoves | thirdparty/store-plane/fdb_vfs.c:1737-1843 | with no record owed, no crash, restart or recovery changes any database |
| GroupTheorems.RecoveryReachesItsEnd | thirdparty/store-plane/fdb_vfs.c:1737-1843 | from every state that keeps the invariant, a crash, a restart and the steps of one recovery settle everything |
| GroupTheorems.SettlingKeepsReference | thirdparty/store-plane/fdb_vfs.c:1737-1843 | crashes, restarts and recoveries commit nothing of their own |
| GroupTheorems.TwoCommitTogether | thirdparty/store-plane/fdb_vfs.c:1303-1523 | a run in which two new files commit together: staged, neither page is seen; recorded and resolved, both are, and no record is left |
| Recoverers.RecoverersConverge | thirdparty/store-plane/fdb_vfs.c:1629-1778 | over every interleaving of any number of recoverers of one record all decisions agree: commit exactly when every intent was there, and then the rows are those of the committer's own `put_head`, LOGN excepted; after an abort no handle that owned the database of a missing intent owns it any more |
| Recoverers.HealthyFenceMovesExactlyWhenAskedLate | thirdparty/store-plane/fdb_vfs.c:1706-1778 | the fence of a participant whose intent was there moves exactly when its write is above the head and some recoverer asked about it after another had given it up, and gave it up again |
| Recoverers.RecovererEnds | thirdparty/store-plane/fdb_vfs.c:1737-1778 | whatever the others have done and wherever it stands, a recoverer that goes on alone comes to its decision |
| Recoverers.FinishCommits | thirdparty/store-plane/fdb_vfs.c:1678-1703 | resolving a participant from the record, once or again, gives what the committer would have written |
| Recoverers.PreventKeepsReadsExactlyWhenUnindexed | thirdparty/store-plane/fdb_vfs.c:1715-1735 | giving a participant up changes no read exactly when no index row names the recorded txid, as for every txid above the head |
| Recoverers.PreventLosesACommittedPage | thirdparty/store-plane/fdb_vfs.c:1715-1735 | a concrete database and record for which it does change one |
| OpenFile.BufferedInsert | thirdparty/store-plane/fdb_vfs.c:380-413 | inserting at the slot `find_dirty` names adds exactly that page and keeps the buffer sorted |
| OpenFile.RangeRead | thirdparty/store-plane/fdb_vfs.c:506-560 | a range reply is the store's rows in order, complete up to where it stopped |
| OpenFile.Fill | thirdparty/store-plane/fdb_vfs.c:506-627 | whatever was cut short, every place of the filled window holds what the plain lookup answers |
| OpenFile.FdbFile.Open | thirdparty/store-plane/fdb_vfs.c:759-777 | the opener owns the file and sees the stored bytes |
| OpenFile.FdbFile.FindDirty | thirdparty/store-plane/fdb_vfs.c:380-397 | the binary search finds the page if it is buffered, else its place |
| OpenFile.FdbFile.Depth | thirdparty/store-plane/fdb_vfs.c:462-480 | by how much the score moves, that it stays in its bounds, and which window it opens |
| OpenFile.FdbFile.PageFromStore | thirdparty/store-plane/fdb_vfs.c:642-673 | for any access history the owner gets exactly the two-row lookup's answer |
| OpenFile.FdbFile.Read | thirdparty/store-plane/fdb_vfs.c:789-860 | the bytes of the flat array at any offset and length, and a short read exactly when a touched page is a hole |
| OpenFile.FdbFile.Write | thirdparty/store-plane/fdb_vfs.c:850-905 | all of the bytes are laid over the flat array, at any offset and across pages, exactly when the pages touched and those buffered fit one commit; otherwise exactly those before the first page refused, with the size as it was |
| OpenFile.LandsWhole | thirdparty/store-plane/fdb_vfs.c:850-882 | a write gets in page by page to its end exactly when the buffered and the touched pages together are within the limit |
| OpenFile.FdbFile.StageAll | thirdparty/store-plane/fdb_vfs.c:1035-1077 | the staging transactions of a large flush lay every page under the next txid and show none |
| OpenFile.FdbFile.Land | thirdparty/store-plane/fdb_vfs.c:968-1017 | the landing transaction shows all the buffered pages, or nothing happened |
| OpenFile.FdbFile.Flush | thirdparty/store-plane/fdb_vfs.c:1035-1077 | wherever the buffered pages lie, in one transaction or staged, the commit lands whole, and no byte of the file changes; refused or cut by a crash anywhere, no byte a reader sees changes |
| OpenFile.FdbFile.Compact | thirdparty/store-plane/fdb_vfs.c:1092-1225 | refused or cut by a crash before any of its transactions, compaction changes no read; finished, it keeps every page of the file with an exact count of them, and a page past the end exactly if the base at the head held it already |
| FileHistory.Step | thirdparty/store-plane/fdb_vfs.c:789-1225 | one operation on any file, a write refused past the end and a sync or fold after it included, moves the file and the flat array together; a process that dies in it comes back at the last whole commit |
| FileHistory.Replay | thirdparty/store-plane/fdb_vfs.c:789-1225 | over any history of writes, refused or not, reads, syncs, folds and crashes, every read returns the flat array's bytes, and every crash leaves the array as of the last whole commit or the one in flight, never a mix |
| FileHistory.WithRoomThePlainArray | thirdparty/store-plane/fdb_vfs.c:789-1225 | while every write had room, the array is the plain one of its writes: a sync commits it, a fold changes no byte, a crash takes it back to the last whole commit |
| FileHistory.RefusedWriteLosesAByte | thirdparty/store-plane/fdb_vfs.c:884-1225 | a history from an empty file, whose second write is refused half way: its byte reads as written, also once committed, and as zero after the fold |
| Keys.OrderOfNumbers | thirdparty/store-plane/fdb_keys.h:26-38 | the byte order of big-endian numbers is the order of the numbers |
| Keys.ReadsBack | thirdparty/store-plane/fdb_keys.h:30-38 | a number read back is the number written |
| Keys.PutBe | thirdparty/store-plane/fdb_keys.h:26-32 | the bytes of the number go to their place in the buffer and nowhere else |
| Keys.GetBe64 | thirdparty/store-plane/fdb_keys.h:34-38 | the number the eight bytes stand for |
| Keys.KeyAfterInPlace | thirdparty/store-plane/fdb_keys.h:136-142 | the buffer's prefix becomes the bound after it |
| Keys.RangeIsPrefix | thirdparty/store-plane/fdb_keys.h:133-142 | a prefix with any byte but 0xFF: the range from it to the key after it holds exactly the keys under it |
| Keys.RangeOfAllFFIsEmpty | thirdparty/store-plane/fdb_keys.h:136-142 | a prefix of 0xFF alone: the range is empty |
| Keys.ClearsExactlyUnreachable | thirdparty/store-plane/fdb_vfs.c:734-740 | for every row and every name, exactly which rows the clear at open removes: of the database's own log, the commits above the head; of any other row, none while no name holds a slash |
| Keys.MarkersBelow | thirdparty/store-plane/fdb_vfs.c:699-709 | for every row and every name, exactly which rows the range searched for the newest base holds: of the database's own markers, those not above the head |
| Keys.LastRowIsNewest | thirdparty/store-plane/fdb_vfs.c:292-312 | while only the database's own markers lie under its prefix, the last row of that range ends in the largest such version |
| Keys.NoRowNoVersion | thirdparty/store-plane/fdb_vfs.c:292-312 | an empty range means there is none, whatever the names |
| Keys.PlainNamesOnlyMarkers | thirdparty/store-plane/fdb_vfs.c:699-709 | names without a slash leave only the database's own markers under its prefix |
| Keys.OtherNamesAreLeftAlone | thirdparty/store-plane/fdb_vfs.c:734-740 | a row whose key does not go on from the database's own name is in neither range, slashes or not |
| Keys.SlashedNamesAreCleared | thirdparty/store-plane/fdb_vfs.c:734-740 | of a database called name/DELTA/z, exactly which rows are cleared along with the log of `name` |
| Keys.SlashedNameIsCleared | thirdparty/store-plane/fdb_vfs.c:1941 | one such name |
| HtnDomain.Unmet | thirdparty/taskweft/tw_domain.hpp:81-118 | exactly the bindings that do not hold, none exactly when the goal is satisfied |
| HtnDomain.UnmetInOrder | thirdparty/taskweft/tw_domain.hpp:81-118 | they come in the order of the goal |
| HtnDomain.KeyParts | thirdparty/taskweft/tw_planner.hpp:85-89 | the key of a command falls apart, at its separators, into the name and the shown arguments |
| HtnDomain.KeysAgreeExactly | thirdparty/taskweft/tw_planner.hpp:85-89 | where names and shown arguments hold no separator, two commands have one key exactly when their names and their shown arguments agree one by one |
| HtnDomain.Simulate | thirdparty/taskweft/tw_replan.hpp:23-53 | how far a plan runs, where and at which action it stops, and the state it leaves |
| HtnDomain.FollowExecutes | thirdparty/taskweft/tw_replan.hpp:23-53 | a derived plan runs to its end in the state the derivation ends in |
| HtnDomain.DerivedReachesGoal | thirdparty/taskweft/tw_planner.hpp:549-558 | a derived plan ends in a state that meets the goal its task list ends with |
| HtnDomain.FollowSplits | thirdparty/taskweft/tw_planner.hpp:549-625 | a derivation of one list after another is one of the first, and from where that ends one of the second |
| HtnWitness.Scan | thirdparty/taskweft/tw_planner.hpp:258-311 | the loop's counts are the sums over the tasks |
| HtnWitness.BuildCache | thirdparty/taskweft/tw_planner.hpp:331-371 | the cache holds the static prefix sums and the places of the goals |
| HtnWitness.SumsSplit | thirdparty/taskweft/tw_planner.hpp:373-410 | the full sums from any index are the static sums plus the goals' own |
| HtnWitness.ScanCached | thirdparty/taskweft/tw_planner.hpp:373-410 | for every task list, state and index, the cached scan gives the rescan's certified, skipped and found |
| HtnPlain.MoreFuel | thirdparty/taskweft/tw_planner.hpp:512-625 | a search no branch of which ran out of fuel answers the same with more |
| HtnPlain.HopelessFails | thirdparty/taskweft/tw_planner.hpp:429-445 | a failure found without running out of fuel is a failure at every fuel that suffices |
| HtnComplete.PlainIsSound | thirdparty/taskweft/tw_planner.hpp:412-626 | a plan the plain search finds is a derivation of the tasks without a blacklisted command |
| HtnComplete.DerivationIsFound | thirdparty/taskweft/tw_planner.hpp:196-410 | neither pre-check loses a plan where every goal's variable has a method: the search finds one wherever a derivation has no more decisions than it has fuel |
| HtnComplete.FindsExactlyIfSolvable | thirdparty/taskweft/tw_planner.hpp:412-626 | so while no branch runs out of fuel it finds a plan exactly if there is one |
| HtnComplete.PreCheckLosesAPlan | thirdparty/taskweft/tw_planner.hpp:236-311 | an action, and a goal that it meets and that has no method: there is a plan, and the search finds none at any fuel |
| HtnSearch.Walk | thirdparty/taskweft/tw_planner.hpp:447-510 | the iterative fast path ends where the plain recursion would: with its plan, its failure, or at its next decision |
| HtnSearch.Search.OrderMethods | thirdparty/taskweft/tw_planner.hpp:158-180 | every method once, the best-scoring in front if any has scored |
| HtnSearch.Search.Seek | thirdparty/taskweft/tw_planner.hpp:412-626 | from caches whose plans are derivations, every plan found is a derivation of the tasks, holds no command with the name and the shown arguments of a blacklisted one, and the caches stay so; from fresh caches, while no branch runs out of fuel, the memoised answer is the plain search's |
| HtnSearch.Search.TryMethods | thirdparty/taskweft/tw_planner.hpp:532-625 | the same for one decision over methods, with duplicates and implausible decompositions skipped |
| HtnSearch.Search.TryBindings | thirdparty/taskweft/tw_planner.hpp:573-593 | the same for a multigoal |
| HtnSearch.FindPlan | thirdparty/taskweft/tw_planner.hpp:628-640 | a plan returned runs to its end, meets there the goal the list ends with, and spares the blacklist; a search that settles within its depth is the plain one, and then, where every goal's variable has a method, a plan is returned exactly if there is one |
| SolutionTree.SolTree.AddNode | thirdparty/taskweft/tw_soltree.hpp:36-50 | one more node, last among its parent's children, and no other node touched; every node but the root stays listed once, by its parent, which is older |
| SolutionTree.SolTree.Restore | thirdparty/taskweft/tw_soltree.hpp:53-69 | whatever grew since the checkpoint is gone: nodes, child lists and actions are as they were |
| SolutionTree.SolTree.NearestRetryable | thirdparty/taskweft/tw_soltree.hpp:73-95 | where each node hangs under the last choice before it, the latest choice before a node that has a method left, -1 exactly when none has |
| HtnTree.TreeSearch.Seek | thirdparty/taskweft/tw_planner.hpp:648-836 | no plan: the tree is exactly what it was given; a plan: the tree gained exactly the nodes of one of its derivations, each choice and each action under the choice in force, with their names, arguments, alternatives and step numbers, and no skipped method; the plan spares the blacklist; from fresh caches, while no step runs out of fuel, the answer is the plain search's |
| HtnTree.RecordedTells | thirdparty/taskweft/tw_planner.hpp:700-830 | in the tree of a plan every node hangs under the last choice before it, the actions before a choice are the steps before its first, and its method applies in the state the plan has reached there |
| HtnTreePlain.TreeFindsExactly | thirdparty/taskweft/tw_planner.hpp:648-836 | while no step runs out of fuel, and every goal's variable has a method, the plain form finds a plan exactly if there is one without a blacklisted command and without a skipped alternative |
| HtnTree.FindPlanWithTree | thirdparty/taskweft/tw_planner.hpp:841-861 | from a bare root the tree is that of a derivation of the plan; the plan runs to its end and meets there the goal the list ends with; where every goal's variable has a method, and no step runs out of fuel, one is found exactly if there is one |
| QueenPlanner.FindsRun | src/planner.cpp:64-221 | at every cycle but 0 the search succeeds within nine decisions, with the plan of the closed form |
| QueenPlanner.RunPlanDecides | src/planner.cpp:64-221 | its first step is the decision: the Den when wear is 60 or more, else Rails, Plaza, else hold; then Den, Tavern, Chapel, else hold; then the Row while there is room |
| QueenPlanner.QueenPlan | src/planner.cpp:242-268 | the planner always answers, with that decision or hold, and only with a venue that can be bought |
| QueenPlanner.CommissionsKeepReserve | src/planner.cpp:64-79 | in any plan that runs, every commission leaves the reserve in the treasury, none is of a built venue, and none repeats |
| Gyre.Join | src/queen.c:493-504 | a database joins once, and is refused exactly at the last place |
| Gyre.Ward.Found | src/queen.c:241-315 | a ward that fits its zone opens with balanced books and its Sparks' own ids |
| Gyre.Ward.JoinWard | src/queen.c:210-237 | an arrival with an empty purse, refused exactly at the budget; the books stay balanced |
| Gyre.Ward.BuildVenue | src/queen.c:335-351 | refused exactly when unknown, unaffordable or built; treasury and spending move together |
| Gyre.MaxWearIsLargest | src/queen.c:388-390 | no Spark is more worn than that, and one is as worn unless nobody is worn |
| Gyre.Ward.DecidedForTheWard | src/planner.cpp:64-221 | in the ward's own terms the Den when some Spark's wear is 60 or more, else the Rails, the Plaza, and so on down the list, each unbuilt and affordable above the reserve |
| Gyre.Ward.Commission | src/queen.c:368-400 | what is due is built: the Den when some Spark's wear is at least 60 and it is unbuilt and affordable above the reserve, the Rails when nobody is so worn, and so on; nothing else is built, and the wages of a cycle stay in the treasury |
| Gyre.Ward.PostBoard | src/queen.c:405-438 | six contracts, nine with the Rails, each of the risk and the pay its three draws make, open and worth posting |
| Gyre.Ward.Choose | src/queen.c:446-477 | the first of the best untaken contracts, marked as taken; nothing exactly when all are taken |
| Gyre.Ward.Pay | src/queen.c:542-566 | ledger, purse and salvage in the databases and treasury and purse in memory move by one amount, or the payment is refused and the memory is untouched |
| Gyre.Ward.PayAlone | src/queen.c:572-588 | a payment lands on both sides; one that does not is taken back in memory, leaves a memory that adds up, stands in exactly the databases that had committed, and leaves the sum of `honest` right exactly when its record was not what failed, or it was of nothing |
| Gyre.Ward.PayCommand | src/interactor.c:149-162 | refused, and then without effect, exactly when the Spark is not here or the treasury will not reach |
| Gyre.Ward.Perform | src/queen.c:611-677 | a contract is kept exactly when the roll reaches its risk, and what it then does to every field |
| Gyre.Ward.PerformBalances | src/queen.c:617-658 | kept or lost, paid or not, a contract leaves the books balanced, because a find is always paid out |
| Gyre.Ward.Turns | src/queen.c:606-677 | what was issued and found is what the board says was kept; at most one database joins per contract, and who does not join is untouched; a turn that stops it has moved no purse |
| Gyre.Ward.DebtClock | src/queen.c:685-697 | the debt compounds, a sixth of the treasury or all of the debt is paid, and nothing goes below zero |
| Gyre.Ward.Cycle | src/queen.c:592-734 | a cycle that is done keeps the books, builds what the closed form decides, and holds at most ten of sixteen places; it gives up only over a repeated salvage name; however it ends its memory adds up, and when it is not done `honest` passes exactly when nobody whose database was rolled back had been paid |
| Gyre.Ward.Stop | src/queen.c:512-531 | what a cycle that is not done leaves in each database, by how far its commits got |
| Gyre.GivingUpAfterAPayment | src/queen.c:731-734 | a ward of two whose cycle pays one Spark, gives up over the other's repeated name, and is then not honest |
| Gyre.Ward.Honest | src/queen.c:738-765 | the check is the sum it says, and balanced books always pass it |
| Gyre.Ward.Remove | src/queen.c:891-892 | the gap is closed in place, in order |
| Gyre.Migrate | src/queen.c:855-895 | purse and salvage move with the Spark, to another ward or to the end of its own; the books stay balanced and nothing is issued or found; another ward is within its budget exactly if it had room |
| Gyre.HonestAcross | src/queen.c:900-911 | the check is the sum over all wards |
| Gyre.EveryWardHonestSoAreTheyAll | src/queen.c:897-911 | wards whose own books balance always pass it |
| Gyre.Play | src/interactor.c:130-162 | one move of a game keeps every ward's books, or ends it, exactly when its commit does not land, a cycle gives up over a repeated salvage name and leaves a find in nobody's hands, or a payment that could be asked for does not land; then every other ward's books stand, and the memory of that ward adds up; a cycle that lands and draws fresh names goes on; nobody comes or goes but the arrival of a cycle |
| Gyre.PlayAll | src/queen.c:592-911 | so do any moves among any wards: treasury, purses, retired and spent add up to issued, nothing is negative, items held are items found; a game ends early only at such a move; and however it goes, the ids borne in it are those the wards have given out, each as often |
| Gyre.FoundedGame | src/queen.c:994-1023 | wards founded one after the other start with such ids, and none is borne twice |
| Gyre.ArrivalKeepsIdsUniqueExactly | src/queen.c:724-726 | an arrival keeps the ids of the whole game unique exactly when its ward has not given its id out before |
| Gyre.ArrivalIdIsTakenExactlyWhenMoreAreAway | src/queen.c:724-726 | while the ids a ward has given out are a run from its first on, an arrival's id is one of them exactly when more of its own Sparks are away than strangers are here, and they stay a run exactly when as many are |
| TemporalNetwork.RelaxPhase | thirdparty/taskweft/tw_temporal.hpp:196-203 | a phase loses no solution, and unless its point is on a negative loop it is the min-plus step |
| TemporalNetwork.PhaseCloses | thirdparty/taskweft/tw_temporal.hpp:196-203 | such a phase closes the matrix under one more point |
| TemporalNetwork.ClosedIsMet | thirdparty/taskweft/tw_temporal.hpp:191-207 | a closed matrix is met by every point at its tightest bound |
| TemporalNetwork.NegativeLoopIsUnmet | thirdparty/taskweft/tw_temporal.hpp:204-206 | a negative diagonal is met by no times |
| TemporalNetwork.Decide | thirdparty/taskweft/tw_temporal.hpp:191-207 | true exactly when some times meet the matrix, for any number of points |
| PlanTiming.Stn.AddPoint | thirdparty/taskweft/tw_temporal.hpp:173-181 | a name is given one number, once, bound to nothing |
| PlanTiming.Stn.AddConstraint | thirdparty/taskweft/tw_temporal.hpp:183-189 | the matrix goes on meaning exactly the constraints added |
| PlanTiming.Stn.Consistent | thirdparty/taskweft/tw_temporal.hpp:191-207 | true exactly when some times keep every constraint ever added |
| PlanTiming.NamesApart | thirdparty/taskweft/tw_temporal.hpp:271-276 | the points of a plan's steps never share a name |
| PlanTiming.CheckTemporal | thirdparty/taskweft/tw_temporal.hpp:229-282 | the network of any plan is consistent; read back, the first step starts at the origin, each next where the one before ends, each lasts as long as the parts its duration is written from, or nothing if it has none, and the total is the time to the last end |
| Durations.AcceptsExactlyCanonical | thirdparty/taskweft/tw_temporal.hpp:29-117 | a text is accepted exactly when it is written from canonical parts, and its value is theirs |
| Durations.CanonicalExactly | thirdparty/taskweft/tw_temporal.hpp:44-117 | parts are canonical exactly when years, months, days, hours, minutes and seconds come in that order and each at most once, weeks stand alone, and only the last has a fraction |
| Durations.LettersAreWorth | thirdparty/taskweft/tw_temporal.hpp:17-26 | what a number before each of the letters reads as, in milliseconds |
| Durations.ReadsCanonical | thirdparty/taskweft/tw_temporal.hpp:44-117 | every such list of parts is read to its value |
| Durations.ReadIsCanonical | thirdparty/taskweft/tw_temporal.hpp:44-117 | everything read is such a list |
| Durations.ReadFraction | thirdparty/taskweft/tw_temporal.hpp:70-84 | a fraction in thousandths, cut after three digits |
| Durations.Parse | thirdparty/taskweft/tw_temporal.hpp:32-117 | the cursor loop computes that reading |
| Durations.TrimZeros | thirdparty/taskweft/tw_temporal.hpp:144-148 | the trimmed fraction has the same value |
| Durations.Format | thirdparty/taskweft/tw_temporal.hpp:129-155 | any count printed reads back as itself, and a negative one as zero |
| Rebac.Graph.AddEdge | thirdparty/taskweft/tw_rebac.hpp:75-82 | one more edge, and the three indexes again list exactly the edges |
| Rebac.Graph.CheckIsReach | thirdparty/taskweft/tw_rebac.hpp:103-149 | with fuel f, true exactly when fewer than f membership edges lead to a holder, or for CONTROLS a delegate |
| Rebac.Graph.CheckByName | thirdparty/taskweft/tw_rebac.hpp:29-149 | in the names the edges were added under: a path of IS_MEMBER_OF edges of at most f subjects, and at its end an edge of that very name to the object, or for CONTROLS a DELEGATED_TO edge from it |
| Rebac.Graph.PivotByName | thirdparty/taskweft/tw_rebac.hpp:204-224 | a built-in pivot follows the edges of its own name, any other every edge whose name is not built in |
| Rebac.EnoughFuel | thirdparty/taskweft/tw_rebac.hpp:103-149 | fuel for every node of the graph is as good as any more |
| Rebac.Graph.ExprDecided | thirdparty/taskweft/tw_rebac.hpp:159-226 | with fuel for its depth and every node, an expression holds exactly when its meaning does, unions, intersections, differences and pivots included |
| Rebac.Graph.Expand | thirdparty/taskweft/tw_rebac.hpp:232-267 | with fuel f, exactly the direct holders and the members of anybody the check accepts with f; which is whom the check accepts with f + 1, for CONTROLS but for direct delegates |
| Rebac.ExpansionMissesADelegate | thirdparty/taskweft/tw_rebac.hpp:136-147 | one delegation, at any fuel: the check accepts the delegate and the expansion is empty |
| Cbor.HeadReadsBack | thirdparty/interactor/src/cbor.c:19-36 | a head of any 64-bit argument is read back, whatever follows |
| Cbor.IntegersAsInTheRfc | thirdparty/interactor/src/cbor.c:19-45 | the bytes of eleven integers, as appendix A of RFC 8949 lists them |
| Cbor.OthersAsInTheRfc | thirdparty/interactor/src/cbor.c:47-59 | and of truth values, null, texts and both kinds of array |
| Cbor.RecordAsInTheRfc | thirdparty/interactor/src/cbor.c:47-59 | and of a map |
| Cbor.ReadsItem | client/src/cbor.js:21-98 | what is written is read back as its value, using its own bytes and no more, for all integers, texts, both kinds of array, and maps |
| Cbor.ReplyReadsBack | client/src/cbor.js:108-110 | a whole reply is one item with nothing left over |
| Replies.Writer.Raw | thirdparty/interactor/src/cbor.c:9-15 | the buffer holds as much of what was sent as fits, and `over` is set exactly when that is not all |
| Replies.Writer.Head | thirdparty/interactor/src/cbor.c:19-36 | the head goes out in the fewest bytes |
| Replies.Writer.PutInt | thirdparty/interactor/src/cbor.c:40-45 | any 64-bit integer |
| Replies.Writer.PutText | thirdparty/interactor/src/cbor.c:47-51 | any text |
| Replies.SayRows | src/interactor.c:45-76 | a table of any length is one streamed array, an unreadable one an empty array |
| Replies.SaySparks | src/interactor.c:26-41 | the Sparks are one array of records |
| Replies.SayWard | src/interactor.c:81-104 | exactly the last four fields of the reply |
| Replies.SayReply | src/interactor.c:186-196 | exactly one record of seven fields, whatever the ward holds |
| Replies.WardSays | src/interactor.c:86-94 | what the ward's record holds under each of its eight names |
| Replies.SparkSays | src/interactor.c:30-39 | what a Spark's record holds under each of its eight names |
| Replies.ReplySays | src/interactor.c:186-196 | what the reply holds under each of its seven names |
| Replies.SparksInOrder | src/interactor.c:26-41 | the Sparks in their order |
| Replies.RowsInOrder | src/interactor.c:45-76 | the rows in their order, each with its cells under the columns' names |
| Replies.Ask | src/interactor.c:203-220 | a reply that fits reads back as the same value with every byte used; one that does not is reported as nothing, never cut |
| ReplyReader.Reader.Value | client/src/cbor.js:51-97 | the moving cursor reads exactly what the bytes say, in maps with text for keys, and fails exactly when they say nothing of the kind |
| ReplyReader.DecodeFramed | client/src/cbor.js:114-119 | nothing until a whole frame is there, then its value and its length |
| ReplyReader.FramedReplyReadsBack | client/src/cbor.js:114-119 | a reply framed and followed by anything reads back as itself |

## Left out

- `fdb_truncate`, pending truncates and `vfs_delete`: see the assumptions above.
- The interleavings of `SharedStore`, of the group commit and of `Recoverers` are of handles whose pages lie inside the file; a refused write is followed through one open file at a time, in `FileHistory`.
- FoundationDB client calls, retries, threads and the group mutex, and SQLite itself.
- Transports, the poll loop, the browser interface, benchmarks, recorders and the fan-out leaf.
- Planner completeness where a goal's variable has no method, or where a branch runs out of fuel: failures from exhausted fuel are cached, and `Search.Seek` then claims soundness only.
- `tw_replan` and `tw_replan_incremental`, hash collisions of memo keys, the wall clock, and planner values that are arrays, dictionaries or floats.
- The Queen's closed form at cycle 0, where a venue built stays unbuilt.
- Uniqueness of salvage names: a repeated name in one Spark's hands makes the cycle give up, here as there.
- The shared file behind two Sparks of one id: each Spark has a database of its own here, so what an arrival with a reused id does to the other Spark's rows is not followed.
- A failed SQL statement other than a repeated primary key or a COMMIT, and games that go on after a commit that did not land.
- HRR vectors, retrieval scoring, capability paths, the civil calendar, and the legacy shims over seconds.
- Rounding in the temporal network, which the code keeps in doubles, and 64-bit overflow of durations.
- ReplyReader.Reader.Value: a map key that is not text is an error here, where the client's reader makes a text of it; the writer sends no such key.
- Text that is not UTF-8.
- Keys.LastRowIsNewest: names longer than the key buffer, which `snprintf` would cut, are not modelled.
