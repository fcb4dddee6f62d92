# A verified model of alist's stateful core

This project models the parts of alist that keep state under many hands or turn text into structure, and proves
what they are for. Everything is in Dafny; `dafny verify dfyconfig.toml` checks the whole project.

* **Concurrent map** (`MapOfProtocol`, `MapOfInvariant`, `MapOfSteps`, `MapOfMoves`, `MapOfRuns`,
  `MapOfOrder`). The read-snapshot,
  dirty-map and expunged-entry protocol of `MapOf`, as a step system for any number of goroutines: every atomic load,
  compare-and-swap, lock, locked mutation and unlock is a step of its own. The invariant depends on how far the
  holder of the mutex has come, because `dirtyLocked` expunges entries while `amended` is still false. `MapOf.dfy`
  is the same map as a class used by one goroutine, refining a plain `map`.
* **WebDAV locks** (`LockHeap`, `LockTable`, `Locks`, `LockRuns`, `ConfirmLocks`, `ConfirmIf`). The class `MemLS` has the
  tree of names with reference counts, the token map and the expiry heap of `memLS`; all three are tied to one table
  from lock roots to locks, and each method is proved against what it does to that table. `LockRuns` then speaks of
  any sequence of operations.
* **Singleflight** (`Singleflight`, `SingleflightInvariant`, `SingleflightRuns`, `SingleflightAnswers`). Do, DoChan and Forget as a step system,
  with joiners that arrive between `wg.Done` and the delete, and with normal, panicking and exiting functions.
* **The strm importer** (`StrmTable`, `StrmLines`, `StrmDriver`, `StrmLookup`). The import loop with its directory cache, over a table
  of rows, and the path walk that reads it back, where the database may return any matching row.
* **The If header** (`IfGrammar`, `IfParser`, `IfPrint`, `IfConditions`). The lexer and parser of section 10.4.2 of
  RFC 4918 against a grammar, the printed form, and what the lock system's answer to a list says of its truth.
* **Range headers** (`Ranges`, `RangeGrammar`). The parser on a 64-bit integer type, against the bytes that a header
  selects and against the grammar of section 2.1 of RFC 7233.
* **XML field conflicts** (`TypeInfo`), **mount resolution** (`Mounts`, `Storages`, `StorageOps`) and **indentation
  trees** (`UrlForest`, `UrlText`, `UrlLines`, `UrlSums`, `UrlTree`, with linked nodes updated in place).
* `Common`, `Strings`, `Paths` and `Numbers` hold the parts of Go's `strings`, `path` and `strconv` that these use.

Times are integers. Whether a database statement, a transaction or a file scan succeeds is a parameter, and so are
the clock, the parsing of a URL and the answer to an HTTP HEAD request. Map iteration is a loop that takes the keys
in an arbitrary order.

Where the code does something other than its comments say, the model follows the code, and says exactly when the
two agree:

* The comment on `ifList` calls a list of the If header a conjunction (`server/webdav/if.go:19`). `lookup` takes any
  one condition, and reads neither `Not` nor entity tags (`server/webdav/lock.go:192-210`).
  `IfConditions.AcceptsOnlyTrueIff` says for which lists an accepted list is still a true one;
  `IfConditions.NotAccepted` is a list for which it is not.
* `findNodeByPath` can fail for a line whose path is neither repeated nor a directory, when another line put a file
  where the path needs a directory; `StrmLookup.LookupReadsLine` has the condition and `StrmLookup.FileOnTheWay` such
  a table.
* `getStoragesByPath` counts slashes of a mount path that has not been cleaned. `Storages.LongestMatchIff` says for
  which mounts this finds the longest match; `Storages.CrookedIsChosen` has `/a/..balance` beside `/a/b`.
* `GetStorageAndActualPath` cuts the mount path off as a text. `Mounts.JoinsBack` says for which mounts and paths
  joining the two gives the request path back; `Mounts.WholeSuffixLost` has `/a/.balance` and `/a`.
* `ParseRange` promises ErrInvalid for headers that are invalid by RFC 7233. It lets signs pass, blanks beside the dash
  or at the ends, lists without an element, and anything after the dash of a range that begins after the end of the
  file; and it refuses numbers beyond int64 and a unit in capital letters. `RangeGrammar.RejectsInvalidIff` has the
  condition; `InvalidSign`, `InvalidEmpty`, `InvalidBeyond`, `ValidTooBig` and `ValidCapital` are such headers.
* ErrNoOverlap stands for specs that cannot be satisfied; `Ranges.NoOverlapIff` says when, and `Ranges.EmptySuffix` has
  `bytes=-0`, which cannot be and is answered with an empty range.

## Model

| member | source | states |
|---|---|---|
| MapOfRuns.RunInv | pkg/generic_sync/map.go:103-412 | every reachable state of the step system satisfies the phase-dependent invariant, and the recorded history is the plain map at each moment |
| MapOfRuns.NeverBroken | pkg/generic_sync/map.go:142-169 | no goroutine ever writes to a nil dirty map or is left with an answer that stands for nothing |
| MapOfRuns.CallStretch | pkg/generic_sync/map.go:103-300 | a call in progress has been the same call at every moment since its start |
| MapOfRuns.Linearizable | pkg/generic_sync/map.go:103-300 | a Load, Store, LoadOrStore or Delete that has its answer, as every finished one has, took effect at one moment within the call: its answer is the plain map's there, a change it makes is its own step there, and it makes no other |
| MapOfRuns.OwnChange | pkg/generic_sync/map.go:142-300 | a step of a call that changes the plain map is the moment at which the call takes effect |
| MapOfRuns.RealTimeOrder | pkg/generic_sync/map.go:103-300 | in the one order of all calls by those moments, a call that has its answer before another starts comes first |
| MapOfRuns.ChangesApart | pkg/generic_sync/map.go:142-300 | in that order no two calls that change the plain map share a place |
| MapOfOrder.SequentialOrder | pkg/generic_sync/map.go:103-300 | in every run, the calls that have had their effect, every finished one among them, form one sequence, each once and in real-time order, that replayed on a plain map from the empty one gives each call its own answer and ends in the plain map of the last state |
| MapOfRuns.EveryChangeIsOneCall | pkg/generic_sync/map.go:142-300 | every change of the plain map, in any interleaving, is the whole effect of one call that had had none before |
| MapOfRuns.CommittedStays | pkg/generic_sync/map.go:142-300 | once a call has had its effect, its answer is fixed |
| MapOfRuns.OneEffectPerCall | pkg/generic_sync/map.go:142-300 | no call changes the plain map twice |
| MapOfRuns.RangeView | pkg/generic_sync/map.go:312-343 | a complete Range reports for each key what the plain map held for it at some moment of the call |
| MapOfRuns.SnapshotEntryFate | pkg/generic_sync/map.go:103-300 | an entry taken from an old snapshot is still its key's current entry, or is expunged and in neither map; one that a Load took from dirty may also be in neither map with a value |
| MapOfRuns.RangeEntryFate | pkg/generic_sync/map.go:312-343 | the same for the entries that a Range has still to visit |
| MapOfRuns.LostEntryFrozen | pkg/generic_sync/map.go:290-401 | an entry that has left both maps never comes back and keeps its last value; expunged stays expunged |
| MapOfRuns.NoDeadlock | pkg/generic_sync/map.go:103-412 | in every run, some goroutine can step as long as a call has not finished |
| MapOfMoves.MoveOk | pkg/generic_sync/map.go:103-412 | each single atomic step keeps the invariant, what it guarantees to the other goroutines, and changes the plain map only as its operation may |
| MapOfSteps.BystanderOk | pkg/generic_sync/map.go:103-412 | what a goroutine knows of the map survives every step of another |
| MapOfSequential.MapOf.constructor | pkg/generic_sync/map.go:28-58 | the zero value stands for the empty map |
| MapOfSequential.MapOf.Load | pkg/generic_sync/map.go:103-126 | returns what the plain map holds and leaves the plain map alone, even when the miss promotes the dirty map |
| MapOfSequential.MapOf.Has | pkg/generic_sync/map.go:128-131 | tells whether the plain map has the key |
| MapOfSequential.MapOf.Store | pkg/generic_sync/map.go:142-169 | the plain map gets the value at the key, whichever of the two maps held the key and whether or not its entry was expunged |
| MapOfSequential.MapOf.LoadOrStore | pkg/generic_sync/map.go:205-238 | returns the plain map's value if there is one, and otherwise stores the new one |
| MapOfSequential.MapOf.Delete | pkg/generic_sync/map.go:273-288 | the plain map loses the key and nothing else |
| MapOfSequential.MapOf.MissLocked | pkg/generic_sync/map.go:379-387 | counting a miss, and promotion after enough of them, leave the plain map unchanged |
| MapOfSequential.MapOf.Promoted | pkg/generic_sync/map.go:379-387 | taking the dirty map as the read map loses no live key |
| MapOfSequential.MapOf.CopyLive | pkg/generic_sync/map.go:389-401 | the copying loop expunges exactly the deleted entries and collects exactly the others |
| MapOfSequential.MapOf.DirtyLocked | pkg/generic_sync/map.go:389-401 | building the dirty map leaves the plain map unchanged |
| MapOfSequential.MapOf.RangeSnapshot | pkg/generic_sync/map.go:312-332 | after the first part of Range the read map holds every live key, and the plain map is unchanged |
| MapOfSequential.MapOf.ToMap | pkg/generic_sync/map.go:363-370 | the map returned is the plain map |
| MapOfSequential.MapOf.Clear | pkg/generic_sync/map.go:372-377 | the plain map is empty afterwards |
| MapOfSequential.MapOf.ContentsAre | pkg/generic_sync/map.go:103-139 | the plain map that the two maps stand for is fixed by what a lookup of each key gives |
| MapOfSequential.Entry.TryStore | pkg/generic_sync/map.go:175-185 | stores unless the entry is expunged |
| MapOfSequential.Entry.TryLoadOrStore | pkg/generic_sync/map.go:245-270 | the three cases of an entry: expunged, deleted, live |
| MapOfSequential.Entry.Delete | pkg/generic_sync/map.go:290-300 | deletes a live entry, leaves a deleted or expunged one alone |
| MapOfSequential.Entry.TryExpungeLocked | pkg/generic_sync/map.go:403-412 | expunges a deleted entry and reports whether it is expunged |
| LockHeap.ByExpiry.Swap | server/webdav/lock.go:396-400 | two places are exchanged and the back-indices stay right |
| LockHeap.ByExpiry.Push | server/webdav/lock.go:402-406 | the node is last and knows its index |
| LockHeap.ByExpiry.Pop | server/webdav/lock.go:408-415 | the last node leaves with index -1 |
| LockHeap.ByExpiry.HeapPush | server/webdav/lock.go:222-230 | container/heap's Push over the file's own Swap and Push: heap order and back-indices hold again, and exactly the node is added |
| LockHeap.ByExpiry.HeapRemove | server/webdav/lock.go:336-350 | container/heap's Remove over the file's own Swap and Pop: heap order and back-indices hold again, and exactly the node is gone |
| LockHeap.ByExpiry.FirstIsLeast | server/webdav/lock.go:138-145 | the first node of the heap expires no later than any other |
| LockHeap.RootIsLeast | server/webdav/lock.go:386-394 | in heap order the root holds a least key |
| LockTable.WalkStep | server/webdav/lock.go:352-366 | one step of the walk to the root passes exactly one name, so the walk meets every ancestor once |
| LockTable.UnderAdd | server/webdav/lock.go:315-334 | a new lock adds one to the count of every name above it and of no other |
| LockTable.UnderPositive | server/webdav/lock.go:336-350 | a count is positive exactly while some lock lies at or below the name |
| LockTable.NewLockExclusive | server/webdav/lock.go:232-250 | a lock that conflicts with none in the whole table covers no resource that another covers, section 9.10.5 of RFC 4918 |
| LockTable.ConflictIsOverlap | server/webdav/lock.go:291-313 | a lock is in the way of a new one exactly when some resource would be covered by both |
| LockTable.NarrowerExclusive | server/webdav/lock.go:252-289 | taking locks away, and changing anything but their scope, keeps every resource covered at most once |
| Paths.UpDropsLast | server/webdav/lock.go:352-366 | the string step of the walk drops exactly the last component of a clean name |
| Paths.PrefixIsAbove | server/webdav/lock.go:192-210 | the string prefix test decides ancestry component by component |
| Paths.SlashCleanIsClean | server/webdav/file.go:20-25 | slashClean always gives a clean rooted name |
| Paths.CompsNameOf | server/webdav/file.go:20-25 | a clean name has exactly the components it was made from |
| Locks.MemLS.constructor | server/webdav/lock.go:115-121 | the empty lock system satisfies the whole invariant |
| Locks.MemLS.NameCount | server/webdav/lock.go:315-350 | byName holds exactly the locked names and their ancestors, and each refCount is the positive number of locks at or below |
| Locks.MemLS.TokenMap | server/webdav/lock.go:232-250 | byToken is one to one between the non-empty tokens of the locks and their nodes |
| Locks.MemLS.HeapContents | server/webdav/lock.go:123-131 | byExpiry is a min-heap with the right back-indices and holds exactly the finite locks nobody holds; every other node has index -1 |
| Locks.MemLS.CollectExpiredNodes | server/webdav/lock.go:138-145 | ends, and removes exactly the unheld finite locks that are due |
| Locks.MemLS.Lookup | server/webdav/lock.go:192-210 | finds the unheld lock that the first applicable condition names and that covers the resource, or none exists |
| Locks.MemLS.CanCreate | server/webdav/lock.go:291-313 | the walk to the root is true exactly when no lock in the whole table conflicts |
| Locks.MemLS.CreateNode | server/webdav/lock.go:315-334 | adds one reference on every name up to the root, making the missing nodes |
| Locks.MemLS.DereferenceAll | server/webdav/lock.go:336-346 | takes one reference off every name up to the root and drops the nodes nobody needs |
| Locks.MemLS.Remove | server/webdav/lock.go:336-350 | the lock is gone from the table, the tree, the token map and the heap, and nothing else is |
| Locks.MemLS.NextToken | server/webdav/lock.go:133-136 | the counter goes up by one and its decimal form is the token |
| Locks.MemLS.TokenIsNew | server/webdav/lock.go:133-136 | no lock has the token that comes next |
| Locks.MemLS.Create | server/webdav/lock.go:232-250 | refused exactly when some lock of the whole table conflicts; otherwise the table gains the lock, under a new token, and nothing else changes but expired locks |
| Locks.MemLS.Refresh | server/webdav/lock.go:252-273 | the lock with the token gets the new duration and expiry unless held or missing; nothing else changes but expired locks |
| Locks.MemLS.Unlock | server/webdav/lock.go:275-289 | the lock with the token is removed unless held or missing; nothing else changes but expired locks |
| Locks.MemLS.Confirm | server/webdav/lock.go:147-185 | succeeds exactly when each non-empty name can be claimed, then holds the claiming locks under one release; a failure changes nothing but expired locks |
| Locks.MemLS.ReleaseHeld | server/webdav/lock.go:175-184 | the release unholds exactly what its Confirm held: the other operations keep the root of every node |
| Locks.MemLS.Hold | server/webdav/lock.go:212-220 | only the flag of a free lock changes, and it leaves the heap: the panic is unreachable |
| Locks.MemLS.Unhold | server/webdav/lock.go:222-230 | only the flag of a held lock changes, and a finite lock is back in the heap: the panic is unreachable |
| LockRuns.RunInv | server/webdav/lock.go:133-350 | in every state of every sequence of operations no resource is covered twice, tokens are distinct, and the held locks are the disjoint union of what the outstanding releases hold |
| LockRuns.HeldUntilReleased | server/webdav/lock.go:138-289 | expiry, Unlock, Refresh, Create and other Confirms never remove or change a held lock before its own release |
| LockRuns.HeldStep | server/webdav/lock.go:138-289 | the same for a single operation |
| LockRuns.ConfirmCovers | server/webdav/lock.go:147-185 | after a successful Confirm each non-empty name is covered by a lock it holds whose token is among the conditions, and its release gives the table back |
| LockRuns.TokenNeverReused | server/webdav/lock.go:133-136 | a token given out by some moment names, at any later moment, only a lock that it named then |
| LockRuns.RunTokens | server/webdav/lock.go:133-136 | every lock of every run has the decimal form of a positive uint64 as its token |
| LockRuns.LockLasts | server/webdav/lock.go:222-273 | in every run, a lock that Create made is in force, as it was asked for and under its token, until it is unlocked or refreshed or its duration is over |
| LockRuns.LockEnds | server/webdav/lock.go:138-145 | in every run, a lock that nobody holds ends with its Unlock, or with the first other operation after its time, and its token never names a lock again |
| LockRuns.RefreshExtends | server/webdav/lock.go:252-273 | Refresh gives a free lock its new duration from now on |
| LockRuns.UnlockRemovesOwn | server/webdav/webdav.go:106-139 | whatever other clients did in between, giving a temporary token back removes no lock but the one its request made, and what is due |
| ConfirmLocks.LockTemporarily | server/webdav/webdav.go:91-104 | a zero-depth lock is added, or the request is refused with status 423 exactly when another lock stands in the way |
| ConfirmLocks.ConfirmLocks | server/webdav/webdav.go:106-139 | without an If header: both names are locked, or nothing is changed but expired locks and the status is 423 |
| ConfirmLocks.ReleaseTemporary | server/webdav/webdav.go:131-138 | the release unlocks the two temporary tokens, destination first |
| ConfirmLocks.ReleaseUndoesConfirm | server/webdav/webdav.go:106-139 | confirming and releasing gives back the table that the request met, apart from expired locks |
| ConfirmLocks.ReleaseLeavesOthers | server/webdav/webdav.go:131-138 | on any table the release leaves every lock alone that is held, or is not due and has another token |
| ConfirmLocks.ConflictAfter | server/webdav/webdav.go:121-130 | the temporary source lock stands in the way of the destination exactly when the two names are one |
| IfConditions.AcceptsOnlyTrueIff | server/webdav/if.go:19-23 | in every run of the lock system and for all entity tags, an accepted list is true of the name as a conjunction, if and only if it names one token without Not and beside it only negated tokens that no lock can have, or names no token that a lock can have and is never accepted |
| IfConditions.AnyConditionWill | server/webdav/lock.go:192-210 | a list is accepted for a name exactly when any one of its conditions claims a lock that covers it |
| IfConditions.NotIsIgnored | server/webdav/lock.go:192-210 | Not makes no difference to the lock that is chosen |
| IfConditions.NotAccepted | server/webdav/lock.go:192-210 | the list (Not <t>) is accepted, in a table that a run reaches, where a lock with token t covers the name, and is false there |
| IfConditions.NoLockIdiom | server/webdav/if.go:19-23 | the list (<t> Not <DAV:no-lock>) is true whenever it is accepted; (Not <DAV:no-lock>), which is always true, is never accepted |
| ConfirmIf.ConfirmLocksIf | server/webdav/webdav.go:141-176 | 400 with an unchanged table exactly for headers outside the grammar; otherwise the verdict, status and table of trying the lists in order |
| ConfirmIf.FindTarget | server/webdav/webdav.go:147-162 | an untagged list is about the source, one tagged with this host about what follows the prefix in the path; it is passed over exactly if the tag does not parse to this host, and refused exactly if the path does not start with the prefix |
| ConfirmIf.TargetIs | server/webdav/webdav.go:147-162 | there is exactly one such target |
| ConfirmIf.VerdictOfFirst | server/webdav/webdav.go:145-176 | the verdict is that of the first list that does not fail against the table the request met, although failed Confirms drop expired locks on the way |
| ConfirmIf.StripPrefixInverse | server/webdav/webdav.go:36-44 | stripPrefix gives rest exactly for prefix followed by rest |
| SingleflightRuns.RunInv | pkg/singleflight/singleflight.go:86-212 | every reachable state satisfies the invariant of calls, channels and goroutines |
| SingleflightRuns.OneRunPerKey | pkg/singleflight/singleflight.go:86-200 | among calls nobody has forgotten, at most one execution of fn per key is in progress |
| SingleflightRuns.OneRunPerKeyWithoutForget | pkg/singleflight/singleflight.go:86-200 | where nobody calls Forget, at most one execution of fn per key is in progress |
| SingleflightRuns.RunsOnce | pkg/singleflight/singleflight.go:139-200 | a call starts fn at most once, and has run it once by wg.Done |
| SingleflightRuns.JoinersGetTheResult | pkg/singleflight/singleflight.go:86-102 | a joiner past Wait, even one that came between wg.Done and the delete, is about to return the result of the call's one execution, and the call keeps that result |
| SingleflightRuns.LeaderSharedIffJoined | pkg/singleflight/singleflight.go:103-110 | the leader is about to return its execution's value and error, with shared true exactly when some caller joined |
| SingleflightRuns.DeleteRemovesOnlyItself | pkg/singleflight/singleflight.go:151-157 | a finishing call removes no map entry but its own, so a forgotten call never deletes its successor |
| SingleflightRuns.SendNeverBlocks | pkg/singleflight/singleflight.go:170-175 | a send under the mutex always finds room in the channel |
| SingleflightRuns.EachChannelGetsOneResult | pkg/singleflight/singleflight.go:116-175 | when a call that returned normally is closed, each of its channels has been sent exactly one message, with the execution's result and whether anybody joined |
| SingleflightRuns.NobodyForgets | pkg/singleflight/singleflight.go:205-212 | only Forget marks a call forgotten |
| SingleflightAnswers.DoReturns | pkg/singleflight/singleflight.go:86-110 | in every run, a finished Do met the call of its key in the map or put a new one there, the call has run fn once, and the caller's own return is how that ended: value and error, shared for a joiner and for the leader exactly if anybody has joined; or the panic; or the exit |
| SingleflightAnswers.DoChanReturns | pkg/singleflight/singleflight.go:116-136 | in every run, a finished DoChan returns a channel made in its critical section, listed in the call of its key that it met or made; a call it met counts as shared |
| SingleflightAnswers.ForgetForgets | pkg/singleflight/singleflight.go:205-212 | in every run, a finished Forget took its key and no other out of the map, and the call that was there is forgotten for ever |
| SingleflightAnswers.JoinsAreCounted | pkg/singleflight/singleflight.go:91-126 | the number that makes a result shared is the number of Do and DoChan calls that have met the call in the map |
| SingleflightAnswers.ResultIsOutcome | pkg/singleflight/singleflight.go:139-200 | when fn ends with an outcome, that is the call's result from wg.Done on |
| SingleflightAnswers.NoLostCall | pkg/singleflight/singleflight.go:139-200 | in every run, each call that is not closed has a goroutine that is still at it |
| SingleflightAnswers.NoDeadlock | pkg/singleflight/singleflight.go:86-212 | in every run without a crash, some goroutine can step as long as one has not finished |
| StrmTable.AddRow | drivers/strm_list/driver.go:296-317 | a row below a directory keeps ids, paths and unique directories, and adds exactly its file or directory |
| StrmTable.CachedIsDir | drivers/strm_list/driver.go:290-308 | the cache has a path exactly when a directory has it, and then maps it to that directory |
| StrmTable.JoinedInjective | drivers/strm_list/driver.go:285-289 | the cache key of a path determines the path |
| StrmTable.LineNamesGood | drivers/strm_list/driver.go:258-315 | the names that a line is split into are not empty and contain no slash |
| StrmLines.SkippedIff | drivers/strm_list/driver.go:258-268 | a line is skipped as malformed exactly when it has no number sign, or only spaces before its first one or after it |
| StrmLines.ReadSpaced | drivers/strm_list/driver.go:258-315 | spaces, slashes, path parts, slashes, a number sign, spaces, content and spaces are read as the names in the parts and the content |
| StrmLines.ReadPadded | drivers/strm_list/driver.go:258-315 | with any spaces around each name and around the content, and any slashes around the path, the line says the path and the content |
| StrmLines.NamesAppend | drivers/strm_list/driver.go:277-289 | the names of some parts are those of the first parts and then those of the others |
| StrmLines.NamesOne | drivers/strm_list/driver.go:277-283 | a part of spaces gives no name, any other its name without the spaces around it |
| StrmDriver.MakeDirs | drivers/strm_list/driver.go:277-309 | the inner loop finds or makes exactly the directories of the line, and ends at the last |
| StrmDriver.StrmList.ImportTxtTask | drivers/strm_list/driver.go:220-336 | nothing is imported unless everything up to the commit succeeds; then, if the inserts succeed, the table holds exactly the files of the accepted lines, in order, and the directories they need; imported and skipped lines add up |
| StrmDriver.ImportLine | drivers/strm_list/driver.go:257-322 | one line adds exactly its file and the directories it needs, or nothing if it is not accepted |
| StrmDriver.StrmList.List | drivers/strm_list/driver.go:111-161 | the listing of the node that the path may find, or the error |
| StrmDriver.StrmList.Link | drivers/strm_list/driver.go:178-192 | the padded content that the path finds, with the length of its UTF-8 form |
| StrmLookup.FindNodeByPath | drivers/strm_list/driver.go:195-217 | the root without padding for an empty path, otherwise the end of some walk through matching rows, padded |
| StrmLookup.ListChildren | drivers/strm_list/driver.go:129-154 | the loop gives the listing of the node |
| StrmLookup.ListingRows | drivers/strm_list/driver.go:120-154 | a listing shows each row below the node once, in order, with its name, kind and size, and no other row |
| StrmLookup.ListingByPath | drivers/strm_list/driver.go:120-154 | in an imported table, the listing of a directory corresponds one to one with the rows whose path is its path and one name more |
| StrmLookup.ListIff | drivers/strm_list/driver.go:111-161 | whatever rows the database returns, List of a directory's path shows exactly what lies below it, if and only if no line puts a file above the path, nor one at it while the directory is not empty |
| StrmLookup.RootFound | drivers/strm_list/driver.go:195-199 | a path of slashes only, or of nothing, finds the root without padding |
| StrmLookup.ByteLenIsEncoded | drivers/strm_list/driver.go:137-138 | the size counts the bytes of the UTF-8 form |
| StrmLookup.Utf8Value | drivers/strm_list/driver.go:183-183 | the UTF-8 form of a character tells its own length and gives the character back |
| StrmLookup.WalkEnds | drivers/strm_list/driver.go:200-211 | in an imported table a walk can end in any row with the path, and can fail exactly when there is none or a file stands on the way |
| StrmLookup.LookupReadsLine | drivers/strm_list/driver.go:195-217 | the walk along an accepted line's path reads the line's content whatever rows the database returns, if and only if no other line gives the path another content, makes it a directory or puts a file on the way |
| StrmLookup.LookupTextReadsLine | drivers/strm_list/driver.go:195-217 | then looking up the text of the path, with any slashes around it, gives the content and the padding |
| StrmLookup.FileOnTheWay | drivers/strm_list/driver.go:195-217 | two lines where the path of the second is neither repeated nor made a directory, and the walk along it can still fail |
| StrmLookup.FilesAreLines | drivers/strm_list/driver.go:310-322 | the files of an imported table are exactly those of the accepted lines |
| StrmLookup.ReadPrinted | drivers/strm_list/driver.go:258-276 | a line written as path, number sign and content is read as just that |
| StrmLookup.ListedSizeIsServed | drivers/strm_list/driver.go:120-192 | the size that List shows for a file is the number of bytes that Link serves for it |
| IfGrammar.ReadIsDenotes | server/webdav/if.go:28-120 | reading the tokens accepts exactly the headers of the grammar and finds their one meaning: lists never mixed with tagged groups, none empty |
| IfGrammar.ReadHeaderTokens | server/webdav/if.go:28-81 | every header of the grammar is read, with its meaning |
| IfGrammar.HeaderRead | server/webdav/if.go:28-81 | whatever is read is in the grammar |
| IfParser.Lex | server/webdav/if.go:133-173 | the scanning loops give the first token and the text after it |
| IfParser.ParseCondition | server/webdav/if.go:105-120 | reads one condition from the tokens, or none is there |
| IfParser.ParseList | server/webdav/if.go:83-103 | reads one list from the tokens, or none is there, and gets shorter |
| IfParser.ParseNoTagLists | server/webdav/if.go:40-52 | reads the untagged lists of a trimmed text |
| IfParser.ParseTaggedLists | server/webdav/if.go:54-81 | reads the tagged groups of a trimmed text |
| IfParser.ParseIfHeader | server/webdav/if.go:28-38 | ends, accepts exactly the grammar of section 10.4.2 of RFC 4918 as the code extends it, and returns the meaning |
| IfPrint.PrintThenParse | server/webdav/if.go:28-120 | parsing the printed form of any header with well-formed tokens gives the header back |
| IfPrint.ParsedIsPrintable | server/webdav/if.go:28-173 | every header that the parser returns has well-formed tokens, so parsing, printing and parsing again changes nothing |
| IfPrint.BlanksFirst | server/webdav/if.go:137-139 | blanks and tabs in front of a token make no difference |
| IfPrint.WordFirst | server/webdav/if.go:143-158 | a word goes up to the next blank, tab, parenthesis, angle or square bracket, and Not is the only special one |
| IfPrint.WordMeans | server/webdav/if.go:105-120 | a bare word is taken as a token |
| Ranges.ParseRange | pkg/http_range/range.go:35-107 | without overflow of int64: a header is found invalid exactly when it lacks the prefix or has a malformed part that does not begin after the end; no overlap is reported exactly when all specs lie beyond the end; otherwise there is one range for each other spec, in order, within the file, with exactly the bytes the spec selects |
| Ranges.ParseParts | pkg/http_range/range.go:43-106 | the loop gives the right reply to the parts |
| Ranges.ReadSpecRejects | pkg/http_range/range.go:50-99 | a part is rejected exactly when, with its blanks and signs taken off, it is no spec with int64 numbers, and its first position is not after the end of the file |
| RangeGrammar.RejectsInvalidIff | pkg/http_range/range.go:28-107 | ErrInvalid is given exactly to headers that are no byte-ranges-specifier of section 2.1 of RFC 7233, if and only if the header is neither a specifier with a capital unit or a number beyond int64, nor made of parts that are elements, or are so once signs and blanks are off, or begin after the end, with some part no element, none of them one, or a blank at an end |
| RangeGrammar.InvalidBeyond | pkg/http_range/range.go:75-84 | the invalid header bytes=5-x of a three-byte file is answered with ErrNoOverlap |
| RangeGrammar.WrittenIsByteRanges | pkg/http_range/range.go:35-107 | a header written spec by spec is a byte-ranges-specifier |
| RangeGrammar.InvalidSign | pkg/http_range/range.go:71-90 | the invalid header bytes=+1-2 of a three-byte file is answered with the bytes 1 to 2 |
| RangeGrammar.InvalidEmpty | pkg/http_range/range.go:46-49 | the invalid header bytes= is answered with no ranges |
| RangeGrammar.ValidTooBig | pkg/http_range/range.go:71-74 | a first position of 2^63 is in the grammar and found invalid |
| RangeGrammar.ValidCapital | pkg/http_range/range.go:40-42 | Bytes=0- is a byte-ranges-specifier and found invalid |
| Ranges.ParseOne | pkg/http_range/range.go:50-99 | the same for one part between commas |
| Ranges.NoOverlapIff | pkg/http_range/range.go:100-106 | ErrNoOverlap means that the specs cannot be satisfied in the sense of section 2.1 of RFC 7233, if and only if a suffix of no bytes is not among them or some spec can be |
| Ranges.EmptySuffix | pkg/http_range/range.go:54-69 | bytes=-0 cannot be satisfied, and is answered with an empty range |
| Ranges.UnionIsSelection | pkg/http_range/range.go:43-106 | the ranges together hold exactly the bytes that some spec selects |
| Ranges.WriteThenParse | pkg/http_range/range.go:35-107 | a written list of specs is never malformed and selects the bytes that its specs select |
| TypeInfo.InTheWay | server/webdav/internal/xml/typeinfo.go:280-305 | the comparison loop decides whether one XML path begins the other, under compatible mode and namespace |
| TypeInfo.ConflictIsShared | server/webdav/internal/xml/typeinfo.go:280-305 | two fields conflict exactly when both would take some XML item of one mode, namespace and path |
| TypeInfo.Info.Conflicts | server/webdav/internal/xml/typeinfo.go:276-306 | the indices collected are exactly those of the conflicting fields, in order |
| TypeInfo.Info.AddFieldInfo | server/webdav/internal/xml/typeinfo.go:275-340 | a shallower conflict ignores the new field, one at the same depth is an error and changes nothing, deeper ones give way and the others keep their order |
| TypeInfo.Info.Drop | server/webdav/internal/xml/typeinfo.go:331-337 | the in-place deletion loop removes exactly the conflicting fields |
| TypeInfo.AddsKeepsNoConflicts | server/webdav/internal/xml/typeinfo.go:275-340 | an addition keeps the fields pairwise free of conflicts |
| TypeInfo.BuiltNoConflicts | server/webdav/internal/xml/typeinfo.go:268-340 | any sequence of additions without error leaves no two fields in conflict |
| TypeInfo.MissingIsBeaten | server/webdav/internal/xml/typeinfo.go:268-340 | after any such sequence a field is missing only if a strictly shallower field in its way was offered |
| Mounts.FixIsFixed | pkg/utils/path.go:19-25 | FixAndCleanPath always gives a clean rooted path without backslashes |
| Mounts.FixedStays | pkg/utils/path.go:19-25 | and leaves such a path alone |
| Mounts.SubPathIsAbove | pkg/utils/path.go:41-44 | IsSubPath decides the prefix order on components |
| Mounts.LevelIsDepth | internal/op/storage.go:247-252 | the slash count is the depth plus one exactly when the actual mount path has no dot component at its end, and is more otherwise |
| Mounts.ActualForm | pkg/utils/balance.go:12-18 | an actual mount path is whole components followed by a part of one |
| Mounts.ActualIsBeforeBalance | pkg/utils/balance.go:12-18 | the last .balance and what follows it is cut off, and a path without one stays |
| Mounts.JoinIsAppend | pkg/utils/path.go:94-96 | joining a clean path to a mount appends its components |
| Mounts.CleanSteps | pkg/utils/path.go:19-25 | cleaning drops empty parts and dots, takes the last component off for two dots, never above the root, and keeps components |
| Mounts.JoinsBack | internal/op/path.go:14-29 | for every mount and every path below it: the path handed to the storage, joined to its mount, is the cleaned request path, if and only if the actual mount path is clean, or ends in a slash and is not the path itself, or ends in a dot component, is at the root and does not begin the path |
| Mounts.WholeSuffixLost | internal/op/path.go:26-27 | the storage at /a/.balance is asked for /a when the request path is /a |
| Storages.LongestMatchIff | internal/op/storage.go:241-268 | for every table of mounts: the storages with the most slashes are, for every path, those with the deepest component prefix, if and only if every two mounts one at or above the other have slash counts in the order of their depths |
| Storages.FineFinds | internal/op/storage.go:241-268 | where the slash counts are in order, the storages with the most slashes are those with the deepest component prefix |
| Storages.ChosenIsDeepest | internal/op/storage.go:241-268 | in particular so where no actual mount path ends in a dot component |
| Storages.ChosenShareMount | internal/op/storage.go:241-268 | all storages found for a path have one actual mount path |
| Storages.CrookedIsChosen | internal/op/storage.go:244-262 | beside /a/b, the mount /a/..balance is chosen for /a/b although it is not the longest match |
| Storages.CrookedIsWrong | internal/op/storage.go:244-262 | a mount whose actual path ends in a dot component is wrongly chosen beside any other mount one level below it |
| Storages.AnswerUnique | internal/op/storage.go:263-267 | the sorted answer does not depend on the order in which the map is walked |
| Storages.SortSorts | internal/op/storage.go:264-266 | the sort keeps the elements and puts them in order |
| Storages.StringLessIff | internal/op/storage.go:264-266 | one mount path is before another exactly where they first differ, or when it begins the other |
| StorageOps.Op.GetStoragesByPath | internal/op/storage.go:244-268 | for any iteration order: sorted by mount path, and exactly the storages that serve the path and have the most slashes |
| StorageOps.Op.GetBalancedStorage | internal/op/storage.go:307-323 | none, the only one, or the next in turn, advancing the counter of the actual mount path |
| StorageOps.Op.GetStorageAndActualPath | internal/op/path.go:14-29 | the storage whose turn it is among those with the longest match, with the counter moved on, and the path below it; or the right error when none serves the path |
| StorageOps.Op.GetStorageVirtualFilesByPath | internal/op/storage.go:273-302 | one folder for each name below the path, none twice, each from the first storage in order, and in the order of those storages, by Order and then mount path |
| StorageOps.UnderIsBelow | internal/op/storage.go:286-291 | for a clean actual mount path, the folder is the component that follows the path |
| StorageOps.ResolvedJoinsBack | internal/op/path.go:14-29 | the storage found is above the path, the exact condition of joining back holds for it, and it is the longest match where the slash counts are in order |
| StorageOps.NextInTurn | internal/op/storage.go:316-321 | while the list stays the same, successive calls move through it one by one |
| StorageOps.EachInTurn | internal/op/storage.go:316-321 | as many calls as there are storages use each of them |
| UrlForest.TopIsParent | drivers/url_tree/util.go:60-76 | after the pops the top of the stack is the last earlier folder whose level is below that of every later line, and the stack is again the open folders |
| UrlForest.StackLevels | drivers/url_tree/util.go:38-65 | the levels on the stack increase strictly, with the root at its foot |
| UrlForest.KidsAppend | drivers/url_tree/util.go:73-86 | a line becomes the last child of its parent and changes nobody else's children |
| UrlForest.KidsAreHeads | drivers/url_tree/util.go:36-90 | the children of a folder are the heads of the consecutive parts of the lines below it |
| UrlForest.FlattenThenForest | drivers/url_tree/util.go:36-90 | nesting the lines of a forest by level gives the forest back |
| UrlText.ReadWritten | drivers/url_tree/util.go:40-150 | a written line is read back: level, name, size, time and URL |
| UrlText.UrlFound | drivers/url_tree/util.go:98-108 | the URL is found where it was written, because no scheme occurs before it |
| UrlText.WriteThenRead | drivers/url_tree/util.go:36-150 | the lines of the two-space text of a tree are read, and nest by level into the tree |
| UrlLines.ReadFileIff | drivers/url_tree/util.go:98-150 | a file line is read exactly as what stands in it says: the URL, and before it nothing (then the name is the URL's last part), name:, name:size: or name:size:modified: |
| UrlLines.LineIs | drivers/url_tree/util.go:40-84 | a line with something in it is malformed where its number of blanks is odd, a folder where it ends in a colon, and a file otherwise, whatever spaces follow |
| UrlLines.BlankIs | drivers/url_tree/util.go:40-57 | a line of spaces is blank, or malformed |
| UrlLines.SpacesAfterLine | drivers/url_tree/util.go:53-57 | spaces after a line, as the carriage return before a line end, make no difference |
| UrlLines.ReadNameUrl | drivers/url_tree/util.go:98-118 | name:url gives the name, and the measured size or 0 |
| UrlLines.ReadNameSizeUrl | drivers/url_tree/util.go:98-125 | name:size:url gives the name and the size, whatever the HEAD request reports |
| UrlLines.ReadBareUrl | drivers/url_tree/util.go:135-148 | a bare URL is named by what follows its last slash, with the measured size or 0 |
| UrlLines.ReadLinesAppend | drivers/url_tree/util.go:36-89 | the lines of two texts are those of the first and those of the second |
| UrlLines.BlankLineVanishes | drivers/url_tree/util.go:54-57 | a blank line between others changes nothing |
| UrlTree.Attach | drivers/url_tree/util.go:67-87 | linking a new node below its parent keeps all nodes linked as the lines say |
| UrlTree.PopTo | drivers/url_tree/util.go:60-65 | the popping loop ends at the parent of the new line |
| UrlTree.ParseLine | drivers/url_tree/util.go:40-84 | the indentation loop and the parsing give what the line says |
| UrlTree.BuildLines | drivers/url_tree/util.go:40-89 | the loop: null exactly when a line is malformed; otherwise new linked nodes in which each line hangs below its parent, in order |
| UrlTree.BuildTree | drivers/url_tree/util.go:36-90 | null exactly when a line is malformed; otherwise the nodes linked below the root show the forest of the lines, and for the two-space text of a tree they show that tree |
| UrlTree.RootShows | drivers/url_tree/util.go:36-90 | nodes linked as the lines say show the forest into which the lines nest |
| UrlTree.CalSize | drivers/url_tree/types.go:36-46 | every folder below gets the int64 sum of the sizes of the files below it; files and other nodes keep theirs |
| UrlTree.GetByPath | drivers/url_tree/types.go:13-30 | the first node, in the order of the lines, that the names lead to, or there is none |
| UrlSums.WrapAdd | drivers/url_tree/types.go:40-43 | adding wrapped int64 sums is wrapping the sum |
| UrlSums.ReadFilesTold | drivers/url_tree/types.go:32-34 | after BuildTree exactly the files have a URL |
| UrlSums.ChildDecides | drivers/url_tree/types.go:23-28 | the first child with a match has the first match of its parent |
| Numbers.ParseFormat | pkg/http_range/range.go:65-90 | parsing a written int64 gives it back |
| Numbers.ParseIntIff | pkg/http_range/range.go:65-90 | ParseInt reads exactly the decimal forms of int64s, with a sign or without |
| Strings.SplitJoin | drivers/strm_list/driver.go:271-271 | splitting joined parts gives the parts back |
| Strings.TrimSpaceIs | drivers/strm_list/driver.go:258-258 | TrimSpace of spaces, a text without spaces at its ends, and spaces is the text |
| Strings.TrimSpaceKeeps | drivers/url_tree/util.go:53-53 | every text is what TrimSpace keeps of it with spaces around it |
| Strings.TrimIs | drivers/strm_list/driver.go:196-196 | Trim takes exactly the slashes around a text off |

## Left out

- Locks.MemLS.Create: the token counter `gen` is assumed not to wrap, because the code reuses tokens once it does.
- Locks.MemLS.Refresh: times are unbounded integers, so the saturation of `now.Add` is not modelled.
- Locks.MemLS.Confirm: conditions are matched by token only, as the code does; `IfConditions` says what that means for their truth.
- ConfirmLocks.ConfirmLocks: its two critical sections are taken one after the other; what other clients do in between is in LockRuns.UnlockRemovesOwn, which says that no lock of theirs is lost.
- ConfirmLocks.ReleaseUndoesConfirm: for a table that nobody changed in between; ReleaseLeavesOthers is for any table.
- ConfirmIf.ConfirmLocksIf: `url.Parse` is a parameter, and the branch for an error other than ErrConfirmationFailed is absent because `Confirm` returns no other.
- MapOfOrder.SequentialOrder: Go's atomics and mutex are taken as sequentially consistent; Range calls are not in the order, as RangeView says why.
- MapOfRuns.RangeView: Range is not one moment for all keys, as its comment says, and the early stop by the callback is not modelled.
- MapOfSequential.MapOf.RangeSnapshot: the callback loop of Range appears only in ToMap.
- MapOf's Count and Empty look at the dirty map only and are not the size of the map, so they have no member here.
- SingleflightRuns.EachChannelGetsOneResult: for calls that return normally; on panic or Goexit the code crashes or leaves receivers waiting.
- StrmDriver.StrmList.ImportTxtTask: the contents after a failed insert are not stated, since a failed directory insert makes the code put later rows elsewhere; a failing LastInsertId is not modelled.
- StrmLookup.FindNodeByPath: a query error other than a missing row is not modelled; the database is a sequence of rows.
- IfParser.ParseNoTagLists: for trimmed text, which is how parseIfHeader calls it; likewise ParseTaggedLists.
- IfParser.Lex: the header is a string of characters, not of bytes.
- Ranges.ParseRange: for sizes that are not negative.
- TypeInfo.Info.AddFieldInfo: the error is some field at the same depth rather than the first, and the list is a sequence, so sharing of Go's backing array is not modelled.
- StorageOps.Op.GetStoragesByPath: Go's sort is the insertion sort of Storages; any correct sort gives the same list.
- UrlTree.BuildTree: the HTTP HEAD request for a size is a parameter.
- UrlTree.CalSize: for file sizes within int64, which is their type in Go.
- UrlText.WriteThenRead: for names and URLs that can be written at all: no newline, no colon in a file name, no space in front of a name, and a URL that starts with http:// or with https:// without http:// inside and does not end in a colon or a space.
- The cloud drivers, the HTTP handlers other than the lock confirmation, the storage life cycle with its database, the listing cache, the message queue and the scheduler are not part of this model.
