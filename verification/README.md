# MAGPIE: a verified model of its state machines and tree passes

MAGPIE keeps one shared content tree in step with Steam and runs Arma 3 servers from snapshots
of it. This project models the parts of it that are hard to get right and proves what they are
for. `dafny verify dfyconfig.toml` checks everything.

| component | files | main results |
|---|---|---|
| Workshop resolution | `workshop.dfy`, `display.dfy`, `resolve.dfy` | the breadth-first fetch and the depth-first flatten agree; the flatten equals naive expansion on every graph, cyclic ones included |
| Case-fold repair | `casefold.dfy`, `repair.dfy`, `onepass.dfy`, `finalize.dfy`, `totals.dfy` | which paths a prune keeps; fold is a bijection; when one pass is enough, and that repeated ones converge; the flat finishing walk builds the folded tree |
| Sync lock and marker | `synclock.dfy` | exactly when the lock excludes, and when a marker tells the truth |
| Connection pool | `pool.dfy`, `leases.dfy` | slots and permits are conserved; a permit guarantees a connection; a bad one is never handed out again |
| Accounts and scopes | `registry.dfy`, `linking.dfy` | same user if and only if connected by link requests; scopes only grow |
| Server lifecycle | `ports.dfy`, `headless.dfy`, `reconcile.dfy`, `decimal.dfy` | running servers never share a port; Stopped means down; smooth runs converge |
| Presets | `preset.dfy`, `presetpage.dfy`, `export.dfy`, `readback.dfy` | what parsing a printed preset finds, exactly; a printed preset can be read back |
| Collections | `publish.dfy` | what a publish leaves behind on success and on every failure; the published link resolves to what was returned |

Protocols are step machines: one step is one atomic statement, call or clock tick, in any
interleaving, and the theorems quantify over every run. State that the program updates in place
is a class or a loop over a variable holding a map or sequence, tied by its `ensures` to a
function whose properties the lemmas state. Calls into Steam, Kubernetes and the databases may
fail at any point; which of them do is left open.

Where the code and its comments or the obvious claim part ways, the code is modelled:

- Prune loses a mixed-case file that sits beside a directory with its lowercase name, because
  the file arm of `prune_dir` does not compare kinds. `CaseFold.ShadowedFileIsLost` is the
  input; `CaseFold.PruneKeepsUnshadowed` says exactly which paths survive.
- Prune-then-fold is not idempotent. `OnePass.OnePassSufficesIff` says for exactly which trees
  one pass is enough, `OnePass.OnePassMayNotSuffice` gives a family for which it is not, and
  `Repair.RepairConverges` says that repeating it gets there.
- The lock is released by key, whoever holds the row. `SyncLock.ExclusiveIff` gives the exact
  condition for mutual exclusion, and `SyncLock.LateHolderIsRobbed` a run without it.
- A sync that is given up leaves the old marker standing. `SyncLock.MarkerIsSoundIff` and
  `SyncLock.MarkerHoldsIff` say exactly when a marker tells the truth, and
  `SyncLock.TornTreeIsTrusted` gives a run in which it does not.
- A server can be recorded Running with its Deployment at zero replicas and stay so:
  `Reconcile.RunningIsUpIff` says exactly when, `Reconcile.StuckIsReachable` and
  `Reconcile.WoundedIsStuck` that it happens.
- An update's reset of the phase can be lost to the pass under way: `Reconcile.RependingIsLost`;
  `Reconcile.RependingSurvivesIff` says exactly when.
- A failed edit of a collection keeps its title, description and visibility but can leave its
  membership replaced: `Publish.FailedEditReplacesMembership`;
  `Publish.FailedEditChangesNothingIff` says exactly when it changes nothing.
- Parsing a printed preset doubles each id if and only if the name and titles hold no link of
  their own: `Export.RenderedParsesToItsIdsIff`, with `Export.LinkInNameIsParsed` for an input.

## Model

| member | source | states |
|---|---|---|
| Display.OrderedChildrenInDisplayOrder | crates/steam-sync/src/steam.rs:2196-2205 | said of the members themselves: those with an id come out exactly once each, by sortorder, those without one as if they had the largest u32, and in response order on ties |
| Workshop.OrderedChildrenIsStable | crates/steam-sync/src/steam.rs:2196-2205 | members come out sorted by their key, and for each key, absent ones counting as the largest, in exactly the order they were listed |
| Workshop.StableSortIsUnique | crates/steam-sync/src/steam.rs:2196-2205 | those two facts determine the list: any other stable sort gives the same one |
| Workshop.WalkFrom | crates/steam-sync/src/steam.rs:2222-2246 | the walk terminates on every graph, cyclic ones included, and only ever adds to the seen set |
| Resolve.WalkLeavesAreNew | crates/steam-sync/src/steam.rs:2222-2246 | it reports no leaf that was seen before, and has seen every leaf it reports |
| Workshop.WalkMatchesExpansion | crates/steam-sync/src/steam.rs:2217-2260 | on every graph, cyclic ones included, the walk with a seen set lists exactly the first occurrences of the naive left-to-right expansion that only refuses to re-enter a collection it is inside |
| Workshop.AcyclicWalkIsFullExpansion | crates/steam-sync/src/steam.rs:2217-2260 | on every graph in which no chain leads from a collection back to itself, the walk lists the first occurrences of the full expansion, with no cycle test at all |
| Workshop.AcyclicHasRank | crates/steam-sync/src/steam.rs:2217-2260 | the collections of such a graph can be ranked, which is what makes the full expansion finite |
| Workshop.RankedIsAcyclic | crates/steam-sync/src/steam.rs:2217-2260 | and only those of such a graph can |
| Workshop.WalkVisitsReachable | crates/steam-sync/src/steam.rs:2217-2260 | on every graph the walk sees exactly the ids that some chain of memberships reaches |
| Workshop.ReachIffChain | crates/steam-sync/src/steam.rs:2090-2180 | being within a depth is the same as having a chain of at most that many collection-to-member links |
| Workshop.FirstNew | crates/steam-sync/src/collection.rs:422-429 | keeps exactly the elements not known yet, each once |
| Resolve.Flattening.Walk | crates/steam-sync/src/steam.rs:2222-2246 | the recursive walk over its mutable seen, out, unresolved and mods leaves them as the functional walk says: mods removed as they are reported, every other leaf unresolved |
| Resolve.FlattenInOrder | crates/steam-sync/src/steam.rs:2217-2260 | the returned mods and unresolved ids are the split of the expansion's first occurrences into known mods and the rest, in order |
| Resolve.GetDetails | crates/steam-sync/src/steam.rs:2100-2130 | answers exactly when the call gets through; then for every answered id asked for, with what the catalogue holds, and nothing about ids not asked for |
| Resolve.PushNew | crates/steam-sync/src/steam.rs:2159-2168 | the next frontier gains exactly the members not answered yet |
| Resolve.ReadRow | crates/steam-sync/src/steam.rs:2133-2178 | one response row records one id and keeps the round's frontier right |
| Resolve.ReadRound | crates/steam-sync/src/steam.rs:2132-2179 | a round leaves recorded exactly what asking about the frontier has to record, whatever the order and repetition of rows, and nothing reachable in one more link is missed |
| Resolve.RecordGathers | crates/steam-sync/src/steam.rs:2133-2178 | the record kept so far depends only on the set of ids asked about |
| Resolve.RoundAdvances | crates/steam-sync/src/steam.rs:2090-2180 | the ids asked about so far together with the new frontier are exactly those within one more link |
| Resolve.WalkVisitsReach | crates/steam-sync/src/steam.rs:2026-2260 | walking the fetched collections sees exactly the ids within the depth limit, so the two traversals agree |
| Resolve.LeavesOfFetched | crates/steam-sync/src/steam.rs:2026-2260 | the flatten's leaves are exactly what was reached and not expanded |
| Resolve.ResolveSourceIds | crates/steam-sync/src/steam.rs:2026-2189 | for every catalogue, cyclic ones included: `mods` is exactly the answered non-collections fewer than MAX_COLLECTION_DEPTH links from a candidate, each once; `unresolved` exactly the other ids met and not expanded, each once; both in expansion order, nothing lost; candidate titles and kinds as Steam answered |
| Resolve.ModsByChain | crates/steam-sync/src/steam.rs:2026-2189 | a mod Steam answers for is returned if and only if it has a chain of at most seven collection-to-member links from a candidate |
| CaseFold.PruneIntoSeesLowerPart | crates/steam-sync/src/lowercase.rs:226-268 | a twin matters only through its all-lowercase part |
| CaseFold.PruneKeepsLowerPart | crates/steam-sync/src/lowercase.rs:147-217 | a prune leaves the all-lowercase part alone, so sibling order cannot matter |
| CaseFold.PruneKeepsUnshadowed | crates/steam-sync/src/lowercase.rs:139-268 | a folded file path survives a prune if and only if an unshadowed file had it |
| CaseFold.PruneLosesNothingIff | crates/steam-sync/src/lowercase.rs:139-268 | a prune adds no path, and loses none exactly when every file path also has an unshadowed file |
| CaseFold.PruneLosesNothing | crates/steam-sync/src/lowercase.rs:139-268 | with no mixed-case file beside a directory bearing its lowercase name, the set of folded file paths is unchanged |
| CaseFold.ShadowedFileIsLost | crates/steam-sync/src/lowercase.rs:205-214 | a concrete tree whose only copy of a path is lost |
| CaseFold.PruneIsPruned | crates/steam-sync/src/lowercase.rs:139-268 | after a prune no mixed-case entry is accounted for by its twin, at any level |
| CaseFold.PrunedIsFixed | crates/steam-sync/src/lowercase.rs:139-268 | such a tree is left alone by a prune |
| CaseFold.PruneIsIdempotent | crates/steam-sync/src/lowercase.rs:139-268 | pruning twice is pruning once |
| CaseFold.PruneIsFewer | crates/steam-sync/src/lowercase.rs:139-268 | a prune only removes entries |
| CaseFold.FoldKeepsEntry | crates/steam-sync/src/lowercase.rs:65-121 | every entry is found again after a fold, under the same lowercased path and with the same contents |
| CaseFold.FoldMergesNothing | crates/steam-sync/src/lowercase.rs:65-121 | no two entries end up in one place |
| CaseFold.FoldAddsNothing | crates/steam-sync/src/lowercase.rs:65-121 | nothing else is there: with the two above, the multiset of lowercased path and contents is kept |
| CaseFold.FoldIsFolded | crates/steam-sync/src/lowercase.rs:65-121 | the only mixed-case names left are those whose lowercase form is taken |
| CaseFold.FoldedIsFixed | crates/steam-sync/src/lowercase.rs:65-121 | such a tree is left alone by a fold |
| CaseFold.FoldIsIdempotent | crates/steam-sync/src/lowercase.rs:65-121 | folding twice is folding once |
| CaseFold.CoveredTreeIsRepaired | crates/steam-sync/src/lowercase.rs:56-268 | if every entry has one of its kind at its lowercased path, one pass leaves exactly the all-lowercase part |
| CaseFold.ClashFreeTreeIsRepaired | crates/steam-sync/src/lowercase.rs:56-268 | if no two siblings fold to one name, nothing is pruned and every name is lowercased |
| OnePass.CoveredNeedsOnePass | crates/steam-sync/src/steam.rs:1919-1933 | a tree of the first class is done after one pass, which leaves no mixed-case name and so reports no collision |
| OnePass.ClashFreeNeedsOnePass | crates/steam-sync/src/steam.rs:1919-1933 | a tree of the second class is done after one pass |
| Repair.ListDir | crates/steam-sync/src/lowercase.rs:272-279 | a listing holds every name once, spellings of one name in order |
| Repair.BytesAreThoseOfFiles | crates/steam-sync/src/steam.rs:1942-2003 | the byte tally is the length of every file's content, entry by entry |
| Repair.FewerCounts | crates/steam-sync/src/lowercase.rs:139-268 | removing entries lowers the entry and mixed-case counts, and an equal entry count means nothing went |
| Repair.FoldCounts | crates/steam-sync/src/lowercase.rs:65-121 | a fold keeps the number of entries and of bytes and lowers the mixed-case names by exactly its renames |
| Repair.NoRenamesIsFixed | crates/steam-sync/src/lowercase.rs:65-121 | a fold that renames nothing changes nothing |
| Repair.PruneEntryIntoTwin | crates/steam-sync/src/lowercase.rs:232-265 | one entry leaves what its counterpart does not account for, and counts what went |
| Repair.PruneIntoTwin | crates/steam-sync/src/lowercase.rs:226-268 | the loop leaves the order-free result and its count is exactly the entries removed |
| Repair.PruneEntry | crates/steam-sync/src/lowercase.rs:148-215 | one entry of the directory loop, contents first, against whatever lowercase sibling is there |
| Repair.PruneTree | crates/steam-sync/src/lowercase.rs:139-217 | the loop leaves the order-free result and its count is exactly the entries removed |
| Repair.TakenIffNotWinner | crates/steam-sync/src/lowercase.rs:84-108 | when a mixed-case entry's turn comes, its lowercase name is taken exactly if it is not the one that is to get it |
| Repair.FoldName | crates/steam-sync/src/lowercase.rs:79-118 | one name is kept, blocked or moved, which takes the directory one step on |
| Repair.FoldEntry | crates/steam-sync/src/lowercase.rs:66-118 | one entry, contents first, takes directory and tallies one step on |
| Repair.FoldDir | crates/steam-sync/src/lowercase.rs:65-121 | the loop ends with the folded directory; renamed plus collisions are the mixed-case names there were |
| Repair.FoldTree | crates/steam-sync/src/lowercase.rs:56-121 | the loops build the folded tree, report exactly its renames, and collisions equal the mixed-case names left |
| Repair.RepairFoldedTree | crates/steam-sync/src/steam.rs:1919-1933 | a pass that reports nothing changed nothing; any other lowers entries plus mixed-case names by at least what it reports |
| Repair.RepairLowersDisorder | crates/steam-sync/src/steam.rs:1919-1933 | a pass never raises that measure, and an unchanged measure means an unchanged tree |
| Repair.SettledTreeIff | crates/steam-sync/src/steam.rs:1919-1933 | a pass changes nothing if and only if the tree is pruned and folded |
| Repair.RepairConverges | crates/steam-sync/src/steam.rs:1919-1933 | repeated passes reach a tree no pass changes, within as many passes as the measure |
| OnePass.ReducedOfFold | crates/steam-sync/src/lowercase.rs:56-268 | after folding, a twin accounts for nothing of a directory if and only if before it no entry met the winner of its own folded name there, unless of the other kind or in turn sharing nothing |
| OnePass.PrunedOfFold | crates/steam-sync/src/lowercase.rs:56-268 | a folded tree has nothing left to prune if and only if every entry that lost its folded name is a non-empty directory sharing nothing with the winner |
| OnePass.OnePassSufficesIff | crates/steam-sync/src/steam.rs:1919-1933 | a second pass changes nothing if and only if what the first prune leaves has that property |
| OnePass.OnePassMayNotSuffice | crates/steam-sync/src/steam.rs:1919-1933 | a second pass is needed for every tree in which the prune leaves, at any depth and whatever else is there, two spellings of a name without its lowercase form, the later one a file |
| OnePass.TwoSpellingsAreKept | crates/steam-sync/src/steam.rs:1919-1933 | in particular for every tree with two such spellings at the top |
| Finalize.Walk | crates/steam-sync/src/steam.rs:1950-1955 | a contents-first walk lists everything below the root, siblings in listing order |
| Finalize.RunUnder | crates/steam-sync/src/steam.rs:1950-2001 | visits below one entry change that entry and nothing else |
| Finalize.WalkFolds | crates/steam-sync/src/steam.rs:1942-2003 | every contents-first walk finds each listed path still in place, leaves exactly what the recursive fold leaves, and counts every byte once |
| Finalize.RunAll | crates/steam-sync/src/steam.rs:1950-2003 | the loop over the walk computes the run of its visits |
| Finalize.FinalizeSyncedTree | crates/steam-sync/src/steam.rs:1942-2003 | the flat walk always succeeds, builds the tree `lowercase_tree` builds, and returns the total of file bytes |
| SyncLock.SyncState.TryAcquire | crates/steam-sync/src/cache.rs:781-841 | acquired exactly when there is no row or the row is more than 1800 seconds old; then the row is the caller's |
| SyncLock.SyncState.Release | crates/steam-sync/src/cache.rs:844-854 | deletes the row for the key, whoever holds it |
| SyncLock.SyncState.CheckSynced | crates/steam-sync/src/cache.rs:488-509 | true exactly when the directory exists and the marker is at the manifest asked for |
| SyncLock.SyncState.MarkSynced | crates/steam-sync/src/cache.rs:761-776 | stores the marker for the key and touches no other |
| SyncLock.SyncState.Invalidate | crates/steam-sync/src/cache.rs:560-570 | drops the marker for the key and touches no other |
| SyncLock.LockInvStep | crates/steam-sync/src/cache.rs:781-921 | every step but the theft of a live guard's row keeps each guard backed by its own row |
| SyncLock.ExclusiveIff | crates/steam-sync/src/cache.rs:781-921 | in every run at most one guard exists per key throughout, if and only if no step steals the row of a guard that still exists |
| SyncLock.TimelyRunIsExclusive | crates/steam-sync/src/cache.rs:781-921 | if every guard's release runs within STALE_LOCK_SECS of its recorded time, at most one guard exists per key |
| SyncLock.ReleaseDeletesOwnRow | crates/steam-sync/src/cache.rs:844-921 | then a release deletes the releasing worker's own row and no other |
| SyncLock.MarkerInvStep | crates/steam-sync/src/steam.rs:1716-1881 | every step of every worker keeps the marker invariant |
| SyncLock.AbortedIff | crates/steam-sync/src/steam.rs:1716-1881 | the keys the model records as aborted are exactly those given up on since their last stored marker |
| SyncLock.MarkerIsSound | crates/steam-sync/src/steam.rs:1716-1881 | in every timely run, with nobody between starting to write and marking and no write given up since the last marker, a marker at m over a tree that is there means the tree is at m |
| SyncLock.MarkerIsSoundIff | crates/steam-sync/src/steam.rs:1716-1881 | where no tree is wiped and every marker read gets through, such a marker tells the truth if and only if no write that touched the tree was given up since it was stored |
| SyncLock.MarkerHoldsIff | crates/steam-sync/src/steam.rs:1716-1881 | in every timely run, wipes and failed marker reads included, it does if and only if the last write of the key to end, or wipe of it, did not leave the tree torn or at another manifest |
| SyncLock.SuccessIff | crates/steam-sync/src/steam.rs:1716-1881 | a successful call returns with the tree at its own plan's manifest if and only if it wrote the tree itself or the last write to end did not spoil it |
| SyncLock.SuccessMeansOnDisk | crates/steam-sync/src/steam.rs:1716-1881 | every successful call returns with the tree at its own plan's manifest, whether it wrote or trusted another process |
| SyncLock.MarkerAtIff | crates/steam-sync/src/cache.rs:560-776 | in every run the marker of a key is at m if and only if the last marker stored for it was of a worker planning m and has not been invalidated since |
| SyncLock.SyncPath | crates/steam-sync/src/steam.rs:1716-1881 | one whole sync of a free key ends with lock free, tree and marker at its plan, and nothing else touched |
| SyncLock.SecondWorkerTrusts | crates/steam-sync/src/steam.rs:1716-1735 | after it a second worker with the same plan trusts the marker, and the tree is at its plan |
| SyncLock.NoRowIsForgotten | crates/steam-sync/src/cache.rs:844-921 | in every run a lock row is there only for a worker that still has its guard, has crashed, or whose release did not get through |
| SyncLock.ReturnOwesRelease | crates/steam-sync/src/steam.rs:1716-1881 | whoever returns, well or badly, still has its guard, owes its release and can run it |
| SyncLock.GuardEndsOnlyBy | crates/steam-sync/src/cache.rs:844-921 | a guard ends only with its release or with its process |
| SyncLock.ReleaseFreesItsKey | crates/steam-sync/src/cache.rs:844-854 | a release that gets through frees its key and no other; one that does not leaves the row |
| SyncLock.ReleaseFollowsReturn | crates/steam-sync/src/cache.rs:893-921 | in every run a lock is released only by a worker whose call has returned |
| SyncLock.FreshRowIsNotStolen | crates/steam-sync/src/cache.rs:781-841 | a row within the limit is left alone, and the worker that found it goes back to waiting |
| SyncLock.WorldIsOpen | crates/steam-sync/src/steam.rs:1716-1881 | reads, syncs and workers may fail at each point the code allows |
| SyncLock.StaleKeyIsAcquirable | crates/steam-sync/src/cache.rs:781-841 | once a row is over the limit, any waiting worker gets the key in three steps, whatever became of the holder |
| SyncLock.CrashedKeyIsAcquirable | crates/steam-sync/src/cache.rs:781-841 | a holder that crashes at any point keeps its row, and once the limit has passed another worker gets the key |
| SyncLock.FailedFinalizeKeepsMarker | crates/steam-sync/src/steam.rs:1860-1881 | a sync that fails at its very end leaves the new tree under the old marker |
| SyncLock.LateHolderIsRobbed | crates/steam-sync/src/cache.rs:781-854 | from any state with the key free there is a run past the limit that ends with two guards |
| SyncLock.TornTreeIsTrusted | crates/steam-sync/src/steam.rs:1716-1881 | from any marked tree there is a run in which a given-up write leaves a torn tree that the old marker vouches for |
| Pool.SlotsAreConserved | crates/steam-sync/src/steam.rs:344-526 | no step loses a slot or duplicates one |
| Pool.InvStep | crates/steam-sync/src/steam.rs:344-526 | every step keeps the pool invariant, and the pop that `acquire` calls infallible is |
| Pool.PermitImpliesIdle | crates/steam-sync/src/steam.rs:425-446 | in every interleaving each slot is in exactly one of idle, checked out, reconnecting or dead, and a permit in hand means the idle list is not empty |
| Pool.PermitsAreConserved | crates/steam-sync/src/steam.rs:383-446 | every permit is accounted for; only those of dead slots are ever lost |
| Pool.FlagsTellTheTruth | crates/steam-sync/src/steam.rs:344-412 | the flag of every idle or checked-out slot matches its connection |
| Leases.BadStaysOut | crates/steam-sync/src/steam.rs:482-526 | in every interleaving a connection marked bad is in no idle entry, and leased only as bad, until its slot has logged in anew |
| Leases.OnlyMarkedIsDiscarded | crates/steam-sync/src/steam.rs:482-526 | in every interleaving only a lease somebody marked bad is discarded |
| Leases.DeadSlotsAreNotCounted | crates/steam-sync/src/steam.rs:370-412 | the flag of a slot whose re-login failed for good is off |
| Leases.FlagMeansConnection | crates/steam-sync/src/steam.rs:370-412 | a flag that is on belongs to a live authenticated connection or to one being replaced |
| Leases.LeaseRoundTrip | crates/steam-sync/src/steam.rs:425-526 | acquiring a connection and returning it leaves the pool exactly as it was |
| Leases.BadLeaseIsReplaced | crates/steam-sync/src/steam.rs:383-526 | a lease marked bad cannot go back; discarding and replacing it puts the slot back with the new connection and its flag, and nothing else changes |
| Pool.CmPool.constructor | crates/steam-sync/src/steam.rs:266-361 | a started pool has every slot idle and every permit available |
| Pool.CmPool.AnyAuthenticated | crates/steam-sync/src/steam.rs:370-372 | true exactly when some slot's flag is set |
| Pool.CmPool.TakePermit | crates/steam-sync/src/steam.rs:425-432 | takes one permit and is the machine's step |
| Pool.CmPool.PopIdle | crates/steam-sync/src/steam.rs:433-446 | cannot fail with a permit in hand; hands out the last idle connection |
| Pool.CmPool.MarkBad | crates/steam-sync/src/steam.rs:482-484 | the lease, and nothing else, becomes bad |
| Pool.CmPool.Discard | crates/steam-sync/src/steam.rs:501-519 | a bad lease brings back neither connection nor permit; its slot is reconnecting |
| Pool.CmPool.PushIdle | crates/steam-sync/src/steam.rs:501-526 | a healthy connection goes back before its permit |
| Pool.CmPool.DropPermit | crates/steam-sync/src/steam.rs:501-526 | the permit comes back after its connection |
| Pool.CmPool.LoginSucceeds | crates/steam-sync/src/steam.rs:383-400 | the flag is stored before the connection is pushed |
| Pool.CmPool.PushReady | crates/steam-sync/src/steam.rs:394-400 | the new connection becomes idle before its permit comes back |
| Pool.CmPool.LoginFails | crates/steam-sync/src/steam.rs:401-412 | the permit is forgotten with the slot |
| Registry.RegistryDb.LogIn | services/identity/src/handlers.rs:268-280 | find-then-create: a known account keeps its user and nothing changes; an unknown one gets the drawn user unless that exists; the account then belongs to the user returned |
| Registry.RegistryDb.CreateUserAndLink | crates/registry-db/src/lib.rs:408-449 | commits exactly when both keys are unused, gives the first user ever every scope, and otherwise rolls back |
| Registry.RegistryDb.LinkAccountToUser | crates/registry-db/src/lib.rs:514-597 | commits exactly for a user that exists; statement by statement it computes attach-or-merge, keeps the foreign keys, and on a violation leaves everything as it was |
| Linking.LoginRegisters | crates/registry-db/src/lib.rs:408-449 | a login registers exactly an unknown account under an unused UUID and changes nothing otherwise |
| Linking.LinkRequestJoins | crates/registry-db/src/lib.rs:514-597 | a committed request joins the account to the one it came through by one edge, records its display name and leaves all other names alone |
| Linking.GrantReplacesScopes | crates/registry-db/src/lib.rs:308-329 | an explicit grant replaces the subject's scopes and nobody else's |
| Linking.LinkKeepsTokens | crates/registry-db/src/lib.rs:560-570 | linking takes away the tokens of the user it merges away and no others |
| Linking.TokenLivesIff | crates/registry-db/src/lib.rs:453-597 | in every run a token belongs to a user if and only if it was issued to that user and no committed request has merged the user away since |
| Linking.InvStep | crates/registry-db/src/lib.rs:308-597 | every transaction keeps foreign keys, an account for every user, and the correspondence between users and connected accounts |
| Linking.SameUserIffConnected | crates/registry-db/src/lib.rs:408-597 | after any run two accounts belong to one user if and only if committed link requests connect them; every account has a user and every user an account |
| Linking.CommittedRequestHasVia | services/identity/src/handlers.rs:258-283 | every request that commits comes through some account of its user, to which it adds one edge |
| Linking.MergeUnionsScopes | crates/registry-db/src/lib.rs:530-574 | a merge gives both users' accounts exactly the union of their scopes and leaves all others' alone |
| Linking.ScopesGrowStep | services/identity/src/handlers.rs:258-283 | no login, link or token shrinks what an account may do |
| Linking.ScopesNeverShrink | crates/registry-db/src/lib.rs:408-597 | over any continuation of a run by logins, links and tokens, no account loses a scope |
| Linking.BootstrapHappensOnce | crates/registry-db/src/lib.rs:408-449 | the automatic grant of every scope is made once per run, and the users table is never empty again |
| Linking.ScopesFollowLinks | crates/registry-db/src/lib.rs:408-597 | without explicit grants an account holds every scope exactly when link requests connect it to the first account that logged in, and none otherwise |
| Decimal.DecimalRoundTrip | crates/workshop-parse/src/lib.rs:48-60 | reading back a printed number gives the number |
| Ports.BindsFivePorts | crates/crd/src/lib.rs:91-93 | a server binds its base port and the four above it, as far as there are any |
| Ports.OverlapIffShared | crates/crd/src/lib.rs:91-99 | comparing end points decides whether two ranges share a port, for all u16 bases, clipped ranges included |
| Ports.RefusedIff | services/gateway/src/service.rs:130-160 | a port is refused exactly when another server that means to run shares a port with it |
| Ports.AdmittedIsDisjoint | services/gateway/src/service.rs:130-160 | a server that passed the conflict check keeps all running ranges apart |
| Ports.HandleKeepsDisjoint | services/gateway/src/service.rs:279-614 | every call keeps all running ranges apart |
| Ports.CallTouchesOnlyItsServer | services/gateway/src/service.rs:279-614 | no call touches another server than the one it names |
| Ports.CallTakesEffect | services/gateway/src/service.rs:279-614 | what becomes of the server a call names, for every call, refused or not |
| Ports.RunningServersNeverShareAPort | services/gateway/src/service.rs:279-614 | in every run of calls, any two servers meant to run have disjoint port ranges |
| Ports.Gateway.CheckPortConflict | services/gateway/src/service.rs:130-160 | the loop passes exactly when no other running server's range overlaps |
| Ports.Gateway.ValidateName | services/gateway/src/service.rs:175-195 | accepts exactly 1 to 63 lowercase letters, digits and dashes that neither begin nor end with a dash |
| Ports.Gateway.CreateServer | services/gateway/src/service.rs:279-355 | stores a running server under its truncated port exactly when name and port are acceptable and the write goes through |
| Ports.Gateway.StartServer | services/gateway/src/service.rs:571-595 | the desired state is written before the resync, so a resync that fails leaves it written |
| Ports.Gateway.StopServer | services/gateway/src/service.rs:597-614 | only the desired state of the named server changes |
| Headless.ClientNameIsInjective | services/controller/src/reconcile.rs:398-424 | no two pairs of server and index share an object name |
| Headless.NameIsOwn | services/controller/src/reconcile.rs:398-424 | a name of this server's scheme is never another server's object |
| Headless.DeleteAllHeadlessClients | services/controller/src/reconcile.rs:431-442 | succeeds exactly when every call gets through, and then leaves the server no client; other servers' clients are untouched even on failure |
| Headless.DeleteExcess | services/controller/src/reconcile.rs:381-396 | succeeds exactly when every deletion gets through; removes only this server's clients from index `desired` up, all of them on success |
| Headless.CreateMissing | services/controller/src/reconcile.rs:398-429 | succeeds exactly when every creation gets through; creates only missing indices below `desired`, all of them on success |
| Headless.EnsureHeadlessClients | services/controller/src/reconcile.rs:381-429 | succeeds exactly when every call gets through, and then leaves exactly indices 0 to desired - 1; other servers' clients are untouched whatever fails |
| Reconcile.NewObjectIsCreated | services/controller/src/reconcile.rs:140-143 | a run starts from an object without status that may ask for either state and any number of clients |
| Reconcile.InvHolds | services/controller/src/reconcile.rs:140-356 | the lifecycle invariant holds at every point of every interleaving |
| Reconcile.StoppedMeansDown | services/controller/src/reconcile.rs:140-356 | on every interleaving, phase Stopped means the Deployment is absent or at zero and no headless client exists |
| Reconcile.WoundedIff | services/controller/src/reconcile.rs:168-184 | the flag the model keeps is set exactly when a stop broke off after scaling down and nothing was deployed or recorded as stopped since |
| Reconcile.RunningIsUpIff | services/controller/src/reconcile.rs:168-269 | between passes, phase Running means one replica if and only if the run's steps hold no such broken-off stop |
| Reconcile.SmoothStepsApproach | services/controller/src/reconcile.rs:140-356 | with open gates and no failure every step brings a state that does not match one step closer to the matching one |
| Reconcile.SmoothStepsStay | services/controller/src/reconcile.rs:140-356 | a pass over a matching state changes nothing |
| Reconcile.SmoothStepExists | services/controller/src/reconcile.rs:140-356 | a pass can always go on |
| Reconcile.SmoothRunConverges | services/controller/src/reconcile.rs:140-356 | from any reachable state every smooth run at least as long as the distance still to go ends with the phase the desired state asks for, and the invariant |
| Reconcile.SmoothStartServes | services/controller/src/reconcile.rs:140-356 | a start from rest in any phase but Running ends with one replica and exactly the headless clients the spec asks for |
| Reconcile.GatewayWritesAnyTime | services/gateway/src/service.rs:65-89 | the gateway's writes land at any point of a pass and touch one field each |
| Reconcile.StopTakesEffect | services/gateway/src/service.rs:597-614 | a stop of any rested server, once settled, has taken it down with all its clients |
| Reconcile.StartTakesEffect | services/gateway/src/service.rs:571-595 | a start of a stopped server, once settled, has it up with exactly its clients |
| Reconcile.UpdateTakesEffect | services/gateway/src/service.rs:406-476 | an edit of the client count and an update of a running server, once settled, have it deployed again with exactly the new number |
| Reconcile.UpdateDoesNotStart | services/gateway/src/service.rs:65-89 | an update of a server that is not to run deploys nothing and leaves it stopped |
| Reconcile.PassFollowsItsRead | services/controller/src/reconcile.rs:140-288 | in every run a pass under way is called for by the object and the sync gates as they were when it began |
| Reconcile.DeployNeedsOpenGates | services/controller/src/reconcile.rs:194-240 | in every run nothing is deployed unless its pass began with the gates open, on a Pending server that is to run |
| Reconcile.ClosedGatesWait | services/controller/src/reconcile.rs:194-240 | with the gates closed a Pending server waits as it is |
| Reconcile.FailureIsRecorded | services/controller/src/reconcile.rs:241-256 | provisioning can fail at any point of it; Failed is recorded and nothing else changes |
| Reconcile.BreakRecordsNothing | services/controller/src/reconcile.rs:140-288 | any other call can fail too, and then nothing is recorded |
| Reconcile.DeployedIff | services/controller/src/reconcile.rs:322-356 | in every run the Deployment exists if and only if one has been applied: a stop neither creates nor deletes one |
| Reconcile.RependingSurvivesIff | services/controller/src/reconcile.rs:140-288 | a phase reset that lands during a pass has survived it, whatever fails in the pass and whatever else is written meanwhile, if and only if the pass was neither provisioning nor stopping, or broke off |
| Reconcile.RependingIsLost | services/gateway/src/service.rs:65-89 | a run in which an update's reset lands after the pass has read the object and is recorded over by Running |
| Reconcile.WoundedIsStuck | services/controller/src/reconcile.rs:260-269 | the Running arm leaves such a server as it is, pass after pass |
| Reconcile.StuckIsReachable | services/gateway/src/service.rs:571-595 | from any running server, a broken-off stop and a start whose resync fails lead there |
| Preset.CapturesSplit | crates/workshop-parse/src/lib.rs:56-61 | links are found separately on both sides of any character that cannot be part of one |
| Preset.CapturesNothingIff | crates/workshop-parse/src/lib.rs:15-61 | nothing is matched if and only if nowhere in the text a link with a digit begins |
| Preset.UrlRoundTrip | crates/workshop-parse/src/lib.rs:39-61 | `extract_single_id` undoes `workshop_url`, and parsing the link finds just that id |
| Preset.DecimalReads | crates/workshop-parse/src/lib.rs:39-61 | a printed number is read back exactly when it fits a u64 |
| Preset.FirstLinkDecides | crates/workshop-parse/src/lib.rs:39-43 | only the first link of a text counts, whatever follows it |
| Preset.UnreadableLinkDecides | crates/workshop-parse/src/lib.rs:39-43 | even one too large to read: then there is no id |
| Preset.EscapeHtml | crates/workshop-parse/src/lib.rs:138-151 | the loop computes the character-by-character escape |
| Preset.ParserFindsLinks | crates/workshop-parse/src/lib.rs:56-61 | every markup character separates links, and text without a slash or a question mark has none |
| Preset.EscapeKeepsLinks | crates/workshop-parse/src/lib.rs:138-151 | escaping neither creates nor destroys a link |
| Preset.EscapedTextIsInert | crates/workshop-parse/src/lib.rs:138-151 | escaped text holds no quote and no angle bracket |
| Preset.EscapeRoundTrip | crates/workshop-parse/src/lib.rs:138-151 | reading the entities back gives the text, so no two texts escape alike |
| Export.RenderPage | crates/workshop-parse/src/lib.rs:77-136 | the row loop prints the document for any page text |
| Export.RenderPresetHtml | crates/workshop-parse/src/lib.rs:77-136 | prints the Launcher's page with every text escaped |
| Export.ParseOfRendered | crates/workshop-parse/src/lib.rs:56-136 | parsing an export finds the name's own links twice and, row by row, the title's own links and the id twice |
| Export.RenderedParsesToItsIdsIff | crates/workshop-parse/src/lib.rs:56-136 | it finds each id twice, in order, if and only if neither the name nor any title holds a readable link |
| Export.LinklessTextParsesToItsIds | crates/workshop-parse/src/lib.rs:56-136 | in particular whenever neither the name nor any title contains `filedetails/?id=` and a digit |
| Export.LinkInNameIsParsed | crates/workshop-parse/src/lib.rs:48-136 | a name that is itself a Workshop link is parsed along, whatever the mods |
| Export.DoublingIsHarmless | crates/workshop-parse/src/lib.rs:198-212 | dropping repeats from the doubled list gives the ids themselves, in order, without theirs |
| ReadBack.ExportRoundTrip | crates/workshop-parse/src/lib.rs:77-151 | an exported page can be read back completely, name and every row's id and title, so no two presets print alike |
| ReadBack.PageReads | crates/workshop-parse/src/lib.rs:77-151 | the same for any page text that closes its filled-in places |
| ReadBack.RowReads | crates/workshop-parse/src/lib.rs:77-97 | a printed row is read as its mod, with what follows it left over |
| Publish.TitleIsRefusedIff | crates/steam-sync/src/collection.rs:411-417 | a title is refused exactly when it is blank throughout |
| Publish.TrimmedCutsBlanks | crates/steam-sync/src/collection.rs:411-417 | trimming cuts blanks off both ends, and all of them |
| Publish.ValidateChildren | crates/steam-sync/src/collection.rs:422-439 | passes exactly for a non-empty list of at most MAX_CHILDREN different ids, and gives their first occurrences |
| Publish.FirstNewOfDistinct | crates/steam-sync/src/collection.rs:422-429 | the identity on a list without duplicates |
| Publish.Steam.PublishCollection | crates/steam-sync/src/collection.rs:187-225 | succeeds exactly for a title that is not blank, a call that gets through and an answer with an id; then a new, empty collection of the account exists, and otherwise nothing changed |
| Publish.Steam.SetCollectionChildren | crates/steam-sync/src/collection.rs:257-280 | succeeds exactly for an acceptable list, a call that gets through and an item that is there; replaces the membership and nothing else, or nothing at all |
| Publish.Steam.UpdateCollection | crates/steam-sync/src/collection.rs:228-251 | succeeds exactly for a title that is not blank, a call that gets through and an item that is there; replaces title, description and visibility and nothing else, or nothing at all |
| Publish.Steam.DeleteCollection | crates/steam-sync/src/collection.rs:284-295 | removes exactly the item, or nothing |
| Publish.Steam.GetCollectionDetails | crates/steam-sync/src/collection.rs:302-345 | answers exactly for a visible item that is a collection, if the call gets through |
| Publish.MembersKeepTheirOrder | crates/steam-sync/src/steam.rs:2196-2205 | a collection's display order is the order its members were set in |
| Publish.PublishNew | services/sync-daemon/src/service.rs:323-339 | publish, populate and clean up leave exactly what `Created` says, for every choice of calls that get through |
| Publish.FailedPublishLeavesNothingIff | services/sync-daemon/src/service.rs:323-339 | a failed new publish leaves nothing behind if and only if it never got to publish or its clean-up got through; otherwise one empty collection |
| Publish.RequestSucceedsIff | services/sync-daemon/src/service.rs:312-339 | an edit or a publish succeeds exactly when every check passes and every call gets through |
| Publish.EditExisting | services/sync-daemon/src/service.rs:312-322 | look up, check the owner, set the membership, then the metadata: leaves exactly what `Edited` says, for every choice of calls that get through |
| Publish.FailedEditChangesNothingIff | services/sync-daemon/src/service.rs:312-322 | a failed edit keeps title, description, visibility, owner and every other item; it changes nothing at all if and only if the membership was not set or was that list already |
| Publish.FailedEditReplacesMembership | services/sync-daemon/src/service.rs:312-322 | an edit whose only failing call is the last leaves the new membership under the old title |
| Publish.OthersAreSafe | services/sync-daemon/src/service.rs:480-490 | no request changes what another account published |
| Publish.PublishCollectionImpl | services/sync-daemon/src/service.rs:288-350 | with the resolution getting through, succeeds exactly when some mod resolves and the edit or publish does; then members equal the returned mods in order, non-empty, distinct, within the limit, and the mods are what the candidates resolve to; on failure nothing changed, or exactly what the edit or the publish leaves on the way; no other account's item ever changes |
| Publish.DeleteCollectionImpl | services/sync-daemon/src/service.rs:352-359 | deletes exactly an owned collection both calls get through for, or nothing |
| Publish.PublishedCollectionResolves | services/sync-daemon/src/service.rs:288-350 | resolving the published collection gives exactly the returned mods: ids, order, titles, sizes, and nothing unresolved |

## Left out

- Steam login, CDN, manifests and chunks: a sync writes the tree or fails; `patch_mod_metadata` edits outside the lock are not depot content.
- I/O errors inside the tree passes, non-UTF-8 names, case-insensitive filesystems and hard links: the passes run on a case-sensitive tree that answers.
- Directory edits in place: each tree pass writes its directory back as a new map, so the model has no aliasing between open directories; symlinks are leaves, and a symlinked twin is not looked through.
- Finalize.FinalizeSyncedTree: a directory is listed before its entries are renamed, the root's own name is lowercase, executable bits are not modelled, and a symlink counts as the leaf it is where `metadata()` would follow it; a broken symlink under a lowercase name, which `dest.exists()` does not see, would be renamed over; whether a directory read during its own renames reports an entry twice is up to the filesystem.
- Resolve.GetDetails: Steam answers the same for the whole of one resolution; a row with a failing result may say anything.
- SyncLock.SyncState.TryAcquire: one attempt without another process in between; the step machine splits it into its statements.
- Finalize.WalkFolds: spellings of one name come in the same order in every directory; siblings of different names come in any order.
- SyncLock.SuccessMeansOnDisk: the tree is at a manifest or not; the fold repair that runs over a trusted tree without writing depot content is no step of the machine.
- SyncLock.MarkerHoldsIff: a tree is wiped from outside only while nobody is writing it.
- SyncLock.TimelyRunIsExclusive: all processes share one clock that never runs backwards; the code reads each host's own wall clock.
- SyncLock.SyncState.CheckSynced: one read that gets through; a failed read answers no, which the step machine has as a sync started with its marker unread.
- `acquire_lock`'s endless polling: a waiting worker may poll for ever; only that a stale key can be taken is proved.
- Pool shutdown and the retry schedule of a re-login: before shutdown a re-login either succeeds or fails for good.
- The database engines: tables are maps, a transaction is atomic, and foreign keys are enforced. JWT, OAuth and OpenID are not modelled, nor are revoked and expired tokens.
- Registry.RegistryDb.LinkAccountToUser: assumes the foreign keys hold before the call, as the database enforces.
- Kubernetes watch lag, finalizers and the shape of Deployments and Pods: reads are current and deletes are done when requested; `arma_config.rs` rendering has no reader here.
- Reconcile.SmoothRunConverges: edits of an object outside the gateway, such as `kubectl edit`, appear only as a changed number of headless clients.
- Headless.EnsureHeadlessClients: assumes every existing client is named by the scheme; an object created by hand under another name is outside it.
- Gateway calls run one at a time: two creates that check ports at the same moment can both pass.
- Publish.MembersKeepTheirOrder: Steam numbers a collection's members by their position in the list it was given.
- Publish.PublishCollectionImpl: the id Steam draws for a new collection is unused; a failed Steam call is taken to have had no effect, an accepted publish without an id counts as failed, and nobody else edits the store during one call; visibility's number codes and the listing of owned collections are not modelled.
- Which Unicode characters count as digits and as white space: parameters, the digits fixed on ASCII.
- The web UI, CLI, launcher processes, metrics, retry timing, CSI driver and configuration.
