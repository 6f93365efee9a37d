# Verified model of the hash ring, its gossip store and the service layer

This project models, in Dafny, the parts of the repository in which several pieces of code have to agree with each
other: the hash ring (`ring/`), the gossip store that replicates it (`kv/memberlist/`), and the two layers that start
and stop components (`services/`, `modules/`). `dafny verify dfyconfig.toml` verifies all of it.

## How the model is laid out

* **The ring as a replicated value.** `RingTypes`, `TokenLists`, `Conflicts` (who keeps a token claimed twice),
  `MergeSpec` (what a merge yields), `RingDesc` (the in-place merge as a class, proved equal to that), `MergeLaws`
  (idempotency, commutativity, associativity, sufficiency of the returned change, and inputs for which a law fails).
* **The store.** `KVStore` (one key), `WatchCas` (writers and watchers of a key interleaved at lock granularity),
  `Broadcasts` (queued changes).
* **Lookups.** `TokensHeap`, `RingIndexes`, `TokenWalk`, `TokenCounts`, `TokenGeneration`, `Topology`, `Replication`,
  `Quorums`, `WholeRing`, and `Ring`, the class that ties them together. `ResultTrackers` and `Batches` collect the
  answers.
* **Subrings.** `ShuffleShard` (which instances are selected, as a function of an arbitrary random stream),
  `ShardGuarantees` (what the public functions guarantee, and exactly when), `ShardSelection` (the loops), `SubringCache`
  (the cache under interleaved updates).
* **Services.** `ServiceStates`, `BasicServices`, `ServiceManagers`, `ManagedServices` (both together), `Modules`.
* **Wire formats.** `Varints`, `Skipping`, `Fields`, `Messages`, `InstanceWire`, `DescWire`, `KvWire`, `Overflows`
  (where decoding panics) and `RingOnWire` (encoded rings and merged ones), after the sections "Base 128 Varints",
  "Length-Delimited Records", "Packed Repeated Fields" and "Maps" of the Protocol Buffers encoding specification.
* `Sets` counts finite sets and sums over them, and `NameLists` sorts names.

Conventions: an object that the source updates in place is a class, a loop is a loop, and each such method is proved
against a specification function. A Go map is iterated by picking any key that is left, so that every statement holds
for every iteration order. Clocks are parameters, in whole seconds. Goroutines are steps of a state machine, one per
critical section or atomic operation; theorems about them hold in every state of every run. A replica carries the name
of its instance, which the source keeps in a parallel slice. In the wire formats, or-ing seven bits above all bits read
so far is written as adding them.

## Where the code and its documentation differ

* `kv/memberlist/mergeable.go` asks for a merge that is idempotent, commutative and associative. It is idempotent.
  For clean rings it commutes if and only if entries that only one of them has would be accepted as first ones, and tied
  entries agree, except for tokens that they lose to others anyway (`MergeCommutesExactly`). It is associative for
  updates that do not compete for tokens, but a token lost to an instance that leaves later is not given back
  (`MergeNeedNotAssociate`); `MergeAssociatesExactly` says when grouping does not matter.
* The returned change is documented to be all that has to be gossiped. With a local compare-and-swap it suffices if and
  only if the clock is not behind an entry that is buried (`ChangeSuffices`, `ChangeNeedNotSuffice`). For the same reason
  dropping an invalidated broadcast can lose something (`DroppingCanLose`); when it does not, is said by
  `InvalidatedBroadcastIsRedundantExactly`.
* `ShuffleShard` is documented to be consistent and `ShuffleShardWithLookback` to include all past instances. Both hand
  out the whole ring while it is no larger than the shard size, and across that boundary the guarantees fail
  (`ShardNeedNotBeConsistent`, `LookbackNeedNotCover`). `PublicShardIsConsistentExactly`, `AlwaysConsistentExactly` and
  `PublicLookbackExactly` say when they hold.
* `countTokens` is documented to return the keys within the range of each instance. It counts the keys from a token to
  the next one, which lookups assign to the next one (`CountedForTheTokenBefore`), and one key too few, so that in no
  ring with tokens all counts are right (`SomeCountIsWrong`).
* `modules/module_service.go` promises that dependants stop before the modules they depend on. A module without a
  service in between does not pass the waiting on (`StopOrderNeedNotBeKept`), and dependants that a later target brings
  in are not waited for (`LaterTargetsAreNotWaitedFor`); `StopOrderExactly` says which order is kept.
* `Unmarshal` returns an error for malformed data. In the entries of the map, however, a skipped field is not checked for
  an end that is no int, as it is everywhere else, and decoding a ring panics (`TwelveBytesPanic`, exactly when:
  `DescPanicsExactly`).
* `mergeValueForKey` is documented to return version 0 if no modification occurred. It also does so, and tells no
  watcher, when the value has changed but all changes are expired tombstones (`InstanceVanishesSilently`, exactly when:
  `ChangesSilentlyExactly`).
* `services/service.go` documents that `StopAsync` can be called multiple times. Two overlapping calls on a service that
  is never started can make the second one call an unset function (`TwoStopsCanPanic`, exactly when:
  `StopPanicsExactly`). Its diagram leaves out the move from Starting to Stopping, which the code makes.

## Model

| member | source | states |
|---|---|---|
| RingTypes.LessIsTotal | ring/model.go:380-389 | names are totally ordered, so the tie-break between equally good claimants is never ambiguous |
| Conflicts.BeatsIsTransitive | ring/model.go:349-355 | the preference (not LEAVING first, then the smaller name) is transitive, so there is a best claimant of every token |
| Conflicts.ResolvedTokens | ring/model.go:356-418 | after resolution an instance lists a token exactly when it wins it among all claimants that have not left |
| Conflicts.ResolvedIsClean | ring/model.go:349-355 | resolution leaves every list strictly ascending, the lists pairwise disjoint and LEFT entries without tokens |
| Conflicts.TokensAreConserved | ring/model.go:349-355 | no token of an instance that has not left is lost and none appears from nowhere |
| Conflicts.ResolvedOfClean | ring/model.go:252-255 | a ring without conflicts is left as it is, so skipping resolution is harmless |
| Conflicts.SameWinnersSameResult | ring/model.go:356-418 | two rings that differ in tokens alone resolve alike if and only if every token has the same winner |
| RingDesc.NormaliseTokens | ring/model.go:282-313 | sorting and in-place removal of repetitions leave the unique ascending listing of the tokens, none for LEFT |
| RingDesc.Desc.Normalise | ring/model.go:282-313 | every entry is normalised, whatever the map order |
| RingDesc.Desc.ConflictingTokensExist | ring/model.go:330-347 | true if and only if some token is listed twice |
| RingDesc.Desc.CollectOwners | ring/model.go:356-394 | whatever the map order, each contested token ends up with its winner |
| RingDesc.Desc.ListTokens | ring/model.go:398-410 | filing the sorted tokens under their owners gives each instance exactly its won tokens in order |
| RingDesc.Desc.ResolveConflicts | ring/model.go:356-418 | the in-place resolution produces the resolved ring, for every map order |
| RingDesc.Desc.TakeNewer | ring/model.go:212-227 | an incoming entry replaces ours exactly when its timestamp is larger, or equal and only it is LEFT |
| RingDesc.Desc.BuryMissing | ring/model.go:229-245 | a local compare-and-swap turns exactly our unmentioned live entries into tombstones |
| RingDesc.Desc.MergeWithTime | ring/model.go:189-267 | new state and returned change are those of the merge specification, for every map order, a nil ring and a ring merged into itself |
| RingDesc.Desc.RemoveTombstones | ring/model.go:421-434 | exactly the expired tombstones go; both counts are right |
| RingDesc.Desc.Refresh | ring/ring.go:813-820 | cached entries take over states and heartbeats and nothing else |
| MergeSpec.MergeResolves | ring/model.go:247-257 | despite the tokensChanged shortcut, a merge into a clean ring equals merging the entries and resolving all conflicts |
| MergeSpec.EntriesAreNormal | ring/model.go:189-245 | merging entries keeps the normal form |
| MergeLaws.MergeIsIdempotent | kv/memberlist/mergeable.go:14-36 | merging the same ring a second time changes nothing and returns no change, with no hypothesis at all |
| MergeLaws.ChangeSuffices | ring/model.go:252-267 | a peer that merges only the returned change reaches the same state, if and only if no buried entry is newer than the clock |
| MergeLaws.ChangeNeedNotSuffice | ring/model.go:229-245 | a compare-and-swap whose clock is behind the entry it buries: a peer that merges the returned change keeps the live entry |
| MergeLaws.MergeCommutesExactly | kv/memberlist/mergeable.go:14-36 | two clean rings merge alike in both orders if and only if tied entries agree outside tokens they lose and lone entries are acceptable |
| MergeLaws.MergeCommutes | kv/memberlist/mergeable.go:14-36 | positive timestamps and equal entries on ties are enough to commute |
| MergeLaws.MergeNeedNotCommute | kv/memberlist/mergeable.go:14-36 | two heartbeats of one second with different addresses do not commute |
| MergeLaws.ReplicasConverge | kv/memberlist/mergeable.go:14-36 | any two histories of the same compatible updates end in one state, in any order, grouping and repetition, and whether nodes exchange full states or only the returned changes, if a change arrives after what its sender had |
| MergeLaws.ReplicasAgreeExactly | kv/memberlist/mergeable.go:14-36 | whatever was lost and in whatever order full states and changes arrived: two replicas end alike if and only if neither was sent an entry newer than all that the other was sent for its instance |
| MergeLaws.MergeAssociatesExactly | kv/memberlist/mergeable.go:14-36 | for clean receivers both groupings of three agree if and only if no entry of the third is stuck behind the second, and every token has the same best among those that still claim it |
| MergeLaws.MergeIsAssociative | kv/memberlist/mergeable.go:14-36 | in particular merging is associative if no token is claimed by two instances and the entries of the third are acceptable as first ones |
| MergeLaws.ResolvingTwiceExactly | ring/model.go:356-418 | resolving at both of two merges equals resolving once at the end, if and only if no token lost early would be won late |
| MergeLaws.MergeNeedNotAssociate | kv/memberlist/mergeable.go:14-36 | the documented associativity fails for a token lost to an instance that then leaves |
| KVStore.KV.Get | kv/memberlist/memberlist_client.go:634-646 | the visible value hides all tombstones and comes with the version |
| KVStore.KV.MergeValueForKey | kv/memberlist/memberlist_client.go:1178-1230 | version check, merge, tombstone expiry and store of one key; other keys are untouched |
| KVStore.ComputeNewValue | kv/memberlist/memberlist_client.go:1233-1241 | a first value is taken as it comes, later ones are merged |
| KVStore.PutRaisesVersionByOne | kv/memberlist/memberlist_client.go:1178-1230 | with expiry off a stored change raises the version by exactly one and otherwise nothing at all changes |
| KVStore.ChangesSilentlyExactly | kv/memberlist/memberlist_client.go:1200-1216 | with expiry, the value changes under the same version, without a notification, if and only if the merge yields nothing but tombstones beyond the limit and touches an instance of the value |
| KVStore.NoTokensAreLost | kv/memberlist/memberlist_client.go:1200-1216 | in a value without conflicts the instances touched are those named by the change and old tombstones |
| KVStore.InstanceVanishesSilently | kv/memberlist/memberlist_client.go:1200-1216 | a live instance whose burial arrives late disappears, and no watcher is told |
| KVStore.NoChangeMeansSame | kv/memberlist/memberlist_client.go:1194-1198 | a merge that reports no change has left the value as it was |
| WatchCas.NoWakeupIsLost | kv/memberlist/memberlist_client.go:652-691 | in every state of every run, for each watcher the newest version was read or was already stored when it registered, or it has a token queued, is about to read, or a writer owes it a notification |
| WatchCas.QuietMeansSeen | kv/memberlist/memberlist_client.go:755-787 | once nothing is pending every watcher has read the newest version, unless that was already stored when it registered |
| WatchCas.CommitMergesOntoWhatWasRead | kv/memberlist/memberlist_client.go:855-894 | a compare-and-swap from a non-zero version gets past the check exactly when nothing was stored since, and then merges onto the value behind the one its callback was given |
| WatchCas.CallbackWasGiven | kv/memberlist/memberlist_client.go:855-894 | until it commits, a compare-and-swap keeps the version and the value its callback was given |
| WatchCas.SameVersionSameValue | kv/memberlist/memberlist_client.go:1178-1230 | versions never go down, rise by at most one a step, and equal versions mean equal values |
| Broadcasts.Invalidates | kv/memberlist/broadcast.go:21-53 | true exactly for the same key, a version no smaller and a content that covers the older one |
| Broadcasts.LaterChangeSuffices | kv/memberlist/memberlist_client.go:1178-1230 | a peer that merges a change covered by a later one, before or after that, might as well not have |
| Broadcasts.EventGrowsExactly | kv/memberlist/memberlist_client.go:1178-1230 | an event only replaces entries by newer ones, if and only if it is no compare-and-swap whose clock is behind a live entry that it buries |
| Broadcasts.StoreGrows | kv/memberlist/memberlist_client.go:1178-1230 | as long as clocks are not behind in this way, entries are only replaced by newer ones |
| Broadcasts.VersionsGrow | kv/memberlist/memberlist_client.go:1178-1230 | over any run the version does not go down |
| Broadcasts.InvalidatedBroadcastIsRedundant | kv/memberlist/broadcast.go:21-53 | over every run of one store in which no clock after the older broadcast is behind a live entry that it buries, a peer that receives only the newer ends in the same state as one that receives both, in either order |
| Broadcasts.InvalidatedBroadcastIsRedundantExactly | kv/memberlist/broadcast.go:21-53 | whatever the clocks, this is so for all peers and both orders if and only if the newer change holds the same or newer entries |
| Broadcasts.DroppingCanLose | kv/memberlist/broadcast.go:21-53 | a run with a clock behind in which the two peers end in different states |
| TokensHeap.TokensHeap.Down | ring/model.go:572-598 | sifting down restores the heap order below the position and keeps the lists |
| TokensHeap.TokensHeap.TakeLeast | ring/model.go:617-634 | one round removes exactly the least token and keeps the heap order |
| TokensHeap.MergeTokens | ring/model.go:603-637 | any number of sorted lists become one sorted permutation of all their tokens |
| RingIndexes.GetTokens | ring/model.go:459-472 | every list is sorted in place, and the result is the sorted list of all tokens with their multiplicity |
| RingIndexes.GetTokensByZone | ring/model.go:476-490 | each zone, and no other, gets the sorted list of its tokens |
| RingIndexes.GetTokensInfo | ring/model.go:441-456 | exactly the tokens of the ring are mapped, each to an instance that lists it, with its zone |
| RingIndexes.GetZones | ring/util.go:153-162 | exactly the zones in ascending order |
| RingIndexes.IndexesAreUnique | ring/ring.go:336-339 | without competing claims the token list and the owners are determined by the entries |
| TokenGeneration.GenerateTokens | ring/util.go:20-49 | the first distinct draws that are not taken, in ascending order, as many as asked for |
| TokenCounts.CountTokens | ring/ring.go:529-556 | for every map order each instance gets the number of its tokens and the sum of the ways from them to the next tokens, and no such sum wraps around |
| TokenCounts.CountsAddUp | ring/ring.go:532-545 | what is counted for all instances together is all keys but one, however tokens are distributed |
| TokenCounts.WidthCountsKeys | ring/ring.go:535-540 | the count of a token is the number of keys up to the next one, except that the last is one short |
| TokenCounts.CountedForTheTokenBefore | ring/ring.go:535-540 | a key is counted for a token exactly if a lookup of the key starts at the next token |
| TokenCounts.SharesAreExchanged | ring/ring.go:529-556 | a ring in which the instance asked for all keys but one is counted one key |
| TokenCounts.SomeCountIsWrong | ring/ring.go:529-556 | in every ring with tokens some instance is counted another number of keys than are looked up at it |
| TokenWalk.SearchToken | ring/util.go:165-173 | binary search finds the first larger token, or wraps to the first one |
| TokenWalk.WalkIsClockwise | ring/ring.go:369-374 | the distance from the key never goes down on the walk |
| TokenWalk.FirstOpenIsNearest | ring/ring.go:702-731 | the first token of the walk whose owner is not selected is the nearest such token |
| Replication.Filter | ring/replication_strategy.go:28-71 | keeps exactly the healthy replicas in order and succeeds if and only if at least half of the larger of set size and factor plus one remain; the rest is the tolerance |
| Replication.HealthyOnesAre | ring/replication_strategy.go:43-50 | filtering removes exactly the unhealthy and keeps names distinct |
| Replication.WalkKeepsInv | ring/ring.go:369-406 | the walk chooses distinct instances, at most factor of which do not extend the set |
| Replication.WalkFindsOwners | ring/ring.go:369-406 | every chosen instance owns a visited token |
| Quorums.ReadWalkIsPrefix | ring/ring.go:94-110 | without zones the instances chosen for reading are the first of those chosen for writing, or all of them |
| Quorums.WriteAndReadQuorumsMeet | ring/ring.go:94-110 | with at most one chosen LEAVING instance every successful write meets every successful read of the key, even if the walk runs out |
| Quorums.QuorumsMeetExactly | ring/replication_strategy.go:36-70 | success sets always meet if and only if both minimums together exceed the number of instances involved |
| Quorums.TwoLeavingCanMiss | ring/ring.go:94-110 | with two LEAVING instances a write and a read can miss each other |
| WholeRing.WriteReachesHalf | ring/replication_strategy.go:36-70 | a successful write reached more than half of the factor, all ACTIVE and known to the ring |
| WholeRing.WriteReachesZones | ring/ring.go:386-401 | a successful zone-aware write reached as many zones as instances |
| WholeRing.EnoughZonesAnswer | ring/ring.go:469-500 | whichever tracker is in charge, a successful read covers all but the tolerated zones completely |
| WholeRing.WholeRingReadSeesWrites | ring/ring.go:446-525 | without zones any successful whole-ring read includes an instance of any successful write to any key |
| WholeRing.WholeRingReadSeesZonedWrites | ring/ring.go:446-525 | with zones, none empty, the same by counting zones that were read completely |
| ResultTrackers.NeverBoth | ring/replication_set_tracker.go:39-45 | success and failure exclude each other, for both trackers |
| ResultTrackers.OneInTheEnd | ring/replication_set_tracker.go:79-96 | once every instance has reported one of them holds, for both trackers |
| ResultTrackers.DefaultResultTracker.HasSucceeded | ring/replication_set_tracker.go:22-45 | the counters tell exactly whether enough instances succeeded |
| ResultTrackers.ZoneAwareResultTracker.Done | ring/replication_set_tracker.go:71-77 | the per-zone counts stay those of the reports so far |
| ResultTrackers.ZoneAwareResultTracker.HasSucceeded | ring/replication_set_tracker.go:79-91 | the per-zone counts tell exactly whether enough zones answered completely |
| ResultTrackers.ZoneAwareResultTracker.HasFailed | ring/replication_set_tracker.go:93-96 | true exactly when more zones failed than are tolerated |
| ResultTrackers.Do | ring/replication_set.go:25-95 | for every order of answers it stops at the first verdict, there is one when all have answered, and forceStart gets at most maxErrors tokens |
| Batches.OneVerdict | ring/batch.go:43-141 | under every interleaving at most one value is ever sent, no send blocks, done means all items succeeded often enough, err that one failed too often |
| Batches.VerdictInTheEnd | ring/batch.go:43-141 | when all callbacks have been recorded exactly one value has been sent, done if and only if no item failed too often |
| Batches.GroupByAddress | ring/batch.go:57-78 | each item is filed once per replica under the address of that replica |
| Batches.StartBatch | ring/batch.go:43-89 | replication sets with a positive minimum lead to a state from which the theorems hold |
| Topology.RingCompare | ring/model.go:502-563 | Equal exactly for equal contents, Different exactly if more than states and heartbeats differ; nil counts as empty |
| Topology.SameTopologySameIndexes | ring/ring.go:321-332 | rings of the same topology have the same indexes |
| Topology.SameTopologySameShard | ring/ring.go:664-769 | states and heartbeats do not influence which instances are selected |
| Ring.Ring.constructor | ring/ring.go:228-265 | a new ring is empty, its indexes are right, and nothing is cached |
| Ring.Ring.UpdateRingState | ring/ring.go:305-350 | excluded zones go, the indexes equal recomputation on the fast path too, a change of topology is dated and empties the cache, and otherwise cached subrings stay good |
| Ring.Ring.Get | ring/ring.go:353-420 | the loop and the filter equal the walk over the owners clockwise from the key; inconsistent token information never occurs |
| Ring.Ring.CountTokens | ring/ring.go:527-556 | the counts of the instances of a ring add up to the number of keys less one |
| Ring.WalkRing | ring/ring.go:369-406 | the walking loop chooses the specified replicas, or reports a token without owner |
| Ring.Ring.GetReplicationSetForOperation | ring/ring.go:446-525 | the result is the specified one for every map order, including both error cases |
| Ring.ClockwiseIsCoherent | ring/ring.go:376-381 | the owners met on a walk are known to the ring, with their zones |
| Ring.Ring.ReadsSeeWrites | ring/ring.go:446-525 | on one ring a successful whole-ring read includes an instance of any successful write to any key |
| Ring.Ring.SelectSubring | ring/ring.go:664-769 | the subring has exactly the entries of the specified shard, and its indexes are right |
| Ring.Ring.GetCachedShuffledSubring | ring/ring.go:796-822 | a hit has the entries of a fresh shard of the current ring, and the cache stays good |
| Ring.Ring.SetCachedShuffledSubring | ring/ring.go:824-838 | a subring is stored exactly if the topology has not changed since it was computed |
| Ring.Ring.CleanupShuffleShardCache | ring/ring.go:840-853 | exactly the entries of the identifier go |
| Ring.Ring.ShuffleShard | ring/ring.go:632-646 | through the cache or not, the result has the entries of a fresh shard; a size that is not smaller yields the ring itself |
| Ring.Ring.ShuffleShardWithLookback | ring/ring.go:655-662 | the same with lookback, never from the cache |
| ShardSelection.SelectOne | ring/ring.go:697-735 | one walk selects the nearest open instance and goes on past recent ones, as one draw is specified |
| ShardSelection.SelectFromZone | ring/ring.go:697-746 | the draws of one zone select the specified instances; stopping early loses nothing |
| ShardSelection.SelectShard | ring/ring.go:671-747 | the three nested loops select exactly the specified shard |
| ShuffleShard.DrawAdds | ring/ring.go:702-735 | a draw only adds instances, and finds none only if none is left |
| ShuffleShard.NothingMoreToSelect | ring/ring.go:738-744 | once a draw finds nothing further draws change nothing |
| ShuffleShard.ShardGrows | ring/ring.go:623-631 | a larger shard size only adds instances, for every random stream |
| ShuffleShard.ShardIsConsistent | ring/ring.go:664-747 | the selection proper: removing or adding one instance changes it by at most one instance out and one in, for every random stream |
| ShuffleShard.LookbackCoversPastShard | ring/ring.go:664-747 | the selection proper: every instance of a past one that is still registered is in the current one with lookback, for every random stream |
| ShardGuarantees.PublicShardIsConsistentExactly | ring/ring.go:613-646 | ShuffleShard makes at most one difference when an instance is removed or added, if and only if the ring does not thereby reach the shard size or at most one other instance was left out, counted by zone sizes |
| ShardGuarantees.AlwaysConsistentExactly | ring/ring.go:613-646 | the same for all streams at once: if and only if the size is not reached or the zone sizes leave out at most one instance, besides the changed one if it has no tokens |
| ShardGuarantees.ShardNeedNotBeConsistent | ring/ring.go:632-646 | four instances in one zone, one in another, shard size four: when a selected one of the four goes, two come in |
| ShardGuarantees.PublicLookbackExactly | ring/ring.go:648-662 | for all streams ShuffleShardWithLookback covers what is left of the past shard, if and only if the past ring was larger than its shard size, the current ring is not, or every zone has enough draws for its instances that are not recent |
| ShardGuarantees.LookbackNeedNotCover | ring/ring.go:655-662 | a past shard that was the whole ring and lacks a registered instance, for every stream, after one instance was added |
| ShardGuarantees.ShardSize | ring/ring.go:671-747 | without lookback each zone contributes the number of draws or all instances with tokens, whatever the stream |
| SubringCache.HitIsFreshExactly | ring/ring.go:796-838 | however updates, computations and stores interleave, and whatever the times, a hit equals a fresh shard of the current ring, states and heartbeats included, if and only if the shard of the ring it was computed from has the same topology |
| SubringCache.HitIsFreshUnlessStoredAcross | ring/ring.go:823-838 | every hit is fresh as long as no subring is stored across a change of topology of equal time |
| SubringCache.HitIsFresh | ring/ring.go:796-838 | if changes of topology happen at distinct times, every hit is fresh |
| SubringCache.GoneInstanceIsServed | ring/ring.go:823-838 | a run with two changes at one time in which a hit yields an instance that has gone |
| SubringCache.RefreshedIsFresh | ring/ring.go:811-820 | refreshing states and heartbeats turns a subring of the right topology into a fresh one |
| ServiceStates.PathsAreShort | services/basic_service.go:336-339 | a path through the states has at most four events |
| ServiceStates.PathsAreConnected | services/service.go:106-122 | each event of a path starts where the one before ended |
| BasicServices.BasicService.NotifyListeners | services/basic_service.go:352-359 | every listener gets the event, and its channel is closed if asked |
| BasicServices.BasicService.StartAsync | services/basic_service.go:115-142 | switches from New and nothing else |
| BasicServices.BasicService.FailStarting | services/basic_service.go:160-170 | the whole effect of failing to start |
| BasicServices.BasicService.EnterRunning | services/basic_service.go:181-187 | the whole effect of reaching Running |
| BasicServices.BasicService.EnterStopping | services/basic_service.go:193-202 | the whole effect of starting to stop, from Starting or Running |
| BasicServices.BasicService.Finish | services/basic_service.go:214-224 | the whole effect of having stopped, with or without failure |
| BasicServices.BasicService.TerminateIfNew | services/basic_service.go:234-240 | a service that was not started terminates at once |
| BasicServices.BasicService.AddListener | services/basic_service.go:328-348 | a listener is added unless no event can come any more |
| BasicServices.OnlyCancelCanPanic | services/basic_service.go:115-247 | in every run no required switch fails, no channel is closed twice or sent on when closed, no send blocks; StopAsync panics exactly if there never was a context |
| BasicServices.ListenersAreToldTheWay | services/basic_service.go:328-359 | a listener gets at most four events, which are the way from the state in which it was added |
| BasicServices.TwoStopsCanPanic | services/basic_service.go:228-247 | a run in which the second of two StopAsync calls on a new service calls an unset function |
| BasicServices.StopPanicsExactly | services/basic_service.go:228-247 | a call of StopAsync panics if and only if another one terminates the New service between its check and its switch |
| BasicServices.OneStopAtATimeIsSafe | services/basic_service.go:228-247 | in particular nothing panics as long as calls of StopAsync do not overlap |
| BasicServices.AwaitTerminatedIsFinal | services/basic_service.go:284-311 | waiting for the end blocks until the service has ended and then gives one verdict for good, with a failure unless it terminated |
| BasicServices.AwaitRunningIsHonest | services/basic_service.go:284-311 | waiting for Running blocks exactly before it is reached or out of reach, and does not succeed after it has once failed |
| ServiceManagers.NewManager | services/manager.go:48-73 | refused exactly for no services or one that is not New |
| ServiceManagers.Manager.MoveService | services/manager.go:169-184 | the service moves from one list to the other and no empty list is kept |
| ServiceManagers.Manager.ServiceStateChanged | services/manager.go:165-220 | the whole effect of one state change |
| ServiceManagers.CountsMean | services/manager.go:190-196 | the counts say exactly whether all services run, all have ended, or one is past running |
| ServiceManagers.DeliverIsSafe | services/manager.go:165-220 | no legal state change closes a channel twice, sends on a closed or full channel, or breaks the invariant |
| ServiceManagers.ManagerIsSafe | services/manager.go:165-259 | in every run byState partitions the services, both channels are closed at most once and nothing is sent after closing |
| ServiceManagers.ListenersHearLittle | services/manager.go:229-259 | a listener gets at most count plus two notices, none twice, all true |
| ManagedServices.DeliveryIsEnabled | services/manager.go:165-220 | whatever the manager takes from the channel of a service is a legal move from the state it knows |
| ManagedServices.IsRunOfManager | services/manager.go:66-68 | services and their manager running together are, seen from the manager, one of the runs of the theorems above |
| ManagedServices.ManagerIsRight | services/manager.go:165-220 | once all events have been taken, the manager is healthy exactly if all services are running, and stopped exactly if all have ended |
| Modules.Manager.ListDeps | modules/modules.go:163-169 | terminates and lists exactly the transitive dependencies |
| Modules.Manager.OrderedDeps | modules/modules.go:172-206 | terminates for every map order and lists each transitive dependency once, after all of its own |
| Modules.FewerDependencies | modules/modules.go:163-169 | a dependency has strictly fewer dependencies, the measure of both |
| Modules.Manager.InitModule | modules/modules.go:86-126 | one target is initialised after its dependencies, each service with the lists of those it waits for when starting and stopping; the errors are the stated ones |
| Modules.Manager.InitModuleServices | modules/modules.go:73-84 | each init function runs at most once and only after those of its dependencies |
| Modules.Manager.FindInverseDependencies | modules/modules.go:209-222 | exactly the listed modules that depend directly on the given one, in order |
| Modules.Manager.DependenciesForModule | modules/modules.go:225-237 | exactly the transitive dependencies in the order of their names |
| Modules.StartOrderExactly | modules/module_service.go:46-71 | of two services, one is sure to be running before the other is told to start if and only if the other depends on it, directly or not, whatever stands in between |
| Modules.StopOrderExactly | modules/module_service.go:70-112 | for any targets, a module is sure to have stopped before another if and only if a chain of services leads from one to the other, each a direct dependant of the next within the target for which that was initialised, all but the first still running |
| Modules.StopOrderNeedNotBeKept | modules/module_service.go:96-112 | with a module without service in between, both stop orders respect the waiting lists |
| Modules.LaterTargetsAreNotWaitedFor | modules/modules.go:209-222 | a module does not wait for a dependant that only a later target brings in |
| Modules.NextCoversIndirect | modules/modules.go:86-126 | when a module is about to run all of its transitive dependencies have run |
| Varints.SovIsLength | ring/ring.pb.go:549-551 | the size computed from the number of bits is the length of the varint |
| Varints.EncodeVarint | ring/ring.pb.go:487-497 | the varint is written in front of the offset and nothing else changes |
| Varints.ReadVarint | ring/ring.pb.go:606-617 | the reading loop keeps the bits that fit and reports overflow and a missing end |
| Varints.ReadsBack | ring/ring.pb.go:606-617 | reading undoes encoding for every 64-bit number |
| Skipping.SkipField | ring/ring.pb.go:1030-1134 | the loops skip as specified, groups and all errors included |
| Skipping.SkipsUnknown | ring/ring.pb.go:1030-1134 | a field of any kind is skipped in full: numbers, fixed-width fields, contents, and groups of such fields to any depth |
| Skipping.SkipsFields | ring/ring.pb.go:1092-1123 | a group is skipped up to its end, whatever number that has |
| Fields.WriteDelimited | ring/ring.pb.go:442-448 | content, length and tag are written one in front of the other |
| InstanceWire.InstanceSize | ring/ring.pb.go:516-547 | Size is the number of bytes of the encoding |
| InstanceWire.PackTokens | ring/ring.pb.go:453-469 | tokens are packed in order into a buffer that is large enough |
| InstanceWire.MarshalInstanceTo | ring/ring.pb.go:432-485 | the backward writer leaves exactly the encoding in front of the end and nothing else changes |
| InstanceWire.MarshalInstance | ring/ring.pb.go:417-425 | writing ends at offset 0 of a buffer of the computed size |
| InstanceWire.UnmarshalInstance | ring/ring.pb.go:780-1029 | the decoding loop equals the specified decoding, errors included |
| InstanceWire.InstanceRoundTrip | ring/ring.pb.go:780-1029 | decoding an encoded entry yields the entry, for every entry |
| InstanceWire.NewFieldIsSkipped | ring/ring.pb.go:1006-1022 | an unknown field of any kind, groups included, inserted anywhere does not change what is decoded |
| DescWire.SizeOfDesc | ring/ring.pb.go:498-514 | Size is the sum over the entries, whatever the map order |
| DescWire.SumWithout | ring/ring.pb.go:498-514 | the sum may be taken in any order |
| DescWire.MarshalDescTo | ring/ring.pb.go:385-415 | the entries are written one in front of the other in some order, and the space needed is the computed size |
| DescWire.MarshalDesc | ring/ring.pb.go:370-378 | writing ends at offset 0, for every map order |
| DescWire.UnmarshalDesc | ring/ring.pb.go:598-779 | the decoding loop equals the specified decoding, with all errors and the one place where it panics |
| DescWire.DescRoundTrip | ring/ring.pb.go:598-779 | decoding an encoded ring yields the ring, for every ring and every map order |
| Overflows.DescPanicsExactly | ring/ring.pb.go:740-753 | for all data, decoding a ring panics if and only if it reaches an entry of the map, and in it a field other than name and value whose claimed end is at or beyond 2 to the power of 63 |
| Overflows.TwelveBytesPanic | ring/ring.pb.go:740-753 | twelve bytes for which decoding panics |
| Overflows.InstanceDecodingIsSafe | ring/ring.pb.go:780-1029 | decoding an entry never panics, whatever the data |
| Overflows.PairDecodingIsSafe | kv/memberlist/kv.pb.go:507-657 | nor does decoding a pair |
| RingOnWire.RingRoundTrip | kv/codec/codec.go:33-52 | whoever receives an encoding of a ring has the very ring that was merged and sent, in whatever order its entries were written |
| RingOnWire.Encode | kv/codec/codec.go:46-52 | what is written is an encoding of the ring |
| RingOnWire.Decode | kv/codec/codec.go:33-44 | what is read is the ring that the data encodes, or nothing |
| RingOnWire.MergeFits | ring/model.go:189-267 | merging rings that can be encoded yields a state and a change that can be encoded |
| RingOnWire.PeerCatchesUp | kv/memberlist/memberlist_client.go:1178-1230 | from end to end: a peer that decodes the encoded change of a merge and merges it reaches the state of the sender, if and only if no buried entry is newer than the clock |
| KvWire.MarshalPair | kv/memberlist/kv.pb.go:288-330 | writing ends at offset 0 of a buffer of the computed size |
| KvWire.UnmarshalPair | kv/memberlist/kv.pb.go:507-657 | the decoding loop equals the specified decoding, errors included |
| KvWire.PairRoundTrip | kv/memberlist/kv.pb.go:507-657 | decoding an encoded pair yields the pair |
| KvWire.LocalState | kv/memberlist/memberlist_client.go:1016-1081 | the stream holds each encodable pair that is short enough once, and no other |
| KvWire.SplitRemoteState | kv/memberlist/memberlist_client.go:1088-1128 | the pairs taken from a stream, and whether it was read to its end |
| KvWire.StateRoundTrip | kv/memberlist/memberlist_client.go:1088-1128 | the stream is split into exactly the pairs that were written |
| KvWire.CutStream | kv/memberlist/memberlist_client.go:1100-1126 | a stream cut off anywhere yields exactly its complete pairs, and it is noticed if one is incomplete |

## Left out

- Operation as a bitmap: an operation is a pair of sets of states (`ring/ring.go:855-889`), so the packing into 32 bits is not modelled.
- InvalidatedBroadcastIsRedundant: assumes that the first value of a key is stored normalised, because `computeNewValue` takes it as it arrives, and that no two instances claim a common token. The clock of a compare-and-swap is not behind a live entry that it buries; without this hypothesis the exact condition is that of `InvalidatedBroadcastIsRedundantExactly`.
- PutRaisesVersionByOne: holds with tombstone expiry off; with it on, `ChangesSilentlyExactly` says when it does not. `WatchCas` and `Broadcasts` run with expiry off.
- CommitMergesOntoWhatWasRead: says nothing about version 0, for which the version check is skipped.
- OnlyCancelCanPanic: user functions and listeners are only assumed to return; what they do is not modelled.
- ManagerIsSafe: services are distinct and stay New until NewManager has added all its listeners.
- AwaitRunningIsHonest: the context of the waiting caller, whose end makes it return early, is not modelled.
- StopOrderExactly: which services have failed by the time they are stopped is a parameter.
- OrderedDeps: presupposes an acyclic graph whose dependencies are all registered, without which the source does not terminate or fails.
- OneVerdict: a batch has at least one key; with none, neither channel is ever written. Counters are unbounded, the source's have 32 bits.
- ShardIsConsistent: presupposes an unchanged set of zones and disjoint tokens, as the documentation does; MD5 seeding and the random generator are an arbitrary function, and the division into zones is an integer division rounded up.
- PublicShardIsConsistentExactly: presupposes the same.
- LookbackCoversPastShard: presupposes that shared instances keep their tokens and zones and that every current instance registered before the lookback period was there in the past.
- PublicLookbackExactly: presupposes the same.
- UpdateRingState: metrics and logging are not modelled; the comparison and the replacement of the indexes are one step.
- LocalState: encoding a value with its codec is given by the store; message history is not modelled.
- RingRoundTrip: a state number other than the five known ones is decoded, but not part of the merging model; Received yields nothing then.
- Snappy compression in the codec and deep copies of values, both the identity on values.
- GenerateTokens: the random generator is an arbitrary function of the draw number, and enough of its draws have to be new, without which the source does not terminate.
- GetAllHealthy, instance lookups and the strategy that ignores unhealthy instances, which would add easy members.
- Watching key prefixes, rate limits, retries of a compare-and-swap, TCP transport, lifecyclers, other key-value clients, HTTP pages and configuration.
