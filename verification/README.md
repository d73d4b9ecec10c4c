# Matrix bridge: verified model

A Dafny model of the stateful parts of the Mattermost Matrix bridge and proofs of what they promise.
`dafny verify dfyconfig.toml` checks everything.

| file | models |
|---|---|
| `RateLimit.dfy` | the token-bucket and interval limiter: a state function, theorems over all runs, and the `TokenBucket` object |
| `Recency.dfy`, `Cache.dfy` | the LRU + TTL cache: an abstract recency sequence with the whole-run theorems, and the object of map and list nodes that refines it |
| `RoomLookup.dfy`, `RoomRaces.dfy` | the cached room lookup, its concurrent steps, the `BridgeUtils` object; which overlaps leave the cache right |
| `Keys.dfy`, `Listing.dfy` | key prefixes and sorted, paged listing |
| `MigrationSpec.dfy`, `MigrationEffects.dfy`, `MigrationResults.dfy`, `MigrationCounts.dfy` | what the migrations write, what each loop amounts to, what a finished migration guarantees, what it counts |
| `MigrationCrash.dfy`, `MigrationRestart.dfy`, `MigrationPages.dfy`, `MigrationChains.dfy` | stopping after any prefix of the writes and running again, once or any number of times, with any number of keys |
| `MigrationFaults.dfy`, `MigrationRepair.dfy`, `MigrationLarge.dfy` | migrations during which reads, writes and listings fail, and what they achieve; legacy prefixes of any size |
| `MigrationVersion.dfy`, `MigrationCounters.dfy` | how the version marker is read and which loops it calls for; what the reported counters mean |
| `Migrator.dfy` | the migration as loops over a store whose operations may fail, tied write by write to the specification |
| `Pipeline.dfy`, `PipelineOrder.dfy`, `Shutdown.dfy`, `Batching.dfy` | reaction batcher, event queue, workers and full-queue fallback as one concurrent system, its shutdown, and the objects |
| `Transactions.dfy`, `Webhook.dfy` | transaction deduplication with two-phase cleanup, as interleaved steps and as an object |
| `SendDelete.dfy` | sending a post as several events that may fail, and deleting them |
| `GhostIDs.dfy`, `MatrixContent.dfy`, `NoEcho.dfy`, `BridgeContent.dfy`, `EchoGuard.dfy` | ghost user IDs; the comparison of a post with what Matrix shows; both directions of the bridge with source and content of every write; what crosses and in whose name; the two guards against the bridge's own updates |
| `PendingFiles.dfy`, `PostTracker.dfy` | the two trackers |
| `TableStrings.dfy`, `Tables.dfy` | the table pass of the Markdown converter: its strings, and the pass over the lines |

How the code is turned into a model:

- A clock reading is a parameter, in the unit the code uses; runs have nondecreasing times. Amounts of tokens are reals.
- The KV store is a map. A read error counts as absent, as in the code, which logs and continues. Listing is sorted by
  key and cut into pages of the store as it is at that moment, as the repository's in-memory store does.
- Alias resolution is a function that does not change between an interrupted run and its restart; without a Matrix
  client it is undefined everywhere.
- Concurrent code is a state machine with one step per locked section, channel operation or remote call, and theorems
  quantify over every sequence of enabled steps. The same operations appear as methods of objects whose contracts
  equate the new state with the functions those theorems are about.
- Sending to Matrix appends to a room's log or fails; other people's events may arrive before each send.
- The bridge's two directions are modelled for ghost mode, a nonempty remote ID and no user overrides. Hooks and
  deliveries may come late, in any order, or more than once, and overlap. The homeserver's answers are parameters;
  whether it shows an event as sent or as last edited is one too. `server/plugin.go:595` compares `from_matrix` with a
  string while `server/sync_to_mattermost.go:150` stores a boolean, so that test lets every bridge post through; the
  proofs rest on the remote-user and ghost-sender checks alone.

Where a promise is false of the code the model keeps the code, shows a failing input and proves exactly when the
promise holds: `CrashSafeIffAnySize` and `CrashSafeFromVersion1Iff`, `LegacyClearedIff`, `HalfMovedIff`, `FillExactIff`,
`BypassSeenIff`, `StopLeavesOnlyBufferedIff` and `DeactivationIff`, `FifoIff`, `LetThroughIff`, `DeleteReachesAllIff`,
`EchoesIff` by `GuardIff`, `BookkeepingEchoesIff`, `GhostRoundTripIff`, `GhostRoomsCollideIff`.

## Model

| member | source | states |
|---|---|---|
| RateLimit.WindowBound | server/matrix/ratelimit.go:85-120 | In token mode, whatever the nondecreasing call times, every closed window [s, t] holds at most burst + rate·(t − s) admitted operations. |
| RateLimit.ConformsIffNeverDry | server/matrix/ratelimit.go:104-120 | Any schedule of admissions keeps to that bound in every window exactly when a bucket drained by it never goes negative; this is the independent meaning of the bucket. |
| RateLimit.GreedyOptimal | server/matrix/ratelimit.go:85-120 | No schedule that keeps to the bound admits more requests, up to any point of the run, than `Allow` does. |
| RateLimit.TokensTrackDecisions | server/matrix/ratelimit.go:104-120 | Throughout a run 0 ≤ tokens ≤ burst, and the stored level is the level of the limiter's own decisions. |
| RateLimit.IntervalDecisions | server/matrix/ratelimit.go:95-102 | In interval mode admitted operations are at least the interval apart, and a request is admitted exactly when the interval since the last admission has passed. |
| RateLimit.IntervalWindowBound | server/matrix/ratelimit.go:95-102 | In interval mode every closed window holds at most ⌊(t − s)/interval⌋ + 1 admissions. |
| RateLimit.IntervalOptimal | server/matrix/ratelimit.go:95-102 | No schedule with the minimum spacing admits more requests, up to any point, than `Allow` does in interval mode. |
| RateLimit.DisabledAdmitsAll | server/matrix/ratelimit.go:80-91 | A limiter with rate, burst and interval all zero admits every request and never changes. |
| RateLimit.WaitIsExact | server/matrix/ratelimit.go:145-178 | After a refusal, for every delay d, `Allow` succeeds after d exactly when d reaches the least sufficient whole nanosecond; the computed wait is that delay, or in token mode, exactly when the exact time is no whole number of nanoseconds, one nanosecond short of it. |
| RateLimit.NoWaitWhenAdmitted | server/matrix/ratelimit.go:145-178 | Where a request is admitted without a refill the computed wait is zero. |
| RateLimit.NeededShrinks | server/matrix/ratelimit.go:145-178 | While a token is awaited the exact delay shrinks by just the time that passes, so recomputing it after a late wake-up is consistent. |
| RateLimit.RefusalIsTransparent | server/matrix/ratelimit.go:85-120 | A refused call never changes what a later call is answered, nor the state that call leaves. |
| RateLimit.StarvedForever | server/matrix/ratelimit.go:145-178 | With rate zero and an empty bucket the wait is one hour and every later call is refused. |
| RateLimit.NeverAdmits | server/matrix/ratelimit.go:85-120 | Without rate or without burst, one refusal is followed by refusals only. |
| RateLimit.TokenBucket.constructor | server/matrix/ratelimit.go:67-77 | A new limiter has a full bucket and no last operation. |
| RateLimit.TokenBucket.Allow | server/matrix/ratelimit.go:85-120 | The method's answer and new state are those of the decision function that the theorems above are about. |
| RateLimit.TokenBucket.GetWaitTime | server/matrix/ratelimit.go:145-178 | The wait returned is the wait that `WaitIsExact` measures; nothing is changed. |
| RateLimit.TokenBucket.Wait | server/matrix/ratelimit.go:123-142 | With no competing caller: where the limiter can admit at all the loop ends after at most one sleep, within one nanosecond of the first computed wait when no wake-up is late; it succeeds only where `Allow` succeeds from the state at the call, and gives up only when its context ends before the next wake-up, having consumed nothing. Where it can admit nothing more it sleeps on until its context ends. |
| Recency.RunKeepsWellFormed | server/cache.go:36-148 | In every run keys stay unique and the length never exceeds max(capacity, 0). |
| Recency.LruInclusion | server/cache.go:36-148 | Two caches with equal TTL and capacities m ≤ n, run from empty on the same timed operations: the smaller's recency list is always a subsequence of the larger's, values and expiries included. |
| Recency.RunsStayIncluded | server/cache.go:36-148 | The inclusion is kept by runs from any two included states; the smaller cache never has more free slots. |
| Recency.HitInclusion | server/cache.go:36-56 | Every hit in the smaller cache is a hit with the same value in the larger one. |
| Recency.HitIsFresh | server/cache.go:36-93 | Every hit returns the value of the key's latest Set that was not deleted or cleared since, made at most one TTL ago. |
| Recency.EntriesAreCurrent | server/cache.go:36-126 | Every entry ever held, hit or not, is that of the key's current Set with expiry at its time plus the TTL. |
| Recency.UseIsFront | server/cache.go:36-93 | A Set, or a Get that hits, puts the key in front; a Get keeps its value and expiry. |
| Recency.MissRemoves | server/cache.go:36-52 | In every run, after a lookup that misses the key has no entry; every other entry is unchanged and in order, and the list is one shorter if and only if the key was held, expired. |
| Recency.HitMoves | server/cache.go:44-56 | In every run a hit gives the value of the key's unexpired entry and moves just that entry to the front. |
| Recency.SetShape | server/cache.go:59-93 | In every run a Set puts the new entry in front of the others, in place of the old entry of its key; a new key in a full cache takes the last slot and no other. |
| Recency.RemovalShapes | server/cache.go:96-148 | In every run Delete takes away the key's entry and no other; an eviction takes exactly the expired entries and keeps the order of the rest. |
| Recency.LruSurvival | server/cache.go:36-126 | An unexpired key, not deleted or cleared, whose last use was followed by uses of fewer than `capacity` distinct other keys, is still a hit with its value, whatever gets, evictions and deletions of other keys come between. |
| Recency.SurvivalIff | server/cache.go:36-126 | A key that is not named, deleted, cleared or evicted after its last use is still a hit if and only if no later Set of another key found the slots taken by that key and the other keys used since that still have an entry. An expired key dropped by a lookup has given its slot back. |
| Recency.EvictionIsExact | server/cache.go:59-93 | When only other keys are set afterwards, a key stays if and only if fewer than `capacity` of them are distinct. |
| Recency.EvictionStep | server/cache.go:129-148 | One turn of the in-place eviction loop keeps what is still to be kept and counted, in order. |
| Recency.KeysCounted | server/cache.go:115-119 | The recency list has as many entries as there are distinct keys. |
| Cache.Cache.constructor | server/cache.go:26-33 | A new cache is valid and empty. |
| Cache.Cache.Get | server/cache.go:36-56 | Refines the abstract Get that `MissRemoves` and `HitMoves` describe, and after a miss the key is not in the map; validity (map keys are exactly the listed keys without duplicates, each pointing at its own node, within capacity) is kept. |
| Cache.Cache.Set | server/cache.go:59-93 | Refines the abstract Set: update in place and move to front, or evict the last entry of a full cache and push; nothing is stored at capacity zero or less. |
| Cache.Cache.Delete | server/cache.go:96-103 | Removes exactly the key's entry. |
| Cache.Cache.Clear | server/cache.go:106-112 | Empties the cache. |
| Cache.Cache.Len | server/cache.go:115-119 | The number of distinct keys held. |
| Cache.Cache.RemoveElement | server/cache.go:122-126 | Removes one node from list and map and keeps the rest in order. |
| Cache.Cache.EvictExpired | server/cache.go:129-148 | Removes exactly the expired entries, keeps the others in order, and returns how many it removed. |
| Cache.Cache.Stats | server/cache.go:151-170 | Counts entries and expired entries; the expired count is what EvictExpired would return at that instant. |
| RoomLookup.BoundedStaleness | server/bridge_utils.go:86-134 | Over every interleaving of lookups, mappings, writers that bypass the cache and evictions: each room a lookup returns was the store's answer for that channel at some moment within the last TTL plus the time its thread took between store and cache (zero when lookups are single steps). |
| RoomLookup.OverlapLeavesOldRoom | server/bridge_utils.go:86-134 | A failing input: an overlapping lookup puts an old room back after a mapping. |
| RoomRaces.FillExactIff | server/bridge_utils.go:86-134 | Over every interleaving without writers behind the cache's back: once a thread has filled the cache a lookup at once returns its room, and that is the store's answer if and only if the last mapping of the channel since the thread's store access, if there was one, was to that same room. |
| RoomRaces.OrderlyRunsAreCoherent | server/bridge_utils.go:86-134 | If every thread is up to date in that sense when it fills the cache, the cache agrees with the store whenever nothing is in flight. |
| RoomRaces.UndisturbedIsUpToDate | server/bridge_utils.go:86-134 | A thread is, when no mapping of its channel falls between its store access and its fill. |
| RoomRaces.LookupIsItsSteps | server/bridge_utils.go:86-109 | Peek, store access and fill at one instant are the single-step lookup, in answer and in cache. |
| RoomRaces.MappingIsItsSteps | server/bridge_utils.go:111-134 | Store write and fill at one instant are the single-step mapping. |
| RoomLookup.OnlyWriterIsExact | server/bridge_utils.go:86-134 | When setChannelRoomMapping is the only writer and calls do not overlap, every lookup of every run gives the store's current answer. |
| RoomLookup.CoherentMapping | server/bridge_utils.go:111-134 | Mapping a channel makes the cache agree with the store, even when it was stale for that channel. |
| RoomLookup.CoherentLookup | server/bridge_utils.go:86-109 | A lookup in a coherent cache returns the store's answer and keeps the cache coherent. |
| RoomLookup.BypassSeenIff | server/command/command.go:648-672 | After a command has written the store behind the cache's back, the next lookup is right exactly when the channel is not cached live. |
| RoomLookup.MappingRoundTrip | server/bridge_utils.go:111-154 | A fully successful mapping can be followed from the channel to the room and from the room and the given identifier to the channel; other channels are unchanged. |
| RoomLookup.BridgeUtils.GetMatrixRoomID | server/bridge_utils.go:86-109 | Refines the single-step lookup over the real cache object; the room is the cache's if it has one, else the store's, else empty. |
| RoomLookup.BridgeUtils.SetChannelRoomMapping | server/bridge_utils.go:111-154 | States the cache, the value of every store key, and the error returned, for every combination of failing writes. |
| Keys.RenderInjective | server/store/kvstore/constants.go:7-62 | None of the modelled keys renders like another, or like a name with none of their prefixes. |
| Keys.GhostRoomsCollideIff | server/store/kvstore/constants.go:69-72 | The one key built from two parts: two memberships share it if and only if they are the same or one user's ID is the other's, an underscore and a beginning of the other's room. |
| Keys.GhostRoomsElsewhere | server/store/kvstore/constants.go:69-72 | No membership's key is one of the other modelled keys. |
| Keys.GhostRoomsApart | server/store/kvstore/constants.go:69-72 | For user IDs without underscore the keys are different. |
| Keys.PrefixSelects | server/store/kvstore/constants.go:7-40 | A key is listed under a prefix exactly when it was built with that prefix; legacy prefixes included. |
| Keys.PrefixesList | server/store/kvstore/constants.go:7-40 | The six prefixes as strings: each lists exactly the keys of its kind, and the version marker is the one key of its name. |
| Keys.NotBothPrefixes | server/store/kvstore/constants.go:7-40 | No string starts with two of the prefixes. |
| Listing.IncreasingUnique | server/testhelpers_test.go:321-348 | A listing is determined by the set of keys: there is only one increasing sequence of them. |
| Listing.BelowIff | server/testhelpers_test.go:321-348 | The order of a listing is decided at the first place where two IDs differ: by the smaller character or by ending there. |
| MigrationPages.CrashSafeIffAnySize | server/migrations.go:33-81 | Crash-restart equivalence from version 0, for any number of keys: stopping after any prefix of the writes and rerunning gives the uninterrupted result, for all prefixes, if and only if each legacy prefix holds at most one page of keys and each room key named by a not yet forwarded legacy DM either ends with that DM's channel or is named by a mapped channel listed later. |
| MigrationPages.CrashSafeFromVersion1Iff | server/migrations.go:291-445 | From version 1 every interrupted migration can be restarted with the same result if and only if each legacy prefix holds at most one page of keys. |
| MigrationPages.MorePagesUnsafe | server/migrations.go:291-445 | With more, a crash just before the marker and a restart remove a key that the uninterrupted run leaves. |
| MigrationPages.AnyCrashesIff | server/migrations.go:33-81 | Any number of interrupted runs, ended by a complete one, give what one uninterrupted run gives, if and only if every single interruption does. |
| MigrationFaults.ErrorsAreCrashes | server/migrations.go:33-81 | A run that stops at a failed listing or a failed marker, with no entry passed over, has made a proper prefix of the plan's writes: an error return is one of the crashes above. With no error it has made all of them. |
| MigrationFaults.FaultsKeepEntries | server/migrations.go:108-445 | Whatever reads and writes fail, over any sequence of entries visited: a legacy entry stays as it was until its mapping is there, a forward mapping changes at most to its legacy entry's room, and no reverse mapping is removed. |
| MigrationFaults.HalfMovedIff | server/migrations.go:315-367 | A visited legacy channel entry is removed with its room left without nonempty reverse mapping if and only if the entry can be read, neither its removal nor a needed write of its forward mapping fails, and, for a channel with an ID, there was none and its write fails. |
| MigrationFaults.HalfMovedIsFinal | server/migrations.go:291-445 | In any run over any store, such an entry whose room no other legacy entry names is without reverse mapping when the marker is written, and no further run changes anything. |
| MigrationFaults.FailedReverseIsFinal | server/migrations.go:347-367 | A failing input: a run over one entry that ends so. |
| MigrationLarge.AnySizeLosesNothing | server/migrations.go:291-445 | For any number of legacy keys: after version 2 each legacy entry is untouched with its forward mapping, or gone with both mappings there; no reverse mapping is lost and no nonempty one changed. |
| MigrationRestart.UnsharedIsSafe | server/migrations.go:185-275 | When no room of a new DM is shared, aliased or already taken by another channel the condition holds. |
| MigrationRestart.SharedRoomIsUnsafe | server/migrations.go:33-81 | A channel and a not yet forwarded DM naming one room: the condition fails and so does the restart. |
| MigrationRestart.CrashInVersion1 | server/migrations.go:84-105 | A crash inside version 1 never matters. |
| MigrationCrash.LoopRestarts | server/migrations.go:108-275 | A loop of version 1 cut short anywhere and run again ends as if it had not been, and a cut loop has touched reverse keys only. |
| MigrationCrash.Loops1Restart | server/migrations.go:84-105 | Cut anywhere in its two loops, version 1 restarts to the same store. |
| MigrationCrash.MigratedIsFinal | server/migrations.go:33-81 | After the marker is written, running the migration again changes nothing; the marker is the last write of every plan. |
| MigrationResults.UserRepair | server/migrations.go:108-182 | From any store, each mapped Mattermost user's reverse entry ends naming the last Matrix user in listing order that maps to it, and that one maps back. |
| MigrationResults.ChannelRepair | server/migrations.go:185-275 | From any store, each room key a channel's mapping names, directly or by alias resolution, ends with the last such channel in listing order. |
| MigrationResults.UnclaimedUnchanged | server/migrations.go:108-275 | Reverse keys that no entry claims, and all keys of other kinds, are unchanged. |
| MigrationResults.LoopIdempotent | server/migrations.go:108-275 | A second run of either version 1 loop leaves the store equal. |
| MigrationResults.LoopForgets | server/migrations.go:108-275 | A version 1 loop's result does not depend on what the claimed reverse keys held before. |
| MigrationResults.VersionTwoLosesNothing | server/migrations.go:291-445 | With at most one page per legacy prefix: no legacy key remains, every legacy channel has a forward mapping (a nonempty one is kept), every legacy room has a reverse mapping, and nonempty reverse mappings are kept. |
| MigrationResults.LegacyClearedIff | server/migrations.go:291-445 | Because the loops delete while paging by number, a legacy prefix is cleared if and only if it held at most 1000 keys. |
| MigrationResults.AnyPhaseReached | server/migrations.go:108-445 | Any of the four loops, over any number of keys, makes the writes of some of the keys it lists, each once, in terms of which the value of every key after it is given; a legacy loop's are exactly the keys it removes. |
| MigrationEffects.PagedIsAll | server/migrations.go:108-275 | The pages of a version 1 loop together process the whole listing once, whatever its size. |
| MigrationCounts.DMCountersAreExact | server/migrations.go:291-445 | For any number of keys the two DM counters equal the number of channels, and of rooms under either prefix, of the legacy entries moved that had no nonempty mapping, each counted once; the version 1 loops add nothing to them. |
| MigrationCounts.Version2Counts | server/migrations.go:291-445 | The same for version 2 alone. |
| Migrator.Plugin.ListKeysWithPrefix | server/testhelpers_test.go:321-348 | A page of the sorted ids under a prefix. |
| Migrator.Plugin.MigrateUserEntry | server/migrations.go:129-166 | For whichever of its reads and writes fail, writes exactly the entry's reverse mapping, unless it is read and right; counts what it wrote. |
| Migrator.Plugin.MigrateChannelEntry | server/migrations.go:207-262 | The same for the identifier's reverse mapping and, for a resolvable alias, always the room ID's. |
| Migrator.Plugin.MigrateDMEntry | server/migrations.go:315-367 | Writes the missing mappings, then deletes the legacy key; a forward mapping that cannot be written ends it, a failed reverse mapping or deletion does not. Counts what it wrote. |
| Migrator.Plugin.MigrateMatrixDMEntry | server/migrations.go:393-430 | The same for the legacy reverse prefix, where a mapping that cannot be written ends it. |
| Migrator.Plugin.MigrateMappings | server/migrations.go:108-182 | The page loop terminates whatever fails; every key of every page listed is visited in order until a page is not full, or a listing fails and is an error. Its writes and counters are exactly those of the visits. |
| Migrator.Plugin.RunMigrationToVersion1 | server/migrations.go:84-105 | The users' loop, then the channels'; an error of one ends it, and nothing is written after it. |
| Migrator.Plugin.RunMigrationToVersion2 | server/migrations.go:278-288 | The same for the two legacy loops. |
| Migrator.Plugin.RunKVStoreMigrations | server/migrations.go:33-81 | Runs the loops the marker's version calls for, read as `MarkerChoosesLoops` says (an unreadable marker is version 0), and then writes the marker; a failed listing or marker is an error. States store, writes and result for every pattern of failures. |
| Migrator.FaultlessRun | server/migrations.go:33-81 | When nothing fails the writes are the plan that the crash theorems cut, and the result counts them by purpose. |
| MigrationVersion.VersionIff | server/migrations.go:34-41 | The version of a store is the number its marker denotes in decimal, with an optional sign and leading zeros, in 64 bits; 0 if there is no marker or it denotes no number. |
| MigrationVersion.AtoiIff | server/migrations.go:38 | Reading accepts exactly the decimal spellings of 64-bit numbers, each as that number. |
| MigrationVersion.MarkerRoundTrip | server/migrations.go:34-41 | A store marked with the numeral of a 64-bit number, made by repeated division, has that version. |
| MigrationVersion.MarkerChoosesLoops | server/migrations.go:48-72 | A store marked with the numeral of n makes all four loops if and only if n < 1, the two legacy loops if and only if n = 1, and none if and only if n ≥ 2; the forced repair's "0" makes all four, and the marker left is the numeral of 2. |
| MigrationVersion.UnmarkedRunsAll | server/migrations.go:35-41 | Without a readable marker all four loops are made. |
| MigrationCounters.CountersAreExact | server/migrations.go:46-66 | Without faults: below version 1 the user and channel counters are the entries whose reverse key did not name them or that come after another asking for the same key, and the room counter the channels whose alias resolves; at version 1 all three are zero. The last two are the channels and rooms of legacy entries that get a mapping they did not have. |
| MigrationCounters.CountedAreChanged | server/migrations.go:129-262 | Where no two entries ask for one reverse key, the users or channels counted are exactly those whose reverse key the loop changes. |
| MigrationRepair.FaultyLoopVal | server/migrations.go:129-262 | Loops of version 1 under any faults: each reverse key ends up naming the last visited entry that asks for it and whose write got through, and keeps its value where there is none. |
| MigrationRepair.FailedLooksAreHarmless | server/migrations.go:148-224 | A failed look at a reverse mapping costs nothing: the store is the same as without it. |
| MigrationRepair.LegacyVisit | server/migrations.go:315-367 | The value of every key after one turn over a legacy channel, whatever of it fails. |
| MigrationRepair.LegacyRoomVisit | server/migrations.go:393-430 | The same for a legacy room. |
| Pipeline.Conservation | server/batcher.go:28-73 | In every interleaving of Add, Flush, timers and their callbacks, Enqueue, workers, fallbacks and Stop, each reaction, edit or event given is, as often as it was given, in exactly one place: pending, taken, buffered, running, in an inline fallback, or done. |
| Pipeline.StepHeld | server/queue.go:69-98 | Every single step moves work without losing or doubling any. |
| PipelineOrder.PostOrder | server/batcher.go:28-59 | Per post, the batches in the order taken followed by what is pending are the additions in order. |
| PipelineOrder.FlushAllTakesAll | server/batcher.go:62-73 | Whatever was pending for a key when FlushAll made its snapshot has been taken once FlushAll has flushed the key, whoever else flushes meanwhile. |
| PipelineOrder.RunTimed | server/batcher.go:28-59 | In every reachable state exactly the pending posts have a timer, and it is armed or its callback is under way; armed timers are never stale. |
| PipelineOrder.NothingStranded | server/batcher.go:39-59 | From every reachable state the timer of a pending post can fire, and its callback then takes exactly what is pending for it. |
| PipelineOrder.FirstTimerStays | server/batcher.go:28-43 | Until a post's batch is taken its timer is the one that the first item armed: additions neither put it off nor reorder what is pending. |
| PipelineOrder.StartOrder | server/queue.go:69-98 | However many workers there are, they start tasks in the order in which these were accepted. |
| PipelineOrder.SingleWorkerIsFifo | server/queue.go:83-98 | With one worker, work is performed in the order in which its tasks were accepted. |
| PipelineOrder.FifoIff | server/queue.go:83-98 | Every run performs work in the order of acceptance if and only if the configured number of workers is at most one, whatever the capacity. |
| PipelineOrder.TwoWorkersReorder | server/queue.go:83-98 | With two or more workers and any capacity, two tasks can be performed in the opposite order. |
| PipelineOrder.RunSound | server/queue.go:61-98 | The buffer never exceeds its capacity, started tasks have work left, and Stop returns only when every worker has. |
| PipelineOrder.StoppedIsQuiet | server/queue.go:61-66 | Once Stop has returned no worker runs anything; what is undone is pending, taken, buffered or run inline by its sender. |
| Shutdown.StopLeavesOnlyBufferedIff | server/queue.go:61-66 | At the call of Stop, when nothing new comes in: whatever else happens until it returns, exactly the buffered work is left undone if and only if at the call nothing is pending, on its way to the queue, or run inline. |
| Shutdown.DeactivationIff | server/plugin.go:165-171 | FlushAll and then Stop, as on deactivation, when nothing new comes in: nothing is pending at the call of Stop, and only buffered work is left undone if and only if no batch is then still on its way or run inline. |
| Shutdown.UndisturbedDeactivation | server/plugin.go:165-171 | With nothing else under way FlushAll can run to its end so that Stop, however it runs, leaves only buffered work undone. |
| Shutdown.OnlyBufferedRemainsIff | server/queue.go:61-66 | The same at the return of Stop. |
| PipelineOrder.BufferedIsAbandoned | server/queue.go:61-66 | After Stop has returned buffered tasks stay where they are for ever and workers do nothing more. |
| Shutdown.StopMissesFlush | server/queue.go:61-66 | A failing input, for any workers and capacity: Stop returns while a flushed batch is still on its way to the queue. |
| Batching.Batcher.constructor | server/batcher.go:18-25 | A new batcher has nothing pending and no timer. |
| Batching.Batcher.Add | server/batcher.go:28-43 | Appends to the key's batch and arms a timer only if there is none. |
| Batching.Batcher.Flush | server/batcher.go:46-59 | Takes the key's batch and timer; hands a nonempty batch, and only that, to onFlush. |
| Batching.Batcher.FlushAll | server/batcher.go:62-73 | Undisturbed, flushes every pending batch once and whole and leaves nothing pending. |
| Batching.EventQueue.Enqueue | server/queue.go:69-81 | Never blocks: hands the task to a waiting worker or appends it while there is room; with no worker waiting and a full buffer, and only then, it refuses and changes nothing. |
| Batching.EnqueueDelivers | server/queue.go:69-81 | From a matching state of the concurrent system that is one of its deliveries, handed over, buffered or refused as the queue decides, and the states match again. |
| Batching.EventQueue.Receive | server/queue.go:83-98 | A worker takes the oldest buffered task, or waits when there is none. |
| Batching.ReceiveTakes | server/queue.go:83-98 | That is a worker's step of the concurrent system, or none of its steps when the worker waits, and the states match again. |
| Batching.Plugin.ProcessReactionBatch | server/hooks.go:56-78 | A batch goes to the queue whole or, when that is full, is worked off at once in order: never both, never neither. |
| Transactions.ProcessedAtMostOnceAnHour | server/matrix_webhook.go:92-143 | Over every interleaving of handlers and two-phase cleanups: of two requests for one transaction that were both let through, the second was checked before the first was marked, or more than an hour after its mark. Without overlap, a transaction marked at t is not processed again by a request checked at or before t + 1 hour (section "Pushing events" of the Matrix Application Service API). |
| Transactions.RunConsistent | server/matrix_webhook.go:45-70 | Every mark stays on record, as itself or renewed, until it is more than an hour old, in particular across scans and deletions that other steps separate. |
| Transactions.EachEventOnce | server/matrix_webhook.go:147-166 | A marked transaction's events are queued or processed inline in order and exactly once each; a duplicate or unreadable request's never. |
| Transactions.LetThroughIff | server/matrix_webhook.go:81-143 | In every run in which no mark of a transaction is more than an hour old: a request is let through if and only if it names a transaction and no request for it was marked before this one's check. |
| Transactions.CleanupForgets | server/matrix_webhook.go:45-70 | In every interleaving, a cleanup that has finished leaves no mark that was more than an hour old when it read the clock. |
| Transactions.CleanupsStarted | server/matrix_webhook.go:136-143 | In every run cleanups are started by exactly the marks that bring the record to a multiple of a hundred, one by each. |
| Transactions.OverlapProcessesTwice | server/matrix_webhook.go:92-143 | A failing input: two overlapping requests for one transaction both dispatch its event. |
| Webhook.Handlers.CleanupOldTransactions | server/matrix_webhook.go:45-70 | Undisturbed, removes exactly the entries older than an hour. |
| Webhook.Handlers.ScanOld | server/matrix_webhook.go:48-57 | The read phase lists exactly the old entries. |
| Webhook.Handlers.DeleteOld | server/matrix_webhook.go:60-69 | The write phase, over any record, removes exactly the listed entries that are still old. |
| Webhook.Handlers.DispatchEvents | server/matrix_webhook.go:147-166 | The work of the tasks newly in the queue is one unit for each event of a first part, in order, each naming its event, and no task is empty; the rest was processed inline in order. None is lost or doubled, and nothing is inline while the queue has room. |
| Webhook.Handlers.HandleMatrixTransaction | server/matrix_webhook.go:73-175 | States status, record, queued work and inline work for every branch: wrong method, missing ID, duplicate, unreadable body, success. |
| Webhook.PerformedIsOffered | server/matrix_webhook.go:151-160 | Such tasks can be offered to the pipeline in any state, and what it is given is just their units, so that its conservation covers each event. |
| SendDelete.Client.SendMattermostPost | server/matrix/client.go:1740-1780 | Under any pattern of send failures: an error exactly when no send was acknowledged, else the first event acknowledged; a failed text ends it, a failed file is skipped; the events acknowledged are exactly the text and the files whose sends succeeded, in order, by the ghost, under the post's ID, related to the thread or to the first event, each file under its name and address as the kind its MIME type says. |
| SendDelete.SentFilesAre | server/matrix/client.go:1757-1773 | The files sent are exactly those acknowledged, each after those acknowledged before it. |
| SendDelete.Client.SendMessage | server/matrix/client.go:1708-1736 | Refuses before anything is sent when there is no token, the limiter does not let it through, or room, ghost user or content is missing; otherwise sends the post. |
| SendDelete.Client.SendEventAsUser | server/matrix/client.go:1876-1923 | An acknowledged send appends its event and returns it; an event whose acknowledgement is lost is among what others append meanwhile, and the send a failure. |
| SendDelete.DeleteReachesAllIff | server/sync_to_matrix.go:777-840 | Deleting the post, with lookup and redactions succeeding, reaches every event sent for it, whatever sends failed and whatever else the room holds, if and only if the post was unthreaded or a single event. |
| SendDelete.ThreadedFileStays | server/sync_to_matrix.go:777-840 | A failing input: a threaded post of a text and a file; deleting it leaves the file. |
| SendDelete.DeleteSparesOthers | server/sync_to_matrix.go:293-335 | Deletion redacts nothing of other senders, and of the ghost's own only the post's event and files relating to it. |
| SendDelete.DeleteTakesOwnThreadFiles | server/sync_to_matrix.go:293-335 | The ghost's own file reply in the thread of a deleted post goes with it, although it belongs to another post. |
| SendDelete.Client.GetFileEventIDsFromMetadata | server/sync_to_matrix.go:293-335 | Of the related events exactly the ghost's file messages. |
| SendDelete.Client.DeleteAllFileReplies | server/sync_to_matrix.go:272-291 | Redacts exactly those whose redaction does not fail. |
| SendDelete.Client.DeletePostFromMatrix | server/sync_to_matrix.go:777-840 | States result and redactions for every outcome: room not mapped or not found, alias not resolved, post never synced, user not found or without ghost, relations lookup failed, redactions failed. |
| NoEcho.NoEchoToMattermost | server/matrix_webhook.go:208-212 | In every run each message, edit or reaction the bridge writes on Mattermost stems from an event a Matrix user made: nothing the bridge wrote on Matrix is mirrored back. |
| EchoGuard.NoEchoToMatrix | server/sync_to_matrix.go:434-487 | In every run each event the bridge writes on Matrix has a ghost sender, is in the name of a local user, and mirrors a user's doing or the bridge's own update of a local user's post, reactions a user's reaction. An edit has passed both guards: the tracker, when asked, did not remember the version, and when it was sent its content could not be fetched or was not found unchanged. |
| EchoGuard.GuardIff | server/sync_to_matrix.go:640-655 | At any point of any run the tracker holds a version of a post if and only if some earlier step stored it and since then no delivery of the post used it up, no other version replaced it, and no cleanup dropped it as more than an hour old. |
| EchoGuard.EchoesIff | server/sync_to_matrix.go:457-470 | While a write of the bridge on Mattermost is being delivered it can be mirrored back if and only if a server is configured, it updates a post whose author is not remote, and, for a version on Matrix, the tracker did not remember it by the history up to the moment it was asked and the comparison with what Matrix shows does not find it unchanged. |
| EchoGuard.BookkeepingEchoesIff | server/sync_to_matrix.go:754-763 | For the update that records the event ID of a local user's text post, no files waiting: that comparison finds it unchanged if and only if the event can be fetched and its files be looked up, the post has no readable attachment, no file is grouped with the event, and Matrix does not show a later edit to another text. |
| EchoGuard.BookkeepingEchoes | server/sync_to_matrix.go:731-763 | Failing inputs without any fault, whatever the homeserver answers: that update of a text post with attachments echoes when the hook overtakes the storing of its timestamp, when the tracker has no room, and when a second hook delivers it after the first; not once stored, nor when the two deliveries overlap. |
| EchoGuard.TextOnlyIsSkipped | server/sync_to_matrix.go:754-763 | The same without attachments is skipped although the tracker missed it, when the homeserver answers. |
| EchoGuard.RecordingUndoesEdit | server/sync_to_matrix.go:633-641 | A failing input: recording the event ID writes the version delivered, so a user's edit made meanwhile is undone on Mattermost. |
| EchoGuard.ForeignEditEchoes | server/sync_to_mattermost.go:170-209 | A failing input, whatever the homeserver answers: handleMatrixMessageEdit does not look at the post's author and stores no timestamp, so a Matrix user's edit of a local user's post to another text comes back to Matrix as that user's edit. |
| NoEcho.StepSound | server/hooks.go:87-164 | Every step of either side keeps the invariant: ghosts of local authors for the bridge's events, remote users for its posts and reactions, and on both sides the content of what is mirrored. |
| NoEcho.FromMatrixSound | server/sync_to_mattermost.go:28-275 | What the webhook lets through is written under a remote user, traced to a user's event, and says what that event said: the converted text alone, or the one file without text, and for an edit the new text. |
| NoEcho.ToMatrixSound | server/sync_to_matrix.go:434-930 | What the hooks let through is written by the ghost of the local author it is traced to, and says what the write said. |
| BridgeContent.MatrixWritesAre | server/sync_to_mattermost.go:86-275 | In every run a post made for a Matrix event holds its converted text and no file, or its one file and no text, names the event, carries the bridge's remote ID and is by the sender's own user; an edit gives the event's text to a post of the event it edits; a reaction is by the sender's user on a post of its event. |
| BridgeContent.EditsLatest | server/sync_to_mattermost.go:186-209 | In every run an edit goes to the last post made for the event it edits, or else to the post whose ID that event carries. |
| BridgeContent.EditKeepsRest | server/sync_to_mattermost.go:191-205 | An edit changes the message of its post alone: files, event and author stay, and so does every other post. |
| BridgeContent.AcceptedIff | server/sync_to_mattermost.go:31-83 | In every run the webhook may act on a Matrix user's event if and only if it is not one of the bridge's own messages, come back, nor an empty new message, and what it edits or reacts to has a post. |
| BridgeContent.SendersApart | server/sync_to_mattermost.go:519-660 | In every run different senders have different users on Mattermost, all made by the bridge. |
| BridgeContent.BridgeEventsAre | server/sync_to_matrix.go:532-760 | In every run an event of the bridge is sent by the ghost of one write's local author and says what it said: a reaction, an edit's text for the event the post is known by, a new post's text or one of its files. |
| BridgeContent.PostIsMirrored | server/sync_to_matrix.go:532-660 | A new post is sent as its text, if it has any, and then every file, in order, under the post's ID; each but the first names the first unless in a thread, and the event ID recorded is the first one's. |
| BridgeContent.LocalWritesCross | server/hooks.go:87-164 | In every run a local user's post, edit or reaction can cross at once: its hook passes it and the room gets it, to the event the post is known by. |
| BridgeContent.DeliveriesAre | server/hooks.go:87-164 | In every run each hook delivers only writes of its kind, and nothing with the bridge's own remote ID reaches the update hook or the one of shared channels. |
| EchoGuard.ShownFilesAre | server/sync_to_matrix.go:1320-1396 | The files Matrix shows for a post are those of the messages the lookup names that are grouped with its event. |
| MatrixContent.AttachmentsNeverMatch | server/sync_to_matrix.go:727-736 | With text and no files waiting a post is found unchanged if and only if text and formatting are the same, the files could be looked up, and neither side has any: attachments, looked up without address, never match files that have one. |
| MatrixContent.IsMatrixContentIdentical | server/sync_to_matrix.go:1192-1225 | Identical exactly when the formatting is the same and either the body is and the files shown are the post's, in order, or the post is files only and the body shown names one of them. |
| MatrixContent.CompareTextContent | server/sync_to_matrix.go:1229-1281 | Same exactly when the formatting is, and the body is or a post without text shows the name of one of its files. |
| MatrixContent.AreFileAttachmentsIdentical | server/sync_to_matrix.go:1284-1317 | True exactly when the lookup succeeds and gives the same files in the same order. |
| MatrixContent.GetCurrentMatrixFileAttachments | server/sync_to_matrix.go:1320-1396 | Of the related events, in their order, the files grouped with the event. |
| MatrixContent.FilesOfAppend | server/sync_to_matrix.go:1350-1396 | The files of the events are those of a first part followed by those of the rest, so their order is the events'. |
| MatrixContent.FilesOfOne | server/sync_to_matrix.go:1350-1396 | Of a single event: its file, if it is a file message grouped with the post's event, and nothing otherwise. |
| MatrixContent.GetCurrentFiles | server/sync_to_matrix.go:710-736 | The files waiting for the post, or else its attachments that can be read, in order and without address. |
| MatrixContent.ReadableAre | server/sync_to_matrix.go:713-724 | Every attachment that can be read is there, after those read before it, and no other. |
| GhostIDs.GhostIsRecognised | server/matrix/client.go:1365-1367 | Every ghost ID the bridge builds, prefix, user, colon and server, passes the webhook's test, whatever the user's ID. |
| GhostIDs.GhostIff | server/matrix_webhook.go:258-280 | The webhook's test passes exactly the IDs that the bridge can build for some user; without a server domain, none. |
| GhostIDs.GhostRoundTripIff | server/bridge_utils.go:342-368 | The Mattermost user ID can be read back from the ghost ID if and only if it is not empty and holds no colon. |
| GhostIDs.GhostInjective | server/matrix/client.go:1365-1367 | Different users have different ghosts. |
| PendingFiles.FilesConserved | server/post_tracker.go:129-208 | Every file added for a post has left by exactly one of GetFiles, RemoveFile and expiry, or is still waiting, as often as it was added. |
| PendingFiles.OrderKept | server/post_tracker.go:129-208 | The files waiting for a post are in the order in which they were added, through removals and cleanups. |
| PendingFiles.TimedOutAreOld | server/post_tracker.go:184-195 | Only files uploaded more than thirty minutes before the cleanup expire. |
| PendingFiles.ExpiredAreOld | server/post_tracker.go:184-195 | Of a post's files a cleanup drops exactly those older than its cutoff. |
| PendingFiles.RunTidy | server/post_tracker.go:129-208 | The add counter stays below the cleanup frequency and no post is kept without files. |
| PendingFiles.TotalWithout | server/post_tracker.go:212-220 | The total is the sum over posts, in whatever order they are visited. |
| PendingFiles.PendingFileTracker.AddFile | server/post_tracker.go:129-141 | Appends the file with its upload time; every fiftieth addition, and no other, then drops what is more than thirty minutes old. |
| PendingFiles.PendingFileTracker.GetFiles | server/post_tracker.go:144-151 | Returns the post's files and forgets them. |
| PendingFiles.PendingFileTracker.RemoveFile | server/post_tracker.go:154-172 | Removes the first file with the ID, in place, and says whether there was one. |
| PendingFiles.PendingFileTracker.CleanupOldFiles | server/post_tracker.go:175-209 | Keeps the young files of every post in order; returns exactly how many went. |
| PendingFiles.PendingFileTracker.Size | server/post_tracker.go:212-220 | The number of files waiting for any post. |
| PostTracker.RecognisedForAnHour | server/post_tracker.go:35-92 | An accepted timestamp is found again until it is an hour old, whatever else is stored or deleted. |
| PostTracker.RunBounded | server/post_tracker.go:35-60 | The tracker never holds more than its maximum and its counter stays below the cleanup frequency. |
| PostTracker.Tracker.Put | server/post_tracker.go:35-60 | Refuses exactly when a full tracker has nothing old enough to give up; else stores. |
| PostTracker.Tracker.CleanupOldEntries | server/post_tracker.go:81-92 | Drops exactly the entries older than an hour and resets the counter. |
| Tables.ConvertTables | server/markdown_utils.go:46-108 | Separators are dropped, each maximal run of row lines becomes one table, every other line stays, trimmed, in its place. |
| Tables.ConversionIs | server/markdown_utils.go:46-108 | The lines that are no separators, in order, are cut into pieces without gaps, one for each line of the result: a line that is no row, trimmed, or a maximal run of row lines as one table. |
| Tables.KeptAre | server/markdown_utils.go:52-105 | Those lines are exactly the ones that are no separators, in their order. |
| Tables.GroupedIsGrouping | server/markdown_utils.go:52-105 | The blocks hold the kept lines in order, each once, and their tables are the maximal runs of rows. |
| Tables.GroupingUnique | server/markdown_utils.go:52-105 | There is only one way to group lines so. |
| Tables.HeadsAreHeaders | server/markdown_utils.go:46-175 | For any lines whose cells hold no header tag, each table of the result is the rows of one maximal run of row lines, each once and in order: those whose next raw line is a separator between the head's tags, then the others between the body's. |
| Tables.TableIsRun | server/markdown_utils.go:46-108 | Each table of the pass is made of one maximal run of row lines, whatever their cells hold. |
| TableStrings.RowIsHeadIff | server/markdown_utils.go:126-159 | A row counts as head exactly when it was made a header or a cell itself holds a header tag. |
| TableStrings.SeparatorIff | server/markdown_utils.go:111-123 | A separator has a pipe and a dash and nothing but pipes, spaces, dashes and colons. |
| TableStrings.ProcessTableRow | server/markdown_utils.go:126-143 | A row is its cells in order, each between the tags of a header or of data. |
| TableStrings.BuildHTMLTable | server/markdown_utils.go:146-175 | The table is the rows that hold a header tag, in order, between the head's tags, then the other rows, in order, between the body's; a part without rows is left out. |
| TableStrings.TableIs | server/markdown_utils.go:165-174 | That text, for any rows, from the header tag alone. |
| TableStrings.RowIs | server/markdown_utils.go:130-142 | That text of a row, from its cells. |
| TableStrings.CellsAre | server/markdown_utils.go:127-139 | The cells are what stands between the pipes once the spaces and pipes around the line are gone, each trimmed, one for each part. |
| TableStrings.TrimIff | server/markdown_utils.go:55-139 | A string is the trimmed one if and only if only characters to be cut were taken, from both ends, and none is left there. |
| TableStrings.SplitIff | server/markdown_utils.go:129 | The parts are the only ones that hold no separator and, joined by it, give the string. |

## Left out

- RateLimit.TokenBucket.Wait: no competing callers (the code promises no fairness), and a cancellation at the very instant of a wake-up counts as the wake-up. A limiter that can admit nothing more must have a context that ends, and at most a thousand million tokens a second: otherwise the code waits, or without burst spins, for ever.
- RateLimit.WaitIsExact: reals for floating point; only the truncation to whole nanoseconds is modelled.
- RateLimit.WindowBound: parameters are nonnegative, as in all presets.
- RoomLookup.BoundedStaleness: the time between a thread's store access and its cache access is a bound given with the run.
- MigrationPages.CrashSafeIffAnySize: no channel with an empty ID and no empty forward mapping that a legacy entry would fill; alias resolution does not change across the crash.
- MigrationPages.CrashSafeFromVersion1Iff: no legacy channel with an empty ID.
- MigrationPages.AnyCrashesIff: the same conditions on IDs.
- MigrationResults.AnyPhaseReached: no legacy channel with an empty ID, in the first legacy loop.
- MigrationCounts.DMCountersAreExact: no legacy channel with an empty ID; only a completed run counts.
- MigrationCounts.Version2Counts: no legacy channel with an empty ID.
- MigrationCounters.CountersAreExact: the same; where entries share a reverse key more may be counted than keys change.
- MigrationVersion.VersionIff: a plugin of 64 bits.
- MigrationResults.VersionTwoLosesNothing: at most one page per legacy prefix and no legacy channel with an empty ID; AnySizeLosesNothing states what holds beyond.
- Migrator.Plugin.MigrateMappings: one method for the four loops, whose bodies are methods of their own; a fault is a whole read, write or listing that fails without effect.
- Migrator.Plugin.ListKeysWithPrefix: the listing of the in-memory store; the production store's listing is not part of this model.
- Pipeline.Conservation: an attempt that fails inside the remote call counts as done, since the code only logs it; goroutine scheduling is any order of the steps.
- PipelineOrder.NothingStranded: says a flush is always possible, not when the runtime performs it.
- Transactions.ProcessedAtMostOnceAnHour: requests are already authenticated; reading the body is one step that succeeds or fails.
- SendDelete.DeleteReachesAllIff: the relations lookup is complete; the homeserver's paging of relations is not modelled.
- SendDelete.Client.SendEventAsUser: the homeserver's deduplication of transaction IDs; the code makes a new one for every send.
- SendDelete.Client.SendMattermostPost: contents other than kind, body, formatted body, file address, relation, sender and post ID; the homeserver gives each event an ID of its own.
- EchoGuard.NoEchoToMatrix: deletions, joins and profile updates; users and posts are not removed.
- EchoGuard.EchoesIff: an edit's comparison and its sending are one step; all timestamps are readings of one clock, and the tracker is not shared between servers.
- EchoGuard.BookkeepingEchoesIff: a message is converted for Matrix in one way, whatever users it mentions are called by then; the files grouped with the event have addresses.
- BridgeContent.PostIsMirrored: the files are those waiting for the post when it is sent, which the pending-file tracker holds.
- BridgeContent.LocalWritesCross: an edit is taken whose event cannot be fetched for comparison; EchoesIff and BookkeepingEchoesIff say what a successful one stops.
- BridgeContent.MatrixWritesAre: replies and threads, and the upload of a file, are not modelled.
- NoEcho.NoEchoToMattermost: Matrix-initiated direct messages, which create channels but no posts.
- Tables.ConvertTables: works on the lines; splitting and joining at line breaks is not modelled. The row test counts characters where the code counts bytes, which differ for no line with a pipe.
- HTTP, JSON, media, profiles, avatars, spaces, slash commands, configuration, metrics and logging: no state of interest.
- Regular-expression passes of the Markdown converter, the HTML library and the emoji tables: in engines and data.
- Mirror mode, user overrides, creation of DM rooms and usernames: foreign calls and side conditions.
- Retries of failed tasks and the final-failure callback: the queue has neither in use.
