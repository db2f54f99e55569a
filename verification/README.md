# Verified models of the storage engine's hard parts

A Dafny model of seven components of the engine, with proofs of what each of them is for:

* **The compaction iterator** (`Records`, `SnapshotStripes`, `Compaction`, `Compactable`, `Rewriting`,
  `CompactionSteps`, `ConflictChecks`, `Surviving`, `SurvivingVersions`, `CompactionIterator`, `CompactionRun`). A class
  that rewrites a sorted stream of versioned records. Whatever it drops, cancels, clears or zeroes, a read at any
  snapshot or at the tip answers the same from the output over the older data as from the input over the older data,
  and a write that transactions check against still shows, but for one case that is pinned down exactly. Which
  versions it puts out is told from the input alone: `Survives` says of each whether it stays.
* **The SuperVersion cache** (`SuperVersions`, `SuperVersionSafety`, `SuperVersionReturns`). A transition system over any number of
  threads with thread-local slots, atomic exchanges, a per-slot scrape and an install under the mutex.
* **The clock cache shard** (`ClockFlags`, `ClockCache`, `ClockCacheSafety`, `ClockCacheSequential`,
  `ClockCacheSweep`, `ClockCacheLookups`, `ClockCacheUpdates`, `ClockCachePinned`, `ClockCacheTimely`,
  `ClockCacheWords`). A transition system whose steps are the atomic operations on the flag words and on the shared
  counters.
* **The LRU cache shard** (`LruState`, `LruSteps`, `LruOps`, `LruSparing`, `LruShard`), which runs on its linked ring of entries
  (`LruList`) and its chained hash table (`LruHandleTable`). `LruList` proves the pointer ring to be a sequence with a
  boundary, `LruHandleTable` proves the array of chains to be a map, `LinkedShard` keeps the two together with the
  state they stand for, and every operation of the shard, in any order, takes its steps on them.
* **The inheritance tree purge** (`InheritanceTree`, `InheritanceJobs`) and **the deeper-level cursors** (`Compaction`).
* **The compaction picker** (`LevelFiles`, `CompactionInputs`, `InputRanges`, `RunningCompactions`,
  `CompactionChoices`, `Sanitizing`, `CompactionPicker`, `CompactionPickerOrder`).
* **The levels of the store** (`LevelStore`, `CompactedStore`), where picker and iterator meet: what the picker
  starts is what the iterator may run over, the output goes in place of the inputs, and over any run of compactions
  versions stay in order from level to level and no reader sees a difference.

`Tally` holds the sums that all reference and charge counts are stated with.

## How the source is read

* User keys are integers under their order, which stands for any total order of the user comparator. Sequence
  numbers are 56 bits wide; counters, charges and sizes are unbounded.
* An atomic operation is one step, sequentially consistent. A thread may be interrupted between any two steps, so
  a scrape is a step for each slot, and a lookup in the clock cache is a table search, a compare-and-swap on the
  flags, and a second look at the key.
* `assert`s of the source on the state that is modelled are kept: an action of the transition systems carries the
  assertions of the code it stands for (`AssertionsHold`), and in the classes and methods they are `assert`
  statements or stated in contracts. Null checks on list pointers are part of the ring's invariant instead.
* A snapshot number of 0 collides with the iterator's "no snapshot yet" (`db/compaction_iterator.cc:411-412` and
  `487`). The model asks for less than positive snapshots: 0 may be listed if no input record has sequence number 0.
* The iterator promises a key's reads if the key has no SingleDelete in the input, or if it keeps the SingleDelete
  discipline: never a Delete, and never a Put directly over a Put, in the input or below. That is wider than strict
  alternation, since repeated SingleDeletes are allowed, and the output keeps it.
* The write-conflict snapshot is one of the snapshots or the tip, as `db/snapshot_impl.h:98-121` provides.
* Mask and remainder: `hash & (length_ - 1)` is modelled as the bitwise and, and proved to be the remainder.
* The picker's view of the version (levels, files, which files are flagged, in which order to try them) is a
  parameter of each pick, so that it may change freely from pick to pick. What is asked of it: levels below 0 are
  sorted, file numbers are unique, a file that is being compacted stays on its level, and a file that is flagged
  for compaction is not being compacted, as the source asserts (`db/compaction_picker.cc:2238` and `2483`).
* `CompactFiles` takes files from levels deeper than its output level, although the range check that precedes it
  covers levels 0 to the output level only (`db/compaction_picker.cc:1693-1796`), and asserts afterwards that nothing
  overlaps (`db/compaction_picker.cc:610-611`). The assertion does not always hold: `DeeperInputConflicts` is a call
  after which two running compactions write one range of a level. `CompactFiles` states when it holds.
* `pinned_usage_` moves in an atomic operation of its own, after the flag word, by the charge as it is then
  (`cache/clock_cache.cc:441-463`). Once the last reference is gone the handle may be filled again before the charge
  is read: `PinnedUsageDrifts` is such a run. `PinnedUsageIsExactIff` and `PinnedUsageIsExactWhenever` say when the
  counter is exact, in terms of what a subtraction reads and of what an insert takes from the recycle bin.
* The write-conflict rule of the iterator is stated for SingleDelete only (`db/compaction_iterator.cc:510-522`), but a
  bottommost Delete that is skipped (`db/compaction_iterator.cc:693-717`) takes the last trace of a write with it:
  `VanishedWrite` is such a compaction, and `Compact` says that there is no other case.
* The iterator records that the current key has been put out (`has_outputted_key_`) in `Next` and not in `SeekToFirst`
  (`db/compaction_iterator.cc:224-273`), so that the very first output of a compaction is not on record: behind it a
  late SingleDelete and the Put under it stay where behind any other output of their key they go.
  `PairStaysBehindFirst` and `PairGoesBehindSecond` are the two cases, and `DisciplinedSingleDeleteSurvives` says
  exactly when such a pair stays.
* The picker goes no further than the first start it finds (`db/compaction_picker.cc:2551-2570`): if that cannot be
  completed, there is no compaction, although a later start might have been completed. `FirstStartOnly` is such a
  pick. `PickCompaction` says what the first start is and what comes of it.
* A store is its levels of files and what each file holds. Versions of a key get older from level to level, which is
  what lets a read stop at the first level that has the key (`db/version_set.cc:106-111`). No file lies between the
  start level and the output level of a compaction, since level 0 is compacted into the base level, above which all
  levels are empty (`db/version_set.cc:2831-2891`).
* The purge of the inheritance tree takes entering a sibling for leaving a leaf of the same number. What it writes is
  the pruned tree exactly if that does not happen, and `InheritanceJobs` shows that along a history of jobs it never does.

## Model

| member | source | states |
|---|---|---|
| `CompactionRun.Compact` | db/compaction_iterator.cc:224-273 | Over its whole input the iterator writes exactly what `Survives` leaves of it, in order, with the numbers zeroed that the guard allows; the output is strictly increasing in internal-key order; every promised key reads the same at every snapshot and at the tip as before, over the same older data; every disciplined key stays disciplined; and of every key in range whose newest version is later than the write-conflict snapshot the output shows such a version, if and only if that version is not a skippable bottommost Delete over its own stripe alone; and every output is a version of the input. |
| `SurvivingVersions.PlainVersionSurvives` | db/compaction_iterator.cc:642-717 | Of a key in range without SingleDelete, a version is put out, unchanged, if and only if no newer version of the key is in its stripe, it is not a Delete up to the earliest snapshot that is over nothing and not kept for incremental snapshots, and it is not an unneeded bottommost Delete without a version of the key in an older stripe. |
| `SurvivingVersions.DisciplinedPutSurvives` | db/compaction_iterator.cc:499-508 | Of a disciplined key in range, a Put is put out unchanged unless the version before it is in its stripe; that is then a SingleDelete, the two are put out together or not at all, and the Put without its value. |
| `SurvivingVersions.DisciplinedSingleDeleteSurvives` | db/compaction_iterator.cc:509-641 | Of a disciplined key in range, a SingleDelete is put out if and only if it ends its key and is not over nothing, or an older stripe follows, or a Put of its stripe follows and it is late, with nothing but SingleDeletes of its stripe before it, or with fewer than two outputs before it. |
| `SurvivingVersions.ShownIff` | db/compaction_iterator.cc:510-532 | Before a late SingleDelete that no Delete sweeps away, a version of the key has been put out if and only if the newer versions are not all SingleDeletes of its stripe. |
| `SurvivingVersions.PairStaysBehindFirst` | db/compaction_iterator.cc:224-229 | A late SingleDelete and the Put under it, right behind the very first output: both stay, the Put without its value. |
| `SurvivingVersions.PairGoesBehindSecond` | db/compaction_iterator.cc:267-271 | The same pair, with one output of another key in front: both go. |
| `Surviving.StandsAfter` | db/compaction_iterator.cc:497-779 | Deciding on one more version as `Survives` does keeps what the iterator stands for: outputs so far are what survives of the input used up, and the next version is decided on by itself. |
| `Surviving.PairStands` | db/compaction_iterator.cc:568-591 | A SingleDelete that is not late, or whose key is on record, goes with the version under it, and both are what `Survives` drops. |
| `Surviving.SweepStands` | db/compaction_iterator.cc:693-717 | A skipped bottommost Delete leaves nothing of its stripe, and itself exactly if the key has an older stripe. |
| `CompactionRun.SurvivorsPastEnd` | db/compaction_iterator.cc:372-376 | Nothing at or past the end key survives. |
| `CompactionRun.VanishedWrite` | db/compaction_iterator.cc:693-717 | A compaction after which a transaction no longer finds the write it checks against: a Delete later than the write-conflict snapshot, alone at the bottommost level, leaves no version of its key. |
| `CompactionRun.UnderNewerVersions` | db/compaction_iterator.cc:499-641 | Reads of every promised key are kept when the store also holds newer versions of the key on top, and where the whole history is disciplined it stays so. |
| `ConflictChecks.AllShown` | db/compaction_iterator.cc:510-532 | Once the input in range is used up, a key with a late write shows one in the output, zeroed numbers and all, or is the exception and has no version there at all. |
| `ConflictChecks.AttendsShows` | db/compaction_iterator.cc:497-779 | Whatever a step does that shows the late write, leaves it to the SingleDelete that follows, or lets the whole key vanish, keeps that invariant. |
| `ConflictChecks.PairAttends` | db/compaction_iterator.cc:568-591 | A SingleDelete and the version under it are cancelled only if the key already shows a late write or has none. |
| `ConflictChecks.VanishAttends` | db/compaction_iterator.cc:693-717 | The Delete that is skipped at the bottommost level takes every version of its key with it, and all of them are in its stripe. |
| `ConflictChecks.AllDerived` | db/compaction_iterator.cc:763-821 | Every output has key, kind and number of a version used up so far, or number 0 where the guard of zeroing holds for that version. |
| `CompactionRun.FinalOrder` | db/compaction_iterator.cc:798-821 | Zeroing sequence numbers keeps the output strictly ordered, because a zeroed version is the last of its key. |
| `CompactionRun.FinalReads` | db/compaction_iterator.cc:342-796 | Once the input in range is used up, reads of promised keys from the zeroed output are those of the input. |
| `CompactionRun.FinalDiscipline` | db/compaction_iterator.cc:534-540 | A key that was disciplined over what lies below is still disciplined after the rewrite, so that it may be compacted again. |
| `CompactionRun.PastEnd` | db/compaction_iterator.cc:372-376 | Input at or past the end key contributes no version and no answer to keys in range. |
| `SnapshotStripes.FindEarliestVisibleSnapshot` | db/compaction_iterator.cc:919-940 | The answer is the first view that sees the sequence number, and the previous snapshot is the last one that does not, 0 for none. |
| `SnapshotStripes.SameStripe` | db/compaction_iterator.cc:642-647 | Two versions with the same earliest view are seen by exactly the same views. |
| `Compactable.CoveredIsHidden` | db/compaction_iterator.cc:642-655 | A version older than a kept one of its key in the same stripe answers no view. |
| `Compactable.ReplaceCovered` | db/compaction_iterator.cc:642-655 | A run of covered records may be dropped or altered without changing any promised read. |
| `Compactable.DropTombstoneRun` | db/compaction_iterator.cc:660-717 | A tombstone may go together with all it hides when no older version of its key would come to light. |
| `Compactable.PrevSeparates` | db/compaction_iterator.cc:552-557 | Comparing an older version with the previous snapshot decides exactly whether the two are in one stripe. |
| `Compactable.EarliestStripe` | db/compaction_iterator.cc:660-661 | All versions up to the earliest snapshot form one stripe. |
| `Compactable.LookupPrepared` | db/compaction_iterator.cc:798-821 | Zeroing changes the visibility of no record for any view. |
| `Compactable.ZeroedExactly` | db/compaction_iterator.cc:798-821 | A number is zeroed exactly if every snapshot and the tip see the record, the compaction is bottommost, files are not ingested behind, and the record is not kept for incremental snapshots. |
| `Compactable.NoPutUnderPut` | db/compaction_iterator.cc:574-591 | In a disciplined history what comes under a Put is no Put, so cancelling the pair above it resurrects nothing. |
| `Rewriting.Task.RewrittenHidden` | db/compaction_iterator.cc:642-655 | Dropping a record that a kept one covers keeps all promised reads and the discipline. |
| `Rewriting.Task.RewrittenCleared` | db/compaction_iterator.cc:499-508 | Emitting a covered record with another value keeps all promised reads. |
| `Rewriting.Task.RewrittenRun` | db/compaction_iterator.cc:693-717 | Dropping a Delete with the versions it hides keeps all promised reads, where nothing older comes up. |
| `Rewriting.Task.DropRepeatedSingleDelete` | db/compaction_iterator.cc:558-567 | Of two SingleDeletes in one stripe the first may go. |
| `Rewriting.Task.DropPair` | db/compaction_iterator.cc:568-591 | A SingleDelete and the version under it in the same stripe may go together. |
| `Rewriting.Task.DropLastSingleDelete` | db/compaction_iterator.cc:611-637 | A SingleDelete that every view sees may go when nothing is under it in the input or below. |
| `CompactionSteps.HiddenKeeps` | db/compaction_iterator.cc:642-655 | The step that drops a hidden record keeps the iterator's invariant. |
| `CompactionSteps.ObsoleteDeleteKeeps` | db/compaction_iterator.cc:660-692 | The step that drops an obsolete Delete keeps it, with the later versions of the key still hidden. |
| `CompactionSteps.OutputKeeps` | db/compaction_iterator.cc:763-779 | The step that outputs a record keeps it. |
| `CompactionSteps.ClearKeeps` | db/compaction_iterator.cc:499-508 | The step that outputs the Put after a SingleDelete without its value keeps it. |
| `CompactionSteps.BottommostDeleteDropped` | db/compaction_iterator.cc:693-717 | At the bottommost level a Delete with nothing left of its key may be skipped with all versions in its stripe. |
| `CompactionSteps.BottommostDeleteOutput` | db/compaction_iterator.cc:711-717 | Where an older stripe of the key follows, the Delete is output and only the versions between are skipped. |
| `CompactionSteps.RepeatedSingleDeleteKeeps` | db/compaction_iterator.cc:558-567 | The step over a repeated SingleDelete keeps the invariant. |
| `CompactionSteps.PairKeeps` | db/compaction_iterator.cc:568-591 | The step that cancels a SingleDelete with the version under it keeps the invariant. |
| `CompactionSteps.SingleDeleteOutput` | db/compaction_iterator.cc:592-610 | The step that outputs a SingleDelete keeps it, with the Put under it to come next if it is in the same stripe. |
| `CompactionSteps.SingleDeleteEnds` | db/compaction_iterator.cc:611-637 | The step at a SingleDelete with no further version of its key keeps it, output or not. |
| `CompactionIterators.CompactionIterator.constructor` | db/compaction_iterator.cc:134-211 | A new iterator has produced nothing and satisfies its invariant. |
| `CompactionIterators.CompactionIterator.SeekToFirst` | db/compaction_iterator.cc:224-229 | The first output, or none only if no input is left in range. |
| `CompactionIterators.CompactionIterator.Next` | db/compaction_iterator.cc:231-273 | One more output, or none only if no input is left in range; the invariant and what was output before are kept. |
| `CompactionIterators.CompactionIterator.NextFromInput` | db/compaction_iterator.cc:342-796 | Consumes input up to the next output; input and outputs together still stand for the same reads, and the outputs are what survives of the input used up. |
| `CompactionIterators.CompactionIterator.TakeRecord` | db/compaction_iterator.cc:399-491 | The current key, its stripe and the previous snapshot are those of the record taken up; the remembered stripe is that of the record exactly if the record before it is of the same key and stripe; and the key is on record exactly if the last output is of it and is not the first of all. |
| `CompactionIterators.CompactionIterator.ProcessRecord` | db/compaction_iterator.cc:497-779 | Whichever rule applies to a record, the invariants hold after it, input is used up, and it is put out exactly if it survives, with what survives of it. |
| `CompactionIterators.CompactionIterator.ClearAndOutput` | db/compaction_iterator.cc:499-508 | The record under an output SingleDelete is of the same stripe, and for a promised key a Put; it comes out with an empty value. |
| `CompactionIterators.CompactionIterator.CompactSingleDeletion` | db/compaction_iterator.cc:509-641 | All ways of treating a SingleDelete keep the invariants and put out what survives. |
| `CompactionIterators.CompactionIterator.PairSingleDeletion` | db/compaction_iterator.cc:552-610 | The cases where an older version of the key follows: repeat, cancel, output with the Put to follow, output. |
| `CompactionIterators.CompactionIterator.EndSingleDeletion` | db/compaction_iterator.cc:611-637 | The case where none follows: dropped only if every view sees it and nothing is below. |
| `CompactionIterators.CompactionIterator.DropHidden` | db/compaction_iterator.cc:642-655 | Drops a record in the stripe of its predecessor. |
| `CompactionIterators.CompactionIterator.DropObsoleteDeletion` | db/compaction_iterator.cc:660-692 | Drops a Delete that every view sees over nothing. |
| `CompactionIterators.CompactionIterator.DeletionIsObsolete` | db/compaction_iterator.cc:660-667 | True exactly if the Delete is up to the earliest snapshot, not kept for incremental snapshots, and over nothing. |
| `CompactionIterators.CompactionIterator.SkipBottommostDeletion` | db/compaction_iterator.cc:693-717 | Skips the versions in the Delete's stripe and outputs the Delete only if an older stripe of the key follows. |
| `CompactionIterators.CompactionIterator.PrepareOutput` | db/compaction_iterator.cc:798-821 | An output is zeroed exactly under the guard, and then is a Put: no Delete or SingleDelete reaches the assertion. |
| `Compaction.AdvanceCursor` | db/compaction.cc:485-496 | A cursor stops at the first file that may hold the key and passes only files that end before it. |
| `Compaction.KeyNotExistsBeyondOutputLevel` | db/compaction.cc:471-501 | With remembered cursors that are not past the key, the answer is that of a search of all deeper files, and the cursors are again not past it. |
| `Compaction.AnswerAll` | db/compaction_iterator.h:215-221 | For any non-decreasing keys every answer is that of a fresh full search, and all cursor moves together are at most the number of deeper files. |
| `SuperVersionSafety.StepInv` | db/column_family.cc:1141-1281 | Every enabled action of any thread, of an install or of a scrape keeps the reference invariant. |
| `SuperVersionSafety.ActionIsSafe` | db/column_family.cc:373-391 | In an invariant state no assertion of the code behind an enabled action fails. |
| `SuperVersionSafety.RunsAreSafe` | db/column_family.cc:1154-1281 | In every interleaving all assertions hold: no slot is found in use at Get, a return fails only on kSVObsolete, no reference is dropped below zero, a scrape never drops the last one, Cleanup finds none. |
| `SuperVersionSafety.RunsCount` | db/column_family.cc:368-402 | In every reachable state the count equals the uses as current, as being replaced, in slots, by threads and as extra references; Cleanup ran at most once, and only on what nothing uses or owes. |
| `SuperVersionSafety.HeldIsLiveAndFresh` | db/column_family.cc:1154-1200 | What Get returns is alive while it is held and no older than the number current when the call began. |
| `SuperVersionSafety.SlotsHoldCurrent` | db/column_family.cc:1202-1218 | Outside an install every slot that holds a SuperVersion holds the current one. |
| `SuperVersionReturns.ReturnPutsBack` | db/column_family.cc:1202-1218 | In every run, a return fails if and only if a scrape has got to the slot of the thread since its Get began; otherwise the slot has what the Get returned, and no reference is dropped. |
| `SuperVersionReturns.GetReturnsCurrent` | db/column_family.cc:1166-1197 | In every run, whenever a Get gets what it returns, that is the SuperVersion current at that moment. |
| `SuperVersionReturns.CachedGet` | db/column_family.cc:1166-1183 | In every run, a Get that finds the current SuperVersion in its slot, with none published meanwhile, returns it without taking the mutex. |
| `SuperVersionSafety.NothingLeaks` | db/column_family.cc:1226-1263 | When all threads are idle and nothing is handed out, every replaced SuperVersion has been cleaned up. |
| `SuperVersionSafety.GetCounts` | db/column_family.cc:1166-1197 | After every action of a Get, the count of each SuperVersion is again the number of its uses. |
| `SuperVersionSafety.ReturnCounts` | db/column_family.cc:1202-1218 | So it is after an action of a Return, or of a user who takes one more reference. |
| `SuperVersionSafety.PublishInv` | db/column_family.cc:1230-1237 | Publishing a new SuperVersion keeps the invariant; the old one is counted as being replaced. |
| `SuperVersionSafety.ScrapeSlotInv` | db/column_family.cc:1265-1281 | Each single exchange of a scrape keeps the invariant, whatever threads do between exchanges. |
| `ClockFlags.WordDecodes` | cache/clock_cache.cc:274-282 | The fields in-cache, usage and count, and the packed word, determine each other. |
| `ClockFlags.OperationsOnWords` | cache/clock_cache.cc:431-501 | Setting and clearing a field sets and clears its bit of the word and leaves the rest; one more or one less reference adds or takes the unit. |
| `ClockFlags.StoredWords` | cache/clock_cache.cc:488-492 | The words stored and compared with are those of no flags, of in cache and unreferenced, and of in cache with one reference; no other fields have them. |
| `ClockCacheWords.ActionsOnWords` | cache/clock_cache.cc:431-501 | In every state of the invariant an action is the atomic operation of the source on the flag word of one handle: compare-and-exchange to one more reference or to no flags, fetch-or, fetch-and or fetch-sub; and no other word changes. |
| `ClockCacheWords.FillOnWords` | cache/clock_cache.cc:558-573 | An insert stores the word of in cache, with one reference if the caller keeps one, in the handle it fills, and changes no other. |
| `ClockCacheSafety.ActionIsSafe` | cache/clock_cache.cc:407-418 | In an invariant state no assertion fails: what is recycled is out of cache and unreferenced and not in the bin, a count given up is positive, an evicted entry is in the table. |
| `ClockCacheSafety.StepInv` | cache/clock_cache.cc:431-679 | Every enabled action, lock-free or under the mutex, keeps the invariant. |
| `ClockCacheSafety.RunsAreSafe` | cache/clock_cache.cc:431-501 | In every interleaving a handle is recycled only out of cache, unreferenced and outside the bin. |
| `ClockCacheSafety.RecycledOnce` | cache/clock_cache.cc:407-418 | In every reachable state a handle has been recycled once for every occupancy that is over, and one that is in use is not in the bin. |
| `ClockCacheSafety.ConsistentWhenFree` | cache/clock_cache.cc:544-588 | Whenever the mutex is free, usage is the sum of the charges outside the bin, and the table holds exactly the in-cache handles under their keys. |
| `ClockCacheSafety.HeldIsStable` | cache/clock_cache.cc:614-637 | No action changes key or charge of a handle that a user holds. |
| `ClockCacheLookups.LookupAnswers` | cache/clock_cache.cc:614-637 | In every run, the last step of a lookup for a key gives out the handle it has pinned if the entry behind it has that key, and nothing otherwise, whatever happened since the table was searched. |
| `ClockCacheLookups.LookupFinds` | cache/clock_cache.cc:614-637 | In every run, a lookup during which nobody enters a section under the mutex gets to its last step only if the table has the key, and then gives out the handle that the table has. |
| `ClockCacheLookups.ReferenceSucceeds` | cache/clock_cache.cc:431-449 | In every run, the reference that such a lookup takes succeeds. |
| `ClockCacheLookups.LookupAlone` | cache/clock_cache.cc:614-637 | The three steps of a lookup in a row, with the mutex free, give out the handle in the table, and nothing changes if the table has none. |
| `ClockCacheLookups.HandlesGivenOut` | cache/clock_cache.cc:431-449 | In every run, users come to hold one more handle by the last step of a lookup with the right key, by a reference to one they hold, by an insert that asks for it, and in no other way; and then just that one. |
| `ClockCacheUpdates.InsertEnds` | cache/clock_cache.cc:544-588 | In every run, an insert ends with its entry in the cache under its key, with its charge in the usage and in the hands of the caller if that was asked for; or it is turned down, with the limit strict or no handle asked for, after an eviction that failed, and changes nothing more. What fits when it begins is not turned down. |
| `ClockCacheUpdates.EraseEnds` | cache/clock_cache.cc:656-667 | In every run, an erase of a key that the table has leaves the table without the key and the entry out of the cache, and changes no other entry. |
| `ClockCacheUpdates.EraseMisses` | cache/clock_cache.cc:656-667 | An erase of a key that the table does not have does nothing. |
| `ClockCacheUpdates.ClearEnds` | cache/clock_cache.cc:669-679 | In every run, clearing the shard leaves nothing in the table and no entry in the cache. |
| `ClockCacheUpdates.LimitsAreThoseSet` | cache/clock_cache.cc:529-542 | In every run, capacity and strictness are those last set. |
| `ClockCacheSafety.StepWithinLimit` | cache/clock_cache.cc:548-557 | No action takes usage, with what is being inserted, above the capacity under the strict limit. |
| `ClockCacheSafety.StrictLimitHolds` | cache/clock_cache.cc:544-588 | In runs that keep the strict limit and do not lower the capacity, usage never exceeds it. |
| `ClockCacheSafety.TryEvictInv` | cache/clock_cache.cc:488-501 | A turn of the clock keeps the invariant whether it evicts or clears the usage bit. |
| `ClockCacheSafety.UnsetInv` | cache/clock_cache.cc:473-486 | The invariant holds after the in-cache bit of a handle is cleared, with the recycling that may entail. |
| `ClockCacheSafety.RecycleLastInv` | cache/clock_cache.cc:461-469 | The invariant holds after the last release of a handle out of cache has recycled it. |
| `ClockCacheSequential.EvictFromCache` | cache/clock_cache.cc:503-527 | Eviction ends within two turns for each handle; success means the charge fits; after a failure every in-cache handle is referenced if and only if there was usage to begin with or they were all referenced already; with usage 0 nothing is swept and the answer is whether the charge alone fits. |
| `ClockCacheSequential.ZeroChargeSurvives` | cache/clock_cache.cc:505-508 | A run after which eviction has failed with an unreferenced entry of charge 0 still in the cache. |
| `ClockCacheSweep.SweepEnds` | cache/clock_cache.cc:503-527 | In every interleaving, from the action that begins an eviction to its end at most two handles are tried for each in the list, and the list keeps its length. |
| `ClockCacheSweep.SweepStep` | cache/clock_cache.cc:511-525 | Every action, of the sweep or of another thread, leaves the hand where the number of tries says. |
| `ClockCachePinned.PinnedUsageIs` | cache/clock_cache.cc:431-471 | In every interleaving the counter is the charge of all referenced handles, but for what threads have still to add or take off and for the sum of what late subtractions have misread. |
| `ClockCacheTimely.PinnedUsageIsExactIff` | cache/clock_cache.cc:441-463 | Of every run: the counter is exact in each of its states, but for what threads have still to add or take off, if and only if each late subtraction reads the charge that was given up. |
| `ClockCacheTimely.PinnedUsageIsExactWhenever` | cache/clock_cache.cc:558-573 | Of every run: the counter is exact in each of its states, and would be whichever thread settled next, if and only if an insert that takes from the bin a handle with a subtraction pending gives it the charge it had. |
| `ClockCacheTimely.PinnedUsageIsExact` | cache/clock_cache.cc:558-573 | In a run where no insert takes from the bin a handle with a subtraction pending, nothing is misread and the counter is exact throughout; with nothing pending and the mutex free it is the charge of all referenced handles. |
| `ClockCacheTimely.AtOnceNeverRefills` | cache/clock_cache.cc:458-463 | In a run where nobody acts while a subtraction is pending, no insert takes a handle with one from the bin. |
| `ClockCacheTimely.SettledRunIsExact` | cache/clock_cache.cc:431-471 | Every run of the cache, taken with each counter operation right after the one on the flags, is such a run, and the counter is exact in all of its states. |
| `ClockCacheTimely.WorthStep` | cache/clock_cache.cc:558-573 | From a state where every pending subtraction would read the right charge, one step leads to another exactly if it fills no handle again with a different charge under one. |
| `ClockCachePinned.PinnedUsageDrifts` | cache/clock_cache.cc:458-463 | A run that ends at rest with the counter wrong: the handle was erased and filled again before the subtraction read its charge. |
| `ClockCachePinned.UsedIsStable` | cache/clock_cache.cc:441-444 | The charge that a first reference adds late is still the one it pinned, whoever acts in between. |
| `LruShards.Run` | cache/lru_cache.cc:132-465 | Any sequence of operations keeps the shard's invariant: the list holds exactly the in-cache entries with one reference; references are table membership plus handles given out; the three counters are their sums; the boundary splits the list by pool; each entry is freed once; and over capacity the list is empty. With the strict limit on and the capacity never lowered, usage stays within it; and the linked ring and the chained table hold that list and that map throughout. |
| `LruShards.LruShard.constructor` | cache/lru_cache.cc:104-117 | A new shard is empty and satisfies the invariant. |
| `LruShards.LruShard.MaintainPoolSize` | cache/lru_cache.cc:236-244 | Afterwards the pool fits; no more entries than it took have left it, oldest first, and nothing else changes. |
| `LruSparing.OverflowMoves` | cache/lru_cache.cc:237-243 | Each entry that leaves the high-priority pool does so because the pool with it was over its capacity. |
| `LruShards.LruShard.EnlistAndMaintain` | cache/lru_cache.cc:210-244 | The entry goes on the ring at the end of its pool, and a high-priority pool that is too large then overflows, by no more entries than it takes. |
| `LruShards.LruShard.EvictFromLRU` | cache/lru_cache.cc:247-260 | What is evicted, and freed once, is the shortest stretch of oldest entries whose going makes room for the charge, or the whole list; every other entry is as it was, and found under its key. |
| `LruSparing.Victims` | cache/lru_cache.cc:247-260 | The shortest stretch of oldest entries whose going makes room for a charge, or all there are: no shorter one does. |
| `LruSparing.VictimsGone` | cache/lru_cache.cc:250-259 | When the loop stops, what has gone is just that. |
| `LruSparing.OneMoreGone` | cache/lru_cache.cc:251-258 | When the oldest entry goes as well, the table loses its key alone, the usage its charge, and no other entry changes. |
| `LruSparing.EvictThenInsert` | cache/lru_cache.cc:387-421 | After eviction and displacement every entry but the victims and the old holder of the key is as it was, and found under its key. |
| `LruSparing.AdmittedInserted` | cache/lru_cache.cc:387-436 | What an admitted insert comes to, put together from the eviction and the entering. |
| `LruShards.LruShard.MakeRoom` | cache/lru_cache.cc:387-396 | The victims go, and the entry is admitted exactly if the charge fits beside what users hold, or the limit is not strict and a handle is asked for. |
| `LruShards.LruShard.SetCapacity` | cache/lru_cache.cc:263-276 | Keeps the invariant at the new capacity and drops no handle that is held; just the victims of that capacity go. |
| `LruShards.LruShard.SetHighPriorityPoolRatio` | cache/lru_cache.cc:313-319 | Sets the ratio and the capacity it gives the pool, and restores the bound by moving no more entries than it takes. |
| `LruShards.LruShard.Lookup` | cache/lru_cache.cc:286-299 | Finds exactly the entry the table has for the key and gives out one handle to it; nothing else changes but that it leaves the list if it was on it. |
| `LruShards.LruShard.Ref` | cache/lru_cache.cc:302-310 | One more handle to an entry; nothing else changes. |
| `LruShards.LruShard.Release` | cache/lru_cache.cc:322-359 | Takes one handle back; frees the entry exactly if it leaves the cache with it or was out already; an entry that nobody holds any more and that stays is at the new end of the pool that its priority and use call for; no other entry changes but perhaps for its pool. |
| `LruShards.LruShard.Insert` | cache/lru_cache.cc:362-438 | An entry that is admitted is in the table under its key, with its charge and priority, and in the hands of the caller or at the new end of its pool; the shortest stretch of oldest entries that makes room has gone, and the old holder of the key if the entry was admitted, and every other entry is still found under its key as it was. It is refused exactly if the charge does not fit beside what users hold and the limit is strict or no handle was asked for. |
| `LruShards.RoomAfterEviction` | cache/lru_cache.cc:391-396 | What the admission test lets in does fit after eviction, although the test leaves the list out of account. |
| `LruShards.LruShard.Erase` | cache/lru_cache.cc:441-465 | The key is no longer in the cache; its entry is freed now if nobody holds it; every other entry is as it was. |
| `LruShards.LruShard.EraseUnRefEntries` | cache/lru_cache.cc:132-153 | Frees every entry nobody holds; every other entry is as it was, and found under its key. |
| `LruShards.LruShard.GetPinnedUsage` | cache/lru_cache.cc:474-478 | The difference of the counters is the charge of all entries that are given out. |
| `LruOps.UsageSplits` | cache/lru_cache.cc:474-478 | Usage is the charges on the list plus the charges given out. |
| `LruOps.DropListedKeeps` | cache/lru_cache.cc:250-258 | Evicting a listed entry keeps the invariant. |
| `LruOps.PinKeeps` | cache/lru_cache.cc:290-297 | Giving out a handle takes the entry off the list exactly if it was on it. |
| `LruOps.UnpinListKeeps` | cache/lru_cache.cc:347-350 | The last release of a cached entry puts it on the list. |
| `LruOps.UnpinEraseKeeps` | cache/lru_cache.cc:335-346 | The last release with erasure takes it out of the cache and frees it. |
| `LruOps.DisplaceKeeps` | cache/lru_cache.cc:410-421 | An entry displaced by an insert is freed if it was on the list, or lives on with its holders. |
| `LruOps.OverflowKeeps` | cache/lru_cache.cc:237-243 | Moving the boundary by one entry keeps counters and pools in step. |
| `LruLists.LruList.constructor` | cache/lru_cache.cc:112-116 | The empty ring stands for the empty list. |
| `LruLists.LruList.MetOnce` | cache/lru_cache.cc:193-233 | Going once round a ring whose pointers agree both ways and that meets the dummy only at its end meets no node twice. |
| `LruLists.LruList.Remove` | cache/lru_cache.cc:193-201 | Unlinking an entry removes exactly it from the sequence the ring stands for; the boundary stays between the same other entries. |
| `LruLists.LruList.InsertHigh` | cache/lru_cache.cc:213-221 | The entry comes last in the sequence; the boundary does not move. |
| `LruLists.LruList.InsertLow` | cache/lru_cache.cc:223-232 | The entry comes just before the boundary, on the low-priority side. |
| `LruLists.LruList.Overflow` | cache/lru_cache.cc:237-240 | The boundary moves past one entry and never reaches the dummy. |
| `LruHandleTables.MaskIsRemainder` | cache/lru_cache.cc:70 | For a power of two the mask gives the remainder. |
| `LruHandleTables.InItsBucket` | cache/lru_cache.h:163-167 | An entry is in the bucket of its hash modulo the length and in no other. |
| `LruHandleTables.NewLength` | cache/lru_cache.cc:78-81 | A power of two from 16 up, at least one and a half times the entries, and the smallest such reached by doubling. |
| `LruHandleTables.LruHandleTable.constructor` | cache/lru_cache.cc:26-28 | A new table stands for the empty map. |
| `LruHandleTables.LruHandleTable.FindPointer` | cache/lru_cache.cc:69-75 | The slot found points to the entry the map has, or is the end of its chain if the map has none. |
| `LruHandleTables.LruHandleTable.Lookup` | cache/lru_cache.cc:39-41 | Answers as the map does. |
| `LruHandleTables.LruHandleTable.Insert` | cache/lru_cache.cc:43-57 | The map is updated at the entry's key, the old entry is returned, and there are at most as many entries as buckets. |
| `LruHandleTables.LruHandleTable.Put` | cache/lru_cache.cc:43-49 | The entry takes the old one's place in its chain, or the end of it. |
| `LruHandleTables.LruHandleTable.Remove` | cache/lru_cache.cc:59-67 | The key is removed from the map and its entry returned. |
| `LruHandleTables.LruHandleTable.Resize` | cache/lru_cache.cc:77-101 | All entries move to the buckets of the new length; the map stays the same, and the count of moved entries is the count of entries. |
| `LruHandleTables.LruHandleTable.MoveChain` | cache/lru_cache.cc:87-97 | One old chain is taken apart entry by entry; old and new chains hold the rest and the moved entries in between. |
| `LinkedShards.NewShard` | cache/lru_cache.cc:104-117 | A new ring and a new table hold the empty list and the empty map, and share no memory with anything else. |
| `LinkedShards.LinkedState.DropOldest` | cache/lru_cache.cc:249-258 | A turn of eviction on ring and table: the ring gives the oldest entry, and both then hold the state without it. |
| `LinkedShards.LinkedState.PinEntry` | cache/lru_cache.cc:286-297 | The entry leaves the ring if the cache alone held it, and both hold the state with one more handle out. |
| `LinkedShards.LinkedState.EraseEntry` | cache/lru_cache.cc:446-458 | The entry of a key leaves the table, and the ring if the cache alone holds it. |
| `LinkedShards.LinkedState.EnterEntry` | cache/lru_cache.cc:408-421 | A new entry takes its key in the table, the displaced one leaves the ring, and what was allocated is new. |
| `LinkedShards.LinkedState.DetachEntry` | cache/lru_cache.cc:335-346 | An entry that is off the ring leaves the table. |
| `LinkedShards.LinkedState.EnlistEntry` | cache/lru_cache.cc:210-233 | The entry goes on the ring where the state puts it on its list. |
| `LinkedShards.LinkedState.OverflowOldest` | cache/lru_cache.cc:237-242 | The marker moves on to the entry that changes pools in the state. |
| `InheritanceTree.BuildInheritanceTree` | db/compaction.cc:98-182 | The stack loops over the output compute the two passes file by file, with the error of the first file that cannot be read or fails verification. |
| `InheritanceTree.Verify` | db/compaction.cc:145-160 | The verifying loop accepts exactly if the stack comes back to where it was without popping the file's own number. |
| `InheritanceTree.PurgeInto` | db/compaction.cc:166-175 | The purging loop computes the purge, and never looks at the end of an empty output. |
| `InheritanceTree.VerifyDecodes` | db/compaction.cc:146-160 | A walk is accepted if and only if it is the walk of a forest, which then decodes to it. |
| `InheritanceTree.DecodeEncode` | db/compaction.cc:102-129 | Decoding the walk of a forest gives the forest back. |
| `InheritanceTree.PruneKeepsNeeded` | db/compaction.cc:102-129 | Pruning keeps a path from a root if and only if it leads to a needed file: needed files stay with all their ancestors and nothing else does. |
| `InheritanceTree.PruneShortens` | db/compaction.cc:169-171 | The walk gets shorter by twice the number of nodes dropped. |
| `InheritanceTree.DistinctSiblings` | db/compaction.cc:102-129 | Distinct file numbers make siblings differ. |
| `InheritanceTree.NumberedTwice` | db/compaction.cc:184-192 | With distinct numbers the walk is twice as long as the set of its numbers. |
| `InheritanceTree.BuildSucceeds` | db/compaction.cc:141-163 | The job succeeds if and only if every input can be read and decoded; otherwise it reports the first that cannot, as unreadable or corrupt. |
| `InheritanceTree.AcceptedNeverEmpty` | db/compaction.cc:169 | After an accepting verification the purge never finds its stack empty, even with repeated numbers. |
| `InheritanceTree.RepeatedSiblings` | db/compaction.cc:166-175 | Two neighbouring siblings with one number that nothing needs pass verification, and the purge of their walk is not the walk of the pruned forest. |
| `InheritanceJobs.PurgePruned` | db/compaction.cc:166-175 | Purging the walk of any forest is purging the walk of the pruned forest, with the pruned nodes counted, whatever numbers repeat. |
| `InheritanceJobs.QuietPurge` | db/compaction.cc:169-171 | The purge drops nothing if and only if no number that nothing needs stands next to itself. |
| `InheritanceJobs.PurgeExact` | db/compaction.cc:166-175 | For every accepted walk the purge writes the walk of the pruned forest, and counts exactly the pruned nodes, if and only if no two neighbouring siblings of the pruned forest share a number that nothing needs. |
| `InheritanceJobs.PurgeStaysAccepted` | db/compaction.cc:147-175 | What the purge leaves of an accepted walk is accepted again, even where it is not the pruned forest. |
| `InheritanceJobs.PurgeKeepsNeeded` | db/compaction.cc:168-171 | A number that is needed is never dropped: it stands in the output as often as in the input. |
| `InheritanceJobs.BuildMerges` | db/compaction.cc:136-176 | For all readable inputs the job writes the walk of all input files, each over its pruned forest, and counts the nodes dropped, if and only if neighbouring siblings differ in each pruned forest; the output is in any case shorter than the unpruned walk by twice the count. |
| `InheritanceJobs.ResultIsAccepted` | db/compaction.cc:136-176 | The output is accepted by a later job under any new file number, and decodes to the merged pruned forests under exactly that condition. |
| `InheritanceJobs.ResultIsDistinguished` | db/compaction.cc:102-129 | A job over files with distinct numbers, whose forests have distinct siblings, is exact, and its result has distinct siblings again. |
| `InheritanceJobs.JobsAreExact` | db/compaction.cc:136-176 | In every history of flushes, jobs over distinct live files and deletions, each job writes the merged pruned forests of its inputs and counts what it dropped. |
| `LevelFiles.OverlappingRange` | db/version_set.cc:2495-2556 | Below level 0 exactly the files that overlap the interval are selected, they are consecutive, and one of them is returned as the next hint; a hint that overlaps saves the bisection. |
| `LevelFiles.FindOverlapping` | db/version_set.cc:2507-2531 | Bisection finds a file that overlaps the interval if there is one. |
| `LevelFiles.ExtendOverlapping` | db/version_set.cc:2574-2629 | From one such file the extension finds all of them. |
| `LevelFiles.CleanWithin` | db/version_set.cc:2639-2697 | The widest clean run of files inside the interval: every clean run inside it is part of it. |
| `LevelFiles.OverlappingL0` | db/version_set.cc:2404-2451 | On level 0 the search widens to the narrowest interval around the given one that no file straddles, and takes all its files. |
| `LevelFiles.CleanCut` | db/compaction_picker.cc:526-540 | The loop ends with the narrowest range around the inputs whose boundary keys are in no outside file. |
| `LevelFiles.CleanSeparates` | db/compaction_picker.cc:526-528 | A file is in a clean range if and only if it overlaps the interval the range spans. |
| `CompactionInputs.GetRange` | db/compaction_picker.cc:437-464 | The interval spans the inputs and both ends are theirs. |
| `CompactionInputs.ExpandToCleanCut` | db/compaction_picker.cc:512-552 | The narrowest clean cut, and false exactly if one of its files is being compacted. |
| `CompactionInputs.SetupOtherInputs` | db/compaction_picker.cc:734-841 | For two levels: false exactly if a file of the narrowest clean cut around what the start files overlap on the output level is being compacted. Otherwise the output inputs are that cut; no output-level file left out overlaps the final start inputs, whichever way they grew; grown start inputs contain the given ones, are clean and free, and below level 0 are exactly what the hull and the byte limit allow; and output inputs, if there are any, overlap the span of clean start inputs. |
| `CompactionInputs.OutputCut` | db/compaction_picker.cc:759-771 | The narrowest clean cut around what overlaps a range, or nothing; false exactly if one of its files is being compacted. |
| `CompactionInputs.SameOutput` | db/compaction_picker.cc:800-812 | A wider range needs just the same output files exactly if its cut is free and of the same size. |
| `CompactionInputs.AcrossDecides` | db/compaction_picker.cc:788-815 | There is one way to grow across, if any. |
| `CompactionInputs.GrowAcross` | db/compaction_picker.cc:783-812 | Grows to the clean cut around all files that overlap the hull if and only if, below level 0, that is more files, within the byte limit, none of them taken, and needs just the same output files. |
| `CompactionInputs.GrowWithin` | db/compaction_picker.cc:813-823 | Grows to the widest clean run of files inside the hull if and only if, below level 0, that is more files, within the byte limit and none of them taken; it reaches no output file left out. |
| `CompactionInputs.SameCut` | db/compaction_picker.cc:804-810 | Two narrowest cuts of equal size, for a range and a wider one, are the same. |
| `CompactionInputs.HullCut` | db/compaction_picker.cc:779-781 | The hull of start inputs and output inputs meets no other file of the output level. |
| `InputRanges.FixInputRange` | db/compaction_picker.cc:358-427 | With or without sorting and merging: no empty range is left; any ranges that do not end before they start come out of merging apart and with starts and limits that rise strictly; and for ranges with inclusive starts that ascend with the limits and equal limits that end alike, merged or not, they rise strictly, the same keys are covered, and the answer is true if and only if there are any. |
| `InputRanges.Merge` | db/compaction_picker.cc:381-395 | The merging pass leaves ranges apart, whatever their order, if none ends before it starts; and ascending ones then cover the same keys. |
| `InputRanges.JoinIsUnion` | db/compaction_picker.cc:385-390 | With inclusive starts, joining two ranges that meet, in the order of their limits, gives their union if and only if the second is empty or starts no earlier and, at equal limits, does not include a limit that the first excludes. |
| `InputRanges.JoinGains` | db/compaction_picker.cc:385-390 | Any two ranges of more than a point that touch at a key that both exclude are joined over that key. |
| `InputRanges.JoinedCovers` | db/compaction_picker.cc:396-407 | Joining neighbours with equal starts or equal limits keeps what ascending ranges cover. |
| `Sanitizing.OverlapIsIntersection` | db/compaction_picker.cc:1646-1667 | The four-way comparison is true if and only if the closed ranges share a key. |
| `Sanitizing.SanitizeForAllLevels` | db/compaction_picker.cc:1670-1802 | On success each file of level 1 to the output level that overlaps the hull of the files selected down to its level is selected, and so are all later level-0 files when the output level is below 0; none selected is being compacted; no compaction into the output level overlaps the hull. The selection is the least closed one; an abort for a busy file means that every closed one has a busy file; an abort for a busy range means that a running compaction overlaps the hull, or the empty key if nothing down to the output level was given. |
| `Sanitizing.SanitizeInputFiles` | db/compaction_picker.cc:1805-1868 | All outcomes: invalid for a bad level or no files, and otherwise only if a given number belongs to no file; busy only if every closed selection has a busy file or range; and success means that every number of the completed selection belongs to a free file. |
| `Sanitizing.CheckFiles` | db/compaction_picker.cc:1840-1865 | Success means that every number belongs to a file that is not being compacted; otherwise the error fits one that does not. |
| `Sanitizing.FindIncluded` | db/compaction_picker.cc:1698-1716 | First and last selected file of a level. |
| `Sanitizing.ExtendIncluded` | db/compaction_picker.cc:1721-1740 | A clean run around them, reached through shared keys only. |
| `Sanitizing.HullStays` | db/compaction_picker.cc:1769-1776 | No file of the level straddles an end of the widened hull, so adding the overlapping ones does not widen it again. |
| `Sanitizing.ForcedRun` | db/compaction_picker.cc:1746-1753 | A closed selection that has two files of a level has the run between and around them. |
| `RunningCompactions.RunsAreConflictFree` | db/compaction_picker.cc:1871-1895 | In every run of registering admissible compactions and releasing running ones, no two running compactions share an input, and no two into the same level below 0 overlap. |
| `RunningCompactions.RegisterKeeps` | db/compaction_picker.cc:1871-1884 | Registering a compaction of free files clear of the running ones keeps the marks equal to the inputs of the running ones, and conflict freedom. |
| `RunningCompactions.RegisterBreaks` | db/compaction_picker.cc:1875-1877 | Registering one that fails the assertion leaves two running compactions in conflict. |
| `RunningCompactions.ReleaseKeeps` | db/compaction_picker.cc:1886-1895 | So does releasing one and clearing its marks. |
| `RunningCompactions.LevelZeroFree` | db/compaction_picker.cc:2271-2273 | While no level-0 compaction runs, no level-0 file is being compacted. |
| `RunningCompactions.FindIntraL0` | db/compaction_picker.cc:186-217 | The longest run of newest files, none taken, each of which costs no more work for each file saved than the run before it, if it is long enough; else none. |
| `CompactionPickers.CompactionPicker.Register` | db/compaction_picker.cc:1871-1884 | The compaction joins the running ones and its files are marked; the invariant holds afterwards if and only if the compaction was clear of the running ones. |
| `CompactionPickers.CompactionPicker.Release` | db/compaction.cc:504-512 | It leaves them and exactly its files are unmarked; the invariant holds. |
| `CompactionPickers.CompactionPicker.PickFileToCompact` | db/compaction_picker.cc:3049-3121 | A file can start if it is not taken, its narrowest clean cut is free, the range of that meets no running compaction into the output level, and the clean cut of what it overlaps there is free. The inputs found are the cut of the first file in the order that can start; none is found exactly if none can, or the level is 0 with a level-0 compaction running. |
| `CompactionPickers.CompactionPicker.TryFile` | db/compaction_picker.cc:3076-3115 | The narrowest clean cut around the file, and true exactly if the file can start. |
| `CompactionPickers.CompactionPicker.OutputIsFree` | db/compaction_picker.cc:3097-3111 | True exactly if no file of the clean cut of what overlaps a range on the output level is being compacted. |
| `CompactionPickers.CompactionPicker.TryLevel` | db/compaction_picker.cc:2421-2450 | What a level that is due starts: the first file that can, from level 0 into the base level and from others one level down; else, on level 0, the newest files among themselves; else nothing. |
| `CompactionPickers.CompactionPicker.PickBySize` | db/compaction_picker.cc:2408-2454 | The first level that is due and can start anything starts; the base level is passed over once level 0 has failed. |
| `CompactionChoices.SizeStartLevels` | db/compaction_picker.cc:2421-2446 | A compaction by size goes from level 0 to the base level or stays there, and from any other level one level down. |
| `CompactionPickers.CompactionPicker.PickIntraL0` | db/compaction_picker.cc:3123-3137 | Starts exactly if there are enough level-0 files beyond the trigger, the newest is free and the span of newest files is long enough, and then with that span. |
| `CompactionPickers.CompactionPicker.TryFlagged` | db/compaction_picker.cc:2230-2255 | A flagged file starts with its narrowest clean cut exactly if that is free and it need not wait for a level-0 compaction; to the base level from level 0, else one level down, or within its level. |
| `CompactionPickers.CompactionPicker.SetupInitialFiles` | db/compaction_picker.cc:2407-2504 | The start is the first of all: of the levels that are due, but for the base level once level 0 has failed, then of the flagged files, then of those of the bottommost data; with none, none of them can start. Its files are free and cut clean. |
| `CompactionPickers.CompactionPicker.GetOverlappingL0Files` | db/compaction_picker.cc:2268-2294 | All level-0 files that overlap a chosen one, directly or through others, are taken, and none is being compacted; it fails only if a file needed from the output level is taken. |
| `CompactionPickers.CompactionPicker.Complete` | db/compaction_picker.cc:2514-2549 | The whole compaction is admissible beside the running ones, its inputs are the start files as far as they grow and the output files they need, it leaves nothing behind, and no file left on the output level overlaps its range; there is none only if one of those output files is taken or a running compaction writes into the range. |
| `CompactionPickers.RangeIsClear` | db/compaction_picker.cc:734-823 | No file left on the output level overlaps the range from the smallest to the largest key of all inputs, so that output files cut anywhere fit between those left. |
| `CompactionPickers.CompactionPicker.PickCompaction` | db/compaction_picker.cc:2551-2578 | What comes of the first start: with none there is no compaction; else it is completed and registered, or blocked because a file it needs is taken or a running compaction writes into its range, and nothing changes. A compaction into a level below 0 leaves no file behind, on either level, that overlaps its inputs, and none on the output level that overlaps its whole range. |
| `CompactionPickers.CompactionPicker.CompleteStart` | db/compaction_picker.cc:2560-2570 | The first start completed, with all level-0 files that hang together with it on the way out of level 0, or the reason why it is not. |
| `CompactionPickerOrder.NoneIffBlocked` | db/compaction_picker.cc:2514-2549 | A start below level 0 comes to nothing if and only if a file that it needs from the output level is taken or a running compaction writes into the range of the whole. |
| `CompactionPickerOrder.CompletionSame` | db/compaction_picker.cc:734-841 | Below level 0 the start files, the marks and the byte limit determine the whole compaction: inputs, growth, output files and range. |
| `CompactionPickerOrder.FirstStartOnly` | db/compaction_picker.cc:2551-2570 | Two files flagged, the first of them blocked: nothing is picked, although without it the second is. |
| `CompactionPickers.CompactionPicker.CompactRange` | db/compaction_picker.cc:1299-1408 | The same for a manual compaction of an interval; every file of the level in the interval is compacted or starts at the key to go on from, or later; nothing is returned without a conflict only if no file is in the interval; and a conflict has its cause: a level-0 compaction is running, one of the files the interval means or one needed with them is taken, or a running compaction writes into their range. |
| `CompactionPickers.CompactionPicker.ChooseRange` | db/compaction_picker.cc:1299-1374 | What the interval means: on level 0 all that hangs together with it, below the clean cut around as many of its files as the byte limit leaves; and a conflict exactly if one of them is taken, or on level 0 another level-0 compaction runs. |
| `CompactionPickers.CompactionPicker.CompleteRange` | db/compaction_picker.cc:1376-1400 | Those files completed like any other start, or the reason why they are not. |
| `CompactionPickers.LimitInputs` | db/compaction_picker.cc:1311-1356 | The loops keep the least number of files that weigh as much as the byte limit, alone or with the output files they reach, or all of them. |
| `CompactionPickers.LimitAndCut` | db/compaction_picker.cc:1311-1374 | Of the selected files those left out come at or after the next key, which is past the clean cut. |
| `CompactionPickers.CompactionPicker.CompactFiles` | db/compaction_picker.cc:601-656 | For any set of files, from any level: nothing changes on an error, and each error has its cause; on success exactly the least closed selection is registered, none of it taken before; and it overlaps no running compaction into the output level, as the source asserts, if and only if for each of those the given files are all on one side of it. |
| `CompactionPickers.GivenDecide` | db/compaction_picker.cc:1693-1801 | The completed selection is on one side of each running compaction exactly if the given files are. |
| `CompactionPickers.DeeperInputConflicts` | db/db_impl_compaction_flush.cc:933-972 | A call that succeeds with a file from below the output level and leaves two running compactions writing one range of a level. |
| `CompactionPickers.GetBoundaryKeys` | db/compaction.cc:231-270 | The boundary keys span all inputs and belong to inputs. |
| `CompactionPickers.CollectInputs` | db/compaction_picker.cc:662-709 | Exactly the files of the given numbers, in order of level. |
| `LevelStores.PickedLiesBelow` | db/compaction.cc:274-294 | Of every compaction that the picker starts into a level below 0, in a store whose versions get older from level to level: what it leaves on its output level or deeper has older versions only of the keys it runs over, none if the range test finds it bottommost, and all of them in files of deeper levels that the cursors look at. |
| `LevelStores.PickLevel` | db/compaction_picker.cc:2551-2578 | What the picker starts into a level below 0 meets that: well formed, from its two levels, nothing left behind, its range clear. |
| `LevelStores.PickRange` | db/compaction_picker.cc:1299-1408 | So does a manual compaction. |
| `LevelStores.BelowIsOlder` | db/version_set.cc:2944-2972 | An input and a version of the same key that stays on the output level or deeper: that version is deeper and older, and the compaction is not at the bottom. |
| `LevelStores.StoreInOrder` | db/version_set.cc:106-111 | What stays above, the inputs and what stays below, one after the other, have newer versions of each key first. |
| `LevelStores.CompactPicked` | db/compaction_iterator.cc:224-273 | Running the iterator over what the picker has started keeps every promised read, under what stays above and over what stays below. |
| `CompactedStores.RunsKeepReads` | db/compaction_job.cc:4697-4709 | Over every run of compactions, each picked, run and installed in the store that the last one left, a reader whose snapshot every one of them keeps reads of every promised key what it read at first; versions stay in order and the promise holds on. |
| `CompactedStores.StepKeepsReads` | db/compaction_job.cc:4697-4709 | One compaction with its inputs taken out and its output put in changes no promised read at any view: the newest visible version, wherever in the store it lies, has the same value. |
| `CompactedStores.StepKeepsLayers` | db/version_set.cc:106-111 | After it every file holds keys of its range only, versions of a key still get older from level to level, and no two have one number. |
| `CompactedStores.CompactStore` | db/compaction_job.cc:4697-4709 | From the choice of the picker to the new version: there is always a place on the output level for a file with the whole output, and the store after is again as it has to be. |
| `CompactedStores.OutputFits` | db/compaction_job.cc:4703-4707 | The output lies in the range of the compaction, so that the output level stays sorted with its file in place of the inputs. |
| `CompactedStores.ListReads` | db/version_set.cc:1416-1470 | Looking through all records newest first finds the newest version that the reader may see, and a store has one answer only. |
| `CompactedStores.OneHistory` | db/version_set.cc:106-111 | Every list of all records that has newer versions first has the same history of each key. |
| `CompactedStores.PromiseKept` | db/compaction_iterator.cc:534-540 | A key without SingleDelete in the whole store, or disciplined in it, is promised to the iterator, and is so again afterwards. |

## Left out

- CompactionInputs.SetupOtherInputs: how far level-0 start files grow is stated by what the grown files keep, not exactly, because a list of overlapping level-0 files has its members stated but not its length.
- CompactionPickerOrder.NoneIffBlocked: for a start on level 0 the cause of a failure is stated, but not the converse, for the same reason.
- Compaction filters, merge operators, range tombstones, snapshot checkers and separated values in the iterator: each of them brings in code outside these files or changes the visible data on purpose.
- Corrupt keys, shutdown and the statistics of the iterator: they add branches that end or count, not reads.
- Memory orderings weaker than sequential consistency.
- InputRanges.FixInputRange: that what is covered stays is stated for mergeable ranges, which is the callers' part; JoinIsUnion has the exact condition for each pair that is joined.
- ClockCacheSafety.StepInv: a release that forces erasure is covered by erasing any key after it; counters do not wrap around.
- The fields of LRU entries other than their links are kept by entry number beside ring and table.
- Map and link files, blob files, subcompactions and compactions within level 0 in the store: a file holds its records, and one job runs over all inputs of a compaction into a level below 0. Memtables come before level 0.
- Deleters, key copies and memory of the caches: an entry's freeing is counted instead.
- InheritanceTreeToSet: sorting and removing repeats from a library.
- Lazy compaction, universal and FIFO styles, garbage-collection picks, scores and path choice in the picker.
- The LIRS cache, table building, remote compaction and all file input and output.
