# liboffs, modelled in Dafny

This project models the storage core of liboffs and the actor mailbox under it, and
proves what they keep over every input and every run.

| module | what it models |
|---|---|
| Fibonacci | the hit counter of an index entry, with its 32-bit arithmetic |
| Entries | machine words, hashes, the index entry |
| Trie, Index | the bucketed binary trie over 32-byte hashes: as values, and as nodes changed in place |
| Journal, IndexEffects | the index API as operations on a finite map, the log records each emits, and what each changes |
| Cbor, Codec, Wire | the bytes of entries, records and snapshots |
| Wal, WalReading | log files, modern and legacy, and what reading any bytes gives |
| Recovery | snapshots, logs, pruning, crashes and loading |
| Mailbox, MailboxSteps, MailboxRuns, MailboxProgress | message queue and actor as interleaved atomic steps: what every step keeps, and what runs get done |
| FreeMap, Section | the slot bitmap of a section, its data file, and compaction |
| Lru, Robin | the doubly linked lists of the section cache, the block cache and the round robin |
| Listing | the decimal file names of sections, in string order |
| Shelf, Sections | the pool of sections: what its callers see, and the class with its cache and disk |
| BlockStore, BlockEffects, BlockMarks, BlockRuns, BlockGets, CacheReuse | the block cache as one transition per message, what each message changes, and what holds of its runs |
| BlockCache | the class whose handlers do these transitions |
| Bloom, BloomEffects, Gossip, Gc | the elastic filter, the attenuated filter, the garbage collector |
| JsonString | cJSON's string printer and parser |
| Arith | products and quotients |

Code that computes is a function; code that changes things in place is a class or a
method, proved against a function of its inputs or old state, about which the lemmas
speak.  A statement about runs is a lemma over every sequence of steps.

Where a promise does not hold of the code, the code is modelled as it is, a lemma
gives an input, and another one says exactly when the promise holds:

- buckets of one entry, which the configuration allows, let an insertion run past the
  hash (`Trie.TwinsOverrun`, `Trie.BucketSizeSafe`);
- an empty log is reported as a short record and ends a rebuild
  (`Recovery.EmptyLogLosesEntry`, `Recovery.RebuildReaches`);
- a log of 4 GiB or more can be read short, because its size is kept in 32 bits
  (`Wal.OversizeLogIsLost`, `Wal.ReadBackExact`);
- a torn or legacy record can verify at the other length (`Wal.TornRecordIsTaken`,
  `Wal.CutRead`; `Wal.LegacyRecordIsMisread`, `Wal.LegacyRead`);
- records appended after a torn one are not read (`Wal.AppendedIsLost`,
  `Wal.AppendedAfterCut`);
- a message consumed in a turn that ends by seeing DESTROY is disposed of twice
  (`MailboxRuns.DoublingRun`, `MailboxRuns.DoubledExactly`);
- replaying a defragmentation plan after some of its copies can lose a block
  (`Section.RecoveryLosesBlock`, `Section.RecoveryExact`);
- a start counts on from the last section name in string order, which need not be that of
  the greatest id (`Shelf.EleventhSectionTwice`, `Shelf.UnlistedSectionReturns`,
  `Shelf.StartHasRoom`, `Listing.NextAfter`);
- a write gives up on a robin with too many full sections that have to be loaded
  (`Shelf.FullRobinExhausts`, `Sections.Sections.WriteBlock`);
- the block cache makes room after it has looked for its key, and goes on with a node it
  has released when that was the last one (`CacheReuse.ReadTwiceDangles`,
  `Lru.Lru.Admit`); callers can avoid it (`CacheReuse.CarefulOrderly`), and the
  statements about runs are about those that do not meet it (`BlockStore.Orderly`);
- a block that is removed while a get waits for it stays in the cache with a record of
  its own: another removal counts it out again (`BlockRuns.CountedOutTwice`,
  `BlockRuns.CountersExact`), which can lock a store until its limit is set
  (`BlockRuns.StoreLocks`, `BlockRuns.LockedRun`, `BlockRuns.LimitExact`), and a put of
  the same hash is not protected by its claims (`BlockRuns.ClaimedBlockRemoved`,
  `BlockRuns.ClaimProtects`) nor from a sweep by pins (`BlockMarks.PinProtects`);
- an abort deletes whatever is indexed under a hash on its receipt, also a block that
  another put stored there after a removal (`BlockRuns.AbortDeletesOthers`,
  `BlockRuns.AbortOwn`);
- a get that a defragmentation overtakes is lost if its slot is moved
  (`BlockGets.GapLosesGet`, `BlockGets.OvertakenGet`, `BlockGets.MovedGetIsLost`), but
  deletions never free a slot, because the deallocation message they send is one the pool
  does not handle (`BlockRuns.SlotsNeverFreed`), so a new store never has anything to move
  (`BlockGets.GetsAnswered`);
- a store that is opened over blocks without a limit counts them from zero
  (`BlockRuns.OpenedUncounted`, `BlockRuns.CountersExact`);
- a walk that replies without a payload is not counted as a failed line, so a sweep
  may start with nothing resolved (`Gc.NullReplySweeps`, `Gc.CollectionSafe`);
- resizing the elastic filter loses elements (`Bloom.OneDoesNotSettle`,
  `Bloom.ExpandForgets`, `Bloom.ExpandExact`);
- a `\u` escape with bad digits is read as U+0000, unless it is the second half of a pair
  (`JsonString.BadDigits`, `JsonString.SecondHalf`, `JsonString.AcceptedIffPaired`).

Checksums and hashes are parameters: any function will do.  Sequential consistency is
assumed for the mailbox.  Files do not fail.  Integers are unbounded except where a
width matters, and there it is written out.

## Model

| member | source | states |
|---|---|---|
| Fibonacci.FWrappedIsModulo | src/BlockCache/fibonacci.c:7-21 | the 32-bit recurrence is the Fibonacci number modulo 2^32, with the number of wraps |
| Fibonacci.Compute | src/BlockCache/fibonacci.c:7-21 | the loop over two 32-bit locals returns the wrapped Fibonacci number, for every 32-bit argument |
| Fibonacci.ThresholdExact | src/BlockCache/fibonacci.c:29-35 | a level's threshold is the true Fibonacci number if and only if the level is at most 47 |
| Fibonacci.HitCounter.constructor | src/BlockCache/fibonacci.c:23-27 | a new counter is the fresh one |
| Fibonacci.HitCounter.Increment | src/BlockCache/fibonacci.c:37-46 | the in-place increment is Incremented, and reports whether the level rose |
| Fibonacci.HitCounter.Decrement | src/BlockCache/fibonacci.c:48-64 | the in-place decrement is Decremented, and reports whether the level fell |
| Fibonacci.IncrementExact | src/BlockCache/fibonacci.c:37-46 | an increment is one hit exactly, and keeps the counter well formed, on every well-formed counter except the one that stands for F(49)+46 hits |
| Fibonacci.DecrementUndoesIncrement | src/BlockCache/fibonacci.c:37-64 | decrement inverts increment wherever the increment is exact |
| Fibonacci.DecrementExact | src/BlockCache/fibonacci.c:48-64 | on every counter but the fresh one, decrement takes one hit back and increment inverts it |
| Fibonacci.CompareIsHitOrder | src/BlockCache/fibonacci.c:66-78 | the field-by-field comparison is the numeric order of the hits, with equality only for equal counters |
| Fibonacci.RunExact | src/BlockCache/fibonacci.c:23-46 | a counter created fresh counts n hits without a 32-bit wrap if and only if n <= F(49)+46 |
| Fibonacci.LastValue | src/BlockCache/fibonacci.c:37-46 | the greatest number of hits a counter can stand for is F(49)+46 |
| Trie.FindIsLookup | src/BlockCache/index.c:1032-1056 | walking the bits and scanning the bucket is lookup in the finite map of the trie |
| Trie.UpdateIsMapUpdate | src/BlockCache/index.c:920-961 | changing an entry where it lies is map update and keeps the trie well formed |
| Trie.RemoveIsMapRemove | src/BlockCache/index.c:1058-1109 | removal is map removal, also when the hash is absent |
| Trie.AddIsInsert | src/BlockCache/index.c:855-975 | for buckets of two or more: insertion with its splits terminates within the 256 bits, is map insertion, and logs only the entry and entries the map already has |
| Trie.TwoPerPath | src/BlockCache/index.c:39-43 | at most two hashes agree on bits 1 to 255 |
| Trie.ToArrayOnce | src/BlockCache/index.c:677-701 | the enumeration lists every key once and the count is the size of the map |
| Trie.TwinsOverrun | src/BlockCache/index.c:859-915 | with buckets of one entry, two hashes that differ in bit 0 only are split past the last bit |
| Trie.BucketSizeSafe | src/BlockCache/index.c:859-975 | every sequence of insertions stays within the hash if and only if buckets hold at least two entries |
| Index.Scan | src/BlockCache/index.c:1032-1056 | the bucket loop finds the first entry with the hash |
| Index.TrieNode.constructor | src/BlockCache/index.c:168-176 | a new node is an empty leaf |
| Index.Index.constructor | src/BlockCache/index.c:217-262 | a new index is an empty leaf with an empty log |
| Index.Index.AddToNode | src/BlockCache/index.c:859-915 | the in-place insertion below a node is Trie.Add on its tree, log included |
| Index.Index.SplitNode | src/BlockCache/index.c:962-975 | the in-place split re-adds the bucket below two new leaves, as Trie.AddAll does |
| Index.Index.LeafOf | src/BlockCache/index.c:987-1056 | the walk down the nodes ends at the leaf and place of the hash |
| Index.Index.UpdateNode | src/BlockCache/index.c:916-961 | the in-place change of one entry is Trie.Update on the tree |
| Index.Index.RemoveFromNode | src/BlockCache/index.c:1061-1109 | the in-place removal is Trie.Remove, and logs a removal exactly if the hash was there |
| Index.Index.GetEntry | src/BlockCache/index.c:1032-1056 | a get returns the entry as it was, counts a hit in place and logs it, exactly if the hash is there |
| Index.Index.RemoveEntry | src/BlockCache/index.c:1058-1109 | a removal changes the nodes and logs exactly if the hash is there |
| Index.Index.SetEntryMetadata | src/BlockCache/index.c:1236-1247 | claims and pins are set in place and the changed entry is logged, exactly if the hash is there |
| Index.Index.Perform | src/BlockCache/index.c:855-1109 | each call of the index API does to the heap and the log what Journal.Apply says |
| Index.Index.Replay | src/BlockCache/index.c:264-380 | the replay loop applies every record without logging |
| IndexEffects.GetCounts | src/BlockCache/index.c:1032-1056 | a get puts one hit more on its entry's counter and changes no other field and no other entry |
| IndexEffects.AddInserts | src/BlockCache/index.c:855-975 | an insertion adds exactly its entry; of a hash that is there it counts one hit on the old entry |
| IndexEffects.RemoveTakesOut | src/BlockCache/index.c:1058-1109 | a removal takes out its hash and leaves every other entry as it was |
| IndexEffects.EjectSetsDate | src/BlockCache/index.c:1213-1234 | an ejection sets the date of its entry and nothing else |
| IndexEffects.MetaSetsCounts | src/BlockCache/index.c:1236-1247 | a metadata write sets the claims and pins of its entry and nothing else |
| IndexEffects.AbsentUnchanged | src/BlockCache/index.c:1032-1109 | no operation on a hash that is not there changes an entry |
| IndexEffects.GetsCount | src/BlockCache/index.c:855-1056 | an entry that was added fresh stands for exactly k hits after k gets, for every k the counter can count |
| Journal.ApplyRefinesMap | src/BlockCache/index.c:855-1247 | add, get, remove, ejection and metadata on the trie are those operations on the map |
| Journal.ReplayRefinesMap | src/BlockCache/index.c:264-380 | replaying a record into the trie is replaying it into the map |
| Journal.RelogIsNoop | src/BlockCache/index.c:884-915 | the additions a split logs again replay to nothing |
| Journal.OpIsAtomic | src/BlockCache/index.c:855-1030 | the records of one operation take effect with the last of them |
| Journal.CrashPrefix | src/BlockCache/index.c:264-380 | replaying any number of surviving records gives the map after the operations whose records all survive |
| Journal.WholeLog | src/BlockCache/index.c:264-380 | the whole log replays to the final map |
| Cbor.RoundTrip | src/BlockCache/index.c:94-166 | every item is parsed back from its bytes, whatever follows |
| Cbor.TornNeverParses | src/BlockCache/index.c:94-166 | no proper prefix of an item parses |
| Codec.EntryRoundTrip | src/BlockCache/index.c:94-166 | an entry is decoded back; a legacy entry comes back without claims and pins |
| Codec.CountsSaturate | src/BlockCache/index.c:147-163 | claims and pins of any width are read and held at what the entry can hold; what is not a number counts as none |
| Codec.EntrySize | src/BlockCache/wal.c:164-182 | an entry takes 86 bytes, a legacy one 78 |
| Codec.RecordSize | src/BlockCache/wal.c:164-182 | every record's payload has the fixed size the reader expects for its type |
| Codec.RecordRoundTrip | src/BlockCache/index.c:264-380 | decoding a record's payload gives the record |
| Codec.NodeRoundTrip | src/BlockCache/index.c:703-783 | decoding an encoded trie gives the same trie, shape included |
| Codec.SnapshotRoundTrip | src/BlockCache/index.c:1184-1211 | a snapshot body is read back whole and every shorter prefix is rejected |
| Wire.BigEndian | src/BlockCache/index.c:94-108 | byte i of a written number is its base-256 digit, the most significant first |
| Wire.EntryWire | src/BlockCache/index.c:94-108 | the 86 bytes of an entry: array head, counter, hash, slot, section, date, claims and pins, each with its head |
| Wire.RecordWire | src/BlockCache/wal.c:164-182 | the tag letter and the payload bytes of each kind of log record |
| Wire.BucketWire | src/BlockCache/index.c:726-733 | a bucket is its entries, one after the other |
| Wire.NodeWire | src/BlockCache/index.c:703-741 | a branch is its two children, left before right, and a leaf its bucket |
| Wire.SnapshotWire | src/BlockCache/index.c:1184-1198 | a snapshot is the trie and the bucket size |
| Wal.WalFile.Write | src/BlockCache/wal.c:70-90 | a write appends one frame to the file |
| Wal.WalFile.ReadPayload | src/BlockCache/wal.c:105-131 | one size attempt verifies or rejects the frame and makes a legacy match stick |
| Wal.WalFile.ReadRecord | src/BlockCache/wal.c:133-223 | one read is ReadOne at the cursor, and a clean end only past the first read |
| Wal.WalFile.ReadBack | src/BlockCache/wal.c:133-223 | the reading loop is Recover |
| Wal.ReadWritten | src/BlockCache/wal.c:70-223 | a frame of either form is read back off the front of a file |
| Wal.ReadBackWritten | src/BlockCache/wal.c:70-223 | a written file is read back record by record to a clean end, except that an empty one ends as a short record |
| Wal.ReadBackExact | src/BlockCache/wal.c:133-162 | all records come back if and only if the size survives the cast to a signed 32-bit integer |
| Wal.OversizeLogIsLost | src/BlockCache/wal.c:133-162 | a log of 2^32 removals, of which nothing comes back |
| Wal.CutRead | src/BlockCache/wal.c:105-223 | for every cut of a modern file the reader returns exactly the complete records, if and only if the cut survives the cast to a signed 32-bit integer and the torn record's first 78 payload bytes do not verify as a legacy record |
| Wal.TornRecordIsTaken | src/BlockCache/wal.c:105-131 | a checksum and an addition, cut in its last bytes, of which the reader returns a record nobody wrote |
| Wal.AppendedAfterCut | src/BlockCache/wal.c:70-223 | records appended after a cut are all read back when the cut fell between records, if and only if the size survives the cast; when it fell inside one, only the complete records before it are read, if and only if the torn record and what follows do not verify as a record |
| Wal.AppendedIsLost | src/BlockCache/wal.c:70-223 | a removal torn behind its tag and a whole one after it, of which the reader returns neither |
| Wal.LegacyRead | src/BlockCache/wal.c:105-223 | an all-legacy file is recovered whole, if and only if its size survives the cast and its first entry record does not verify at the modern length |
| Wal.LegacyRecordIsMisread | src/BlockCache/wal.c:105-131 | a checksum and a legacy file whose first entry swallows the start of the next record |
| WalReading.ReadOneExact | src/BlockCache/wal.c:105-223 | for any bytes: a record is read if and only if a frame whose checksum verifies stands there in a form the reader accepts, the long form before the short one |
| WalReading.StopCodes | src/BlockCache/wal.c:105-223 | which of the five stop codes a failed read gives, from the bytes that are there |
| WalReading.RecoverExact | src/BlockCache/wal.c:133-223 | for every file below two gigabytes, damaged or not a log at all: recovery returns a run of frames if and only if the file holds exactly that run, as defined without the reader |
| WalReading.CleanEnd | src/BlockCache/wal.c:133-162 | the reader reports a clean end if and only if the records it read are the whole file and there is one |
| Recovery.LoadIndex | src/BlockCache/index.c:382-617 | the loading loops are Load: newest usable snapshot, then the logs behind it |
| Recovery.FindNewest | src/BlockCache/index.c:430-486 | the backward search finds the newest snapshot that decodes and whose checksum verifies |
| Recovery.Rebuild | src/BlockCache/index.c:488-505 | the rebuild loop replays the logs after an older snapshot until one does not end cleanly |
| Recovery.CutReplay | src/BlockCache/index.c:264-380 | cutting the log of any operations at any byte and replaying it gives the map after a prefix of them, all of them if nothing was cut |
| Recovery.RebuildReaches | src/BlockCache/index.c:488-505 | the rebuild restores the newest snapshot's map, except that an empty log in between ends it there |
| Recovery.EmptyLogLosesEntry | src/BlockCache/index.c:488-505 | a disk with two damaged snapshots and an empty log between them, after which a restart does not have an entry that a later log holds |
| Recovery.PerformAppends | src/BlockCache/index.c:855-1247 | performing an operation only appends to the live log |
| Recovery.StepKeepsInv | src/BlockCache/index.c:1249-1377 | operations, snapshot writes, prunings and the switch to the next log keep ids in lockstep and every needed log on disk |
| Recovery.CrashRecovers | src/BlockCache/index.c:382-617 | after a crash at any point of a rollover, with the live log cut anywhere, loading gives the map after a prefix of the operations since the snapshot, and the map at the crash if nothing was cut |
| Recovery.RunRecovers | src/BlockCache/index.c:1249-1377 | after every run a crash is recovered to exactly the map at the crash, and no log a kept snapshot could need was pruned |
| Recovery.LoadStartsGenuine | src/BlockCache/index.c:430-505 | a restart passes over every file that does not decode or carries neither sum of its entries, and starts from the newest genuine one with the logs behind it |
| Recovery.LoadNothing | src/BlockCache/index.c:430-486 | without a genuine file nothing is loaded |
| Recovery.WrongSumFallsBack | src/BlockCache/index.c:430-505 | a newest snapshot that decodes but has another sum costs nothing: the one before it and the log in between give the map after all operations |
| Recovery.LegacySumLoads | src/BlockCache/index.c:469-486 | a snapshot named with the older sum is loaded with its log |
| Recovery.RolloverKeepsNewest | src/BlockCache/index.c:1249-1377 | a rollover prunes until exactly the newest snapshots the limit allows are left, no more and no fewer, and turns to the logs older than those |
| Recovery.LogsPruned | src/BlockCache/index.c:1249-1377 | when the rollover is over, every log older than the kept snapshots is gone and nothing else is |
| Mailbox.StepIsSafe | src/Actor/message_queue.c:52-146 | no atomic step of a sender, the worker or the destroyer touches a node that is not allocated |
| MailboxRuns.StepKeepsInv | src/Actor/message_queue.c:52-146 | every atomic step keeps the lock, chain, order, token and ownership invariants |
| MailboxSteps.ExchangeKeepsInv | src/Actor/message_queue.c:52-78 | the head exchange keeps the invariant: one half-linked node, and the tag decides who owes the wakeup |
| MailboxSteps.LinkKeepsInv | src/Actor/message_queue.c:52-78 | storing the link through the previous head keeps the invariant |
| MailboxSteps.CasKeepsInv | src/Actor/message_queue.c:96-108 | tagging the head empty succeeds only when nothing was pushed, and otherwise the actor stays queued |
| MailboxSteps.CheckAfterKeepsInv | src/Actor/actor.c:232-286 | the DESTROY check at the end of a turn keeps the invariant |
| MailboxRuns.NoUseAfterFree | src/Actor/message_queue.c:52-146 | in no interleaving does a step read, link through or free a freed node |
| MailboxRuns.NoLostWakeup | src/Actor/actor.c:146-286 | in every interleaving a pending message of a live actor means exactly one of: queued once, running, or a sender about to inject it; an empty-tagged mailbox has none of them |
| MailboxRuns.PopsInOrder | src/Actor/message_queue.c:80-94 | messages are popped in the order of the head exchanges |
| MailboxRuns.PayloadsConserved | src/Actor/actor.c:146-286 | each payload is disposed of at most once at any time, and exactly once when nothing is in flight, if and only if no step of the run sees DESTROY at the end of the turn that consumed it |
| MailboxRuns.DestroyDrains | src/Actor/message_queue.c:118-146 | when the destruction is over, everything pushed has been popped |
| MailboxRuns.DoubledExactly | src/Actor/actor.c:232-286 | a payload is disposed of twice if and only if a step of the run sees DESTROY at the end of the turn that consumed it, and never more often |
| MailboxRuns.DoublingRun | src/Actor/actor.c:232-286 | a concrete run in which a consumed message is disposed of twice |
| MailboxProgress.RunDelivers | src/Actor/actor.c:232-286 | in every interleaving with senders, a worker with a linked message and a batch to spend dispatches the oldest unpopped message with its fourth step |
| MailboxProgress.BatchRun | src/Actor/actor.c:232-286 | a run pops exactly as many messages as its batch allows, oldest first, and is queued again if messages are left, else tagged empty |
| MailboxProgress.RunsDeliverAll | src/Actor/actor.c:232-286 | from every state with a queued actor, runs of any batch size deliver everything that was pushed and leave the mailbox tagged empty |
| MailboxProgress.SendArrives | src/Actor/message_queue.c:52-78 | a send to a live actor makes its message the newest in the queue and queues the actor exactly if the mailbox was tagged empty |
| MailboxProgress.SendRefused | src/Actor/actor.c:146-153 | a send to an actor being destroyed disposes of its payload once and pushes nothing |
| MailboxProgress.DestroyEnds | src/Actor/message_queue.c:118-146 | a destruction comes to its end with every message popped |
| FreeMap.FreeMap.constructor | src/BlockCache/section.c:18-29 | a new map has every slot free |
| FreeMap.FreeMap.Alloc | src/BlockCache/section.c:38-48 | takes exactly the lowest free slot, or nothing if there is none |
| FreeMap.FreeMap.Dealloc | src/BlockCache/section.c:51-63 | frees a used slot and refuses an out-of-range or free one |
| FreeMap.FreeMap.IsFull | src/BlockCache/section.c:65-72 | true exactly if there is no free slot |
| FreeMap.FreeMap.CountFree | src/BlockCache/section.c:74-80 | the popcounts add up to the number of free slots, padding excluded |
| FreeMap.FreeMap.HighestUsed | src/BlockCache/section.c:82-101 | the highest used slot, or the slot count if all are free |
| FreeMap.FreeMap.Plan | src/BlockCache/section.c:107-125 | the loop over the bits lists where each used slot goes, and counts them |
| FreeMap.FreeMap.Defragment | src/BlockCache/section.c:107-135 | returns the relocation of the used slots and leaves exactly the first ones used |
| FreeMap.RelocationCompacts | src/BlockCache/section.c:107-135 | the relocation is defined on the used slots, strictly increasing, never upward, and onto the first Count slots |
| FreeMap.NoGap | src/BlockCache/section.c:552-563 | used slots are the first ones if and only if the highest used slot is below their number |
| FreeMap.MetaRoundTrip | src/BlockCache/section.c:137-168 | the meta file is read back as written, whatever follows, if and only if the slot count fits 32 bits |
| FreeMap.TornMetaRejected | src/BlockCache/section.c:152-168 | a meta file cut short is rejected |
| FreeMap.MetaLayout | src/BlockCache/section.c:137-168 | the bytes of a meta file: the slot count, lowest byte first, then slot i's bit as bit i % 8 of byte i / 8 |
| Section.WriteKeepsOthers | src/BlockCache/section.c:419-475 | a write takes a free slot, which then reads what was written, and changes no used slot |
| Section.MovedSoFar | src/BlockCache/section.c:597-619 | the ascending in-place copy has moved every block before its place and not touched any after it |
| Section.CompactKeepsReads | src/BlockCache/section.c:545-652 | compaction keeps every block readable at its new index, in order, with none lost and none shared |
| Section.CompactReachesFront | src/BlockCache/section.c:552-563 | after the handler, skipped or not, the used slots are the first ones |
| Section.RecoveryExact | src/BlockCache/section.c:233-370 | replaying the plan after the first m copies gives every block back if and only if none of those copies changed a slot that was in use |
| Section.RecoveryLosesBlock | src/BlockCache/section.c:316-345 | a section of three slots in which recovery after the last copy makes the new place of one block read another |
| Section.Section.Write | src/BlockCache/section.c:419-475 | result codes, the slot taken, the new slots and the dirty flag of a write, wrong sizes and full sections included |
| Section.Section.ReadBlock | src/BlockCache/section.c:477-511 | a read returns the block of the slot, or nothing past the end of the file |
| Section.Section.Deallocate | src/BlockCache/section.c:512-533 | frees a used slot and marks the section dirty only then |
| Section.Section.Defragment | src/BlockCache/section.c:545-652 | the handler compacts exactly when there is a gap, and returns the relocation |
| Section.Section.MoveData | src/BlockCache/section.c:597-619 | the copy loop carries out the relocation one block at a time |
| Lru.KeepsUnique | src/BlockCache/sections.c:99-176 | get, delete and put keep keys distinct and the size within capacity; put leaves its key in front, delete leaves none |
| Lru.OpsFrom | src/BlockCache/sections.c:99-176 | no operation makes up an item or overwrites a cached value, and none loses an item but the key it deletes or the last one of a full cache |
| Lru.HoldsMostRecent | src/BlockCache/sections.c:144-226 | the cache holds the most recently used keys: a smaller one holds the front part of a larger one |
| Lru.Lru.Move | src/BlockCache/sections.c:180-226 | every branch of the move keeps forward links, backward links, first and last, and puts the node in front; a last node that was cut off but still knows its predecessor goes in front too |
| Lru.Lru.Get | src/BlockCache/sections.c:99-107 | a hit moves the key to the front and returns its value; a miss changes nothing |
| Lru.Lru.Delete | src/BlockCache/sections.c:109-142 | removes exactly one key from list and map |
| Lru.Lru.Insert | src/BlockCache/sections.c:144-173 | a present key moves to the front; a new one goes in front, and at capacity exactly the last goes |
| Lru.Lru.Evict | src/BlockCache/block_cache.c:265-287 | drops exactly the last node from list and map |
| Lru.Lru.Admit | src/BlockCache/block_cache.c:253-291 | the put over linked nodes with the set of released ones: the map is left with a released node if and only if the key was in the last place of a full cache, and otherwise the list is what Admitted says; what is ejected is the last value of a full cache |
| Lru.AdmittedKeeps | src/BlockCache/block_cache.c:253-292 | the block cache's put, which makes room before it looks for the key, keeps keys distinct and the size within capacity, puts the key in front, never overwrites a cached value and loses nothing but the last item of a full cache, unless the key is in the last place of one |
| Robin.Robin.Add | src/BlockCache/sections.c:644-661 | appends the id, links and counter included |
| Robin.Robin.Unshift | src/BlockCache/sections.c:663-678 | puts the id in front |
| Robin.Robin.Next | src/BlockCache/sections.c:680-699 | hands out the first id and moves it to the end |
| Robin.Robin.Remove | src/BlockCache/sections.c:701-730 | removes the first occurrence of an id, or nothing |
| Robin.Robin.Contains | src/BlockCache/sections.c:732-746 | true exactly if the id is in the list |
| Robin.FullRound | src/BlockCache/sections.c:680-699 | as many calls of next as there are sections visit each once and restore the list |
| Robin.RemovedExact | src/BlockCache/sections.c:701-730 | a removal takes out the first occurrence of an id and keeps the others in order, and changes nothing where there is none |
| Listing.NameValue | src/Util/get_dir.c:16-66 | reading a decimal name gives the number back |
| Listing.SortedEnds | src/Util/get_dir.c:17-66 | a listing sorted by strcmp ends with the name that no other exceeds |
| Listing.StringOrder | src/Util/get_dir.c:17-21 | a name comes before one that is not shorter, in string order, exactly if the number padded with zeroes to that length is not the greater one |
| Listing.FindNext | src/BlockCache/sections.c:864-875 | the next id is the last name listed, as a number, plus one, and 0 for an empty directory |
| Listing.NextUnused | src/BlockCache/sections.c:864-875 | no id in use is the next one or later, if and only if the greatest id in use is listed and no listed id, padded to its length, exceeds it |
| Listing.NextAfter | src/BlockCache/sections.c:864-875 | with sections 0 to m the next id is m + 1 if and only if m is one of the last ten numbers with its number of digits |
| Listing.ElevenSections | src/BlockCache/sections.c:864-875 | with sections 0 to 10 the next id is 10 |
| Shelf.WriteSucceeds | src/BlockCache/sections.c:244-320 | with a floor of at least one, a write succeeds at once: it takes a free slot, stores the block there, keeps every used slot of every section, and leaves room in every robin section |
| Shelf.RetiredKeeps | src/BlockCache/sections.c:976-1009 | retiring a section leaves distinct ids, room in every other section that had it, and at least the floor |
| Shelf.RetiredCounts | src/BlockCache/sections.c:244-320 | each retry removes one full section from the robin and adds only empty ones, from any robin |
| Shelf.GrowthBounded | src/BlockCache/sections.c:976-1009 | a full event adds at most one section net, and none beyond the capacity |
| Shelf.TargetCovers | src/BlockCache/sections.c:41-56 | the ceiling is the least number of sections that covers the byte limit, and one more; when the 64-bit sum that is rounded up wraps it is a single section |
| Shelf.StartHasRoom | src/BlockCache/sections.c:864-913 | a start over any saved robin, repeated ids included, and any listing: the ids it gives out are unused if and only if the last listed name is that of the greatest id in use; then every robin section has room and the floor is reached, and the robin has no id twice, as writes rely on, if and only if no section with room was saved twice |
| Shelf.EleventhSectionTwice | src/BlockCache/sections.c:864-913 | eleven sections, of which the start puts the last into the robin a second time |
| Shelf.UnlistedSectionReturns | src/BlockCache/sections.c:976-991 | a robin saved before anything was written: the section that is filled first comes back to its front, full |
| Shelf.TouchedKeeps | src/BlockCache/sections.c:335-352 | a loaded section rejoins the robin, at its end, exactly if it is not in it and has a free slot; the invariant is kept |
| Shelf.RetiredExact | src/BlockCache/sections.c:976-1009 | a full event takes the section out at its first place, keeps the order of the others, puts fresh ones in front up to the floor and behind to one more than before, within the capacity |
| Shelf.WriteRotates | src/BlockCache/sections.c:244-320 | a write that does not fill its section goes to the first of the robin, which then is last |
| Shelf.RoundOfWrites | src/BlockCache/sections.c:244-320 | while no section fills up, writes go to the sections of the robin in turn, each one once in a round |
| Shelf.StartKeeps | src/BlockCache/sections.c:864-913 | a start keeps the sections with room in their order, among fresh ones |
| Shelf.FreedKeeps | src/BlockCache/sections.c:375-403 | freeing a slot keeps the robin's room and every other slot |
| Shelf.FreeUndoesWrite | src/BlockCache/sections.c:375-403 | freeing the slot a write took restores every slot map and every read, and the section is in the robin, also when the write had retired it |
| Shelf.PassMore | src/BlockCache/sections.c:270-288 | what an attempt on a full section leaves of any robin: the sections behind it with fresh ones at the end, or a fresh one in front |
| Shelf.FullRobinExhausts | src/BlockCache/sections.c:244-288 | a robin of full sections only is given up if and only if it has at least three times the floor, less one |
| Shelf.DefragmentKeepsReads | src/BlockCache/sections.c:445-500 | compacting sparse sections is invisible through the relocation, keeps slots apart and the robin's room |
| Shelf.DefragmentCompacts | src/BlockCache/sections.c:445-500 | a defragmentation moves to the front the blocks of exactly the listed sections with more than one block and a fill below the threshold, and leaves every other section alone |
| Shelf.FollowIsRelocated | src/BlockCache/sections.c:480-497 | looking a place up in the flat list of moves gives its relocation |
| Sections.AccessInvisible | src/BlockCache/sections.c:144-173 | evicting a section, saving it if dirty, and loading another leaves every section's slot map as it was |
| Sections.EvictInvisible | src/BlockCache/section.c:761-778 | the section that leaves the cache is on disk as it was in memory |
| Sections.SaveInvisible | src/BlockCache/sections.c:427-438 | saving a dirty map changes no section |
| Sections.Sections.Access | src/BlockCache/sections.c:262-283 | finding or creating a section is invisible and brings it to the front of the cache |
| Sections.Sections.Retire | src/BlockCache/sections.c:976-1009 | both refill loops together do what Shelf.Retired says |
| Sections.Sections.Grow | src/BlockCache/sections.c:1021-1030 | one fresh section at the end of the robin |
| Sections.Sections.SetMaxBytes | src/BlockCache/sections.c:1011-1019 | a new byte limit sets the ceiling of the pool and changes nothing else |
| Sections.Sections.WriteFront | src/BlockCache/section.c:419-475 | a write into the loaded section: codes, slot, contents and the full flag |
| Sections.Sections.TryFirst | src/BlockCache/sections.c:268-318 | one attempt at the first section of any robin: its code, the slot taken, and the pool it leaves |
| Sections.Sections.WriteBlock | src/BlockCache/sections.c:244-320 | the retry loop terminates from any robin and stores the block in a free slot or changes no section; it succeeds on its first attempt when every robin section has room, whatever is loaded when fewer sections than twice the floor are full, and from a robin whose full sections are not loaded if and only if the budget outlasts them |
| Sections.Sections.Start | src/BlockCache/sections.c:864-913 | the start takes the next id from the listing of the saved maps, and its loops do what Shelf.Started says |
| Sections.Sections.ReadBlock | src/BlockCache/sections.c:335-373 | reads the slot; a section that was loaded rejoins the robin if it has room |
| Sections.Sections.FreeSlot | src/BlockCache/sections.c:375-403 | frees the slot exactly if it was used |
| Sections.Sections.Flush | src/BlockCache/sections.c:427-438 | saves every dirty map, visibly to nobody |
| Sections.Sections.Defragment | src/BlockCache/sections.c:445-500 | the loop over loaded sections compacts the sparse ones and lists the moves |
| BlockStore.StoredPlaced | src/BlockCache/block_cache.c:594-664 | a stored block gets a slot no other entry has, and its slot holds its bytes |
| BlockStore.DefragmentPlaced | src/BlockCache/block_cache.c:1011-1047 | after a defragmentation the rewritten index still finds every block, one to a slot |
| BlockStore.StepPlaced | src/BlockCache/block_cache.c:557-1204 | every message keeps entries in distinct used slots that hold their bytes |
| BlockStore.StepTidy | src/BlockCache/block_cache.c:253-302 | every message that does not cache the last key of a full cache again keeps the cache within its size, and cached blocks and waiting gets on indexed entries or on records of their own |
| BlockStore.StepCounted | src/BlockCache/block_cache.c:464-483 | every message keeps the 64-bit entry and byte counters at those of the index less what they have missed, which grows by one exactly with a message that meets the guard Phantom; a positive resize sets them right, and a put that counts leaves the bytes within a positive limit |
| BlockStore.SweepExact | src/BlockCache/block_cache.c:737-797 | a sweep deletes exactly the entries neither kept nor, without force, claimed or pinned, and total = kept + claimed + pinned + deleted |
| BlockStore.RingKept | src/BlockCache/block_cache.c:434-446 | the ring stays the last 1024 ended groups in order |
| BlockStore.RingIsRecent | src/BlockCache/block_cache.c:448-455 | a group is found in the ring exactly if it is one of the last 1024 ended |
| BlockStore.StepReceipted | src/BlockCache/block_cache.c:374-455 | every message keeps open receipts distinct and disjoint from the ring, and every indexed block on the receipt of its group until that ends |
| BlockStore.StepKeepsInv | src/BlockCache/block_cache.c:557-1204 | every message that does not cache the last key of a full cache again keeps placement, cache, counters and receipts together |
| BlockStore.OpenedInv | src/BlockCache/block_cache.c:1344-1413 | a store opened over well placed blocks has the invariant, with its counters right if it has a limit and behind by all the blocks if it has none |
| BlockEffects.PutKnown | src/BlockCache/block_cache.c:666-689 | a put of a hash that is there adds a claim if one was asked for, and changes nothing else |
| BlockEffects.PutRefused | src/BlockCache/block_cache.c:573-625 | a new hash is refused with nothing changed when its block would exceed the limit or its group has ended |
| BlockEffects.PutMisfit | src/BlockCache/block_cache.c:626-649 | a block of the wrong size uses up a turn of the robin and nothing else |
| BlockEffects.PutStores | src/BlockCache/block_cache.c:626-689 | any other new block is stored in a slot that was free, counted once, first in the cache and on the receipt of its group; nothing else changes |
| BlockEffects.CommitKeeps | src/BlockCache/block_cache.c:402-446 | a put that ends well loses its receipt and nothing else |
| BlockEffects.ResizeExact | src/BlockCache/block_cache.c:1542-1559 | a resize sets limit and ceiling; a positive one sets the counters to those of the index; nothing else changes |
| BlockEffects.GetCaches | src/BlockCache/block_cache.c:798-927 | a get whose block can be read leaves it first in the cache and changes no entry, counter or section; any other changes nothing there |
| BlockEffects.LaterExact | src/BlockCache/block_cache.c:838-927 | an asynchronous get is answered at once if the hash is not indexed or its block is cached, and else waits with one read asked for |
| BlockEffects.FetchExact | src/BlockCache/sections.c:335-373 | the pool answers the oldest request with what its slot holds, and changes no section and nothing else |
| BlockEffects.ResultExact | src/BlockCache/block_cache.c:968-1009 | a read result answers every get that waits for its spot and no other, all with the block or all with none; these stop waiting and the others go on; entries, counters, sections and groups stay |
| BlockEffects.ResultCaches | src/BlockCache/block_cache.c:968-1009 | a result with the hash of the newest get that waits for it is then first in the cache, under the record that get holds unless the cache had the block; any other leaves the cache alone |
| BlockEffects.ReleaseExact | src/BlockCache/block_cache.c:1109-1125 | a release takes one claim off the record it finds; the last one takes the block with it; without a claim nothing happens |
| BlockMarks.MarkExact | src/BlockCache/block_cache.c:1094-1185 | a pin, an unpin, a claim and the clearing of claims each change the count of the one record they find as they should, saturating at the ends, and nothing else |
| BlockMarks.UnpinUndoesPin | src/BlockCache/block_cache.c:1156-1185 | an unpin undoes a pin and a pin an unpin, away from the ends of the counter |
| BlockMarks.PinProtects | src/BlockCache/block_cache.c:737-952 | a block once pinned survives every unforced removal, and a sweep if and only if the cache has no detached record of it, which would have got the pin |
| BlockMarks.PinnedSurvives | src/BlockCache/block_cache.c:557-1204 | over every run a block with one record stays in the index, with as many pins as it was given and not taken, while every unforced removal and sweep finds it pinned and no message overrides pins |
| BlockRuns.RunExclusive | src/BlockCache/block_cache.c:557-1204 | in every run no two indexed blocks share a slot and reading an entry's slot gives the bytes stored last under its hash |
| BlockRuns.SlotsNeverFreed | src/BlockCache/block_cache.c:464-483 | no message lowers the number of slots any section uses |
| BlockRuns.CountersExact | src/BlockCache/block_cache.c:464-483 | in every run the counters are, modulo 2^64, those of the index less the messages since the last positive resize that deleted what only the cache had, and less what was not counted at the start; the count is right if and only if their number is a multiple of 2^64 and the index fits a word |
| BlockRuns.LimitExact | src/BlockCache/block_cache.c:574-575 | a put of a new block that fits is refused for room if and only if the missed bytes exceed the needed ones and the rest of 2^64 exceeds the limit; one that does not fit is let in if and only if the missed bytes and the wrap hide enough of the needed ones |
| BlockRuns.OpenedUncounted | src/BlockCache/block_cache.c:1388-1397 | a store opened over blocks without a limit, whose count goes below zero with the first removal |
| BlockRuns.OrphanMade | src/BlockCache/block_cache.c:928-1009 | a hash removed while a get waits for it is left in the cache with a record of its own when the read arrives |
| BlockRuns.CountedOutTwice | src/BlockCache/block_cache.c:928-1009 | a run of a new store that ends with one indexed block and a count of none |
| BlockRuns.StoreLocks | src/BlockCache/block_cache.c:464-483 | a run of a new store with a limit after which nothing is stored and there is no room for a block |
| BlockRuns.LockedRun | src/BlockCache/block_cache.c:564-592 | such a store stays empty in every run that does not set the limit |
| BlockRuns.AbortExact | src/BlockCache/block_cache.c:402-446 | an abort deletes exactly the indexed blocks on the receipt, leaves the others untouched, and at the first end of the group leaves none it stored |
| BlockRuns.AbortOwn | src/BlockCache/block_cache.c:402-446 | after every run the abort of a put deletes its own blocks only, if and only if no indexed block was stored by another under a hash that the put had stored before and that was then removed |
| BlockRuns.AbortDeletesOthers | src/BlockCache/block_cache.c:402-446 | a run of a new store in which an abort deletes a block that another put stored |
| BlockRuns.StragglersRefused | src/BlockCache/block_cache.c:594-618 | a group that ended is refused new blocks until 1024 further groups end |
| BlockRuns.PutExact | src/BlockCache/block_cache.c:564-694 | a put leaves its block indexed if and only if it was, or the put was not refused and had the size of a block; no other entry changes |
| BlockRuns.ReleaseUndoesAcquire | src/BlockCache/block_cache.c:1094-1125 | a release undoes an acquire on whichever record the messages find, and giving up the only claim deletes the block |
| BlockRuns.RemoveExact | src/BlockCache/block_cache.c:928-952 | a removal takes out that block exactly unless the record it finds, the cache's before the index's, is claimed or pinned and it is not forced |
| BlockRuns.ClaimProtects | src/BlockCache/block_cache.c:928-952 | a claimed or pinned block survives an unforced removal if and only if the cache has no detached record of it, or one that is claimed or pinned too |
| BlockRuns.ClaimedBlockRemoved | src/BlockCache/block_cache.c:928-952 | a run of a new store after which an unforced removal deletes a claimed block |
| BlockGets.PackedUnmoved | src/BlockCache/sections.c:445-500 | sections without gaps are left alone by a defragmentation, which lists no move |
| BlockGets.ResultTruthful | src/BlockCache/block_cache.c:968-1009 | a result that arrives has the hash of every get that waits for its spot, if reads on their way find what they were asked for |
| BlockGets.StepFaithful | src/BlockCache/block_cache.c:546-1204 | every message, from the pool too, keeps sections without gaps, blocks under their hashes, every waiting get on a spot that holds its block and is being read, and true replies |
| BlockGets.GetsAnswered | src/BlockCache/block_cache.c:798-1009 | in every run of a new store with blocks put under their hashes: a get has an answer exactly for the indexed hashes, every answer ever sent has the hash asked for, once nothing is on its way nothing waits, and no defragmentation moves anything |
| BlockGets.GetsConserved | src/BlockCache/block_cache.c:495-544 | in every run each asynchronous get still waits or was answered once |
| BlockGets.MovedGetIsLost | src/BlockCache/block_cache.c:495-544 | in any state, with other gets waiting and reads on their way, a get that a defragmentation overtakes is never answered by them if and only if none of the reads is of the slot its block was moved to |
| BlockGets.OvertakenGet | src/BlockCache/block_cache.c:495-544 | with nothing else on its way such a get is answered with its block if and only if its slot was not moved, and else waits with no read on its way |
| BlockGets.GapLosesGet | src/BlockCache/block_cache.c:495-544 | a store with a gap in a section, and a run in which a get is never answered |
| CacheReuse.ReadTwiceDangles | src/BlockCache/block_cache.c:253-291 | a run of a new store at whose end the arrival of a read leaves the cache with a node it has released |
| CacheReuse.StepApart | src/BlockCache/block_cache.c:253-291 | a message that neither reads at once a hash that is waited for, nor puts again one that was removed while it was, finds no key that it caches, and keeps it so |
| CacheReuse.CarefulOrderly | src/BlockCache/block_cache.c:253-291 | in every run of such messages no put finds its key in the cache, so none meets a released node |
| BlockCache.Tombs.Contains | src/BlockCache/block_cache.c:448-455 | searching the buffer finds exactly the groups it holds |
| BlockCache.Tombs.Add | src/BlockCache/block_cache.c:434-446 | appends while there is room, then overwrites the oldest |
| BlockCache.BlockCache.constructor | src/BlockCache/sections.c:803-914 | a new cache is the empty store |
| BlockCache.BlockCache.PutBlock | src/BlockCache/block_cache.c:564-711 | the handler does what BlockStore.Step says, through the pool with its cache and disk and over 64-bit counters, and reports new, existing and refused blocks exactly, unless it caches the last key of a full cache again |
| BlockCache.BlockCache.EndGroup | src/BlockCache/block_cache.c:402-446 | closing a receipt, deleting what it lists on abort, and the tombstone do what BlockStore.Step says |
| BlockCache.BlockCache.DeleteEntry | src/BlockCache/block_cache.c:464-487 | deleting one entry does what BlockStore.Deleted says, whether the index has it or not |
| BlockCache.BlockCache.Sweep | src/BlockCache/block_cache.c:737-797 | the loop over a snapshot of the index, in any order, does what BlockStore.Step says and counts each entry once |
| BlockCache.BlockCache.RemoveBlock | src/BlockCache/block_cache.c:928-952 | a removal does what BlockStore.Step says; it is refused exactly for a claimed or a pinned block without force, and then changes nothing |
| BlockCache.BlockCache.GetBlock | src/BlockCache/block_cache.c:798-927 | a synchronous get, with the check of what was read against the hash, does what BlockStore.Step says and returns its answer |
| BlockCache.BlockCache.Compact | src/BlockCache/block_cache.c:1011-1047 | compacting the pool and rewriting every entry does what BlockStore.Step says, and returns the number of moves |
| BlockCache.BlockCache.AcquireClaim | src/BlockCache/block_cache.c:1094-1108 | a claim does what BlockStore.Step says, and a full counter is reported |
| BlockCache.BlockCache.ReleaseClaim | src/BlockCache/block_cache.c:1109-1125 | a release does what BlockStore.Step says; the last claim takes the block with it |
| BlockCache.BlockCache.ClearClaims | src/BlockCache/block_cache.c:1126-1134 | clearing the claims does what BlockStore.Step says |
| BlockCache.BlockCache.PinBlock | src/BlockCache/block_cache.c:1156-1185 | a pin does what BlockStore.Step says and saturates |
| BlockCache.BlockCache.UnpinBlock | src/BlockCache/block_cache.c:1156-1185 | an unpin does what BlockStore.Step says and stops at zero |
| BlockCache.BlockCache.SetLimit | src/BlockCache/block_cache.c:1542-1559 | a new limit does what BlockStore.Step says: it sets the pool's ceiling, and recomputes the counters when it is positive |
| BlockCache.BlockCache.BeginGet | src/BlockCache/block_cache.c:838-927 | the first half of an asynchronous get does what BlockStore.Step says: it replies at once, or waits and asks the pool |
| BlockCache.BlockCache.FetchNext | src/BlockCache/sections.c:335-373 | the pool's read for the oldest request does what BlockStore.Step says |
| BlockCache.BlockCache.FindWaiting | src/BlockCache/block_cache.c:495-510 | finds the newest get that waits for a spot |
| BlockCache.BlockCache.ResolveAll | src/BlockCache/block_cache.c:512-544 | takes exactly the gets that wait for a spot off the list, in order, and answers each |
| BlockCache.BlockCache.FinishGet | src/BlockCache/block_cache.c:968-1009 | a read result does what BlockStore.Step says, and sends exactly the replies it adds, unless it caches the last key of a full cache again |
| BlockCache.BlockCache.Serve | src/BlockCache/block_cache.c:546-1204 | whatever requests arrive, with turns of the pool between them and slot maps loaded and evicted on the way, the class goes through an orderly run of the store, so every statement about runs holds of it, up to the first request, if any, that would use a released node |
| BlockCache.FollowMoves | src/BlockCache/block_cache.c:1036-1043 | the inner loop finds the first move that names the entry's place |
| Bloom.AddIsFound | src/Bloom/elastic_bloom_filter.c:126-158 | what was added is contained, and an add never takes a fingerprint away |
| Bloom.HasMonotone | src/Bloom/elastic_bloom_filter.c:148-158 | containment is monotone in the buckets |
| Bloom.NeverOverfull | src/Bloom/elastic_bloom_filter.c:139-144 | with a threshold of 1 or more the fill ratio never exceeds it, so the filter is never resized |
| Bloom.MergeIsUnion | src/Bloom/elastic_bloom_filter.c:252-272 | a merge is the union of the fingerprints, bucket by bucket |
| Bloom.ExpandedHas | src/Bloom/elastic_bloom_filter.c:187-217 | after a resize an element is found if and only if each of its new probes meets a fingerprint that the split left there |
| Bloom.ExpandExact | src/Bloom/elastic_bloom_filter.c:187-217 | a filter that holds one element still has it after a resize if and only if each of its new probes meets, in the bucket it looks in, what the split made of one of its old ones |
| Bloom.MeetsItself | src/Bloom/elastic_bloom_filter.c:187-217 | whether a fingerprint is found again is decided by its hash value alone, by parity and position |
| Bloom.ExpandForgets | src/Bloom/elastic_bloom_filter.c:187-217 | with one probe an element alone in the filter is found after a resize if and only if its hash value settles |
| Bloom.OneDoesNotSettle | src/Bloom/elastic_bloom_filter.c:187-217 | with two buckets and eight-bit fingerprints the hash value 1 does not |
| Bloom.CodecKeepsPrints | src/Bloom/elastic_bloom_filter.c:317-454 | an encoded filter decodes exactly if its parameters are in bounds, and then to the same fingerprints in every bucket |
| BloomEffects.ProbeParts | src/Bloom/elastic_bloom_filter.c:67-76 | bucket and fingerprint of a probe are two consecutive parts of the hash value, its remainder by the size and the next bits, with 1 for 0 |
| BloomEffects.SeedStep | src/Bloom/elastic_bloom_filter.c:67-76 | the seeds of successive probes lie one step apart in 64-bit arithmetic |
| BloomEffects.SeedsDiffer | src/Bloom/elastic_bloom_filter.c:67-76 | with the seeds every filter is created with, no two of its probes hash with the same seed |
| BloomEffects.AddAgain | src/Bloom/elastic_bloom_filter.c:126-146 | adding what is found changes nothing |
| BloomEffects.AddKeepsDistinct | src/Bloom/elastic_bloom_filter.c:126-146 | no bucket comes to hold a fingerprint twice |
| BloomEffects.MergeAgain | src/Bloom/elastic_bloom_filter.c:252-272 | merging in what is there already changes nothing |
| BloomEffects.OccupiedExact | src/Bloom/elastic_bloom_filter.c:284-291 | the occupancy is the number of buckets that hold something |
| BloomEffects.OverfullExact | src/Bloom/elastic_bloom_filter.c:139-144 | overfull means more occupied buckets than the threshold times the size |
| BloomEffects.SplitKeepsCount | src/Bloom/elastic_bloom_filter.c:187-217 | a split moves every entry of a bucket to one of the two that replace it |
| BloomEffects.BitExact | src/Bloom/elastic_bloom_filter.c:317-358 | in an encoded filter bucket j's bit is bit j % 8 of byte j / 8, set exactly if the bucket holds something |
| Bloom.Filter.constructor | src/Bloom/elastic_bloom_filter.c:91-112 | defaults for zero parameters, empty buckets, no bit set |
| Bloom.Filter.Contains | src/Bloom/elastic_bloom_filter.c:148-158 | the probe loop answers whether every fingerprint is in its bucket |
| Bloom.Filter.Add | src/Bloom/elastic_bloom_filter.c:126-146 | inserts the probes' fingerprints, reports whether any was new, and resizes if and only if one was new and the fill ratio is then past the threshold; the buckets are exactly those of the pure add, doubled in that case |
| Bloom.Filter.Expand | src/Bloom/elastic_bloom_filter.c:187-217 | doubles the buckets, moves every entry by its low fingerprint bit, and keeps bits and buckets in agreement |
| Bloom.Filter.Merge | src/Bloom/elastic_bloom_filter.c:252-272 | refuses another size, else merges bits and buckets, which stay in agreement |
| Gossip.Check | src/Bloom/attenuated_bloom_filter.c:49-60 | the level loop returns the lowest level that has the topic |
| Gossip.MergeNeverWorsens | src/Bloom/attenuated_bloom_filter.c:62-77 | a merge leaves level 0 alone and never makes a topic look further away |
| Gossip.MergeShifts | src/Bloom/attenuated_bloom_filter.c:62-77 | a topic of the source is found one level further on, when the two levels have the same parameters |
| Gossip.MergeExact | src/Bloom/attenuated_bloom_filter.c:62-77 | fingerprint by fingerprint: level l takes in level l - 1 of the source, unless their sizes or the numbers of levels differ, and nothing else changes |
| Gossip.SubscribedExact | src/Bloom/attenuated_bloom_filter.c:37-41 | a subscription touches level 0 alone; it grows that level if and only if the topic is new and fills it past the threshold, and otherwise adds the fingerprints of the topic's probes and no others |
| Gossip.SentKeepsTopics | src/Bloom/attenuated_bloom_filter.c:87-157 | a filter, whatever the parameters of its levels, arrives if and only if it has at most 256 levels with acceptable parameters, and then has every topic at the levels it had it, and no other |
| Gossip.HopBound | src/Bloom/attenuated_bloom_filter.c:37-157 | a topic subscribed at one node and carried through n merges, fewer than the levels, is found within n hops |
| Gc.GatheredHolds | src/BlockCache/block_gc.c:233-251 | after merging a walk's hashes the filter has all of them and all it had |
| Gc.MergeCollected | src/BlockCache/block_gc.c:233-251 | the merging loop over the real filter never resizes it and adds what is missing |
| Gc.HandleKeeps | src/BlockCache/block_gc.c:356-443 | every expected reply keeps the collection's invariant |
| Gc.CollectionSafe | src/BlockCache/block_gc.c:257-354 | for every order of replies: once no walk is outstanding a sweep was sent if and only if some line resolved or some walk replied without payload, and with nothing resolved if and only if only the latter; its filter has every hash that any reply brought; the failures are those of the lines that cannot be parsed or whose walk was not complete, in order; refusal, defragmentation and the single report happen exactly when they should |
| Gc.NullReplySweeps | src/BlockCache/block_gc.c:366-414 | a single walk that replies without payload starts a sweep with an empty filter |
| Gc.GatheredBlocksSurvive | src/BlockCache/block_cache.c:737-797 | a sweep with a collection's filter deletes no block whose hash any reply of the collection brought |
| JsonString.RoundTrip | deps/cJSON/cJSON.c:781-1030 | parsing what was printed gives the bytes back and stops behind the closing quote, whatever follows |
| JsonString.ShortExact | deps/cJSON/cJSON.c:844-864 | a letter behind a backslash is taken for a byte if and only if the table of section 7 of RFC 8259 says so |
| JsonString.EscapeShortest | deps/cJSON/cJSON.c:981-1021 | the printer's form of a byte is the shortest text the parser reads as that byte |
| JsonString.PrintedClean | deps/cJSON/cJSON.c:981-1021 | no control byte is left in what is printed |
| JsonString.ControlEscape | deps/cJSON/cJSON.c:1014-1018 | a control byte without a letter is printed as \u00 and two lower-case digits |
| JsonString.Utf8Exact | deps/cJSON/cJSON.c:714-768 | the encoder writes the one UTF-8 sequence that section 3 of RFC 3629 gives each code point |
| JsonString.EscapesDecode | deps/cJSON/cJSON.c:658-778 | whatever escapes spell a code point, one unit or a surrogate pair, in digits of either case, are decoded to bytes if and only if these are its UTF-8 encoding |
| JsonString.AcceptedIffPaired | deps/cJSON/cJSON.c:658-778 | a string of \u escapes of any four bytes each is accepted if and only if its surrogates come in pairs, high before low, where bytes that are not all digits count as the unit 0 |
| JsonString.LoneUnit | deps/cJSON/cJSON.c:676-700 | a low surrogate first, or a high one that no escape follows, is refused |
| JsonString.BadDigits | deps/cJSON/cJSON.c:623-655 | an escape of any four bytes is read as U+0000 if and only if they are not all digits or are four zeroes |
| JsonString.SecondHalf | deps/cJSON/cJSON.c:683-704 | the second half of a pair is accepted if and only if it is all digits and a low surrogate |
| JsonString.Hex4Exact | deps/cJSON/cJSON.c:623-655 | four digits of either case are read as the number they stand for in base 16, and four bytes that are not all digits as 0 |
| JsonString.HexRoundTrip | deps/cJSON/cJSON.c:623-655 | four printed digits are read back as the number |
| JsonString.FitsBuffer | deps/cJSON/cJSON.c:797-826 | the second pass never writes more than the first pass reserved, even when it falls out of step inside a bad escape |
| JsonString.Print | deps/cJSON/cJSON.c:911-1030 | the printer fills exactly the length it reserved, with the escaped string, its quotes and the terminator |
| JsonString.PutEscape | deps/cJSON/cJSON.c:981-1021 | one byte, plain or escaped, at the output pointer |
| JsonString.FindEnd | deps/cJSON/cJSON.c:797-818 | the first pass finds the closing quote and counts the escapes before it |
| JsonString.Unescape | deps/cJSON/cJSON.c:828-879 | the second pass writes the decoded bytes within the reserved buffer, or stops at the first bad escape |
| JsonString.ParseString | deps/cJSON/cJSON.c:781-893 | both passes together are Parse |

## Left out

- File, directory and fsync errors, paths, locks and reference counts: files are values that do not fail.
- The ranks map of the index, the CACHE_LIST_SERVABLE ordering, respiration, network advertising and the timers.
- Backpressure muting, the scheduler's queue states and its worker loop: a run that asks to be rescheduled is taken to be queued once, and runs of one actor do not overlap.
- Memory orders weaker than sequential consistency in the mailbox.
- The hit counter of entries inside BlockStore: a get does not change the place, claims or pins it reasons about, and the counter has its own module.
- Ejection dates inside BlockStore, and the debounced snapshots its handlers ask for.
- The rank bump of an existing block and the index rewrite of a defragmentation are not logged by the source, so the recovery theorems are about the index API only.
- Gets that only verify a rank and gets on behalf of a peer, which never read a block.
- A second crash before the next snapshot, and failed snapshot writes.
- Recovery.LoadIndex: states the trie that is loaded; the file and log ids the source chooses next, the prunings it starts with and its rollover of a legacy log are not modelled.
- Plan files of an unfinished defragmentation in the directory listing, and section ids of more than 19 digits.
- The class BlockCache.BlockCache starts from an empty directory; BlockStore.Opened is the store over saved blocks.
- BlockCache.BlockCache and Sections.Sections keep their caches as sequences; Lru.Lru is the linked list that does to its nodes what they say.
- What becomes of a block cache whose map holds a released node, which the language leaves undefined.
- A section cache of capacity 0, which the configuration rules out and under which changed slot maps would be lost.
- Sections.Sections.WriteBlock: the exact bound is stated for robins without repetitions whose full sections are not loaded; with loaded ones, which renew the budget until they are evicted, success is stated for fewer full sections than twice the floor.
- The occupancy threshold of a defragmentation and the fill ratio of a filter are real numbers, not 32-bit floats.
- The collector is a transition function over its replies; only its merging loop is a method.
- Removal from the elastic filter and its compression, which drop shared fingerprints.
- The offset a failed string parse leaves behind, and cJSON's numbers, formatting and minifier.
- Recovery.RunRecovers: the live log must be shorter than 4 GiB, where the size cast wraps.
- Shelf.WriteSucceeds: needs at least one slot per section and a floor of at least one section, as the configuration gives.
- BlockGets.GetsAnswered: blocks are put under their hashes, as the callers of the cache do; a block under another hash is answered while it is cached and refused when it is read.
