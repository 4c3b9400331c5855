# A verified model of ATIRE's segmented index

ATIRE is a search engine. Its segmented index is a store of keyed documents in the style
of a log-structured merge tree: immutable disk segments, one live writer, a manifest, a
logged keymap, tombstones, a write-ahead log and a "compacting" marker. This project
models that store and the algorithms around it -- the postings merge, quantum-at-a-time
search with early termination, the merged rankings, the broker and the ownership of shared
codebooks -- and proves what they promise. `dafny verify dfyconfig.toml` checks everything.

## How it is organised

**The store.** `segment_model`, `operations`, `compaction`, `rebuild`, `recovery` and
`durability` give each operation as a function on the whole state (memory and directory);
`mutations`, `document_count`, `crash_safety` and `crash_points` prove what the functions
keep. `segment_index` is the program: the class `SegmentIndex`, whose methods
change its fields and its directory one write at a time and are proved to compute those
functions. Its ghost `history` records the directory after every single write, so that a
method's contract also speaks of what a crash inside it leaves; `crash_steps`,
`recovery_steps` and `command_steps` show that each such directory is one that the next
opening handles.
`replayed_log` tells from the log alone what a replay leaves in memory, `replay_crash` what
a crash inside it leaves on disk, and `lost_log` what one inside an unprotected rebuild does.
`write_ahead_log` is the log's file, byte for byte.
`runs` puts the bijection together over any sequence of commands, flushes, compactions and
crashes; `loose_runs` and `restarts` do so for the map alone, with all crashes of flush,
compact and open; `handles` follows generations and handles over all crashes whatever,
inside single commands too.

Three predicates carry the store. `Coherent` says that live documents and keymap entries are
in bijection, and that each entry's segment is open and holds that key. `Covered` (durable
mode) says that the flushed documents overlaid with the log are the map callers see.
`Standing` says the same of a directory that open() has been at work on. The handles ask for
less, `Anchored`: no entry of an open segment points past its documents.

**Maintenance** is `maintenance`, `resting` and the last part of `segment_index`. **The postings
merge** is `posting_lists` and `postings_merge` (what a merged list is), `postings_merger`
and `impact_headers` (the two loops), `pruning` and `term_walk`. **Search** is `top_k_heap`,
`result_list`, `early_stop` and `quantum_search`. **Rankings** are `rankings` (what the top
of a merged list has to do with the top of everything), `segment_search`, `fusion`,
`rerank`, `multivector_pool` and `broker`. **The writer's rows** of vectors and attributes are
`writer_rows`, next to `multivector_pool`. **Ownership** is `codebooks`, over an explicit
heap in which a second deletion, a dangling pointer and a lost object can all be expressed.

## What the code requires of its callers

- Keys are non-empty, fit the filename buffers of 4096 characters, and have no tab, newline
  or surrounding white space (`atire/indexer.cpp:479`, `source/index_keymap.cpp:64-74`):
  `ValidKey`.
- Where the bijection is claimed, only unmapped keys are added; what happens otherwise is
  `AddIsConsistent`.
- Automatic maintenance is off, which is the default.

## Where the code does less than its comments say

The model follows the code. Each point is proved, with the exact condition.

1. A crash inside `flush()` between the manifest save and the truncation of the log makes
   the replay store a second live copy of each key the log first *adds*
   (`ReplayDuplicates`). The map is right, the bijection is not. A later compaction can
   bring a replaced document back (`StaleCopyResurrection`), although the comments call
   such a replay harmless and a leftover duplicate "filtered at compaction".
2. The deferred truncation after a replay also discards records replayed after the last
   automatic flush (`SecondCrash`, `AfterSecondCrash`, `ThirdIsLost`).
3. Rebuilding a lost keymap log is not protected by the marker (`InterruptedLogRebuild`,
   `DuplicateStays`).
4. `add_document()` of a mapped key leaves its old copy live (`AddIsConsistent`).
5. `maintain()` with a merge factor below two, or a negative ratio, never comes to rest while
   there is a disk segment, or a live document in one (`RestsExactly`).
6. `get_second_smallest()` compares pointers instead of scores, so the stop test can end a
   search too early (`PointerOrderStop`, `EarlyStopCanBeWrong`).
7. `get_smallest_diff_amoung_the_top()` leaves out the gap between the best two documents
   (`OrderSettledExactly`, `TopPairMayChange`), and sorts by score alone, which can undo
   the heap (`SortKeepsHeap`, `TiesMayBreakHeap`).
   `get_diff_between_largest_and_second_largest()` leaves out the last entry of the list
   (`LargestStop`, `LastMayOvertake`).
8. An engine ranks the later of two equal documents first, the merged order the earlier.
   So `search()` and the broker are exact place for place in scores; in documents exactly
   as long as nothing that belongs on the page stands beyond what was asked for, so in
   particular when no cut falls inside a tie (`SearchDocuments`, `SearchIsExact`,
   `TiesMayBeCut`, `PageDocuments`, `PageWithoutTies`, `TieAcrossTheCut`).
9. The broker serves nothing for a page that starts exactly at the last result
   (`PageScores`).
10. A crash that tears a record of the write-ahead log leaves it in the file, and later
    records go behind it. If its lengths were written, they are lost to the next replay until
    as much has been logged as was torn off (`TearHidesWhatFollows`, `LoggedAndLost`), unless
    a flush empties the log before.
11. Under the NONE tier, `compact()` means to fall back to the floats when the merged codes
    could not be written, but tests a pointer that `load()` never returns as NULL. The
    source then wraps a degraded store, which the next `build_multivector_pq()` deletes
    (`BuildAttaches`, `DetachedSource`).

## Model

| member | source | states |
|---|---|---|
| SegmentModel.CoherentKeymapIsUnique | atire/atire_segment_index.cpp:280-313 | the keymap is a cache: at most one keymap is coherent with the documents the segments store |
| SegmentModel.Clamp | source/index_manifest.cpp:220-230 | after loading, the manifest hands out a generation above every segment it names |
| SegmentModel.ValidKeyIs | source/index_keymap.cpp:64-74 | a key is usable if and only if it has 1 to 4095 characters, no tab or newline, and strip_space_inplace() keeps it |
| Mutations.AddWrites | atire/atire_segment_index.cpp:673-800 | add_document, auto-flush included, changes the key -> document map at its key only, and not at all for a document without terms |
| Mutations.AddIsConsistent | atire/atire_segment_index.cpp:673-800 | add_document keeps live documents and keymap entries in bijection if and only if the document is rejected or its key is unmapped |
| Mutations.UpdateWrites | atire/atire_segment_index.cpp:956-980 | update_document is an upsert: exactly its key is written, every old copy is retired, bijection kept |
| Mutations.DeleteForgets | atire/atire_segment_index.cpp:1123-1139 | delete_document succeeds exactly for mapped keys and removes exactly that key, bijection kept |
| Mutations.FlushPreserves | atire/atire_segment_index.cpp:1161-1495 | flush leaves the map unchanged, keeps the bijection, and makes everything survive a crash |
| Operations.FlushMakesDurable | atire/atire_segment_index.cpp:1402-1408 | after a flush with something to write, what a crash leaves is the whole map |
| DocumentCount.DocumentCountIsKeymapSize | atire/atire_segment_index.cpp:1752-1762 | the summed segment counts equal the number of keys |
| DocumentCount.LiveAreMapped | atire/atire_segment_index.cpp:1752-1762 | the live documents of all segments are exactly the keymap's values |
| DocumentCount.SummedCountIsLive | atire/atire_segment_index.cpp:1752-1762 | documents minus tombstones, summed, counts each live document once |
| Compaction.CompactPreserves | atire/atire_segment_index_compaction.cpp:68-838 | compact keeps the index consistent, what it contains, and what a crash would leave |
| Compaction.CompactionPreservesView | atire/atire_segment_index_compaction.cpp:425-444 | after the remap and the swap every key shows the document it showed before |
| Compaction.CompactionIsComplete | atire/atire_segment_index_compaction.cpp:425-444 | after a compaction every live document is again the one its key names |
| Compaction.CompactedShows | atire/atire_segment_index_compaction.cpp:425-444 | even with stray duplicates: a merged key shows the last merged copy, any other key is untouched |
| Compaction.RemappedAt | atire/atire_segment_index_compaction.cpp:439-444 | the remap loop points each output key at its last output copy and leaves all other keys alone |
| Compaction.MergedKeysDiffer | atire/atire_segment_index_compaction.cpp:425-430 | without stray copies no key reaches the merge output twice |
| StaleCopy.CompactionShowsSame | atire/atire_segment_index_compaction.cpp:425-444 | compaction preserves what callers see if and only if, for each merged key, the last merged copy is the current one |
| StaleCopy.StaleCopyResurrection | atire/atire_segment_index.cpp:1406-1457 | a concrete run: add, crash inside flush before the log is truncated, reopen, update, flush, compact -- and the replaced document is back |
| Renumbering.DocidRenumberer.constructor | source/index_merge.cpp:33-51 | the table is filled for all inputs: -1 for tombstones, else the new docid |
| Renumbering.NumberSegment | source/index_merge.cpp:44-48 | one input's row of the table, and the first number of the next input |
| Renumbering.DocidRenumberer.Renumber | atire/atire_segment_index_compaction.cpp:202-203 | negative exactly for tombstones, else the number of live documents before it |
| Renumbering.DocidRenumberer.Rewrite | atire/atire_segment_index_compaction.cpp:199-213 | the walk that writes every output and sidecar emits exactly the merged rows, in order |
| Renumbering.RowFollowsDocument | atire/atire_segment_index_compaction.cpp:199-213 | output row n is the row of the document renumbered to n |
| Renumbering.Origin | atire/atire_segment_index_compaction.cpp:307-316 | every output row comes from a surviving input document (the renumbering is onto) |
| Renumbering.NewDocidIncreases | source/index_merge.cpp:44-48 | the renumbering strictly increases in (input, docid) |
| Renumbering.SidecarsAlign | atire/atire_segment_index_compaction.cpp:345-409 | row n of any sidecar and row n of the documents stem from the same input document, and from no other |
| Rebuild.NewestCopyWins | atire/atire_segment_index.cpp:315-383 | each key with a live copy is mapped to its newest one; a copy stays alive exactly when its key is mapped to it |
| Rebuild.NewestIs | atire/atire_segment_index.cpp:330-364 | in segments and docids: no live copy of a mapped key lies in a later segment, or in the same one under a higher docid; an unmapped usable key has no live copy |
| Rebuild.RebuiltIsCoherent | atire/atire_segment_index.cpp:315-383 | whatever duplicates there were, afterwards live documents and entries are in bijection |
| Rebuild.RebuildReproduces | atire/atire_segment_index.cpp:315-383 | without duplicates the rebuild reproduces the keymap and tombstones nothing |
| Rebuild.InterruptedRebuildResumes | atire/atire_segment_index.cpp:315-383 | after any part of the tombstones was saved, the next rebuild has the same outcome |
| RebuildScan.ScanRecords | atire/atire_segment_index.cpp:354-363 | one step of the scan: retiring the mapped copy and mapping the new one keeps the scan's invariant |
| RebuildScan.ScanEnds | atire/atire_segment_index.cpp:326-365 | the finished scan has built exactly the specified keymap and tombstones |
| RebuildScan.ScanChanges | atire/atire_segment_index.cpp:354-361 | the dirty flags are exactly the segments whose tombstones differ from what was loaded |
| LiveIndex.SegmentIndex.ScanDocument | atire/atire_segment_index.cpp:330-364 | one document of the scan, with its keymap record |
| LiveIndex.SegmentIndex.SaveChanged | atire/atire_segment_index.cpp:372-379 | each changed segment's tombstones are saved once, in one write each, and no others |
| LiveIndex.SegmentIndex.RebuildKeymap | atire/atire_segment_index.cpp:315-383 | keymap, tombstones, files and every directory on the way |
| Recovery.OpensTo | atire/atire_segment_index.cpp:431-579 | a directory that preserves a coherent set of segments opens to exactly that keymap and map |
| Recovery.SweepRemovesOnlyOrphans | atire/atire_segment_index.cpp:505-521 | after opening exactly the manifested generations have files, and those are unchanged |
| Recovery.CrashKeepsFlushed | atire/atire_segment_index.cpp:389-579 | after a crash between operations opening gives what was flushed |
| Recovery.CompactionCrash | atire/atire_segment_index_compaction.cpp:105-144 | a crash anywhere in compact, before or after the swap, opens to the same map, without duplicates, with only manifested files |
| Recovery.FlushCrash | atire/atire_segment_index.cpp:1374-1408 | a crash anywhere in flush opens to the old flushed documents or to all of them |
| Recovery.RebuildAlwaysOpens | atire/atire_segment_index.cpp:560-565 | a marked directory opens consistently even if it holds stray live copies |
| Recovery.InterruptedRecovery | atire/atire_segment_index.cpp:460-468 | a crash inside a marker-triggered recovery is itself recovered from |
| LostLog.InterruptedLogRebuild | atire/atire_segment_index.cpp:326-379 | a lost log is rebuilt without a marker: after a crash at any place of the scan and any saved part of the tombstones, the keymap is right if and only if no record was left, and the index consistent if and only if, besides, every changed .del was saved |
| LostLog.DuplicateStays | atire/atire_segment_index.cpp:372-379 | one segment with two copies of a key, all records written and no .del: both copies live |
| RecoverySteps.RebuildingIsAlike | atire/atire_segment_index.cpp:367-379 | any keymap records and any saved part of the tombstones leave a marked directory that recovers the same |
| RecoverySteps.TidyingIsAlike | atire/atire_segment_index.cpp:505-521 | the sweep and the dropped entries do not change what the next open recovers |
| RecoverySteps.SweepingIsAlike | atire/atire_segment_index.cpp:505-521 | a crash after any removal of the sweep recovers the same |
| RecoverySteps.DroppedIsAlike | source/index_keymap.cpp:416-445 | a crash after any dropped entry of retain_generations recovers the same |
| RecoverySteps.ReconciledIsAlike | atire/atire_segment_index.cpp:560-573 | the reconciled directory recovers as the original did |
| LiveIndex.SegmentIndex.Recover | atire/atire_segment_index.cpp:431-579 | fails exactly when a manifested file is missing; else the recovered index, and every directory on the way recovers alike |
| LiveIndex.SegmentIndex.LoadKeymap | atire/atire_segment_index.cpp:448-468 | the log as it is, created when missing, thrown away under the marker |
| LiveIndex.SegmentIndex.SweepOrphans | atire/atire_segment_index.cpp:505-521 | exactly the unmanifested files go |
| LiveIndex.SegmentIndex.RetainGenerations | source/index_keymap.cpp:416-445 | exactly the entries without an open segment go, in memory and in the log |
| LiveIndex.SegmentIndex.ReconcileKeymap | atire/atire_segment_index.cpp:560-573 | rebuild or retain, as the marker and the log demand |
| LiveIndex.SegmentIndex.AppendSegment | atire/atire_segment_index.cpp:1521-1696 | a segment opens exactly when its file is there, with its tombstones |
| Durability.AppliedWrites | atire/atire_segment_index.cpp:631-636 | replaying one record through the public methods writes that record to the map |
| Durability.ReplayOverlays | atire/atire_segment_index.cpp:622-637 | replaying the log overlays it on the map; bijection kept if and only if no record adds a key that is then present |
| Durability.ReplayIsIdempotent | atire/atire_segment_index.cpp:598-653 | replaying over any state that differs only at logged keys gives the same map |
| Durability.ReplayOverFinishedState | atire/atire_segment_index.cpp:640-647 | replaying over the finished state changes nothing |
| Durability.OverlayAbsorbs | atire/atire_segment_index.cpp:622-637 | the replayed map depends only on keys the log does not mention |
| CrashSafety.DurableStep | atire/atire_segment_index.cpp:743-774 | every add of a fresh key, update and delete keeps: flushed documents overlaid with the log are the map |
| CrashSafety.CommandsAreLogged | atire/atire_segment_index.cpp:773-786 | durable mode: the log grows by exactly the record of each add, update and delete while it is healthy and the text has at most 268435456 bytes; else it turns unhealthy; the flush an add sets off comes after its record, that of an update before |
| WriteAheadLog.LimitsAgree | source/wal.cpp:125-147 | what the index logs is what append() accepts and replay_next() reads back: texts of at most 268435456 bytes |
| WriteAheadLog.WrittenIsRead | source/wal.cpp:258-350 | whatever append() accepts, replay_next() reads back, wherever it stands |
| WriteAheadLog.RefusedIsNotRead | source/wal.cpp:277-300 | what is refused for its size would not be read back |
| WriteAheadLog.LogRoundTrip | source/wal.cpp:90-233 | a log of any accepted records replays to those records |
| WriteAheadLog.TornTailIsDropped | source/wal.cpp:248-350 | a record torn anywhere costs itself and no other |
| WriteAheadLog.TearHidesWhatFollows | source/wal.cpp:161-167 | but once the torn record's lengths are written, all that is logged behind it is lost to the next replay, until as much has been logged as was torn off |
| WriteAheadLog.LoggedAndLost | source/wal.cpp:161-167 | the smallest such case: a document logged after a tear, and not replayed |
| WriteAheadLog.WrittenIs | source/wal.cpp:170-216 | the bytes of two examples: lengths lowest byte first, and the flag for no vector |
| WriteAheadLog.LogFile.Append | source/wal.cpp:98-233 | a healthy log takes exactly the acceptable records, byte for byte; anything else makes it unhealthy |
| WriteAheadLog.LogFile.ReplayNext | source/wal.cpp:245-350 | the record at the position if it is whole; the position moves past whole records only |
| WriteAheadLog.LogFile.Replay | atire/atire_segment_index.cpp:622-637 | all records up to the first that is not whole |
| CrashSafety.DurableFlush | atire/atire_segment_index.cpp:1433-1457 | flush keeps that invariant across the truncation, and heals an unhealthy log |
| CrashSafety.DurableCompact | atire/atire_segment_index_compaction.cpp:781-827 | compact keeps that invariant |
| CrashSafety.ReopenOverlays | atire/atire_segment_index.cpp:598-653 | open gives the recovered map overlaid with the log; bijection if and only if no record adds a present key |
| CrashSafety.CrashBetweenOperations | atire/atire_segment_index.cpp:598-653 | a crash between operations loses nothing, under any flush threshold on reopening |
| ReplayedLog.ReplayLeaves | atire/atire_segment_index.cpp:622-637 | after a replay the writer holds as many documents as the log has puts since the last multiple of the threshold, it names the keys that the log from there on leaves, and the truncate is pending if and only if the log reached the threshold |
| ReplayedLog.SecondCrash | atire/atire_segment_index.cpp:648-652 | a reopened index survives a second crash if and only if the threshold is 0, the log has fewer puts than it, or the log behind the last put that fills a writer leaves no document |
| ReplayedLog.AfterSecondCrash | atire/atire_segment_index.cpp:640-652 | what the second crash leaves: everything but the documents of that tail |
| ReplayedLog.ThirdIsLost | atire/atire_segment_index.cpp:648-652 | three logged adds, threshold two: the third is there after one crash and gone after two |
| CrashSafety.ReopenedIsDurable | atire/atire_segment_index.cpp:598-653 | with threshold 0, or a log that does not exceed it, crashes can repeat for ever |
| CrashSafety.ReplayFills | atire/atire_segment_index.cpp:796-797 | with at most one writer's worth of records an automatic flush can only come last in a replay |
| CrashSafety.DurableDisk | atire/atire_segment_index.cpp:389-579 | the directory between operations is one the reopening theorems apply to |
| CrashPoints.DurableCompactionCrash | atire/atire_segment_index_compaction.cpp:411-444 | durable mode: a crash anywhere inside compact loses no completed operation, one live copy each |
| CrashPoints.DurableFlushCrash | atire/atire_segment_index.cpp:1374-1457 | durable mode: a crash anywhere inside flush gives back the same map; bijection exactly as stated |
| CrashPoints.ReplayDuplicates | atire/atire_segment_index.cpp:1433-1457 | between manifest save and truncation the replay duplicates a key if and only if the log first adds it and it is still present |
| CrashSteps.SerialisingSteps | atire/atire_segment_index.cpp:1374-1377 | the writer's files, complete or torn, are a directory recovery understands |
| CrashSteps.RegisteringSteps | atire/atire_segment_index.cpp:1402-1411 | so are the two manifest saves of flush |
| CrashSteps.WritingSteps | atire/atire_segment_index_compaction.cpp:105-144 | so are the burnt generation, the output file, complete or torn, and the marker |
| CrashSteps.RepointingSteps | atire/atire_segment_index_compaction.cpp:431-444 | so is any prefix of the remap |
| CrashSteps.SwappingSteps | atire/atire_segment_index_compaction.cpp:781-827 | so are the swap, any prefix of the file deletions, and the removed marker |
| LiveIndex.SegmentIndex.Flush | atire/atire_segment_index.cpp:1161-1457 | the flushed index; every directory written on the way is one a crash may leave |
| LiveIndex.SegmentIndex.Compact | atire/atire_segment_index_compaction.cpp:68-838 | rejects missing or repeated inputs without a change; otherwise the compacted index, every directory on the way covered, also when the manifest cannot be saved at the swap |
| LiveIndex.SegmentIndex.Resolve | atire/atire_segment_index_compaction.cpp:85-103 | true exactly for inputs that are open and named once |
| LiveIndex.SegmentIndex.WriteOutput | atire/atire_segment_index_compaction.cpp:105-138 | the generation is saved before its file exists; the file holds the merged documents |
| LiveIndex.SegmentIndex.Repoint | atire/atire_segment_index_compaction.cpp:425-444 | keymap and log after the remap, record by record |
| LiveIndex.SegmentIndex.RemoveAll | atire/atire_segment_index_compaction.cpp:793-814 | the shuffle loops remove exactly the inputs and keep the order of the rest |
| LiveIndex.SegmentIndex.DeleteInputs | atire/atire_segment_index_compaction.cpp:825-826 | exactly the inputs' files go, one at a time |
| LiveIndex.SegmentIndex.StartNewWriter | atire/atire_segment_index.cpp:237-278 | the new generation is saved before anything else, the writer is empty |
| LiveIndex.SegmentIndex.AddDocument | atire/atire_segment_index.cpp:673-800 | -1 and no change without terms, else the handle of the place stored to and the specified new state; in healthy durable mode a text of at most 268435456 bytes is logged unless an update does so, or the writer full and flushed |
| LiveIndex.SegmentIndex.UpdateDocument | atire/atire_segment_index.cpp:956-980 | the specified upsert, as one log record in healthy durable mode, behind whatever the flush it set off left; every directory on the way holds the segments of a stage of it |
| LiveIndex.SegmentIndex.DeleteDocument | atire/atire_segment_index.cpp:1123-1139 | the specified deletion, true exactly for mapped keys, and its log record in healthy durable mode; every directory on the way holds the segments of a stage of it |
| LiveIndex.SegmentIndex.Tombstone | atire/atire_segment_index.cpp:921-939 | writer tombstones in memory, segment tombstones saved at once, unknown generations reported |
| LiveIndex.SegmentIndex.GetDocumentCount | atire/atire_segment_index.cpp:1752-1762 | the number of keys |
| LiveIndex.SegmentIndex.Replay | atire/atire_segment_index.cpp:619-638 | the records in order, nothing logged meanwhile; each directory on the way stands for the same map |
| LiveIndex.SegmentIndex.Open | atire/atire_segment_index.cpp:389-656 | recovery, replay and the deferred truncation, from any directory whose entries name stored copies, strays and entries of dead documents included; each directory of the recovery recovers alike, each of the replay stands for the same map and hands no generation out again |
| Runs.FirstOpen | atire/atire_segment_index.cpp:389-656 | opening an empty directory gives an empty, durable index |
| Runs.PlainSteps | atire/atire_segment_index.cpp:743-774 | the steps of durable runs are all commands with usable keys and texts of at most 256 MB that add unmapped keys only, all flushes and compactions, and crashes whose log is within the threshold |
| Runs.DurableNext | atire/atire_segment_index.cpp:598-653 | each step does to the map what the command alone does and keeps one live copy per key, provided a crash inside flush leaves no log that first adds a key still present |
| Runs.DurableRun | atire/atire_segment_index.cpp:598-653 | over every run under that proviso, crashes between operations, inside flush and inside compact included, the index is the plain map of the commands with one live copy per key |
| LooseRuns.LastingNext | atire/atire_segment_index.cpp:389-656 | the same for the map alone, strays allowed: commands (adds of mapped keys, too), flushes, compactions that merge current copies, and all crashes |
| LooseRuns.RebuildCovers | atire/atire_segment_index.cpp:560-565 | a marked directory with strays opens to the map if and only if the newest live copy of each unlogged key is the one callers see |
| LooseRuns.ReopenedLasts | atire/atire_segment_index.cpp:598-653 | reopening a directory with strays overlays its log; one live copy per key if and only if there was one and no record adds a present key |
| ReplayCrash.CrashBetweenRecords | atire/atire_segment_index.cpp:606-653 | a crash between two replayed records: the map is preserved always, the bijection if and only if no key the log first adds has reached disk |
| ReplayCrash.RecoveredStands | atire/atire_segment_index.cpp:389-596 | any directory whose recovery is sound, marked for a rebuild or not, stands for what is recovered from it |
| ReplayCrash.InterruptedOpen | atire/atire_segment_index.cpp:606-653 | a directory left while a record is replayed, inside an automatic flush or between the two writes of a delete included, stands for the recovered map overlaid with the log |
| ReplayCrash.InterruptedReplay | atire/atire_segment_index.cpp:606-653 | and so does one left by the next replay, any number of times |
| ReplayCrash.StandingReopens | atire/atire_segment_index.cpp:598-653 | opening such a directory gives that map |
| ReplayCrash.CleanApplied | atire/atire_segment_index.cpp:622-637 | an entry that names a dead document makes no difference to the replay and is gone after its key's record |
| CommandSteps.PassedStands | atire/atire_segment_index.cpp:622-637 | every directory a replayed command passes through stands for the same map |
| Restarts.AlikeReopens | atire/atire_segment_index.cpp:389-596 | a crash after any write of recovery is invisible: the next opening gives the same map, with one live copy per key if and only if there would have been |
| Restarts.ChainIsTrusted | atire/atire_segment_index.cpp:448-573 | however many openings crash, there is a keymap log or a marker |
| Restarts.ChainStands | atire/atire_segment_index.cpp:389-656 | every directory such a chain of openings leaves stands for the same map |
| CommandSteps.PassedIsLeft | atire/atire_segment_index.cpp:622-637 | what the replay passes through is what a crash in it is said to leave |
| Restarts.RestartLasts | atire/atire_segment_index.cpp:389-656 | a crash, any number of openings that crash in turn -- sweeping, rebuilding, reconciling or replaying -- and one that does not: the map is as it was |
| Restarts.PlainEventsHappen | atire/atire_segment_index.cpp:389-656 | the events of the run theorem below include all commands with usable keys and texts of at most 256 MB, flushes, compactions without strays, and crashes between operations with a short log |
| Restarts.LastingRun | atire/atire_segment_index.cpp:389-656 | over every run, crashes in every window of flush, compact, recovery and replay included, the index holds what the commands alone say, as long as compactions and marked rebuilds find current copies and no replay flushes too soon |
| Runs.VolatileNext | atire/atire_segment_index.cpp:389-579 | without a log, each step does exactly what the promise of flushed documents says |
| Runs.VolatileRun | atire/atire_segment_index.cpp:389-579 | over every run without a log, what callers see and what crashes leave is exactly the promise |
| Handles.HandleOrders | atire/atire_segment_index.h:433-433 | in range a handle is injective, order-preserving, decodable and fits 63 bits |
| Handles.HandleIs | atire/atire_segment_index.h:433-433 | the docid is the handle modulo 2^40, the generation the quotient, of which 23 bits fit |
| Handles.AppliedBecomes | atire/atire_segment_index.cpp:673-800 | a command that stores a document moves the place of the next one on; segments only gain documents and tombstones, or go |
| Handles.LeftFollows | atire/atire_segment_index.cpp:237-278 | what is recovered after any crash between operations, inside flush or compact is what the index has grown into |
| Handles.PassedFollows | atire/atire_segment_index.cpp:956-980 | and so after a crash between any two writes of an add, update or delete |
| Handles.FollowsOpens | atire/atire_segment_index.cpp:237-278 | recovery starts its writer under a generation above every one handed out before |
| Handles.ReplayingFollows | atire/atire_segment_index.cpp:606-653 | generations handed out by a replay that crashed are not handed out again by the next opening |
| Handles.GenerationsAreNotReused | atire/atire_segment_index.cpp:237-278 | over every run, a generation handed out by then names the same segment ever after, with at least the documents it had, or none |
| Handles.HandlesIncrease | atire/atire_segment_index.cpp:776-781 | over every run -- crashes inside commands, flush, compact, recovery and replay, stray copies and re-added keys included -- later successful adds get larger handles |
| Handles.HandlesAreStable | atire/atire_segment_index.cpp:237-278 | over every such run, a handle that still resolves resolves to the document it was issued for |
| Handles.DeadHandlesStayDead | atire/atire_segment_index.cpp:237-278 | over every such run, a tombstoned document never comes back under its handle |
| Maintenance.TierIsDigits | atire/atire_segment_index_compaction.cpp:846-856 | the tier t of n >= 1 documents is their number of decimal digits: 10^(t-1) <= n < 10^t |
| Maintenance.CandidatesArePicked | atire/atire_segment_index_compaction.cpp:891-930 | candidates are distinct, open, at most 1024, and empty exactly at rest |
| Maintenance.TierIs | atire/atire_segment_index_compaction.cpp:846-856 | tier t holds the live counts of t digits, tier 1 those below ten |
| Maintenance.CandidatesAre | atire/atire_segment_index_compaction.cpp:891-930 | all members of the first tier, in segment order, with merge_factor members, or the first 1024 of them; with them, or alone, whatever is over the ratio, as far as 1024 allows; and none besides |
| Maintenance.InTierOrder | atire/atire_segment_index_compaction.cpp:905-907 | members are taken in the order of the segments |
| Maintenance.CompactionCalms | atire/atire_segment_index_compaction.cpp:932-934 | with merge_factor >= 2, and ratio >= 0 or no live document, each compaction strictly lowers segments plus tombstones |
| Maintenance.SettlesAtRest | atire/atire_segment_index_compaction.cpp:882-939 | without the cap the loop terminates, at rest, with the same map |
| Resting.RestsExactly | atire/atire_segment_index_compaction.cpp:882-939 | the uncapped loop comes to rest if and only if merge_factor >= 2 and ratio >= 0, except that a smaller factor needs a disk segment, and a negative ratio a live document in one, to keep it going |
| Resting.CompactionKeepsLive | atire/atire_segment_index_compaction.cpp:882-939 | compaction neither creates nor loses the last live document on disk |
| Maintenance.AtRestSegmentsAreFew | atire/atire_segment_index_compaction.cpp:858-881 | at rest there are at most (merge_factor - 1) * tier_of(live documents) segments and none is over the ratio |
| LiveIndex.SegmentIndex.CountTier | atire/atire_segment_index_compaction.cpp:846-856 | the digit loop computes the tier |
| LiveIndex.SegmentIndex.TierCandidates | atire/atire_segment_index_compaction.cpp:893-907 | the nested loops pick all members of the first tier in segment order that has merge_factor of them, the first 1024 if there are more, and nothing exactly when no tier has |
| LiveIndex.SegmentIndex.JoinOverDeleted | atire/atire_segment_index_compaction.cpp:909-924 | over-deleted segments join once each |
| LiveIndex.SegmentIndex.Maintain | atire/atire_segment_index_compaction.cpp:882-939 | exactly that many rounds of the policy, each compacting its candidates; the map is unchanged; fewer than ten means rest; each lowers the measure |
| PostingLists.DecodeEncode | atire/atire_merge.cpp:943-1002 | decoding an encoded impact-ordered list gives the list back |
| PostingLists.EncodesGroup | atire/atire_merge.cpp:953-1000 | behind the earlier groups come the frequency, the first docid, the gaps and a 0 |
| PostingLists.WellFormedIs | atire/atire_merge.cpp:943-1000 | frequencies from 255 down to 1, each docid from 1 to the number of documents in one group only, ascending |
| PostingLists.DeltasArePositive | atire/atire_merge.cpp:983-991 | no written gap is 0, so none is taken for the terminator |
| PostingsMerge.MergedIsWellFormed | atire/atire_merge.cpp:943-1002 | the merged list has strictly descending tfs and strictly ascending docids within the combined collection |
| PostingsMerge.MergedPosts | atire/atire_merge.cpp:943-1002 | it posts (docid, tf) if and only if some engine does, docids shifted by the documents before that engine |
| PostingsMerge.OffsetsPartition | atire/atire_merge.cpp:827-829 | each docid up to the sum of all documents is some engine's |
| PostingsMerge.OffsetsAreApart | atire/atire_merge.cpp:827-829 | and of one engine only |
| PostingsMerge.OneFrequency | atire/atire_merge.cpp:965-996 | a merged docid has one frequency |
| PostingsMerge.FewBuckets | atire/atire_merge.cpp:524-527 | a list has at most 255 groups |
| PostingsMerge.FitsBuffer | atire/atire_merge.cpp:524-527 | 510 + documents integers hold any encoded list |
| PostingsMerger.CopyGroup | atire/atire_merge.cpp:974-991 | re-basing only the first gap of an engine's share encodes the shifted docids |
| PostingsMerger.Ask | atire/atire_merge.cpp:946-957 | an engine takes part exactly when its next group has the current tf; the moving end never hides a group |
| PostingsMerger.EmitGroup | atire/atire_merge.cpp:959-1001 | one tf over all engines encodes the joined group |
| PostingsMerger.MergeTerm | atire/atire_merge.cpp:943-1002 | the whole loop writes the encoding of the merged list and never overruns the buffer |
| PostingsMerger.ListsAreHeld | atire/atire_merge.cpp:943-952 | it applies to every list an engine can have, with the stored number of postings anywhere in its last group |
| ImpactHeaders.DecodeDescribed | atire/atire_merge.cpp:849-914 | reading postings through a header gives the groups it describes |
| ImpactHeaders.EncodingsAgree | atire/atire_merge.cpp:849-935 | both encodings of a list decode to the same list |
| ImpactHeaders.MoveDown | atire/atire_merge.cpp:919-922 | moving a section down in place keeps its contents even over its own beginning |
| ImpactHeaders.CloseUp | atire/atire_merge.cpp:916-925 | closing up the three sections loses nothing |
| ImpactHeaders.EmitQuantum | atire/atire_merge.cpp:883-912 | one tf: gaps, document count and offset |
| ImpactHeaders.MergeHeaders | atire/atire_merge.cpp:849-925 | the header merge describes the same merged list, in the same buffer |
| ImpactHeaders.HeaderPlaces | atire/atire_merge.cpp:905-935 | first the frequencies, then the counts, then the positions |
| ImpactHeaders.BothMergesAgree | atire/atire_merge.cpp:831-1002 | what the two merges write decodes to the same posting set |
| Pruning.Prune | atire/atire_merge.cpp:224-248 | the pruned list, closed by a 0, replaces the list in place (only the 0 when the point is 0) |
| Pruning.PrunedKeeps | atire/atire_merge.cpp:231-241 | exactly static_prune_point postings are kept |
| Pruning.PrunedKeepsTop | atire/atire_merge.cpp:231-241 | no dropped posting has a higher tf, or an equal tf and lower docid, than a kept one |
| Pruning.PrunedIsWellFormed | atire/atire_merge.cpp:242-247 | the shortened list is well formed |
| TermWalk.Walk | atire/atire_merge.cpp:784-829 | every term some engine has, except those beginning with ~ and, in an intersection, those not asked for, is merged once, in strcmp order, with exactly the engines that have it |
| TermWalk.LessIs | atire/atire_merge.cpp:795-803 | the first character that differs decides, and a prefix comes first |
| TermWalk.LessIsTotal | atire/atire_merge.cpp:795-803 | strcmp is total and antisymmetric |
| TermWalk.LessIsTransitive | atire/atire_merge.cpp:795-803 | and transitive |
| TermWalk.NextTerm | atire/atire_merge.cpp:786-797 | the smallest term at any position; none exactly when all lists are exhausted |
| TopKHeap.RootIsLeast | source/heap.h:370-385 | the root of the heap ranks below every other entry |
| TopKHeap.ChildIsNext | source/heap.h:370-385 | any further entry ranks no lower than one of the root's children |
| TopKHeap.Heapify | source/heap.h:295-314 | sinking one entry extends the heap and keeps the documents |
| TopKHeap.SiftDown | source/heap.h:108-202 | the loops of min_insert and min_update make a heap but for a hole a heap of the same documents; of any list nothing gets out of bounds |
| TopKHeap.BuildMinHeap | source/heap.h:345-349 | any list becomes a heap of the same documents |
| ResultLists.ResultList.AddRsv | source/search_engine_result.h:231-302 | one contribution raises one score; the list stays exactly the documents found, or the best top_k of them; a list whose heap a sort has upset stays in bounds |
| ResultLists.ResultList.Append | source/search_engine_result.h:240-283 | the same while the list fills, turning it into a heap at the last place |
| ResultLists.ResultList.Update | source/search_engine_result.h:284-291 | a listed document is found and sinks, keeping the list valid |
| ResultLists.ResultList.SecondSmallest | source/heap.h:370-385 | in a full heap the returned entry is the second smallest if and only if it ranks below the root's other child; what is returned is the child that lies first in memory |
| ResultLists.ResultList.SortByScore | source/search_engine_result.h:52-52 | whatever order qsort leaves between equal scores, the same documents, ascending; the list is valid afterwards if and only if no tied parent is a later document than its child (or it is to hold every document) |
| ResultLists.AnySortSorts | source/search_engine_accumulator.h:52-58 | any function that permutes a list into ascending scores is admitted as qsort |
| EarlyStop.SettledExactly | atire/atire_api.cpp:954-977 | no outcome within the bound changes the k best if and only if the next document cannot catch up alone |
| EarlyStop.StopIsSoundExactly | atire/atire_api.cpp:954-977 | testing remaining < diff is right for every value if and only if diff is at most the gap between the k-th and the next (up to a tie) |
| EarlyStop.OutranksIs | source/search_engine_accumulator.h:36-42 | outranking is a higher score, or the same score and a higher docid |
| EarlyStop.HeapBorders | source/search_engine_result.h:132-135 | in a heap of k+1 the root is the next document and the lower child the k-th |
| EarlyStop.PointerOrderStop | source/heap.h:370-385 | the test as coded, which compares pointers, is right if and only if the child first in memory scores no more than the other (up to a tie) |
| EarlyStop.PointerOrderStopOfTwo | source/heap.h:375-377 | with k = 1 the test is right |
| EarlyStop.GetSmallestDiff | source/search_engine_result.h:54-61 | the loop computes the smallest gap, leaving out the top pair |
| EarlyStop.SmallestIs | source/search_engine_result.h:54-61 | it is the least of those gaps and of the second best score |
| EarlyStop.SmallestStop | atire/atire_api.cpp:956-963 | when the smallest-difference test passes, the k best are settled, whatever the pointer order and the order qsort left between equal scores |
| EarlyStop.OrderSettledExactly | source/search_engine_result.h:47-62 | then the order is settled too, if and only if the second document cannot catch up with the first |
| EarlyStop.TopPairMayChange | source/search_engine_result.h:54-61 | a list the code can hold that passes both tests although the first two may change places |
| EarlyStop.GetLargestDiff | source/search_engine_result.h:64-95 | the scan, which begins at the last entry but one, finds the difference of the best two scores of the list without its last entry |
| EarlyStop.LargestStop | atire/atire_api.cpp:964-971 | when the largest-difference test passes, the better of the leader and the last entry is settled as the best document if and only if the other cannot catch up with it |
| EarlyStop.LastMayOvertake | source/search_engine_result.h:72-79 | a list the code can hold that passes both tests although the last entry may still come first |
| ResultLists.SortKeepsHeap | source/search_engine_accumulator.h:52-58 | sorted by score alone, a full list stays a heap if and only if no tied parent is a later document than its child |
| EarlyStop.TiesMayBreakHeap | source/search_engine_accumulator.h:52-58 | with ties in another order a listed document can rank below the root, where the code takes it for unlisted |
| QuantumSearch.TermBound | atire/atire_api.cpp:1003-1011 | a term adds no more than its next impact, once per document |
| QuantumSearch.ScoreBound | atire/atire_api.cpp:1003-1020 | no score can still grow by more than max_remaining_quantum |
| QuantumSearch.RemainingAdvances | atire/atire_api.cpp:1003-1020 | the incremental update keeps max_remaining_quantum the sum of the next impacts |
| QuantumSearch.RemainingIs | atire/atire_api.cpp:906-925 | it has the next impact of every term that is not exhausted in it |
| QuantumSearch.ContributionIs | atire/atire_api.cpp:984-989 | in the end a term has added to a document the impact of the run that holds it, or nothing |
| QuantumSearch.FullScoreAdds | atire/atire_api.cpp:984-989 | and the terms add up |
| QuantumSearch.WellFormedIs | atire/atire_api.cpp:893-925 | a query term: impacts of at least 1, descending, a document in one run and once |
| QuantumSearch.RankQuantum | atire/atire_api.cpp:984-989 | a run adds its impact to exactly its documents |
| QuantumSearch.PickLargest | atire/atire_api.cpp:942-945 | the next run has the largest impact of all terms |
| QuantumSearch.StopTest | atire/atire_api.cpp:954-977 | stops exactly when the coded difference, and under SMALLEST the smallest difference of the then sorted list, or under LARGEST the lead of the best document, exceeds what remains; the sort keeps the list valid under the exact tie condition |
| QuantumSearch.Round | atire/atire_api.cpp:937-1022 | one round: the test once the list is full, and unless it stops, one of the runs with the largest impact |
| QuantumSearch.Search | atire/atire_api.cpp:893-1022 | for any qsort: accumulators are the sums of the processed runs; everything is processed or the coded test passed; the list is valid as long as each sort that did not stop the search kept the heap, and the first that does not leaves an invalid one |
| QuantumSearch.EarlyStopIsExact | atire/atire_api.cpp:954-977 | then the k documents are those of exhaustive processing, under the condition on pointer order |
| QuantumSearch.SmallestStopIsExact | atire/atire_api.cpp:956-963 | under SMALLEST, from a valid list and for any qsort, the k documents are those of exhaustive processing, in final order but for the best two, and those if the second cannot catch up |
| QuantumSearch.LargestStopIsExact | atire/atire_api.cpp:964-971 | under LARGEST the leader outranks every document but possibly the last entry in exhaustive processing, and that one too if it cannot catch up |
| QuantumSearch.FullSearchIsExact | atire/atire_api.cpp:937-1022 | without stopping the list holds the best documents by full score |
| QuantumSearch.EarlyStopCanBeWrong | atire/atire_api.cpp:937-977 | four rounds of the loop on a two-term query, the last of which stops with a wrong document |
| Rankings.SortIs | atire/atire_segment_index_search.cpp:154-168 | sorting by the comparator keeps the hits and gives strict order |
| Rankings.SortedIs | atire/atire_segment_index_search.cpp:154-168 | in order is: the higher score first, then the older generation, then the smaller docid |
| Rankings.SortedIsCanonical | atire/atire_segment_index_search.cpp:154-168 | the hits determine their sorted list |
| Rankings.RankByCount | atire/atire_segment_index_search.cpp:154-168 | the i-th hit scores t or more if and only if more than i hits do |
| Rankings.TopScoresAgree | atire/atire_segment_index_search.cpp:187-199 | if every hit left out is matched by n supplied ones, the first n places score as in the full ranking |
| Rankings.TopAgrees | atire/atire_segment_index_search.cpp:187-199 | they hold the same documents if and only if none of those was left out |
| SegmentSearch.FewAreDropped | atire/atire_segment_index_search.cpp:92-95 | of n fetched hits exactly those tombstoned are dropped |
| SegmentSearch.SearchOneSegment | atire/atire_segment_index_search.cpp:82-148 | publishes exactly the live admitted hits of the part of the ranking that is read: top_k + tombstones places, or under a filter up to top_k admitted hits |
| SegmentSearch.PublishedSuffices | atire/atire_segment_index_search.cpp:92-117 | top_k + tombstones, or everything under a filter, suffices: any hit left out is matched by top_k published |
| SegmentSearch.Search | atire/atire_segment_index_search.cpp:174-243 | top_k hits or all: sorted by score, generation and docid, each ranked by a segment in which it is not tombstoned and, under a filter, admitted; every other such hit scores no more than all returned |
| SegmentSearch.EverythingIs | atire/atire_segment_index_search.cpp:111-117 | the complete ranking holds exactly what some segment ranks, has not tombstoned and, under a filter, admits |
| SegmentSearch.CutIs | atire/atire_segment_index_search.cpp:92-107 | read are top_k places and one per tombstone; under a filter as many as publish top_k hits, or all |
| SegmentSearch.TruncatedIsTop | atire/atire_segment_index_search.cpp:189-199 | truncating the sorted list gives that |
| SegmentSearch.SearchDocuments | atire/atire_segment_index_search.cpp:187-199 | the returned documents are those of the complete ranking if and only if none of its first top_k hits stands beyond what was read of its own segment's ranking |
| SegmentSearch.SearchIsExact | atire/atire_segment_index_search.cpp:92-117 | so they are when no segment's ranking is cut off inside a tie |
| SegmentSearch.TiesMayBeCut | source/search_engine_accumulator.h:36-42 | a segment cut inside a tie: the search returns another document than the complete ranking starts with |
| Fusion.ShareIs | atire/atire_segment_index_vector.cpp:3173-3173 | a list contributes 1/(60 + rank) to a document on it and nothing otherwise |
| Fusion.ReciprocalIs | atire/atire_segment_index_vector.cpp:3173-3173 | the i-th place, from 0, is worth 1/(61 + i): less than an earlier one, and two places more than either |
| Fusion.FusionIs | atire/atire_segment_index_vector.cpp:3152-3244 | document by document: 1/(61 + i) on one list, the sum on both, descending, and nothing left out scores more |
| Fusion.FuseLexical | atire/atire_segment_index_vector.cpp:3169-3177 | the first list's documents and shares, in place |
| Fusion.FuseOne | atire/atire_segment_index_vector.cpp:3190-3210 | one document of the second list gains its share or joins, exactly once, within the array |
| Fusion.AddsToFused | atire/atire_segment_index_vector.cpp:3194-3200 | adding to a fused document keeps the array the union with summed shares |
| Fusion.AddsVector | atire/atire_segment_index_vector.cpp:3201-3210 | so does appending a new one |
| Fusion.Fuse | atire/atire_segment_index_vector.cpp:3152-3244 | published are the best top_k of the duplicate-free union, descending; a document in place i of one list scores 1/(61 + i), one on both the sum; the array of 2 * top_k is never overrun |
| Fusion.FusionIsUnique | atire/atire_segment_index_vector.cpp:3152-3244 | that determines the result |
| Rerank.OrderIs | atire/atire_segment_index_vector.cpp:3468-3496 | the order is a permutation: multi-vector hits first, by (MaxSim, generation, docid), the rest in stage-1 order |
| Rerank.OrderPlaces | atire/atire_segment_index_vector.cpp:3468-3496 | place by place: scored hits first, the higher MaxSim first, then the older generation, then the smaller docid; the others in stage-1 order |
| Rerank.AboveIsTotal | atire/atire_segment_index_vector.cpp:3485-3487 | the comparison is a strict total order on distinct hits |
| Rerank.InsertPlaceIs | atire/atire_segment_index_vector.cpp:3480-3493 | inserting into a ranked list keeps it ranked |
| Rerank.InsertOne | atire/atire_segment_index_vector.cpp:3482-3492 | the inner loop inserts in place and touches nothing beyond |
| Rerank.SortPlaces | atire/atire_segment_index_vector.cpp:3480-3493 | the insertion sort ranks the prefix and leaves the rest |
| Rerank.BuildOrder | atire/atire_segment_index_vector.cpp:3474-3496 | the loops build that order |
| Rerank.Publish | atire/atire_segment_index_vector.cpp:3505-3520 | the first min(top_k, n) of it are published, with MaxSim where there are multi-vectors and the stage-1 score elsewhere; exactly the others are released, once each |
| MultivectorPools.OffsetIsLength | atire/atire_segment_index_vector.cpp:3329-3331 | the sum of the counts before d is where the earlier rows end |
| MultivectorPools.RowsAt | atire/atire_segment_index_vector.cpp:3338-3340 | d's rows are the slice of the pool from its offset |
| MultivectorPools.BestBounds | atire/atire_segment_index_vector.cpp:3336-3347 | the loop's result bounds every match, and is one of them or the floor |
| MultivectorPools.BestIs | atire/atire_segment_index_vector.cpp:3336-3347 | it is the best match when matches lie above the floor |
| MultivectorPools.MultivectorPool.Append | atire/atire_segment_index_vector.cpp:2523-2578 | appends one document's rows across growth of either buffer, all earlier documents kept |
| MultivectorPools.MultivectorPool.WriteSidecar | atire/atire_segment_index.cpp:1301-1308 | flush cuts the pool back into exactly the documents' rows |
| MultivectorPools.MultivectorPool.MaxSimLive | atire/atire_segment_index_vector.cpp:3316-3352 | 0 without rows, else MaxSim over exactly the document's rows |
| MultivectorPools.DotAdds | atire/atire_segment_index_vector.cpp:3338-3343 | the inner product is symmetric and additive |
| MultivectorPools.DotScales | atire/atire_segment_index_vector.cpp:3338-3343 | and homogeneous |
| MultivectorPools.DotUnit | atire/atire_segment_index_vector.cpp:3338-3343 | and picks a component out against a unit vector |
| MultivectorPools.MaxSimAdds | atire/atire_segment_index_vector.cpp:3330-3349 | one query vector gives its best match; more add up |
| WriterRows.BitSet | atire/atire_segment_index_vector.cpp:2504-2504 | setting one document's bit sets no other's |
| WriterRows.MaskIs | atire/atire_segment_index_vector.cpp:2504-2504 | the mask of the k-th bit is the k-th power of two |
| WriterRows.RowStaysPut | atire/atire_segment_index_vector.cpp:2499-2503 | writing one row of the flat buffer leaves the others alone |
| WriterRows.DenseBuffer.Append | atire/atire_segment_index_vector.cpp:2470-2508 | one document's vector or none, across growth, with earlier rows and bits kept |
| WriterRows.DenseBuffer.WriteSidecar | atire/atire_segment_index.cpp:1195-1219 | row n of the .vec file is the vector of the document with docid n, or none; no file if and only if no document has one |
| WriterRows.DenseBuffer.WriteSignatures | atire/atire_segment_index.cpp:1233-1259 | row n of the signatures signs row n |
| WriterRows.AttributeBuffer.Append | atire/atire_segment_index.cpp:1057-1082 | only documents with attributes grow the array, past those without, whose slots stay empty |
| WriterRows.AttributeBuffer.WriteColumns | atire/atire_segment_index.cpp:1330-1358 | row n of the .attr file holds the fields of the document with docid n, and is there without any |
| WriterRows.AttributeBuffer.WritePayloads | atire/atire_segment_index.cpp:1359-1371 | row n of the .pay file is the payload of the document with docid n |
| WriterRows.StoredIsWhole | atire/atire_segment_index.cpp:1340-1355 | nothing of a set made through the setters is lost; what is stored whole has known fields and single values where one is to be |
| Broker.IdsAreDisjoint | atire/atire_broke.cpp:173-190 | cumulative bases keep all documents' ids apart |
| Broker.IdsAreDense | atire/atire_broke.cpp:170-193 | and no id below the sum of all documents is left unused |
| Broker.PrefixesSuffice | atire/atire_broke.cpp:176-176 | first + page_length results a server suffice for the first that many places |
| Broker.Search | atire/atire_broke.cpp:170-193 | the page of the merged prefixes of the servers that answered |
| Broker.SuppliedIs | atire/atire_broke.cpp:170-193 | merged are the first first + page_length results of each server that answers, ids moved up, and nothing else |
| Broker.PagePlaces | atire/atire_engine_result_set.cpp:192-199 | the k-th hit of a page has exactly first - 1 + k better hits before it |
| Broker.PageScores | atire/atire_engine_result_set.cpp:192-199 | the page scores place for place what that page of the complete merge scores, if and only if it does not start at the last result (or is empty) |
| Broker.FirstPlacesAgree | atire/atire_broke.cpp:174-193 | the first n places hold the documents of the complete merge if and only if each of those is among the first n of its own server |
| Broker.PageDocuments | atire/atire_engine_result_set.cpp:192-212 | a non-empty page equals that page of the complete merge if and only if it does not start at the last result and no hit before its end lies beyond first + page_length of its own server |
| Broker.PageWithoutTies | atire/atire_engine_result_set.cpp:192-212 | so it does when no answer ends inside a tie |
| Broker.TieAcrossTheCut | atire/atire_engine_result_set.cpp:141-165 | two servers, one with three equal documents: the first page of one result differs from that of the complete merge |
| Broker.ResultSet.Add | atire/atire_engine_result_set.cpp:120-131 | one answer is appended with its ids moved by the base |
| Broker.ResultSet.Extend | atire/atire_engine_result_set.cpp:120-121 | growing keeps the results |
| Broker.ResultSet.SortAll | atire/atire_engine_result_set.cpp:171-174 | the results in use are sorted |
| Broker.ResultSet.Serialise | atire/atire_engine_result_set.cpp:192-213 | the page of the sorted results, nothing unless first < hits |
| Codebooks.SearchReachesLiveObjects | atire/atire_segment_index_vector.cpp:1520-1789 | whatever a graph with nodes leads to -- source, store, borrowed codebook -- is live, and the codebook is the resident one |
| Codebooks.OneSegmentChanged | atire/atire_segment_index_compaction.cpp:697-755 | a segment's objects exchanged among themselves leave every object exactly one owner |
| Codebooks.ResidentExchanged | atire/atire_segment_index_vector.cpp:1597-1789 | so does exchanging the resident codebook |
| Codebooks.StoreExchanged | atire/atire_segment_index_vector.cpp:2440-2443 | a store exchanged under an idle graph keeps ownership; the source stays attached exactly when it was not over that store |
| Codebooks.CodebookAppears | atire/atire_segment_index_vector.cpp:876-942 | training where there was none changes nothing that is borrowed |
| Codebooks.RebuildKeepsAttached | atire/atire_segment_index_vector.cpp:1597-1789 | a token rebuild detaches no source |
| Codebooks.BuildAttaches | atire/atire_segment_index_vector.cpp:2382-2448 | after build_multivector_pq all sources are attached if and only if no store was built under a source that wraps it |
| Codebooks.SegmentRemoved | atire/atire_segment_index_compaction.cpp:793-814 | dropping an input leaves every remaining object with its owner |
| Codebooks.SharedCodebook.Ensure | atire/atire_segment_index_vector.cpp:1520-1572 | trains, saves and installs once; any failure leaves no codebook |
| Codebooks.SharedCodebook.RebuildDense | atire/atire_segment_index_vector.cpp:970-1111 | every exit: ownership kept, every borrower of the old codebook gone or encoded afresh |
| Codebooks.SharedCodebook.RebuildTokens | atire/atire_segment_index_vector.cpp:1597-1789 | the same for stores, sources and graphs; failed training changes nothing |
| Codebooks.RebuiltIs | atire/atire_segment_index_vector.cpp:1700-1789 | what becomes of each segment: re-encoded against the resident codebook, reduced to its floats, or untouched |
| Codebooks.LoadedIs | atire/atire_segment_index.cpp:1642-1654 | a store shares the resident codebook if and only if the index shares one, it is there, and the file was rotated exactly if it is; its tokens are the file's |
| Codebooks.SharedCodebook.Build | atire/atire_segment_index_vector.cpp:2382-2448 | encodes exactly the segments not yet encoded, sharing the resident codebook or owning their codes; a codebook appears if and only if there was one or a segment trains it; ownership kept |
| Codebooks.SharedCodebook.BuildTokenIndex | atire/atire_segment_index_vector.cpp:2121-2146 | graphs only over attached sources, with a node for each of their tokens; segments with a graph, without tokens, or whose build fails keep what they have; ownership kept |
| Codebooks.SharedCodebook.Append | atire/atire_segment_index.cpp:1632-1670 | the new segment's stores with their tokens, the source over the tier's store, and a graph with a node for each token of the source, or none when its file is not intact; the others untouched |
| Codebooks.SharedCodebook.RefreshOutput | atire/atire_segment_index_compaction.cpp:640-755 | the output's floats and codes with their tokens, the source over the tier's store, and a graph with a node for each of its tokens if there are any and it can be built and saved |
| Codebooks.SharedCodebook.Remove | atire/atire_segment_index_compaction.cpp:793-814 | exactly that segment's objects are deleted |
| Codebooks.SharedCodebook.Destroy | atire/atire_segment_index.cpp:147-187 | nothing is left and nothing deleted twice |
| Codebooks.SharedCodebook.DetachedSource | atire/atire_segment_index_compaction.cpp:700-728 | a reachable state, after a failed .mvpq under NONE and the next build, whose source wraps a deleted store |

## Left out

- File formats, reading and writing, configuration files and the exact names of sidecars:
  a directory is a record of maps, a save replaces one entry at once; segment files may be
  torn.
- I/O failures, except a manifest that cannot be saved at `compact()`'s swap; a writer torn
  down by a failed flush, and with it the read-only state.
- Crashes in the middle of `add_document`, `update_document` and `delete_document` while they
  are not replayed: `CommandPasses` says which directories they leave and the theorems of
  `handles` hold over them, but the code promises nothing of the map there.
- ReplayCrash.CrashBetweenRecords: the bijection is stated for crashes between two records;
  inside a replayed update the old copy is still live, as it is outside a replay.
- `auto_maintain`, and with it a compaction nested inside a flush or an update.
- `set_durable`, `wal_healthy` and `fsync` as interfaces. The index's log is the sequence of
  its whole records; what a torn one does is said in `write_ahead_log`, where no record has a
  vector, and no run of the index goes on behind one.
- Keymap hash table, growth and `compact_log()`: the keymap is a map, its log what the log
  replays to.
- Text parsing and term counts: a document carries its number of terms. Ranking formulas,
  global statistics and stemming: a segment has a ranking.
- Rounding: scores of `segment_search`, `fusion`, `rerank`, `multivector_pool` and `broker`
  are reals, those of `quantum_search` natural numbers that do not overflow.
- Vector normalisation, quantised copies and the `.hnsw` writer of `flush()`; the `.vec`,
  `.vsig`, `.mvec`, `.attr` and `.pay` writers are methods of the writer's buffers, not of
  `SegmentIndex`. In compaction, all sidecars are columns of rows.
- Training and coding of product quantisers, graphs and signatures: in `codebooks` each
  step either succeeds or fails. A store's contents are its number of tokens. The int8 and
  float tiers of the dense side are not modelled.
- QuantumSearch.Search: term weights are 1 (relevance feedback sets others), no `-K` trimming
  (which shortens the last run); precomputed scores are absent; the terms' max-heap is a
  search for the largest next impact. Of a list whose heap a sort has upset, only bounds and
  scores are described. QUANTUM_STOP_DIFF_LARGEST is not modelled for a list of two entries,
  where its scan starts outside the list.
- Equal entries of an upset list, where `min_insert` and `min_update` choose different
  children, are moved alike.
- `qsort()` is a function of the scores and the list: two calls on equal arguments agree.
- The boolean top-k heap.
- Sorting by `qsort()` in `segment_search`, `fusion` and `broker` is a function with the
  comparator's order; the in-place insertion sort of `search_rerank` is modelled as written.
- Filenames: a hit is (score, generation, docid). `rerank` says which places are released.
- Pruning.Prune: inputs that were themselves pruned, where the summed document frequency
  exceeds the postings present. The pruned list is a list of the term's full length.
- PostingsMerger.MergeTerm: postings arrive decompressed, and input iterators, term
  statistics and the B-tree are not modelled; the arithmetic does not wrap.
- Broker: a single server's answer, which is passed through; the answers' XML;
  `get_document`.
- The server loop, the remote client, CGI, editor, gp_rank, Node bindings and parameters.
- LiveIndex.SegmentIndex.Open: speaks of logs whose records are of operations that
  succeeded, which is what the append hooks write; of other logs it promises nothing. What
  the directories of a replay stand for is said for directories in which the keys off the log
  are named alive.
- LostLog.InterruptedLogRebuild: the recovery up to the replay of the write-ahead log.
