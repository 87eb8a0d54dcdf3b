# secshr_db_clnup and parse_file in Dafny

This project models two routines of the YottaDB/GT.M database engine and proves
properties of the models.

**`secshr_db_clnup`** (sr_port/secshr_db_clnup.c) runs when a process leaves a
database, normally or after a failure. Its job:

- decide whether the process was inside a commit that has passed the point of no
  return, for a TP (multi-region) or a non-TP update;
- for every region of every global directory, release what the process held in
  shared memory;
- roll forward the commit elements ("cw-set elements") the process had not yet
  committed in a region whose crit it holds: build each block into a cache record
  (BG) or the mapped file (MM), fix up the chained block pointers, settle
  `free_blocks`, `blks_to_upgrd` and `kill_in_prog`;
- settle the transaction numbers, release crit and reap the latches of the region;
- finish the journal pool's pending write.

Every pointer the C code follows is probed first (`GTM_PROBE`). The model keeps
shared structures in index-addressed arenas: a pointer is `Null` or `At(i)`, and the
probe holds exactly when `i` lies inside the arena and is in the arena's set of
mapped slots. What other processes and outside routines do is a parameter:

- which processes are alive (`is_proc_alive`);
- what a racing process writes into a latch;
- what the block builders produce (`sec_shr_blk_build`, `sec_shr_map_build`).

**`parse_file`** (sr_unix/parse_file.c) turns a file specification into the text in
a parse block's buffer and the offsets and flags of its parts. The steps, in the C
code's order:

1. Translate logical names.
2. Parse the default specification, with syntax checking only.
3. Handle a node prefix (`host:`, `@host:`). A node naming this host is removed.
4. Put the current directory in front of a relative path.
5. Canonicalise the path in place: `./`, `x/../` and runs of `/` are removed.
6. Split the last component into name and extension, with wildcard flags.
7. Take missing parts from the default.
8. Set offsets and flags, then check that the directory exists.

The model has two layers:

- pure functions over sequences: modules `ParseScan` and `ParsePath`;
- an imperative layer on the buffer (module `ParseBlock`, class `ParseBlk` with an
  `array<char>`). Each of its methods is proved to leave the buffer and the fields
  exactly as the functions say.

The outside world is a parameter `Env`:

- the translation of logical names;
- the current directory;
- whether a node name is this host;
- whether a path is a directory.

## Model

| member | source | states |
|---|---|---|
| Arena.Incr32 | sr_port/secshr_db_clnup.c:1291 | a `uint4` increment wraps at 2^32 and is otherwise `x + 1` |
| Latches.CompareAndSwap | sr_port/secshr_db_clnup.c:138-140 | the latch word is replaced exactly when it still holds the expected owner; nothing else changes |
| Latches.CheckLatch | sr_port/secshr_db_clnup.c:126-141 | CHECK_LATCH writes only latch `x`, leaving it as `Reaped` says: freed when this exiting process owns it, or by a CAS keyed on the dead owner's pid |
| Latches.ReapOwnLatch | sr_port/secshr_db_clnup.c:130-135 | a latch this process owns is freed when it is exiting and kept otherwise |
| Latches.ReapDeadOwner | sr_port/secshr_db_clnup.c:136-140 | a latch held by a dead process is freed when nobody races for it |
| Latches.ReapLosesRaceToThirdProcess | sr_port/secshr_db_clnup.c:136-140 | a third process that takes the latch between the liveness check and the CAS keeps it |
| Latches.ReapKeepsLiveOwner | sr_port/secshr_db_clnup.c:130-140 | a free latch, or one held by another live process, is never touched |
| Latches.ReapNeverTakesOwnership | sr_port/secshr_db_clnup.c:126-141 | whatever happens, the reaper never leaves this process as the owner |
| Latches.ReapShmpoolLatch | sr_port/secshr_db_clnup.c:1217-1241 | the pool latch and `shmpool_blocked` end as `ShmpoolReaped` says; no other latch changes |
| Latches.ShmpoolBlockedIffFreed | sr_port/secshr_db_clnup.c:1217-1241 | for a latch held on entry, the pool is marked blocked exactly when the reap leaves its latch free, so a forced release is always followed by recovery |
| CwSets.ModeClasses | sr_port/secshr_db_clnup.c:638 | the ordinal tests on `mode` select exactly write_root/busy2free (non-TP only) and the modes that still build a page |
| CwSets.TopOf | sr_port/secshr_db_clnup.c:504-518 | the newest version found through `high_tlevel` is a probed element |
| CwSets.TopOfIsNewest | sr_port/secshr_db_clnup.c:504-518 | what TopOf finds has no newer version and is reached from the start through probed `high_tlevel` links |
| CwSets.FollowHighTlevel | sr_port/secshr_db_clnup.c:611-627 | the loop returns TopOf's answer for a probed start, Null when a link fails its probe, and an unprobed start unchanged |
| CwSets.NthNextStaysFailed | sr_port/secshr_db_clnup.c:1325-1333 | once a probe along `next_cw_set` fails, every longer walk fails too |
| CwSets.SecshrTpGetCw | sr_port/secshr_db_clnup.c:1320-1348 | the routine as written returns what GetCwAsWritten says |
| CwSets.GetCwAsWrittenAcceptsNull | sr_port/secshr_db_clnup.c:1334-1347 | a list whose `depth`-th link is NULL makes the routine as written answer TRUE with a NULL element |
| CwSets.TpGetCw | sr_port/secshr_db_clnup.c:1320-1348 | corrected walk: TRUE only with a probed element that has no newer version; Null with FALSE |
| Lru.ScanAsWrittenLeavesCache | sr_port/secshr_db_clnup.c:703-710 | with `clru` at the last record, the search as written examines and claims the slot one past the cache |
| Lru.ScanAsWrittenDiscardsLastFind | sr_port/secshr_db_clnup.c:703-722 | a free record found on the last permitted step is discarded by the `lcnt >= max_bts` test |
| Lru.IterInCache | sr_port/secshr_db_clnup.c:703-706 | every step of the corrected search lands inside the region's records |
| Lru.IterAdvances | sr_port/secshr_db_clnup.c:703-706 | below the top the search moves to the next record |
| Lru.EveryRecordExamined | sr_port/secshr_db_clnup.c:703-710 | a budget of `n_bts` steps from inside the cache examines every record |
| Lru.FindFreeSlot | sr_port/secshr_db_clnup.c:701-722 | corrected search: it stays within the shared budget, a claimed record is eligible, and every record examined before it was not |
| Blocks.PutLong | sr_port/secshr_db_clnup.c:884-885 | PUT_LONG writes one word; the header and every other word stay |
| Blocks.CopyPrefix | sr_port/secshr_db_clnup.c:826 | memmove of block images: the words below `n` come from the source and the rest stay |
| Blocks.DecodeChain | sr_port/secshr_db_clnup.c:972 | a word read as an `off_chain` has fields within their bit widths |
| Blocks.EncodeChain | sr_port/secshr_db_clnup.c:958 | an `off_chain` stored as a word fits 32 bits |
| Blocks.DecodeEncode | sr_port/secshr_db_clnup.c:958-972 | storing then reading an `off_chain` gives it back |
| Blocks.EncodeDecode | sr_port/secshr_db_clnup.c:958-972 | reading then storing a word gives it back |
| Blocks.ChainRecord | sr_port/secshr_db_clnup.c:954-957 | the bit-field assignments keep `index` and `next_off` when they fit 15 and 16 bits |
| Blocks.AsSizeOfSmall | sr_port/secshr_db_clnup.c:867-870 | a signed value compared with a `size_t` is taken modulo 2^64 |
| Blocks.ToShort | sr_port/secshr_db_clnup.c:871 | `(short)x` is the low 16 bits, signed, and is `x` when `x` fits |
| Blocks.InsOffInBlockMeansInside | sr_port/secshr_db_clnup.c:867-870 | passing the `ins_off` bounds check means the word written lies inside the block, past the block and record headers |
| Blocks.NonTpInsOffAsWrittenAdmitsNegativeIndex | sr_port/secshr_db_clnup.c:867-872 | an index of -65536 passes the check as written |
| Blocks.NonTpInsOffOkMeansSafe | sr_port/secshr_db_clnup.c:867-872 | the corrected check holds exactly when the offset is inside the block and the index names an earlier element |
| Blocks.NonTpInsOffOkRefinesAsWritten | sr_port/secshr_db_clnup.c:867-872 | the check as written equals the corrected one with the sign taken from the low 16 bits only |
| Blocks.PlantChainRecord | sr_port/secshr_db_clnup.c:951-959 | planting the chain record changes only the word at `ins_off` |
| Blocks.PlantedRecordReadsBack | sr_port/secshr_db_clnup.c:951-959 | the planted word reads back as a flagged record for the element's index and next offset |
| Blocks.WalkChain | sr_port/secshr_db_clnup.c:967-1001 | the walk rewrites exactly the records ChainFrom lists (from `first_off`, each good record, on by `next_off` until a `next_off` of 0 or the first record that fails the checks), each with the block number of the element it names; every other word stays |
| Blocks.RewriteRecord | sr_port/secshr_db_clnup.c:971-996 | one record: a good record is rewritten as Rewrites says and the walk goes on by its `next_off`, or ends after a `next_off` of 0, as ChainFrom continues; any other record ends the walk untouched; no other word changes |
| Blocks.ChainFromEmpty | sr_port/secshr_db_clnup.c:967-976 | the walk rewrites nothing exactly when the first record fails the checks |
| Blocks.ChainFromShape | sr_port/secshr_db_clnup.c:967-1001 | the walk rewrites only good records inside the block, at strictly increasing offsets from where it starts, so none twice |
| Blocks.ChainFromStep | sr_port/secshr_db_clnup.c:967-980 | a good record comes first, followed by the walk from `ptr + next_off` unless `next_off` is 0 |
| Blocks.WalkStops | sr_port/secshr_db_clnup.c:971-998 | a record that fails the checks ends the walk |
| Blocks.WalkEndsAt | sr_port/secshr_db_clnup.c:978-980 | a good record with `next_off` 0 is the last one the walk rewrites |
| Blocks.WalkMovesOn | sr_port/secshr_db_clnup.c:967-980 | a good record with a non-zero `next_off` is rewritten and the walk goes on further into the block |
| Blocks.PlantedChainOfOne | sr_port/secshr_db_clnup.c:951-1001 | a record planted with `next_off` 0 whose element is found is the only record the walk from it rewrites |
| SharedMemory.ProbeRegion | sr_port/secshr_db_clnup.c:93-108 | SECSHR_PROBE_REGION yields a probed sgmnt_addrs only for a probed region that is open and not was_open and whose segment is probed |
| Classify.TpUnderwayIffFirstHit | sr_port/secshr_db_clnup.c:285-319 | the TP walk answers "underway" exactly when it reaches, within its bound, a hit with no hit before it |
| Classify.NoProbeNoSuccessor | sr_port/secshr_db_clnup.c:285-319 | past an sgm_info that fails its probe the walk finds no hit |
| Classify.NoProbeStaysFailed | sr_port/secshr_db_clnup.c:285-319 | once an sgm_info fails its probe, the walk stays failed |
| Classify.ClassifyTp | sr_port/secshr_db_clnup.c:280-320 | the loop computes the TP verdict `TpUnderway` |
| Classify.ClassifyUpdate | sr_port/secshr_db_clnup.c:276-337 | $TLEVEL as probed picks TP or non-TP; each verdict holds exactly when its test does; the two never both hold |
| RollForward.EffectCommits | sr_port/secshr_db_clnup.c:638-1031 | an element either stays as it was or is committed with its mode moved to `old_mode`; one already committed is never changed; links are kept |
| RollForward.FreeBlocksSettled | sr_port/secshr_db_clnup.c:583-588 | with `t_commit_crit`, free_blocks loses every element's reference count, already-committed ones included; without it, only those rolled forward now |
| RollForward.UnstartedIffNoneCommitted | sr_port/secshr_db_clnup.c:601-699 | the region's commit type is UNSTARTED exactly when no element was found committed |
| RollForward.CompleteIffCommittedLast | sr_port/secshr_db_clnup.c:601-699 | COMPLETE exactly when some element was found committed and no uncommitted one came after the last such |
| RollForward.CommitTypeOfOrderedCommit | sr_port/secshr_db_clnup.c:601-699 | for a commit done in list order, UNSTARTED, COMPLETE and PARTIAL mean none, all and some elements committed |
| RollForward.UpgrdDeltaTracksFormat | sr_port/secshr_db_clnup.c:767-790 | `blks_to_upgrd` moves by the block's change into or out of the V4 format; recycled blocks never move it |
| RollForward.ClaimedHoldsBlock | sr_port/secshr_db_clnup.c:728-790 | a claimed record holds the element's block in the desired format under a new cycle and, being stopped, is never eligible again |
| RollForward.ClaimRecord | sr_port/secshr_db_clnup.c:701-790 | a found record is claimed for the element and nothing else changes; when none is found nothing changes and the budget is spent |
| RollForward.BuildMap | sr_port/secshr_db_clnup.c:808-845 | a bitmap page is copied from `old_block` and rebuilt; it fails, changing nothing, only when `old_block` is unmapped |
| RollForward.BuildNonTp | sr_port/secshr_db_clnup.c:848-911 | only the element's page changes; the block pointers go in at `ins_off` (and a following write_root's) only after their bounds checks |
| RollForward.RootAfter | sr_port/secshr_db_clnup.c:886-887 | the following element exactly when it is a write_root below `cs_top` |
| RollForward.BuildTp | sr_port/secshr_db_clnup.c:912-1002 | the build succeeds exactly as BuildSucceeds says; then the element is as TpPlanted says and the page is TpBase's page with exactly the records ChainFrom lists rewritten as Rewrites says; on failure the element stays; no other page or element changes |
| RollForward.LayTpBase | sr_port/secshr_db_clnup.c:912-966 | the build succeeds exactly as BuildSucceeds says; then the page is as TpBase says and the element as TpPlanted says; on failure the element stays; only that page and that element change |
| RollForward.LocatePage | sr_port/secshr_db_clnup.c:701-807 | the buffer is as Located says: MM the block's place in the mapped file with nothing changed; BG every record passed over was ineligible, none is found only when the region's budget is spent, and a found record is claimed for the element; free_blocks and the header's other non-count fields stay |
| RollForward.MmPage | sr_port/secshr_db_clnup.c:793-806 | MM: the block's place in the mapped file exactly when it lies inside the file and probes |
| RollForward.BuildPage | sr_port/secshr_db_clnup.c:808-1003 | `ok` exactly when BuildSucceeds holds of the page before the build; a bitmap page is rebuilt from a copy of `old_block`; a non-TP page changes only at `ins_off` (and a following write_root's), each then holding the block number of the element its index names; a TP page as BuildTp says; on failure the element is unchanged |
| RollForward.BuildAndCommit | sr_port/secshr_db_clnup.c:808-1028 | the element is rolled (committed, free_blocks less its count) exactly when the build succeeds on the buffer's page; otherwise it is skipped as a failed build and stays as it was |
| RollForward.SeeCommitted | sr_port/secshr_db_clnup.c:648-691 | a committed element takes its count off free_blocks only under `t_commit_crit`; a record left `in_tend` is unmarked |
| RollForward.Commit | sr_port/secshr_db_clnup.c:1004-1031 | the element becomes committed with its mode in `old_mode`; free_blocks loses its count; a freeing bitmap update takes one off blks_to_upgrd |
| RollForward.RollElement | sr_port/secshr_db_clnup.c:692-1031 | the buffer is found as Located says; without one the element is skipped for that reason; with one it is rolled exactly when the build succeeds on the buffer's page and otherwise skipped as a failed build; free_blocks moves by exactly what it consumed |
| RollForward.ProcessElement | sr_port/secshr_db_clnup.c:630-1031 | one element relabelled, counted, rolled or skipped; only its slot changes, free_blocks moves by what it consumed, and a skipped element failed for the reason SkipExplained gives |
| RollForward.SkipExplainedLater | sr_port/secshr_db_clnup.c:701-722 | the search budget is only spent further, so the reason for a skip stays true for the rest of the region |
| RollForward.TopOfSameLinks | sr_port/secshr_db_clnup.c:611-627 | the newest version depends only on the `high_tlevel` links, which processing never changes |
| RollForward.FindTop | sr_port/secshr_db_clnup.c:605-625 | the newest version of the list element is what the walk visits next, the walk going on from the element's `next_cw_set`; `stop` exactly when a probe fails on the way and the walk is over |
| RollForward.StepKeepsCommittedFrom | sr_port/secshr_db_clnup.c:605-1031 | processing one element keeps committed elements committed |
| RollForward.VisitTp | sr_port/secshr_db_clnup.c:605-630 | one TP turn follows the walk from the list element, processes its newest version and moves to `next_cw_set`; a failed probe stops with nothing changed |
| RollForward.TpProgressStep | sr_port/secshr_db_clnup.c:605-1031 | processing the next element of the TP walk keeps the loop's bookkeeping: the elements visited, their outcomes, the commit type and free_blocks |
| RollForward.TurnTp | sr_port/secshr_db_clnup.c:605-1031 | one TP turn keeps the loop's bookkeeping, the commit type moving by the element's outcome |
| RollForward.TpLoopTurn | sr_port/secshr_db_clnup.c:605-1031 | a turn that visits the next element of the walk keeps what the TP loop keeps, with the commit type moved by the outcome |
| RollForward.TpLoopEnd | sr_port/secshr_db_clnup.c:605-627 | when the TP loop ends nothing of the walk remains, so every element it reaches was visited |
| RollForward.RollTp | sr_port/secshr_db_clnup.c:603-1031 | every element the TP walk reaches is processed in order as TpProgress says (effects, commit type, free_blocks less what they consumed), and every skipped one failed for the reason its outcome gives |
| RollForward.NonTpProgressStep | sr_port/secshr_db_clnup.c:605-1031 | processing the next slot keeps the non-TP bookkeeping: slots before it have their effect, later ones are untouched, free_blocks moves by what was consumed |
| RollForward.TurnNonTp | sr_port/secshr_db_clnup.c:605-1031 | one non-TP turn processes the next slot and keeps the loop's bookkeeping |
| RollForward.RollNonTp | sr_port/secshr_db_clnup.c:603-1031 | the elements are processed in order up to `cs_top`, stopping early exactly at the first that fails its probe; each ends as its outcome says, free_blocks loses what they consumed, and every skip is explained |
| CommitRegion.TpKipRaisesWithFlag | sr_port/secshr_db_clnup.c:1034-1056 | kill_in_prog rises by one exactly when `kip_incremented` goes from clear to set, only for an unfinished commit with a kill set whose sgm_info is writable |
| CommitRegion.TpKipSettles | sr_port/secshr_db_clnup.c:1049-1056 | afterwards an unfinished region with a kill set has its flag set, and deciding again raises nothing |
| CommitRegion.NonTpKipRaisesOnce | sr_port/secshr_db_clnup.c:1058-1083 | kill_in_prog rises exactly when `need_kip_incr` is set and `kip_incremented` clear; both flags flip, so a second cleanup raises nothing |
| CommitRegion.ApplyTpKip | sr_port/secshr_db_clnup.c:1042-1056 | the TP decision is applied to the sgm_info and the file header |
| CommitRegion.ApplyNonTpKip | sr_port/secshr_db_clnup.c:1060-1083 | the non-TP decision is applied to the two process flags and the file header |
| CommitRegion.CommitTpRegion | sr_port/secshr_db_clnup.c:603-1056 | the walk's elements end as TpVisited says with every skip explained; free_blocks loses what the outcomes consumed; kill_in_prog and `kip_incremented` follow the TP decision on the commit type those outcomes give |
| CommitRegion.CommitNonTpRegion | sr_port/secshr_db_clnup.c:603-1083 | the elements up to `cs_top`, stopping at the first failed probe, end as NonTpVisited says with every skip explained; free_blocks loses what the outcomes consumed; then the non-TP kill_in_prog decision on the two flags |
| CommitRegion.RollRegion | sr_port/secshr_db_clnup.c:574-1084 | only the counters of the file header change: free_blocks starts again from `prev_free_blks` under `t_commit_crit` and loses what the outcomes consumed, kill_in_prog as decided (Counted); the elements end as ElementsRolled says |
| RegionRelease.ReapMany | sr_port/secshr_db_clnup.c:1248-1251 | reaping a list of latches keeps the latch array's size |
| RegionRelease.ReapManyDistinct | sr_port/secshr_db_clnup.c:1248-1251 | reaping distinct latches reaps each once and leaves the others alone |
| RegionRelease.CheckLatches | sr_port/secshr_db_clnup.c:1245-1252 | CHECK_UNIX_LATCH in turn on each latch of the list |
| RegionRelease.GiveBackSharesOnce | sr_port/secshr_db_clnup.c:396-416 | each shared counter drops by at most one, only for a share the process's own flag says it holds; `wcs_timers` stays ≥ -1, `in_wtstart` ≥ 0; the process ends holding no share |
| RegionRelease.GiveBack | sr_port/secshr_db_clnup.c:396-416 | the shares are given back into sgmnt_addrs and node_local as GiveBackShares says |
| RegionRelease.ReleaseNodeLocal | sr_port/secshr_db_clnup.c:377-417 | `csa->ti` is pointed back at the header; an exiting process reaps `wc_var_lock` and gives back its shares |
| RegionRelease.AbandonedEmptiesOwnReads | sr_port/secshr_db_clnup.c:452-462 | a clean record this process was reading is emptied under a new cycle; any other record stays |
| RegionRelease.RipLatches | sr_port/secshr_db_clnup.c:442-451 | the rip latches of records `[start, i)` in order |
| RegionRelease.VisitRecord | sr_port/secshr_db_clnup.c:451-462 | one record: its rip latch is reaped and a read this process left in flight abandoned |
| RegionRelease.WalkCache | sr_port/secshr_db_clnup.c:442-464 | every record in `[start, top)` gets its rip latch reaped and its own read abandoned; records outside stay |
| RegionRelease.JbReleasedOwnsNothing | sr_port/secshr_db_clnup.c:1093-1120 | afterwards no owner field of the journal buffer names this process, and the pointers it was moving hold the values it meant |
| RegionRelease.ReleaseJnlBuffer | sr_port/secshr_db_clnup.c:1086-1130 | with journalling on, an exiting process reaps the fsync latch, releases the I/O latch it holds and gives up the buffer's owner fields |
| RegionRelease.ReleaseFreezeAndBlockCache | sr_port/secshr_db_clnup.c:1131-1157 | an own non-persistent freeze is lifted on exit; a BG region with `wbuf_dqd` or crit gets `wc_blocked`; `wbuf_dqd` is cleared |
| RegionRelease.FreezeLiftedOnExit | sr_port/secshr_db_clnup.c:1131-1135 | after an exit no non-persistent freeze is left in this process's name |
| RegionRelease.ReconciledAgree | sr_port/secshr_db_clnup.c:1160-1172 | given `early_tn` is `curr_tn` or one more, the two agree afterwards: at `early_tn` when an update was underway, at `curr_tn` otherwise, never below the old `curr_tn` |
| RegionRelease.ReleaseHeldCrit | sr_port/secshr_db_clnup.c:1158-1198 | the transaction numbers are settled and `t_commit_crit` cleared; with node_local and crit writable, an own `in_crit` is cleared and `now_crit` dropped |
| RegionRelease.ReleaseCrit | sr_port/secshr_db_clnup.c:1157-1212 | crit is released as above when held; otherwise a read lock is dropped when crit is writable |
| RegionRelease.DropReadLock | sr_port/secshr_db_clnup.c:1199-1212 | a read lock on crit is dropped exactly when crit can be written; nothing else changes |
| RegionRelease.ReleaseShmpool | sr_port/secshr_db_clnup.c:1214-1242 | on exit, the pool latch is reaped and the pool blocked as ReapShmpoolLatch says, when the pool is writable |
| RegionRelease.ReapCritLatches | sr_port/secshr_db_clnup.c:1245-1252 | with node_local and crit writable, the four crit latches are reaped in order |
| JournalPool.SubtractKeepsResidue | sr_port/secshr_db_clnup.c:1285-1288 | one subtraction of `jsize` keeps the residue |
| JournalPool.AdvanceWrite | sr_port/secshr_db_clnup.c:1285-1289 | the subtraction loop yields `((write + len) mod 2^32) mod jsize` without dividing |
| JournalPool.AdvanceIsRingStep | sr_port/secshr_db_clnup.c:1285-1289 | without 32-bit wrap the new offset is `(write + len) mod jsize` |
| JournalPool.AdvancedCatchesUp | sr_port/secshr_db_clnup.c:1272-1291 | after the fixup write_addr reaches early_write_addr (when the gap is below 2^32) and never passes it, jnl_seqno rises by one, the offset stays inside the ring and the header at the old offset links back to the last write |
| JournalPool.AdvancePool | sr_port/secshr_db_clnup.c:1270-1296 | the pool is advanced exactly when it is behind, the update underway, the header writable and the size non-zero |
| JournalPool.FixJnlPool | sr_port/secshr_db_clnup.c:1256-1316 | only the pool of the journal pool region held in crit changes, as PoolsFixed says, and only that region's node_local, whose `in_crit` is cleared when it names the process and node_local and crit can be written |
| JournalPool.PoolRegion | sr_port/secshr_db_clnup.c:1256-1261 | the journal pool region's sgmnt_addrs only when its address is registered, the region probes and the process holds its crit |
| JournalPool.ClearInCrit | sr_port/secshr_db_clnup.c:1301-1302 | `in_crit` is cleared exactly when it names the process; no other node_local changes |
| Clnup.Reach | sr_port/secshr_db_clnup.c:346-438 | the region gets past the probes and `continue`s only when SECSHR_PROBE_REGION, the header and node_local (and for BG the section and records) pass |
| Clnup.EnterRegion | sr_port/secshr_db_clnup.c:346-465 | the region is reached exactly as Reach says; then its sgmnt_addrs and node_local become Entered and NlEntered of what they were, crit kept, and no other sgmnt_addrs changes |
| Clnup.EnterProbed | sr_port/secshr_db_clnup.c:376-465 | once the probes pass, the region's sgmnt_addrs and node_local become Entered and NlEntered of what they were, and no other slot of either changes |
| Clnup.EnterCache | sr_port/secshr_db_clnup.c:418-465 | BG: the records count as reachable exactly when the section is sized and mapped and the records probe; on exit each record in range is walked as WalkCache says, the others stay |
| Clnup.MatchingSi | sr_port/secshr_db_clnup.c:476-523 | the sgm_info found is probed and on the region's file; none past the bound or a failed probe |
| Clnup.MatchingSiFirst | sr_port/secshr_db_clnup.c:476-523 | a match is the sgm_info itself when on the file, else the match of the rest |
| Clnup.FindSi | sr_port/secshr_db_clnup.c:476-523 | the loop finds MatchingSi's sgm_info, matching by file and not by region |
| Clnup.NonTpTop | sr_port/secshr_db_clnup.c:543-547 | `cs_top` is `*cw_depth_addrs` when that fits the element array |
| Clnup.LocateFirstCw | sr_port/secshr_db_clnup.c:466-562 | the first element and the GTMASSERT are as FirstLocated says: TP, the newest version of the first element of the sgm_info on the region's file; non-TP under `t_commit_crit`, the element array, GTMASSERT without crit or an underway update; else Null |
| Clnup.ReleaseOwners | sr_port/secshr_db_clnup.c:1086-1157 | the journal buffer, freeze and wc_blocked are released; the region's sgmnt_addrs changes only in `wbuf_dqd`, and the transaction numbers stay |
| Clnup.ReleaseLocks | sr_port/secshr_db_clnup.c:1157-1252 | for a region held in crit the transaction numbers are settled and `t_commit_crit` cleared, and crit released when node_local and crit can be written; otherwise the numbers stay and crit is not held; free_blocks and kill_in_prog stay |
| Clnup.ReleaseRegion | sr_port/secshr_db_clnup.c:1086-1252 | the region's owners, then its locks, are released as Released says; the commit elements and sgm_infos stay |
| Clnup.CommitIfHeld | sr_port/secshr_db_clnup.c:574-1084 | the commit is rolled forward exactly when crit is held and a first element exists, and then as RolledForward says (Counted and ElementsRolled in the region's context, clru starting at `cur_lru_cache_rec_off`); otherwise the file headers and the elements stay; the transaction numbers are left for the crit release |
| Clnup.LocateAndCommit | sr_port/secshr_db_clnup.c:466-1084 | the region ends as Committed says: the first element located as FirstLocated says, then the commit rolled forward exactly when there is no GTMASSERT, crit is held and there is an element, as RolledForward says; only the counters of the region's file header change |
| Clnup.FinishRegion | sr_port/secshr_db_clnup.c:466-1253 | the region ends as Finished says: its commit as Committed says, then, unless a GTMASSERT, its release as Released says (crit released when node_local and crit can be written; the transaction numbers settled and `t_commit_crit` clear when crit was held; the commit counters kept) |
| Clnup.ReleaseFinishes | sr_port/secshr_db_clnup.c:466-1253 | a commit as Committed says followed, unless a GTMASSERT, by a release as Released says ends as Finished says |
| Clnup.ProcessRegion | sr_port/secshr_db_clnup.c:346-1253 | the region is reached exactly as Reach says; a reached one ends as Finished says from the state before the body, with sgmnt_addrs and node_local as entering left them; one not reached changes no element and no file header |
| Clnup.EnteredFinishes | sr_port/secshr_db_clnup.c:376-418 | entering a region keeps what the commit reads of sgmnt_addrs and node_local, so a region that ends as Finished says from the entered state ends so from the state before |
| Clnup.EnteredKeepsCommit | sr_port/secshr_db_clnup.c:376-418 | entering keeps `now_crit`, `t_commit_crit`, `prev_free_blks`, the MM base and `backup_in_progress` |
| Clnup.ProcessGld | sr_port/secshr_db_clnup.c:344-1253 | the regions of one global directory in order: all of them get through the body unless a GTMASSERT stops the walk in one of them; the latches stay in range |
| Clnup.SecshrDbClnup | sr_port/secshr_db_clnup.c:177-1318 | the verdict is the classification of the state on entry: TP exactly when `dollar_tlevel` is set and the walk from `first_tp_si_by_ftok` reaches a region with a commit underway, non-TP exactly when `dollar_tlevel` is clear and a non-TP commit was underway, never both; when get_next_gdr_addrs is not registered nothing is changed (lines 209-210); after a GTMASSERT the journal pools are untouched; otherwise they end as PoolsFixed says and the `in_crit` of the journal pool region held in crit no longer names the process when node_local and crit can be written |
| Buffers.Moved | sr_unix/parse_file.c:310 | after memmove the `n` characters from `src` stand at `dst`; everything outside is as it was |
| Buffers.Move | sr_unix/parse_file.c:310 | memmove copies in the direction that reads every character before overwriting it, giving Moved |
| Buffers.MoveDown | sr_unix/parse_file.c:310 | copying towards the start, front to back, leaves the `n` source characters at `dst` and everything else as it was |
| Buffers.MoveUp | sr_unix/parse_file.c:258 | copying towards the end, back to front, leaves the `n` source characters at `dst` and everything else as it was |
| Buffers.Put | sr_unix/parse_file.c:259 | memcpy of `s` at `at` replaces exactly `|s|` characters |
| ParseScan.LastSlash | sr_unix/parse_file.c:298-299 | the backward search stops at the last `/` at or before `i`, never before `base` |
| ParseScan.Climb | sr_unix/parse_file.c:293-302 | a `..` cut point lies just past a `/`, with no `/` between it and the dots |
| ParseScan.SlashRunEnd | sr_unix/parse_file.c:306-307 | the run of `/` ends at the first other character |
| ParseScan.NameEnd | sr_unix/parse_file.c:319-331 | a name runs to the next `/` or the end and holds no `/` |
| ParseScan.LastDot | sr_unix/parse_file.c:324-327 | `ext` ends at the last `.` of the name, or none |
| ParseScan.DotStep | sr_unix/parse_file.c:270-273 | a dot moves DOT1 to DOT2 and every other state to DOT1; the NAME arm is never taken |
| ParseScan.SlashStep | sr_unix/parse_file.c:274-315 | a `/` ends a directory: the buffer never grows, the root is kept, flags reset, `wilddir` absorbs `wildname` |
| ParseScan.SlashStepWf | sr_unix/parse_file.c:274-315 | a `/` keeps the scan's invariant |
| ParseScan.NameStep | sr_unix/parse_file.c:317-332 | a name is read whole into the buffer, state NAME |
| ParseScan.NameStepWf | sr_unix/parse_file.c:317-332 | a name keeps the scan's invariant |
| ParseScan.WildShift | sr_unix/parse_file.c:328-329 | a name carries a wildcard exactly when the part read holds `?` or `*` |
| ParseScan.Step | sr_unix/parse_file.c:267-334 | every turn consumes input, never grows the buffer and never touches the root |
| ParseScan.StepWf | sr_unix/parse_file.c:267-334 | every turn keeps the scan's invariant |
| ParseScan.Run | sr_unix/parse_file.c:267-334 | the loop consumes all input; the buffer never grows past the input |
| ParseScan.RunWf | sr_unix/parse_file.c:267-334 | the loop keeps the scan's invariant |
| ParseScan.RunDot | sr_unix/parse_file.c:270-273 | a dot is copied through and moves only the state |
| ParseScan.RunSlash | sr_unix/parse_file.c:274-315 | a `/` is one SlashStep |
| ParseScan.DotSlashRemoved | sr_unix/parse_file.c:284-290 | after a `/`, `./` leaves no trace |
| ParseScan.SlashRunCollapses | sr_unix/parse_file.c:303-307 | after a `/`, another `/` leaves no trace |
| ParseScan.SlashRunAfter | sr_unix/parse_file.c:303-307 | skipping the run of `/` after one put in front is skipping it in the rest |
| ParseScan.RunParent | sr_unix/parse_file.c:291-302 | after a `/`, `../` cuts the buffer back to the directory before it, or to the root |
| ParseScan.ParentRemoved | sr_unix/parse_file.c:291-302 | after `x/`, `../` removes `x/` and itself |
| ParseScan.RootParentStays | sr_unix/parse_file.c:295-302 | at the root, `../` is dropped and the root stays |
| ParseScan.ThreeDotsMerge | sr_unix/parse_file.c:273 | `/.../` is not a name: it becomes `..` run into the next component |
| ParseScan.Finish | sr_unix/parse_file.c:336-360 | a scan ending after `/`, `.` or `..` saw a directory; the buffer only shrinks; the name and extension flags and the wild-directory flag are kept |
| ParseScan.TrailingDotDropped | sr_unix/parse_file.c:340-344 | a trailing `.` ends like `./` |
| ParseScan.TrailingParentDropped | sr_unix/parse_file.c:345-359 | a trailing `..` ends like `../` |
| ParseScan.ParentAtEndCuts | sr_unix/parse_file.c:345-359 | a trailing `..` after `/` cuts back to the directory before it |
| ParseScan.ParentThenEndCuts | sr_unix/parse_file.c:288-315 | a trailing `../` after `/` cuts back the same way |
| ParseScan.RunDotDot | sr_unix/parse_file.c:270-273 | a trailing `..` only moves to the buffer, ending in DOT2 |
| ParseScan.FinishFinal | sr_unix/parse_file.c:336-360 | a finished scan is laid out as Final says: the text starts with `/` at the root, a name holds no `/`, the extension starts at the name's last dot, and the name wildcard flag is whether the name has a wildcard |
| ParseScan.Canonical | sr_unix/parse_file.c:265-360 | the whole scan ends laid out and no longer than its input |
| ParseScan.ClimbBack | sr_unix/parse_file.c:295-302 | the backward loop finds Climb's cut point |
| ParseScan.SlashAt | sr_unix/parse_file.c:274-315 | on the buffer, a `/` does what SlashStep says |
| ParseScan.CutSlash | sr_unix/parse_file.c:284-315 | the cut after `.`, `..` or `/` does what SlashStep says |
| ParseScan.CutPoints | sr_unix/parse_file.c:288-308 | where the cut starts and ends for DOT1, DOT2 and SLASH |
| ParseScan.CutAt | sr_unix/parse_file.c:310-313 | one memmove removes `del..ptr` and both pointers move back by its length |
| ParseScan.SlashCut | sr_unix/parse_file.c:284-315 | a `/` after `.`, `..` or `/` is a cut at `del` resuming after `skip` |
| ParseScan.SkipSlashes | sr_unix/parse_file.c:306-307 | the loop skips SlashRunEnd's run |
| ParseScan.NameAt | sr_unix/parse_file.c:317-332 | on the buffer, a name does what NameStep says, only reading |
| ParseScan.NameChar | sr_unix/parse_file.c:321-330 | one name character updates the last dot and the wildcard flag |
| ParseScan.NameScan | sr_unix/parse_file.c:319-331 | the inner loop stops at NameEnd with `ext`, `hasext` and `wildname` as the characters read say |
| ParseScan.DotAt | sr_unix/parse_file.c:270-273 | on the buffer, a dot does what DotStep says |
| ParseScan.StepAt | sr_unix/parse_file.c:267-334 | on the buffer, one turn does what Step says |
| ParseScan.CanonScan | sr_unix/parse_file.c:265-360 | the in-place scan leaves the buffer and pointers as Canonical says |
| ParseScan.ScanLoop | sr_unix/parse_file.c:267-334 | the loop on the buffer does what Run says |
| ParseScan.FinishAt | sr_unix/parse_file.c:336-360 | the scan end on the buffer does what Finish says |
| ParseScan.ParentAtEnd | sr_unix/parse_file.c:345-359 | a trailing `..` on the buffer goes with the directory before it |
| ParsePath.DirOf | sr_unix/parse_file.c:403-405 | the directory is `b_dir` long |
| ParsePath.NameOf | sr_unix/parse_file.c:387 | the name is `b_name` long |
| ParsePath.ExtOf | sr_unix/parse_file.c:388 | the extension is `b_ext` long |
| ParsePath.DefaultsOf | sr_unix/parse_file.c:102-105 | the default directory counts as present when its bit is set or it is non-empty; the directory, name and extension are the default parse's own parts |
| ParsePath.NodeEnd | sr_unix/parse_file.c:138-148 | the node scan stops just past the first `:`, with no `:` or `/` before it, or at the end |
| ParsePath.Place | sr_unix/parse_file.c:107-263 | a remote node leaves text after it; a local text fits `buff_size` past its root, starts with `/` and is well formed for the scan |
| ParsePath.PlaceNode | sr_unix/parse_file.c:149-263 | the same, once the node scan has stopped |
| ParsePath.LocalText | sr_unix/parse_file.c:253-263 | the text is `lead + cwd + rest`, the root just after `lead`, the scan starting after `cwd` |
| ParsePath.CwdPrefix | sr_unix/parse_file.c:253-263 | without a node: ERR_PARBUFSM exactly when a relative path and cwd exceed `buff_size`; cwd goes in front only of a relative path |
| ParsePath.NodeAtColon | sr_unix/parse_file.c:138-148 | the scan stops just past the first `:` when no `:` or `/` precedes it |
| ParsePath.NoNodeBefore | sr_unix/parse_file.c:138-148 | a `/` before any `:`, or no `:`, runs the scan to the end |
| ParsePath.AtNodeRemote | sr_unix/parse_file.c:129-150 | after `@`, a node is always remote, even this host |
| ParsePath.LocalNodeRemoved | sr_unix/parse_file.c:149-250 | a node naming this host is removed with its `:`, and the rest is placed as with no node |
| ParsePath.NoNodeAsPlain | sr_unix/parse_file.c:247-254 | text without a node is placed as if F_PARNODE were clear |
| ParsePath.TrailingColonNotNode | sr_unix/parse_file.c:138-149 | a name whose only `:` is its last character holds no node |
| ParsePath.SlashFirstNotNode | sr_unix/parse_file.c:142-146 | a `/` before any `:` means no node |
| ParsePath.AtWithoutNode | sr_unix/parse_file.c:129-263 | after `@` with no node, `@` stays in front and cwd goes between it and the rest, even before a full path |
| ParsePath.RemoteBlk | sr_unix/parse_file.c:227-237 | remote: node then all the rest as directory, no name or extension, `b_esl = b_node + b_dir`, only V_HAS_NODE |
| ParsePath.Complete | sr_unix/parse_file.c:361-373 | success is laid out from the root with the scan's flags and within `buff_size`; ERR_PARBUFSM only when a default part was used |
| ParsePath.AddExt | sr_unix/parse_file.c:374-386 | success is laid out with the given flags; ERR_PARBUFSM only when the default extension or directory was used |
| ParsePath.Lay | sr_unix/parse_file.c:387-412 | success is laid out with the given flags and `b_esl <= buff_size`; ERR_PARBUFSM only when the default directory was used, and then only `b_name` and `b_ext` are set |
| ParsePath.DirChecked | sr_unix/parse_file.c:413-424 | ERR_FILENOTFND exactly when the check runs (no F_SYNTAXO, no wild dir, `b_dir > 1`) and the directory is not one; only its last character can change, and back to `/` |
| ParsePath.Placed | sr_unix/parse_file.c:107-425 | a success is laid out, or remote with F_PARNODE and no name or extension; ERR_FILENOTFND never with F_SYNTAXO |
| ParsePath.ParseLocal | sr_unix/parse_file.c:265-425 | a local success is laid out without a node bit and within `buff_size` |
| ParsePath.Parse | sr_unix/parse_file.c:78-425 | adds to Placed: a translation longer than `buff_size` is ERR_PARBUFSM |
| ParsePath.DefaultsOfOk | sr_unix/parse_file.c:102-105 | the parts of a well-laid default parse are well formed |
| ParsePath.NamePos | sr_unix/parse_file.c:361-364 | the name starts after the root and within the text |
| ParsePath.NameExtParts | sr_unix/parse_file.c:361-388 | before the dir default: the directory as scanned, then the chosen name, then the chosen extension |
| ParsePath.LayParts | sr_unix/parse_file.c:387-407 | the default directory, or the scanned one, then the name and extension as they were |
| ParsePath.CompleteParts | sr_unix/parse_file.c:361-407 | each part comes from the default only when the scan found none, and the scan's own parts are kept |
| ParsePath.ChosenOk | sr_unix/parse_file.c:361-402 | the chosen parts are well formed when the default's are |
| ParsePath.CompleteSplit | sr_unix/parse_file.c:361-412 | a successful completion is well formed: root `/`, name with no `/`, extension at its last dot |
| ParsePath.DirCheckedSplit | sr_unix/parse_file.c:413-424 | the directory check keeps a parse well formed |
| ParsePath.ParseSplit | sr_unix/parse_file.c:78-425 | every successful local parse is well formed, whichever parts came from the recursive default parse |
| ParsePath.PlacedSplit | sr_unix/parse_file.c:107-425 | the same once the default is known |
| ParseBlock.ParseBlk.constructor | sr_unix/parse_file.c:90-97 | a fresh block of `buff_size + 1` characters with cleared result fields |
| ParseBlock.ParseFile | sr_unix/parse_file.c:58-426 | status, result fields and buffer text are those of Parse; the default parse recurses on a fresh block |
| ParseBlock.DefaultsIn | sr_unix/parse_file.c:102-105 | the default's parts read from its block are DefaultsOf |
| ParseBlock.PlacedIn | sr_unix/parse_file.c:107-425 | on the buffer, status and fields are those of Placed |
| ParseBlock.SetRemote | sr_unix/parse_file.c:227-237 | the fields become RemoteBlk's |
| ParseBlock.PlaceIn | sr_unix/parse_file.c:107-263 | on the buffer, the outcome and text are those of Place; a remote node leaves the buffer untouched |
| ParseBlock.NodeIn | sr_unix/parse_file.c:129-148 | `@` skipped, node scanned, then Place's outcome on the buffer |
| ParseBlock.NodeAt | sr_unix/parse_file.c:149-263 | PlaceNode's outcome on the buffer |
| ParseBlock.NodeFound | sr_unix/parse_file.c:149-250 | a found node is remote or removed as PlaceNode says |
| ParseBlock.DropNode | sr_unix/parse_file.c:239-263 | this host's node removed with its `:`, cwd in front unless a full path follows |
| ParseBlock.Shift | sr_unix/parse_file.c:241 | memmove of `n` characters to the start of the buffer |
| ParseBlock.CwdIn | sr_unix/parse_file.c:253-263 | ERR_PARBUFSM exactly when cwd and text exceed `buff_size`; else cwd goes in front of the text |
| ParseBlock.NodeScan | sr_unix/parse_file.c:138-148 | the loop stops at NodeEnd |
| ParseBlock.Prefix | sr_unix/parse_file.c:256-262 | the text moves up and the prefix goes in front of it |
| ParseBlock.Splice | sr_unix/parse_file.c:396-399 | memmove then memcpy leave `part` followed by the moved characters |
| ParseBlock.Relocate | sr_unix/parse_file.c:396-398 | memmove keeps what lies before `keep` |
| ParseBlock.LocalIn | sr_unix/parse_file.c:265-425 | on the buffer, status and fields are those of ParseLocal |
| ParseBlock.ScanIn | sr_unix/parse_file.c:265-360 | the scan leaves Canonical's buffer |
| ParseBlock.FinishIn | sr_unix/parse_file.c:361-425 | Complete, then DirChecked on success |
| ParseBlock.CompleteIn | sr_unix/parse_file.c:361-373 | on the buffer, status and fields are those of Complete |
| ParseBlock.ExtIn | sr_unix/parse_file.c:374-386 | on the buffer, those of AddExt |
| ParseBlock.PutDefault | sr_unix/parse_file.c:366-371 | the default part is appended exactly when it fits counting from the root |
| ParseBlock.LayIn | sr_unix/parse_file.c:387-412 | on the buffer, status and fields are those of Lay |
| ParseBlock.DirInto | sr_unix/parse_file.c:389-402 | the default directory replaces the scanned one and the name and extension follow it |
| ParseBlock.DirCheck | sr_unix/parse_file.c:413-424 | NUL written, directory looked up, `/` written back, status those of DirChecked |

## Left out

- The other files of the repository are not part of this model. That covers the
  command front ends (`mupip`, `lke_main`), `ydb_exit`, `zshow_devices`,
  `fgn_getinfo`, `ydb_dmp_tracetbl`, `ydb_zwr2str_s`, `iomt_skiprecord` and the
  opcode table.
- `is_proc_alive`, `sec_shr_blk_build`, `sec_shr_map_build` and `mutex_unlockw` are
  parameters of the model. They are called from code the model does not contain.
- `send_msg(ERR_WCBLOCKED)` and the SECSHR_ACCOUNTING trace are not modelled. Both
  are output only and never steer control flow.
- The shared-memory write barrier is not modelled, because the model has one thread.
- Code that runs only on VMS (`VMS_ONLY`) is not modelled. This includes
  `mutex_stoprelw`, `qio_active` and image counts on latches.
- `GTM_PROBE` is a set of mapped arena slots, and the model does not reason about
  byte ranges. Probes of fixed-size scalar pointers are folded into `Option`
  parameters.
- CwSets.TopOf, Classify.TpUnderway, RollForward.TpWalk and RollForward.RollTp
  (fuel: the number of TP elements), and Clnup.MatchingSi and Clnup.FindSi (fuel:
  the number of sgm_infos) follow at most as many links as the arena has slots. The
  C loops (lines 476-523 and 603-627 among them) have no bound and spin forever on a
  cycle; the model stops there instead. No acyclic list is cut short.
- The debug-only `assert`s and DEBUG_ONLY code are not modelled. Where the proofs
  need an invariant that GT.M asserts, it is a precondition: RegionRelease.ReconciledAgree
  assumes `early_tn` is `curr_tn` or one more.
- Three pointers that the C code follows without a probe are assumed to be valid:
  `new_buff`, the non-TP element array and `cur_lru_cache_rec_off`.
- In `parse_file`, `trans_log_name` is a function parameter. Its buffer-too-long
  outcome is taken to happen exactly when the translation is longer than `buff_size`.
- In `parse_file`, `setzdir` (the current directory), the address lookups of lines
  166-225 and `STAT_FILE` are parameters of `Env`.
- The failure of `gethostname` (line 180), which raises an error in C, is not
  modelled.
- ParsePath.Parse: the buffer text after ERR_PARBUFSM is not stated. The C code may
  already have changed the buffer by then.
- ParsePath.Place: a local path leaves `l_node` and `b_node` as they were, as the C
  code does. The model does not state their stale values.
- In `parse_file`, the `MIN(..., MAX_FN_LEN)` bounds of lines 241 and 258 never take
  effect, because `buff_size <= MAX_FN_LEN`. The model copies the whole text.
- The `memcpy` of line 398 copies between overlapping ranges. It is modelled as
  `memmove`, as the C code intends: the characters move down.
- ClaimRecord, BuildNonTp and WalkChain (and through them BuildPage, RollElement and
  the whole roll-forward) are built on the corrected Lru.FindFreeSlot,
  Blocks.NonTpInsOffOk and CwSets.TpGetCw, not on the code as written at lines
  703-712, 871 and 1334-1347. So Clnup.SecshrDbClnup models the routine with those
  three fixes. The as-written behaviour is stated only by the members named under
  "## Findings".
- Blocks.Page keeps its words keyed by byte offset and does not model bytes. A
  PUT_LONG at `k` leaves the words at `k-3 .. k-1` and `k+1 .. k+3`, which overlap
  it in C, unchanged, and CopyPrefix copies a word that straddles `n` whole. This
  matters only to a corrupted chain whose records overlap (`next_off` below 4).
- ProcessGld: per region it states only that the walk got through it. Several region
  descriptors can share one sgmnt_addrs, node_local and file header, so a later
  region can overwrite what an earlier one left; what one region leaves is stated by
  Clnup.ProcessRegion.
- SecshrDbClnup: for the same reason it states nothing per region of the walk. It
  states the verdict, the journal pools and the `in_crit` of the journal pool region.
- `fnb` is a record of six booleans, not bit positions in a byte. The function
  zeroes it first (line 78), so each `|=` is an assignment.

## Notes on the code as written

Where a plain reading of what the cleanup routine is for differs from its code, the
model follows the code, except for the three fixes listed under "## Findings" (see
"## Left out"):

- When get_next_gdr_addrs is not registered, the routine returns at line 209 before
  anything else. Clnup.SecshrDbClnup still reports the verdict it would reach, which
  only reads the state on entry, and changes nothing.
- The free-record search has one budget of `n_bts` steps for the whole region,
  because `lcnt` is reset once per region. It is not one scan per element. When the
  search fails, the element is skipped and `wc_blocked` is not set for that reason.
- The chain walk is bounded because `next_off` is unsigned and every step moves
  forward in the block. `cw_index` is checked against `cw_set_depth`, but the number
  of records walked is not capped. Blocks.WalkChain shows the walk ends.
- The journal pool is advanced only for the journal pool's region held in crit, and
  only when the update was underway.

Quirks of `parse_file` that the model reproduces:

- The `DOT2 -> NAME` arm of line 273 can never be taken, so `...` is not a name.
  `/a/.../b` becomes `/a/..b` (ParseScan.ThreeDotsMerge).
- After `@` without a node, the current directory is put in front even of a full
  path (ParsePath.AtWithoutNode). The scan starts after that prefix, so the `/` ending
  the directory and the user's leading `/` both stay: cwd `/x/` and `@/abc` give
  `@/x//abc`.
- A path ending in `...` with no name after it, such as `/a/...`, scans to the
  directory `/a/..`. It ends in `.`, not `/`: the third dot takes the scan to `DOT1`
  (line 273), and lines 340-344 drop one character. The debug assertion of line 415
  would fail there. The directory check of lines 416-420 then writes `/` over that
  `.` (ParsePath.DirChecked).
- The name-default check of line 368 counts the length of the current directory even
  when a default directory will replace it.

## Findings

| source | as written | input that shows it | evidently intended | confidence | as-written member | corrected member |
|---|---|---|---|---|---|---|
| sr_port/secshr_db_clnup.c:705 | `if (clru++ >= cr_top) clru = start_cr;` compares the old value, so from the last record the search moves to `cr_top`, one past the cache, and examines it | two records, `clru` at the last one: slot 2 is examined and claimed | `if (++clru >= cr_top)`, staying inside the region's records | not executed | Lru.ScanAsWrittenLeavesCache | Lru.FindFreeSlot |
| sr_port/secshr_db_clnup.c:703-712 | `for (; lcnt++ < max_bts;)` then `if (lcnt >= max_bts)` discards a record found on the last permitted step | one free record, `max_bts` 1: found, then the element is skipped | test whether a record was found, not the counter | not executed | Lru.ScanAsWrittenDiscardsLastFind | Lru.FindFreeSlot |
| sr_port/secshr_db_clnup.c:1334-1347 | `secshr_tp_get_cw` returns TRUE when the `depth`-th link is NULL, and the chain walk then dereferences the NULL element | a list whose `depth`-th `next_cw_set` is NULL | answer TRUE only with a probed element | not executed | CwSets.GetCwAsWrittenAcceptsNull | CwSets.TpGetCw |
| sr_port/secshr_db_clnup.c:871 | `0 > (short)cs->index` looks only at the low 16 bits of the index | index -65536: low bits 0, passes, and the fixup reads the element 65536 places before the array | `0 > cs->index` | not executed | Blocks.NonTpInsOffAsWrittenAdmitsNegativeIndex | Blocks.NonTpInsOffOk |
