# git-storage, modelled and proved in Dafny

git-storage keeps encrypted, deduplicated files in ordinary git repositories. A
file is cut into content-defined chunks, each chunk is sealed, new chunks are
pushed as one segment to one volume, and the file becomes visible when one
transaction is appended to a log by compare-and-swap on a single ref. Compaction
rewrites the live chunks of a volume, commits a transaction that repoints every
file, and only then wipes the volume. A sweep collects old unreferenced segments.

This project models that engine and proves what it promises: the manifest never
references data that is gone, no committed operation is lost, a stored file reads
back as exactly its bytes, accounting is exact, chunking is local. Where the code
falls short of its own documentation, the exact condition under which it keeps
the promise is proved, together with a run that breaks it.

`dafny verify dfyconfig.toml` checks the whole project.

## How the model is built

Two views of the same store share one set of definitions.

* **One process at a time** (`Engine`, `Backends`). The index, the volumes and the
  engine are classes whose methods update their fields, loop by loop as the code
  does. The process may die at each of the code's crash points and before any ref
  deletion (`Machine` counts the deaths); a compare-and-swap may fail although the
  ref matched, or take effect and be reported lost (`Index` keeps every answer).
  `Engine.Durable` is the invariant that every operation keeps, however it ends;
  what a call returns is a function of its input and of the answers it got.
  `Sessions` runs whole lists of calls.
* **Any number of clients and one compactor** (`Protocol`). Each takes atomic steps
  (plan from a snapshot, push, read the tip, compare-and-swap, wipe, sweep one ref)
  in any order, can crash between any two, and gives up after 32 swaps. Theorems
  quantify over all runs. A run is *guarded* when it meets what the code itself
  does not check (`Protocol.Guarded`): no put that can still commit references a
  volume at the step that retires it, no put is planned onto a volume being wiped,
  no put in flight relies on a segment that a starting sweep would collect, and
  none pushes, in the midst of a sweep, a segment the sweep would collect. The log
  theorems need no guard, `ProtocolRaces` proves each guard necessary and
  sufficient at its step, and `ProtocolWitnesses` reaches the states these theorems
  start from. `ProtocolCalls` ties the views together: whatever answers a put, a
  remove or a retirement gets, what its contract in `Engine` says is a guarded run.

| module | what it holds |
|---|---|
| `Prelude` | bytes, digests, sums over finite maps |
| `Chunker`, `ChunkerTheory` | the FastCDC cut, the streaming loop, and what chunking guarantees |
| `Crypto` | sealing and opening one chunk over abstract primitives |
| `Manifests`, `Log`, `Repoint` | chunk references, transactions and their effect, log replay, moving references |
| `Accounting`, `Placement` | stored, live and dead bytes; choosing volumes under the budget |
| `StoreInvariant`, `Planning`, `Reading`, `Scans`, `Sweeping` | the consistency of a store and how put, get and the sweep keep and use it |
| `Attempts`, `Backends`, `Engine` | the imperative store, and what the answers to its swaps say about a call |
| `Pass`, `PassRefs` | whole compaction passes: the state, the volumes and the report they leave |
| `PassLimits`, `Rates` | repeated passes, what a pass does not guarantee, and how often passes happen |
| `Sessions` | lists of calls on one engine, passes in a row, and reading an old version |
| `Protocol`, `ProtocolSafety`, `ProtocolReading` | the concurrent store, its invariant, and reading back from it |
| `ProtocolRaces`, `ProtocolRetries` | its races, and its retry loops under lost acknowledgements |
| `ProtocolWitnesses`, `ProtocolCalls` | runs into the states these start from, and the engine's calls as runs |
| `Mirror` | mirroring while the primary goes on working |

## What is assumed

* A digest is kept symbolic (`Blake3(bytes)`), so two digests are equal exactly when
  the hashed bytes are. A rewrite segment's id is kept as the term it hashes.
* Random segment ids and commit ids are fresh.
* `Crypto.Primitives.Laws`: authenticated decryption undoes encryption, zstd undoes
  itself up to the output cap and fails beyond it. `LawsHaveAModel` shows that the
  laws are consistent.
* `Crypto.Separate`, used only by the lemmas on who can open a chunk: keys are 32
  bytes and kept apart, and a ciphertext authenticates under its own key, nonce and
  associated data alone. `FramedSeparates` shows that this is consistent with the laws.
* The sizes the input stream returns are an arbitrary schedule.
* The 256-entry gear table is arbitrary. Hash arithmetic is on integers modulo
  2^64, and testing `bits` low bits is divisibility by `Pow2(bits)`.
* A gate is a test of two byte counts, so it may round its quotient as it likes. Where
  a theorem needs it (`Gates.Valid`), the dead-ratio gate is closed to volumes without
  dead bytes and monotone in both counts; a ratio that is not negative is such a gate.
* A segment's commit is built at any time between the plan and the push.
* The sweep reads the namespace and the clock in one step; so does each retry.
* A backend error ends a call as a crash does.

## What the code does, where the documentation says otherwise

* Compaction is safe against a racing put only up to the retiring compare-and-swap
  (`src/engine.rs:905-943`). A put that has deduplicated against the volume and
  commits after that step loses data. `RetirementSafeIffQuiet` gives the exact
  condition, `DeduplicationRace` a run from the empty store. DESIGN.md section
  12.3 (point 3 of the delta) calls compaction "safe even against a racing writer".
* The sweep can collect a segment that a put in flight deduplicated against, if the
  last file using it was removed meanwhile. `SweepSafeIff` gives the exact
  condition, `SweepRace` a run from the empty store. INV-2 of DESIGN.md section 11 and section 12.5 call it "always safe".
* A swap that took effect but was reported lost is recognised when the tip is read
  again, if the name then still holds what the call recorded there. Otherwise the
  call writes a second record, which can override another client's later put:
  `SecondRecordIff` is exact, `LostAckOverridesLaterPut` such a run.
* The tip is not read again after the last of the 32 attempts. If that one landed
  unacknowledged, put and remove fail although their record is in the log, and a
  compaction leaves the retired volume unwiped. `Engine.CommitOp`, `Put` and `Remove`
  say exactly when; `LastAttemptFails` and `LostAckOnLastAttemptLeavesVolume` give
  the runs.
* A put whose record landed on a lost acknowledgement reports `committed: false`.
* One pass plans every candidate from the same snapshot (`src/engine.rs:787,
  809-813`), so two retirements may overfill one destination. `RunPassWithinBudgetIff`
  gives the exact condition, a test of the snapshot before the call;
  `TwoRetirementsOverfill` a history that leads there.
* The spare never moves (`src/engine.rs:1341-1345`), although sections 12.3 and 15.5
  of DESIGN.md let it rotate: `SpareTakesOnlyRewrites`.
* The minimum interval is measured from the newest compaction of any volume
  (`src/engine.rs:795-799`), not of the volume itself as section 12.4 says.
* The chunker buffers up to one read less a byte beyond `max_size`
  (`src/chunker.rs:200-208`, `BufferExceedsMax`); its comment says at most
  `max_size`.
* Ties between volumes of equal headroom go to the first declared; the comment at
  `src/engine.rs:1179` says lowest id.
* A retired volume has no accounted bytes, so if the wipe was interrupted no later
  pass selects it; only the sweep cleans it (`RetiredIsNoCandidate`). The comment at
  `src/engine.rs:779-780` says the next compaction finishes the delete.
* The comment at `src/engine.rs:409-413` has the mirror never dangling "at every
  instant". That holds against interruption; a commit on the primary in the midst
  of a mirror run can break it (`OverlappedRunDangles`). `PushIndexSafeIff` is
  exact.
* A segment is dated when its commit is built (`src/gitrepo.rs:99-113`), before
  throttling, backoff and the transfer (`src/backend.rs:426-441`). A sweep that starts
  a whole window later can collect it in the moment it becomes visible, however wide
  the window: `PushSafeIffYoung` is exact, `SlowPushRace` a run from the empty store
  for every window. DESIGN.md section 12.5 says that writes in flight are never
  misclassified.

## Model

| member | source | states |
|---|---|---|
| `Chunker.FromAvg` | src/chunker.rs:49-60 | parameters are accepted exactly for averages in 1 KiB..16 MiB; the minimum is half the average, the maximum four times |
| `Chunker.RoundedLog2` | src/chunker.rs:138 | the bit count is the average's base-2 logarithm rounded to nearest, and lies in 10..24 |
| `Chunker.RoundsToUnique` | src/chunker.rs:138 | no other integer rounds it |
| `Chunker.CutLen` | src/chunker.rs:151-174 | the cut is the earliest content boundary past min_size, or the limit when there is none before it |
| `Chunker.CutUnique` | src/chunker.rs:151-174 | a buffer has exactly one such cut |
| `Chunker.Cut` | src/chunker.rs:151-174 | the two-loop search finds that cut |
| `Chunker.CutSeesFullHorizon` | src/chunker.rs:199-200 | a buffer holding max_size bytes, or all that is left, is cut like the whole remaining input |
| `Chunker.Reader.Read` | src/chunker.rs:201-205 | a read returns a non-empty prefix, of whatever size up to 64 KiB the stream decides, and nothing only at the end |
| `Chunker.FillWindow` | src/chunker.rs:200-208 | filling neither loses nor invents bytes, reaches max_size or the end, and stays below max_size plus one read |
| `Chunker.StreamChunks` | src/chunker.rs:182-219 | whatever sizes the reads have: the chunks of the recursive reference chunker, the digest of the whole input, termination, and a buffer below max_size + 64 KiB |
| `Chunker.BufferExceedsMax` | src/chunker.rs:200-208 | that bound on the buffer is reached, for every long input, by some read sizes |
| `ChunkerTheory.ChunksConcat` | src/chunker.rs:198-216 | the chunks concatenate to the input |
| `ChunkerTheory.ChunkSizes` | src/chunker.rs:151-174 | every chunk has 1..max bytes, every non-final one more than min |
| `ChunkerTheory.WrapKeepsLowBits` | src/chunker.rs:120-123 | wrapping at 64 bits does not touch the masked bits |
| `ChunkerTheory.WindowDecidesHash` | src/chunker.rs:158-172 | after m equal scanned bytes the low m bits of two rolling hashes agree, whatever came before |
| `ChunkerTheory.WindowDecidesBoundary` | src/chunker.rs:137-172 | each mask hit is decided by the last 8..26 bytes, for both masks and every accepted average |
| `ChunkerTheory.HashIsGearSum` | src/chunker.rs:157-171 | the rolling hash in closed form: the gear values of the scanned bytes, each times 2 to the number of bytes after it, summed modulo 2^64 |
| `ChunkerTheory.CutIsFirstDivision` | src/chunker.rs:137-174 | the cut in numbers: the first length past the minimum at which that sum is divisible by 2^(b+2) up to the average, by 2^(b-2) beyond it, b the rounded logarithm; else four times the average, or the end |
| `ChunkerTheory.CutSurvivesEdit` | src/chunker.rs:151-174 | a cut not forced by the end survives any change at or after it |
| `ChunkerTheory.EditLocality` | src/chunker.rs:3-7 | an edit at or after p keeps every non-final chunk ending at or before p |
| `ChunkerTheory.ChunksAfterBoundary` | src/chunker.rs:198-216 | from a chunk boundary on, chunking forgets what came before |
| `ChunkerTheory.Resynchronize` | src/chunker.rs:3-7 | two streams with a common suffix and a boundary at its start have equal chunks from there on |
| `Crypto.Keys.OpenChunk` | src/crypto.rs:119-145 | what opens has the recorded plaintext hash |
| `Crypto.SealThenOpen` | src/crypto.rs:93-145 | opening a sealed chunk gives the plaintext if it is within the decompression cap, and fails otherwise: exactly the cap |
| `Crypto.OpenIsSound` | src/crypto.rs:119-145 | any ciphertext opened under a plaintext's hash yields that plaintext or an error |
| `Crypto.OtherMasterCannotOpen` | src/crypto.rs:76-145 | for primitives that keep keys apart, another master gives every chunk another key and opens nothing sealed under this one |
| `Crypto.OtherHashCannotOpen` | src/crypto.rs:93-145 | nor does a chunk open under the hash of another plaintext |
| `Crypto.NonceUsesMaster` | src/crypto.rs:82-88 | the nonce depends on the master, through a subkey of its own |
| `Log.LoadIsReplay` | src/engine.rs:1231-1266 | newest checkpoint plus tail equals replaying every committed operation from the empty store |
| `Log.PinnedLoadIsReplay` | src/engine.rs:1231-1266 | the same at every ancestor a reader pins |
| `Log.DeltaTailBounded` | src/engine.rs:598-599 | fewer than `checkpoint_interval` deltas follow the newest checkpoint |
| `Log.CheckpointsByPosition` | src/engine.rs:598-619 | record i of any log is a checkpoint exactly when its operation is no compaction and each of the interval - 1 records before it exists and is none |
| `Log.SegIndexRecords` | src/engine.rs:1386-1394 | the records of a checkpoint read back as the byte index, one record per segment |
| `Log.ApplyTxn` | src/engine.rs:1287-1321 | the in-place application of a record equals its specified effect |
| `Repoint.NothingLeftOn` | src/engine.rs:995-1004 | after a repoint nothing references the retired volume |
| `Repoint.RepointPreservesMeaning` | src/engine.rs:995-1004 | names, sizes, hashes and ordered chunk ids of every file are unchanged |
| `Repoint.RepointResolves` | src/engine.rs:995-1004 | every reference still resolves when the rewritten segment holds all chunks that move |
| `Repoint.BuildRepoint` | src/engine.rs:974-1008 | aborts exactly when a chunk on the volume was never rewritten; otherwise the rebuilt manifests, in any file order, give the repointed namespace |
| `Accounting.VolumeUsed` | src/engine.rs:1398-1404 | the sum of the volume's seal records |
| `Accounting.CoveredWeight` | src/engine.rs:346-377 | distinct chunks spread over exactly sealed segments weigh at most those records |
| `Accounting.LiveAtMostTotal` | src/engine.rs:361-366 | live bytes never exceed stored bytes, per volume |
| `Accounting.RetireReclaims` | src/engine.rs:1300-1316 | a retirement zeroes the volume's bytes; stored and dead bytes of the store fall by at least its dead bytes |
| `PassLimits.StatsAreExact` | src/engine.rs:346-377 | live + dead = total: the saturating subtraction never clamps |
| `Placement.OpenedStoreIsValid` | src/engine.rs:1335-1365 | distinct declarations open to a valid store with those volumes and thresholds, whose spare is its last volume, there exactly when at least three are declared |
| `StoreInvariant.SpareTakesOnlyRewrites` | src/engine.rs:1341-1345 | in every consistent store the spare holds nothing but compaction rewrites: it never rotates |
| `StoreInvariant.PutKeeps` | src/engine.rs:431-642 | committing a put keeps contents sound, placements unique, accounting exact |
| `StoreInvariant.RemoveKeeps` | src/engine.rs:718-758 | so does a remove |
| `StoreInvariant.RetireKeeps` | src/engine.rs:966-1030 | so does a retirement, and every file's bytes stay the same |
| `StoreInvariant.SoundDetermines` | src/engine.rs:469-525 | a manifest is a function of the file's bytes and its chunks' placements |
| `StoreInvariant.ReputIsIdentical` | src/engine.rs:527-542 | putting the same bytes back plans exactly the stored manifest, wherever compaction moved its chunks |
| `StoreInvariant.LastOperationDecides` | src/engine.rs:1287-1321 | the last committed operation on a name decides its bytes, or its absence |
| `StoreInvariant.UntouchedNameAbsent` | src/engine.rs:1287-1321 | a name no operation concerns is absent |
| `Placement.BestUnique` | src/engine.rs:1189-1204 | "first volume of maximal headroom that fits" picks one volume |
| `Placement.SelectVolume` | src/engine.rs:1184-1215 | returns the ordinary volume with the most free bytes that can take the segment, the first of those with as many; refuses exactly when there is none |
| `Placement.ChooseDest` | src/engine.rs:1073-1108 | a destination is another volume with room; none is chosen exactly when none has room |
| `Placement.SpareThenRoomiest` | src/engine.rs:1073-1108 | the spare if it has room; else the other ordinary volume with the most free bytes, the first of those with as many |
| `Placement.SelectCompactDest` | src/engine.rs:1073-1108 | the search computes that choice, the spare first |
| `Scans.KnownPlacements` | src/engine.rs:434-439 | every live chunk id with the place of one of its references |
| `Scans.ReferencedSegments` | src/engine.rs:1039-1044 | exactly the segments the namespace references |
| `Scans.LiveChunks` | src/engine.rs:831-845 | the distinct ids on a volume and their total size |
| `Scans.LiveByVolume` | src/engine.rs:350-358 | live bytes of every volume, each chunk counted once |
| `Scans.VolumeStatsOf` | src/engine.rs:346-377 | the statistics of every volume match their definition |
| `Scans.ReadLive` | src/engine.rs:879-889 | reads exactly the live chunks of a volume, each matching its content address; fails only if one is missing or wrong |
| `Planning.PlanChunks` | src/engine.rs:469-506 | seals every chunk, stages each distinct unknown one once, and sizes the segment and the file |
| `Planning.FillPlacements` | src/engine.rs:508-525 | known chunks keep their place, new ones go to the new segment |
| `Planning.PlaceFile` | src/engine.rs:508-542 | a complete plan, or a refusal exactly when there are new chunks and no room for them |
| `Planning.PlanIsCommittable` | src/engine.rs:546-642 | pushing the segment, and then committing the record, keep the store consistent and within budget |
| `Planning.ReputPlansNothing` | src/engine.rs:533-542 | a stored file plans no new data and an unchanged manifest |
| `Reading.StoredIsReadable` | src/engine.rs:656-690 | a stored file passes every check of the read path: placement, sealing, size and chunking together |
| `Sweeping.ZeroWindowLeavesReferenced` | src/engine.rs:1036-1067 | with a zero window exactly the referenced segments remain |
| `Backends.HistoryStable` | src/gitrepo.rs:99-113 | new commits leave every old history as it is |
| `Backends.Index.CommitTree` | src/gitrepo.rs:99-113 | a new commit extends its parent's history and touches no ref |
| `Backends.Index.CasRef` | src/gitrepo.rs:132-153 | the log moves only from the expected tip; `false` may be spurious, or follow a swap that took effect; every answer is kept |
| `Backends.Index.RevList` | src/gitrepo.rs:224-233 | the history of a commit, newest first |
| `Backends.Index.LastCompactionTime` | src/engine.rs:1131-1141 | the time of the newest compaction of any volume, or none |
| `Backends.Index.WalkBack` | src/engine.rs:1239-1256 | stops at the newest checkpoint and collects the records after it |
| `Backends.Index.LoadFullState` | src/engine.rs:1231-1266 | the reader's loop computes the specified state and tail length at any commit |
| `Backends.Volumes.Destroy` | src/backend.rs:583-610 | wipes the whole volume, or refuses and changes nothing |
| `Engine.Engine.constructor` | src/engine.rs:299-310 | a store opened from its declarations is empty and durable |
| `Engine.Engine.BuildTxn` | src/engine.rs:598-619 | a checkpoint exactly when one is due, and in both forms a faithful record of the operation |
| `Engine.Engine.TryCommit` | src/engine.rs:580-642 | one attempt appends the operation exactly when its swap took effect, and issues none when the effect is already there |
| `Engine.Engine.CommitOp` | src/engine.rs:580-647 | over the whole loop: one record exactly when the last swap took effect; without a crash the call succeeds unless all 32 attempts went by without an acknowledgement; it fails with its record in the log exactly when the 32nd swap landed unacknowledged |
| `Engine.Engine.Put` | src/engine.rs:427-648 | old contents or old contents plus this file; without a crash it succeeds exactly when the budget has room and the attempts were not used up, lost acknowledgements included; on the volumes it leaves nothing new, or one segment with exactly the new chunks, dated now, on the volume it reports, and that for certain if there are new chunks and it does not crash; it fails although its record is in the log exactly when the 32nd swap landed unacknowledged; a re-put changes nothing; the budget and the reported figures hold |
| `Engine.Engine.Remove` | src/engine.rs:708-759 | unknown names fail and write nothing; a known name is gone, and all else unchanged, unless the call crashes or uses up its attempts; it fails although the name is gone exactly when the 32nd swap landed unacknowledged |
| `Engine.Engine.Get` | src/engine.rs:652-699 | at the tip, pinned or not, exactly the bytes of the last committed put, and an error exactly for absent names; at any pinned commit "not found" exactly for names absent there, and the bytes it describes exactly when its chunks are still readable |
| `Engine.Engine.ReadFile` | src/engine.rs:658-698 | succeeds exactly on readable files, with the bytes the file hash names |
| `Engine.Engine.RewriteLive` | src/engine.rs:857-893 | adds exactly the copy of the live chunks, dated now, unless it is there already; never fails when the snapshot's chunks are there |
| `Engine.Engine.TryRetire` | src/engine.rs:974-1027 | one attempt retires exactly when its swap took effect; refuses exactly when unmoved chunks are on the volume |
| `Engine.Engine.CommitCompaction` | src/engine.rs:966-1030 | over the loop: one retirement exactly when the last swap took effect; without a crash it counts as landed exactly when not refused and not out of attempts |
| `Engine.Engine.WipeVolume` | src/engine.rs:923-936 | the volume is emptied; a crash leaves some of its refs and nothing else changes |
| `Engine.Engine.CompactOne` | src/engine.rs:824-945 | the state before, or with the volume retired as planned; without a crash it is done exactly when there is room, nothing new came to the volume, and the attempts were not used up; without a crash the refs afterwards are exactly determined; on success the volume is empty; no other volume ever loses anything |
| `Engine.Engine.SweepOrphans` | src/engine.rs:1036-1067 | keeps every ref that is referenced or younger than the window, and, unless it crashes, no other; counts what it deletes, and keeps the store consistent |
| `Engine.Engine.CompactCandidates` | src/engine.rs:803-813 | never fails; the state is the snapshot with some candidates retired; without a crash the volumes and the report are exactly determined by which retirements it was told of; undisturbed those are the ones told from the snapshot |
| `Engine.Engine.Compact` | src/engine.rs:783-818 | durability and the meaning of every file are kept however the pass ends; it ends well or in a crash; undisturbed with open gates it is the full pass, within budget exactly when a test of the snapshot before the call says so; however it ends, refs younger than the window stay unless their volume was retired; on success the refs, the report entries and the sweep count are exact, and of the old unreferenced refs on other volumes exactly those at least a window old are gone |
| `Engine.RunAgain` | src/engine.rs:770-818 | after a pass over one candidate that ended in any way, an undisturbed forced pass reaches the state of an uninterrupted one; a rewrite left on the volumes is reused; what is left on the retired volume is younger than the window |
| `Engine.Engine.CheckGates` | src/engine.rs:790-800 | open exactly when some ordinary volume is under pressure and the store was never compacted, or last at least the interval ago |
| `Engine.Engine.MirrorTo` | src/engine.rs:394-423 | an interrupted mirror keeps its log and has its tip fully backed; a finished one has every segment and the whole history of the primary, older commits included; both sides' segments still match, so it can be repeated; refused exactly when a volume has no target |
| `Pass.CandidateIff` | src/engine.rs:803-808 | candidates are the ordinary volumes that store something and whose dead bytes, out of that, are over the gate |
| `Pass.WillLandIff` | src/engine.rs:803-813 | an undisturbed pass retires exactly the candidates for whose live bytes the snapshot has room elsewhere and to which no chunk of an earlier retired volume has gone |
| `PassRefs.RefsAfterChanged` | src/engine.rs:857-936 | an uninterrupted pass loses no ref but those of the volumes it wiped, and adds none but copies made in it |
| `PassRefs.PassThenSweep` | src/engine.rs:1036-1067 | a pass and its sweep, wherever they stop, keep every old ref younger than the window on a volume not retired |
| `PassRefs.PassIsFinished` | src/engine.rs:783-818 | after both, the unreferenced old refs on volumes not wiped are gone exactly when at least a window old, and no other old one is left |
| `Pass.OthersAfterCompaction` | src/engine.rs:809-813 | compacting one candidate leaves each other one as the snapshot has it, or blocked by the chunks it received |
| `Pass.CompactionReclaims` | src/engine.rs:824-945 | each landed compaction lowers the store's dead bytes, even planned from an old snapshot |
| `Pass.PassReclaims` | src/engine.rs:783-818 | a pass lowers dead bytes by at least the number of its retirements |
| `Pass.PassPreservesMeaning` | src/engine.rs:783-818 | a pass changes placements only |
| `Pass.CompactionWithinBudget` | src/engine.rs:1073-1108 | a compaction planned on the state it commits to respects every threshold |
| `Pass.PassWithinBudget` | src/engine.rs:803-813 | a pass that retires at most one volume keeps every volume within its threshold |
| `Pass.PassTotals` | src/engine.rs:803-813 | a pass adds to a volume at most the bytes moved there |
| `Pass.PassTotalExact` | src/engine.rs:803-813 | exactly what every volume holds after any pass, from the snapshot: its old bytes, none if retired, plus the landed rewrites sent there that it had no record of |
| `Pass.PassWithinBudgetIff` | src/engine.rs:803-813 | a pass, however interrupted, ends within budget if and only if those figures are within the thresholds |
| `Pass.RunPassWithinBudgetIff` | src/engine.rs:787-813 | an undisturbed pass does if and only if the figures told from the snapshot alone, before the call, are |
| `Pass.RatioGatesAreValid` | src/engine.rs:235-251 | exact comparison of non-negative fractions gives gates of the kind the theorems need |
| `Pass.NotGone` | src/engine.rs:1006-1008 | a candidate still to come cannot be mistaken for one already retired |
| `Pass.NoCandidateAfter` | src/engine.rs:803-808 | after the only candidate is compacted there is none |
| `Pass.InterruptedPassConverges` | src/engine.rs:857-921 | wherever a one-candidate pass is interrupted, the full pass over what it left gives the state of the uninterrupted one, placements included |
| `PassLimits.RetiredIsNoCandidate` | src/engine.rs:803-808 | over all later operations, a retired volume is a candidate again only if one of them recorded a segment on it |
| `PassLimits.SweepCleansRetired` | src/engine.rs:1036-1067 | on a volume without records a finished sweep leaves exactly the refs younger than the window |
| `PassLimits.RepeatedCompactionEnds` | src/engine.rs:783-818 | over any number of passes at most as many retirements land as there were dead bytes |
| `PassLimits.TwoRetirementsOverfill` | src/engine.rs:787-813 | from a consistent store within budget, reached by four puts and two removes, the undisturbed pass retires two volumes and puts the spare over its threshold |
| `Rates.EachCostsAnInterval` | src/engine.rs:795-799 | after a compaction every further unforced one takes a whole interval |
| `Rates.UnforcedRateBounded` | src/engine.rs:795-799 | in a span D at most 1 + D / min_interval unforced passes compact, whatever else is called |
| `ProtocolSafety.PutPushStep` | src/engine.rs:544-564 | pushing a put's segment keeps the invariant |
| `ProtocolSafety.CommitStep` | src/engine.rs:627-642 | a client's record landing keeps the invariant |
| `ProtocolSafety.RewriteStep` | src/engine.rs:857-893 | the rewrite keeps the invariant |
| `ProtocolSafety.RetireStep` | src/engine.rs:1010-1027 | the retirement landing keeps the invariant and leaves no reference to the volume |
| `ProtocolSafety.WipeStep` | src/engine.rs:923-936 | deleting what neither the tip nor a put in flight uses keeps the invariant |
| `ProtocolSafety.StepKeepsInv` | src/engine.rs:427-1067 | every guarded step of every client and of the compactor keeps the invariant |
| `ProtocolSafety.RunsAreSafe` | src/engine.rs:427-1067 | over all guarded runs of any number of clients, with crashes anywhere, every placement at the tip resolves to the ciphertext it names |
| `ProtocolSafety.LogIsLinearizable` | src/engine.rs:580-647 | over all runs, guarded or not: the log holds exactly the operations whose swap took effect, in order; every pinned load is their replay; the delta tail is bounded |
| `ProtocolReading.PlanIsAStep` | src/engine.rs:427-542 | the plan a put computes from the tip is a step the protocol allows, leading to the record the engine commits |
| `ProtocolReading.ConcurrentStoreReads` | src/engine.rs:427-699 | over all guarded runs the tip has exactly the files the committed operations call for, and each passes every read check and decodes to the bytes last put |
| `ProtocolRaces.DriveToCommit` | src/engine.rs:580-642 | from every state a put in flight that has not used up its attempts can go on to commit |
| `ProtocolRaces.RetirementSafeIffQuiet` | src/engine.rs:905-943 | from a committed retirement on, no guarded run loses data if and only if no put that can still commit references the volume at that step |
| `ProtocolRaces.ReflectedSafeIffQuiet` | src/engine.rs:1006-1008 | the same when the retry concludes that the retirement had landed |
| `ProtocolRaces.PlanDuringWipeSafeIff` | src/engine.rs:923-936 | from a put planned while a volume is wiped, no guarded run loses data if and only if the plan places nothing there |
| `ProtocolRaces.SweepSafeIff` | src/engine.rs:1036-1067 | from the start of a sweep, no guarded run loses data if and only if every segment a put in flight uses is referenced at the tip, younger than the window, or not pushed yet |
| `ProtocolRaces.PushDuringSweepSafeIff` | src/engine.rs:1045-1061 | from a push in the midst of a sweep on, whenever its commit was built, no guarded run loses data if and only if the sweep spares everything the manifest references |
| `ProtocolRaces.PushSafeIffYoung` | src/engine.rs:1054-1059 | which it does if and only if the manifest has no chunk in the pushed segment, the sweep found that segment referenced, or its commit was built less than the window before the sweep began |
| `ProtocolRaces.SlowPushRace` | src/engine.rs:546-564 | from the empty store, for every window, a run reaches a push that is not so, and then a tip that references swept data |
| `ProtocolRaces.SweepRace` | src/engine.rs:1036-1067 | from the empty store a run reaches a sweep that takes what a put in flight relies on, and then a tip that references it |
| `ProtocolRaces.DeduplicationRace` | src/engine.rs:905-943 | from the empty store a run of the code, seal records included, reaches a tip that references wiped data |
| `ProtocolRetries.SecondRecordIff` | src/engine.rs:580-595 | after a lost acknowledgement and any run of the others, a put or remove writes a second record if and only if what they recorded leaves something else under its name; otherwise it finishes without one |
| `ProtocolRetries.LostAckDetectedByClient` | src/engine.rs:584-595 | with nothing recorded in between, whatever else happens, it recognises its own effect: one record in all |
| `ProtocolRetries.MovedManifestIsAnother` | src/engine.rs:995-1004 | a retirement that moved one of the file's chunks leaves another manifest, too |
| `ProtocolRetries.LostAckOverridesLaterPut` | src/engine.rs:580-595 | such a second record can override another client's later put |
| `ProtocolRetries.LastAttemptFails` | src/engine.rs:580-647 | from every state with an operation ready there is a run in which the call gives up although its record is in the log |
| `ProtocolRetries.LostAckDetectedByCompactor` | src/engine.rs:974-1008 | before the last attempt: after any client steps the compactor concludes that its retirement landed if and only if nothing has come to the volume, and can do nothing else if nothing was recorded |
| `ProtocolRetries.LostAckOnLastAttemptLeavesVolume` | src/engine.rs:1026-1030 | on the last attempt it gives up: the volume is retired in the log and none of its refs deleted |
| `ProtocolWitnesses.FirstPutFailsYetRecorded` | src/engine.rs:580-647 | from the empty store a run in which the first put fails and its record is the log's only one |
| `ProtocolWitnesses.SecondPutOverridden` | src/engine.rs:580-595 | from the empty store a run in which a retry overrides another client's later, acknowledged put of other bytes |
| `ProtocolWitnesses.PutChoosesWipedVolume` | src/engine.rs:923-936 | from the empty store a run to a wipe in which a put can choose the volume being wiped, and on to a tip that references wiped data |
| `ProtocolWitnesses.RetiredVolumeLeft` | src/engine.rs:1026-1030 | from the empty store a run after which a volume is retired in the log and still full |
| `ProtocolCalls.LoopIsARun` | src/engine.rs:580-647 | whatever the answers to its swaps, the retry loop of a put or remove is a guarded run of one client that leaves log and tip as `CommitOp` promises |
| `ProtocolCalls.PutIsARun` | src/engine.rs:427-648 | so is a whole put that is planned from the tip, with its segment pushed as the engine's plan says, and the run is one `ConcurrentStoreReads` covers |
| `ProtocolCalls.RemoveIsARun` | src/engine.rs:708-759 | so is a remove |
| `ProtocolCalls.RetirementIsARun` | src/engine.rs:966-1030 | so is the retry loop of a retirement while no put is in flight; after a swap that took effect the compactor goes on to wipe unless that was its last attempt, unacknowledged |
| `Sessions.Run` | src/engine.rs:427-818 | any list of puts, removes and compactions in clock order, however each ends, keeps the store durable; the compactions form a timeline whose retirements are those the log gained |
| `Sessions.SessionRateBounded` | src/engine.rs:795-799 | so in a session of span D at most 1 + D / min_interval unforced passes compact |
| `Sessions.ReadPinned` | src/engine.rs:652-699 | a reader that pinned the tip reads what was there then, after any puts and removes since, however they ended |
| `Sessions.CompactRepeatedly` | src/engine.rs:783-818 | passes in a row, however each ends, are a sequence of passes, keep the meaning of every file, and retire at most as many volumes as there were dead bytes |
| `Mirror.StepKeepsPairInv` | src/backend.rs:628-671 | every primary step and every push keeps the mirror invariant |
| `Mirror.MirrorNeverDangles` | src/engine.rs:394-423 | over all mixes of primary steps and mirror runs interrupted after any push, each index push meeting the exact condition, the mirror's tip is fully present on the mirror |
| `Mirror.PushIndexSafeIff` | src/engine.rs:409-422 | pushing the index is safe if and only if every segment the primary's tip references was on the primary at some push of its volume |
| `Mirror.QuietRunIsOrderly` | src/engine.rs:409-422 | which it is when the primary commits nothing during the run |
| `Mirror.OverlappedRunDangles` | src/engine.rs:409-422 | a reachable run with a commit in its midst violates it, and the mirror dangles |

## Left out

- Git subprocesses, stderr scraping, promisor fetches, credentials, backoff and throttling: input and output; only the ref, object and compare-and-swap contract is kept.
- The remote backend's local mirror and what it caches: reads see the remote.
- Crashes inside one backend call, such as a repository deleted but not yet recreated.
- Provisioning, the command line, configuration files and key files.
- `parse_chunk_size`, `base64_encode`, name tags, `parse_hex_32`: they would only add easy members.
- splitmix64: every theorem holds for any gear table.
- Manifest encryption and serialisation: transactions are stored as values.
- Cryptographic strength and random nonces.
- Overflow of 64-bit byte sums, `clen = 0` of manifests older than milestone 5, hand-edited configurations (duplicate volume ids, an interval of 0).
- Floating point: that quotients rounded to 64 bits make monotone gates is assumed, not proved.
- Two compactors at once, and the budget under concurrent puts: the code promises neither.
- The order in which files and segment refs are visited: the model allows every order. The nested file and chunk loops run over the concatenated chunk lists.
- The staged list and the set of its ids are one map; all volumes' refs are one map from (volume, segment).
- Pinned reads after a compaction: it may have removed their data; `Engine.Get` says exactly when they still succeed.
- Backends.Volumes.Destroy: which backends refuse is left open; both outcomes are allowed for every volume.
- Mirror.MirrorNeverDangles: the mirror's targets are written by this store only.
