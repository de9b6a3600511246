# ROMForge: the protocol proofs

ROMForge builds an Android ROM as a chain of short jobs on machines that can be killed at any
moment. Everything that must survive is kept in a store of tagged asset sets and in one INDEX
record. This project models the parts of it whose correctness depends on order, interleaving or
interruption, and proves what they promise.

| file | models |
|---|---|
| `Prelude.dfy` | concatenation, weighted sums, Python's order of strings, `sorted` |
| `Sums.dfy` | SHA256SUMS as text: printing, `splitlines`, `split` |
| `Store.dfy` | the directory store, each of whose operations works, raises or never returns |
| `Banks.dfy` | what one banking call uploads, in which order, and how `bank_is_complete` judges it |
| `Relay.dfy` | `bank`, `bank_critical` as store operations, cut anywhere |
| `Pipeline.dfy` | the threads of `unpack_from_store` as a step system, and a scheduler running them |
| `Restoring.dfy` | `restore`: verdict, download plan, what reaches out/ |
| `History.dfy` | any sequence of cut banking calls on one tag, then a restore |
| `Campaign.dfy` | classification, the record a slice writes, `next_action`, whole campaigns |
| `Cli.dfy` | `_run_single_slice` and the collectors over the store: crash safety of whole runs |
| `Resuming.dfy` | the resume step with its fallback scan, and what it leaves in out/ |
| `Slot.dfy` | `cmd_slice`: guards, purge, resume, the fusion loop |
| `TagNames.dfy`, `Gc.dfy` | slice tags, their numbers, `gc_state`, `gc_orphan_state_banks` |
| `IndexStore.dfy` | the two copies of the INDEX under interrupted saves |
| `Mine.dfy` | `mine.gate`: any number of candidates racing for a lock with deadlines |
| `Watchdog.dfy` | `memory_watchdog` against what the sample history says |
| `Freshness.dfy` | the mtime manifest, its re-stamping, and the G3 gate |
| `Chunker.dfy` | `pack`, `verify`, `unpack` on a directory of parts |
| `Turbo.dfy` | `merge_turbo_states` |
| `Fingerprint.dfy` | the text `mhash` hashes |

Code that changes something in place is a class or a method with loops here (the store, the
collectors, banking, the slot, the INDEX, the watchdog loop, re-stamping, packing, merging);
decisions are functions. `dafny verify dfyconfig.toml` checks everything. The threads of the unpacker and the mining candidates are step
systems: a step names a thread and is one atomic action of it, theorems hold for every
schedule, and a method runs the system under an arbitrary scheduler.

## What is proved

* **Crash safety.** In every state that slices, collections and publications can reach, forced or
  not, each of them completed or killed between any two store operations, the INDEX names the bank
  of its own slice, that bank restores, and it restores to exactly the archive which that slice
  packed (`Cli.EveryRunIsSafe`, `Resuming.ResumesTheRecordedArchive`), as long as completed slices
  have an out/ to bank; `Cli.SliceKeepsSafeExactly` says what happens without one. A finished build
  has also banked its product, which stays restorable until something touches that tag
  (`Cli.ProductSurvives`). The code itself is proved to take only such steps, to issue a slice's
  store operations in their order unless one of them fails, and to start working from the archive on
  record (`Cli.Forge.RunSingleSlice`, `Cli.Collect`, `Cli.Purge`, `Slot.CmdSlice`). The same holds of
  what is really stored, with the INDEX in two copies, as long as the cuts of its saves are spaced
  (`Cli.EveryDiskRunIsSafe`).
* **Restore soundness.** After any history of cut banking calls on a tag, a restore that could check
  its parts and reports success has fed the whole archive of one call, never a mix; one whose sums
  file did not arrive has fed those parts of one call that are there, the whole archive if and only
  if none is missing (`History.HistoryRestoresOneRun`, `Restoring.WholeExactly`).
* **The unpack pipeline.** For every interleaving, failing writes included, the fed bytes are a
  prefix of the sound parts in listed order and every schedule is bounded. With a working
  decompressor it always ends, with the same result. With a failing one it can hang if and only if
  the queue can be filled with sound parts and there are more (`Pipeline.BlocksExactly`).
* **The campaign** goes on exactly while slices are cut short below the cap, verifies exactly when
  a ROM zip was found, and ends within the cap.
* **Mining**: at most one builder over all interleavings and faults, exactly one when nothing fails
  and someone may claim, and no slow machine beats a target one that claims before its deadline.
* **The memory watchdog** fires at the first sample at which the history says so and at no other.
* **The INDEX**: a pattern of cut saves never shows, whatever the updates do, if and only if no save
  is cut inside the primary copy while the backup may lag behind (`IndexStore.NeverShowsExactly`).
* **Freshness, archives, merging, fingerprints**: round trips and exact results, below.

### Where the code does less than its comments say

* A staged bank uploads its sums file first, so a cut bank with at least one part already passes
  `bank_is_complete` as `legacy` (`Banks.VerdictOfCut`); `restore` then empties out/ and fails
  (`History.CutRestores`). If the sums file also fails to arrive, the parts that are there are
  unpacked and success is reported: exactly for these remains (`Restoring.RestoredWithoutSums`),
  and for a staged bank cut anywhere from its first part on
  (`History.LegacyWithoutSumsIsUnchecked`).
* `bank` returns normally without an out/ directory, and the INDEX is written all the same. The
  record is then good if and only if an earlier attempt at that slice had already left a bank of
  the same archive (`Cli.WithoutOutExactly`); it can be restored at all if and only if that attempt
  had left any bank that can (`Cli.WithoutOutRestoresExactly`).
* Collecting one campaign can delete another's banks if and only if the other key is `<key>-turbo`,
  starts with `<key>-turbo-`, or, for a `--keep` other than 0, starts with `<key>-s`
  (`Gc.ForeignBanksExactly`). With `--keep 0` no slice tag of the campaign's own is ever collected,
  and a negative `--keep` collects the oldest tags instead of keeping the newest (`Gc.GcState`).
* The resume step's fallback can unpack another campaign's bank if and only if that campaign's key
  starts with `<key>-s` (`Resuming.ResumesForeignExactly`).
* A resume step that gives up can leave part of a bank in the "cold" out/ under which turbo donors
  are then merged: a staged bank cut after its first part is enough
  (`Resuming.ColdStartNeedNotBeCold`). Unless out/ is a link it is never more than one bank's stream
  (`Resuming.ResumeLeavesOneStream`).
* A memory stall never gets its one re-dispatch (`Campaign.MemStallIsNeverRedispatched`).
* A later budget or root-disk stop overwrites a disk stop, and the slice counts as resumable
  (`Campaign.DiskStopCanBecomeSliced`).
* If a write to the decompressor fails, the downloader can stay blocked on its full queue for ever,
  under the condition above (`Pipeline.BlockedForever`).
* Two cut INDEX saves in a row can bring back an older record, or none
  (`IndexStore.TwoCutsLose`).
* The fallback scan goes by name. A newer slice comes behind an older one if and only if its leading
  digits, as many as the older has, make a smaller number (`TagNames.NameOrder`), as 10 behind 9;
  `Resuming.FallsBackToNewest` says when the newest restorable bank is chosen.
* Mtimes before 1970 that are not whole seconds are cut toward zero, hence upward, and can fail the
  gate (`Freshness.FreshAgainExactly`, `Freshness.OldStampsRise`).
* Fingerprint fields run together without separators: plans with the same repos, manifests and
  patches collide if and only if name, branch and version make one text
  (`Fingerprint.CollideExactly`), so a change of one of the three always shows
  (`Fingerprint.OneFieldShows`) and text moved from one to the next never does
  (`Fingerprint.FieldsRunTogether`).

## Model

| member | source | states |
|---|---|---|
| Sums.SumsRoundTrip | forge_core/chunker.py:95-98 | every list of digests and names printed as a sums file is read back as the same list |
| Sums.DigestInjective | forge_core/chunker.py:63-68 | the idealised digest tells any two contents apart, as SHA-256 is assumed to |
| Store.FsStore.Empty | forge_core/store.py:254-255 | a removal cut after any file leaves a sub-map of the tag and touches no other tag |
| Store.FsStore.Delete | forge_core/store.py:254-255 | a delete removes the tag, or when cut leaves only part of what it held |
| Store.FsStore.Create | forge_core/store.py:247-252 | creating keeps the assets of a tag that exists; a failure may leave a new tag empty, and changes nothing else |
| Store.FsStore.Reset | forge_core/store.py:257-263 | after a reset the tag is empty; if the second half raises it is absent or empty; if cut it may also hold part of the past |
| Store.FsStore.Put | forge_core/store.py:265-277 | one asset replaces what had its name, nothing else changes |
| Store.FsStore.ListAssets | forge_core/store.py:293-297 | exactly the names under the tag, in any order |
| Store.FsStore.SaveIndex | forge_core/store.py:445-458 | an INDEX write is one operation in the order of store operations and touches no tag |
| Banks.PartNameMarks | forge_core/relay.py:104-144 | a part name carries its own set's mark and never the other's, and is neither the manifest nor the sums file |
| Banks.SumsOfRun | forge_core/relay.py:72-91 | reading a run's own sums file gives its entries, all of them parts of its own prefix |
| Banks.FullContents | forge_core/relay.py:333-375 | what a completed bank holds: the parts, sums and manifest of its run and nothing else |
| Banks.UploadsWithinFull | forge_core/relay.py:333-375 | an upload cut anywhere leaves part of that one run's bank |
| Banks.VerdictOnRemains | forge_core/relay.py:104-144 | the verdict on any remains of a run, both directions: a manifest demands every part, sums without a manifest only one |
| Banks.CutContents | forge_core/relay.py:158-216 | which assets have landed after k uploads, for all three orders, if and only if |
| Banks.VerdictOfCut | forge_core/relay.py:104-144 | the verdict after k uploads, for all k and all three orders: with the streaming sink and for the critical set a verdict means all parts are there |
| Relay.UploadAll | forge_core/store.py:265-277 | assets land in list order, and a cut leaves a prefix |
| Relay.Prepare | forge_core/relay.py:326-335 | the tag is fresh afterwards even when a reset's exception is swallowed |
| Relay.BankUploads | forge_core/relay.py:340-375 | the tag made fresh and then filled, these operations and no others: on return every asset is there but perhaps the manifest, without an exception all of them |
| Relay.BankPrefix | forge_core/relay.py:340-375 | the same for a bank without a manifest, every asset of which must land |
| Relay.BankAll | forge_core/relay.py:320-375 | the same for a call in which any exception is the end |
| Relay.UploadBank | forge_core/relay.py:340-375 | everything but the manifest must land; a failed manifest is only a warning |
| Relay.Bank | forge_core/relay.py:320-375 | the tag holds the run's assets, all or all but the manifest, or the call was cut |
| Relay.BankCritical | forge_core/relay.py:158-216 | with something critical, the whole critical bank or a cut call; otherwise nothing changes |
| Pipeline.StepKeepsInv | forge_core/chunker.py:338-403 | every step of every thread keeps the order of the stream, the pool bound, the queue bound and the record of errors |
| Pipeline.RunSafety | forge_core/chunker.py:338-403 | over every interleaving the fed bytes are a prefix of the leading sound parts in listed order, and the schedule is bounded |
| Pipeline.Progress | forge_core/chunker.py:353-403 | unless blocked by a failed feeder, some thread can always take a step |
| Pipeline.StepUsesWork | forge_core/chunker.py:353-403 | every step uses up work, so every schedule ends |
| Pipeline.RunResult | forge_core/chunker.py:374-425 | a finished run has fed every part before the first unsound one; it records an error if and only if there is an unsound part |
| Pipeline.BlockedForever | forge_core/chunker.py:374-379 | a downloader blocked after its feeder failed stays blocked |
| Pipeline.BlocksExactly | forge_core/chunker.py:374-419 | some schedule blocks for ever if and only if there are more parts than the queue holds and as many sound ones in front |
| Pipeline.BlocksInTermsOfTheCall | forge_core/chunker.py:334 | the same in terms of the prefetch argument: more parts than max(1, prefetch), that many sound ones in front |
| Pipeline.BoundsInTermsOfTheCall | forge_core/chunker.py:334-356 | in every reachable state at most max(1, prefetch) parts are queued and at most max(1, workers) tasks run |
| Pipeline.PoolFills | forge_core/chunker.py:355-373 | some schedule has as many tasks running as there are workers, or parts if fewer |
| Pipeline.BeginsInOrder | forge_core/chunker.py:355-361 | whatever the scheduler does, downloads begin in listed order |
| Pipeline.EndsUnlessOverfull | forge_core/chunker.py:353-419 | otherwise, with at most prefetch parts for one, a schedule that nobody can continue has ended all threads, failing writes included |
| Pipeline.BlockedIsOverfull | forge_core/chunker.py:374-379 | every reachable blocked state has more parts than the queue holds, the queue's worth of them sound |
| Pipeline.RunOne | forge_core/chunker.py:338-403 | any step any scheduler picks keeps the invariant and uses work, a failing write too |
| Pipeline.UnpackParts | forge_core/chunker.py:338-425 | under any scheduler the function ends, or hangs in the one way above; without an error all parts were fed once and were sound; with a decompressor that accepts everything the bytes and the errors depend on the parts alone |
| Restoring.UnpackFromStore | forge_core/chunker.py:289-336 | the plan is the sums file's lines for the prefix, else the sorted listing; nothing to unpack is reported as such |
| Restoring.Restore | forge_core/relay.py:420-464 | a refused bank, one whose manifest cannot be read among them, leaves out/ untouched; otherwise out/ holds what was fed, and success means all parts were sound and extraction exited 0 |
| Restoring.WrongPrefixFindsNothing | forge_core/relay.py:147-155 | a restore that takes a full bank for a critical set, or the reverse, finds no parts |
| Restoring.VerifiedPartsAreTheRun | forge_core/chunker.py:338-351 | parts that pass the digests of a run's sums file are that run's parts, whatever the network delivered |
| Restoring.RestoreSound | forge_core/relay.py:420-464 | on any remains of one run, success means exactly that run's archive was fed if it could be checked, and exactly the parts that are there if they came as stored |
| Restoring.ListedPartsAreKept | forge_core/chunker.py:317-336 | without sums the listing gives the parts that are there, in order |
| Restoring.WholeExactly | forge_core/chunker.py:317-336 | with no empty part, a success on parts that came as stored is the whole archive if and only if every part is there |
| Restoring.RestoredWithoutSums | forge_core/relay.py:420-464 | which remains restore when the sums file does not arrive, if and only if |
| Restoring.RestoreExact | forge_core/relay.py:420-464 | which remains restore over an honest network, if and only if |
| Restoring.RestoreExactly | forge_core/relay.py:420-464 | for every network that delivers parts as stored, whether or not it delivers the manifest or the sums file: which remains restore, if and only if, and what is fed |
| Restoring.AttemptOnRemains | forge_core/relay.py:428-441 | for every network: which remains are unpacked and which are refused with out/ left alone, if and only if |
| Restoring.FourAtOnce | forge_core/chunker.py:289-292 | a restore never has more than four downloads running or four parts waiting, some schedule has four running, and with more than four parts whose first four are sound a failing decompressor can hang it |
| History.ReturnIsAStep | forge_core/relay.py:320-375 | a call that returns is a step of a history, like one that is cut |
| History.StepRemains | forge_core/relay.py:320-375 | one call, cut anywhere, leaves part of what was there or part of its own run |
| History.SingleSource | forge_core/relay.py:158-216 | after any history all assets under the tag come from a single call |
| History.HistoryRestoresOneRun | forge_core/relay.py:420-464 | after any history a successful restore feeds one call's whole archive if it could check its parts, and those of its parts that are there if they came as stored |
| History.CutRestores | forge_core/relay.py:104-144 | after a single cut call: when a restore works, and when an accepted bank cannot be restored, if and only if |
| History.LegacyWithoutSumsIsUnchecked | forge_core/chunker.py:317-322 | a staged bank cut after k assets, its sums file not arriving, reports success if and only if k >= 2 and feeds the parts that had landed |
| Campaign.ClassifiedExactly | forge_core/engine.py:841-861 | which exit, stop reasons, times and ROM zip give which classification |
| Campaign.DiskStopCanBecomeSliced | forge_core/engine.py:437-440 | after a disk stop the slice is a capacity stop if and only if that stop was the last, and resumable if and only if a budget or root-disk stop was |
| Campaign.LastStopDecides | forge_core/engine.py:437-440 | whatever stops came before, a further disk stop makes it capacity, a memory stop a stall, a budget or root-disk stop resumable |
| Campaign.NoStopIsAnError | forge_core/engine.py:841-861 | a failed exit without any stop is an error or a slice cut by its deadline, by the clock alone |
| Campaign.SliceDecision | forge_core/cli.py:327-448 | after an unforced slice the record is consistent again, its number has grown by one, it goes on if and only if merely cut short below the cap, and it verifies if and only if the build exited 0 with a zip |
| Campaign.SliceIsRecorded | forge_core/cli.py:401-434 | every field of the record a slice writes, in terms of its result |
| Campaign.GuardExactly | forge_core/cli.py:495-523 | which records an unforced call refuses with which exit code, field by field |
| Campaign.NextActionExactly | forge_core/dag.py:36-81 | when the conveyor goes on and when it verifies, if and only if, field by field |
| Campaign.MemStallIsNeverRedispatched | forge_core/cli.py:436-448 | the slice that records a memory stall has already used up the retry |
| Campaign.Absorbing | forge_core/cli.py:495-523 | which records cmd_slice refuses, and that the conveyor agrees |
| Campaign.DispatchKeeps | forge_core/cli.py:692-720 | a dispatch of several slices keeps the record consistent and counts each slice |
| Campaign.CampaignKeeps | forge_core/dag.py:36-81 | every record of a campaign is consistent and its slice number grows with each dispatch |
| Campaign.CampaignEnds | forge_core/dag.py:36-81 | a campaign verifies or fails within the cap, and verifies only with a ROM zip |
| Cli.BankedWholeRestores | forge_core/relay.py:340-375 | a completed bank restores to its run's archive even when its manifest failed |
| Cli.SliceTagsStayOneRun | forge_core/cli.py:384-402 | no cut of a slice, its critical flush included, leaves a slice tag mixing two packings |
| Cli.RecordedBankIsUntouched | forge_core/cli.py:376-402 | banking the next slice never touches the bank on record |
| Cli.SliceKeepsSafeExactly | forge_core/cli.py:327-448 | one slice, forced or not, cut at any store operation or completed, leaves the campaign safe if and only if it was cut before the INDEX write, had an out/, or found a bank of the same archive under its tag |
| Cli.SliceKeepsSafe | forge_core/cli.py:327-448 | with an out/ to bank, every slice keeps the INDEX pointing at a bank that restores to the recorded archive |
| Cli.WithoutOutExactly | forge_core/relay.py:323-325 | without out/ the INDEX ends up naming a bank of the archive on record if and only if an earlier attempt left one under the tag |
| Cli.WithoutOutRestoresExactly | forge_core/relay.py:323-325 | without out/ the INDEX ends up naming a bank that can be restored at all, a later archive's included, if and only if an earlier attempt left one |
| Cli.GcKeepsSafe | forge_core/store.py:476-494 | a collection, complete or cut, that spares the active tag keeps the campaign safe |
| Cli.ForeignCollectionIsGcStep | forge_core/store.py:476-494 | collecting another campaign, complete or cut, is such a collection unless it endangers this one |
| Cli.PublishKeepsSafe | forge_core/cli.py:821-822 | publishing marks the record done and keeps the campaign safe |
| Cli.TwoCopiesTakeTheStep | forge_core/store.py:445-473 | the INDEX write of a slice over the two copies is the atomic one, wherever cut, unless inside the primary while the backup lags |
| Cli.EveryRunIsSafe | forge_core/cli.py:327-448 | over every sequence of slices, forced or not, collections and publications the INDEX names a bank that restores in full |
| Cli.DoneBanksTheProduct | forge_core/cli.py:375-377 | a slice whose build exited 0 with a zip leaves a product bank that restores to what it built before the INDEX says so |
| Cli.ProductSurvives | forge_core/cli.py:375-377 | over a run, the product bank of a finished build still restores to that product until an event touches its tag |
| Cli.LeavesTheProduct | forge_core/cli.py:375-377 | a slice that does not finish the build, or a publication, never touches the product tag |
| Cli.EveryDiskRunIsSafe | forge_core/store.py:417-473 | so it does, from no INDEX at all, when each save writes two copies and may be cut inside either, as long as the cuts are spaced |
| Cli.DiskEventIsAnEvent | forge_core/store.py:445-473 | each event on the two copies is, seen through what is loaded, one on a single record, unless cut inside the primary while the backup lags |
| Cli.Forge.FlushCritical | forge_core/cli.py:387-393 | the flush never aborts the slice and leaves remains of one packing under one tag |
| Cli.Forge.CreateAndBank | forge_core/cli.py:394-399 | the tag ends up with the whole bank, or with remains of one packing |
| Cli.Forge.BankProduct | forge_core/relay.py:378-417 | the product bank is complete but for a manifest and touches only its own tag |
| Cli.Forge.BankOut | forge_core/relay.py:320-375 | banking into an existing tag leaves the whole bank, or remains of one packing |
| Cli.Forge.EnsureTag | forge_core/cli.py:384-399 | the slice tag exists on return with whatever it held, made only if it was missing |
| Cli.Forge.StoreOut | forge_core/cli.py:375-399 | the critical flush unless the build is done, then the bank: the operations in order, and what each cut leaves under the one tag |
| Cli.Forge.WriteRecord | forge_core/cli.py:401-434 | one INDEX write that moves the record to this slice, or leaves it when it fails |
| Cli.Forge.StoreSlice | forge_core/cli.py:363-399 | everything stored before the INDEX write, the product bank of a finished build included, and what each cut of it leaves |
| Cli.Forge.RunSingleSlice | forge_core/cli.py:327-448 | every execution is a slice step, its store operations are exactly these in this order, and it stops early only when one of them fails: the INDEX moves last, once, to the record of this slice, and a finished build has banked its product before that |
| Cli.Collect | forge_core/cli.py:820-835 | gc with the INDEX's active tag never removes or changes the bank on record |
| Cli.Purge | forge_core/cli.py:530-543 | the orphan purge of a slot never removes or changes the bank on record |
| Resuming.TryRestore | forge_core/relay.py:420-464 | a restore reports success if and only if the bank restores, and what out/ holds afterwards, a link or not, success or not |
| Resuming.ScanOne | forge_core/cli.py:664-668 | a bank that fails the completeness guard is skipped without touching out/, any other is tried |
| Resuming.ScanTurn | forge_core/cli.py:663-671 | one turn of the scan moves to the next name, or ends it at a bank that restores |
| Resuming.Resume | forge_core/cli.py:650-680 | the recorded bank if it restores, else the last candidate by name that does, else a cold start; and what out/ holds in each case |
| Resuming.Scan | forge_core/cli.py:658-671 | the fallback scan returns a candidate that restores, none after it in name order doing so, and out/ holds what its attempts left |
| Resuming.ResumeLeavesOneStream | forge_core/cli.py:650-671 | unless out/ is a link, the resume step leaves what was there, nothing, or the stream of one bank |
| Resuming.StaysCold | forge_core/cli.py:650-675 | a cold out/ stays cold when no bank in reach gets as far as being unpacked |
| Resuming.LinkedStaysColdExactly | forge_core/cli.py:650-675 | for a linked out/ if and only if |
| Resuming.ColdStartNeedNotBeCold | forge_core/cli.py:673-675 | a staged bank cut after k assets alone in the store: when the step gives up, if and only if, and what is then in out/ |
| Resuming.ResumesTheRecordedArchive | forge_core/cli.py:654-657 | a safe campaign resumes from exactly the archive of the slice on record |
| Resuming.FallbackIsOneRun | forge_core/cli.py:658-671 | whatever slice bank the fallback takes, of this campaign or another whose tags it finds, what is unpacked is of one packing, whole if it could be checked |
| Resuming.ResumesForeignExactly | forge_core/cli.py:662-668 | the resume step can unpack another campaign's bank if and only if that key continues this one with -s |
| Resuming.FallsBackToNewest | forge_core/cli.py:662-671 | the fallback is the campaign's numerically newest restorable bank if and only if no older one and no foreign one has a later name |
| Slot.Pass | forge_core/cli.py:709-720 | one pass of the fusion loop: its record, its exit code, and safety |
| Slot.Fusion | forge_core/cli.py:685-720 | every slice started with reserve to spare, all but the last were merely cut short, the record is theirs, why the loop ended, and safety, forced or not |
| Slot.WallBound | forge_core/cli.py:692-707 | no grant is below the minimum slice; if slices and banks keep to grant and reserve the loop ends within the wall budget |
| Slot.FusionEnds | forge_core/cli.py:692-720 | slices that each take a positive least duration bound the number of passes: one more than fit into the wall budget less the reserve |
| Slot.RoomAndGrant | forge_core/cli.py:685-720 | a slice starts if and only if an hour is left, and is granted as much as the budget allows and half an hour more leaves |
| Slot.PurgeAndResume | forge_core/cli.py:530-680 | the orphans go before anything is restored; then the choice of the resume step and what it leaves in out/, on exactly the remaining tags |
| Slot.Work | forge_core/cli.py:685-720 | the passes after the resume: the record is a dispatch's, which exit code, why they ended, and safety |
| Slot.CmdSlice | forge_core/cli.py:483-720 | a guarded call changes nothing; any other purges, resumes and only then works: out/ is what the resume step leaves on the purged store, exactly the recorded archive in a safe campaign, and untouched when warm; safety is kept and the records are a dispatch's, forced or not |
| TagNames.SliceNumOfStateTag | forge_core/store.py:478-482 | the number read from a slice tag is its slice, for every key and every slice |
| TagNames.WithoutNumberIsOldest | forge_core/store.py:478-482 | a tag without a readable number sorts before every slice |
| TagNames.DigitsExactly | forge_core/store.py:480 | which texts are read as a number: digits with single underscores between them |
| TagNames.ParsePadded | forge_core/store.py:480 | white space around a number does not change it |
| TagNames.SliceTagIsApart | forge_core/store.py:484-495 | a slice tag is never a turbo or product tag |
| TagNames.ProductTagIsApart | forge_core/store.py:476-499 | the product tag matches neither the slice prefix nor the turbo prefix of its campaign, so no collection of it lists that tag |
| TagNames.NameOrder | forge_core/cli.py:662 | a newer slice comes before an older one by name if and only if its leading digits make a smaller number |
| TagNames.SameDigitsKeepOrder | forge_core/cli.py:662 | slices of as many digits are in numeric order |
| TagNames.LeadingBelowHundred | forge_core/cli.py:662 | below a hundred: only an older slice of one digit is misplaced, when it exceeds the newer one's first digit |
| Gc.ListTags | forge_core/store.py:309-311 | exactly the tags with the prefix, once each |
| Gc.SortFacts | forge_core/store.py:484 | sorting by slice number is a sorted permutation |
| Gc.DoomedExactly | forge_core/store.py:484-492 | for every keep: a tag is dropped only if keep others are at least as new, and always if keep are newer; for a negative keep, by how many are older |
| Gc.CampaignTagsAreExact | forge_core/store.py:484-492 | for a campaign's own tags the two bounds meet, so exactly those outside the newest keep go |
| Gc.CampaignCollection | forge_core/store.py:484-492 | among a campaign's own tags exactly those go that have keep newer ones |
| Gc.DeleteAll | forge_core/store.py:487-492 | exactly the listed tags but the active one go; a cut one only removes |
| Gc.DoomedSlices | forge_core/store.py:476-487 | what is to be dropped is a set of this prefix's tags, within the two bounds |
| Gc.GcState | forge_core/store.py:476-499 | which tags go and that nothing else changes, also when cut |
| Gc.CollectSlices | forge_core/store.py:484-492 | the first half: which slice tags go, for any keep |
| Gc.CollectTurbo | forge_core/store.py:493-499 | the second half: all tags under the turbo prefix go and nothing else |
| Gc.ForeignSliceTags | forge_core/store.py:484 | when the prefix matches another campaign's tags, if and only if |
| Gc.ForeignTurboTags | forge_core/store.py:493-495 | when the turbo prefix matches another campaign's slice tags, if and only if |
| Gc.ForeignBanksSpared | forge_core/store.py:476-499 | other campaigns that are not endangered keep all their slice banks, also when the collection is cut |
| Gc.ForeignBankIsCollected | forge_core/store.py:476-499 | for every endangered campaign, slice, active tag and keep, a store whose collection deletes the bank |
| Gc.ForeignBanksExactly | forge_core/store.py:476-499 | a collection can delete a slice bank of another campaign if and only if its key endangers it |
| Gc.GcOrphans | forge_core/relay.py:219-249 | exactly the orphans not to be kept go, none of them a bank that passes the completeness guard |
| Gc.OrphansExactly | forge_core/relay.py:234-245 | which tags are orphans, in terms of the asset names under them |
| IndexStore.SaveIsAtomicUnless | forge_core/store.py:417-458 | one save leaves the old or the new record if and only if it is not cut inside the primary while the backup lags |
| IndexStore.CopiesAreARegister | forge_core/store.py:417-473 | from no INDEX at all, or any that does not lag, over every run of spaced cuts the two copies implement one atomic record |
| IndexStore.NeverShowsExactly | forge_core/store.py:417-473 | a pattern of cuts never shows, for any updates, if and only if it is spaced |
| IndexStore.UnspacedShows | forge_core/store.py:417-473 | for every other pattern, counting updates and the save after which a wrong record is loaded |
| IndexStore.NoTwoCutsInARow | forge_core/store.py:445-458 | runs without two cut saves in a row are such runs |
| IndexStore.TwoCutsLose | forge_core/store.py:445-458 | two cuts in a row can lose the record or bring back an older one |
| IndexStore.Index.IndexLoad | forge_core/store.py:417-443 | the primary if it is readable, else the backup, else the empty record |
| IndexStore.Index.IndexSave | forge_core/store.py:445-458 | the copies after a save cut at any point |
| IndexStore.Index.TargetUpdate | forge_core/store.py:466-473 | an update changes what it loaded, and a completed one repairs both copies |
| Mine.StepKeepsInv | forge_core/mine.py:121-219 | every step of every candidate keeps the lock's holder entitled, a taken lock stays taken |
| Mine.AtMostOneBuilder | forge_core/mine.py:101-118 | over every interleaving and every fault at most one candidate builds, and it was entitled to |
| Mine.ExactlyWhenSomeoneMayClaim | forge_core/mine.py:121-219 | when all have returned without a fault, there is a builder if and only if someone is a fleet runner, target silicon or not strict |
| Mine.NoEarlyClaim | forge_core/mine.py:189-210 | slow silicon attempts no claim before its own start plus wait, and never when strict |
| Mine.RolesExactly | forge_core/mine.py:121-219 | at which step a candidate gets each role, and that a failed lookup keeps it in the race |
| Mine.EagerWins | forge_core/mine.py:176-217 | once fast silicon has claimed before every slow candidate's deadline, only fast silicon builds |
| Mine.ActUsesWork | forge_core/mine.py:189-202 | every step of a candidate uses up work whatever the others do, so every gate returns |
| Mine.Race | forge_core/mine.py:121-219 | any schedule, run to its end: everyone returns, at most one builds, exactly one when nothing fails and someone may claim |
| Watchdog.OverIsPercentage | forge_core/engine.py:723-724 | the integer comparison is the percentage comparison |
| Watchdog.SaturatesIsExtrapolation | forge_core/engine.py:757-760 | the product form is the fill rate and its extrapolation |
| Watchdog.TimerIsFirst | forge_core/engine.py:735-742 | a timer stands at the first sample since which its condition has held |
| Watchdog.TimerDecides | forge_core/engine.py:735-752 | a timer exceeds its span if and only if the condition has held for longer |
| Watchdog.WindowStep | forge_core/engine.py:726-728 | dropping old points at each append keeps exactly the points of the last 60 s |
| Watchdog.WithinExactly | forge_core/engine.py:727-728 | a point is kept if and only if it is at most 60 s old |
| Watchdog.TrackStep | forge_core/engine.py:726-770 | one more sample moves each variable of the loop as the history demands; a skipped one moves none |
| Watchdog.FiredIsTrigger | forge_core/engine.py:736-776 | what the variables fire is what the history says, priority included |
| Watchdog.VerdictsExactly | forge_core/engine.py:736-776 | the knee and the saturation in terms of the percentages of a sample |
| Watchdog.FillingExactly | forge_core/engine.py:745-760 | the filling condition in terms of the window: its length, its span, the fill rate and the extrapolation |
| Watchdog.Poll | forge_core/engine.py:709-776 | the loop body as one step |
| Watchdog.MemoryWatchdog | forge_core/engine.py:701-776 | the watchdog fires at the first sample whose history pulls a trigger, with its cause, and at no other |
| Freshness.Grouped | forge_core/syncer.py:445-462 | a path is in the group of a second if and only if a usable line lists it there |
| Freshness.PathsExactly | forge_core/syncer.py:428-434 | which paths a manifest line may name, which files are listed and which are probed, in terms of the text between slashes |
| Freshness.SortKeys | forge_core/syncer.py:464 | the timestamps in increasing order, none lost |
| Freshness.LastTouchWins | forge_core/syncer.py:464-477 | among several groups the largest second stays on a path |
| Freshness.TouchGroup | forge_core/syncer.py:464-476 | batches of 400 touch every path of a group; a killed one touches nothing else |
| Freshness.TouchGroups | forge_core/syncer.py:464-477 | the groups in order; whatever is killed, a path has its own mtime or one of its groups' |
| Freshness.NormalizeTreeMtimes | forge_core/syncer.py:437-477 | covered paths end at their latest listed second and all others stay; partly so when touches are killed |
| Freshness.GateExactly | forge_core/engine.py:318-328 | after normalising the gate passes if and only if every probed file is old enough by its listed second or its own mtime |
| Freshness.FreshAgainExactly | forge_core/syncer.py:402-477 | a tree that was fresh when its manifest was cut is fresh after normalising, however it was stamped in between, if and only if the whole seconds of its listed files are |
| Freshness.FreshAgain | forge_core/syncer.py:402-477 | so it is for mtimes since 1970 |
| Freshness.OldStampsRise | forge_core/syncer.py:459 | for one file and every graph it is if and only if the mtime is since 1970 or whole |
| Freshness.TruncExactly | forge_core/syncer.py:459 | the recorded second of every mtime, toward zero |
| Freshness.Deterministic | forge_core/syncer.py:437-477 | any two trees agree on covered paths afterwards, and normalising again changes nothing |
| Chunker.SplitSizes | forge_core/chunker.py:111-115 | no part is empty, none exceeds the size, all but the last have it |
| Chunker.SplitJoins | forge_core/chunker.py:111-115 | joining the parts gives the stream back |
| Chunker.SplitInto | forge_core/chunker.py:111-115 | cutting a stream part by part gives these parts under their names |
| Chunker.WriteSums | forge_core/chunker.py:95-98 | the sums file lists the digest of each part in order |
| Chunker.Pack | forge_core/chunker.py:101-122 | the staging directory holds the parts and sums of the packed run; an empty stream is an error |
| Chunker.Verify | forge_core/chunker.py:209-227 | the first bad line decides; without a sums file everything passes |
| Chunker.VerifyExactly | forge_core/chunker.py:209-227 | against a run's sums a directory passes if and only if every listed part is there unchanged |
| Chunker.Feed | forge_core/chunker.py:256-266 | parts are fed in order, each once |
| Chunker.Unpack | forge_core/chunker.py:230-286 | refused unless verified, then the listed parts, or without sums the sorted ones |
| Chunker.PackUnpack | forge_core/chunker.py:101-286 | for every stream, what pack writes passes verify, and a directory that passes unpacks to the stream |
| Chunker.PackBankRestore | forge_core/chunker.py:289-425 | for every stream, packing, banking and restoring feeds the stream back |
| Turbo.ExtractAt | forge_core/turbo.py:92-95 | a path keeps what out/ had, a new one gets the first file offered |
| Turbo.NeverOverwrites | forge_core/turbo.py:78-101 | nothing in out/ changes, wherever donors fail |
| Turbo.LeftBiasedUnion | forge_core/turbo.py:78-101 | a new path comes from the first donor that delivers it |
| Turbo.UnionOfDelivered | forge_core/turbo.py:78-101 | a path is there afterwards if and only if out/ had it or some donor delivered it |
| Turbo.FailureDelivers | forge_core/turbo.py:92-95 | a donor that works delivers all its files, one that fails those before the failure |
| Turbo.MergeAgain | forge_core/turbo.py:82-83 | merging delivered paths again, in any order, changes nothing |
| Turbo.OrderMatters | forge_core/turbo.py:90 | two orders give the same tree if and only if they agree on the first file of each new path |
| Turbo.ExtractInto | forge_core/turbo.py:92-95 | extracting file by file, up to a failure |
| Turbo.MergeTurboStates | forge_core/turbo.py:78-101 | out/ after all donors, failed ones included, and how many succeeded |
| Fingerprint.SortIsCanonical | forge_core/syncer.py:85-91 | sorting by key depends only on which items there are, provided one key means one item |
| Fingerprint.Mhash | forge_core/syncer.py:79-91 | the loops hash exactly this text |
| Fingerprint.Canonical | forge_core/syncer.py:79-91 | permuting repos with distinct paths, patches with distinct destinations, or local manifests does not change the fingerprint |
| Fingerprint.SharedKeyShows | forge_core/syncer.py:85-86 | two items under one key, such as repos at one path: the order shows if and only if their texts do not commute |
| Fingerprint.CollideExactly | forge_core/syncer.py:79-91 | plans with the same repos, manifests and patches in any order collide if and only if their three fields make one text |
| Fingerprint.OneFieldShows | forge_core/syncer.py:82-84 | a change of one field always changes the fingerprint input |
| Fingerprint.HashInputOfOne | forge_core/syncer.py:79-91 | the hashed text of a plan with one repo, one local manifest and one patch, field by field |
| Fingerprint.RepoChangeShows | forge_core/syncer.py:85-86 | a repo with another url, or another branch, always changes the hashed text, wherever it stands |
| Fingerprint.PatchChangeShows | forge_core/syncer.py:89-91 | so does a patch with another source |
| Fingerprint.FieldsRunTogether | forge_core/syncer.py:81-84 | text moved from the name to the branch does not change it |

## Left out

Assumptions, stated once:

- Sums.DigestInjective: SHA-256 is taken to be injective, with a digest text of one word; the model's digest is an idealised one.
- An asset upload is atomic, as in a rename; only the INDEX is modelled with torn assets.
- A reset never silently keeps old assets: `Store.FsStore.Reset` deletes before it creates, the create may raise, the delete may be cut. A `ReleaseStore` whose delete fails while its exception is swallowed is outside the model, and there restore soundness would not hold.
- One builder works on a campaign at a time; the staging directory is empty when `pack` starts.
- `split` makes part names in increasing order with lower-case suffixes; tar, zstd and the decompressor are a byte stream in and a success flag out.
- No asset directory has the empty name (`Resuming.Resume`).
- Reading the INDEX does not fail: a download that does is answered with the backup or the empty record, after which a collection spares no tag. Campaigns do not update the shared INDEX at the same time.

Not modelled:

- The `gh` client with its retries and rate limits, sudo, btrfs, zram, swap, the heartbeat, dashboards, `monitor.py`, `scripts/`, YAML: environment.
- Source snapshots, the graph bank, patches, prebuilts and turbo slots inside `cmd_slice`; `gate.py`, `config.py`, `probe` scoring: they would only add easy members.
- The nonce, sizes and notes in manifests; `MANIFEST.json` is decoded content, not text.
- The INDEX in `Cli.dfy` holds one campaign's record.
- Records written by anything but a slice (publication, the `no-builder` classification, hand edits) are not in the campaign theorems, and neither are forced slices; the crash-safety theorems cover publication and force.
- The replay through soong after a failed direct build, which runs without watchdogs.
- Cutting the manifest at 200000 lines: `Freshness.FreshAgain` takes a manifest that lists every build file. Text encoding of manifest lines: a line is a path and a number.
- Floating-point rounding of clocks, percentages and mtimes: they are reals here.
- Restoring.Restore: files written below out/ by tar are not modelled, only the stream it is given; the decompressor accepts that stream, and what failing writes do to the threads is in `Pipeline.UnpackParts`, a hang there being a hang of the restore; a linked out/ keeps earlier streams.
- Restoring.RestoreSound: a restore whose sums file does not arrive and whose parts are altered on the way is not covered, nothing checks it.
- Slot.Fusion: slices come from a script that says how long each takes; the machine is gone when the script ends. Time between a slice and the next look at the clock belongs to the slice.
- Slot.CmdSlice: safety is for calls whose slices have an out/ to bank; the cold start's merge and graph restore are not part of it.
- Mine.Race: a poll interval is at least one second, and the INDEX does not change while it runs; `Mine.AtMostOneBuilder` and `Mine.EagerWins` allow that as well. Lost replies of a `ReleaseStore` claim are steps that take the lock and report a loss.
- Watchdog.MemoryWatchdog: the samples are given as a sequence with a clock that runs forward from a positive time; reading `/proc` is not modelled.
- Turbo.MergeTurboStates: a tree is its files; a path that is a file in one donor and a directory in another is not considered.
- Fingerprint.Mhash: the text that is hashed, not the hexadecimal prefix of its digest.
- Chunker.Pack: streaming packs write the same lines as their parts finish and are covered through `Banks.Uploads`.
