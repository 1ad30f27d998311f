# Verification model of the Sunrise Edge operator, devnet and adapter protocols

This project models the stateful protocols of Sunrise Edge that have to survive crashes,
races and restarts, and proves what they promise, in Dafny 4.11. `dafny verify
dfyconfig.toml` checks all of it.

**Archive export.** An operator saves a business cut into a directory of immutable files.
The disk has a volatile and a durable layer: file contents, the archive directory and the
staging directory each have parts that were not synchronized yet, and a power loss may
drop or keep any of them. `PublishRace` is a step machine of any number of racing
`publish` calls with faults, process deaths and power losses, and `RacingExporters` says
what such races can take back and what they cannot. `ImmutableArchives` is the
archive as one process uses it, a class whose `trace` records the disk after every system
call; in it nothing that was durable is ever lost. `CutExport` drives it over a whole cut,
`CutLifetimes` strings runs and crashes together, `CutWalk`, `CutNames` and `CutReadback` model the walk that produces the files,
their names, and a reader that restores the cut from them.

**Writer fence and identities.** `BootIdentities` is a step machine of booting processes
over one persisted fence, with `IdentityCounter` as the shared counter each of them serves
identities from. `MaintenanceSession` is an operator session against the same kind of
fence.

**Fail-closed bootstrap.** `RowStore` and `PolicySeed` model the seeding of policy rows in
a versioned compare-and-swap store; `ProtocolContext` and `ContextBoot` model the
protocol-context marker, with `CanonicalFrame` as its byte format. Code that talks to a
shared store is written as methods; before each store call other writers may do anything
their own contract allows. A store that is not `shared` has no other writers and no
failures, and the methods then say exactly when they succeed.

**Capture, stream, codec, supply.** `SnapshotCapture` models the paged and chunked capture
of a store, `RelayStream` the bounded relay of a response body, `Base64` the Lambda body
codec and bounded buffer, `GenesisSupply` the paid genesis objects.

## Conventions and assumptions

- A hash is injective on what is hashed: digests and derived object identifiers stand for
  their preimage. Encoders of cut frames and of objects are parameters with a left inverse;
  the canonical frame, the marker body, file names, identity bytes, labels and base64 are
  modelled byte for byte.
- `advance_writer_fence(a, b)` succeeds only if the stored fence is `a` and `b > a`.
  A guarded read or write succeeds only under the current fence. A token-guarded read
  answers from the token's state or fails.
- That a client writes only under a generation it installed itself is a rule for clients
  (`OwnersWrite`): the store compares the fence number alone. The results on maintenance
  sessions say where they need the rule, and hold without it everywhere else.
- Stream accumulators and the digests of a cut and its package stand for what they hash.
- The checks that a path is still attached to the same directory or inode can fail at any
  point like any other storage call; they have no other effect in the model.
- The walk over a cut is computed as a list of files and then visited. The source passes
  every file to a callback while it walks; the cut does not change, so the order and
  content of visits are the same.
- Keys of captured records are numbers, because only their order matters.
- A process is not its pid: two live processes may carry one pid, each with its own counter
  of temporary numbers.
- Time is a nondeterministic refusal or abort.
- Integers are unbounded in the model. Where the source's width matters it is written out:
  the fence, the generation, sequences, revisions, offsets and supplies stop at the largest
  u64, and the staging counter wraps around.

Two places where comments in the source are broader than its code:

- The module comment of `apps/operator/src/immutable_archive.rs` says that the containing
  directory is synchronized before a final name is exposed. That is true of the staging
  directory; the archive directory is synchronized after the link. The model follows the
  code, and the theorems hold because the file itself is synchronized before the link.
- In `apps/devnet/src/seed.rs` the comparison of the re-encoded marker body can never fail,
  because the frame decoder accepts only canonical bytes (`MarkerCodecExact`). Likewise the
  supply refusal of `apps/devnet/src/paid_contracts.rs` can never be taken (`BuildGenesis`).

## Model

| member | source | states |
|---|---|---|
| `PublishRace.Reachable` | apps/operator/src/immutable_archive.rs:98-167 | the race invariant holds in every state of every interleaving of publish calls, faults, dying processes, processes that share a pid or use one again, and power losses |
| `PublishRace.LinkedBytesNeverChange` | apps/operator/src/immutable_archive.rs:113-154 | a final name keeps its bytes from the moment it is seen as long as the power stays on, and forever once it is durable |
| `PublishRace.PublishedForever` | apps/operator/src/immutable_archive.rs:134-167 | from the moment a call returned Ok(true), every later state, also after power losses, has the name durable with exactly that call's bytes |
| `PublishRace.OneWinner` | apps/operator/src/immutable_archive.rs:98-167 | over a whole execution at most one call gets Ok(true) for a name |
| `PublishRace.NoTornFile` | apps/operator/src/immutable_archive.rs:113-154 | in every reachable state, right after a power loss too, a final name refers to the full bytes some call gave to publish or to what was there at the start |
| `PublishRace.AcceptanceSeesOwnBytes` | apps/operator/src/immutable_archive.rs:116-123 | a call is told Ok only at a moment when the name holds exactly its bytes |
| `PublishRace.DifferentBytesNeverAccepted` | apps/operator/src/immutable_archive.rs:116-123 | once a name is linked, no call with different bytes is ever told Ok for it while the power stays on, and never once the name is durable |
| `PublishRace.RetryBoundNeedsCollisions` | apps/operator/src/immutable_archive.rs:98-111 | giving up at the retry bound implies at least 31 staging collisions of that call |
| `PublishRace.UnownedStagingIsPreserved` | apps/operator/src/immutable_archive.rs:128-164 | a staging file that no live call owns is never removed, replaced or rewritten by any call, however calls interleave between power losses |
| `PublishRace.ResultsStay` | apps/operator/src/immutable_archive.rs:98-111 | a call's name, bytes and result never change afterwards |
| `PublishRace.UnsynchronizedHasCall` | apps/operator/src/immutable_archive.rs:142-154 | from a synchronized archive, in every later state a name that is linked and not durable was linked by a call that is still before its root sync, or failed or died there |
| `RacingExporters.SurvivesIffDurable` | apps/operator/src/immutable_archive.rs:142-143 | a name survives every power loss if and only if it is durable |
| `RacingExporters.OrderedIffDurable` | apps/operator/src/business_cut.rs:235-290 | on a disk, no power loss keeps the marker without a payload file if and only if that file is durable or the marker is not there |
| `RacingExporters.AcceptedIsDurableIff` | apps/operator/src/immutable_archive.rs:116-123 | Ok(false) changes nothing, and the name then survives every power loss if and only if it was durable at the comparison |
| `RacingExporters.AcceptedDurableStays` | apps/operator/src/immutable_archive.rs:116-123 | if it was durable at the comparison, it keeps those bytes in every later state |
| `RacingExporters.FoundIsDurableUnlessInFlight` | apps/operator/src/immutable_archive.rs:116-123 | in an execution from a synchronized archive, a name found with equal bytes is durable unless another call linked it and is still before its root sync, or failed or died there |
| `RacingExporters.SafelyAcceptedIsDurable` | apps/operator/src/immutable_archive.rs:116-167 | Ok(true), or Ok(false) while no call has left the name linked and not synchronized, is told of a durable name |
| `RacingExporters.AcceptedStaysOrdered` | apps/operator/src/business_cut.rs:235-290 | crash ordering for concurrent exporters: a payload file accepted that way is ordered before the marker in every later state |
| `RacingExporters.ConcurrentExportersLoseOrder` | apps/operator/src/business_cut.rs:235-290 | from every sealed disk that lacks a payload file and the marker, an execution of two processes in which the second is told Ok(false) for the payload not yet synchronized, links the marker, and a power loss leaves exactly what was durable at the start and the marker |
| `ArchiveDisk.CrashOfSealed` | apps/operator/src/immutable_archive.rs:134-154 | a crash of a sealed archive leaves only whole files that were there, and all durable names |
| `ArchiveDisk.DurableForever` | apps/operator/src/immutable_archive.rs:142-167 | what is durable at one moment of a history is there, unaltered and durable, at every later one |
| `ImmutableArchives.ImmutableArchive.Open` | apps/operator/src/immutable_archive.rs:53-80 | opening for writing creates a missing staging directory, changes no file and leaves both directories synchronized, or fails; opening for reading changes nothing |
| `ImmutableArchives.ImmutableArchive.Crash` | apps/operator/src/immutable_archive.rs:134-164 | stopping after any system call with any disk a crash may leave of it loses nothing that was durable at any moment before |
| `ImmutableArchives.ImmutableArchive.StageBytes` | apps/operator/src/immutable_archive.rs:134-140 | writing the temporary in any number of partial writes and synchronizing it keeps every final name as it was at every system call, and success leaves the full synchronized bytes |
| `ImmutableArchives.ImmutableArchive.Expose` | apps/operator/src/immutable_archive.rs:138-154 | linking exposes the whole synchronized file and makes the name durable, or fails |
| `ImmutableArchives.ImmutableArchive.Cleanup` | apps/operator/src/immutable_archive.rs:155-162 | cleanup removes only the call's own temporary and changes no final file |
| `ImmutableArchives.ImmutableArchive.PublishNew` | apps/operator/src/immutable_archive.rs:130-167 | every disk passed through shows the old files or these plus the complete new one; success leaves it durable and the staging area as it was |
| `ImmutableArchives.ImmutableArchive.PublishNumber` | apps/operator/src/immutable_archive.rs:113-167 | which result one attempt gives, when nothing is written, and what the disk holds after Ok(true) and Ok(false) |
| `ImmutableArchives.ImmutableArchive.Publish` | apps/operator/src/immutable_archive.rs:98-111 | Ok(true) means newly published and durable, Ok(false) means already there with equal bytes, different bytes always fail, an existing name is never touched; without faults the exact result, giving up if and only if the name is missing and the next 32 temporaries are taken |
| `ImmutableArchives.FewTempsLeaveRoom` | apps/operator/src/immutable_archive.rs:98-111 | wherever the counter stands, 32 taken temporaries of a pid are 32 different ones, so fewer of them never stop a call |
| `CutExport.Preflight` | apps/operator/src/business_cut.rs:205-232 | the check before any write accepts exactly the archives with no foreign name, no altered byte and no marker over missing material, and returns the expected names |
| `CutExport.SaveOne` | apps/operator/src/business_cut.rs:239-243 | publishing one artifact adds exactly it if it was missing, keeps the run's disk invariant at every system call, and takes one number if the artifact is there |
| `CutExport.SavePayload` | apps/operator/src/business_cut.rs:233-245 | saves exactly the first min(budget, missing) payload artifacts in walk order and says whether that was all; nothing is changed before the first missing one, nor if that is out of temporary numbers |
| `CutExport.Recheck` | apps/operator/src/business_cut.rs:268-273 | success means every payload artifact is there with its exact bytes |
| `CutExport.Finish` | apps/operator/src/business_cut.rs:261-291 | the marker is added last, only with budget left, only after the final source check, and completion is reported only with it |
| `CutExport.PublishSourceCut` | apps/operator/src/business_cut.rs:198-291 | an unacceptable archive is refused untouched; a successful run adds exactly min(budget, missing) artifacts, the first missing ones, and reports complete if and only if missing <= budget; without faults and with room in staging it succeeds if and only if the source check passes or is not reached; a run whose first missing artifact is out of temporary numbers fails and changes nothing |
| `CutExport.FillIsTarget` | apps/operator/src/business_cut.rs:233-290 | filling without limit gives exactly the plan's archive, whatever acceptable part was saved before |
| `CutLifetimes.Run` | apps/operator/src/business_cut.rs:198-291 | on every disk a run passes through, a visible marker stands over complete durable payload; from a state of a run of its cut it passes only through such states; a new process that is out of numbers from zero fails and leaves files and staging as they are, so later runs under that pid fail too |
| `CutLifetimes.CrashAfter` | apps/operator/src/immutable_archive.rs:134-164 | stopping after any system call with any disk a crash may leave keeps that property |
| `CutLifetimes.Lifetime` | apps/operator/src/business_cut.rs:235-290 | crash ordering and confluence over any sequence of runs, cuts, budgets and crashes: a surviving marker implies the durable exact payload, nothing durable is lost over the whole history, and a completed run leaves what one unlimited run would |
| `CutLifetimes.CrashLeavesResumable` | apps/operator/src/business_cut.rs:205-232 | whatever a crash leaves of any moment of a run of a cut is acceptable to the next run of that cut, and again such a state |
| `CutLifetimes.Resume` | apps/operator/src/business_cut.rs:198-291 | a lifetime of one cut with any crashes: every run finds and leaves an archive that the next run accepts, and one that succeeds durably saves the first missing artifacts its budget allows |
| `CutLifetimes.CountsNeverGoBack` | apps/operator/src/business_cut.rs:233-290 | in such a lifetime no later crash loses an artifact that a successful run had saved |
| `CutLifetimes.RunShrinksMissing` | apps/operator/src/business_cut.rs:233-290 | after a run exactly the first min(budget, missing) artifacts are no longer missing, and the next run accepts the archive |
| `CutLifetimes.RunsAddUp` | apps/operator/src/business_cut.rs:233-290 | from an empty archive only the sum of the budgets matters: that many artifacts of the plan are saved, in order |
| `CutLifetimes.CompletedRunsAgree` | apps/operator/src/business_cut.rs:233-290 | every series of budgets that completes leaves the same archive |
| `CutLifetimes.ExactRunCount` | apps/operator/src/business_cut.rs:233-290 | with a fixed budget, exactly ceil((n + 1) / budget) runs are needed for n payload files |
| `CutNames.NamesInjective` | clients/rust/src/business_cut_archive.rs:208-222 | page and chunk names, with their zero padding, and the fixed names never coincide for different arguments |
| `CutWalk.LimitsRoundTrip` | clients/rust/src/business_cut_archive.rs:87-108 | the saved transfer settings parse back to themselves |
| `CutWalk.VisitChunks` | apps/operator/src/business_cut.rs:104-118 | the chunk loop emits exactly the consecutive chunks of the component and ends |
| `CutWalk.VisitComponents` | apps/operator/src/business_cut.rs:103-123 | all chunks of all listed components, in order |
| `CutWalk.VisitPage` | apps/operator/src/business_cut.rs:93-123 | one page file, the chunks of what it lists, and the next cursor |
| `CutWalk.VisitStream` | apps/operator/src/business_cut.rs:88-138 | the page loop emits every page of a stream once and ends; no refusal is reachable for a valid cut |
| `CutWalk.VisitCutFiles` | apps/operator/src/business_cut.rs:63-140 | the whole walk is the four fixed files, then the seven streams |
| `CutReadback.WalkKeys` | apps/operator/src/business_cut.rs:63-140 | every file of the walk has its own key and fits its name |
| `CutReadback.WalkIsWellFormed` | apps/operator/src/business_cut.rs:63-140 | the walk's names are pairwise distinct plain file names, none of them the marker or the staging directory |
| `CutReadback.ChunksRestore` | clients/rust/src/business_cut_archive.rs:366-420 | the chunks of a component tile it: read back in order they concatenate to its bytes, and the reader records exactly their names |
| `CutReadback.StreamRestores` | clients/rust/src/business_cut_archive.rs:318-432 | reading a stream page by page, with its cursors, accumulators and root, restores its components in order |
| `CutReadback.ExportReadsBack` | clients/rust/src/business_cut_archive.rs:274-455 | a reader of the source's domain accepts the archive a completed export leaves, with settings, token, digests, inventory and marker, reads exactly the files of the walk and restores every stream exactly, for every page and chunk size |
| `CutReadback.AcceptedIsCommitted` | clients/rust/src/business_cut_archive.rs:274-455 | whatever an archive holds, what the reader accepts has exactly the descriptors its package commits to, stream by stream, with bodies of the stated lengths and a token of its domain, and the archive holds exactly the files read and the matching marker |
| `CutReadback.ExportSourceCut` | apps/operator/src/business_cut.rs:144-291 | end to end: a run that reports completion leaves an archive that the reader accepts and restores to the source's streams |
| `IdentityCounter.RunsAreLinear` | apps/devnet/src/identities.rs:47-63 | for every interleaving of threads, spurious failures and stale relaxed loads, claim i is exactly the i-th value after the start, and claims and cell values determine each other |
| `IdentityCounter.ExhaustionIsPermanent` | apps/operator/src/host_runtime.rs:107-120 | in both counters a refusal comes only after the whole capacity was handed out, and no later call is ever served |
| `IdentityCounter.ClaimsAreDistinct` | apps/devnet/src/identities.rs:47-63 | claims strictly increase, the devnet source never hands out its reserved start, the host source never hands out zero |
| `IdentityCounter.SoloCallIsServed` | apps/operator/src/host_runtime.rs:107-120 | a call that sees the current value and runs alone is served exactly while capacity remains |
| `BootIdentities.IdentityBytesInjective` | apps/devnet/src/identities.rs:70-86 | equal correlation or lease bytes mean equal generation and sequence |
| `BootIdentities.IdentityIsNotZero` | apps/devnet/src/identities.rs:74-86 | the refusal of an all-zero identity is unreachable |
| `BootIdentities.Reachable` | apps/devnet/src/main.rs:26-161 | the ownership and sequence invariant holds in every state of every interleaving of boots, crashes and threads |
| `BootIdentities.IdentitiesAreUnique` | apps/devnet/src/main.rs:26-161 | over all boots of a data directory no correlation or lease identity is ever issued twice, and none is zero |
| `BootIdentities.OneProcessPerGeneration` | apps/devnet/src/boot.rs:102-108 | no two processes, past or present, hold the same writer generation |
| `BootIdentities.ClaimsIncrease` | apps/devnet/src/boot.rs:102-108 | a fresh claim is above every generation installed before it |
| `MaintenanceSession.FenceGrows` | crates/runtime-postgres/src/lib.rs:666-725 | the fence never goes back and is unchanged if and only if nothing was installed in between |
| `MaintenanceSession.MatchIsExclusive` | apps/operator/src/economics.rs:493-510 | a fence equal to the session's own generation proves that nothing was installed since its claim and that every write since then was made under that generation |
| `MaintenanceSession.MismatchIsTakeover` | apps/operator/src/economics.rs:493-504 | a different fence proves that a greater generation was installed after the claim |
| `MaintenanceSession.EraWritesAreOwn` | crates/runtime-postgres/src/lib.rs:666-725 | no generation is installed twice, so among clients that write only under generations they installed, every write of an exclusive session's era is its own |
| `MaintenanceSession.ReadsAreOneEra` | apps/operator/src/economics.rs:493-510 | every value an exclusive session read is the one at its claim overlaid with writes under its own generation only; if there were none, all are from one snapshot |
| `MaintenanceSession.OutputIsOneEra` | apps/operator/src/economics.rs:727-728 | a saved output is made from answers that are the values at the claim overlaid with writes under the claimed generation, the session's own if clients keep the rule, and from one snapshot if there were none |
| `MaintenanceSession.PinsHeldAtClaim` | apps/operator/src/economics.rs:384-437 | for a session that saved an output, the inspection of the installation, run against the one state the claim found, reads the same rows and accepts; the output of a command that only reads is made from that same state |
| `MaintenanceSession.SaveInEraIff` | apps/operator/src/economics.rs:727-728 | the save itself lies in the session's era if and only if nothing was installed between the check and the save |
| `MaintenanceSession.TakeoverBeforeSave` | apps/operator/src/economics.rs:611-613 | a history in which another generation is installed between the check and the save, so that the output goes out and only the check after it fails |
| `MaintenanceSession.OpenSession` | apps/operator/src/economics.rs:440-491 | success means the session installed its generation during the call, then ran the whole inspection under it, each row chosen by what was read before, and found the installation as pinned, and nothing was saved |
| `MaintenanceSession.DoAll` | apps/operator/src/economics.rs:692-726 | a command's operations, each chosen by the answers before it, happened in order under one generation up to the command's end, and the session did nothing else; or it failed |
| `MaintenanceSession.VerifyFinish` | apps/operator/src/economics.rs:493-510 | success means the claim is exclusive up to this check |
| `MaintenanceSession.Execute` | apps/operator/src/economics.rs:692-980 | success means every operation that the answers called for happened under the claimed generation, in order, and the output made from the answers was saved after an exclusive check that follows all of them; failure saves nothing |
| `MaintenanceSession.RunSession` | apps/operator/src/economics.rs:602-613 | reported completion means one exclusive writer era from the claim to the final check, the save included; a saved output always follows an exclusive check, complete or not |
| `RowStore.RevisionFixesRow` | crates/runtime/src/lib.rs:3597-3655 | revisions never go back and an unchanged revision means an unchanged row |
| `RowStore.Store.Commit` | crates/runtime/src/lib.rs:3881-3928 | a transaction commits only if all asserted revisions hold; rejection proves nothing was written, an indeterminate answer proves nothing |
| `PolicySeed.CommitCompletesProfile` | apps/devnet/src/local_execution.rs:108-156 | whoever else writes, a seeder's commit puts only rows never written before, leaves only rows that are exact at that moment, and makes the whole profile exact |
| `PolicySeed.AbsentOrExact` | apps/devnet/src/local_execution.rs:108-156 | if only seeders write a profile, at every point all its rows are absent or all exact, and once exact no seeder writes again |
| `PolicySeed.CallsKeepOnlySeeders` | apps/devnet/src/local_execution.rs:108-156 | what a seeder call guarantees keeps that hypothesis: among seeders, every call leaves the rows all absent or all exact |
| `PolicySeed.Gather` | apps/devnet/src/local_execution.rs:109-129 | the read loop collects a seeding transaction backed by what was read, or refuses at the first foreign value or tombstone |
| `PolicySeed.VerifyRows` | apps/devnet/src/local_execution.rs:146-156 | success means every row was found exact during the call |
| `PolicySeed.SeedExecutionProfile` | apps/devnet/src/local_execution.rs:64-156 | under any interference at most one seeding transaction, none if every row was ever written, success means all rows seen exact; alone, success if and only if every row is absent or exact, with the exact error otherwise and nothing changed |
| `PolicySeed.SeedPublicationPolicy` | apps/devnet/src/publication.rs:64-118 | the same for the one publication row, which ends at once when it is already exact |
| `CanonicalFrame.FrameCodecExact` | crates/canonical-encoding/src/lib.rs:109-141 | a byte string decodes to a frame if and only if it is that valid frame's encoding |
| `CanonicalFrame.DecodeCanonicalFrame` | crates/canonical-encoding/src/lib.rs:389-443 | the decoder's loop succeeds exactly on the encodings of valid frames |
| `ProtocolContext.MarkerCodecExact` | apps/devnet/src/seed.rs:49-81 | a marker body decodes to a version and epoch if and only if it is their encoding |
| `ProtocolContext.SameContext` | apps/devnet/src/seed.rs:212-303 | one store state attests at most one chain, version and epoch |
| `ProtocolContext.BootsAgree` | apps/devnet/src/seed.rs:95-158 | in any history of one store, with any other writers, all boots that came up carry the same chain, version and epoch |
| `ContextBoot.ChecksAreExact` | apps/devnet/src/seed.rs:212-303 | the checks accept a stored record if and only if it is exactly what a boot of the same context would have created at an earlier or equal generation |
| `ContextBoot.ForeignMarkerIsNamed` | apps/devnet/src/seed.rs:291-303 | a genuine marker of another context is refused as a version mismatch first, then as an epoch mismatch |
| `ContextBoot.CreateMarker` | apps/devnet/src/seed.rs:314-381 | success leaves the complete marker of this boot; alone it succeeds exactly when the head is absent, the receipt unused and the fence its own |
| `ContextBoot.VerifyMarker` | apps/devnet/src/seed.rs:160-312 | success attests this boot's context whatever others do; a marker of the same context from an earlier or equal generation can fail only on a storage read |
| `ContextBoot.VerifyOrSeed` | apps/devnet/src/seed.rs:95-158 | success attests this context, an earlier marker of the same context verifies, a fence mismatch touches nothing; alone, the exact condition of success |
| `ContextBoot.LaterBootsAccept` | apps/devnet/src/seed.rs:228-234 | what one boot created, every later boot of the same context at a greater or equal generation accepts |
| `SnapshotCapture.SnapshotIsExact` | apps/operator/src/business_snapshot.rs:126-158 | the simple snapshot holds every record of the four collections exactly once, in order |
| `SnapshotCapture.ReadValue` | apps/operator/src/business_snapshot.rs:26-63 | the chunk loop returns the full payload of the record at the token, or nothing for a record without one |
| `SnapshotCapture.ReadBlob` | apps/operator/src/business_snapshot.rs:65-103 | whatever happens to the store, a returned value has the length that was read first and fits the maximum; in a content-addressed store it is the content; alone it is the row, exactly when that is there and fits |
| `SnapshotCapture.NextPage` | apps/operator/src/business_snapshot.rs:134-157 | one page returns the next records after the cursor in full and the exact continuation |
| `SnapshotCapture.CaptureCollection` | apps/operator/src/business_snapshot.rs:132-158 | the page loop ends and returns the whole collection at the token, for every page size |
| `SnapshotCapture.CaptureSnapshot` | apps/operator/src/business_snapshot.rs:108-172 | under any concurrent writes success means exactly the simple snapshot of one state that still holds at the final check, and exactly the referenced blobs, with their content if the blob store is content-addressed; alone, the exact condition of success |
| `RelayStream.Reachable` | adapters/shared/certified-web-ingress.ts:247-340 | the stream invariant holds in every state of every interleaving of pulls, upstream answers, abort, cancel and finalisation |
| `RelayStream.DeliveredIsBoundedPrefix` | adapters/shared/certified-web-ingress.ts:261-308 | delivered bytes are a prefix of upstream within the ceiling, and the reader is finalised at most once, exactly once when the stream is no longer readable |
| `RelayStream.CleanCloseIsComplete` | adapters/shared/certified-web-ingress.ts:291-297 | a clean close means upstream really ended, every byte was delivered, and any declared length was matched |
| `RelayStream.NothingAfterTheEnd` | adapters/shared/certified-web-ingress.ts:279-313 | after an error, a cancel or a close nothing more is delivered and the stream stays so |
| `RelayStream.ClosesIffFits` | adapters/shared/certified-web-ingress.ts:247-340 | a body can reach a clean close if and only if it ends within the maximum at its declared length |
| `RelayStream.RunsAreBounded` | adapters/shared/certified-web-ingress.ts:247-340 | every interleaving ends: whatever abort, consumer and upstream do, a run has at most 8 n + 10 events for n chunks |
| `RelayStream.QuiescentIsTerminal` | adapters/shared/certified-web-ingress.ts:247-340 | a run can stop only at an ended stream, or at a read that upstream, having sent all it would, never answers |
| `RelayStream.FittingBodyAlwaysCloses` | adapters/shared/certified-web-ingress.ts:281-308 | a body that fits is always relayed in full: every run that is neither aborted nor cancelled stops only at a clean close |
| `Base64.DecodeBoundedExact` | adapters/aws-lambda/src/http-api-v2.ts:149-170 | decoding succeeds with some bytes if and only if the text is their canonical encoding and they fit the limit |
| `Base64.CanonicalIffPaddingIsZero` | adapters/aws-lambda/src/http-api-v2.ts:162-168 | a well-shaped text re-encodes to itself if and only if its padding bits are zero |
| `Base64.TextExact` | adapters/aws-lambda/src/http-api-v2.ts:154-158 | characters and their six-bit meanings correspond one to one |
| `Base64.ReadBoundedBody` | adapters/aws-lambda/src/http-api-v2.ts:194-227 | no body gives an empty buffer; otherwise the buffer holds the concatenation of all chunks, success if and only if the body ends and fits, and the size error wins over a later failure unless cancelling fails |
| `GenesisSupply.LabelsInjective` | apps/devnet/src/paid_contracts.rs:187-198 | different objects have different labels, even for repeated owners |
| `GenesisSupply.DerivedIdsInjective` | apps/devnet/src/paid_contracts.rs:175-198 | hashing the labels tells all objects apart |
| `GenesisSupply.PushAllCoins` | apps/devnet/src/paid_contracts.rs:377-417 | the loop adds both coins of every owner and exactly the per-owner balance each |
| `GenesisSupply.SeededSupply` | apps/devnet/src/paid_contracts.rs:454-460 | the checked sum over the coins, with its overflow refusal |
| `GenesisSupply.SeedObjects` | apps/devnet/src/paid_contracts.rs:349-448 | the manifest's objects in order, with the coins of every owner and the treasury's supply equal to the sum of all coins |
| `GenesisSupply.BuildGenesis` | apps/devnet/src/paid_contracts.rs:338-466 | success if and only if there is an owner and the supply fits a u64; coins and bond sum to the treasury supply, every owner has both coins, all identifiers differ, and the inconsistency refusal is never taken |

## Left out

- FastVote, ordered history, readiness certificates, fee claims and genesis installation beyond the object list above.
- SQLite, PostgreSQL, TLS, HTTP and the operating system: only the contracts listed under conventions.
- Cryptography: signatures are absent and hashes are injective.
- Alternative spellings of one file name such as a trailing slash.
- The independent replay that verifies a restored cut after it was read.
- The successor variant of the export, which differs only in how the cut is derived.
- Header, media-type and status checks of the ingress adapter, and its refusal path that buffers the body first.
- Package, publication and economics-policy fields of the genesis manifest.
- Derivation of policy bytes and keys: policy rows are given as key and bytes.
- MaintenanceSession.OpenSession: which rows are pinned and how they are compared is any inspection; the rows of the manifest, the policies and the validator set are not spelled out.
- MaintenanceSession.Execute: the work of a command is any program of guarded reads and writes, and the report any function of the answers; what the fee-claim commands compute is not modelled.
- CutReadback.ExportReadsBack: the reader without a read budget; the optional limits on observations, components and bytes are not modelled.
- CutReadback.AcceptedIsCommitted: the reader without a read budget, as above.
- CutReadback.ExportSourceCut: the archive is read back by the reader without a read budget, as above.
- SnapshotCapture.ReadBlob: in a store that is not content-addressed only the length is known; the hash check that follows the capture is not modelled.
