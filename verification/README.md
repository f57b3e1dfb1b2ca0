# The launcher's control plane, modelled and proved

This project models the launcher's local control plane: a small transaction system over files that must survive crashes, failed writes and lost replies, with several exact parsers and arithmetic kernels beside it. Verify the whole project with `dafny verify dfyconfig.toml`.

## How the model is built

**Coordinator** (`Coordinator.dfy`, `CoordinatorSafety.dfy`, `CoordinatorRuns.dfy`, `CoordinatorEffects.dfy`, `OperationStore.dfy`). A project directory is a map of operation records and a lock directory, which may lack its metadata. Each synchronous stretch of `runProjectOperation` between two awaits is a function that lists its file writes. A step of the system performs such a stretch, or a prefix of it when the process dies in the middle; other steps are heartbeats, process starts and deaths, and the clock. A step of the clock may not age a live owner's heartbeat past the stale bounds. `OperationStore.ProjectDirectory` is the same store as an object with mutable fields, whose methods and loops are proved to leave exactly what the stretches describe.

**Property-area apply** (`AreaApply.dfy`, `AreaApplySafety.dfy`, `AreaApplyBaseline.dfy`, `AreaApplyRecords.dfy`, `AreaApplyExample.dfy`) adds to the coordinator the client's own steps (scan of prior attempts, baseline check, add-if-absent write, check of the state read back). Its guarantees hold over interleavings of both layers.

**Key rotation** (`KeyRotation.dfy`, `KeyRotationSafety.dfy`, `KeyRotationFalls.dfy`, `KeyRotationStages.dfy`, `KeyRotationCalls.dfy`, `RotationHost.dfy`). The world is the local credential, the rotation file and the agent's key table. Every remote call and every file write consults a fault: it may fail with or without having taken effect, or the process may die before or after it. `RotationHost.Launcher` is the imperative form, with the two-attempt revoke loop.

**Project store** (`ProjectStore.dfy`, `ProjectStoreSafety.dfy`, `ProjectStoreEffects.dfy`, `ProjectStoreExample.dfy`, `ProjectInventory.dfy`, `Slug.dfy`, `NetworkPool.dfy`). Several processes interleave at single file operations: the lock directory, its owner file, each staged file, the rename, the cleanup, the two steps of the release. Each of them may fail, and a process may die between any two of them, inside the write of a staged file, or inside the removal of the staged directory. `ProjectInventory.ProjectsRoot` holds the loops of the inventory, the allocation, create and save, proved against the same predicates.

**Kernels**: env files (`EnvFile`, `EnvFileText`), ZIP archives (`Zip`, `ZipArchive`, `ZipLaws`, over `Bytes`, `Utf8` and `Utf8Laws`), stable JSON (`Json`, `JsonReader`, `StableJson`, `StableJsonLaws`), signed queries (`SignedQuery`), the replay store (`ReplayStore`), IPv4 prefixes (`Cidr`, `CidrText`), decimals and area evidence (`Decimals`, `AreaEvidence`, `AreaEvidenceLaws`), the rate limiter (`RateLimiter`), recovery storage (`RecoveryBytes`, `RecoveryGovernance`, `RecoveryGovernanceLaws`), the access-list text of credential files (`AclText`). `TextOrder` is the host language's string order, by UTF-16 code unit; `Sorting` is stable sorting.

Hashes are injective by being the value hashed, or are function parameters; operation ids, tokens and key ids are fresh; the inflater, file sizes and the reading of raw names are function parameters; clocks and fault sequences are parameters.

## Where the code does less than it may seem to

Each of these is a theorem here, with the exact condition and, where it helps, a concrete instance.

- With `deferIdempotencyUntilPostLock` the resume verdict of the second idempotency check is not looked at. A second record for the key is made exactly when the caller resumes the status of the record that exists (`DeferredResumeDuplicates`, `DeferredResumeExample`). The run theorems are about requests that do not combine the two options.
- A lock directory without metadata closes the project for good (`BareLockIsForever`). In the model a process that dies between making the directory and writing its metadata leaves one.
- `reconcileInterruptedOperations` is called without the request's stale bound, so a request is turned away only if the lock is fresh under both its own bound and the default one (`TurnedAwayExactly`).
- A property-area plan can get a second apply record: the scan of prior attempts happens before the coordinator reconciles, so an attempt whose owner died is not yet seen as ended. `SecondRecordExactly` gives the condition for every step, `SecondRecordExample` a run from an empty project, `PlanHasOneRecord` the runs in which it cannot happen. That a plan succeeds at most once holds in all runs.
- The baseline check of an apply and its write are two calls: an edit between them leaves the activation over areas nobody approved, and only the read-back notices (`DriftIsNoticedAfterTheWrite`).
- The stored stage of a rotation can go back, because the failure handler stores the state it last assigned. One call does so exactly when its first disk fault is an error of the proof write, or an error, after taking effect, of a write that moves the stage on, the network script lets the call through to that write, and the handler's own write, which comes next, takes effect (`StageFallsExactly`). The condition is over the inputs: the stage in the file, the two fault scripts, and whether the old key is revoked already. Over any number of calls no stage goes back exactly when no call meets it (`StagesNeverFallExactly`). When disk errors are reported truthfully only the proof write is left, the third to ninth write depending on the stage (`HonestFallsAtTheProof`). `FailedProofExample` and `UntruthfulDiskExample` are instances.
- In the project store, the projects themselves are strict in every state. The strict inventory, which also looks at the staging area, starts to refuse exactly when the removal of a staged directory is cut short, by an error or by the death of its process, and leaves files that are not whole or not in the order they were written in (`StrictLostExactly`, `AlwaysStrictExactly`); it then refuses forever (`SpoiledLeafIsForever`). While nobody holds the lock only the error is left, because a process that dies there leaves the lock behind (`UnlockedStrictExactly`); `ScrapsExample` is such a run. The ways to a lock that is never released are listed exactly (`OrphanedExactly`), and nothing changes after that (`OrphanedLockIsForever`).
- At the instant timestamp + freshness a signed request is still fresh but its claim is already cleaned up, so it is accepted again, as often as it is sent (`AcceptedAgainExactlyAtTheEnd`, with a run in `AcceptedTwiceExample`).
- Retention keeps at most one snapshot less than the policy's maximum, because the newest one is protected rather than retained (`RetainedWithinPolicy`).

## Model

| member | source | states |
|---|---|---|
| Coordinator.Find | launcher/src/project-operation-store.js:324-342 | the lookup by key hash returns a listed non-legacy record with that key, and nothing only if there is none |
| CoordinatorSafety.ReconcileLegal | launcher/src/project-operation-coordinator.js:192-244 | every write of a reconcile is allowed: it only interrupts unfinished records or frees a stale lock, and keeps one record per key |
| CoordinatorSafety.AfterReconcile | launcher/src/project-operation-coordinator.js:192-244 | after a reconcile an unfinished non-legacy record is the one the remaining lock names |
| CoordinatorSafety.AcquireLegal | launcher/src/project-operation-coordinator.js:246-316 | a successful acquisition ends with the caller's own lock and touches no finished record |
| CoordinatorSafety.NextKeepsInv | launcher/src/project-operation-coordinator.js:396-647 | every step, whole or cut short by a crash, keeps the coordinator's invariant |
| CoordinatorRuns.MutualExclusion | launcher/src/project-operation-coordinator.js:246-316 | in every state of every run at most one call is past the lock, its process lives, the lock names it, and an executing call's record is running |
| CoordinatorRuns.ReconcileLeavesOnlyTheOwner | launcher/src/project-operation-coordinator.js:192-244 | in every run a completed reconcile leaves no requested or running record but the lock's own |
| CoordinatorRuns.KeyExecutesOneOperation | launcher/src/project-operation-coordinator.js:318-390 | over a whole run a key has one record, all its executions share that record and one fingerprint, and nothing is executed for it after its one success |
| CoordinatorRuns.RecordsEvolve | launcher/src/project-operation-store.js:288-322 | over any stretch of a run a record keeps id, key, fingerprint and metadata, and a succeeded or legacy record never changes |
| CoordinatorRuns.ReuseOfAFinishedKey | launcher/src/project-operation-coordinator.js:318-390 | reusing the key of a finished record replays a success, refuses another fingerprint, and runs again only on a resume of that status; it never makes a record |
| CoordinatorRuns.OnlyResumeReopens | launcher/src/project-operation-coordinator.js:506-525 | a failed or interrupted record changes only in a step that resumes that status with the record's own key and fingerprint |
| CoordinatorRuns.TurnedAwayExactly | launcher/src/project-operation-coordinator.js:246-316 | a request with an unused key meets the conflict error exactly when the lock has no readable metadata or its owner is alive and fresh under both bounds |
| CoordinatorRuns.BareLockIsForever | launcher/src/project-operation-coordinator.js:246-316 | a lock directory left without metadata stays, and nothing is executed in the project from then on |
| CoordinatorRuns.DeferredResumeDuplicates | launcher/src/project-operation-coordinator.js:489-548 | with the first check deferred, one record per key is lost exactly when the caller resumes the status of the key's record |
| CoordinatorRuns.DeferredResumeExample | launcher/src/project-operation-coordinator.js:489-548 | a concrete disk and request for which it is lost |
| OperationStore.ProjectDirectory.FindOperation | launcher/src/project-operation-store.js:324-342 | the search loop finds the same record as the lookup function |
| OperationStore.ProjectDirectory.MarkOperationInterrupted | launcher/src/project-operation-coordinator.js:158-190 | the directory afterwards differs by exactly the interruption of that record, if it is unfinished and not legacy |
| OperationStore.ProjectDirectory.QuarantineStaleLock | launcher/src/project-operation-store.js:415-428 | a stale lock is gone and its operation interrupted; any other lock stands |
| OperationStore.ProjectDirectory.SweepListed | launcher/src/project-operation-coordinator.js:218-243 | the loop interrupts exactly the listed unfinished records the lock does not name |
| OperationStore.ProjectDirectory.ReconcileInterruptedOperations | launcher/src/project-operation-coordinator.js:192-244 | the method leaves exactly what the reconcile of the step system writes |
| OperationStore.ProjectDirectory.AcquireProjectLock | launcher/src/project-operation-coordinator.js:246-316 | the recursive acquisition succeeds exactly when the step system's does and leaves the same lock and records; a conflict changes nothing |
| OperationStore.ProjectDirectory.Release | launcher/src/project-operation-coordinator.js:267-272 | frees the lock only if it still names the caller's operation |
| OperationStore.ProjectDirectory.Heartbeat | launcher/src/project-operation-coordinator.js:273-284 | renews only the caller's own lock |
| OperationStore.ProjectDirectory.Begin | launcher/src/project-operation-coordinator.js:489-585 | second check, then create or resume: writes and answer are those of the step system |
| OperationStore.ProjectDirectory.Admit | launcher/src/project-operation-coordinator.js:396-548 | the whole call up to its first await refines the step system's admission |
| OperationStore.ProjectDirectory.SetStage | launcher/src/project-operation-coordinator.js:571-583 | a stage change updates the running record and nothing else, as the step system says |
| OperationStore.ProjectDirectory.Succeed | launcher/src/project-operation-coordinator.js:594-647 | a finished execution marks its record succeeded and releases, as the step system says |
| OperationStore.ProjectDirectory.Fail | launcher/src/project-operation-coordinator.js:623-647 | a failed execution marks its record failed with the stage it reached and releases, as the step system says |
| CoordinatorEffects.LeavingFreesTheLock | launcher/src/project-operation-coordinator.js:641-646 | whatever ends a call while its process lives, success, failure, checked replay or refusal behind the lock, the lock is free afterwards |
| CoordinatorEffects.NextRequestGetsThrough | launcher/src/project-operation-coordinator.js:594-647 | in any run, once a call has ended and nobody has been admitted since, a request with an unused key is let in and not met by a conflict |
| CoordinatorEffects.SuccessLeaves | launcher/src/project-operation-coordinator.js:594-622 | a success leaves the record succeeded, completed and without error, every other record as it was, and no lock |
| CoordinatorEffects.FailureLeaves | launcher/src/project-operation-coordinator.js:623-647 | a failure leaves the record failed with its code and the stage it happened in, if it can be written, every other record as it was, and no lock |
| CoordinatorEffects.StageLeaves | launcher/src/project-operation-coordinator.js:571-583 | a stage change writes that stage into the record and the call, and leaves the rest |
| CoordinatorEffects.BeatLeaves | launcher/src/project-operation-coordinator.js:273-284 | a heartbeat sets the time of its own lock to the present instant and leaves the rest |
| CoordinatorEffects.OthersLocksAreSpared | launcher/src/project-operation-coordinator.js:267-284 | on any disk a release frees and a heartbeat renews the lock of their own operation only, and neither touches a record |
| CoordinatorEffects.ReconcileLeaves | launcher/src/project-operation-coordinator.js:192-244 | a reconcile frees exactly a lock whose owner is dead or sixty seconds silent, and interrupts exactly the listed unfinished records that the lock left over does not name |
| CoordinatorEffects.AcquireLeaves | launcher/src/project-operation-coordinator.js:246-316 | the lock is refused exactly when it has no metadata or a live owner with a fresh heartbeat; otherwise it becomes the taker's, and of the records only an unfinished one named by an abandoned lock is interrupted |
| CoordinatorEffects.AdmissionDecides | launcher/src/project-operation-coordinator.js:396-548 | the answer to a request checked before the lock, spelled out over the one record of its key, its status, fingerprint and resume list, and the lock |
| CoordinatorEffects.ResolvedLeaves | launcher/src/project-operation-coordinator.js:453-548 | behind the lock, what the second check leaves after a post-lock resolver that continues, and what one that handles the request leaves |
| CoordinatorEffects.ResolvedDecides | launcher/src/project-operation-coordinator.js:470-505 | behind the lock a deferred request is decided by the one record of its key, its fingerprint and status; a request decided before the lock executes |
| CoordinatorEffects.AdmissionLeaves | launcher/src/project-operation-coordinator.js:441-548 | an admission that goes on to execute leaves its own lock, its record running with the request's key and fingerprint, and one execution logged |
| CoordinatorEffects.CutTakesItsProcess | launcher/src/project-operation-coordinator.js:396-647 | a step cut short by a crash takes the process that performs it with all its calls, and no other |
| CoordinatorEffects.RequestGoesThrough | launcher/src/project-operation-coordinator.js:396-647 | from any state with an open lock, a plain request with an unused key can go through in three steps of its own: one start and one success logged, its record succeeded, the lock free |
| AreaApply.RecordOrigin | launcher/src/project-operation-coordinator.js:526-548 | every record after a step is an old one or was written by that step, new ones only from the step's own request and successes only by the success step |
| AreaApply.NewRecordsAreStarts | launcher/src/project-operation-store.js:252-282 | a record that appears, even in a step its process died in, has the request's type, key, fingerprint and metadata and is at one of the first three stages |
| AreaApply.SuccessIsLogged | launcher/src/project-operation-coordinator.js:594-622 | a success enters the run's log in the step that writes it, also when the process dies right behind that write |
| AreaApplySafety.LayerRunKeepsInv | launcher/src/property-area-range-apply.js:53-95 | every interleaving of coordinator steps and apply steps keeps the invariant of both layers |
| AreaApplySafety.PlanSucceedsOnce | launcher/src/property-area-range-apply.js:58-62 | over all keys, crashes and interleavings a plan succeeds at most once, and while one operation has succeeded none is being worked on |
| AreaApplySafety.SuccessLeftTheActivation | launcher/src/property-area-range-apply.js:44-51 | behind every success stands a write that found no activation and left exactly the one for that plan, snapshot and operation, with the property areas equal to the baseline |
| AreaApplySafety.ActivationStandsAtSuccess | launcher/src/property-area-range-apply.js:71-83 | when a success is recorded the site's option still is that activation |
| AreaApplySafety.ApplyNeverOverwrites | launcher/src/property-area-range-preview.js:183 | a write step of an apply never meets an existing activation |
| AreaApplyBaseline.WriteComesAfterItsRead | launcher/src/property-area-range-apply.js:68-80 | in every run a site write of a call comes after a read of that same call that saw no activation and exactly the plan's baseline areas |
| AreaApplyBaseline.LoggedWriteHadItsBaseline | launcher/src/property-area-range-apply.js:36-42 | so a call none of whose reads saw the baseline leaves no write at all |
| AreaApplyBaseline.ApplyGoesThrough | launcher/src/property-area-range-apply.js:71-83 | an apply that finds its baseline can get through in four moves: the site then has exactly its activation over the same areas, the record is succeeded and the lock free |
| AreaApplyBaseline.ApplyIsAdmitted | launcher/src/property-area-range-apply.js:53-67 | an apply whose plan has no record yet, with an unused key and an open lock, is let in and starts to execute |
| AreaApplyBaseline.DriftIsNoticedAfterTheWrite | launcher/src/property-area-range-apply.js:71-80 | an edit between the read and the write leaves the activation over areas nobody approved; the read-back notices it and the execution cannot be reported as done |
| AreaApplyRecords.SecondRecordExactly | launcher/src/property-area-range-apply.js:58-62 | a plan with a record gets another one exactly when the new key is unused and no live lock guards the project, that is when the old attempt's owner died unreconciled |
| AreaApplyRecords.ScanAllowsExactly | launcher/src/property-area-range-apply.js:58-62 | the scan lets a key through exactly when every earlier apply of this very plan is unfinished or succeeded with that key |
| AreaApplyRecords.PlanHasOneRecord | launcher/src/property-area-range-apply.js:58-62 | in every run without such an admission a plan has at most one record |
| AreaApplyExample.SecondRecordExample | launcher/src/property-area-range-apply.js:58-62 | a run from an empty project, through the death of the first attempt's owner, after which a plan has two records |
| KeyRotationSafety.RotateKeepsInv | launcher/src/agent-auth-lifecycle.js:191-325 | whatever fails, is lost or crashes, and wherever, one call keeps the local key active and every active key known |
| KeyRotationSafety.NeverLockedOut | launcher/src/agent-auth-lifecycle.js:135-147 | after any number of calls, failing or dying anywhere, from a project at rest: the local credential authenticates at the agent, and every key active there has its secret in the credential file or the rotation file |
| KeyRotationSafety.DoneFileHoldsNoSecret | launcher/src/agent-auth-lifecycle.js:275-288 | after any number of faulty calls a rotation file that says completed holds neither credential, names the local key as the new one, and an old one that the agent has revoked |
| KeyRotationSafety.RotationsKeepInv | launcher/src/agent-auth-lifecycle.js:191-325 | the same after any number of calls, each with its own faults |
| KeyRotationSafety.FaultFreeCallCompletes | launcher/src/agent-auth-lifecycle.js:191-325 | from any such state one call without faults completes: the local key is the minted one, or that of the rotation in progress, active at the agent and alone, the old one revoked, the file spent, with at most one revoke call |
| KeyRotationSafety.RecoveryCompletes | launcher/src/agent-auth-lifecycle.js:191-325 | so recovery works after any history of faulty calls |
| KeyRotationStages.StageFallsExactly | launcher/src/agent-auth-lifecycle.js:191-325 | for every start state and any two fault scripts, one call sets a stored stage back exactly when the first disk fault is an error of the proof write, or an effective error of a write that moves the stage on, the network lets the call through to it, and the handler's write takes effect |
| KeyRotationFalls.HonestFallsAtTheProof | launcher/src/agent-auth-lifecycle.js:299-324 | when a write reported as failed never took effect, that is exactly: the call gets as far as its proof, all writes before it are fine, the proof fails, and the handler's write takes effect |
| KeyRotationStages.StagesNeverFallExactly | launcher/src/agent-auth-lifecycle.js:206-325 | over any number of calls, each with its own faults, no stored stage ever goes back exactly when no call meets that condition |
| KeyRotationStages.RotationsGrow | launcher/src/agent-auth-lifecycle.js:236-262 | over any number of calls there are at most two revoke calls per call, and what is stored stays stored |
| KeyRotationStages.FailedProofExample | launcher/src/agent-auth-lifecycle.js:299-324 | a first rotation whose ninth write, the proof, fails sets the stage back |
| KeyRotationStages.UntruthfulDiskExample | launcher/src/agent-auth-lifecycle.js:318-324 | a write that takes effect but is reported as failed also sets the stage back |
| KeyRotationCalls.PromotesOnlyAnAcceptedKey | launcher/src/agent-auth-lifecycle.js:220-234 | in any world, a registered key is not promoted unless the agent answered a call signed by that very key |
| KeyRotationCalls.RegistersWithThePreviousKey | launcher/src/agent-auth-lifecycle.js:195-218 | in any world, without the acceptance of the previous key nothing is registered and nothing promoted |
| KeyRotationCalls.RevokesWithTheLocalKey | launcher/src/agent-auth-lifecycle.js:237-243 | in any world, the only thing an attempt can change at the agent is the old key's status, and only if the local credential is accepted |
| KeyRotationCalls.AttemptDecides | launcher/src/agent-auth-lifecycle.js:240-262 | when an attempt counts as done, is tried again, or ends in a death, over the two faults it meets and the agent's keys |
| KeyRotationCalls.FinishesOnlyWithAnAcceptedLocalKey | launcher/src/agent-auth-lifecycle.js:272-288 | a rotation is not completed unless the agent answered a call signed by the local credential |
| KeyRotationCalls.FailureIsKept | launcher/src/agent-auth-lifecycle.js:318-324 | a call that fails while the disk works leaves its own rotation in the file: recoverable, with both credentials, at no earlier stage |
| KeyRotationCalls.HandlerLeaves | launcher/src/agent-auth-lifecycle.js:318-324 | the handler leaves the state it was given as a recoverable failure, if its write takes effect, and nothing else |
| KeyRotationCalls.OnlyTheLastStateIsAFailure | launcher/src/agent-auth-lifecycle.js:206-270 | a call first stores the rotation as found or made, and of the states after it only the last may be a failure: a resumed rotation that moves on is at its stage again |
| KeyRotationCalls.RegistrationIs | wordpress-plugin/includes/security/signed-auth.php:355-416 | the agent adds one active key or nothing: for an accepted signer, another key, and never as a third active one; it keeps all keys, secrets and revocations |
| KeyRotationCalls.RevocationIs | wordpress-plugin/includes/security/signed-auth.php:418-460 | the agent revokes the named key and touches no other, exactly for an accepted signer and a known key |
| RotationHost.Launcher.RegisterNewKey | launcher/src/agent-auth-lifecycle.js:207-218 | stopping here, or going on from here, is what the specification does from this stage |
| RotationHost.Launcher.VerifyNewKey | launcher/src/agent-auth-lifecycle.js:220-226 | the same for the health call with the new key |
| RotationHost.Launcher.PromoteNewKey | launcher/src/agent-auth-lifecycle.js:228-234 | the same for the write of the local credential |
| RotationHost.Launcher.RevokeOldKey | launcher/src/agent-auth-lifecycle.js:240-262 | the two-attempt loop, with its look at the old key after an error, has the effect and verdict of the specification |
| RotationHost.Launcher.RetireOldKey | launcher/src/agent-auth-lifecycle.js:236-270 | the same for the revocation and the stage after it |
| RotationHost.Launcher.Complete | launcher/src/agent-auth-lifecycle.js:272-317 | the last health calls, the completed state and its proof end as the specification says |
| RotationHost.Launcher.Stop | launcher/src/agent-auth-lifecycle.js:318-324 | the failure handler stores the last assigned state as a recoverable failure, unless the process is dead |
| RotationHost.Launcher.RotateAgentAuth | launcher/src/agent-auth-lifecycle.js:191-325 | the imperative call ends in exactly the world, fault sequences and outcome the proved function gives |
| Slug.SlugifyIsValid | launcher/src/project-store.js:391-411 | every name yields no slug or a valid one |
| Slug.SlugifyKeepsSlugs | launcher/src/project-store.js:391-398 | a slug is its own slug, so a stored project is found again |
| Slug.SlugifyJoinsTheWords | launcher/src/project-store.js:391-398 | a slug is the runs of letters and digits of the lower-cased name, in order, joined by single hyphens |
| Slug.LowerIsByTheAlphabet | launcher/src/project-store.js:391-398 | lower case maps each capital to the letter at its place of the alphabet and keeps everything else |
| Strings.TrimIs | launcher/src/project-store.js:391-398 | trimming takes all white space off both ends and nothing else |
| ProjectStore.FirstFree | launcher/src/project-store.js:245-271 | allocation gives a pool subnet nobody has, and fails only when all are taken |
| ProjectStoreSafety.NextKeepsInv | launcher/src/project-store.js:284-362 | every step of every process keeps the store's invariant: failed and half-done writes, failed releases, failed cleanups and deaths at any point included |
| ProjectStoreSafety.OneOwner | launcher/src/project-store.js:284-362 | in every state of every run at most one process is past the lock, and the lock directory is its own |
| ProjectStoreSafety.ProjectsAlwaysStrict | launcher/src/project-store.js:818-899 | in every state of every run, locked or not, ids, ports and subnets of projects are pairwise distinct and each record is bound to its directory |
| ProjectStoreEffects.StrictExactly | launcher/src/project-store.js:818-899 | the inventory accepts exactly the stores of records valid for their directory, different two by two in id, port and subnet, whose staged leaves are each at one of the five stages |
| ProjectStoreEffects.ProjectsInPlainTerms | launcher/src/project-store.js:818-899 | in every state of every run a project has an id, its directory as slug, a port from 1024 to 65535 and a pool subnet or none, and shares id, port or subnet with no other |
| ProjectStoreEffects.LeafAcceptedExactly | launcher/src/project-store.js:175-228 | a staged leaf is accepted exactly at the five stages of the scaffold |
| ProjectStoreEffects.CheckDecides | launcher/src/project-store.js:935-957 | in any run a create goes on to its staging area exactly when the store is sound, its port and directory are unused and a subnet is left, a save is done exactly when it keeps identity and subnet on a valid unused port, and anything else leaves the files alone |
| ProjectStoreEffects.CreatedAsAsked | launcher/src/project-store.js:966-994 | in any run a project that appears has the id, slug, port and content its process arrived with, the first pool subnet no project has, and all four files, and changes no other project |
| ProjectStoreEffects.SavedAsAsked | launcher/src/project-store.js:1082-1139 | in any run a project that changes becomes the very record its process arrived with, with the old identity and subnet and a valid port of its own, and nothing else changes |
| ProjectStoreEffects.ProjectsStay | launcher/src/project-store.js:1082-1139 | in any run a project never goes away and never changes its id or subnet |
| ProjectStoreEffects.CreateGoesThrough | launcher/src/project-store.js:911-1007 | from any free and sound store a create that fits can go through by its own steps alone, to the store with just its project added and the lock free |
| ProjectStoreEffects.SaveGoesThrough | launcher/src/project-store.js:1082-1139 | the same for a save that fits |
| ProjectStoreSafety.StrictLostExactly | launcher/src/project-store.js:175-228 | a step turns an accepted inventory into a refused one exactly when a failed cleanup, or a death inside a staged write or the cleanup, leaves files that are not whole or out of order |
| ProjectStoreSafety.AlwaysStrictExactly | launcher/src/project-store.js:818-899 | in every state of every run, locked or not, the strict inventory accepts exactly when no step so far left such files |
| ProjectStoreSafety.UnlockedStrictExactly | launcher/src/project-store.js:818-899 | whenever the store is unlocked it accepts exactly when no failed cleanup so far left such files |
| ProjectStoreSafety.ReleaseFindsItsToken | launcher/src/project-store.js:323-340 | a release always finds its own token, so only the disk can make it fail; its first step leaves an empty lock directory |
| ProjectStoreSafety.SpoiledLeafIsForever | launcher/src/project-store.js:175-228 | once a refused leaf is left, no project is ever created or changed |
| ProjectStoreSafety.ScrapsSpoil | launcher/src/project-store.js:995-1006 | a cleanup cut short on such files gets the store there |
| ProjectStoreExample.ScrapsExample | launcher/src/project-store.js:995-1006 | a run in which a create fails after two files and its cleanup removes only the first: the store is unlocked and refuses |
| ProjectStoreSafety.OrphanedExactly | launcher/src/project-store.js:284-362 | a step leaves a lock that no process will release exactly when, past the lock, its process dies, its release fails, or it can neither sign nor remove the lock |
| ProjectStoreSafety.OrphanedLockIsForever | launcher/src/project-store.js:284-321 | such a lock is never taken over, and nothing changes any more |
| ProjectInventory.ProjectsRoot.ReadStrictProjectInventory | launcher/src/project-store.js:818-899 | the loops accept exactly the strict store and then list every record in directory order |
| ProjectInventory.ProjectsRoot.AllApart | launcher/src/project-store.js:863-892 | the search with growing sets finds a duplicate exactly when two records clash in id, port or subnet |
| ProjectInventory.ProjectsRoot.AllocateProjectNetwork | launcher/src/project-store.js:245-271 | the first pool subnet no record holds; exhausted only when all are held; invalid exactly when two records share one or one is outside the pool |
| ProjectInventory.AllocationIsFirstFree | launcher/src/project-store.js:245-271 | over a strict store the loop's answer is the one the system model uses |
| ProjectInventory.ProjectsRoot.PrepareProject | launcher/src/project-store.js:935-957 | the checks of a create pass exactly when the system model prepares a record, and give that record; otherwise the first failing check is the outcome |
| ProjectInventory.ProjectsRoot.StageFiles | launcher/src/project-store.js:978-987 | after a failure between two files exactly the files before it, in the fixed order, are in the staged leaf |
| ProjectInventory.ProjectsRoot.StageProject | launcher/src/project-store.js:966-1006 | staging ends in the published project, in nothing, or in what a failed cleanup leaves |
| ProjectInventory.ProjectsRoot.CreateProjectScaffold | launcher/src/project-store.js:911-1007 | a create publishes its project whole or leaves the projects alone, with the outcome decided by the first failing check |
| ProjectInventory.ProjectsRoot.SaveProjectRecord | launcher/src/project-store.js:1082-1139 | the checks of a save pass exactly when identity and subnet are unchanged, the port valid and nobody else's; then the record is replaced, unless its manifest cannot be written, and otherwise nothing changes |
| ProjectInventory.CreateMethodRunsTheProtocol | launcher/src/project-store.js:911-1007 | what the create method leaves on disk is what its sequence of protocol steps leaves |
| NetworkPool.PoolHasTheShape | launcher/src/templates.js:5-20 | every pool subnet is a /24 inside 10.0.0.0/8 |
| NetworkPool.ProjectNetworksDisjoint | launcher/src/project-store.js:245-271 | in every state of every run no address lies in the networks of two projects |
| EnvFile.ParseEnvContent | launcher/src/project-store.js:585-605 | the loop over lines computes the specified map |
| EnvFile.LastLineWins | launcher/src/project-store.js:585-605 | a key has the value of the last line that sets it, and no other key is there |
| EnvFileText.SettingExactly | launcher/src/project-store.js:590-602 | a line sets a key exactly when, trimmed, it is no comment and has an equals sign: the trimmed text before the first one is the key, the trimmed text behind it the value |
| EnvFileText.LinesArePieces | launcher/src/project-store.js:585-592 | the lines are the pieces between line feeds, less a carriage return at the end of all but the last |
| EnvFile.PrintLines | launcher/src/project-store.js:622-629 | the loop prints the header and one line for each listed key that is set |
| EnvFile.SerializeEnvFile | launcher/src/project-store.js:607-632 | the loop over keys prints the specified file |
| EnvFile.PrintingForgetsObjectOrder | launcher/src/project-store.js:607-632 | the file depends on the settings alone, not on the object's key order |
| EnvFile.FixedKeysThenSorted | launcher/src/project-store.js:608-623 | the fixed keys come first in their order, the rest ascending, each key exactly once |
| EnvFileText.PrintedText | launcher/src/project-store.js:607-632 | the file is the header line and then, key by key, the key, an equals sign, its value and a line feed |
| EnvFileText.FixedInOrder | launcher/src/project-store.js:608-623 | two fixed keys are printed in their fixed order, and before any other key |
| EnvFile.RoundTrip | launcher/src/project-store.js:585-632 | for trimmed keys without '=', line feed or leading '#', and trimmed values without line feed, parsing the printed file gives back the same map |
| TextOrder.TextOrderIsTotal | launcher/src/project-store.js:620 | code-unit order is a total order on texts, so a sort has one result |
| TextOrder.FirstDifferenceDecides | launcher/src/project-store.js:620 | the order of two texts is that of the first UTF-16 code units in which they differ, a prefix first |
| Sorting.SortIsStable | launcher/src/recovery-storage-governance.js:533-536 | a sort keeps the order of elements that compare alike |
| Utf8.RoundTrip | launcher/src/package-validator.js:92 | reading back UTF-8 gives the text that was written |
| Utf8Laws.FirstReadsExactly | launcher/src/package-validator.js:92 | bytes that start with a whole character are read as it; otherwise one U+FFFD stands for one byte or for as many as begin a character, and never for more |
| Zip.FindEndOfCentralDirectory | launcher/src/package-validator.js:22-30 | finds the last end signature in the searched window, and nothing only when there is none |
| Zip.NameRoundTrip | launcher/src/package-validator.js:32-45 | a safe name written as UTF-8 reads back with forward slashes |
| Zip.ReadEntries | launcher/src/package-validator.js:74-123 | the loop over entries, with its running total, computes the specified result and the first error |
| Zip.ParseCentralDirectory | launcher/src/package-validator.js:57-129 | the whole parse computes the specified directory or error |
| Zip.AcceptedIsBounded | launcher/src/package-validator.js:57-129 | for any accepted buffer: one entry per count, at most 25000, every entry safe, supported and within its limit, the total the sum of the sizes and at most 512 MiB |
| Zip.AcceptedNameStaysInside | launcher/src/package-validator.js:32-45 | an accepted name is never absolute and, walked from any folder, never leaves it |
| ZipLaws.DirectoryTakenExactly | launcher/src/package-validator.js:57-129 | a buffer is read as a directory exactly when its last end record announces that many entries inside the buffer, the headers there say them one after another, byte by byte, and the total is the sum of their sizes |
| ZipLaws.DirectoryRefusal | launcher/src/package-validator.js:57-129 | a refusal names what is wrong: no end record, too many entries, a directory outside the buffer, or the first bad header behind good ones that lead to it |
| ZipLaws.EntryTakenExactly | launcher/src/package-validator.js:74-120 | a header is read as exactly the entry its bytes say, or refused for the first thing wrong with them |
| ZipLaws.NameTakenExactly | launcher/src/package-validator.js:32-45 | a raw name is taken exactly when, with backslashes turned, it is not empty, has no NUL, starts with neither slash nor drive, and no part of it is two dots |
| ZipLaws.EndFoundExactly | launcher/src/package-validator.js:22-30 | the end record is the last signature in the last 65557 bytes with room for a record |
| ZipLaws.MemberReadExactly | launcher/src/package-validator.js:131-154 | a member's bytes are those behind its local header, name and extra field, stored or inflated, and every failure is named |
| ZipArchive.DirectoryRoundTrip | launcher/src/package-validator.js:57-129 | an archive laid out by sections 4.3.7, 4.3.12 and 4.3.16 of APPNOTE, with any skipped fields, extras and comments, parses to exactly its members in order |
| ZipArchive.ListedEntry | launcher/src/package-validator.js:108-120 | the listing has one entry per member, each at its own offset |
| ZipArchive.MemberRoundTrip | launcher/src/package-validator.js:131-154 | every member of such an archive reads back: stored bytes as they are, deflated bytes through the inflater |
| JsonReader.PrintInjective | launcher/src/project-operation-coordinator.js:46-58 | plain printing of two different JSON values never coincides |
| JsonReader.PrintRoundTrip | launcher/src/project-operation-coordinator.js:46-58 | a reader of RFC 8259 texts gives back the printed value |
| JsonReader.EscapesAreShort | launcher/src/project-operation-coordinator.js:46-58 | printed characters are escaped exactly where RFC 8259 demands it, in the short form where there is one |
| StableJson.StablePrintsCanon | launcher/src/project-operation-coordinator.js:46-58 | the stable printer prints the value whose objects are put in key order |
| StableJsonLaws.StableIsCanonicalAndInjective | launcher/src/project-operation-coordinator.js:46-58 | two values print the same exactly when they are equal up to object key order |
| StableJsonLaws.StableIsPlainExactly | launcher/src/property-area-range-restore.js:25-26 | stable and plain printing agree exactly on the values whose keys are already in order |
| StableJsonLaws.FingerprintsAgreeExactly | launcher/src/project-operation-coordinator.js:392-408 | two requests have one fingerprint text exactly when project, operation type and input up to key order agree |
| StableJsonLaws.RestoreDigestsThePreviewText | launcher/src/property-area-range-restore.js:128 | for areas in normal form the restore's digest is over the very text the preview hashed |
| SignedQuery.ComponentRoundTrip | launcher/src/agent-signed-auth.js:134-136 | every text decodes to itself after percent-encoding all but the unreserved characters |
| SignedQuery.CharIsWritten | launcher/src/agent-signed-auth.js:134-136 | an unreserved character is written as itself and any other as its UTF-8 bytes, each a percent sign and two upper-case hexadecimal digits |
| SignedQuery.PercentIsRead | launcher/src/agent-signed-auth.js:138-152 | a percent sign and two hexadecimal digits of either case are read as that byte |
| SignedQuery.DecodesToSortedPairs | launcher/src/agent-signed-auth.js:138-152 | decoding the canonical query gives back exactly the sorted pairs |
| SignedQuery.DependsOnThePairsAlone | launcher/src/agent-signed-auth.js:138-152 | two queries have one canonical form exactly when they carry the same multiset of decoded pairs |
| SignedQuery.Idempotent | launcher/src/agent-signed-auth.js:138-152 | canonicalizing twice is canonicalizing once |
| SignedQuery.CanonicalQueryIsOneLine | launcher/src/agent-signed-auth.js:138-152 | the canonical query never contains a line break |
| SignedQuery.CanonicalStringInjective | launcher/src/agent-signed-auth.js:171-183 | with newline-free fields two requests sign one text exactly when they agree in every field and in the multiset of query pairs |
| SignedQuery.SignedLineByLine | launcher/src/agent-signed-auth.js:171-183 | split at line breaks the signed text is nine lines: version, key id, project slug, timestamp, request id, verb, path, a query that decodes to the sorted pairs, and body hash |
| ReplayStore.MemoryReplayStore.Cleanup | launcher/src/agent-signed-auth.js:307-314 | deletes exactly the claims whose expiry has come |
| ReplayStore.MemoryReplayStore.Claim | launcher/src/agent-signed-auth.js:316-325 | claims exactly when no live claim has the key, and then replaces it |
| ReplayStore.MemoryReplayStore.VerifySignedRequest | launcher/src/agent-signed-auth.js:357-407 | freshness, authenticity and claim together decide as specified and leave the specified claims |
| ReplayStore.AcceptedOnceBeforeTheEnd | launcher/src/agent-signed-auth.js:357-407 | with a clock that never goes back, a request accepted before is accepted again only at timestamp + freshness: never earlier, never later |
| ReplayStore.AcceptedAgainExactlyAtTheEnd | launcher/src/agent-signed-auth.js:302-326 | at that instant an authentic repeat is accepted, and at no other, when no other request took its claim key |
| ReplayStore.AcceptedTwiceExample | launcher/src/agent-signed-auth.js:302-326 | a run in which one request is accepted, refused while its claim stands, and accepted again at the end of its freshness |
| ReplayStore.AcceptedOnlyWhileFresh | launcher/src/agent-signed-auth.js:362-367 | nothing is accepted after timestamp + freshness or earlier than the skew before its timestamp |
| ReplayStore.FirstUseAccepted | launcher/src/agent-signed-auth.js:316-325 | a first use is accepted exactly when it is authentic and fresh |
| ReplayStore.ClaimTells | launcher/src/agent-signed-auth.js:316-325 | two requests share a claim key only when both key id and request id agree |
| Cidr.ContainsIsRange | launcher/src/provision.js:42-48 | the leading-bits meaning of section 3.1 of RFC 4632 is the range from first to last address |
| Cidr.OverlapExactly | launcher/src/provision.js:51-55 | overlap is reported exactly when some address lies in both blocks |
| Cidr.OverlappingAreNested | launcher/src/provision.js:51-55 | overlapping blocks are nested, the longer prefix inside |
| Cidr.AssertNoCollision | launcher/src/provision.js:185-190 | it passes exactly when every observed network is readable and shares no address with the project's; otherwise the first one that is unreadable or shares an address decides which error it is |
| CidrText.TextParsesExactly | launcher/src/provision.js:32-49 | four octets and a prefix length are accepted exactly when no octet exceeds 255 and no bit is set below the prefix, as the block whose first address the octets spell |
| CidrText.OnlyTextsParse | launcher/src/provision.js:32-49 | nothing but four octets of one to three digits and a length from 0 to 32 without leading zero is accepted |
| Cidr.PoolParses | launcher/src/provision.js:32-49 | a pool subnet is accepted, with the block its octets say |
| Decimals.CompareIsNumericOrder | launcher/src/property-area-range-evidence.js:18-19 | comparing padded texts of the grammar is comparing their values, equal exactly when the values are |
| Decimals.DecimalExactly | launcher/src/property-area-range-preview.js:32 | a text is of the grammar exactly when it is at most ten digits without a superfluous zero in front, alone or with a point and one or two digits |
| AreaEvidence.NormalizePropertyAreas | launcher/src/property-area-range-preview.js:201-217 | the loop with its seen set rejects exactly the malformed or repeated entries and otherwise gives the normal form |
| AreaEvidence.NormalizedIsNormal | launcher/src/property-area-range-preview.js:201-217 | the normal form ascends by post, has each post once, and holds the same areas |
| AreaEvidence.NormalStays | launcher/src/property-area-range-evidence.js:21-26 | a normal list is its own normal form |
| AreaEvidenceLaws.NormalizesExactly | launcher/src/property-area-range-preview.js:201-217 | a list is accepted exactly when every post is a positive safe integer and comes once, with no value or one text of the grammar |
| AreaEvidenceLaws.RangeIdsAreTheValuesInBounds | launcher/src/property-area-range-evidence.js:40-42 | the expected ids are exactly the posts whose value lies in the bounds, ascending |
| AreaEvidenceLaws.BoundsAreTheSmallestValue | launcher/src/property-area-range-evidence.js:34-38 | bounds exist exactly when two values differ, are the smallest value, and leave some property outside |
| AreaEvidenceLaws.BuiltExactly | launcher/src/property-area-range-evidence.js:52-62 | evidence is built exactly when two values differ and the two queries gave, in any order, all the posts and the posts in range |
| AreaEvidenceLaws.EvidenceSays | launcher/src/property-area-range-evidence.js:63-72 | built evidence names its project, plan, recovery point and apply, holds the areas and their hash, the smallest value twice as bounds, and both lists of posts ascending with their lengths |
| AreaEvidenceLaws.BuiltIsAcceptedExactly | launcher/src/property-area-range-evidence.js:52-92 | built evidence is accepted exactly when its areas hash to the plan's baseline |
| AreaEvidenceLaws.AcceptedIsBuilt | launcher/src/property-area-range-evidence.js:74-92 | accepted evidence is what building over its own areas and results gives |
| RateLimiter.Limiter.EnforceRateLimit | launcher/src/http-security.js:297-327 | counts in the key's own window, rejects exactly from one past the maximum on, and the seconds to wait end at the window's end |
| RateLimiter.KeysApart | launcher/src/http-security.js:292-295 | groups without a colon never share a key |
| RateLimiter.AdmittedExactly | launcher/src/http-security.js:297-327 | after a request that opened a window, a later one of the key is admitted exactly when that window has ended or fewer than the maximum of the key's requests came before it in the window |
| RateLimiter.FirstIsAdmitted | launcher/src/http-security.js:304-312 | the first request of a key is admitted, and so is every one of a key without a limit |
| RateLimiter.WindowAdmitsAtMostMax | launcher/src/http-security.js:304-315 | one window admits at most the maximum |
| RateLimiter.IntervalAdmitsAtMostTwiceMax | launcher/src/http-security.js:297-327 | any half-open interval of one window length admits at most twice the maximum |
| RateLimiter.AdmittedAfterAPause | launcher/src/http-security.js:305-312 | a request one window length after the key's earlier ones is always admitted, however many of them were rejected |
| RateLimiter.KeysIndependent | launcher/src/http-security.js:297-327 | requests of other keys leave a key's window alone |
| RecoveryBytes.Accounting.AccountDirectoryBytes | launcher/src/recovery-storage-governance.js:219-247 | a tree adds exactly the sizes of its files not seen before, each once; every link in it is counted as rejected and none is followed |
| RecoveryBytes.Accounting.AccountAll | launcher/src/recovery-storage-governance.js:738-770 | the trees of an evaluation are accounted one after the other over one set of seen files |
| RecoveryBytes.UsageIsDistinctBytes | launcher/src/recovery-storage-governance.js:769-770 | the sum over the trees is the sum of the sizes of the distinct files |
| RecoveryBytes.UsageForgetsTheOrder | launcher/src/recovery-storage-governance.js:219-247 | the usage does not depend on the order the trees are visited in |
| RecoveryBytes.SameFile | launcher/src/recovery-storage-governance.js:219-247 | two names are one file exactly when device and inode agree, or, without an inode, device and path |
| RecoveryGovernance.HasRecentFailedOperation | launcher/src/recovery-storage-governance.js:520-531 | the search finds a failure of the snapshot's own operation that is recent and near the snapshot in time |
| RecoveryGovernance.ProtectLatest | launcher/src/recovery-storage-governance.js:534-539 | adds the protection of the newest usable snapshot to that snapshot only |
| RecoveryGovernance.ClassifySnapshot | launcher/src/recovery-storage-governance.js:540-593 | one snapshot's branches give the specified class and reasons, and the explicit protection |
| RecoveryGovernance.ClassifyEach | launcher/src/recovery-storage-governance.js:540-595 | the loop classifies every snapshot and disturbs no other |
| RecoveryGovernance.ClassifyProjectSnapshots | launcher/src/recovery-storage-governance.js:533-595 | the newest usable snapshot gets its protection and every snapshot its class and reasons, as specified |
| RecoveryGovernanceLaws.CandidatesAreUnprotected | launcher/src/recovery-storage-governance.js:546-553 | a candidate has no protection of any kind, is not doubtful and is not the newest usable snapshot |
| RecoveryGovernanceLaws.LeftoverCandidates | launcher/src/recovery-storage-governance.js:567-590 | an incomplete or corrupt snapshot is a candidate exactly when nothing protects it, nothing about it is doubtful, it is at least the grace period old and, if incomplete, no recent failure of its own operation lies near it |
| RecoveryGovernanceLaws.BlockedLeftovers | launcher/src/recovery-storage-governance.js:567-590 | and blocked exactly when it would be one but for its age or such a failure |
| RecoveryGovernanceLaws.RestorableClasses | launcher/src/recovery-storage-governance.js:554-566 | an unprotected verified and restorable snapshot is eligible by age, eligible by count or retained, each exactly under its inequality on age and on the number of newer ones |
| RecoveryGovernanceLaws.ReviewAndProtected | launcher/src/recovery-storage-governance.js:540-553 | what is left for review and what is protected, exactly |
| RecoveryGovernanceLaws.ReasonsSayWhy | launcher/src/recovery-storage-governance.js:540-593 | the reasons given with a class are those of its branch |
| RecoveryGovernanceLaws.LatestIsTheFirstNewest | launcher/src/recovery-storage-governance.js:533-539 | the snapshot protected as the latest is the first listed of the newest usable ones |
| RecoveryGovernanceLaws.ProtectionShows | launcher/src/recovery-storage-governance.js:546-553 | whatever has a protection reason is classified protected, unless it is left for review |
| RecoveryGovernanceLaws.NewestIsNeverACandidate | launcher/src/recovery-storage-governance.js:533-539 | the newest verified restorable snapshot is never a candidate |
| RecoveryGovernanceLaws.RestorableSurvives | launcher/src/recovery-storage-governance.js:826-844 | deleting every candidate leaves a project that could be restored restorable, from a snapshot as new as any |
| RecoveryGovernanceLaws.EligibleByCountHasNewer | launcher/src/recovery-storage-governance.js:554-561 | a snapshot eligible by count leaves the policy's maximum of other usable snapshots that are no older |
| RecoveryGovernanceLaws.RetainedWithinPolicy | launcher/src/recovery-storage-governance.js:554-566 | retained snapshots stay below the policy's maximum |
| RecoveryGovernanceLaws.ReportedUsage | launcher/src/recovery-storage-governance.js:769-803 | whatever the classes, the six reported parts, filled from one accounting of the snapshots' trees, add up to the bytes of the distinct files under them |
| RecoveryGovernanceLaws.PressureIsMonotone | launcher/src/recovery-storage-governance.js:624-667 | more usage or less free space never lowers the pressure, and a capture that is not blocked fits quota and reserve |
| RecoveryGovernanceLaws.PressureInNumbers | launcher/src/recovery-storage-governance.js:624-667 | each pressure status as inequalities between usage, typical snapshot, free space and the policy's numbers |
| AclText.ParseWindowsAclSddl | launcher/src/agent-credential-store.js:128-175 | the cursor loop over a descriptor computes the specified principals or refuses |
| AclText.AcceptsExactly | launcher/src/agent-credential-store.js:128-175 | accepted are exactly the prefix and one or more full-control allow entries with the expected flags, and the result is their principals in order |
| AclText.VerifiedMeansExactlyThree | launcher/src/agent-credential-store.js:206-225 | a verified list names the user, the system and the administrators, each once, and nobody else |
| AclText.ThreeAreVerified | launcher/src/agent-credential-store.js:206-225 | every list of three entries that names the user, the system and the administrators is verified |
| AclText.OneEntry | launcher/src/agent-credential-store.js:128-175 | the spelled-out descriptor with one full-control entry gives that entry's principal |

## Left out

- Docker, WP-CLI, HTTP handling, spawned tools, PHP, signing tools and packaging: I/O around code that is not part of this model.
- The split of one lock acquisition over several processes: an acquisition is one step of one process, because the quarantine renames whatever lock it finds.
- The combination of deferred idempotency with resume statuses in whole runs: its effect on one step is stated exactly, the run theorems leave it out.
- OperationStore.ProjectDirectory.SetStage: the other fields a stage patch can set are left out, with operation timestamps, proof references and result summaries: no rule of the coordinator reads them.
- CoordinatorRuns.BareLockIsForever: a failing write of the lock metadata, which leaves a bare lock while its process lives, is no step of the runs, nor is a failing record write during an admission; the result itself holds for every bare lock.
- AreaApplySafety.ApplyNeverOverwrites: a site write that a child process finishes after its launcher has died is no move, so the result is about the launcher's own writes.
- Decimals.CompareIsNumericOrder: `localeCompare` is taken to be comparison by code unit, which it is on the digits it is given.
- A legacy record named by a stale lock: legacy records are never written, in the model as in the code's marking step.
- Crash points inside one atomic write, and partly written files outside the staging area: write then rename is one step.
- `revokeAgentAuth` and the permission hardening of the credential files: operating-system behaviour; a hardening failure is a failed write that took effect.
- AclText.AcceptsExactly: the two-line record around the descriptor is not modelled, and how a principal's token is read is a parameter.
- AclText.ParseWindowsAclSddl: the same.
- RotationHost.Launcher.RotateAgentAuth: does not cover a rotation file that belongs to another project or whose new credential is missing, beyond refusing it.
- Path canonicalisation, real paths, reparse points and the contents of staged files: a staged file is absent, whole, or a scrap that stands for any temporary or half-written one.
- Slug.SlugifyIsValid: lower-casing is that of ASCII letters.
- EnvFile.RoundTrip: the key `__proto__`, which a host-language object does not store as a setting.
- Texts with lone surrogates: a text is a sequence of Unicode scalar values.
- NaN and infinite numbers, and undefined values, in printed JSON: a number is its canonical text.
- Zip.AcceptedIsBounded: ZIP64 records, checksums and the content of compressed data are not looked at, as in the code.
- SignedQuery.CanonicalStringInjective: the normalisation of method and path before signing is left out; the canonical fields are given.
- ReplayStore.MemoryReplayStore.VerifySignedRequest: the rest of the verification (headers, credential, body hash, signature, capability) is one flag of the request.
- The text formats of Docker and route listings: observed networks are given as a list of texts.
- AreaEvidenceLaws.BuiltIsAcceptedExactly: the evidence file's own JSON text is not modelled; the evidence value is.
- Sanitised reasons, browser summaries, counts by field and the discovery of snapshots and dependencies in recovery storage: text output and reads around the classification.
- `viewing-date-*`, `structural-*`, `state.js` and the restore executor: not part of this model.
