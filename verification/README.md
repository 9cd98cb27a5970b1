# Hammerspace CSI driver: verified model

This project models the state machines of the Hammerspace CSI driver and its
operator in Dafny, and proves what they promise for every input, every run and
every interleaving.

- Protocols with several threads are step systems. An `Action` carries the
  answer the outside world gives, `Enabled` and `Apply` say what it does, and
  every theorem is about every state that some sequence of actions reaches.
- Sequential code that changes state is a class or a method with loops, proved
  against a specification. Failures of the kernel, of tools and of the network
  are arguments, so each contract covers every pattern of failures.
- The Kubernetes API is a function that answers the i-th call of a pass:
  anybody may change the cluster between two calls.

| file | what it models |
|---|---|
| `ForeignMount.dfy` | which NFS server a backing mount comes from |
| `BackingRefs.dfy` | reference counts and the table of mount locks |
| `BackingMount.dfy`, `BackingMountProofs.dfy`, `BackingMountTheorems.dfy` | the shared backing mount: steps, invariant, theorems |
| `BackingMountOutcomes.dfy` | what each goroutine does next and how its operations end |
| `BackingMountRace.dfy` | a run in which the unlocked unmount takes a mount from its holder |
| `SingleFlight.dfy` | one running mount, or path probe, per target |
| `Unmounting.dfy` | how an unmount can end |
| `SizeChain.dfy` | backing file, loop device, filesystem |
| `SharePublish.dfy`, `FilePublish.dfy` | publishing with rollback, and kubelet's retries |
| `Reconcile.dfy`, `ReconcilePass.dfy`, `Status.dfy` | the operator's passes and its status conditions |
| `Freezer.dfy`, `Snapshot.dfy` | concurrent snapshots with freeze and thaw |
| `TaskPoll.dfy` | waiting for Anvil tasks; share create and delete |
| `MountSearch.dfy` | the search over portals and NFS versions |
| `LegacyExport.dfy` | unstaging volumes of older driver versions |
| `TtlCache.dfy` | the TTL cache and the export lookup through it |
| `VolumeIds.dfy` | volume and snapshot IDs |

## Results that go against the code's comments

Each of these is a lemma or method with a concrete run or input, beside a
theorem that says when the property does hold.

- `BackingMountRace.DirectUnmountRace`: `UnmountBackingShareIfUnused` called
  without the mount lock can take the mount from an operation that acquired it
  in between. A holder lacks its mount exactly when the directory is lost
  (`HolderIsMounted`), it is lost in exactly three ways (`WaysToLose`), and
  `HolderUnmountedExactly` says the same on the run.
- `ForeignMount.UnresolvedFqdnLosesMount`: a failed lookup of the StorageClass
  FQDN does not keep the mount, although a failure to ask should; a mount from
  the FQDN's own address is then replaced. `FqdnLookupDecides` says exactly when
  the failure changes the verdict, either way, and `UnansweredKeeps` that no
  other lookup has this fault.
- `Reconcile.RereadAdopts`: the re-read in `upgradeManagedFields` does not look
  at the owner, so a forced patch can go to somebody else's object although a
  comment says only owned resources are patched. `AdoptsExactly` says
  for which answers of the cluster that happens.
- `FilePublish.UndersizedAfterFailedRollback`: an unmount that could not check
  the mount reports success and leaves it, and the next publish succeeds on an
  undersized filesystem. `FirstSuccess` says exactly when that happens.
- `LegacyExport.RetryLeavesExport`: after a failed unmount of the root export
  the retry finds no marker and reports success with the export mounted.
  `MountedUntilDetached` and `WhenTheExportStays` say when the export stays.
- `SizeChain.GrowthTestOverflows`: the growth test multiplies without the
  overflow guard that `parseFilesystemSize` has. `GrowthTestIsRight` says for
  which sizes it is right nevertheless, and for which it is not.
- `VolumeIds.DeleteAfterShareRemoved`: a share removed between CreateSnapshot
  and DeleteSnapshot sends the delete to a file snapshot of that name;
  `BackendsAgree` says exactly when create, delete and list agree.
- `VolumeIds.DotIsMisclassified`: an ID inside a share named "." is taken for a
  share ID. `IdsClassify` says that this happens for exactly "", "." and "..".

## Model

| member | source | states |
|---|---|---|
| `ForeignMount.ServerIn` | pkg/driver/utils.go:437-456 | true exactly when the server's own address, or any of all those its name stands for, is listed, or its name does not resolve |
| `ForeignMount.ForeignServer` | pkg/driver/utils.go:409-434 | names a server exactly when mount table, Anvil and server lookup answered, there are addresses to compare with, and no address the server stands for is listed by the Anvil or one of a resolved FQDN's; an FQDN that does not resolve only leaves its addresses out |
| `ForeignMount.UnansweredKeeps` | pkg/driver/utils.go:409-434 | every lookup that does not answer keeps the mount, except the FQDN's; with all answered the verdict is foreign exactly when the server is on neither list |
| `ForeignMount.FqdnLookupDecides` | pkg/driver/utils.go:419-425 | for any addresses the FQDN would have given, exactly when its failed lookup turns the verdict to foreign, and exactly when it turns it to kept |
| `ForeignMount.UnresolvedFqdnLosesMount` | pkg/driver/utils.go:419-425 | a mount from the FQDN's own address that is judged foreign because the FQDN did not resolve |
| `BackingRefs.RollbackRestoresCount` | pkg/driver/utils.go:545-562 | a failed first acquire leaves the reference map entry for entry as it was |
| `BackingRefs.BackingMounts.BumpBackingRef` | pkg/driver/utils.go:599-605 | adds one to that directory only, and tells the first reference |
| `BackingRefs.BackingMounts.DropBackingRef` | pkg/driver/utils.go:612-623 | takes one off without underflow, removes an entry that reaches zero, and tells the last reference |
| `BackingRefs.BackingMounts.MountLockFor` | pkg/driver/utils.go:515-524 | all callers of one directory get the same lock and no lock is ever replaced |
| `BackingMount.ClassifyMount` | pkg/driver/utils.go:289-304 | stale exactly when all probes in a row went unanswered; otherwise the first answer decides |
| `BackingMountProofs.RunInv` | pkg/driver/utils.go:314-387 | the invariant (locks, slots, counts, sole users, mounts, evidence) survives every run over any number of goroutines and directories |
| `BackingMountTheorems.ReferenceConservation` | pkg/driver/utils.go:545-640 | in every reachable state a count is the number of holders plus at most one first acquire in progress, and an entry exists exactly when that is positive |
| `BackingMountTheorems.HolderIsMounted` | pkg/driver/utils.go:545-594 | a reference holder has its share mounted, exactly unless the directory was lost in one of the named ways |
| `BackingMountTheorems.FreeLockIsMounted` | pkg/driver/utils.go:289-387 | with the mount lock free and a positive count the share is mounted, exactly unless lost |
| `BackingMountTheorems.WaysToLose` | pkg/driver/utils.go:314-387 | a directory becomes lost exactly by a force-clear without a reference or a direct unmount while it is in use, or by an acquire of an unmounted share the Anvil does not know |
| `BackingMountTheorems.HolderAlwaysMounted` | pkg/driver/utils.go:545-680 | from any point of any run where the directory is mounted or unused, while none of those three befalls it, every reference holder has its mount |
| `BackingMountTheorems.HolderUnmountedExactly` | pkg/driver/utils.go:545-680 | in every run, a reference holder is without its mount if and only if one of those three befell its directory and it has not been mounted since |
| `BackingMountTheorems.TakenFromOthers` | pkg/driver/utils.go:314-387 | in every run, a mount that somebody else holds a reference on goes away only by a force-clear or a direct unmount |
| `BackingMountTheorems.ForceClearFollowsStaleProbes` | pkg/driver/utils.go:266-304 | a force-clear comes straight after two unanswered probes in a row by the same goroutine |
| `BackingMountTheorems.ReplacementIsJustified` | pkg/driver/utils.go:314-387 | a healthy mount is replaced only if mount table, Anvil and server lookup answered, no address the server stands for is listed by the Anvil or one of a resolved FQDN's, its loop list was empty, and nobody but the caller holds a reference at that moment |
| `BackingMountTheorems.OwnReferenceDoesNotBlock` | pkg/driver/utils.go:314-387 | a first acquire's own reference never refuses its own replacement |
| `BackingMountTheorems.RecheckAgrees` | pkg/driver/utils.go:568-594 | the release that dropped the last reference finds it still the last when it checks again |
| `BackingMountTheorems.NoWaitCycle` | pkg/driver/driver.go:186-197 | no reachable state has a cycle of waits among mount locks, mount slots and `mountRefsMu` |
| `BackingMountTheorems.NoDeadlock` | pkg/driver/utils.go:515-640 | from every goroutine in the middle of an operation the waits lead to one in the middle of an operation that can move without any timeout; idle reference holders do not count |
| `BackingMountOutcomes.GoesByTheBook` | pkg/driver/utils.go:289-387 | in every interleaving each goroutine's next step is the one the protocol names for the answer it got and the counts it saw, from taking the lock to giving it up |
| `BackingMountOutcomes.ProbesByTheBook` | pkg/driver/utils.go:289-304 | after a first unanswered probe comes another, after the second the mount is force-cleared |
| `BackingMountOutcomes.AcquireEnds` | pkg/driver/utils.go:545-562 | an acquire goes on to hold its reference exactly after a step that found the mount in use, not foreign, of an unknown share, or mounted it; it hands its reservation back exactly after a failure or refusal |
| `BackingMountOutcomes.MountMounts` | pkg/driver/utils.go:379-384 | a mount that worked leaves the directory mounted from that server |
| `BackingMountOutcomes.LastReleaseUnmounts` | pkg/driver/utils.go:568-594 | in every run a release that drops the last reference asks for the share, sees no new reference, and ends with the directory unmounted or for one of the named reasons why not |
| `BackingMountOutcomes.EveryAnswerCanCome` | pkg/driver/utils.go:314-387 | where a goroutine asks, every true answer and every failure to answer is possible |
| `BackingMountOutcomes.EveryMountCanEnd` | pkg/driver/utils.go:314-387 | the same for replacing, clearing and mounting |
| `BackingMountOutcomes.EveryReleaseCanEnd` | pkg/driver/utils.go:642-680 | the same for each reason to leave a mount alone, and for the unmount |
| `BackingMountRace.DirectUnmountRace` | pkg/driver/utils.go:642-680 | a run in which the unlocked unmount leaves a fresh reference holder without a mount |
| `SingleFlight.OneExecutionPerKey` | pkg/common/host_utils.go:83-100 | in every run, and for both registries, at most one call is executing per key |
| `SingleFlight.StuckCallsAreBounded` | pkg/driver/node.go:88-113 | however many callers retried and timed out, no more calls execute than distinct keys were asked for |
| `SingleFlight.WaiterReadsItsAttempt` | pkg/common/host_utils.go:644-653 | a waiter that saw done has the result of the very attempt it attached to |
| `SingleFlight.NewCallAfterCompletion` | pkg/common/host_utils.go:83-100 | a caller joins only a live attempt of its own key and starts a fresh one when every earlier one is closed |
| `SingleFlight.AnswerIsFinal` | pkg/driver/node.go:88-113 | a caller stays with one attempt and what it was told never changes |
| `SingleFlight.ReturnedIsDelivered` | pkg/common/host_utils.go:83-100 | once the call has returned, its goroutine alone can take the attempt off the registry, close it, and let a waiting caller be told what it returned |
| `SizeChain.GuardIsExact` | pkg/common/host_utils.go:488-497 | the division guard refuses exactly the products that exceed int64 |
| `Unmounting.UnmountFilesystem` | pkg/common/host_utils.go:892-922 | success exactly when skipped, or detached and removed; the mount is gone exactly when it was seen and detached |
| `SizeChain.GrowthTestWithoutOverflow` | pkg/common/host_utils.go:433-452 | where that guard would pass, the wrapped comparison is the true one |
| `SizeChain.GrowthTestIsRight` | pkg/common/host_utils.go:433-452 | the test is right if and only if the guard would pass or the wrapped difference does not look like missing growth |
| `SizeChain.GrowthTestOverflows` | pkg/common/host_utils.go:433-452 | an input past the guard for which the test calls for growth nobody needs |
| `SizeChain.BackingFile.ExpandDeviceFileSize` | pkg/common/host_utils.go:342-360 | nothing shrinks; success leaves the loop device exactly the file's new size |
| `SizeChain.BackingFile.ExpandRawFileSize` | pkg/common/host_utils.go:367-376 | the file takes the size, or is untouched when the tool fails or would shrink it |
| `SizeChain.BackingFile.RefreshLoop` | pkg/common/host_utils.go:381-388 | the loop device takes the file's size or keeps its own |
| `SizeChain.BackingFile.ReconcileFilesystem` | pkg/common/host_utils.go:404-418 | nothing shrinks and the file is untouched; success leaves the filesystem within the slack and the loop device at the file's size |
| `SizeChain.BackingFile.NeedsGrowth` | pkg/common/host_utils.go:433-452 | for a superblock that tells the filesystem's size, says exactly whether it is more than the slack below its file; for any other, exactly what the wrapped difference looks like |
| `SizeChain.BackingFile.GrowPrivately` | pkg/driver/node_helper.go:43-79 | a writable mount only for a filesystem that needs growth; success means grown; the private mount stays only if it could not be detached |
| `SizeChain.BackingFile.GrowRestored` | pkg/driver/controller.go:439-474 | success for ext4 and xfs means the file has at least the requested size and the filesystem is within the slack of it; nothing shrinks on any path |
| `SharePublish.MountTable.BindMountReadOnly` | pkg/driver/node_helper.go:89-126 | success binds the source's volume read-only, changes no other path and leaves no helper mount (exactly unless its mount check went unanswered); failure leaves a target bind exactly when the rollback did not detach it |
| `SharePublish.MountTable.PublishStaged` | pkg/driver/node_helper.go:191-256 | success shows the pod the staged volume, read-only when asked; no bind from a path not confirmed mounted; failure, also after a stale target was detached, leaves a target bind exactly when the rollback failed and a helper mount only if its cleanup did; the staging mount changes exactly by staging on demand, and no other path changes |
| `FilePublish.Node.ReconcilePublished` | pkg/driver/node_helper.go:404-427 | a failed growth undoes and fails a fresh mount, and neither undoes nor fails one found mounted |
| `FilePublish.Node.MountFresh` | pkg/driver/node_helper.go:326-389 | a read-only mount is of a grown filesystem and is not writable |
| `FilePublish.Node.PrepareTarget` | pkg/driver/node_helper.go:267-322 | when the publish may go on, and that only a target with an I/O error is cleared |
| `FilePublish.Node.Publish` | pkg/driver/node_helper.go:258-400 | every publish is an `Attempt`, which fixes its reply, the filesystem and the target it leaves from the state and the answers; read-only never grows or mounts writable |
| `FilePublish.TargetOfRetries` | pkg/driver/node_helper.go:404-427 | a retry finds the target mounted exactly when an earlier failed growth left its mount and nothing has cleared it |
| `FilePublish.FirstSuccess` | pkg/driver/node_helper.go:258-427 | the first success is of an undersized filesystem if and only if it is writable, found a mount that an earlier failed growth left, and its own growth did not end within the slack |
| `FilePublish.FirstSuccessIsReconciled` | pkg/driver/node_helper.go:258-427 | over any retries from an unmounted target in which no failed growth leaves its mount, the first success is of a filesystem grown to its file and the target stays unmounted until then |
| `FilePublish.UndersizedAfterFailedRollback` | pkg/driver/node_helper.go:404-427 | that exception happens: the second publish succeeds undersized |
| `Reconcile.UpgradeManagedFields` | operator/internal/operator/reconcile.go:230-245 | at most three upgrades with one read between two of them, and nothing else; an upgrade that went through at once keeps the UID |
| `Reconcile.Apply` | operator/internal/operator/reconcile.go:192-222 | succeeds for exactly the answers that `Applies` names (creation goes through, or an owned object settles in one of three attempts and its patch goes through); then a create or patch of the key went through; every call is proper; a patch goes to the object of the last read, owned unless that was the unchecked re-read |
| `Reconcile.SucceedsExactly` | operator/internal/operator/reconcile.go:192-245 | apply succeeds if and only if the cluster answers so, stated on the answers alone |
| `Reconcile.ApplyFailsBadly` | operator/internal/operator/reconcile.go:192-245 | a failed apply got a bad answer: an error, an object not ours or not to be worked with, or one that vanished |
| `Reconcile.CheckOwner` | operator/internal/operator/reconcile.go:45-52 | owned exactly when some owner reference names this resource's UID, version and kind as controller |
| `Reconcile.ApplyIsProper` | operator/internal/operator/reconcile.go:192-245 | every call of apply concerns its own key; a patch goes to a UID this pass read as owned (or in the unchecked re-read), a create only follows a not-found |
| `Reconcile.PatchFollowsLastRead` | operator/internal/operator/reconcile.go:192-245 | the patch goes to the object of apply's last read, which was checked for its owner unless it was a re-read |
| `Reconcile.AdoptsExactly` | operator/internal/operator/reconcile.go:192-245 | apply patches an object that it has not read as owned if and only if the cluster refuses the upgrade of the owned object it read first and then shows, at the first or second re-read, an unowned object with another UID that is ready to be patched; stated on the answers alone |
| `Reconcile.RereadAdopts` | operator/internal/operator/reconcile.go:230-245 | a cluster in which the re-read adopts a foreign object |
| `ReconcilePass.Preflight` | operator/internal/operator/reconcile.go:87-100 | clear exactly when every desired object was read and is absent or owned; stops at the first that is not |
| `ReconcilePass.WorkloadsLastIsOrdered` | operator/internal/operator/reconcile.go:108-109 | the order is a permutation of the desired objects with no workload before another kind |
| `ReconcilePass.OtherKindsFirst` | operator/internal/operator/reconcile.go:247-249 | no StatefulSet or DaemonSet comes before any other kind |
| `ReconcilePass.SelectIsStable` | operator/internal/operator/reconcile.go:108-109 | within workloads and within the others the order of the list is kept |
| `ReconcilePass.ApplyAll` | operator/internal/operator/reconcile.go:110-117 | every call proper, nothing but workloads changed after a workload, and on success every operand's create or patch went through |
| `ReconcilePass.CheckReady` | operator/internal/operator/reconcile.go:118-145 | reads only; all ready only if every workload was read ready, waiting only if one was read not ready, unknown only after a failed read or an unreadable selector; pods are listed only for a workload just read not ready that has selector labels |
| `ReconcilePass.RollOut` | operator/internal/operator/reconcile.go:108-145 | Available only when every workload was read ready after the last change, RollingOut only when one was read not ready, WorkloadFailing only when a pod of one was seen failing, ReconcileFailed exactly when an apply failed, and then on a bad answer |
| `ReconcilePass.Install` | operator/internal/operator/reconcile.go:101-145 | a missing finalizer is added before the first change, and every outcome but a failure has every operand applied |
| `ReconcilePass.ReconcileOnce` | operator/internal/operator/reconcile.go:54-145 | over a whole pass against any cluster: proper calls only, no deletes, nothing changed unless the whole preflight was harmless, an ownership conflict means reads only, workloads last, finalizer before the first change, each reason with its flags and its evidence; and if every answer is good, every operand is applied and the pass is Ready unless it saw a workload unready |
| `ReconcilePass.RemoveOne` | operator/internal/operator/reconcile.go:286-307 | an object read as owned and not yet going is deleted by the next call, by its UID, and no other is |
| `ReconcilePass.RemoveKind` | operator/internal/operator/reconcile.go:284-311 | pending exactly when an owned object of the kind was seen; otherwise every one was read and none is ours |
| `ReconcilePass.RemoveAll` | operator/internal/operator/reconcile.go:284-313 | other kinds are touched only when no workload of ours was seen; something is pending exactly when an owned operand was seen |
| `ReconcilePass.Cleanup` | operator/internal/operator/reconcile.go:274-322 | over a whole pass: no other kind is deleted when an owned workload was seen; every owned object that was read is deleted or already going; the finalizer goes, as the last call, only from a pass that read every operand, found none of ours and changed nothing |
| `Status.SetCondition` | operator/internal/operator/reconcile.go:324-358 | the nested loops compute the specified status, a write happens exactly when it differs from the stored one, and Available, Progressing and Degraded are true exactly as the outcome says, with its reason, message, generation and images |
| `Status.ExactlyOneTrue` | operator/internal/operator/reconcile.go:324-358 | exactly one of the three conditions is true, and it is the one the outcome names, if and only if the outcome does not claim both Available and Progressing |
| `Status.TimeKeptUnlessFlipped` | operator/internal/operator/reconcile.go:335-344 | a transition time is kept exactly when the condition's status did not flip |
| `Status.SinceIsLast` | operator/internal/operator/reconcile.go:335-344 | of several stored entries that match, the last gives the time; with none it is now |
| `Status.RepeatIsFixedPoint` | operator/internal/operator/reconcile.go:352-354 | repeating an outcome at any later time gives the stored status, so nothing is written |
| `Status.TimeOfLastFlip` | operator/internal/operator/reconcile.go:324-358 | after any run of passes each stored time is that of the pass which last flipped the condition |
| `TaskPoll.WaitForTask` | pkg/client/hsclient.go:455-512 | for any answers and delays: exactly the first `fast` polls, at most 15, start in the first 30 s, at most 893 after, all within the hour, and both bounds are reached without delay; a live task is given up only when the hour is over; Completed exactly when the last poll says so, Error exactly when it saw a live task or none |
| `TaskPoll.RunningTask` | pkg/client/hsclient.go:1180-1187 | the ID of the first running task of the action, or none exactly when there is none |
| `TaskPoll.CreateShare` | pkg/client/hsclient.go:811-909 | success exactly when a poll of its own or an already queued task said COMPLETED; the share is deleted again exactly after an accepted create whose task failed or was not named; Aborted exactly when the end of a queued task was not seen |
| `TaskPoll.WaitForShareDelete` | pkg/client/hsclient.go:1193-1202 | Ok exactly on COMPLETED, Aborted exactly when the end was not seen |
| `TaskPoll.DeleteShare` | pkg/client/hsclient.go:1125-1171 | which answers are waited on, and exactly when the result is success, Aborted or Unavailable |
| `Freezer.FreezeTargets` | pkg/driver/freezer.go:104-129 | attempts every target in order and returns exactly those whose freeze worked |
| `Freezer.FrozenExactly` | pkg/driver/freezer.go:104-129 | a target counts as frozen exactly if a freeze of it worked |
| `Freezer.FrozenInOrder` | pkg/driver/freezer.go:104-129 | once for each freeze that worked, in their order |
| `Freezer.Unfreeze` | pkg/driver/freezer.go:133-147 | attempts every frozen target, in reverse order, whatever fails |
| `Snapshot.Always` | pkg/driver/controller.go:1549-1676 | the invariant of locks, cache, backend successes and events holds in every run |
| `Snapshot.AtMostOneSnapshotPerName` | pkg/driver/controller.go:1549-1676 | in every interleaving at most one backend call succeeds per snapshot name |
| `Snapshot.RepliesAgree` | pkg/driver/controller.go:1588-1671 | all successful replies for a name are one snapshot, the one the backend took, of the source each caller asked for |
| `Snapshot.ConflictIsReal` | pkg/driver/controller.go:1664-1667 | AlreadyExists only when the name was snapshotted for another source |
| `Snapshot.CallsAnswer` | pkg/driver/controller.go:1567-1675 | every finished call answers what its arguments, its lock wait, the cache, GetShare and the backend told it to; past those it attempted to freeze every mount of a file-backed source in order and called the backend once |
| `Snapshot.EveryFreezeIsThawed` | pkg/driver/controller.go:1621-1627 | a finished call made its freeze attempts, one backend call, and then for each freeze that worked one thaw attempt in mirrored position and no other, or touched no pod at all |
| `Snapshot.NamesAreSerialized` | pkg/driver/driver.go:199-220 | no two calls of a name are past its lock together, whatever waits time out |
| `MountSearch.PickIsStable` | pkg/client/hsclient.go:250-288 | each of the two groups holds every portal it should, in the order of the list |
| `MountSearch.PickHasNoOthers` | pkg/client/hsclient.go:250-288 | and holds nothing else |
| `MountSearch.UpDataPortals` | pkg/client/hsclient.go:276-288 | keeps only portals that are up, and none is lost that the order keeps |
| `MountSearch.GetDataPortals` | pkg/client/hsclient.go:250-288 | the co-located portals that are up, then the others that are up |
| `MountSearch.EachFallbackHasOneVersion` | pkg/driver/utils.go:862-921 | the caller's own flags come first only if they name a version; each fallback has exactly one version flag on top of the other flags |
| `MountSearch.PlanOrder` | pkg/driver/utils.go:862-921 | the plan goes version phase by version phase and, in each, portal by portal |
| `MountSearch.FilterFlags` | pkg/driver/utils.go:862-885 | finds a version flag exactly if there is one, and removes those and no others |
| `MountSearch.TryPhase` | pkg/driver/utils.go:798-859 | extends the tries along the plan until one mounts or the context is done |
| `MountSearch.Search` | pkg/driver/utils.go:738-922 | for any portals, flags, failures and cancellation the tries are a prefix of the plan, at most three per portal, none after a mount or a cancellation, and success exactly when the last one mounted |
| `LegacyExport.UnmountedAfterLastMarker` | pkg/driver/node.go:370-391 | in every interleaving, while markers can be read, the export is unmounted only when none remains |
| `LegacyExport.LastUnstageUnmounts` | pkg/driver/node.go:325-391 | the call that removed the last marker fails exactly when its unmount did, and reports success with the export still mounted exactly when its mount check went unanswered and no call has detached the export |
| `LegacyExport.UnstagesAnswer` | pkg/driver/node.go:370-391 | every finished unstage found no marker, or timed out, or removed its marker, checked, and unmounted if none was left; and it reports success exactly as that way says |
| `LegacyExport.WhenTheExportStays` | pkg/driver/node.go:370-391 | the export outlives its markers only if that call's unmount is still to come, failed, or went unchecked |
| `LegacyExport.MountedUntilDetached` | pkg/driver/node.go:370-391 | the export is mounted exactly as long as no call's unmount detached it |
| `LegacyExport.RetryLeavesExport` | pkg/driver/node.go:370-375 | a run in which the retry reports success with the export still mounted |
| `TtlCache.Cache.Set` | pkg/common/hs_cache.go:24-33 | the cache stands for its history with that Put appended |
| `TtlCache.Cache.Get` | pkg/common/hs_cache.go:35-46 | the answer of an ideal cache that never deletes, although this one does |
| `TtlCache.Cache.SetData` | pkg/common/utils.go:17-27 | a TTL of zero stands for a minute, any other for itself |
| `TtlCache.Serve` | pkg/common/hs_cache.go:24-46 | over any history of requests every read gets the ideal answer: deleting on read is unobservable |
| `TtlCache.LatestPutDecides` | pkg/common/hs_cache.go:35-46 | that answer is the latest Put's value exactly until its expiration, whatever came before |
| `TtlCache.NeverPutIsMissing` | pkg/common/hs_cache.go:35-46 | what was never put is not found |
| `TtlCache.MatchExport` | pkg/driver/utils.go:720-731 | a source exactly when the share is exported under a known prefix, built from the first such prefix |
| `TtlCache.CachedExports` | pkg/driver/utils.go:699-716 | the cached list if asked for and alive, else the fetched one, which then stays alive for 30 seconds under the address and for an hour under the common key |
| `TtlCache.FindExport` | pkg/driver/utils.go:811-837 | no match only if a list fetched by this very call lacks the share or that fetch failed |
| `VolumeIds.IdsClassify` | pkg/driver/utils.go:231-233 | share IDs are never taken for files; IDs inside a share are recognised exactly when the share's name is a segment of its own |
| `VolumeIds.CleanGoesUp` | pkg/driver/utils.go:231-233 | cleaning a path drops the segment before ".." |
| `VolumeIds.CleanStopsAtRoot` | pkg/driver/utils.go:231-233 | and drops a ".." at the root |
| `VolumeIds.CleanKeepsRelative` | pkg/driver/utils.go:231-233 | and keeps it where there is no root |
| `VolumeIds.DotIsMisclassified` | pkg/driver/utils.go:231-233 | the ID of a file in a share named "." is taken for a share ID |
| `VolumeIds.IdsAreUnique` | pkg/driver/controller.go:794-799 | different volumes have different IDs, across both kinds |
| `VolumeIds.DeleteTakesIdApart` | pkg/driver/controller.go:1000-1036 | delete finds the share, its directory and the file name the ID was built from |
| `VolumeIds.SubPathRejoins` | pkg/driver/node_helper.go:131-137 | a sub-path is returned exactly when it rejoins to the ID below a nonempty export path |
| `VolumeIds.NestedVolumeIsInside` | pkg/driver/controller.go:917-918 | a nested volume's sub-path is its name below its share |
| `VolumeIds.MalformedIds` | pkg/driver/utils.go:235-249 | a snapshot ID is refused exactly when it has no separator |
| `VolumeIds.SnapshotIdRoundTrip` | pkg/driver/utils.go:235-263 | the name decodes exactly when it has no separator, and then the volume exactly when it has none |
| `VolumeIds.BackendsAgree` | pkg/driver/controller.go:1690-1724 | with one answer about the share at create and another later: delete goes where create went exactly when the source is inside a share or the answers agree, and list exactly if also the share is not gone; both with the same snapshot name |
| `VolumeIds.DeleteAfterShareRemoved` | pkg/driver/controller.go:1690-1724 | the delete of a share snapshot goes to a file of that name when the share is gone |
| `VolumeIds.BackendOfCreatedVolumes` | pkg/driver/controller.go:1824-1881 | for every ID CreateVolume builds, delete and list go to that share, or to that file whatever the Anvil answers |

## Left out

- The keyed volume locks are not part of the deadlock theorem. Publish locks a share's name and unpublish its path (pkg/driver/node_helper.go:259, 438-440), and nothing here claims that they exclude each other.
- The staging directory of a share is fixed while the process runs; a share renamed on the Anvil is not modelled.
- BackingMountOutcomes.AcquireEnds: whether `EnsureBackingShareMounted` reports success is not part of the state; for an acquire the result is the reference it holds.
- BackingMountOutcomes.LastReleaseUnmounts: looking for the mount and its loop devices and unmounting are one step, so a device that appears in between is not told apart.
- A process without a mount slot limit (`mountSlots` nil) is not modelled.
- ForeignMount.ForeignServer: the lookups of the FQDN and of the server's name are answered from one table, so a name that is both answers the same to both.
- Callers of `EnsureBackingShareMounted` hold no reference, so they are promised nothing about the mount; safety is stated for reference holders.
- SizeChain.BackingFile.NeedsGrowth: takes the block count and size as parsed; `parseFilesystemGeometry`, which reads them from tool output, is not modelled.
- The growth tools, `losetup`, `qemu-img` and `mount` appear as contracts: they grow only, and a finished growth leaves at most the slack.
- SharePublish.MountTable.PublishStaged: covers publishes with a staging path; the direct mount without one is the search of `MountSearch`.
- FilePublish.Node.Publish: cleanup of loop devices and of the backing mount after a failure is not part of its state; the unmount is the `Direct` operation of `BackingMount`.
- Reconcile.ApplyIsProper: sets the re-read of `upgradeManagedFields` aside; `PatchFollowsLastRead` and `RereadAdopts` state it.
- `Render`, `ParseSpec` and the reading of Secret and spec are one argument (`Gate`) of a pass, and desired objects are a list of keys.
- Status.TimeOfLastFlip: counts the passes whose status write, if one was due, was stored.
- `workloadReady` and `workloadFailure` are answers of the cluster; their field comparisons are not modelled.
- HTTP, JSON, login, cookies, tracing and metrics: only the decision on each answer is kept. A response with an unparsable task list is an ordinary failure.
- CreateShare's deferred delete of a failed share is a flag; its result is ignored by the code as well.
- Snapshot names live in a process-wide cache that DeleteSnapshot does not clear; deleting and creating again under one name is not modelled.
- MountSearch.Search: flag lists are values; that Go's `append` may share memory between tries is not captured, and a configured mount prefix, which skips the export lookup, is one of the outcomes of a try.
- LegacyExport.UnmountedAfterLastMarker: marker names are taken as distinct per volume (they are SHA-256 hashes), and the state is silent about runs in which the marker directory could not be read, where the code unmounts.
- The round-robin order of floating IPs, `parseVolParams`, capability lists, the CSI v0 wrapper and the gRPC server are not modelled.
- Claims about CreateVolume across crashed earlier calls are not made: a retry accepts any existing file of the right size.
