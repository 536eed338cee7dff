# A verified model of the etcd operator's controllers

The operator drives an etcd cluster with two controllers that share nothing but the Kubernetes API:
the cluster controller creates members, rolls out versions, rotates certificates and marks one failed
member at a time as broken; the member controller gives each member its certificates, volume and pod,
replaces the pod when it must, and tears down and re-adds a broken member. Two more controllers
schedule backups and store and expire them. This project models the four controllers, the
webhook and the naming functions, and proves what holds over all their runs.

`dafny verify dfyconfig.toml` checks everything.

## How it is built

- `Api.dfy`, `Topology.dfy`, `Webhook.dfy`, `Etcd.dfy`, `Objects.dfy`: resources, names and URLs, admission,
  etcd's membership list, and all objects of one cluster with the moves of the environment (clock, kubelet,
  pods that vanish, deleted volumes that go, certificates that are issued or renewed, etcd processes that
  publish their name from a pod, users who edit the spec through the webhook).
- `MemberController.dfy`, `ClusterController.dfy`, `Backups.dfy`: each stage of a reconcile as a function of what
  it reads, and the controllers as classes over a mutable store whose methods, with the loops of the
  original, are proved to compute exactly these functions.
- `MemberLaws.dfy`, `ClusterLaws.dfy`, `BackupLaws.dfy`: what one reconcile does in each case, said of the stored objects alone with
  the source's own constants; together the cases cover every state that can be reached.
- `Interleaving.dfy`: both controllers at the granularity of single API calls. One cluster worker and one worker for
  each member hold snapshots with resource versions; calls interleave in any order, may fail, also between the two
  certificates of a stage, and a worker may be lost between any two of them. Writes are dropped on a stale version. `Run(start, steps)` is the state after any list
  of steps; a step that is not enabled changes nothing, so a statement about all `steps` is one about all runs.
- `Invariant.dfy`: the inductive invariant of all interleaved runs. `Repairs.dfy`, `Rollouts.dfy`, `Rotation.dfy`,
  `Pods.dfy` and, for rollout and rotation together, `Replacements.dfy` and `Disruptions.dfy`: results on top of it.
- `AtomicRuns.dfy`, `Termination.dfy`, `RotationRuns.dfy`: runs whose steps are whole reconciles. `Uninterrupted.dfy` proves that each such run
  is one of the interleaved runs, so the results above hold of it too.
- `Limits.dfy`, `LostRepairs.dfy`, `Images.dfy`, `Requests.dfy`: exact conditions for what the code does not give always.
- `Startup.dfy`, `Breakdowns.dfy`, `Witnesses.dfy`: explicit runs. Every newly admitted cluster comes up
  (`Startup.Sample` is one for each odd size), and from there comes to each of the states in which a promise fails.
- `BackupRuns.dfy`: all runs of the backup scheduler and the backup workers, call by call.

Two fields of a volume and one of a backup record history (`recreated`, `seenReady`, `scheduled`); no controller reads them.

## What the model assumes

- Reads are current. A write fails when its resource version is stale; a write that changes nothing leaves the version alone.
- The two writes inside a repair (`Repair`, member_controller.go:234 and 239) fail on conflicts only, and what holds of
  interleaved runs rests on that. Any other failure is logged and passed over by the code. `Limits.LostStatusWrite` says what follows
  from one of the first write; after one of the second (`Limits.LostMarkWrite`) the member keeps its mark and gets a claim that the
  next reconcile tears down, and the mark goes or stays as `LostRepairs.RepairCanFinish` says.
- `EnsureMember` succeeds; its callers dereference the member without looking at the error.
- One worker reconciles a given member or backup at a time. Members are not edited and volumes are not deleted by anybody else.
- Time is an integer clock that never goes back. Members are addressed by ordinal, which loses nothing because their names and
  URLs are distinct (`Topology.NamesDistinct`, `Topology.PeerURLsDistinct`).
- etcd starts from the bootstrapped list with all members named.

## Where the code falls short of what one might expect

Each point has its exact condition and a run from a newly admitted cluster that reaches the failure.

- The reported version does not say that the rollout is done. A reconcile that finds the cluster Creating, Failed, or in a minor
  failure with a repair due reports the version though it tells no member (`AtomicRuns.ReportedExactly`); one that finds it Running
  reports it only when every member has reached it (`AtomicRuns.FinishesExactly`, `AtomicRuns.FinishingIsSound`). Once it is reported
  early, no undisturbed run tells a waiting member (`Termination.StuckForGood`), so a rollout can come to its end if and only
  if its version is not reported yet or everybody has been told (`Termination.RolloutCanFinish`). A member that fails, an edit of the
  version and a repair leave a whole cluster on the old version for good (`Witnesses.ReportedUnrolled`).
- Certificate requests in a healthy cluster are one at a time if and only if no member with an unsettled renewal has a renewed or
  flagged member above it (`Requests.OneAtATimeExactly`). A renewal is unsettled if it has not been noticed, or if it is of one
  certificate only, so that a check whose second read fails says something else than one that gets through. Both kinds are reached
  (`Witnesses.OverlapReached`, `Witnesses.NoticedOverlapReached`). One unsettled renewal at the top is harmless
  (`Rotation.OneRequest`).
- A pod can run another version than its member promises. Two calls do that and no others (`Images.ImageBreaksExactly`): the one that
  makes a pod before the status write that announces its version, or from an old copy (`Witnesses.MakesBeforeReport`), and the one
  that tells the version to a member that has failed since the pass before the loop (`Witnesses.BumpsAfterFailure`). If the stored
  member is still Running at another version than it asks for, the next reconcile deletes the pod (`Images.ReplacedNext`); if it is
  not Running, the next reconcile that finds the pod ready reports the new version over the old image
  (`Images.WrongImageReported`, `Witnesses.WrongImageReached`).
- A repair that is lost between the add and the write that clears the mark is never finished, and blocks every other repair
  (`LostRepairs.NeverFinished`, `Witnesses.LostAfterAdd`). A mark can go in some run if and only if the member has a pod or
  etcd does not list its URL without a name (`LostRepairs.RepairCanFinish`), and it goes in the next reconcile if and only if pod and
  volume are gone and the URL is not listed without a name (`Limits.RepairCompletes`).
- A repair whose status write fails without a conflict makes a pod without a volume, unless an earlier attempt had stored Recreating
  or a certificate is missing (`Limits.LostStatusWrite`, `Witnesses.LosesStatusWrite`).

## Model

| member | source | states |
|---|---|---|
| Webhook.AdmittedEdits | api/v1alpha1/cluster_webhook.go:42-67 | over every history of admitted edits and status writes the size stays the odd one of creation, the backup stays, and the version changes only from a state that is not Updating |
| Webhook.CreateAdmitted | api/v1alpha1/cluster_webhook.go:42-48 | exactly the odd sizes are admitted |
| Webhook.UpdateAdmitted | api/v1alpha1/cluster_webhook.go:51-67 | an edit is refused exactly for the version while Updating, the backup, or the size |
| Topology.BuildMember | api/v1alpha1/cluster_types.go:177-200 | the loop builds a member that lists all names in order, whatever its own ordinal |
| Topology.ClusterEndpoints | api/v1alpha1/cluster_types.go:210-218 | the loop yields the client URLs of all members in order |
| Topology.MemberEndpoints | api/v1alpha1/member_types.go:330-338 | the loop yields the client URLs of the listed members in order |
| Topology.InitialCluster | api/v1alpha1/member_types.go:320-328 | the loop yields the joined name=URL entries in order |
| Topology.NamesDistinct | api/v1alpha1/cluster_types.go:202-204 | different ordinals have different member names |
| Topology.PeerURLsDistinct | api/v1alpha1/member_types.go:367-377 | different ordinals have different peer URLs |
| Topology.OneTopology | api/v1alpha1/member_types.go:320-328 | every member gets the same --initial-cluster, and splitting it on commas and then on the first equals sign gives back exactly all names and peer URLs in order, with scheme, host and port |
| Topology.SameEndpoints | api/v1alpha1/cluster_types.go:210-218 | a repair and a snapshot use the same endpoints, pairwise different, with scheme, host and port |
| Topology.ItoaReads | api/v1alpha1/cluster_types.go:202-204 | the ordinal in a name reads back as the ordinal, without leading zeros |
| Api.MemberObject.SetFailed | api/v1alpha1/member_types.go:340-347 | enters Failed with the current time, and keeps the time of a member that is already Failed |
| MemberController.Store.UpdateStatus | controllers/member_controller.go:70-74 | stores the copy's status unless its version is stale, and reloads the copy |
| MemberController.Store.Update | controllers/member_controller.go:238-241 | stores the copy's spec unless its version is stale, and reloads the copy |
| MemberController.MemberReconciler.Reconcile | controllers/member_controller.go:55-102 | the imperative reconcile, with its final status write, is the composed function; a missing member is ignored |
| MemberController.MemberReconciler.RunStages | controllers/member_controller.go:76-101 | order and early exits of the stages |
| MemberController.MemberReconciler.RepairMember | controllers/member_controller.go:219-244 | pod, then volume, then re-add, then the two writes, each only after the one before it |
| MemberController.MemberReconciler.Readd | controllers/member_controller.go:246-299 | the loop removes every entry with the member's name and then adds its URL unless it is listed |
| MemberController.MemberReconciler.CreateCertificates | controllers/member_controller.go:104-127 | creates the missing certificates and stops unless both are issued |
| MemberController.MemberReconciler.CheckExpiry | controllers/member_controller.go:186-217 | the flag is that of the last certificate found, also when the read after it fails, and a failed read ends the reconcile |
| MemberController.MemberReconciler.CreatePod | controllers/member_controller.go:152-184 | creates the pod, or moves the phase by the readiness of all its containers |
| MemberLaws.BrokenWithPod | controllers/member_controller.go:219-223 | a broken member's pod is deleted first, and nothing else changes |
| MemberLaws.BrokenWithVolume | controllers/member_controller.go:224-227 | then its volume |
| MemberLaws.BrokenAndUnstarted | controllers/member_controller.go:290-296 | an entry that was added and never started blocks the repair, and nothing changes |
| MemberLaws.BrokenAndGone | controllers/member_controller.go:228-243 | otherwise exactly its own entry is replaced by a nameless one, it is Recreating without mark, and has a new volume if its certificates are issued |
| MemberLaws.NeedsCertificates | controllers/member_controller.go:104-127 | without both certificates issued only the missing ones are asked for |
| MemberLaws.ChecksInOrder | controllers/member_controller.go:198-214 | for each number of reads that succeed, which certificate gives the flag and whether the reconcile ends |
| MemberLaws.NeedsVolume | controllers/member_controller.go:129-150 | a creating member without a volume gets one, and nothing else |
| MemberLaws.OldPodGoes | controllers/member_controller.go:91-97 | a Running member that asks for another version, or with a newer peer certificate was asked to rotate, has its pod deleted |
| MemberLaws.NewPodComes | controllers/member_controller.go:97-100 | when it is gone the new pod has the desired version, bootstraps, restores iff there is a backup, has one container, and the member is Updating |
| MemberLaws.PodIsMade | controllers/member_controller.go:152-168 | a missing pod joins and restores nothing iff the member is Recreating; a Running member fails with it, now |
| MemberLaws.PodIsThere | controllers/member_controller.go:171-181 | a ready pod makes the member Running at the desired version, one that is not makes a Running member fail now, and nothing else changes but the flag |
| ClusterController.ClusterReconciler.Reconcile | controllers/cluster_controller.go:59-112 | the imperative reconcile with its final status write is the composed function |
| ClusterController.ClusterReconciler.RunStages | controllers/cluster_controller.go:93-111 | order and early exits of the stages, and when the version is reported |
| ClusterController.ClusterReconciler.EnsureMember | controllers/cluster_controller.go:229-243 | creates the member when absent, loads it and changes nothing otherwise |
| ClusterController.ClusterReconciler.Survey | controllers/cluster_controller.go:198-213 | the loop counts the failed and the creating members and collects the flags |
| ClusterController.ClusterReconciler.Ensure | controllers/cluster_controller.go:195-227 | all members exist afterwards, and the phase is the classification of the counts |
| ClusterController.ClusterReconciler.FindFailed | controllers/cluster_controller.go:298-318 | the loop stops exactly when a member is creating or broken, and otherwise finds the member to repair |
| ClusterController.ClusterReconciler.RepairLoop | controllers/cluster_controller.go:292-331 | which member is marked, and when none is |
| ClusterController.ClusterReconciler.UpdateLoop | controllers/cluster_controller.go:245-290 | the loop is the recursive rollout function |
| ClusterController.OldestIsLongestFailed | controllers/cluster_controller.go:299-318 | the loop's choice is the one member that failed before the cutoff and before all others, the first on ties; it chooses none exactly when nobody failed before the cutoff |
| ClusterController.PhaseMeans | controllers/cluster_controller.go:215-223 | a cluster is Running iff all members serve, Creating iff none has failed and some are being created, in minor failure iff some have failed and a strict majority serves, and Failed otherwise |
| ClusterLaws.CreatesMissing | controllers/cluster_controller.go:198-213 | every missing member is created with the cluster's version, backup, name and uid, all members' names, no marks and no status, and no other is changed |
| ClusterLaws.Unprepared | controllers/cluster_controller.go:74-92 | before the members only a first phase is stored |
| ClusterLaws.CreatingOrFailed | controllers/cluster_controller.go:215-224 | without a serving majority, or while only creations are pending, no member is touched and the version is reported |
| ClusterLaws.MinorFailureRepairs | controllers/cluster_controller.go:292-331 | in a minor failure with nobody new or broken, the member that failed first, more than 300 seconds ago, the lowest on ties, is marked, and no other |
| ClusterLaws.MinorFailureWaits | controllers/cluster_controller.go:301-320 | in every other minor failure nobody is marked and nothing is reported |
| ClusterLaws.RepairsNoMinority | controllers/cluster_controller.go:323-325 | when the members that serve are a minority the repair marks nobody and the reconcile goes on |
| ClusterLaws.LoopStops | controllers/cluster_controller.go:245-281 | for every state of the members: which one the update loop stops at, what it is told, and that all before it have their requests taken back |
| ClusterLaws.LoopRunsOut | controllers/cluster_controller.go:283-289 | when the loop passes all members it takes back all requests |
| ClusterLaws.FirstNotReached | controllers/cluster_controller.go:103-109 | in a serving cluster the first member that has not reached the version with its flag down is told, asked or waited for, and no version is reported |
| ClusterLaws.AllReached | controllers/cluster_controller.go:103-109 | when all have, the version is reported and all requests are taken back |
| ClusterLaws.NothingToDo | controllers/cluster_controller.go:103-109 | with the version reported and no flag or request nothing changes |
| Invariant.RunInv | controllers/member_controller.go:55-299 | the invariant of slots, workers, list and cluster worker holds in every state of every interleaved run |
| Invariant.MemberCallSlot | controllers/member_controller.go:55-299 | what one call of a member's worker keeps and which phase edges it may write |
| Repairs.SingleRepair | controllers/cluster_controller.go:301-330 | at most one member is broken or Recreating, in every interleaved run |
| Repairs.BrokenIsFailed | controllers/cluster_controller.go:309-330 | broken implies Failed or Recreating, in every interleaved run |
| Repairs.RepairIsCurrent | controllers/member_controller.go:76-80 | a worker inside a repair holds the stored member, which is broken and has not recovered |
| Repairs.OnlyBrokenTornDown | controllers/member_controller.go:219-299 | only a broken member without a pod loses its volume or its place in etcd's list |
| Repairs.QuorumAtRepair | controllers/cluster_controller.go:305-330 | when a member is marked it is the longest-failed of a full pass, past the grace period and stored as it was read; a quorum of both the n and the n - 1 list was serving; all n URLs are listed |
| Repairs.ReadsAreReal | controllers/cluster_controller.go:301-303 | every member the repair pass judges by was stored so at its turn in that very pass, at most as old as the cutoff says |
| Repairs.ReaddSafe | controllers/member_controller.go:246-299 | between any two remote calls no URL is listed twice, n - 1 or n are listed, and only a broken member's is missing |
| Repairs.ClearedWhenListed | controllers/member_controller.go:228-243 | the mark goes only when all n URLs are listed, the member is Recreating and nothing of its old life is left |
| Repairs.RepairedRejoins | api/v1alpha1/member_types.go:189-192 | a pod has its volume and issued certificates, and a repaired volume is first mounted only by pods that join an existing cluster and restore nothing |
| Repairs.OneWithoutData | controllers/member_controller.go:219-243 | at most one member that has ever served is without a volume on which a pod was ready, and it is the one in repair, in every interleaved run |
| Pods.PodsStartRight | api/v1alpha1/member_types.go:188-212 | in every interleaved run a pod has one container, bootstraps on every volume that no repair made, and restores the cluster's backup iff it bootstraps and there is one |
| Repairs.LifeCycle | controllers/member_controller.go:164-181 | stored phases change along the seven edges only, and new members have none |
| Rollouts.OneBetweenVersions | controllers/cluster_controller.go:251-280 | at most one member is between versions while the cluster's version is constant, in every interleaved run |
| Rollouts.BumpsInOrder | controllers/cluster_controller.go:255-264 | a member is told about the version only when all lower ones have reached it, nobody is between versions and no repair is marked for it |
| Rollouts.BumpsGrow | controllers/cluster_controller.go:251-264 | of two bumps in a run the later one has the higher ordinal |
| Rotation.OneRequest | controllers/cluster_controller.go:266-275 | without renewals, and with at most one unsettled renewal at the start above which nothing is renewed or flagged, at most one certificate request is pending, and no lower member has one or has its flag up, in every interleaved run, whatever reads fail |
| Requests.OneAtATimeExactly | controllers/cluster_controller.go:266-275 | from a healthy cluster at rest every renewal-free interleaved run has at most one request at a time, if and only if no unsettled renewal has a renewed or flagged member above it |
| Replacements.OneReplacement | controllers/cluster_controller.go:251-280 | with a constant version and no renewals at most one member is between versions or asked to rotate, in every interleaved run |
| RotationRuns.RotationCompletes | controllers/cluster_controller.go:266-276 | from a cluster at rest with noticed renewals whole reconciles make exactly the outdated pods anew and leave no request, no flag and no expiry |
| Disruptions.OneDown | controllers/member_controller.go:91-100 | under the same conditions at most one member is Updating or has a pod that is being deleted for another reason than a repair, in every interleaved run |
| AtomicRuns.VersionTruth | controllers/member_controller.go:91-100 | in every state of every run of whole reconciles a Running member's pod runs the reported version and any other pod the desired one |
| AtomicRuns.FinishesExactly | controllers/cluster_controller.go:245-290 | the update loop is entered and ends if and only if all members are Running at the version with their flags down, and the version is not reported or a request is pending |
| AtomicRuns.FinishingIsSound | controllers/cluster_controller.go:251-289 | under that condition all members end Running at the version with no certificate business, and the cluster's status says so |
| AtomicRuns.ReportedExactly | controllers/cluster_controller.go:97-109 | a version is newly reported if and only if the cluster is Creating or Failed, or a repair is due in a minor failure, or all members of a Running cluster have reached it; in the first three cases no member is told |
| AtomicRuns.RequestsInOrder | controllers/cluster_controller.go:251-276 | a certificate request is made only for a member with its flag up, when all lower members are Running at the version with no request and no flag |
| AtomicRuns.FailureHistory | controllers/member_controller.go:164-177 | the failure time of a Failed member is the time of the act in which it left Running, and it has been Failed in every state since |
| AtomicRuns.LongestFailedIsRepaired | controllers/cluster_controller.go:299-328 | a marked member has been Failed without a break for more than 300 seconds, longer than any other Failed member, the first on ties |
| Termination.StepRolls | controllers/cluster_controller.go:245-290 | every step of an undisturbed rollout, with starting and terminating pods reporting anything, keeps it going, and one that changes a member or a pod lowers the measure |
| Termination.RolloutTerminates | controllers/cluster_controller.go:245-290 | an undisturbed run changes members, pods and the readiness of live pods at most six times for each member |
| Termination.RolloutProgresses | controllers/member_controller.go:91-100 | while the measure is positive, and the version is not reported over a waiting member, some step lowers it |
| Termination.RolloutReports | controllers/cluster_controller.go:103-109 | at measure zero all members run the version, and the next cluster reconcile reports it |
| Termination.StuckForGood | controllers/cluster_controller.go:103-109 | once the version is reported, a member that waits for it waits in every state of every undisturbed run |
| Termination.RolloutCanFinish | controllers/cluster_controller.go:103-109 | some undisturbed run ends the rollout if and only if the version is not reported yet or nobody waits |
| Uninterrupted.MemberAlone | controllers/member_controller.go:55-102 | the calls of a member's worker with nothing in between compute the whole reconcile |
| Uninterrupted.ClusterAlone | controllers/cluster_controller.go:59-112 | the calls of the cluster's worker with nothing in between compute the whole reconcile |
| Uninterrupted.AtomicIsInterleaved | controllers/cluster_controller.go:59-112 | every run of whole reconciles is an interleaved run with the same moves of the environment and the same result |
| Interleaving.LostRace | controllers/cluster_controller.go:263-271 | a write of the cluster's worker from a stale copy changes nothing, and nothing new is reported after it |
| Limits.RepairCompletes | controllers/member_controller.go:277-298 | a reconcile clears the mark if and only if pod and volume are gone and the URL is not listed without a name |
| Limits.LostStatusWrite | controllers/member_controller.go:232-241 | after a status write that fails without a conflict a pod has a volume if and only if Recreating was stored before or a certificate is missing; the pod without one bootstraps a new cluster |
| Limits.LostMarkWrite | controllers/member_controller.go:238-241 | after a failed write of the mark the member stays marked without a pod, and has a volume claim if and only if its certificates are issued |
| LostRepairs.NeverFinished | controllers/member_controller.go:277-298 | a marked member without a pod whose URL is listed without a name stays so, and nobody else is marked, in every state of every interleaved run |
| LostRepairs.RepairCanFinish | controllers/member_controller.go:219-299 | some interleaved run takes the mark away if and only if the member has a pod or its URL is not listed without a name |
| Images.ImageBreaksExactly | controllers/cluster_controller.go:255-264 | in every interleaved run a step puts a true pod at odds with its member's promise if and only if it makes a pod of another version than the stored member promises, or changes the version of a member with a pod that is not Running |
| Images.ReplacedNext | controllers/member_controller.go:91-100 | the next reconcile of a member that is stored as Running at another version than it asks for deletes the pod and reports nothing new |
| Images.WrongImageReported | controllers/member_controller.go:171-181 | the next reconcile of a member that is not Running and has a ready pod reports the desired version whatever the pod runs |
| Startup.ComesUp | controllers/member_controller.go:55-102 | explicit acts take every newly admitted cluster to one whose members all serve |
| Startup.EveryMemberServes | api/v1alpha1/member_types.go:214-244 | afterwards every member is Running at the version with one ready container of it, bootstrapped, and restored iff there is a backup |
| Witnesses.ReportedUnrolled | controllers/cluster_controller.go:97-109 | a failure, an edit and a repair leave every member Running at the old version with the new one reported |
| Witnesses.OverlapReached | controllers/cluster_controller.go:266-275 | a healthy cluster at rest with two unnoticed renewals is reached |
| Witnesses.NoticedOverlapReached | controllers/member_controller.go:197-214 | one with two renewals that are noticed, but of one certificate only, is reached |
| Witnesses.MakesBeforeReport | controllers/member_controller.go:91-100 | the first failing call of version truth is reached in an ordinary update |
| Witnesses.BumpsAfterFailure | controllers/cluster_controller.go:251-264 | the second is reached with no worker lost |
| Witnesses.WrongImageReached | controllers/member_controller.go:178-181 | a Running member that reports the version and runs the old image is reached |
| Witnesses.LostAfterAdd | controllers/member_controller.go:290-298 | the state in which no repair can go on is reached |
| Witnesses.LosesStatusWrite | controllers/member_controller.go:232-241 | the failing status write that makes a pod without a volume is reached |
| Backups.KeyInjective | controllers/backup_controller.go:96 | different backup names have different object keys |
| Backups.ScheduleReconciler.Reconcile | controllers/backupschedule_controller.go:67-104 | the loop and the decision: create exactly when nothing is in progress and the period since the latest finish is over |
| Backups.ScheduleReconciler.Create | controllers/backupschedule_controller.go:106-117 | creates the backup unless its name is taken |
| Backups.BackupReconciler.Reconcile | controllers/backup_controller.go:59-87 | the imperative reconcile is the composed function, with its error exits |
| Backups.BackupReconciler.UploadBackup | controllers/backup_controller.go:89-109 | stores the object and records time and place, or changes nothing |
| BackupLaws.CreatesWhenDue | controllers/backupschedule_controller.go:78-117 | a reconcile creates exactly one backup, unfinished, created now, with the schedule's retention, iff every existing one is finished and the period since is over and the name is free |
| BackupLaws.Uploads | controllers/backup_controller.go:89-109 | within retention an unfinished backup with a stored snapshot is finished now with that location and its object is there |
| BackupLaws.Keeps | controllers/backup_controller.go:143-145 | within retention a finished backup, or one without a cluster, is left alone |
| BackupLaws.FailedUpload | controllers/backup_controller.go:74-78 | a failed upload changes nothing |
| BackupLaws.Removes | controllers/backup_controller.go:143-157 | past retention a reconcile without an upload error removes exactly the backup and its object |
| BackupLaws.KeptWithinRetention | controllers/backup_controller.go:143-157 | in every run without user deletes a step takes a backup or its object only past its retention |
| BackupLaws.FirstBackup | controllers/backup_controller.go:94-108 | a new schedule has a run that ends with a finished backup and its object |
| BackupRuns.CoexistingSpaced | controllers/backupschedule_controller.go:78-103 | any two existing backups of the schedule were created more than the period apart, and at most one is unfinished |
| BackupRuns.RetentionBound | controllers/backupschedule_controller.go:95-97 | m >= 2 backups of a schedule with created + retention >= now satisfy (m - 1) * period < retention |
| BackupRuns.BackupsAndObjects | controllers/backup_controller.go:74-108 | without user deletes every object has its Backup and every finished unexpired Backup its object, at every call |
| BackupRuns.ScheduleAlone | controllers/backupschedule_controller.go:67-117 | a look and a create with nothing in between are the scheduler's reconcile |
| BackupRuns.BackupAlone | controllers/backup_controller.go:59-87 | the calls of a backup worker with nothing in between compute the whole reconcile |

## Left out

- MemberController.MemberReconciler.RepairMember: lets the two writes of a repair fail on conflicts only, where the source goes on after any failure; `Limits.LostStatusWrite` says exactly when the failing status write does harm.
- Repairs.ClearedWhenListed: holds under that assumption; a status write that fails without a conflict clears the mark of a member that is still Failed.
- Repairs.OneWithoutData: holds under that assumption; after such a write a Failed member has no mark and no volume.
- Repairs.RepairedRejoins: holds under that assumption; the source breaks it in the case of `Limits.LostStatusWrite`, which `Witnesses.LosesStatusWrite` reaches.
- Rotation.OneRequest: says nothing of the phase of lower members, because in an interleaved run a member that was read as not Updating may have become so since (`AtomicRuns.RequestsInOrder` has it for whole reconciles).
- AtomicRuns.VersionTruth: is about whole reconciles; of the single calls of interleaved runs exactly the two of `Images.ImageBreaksExactly` break it.
- AtomicRuns.LongestFailedIsRepaired: is about whole reconciles; in interleaved runs `Repairs.QuorumAtRepair` states the choice over the members as read.
- Nothing comes between the two certificates of EnsureCertificates or the reads of CheckCertificateExpires in the interleaved runs, because no other worker touches these objects; the second can fail alone (`MemberHalf`).
- Stale caches, sub-second time stamps and the narrowing of counters to machine integers.
- Backup schedule, service and certificate authority of a cluster: one flag says whether these steps let the reconcile go on.
- Deletion of a cluster, its finalizer and the cleanup of secrets.
- The etcd, S3 and TLS clients: etcd is its membership list, S3 a set of keys; the key is taken as path, slash and name.
- Raft and etcd's data: a quorum is counted over members only.
- Pod, volume and certificate specs beyond image version, initial cluster state, restore container and claim.
- Requeue delays and error values: a stage either goes on or ends the reconcile.
- Command line client, manager set-up and generated code.
