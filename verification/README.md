# Verified model of the sds-object controller

This project models the parts of the sds-object controller whose correctness spans several
functions, passes or objects, and proves properties of the model with Dafny 4.11. Check it with
`dafny verify dfyconfig.toml`.

| module | what it models |
|---|---|
| `Decimal`, `GarageConfig` | Go's decimal conversions; garage.toml, the pattern that reads the factor back, the pinned factor and incarnation |
| `Digest`, `GoStrings`, `Remote`, `Sets`, `Wrappers` | digest shape, Go's strings, call outcomes, counting facts and result types shared by the modules |
| `Naming` | names and on-node directories of the System pool volumes |
| `DataPlane` | EnsureCluster and the teardown of the System data plane as a small-step machine with crashes, interleaved with the rest of the cluster |
| `Rebalance` | the placement decision |
| `PlacementPass` | the placement pass over PVCs, volumes and pods, and how it follows the machine below |
| `PlacementRuns`, `PlacementSafety`, `PlacementProgress` | rebalancing as a machine whose recycles can be cut short between their two deletes; what it does to the copies; that it ends at the target |
| `LocalVolumes` | the static volume pool and its collection |
| `Layout`, `NodeIdentity` | Garage layout changes; captured node identities and why they keep the layout still |
| `Credentials`, `CredentialSafety`, `CredentialAgreement`, `CredentialRecords` | the BucketAccess reconciler and the Garage access driver as one transaction with partial failure; its runs: orphaned keys, agreement of Secret and status, rotations and the release of the finalizer |
| `ProtoWire`, `FilerEntry` | the protobuf wire format; the field scan, the quota rewrite and the identity files of SeaweedFS |
| `TomlString` | the TOML string escaper against a lexer for basic strings |
| `BucketName` | greenfield bucket names and the DNS label sanitiser |
| `BucketPolicy` | the bucket policy document and its in-place edits |
| `Stages` | the stage-condition machine behind every status |

How the model is built:

- Code that changes state step by step is a method or a class proved against a specification
  function; the properties are lemmas about that function and about runs of it. Pure code is
  functions.
- A remote call is an abstract operation that succeeds or fails; its outcome is a parameter (`Calls`,
  `View`, the `...Ok` flags) or a choice of the run. A call that changes something may also be lost: it
  takes effect and is reported as a failure (`Outcome`; `took` and `answered` for the filer).
- Reads are linearizable, control-plane hostnames are distinct, the history is one ObjectStore
  lifetime, and a PVC outlives the pod that mounts it. In `DataPlane`, users may delete every object
  but the pinned ConfigMap; `DataPlane.LostConfigMapHistory` shows what its loss does.
- A Go string is what a range loop over it sees: characters, and bytes that belong to none. Lower-casing
  is any mapping of single characters.
- The SHA-256 digest is a parameter: any function into ten hexadecimal characters, without
  collisions on the strings in play where distinctness is claimed.
- Go's 32- and 64-bit integers are written out where they can wrap or truncate (`ToInt32`, `Atoi`,
  `ToUint64`); lengths of in-memory lists are not.
- `protowire` is not part of the repository; it is modelled from the Protocol Buffers encoding
  specification ("Base 128 Varints", "Message Structure", "Last One Wins").

Where the code does not meet what its comments or its purpose promise, the code is modelled as it
is and the exact condition is proved:

- Consolidation is said to move only copies whose node is gone
  (images/controller/internal/backend/garage/rebalance.go:57-59). A node that lost its control-plane role but still
  answers refutes it: `PlacementSafety.ConsolidationCanDropTheLastCopy` is a history from a fully synced store
  to a store without a copy.
- A recycle is two deletes, and one cut short in between leaves a PVC marked under a live pod that no later
  pass looks for. If the topology then changes, two copies can be lost to spreading
  (`CutShortRecycleCanRiskTwoCopies`) and the surviving copy to consolidation
  (`CutShortRecycleCanLoseTheAnchor`). The exact conditions, all over the state before the run:
  `PlacementSafety.SpreadSafeIff` for at most one copy at risk, `ConsolidationKeepsTheAnchorIff` for a copy on
  the surviving node, and `KeepsACopyIff` for never losing the last copy, in every mode, while the topology
  stands still. If it only changes while nothing is marked, the promises hold over whole runs
  (`SpreadKeepsAllButOneCopy`, `NoControlPlaneNodeIsEmptied`).
- A pass can strand a backend key. `CredentialSafety.PassOrphansIff` lists the cases exactly: a creation
  whose answer is lost, a failed rollback, an unconfirmed revoke of the superseded key, a failed status
  write after a mint, and a revocation skipped because the claim vanished, Bucket, store or driver do not
  resolve, or the store has no admin token. `CredentialSafety.FailedRevokeStrandsAKey` is a history of three
  steps from a new access.
- Secret and status can part: `CredentialAgreement.PassConsistentIff` says exactly when they agree after a
  pass, from any state before it. A flawless pass always ends Ready, and by
  `CredentialAgreement.ReadyPassConsistentIff` it agrees exactly when it mints or the Secret already holds
  the recorded key's secret. Two failures lead to a Ready access that fails that test: a key that vanished
  (`RemintThenLostSecretWrite`) and a rotation annotation that is set back
  (`RotationUndoneAfterLostSecretWrite`).
- The incarnation is a 32-bit counter; after the last value it names the first incarnation's directories
  again: `DataPlane.WrappedCounterReusesFirstDirectories`. The next incarnation's directories are new exactly
  while the counter is below that value: `DataPlane.NextDirectoriesAreNewIff`.
- One pool pass does not recreate a wanted volume it has just collected; `LocalVolumes.TwoPassesSettle`
  says exactly when one pass is enough.

## Model

| member | source | states |
|---|---|---|
| GarageConfig.ClampRF | images/controller/internal/backend/garage/resources.go:200-209 | the factor is at least 1, and never above intent or node count while both are positive |
| GarageConfig.InitialFactorIs | images/controller/internal/backend/garage/resources.go:185-209 | by kind, redundancy and node count: a System store has one replica or three and that factor, elsewhere the factor is what the redundancy asks for or the node count if smaller |
| GarageConfig.MatchHereIff | images/controller/internal/backend/garage/resources.go:211-214 | the factor pattern matches exactly the texts of its shape, whatever the white space, and captures the whole digit run |
| GarageConfig.FindFactorIff | images/controller/internal/backend/garage/resources.go:214-232 | the search returns the leftmost match at the start of a line, and nothing else |
| GarageConfig.FactorRoundTrip | images/controller/internal/backend/garage/resources.go:214-232 | reading the factor out of a rendered garage.toml returns it, for every 32-bit factor from 1 |
| GarageConfig.FactorOfNumber | images/controller/internal/backend/garage/resources.go:223-232 | the factor found reads as its value within 32 bits, and as absent when it is zero or longer than 64 bits can hold |
| GarageConfig.IncarnationRoundTrip | images/controller/internal/backend/garage/resources.go:234-248 | the incarnation key round-trips from 1 on; a missing key or a counter below 1 reads back as 1 |
| GarageConfig.UnreadableIncarnation | images/controller/internal/backend/garage/resources.go:243-246 | a key with anything but digits after its first character reads as incarnation 1 |
| GarageConfig.PinRoundTrip | images/controller/internal/backend/garage/garage.go:220-239 | what one pass wrote is what the next pins, whatever the settings have become |
| GarageConfig.FactorSurvivesEdits | images/controller/internal/backend/garage/garage.go:207-239 | no run of settings edits and crashes changes a pinned non-System ConfigMap |
| GarageConfig.FactorPinnedForLife | images/controller/internal/backend/garage/garage.go:207-248 | from an uninitialised cluster the first pass that writes fixes the factor for good, between 1 and the replica count of that moment |
| Naming.NamesAre | images/controller/internal/backend/garage/resources.go:671-687 | the first incarnation keeps the names and directories without a counter, later ones carry it |
| Naming.VolumeNamesInjective | images/controller/internal/backend/garage/resources.go:666-676 | pool volume names differ for different node, incarnation or slot |
| Naming.VolumePathsInjective | images/controller/internal/backend/garage/resources.go:678-687 | no two slots of any incarnations share an on-node directory |
| DataPlane.RunKeepsInv | images/controller/internal/backend/garage/garage.go:103-178 | every interleaving of pass steps, crashes and foreign steps keeps the invariant tying ConfigMap, volumes, PVCs and pods to the current incarnation |
| DataPlane.OneFactorPerDirectory | images/controller/internal/backend/garage/garage.go:103-135 | over any run, in which the ConfigMap is never deleted, two pod starts on the same directory read the same replication factor |
| DataPlane.LostConfigMapReusesDirectories | images/controller/internal/backend/garage/garage.go:220-229 | without the ConfigMap a pass pins the factor of the moment at the first incarnation over whatever is there, and a replica that restarts serves its directory under it |
| DataPlane.LostConfigMapHistory | images/controller/internal/backend/garage/garage.go:220-239 | a history from an empty cluster in which a deleted ConfigMap makes one directory serve two factors |
| DataPlane.IdentitiesStayInTheirIncarnation | images/controller/internal/backend/garage/recreate.go:87-98 | over any run every pod boots under a node key made by its directory's own incarnation, and the Secret holds keys of the current one only |
| DataPlane.PassStoresKey | images/controller/internal/backend/garage/identity.go:74-118 | a capture over a started replica stores the key of its directory unless one is stored, and keeps all others |
| DataPlane.WrappedCounterReusesFirstDirectories | images/controller/internal/backend/garage/garage.go:124 | past the last 32-bit incarnation the first one's directories come back, so the counter condition is needed |
| DataPlane.NextDirectoriesAreNewIff | images/controller/internal/backend/garage/resources.go:678-687 | the directories of the next incarnation coincide with none before exactly while the counter has not reached its last value |
| DataPlane.PinChangesOnlyOverNothing | images/controller/internal/backend/garage/garage.go:108-135 | the pinned pair changes only when no workload, PVC, pod, identity or volume is left, and incarnation and factor then change together, the former by one |
| DataPlane.TeardownOnlyRemoves | images/controller/internal/backend/garage/recreate.go:37-49 | an unfinished teardown creates nothing, each finalised object lowers the remaining count by one, and it ends only in a pass that found nothing |
| DataPlane.EveryTeardownCanFinish | images/controller/internal/backend/garage/recreate.go:37-44 | every teardown that any run starts has a continuation to an empty data plane, with the wanted factor about to be pinned at the next incarnation |
| DataPlane.SwitchCanComplete | images/controller/internal/backend/garage/garage.go:108-135 | from every reachable state, whatever crashed, settings that ask for another factor can be brought to that factor, pinned at the next incarnation over nothing |
| DataPlane.DataPlaneObjects.Teardown | images/controller/internal/backend/garage/recreate.go:53-122 | one pass marks every object, counts exactly what was there, and reports done just when nothing was |
| DataPlane.DataPlaneObjects.DeleteClaims | images/controller/internal/backend/garage/recreate.go:71-83 | every listed PVC ends marked and is counted once |
| DataPlane.DataPlaneObjects.DeleteVolumes | images/controller/internal/backend/garage/recreate.go:102-114 | every listed pool volume ends marked and is counted once |
| DataPlane.DataPlaneObjects.DeleteClaimIfNotDeleting | images/controller/internal/backend/garage/recreate.go:124-135 | the object ends up terminating whether or not it already was |
| DataPlane.TeardownPassIsARun | images/controller/internal/backend/garage/recreate.go:53-122 | the uninterrupted method is one of the machine's controller runs and decides the same way how to go on |
| Rebalance.NextPlacementAction | images/controller/internal/backend/garage/rebalance.go:64-111 | an action is chosen just when some replica is misplaced under the topology rules, and then the first one, with its reason |
| Rebalance.CountPerNode | images/controller/internal/backend/garage/rebalance.go:75-80 | the counter map holds, for each control-plane node, how many replicas it has |
| PlacementRuns.NothingMovesInBetween | images/controller/internal/backend/garage/rebalance.go:107-110 | with no control-plane node, or more than one but fewer than replicas, no replica is ever chosen |
| PlacementPass.Placement.SystemReplicaNodes | images/controller/internal/backend/garage/rebalance.go:161-189 | each ordinal maps to a node exactly when its PVC is bound to a volume with that node label, and to nothing when PVC, binding or volume is missing |
| PlacementPass.Placement.RecycleReplica | images/controller/internal/backend/garage/rebalance.go:197-213 | PVC and then pod are deleted, the PVC staying until its pod is gone; a failed PVC delete leaves the pod alone |
| PlacementPass.RecycleTakesEffect | images/controller/internal/backend/garage/rebalance.go:161-213 | while the pod lives every replica reads back as before, so the same topology gives the same choice; a completed recycle leaves that pod and no other terminating; with it gone the replica is unbound exactly when its PVC delete succeeded; no other replica's node changes |
| PlacementPass.Placement.ReconcileSystemPlacement | images/controller/internal/backend/garage/rebalance.go:119-155 | at most one replica, the first misplaced one, is recycled; a single-replica store never is; failures are reported exactly when a read or a delete failed; over objects that show a world of the copy-safety machine, the replica is the machine's choice and the objects then show the world after its event |
| PlacementPass.PodEndShows | images/controller/internal/backend/garage/rebalance.go:191-196 | the end of a marked replica's pod takes its PVC along, which is the machine's event |
| PlacementSafety.RecycleEmptiesNoControlPlaneNode | images/controller/internal/backend/garage/rebalance.go:64-111 | no recycle in either mode empties a control-plane node that held a replica |
| PlacementSafety.NoControlPlaneNodeIsEmptied | images/controller/internal/backend/garage/rebalance.go:64-213 | over whole runs with recycles cut short anywhere, no event does, as long as the topology changes only while nothing is marked |
| PlacementSafety.SpreadKeepsAllButOneCopy | images/controller/internal/backend/garage/rebalance.go:47-53 | while there is a control-plane node per replica, no run has more than one copy incomplete or about to go, recycles cut short included, as long as the topology changes only while nothing is marked |
| PlacementSafety.SpreadMoveRiskIff | images/controller/internal/backend/garage/rebalance.go:71-93 | a spreading delete leaves at most one copy at risk exactly when no other PVC was marked |
| PlacementSafety.SpreadSafeIff | images/controller/internal/backend/garage/rebalance.go:47-93 | every run over a standing topology keeps it at one copy exactly when at most one is at risk and, if its PVC is marked, no other replica is wanted |
| PlacementSafety.CutShortRecycleCanRiskTwoCopies | images/controller/internal/backend/garage/rebalance.go:197-213 | a recycle cut short, then a change of nodes: two copies incomplete although there was a control-plane node per replica throughout |
| PlacementSafety.ConsolidationKeepsTheAnchorIff | images/controller/internal/backend/garage/rebalance.go:54-59 | a complete copy on the surviving node stays there and complete, for as long as that node is the only one, exactly when its PVC is not already marked |
| PlacementSafety.KeepsACopyIff | images/controller/internal/backend/garage/rebalance.go:47-213 | every run over a standing topology, wherever recycles are cut short, keeps a complete copy within reach exactly when one is now within reach and unmarked, on the surviving node if consolidating, and not both the last unmarked and the next wanted replica |
| PlacementSafety.AnchoredWithoutMarks | images/controller/internal/backend/garage/rebalance.go:47-59 | with nothing marked, that condition is a complete copy within reach and, if consolidating, one on the surviving node |
| PlacementSafety.CutShortRecycleCanLoseTheAnchor | images/controller/internal/backend/garage/rebalance.go:197-213 | a recycle cut short under a node that then becomes the only one: its copy goes while the topology stands still |
| PlacementSafety.ConsolidationCanDropTheLastCopy | images/controller/internal/backend/garage/rebalance.go:57-59 | a history from a fully synced spreading store, through a node that lost its label but still answers, to the recycle of the last complete copy |
| PlacementProgress.SpreadRoundDropsExcess | images/controller/internal/backend/garage/rebalance.go:71-93 | a completed spread move lowers replicas minus occupied control-plane nodes by exactly one |
| PlacementProgress.SpreadStopsIff | images/controller/internal/backend/garage/rebalance.go:71-93 | a healthy store takes no action exactly when placement is one replica per control-plane node |
| PlacementProgress.SpreadCanContinue | images/controller/internal/backend/garage/rebalance.go:71-93 | short of the target, with the control-plane nodes up, another round is possible |
| PlacementProgress.SpreadRoundIsARun | images/controller/internal/backend/garage/rebalance.go:191-213 | a round is a PVC delete, the end of the pod, a rebind and a resync of the machine the copy-safety results are about |
| PlacementProgress.SpreadCanFinish | images/controller/internal/backend/garage/rebalance.go:64-111 | with the control-plane nodes up, four events per replica in excess lead a healthy store to the target |
| PlacementProgress.SpreadRunReachesTarget | images/controller/internal/backend/garage/rebalance.go:64-111 | every spreading run reaches the target after exactly its excess many moves, whichever empty nodes are picked |
| PlacementProgress.ConsolidateRoundDropsOne | images/controller/internal/backend/garage/rebalance.go:95-106 | a completed consolidation move brings exactly one replica home |
| PlacementProgress.ConsolidateRoundIsARun | images/controller/internal/backend/garage/rebalance.go:191-213 | a consolidation round is a PVC delete, the end of the pod and a rebind of that machine |
| PlacementProgress.ConsolidateRunReachesTarget | images/controller/internal/backend/garage/rebalance.go:95-106 | a consolidating run is stuck exactly when no replica is elsewhere, one move per replica |
| LocalVolumes.DesiredSystemLocalVolumes | images/controller/internal/backend/garage/local_pv.go:130-143 | the nested loops produce the full pool in order |
| LocalVolumes.DesiredVolumesAre | images/controller/internal/backend/garage/local_pv.go:130-143 | the full pool has a volume for every slot of every hostname and nothing else |
| LocalVolumes.Pool.EnsureSystemLocalVolumes | images/controller/internal/backend/garage/local_pv.go:44-78 | a pass that succeeds creates the missing wanted volumes and removes the stale listed ones; one cut short by a failed call has done part of that and nothing else |
| LocalVolumes.Pool.GcSystemLocalVolumes | images/controller/internal/backend/garage/local_pv.go:88-107 | exactly the stale volumes of the listing are deleted, or some of them when a delete fails; which these are is the next row |
| LocalVolumes.StaleIff | images/controller/internal/backend/garage/local_pv.go:93-101 | stale are all Released volumes, whatever their name, and the Available ones whose node label is no hostname or whose name is no slot's |
| LocalVolumes.PassLeaves | images/controller/internal/backend/garage/local_pv.go:88-107 | a complete pass drops exactly these of the pool, and leaves no Released volume and Available ones only for slots on nodes that are there |
| LocalVolumes.BoundVolumesSurvive | images/controller/internal/backend/garage/local_pv.go:80-87 | no sequence of passes, complete or cut short, touches a volume it lists as Bound |
| LocalVolumes.BoundSinceListingIff | images/controller/internal/backend/garage/local_pv.go:88-107 | a volume Bound by the time of the deletes goes exactly when it was stale in the listing: listed Released, or Available off the live nodes or unwanted |
| LocalVolumes.WantedGoesOnlyWhenReleased | images/controller/internal/backend/garage/local_pv.go:93-105 | a wanted volume is deleted exactly when it is Released |
| LocalVolumes.PassKeepsLabels | images/controller/internal/backend/garage/local_pv.go:55-75 | a pass, complete or cut short, keeps every volume bearing a slot's name pinned to that slot's node |
| LocalVolumes.FixedPointIffSettled | images/controller/internal/backend/garage/local_pv.go:44-107 | a pass changes nothing exactly when every slot has its volume, none is Released, and every Available one is a slot's on a node that is there |
| LocalVolumes.TwoPassesSettle | images/controller/internal/backend/garage/local_pv.go:44-107 | two passes settle any pool; one does exactly when no slot's volume was Released, or Available under a node label that is no hostname |
| LocalVolumes.SettledStays | images/controller/internal/backend/garage/local_pv.go:38-43 | a settled pool stays as it is |
| Layout.LayoutRoleChanges | images/controller/internal/backend/garage/mesh.go:176-203 | the changes are an assignment, in zone dc1 with the given capacity, for each live peer without a role and, with a full complement live, a removal for each dead role |
| Layout.LayoutConverges | images/controller/internal/backend/garage/mesh.go:160-203 | applying them makes the roles the live peers, or old roles plus live peers before the full complement; recomputing gives nothing |
| NodeIdentity.DataKeysDistinct | images/controller/internal/backend/garage/identity.go:46-51 | the Secret's keys of different ordinals and halves never coincide |
| NodeIdentity.PodOrdinalOfReplica | images/controller/internal/backend/garage/identity.go:53-65 | every pod name the StatefulSet gives a replica yields its ordinal |
| NodeIdentity.PodOrdinalIff | images/controller/internal/backend/garage/identity.go:53-65 | an ordinal is read exactly out of names that end in a dash and a number from 0, truncated to 32 bits |
| NodeIdentity.IdentitySecret.StoreNodeIdentities | images/controller/internal/backend/garage/identity.go:156-179 | absent or empty keys are filled, present ones kept |
| NodeIdentity.IdentitySecret.CaptureNodeIdentities | images/controller/internal/backend/garage/identity.go:89-112 | exactly the readable, not yet captured pods' pairs are collected |
| NodeIdentity.IdentitySecret.EnsureNodeIdentities | images/controller/internal/backend/garage/identity.go:74-118 | one pass merges such a capture and touches nothing else |
| NodeIdentity.CaptureTakesIff | images/controller/internal/backend/garage/identity.go:89-112 | a capture takes both files, as they are, of exactly the pods whose files are of 64 and 32 bytes and whose stored pair is not |
| NodeIdentity.CaptureStores | images/controller/internal/backend/garage/identity.go:74-118 | after a capture every replica that runs and answers has its identity stored: the key it runs under, if it was not stored before |
| NodeIdentity.StoredIdentityIsForever | images/controller/internal/backend/garage/identity.go:67-118 | a stored identity survives every run of boots, stops, captures and layout passes |
| NodeIdentity.EstablishedLayoutNeedsNothing | images/controller/internal/backend/garage/mesh.go:166-203 | with all ordinals captured and assigned, any discovered subset of peers yields no change |
| NodeIdentity.OnePassEstablishes | images/controller/internal/backend/garage/mesh.go:160-203 | from any Secret and layout, once all replicas run and answer, one capture pass and one layout pass store every identity and put exactly these in the layout |
| NodeIdentity.StableIdentityFixesLayout | images/controller/internal/backend/garage/resources.go:487-507 | from then on every layout pass of every run of recycles and restarts computes the empty change set |
| Credentials.AccessReconciler.EnsureAccess | images/controller/internal/backend/garage/access.go:34-97 | mint, grant, rollback and revoke change backend keys and answer as specified for every combination of failures |
| CredentialRecords.DriverAnswers | images/controller/internal/backend/garage/access.go:34-97 | exactly when the driver answers with a key, waits or fails, by which calls fail and whether it mints, and with which key |
| Credentials.AccessReconciler.DeleteAccess | images/controller/internal/backend/garage/access.go:101-120 | the recorded key is revoked, or the call fails, or it is skipped when nothing is recorded or the store has no admin token |
| Credentials.AccessReconciler.EnsureCredentialsSecret | images/controller/internal/controller/bucket_access_controller.go:478-531 | the Secret gets the fresh pair, or the reused id with the secret already stored |
| Credentials.AccessReconciler.UpdateStatus | images/controller/internal/controller/bucket_access_controller.go:598-654 | recorded fields are only ever overwritten by non-empty ones, except that a revocation clears them |
| Credentials.AccessReconciler.Withdraw | images/controller/internal/controller/bucket_access_controller.go:334-361 | a withdrawn binding or authorisation revokes, drops the Secret and clears the status, stopping at the first failure |
| Credentials.AccessReconciler.Vanished | images/controller/internal/controller/bucket_access_controller.go:266-278 | a vanished claim drops the Secret and clears the status without touching the backend |
| Credentials.AccessReconciler.Grant | images/controller/internal/controller/bucket_access_controller.go:371-408 | the decision to mint, the driver call, and recording its answer in Secret and status |
| Credentials.AccessReconciler.ReconcileNormal | images/controller/internal/controller/bucket_access_controller.go:261-408 | a whole pass changes backend, Secret and status as specified, for every view and every combination of failures |
| CredentialRecords.ViewDecides | images/controller/internal/controller/bucket_access_controller.go:281-332 | which reads lead on to the driver, to waiting for the bucket, and to the withdrawal |
| Credentials.AccessReconciler.ReconcileDelete | images/controller/internal/controller/bucket_access_controller.go:219-259 | the finalizer is released only after the revoke succeeded, or when there is nothing to revoke it with |
| CredentialRecords.PassRecords | images/controller/internal/controller/bucket_access_controller.go:598-654 | a pass leaves the recorded rotation and Secret reference alone and records at most the key it minted, or ends Ready with the rotation of the moment over a Secret with the recorded key, or clears everything together with the Secret |
| CredentialRecords.PassReadyIff | images/controller/internal/controller/bucket_access_controller.go:261-408 | exactly when an access is Ready after a pass, from the state before it and the call outcomes |
| CredentialRecords.RotationObservedOnlyWithItsKey | images/controller/internal/controller/bucket_access_controller.go:371-404 | whatever calls fail, a changed annotation is recorded as observed only with the key minted for it live, recorded and in the Secret, or with everything cleared |
| CredentialRecords.FlawlessPassServes | images/controller/internal/controller/bucket_access_controller.go:371-408 | a flawless pass over a usable access with a changed annotation mints for it, ends Ready and kills the previous key |
| CredentialRecords.PendingUntilSettled | images/controller/internal/controller/bucket_access_controller.go:371-404 | over any run with any failures, user edits of the Secret and lost keys, a changed annotation stays pending until a pass mints for it or clears the access |
| CredentialRecords.DeletionReleasesIff | images/controller/internal/controller/bucket_access_controller.go:219-259 | exactly when a deletion pass releases the finalizer, by what it reads and which calls fail |
| CredentialRecords.UndisturbedDeletionReleases | images/controller/internal/controller/bucket_access_controller.go:219-259 | an undisturbed deletion pass over a resolvable bucket lets an orphan-free access go and leaves no key |
| CredentialSafety.PassOrphansIff | images/controller/internal/controller/bucket_access_controller.go:261-408 | an orphan-free access has an orphan after a pass exactly in the listed failure cases |
| CredentialSafety.FailedRevokeStrandsAKey | images/controller/internal/backend/garage/access.go:84-90 | a new access is granted, rotated, and the revoke fails: two live keys, the old one recorded |
| CredentialSafety.NoOrphanKeys | images/controller/internal/controller/bucket_claim_controller.go:180-211 | under the fault model, live keys are at most the recorded one over any run of access, claim and user steps (Secret edits included), and none once the finalizer is released |
| CredentialSafety.PassKeepsSound | images/controller/internal/backend/garage/access.go:52-97 | live keys carry the secret they were issued with, and what is recorded was issued |
| CredentialAgreement.PassConsistentIff | images/controller/internal/controller/bucket_access_controller.go:478-531 | exactly when Secret and status agree after a pass, whether or not they did before, by what is minted, rewritten or dropped and which calls take effect |
| CredentialAgreement.ReadyPassConsistentIff | images/controller/internal/controller/bucket_access_controller.go:371-408 | a flawless pass ends Ready, and agrees exactly when it mints or the Secret already holds the recorded key's secret |
| CredentialAgreement.SecretAgreement | images/controller/internal/controller/bucket_access_controller.go:371-408 | while Secret and status writes take effect and nobody else edits the Secret, every Ready access has a Secret with the recorded id and the secret issued for it |
| CredentialAgreement.SecretAgreementUnderDeletion | images/controller/internal/controller/bucket_access_controller.go:371-384 | with users deleting the Secret at any time as well, a Secret that is there agrees with the recorded key |
| CredentialAgreement.ReadyPassLeavesLiveKey | images/controller/internal/controller/bucket_access_controller.go:386-408 | a pass that turns the access Ready leaves the recorded key live in the backend |
| CredentialAgreement.RemintThenLostSecretWrite | images/controller/internal/backend/garage/access.go:55-70 | a re-mint whose Secret write fails ends Ready over the new id, agreeing only if the old secret were the new one |
| CredentialAgreement.RotationUndoneAfterLostSecretWrite | images/controller/internal/controller/bucket_access_controller.go:373-384 | so does a rotation whose Secret write fails and whose annotation is then set back |
| CredentialAgreement.OutageKeepsCredentials | images/controller/internal/controller/bucket_access_controller.go:313-330 | any number of passes over an authorised but unready bucket leave keys, Secret and status credentials alone |
| CredentialAgreement.OutageThenSameKey | images/controller/internal/controller/bucket_access_controller.go:313-330 | the first healthy pass after an outage reuses the same key |
| CredentialAgreement.RotationMintsOnce | images/controller/internal/controller/bucket_access_controller.go:371-404 | an annotation change mints exactly one key over all later undisturbed passes and kills the previous one |
| CredentialAgreement.WithdrawalLeavesNothing | images/controller/internal/controller/bucket_access_controller.go:332-361 | a withdrawal with a resolvable backend ends with no key, no Secret, no recorded key and not Ready, and stays there |
| ProtoWire.VarintIsBase128 | images/controller/internal/backend/seaweedfs/quota.go:151-154 | a varint is seven bits a byte, least significant first, the high bit on all bytes but the last, and no byte too many |
| ProtoWire.VarintRoundTrip | images/controller/internal/backend/seaweedfs/quota.go:151-154 | every 64-bit value survives the varint round trip, whatever follows |
| ProtoWire.ReadsFit | images/controller/internal/backend/seaweedfs/quota.go:156-184 | whatever the bytes, a varint read fits 64 bits and a tag read has a field number of 31 bits from 1 |
| ProtoWire.FixedFieldsAreRecords | images/controller/internal/backend/seaweedfs/quota.go:156-184 | a tag of wire type 1 and eight bytes, or of type 5 and four bytes, are one fixed-width record |
| ProtoWire.GroupEndsAtItsTag | images/controller/internal/backend/seaweedfs/quota.go:156-184 | a group reaches to the end tag after its contents, and is one only if that has its own field number |
| ProtoWire.RecordsOfAppend | images/controller/internal/backend/seaweedfs/quota.go:35-41 | appending to a well-formed message appends to its records and disturbs none |
| ProtoWire.AppendedBytesField | images/controller/internal/backend/seaweedfs/quota.go:141-149 | a bytes field appended to a well-formed message adds exactly that record |
| ProtoWire.AppendedVarintField | images/controller/internal/backend/seaweedfs/quota.go:151-154 | a varint field appended to a well-formed message adds exactly that record |
| FilerEntry.LastBytesField | images/controller/internal/backend/seaweedfs/quota.go:156-184 | the scan ends on arbitrary bytes and returns the last length-delimited value before the first malformed record |
| FilerEntry.ScanAfterAppend | images/controller/internal/backend/seaweedfs/quota.go:141-184 | scanning after an append returns the appended string and leaves every other field's answer unchanged |
| FilerEntry.QuotaRewrite | images/controller/internal/backend/seaweedfs/quota.go:102-105 | a rewrite keeps every other record in order, its last field 11 is the new quota, and the exact 64-bit quota reads back |
| FilerEntry.QuotaRewritesReadBackLast | images/controller/internal/backend/seaweedfs/quota.go:38-41 | any number of rewrites reads back the last one and keeps all else |
| FilerEntry.BucketKeyIs | images/controller/internal/backend/seaweedfs/quota.go:81-93 | the bucket's directory is what the filer reports in its last field 5, or /buckets when that is missing or empty |
| FilerEntry.SetBucketQuota | images/controller/internal/backend/seaweedfs/quota.go:65-114 | the bucket's entry gains the quota alone, no other entry changes, an unknown bucket and a failure of any of the three calls are reported |
| FilerEntry.RequestRoundTrip | images/controller/internal/backend/seaweedfs/quota.go:107-109 | directory and entry of a request decode to what was put in |
| FilerEntry.IdentityRequestRoundTrip | images/controller/internal/backend/seaweedfs/iam.go:246-257 | the nested identity request decodes back to the exact name, attributes and payload |
| FilerEntry.LookupIdentityEntry | images/controller/internal/backend/seaweedfs/iam.go:193-205 | the lookup finds exactly the entry filed under the identities directory and name; a failed call is an error |
| FilerEntry.ReadIdentity | images/controller/internal/backend/seaweedfs/iam.go:207-238 | blank content reads as absent, content that is no identity is an error, anything else is the identity stored |
| FilerEntry.ReadAbsentIff | images/controller/internal/backend/seaweedfs/iam.go:207-238 | an identity is absent exactly without an entry, without content or with white space only; content that does not decode is an error |
| FilerEntry.WriteIdentity | images/controller/internal/backend/seaweedfs/iam.go:240-289 | only that identity file changes, and success is claimed exactly when every call succeeded and the identity reads back, also when an accepted write did not persist |
| TomlString.TomlBasicEscape | images/controller/internal/backend/seaweedfs/postgres.go:172-200 | the builder loop computes the escaped text the round trip below is about |
| TomlString.PlainTextStays | images/controller/internal/backend/seaweedfs/postgres.go:172-200 | text without quotes, backslashes and control characters is left as it is |
| TomlString.EscapeLength | images/controller/internal/backend/seaweedfs/postgres.go:175-197 | seven characters have the two-character form, the other control characters the six-character one, all others stand for themselves |
| TomlString.EscapeRoundTrip | images/controller/internal/backend/seaweedfs/postgres.go:168-200 | quote, escaped value and quote lex back to exactly the value and the untouched remainder |
| TomlString.EscapeRoundTripIff | images/controller/internal/backend/seaweedfs/postgres.go:168-200 | any Go string lexes back with the remainder untouched, and to itself exactly when it is valid UTF-8 |
| BucketName.SanitizeDNSLabel | images/controller/internal/controller/bucket_claim_controller.go:379-394 | the sanitiser loop computes the text the lemmas below are about |
| BucketName.KeptIff | images/controller/internal/controller/bucket_claim_controller.go:382-389 | the characters kept are the lower-case ASCII letters and digits |
| BucketName.SanitizedIsClean | images/controller/internal/controller/bucket_claim_controller.go:377-394 | only label characters, no dash at the ends, none doubled, and sanitising again changes nothing |
| BucketName.SanitizedIsWordsJoined | images/controller/internal/controller/bucket_claim_controller.go:377-394 | the runs of letters and digits of the lowered text survive, in order, joined by single dashes |
| BucketName.GreenfieldNameIsLabel | images/controller/internal/controller/bucket_claim_controller.go:361-375 | the name is a valid RFC 1123 label that keeps its sixteen characters of prefix and digest and is a prefix of the readable name |
| BucketName.GreenfieldNamesDiffer | images/controller/internal/controller/bucket_claim_controller.go:361-375 | two claims share a name only on a digest collision |
| BucketPolicy.Document.Upsert | images/controller/internal/backend/cephrgw/policy.go:121-143 | the first statement of the id is replaced or a new one appended, and true means the document changed |
| BucketPolicy.Document.Remove | images/controller/internal/backend/cephrgw/policy.go:146-159 | the in-place filter keeps the others in order, and true means the document changed |
| BucketPolicy.StatementEqual | images/controller/internal/backend/cephrgw/policy.go:174-178 | field-wise comparison is equality of statements |
| BucketPolicy.SlicesEqual | images/controller/internal/backend/cephrgw/policy.go:180-190 | the comparison loop is equality of slices |
| BucketPolicy.StatementGrantsIff | images/controller/internal/backend/cephrgw/policy.go:121-131 | evaluated as an IAM statement, it grants its user and nobody else exactly the given actions, on the bucket and everything below it |
| BucketPolicy.LookupAfterUpsert | images/controller/internal/backend/cephrgw/policy.go:119-143 | an upsert answers for its own id and changes no other id's answer |
| BucketPolicy.LookupAfterRemove | images/controller/internal/backend/cephrgw/policy.go:145-159 | a removal leaves nothing of its id and changes no other id's answer |
| BucketPolicy.UpsertKeepsOthers | images/controller/internal/backend/cephrgw/policy.go:27-30 | all statements of other ids stay, in order |
| BucketPolicy.UpsertInvertsAndRepeats | images/controller/internal/backend/cephrgw/policy.go:119-159 | remove undoes upsert on a document lacking the id; upsert is idempotent |
| BucketPolicy.DistinctEditsCommute | images/controller/internal/backend/cephrgw/policy.go:27-30 | edits for distinct ids commute as lookups by id |
| Stages.StatusBuilder.GateAfter | images/controller/internal/controller/shared.go:97-115 | every stage after the given one and the aggregate are written False |
| Stages.StatusBuilder.Advance | images/controller/internal/controller/shared.go:78-95 | a stage's outcome is written, the rest gated unless it is done, and only done proceeds |
| Stages.StatusBuilder.AggregateReady | images/controller/internal/controller/shared.go:162-171 | true exactly when the builder's last Ready condition is True |
| Stages.DerivePhase | images/controller/internal/controller/shared.go:117-143 | Error exactly when a False stage carries Error, Ready exactly when no stage is False, Pending exactly without conditions |
| Stages.StatusShape | images/controller/internal/controller/shared.go:67-115 | whatever was there before, a prefix of True stages, then one False with the reason and message of its own outcome, then all later ones and Ready False and waiting for it, or everything True |
| Stages.ShapeAgrees | images/controller/internal/controller/shared.go:67-143 | all stages True, Ready True and every outcome done are the same; a stage carries Error exactly when the first outcome not done is a failure, or blocked with that reason |
| Stages.ReconcileStatus | images/controller/internal/controller/shared.go:67-171 | over the outcomes: the phase is Error exactly when the first one not done failed, InProgress exactly when it only waits, Ready exactly when all are done; aggregate condition and requeue decision agree |

## Left out

- HTTP, gRPC, exec, object-storage clients and controller-runtime plumbing: each remote call is an abstract operation.
- Kubernetes object builders, services, probes, Helm, hooks, configuration, logging and generated copies: no logic beyond copying fields.
- JSON text of bucket policies: unknown fields are dropped on re-read, so only the five-field document is modelled.
- Namespace matching of BucketClaimPolicy: authorisation is an input (`Authorization`).
- Ceph user rotation, the SeaweedFS access driver above its files, and the admission webhooks.
- Layout capacity totals: a plain sum taken before the changes are applied.
- Condition transition times, endpoint, region and bucket name fields of Secret and status: copied, never decided on.
- JSON text of identities: an uninterpreted payload that starts like an object; the strict decoder is a parameter.
- Permissions of a backend key: a grant either succeeds or is reported as failed.
