# Verified model of the CSI-QSD image store

The QSD server keeps copy-on-write qcow2 images for Kubernetes volumes. Each image may be stacked on a
backing image; the server counts how many images build on each one, remembers which volume or snapshot
still asks for an image by name, and knows for every live volume the active layer the guest writes to.
Volumes and snapshots are created by stacking images and deleted by dropping names; images that nobody
names and nothing builds on are cleaned up along the backing chain. The CSI controller keeps two maps of
its own on top of this.

The project models that store, the block graph of the storage daemon it drives, the controller over it,
the tree view of the client and the annotation store for metadata, and proves:

- **Consistency under every refusal.** Whatever the host, qemu-img or the daemon refuses, the reference
  counts are exact, the depths are right, names do not clash in spite of being cut to eight characters,
  and the daemon's backing edges are those of the records. The one thing that breaks this is a node that
  was deleted and whose file could then not be removed, and it always does. Commands that take effect
  while their answer is lost are a different matter; which of them break consistency is proved exactly.
- **Exact reclamation.** The recursive clean-up removes exactly the longest run of unnamed, otherwise
  unused images at the front of the chain, up to the first image whose deletion is refused, and reports
  a failure if and only if there is such an image in that run.
- **Exact leaks.** Whatever is refused, a call leaks exactly two kinds of images: the active layer of the
  volume it deletes, if that layer was already released and has no child, and the image at which its
  clean-up is cut short. A run that leaks nothing on the way gives everything back: images, nodes, files
  and exports, and this holds for runs of the controller and its server together.
- **Active layers.** Every live volume keeps its base below its active layer; active layers are safe
  exactly as long as no active snapshot is deleted, and a volume loses a layer that was given up exactly
  when the clean-up of a call takes it.
- **Guests and views.** What a guest writes is seen by exactly the images with its layer on their chain.
  A snapshot freezes the layer below it if and only if the guest is taken along and no other guest writes
  there; a frozen image reads the same for ever, over all runs of calls and guest writes that attach no
  guest to it anew and write over no recorded file. No call changes
  what a surviving image reads, with an exact exception: a creation whose cut name is taken writes over
  the file of the image that has it. New layers read what is below them.
- **Two layers agree.** Controller and server agree over all runs, with calls and answers lost anywhere,
  and it is known exactly which requests lose a snapshot, lose a volume, take a volume's exporter or wipe
  an image, and what the controller can still do afterwards.
- **Exact answers.** For every call of the server and every request to the controller it is proved when it
  succeeds and, for the server, which error it reports otherwise; sizes stay as first asked for.
- **Round trips.** The printed tree is the forest again, and metadata reads back as it was written.

## Layout

The code that updates state in place is modelled in place: `VolumeManager.dfy`, `Server.dfy`,
`Driver.dfy`, the loops of `TreeList.dfy` and the server class of `Metadata.dfy`. Every method there is
proved equal to a function on whole states (`BlockGraph.dfy`, `Store.dfy`, `Controller.dfy`), and the
properties are proved of those functions. What the outside world answers during a call is an argument of
the call (`Faults`, `Conditions`), so a property proved for all arguments holds for every environment.

| file | content |
|---|---|
| `Names.dfy` | IDs, cut node names, file paths |
| `Forest.dfy` | records, chains, counts, depths |
| `BlockGraph.dfy`, `VolumeManager.dfy` | daemon commands and their client |
| `Store.dfy`, `Server.dfy` | the server's calls, as functions and as code |
| `Consistency.dfy`, `Preservation.dfy`, `Books.dfy` | the invariant and its preservation |
| `Reclamation.dfy`, `Leaks.dfy`, `Leftovers.dfy` | clean-up, leaks, full reclamation |
| `Layers.dfy`, `Runs.dfy`, `Effects.dfy` | active layers, whole runs, effects of calls |
| `Views.dfy`, `GuestWrites.dfy` | what images read, and what guests write |
| `Controller.dfy`, `Driver.dfy` | the controller, as functions and as code |
| `ServerReplies.dfy`, `Replies.dfy` | what server and controller answer, and when |
| `ControllerRuns.dfy` | runs of controller and server: agreement, repetition, loss, reclamation |
| `Scenarios.dfy` | short runs from the empty system that show the disagreements below |
| `Listing.dfy`, `TreeList.dfy` | the image list and the tree built from it |
| `Metadata.dfy` | labels and annotations |

## Where code and comments disagree

- `pkg/driver/controller.go:28-29` calls `CreateVolume` idempotent. It is not: every repetition fails on
  the live node name until the volume is deleted (`ControllerRuns.RepeatedCreateVolumeFails`,
  `Scenarios.CreateVolumeTwice`).
- A repetition can also destroy: asking again for a live volume that is a clone writes a fresh overlay over
  its file unless qemu-img or the host refuses (`ControllerRuns.RepeatedCloneWipes`, `Scenarios.WipingRun`),
  and so does asking again for a snapshot whose answer was lost (`ControllerRuns.RetriedSnapshotWipes`).
- A `DeleteSnapshot` that replies with an error can have deleted the snapshot all the same. This happens
  if and only if the snapshot's image is removed at once and an image of the run its clean-up takes is
  refused (`Effects.FailedDeletionLosesSnapshot`, `ControllerRuns.DeletionLosesSnapshot`). The controller
  then keeps the snapshot and can never delete it, short of a volume being created under its name
  (`ControllerRuns.LostSnapshotStaysKnown`, `Scenarios.LosingRun`).
- `pkg/driver/controller.go:136` calls `DeleteVolume` idempotent. One that replies with an error can have
  ended the volume (`Effects.FailedDeletionEndsVolume`, `ControllerRuns.DeletionLosesVolume`). Its deletion
  then fails for ever, unless the volume is created again (`ControllerRuns.LostVolumeStaysKnown`,
  `Scenarios.LosingVolume`).
- A deletion that got past the exporter and not past the volume can never succeed, and neither can the
  deletion of a volume whose creation failed at the exporter (`ControllerRuns.DeletionUnexports`,
  `ControllerRuns.CreationUnexports`, `ControllerRuns.UnexportedForGood`, `Scenarios.UnexportingRun`).
- A live volume that nobody deletes can lose the layer it writes to: give it a snapshot, clone the
  snapshot, delete the snapshot and then the clone. Every call succeeds, and the volume can never be
  deleted nor have a snapshot taken (`ControllerRuns.StrandedForGood`, `Scenarios.StrandingRun`). A guest
  that is attached to the layer prevents this (`GuestWrites.GuestHoldsActiveLayer`).
- Deleting a volume's active snapshot before the volume leaks the snapshot's image, unless something
  builds on it (`Leaks.ActiveSnapshotFirstLeaks`, `Scenarios.LeakingRun`).
- A clone of a live volume without snapshots changes when that volume's guest writes
  (`GuestWrites.IsolatedExactly`, `Scenarios.CloneSeesWrites`), and a snapshot of a volume whose active layer
  has a clone leaves the guest writing below the snapshot (`GuestWrites.SnapshotMovesGuestExactly`,
  `Scenarios.GuestLeftBehind`).
- A `CreateVolume` without a capacity range crashes the controller (`Controller.CrashesExactly`), and one
  that repeats an earlier name with another size replies with a size that is not the stored one
  (`Controller.ReplySizeExactly`).

## Assumptions

- IDs of new images are not empty and contain no slash. `Names.QsdIdDefinedExactly` says which IDs make
  `generateQSDID` panic; a panic is a reply of the model.
- A new ID is not one that a volume still refers to as its lost active layer, and a snapshot is deleted
  with the source it was taken from. `Controller.RequestsAreProperCalls` shows the controller sees to the
  second. That a recorded ID is not recorded again is proved, not assumed.
- qemu-img may or may not refuse to write over a file that is in use; both are covered.
- Runs may be of any length. What the statements about runs ask for is that no more than 2^31-1 images are
  recorded at any call, so that no counter can overflow.

## Model

| member | source | states |
|---|---|---|
| `Names.QsdIdDefinedExactly` | pkg/qsd/server.go:65-78 | the slice panics on exactly the prefixed IDs that are too short |
| `Names.PvcNodeName` | pkg/qsd/server.go:65-72 | a volume ID with prefix gives the eight characters after the prefix |
| `Names.SnapshotNodeName` | pkg/qsd/server.go:65-77 | a snapshot ID with prefix gives the eight characters after it, unless the prefix of volumes occurs in it too |
| `Names.OtherNodeName` | pkg/qsd/server.go:65-77 | any other ID gives its own first eight characters |
| `Names.PvcNodesClashExactly` | pkg/qsd/server.go:65-72 | two volume IDs with prefix share a node name if and only if the eight characters after it agree |
| `Names.PvcAndSnapshotClashExactly` | pkg/qsd/server.go:65-77 | when a volume and a snapshot share a node name |
| `Names.PathsInVolumeDirectory` | pkg/qsd/server.go:82-89 | where volume and snapshot files lie |
| `Names.CutIdsClash` | pkg/qsd/server.go:65-78 | two well-formed IDs with the same node name |
| `Names.SnapshotPathInjective` | pkg/qsd/server.go:199-207 | a snapshot's path determines its source volume and its node name |
| `Names.VolumeIsNoSnapshotPath` | pkg/qsd/server.go:82-89 | no volume file is at a snapshot's path |
| `Forest.ChainShape` | pkg/qsd/server.go:94-116 | every chain goes down one level a step and reaches a root after as many steps as its depth says |
| `Forest.RootsHaveDepthZero` | pkg/qsd/server.go:94-113 | depth is 0 exactly at images without a backing image |
| `Forest.ChainMembers` | pkg/qsd/server.go:94-116 | the members of a chain are all different recorded images |
| `Forest.ChainKept` | pkg/qsd/server.go:292-316 | an image keeps its chain when the images recorded before and after keep their backing image |
| `Forest.CountersBelowSize` | pkg/qsd/server.go:22-29 | every reference count and every depth is below the number of images |
| `Forest.CountsAddUpToNonRoots` | pkg/qsd/server.go:111-113 | the counts of all images add up to the number of images that have a backing image |
| `Forest.LeafAbove` | pkg/qsd/server.go:22-29 | every image is on the chain of an image that nothing builds on |
| `Forest.CountOverflows` | pkg/qsd/server.go:111 | an image on top of 2^31-1 others turns the count negative, so it counts nothing any more |
| `Forest.DepthOverflows` | pkg/qsd/server.go:113 | a level on top of a chain of maximal depth restarts at zero and breaks the forest |
| `Consistency.FilesDistinct` | pkg/qsd/server.go:80-93 | distinct recorded images have distinct files |
| `Consistency.UnknownNodeIsFresh` | pkg/qsd/commands.go:216-228 | a name the daemon accepts belongs to no recorded image, so creation never overwrites a record |
| `Consistency.UsersAreChildren` | pkg/qsd/commands.go:245-251 | the daemon sees a node in use exactly when the image's reference count is positive |
| `Preservation.InstallIsOverlay` | pkg/qsd/commands.go:305-335 | adding a bare node and snapshotting onto it equals adding it with a backing node, when nothing uses the node |
| `Preservation.InstallGuardIsExact` | pkg/qsd/server.go:211-222 | installing with blockdev-snapshot keeps every record on its recorded node if and only if the count is below 1 |
| `Preservation.InstallAnswer` | pkg/qsd/commands.go:305-335 | both commands take effect on the graph or neither does, except that the bare node stays exactly when it was added and the second command failed |
| `Preservation.SnapshotAnswerShape` | pkg/qsd/server.go:211-222 | both paths of a snapshot lead to the same graph |
| `Preservation.CreateVolumeKeeps` | pkg/qsd/server.go:80-121 | keeps the store consistent, and a success means the ID was not recorded |
| `Preservation.CreateSnapshotKeeps` | pkg/qsd/server.go:187-230 | keeps the store consistent, and a success means the ID was not recorded |
| `Preservation.CreationNeedsRoom` | pkg/qsd/server.go:204-223 | a successful creation keeps the store consistent if and only if the counters below had room |
| `Preservation.DeletedKeepsConsistent` | pkg/qsd/server.go:292-316 | an image whose count is 0 has no children, and without it the store is consistent |
| `Preservation.DeleteImageOutcome` | pkg/qsd/server.go:292-316 | removes an image completely or not at all, never one that has children, never misses a backing image; only a lost file removal breaks consistency |
| `Preservation.CleanUpKeeps` | pkg/qsd/server.go:270-290 | consistent afterwards if and only if no file removal failed |
| `Preservation.DeleteVolumeKeeps` | pkg/qsd/server.go:232-268 | consistent afterwards if and only if no file removal failed |
| `Preservation.DeleteSnapshotKeeps` | pkg/qsd/server.go:318-343 | consistent afterwards if and only if no file removal failed; never panics |
| `Preservation.StepKeepsConsistent` | pkg/qsd/server.go:80-343 | every call under every refusal keeps the store consistent, if and only if no file removal failed |
| `Preservation.SmallStoreHasRoom` | pkg/qsd/server.go:22-29 | below 2^31 images no counter is at its limit |
| `Preservation.LostAnswer` | pkg/qsd/commands.go:86-108 | a command that takes effect while its answer is lost keeps consistency if and only if it adds a bare node or deletes a node without record |
| `Books.CleanUpBooks` | pkg/qsd/server.go:270-290 | under every refusal counts stay exact, only unnamed records go, and the others change in nothing but their count |
| `Books.StepKeepsBooks` | pkg/qsd/server.go:80-343 | counts and depths stay exact under every refusal, and every survivor keeps its whole chain and its file |
| `Reclamation.RunIsLongest` | pkg/qsd/server.go:270-290 | every chain has exactly one longest run of images at its front that are unnamed and support only each other |
| `Reclamation.CleanUpStops` | pkg/qsd/server.go:270-316 | under every refusal, removes exactly the images of that run before the first refused one, with nodes and files, and stops there |
| `Reclamation.CleanUpFailsExactly` | pkg/qsd/server.go:270-290 | replies with an error if and only if an image of that run is refused |
| `Reclamation.CleanUpExact` | pkg/qsd/server.go:270-316 | with deletions carried out, removes exactly that run |
| `Reclamation.OnlyFirstSurvivorChanges` | pkg/qsd/server.go:303-312 | after that, only the first survivor's count is lower, by one |
| `Layers.BaseUnderActiveLayer` | pkg/qsd/server.go:251-263 | a live volume's base is recorded under its name, on the chain of the volume's active layer |
| `Layers.ActiveLayersDiffer` | pkg/qsd/server.go:187-230 | a recorded image is the active layer of at most one volume |
| `Layers.LocalCheckIsGlobal` | pkg/qsd/server.go:324-326 | with the true source, the check decides whether the snapshot is an active layer of any volume |
| `Layers.StepKeepsLayers` | pkg/qsd/server.go:80-343 | keeps the layers sound; only a creation with an ID too short to cut panics |
| `Layers.NoNilDereference` | pkg/qsd/server.go:251-263 | the second lookup in DeleteVolume never leaves a nil image to dereference |
| `Layers.StepKeepsSafe` | pkg/qsd/server.go:187-343 | active layers stay recorded and named if and only if the call does not delete an active snapshot |
| `Runs.WellFormedIsAdmissible` | pkg/qsd/server.go:111-113 | below 2^31 images no counter of a call can overflow |
| `Runs.RunKeepsSound` | pkg/qsd/server.go:80-343 | over every run of proper calls, whatever is refused, the store stays consistent and its layers sound while files can be removed |
| `Runs.RunKeepsSafe` | pkg/qsd/server.go:187-343 | over every run that deletes no active snapshot, every volume has a recorded, named, own layer to write to |
| `Runs.RunKeepsBooks` | pkg/qsd/server.go:80-343 | over every run with new IDs counts and depths are exact, even when file removals fail |
| `Effects.SnapshotEffect` | pkg/qsd/server.go:187-230 | a snapshot adds one named layer on top of the active one and makes it active; the volume reads the same, other volumes keep their layers |
| `Effects.CloneEffect` | pkg/qsd/server.go:100-117 | a clone is its own active layer, on top of its source and reading the same |
| `Effects.EmptyVolumeEffect` | pkg/qsd/server.go:94-117 | an empty volume is a root and reads what a file left at its path holds; a fresh file counts as empty |
| `Effects.DropVolumeNames` | pkg/qsd/server.go:232-268 | under every refusal no image but the volume's own loses its name |
| `Effects.DropSnapshotNames` | pkg/qsd/server.go:318-343 | under every refusal no image but the snapshot's own loses its name |
| `Effects.DeleteVolumeEffect` | pkg/qsd/server.go:232-268 | the volume has no active layer; its image stays, unnamed, exactly when images build on it |
| `Effects.DeleteSnapshotEffect` | pkg/qsd/server.go:318-343 | the image stays, unnamed, exactly when images build on it or its source writes to it |
| `Effects.SnapshotRemovedExactly` | pkg/qsd/server.go:318-343 | under every refusal, the image is gone if and only if nothing needs it and its own deletion is not refused |
| `Effects.FailedDeletionLosesSnapshot` | pkg/qsd/server.go:318-343 | an error reply comes with a removed snapshot if and only if the image goes at once and an image of the clean-up's run is refused |
| `Effects.RefusedCleanUpLosesSnapshot` | pkg/qsd/server.go:328-341 | the simplest instance: the daemon keeps the node of the released backing image |
| `Effects.FailedDeletionEndsVolume` | pkg/qsd/server.go:232-268 | an error reply comes with an ended volume if and only if only the directory or the clean-up failed |
| `Effects.CreateVolumeSucceeds` | pkg/qsd/server.go:80-121 | succeeds if and only if nothing refuses, the source is recorded and the cut name is free |
| `Effects.CreateSnapshotSucceeds` | pkg/qsd/server.go:187-230 | succeeds if and only if nothing refuses, the active layer is recorded and the cut name is free |
| `Effects.FailedCreationLeavesExactly` | pkg/qsd/commands.go:206-335 | the nodes and files a failed creation leaves behind, exactly |
| `ServerReplies.CreateVolumeReply` | pkg/qsd/server.go:80-121 | which of its errors a creation reports, each as an if-and-only-if |
| `ServerReplies.CreateSnapshotReply` | pkg/qsd/server.go:187-230 | which of its errors a snapshot reports, each as an if-and-only-if |
| `ServerReplies.CleanUpReply` | pkg/qsd/server.go:270-316 | the clean-up reports the first refused image, and which of its deletions was refused |
| `ServerReplies.DropReply` | pkg/qsd/server.go:232-343 | which of its errors a deletion reports, each as an if-and-only-if; a file is reported as not removed exactly when the first refused image has a node that can be deleted |
| `Effects.StepKeepsNamedVolumesLive` | pkg/qsd/server.go:80-343 | under every refusal, an image that has its volume's name belongs to a live volume |
| `Leaks.CleanUpLoose` | pkg/qsd/server.go:270-290 | under every refusal, the loose images after a clean-up are those before, without the one it starts at, plus the first image it is refused |
| `Leaks.DeletionThenCleanUp` | pkg/qsd/server.go:232-343 | under every refusal, a deletion changes no record and ends no volume, or is one removal or release followed by the clean-up from the backing image, which a directory that cannot be removed prevents |
| `Leaks.DropVolumeLeaks` | pkg/qsd/server.go:244-263 | under every refusal, deleting a volume leaks its released, childless active layer and what its clean-up leaves behind, and nothing else |
| `Leaks.StepLeaks` | pkg/qsd/server.go:80-343 | under every refusal, the leaked images after a call are those before, without the one the call takes, plus that layer and what the clean-up leaves behind that no volume writes to |
| `Leaks.CompleteDeletesLeaveNothing` | pkg/qsd/server.go:232-343 | a call whose deletions are carried out leaves nothing behind, and a deletion that finds its image succeeds |
| `Leaks.RunLeaksOnlyOrphans` | pkg/qsd/server.go:232-343 | over every proper run in which deleted nodes' files can be removed, what is leaked was leaked by one of its calls |
| `Leaks.ReleasedStoreEmpty` | pkg/qsd/server.go:270-290 | without names and volumes the store is empty if and only if nothing is leaked |
| `Leaks.FullReclamation` | pkg/qsd/server.go:232-343 | a run whose calls leak nothing, whatever they are refused, and that has released every name and volume has no image left |
| `Leaks.ActiveSnapshotFirstLeaks` | pkg/qsd/server.go:249-257 | when both deletions are carried out, deleting the active snapshot and then its volume leaks the snapshot's image if and only if nothing builds on it |
| `Leaks.ActiveLayerLostExactly` | pkg/qsd/server.go:270-290 | under every refusal, a volume that stays live loses its recorded active layer if and only if the call's clean-up takes that layer, which lies in the longest run before the first refused image |
| `Leftovers.StepKeepsTight` | pkg/qsd/commands.go:206-251 | unless a failed creation leaves something or a file cannot be removed, the daemon has exactly the recorded nodes and files |
| `Leftovers.FullReclamationOfDaemon` | pkg/qsd/server.go:232-343 | such a run leaves no node and no file either |
| `Views.DaemonReadsChain` | pkg/qsd/commands.go:288-335 | following backing edges the daemon reads through the files of the recorded chain and through no others |
| `Views.StepKeepsViews` | pkg/qsd/server.go:80-343 | a call that writes over no recorded file leaves unchanged what every survivor reads |
| `GuestWrites.WriteSeenExactly` | pkg/qsd/commands.go:253-272 | what is written to an image is seen by exactly the images with it on their chain |
| `GuestWrites.IsolatedExactly` | pkg/qsd/server.go:94-117 | writes stay inside an image if and only if nothing builds on it |
| `GuestWrites.SnapshotMovesGuestExactly` | pkg/qsd/server.go:211-222 | a snapshot takes the guest along to the new active layer if and only if nothing was built on the old one |
| `GuestWrites.SnapshotFreezesExactly` | pkg/qsd/server.go:187-230 | a snapshot freezes the layer below it if and only if its guest is taken along and no other guest writes to what that layer reads |
| `GuestWrites.RunKeepsViews` | pkg/qsd/server.go:80-343 | over every run of calls and guest writes, an image reads the same if nothing it reads was written to or written over |
| `GuestWrites.FrozenReadsTheSame` | pkg/qsd/server.go:187-230 | over every run of calls and guest writes, a frozen image reads what it read when it was frozen, as long as it is recorded, no guest is attached to it anew and no recorded file is written over |
| `GuestWrites.GuestHoldsActiveLayer` | pkg/qsd/server.go:270-290 | a guest attached to its volume's active layer keeps that layer recorded |
| `Views.NewLayerReadsBacking` | pkg/qsd/commands.go:288-335 | a new layer reads what its backing image reads |
| `Views.OverwritingIsANameClash` | pkg/qsd/commands.go:290-302 | only a creation whose cut name is taken can write over a recorded file, and it fails |
| `Views.ClashingSnapshotOverwrites` | pkg/qsd/server.go:199-215 | two snapshots of a volume with the same cut name share a file |
| `Views.OverwrittenReadsBelow` | pkg/qsd/commands.go:305-311 | the overwritten image loses its own contents and reads what is below it |
| `Views.ViewsKeptExactly` | pkg/qsd/server.go:187-222 | views are kept if and only if no file is written over that held contents differing from what is below |
| `VolumeManagers.VolumeManager.ExecuteCommand` | pkg/qsd/commands.go:95-108 | a command takes effect or is refused, as the daemon decides |
| `VolumeManagers.VolumeManager.CreateVolume` | pkg/qsd/commands.go:206-233 | makes a disk file only if there is none, then adds its node |
| `VolumeManagers.VolumeManager.CreateSnapshotWithBackingNode` | pkg/qsd/commands.go:288-303 | makes the overlay file, then adds its node over the backing node |
| `VolumeManagers.VolumeManager.CreateSnapshot` | pkg/qsd/commands.go:305-335 | makes the overlay file, then issues both commands until one fails |
| `VolumeManagers.VolumeManager.DeleteVolume` | pkg/qsd/commands.go:245-251 | removes the node unless it is in use or refused |
| `VolumeManagers.ExportManager.ExposeVhostUser` | pkg/qsd/commands.go:253-272 | adds an export unless there is one for the node, the node is missing or the daemon refuses |
| `VolumeManagers.ExportManager.DeleteExporter` | pkg/qsd/commands.go:274-286 | removes the export if there is one and the daemon does not refuse |
| `Servers.Server.constructor` | pkg/qsd/server.go:39-50 | starts with the empty store |
| `Servers.Server.CreateVolume` | pkg/qsd/server.go:80-121 | the updates through shared records give the new state and reply of the store, with fresh records only |
| `Servers.Server.CreateSnapshot` | pkg/qsd/server.go:187-230 | the updates through shared records give the new state and reply of the store, with fresh records only |
| `Servers.Server.DeleteImage` | pkg/qsd/server.go:292-316 | the updates through shared records give the new state and reply of the store |
| `Servers.Server.DeleteNodeWithZeroReference` | pkg/qsd/server.go:270-290 | the recursion while deleting ends and gives the new state and reply of the store |
| `Servers.Server.DeleteVolume` | pkg/qsd/server.go:232-268 | the updates through shared records give the new state and reply of the store, nil dereference included |
| `Servers.Server.DeleteSnapshot` | pkg/qsd/server.go:318-343 | the updates through shared records give the new state and reply of the store |
| `Servers.Server.ListVolumes` | pkg/qsd/server.go:345-361 | lists every recorded image exactly once, as recorded, in any order |
| `Listing.ListDescribes` | pkg/qsd/server.go:345-361 | each entry has the node cut from its ID, a file of that name, as many entries built on it as its count says, a chain as long as its depth says, and its backing image one level below |
| `TreeList.PrintTree` | cmd/qsd-client/cmd/list.go:61-87 | the two loops over the sorted list build the tree of the two folds, for any list |
| `TreeList.NextHasParent` | cmd/qsd-client/cmd/list.go:81-84 | the missing-parent case never occurs for the list of a forest |
| `TreeList.RebuiltTreeIsForest` | cmd/qsd-client/cmd/list.go:57-87 | for a forest listed in any order and sorted by depth in any way, every image is in the tree once and its path up is its chain |
| `TreeList.BranchCounts` | cmd/qsd-client/cmd/list.go:57-87 | the count printed at a branch is the number of branches directly under it |
| `Controller.RequestsAreProperCalls` | pkg/driver/controller.go:312-321 | what the controller sends has non-empty IDs and the true source of a snapshot |
| `Controller.ServeKeepsAgreement` | pkg/driver/controller.go:30-325 | every live server volume stays known, and known snapshots keep their true source, with calls and answers lost anywhere |
| `ControllerRuns.RunKeepsAgreement` | pkg/driver/controller.go:30-325 | the same over whole runs |
| `Controller.SnapshotsAfterStep` | pkg/qsd/server.go:80-343 | how each server call changes the set of named snapshots |
| `Controller.CrashesExactly` | pkg/driver/controller.go:30-39 | the controller crashes on exactly the requests for a named volume without a capacity range |
| `Controller.ReplySizeExactly` | pkg/driver/controller.go:77-128 | the size in the reply differs from the stored one if and only if the name was asked for before with another size |
| `Replies.CreateVolumeAnswer` | pkg/driver/controller.go:30-134 | CreateVolume succeeds, with the requested size, if and only if both calls get through, the name can be cut and is free at store and exporter, and nothing refuses; when the request is invalid |
| `Replies.DeleteVolumeAnswer` | pkg/driver/controller.go:137-181 | DeleteVolume succeeds if and only if the volume is unknown, or both calls get through, its export is there and nothing to the end of the clean-up is refused |
| `Replies.CreateSnapshotAnswer` | pkg/driver/controller.go:206-288 | CreateSnapshot succeeds, with the size of the snapshot or its source, if and only if the snapshot is known or can be made |
| `Replies.DeleteSnapshotAnswer` | pkg/driver/controller.go:291-327 | DeleteSnapshot succeeds if and only if the snapshot is unknown, or the call gets through and nothing to the end of the clean-up is refused |
| `Replies.SnapshotHasFirstSize` | pkg/driver/controller.go:77-85 | over every run, a snapshot has the size its volume was first asked for, even if that request failed, and repetitions say so |
| `Controller.ServeKeepsSnapshotsExact` | pkg/driver/controller.go:206-326 | the controller goes on knowing exactly the named snapshots if and only if none is made or dropped behind an answer that is lost or an error |
| `ControllerRuns.RunKeepsSnapshotsExact` | pkg/driver/controller.go:206-326 | the same over whole runs |
| `ControllerRuns.RepeatedRequestsAreNoOps` | pkg/driver/controller.go:145-325 | repeating a successful DeleteVolume, CreateSnapshot or DeleteSnapshot, at once or after any run of requests that do not undo it, gives the same answer and changes neither layer |
| `ControllerRuns.RepeatedCreateVolumeFails` | pkg/driver/controller.go:28-112 | repeating a successful CreateVolume, at once or after any run without its deletion, always fails and changes no record; what it does to files is said next |
| `ControllerRuns.WipedReadsBelow` | pkg/driver/controller.go:95-112 | a request that writes over a recorded file fails, and the image reads what is below it afterwards |
| `ControllerRuns.RepeatedCloneWipes` | pkg/qsd/server.go:80-117 | asking again for a live volume as a clone wipes its image if and only if the call arrives, the source is recorded and neither host nor qemu-img refuses |
| `ControllerRuns.RetriedSnapshotWipes` | pkg/qsd/server.go:187-222 | asking again for a recorded snapshot wipes its image if and only if the call arrives and neither host nor qemu-img refuses |
| `ControllerRuns.DeletionLosesSnapshot` | pkg/driver/controller.go:291-327 | the exact condition under which deleting a snapshot makes the server lose it while the controller keeps it |
| `ControllerRuns.OnlyItsDeletionLosesSnapshot` | pkg/driver/controller.go:30-325 | a named snapshot is lost by no request but its own deletion |
| `ControllerRuns.LostSnapshotStaysKnown` | pkg/driver/controller.go:298-325 | from any state, a lost snapshot stays lost and known over every run that creates no volume of its name, and every deletion of it fails |
| `ControllerRuns.DeletionLosesVolume` | pkg/driver/controller.go:137-181 | the exact condition under which deleting a volume ends it while the controller keeps it |
| `ControllerRuns.LostVolumeStaysKnown` | pkg/driver/controller.go:137-181 | from any state, a lost volume stays lost and its deletion fails over every run that does not create it again |
| `ControllerRuns.StrandedForGood` | pkg/driver/controller.go:137-288 | a live volume whose active layer is gone stays so over every run, and can neither be deleted nor have a snapshot taken |
| `ControllerRuns.DeletionUnexports` | pkg/driver/controller.go:160-176 | the exact condition under which deleting a volume takes its exporter and leaves it live |
| `ControllerRuns.CreationUnexports` | pkg/driver/controller.go:95-123 | the exact condition under which creating a volume leaves it live without an exporter |
| `ControllerRuns.UnexportedForGood` | pkg/qsd/server.go:168-185 | a live volume without its exporter stays so over every run, and every deletion of it fails and changes nothing |
| `ControllerRuns.ServeKeepsExportsLive` | pkg/qsd/server.go:123-185 | every export is one of a live volume, with calls and answers lost anywhere |
| `ControllerRuns.EverythingComesBack` | pkg/driver/controller.go:30-325 | at the end of every tidy run from the start, the controller knows no volume and no snapshot if and only if both layers, nodes, files and exports are as at the start |
| `Scenarios.CreateVolumeTwice` | pkg/driver/controller.go:28-112 | from the empty system a volume is created and its repetition fails |
| `Scenarios.LosingRun` | pkg/driver/controller.go:291-327 | four requests from the empty system that lose a snapshot, whatever follows |
| `Scenarios.LeakingRun` | pkg/qsd/server.go:249-257 | four successful requests from the empty system that leave two images nobody asks for |
| `Scenarios.LosingVolume` | pkg/driver/controller.go:137-181 | two requests from the empty system that lose a volume, until it is created again |
| `Scenarios.UnexportingRun` | pkg/driver/controller.go:160-176 | two requests from the empty system after which a whole volume can never be deleted |
| `Scenarios.StrandingCalls` | pkg/qsd/server.go:270-343 | three successful calls that take the active layer of a volume nobody deletes |
| `Scenarios.StrandingRun` | pkg/driver/controller.go:30-325 | five requests from the empty system that strand a volume for good |
| `Scenarios.CloneSeesWrites` | pkg/qsd/server.go:100-117 | two requests from the empty system after which a clone reads what the guest of its source writes |
| `Scenarios.WipingRun` | pkg/driver/controller.go:95-112 | a repeated clone request that fails and destroys what the clone's guest wrote |
| `Scenarios.GuestLeftBehind` | pkg/qsd/server.go:211-222 | a snapshot of a cloned volume that leaves the guest on the layer below it |
| `Drivers.Driver.CreateVolume` | pkg/driver/controller.go:30-134 | the handler gives the new state of both layers and the response of the controller functions, missing capacity range included |
| `Drivers.Driver.DeleteVolume` | pkg/driver/controller.go:137-181 | the handler gives the new state of both layers and the response of the controller functions |
| `Drivers.Driver.CreateSnapshot` | pkg/driver/controller.go:206-288 | the handler gives the new state of both layers and the response of the controller functions |
| `Drivers.Driver.DeleteSnapshot` | pkg/driver/controller.go:291-327 | the handler gives the new state of both layers and the response of the controller functions |
| `Metadata.ParseFormat` | pkg/metadata/metadata.go:86-92 | printing and parsing are inverse exactly on the 32-bit range; other numbers are refused when read |
| `Metadata.ParsesExactly` | pkg/metadata/metadata.go:86-92 | a string parses exactly when it is decimal digits after at most one sign and the number fits 32 bits |
| `Metadata.ReadBack` | pkg/metadata/metadata.go:71-99 | annotations read back as written, except that a count beyond 32 bits hides the volume |
| `Metadata.MetadataServer.AddMetadata` | pkg/metadata/metadata.go:125-154 | the written volume, or nothing when the volume is missing or on another node |
| `Metadata.MetadataServer.GetVolumes` | pkg/metadata/metadata.go:101-123 | collects the volumes that parse, in the order listed |
| `Metadata.HistoryReflects` | pkg/metadata/metadata.go:125-154 | after any history each volume carries the last metadata that was due to be accepted, by its nodes, and the others are as they were |
| `Metadata.AcceptedExactly` | pkg/metadata/metadata.go:125-139 | after any history a write is accepted if and only if its volume exists, its first label, if any, is the same node, and so is the node of the last accepted write, if any |
| `Metadata.HistoryKeepsForeign` | pkg/metadata/metadata.go:125-154 | no history makes or removes a volume or touches labels and annotations of others |
| `Metadata.CollectTells` | pkg/metadata/metadata.go:71-123 | whatever the annotations are, a node is told exactly what they say, with an empty backing image and a count of 0 by default |
| `Metadata.NodeLabelStays` | pkg/metadata/metadata.go:134-139 | a node label once set never changes |
| `Metadata.GetVolumesExact` | pkg/metadata/metadata.go:101-154 | a node is told exactly the last accepted metadata of its volumes whose count fits 32 bits, each once |
| `Metadata.OneNodeOnly` | pkg/metadata/metadata.go:101-139 | no volume is ever reported for two nodes |

## Left out

- Goroutine interleavings: the server's maps have no lock; one request at a time is modelled.
- Byte strings: characters stand for bytes, and paths are compared as strings, so links and `..` are not resolved.
- Directories: creating, checking and removing them can fail in every call, but their contents are not tracked.
- Exports and deletions: that the daemon keeps a node with an export shows as a refused deletion; only `GuestWrites` demands it of every call.
- The backing file name in the qcow2 header: only the daemon's backing edges are read through.
- Where a guest is attached: followed in `GuestWrites`, which attaches exports to nodes; the controller's model knows only which nodes have an export.
- Lost answers of the daemon inside a call: a command either takes effect and is answered, or is refused. `Preservation.LostAnswer` says what each command would break.
- The container of a new disk: a fresh file counts as empty, while the node opens the qcow2 file as a raw file and shows its header.
- Other aspects of raw and qcow2 formats, image sizes (the size sent to the server is the stored one) and the process and socket handling around qemu-img and the daemon.
- A server restart after a panic: the state is simply kept, while the program loses its maps.
- The sorting algorithm behind the tree view: any permutation sorted by depth is covered.
- Tree nodes as linked objects: branches are positions in one list, and the printed text is not modelled.
- Kubernetes client and label selectors: the cluster is a map, `Get` a copy, `Update` a write-back that may be refused.
- Streaming, committing and job handling, NBD export and size parsing in `pkg/qsd/commands.go`: the server never calls them.
- Node publishing, identity and capability handlers, logging, timeouts, command lines.
