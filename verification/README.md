# IronCache: a verified model of cluster ownership and its companions

This project models, in Dafny, the parts of IronCache whose promises are about whole runs, and proves
those promises for every input.

**The slot map** (`SlotTypes`, `SlotMapFacts`, `SlotMap`). A cluster node keeps a node table and five
parallel per-slot arrays: an ownership bit that answers "do I own this?" without a lock, the table indices of
owner, replica and migration peer, and the migration phase. The class `SlotMap` has those arrays; its meaning
is a *view* by node id: who owns, who replicates and which migration tag each slot carries, where each node is,
and the epoch. Every mutator is proved against a function on views, and `Valid()` holds before and after each: ids
distinct, indices in range, phase and peer paired, and the bit equal to the slow lookup. Self is recognised by
endpoint, as in the source.

**Snapshots** (`SnapshotCodec`, `SnapshotDecoder`, `SnapshotIO`, `SnapshotView`, `SnapshotMeaning`, `Utf8`), **static
topologies** (`Topology`), **renumbering** (`Dedup`), **ranges** (`Ranges`, `RangesRebuild`) and
**rebalancing** (`Rebalance`, `RebalanceOrder`, `RebalancePlanner`, `RebalanceDriver`,
`RebalanceApply`) are built on that.

**The replicated log** (`ReplicatedLog`, `CommandEffects`, `Convergence`, `Ownership`, `MigrationTags`, `ConfigSm`).
Nodes replay one committed log. What each command does is read off field by field in `CommandEffects`. `Commit` is the
step of a shared state that no node holds; each node is proved to stay in step with it. `Ownership` has what holds
under a weaker promise about the log, `MigrationTags` follows one slot's tag on one node.

**Concurrency** (`Publication`, `LockedReads`, `Generation`) is modelled as interleavings of single atomic
stores and loads. The ownership bitmap, the runtime settings and a shard's cache have no state but the list of
their atomic steps, so a contract that fixes the steps added fixes what a reader without a lock can see.

**Reply framing** (`RespWire`, `BenchParser`, `BenchClient`, `ClusterBus`, `WireLiterals`): two clients, each with an
encoder and an incremental parser over a carry-over buffer; `WireLiterals` ties both to the ASCII text on the wire.
**Edit distance** (`EditDistance`): the "did you mean" hint for misspelt settings.

Text is a sequence of bytes. Socket contents, the caught-up verdicts of the rebalance driver and the order of
atomic steps are parameters.

## Where the code and its documentation part

- `serialize_committed` is documented to give the same bytes on every node at the same committed prefix.
  It does so exactly when the two nodes carry the same migration tags and both have been met, or are the same node
  (`SnapshotsAgreeExactly`). Tags are node-relative, so one open migration breaks it (`SnapshotsCanDiffer`); a node
  lists itself before it is met, so a fresh pair breaks it too (`UnmetSnapshotsDiffer`). An install brings the
  snapshotting node's tags and its own entry along (`InstallIsReplayExactly`). Owners, epoch and the answers of
  `owns` are not affected, whoever the snapshot is from (`InstallKeepsOwners`).
- `build` indexes the entry table before the current entry is in it, so a node that names one slot twice
  can make it panic instead of reporting an overlap. `Resolve` and `Build` have an outcome for that, and it comes
  if and only if the first thing wrong, in scan order, is such a slot (`Panics`; `DoubleNamingPanics` gives one).
- `build` sets the ownership bits by comparing table indices. They agree with the endpoint rule of every
  other operation exactly when no other node declares slots under self's endpoint (`Build`;
  `SharedEndpointDisagrees` gives a topology where one does).
- The state machine's `restore` is documented to fall back to a cleared map on malformed input; the code leaves
  nodes and slots as they were and overwrites only the epoch. The two agree exactly as `MalformedRestore` says;
  `RestoreOfNothing` gives an input where they do not.
- A MIGRATING tag is documented to sit only on the slot's owner. Unassigning a slot leaves the tag behind
  (`MigratingWithoutOwner`), and installing a snapshot brings the source's tag to another node
  (`InstalledTagWithoutOwner`). When tag and ownership go together is said exactly by `MigratingMeansOwner` for a
  node that replays from boot, by `MigratingAfterInstall` after an install, and by `MigratingAfter` for tags from
  anywhere.
- A failover is documented to re-home the demoted owner as the new owner's replica. One that names an unknown node
  demotes nobody, yet the owner is made its own replica (`FailoverParts`).
- `flush_slots` is documented to release every slot this node owns. Slots held under another id at self's endpoint
  stay (`FlushReleases`; `AliasSurvivesFlush` gives a map where one does).
- The rebalance steps are documented to need only the committed map. Migration tags are on the source's and the
  destination's maps alone, so a controller that reads any other map never gets past starting a migration
  (`FinishesExactlyWhenSeen`; `BystanderSeesNothing` gives one).
- Running the rebalance command again is documented to arm the next batch of moves. It reads the tags of the node it
  runs on, so it arms new moves exactly as `SecondCall` says, and on a node that is part of no move of the batch it
  arms the same batch every time (`SameBatchAgain`, `ThirdNodeArmsAgain`).
- The bus parser slices its line from 1 to the line's end, which is out of range exactly when the buffer
  opens with CR LF (`PanicsExactlyOnEmptyLine`).

## Model

| member | source | states |
|---|---|---|
| Ownership.NoTwoOwners | crates/ironcache-cluster/src/lib.rs:1563-1773 | for every log that names owners only once met, and meets a node under its own endpoint: after every common prefix two nodes at different endpoints agree on every slot's owner id and on the epoch, a node serves a slot exactly if the committed owner is at its endpoint, and never do both serve it, even if one has been removed from the cluster |
| Ownership.OwnsExactlyCommitted | crates/ironcache-raft-net/src/config_sm.rs:78-219 | under the same promise, a node that replays the log answers `owns` with true exactly for the slots whose committed owner is at its own endpoint |
| Ownership.BehavingNamesOnceMet | crates/ironcache-raft-net/src/config_sm.rs:99-218 | that promise is part of what the other results ask of a log |
| Ownership.StepTracks | crates/ironcache-raft-net/src/config_sm.rs:99-218 | one command keeps a view on track with the committed owners, whichever node applies it and whichever node it removes |
| Ownership.InstallKeepsOwners | crates/ironcache-cluster/src/lib.rs:1224-1321 | a node that installs the snapshot of any other, met or not, removed or not, and applies the rest of the log has the owners and the epoch of a full replay and serves exactly the committed slots |
| Ownership.ReplayOk | crates/ironcache-raft-net/src/config_sm.rs:78-219 | whatever the log, a node's view names only nodes it knows |
| Convergence.NodeFollowsLog | crates/ironcache-raft-net/src/config_sm.rs:78-219 | by induction over every log: a node's view is the committed view plus itself, carrying exactly the migration tags the log gives its endpoint |
| ReplicatedLog.StepFollows | crates/ironcache-raft-net/src/config_sm.rs:99-218 | each of the eleven commands keeps a well-behaved node in step with the shared committed state, tags included |
| ReplicatedLog.ViewFollows | crates/ironcache-raft-net/src/config_sm.rs:99-218 | owners, replicas, nodes and epoch of a node mirror the committed view across one command |
| ReplicatedLog.TagsFollow | crates/ironcache-raft-net/src/config_sm.rs:178-213 | after one command a node carries a migration tag exactly where the committed tag table gives its endpoint one |
| ReplicatedLog.CommitOk | crates/ironcache-raft-net/src/config_sm.rs:99-218 | the committed state stays well formed: every owner, replica and peer it names is a known node |
| CommandEffects.NodesAfter | crates/ironcache-raft-net/src/config_sm.rs:84-111 | after any command the epoch is one more; a node is known exactly if it was and is not removed (which is refused for the node itself and for an owner of slots), or is the one added; a known node keeps its endpoint, a new one has the host and port it was added with |
| CommandEffects.OwnerAfter | crates/ironcache-raft-net/src/config_sm.rs:112-177 | slot by slot, each command: a known node named as owner or promoted owns the listed slots, unassigned ones have no owner, every other owner stays |
| CommandEffects.ReplicaAfter | crates/ironcache-raft-net/src/config_sm.rs:133-177 | slot by slot, each command: an assigned replica replicates the listed slots; a failover leaves the demoted owner as the replica, or, where there is none to demote, drops the promoted node from the place; a removed node replicates nothing; every other replica stays |
| CommandEffects.TagAfter | crates/ironcache-raft-net/src/config_sm.rs:112-213 | slot by slot, each command: MIGRATING is put exactly where the owner has this node's host and port, IMPORTING exactly where the destination has, both for known peers only; a new owner, a stop or the removal of the peer takes a tag away; every other tag stays |
| CommandEffects.FailoverParts | crates/ironcache-raft-net/src/config_sm.rs:143-177 | after a failover a slot's owner is its own replica if and only if the promoted node is unknown and the slot is owned |
| Convergence.InstallEqualsReplay | crates/ironcache-cluster/src/lib.rs:1109-1321 | installing the snapshot of a met node and applying the suffix gives the by-id view and the ownership answers of replaying the whole log; right after the install nothing at all differs if and only if both endpoints carry the same tags and the snapshot's node is met or the same, and then nothing ever does |
| Convergence.InstallIsReplayExactly | crates/ironcache-cluster/src/lib.rs:1224-1321 | that exact condition, for any two nodes |
| MigrationTags.TagAfterInstall | crates/ironcache-cluster/src/lib.rs:1224-1321 | slot by slot after any suffix: the tag is as replay would have left it if and only if the suffix overwrites it or what is left of the two nodes' tags at the snapshot is the same |
| MigrationTags.StepAt | crates/ironcache-raft-net/src/config_sm.rs:99-218 | what each command does to one slot's tag and owner: the tag is kept, overwritten, or dropped with its peer, and the owner changes only with the tag or by unassigning |
| MigrationTags.MigratingMeansOwner | crates/ironcache-raft-net/src/config_sm.rs:178-190 | a node that replays from boot and carries a MIGRATING tag owns the slot if and only if the slot was not unassigned under the tag |
| MigrationTags.MigratingAfter | crates/ironcache-raft-net/src/config_sm.rs:178-190 | the same for a node in any state that mirrors a prefix, wherever its tags came from: as after a replay if the suffix overwrote the tag, otherwise if and only if it owned the slot at the start and it was not unassigned since |
| MigrationTags.MigratingAfterInstall | crates/ironcache-raft-net/src/config_sm.rs:178-190 | after an install and any suffix, a node carrying a MIGRATING tag owns the slot if and only if the tag is its own (the snapshot is of its endpoint, or the suffix overwrote it) and the slot was not unassigned under it |
| MigrationTags.MigratingExcludesOthers | crates/ironcache-raft-net/src/config_sm.rs:178-190 | under a MIGRATING tag the slot belongs to the tagged node or to nobody |
| MigrationTags.InstalledTagWithoutOwner | crates/ironcache-raft-net/src/config_sm.rs:235-254 | a concrete install after which a node that is not the source shows MIGRATING, with nothing unassigned |
| MigrationTags.MigratingWithoutOwner | crates/ironcache-raft-net/src/config_sm.rs:120-132 | a concrete five-command log after which a node is tagged MIGRATING on a slot nobody owns |
| Ownership.NamedBeforeMetTwoOwners | crates/ironcache-cluster/src/lib.rs:1563-1596 | why owners must be met before they are named: a concrete three-command log that names one first, after which two nodes serve slot 0 |
| Convergence.SnapshotsAgreeExactly | crates/ironcache-cluster/src/lib.rs:1086-1176 | two nodes at the same prefix emit the same bytes if and only if the committed tag table gives their endpoints the same tags and both have been met, or they are the same node |
| Convergence.SnapshotsCanDiffer | crates/ironcache-cluster/src/lib.rs:1086-1107 | a concrete four-command log, one open migration, after which the two nodes emit different bytes and an install differs from a replay |
| Convergence.UnmetSnapshotsDiffer | crates/ironcache-cluster/src/lib.rs:1086-1107 | a second concrete input: at the empty log, with no tags, two nodes emit different bytes |
| SnapshotView.BytesInjective | crates/ironcache-cluster/src/lib.rs:1109-1176 | different views have different bytes |
| Convergence.InstallMirrors | crates/ironcache-cluster/src/lib.rs:1224-1321 | whatever state the restoring node was in, after the install it mirrors the committed view |
| Convergence.MirrorsOn | crates/ironcache-raft-net/src/config_sm.rs:78-219 | what mirrors a prefix mirrors the whole log after the suffix |
| Publication.ReadsSwitchOnce | crates/ironcache-cluster/src/lib.rs:1191-1209 | the bitmap's state is its list of stores; when the stores added never give one slot two values there is, for each slot, one instant before which every lock-free `owns` read returns the old value and after which every one returns the new, so an unchanged slot never dips |
| LockedReads.LockedReadsSeeOneMap | crates/ironcache-cluster/src/lib.rs:770-794 | in every interleaving of any threads, store by store, a `moved_target` or `owner_id` answer is nobody exactly if the view of the map the last completed mutator left has no owner for the slot, and otherwise is that owner's id with the host and port the view registers for it |
| LockedReads.AnswersFromSettled | crates/ironcache-cluster/src/lib.rs:770-794 | owner index and node table of an answer come from one and the same completed map, whatever the mutators store |
| LockedReads.FlipStores | crates/ironcache-cluster/src/lib.rs:1563-1596 | the four stores of an ownership flip, performed one by one, make the by-id flip |
| LockedReads.MeetStore | crates/ironcache-cluster/src/lib.rs:1686-1693 | the table store of a meeting makes the by-id meeting |
| LockedReads.NextSafe | crates/ironcache-cluster/src/lib.rs:770-794 | every micro-step (lock, one store, index load, table lookup, unlocked tag store) keeps that guarantee |
| SlotMapModule.SlotMap.EmptySelf | crates/ironcache-cluster/src/lib.rs:717-739 | a valid map of one node at the given host and port; no slot has an owner, a replica, a tag or its bit set; all epochs zero |
| SlotMapModule.SlotMap.Owns | crates/ironcache-cluster/src/lib.rs:756-758 | the one-bit answer is true exactly if the slot has an owner at this node's endpoint |
| SlotMapModule.SlotMap.MovedTarget | crates/ironcache-cluster/src/lib.rs:770-780 | the endpoint registered for the owner's id, or nothing if unassigned |
| SlotMapModule.SlotMap.OwnerId | crates/ironcache-cluster/src/lib.rs:787-794 | the owner's id in the by-id view |
| SlotMapModule.SlotMap.IsReplicaOfSelf | crates/ironcache-cluster/src/lib.rs:846-858 | true exactly if the slot's replica id is registered at this node's endpoint |
| SlotMapModule.SlotMap.MigrationPeerId | crates/ironcache-cluster/src/lib.rs:909-919 | the peer id of the slot's tag, or nothing |
| SlotMapModule.SlotMap.IsSelf | crates/ironcache-cluster/src/lib.rs:994-1009 | true exactly for ids registered at this node's endpoint |
| SlotMapModule.SlotMap.SetSlotNode | crates/ironcache-cluster/src/lib.rs:1563-1596 | the by-id owner changes and the slot's tag is cleared, an unknown id changes nothing, and exactly one store goes into the bitmap: whether the new owner is at this node's endpoint |
| SlotMapModule.SlotMap.ClearSlotOwner | crates/ironcache-cluster/src/lib.rs:1606-1612 | only this slot's owner is cleared, with exactly one store of false into the bitmap |
| SlotMapModule.SlotMap.SetSlotReplica | crates/ironcache-cluster/src/lib.rs:1622-1633 | only this slot's replica changes, and only to a known id; no ownership bit is stored |
| SlotMapModule.SlotMap.ClearSlotReplica | crates/ironcache-cluster/src/lib.rs:1644-1662 | the replica is cleared exactly if it is the named node |
| SlotMapModule.SlotMap.SetTag | crates/ironcache-cluster/src/lib.rs:930-962 | the slot is tagged with phase and peer id together, for a known peer only; ownership is untouched |
| SlotMapModule.SlotMap.ClearTag | crates/ironcache-cluster/src/lib.rs:970-975 | phase and peer are cleared together |
| SlotMapModule.SlotMap.Meet | crates/ironcache-cluster/src/lib.rs:1686-1693 | a new id is registered with epoch 0, a known id changes nothing, and every slot keeps its meaning |
| SlotMapModule.SlotMap.Forget | crates/ironcache-cluster/src/lib.rs:1704-1773 | an unknown id, self and an owner of slots are refused, in this order, each with its error and no change at all; otherwise owner ids are unchanged, replica and tag entries naming the removed node cleared, everything else unchanged by id under renumbering, self the same entry, no ownership bit changed |
| SlotMapFacts.ForgottenMeans | crates/ironcache-cluster/src/lib.rs:1728-1773 | renumbering every index above the removed entry is, by id, exactly removing that node |
| SlotMapFacts.ForgottenKeepsInv | crates/ironcache-cluster/src/lib.rs:1728-1773 | the renumbered map is well formed: indices in range, ids distinct, tags paired, bits in lockstep |
| SlotMapModule.SlotMap.CheckBatch | crates/ironcache-cluster/src/lib.rs:1490-1504 | a batch passes if and only if no slot is named twice and every one is assigned, or unassigned, as wanted; otherwise the error is about the first slot in the list that offends, a repetition being reported as such before anything else |
| SlotMapModule.SlotMap.AddSlots | crates/ironcache-cluster/src/lib.rs:1490-1512 | succeeds if and only if the slots are distinct and all unassigned, and then makes self the owner of exactly those; otherwise nothing changes and the first offending slot is reported, as a duplicate if it occurs earlier in the list, else as busy |
| SlotMapModule.SlotMap.DelSlots | crates/ironcache-cluster/src/lib.rs:1522-1540 | succeeds if and only if the slots are distinct and all assigned, and then leaves exactly those unowned; otherwise nothing changes and the first offending slot is reported, as a duplicate if it occurs earlier in the list, else as unassigned |
| SlotMapFacts.BatchMeans | crates/ironcache-cluster/src/lib.rs:1490-1540 | storing a batch index by index is, by id, setting those owners, and keeps bits and owners in lockstep |
| SlotMapModule.SlotMap.FlushSlots | crates/ironcache-cluster/src/lib.rs:1671-1681 | exactly the slots owned under self's own id are released; afterwards this node serves nothing if and only if it served nothing under another id |
| SlotMapFacts.FlushReleases | crates/ironcache-cluster/src/lib.rs:1664-1681 | slot by slot: a slot is still served after the flush exactly if it was served under another id at self's endpoint |
| SlotMapFacts.AliasSurvivesFlush | crates/ironcache-cluster/src/lib.rs:1664-1681 | a concrete map with a slot held under a second id, still served after the flush |
| SlotMapModule.SlotMap.SetCommittedEpoch | crates/ironcache-cluster/src/lib.rs:1082-1084 | only the cluster epoch changes |
| SlotMapModule.SlotMap.SetConfigEpoch | crates/ironcache-cluster/src/lib.rs:1910-1929 | the two refusals, each without effect; otherwise own epoch and, if larger, the cluster epoch |
| SlotMapModule.SlotMap.BumpEpoch | crates/ironcache-cluster/src/lib.rs:1937-1961 | still exactly if already at the top; otherwise one above the largest epoch known here; afterwards own epoch is the maximum either way |
| SlotMapModule.SlotMap.SerializeCommitted | crates/ironcache-cluster/src/lib.rs:1109-1176 | the bytes are a function of the by-id view alone, so maps that differ in table order or in which node they are emit the same bytes |
| SlotMapModule.SlotMap.RestoreCommitted | crates/ironcache-cluster/src/lib.rs:1224-1321 | bytes that do not decode leave the whole state unchanged; any bytes that decode give a valid map meaning exactly the snapshot plus this node, with epochs zeroed and self kept; each ownership bit gets one store, straight to its final value |
| SlotMapModule.SlotMap.DedupNodesByEndpoint | crates/ironcache-cluster/src/lib.rs:1799-1900 | one entry per endpoint is left, every slot keeps its owner, replica and peer endpoint, bits and self are untouched, the result counts the removed entries and is 0 exactly if endpoints were distinct, so a second call returns 0 |
| Dedup.KeptMeans | crates/ironcache-cluster/src/lib.rs:1803-1830 | the surviving entry of an endpoint is self where self shares it, else the lowest |
| Dedup.FindCanonical | crates/ironcache-cluster/src/lib.rs:1803-1830 | the pairwise pass, with its re-pointing when self turns up late, computes the surviving entry of every index |
| Dedup.CompactTables | crates/ironcache-cluster/src/lib.rs:1861-1875 | survivors keep their order with their epochs, and the translation sends every index to its survivor's new place |
| Dedup.DedupMeans | crates/ironcache-cluster/src/lib.rs:1799-1900 | the collapse keeps the map well formed and every stored index's endpoint |
| Dedup.EndpointsKept | crates/ironcache-cluster/src/lib.rs:1799-1900 | in terms of ids: each slot has an owner, a replica and a tag exactly if it had one, at the endpoint it was at, the tag in its phase |
| SlotTypes.MineIsOwnedAt | crates/ironcache-cluster/src/lib.rs:756-758 | in every well-formed map the cached bit equals the slow lookup by endpoint |
| SlotTypes.ViewIsOk | crates/ironcache-cluster/src/lib.rs:1563-1773 | in every well-formed map the by-id view names only registered nodes |
| Topology.Resolve | crates/ironcache-cluster/src/lib.rs:623-706 | accepted exactly if non-empty, ids well formed and distinct, ranges well formed, disjoint and covering, and self named, and then each slot's owner is the node declaring it; every other topology gets exactly the error, or the panic, of the place where the scan stops, and panics if and only if the first thing wrong, in scan order, is a slot that an earlier range of the same node names |
| Topology.BlamedIsBad | crates/ironcache-cluster/src/lib.rs:208-228 | an error value is never raised against a valid topology |
| Topology.OneBlame | crates/ironcache-cluster/src/lib.rs:623-675 | a topology has at most one error |
| Topology.PanicIsNoBlame | crates/ironcache-cluster/src/lib.rs:649-660 | a topology that panics has no error value |
| Topology.OneStop | crates/ironcache-cluster/src/lib.rs:635-661 | the scan complains about one range of one node at most |
| Topology.DoubleNamingPanics | crates/ironcache-cluster/src/lib.rs:649-660 | a concrete topology that panics, at slot 5 |
| Topology.RefusedWithoutTwice | crates/ironcache-cluster/src/lib.rs:623-675 | a topology that is refused with an error value and names some slot twice has another fault besides |
| Topology.ClaimRange | crates/ironcache-cluster/src/lib.rs:649-658 | one range is claimed in full, or the first slot of it already taken is reported with its holder |
| Topology.ClaimRanges | crates/ironcache-cluster/src/lib.rs:645-659 | all ranges of a node are claimed, or it stops at the first range that is bad or runs into a taken slot, the ranges before it being in order and free; a clash with itself means it names that slot twice |
| Topology.ErrorExamples | crates/ironcache-cluster/src/lib.rs:623-706 | each of the seven errors by a concrete topology: which id, range or slot it names, and for an overlap whose the slot was before whose |
| Topology.TopologyOkMeans | crates/ironcache-cluster/src/lib.rs:623-675 | a topology is valid if and only if it names this node, its ids are valid and distinct, its ranges run forward within 0 to 16383, and every one of the 16384 slots is in exactly one range of exactly one node |
| Topology.ValidIdMeans | crates/ironcache-cluster/src/lib.rs:317-322 | a valid id is 40 characters, each one of 0123456789abcdef |
| Topology.SomeIdIsValid | crates/ironcache-cluster/src/lib.rs:317-322 | a concrete valid id |
| SlotMapModule.Build | crates/ironcache-cluster/src/lib.rs:623-706 | the map built holds the declared owners, errors and panic are exactly those of the resolution, and its bits agree with the endpoints if and only if no other node declares slots under self's endpoint |
| SlotMapModule.SharedEndpointDisagrees | crates/ironcache-cluster/src/lib.rs:677-685 | a concrete valid topology, two nodes under one endpoint, for which they do not agree |
| SnapshotCodec.DecodeEncode | crates/ironcache-cluster/src/lib.rs:331-443 | decoding an encoded snapshot gives it back and consumes exactly its bytes, whatever follows |
| SnapshotCodec.TruncatedRejected | crates/ironcache-cluster/src/lib.rs:346-443 | no strict prefix of an encoded snapshot decodes |
| SnapshotCodec.SnapshotStable | crates/ironcache-cluster/src/lib.rs:346-443 | a successful decode is unchanged by appended bytes |
| SnapshotMeaning.WrittenWord | crates/ironcache-cluster/src/lib.rs:331-337 | the eight or two bytes written for a number are worth that number, the least significant first |
| SnapshotMeaning.SnapshotInFull | crates/ironcache-cluster/src/lib.rs:1109-1176 | a concrete snapshot with one entry in each list, byte by byte |
| SnapshotMeaning.LessMeans | crates/ironcache-cluster/src/lib.rs:1120-1122 | the order of ids: shorter and a prefix, or the smaller byte where they first differ |
| SnapshotMeaning.SlotListMeans | crates/ironcache-cluster/src/lib.rs:1134-1157 | one owner or replica entry for exactly the slots that have one, ascending |
| SnapshotMeaning.TagListMeans | crates/ironcache-cluster/src/lib.rs:1158-1176 | one entry for exactly the tagged slots, ascending, with the peer and 1 for MIGRATING or 2 for IMPORTING |
| SnapshotMeaning.SnapshotMeans | crates/ironcache-cluster/src/lib.rs:1109-1176 | the snapshot of a view has its epoch, exactly its nodes with their endpoints in id order, and in its three lists exactly its owners, its replicas and its tags |
| SnapshotMeaning.FillIdsMeans | crates/ironcache-cluster/src/lib.rs:1278-1295 | whatever list is installed, a slot gets the last entry about it that names a known node, and nothing if there is none |
| SnapshotMeaning.FillTagsMeans | crates/ironcache-cluster/src/lib.rs:1296-1303 | the same for tags, where an entry must also carry 1 or 2 |
| SnapshotMeaning.MeetAllMeans | crates/ironcache-cluster/src/lib.rs:1247-1259 | whatever nodes are installed, a node already there keeps its endpoint and a new one gets that of its first entry |
| SnapshotMeaning.InstalledMeans | crates/ironcache-cluster/src/lib.rs:1244-1316 | whatever the snapshot, the owners installed come from its owner list, the replicas from its replica list, the tags from its tag list, the epoch is its epoch, and the node itself is known under its own host and port |
| SnapshotDecoder.DecodeCommittedSnapshot | crates/ironcache-cluster/src/lib.rs:409-443 | the cursor-driven decoder accepts exactly what the grammar does, with the same value |
| SnapshotDecoder.De.U8 | crates/ironcache-cluster/src/lib.rs:356-360 | the byte under the cursor, which moves on by one, or nothing at the end |
| SnapshotDecoder.De.U16 | crates/ironcache-cluster/src/lib.rs:362-367 | the next byte plus 256 times the one after it, or nothing if fewer than two are left |
| SnapshotDecoder.De.U64 | crates/ironcache-cluster/src/lib.rs:369-376 | the next eight bytes, the least significant first, or nothing if fewer are left |
| SnapshotDecoder.De.String | crates/ironcache-cluster/src/lib.rs:378-384 | as many bytes as the eight before them say, exactly if that many are left and they are UTF-8 |
| SnapshotView.SnapshotRoundTrip | crates/ironcache-cluster/src/lib.rs:1109-1321 | bytes of a view decode to its snapshot, installing them anywhere gives that view plus the installing node, and re-serialising gives the same bytes if that node was already in it |
| SnapshotView.InstallReproduces | crates/ironcache-cluster/src/lib.rs:1244-1316 | installing the snapshot of a view gives that view plus the installing node |
| SnapshotIO.SortedTableIsNodeList | crates/ironcache-cluster/src/lib.rs:1120-1133 | whatever the table order, the sorted table is the by-id node list |
| SnapshotIO.RebuildTable | crates/ironcache-cluster/src/lib.rs:1247-1259 | self first, then each new id once: exactly the nodes met in order |
| SnapshotIO.FillOwners | crates/ironcache-cluster/src/lib.rs:1278-1290 | the index array means the listed owners that are known, and the bits follow the endpoints |
| SnapshotIO.FillReplicas | crates/ironcache-cluster/src/lib.rs:1291-1295 | the index array means the listed replicas that are known |
| SnapshotIO.FillPeers | crates/ironcache-cluster/src/lib.rs:1296-1303 | phases and peers mean the listed tags, always paired |
| ConfigSmModule.ConfigSm.Apply | crates/ironcache-raft-net/src/config_sm.rs:78-219 | the node takes exactly the step the log prescribes for it, epoch plus one and the command's effect on its by-id view, and the whole command never stores two values into one ownership bit |
| ConfigSmModule.ConfigSm.PromoteAll | crates/ironcache-raft-net/src/config_sm.rs:143-177 | the loop of set, clear and re-home over the slots is the failover whose result `ReplicaAfter`, `OwnerAfter` and `TagAfter` give slot by slot |
| ConfigSmModule.ConfigSm.Snapshot | crates/ironcache-raft-net/src/config_sm.rs:221-233 | the epoch, then bytes that depend on the by-id view alone |
| ConfigSmModule.ConfigSm.Restore | crates/ironcache-raft-net/src/config_sm.rs:235-254 | the epoch read off the front (0 if too short) and the rest installed; map bytes that do not decode leave nodes and slots unchanged under the epoch read; no ownership bit is stored twice with different values |
| ConfigSmModule.RestoreUndoesSnapshot | crates/ironcache-raft-net/src/config_sm.rs:221-254 | restoring another node's snapshot, over any map, gives that node's view and epoch, plus the restoring node |
| ConfigSmModule.MalformedRestore | crates/ironcache-raft-net/src/config_sm.rs:235-254 | bytes that do not decode lead to the documented cleared map at epoch 0 if and only if nodes and slots were fresh already and the epoch they announce is 0 |
| ConfigSmModule.RestoreOfNothing | crates/ironcache-raft-net/src/config_sm.rs:235-254 | a concrete input where they do not: the empty buffer over a map with an owned slot |
| ConfigSmModule.ApplyAll | crates/ironcache-raft-net/src/config_sm.rs:78-219 | a log applied command by command to a real map gives the view that replaying it prescribes |
| ConfigSmModule.BootAndApply | crates/ironcache-raft-net/src/config_sm.rs:60-64 | a node booted alone on the log holds the replayed view |
| ConfigSmModule.CatchUp | crates/ironcache-raft-net/src/config_sm.rs:221-254 | a follower that restores a leader's snapshot and applies the suffix ends with the owners and epoch of a full replay, even if the leader is not met; with the whole view but the tags if it is; and with the tags if the two carried the same |
| ConfigSmModule.InstallLeavesRoom | crates/ironcache-raft-net/src/config_sm.rs:235-254 | with a met leader the follower needs no larger node table than replaying would |
| Ranges.Ranges | crates/ironcache-cluster/src/lib.rs:1331-1363 | the coalescing scan yields the maximal runs |
| Ranges.RunsAreCanonical | crates/ironcache-cluster/src/lib.rs:1331-1363 | those runs are sorted, disjoint, maximal, rightly owned and cover exactly the assigned slots |
| Ranges.CanonicalUnique | crates/ironcache-cluster/src/lib.rs:1331-1363 | an owner array has only one such form |
| Ranges.RunsCount | crates/ironcache-cluster/src/lib.rs:1035-1040 | a node's runs hold exactly its slots |
| Ranges.RunsTotal | crates/ironcache-cluster/src/lib.rs:1035-1040 | all runs together hold exactly the assigned slots |
| RebalanceOrder.OwnedCounts | crates/ironcache-cluster/src/lib.rs:1382-1387 | the count of a node's slots is the size of the set of slots it owns |
| RebalanceOrder.AssignedCounts | crates/ironcache-cluster/src/lib.rs:1035-1040 | the count of assigned slots is the size of the set of slots with an owner |
| RangesRebuild.RebuildsSameOwners | crates/ironcache-cluster/src/lib.rs:623-669 | declaring the ranges of a complete map with valid ids is a valid topology, and the only owner array it resolves to is the original |
| RebalancePlanner.RebalancePlan | crates/ironcache-cluster/src/lib.rs:1376-1402 | every node with the number of slots it owns and its share: the owned total divided by the number of nodes, one more for the first nodes as many as the remainder, the shares adding up to the total |
| RebalancePlanner.RebalanceMoves | crates/ironcache-cluster/src/lib.rs:1420-1478 | the two-cursor loop computes exactly the plan, and neither defensive exit is ever taken |
| RebalancePlanner.ReceiverExists | crates/ironcache-cluster/src/lib.rs:1457-1464 | while a donor has surplus the receiver cursor stops at a node in deficit |
| RebalancePlanner.SlotsPerNode | crates/ironcache-cluster/src/lib.rs:1428-1436 | each node's slots, ascending |
| RebalancePlanner.CountPerNode | crates/ironcache-cluster/src/lib.rs:1382-1387 | each node's slot count, taken run by run |
| Rebalance.TargetsSumToTotal | crates/ironcache-cluster/src/lib.rs:1388-1402 | the shares add up to what is assigned |
| Rebalance.PlanPlace | crates/ironcache-cluster/src/lib.rs:1420-1478 | every move takes a slot its source owns, from a node above its share to one below |
| Rebalance.PlanSlotsDistinct | crates/ironcache-cluster/src/lib.rs:1420-1478 | no slot moves twice |
| Rebalance.PlanReachesTargets | crates/ironcache-cluster/src/lib.rs:1420-1478 | carrying out the plan puts every node exactly at its share |
| Rebalance.PlanIsMinimal | crates/ironcache-cluster/src/lib.rs:1420-1478 | no list of single-slot moves that reaches the shares is shorter |
| Rebalance.EmptyPlanAtTargets | crates/ironcache-cluster/src/lib.rs:1420-1478 | the plan is empty exactly if every node is at its share |
| RebalanceOrder.SharesAreEven | crates/ironcache-cluster/src/lib.rs:1388-1402 | shares differ by at most one and the nodes listed first have the larger ones |
| RebalanceOrder.PlanOrder | crates/ironcache-cluster/src/lib.rs:1408-1416 | moves come donor by donor and receiver by receiver in table order, a donor's slots ascending |
| RebalanceOrder.LowestFirst | crates/ironcache-cluster/src/lib.rs:1408-1416 | a donor gives its lowest slots: what it owns below a slot it gives, it gives earlier |
| Rebalance.ReplanAfterCommit | crates/ironcache-cluster/src/lib.rs:513-516 | committing any one planned move, in any order, leaves a map whose plan is exactly the rest |
| RebalanceDriver.VisitMeans | crates/ironcache-cluster/src/lib.rs:551-605 | what a visit proposes and does at each stage of a move, touching no other slot, whether the controller reads one shared map or the map of any node, on which tags are node-relative; on a bystander's map starting a migration shows nothing |
| RebalanceDriver.DecisionTable | crates/ironcache-cluster/src/lib.rs:551-565 | which of the four steps is due, for all eight combinations of verdicts |
| RebalanceDriver.PlanIsStartable | crates/ironcache-cluster/src/lib.rs:1420-1478 | a fresh plan on a map with no migration in flight is one the driver can start on |
| RebalanceDriver.RunOnTrack | crates/ironcache-cluster/src/lib.rs:551-605 | in every run, whatever the order of visits and the verdicts, each planned slot is at one of its three stages and all else is as at the start |
| RebalanceDriver.OwnerChangesOnlyByCommit | crates/ironcache-cluster/src/lib.rs:551-605 | an owner changes only in a Commit visit to that slot's move, from source to destination, with a migration in flight and a true verdict |
| RebalanceDriver.NeverUnassigned | crates/ironcache-cluster/src/lib.rs:551-605 | no run leaves an owned slot without owner |
| RebalanceDriver.VisitMakesProgress | crates/ironcache-cluster/src/lib.rs:551-605 | a visit that starts or commits takes one off the remaining work; AwaitCopy, Done, and starting a migration the controller cannot see change nothing |
| RebalanceDriver.FinishesExactlyWhenSeen | crates/ironcache-cluster/src/lib.rs:513-565 | some run finishes a move if and only if the controller reads the source's or the destination's map |
| RebalanceDriver.BystanderSeesNothing | crates/ironcache-cluster/src/lib.rs:513-565 | a concrete map and move that a controller on a third node cannot see |
| RebalanceDriver.ActIsCommitted | crates/ironcache-raft-net/src/config_sm.rs:112-213 | an action on a node's map is the committed command it stands for, applied there |
| RebalanceDriver.RestartResumes | crates/ironcache-cluster/src/lib.rs:548-549 | planning afresh at any point of any run gives exactly the unfinished moves, in the same order, with the same shares |
| RebalanceDriver.DoneMeansBalanced | crates/ironcache-cluster/src/lib.rs:551-605 | when every move is Done, every node is exactly at its share |
| RebalanceApply.RebalanceApplyCmds | crates/ironcache/src/serve_cluster_cmd.rs:620-644 | the walk over the plan builds the two tagging commands of exactly the first moves, up to the cap, whose slots carry no tag |
| RebalanceApply.CommandsAt | crates/ironcache/src/serve_cluster_cmd.rs:633-641 | the commands come two per move, in the order of the moves, first MIGRATING to its destination and then IMPORTING from its source |
| RebalanceApply.SecondCall | crates/ironcache/src/serve_cluster_cmd.rs:601-604 | after its batch is committed, running the command again on the same node arms a move of the batch once more if and only if the node is neither its source nor its destination, and a new move if and only if the plan had more untagged moves than one batch and the node is part of some move of it |
| RebalanceApply.AfterOneCall | crates/ironcache/src/serve_cluster_cmd.rs:601-604 | the moves left untagged: those of the batch this map is not part of, then the rest of the plan |
| RebalanceApply.SameBatchAgain | crates/ironcache/src/serve_cluster_cmd.rs:585-588 | on a node that is part of no move of the batch every call arms the same batch |
| RebalanceApply.ThirdNodeArmsAgain | crates/ironcache/src/serve_cluster_cmd.rs:585-588 | a concrete map, move and node where it does |
| RebalanceApply.CommandsArm | crates/ironcache/src/serve_cluster_cmd.rs:633-641 | what the batch's commands do on a node is what arming its moves there does |
| RebalanceApply.PlanStaysPlanned | crates/ironcache/src/serve_cluster_cmd.rs:624-632 | the planner's moves meet the conditions of these results, whatever is migrating, and arming does not change them |
| RespWire.ScanCrlf | crates/ironcache-bench/src/client.rs:197-206 | the first CR LF at or after the cursor, or none |
| RespWire.ParseDecimal | crates/ironcache-bench/src/client.rs:236-242 | the decimal text of a length parses back to it |
| RespWire.EncodeCommandInto | crates/ironcache-bench/src/client.rs:172-183 | the buffer grows by exactly the frame of the command, whose bytes `FrameBytes` gives |
| WireLiterals.FrameBytes | crates/ironcache-bench/src/client.rs:172-183 | in ASCII: `*`, the argument count, a line end, and for each argument `$`, its length, a line end, the argument and a line end |
| WireLiterals.GetFrame | crates/ironcache-bench/src/client.rs:168-171 | the documented frame of `GET k:1`, byte by byte |
| WireLiterals.WireBytes | crates/ironcache-bench/src/client.rs:211-287 | in ASCII: each kind of reply with its character `+`, `-`, `:`, `$` or `*`, its line and its line end |
| WireLiterals.DecimalMeans | crates/ironcache-bench/src/client.rs:174-178 | decimal text without a needless leading zero, worth the number it was made from |
| WireLiterals.PlaceValue | crates/ironcache-bench/src/client.rs:236-242 | each digit counts ten times as much with every digit behind it |
| WireLiterals.ParseI64Means | crates/ironcache-bench/src/client.rs:226-229 | a number is read exactly from digits with an optional sign, and exactly if it fits 64 signed bits |
| WireLiterals.BenchWaitsOrRefuses | crates/ironcache-bench/src/client.rs:211-287 | bytes without a complete first line ask for more; any lead but the five is refused |
| WireLiterals.BenchReadsText | crates/ironcache-bench/src/client.rs:216-231 | for every line after `+`, `-` or `:`, whatever follows: the reply or fault, and its length |
| WireLiterals.BenchReadsBulk | crates/ironcache-bench/src/client.rs:232-258 | for every line after `$`: refused if no number, no value if negative, else wanting and returning that many bytes and skipping two |
| WireLiterals.BenchReadsArray | crates/ironcache-bench/src/client.rs:259-285 | for every line after `*`: refused if no number, empty if negative, else that many replies from what follows |
| WireLiterals.BenchExamples | crates/ironcache-bench/src/client.rs:211-287 | five replies given as text, and what they parse to |
| WireLiterals.BusWaitsOrPanics | crates/ironcache-clusterbus/src/lib.rs:389-397 | bytes without a complete line ask for more, and the parser panics exactly on a leading line end |
| WireLiterals.BusReadsText | crates/ironcache-clusterbus/src/lib.rs:398-412 | for every line after any lead but `$`: the reply or fault, and its length |
| WireLiterals.BusReadsBulk | crates/ironcache-clusterbus/src/lib.rs:413-430 | for every line after `$`: refused if no number, no value if negative, else that many bytes, refused if no line end follows them |
| WireLiterals.BusExamples | crates/ironcache-clusterbus/src/lib.rs:389-431 | the same five replies given as text, and what they parse to |
| BenchParser.ParseWire | crates/ironcache-bench/src/client.rs:211-287 | every reply, nested to any depth, parses back from its frame and takes exactly its own bytes, CR LF inside bodies included |
| BenchParser.ItemsWire | crates/ironcache-bench/src/client.rs:109-113 | the same for replies one behind the other |
| BenchParser.FramesRoundTrip | crates/ironcache-bench/src/client.rs:172-183 | a batch of encoded commands splits back into exactly those commands and uses every byte |
| BenchParser.ParseStable | crates/ironcache-bench/src/client.rs:211-287 | a complete or malformed outcome is unchanged by appended bytes |
| BenchParser.PrefixNeedsMore | crates/ironcache-bench/src/client.rs:211-287 | every strict prefix of a complete reply asks for more |
| BenchClient.ParseReply | crates/ironcache-bench/src/client.rs:211-287 | the cursor-driven recursive parser computes the grammar's answer at the cursor and leaves the cursor just past a complete reply |
| BenchClient.ReadBody | crates/ironcache-bench/src/client.rs:232-258 | the bulk branch: null, short, or body plus two skipped bytes |
| BenchClient.ReadItems | crates/ironcache-bench/src/client.rs:275-283 | the array loop stops at the first unfinished or refused item, else yields all of them |
| BenchClient.Conn.Fill | crates/ironcache-bench/src/client.rs:155-166 | one read is appended, or end of stream reported, and no byte of the stream is lost |
| BenchClient.Conn.ReadReply | crates/ironcache-bench/src/client.rs:131-152 | for every way the stream is cut into reads: the reply the whole stream starts with, exactly its bytes dropped; or the fault; or end of stream with nothing dropped |
| BenchClient.Conn.ReadReplies | crates/ironcache-bench/src/client.rs:109-113 | n reads give the first n replies of the whole stream |
| BenchClient.Conn.Pipeline | crates/ironcache-bench/src/client.rs:94-114 | what is written is the batch's frames, and what is returned is one reply per command off the whole stream |
| BenchClient.EncodeBatch | crates/ironcache-bench/src/client.rs:103-106 | the batch buffer is the frames in order |
| ClusterBus.ParseReply | crates/ironcache-clusterbus/src/lib.rs:389-431 | the parser's answer on every buffer, its panic included |
| ClusterBus.ParseStable | crates/ironcache-clusterbus/src/lib.rs:389-431 | once there is an answer, appended bytes do not change it |
| ClusterBus.PanicsExactlyOnEmptyLine | crates/ironcache-clusterbus/src/lib.rs:389-397 | the line slice is out of range exactly if the buffer opens with CR LF |
| ClusterBus.PeerConn.Request | crates/ironcache-clusterbus/src/lib.rs:308-334 | one frame out, and exactly one reply off the stream for every way it is cut into receives |
| ClusterBus.BusReplyIsBenchReply | crates/ironcache-clusterbus/src/lib.rs:389-431 | a reply the bus completes (text lines being UTF-8) the bench parser completes as the same reply of the same length |
| ClusterBus.BenchReplyIsBusReply | crates/ironcache-clusterbus/src/lib.rs:389-431 | the converse, with the exact exceptions: arrays, and a bulk body not followed by CR LF, which only the bus refuses |
| Utf8.LossyKeepsValid | crates/ironcache-clusterbus/src/lib.rs:398-405 | lossy conversion leaves valid text as it is |
| Utf8.LossyIsValid | crates/ironcache-clusterbus/src/lib.rs:398-405 | lossy conversion always yields valid text |
| Utf8.Utf8Means | crates/ironcache-cluster/src/lib.rs:378-384 | a byte string is valid if and only if it is the encoding of some sequence of Unicode scalar values |
| Utf8.StepReadsCharacter | crates/ironcache-cluster/src/lib.rs:378-384 | the encoding of every scalar value is read as one character, whatever follows it |
| Utf8.StepIsMaximal | crates/ironcache-clusterbus/src/lib.rs:398-405 | where no character stands, what is replaced at once is the longest beginning of one, at least a byte |
| Utf8.LossyExamples | crates/ironcache-clusterbus/src/lib.rs:398-405 | three concrete replacements |
| EditDistance.Levenshtein | crates/ironcache-config/src/lib.rs:3033-3047 | the two-row in-place program computes the recurrence |
| EditDistance.DistanceIsFewestEdits | crates/ironcache-config/src/lib.rs:3031-3032 | the recurrence is the fewest single-byte edits: some chain of edits takes that many, none takes fewer |
| EditDistance.Symmetric | crates/ironcache-config/src/lib.rs:3033-3047 | the distance is the same both ways |
| EditDistance.Triangle | crates/ironcache-config/src/lib.rs:3033-3047 | the triangle inequality |
| EditDistance.NearestEnvKey | crates/ironcache-config/src/lib.rs:3020-3029 | the first nearest name, given exactly if some name is within 3 edits and fewer than the key has bytes |
| Generation.CaughtUpIsCurrent | crates/ironcache-config/src/runtime.rs:306-328 | in every interleaving of any setters and shards, a shard whose last-seen generation is current while no setter is between store and bump holds the current policy name and all eight current thresholds |
| Generation.CaughtUpButForPending | crates/ironcache-config/src/runtime.rs:648-711 | cell by cell, without that proviso: a caught-up shard is wrong only about cells stored and not yet published |
| Generation.NextKeepsInv | crates/ironcache-server/src/dispatch.rs:493-516 | every atomic step of setters and shards keeps each shard's copies right, known to be outdated, or about to be published |
| Generation.HeldDuringReload | crates/ironcache-server/src/dispatch.rs:500-516 | during a reload the policy name is in effect as soon as it is read, the thresholds all together at the end |
| Generation.CommandCatchesUp | crates/ironcache-server/src/dispatch.rs:500-516 | one uninterrupted per-command check from any reachable quiet state leaves every setting current |
| Generation.RuntimeConfig.SetPolicyName | crates/ironcache-config/src/runtime.rs:368-385 | exactly two atomic writes, the name and then the bump: the name's cell holds it, no other cell changes, and the generation, which is returned, is one more modulo 2^64 |
| Generation.RuntimeConfig.SetEncodingThreshold | crates/ironcache-config/src/runtime.rs:671-711 | by name, for each of the eight: exactly two atomic writes, its own cell and then the bump, no other cell changing; seven hold the value modulo 2^64, `list-max-listpack-size` the signed value itself; any other name makes no write and returns false |
| Generation.SettersMakeCalls | crates/ironcache-config/src/runtime.rs:368-385 | in every run each setter's steps are whole calls of those two methods, a write and then a bump, the last perhaps half done, and it is pending exactly then |
| Generation.TurnsRun | crates/ironcache-config/src/runtime.rs:368-385 | whatever the order in which setters making calls and shards making checks take their turns, there is a run that takes them |
| Generation.MemoryIsItsWrites | crates/ironcache-config/src/runtime.rs:306-328 | in every run the shared cells and the counter are what those writes make of the boot values |
| Generation.ShardIsItsTrace | crates/ironcache-server/src/dispatch.rs:493-516 | in every run each shard is what its own loads and reads make of it |
| Generation.ShardsMakeChecks | crates/ironcache-server/src/dispatch.rs:493-516 | in every run each shard's loads and reads are whole checks as the method makes them, the last perhaps only begun |
| Generation.ShardCache.MaybeHotSwap | crates/ironcache-server/src/dispatch.rs:493-516 | one load while the counter stands still; when it has moved, the load, the name, the eight thresholds in order and only then the new last-seen value, after which everything held is current |

## Left out

- SlotMapModule.SlotMap.Meet: takes a new node only while the table has fewer than 65535 entries; indices are cast to 16 bits with 65535 as the sentinel, and the wrap beyond that is not modelled.
- SlotMapModule.SlotMap.RestoreCommitted: takes snapshots that make a table of at most 65535 entries, for the same reason.
- SlotMapModule.Build: takes topologies of at most 65535 nodes, for the same reason; `Topology.Resolve` has the same bound.
- ConfigSmModule.ConfigSm.Restore: takes buffers whose map bytes make a table of at most 65535 entries, for the same reason.
- SlotMapModule.SlotMap.BumpEpoch: epochs are unbounded here; the overflow of a 64-bit epoch is not modelled. The same goes for the epoch of `ConfigSm.Apply`.
- SlotMapModule.SlotMap.IsReplicaOfSelf: stated for a map at rest; the source loads the replica index before it takes the lock, and no interleaving claim is made for it, for `is_replica_of` or for `clear_slot_replica`.
- SlotMapModule.SlotMap.SetTag: one method for `set_migrating` and `set_importing`, which differ only in the phase byte they store.
- ConfigSmModule.ConfigSm.Apply: takes a new node only while the table has fewer than 65535 entries, for the same reason; committed entries that carry no configuration command are skipped by the source before anything happens and are not part of the log here; slots in commands are below 16384, as indexing the arrays demands; and a state machine starts over a map whose epoch is 0, as `empty_self` and `build` leave it.
- Ranges.Ranges and the planner methods take the owner array as a sequence, read once; the source loads it slot by slot under the table lock.
- RebalancePlanner.RebalanceMoves: the source sorts lists that are already ascending; the sort is not modelled.
- RebalanceDriver.VisitMeans: nothing in the repository loops over `apply_step` and `apply_actions` yet; which map such a loop reads is a parameter, and the epoch that each committed command advances is left aside. The command that arms a plan is `RebalanceApply`.
- Convergence.SnapshotsAgreeExactly: for logs that remove neither of the two nodes; a removed node keeps itself and its own replica entries, and only its owners are followed (`NoTwoOwners`). `InstallEqualsReplay` and the tag results have the same condition.
- MigrationTags.TagAfterInstall: for a snapshot of a node that has been met; what holds without that is `InstallKeepsOwners` and `InstallIsReplayExactly`.
- Generation.CaughtUpIsCurrent: for runs with fewer than 2^64 bumps; after that the counter repeats and a shard that slept through exactly 2^64 bumps would look caught up.
- Generation.ShardCache.MaybeHotSwap: the policy name is what the shard was handed; a name the store refuses, and the re-seeding of the policy, are outside the model.
- BenchClient.ParseReply: memory is unlimited; reserving space for a very large announced array count is not modelled.
- BenchClient.Conn.ReadReply: after a protocol fault nothing is promised about the cursor; the connection is not used again.
- Socket errors other than end of stream, TLS, DNS, timers and async plumbing of both clients.
- Weak memory: atomics are sequentially consistent interleaved steps.
- The Raft engine, proposal and failover logic, the server, the store, the Dash table and the RESP server decoder.
- Projections of the slot map that are one loop or one lookup each: `replicas_of`, `migration_state`, `migration_peer_endpoint`, `me`, `nodes`, `cluster_size`, `is_fully_assigned`.
- The rest of the configuration crate (overlay folding, environment reading, per-parameter validation, human sizes, save points), keyspace-notification flags and password hashing.
- The load generators, the Zipf workload, reports, console, command line, logging and packaging.
