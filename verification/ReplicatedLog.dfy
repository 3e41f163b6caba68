/**
 The committed configuration log, and what replaying it means on each node.

 Every node applies the same commands, but each starts knowing itself and tags migrations only where
 it is the source or the destination. `Apply` is one node's step; `Commit` is the step of a shared
 state that no node holds: the committed view with nobody's self in it, and a table of who carries
 which migration tag. The results tie every node to that shared state.
*/
module ReplicatedLog {
  import opened Core
  import opened SlotTypes

  datatype ConfigCmd =
    | AddNode(entry: NodeEntry)
    | RemoveNode(id: Str)
    | SetSlotOwner(slot: nat, node: Str)
    | AssignSlots(node: Str, slots: seq<nat>)
    | UnassignSlots(slots: seq<nat>)
    | SetConfigEpoch(epoch: nat)
    | AssignReplica(node: Str, slots: seq<nat>)
    | PromoteReplica(slots: seq<nat>, newPrimary: Str)
    | SetSlotMigrating(slot: nat, dest: Str)
    | SetSlotImporting(slot: nat, src: Str, dest: Str)
    | SetSlotStable(slot: nat)

  ghost predicate SlotsOk(slots: seq<nat>)
  {
    forall i :: 0 <= i < |slots| ==> slots[i] < SLOTS
  }

  /** Every slot a command names exists. */
  ghost predicate CmdOk(c: ConfigCmd)
  {
    match c
    case SetSlotOwner(slot, _) => slot < SLOTS
    case AssignSlots(_, slots) => SlotsOk(slots)
    case UnassignSlots(slots) => SlotsOk(slots)
    case AssignReplica(_, slots) => SlotsOk(slots)
    case PromoteReplica(slots, _) => SlotsOk(slots)
    case SetSlotMigrating(slot, _) => slot < SLOTS
    case SetSlotImporting(slot, _, _) => slot < SLOTS
    case SetSlotStable(slot) => slot < SLOTS
    case _ => true
  }

  ghost predicate Sized(v: View)
  {
    |v.owner| == |v.replica| == |v.mig| == SLOTS
  }

  // ----- one node's step -----

  ghost function SetOwners(v: View, slots: seq<nat>, id: Str): (w: View)
    requires Sized(v) && SlotsOk(slots)
    ensures Sized(w)
  {
    if slots == [] then v else SetOwner(SetOwners(v, slots[..|slots| - 1], id), slots[|slots| - 1], id)
  }

  ghost function ClearOwners(v: View, slots: seq<nat>): (w: View)
    requires Sized(v) && SlotsOk(slots)
    ensures Sized(w)
  {
    if slots == [] then v else ClearOwner(ClearOwners(v, slots[..|slots| - 1]), slots[|slots| - 1])
  }

  ghost function SetReplicas(v: View, slots: seq<nat>, id: Str): (w: View)
    requires Sized(v) && SlotsOk(slots)
    ensures Sized(w)
  {
    if slots == [] then v else SetReplica(SetReplicas(v, slots[..|slots| - 1], id), slots[|slots| - 1], id)
  }

  /** Failover of one slot: the new primary owns it and replicates it no more; the demoted owner replicates it. */
  ghost function Promote(v: View, slot: nat, id: Str): (w: View)
    requires Sized(v) && slot < SLOTS
    ensures Sized(w)
  {
    var flipped := ClearReplica(SetOwner(v, slot, id), slot, id);
    if v.owner[slot].Some? && v.owner[slot].value != id then SetReplica(flipped, slot, v.owner[slot].value)
    else flipped
  }

  ghost function Promotes(v: View, slots: seq<nat>, id: Str): (w: View)
    requires Sized(v) && SlotsOk(slots)
    ensures Sized(w)
  {
    if slots == [] then v else Promote(Promotes(v, slots[..|slots| - 1], id), slots[|slots| - 1], id)
  }

  /** What `cmd` does to the view of node `self`, the epoch aside. */
  ghost function Effect(v: View, self: NodeEntry, cmd: ConfigCmd): (w: View)
    requires Sized(v) && CmdOk(cmd)
    ensures Sized(w)
  {
    match cmd
    case AddNode(e) => Meet(v, e)
    case RemoveNode(id) => if ForgetError(v, self.id, id).None? then Forget(v, id) else v
    case SetSlotOwner(slot, node) => SetOwner(v, slot, node)
    case AssignSlots(node, slots) => SetOwners(v, slots, node)
    case UnassignSlots(slots) => ClearOwners(v, slots)
    case SetConfigEpoch(_) => v
    case AssignReplica(node, slots) => SetReplicas(v, slots, node)
    case PromoteReplica(slots, id) => Promotes(v, slots, id)
    case SetSlotMigrating(slot, dest) =>
      if OwnedAt(v, slot, self.Ep()) then SetMigration(v, slot, Migrating, dest) else v
    case SetSlotImporting(slot, src, dest) =>
      if IsAt(v, dest, self.Ep()) then SetMigration(v, slot, Importing, src) else v
    case SetSlotStable(slot) => ClearMigration(v, slot)
  }

  /** Every committed command advances the epoch by one, on every node. */
  ghost function Apply(v: View, self: NodeEntry, cmd: ConfigCmd): (w: View)
    requires Sized(v) && CmdOk(cmd)
    ensures Sized(w)
  {
    Effect(v.(epoch := v.epoch + 1), self, cmd)
  }

  lemma {:induction false} ListEpochs(v: View, slots: seq<nat>, id: Str)
    requires Sized(v) && SlotsOk(slots)
    ensures SetOwners(v, slots, id).epoch == ClearOwners(v, slots).epoch == v.epoch
    ensures SetReplicas(v, slots, id).epoch == Promotes(v, slots, id).epoch == v.epoch
  {
    if slots != [] {
      ListEpochs(v, slots[..|slots| - 1], id);
    }
  }

  lemma EffectKeepsEpoch(v: View, self: NodeEntry, cmd: ConfigCmd)
    requires Sized(v) && CmdOk(cmd)
    ensures Effect(v, self, cmd).epoch == v.epoch
  {
    match cmd
    case AssignSlots(node, slots) => ListEpochs(v, slots, node);
    case UnassignSlots(slots) => ListEpochs(v, slots, []);
    case AssignReplica(node, slots) => ListEpochs(v, slots, node);
    case PromoteReplica(slots, id) => ListEpochs(v, slots, id);
    case _ =>
  }

  ghost predicate LogOk(log: seq<ConfigCmd>)
  {
    forall i :: 0 <= i < |log| ==> CmdOk(log[i])
  }

  ghost function ReplayFrom(v: View, self: NodeEntry, log: seq<ConfigCmd>): (w: View)
    requires Sized(v) && LogOk(log)
    ensures Sized(w)
  {
    if log == [] then v else Apply(ReplayFrom(v, self, log[..|log| - 1]), self, log[|log| - 1])
  }

  /** The view of a node that boots alone and applies the whole log. */
  ghost function Replay(self: NodeEntry, log: seq<ConfigCmd>): (w: View)
    requires LogOk(log)
    ensures Sized(w)
  {
    ReplayFrom(FreshLocal(self).view, self, log)
  }

  // ----- the shared step -----

  /** The committed view without anyone's self, and, per slot, which endpoint carries which tag. */
  datatype Shared = Shared(view: View, tags: seq<map<Endpoint, Migration>>)

  ghost predicate SharedOk(c: Shared)
  {
    ViewOk(c.view) && c.view.mig == Nones() && |c.tags| == SLOTS &&
    forall k, ep :: 0 <= k < SLOTS && ep in c.tags[k] ==> c.tags[k][ep].peer in c.view.nodes
  }

  ghost function Boot(): (c: Shared)
    ensures SharedOk(c)
  {
    Shared(View(map[], Nones(), Nones(), Nones(), 0), seq(SLOTS, k => map[]))
  }

  ghost function ClearTags(tags: seq<map<Endpoint, Migration>>, slots: seq<nat>): (r: seq<map<Endpoint, Migration>>)
    ensures |r| == |tags|
    ensures forall k :: 0 <= k < |tags| ==> r[k] == if k in slots then map[] else tags[k]
  {
    seq(|tags|, k requires 0 <= k < |tags| => if k in slots then map[] else tags[k])
  }

  ghost function DropPeer(tags: seq<map<Endpoint, Migration>>, id: Str): (r: seq<map<Endpoint, Migration>>)
    ensures |r| == |tags|
    ensures forall k :: 0 <= k < |tags| ==> r[k] == map ep | ep in tags[k] && tags[k][ep].peer != id :: tags[k][ep]
  {
    seq(|tags|, k requires 0 <= k < |tags| => map ep | ep in tags[k] && tags[k][ep].peer != id :: tags[k][ep])
  }

  /** The removal the cluster as a whole performs: known and owning nothing. */
  ghost predicate Removable(v: View, id: Str)
  {
    id in v.nodes && Some(id) !in v.owner
  }

  ghost function CommitTags(c: Shared, cmd: ConfigCmd): (tags: seq<map<Endpoint, Migration>>)
    requires SharedOk(c) && CmdOk(cmd)
    ensures |tags| == SLOTS
  {
    var v := c.view;
    match cmd
    case RemoveNode(id) => if Removable(v, id) then DropPeer(c.tags, id) else c.tags
    case SetSlotOwner(slot, node) => if node in v.nodes then c.tags[slot := map[]] else c.tags
    case AssignSlots(node, slots) => if node in v.nodes then ClearTags(c.tags, slots) else c.tags
    case PromoteReplica(slots, id) => if id in v.nodes then ClearTags(c.tags, slots) else c.tags
    case SetSlotMigrating(slot, dest) =>
      if v.owner[slot].Some? && dest in v.nodes then
        c.tags[slot := c.tags[slot][v.nodes[v.owner[slot].value] := Migration(Migrating, dest)]]
      else c.tags
    case SetSlotImporting(slot, src, dest) =>
      if dest in v.nodes && src in v.nodes then
        c.tags[slot := c.tags[slot][v.nodes[dest] := Migration(Importing, src)]]
      else c.tags
    case SetSlotStable(slot) => c.tags[slot := map[]]
    case _ => c.tags
  }

  ghost function CommitView(v: View, cmd: ConfigCmd): (w: View)
    requires Sized(v) && CmdOk(cmd)
    ensures Sized(w)
  {
    var u := v.(epoch := v.epoch + 1);
    match cmd
    case AddNode(e) => Meet(u, e)
    case RemoveNode(id) => if Removable(u, id) then Forget(u, id) else u
    case SetSlotOwner(slot, node) => SetOwner(u, slot, node)
    case AssignSlots(node, slots) => SetOwners(u, slots, node)
    case UnassignSlots(slots) => ClearOwners(u, slots)
    case AssignReplica(node, slots) => SetReplicas(u, slots, node)
    case PromoteReplica(slots, id) => Promotes(u, slots, id)
    case _ => u
  }

  ghost function Commit(c: Shared, cmd: ConfigCmd): Shared
    requires SharedOk(c) && CmdOk(cmd)
  {
    Shared(CommitView(c.view, cmd), CommitTags(c, cmd))
  }

  // ----- a node against the shared state -----

  /** A log names `self` only as the cluster promises: met with its own endpoint, named once met, never removed. */
  ghost predicate StepOk(v: View, cmd: ConfigCmd, self: NodeEntry)
  {
    match cmd
    case AddNode(e) => e.id == self.id && self.id !in v.nodes ==> e.Ep() == self.Ep()
    case RemoveNode(id) => id == self.id ==> !Removable(v, id)
    case SetSlotOwner(_, node) => node == self.id ==> node in v.nodes
    case AssignSlots(node, _) => node == self.id ==> node in v.nodes
    case AssignReplica(node, _) => node == self.id ==> node in v.nodes
    case PromoteReplica(_, id) => id == self.id ==> id in v.nodes
    case SetSlotMigrating(_, dest) => dest == self.id ==> dest in v.nodes
    case SetSlotImporting(_, src, dest) => (src == self.id || dest == self.id) ==> self.id in v.nodes
    case _ => true
  }

  /** The tag the shared table gives the node at `ep`. */
  ghost function TagAt(tags: map<Endpoint, Migration>, ep: Endpoint): Option<Migration>
  {
    if ep in tags then Some(tags[ep]) else None
  }

  /** `v` is `c` as node `self` sees it: the same slots and epoch, and itself among the nodes. Tags aside. */
  ghost predicate Mirrors(v: View, c: View, self: NodeEntry)
  {
    && ViewOk(v) && ViewOk(c) && c.mig == Nones()
    && v.owner == c.owner && v.replica == c.replica && v.epoch == c.epoch
    && v.nodes == c.nodes[self.id := self.Ep()]
    && (self.id in c.nodes ==> c.nodes[self.id] == self.Ep())
  }

  ghost predicate CarriesOwnTags(v: View, self: NodeEntry, tags: seq<map<Endpoint, Migration>>)
    requires |v.mig| == |tags| == SLOTS
  {
    forall k :: 0 <= k < SLOTS ==> v.mig[k] == TagAt(tags[k], self.Ep())
  }

  /** Node `self` sees the committed view plus itself, and carries exactly its own tags. */
  ghost predicate Follows(v: View, self: NodeEntry, c: Shared)
  {
    SharedOk(c) && Mirrors(v, c.view, self) && CarriesOwnTags(v, self, c.tags)
  }

  // ----- one operation keeps the mirror -----

  /** Both sides know the same ids, provided the node itself is not named before it is met. */
  ghost predicate SameKnowledge(c: View, self: NodeEntry, id: Str)
  {
    id == self.id ==> id in c.nodes
  }

  lemma SetOwnerMirrors(v: View, c: View, self: NodeEntry, slot: nat, id: Str)
    requires Mirrors(v, c, self) && slot < SLOTS && SameKnowledge(c, self, id)
    ensures Mirrors(SetOwner(v, slot, id), SetOwner(c, slot, id), self)
  {
  }

  lemma ClearOwnerMirrors(v: View, c: View, self: NodeEntry, slot: nat)
    requires Mirrors(v, c, self) && slot < SLOTS
    ensures Mirrors(ClearOwner(v, slot), ClearOwner(c, slot), self)
  {
  }

  lemma SetReplicaMirrors(v: View, c: View, self: NodeEntry, slot: nat, id: Str)
    requires Mirrors(v, c, self) && slot < SLOTS && SameKnowledge(c, self, id)
    ensures Mirrors(SetReplica(v, slot, id), SetReplica(c, slot, id), self)
  {
  }

  lemma PromoteMirrors(v: View, c: View, self: NodeEntry, slot: nat, id: Str)
    requires Mirrors(v, c, self) && slot < SLOTS && SameKnowledge(c, self, id)
    ensures Mirrors(Promote(v, slot, id), Promote(c, slot, id), self)
    ensures Promote(v, slot, id).nodes == v.nodes && Promote(c, slot, id).nodes == c.nodes
    ensures Promote(v, slot, id).mig == if id in v.nodes then v.mig[slot := None] else v.mig
  {
    hide Mirrors, ViewOk;
    MirrorsOwner(v, c, self);
    SetOwnerMirrors(v, c, self, slot, id);
    var v1, c1 := SetOwner(v, slot, id), SetOwner(c, slot, id);
    var v2, c2 := ClearReplica(v1, slot, id), ClearReplica(c1, slot, id);
    ClearReplicaMirrors(v1, c1, self, slot, id);
    if v.owner[slot].Some? && v.owner[slot].value != id {
      SetReplicaMirrors(v2, c2, self, slot, v.owner[slot].value);
    }
  }

  lemma MirrorsOwner(v: View, c: View, self: NodeEntry)
    requires Mirrors(v, c, self)
    ensures v.owner == c.owner && Known(c.owner, c.nodes) && Sized(v) && Sized(c)
  {
  }

  lemma ClearReplicaMirrors(v: View, c: View, self: NodeEntry, slot: nat, id: Str)
    requires Mirrors(v, c, self) && slot < SLOTS
    ensures Mirrors(ClearReplica(v, slot, id), ClearReplica(c, slot, id), self)
  {
  }

  /** `mig` without the entries at `slots`. */
  ghost predicate Cleared(mig: seq<Option<Migration>>, after: seq<Option<Migration>>, slots: seq<nat>, really: bool)
  {
    |mig| == |after| && forall k :: 0 <= k < |mig| ==> after[k] == if really && k in slots then None else mig[k]
  }

  lemma {:induction false} SetOwnersMirrors(v: View, c: View, self: NodeEntry, slots: seq<nat>, id: Str)
    requires Mirrors(v, c, self) && SlotsOk(slots) && SameKnowledge(c, self, id)
    ensures Mirrors(SetOwners(v, slots, id), SetOwners(c, slots, id), self)
    ensures SetOwners(v, slots, id).nodes == v.nodes && SetOwners(c, slots, id).nodes == c.nodes
    ensures Cleared(v.mig, SetOwners(v, slots, id).mig, slots, id in v.nodes)
  {
    if slots != [] {
      hide Mirrors;
      var n := |slots| - 1;
      SetOwnersMirrors(v, c, self, slots[..n], id);
      SetOwnerMirrors(SetOwners(v, slots[..n], id), SetOwners(c, slots[..n], id), self, slots[n], id);
      assert slots == slots[..n] + [slots[n]];
    }
  }

  lemma {:induction false} ClearOwnersMirrors(v: View, c: View, self: NodeEntry, slots: seq<nat>)
    requires Mirrors(v, c, self) && SlotsOk(slots)
    ensures Mirrors(ClearOwners(v, slots), ClearOwners(c, slots), self)
    ensures ClearOwners(v, slots).mig == v.mig && ClearOwners(c, slots).nodes == c.nodes
  {
    if slots != [] {
      var n := |slots| - 1;
      ClearOwnersMirrors(v, c, self, slots[..n]);
      ClearOwnerMirrors(ClearOwners(v, slots[..n]), ClearOwners(c, slots[..n]), self, slots[n]);
    }
  }

  lemma {:induction false} SetReplicasMirrors(v: View, c: View, self: NodeEntry, slots: seq<nat>, id: Str)
    requires Mirrors(v, c, self) && SlotsOk(slots) && SameKnowledge(c, self, id)
    ensures Mirrors(SetReplicas(v, slots, id), SetReplicas(c, slots, id), self)
    ensures SetReplicas(v, slots, id).mig == v.mig
    ensures SetReplicas(v, slots, id).nodes == v.nodes && SetReplicas(c, slots, id).nodes == c.nodes
  {
    if slots != [] {
      var n := |slots| - 1;
      SetReplicasMirrors(v, c, self, slots[..n], id);
      SetReplicaMirrors(SetReplicas(v, slots[..n], id), SetReplicas(c, slots[..n], id), self, slots[n], id);
    }
  }

  lemma {:induction false} PromotesMirrors(v: View, c: View, self: NodeEntry, slots: seq<nat>, id: Str)
    requires Mirrors(v, c, self) && SlotsOk(slots) && SameKnowledge(c, self, id)
    ensures Mirrors(Promotes(v, slots, id), Promotes(c, slots, id), self)
    ensures Promotes(v, slots, id).nodes == v.nodes && Promotes(c, slots, id).nodes == c.nodes
    ensures Cleared(v.mig, Promotes(v, slots, id).mig, slots, id in v.nodes)
  {
    if slots != [] {
      hide Mirrors, Promote;
      var n := |slots| - 1;
      PromotesMirrors(v, c, self, slots[..n], id);
      PromoteMirrors(Promotes(v, slots[..n], id), Promotes(c, slots[..n], id), self, slots[n], id);
      assert slots == slots[..n] + [slots[n]];
    }
  }

  lemma RemoveMirrors(v: View, c: View, self: NodeEntry, id: Str)
    requires Mirrors(v, c, self) && id != self.id && Removable(c, id)
    ensures Mirrors(Forget(v, id), Forget(c, id), self)
  {
  }

  // ----- one command keeps a node following -----

  lemma ViewFollows(v: View, self: NodeEntry, c: View, cmd: ConfigCmd)
    requires Mirrors(v, c, self) && CmdOk(cmd) && StepOk(c, cmd, self)
    ensures Mirrors(Apply(v, self, cmd), CommitView(c, cmd), self)
  {
    hide Mirrors, SetOwners, ClearOwners, SetReplicas, Promotes, Forget, Meet, SetOwner, ClearMigration, SetMigration,
         IsAt, OwnedAt, NodeEntry.Ep;
    MirrorsOwner(v, c, self);
    var v1, c1 := v.(epoch := v.epoch + 1), c.(epoch := c.epoch + 1);
    assert Mirrors(v1, c1, self) by { EpochMirrors(v, c, self); }
    match cmd
    case AddNode(e) => MeetMirrors(v1, c1, self, e);
    case RemoveNode(id) =>
      SameGuard(v1, c1, self, id);
      if ForgetError(v1, self.id, id).None? {
        RemoveMirrors(v1, c1, self, id);
      }
    case SetSlotOwner(slot, node) => SetOwnerMirrors(v1, c1, self, slot, node);
    case AssignSlots(node, slots) => SetOwnersMirrors(v1, c1, self, slots, node);
    case UnassignSlots(slots) => ClearOwnersMirrors(v1, c1, self, slots);
    case AssignReplica(node, slots) => SetReplicasMirrors(v1, c1, self, slots, node);
    case PromoteReplica(slots, id) => PromotesMirrors(v1, c1, self, slots, id);
    case SetSlotMigrating(slot, dest) => TagMirrors(v1, c1, self, slot, Migrating, dest);
    case SetSlotImporting(slot, src, dest) => TagMirrors(v1, c1, self, slot, Importing, src);
    case SetSlotStable(slot) => UntagMirrors(v1, c1, self, slot);
    case SetConfigEpoch(_) =>
  }

  lemma EpochMirrors(v: View, c: View, self: NodeEntry)
    requires Mirrors(v, c, self)
    ensures Mirrors(v.(epoch := v.epoch + 1), c.(epoch := c.epoch + 1), self)
  {
  }

  lemma MeetMirrors(v: View, c: View, self: NodeEntry, e: NodeEntry)
    requires Mirrors(v, c, self) && (e.id == self.id && self.id !in c.nodes ==> e.Ep() == self.Ep())
    ensures Mirrors(Meet(v, e), Meet(c, e), self)
  {
    assert e.id != self.id ==> (e.id in v.nodes <==> e.id in c.nodes);
    assert Meet(v, e).nodes == Meet(c, e).nodes[self.id := self.Ep()];
  }

  lemma SameGuard(v: View, c: View, self: NodeEntry, id: Str)
    requires Mirrors(v, c, self) && (id == self.id ==> !Removable(c, id))
    ensures ForgetError(v, self.id, id).None? <==> Removable(c, id)
    ensures Removable(c, id) ==> id != self.id
  {
  }

  lemma TagMirrors(v: View, c: View, self: NodeEntry, slot: nat, phase: Phase, id: Str)
    requires Mirrors(v, c, self) && slot < SLOTS
    ensures Mirrors(SetMigration(v, slot, phase, id), c, self)
  {
  }

  lemma UntagMirrors(v: View, c: View, self: NodeEntry, slot: nat)
    requires Mirrors(v, c, self) && slot < SLOTS
    ensures Mirrors(ClearMigration(v, slot), c, self)
  {
  }

  lemma FollowsSizes(v: View, self: NodeEntry, c: Shared)
    requires Follows(v, self, c)
    ensures |c.tags| == SLOTS && Sized(v) && Sized(c.view)
  {
  }

  lemma TagsFollow(v: View, self: NodeEntry, c: Shared, cmd: ConfigCmd)
    requires Follows(v, self, c) && CmdOk(cmd) && StepOk(c.view, cmd, self)
    ensures CarriesOwnTags(Apply(v, self, cmd), self, CommitTags(c, cmd))
  {
    hide Mirrors, SharedOk, SetOwners, ClearOwners, SetReplicas, Promotes, NodeEntry.Ep;
    FollowsSizes(v, self, c);
    var v1, c1 := v.(epoch := v.epoch + 1), c.view.(epoch := c.view.epoch + 1);
    assert Mirrors(v1, c1, self) by { EpochMirrors(v, c.view, self); }
    match cmd
    case AddNode(e) =>
    case RemoveNode(id) => SameGuard(v1, c1, self, id);
    case SetSlotOwner(slot, node) => KnowSame(v1, c1, self, node);
    case AssignSlots(node, slots) =>
      KnowSame(v1, c1, self, node);
      SetOwnersMirrors(v1, c1, self, slots, node);
    case UnassignSlots(slots) => ClearOwnersMirrors(v1, c1, self, slots);
    case AssignReplica(node, slots) => SetReplicasMirrors(v1, c1, self, slots, node);
    case PromoteReplica(slots, id) =>
      KnowSame(v1, c1, self, id);
      PromotesMirrors(v1, c1, self, slots, id);
    case SetSlotMigrating(slot, dest) =>
      KnowSame(v1, c1, self, dest);
      OwnerEndpoint(v1, c1, self, slot);
    case SetSlotImporting(slot, src, dest) =>
      KnowSame(v1, c1, self, src);
      KnowSame(v1, c1, self, dest);
    case SetSlotStable(slot) =>
    case SetConfigEpoch(_) =>
  }

  lemma KnowSame(v: View, c: View, self: NodeEntry, id: Str)
    requires Mirrors(v, c, self) && SameKnowledge(c, self, id)
    ensures id in v.nodes <==> id in c.nodes
    ensures id in v.nodes ==> v.nodes[id] == c.nodes[id]
  {
  }

  /** The slow ownership question has the same answer in the committed view. */
  lemma OwnerEndpoint(v: View, c: View, self: NodeEntry, slot: nat)
    requires Mirrors(v, c, self) && slot < SLOTS
    ensures v.owner[slot] == c.owner[slot]
    ensures c.owner[slot].Some? ==> c.owner[slot].value in c.nodes
    ensures OwnedAt(v, slot, self.Ep()) <==> c.owner[slot].Some? && c.nodes[c.owner[slot].value] == self.Ep()
  {
  }

  // ----- the shared state stays well formed -----

  /** A view is its own mirror for a node nobody names: what keeps mirrors keeps well-formedness. */
  lemma CommitOk(c: Shared, cmd: ConfigCmd)
    requires SharedOk(c) && CmdOk(cmd)
    ensures SharedOk(Commit(c, cmd))
  {
    CommitViewOk(c.view, cmd);
    forall k, ep | 0 <= k < SLOTS && ep in CommitTags(c, cmd)[k]
      ensures CommitTags(c, cmd)[k][ep].peer in CommitView(c.view, cmd).nodes
    {
      hide ViewOk, SetOwners, ClearOwners, SetReplicas, Promotes;
      CommitNodes(c.view, cmd);
    }
  }

  lemma {:induction false} SetOwnersOk(v: View, slots: seq<nat>, id: Str)
    requires ViewOk(v) && v.mig == Nones() && SlotsOk(slots)
    ensures var w := SetOwners(v, slots, id); ViewOk(w) && w.mig == Nones() && w.nodes == v.nodes
  {
    if slots != [] {
      SetOwnersOk(v, slots[..|slots| - 1], id);
      assert SetOwners(v, slots, id).mig == Nones();
    }
  }

  lemma {:induction false} ClearOwnersOk(v: View, slots: seq<nat>)
    requires ViewOk(v) && SlotsOk(slots)
    ensures var w := ClearOwners(v, slots); ViewOk(w) && w.mig == v.mig && w.nodes == v.nodes
  {
    if slots != [] {
      ClearOwnersOk(v, slots[..|slots| - 1]);
    }
  }

  lemma {:induction false} SetReplicasOk(v: View, slots: seq<nat>, id: Str)
    requires ViewOk(v) && SlotsOk(slots)
    ensures var w := SetReplicas(v, slots, id); ViewOk(w) && w.mig == v.mig && w.nodes == v.nodes
  {
    if slots != [] {
      SetReplicasOk(v, slots[..|slots| - 1], id);
    }
  }

  lemma {:induction false} PromotesOk(v: View, slots: seq<nat>, id: Str)
    requires ViewOk(v) && v.mig == Nones() && SlotsOk(slots)
    ensures var w := Promotes(v, slots, id); ViewOk(w) && w.mig == Nones() && w.nodes == v.nodes
  {
    if slots != [] {
      PromotesOk(v, slots[..|slots| - 1], id);
      assert Promotes(v, slots, id).mig == Nones();
    }
  }

  lemma CommitViewOk(v: View, cmd: ConfigCmd)
    requires ViewOk(v) && v.mig == Nones() && CmdOk(cmd)
    ensures ViewOk(CommitView(v, cmd)) && CommitView(v, cmd).mig == Nones()
  {
    var u := v.(epoch := v.epoch + 1);
    match cmd
    case RemoveNode(id) =>
      if Removable(u, id) {
        assert Forget(u, id).mig == Nones();
        forall k | 0 <= k < SLOTS && u.owner[k].Some? ensures u.owner[k].value != id {
          assert u.owner[k] in u.owner;
        }
      }
    case SetSlotOwner(slot, node) => assert SetOwner(u, slot, node).mig == Nones();
    case AssignSlots(node, slots) => SetOwnersOk(u, slots, node);
    case UnassignSlots(slots) => ClearOwnersOk(u, slots);
    case AssignReplica(node, slots) => SetReplicasOk(u, slots, node);
    case PromoteReplica(slots, id) => PromotesOk(u, slots, id);
    case _ =>
  }

  lemma CommitNodes(v: View, cmd: ConfigCmd)
    requires ViewOk(v) && v.mig == Nones() && CmdOk(cmd)
    ensures forall id :: id in v.nodes && !(cmd == RemoveNode(id) && Removable(v, id)) ==>
      id in CommitView(v, cmd).nodes
  {
    var u := v.(epoch := v.epoch + 1);
    match cmd
    case AssignSlots(node, slots) => SetOwnersOk(u, slots, node);
    case UnassignSlots(slots) => ClearOwnersOk(u, slots);
    case AssignReplica(node, slots) => SetReplicasOk(u, slots, node);
    case PromoteReplica(slots, id) => PromotesOk(u, slots, id);
    case _ =>
  }

  /** One committed command keeps every well-behaved node in step with the cluster. */
  lemma StepFollows(v: View, self: NodeEntry, c: Shared, cmd: ConfigCmd)
    requires Follows(v, self, c) && CmdOk(cmd) && StepOk(c.view, cmd, self)
    ensures Follows(Apply(v, self, cmd), self, Commit(c, cmd))
  {
    ViewFollows(v, self, c.view, cmd);
    TagsFollow(v, self, c, cmd);
    CommitOk(c, cmd);
  }
}
