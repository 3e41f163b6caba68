/**
 What each committed command does on one node, field by field and slot by slot.

 `Apply` folds a command over whole views. Here its result is read off in the fields of the view before it, with no
 function of the model in between: which nodes are known and where, and each slot's owner, replica and migration tag.
*/
module CommandEffects {
  import opened Core
  import opened SlotTypes
  import opened ReplicatedLog

  // ----- lists of slots -----

  lemma {:induction false} OwnersAt(v: View, slots: seq<nat>, id: Str, slot: nat)
    requires Sized(v) && SlotsOk(slots) && slot < SLOTS
    ensures var w := SetOwners(v, slots, id);
      var hit := slot in slots && id in v.nodes;
      w.nodes == v.nodes && w.replica == v.replica &&
      w.owner[slot] == (if hit then Some(id) else v.owner[slot]) &&
      w.mig[slot] == (if hit then None else v.mig[slot])
  {
    if slots != [] {
      OwnersAt(v, slots[..|slots| - 1], id, slot);
      assert slots == slots[..|slots| - 1] + [slots[|slots| - 1]];
    }
  }

  lemma {:induction false} ClearedAt(v: View, slots: seq<nat>, slot: nat)
    requires Sized(v) && SlotsOk(slots) && slot < SLOTS
    ensures var w := ClearOwners(v, slots);
      w.nodes == v.nodes && w.mig == v.mig && w.replica == v.replica &&
      w.owner[slot] == if slot in slots then None else v.owner[slot]
  {
    if slots != [] {
      ClearedAt(v, slots[..|slots| - 1], slot);
      assert slots == slots[..|slots| - 1] + [slots[|slots| - 1]];
    }
  }

  lemma {:induction false} ReplicasAt(v: View, slots: seq<nat>, id: Str, slot: nat)
    requires Sized(v) && SlotsOk(slots) && slot < SLOTS
    ensures var w := SetReplicas(v, slots, id);
      w.nodes == v.nodes && w.mig == v.mig && w.owner == v.owner &&
      w.replica[slot] == if slot in slots && id in v.nodes then Some(id) else v.replica[slot]
  {
    if slots != [] {
      ReplicasAt(v, slots[..|slots| - 1], id, slot);
      assert slots == slots[..|slots| - 1] + [slots[|slots| - 1]];
    }
  }

  /** The replica a failover to `id` leaves on a slot: the demoted owner, or what was there without `id`. */
  ghost function Rehomed(v: View, id: Str, slot: nat): Option<Str>
    requires Sized(v) && slot < SLOTS
  {
    if v.owner[slot].Some? && v.owner[slot].value != id && v.owner[slot].value in v.nodes then v.owner[slot]
    else if v.replica[slot] == Some(id) then None
    else v.replica[slot]
  }

  lemma PromoteAt(v: View, k: nat, id: Str, slot: nat)
    requires Sized(v) && k < SLOTS && slot < SLOTS
    ensures var w := Promote(v, k, id);
      var hit := slot == k && id in v.nodes;
      w.nodes == v.nodes && w.owner[slot] == (if hit then Some(id) else v.owner[slot]) &&
      w.mig[slot] == (if hit then None else v.mig[slot]) &&
      w.replica[slot] == (if slot == k then Rehomed(v, id, slot) else v.replica[slot])
  {
  }

  lemma {:induction false} PromotesAt(v: View, slots: seq<nat>, id: Str, slot: nat)
    requires Sized(v) && SlotsOk(slots) && slot < SLOTS
    ensures var w := Promotes(v, slots, id);
      var hit := slot in slots && id in v.nodes;
      w.nodes == v.nodes && w.owner[slot] == (if hit then Some(id) else v.owner[slot]) &&
      w.mig[slot] == (if hit then None else v.mig[slot]) &&
      w.replica[slot] == (if slot in slots then Rehomed(v, id, slot) else v.replica[slot])
  {
    hide Promote;
    if slots != [] {
      var n := |slots| - 1;
      PromotesAt(v, slots[..n], id, slot);
      PromoteAt(Promotes(v, slots[..n], id), slots[n], id, slot);
      assert slots == slots[..n] + [slots[n]];
    }
  }

  // ----- one command -----

  /** The node table and the epoch. A removal is refused to the node itself and to the owner of any slot. */
  lemma NodesAfter(v: View, self: NodeEntry, cmd: ConfigCmd, id: Str)
    requires Sized(v) && CmdOk(cmd)
    ensures var w := Apply(v, self, cmd);
      && w.epoch == v.epoch + 1
      && (id in w.nodes <==>
            (id in v.nodes &&
               !(cmd == RemoveNode(id) && id != self.id && forall k :: 0 <= k < SLOTS ==> v.owner[k] != Some(id))) ||
            (cmd.AddNode? && cmd.entry.id == id))
      && (id in w.nodes ==>
            w.nodes[id] == if id in v.nodes then v.nodes[id] else Endpoint(cmd.entry.host, cmd.entry.port))
  {
    hide SetOwners, ClearOwners, SetReplicas, Promotes;
    EffectKeepsEpoch(v.(epoch := v.epoch + 1), self, cmd);
    var u := v.(epoch := v.epoch + 1);
    match cmd
    case RemoveNode(_) => assert Some(id) in u.owner <==> exists k :: 0 <= k < SLOTS && u.owner[k] == Some(id);
    case AssignSlots(node, slots) => OwnersAt(u, slots, node, 0);
    case UnassignSlots(slots) => ClearedAt(u, slots, 0);
    case AssignReplica(node, slots) => ReplicasAt(u, slots, node, 0);
    case PromoteReplica(slots, p) => PromotesAt(u, slots, p, 0);
    case _ =>
  }

  /** Each slot's owner: set, cleared, or handed over by naming a node that is known. */
  lemma OwnerAfter(v: View, self: NodeEntry, cmd: ConfigCmd, slot: nat)
    requires Sized(v) && CmdOk(cmd) && slot < SLOTS
    ensures Apply(v, self, cmd).owner[slot] ==
      match cmd
      case SetSlotOwner(k, node) => if k == slot && node in v.nodes then Some(node) else v.owner[slot]
      case AssignSlots(node, slots) => if slot in slots && node in v.nodes then Some(node) else v.owner[slot]
      case PromoteReplica(slots, id) => if slot in slots && id in v.nodes then Some(id) else v.owner[slot]
      case UnassignSlots(slots) => if slot in slots then None else v.owner[slot]
      case _ => v.owner[slot]
  {
    hide SetOwners, ClearOwners, SetReplicas, Promotes;
    var u := v.(epoch := v.epoch + 1);
    match cmd
    case AssignSlots(node, slots) => OwnersAt(u, slots, node, slot);
    case UnassignSlots(slots) => ClearedAt(u, slots, slot);
    case AssignReplica(node, slots) => ReplicasAt(u, slots, node, slot);
    case PromoteReplica(slots, id) => PromotesAt(u, slots, id, slot);
    case _ =>
  }

  /**
   Each slot's replica. A failover leaves the demoted owner there; without one, or if the node was promoted over
   itself, the promoted node stops being the replica. A removed node replicates nothing.
  */
  lemma ReplicaAfter(v: View, self: NodeEntry, cmd: ConfigCmd, slot: nat)
    requires Sized(v) && CmdOk(cmd) && slot < SLOTS
    ensures Apply(v, self, cmd).replica[slot] ==
      match cmd
      case AssignReplica(node, slots) => if slot in slots && node in v.nodes then Some(node) else v.replica[slot]
      case PromoteReplica(slots, id) =>
        if slot !in slots then v.replica[slot]
        else if v.owner[slot].Some? && v.owner[slot].value != id && v.owner[slot].value in v.nodes then v.owner[slot]
        else if v.replica[slot] == Some(id) then None
        else v.replica[slot]
      case RemoveNode(id) =>
        if v.replica[slot] == Some(id) && id in v.nodes && id != self.id && Some(id) !in v.owner then None
        else v.replica[slot]
      case _ => v.replica[slot]
  {
    hide SetOwners, ClearOwners, SetReplicas, Promotes;
    var u := v.(epoch := v.epoch + 1);
    match cmd
    case AssignSlots(node, slots) => OwnersAt(u, slots, node, slot);
    case UnassignSlots(slots) => ClearedAt(u, slots, slot);
    case AssignReplica(node, slots) => ReplicasAt(u, slots, node, slot);
    case PromoteReplica(slots, id) => PromotesAt(u, slots, id, slot);
    case _ =>
  }

  /** Each slot's tag: MIGRATING only where the owner is at this host and port, IMPORTING only where `dest` is. */
  lemma TagAfter(v: View, self: NodeEntry, cmd: ConfigCmd, slot: nat)
    requires Sized(v) && CmdOk(cmd) && slot < SLOTS
    ensures var here := Endpoint(self.host, self.port);
      Apply(v, self, cmd).mig[slot] ==
      match cmd
      case SetSlotOwner(k, node) => if k == slot && node in v.nodes then None else v.mig[slot]
      case AssignSlots(node, slots) => if slot in slots && node in v.nodes then None else v.mig[slot]
      case PromoteReplica(slots, id) => if slot in slots && id in v.nodes then None else v.mig[slot]
      case SetSlotMigrating(k, dest) =>
        if k == slot && dest in v.nodes &&
           v.owner[slot].Some? && v.owner[slot].value in v.nodes && v.nodes[v.owner[slot].value] == here
        then Some(Migration(Migrating, dest)) else v.mig[slot]
      case SetSlotImporting(k, src, dest) =>
        if k == slot && src in v.nodes && dest in v.nodes && v.nodes[dest] == here
        then Some(Migration(Importing, src)) else v.mig[slot]
      case SetSlotStable(k) => if k == slot then None else v.mig[slot]
      case RemoveNode(id) =>
        if v.mig[slot].Some? && v.mig[slot].value.peer == id &&
           id in v.nodes && id != self.id && Some(id) !in v.owner
        then None else v.mig[slot]
      case _ => v.mig[slot]
  {
    hide SetOwners, ClearOwners, SetReplicas, Promotes;
    var u := v.(epoch := v.epoch + 1);
    match cmd
    case AssignSlots(node, slots) => OwnersAt(u, slots, node, slot);
    case UnassignSlots(slots) => ClearedAt(u, slots, slot);
    case AssignReplica(node, slots) => ReplicasAt(u, slots, node, slot);
    case PromoteReplica(slots, id) => PromotesAt(u, slots, id, slot);
    case _ =>
  }

  /**
   A failover leaves a slot's owner as its own replica if and only if the promoted node is unknown and the slot is
   owned: naming an unknown node flips nothing, but the owner is re-homed as a replica all the same.
  */
  lemma FailoverParts(v: View, self: NodeEntry, slots: seq<nat>, id: Str, slot: nat)
    requires Sized(v) && Known(v.owner, v.nodes) && Known(v.replica, v.nodes) && SlotsOk(slots) && slot in slots
    ensures slot < SLOTS
    ensures var w := Apply(v, self, PromoteReplica(slots, id));
      w.owner[slot].Some? && w.owner[slot] == w.replica[slot] <==> id !in v.nodes && v.owner[slot].Some?
  {
    var i :| 0 <= i < |slots| && slots[i] == slot;
    hide Apply;
    OwnerAfter(v, self, PromoteReplica(slots, id), slot);
    ReplicaAfter(v, self, PromoteReplica(slots, id), slot);
  }
}
