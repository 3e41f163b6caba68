/** The config state machine of one node: replays committed commands onto its slot map, and snapshots it. */
module ConfigSmModule {
  import opened Core
  import opened SlotTypes
  import opened SlotMapFacts
  import opened Convergence
  import opened CommandEffects
  import opened MigrationTags
  import opened Ownership
  import opened Publication
  import opened SlotMapModule
  import opened ReplicatedLog
  import opened SnapshotCodec
  import opened SnapshotView

  class ConfigSm {
    const slotMap: SlotMap
    var epoch: nat

    ghost predicate Valid()
      reads this, slotMap, slotMap.mine, slotMap.owner, slotMap.replicas, slotMap.phase, slotMap.peer
    {
      slotMap.Valid() && epoch == slotMap.currentEpoch
    }

    ghost function View(): View
      requires Valid()
      reads this, slotMap, slotMap.mine, slotMap.owner, slotMap.replicas, slotMap.phase, slotMap.peer
    {
      slotMap.View()
    }

    /** This node's own entry, which no command changes. */
    ghost function Self(): NodeEntry
      requires Valid()
      reads this, slotMap, slotMap.mine, slotMap.owner, slotMap.replicas, slotMap.phase, slotMap.peer
    {
      slotMap.nodes[slotMap.me]
    }

    constructor (m: SlotMap)
      requires m.Valid() && m.currentEpoch == 0
      ensures Valid() && slotMap == m && epoch == 0
    {
      slotMap := m;
      epoch := 0;
    }

    /** One committed command: the epoch advances, and the map takes the step the log prescribes for this node. */
    method Apply(cmd: ConfigCmd)
      requires Valid() && CmdOk(cmd)
      requires cmd.AddNode? ==> cmd.entry.id in View().nodes || |slotMap.nodes| < UNASSIGNED
      modifies this, slotMap, slotMap.mine, slotMap.owner, slotMap.replicas, slotMap.phase, slotMap.peer
      ensures Valid()
      ensures View() == ReplicatedLog.Apply(old(View()), old(Self()), cmd)
      ensures Self() == old(Self())
      ensures Switched(old(slotMap.mine.history), slotMap.mine.history)
    {
      hide SlotMap.Valid, SlotMap.View, SlotMap.Local, SlotMap.State, Effect, Switched;
      slotMap.Parts();
      epoch := epoch + 1;
      slotMap.SetCommittedEpoch(epoch);
      slotMap.Parts();
      Dispatch(cmd);
      slotMap.Parts();
      EffectKeepsEpoch(old(View()).(epoch := epoch), slotMap.nodes[slotMap.me], cmd);
    }

    /** The map's part of a command; an error from the map is ignored, as it is the same on every node. */
    method Dispatch(cmd: ConfigCmd)
      requires slotMap.Valid() && CmdOk(cmd)
      requires cmd.AddNode? ==> cmd.entry.id in slotMap.View().nodes || |slotMap.nodes| < UNASSIGNED
      modifies slotMap, slotMap.mine, slotMap.owner, slotMap.replicas, slotMap.phase, slotMap.peer
      ensures slotMap.Valid()
      ensures Sized(old(slotMap.View()))
      ensures slotMap.View() == Effect(old(slotMap.View()), old(slotMap.nodes[slotMap.me]), cmd)
      ensures slotMap.me < |slotMap.nodes| && slotMap.nodes[slotMap.me] == old(slotMap.nodes[slotMap.me])
      ensures Switched(old(slotMap.mine.history), slotMap.mine.history)
    {
      hide SlotMap.Valid, SlotMap.View, SlotMap.Local, SlotMap.State, SlotTypes.Meet, SlotTypes.Forget,
           SetOwner, SetMigration, ClearMigration, SetOwners, ClearOwners, SetReplicas, Promotes, NodeEntry.Ep, IsAt,
           OwnedAt, AllStore, Switched;
      slotMap.Parts();
      NothingStored(slotMap.mine.history);
      match cmd {
        case AddNode(e) => slotMap.Meet(e);
        case RemoveNode(id) => var _ := slotMap.Forget(id);
        case SetSlotOwner(slot, node) =>
          var r := slotMap.SetSlotNode(slot, node);
          if r.Ok? {
            OneStored(old(slotMap.mine.history), slotMap.mine.history);
          }
        case AssignSlots(node, slots) =>
          ghost var here := AssignAll(slots, node);
          AllStoreSwitches(old(slotMap.mine.history), slotMap.mine.history, here);
        case UnassignSlots(slots) =>
          UnassignAll(slots);
          AllStoreSwitches(old(slotMap.mine.history), slotMap.mine.history, false);
        case AssignReplica(node, slots) => ReplicateAll(slots, node);
        case PromoteReplica(slots, id) =>
          ghost var here := PromoteAll(slots, id);
          AllStoreSwitches(old(slotMap.mine.history), slotMap.mine.history, here);
        case SetSlotMigrating(slot, dest) =>
          var mine := slotMap.Owns(slot);
          if mine {
            var _ := slotMap.SetTag(slot, Migrating, dest);
          }
        case SetSlotImporting(slot, src, dest) =>
          var here := slotMap.IsSelf(dest);
          if here {
            var _ := slotMap.SetTag(slot, Importing, src);
          }
        case SetSlotStable(slot) => slotMap.ClearTag(slot);
        case SetConfigEpoch(_) =>
      }
      slotMap.Parts();
    }

    /** `here`: whether the new owner is this node; every store into the bitmap carries that. */
    method AssignAll(slots: seq<nat>, node: Str) returns (ghost here: bool)
      requires slotMap.Valid() && SlotsOk(slots)
      modifies slotMap.owner, slotMap.mine, slotMap.phase, slotMap.peer
      ensures slotMap.Valid()
      ensures slotMap.Local() == old(slotMap.Local()).(view := SetOwners(old(slotMap.View()), slots, node))
      ensures AllStore(old(slotMap.mine.history), slotMap.mine.history, here)
    {
      hide SlotMap.Valid, SlotMap.View, SlotMap.Local, SlotMap.State, SetOwner, ClearOwner, SetReplica,
           ClearReplica;
      slotMap.Parts();
      here := IsAt(slotMap.View(), node, slotMap.nodes[slotMap.me].Ep());
      for i := 0 to |slots|
        invariant slotMap.Valid()
        invariant slotMap.Local() == old(slotMap.Local()).(view := SetOwners(old(slotMap.View()), slots[..i], node))
        invariant AllStore(old(slotMap.mine.history), slotMap.mine.history, here)
      {
        slotMap.Parts();
        OwnersAt(old(slotMap.View()), slots[..i], node, 0);
        assert slots[..i + 1][..i] == slots[..i];
        var _ := slotMap.SetSlotNode(slots[i], node);
      }
      assert slots[..|slots|] == slots;
    }

    method UnassignAll(slots: seq<nat>)
      requires slotMap.Valid() && SlotsOk(slots)
      modifies slotMap.owner, slotMap.mine
      ensures slotMap.Valid()
      ensures slotMap.Local() == old(slotMap.Local()).(view := ClearOwners(old(slotMap.View()), slots))
      ensures AllStore(old(slotMap.mine.history), slotMap.mine.history, false)
    {
      hide SlotMap.Valid, SlotMap.View, SlotMap.Local, SlotMap.State, SetOwner, ClearOwner, SetReplica,
           ClearReplica;
      slotMap.Parts();
      for i := 0 to |slots|
        invariant slotMap.Valid()
        invariant slotMap.Local() == old(slotMap.Local()).(view := ClearOwners(old(slotMap.View()), slots[..i]))
        invariant AllStore(old(slotMap.mine.history), slotMap.mine.history, false)
      {
        slotMap.Parts();
        assert slots[..i + 1][..i] == slots[..i];
        slotMap.ClearSlotOwner(slots[i]);
      }
      assert slots[..|slots|] == slots;
    }

    method ReplicateAll(slots: seq<nat>, node: Str)
      requires slotMap.Valid() && SlotsOk(slots)
      modifies slotMap.replicas
      ensures slotMap.Valid()
      ensures slotMap.Local() == old(slotMap.Local()).(view := SetReplicas(old(slotMap.View()), slots, node))
    {
      hide SlotMap.Valid, SlotMap.View, SlotMap.Local, SlotMap.State, SetOwner, ClearOwner, SetReplica,
           ClearReplica;
      slotMap.Parts();
      for i := 0 to |slots|
        invariant slotMap.Valid()
        invariant slotMap.Local() == old(slotMap.Local()).(view := SetReplicas(old(slotMap.View()), slots[..i], node))
      {
        slotMap.Parts();
        assert slots[..i + 1][..i] == slots[..i];
        var _ := slotMap.SetSlotReplica(slots[i], node);
      }
      assert slots[..|slots|] == slots;
    }

    /** Failover: flip each slot, drop the new primary as its replica, re-home the demoted owner as one. */
    method PromoteAll(slots: seq<nat>, id: Str) returns (ghost here: bool)
      requires slotMap.Valid() && SlotsOk(slots)
      modifies slotMap.owner, slotMap.mine, slotMap.phase, slotMap.peer, slotMap.replicas
      ensures slotMap.Valid()
      ensures slotMap.Local() == old(slotMap.Local()).(view := Promotes(old(slotMap.View()), slots, id))
      ensures AllStore(old(slotMap.mine.history), slotMap.mine.history, here)
    {
      hide SlotMap.Valid, SlotMap.View, SlotMap.Local, SlotMap.State, Promote;
      slotMap.Parts();
      here := IsAt(slotMap.View(), id, slotMap.nodes[slotMap.me].Ep());
      for i := 0 to |slots|
        invariant slotMap.Valid()
        invariant slotMap.Local() == old(slotMap.Local()).(view := Promotes(old(slotMap.View()), slots[..i], id))
        invariant AllStore(old(slotMap.mine.history), slotMap.mine.history, here)
      {
        slotMap.Parts();
        PromotesAt(old(slotMap.View()), slots[..i], id, 0);
        assert slots[..i + 1][..i] == slots[..i];
        PromoteOne(slots[i], id);
      }
      assert slots[..|slots|] == slots;
    }

    method PromoteOne(slot: nat, id: Str)
      requires slotMap.Valid() && slot < SLOTS
      modifies slotMap.owner, slotMap.mine, slotMap.phase, slotMap.peer, slotMap.replicas
      ensures slotMap.Valid() && Sized(old(slotMap.View()))
      ensures slotMap.Local() == old(slotMap.Local()).(view := Promote(old(slotMap.View()), slot, id))
      ensures old(slotMap.me < |slotMap.nodes|)
      ensures AllStore(old(slotMap.mine.history), slotMap.mine.history,
        old(IsAt(slotMap.View(), id, slotMap.nodes[slotMap.me].Ep())))
    {
      hide SlotMap.Valid, SlotMap.View, SlotMap.Local, SlotMap.State, SetOwner, ClearOwner, SetReplica, ClearReplica;
      slotMap.Parts();
      var oldOwner := slotMap.OwnerId(slot);
      var _ := slotMap.SetSlotNode(slot, id);
      slotMap.Parts();
      slotMap.ClearSlotReplica(slot, id);
      slotMap.Parts();
      if oldOwner.Some? && oldOwner.value != id {
        var _ := slotMap.SetSlotReplica(slot, oldOwner.value);
      }
    }

    /** The epoch counter, then the map's bytes. */
    method Snapshot() returns (out: seq<byte>)
      requires Valid()
      ensures out == SerU64(View().epoch) + Bytes(View())
    {
      var rest := slotMap.SerializeCommitted();
      out := SerU64(epoch) + rest;
    }

    /** Read the epoch off the front and install the rest. */
    method Restore(data: seq<byte>)
      requires Valid()
      requires |Restored(View(), Self(), data).nodes| <= UNASSIGNED
      modifies this, slotMap, slotMap.mine, slotMap.owner, slotMap.replicas, slotMap.phase, slotMap.peer
      ensures Valid() && Self() == old(Self())
      ensures epoch == EpochIn(data) && View() == Restored(old(View()), old(Self()), data)
      ensures Switched(old(slotMap.mine.history), slotMap.mine.history)
    {
      hide NodesOf, IdsOf, MigsOf, EpochsOf, Position, Inv, ParseSnapshot, Installed, FromLittleEndian, Published,
           Switched;
      var split := if |data| < 8 then |data| else 8;
      var e := ParseU64(data[..split]);
      assert |data| >= 8 ==> data[..8][..8] == data[..8];
      epoch := if e.Got? then e.value else 0;
      assert |data| < 8 ==> data[split..] == [];
      slotMap.RestoreCommitted(data[split..]);
      OnceSwitches(old(slotMap.mine.history), slotMap.mine.history);
      slotMap.SetCommittedEpoch(epoch);
    }
  }

  // ----- what a restore means -----

  /** The epoch a buffer announces; one too short for it reads as 0. */
  ghost function EpochIn(data: seq<byte>): nat
  {
    var e := ParseU64(data);
    if e.Got? then e.value else 0
  }

  ghost function MapBytes(data: seq<byte>): seq<byte> { if |data| < 8 then [] else data[8..] }

  /** Map bytes that do not decode leave nodes and slots as they were, under the epoch just read. */
  ghost function Restored(v: View, self: NodeEntry, data: seq<byte>): View
  {
    var p := ParseSnapshot()(MapBytes(data));
    (if p.Got? then Installed(self, p.value) else v).(epoch := EpochIn(data))
  }

  /** Restoring another node's snapshot gives that node's view and epoch, plus the restoring node. */
  lemma RestoreUndoesSnapshot(v: View, before: View, self: NodeEntry, data: seq<byte>)
    requires ViewOk(v) && ViewFits(v) && data == SerU64(v.epoch) + Bytes(v)
    ensures ParseSnapshot()(MapBytes(data)) == Got(SnapshotOf(v), |Bytes(v)|)
    ensures Restored(before, self, data) == Installed(self, SnapshotOf(v)) == v.(nodes := v.nodes[self.id := self.Ep()])
  {
    hide ParseSnapshot, Installed, Encode, SnapshotOf, SerU64;
    U64Reads(v.epoch);
    assert ParseU64(SerU64(v.epoch) + Bytes(v)) == Got(v.epoch, |SerU64(v.epoch)|);
    assert data[8..] == Bytes(v) + [];
    assert Bytes(v) + [] == Bytes(v);
    SnapshotRoundTrip(v, self, []);
  }

  /**
   The documented fallback of a restore is the map of a fresh node at epoch 0. Bytes that do not decode lead
   there if and only if nodes and slots were fresh already and the epoch they announce is 0.
  */
  lemma MalformedRestore(v: View, self: NodeEntry, data: seq<byte>)
    requires ParseSnapshot()(MapBytes(data)).Fail?
    ensures Restored(v, self, data) == FreshLocal(self).view <==>
      v.(epoch := 0) == FreshLocal(self).view && EpochIn(data) == 0
  {
    hide ParseSnapshot, FromLittleEndian;
    if Restored(v, self, data) == FreshLocal(self).view {
      assert v.(epoch := EpochIn(data)).(epoch := 0) == v.(epoch := 0);
    }
  }

  /** The empty buffer, restored over a map with an owned slot: the epoch goes to 0 and the owner stays. */
  lemma RestoreOfNothing(v: View, self: NodeEntry, slot: nat)
    requires slot < |v.owner| && v.owner[slot].Some?
    ensures ParseSnapshot()(MapBytes([])).Fail? && Restored(v, self, []) == v.(epoch := 0) != FreshLocal(self).view
  {
    assert slot < SLOTS ==> FreshLocal(self).view.owner[slot] == None;
  }

  // ----- whole logs on real maps -----

  /** The node table never has to grow past what a 16-bit index can name. */
  ghost predicate RoomFor(v: View, self: NodeEntry, log: seq<ConfigCmd>)
    requires Sized(v) && LogOk(log)
  {
    forall n :: 0 <= n < |log| ==> RoomForNext(ReplayFrom(v, self, log[..n]), log[n])
  }

  ghost predicate RoomForNext(v: View, cmd: ConfigCmd)
  {
    cmd.AddNode? && cmd.entry.id !in v.nodes ==> |v.nodes| < UNASSIGNED
  }

  /** Apply a whole log, command by command. */
  method ApplyAll(sm: ConfigSm, log: seq<ConfigCmd>)
    requires sm.Valid() && LogOk(log) && Sized(sm.View()) && RoomFor(sm.View(), sm.Self(), log)
    modifies sm, sm.slotMap, sm.slotMap.mine, sm.slotMap.owner, sm.slotMap.replicas, sm.slotMap.phase, sm.slotMap.peer
    ensures sm.Valid() && sm.Self() == old(sm.Self())
    ensures sm.View() == ReplayFrom(old(sm.View()), old(sm.Self()), log)
  {
    hide ConfigSm.Valid, ConfigSm.View, ConfigSm.Self, ReplicatedLog.Apply, ReplayFrom;
    ghost var v, self := sm.View(), sm.Self();
    ReplayNothing(v, self);
    for i := 0 to |log|
      invariant sm.Valid() && sm.Self() == self && sm.View() == ReplayFrom(v, self, log[..i])
    {
      assert RoomForNext(ReplayFrom(v, self, log[..i]), log[i]);
      TableRoom(sm);
      assert log[..i + 1][..i] == log[..i];
      ReplayLast(v, self, log[..i + 1]);
      sm.Apply(log[i]);
    }
    assert log[..|log|] == log;
  }

  lemma TableRoom(sm: ConfigSm)
    requires sm.Valid()
    ensures |sm.slotMap.nodes| == |sm.View().nodes|
  {
    TableSize(sm.slotMap.nodes);
  }

  /** A node that boots alone and applies a log holds exactly what the log says it should. */
  method BootAndApply(self: NodeEntry, log: seq<ConfigCmd>) returns (sm: ConfigSm)
    requires LogOk(log) && RoomFor(FreshLocal(self).view, self, log)
    ensures fresh(sm) && fresh(sm.slotMap) && sm.Valid() && sm.Self() == self && sm.View() == Replay(self, log)
  {
    var m := new SlotMap.EmptySelf(self.id, self.host, self.port);
    FreshSelf(m, self);
    sm := new ConfigSm(m);
    ApplyAll(sm, log);
  }

  lemma FreshSelf(m: SlotMap, self: NodeEntry)
    requires m.Valid() && m.Local() == FreshLocal(self)
    ensures m.View() == FreshLocal(self).view && m.currentEpoch == 0 && m.me < |m.nodes| && m.nodes[m.me] == self
  {
    NodesAt(m.nodes);
    m.Parts();
    assert m.View().nodes == map[self.id := self.Ep()];
    assert m.nodes[m.me].id in m.View().nodes;
  }

  /**
   A follower, in whatever state, restores the leader's snapshot of `prefix` and applies `suffix`. It ends with the
   owners and the epoch that replaying everything would have given it, even if the leader has not been met; with the
   whole view but the tags if it has; and with the tags as well if the two carried the same.
  */
  method CatchUp(leader: ConfigSm, follower: ConfigSm, ghost prefix: seq<ConfigCmd>, suffix: seq<ConfigCmd>)
    requires leader.Valid() && follower.Valid()
    requires LogOk(prefix) && LogOk(suffix) && LogOk(prefix + suffix)
    requires leader.View() == Replay(leader.Self(), prefix) && ViewFits(leader.View())
    requires NamesOnceMet(Both(leader.Self(), follower.Self()), prefix + suffix)
    requires leader.Self().id == follower.Self().id ==> leader.Self() == follower.Self()
    requires var installed := Installed(follower.Self(), SnapshotOf(Replay(leader.Self(), prefix)));
      |installed.nodes| <= UNASSIGNED && Sized(installed) && RoomFor(installed, follower.Self(), suffix)
    modifies follower, follower.slotMap, follower.slotMap.mine, follower.slotMap.owner, follower.slotMap.replicas,
      follower.slotMap.phase, follower.slotMap.peer
    ensures follower.Valid() && follower.Self() == old(follower.Self())
    ensures follower.View().owner == Replay(follower.Self(), prefix + suffix).owner
    ensures follower.View().epoch == Replay(follower.Self(), prefix + suffix).epoch
    ensures var a, b := old(leader.Self()), follower.Self();
      Behaves(a, prefix) && Behaves(b, prefix + suffix) && Met(a, prefix) ==>
      && follower.View().(mig := []) == Replay(b, prefix + suffix).(mig := [])
      && (TagsAgree(prefix, a.Ep(), b.Ep()) ==> follower.View() == Replay(b, prefix + suffix))
  {
    hide *;
    ghost var a, b := leader.Self(), follower.Self();
    ReplayOk(a, prefix);
    InstallKeepsOwners(a, b, prefix, suffix);
    if Behaves(a, prefix) && Behaves(b, prefix + suffix) {
      InstallEqualsReplay(a, b, prefix, suffix);
    }
    var data := leader.Snapshot();
    RestoreUndoesSnapshot(leader.View(), follower.View(), b, data);
    follower.Restore(data);
    ApplyAll(follower, suffix);
  }

  /** After the install the follower needs no more room than if it had replayed the prefix. */
  lemma InstallLeavesRoom(a: NodeEntry, b: NodeEntry, prefix: seq<ConfigCmd>, suffix: seq<ConfigCmd>)
    requires LogOk(prefix) && LogOk(suffix) && LogOk(prefix + suffix)
    requires Behaves(a, prefix) && Behaves(b, prefix + suffix) && Met(a, prefix)
    requires |Replay(b, prefix).nodes| <= UNASSIGNED
    requires Sized(Replay(b, prefix)) && RoomFor(Replay(b, prefix), b, suffix)
    ensures ViewOk(Replay(a, prefix))
    ensures var installed := Installed(b, SnapshotOf(Replay(a, prefix)));
      |installed.nodes| <= UNASSIGNED && Sized(installed) && RoomFor(installed, b, suffix)
  {
    hide Replay, ReplayFrom, History, Installed, SnapshotOf, Behaves, Mirrors, NodeEntry.Ep;
    var installed, replayed := Installed(b, SnapshotOf(Replay(a, prefix))), Replay(b, prefix);
    assert (prefix + suffix)[..|prefix|] == prefix;
    BehavesPrefix(b, prefix + suffix, |prefix|);
    NodeViewOk(a, prefix);
    InstallMirrors(a, b, prefix);
    ReplayMirrors(b, prefix);
    MirrorsOwner(installed, History(prefix).view, b);
    MirrorsDetermine(installed, replayed, History(prefix).view, b);
    assert installed.nodes == installed.(mig := []).nodes && replayed.nodes == replayed.(mig := []).nodes;
    forall n | 0 <= n < |suffix| ensures RoomForNext(ReplayFrom(installed, b, suffix[..n]), suffix[n]) {
      assert RoomForNext(ReplayFrom(replayed, b, suffix[..n]), suffix[n]);
      SameNodesAlong(installed, replayed, b, prefix, suffix, n);
    }
  }

  lemma SameNodesAlong(x: View, y: View, b: NodeEntry, prefix: seq<ConfigCmd>, suffix: seq<ConfigCmd>, n: nat)
    requires LogOk(prefix) && LogOk(suffix) && LogOk(prefix + suffix) && Behaves(b, prefix + suffix) && n <= |suffix|
    requires Mirrors(x, History(prefix).view, b) && Mirrors(y, History(prefix).view, b) && Sized(x) && Sized(y)
    ensures LogOk(suffix[..n]) && ReplayFrom(x, b, suffix[..n]).nodes == ReplayFrom(y, b, suffix[..n]).nodes
  {
    hide ReplayFrom, History, Behaves, Mirrors;
    var log := prefix + suffix;
    assert log[..|prefix| + n] == prefix + suffix[..n];
    BehavesPrefix(b, log, |prefix| + n);
    MirrorsOn(x, b, prefix, suffix[..n]);
    MirrorsOn(y, b, prefix, suffix[..n]);
    var v, w := ReplayFrom(x, b, suffix[..n]), ReplayFrom(y, b, suffix[..n]);
    MirrorsDetermine(v, w, History(prefix + suffix[..n]).view, b);
    assert v.nodes == v.(mig := []).nodes && w.nodes == w.(mig := []).nodes;
  }

  lemma NothingStored(h: seq<Write>)
    ensures Switched(h, h)
  {
  }

  lemma OneStored(before: seq<Write>, after: seq<Write>)
    requires |after| == |before| + 1 && after[..|before|] == before
    ensures Switched(before, after)
  {
  }
}
