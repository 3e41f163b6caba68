/** What becomes of one slot's migration tag on one node: through a snapshot install, and against ownership. */
module MigrationTags {
  import opened Core
  import opened SlotTypes
  import opened ReplicatedLog
  import opened CommandEffects
  import opened Convergence
  import opened SnapshotView

  // ----- what one command does to one tag -----

  datatype Change = Keep | Put(tag: Option<Migration>) | Drop(peer: Str)

  /** Depends on nodes and owners, not on any tag. */
  ghost function ChangeOf(v: View, self: NodeEntry, cmd: ConfigCmd, slot: nat): Change
    requires slot < |v.owner|
  {
    match cmd
    case RemoveNode(id) => if ForgetError(v, self.id, id).None? then Drop(id) else Keep
    case SetSlotOwner(k, node) => if k == slot && node in v.nodes then Put(None) else Keep
    case AssignSlots(node, slots) => if slot in slots && node in v.nodes then Put(None) else Keep
    case PromoteReplica(slots, id) => if slot in slots && id in v.nodes then Put(None) else Keep
    case SetSlotMigrating(k, dest) =>
      if k == slot && OwnedAt(v, slot, self.Ep()) && dest in v.nodes then Put(Some(Migration(Migrating, dest)))
      else Keep
    case SetSlotImporting(k, src, dest) =>
      if k == slot && IsAt(v, dest, self.Ep()) && src in v.nodes then Put(Some(Migration(Importing, src)))
      else Keep
    case SetSlotStable(k) => if k == slot then Put(None) else Keep
    case _ => Keep
  }

  ghost function Changed(c: Change, tag: Option<Migration>): Option<Migration>
  {
    match c
    case Keep => tag
    case Put(t) => t
    case Drop(id) => if tag.Some? && tag.value.peer == id then None else tag
  }

  /** One command changes a tag as said, and an owner only together with the tag or by unassigning. */
  lemma StepAt(v: View, self: NodeEntry, cmd: ConfigCmd, slot: nat)
    requires ViewOk(v) && CmdOk(cmd) && slot < SLOTS
    ensures Sized(v)
    ensures var w := Apply(v, self, cmd);
      var c := ChangeOf(v, self, cmd, slot);
      && w.mig[slot] == Changed(c, v.mig[slot])
      && (!c.Put? && !Unassigns(cmd, slot) ==> w.owner[slot] == v.owner[slot])
      && (Unassigns(cmd, slot) ==> w.owner[slot] == None)
      && (c.Put? && c.tag.Some? ==> w.owner[slot] == v.owner[slot] && w.nodes == v.nodes)
      && (v.owner[slot].Some? ==>
            v.owner[slot].value in w.nodes && w.nodes[v.owner[slot].value] == v.nodes[v.owner[slot].value])
  {
    var u := v.(epoch := v.epoch + 1);
    match cmd
    case AssignSlots(node, slots) => OwnersAt(u, slots, node, slot);
    case UnassignSlots(slots) => ClearedAt(u, slots, slot);
    case AssignReplica(node, slots) => ReplicasAt(u, slots, node, slot);
    case PromoteReplica(slots, id) => PromotesAt(u, slots, id, slot);
    case _ =>
  }

  ghost predicate Unassigns(cmd: ConfigCmd, slot: nat) { cmd.UnassignSlots? && slot in cmd.slots }

  lemma NodeViewOk(self: NodeEntry, log: seq<ConfigCmd>)
    requires LogOk(log) && Behaves(self, log)
    ensures ViewOk(Replay(self, log))
  {
    hide Replay, History;
    NodeFollowsLog(self, log);
  }

  // ----- tags across an install -----

  /** What the `n`-th command of `suffix` does to node `b`'s tag on `slot`. */
  ghost function ChangeAt(b: NodeEntry, prefix: seq<ConfigCmd>, suffix: seq<ConfigCmd>, slot: nat, n: nat): Change
    requires LogOk(prefix) && LogOk(suffix) && n < |suffix| && slot < SLOTS
  {
    ChangeOf(Replay(b, prefix + suffix[..n]), b, suffix[n], slot)
  }

  /** Some command of `suffix` sets or clears node `b`'s tag on `slot`, whatever it was. */
  ghost predicate Overwritten(b: NodeEntry, prefix: seq<ConfigCmd>, suffix: seq<ConfigCmd>, slot: nat)
    requires LogOk(prefix) && LogOk(suffix) && slot < SLOTS
  {
    exists n :: 0 <= n < |suffix| && ChangeAt(b, prefix, suffix, slot, n).Put?
  }

  ghost predicate Removed(b: NodeEntry, prefix: seq<ConfigCmd>, suffix: seq<ConfigCmd>, slot: nat, id: Str)
    requires LogOk(prefix) && LogOk(suffix) && slot < SLOTS
  {
    exists n :: 0 <= n < |suffix| && ChangeAt(b, prefix, suffix, slot, n) == Drop(id)
  }

  /** What is left of a tag that nothing overwrites: it goes if its peer is removed from the cluster. */
  ghost function Left(
    b: NodeEntry, prefix: seq<ConfigCmd>, suffix: seq<ConfigCmd>, slot: nat, tag: Option<Migration>): Option<Migration>
    requires LogOk(prefix) && LogOk(suffix) && slot < SLOTS
  {
    if tag.Some? && Removed(b, prefix, suffix, slot, tag.value.peer) then None else tag
  }

  lemma {:induction false} TagLeft(v: View, b: NodeEntry, prefix: seq<ConfigCmd>, suffix: seq<ConfigCmd>, slot: nat)
    requires LogOk(prefix) && LogOk(suffix) && LogOk(prefix + suffix) && Behaves(b, prefix + suffix)
    requires Mirrors(v, History(prefix).view, b) && Sized(v) && slot < SLOTS
    ensures !Overwritten(b, prefix, suffix, slot) ==>
      ReplayFrom(v, b, suffix).mig[slot] == Left(b, prefix, suffix, slot, v.mig[slot])
  {
    hide Replay, ReplayFrom, Mirrors, Behaves, History, ChangeOf, Apply;
    if suffix == [] {
      ReplayNothing(v, b);
    } else if !Overwritten(b, prefix, suffix, slot) {
      var n := |suffix| - 1;
      var shorter := suffix[..n];
      StepTogether(v, b, prefix, suffix, slot);
      assert forall k :: 0 <= k < n ==>
        ChangeAt(b, prefix, shorter, slot, k) == ChangeAt(b, prefix, suffix, slot, k) by {
        assert forall k :: 0 <= k < n ==> shorter[..k] == suffix[..k];
      }
      TagLeft(v, b, prefix, shorter, slot);
      var tag := v.mig[slot];
      var c := ChangeAt(b, prefix, suffix, slot, n);
      assert tag.Some? ==> (Removed(b, prefix, suffix, slot, tag.value.peer) <==>
        Removed(b, prefix, shorter, slot, tag.value.peer) || c == Drop(tag.value.peer));
    }
  }

  /** The last command of `suffix` does to any run what it does to the replay. */
  lemma StepTogether(v: View, b: NodeEntry, prefix: seq<ConfigCmd>, suffix: seq<ConfigCmd>, slot: nat)
    requires LogOk(prefix) && LogOk(suffix) && LogOk(prefix + suffix) && Behaves(b, prefix + suffix)
    requires Mirrors(v, History(prefix).view, b) && Sized(v) && slot < SLOTS && suffix != []
    ensures var n := |suffix| - 1;
      && LogOk(suffix[..n]) && LogOk(prefix + suffix[..n]) && Behaves(b, prefix + suffix[..n])
      && ReplayFrom(v, b, suffix).mig[slot] ==
           Changed(ChangeAt(b, prefix, suffix, slot, n), ReplayFrom(v, b, suffix[..n]).mig[slot])
  {
    hide *;
    var n := |suffix| - 1;
    var log := prefix + suffix;
    LogParts(prefix, suffix);
    var shorter := prefix + suffix[..n];
    assert log[..|log| - 1] == shorter;
    BehavesPrefix(b, log, |log| - 1);
    MirrorsOn(v, b, prefix, suffix[..n]);
    ReplayMirrors(b, shorter);
    MirrorsChange(ReplayFrom(v, b, suffix[..n]), Replay(b, shorter), History(shorter).view, b, suffix[n], slot);
    ReplayLast(v, b, suffix);
    ChangeAtLast(b, prefix, suffix, slot);
  }

  lemma LogParts(prefix: seq<ConfigCmd>, suffix: seq<ConfigCmd>)
    requires LogOk(prefix) && LogOk(suffix) && suffix != []
    ensures LogOk(suffix[..|suffix| - 1]) && LogOk(prefix + suffix[..|suffix| - 1]) && CmdOk(suffix[|suffix| - 1])
  {
  }

  lemma ChangeAtLast(b: NodeEntry, prefix: seq<ConfigCmd>, suffix: seq<ConfigCmd>, slot: nat)
    requires LogOk(prefix) && LogOk(suffix) && suffix != [] && slot < SLOTS
    ensures var n := |suffix| - 1;
      ChangeAt(b, prefix, suffix, slot, n) == ChangeOf(Replay(b, prefix + suffix[..n]), b, suffix[n], slot)
  {
    hide Replay, ChangeOf;
  }

  lemma MirrorsChange(x: View, y: View, c: View, self: NodeEntry, cmd: ConfigCmd, slot: nat)
    requires Mirrors(x, c, self) && Mirrors(y, c, self) && CmdOk(cmd) && slot < SLOTS
    ensures Sized(x) && Sized(y)
    ensures Apply(x, self, cmd).mig[slot] == Changed(ChangeOf(y, self, cmd, slot), x.mig[slot])
  {
    hide Apply, ChangeOf, Changed, Mirrors;
    MirrorsDetermine(x, y, c, self);
    MirrorIsOk(x, c, self);
    MirrorIsOk(y, c, self);
    StepAt(x, self, cmd, slot);
    SameChange(x, y, self, cmd, slot);
  }

  lemma MirrorIsOk(v: View, c: View, self: NodeEntry)
    requires Mirrors(v, c, self)
    ensures ViewOk(v) && |v.owner| == SLOTS
  {
  }

  lemma SameChange(x: View, y: View, self: NodeEntry, cmd: ConfigCmd, slot: nat)
    requires x.(mig := []) == y.(mig := []) && slot < |x.owner|
    ensures ChangeOf(x, self, cmd, slot) == ChangeOf(y, self, cmd, slot)
  {
    assert x.owner == x.(mig := []).owner && x.nodes == x.(mig := []).nodes;
    assert y.owner == y.(mig := []).owner && y.nodes == y.(mig := []).nodes;
  }

  /** Two runs over the same suffix agree on a tag that the suffix overwrites. */
  lemma {:induction false} OverwrittenAgree(
    v: View, w: View, b: NodeEntry, prefix: seq<ConfigCmd>, suffix: seq<ConfigCmd>, slot: nat)
    requires LogOk(prefix) && LogOk(suffix) && LogOk(prefix + suffix) && Behaves(b, prefix + suffix)
    requires Mirrors(v, History(prefix).view, b) && Mirrors(w, History(prefix).view, b) && Sized(v) && Sized(w)
    requires slot < SLOTS && Overwritten(b, prefix, suffix, slot)
    ensures ReplayFrom(v, b, suffix).mig[slot] == ReplayFrom(w, b, suffix).mig[slot]
    decreases |suffix|
  {
    hide Replay, ReplayFrom, Mirrors, Behaves, History, ChangeOf, Apply;
    var n := |suffix| - 1;
    var shorter := suffix[..n];
    StepTogether(v, b, prefix, suffix, slot);
    StepTogether(w, b, prefix, suffix, slot);
    if !ChangeAt(b, prefix, suffix, slot, n).Put? {
      var k :| 0 <= k < |suffix| && ChangeAt(b, prefix, suffix, slot, k).Put?;
      assert shorter[..k] == suffix[..k];
      assert ChangeAt(b, prefix, shorter, slot, k).Put?;
      OverwrittenAgree(v, w, b, prefix, shorter, slot);
    }
  }

  /**
   Node `b` installs node `a`'s snapshot of `prefix` and applies `suffix`. Its tag on a slot comes out as
   replaying everything would have left it if and only if the suffix overwrites that tag, or what is left
   of the tags `a` and `b` had at the snapshot is the same.
  */
  lemma TagAfterInstall(a: NodeEntry, b: NodeEntry, prefix: seq<ConfigCmd>, suffix: seq<ConfigCmd>, slot: nat)
    requires LogOk(prefix) && LogOk(suffix) && LogOk(prefix + suffix) && slot < SLOTS
    requires Behaves(a, prefix) && Behaves(b, prefix + suffix) && Met(a, prefix)
    ensures var installed := Installed(b, SnapshotOf(Replay(a, prefix)));
      var tagA, tagB := TagAt(History(prefix).tags[slot], a.Ep()), TagAt(History(prefix).tags[slot], b.Ep());
      && Sized(installed)
      && (ReplayFrom(installed, b, suffix).mig[slot] == Replay(b, prefix + suffix).mig[slot] <==>
            Overwritten(b, prefix, suffix, slot) ||
            Left(b, prefix, suffix, slot, tagA) == Left(b, prefix, suffix, slot, tagB))
  {
    hide Replay, ReplayFrom, Mirrors, Behaves, History, Installed, SnapshotOf, NodeEntry.Ep, Overwritten, Left, TagAt;
    assert (prefix + suffix)[..|prefix|] == prefix;
    BehavesPrefix(b, prefix + suffix, |prefix|);
    InstallMirrors(a, b, prefix);
    NodeFollowsLog(a, prefix);
    NodeFollowsLog(b, prefix);
    var installed, replayed := Installed(b, SnapshotOf(Replay(a, prefix))), Replay(b, prefix);
    MirrorsOwner(installed, History(prefix).view, b);
    ReplaysSplit(b, prefix, suffix);
    TagLeft(installed, b, prefix, suffix, slot);
    TagLeft(replayed, b, prefix, suffix, slot);
    if Overwritten(b, prefix, suffix, slot) {
      OverwrittenAgree(installed, replayed, b, prefix, suffix, slot);
    }
  }

  // ----- a MIGRATING tag and ownership -----

  /** The slot was unassigned, and node `self` has not tagged it MIGRATING as its owner since. */
  ghost predicate Abandoned(self: NodeEntry, log: seq<ConfigCmd>, slot: nat)
    requires LogOk(log) && slot < SLOTS
    decreases |log|
  {
    log != [] &&
    var front, last := log[..|log| - 1], log[|log| - 1];
    if Unassigns(last, slot) then true
    else if last.SetSlotMigrating? && last.slot == slot && OwnedAt(Replay(self, front), slot, self.Ep()) then false
    else Abandoned(self, front, slot)
  }

  ghost predicate IsMigrating(v: View, slot: nat)
    requires slot < |v.mig|
  {
    v.mig[slot].Some? && v.mig[slot].value.phase == Migrating
  }

  /** A node that carries a MIGRATING tag owns the slot if and only if the slot was not unassigned under the tag. */
  lemma {:induction false} MigratingMeansOwner(self: NodeEntry, log: seq<ConfigCmd>, slot: nat)
    requires LogOk(log) && Behaves(self, log) && slot < SLOTS && IsMigrating(Replay(self, log), slot)
    ensures OwnedAt(Replay(self, log), slot, self.Ep()) <==> !Abandoned(self, log, slot)
    decreases |log|
  {
    hide Behaves, Apply, NodeEntry.Ep, History;
    if log != [] {
      var n := |log| - 1;
      var front := log[..n];
      BehavesPrefix(self, log, n);
      NodeViewOk(self, front);
      StepAt(Replay(self, front), self, log[n], slot);
      if IsMigrating(Replay(self, front), slot) {
        MigratingMeansOwner(self, front, slot);
      }
    }
  }

  /** The log of `OpenMigration`, then the migrating slot is unassigned. */
  ghost function AbandonedMigration(a: NodeEntry, b: NodeEntry): (log: seq<ConfigCmd>)
    ensures LogOk(log)
  {
    OpenMigration(a, b) + [UnassignSlots([0])]
  }

  /** So a tag on a slot nobody owns does occur. */
  lemma MigratingWithoutOwner(a: NodeEntry, b: NodeEntry)
    requires a.id != b.id
    ensures var log := AbandonedMigration(a, b);
      Behaves(a, log) && IsMigrating(Replay(a, log), 0) && Replay(a, log).owner[0] == None
  {
    hide Replay, History, Behaves, OpenMigration, NodeEntry.Ep;
    var open := OpenMigration(a, b);
    var log := AbandonedMigration(a, b);
    OpenMigrationHistory(a, b);
    NodeFollowsLog(a, open);
    NodeViewOk(a, open);
    assert log[..|log| - 1] == open;
    LastCommand(a, log);
    StepAt(Replay(a, open), a, UnassignSlots([0]), 0);
  }

  lemma LastCommand(self: NodeEntry, log: seq<ConfigCmd>)
    requires LogOk(log) && log != [] && Behaves(self, log[..|log| - 1]) && log[|log| - 1].UnassignSlots?
    ensures Behaves(self, log)
    ensures Replay(self, log) == Apply(Replay(self, log[..|log| - 1]), self, log[|log| - 1])
  {
    hide Apply, History;
    forall i | 0 <= i < |log| ensures StepOk(History(log[..i]).view, log[i], self) {
      if i < |log| - 1 {
        assert log[..|log| - 1][..i] == log[..i];
      }
    }
  }

  // ----- the same after an install -----

  ghost predicate UnassignedIn(log: seq<ConfigCmd>, slot: nat)
  {
    exists n :: 0 <= n < |log| && Unassigns(log[n], slot)
  }

  /** While nothing overwrites node `b`'s tag on a slot, `b` can only lose the slot, by its being unassigned. */
  lemma {:induction false} OwnerLeft(v: View, b: NodeEntry, prefix: seq<ConfigCmd>, suffix: seq<ConfigCmd>, slot: nat)
    requires LogOk(prefix) && LogOk(suffix) && LogOk(prefix + suffix) && Behaves(b, prefix + suffix)
    requires Mirrors(v, History(prefix).view, b) && Sized(v) && slot < SLOTS
    requires !Overwritten(b, prefix, suffix, slot)
    ensures OwnedAt(ReplayFrom(v, b, suffix), slot, b.Ep()) <==>
      OwnedAt(v, slot, b.Ep()) && !UnassignedIn(suffix, slot)
    decreases |suffix|
  {
    hide Replay, ReplayFrom, Mirrors, Behaves, History, ChangeOf, Apply, NodeEntry.Ep, OwnedAt;
    if suffix == [] {
      ReplayNothing(v, b);
    } else {
      var n := |suffix| - 1;
      var shorter := suffix[..n];
      StepTogether(v, b, prefix, suffix, slot);
      assert forall k :: 0 <= k < n ==>
        ChangeAt(b, prefix, shorter, slot, k) == ChangeAt(b, prefix, suffix, slot, k) by {
        assert forall k :: 0 <= k < n ==> shorter[..k] == suffix[..k];
      }
      OwnerLeft(v, b, prefix, shorter, slot);
      OwnerStep(v, b, prefix, suffix, slot);
      assert UnassignedIn(suffix, slot) <==> UnassignedIn(shorter, slot) || Unassigns(suffix[n], slot);
    }
  }

  lemma OwnerStep(v: View, b: NodeEntry, prefix: seq<ConfigCmd>, suffix: seq<ConfigCmd>, slot: nat)
    requires LogOk(prefix) && LogOk(suffix) && LogOk(prefix + suffix) && Behaves(b, prefix + suffix)
    requires Mirrors(v, History(prefix).view, b) && Sized(v) && slot < SLOTS && suffix != []
    requires !ChangeAt(b, prefix, suffix, slot, |suffix| - 1).Put?
    ensures var n := |suffix| - 1;
      && LogOk(suffix[..n])
      && (OwnedAt(ReplayFrom(v, b, suffix), slot, b.Ep()) <==>
            OwnedAt(ReplayFrom(v, b, suffix[..n]), slot, b.Ep()) && !Unassigns(suffix[n], slot))
  {
    hide *;
    var n := |suffix| - 1;
    var log := prefix + suffix;
    LogParts(prefix, suffix);
    var shorter := prefix + suffix[..n];
    assert log[..|log| - 1] == shorter;
    BehavesPrefix(b, log, |log| - 1);
    MirrorsOn(v, b, prefix, suffix[..n]);
    ReplayMirrors(b, shorter);
    ChangeAtLast(b, prefix, suffix, slot);
    ReplayLast(v, b, suffix);
    MirrorIsOk(Replay(b, shorter), History(shorter).view, b);
    MirrorsOwnerStep(ReplayFrom(v, b, suffix[..n]), Replay(b, shorter), History(shorter).view, b, suffix[n], slot);
  }

  lemma MirrorsOwnerStep(x: View, y: View, c: View, self: NodeEntry, cmd: ConfigCmd, slot: nat)
    requires Mirrors(x, c, self) && Mirrors(y, c, self) && CmdOk(cmd) && slot < SLOTS
    requires |y.owner| == SLOTS && !ChangeOf(y, self, cmd, slot).Put?
    ensures Sized(x)
    ensures OwnedAt(Apply(x, self, cmd), slot, self.Ep()) <==> OwnedAt(x, slot, self.Ep()) && !Unassigns(cmd, slot)
  {
    hide Apply, ChangeOf, Changed, Mirrors, NodeEntry.Ep;
    MirrorsDetermine(x, y, c, self);
    MirrorIsOk(x, c, self);
    StepAt(x, self, cmd, slot);
    SameChange(x, y, self, cmd, slot);
  }

  /**
   A node in any state that mirrors `prefix`, wherever its tags came from, then applies `suffix` and carries a
   MIGRATING tag. If the suffix overwrote the tag, the node owns the slot exactly as after a replay; if not, exactly
   if it owned it at the start and the slot was not unassigned since.
  */
  lemma MigratingAfter(v: View, b: NodeEntry, prefix: seq<ConfigCmd>, suffix: seq<ConfigCmd>, slot: nat)
    requires LogOk(prefix) && LogOk(suffix) && LogOk(prefix + suffix) && Behaves(b, prefix + suffix)
    requires Mirrors(v, History(prefix).view, b) && Sized(v) && slot < SLOTS
    requires IsMigrating(ReplayFrom(v, b, suffix), slot)
    ensures OwnedAt(ReplayFrom(v, b, suffix), slot, b.Ep()) <==>
      if Overwritten(b, prefix, suffix, slot) then !Abandoned(b, prefix + suffix, slot)
      else OwnedAt(v, slot, b.Ep()) && !UnassignedIn(suffix, slot)
  {
    hide Replay, ReplayFrom, Mirrors, Behaves, History, Abandoned, Overwritten, UnassignedIn, NodeEntry.Ep, OwnedAt;
    if Overwritten(b, prefix, suffix, slot) {
      assert (prefix + suffix)[..|prefix|] == prefix;
      BehavesPrefix(b, prefix + suffix, |prefix|);
      ReplayMirrors(b, prefix);
      OverwrittenAgree(v, Replay(b, prefix), b, prefix, suffix, slot);
      ReplaysSplit(b, prefix, suffix);
      MirrorsOn(v, b, prefix, suffix);
      ReplayMirrors(b, prefix + suffix);
      MirrorsDetermine(ReplayFrom(v, b, suffix), Replay(b, prefix + suffix), History(prefix + suffix).view, b);
      MigratingMeansOwner(b, prefix + suffix, slot);
    } else {
      OwnerLeft(v, b, prefix, suffix, slot);
    }
  }

  /** Under a MIGRATING tag the slot belongs to the tagged node or to nobody. */
  lemma {:induction false} MigratingExcludesOthers(self: NodeEntry, log: seq<ConfigCmd>, slot: nat)
    requires LogOk(log) && Behaves(self, log) && slot < SLOTS && IsMigrating(Replay(self, log), slot)
    ensures Replay(self, log).owner[slot].Some? ==> OwnedAt(Replay(self, log), slot, self.Ep())
    decreases |log|
  {
    hide Behaves, Apply, NodeEntry.Ep, History;
    if log != [] {
      var n := |log| - 1;
      BehavesPrefix(self, log, n);
      NodeViewOk(self, log[..n]);
      StepAt(Replay(self, log[..n]), self, log[n], slot);
      if IsMigrating(Replay(self, log[..n]), slot) {
        MigratingExcludesOthers(self, log[..n], slot);
      }
    }
  }

  /**
   After an install of node `a`'s snapshot and any suffix, a node that carries a MIGRATING tag owns the slot if and
   only if the tag is its own (`a` is at its endpoint, or the suffix overwrote it) and the slot was not unassigned
   under it. So a node that is not the source shows MIGRATING exactly while it still carries `a`'s tag.
  */
  lemma MigratingAfterInstall(a: NodeEntry, b: NodeEntry, prefix: seq<ConfigCmd>, suffix: seq<ConfigCmd>, slot: nat)
    requires LogOk(prefix) && LogOk(suffix) && LogOk(prefix + suffix) && slot < SLOTS
    requires Behaves(a, prefix) && Behaves(b, prefix + suffix) && Met(a, prefix)
    requires Sized(Installed(b, SnapshotOf(Replay(a, prefix))))
    requires IsMigrating(ReplayFrom(Installed(b, SnapshotOf(Replay(a, prefix))), b, suffix), slot)
    ensures OwnedAt(ReplayFrom(Installed(b, SnapshotOf(Replay(a, prefix))), b, suffix), slot, b.Ep()) <==>
      (a.Ep() == b.Ep() || Overwritten(b, prefix, suffix, slot)) && !Abandoned(b, prefix + suffix, slot)
  {
    hide Replay, ReplayFrom, Mirrors, Behaves, History, Installed, SnapshotOf, NodeEntry.Ep, Overwritten, Abandoned,
         UnassignedIn, TagAt, OwnedAt;
    var installed := Installed(b, SnapshotOf(Replay(a, prefix)));
    var got, want := ReplayFrom(installed, b, suffix), Replay(b, prefix + suffix);
    assert (prefix + suffix)[..|prefix|] == prefix;
    BehavesPrefix(b, prefix + suffix, |prefix|);
    InstallMirrors(a, b, prefix);
    MigratingAfter(installed, b, prefix, suffix, slot);
    if a.Ep() == b.Ep() {
      TagAfterInstall(a, b, prefix, suffix, slot);
      InstallEqualsReplay(a, b, prefix, suffix);
      MigratingMeansOwner(b, prefix + suffix, slot);
    } else if !Overwritten(b, prefix, suffix, slot) {
      TagLeft(installed, b, prefix, suffix, slot);
      assert IsMigrating(Replay(a, prefix), slot);
      MigratingExcludesOthers(a, prefix, slot);
      TwoReplays(a, b, prefix);
      InstallReproduces(b, Replay(a, prefix));
      OnlyOneServes(Replay(a, prefix), installed, slot, a.Ep(), b);
    }
  }

  lemma OnlyOneServes(v: View, w: View, slot: nat, ep: Endpoint, b: NodeEntry)
    requires ViewOk(v) && slot < SLOTS && ep != b.Ep() && w == v.(nodes := v.nodes[b.id := b.Ep()])
    requires b.id in v.nodes ==> v.nodes[b.id] == b.Ep()
    requires v.owner[slot].Some? ==> OwnedAt(v, slot, ep)
    ensures !OwnedAt(w, slot, b.Ep())
  {
  }

  /** So it does occur: after `OpenMigration`, `b` installs `a`'s snapshot and shows MIGRATING on `a`'s slot. */
  lemma InstalledTagWithoutOwner(a: NodeEntry, b: NodeEntry)
    requires a.id != b.id && a.Ep() != b.Ep()
    ensures var log := OpenMigration(a, b);
      var got := Installed(b, SnapshotOf(Replay(a, log)));
      && Sized(got) && IsMigrating(got, 0) && !OwnedAt(got, 0, b.Ep()) && !Abandoned(b, log, 0)
  {
    hide Replay, History, Behaves, Installed, SnapshotOf, NodeEntry.Ep, OpenMigration, OwnedAt, Mirrors;
    var log := OpenMigration(a, b);
    var got := Installed(b, SnapshotOf(Replay(a, log)));
    OpenMigrationHistory(a, b);
    InstallMirrors(a, b, log);
    NodeFollowsLog(a, log);
    TwoReplays(a, b, log);
    MirrorIsOk(got, History(log).view, b);
    MigratingExcludesOthers(a, log, 0);
    InstallReproduces(b, Replay(a, log));
    OnlyOneServes(Replay(a, log), got, 0, a.Ep(), b);
    NeverUnassigns(b, log, 0);
    NoneUnassigned(a, b);
  }

  lemma NoneUnassigned(a: NodeEntry, b: NodeEntry)
    ensures !UnassignedIn(OpenMigration(a, b), 0)
  {
  }

  lemma {:induction false} NeverUnassigns(self: NodeEntry, log: seq<ConfigCmd>, slot: nat)
    requires LogOk(log) && slot < SLOTS
    ensures !UnassignedIn(log, slot) ==> !Abandoned(self, log, slot)
    decreases |log|
  {
    hide Replay;
    if log != [] {
      var front := log[..|log| - 1];
      NeverUnassigns(self, front, slot);
      assert UnassignedIn(front, slot) ==> UnassignedIn(log, slot) by {
        if UnassignedIn(front, slot) {
          var n :| 0 <= n < |front| && Unassigns(front[n], slot);
          assert Unassigns(log[n], slot);
        }
      }
    }
  }
}
