/**
 Who serves which slot, under a weaker promise than the rest of the model asks of a log: a node that is named as an
 owner has been met before, and is met under its own endpoint. Nodes may be removed, and a snapshot may come from a
 node that the cluster has not met.
*/
module Ownership {
  import opened Core
  import opened SlotTypes
  import opened ReplicatedLog
  import opened CommandEffects
  import opened SnapshotView
  import opened Convergence

  // ----- the promise -----

  /** `who`: nodes that may be known, under these endpoints, without the cluster having met them. */
  ghost predicate NamesOk(c: View, cmd: ConfigCmd, who: map<Str, Endpoint>)
  {
    match cmd
    case AddNode(e) => e.id in who && e.id !in c.nodes ==> e.Ep() == who[e.id]
    case SetSlotOwner(_, node) => node in who ==> node in c.nodes
    case AssignSlots(node, _) => node in who ==> node in c.nodes
    case PromoteReplica(_, id) => id in who ==> id in c.nodes
    case _ => true
  }

  ghost predicate NamesOnceMet(who: map<Str, Endpoint>, log: seq<ConfigCmd>)
    requires LogOk(log)
  {
    forall i :: 0 <= i < |log| ==> NamesOk(History(log[..i]).view, log[i], who)
  }

  ghost function Only(self: NodeEntry): map<Str, Endpoint> { map[self.id := self.Ep()] }

  /** It is part of what a behaving log promises. */
  lemma BehavingNamesOnceMet(self: NodeEntry, log: seq<ConfigCmd>)
    requires LogOk(log) && Behaves(self, log)
    ensures NamesOnceMet(Only(self), log)
  {
    hide History;
    forall i | 0 <= i < |log| ensures NamesOk(History(log[..i]).view, log[i], Only(self)) {
      assert StepOk(History(log[..i]).view, log[i], self);
    }
  }

  lemma NamesPrefix(who: map<Str, Endpoint>, log: seq<ConfigCmd>, n: nat)
    requires LogOk(log) && NamesOnceMet(who, log) && n <= |log|
    ensures LogOk(log[..n]) && NamesOnceMet(who, log[..n])
  {
    hide NamesOk, History;
    forall i | 0 <= i < n ensures NamesOk(History(log[..n][..i]).view, log[..n][i], who) {
      assert log[..n][..i] == log[..i];
    }
  }

  // ----- what it is enough for -----

  /** The same owners and epoch, and the same nodes but for some of `who`. */
  ghost predicate Tracks(v: View, c: View, who: map<Str, Endpoint>)
  {
    && Sized(v) && Sized(c) && v.owner == c.owner && v.epoch == c.epoch && Known(c.owner, c.nodes)
    && (forall id :: id in c.nodes ==> id in v.nodes && v.nodes[id] == c.nodes[id])
    && (forall id :: id in v.nodes ==> id in c.nodes || (id in who && v.nodes[id] == who[id]))
    && (forall id :: id in who && id in c.nodes ==> c.nodes[id] == who[id])
  }

  /** The nodes side of a step. */
  lemma NodesStep(v: View, c: View, self: NodeEntry, cmd: ConfigCmd, who: map<Str, Endpoint>)
    requires Tracks(v, c, who) && CmdOk(cmd) && NamesOk(c, cmd, who) && self.id in who
    requires cmd.AddNode? || cmd.RemoveNode?
    ensures var w, d := Apply(v, self, cmd), CommitView(c, cmd); Known(d.owner, d.nodes) ==> Tracks(w, d, who)
  {
  }

  lemma OwnersStep(v: View, c: View, self: NodeEntry, cmd: ConfigCmd, who: map<Str, Endpoint>, slot: nat)
    requires Tracks(v, c, who) && CmdOk(cmd) && NamesOk(c, cmd, who) && slot < SLOTS
    requires !cmd.AddNode? && !cmd.RemoveNode?
    ensures var w, d := Apply(v, self, cmd), CommitView(c, cmd);
      w.owner[slot] == d.owner[slot] && w.nodes == v.nodes && d.nodes == c.nodes
  {
    var u, e := v.(epoch := v.epoch + 1), c.(epoch := c.epoch + 1);
    match cmd
    case AssignSlots(node, slots) => OwnersAt(u, slots, node, slot); OwnersAt(e, slots, node, slot);
    case UnassignSlots(slots) => ClearedAt(u, slots, slot); ClearedAt(e, slots, slot);
    case AssignReplica(node, slots) => ReplicasAt(u, slots, node, slot); ReplicasAt(e, slots, node, slot);
    case PromoteReplica(slots, id) => PromotesAt(u, slots, id, slot); PromotesAt(e, slots, id, slot);
    case _ =>
  }

  /** One command keeps a view on track, whichever node applies it and whichever node it removes. */
  lemma StepTracks(v: View, c: View, self: NodeEntry, cmd: ConfigCmd, who: map<Str, Endpoint>)
    requires Tracks(v, c, who) && CmdOk(cmd) && NamesOk(c, cmd, who) && self.id in who
    requires Known(CommitView(c, cmd).owner, CommitView(c, cmd).nodes)
    ensures Tracks(Apply(v, self, cmd), CommitView(c, cmd), who)
  {
    if cmd.AddNode? || cmd.RemoveNode? {
      NodesStep(v, c, self, cmd, who);
    } else {
      var w, d := Apply(v, self, cmd), CommitView(c, cmd);
      CommitEpoch(c, cmd);
      EffectKeepsEpoch(v.(epoch := v.epoch + 1), self, cmd);
      forall slot | 0 <= slot < SLOTS ensures w.owner[slot] == d.owner[slot] {
        OwnersStep(v, c, self, cmd, who, slot);
      }
      OwnersStep(v, c, self, cmd, who, 0);
      hide Apply, CommitView, NamesOk;
      assert w.owner == d.owner;
    }
  }

  lemma {:induction false} TracksOn(
    v: View, self: NodeEntry, prefix: seq<ConfigCmd>, suffix: seq<ConfigCmd>, who: map<Str, Endpoint>)
    requires LogOk(prefix) && LogOk(suffix) && LogOk(prefix + suffix) && NamesOnceMet(who, prefix + suffix)
    requires self.id in who && Tracks(v, History(prefix).view, who) && Sized(v)
    ensures Tracks(ReplayFrom(v, self, suffix), History(prefix + suffix).view, who)
    decreases |suffix|
  {
    hide Tracks, Apply, CommitView, History, ReplayFrom, NamesOk;
    var log := prefix + suffix;
    if suffix == [] {
      assert log == prefix;
      ReplayNothing(v, self);
    } else {
      var n := |suffix| - 1;
      var shorter := prefix + suffix[..n];
      assert log[..|log| - 1] == shorter;
      NamesPrefix(who, log, |log| - 1);
      TracksOn(v, self, prefix, suffix[..n], who);
      LastStep(log, self);
      ReplayLast(v, self, suffix);
      assert NamesOk(History(log[..|log| - 1]).view, log[|log| - 1], who);
      HistoryKnown(log);
      StepTracks(ReplayFrom(v, self, suffix[..n]), History(shorter).view, self, suffix[n], who);
    }
  }

  lemma HistoryKnown(log: seq<ConfigCmd>)
    requires LogOk(log)
    ensures Sized(History(log).view) && Known(History(log).view.owner, History(log).view.nodes)
  {
    hide History;
  }

  lemma ReplayTracks(self: NodeEntry, log: seq<ConfigCmd>, who: map<Str, Endpoint>)
    requires LogOk(log) && NamesOnceMet(who, log) && self.id in who && who[self.id] == self.Ep()
    ensures Tracks(Replay(self, log), History(log).view, who)
  {
    hide History, ReplayFrom, NamesOnceMet;
    assert [] + log == log;
    HistoryBoot();
    TracksOn(FreshLocal(self).view, self, [], log, who);
  }

  lemma TrackedOwner(v: View, c: View, who: map<Str, Endpoint>, slot: nat, ep: Endpoint)
    requires Tracks(v, c, who) && slot < SLOTS
    ensures c.owner[slot].Some? ==> c.owner[slot].value in c.nodes
    ensures OwnedAt(v, slot, ep) <==> c.owner[slot].Some? && c.nodes[c.owner[slot].value] == ep
  {
  }

  // ----- one owner -----

  /** A node serves a slot exactly when the committed owner is at its endpoint. */
  lemma OwnsExactlyCommitted(self: NodeEntry, log: seq<ConfigCmd>, slot: nat)
    requires LogOk(log) && NamesOnceMet(Only(self), log) && slot < SLOTS
    ensures OwnedAt(Replay(self, log), slot, self.Ep()) <==> CommittedOwner(log, slot) == Some(self.Ep())
  {
    hide Replay, History, Tracks, NamesOnceMet, NodeEntry.Ep;
    ReplayTracks(self, log, Only(self));
    TrackedOwner(Replay(self, log), History(log).view, Only(self), slot, self.Ep());
  }

  /**
   No two owners: after every common prefix of the log, two nodes at different endpoints agree on the
   owner id of every slot and on the epoch, each serves a slot exactly if it is the committed owner,
   and so never do both serve the same slot. Either may have been removed from the cluster meanwhile.
  */
  lemma NoTwoOwners(a: NodeEntry, b: NodeEntry, log: seq<ConfigCmd>, n: nat, slot: nat)
    requires LogOk(log) && NamesOnceMet(Only(a), log) && NamesOnceMet(Only(b), log) && n <= |log| && slot < SLOTS
    requires a.Ep() != b.Ep()
    ensures Replay(a, log[..n]).owner == Replay(b, log[..n]).owner
    ensures Replay(a, log[..n]).epoch == Replay(b, log[..n]).epoch == n
    ensures OwnedAt(Replay(a, log[..n]), slot, a.Ep()) <==> CommittedOwner(log[..n], slot) == Some(a.Ep())
    ensures !(OwnedAt(Replay(a, log[..n]), slot, a.Ep()) && OwnedAt(Replay(b, log[..n]), slot, b.Ep()))
  {
    hide Replay, History, NodeEntry.Ep, NamesOnceMet, OwnedAt;
    NamesPrefix(Only(a), log, n);
    NamesPrefix(Only(b), log, n);
    ReplayTracks(a, log[..n], Only(a));
    ReplayTracks(b, log[..n], Only(b));
    OwnsExactlyCommitted(a, log[..n], slot);
    OwnsExactlyCommitted(b, log[..n], slot);
    EpochCounts(log[..n]);
  }

  // ----- why owners must be met before they are named -----

  /** Node `a` is named as owner before the cluster has met it. */
  ghost function NamedBeforeMet(a: NodeEntry, b: NodeEntry): (log: seq<ConfigCmd>)
    ensures LogOk(log)
  {
    [AddNode(b), SetSlotOwner(0, b.id), SetSlotOwner(0, a.id)]
  }

  /** Only `a` knows itself, so only `a` takes the flip: now both serve slot 0. */
  lemma NamedBeforeMetTwoOwners(a: NodeEntry, b: NodeEntry)
    requires a.id != b.id
    ensures var log := NamedBeforeMet(a, b);
      && !NamesOnceMet(Only(a), log) && NamesOnceMet(Only(b), log)
      && OwnedAt(Replay(a, log), 0, a.Ep()) && OwnedAt(Replay(b, log), 0, b.Ep())
  {
    hide NodeEntry.Ep;
    var log := NamedBeforeMet(a, b);
    var l1, l2 := [AddNode(b)], [AddNode(b), SetSlotOwner(0, b.id)];
    assert log[..0] == [] && log[..1] == l1 && log[..2] == l2 && l2[..1] == l1 && l1[..0] == [];
    ThreeSteps(a, log, l1, l2);
    ThreeSteps(b, log, l1, l2);
    NamedBeforeMetHistory(a, b);
  }

  lemma ThreeSteps(self: NodeEntry, log: seq<ConfigCmd>, l1: seq<ConfigCmd>, l2: seq<ConfigCmd>)
    requires |log| == 3 && LogOk(log) && l1 == log[..1] && l2 == log[..2]
    ensures LogOk(l1) && LogOk(l2)
    ensures Replay(self, log) ==
      Apply(Apply(Apply(FreshLocal(self).view, self, log[0]), self, log[1]), self, log[2])
  {
    hide Apply, ReplayFrom;
    var v := FreshLocal(self).view;
    assert l2[..1] == l1 && l1[..0] == [];
    ReplayNothing(v, self);
    ReplayLast(v, self, l1);
    ReplayLast(v, self, l2);
    ReplayLast(v, self, log);
  }

  lemma NamedBeforeMetHistory(a: NodeEntry, b: NodeEntry)
    requires a.id != b.id
    ensures !NamesOnceMet(Only(a), NamedBeforeMet(a, b)) && NamesOnceMet(Only(b), NamedBeforeMet(a, b))
  {
    hide History;
    var log := NamedBeforeMet(a, b);
    var l1, l2 := [AddNode(b)], [AddNode(b), SetSlotOwner(0, b.id)];
    assert log[..0] == [] && log[..1] == l1 && log[..2] == l2;
    HistoryBoot();
    HistorySnoc([], AddNode(b));
    HistorySnoc(l1, SetSlotOwner(0, b.id));
    assert [] + [AddNode(b)] == l1 && l1 + [SetSlotOwner(0, b.id)] == l2;
    assert History(l1).view.nodes == map[b.id := b.Ep()] == History(l2).view.nodes;
    assert !NamesOk(History(log[..2]).view, log[2], Only(a));
  }

  // ----- installs from anyone -----

  lemma {:induction false} ListsKeepOk(v: View, slots: seq<nat>, id: Str)
    requires ViewOk(v) && Sized(v) && SlotsOk(slots)
    ensures ViewOk(SetOwners(v, slots, id)) && ViewOk(ClearOwners(v, slots))
    ensures ViewOk(SetReplicas(v, slots, id)) && ViewOk(Promotes(v, slots, id))
  {
    hide ViewOk, SetOwner, ClearOwner, SetReplica, Promote;
    if slots != [] {
      var front, last := slots[..|slots| - 1], slots[|slots| - 1];
      ListsKeepOk(v, front, id);
      OneKeepsOk(SetOwners(v, front, id), last, id);
      OneKeepsOk(ClearOwners(v, front), last, id);
      OneKeepsOk(SetReplicas(v, front, id), last, id);
      OneKeepsOk(Promotes(v, front, id), last, id);
    }
  }

  lemma OneKeepsOk(v: View, slot: nat, id: Str)
    requires ViewOk(v) && Sized(v) && slot < SLOTS
    ensures ViewOk(SetOwner(v, slot, id)) && ViewOk(ClearOwner(v, slot))
    ensures ViewOk(SetReplica(v, slot, id)) && ViewOk(Promote(v, slot, id))
  {
  }

  lemma ApplyKeepsOk(v: View, self: NodeEntry, cmd: ConfigCmd)
    requires ViewOk(v) && Sized(v) && CmdOk(cmd)
    ensures ViewOk(Apply(v, self, cmd))
  {
    var u := v.(epoch := v.epoch + 1);
    match cmd
    case AssignSlots(node, slots) => ListsKeepOk(u, slots, node);
    case UnassignSlots(slots) => ListsKeepOk(u, slots, []);
    case AssignReplica(node, slots) => ListsKeepOk(u, slots, node);
    case PromoteReplica(slots, id) => ListsKeepOk(u, slots, id);
    case _ =>
  }

  /** Whatever the log, a node's view names only nodes it knows. */
  lemma {:induction false} ReplayOk(self: NodeEntry, log: seq<ConfigCmd>)
    requires LogOk(log)
    ensures ViewOk(Replay(self, log))
    decreases |log|
  {
    hide Apply;
    if log != [] {
      var n := |log| - 1;
      ReplayOk(self, log[..n]);
      ApplyKeepsOk(Replay(self, log[..n]), self, log[n]);
    }
  }

  ghost function Both(a: NodeEntry, b: NodeEntry): map<Str, Endpoint> { map[a.id := a.Ep(), b.id := b.Ep()] }

  /**
   A node that installs the snapshot of any other, met or not, removed or not, and then applies the rest of the
   log serves exactly the slots that replaying everything would have it serve.
  */
  lemma InstallKeepsOwners(a: NodeEntry, b: NodeEntry, prefix: seq<ConfigCmd>, suffix: seq<ConfigCmd>)
    requires LogOk(prefix) && LogOk(suffix) && LogOk(prefix + suffix)
    requires NamesOnceMet(Both(a, b), prefix + suffix) && (a.id == b.id ==> a == b)
    ensures var installed := Installed(b, SnapshotOf(Replay(a, prefix)));
      && Sized(installed)
      && var got, want := ReplayFrom(installed, b, suffix), Replay(b, prefix + suffix);
      && got.owner == want.owner && got.epoch == want.epoch
      && forall slot :: 0 <= slot < SLOTS ==>
           (OwnedAt(got, slot, b.Ep()) <==> CommittedOwner(prefix + suffix, slot) == Some(b.Ep()))
  {
    hide Replay, ReplayFrom, History, Installed, SnapshotOf, Tracks, NamesOnceMet, NodeEntry.Ep, OwnedAt;
    var log, who := prefix + suffix, Both(a, b);
    assert log[..|prefix|] == prefix;
    NamesPrefix(who, log, |prefix|);
    ReplayOk(a, prefix);
    ReplayTracks(a, prefix, who);
    InstallReproduces(b, Replay(a, prefix));
    var installed := Installed(b, SnapshotOf(Replay(a, prefix)));
    OneMoreNode(Replay(a, prefix), installed, History(prefix).view, who, b);
    TracksOn(installed, b, prefix, suffix, who);
    ReplayTracks(b, log, who);
    var got, want, c := ReplayFrom(installed, b, suffix), Replay(b, log), History(log).view;
    SameTrack(got, want, c, who);
    forall slot | 0 <= slot < SLOTS
      ensures OwnedAt(got, slot, b.Ep()) <==> CommittedOwner(log, slot) == Some(b.Ep())
    {
      TrackedOwner(got, c, who, slot, b.Ep());
    }
  }

  lemma OneMoreNode(v: View, w: View, c: View, who: map<Str, Endpoint>, b: NodeEntry)
    requires Tracks(v, c, who) && w == v.(nodes := v.nodes[b.id := b.Ep()]) && b.id in who && who[b.id] == b.Ep()
    ensures Tracks(w, c, who) && Sized(w)
  {
  }

  lemma SameTrack(v: View, w: View, c: View, who: map<Str, Endpoint>)
    requires Tracks(v, c, who) && Tracks(w, c, who)
    ensures v.owner == w.owner && v.epoch == w.epoch
  {
  }
}
