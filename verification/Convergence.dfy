/** Whole-run results about nodes that apply one committed log: one owner per slot, and snapshots against replay. */
module Convergence {
  import opened Core
  import opened SlotTypes
  import opened ReplicatedLog
  import opened SnapshotCodec
  import opened SnapshotView

  /** The shared state after a log. */
  ghost function History(log: seq<ConfigCmd>): (c: Shared)
    requires LogOk(log)
    ensures SharedOk(c)
  {
    if log == [] then Boot()
    else
      var before := History(log[..|log| - 1]);
      CommitOk(before, log[|log| - 1]);
      Commit(before, log[|log| - 1])
  }

  /** Throughout the log, `self` is met with its own endpoint, named only once met, and not removed. */
  ghost predicate Behaves(self: NodeEntry, log: seq<ConfigCmd>)
    requires LogOk(log)
  {
    forall i :: 0 <= i < |log| ==> StepOk(History(log[..i]).view, log[i], self)
  }

  lemma BehavesPrefix(self: NodeEntry, log: seq<ConfigCmd>, n: nat)
    requires LogOk(log) && Behaves(self, log) && n <= |log|
    ensures Behaves(self, log[..n])
  {
    forall i | 0 <= i < n ensures StepOk(History(log[..n][..i]).view, log[..n][i], self) {
      assert log[..n][..i] == log[..i];
    }
  }

  /** Every node ends where the log says: the committed view plus itself, with its own tags. */
  lemma {:induction false} NodeFollowsLog(self: NodeEntry, log: seq<ConfigCmd>)
    requires LogOk(log) && Behaves(self, log)
    ensures Follows(Replay(self, log), self, History(log))
  {
    hide Follows, Commit, Apply;
    if log == [] {
      assert Follows(FreshLocal(self).view, self, Boot()) by { BootFollows(self); }
    } else {
      var n := |log| - 1;
      BehavesPrefix(self, log, n);
      NodeFollowsLog(self, log[..n]);
      StepFollows(Replay(self, log[..n]), self, History(log[..n]), log[n]);
    }
  }

  lemma BootFollows(self: NodeEntry)
    ensures Follows(FreshLocal(self).view, self, Boot())
  {
  }

  /** The endpoint that owns `slot` in the committed view. */
  ghost function CommittedOwner(log: seq<ConfigCmd>, slot: nat): Option<Endpoint>
    requires LogOk(log) && slot < SLOTS
  {
    var v := History(log).view;
    if v.owner[slot].Some? then Some(v.nodes[v.owner[slot].value]) else None
  }

  lemma {:induction false} EpochCounts(log: seq<ConfigCmd>)
    requires LogOk(log)
    ensures History(log).view.epoch == |log|
  {
    if log != [] {
      EpochCounts(log[..|log| - 1]);
      CommitEpoch(History(log[..|log| - 1]).view, log[|log| - 1]);
    }
  }

  lemma CommitEpoch(v: View, cmd: ConfigCmd)
    requires Sized(v) && CmdOk(cmd)
    ensures CommitView(v, cmd).epoch == v.epoch + 1
  {
    var u := v.(epoch := v.epoch + 1);
    match cmd
    case AssignSlots(node, slots) => ListEpochs(u, slots, node);
    case UnassignSlots(slots) => ListEpochs(u, slots, []);
    case AssignReplica(node, slots) => ListEpochs(u, slots, node);
    case PromoteReplica(slots, id) => ListEpochs(u, slots, id);
    case _ =>
  }

  // ----- snapshot install against replay -----

  lemma {:induction false} ReplaySplit(v: View, self: NodeEntry, prefix: seq<ConfigCmd>, suffix: seq<ConfigCmd>)
    requires Sized(v) && LogOk(prefix) && LogOk(suffix)
    ensures LogOk(prefix + suffix)
    ensures ReplayFrom(v, self, prefix + suffix) == ReplayFrom(ReplayFrom(v, self, prefix), self, suffix)
  {
    hide ReplayFrom, Apply;
    if suffix == [] {
      assert prefix + suffix == prefix;
      ReplayNothing(ReplayFrom(v, self, prefix), self);
    } else {
      var n := |suffix| - 1;
      ReplaySplit(v, self, prefix, suffix[..n]);
      assert (prefix + suffix)[..|prefix + suffix| - 1] == prefix + suffix[..n];
      ReplayLast(v, self, prefix + suffix);
      ReplayLast(ReplayFrom(v, self, prefix), self, suffix);
    }
  }

  /** Whatever mirrors the prefix mirrors the whole log after replaying the suffix. */
  lemma {:induction false} MirrorsOn(v: View, self: NodeEntry, prefix: seq<ConfigCmd>, suffix: seq<ConfigCmd>)
    requires LogOk(prefix) && LogOk(suffix) && LogOk(prefix + suffix) && Behaves(self, prefix + suffix)
    requires Mirrors(v, History(prefix).view, self)
    ensures Mirrors(ReplayFrom(v, self, suffix), History(prefix + suffix).view, self)
  {
    hide Mirrors, Apply, CommitView, History, ReplayFrom, Behaves;
    MirrorsOwner(v, History(prefix).view, self);
    var log := prefix + suffix;
    if suffix == [] {
      assert log == prefix;
      assert ReplayFrom(v, self, []) == v by { ReplayNothing(v, self); }
    } else {
      var n := |suffix| - 1;
      var shorter := prefix + suffix[..n];
      assert log[..|log| - 1] == shorter;
      BehavesPrefix(self, log, |log| - 1);
      MirrorsOn(v, self, prefix, suffix[..n]);
      LastStep(log, self);
      ReplayLast(v, self, suffix);
      ViewFollows(ReplayFrom(v, self, suffix[..n]), self, History(shorter).view, suffix[n]);
    }
  }

  lemma ReplayNothing(v: View, self: NodeEntry)
    requires Sized(v)
    ensures ReplayFrom(v, self, []) == v
  {
  }

  lemma ReplayLast(v: View, self: NodeEntry, log: seq<ConfigCmd>)
    requires Sized(v) && LogOk(log) && log != []
    ensures ReplayFrom(v, self, log) == Apply(ReplayFrom(v, self, log[..|log| - 1]), self, log[|log| - 1])
  {
  }

  lemma LastStep(log: seq<ConfigCmd>, self: NodeEntry)
    requires LogOk(log) && log != []
    ensures History(log).view == CommitView(History(log[..|log| - 1]).view, log[|log| - 1])
    ensures Behaves(self, log) ==> StepOk(History(log[..|log| - 1]).view, log[|log| - 1], self)
  {
  }

  /** At every slot, the committed tag table gives the two endpoints the same tag (usually: none). */
  ghost predicate TagsAgree(log: seq<ConfigCmd>, a: Endpoint, b: Endpoint)
    requires LogOk(log)
  {
    forall k :: 0 <= k < SLOTS ==> TagAt(History(log).tags[k], a) == TagAt(History(log).tags[k], b)
  }

  /** Installing node `a`'s snapshot on node `b` puts `b` where replaying the log would, migration tags aside. */
  lemma InstallMirrors(a: NodeEntry, b: NodeEntry, log: seq<ConfigCmd>)
    requires LogOk(log) && Behaves(a, log) && Behaves(b, log) && Met(a, log)
    ensures Mirrors(Installed(b, SnapshotOf(Replay(a, log))), History(log).view, b)
    ensures Installed(b, SnapshotOf(Replay(a, log))).mig == Replay(a, log).mig
  {
    hide Replay, History, Installed, SnapshotOf, NodeEntry.Ep;
    NodeFollowsLog(a, log);
    NodeFollowsLog(b, log);
    var v, c := Replay(a, log), History(log).view;
    InstallReproduces(b, v);
    assert v.nodes == c.nodes;
  }

  /** The cluster has met node `self`. */
  ghost predicate Met(self: NodeEntry, log: seq<ConfigCmd>)
    requires LogOk(log)
  {
    self.id in History(log).view.nodes
  }

  /**
   Snapshot install equals replay. Node `b`, in any state at all, installs the snapshot node `a` took
   after `prefix` and then applies `suffix`. If `a` has been met, `b` ends with the by-id view and the ownership
   answers it would have had from replaying everything. Right after the install nothing at all differs exactly
   when the committed tag table gives `a` and `b` the same tags and `a` has been met (or is `b`), and then nothing
   ever does. `MigrationTags` settles the tags slot by slot, `Ownership` the owners when `a` has not been met.
  */
  lemma InstallEqualsReplay(a: NodeEntry, b: NodeEntry, prefix: seq<ConfigCmd>, suffix: seq<ConfigCmd>)
    requires LogOk(prefix) && LogOk(suffix) && LogOk(prefix + suffix)
    requires Behaves(a, prefix) && Behaves(b, prefix + suffix)
    ensures var installed := Installed(b, SnapshotOf(Replay(a, prefix)));
      && Sized(installed)
      && var got, want := ReplayFrom(installed, b, suffix), Replay(b, prefix + suffix);
      && (Met(a, prefix) ==> got.(mig := []) == want.(mig := []))
      && (Met(a, prefix) ==>
            forall slot :: 0 <= slot < SLOTS ==> (OwnedAt(got, slot, b.Ep()) <==> OwnedAt(want, slot, b.Ep())))
      && (installed == Replay(b, prefix) <==>
            TagsAgree(prefix, a.Ep(), b.Ep()) && (a.id == b.id || Met(a, prefix)))
      && (installed == Replay(b, prefix) ==> got == want)
  {
    hide Replay, History, Installed, SnapshotOf, NodeEntry.Ep, ReplayFrom, Mirrors, Behaves, Met, TagsAgree;
    assert (prefix + suffix)[..|prefix|] == prefix;
    BehavesPrefix(b, prefix + suffix, |prefix|);
    InstallIsReplayExactly(a, b, prefix);
    var installed := Installed(b, SnapshotOf(Replay(a, prefix)));
    var got, want := ReplayFrom(installed, b, suffix), Replay(b, prefix + suffix);
    if Met(a, prefix) {
      InstallMirrors(a, b, prefix);
      MirrorsOn(installed, b, prefix, suffix);
      ReplayMirrors(b, prefix + suffix);
      MirrorsDetermine(got, want, History(prefix + suffix).view, b);
    }
    ReplaysSplit(b, prefix, suffix);
  }

  lemma ReplayMirrors(self: NodeEntry, log: seq<ConfigCmd>)
    requires LogOk(log) && Behaves(self, log)
    ensures Mirrors(Replay(self, log), History(log).view, self)
  {
    hide Replay, History, Mirrors;
    NodeFollowsLog(self, log);
  }

  lemma ReplaysSplit(b: NodeEntry, prefix: seq<ConfigCmd>, suffix: seq<ConfigCmd>)
    requires LogOk(prefix) && LogOk(suffix)
    ensures LogOk(prefix + suffix)
    ensures Replay(b, prefix + suffix) == ReplayFrom(Replay(b, prefix), b, suffix)
  {
    ReplaySplit(FreshLocal(b).view, b, prefix, suffix);
  }

  lemma MirrorsDetermine(v: View, w: View, c: View, self: NodeEntry)
    requires Mirrors(v, c, self) && Mirrors(w, c, self)
    ensures v.(mig := []) == w.(mig := [])
    ensures forall slot :: 0 <= slot < SLOTS ==> (OwnedAt(v, slot, self.Ep()) <==> OwnedAt(w, slot, self.Ep()))
  {
  }

  lemma TagsAreMigs(a: NodeEntry, b: NodeEntry, log: seq<ConfigCmd>)
    requires LogOk(log) && Behaves(a, log) && Behaves(b, log)
    ensures Replay(a, log).mig == Replay(b, log).mig <==> TagsAgree(log, a.Ep(), b.Ep())
  {
    hide Replay, History, NodeEntry.Ep, Behaves, TagAt, Mirrors;
    NodeFollowsLog(a, log);
    NodeFollowsLog(b, log);
    var x, y, tags := Replay(a, log).mig, Replay(b, log).mig, History(log).tags;
    assert forall k :: 0 <= k < SLOTS ==> x[k] == TagAt(tags[k], a.Ep()) && y[k] == TagAt(tags[k], b.Ep());
  }

  /** What the views of two nodes at one prefix share, and what they need not. */
  lemma TwoReplays(a: NodeEntry, b: NodeEntry, log: seq<ConfigCmd>)
    requires LogOk(log) && Behaves(a, log) && Behaves(b, log)
    ensures var x, y, c := Replay(a, log), Replay(b, log), History(log).view;
      && ViewOk(x) && ViewOk(y)
      && x.owner == y.owner && x.replica == y.replica && x.epoch == y.epoch
      && x.nodes == c.nodes[a.id := a.Ep()] && y.nodes == c.nodes[b.id := b.Ep()]
      && (a.id in c.nodes ==> c.nodes[a.id] == a.Ep()) && (b.id in c.nodes ==> c.nodes[b.id] == b.Ep())
  {
    hide Replay, History, NodeEntry.Ep, Behaves;
    ReplayMirrors(a, log);
    ReplayMirrors(b, log);
  }

  /** An install is a replay if and only if the tags agree and the snapshot's node is met, or is the same node. */
  lemma InstallIsReplayExactly(a: NodeEntry, b: NodeEntry, log: seq<ConfigCmd>)
    requires LogOk(log) && Behaves(a, log) && Behaves(b, log)
    ensures Sized(Installed(b, SnapshotOf(Replay(a, log))))
    ensures Installed(b, SnapshotOf(Replay(a, log))) == Replay(b, log) <==>
      TagsAgree(log, a.Ep(), b.Ep()) && (a.id == b.id || Met(a, log))
  {
    hide Replay, History, Installed, SnapshotOf, NodeEntry.Ep, Behaves, TagsAgree;
    TwoReplays(a, b, log);
    TagsAreMigs(a, b, log);
    var x, y, c := Replay(a, log), Replay(b, log), History(log).view;
    InstallReproduces(b, x);
    var nodes := x.nodes[b.id := b.Ep()];
    if a.id == b.id || Met(a, log) {
      assert nodes == y.nodes;
      assert x.(nodes := nodes).(mig := y.mig) == y;
    } else {
      assert a.id in nodes && a.id !in y.nodes;
    }
  }

  /**
   Two nodes at the same prefix emit the same snapshot bytes if and only if the committed tag table gives their
   endpoints the same tags and both have been met, or they are the same node. A node lists itself before it is met.
  */
  lemma SnapshotsAgreeExactly(a: NodeEntry, b: NodeEntry, log: seq<ConfigCmd>)
    requires LogOk(log) && Behaves(a, log) && Behaves(b, log)
    requires ViewFits(Replay(a, log)) && ViewFits(Replay(b, log))
    ensures Bytes(Replay(a, log)) == Bytes(Replay(b, log)) <==>
      TagsAgree(log, a.Ep(), b.Ep()) && (a == b || (Met(a, log) && Met(b, log)))
  {
    hide Replay, History, SnapshotOf, Behaves, Encode, TagsAgree, ViewFits;
    TwoReplays(a, b, log);
    TagsAreMigs(a, b, log);
    var x, y, c := Replay(a, log), Replay(b, log), History(log).view;
    if Bytes(x) == Bytes(y) {
      BytesInjective(x, y);
      assert a.id in y.nodes && b.id in x.nodes && y.nodes[a.id] == a.Ep();
    }
    if a == b || (Met(a, log) && Met(b, log)) {
      assert x.nodes == y.nodes;
      if x.mig == y.mig {
        assert x == y;
      }
    }
  }

  // ----- the claim that snapshots never depend on the node is false while a migration is open -----

  /** Two nodes meet, the first takes slot 0 and starts migrating it to the second. */
  ghost function OpenMigration(a: NodeEntry, b: NodeEntry): (log: seq<ConfigCmd>)
    ensures LogOk(log)
  {
    [AddNode(a), AddNode(b), SetSlotOwner(0, a.id), SetSlotMigrating(0, b.id)]
  }

  lemma OpenMigrationHistory(a: NodeEntry, b: NodeEntry)
    requires a.id != b.id
    ensures var c := History(OpenMigration(a, b));
      && c.view.nodes == map[a.id := a.Ep(), b.id := b.Ep()]
      && c.tags[0] == map[a.Ep() := Migration(Migrating, b.id)]
    ensures Behaves(a, OpenMigration(a, b)) && Behaves(b, OpenMigration(a, b))
  {
    hide History;
    var log := OpenMigration(a, b);
    var l1, l2 := [AddNode(a)], [AddNode(a), AddNode(b)];
    var l3 := l2 + [SetSlotOwner(0, a.id)];
    assert log[..0] == [] && log[..1] == l1 && log[..2] == l2 && log[..3] == l3;
    HistoryBoot();
    HistorySnoc([], AddNode(a));
    HistorySnoc(l1, AddNode(b));
    HistorySnoc(l2, SetSlotOwner(0, a.id));
    HistorySnoc(l3, SetSlotMigrating(0, b.id));
    assert [] + [AddNode(a)] == l1 && l1 + [AddNode(b)] == l2 && l3 + [SetSlotMigrating(0, b.id)] == log;
    assert History(l1).view.nodes == map[a.id := a.Ep()];
    assert History(l2).view.nodes == map[a.id := a.Ep(), b.id := b.Ep()];
  }

  lemma HistoryBoot()
    ensures History([]) == Boot()
  {
  }

  lemma HistorySnoc(log: seq<ConfigCmd>, cmd: ConfigCmd)
    requires LogOk(log) && CmdOk(cmd)
    ensures LogOk(log + [cmd]) && History(log + [cmd]) == Commit(History(log), cmd)
  {
  }

  /** So the two nodes, at the very same prefix, disagree on the bytes. */
  lemma SnapshotsCanDiffer(a: NodeEntry, b: NodeEntry)
    requires a.id != b.id && a.Ep() != b.Ep()
    requires StrOk(a.id) && StrOk(a.host) && StrOk(b.id) && StrOk(b.host)
    ensures Bytes(Replay(a, OpenMigration(a, b))) != Bytes(Replay(b, OpenMigration(a, b)))
    ensures Installed(b, SnapshotOf(Replay(a, OpenMigration(a, b)))) != Replay(b, OpenMigration(a, b))
  {
    hide Replay, History, SnapshotOf, Behaves, Encode, Installed, OpenMigration;
    var log := OpenMigration(a, b);
    OpenMigrationHistory(a, b);
    EpochCounts(log);
    OpenMigrationLength(a, b);
    TwoReplays(a, b, log);
    assert !TagsAgree(log, a.Ep(), b.Ep()) by {
      assert TagAt(History(log).tags[0], a.Ep()) != TagAt(History(log).tags[0], b.Ep());
    }
    ReplayEpoch(a, log);
    ReplayEpoch(b, log);
    SnapshotsAgreeExactly(a, b, log);
    InstallIsReplayExactly(a, b, log);
  }

  lemma ReplayEpoch(self: NodeEntry, log: seq<ConfigCmd>)
    requires LogOk(log) && Behaves(self, log)
    ensures Replay(self, log).epoch == |log|
  {
    hide Replay, History, Behaves;
    ReplayMirrors(self, log);
    EpochCounts(log);
  }

  lemma OpenMigrationLength(a: NodeEntry, b: NodeEntry)
    ensures |OpenMigration(a, b)| == 4
  {
  }

  /** Nor do they agree before they are met: at the empty log each lists itself alone, with no tag anywhere. */
  lemma UnmetSnapshotsDiffer(a: NodeEntry, b: NodeEntry)
    requires a.id != b.id && StrOk(a.id) && StrOk(a.host) && StrOk(b.id) && StrOk(b.host)
    ensures Behaves(a, []) && Behaves(b, []) && TagsAgree([], a.Ep(), b.Ep())
    ensures Bytes(Replay(a, [])) != Bytes(Replay(b, []))
  {
    hide SnapshotOf, Encode, StrOk;
    SnapshotsAgreeExactly(a, b, []);
  }
}
