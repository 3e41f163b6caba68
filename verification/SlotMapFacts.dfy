/** What a change of the concrete layout means for the by-id view. */
module SlotMapFacts {
  import opened Core
  import opened SlotTypes

  lemma EmptySelfMeans(s: MapState, e: NodeEntry)
    requires s.nodes == [e] && s.epochs == [0] && s.me == 0 && s.myEpoch == s.currentEpoch == 0
    requires |s.mine| == |s.owner| == |s.replicas| == |s.phase| == |s.peer| == SLOTS
    requires forall k :: 0 <= k < SLOTS ==>
      !s.mine[k] && s.owner[k] == s.replicas[k] == s.peer[k] == UNASSIGNED && s.phase[k] == MIG_NONE
    ensures Inv(s)
    ensures LocalOf(s) == FreshLocal(e)
  {
    assert Position(s.nodes, e.id) == Some(0);
    assert NodesOf(s.nodes) == map[e.id := e.Ep()];
    assert EpochsOf(s.nodes, s.epochs) == map[e.id := 0];
    assert ViewOf(s).owner == Nones();
    assert ViewOf(s).replica == Nones();
    assert ViewOf(s).mig == Nones();
  }

  lemma FlipMeans(s: MapState, t: MapState, slot: nat, idx: nat)
    requires Inv(s) && slot < SLOTS && idx < |s.nodes|
    requires t == s.(owner := s.owner[slot := idx],
                     mine := s.mine[slot := s.nodes[idx].Ep() == s.nodes[s.me].Ep()],
                     phase := s.phase[slot := MIG_NONE], peer := s.peer[slot := UNASSIGNED])
    ensures Inv(t)
    ensures LocalOf(t) == LocalOf(s).(view := SetOwner(ViewOf(s), slot, s.nodes[idx].id))
  {
    NodesAt(s.nodes);
    assert ViewOf(t).owner == ViewOf(s).owner[slot := Some(s.nodes[idx].id)];
    assert ViewOf(t).mig == ViewOf(s).mig[slot := None];
  }

  lemma AppendedPositions(nodes: seq<NodeEntry>, e: NodeEntry)
    requires DistinctIds(nodes) && Position(nodes, e.id).None?
    ensures DistinctIds(nodes + [e])
    ensures forall id :: Position(nodes + [e], id) == if id == e.id then Some(|nodes|) else Position(nodes, id)
  {
  }

  /** What it takes to be the by-id form of a table. */
  lemma NodesOfIs(nodes: seq<NodeEntry>, m: map<Str, Endpoint>)
    requires forall i :: 0 <= i < |nodes| ==> nodes[i].id in m && m[nodes[i].id] == nodes[i].Ep()
    requires forall id :: id in m ==> Position(nodes, id).Some?
    ensures NodesOf(nodes) == m
  {
    hide Position, NodesOf, NodeEntry.Ep;
    var got := NodesOf(nodes);
    forall id ensures id in got <==> id in m {
      SameKey(nodes, m, id);
    }
    forall id | id in m ensures got[id] == m[id] {
      SameKey(nodes, m, id);
    }
    assert got == m;
  }

  lemma SameKey(nodes: seq<NodeEntry>, m: map<Str, Endpoint>, id: Str)
    requires forall i :: 0 <= i < |nodes| ==> nodes[i].id in m && m[nodes[i].id] == nodes[i].Ep()
    requires id in m ==> Position(nodes, id).Some?
    ensures id in NodesOf(nodes) <==> id in m
    ensures id in m ==> NodesOf(nodes)[id] == m[id]
  {
    hide Position, NodesOf, NodeEntry.Ep;
    var p := Position(nodes, id);
    if p.Some? {
      assert nodes[p.value].id == id && nodes[p.value].id in m && nodes[p.value].id in NodesOf(nodes);
    }
  }

  lemma EpochsOfIs(nodes: seq<NodeEntry>, epochs: seq<nat>, m: map<Str, nat>)
    requires |nodes| == |epochs|
    requires forall i :: 0 <= i < |nodes| ==> nodes[i].id in m && m[nodes[i].id] == epochs[i]
    requires forall id :: id in m ==> Position(nodes, id).Some?
    ensures EpochsOf(nodes, epochs) == m
  {
    hide Position, EpochsOf;
    var got := EpochsOf(nodes, epochs);
    forall id ensures id in got <==> id in m {
      if id in m || id in got {
        assert nodes[Position(nodes, id).value].id == id;
      }
    }
    forall id | id in m ensures got[id] == m[id] {
      assert nodes[Position(nodes, id).value].id == id;
    }
    assert got == m;
  }

  lemma EpochsAt(nodes: seq<NodeEntry>, epochs: seq<nat>)
    requires DistinctIds(nodes) && |nodes| == |epochs|
    ensures forall i :: 0 <= i < |nodes| ==>
      nodes[i].id in EpochsOf(nodes, epochs) && EpochsOf(nodes, epochs)[nodes[i].id] == epochs[i]
  {
  }

  lemma AppendedNodes(nodes: seq<NodeEntry>, e: NodeEntry)
    requires DistinctIds(nodes) && Position(nodes, e.id).None?
    ensures NodesOf(nodes + [e]) == NodesOf(nodes)[e.id := e.Ep()]
  {
    hide Position, NodesOf, NodeEntry.Ep;
    AppendedPositions(nodes, e);
    NodesAt(nodes);
    NodesOfIs(nodes + [e], NodesOf(nodes)[e.id := e.Ep()]);
  }

  lemma AppendedEpochs(nodes: seq<NodeEntry>, epochs: seq<nat>, e: NodeEntry)
    requires DistinctIds(nodes) && Position(nodes, e.id).None? && |nodes| == |epochs|
    ensures EpochsOf(nodes + [e], epochs + [0]) == EpochsOf(nodes, epochs)[e.id := 0]
  {
    hide Position, EpochsOf;
    AppendedPositions(nodes, e);
    EpochsAt(nodes, epochs);
    EpochsOfIs(nodes + [e], epochs + [0], EpochsOf(nodes, epochs)[e.id := 0]);
  }

  lemma AppendedTables(nodes: seq<NodeEntry>, epochs: seq<nat>, e: NodeEntry)
    requires DistinctIds(nodes) && Position(nodes, e.id).None? && |nodes| == |epochs|
    ensures NodesOf(nodes + [e]) == NodesOf(nodes)[e.id := e.Ep()]
    ensures EpochsOf(nodes + [e], epochs + [0]) == EpochsOf(nodes, epochs)[e.id := 0]
  {
    hide *;
    AppendedNodes(nodes, e);
    AppendedEpochs(nodes, epochs, e);
  }

  lemma SameBelow(nodes: seq<NodeEntry>, e: NodeEntry, phase: byte, x: u16)
    requires |nodes| < UNASSIGNED && (x < |nodes| || x == UNASSIGNED)
    ensures IdAt(nodes + [e], x) == IdAt(nodes, x) && MigAt(nodes + [e], phase, x) == MigAt(nodes, phase, x)
  {
  }

  lemma MeetKeepsSlots(s: MapState, t: MapState, e: NodeEntry)
    requires Inv(s) && |s.nodes| < UNASSIGNED && t == s.(nodes := s.nodes + [e], epochs := s.epochs + [0])
    ensures ViewOf(t).owner == ViewOf(s).owner && ViewOf(t).replica == ViewOf(s).replica
    ensures ViewOf(t).mig == ViewOf(s).mig
  {
    hide NodesOf, IdAt, MigAt, DistinctIds, Lockstep;
    forall k | 0 <= k < SLOTS
      ensures ViewOf(t).owner[k] == ViewOf(s).owner[k] && ViewOf(t).replica[k] == ViewOf(s).replica[k]
      ensures ViewOf(t).mig[k] == ViewOf(s).mig[k]
    {
      SameBelow(s.nodes, e, 0, s.owner[k]);
      SameBelow(s.nodes, e, 0, s.replicas[k]);
      SameBelow(s.nodes, e, s.phase[k], s.peer[k]);
    }
  }

  lemma MeetKeepsInv(s: MapState, t: MapState, e: NodeEntry)
    requires Inv(s) && |s.nodes| < UNASSIGNED && Position(s.nodes, e.id).None?
    requires t == s.(nodes := s.nodes + [e], epochs := s.epochs + [0])
    ensures Inv(t)
  {
    hide Position, NodeEntry.Ep;
    AppendedPositions(s.nodes, e);
  }

  lemma MeetMeans(s: MapState, t: MapState, e: NodeEntry)
    requires Inv(s) && |s.nodes| < UNASSIGNED && Position(s.nodes, e.id).None?
    requires t == s.(nodes := s.nodes + [e], epochs := s.epochs + [0])
    ensures Inv(t)
    ensures LocalOf(t) == LocalOf(s).(view := Meet(ViewOf(s), e), configEpochs := LocalOf(s).configEpochs[e.id := 0])
  {
    hide Position, NodesOf, EpochsOf, NodeEntry.Ep, IdsOf, MigsOf, Lockstep;
    MeetKeepsInv(s, t, e);
    AppendedTables(s.nodes, s.epochs, e);
    MeetKeepsSlots(s, t, e);
  }

  // ----- forget: renumbering around a hole -----

  /** Where an index lands when the entry at `r` is removed. */
  function Shifted(x: u16, r: nat): u16
  {
    if x != UNASSIGNED && x > r then x - 1 else x
  }

  /** The same, for arrays that may name the removed entry. */
  function ShiftedOrCleared(x: u16, r: nat): u16
  {
    if x == r then UNASSIGNED else Shifted(x, r)
  }

  /** Renumbering finds the same entry under its new index. */
  lemma ShiftedSameEntry(nodes: seq<NodeEntry>, x: u16, r: nat)
    requires r < |nodes| <= UNASSIGNED && x != r && (x < |nodes| || x == UNASSIGNED)
    ensures IdAt(Drop(nodes, r), Shifted(x, r)) == IdAt(nodes, x)
    ensures Shifted(x, r) < |nodes| - 1 || Shifted(x, r) == UNASSIGNED
    ensures Shifted(x, r) == UNASSIGNED <==> x == UNASSIGNED
    ensures x < |nodes| ==> Drop(nodes, r)[Shifted(x, r)] == nodes[x]
  {
  }

  lemma ShiftedOrClearedOk(nodes: seq<NodeEntry>, x: u16, r: nat)
    requires r < |nodes| <= UNASSIGNED && (x < |nodes| || x == UNASSIGNED)
    ensures ShiftedOrCleared(x, r) < |nodes| - 1 || ShiftedOrCleared(x, r) == UNASSIGNED
    ensures ShiftedOrCleared(x, r) == UNASSIGNED <==> x == UNASSIGNED || x == r
  {
  }

  lemma RemovedPositions(nodes: seq<NodeEntry>, r: nat)
    requires DistinctIds(nodes) && r < |nodes|
    ensures DistinctIds(Drop(nodes, r))
    ensures Position(Drop(nodes, r), nodes[r].id).None?
    ensures forall i :: 0 <= i < |nodes| && i != r ==>
      Position(Drop(nodes, r), nodes[i].id) == Some(if i < r then i else i - 1)
  {
    var t := Drop(nodes, r);
    forall i | 0 <= i < |nodes| && i != r ensures Position(t, nodes[i].id) == Some(if i < r then i else i - 1) {
      PositionOfId(t, if i < r then i else i - 1);
    }
  }

  lemma RemovedEntries(nodes: seq<NodeEntry>, r: nat)
    requires DistinctIds(nodes) && r < |nodes|
    ensures forall i :: 0 <= i < |nodes| - 1 ==> Drop(nodes, r)[i].id != nodes[r].id
    ensures forall id :: Position(nodes, id).Some? && id != nodes[r].id ==> Position(Drop(nodes, r), id).Some?
  {
    hide Position;
    RemovedPositions(nodes, r);
    forall id | Position(nodes, id).Some? && id != nodes[r].id ensures Position(Drop(nodes, r), id).Some? {
      assert nodes[Position(nodes, id).value].id == id;
    }
  }

  lemma RemovedNodes(nodes: seq<NodeEntry>, r: nat)
    requires DistinctIds(nodes) && r < |nodes|
    ensures NodesOf(Drop(nodes, r)) == NodesOf(nodes) - {nodes[r].id}
  {
    hide Position, NodesOf, NodeEntry.Ep;
    RemovedEntries(nodes, r);
    NodesAt(nodes);
    NodesOfIs(Drop(nodes, r), NodesOf(nodes) - {nodes[r].id});
  }

  lemma RemovedEpochs(nodes: seq<NodeEntry>, epochs: seq<nat>, r: nat)
    requires DistinctIds(nodes) && r < |nodes| == |epochs|
    ensures EpochsOf(Drop(nodes, r), Drop(epochs, r)) == EpochsOf(nodes, epochs) - {nodes[r].id}
  {
    hide Position, EpochsOf;
    RemovedEntries(nodes, r);
    EpochsAt(nodes, epochs);
    EpochsOfIs(Drop(nodes, r), Drop(epochs, r), EpochsOf(nodes, epochs) - {nodes[r].id});
  }

  /** `t` is `s` with entry `r` removed and every index renumbered around it. */
  ghost predicate Forgotten(s: MapState, t: MapState, r: nat)
    requires Inv(s) && r < |s.nodes|
  {
    && t.nodes == Drop(s.nodes, r) && t.epochs == Drop(s.epochs, r)
    && t.mine == s.mine && t.myEpoch == s.myEpoch && t.currentEpoch == s.currentEpoch
    && t.me == (if s.me > r then s.me - 1 else s.me)
    && |t.owner| == |t.replicas| == |t.phase| == |t.peer| == SLOTS
    && (forall k :: 0 <= k < SLOTS ==> t.owner[k] == Shifted(s.owner[k], r))
    && (forall k :: 0 <= k < SLOTS ==> t.replicas[k] == ShiftedOrCleared(s.replicas[k], r))
    && (forall k :: 0 <= k < SLOTS ==> t.peer[k] == ShiftedOrCleared(s.peer[k], r))
    && (forall k :: 0 <= k < SLOTS ==> t.phase[k] == if s.peer[k] == r then MIG_NONE else s.phase[k])
  }

  lemma ForgottenKeepsInv(s: MapState, t: MapState, r: nat)
    requires Inv(s) && r < |s.nodes| && r != s.me && Forgotten(s, t, r)
    requires forall k :: 0 <= k < SLOTS ==> s.owner[k] != r
    ensures Inv(t) && t.nodes[t.me] == s.nodes[s.me]
  {
    hide Position, Shifted, ShiftedOrCleared, NodeEntry.Ep;
    RemovedPositions(s.nodes, r);
    assert t.nodes[t.me] == s.nodes[s.me];
    forall k | 0 <= k < SLOTS
      ensures t.owner[k] < |t.nodes| || t.owner[k] == UNASSIGNED
      ensures t.mine[k] <==> t.owner[k] < |t.nodes| && t.nodes[t.owner[k]].Ep() == t.nodes[t.me].Ep()
    {
      ShiftedSameEntry(s.nodes, s.owner[k], r);
    }
    forall k | 0 <= k < SLOTS ensures t.replicas[k] < |t.nodes| || t.replicas[k] == UNASSIGNED {
      ShiftedOrClearedOk(s.nodes, s.replicas[k], r);
    }
    forall k | 0 <= k < SLOTS
      ensures t.peer[k] < |t.nodes| || t.peer[k] == UNASSIGNED
      ensures t.phase[k] == MIG_NONE <==> t.peer[k] == UNASSIGNED
    {
      ShiftedOrClearedOk(s.nodes, s.peer[k], r);
    }
  }

  lemma ForgottenArrays(s: MapState, t: MapState, r: nat)
    requires Inv(s) && r < |s.nodes| && Forgotten(s, t, r)
    requires forall k :: 0 <= k < SLOTS ==> s.owner[k] != r
    ensures ViewOf(t).owner == ViewOf(s).owner
    ensures ViewOf(t).replica == Without(ViewOf(s).replica, s.nodes[r].id)
    ensures ViewOf(t).mig == WithoutPeer(ViewOf(s).mig, s.nodes[r].id)
  {
    hide Position, NodesOf, IdsOf, MigsOf, Without, WithoutPeer, Shifted, ShiftedOrCleared;
    forall k | 0 <= k < SLOTS
      ensures ViewOf(t).owner[k] == ViewOf(s).owner[k]
      ensures ViewOf(t).replica[k] == Without(ViewOf(s).replica, s.nodes[r].id)[k]
      ensures ViewOf(t).mig[k] == WithoutPeer(ViewOf(s).mig, s.nodes[r].id)[k]
    {
      SlotForgotten(s, t, r, k);
    }
  }

  lemma ForgottenMeans(s: MapState, t: MapState, r: nat)
    requires Inv(s) && r < |s.nodes| && r != s.me && Forgotten(s, t, r)
    requires forall k :: 0 <= k < SLOTS ==> s.owner[k] != r
    ensures Inv(t)
    ensures LocalOf(t) == LocalOf(s).(view := Forget(ViewOf(s), s.nodes[r].id),
                                      configEpochs := LocalOf(s).configEpochs - {s.nodes[r].id})
  {
    hide Position, NodesOf, EpochsOf, IdsOf, MigsOf, Without, WithoutPeer, Shifted, ShiftedOrCleared;
    ForgottenKeepsInv(s, t, r);
    RemovedNodes(s.nodes, r);
    RemovedEpochs(s.nodes, s.epochs, r);
    ForgottenArrays(s, t, r);
  }

  /** By id, renumbering clears what named the removed entry and changes nothing else. */
  lemma ShiftedId(nodes: seq<NodeEntry>, x: u16, r: nat)
    requires r < |nodes| <= UNASSIGNED && DistinctIds(nodes) && (x < |nodes| || x == UNASSIGNED)
    ensures IdAt(Drop(nodes, r), ShiftedOrCleared(x, r)) ==
      if IdAt(nodes, x) == Some(nodes[r].id) then None else IdAt(nodes, x)
    ensures IdAt(nodes, x) == Some(nodes[r].id) <==> x == r
  {
    if x != r {
      ShiftedSameEntry(nodes, x, r);
    }
  }

  lemma MigIsId(nodes: seq<NodeEntry>, phase: byte, peer: u16)
    ensures MigAt(nodes, phase, peer) ==
      if phase == MIG_NONE || IdAt(nodes, peer).None? then None
      else Some(Migration(if phase == MIG_MIGRATING then Migrating else Importing, IdAt(nodes, peer).value))
  {
  }

  lemma SlotForgotten(s: MapState, t: MapState, r: nat, k: nat)
    requires Inv(s) && r < |s.nodes| && Forgotten(s, t, r) && k < SLOTS && s.owner[k] != r
    ensures ViewOf(t).owner[k] == ViewOf(s).owner[k]
    ensures ViewOf(t).replica[k] == Without(ViewOf(s).replica, s.nodes[r].id)[k]
    ensures ViewOf(t).mig[k] == WithoutPeer(ViewOf(s).mig, s.nodes[r].id)[k]
  {
    hide NodesOf, IdAt, MigAt, Shifted, DistinctIds, Lockstep;
    ShiftedId(s.nodes, s.owner[k], r);
    ShiftedId(s.nodes, s.replicas[k], r);
    ShiftedId(s.nodes, s.peer[k], r);
    MigIsId(s.nodes, s.phase[k], s.peer[k]);
    MigIsId(t.nodes, t.phase[k], t.peer[k]);
  }

  /** The index guard of FORGET is the by-id guard. */
  lemma OwnerNamed(s: MapState, r: nat)
    requires Inv(s) && r < |s.nodes|
    ensures r in s.owner <==> Some(s.nodes[r].id) in ViewOf(s).owner
  {
  }

  // ----- batches and flush -----

  lemma BatchMeans(s: MapState, t: MapState, slots: seq<nat>, idx: u16)
    requires Inv(s) && (idx == s.me || idx == UNASSIGNED)
    requires forall i :: 0 <= i < |slots| ==> slots[i] < SLOTS
    requires |t.owner| == |t.mine| == SLOTS && t == s.(owner := t.owner, mine := t.mine)
    requires forall k :: 0 <= k < SLOTS ==> t.owner[k] == if k in slots then idx else s.owner[k]
    requires forall k :: 0 <= k < SLOTS ==> t.mine[k] == if k in slots then idx == s.me else s.mine[k]
    ensures Inv(t)
    ensures LocalOf(t) == LocalOf(s).(view := ViewOf(s).(owner := SetAll(ViewOf(s).owner, slots, IdAt(s.nodes, idx))))
  {
    assert ViewOf(t).owner == SetAll(ViewOf(s).owner, slots, IdAt(s.nodes, idx));
  }

  lemma FlushMeans(s: MapState, t: MapState)
    requires Inv(s)
    requires |t.owner| == |t.mine| == SLOTS && t == s.(owner := t.owner, mine := t.mine)
    requires forall k :: 0 <= k < SLOTS ==> t.owner[k] == if s.owner[k] == s.me then UNASSIGNED else s.owner[k]
    requires forall k :: 0 <= k < SLOTS ==> t.mine[k] == if s.owner[k] == s.me then false else s.mine[k]
    ensures Inv(t)
    ensures LocalOf(t) == LocalOf(s).(view := ViewOf(s).(owner := Without(ViewOf(s).owner, LocalOf(s).self)))
  {
    assert ViewOf(t).owner == Without(ViewOf(s).owner, LocalOf(s).self);
  }

  // ----- epochs -----

  lemma EpochMeans(s: MapState, t: MapState, mine: nat, current: nat)
    requires Inv(s)
    requires t == s.(epochs := s.epochs[s.me := mine], myEpoch := mine, currentEpoch := current)
    ensures Inv(t)
    ensures LocalOf(t) == LocalOf(s).(view := ViewOf(s).(epoch := current), myEpoch := mine,
                                      configEpochs := LocalOf(s).configEpochs[LocalOf(s).self := mine])
  {
    hide Position, EpochsOf, NodesOf;
    var self := s.nodes[s.me].id;
    EpochsAt(s.nodes, s.epochs);
    forall id | id in EpochsOf(s.nodes, s.epochs)[self := mine] ensures Position(s.nodes, id).Some? {
      if id == self {
        PositionOfId(s.nodes, s.me);
      }
    }
    EpochsOfIs(s.nodes, t.epochs, EpochsOf(s.nodes, s.epochs)[self := mine]);
  }

  /** The largest of `start` and the listed epochs (`fold(start, max)`). */
  function MaxEpoch(start: nat, epochs: seq<nat>): (m: nat)
    ensures m >= start && forall i :: 0 <= i < |epochs| ==> m >= epochs[i]
    ensures m == start || m in epochs
  {
    if epochs == [] then start
    else
      var m := MaxEpoch(start, epochs[..|epochs| - 1]);
      if epochs[|epochs| - 1] > m then epochs[|epochs| - 1] else m
  }

  // ----- a rebuilt map -----

  /** A table with self first and freshly filled arrays is a well-formed map with exactly the by-id parts given. */
  lemma RebuiltMeans(t: MapState, v: View)
    requires 0 < |t.nodes| <= UNASSIGNED && |t.epochs| == |t.nodes| && DistinctIds(t.nodes) && t.me == 0
    requires IndicesOk(t.owner, |t.nodes|) && IndicesOk(t.replicas, |t.nodes|) && IndicesOk(t.peer, |t.nodes|)
    requires TagsOk(t.phase, t.peer) && |t.mine| == SLOTS
    requires forall k :: 0 <= k < SLOTS ==>
      (t.mine[k] <==> t.owner[k] < |t.nodes| && t.nodes[t.owner[k]].Ep() == t.nodes[0].Ep())
    requires NodesOf(t.nodes) == v.nodes && IdsOf(t.nodes, t.owner) == v.owner
    requires IdsOf(t.nodes, t.replicas) == v.replica && MigsOf(t.nodes, t.phase, t.peer) == v.mig
    requires t.currentEpoch == v.epoch
    ensures Inv(t) && ViewOf(t) == v
  {
  }

  lemma ZeroEpochs(nodes: seq<NodeEntry>, epochs: seq<nat>)
    requires |nodes| == |epochs| && forall i :: 0 <= i < |epochs| ==> epochs[i] == 0
    ensures EpochsOf(nodes, epochs) == map id | id in NodesOf(nodes) :: 0
  {
  }

  /** Distinct ids: as many registered nodes as table entries. */
  lemma {:induction false} TableSize(nodes: seq<NodeEntry>)
    requires DistinctIds(nodes)
    ensures |NodesOf(nodes)| == |nodes|
  {
    hide Position, NodeEntry.Ep;
    if nodes == [] {
      assert NodesOf([]) == map[] by { NodesOfIs([], map[]); }
    } else {
      var front, last := nodes[..|nodes| - 1], nodes[|nodes| - 1];
      assert nodes == front + [last];
      TableSize(front);
      LastIsNew(nodes);
      AppendedTables(front, seq(|front|, _ => 0), last);
    }
  }

  lemma LastIsNew(nodes: seq<NodeEntry>)
    requires DistinctIds(nodes) && nodes != []
    ensures DistinctIds(nodes[..|nodes| - 1]) && Position(nodes[..|nodes| - 1], nodes[|nodes| - 1].id).None?
  {
  }

  /**
   Flushing releases what self owns under its own id and nothing else. So it releases every slot this node
   serves if and only if none is held under another id at self's endpoint.
  */
  lemma FlushReleases(v: View, self: Str, ep: Endpoint)
    requires ViewOk(v) && IsAt(v, self, ep)
    ensures var w := v.(owner := Without(v.owner, self));
      && (forall slot :: 0 <= slot < SLOTS ==>
            (OwnedAt(w, slot, ep) <==> OwnedAt(v, slot, ep) && v.owner[slot] != Some(self)))
      && ((forall slot :: 0 <= slot < SLOTS ==> !OwnedAt(w, slot, ep)) <==>
          (forall slot :: 0 <= slot < SLOTS && OwnedAt(v, slot, ep) ==> v.owner[slot] == Some(self)))
  {
  }

  /** A node known under two ids that holds slot 0 under the other one still serves it after a flush. */
  lemma AliasSurvivesFlush(self: Str, alias: Str, ep: Endpoint)
    requires self != alias
    ensures var v := View(map[self := ep, alias := ep], Nones()[0 := Some(alias)], Nones(), Nones(), 0);
      && ViewOk(v) && IsAt(v, self, ep) && OwnedAt(v, 0, ep)
      && OwnedAt(v.(owner := Without(v.owner, self)), 0, ep)
  {
  }

  lemma FlushedServes(s: MapState)
    requires Inv(s)
    ensures var v, self := ViewOf(s), s.nodes[s.me];
      ViewOk(v) && IsAt(v, self.id, self.Ep()) &&
      var w := v.(owner := Without(v.owner, self.id));
      (forall slot :: 0 <= slot < SLOTS ==> !OwnedAt(w, slot, self.Ep())) <==>
      (forall slot :: 0 <= slot < SLOTS && OwnedAt(v, slot, self.Ep()) ==> v.owner[slot] == Some(self.id))
  {
    hide ViewOf, NodeEntry.Ep;
    ViewIsOk(s);
    FlushReleases(ViewOf(s), s.nodes[s.me].id, s.nodes[s.me].Ep());
  }
}
