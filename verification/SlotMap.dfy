/**
 The runtime-mutable slot map: one node table and five per-slot arrays, updated in place.

 Every mutator is proved to keep the invariant and to have exactly the by-id meaning given in
 `SlotTypes`. The ownership bitmap is its own list of stores, and mutators are proved to hit no slot twice.
*/
module SlotMapModule {
  import opened Core
  import opened SlotTypes
  import opened Publication
  import opened SlotMapFacts
  import opened SnapshotCodec
  import opened SnapshotView
  import opened SnapshotIO
  import SnapshotDecoder
  import D = Dedup
  import T = Topology

  datatype Bump = Bumped(epoch: nat) | Still(epoch: nat)

  class SlotMap {
    var nodes: seq<NodeEntry>
    var epochs: seq<nat>
    const mine: Bitmap
    const owner: array<u16>
    const replicas: array<u16>
    const phase: array<byte>
    const peer: array<u16>
    var me: nat
    var myEpoch: nat
    var currentEpoch: nat

    ghost predicate Valid()
      reads this, mine, owner, replicas, phase, peer
    {
      owner != replicas && owner != peer && replicas != peer && Inv(State())
    }

    ghost function State(): MapState
      reads this, mine, owner, replicas, phase, peer
    {
      MapState(nodes, epochs, mine.Bits(), owner[..], replicas[..], phase[..], peer[..], me, myEpoch, currentEpoch)
    }

    ghost function View(): View
      requires Valid()
      reads this, mine, owner, replicas, phase, peer
    {
      ViewOf(State())
    }

    ghost function Local(): Local
      requires Valid()
      reads this, mine, owner, replicas, phase, peer
    {
      LocalOf(State())
    }

    lemma Parts()
      requires Valid()
      ensures Local().view == View() && View().epoch == currentEpoch
      ensures me < |nodes| && Local().self == nodes[me].id
      ensures |View().owner| == |View().replica| == |View().mig| == SLOTS
    {
    }

    /** A fresh node: alone, owning nothing, epochs zero. */
    constructor EmptySelf(id: Str, host: Str, port: u16)
      ensures Valid()
      ensures fresh(mine) && fresh(owner) && fresh(replicas) && fresh(phase) && fresh(peer)
      ensures Local() == FreshLocal(NodeEntry(id, host, port))
      ensures View().nodes == map[id := Endpoint(host, port)] && View().epoch == 0
      ensures forall k :: 0 <= k < SLOTS ==>
        View().owner[k].None? && View().replica[k].None? && View().mig[k].None? && !mine.Bits()[k]
      ensures Local().self == id && Local().configEpochs == map[id := 0] && Local().myEpoch == 0
    {
      nodes := [NodeEntry(id, host, port)];
      epochs := [0];
      mine := new Bitmap();
      owner := new u16[SLOTS](_ => UNASSIGNED);
      replicas := new u16[SLOTS](_ => UNASSIGNED);
      phase := new byte[SLOTS](_ => MIG_NONE);
      peer := new u16[SLOTS](_ => UNASSIGNED);
      me := 0;
      myEpoch := 0;
      currentEpoch := 0;
      new;
      EmptySelfMeans(State(), NodeEntry(id, host, port));
    }

    /** A map over a resolved topology; the ownership bits compare table INDICES. */
    constructor FromTopology(entries: seq<NodeEntry>, ownerOf: seq<u16>, self: nat)
      requires |ownerOf| == SLOTS
      ensures fresh(mine) && fresh(owner) && fresh(replicas) && fresh(phase) && fresh(peer)
      ensures owner != replicas && owner != peer && replicas != peer
      ensures nodes == entries && owner[..] == ownerOf && me == self && myEpoch == currentEpoch == 0
      ensures |epochs| == |nodes| && forall i :: 0 <= i < |epochs| ==> epochs[i] == 0
      ensures replicas.Length == phase.Length == peer.Length == SLOTS
      ensures forall k :: 0 <= k < SLOTS ==> (mine.Bits()[k] <==> ownerOf[k] == self)
      ensures forall k :: 0 <= k < SLOTS ==> replicas[k] == peer[k] == UNASSIGNED && phase[k] == MIG_NONE
    {
      nodes := entries;
      epochs := seq(|entries|, i => 0);
      mine := new Bitmap();
      owner := new u16[SLOTS](k requires 0 <= k < SLOTS => ownerOf[k]);
      replicas := new u16[SLOTS](_ => UNASSIGNED);
      phase := new byte[SLOTS](_ => MIG_NONE);
      peer := new u16[SLOTS](_ => UNASSIGNED);
      me := self;
      myEpoch := 0;
      currentEpoch := 0;
      new;
      for slot := 0 to SLOTS
        modifies mine
        invariant forall k :: 0 <= k < slot ==> (mine.Bits()[k] <==> ownerOf[k] == self)
        invariant forall k :: slot <= k < SLOTS ==> !mine.Bits()[k]
      {
        if owner[slot] == self {
          mine.Store(slot, true);
        }
      }
    }

    // ----- readers -----

    /** The hot path: one load of the bitmap answers whether the slot's owner sits at this node's endpoint. */
    method Owns(slot: nat) returns (r: bool)
      requires Valid() && slot < SLOTS
      ensures r <==> OwnedAt(View(), slot, nodes[me].Ep())
    {
      r := mine.Bits()[slot];
      MineIsOwnedAt(State());
    }

    /** Where a MOVED redirect points. */
    method MovedTarget(slot: nat) returns (r: Option<Endpoint>)
      requires Valid() && slot < SLOTS
      ensures View().owner[slot].None? ==> r == None
      ensures View().owner[slot].Some? ==>
        View().owner[slot].value in View().nodes && r == Some(View().nodes[View().owner[slot].value])
    {
      NodesAt(nodes);
      assert View().owner[slot] == IdAt(nodes, owner[slot]);
      var idx := owner[slot];
      if idx == UNASSIGNED {
        return None;
      }
      r := if idx < |nodes| then Some(nodes[idx].Ep()) else None;
    }

    method OwnerId(slot: nat) returns (r: Option<Str>)
      requires Valid() && slot < SLOTS
      ensures r == View().owner[slot]
    {
      var idx := owner[slot];
      if idx == UNASSIGNED {
        return None;
      }
      r := IdAt(nodes, idx);
    }

    /** Self is the node under any id that shares its endpoint. */
    method IsSelf(id: Str) returns (r: bool)
      requires Valid()
      ensures r <==> IsAt(View(), id, nodes[me].Ep())
    {
      NodesAt(nodes);
      if nodes[me].id == id {
        return true;
      }
      var p := Position(nodes, id);
      r := p.Some? && nodes[p.value].Ep() == nodes[me].Ep();
    }

    method IsReplicaOfSelf(slot: nat) returns (r: bool)
      requires Valid() && slot < SLOTS
      ensures r <==> View().replica[slot].Some? && IsAt(View(), View().replica[slot].value, nodes[me].Ep())
    {
      NodesAt(nodes);
      assert View().replica[slot] == IdAt(nodes, replicas[slot]);
      var idx := replicas[slot];
      if idx == UNASSIGNED {
        return false;
      }
      r := idx < |nodes| && me < |nodes| && nodes[idx].Ep() == nodes[me].Ep();
    }

    method MigrationPeerId(slot: nat) returns (r: Option<Str>)
      requires Valid() && slot < SLOTS
      ensures r == match View().mig[slot] case None => None case Some(m) => Some(m.peer)
    {
      assert View().mig[slot] == MigAt(nodes, phase[slot], peer[slot]);
      if phase[slot] == MIG_NONE {
        return None;
      }
      var idx := peer[slot];
      if idx == UNASSIGNED {
        return None;
      }
      r := IdAt(nodes, idx);
    }

    // ----- one-slot mutators -----

    method SetSlotNode(slot: nat, id: Str) returns (r: Outcome)
      requires Valid() && slot < SLOTS
      modifies owner, mine, phase, peer
      ensures Valid()
      ensures r == if id in old(View()).nodes then Ok else Err(UnknownNode(id))
      ensures r.Err? ==> State() == old(State())
      ensures Local() == old(Local()).(view := SetOwner(old(View()), slot, id))
      ensures mine.history ==
        if r.Err? then old(mine.history)
        else old(mine.history) + [Write(slot, IsAt(old(View()), id, nodes[me].Ep()))]
    {
      hide Position, NodesOf, EpochsOf, NodeEntry.Ep;
      ghost var s := State();
      var p := Position(nodes, id);
      NodesAt(nodes);
      if p.None? {
        assert SetOwner(View(), slot, id) == View();
        return Err(UnknownNode(id));
      }
      var idx := p.value;
      owner[slot] := idx;
      var isSelf := idx == me || nodes[idx].Ep() == nodes[me].Ep();
      mine.Store(slot, isSelf);
      phase[slot] := MIG_NONE;
      peer[slot] := UNASSIGNED;
      FlipMeans(s, State(), slot, idx);
      r := Ok;
    }

    method ClearSlotOwner(slot: nat)
      requires Valid() && slot < SLOTS
      modifies owner, mine
      ensures Valid()
      ensures Local() == old(Local()).(view := ClearOwner(old(View()), slot))
      ensures mine.history == old(mine.history) + [Write(slot, false)]
    {
      ghost var s := State();
      owner[slot] := UNASSIGNED;
      mine.Store(slot, false);
      assert State() == s.(owner := s.owner[slot := UNASSIGNED], mine := s.mine[slot := false]);
      assert View().owner == ClearOwner(ViewOf(s), slot).owner;
    }

    method SetSlotReplica(slot: nat, id: Str) returns (r: Outcome)
      requires Valid() && slot < SLOTS
      modifies replicas
      ensures Valid()
      ensures r == if id in old(View()).nodes then Ok else Err(UnknownNode(id))
      ensures Local() == old(Local()).(view := SetReplica(old(View()), slot, id))
      ensures mine.history == old(mine.history)
    {
      hide Position, NodesOf, EpochsOf, NodeEntry.Ep;
      ghost var s := State();
      var p := Position(nodes, id);
      NodesAt(nodes);
      if p.None? {
        return Err(UnknownNode(id));
      }
      replicas[slot] := p.value;
      assert State() == s.(replicas := s.replicas[slot := p.value]);
      assert View().replica == SetReplica(ViewOf(s), slot, id).replica;
      r := Ok;
    }

    method ClearSlotReplica(slot: nat, id: Str)
      requires Valid() && slot < SLOTS
      modifies replicas
      ensures Valid()
      ensures Local() == old(Local()).(view := ClearReplica(old(View()), slot, id))
      ensures mine.history == old(mine.history)
    {
      ghost var s := State();
      assert View().replica[slot] == IdAt(nodes, replicas[slot]);
      var idx := replicas[slot];
      if idx == UNASSIGNED {
        return;
      }
      if idx < |nodes| && nodes[idx].id == id {
        replicas[slot] := UNASSIGNED;
        assert State() == s.(replicas := s.replicas[slot := UNASSIGNED]);
        assert View().replica == ClearReplica(ViewOf(s), slot, id).replica;
      }
    }

    /** `SETSLOT MIGRATING <dest>` and `SETSLOT IMPORTING <src>`: tag the slot, ownership untouched. */
    method SetTag(slot: nat, kind: Phase, id: Str) returns (r: Outcome)
      requires Valid() && slot < SLOTS
      modifies phase, peer
      ensures Valid()
      ensures r == if id in old(View()).nodes then Ok else Err(UnknownNode(id))
      ensures Local() == old(Local()).(view := SetMigration(old(View()), slot, kind, id))
      ensures mine.history == old(mine.history)
    {
      hide Position, NodesOf, EpochsOf, NodeEntry.Ep;
      ghost var s := State();
      var p := Position(nodes, id);
      NodesAt(nodes);
      if p.None? {
        return Err(UnknownNode(id));
      }
      peer[slot] := p.value;
      phase[slot] := if kind == Migrating then MIG_MIGRATING else MIG_IMPORTING;
      assert State() == s.(peer := s.peer[slot := p.value], phase := s.phase[slot := phase[slot]]);
      assert View().mig == SetMigration(ViewOf(s), slot, kind, id).mig;
      r := Ok;
    }

    method ClearTag(slot: nat)
      requires Valid() && slot < SLOTS
      modifies phase, peer
      ensures Valid()
      ensures Local() == old(Local()).(view := ClearMigration(old(View()), slot))
      ensures mine.history == old(mine.history)
    {
      ghost var s := State();
      phase[slot] := MIG_NONE;
      peer[slot] := UNASSIGNED;
      assert State() == s.(peer := s.peer[slot := UNASSIGNED], phase := s.phase[slot := MIG_NONE]);
      assert View().mig == ClearMigration(ViewOf(s), slot).mig;
    }

    // ----- the node table -----

    method Meet(e: NodeEntry)
      requires Valid()
      requires e.id in View().nodes || |nodes| < UNASSIGNED
      modifies this`nodes, this`epochs
      ensures Valid() && nodes[me] == old(nodes[me])
      ensures Local().view == SlotTypes.Meet(old(View()), e)
      ensures Local().configEpochs ==
        if e.id in old(View()).nodes then old(Local()).configEpochs else old(Local()).configEpochs[e.id := 0]
      ensures Local().self == old(Local()).self && Local().myEpoch == old(Local()).myEpoch
    {
      hide Position, NodesOf, EpochsOf, IdsOf, MigsOf, NodeEntry.Ep;
      ghost var s := State();
      KnownIsPosition(nodes, e.id);
      if Position(nodes, e.id).Some? {
        return;
      }
      nodes := nodes + [e];
      epochs := epochs + [0];
      MeetMeans(s, State(), e);
    }

    /** Remove a node and renumber every index above it; a refused call changes nothing. */
    method Forget(id: Str) returns (r: Outcome)
      requires Valid()
      modifies this`nodes, this`epochs, this`me, owner, replicas, phase, peer
      ensures Valid()
      ensures r == if id !in old(View()).nodes then Err(UnknownNode(id))
                   else if id == old(Local()).self then Err(ForgetSelf)
                   else if Some(id) in old(View()).owner then Err(NodeOwnsSlots(id))
                   else Ok
      ensures r.Ok? <==> ForgetError(old(View()), old(Local()).self, id).None?
      ensures r.Err? ==> State() == old(State())
      ensures Local() == if r.Err? then old(Local())
                         else old(Local()).(view := SlotTypes.Forget(old(View()), id),
                                            configEpochs := old(Local()).configEpochs - {id})
      ensures nodes[me] == old(nodes[me]) && mine.history == old(mine.history)
    {
      hide Position, NodesOf, EpochsOf, NodeEntry.Ep, IdsOf, MigsOf, Forgotten;
      ghost var s := State();
      var p := Position(nodes, id);
      NodesAt(nodes);
      if p.None? {
        return Err(UnknownNode(id));
      }
      var removed := p.value;
      OwnerNamed(s, removed);
      if removed == me {
        return Err(ForgetSelf);
      }
      if removed in owner[..] {
        return Err(NodeOwnsSlots(id));
      }
      Remove(removed);
      ForgottenKeepsInv(s, State(), removed);
      ForgottenMeans(s, State(), removed);
      r := Ok;
    }

    method Remove(removed: nat)
      requires Valid() && removed < |nodes|
      modifies this`nodes, this`epochs, this`me, owner, replicas, phase, peer
      ensures Forgotten(old(State()), State(), removed)
    {
      hide Lockstep, DistinctIds, Shifted, ShiftedOrCleared;
      nodes := Drop(nodes, removed);
      epochs := Drop(epochs, removed);
      RenumberOwners(removed);
      RenumberReplicas(removed);
      RenumberPeers(removed);
      if me > removed {
        me := me - 1;
      }
    }

    method RenumberOwners(removed: nat)
      requires owner.Length == SLOTS
      modifies owner
      ensures forall k :: 0 <= k < SLOTS ==> owner[k] == Shifted(old(owner[k]), removed)
    {
      for i := 0 to SLOTS
        invariant forall k :: 0 <= k < i ==> owner[k] == Shifted(old(owner[k]), removed)
        invariant forall k :: i <= k < SLOTS ==> owner[k] == old(owner[k])
      {
        var idx := owner[i];
        if idx != UNASSIGNED && idx > removed {
          owner[i] := idx - 1;
        }
      }
    }

    method RenumberReplicas(removed: nat)
      requires replicas.Length == SLOTS
      modifies replicas
      ensures forall k :: 0 <= k < SLOTS ==> replicas[k] == ShiftedOrCleared(old(replicas[k]), removed)
    {
      for i := 0 to SLOTS
        invariant forall k :: 0 <= k < i ==> replicas[k] == ShiftedOrCleared(old(replicas[k]), removed)
        invariant forall k :: i <= k < SLOTS ==> replicas[k] == old(replicas[k])
      {
        var idx := replicas[i];
        if idx == removed {
          replicas[i] := UNASSIGNED;
        } else if idx != UNASSIGNED && idx > removed {
          replicas[i] := idx - 1;
        }
      }
    }

    method RenumberPeers(removed: nat)
      requires peer.Length == phase.Length == SLOTS
      modifies peer, phase
      ensures forall k :: 0 <= k < SLOTS ==> peer[k] == ShiftedOrCleared(old(peer[k]), removed)
      ensures forall k :: 0 <= k < SLOTS ==>
        phase[k] == if old(peer[k]) == removed then MIG_NONE else old(phase[k])
    {
      for i := 0 to SLOTS
        invariant forall k :: 0 <= k < i ==> peer[k] == ShiftedOrCleared(old(peer[k]), removed)
        invariant forall k :: 0 <= k < i ==> phase[k] == if old(peer[k]) == removed then MIG_NONE else old(phase[k])
        invariant forall k :: i <= k < SLOTS ==> peer[k] == old(peer[k]) && phase[k] == old(phase[k])
      {
        var idx := peer[i];
        if idx == removed {
          peer[i] := UNASSIGNED;
          phase[i] := MIG_NONE;
        } else if idx != UNASSIGNED && idx > removed {
          peer[i] := idx - 1;
        }
      }
    }

    // ----- batches (validated whole before any store) -----

    /**
     The shared validation pass of ADDSLOTS and DELSLOTS: every slot is to be assigned, or every slot unassigned, and
     none named twice. The error is about the first slot in the list that offends, a repetition before anything else.
    */
    method CheckBatch(slots: seq<nat>, wanted: bool, ghost own: seq<Option<Str>>) returns (r: Outcome)
      requires |own| == owner.Length == SLOTS
      requires forall k :: 0 <= k < SLOTS ==> (own[k].Some? <==> owner[k] != UNASSIGNED)
      requires forall i :: 0 <= i < |slots| ==> slots[i] < SLOTS
      ensures r.Ok? <==>
        && (forall i, j :: 0 <= i < j < |slots| ==> slots[i] != slots[j])
        && (forall i :: 0 <= i < |slots| ==> (own[slots[i]].Some? <==> wanted))
      ensures r.Err? ==> exists i ::
        && 0 <= i < |slots|
        && (forall a :: 0 <= a < i ==> slots[a] !in slots[..a] && (own[slots[a]].Some? <==> wanted))
        && if slots[i] in slots[..i] then r == Err(SlotDuplicate(slots[i]))
           else if wanted then own[slots[i]].None? && r == Err(SlotUnassigned(slots[i]))
           else own[slots[i]].Some? && r == Err(SlotBusy(slots[i]))
    {
      var seen := new bool[SLOTS](_ => false);
      for i := 0 to |slots|
        invariant forall k :: 0 <= k < SLOTS ==> (seen[k] <==> k in slots[..i])
        invariant forall a :: 0 <= a < i ==> slots[a] !in slots[..a] && (own[slots[a]].Some? <==> wanted)
        invariant forall a, b :: 0 <= a < b < i ==> slots[a] != slots[b]
      {
        var slot := slots[i];
        assert slots[..i + 1] == slots[..i] + [slot];
        if seen[slot] {
          return Err(SlotDuplicate(slot));
        }
        seen[slot] := true;
        if (owner[slot] != UNASSIGNED) != wanted {
          return Err(if wanted then SlotUnassigned(slot) else SlotBusy(slot));
        }
      }
      r := Ok;
    }

    method AddSlots(slots: seq<nat>) returns (r: Outcome)
      requires Valid() && forall i :: 0 <= i < |slots| ==> slots[i] < SLOTS
      modifies owner, mine
      ensures Valid()
      ensures r.Ok? <==>
        && (forall i, j :: 0 <= i < j < |slots| ==> slots[i] != slots[j])
        && (forall i :: 0 <= i < |slots| ==> old(View()).owner[slots[i]].None?)
      ensures r.Err? ==> exists i ::
        && 0 <= i < |slots|
        && (forall a :: 0 <= a < i ==> slots[a] !in slots[..a] && old(View()).owner[slots[a]].None?)
        && if slots[i] in slots[..i] then r == Err(SlotDuplicate(slots[i]))
           else old(View()).owner[slots[i]].Some? && r == Err(SlotBusy(slots[i]))
      ensures r.Err? ==> State() == old(State())
      ensures r.Ok? ==> Local() == old(Local()).(view :=
        old(View()).(owner := SetAll(old(View()).owner, slots, Some(old(Local()).self))))
      ensures Published(old(mine.history), mine.history)
    {
      ghost var s := State();
      NoStores(mine.history);
      r := CheckBatch(slots, false, View().owner);
      if r.Err? {
        return;
      }
      StoreBatch(slots, me, true);
      BatchMeans(s, State(), slots, me);
    }

    method DelSlots(slots: seq<nat>) returns (r: Outcome)
      requires Valid() && forall i :: 0 <= i < |slots| ==> slots[i] < SLOTS
      modifies owner, mine
      ensures Valid()
      ensures r.Ok? <==>
        && (forall i, j :: 0 <= i < j < |slots| ==> slots[i] != slots[j])
        && (forall i :: 0 <= i < |slots| ==> old(View()).owner[slots[i]].Some?)
      ensures r.Err? ==> exists i ::
        && 0 <= i < |slots|
        && (forall a :: 0 <= a < i ==> slots[a] !in slots[..a] && old(View()).owner[slots[a]].Some?)
        && if slots[i] in slots[..i] then r == Err(SlotDuplicate(slots[i]))
           else old(View()).owner[slots[i]].None? && r == Err(SlotUnassigned(slots[i]))
      ensures r.Err? ==> State() == old(State())
      ensures r.Ok? ==> Local() == old(Local()).(view :=
        old(View()).(owner := SetAll(old(View()).owner, slots, None)))
      ensures Published(old(mine.history), mine.history)
    {
      ghost var s := State();
      NoStores(mine.history);
      r := CheckBatch(slots, true, View().owner);
      if r.Err? {
        return;
      }
      StoreBatch(slots, UNASSIGNED, false);
      BatchMeans(s, State(), slots, UNASSIGNED);
    }

    /** The store pass of a batch. */
    method StoreBatch(slots: seq<nat>, idx: u16, value: bool)
      requires owner.Length == SLOTS
      requires forall i :: 0 <= i < |slots| ==> slots[i] < SLOTS
      requires forall i, j :: 0 <= i < j < |slots| ==> slots[i] != slots[j]
      modifies owner, mine
      ensures forall k :: 0 <= k < SLOTS ==> owner[k] == if k in slots then idx else old(owner[k])
      ensures forall k :: 0 <= k < SLOTS ==> mine.Bits()[k] == if k in slots then value else old(mine.Bits()[k])
      ensures Published(old(mine.history), mine.history)
    {
      NoStores(mine.history);
      for i := 0 to |slots|
        invariant forall k :: 0 <= k < SLOTS ==> owner[k] == if k in slots[..i] then idx else old(owner[k])
        invariant forall k :: 0 <= k < SLOTS ==>
          mine.Bits()[k] == if k in slots[..i] then value else old(mine.Bits()[k])
        invariant |mine.history| == old(|mine.history|) + i
        invariant forall a :: 0 <= a < i ==> mine.history[old(|mine.history|) + a].slot == slots[a]
        invariant Published(old(mine.history), mine.history)
      {
        hide BitsAfter;
        var slot := slots[i];
        owner[slot] := idx;
        assert slots[..i + 1] == slots[..i] + [slot];
        assert forall a :: old(|mine.history|) <= a < |mine.history| ==>
            mine.history[a].slot == slots[a - old(|mine.history|)];
        OneMore(old(mine.history), mine.history, Write(slot, value));
        mine.Store(slot, value);
      }
      assert slots[..|slots|] == slots;
    }

    /** Release every slot whose owner entry is self's own; slots held under another id of this node stay. */
    method FlushSlots()
      requires Valid()
      modifies owner, mine
      ensures Valid()
      ensures Local() == old(Local()).(view :=
        old(View()).(owner := Without(old(View()).owner, old(Local()).self)))
      ensures (forall slot :: 0 <= slot < SLOTS ==> !OwnedAt(View(), slot, nodes[me].Ep())) <==>
        (forall slot :: 0 <= slot < SLOTS && OwnedAt(old(View()), slot, nodes[me].Ep()) ==>
           old(View()).owner[slot] == Some(nodes[me].id))
      ensures Published(old(mine.history), mine.history)
    {
      hide ViewOf, Published, Without, OwnedAt, NodeEntry.Ep, Lockstep, DistinctIds, TagsOk, Position;
      ghost var s, v := State(), View();
      ReleaseOwn();
      FlushMeans(s, State());
      FlushedServes(s);
      assert View() == v.(owner := Without(v.owner, nodes[me].id));
    }

    method ReleaseOwn()
      requires owner.Length == SLOTS
      modifies owner, mine
      ensures forall k :: 0 <= k < SLOTS ==> owner[k] == if old(owner[k]) == me then UNASSIGNED else old(owner[k])
      ensures forall k :: 0 <= k < SLOTS ==>
        mine.Bits()[k] == if old(owner[k]) == me then false else old(mine.Bits()[k])
      ensures Published(old(mine.history), mine.history)
    {
      NoStores(mine.history);
      for i := 0 to SLOTS
        invariant forall k :: 0 <= k < i ==> owner[k] == if old(owner[k]) == me then UNASSIGNED else old(owner[k])
        invariant forall k :: 0 <= k < i ==>
          mine.Bits()[k] == if old(owner[k]) == me then false else old(mine.Bits()[k])
        invariant forall k :: i <= k < SLOTS ==> owner[k] == old(owner[k]) && mine.Bits()[k] == old(mine.Bits()[k])
        invariant Published(old(mine.history), mine.history)
        invariant forall a :: old(|mine.history|) <= a < |mine.history| ==> mine.history[a].slot < i
      {
        hide BitsAfter;
        if owner[i] == me {
          owner[i] := UNASSIGNED;
          OneMore(old(mine.history), mine.history, Write(i, false));
          mine.Store(i, false);
        }
      }
    }

    // ----- epochs -----

    method SetCommittedEpoch(epoch: nat)
      requires Valid()
      modifies this`currentEpoch
      ensures Valid()
      ensures Local() == old(Local()).(view := old(View()).(epoch := epoch))
    {
      currentEpoch := epoch;
    }

    method SetConfigEpoch(epoch: nat) returns (r: Outcome)
      requires Valid()
      modifies this`epochs, this`myEpoch, this`currentEpoch
      ensures Valid()
      ensures r == if old(|nodes|) > 1 then Err(EpochKnowsOthers)
                   else if old(myEpoch) != 0 then Err(EpochAlreadySet) else Ok
      ensures r.Err? ==> State() == old(State())
      ensures r.Ok? ==> Local() == old(Local()).(
        view := old(View()).(epoch := if old(currentEpoch) < epoch then epoch else old(currentEpoch)),
        myEpoch := epoch, configEpochs := old(Local()).configEpochs[old(Local()).self := epoch])
    {
      ghost var s := State();
      if |nodes| > 1 {
        return Err(EpochKnowsOthers);
      }
      if myEpoch != 0 {
        return Err(EpochAlreadySet);
      }
      myEpoch := epoch;
      if currentEpoch < epoch {
        currentEpoch := epoch;
      }
      epochs := epochs[me := epoch];
      EpochMeans(s, State(), epoch, currentEpoch);
      r := Ok;
    }

    /** Move strictly past every epoch this node has seen, unless it is already at the top. */
    method BumpEpoch() returns (r: Bump)
      requires Valid()
      modifies this`epochs, this`myEpoch, this`currentEpoch
      ensures Valid()
      ensures r.Still? <==> old(myEpoch) != 0 && old(myEpoch) == MaxEpoch(old(currentEpoch), old(epochs))
      ensures r.Still? ==> r.epoch == myEpoch && State() == old(State())
      ensures r.Bumped? ==> r.epoch == MaxEpoch(old(currentEpoch), old(epochs)) + 1
      ensures r.Bumped? ==> r.epoch > old(currentEpoch)
      ensures r.Bumped? ==> forall i :: 0 <= i < old(|epochs|) ==> r.epoch > old(epochs)[i]
      ensures r.Bumped? ==> Local() == old(Local()).(view := old(View()).(epoch := r.epoch),
        myEpoch := r.epoch, configEpochs := old(Local()).configEpochs[old(Local()).self := r.epoch])
      ensures myEpoch == MaxEpoch(currentEpoch, epochs) != 0
    {
      ghost var s := State();
      var maxEpoch := MaxEpoch(currentEpoch, epochs);
      if myEpoch == 0 || myEpoch != maxEpoch {
        var next := maxEpoch + 1;
        currentEpoch := next;
        myEpoch := next;
        epochs := epochs[me := next];
        EpochMeans(s, State(), next, next);
        r := Bumped(next);
      } else {
        r := Still(myEpoch);
      }
    }

    // ----- snapshots -----

    /** The bytes depend on the by-id view alone: not on table order, indices or which node this is. */
    method SerializeCommitted() returns (out: seq<byte>)
      requires Valid()
      ensures out == Bytes(View())
    {
      hide SortById, NodeList, SlotList, TagList, IdsOf, MigsOf, NodesOf, SerList, SerU64;
      var sorted := SortById(nodes);
      SortedTableIsNodeList(nodes);
      var nodeBytes := WriteNodes(sorted);
      var owners := CollectIds(nodes, owner);
      var ownerBytes := WriteSlotIds(owners);
      var reps := CollectIds(nodes, replicas);
      var repBytes := WriteSlotIds(reps);
      var migs := CollectTags(nodes, phase, peer);
      var migBytes := WriteSlotTags(migs);
      out := SerU64(currentEpoch) + (nodeBytes + (ownerBytes + (repBytes + migBytes)));
    }

    /**
     Decode first, then publish each slot once. Bytes that do not decode change nothing; any that do
     leave a well-formed map that means exactly the snapshot plus this node, whatever was there before.
    */
    method RestoreCommitted(data: seq<byte>)
      requires Valid()
      requires var p := ParseSnapshot()(data); p.Got? ==> |Installed(nodes[me], p.value).nodes| <= UNASSIGNED
      modifies this`nodes, this`epochs, this`me, this`currentEpoch, mine, owner, replicas, phase, peer
      ensures Valid()
      ensures ParseSnapshot()(data).Fail? ==> State() == old(State())
      ensures var p := ParseSnapshot()(data); p.Got? ==> View() == Installed(old(nodes[me]), p.value)
      ensures ParseSnapshot()(data).Got? ==> Local().configEpochs == map id | id in View().nodes :: 0
      ensures nodes[me] == old(nodes[me]) && Local().myEpoch == old(myEpoch)
      ensures Published(old(mine.history), mine.history)
    {
      hide ParseSnapshot, IdsOf, MigsOf, NodesOf, EpochsOf, FillIds, FillTags, MeetAll, NodeEntry.Ep, Published,
           Position;
      NoStores(mine.history);
      var snap := SnapshotDecoder.DecodeCommittedSnapshot(data);
      if snap.None? {
        return;
      }
      var self := nodes[me];
      var newNodes, newEpochs := RebuildTable(self, snap.value.nodes);
      TableSize(newNodes);
      var ownerOf, mineOf := FillOwners(newNodes, snap.value.owners);
      var replicaOf := FillReplicas(newNodes, snap.value.reps);
      var phaseOf, peerOf := FillPeers(newNodes, snap.value.migs);
      nodes := newNodes;
      epochs := newEpochs;
      me := 0;
      PublishSlots(ownerOf, mineOf, replicaOf, phaseOf, peerOf);
      currentEpoch := snap.value.epoch;
      ZeroEpochs(nodes, epochs);
      RebuiltMeans(State(), Installed(self, snap.value));
    }

    /** One store per slot and array, straight to the final value. */
    method PublishSlots(ownerOf: seq<u16>, mineOf: seq<bool>, replicaOf: seq<u16>, phaseOf: seq<byte>, peerOf: seq<u16>)
      requires owner.Length == replicas.Length == phase.Length == peer.Length == SLOTS
      requires owner != replicas && owner != peer && replicas != peer
      requires |ownerOf| == |mineOf| == |replicaOf| == |phaseOf| == |peerOf| == SLOTS
      modifies mine, owner, replicas, phase, peer
      ensures owner[..] == ownerOf && mine.Bits() == mineOf && replicas[..] == replicaOf
      ensures phase[..] == phaseOf && peer[..] == peerOf
      ensures Published(old(mine.history), mine.history)
    {
      NoStores(mine.history);
      for slot := 0 to SLOTS
        invariant forall k :: 0 <= k < slot ==> owner[k] == ownerOf[k] && mine.Bits()[k] == mineOf[k]
        invariant forall k :: 0 <= k < slot ==> replicas[k] == replicaOf[k]
        invariant forall k :: 0 <= k < slot ==> phase[k] == phaseOf[k] && peer[k] == peerOf[k]
        invariant Published(old(mine.history), mine.history)
        invariant forall a :: old(|mine.history|) <= a < |mine.history| ==> mine.history[a].slot < slot
      {
        hide BitsAfter;
        owner[slot] := ownerOf[slot];
        OneMore(old(mine.history), mine.history, Write(slot, mineOf[slot]));
        mine.Store(slot, mineOf[slot]);
        replicas[slot] := replicaOf[slot];
        phase[slot] := phaseOf[slot];
        peer[slot] := peerOf[slot];
      }
    }

    // ----- duplicate endpoints -----

    /**
     One entry per endpoint remains: self's own where self is in the group, else the lowest. Every slot
     keeps its owner, replica and peer ENDPOINT, and the ownership bits are not touched.
    */
    method DedupNodesByEndpoint() returns (removed: nat)
      requires Valid()
      modifies this`nodes, this`epochs, this`me, owner, replicas, peer
      ensures Valid()
      ensures removed == old(|nodes|) - |nodes|
      ensures removed == 0 <==> D.EndpointsDistinct(old(nodes))
      ensures removed == 0 ==> State() == old(State())
      ensures D.EndpointsDistinct(nodes)
      ensures nodes == D.Compact(old(nodes), old(me), old(nodes), old(|nodes|))
      ensures epochs == D.Compact(old(nodes), old(me), old(epochs), old(|nodes|))
      ensures nodes[me] == old(nodes[me]) && mine.history == old(mine.history) && phase[..] == old(phase[..])
      ensures D.EpsOf(nodes, owner[..]) == old(D.EpsOf(nodes, owner[..]))
      ensures D.EpsOf(nodes, replicas[..]) == old(D.EpsOf(nodes, replicas[..]))
      ensures D.EpsOf(nodes, peer[..]) == old(D.EpsOf(nodes, peer[..]))
      ensures forall k :: 0 <= k < SLOTS ==> D.SameEndpoints(old(View()), View(), k)
    {
      hide D.EndpointsDistinct, D.Compact, D.EpsOf, D.Canonical, NodeEntry.Ep, D.Rank, D.Moved, D.SameEndpoints;
      ghost var s := State();
      var n := |nodes|;
      var canonical := D.FindCanonical(nodes, me);
      D.DistinctKeepsAll(nodes, me);
      D.CompactTable(nodes, me);
      D.RankAtMost(nodes, me, n);
      if forall i :: 0 <= i < n ==> canonical[i] == i {
        assert forall i :: 0 <= i < n ==> D.Kept(nodes, me, i);
        D.CompactAll(nodes, me, nodes, n);
        D.CompactAll(nodes, me, epochs, n);
        D.EndpointsKept(s, State());
        return 0;
      }
      assert D.Rank(nodes, me, n) < n by {
        var i :| 0 <= i < n && canonical[i] != i;
        D.KeptIsCanonical(nodes, me, i);
      }
      assert |D.Compact(nodes, me, nodes, n)| < n;
      Collapse(canonical);
      removed := n - |nodes|;
      D.DedupMeans(s, State());
      D.EndpointsKept(s, State());
    }

    /** Point every index at its canonical entry, then drop the aliases and renumber. */
    method Collapse(canonical: seq<nat>)
      requires owner != replicas && owner != peer && replicas != peer
      requires me < |nodes| == |epochs| == |canonical| <= UNASSIGNED
      requires IndicesOk(owner[..], |nodes|) && IndicesOk(replicas[..], |nodes|) && IndicesOk(peer[..], |nodes|)
      requires forall i :: 0 <= i < |nodes| ==> canonical[i] == D.Canonical(nodes, me, i)
      modifies this`nodes, this`epochs, this`me, owner, replicas, peer
      ensures nodes == D.Compact(old(nodes), old(me), old(nodes), old(|nodes|))
      ensures epochs == D.Compact(old(nodes), old(me), old(epochs), old(|nodes|))
      ensures me == D.NewIndex(old(nodes), old(me), old(me))
      ensures D.Moved(old(nodes), old(me), old(owner[..]), owner[..])
      ensures D.Moved(old(nodes), old(me), old(replicas[..]), replicas[..])
      ensures D.Moved(old(nodes), old(me), old(peer[..]), peer[..])
    {
      hide D.Compact, D.Canonical, NodeEntry.Ep, D.NewIndex;
      Remap(owner, canonical);
      Remap(replicas, canonical);
      Remap(peer, canonical);
      var oldToNew, newNodes, newEpochs := D.CompactTables(nodes, epochs, me, canonical);
      Remap(owner, oldToNew);
      Remap(replicas, oldToNew);
      Remap(peer, oldToNew);
      me := oldToNew[canonical[me]];
      nodes := newNodes;
      epochs := newEpochs;
    }
  }

  datatype BuildResult = Built(slotMap: SlotMap) | Failed(error: T.MapError) | Crashed(slot: nat)

  /** `e` is another node under the endpoint of `me`, the entry of node `self`. */
  predicate IsAlias(e: NodeEntry, me: NodeEntry, self: Str)
  {
    me.id == self && e.id != self && e.Ep() == me.Ep()
  }

  /** No other node at this node's endpoint declares slots. */
  ghost predicate NoAliasOfSelf(t: seq<T.Declared>, self: Str)
  {
    forall i, j | 0 <= i < |t| && 0 <= j < |t| && IsAlias(t[i].entry, t[j].entry, self) :: t[i].ranges == []
  }

  /**
   Build a map from a static topology: it succeeds exactly on the valid ones, and each slot is owned by
   the node that declares it. The ownership bits agree with the endpoints, as every later mutation
   assumes, exactly when no other node declares slots under this node's endpoint.
  */
  method Build(t: seq<T.Declared>, self: Str) returns (r: BuildResult)
    requires |t| <= UNASSIGNED
    ensures r.Built? <==> T.TopologyOk(t, self)
    ensures forall e :: T.Blames(t, self, e) <==> r == Failed(e)
    ensures forall slot :: T.Panics(t, slot) <==> r == Crashed(slot)
    ensures T.OtherwiseConsistent(t) ==> (r.Crashed? <==> T.SomeNodeNamesTwice(t))
    ensures r.Built? ==> fresh(r.slotMap) && r.slotMap.nodes == T.Entries(t) && Shape(r.slotMap.State())
    ensures r.Built? ==> T.ClaimedBy(t, |t|, r.slotMap.owner[..]) && r.slotMap.nodes[r.slotMap.me].id == self
    ensures r.Built? ==> forall slot :: 0 <= slot < SLOTS ==> r.slotMap.owner[slot] != UNASSIGNED
    ensures r.Built? ==> (r.slotMap.Valid() <==> NoAliasOfSelf(t, self))
  {
    hide T.TopologyOk, T.Blames, T.Panics, T.ClaimedBy, NoAliasOfSelf, Lockstep, T.OtherwiseConsistent,
         T.SomeNodeNamesTwice;
    var q := T.Resolve(t, self);
    if q.Rejected? {
      return Failed(q.error);
    }
    if q.Panicked? {
      return Crashed(q.slot);
    }
    var m := new SlotMap.FromTopology(T.Entries(t), q.owner, q.me);
    ResolvedShape(t, self, m.State());
    ResolvedLockstep(t, self, m.State());
    r := Built(m);
  }

  /** Two nodes that halve the slots under one endpoint: a valid topology whose bits and endpoints disagree. */
  lemma SharedEndpointDisagrees(a: NodeEntry, b: NodeEntry)
    requires T.IsValidNodeId(a.id) && T.IsValidNodeId(b.id) && a.id != b.id && a.Ep() == b.Ep()
    ensures var t := [T.Declared(a, [T.Range(0, 8191)]), T.Declared(b, [T.Range(8192, 16383)])];
      T.TopologyOk(t, a.id) && !NoAliasOfSelf(t, a.id)
  {
    hide T.IsValidNodeId, NodeEntry.Ep;
    var low, high := T.Range(0, 8191), T.Range(8192, 16383);
    var t := [T.Declared(a, [low]), T.Declared(b, [high])];
    assert t[0].entry.id == a.id;
    forall slot | 0 <= slot < SLOTS ensures T.Named(t, 2, slot) {
      assert T.Covers(t[0].ranges[0], slot) || T.Covers(t[1].ranges[0], slot);
      assert T.Names(t[0].ranges, slot) || T.Names(t[1].ranges, slot);
    }
    assert IsAlias(t[1].entry, t[0].entry, a.id);
  }

  lemma ResolvedShape(t: seq<T.Declared>, self: Str, s: MapState)
    requires |t| <= UNASSIGNED && T.TopologyOk(t, self) && T.ClaimedBy(t, |t|, s.owner)
    requires s.nodes == T.Entries(t) && |s.epochs| == |s.nodes| && s.me < |t|
    requires |s.mine| == |s.replicas| == |s.phase| == |s.peer| == SLOTS
    requires forall k :: 0 <= k < SLOTS ==> s.replicas[k] == s.peer[k] == UNASSIGNED && s.phase[k] == MIG_NONE
    ensures Shape(s)
  {
  }

  lemma ResolvedLockstep(t: seq<T.Declared>, self: Str, s: MapState)
    requires |t| <= UNASSIGNED && T.TopologyOk(t, self) && T.ClaimedBy(t, |t|, s.owner)
    requires s.nodes == T.Entries(t) && s.me < |t| && t[s.me].entry.id == self && |s.mine| == SLOTS
    requires forall k :: 0 <= k < SLOTS ==> s.owner[k] != UNASSIGNED
    requires forall k :: 0 <= k < SLOTS ==> (s.mine[k] <==> s.owner[k] == s.me)
    ensures Lockstep(s) <==> NoAliasOfSelf(t, self)
  {
    hide T.Named, T.NamesTwice, T.IsValidNodeId, T.HasId, NodeEntry.Ep;
    if NoAliasOfSelf(t, self) {
      forall k | 0 <= k < SLOTS
        ensures s.mine[k] <==> s.owner[k] < |s.nodes| && s.nodes[s.owner[k]].Ep() == s.nodes[s.me].Ep()
      {
        var i := s.owner[k];
        assert T.Names(t[i].ranges, k);
        assert t[i].ranges != [];
      }
    }
    if Lockstep(s) {
      forall i, j | 0 <= i < |t| && 0 <= j < |t| && IsAlias(t[i].entry, t[j].entry, self) ensures t[i].ranges == [] {
        SelfIsUnique(t, self, j, s.me);
        if t[i].ranges != [] {
          DeclaresSlot(t, self, s, i);
        }
      }
    }
  }

  lemma SelfIsUnique(t: seq<T.Declared>, self: Str, i: nat, j: nat)
    requires T.TopologyOk(t, self) && i < |t| && j < |t| && t[i].entry.id == t[j].entry.id
    ensures i == j
  {
  }

  /** A node with a range owns the range's first slot. */
  lemma DeclaresSlot(t: seq<T.Declared>, self: Str, s: MapState, i: nat)
    requires T.TopologyOk(t, self) && T.ClaimedBy(t, |t|, s.owner) && i < |t| && t[i].ranges != []
    requires forall k :: 0 <= k < SLOTS ==> s.owner[k] != UNASSIGNED
    ensures t[i].ranges[0].start < SLOTS && s.owner[t[i].ranges[0].start] == i
  {
  }

  /** Send every stored index through `f`, leaving the sentinel alone. */
  method Remap(a: array<u16>, f: seq<nat>)
    requires a.Length == SLOTS
    requires forall k :: 0 <= k < SLOTS && a[k] != UNASSIGNED ==> a[k] < |f| && f[a[k]] <= UNASSIGNED
    modifies a
    ensures forall k :: 0 <= k < SLOTS ==> a[k] == if old(a[k]) == UNASSIGNED then UNASSIGNED else f[old(a[k])]
  {
    for i := 0 to SLOTS
      invariant forall k :: 0 <= k < i ==> a[k] == if old(a[k]) == UNASSIGNED then UNASSIGNED else f[old(a[k])]
      invariant forall k :: i <= k < SLOTS ==> a[k] == old(a[k])
    {
      if a[i] != UNASSIGNED {
        a[i] := f[a[i]];
      }
    }
  }
}
