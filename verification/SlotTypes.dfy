/**
 The slot-ownership map of one node, at two levels.

 `MapState` is the concrete layout: a node table and five parallel per-slot arrays holding table
 INDICES. `View` is what the layout means: the same facts keyed by node id, with no indices in it.
 The functions on `View` are the meaning of each mutation; the class `SlotMap` is proved against them.
*/
module SlotTypes {
  import opened Core

  /** The number of hash slots of the Redis-Cluster wire space. */
  const SLOTS: nat := 16384

  /** The index stored for "no node". */
  const UNASSIGNED: u16 := 0xFFFF

  const MIG_NONE: byte := 0
  const MIG_MIGRATING: byte := 1
  const MIG_IMPORTING: byte := 2

  datatype Endpoint = Endpoint(host: Str, port: u16)

  datatype NodeEntry = NodeEntry(id: Str, host: Str, port: u16) {
    function Ep(): Endpoint { Endpoint(host, port) }
  }

  datatype MutError =
    | SlotBusy(slot: nat)
    | SlotUnassigned(slot: nat)
    | SlotDuplicate(slot: nat)
    | UnknownNode(id: Str)
    | ForgetSelf
    | NodeOwnsSlots(id: Str)
    | EpochKnowsOthers
    | EpochAlreadySet

  datatype Outcome = Ok | Err(error: MutError)

  // ----- the concrete layout -----

  datatype MapState = MapState(
    nodes: seq<NodeEntry>,
    epochs: seq<nat>,
    mine: seq<bool>,
    owner: seq<u16>,
    replicas: seq<u16>,
    phase: seq<byte>,
    peer: seq<u16>,
    me: nat,
    myEpoch: nat,
    currentEpoch: nat)

  ghost predicate DistinctIds(nodes: seq<NodeEntry>)
  {
    forall i, j :: 0 <= i < j < |nodes| ==> nodes[i].id != nodes[j].id
  }

  /** Every stored index names a table entry or is the sentinel. */
  ghost predicate IndicesOk(xs: seq<u16>, n: nat)
  {
    |xs| == SLOTS && forall k :: 0 <= k < SLOTS ==> xs[k] < n || xs[k] == UNASSIGNED
  }

  /** A slot carries a phase tag exactly when it carries a peer. */
  ghost predicate TagsOk(phase: seq<byte>, peer: seq<u16>)
  {
    |phase| == |peer| == SLOTS &&
    forall k :: 0 <= k < SLOTS ==>
      phase[k] <= MIG_IMPORTING && (phase[k] == MIG_NONE <==> peer[k] == UNASSIGNED)
  }

  /** The cached ownership bit agrees with the slow lookup, self being recognised by ENDPOINT. */
  ghost predicate Lockstep(s: MapState)
  {
    |s.mine| == |s.owner| == SLOTS && s.me < |s.nodes| &&
    forall k :: 0 <= k < SLOTS ==>
      (s.mine[k] <==> s.owner[k] < |s.nodes| && s.nodes[s.owner[k]].Ep() == s.nodes[s.me].Ep())
  }

  ghost predicate Shape(s: MapState)
  {
    && 0 < |s.nodes| <= UNASSIGNED
    && |s.epochs| == |s.nodes|
    && DistinctIds(s.nodes)
    && s.me < |s.nodes|
    && IndicesOk(s.owner, |s.nodes|)
    && IndicesOk(s.replicas, |s.nodes|)
    && IndicesOk(s.peer, |s.nodes|)
    && TagsOk(s.phase, s.peer)
    && |s.mine| == SLOTS
  }

  ghost predicate Inv(s: MapState)
  {
    Shape(s) && Lockstep(s)
  }

  // ----- table lookups -----

  /** The first table position holding `id` (`iter().position(..)`). */
  function Position(nodes: seq<NodeEntry>, id: Str): (r: Option<nat>)
    ensures r.Some? ==> r.value < |nodes| && nodes[r.value].id == id
    ensures r.Some? ==> forall j :: 0 <= j < r.value ==> nodes[j].id != id
    ensures r.None? ==> forall j :: 0 <= j < |nodes| ==> nodes[j].id != id
  {
    if nodes == [] then None
    else
      var last := |nodes| - 1;
      var p := Position(nodes[..last], id);
      if p.Some? then p else if nodes[last].id == id then Some(last) else None
  }

  /** The id at a stored index (`nodes.get(idx)`); the sentinel is never in range. */
  function IdAt(nodes: seq<NodeEntry>, x: u16): Option<Str>
  {
    if x < |nodes| then Some(nodes[x].id) else None
  }

  // ----- the meaning -----

  datatype Phase = Migrating | Importing

  datatype Migration = Migration(phase: Phase, peer: Str)

  datatype View = View(
    nodes: map<Str, Endpoint>,
    owner: seq<Option<Str>>,
    replica: seq<Option<Str>>,
    mig: seq<Option<Migration>>,
    epoch: nat)

  /** A view together with what belongs to this node alone. */
  datatype Local = Local(view: View, self: Str, configEpochs: map<Str, nat>, myEpoch: nat)

  ghost predicate Known(ids: seq<Option<Str>>, nodes: map<Str, Endpoint>)
  {
    |ids| == SLOTS && forall k :: 0 <= k < SLOTS && ids[k].Some? ==> ids[k].value in nodes
  }

  ghost predicate KnownPeers(mig: seq<Option<Migration>>, nodes: map<Str, Endpoint>)
  {
    |mig| == SLOTS && forall k :: 0 <= k < SLOTS && mig[k].Some? ==> mig[k].value.peer in nodes
  }

  ghost predicate ViewOk(v: View)
  {
    Known(v.owner, v.nodes) && Known(v.replica, v.nodes) && KnownPeers(v.mig, v.nodes)
  }

  /** `id` is the node at `ep`, or another id of the same physical node. */
  predicate IsAt(v: View, id: Str, ep: Endpoint)
  {
    id in v.nodes && v.nodes[id] == ep
  }

  /** The slow lookup: is the owner of `slot` the node at endpoint `ep`? */
  predicate OwnedAt(v: View, slot: nat, ep: Endpoint)
    requires slot < |v.owner|
  {
    v.owner[slot].Some? && IsAt(v, v.owner[slot].value, ep)
  }

  ghost function Nones<T>(): (r: seq<Option<T>>)
    ensures |r| == SLOTS
    ensures forall k :: 0 <= k < SLOTS ==> r[k] == None
  {
    seq(SLOTS, k => None)
  }

  /** A node that knows only itself and owns nothing. */
  ghost function FreshLocal(e: NodeEntry): Local
  {
    Local(View(map[e.id := e.Ep()], Nones(), Nones(), Nones(), 0), e.id, map[e.id := 0], 0)
  }

  // ----- what each mutation means -----

  ghost function Meet(v: View, e: NodeEntry): View
  {
    if e.id in v.nodes then v else v.(nodes := v.nodes[e.id := e.Ep()])
  }

  /** The ownership flip: one owner, and no migration left on the slot. An unknown id changes nothing. */
  ghost function SetOwner(v: View, slot: nat, id: Str): View
    requires slot < |v.owner| && slot < |v.mig|
  {
    if id !in v.nodes then v
    else v.(owner := v.owner[slot := Some(id)], mig := v.mig[slot := None])
  }

  ghost function ClearOwner(v: View, slot: nat): View
    requires slot < |v.owner|
  {
    v.(owner := v.owner[slot := None])
  }

  ghost function SetReplica(v: View, slot: nat, id: Str): View
    requires slot < |v.replica|
  {
    if id !in v.nodes then v else v.(replica := v.replica[slot := Some(id)])
  }

  ghost function ClearReplica(v: View, slot: nat, id: Str): View
    requires slot < |v.replica|
  {
    if v.replica[slot] != Some(id) then v else v.(replica := v.replica[slot := None])
  }

  ghost function SetMigration(v: View, slot: nat, phase: Phase, id: Str): View
    requires slot < |v.mig|
  {
    if id !in v.nodes then v else v.(mig := v.mig[slot := Some(Migration(phase, id))])
  }

  ghost function ClearMigration(v: View, slot: nat): View
    requires slot < |v.mig|
  {
    v.(mig := v.mig[slot := None])
  }

  /** The same optional ids without the ones naming `id`. */
  ghost function Without(ids: seq<Option<Str>>, id: Str): (r: seq<Option<Str>>)
    ensures |r| == |ids|
    ensures forall k :: 0 <= k < |ids| ==> r[k] == if ids[k] == Some(id) then None else ids[k]
  {
    seq(|ids|, k requires 0 <= k < |ids| => if ids[k] == Some(id) then None else ids[k])
  }

  /** The same migrations without the ones whose peer is `id`. */
  ghost function WithoutPeer(mig: seq<Option<Migration>>, id: Str): (r: seq<Option<Migration>>)
    ensures |r| == |mig|
    ensures forall k :: 0 <= k < |mig| ==>
      r[k] == if mig[k].Some? && mig[k].value.peer == id then None else mig[k]
  {
    seq(|mig|, k requires 0 <= k < |mig| =>
      if mig[k].Some? && mig[k].value.peer == id then None else mig[k])
  }

  /** The same optional ids with `x` at every listed slot. */
  ghost function SetAll(ids: seq<Option<Str>>, slots: seq<nat>, x: Option<Str>): (r: seq<Option<Str>>)
    ensures |r| == |ids|
    ensures forall k :: 0 <= k < |ids| ==> r[k] == if k in slots then x else ids[k]
  {
    seq(|ids|, k requires 0 <= k < |ids| => if k in slots then x else ids[k])
  }

  /** Why `self` may not forget `id`, if it may not. */
  ghost function ForgetError(v: View, self: Str, id: Str): Option<MutError>
  {
    if id !in v.nodes then Some(UnknownNode(id))
    else if id == self then Some(ForgetSelf)
    else if Some(id) in v.owner then Some(NodeOwnsSlots(id))
    else None
  }

  /** Drop `id`: no owner changes; replica and migration entries naming it go with it. */
  ghost function Forget(v: View, id: Str): View
  {
    v.(nodes := v.nodes - {id}, replica := Without(v.replica, id), mig := WithoutPeer(v.mig, id))
  }

  // ----- the meaning of a layout -----

  ghost function NodesOf(nodes: seq<NodeEntry>): (r: map<Str, Endpoint>)
    ensures forall i :: 0 <= i < |nodes| ==> nodes[i].id in r
    ensures forall id :: id in r ==> Position(nodes, id).Some? && r[id] == nodes[Position(nodes, id).value].Ep()
  {
    map id | id in (set e | e in nodes :: e.id) :: nodes[Position(nodes, id).value].Ep()
  }

  ghost function EpochsOf(nodes: seq<NodeEntry>, epochs: seq<nat>): (r: map<Str, nat>)
    requires |nodes| == |epochs|
    ensures forall i :: 0 <= i < |nodes| ==> nodes[i].id in r
    ensures forall id :: id in r ==> Position(nodes, id).Some? && r[id] == epochs[Position(nodes, id).value]
  {
    map id | id in (set e | e in nodes :: e.id) :: epochs[Position(nodes, id).value]
  }

  ghost function IdsOf(nodes: seq<NodeEntry>, xs: seq<u16>): (r: seq<Option<Str>>)
    ensures |r| == |xs|
    ensures forall k :: 0 <= k < |xs| ==> r[k] == IdAt(nodes, xs[k])
  {
    seq(|xs|, k requires 0 <= k < |xs| => IdAt(nodes, xs[k]))
  }

  /** The migration a phase byte and a peer index describe. */
  function MigAt(nodes: seq<NodeEntry>, phase: byte, peer: u16): Option<Migration>
  {
    if phase == MIG_NONE || peer >= |nodes| then None
    else Some(Migration(if phase == MIG_MIGRATING then Migrating else Importing, nodes[peer].id))
  }

  ghost function MigsOf(nodes: seq<NodeEntry>, phase: seq<byte>, peer: seq<u16>): (r: seq<Option<Migration>>)
    requires |phase| == |peer|
    ensures |r| == |peer|
    ensures forall k :: 0 <= k < |peer| ==> r[k] == MigAt(nodes, phase[k], peer[k])
  {
    seq(|peer|, k requires 0 <= k < |peer| => MigAt(nodes, phase[k], peer[k]))
  }

  ghost function ViewOf(s: MapState): View
    requires |s.phase| == |s.peer|
  {
    View(NodesOf(s.nodes), IdsOf(s.nodes, s.owner), IdsOf(s.nodes, s.replicas),
         MigsOf(s.nodes, s.phase, s.peer), s.currentEpoch)
  }

  ghost function LocalOf(s: MapState): Local
    requires Shape(s)
  {
    Local(ViewOf(s), s.nodes[s.me].id, EpochsOf(s.nodes, s.epochs), s.myEpoch)
  }

  // ----- facts every proof about the layout uses -----

  /** With distinct ids, the entry at `i` is the one its id finds. */
  lemma PositionOfId(nodes: seq<NodeEntry>, i: nat)
    requires DistinctIds(nodes) && i < |nodes|
    ensures Position(nodes, nodes[i].id) == Some(i)
  {
  }

  lemma NodesAt(nodes: seq<NodeEntry>)
    requires DistinctIds(nodes)
    ensures forall i :: 0 <= i < |nodes| ==>
      nodes[i].id in NodesOf(nodes) && NodesOf(nodes)[nodes[i].id] == nodes[i].Ep()
  {
  }

  /** A layout that satisfies the invariant means a view in which every named id is known. */
  lemma ViewIsOk(s: MapState)
    requires Inv(s)
    ensures ViewOk(ViewOf(s))
    ensures s.nodes[s.me].id in ViewOf(s).nodes
    ensures ViewOf(s).nodes[s.nodes[s.me].id] == s.nodes[s.me].Ep()
  {
  }

  /** The hot-path bit answers the slow question, for every slot. */
  lemma MineIsOwnedAt(s: MapState)
    requires Inv(s)
    ensures forall k :: 0 <= k < SLOTS ==> (s.mine[k] <==> OwnedAt(ViewOf(s), k, s.nodes[s.me].Ep()))
  {
  }
}
