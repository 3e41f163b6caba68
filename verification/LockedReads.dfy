/**
 Readers that do take the table lock, interleaved with mutators store by store.

 `moved_target` and `owner_id` lock, load the owner index, look the index up in the node table, and
 unlock. Mutators lock, perform their stores one at a time, and unlock. Two mutators (clearing a
 migration tag, publishing the epoch) store without the lock, but only into what routing never reads.
*/
module LockedReads {
  import opened Core
  import opened SlotTypes
  import opened SlotMapFacts

  /** One store of a mutator. */
  datatype Store =
    | SetMine(slot: nat, bit: bool)
    | SetOwnerIdx(slot: nat, idx: u16)
    | SetReplicaIdx(slot: nat, idx: u16)
    | SetPhase(slot: nat, phase: byte)
    | SetPeer(slot: nat, idx: u16)
    | SetTable(nodes: seq<NodeEntry>, epochs: seq<nat>)
    | SetSelf(me: nat)
    | SetEpoch(epoch: nat)

  ghost function Perform(s: MapState, st: Store): MapState
  {
    match st
    case SetMine(k, b) => if k < |s.mine| then s.(mine := s.mine[k := b]) else s
    case SetOwnerIdx(k, x) => if k < |s.owner| then s.(owner := s.owner[k := x]) else s
    case SetReplicaIdx(k, x) => if k < |s.replicas| then s.(replicas := s.replicas[k := x]) else s
    case SetPhase(k, b) => if k < |s.phase| then s.(phase := s.phase[k := b]) else s
    case SetPeer(k, x) => if k < |s.peer| then s.(peer := s.peer[k := x]) else s
    case SetTable(nodes, epochs) => s.(nodes := nodes, epochs := epochs)
    case SetSelf(me) => s.(me := me)
    case SetEpoch(e) => s.(currentEpoch := e)
  }

  /** The stores some mutator performs without the lock. */
  predicate Unlocked(st: Store) { st.SetPhase? || st.SetPeer? || st.SetEpoch? }

  /** The redirect target a state gives for a slot. */
  ghost function Routed(nodes: seq<NodeEntry>, idx: u16): Option<NodeEntry>
  {
    if idx == UNASSIGNED || idx >= |nodes| then None else Some(nodes[idx])
  }

  datatype Pc = Idle | Writing(todo: seq<Store>) | Reading(slot: nat) | Loaded(slot: nat, idx: u16)

  /** Threads around one map; `settled` is the map as the last mutator left it. */
  datatype Sys = Sys(state: MapState, lock: Option<nat>, threads: map<nat, Pc>, settled: MapState)

  datatype Step =
    | BeginWrite(t: nat, stores: seq<Store>)
    | DoStore(t: nat)
    | EndWrite(t: nat)
    | BeginRead(t: nat, slot: nat)
    | LoadIndex(t: nat)
    | Answer(t: nat, answer: Option<NodeEntry>)
    | StoreUnlocked(st: Store)

  ghost predicate Next(a: Sys, step: Step, b: Sys)
  {
    match step
    case BeginWrite(t, stores) =>
      t in a.threads && a.threads[t] == Idle && a.lock.None? &&
      b == a.(lock := Some(t), threads := a.threads[t := Writing(stores)])
    case DoStore(t) =>
      t in a.threads && a.threads[t].Writing? && a.threads[t].todo != [] &&
      b == a.(state := Perform(a.state, a.threads[t].todo[0]),
              threads := a.threads[t := Writing(a.threads[t].todo[1..])])
    case EndWrite(t) =>
      t in a.threads && a.threads[t] == Writing([]) &&
      b == a.(lock := None, threads := a.threads[t := Idle], settled := a.state)
    case BeginRead(t, slot) =>
      t in a.threads && a.threads[t] == Idle && a.lock.None? && slot < SLOTS &&
      b == a.(lock := Some(t), threads := a.threads[t := Reading(slot)])
    case LoadIndex(t) =>
      t in a.threads && a.threads[t].Reading? && a.threads[t].slot < |a.state.owner| &&
      b == a.(threads := a.threads[t := Loaded(a.threads[t].slot, a.state.owner[a.threads[t].slot])])
    case Answer(t, answer) =>
      t in a.threads && a.threads[t].Loaded? && answer == Routed(a.state.nodes, a.threads[t].idx) &&
      b == a.(lock := None, threads := a.threads[t := Idle])
    case StoreUnlocked(st) =>
      Unlocked(st) && b == a.(state := Perform(a.state, st))
  }

  ghost predicate Start(a: Sys)
  {
    a.lock.None? && a.settled == a.state && forall t :: t in a.threads ==> a.threads[t] == Idle
  }

  ghost predicate Safe(a: Sys)
  {
    && (forall t :: t in a.threads && a.threads[t] != Idle ==> a.lock == Some(t))
    && ((forall t :: t in a.threads ==> !a.threads[t].Writing?) ==>
          a.state.nodes == a.settled.nodes && a.state.owner == a.settled.owner)
    && (forall t :: t in a.threads && a.threads[t].Loaded? ==>
          a.threads[t].slot < |a.settled.owner| && a.threads[t].idx == a.settled.owner[a.threads[t].slot])
  }

  lemma NextSafe(a: Sys, step: Step, b: Sys)
    requires Safe(a) && Next(a, step, b)
    ensures Safe(b)
  {
  }

  ghost predicate IsRun(run: seq<Sys>, steps: seq<Step>)
  {
    |run| == |steps| + 1 && Start(run[0]) && forall i :: 0 <= i < |steps| ==> Next(run[i], steps[i], run[i + 1])
  }

  lemma {:induction false} RunSafe(run: seq<Sys>, steps: seq<Step>, n: nat)
    requires IsRun(run, steps) && n < |run|
    ensures Safe(run[n])
  {
    if n > 0 {
      RunSafe(run, steps, n - 1);
      NextSafe(run[n - 1], steps[n - 1], run[n]);
    }
  }

  /** The answer is the last completed mutator's table entry at the index its owner array holds. */
  lemma AnswersFromSettled(run: seq<Sys>, steps: seq<Step>, n: nat)
    requires IsRun(run, steps) && n < |steps| && steps[n].Answer?
    ensures var a, t := run[n], steps[n].t;
      && t in a.threads && a.threads[t].Loaded? && a.threads[t].slot < |a.settled.owner|
      && steps[n].answer == Routed(a.settled.nodes, a.settled.owner[a.threads[t].slot])
  {
    RunSafe(run, steps, n);
    var a := run[n];
    assert Next(run[n], steps[n], run[n + 1]);
    assert forall u :: u in a.threads ==> !a.threads[u].Writing?;
  }

  // ----- by id -----

  ghost predicate TableOk(nodes: seq<NodeEntry>) { DistinctIds(nodes) && |nodes| <= UNASSIGNED }

  /** A node table a mutator may store: what `SlotMap` proves of every table it ever holds. */
  ghost predicate StoresTables(stores: seq<Store>)
  {
    forall i :: 0 <= i < |stores| && stores[i].SetTable? ==> TableOk(stores[i].nodes)
  }

  ghost predicate Routable(s: MapState) { TableOk(s.nodes) && |s.phase| == |s.peer| }

  ghost predicate AllRoutable(a: Sys)
  {
    && Routable(a.state) && Routable(a.settled)
    && forall t :: t in a.threads && a.threads[t].Writing? ==> StoresTables(a.threads[t].todo)
  }

  ghost predicate WritersKeepIds(steps: seq<Step>)
  {
    forall i :: 0 <= i < |steps| && steps[i].BeginWrite? ==> StoresTables(steps[i].stores)
  }

  lemma NextRoutable(a: Sys, step: Step, b: Sys)
    requires AllRoutable(a) && Next(a, step, b) && (step.BeginWrite? ==> StoresTables(step.stores))
    ensures AllRoutable(b)
  {
    hide TableOk;
  }

  lemma {:induction false} RunRoutable(run: seq<Sys>, steps: seq<Step>, n: nat)
    requires IsRun(run, steps) && n < |run| && Routable(run[0].state) && WritersKeepIds(steps)
    ensures AllRoutable(run[n])
  {
    hide Routable, StoresTables, Next;
    if n > 0 {
      RunRoutable(run, steps, n - 1);
      NextRoutable(run[n - 1], steps[n - 1], run[n]);
    }
  }

  /**
   In every interleaving, a locked read answers from one map, the one the last completed mutator left: nobody if that
   map's view has no owner for the slot, else the owner's id together with the endpoint the view registers for it.
   No index is ever paired with a shifted table.
  */
  lemma LockedReadsSeeOneMap(run: seq<Sys>, steps: seq<Step>, n: nat)
    requires IsRun(run, steps) && n < |steps| && steps[n].Answer?
    requires Routable(run[0].state) && WritersKeepIds(steps)
    ensures var s, t, answer := run[n].settled, steps[n].t, steps[n].answer;
      && |s.phase| == |s.peer| && t in run[n].threads && run[n].threads[t].Loaded?
      && run[n].threads[t].slot < |ViewOf(s).owner|
      && var v, owner := ViewOf(s), ViewOf(s).owner[run[n].threads[t].slot];
      && (answer.None? <==> owner.None?)
      && (answer.Some? ==>
            && owner == Some(answer.value.id) && answer.value.id in v.nodes
            && v.nodes[answer.value.id] == Endpoint(answer.value.host, answer.value.port))
  {
    AnswersFromSettled(run, steps, n);
    RunRoutable(run, steps, n);
    var s, slot := run[n].settled, run[n].threads[steps[n].t].slot;
    NodesAt(s.nodes);
    assert ViewOf(s).owner[slot] == IdAt(s.nodes, s.owner[slot]);
  }

  /** Every state a slot map can be in between two calls is one to start from. */
  lemma InvIsRoutable(s: MapState)
    requires Inv(s)
    ensures Routable(s)
  {
  }

  // ----- the stores of the mutators -----

  ghost function PerformAll(s: MapState, stores: seq<Store>): MapState
  {
    if stores == [] then s else Perform(PerformAll(s, stores[..|stores| - 1]), stores[|stores| - 1])
  }

  lemma PerformSnoc(s: MapState, stores: seq<Store>, st: Store)
    ensures PerformAll(s, []) == s && PerformAll(s, stores + [st]) == Perform(PerformAll(s, stores), st)
  {
    assert (stores + [st])[..|stores|] == stores;
  }

  /** The four stores of an ownership flip, one after the other, are the flip: owner set, tag gone, bit in step. */
  lemma FlipStores(s: MapState, slot: nat, idx: nat)
    requires Inv(s) && slot < SLOTS && idx < |s.nodes|
    ensures var bit := s.nodes[idx].Ep() == s.nodes[s.me].Ep();
      var t := PerformAll(s, [SetOwnerIdx(slot, idx), SetMine(slot, bit), SetPhase(slot, MIG_NONE),
                              SetPeer(slot, UNASSIGNED)]);
      Inv(t) && LocalOf(t) == LocalOf(s).(view := SetOwner(ViewOf(s), slot, s.nodes[idx].id))
  {
    hide NodeEntry.Ep, Inv, LocalOf, ViewOf, SetOwner;
    Sizes(s);
    var bit := s.nodes[idx].Ep() == s.nodes[s.me].Ep();
    var a, b, c, d := SetOwnerIdx(slot, idx), SetMine(slot, bit), SetPhase(slot, MIG_NONE), SetPeer(slot, UNASSIGNED);
    FourStores(s, a, b, c, d);
    FlipMeans(s, PerformAll(s, [a, b, c, d]), slot, idx);
  }

  lemma Sizes(s: MapState)
    requires Inv(s)
    ensures |s.owner| == |s.mine| == |s.replicas| == |s.phase| == |s.peer| == SLOTS
    ensures s.me < |s.nodes| <= UNASSIGNED
  {
  }

  lemma FourStores(s: MapState, a: Store, b: Store, c: Store, d: Store)
    ensures PerformAll(s, [a, b, c, d]) == Perform(Perform(Perform(Perform(s, a), b), c), d)
  {
    hide Perform;
    PerformSnoc(s, [], a);
    PerformSnoc(s, [a], b);
    PerformSnoc(s, [a, b], c);
    PerformSnoc(s, [a, b, c], d);
    assert [] + [a] == [a] && [a] + [b] == [a, b] && [a, b] + [c] == [a, b, c] && [a, b, c] + [d] == [a, b, c, d];
  }

  /** The one store of a meeting: the table grows by an entry and nothing else changes. */
  lemma MeetStore(s: MapState, e: NodeEntry)
    requires Inv(s) && |s.nodes| < UNASSIGNED && Position(s.nodes, e.id).None?
    ensures var t := Perform(s, SetTable(s.nodes + [e], s.epochs + [0]));
      Inv(t) && ViewOf(t) == Meet(ViewOf(s), e)
  {
    hide Position;
    MeetMeans(s, Perform(s, SetTable(s.nodes + [e], s.epochs + [0])), e);
  }
}
