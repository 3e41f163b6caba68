/**
 Driving a rebalance plan against the committed map.

 The controller keeps no state: at any time, for any of its moves and with any verdict about the
 copy, it reads the committed owner and tag of the slot and proposes the next command. These are
 the runs of that controller under every interleaving of moves, every sequence of verdicts, and
 restarts anywhere.
*/
module RebalanceDriver {
  import opened Core
  import opened SlotTypes
  import opened Rebalance
  import opened RebalancePlanner
  import L = ReplicatedLog

  datatype ApplyStep = StartMigration | AwaitCopy | Commit | Done

  /** The next step for one move, from the committed state and the caller's verdict alone. */
  function Decide(ownerIsDestination: bool, migrationInFlight: bool, destinationCaughtUp: bool): ApplyStep
  {
    if ownerIsDestination then Done
    else if !migrationInFlight then StartMigration
    else if destinationCaughtUp then Commit
    else AwaitCopy
  }

  /** The whole decision table: arrival settles it, then whether the copy has begun, then whether it has caught up. */
  lemma DecisionTable(arrived: bool, inFlight: bool, caughtUp: bool)
    ensures Decide(arrived, inFlight, caughtUp) == Done <==> arrived
    ensures Decide(arrived, inFlight, caughtUp) == StartMigration <==> !arrived && !inFlight
    ensures Decide(arrived, inFlight, caughtUp) == Commit <==> !arrived && inFlight && caughtUp
    ensures Decide(arrived, inFlight, caughtUp) == AwaitCopy <==> !arrived && inFlight && !caughtUp
  {
  }

  datatype SetSlotAction =
    | MigratingTo(slot: nat, dest: Str)
    | ImportingFrom(slot: nat, src: Str)
    | NodeIs(slot: nat, owner: Str)

  /** The committed commands that realise a step. */
  function Actions(step: ApplyStep, m: SlotMove): seq<SetSlotAction>
  {
    match step
    case StartMigration => [MigratingTo(m.slot, m.dst), ImportingFrom(m.slot, m.src)]
    case Commit => [NodeIs(m.slot, m.dst)]
    case AwaitCopy => []
    case Done => []
  }

  ghost predicate Sized(v: View) { |v.owner| == |v.mig| == SLOTS }

  /**
   Whose map the controller reads. `OneMap` takes every action as it comes. `Node(ep)` is the map of the node at
   `ep`, on which the committed commands leave a MIGRATING tag only if it owns the slot and an IMPORTING tag only
   if it is the destination.
  */
  datatype Reader = OneMap | Node(ep: Endpoint)

  ghost function Act(on: Reader, v: View, m: SlotMove, a: SetSlotAction): (w: View)
    requires Sized(v) && a.slot < SLOTS
    ensures Sized(w)
  {
    match a
    case MigratingTo(slot, dest) =>
      if on.OneMap? || OwnedAt(v, slot, on.ep) then SetMigration(v, slot, Migrating, dest) else v
    case ImportingFrom(slot, src) =>
      if on.OneMap? || IsAt(v, m.dst, on.ep) then SetMigration(v, slot, Importing, src) else v
    case NodeIs(slot, owner) => SetOwner(v, slot, owner)
  }

  ghost function ActAll(on: Reader, v: View, m: SlotMove, acts: seq<SetSlotAction>): (w: View)
    requires Sized(v) && forall i :: 0 <= i < |acts| ==> acts[i].slot < SLOTS
    ensures Sized(w)
  {
    if acts == [] then v else Act(on, ActAll(on, v, m, acts[..|acts| - 1]), m, acts[|acts| - 1])
  }

  ghost function StepFor(v: View, m: SlotMove, caughtUp: bool): ApplyStep
    requires Sized(v) && m.slot < SLOTS
  {
    Decide(v.owner[m.slot] == Some(m.dst), v.mig[m.slot].Some?, caughtUp)
  }

  /** One visit of the controller to one move. */
  ghost function Drive(on: Reader, v: View, m: SlotMove, caughtUp: bool): (w: View)
    requires Sized(v) && m.slot < SLOTS
    ensures Sized(w)
  {
    ActAll(on, v, m, Actions(StepFor(v, m, caughtUp), m))
  }

  // ----- where a move stands -----

  datatype Stage = Waiting | Copying | Finished

  /** The tag that starting a migration leaves on the map the controller reads. */
  ghost function TagFor(on: Reader, nodes: map<Str, Endpoint>, m: SlotMove): Option<Migration>
    requires m.src in nodes && m.dst in nodes
  {
    if on.OneMap? || nodes[m.dst] == on.ep then Some(Migration(Importing, m.src))
    else if nodes[m.src] == on.ep then Some(Migration(Migrating, m.dst))
    else None
  }

  ghost predicate At(on: Reader, v: View, m: SlotMove, s: Stage)
    requires Sized(v)
  {
    && m.slot < SLOTS && m.src != m.dst && m.src in v.nodes && m.dst in v.nodes
    && match s
       case Waiting => v.owner[m.slot] == Some(m.src) && v.mig[m.slot] == None
       case Copying => v.owner[m.slot] == Some(m.src) && v.mig[m.slot] == TagFor(on, v.nodes, m) != None
       case Finished => v.owner[m.slot] == Some(m.dst) && v.mig[m.slot] == None
  }

  /** Two views that agree away from one slot. */
  ghost predicate SameElsewhere(v: View, w: View, slot: nat)
    requires Sized(v) && Sized(w)
  {
    && w.nodes == v.nodes && w.replica == v.replica && w.epoch == v.epoch
    && forall k :: 0 <= k < SLOTS && k != slot ==> w.owner[k] == v.owner[k] && w.mig[k] == v.mig[k]
  }

  /** What a visit does, stage by stage. */
  lemma VisitMeans(on: Reader, v: View, m: SlotMove, caughtUp: bool, s: Stage)
    requires Sized(v) && At(on, v, m, s)
    ensures var w, step := Drive(on, v, m, caughtUp), StepFor(v, m, caughtUp);
      && SameElsewhere(v, w, m.slot)
      && (s == Waiting ==> step == StartMigration)
      && (s == Waiting && TagFor(on, v.nodes, m).Some? ==> At(on, w, m, Copying))
      && (s == Waiting && TagFor(on, v.nodes, m).None? ==> w == v)
      && (s == Copying && caughtUp ==> step == Commit && At(on, w, m, Finished))
      && (s == Copying && !caughtUp ==> step == AwaitCopy && w == v)
      && (s == Finished ==> step == Done && w == v)
  {
    match s {
      case Waiting => ActTwo(on, v, m, MigratingTo(m.slot, m.dst), ImportingFrom(m.slot, m.src));
      case Copying => ActOne(on, v, m, NodeIs(m.slot, m.dst));
      case Finished =>
    }
  }

  lemma ActOne(on: Reader, v: View, m: SlotMove, a: SetSlotAction)
    requires Sized(v) && a.slot < SLOTS
    ensures ActAll(on, v, m, [a]) == Act(on, v, m, a)
  {
  }

  lemma ActTwo(on: Reader, v: View, m: SlotMove, a: SetSlotAction, b: SetSlotAction)
    requires Sized(v) && a.slot < SLOTS && b.slot < SLOTS
    ensures ActAll(on, v, m, [a, b]) == Act(on, Act(on, v, m, a), m, b)
  {
    ActOne(on, v, m, a);
    assert [a, b][..1] == [a];
  }

  // ----- runs -----

  datatype Event = Event(move: nat, caughtUp: bool)

  /** A plan the controller may start on: distinct slots, each at its source, nothing in flight. */
  ghost predicate Startable(on: Reader, v: View, moves: seq<SlotMove>)
  {
    && Sized(v)
    && (forall x :: 0 <= x < |moves| ==> At(on, v, moves[x], Waiting))
    && (forall x, y :: 0 <= x < y < |moves| ==> moves[x].slot != moves[y].slot)
  }

  ghost predicate EventsOk(moves: seq<SlotMove>, events: seq<Event>)
  {
    (forall e :: 0 <= e < |events| ==> events[e].move < |moves|) &&
    (forall x :: 0 <= x < |moves| ==> moves[x].slot < SLOTS)
  }

  ghost function Run(on: Reader, v: View, moves: seq<SlotMove>, events: seq<Event>): (w: View)
    requires Sized(v) && EventsOk(moves, events)
    ensures Sized(w)
  {
    if events == [] then v
    else
      var e := events[|events| - 1];
      Drive(on, Run(on, v, moves, events[..|events| - 1]), moves[e.move], e.caughtUp)
  }

  ghost function StageOf(v: View, m: SlotMove): Stage
    requires Sized(v) && m.slot < SLOTS
  {
    if v.owner[m.slot] == Some(m.dst) then Finished else if v.mig[m.slot].Some? then Copying else Waiting
  }

  /** Every move is in one of its three stages, and no slot outside the plan has changed. */
  ghost predicate OnTrack(on: Reader, v0: View, v: View, moves: seq<SlotMove>)
    requires Startable(on, v0, moves)
  {
    && Sized(v) && v.nodes == v0.nodes && v.replica == v0.replica && v.epoch == v0.epoch
    && (forall x :: 0 <= x < |moves| ==> At(on, v, moves[x], StageOf(v, moves[x])))
    && (forall k :: 0 <= k < SLOTS && Unplanned(moves, k) ==> v.owner[k] == v0.owner[k] && v.mig[k] == v0.mig[k])
  }

  ghost predicate Unplanned(moves: seq<SlotMove>, k: nat)
  {
    forall x :: 0 <= x < |moves| ==> moves[x].slot != k
  }

  lemma VisitOnTrack(on: Reader, v0: View, v: View, moves: seq<SlotMove>, e: Event)
    requires Startable(on, v0, moves) && OnTrack(on, v0, v, moves) && e.move < |moves|
    ensures OnTrack(on, v0, Drive(on, v, moves[e.move], e.caughtUp), moves)
  {
    hide Drive;
    var m := moves[e.move];
    var w := Drive(on, v, m, e.caughtUp);
    VisitMeans(on, v, m, e.caughtUp, StageOf(v, m));
    forall x | 0 <= x < |moves| ensures At(on, w, moves[x], StageOf(w, moves[x])) {
      assert At(on, v, moves[x], StageOf(v, moves[x]));
      if x != e.move {
        assert moves[x].slot != m.slot;
      }
    }
  }

  /** Safety over every run: at each moment every slot is with its source or its destination, never with nobody. */
  lemma {:induction false} RunOnTrack(on: Reader, v: View, moves: seq<SlotMove>, events: seq<Event>)
    requires Startable(on, v, moves) && EventsOk(moves, events)
    ensures OnTrack(on, v, Run(on, v, moves, events), moves)
  {
    hide OnTrack, Drive;
    if events == [] {
      StartOnTrack(on, v, moves);
    } else {
      var n := |events| - 1;
      RunOnTrack(on, v, moves, events[..n]);
      VisitOnTrack(on, v, Run(on, v, moves, events[..n]), moves, events[n]);
    }
  }

  lemma StartOnTrack(on: Reader, v: View, moves: seq<SlotMove>)
    requires Startable(on, v, moves)
    ensures OnTrack(on, v, v, moves)
  {
  }

  /**
   In every run, an owner changes only in a Commit visit to that slot's own move: from its source to its
   destination, with a migration in flight (so after StartMigration) and a true verdict.
  */
  lemma OwnerChangesOnlyByCommit(on: Reader, v: View, moves: seq<SlotMove>, events: seq<Event>, n: nat, slot: nat)
    requires Startable(on, v, moves) && EventsOk(moves, events) && n < |events| && slot < SLOTS
    requires Run(on, v, moves, events[..n + 1]).owner[slot] != Run(on, v, moves, events[..n]).owner[slot]
    ensures var before, after := Run(on, v, moves, events[..n]), Run(on, v, moves, events[..n + 1]);
      var m := moves[events[n].move];
      && m.slot == slot && events[n].caughtUp && StepFor(before, m, true) == Commit && At(on, before, m, Copying)
      && before.owner[slot] == Some(m.src) && after.owner[slot] == Some(m.dst)
  {
    hide Drive, StepFor;
    var before, m := Run(on, v, moves, events[..n]), moves[events[n].move];
    assert events[..n + 1][..n] == events[..n];
    RunOnTrack(on, v, moves, events[..n]);
    VisitMeans(on, before, m, events[n].caughtUp, StageOf(before, m));
  }

  /** No run ever leaves an owned slot without an owner. */
  lemma NeverUnassigned(on: Reader, v: View, moves: seq<SlotMove>, events: seq<Event>, slot: nat)
    requires Startable(on, v, moves) && EventsOk(moves, events) && slot < SLOTS && v.owner[slot].Some?
    ensures Run(on, v, moves, events).owner[slot].Some?
  {
    RunOnTrack(on, v, moves, events);
    if !Unplanned(moves, slot) {
      var x :| 0 <= x < |moves| && moves[x].slot == slot;
      assert At(on, Run(on, v, moves, events), moves[x], StageOf(Run(on, v, moves, events), moves[x]));
    }
  }

  // ----- progress -----

  function StepsLeft(s: Stage): nat
  {
    match s case Waiting => 2 case Copying => 1 case Finished => 0
  }

  ghost function WorkLeft(v: View, moves: seq<SlotMove>, k: nat): nat
    requires Sized(v) && k <= |moves| && forall x :: 0 <= x < |moves| ==> moves[x].slot < SLOTS
  {
    if k == 0 then 0 else WorkLeft(v, moves, k - 1) + StepsLeft(StageOf(v, moves[k - 1]))
  }

  lemma {:induction false} WorkAfter(v: View, w: View, moves: seq<SlotMove>, x: nat, k: nat)
    requires Sized(v) && Sized(w) && k <= |moves| && x < |moves|
    requires forall y :: 0 <= y < |moves| ==> moves[y].slot < SLOTS
    requires forall y :: 0 <= y < |moves| && y != x ==> StageOf(w, moves[y]) == StageOf(v, moves[y])
    ensures WorkLeft(w, moves, k) == WorkLeft(v, moves, k) +
      if x < k then StepsLeft(StageOf(w, moves[x])) - StepsLeft(StageOf(v, moves[x])) else 0
  {
    hide StageOf, StepsLeft;
    if k > 0 {
      WorkAfter(v, w, moves, x, k - 1);
    }
  }

  /** The controller can tell that a migration has started: it reads the map of the source or of the destination. */
  ghost predicate Sees(on: Reader, v: View, m: SlotMove)
    requires m.src in v.nodes && m.dst in v.nodes
  {
    on.OneMap? || on.ep == v.nodes[m.src] || on.ep == v.nodes[m.dst]
  }

  /**
   A visit that starts or commits takes the run one step closer to done; one that waits or finds the move done
   changes nothing, and neither does starting a migration that the controller cannot see.
  */
  lemma VisitMakesProgress(on: Reader, v0: View, v: View, moves: seq<SlotMove>, e: Event)
    requires Startable(on, v0, moves) && OnTrack(on, v0, v, moves) && e.move < |moves|
    ensures var m := moves[e.move]; var w := Drive(on, v, m, e.caughtUp);
      && m.src in v.nodes && m.dst in v.nodes
      && if StepFor(v, m, e.caughtUp) in {AwaitCopy, Done} || !Sees(on, v, m) then w == v
      else WorkLeft(w, moves, |moves|) == WorkLeft(v, moves, |moves|) - 1
  {
    hide Drive, StepFor, WorkLeft;
    var m := moves[e.move];
    var w := Drive(on, v, m, e.caughtUp);
    VisitMeans(on, v, m, e.caughtUp, StageOf(v, m));
    forall y | 0 <= y < |moves| && y != e.move ensures StageOf(w, moves[y]) == StageOf(v, moves[y]) {
      assert moves[y].slot != m.slot;
    }
    WorkAfter(v, w, moves, e.move, |moves|);
  }

  // ----- what the controller cannot see -----

  /** The committed command an action stands for. */
  ghost function CommandFor(m: SlotMove, a: SetSlotAction): L.ConfigCmd
  {
    match a
    case MigratingTo(slot, dest) => L.SetSlotMigrating(slot, dest)
    case ImportingFrom(slot, src) => L.SetSlotImporting(slot, src, m.dst)
    case NodeIs(slot, owner) => L.SetSlotOwner(slot, owner)
  }

  /** What an action does to a node's map is what applying the committed command does there. */
  lemma ActIsCommitted(v: View, self: NodeEntry, m: SlotMove, a: SetSlotAction)
    requires L.Sized(v) && a.slot < SLOTS
    ensures Act(Node(self.Ep()), v, m, a) == L.Effect(v, self, CommandFor(m, a))
  {
  }

  lemma {:induction false} UnseenStaysWaiting(on: Reader, v: View, moves: seq<SlotMove>, events: seq<Event>, x: nat)
    requires Startable(on, v, moves) && EventsOk(moves, events) && x < |moves| && At(on, v, moves[x], Waiting)
    requires !Sees(on, v, moves[x])
    ensures At(on, Run(on, v, moves, events), moves[x], Waiting)
  {
    hide Drive;
    if events != [] {
      var n := |events| - 1;
      UnseenStaysWaiting(on, v, moves, events[..n], x);
      RunOnTrack(on, v, moves, events[..n]);
      var before, m := Run(on, v, moves, events[..n]), moves[events[n].move];
      assert At(on, before, m, StageOf(before, m));
      VisitMeans(on, before, m, events[n].caughtUp, StageOf(before, m));
    }
  }

  ghost predicate Finishes(on: Reader, v: View, moves: seq<SlotMove>, events: seq<Event>, x: nat)
    requires Sized(v)
  {
    EventsOk(moves, events) && x < |moves| && At(on, Run(on, v, moves, events), moves[x], Finished)
  }

  /**
   Some run finishes a move if and only if the controller reads the source's or the destination's map. Anywhere
   else a started migration leaves no tag, and every visit proposes to start it again.
  */
  lemma FinishesExactlyWhenSeen(on: Reader, v: View, moves: seq<SlotMove>, x: nat)
    requires Startable(on, v, moves) && x < |moves| && At(on, v, moves[x], Waiting)
    ensures Sees(on, v, moves[x]) <==> exists events :: Finishes(on, v, moves, events, x)
  {
    hide Drive;
    if Sees(on, v, moves[x]) {
      SeenFinishesInTwo(on, v, moves, x);
    } else {
      forall events ensures !Finishes(on, v, moves, events, x) {
        if EventsOk(moves, events) {
          UnseenStaysWaiting(on, v, moves, events, x);
        }
      }
    }
  }

  /** A third node that reads its own map sees nothing of a move between two others. */
  lemma BystanderSeesNothing(a: NodeEntry, b: NodeEntry, c: Endpoint)
    requires a.id != b.id && c != a.Ep() && c != b.Ep()
    ensures var v := View(map[a.id := a.Ep(), b.id := b.Ep()], Nones()[0 := Some(a.id)], Nones(), Nones(), 0);
      var m := SlotMove(0, a.id, b.id);
      Startable(Node(c), v, [m]) && !Sees(Node(c), v, m)
  {
  }

  lemma SeenFinishesInTwo(on: Reader, v: View, moves: seq<SlotMove>, x: nat)
    requires Startable(on, v, moves) && x < |moves| && At(on, v, moves[x], Waiting) && Sees(on, v, moves[x])
    ensures Finishes(on, v, moves, [Event(x, false), Event(x, true)], x)
  {
    hide Drive;
    var one, two := [Event(x, false)], [Event(x, false), Event(x, true)];
    assert one[..0] == [] && two[..1] == one;
    forall y | 0 <= y < |moves| ensures moves[y].slot < SLOTS {
      assert At(on, v, moves[y], Waiting);
    }
    assert EventsOk(moves, one) && EventsOk(moves, two) && EventsOk(moves, []);
    assert Run(on, v, moves, []) == v;
    VisitMeans(on, v, moves[x], false, Waiting);
    assert Run(on, v, moves, one) == Drive(on, v, moves[x], false);
    VisitMeans(on, Run(on, v, moves, one), moves[x], true, Copying);
  }

  // ----- restarts -----

  /** The moves not yet finished among the first `k`, in plan order. */
  ghost function Pending(v: View, moves: seq<SlotMove>, k: nat): seq<SlotMove>
    requires Sized(v) && k <= |moves| && forall x :: 0 <= x < |moves| ==> moves[x].slot < SLOTS
  {
    if k == 0 then []
    else Pending(v, moves, k - 1) + if StageOf(v, moves[k - 1]) == Finished then [] else [moves[k - 1]]
  }

  /** The owner array of a view, in table indices. */
  ghost function Indices(nodes: seq<NodeEntry>, v: View): (r: seq<u16>)
    requires |nodes| <= UNASSIGNED
    ensures |r| == |v.owner|
    ensures forall k :: 0 <= k < |r| ==> r[k] == IndexOf(nodes, v.owner[k])
  {
    seq(|v.owner|, k requires 0 <= k < |v.owner| => IndexOf(nodes, v.owner[k]))
  }

  ghost function IndexOf(nodes: seq<NodeEntry>, id: Option<Str>): u16
    requires |nodes| <= UNASSIGNED
  {
    if id.Some? && Position(nodes, id.value).Some? then Position(nodes, id.value).value else UNASSIGNED
  }

  lemma IndicesFit(nodes: seq<NodeEntry>, v: View)
    requires 0 < |nodes| <= UNASSIGNED
    ensures MapOk(Indices(nodes, v), |nodes|)
  {
  }

  /** What the planner would say about the view right now. */
  ghost function Replan(nodes: seq<NodeEntry>, v: View): (r: seq<SlotMove>)
    requires 0 < |nodes| <= UNASSIGNED
  {
    IndicesFit(nodes, v);
    PlanInTable(Indices(nodes, v), |nodes|);
    Named(nodes, Plan(Indices(nodes, v), |nodes|))
  }

  lemma IndexFinds(nodes: seq<NodeEntry>, id: Option<Str>)
    requires |nodes| <= UNASSIGNED && IndexOf(nodes, id) < |nodes|
    ensures id == Some(nodes[IndexOf(nodes, id)].id)
  {
  }

  /** A planned move starts at its source, goes to another known node, and shares its slot with no other move. */
  lemma PlanIsStartable(on: Reader, nodes: seq<NodeEntry>, v: View)
    requires 0 < |nodes| <= UNASSIGNED && DistinctIds(nodes)
    requires Sized(v) && v.nodes == NodesOf(nodes) && v.mig == Nones()
    ensures Startable(on, v, Replan(nodes, v)) && EventsOk(Replan(nodes, v), [])
  {
    hide Plan, Flat, Ups, Downs, TargetOf, Indices, IndexOf, NodesOf, Position, Drop, Named;
    var owner, n := Indices(nodes, v), |nodes|;
    IndicesFit(nodes, v);
    PlanInTable(owner, n);
    NodesAt(nodes);
    var plan, moves := Plan(owner, n), Replan(nodes, v);
    forall x | 0 <= x < |moves| ensures At(on, v, moves[x], Waiting) {
      ReplanAfterCommit(owner, n, x);
      IndexFinds(nodes, v.owner[plan[x].slot]);
      assert nodes[plan[x].src].id != nodes[plan[x].dst].id;
    }
    forall x, y | 0 <= x < y < |moves| ensures moves[x].slot != moves[y].slot {
      if moves[x].slot == moves[y].slot {
        PlanSlotsDistinct(owner, n, x, y);
      }
    }
    forall x | 0 <= x < |moves| ensures moves[x].slot < SLOTS {
      assert At(on, v, moves[x], Waiting);
    }
  }

  lemma NamedDrop(nodes: seq<NodeEntry>, plan: seq<Move>, x: nat)
    requires forall y :: 0 <= y < |plan| ==> plan[y].src < |nodes| && plan[y].dst < |nodes|
    requires x < |plan|
    ensures forall y :: 0 <= y < |Drop(plan, x)| ==> Drop(plan, x)[y].src < |nodes| && Drop(plan, x)[y].dst < |nodes|
    ensures Named(nodes, Drop(plan, x)) == Drop(Named(nodes, plan), x)
  {
  }

  /** Flipping the owner of the slot of the `x`-th replanned move drops that move from the next plan. */
  lemma ReplanDropsCommitted(nodes: seq<NodeEntry>, v: View, w: View, x: nat)
    requires 0 < |nodes| <= UNASSIGNED && DistinctIds(nodes) && Sized(v) && Sized(w) && x < |Replan(nodes, v)|
    requires var m := Replan(nodes, v)[x]; m.slot < SLOTS && w.owner == v.owner[m.slot := Some(m.dst)]
    ensures Replan(nodes, w) == Drop(Replan(nodes, v), x)
    ensures Targets(Indices(nodes, w), |nodes|) == Targets(Indices(nodes, v), |nodes|)
  {
    hide Plan, Position, Named, Drop, IndexOf, Flat, Ups, Downs, TargetOf, Indices, Targets;
    var owner, n := Indices(nodes, v), |nodes|;
    IndicesFit(nodes, v);
    PlanInTable(owner, n);
    var plan := Plan(owner, n);
    ReplanAfterCommit(owner, n, x);
    assert Named(nodes, plan)[x] == SlotMove(plan[x].slot, nodes[plan[x].src].id, nodes[plan[x].dst].id);
    IndexOfEntry(nodes, plan[x].dst);
    assert Indices(nodes, w) == owner[plan[x].slot := plan[x].dst];
    NamedDrop(nodes, plan, x);
  }

  lemma IndexOfEntry(nodes: seq<NodeEntry>, i: nat)
    requires |nodes| <= UNASSIGNED && DistinctIds(nodes) && i < |nodes|
    ensures IndexOf(nodes, Some(nodes[i].id)) == i
  {
  }

  lemma {:induction false} PendingSame(v: View, w: View, moves: seq<SlotMove>, k: nat)
    requires Sized(v) && Sized(w) && k <= |moves| && forall x :: 0 <= x < |moves| ==> moves[x].slot < SLOTS
    requires forall y :: 0 <= y < k ==> (StageOf(w, moves[y]) == Finished <==> StageOf(v, moves[y]) == Finished)
    ensures Pending(w, moves, k) == Pending(v, moves, k)
  {
    if k > 0 {
      PendingSame(v, w, moves, k - 1);
    }
  }

  lemma {:induction false} PendingDrops(v: View, w: View, moves: seq<SlotMove>, x: nat, k: nat)
    requires Sized(v) && Sized(w) && x < k <= |moves| && forall y :: 0 <= y < |moves| ==> moves[y].slot < SLOTS
    requires StageOf(v, moves[x]) != Finished && StageOf(w, moves[x]) == Finished
    requires forall y :: 0 <= y < |moves| && y != x ==> StageOf(w, moves[y]) == StageOf(v, moves[y])
    ensures |Pending(v, moves, x)| < |Pending(v, moves, k)|
    ensures Pending(v, moves, k)[|Pending(v, moves, x)|] == moves[x]
    ensures Pending(w, moves, k) == Drop(Pending(v, moves, k), |Pending(v, moves, x)|)
  {
    hide StageOf;
    if x == k - 1 {
      PendingSame(v, w, moves, x);
      assert Drop(Pending(v, moves, x) + [moves[x]], |Pending(v, moves, x)|) == Pending(v, moves, x);
    } else {
      PendingDrops(v, w, moves, x, k - 1);
      assert StageOf(v, moves[k - 1]) != Finished ==>
        Drop(Pending(v, moves, k), |Pending(v, moves, x)|) ==
        Drop(Pending(v, moves, k - 1), |Pending(v, moves, x)|) + [moves[k - 1]];
    }
  }

  lemma VisitKeepsPlan(on: Reader, nodes: seq<NodeEntry>, v0: View, v: View, moves: seq<SlotMove>, e: Event)
    requires 0 < |nodes| <= UNASSIGNED && DistinctIds(nodes)
    requires Startable(on, v0, moves) && OnTrack(on, v0, v, moves) && e.move < |moves|
    requires Replan(nodes, v) == Pending(v, moves, |moves|)
    ensures var w := Drive(on, v, moves[e.move], e.caughtUp);
      && Replan(nodes, w) == Pending(w, moves, |moves|)
      && Targets(Indices(nodes, w), |nodes|) == Targets(Indices(nodes, v), |nodes|)
  {
    hide Drive, StepFor, Replan, Pending, Indices, Targets;
    var m := moves[e.move];
    var w := Drive(on, v, m, e.caughtUp);
    VisitMeans(on, v, m, e.caughtUp, StageOf(v, m));
    forall y | 0 <= y < |moves| && y != e.move ensures StageOf(w, moves[y]) == StageOf(v, moves[y]) {
      assert moves[y].slot != m.slot;
    }
    if StageOf(v, m) == Copying && e.caughtUp {
      PendingDrops(v, w, moves, e.move, |moves|);
      assert w.owner == v.owner[m.slot := Some(m.dst)];
      ReplanDropsCommitted(nodes, v, w, |Pending(v, moves, e.move)|);
    } else {
      PendingSame(v, w, moves, |moves|);
      assert w.owner == v.owner;
      SameOwnersSamePlan(nodes, v, w);
    }
  }

  lemma SameOwnersSamePlan(nodes: seq<NodeEntry>, v: View, w: View)
    requires 0 < |nodes| <= UNASSIGNED && v.owner == w.owner
    ensures Replan(nodes, v) == Replan(nodes, w) && Indices(nodes, v) == Indices(nodes, w)
  {
  }

  /**
   A restart anywhere resumes the same run: planning afresh at any point of any run gives exactly the
   moves of the original plan that are not finished, in the same order.
  */
  lemma {:induction false} RestartResumes(on: Reader, nodes: seq<NodeEntry>, v: View, events: seq<Event>)
    requires 0 < |nodes| <= UNASSIGNED && DistinctIds(nodes)
    requires Startable(on, v, Replan(nodes, v)) && EventsOk(Replan(nodes, v), events)
    ensures var moves := Replan(nodes, v);
      var w := Run(on, v, moves, events);
      && Replan(nodes, w) == Pending(w, moves, |moves|)
      && Targets(Indices(nodes, w), |nodes|) == Targets(Indices(nodes, v), |nodes|)
  {
    hide Drive, Replan, Pending, Indices, Targets;
    var moves := Replan(nodes, v);
    if events == [] {
      AllPending(on, v, moves, |moves|);
      assert moves[..|moves|] == moves;
    } else {
      var n := |events| - 1;
      RestartResumes(on, nodes, v, events[..n]);
      RunOnTrack(on, v, moves, events[..n]);
      VisitKeepsPlan(on, nodes, v, Run(on, v, moves, events[..n]), moves, events[n]);
    }
  }

  lemma {:induction false} AllPending(on: Reader, v: View, moves: seq<SlotMove>, k: nat)
    requires Startable(on, v, moves) && k <= |moves|
    ensures Pending(v, moves, k) == moves[..k]
  {
    if k > 0 {
      AllPending(on, v, moves, k - 1);
      assert At(on, v, moves[k - 1], Waiting);
    }
  }

  /** When every visit answers Done, every node is exactly at its balanced target. */
  lemma DoneMeansBalanced(on: Reader, nodes: seq<NodeEntry>, v: View, events: seq<Event>)
    requires 0 < |nodes| <= UNASSIGNED && DistinctIds(nodes)
    requires Startable(on, v, Replan(nodes, v)) && EventsOk(Replan(nodes, v), events)
    requires var moves := Replan(nodes, v); var w := Run(on, v, moves, events);
      forall x :: 0 <= x < |moves| ==> StepFor(w, moves[x], false) == Done
    ensures var w := Run(on, v, Replan(nodes, v), events);
      AtTargets(Indices(nodes, w), Targets(Indices(nodes, v), |nodes|))
  {
    hide Run, Plan, Targets, AtTargets, Indices;
    var moves := Replan(nodes, v);
    var w := Run(on, v, moves, events);
    RestartResumes(on, nodes, v, events);
    NonePending(w, moves, |moves|);
    EmptyPlanAtTargets(Indices(nodes, w), |nodes|);
  }

  lemma {:induction false} NonePending(v: View, moves: seq<SlotMove>, k: nat)
    requires Sized(v) && k <= |moves| && forall x :: 0 <= x < |moves| ==> moves[x].slot < SLOTS
    requires forall x :: 0 <= x < |moves| ==> StepFor(v, moves[x], false) == Done
    ensures Pending(v, moves, k) == []
  {
    if k > 0 {
      NonePending(v, moves, k - 1);
    }
  }
}
