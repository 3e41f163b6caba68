/**
 Arming a rebalance in batches: the command that starts the migrations of the first planned moves whose slots are
 not migrating on the map it reads, and what running it again arms.
*/
module RebalanceApply {
  import opened Core
  import opened SlotTypes
  import opened RebalancePlanner
  import opened RebalanceDriver
  import Log = ReplicatedLog

  // ----- the batch -----

  ghost predicate InRange(mig: seq<Option<Migration>>, moves: seq<SlotMove>)
  {
    forall i :: 0 <= i < |moves| ==> moves[i].slot < |mig|
  }

  /** The moves whose slot carries no tag, in plan order. */
  ghost function Untagged(mig: seq<Option<Migration>>, moves: seq<SlotMove>): (r: seq<SlotMove>)
    requires InRange(mig, moves)
    ensures forall m :: m in r <==> m in moves && mig[m.slot] == None
  {
    if moves == [] then []
    else
      var before, last := Untagged(mig, moves[..|moves| - 1]), moves[|moves| - 1];
      assert moves == moves[..|moves| - 1] + [last];
      if mig[last.slot] == None then before + [last] else before
  }

  ghost function Take(moves: seq<SlotMove>, max: nat): seq<SlotMove>
  {
    if |moves| <= max then moves else moves[..max]
  }

  /** What one call arms; the command's own `max` is 128. */
  ghost function Batch(mig: seq<Option<Migration>>, moves: seq<SlotMove>, max: nat): seq<SlotMove>
    requires InRange(mig, moves)
  {
    Take(Untagged(mig, moves), max)
  }

  /** A source tag and a destination tag per move. */
  ghost function Commands(moves: seq<SlotMove>): (r: seq<Log.ConfigCmd>)
    ensures |r| == 2 * |moves|
  {
    if moves == [] then []
    else
      var m := moves[|moves| - 1];
      Commands(moves[..|moves| - 1]) + [Log.SetSlotMigrating(m.slot, m.dst), Log.SetSlotImporting(m.slot, m.src, m.dst)]
  }

  lemma UntaggedLast(mig: seq<Option<Migration>>, moves: seq<SlotMove>)
    requires InRange(mig, moves)
    ensures Untagged(mig, []) == []
    ensures moves != [] ==> var n := |moves| - 1;
      && InRange(mig, moves[..n]) && moves[n].slot < |mig|
      && Untagged(mig, moves) == Untagged(mig, moves[..n]) + if mig[moves[n].slot] == None then [moves[n]] else []
  {
    if moves != [] {
      var before := Untagged(mig, moves[..|moves| - 1]);
      assert before + [] == before;
    }
  }

  lemma {:induction false} UntaggedAppend(mig: seq<Option<Migration>>, a: seq<SlotMove>, b: seq<SlotMove>)
    requires InRange(mig, a) && InRange(mig, b) && InRange(mig, a + b)
    ensures Untagged(mig, a + b) == Untagged(mig, a) + Untagged(mig, b)
    decreases |b|
  {
    hide Untagged;
    UntaggedLast(mig, b);
    if b == [] {
      assert a + b == a;
      assert Untagged(mig, a) + [] == Untagged(mig, a);
    } else {
      var front := b[..|b| - 1];
      assert (a + b)[..|a + b| - 1] == a + front;
      UntaggedLast(mig, a + b);
      UntaggedAppend(mig, a, front);
    }
  }

  /** Two commands per move, in the order of the moves: the source leaves first, then the destination imports. */
  lemma {:induction false} CommandsAt(moves: seq<SlotMove>, i: nat)
    requires i < |moves|
    ensures Commands(moves)[2 * i] == Log.SetSlotMigrating(moves[i].slot, moves[i].dst)
    ensures Commands(moves)[2 * i + 1] == Log.SetSlotImporting(moves[i].slot, moves[i].src, moves[i].dst)
  {
    if i < |moves| - 1 {
      CommandsAt(moves[..|moves| - 1], i);
    }
  }

  /** Walk the plan, skip the slots that are migrating, and stop when the batch is full. */
  method RebalanceApplyCmds(moves: seq<SlotMove>, mig: seq<Option<Migration>>, max: nat)
    returns (cmds: seq<Log.ConfigCmd>)
    requires InRange(mig, moves)
    ensures cmds == Commands(Batch(mig, moves, max))
  {
    hide Untagged, Batch, Commands;
    cmds := [];
    NothingBatched(mig, max);
    for i := 0 to |moves|
      invariant InRange(mig, moves[..i]) && cmds == Commands(Batch(mig, moves[..i], max))
    {
      if |cmds| >= max * 2 {
        BatchFull(mig, moves, i, max);
        return;
      }
      BatchNext(mig, moves, i, max);
      var m := moves[i];
      if mig[m.slot] != None {
        continue;
      }
      cmds := cmds + [Log.SetSlotMigrating(m.slot, m.dst)];
      cmds := cmds + [Log.SetSlotImporting(m.slot, m.src, m.dst)];
    }
    assert moves[..|moves|] == moves;
  }

  lemma NothingBatched(mig: seq<Option<Migration>>, max: nat)
    ensures InRange(mig, []) && Commands(Batch(mig, [], max)) == []
  {
  }

  lemma BatchFull(mig: seq<Option<Migration>>, moves: seq<SlotMove>, i: nat, max: nat)
    requires i <= |moves| && InRange(mig, moves) && InRange(mig, moves[..i]) && |Batch(mig, moves[..i], max)| >= max
    ensures Batch(mig, moves, max) == Batch(mig, moves[..i], max)
  {
    hide Untagged;
    assert moves[..i] + moves[i..] == moves;
    UntaggedAppend(mig, moves[..i], moves[i..]);
  }

  lemma BatchNext(mig: seq<Option<Migration>>, moves: seq<SlotMove>, i: nat, max: nat)
    requires i < |moves| && InRange(mig, moves) && InRange(mig, moves[..i]) && |Batch(mig, moves[..i], max)| < max
    ensures InRange(mig, moves[..i + 1])
    ensures var m := moves[i]; var before := Commands(Batch(mig, moves[..i], max));
      Commands(Batch(mig, moves[..i + 1], max)) ==
      if mig[m.slot] != None then before
      else before + [Log.SetSlotMigrating(m.slot, m.dst)] + [Log.SetSlotImporting(m.slot, m.src, m.dst)]
  {
    hide Untagged;
    var m := moves[i];
    assert moves[..i + 1] == moves[..i] + [m];
    UntaggedAppend(mig, moves[..i], [m]);
    OneUntagged(mig, m);
    var batch := Batch(mig, moves[..i], max);
    if mig[m.slot] == None {
      assert Batch(mig, moves[..i + 1], max) == batch + [m];
      assert (batch + [m])[..|batch|] == batch;
    } else {
      assert Batch(mig, moves[..i + 1], max) == batch + [] == batch;
    }
  }

  lemma OneUntagged(mig: seq<Option<Migration>>, m: SlotMove)
    requires m.slot < |mig|
    ensures Untagged(mig, [m]) == if mig[m.slot] == None then [m] else []
  {
    assert [m][..0] == [];
  }

  // ----- what committing a batch does to a map -----

  /** Moves of one plan: each slot at its source, to another known node, no slot twice. */
  ghost predicate Planned(v: View, moves: seq<SlotMove>)
  {
    && Sized(v)
    && (forall i :: 0 <= i < |moves| ==> Movable(v, moves[i]))
    && (forall i, j :: 0 <= i < j < |moves| ==> moves[i].slot != moves[j].slot)
  }

  ghost predicate Movable(v: View, m: SlotMove)
    requires Sized(v)
  {
    m.slot < SLOTS && m.src != m.dst && m.src in v.nodes && m.dst in v.nodes && v.owner[m.slot] == Some(m.src)
  }

  ghost function Arm(on: Reader, v: View, m: SlotMove): (w: View)
    requires Sized(v) && m.slot < SLOTS
    ensures Sized(w)
  {
    ActAll(on, v, m, Actions(StartMigration, m))
  }

  ghost function Armed(on: Reader, v: View, batch: seq<SlotMove>): (w: View)
    requires Sized(v) && forall i :: 0 <= i < |batch| ==> batch[i].slot < SLOTS
    ensures Sized(w)
  {
    if batch == [] then v else Arm(on, Armed(on, v, batch[..|batch| - 1]), batch[|batch| - 1])
  }

  lemma ArmOne(on: Reader, v: View, m: SlotMove)
    requires Sized(v) && Movable(v, m)
    ensures var w := Arm(on, v, m);
      && w.nodes == v.nodes && w.owner == v.owner
      && w.mig == if Sees(on, v, m) then v.mig[m.slot := TagFor(on, v.nodes, m)] else v.mig
    ensures TagFor(on, v.nodes, m).Some? <==> Sees(on, v, m)
  {
    ActTwo(on, v, m, MigratingTo(m.slot, m.dst), ImportingFrom(m.slot, m.src));
  }

  /** Owners stay; of the batch, exactly the moves that this map is part of now carry a tag. */
  lemma {:induction false} ArmedMeans(on: Reader, v: View, batch: seq<SlotMove>)
    requires Planned(v, batch)
    ensures var w := Armed(on, v, batch);
      && w.nodes == v.nodes && w.owner == v.owner
      && (forall m :: m in batch ==> m.slot < SLOTS && m.src in v.nodes && m.dst in v.nodes)
      && (forall m :: m in batch ==> (w.mig[m.slot] == None <==> v.mig[m.slot] == None && !Sees(on, v, m)))
      && (forall k :: 0 <= k < SLOTS && Unplanned(batch, k) ==> w.mig[k] == v.mig[k])
  {
    hide Arm, Sees, TagFor, Unplanned;
    if batch != [] {
      var n := |batch| - 1;
      var front, last := batch[..n], batch[n];
      assert batch == front + [last];
      FrontPlanned(v, front, last);
      ArmedMeans(on, v, front);
      var u, w := Armed(on, v, front), Armed(on, v, batch);
      SameSight(on, v, u, last);
      ArmOne(on, u, last);
      OneTagMore(front, last, v.mig, u.mig, w.mig, Sees(on, v, last));
    }
  }

  lemma FrontPlanned(v: View, front: seq<SlotMove>, last: SlotMove)
    requires Planned(v, front + [last])
    ensures Planned(v, front) && Movable(v, last) && Unplanned(front, last.slot)
    ensures forall m :: m in front ==> m.slot < SLOTS
  {
    var batch := front + [last];
    assert batch[|front|] == last && forall i :: 0 <= i < |front| ==> batch[i] == front[i];
  }

  /** A tag put where the batch so far has none. */
  lemma OneTagMore(front: seq<SlotMove>, last: SlotMove, before: seq<Option<Migration>>,
                   mid: seq<Option<Migration>>, after: seq<Option<Migration>>, put: bool)
    requires |before| == |mid| == |after| == SLOTS && last.slot < SLOTS && forall m :: m in front ==> m.slot < SLOTS
    requires Unplanned(front, last.slot) && forall k :: 0 <= k < SLOTS && Unplanned(front, k) ==> mid[k] == before[k]
    requires if put then after[last.slot] != None && after == mid[last.slot := after[last.slot]] else after == mid
    ensures after[last.slot] == None <==> before[last.slot] == None && !put
    ensures forall m :: m in front ==> after[m.slot] == mid[m.slot]
    ensures forall k :: 0 <= k < SLOTS && Unplanned(front + [last], k) ==> after[k] == before[k]
  {
    forall k | 0 <= k < SLOTS && Unplanned(front + [last], k) ensures after[k] == before[k] {
      var batch := front + [last];
      assert batch[|front|] == last && forall i :: 0 <= i < |front| ==> batch[i] == front[i];
      assert Unplanned(front, k);
    }
  }

  lemma SameSight(on: Reader, v: View, w: View, m: SlotMove)
    requires Sized(v) && Sized(w) && w.nodes == v.nodes && w.owner == v.owner && Movable(v, m)
    ensures Movable(w, m) && (Sees(on, w, m) <==> Sees(on, v, m))
  {
  }

  // ----- running it again -----

  ghost function Unseen(on: Reader, v: View, moves: seq<SlotMove>): (r: seq<SlotMove>)
    requires forall m :: m in moves ==> m.src in v.nodes && m.dst in v.nodes
    ensures |r| <= |moves| && forall m :: m in r <==> m in moves && !Sees(on, v, m)
  {
    if moves == [] then []
    else
      var front, last := moves[..|moves| - 1], moves[|moves| - 1];
      assert moves == front + [last];
      if Sees(on, v, last) then Unseen(on, v, front) else Unseen(on, v, front) + [last]
  }

  lemma {:induction false} UntaggedIsUnseen(on: Reader, v: View, mig: seq<Option<Migration>>, moves: seq<SlotMove>)
    requires InRange(mig, moves) && forall m :: m in moves ==> m.src in v.nodes && m.dst in v.nodes
    requires forall m :: m in moves ==> (mig[m.slot] == None <==> !Sees(on, v, m))
    ensures Untagged(mig, moves) == Unseen(on, v, moves)
  {
    hide Sees;
    if moves != [] {
      assert moves == moves[..|moves| - 1] + [moves[|moves| - 1]];
      UntaggedIsUnseen(on, v, mig, moves[..|moves| - 1]);
    }
  }

  lemma {:induction false} SameTagsSameUntagged(
    mig: seq<Option<Migration>>, other: seq<Option<Migration>>, moves: seq<SlotMove>)
    requires InRange(mig, moves) && InRange(other, moves)
    requires forall m :: m in moves ==> (mig[m.slot] == None <==> other[m.slot] == None)
    ensures Untagged(mig, moves) == Untagged(other, moves)
  {
    if moves != [] {
      assert moves == moves[..|moves| - 1] + [moves[|moves| - 1]];
      SameTagsSameUntagged(mig, other, moves[..|moves| - 1]);
    }
  }

  /** Slots that lose no tag: filtering again is filtering what was left. */
  lemma {:induction false} UntaggedAgain(
    mig: seq<Option<Migration>>, later: seq<Option<Migration>>, moves: seq<SlotMove>)
    requires InRange(mig, moves) && InRange(later, moves)
    requires forall m :: m in moves && later[m.slot] == None ==> mig[m.slot] == None
    ensures InRange(later, Untagged(mig, moves))
    ensures Untagged(later, moves) == Untagged(later, Untagged(mig, moves))
  {
    if moves != [] {
      var front, last := moves[..|moves| - 1], moves[|moves| - 1];
      assert moves == front + [last];
      UntaggedAgain(mig, later, front);
      if mig[last.slot] == None {
        UntaggedAppend(later, Untagged(mig, front), [last]);
        OneUntagged(later, last);
      }
    }
  }

  /** The untagged moves of a plan are a plan, and so is any part of them. */
  lemma {:induction false} UntaggedPlanned(v: View, moves: seq<SlotMove>)
    requires Planned(v, moves) && InRange(v.mig, moves)
    ensures Planned(v, Untagged(v.mig, moves))
  {
    hide Movable;
    if moves != [] {
      var front, last := moves[..|moves| - 1], moves[|moves| - 1];
      UntaggedPlanned(v, front);
      var before := Untagged(v.mig, front);
      forall i | 0 <= i < |before| ensures before[i].slot != last.slot {
        assert before[i] in front;
      }
    }
  }

  lemma PlanInRange(v: View, moves: seq<SlotMove>)
    requires Planned(v, moves)
    ensures InRange(v.mig, moves)
  {
    forall i | 0 <= i < |moves| ensures moves[i].slot < |v.mig| {
      assert Movable(v, moves[i]);
    }
  }

  /**
   After one call is committed, the moves still untagged on the map it reads are those of the batch that this map is
   not part of, and then the rest of the plan.
  */
  lemma AfterOneCall(on: Reader, v: View, moves: seq<SlotMove>, max: nat)
    requires Planned(v, moves) && InRange(v.mig, moves)
    ensures var all := Untagged(v.mig, moves);
      var batch := Batch(v.mig, moves, max);
      && (forall m :: m in batch ==> m.slot < SLOTS && m.src in v.nodes && m.dst in v.nodes)
      && InRange(Armed(on, v, batch).mig, moves)
      && Untagged(Armed(on, v, batch).mig, moves) == Unseen(on, v, batch) + all[|batch|..]
  {
    hide Untagged, Unseen, Sees, Armed;
    var all, batch := Untagged(v.mig, moves), Batch(v.mig, moves, max);
    var rest := all[|batch|..];
    assert all == batch + rest;
    UntaggedPlanned(v, moves);
    PlanParts(v, batch, rest);
    PlanInRange(v, batch);
    ArmedMeans(on, v, batch);
    var w := Armed(on, v, batch);
    forall m | m in moves && w.mig[m.slot] == None ensures v.mig[m.slot] == None {
      NoTagLost(v, w, batch, m);
    }
    UntaggedAgain(v.mig, w.mig, moves);
    UntaggedAppend(w.mig, batch, rest);
    UntaggedIsUnseen(on, v, w.mig, batch);
    assert forall m :: m in rest ==> m in all;
    SameTagsSameUntagged(w.mig, v.mig, rest);
    AllUntagged(v.mig, rest);
  }

  lemma PlanParts(v: View, batch: seq<SlotMove>, rest: seq<SlotMove>)
    requires Planned(v, batch + rest)
    ensures Planned(v, batch) && InRange(v.mig, rest)
    ensures forall m :: m in rest ==> m.slot < SLOTS && Unplanned(batch, m.slot)
  {
    var all := batch + rest;
    forall i | 0 <= i < |batch| ensures Movable(v, batch[i]) {
      assert Movable(v, all[i]);
    }
    forall i, j | 0 <= i < j < |batch| ensures batch[i].slot != batch[j].slot {
      assert all[i].slot != all[j].slot;
    }
    forall j | 0 <= j < |rest| ensures rest[j].slot < SLOTS && Unplanned(batch, rest[j].slot) {
      assert Movable(v, all[|batch| + j]);
      forall i | 0 <= i < |batch| ensures batch[i].slot != rest[j].slot {
        assert all[i].slot != all[|batch| + j].slot;
      }
    }
  }

  lemma NoTagLost(v: View, w: View, batch: seq<SlotMove>, m: SlotMove)
    requires Sized(v) && Sized(w) && m.slot < SLOTS && w.mig[m.slot] == None
    requires forall x :: x in batch ==> x.slot < SLOTS && (w.mig[x.slot] == None ==> v.mig[x.slot] == None)
    requires forall k :: 0 <= k < SLOTS && Unplanned(batch, k) ==> w.mig[k] == v.mig[k]
    ensures v.mig[m.slot] == None
  {
    if !Unplanned(batch, m.slot) {
      var i :| 0 <= i < |batch| && batch[i].slot == m.slot;
      assert batch[i] in batch;
    }
  }

  lemma {:induction false} AllUntagged(mig: seq<Option<Migration>>, moves: seq<SlotMove>)
    requires InRange(mig, moves) && forall m :: m in moves ==> mig[m.slot] == None
    ensures Untagged(mig, moves) == moves
  {
    if moves != [] {
      assert moves == moves[..|moves| - 1] + [moves[|moves| - 1]];
      AllUntagged(mig, moves[..|moves| - 1]);
    }
  }

  /**
   Running the command again, on the same node, after its batch is committed. A move of the batch is armed once more
   if and only if the node is neither its source nor its destination. A new move is armed if and only if the plan had
   more untagged moves than one batch and the node is part of some move of the batch.
  */
  lemma SecondCall(on: Reader, v: View, moves: seq<SlotMove>, max: nat)
    requires Planned(v, moves) && InRange(v.mig, moves)
    ensures var all := Untagged(v.mig, moves);
      var batch := Batch(v.mig, moves, max);
      && (forall m :: m in batch ==> m.slot < SLOTS && m.src in v.nodes && m.dst in v.nodes)
      && InRange(Armed(on, v, batch).mig, moves)
      && var again := Batch(Armed(on, v, batch).mig, moves, max);
      && (forall m :: m in batch ==> (m in again <==> !Sees(on, v, m)))
      && ((exists m :: m in again && m !in batch) <==> |all| > max && exists m :: m in batch && Sees(on, v, m))
  {
    hide Untagged, Unseen, Sees, Armed;
    var all, batch := Untagged(v.mig, moves), Batch(v.mig, moves, max);
    AfterOneCall(on, v, moves, max);
    var unseen, rest := Unseen(on, v, batch), all[|batch|..];
    var again := Take(unseen + rest, max);
    UntaggedPlanned(v, moves);
    assert all == batch + rest;
    Disjoint(v, batch, rest);
    assert forall m :: m in unseen ==> m in again by {
      assert forall i :: 0 <= i < |unseen| ==> unseen[i] == again[i];
    }
    UnseenCount(on, v, batch);
    if |all| > max && |unseen| < |batch| {
      assert again[|unseen|] == rest[0];
    } else {
      assert forall m :: m in again ==> m in unseen;
    }
  }

  lemma Disjoint(v: View, batch: seq<SlotMove>, rest: seq<SlotMove>)
    requires Planned(v, batch + rest)
    ensures forall m :: m in rest ==> m !in batch
  {
    PlanParts(v, batch, rest);
  }

  /** Some move is seen exactly if not all are unseen. */
  lemma {:induction false} UnseenCount(on: Reader, v: View, moves: seq<SlotMove>)
    requires forall m :: m in moves ==> m.src in v.nodes && m.dst in v.nodes
    ensures |Unseen(on, v, moves)| < |moves| <==> exists m :: m in moves && Sees(on, v, m)
  {
    hide Sees;
    if moves != [] {
      assert moves == moves[..|moves| - 1] + [moves[|moves| - 1]];
      UnseenCount(on, v, moves[..|moves| - 1]);
    }
  }

  lemma {:induction false} NoneSeen(on: Reader, v: View, moves: seq<SlotMove>)
    requires forall m :: m in moves ==> m.src in v.nodes && m.dst in v.nodes && !Sees(on, v, m)
    ensures Unseen(on, v, moves) == moves
  {
    hide Sees;
    if moves != [] {
      assert moves == moves[..|moves| - 1] + [moves[|moves| - 1]];
      NoneSeen(on, v, moves[..|moves| - 1]);
    }
  }

  /** On a node that is part of no move of the batch, every call arms the very same batch. */
  lemma SameBatchAgain(on: Reader, v: View, moves: seq<SlotMove>, max: nat)
    requires Planned(v, moves) && InRange(v.mig, moves)
    requires forall m :: m in Batch(v.mig, moves, max) ==> m.src in v.nodes && m.dst in v.nodes && !Sees(on, v, m)
    ensures var batch := Batch(v.mig, moves, max);
      && (forall m :: m in batch ==> m.slot < SLOTS)
      && InRange(Armed(on, v, batch).mig, moves)
      && Batch(Armed(on, v, batch).mig, moves, max) == batch
  {
    hide Untagged, Unseen, Sees, Armed;
    AfterOneCall(on, v, moves, max);
    NoneSeen(on, v, Batch(v.mig, moves, max));
    var all, batch := Untagged(v.mig, moves), Batch(v.mig, moves, max);
    assert batch + all[|batch|..] == all;
  }

  /** Such a node: a third one, while slot 0 is to move between two others. */
  lemma ThirdNodeArmsAgain(a: NodeEntry, b: NodeEntry, c: Endpoint)
    requires a.id != b.id && c != a.Ep() && c != b.Ep()
    ensures var v := View(map[a.id := a.Ep(), b.id := b.Ep()], Nones()[0 := Some(a.id)], Nones(), Nones(), 0);
      var moves := [SlotMove(0, a.id, b.id)];
      && Planned(v, moves) && InRange(v.mig, moves) && Batch(v.mig, moves, 1) == moves
      && Batch(Armed(Node(c), v, moves).mig, moves, 1) == moves
  {
    var v := View(map[a.id := a.Ep(), b.id := b.Ep()], Nones()[0 := Some(a.id)], Nones(), Nones(), 0);
    var moves := [SlotMove(0, a.id, b.id)];
    assert Movable(v, moves[0]);
    OneUntagged(v.mig, moves[0]);
    SameBatchAgain(Node(c), v, moves, 1);
  }

  /** What the commands of a batch do on a node is what arming it there does. */
  ghost function Applied(v: View, self: NodeEntry, cmds: seq<Log.ConfigCmd>): (w: View)
    requires Log.Sized(v) && Log.LogOk(cmds)
    ensures Log.Sized(w)
  {
    if cmds == [] then v else Log.Effect(Applied(v, self, cmds[..|cmds| - 1]), self, cmds[|cmds| - 1])
  }

  lemma {:induction false} CommandsArm(v: View, self: NodeEntry, batch: seq<SlotMove>)
    requires Log.Sized(v) && forall i :: 0 <= i < |batch| ==> batch[i].slot < SLOTS
    ensures Log.LogOk(Commands(batch)) && Applied(v, self, Commands(batch)) == Armed(Node(self.Ep()), v, batch)
  {
    hide Log.Effect, Act, ActAll, NodeEntry.Ep, Applied;
    if batch == [] {
      NothingApplied(v, self);
    } else {
      var n := |batch| - 1;
      var front, m := batch[..n], batch[n];
      CommandsArm(v, self, front);
      var before := Commands(front);
      var a, b := Log.SetSlotMigrating(m.slot, m.dst), Log.SetSlotImporting(m.slot, m.src, m.dst);
      TwoApplied(v, self, before, a, b);
      var u := Applied(v, self, before);
      ActIsCommitted(u, self, m, MigratingTo(m.slot, m.dst));
      ActIsCommitted(Log.Effect(u, self, a), self, m, ImportingFrom(m.slot, m.src));
      ActTwo(Node(self.Ep()), u, m, MigratingTo(m.slot, m.dst), ImportingFrom(m.slot, m.src));
    }
  }

  lemma NothingApplied(v: View, self: NodeEntry)
    requires Log.Sized(v)
    ensures Applied(v, self, []) == v
  {
  }

  lemma TwoApplied(v: View, self: NodeEntry, cmds: seq<Log.ConfigCmd>, a: Log.ConfigCmd, b: Log.ConfigCmd)
    requires Log.Sized(v) && Log.LogOk(cmds) && Log.CmdOk(a) && Log.CmdOk(b)
    ensures Log.LogOk(cmds + [a, b])
    ensures Applied(v, self, cmds + [a, b]) == Log.Effect(Log.Effect(Applied(v, self, cmds), self, a), self, b)
  {
    hide Log.Effect, Log.CmdOk;
    var one, two := cmds + [a], cmds + [a, b];
    assert two[..|two| - 1] == one && one[..|one| - 1] == cmds;
  }

  // ----- on the planner's own moves -----

  /** The planner's moves are such a plan, whatever is migrating, and arming them does not change them. */
  lemma PlanStaysPlanned(on: Reader, nodes: seq<NodeEntry>, v: View, max: nat)
    requires 0 < |nodes| <= UNASSIGNED && DistinctIds(nodes) && Sized(v) && v.nodes == NodesOf(nodes)
    ensures var moves := Replan(nodes, v);
      && Planned(v, moves) && InRange(v.mig, moves)
      && (forall m :: m in Batch(v.mig, moves, max) ==> m.slot < SLOTS)
      && Replan(nodes, Armed(on, v, Batch(v.mig, moves, max))) == moves
  {
    hide Replan, Armed, NodesOf, Untagged, Position;
    var still, moves := v.(mig := Nones()), Replan(nodes, v);
    SameOwnersSamePlan(nodes, v, still);
    PlanIsStartable(on, nodes, still);
    forall i | 0 <= i < |moves| ensures Movable(v, moves[i]) {
      assert At(on, still, moves[i], Waiting);
    }
    PlanInRange(v, moves);
    UntaggedPlanned(v, moves);
    var all, batch := Untagged(v.mig, moves), Batch(v.mig, moves, max);
    assert all == batch + all[|batch|..];
    PlanParts(v, batch, all[|batch|..]);
    ArmedMeans(on, v, batch);
    SameOwnersSamePlan(nodes, v, Armed(on, v, batch));
  }
}
