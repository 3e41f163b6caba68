/** The planner as the program runs it: counts from the ranges, then one pass over donors with a receiver cursor. */
module RebalancePlanner {
  import opened Core
  import opened SlotTypes
  import opened Ranges
  import opened Rebalance
  import opened RebalanceOrder

  datatype RebalanceTarget = RebalanceTarget(id: Str, current: nat, target: nat)

  datatype SlotMove = SlotMove(slot: nat, src: Str, dst: Str)

  // ----- the dry run -----

  function Sum(xs: seq<nat>): nat
  {
    if xs == [] then 0 else Sum(xs[..|xs| - 1]) + xs[|xs| - 1]
  }

  lemma {:induction false} SumOfOwned(owner: seq<u16>, counts: seq<nat>, m: nat)
    requires m <= |counts| <= UNASSIGNED && forall i :: 0 <= i < |counts| ==> counts[i] == Owned(owner, i, |owner|)
    ensures Sum(counts[..m]) == OwnedByFirst(owner, m)
  {
    if m > 0 {
      SumOfOwned(owner, counts, m - 1);
      assert counts[..m][..m - 1] == counts[..m - 1];
    }
  }

  /** Slots per node now, counted run by run. */
  method CountPerNode(owner: seq<u16>, n: nat) returns (current: seq<nat>)
    requires n <= UNASSIGNED
    ensures |current| == n && forall i :: 0 <= i < n ==> current[i] == Owned(owner, i, |owner|)
  {
    var runs := Ranges.Ranges(owner);
    current := seq(n, i => 0);
    RunsNonEmpty(owner, |owner|);
    for p := 0 to |runs|
      invariant |current| == n && forall i :: 0 <= i < n ==> current[i] == LengthFor(runs[..p], i)
    {
      assert runs[..p + 1][..p] == runs[..p];
      var r := runs[p];
      if r.owner < n {
        current := current[r.owner := current[r.owner] + (r.end - r.start) + 1];
      }
    }
    assert runs[..|runs|] == runs;
    forall i | 0 <= i < n ensures current[i] == Owned(owner, i, |owner|) {
      RunsCount(owner, |owner|, i);
    }
  }

  /** Every node with what it owns and its balanced share; the shares add up to the assigned slots. */
  method RebalancePlan(nodes: seq<NodeEntry>, owner: seq<u16>) returns (out: seq<RebalanceTarget>)
    requires |nodes| <= UNASSIGNED
    ensures |out| == |nodes|
    ensures forall i :: 0 <= i < |nodes| ==>
      out[i] == RebalanceTarget(nodes[i].id, Owned(owner, i, |owner|), TargetOf(owner, |nodes|, i))
    ensures var total := |OwnedBelow(owner, |nodes|)|;
      forall i :: 0 <= i < |nodes| ==>
        && out[i].current == |OwnedSet(owner, i, |owner|)|
        && out[i].target == total / |nodes| + if i < total % |nodes| then 1 else 0
    ensures nodes != [] ==>
      TargetsOfFirst(OwnedByFirst(owner, |nodes|), |nodes|, |nodes|) == OwnedByFirst(owner, |nodes|)
  {
    if nodes == [] {
      return [];
    }
    var n := |nodes|;
    var current := CountPerNode(owner, n);
    SumOfOwned(owner, current, n);
    assert current[..n] == current;
    var total := Sum(current);
    TargetsSumToTotal(total, n);
    TotalCounts(owner, n);
    forall i | 0 <= i < n ensures current[i] == |OwnedSet(owner, i, |owner|)| {
      OwnedCounts(owner, i, |owner|);
    }
    out := seq(n, i requires 0 <= i < n => RebalanceTarget(nodes[i].id, current[i], Target(total, n, i)));
  }

  // ----- the moves -----

  function Interval(a: nat, b: nat): (r: seq<nat>)
    requires a <= b
    ensures |r| == b - a && forall t :: 0 <= t < b - a ==> r[t] == a + t
  {
    seq(b - a, t => a + t)
  }

  ghost function SlotsIn(runs: seq<Run>, i: u16): seq<nat>
    requires NonEmpty(runs)
  {
    if runs == [] then []
    else
      var r := runs[|runs| - 1];
      SlotsIn(runs[..|runs| - 1], i) + if r.owner == i then Interval(r.start, r.end + 1) else []
  }

  lemma RunsNonEmpty(owner: seq<u16>, k: nat)
    requires k <= |owner|
    ensures NonEmpty(RunsOf(owner, k))
  {
  }

  lemma SlotsInAppend(runs: seq<Run>, r: Run, i: u16)
    requires NonEmpty(runs) && r.start <= r.end
    ensures NonEmpty(runs + [r])
    ensures SlotsIn(runs + [r], i) == SlotsIn(runs, i) + if r.owner == i then Interval(r.start, r.end + 1) else []
  {
  }

  lemma SlotsInExtend(runs: seq<Run>, k: nat, i: u16)
    requires runs != [] && NonEmpty(runs) && runs[|runs| - 1].end + 1 == k
    ensures NonEmpty(runs[|runs| - 1 := runs[|runs| - 1].(end := k)])
    ensures SlotsIn(runs[|runs| - 1 := runs[|runs| - 1].(end := k)], i) ==
      SlotsIn(runs, i) + if runs[|runs| - 1].owner == i then [k] else []
  {
  }

  lemma {:induction false} SlotsInRuns(owner: seq<u16>, k: nat, i: u16)
    requires k <= |owner| && i != UNASSIGNED
    ensures NonEmpty(RunsOf(owner, k)) && SlotsIn(RunsOf(owner, k), i) == Slots(owner, i, k)
  {
    hide SlotsIn, NonEmpty;
    if k == 0 {
      EmptySlots(i);
    } else {
      SlotsInRuns(owner, k - 1, i);
      var before, o := RunsOf(owner, k - 1), owner[k - 1];
      if o == UNASSIGNED {
        assert Slots(owner, i, k) == Slots(owner, i, k - 1);
      } else if Extends(before, k - 1, o) {
        SlotsInExtend(before, k - 1, i);
      } else {
        SlotsInAppend(before, Run(k - 1, k - 1, o), i);
        assert Interval(k - 1, k) == [k - 1];
      }
    }
  }

  lemma EmptySlots(i: u16)
    ensures NonEmpty([]) && SlotsIn([], i) == []
  {
  }

  /** The slots of each node, ascending, gathered run by run. */
  method SlotsPerNode(owner: seq<u16>, n: nat) returns (owned: seq<seq<nat>>)
    requires n <= UNASSIGNED
    ensures |owned| == n && forall i :: 0 <= i < n ==> owned[i] == Slots(owner, i, |owner|)
  {
    var runs := Ranges.Ranges(owner);
    RunsNonEmpty(owner, |owner|);
    owned := seq(n, i => []);
    for p := 0 to |runs|
      invariant |owned| == n && forall i :: 0 <= i < n ==> owned[i] == SlotsIn(runs[..p], i)
    {
      assert runs[..p + 1][..p] == runs[..p];
      var r := runs[p];
      if r.owner < n {
        owned := owned[r.owner := owned[r.owner] + Interval(r.start, r.end + 1)];
      }
    }
    assert runs[..|runs|] == runs;
    forall i | 0 <= i < n ensures owned[i] == Slots(owner, i, |owner|) {
      SlotsInRuns(owner, |owner|, i);
    }
  }

  /** How much of list `j` lies beyond the first `m` elements of the whole. */
  ghost function Left(ls: seq<seq<nat>>, j: nat, m: nat): nat
    requires j < |ls|
  {
    var lo, hi := |Flat(ls, j)|, |Flat(ls, j + 1)|;
    if m >= hi then 0 else if m >= lo then hi - m else hi - lo
  }

  lemma LeftStep(ls: seq<seq<nat>>, j: nat, m: nat, d: nat)
    requires j < |ls| && d < |ls| && |Flat(ls, d)| <= m < |Flat(ls, d + 1)|
    ensures Left(ls, j, m + 1) == Left(ls, j, m) - if j == d then 1 else 0
  {
    hide Flat;
    if j < d {
      FlatMonotone(ls, j + 1, d);
    } else if j > d {
      FlatMonotone(ls, d + 1, j);
    }
    FlatMonotone(ls, j, j + 1);
  }

  lemma {:induction false} LeftNothing(ls: seq<seq<nat>>, j: nat, m: nat)
    requires j <= |ls| && forall i :: 0 <= i < j ==> Left(ls, i, m) == 0
    ensures |Flat(ls, j)| <= m
  {
    if j > 0 {
      LeftNothing(ls, j - 1, m);
      assert Left(ls, j - 1, m) == 0;
    }
  }

  /** After `m` moves, each node's remaining surplus is what is left of its two lists. */
  ghost predicate Remaining(owner: seq<u16>, n: nat, surplus: seq<int>, m: nat)
    requires 0 < n <= UNASSIGNED
  {
    |surplus| == n && forall j :: 0 <= j < n ==> surplus[j] == Left(Ups(owner, n), j, m) - Left(Downs(owner, n), j, m)
  }

  /** A node gives or takes, never both. */
  lemma OneSided(owner: seq<u16>, n: nat, j: nat, m: nat)
    requires 0 < n <= UNASSIGNED && j < n
    ensures Left(Ups(owner, n), j, m) == 0 || Left(Downs(owner, n), j, m) == 0
  {
  }

  lemma StartRemaining(owner: seq<u16>, n: nat, surplus: seq<int>)
    requires 0 < n <= UNASSIGNED && |surplus| == n && forall j :: 0 <= j < n ==> surplus[j] == Surplus(owner, n, j)
    ensures Remaining(owner, n, surplus, 0)
  {
  }

  lemma MoveRemaining(owner: seq<u16>, n: nat, surplus: seq<int>, m: nat, donor: nat, recv: nat)
    requires 0 < n <= UNASSIGNED && Remaining(owner, n, surplus, m) && donor < n && recv < n && donor != recv
    requires |Flat(Ups(owner, n), donor)| <= m < |Flat(Ups(owner, n), donor + 1)|
    requires |Flat(Downs(owner, n), recv)| <= m < |Flat(Downs(owner, n), recv + 1)|
    ensures Remaining(owner, n, surplus[donor := surplus[donor] - 1][recv := surplus[recv] + 1], m + 1)
  {
    hide Ups, Downs, Flat, Left;
    var after := surplus[donor := surplus[donor] - 1][recv := surplus[recv] + 1];
    forall j | 0 <= j < n ensures after[j] == Left(Ups(owner, n), j, m + 1) - Left(Downs(owner, n), j, m + 1) {
      LeftStep(Ups(owner, n), j, m, donor);
      LeftStep(Downs(owner, n), j, m, recv);
    }
  }

  /** While a donor has surplus there is a receiver: the cursor cannot run off the end. */
  lemma ReceiverExists(owner: seq<u16>, n: nat, surplus: seq<int>, m: nat, donor: nat, recv: nat)
    requires 0 < n <= UNASSIGNED && Remaining(owner, n, surplus, m) && donor < n && recv <= n
    requires m < |Flat(Ups(owner, n), donor + 1)|
    requires forall j :: 0 <= j < recv ==> surplus[j] >= 0
    ensures recv < n && |Flat(Downs(owner, n), recv)| <= m
    ensures surplus[recv] < 0 ==> m < |Flat(Downs(owner, n), recv + 1)|
  {
    hide Ups, Downs;
    forall j | 0 <= j < recv ensures Left(Downs(owner, n), j, m) == 0 {
      OneSided(owner, n, j, m);
    }
    LeftNothing(Downs(owner, n), recv, m);
    FlatMonotone(Ups(owner, n), donor + 1, n);
    SameTotals(owner, n);
  }

  /** What the `m`-th planned move is, given where `m` falls in the two lists. */
  lemma PlannedAt(owner: seq<u16>, n: nat, m: nat, donor: nat, recv: nat)
    requires MapOk(owner, n) && donor < n && recv < n
    requires |Flat(Ups(owner, n), donor)| <= m < |Flat(Ups(owner, n), donor + 1)|
    requires |Flat(Downs(owner, n), recv)| <= m < |Flat(Downs(owner, n), recv + 1)|
    ensures m < |Plan(owner, n)| && m - |Flat(Ups(owner, n), donor)| < |Slots(owner, donor, |owner|)|
    ensures Plan(owner, n)[m] == Move(Slots(owner, donor, |owner|)[m - |Flat(Ups(owner, n), donor)|], donor, recv)
    ensures donor != recv
  {
    hide Ups, Downs, Plan, Surplus, Slots;
    var ups, downs := Ups(owner, n), Downs(owner, n);
    var t, q := m - |Flat(ups, donor)|, m - |Flat(downs, recv)|;
    ListsAt(owner, n, donor);
    ListsAt(owner, n, recv);
    FlatAt(ups, donor, t, n);
    FlatAt(downs, recv, q, n);
    assert Plan(owner, n)[m].slot == Slots(owner, donor, |owner|)[t];
  }

  /** Index moves, with nodes named by id. */
  ghost function Named(nodes: seq<NodeEntry>, plan: seq<Move>): (r: seq<SlotMove>)
    requires forall x :: 0 <= x < |plan| ==> plan[x].src < |nodes| && plan[x].dst < |nodes|
    ensures |r| == |plan|
    ensures forall x :: 0 <= x < |plan| ==>
      r[x] == SlotMove(plan[x].slot, nodes[plan[x].src].id, nodes[plan[x].dst].id)
  {
    seq(|plan|, x requires 0 <= x < |plan| =>
      SlotMove(plan[x].slot, nodes[plan[x].src].id, nodes[plan[x].dst].id))
  }

  lemma PlanInTable(owner: seq<u16>, n: nat)
    requires MapOk(owner, n)
    ensures forall x :: 0 <= x < |Plan(owner, n)| ==> Plan(owner, n)[x].src < n && Plan(owner, n)[x].dst < n
  {
    hide Plan, Ups, Downs, Flat;
    forall x | 0 <= x < |Plan(owner, n)| ensures Plan(owner, n)[x].src < n && Plan(owner, n)[x].dst < n {
      ReplanAfterCommit(owner, n, x);
    }
  }

  /** The concrete moves: exactly the plan, with both defensive exits of the loop dead. */
  method RebalanceMoves(nodes: seq<NodeEntry>, owner: seq<u16>) returns (moves: seq<SlotMove>)
    requires |nodes| <= UNASSIGNED && forall k :: 0 <= k < |owner| ==> owner[k] < |nodes| || owner[k] == UNASSIGNED
    ensures nodes == [] ==> moves == []
    ensures nodes != [] ==>
      && (forall x :: 0 <= x < |Plan(owner, |nodes|)| ==>
            Plan(owner, |nodes|)[x].src < |nodes| && Plan(owner, |nodes|)[x].dst < |nodes|)
      && moves == Named(nodes, Plan(owner, |nodes|))
  {
    hide Plan, Ups, Downs, Flat, Slots, Owned, Surplus, TargetOf, Target, Left, OwnedByFirst, Sum;
    if |nodes| < 2 {
      if |nodes| == 1 {
        LonePlanEmpty(owner);
      }
      return [];
    }
    var n := |nodes|;
    var owned := SlotsPerNode(owner, n);
    var counts := seq(n, i requires 0 <= i < n => |owned[i]|);
    SumOfOwned(owner, counts, n);
    assert counts[..n] == counts;
    var total := Sum(counts);
    var surplus: seq<int> := seq(n, i requires 0 <= i < n => |owned[i]| - Target(total, n, i));
    SurplusFrom(owner, n, total, surplus);
    StartRemaining(owner, n, surplus);
    PlanInTable(owner, n);
    moves := [];
    var recv := 0;
    FlatStart(Ups(owner, n));
    for donor := 0 to n
      invariant recv <= n && Remaining(owner, n, surplus, |moves|)
      invariant forall j :: 0 <= j < recv ==> surplus[j] >= 0
      invariant |moves| == |Flat(Ups(owner, n), donor)| <= |Plan(owner, n)|
      invariant moves == Named(nodes, Plan(owner, n))[..|moves|]
    {
      var taken := 0;
      DonorStart(owner, n, surplus, |moves|, donor);
      while surplus[donor] > 0
        invariant recv <= n && Remaining(owner, n, surplus, |moves|)
        invariant forall j :: 0 <= j < recv ==> surplus[j] >= 0
        invariant |moves| == |Flat(Ups(owner, n), donor)| + taken
        invariant |moves| <= |Flat(Ups(owner, n), donor + 1)| <= |Plan(owner, n)|
        invariant moves == Named(nodes, Plan(owner, n))[..|moves|]
        decreases surplus[donor]
      {
        StillGiving(owner, n, surplus, |moves|, donor);
        while recv < n && surplus[recv] >= 0
          invariant recv <= n && forall j :: 0 <= j < recv ==> surplus[j] >= 0
        {
          recv := recv + 1;
        }
        ReceiverExists(owner, n, surplus, |moves|, donor, recv);
        PlannedAt(owner, n, |moves|, donor, recv);
        var slot := owned[donor][taken];
        MoveRemaining(owner, n, surplus, |moves|, donor, recv);
        taken := taken + 1;
        moves := moves + [SlotMove(slot, nodes[donor].id, nodes[recv].id)];
        surplus := surplus[donor := surplus[donor] - 1][recv := surplus[recv] + 1];
      }
      DonorDone(owner, n, surplus, |moves|, donor);
    }
  }

  lemma FlatStart(ls: seq<seq<nat>>)
    ensures |Flat(ls, 0)| == 0
  {
  }

  lemma SurplusFrom(owner: seq<u16>, n: nat, total: nat, surplus: seq<int>)
    requires 0 < n <= UNASSIGNED && total == OwnedByFirst(owner, n) && |surplus| == n
    requires forall i :: 0 <= i < n ==> surplus[i] == Owned(owner, i, |owner|) - Target(total, n, i)
    ensures forall i :: 0 <= i < n ==> surplus[i] == Surplus(owner, n, i)
  {
  }

  lemma DonorStart(owner: seq<u16>, n: nat, surplus: seq<int>, m: nat, donor: nat)
    requires 0 < n <= UNASSIGNED && donor < n
    ensures |Flat(Ups(owner, n), donor)| <= |Flat(Ups(owner, n), donor + 1)| <= |Plan(owner, n)|
  {
    hide Ups, Plan, Flat;
    FlatMonotone(Ups(owner, n), donor, donor + 1);
    FlatMonotone(Ups(owner, n), donor + 1, n);
  }

  /** A positive surplus means this donor's list is not used up. */
  lemma StillGiving(owner: seq<u16>, n: nat, surplus: seq<int>, m: nat, donor: nat)
    requires 0 < n <= UNASSIGNED && Remaining(owner, n, surplus, m) && donor < n && surplus[donor] > 0
    ensures m < |Flat(Ups(owner, n), donor + 1)|
  {
    hide Ups, Downs;
  }

  lemma DonorDone(owner: seq<u16>, n: nat, surplus: seq<int>, m: nat, donor: nat)
    requires 0 < n <= UNASSIGNED && Remaining(owner, n, surplus, m) && donor < n && surplus[donor] <= 0
    requires |Flat(Ups(owner, n), donor)| <= m <= |Flat(Ups(owner, n), donor + 1)|
    ensures m == |Flat(Ups(owner, n), donor + 1)|
  {
    hide Ups, Downs;
    OneSided(owner, n, donor, m);
  }
}
