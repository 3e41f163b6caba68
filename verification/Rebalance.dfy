/**
 Rebalancing: how many slots each node should own, and which slots to move.

 The plan is described as two lists read side by side: the surplus slots of the donors, in order, and
 the receivers, each as often as it is short. Everything about the moves follows from one fact:
 committing any one move leaves a map whose plan is the rest of the plan.
*/
module Rebalance {
  import opened Core
  import opened SlotTypes
  import opened Ranges

  /** Slots below `k` that entry `i` owns, ascending. */
  ghost function Slots(owner: seq<u16>, i: u16, k: nat): (r: seq<nat>)
    requires k <= |owner|
    ensures |r| == Owned(owner, i, k)
    ensures forall p :: 0 <= p < |r| ==> r[p] < k && owner[r[p]] == i
  {
    if k == 0 then [] else Slots(owner, i, k - 1) + if owner[k - 1] == i then [k - 1] else []
  }

  /** Slots owned by the first `m` entries. */
  ghost function OwnedByFirst(owner: seq<u16>, m: nat): nat
    requires m <= UNASSIGNED
  {
    if m == 0 then 0 else OwnedByFirst(owner, m - 1) + Owned(owner, m - 1, |owner|)
  }

  /** The balanced share of entry `i`: an even split, the first `total % n` entries taking one more. */
  function Target(total: nat, n: nat, i: nat): nat
    requires n > 0
  {
    total / n + if i < total % n then 1 else 0
  }

  ghost predicate MapOk(owner: seq<u16>, n: nat)
  {
    0 < n <= UNASSIGNED && forall k :: 0 <= k < |owner| ==> owner[k] < n || owner[k] == UNASSIGNED
  }

  ghost function TargetOf(owner: seq<u16>, n: nat, i: nat): nat
    requires 0 < n <= UNASSIGNED
  {
    Target(OwnedByFirst(owner, n), n, i)
  }

  ghost function Surplus(owner: seq<u16>, n: nat, i: nat): int
    requires 0 < n <= UNASSIGNED && i < n
  {
    Owned(owner, i, |owner|) - TargetOf(owner, n, i)
  }

  // ----- the targets are a partition of what there is -----

  ghost function TargetsOfFirst(total: nat, n: nat, m: nat): nat
    requires n > 0
  {
    if m == 0 then 0 else TargetsOfFirst(total, n, m - 1) + Target(total, n, m - 1)
  }

  lemma {:induction false} TargetsClosedForm(total: nat, n: nat, m: nat)
    requires n > 0 && m <= n
    ensures TargetsOfFirst(total, n, m) == m * (total / n) + if m < total % n then m else total % n
  {
    if m > 0 {
      TargetsClosedForm(total, n, m - 1);
      assert m * (total / n) == (m - 1) * (total / n) + total / n;
    }
  }

  /** Balancing moves slots; it never creates or drops any. */
  lemma TargetsSumToTotal(total: nat, n: nat)
    requires n > 0
    ensures TargetsOfFirst(total, n, n) == total
  {
    TargetsClosedForm(total, n, n);
    assert total == n * (total / n) + total % n;
  }

  // ----- lists of lists -----

  ghost function Flat(ls: seq<seq<nat>>, j: nat): seq<nat>
    requires j <= |ls|
  {
    if j == 0 then [] else Flat(ls, j - 1) + ls[j - 1]
  }

  lemma {:induction false} FlatMonotone(ls: seq<seq<nat>>, i: nat, j: nat)
    requires i <= j <= |ls|
    ensures |Flat(ls, i)| <= |Flat(ls, j)|
    decreases j
  {
    if i < j {
      FlatMonotone(ls, i, j - 1);
    }
  }

  lemma {:induction false} FlatAt(ls: seq<seq<nat>>, d: nat, p: nat, j: nat)
    requires d < j <= |ls| && p < |ls[d]|
    ensures |Flat(ls, d)| + p < |Flat(ls, j)|
    ensures Flat(ls, j)[|Flat(ls, d)| + p] == ls[d][p]
    decreases j
  {
    if d < j - 1 {
      FlatAt(ls, d, p, j - 1);
    }
  }

  lemma {:induction false} FlatIndex(ls: seq<seq<nat>>, x: nat, j: nat) returns (d: nat, p: nat)
    requires j <= |ls| && x < |Flat(ls, j)|
    ensures d < j && p < |ls[d]| && x == |Flat(ls, d)| + p && Flat(ls, j)[x] == ls[d][p]
    decreases j
  {
    if x < |Flat(ls, j - 1)| {
      d, p := FlatIndex(ls, x, j - 1);
    } else {
      d, p := j - 1, x - |Flat(ls, j - 1)|;
    }
  }

  /** Dropping one element of one list drops one element of the whole. */
  lemma {:induction false} FlatDrop(ls: seq<seq<nat>>, d: nat, p: nat, j: nat)
    requires d < |ls| && p < |ls[d]| && j <= |ls|
    ensures d < j ==> |Flat(ls, d)| + p < |Flat(ls, j)|
    ensures Flat(ls[d := Drop(ls[d], p)], j) == if d < j then Drop(Flat(ls, j), |Flat(ls, d)| + p) else Flat(ls, j)
    decreases j
  {
    hide Drop;
    if j > 0 {
      FlatDrop(ls, d, p, j - 1);
      if d == j - 1 {
        DropInSecond(Flat(ls, j - 1), ls[d], p);
      } else if d < j - 1 {
        DropInFirst(Flat(ls, j - 1), ls[j - 1], |Flat(ls, d)| + p);
      }
    }
  }

  lemma DropInFirst<T>(a: seq<T>, b: seq<T>, x: nat)
    requires x < |a|
    ensures Drop(a + b, x) == Drop(a, x) + b
  {
  }

  lemma DropInSecond<T>(a: seq<T>, b: seq<T>, p: nat)
    requires p < |b|
    ensures Drop(a + b, |a| + p) == a + Drop(b, p)
  {
  }

  // ----- the plan -----

  /** The lowest surplus slots of each entry. */
  ghost function Ups(owner: seq<u16>, n: nat): (r: seq<seq<nat>>)
    requires 0 < n <= UNASSIGNED
    ensures |r| == n
  {
    seq(n, i requires 0 <= i < n =>
      if Surplus(owner, n, i) > 0 then Slots(owner, i, |owner|)[..Surplus(owner, n, i)] else [])
  }

  ghost function Repeated(i: nat, times: nat): (r: seq<nat>)
    ensures |r| == times && forall p :: 0 <= p < times ==> r[p] == i
  {
    seq(times, p => i)
  }

  /** Each entry as often as it is short. */
  ghost function Downs(owner: seq<u16>, n: nat): (r: seq<seq<nat>>)
    requires 0 < n <= UNASSIGNED
    ensures |r| == n
  {
    seq(n, i requires 0 <= i < n => if Surplus(owner, n, i) < 0 then Repeated(i, -Surplus(owner, n, i)) else [])
  }

  lemma ListsAt(owner: seq<u16>, n: nat, i: nat)
    requires 0 < n <= UNASSIGNED && i < n
    ensures Surplus(owner, n, i) <= |Slots(owner, i, |owner|)|
    ensures Ups(owner, n)[i] ==
      if Surplus(owner, n, i) > 0 then Slots(owner, i, |owner|)[..Surplus(owner, n, i)] else []
    ensures Downs(owner, n)[i] == if Surplus(owner, n, i) < 0 then Repeated(i, -Surplus(owner, n, i)) else []
  {
  }

  lemma {:induction false} PrefixTotals(owner: seq<u16>, n: nat, m: nat)
    requires 0 < n <= UNASSIGNED && m <= n
    ensures |Flat(Ups(owner, n), m)| - |Flat(Downs(owner, n), m)| ==
      OwnedByFirst(owner, m) - TargetsOfFirst(OwnedByFirst(owner, n), n, m)
  {
    hide Target, Slots, Repeated, Owned, Ups, Downs, Surplus, TargetOf;
    if m > 0 {
      PrefixTotals(owner, n, m - 1);
      EntryTotals(owner, n, m - 1);
    }
  }

  lemma EntryTotals(owner: seq<u16>, n: nat, i: nat)
    requires 0 < n <= UNASSIGNED && i < n
    ensures |Ups(owner, n)[i]| - |Downs(owner, n)[i]| == Owned(owner, i, |owner|) - Target(OwnedByFirst(owner, n), n, i)
  {
  }

  /** As many slots to give as to take. */
  lemma SameTotals(owner: seq<u16>, n: nat)
    requires 0 < n <= UNASSIGNED
    ensures |Flat(Ups(owner, n), n)| == |Flat(Downs(owner, n), n)|
  {
    PrefixTotals(owner, n, n);
    TargetsSumToTotal(OwnedByFirst(owner, n), n);
  }

  datatype Move = Move(slot: nat, src: u16, dst: nat)

  /** The moves: surplus slot by surplus slot, to the receiver at the same place in its list. */
  ghost function Plan(owner: seq<u16>, n: nat): (r: seq<Move>)
    requires 0 < n <= UNASSIGNED
    ensures |r| == |Flat(Ups(owner, n), n)| == |Flat(Downs(owner, n), n)|
    ensures forall x :: 0 <= x < |r| ==>
      r[x].slot == Flat(Ups(owner, n), n)[x] && r[x].dst == Flat(Downs(owner, n), n)[x]
    ensures forall x :: 0 <= x < |r| ==> r[x].slot < |owner| && r[x].src == owner[r[x].slot]
  {
    SameTotals(owner, n);
    var ups, downs := Flat(Ups(owner, n), n), Flat(Downs(owner, n), n);
    SurplusSlotsExist(owner, n);
    seq(|ups|, x requires 0 <= x < |ups| => Move(ups[x], owner[ups[x]], downs[x]))
  }

  lemma SurplusSlotsExist(owner: seq<u16>, n: nat)
    requires 0 < n <= UNASSIGNED
    ensures forall x :: 0 <= x < |Flat(Ups(owner, n), n)| ==> Flat(Ups(owner, n), n)[x] < |owner|
  {
    var ups := Ups(owner, n);
    forall x | 0 <= x < |Flat(ups, n)| ensures Flat(ups, n)[x] < |owner| {
      var d, p := FlatIndex(ups, x, n);
      assert ups[d][p] == Slots(owner, d, |owner|)[p];
    }
  }

  // ----- what one move does to the counts -----

  lemma {:induction false} OwnedAfter(owner: seq<u16>, s: nat, r: u16, i: u16, k: nat)
    requires s < |owner| && k <= |owner|
    ensures Owned(owner[s := r], i, k) ==
      Owned(owner, i, k) + if s < k then (if r == i then 1 else 0) - (if owner[s] == i then 1 else 0) else 0
  {
    if k > 0 {
      OwnedAfter(owner, s, r, i, k - 1);
    }
  }

  lemma {:induction false} TotalAfter(owner: seq<u16>, s: nat, r: u16, m: nat)
    requires s < |owner| && m <= UNASSIGNED
    ensures OwnedByFirst(owner[s := r], m) ==
      OwnedByFirst(owner, m) + (if r < m then 1 else 0) - (if owner[s] < m then 1 else 0)
  {
    if m > 0 {
      TotalAfter(owner, s, r, m - 1);
      OwnedAfter(owner, s, r, m - 1, |owner|);
    }
  }

  /** The place of a slot in its owner's list is the number of that owner's slots below it. */
  lemma {:induction false} SlotPlace(owner: seq<u16>, i: u16, k: nat, p: nat)
    requires k <= |owner| && p < |Slots(owner, i, k)|
    ensures Owned(owner, i, Slots(owner, i, k)[p]) == p
  {
    if p == |Slots(owner, i, k - 1)| {
      assert owner[k - 1] == i;
    } else {
      SlotPlace(owner, i, k - 1, p);
    }
  }

  lemma {:induction false} SlotsAfter(owner: seq<u16>, s: nat, r: u16, i: u16, k: nat)
    requires s < |owner| && k <= |owner| && r != i
    ensures if owner[s] == i && s < k
            then Owned(owner, i, s) < Owned(owner, i, k) &&
                 Slots(owner[s := r], i, k) == Drop(Slots(owner, i, k), Owned(owner, i, s))
            else Slots(owner[s := r], i, k) == Slots(owner, i, k)
  {
    hide Drop;
    if k > 0 {
      SlotsAfter(owner, s, r, i, k - 1);
      var before := Slots(owner, i, k - 1);
      if owner[s] == i && s < k {
        if s == k - 1 {
          assert Slots(owner, i, k) == before + [s] && Slots(owner[s := r], i, k) == before;
          DropLast(before, s);
        } else if owner[k - 1] == i {
          DropInFirst<nat>(before, [k - 1], Owned(owner, i, s));
          assert owner[s := r][k - 1] == i;
          assert Slots(owner[s := r], i, k) == Slots(owner[s := r], i, k - 1) + [k - 1];
          assert Slots(owner, i, k) == before + [k - 1];
        } else {
          assert Slots(owner, i, k) == before && Slots(owner[s := r], i, k) == Slots(owner[s := r], i, k - 1);
        }
      }
    }
  }

  lemma DropLast(a: seq<nat>, x: nat)
    ensures Drop(a + [x], |a|) == a
  {
  }

  /** Where a planned move sits in the two lists. */
  lemma PlanPlace(owner: seq<u16>, n: nat, x: nat) returns (p: nat, q: nat)
    requires MapOk(owner, n) && x < |Plan(owner, n)|
    ensures var m := Plan(owner, n)[x];
      && m.src < n && m.dst < n && Surplus(owner, n, m.src) > 0 > Surplus(owner, n, m.dst)
      && p < |Ups(owner, n)[m.src]| && x == |Flat(Ups(owner, n), m.src)| + p && Ups(owner, n)[m.src][p] == m.slot
      && p == Owned(owner, m.src, m.slot)
      && q < |Downs(owner, n)[m.dst]| && x == |Flat(Downs(owner, n), m.dst)| + q
  {
    hide Ups, Downs, Plan, Surplus, Flat, Slots;
    var ups, downs, m := Ups(owner, n), Downs(owner, n), Plan(owner, n)[x];
    var d, r;
    d, p := FlatIndex(ups, x, n);
    r, q := FlatIndex(downs, x, n);
    ListsAt(owner, n, d);
    ListsAt(owner, n, r);
    assert ups[d][p] == Slots(owner, d, |owner|)[p] == m.slot;
    SlotPlace(owner, d, |owner|, p);
    assert downs[r][q] == r;
  }

  /** No slot moves twice. */
  lemma PlanSlotsDistinct(owner: seq<u16>, n: nat, x: nat, y: nat)
    requires MapOk(owner, n) && x < |Plan(owner, n)| && y < |Plan(owner, n)|
    requires Plan(owner, n)[x].slot == Plan(owner, n)[y].slot
    ensures x == y
  {
    hide Ups, Downs, Flat, Surplus, Owned;
    var p, q := PlanPlace(owner, n, x);
    var p', q' := PlanPlace(owner, n, y);
  }

  /** Targets do not depend on who owns what, only on how much is owned. */
  lemma TargetsKept(owner: seq<u16>, n: nat, s: nat, r: nat)
    requires MapOk(owner, n) && s < |owner| && owner[s] < n && r < n
    ensures OwnedByFirst(owner[s := r], n) == OwnedByFirst(owner, n)
    ensures forall i :: 0 <= i < n ==> TargetOf(owner[s := r], n, i) == TargetOf(owner, n, i)
  {
    TotalAfter(owner, s, r, n);
  }

  lemma SurplusAfter(owner: seq<u16>, n: nat, s: nat, r: nat, i: nat)
    requires MapOk(owner, n) && s < |owner| && owner[s] < n && r < n && i < n
    ensures Surplus(owner[s := r], n, i) ==
      Surplus(owner, n, i) + (if r == i then 1 else 0) - (if owner[s] == i then 1 else 0)
  {
    hide Target, Owned;
    TargetsKept(owner, n, s, r);
    OwnedAfter(owner, s, r, i, |owner|);
  }

  lemma UpsAfter(owner: seq<u16>, n: nat, x: nat, p: nat)
    requires MapOk(owner, n) && x < |Plan(owner, n)|
    requires var m := Plan(owner, n)[x];
      && m.src < n && m.dst < n && Surplus(owner, n, m.src) > 0 > Surplus(owner, n, m.dst)
      && p < |Ups(owner, n)[m.src]| && p == Owned(owner, m.src, m.slot)
    ensures var m := Plan(owner, n)[x];
      Ups(owner[m.slot := m.dst], n) == Ups(owner, n)[m.src := Drop(Ups(owner, n)[m.src], p)]
  {
    hide Target, Owned, Plan, Ups, Slots, Surplus, Drop, TargetOf;
    var m := Plan(owner, n)[x];
    var after, ups := owner[m.slot := m.dst], Ups(owner, n);
    forall i | 0 <= i < n ensures Ups(after, n)[i] == ups[m.src := Drop(ups[m.src], p)][i] {
      ListsAt(owner, n, i);
      ListsAt(after, n, i);
      SurplusAfter(owner, n, m.slot, m.dst, i);
      if i != m.dst {
        SlotsAfter(owner, m.slot, m.dst, i, |owner|);
        if i == m.src {
          DropPrefix(Slots(owner, i, |owner|), p, Surplus(owner, n, i));
        }
      }
    }
  }

  lemma DropPrefix(s: seq<nat>, p: nat, k: nat)
    requires p < k <= |s|
    ensures Drop(s[..k], p) == Drop(s, p)[..k - 1]
    ensures k == 1 ==> Drop(s[..k], p) == []
  {
  }

  lemma DownsAfter(owner: seq<u16>, n: nat, x: nat, q: nat)
    requires MapOk(owner, n) && x < |Plan(owner, n)|
    requires var m := Plan(owner, n)[x];
      && m.src < n && m.dst < n && Surplus(owner, n, m.src) > 0 > Surplus(owner, n, m.dst)
      && q < |Downs(owner, n)[m.dst]|
    ensures var m := Plan(owner, n)[x];
      Downs(owner[m.slot := m.dst], n) == Downs(owner, n)[m.dst := Drop(Downs(owner, n)[m.dst], q)]
  {
    hide Target, Owned, Plan, Downs, Surplus, TargetOf, Repeated;
    var m := Plan(owner, n)[x];
    var after, downs := owner[m.slot := m.dst], Downs(owner, n);
    forall i | 0 <= i < n ensures Downs(after, n)[i] == downs[m.dst := Drop(downs[m.dst], q)][i] {
      ListsAt(owner, n, i);
      ListsAt(after, n, i);
      SurplusAfter(owner, n, m.slot, m.dst, i);
    }
  }

  /**
   Committing any one planned move leaves a map whose plan is exactly the rest of the plan. So a
   controller that forgets its list and plans again, at any point and after any of its moves, in any
   order, resumes the same run.
  */
  lemma ReplanAfterCommit(owner: seq<u16>, n: nat, x: nat)
    requires MapOk(owner, n) && x < |Plan(owner, n)|
    ensures var m := Plan(owner, n)[x];
      && m.src != m.dst && m.src < n && m.dst < n
      && MapOk(owner[m.slot := m.dst], n)
      && Plan(owner[m.slot := m.dst], n) == Drop(Plan(owner, n), x)
      && (forall i :: 0 <= i < n ==> TargetOf(owner[m.slot := m.dst], n, i) == TargetOf(owner, n, i))
  {
    hide Target, Owned, Ups, Downs, Surplus, TargetOf, Drop, Plan, Flat;
    var m := Plan(owner, n)[x];
    var p, q := PlanPlace(owner, n, x);
    UpsAfter(owner, n, x, p);
    DownsAfter(owner, n, x, q);
    FlatDrop(Ups(owner, n), m.src, p, n);
    FlatDrop(Downs(owner, n), m.dst, q, n);
    TargetsKept(owner, n, m.slot, m.dst);
    PlanDropped(owner, n, x);
  }

  lemma PlanDropped(owner: seq<u16>, n: nat, x: nat)
    requires MapOk(owner, n) && x < |Plan(owner, n)|
    requires var m := Plan(owner, n)[x];
      && m.dst < n
      && Flat(Ups(owner[m.slot := m.dst], n), n) == Drop(Flat(Ups(owner, n), n), x)
      && Flat(Downs(owner[m.slot := m.dst], n), n) == Drop(Flat(Downs(owner, n), n), x)
    ensures var m := Plan(owner, n)[x]; Plan(owner[m.slot := m.dst], n) == Drop(Plan(owner, n), x)
  {
    hide Ups, Downs, Plan, Flat;
    var plan := Plan(owner, n);
    var m := plan[x];
    var after := owner[m.slot := m.dst];
    forall y | 0 <= y < |plan| - 1 ensures Plan(after, n)[y] == Drop(plan, x)[y] {
      var y' := if y < x then y else y + 1;
      assert Plan(after, n)[y].slot == plan[y'].slot && Plan(after, n)[y].dst == plan[y'].dst;
      if plan[y'].slot == m.slot {
        PlanSlotsDistinct(owner, n, x, y');
      }
    }
  }

  // ----- the plan is exact -----

  ghost predicate MovesIn(owner: seq<u16>, moves: seq<Move>)
  {
    forall x :: 0 <= x < |moves| ==> moves[x].slot < |owner| && moves[x].dst <= UNASSIGNED
  }

  /** The owner array after a list of single-slot moves. */
  ghost function AfterMoves(owner: seq<u16>, moves: seq<Move>): (r: seq<u16>)
    requires MovesIn(owner, moves)
    ensures |r| == |owner|
    decreases |moves|
  {
    if moves == [] then owner
    else AfterMoves(owner[moves[0].slot := moves[0].dst], moves[1..])
  }

  ghost predicate AtTargets(owner: seq<u16>, targets: seq<nat>)
    requires |targets| <= UNASSIGNED
  {
    forall i :: 0 <= i < |targets| ==> Owned(owner, i, |owner|) == targets[i]
  }

  ghost function Targets(owner: seq<u16>, n: nat): (r: seq<nat>)
    requires 0 < n <= UNASSIGNED
    ensures |r| == n && forall i :: 0 <= i < n ==> r[i] == TargetOf(owner, n, i)
  {
    seq(n, i requires 0 <= i < n => TargetOf(owner, n, i))
  }

  lemma ListLengths(owner: seq<u16>, n: nat, i: nat)
    requires 0 < n <= UNASSIGNED && i < n
    ensures |Ups(owner, n)[i]| == if Surplus(owner, n, i) > 0 then Surplus(owner, n, i) else 0
    ensures |Downs(owner, n)[i]| == if Surplus(owner, n, i) < 0 then -Surplus(owner, n, i) else 0
  {
  }

  lemma SurplusIs(owner: seq<u16>, n: nat, i: nat)
    requires 0 < n <= UNASSIGNED && i < n
    ensures Surplus(owner, n, i) == Owned(owner, i, |owner|) - Targets(owner, n)[i]
  {
  }

  lemma NoListsNoSurplus(owner: seq<u16>, n: nat, i: nat)
    requires 0 < n <= UNASSIGNED && i < n && |Flat(Ups(owner, n), n)| == 0 == |Flat(Downs(owner, n), n)|
    ensures Surplus(owner, n, i) == 0
  {
    hide Ups, Downs, Surplus;
    FlatMonotone(Ups(owner, n), i + 1, n);
    FlatMonotone(Downs(owner, n), i + 1, n);
    ListLengths(owner, n, i);
  }

  /** Nothing left to move means every node is at its target. */
  lemma EmptyPlanAtTargets(owner: seq<u16>, n: nat)
    requires 0 < n <= UNASSIGNED
    ensures Plan(owner, n) == [] <==> AtTargets(owner, Targets(owner, n))
  {
    hide Plan, TargetOf, Owned, Ups, Downs, Surplus, Flat, Targets;
    if Plan(owner, n) == [] {
      forall i | 0 <= i < n ensures Owned(owner, i, |owner|) == Targets(owner, n)[i] {
        NoListsNoSurplus(owner, n, i);
        SurplusIs(owner, n, i);
      }
    } else {
      var d, p := FlatIndex(Ups(owner, n), 0, n);
      ListLengths(owner, n, d);
      SurplusIs(owner, n, d);
    }
  }

  /** Carrying out the plan puts every node exactly at its target. */
  lemma {:induction false} PlanReachesTargets(owner: seq<u16>, n: nat)
    requires MapOk(owner, n)
    ensures MovesIn(owner, Plan(owner, n))
    ensures AtTargets(AfterMoves(owner, Plan(owner, n)), Targets(owner, n))
    decreases |Plan(owner, n)|
  {
    hide Plan, Ups, Downs, Flat, TargetOf, Owned;
    var plan := Plan(owner, n);
    forall x | 0 <= x < |plan| ensures plan[x].slot < |owner| && plan[x].dst <= UNASSIGNED {
      ReplanAfterCommit(owner, n, x);
    }
    if plan == [] {
      EmptyPlanAtTargets(owner, n);
    } else {
      ReplanAfterCommit(owner, n, 0);
      var after := owner[plan[0].slot := plan[0].dst];
      assert Drop(plan, 0) == plan[1..];
      PlanReachesTargets(after, n);
      assert Targets(after, n) == Targets(owner, n);
    }
  }

  // ----- and minimal -----

  /** Slots held beyond the targets, over the first `m` entries. */
  ghost function Excess(owner: seq<u16>, targets: seq<nat>, m: nat): nat
    requires m <= |targets| <= UNASSIGNED
  {
    if m == 0 then 0
    else
      var over := Owned(owner, m - 1, |owner|) - targets[m - 1];
      Excess(owner, targets, m - 1) + if over > 0 then over else 0
  }

  /** One move brings the excess down by at most one. */
  lemma {:induction false} ExcessStep(owner: seq<u16>, targets: seq<nat>, s: nat, r: u16, m: nat)
    requires m <= |targets| <= UNASSIGNED && s < |owner|
    ensures Excess(owner[s := r], targets, m) >= Excess(owner, targets, m) - if owner[s] < m then 1 else 0
  {
    if m > 0 {
      ExcessStep(owner, targets, s, r, m - 1);
      OwnedAfter(owner, s, r, m - 1, |owner|);
    }
  }

  lemma {:induction false} ExcessNeedsMoves(owner: seq<u16>, targets: seq<nat>, moves: seq<Move>)
    requires |targets| <= UNASSIGNED && MovesIn(owner, moves) && AtTargets(AfterMoves(owner, moves), targets)
    ensures Excess(owner, targets, |targets|) <= |moves|
    decreases |moves|
  {
    hide Owned;
    if moves == [] {
      NoExcess(owner, targets, |targets|);
    } else {
      var m := moves[0];
      ExcessStep(owner, targets, m.slot, m.dst, |targets|);
      ExcessNeedsMoves(owner[m.slot := m.dst], targets, moves[1..]);
    }
  }

  lemma {:induction false} NoExcess(owner: seq<u16>, targets: seq<nat>, m: nat)
    requires m <= |targets| <= UNASSIGNED && AtTargets(owner, targets)
    ensures Excess(owner, targets, m) == 0
  {
    if m > 0 {
      NoExcess(owner, targets, m - 1);
    }
  }

  lemma {:induction false} ExcessIsSurplus(owner: seq<u16>, n: nat, m: nat)
    requires 0 < n <= UNASSIGNED && m <= n
    ensures Excess(owner, Targets(owner, n), m) == |Flat(Ups(owner, n), m)|
  {
    hide Target, TargetOf, Owned, Slots, Ups, Surplus, Targets;
    if m > 0 {
      ExcessIsSurplus(owner, n, m - 1);
      ListLengths(owner, n, m - 1);
      SurplusIs(owner, n, m - 1);
    }
  }

  /** No list of single-slot moves that reaches the targets is shorter than the plan. */
  lemma PlanIsMinimal(owner: seq<u16>, n: nat, moves: seq<Move>)
    requires 0 < n <= UNASSIGNED && MovesIn(owner, moves)
    requires AtTargets(AfterMoves(owner, moves), Targets(owner, n))
    ensures |Plan(owner, n)| <= |moves|
  {
    hide Plan, Ups, Flat, Excess, AtTargets, AfterMoves;
    ExcessNeedsMoves(owner, Targets(owner, n), moves);
    ExcessIsSurplus(owner, n, n);
  }

  /** A node on its own has nothing to balance. */
  lemma LonePlanEmpty(owner: seq<u16>)
    ensures Plan(owner, 1) == []
  {
    hide Plan;
    assert OwnedByFirst(owner, 1) == Owned(owner, 0, |owner|);
    assert Target(OwnedByFirst(owner, 1), 1, 0) == OwnedByFirst(owner, 1);
    EmptyPlanAtTargets(owner, 1);
  }
}
