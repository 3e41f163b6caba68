/** The counts behind a rebalance as cardinalities, and the order in which its plan names moves. */
module RebalanceOrder {
  import opened Core
  import opened SlotTypes
  import opened Ranges
  import opened Rebalance

  // ----- counts -----

  /** The first `n` slots that node `i` owns. */
  ghost function OwnedSet(owner: seq<u16>, i: u16, n: nat): (r: set<nat>)
    requires n <= |owner|
  {
    set k: nat | k < n && owner[k] == i
  }

  lemma {:induction false} OwnedCounts(owner: seq<u16>, i: u16, n: nat)
    requires n <= |owner|
    ensures Owned(owner, i, n) == |OwnedSet(owner, i, n)|
  {
    if n > 0 {
      OwnedCounts(owner, i, n - 1);
      var before, after := OwnedSet(owner, i, n - 1), OwnedSet(owner, i, n);
      if owner[n - 1] == i {
        assert after == before + {n - 1};
      } else {
        assert after == before;
      }
    }
  }

  /** The slots owned by one of the first `m` nodes. */
  ghost function OwnedBelow(owner: seq<u16>, m: nat): (r: set<nat>)
  {
    set k: nat | k < |owner| && owner[k] < m
  }

  lemma {:induction false} TotalCounts(owner: seq<u16>, m: nat)
    requires m <= UNASSIGNED
    ensures OwnedByFirst(owner, m) == |OwnedBelow(owner, m)|
  {
    if m > 0 {
      TotalCounts(owner, m - 1);
      OwnedCounts(owner, m - 1, |owner|);
      var before, more := OwnedBelow(owner, m - 1), OwnedSet(owner, m - 1, |owner|);
      assert OwnedBelow(owner, m) == before + more && before !! more;
    } else {
      assert OwnedBelow(owner, 0) == {};
    }
  }

  ghost function AssignedSet(owner: seq<u16>, n: nat): (r: set<nat>)
    requires n <= |owner|
  {
    set k: nat | k < n && owner[k] != UNASSIGNED
  }

  lemma {:induction false} AssignedCounts(owner: seq<u16>, n: nat)
    requires n <= |owner|
    ensures Assigned(owner, n) == |AssignedSet(owner, n)|
  {
    if n > 0 {
      AssignedCounts(owner, n - 1);
      var before, after := AssignedSet(owner, n - 1), AssignedSet(owner, n);
      if owner[n - 1] != UNASSIGNED {
        assert after == before + {n - 1};
      } else {
        assert after == before;
      }
    }
  }

  /** Shares differ by at most one slot, and the nodes listed first have the larger ones. */
  lemma SharesAreEven(owner: seq<u16>, n: nat, i: nat, j: nat)
    requires 0 < n <= UNASSIGNED && i <= j < n
    ensures var total := |OwnedBelow(owner, n)|;
      && TargetOf(owner, n, i) == total / n + (if i < total % n then 1 else 0)
      && TargetOf(owner, n, j) <= TargetOf(owner, n, i) <= TargetOf(owner, n, j) + 1
  {
    TotalCounts(owner, n);
  }

  // ----- order -----

  lemma {:induction false} OwnedGrows(owner: seq<u16>, i: u16, a: nat, b: nat)
    requires a <= b <= |owner|
    ensures Owned(owner, i, a) <= Owned(owner, i, b)
    decreases b
  {
    if a < b {
      OwnedGrows(owner, i, a, b - 1);
    }
  }

  /** A node's slot is found at the place that counts the lower ones. */
  lemma {:induction false} SlotFound(owner: seq<u16>, i: u16, k: nat, n: nat)
    requires k < n <= |owner| && owner[k] == i
    ensures Owned(owner, i, k) < Owned(owner, i, n) && Slots(owner, i, n)[Owned(owner, i, k)] == k
    decreases n
  {
    if k < n - 1 {
      SlotFound(owner, i, k, n - 1);
    }
  }

  /** Moves come donor by donor and receiver by receiver in table order, a donor's slots ascending. */
  lemma PlanOrder(owner: seq<u16>, n: nat, x: nat, y: nat)
    requires MapOk(owner, n) && x < y < |Plan(owner, n)|
    ensures var a, b := Plan(owner, n)[x], Plan(owner, n)[y];
      a.src <= b.src && a.dst <= b.dst && (a.src == b.src ==> a.slot < b.slot)
  {
    hide Plan, Ups, Downs, Flat, Slots, Owned, Surplus;
    var a, b := Plan(owner, n)[x], Plan(owner, n)[y];
    var p, q := PlanPlace(owner, n, x);
    var s, t := PlanPlace(owner, n, y);
    var ups, downs := Ups(owner, n), Downs(owner, n);
    if a.src > b.src {
      FlatBelow(ups, b.src, s, a.src);
    }
    if a.dst > b.dst {
      FlatBelow(downs, b.dst, t, a.dst);
    }
    if a.src == b.src && a.slot >= b.slot {
      OwnedGrows(owner, a.src, b.slot, a.slot);
    }
  }

  lemma FlatBelow(ls: seq<seq<nat>>, d: nat, p: nat, e: nat)
    requires d < e <= |ls| && p < |ls[d]|
    ensures |Flat(ls, d)| + p < |Flat(ls, e)|
  {
    FlatAt(ls, d, p, e);
  }

  /** A donor gives its lowest slots: whatever it owns below a slot it gives, it gives before that. */
  lemma LowestFirst(owner: seq<u16>, n: nat, x: nat, k: nat) returns (y: nat)
    requires MapOk(owner, n) && x < |Plan(owner, n)|
    requires k < Plan(owner, n)[x].slot && owner[k] == Plan(owner, n)[x].src
    ensures y < x && Plan(owner, n)[y].slot == k
  {
    hide Plan, Flat, Slots, Owned;
    var m := Plan(owner, n)[x];
    var p, q := PlanPlace(owner, n, x);
    SlotFound(owner, m.src, k, m.slot);
    SlotFound(owner, m.src, k, |owner|);
    var r := Owned(owner, m.src, k);
    ListsAt(owner, n, m.src);
    FlatAt(Ups(owner, n), m.src, r, n);
    y := x - p + r;
  }
}
