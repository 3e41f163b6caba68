/** Coalescing the owner array into maximal runs of equal owner. */
module Ranges {
  import opened Core
  import opened SlotTypes

  datatype Run = Run(start: nat, end: nat, owner: u16)

  /** The maximal runs among the first `n` slots. */
  ghost function RunsOf(owner: seq<u16>, n: nat): (runs: seq<Run>)
    requires n <= |owner|
    ensures runs != [] ==> runs[|runs| - 1].start <= runs[|runs| - 1].end < n
  {
    if n == 0 then []
    else
      var before, o := RunsOf(owner, n - 1), owner[n - 1];
      if o == UNASSIGNED then before
      else if Extends(before, n - 1, o) then before[|before| - 1 := before[|before| - 1].(end := n - 1)]
      else before + [Run(n - 1, n - 1, o)]
  }

  /** Slot `n` continues the last run. */
  ghost predicate Extends(runs: seq<Run>, n: nat, o: u16)
  {
    runs != [] && runs[|runs| - 1].end == n - 1 && runs[|runs| - 1].owner == o
  }

  /** `(start, end, owner)` for every maximal run of one owner, ascending; unassigned slots split runs. */
  method Ranges(owner: seq<u16>) returns (out: seq<Run>)
    ensures out == RunsOf(owner, |owner|)
  {
    out := [];
    var open: Option<(nat, u16)> := None;
    for slot := 0 to |owner|
      invariant open.Some? ==> open.value.0 < slot && owner[slot - 1] == open.value.1 != UNASSIGNED
      invariant open.None? && slot > 0 ==> owner[slot - 1] == UNASSIGNED
      invariant RunsOf(owner, slot) == out + if open.Some? then [Run(open.value.0, slot - 1, open.value.1)] else []
    {
      var o := owner[slot];
      if open.Some? {
        if o != open.value.1 {
          out := out + [Run(open.value.0, slot - 1, open.value.1)];
          open := if o == UNASSIGNED then None else Some((slot, o));
        }
      } else {
        open := if o == UNASSIGNED then None else Some((slot, o));
      }
    }
    if open.Some? {
      out := out + [Run(open.value.0, |owner| - 1, open.value.1)];
    }
  }

  // ----- the canonical form -----

  ghost predicate Sorted(runs: seq<Run>)
  {
    forall i, j :: 0 <= i < j < |runs| ==> runs[i].end < runs[j].start
  }

  /** One owner from end to end, and a different one (or nobody) on either side. */
  ghost predicate Maximal(r: Run, owner: seq<u16>)
  {
    && r.start <= r.end < |owner| && r.owner != UNASSIGNED
    && (forall k :: r.start <= k <= r.end ==> owner[k] == r.owner)
    && (r.start > 0 ==> owner[r.start - 1] != r.owner)
    && (r.end + 1 < |owner| ==> owner[r.end + 1] != r.owner)
  }

  predicate Contains(r: Run, k: nat) { r.start <= k <= r.end }

  ghost predicate Covered(runs: seq<Run>, k: nat)
  {
    exists i :: 0 <= i < |runs| && Contains(runs[i], k)
  }

  /** Sorted, disjoint, maximal runs that cover exactly the assigned slots, each under its owner. */
  ghost predicate Canonical(runs: seq<Run>, owner: seq<u16>)
  {
    && Sorted(runs)
    && (forall i :: 0 <= i < |runs| ==> Maximal(runs[i], owner))
    && (forall k :: 0 <= k < |owner| ==> (Covered(runs, k) <==> owner[k] != UNASSIGNED))
  }

  lemma {:induction false} RunsAreCanonical(owner: seq<u16>, n: nat)
    requires n <= |owner|
    ensures Canonical(RunsOf(owner, n), owner[..n])
  {
    hide Canonical;
    if n == 0 {
      NothingCanonical();
      assert owner[..0] == [];
    } else {
      RunsAreCanonical(owner, n - 1);
      var before, o := RunsOf(owner, n - 1), owner[n - 1];
      assert owner[..n][..n - 1] == owner[..n - 1];
      if o == UNASSIGNED {
        UnassignedGrows(before, owner[..n]);
      } else if Extends(before, n - 1, o) {
        LastRunGrows(before, owner[..n]);
      } else {
        NewRun(before, owner[..n]);
      }
    }
  }

  lemma NothingCanonical()
    ensures Canonical([], [])
  {
  }

  lemma UnassignedGrows(runs: seq<Run>, owner: seq<u16>)
    requires owner != [] && owner[|owner| - 1] == UNASSIGNED && Canonical(runs, owner[..|owner| - 1])
    ensures Canonical(runs, owner)
  {
    hide Maximal, Covered;
    var init := owner[..|owner| - 1];
    forall i | 0 <= i < |runs| ensures Maximal(runs[i], owner) && runs[i].end < |init| {
      MaximalBounds(runs[i], init);
      StaysMaximal(runs[i], owner);
    }
    forall k | 0 <= k < |owner| ensures Covered(runs, k) <==> owner[k] != UNASSIGNED {
      if k < |init| {
        assert init[k] == owner[k];
      } else {
        CoverNone(runs, k);
      }
    }
  }

  lemma CoverNone(runs: seq<Run>, k: nat)
    requires forall i :: 0 <= i < |runs| ==> runs[i].end < k
    ensures !Covered(runs, k)
  {
  }

  /** A maximal run stays maximal when a slot it does not continue into is added. */
  lemma StaysMaximal(r: Run, owner: seq<u16>)
    requires owner != [] && Maximal(r, owner[..|owner| - 1])
    requires r.end + 1 < |owner| - 1 || owner[|owner| - 1] != r.owner
    ensures Maximal(r, owner)
  {
  }

  /** Runs that differ only at slot `n` cover the same slots below it. */
  lemma CoverSame(a: seq<Run>, b: seq<Run>, k: nat)
    requires |a| <= |b| && forall i :: 0 <= i < |a| ==> (Contains(a[i], k) <==> Contains(b[i], k))
    requires forall i :: |a| <= i < |b| ==> !Contains(b[i], k)
    ensures Covered(a, k) <==> Covered(b, k)
  {
  }

  lemma LastRunGrows(runs: seq<Run>, owner: seq<u16>)
    requires owner != [] && owner[|owner| - 1] != UNASSIGNED && Canonical(runs, owner[..|owner| - 1])
    requires Extends(runs, |owner| - 1, owner[|owner| - 1])
    ensures Canonical(runs[|runs| - 1 := runs[|runs| - 1].(end := |owner| - 1)], owner)
  {
    hide Maximal, Covered;
    var init, last := owner[..|owner| - 1], |runs| - 1;
    var after := runs[last := runs[last].(end := |owner| - 1)];
    forall i | 0 <= i < |after| ensures Maximal(after[i], owner) {
      if i < last {
        assert runs[i].end < runs[last].start;
        EarlierRun(runs[i], runs[last], owner);
      } else {
        assert Maximal(runs[last], init);
        GrownMaximal(runs[last], owner);
      }
    }
    MaximalBounds(runs[last], init);
    forall k | 0 <= k < |owner| ensures Covered(after, k) <==> owner[k] != UNASSIGNED {
      if k < |init| {
        assert init[k] == owner[k];
        CoverSame(runs, after, k);
      } else {
        CoverAt(after, last, k);
      }
    }
  }

  lemma CoverAt(runs: seq<Run>, i: nat, k: nat)
    requires i < |runs| && Contains(runs[i], k)
    ensures Covered(runs, k)
  {
  }

  lemma EarlierRun(r: Run, last: Run, owner: seq<u16>)
    requires owner != [] && Maximal(r, owner[..|owner| - 1]) && Maximal(last, owner[..|owner| - 1])
    requires r.end < last.start
    ensures Maximal(r, owner)
  {
  }

  lemma GrownMaximal(r: Run, owner: seq<u16>)
    requires owner != [] && Maximal(r, owner[..|owner| - 1])
    requires r.end + 1 == |owner| - 1 && owner[|owner| - 1] == r.owner
    ensures Maximal(r.(end := |owner| - 1), owner)
  {
  }

  lemma NewRun(runs: seq<Run>, owner: seq<u16>)
    requires owner != [] && owner[|owner| - 1] != UNASSIGNED && Canonical(runs, owner[..|owner| - 1])
    requires !Extends(runs, |owner| - 1, owner[|owner| - 1])
    ensures Canonical(runs + [Run(|owner| - 1, |owner| - 1, owner[|owner| - 1])], owner)
  {
    hide Maximal, Covered;
    var init, n := owner[..|owner| - 1], |owner| - 1;
    var after := runs + [Run(n, n, owner[n])];
    forall i | 0 <= i < |runs| ensures Maximal(runs[i], owner) && runs[i].end < n {
      MaximalBounds(runs[i], init);
      if i < |runs| - 1 {
        MaximalBounds(runs[|runs| - 1], init);
        EarlierRun(runs[i], runs[|runs| - 1], owner);
      } else {
        StaysMaximal(runs[i], owner);
      }
    }
    FreshMaximal(runs, owner);
    forall k | 0 <= k < |owner| ensures Covered(after, k) <==> owner[k] != UNASSIGNED {
      if k < n {
        assert init[k] == owner[k];
        CoverSame(runs, after, k);
      } else {
        CoverAt(after, |runs|, k);
      }
    }
  }

  lemma MaximalBounds(r: Run, owner: seq<u16>)
    requires Maximal(r, owner)
    ensures r.start <= r.end < |owner| && r.owner != UNASSIGNED
  {
  }

  lemma FreshMaximal(runs: seq<Run>, owner: seq<u16>)
    requires owner != [] && owner[|owner| - 1] != UNASSIGNED && Canonical(runs, owner[..|owner| - 1])
    requires !Extends(runs, |owner| - 1, owner[|owner| - 1])
    ensures Maximal(Run(|owner| - 1, |owner| - 1, owner[|owner| - 1]), owner)
  {
    hide Canonical;
    var init, n := owner[..|owner| - 1], |owner| - 1;
    if n > 0 && init[n - 1] != UNASSIGNED {
      LastAssigned(runs, init);
    }
  }

  /** An assigned last slot belongs to the last run. */
  lemma LastAssigned(runs: seq<Run>, owner: seq<u16>)
    requires owner != [] && owner[|owner| - 1] != UNASSIGNED && Canonical(runs, owner)
    ensures Extends(runs, |owner|, owner[|owner| - 1])
  {
    hide Canonical, Maximal;
    var k := |owner| - 1;
    assert Covered(runs, k) by { CanonicalCovers(runs, owner, k); }
    var i :| 0 <= i < |runs| && Contains(runs[i], k);
    CanonicalRun(runs, owner, i, k);
    if i < |runs| - 1 {
      CanonicalRun(runs, owner, i + 1, k);
      CanonicalSorted(runs, owner, i);
    }
  }

  lemma CanonicalCovers(runs: seq<Run>, owner: seq<u16>, k: nat)
    requires Canonical(runs, owner) && k < |owner| && owner[k] != UNASSIGNED
    ensures Covered(runs, k)
  {
  }

  lemma CanonicalRun(runs: seq<Run>, owner: seq<u16>, i: nat, k: nat)
    requires Canonical(runs, owner) && i < |runs| && k < |owner|
    ensures runs[i].start <= runs[i].end < |owner| && (Contains(runs[i], k) ==> owner[k] == runs[i].owner)
  {
    assert Maximal(runs[i], owner);
  }

  lemma CanonicalSorted(runs: seq<Run>, owner: seq<u16>, i: nat)
    requires Canonical(runs, owner) && i + 1 < |runs|
    ensures runs[i].end < runs[i + 1].start
  {
  }

  /** Two maximal runs that share a slot are the same run. */
  lemma SharedSlotSameRun(a: Run, b: Run, owner: seq<u16>, k: nat)
    requires Maximal(a, owner) && Maximal(b, owner) && Contains(a, k) && Contains(b, k)
    ensures a == b
  {
    assert owner[k] == a.owner == b.owner;
  }

  lemma CanonicalHasEveryRun(a: seq<Run>, b: seq<Run>, owner: seq<u16>, r: Run)
    requires Canonical(a, owner) && Canonical(b, owner) && r in a
    ensures r in b
  {
    var i :| 0 <= i < |a| && a[i] == r;
    assert Maximal(a[i], owner) && Contains(a[i], r.start);
    assert Covered(b, r.start);
    var j :| 0 <= j < |b| && Contains(b[j], r.start);
    SharedSlotSameRun(r, b[j], owner, r.start);
  }

  lemma SortedHeads(a: seq<Run>, b: seq<Run>)
    requires Sorted(a) && Sorted(b) && a != [] && b != [] && a[0] in b && b[0] in a
    requires a[0].start <= a[0].end && b[0].start <= b[0].end
    ensures a[0] == b[0]
  {
  }

  ghost predicate NonEmpty(runs: seq<Run>)
  {
    forall i :: 0 <= i < |runs| ==> runs[i].start <= runs[i].end
  }

  lemma {:induction false} SortedUnique(a: seq<Run>, b: seq<Run>)
    requires Sorted(a) && Sorted(b) && NonEmpty(a) && NonEmpty(b)
    requires forall r :: r in a <==> r in b
    ensures a == b
  {
    if a == [] || b == [] {
      var r := if a != [] then a[0] else if b != [] then b[0] else Run(0, 0, 0);
      assert r in a <==> r in b;
    } else {
      SortedHeads(a, b);
      forall r ensures r in a[1..] <==> r in b[1..] {
        TailMembers(a, r);
        TailMembers(b, r);
      }
      SortedUnique(a[1..], b[1..]);
      assert a == [a[0]] + a[1..] && b == [b[0]] + b[1..];
    }
  }

  lemma TailMembers(a: seq<Run>, r: Run)
    requires a != [] && Sorted(a) && NonEmpty(a)
    ensures r in a[1..] <==> r in a && r != a[0]
  {
  }

  /** The canonical form is unique, so the ranges say exactly what the array says. */
  lemma CanonicalUnique(a: seq<Run>, b: seq<Run>, owner: seq<u16>)
    requires Canonical(a, owner) && Canonical(b, owner)
    ensures a == b
  {
    forall r ensures r in a <==> r in b {
      if r in a {
        CanonicalHasEveryRun(a, b, owner, r);
      }
      if r in b {
        CanonicalHasEveryRun(b, a, owner, r);
      }
    }
    assert NonEmpty(a) by { assert forall i :: 0 <= i < |a| ==> Maximal(a[i], owner); }
    assert NonEmpty(b) by { assert forall i :: 0 <= i < |b| ==> Maximal(b[i], owner); }
    SortedUnique(a, b);
  }

  // ----- counting -----

  /** How many of the first `n` slots entry `i` owns. */
  ghost function Owned(owner: seq<u16>, i: u16, n: nat): nat
    requires n <= |owner|
  {
    if n == 0 then 0 else Owned(owner, i, n - 1) + if owner[n - 1] == i then 1 else 0
  }

  ghost function Assigned(owner: seq<u16>, n: nat): nat
    requires n <= |owner|
  {
    if n == 0 then 0 else Assigned(owner, n - 1) + if owner[n - 1] != UNASSIGNED then 1 else 0
  }

  /** Total slots in the runs of entry `i`. */
  ghost function LengthFor(runs: seq<Run>, i: u16): int
  {
    if runs == [] then 0
    else
      var r := runs[|runs| - 1];
      LengthFor(runs[..|runs| - 1], i) + if r.owner == i then r.end - r.start + 1 else 0
  }

  ghost function TotalLength(runs: seq<Run>): int
  {
    if runs == [] then 0
    else TotalLength(runs[..|runs| - 1]) + runs[|runs| - 1].end - runs[|runs| - 1].start + 1
  }

  /** All but the last run, before and after one more assigned slot. */
  lemma LastRun(owner: seq<u16>, n: nat)
    requires 0 < n <= |owner| && owner[n - 1] != UNASSIGNED
    ensures var before, after := RunsOf(owner, n - 1), RunsOf(owner, n);
      && after != []
      && after[..|after| - 1] ==
           if Extends(before, n - 1, owner[n - 1]) then before[..|before| - 1] else before
  {
  }

  /** The runs of a node hold exactly its slots. */
  lemma {:induction false} RunsCount(owner: seq<u16>, n: nat, i: u16)
    requires n <= |owner| && i != UNASSIGNED
    ensures LengthFor(RunsOf(owner, n), i) == Owned(owner, i, n)
  {
    if n > 0 {
      RunsCount(owner, n - 1, i);
      if owner[n - 1] != UNASSIGNED {
        LastRun(owner, n);
      }
    }
  }

  /** All runs together hold exactly the assigned slots. */
  lemma {:induction false} RunsTotal(owner: seq<u16>, n: nat)
    requires n <= |owner|
    ensures TotalLength(RunsOf(owner, n)) == Assigned(owner, n)
  {
    if n > 0 {
      RunsTotal(owner, n - 1);
      if owner[n - 1] != UNASSIGNED {
        LastRun(owner, n);
      }
    }
  }
}
