/** Feeding the ranges of a complete map back through the topology check gives the same owner array. */
module RangesRebuild {
  import opened Core
  import opened SlotTypes
  import opened Ranges
  import T = Topology

  ghost predicate InBounds(runs: seq<Run>)
  {
    forall i :: 0 <= i < |runs| ==> runs[i].start <= runs[i].end < SLOTS
  }

  /** The ranges of entry `i` among the first `n` runs. */
  ghost function RangesFor(runs: seq<Run>, n: nat, i: nat): (r: seq<T.Range>)
    requires n <= |runs| && InBounds(runs)
  {
    if n == 0 then []
    else
      var run := runs[n - 1];
      RangesFor(runs, n - 1, i) + if run.owner == i then [T.Range(run.start, run.end)] else []
  }

  /** The topology a map's ranges declare. */
  ghost function Redeclared(nodes: seq<NodeEntry>, runs: seq<Run>): (t: seq<T.Declared>)
    requires InBounds(runs)
    ensures |t| == |nodes|
    ensures forall i :: 0 <= i < |nodes| ==> t[i] == T.Declared(nodes[i], RangesFor(runs, |runs|, i))
  {
    seq(|nodes|, i requires 0 <= i < |nodes| => T.Declared(nodes[i], RangesFor(runs, |runs|, i)))
  }

  ghost predicate HasRun(runs: seq<Run>, n: nat, i: nat, k: nat)
    requires n <= |runs|
  {
    exists p :: 0 <= p < n && runs[p].owner == i && Contains(runs[p], k)
  }

  lemma NamesAppend(a: seq<T.Range>, r: T.Range, k: nat)
    ensures T.Names(a + [r], k) <==> T.Names(a, k) || T.Covers(r, k)
  {
    if T.Names(a, k) {
      var p :| 0 <= p < |a| && T.Covers(a[p], k);
      assert T.Covers((a + [r])[p], k);
    }
    if T.Covers(r, k) {
      assert T.Covers((a + [r])[|a|], k);
    }
    if T.Names(a + [r], k) {
      var p :| 0 <= p <= |a| && T.Covers((a + [r])[p], k);
      assert p < |a| ==> T.Covers(a[p], k);
    }
  }

  lemma {:induction false} NamesRuns(runs: seq<Run>, n: nat, i: nat, k: nat)
    requires n <= |runs| && InBounds(runs)
    ensures T.Names(RangesFor(runs, n, i), k) <==> HasRun(runs, n, i, k)
  {
    if n > 0 {
      NamesRuns(runs, n - 1, i, k);
      if runs[n - 1].owner == i {
        NamesAppend(RangesFor(runs, n - 1, i), T.Range(runs[n - 1].start, runs[n - 1].end), k);
      } else {
        assert RangesFor(runs, n, i) == RangesFor(runs, n - 1, i);
      }
      assert HasRun(runs, n, i, k) <==>
        HasRun(runs, n - 1, i, k) || (runs[n - 1].owner == i && Contains(runs[n - 1], k));
    }
  }

  lemma {:induction false} RangesForOk(runs: seq<Run>, n: nat, i: nat)
    requires n <= |runs| && InBounds(runs) && Sorted(runs)
    ensures T.RangesOk(RangesFor(runs, n, i))
  {
    if n > 0 {
      RangesForOk(runs, n - 1, i);
      var before, run := RangesFor(runs, n - 1, i), runs[n - 1];
      if run.owner == i {
        var r := T.Range(run.start, run.end);
        var after := before + [r];
        assert after[..|before|] == before && after[|before|] == r && after[..|before| + 1] == after;
        forall k | 0 <= k < SLOTS ensures !(T.Names(before, k) && T.Covers(r, k)) {
          NamesRuns(runs, n - 1, i, k);
        }
        T.RangesGrow(after, |before|);
      } else {
        assert RangesFor(runs, n, i) == before;
      }
    }
  }

  /** In a canonical form, the runs of entry `i` name exactly the slots it owns. */
  lemma RunsNameOwned(runs: seq<Run>, owner: seq<u16>, i: nat, k: nat)
    requires Canonical(runs, owner) && |owner| == SLOTS && InBounds(runs) && k < SLOTS && i < UNASSIGNED
    ensures T.Names(RangesFor(runs, |runs|, i), k) <==> owner[k] == i
  {
    hide RangesFor, T.Names;
    NamesRuns(runs, |runs|, i, k);
    if HasRun(runs, |runs|, i, k) {
      var p :| 0 <= p < |runs| && runs[p].owner == i && Contains(runs[p], k);
      assert Maximal(runs[p], owner);
    }
    if owner[k] == i {
      assert Covered(runs, k);
      var p :| 0 <= p < |runs| && Contains(runs[p], k);
      assert Maximal(runs[p], owner);
    }
  }

  /** Ranges and build are inverse on complete maps: the topology is accepted and resolves to the same owners. */
  lemma RebuildsSameOwners(nodes: seq<NodeEntry>, owner: seq<u16>, self: Str)
    requires |owner| == SLOTS && |nodes| <= UNASSIGNED && DistinctIds(nodes)
    requires forall i :: 0 <= i < |nodes| ==> T.IsValidNodeId(nodes[i].id)
    requires exists i :: 0 <= i < |nodes| && nodes[i].id == self
    requires forall k :: 0 <= k < SLOTS ==> owner[k] < |nodes|
    ensures InBounds(RunsOf(owner, SLOTS))
    ensures T.TopologyOk(Redeclared(nodes, RunsOf(owner, SLOTS)), self)
    ensures forall o :: T.ClaimedBy(Redeclared(nodes, RunsOf(owner, SLOTS)), |nodes|, o) ==> o == owner
  {
    hide RunsOf, RangesFor, T.IsValidNodeId, Canonical, T.Names, T.RangesOk;
    var runs := RunsOf(owner, SLOTS);
    assert owner[..SLOTS] == owner;
    RunsAreCanonical(owner, SLOTS);
    CanonicalBounds(runs, owner);
    var t := Redeclared(nodes, runs);
    forall i | 0 <= i < |t| ensures T.IsValidNodeId(t[i].entry.id) && T.RangesOk(t[i].ranges) {
      RangesForOk(runs, |runs|, i);
      assert t[i].entry == nodes[i];
    }
    forall i, j | 0 <= i < j < |t| ensures t[i].entry.id != t[j].entry.id {
      assert t[i].entry == nodes[i] && t[j].entry == nodes[j];
    }
    forall i, k | 0 <= i < |t| && 0 <= k < SLOTS ensures T.Names(t[i].ranges, k) <==> owner[k] == i {
      RunsNameOwned(runs, owner, i, k);
    }
    forall k | 0 <= k < SLOTS ensures T.Named(t, |t|, k) {
      assert T.Names(t[owner[k]].ranges, k);
    }
    forall i, j, k | 0 <= i < j < |t| && 0 <= k < SLOTS ensures !(T.Names(t[i].ranges, k) && T.Names(t[j].ranges, k)) {
      assert (T.Names(t[i].ranges, k) <==> owner[k] == i) && (T.Names(t[j].ranges, k) <==> owner[k] == j);
    }
    var me :| 0 <= me < |nodes| && nodes[me].id == self;
    assert t[me].entry.id == self;
    assert T.HasId(t, self);
  }

  lemma CanonicalBounds(runs: seq<Run>, owner: seq<u16>)
    requires Canonical(runs, owner) && |owner| == SLOTS
    ensures InBounds(runs) && Sorted(runs)
  {
  }
}
