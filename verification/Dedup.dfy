/** Collapsing table entries that advertise the same endpoint: which entry stays, and where each index goes. */
module Dedup {
  import opened Core
  import opened SlotTypes

  /** The lowest index, searching from `from`, that holds endpoint `ep`. */
  ghost function First(nodes: seq<NodeEntry>, ep: Endpoint, from: nat): (f: nat)
    requires exists i :: from <= i < |nodes| && nodes[i].Ep() == ep
    ensures from <= f < |nodes| && nodes[f].Ep() == ep
    ensures forall j :: from <= j < f ==> nodes[j].Ep() != ep
    decreases |nodes| - from
  {
    if nodes[from].Ep() == ep then from else First(nodes, ep, from + 1)
  }

  /** The entry that stands for the endpoint of entry `i` once `n` entries are known: self if seen, else the lowest. */
  ghost function Leader(nodes: seq<NodeEntry>, me: nat, n: nat, i: nat): (l: nat)
    requires me < |nodes| && i < |nodes|
    ensures l < |nodes| && nodes[l].Ep() == nodes[i].Ep()
  {
    if me < n && nodes[me].Ep() == nodes[i].Ep() then me else First(nodes, nodes[i].Ep(), 0)
  }

  /** The entry kept for the endpoint of entry `i`. */
  ghost function Canonical(nodes: seq<NodeEntry>, me: nat, i: nat): (l: nat)
    requires me < |nodes| && i < |nodes|
    ensures l < |nodes| && nodes[l].Ep() == nodes[i].Ep()
  {
    Leader(nodes, me, |nodes|, i)
  }

  ghost predicate Kept(nodes: seq<NodeEntry>, me: nat, i: nat)
    requires me < |nodes| && i < |nodes|
  {
    Canonical(nodes, me, i) == i
  }

  ghost predicate EndpointsDistinct(nodes: seq<NodeEntry>)
  {
    forall i, j :: 0 <= i < j < |nodes| ==> nodes[i].Ep() != nodes[j].Ep()
  }

  /** A kept entry is self, or shares no endpoint with self nor with anything before it. */
  lemma KeptMeans(nodes: seq<NodeEntry>, me: nat, i: nat)
    requires me < |nodes| && i < |nodes|
    ensures Kept(nodes, me, i) <==>
      i == me || (nodes[i].Ep() != nodes[me].Ep() && forall j :: 0 <= j < i ==> nodes[j].Ep() != nodes[i].Ep())
  {
  }

  lemma CanonicalIsKept(nodes: seq<NodeEntry>, me: nat, i: nat)
    requires me < |nodes| && i < |nodes|
    ensures Kept(nodes, me, Canonical(nodes, me, i))
  {
  }

  /** A second leader for an endpoint is impossible. */
  lemma LeadersAgree(nodes: seq<NodeEntry>, me: nat, n: nat, i: nat, j: nat)
    requires me < |nodes| && i < |nodes| && j < |nodes| && nodes[i].Ep() == nodes[j].Ep()
    ensures Leader(nodes, me, n, i) == Leader(nodes, me, n, j)
  {
  }

  /** Map each index to its canonical entry, in one pass over pairs, re-pointing a group when self turns up late. */
  method FindCanonical(nodes: seq<NodeEntry>, me: nat) returns (canonical: seq<nat>)
    requires me < |nodes|
    ensures |canonical| == |nodes|
    ensures forall i :: 0 <= i < |nodes| ==> canonical[i] == Canonical(nodes, me, i)
  {
    hide NodeEntry.Ep, First;
    var n := |nodes|;
    canonical := seq(n, i => i);
    for i := 0 to n
      invariant |canonical| == n
      invariant forall a :: 0 <= a < i ==> canonical[a] == Leader(nodes, me, i, a)
      invariant forall a :: i <= a < n ==> canonical[a] == a
    {
      ghost var before := canonical;
      var j := 0;
      while j < i && !(canonical[j] == j && nodes[j].Ep() == nodes[i].Ep())
        invariant j <= i
        invariant forall b :: 0 <= b < j ==> !(canonical[b] == b && nodes[b].Ep() == nodes[i].Ep())
      {
        j := j + 1;
      }
      if j < i {
        if i == me {
          for c := 0 to n
            invariant |canonical| == n
            invariant forall a :: 0 <= a < c ==> canonical[a] == if before[a] == j then i else before[a]
            invariant forall a :: c <= a < n ==> canonical[a] == before[a]
          {
            if canonical[c] == j {
              canonical := canonical[c := i];
            }
          }
          canonical := canonical[i := i];
        } else {
          canonical := canonical[i := canonical[j]];
        }
      }
      PrefixGrows(nodes, me, i, before, canonical, j);
    }
  }

  lemma PrefixGrows(nodes: seq<NodeEntry>, me: nat, i: nat, before: seq<nat>, after: seq<nat>, j: nat)
    requires me < |nodes| && i < |nodes| == |before| == |after| && j <= i
    requires forall a :: 0 <= a < i ==> before[a] == Leader(nodes, me, i, a)
    requires forall a :: i <= a < |nodes| ==> before[a] == a
    requires forall b :: 0 <= b < j ==> !(before[b] == b && nodes[b].Ep() == nodes[i].Ep())
    requires j < i ==> before[j] == j && nodes[j].Ep() == nodes[i].Ep()
    requires j == i ==> after == before
    requires j < i && i != me ==> after == before[i := j]
    requires j < i && i == me ==> forall a :: 0 <= a < |nodes| ==> after[a] == if before[a] == j then i else before[a]
    ensures forall a :: 0 <= a <= i ==> after[a] == Leader(nodes, me, i + 1, a)
    ensures forall a :: i < a < |nodes| ==> after[a] == a
  {
  }

  // ----- compaction -----

  /** How many entries below `i` are kept: the new index of a kept entry `i`. */
  ghost function Rank(nodes: seq<NodeEntry>, me: nat, i: nat): nat
    requires me < |nodes| && i <= |nodes|
  {
    if i == 0 then 0 else Rank(nodes, me, i - 1) + if Kept(nodes, me, i - 1) then 1 else 0
  }

  /** The kept positions of a list parallel to the table, in order. */
  ghost function Compact<T>(nodes: seq<NodeEntry>, me: nat, xs: seq<T>, i: nat): (r: seq<T>)
    requires me < |nodes| == |xs| && i <= |nodes|
    ensures |r| == Rank(nodes, me, i)
  {
    if i == 0 then []
    else Compact(nodes, me, xs, i - 1) + if Kept(nodes, me, i - 1) then [xs[i - 1]] else []
  }

  lemma {:induction false} RankBelow(nodes: seq<NodeEntry>, me: nat, i: nat, n: nat)
    requires me < |nodes| && i < n <= |nodes| && Kept(nodes, me, i)
    ensures Rank(nodes, me, i) < Rank(nodes, me, n)
    decreases n
  {
    if i < n - 1 {
      RankBelow(nodes, me, i, n - 1);
    }
  }

  lemma {:induction false} CompactAt<T>(nodes: seq<NodeEntry>, me: nat, xs: seq<T>, i: nat, n: nat)
    requires me < |nodes| == |xs| && i < n <= |nodes| && Kept(nodes, me, i)
    ensures Rank(nodes, me, i) < Rank(nodes, me, n)
    ensures Compact(nodes, me, xs, n)[Rank(nodes, me, i)] == xs[i]
    decreases n
  {
    RankBelow(nodes, me, i, n);
    if i < n - 1 {
      CompactAt(nodes, me, xs, i, n - 1);
    }
  }

  /** Every compacted entry comes from a kept position. */
  lemma {:induction false} CompactFrom<T>(nodes: seq<NodeEntry>, me: nat, xs: seq<T>, n: nat, p: nat) returns (i: nat)
    requires me < |nodes| == |xs| && n <= |nodes| && p < Rank(nodes, me, n)
    ensures i < n && Kept(nodes, me, i) && Rank(nodes, me, i) == p
    decreases n
  {
    if Kept(nodes, me, n - 1) && p == Rank(nodes, me, n - 1) {
      i := n - 1;
    } else {
      i := CompactFrom(nodes, me, xs, n - 1, p);
    }
  }

  lemma {:induction false} RankAtMost(nodes: seq<NodeEntry>, me: nat, n: nat)
    requires me < |nodes| && n <= |nodes|
    ensures Rank(nodes, me, n) <= n
    ensures Rank(nodes, me, n) == n <==> forall i :: 0 <= i < n ==> Kept(nodes, me, i)
  {
    if n > 0 {
      RankAtMost(nodes, me, n - 1);
    }
  }

  /** If everything is kept, compaction changes nothing. */
  lemma {:induction false} CompactAll<T>(nodes: seq<NodeEntry>, me: nat, xs: seq<T>, n: nat)
    requires me < |nodes| == |xs| && n <= |nodes| && forall i :: 0 <= i < n ==> Kept(nodes, me, i)
    ensures Compact(nodes, me, xs, n) == xs[..n]
  {
    if n > 0 {
      CompactAll(nodes, me, xs, n - 1);
    }
  }

  /** The survivors in order, with a translation from old to new indices. */
  method CompactTables(nodes: seq<NodeEntry>, epochs: seq<nat>, me: nat, canonical: seq<nat>)
    returns (oldToNew: seq<nat>, newNodes: seq<NodeEntry>, newEpochs: seq<nat>)
    requires me < |nodes| == |epochs| == |canonical| <= UNASSIGNED
    requires forall i :: 0 <= i < |nodes| ==> canonical[i] == Canonical(nodes, me, i)
    ensures newNodes == Compact(nodes, me, nodes, |nodes|)
    ensures newEpochs == Compact(nodes, me, epochs, |nodes|)
    ensures |oldToNew| == |nodes|
    ensures forall i :: 0 <= i < |nodes| ==> oldToNew[i] <= UNASSIGNED
    ensures forall i :: 0 <= i < |nodes| ==>
      canonical[i] < |nodes| && oldToNew[canonical[i]] == NewIndex(nodes, me, i)
  {
    hide Canonical, NodeEntry.Ep, Kept, Rank;
    oldToNew := seq(|nodes|, i => UNASSIGNED as nat);
    newNodes, newEpochs := [], [];
    for i := 0 to |nodes|
      invariant |oldToNew| == |nodes|
      invariant newNodes == Compact(nodes, me, nodes, i)
      invariant newEpochs == Compact(nodes, me, epochs, i)
      invariant forall a :: 0 <= a < |nodes| ==> oldToNew[a] <= UNASSIGNED
      invariant forall a :: 0 <= a < i && Kept(nodes, me, a) ==> oldToNew[a] == Rank(nodes, me, a)
    {
      assert Rank(nodes, me, i) <= i by { RankAtMost(nodes, me, i); }
      assert Kept(nodes, me, i) <==> canonical[i] == i by { KeptIsCanonical(nodes, me, i); }
      if canonical[i] == i {
        oldToNew := oldToNew[i := |newNodes|];
        newNodes := newNodes + [nodes[i]];
        newEpochs := newEpochs + [epochs[i]];
      }
    }
    forall i | 0 <= i < |nodes| ensures oldToNew[canonical[i]] == NewIndex(nodes, me, i) {
      CanonicalIsKept(nodes, me, i);
    }
  }

  lemma KeptIsCanonical(nodes: seq<NodeEntry>, me: nat, i: nat)
    requires me < |nodes| && i < |nodes|
    ensures Kept(nodes, me, i) <==> Canonical(nodes, me, i) == i
  {
  }

  /** The new table: ids still distinct, endpoints now distinct, every endpoint still there. */
  lemma CompactTable(nodes: seq<NodeEntry>, me: nat)
    requires me < |nodes| && DistinctIds(nodes)
    ensures var t := Compact(nodes, me, nodes, |nodes|);
      DistinctIds(t) && EndpointsDistinct(t) && 0 < |t| <= |nodes|
    ensures forall i :: 0 <= i < |nodes| ==> KeptAs(nodes, me, i)
  {
    var t := Compact(nodes, me, nodes, |nodes|);
    forall a, b | 0 <= a < b < |t| ensures t[a].id != t[b].id && t[a].Ep() != t[b].Ep() {
      var i := CompactFrom(nodes, me, nodes, |nodes|, a);
      var j := CompactFrom(nodes, me, nodes, |nodes|, b);
      CompactAt(nodes, me, nodes, i, |nodes|);
      CompactAt(nodes, me, nodes, j, |nodes|);
      if nodes[i].Ep() == nodes[j].Ep() {
        LeadersAgree(nodes, me, |nodes|, i, j);
      }
      assert i != j;
    }
    forall i | 0 <= i < |nodes| ensures KeptAs(nodes, me, i) {
      CanonicalIsKept(nodes, me, i);
      CompactAt(nodes, me, nodes, Canonical(nodes, me, i), |nodes|);
    }
    assert KeptAs(nodes, me, me);
    RankAtMost(nodes, me, |nodes|);
  }

  /** Where entry `i`'s canonical entry lands. */
  ghost function NewIndex(nodes: seq<NodeEntry>, me: nat, i: nat): nat
    requires me < |nodes| && i < |nodes|
  {
    Rank(nodes, me, Canonical(nodes, me, i))
  }

  ghost predicate KeptAs(nodes: seq<NodeEntry>, me: nat, i: nat)
    requires me < |nodes| && i < |nodes|
  {
    var t := Compact(nodes, me, nodes, |nodes|);
    NewIndex(nodes, me, i) < |t| && t[NewIndex(nodes, me, i)] == nodes[Canonical(nodes, me, i)]
  }

  /** An endpoint-distinct table keeps everything. */
  lemma DistinctKeepsAll(nodes: seq<NodeEntry>, me: nat)
    requires me < |nodes|
    ensures EndpointsDistinct(nodes) <==> forall i :: 0 <= i < |nodes| ==> Kept(nodes, me, i)
  {
    if forall i :: 0 <= i < |nodes| ==> Kept(nodes, me, i) {
      forall i, j | 0 <= i < j < |nodes| ensures nodes[i].Ep() != nodes[j].Ep() {
        assert Kept(nodes, me, i) && Kept(nodes, me, j);
        if nodes[i].Ep() == nodes[j].Ep() {
          LeadersAgree(nodes, me, |nodes|, i, j);
        }
      }
    }
  }

  // ----- what the collapse means for a layout -----

  ghost function EpAt(nodes: seq<NodeEntry>, x: u16): Option<Endpoint>
  {
    if x < |nodes| then Some(nodes[x].Ep()) else None
  }

  /** Stored indices, read as endpoints. */
  ghost function EpsOf(nodes: seq<NodeEntry>, xs: seq<u16>): (r: seq<Option<Endpoint>>)
    ensures |r| == |xs|
    ensures forall k :: 0 <= k < |xs| ==> r[k] == EpAt(nodes, xs[k])
  {
    seq(|xs|, k requires 0 <= k < |xs| => EpAt(nodes, xs[k]))
  }

  /** `ys` is `xs` with every index replaced by where its canonical entry went. */
  ghost predicate Moved(nodes: seq<NodeEntry>, me: nat, xs: seq<u16>, ys: seq<u16>)
    requires me < |nodes| && IndicesOk(xs, |nodes|)
  {
    |ys| == SLOTS && forall k :: 0 <= k < SLOTS ==>
      ys[k] == if xs[k] == UNASSIGNED then UNASSIGNED else NewIndex(nodes, me, xs[k])
  }

  lemma MovedMeans(nodes: seq<NodeEntry>, me: nat, xs: seq<u16>, ys: seq<u16>)
    requires me < |nodes| <= UNASSIGNED && DistinctIds(nodes) && IndicesOk(xs, |nodes|) && Moved(nodes, me, xs, ys)
    ensures IndicesOk(ys, |Compact(nodes, me, nodes, |nodes|)|)
    ensures EpsOf(Compact(nodes, me, nodes, |nodes|), ys) == EpsOf(nodes, xs)
    ensures forall k :: 0 <= k < SLOTS ==> (ys[k] == UNASSIGNED <==> xs[k] == UNASSIGNED)
  {
    hide Compact, Rank, Canonical, NodeEntry.Ep;
    CompactTable(nodes, me);
    var t := Compact(nodes, me, nodes, |nodes|);
    forall k | 0 <= k < SLOTS
      ensures (ys[k] < |t| || ys[k] == UNASSIGNED) && (ys[k] == UNASSIGNED <==> xs[k] == UNASSIGNED)
      ensures EpAt(t, ys[k]) == EpAt(nodes, xs[k])
    {
      if xs[k] != UNASSIGNED {
        assert KeptAs(nodes, me, xs[k]);
      }
    }
  }

  lemma DedupMeans(s: MapState, t: MapState)
    requires Inv(s)
    requires t.nodes == Compact(s.nodes, s.me, s.nodes, |s.nodes|)
    requires t.epochs == Compact(s.nodes, s.me, s.epochs, |s.nodes|)
    requires t.me == NewIndex(s.nodes, s.me, s.me)
    requires Moved(s.nodes, s.me, s.owner, t.owner)
    requires Moved(s.nodes, s.me, s.replicas, t.replicas)
    requires Moved(s.nodes, s.me, s.peer, t.peer)
    requires t.mine == s.mine && t.phase == s.phase
    ensures Inv(t) && t.nodes[t.me] == s.nodes[s.me]
    ensures EpsOf(t.nodes, t.owner) == EpsOf(s.nodes, s.owner)
    ensures EpsOf(t.nodes, t.replicas) == EpsOf(s.nodes, s.replicas)
    ensures EpsOf(t.nodes, t.peer) == EpsOf(s.nodes, s.peer)
  {
    hide Compact, Rank, NodeEntry.Ep, Moved;
    CompactTable(s.nodes, s.me);
    MovedMeans(s.nodes, s.me, s.owner, t.owner);
    MovedMeans(s.nodes, s.me, s.replicas, t.replicas);
    MovedMeans(s.nodes, s.me, s.peer, t.peer);
    assert KeptAs(s.nodes, s.me, s.me);
    forall k | 0 <= k < SLOTS
      ensures t.mine[k] <==> t.owner[k] < |t.nodes| && t.nodes[t.owner[k]].Ep() == t.nodes[t.me].Ep()
    {
      assert EpsOf(t.nodes, t.owner)[k] == EpsOf(s.nodes, s.owner)[k];
    }
  }

  /** In terms of ids: the slot's owner, replica and peer are still somebody at the endpoint they were at. */
  ghost predicate SameEndpoints(v: View, w: View, k: nat)
  {
    && k < |v.owner| == |w.owner| && k < |v.replica| == |w.replica| && k < |v.mig| == |w.mig|
    && (w.owner[k].Some? <==> v.owner[k].Some?) && (w.replica[k].Some? <==> v.replica[k].Some?)
    && (w.mig[k].Some? <==> v.mig[k].Some?)
    && (v.owner[k].Some? ==>
          v.owner[k].value in v.nodes && w.owner[k].value in w.nodes &&
          w.nodes[w.owner[k].value] == v.nodes[v.owner[k].value])
    && (v.replica[k].Some? ==>
          v.replica[k].value in v.nodes && w.replica[k].value in w.nodes &&
          w.nodes[w.replica[k].value] == v.nodes[v.replica[k].value])
    && (v.mig[k].Some? ==>
          w.mig[k].value.phase == v.mig[k].value.phase &&
          v.mig[k].value.peer in v.nodes && w.mig[k].value.peer in w.nodes &&
          w.nodes[w.mig[k].value.peer] == v.nodes[v.mig[k].value.peer])
  }

  lemma EndpointsKept(s: MapState, t: MapState)
    requires Inv(s) && Inv(t) && t.phase == s.phase
    requires EpsOf(t.nodes, t.owner) == EpsOf(s.nodes, s.owner)
    requires EpsOf(t.nodes, t.replicas) == EpsOf(s.nodes, s.replicas)
    requires EpsOf(t.nodes, t.peer) == EpsOf(s.nodes, s.peer)
    ensures forall k :: 0 <= k < SLOTS ==> SameEndpoints(ViewOf(s), ViewOf(t), k)
  {
    hide NodesOf, NodeEntry.Ep, Position, DistinctIds, Lockstep;
    NodesAt(s.nodes);
    NodesAt(t.nodes);
    forall k | 0 <= k < SLOTS ensures SameEndpoints(ViewOf(s), ViewOf(t), k) {
      assert EpsOf(t.nodes, t.owner)[k] == EpsOf(s.nodes, s.owner)[k];
      assert EpsOf(t.nodes, t.replicas)[k] == EpsOf(s.nodes, s.replicas)[k];
      assert EpsOf(t.nodes, t.peer)[k] == EpsOf(s.nodes, s.peer)[k];
    }
  }
}
