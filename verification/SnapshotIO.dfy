/** The loops that write a snapshot out and rebuild a table and its index arrays from one. */
module SnapshotIO {
  import opened Core
  import opened SlotTypes
  import opened SlotMapFacts
  import opened SnapshotCodec
  import opened SnapshotView

  // ----- writing -----

  function Insert(e: NodeEntry, sorted: seq<NodeEntry>): (r: seq<NodeEntry>)
    ensures forall x :: x in r <==> x == e || x in sorted
  {
    if sorted == [] || Less(e.id, sorted[0].id) then [e] + sorted
    else [sorted[0]] + Insert(e, sorted[1..])
  }

  /** The table sorted by id (`sort_by(|a, b| a.id.cmp(&b.id))`). */
  function SortById(nodes: seq<NodeEntry>): (r: seq<NodeEntry>)
    ensures forall x :: x in r <==> x in nodes
  {
    if nodes == [] then [] else Insert(nodes[|nodes| - 1], SortById(nodes[..|nodes| - 1]))
  }

  ghost predicate AscendingIds(s: seq<NodeEntry>)
  {
    forall i, j :: 0 <= i < j < |s| ==> Less(s[i].id, s[j].id)
  }

  lemma {:induction false} InsertKeepsOrder(e: NodeEntry, sorted: seq<NodeEntry>)
    requires AscendingIds(sorted) && forall x :: x in sorted ==> x.id != e.id
    ensures AscendingIds(Insert(e, sorted))
  {
    if sorted != [] {
      LessTotal(e.id, sorted[0].id);
      if Less(e.id, sorted[0].id) {
        forall j | 0 <= j < |sorted| ensures Less(e.id, sorted[j].id) {
          if j > 0 {
            LessTransitive(e.id, sorted[0].id, sorted[j].id);
          }
        }
      } else {
        assert sorted[0] in sorted;
        InsertKeepsOrder(e, sorted[1..]);
        var rest := Insert(e, sorted[1..]);
        forall j | 0 <= j < |rest| ensures Less(sorted[0].id, rest[j].id) {
          assert rest[j] in rest;
        }
      }
    }
  }

  lemma {:induction false} SortByIdSorts(nodes: seq<NodeEntry>)
    requires DistinctIds(nodes)
    ensures AscendingIds(SortById(nodes))
  {
    if nodes != [] {
      SortByIdSorts(nodes[..|nodes| - 1]);
      InsertKeepsOrder(nodes[|nodes| - 1], SortById(nodes[..|nodes| - 1]));
    }
  }

  ghost function Ids(s: seq<NodeEntry>): (r: seq<Str>)
    ensures |r| == |s| && forall i :: 0 <= i < |s| ==> r[i] == s[i].id
  {
    seq(|s|, i requires 0 <= i < |s| => s[i].id)
  }

  /** Whatever the table order was, the sorted table is the by-id list of the nodes. */
  lemma SortedTableIsNodeList(nodes: seq<NodeEntry>)
    requires DistinctIds(nodes)
    ensures SortById(nodes) == NodeList(NodesOf(nodes))
  {
    hide SortById, SortedIds, NodeList, Position, NodesOf, Less, NodeEntry.Ep;
    SortByIdSorts(nodes);
    NodesAt(nodes);
    var a, b := SortById(nodes), NodeList(NodesOf(nodes));
    var ids := SortedIds(NodesOf(nodes).Keys);
    forall x ensures x in Ids(a) <==> x in ids {
      if x in Ids(a) {
        var i :| 0 <= i < |a| && Ids(a)[i] == x;
        assert a[i] in nodes;
        var j :| 0 <= j < |nodes| && nodes[j] == a[i];
      }
      if x in ids {
        var p := Position(nodes, x).value;
        assert nodes[p] in a;
        var i :| 0 <= i < |a| && a[i] == nodes[p];
        assert Ids(a)[i] == x;
      }
    }
    AscendingUnique(Ids(a), ids);
    forall i | 0 <= i < |a| ensures a[i] == b[i] {
      assert Ids(a)[i] == ids[i];
      assert a[i] in nodes;
      var j :| 0 <= j < |nodes| && nodes[j] == a[i];
      SameEntry(a[i], b[i]);
    }
  }

  lemma SameEntry(a: NodeEntry, b: NodeEntry)
    requires a.id == b.id && a.Ep() == b.Ep()
    ensures a == b
  {
  }

  lemma {:induction false} SerAllSnoc<T>(ser: T -> seq<byte>, xs: seq<T>, x: T)
    ensures SerAll(ser, xs + [x]) == SerAll(ser, xs) + ser(x)
  {
    if xs == [] {
      assert [x][1..] == [];
    } else {
      assert (xs + [x])[1..] == xs[1..] + [x];
      SerAllSnoc(ser, xs[1..], x);
    }
  }

  lemma SerNothing<T>(ser: T -> seq<byte>)
    ensures SerAll(ser, []) == []
  {
  }

  method WriteNodes(xs: seq<NodeEntry>) returns (out: seq<byte>)
    ensures out == SerList(SerNode, xs)
  {
    hide LittleEndian, SerU64, SerU16, SerStr, SerAll;
    assert SerAll(SerNode, []) == [] by { SerNothing(SerNode); }
    out := SerU64(|xs|);
    for i := 0 to |xs|
      invariant out == SerU64(|xs|) + SerAll(SerNode, xs[..i])
    {
      ghost var before := out;
      SerAllSnoc(SerNode, xs[..i], xs[i]);
      assert xs[..i + 1] == xs[..i] + [xs[i]];
      out := out + SerStr(xs[i].id);
      out := out + SerStr(xs[i].host);
      out := out + SerU16(xs[i].port);
      assert out == before + SerNode(xs[i]);
    }
    assert xs[..|xs|] == xs;
  }

  method WriteSlotIds(xs: seq<SlotId>) returns (out: seq<byte>)
    ensures out == SerList(SerSlotId, xs)
  {
    hide LittleEndian, SerU64, SerU16, SerStr, SerAll;
    assert SerAll(SerSlotId, []) == [] by { SerNothing(SerSlotId); }
    out := SerU64(|xs|);
    for i := 0 to |xs|
      invariant out == SerU64(|xs|) + SerAll(SerSlotId, xs[..i])
    {
      ghost var before := out;
      SerAllSnoc(SerSlotId, xs[..i], xs[i]);
      assert xs[..i + 1] == xs[..i] + [xs[i]];
      out := out + SerU16(xs[i].slot);
      out := out + SerStr(xs[i].id);
      assert out == before + SerSlotId(xs[i]);
    }
    assert xs[..|xs|] == xs;
  }

  method WriteSlotTags(xs: seq<SlotTag>) returns (out: seq<byte>)
    ensures out == SerList(SerSlotTag, xs)
  {
    hide LittleEndian, SerU64, SerU16, SerStr, SerAll;
    assert SerAll(SerSlotTag, []) == [] by { SerNothing(SerSlotTag); }
    out := SerU64(|xs|);
    for i := 0 to |xs|
      invariant out == SerU64(|xs|) + SerAll(SerSlotTag, xs[..i])
    {
      ghost var before := out;
      SerAllSnoc(SerSlotTag, xs[..i], xs[i]);
      assert xs[..i + 1] == xs[..i] + [xs[i]];
      out := out + SerU16(xs[i].slot);
      out := out + [xs[i].state];
      out := out + SerStr(xs[i].id);
      assert out == before + SerSlotTag(xs[i]);
    }
    assert xs[..|xs|] == xs;
  }

  /** The `(slot, id)` pairs of one index array, ascending by slot. */
  method CollectIds(nodes: seq<NodeEntry>, arr: array<u16>) returns (list: seq<SlotId>)
    requires arr.Length == SLOTS
    ensures list == SlotList(IdsOf(nodes, arr[..]), SLOTS)
  {
    list := [];
    ghost var ids := IdsOf(nodes, arr[..]);
    for slot := 0 to SLOTS
      invariant list == SlotList(ids, slot)
    {
      assert ids[slot] == IdAt(nodes, arr[slot]);
      var id := IdAt(nodes, arr[slot]);
      if id.Some? {
        list := list + [SlotId(slot, id.value)];
      }
    }
  }

  method CollectTags(nodes: seq<NodeEntry>, phase: array<byte>, peer: array<u16>) returns (list: seq<SlotTag>)
    requires phase.Length == peer.Length == SLOTS && TagsOk(phase[..], peer[..])
    ensures list == TagList(MigsOf(nodes, phase[..], peer[..]), SLOTS)
  {
    list := [];
    ghost var mig := MigsOf(nodes, phase[..], peer[..]);
    for slot := 0 to SLOTS
      invariant list == TagList(mig, slot)
    {
      assert mig[slot] == MigAt(nodes, phase[slot], peer[slot]);
      assert phase[..][slot] <= MIG_IMPORTING;
      var id := IdAt(nodes, peer[slot]);
      if phase[slot] != MIG_NONE && id.Some? {
        list := list + [SlotTag(slot, phase[slot], id.value)];
      }
    }
  }

  // ----- rebuilding -----

  /** Self first, then every snapshot node whose id is not there yet. */
  method RebuildTable(self: NodeEntry, snap: seq<NodeEntry>) returns (nodes: seq<NodeEntry>, epochs: seq<nat>)
    ensures DistinctIds(nodes) && 0 < |nodes| <= |snap| + 1 && nodes[0] == self
    ensures |epochs| == |nodes| && forall i :: 0 <= i < |epochs| ==> epochs[i] == 0
    ensures NodesOf(nodes) == MeetAll(map[self.id := self.Ep()], snap)
  {
    hide Position, NodesOf, EpochsOf, NodeEntry.Ep;
    nodes, epochs := [self], [0];
    assert NodesOf([self]) == map[self.id := self.Ep()] by {
      assert [self][0].id == self.id;
      NodesOfIs([self], map[self.id := self.Ep()]);
    }
    for i := 0 to |snap|
      invariant DistinctIds(nodes) && 0 < |nodes| <= i + 1 && nodes[0] == self
      invariant |epochs| == |nodes| && forall i :: 0 <= i < |epochs| ==> epochs[i] == 0
      invariant NodesOf(nodes) == MeetAll(map[self.id := self.Ep()], snap[..i])
    {
      assert snap[..i + 1][..i] == snap[..i];
      if Position(nodes, snap[i].id).None? {
        AppendedPositions(nodes, snap[i]);
        AppendedTables(nodes, epochs, snap[i]);
        nodes := nodes + [snap[i]];
        epochs := epochs + [0];
      }
    }
    assert snap[..|snap|] == snap;
  }

  lemma KnownIsPosition(nodes: seq<NodeEntry>, id: Str)
    ensures id in NodesOf(nodes) <==> Position(nodes, id).Some?
  {
  }

  /** Index and ownership-bit arrays for an owner list; self is at index 0. */
  method FillOwners(nodes: seq<NodeEntry>, list: seq<SlotId>) returns (owner: seq<u16>, mine: seq<bool>)
    requires 0 < |nodes| <= UNASSIGNED && DistinctIds(nodes)
    ensures IndicesOk(owner, |nodes|) && |mine| == SLOTS
    ensures IdsOf(nodes, owner) == FillIds(list, NodesOf(nodes))
    ensures forall k :: 0 <= k < SLOTS ==> (mine[k] <==> owner[k] < |nodes| && nodes[owner[k]].Ep() == nodes[0].Ep())
  {
    hide Position, NodesOf, NodeEntry.Ep;
    owner := seq(SLOTS, k => UNASSIGNED);
    mine := seq(SLOTS, k => false);
    assert IdsOf(nodes, owner) == Nones();
    for i := 0 to |list|
      invariant IndicesOk(owner, |nodes|) && |mine| == SLOTS
      invariant IdsOf(nodes, owner) == FillIds(list[..i], NodesOf(nodes))
      invariant forall k :: 0 <= k < SLOTS ==>
        (mine[k] <==> owner[k] < |nodes| && nodes[owner[k]].Ep() == nodes[0].Ep())
    {
      assert list[..i + 1][..i] == list[..i];
      var p := Position(nodes, list[i].id);
      KnownIsPosition(nodes, list[i].id);
      if list[i].slot < SLOTS && p.Some? {
        ghost var before := IdsOf(nodes, owner);
        owner := owner[list[i].slot := p.value];
        mine := mine[list[i].slot := p.value == 0 || nodes[p.value].Ep() == nodes[0].Ep()];
        assert IdsOf(nodes, owner) == before[list[i].slot := Some(list[i].id)];
      }
    }
    assert list[..|list|] == list;
  }

  method FillReplicas(nodes: seq<NodeEntry>, list: seq<SlotId>) returns (replicas: seq<u16>)
    requires 0 < |nodes| <= UNASSIGNED && DistinctIds(nodes)
    ensures IndicesOk(replicas, |nodes|)
    ensures IdsOf(nodes, replicas) == FillIds(list, NodesOf(nodes))
  {
    hide Position, NodesOf;
    replicas := seq(SLOTS, k => UNASSIGNED);
    assert IdsOf(nodes, replicas) == Nones();
    for i := 0 to |list|
      invariant IndicesOk(replicas, |nodes|)
      invariant IdsOf(nodes, replicas) == FillIds(list[..i], NodesOf(nodes))
    {
      assert list[..i + 1][..i] == list[..i];
      var p := Position(nodes, list[i].id);
      KnownIsPosition(nodes, list[i].id);
      if list[i].slot < SLOTS && p.Some? {
        ghost var before := IdsOf(nodes, replicas);
        replicas := replicas[list[i].slot := p.value];
        assert IdsOf(nodes, replicas) == before[list[i].slot := Some(list[i].id)];
      }
    }
    assert list[..|list|] == list;
  }

  method FillPeers(nodes: seq<NodeEntry>, list: seq<SlotTag>) returns (phase: seq<byte>, peer: seq<u16>)
    requires 0 < |nodes| <= UNASSIGNED && DistinctIds(nodes)
    ensures IndicesOk(peer, |nodes|) && TagsOk(phase, peer)
    ensures MigsOf(nodes, phase, peer) == FillTags(list, NodesOf(nodes))
  {
    hide Position, NodesOf;
    phase := seq(SLOTS, k => MIG_NONE);
    peer := seq(SLOTS, k => UNASSIGNED);
    assert MigsOf(nodes, phase, peer) == Nones();
    for i := 0 to |list|
      invariant IndicesOk(peer, |nodes|) && TagsOk(phase, peer)
      invariant MigsOf(nodes, phase, peer) == FillTags(list[..i], NodesOf(nodes))
    {
      assert list[..i + 1][..i] == list[..i];
      var t := list[i];
      if t.slot < SLOTS && (t.state == MIG_MIGRATING || t.state == MIG_IMPORTING) {
        var p := Position(nodes, t.id);
        KnownIsPosition(nodes, t.id);
        if p.Some? {
          ghost var before := MigsOf(nodes, phase, peer);
          phase := phase[t.slot := t.state];
          peer := peer[t.slot := p.value];
          assert MigsOf(nodes, phase, peer) ==
            before[t.slot := Some(Migration(if t.state == MIG_MIGRATING then Migrating else Importing, t.id))];
        }
      }
    }
    assert list[..|list|] == list;
  }
}
