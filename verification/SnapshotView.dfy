/** Between a by-id view and the snapshot that carries it: what is written down, and what reading it back restores. */
module SnapshotView {
  import opened Core
  import opened SlotTypes
  import opened SnapshotCodec

  // ----- a view, written down -----

  ghost predicate IsMin(m: Str, ids: set<Str>)
  {
    m in ids && forall x :: x in ids && x != m ==> Less(m, x)
  }

  lemma {:induction false} MinExists(ids: set<Str>)
    requires ids != {}
    ensures exists m :: IsMin(m, ids)
    decreases ids
  {
    var x :| x in ids;
    var rest := ids - {x};
    if rest == {} {
      assert ids == {x};
      assert IsMin(x, ids);
    } else {
      MinExists(rest);
      var m :| IsMin(m, rest);
      LessTotal(m, x);
      if Less(m, x) {
        assert IsMin(m, ids);
      } else {
        forall y | y in ids && y != x ensures Less(x, y) {
          if y != m {
            LessTransitive(x, m, y);
          }
        }
        assert IsMin(x, ids);
      }
    }
  }

  /** The ids in byte order. */
  ghost function SortedIds(ids: set<Str>): (r: seq<Str>)
    ensures Ascending(r)
    ensures forall x :: x in r <==> x in ids
    decreases ids
  {
    if ids == {} then []
    else
      MinExists(ids);
      var m :| IsMin(m, ids);
      [m] + SortedIds(ids - {m})
  }

  ghost function EntriesFor(nodes: map<Str, Endpoint>, ids: seq<Str>): (r: seq<NodeEntry>)
    requires forall id :: id in ids ==> id in nodes
    ensures |r| == |ids|
    ensures forall i :: 0 <= i < |ids| ==> r[i] == NodeEntry(ids[i], nodes[ids[i]].host, nodes[ids[i]].port)
  {
    seq(|ids|, i requires 0 <= i < |ids| =>
      assert ids[i] in ids; NodeEntry(ids[i], nodes[ids[i]].host, nodes[ids[i]].port))
  }

  /** The node table in a form that forgets the table order. */
  ghost function NodeList(nodes: map<Str, Endpoint>): (r: seq<NodeEntry>)
    ensures |r| == |SortedIds(nodes.Keys)|
    ensures forall i :: 0 <= i < |r| ==> r[i].id == SortedIds(nodes.Keys)[i]
    ensures forall i :: 0 <= i < |r| ==> r[i].id in nodes && nodes[r[i].id] == r[i].Ep()
  {
    EntriesFor(nodes, SortedIds(nodes.Keys))
  }

  /** `(slot, id)` for each of the first `n` slots that has one, ascending. */
  ghost function SlotList(ids: seq<Option<Str>>, n: nat): seq<SlotId>
    requires n <= |ids| <= SLOTS
  {
    if n == 0 then []
    else SlotList(ids, n - 1) + if ids[n - 1].Some? then [SlotId(n - 1, ids[n - 1].value)] else []
  }

  function PhaseByte(p: Phase): byte
  {
    match p case Migrating => MIG_MIGRATING case Importing => MIG_IMPORTING
  }

  ghost function TagList(mig: seq<Option<Migration>>, n: nat): seq<SlotTag>
    requires n <= |mig| <= SLOTS
  {
    if n == 0 then []
    else
      var m := mig[n - 1];
      TagList(mig, n - 1) + if m.Some? then [SlotTag(n - 1, PhaseByte(m.value.phase), m.value.peer)] else []
  }

  ghost function SnapshotOf(v: View): Snapshot
    requires |v.owner| == |v.replica| == |v.mig| == SLOTS
  {
    Snapshot(v.epoch, NodeList(v.nodes), SlotList(v.owner, SLOTS), SlotList(v.replica, SLOTS), TagList(v.mig, SLOTS))
  }

  // ----- a snapshot, read back -----

  /** First entry for an id wins. */
  ghost function MeetAll(nodes: map<Str, Endpoint>, list: seq<NodeEntry>): (r: map<Str, Endpoint>)
    ensures forall id :: id in nodes ==> id in r
  {
    if list == [] then nodes
    else
      var before, e := MeetAll(nodes, list[..|list| - 1]), list[|list| - 1];
      if e.id in before then before else before[e.id := e.Ep()]
  }

  /** Later entries for a slot win; an entry out of range or naming an unknown id is skipped. */
  ghost function FillIds(list: seq<SlotId>, nodes: map<Str, Endpoint>): (r: seq<Option<Str>>)
    ensures Known(r, nodes)
  {
    if list == [] then Nones()
    else
      var before, o := FillIds(list[..|list| - 1], nodes), list[|list| - 1];
      if o.slot < SLOTS && o.id in nodes then before[o.slot := Some(o.id)] else before
  }

  ghost function FillTags(list: seq<SlotTag>, nodes: map<Str, Endpoint>): (r: seq<Option<Migration>>)
    ensures KnownPeers(r, nodes)
  {
    if list == [] then Nones()
    else
      var before, t := FillTags(list[..|list| - 1], nodes), list[|list| - 1];
      if t.slot < SLOTS && (t.state == MIG_MIGRATING || t.state == MIG_IMPORTING) && t.id in nodes then
        before[t.slot := Some(Migration(if t.state == MIG_MIGRATING then Migrating else Importing, t.id))]
      else before
  }

  /** What node `self` sees after installing `s`: the snapshot, plus itself, under its own endpoint. */
  ghost function Installed(self: NodeEntry, s: Snapshot): View
  {
    var nodes := MeetAll(map[self.id := self.Ep()], s.nodes);
    View(nodes, FillIds(s.owners, nodes), FillIds(s.reps, nodes), FillTags(s.migs, nodes), s.epoch)
  }

  // ----- reading back what was written -----

  lemma {:induction false} MeetAllList(base: map<Str, Endpoint>, nodes: map<Str, Endpoint>, list: seq<NodeEntry>)
    requires forall i :: 0 <= i < |list| ==> list[i].id in nodes && nodes[list[i].id] == list[i].Ep()
    ensures forall id :: id in MeetAll(base, list) <==> id in base || Position(list, id).Some?
    ensures forall id :: id in base ==> MeetAll(base, list)[id] == base[id]
    ensures forall id :: id in MeetAll(base, list) && id !in base ==>
      id in nodes && MeetAll(base, list)[id] == nodes[id]
  {
    if list != [] {
      MeetAllList(base, nodes, list[..|list| - 1]);
    }
  }

  lemma NodeListHas(nodes: map<Str, Endpoint>, id: Str)
    requires id in nodes
    ensures exists i :: 0 <= i < |NodeList(nodes)| && NodeList(nodes)[i].id == id
  {
    var ids := SortedIds(nodes.Keys);
    assert id in ids;
    var i :| 0 <= i < |ids| && ids[i] == id;
    assert NodeList(nodes)[i].id == id;
  }

  /** The list has an entry for every known node and for no other. */
  lemma ListedIsKnown(nodes: map<Str, Endpoint>, id: Str)
    ensures Position(NodeList(nodes), id).Some? <==> id in nodes
  {
    hide NodeList, Position, SortedIds;
    var list, p := NodeList(nodes), Position(NodeList(nodes), id);
    if id in nodes {
      NodeListHas(nodes, id);
    }
    assert p.Some? ==> list[p.value].id == id && list[p.value].id in nodes;
  }

  lemma NodeListInstalls(self: NodeEntry, nodes: map<Str, Endpoint>)
    ensures MeetAll(map[self.id := self.Ep()], NodeList(nodes)) == nodes[self.id := self.Ep()]
  {
    hide NodeList, MeetAll, SortedIds, NodeEntry.Ep, Position;
    var list, base := NodeList(nodes), map[self.id := self.Ep()];
    MeetAllList(base, nodes, list);
    var got, want := MeetAll(base, list), nodes[self.id := self.Ep()];
    forall id ensures id in got <==> id in want {
      ListedIsKnown(nodes, id);
    }
    assert got == want;
  }

  lemma FillIdsSnoc(list: seq<SlotId>, o: SlotId, nodes: map<Str, Endpoint>)
    requires o.slot < SLOTS && o.id in nodes
    ensures FillIds(list + [o], nodes) == FillIds(list, nodes)[o.slot := Some(o.id)]
  {
  }

  lemma {:induction false} SlotListFills(ids: seq<Option<Str>>, n: nat, nodes: map<Str, Endpoint>)
    requires Known(ids, nodes) && n <= SLOTS
    ensures forall k :: 0 <= k < SLOTS ==> FillIds(SlotList(ids, n), nodes)[k] == if k < n then ids[k] else None
  {
    hide FillIds;
    if n == 0 {
      assert FillIds([], nodes) == Nones() by { EmptyFills(nodes); }
    } else {
      SlotListFills(ids, n - 1, nodes);
      if ids[n - 1].Some? {
        FillIdsSnoc(SlotList(ids, n - 1), SlotId(n - 1, ids[n - 1].value), nodes);
      } else {
        assert SlotList(ids, n) == SlotList(ids, n - 1);
      }
    }
  }

  lemma EmptyFills(nodes: map<Str, Endpoint>)
    ensures FillIds([], nodes) == Nones() && FillTags([], nodes) == Nones()
  {
  }

  lemma FillTagsSnoc(list: seq<SlotTag>, slot: nat, m: Migration, nodes: map<Str, Endpoint>)
    requires slot < SLOTS && m.peer in nodes
    ensures FillTags(list + [SlotTag(slot, PhaseByte(m.phase), m.peer)], nodes) ==
      FillTags(list, nodes)[slot := Some(m)]
  {
  }

  lemma {:induction false} TagListFills(mig: seq<Option<Migration>>, n: nat, nodes: map<Str, Endpoint>)
    requires KnownPeers(mig, nodes) && n <= SLOTS
    ensures forall k :: 0 <= k < SLOTS ==> FillTags(TagList(mig, n), nodes)[k] == if k < n then mig[k] else None
  {
    hide FillTags;
    if n == 0 {
      assert FillTags([], nodes) == Nones() by { EmptyFills(nodes); }
    } else {
      TagListFills(mig, n - 1, nodes);
      if mig[n - 1].Some? {
        FillTagsSnoc(TagList(mig, n - 1), n - 1, mig[n - 1].value, nodes);
      } else {
        assert TagList(mig, n) == TagList(mig, n - 1);
      }
    }
  }

  /** Installing the snapshot of a view gives that view, plus the installing node itself. */
  lemma InstallReproduces(self: NodeEntry, v: View)
    requires ViewOk(v)
    ensures Installed(self, SnapshotOf(v)) == v.(nodes := v.nodes[self.id := self.Ep()])
  {
    var nodes := v.nodes[self.id := self.Ep()];
    NodeListInstalls(self, v.nodes);
    assert Known(v.owner, nodes) && Known(v.replica, nodes) && KnownPeers(v.mig, nodes);
    SlotListFills(v.owner, SLOTS, nodes);
    SlotListFills(v.replica, SLOTS, nodes);
    TagListFills(v.mig, SLOTS, nodes);
    assert FillIds(SlotList(v.owner, SLOTS), nodes) == v.owner;
    assert FillIds(SlotList(v.replica, SLOTS), nodes) == v.replica;
    assert FillTags(TagList(v.mig, SLOTS), nodes) == v.mig;
  }

  /** Every string and number of the view fits the wire. */
  ghost predicate ViewFits(v: View)
  {
    v.epoch < U64_LIMIT && |v.nodes| < U64_LIMIT && forall id :: id in v.nodes ==> StrOk(id) && StrOk(v.nodes[id].host)
  }

  lemma {:induction false} SlotListFits(ids: seq<Option<Str>>, n: nat, v: View)
    requires Known(ids, v.nodes) && ViewFits(v) && n <= SLOTS
    ensures |SlotList(ids, n)| <= n && forall o :: o in SlotList(ids, n) ==> StrOk(o.id)
  {
    if n > 0 {
      SlotListFits(ids, n - 1, v);
    }
  }

  lemma {:induction false} TagListFits(mig: seq<Option<Migration>>, n: nat, v: View)
    requires KnownPeers(mig, v.nodes) && ViewFits(v) && n <= SLOTS
    ensures |TagList(mig, n)| <= n && forall t :: t in TagList(mig, n) ==> StrOk(t.id)
  {
    if n > 0 {
      TagListFits(mig, n - 1, v);
    }
  }

  lemma {:induction false} SortedIdsLength(ids: set<Str>)
    ensures |SortedIds(ids)| == |ids|
    decreases ids
  {
    if ids != {} {
      MinExists(ids);
      var m :| IsMin(m, ids) && SortedIds(ids) == [m] + SortedIds(ids - {m});
      SortedIdsLength(ids - {m});
    }
  }

  lemma SnapshotFits(v: View)
    requires ViewOk(v) && ViewFits(v)
    ensures SnapshotOk(SnapshotOf(v))
  {
    SlotListFits(v.owner, SLOTS, v);
    SlotListFits(v.replica, SLOTS, v);
    TagListFits(v.mig, SLOTS, v);
    SortedIdsLength(v.nodes.Keys);
  }

  /** The bytes a node at view `v` emits. No table order, no index and no self in it. */
  ghost function Bytes(v: View): seq<byte>
    requires |v.owner| == |v.replica| == |v.mig| == SLOTS
  {
    Encode(SnapshotOf(v))
  }

  /** From bytes to bytes: decode them, install them anywhere, and the view comes back. */
  lemma SnapshotRoundTrip(v: View, self: NodeEntry, rest: seq<byte>)
    requires ViewOk(v) && ViewFits(v)
    ensures ParseSnapshot()(Bytes(v) + rest) == Got(SnapshotOf(v), |Bytes(v)|)
    ensures Installed(self, SnapshotOf(v)) == v.(nodes := v.nodes[self.id := self.Ep()])
    ensures IsAt(v, self.id, self.Ep()) ==> Bytes(Installed(self, SnapshotOf(v))) == Bytes(v)
  {
    hide ParseSnapshot, SnapshotOf, Encode, Installed, SnapshotOk, NodeEntry.Ep;
    SnapshotFits(v);
    DecodeEncode(SnapshotOf(v));
    InstallReproduces(self, v);
    assert IsAt(v, self.id, self.Ep()) ==> v.nodes[self.id := self.Ep()] == v.nodes;
  }

  lemma NodeListInjective(nodes: map<Str, Endpoint>, other: map<Str, Endpoint>)
    requires NodeList(nodes) == NodeList(other)
    ensures nodes == other
  {
    hide NodeList;
    forall id | id in nodes || id in other ensures id in nodes && id in other && nodes[id] == other[id] {
      if id in nodes {
        NodeListHas(nodes, id);
      } else {
        NodeListHas(other, id);
      }
    }
  }

  /** Different views have different bytes: the snapshot carries everything there is in a view. */
  lemma BytesInjective(v: View, w: View)
    requires ViewOk(v) && ViewOk(w) && ViewFits(v) && ViewFits(w) && Bytes(v) == Bytes(w)
    ensures v == w
  {
    hide ParseSnapshot, Encode, Installed, SnapshotOk, NodeEntry.Ep, ViewFits;
    var any := NodeEntry([], [], 0);
    SnapshotRoundTrip(v, any, []);
    SnapshotRoundTrip(w, any, []);
    assert SnapshotOf(v) == SnapshotOf(w);
    NodeListInjective(v.nodes, w.nodes);
  }
}
