/** What is in a snapshot, byte by byte and entry by entry, and what installing any list of entries means. */
module SnapshotMeaning {
  import opened Core
  import opened SlotTypes
  import opened SnapshotCodec
  import opened SnapshotView

  // ----- numbers and order -----

  /** The bytes written for a number are worth that number. */
  lemma WrittenWord(v: nat)
    requires v < 0x1_0000_0000_0000_0000
    ensures |SerU64(v)| == 8 && Word64(SerU64(v)) == v
    ensures v < 0x1_0000 ==> |SerU16(v)| == 2 && Word16(SerU16(v)[0], SerU16(v)[1]) == v
  {
    hide FromLittleEndian;
    Powers();
    LittleEndianInverse(v, 8);
    WordValue(SerU64(v));
    if v < 0x1_0000 {
      LittleEndianInverse(v, 2);
      WordValue(SerU16(v));
    }
  }

  /** `b` is longer and begins with `a`, or has the greater byte where they first differ. */
  ghost predicate GreaterAt(a: Str, b: Str, k: nat)
  {
    k <= |a| && k < |b| && a[..k] == b[..k] && (k == |a| || a[k] < b[k])
  }

  lemma {:induction false} LessMeans(a: Str, b: Str)
    ensures Less(a, b) <==> exists k: nat :: GreaterAt(a, b, k)
  {
    if a == [] || b == [] || a[0] != b[0] {
      assert GreaterAt(a, b, 0) <==> Less(a, b);
      assert forall k: nat :: GreaterAt(a, b, k) && k > 0 ==> a[..k][0] == b[..k][0];
    } else {
      LessMeans(a[1..], b[1..]);
      if Less(a, b) {
        var k: nat :| GreaterAt(a[1..], b[1..], k);
        assert a[..k + 1] == [a[0]] + a[1..][..k] && b[..k + 1] == [b[0]] + b[1..][..k];
        assert GreaterAt(a, b, k + 1);
      }
      if k: nat :| GreaterAt(a, b, k) {
        assert k > 0;
        assert a[1..][..k - 1] == a[..k][1..] && b[1..][..k - 1] == b[..k][1..];
        assert GreaterAt(a[1..], b[1..], k - 1);
      }
    }
  }

  // ----- what a view writes down -----

  ghost predicate AscendingSlots(list: seq<SlotId>)
  {
    forall i, j :: 0 <= i < j < |list| ==> list[i].slot < list[j].slot
  }

  /** One entry per slot that has an id, ascending by slot. */
  lemma {:induction false} SlotListMeans(ids: seq<Option<Str>>, n: nat)
    requires n <= |ids| <= SLOTS
    ensures AscendingSlots(SlotList(ids, n))
    ensures forall o :: o in SlotList(ids, n) <==> o.slot < n && ids[o.slot] == Some(o.id)
  {
    if n > 0 {
      SlotListMeans(ids, n - 1);
      var before := SlotList(ids, n - 1);
      if ids[n - 1].Some? {
        var last := SlotId(n - 1, ids[n - 1].value);
        assert SlotList(ids, n) == before + [last];
        forall o ensures o in SlotList(ids, n) <==> o.slot < n && ids[o.slot] == Some(o.id) {
          assert o in before + [last] <==> o in before || o == last;
        }
      } else {
        assert SlotList(ids, n) == before;
      }
    }
  }

  ghost predicate AscendingTags(list: seq<SlotTag>)
  {
    forall i, j :: 0 <= i < j < |list| ==> list[i].slot < list[j].slot
  }

  /** 1 stands for a slot that leaves, 2 for one that arrives. */
  ghost predicate Carries(t: SlotTag, m: Migration)
  {
    t.id == m.peer && if m.phase == Migrating then t.state == 1 else t.state == 2
  }

  /** One entry per tagged slot, ascending by slot, with its phase and its peer. */
  lemma {:induction false} TagListMeans(mig: seq<Option<Migration>>, n: nat)
    requires n <= |mig| <= SLOTS
    ensures AscendingTags(TagList(mig, n))
    ensures forall t :: t in TagList(mig, n) <==> t.slot < n && mig[t.slot].Some? && Carries(t, mig[t.slot].value)
  {
    if n > 0 {
      TagListMeans(mig, n - 1);
      var before, m := TagList(mig, n - 1), mig[n - 1];
      if m.Some? {
        var last := SlotTag(n - 1, if m.value.phase == Migrating then 1 else 2, m.value.peer);
        assert TagList(mig, n) == before + [last];
        forall t ensures t in TagList(mig, n) <==> t.slot < n && mig[t.slot].Some? && Carries(t, mig[t.slot].value) {
          assert t in before + [last] <==> t in before || t == last;
        }
      } else {
        assert TagList(mig, n) == before;
      }
    }
  }

  /** A snapshot carries the epoch, every node with its endpoint, and every slot's owner, replica and tag. */
  lemma SnapshotMeans(v: View)
    requires |v.owner| == |v.replica| == |v.mig| == SLOTS
    ensures var s := SnapshotOf(v);
      && s.epoch == v.epoch
      && (forall e :: e in s.nodes <==> e.id in v.nodes && v.nodes[e.id] == Endpoint(e.host, e.port))
      && (forall i, j :: 0 <= i < j < |s.nodes| ==> Less(s.nodes[i].id, s.nodes[j].id))
      && (forall o :: o in s.owners <==> o.slot < SLOTS && v.owner[o.slot] == Some(o.id))
      && (forall o :: o in s.reps <==> o.slot < SLOTS && v.replica[o.slot] == Some(o.id))
      && (forall t :: t in s.migs <==> t.slot < SLOTS && v.mig[t.slot].Some? && Carries(t, v.mig[t.slot].value))
  {
    hide NodeList, SlotList, TagList, Carries, SortedIds;
    SlotListMeans(v.owner, SLOTS);
    SlotListMeans(v.replica, SLOTS);
    TagListMeans(v.mig, SLOTS);
    forall e ensures e in NodeList(v.nodes) <==> e.id in v.nodes && v.nodes[e.id] == Endpoint(e.host, e.port) {
      NodeListed(v.nodes, e);
    }
  }

  lemma NodeListed(nodes: map<Str, Endpoint>, e: NodeEntry)
    ensures e in NodeList(nodes) <==> e.id in nodes && nodes[e.id] == Endpoint(e.host, e.port)
  {
    hide NodeList, SortedIds;
    var list := NodeList(nodes);
    if e.id in nodes && nodes[e.id] == Endpoint(e.host, e.port) {
      NodeListHas(nodes, e.id);
      var i :| 0 <= i < |list| && list[i].id == e.id;
      assert list[i] == e;
    }
  }

  // ----- what installing any list means -----

  /** Entry `i` is about slot `k` and names a known node. */
  ghost predicate SetsSlot(list: seq<SlotId>, nodes: map<Str, Endpoint>, k: nat, i: nat)
  {
    i < |list| && list[i].slot == k && list[i].id in nodes
  }

  ghost predicate LastSets(list: seq<SlotId>, nodes: map<Str, Endpoint>, k: nat, i: nat)
  {
    SetsSlot(list, nodes, k, i) && forall j :: i < j < |list| ==> !SetsSlot(list, nodes, k, j)
  }

  lemma LastEntry(list: seq<SlotId>, nodes: map<Str, Endpoint>, k: nat)
    requires k < SLOTS
    ensures list == [] ==> FillIds(list, nodes)[k] == None
    ensures list != [] ==> var n := |list| - 1;
      FillIds(list, nodes)[k] ==
      if SetsSlot(list, nodes, k, n) then Some(list[n].id) else FillIds(list[..n], nodes)[k]
  {
  }

  /** Whatever the entries, a slot gets the id of the last one about it that names a known node, if there is one. */
  lemma {:induction false} FillIdsMeans(list: seq<SlotId>, nodes: map<Str, Endpoint>, k: nat)
    requires k < SLOTS
    ensures match FillIds(list, nodes)[k]
      case None => forall i :: 0 <= i < |list| ==> !SetsSlot(list, nodes, k, i)
      case Some(id) => exists i: nat :: LastSets(list, nodes, k, i) && list[i].id == id
  {
    hide FillIds;
    LastEntry(list, nodes, k);
    if list != [] {
      var n := |list| - 1;
      var front := list[..n];
      FillIdsMeans(front, nodes, k);
      if SetsSlot(list, nodes, k, n) {
        assert LastSets(list, nodes, k, n);
      } else {
        forall i | 0 <= i < n ensures SetsSlot(list, nodes, k, i) <==> SetsSlot(front, nodes, k, i) { }
        if FillIds(front, nodes)[k].Some? {
          var i: nat :| LastSets(front, nodes, k, i) && front[i].id == FillIds(front, nodes)[k].value;
          assert LastSets(list, nodes, k, i);
        }
      }
    }
  }

  ghost predicate SetsTag(list: seq<SlotTag>, nodes: map<Str, Endpoint>, k: nat, i: nat)
  {
    i < |list| && list[i].slot == k && list[i].id in nodes && (list[i].state == 1 || list[i].state == 2)
  }

  ghost predicate LastSetsTag(list: seq<SlotTag>, nodes: map<Str, Endpoint>, k: nat, i: nat)
  {
    SetsTag(list, nodes, k, i) && forall j :: i < j < |list| ==> !SetsTag(list, nodes, k, j)
  }

  lemma LastTag(list: seq<SlotTag>, nodes: map<Str, Endpoint>, k: nat)
    requires k < SLOTS
    ensures list == [] ==> FillTags(list, nodes)[k] == None
    ensures list != [] ==> var n := |list| - 1;
      FillTags(list, nodes)[k] ==
      if SetsTag(list, nodes, k, n)
      then Some(Migration(if list[n].state == 1 then Migrating else Importing, list[n].id))
      else FillTags(list[..n], nodes)[k]
  {
  }

  /** The same for tags, where an entry must also carry one of the two phases. */
  lemma {:induction false} FillTagsMeans(list: seq<SlotTag>, nodes: map<Str, Endpoint>, k: nat)
    requires k < SLOTS
    ensures match FillTags(list, nodes)[k]
      case None => forall i :: 0 <= i < |list| ==> !SetsTag(list, nodes, k, i)
      case Some(m) => exists i: nat :: LastSetsTag(list, nodes, k, i) && Carries(list[i], m)
  {
    hide FillTags;
    LastTag(list, nodes, k);
    if list != [] {
      var n := |list| - 1;
      var front := list[..n];
      FillTagsMeans(front, nodes, k);
      if SetsTag(list, nodes, k, n) {
        assert LastSetsTag(list, nodes, k, n);
      } else {
        forall i | 0 <= i < n ensures SetsTag(list, nodes, k, i) <==> SetsTag(front, nodes, k, i) { }
        if FillTags(front, nodes)[k].Some? {
          var i: nat :| LastSetsTag(front, nodes, k, i) && Carries(front[i], FillTags(front, nodes)[k].value);
          assert LastSetsTag(list, nodes, k, i);
        }
      }
    }
  }

  ghost predicate FirstFor(list: seq<NodeEntry>, id: Str, i: nat)
  {
    i < |list| && list[i].id == id && forall j :: 0 <= j < i ==> list[j].id != id
  }

  /** A node that is there already keeps its endpoint; a new one gets that of the first entry for it. */
  lemma {:induction false} MeetAllMeans(nodes: map<Str, Endpoint>, list: seq<NodeEntry>, id: Str)
    ensures id in MeetAll(nodes, list) <==> id in nodes || exists i :: 0 <= i < |list| && list[i].id == id
    ensures id in nodes ==> MeetAll(nodes, list)[id] == nodes[id]
    ensures forall i: nat :: FirstFor(list, id, i) && id !in nodes && id in MeetAll(nodes, list) ==>
      MeetAll(nodes, list)[id] == Endpoint(list[i].host, list[i].port)
  {
    hide MeetAll;
    LastMet(nodes, list, id);
    if list != [] {
      var n := |list| - 1;
      var front := list[..n];
      MeetAllMeans(nodes, front, id);
      assert forall i :: 0 <= i < n ==> front[i] == list[i];
      assert forall i: nat :: i < n && FirstFor(list, id, i) ==> FirstFor(front, id, i);
      assert FirstFor(list, id, n) ==> forall i :: 0 <= i < n ==> front[i].id != id;
    }
  }

  lemma LastMet(nodes: map<Str, Endpoint>, list: seq<NodeEntry>, id: Str)
    ensures list == [] ==> MeetAll(nodes, list) == nodes
    ensures list != [] ==>
      var before, after, e := MeetAll(nodes, list[..|list| - 1]), MeetAll(nodes, list), list[|list| - 1];
      && (id in after <==> id in before || e.id == id)
      && (id in after ==> after[id] == if id in before then before[id] else Endpoint(e.host, e.port))
  {
  }

  /** Whatever the snapshot, its owner list makes the owners, its replica list the replicas, its tag list the tags. */
  lemma InstalledMeans(self: NodeEntry, s: Snapshot, k: nat)
    requires k < SLOTS
    ensures var v := Installed(self, s);
      && v.epoch == s.epoch && v.nodes == MeetAll(map[self.id := Endpoint(self.host, self.port)], s.nodes)
      && |v.owner| == |v.replica| == |v.mig| == SLOTS
      && (match v.owner[k]
          case None => forall i :: 0 <= i < |s.owners| ==> !SetsSlot(s.owners, v.nodes, k, i)
          case Some(id) => exists i: nat :: LastSets(s.owners, v.nodes, k, i) && s.owners[i].id == id)
      && (match v.replica[k]
          case None => forall i :: 0 <= i < |s.reps| ==> !SetsSlot(s.reps, v.nodes, k, i)
          case Some(id) => exists i: nat :: LastSets(s.reps, v.nodes, k, i) && s.reps[i].id == id)
      && (match v.mig[k]
          case None => forall i :: 0 <= i < |s.migs| ==> !SetsTag(s.migs, v.nodes, k, i)
          case Some(m) => exists i: nat :: LastSetsTag(s.migs, v.nodes, k, i) && Carries(s.migs[i], m))
  {
    hide MeetAll, FillIds, FillTags, SetsSlot, LastSets, SetsTag, LastSetsTag, Carries;
    var nodes := Installed(self, s).nodes;
    FillIdsMeans(s.owners, nodes, k);
    FillIdsMeans(s.reps, nodes, k);
    FillTagsMeans(s.migs, nodes, k);
  }

  // ----- one snapshot, in full -----

  lemma SmallWord(v: nat)
    requires v < 0x1_0000
    ensures SerU64(v) == [v % 0x100, v / 0x100, 0, 0, 0, 0, 0, 0] && SerU16(v) == [v % 0x100, v / 0x100]
  {
    assert v / 0x100 < 0x100;
    Zeros(6);
    var rest := LittleEndian(v / 0x100, 7);
    assert rest == [v / 0x100] + LittleEndian(0, 6);
    assert LittleEndian(v / 0x100, 1) == [v / 0x100] + LittleEndian(0, 0);
  }

  lemma {:induction false} Zeros(n: nat)
    ensures LittleEndian(0, n) == seq(n, i => 0)
  {
    if n > 0 {
      Zeros(n - 1);
    }
  }

  lemma SmallText(s: Str)
    requires |s| < 0x100
    ensures SerStr(s) == [|s|, 0, 0, 0, 0, 0, 0, 0] + s
  {
    SmallWord(|s|);
  }

  lemma OneRecord<T>(ser: T -> seq<byte>, x: T)
    ensures SerList(ser, [x]) == [1, 0, 0, 0, 0, 0, 0, 0] + ser(x)
  {
    SmallWord(1);
    assert [x][1..] == [];
    assert SerAll(ser, [x]) == ser(x) + SerAll(ser, []);
  }

  /**
   Epoch 0x0102, a node `ab` at `h`, port 6379, that owns slot 5 and replicates slot 0x0105, and slot 7 arriving
   from it: the epoch, then four counted lists, numbers least significant byte first, texts behind their lengths.
  */
  lemma SnapshotInFull()
    ensures var id, host := [0x61, 0x62], [0x68];
      Encode(Snapshot(0x0102, [NodeEntry(id, host, 6379)], [SlotId(5, id)], [SlotId(0x0105, id)],
                      [SlotTag(7, 2, id)])) ==
      [2, 1, 0, 0, 0, 0, 0, 0] +
      (([1, 0, 0, 0, 0, 0, 0, 0] +
        (([2, 0, 0, 0, 0, 0, 0, 0] + [0x61, 0x62]) + (([1, 0, 0, 0, 0, 0, 0, 0] + [0x68]) + [0xEB, 0x18]))) +
       (([1, 0, 0, 0, 0, 0, 0, 0] + ([5, 0] + ([2, 0, 0, 0, 0, 0, 0, 0] + [0x61, 0x62]))) +
        (([1, 0, 0, 0, 0, 0, 0, 0] + ([5, 1] + ([2, 0, 0, 0, 0, 0, 0, 0] + [0x61, 0x62]))) +
         ([1, 0, 0, 0, 0, 0, 0, 0] + ([7, 0] + ([2] + ([2, 0, 0, 0, 0, 0, 0, 0] + [0x61, 0x62])))))))
  {
    hide SerU64, SerU16, SerStr, SerList;
    var id, host := [0x61, 0x62], [0x68];
    SmallWord(0x0102);
    SmallWord(6379);
    SmallWord(5);
    SmallWord(0x0105);
    SmallWord(7);
    SmallText(id);
    SmallText(host);
    OneRecord(SerNode, NodeEntry(id, host, 6379));
    OneRecord(SerSlotId, SlotId(5, id));
    OneRecord(SerSlotId, SlotId(0x0105, id));
    OneRecord(SerSlotTag, SlotTag(7, 2, id));
  }
}
