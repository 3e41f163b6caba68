/** The snapshot decoder as the program runs it: a forward-only cursor and one loop per record list. */
module SnapshotDecoder {
  import opened Core
  import opened Utf8
  import opened SlotTypes
  import opened SnapshotCodec

  /** A read that started at `before` did what the parser says: fail, or yield the value and advance. */
  ghost predicate Read<T>(r: Option<T>, before: nat, after: nat, p: Parsed<T>)
  {
    if p.Fail? then r.None? else r == Some(p.value) && after == before + p.used
  }

  class De {
    const buf: seq<byte>
    var pos: nat

    constructor (data: seq<byte>)
      ensures buf == data && pos == 0
    {
      buf := data;
      pos := 0;
    }

    method U8() returns (r: Option<byte>)
      requires pos <= |buf|
      modifies this
      ensures pos <= |buf| && Read(r, old(pos), pos, ParseU8(buf[old(pos)..]))
      ensures if old(pos) < |buf| then r == Some(buf[old(pos)]) && pos == old(pos) + 1 else r.None?
    {
      if pos >= |buf| {
        return None;
      }
      r := Some(buf[pos]);
      pos := pos + 1;
    }

    method U16() returns (r: Option<u16>)
      requires pos <= |buf|
      modifies this
      ensures pos <= |buf| && Read(r, old(pos), pos, ParseU16(buf[old(pos)..]))
      ensures r.Some? <==> old(pos) + 2 <= |buf|
      ensures r.Some? ==> r.value == Word16(buf[old(pos)], buf[old(pos) + 1]) && pos == old(pos) + 2
    {
      if |buf| < pos + 2 {
        return None;
      }
      FromLittleEndianBound(buf[pos..pos + 2]);
      Powers();
      WordValue(buf[pos..pos + 2]);
      assert buf[pos..][..2] == buf[pos..pos + 2];
      r := Some(FromLittleEndian(buf[pos..pos + 2]));
      pos := pos + 2;
    }

    method U64() returns (r: Option<nat>)
      requires pos <= |buf|
      modifies this
      ensures pos <= |buf| && Read(r, old(pos), pos, ParseU64(buf[old(pos)..]))
      ensures r.Some? <==> old(pos) + 8 <= |buf|
      ensures r.Some? ==> r.value == Word64(buf[old(pos)..old(pos) + 8]) && pos == old(pos) + 8
    {
      if |buf| < pos + 8 {
        return None;
      }
      WordValue(buf[pos..pos + 8]);
      assert buf[pos..][..8] == buf[pos..pos + 8];
      r := Some(FromLittleEndian(buf[pos..pos + 8]));
      pos := pos + 8;
    }

    method String() returns (r: Option<Str>)
      requires pos <= |buf|
      modifies this
      ensures pos <= |buf| && Read(r, old(pos), pos, ParseStr(buf[old(pos)..]))
      ensures r.Some? <==>
        && old(pos) + 8 <= |buf|
        && var end := old(pos) + 8 + Word64(buf[old(pos)..old(pos) + 8]);
        end <= |buf| && IsUtf8(buf[old(pos) + 8..end])
      ensures r.Some? ==> old(pos) + 8 <= pos && r.value == buf[old(pos) + 8..pos]
    {
      var n := U64();
      if n.None? || |buf| < pos + n.value {
        return None;
      }
      var slice := buf[pos..pos + n.value];
      assert slice == buf[old(pos)..][8..8 + n.value];
      pos := pos + n.value;
      if !IsUtf8(slice) {
        return None;
      }
      r := Some(slice);
    }
  }

  ghost function Prepend<T>(xs: seq<T>, used: nat, r: Parsed<seq<T>>): Parsed<seq<T>>
  {
    if r.Fail? then Fail else Got(xs + r.value, used + r.used)
  }

  /** No more records to read. */
  lemma RepeatDone<T>(p: Parser<T>, b: seq<byte>, xs: seq<T>, used: nat)
    ensures Prepend(xs, used, Repeat(p, 0, b)) == Got(xs, used)
  {
    assert xs + [] == xs;
  }

  lemma PrependNothing<T>(r: Parsed<seq<T>>)
    ensures Prepend([], 0, r) == r
  {
    if r.Got? {
      assert [] + r.value == r.value;
    }
  }

  /** One more record read: the records so far grow by it, and what is left to read shrinks by it. */
  lemma RepeatStep<T>(p: Parser<T>, n: nat, buf: seq<byte>, pos: nat, xs: seq<T>, used: nat)
    requires n > 0 && pos <= |buf|
    ensures var x := p(buf[pos..]);
      if x.Fail? || x.used > |buf| - pos then Repeat(p, n, buf[pos..]) == Fail
      else Prepend(xs, used, Repeat(p, n, buf[pos..])) ==
           Prepend(xs + [x.value], used + x.used, Repeat(p, n - 1, buf[pos + x.used..]))
  {
    var x := p(buf[pos..]);
    if !x.Fail? && x.used <= |buf| - pos {
      assert buf[pos..][x.used..] == buf[pos + x.used..];
      var r := Repeat(p, n - 1, buf[pos + x.used..]);
      if !r.Fail? {
        assert xs + ([x.value] + r.value) == xs + [x.value] + r.value;
      }
    }
  }

  lemma CountedAt<T>(p: Parser<T>, buf: seq<byte>, pos: nat)
    requires pos <= |buf|
    ensures Counted(p)(buf[pos..]) ==
      var n := ParseU64(buf[pos..]);
      if n.Fail? then Fail else Prepend([], 8, Repeat(p, n.value, buf[pos + 8..]))
  {
    var n := ParseU64(buf[pos..]);
    if n.Got? {
      assert buf[pos..][8..] == buf[pos + 8..];
      PrependNothing(Repeat(p, n.value, buf[pos + 8..]));
    }
  }

  lemma ThenAt<A, B>(p: Parser<A>, q: Parser<B>, buf: seq<byte>, pos: nat)
    requires pos <= |buf|
    ensures Then(p, q)(buf[pos..]) ==
      var x := p(buf[pos..]);
      if x.Fail? || x.used > |buf| - pos then Fail
      else
        var y := q(buf[pos + x.used..]);
        if y.Fail? then Fail else Got((x.value, y.value), x.used + y.used)
  {
  }

  method ReadNode(cur: De) returns (r: Option<NodeEntry>)
    requires cur.pos <= |cur.buf|
    modifies cur
    ensures cur.pos <= |cur.buf|
    ensures Read(r, old(cur.pos), cur.pos, ParseNode()(cur.buf[old(cur.pos)..]))
  {
    hide ParseStr, ParseU16, Word64, Word16;
    var id := cur.String();
    if id.None? { return None; }
    ghost var mid := cur.pos;
    assert cur.buf[old(cur.pos)..][mid - old(cur.pos)..] == cur.buf[mid..];
    var host := cur.String();
    if host.None? { return None; }
    assert cur.buf[mid..][cur.pos - mid..] == cur.buf[cur.pos..];
    var port := cur.U16();
    if port.None? { return None; }
    r := Some(NodeEntry(id.value, host.value, port.value));
  }

  /** A `u64` count, then that many records. */
  method ReadNodes(cur: De) returns (r: Option<seq<NodeEntry>>)
    requires cur.pos <= |cur.buf|
    modifies cur
    ensures cur.pos <= |cur.buf|
    ensures Read(r, old(cur.pos), cur.pos, Counted(ParseNode())(cur.buf[old(cur.pos)..]))
  {
    hide ParseNode, Repeat, Counted, Word64, FromLittleEndian;
    CountedAt(ParseNode(), cur.buf, cur.pos);
    var count := cur.U64();
    if count.None? { return None; }
    var n := count.value;
    ghost var start := cur.pos;
    var xs: seq<NodeEntry> := [];
    PrependNothing(Repeat(ParseNode(), n, cur.buf[cur.pos..]));
    for i := 0 to n
      invariant start <= cur.pos <= |cur.buf|
      invariant Repeat(ParseNode(), n, cur.buf[start..]) ==
        Prepend(xs, cur.pos - start, Repeat(ParseNode(), n - i, cur.buf[cur.pos..]))
    {
      RepeatStep(ParseNode(), n - i, cur.buf, cur.pos, xs, cur.pos - start);
      var x := ReadNode(cur);
      if x.None? { return None; }
      xs := xs + [x.value];
    }
    RepeatDone(ParseNode(), cur.buf[cur.pos..], xs, cur.pos - start);
    r := Some(xs);
  }

  method ReadSlotId(cur: De) returns (r: Option<SlotId>)
    requires cur.pos <= |cur.buf|
    modifies cur
    ensures cur.pos <= |cur.buf|
    ensures Read(r, old(cur.pos), cur.pos, ParseSlotId()(cur.buf[old(cur.pos)..]))
  {
    var slot := cur.U16();
    if slot.None? { return None; }
    assert cur.buf[old(cur.pos)..][2..] == cur.buf[cur.pos..];
    var id := cur.String();
    if id.None? { return None; }
    r := Some(SlotId(slot.value, id.value));
  }

  /** A `u64` count, then that many records. */
  method ReadSlotIds(cur: De) returns (r: Option<seq<SlotId>>)
    requires cur.pos <= |cur.buf|
    modifies cur
    ensures cur.pos <= |cur.buf|
    ensures Read(r, old(cur.pos), cur.pos, Counted(ParseSlotId())(cur.buf[old(cur.pos)..]))
  {
    hide ParseSlotId, Repeat, Counted, Word64, FromLittleEndian;
    CountedAt(ParseSlotId(), cur.buf, cur.pos);
    var count := cur.U64();
    if count.None? { return None; }
    var n := count.value;
    ghost var start := cur.pos;
    var xs: seq<SlotId> := [];
    PrependNothing(Repeat(ParseSlotId(), n, cur.buf[cur.pos..]));
    for i := 0 to n
      invariant start <= cur.pos <= |cur.buf|
      invariant Repeat(ParseSlotId(), n, cur.buf[start..]) ==
        Prepend(xs, cur.pos - start, Repeat(ParseSlotId(), n - i, cur.buf[cur.pos..]))
    {
      RepeatStep(ParseSlotId(), n - i, cur.buf, cur.pos, xs, cur.pos - start);
      var x := ReadSlotId(cur);
      if x.None? { return None; }
      xs := xs + [x.value];
    }
    RepeatDone(ParseSlotId(), cur.buf[cur.pos..], xs, cur.pos - start);
    r := Some(xs);
  }

  method ReadSlotTag(cur: De) returns (r: Option<SlotTag>)
    requires cur.pos <= |cur.buf|
    modifies cur
    ensures cur.pos <= |cur.buf|
    ensures Read(r, old(cur.pos), cur.pos, ParseSlotTag()(cur.buf[old(cur.pos)..]))
  {
    var slot := cur.U16();
    if slot.None? { return None; }
    ghost var mid := cur.pos;
    assert cur.buf[old(cur.pos)..][2..] == cur.buf[mid..];
    var state := cur.U8();
    if state.None? { return None; }
    assert cur.buf[mid..][1..] == cur.buf[cur.pos..];
    var id := cur.String();
    if id.None? { return None; }
    r := Some(SlotTag(slot.value, state.value, id.value));
  }

  /** A `u64` count, then that many records. */
  method ReadSlotTags(cur: De) returns (r: Option<seq<SlotTag>>)
    requires cur.pos <= |cur.buf|
    modifies cur
    ensures cur.pos <= |cur.buf|
    ensures Read(r, old(cur.pos), cur.pos, Counted(ParseSlotTag())(cur.buf[old(cur.pos)..]))
  {
    hide ParseSlotTag, Repeat, Counted, Word64, FromLittleEndian;
    CountedAt(ParseSlotTag(), cur.buf, cur.pos);
    var count := cur.U64();
    if count.None? { return None; }
    var n := count.value;
    ghost var start := cur.pos;
    var xs: seq<SlotTag> := [];
    PrependNothing(Repeat(ParseSlotTag(), n, cur.buf[cur.pos..]));
    for i := 0 to n
      invariant start <= cur.pos <= |cur.buf|
      invariant Repeat(ParseSlotTag(), n, cur.buf[start..]) ==
        Prepend(xs, cur.pos - start, Repeat(ParseSlotTag(), n - i, cur.buf[cur.pos..]))
    {
      RepeatStep(ParseSlotTag(), n - i, cur.buf, cur.pos, xs, cur.pos - start);
      var x := ReadSlotTag(cur);
      if x.None? { return None; }
      xs := xs + [x.value];
    }
    RepeatDone(ParseSlotTag(), cur.buf[cur.pos..], xs, cur.pos - start);
    r := Some(xs);
  }

  /** Decode a snapshot, or nothing on any short or malformed read. Bytes after the snapshot are ignored. */
  method DecodeCommittedSnapshot(data: seq<byte>) returns (r: Option<Snapshot>)
    ensures var p := ParseSnapshot()(data); if p.Fail? then r.None? else r == Some(p.value)
  {
    hide ParseNode, ParseSlotId, ParseSlotTag, Repeat, Counted, Then, Word64, FromLittleEndian;
    ghost var o, t := Counted(ParseSlotId()), Counted(ParseSlotTag());
    ghost var n := Counted(ParseNode());
    var cur := new De(data);
    assert data[0..] == data;
    ThenAt(ParseU64, Then(n, Then(o, Then(o, t))), data, 0);
    var epoch := cur.U64();
    if epoch.None? { return None; }
    ThenAt(n, Then(o, Then(o, t)), data, cur.pos);
    var nodes := ReadNodes(cur);
    if nodes.None? { return None; }
    ThenAt(o, Then(o, t), data, cur.pos);
    var owners := ReadSlotIds(cur);
    if owners.None? { return None; }
    ThenAt(o, t, data, cur.pos);
    var reps := ReadSlotIds(cur);
    if reps.None? { return None; }
    var migs := ReadSlotTags(cur);
    if migs.None? { return None; }
    r := Some(Snapshot(epoch.value, nodes.value, owners.value, reps.value, migs.value));
  }
}
