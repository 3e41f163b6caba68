/**
 The byte form of a committed-config snapshot: a little-endian, length-prefixed codec.

 The decoder is described as a composition of prefix parsers, for which round trip and stability
 under more input are proved once per combinator; the cursor and the decoding loops of the program
 are then proved equal to that composition.
*/
module SnapshotCodec {
  import opened Core
  import opened Utf8
  import opened SlotTypes

  datatype SlotId = SlotId(slot: u16, id: Str)
  datatype SlotTag = SlotTag(slot: u16, state: byte, id: Str)

  datatype Snapshot = Snapshot(
    epoch: nat,
    nodes: seq<NodeEntry>,
    owners: seq<SlotId>,
    reps: seq<SlotId>,
    migs: seq<SlotTag>)

  // ----- encoding -----

  /** The `n` low bytes of `v`, least significant first. */
  function LittleEndian(v: nat, n: nat): (r: seq<byte>)
    ensures |r| == n
  {
    if n == 0 then [] else [v % 0x100] + LittleEndian(v / 0x100, n - 1)
  }

  function SerU64(v: nat): seq<byte> { LittleEndian(v, 8) }
  function SerU16(v: u16): seq<byte> { LittleEndian(v, 2) }
  function SerStr(s: Str): seq<byte> { SerU64(|s|) + s }
  function SerNode(e: NodeEntry): seq<byte> { SerStr(e.id) + (SerStr(e.host) + SerU16(e.port)) }
  function SerSlotId(o: SlotId): seq<byte> { SerU16(o.slot) + SerStr(o.id) }
  function SerSlotTag(t: SlotTag): seq<byte> { SerU16(t.slot) + ([t.state] + SerStr(t.id)) }

  ghost function SerAll<T>(ser: T -> seq<byte>, xs: seq<T>): seq<byte>
  {
    if xs == [] then [] else ser(xs[0]) + SerAll(ser, xs[1..])
  }

  ghost function SerList<T>(ser: T -> seq<byte>, xs: seq<T>): seq<byte>
  {
    SerU64(|xs|) + SerAll(ser, xs)
  }

  ghost function Encode(s: Snapshot): seq<byte>
  {
    SerU64(s.epoch) + (SerList(SerNode, s.nodes) +
      (SerList(SerSlotId, s.owners) + (SerList(SerSlotId, s.reps) + SerList(SerSlotTag, s.migs))))
  }

  // ----- prefix parsers -----

  datatype Parsed<+T> = Fail | Got(value: T, used: nat)

  type Parser<!T> = seq<byte> -> Parsed<T>

  /** A success is unchanged by whatever bytes follow. */
  ghost predicate Stable<T(!new)>(p: Parser<T>)
  {
    forall b, more :: p(b).Got? ==> p(b).used <= |b| && p(b + more) == p(b)
  }

  /** `p` reads `x` off the front of `bytes` and nothing else, whatever follows. */
  ghost predicate Reads<T(!new)>(p: Parser<T>, bytes: seq<byte>, x: T)
  {
    forall rest :: p(bytes + rest) == Got(x, |bytes|)
  }

  /** A stable parser that reads exactly `bytes` rejects every strict prefix of `bytes`. */
  lemma NoStrictPrefix<T(!new)>(p: Parser<T>, bytes: seq<byte>, x: T, n: nat)
    requires Stable(p) && Reads(p, bytes, x) && n < |bytes|
    ensures p(bytes[..n]) == Fail
  {
    assert bytes + [] == bytes;
    assert bytes[..n] + bytes[n..] == bytes;
    assert p(bytes).used == |bytes|;
  }

  ghost function Then<A, B>(p: Parser<A>, q: Parser<B>): Parser<(A, B)>
  {
    b =>
      var x := p(b);
      if x.Fail? || x.used > |b| then Fail
      else
        var y := q(b[x.used..]);
        if y.Fail? then Fail else Got((x.value, y.value), x.used + y.used)
  }

  ghost function Mapped<A, B>(p: Parser<A>, f: A -> B): Parser<B>
  {
    b => var x := p(b); if x.Fail? then Fail else Got(f(x.value), x.used)
  }

  ghost function Repeat<T>(p: Parser<T>, n: nat, b: seq<byte>): Parsed<seq<T>>
    decreases n
  {
    if n == 0 then Got([], 0)
    else
      var x := p(b);
      if x.Fail? || x.used > |b| then Fail
      else
        var xs := Repeat(p, n - 1, b[x.used..]);
        if xs.Fail? then Fail else Got([x.value] + xs.value, x.used + xs.used)
  }

  /** A `u64` count, then that many records. */
  ghost function Counted<T>(p: Parser<T>): Parser<seq<T>>
  {
    b =>
      var n := ParseU64(b);
      if n.Fail? || n.used > |b| then Fail
      else
        var xs := Repeat(p, n.value, b[n.used..]);
        if xs.Fail? then Fail else Got(xs.value, n.used + xs.used)
  }

  lemma ThenStable<A(!new), B(!new)>(p: Parser<A>, q: Parser<B>)
    requires Stable(p) && Stable(q)
    ensures Stable(Then(p, q))
  {
    var t := Then(p, q);
    forall b, more | t(b).Got? ensures t(b).used <= |b| && t(b + more) == t(b) {
      var k := p(b).used;
      assert p(b + more) == p(b);
      assert (b + more)[k..] == b[k..] + more;
    }
  }

  lemma ThenReads<A(!new), B(!new)>(p: Parser<A>, q: Parser<B>, xb: seq<byte>, yb: seq<byte>, x: A, y: B)
    requires Reads(p, xb, x) && Reads(q, yb, y)
    ensures Reads(Then(p, q), xb + yb, (x, y))
  {
    forall rest ensures Then(p, q)(xb + yb + rest) == Got((x, y), |xb + yb|) {
      assert xb + yb + rest == xb + (yb + rest);
      assert (xb + (yb + rest))[|xb|..] == yb + rest;
    }
  }

  lemma MappedStable<A(!new), B(!new)>(p: Parser<A>, f: A -> B)
    requires Stable(p)
    ensures Stable(Mapped(p, f))
  {
  }

  lemma {:induction false} RepeatStable<T(!new)>(p: Parser<T>, n: nat, b: seq<byte>, more: seq<byte>)
    requires Stable(p) && Repeat(p, n, b).Got?
    ensures Repeat(p, n, b).used <= |b| && Repeat(p, n, b + more) == Repeat(p, n, b)
    decreases n
  {
    if n > 0 {
      var k := p(b).used;
      assert p(b + more) == p(b);
      assert (b + more)[k..] == b[k..] + more;
      RepeatStable(p, n - 1, b[k..], more);
    }
  }

  lemma CountedStable<T(!new)>(p: Parser<T>)
    requires Stable(p)
    ensures Stable(Counted(p))
  {
    U64Stable();
    var t := Counted(p);
    forall b, more | t(b).Got? ensures t(b).used <= |b| && t(b + more) == t(b) {
      var n := ParseU64(b);
      assert ParseU64(b + more) == n;
      assert (b + more)[n.used..] == b[n.used..] + more;
      RepeatStable(p, n.value, b[n.used..], more);
    }
  }

  lemma {:induction false} RepeatReads<T(!new)>(p: Parser<T>, ser: T -> seq<byte>, xs: seq<T>, rest: seq<byte>)
    requires forall x :: x in xs ==> Reads(p, ser(x), x)
    ensures Repeat(p, |xs|, SerAll(ser, xs) + rest) == Got(xs, |SerAll(ser, xs)|)
  {
    if xs != [] {
      var head, tail := ser(xs[0]), SerAll(ser, xs[1..]);
      assert SerAll(ser, xs) + rest == head + (tail + rest);
      assert Reads(p, head, xs[0]);
      assert p(head + (tail + rest)) == Got(xs[0], |head|);
      assert (head + (tail + rest))[|head|..] == tail + rest;
      RepeatReads(p, ser, xs[1..], rest);
      assert xs == [xs[0]] + xs[1..];
    }
  }

  lemma CountedFrom<T>(p: Parser<T>, b: seq<byte>, count: nat)
    requires |b| >= 8 && ParseU64(b) == Got(count, 8)
    ensures var xs := Repeat(p, count, b[8..]);
      Counted(p)(b) == if xs.Fail? then Fail else Got(xs.value, 8 + xs.used)
  {
    hide Repeat, ParseU64;
  }

  lemma CountedReadsThen<T(!new)>(p: Parser<T>, ser: T -> seq<byte>, xs: seq<T>, rest: seq<byte>)
    requires |xs| < U64_LIMIT
    requires forall x :: x in xs ==> Reads(p, ser(x), x)
    ensures Counted(p)(SerList(ser, xs) + rest) == Got(xs, |SerList(ser, xs)|)
  {
    hide Repeat, ParseU64, SerAll, Counted;
    var n, all := SerU64(|xs|), SerAll(ser, xs);
    RepeatReads(p, ser, xs, rest);
    assert ParseU64(n + (all + rest)) == Got(|xs|, 8) by { U64Reads(|xs|); }
    assert SerList(ser, xs) + rest == n + (all + rest);
    assert (n + (all + rest))[8..] == all + rest;
    CountedFrom(p, n + (all + rest), |xs|);
  }

  lemma CountedReads<T(!new)>(p: Parser<T>, ser: T -> seq<byte>, xs: seq<T>)
    requires |xs| < U64_LIMIT
    requires forall x :: x in xs ==> Reads(p, ser(x), x)
    ensures Reads(Counted(p), SerList(ser, xs), xs)
  {
    forall rest ensures Counted(p)(SerList(ser, xs) + rest) == Got(xs, |SerList(ser, xs)|) {
      CountedReadsThen(p, ser, xs, rest);
    }
  }

  // ----- the records of a snapshot -----

  function FromLittleEndian(b: seq<byte>): nat
  {
    if b == [] then 0 else b[0] + 0x100 * FromLittleEndian(b[1..])
  }

  /** Two bytes, the less significant first. */
  ghost function Word16(low: nat, high: nat): nat { low + 0x100 * high }

  /** Eight bytes, the least significant first. */
  ghost function Word64(b: seq<byte>): nat
    requires |b| == 8
  {
    Word16(b[0], b[1]) + 0x1_0000 * Word16(b[2], b[3]) + 0x1_0000_0000 * Word16(b[4], b[5]) +
    0x1_0000_0000_0000 * Word16(b[6], b[7])
  }

  lemma HalfWord(b: seq<byte>)
    requires |b| >= 4
    ensures FromLittleEndian(b) ==
      Word16(b[0], b[1]) + 0x1_0000 * Word16(b[2], b[3]) + 0x1_0000_0000 * FromLittleEndian(b[4..])
  {
    assert b[1..][1..] == b[2..] && b[2..][1..] == b[3..] && b[3..][1..] == b[4..];
    assert FromLittleEndian(b) == b[0] + 0x100 * FromLittleEndian(b[1..]);
    assert FromLittleEndian(b[1..]) == b[1] + 0x100 * FromLittleEndian(b[2..]);
    assert FromLittleEndian(b[2..]) == b[2] + 0x100 * FromLittleEndian(b[3..]);
    assert FromLittleEndian(b[3..]) == b[3] + 0x100 * FromLittleEndian(b[4..]);
  }

  lemma WordValue(b: seq<byte>)
    ensures |b| == 2 ==> FromLittleEndian(b) == Word16(b[0], b[1])
    ensures |b| == 8 ==> FromLittleEndian(b) == Word64(b)
  {
    if |b| == 2 {
      assert b[1..][1..] == [];
      assert FromLittleEndian(b[1..]) == b[1] + 0x100 * FromLittleEndian(b[1..][1..]);
    } else if |b| == 8 {
      hide FromLittleEndian;
      HalfWord(b);
      HalfWord(b[4..]);
      NoBytes(b[4..][4..]);
    }
  }

  lemma NoBytes(b: seq<byte>)
    requires b == []
    ensures FromLittleEndian(b) == 0
  {
  }

  ghost function Power256(n: nat): nat
  {
    if n == 0 then 1 else 0x100 * Power256(n - 1)
  }

  lemma {:induction false} LittleEndianInverse(v: nat, n: nat)
    requires v < Power256(n)
    ensures FromLittleEndian(LittleEndian(v, n)) == v
  {
    if n > 0 {
      LittleEndianInverse(v / 0x100, n - 1);
      assert LittleEndian(v, n)[1..] == LittleEndian(v / 0x100, n - 1);
    }
  }

  lemma {:induction false} FromLittleEndianBound(b: seq<byte>)
    ensures FromLittleEndian(b) < Power256(|b|)
  {
    if b != [] {
      FromLittleEndianBound(b[1..]);
    }
  }

  lemma Powers()
    ensures Power256(2) == 0x1_0000 && Power256(8) == U64_LIMIT
  {
  }

  function ParseU8(b: seq<byte>): Parsed<byte>
  {
    if b == [] then Fail else Got(b[0], 1)
  }

  function ParseU16(b: seq<byte>): Parsed<u16>
  {
    if |b| < 2 then Fail
    else
      assert FromLittleEndian(b[..2]) < 0x1_0000 by { FromLittleEndianBound(b[..2]); Powers(); }
      Got(FromLittleEndian(b[..2]), 2)
  }

  function ParseU64(b: seq<byte>): Parsed<nat>
  {
    if |b| < 8 then Fail else Got(FromLittleEndian(b[..8]), 8)
  }

  function ParseStr(b: seq<byte>): Parsed<Str>
  {
    var n := ParseU64(b);
    if n.Fail? || |b| < n.used + n.value || !IsUtf8(b[n.used..n.used + n.value]) then Fail
    else Got(b[n.used..n.used + n.value], n.used + n.value)
  }

  ghost function ParseNode(): Parser<NodeEntry>
  {
    Mapped(Then(ParseStr, Then(ParseStr, ParseU16)), (t: (Str, (Str, u16))) => NodeEntry(t.0, t.1.0, t.1.1))
  }

  ghost function ParseSlotId(): Parser<SlotId>
  {
    Mapped(Then(ParseU16, ParseStr), (t: (u16, Str)) => SlotId(t.0, t.1))
  }

  ghost function ParseSlotTag(): Parser<SlotTag>
  {
    Mapped(Then(ParseU16, Then(ParseU8, ParseStr)), (t: (u16, (byte, Str))) => SlotTag(t.0, t.1.0, t.1.1))
  }

  type SnapshotTuple = (nat, (seq<NodeEntry>, (seq<SlotId>, (seq<SlotId>, seq<SlotTag>))))

  ghost function ParseSnapshot(): Parser<Snapshot>
  {
    Mapped(Then(ParseU64, Then(Counted(ParseNode()), Then(Counted(ParseSlotId()),
             Then(Counted(ParseSlotId()), Counted(ParseSlotTag()))))),
           (t: SnapshotTuple) => Snapshot(t.0, t.1.0, t.1.1.0, t.1.1.1.0, t.1.1.1.1))
  }

  lemma U8Good(x: byte)
    ensures Stable(ParseU8) && Reads(ParseU8, [x], x)
  {
    forall b, more | ParseU8(b).Got? ensures ParseU8(b).used <= |b| && ParseU8(b + more) == ParseU8(b) {
      assert (b + more)[0] == b[0];
    }
  }

  lemma U16Good(x: u16)
    ensures Stable(ParseU16) && Reads(ParseU16, SerU16(x), x)
  {
    hide FromLittleEndian, LittleEndian;
    var p: Parser<u16> := ParseU16;
    forall b, more | p(b).Got? ensures p(b).used <= |b| && p(b + more) == p(b) {
      assert p(b) == ParseU16(b) && p(b + more) == ParseU16(b + more);
      U16StableAt(b, more);
    }
    forall rest ensures p(SerU16(x) + rest) == Got(x, |SerU16(x)|) {
      assert p(SerU16(x) + rest) == ParseU16(SerU16(x) + rest);
      U16ReadsAt(x, rest);
    }
  }

  lemma U16StableAt(b: seq<byte>, more: seq<byte>)
    requires ParseU16(b).Got?
    ensures ParseU16(b).used <= |b| && ParseU16(b + more) == ParseU16(b)
  {
    hide FromLittleEndian;
    assert (b + more)[..2] == b[..2];
  }

  lemma U16ReadsAt(x: u16, rest: seq<byte>)
    ensures ParseU16(SerU16(x) + rest) == Got(x, |SerU16(x)|)
  {
    hide FromLittleEndian, LittleEndian;
    Powers();
    LittleEndianInverse(x, 2);
    assert (SerU16(x) + rest)[..2] == SerU16(x);
  }

  lemma U64Stable()
    ensures Stable(ParseU64)
  {
    forall b, more | ParseU64(b).Got? ensures ParseU64(b).used <= |b| && ParseU64(b + more) == ParseU64(b) {
      assert (b + more)[..8] == b[..8];
    }
  }

  lemma U64Reads(x: nat)
    requires x < U64_LIMIT
    ensures Reads(ParseU64, SerU64(x), x)
  {
    Powers();
    LittleEndianInverse(x, 8);
    forall rest ensures ParseU64(SerU64(x) + rest) == Got(x, |SerU64(x)|) {
      assert (SerU64(x) + rest)[..8] == SerU64(x);
    }
  }

  lemma StrStable()
    ensures Stable(ParseStr)
  {
    U64Stable();
    forall b, more | ParseStr(b).Got? ensures ParseStr(b).used <= |b| && ParseStr(b + more) == ParseStr(b) {
      var n := ParseU64(b);
      assert ParseU64(b + more) == n;
      assert (b + more)[n.used..n.used + n.value] == b[n.used..n.used + n.value];
    }
  }

  /** A string that a Rust program can hold and that survives `from_utf8`. */
  ghost predicate StrOk(s: Str) { |s| < U64_LIMIT && IsUtf8(s) }

  lemma StrReads(s: Str)
    requires StrOk(s)
    ensures Reads(ParseStr, SerStr(s), s)
  {
    U64Reads(|s|);
    forall rest ensures ParseStr(SerStr(s) + rest) == Got(s, |SerStr(s)|) {
      var b := SerStr(s) + rest;
      assert b == SerU64(|s|) + (s + rest);
      assert ParseU64(b) == Got(|s|, 8);
      assert b[8..8 + |s|] == s;
    }
  }

  lemma RecordsStable()
    ensures Stable(ParseNode()) && Stable(ParseSlotId()) && Stable(ParseSlotTag())
  {
    StrStable();
    U16Good(0);
    U8Good(0);
    ThenStable(ParseStr, ParseU16);
    ThenStable(ParseStr, Then(ParseStr, ParseU16));
    MappedStable(Then(ParseStr, Then(ParseStr, ParseU16)), (t: (Str, (Str, u16))) => NodeEntry(t.0, t.1.0, t.1.1));
    ThenStable(ParseU16, ParseStr);
    MappedStable(Then(ParseU16, ParseStr), (t: (u16, Str)) => SlotId(t.0, t.1));
    ThenStable(ParseU8, ParseStr);
    ThenStable(ParseU16, Then(ParseU8, ParseStr));
    MappedStable(Then(ParseU16, Then(ParseU8, ParseStr)), (t: (u16, (byte, Str))) => SlotTag(t.0, t.1.0, t.1.1));
  }

  lemma NodeReads(e: NodeEntry)
    requires StrOk(e.id) && StrOk(e.host)
    ensures Reads(ParseNode(), SerNode(e), e)
  {
    StrReads(e.id);
    StrReads(e.host);
    U16Good(e.port);
    ThenReads(ParseStr, ParseU16, SerStr(e.host), SerU16(e.port), e.host, e.port);
    ThenReads(ParseStr, Then(ParseStr, ParseU16), SerStr(e.id), SerStr(e.host) + SerU16(e.port),
              e.id, (e.host, e.port));
  }

  lemma SlotIdReads(o: SlotId)
    requires StrOk(o.id)
    ensures Reads(ParseSlotId(), SerSlotId(o), o)
  {
    U16Good(o.slot);
    StrReads(o.id);
    ThenReads(ParseU16, ParseStr, SerU16(o.slot), SerStr(o.id), o.slot, o.id);
  }

  lemma SlotTagReads(t: SlotTag)
    requires StrOk(t.id)
    ensures Reads(ParseSlotTag(), SerSlotTag(t), t)
  {
    U16Good(t.slot);
    U8Good(t.state);
    StrReads(t.id);
    ThenReads(ParseU8, ParseStr, [t.state], SerStr(t.id), t.state, t.id);
    ThenReads(ParseU16, Then(ParseU8, ParseStr), SerU16(t.slot), [t.state] + SerStr(t.id), t.slot, (t.state, t.id));
  }

  // ----- whole snapshots -----

  /** Every number and string of the snapshot fits its field. */
  ghost predicate SnapshotOk(s: Snapshot)
  {
    && s.epoch < U64_LIMIT
    && |s.nodes| < U64_LIMIT && |s.owners| < U64_LIMIT && |s.reps| < U64_LIMIT && |s.migs| < U64_LIMIT
    && (forall e :: e in s.nodes ==> StrOk(e.id) && StrOk(e.host))
    && (forall o :: o in s.owners ==> StrOk(o.id))
    && (forall o :: o in s.reps ==> StrOk(o.id))
    && (forall t :: t in s.migs ==> StrOk(t.id))
  }

  lemma SnapshotStable()
    ensures Stable(ParseSnapshot())
  {
    RecordsStable();
    U64Stable();
    var n, o, t := Counted(ParseNode()), Counted(ParseSlotId()), Counted(ParseSlotTag());
    CountedStable(ParseNode());
    CountedStable(ParseSlotId());
    CountedStable(ParseSlotTag());
    ThenStable(o, t);
    ThenStable(o, Then(o, t));
    ThenStable(n, Then(o, Then(o, t)));
    ThenStable(ParseU64, Then(n, Then(o, Then(o, t))));
    MappedStable(Then(ParseU64, Then(n, Then(o, Then(o, t)))),
                 (t: SnapshotTuple) => Snapshot(t.0, t.1.0, t.1.1.0, t.1.1.1.0, t.1.1.1.1));
  }

  /** Decoding an encoded snapshot gives it back, consuming exactly its bytes, whatever follows them. */
  lemma DecodeEncode(s: Snapshot)
    requires SnapshotOk(s)
    ensures Reads(ParseSnapshot(), Encode(s), s)
  {
    var n, o, t := Counted(ParseNode()), Counted(ParseSlotId()), Counted(ParseSlotTag());
    U64Reads(s.epoch);
    forall e | e in s.nodes ensures Reads(ParseNode(), SerNode(e), e) { NodeReads(e); }
    forall e | e in s.owners ensures Reads(ParseSlotId(), SerSlotId(e), e) { SlotIdReads(e); }
    forall e | e in s.reps ensures Reads(ParseSlotId(), SerSlotId(e), e) { SlotIdReads(e); }
    forall e | e in s.migs ensures Reads(ParseSlotTag(), SerSlotTag(e), e) { SlotTagReads(e); }
    CountedReads(ParseNode(), SerNode, s.nodes);
    CountedReads(ParseSlotId(), SerSlotId, s.owners);
    CountedReads(ParseSlotId(), SerSlotId, s.reps);
    CountedReads(ParseSlotTag(), SerSlotTag, s.migs);
    var b1, b2 := SerList(SerSlotId, s.reps), SerList(SerSlotTag, s.migs);
    ThenReads(o, t, b1, b2, s.reps, s.migs);
    var b3 := SerList(SerSlotId, s.owners);
    ThenReads(o, Then(o, t), b3, b1 + b2, s.owners, (s.reps, s.migs));
    var b4 := SerList(SerNode, s.nodes);
    ThenReads(n, Then(o, Then(o, t)), b4, b3 + (b1 + b2), s.nodes, (s.owners, (s.reps, s.migs)));
    ThenReads(ParseU64, Then(n, Then(o, Then(o, t))), SerU64(s.epoch), b4 + (b3 + (b1 + b2)),
              s.epoch, (s.nodes, (s.owners, (s.reps, s.migs))));
  }

  /** The form is self-delimiting: no strict prefix of an encoded snapshot decodes. */
  lemma TruncatedRejected(s: Snapshot, n: nat)
    requires SnapshotOk(s) && n < |Encode(s)|
    ensures ParseSnapshot()(Encode(s)[..n]) == Fail
  {
    SnapshotStable();
    DecodeEncode(s);
    NoStrictPrefix(ParseSnapshot(), Encode(s), s, n);
  }
}
