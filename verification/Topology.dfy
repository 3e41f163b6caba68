/** Building a map from a declared topology: which topologies are accepted, and what they become. */
module Topology {
  import opened Core
  import opened SlotTypes

  datatype Range = Range(start: u16, end: u16)

  datatype Declared = Declared(entry: NodeEntry, ranges: seq<Range>)

  datatype MapError =
    | Empty
    | BadId(id: Str)
    | DuplicateId(id: Str)
    | BadRange(range: Range)
    | Overlap(slot: nat, first: Str, second: Str)
    | Gap(slot: nat)
    | SelfNotPresent(id: Str)

  /** Exactly 40 lowercase hex characters. */
  predicate IsValidNodeId(id: Str)
  {
    |id| == 40 && forall i :: 0 <= i < |id| ==> 0x30 <= id[i] <= 0x39 || 0x61 <= id[i] <= 0x66
  }

  // ----- what a topology declares -----

  predicate RangeOk(r: Range) { r.start <= r.end < SLOTS }

  predicate Covers(r: Range, slot: nat) { r.start <= slot <= r.end }

  ghost predicate Names(ranges: seq<Range>, slot: nat)
  {
    exists p :: 0 <= p < |ranges| && Covers(ranges[p], slot)
  }

  /** Two ranges of one node name the same slot. */
  ghost predicate NamesTwice(ranges: seq<Range>, slot: nat)
  {
    exists p, q :: 0 <= p < q < |ranges| && Covers(ranges[p], slot) && Covers(ranges[q], slot)
  }

  ghost predicate RangesOk(ranges: seq<Range>)
  {
    && (forall p :: 0 <= p < |ranges| ==> RangeOk(ranges[p]))
    && (forall slot :: 0 <= slot < SLOTS ==> !NamesTwice(ranges, slot))
  }

  /** The first `n` nodes are well formed and do not step on each other. */
  ghost predicate Consistent(t: seq<Declared>, n: nat)
    requires n <= |t|
  {
    && (forall i :: 0 <= i < n ==> IsValidNodeId(t[i].entry.id) && RangesOk(t[i].ranges))
    && (forall i, j :: 0 <= i < j < n ==> t[i].entry.id != t[j].entry.id)
    && (forall i, j, slot :: 0 <= i < j < n && 0 <= slot < SLOTS ==>
          !(Names(t[i].ranges, slot) && Names(t[j].ranges, slot)))
  }

  ghost predicate Named(t: seq<Declared>, n: nat, slot: nat)
    requires n <= |t|
  {
    exists i :: 0 <= i < n && Names(t[i].ranges, slot)
  }

  ghost predicate HasId(t: seq<Declared>, id: Str)
  {
    exists i :: 0 <= i < |t| && t[i].entry.id == id
  }

  /** A topology a node may boot from: consistent, complete, and naming the node itself. */
  ghost predicate TopologyOk(t: seq<Declared>, self: Str)
  {
    t != [] && Consistent(t, |t|) && Complete(t) && HasId(t, self)
  }

  ghost predicate Complete(t: seq<Declared>) { forall slot :: 0 <= slot < SLOTS ==> Named(t, |t|, slot) }

  // ----- where the scan stops -----

  ghost predicate FirstFaulty(t: seq<Declared>, i: int) { 0 <= i < |t| && Consistent(t, i) && !Consistent(t, i + 1) }

  ghost predicate BadIdAt(t: seq<Declared>, i: nat) { i < |t| && Consistent(t, i) && !IsValidNodeId(t[i].entry.id) }

  ghost predicate DuplicateAt(t: seq<Declared>, i: nat)
  {
    && i < |t| && Consistent(t, i) && IsValidNodeId(t[i].entry.id)
    && exists j :: 0 <= j < i && t[j].entry.id == t[i].entry.id
  }

  /** The scan has accepted the nodes before `i`, and the id and the first `p` ranges of node `i`. */
  ghost predicate Scanned(t: seq<Declared>, i: nat, p: nat)
  {
    && i < |t| && Consistent(t, i) && IsValidNodeId(t[i].entry.id)
    && (forall j :: 0 <= j < i ==> t[j].entry.id != t[i].entry.id)
    && p <= |t[i].ranges| && RangesOk(t[i].ranges[..p])
    && forall slot :: 0 <= slot < SLOTS && Names(t[i].ranges[..p], slot) ==> !Named(t, i, slot)
  }

  ghost predicate BadRangeAt(t: seq<Declared>, i: nat, p: nat)
  {
    Scanned(t, i, p) && p < |t[i].ranges| && !RangeOk(t[i].ranges[p])
  }

  /** Claimed already when the scan reaches range `p` of node `i`: by an earlier node, or by node `i` itself. */
  ghost predicate Taken(t: seq<Declared>, i: nat, p: nat, slot: nat)
    requires i < |t| && p <= |t[i].ranges|
  {
    Named(t, i, slot) || Names(t[i].ranges[..p], slot)
  }

  /** The scan stops in range `p` of node `i`, at `slot`, the first one there that is taken. */
  ghost predicate TakenAt(t: seq<Declared>, i: nat, p: nat, slot: nat)
  {
    && Scanned(t, i, p) && p < |t[i].ranges| && RangeOk(t[i].ranges[p])
    && Covers(t[i].ranges[p], slot) && Taken(t, i, p, slot)
    && forall k :: t[i].ranges[p].start <= k < slot ==> !Taken(t, i, p, k)
  }

  /** The error is the scan's own: where it stops, and what it finds there. */
  ghost predicate Blames(t: seq<Declared>, self: Str, e: MapError)
  {
    match e
    case Empty => t == []
    case BadId(id) => exists i: nat :: BadIdAt(t, i) && t[i].entry.id == id
    case DuplicateId(id) => exists i: nat :: DuplicateAt(t, i) && t[i].entry.id == id
    case BadRange(r) => exists i: nat, p: nat :: BadRangeAt(t, i, p) && t[i].ranges[p] == r
    case Overlap(slot, first, second) => exists h, i, p :: OverlapAt(t, h, i, p, slot, first, second)
    case Gap(slot) => t != [] && Consistent(t, |t|) && FirstGap(t, slot)
    case SelfNotPresent(id) => t != [] && Consistent(t, |t|) && Complete(t) && id == self && !HasId(t, self)
  }

  ghost predicate OverlapAt(t: seq<Declared>, h: nat, i: nat, p: nat, slot: nat, first: Str, second: Str)
  {
    && h < i && TakenAt(t, i, p, slot) && Names(t[h].ranges, slot)
    && t[h].entry.id == first && t[i].entry.id == second
  }

  /**
   The scan finds a slot claimed by the very node it is scanning, whose table entry is not there yet. So: every
   earlier node is in order, this node's id is good and new, and the first thing wrong with its ranges, in order
   and slot by slot, is a slot that an earlier range of its own names.
  */
  ghost predicate Panics(t: seq<Declared>, slot: nat) { exists i, p :: TwiceAt(t, i, p, slot) }

  ghost predicate TwiceAt(t: seq<Declared>, i: nat, p: nat, slot: nat)
  {
    TakenAt(t, i, p, slot) && Names(t[i].ranges[..p], slot)
  }

  ghost predicate FirstGap(t: seq<Declared>, slot: nat)
  {
    slot < SLOTS && !Named(t, |t|, slot) && forall k :: 0 <= k < slot ==> Named(t, |t|, k)
  }

  /** Nothing wrong except, perhaps, that some node names a slot twice. */
  ghost predicate OtherwiseConsistent(t: seq<Declared>)
  {
    && (forall i :: 0 <= i < |t| ==> IsValidNodeId(t[i].entry.id))
    && (forall i, r :: 0 <= i < |t| && r in t[i].ranges ==> RangeOk(r))
    && (forall i, j :: 0 <= i < j < |t| ==> t[i].entry.id != t[j].entry.id)
    && (forall i, j, slot :: 0 <= i < j < |t| && 0 <= slot < SLOTS ==>
          !(Names(t[i].ranges, slot) && Names(t[j].ranges, slot)))
  }

  ghost predicate SomeNodeNamesTwice(t: seq<Declared>)
  {
    exists i, slot :: 0 <= i < |t| && 0 <= slot < SLOTS && NamesTwice(t[i].ranges, slot)
  }

  // ----- claiming slots -----

  /** Slots carry the index of the one node among the first `n` that names them. */
  ghost predicate ClaimedBy(t: seq<Declared>, n: nat, owner: seq<u16>)
    requires n <= |t|
  {
    |owner| == SLOTS && forall slot :: 0 <= slot < SLOTS ==>
      if owner[slot] == UNASSIGNED then !Named(t, n, slot)
      else owner[slot] < n && Names(t[owner[slot]].ranges, slot)
  }

  datatype Claim = Claimed | Bad(range: Range) | Clash(slot: nat, holder: u16)

  /** Store `idx` into every slot of one range, stopping at the first slot already taken. */
  method ClaimRange(owner: array<u16>, idx: u16, r: Range) returns (c: Claim)
    requires owner.Length == SLOTS && RangeOk(r) && idx != UNASSIGNED
    modifies owner
    ensures c.Claimed? || c.Clash?
    ensures c.Claimed? ==> forall k :: 0 <= k < SLOTS ==> owner[k] == if Covers(r, k) then idx else old(owner[k])
    ensures c.Claimed? ==> forall k :: 0 <= k < SLOTS && Covers(r, k) ==> old(owner[k]) == UNASSIGNED
    ensures c.Clash? ==> Covers(r, c.slot) && c.holder == old(owner[c.slot]) != UNASSIGNED
    ensures c.Clash? ==> forall k :: r.start <= k < c.slot ==> old(owner[k]) == UNASSIGNED
  {
    for slot := r.start to r.end + 1
      invariant forall k :: 0 <= k < SLOTS ==> owner[k] == if r.start <= k < slot then idx else old(owner[k])
      invariant forall k :: r.start <= k < slot ==> old(owner[k]) == UNASSIGNED
    {
      if owner[slot] != UNASSIGNED {
        return Clash(slot, owner[slot]);
      }
      owner[slot] := idx;
    }
    c := Claimed;
  }

  /** The first `p` ranges are in order and touch nothing that was taken. */
  ghost predicate Free(before: seq<u16>, ranges: seq<Range>, p: nat)
    requires |before| == SLOTS
  {
    && p <= |ranges| && RangesOk(ranges[..p])
    && forall k :: 0 <= k < SLOTS && Names(ranges[..p], k) ==> before[k] == UNASSIGNED
  }

  /** What range `p` of node `idx` runs into: the first slot of it that was taken or that `ranges[..p]` names. */
  ghost predicate RunsInto(before: seq<u16>, ranges: seq<Range>, p: nat, idx: u16, slot: nat, holder: u16)
    requires |before| == SLOTS && p < |ranges| && RangeOk(ranges[p])
  {
    && Covers(ranges[p], slot)
    && (if Names(ranges[..p], slot) then holder == idx else holder == before[slot] != UNASSIGNED)
    && forall k :: ranges[p].start <= k < slot ==> before[k] == UNASSIGNED && !Names(ranges[..p], k)
  }

  /**
   All ranges of one node, stopping at the first bad range or the first slot already taken; `p` is the range
   it stopped in. A clash with `idx` itself means the node names the slot twice.
  */
  method ClaimRanges(owner: array<u16>, idx: u16, ranges: seq<Range>) returns (c: Claim, ghost p: nat)
    requires owner.Length == SLOTS && idx != UNASSIGNED
    requires forall k :: 0 <= k < SLOTS ==> owner[k] != idx
    modifies owner
    ensures Free(old(owner[..]), ranges, p) && (c.Claimed? <==> p == |ranges|)
    ensures c.Claimed? ==> forall k :: 0 <= k < SLOTS ==> owner[k] == if Names(ranges, k) then idx else old(owner[k])
    ensures c.Bad? ==> c.range == ranges[p] && !RangeOk(c.range)
    ensures c.Clash? ==> RangeOk(ranges[p]) && RunsInto(old(owner[..]), ranges, p, idx, c.slot, c.holder)
  {
    hide RangesOk, Names;
    NothingNamed(ranges);
    p := 0;
    for q := 0 to |ranges|
      invariant p == q && Free(old(owner[..]), ranges, q)
      invariant forall k :: 0 <= k < SLOTS ==> owner[k] == if Names(ranges[..q], k) then idx else old(owner[k])
    {
      if !RangeOk(ranges[q]) {
        return Bad(ranges[q]), q;
      }
      c := ClaimRange(owner, idx, ranges[q]);
      if c.Clash? {
        return c, q;
      }
      RangesGrow(ranges, q);
      p := q + 1;
    }
    assert ranges[..|ranges|] == ranges;
    c := Claimed;
  }

  lemma NothingNamed(ranges: seq<Range>)
    ensures RangesOk(ranges[..0]) && forall k :: !Names(ranges[..0], k)
  {
  }

  lemma NamesSnoc(ranges: seq<Range>, p: nat, slot: nat)
    requires p < |ranges|
    ensures Names(ranges[..p + 1], slot) <==> Names(ranges[..p], slot) || Covers(ranges[p], slot)
  {
  }

  lemma RangesGrow(ranges: seq<Range>, p: nat)
    requires p < |ranges| && RangesOk(ranges[..p]) && RangeOk(ranges[p])
    ensures forall slot :: Names(ranges[..p + 1], slot) <==> Names(ranges[..p], slot) || Covers(ranges[p], slot)
    ensures (forall slot :: 0 <= slot < SLOTS ==> !(Names(ranges[..p], slot) && Covers(ranges[p], slot))) ==>
      RangesOk(ranges[..p + 1])
  {
    forall slot ensures Names(ranges[..p + 1], slot) <==> Names(ranges[..p], slot) || Covers(ranges[p], slot) {
      NamesSnoc(ranges, p, slot);
    }
    if forall slot :: 0 <= slot < SLOTS ==> !(Names(ranges[..p], slot) && Covers(ranges[p], slot)) {
      var longer := ranges[..p + 1];
      forall slot | 0 <= slot < SLOTS ensures !NamesTwice(longer, slot) {
        if NamesTwice(longer, slot) {
          TwiceSnoc(ranges, p, slot);
        }
      }
      forall q | 0 <= q < p + 1 ensures RangeOk(longer[q]) {
        assert q < p ==> RangeOk(ranges[..p][q]);
      }
    }
  }

  lemma TwiceSnoc(ranges: seq<Range>, p: nat, slot: nat)
    requires p < |ranges| && NamesTwice(ranges[..p + 1], slot)
    ensures NamesTwice(ranges[..p], slot) || (Names(ranges[..p], slot) && Covers(ranges[p], slot))
  {
  }

  // ----- the whole build -----

  datatype Resolution =
    | Accepted(owner: seq<u16>, me: nat)
    | Rejected(error: MapError)
    | Panicked(slot: nat)

  /** One more node: its claims join the owner array, and the prefix stays consistent. */
  lemma NodeJoins(t: seq<Declared>, n: nat, before: seq<u16>, after: seq<u16>)
    requires n < |t| <= UNASSIGNED && Consistent(t, n) && ClaimedBy(t, n, before) && |after| == SLOTS
    requires IsValidNodeId(t[n].entry.id) && Free(before, t[n].ranges, |t[n].ranges|)
    requires forall i :: 0 <= i < n ==> t[i].entry.id != t[n].entry.id
    requires forall k :: 0 <= k < SLOTS ==> after[k] == if Names(t[n].ranges, k) then n else before[k]
    ensures Consistent(t, n + 1) && ClaimedBy(t, n + 1, after)
  {
    assert t[n].ranges[..|t[n].ranges|] == t[n].ranges;
  }

  function Entries(t: seq<Declared>): (r: seq<NodeEntry>)
    ensures |r| == |t| && forall i :: 0 <= i < |t| ==> r[i] == t[i].entry
  {
    seq(|t|, i requires 0 <= i < |t| => t[i].entry)
  }

  /**
   Decide a topology. It is accepted exactly if it is valid, and then each slot's owner is the node that names
   it. Every other topology gets the one error, or the one panic, that the scan comes to.
  */
  method Resolve(t: seq<Declared>, self: Str) returns (r: Resolution)
    requires |t| <= UNASSIGNED
    ensures r.Accepted? <==> TopologyOk(t, self)
    ensures r.Accepted? ==> ClaimedBy(t, |t|, r.owner) && |r.owner| == SLOTS && r.me < |t| && t[r.me].entry.id == self
    ensures r.Accepted? ==> forall slot :: 0 <= slot < SLOTS ==> r.owner[slot] != UNASSIGNED
    ensures forall e :: Blames(t, self, e) <==> r == Rejected(e)
    ensures forall slot :: Panics(t, slot) <==> r == Panicked(slot)
    ensures OtherwiseConsistent(t) ==> (r.Panicked? <==> SomeNodeNamesTwice(t))
  {
    hide NamesTwice, IsValidNodeId, Blames, TopologyOk, Consistent, ClaimedBy, Named, Names, RangesOk, HasId, Panics,
         OtherwiseConsistent, SomeNodeNamesTwice, Free, RunsInto, Scanned;
    if t == [] {
      EmptyFault(t, self);
      Decided(t, self, Rejected(Empty));
      return Rejected(Empty);
    }
    var owner := new u16[SLOTS](_ => UNASSIGNED);
    NothingClaimed(t, owner[..]);
    for idx := 0 to |t|
      invariant Consistent(t, idx) && ClaimedBy(t, idx, owner[..])
    {
      var e := t[idx].entry;
      if !IsValidNodeId(e.id) {
        BadIdFault(t, self, idx);
        Decided(t, self, Rejected(BadId(e.id)));
        return Rejected(BadId(e.id));
      }
      if i :| 0 <= i < idx && t[i].entry.id == e.id {
        DuplicateFault(t, self, i, idx);
        Decided(t, self, Rejected(DuplicateId(e.id)));
        return Rejected(DuplicateId(e.id));
      }
      ghost var before := owner[..];
      NotYet(t, idx, before);
      var c, p := ClaimRanges(owner, idx, t[idx].ranges);
      ScannedSoFar(t, idx, p, before);
      match c {
        case Bad(range) =>
          BadRangeFault(t, self, idx, p);
          Decided(t, self, Rejected(BadRange(range)));
          return Rejected(BadRange(range));
        case Clash(slot, holder) =>
          ClashFault(t, self, idx, p, before, slot, holder);
          if holder == idx {
            Decided(t, self, Panicked(slot));
            return Panicked(slot);
          }
          Decided(t, self, Rejected(Overlap(slot, t[holder].entry.id, e.id)));
          return Rejected(Overlap(slot, t[holder].entry.id, e.id));
        case Claimed =>
          NodeJoins(t, idx, before, owner[..]);
      }
    }
    for slot := 0 to SLOTS
      invariant forall k :: 0 <= k < slot ==> owner[k] != UNASSIGNED
    {
      if owner[slot] == UNASSIGNED {
        GapFault(t, self, owner[..], slot);
        Decided(t, self, Rejected(Gap(slot)));
        return Rejected(Gap(slot));
      }
    }
    var me := 0;
    while me < |t| && t[me].entry.id != self
      invariant me <= |t| && forall i :: 0 <= i < me ==> t[i].entry.id != self
    {
      me := me + 1;
    }
    if me == |t| {
      AbsentFault(t, self, owner[..]);
      Decided(t, self, Rejected(SelfNotPresent(self)));
      return Rejected(SelfNotPresent(self));
    }
    AllWell(t, self, owner[..], me);
    r := Accepted(owner[..], me);
    Decided(t, self, r);
  }

  // ----- the scan stops in one place -----

  lemma ConsistentDown(t: seq<Declared>, n: nat, m: nat)
    requires n <= m <= |t| && Consistent(t, m)
    ensures Consistent(t, n)
  {
  }

  lemma OneFaultyNode(t: seq<Declared>, i: nat, j: nat)
    requires FirstFaulty(t, i) && FirstFaulty(t, j)
    ensures i == j
  {
    hide Consistent;
    if i < j {
      ConsistentDown(t, i + 1, j);
    } else if j < i {
      ConsistentDown(t, j + 1, i);
    }
  }

  lemma NamesMore(ranges: seq<Range>, p: nat, q: nat, slot: nat)
    requires p <= q <= |ranges|
    ensures Names(ranges[..p], slot) ==> Names(ranges[..q], slot)
    ensures NamesTwice(ranges[..p], slot) ==> NamesTwice(ranges[..q], slot)
  {
    if Names(ranges[..p], slot) {
      var a :| 0 <= a < p && Covers(ranges[..p][a], slot);
      assert Covers(ranges[..q][a], slot);
    }
    if NamesTwice(ranges[..p], slot) {
      var a, b :| 0 <= a < b < p && Covers(ranges[..p][a], slot) && Covers(ranges[..p][b], slot);
      assert Covers(ranges[..q][a], slot) && Covers(ranges[..q][b], slot);
    }
  }

  lemma ScannedDown(t: seq<Declared>, i: nat, p: nat, q: nat)
    requires p <= q && Scanned(t, i, q)
    ensures Scanned(t, i, p)
  {
    hide Consistent, IsValidNodeId, Named, Names, NamesTwice;
    var ranges := t[i].ranges;
    forall slot | 0 <= slot < SLOTS
      ensures !NamesTwice(ranges[..p], slot) && (Names(ranges[..p], slot) ==> !Named(t, i, slot))
    {
      NamesMore(ranges, p, q, slot);
    }
    forall a | 0 <= a < p ensures RangeOk(ranges[..p][a]) {
      assert RangeOk(ranges[..q][a]);
    }
  }

  lemma ConsistentIsScanned(t: seq<Declared>, i: nat)
    requires i < |t| && Consistent(t, i + 1)
    ensures Scanned(t, i, |t[i].ranges|)
  {
    hide IsValidNodeId, Names, NamesTwice;
    ConsistentDown(t, i, i + 1);
    assert t[i].ranges[..|t[i].ranges|] == t[i].ranges;
  }

  /** A complaint about range `p` of node `i`. */
  ghost predicate StopsAt(t: seq<Declared>, i: nat, p: nat)
  {
    Scanned(t, i, p) && p < |t[i].ranges| && !Scanned(t, i, p + 1)
  }

  lemma BadRangeStops(t: seq<Declared>, i: nat, p: nat)
    requires BadRangeAt(t, i, p)
    ensures StopsAt(t, i, p) && FirstFaulty(t, i)
  {
    hide Consistent, IsValidNodeId, Named, Names, NamesTwice;
    var longer := t[i].ranges[..p + 1];
    assert !RangeOk(longer[p]);
    StopIsFault(t, i, p);
  }

  lemma TakenStops(t: seq<Declared>, i: nat, p: nat, slot: nat)
    requires TakenAt(t, i, p, slot)
    ensures StopsAt(t, i, p) && FirstFaulty(t, i)
    ensures !(Names(t[i].ranges[..p], slot) && Named(t, i, slot))
  {
    hide Consistent, IsValidNodeId, Named;
    var longer := t[i].ranges[..p + 1];
    assert Covers(longer[p], slot);
    if Names(t[i].ranges[..p], slot) {
      var a :| 0 <= a < p && Covers(t[i].ranges[..p][a], slot);
      assert Covers(longer[a], slot);
      assert NamesTwice(longer, slot);
    }
    StopIsFault(t, i, p);
  }

  lemma StopIsFault(t: seq<Declared>, i: nat, p: nat)
    requires StopsAt(t, i, p)
    ensures FirstFaulty(t, i)
  {
    hide Scanned;
    assert Scanned(t, i, p) ==> Consistent(t, i) && i < |t| by { ScannedNode(t, i, p); }
    if Consistent(t, i + 1) {
      ConsistentIsScanned(t, i);
      ScannedDown(t, i, p + 1, |t[i].ranges|);
    }
  }

  lemma ScannedNode(t: seq<Declared>, i: nat, p: nat)
    requires Scanned(t, i, p)
    ensures i < |t| && Consistent(t, i) && p <= |t[i].ranges| && !BadIdAt(t, i) && !DuplicateAt(t, i)
  {
  }

  /** The scan complains about one range at most. */
  lemma OneStop(t: seq<Declared>, i: nat, p: nat, j: nat, q: nat)
    requires StopsAt(t, i, p) && StopsAt(t, j, q)
    ensures i == j && p == q
  {
    hide Scanned;
    StopIsFault(t, i, p);
    StopIsFault(t, j, q);
    OneFaultyNode(t, i, j);
    if p < q {
      ScannedDown(t, i, p + 1, q);
    } else if q < p {
      ScannedDown(t, i, q + 1, p);
    }
  }

  lemma OneTakenSlot(t: seq<Declared>, i: nat, p: nat, slot: nat, j: nat, q: nat, other: nat)
    requires TakenAt(t, i, p, slot) && TakenAt(t, j, q, other)
    ensures i == j && p == q && slot == other
  {
    hide Scanned, Taken;
    TakenStops(t, i, p, slot);
    TakenStops(t, j, q, other);
    OneStop(t, i, p, j, q);
  }

  /** Where an error about a node comes from. */
  lemma BlameMeans(t: seq<Declared>, self: Str, e: MapError) returns (h: nat, i: nat, p: nat)
    requires Blames(t, self, e) && (e.BadId? || e.DuplicateId? || e.BadRange? || e.Overlap?)
    ensures FirstFaulty(t, i)
    ensures e.BadId? ==> BadIdAt(t, i) && t[i].entry.id == e.id
    ensures e.DuplicateId? ==> DuplicateAt(t, i) && t[i].entry.id == e.id
    ensures e.BadRange? ==> BadRangeAt(t, i, p) && StopsAt(t, i, p) && t[i].ranges[p] == e.range
    ensures e.Overlap? ==> OverlapAt(t, h, i, p, e.slot, e.first, e.second) && StopsAt(t, i, p)
  {
    hide Named, Names, RangesOk, TakenAt;
    h, p := 0, 0;
    match e {
      case BadId(id) =>
        i :| BadIdAt(t, i) && t[i].entry.id == id;
      case DuplicateId(id) =>
        i :| DuplicateAt(t, i) && t[i].entry.id == id;
      case BadRange(r) =>
        i, p :| i < |t| && p < |t[i].ranges| && BadRangeAt(t, i, p) && t[i].ranges[p] == r;
        BadRangeStops(t, i, p);
      case Overlap(slot, first, second) =>
        h, i, p :| OverlapAt(t, h, i, p, slot, first, second);
        TakenStops(t, i, p, slot);
    }
  }

  lemma OneHolder(t: seq<Declared>, i: nat, h: nat, g: nat, slot: nat)
    requires i <= |t| && Consistent(t, i) && h < i && g < i && slot < SLOTS
    requires Names(t[h].ranges, slot) && Names(t[g].ranges, slot)
    ensures h == g
  {
  }

  ghost predicate AboutNode(e: MapError) { e.BadId? || e.DuplicateId? || e.BadRange? || e.Overlap? }

  /** Errors about the whole map come only when no node is at fault. */
  lemma WholeMapBlame(t: seq<Declared>, self: Str, e: MapError)
    requires Blames(t, self, e) && !AboutNode(e)
    ensures forall i :: !FirstFaulty(t, i)
  {
    hide Named, Names, RangesOk, IsValidNodeId;
    forall i ensures !FirstFaulty(t, i) {
      if FirstFaulty(t, i) {
        ConsistentDown(t, i + 1, |t|);
      }
    }
  }

  lemma OneWholeMapBlame(t: seq<Declared>, self: Str, e: MapError, f: MapError)
    requires Blames(t, self, e) && Blames(t, self, f) && !AboutNode(e) && !AboutNode(f)
    ensures e == f
  {
    hide Named, Consistent, HasId;
  }

  lemma OneNodeBlame(t: seq<Declared>, self: Str, e: MapError, f: MapError)
    requires Blames(t, self, e) && Blames(t, self, f) && AboutNode(e) && AboutNode(f)
    ensures e == f
  {
    hide Blames, Consistent, Scanned, Named, Names, Taken, RangesOk, IsValidNodeId;
    var h, i, p := BlameMeans(t, self, e);
    var g, j, q := BlameMeans(t, self, f);
    OneFaultyNode(t, i, j);
    if StopsAt(t, i, p) {
      ScannedNode(t, i, p);
    }
    if StopsAt(t, i, q) {
      ScannedNode(t, i, q);
    }
    if StopsAt(t, i, p) && StopsAt(t, i, q) {
      OneStop(t, i, p, j, q);
    }
    if e.Overlap? && f.Overlap? {
      OneTakenSlot(t, i, p, e.slot, j, q, f.slot);
      OneHolder(t, i, h, g, e.slot);
    }
  }

  /** The error of a topology, if it has one, is the only one. */
  lemma OneBlame(t: seq<Declared>, self: Str, e: MapError, f: MapError)
    requires Blames(t, self, e) && Blames(t, self, f)
    ensures e == f
  {
    hide Blames, FirstFaulty;
    if AboutNode(e) && AboutNode(f) {
      OneNodeBlame(t, self, e, f);
    } else if AboutNode(e) {
      WholeMapBlame(t, self, f);
      var _, _, _ := BlameMeans(t, self, e);
    } else if AboutNode(f) {
      WholeMapBlame(t, self, e);
      var _, _, _ := BlameMeans(t, self, f);
    } else {
      OneWholeMapBlame(t, self, e, f);
    }
  }

  lemma PanicMeans(t: seq<Declared>, slot: nat) returns (i: nat, p: nat)
    requires Panics(t, slot)
    ensures TwiceAt(t, i, p, slot) && StopsAt(t, i, p) && FirstFaulty(t, i) && !Named(t, i, slot)
  {
    hide Scanned, Named, Names, RangesOk, TakenAt;
    i, p :| TwiceAt(t, i, p, slot);
    TakenStops(t, i, p, slot);
  }

  /** A topology that panics has no error value, and panics at one slot only. */
  lemma PanicIsNoBlame(t: seq<Declared>, self: Str, slot: nat, e: MapError)
    requires Panics(t, slot)
    ensures !Blames(t, self, e)
  {
    hide Blames, Consistent, Scanned, Names, RangesOk, IsValidNodeId, Panics, Taken;
    if Blames(t, self, e) {
      var i, p := PanicMeans(t, slot);
      ScannedNode(t, i, p);
      if AboutNode(e) {
        var h, j, q := BlameMeans(t, self, e);
        OneFaultyNode(t, i, j);
        if StopsAt(t, j, q) {
          OneStop(t, i, p, j, q);
        }
        if e.Overlap? {
          OneTakenSlot(t, i, p, slot, j, q, e.slot);
        }
      } else {
        WholeMapBlame(t, self, e);
      }
    }
  }

  lemma OnePanic(t: seq<Declared>, slot: nat, other: nat)
    requires Panics(t, slot) && Panics(t, other)
    ensures slot == other
  {
    hide TakenAt, Names;
    var i, p := PanicMeans(t, slot);
    var j, q := PanicMeans(t, other);
    OneTakenSlot(t, i, p, slot, j, q, other);
  }

  lemma FaultIsNotOk(t: seq<Declared>, self: Str, i: nat)
    requires FirstFaulty(t, i)
    ensures !TopologyOk(t, self)
  {
    if TopologyOk(t, self) {
      ConsistentDown(t, i + 1, |t|);
    }
  }

  lemma BlamedIsBad(t: seq<Declared>, self: Str, e: MapError)
    requires Blames(t, self, e)
    ensures !TopologyOk(t, self)
  {
    hide Scanned, RangesOk, IsValidNodeId, Names;
    if AboutNode(e) {
      var h, i, p := BlameMeans(t, self, e);
      FaultIsNotOk(t, self, i);
    }
  }

  /** A topology refused with an error, and faultless but for double naming, has no double naming. */
  lemma RefusedWithoutTwice(t: seq<Declared>, self: Str, e: MapError)
    requires Blames(t, self, e)
    ensures OtherwiseConsistent(t) ==> !SomeNodeNamesTwice(t)
  {
    if AboutNode(e) {
      NodeBlameIsInconsistent(t, self, e);
    } else {
      hide IsValidNodeId, Named, Names, NamesTwice;
    }
  }

  lemma NodeBlameIsInconsistent(t: seq<Declared>, self: Str, e: MapError)
    requires Blames(t, self, e) && AboutNode(e)
    ensures !OtherwiseConsistent(t)
  {
    hide Blames, Scanned, Consistent, RangesOk, IsValidNodeId, NamesTwice, Named, Taken, StopsAt;
    var h, i, p := BlameMeans(t, self, e);
    if e.BadRange? {
      assert e.range in t[i].ranges;
    } else if e.Overlap? {
      assert Covers(t[i].ranges[p], e.slot);
      assert Names(t[i].ranges, e.slot) && Names(t[h].ranges, e.slot);
    }
  }

  lemma PanicNamesTwice(t: seq<Declared>, slot: nat)
    requires Panics(t, slot)
    ensures SomeNodeNamesTwice(t)
  {
    hide IsValidNodeId, Consistent, Named;
    var i, p := PanicMeans(t, slot);
    var a :| 0 <= a < p && Covers(t[i].ranges[..p][a], slot);
    assert Covers(t[i].ranges[a], slot) && Covers(t[i].ranges[p], slot);
    assert NamesTwice(t[i].ranges, slot);
  }

  ghost predicate IsVerdict(t: seq<Declared>, self: Str, r: Resolution)
  {
    match r
    case Accepted(_, _) => TopologyOk(t, self)
    case Rejected(e) => Blames(t, self, e)
    case Panicked(slot) => Panics(t, slot)
  }

  /** A verdict that is right is the only right one. */
  lemma Decided(t: seq<Declared>, self: Str, r: Resolution)
    requires IsVerdict(t, self, r)
    ensures r.Accepted? <==> TopologyOk(t, self)
    ensures forall e :: Blames(t, self, e) <==> r == Rejected(e)
    ensures forall slot :: Panics(t, slot) <==> r == Panicked(slot)
    ensures OtherwiseConsistent(t) ==> (r.Panicked? <==> SomeNodeNamesTwice(t))
  {
    hide Blames, Panics, OtherwiseConsistent, SomeNodeNamesTwice, FirstFaulty, TopologyOk;
    forall e | Blames(t, self, e) ensures r == Rejected(e) {
      BlamedIsBad(t, self, e);
      if r.Rejected? {
        OneBlame(t, self, e, r.error);
      } else if r.Panicked? {
        PanicIsNoBlame(t, self, r.slot, e);
      }
    }
    forall slot | Panics(t, slot) ensures r == Panicked(slot) {
      var i, _ := PanicMeans(t, slot);
      FaultIsNotOk(t, self, i);
      if r.Rejected? {
        PanicIsNoBlame(t, self, slot, r.error);
      } else if r.Panicked? {
        OnePanic(t, slot, r.slot);
      }
    }
    match r {
      case Accepted(_, _) => OkNamesOnce(t, self);
      case Rejected(e) => BlamedIsBad(t, self, e); RefusedWithoutTwice(t, self, e);
      case Panicked(slot) =>
        PanicNamesTwice(t, slot);
        var i, _ := PanicMeans(t, slot);
        FaultIsNotOk(t, self, i);
    }
  }

  lemma OkNamesOnce(t: seq<Declared>, self: Str)
    requires TopologyOk(t, self)
    ensures !SomeNodeNamesTwice(t)
  {
  }

  // ----- why each verdict is right -----

  lemma EmptyFault(t: seq<Declared>, self: Str)
    requires t == []
    ensures Blames(t, self, Empty)
  {
  }

  lemma NothingClaimed(t: seq<Declared>, owner: seq<u16>)
    requires |owner| == SLOTS && forall k :: 0 <= k < SLOTS ==> owner[k] == UNASSIGNED
    ensures Consistent(t, 0) && ClaimedBy(t, 0, owner)
  {
  }

  lemma NotYet(t: seq<Declared>, n: nat, owner: seq<u16>)
    requires n < |t| <= UNASSIGNED && ClaimedBy(t, n, owner)
    ensures |owner| == SLOTS && forall k :: 0 <= k < SLOTS ==> owner[k] != n
  {
  }

  lemma BadIdFault(t: seq<Declared>, self: Str, i: nat)
    requires i < |t| && Consistent(t, i) && !IsValidNodeId(t[i].entry.id)
    ensures Blames(t, self, BadId(t[i].entry.id))
  {
    assert BadIdAt(t, i);
  }

  lemma DuplicateFault(t: seq<Declared>, self: Str, i: nat, j: nat)
    requires i < j < |t| && Consistent(t, j) && IsValidNodeId(t[j].entry.id) && t[i].entry.id == t[j].entry.id
    ensures Blames(t, self, DuplicateId(t[j].entry.id))
  {
    assert DuplicateAt(t, j);
  }

  lemma ScannedSoFar(t: seq<Declared>, i: nat, p: nat, before: seq<u16>)
    requires i < |t| && Consistent(t, i) && ClaimedBy(t, i, before) && IsValidNodeId(t[i].entry.id)
    requires forall j :: 0 <= j < i ==> t[j].entry.id != t[i].entry.id
    requires Free(before, t[i].ranges, p)
    ensures Scanned(t, i, p) && p <= |t[i].ranges|
  {
  }

  lemma BadRangeFault(t: seq<Declared>, self: Str, i: nat, p: nat)
    requires Scanned(t, i, p) && p < |t[i].ranges| && !RangeOk(t[i].ranges[p])
    ensures Blames(t, self, BadRange(t[i].ranges[p]))
  {
    assert BadRangeAt(t, i, p);
  }

  lemma ClashFault(t: seq<Declared>, self: Str, i: nat, p: nat, before: seq<u16>, slot: nat, holder: u16)
    requires Scanned(t, i, p) && p < |t[i].ranges| && RangeOk(t[i].ranges[p]) && ClaimedBy(t, i, before)
    requires |t| <= UNASSIGNED
    requires RunsInto(before, t[i].ranges, p, i, slot, holder)
    ensures holder == i ==> Panics(t, slot)
    ensures holder != i ==> holder < i && Blames(t, self, Overlap(slot, t[holder].entry.id, t[i].entry.id))
  {
    hide Names, IsValidNodeId, Consistent, RangesOk;
    forall k: nat | t[i].ranges[p].start <= k < slot ensures !Taken(t, i, p, k) {
      assert before[k] == UNASSIGNED;
    }
    assert Taken(t, i, p, slot);
    assert TakenAt(t, i, p, slot);
    if holder == i {
      assert TwiceAt(t, i, p, slot);
    } else {
      assert OverlapAt(t, holder, i, p, slot, t[holder].entry.id, t[i].entry.id);
    }
  }

  lemma GapFault(t: seq<Declared>, self: Str, owner: seq<u16>, slot: nat)
    requires t != [] && Consistent(t, |t|) && ClaimedBy(t, |t|, owner) && slot < SLOTS && owner[slot] == UNASSIGNED
    requires forall k :: 0 <= k < slot ==> owner[k] != UNASSIGNED
    ensures Blames(t, self, Gap(slot))
  {
  }

  lemma AbsentFault(t: seq<Declared>, self: Str, owner: seq<u16>)
    requires t != [] && Consistent(t, |t|) && ClaimedBy(t, |t|, owner)
    requires forall slot :: 0 <= slot < SLOTS ==> owner[slot] != UNASSIGNED
    requires forall i :: 0 <= i < |t| ==> t[i].entry.id != self
    ensures Blames(t, self, SelfNotPresent(self))
  {
  }

  lemma AllWell(t: seq<Declared>, self: Str, owner: seq<u16>, me: nat)
    requires t != [] && Consistent(t, |t|) && ClaimedBy(t, |t|, owner) && me < |t| && t[me].entry.id == self
    requires forall slot :: 0 <= slot < SLOTS ==> owner[slot] != UNASSIGNED
    ensures TopologyOk(t, self)
  {
  }

  /** One node that declares every slot, and slot 5 once more: resolving it panics at slot 5. */
  lemma DoubleNamingPanics(e: NodeEntry)
    requires IsValidNodeId(e.id)
    ensures Panics([Declared(e, [Range(0, 16383), Range(5, 5)])], 5)
  {
    hide IsValidNodeId;
    var t := [Declared(e, [Range(0, 16383), Range(5, 5)])];
    var first := t[0].ranges[..1];
    assert first == [Range(0, 16383)];
    assert Covers(first[0], 5);
    assert Scanned(t, 0, 1);
    assert TakenAt(t, 0, 1, 5);
    assert TwiceAt(t, 0, 1, 5);
  }

  // ----- validity, written out -----

  /** A digit or one of the letters a to f. */
  ghost predicate IsHexDigit(b: byte) { exists c :: c in "0123456789abcdef" && b == c as int }

  /** An id is 40 hexadecimal digits in lower case. */
  lemma ValidIdMeans(id: Str)
    ensures IsValidNodeId(id) <==>
      |id| == 40 && forall i :: 0 <= i < |id| ==> IsHexDigit(id[i])
  {
    hide IsHexDigit;
    forall i | 0 <= i < |id| ensures 0x30 <= id[i] <= 0x39 || 0x61 <= id[i] <= 0x66 <==> IsHexDigit(id[i]) {
      HexDigit(id[i]);
    }
  }

  lemma HexDigits()
    ensures forall c :: c in "0123456789abcdef" <==> '0' <= c <= '9' || 'a' <= c <= 'f'
  {
    var hex := "0123456789abcdef";
    forall c | '0' <= c <= '9' ensures c in hex {
      assert hex[c as int - '0' as int] == c;
    }
    forall c | 'a' <= c <= 'f' ensures c in hex {
      assert hex[10 + c as int - 'a' as int] == c;
    }
  }

  lemma HexDigit(b: byte)
    ensures 0x30 <= b <= 0x39 || 0x61 <= b <= 0x66 <==> IsHexDigit(b)
  {
    HexDigits();
    if 0x30 <= b <= 0x39 || 0x61 <= b <= 0x66 {
      var c := b as char;
      assert c in "0123456789abcdef" && b == c as int;
    }
  }

  /** Range `p` of node `i` holds the slot. */
  ghost predicate Holds(t: seq<Declared>, i: nat, p: nat, slot: nat)
  {
    i < |t| && p < |t[i].ranges| && t[i].ranges[p].start <= slot <= t[i].ranges[p].end
  }

  /** The slot is in exactly one range of the whole topology. */
  ghost predicate HeldOnce(t: seq<Declared>, slot: nat)
  {
    exists i: nat, p: nat :: Holds(t, i, p, slot) && forall j: nat, q: nat :: Holds(t, j, q, slot) ==> j == i && q == p
  }

  /**
   A topology is valid if and only if it names this node, its ids are distinct and well formed, its ranges run
   forward inside the 16384 slots, and every slot is in exactly one range of exactly one node.
  */
  lemma TopologyOkMeans(t: seq<Declared>, self: Str)
    ensures TopologyOk(t, self) <==>
      && (exists i :: 0 <= i < |t| && t[i].entry.id == self)
      && (forall i :: 0 <= i < |t| ==> IsValidNodeId(t[i].entry.id))
      && (forall i, j :: 0 <= i < j < |t| ==> t[i].entry.id != t[j].entry.id)
      && (forall i, p :: 0 <= i < |t| && 0 <= p < |t[i].ranges| ==>
            t[i].ranges[p].start <= t[i].ranges[p].end <= 16383)
      && (forall slot :: 0 <= slot <= 16383 ==> HeldOnce(t, slot))
  {
    hide IsValidNodeId;
    if TopologyOk(t, self) {
      forall slot | 0 <= slot <= 16383 ensures HeldOnce(t, slot) {
        OkHoldsOnce(t, self, slot);
      }
    }
    if forall slot :: 0 <= slot <= 16383 ==> HeldOnce(t, slot) {
      forall slot | 0 <= slot < SLOTS ensures Named(t, |t|, slot) {
        HeldIsNamed(t, slot);
      }
      forall i, slot | 0 <= i < |t| && 0 <= slot < SLOTS ensures !NamesTwice(t[i].ranges, slot) {
        HeldIsNotTwice(t, i, slot);
      }
      forall i, j, slot | 0 <= i < j < |t| && 0 <= slot < SLOTS
        ensures !(Names(t[i].ranges, slot) && Names(t[j].ranges, slot))
      {
        HeldByOneNode(t, i, j, slot);
      }
    }
  }

  lemma OkHoldsOnce(t: seq<Declared>, self: Str, slot: nat)
    requires TopologyOk(t, self) && slot < SLOTS
    ensures HeldOnce(t, slot)
  {
    assert Named(t, |t|, slot);
    var i :| 0 <= i < |t| && Names(t[i].ranges, slot);
    var p :| 0 <= p < |t[i].ranges| && Covers(t[i].ranges[p], slot);
    assert Holds(t, i, p, slot);
    forall j: nat, q: nat | Holds(t, j, q, slot) ensures j == i && q == p {
      assert Covers(t[j].ranges[q], slot) && Names(t[j].ranges, slot);
      assert !NamesTwice(t[i].ranges, slot);
    }
  }

  lemma HeldIsNamed(t: seq<Declared>, slot: nat)
    requires HeldOnce(t, slot)
    ensures Named(t, |t|, slot)
  {
    var i: nat, p: nat :| Holds(t, i, p, slot);
    assert Covers(t[i].ranges[p], slot) && Names(t[i].ranges, slot);
  }

  lemma HeldIsNotTwice(t: seq<Declared>, i: nat, slot: nat)
    requires HeldOnce(t, slot) && i < |t|
    ensures !NamesTwice(t[i].ranges, slot)
  {
    if NamesTwice(t[i].ranges, slot) {
      var p, q :| 0 <= p < q < |t[i].ranges| && Covers(t[i].ranges[p], slot) && Covers(t[i].ranges[q], slot);
      assert Holds(t, i, p, slot) && Holds(t, i, q, slot);
    }
  }

  lemma HeldByOneNode(t: seq<Declared>, i: nat, j: nat, slot: nat)
    requires HeldOnce(t, slot) && i < j < |t|
    ensures !(Names(t[i].ranges, slot) && Names(t[j].ranges, slot))
  {
    if Names(t[i].ranges, slot) && Names(t[j].ranges, slot) {
      var p :| 0 <= p < |t[i].ranges| && Covers(t[i].ranges[p], slot);
      var q :| 0 <= q < |t[j].ranges| && Covers(t[j].ranges[q], slot);
      assert Holds(t, i, p, slot) && Holds(t, j, q, slot);
    }
  }

  /** What each error says, by example: which id, which range, which slot, and whose it was before whose. */
  lemma ErrorExamples(a: NodeEntry, b: NodeEntry, self: Str)
    requires IsValidNodeId(a.id) && IsValidNodeId(b.id) && a.id != b.id && self != a.id
    ensures Blames([], self, Empty)
    ensures Blames([Declared(a.(id := []), [])], self, BadId([]))
    ensures Blames([Declared(a, []), Declared(a, [])], self, DuplicateId(a.id))
    ensures Blames([Declared(a, [Range(5, 4)])], self, BadRange(Range(5, 4)))
    ensures Blames([Declared(a, [Range(0, 16384)])], self, BadRange(Range(0, 16384)))
    ensures Blames([Declared(a, [Range(0, 9)]), Declared(b, [Range(3, 4)])], self, Overlap(3, a.id, b.id))
    ensures Blames([Declared(a, [Range(0, 9)])], self, Gap(10))
    ensures Blames([Declared(a, [Range(0, 16383)])], self, SelfNotPresent(self))
  {
    hide *;
    NoNodes(self);
    NoId(a, self);
    SameIdTwice(a, self);
    OneBadRange(a, Range(5, 4), self);
    OneBadRange(a, Range(0, 16384), self);
    TwoOverlap(a, b, self);
    OneNode(a, 9, self);
    OneNode(a, 16383, self);
  }

  lemma NoNodes(self: Str)
    ensures Blames([], self, Empty)
  {
  }

  lemma NoId(a: NodeEntry, self: Str)
    ensures Blames([Declared(a.(id := []), [])], self, BadId([]))
  {
    var t := [Declared(a.(id := []), [])];
    assert BadIdAt(t, 0);
  }

  lemma SameIdTwice(a: NodeEntry, self: Str)
    requires IsValidNodeId(a.id)
    ensures Blames([Declared(a, []), Declared(a, [])], self, DuplicateId(a.id))
  {
    hide IsValidNodeId;
    var t := [Declared(a, []), Declared(a, [])];
    assert Consistent(t, 1);
    assert t[0].entry.id == t[1].entry.id;
    assert DuplicateAt(t, 1);
  }

  lemma OneBadRange(a: NodeEntry, r: Range, self: Str)
    requires IsValidNodeId(a.id) && !(r.start <= r.end <= 16383)
    ensures Blames([Declared(a, [r])], self, BadRange(r))
  {
    hide IsValidNodeId;
    var t := [Declared(a, [r])];
    NothingNamed(t[0].ranges);
    assert Scanned(t, 0, 0);
    assert BadRangeAt(t, 0, 0);
  }

  lemma TwoOverlap(a: NodeEntry, b: NodeEntry, self: Str)
    requires IsValidNodeId(a.id) && IsValidNodeId(b.id) && a.id != b.id
    ensures Blames([Declared(a, [Range(0, 9)]), Declared(b, [Range(3, 4)])], self, Overlap(3, a.id, b.id))
  {
    hide IsValidNodeId;
    var t := [Declared(a, [Range(0, 9)]), Declared(b, [Range(3, 4)])];
    OneRangeNames(t[0].ranges, Range(0, 9));
    NothingNamed(t[1].ranges);
    assert Consistent(t, 1);
    assert Scanned(t, 1, 0);
    assert Names(t[0].ranges, 3);
    assert TakenAt(t, 1, 0, 3);
    assert OverlapAt(t, 0, 1, 0, 3, a.id, b.id);
  }

  lemma OneRangeNames(ranges: seq<Range>, r: Range)
    requires ranges == [r] && r.start <= r.end <= 16383
    ensures RangesOk(ranges) && forall slot: nat :: Names(ranges, slot) <==> r.start <= slot <= r.end
  {
    forall slot: nat ensures Names(ranges, slot) <==> r.start <= slot <= r.end {
      assert Covers(ranges[0], slot) <==> r.start <= slot <= r.end;
    }
  }

  lemma OneNode(a: NodeEntry, end: u16, self: Str)
    requires IsValidNodeId(a.id) && self != a.id && end <= 16383
    ensures end < 16383 ==> Blames([Declared(a, [Range(0, end)])], self, Gap(end + 1))
    ensures end == 16383 ==> Blames([Declared(a, [Range(0, end)])], self, SelfNotPresent(self))
  {
    hide IsValidNodeId, Names, RangesOk;
    var t := [Declared(a, [Range(0, end)])];
    OneRangeNames(t[0].ranges, Range(0, end));
    forall slot: nat ensures Named(t, 1, slot) <==> slot <= end {
      assert Names(t[0].ranges, slot) <==> slot <= end;
    }
    assert Consistent(t, 1);
  }

  /** Ten times the four lowest letters. */
  lemma SomeIdIsValid()
    ensures IsValidNodeId([
      0x61, 0x62, 0x63, 0x64, 0x61, 0x62, 0x63, 0x64, 0x61, 0x62, 0x63, 0x64, 0x61, 0x62, 0x63, 0x64, 0x61, 0x62,
      0x63, 0x64, 0x61, 0x62, 0x63, 0x64, 0x61, 0x62, 0x63, 0x64, 0x61, 0x62, 0x63, 0x64, 0x61, 0x62, 0x63, 0x64,
      0x61, 0x62, 0x63, 0x64])
  {
  }
}
