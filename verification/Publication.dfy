/**
 What a lock-free reader of the ownership bitmap can see while a mutator is at work.

 `owns(slot)` loads `mine[slot]` and takes no lock, so it may run between any two stores of a mutator.
*/
module Publication {
  import opened SlotTypes

  /** One store into the bitmap. */
  datatype Write = Write(slot: nat, value: bool)

  /** The bits after some stores; all clear at first. */
  function BitsAfter(w: seq<Write>): (r: seq<bool>)
    ensures |r| == SLOTS
  {
    if w == [] then seq(SLOTS, _ => false)
    else
      var before := BitsAfter(w[..|w| - 1]);
      var last := w[|w| - 1];
      if last.slot < SLOTS then before[last.slot := last.value] else before
  }

  /**
   The bitmap. Its only state is the list of stores made so far, so a store that a mutator makes and
   takes back is in the state for good.
  */
  class Bitmap {
    var history: seq<Write>

    function Bits(): (r: seq<bool>)
      reads this
      ensures |r| == SLOTS
    {
      BitsAfter(history)
    }

    constructor ()
      ensures history == [] && forall k :: 0 <= k < SLOTS ==> !Bits()[k]
    {
      history := [];
    }

    method Store(slot: nat, value: bool)
      requires slot < SLOTS
      modifies this
      ensures history == old(history) + [Write(slot, value)]
      ensures Bits() == old(Bits())[slot := value]
    {
      history := history + [Write(slot, value)];
      assert history[..|history| - 1] == old(history);
    }
  }

  /** No slot is stored to twice. */
  ghost predicate OncePerSlot(w: seq<Write>)
  {
    forall i, j :: 0 <= i < j < |w| ==> w[i].slot != w[j].slot
  }

  /** What one mutator may do to the bitmap: add stores that hit no slot twice. */
  ghost predicate Published(before: seq<Write>, after: seq<Write>)
  {
    before <= after && OncePerSlot(after[|before|..])
  }

  /** Stores that may repeat a slot, but never with another value. */
  ghost predicate OneValuePerSlot(w: seq<Write>)
  {
    forall i, j :: 0 <= i < j < |w| && w[i].slot == w[j].slot ==> w[i].value == w[j].value
  }

  /** What a whole command, several mutators in a row, may do to the bitmap. */
  ghost predicate Switched(before: seq<Write>, after: seq<Write>)
  {
    before <= after && OneValuePerSlot(after[|before|..])
  }

  lemma OnceSwitches(before: seq<Write>, after: seq<Write>)
    requires Published(before, after)
    ensures Switched(before, after)
  {
  }

  /** Stores that agree with `value` from `t` on leave a slot that already has it alone. */
  lemma {:induction false} Settled(w: seq<Write>, slot: nat, t: nat, value: bool)
    requires slot < SLOTS && t <= |w| && BitsAfter(w[..t])[slot] == value
    requires forall i :: t <= i < |w| && w[i].slot == slot ==> w[i].value == value
    ensures BitsAfter(w)[slot] == value
    decreases |w|
  {
    if t < |w| {
      var init := w[..|w| - 1];
      assert init[..t] == w[..t];
      Settled(init, slot, t, value);
    } else {
      assert w[..t] == w;
    }
  }

  /** After a store into a slot, the slot has that value. */
  lemma JustStored(w: seq<Write>, t: nat)
    requires t < |w| && w[t].slot < SLOTS
    ensures BitsAfter(w[..t + 1])[w[t].slot] == w[t].value
  {
    assert w[..t + 1][..t] == w[..t];
  }

  /**
   A reader never sees a torn bitmap: for each slot there is one instant `t` such that every read up
   to it returns the value before the command and every read after it the value after. So a slot
   that has the same value before and after never dips, and a changing slot switches once.
  */
  lemma ReadsSwitchOnce(before: seq<Write>, after: seq<Write>, slot: nat) returns (t: nat)
    requires Switched(before, after) && slot < SLOTS
    ensures |before| <= t <= |after|
    ensures forall k :: |before| <= k <= |after| ==>
      BitsAfter(after[..k])[slot] == if k <= t then BitsAfter(before)[slot] else BitsAfter(after)[slot]
  {
    hide BitsAfter;
    var n := |before|;
    assert after[..n] == before;
    t := n;
    while t < |after| && after[t].slot != slot
      invariant n <= t <= |after| && forall j :: n <= j < t ==> after[j].slot != slot
    {
      t := t + 1;
    }
    if t < |after| {
      JustStored(after, t);
      SameValueAfter(before, after, slot, t);
      Settled(after, slot, t + 1, after[t].value);
    }
    forall k | n <= k <= |after|
      ensures BitsAfter(after[..k])[slot] == if k <= t then BitsAfter(before)[slot] else BitsAfter(after)[slot]
    {
      if k <= t {
        assert after[..k][..n] == before;
        Settled(after[..k], slot, n, BitsAfter(before)[slot]);
      } else {
        assert after[..k][..t + 1] == after[..t + 1];
        Settled(after[..k], slot, t + 1, after[t].value);
      }
    }
  }

  lemma SameValueAfter(before: seq<Write>, after: seq<Write>, slot: nat, t: nat)
    requires Switched(before, after) && |before| <= t < |after| && after[t].slot == slot
    ensures forall i :: t <= i < |after| && after[i].slot == slot ==> after[i].value == after[t].value
  {
    var w := after[|before|..];
    forall i | t < i < |after| && after[i].slot == slot ensures after[i].value == after[t].value {
      assert w[i - |before|] == after[i] && w[t - |before|] == after[t];
    }
  }

  /** Stores that all carry one value. */
  ghost predicate AllStore(before: seq<Write>, after: seq<Write>, value: bool)
  {
    before <= after && forall i :: |before| <= i < |after| ==> after[i].value == value
  }

  lemma AllStoreSwitches(before: seq<Write>, after: seq<Write>, value: bool)
    requires AllStore(before, after, value)
    ensures Switched(before, after)
  {
  }

  // ----- how a mutator builds up its stores -----

  lemma NoStores(h: seq<Write>)
    ensures Published(h, h)
  {
  }

  lemma OneMore(before: seq<Write>, mid: seq<Write>, w: Write)
    requires Published(before, mid) && forall i :: |before| <= i < |mid| ==> mid[i].slot != w.slot
    ensures Published(before, mid + [w])
  {
    var n := |before|;
    var more := (mid + [w])[n..];
    forall i, j | 0 <= i < j < |more| ensures more[i].slot != more[j].slot {
      assert more[i] == mid[n + i] == mid[n..][i];
      assert j < |more| - 1 ==> more[j] == mid[n + j] == mid[n..][j];
    }
  }
}
