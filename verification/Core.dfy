/** Shared vocabulary: machine-width integers, optional values, byte strings and their order. */
module Core {

  type byte = x: nat | x < 0x100
  type u16 = x: nat | x < 0x1_0000

  /** One past the largest `u64`. */
  const U64_LIMIT: nat := 0x1_0000_0000_0000_0000

  /** A Rust `str`, as the bytes of its UTF-8 encoding (what equality, order and length look at). */
  type Str = seq<byte>

  datatype Option<+T> = None | Some(value: T)

  /** Byte-wise lexicographic order, the order of `str::cmp`. */
  predicate Less(a: Str, b: Str)
  {
    b != [] && (a == [] || a[0] < b[0] || (a[0] == b[0] && Less(a[1..], b[1..])))
  }

  lemma {:induction false} LessTotal(a: Str, b: Str)
    ensures a == b || Less(a, b) || Less(b, a)
  {
    if a != [] && b != [] && a[0] == b[0] {
      LessTotal(a[1..], b[1..]);
      assert a == [a[0]] + a[1..] && b == [b[0]] + b[1..];
    }
  }

  lemma {:induction false} LessTransitive(a: Str, b: Str, c: Str)
    requires Less(a, b) && Less(b, c)
    ensures Less(a, c)
  {
    if a != [] && a[0] == b[0] == c[0] {
      LessTransitive(a[1..], b[1..], c[1..]);
    }
  }

  lemma {:induction false} LessIrreflexive(a: Str)
    ensures !Less(a, a)
  {
    if a != [] {
      LessIrreflexive(a[1..]);
    }
  }

  ghost predicate Ascending(s: seq<Str>)
  {
    forall i, j :: 0 <= i < j < |s| ==> Less(s[i], s[j])
  }

  /** Two ascending lists of the same strings are the same list: the canonical order is unique. */
  lemma {:induction false} AscendingUnique(a: seq<Str>, b: seq<Str>)
    requires Ascending(a) && Ascending(b)
    requires forall x :: x in a <==> x in b
    ensures a == b
  {
    if a == [] || b == [] {
      var x := if a != [] then a[0] else if b != [] then b[0] else [];
      assert x in a <==> x in b;
    } else {
      assert a[0] in b && b != [];
      assert b[0] in a;
      HeadsAgree(a, b);
      forall x ensures x in a[1..] <==> x in b[1..] {
        LessIrreflexive(a[0]);
        assert x in a[1..] ==> x in a && x != a[0];
        assert x in b[1..] ==> x in b && x != a[0];
        assert x in a && x != a[0] ==> x in a[1..];
        assert x in b && x != b[0] ==> x in b[1..];
      }
      AscendingUnique(a[1..], b[1..]);
      assert a == [a[0]] + a[1..] && b == [b[0]] + b[1..];
    }
  }

  lemma HeadsAgree(a: seq<Str>, b: seq<Str>)
    requires Ascending(a) && Ascending(b) && a != [] && b != []
    requires a[0] in b && b[0] in a
    ensures a[0] == b[0]
  {
    var i :| 0 <= i < |b| && b[i] == a[0];
    var j :| 0 <= j < |a| && a[j] == b[0];
    if i > 0 && j > 0 {
      LessTransitive(b[0], b[i], a[j]);
      LessIrreflexive(b[0]);
    }
  }

  /** A list without its `x`-th element. */
  function Drop<T>(s: seq<T>, x: nat): (r: seq<T>)
    requires x < |s|
    ensures |r| == |s| - 1
    ensures forall i :: 0 <= i < |r| ==> r[i] == if i < x then s[i] else s[i + 1]
  {
    s[..x] + s[x + 1..]
  }
}
