/** The "did you mean" hint: edit distance, and the nearest known setting name. */
module EditDistance {
  import opened Core

  // ----- what the distance is: the fewest single-byte edits -----

  /** `x` and `y` differ by one insertion, deletion or replacement, after `p` and before `q`. */
  ghost predicate EditAt(x: Str, y: Str, p: Str, m: Str, n: Str, q: Str)
  {
    |m| <= 1 && |n| <= 1 && m != n && x == p + m + q && y == p + n + q
  }

  ghost predicate OneEdit(x: Str, y: Str) { exists p, m, n, q :: EditAt(x, y, p, m, n, q) }

  /** Strings one after the other, each one edit from the next. */
  ghost predicate IsPath(w: seq<Str>)
  {
    w != [] && forall i :: 0 <= i < |w| - 1 ==> OneEdit(w[i], w[i + 1])
  }

  ghost predicate Joins(w: seq<Str>, a: Str, b: Str) { IsPath(w) && w[0] == a && w[|w| - 1] == b }

  // ----- the recurrence -----

  function Min(x: nat, y: nat): nat { if x <= y then x else y }

  function Front(s: Str): Str
    requires s != []
  {
    s[..|s| - 1]
  }

  function Last(s: Str): byte
    requires s != []
  {
    s[|s| - 1]
  }

  function Distance(a: Str, b: Str): nat
    decreases |a| + |b|
  {
    if a == [] then |b|
    else if b == [] then |a|
    else
      Min(Min(Distance(Front(a), b) + 1, Distance(a, Front(b)) + 1),
          Distance(Front(a), Front(b)) + if Last(a) != Last(b) then 1 else 0)
  }

  // ----- no path is shorter -----

  /** One step of the recurrence never undercuts its neighbours by more than one. */
  lemma Neighbours(p: Str, c: byte, b: Str)
    ensures Distance(p + [c], b) <= Distance(p, b) + 1
    ensures b != [] ==> Distance(p, b) <= Distance(p, Front(b)) + 1
  {
  }

  lemma {:induction false} ShorterIsNear(p: Str, c: byte, b: Str)
    ensures Distance(p, b) <= Distance(p + [c], b) + 1
    decreases |b|
  {
    assert Front(p + [c]) == p;
    if b != [] {
      Neighbours(p, c, b);
      ShorterIsNear(p, c, Front(b));
    }
  }

  lemma {:induction false} ReplacedIsNear(p: Str, c: byte, d: byte, b: Str)
    ensures Distance(p + [c], b) <= Distance(p + [d], b) + 1
    decreases |b|
  {
    assert Front(p + [c]) == p && Front(p + [d]) == p;
    if b != [] {
      Neighbours(p, c, b);
      ReplacedIsNear(p, c, d, Front(b));
    }
  }

  /** Editing one byte anywhere moves the distance by at most one. */
  lemma {:induction false} EditMovesByOne(p: Str, m: Str, n: Str, q: Str, b: Str)
    requires |m| <= 1 && |n| <= 1
    ensures Distance(p + m + q, b) <= Distance(p + n + q, b) + 1
    decreases |q| + |b|
  {
    if q == [] {
      assert p + m + q == p + m && p + n + q == p + n;
      EndMovesByOne(p, m, n, b);
    } else if b != [] {
      assert Front(p + m + q) == p + m + Front(q) && Front(p + n + q) == p + n + Front(q);
      EditMovesByOne(p, m, n, Front(q), b);
      EditMovesByOne(p, m, n, q, Front(b));
      EditMovesByOne(p, m, n, Front(q), Front(b));
    }
  }

  lemma EndMovesByOne(p: Str, m: Str, n: Str, b: Str)
    requires |m| <= 1 && |n| <= 1
    ensures Distance(p + m, b) <= Distance(p + n, b) + 1
  {
    hide Distance;
    if m == [] {
      assert p + m == p;
      if n == [] {
        assert p + n == p;
      } else {
        assert n == [n[0]];
        ShorterIsNear(p, n[0], b);
      }
    } else {
      assert m == [m[0]];
      if n == [] {
        assert p + n == p;
        Neighbours(p, m[0], b);
      } else {
        assert n == [n[0]];
        ReplacedIsNear(p, m[0], n[0], b);
      }
    }
  }

  lemma {:induction false} SelfDistance(a: Str)
    ensures Distance(a, a) == 0
    decreases |a|
  {
    if a != [] {
      SelfDistance(Front(a));
    }
  }

  lemma {:induction false} PathIsLong(w: seq<Str>)
    requires IsPath(w)
    ensures Distance(w[0], w[|w| - 1]) <= |w| - 1
    decreases |w|
  {
    hide Distance;
    if |w| == 1 {
      SelfDistance(w[0]);
    } else {
      var b := w[|w| - 1];
      forall i | 0 <= i < |w[1..]| - 1 ensures OneEdit(w[1..][i], w[1..][i + 1]) {
        assert OneEdit(w[i + 1], w[i + 1 + 1]);
      }
      PathIsLong(w[1..]);
      assert OneEdit(w[0], w[0 + 1]);
      var p, m, n, q :| EditAt(w[0], w[1], p, m, n, q);
      EditMovesByOne(p, m, n, q, b);
    }
  }

  // ----- one path is that short -----

  lemma EditedAtEnd(x: Str, c: byte)
    ensures OneEdit(x + [c], x) && OneEdit(x, x + [c])
  {
    assert EditAt(x + [c], x, x, [c], [], []);
    assert EditAt(x, x + [c], x, [], [c], []);
  }

  lemma ReplacedAtEnd(x: Str, c: byte, d: byte)
    requires c != d
    ensures OneEdit(x + [c], x + [d])
  {
    assert EditAt(x + [c], x + [d], x, [c], [d], []);
  }

  lemma EditBefore(x: Str, y: Str, z: byte)
    requires OneEdit(x, y)
    ensures OneEdit(x + [z], y + [z])
  {
    var p, m, n, q :| EditAt(x, y, p, m, n, q);
    assert EditAt(x + [z], y + [z], p, m, n, q + [z]);
  }

  lemma StepFirst(a: Str, w: seq<Str>)
    requires IsPath(w) && OneEdit(a, w[0])
    ensures IsPath([a] + w)
  {
  }

  lemma StepLast(w: seq<Str>, b: Str)
    requires IsPath(w) && OneEdit(w[|w| - 1], b)
    ensures IsPath(w + [b])
  {
  }

  /** The same edits with one byte kept behind them. */
  lemma KeptLast(w: seq<Str>, z: byte) returns (v: seq<Str>)
    requires IsPath(w)
    ensures IsPath(v) && |v| == |w| && v[0] == w[0] + [z] && v[|v| - 1] == w[|w| - 1] + [z]
  {
    v := seq(|w|, i requires 0 <= i < |w| => w[i] + [z]);
    forall i | 0 <= i < |v| - 1 ensures OneEdit(v[i], v[i + 1]) {
      EditBefore(w[i], w[i + 1], z);
    }
  }

  lemma {:induction false} ShortPath(a: Str, b: Str) returns (w: seq<Str>)
    ensures Joins(w, a, b) && |w| == Distance(a, b) + 1
    decreases |a| + |b|
  {
    hide OneEdit, IsPath;
    if a == [] && b == [] {
      w := [a];
      Alone(a);
    } else if a != [] && (b == [] || Distance(a, b) == Distance(Front(a), b) + 1) {
      w := ShortPath(Front(a), b);
      Rejoined(a);
      EditedAtEnd(Front(a), Last(a));
      StepFirst(a, w);
      w := [a] + w;
    } else if b != [] && (a == [] || Distance(a, b) == Distance(a, Front(b)) + 1) {
      w := ShortPath(a, Front(b));
      Rejoined(b);
      EditedAtEnd(Front(b), Last(b));
      StepLast(w, b);
      w := w + [b];
    } else {
      w := ShortPath(Front(a), Front(b));
      w := KeptLast(w, Last(a));
      Rejoined(a);
      Rejoined(b);
      if Last(a) != Last(b) {
        ReplacedAtEnd(Front(b), Last(a), Last(b));
        StepLast(w, b);
        w := w + [b];
      }
    }
  }

  lemma Alone(a: Str)
    ensures IsPath([a])
  {
  }

  lemma Rejoined(a: Str)
    requires a != []
    ensures a == Front(a) + [Last(a)]
  {
  }

  // ----- what follows -----

  /** The recurrence is the fewest edits: some path takes that many and none takes fewer. */
  lemma DistanceIsFewestEdits(a: Str, b: Str)
    ensures exists w :: Joins(w, a, b) && |w| == Distance(a, b) + 1
    ensures forall w :: Joins(w, a, b) ==> Distance(a, b) <= |w| - 1
  {
    hide Distance, OneEdit;
    var w := ShortPath(a, b);
    forall w | Joins(w, a, b) ensures Distance(a, b) <= |w| - 1 {
      PathIsLong(w);
    }
  }

  lemma {:induction false} Symmetric(a: Str, b: Str)
    ensures Distance(a, b) == Distance(b, a)
    decreases |a| + |b|
  {
    if a != [] && b != [] {
      Symmetric(Front(a), b);
      Symmetric(a, Front(b));
      Symmetric(Front(a), Front(b));
    }
  }

  lemma Triangle(a: Str, b: Str, c: Str)
    ensures Distance(a, c) <= Distance(a, b) + Distance(b, c)
  {
    hide Distance, OneEdit;
    var w := ShortPath(a, b);
    var v := ShortPath(b, c);
    var u := w + v[1..];
    forall i | 0 <= i < |u| - 1 ensures OneEdit(u[i], u[i + 1]) {
      if i < |w| - 1 {
        assert OneEdit(w[i], w[i + 1]);
      } else {
        var k := i - (|w| - 1);
        assert OneEdit(v[k], v[k + 1]);
      }
    }
    PathIsLong(u);
  }

  // ----- the two-row program -----

  method Levenshtein(a: Str, b: Str) returns (d: nat)
    ensures d == Distance(a, b)
  {
    hide Min;
    var prev := new nat[|b| + 1];
    for j := 0 to |b| + 1
      invariant forall k :: 0 <= k < j ==> prev[k] == k
    {
      prev[j] := j;
    }
    var cur := new nat[|b| + 1](_ => 0);
    FirstRow(a, b);
    for i := 0 to |a|
      invariant prev != cur && fresh(prev) && fresh(cur) && prev.Length == cur.Length == |b| + 1
      invariant forall k :: 0 <= k <= |b| ==> prev[k] == Distance(a[..i], b[..k])
    {
      cur[0] := i + 1;
      FirstCell(a, b, i);
      for j := 0 to |b|
        invariant forall k :: 0 <= k <= |b| ==> prev[k] == Distance(a[..i], b[..k])
        invariant forall k :: 0 <= k <= j ==> cur[k] == Distance(a[..i + 1], b[..k])
      {
        var cost := if a[i] != b[j] then 1 else 0;
        NextCell(a, b, i, j);
        cur[j + 1] := Min(Min(prev[j + 1] + 1, cur[j] + 1), prev[j] + cost);
      }
      prev, cur := cur, prev;
    }
    assert a[..|a|] == a && b[..|b|] == b;
    d := prev[|b|];
  }

  lemma FirstRow(a: Str, b: Str)
    ensures forall k :: 0 <= k <= |b| ==> Distance(a[..0], b[..k]) == k
  {
  }

  lemma FirstCell(a: Str, b: Str, i: nat)
    requires i < |a|
    ensures Distance(a[..i + 1], b[..0]) == i + 1
  {
  }

  lemma NextCell(a: Str, b: Str, i: nat, j: nat)
    requires i < |a| && j < |b|
    ensures Distance(a[..i + 1], b[..j + 1]) ==
            Min(Min(Distance(a[..i], b[..j + 1]) + 1, Distance(a[..i + 1], b[..j]) + 1),
                Distance(a[..i], b[..j]) + if a[i] != b[j] then 1 else 0)
  {
    hide Distance;
    var x, y := a[..i + 1], b[..j + 1];
    assert Front(x) == a[..i] && Front(y) == b[..j] && Last(x) == a[i] && Last(y) == b[j];
    Recurrence(x, y);
  }

  lemma Recurrence(x: Str, y: Str)
    requires x != [] && y != []
    ensures Distance(x, y) ==
            Min(Min(Distance(Front(x), y) + 1, Distance(x, Front(y)) + 1),
                Distance(Front(x), Front(y)) + if Last(x) != Last(y) then 1 else 0)
  {
    hide Min, Front, Last;
  }

  // ----- the suggestion -----

  ghost predicate Plausible(key: Str, name: Str) { Distance(key, name) <= 3 && Distance(key, name) < |key| }

  /** `i` is the first of the names nearest to `key`. */
  ghost predicate FirstNearest(key: Str, known: seq<Str>, i: nat)
  {
    && i < |known|
    && (forall j :: 0 <= j < |known| ==> Distance(key, known[i]) <= Distance(key, known[j]))
    && (forall j :: 0 <= j < i ==> Distance(key, known[i]) < Distance(key, known[j]))
  }

  /** The suggestion is the first nearest name, given exactly when some name is plausible at all. */
  method NearestEnvKey(key: Str, known: seq<Str>) returns (r: Option<Str>)
    ensures r.Some? <==> exists i :: 0 <= i < |known| && Plausible(key, known[i])
    ensures r.Some? ==> exists i: nat :: FirstNearest(key, known, i) && r.value == known[i] && Plausible(key, known[i])
    ensures r.Some? ==> Distance(key, r.value) <= 3 && Distance(key, r.value) < |key|
    ensures r.None? ==> forall i :: 0 <= i < |known| ==>
      Distance(key, known[i]) > 3 || Distance(key, known[i]) >= |key|
  {
    hide Distance;
    var best: Option<(Str, nat)> := None;
    ghost var at := 0;
    for i := 0 to |known|
      invariant best.None? <==> i == 0
      invariant best.Some? ==> at < i && best.value == (known[at], Distance(key, known[at]))
      invariant best.Some? ==> FirstNearest(key, known[..i], at)
    {
      var d := Levenshtein(key, known[i]);
      if best.None? || d < best.value.1 {
        best := Some((known[i], d));
        at := i;
      }
    }
    assert known[..|known|] == known;
    if best.None? || best.value.1 > 3 || best.value.1 >= |key| {
      return None;
    }
    assert Plausible(key, known[at]);
    r := Some(best.value.0);
  }
}
