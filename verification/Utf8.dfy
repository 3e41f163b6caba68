/** UTF-8 validity and the lossy conversion, as `String::from_utf8` and `String::from_utf8_lossy` decide them. */
module Utf8 {
  import opened Core

  /** The length a leading byte announces (section 4 of RFC 3629), 0 for a byte that cannot lead. */
  function Announced(b: byte): nat
  {
    if b < 0x80 then 1
    else if 0xC2 <= b <= 0xDF then 2
    else if 0xE0 <= b <= 0xEF then 3
    else if 0xF0 <= b <= 0xF4 then 4
    else 0
  }

  predicate Continues(b: byte) { 0x80 <= b <= 0xBF }

  /** The second byte is restricted after E0, ED, F0 and F4 (no overlong forms, no surrogates, no overflow). */
  predicate SecondOk(first: byte, second: byte)
  {
    (if first == 0xE0 then 0xA0 else if first == 0xF0 then 0x90 else 0x80) <= second <=
    (if first == 0xED then 0x9F else if first == 0xF4 then 0x8F else 0xBF)
  }

  datatype Scan = Scan(ok: bool, len: nat)

  /** One step over a non-empty string: a whole character, or the longest prefix of one that went wrong. */
  function Step(s: Str): (r: Scan)
    requires s != []
    ensures 1 <= r.len <= |s|
  {
    var n := Announced(s[0]);
    if n == 0 then Scan(false, 1)
    else if n == 1 then Scan(true, 1)
    else if |s| < 2 || !SecondOk(s[0], s[1]) then Scan(false, 1)
    else if n == 2 then Scan(true, 2)
    else if |s| < 3 || !Continues(s[2]) then Scan(false, 2)
    else if n == 3 then Scan(true, 3)
    else if |s| < 4 || !Continues(s[3]) then Scan(false, 3)
    else Scan(true, 4)
  }

  predicate IsUtf8(s: Str)
    decreases |s|
  {
    s == [] || (Step(s).ok && IsUtf8(s[Step(s).len..]))
  }

  /** U+FFFD, the replacement character. */
  const REPLACEMENT: Str := [0xEF, 0xBF, 0xBD]

  function Lossy(s: Str): Str
    decreases |s|
  {
    if s == [] then []
    else (if Step(s).ok then s[..Step(s).len] else REPLACEMENT) + Lossy(s[Step(s).len..])
  }

  /** The lossy conversion leaves valid text alone. */
  lemma {:induction false} LossyKeepsValid(s: Str)
    requires IsUtf8(s)
    ensures Lossy(s) == s
    decreases |s|
  {
    if s != [] {
      LossyKeepsValid(s[Step(s).len..]);
      assert s == s[..Step(s).len] + s[Step(s).len..];
    }
  }

  /** And it turns any bytes at all into valid text. */
  lemma {:induction false} LossyIsValid(s: Str)
    ensures IsUtf8(Lossy(s))
    decreases |s|
  {
    if s != [] {
      var n := Step(s).len;
      var head := if Step(s).ok then s[..n] else REPLACEMENT;
      LossyIsValid(s[n..]);
      assert Step(head + Lossy(s[n..])) == Scan(true, |head|);
      assert (head + Lossy(s[n..]))[|head|..] == Lossy(s[n..]);
    }
  }

  // ----- against the definition (section 3 of RFC 3629) -----

  /** A Unicode scalar value: any code point but the surrogates. */
  predicate IsScalar(c: nat) { c < 0x11_0000 && !(0xD800 <= c <= 0xDFFF) }

  /** The bits of a code point spread over one to four bytes, six to a continuation byte. */
  function Encoding(c: nat): (r: Str)
    requires IsScalar(c)
    ensures 1 <= |r| <= 4
  {
    if c < 0x80 then [c]
    else if c < 0x800 then [0xC0 + c / 0x40, 0x80 + c % 0x40]
    else if c < 0x1_0000 then [0xE0 + c / 0x1000, 0x80 + c / 0x40 % 0x40, 0x80 + c % 0x40]
    else [0xF0 + c / 0x4_0000, 0x80 + c / 0x1000 % 0x40, 0x80 + c / 0x40 % 0x40, 0x80 + c % 0x40]
  }

  /** Every character is read as one, whatever follows it. */
  lemma StepReadsCharacter(c: nat, s: Str)
    requires IsScalar(c) && Encoding(c) <= s
    ensures Step(s) == Scan(true, |Encoding(c)|)
  {
    var e := Encoding(c);
    assert forall i :: 0 <= i < |e| ==> s[i] == e[i];
  }

  lemma TwoBytes(a: nat, b: nat) returns (c: nat)
    requires 0xC2 <= a <= 0xDF && 0x80 <= b <= 0xBF
    ensures IsScalar(c) && Encoding(c) == [a, b]
  {
    c := (a - 0xC0) * 0x40 + (b - 0x80);
    assert c / 0x40 == a - 0xC0;
  }

  lemma ThreeBytes(a: nat, b: nat, d: nat) returns (c: nat)
    requires 0xE0 <= a <= 0xEF && 0x80 <= b <= 0xBF && SecondOk(a, b) && 0x80 <= d <= 0xBF
    ensures IsScalar(c) && Encoding(c) == [a, b, d]
  {
    var high := (a - 0xE0) * 0x40 + (b - 0x80);
    c := high * 0x40 + (d - 0x80);
    assert c / 0x40 == high && high / 0x40 == a - 0xE0;
    assert c / 0x1000 == high / 0x40;
  }

  lemma FourBytes(a: nat, b: nat, d: nat, e: nat) returns (c: nat)
    requires 0xF0 <= a <= 0xF4 && 0x80 <= b <= 0xBF && SecondOk(a, b) && 0x80 <= d <= 0xBF && 0x80 <= e <= 0xBF
    ensures IsScalar(c) && Encoding(c) == [a, b, d, e]
  {
    var high := (a - 0xF0) * 0x40 + (b - 0x80);
    var mid := high * 0x40 + (d - 0x80);
    c := mid * 0x40 + (e - 0x80);
    assert c / 0x40 == mid && mid / 0x40 == high && high / 0x40 == a - 0xF0;
    assert c / 0x1000 == mid / 0x40 && c / 0x4_0000 == high / 0x40;
  }

  /** And whatever is read as a character is one. */
  lemma StepIsCharacter(s: Str) returns (c: nat)
    requires s != [] && Step(s).ok
    ensures IsScalar(c) && Encoding(c) == s[..Step(s).len]
  {
    hide Encoding;
    var n := Step(s).len;
    if n == 1 {
      c := s[0];
      OneByte(c);
      assert s[..1] == [c];
    } else if n == 2 {
      c := TwoBytes(s[0], s[1]);
      assert s[..2] == [s[0], s[1]];
    } else if n == 3 {
      c := ThreeBytes(s[0], s[1], s[2]);
      assert s[..3] == [s[0], s[1], s[2]];
    } else {
      c := FourBytes(s[0], s[1], s[2], s[3]);
      assert s[..4] == [s[0], s[1], s[2], s[3]];
    }
  }

  lemma OneByte(c: nat)
    requires c < 0x80
    ensures Encoding(c) == [c]
  {
  }

  ghost predicate AllScalars(cs: seq<nat>) { forall i :: 0 <= i < |cs| ==> IsScalar(cs[i]) }

  /** Characters one after the other. */
  ghost function Text(cs: seq<nat>): Str
    requires AllScalars(cs)
  {
    if cs == [] then [] else Encoding(cs[0]) + Text(cs[1..])
  }

  ghost predicate Spells(cs: seq<nat>, s: Str) { AllScalars(cs) && Text(cs) == s }

  /** A byte string is valid if and only if it is the encoding of some sequence of scalar values. */
  lemma Utf8Means(s: Str)
    ensures IsUtf8(s) <==> exists cs :: Spells(cs, s)
  {
    if IsUtf8(s) {
      var cs := Characters(s);
      assert Spells(cs, s);
    }
    if cs :| Spells(cs, s) {
      TextIsUtf8(cs);
    }
  }

  lemma {:induction false} Characters(s: Str) returns (cs: seq<nat>)
    requires IsUtf8(s)
    ensures Spells(cs, s)
    decreases |s|
  {
    hide Encoding, Step;
    if s == [] {
      cs := [];
    } else {
      var n := Step(s).len;
      var c := StepIsCharacter(s);
      var rest := Characters(s[n..]);
      cs := [c] + rest;
      assert cs[1..] == rest && s == s[..n] + s[n..];
    }
  }

  lemma {:induction false} TextIsUtf8(cs: seq<nat>)
    requires AllScalars(cs)
    ensures IsUtf8(Text(cs))
  {
    hide Encoding, Step;
    if cs != [] {
      TextIsUtf8(cs[1..]);
      var e, s := Encoding(cs[0]), Text(cs);
      assert e <= s;
      StepReadsCharacter(cs[0], s);
      assert s[|e|..] == Text(cs[1..]);
    }
  }

  ghost predicate Begins(p: Str, c: nat) { IsScalar(c) && p <= Encoding(c) }

  ghost predicate BeginsNone(p: Str) { forall c: nat :: !Begins(p, c) }

  /**
   Where no character stands, the step covers the longest beginning of one, and at least a byte: what is covered
   begins some character unless it is a single byte, and one byte more begins none.
  */
  lemma StepIsMaximal(s: Str)
    requires s != [] && !Step(s).ok
    ensures var n := Step(s).len;
      && (n == 1 || !BeginsNone(s[..n]))
      && (n < |s| ==> BeginsNone(s[..n + 1]))
  {
    var n := Step(s).len;
    if n > 1 {
      var c := Completion(s);
      assert Begins(s[..n], c);
    }
    if n < |s| {
      var p := s[..n + 1];
      forall c: nat | IsScalar(c) ensures !Begins(p, c) {
        NotABeginning(s, c);
      }
    }
  }

  /** A character that begins with the two or three bytes of a broken one. */
  lemma Completion(s: Str) returns (c: nat)
    requires s != [] && !Step(s).ok && Step(s).len > 1
    ensures IsScalar(c) && s[..Step(s).len] <= Encoding(c)
  {
    var n := Step(s).len;
    var whole := s[..n] + if Announced(s[0]) - n == 1 then [0x80] else [0x80, 0x80];
    assert Step(whole) == Scan(true, |whole|);
    c := StepIsCharacter(whole);
    assert whole[..|whole|] == whole;
  }

  lemma NotABeginning(s: Str, c: nat)
    requires s != [] && !Step(s).ok && Step(s).len < |s| && IsScalar(c)
    ensures !(s[..Step(s).len + 1] <= Encoding(c))
  {
    var n, e := Step(s).len, Encoding(c);
    if s[..n + 1] <= e {
      assert forall i :: 0 <= i <= n ==> s[i] == e[i];
      StepReadsCharacter(c, e);
    }
  }

  /** A character cut short, a lead byte before something else, and a byte that leads nothing. */
  lemma LossyExamples()
    ensures Lossy([0xE2, 0x82]) == [0xEF, 0xBF, 0xBD]
    ensures Lossy([0xE2, 0x28]) == [0xEF, 0xBF, 0xBD, 0x28]
    ensures Lossy([0xFF, 0x28]) == [0xEF, 0xBF, 0xBD, 0x28]
  {
    assert Lossy([]) == [];
    assert [0xE2, 0x82][2..] == [] && [0x28][1..] == [];
    assert [0xE2, 0x28][1..] == [0x28] && [0xFF, 0x28][1..] == [0x28];
    assert Lossy([0x28]) == [0x28];
  }
}
