/** The wire form of the Redis serialization protocol as the two clients use it: lines, numbers and command frames. */
module RespWire {
  import opened Core

  const CR: byte := 0x0D
  const LF: byte := 0x0A
  const PLUS: byte := 0x2B
  const MINUS: byte := 0x2D
  const COLON: byte := 0x3A
  const DOLLAR: byte := 0x24
  const STAR: byte := 0x2A
  const CRLF: seq<byte> := [CR, LF]

  /** One past the largest `i64`. */
  const I64_LIMIT: int := 0x8000_0000_0000_0000

  // ----- what arrives in pieces -----

  /** The bytes of successive socket reads, put back together. */
  ghost function Joined(chunks: seq<seq<byte>>): seq<byte>
  {
    if chunks == [] then [] else chunks[0] + Joined(chunks[1..])
  }

  lemma NothingJoined()
    ensures Joined([]) == []
  {
  }

  lemma JoinedFirst(chunks: seq<seq<byte>>)
    requires chunks != []
    ensures Joined(chunks) == chunks[0] + Joined(chunks[1..])
  {
  }

  // ----- lines -----

  ghost predicate CrlfAt(s: seq<byte>, i: nat) { i + 1 < |s| && s[i] == CR && s[i + 1] == LF }

  /** The index of the first CR LF, if the line is complete. */
  ghost function FindCrlf(s: seq<byte>): (r: Option<nat>)
    ensures r.Some? ==> CrlfAt(s, r.value) && forall i :: 0 <= i < r.value ==> !CrlfAt(s, i)
    ensures r.None? ==> forall i :: 0 <= i < |s| ==> !CrlfAt(s, i)
  {
    if |s| < 2 then None
    else if s[0] == CR && s[1] == LF then Some(0)
    else
      var r := FindCrlf(s[1..]);
      assert forall i :: 1 <= i < |s| ==> (CrlfAt(s, i) <==> CrlfAt(s[1..], i - 1));
      if r.Some? then Some(r.value + 1) else None
  }

  /** What pins the first CR LF down. */
  lemma FindCrlfIs(s: seq<byte>, k: nat)
    requires CrlfAt(s, k) && forall i :: 0 <= i < k ==> !CrlfAt(s, i)
    ensures FindCrlf(s) == Some(k)
  {
  }

  /** A complete line stays the same line when more bytes arrive. */
  lemma FindCrlfStable(s: seq<byte>, more: seq<byte>)
    requires FindCrlf(s).Some?
    ensures FindCrlf(s + more) == FindCrlf(s)
  {
    hide FindCrlf;
    var k := FindCrlf(s).value;
    forall i | 0 <= i < k ensures !CrlfAt(s + more, i) {
      assert !CrlfAt(s, i);
    }
    FindCrlfIs(s + more, k);
  }

  /** Scan forward from `pos` for a CR LF. */
  method ScanCrlf(buf: seq<byte>, pos: nat) returns (r: Option<nat>)
    requires pos <= |buf|
    ensures FindCrlf(buf[pos..]).None? ==> r.None?
    ensures FindCrlf(buf[pos..]).Some? ==> r == Some(pos + FindCrlf(buf[pos..]).value)
  {
    hide FindCrlf;
    var i := pos;
    while i + 1 < |buf|
      invariant pos <= i
      invariant forall j :: 0 <= j < i - pos ==> !CrlfAt(buf[pos..], j)
    {
      if buf[i] == CR && buf[i + 1] == LF {
        FindCrlfIs(buf[pos..], i - pos);
        return Some(i);
      }
      i := i + 1;
    }
    assert forall j :: 0 <= j < |buf[pos..]| ==> !CrlfAt(buf[pos..], j);
    r := None;
  }

  // ----- numbers -----

  function Decimal(n: nat): (r: seq<byte>)
    ensures r != []
    ensures forall i :: 0 <= i < |r| ==> 0x30 <= r[i] <= 0x39
  {
    if n < 10 then [0x30 + n] else Decimal(n / 10) + [0x30 + n % 10]
  }

  predicate IsDigits(s: seq<byte>)
  {
    s != [] && forall i :: 0 <= i < |s| ==> 0x30 <= s[i] <= 0x39
  }

  function DigitsValue(s: seq<byte>): nat
    requires forall i :: 0 <= i < |s| ==> 0x30 <= s[i] <= 0x39
  {
    if s == [] then 0 else DigitsValue(s[..|s| - 1]) * 10 + (s[|s| - 1] - 0x30)
  }

  /** `str::parse::<i64>`: an optional sign, at least one digit, and the value in range. */
  function ParseI64(s: seq<byte>): (r: Option<int>)
    ensures r.Some? ==> -I64_LIMIT <= r.value < I64_LIMIT
  {
    var negative := s != [] && s[0] == MINUS;
    var digits := if s != [] && (s[0] == MINUS || s[0] == PLUS) then s[1..] else s;
    if !IsDigits(digits) then None
    else
      var v: int := DigitsValue(digits);
      if negative then (if v <= I64_LIMIT then Some(-v) else None)
      else if v < I64_LIMIT then Some(v) else None
  }

  lemma {:induction false} DecimalValue(n: nat)
    ensures DigitsValue(Decimal(n)) == n
  {
    if n >= 10 {
      DecimalValue(n / 10);
      assert Decimal(n)[..|Decimal(n)| - 1] == Decimal(n / 10);
    } else {
      assert Decimal(n)[..0] == [];
    }
  }

  lemma ParseDecimal(n: nat)
    requires n < I64_LIMIT
    ensures ParseI64(Decimal(n)) == Some(n)
  {
    hide Decimal, DigitsValue;
    DecimalValue(n);
    assert 0x30 <= Decimal(n)[0] <= 0x39;
  }

  // ----- command frames -----

  function Header(tag: byte, n: nat): seq<byte> { [tag] + (Decimal(n) + CRLF) }

  function BulkFrame(arg: seq<byte>): seq<byte> { Header(DOLLAR, |arg|) + (arg + CRLF) }

  ghost function BulkFrames(args: seq<seq<byte>>): seq<byte>
  {
    if args == [] then [] else BulkFrame(args[0]) + BulkFrames(args[1..])
  }

  /** A command: an array of bulk strings. */
  ghost function Frame(args: seq<seq<byte>>): seq<byte> { Header(STAR, |args|) + BulkFrames(args) }

  lemma {:induction false} BulkFramesSnoc(args: seq<seq<byte>>, a: seq<byte>)
    ensures BulkFrames(args + [a]) == BulkFrames(args) + BulkFrame(a)
  {
    if args == [] {
      assert [a][1..] == [];
    } else {
      assert (args + [a])[1..] == args[1..] + [a];
      BulkFramesSnoc(args[1..], a);
    }
  }

  /** Append one encoded command to a buffer (several may be appended for one pipelined write). */
  method EncodeCommandInto(out: seq<byte>, args: seq<seq<byte>>) returns (r: seq<byte>)
    ensures r == out + Frame(args)
  {
    hide Decimal, BulkFrames;
    r := out + [STAR] + Decimal(|args|) + CRLF;
    assert r == out + Header(STAR, |args|);
    assert BulkFrames([]) == [] by { NoFrames(); }
    for i := 0 to |args|
      invariant r == out + (Header(STAR, |args|) + BulkFrames(args[..i]))
    {
      ghost var before := r;
      BulkFramesSnoc(args[..i], args[i]);
      assert args[..i + 1] == args[..i] + [args[i]];
      r := r + [DOLLAR] + Decimal(|args[i]|) + CRLF;
      r := r + args[i];
      r := r + CRLF;
      assert r == before + BulkFrame(args[i]);
    }
    assert args[..|args|] == args;
  }

  lemma NoFrames()
    ensures BulkFrames([]) == []
  {
  }

  /** The number line of a header ends at its own CR LF. */
  lemma HeaderLine(tag: byte, n: nat, rest: seq<byte>)
    ensures FindCrlf((Header(tag, n) + rest)[1..]) == Some(|Decimal(n)|)
    ensures (Header(tag, n) + rest)[1..1 + |Decimal(n)|] == Decimal(n)
    ensures |Header(tag, n)| == |Decimal(n)| + 3
  {
    hide Decimal, FindCrlf;
    var d := Decimal(n);
    var line := (Header(tag, n) + rest)[1..];
    assert line == d + (CRLF + rest);
    FindCrlfIs(line, |d|);
  }
}
