/** The load generator's reply parser: what one reply is on the wire, and that parsing and framing undo each other. */
module BenchParser {
  import opened Core
  import opened RespWire

  datatype Reply =
    | Simple(line: seq<byte>)
    | Error(line: seq<byte>)
    | Integer(n: int)
    | Bulk(body: Option<seq<byte>>)
    | Array(items: seq<Reply>)

  datatype Fault = BadInteger | BadBulkLength | BadArrayCount | UnknownLead

  datatype Parsed<T> = Done(value: T, used: nat) | NeedMore | Protocol(fault: Fault)

  // ----- the grammar -----

  predicate KnownLead(b: byte) { b == PLUS || b == MINUS || b == COLON || b == DOLLAR || b == STAR }

  /** The bytes between the leading byte and the first CR LF after it. */
  ghost function Line(s: seq<byte>): (r: Option<seq<byte>>)
    requires s != []
    ensures r.Some? ==> |r.value| + 3 <= |s|
  {
    var k := FindCrlf(s[1..]);
    if k.Some? then Some(s[1..1 + k.value]) else None
  }

  /** The reply at the front of `s`, how many bytes it takes, or why there is none. */
  ghost function Parse(s: seq<byte>): (r: Parsed<Reply>)
    ensures r.Done? ==> 0 < r.used <= |s|
    decreases |s|, 0
  {
    if s == [] then NeedMore
    else if !KnownLead(s[0]) then Protocol(UnknownLead)
    else if Line(s).None? then NeedMore
    else
      var line := Line(s).value;
      var after := |line| + 3;
      if s[0] == PLUS then Done(Simple(line), after)
      else if s[0] == MINUS then Done(Error(line), after)
      else if s[0] == COLON then
        if ParseI64(line).None? then Protocol(BadInteger) else Done(Integer(ParseI64(line).value), after)
      else if s[0] == DOLLAR then
        if ParseI64(line).None? then Protocol(BadBulkLength) else ParseBody(s, after, ParseI64(line).value)
      else
        if ParseI64(line).None? then Protocol(BadArrayCount)
        else if ParseI64(line).value < 0 then Done(Array([]), after)
        else
          var items := ParseItems(s[after..], ParseI64(line).value);
          if items.Done? then Done(Array(items.value), after + items.used)
          else if items.NeedMore? then NeedMore
          else Protocol(items.fault)
  }

  /** A bulk body of `len` bytes and the two bytes behind it, which are skipped without being looked at. */
  ghost function ParseBody(s: seq<byte>, after: nat, len: int): (r: Parsed<Reply>)
    requires after <= |s|
  {
    if len < 0 then Done(Bulk(None), after)
    else if |s| < after + len + 2 then NeedMore
    else Done(Bulk(Some(s[after..after + len])), after + len + 2)
  }

  /** `n` replies one after the other. */
  ghost function ParseItems(s: seq<byte>, n: nat): (r: Parsed<seq<Reply>>)
    ensures r.Done? ==> r.used <= |s| && |r.value| == n
    decreases |s|, 1
  {
    if n == 0 then Done([], 0)
    else
      var head := Parse(s);
      if head.NeedMore? then NeedMore
      else if head.Protocol? then Protocol(head.fault)
      else Prepend([head.value], head.used, ParseItems(s[head.used..], n - 1))
  }

  ghost function Prepend(items: seq<Reply>, used: nat, rest: Parsed<seq<Reply>>): Parsed<seq<Reply>>
  {
    if rest.Done? then Done(items + rest.value, used + rest.used) else rest
  }

  // ----- more bytes never change an answer -----

  lemma LineStable(s: seq<byte>, more: seq<byte>)
    requires s != [] && Line(s).Some?
    ensures Line(s + more) == Line(s)
  {
    hide FindCrlf;
    FindCrlfStable(s[1..], more);
    var k := FindCrlf(s[1..]).value;
    assert (s + more)[1..] == s[1..] + more;
    assert (s + more)[1..1 + k] == s[1..1 + k];
  }

  lemma BodyStable(s: seq<byte>, after: nat, len: int, more: seq<byte>)
    requires after <= |s| && !ParseBody(s, after, len).NeedMore?
    ensures ParseBody(s + more, after, len) == ParseBody(s, after, len)
  {
    if len >= 0 {
      assert (s + more)[after..after + len] == s[after..after + len];
    }
  }

  /** A finished or refused reply stays exactly that when more bytes arrive behind it. */
  lemma {:induction false} ParseStable(s: seq<byte>, more: seq<byte>)
    requires !Parse(s).NeedMore?
    ensures Parse(s + more) == Parse(s)
    decreases |s|, 0
  {
    hide Line, ParseI64, ParseBody;
    if KnownLead(s[0]) {
      LineStable(s, more);
      var after := |Line(s).value| + 3;
      var n := ParseI64(Line(s).value);
      assert (s + more)[after..] == s[after..] + more;
      if s[0] == DOLLAR && n.Some? {
        BodyStable(s, after, n.value, more);
      } else if s[0] == STAR && n.Some? && n.value >= 0 {
        ItemsStable(s[after..], n.value, more);
      }
    }
  }

  lemma {:induction false} ItemsStable(s: seq<byte>, n: nat, more: seq<byte>)
    requires !ParseItems(s, n).NeedMore?
    ensures ParseItems(s + more, n) == ParseItems(s, n)
    decreases |s|, 1
  {
    hide Parse;
    if n > 0 {
      ParseStable(s, more);
      var head := Parse(s);
      if head.Done? {
        assert (s + more)[head.used..] == s[head.used..] + more;
        ItemsStable(s[head.used..], n - 1, more);
      }
    }
  }

  /** No proper prefix of a complete reply is itself complete or refused. */
  lemma PrefixNeedsMore(s: seq<byte>, n: nat)
    requires Parse(s).Done? && n < Parse(s).used
    ensures Parse(s[..n]).NeedMore?
  {
    hide Parse;
    if !Parse(s[..n]).NeedMore? {
      assert s[..n] + s[n..] == s;
      ParseStable(s[..n], s[n..]);
    }
  }

  // ----- framing and its inverse -----

  ghost predicate OneLine(line: seq<byte>) { forall i :: 0 <= i < |line| ==> !CrlfAt(line, i) }

  /** The replies a server can frame: single-line texts, 64-bit integers, and sizes that fit one. */
  ghost predicate Framable(r: Reply)
    decreases r, 0
  {
    match r
    case Simple(line) => OneLine(line)
    case Error(line) => OneLine(line)
    case Integer(n) => -I64_LIMIT <= n < I64_LIMIT
    case Bulk(body) => body.Some? ==> |body.value| < I64_LIMIT
    case Array(items) => |items| < I64_LIMIT && AllFramable(items)
  }

  ghost predicate AllFramable(items: seq<Reply>)
    decreases items
  {
    forall i :: 0 <= i < |items| ==> Framable(items[i])
  }

  function Signed(n: int): seq<byte> { if n < 0 then [MINUS] + Decimal(-n) else Decimal(n) }

  function TextLine(tag: byte, line: seq<byte>): seq<byte> { [tag] + (line + CRLF) }

  ghost function Wire(r: Reply): seq<byte>
    decreases r, 0
  {
    match r
    case Simple(line) => TextLine(PLUS, line)
    case Error(line) => TextLine(MINUS, line)
    case Integer(n) => TextLine(COLON, Signed(n))
    case Bulk(None) => TextLine(DOLLAR, Signed(-1))
    case Bulk(Some(body)) => BulkFrame(body)
    case Array(items) => Header(STAR, |items|) + Wires(items)
  }

  ghost function Wires(items: seq<Reply>): seq<byte>
    decreases items
  {
    if items == [] then [] else Wire(items[0]) + Wires(items[1..])
  }

  lemma TextLineReads(tag: byte, line: seq<byte>, rest: seq<byte>)
    requires OneLine(line)
    ensures Line(TextLine(tag, line) + rest) == Some(line)
  {
    hide FindCrlf;
    var s := TextLine(tag, line) + rest;
    var tail := s[1..];
    assert tail == line + (CRLF + rest);
    forall i | 0 <= i < |line| ensures !CrlfAt(tail, i) {
      assert !CrlfAt(line, i);
    }
    FindCrlfIs(tail, |line|);
    assert s[1..1 + |line|] == line;
  }

  lemma SignedReads(n: int)
    requires -I64_LIMIT <= n < I64_LIMIT
    ensures ParseI64(Signed(n)) == Some(n) && OneLine(Signed(n))
  {
    hide Decimal, DigitsValue;
    if n < 0 {
      DecimalValue(-n);
      assert Signed(n)[1..] == Decimal(-n);
    } else {
      ParseDecimal(n);
    }
  }

  lemma HeaderReads(tag: byte, n: nat, rest: seq<byte>)
    requires n < I64_LIMIT
    ensures Line(Header(tag, n) + rest) == Some(Decimal(n)) && ParseI64(Decimal(n)) == Some(n)
    ensures |Header(tag, n)| == |Decimal(n)| + 3
  {
    hide FindCrlf, Decimal, ParseI64, Header;
    HeaderLine(tag, n, rest);
    ParseDecimal(n);
  }

  lemma BulkReads(body: seq<byte>, rest: seq<byte>)
    requires |body| < I64_LIMIT
    ensures Parse(BulkFrame(body) + rest) == Done(Bulk(Some(body)), |BulkFrame(body)|)
  {
    hide Line, ParseI64, Decimal;
    var s := BulkFrame(body) + rest;
    var after := |Header(DOLLAR, |body|)|;
    assert s == Header(DOLLAR, |body|) + (body + CRLF + rest);
    HeaderReads(DOLLAR, |body|, body + CRLF + rest);
    assert s[after..after + |body|] == body;
  }

  lemma TextReads(r: Reply, rest: seq<byte>)
    requires Framable(r) && !r.Array? && !(r.Bulk? && r.body.Some?)
    ensures Parse(Wire(r) + rest) == Done(r, |Wire(r)|)
  {
    hide Line, ParseI64, Decimal, Signed;
    match r {
      case Simple(line) => TextLineReads(PLUS, line, rest);
      case Error(line) => TextLineReads(MINUS, line, rest);
      case Integer(n) => SignedReads(n); TextLineReads(COLON, Signed(n), rest);
      case Bulk(_) => SignedReads(-1); TextLineReads(DOLLAR, Signed(-1), rest);
    }
  }

  /** Every framed reply, nested to any depth, parses back to itself and takes exactly its own bytes. */
  lemma {:induction false} ParseWire(r: Reply, rest: seq<byte>)
    requires Framable(r)
    ensures Parse(Wire(r) + rest) == Done(r, |Wire(r)|)
    decreases r, 0
  {
    if r.Array? {
      ItemsWire(r.items, rest);
      ArrayReads(r.items, rest);
    } else if r.Bulk? && r.body.Some? {
      BulkReads(r.body.value, rest);
    } else {
      TextReads(r, rest);
    }
  }

  lemma ArrayReads(items: seq<Reply>, rest: seq<byte>)
    requires |items| < I64_LIMIT
    requires ParseItems(Wires(items) + rest, |items|) == Done(items, |Wires(items)|)
    ensures Parse(Wire(Array(items)) + rest) == Done(Array(items), |Wire(Array(items))|)
  {
    hide Line, ParseI64, Decimal, ParseItems, Wires;
    var s := Wire(Array(items)) + rest;
    var after := |Header(STAR, |items|)|;
    assert s == Header(STAR, |items|) + (Wires(items) + rest);
    HeaderReads(STAR, |items|, Wires(items) + rest);
    assert s[after..] == Wires(items) + rest;
  }

  /** The same for replies one behind the other, as a pipelined batch returns them. */
  lemma {:induction false} ItemsWire(items: seq<Reply>, rest: seq<byte>)
    requires AllFramable(items)
    ensures ParseItems(Wires(items) + rest, |items|) == Done(items, |Wires(items)|)
    decreases items
  {
    hide Parse, Wire, Framable;
    if items != [] {
      var tail := Wires(items[1..]) + rest;
      assert Wires(items) + rest == Wire(items[0]) + tail;
      ParseWire(items[0], tail);
      assert (Wire(items[0]) + tail)[|Wire(items[0])|..] == tail;
      ItemsWire(items[1..], rest);
      assert [items[0]] + items[1..] == items;
    }
  }

  // ----- commands -----

  /** A command read back as a reply: an array of bulk strings. */
  function Command(args: seq<seq<byte>>): Reply
  {
    Array(seq(|args|, i requires 0 <= i < |args| => Bulk(Some(args[i]))))
  }

  ghost predicate CommandFits(args: seq<seq<byte>>)
  {
    |args| < I64_LIMIT && forall i :: 0 <= i < |args| ==> |args[i]| < I64_LIMIT
  }

  ghost function Frames(commands: seq<seq<seq<byte>>>): seq<byte>
  {
    if commands == [] then [] else Frames(commands[..|commands| - 1]) + Frame(commands[|commands| - 1])
  }

  lemma {:induction false} BulkFramesAreWires(args: seq<seq<byte>>)
    ensures Wires(Command(args).items) == BulkFrames(args)
  {
    if args != [] {
      BulkFramesAreWires(args[1..]);
      assert Command(args).items[1..] == Command(args[1..]).items;
    }
  }

  lemma {:induction false} WiresSnoc(items: seq<Reply>, r: Reply)
    ensures Wires(items + [r]) == Wires(items) + Wire(r)
  {
    hide Wire;
    if items == [] {
      assert (items + [r])[1..] == [];
    } else {
      assert (items + [r])[1..] == items[1..] + [r];
      WiresSnoc(items[1..], r);
    }
  }

  function Commands(commands: seq<seq<seq<byte>>>): seq<Reply>
  {
    seq(|commands|, i requires 0 <= i < |commands| => Command(commands[i]))
  }

  lemma {:induction false} FramesAreWires(commands: seq<seq<seq<byte>>>)
    ensures Wires(Commands(commands)) == Frames(commands)
  {
    hide BulkFrames, Command;
    if commands != [] {
      var front, last := commands[..|commands| - 1], commands[|commands| - 1];
      FramesAreWires(front);
      assert Commands(commands) == Commands(front) + [Command(last)];
      WiresSnoc(Commands(front), Command(last));
      FrameIsWire(last);
    }
  }

  lemma FrameIsWire(args: seq<seq<byte>>)
    ensures Wire(Command(args)) == Frame(args)
  {
    BulkFramesAreWires(args);
  }

  lemma CommandFramable(args: seq<seq<byte>>)
    requires CommandFits(args)
    ensures Framable(Command(args))
  {
  }

  /** A batch of encoded commands splits back into exactly those commands and uses every byte. */
  lemma FramesRoundTrip(commands: seq<seq<seq<byte>>>, rest: seq<byte>)
    requires forall i :: 0 <= i < |commands| ==> CommandFits(commands[i])
    ensures ParseItems(Frames(commands) + rest, |commands|) == Done(Commands(commands), |Frames(commands)|)
  {
    hide Frames, Command, ParseItems, CommandFits, Framable, Wires;
    FramesAreWires(commands);
    forall i | 0 <= i < |commands| ensures Framable(Commands(commands)[i]) {
      CommandFramable(commands[i]);
    }
    ItemsWire(Commands(commands), rest);
  }
}
