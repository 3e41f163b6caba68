/** The inter-node request client: its own reply parser, its request loop, and how far it agrees with the other one. */
module ClusterBus {
  import opened Core
  import opened RespWire
  import U = Utf8
  import B = BenchParser

  datatype Reply = Simple(text: Str) | Error(text: Str) | Integer(n: int) | Bulk(body: Option<seq<byte>>)

  datatype Fault = MalformedInteger | MalformedBulkLength | BodyNotTerminated | UnsupportedKind

  /** `Panicked`: the line slice `buf[1..line_end]` with `line_end` 0. */
  datatype Parsed = Done(reply: Reply, used: nat) | NeedMore | Protocol(fault: Fault) | Panicked

  ghost function Parse(s: seq<byte>): (r: Parsed)
    ensures r.Done? ==> 0 < r.used <= |s|
  {
    if s == [] || FindCrlf(s).None? then NeedMore
    else if FindCrlf(s).value == 0 then Panicked
    else
      var k := FindCrlf(s).value;
      var line := s[1..k];
      if s[0] == PLUS then Done(Simple(U.Lossy(line)), k + 2)
      else if s[0] == MINUS then Done(Error(U.Lossy(line)), k + 2)
      else if s[0] == COLON then
        if ParseI64(line).None? then Protocol(MalformedInteger) else Done(Integer(ParseI64(line).value), k + 2)
      else if s[0] == DOLLAR then
        if ParseI64(line).None? then Protocol(MalformedBulkLength) else ParseBody(s, k + 2, ParseI64(line).value)
      else Protocol(UnsupportedKind)
  }

  ghost function ParseBody(s: seq<byte>, after: nat, len: int): (r: Parsed)
    requires 0 < after <= |s|
    ensures r.Done? ==> 0 < r.used <= |s|
  {
    if len < 0 then Done(Bulk(None), after)
    else if |s| < after + len + 2 then NeedMore
    else if s[after + len..after + len + 2] != CRLF then Protocol(BodyNotTerminated)
    else Done(Bulk(Some(s[after..after + len])), after + len + 2)
  }

  /** Try to decode one reply from the pending bytes. */
  method ParseReply(buf: seq<byte>) returns (r: Parsed)
    ensures r == Parse(buf)
  {
    hide FindCrlf, ParseI64, U.Lossy;
    if buf == [] {
      return NeedMore;
    }
    assert buf[0..] == buf;
    var lineEnd := ScanCrlf(buf, 0);
    if lineEnd.None? {
      return NeedMore;
    }
    if lineEnd.value == 0 {
      return Panicked;
    }
    var kind := buf[0];
    var line := buf[1..lineEnd.value];
    var after := lineEnd.value + 2;
    if kind == PLUS {
      return Done(Simple(U.Lossy(line)), after);
    }
    if kind == MINUS {
      return Done(Error(U.Lossy(line)), after);
    }
    if kind != COLON && kind != DOLLAR {
      return Protocol(UnsupportedKind);
    }
    var n := ParseI64(line);
    if kind == COLON {
      return if n.None? then Protocol(MalformedInteger) else Done(Integer(n.value), after);
    }
    if n.None? {
      return Protocol(MalformedBulkLength);
    }
    if n.value < 0 {
      return Done(Bulk(None), after);
    }
    var need := after + n.value + 2;
    if |buf| < need {
      return NeedMore;
    }
    if buf[after + n.value..need] != CRLF {
      return Protocol(BodyNotTerminated);
    }
    r := Done(Bulk(Some(buf[after..after + n.value])), need);
  }

  lemma BodyStable(s: seq<byte>, after: nat, len: int, more: seq<byte>)
    requires 0 < after <= |s| && !ParseBody(s, after, len).NeedMore?
    ensures ParseBody(s + more, after, len) == ParseBody(s, after, len)
  {
    if len >= 0 {
      assert (s + more)[after..after + len] == s[after..after + len];
      assert (s + more)[after + len..after + len + 2] == s[after + len..after + len + 2];
    }
  }

  /** Once there is an answer, more bytes do not change it. */
  lemma ParseStable(s: seq<byte>, more: seq<byte>)
    requires !Parse(s).NeedMore?
    ensures Parse(s + more) == Parse(s)
  {
    hide FindCrlf, ParseI64, U.Lossy, ParseBody;
    FindCrlfStable(s, more);
    var k := FindCrlf(s).value;
    if k > 0 {
      assert (s + more)[1..k] == s[1..k];
      if s[0] == DOLLAR && ParseI64(s[1..k]).Some? {
        BodyStable(s, k + 2, ParseI64(s[1..k]).value, more);
      }
    }
  }

  /** The only buffers the parser cannot handle are those that open with an empty line. */
  lemma PanicsExactlyOnEmptyLine(s: seq<byte>)
    ensures Parse(s).Panicked? <==> CrlfAt(s, 0)
  {
  }

  // ----- the request loop -----

  datatype Outcome = Answer(reply: Reply) | Invalid(fault: Fault) | Eof | Crash

  class PeerConn {
    /** Bytes received and not yet part of a returned reply. */
    var pending: seq<byte>
    /** What the next receives deliver; running out of them is end of stream. */
    var incoming: seq<seq<byte>>
    var sent: seq<byte>

    ghost predicate Valid()
      reads this
    {
      forall i :: 0 <= i < |incoming| ==> incoming[i] != []
    }

    ghost function Stream(): seq<byte>
      reads this
    {
      pending + Joined(incoming)
    }

    constructor (chunks: seq<seq<byte>>)
      requires forall i :: 0 <= i < |chunks| ==> chunks[i] != []
      ensures Valid() && Stream() == Joined(chunks) && sent == []
    {
      pending, incoming, sent := [], chunks, [];
    }

    /** Send one command and take exactly one reply off the stream, however it is cut into receives. */
    method Request(args: seq<seq<byte>>) returns (r: Outcome)
      requires Valid()
      modifies this
      ensures Valid() && sent == old(sent) + Frame(args)
      ensures match Parse(old(Stream()))
              case Done(reply, used) => r == Answer(reply) && Stream() == old(Stream())[used..]
              case NeedMore => r == Eof && Stream() == []
              case Protocol(fault) => r == Invalid(fault) && Stream() == old(Stream())
              case Panicked => r == Crash
    {
      hide Parse, Joined, Frame;
      var encoded := EncodeCommandInto([], args);
      assert [] + Frame(args) == Frame(args);
      sent := sent + encoded;
      while true
        invariant Valid() && Stream() == old(Stream()) && sent == old(sent) + Frame(args)
        decreases |incoming|
      {
        var parsed := ParseReply(pending);
        if !parsed.NeedMore? {
          ParseStable(pending, Joined(incoming));
        }
        match parsed {
          case Done(reply, used) =>
            assert (pending + Joined(incoming))[used..] == pending[used..] + Joined(incoming);
            pending := pending[used..];
            return Answer(reply);
          case Protocol(fault) => return Invalid(fault);
          case Panicked => return Crash;
          case NeedMore =>
            if incoming == [] {
              NothingJoined();
              assert pending + [] == pending;
              pending := [];
              assert pending + Joined(incoming) == [];
              return Eof;
            }
            JoinedFirst(incoming);
            assert pending + (incoming[0] + Joined(incoming[1..])) == pending + incoming[0] + Joined(incoming[1..]);
            pending, incoming := pending + incoming[0], incoming[1..];
        }
      }
    }
  }

  // ----- agreement with the other parser -----

  /** The text of a status or error line, where the two parsers keep different forms. */
  ghost predicate TextIsUtf8(s: seq<byte>)
  {
    s != [] && (s[0] == PLUS || s[0] == MINUS) && FindCrlf(s).Some? && FindCrlf(s).value > 0
    ==> U.IsUtf8(s[1..FindCrlf(s).value])
  }

  function Same(r: Reply): B.Reply
  {
    match r
    case Simple(text) => B.Simple(text)
    case Error(text) => B.Error(text)
    case Integer(n) => B.Integer(n)
    case Bulk(body) => B.Bulk(body)
  }

  lemma SameLine(s: seq<byte>)
    requires s != [] && s[0] != CR
    ensures FindCrlf(s).None? ==> B.Line(s).None?
    ensures FindCrlf(s).Some? ==> FindCrlf(s).value > 0 && B.Line(s) == Some(s[1..FindCrlf(s).value])
  {
  }

  /** Whatever the bus accepts, the load generator's parser accepts as the same reply of the same length. */
  lemma BusReplyIsBenchReply(s: seq<byte>)
    requires Parse(s).Done? && TextIsUtf8(s)
    ensures B.Parse(s) == B.Done(Same(Parse(s).reply), Parse(s).used)
  {
    hide FindCrlf, ParseI64, U.Lossy, U.IsUtf8, B.Line;
    SameLine(s);
    var line := s[1..FindCrlf(s).value];
    if s[0] == PLUS || s[0] == MINUS {
      U.LossyKeepsValid(line);
    }
  }

  /** The other way: the bus accepts every non-array reply the load generator accepts, bar a body without its CR LF. */
  lemma BenchReplyIsBusReply(s: seq<byte>)
    requires B.Parse(s).Done? && TextIsUtf8(s) && !B.Parse(s).value.Array?
    ensures var b := B.Parse(s);
            if b.value.Bulk? && b.value.body.Some? && s[b.used - 2..b.used] != CRLF
            then Parse(s) == Protocol(BodyNotTerminated)
            else Parse(s).Done? && Same(Parse(s).reply) == b.value && Parse(s).used == b.used
  {
    hide FindCrlf, ParseI64, U.Lossy, U.IsUtf8, B.Line, B.ParseItems;
    SameLine(s);
    var line := s[1..FindCrlf(s).value];
    if s[0] == PLUS || s[0] == MINUS {
      U.LossyKeepsValid(line);
    }
  }
}
