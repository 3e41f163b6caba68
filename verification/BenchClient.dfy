/** The load generator's connection: a growing read buffer, a cursor, and one reply at a time out of it. */
module BenchClient {
  import opened Core
  import opened RespWire
  import opened BenchParser

  // ----- the parser as it runs, over the whole buffer with a cursor -----

  /** Parse one reply at `start`; `pos` is where the cursor is left. */
  method ParseReply(buf: seq<byte>, start: nat) returns (r: Parsed<Reply>, pos: nat)
    requires start <= |buf|
    ensures r == Parse(buf[start..])
    ensures start <= pos <= |buf|
    ensures r.Done? ==> pos == start + r.used
    decreases |buf| - start, 0
  {
    hide FindCrlf, ParseI64;
    ghost var s := buf[start..];
    pos := start;
    if start == |buf| {
      return NeedMore, pos;
    }
    var tag := buf[start];
    if !KnownLead(tag) {
      return Protocol(UnknownLead), pos;
    }
    var cr := ScanCrlf(buf, start + 1);
    assert s[1..] == buf[start + 1..];
    if cr.None? {
      return NeedMore, pos;
    }
    var line := buf[start + 1..cr.value];
    assert Line(s) == Some(line) by {
      assert s[1..1 + |line|] == line;
    }
    pos := cr.value + 2;
    assert pos == start + |line| + 3;
    if tag == PLUS {
      return Done(Simple(line), pos - start), pos;
    }
    if tag == MINUS {
      return Done(Error(line), pos - start), pos;
    }
    var n := ParseI64(line);
    if tag == COLON {
      r := if n.None? then Protocol(BadInteger) else Done(Integer(n.value), pos - start);
    } else if tag == DOLLAR {
      r, pos := ReadBody(buf, start, pos, n);
    } else if n.None? {
      r := Protocol(BadArrayCount);
    } else if n.value < 0 {
      r := Done(Array([]), pos - start);
    } else {
      assert s[pos - start..] == buf[pos..];
      r, pos := ReadItems(buf, start, pos, n.value);
    }
  }

  /** The bulk body behind its length line. */
  method ReadBody(buf: seq<byte>, start: nat, bodyStart: nat, n: Option<int>) returns (r: Parsed<Reply>, pos: nat)
    requires start < bodyStart <= |buf|
    ensures n.None? ==> r == Protocol(BadBulkLength)
    ensures n.Some? ==> r == ParseBody(buf[start..], bodyStart - start, n.value)
    ensures bodyStart <= pos <= |buf|
    ensures r.Done? ==> pos == start + r.used
  {
    pos := bodyStart;
    if n.None? {
      return Protocol(BadBulkLength), pos;
    }
    var len := n.value;
    if len < 0 {
      return Done(Bulk(None), pos - start), pos;
    }
    var bodyEnd := bodyStart + len;
    if |buf| < bodyEnd + 2 {
      return NeedMore, pos;
    }
    assert buf[start..][bodyStart - start..bodyEnd - start] == buf[bodyStart..bodyEnd];
    pos := bodyEnd + 2;
    r := Done(Bulk(Some(buf[bodyStart..bodyEnd])), pos - start);
  }

  lemma PrependNone(s: seq<byte>, count: nat)
    ensures Prepend([], 0, ParseItems(s, count)) == ParseItems(s, count)
  {
    hide ParseItems;
    var all := ParseItems(s, count);
    if all.Done? {
      assert [] + all.value == all.value;
    }
  }

  lemma PrependAll(items: seq<Reply>, used: nat, s: seq<byte>)
    ensures Prepend(items, used, ParseItems(s, 0)) == Done(items, used)
  {
    assert items + [] == items;
  }

  /** One more reply off the front of `s`, behind those already taken. */
  lemma PrependStep(items: seq<Reply>, before: nat, s: seq<byte>, count: nat)
    requires count > 0
    ensures var head := Parse(s); var all := Prepend(items, before, ParseItems(s, count));
            && (head.NeedMore? ==> all == NeedMore)
            && (head.Protocol? ==> all == Protocol(head.fault))
            && (head.Done? ==>
                  all == Prepend(items + [head.value], before + head.used, ParseItems(s[head.used..], count - 1)))
  {
    hide Parse;
    var head := Parse(s);
    if head.Done? {
      var rest := ParseItems(s[head.used..], count - 1);
      if rest.Done? {
        assert items + ([head.value] + rest.value) == items + [head.value] + rest.value;
      }
    }
  }

  /** `count` replies in a row, stopping at the first that is unfinished or refused. */
  method ReadItems(buf: seq<byte>, start: nat, from: nat, count: nat) returns (r: Parsed<Reply>, pos: nat)
    requires start < from <= |buf|
    ensures var all := ParseItems(buf[from..], count);
            && (all.Done? ==> r == Done(Array(all.value), from - start + all.used))
            && (all.NeedMore? ==> r == NeedMore)
            && (all.Protocol? ==> r == Protocol(all.fault))
    ensures from <= pos <= |buf|
    ensures r.Done? ==> pos == start + r.used
    decreases |buf| - from, 1
  {
    hide Parse, ParseItems, Prepend;
    ghost var all := ParseItems(buf[from..], count);
    var items := [];
    pos := from;
    PrependNone(buf[from..], count);
    for i := 0 to count
      invariant from <= pos <= |buf|
      invariant all == Prepend(items, pos - from, ParseItems(buf[pos..], count - i))
    {
      ghost var here := pos;
      PrependStep(items, pos - from, buf[pos..], count - i);
      var item, next := ParseReply(buf, pos);
      pos := next;
      match item {
        case NeedMore => return NeedMore, pos;
        case Protocol(fault) => return Protocol(fault), pos;
        case Done(reply, used) =>
          assert buf[here..][used..] == buf[pos..];
          items := items + [reply];
      }
    }
    PrependAll(items, pos - from, buf[pos..]);
    r := Done(Array(items), pos - start);
  }

  // ----- the connection -----

  datatype Received<T> = Got(value: T) | Invalid(fault: Fault) | Closed

  class Conn {
    /** Bytes read and not dropped yet, and how many of them are consumed. */
    var buf: seq<byte>
    var pos: nat
    /** What the socket's next reads return, one non-empty chunk each; then it is closed. */
    var incoming: seq<seq<byte>>
    /** Everything written to the socket. */
    var sent: seq<byte>

    ghost predicate Valid()
      reads this
    {
      && pos <= |buf|
      && forall i :: 0 <= i < |incoming| ==> 0 < |incoming[i]| <= 4096
    }

    /** All the reply bytes the peer sends from here on, whether read yet or not. */
    ghost function Stream(): seq<byte>
      requires Valid()
      reads this
    {
      buf[pos..] + Joined(incoming)
    }

    constructor (chunks: seq<seq<byte>>)
      requires forall i :: 0 <= i < |chunks| ==> 0 < |chunks[i]| <= 4096
      ensures Valid() && Stream() == Joined(chunks) && sent == []
    {
      buf, pos, incoming, sent := [], 0, chunks, [];
    }

    /** One socket read; false at end of stream. */
    method Fill() returns (ok: bool)
      requires Valid()
      modifies this`buf, this`incoming
      ensures Valid() && Stream() == old(Stream())
      ensures ok <==> old(incoming) != []
      ensures ok ==> |incoming| < |old(incoming)|
      ensures !ok ==> buf == old(buf) && incoming == old(incoming)
    {
      if incoming == [] {
        return false;
      }
      assert (buf + incoming[0])[pos..] == buf[pos..] + incoming[0];
      buf, incoming := buf + incoming[0], incoming[1..];
      ok := true;
    }

    /** One reply, however the peer's bytes happen to be cut into reads. */
    method ReadReply() returns (r: Received<Reply>)
      requires Valid()
      modifies this`buf, this`pos, this`incoming
      ensures Valid()
      ensures var all := Parse(old(Stream()));
              && (all.Done? ==> r == Got(all.value) && Stream() == old(Stream())[all.used..])
              && (all.NeedMore? ==> r == Closed && Stream() == old(Stream()))
              && (all.Protocol? ==> r == Invalid(all.fault))
    {
      hide Parse, Joined;
      while true
        invariant Valid() && Stream() == old(Stream())
        decreases |incoming|
      {
        var start := pos;
        ghost var have := buf[start..];
        var parsed, next := ParseReply(buf, start);
        pos := next;
        match parsed {
          case Done(reply, used) =>
            ParseStable(have, Joined(incoming));
            assert (have + Joined(incoming))[used..] == buf[pos..] + Joined(incoming);
            buf := buf[pos..];
            pos := 0;
            return Got(reply);
          case NeedMore =>
            pos := start;
            var more := Fill();
            if !more {
              NothingJoined();
              assert have + [] == have;
              return Closed;
            }
          case Protocol(fault) =>
            ParseStable(have, Joined(incoming));
            return Invalid(fault);
        }
      }
    }

    /** Send a batch in one write, then take one reply per command. */
    method Pipeline(commands: seq<seq<seq<byte>>>) returns (r: Received<seq<Reply>>)
      requires Valid()
      modifies this
      ensures Valid() && sent == old(sent) + Frames(commands)
      ensures var all := ParseItems(old(Stream()), |commands|);
              && (all.Done? ==> r == Got(all.value) && Stream() == old(Stream())[all.used..])
              && (all.NeedMore? ==> r == Closed)
              && (all.Protocol? ==> r == Invalid(all.fault))
    {
      if commands == [] {
        return Got([]);
      }
      var out := EncodeBatch(commands);
      sent := sent + out;
      r := ReadReplies(|commands|);
    }

    method ReadReplies(count: nat) returns (r: Received<seq<Reply>>)
      requires Valid()
      modifies this`buf, this`pos, this`incoming
      ensures Valid()
      ensures var all := ParseItems(old(Stream()), count);
              && (all.Done? ==> r == Got(all.value) && Stream() == old(Stream())[all.used..])
              && (all.NeedMore? ==> r == Closed)
              && (all.Protocol? ==> r == Invalid(all.fault))
    {
      hide Parse, Joined, ParseItems, Prepend;
      ghost var stream := Stream();
      ghost var all := ParseItems(stream, count);
      ghost var used := 0;
      PrependNone(stream, count);
      var replies := [];
      for i := 0 to count
        invariant Valid() && used <= |stream| && Stream() == stream[used..]
        invariant all == Prepend(replies, used, ParseItems(Stream(), count - i))
      {
        ghost var now := Stream();
        PrependStep(replies, used, now, count - i);
        var reply := ReadReply();
        match reply {
          case Closed => return Closed;
          case Invalid(fault) => return Invalid(fault);
          case Got(value) =>
            ghost var n := Parse(now).used;
            assert stream[used..][n..] == stream[used + n..];
            used := used + n;
            replies := replies + [value];
        }
      }
      PrependAll(replies, used, Stream());
      r := Got(replies);
    }
  }

  method EncodeBatch(commands: seq<seq<seq<byte>>>) returns (out: seq<byte>)
    ensures out == Frames(commands)
  {
    hide Frame;
    out := [];
    for i := 0 to |commands|
      invariant out == Frames(commands[..i])
    {
      assert commands[..i + 1][..i] == commands[..i];
      out := EncodeCommandInto(out, commands[i]);
    }
    assert commands[..|commands|] == commands;
  }
}
