/**
 The two clients' wire forms written out as ASCII text: what a command, a reply and a number look like byte for byte,
 and what either parser makes of such text. Of the named marker bytes only `Marks` speaks.
*/
module WireLiterals {
  import opened Core
  import opened RespWire
  import opened BenchParser
  import Bus = ClusterBus
  import U = Utf8

  /** The bytes of a text; only ASCII text is written here. */
  ghost function Ascii(text: string): (r: seq<byte>)
    ensures |r| == |text| && forall i :: 0 <= i < |r| ==> r[i] == Code(text[i])
  {
    seq(|text|, i requires 0 <= i < |text| => Code(text[i]))
  }

  function Code(c: char): byte { if c as int < 0x80 then c as int else 0 }

  // ----- numbers -----

  ghost function Power10(n: nat): nat { if n == 0 then 1 else 10 * Power10(n - 1) }

  ghost predicate AllDigits(s: seq<byte>) { forall i :: 0 <= i < |s| ==> '0' as int <= s[i] <= '9' as int }

  lemma ValueSnoc(s: seq<byte>, d: byte)
    requires AllDigits(s) && AllDigits([d])
    ensures AllDigits(s + [d]) && DigitsValue(s + [d]) == DigitsValue(s) * 10 + (d - '0' as int)
  {
    assert [d][0] == d;
    assert (s + [d])[..|s|] == s;
  }

  lemma TenTimes(a: int, p: int, v: int, x: int)
    ensures (a * p + v) * 10 + x == a * (10 * p) + (v * 10 + x)
  {
  }

  /** Digits count for ten times as much with every digit behind them. */
  lemma {:induction false} PlaceValue(d: byte, s: seq<byte>)
    requires AllDigits([d]) && AllDigits(s)
    ensures AllDigits([d] + s)
    ensures DigitsValue([]) == 0 && DigitsValue([d] + s) == (d - '0' as int) * Power10(|s|) + DigitsValue(s)
    decreases |s|
  {
    hide DigitsValue;
    assert DigitsValue([]) == 0 by { NoDigits(); }
    assert [d][0] == d;
    if s == [] {
      ValueSnoc([], d);
      assert [] + [d] == [d] + s;
    } else {
      var n := |s| - 1;
      PlaceValue(d, s[..n]);
      assert [s[n]][0] == s[n];
      ValueSnoc([d] + s[..n], s[n]);
      ValueSnoc(s[..n], s[n]);
      assert [d] + s[..n] + [s[n]] == [d] + s && s[..n] + [s[n]] == s;
      TenTimes(d - '0' as int, Power10(n), DigitsValue(s[..n]), s[n] - '0' as int);
    }
  }

  lemma NoDigits()
    ensures DigitsValue([]) == 0
  {
  }

  /** Decimal text has no needless zero in front and is worth the number it was made from. */
  lemma {:induction false} DecimalMeans(n: nat)
    ensures AllDigits(Decimal(n)) && DigitsValue(Decimal(n)) == n
    ensures Decimal(n)[0] == '0' as int <==> n == 0
    ensures n == 0 ==> Decimal(n) == Ascii("0")
  {
    DecimalValue(n);
    if n >= 10 {
      DecimalMeans(n / 10);
    }
  }

  /** A 64-bit number: digits with or without a sign in front, worth something in range, and nothing else. */
  lemma ParseI64Means(s: seq<byte>, n: int)
    ensures ParseI64(s) == Some(n) <==>
      && -9223372036854775808 <= n <= 9223372036854775807
      && (|| (s != [] && AllDigits(s) && n == DigitsValue(s))
          || (|s| > 1 && s[0] == '+' as int && AllDigits(s[1..]) && n == DigitsValue(s[1..]))
          || (|s| > 1 && s[0] == '-' as int && AllDigits(s[1..]) && n == -(DigitsValue(s[1..]) as int)))
  {
    hide DigitsValue;
    assert AllDigits(s) && s != [] <==> IsDigits(s);
    if s != [] {
      assert AllDigits(s[1..]) && |s| > 1 <==> IsDigits(s[1..]);
      assert AllDigits(s) ==> '0' as int <= s[0];
    }
  }

  // ----- lines -----

  /** No line feed directly behind a carriage return. */
  ghost predicate OneTextLine(line: seq<byte>)
  {
    forall i :: 0 <= i < |line| - 1 ==> !(line[i] == '\r' as int && line[i + 1] == '\n' as int)
  }

  /** A lead byte, a text without line end, and the line end behind it. */
  ghost function LineOf(lead: byte, line: seq<byte>, rest: seq<byte>): seq<byte>
  {
    [lead] + line + Ascii("\r\n") + rest
  }

  lemma LineParts(lead: byte, line: seq<byte>, rest: seq<byte>)
    requires OneTextLine(line)
    ensures var s := LineOf(lead, line, rest);
      && s[0] == lead && Line(s) == Some(line) && |line| + 3 <= |s| && s[|line| + 3..] == rest
      && (forall i, j :: 0 <= i <= j <= |rest| ==> s[|line| + 3 + i..|line| + 3 + j] == rest[i..j])
  {
    hide FindCrlf;
    var s := LineOf(lead, line, rest);
    var tail := s[1..];
    assert tail == line + Ascii("\r\n") + rest;
    assert CrlfAt(tail, |line|);
    forall i | 0 <= i < |line| ensures !CrlfAt(tail, i) {
      assert i + 1 < |line| ==> tail[i] == line[i] && tail[i + 1] == line[i + 1];
    }
    FindCrlfIs(tail, |line|);
    assert s[1..1 + |line|] == line;
  }

  lemma NoLineEnd(s: seq<byte>)
    requires OneTextLine(s)
    ensures FindCrlf(s).None?
  {
    hide FindCrlf;
    var r := FindCrlf(s);
    assert r.Some? ==> CrlfAt(s, r.value);
  }

  // ----- what is sent -----

  lemma Marks()
    ensures Ascii("*") == [STAR] && Ascii("$") == [DOLLAR] && Ascii("\r\n") == CRLF
    ensures Ascii("+") == [PLUS] && Ascii("-") == [MINUS] && Ascii(":") == [COLON]
  {
  }

  /** A command is `*`, the number of arguments, and for each `$`, its length, and the argument itself, line by line. */
  lemma FrameBytes(args: seq<seq<byte>>, a: seq<byte>)
    ensures Frame(args) == (Ascii("*") + (Decimal(|args|) + Ascii("\r\n"))) + BulkFrames(args)
    ensures BulkFrames([]) == []
    ensures BulkFrames(args + [a]) ==
      BulkFrames(args) + ((Ascii("$") + (Decimal(|a|) + Ascii("\r\n"))) + (a + Ascii("\r\n")))
  {
    hide Decimal, BulkFrames, Ascii;
    Marks();
    NoFrames();
    BulkFramesSnoc(args, a);
  }

  lemma SmallNumbers()
    ensures Decimal(2) == [0x32] && Decimal(3) == [0x33]
  {
  }

  lemma ThreeByteArgument(a: string)
    requires |a| == 3
    ensures BulkFrame(Ascii(a)) == Ascii("$3\r\n" + a + "\r\n")
  {
    hide Decimal;
    SmallNumbers();
    var s, t := BulkFrame(Ascii(a)), Ascii("$3\r\n" + a + "\r\n");
    assert |s| == |t| == 9;
    forall i | 0 <= i < 9 ensures s[i] == t[i] { }
  }

  lemma AsciiJoin(a: string, b: string)
    ensures Ascii(a) + Ascii(b) == Ascii(a + b)
  {
  }

  /** The command `GET k:1`. */
  lemma GetFrame()
    ensures Frame([Ascii("GET"), Ascii("k:1")]) == Ascii("*2\r\n$3\r\nGET\r\n$3\r\nk:1\r\n")
  {
    hide Decimal, BulkFrame, Ascii, BulkFrames;
    var get, key := Ascii("GET"), Ascii("k:1");
    NoFrames();
    BulkFramesSnoc([], get);
    BulkFramesSnoc([get], key);
    assert [] + [get] == [get] && [get] + [key] == [get, key];
    ThreeByteArgument("GET");
    ThreeByteArgument("k:1");
    TwoArguments();
    AsciiJoin("$3\r\n" + "GET" + "\r\n", "$3\r\n" + "k:1" + "\r\n");
    AsciiJoin("*2\r\n", "$3\r\n" + "GET" + "\r\n" + ("$3\r\n" + "k:1" + "\r\n"));
    assert "*2\r\n" + ("$3\r\n" + "GET" + "\r\n" + ("$3\r\n" + "k:1" + "\r\n")) ==
      "*2\r\n$3\r\nGET\r\n$3\r\nk:1\r\n";
  }

  lemma TwoArguments()
    ensures Header(STAR, 2) == Ascii("*2\r\n")
  {
    SmallNumbers();
  }

  ghost function SignedText(n: int): seq<byte> { if n < 0 then Ascii("-") + Decimal(-n) else Decimal(n) }

  /** A reply is its kind's character, then its text or its count on a line, then its body or its items. */
  lemma WireBytes(r: Reply)
    ensures r.Simple? ==> Wire(r) == Ascii("+") + (r.line + Ascii("\r\n"))
    ensures r.Error? ==> Wire(r) == Ascii("-") + (r.line + Ascii("\r\n"))
    ensures r.Integer? ==> Wire(r) == Ascii(":") + (SignedText(r.n) + Ascii("\r\n"))
    ensures r.Bulk? && r.body.None? ==> Wire(r) == Ascii("$-1\r\n")
    ensures r.Bulk? && r.body.Some? ==> var b := r.body.value;
      Wire(r) == (Ascii("$") + (Decimal(|b|) + Ascii("\r\n"))) + (b + Ascii("\r\n"))
    ensures r.Array? ==> Wire(r) == (Ascii("*") + (Decimal(|r.items|) + Ascii("\r\n"))) + Wires(r.items)
  {
    hide Wires, Ascii, Decimal;
    Marks();
    NullBulk();
  }

  lemma NullBulk()
    ensures Wire(Bulk(None)) == Ascii("$-1\r\n")
  {
    assert Decimal(1) == [0x31];
  }

  // ----- what the load generator's parser makes of it -----

  /** Nothing yet, or nothing it knows. */
  lemma BenchWaitsOrRefuses(s: seq<byte>)
    ensures s == [] ==> Parse(s) == NeedMore
    ensures s != [] && s[0] !in Ascii("+-:$*") ==> Parse(s) == Protocol(UnknownLead)
    ensures s != [] && s[0] in Ascii("+-:$*") && OneTextLine(s[1..]) ==> Parse(s) == NeedMore
  {
    hide ParseI64;
    if s != [] {
      assert Ascii("+-:$*") == [0x2B, 0x2D, 0x3A, 0x24, 0x2A];
      assert KnownLead(s[0]) <==> s[0] in Ascii("+-:$*");
      if OneTextLine(s[1..]) {
        NoLineEnd(s[1..]);
      }
    }
  }

  /** One complete line behind each lead character, whatever follows it. */
  lemma BenchReadsText(line: seq<byte>, rest: seq<byte>)
    requires OneTextLine(line)
    ensures Parse(LineOf('+' as int, line, rest)) == Done(Simple(line), |line| + 3)
    ensures Parse(LineOf('-' as int, line, rest)) == Done(Error(line), |line| + 3)
    ensures Parse(LineOf(':' as int, line, rest)) ==
      match ParseI64(line) case None => Protocol(BadInteger) case Some(n) => Done(Integer(n), |line| + 3)
  {
    hide ParseI64, Line, ParseItems, ParseBody, LineOf;
    LineParts('+' as int, line, rest);
    LineParts('-' as int, line, rest);
    LineParts(':' as int, line, rest);
  }

  /** A length line and as many bytes; a negative length is no value, and the two bytes behind the body are skipped. */
  lemma BenchReadsBulk(line: seq<byte>, rest: seq<byte>)
    requires OneTextLine(line)
    ensures Parse(LineOf('$' as int, line, rest)) ==
      match ParseI64(line)
      case None => Protocol(BadBulkLength)
      case Some(n) =>
        if n < 0 then Done(Bulk(None), |line| + 3)
        else if |rest| < n + 2 then NeedMore
        else Done(Bulk(Some(rest[..n])), |line| + 3 + n + 2)
  {
    hide ParseI64, Line, ParseItems, LineOf;
    LineParts('$' as int, line, rest);
    var s, n := LineOf('$' as int, line, rest), ParseI64(line);
    if n.Some? && 0 <= n.value && n.value + 2 <= |rest| {
      assert s[|line| + 3 + 0..|line| + 3 + n.value] == rest[0..n.value];
    }
  }

  /** A count line and as many replies; a negative count is an array without any. */
  lemma BenchReadsArray(line: seq<byte>, rest: seq<byte>)
    requires OneTextLine(line)
    ensures Parse(LineOf('*' as int, line, rest)) ==
      match ParseI64(line)
      case None => Protocol(BadArrayCount)
      case Some(n) =>
        if n < 0 then Done(Array([]), |line| + 3)
        else
          match ParseItems(rest, n)
          case Done(items, used) => Done(Array(items), |line| + 3 + used)
          case NeedMore => NeedMore
          case Protocol(fault) => Protocol(fault)
  {
    hide ParseI64, Line, ParseItems, LineOf;
    LineParts('*' as int, line, rest);
  }

  lemma LineText(lead: char, line: string, rest: string)
    ensures LineOf(Code(lead), Ascii(line), Ascii(rest)) == Ascii([lead] + line + "\r\n" + rest)
  {
  }

  lemma ShortLines(line: string)
    requires |line| <= 5 && forall i :: 0 <= i < |line| ==> line[i] != '\n'
    ensures OneTextLine(Ascii(line))
  {
  }

  /** A status, an error, a number, a miss and a value: the replies the commands in use get. */
  lemma BenchExamples()
    ensures Parse(Ascii("+OK\r\n")) == Done(Simple(Ascii("OK")), 5)
    ensures Parse(Ascii("-ERR x\r\n")) == Done(Error(Ascii("ERR x")), 8)
    ensures Parse(Ascii(":1\r\n")) == Done(Integer(1), 4)
    ensures Parse(Ascii("$-1\r\n")) == Done(Bulk(None), 5)
    ensures Parse(Ascii("$2\r\nhi\r\n")) == Done(Bulk(Some(Ascii("hi"))), 8)
  {
    hide Parse, LineOf, ParseI64, OneTextLine;
    ParseSmall();
    assert Ascii("") == [];
    assert Parse(Ascii("+OK\r\n")) == Done(Simple(Ascii("OK")), 5) by {
      ShortLines("OK");
      BenchReadsText(Ascii("OK"), []);
      LineText('+', "OK", "");
      assert ['+'] + "OK" + "\r\n" + "" == "+OK\r\n";
    }
    assert Parse(Ascii("-ERR x\r\n")) == Done(Error(Ascii("ERR x")), 8) by {
      ShortLines("ERR x");
      BenchReadsText(Ascii("ERR x"), []);
      LineText('-', "ERR x", "");
      assert ['-'] + "ERR x" + "\r\n" + "" == "-ERR x\r\n";
    }
    assert Parse(Ascii(":1\r\n")) == Done(Integer(1), 4) by {
      ShortLines("1");
      BenchReadsText(Ascii("1"), []);
      LineText(':', "1", "");
      assert [':'] + "1" + "\r\n" + "" == ":1\r\n";
    }
    assert Parse(Ascii("$-1\r\n")) == Done(Bulk(None), 5) by {
      ShortLines("-1");
      BenchReadsBulk(Ascii("-1"), []);
      LineText('$', "-1", "");
      assert ['$'] + "-1" + "\r\n" + "" == "$-1\r\n";
    }
    assert Parse(Ascii("$2\r\nhi\r\n")) == Done(Bulk(Some(Ascii("hi"))), 8) by {
      ShortLines("2");
      BenchReadsBulk(Ascii("2"), Ascii("hi\r\n"));
      LineText('$', "2", "hi\r\n");
      assert ['$'] + "2" + "\r\n" + "hi\r\n" == "$2\r\nhi\r\n";
      assert Ascii("hi\r\n")[..2] == Ascii("hi");
    }
  }

  lemma ParseSmall()
    ensures ParseI64(Ascii("1")) == Some(1) && ParseI64(Ascii("2")) == Some(2) && ParseI64(Ascii("-1")) == Some(-1)
  {
    NoDigits();
    ValueSnoc([], 0x31);
    ValueSnoc([], 0x32);
    assert [] + [0x31] == Ascii("1") == Ascii("-1")[1..] && [] + [0x32] == Ascii("2");
    ParseI64Means(Ascii("1"), 1);
    ParseI64Means(Ascii("2"), 2);
    ParseI64Means(Ascii("-1"), -1);
  }

  // ----- what the bus client's parser makes of it -----

  /** Nothing yet, or an empty line, on which it panics. */
  lemma BusWaitsOrPanics(s: seq<byte>)
    ensures OneTextLine(s) ==> Bus.Parse(s) == Bus.NeedMore
    ensures Bus.Parse(s) == Bus.Panicked <==> |s| >= 2 && s[..2] == Ascii("\r\n")
  {
    hide ParseI64, U.Lossy;
    Marks();
    Bus.PanicsExactlyOnEmptyLine(s);
    assert |s| >= 2 ==> (s[..2] == CRLF <==> s[0] == CR && s[1] == LF);
    if OneTextLine(s) {
      NoLineEnd(s);
    }
  }

  lemma BusLineParts(lead: byte, line: seq<byte>, rest: seq<byte>)
    requires OneTextLine([lead] + line)
    ensures var s := LineOf(lead, line, rest);
      && s[0] == lead && FindCrlf(s) == Some(|line| + 1) && s[1..|line| + 1] == line && |line| + 3 <= |s|
      && |s| == |line| + 3 + |rest|
      && (forall i, j :: 0 <= i <= j <= |rest| ==> s[|line| + 3 + i..|line| + 3 + j] == rest[i..j])
  {
    hide FindCrlf;
    var s, t := LineOf(lead, line, rest), [lead] + line;
    assert s == t + Ascii("\r\n") + rest;
    assert CrlfAt(s, |t|);
    forall i | 0 <= i < |t| ensures !CrlfAt(s, i) {
      assert i + 1 < |t| ==> s[i] == t[i] && s[i + 1] == t[i + 1];
    }
    FindCrlfIs(s, |t|);
  }

  /** One complete line behind each lead byte, whatever follows it. */
  lemma BusReadsText(lead: byte, line: seq<byte>, rest: seq<byte>)
    requires OneTextLine([lead] + line) && lead != '$' as int
    ensures Bus.Parse(LineOf(lead, line, rest)) ==
      if lead == '+' as int then Bus.Done(Bus.Simple(U.Lossy(line)), |line| + 3)
      else if lead == '-' as int then Bus.Done(Bus.Error(U.Lossy(line)), |line| + 3)
      else if lead != ':' as int then Bus.Protocol(Bus.UnsupportedKind)
      else
        match ParseI64(line)
        case None => Bus.Protocol(Bus.MalformedInteger)
        case Some(n) => Bus.Done(Bus.Integer(n), |line| + 3)
  {
    hide ParseI64, U.Lossy, LineOf, FindCrlf;
    BusLineParts(lead, line, rest);
  }

  /** A length line and as many bytes; unlike the other parser this one wants the line end behind them. */
  lemma BusReadsBulk(line: seq<byte>, rest: seq<byte>)
    requires OneTextLine(['$' as int] + line)
    ensures Bus.Parse(LineOf('$' as int, line, rest)) ==
      match ParseI64(line)
      case None => Bus.Protocol(Bus.MalformedBulkLength)
      case Some(n) =>
        if n < 0 then Bus.Done(Bus.Bulk(None), |line| + 3)
        else if |rest| < n + 2 then Bus.NeedMore
        else if rest[n..n + 2] != Ascii("\r\n") then Bus.Protocol(Bus.BodyNotTerminated)
        else Bus.Done(Bus.Bulk(Some(rest[..n])), |line| + 3 + n + 2)
  {
    hide ParseI64, U.Lossy, LineOf, FindCrlf, Ascii, OneTextLine;
    Marks();
    BusLineParts('$' as int, line, rest);
    var s, n := LineOf('$' as int, line, rest), ParseI64(line);
    if n.Some? && 0 <= n.value && n.value + 2 <= |rest| {
      assert s[|line| + 3 + 0..|line| + 3 + n.value] == rest[0..n.value];
      assert s[|line| + 3 + n.value..|line| + 3 + (n.value + 2)] == rest[n.value..n.value + 2];
    }
  }

  lemma LossyText(text: string)
    requires |text| <= 5 && forall i :: 0 <= i < |text| ==> text[i] as int < 0x80
    ensures U.Lossy(Ascii(text)) == Ascii(text)
  {
    var s := Ascii(text);
    AsciiIsUtf8(s);
    U.LossyKeepsValid(s);
  }

  lemma {:induction false} AsciiIsUtf8(s: seq<byte>)
    requires forall i :: 0 <= i < |s| ==> s[i] < 0x80
    ensures U.IsUtf8(s)
  {
    if s != [] {
      AsciiIsUtf8(s[1..]);
    }
  }

  lemma ShortLead(lead: char, line: string)
    requires |line| <= 5 && lead != '\r' && forall i :: 0 <= i < |line| ==> line[i] != '\n'
    ensures OneTextLine([Code(lead)] + Ascii(line))
  {
  }

  /** The same five replies. */
  lemma BusExamples()
    ensures Bus.Parse(Ascii("+OK\r\n")) == Bus.Done(Bus.Simple(Ascii("OK")), 5)
    ensures Bus.Parse(Ascii("-ERR x\r\n")) == Bus.Done(Bus.Error(Ascii("ERR x")), 8)
    ensures Bus.Parse(Ascii(":1\r\n")) == Bus.Done(Bus.Integer(1), 4)
    ensures Bus.Parse(Ascii("$-1\r\n")) == Bus.Done(Bus.Bulk(None), 5)
    ensures Bus.Parse(Ascii("$2\r\nhi\r\n")) == Bus.Done(Bus.Bulk(Some(Ascii("hi"))), 8)
  {
    hide Bus.Parse, LineOf, ParseI64, OneTextLine, U.Lossy;
    ParseSmall();
    assert Ascii("") == [];
    assert Bus.Parse(Ascii("+OK\r\n")) == Bus.Done(Bus.Simple(Ascii("OK")), 5) by {
      ShortLead('+', "OK");
      BusReadsText(Code('+'), Ascii("OK"), Ascii(""));
      LineText('+', "OK", "");
      LossyText("OK");
      assert ['+'] + "OK" + "\r\n" + "" == "+OK\r\n";
    }
    assert Bus.Parse(Ascii("-ERR x\r\n")) == Bus.Done(Bus.Error(Ascii("ERR x")), 8) by {
      ShortLead('-', "ERR x");
      BusReadsText(Code('-'), Ascii("ERR x"), Ascii(""));
      LineText('-', "ERR x", "");
      LossyText("ERR x");
      assert ['-'] + "ERR x" + "\r\n" + "" == "-ERR x\r\n";
    }
    assert Bus.Parse(Ascii(":1\r\n")) == Bus.Done(Bus.Integer(1), 4) by {
      ShortLead(':', "1");
      BusReadsText(Code(':'), Ascii("1"), Ascii(""));
      LineText(':', "1", "");
      assert [':'] + "1" + "\r\n" + "" == ":1\r\n";
    }
    assert Bus.Parse(Ascii("$-1\r\n")) == Bus.Done(Bus.Bulk(None), 5) by {
      ShortLead('$', "-1");
      BusReadsBulk(Ascii("-1"), Ascii(""));
      LineText('$', "-1", "");
      assert ['$'] + "-1" + "\r\n" + "" == "$-1\r\n";
    }
    assert Bus.Parse(Ascii("$2\r\nhi\r\n")) == Bus.Done(Bus.Bulk(Some(Ascii("hi"))), 8) by {
      ShortLead('$', "2");
      BusReadsBulk(Ascii("2"), Ascii("hi\r\n"));
      LineText('$', "2", "hi\r\n");
      assert ['$'] + "2" + "\r\n" + "hi\r\n" == "$2\r\nhi\r\n";
      assert Ascii("hi\r\n")[..2] == Ascii("hi") && Ascii("hi\r\n")[2..4] == Ascii("\r\n");
    }
  }
}
