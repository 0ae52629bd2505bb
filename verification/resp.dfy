/**
  The RESP client of the Redis guest adapter: `fill`, `readLine`, `readN`,
  `readReply` and the request that `cmd` prints.
 */
module Resp {
  import opened Exchange
  import opened Bytes
  import opened Text

  const CR: Byte := 13
  const LF: Byte := 10

  /** A reply value. A `:` reply whose digits do not parse is NaN (`None`). */
  datatype Value =
    | Simple(s: Bytes)
    | Number(n: Option<int>)
    | Bulk(b: Bytes)
    | Null
    | Array(items: seq<Value>)

  /** `Thrown`: an error reply or an unknown type octet. `Lost`: the connection closed. */
  datatype Result = Got(value: Value) | Thrown(line: Bytes) | Lost

  // ---- the byte stream -------------------------------------------------------

  /** Index of the first CR LF at or after `from`, or |s|. */
  function FindCrlf(s: Bytes, from: nat): (i: nat)
    requires from <= |s|
    ensures from <= i <= |s|
    ensures i < |s| ==> i + 1 < |s| && s[i] == CR && s[i + 1] == LF
    decreases |s| - from
  {
    if from + 1 >= |s| then |s|
    else if s[from] == CR && s[from + 1] == LF then from
    else FindCrlf(s, from + 1)
  }

  /** `None` for NaN, or how many octets `readN(n)` takes. */
  function CountOf(n: Option<int>): (k: int)
  {
    match n case Some(v) => v case None => 0
  }

  /** `readReply` on a stream: the result, and what it leaves unread. */
  function Reply(s: Bytes): (r: (Result, Bytes))
    ensures |r.1| <= |s|
    ensures r.0.Got? ==> |r.1| < |s|
    decreases |s|, 1
  {
    var i := FindCrlf(s, 0);
    if i == |s| then (Lost, s)
    else
      var line, after := s[..i], s[i + 2..];
      if line == [] then (Thrown(line), after)
      else
        var n := ParseInt(FromAscii(line[1..]));
        if line[0] == '+' as int then (Got(Simple(line[1..])), after)
        else if line[0] == '-' as int then (Thrown(line), after)
        else if line[0] == ':' as int then (Got(Number(n)), after)
        else if line[0] == '$' as int then BulkReply(CountOf(n), after)
        else if line[0] == '*' as int then
          if CountOf(n) < 0 then (Got(Null), after) else ArrayReply(CountOf(n), [], after)
        else (Thrown(line), after)
  }

  /** The body of a bulk reply: `len` octets, then two more that are not looked at. */
  function BulkReply(len: int, s: Bytes): (r: (Result, Bytes))
    ensures |r.1| <= |s|
  {
    if len < 0 then (Got(Null), s)
    else if |s| < len then (Lost, s)
    else if |s| < len + 2 then (Lost, s[len..])
    else (Got(Bulk(s[..len])), s[len + 2..])
  }

  /** The remaining `count` items of an array reply. */
  function ArrayReply(count: nat, items: seq<Value>, s: Bytes): (r: (Result, Bytes))
    ensures |r.1| <= |s|
    decreases |s|, 2, count
  {
    if count == 0 then (Got(Array(items)), s)
    else
      var (item, rest) := Reply(s);
      if item.Got? then ArrayReply(count - 1, items + [item.value], rest) else (item, rest)
  }

  lemma ArrayReplyStep(count: nat, items: seq<Value>, s: Bytes)
    ensures
      var (item, rest) := Reply(s);
      ArrayReply(count, items, s) ==
      if count == 0 then (Got(Array(items)), s)
      else if item.Got? then ArrayReply(count - 1, items + [item.value], rest)
      else (item, rest)
  {
    hide Reply;
  }

  // ---- the client's state ----------------------------------------------------

  class Client {
    var rbuf: Bytes
    var net: seq<Bytes>

    constructor (net: seq<Bytes>)
      ensures rbuf == [] && this.net == net
    {
      rbuf, this.net := [], net;
    }

    /** The bytes not yet handed to a caller: the buffer, then the chunks to come. */
    function Unread(): (s: Bytes)
      reads this
    {
      rbuf + Flat(net)
    }

    /** `fill()`: false is the "connection closed" error. */
    method Fill() returns (ok: bool)
      modifies this
      ensures Unread() == old(Unread())
      ensures ok == (old(net) != [])
      ensures ok ==> |net| < old(|net|) && |rbuf| >= old(|rbuf|)
      ensures !ok ==> rbuf == old(rbuf) && net == old(net)
    {
      if net == [] {
        return false;
      }
      assert Flat(net) == net[0] + Flat(net[1..]);
      rbuf, net := rbuf + net[0], net[1..];
      ok := true;
    }

    /** `readLine()`: the bytes up to the first CR LF of the stream, wherever the chunks fall. */
    method ReadLine() returns (line: Option<Bytes>)
      modifies this
      ensures
        var s := old(Unread());
        var i := FindCrlf(s, 0);
        if i == |s| then line == None && Unread() == s
        else line == Some(s[..i]) && Unread() == s[i + 2..]
    {
      ghost var s := Unread();
      while true
        invariant Unread() == s
        decreases |net|
      {
        var i := 0;
        while i + 1 < |rbuf|
          invariant 0 <= i
          invariant i <= |s| && FindCrlf(s, i) == FindCrlf(s, 0)
          invariant Unread() == s
        {
          assert s[i] == rbuf[i] && s[i + 1] == rbuf[i + 1];
          if rbuf[i] == CR && rbuf[i + 1] == LF {
            line := Some(rbuf[..i]);
            assert s[..i] == rbuf[..i];
            assert s[i + 2..] == rbuf[i + 2..] + Flat(net);
            rbuf := rbuf[i + 2..];
            return;
          }
          i := i + 1;
        }
        var ok := Fill();
        if !ok {
          assert Flat(net) == [] && rbuf == s;
          return None;
        }
      }
    }

    /** `readN(n)`. */
    method ReadN(n: int) returns (out: Option<Bytes>)
      requires n >= 0
      modifies this
      ensures
        var s := old(Unread());
        if |s| < n then out == None && Unread() == s
        else out == Some(s[..n]) && Unread() == s[n..]
    {
      ghost var s := Unread();
      while |rbuf| < n
        invariant Unread() == s
        decreases |net|
      {
        var ok := Fill();
        if !ok {
          assert Flat(net) == [] && rbuf == s;
          return None;
        }
      }
      out := Some(rbuf[..n]);
      assert s[..n] == rbuf[..n];
      assert s[n..] == rbuf[n..] + Flat(net);
      rbuf := rbuf[n..];
    }

    /** `readReply()`: a function of the byte stream alone, leaving exactly its unread suffix. */
    method ReadReply() returns (result: Result)
      modifies this
      ensures (result, Unread()) == Reply(old(Unread()))
      decreases |Unread()|, 1
    {
      ghost var s := Unread();
      var line := ReadLine();
      if line.None? {
        return Lost;
      }
      if line.value == [] {
        return Thrown(line.value);
      }
      var t, n := line.value[0], ParseInt(FromAscii(line.value[1..]));
      if t == '+' as int {
        result := Got(Simple(line.value[1..]));
      } else if t == '-' as int {
        result := Thrown(line.value);
      } else if t == ':' as int {
        result := Got(Number(n));
      } else if t == '$' as int {
        result := ReadBulk(CountOf(n));
      } else if t == '*' as int {
        if CountOf(n) < 0 {
          return Got(Null);
        }
        result := ReadItems(CountOf(n));
      } else {
        result := Thrown(line.value);
      }
    }

    method ReadBulk(len: int) returns (result: Result)
      modifies this
      ensures (result, Unread()) == BulkReply(len, old(Unread()))
    {
      if len < 0 {
        return Got(Null);
      }
      ghost var s := Unread();
      var data := ReadN(len);
      if data.None? {
        return Lost;
      }
      var crlf := ReadN(2);
      if crlf.None? {
        return Lost;
      }
      assert s[len..][2..] == s[len + 2..];
      result := Got(Bulk(data.value));
    }

    method ReadItems(count: nat) returns (result: Result)
      modifies this
      ensures (result, Unread()) == ArrayReply(count, [], old(Unread()))
      decreases |Unread()|, 2
    {
      hide Reply, ArrayReply;
      ghost var s := Unread();
      var arr: seq<Value> := [];
      var k := 0;
      while k < count
        invariant 0 <= k <= count && |Unread()| <= |s|
        invariant ArrayReply(count - k, arr, Unread()) == ArrayReply(count, [], s)
      {
        ArrayReplyStep(count - k, arr, Unread());
        var item := ReadReply();
        if !item.Got? {
          return item;
        }
        arr := arr + [item.value];
        k := k + 1;
      }
      ArrayReplyStep(0, arr, Unread());
      result := Got(Array(arr));
    }
  }

  // ---- requests --------------------------------------------------------------

  /** A bulk string as `cmd` prints it: `$<length>\r\n<octets>\r\n`. */
  function PrintBulk(a: Bytes): (r: Bytes)
  {
    ['$' as int] + Ascii(Print(|a|)) + [CR, LF] + a + [CR, LF]
  }

  function PrintBulks(args: seq<Bytes>): (r: Bytes)
  {
    if args == [] then [] else PrintBulk(args[0]) + PrintBulks(args[1..])
  }

  /** The request `cmd(...args)` writes. */
  function PrintCommand(args: seq<Bytes>): (r: Bytes)
  {
    ['*' as int] + Ascii(Print(|args|)) + [CR, LF] + PrintBulks(args)
  }

  method Cmd(args: seq<Bytes>) returns (s: Bytes)
    ensures s == PrintCommand(args)
  {
    s := ['*' as int] + Ascii(Print(|args|)) + [CR, LF];
    ghost var head := s;
    var i := 0;
    while i < |args|
      invariant 0 <= i <= |args|
      invariant s + PrintBulks(args[i..]) == head + PrintBulks(args)
    {
      assert args[i..][1..] == args[i + 1..];
      assert s + PrintBulks(args[i..]) == (s + PrintBulk(args[i])) + PrintBulks(args[i + 1..]);
      s := s + PrintBulk(args[i]);
      i := i + 1;
    }
    assert args[i..] == [];
  }

  function Bulks(args: seq<Bytes>): (r: seq<Value>)
    ensures |r| == |args|
  {
    seq(|args|, i requires 0 <= i < |args| => Bulk(args[i]))
  }

  /** No CR LF in it. */
  predicate OneLine(text: Bytes) {
    forall j :: 0 <= j < |text| - 1 ==> !(text[j] == 13 && text[j + 1] == 10)
  }

  lemma {:induction false} FindCrlfAt(s: Bytes, from: nat, i: nat)
    requires from <= i && i + 1 < |s| && s[i] == CR && s[i + 1] == LF
    requires forall j :: from <= j < i ==> !(s[j] == CR && s[j + 1] == LF)
    ensures FindCrlf(s, from) == i
    decreases i - from
  {
    if from < i { FindCrlfAt(s, from + 1, i); }
  }

  /** A line is found whole, wherever what follows it may end. */
  lemma FindLine(t: Byte, text: Bytes, rest: Bytes)
    requires t != CR && OneLine(text)
    ensures
      var s := [t] + text + [CR, LF] + rest;
      var i := FindCrlf(s, 0);
      && i == 1 + |text| && s[..i] == [t] + text && s[i + 2..] == rest
  {
    var s := [t] + text + [CR, LF] + rest;
    var i := 1 + |text|;
    forall j | 0 <= j < i ensures !(s[j] == CR && s[j + 1] == LF) {
      assert j > 0 ==> s[j] == text[j - 1];
      assert j + 1 < i ==> s[j + 1] == text[j];
    }
    FindCrlfAt(s, 0, i);
    assert s[..i] == [t] + text;
  }

  /** A reply whose first line is known. */
  lemma ReplyLine(t: Byte, text: Bytes, rest: Bytes)
    requires t != CR && OneLine(text)
    ensures
      var n := ParseInt(FromAscii(text));
      Reply([t] + text + [CR, LF] + rest) ==
      if t == 43 then (Got(Simple(text)), rest)
      else if t == 45 then (Thrown([t] + text), rest)
      else if t == 58 then (Got(Number(n)), rest)
      else if t == 36 then BulkReply(CountOf(n), rest)
      else if t == 42 then (if CountOf(n) < 0 then (Got(Null), rest) else ArrayReply(CountOf(n), [], rest))
      else (Thrown([t] + text), rest)
  {
    FindLine(t, text, rest);
    assert ([t] + text)[1..] == text;
    hide FindCrlf, ParseInt, ArrayReply, BulkReply;
  }

  /** A printed number is one line, and parses back. */
  lemma NumberLine(n: int)
    ensures OneLine(Ascii(PrintInt(n))) && ParseInt(FromAscii(Ascii(PrintInt(n)))) == Some(n)
  {
    var digits := Ascii(PrintInt(n));
    forall j | 0 <= j < |digits| ensures digits[j] != CR {
      assert digits[j] == PrintInt(n)[j] as int;
    }
    AsciiRoundTrip(PrintInt(n));
    ParseIntOfPrint(n);
  }

  lemma ReplyOfBulk(a: Bytes, rest: Bytes)
    ensures Reply(PrintBulk(a) + rest) == (Got(Bulk(a)), rest)
  {
    hide Reply, ParseInt, OneLine;
    var body, digits := a + [CR, LF] + rest, Ascii(PrintInt(|a|));
    NumberLine(|a|);
    ReplyLine(36, digits, body);
    assert PrintBulk(a) + rest == [36] + digits + [CR, LF] + body;
    assert body[..|a|] == a && body[|a| + 2..] == rest;
  }

  lemma {:induction false} ReplyOfBulks(args: seq<Bytes>, items: seq<Value>, rest: Bytes)
    ensures ArrayReply(|args|, items, PrintBulks(args) + rest) == (Got(Array(items + Bulks(args))), rest)
    decreases |args|
  {
    hide Reply, ArrayReply, PrintBulk;
    ArrayReplyStep(|args|, items, PrintBulks(args) + rest);
    if args == [] {
      assert items + Bulks(args) == items;
      assert PrintBulks(args) + rest == rest;
    } else {
      var more := PrintBulks(args[1..]) + rest;
      assert PrintBulks(args) + rest == PrintBulk(args[0]) + more;
      ReplyOfBulk(args[0], more);
      ReplyOfBulks(args[1..], items + [Bulk(args[0])], rest);
      assert items + [Bulk(args[0])] + Bulks(args[1..]) == items + Bulks(args);
    }
  }

  /** A printed command parses back to its arguments, whatever octets (CR LF too) they hold. */
  lemma CommandRoundTrip(args: seq<Bytes>, rest: Bytes)
    ensures Reply(PrintCommand(args) + rest) == (Got(Array(Bulks(args))), rest)
  {
    hide Reply, ParseInt, ArrayReply, PrintBulks, OneLine;
    var body, digits := PrintBulks(args) + rest, Ascii(PrintInt(|args|));
    NumberLine(|args|);
    ReplyLine(42, digits, body);
    assert PrintCommand(args) + rest == [42] + digits + [CR, LF] + body;
    ReplyOfBulks(args, [], rest);
    assert [] + Bulks(args) == Bulks(args);
  }

  // ---- replies ---------------------------------------------------------------

  /** A reply as a server writes it (Redis serialization protocol, version 2). */
  function Wire(v: Value): (r: Bytes)
  {
    match v
    case Simple(s) => [43] + s + [13, 10]
    case Number(n) => [58] + (if n.Some? then Ascii(PrintInt(n.value)) else []) + [13, 10]
    case Bulk(b) => [36] + Ascii(PrintInt(|b|)) + [13, 10] + b + [13, 10]
    case Null => [36, 45, 49, 13, 10]
    case Array(items) => [42] + Ascii(PrintInt(|items|)) + [13, 10] + WireAll(items)
  }

  function WireAll(items: seq<Value>): (r: Bytes)
  {
    if items == [] then [] else Wire(items[0]) + WireAll(items[1..])
  }

  /** A simple string is one line. */
  predicate Plain(v: Value) {
    (v.Simple? ==> OneLine(v.s)) && (v.Array? ==> forall i :: 0 <= i < |v.items| ==> Plain(v.items[i]))
  }

  /** Every reply a server writes, of whatever kind and depth, is read as what it stands for, and no further. */
  lemma {:induction false} ReplyRoundTrip(v: Value, rest: Bytes)
    requires Plain(v)
    ensures Reply(Wire(v) + rest) == (Got(v), rest)
    decreases v
  {
    hide Reply, ArrayReply, WireAll, ParseInt;
    match v
    case Simple(s) =>
      ReplyLine(43, s, rest);
    case Number(n) =>
      NumberReply(n, rest);
    case Bulk(b) =>
      ReplyOfBulk(b, rest);
    case Null =>
      NullReplies(rest);
    case Array(items) =>
      ItemsRoundTrip(v, items, [], rest);
      assert [] + items == items;
      ArrayWire(items, rest);
  }

  lemma NumberReply(n: Option<int>, rest: Bytes)
    ensures Reply(Wire(Number(n)) + rest) == (Got(Number(n)), rest)
  {
    assert ParseInt(FromAscii([])) == None;
    hide Reply, ParseInt, OneLine;
    if n.Some? {
      NumberLine(n.value);
      ReplyLine(58, Ascii(PrintInt(n.value)), rest);
    } else {
      ReplyLine(58, [], rest);
    }
  }

  lemma Regroup(a: Bytes, b: Bytes, c: Bytes)
    ensures a + b + c == a + (b + c)
  {
  }

  lemma ArrayWire(items: seq<Value>, rest: Bytes)
    ensures Reply(Wire(Array(items)) + rest) == ArrayReply(|items|, [], WireAll(items) + rest)
  {
    var digits, body := Ascii(PrintInt(|items|)), WireAll(items);
    var header := [42] + digits + [13, 10];
    assert Wire(Array(items)) == header + body;
    hide *;
    NumberLine(|items|);
    ReplyLine(42, digits, body + rest);
    Regroup(header, body, rest);
    assert CountOf(Some(|items|)) == |items| by { Counts(|items|); }
  }

  lemma Counts(n: int)
    ensures CountOf(Some(n)) == n
  {
  }

  lemma {:induction false} ItemsRoundTrip(v: Value, items: seq<Value>, done: seq<Value>, rest: Bytes)
    requires v.Array? && Plain(v) && |items| <= |v.items| && v.items[|v.items| - |items|..] == items
    ensures ArrayReply(|items|, done, WireAll(items) + rest) == (Got(Array(done + items)), rest)
    decreases v, |items|
  {
    hide Reply, ArrayReply, Wire;
    ArrayReplyStep(|items|, done, WireAll(items) + rest);
    if items == [] {
      assert done + items == done && WireAll(items) + rest == rest;
    } else {
      var more := WireAll(items[1..]) + rest;
      assert WireAll(items) + rest == Wire(items[0]) + more;
      assert items[0] == v.items[|v.items| - |items|];
      ReplyRoundTrip(items[0], more);
      ItemsRoundTrip(v, items[1..], done + [items[0]], rest);
      assert done + [items[0]] + items[1..] == done + items;
    }
  }

  lemma MinusOne()
    ensures Ascii(PrintInt(-1)) == [45, 49]
  {
    assert Print(1) == "1" && PrintInt(-1) == "-1";
  }

  /** Both null forms are null. */
  lemma NullReplies(rest: Bytes)
    ensures Reply([36, 45, 49, 13, 10] + rest) == (Got(Null), rest)
    ensures Reply([42, 45, 49, 13, 10] + rest) == (Got(Null), rest)
  {
    var line: Bytes := [45, 49];
    assert [36] + line + [CR, LF] == [36, 45, 49, 13, 10] && [42] + line + [CR, LF] == [42, 45, 49, 13, 10];
    assert BulkReply(-1, rest) == (Got(Null), rest);
    hide *;
    MinusOne();
    NumberLine(-1);
    Counts(-1);
    ReplyLine(36, line, rest);
    ReplyLine(42, line, rest);
  }

  /** An error reply is thrown with its line, and what follows it is left. */
  lemma ErrorReply(text: Bytes, rest: Bytes)
    requires OneLine(text)
    ensures Reply([45] + text + [13, 10] + rest) == (Thrown([45] + text), rest)
  {
    hide Reply;
    ReplyLine(45, text, rest);
  }

  // ---- sent again ------------------------------------------------------------

  /** No socket, one dead to the write, or one with the bytes its peer will send. */
  datatype Socket = Absent | Dead | Live(stream: Bytes)

  /** `cmd` on a socket: it throws on an error reply, an unknown type octet or a closed connection. */
  function TryOn(socket: Socket): (t: Try<Value>)
  {
    if socket.Live? && Reply(socket.stream).0.Got? then Try(true, Some(Reply(socket.stream).0.value))
    else Try(socket.Live?, None)
  }

  /** A command is written at most twice: again exactly when a live socket gave no value, an error reply included. */
  method CmdExchange(pooled: Socket, connected: Socket, reconnected: Socket) returns (reply: Option<Value>, writes: nat)
    ensures var first := if pooled.Absent? then connected else pooled;
      && writes <= 2
      && (writes == 2 <==> first.Live? && !Reply(first.stream).0.Got? && reconnected.Live?)
      && (reply.Some? ==> writes >= 1)
  {
    var first := if pooled.Absent? then connected else pooled;
    var alive;
    reply, writes, alive := Exchange.Run(
      Sockets(!pooled.Absent?, !connected.Absent?, TryOn(first), !reconnected.Absent?, TryOn(reconnected)));
  }
}
