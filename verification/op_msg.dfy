/**
  OP_MSG framing over a socket that delivers bytes in chunks of any size: the
  adapter's `ensure` and the exchange inside `command`.
 */
module OpMsg {
  import opened Exchange
  import BsonOctets
  import Text
  import opened Bytes
  import opened Bson
  import opened BsonRoundTrip

  /** What one exchange yields. `Refused` is a reply whose `ok` is falsy: an error, but consumed. */
  datatype Reply = Ok(reply: Object) | Refused(reply: Object) | Closed | Fault(why: Bson.Fault)

  /** The buffer, and the chunks still to come; after the last one the peer has closed. */
  datatype Input = Input(rbuf: Bytes, net: seq<Bytes>)

  function Stream(i: Input): (r: Bytes)
  {
    i.rbuf + Flat(i.net)
  }

  // ---- ensure(n) -------------------------------------------------------------

  function Pull(i: Input, n: int): (r: Input)
    decreases |i.net|
  {
    if |i.rbuf| >= n || i.net == [] then i else Pull(Input(i.rbuf + i.net[0], i.net[1..]), n)
  }

  /** Reading keeps the byte stream; it stops short only when the stream is exhausted. */
  lemma {:induction false} PullKeepsStream(i: Input, n: int)
    ensures Stream(Pull(i, n)) == Stream(i)
    ensures |Pull(i, n).rbuf| >= n || Pull(i, n).net == []
    ensures |Pull(i, n).rbuf| >= |i.rbuf|
    ensures |Pull(i, n).rbuf| >= n <==> |Stream(i)| >= n || |i.rbuf| >= n
    decreases |i.net|
  {
    if !(|i.rbuf| >= n || i.net == []) {
      var next := Input(i.rbuf + i.net[0], i.net[1..]);
      assert Stream(next) == Stream(i);
      PullKeepsStream(next, n);
    }
  }

  // ---- one reply -------------------------------------------------------------

  /** JavaScript truthiness. */
  predicate Truthy(v: Value) {
    match v
    case Undefined => false
    case Null => false
    case Bool(b) => b
    case Int(n) => n != 0
    case Double(bits) => !ZeroOrNan(bits)
    case Str(s) => s != []
    case _ => true
  }

  /** The octets of a zero, or of a NaN, in binary64. */
  predicate ZeroOrNan(bits: Bytes) {
    |bits| == 8 &&
    var word := FromLittleEndian(bits) % TWO_63;
    word == 0 || word > 0x7FF0_0000_0000_0000
  }

  const OK: Bytes := [111, 107]  // "ok"

  /** `reply.ok`, its own or inherited, is truthy. */
  predicate Accepted(reply: Object)
    decreases reply
  {
    if Owns(reply.fields, OK)
    then exists i :: 0 <= i < |reply.fields| && reply.fields[i].name == OK && Truthy(reply.fields[i].value)
    else reply.proto.Inner? && Accepted(reply.proto.obj)
  }

  /** `slice` with a possibly negative bound: negative counts from the end. */
  function SliceBound(len: int, n: nat): (k: nat)
    ensures k <= n
  {
    if len >= 0 then (if len < n then len else n) else (if n + len >= 0 then n + len else 0)
  }

  /** Parse the message at the head of the buffer, whose declared length is `len`. */
  function Parse(i: Input, len: int): (r: (Reply, Input))
  {
    var cut := SliceBound(len, |i.rbuf|);
    match DecodeDoc(i.rbuf[..cut], 21)
    case Failed(why) => (Fault(why), i)
    case Done(reply, _) =>
      (if Accepted(reply) then Ok(reply) else Refused(reply), Input(i.rbuf[cut..], i.net))
  }

  /** The exchange after the write, chunk by chunk, as the code performs it. */
  function Receive(i: Input): (r: (Reply, Input))
  {
    var four := Pull(i, 4);
    if |four.rbuf| < 4 then (Closed, four)
    else
      var len := GetI32(four.rbuf, 0);
      var all := Pull(four, len);
      if |all.rbuf| < len then (Closed, all) else Parse(all, len)
  }

  /** The same exchange on the byte stream, with no chunks in sight. */
  function Message(stream: Bytes): (r: (Reply, Bytes))
    requires WellFramed(stream)
  {
    if |stream| < 4 then (Closed, stream)
    else
      var len := GetI32(stream, 0);
      if |stream| < len then (Closed, stream)
      else
        match DecodeDoc(stream[..len], 21)
        case Failed(why) => (Fault(why), stream)
        case Done(reply, _) => (if Accepted(reply) then Ok(reply) else Refused(reply), stream[len..])
  }

  /** The declared length at the head of the stream is not negative. */
  predicate WellFramed(stream: Bytes) {
    |stream| >= 4 ==> GetI32(stream, 0) >= 0
  }

  /** However the bytes are cut into chunks, the reply and the unread bytes are the same. */
  lemma ChunkingIndependence(i: Input)
    requires WellFramed(Stream(i))
    ensures Receive(i).0 == Message(Stream(i)).0 && Stream(Receive(i).1) == Message(Stream(i)).1
  {
    var s := Stream(i);
    PullKeepsStream(i, 4);
    var four := Pull(i, 4);
    if |s| >= 4 {
      HeadOfStream(four);
      var len := GetI32(s, 0);
      PullKeepsStream(four, len);
      var all := Pull(four, len);
      if |s| >= len {
        assert s[..len] == all.rbuf[..len];
        assert s[len..] == all.rbuf[len..] + Flat(all.net);
      }
    }
  }

  lemma HeadOfStream(i: Input)
    requires |i.rbuf| >= 4
    ensures GetI32(i.rbuf, 0) == GetI32(Stream(i), 0)
  {
    assert i.rbuf[0..4] == Stream(i)[0..4];
  }

  /**
    A negative declared length makes the reply depend on the chunks: with only the
    four length octets buffered the exchange throws; with the whole stream buffered
    it parses whatever precedes the last -len octets.
   */
  lemma NegativeLengthDependsOnChunks(s: Bytes)
    requires |s| >= 4 && GetI32(s, 0) < 0
    requires DecodeDoc(s[..SliceBound(GetI32(s, 0), |s|)], 21) != Failed(Throws)
    ensures
      var whole, split := Input([], [s]), Input([], [s[..4], s[4..]]);
      && Stream(whole) == s && Stream(split) == s && Receive(whole).0 != Receive(split).0
  {
    var whole, split := Input([], [s]), Input([], [s[..4], s[4..]]);
    assert Flat([s]) == s + Flat([]) == s;
    assert Flat([s[..4], s[4..]]) == s[..4] + Flat([s[4..]]);
    assert Flat([s[4..]]) == s[4..] + Flat([]) == s[4..];
    assert Stream(split) == s[..4] + s[4..] == s;
    var len := GetI32(s, 0);
    assert Pull(whole, 4) == Input([] + s, []) == Input(s, []);
    assert Pull(split, 4) == Input([] + s[..4], [s[4..]]) == Input(s[..4], [s[4..]]);
    assert s[..4][0..4] == s[0..4];
    assert GetI32(s[..4], 0) == len;
    assert Receive(split).0 == Fault(Throws);
  }

  /** Streams that begin with these four length octets are read the same however they are cut. */
  ghost predicate Independent(head: Bytes) {
    forall i, j :: Stream(i) == Stream(j) && head <= Stream(i) ==>
      Receive(i).0 == Receive(j).0 && Stream(Receive(i).1) == Stream(Receive(j).1)
  }

  function Zeros(n: nat): (r: Bytes)
    ensures |r| == n
  {
    seq(n, i => 0)
  }

  /** A reply the decoder accepts in front of the octets a negative length cuts off. */
  lemma ReadableCut(head: Bytes) returns (s: Bytes)
    requires |head| == 4 && GetI32(head, 0) < 0
    ensures head <= s && GetI32(s, 0) == GetI32(head, 0)
    ensures DecodeDoc(s[..SliceBound(GetI32(s, 0), |s|)], 21) != Failed(Throws)
  {
    var len := GetI32(head, 0);
    var doc := EncodeDoc([]);
    assert EncodeFields([]) == [] && |doc| == 5;
    var front := head + Zeros(17) + doc;
    s := front + Zeros(-len);
    assert s[0..4] == head[0..4];
    assert s[..26] == front && front[21..26] == doc;
    assert SliceBound(len, |s|) == 26;
    DecodeEncoded(front, 21, []);
  }

  /** Reading is independent of the chunks for every stream with a given length if and only if it is not negative. */
  lemma ChunksDoNotMatterIff(head: Bytes)
    requires |head| == 4
    ensures Independent(head) <==> GetI32(head, 0) >= 0
  {
    if GetI32(head, 0) >= 0 {
      forall i, j | Stream(i) == Stream(j) && head <= Stream(i)
        ensures Receive(i).0 == Receive(j).0 && Stream(Receive(i).1) == Stream(Receive(j).1)
      {
        assert Stream(i)[0..4] == head[0..4];
        ChunkingIndependence(i);
        ChunkingIndependence(j);
      }
    } else {
      var s := ReadableCut(head);
      NegativeLengthDependsOnChunks(s);
    }
  }

  // ---- a whole session -------------------------------------------------------

  /** The replies to `n` commands in turn; the first failure closes the socket. */
  function Session(i: Input, n: nat): (r: (seq<Reply>, Input))
    decreases n
  {
    if n == 0 then ([], i)
    else
      var (reply, i') := Receive(i);
      if reply.Ok? then
        var (more, last) := Session(i', n - 1);
        ([reply] + more, last)
      else ([reply], i')
  }

  function Messages(stream: Bytes, n: nat): (r: (seq<Reply>, Bytes))
    requires WellFramedSession(stream, n)
    decreases n
  {
    if n == 0 then ([], stream)
    else
      var (reply, rest) := Message(stream);
      if reply.Ok? then
        var (more, last) := Messages(rest, n - 1);
        ([reply] + more, last)
      else ([reply], rest)
  }

  predicate WellFramedSession(stream: Bytes, n: nat)
    decreases n
  {
    n > 0 ==> WellFramed(stream) && (Message(stream).0.Ok? ==> WellFramedSession(Message(stream).1, n - 1))
  }

  /** Every way of cutting the bytes into chunks yields the same replies and leaves the same suffix. */
  lemma {:induction false} SessionIndependence(i: Input, n: nat)
    requires WellFramedSession(Stream(i), n)
    ensures Session(i, n).0 == Messages(Stream(i), n).0 && Stream(Session(i, n).1) == Messages(Stream(i), n).1
    decreases n
  {
    if n > 0 {
      ChunkingIndependence(i);
      if Receive(i).0.Ok? { SessionIndependence(Receive(i).1, n - 1); }
    }
  }

  // ---- requests --------------------------------------------------------------

  const DB_NAME: Bytes := [36, 100, 98]  // "$db"
  const OP_MSG: int := 2013

  /** The message `command` writes for a document, as request number `id`. */
  function Request(id: int, fields: seq<Field>, db: Bytes): (r: Bytes)
  {
    var body := EncodeDoc(Insert(fields, DB_NAME, Str(db)));
    PushI32(21 + |body|) + PushI32(id) + [0, 0, 0, 0] + PushI32(OP_MSG) + [0, 0, 0, 0] + [0] + body
  }

  lemma RequestLayout(id: int, fields: seq<Field>, db: Bytes, more: Bytes)
    requires 21 + |EncodeDoc(Insert(fields, DB_NAME, Str(db)))| < TWO_31
    ensures var body := EncodeDoc(Insert(fields, DB_NAME, Str(db)));
      var r := Request(id, fields, db);
      var s := r + more;
      && |r| == 21 + |body| && r[21..21 + |body|] == body
      && s[..|r|] == r && s[|r|..] == more && |s| >= 4 && GetI32(s, 0) == |r|
  {
    hide EncodeDoc, Insert;
    var body := EncodeDoc(Insert(fields, DB_NAME, Str(db)));
    var r := Request(id, fields, db);
    var s := r + more;
    assert s[0..4] == PushI32(21 + |body|);
    PrefixReads(s, 0, 21 + |body|);
    assert r[21..21 + |body|] == body;
  }

  /** The header and the body of a request, octet by octet: nothing answered, opcode 2013, no flags, one body section. */
  lemma RequestHeader(id: int, fields: seq<Field>, db: Bytes)
    ensures var r, body := Request(id, fields, db), EncodeDoc(Insert(fields, [0x24, 0x64, 0x62], Str(db)));
      && |r| == 21 + |body| && r[..4] == PushI32(|r|) && r[4..8] == PushI32(id) && r[8..12] == [0, 0, 0, 0]
      && r[12..16] == [0xDD, 0x07, 0, 0] && r[16..20] == [0, 0, 0, 0] && r[20] == 0 && r[21..] == body
  {
    hide EncodeDoc, Insert;
    BsonOctets.I32Octets(2013);
    hide PushI32;
  }

  /** A peer that frames the same way reads back the command, and consumes exactly the request. */
  lemma RequestParses(id: int, fields: seq<Field>, db: Bytes, more: Bytes)
    requires
      var doc := Insert(fields, DB_NAME, Str(db));
      JsObject(doc) && NulFreeFields(doc) && ExactFields(doc) && 21 + |EncodeDoc(doc)| < TWO_31
    ensures
      var doc := Insert(fields, DB_NAME, Str(db));
      var s := Request(id, fields, db) + more;
      && WellFramed(s) && Message(s).1 == more
      && var read := Object(NormalFields(doc), Shared);
      Message(s).0 == if Accepted(read) then Ok(read) else Refused(read)
  {
    hide EncodeDoc, Insert, Request, JsObject, NulFreeFields, ExactFields, NormalFields, DecodeDoc, Accepted;
    RequestLayout(id, fields, db, more);
    RoundTrip(Request(id, fields, db), 21, Insert(fields, DB_NAME, Str(db)));
  }

  // ---- replies ---------------------------------------------------------------

  /** A reply as a server frames it: the length, seventeen octets that are not looked at, and the document. */
  function Framed(head: Bytes, fields: seq<Field>): (r: Bytes)
  {
    PushI32(21 + |EncodeDoc(fields)|) + head + EncodeDoc(fields)
  }

  lemma FramedLayout(head: Bytes, fields: seq<Field>, more: Bytes)
    requires |head| == 17 && 21 + |EncodeDoc(fields)| < TWO_31
    ensures var body, r := EncodeDoc(fields), Framed(head, fields);
      var s := r + more;
      && |r| == 21 + |body| && r[21..21 + |body|] == body
      && s[..|r|] == r && s[|r|..] == more && |s| >= 4 && GetI32(s, 0) == |r|
  {
    hide EncodeDoc;
    var body, r := EncodeDoc(fields), Framed(head, fields);
    var s := r + more;
    assert s[0..4] == PushI32(21 + |body|);
    PrefixReads(s, 0, 21 + |body|);
    assert r[21..21 + |body|] == body;
  }

  /**
    The reply says yes: its `ok` is true, a number other than zero and NaN, a
    non-empty string, an object or an array.
   */
  predicate SaysYes(fields: seq<Field>) {
    exists i :: 0 <= i < |fields| && fields[i].name == [111, 107] &&
      match fields[i].value
      case Bool(b) => b
      case Int(n) => n != 0
      case Double(bits) =>
        |bits| == 8 ==>
          var word := FromLittleEndian(bits) % 0x8000_0000_0000_0000;
          word != 0 && word <= 0x7FF0_0000_0000_0000
      case Str(s) => |s| > 0
      case Arr(_) => true
      case Doc(_) => true
      case DateIso(_) => true
      case _ => false
  }

  lemma AcceptedIff(reply: Object)
    requires reply.proto == Shared && Canonical(reply.fields)
    ensures Accepted(reply) <==> SaysYes(reply.fields)
  {
    hide FromLittleEndian;
  }

  /**
    Whatever stands in the header, a framed reply that survives the round trip is
    returned exactly when it says yes, and otherwise refused; either way it is
    consumed and what follows it is left.
   */
  lemma ReplyIsReturnedIff(head: Bytes, fields: seq<Field>, more: Bytes)
    requires |head| == 17 && JsObject(fields) && NulFreeFields(fields) && ExactFields(fields)
    requires 21 + |EncodeDoc(fields)| < TWO_31
    ensures var s, read := Framed(head, fields) + more, NormalFields(fields);
      && WellFramed(s) && Message(s).1 == more
      && Message(s).0 == if SaysYes(read) then Ok(Object(read, Shared)) else Refused(Object(read, Shared))
  {
    FramedLayout(head, fields, more);
    RoundTrip(Framed(head, fields), 21, fields);
    NormalIsCanonical(fields);
    AcceptedIff(Object(NormalFields(fields), Shared));
    hide EncodeDoc, Framed, JsObject, NulFreeFields, ExactFields, NormalFields, DecodeDoc, Accepted, SaysYes;
  }

  lemma NormalIsCanonical(fields: seq<Field>)
    requires JsObject(fields)
    ensures Canonical(NormalFields(fields))
  {
    hide Before;
  }

  /** The reply `{ok: d}` for a double of eight octets. */
  function OkDouble(bits: Bytes): (fields: seq<Field>) { [Field([111, 107], Double(bits))] }

  const ONE: Bytes := [0, 0, 0, 0, 0, 0, 0xF0, 0x3F]
  const ZERO: Bytes := [0, 0, 0, 0, 0, 0, 0, 0]

  lemma OkDoubleReads(bits: Bytes)
    requires |bits| == 8
    ensures JsObject(OkDouble(bits)) && NulFreeFields(OkDouble(bits)) && ExactFields(OkDouble(bits))
    ensures NormalFields(OkDouble(bits)) == OkDouble(bits) && |EncodeDoc(OkDouble(bits))| == 17
  {
    var fields := OkDouble(bits);
    EncodeFieldsStep(fields);
    assert fields[1..] == [] && EncodeFields([]) == [];
    assert fields[0].name != Bson.PROTO by { assert |Bson.PROTO| == 9; }
    assert ExactFields([]) && Exact(fields[0].value);
  }

  /** A server's `{ok: 1.0}` is returned and its `{ok: 0.0}` is refused. */
  lemma UsualReplies(head: Bytes, more: Bytes)
    requires |head| == 17
    ensures WellFramed(Framed(head, OkDouble(ONE)) + more) && WellFramed(Framed(head, OkDouble(ZERO)) + more)
    ensures Message(Framed(head, OkDouble(ONE)) + more).0 == Ok(Object(OkDouble(ONE), Shared))
    ensures Message(Framed(head, OkDouble(ZERO)) + more).0 == Refused(Object(OkDouble(ZERO), Shared))
  {
    OkDoubleReads(ONE);
    OkDoubleReads(ZERO);
    ReplyIsReturnedIff(head, OkDouble(ONE), more);
    ReplyIsReturnedIff(head, OkDouble(ZERO), more);
    OneSaysYes();
    hide *;
  }

  lemma OneSaysYes()
    ensures SaysYes(OkDouble(ONE)) && !SaysYes(OkDouble(ZERO))
  {
    Words();
    hide FromLittleEndian;
    assert OkDouble(ONE)[0].value == Double(ONE);
  }

  lemma Words()
    ensures FromLittleEndian(ONE) == 0x3FF0_0000_0000_0000 && FromLittleEndian(ZERO) == 0
  {
    assert ONE[7..] == [0x3F] && ONE[6..][1..] == ONE[7..] && ONE[5..][1..] == ONE[6..] && ONE[4..][1..] == ONE[5..];
    assert ONE[3..][1..] == ONE[4..] && ONE[2..][1..] == ONE[3..] && ONE[1..][1..] == ONE[2..];
    assert ZERO[7..] == [0] && ZERO[6..][1..] == ZERO[7..] && ZERO[5..][1..] == ZERO[6..] && ZERO[4..][1..] == ZERO[5..];
    assert ZERO[3..][1..] == ZERO[4..] && ZERO[2..][1..] == ZERO[3..] && ZERO[1..][1..] == ZERO[2..];
    assert FromLittleEndian(ONE[7..]) == 0x3F && FromLittleEndian(ZERO[7..]) == 0;
    assert FromLittleEndian(ONE[6..]) == 0x3FF0 && FromLittleEndian(ONE[5..]) == 0x3FF000;
    assert FromLittleEndian(ONE[4..]) == 0x3FF0_0000 && FromLittleEndian(ONE[3..]) == 0x3F_F000_0000;
    assert FromLittleEndian(ONE[2..]) == 0x3FF0_0000_0000 && FromLittleEndian(ONE[1..]) == 0x3F_F000_0000_0000;
    assert FromLittleEndian(ZERO[6..]) == 0 && FromLittleEndian(ZERO[5..]) == 0 && FromLittleEndian(ZERO[4..]) == 0;
    assert FromLittleEndian(ZERO[3..]) == 0 && FromLittleEndian(ZERO[2..]) == 0 && FromLittleEndian(ZERO[1..]) == 0;
  }

  // ---- the adapter's state ---------------------------------------------------

  class Connection {
    var rbuf: Bytes
    var net: seq<Bytes>
    var reqid: int

    constructor (net: seq<Bytes>)
      ensures rbuf == [] && this.net == net && reqid == 0
    {
      rbuf, this.net, reqid := [], net, 0;
    }

    function View(): (i: Input)
      reads this
    {
      Input(rbuf, net)
    }

    /** `ensure(n)`: false is the "mongo: closed" error. */
    method Ensure(n: int) returns (ok: bool)
      modifies this`rbuf, this`net
      ensures View() == Pull(old(View()), n)
      ensures ok == (|rbuf| >= n)
    {
      while |rbuf| < n
        invariant Pull(View(), n) == Pull(old(View()), n)
        decreases |net|
      {
        if net == [] {
          return false;
        }
        rbuf, net := rbuf + net[0], net[1..];
      }
      ok := true;
    }

    /** The exchange of `command` once the request has been written. */
    method ReadReply() returns (reply: Reply)
      modifies this`rbuf, this`net
      ensures (reply, View()) == Receive(old(View()))
    {
      var ok := Ensure(4);
      if !ok {
        return Closed;
      }
      var len := GetI32(rbuf, 0);
      ok := Ensure(len);
      if !ok {
        return Closed;
      }
      var cut := SliceBound(len, |rbuf|);
      var decoded := Decode(rbuf[..cut], 21);
      match decoded {
        case Failed(why) => reply := Fault(why);
        case Done(doc, _) =>
          rbuf := rbuf[cut..];
          reply := if Accepted(doc) then Ok(doc) else Refused(doc);
      }
    }

    /** `command(doc)` on a live socket: the bytes written, then the reply. */
    method Command(fields: seq<Field>, db: Bytes) returns (written: Bytes, reply: Reply)
      modifies this
      ensures reqid == old(reqid) + 1 && written == Request(reqid, fields, db)
      ensures (reply, View()) == Receive(old(View()))
    {
      var body := EncodeInto([], Insert(fields, DB_NAME, Str(db)));
      assert [] + EncodeDoc(Insert(fields, DB_NAME, Str(db))) == EncodeDoc(Insert(fields, DB_NAME, Str(db)));
      reqid := reqid + 1;
      written := PushI32(21 + |body|) + PushI32(reqid) + [0, 0, 0, 0] + PushI32(OP_MSG) + [0, 0, 0, 0] + [0] + body;
      reply := ReadReply();
    }
  }

  // ---- sent again ------------------------------------------------------------

  /** No socket, one dead to the write, or one with the bytes its peer will send. */
  datatype Socket = Absent | Dead | Live(input: Input)

  /** `command` on a socket: it throws unless the reply's `ok` is truthy. */
  function TryOn(socket: Socket): (t: Try<Object>)
  {
    if socket.Live? && Receive(socket.input).0.Ok? then Try(true, Text.Some(Receive(socket.input).0.reply))
    else Try(socket.Live?, Text.None)
  }

  /**
    A command is written at most twice, and twice exactly when the pooled or newly
    opened socket gave anything but a reply with a truthy `ok`, a refusal by the
    server included, and a live one could be opened in its place.
   */
  method CommandExchange(pooled: Socket, connected: Socket, reconnected: Socket)
    returns (reply: Text.Option<Object>, writes: nat)
    ensures var first := if pooled.Absent? then connected else pooled;
      && writes <= 2
      && (writes == 2 <==> first.Live? && !Receive(first.input).0.Ok? && reconnected.Live?)
      && (reply.Some? ==> writes >= 1)
  {
    var first := if pooled.Absent? then connected else pooled;
    var alive;
    reply, writes, alive := Exchange.Run(
      Sockets(!pooled.Absent?, !connected.Absent?, TryOn(first), !reconnected.Absent?, TryOn(reconnected)));
  }
}
