/**
  The BSON codec of the MongoDB guest adapter: `encodeInto` and `decodeDoc`.

  Strings are their UTF-8 octets. What is encoded of a document is the list of an
  object's own properties in JavaScript enumeration order. The decoder is modelled on every
  byte string, with the ways it can go wrong told apart (`Decoded`).
 */
module Bson {
  import opened Bytes
  import Float64
  import Text

  // ---- values ----------------------------------------------------------------

  datatype Field = Field(name: Bytes, value: Value)

  /** An object: its own properties in enumeration order, and what it inherits from. */
  datatype Object = Object(fields: seq<Field>, proto: Proto)

  /** The prototype all plain objects share, none, or an object or array set by assignment. */
  datatype Proto = Shared | Nothing | Inner(obj: Object) | List(items: seq<Value>)

  /**
    `Int` is an integer-valued Number, `Double` any other Number as its eight
    little-endian octets. `DateIso` stands for the ISO 8601 string the decoder
    renders a date as; the encoder never sees it.
   */
  datatype Value =
    | Undefined
    | Null
    | Bool(b: bool)
    | Int(n: int)
    | Double(bits: Bytes)
    | Str(s: Bytes)
    | Arr(items: seq<Value>)
    | Doc(obj: Object)
    | DateIso(ms: int)

  const PROTO: Bytes := [95, 95, 112, 114, 111, 116, 111, 95, 95]  // "__proto__"

  function Size(v: Value): (n: nat)
    ensures n > 0
    decreases v, 1
  {
    match v
    case Arr(items) => 1 + SizeItems(items)
    case Doc(obj) => 1 + SizeFields(obj.fields)
    case _ => 1
  }

  function SizeItems(items: seq<Value>): (n: nat)
    decreases items, 0
  {
    if items == [] then 0 else Size(items[0]) + SizeItems(items[1..])
  }

  function SizeFields(fields: seq<Field>): (n: nat)
    decreases fields, 0
  {
    if fields == [] then 0 else Size(fields[0].value) + SizeFields(fields[1..])
  }

  // ---- JavaScript objects ----------------------------------------------------

  /** The decimal name of array index `i`. */
  function IndexName(i: nat): (name: Bytes)
  {
    Text.Ascii(Text.Print(i))
  }

  /** The array index a property name denotes, if it denotes one (at most 2^32 - 2). */
  function IndexOf(name: Bytes): (r: Text.Option<nat>)
  {
    var s := Text.FromAscii(name);
    if s != [] && Text.AllDigits(s) && Text.Print(Text.Value(s)) == s && Text.Value(s) < TWO_32 - 1
    then Text.Some(Text.Value(s))
    else Text.None
  }

  lemma IndexOfIndexName(i: nat)
    requires i < TWO_32 - 1
    ensures IndexOf(IndexName(i)) == Text.Some(i)
    ensures 0 !in IndexName(i) && IndexName(i) != PROTO
  {
    Text.AsciiRoundTrip(Text.Print(i));
    Text.ValueOfPrint(i);
    assert IndexName(i)[0] == Text.Print(i)[0] as int;
  }

  /** Enumeration order: index names ascending, then the others by insertion. */
  predicate Before(x: Bytes, y: Bytes) {
    && x != y
    && (IndexOf(y).Some? ==> IndexOf(x).Some? && IndexOf(x).value < IndexOf(y).value)
  }

  /** What `Object.entries` can yield: distinct names in enumeration order. */
  predicate Canonical(fields: seq<Field>) {
    forall i, j :: 0 <= i < j < |fields| ==> Before(fields[i].name, fields[j].name)
  }

  predicate Owns(fields: seq<Field>, name: Bytes) { exists i :: 0 <= i < |fields| && fields[i].name == name }

  /** Assigning `__proto__` runs the setter of the shared prototype: no own property hides it on the chain. */
  predicate Settable(obj: Object)
    decreases obj
  {
    !Owns(obj.fields, PROTO) &&
    match obj.proto
    case Shared => true
    case Nothing => false
    case Inner(o) => Settable(o)
    case List(_) => true
  }

  /** `obj[name] = val`. The setter takes objects, arrays and null, and ignores the rest. */
  function Put(obj: Object, name: Bytes, val: Value): (r: Object)
  {
    if name != PROTO || !Settable(obj) then obj.(fields := Insert(obj.fields, name, val))
    else obj.(proto := SetProto(obj.proto, val))
  }

  function SetProto(proto: Proto, val: Value): (r: Proto)
  {
    match val
    case Doc(obj) => Inner(obj)
    case Arr(items) => List(items)
    case Null => Nothing
    case _ => proto
  }

  function Insert(obj: seq<Field>, name: Bytes, val: Value): (r: seq<Field>)
  {
    if obj == [] then [Field(name, val)]
    else if obj[0].name == name then [Field(name, val)] + obj[1..]
    else if Before(name, obj[0].name) && !Before(obj[0].name, name) then [Field(name, val)] + obj
    else [obj[0]] + Insert(obj[1..], name, val)
  }

  lemma {:induction false} InsertAppends(obj: seq<Field>, name: Bytes, val: Value)
    requires forall i :: 0 <= i < |obj| ==> Before(obj[i].name, name)
    ensures Insert(obj, name, val) == obj + [Field(name, val)]
  {
    if obj != [] {
      InsertAppends(obj[1..], name, val);
      assert obj == [obj[0]] + obj[1..];
    }
  }

  function IndexFields(items: seq<Value>, from: nat): (fields: seq<Field>)
    ensures |fields| == |items|
  {
    if items == [] then [] else [Field(IndexName(from), items[0])] + IndexFields(items[1..], from + 1)
  }

  function Values(fields: seq<Field>): (r: seq<Value>)
    ensures |r| == |fields|
  {
    seq(|fields|, i requires 0 <= i < |fields| => fields[i].value)
  }

  lemma {:induction false} SizeIndexFields(items: seq<Value>, from: nat)
    ensures SizeFields(IndexFields(items, from)) == SizeItems(items)
  {
    if items != [] {
      var fields := IndexFields(items, from);
      assert fields[1..] == IndexFields(items[1..], from + 1);
      SizeIndexFields(items[1..], from + 1);
    }
  }

  // ---- encoding --------------------------------------------------------------

  predicate FitsInt32(n: int) {
    -TWO_31 <= n < TWO_31
  }

  function Tag(v: Value): (t: Byte)
  {
    match v
    case Undefined => 0x0a
    case Null => 0x0a
    case Bool(_) => 0x08
    case Int(n) => if FitsInt32(n) then 0x10 else 0x12
    case Double(_) => 0x01
    case Str(_) => 0x02
    case Arr(_) => 0x04
    case Doc(_) => 0x03
    case DateIso(_) => 0x02
  }

  function Payload(v: Value): (r: Bytes)
    decreases Size(v), 0
  {
    match v
    case Undefined => []
    case Null => []
    case Bool(b) => [if b then 1 else 0]
    case Int(n) => if FitsInt32(n) then PushI32(n) else PushI64(n)
    case Double(bits) => bits
    case Str(s) => PushI32(|s| + 1) + s + [0]
    case Arr(items) => SizeIndexFields(items, 0); EncodeDoc(IndexFields(items, 0))
    case Doc(obj) => EncodeDoc(obj.fields)
    case _ => []
  }

  function EncodeField(f: Field): (r: Bytes)
    decreases Size(f.value), 1
  {
    [Tag(f.value)] + f.name + [0] + Payload(f.value)
  }

  function EncodeFields(fields: seq<Field>): (r: Bytes)
    decreases SizeFields(fields), 2, |fields|
  {
    if fields == [] then [] else EncodeField(fields[0]) + EncodeFields(fields[1..])
  }

  function EncodeDoc(fields: seq<Field>): (r: Bytes)
    ensures |r| >= 5
    decreases SizeFields(fields), 3
  {
    var body := EncodeFields(fields);
    PushI32(|body| + 5) + body + [0]
  }

  // ---- decoding --------------------------------------------------------------

  /**
    `Throws`: a RangeError, TypeError or an unsupported type. `Hangs`: the name
    scan runs past the buffer and never meets a NUL. `Rewinds`: a negative length
    moves the cursor back to or before the value it was read for.
   */
  datatype Fault = Throws | Hangs | Rewinds

  datatype Decoded = Done(obj: Object, end: int) | Failed(why: Fault)

  /** The name and value pairs of a document, as they come. */
  datatype Elements = All(raw: seq<Field>) | Broken(why: Fault)

  datatype Read = Got(value: Value, off: int) | Stuck(why: Fault)

  datatype Element = Next(field: Field, off: nat) | Fail(why: Fault)

  /** Index of the first NUL at or after `from`, or |b|. */
  function FindNul(b: Bytes, from: nat): (z: nat)
    requires from <= |b|
    ensures from <= z <= |b| && 0 !in b[from..z]
    ensures z < |b| ==> b[z] == 0
    decreases |b| - from
  {
    if from == |b| || b[from] == 0 then from else FindNul(b, from + 1)
  }

  /** `bytes.subarray(lo, hi)` for non-negative bounds: both are clamped. */
  function SubArray(b: Bytes, lo: int, hi: int): (r: Bytes)
    requires 0 <= lo && 0 <= hi
  {
    var l := if lo < |b| then lo else |b|;
    var h := if hi < |b| then hi else |b|;
    if l <= h then b[l..h] else []
  }

  function HexDigit(n: nat): (c: Byte)
    requires n < 16
  {
    if n < 10 then 48 + n else 87 + n
  }

  function Hex(id: Bytes): (r: Bytes)
  {
    if id == [] then [] else [HexDigit(id[0] / 16), HexDigit(id[0] % 16)] + Hex(id[1..])
  }

  // Largest magnitude, in milliseconds, of a valid `Date`.
  const MAX_DATE: int := 8_640_000_000_000_000

  function Left(b: Bytes, off: nat): (n: nat)
  {
    if off <= |b| then |b| - off else 0
  }

  const EMPTY: Object := Object([], Shared)

  /** The assignments of a decode loop, in order, on an object that starts as `obj`. */
  function Assemble(obj: Object, raw: seq<Field>): (r: Object)
    decreases |raw|
  {
    if raw == [] then obj else Assemble(Put(obj, raw[0].name, raw[0].value), raw[1..])
  }

  function DecodeDoc(b: Bytes, start: nat): (r: Decoded)
    decreases Left(b, start), 2
  {
    if start + 4 > |b| then Failed(Throws)
    else
      var end := start + GetI32(b, start);
      match DecodeFields(b, start + 4, end)
      case All(raw) => Done(Assemble(EMPTY, raw), end)
      case Broken(why) => Failed(why)
  }

  /** The name and value pairs from `off` up to the end of the document. */
  function DecodeFields(b: Bytes, off: nat, end: int): (r: Elements)
    decreases Left(b, off), 4
  {
    if off >= end - 1 then All([])
    else
      match DecodeElement(b, off)
      case Fail(why) => Broken(why)
      case Next(f, off') =>
        match DecodeFields(b, off', end)
        case All(rest) => All([f] + rest)
        case Broken(why) => Broken(why)
  }

  /** One turn of the decode loop: a type octet, a NUL-terminated name, a value. */
  function DecodeElement(b: Bytes, off: nat): (r: Element)
    ensures r.Next? ==> off < |b| && off < r.off
    decreases Left(b, off), 1
  {
    if off >= |b| then Fail(Hangs)
    else
      var z := FindNul(b, off + 1);
      if z == |b| then Fail(Hangs)
      else
        match DecodeValue(b, b[off], z + 1)
        case Stuck(why) => Fail(why)
        case Got(val, off') =>
          if off' < z + 1 then Fail(Rewinds) else Next(Field(b[off + 1..z], val), off')
  }

  function DecodeValue(b: Bytes, tag: Byte, p: nat): (r: Read)
    requires p > 0
    decreases Left(b, p), 3
  {
    if tag == 0x01 then if p + 8 > |b| then Stuck(Throws) else Got(Double(b[p..p + 8]), p + 8)
    else if tag == 0x02 then DecodeString(b, p)
    else if tag == 0x03 then
      match DecodeDoc(b, p)
      case Done(obj, end) => Got(Doc(obj), end)
      case Failed(why) => Stuck(why)
    else if tag == 0x04 then
      match DecodeDoc(b, p)
      case Done(obj, end) => Got(Arr(Values(obj.fields)), end)
      case Failed(why) => Stuck(why)
    else if tag == 0x08 then Got(Bool(p >= |b| || b[p] != 0), p + 1)
    else if tag == 0x0a then Got(Null, p)
    else if tag == 0x10 then if p + 4 > |b| then Stuck(Throws) else Got(Int(GetI32(b, p)), p + 4)
    else if tag == 0x12 then
      if p + 8 > |b| then Stuck(Throws) else Got(Int(Float64.Round(GetI64(b, p))), p + 8)
    else if tag == 0x09 then
      if p + 8 > |b| then Stuck(Throws)
      else
        var ms := Float64.Round(GetI64(b, p));
        if -MAX_DATE <= ms <= MAX_DATE then Got(DateIso(ms), p + 8) else Stuck(Throws)
    else if tag == 0x07 then
      if p + 12 > |b| then Stuck(Throws) else Got(Str(Hex(b[p..p + 12])), p + 12)
    else Stuck(Throws)
  }

  function DecodeString(b: Bytes, p: nat): (r: Read)
    requires p > 0
  {
    if p + 4 > |b| then Stuck(Throws)
    else
      var l := GetI32(b, p);
      if l < -4 then Stuck(Rewinds)
      else Got(Str(SubArray(b, p + 4, p + 4 + l - 1)), p + 4 + l)
  }

  // ---- the adapter's loops ---------------------------------------------------

  /** `encodeInto(a, obj)`: append the encoding of an object to the array `a`. */
  method EncodeInto(a: Bytes, fields: seq<Field>) returns (a': Bytes)
    ensures a' == a + EncodeDoc(fields)
    decreases SizeFields(fields), 3
  {
    EncodeDocIs(fields);
    hide *;
    var body: Bytes := [];
    var i := 0;
    assert fields[0..] == fields;
    while i < |fields|
      invariant 0 <= i <= |fields|
      invariant body + EncodeFields(fields[i..]) == EncodeFields(fields)
    {
      EncodeFieldsAt(fields, i);
      SizeAt(fields, i);
      ghost var before := body;
      body := EncodeElement(body, fields[i]);
      Accumulate(before, EncodeField(fields[i]), EncodeFields(fields[i + 1..]));
      i := i + 1;
    }
    assert fields[i..] == [];
    a' := a + PushI32(|body| + 5) + body + [0];
    Regroup(a, PushI32(|body| + 5), body, []);
  }

  lemma EncodeDocIs(fields: seq<Field>)
    ensures EncodeFields([]) == []
    ensures EncodeDoc(fields) == PushI32(|EncodeFields(fields)| + 5) + EncodeFields(fields) + [0]
  {
  }

  lemma Accumulate(body: Bytes, next: Bytes, rest: Bytes)
    ensures body + (next + rest) == body + next + rest
  {
  }

  method EncodeElement(body: Bytes, f: Field) returns (body': Bytes)
    ensures body' == body + EncodeField(f)
    decreases Size(f.value), 1
  {
    body' := EncodeValue(body + [Tag(f.value)] + f.name + [0], f.value);
    Regroup(body, [Tag(f.value)], f.name, Payload(f.value));
  }

  lemma Regroup(a: Bytes, tag: Bytes, name: Bytes, payload: Bytes)
    ensures a + tag + name + [0] + payload == a + (tag + name + [0] + payload)
  {
  }

  /** The branch of `encodeInto` on the type of one property. */
  method EncodeValue(body: Bytes, v: Value) returns (body': Bytes)
    ensures body' == body + Payload(v)
    decreases Size(v), 0
  {
    body' := body;
    match v {
      case Undefined =>
      case Null =>
      case Bool(b) => body' := body' + [if b then 1 else 0];
      case Int(n) => body' := body' + (if FitsInt32(n) then PushI32(n) else PushI64(n));
      case Double(bits) => body' := body' + bits;
      case Str(s) => body' := body' + (PushI32(|s| + 1) + s + [0]);
      case Arr(items) =>
        SizeIndexFields(items, 0);
        body' := EncodeInto(body', IndexFields(items, 0));
      case Doc(inner) => body' := EncodeInto(body', inner.fields);
      case DateIso(_) =>
    }
  }

  lemma EncodeFieldsAt(fields: seq<Field>, i: nat)
    requires i < |fields|
    ensures EncodeFields(fields[i..]) == EncodeField(fields[i]) + EncodeFields(fields[i + 1..])
  {
    assert fields[i..][1..] == fields[i + 1..];
  }

  lemma {:induction false} SizeAt(fields: seq<Field>, i: nat)
    requires i < |fields|
    ensures Size(fields[i].value) <= SizeFields(fields)
    decreases |fields|
  {
    if i > 0 {
      assert SizeFields(fields) == Size(fields[0].value) + SizeFields(fields[1..]);
      assert fields[1..][i - 1] == fields[i];
      SizeAt(fields[1..], i - 1);
    }
  }

  /** `decodeDoc(bytes, start)`. */
  method Decode(b: Bytes, start: nat) returns (r: Decoded)
    ensures r == DecodeDoc(b, start)
    decreases Left(b, start), 2
  {
    if start + 4 > |b| {
      return Failed(Throws);
    }
    var end := start + GetI32(b, start);
    var off: nat := start + 4;
    var obj := EMPTY;
    ghost var raw: seq<Field> := [];
    ghost var whole := DecodeFields(b, off, end);
    while off < end - 1
      invariant start + 4 <= off
      invariant obj == Assemble(EMPTY, raw)
      invariant Continues(whole, raw, DecodeFields(b, off, end))
      decreases end - off
    {
      ContinuesStep(b, off, end, whole, raw);
      if off >= |b| {
        return Failed(Hangs);
      }
      var element := NextElement(b, off);
      if element.Fail? {
        return Failed(element.why);
      }
      AssembleAppend(EMPTY, raw, element.field);
      raw := raw + [element.field];
      obj := Put(obj, element.field.name, element.field.value);
      off := element.off;
    }
    assert raw + [] == raw;
    r := Done(obj, end);
  }

  /** The body of the decode loop: scan the name, then branch on the type. */
  method NextElement(b: Bytes, off: nat) returns (r: Element)
    requires off < |b|
    ensures r == DecodeElement(b, off)
    decreases Left(b, off), 1
  {
    var z := off + 1;
    while z < |b| && b[z] != 0
      invariant off + 1 <= z <= |b|
      invariant FindNul(b, off + 1) == FindNul(b, z)
    {
      z := z + 1;
    }
    if z == |b| {
      return Fail(Hangs);
    }
    var got := NextValue(b, b[off], z + 1);
    if got.Stuck? {
      r := Fail(got.why);
    } else if got.off < z + 1 {
      r := Fail(Rewinds);
    } else {
      r := Next(Field(b[off + 1..z], got.value), got.off);
    }
  }

  /** The branches on the type of an element. */
  method NextValue(b: Bytes, tag: Byte, p: nat) returns (r: Read)
    requires p > 0
    ensures r == DecodeValue(b, tag, p)
    decreases Left(b, p), 3
  {
    if tag == 0x01 {
      r := Stuck(Throws);
      if p + 8 <= |b| { r := Got(Double(b[p..p + 8]), p + 8); }
    } else if tag == 0x02 {
      r := NextString(b, p);
    } else if tag == 0x03 || tag == 0x04 {
      var d := Decode(b, p);
      match d {
        case Done(obj, end) => r := Got(if tag == 0x03 then Doc(obj) else Arr(Values(obj.fields)), end);
        case Failed(why) => r := Stuck(why);
      }
    } else if tag == 0x08 {
      r := Got(Bool(p >= |b| || b[p] != 0), p + 1);
    } else if tag == 0x0a {
      r := Got(Null, p);
    } else if tag == 0x10 {
      r := Stuck(Throws);
      if p + 4 <= |b| { r := Got(Int(GetI32(b, p)), p + 4); }
    } else if tag == 0x12 || tag == 0x09 {
      r := Stuck(Throws);
      if p + 8 <= |b| {
        var n := Float64.Round(GetI64(b, p));
        if tag == 0x12 {
          r := Got(Int(n), p + 8);
        } else if -MAX_DATE <= n <= MAX_DATE {
          r := Got(DateIso(n), p + 8);
        }
      }
    } else if tag == 0x07 {
      r := NextHex(b, p);
    } else {
      r := Stuck(Throws);
    }
  }

  method NextString(b: Bytes, p: nat) returns (r: Read)
    requires p > 0
    ensures r == DecodeString(b, p)
  {
    if p + 4 > |b| {
      return Stuck(Throws);
    }
    var l := GetI32(b, p);
    if l < -4 {
      return Stuck(Rewinds);
    }
    var from, to := p + 4, p + 4 + l - 1;
    var lo, hi := if from < |b| then from else |b|, if to < |b| then to else |b|;
    r := Got(Str(if lo <= hi then b[lo..hi] else []), p + 4 + l);
  }

  /** The loop over the twelve octets of an ObjectId. */
  method NextHex(b: Bytes, p: nat) returns (r: Read)
    ensures r == if p + 12 > |b| then Stuck(Throws) else Got(Str(Hex(b[p..p + 12])), p + 12)
  {
    var text: Bytes := [];
    var j := 0;
    while j < 12
      invariant 0 <= j <= 12 && (p + j <= |b| || j == 0)
      invariant p + j <= |b| ==> text == Hex(b[p..p + j])
    {
      if p + j >= |b| {
        return Stuck(Throws);
      }
      HexAppend(b[p..p + j], b[p + j]);
      assert b[p..p + j + 1] == b[p..p + j] + [b[p + j]];
      text := text + [HexDigit(b[p + j] / 16), HexDigit(b[p + j] % 16)];
      j := j + 1;
    }
    r := Got(Str(text), p + 12);
  }

  lemma {:induction false} HexAppend(id: Bytes, x: Byte)
    ensures Hex(id + [x]) == Hex(id) + [HexDigit(x / 16), HexDigit(x % 16)]
  {
    if id == [] {
      assert [] + [x] == [x];
    } else {
      HexAppend(id[1..], x);
      assert (id + [x])[1..] == id[1..] + [x];
    }
  }

  /** Having read `raw` so far, what is left to decode determines the whole result. */
  ghost predicate Continues(whole: Elements, raw: seq<Field>, rest: Elements) {
    match rest
    case All(more) => whole == All(raw + more)
    case Broken(why) => whole == Broken(why)
  }

  lemma ContinuesStep(b: Bytes, off: nat, end: int, whole: Elements, raw: seq<Field>)
    requires off < end - 1 && Continues(whole, raw, DecodeFields(b, off, end))
    ensures
      var e := DecodeElement(b, off);
      if e.Fail? then whole == Broken(e.why)
      else Continues(whole, raw + [e.field], DecodeFields(b, e.off, end))
  {
    hide DecodeElement;
    var e := DecodeElement(b, off);
    if e.Next? {
      var rest := DecodeFields(b, e.off, end);
      if rest.All? { assert raw + ([e.field] + rest.raw) == raw + [e.field] + rest.raw; }
    }
  }

  lemma {:induction false} AssembleAppend(obj: Object, raw: seq<Field>, f: Field)
    ensures Assemble(obj, raw + [f]) == Put(Assemble(obj, raw), f.name, f.value)
    decreases |raw|
  {
    if raw == [] {
      assert [] + [f] == [f];
    } else {
      AssembleAppend(Put(obj, raw[0].name, raw[0].value), raw[1..], f);
      assert (raw + [f])[1..] == raw[1..] + [f];
    }
  }
}
