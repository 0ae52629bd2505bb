/** What `decodeDoc` reads back from what `encodeInto` wrote, at any offset of any buffer. */
module BsonRoundTrip {
  import opened Bytes
  import opened Bson
  import Float64
  import Text

  // ---- the encoder's domain --------------------------------------------------

  /** A JavaScript value of the encoder's subset: its Numbers are doubles, its objects canonical. */
  predicate JsValue(v: Value)
    decreases v, 1
  {
    match v
    case Int(n) => Float64.Round(n) == n
    case Double(bits) => |bits| == 8
    case Arr(items) => |items| < TWO_32 && JsItems(items)
    case Doc(obj) => JsObject(obj.fields)
    case DateIso(_) => false
    case _ => true
  }

  predicate JsItems(items: seq<Value>)
    decreases items, 0
  {
    forall i :: 0 <= i < |items| ==> JsValue(items[i])
  }

  predicate JsObject(fields: seq<Field>)
    decreases fields, 1
  {
    Canonical(fields) && JsFields(fields)
  }

  predicate JsFields(fields: seq<Field>)
    decreases fields, 0
  {
    forall i :: 0 <= i < |fields| ==> JsValue(fields[i].value)
  }

  /** No property name, at any depth, contains a NUL. */
  predicate NulFree(v: Value)
    decreases v, 1
  {
    match v
    case Arr(items) => forall i :: 0 <= i < |items| ==> NulFree(items[i])
    case Doc(obj) => NulFreeFields(obj.fields)
    case _ => true
  }

  predicate NulFreeFields(fields: seq<Field>)
    decreases fields, 0
  {
    forall i :: 0 <= i < |fields| ==> 0 !in fields[i].name && NulFree(fields[i].value)
  }

  // ---- what survives ---------------------------------------------------------

  function ReadBack(v: Value): (r: Value)
    decreases v, 1
  {
    match v
    case Undefined => Null
    case Int(n) => if FitsInt32(n) then v else Int(Float64.Round(Wrap64(n)))
    case Arr(items) => Arr(ReadItems(items))
    case Doc(obj) => Doc(ReadObject(obj.fields))
    case _ => v
  }

  function ReadItems(items: seq<Value>): (r: seq<Value>)
    ensures |r| == |items|
    decreases items, 0
  {
    if items == [] then [] else [ReadBack(items[0])] + ReadItems(items[1..])
  }

  function ReadFields(fields: seq<Field>): (r: seq<Field>)
    decreases fields, 1
  {
    DropProto(ReadValues(fields))
  }

  /** A property called `__proto__` comes back as the prototype, or not at all. */
  function ReadObject(fields: seq<Field>): (r: Object)
    decreases fields, 2
  {
    Object(ReadFields(fields), LastProto(Shared, ReadValues(fields)))
  }

  function LastProto(proto: Proto, raw: seq<Field>): (r: Proto)
    decreases |raw|
  {
    if raw == [] then proto
    else LastProto(if raw[0].name == PROTO then SetProto(proto, raw[0].value) else proto, raw[1..])
  }

  function ReadValues(fields: seq<Field>): (r: seq<Field>)
    ensures |r| == |fields|
    ensures forall i :: 0 <= i < |r| ==> r[i].name == fields[i].name
    decreases fields, 0
  {
    if fields == [] then []
    else [Field(fields[0].name, ReadBack(fields[0].value))] + ReadValues(fields[1..])
  }

  function DropProto(fields: seq<Field>): (r: seq<Field>)
  {
    if fields == [] then []
    else if fields[0].name == PROTO then DropProto(fields[1..])
    else [fields[0]] + DropProto(fields[1..])
  }

  // ---- slices ----------------------------------------------------------------

  /** `x` sits in `b` at offset `off`. */
  predicate At(b: Bytes, off: nat, x: Bytes) {
    off + |x| <= |b| && b[off..off + |x|] == x
  }

  lemma AtSplit(b: Bytes, off: nat, x: Bytes, y: Bytes)
    requires At(b, off, x + y)
    ensures At(b, off, x) && At(b, off + |x|, y)
  {
    var xy := x + y;
    assert b[off..off + |x|] == b[off..off + |xy|][..|x|];
    assert xy[..|x|] == x;
    assert b[off + |x|..off + |x| + |y|] == b[off..off + |xy|][|x|..];
    assert xy[|x|..] == y;
  }

  lemma {:induction false} FindNulAt(b: Bytes, from: nat, z: nat)
    requires from <= z < |b| && b[z] == 0 && 0 !in b[from..z]
    ensures FindNul(b, from) == z
    decreases z - from
  {
    if from < z {
      assert b[from] == b[from..z][0];
      assert forall x :: x in b[from + 1..z] ==> x in b[from..z];
      FindNulAt(b, from + 1, z);
    }
  }

  lemma PrefixReads(b: Bytes, off: nat, n: int)
    requires At(b, off, PushI32(n)) && -TWO_31 <= n < TWO_31
    ensures GetI32(b, off) == n
  {
    GetPushedI32(b, off, n);
  }

  // ---- arrays travel as objects with index names -----------------------------

  lemma {:induction false} IndexFieldsAre(items: seq<Value>, from: nat)
    ensures forall i :: 0 <= i < |items| ==>
              IndexFields(items, from)[i] == Field(IndexName(from + i), items[i])
  {
    if items != [] {
      IndexFieldsAre(items[1..], from + 1);
      forall i | 0 <= i < |items|
        ensures IndexFields(items, from)[i] == Field(IndexName(from + i), items[i])
      {
        if i > 0 {
          assert IndexFields(items, from)[i] == IndexFields(items[1..], from + 1)[i - 1];
        }
      }
    }
  }

  lemma IndexFieldsJs(items: seq<Value>)
    requires JsValue(Arr(items)) && NulFree(Arr(items))
    ensures JsObject(IndexFields(items, 0)) && NulFreeFields(IndexFields(items, 0))
  {
    var fields := IndexFields(items, 0);
    IndexFieldsAre(items, 0);
    forall i | 0 <= i < |items|
      ensures IndexOf(fields[i].name) == Text.Some(i) && 0 !in fields[i].name
    {
      IndexOfIndexName(i);
    }
    hide IndexOf, IndexName, IndexFields;
    forall i, j | 0 <= i < j < |fields| ensures Before(fields[i].name, fields[j].name) {
      assert IndexOf(fields[i].name) == Text.Some(i) && IndexOf(fields[j].name) == Text.Some(j);
    }
  }

  lemma {:induction false} ReadIndexFields(items: seq<Value>, from: nat)
    requires from + |items| < TWO_32
    ensures Values(ReadFields(IndexFields(items, from))) == ReadItems(items)
  {
    if items != [] {
      var fields := IndexFields(items, from);
      IndexOfIndexName(from);
      assert fields[1..] == IndexFields(items[1..], from + 1);
      ReadIndexFields(items[1..], from + 1);
      var read := ReadValues(fields);
      assert read[1..] == ReadValues(fields[1..]);
      assert DropProto(read) == [read[0]] + DropProto(read[1..]);
      assert Values(DropProto(read)) == [read[0].value] + Values(DropProto(read[1..]));
    }
  }

  // ---- assembling a canonical object -----------------------------------------

  /** Properties still to come; while `__proto__` may be among them, the object has the shared prototype. */
  predicate Ready(obj: Object, raw: seq<Field>) {
    && Canonical(obj.fields + raw) && !Owns(obj.fields, PROTO)
    && (Owns(raw, PROTO) ==> obj.proto == Shared)
  }

  /** Assigning the properties of a canonical object in order yields it, less `__proto__`. */
  lemma {:induction false} AssembleCanonical(obj: Object, raw: seq<Field>)
    requires Ready(obj, raw)
    ensures Assemble(obj, raw) == Object(obj.fields + DropProto(raw), LastProto(obj.proto, raw))
    decreases |raw|
  {
    hide *;
    AssembleStep(obj, raw);
    if raw != [] {
      PutNext(obj, raw);
      var obj' := Put(obj, raw[0].name, raw[0].value);
      MovesTo(obj, raw, obj');
      assert obj.fields + [raw[0]] + DropProto(raw[1..]) == obj.fields + ([raw[0]] + DropProto(raw[1..]));
      AssembleCanonical(obj', raw[1..]);
    } else {
      assert obj.fields + [] == obj.fields;
    }
  }

  lemma MovesTo(obj: Object, raw: seq<Field>, obj': Object)
    requires raw != [] && Moves(obj, raw, obj')
    ensures obj'.fields == (if raw[0].name == PROTO then obj.fields else obj.fields + [raw[0]])
    ensures LastProto(obj'.proto, raw[1..]) == LastProto(obj.proto, raw) && Ready(obj', raw[1..])
  {
  }

  lemma AssembleStep(obj: Object, raw: seq<Field>)
    ensures raw == [] ==> Assemble(obj, raw) == obj && DropProto(raw) == [] && LastProto(obj.proto, raw) == obj.proto
    ensures raw != [] ==> Assemble(obj, raw) == Assemble(Put(obj, raw[0].name, raw[0].value), raw[1..])
    ensures raw != [] ==>
      DropProto(raw) == if raw[0].name == PROTO then DropProto(raw[1..]) else [raw[0]] + DropProto(raw[1..])
  {
  }

  /** After one more property the object is `obj'`. */
  ghost predicate Moves(obj: Object, raw: seq<Field>, obj': Object)
    requires raw != []
  {
    && obj'.fields == (if raw[0].name == PROTO then obj.fields else obj.fields + [raw[0]])
    && LastProto(obj'.proto, raw[1..]) == LastProto(obj.proto, raw)
    && Ready(obj', raw[1..])
  }

  lemma PutNext(obj: Object, raw: seq<Field>)
    requires raw != [] && Ready(obj, raw)
    ensures Moves(obj, raw, Put(obj, raw[0].name, raw[0].value))
  {
    if raw[0].name == PROTO {
      PutProto(obj, raw);
    } else {
      PutOther(obj, raw);
    }
  }

  lemma PutProto(obj: Object, raw: seq<Field>)
    requires raw != [] && Ready(obj, raw) && raw[0].name == PROTO
    ensures Moves(obj, raw, Put(obj, raw[0].name, raw[0].value))
  {
    NoneTwice(obj.fields, raw);
    WithoutNext(obj.fields, raw);
    assert Owns(raw, PROTO);
    assert Settable(obj);
    hide Canonical, Owns, Settable, Before, Insert;
  }

  lemma PutOther(obj: Object, raw: seq<Field>)
    requires raw != [] && Ready(obj, raw) && raw[0].name != PROTO
    ensures Moves(obj, raw, Put(obj, raw[0].name, raw[0].value))
  {
    OwnsTail(raw);
    NextAppends(obj.fields, raw);
    OwnsMore(obj.fields, raw[0]);
    hide Canonical, Owns, Settable, Before, Insert;
    assert obj.fields + [raw[0]] + raw[1..] == obj.fields + raw;
  }

  lemma OwnsMore(fields: seq<Field>, f: Field)
    requires f.name != PROTO && !Owns(fields, PROTO)
    ensures !Owns(fields + [f], PROTO)
  {
  }

  /** What comes next goes to the end. */
  lemma NextAppends(fields: seq<Field>, raw: seq<Field>)
    requires raw != [] && Canonical(fields + raw)
    ensures Insert(fields, raw[0].name, raw[0].value) == fields + [raw[0]]
  {
    hide Before;
    var all := fields + raw;
    assert all[|fields|] == raw[0];
    forall i | 0 <= i < |fields| ensures Before(fields[i].name, raw[0].name) {
      assert all[i] == fields[i];
    }
    InsertAppends(fields, raw[0].name, raw[0].value);
  }

  /** No name comes twice. */
  lemma NoneTwice(fields: seq<Field>, raw: seq<Field>)
    requires raw != [] && Canonical(fields + raw) && raw[0].name == PROTO
    ensures !Owns(raw[1..], PROTO)
  {
    var all := fields + raw;
    forall i | 0 <= i < |raw[1..]| ensures raw[1..][i].name != PROTO {
      assert all[|fields|] == raw[0] && all[|fields| + 1 + i] == raw[1..][i];
      assert Before(all[|fields|].name, all[|fields| + 1 + i].name);
    }
  }

  lemma WithoutNext(fields: seq<Field>, raw: seq<Field>)
    requires raw != [] && Canonical(fields + raw)
    ensures Canonical(fields + raw[1..])
  {
    hide Before;
    var all := fields + raw;
    CanonicalWithout(all, |fields|);
    assert fields + raw[1..] == all[..|fields|] + all[|fields| + 1..];
  }

  lemma OwnsTail(raw: seq<Field>)
    requires raw != []
    ensures Owns(raw, PROTO) <==> raw[0].name == PROTO || Owns(raw[1..], PROTO)
  {
    if i :| 0 <= i < |raw[1..]| && raw[1..][i].name == PROTO { assert raw[i + 1].name == PROTO; }
    if i :| 0 <= i < |raw| && raw[i].name == PROTO { assert i > 0 ==> raw[1..][i - 1].name == PROTO; }
  }

  lemma CanonicalWithout(all: seq<Field>, k: nat)
    requires k < |all| && Canonical(all)
    ensures Canonical(all[..k] + all[k + 1..])
  {
    var rest := all[..k] + all[k + 1..];
    forall i, j | 0 <= i < j < |rest| ensures Before(rest[i].name, rest[j].name) {
      assert rest[i] == all[if i < k then i else i + 1];
      assert rest[j] == all[if j < k then j else j + 1];
    }
  }

  // ---- the round trip --------------------------------------------------------

  /** Decoding an encoded document ends exactly at its end, with what survives of it. */
  lemma {:induction false} DecodeEncoded(b: Bytes, start: nat, fields: seq<Field>)
    requires JsObject(fields) && NulFreeFields(fields)
    requires At(b, start, EncodeDoc(fields)) && |EncodeDoc(fields)| < TWO_31
    ensures DecodeDoc(b, start) == Done(ReadObject(fields), start + |EncodeDoc(fields)|)
    decreases SizeFields(fields), 3
  {
    FrameOfDoc(b, start, fields);
    var end := start + |EncodeDoc(fields)|;
    DecodeEncodedFields(b, start + 4, end, fields);
    AssembleRead(fields);
    DecodeDocStep(b, start, ReadValues(fields), end);
  }

  lemma DecodeDocStep(b: Bytes, start: nat, raw: seq<Field>, end: int)
    requires start + 4 <= |b| && start + GetI32(b, start) == end
    requires DecodeFields(b, start + 4, end) == All(raw)
    ensures DecodeDoc(b, start) == Done(Assemble(EMPTY, raw), end)
  {
  }

  lemma AssembleRead(fields: seq<Field>)
    requires Canonical(fields)
    ensures Assemble(EMPTY, ReadValues(fields)) == ReadObject(fields)
  {
    var raw := ReadValues(fields);
    assert [] + raw == raw && [] + DropProto(raw) == DropProto(raw);
    AssembleCanonical(EMPTY, raw);
  }

  lemma FrameOfDoc(b: Bytes, start: nat, fields: seq<Field>)
    requires At(b, start, EncodeDoc(fields)) && |EncodeDoc(fields)| < TWO_31
    ensures GetI32(b, start) == |EncodeDoc(fields)|
    ensures At(b, start + 4, EncodeFields(fields)) && |EncodeFields(fields)| == |EncodeDoc(fields)| - 5
  {
    var body := EncodeFields(fields);
    var prefix := PushI32(|body| + 5);
    assert EncodeDoc(fields) == prefix + (body + [0]);
    AtSplit(b, start, prefix, body + [0]);
    AtSplit(b, start + 4, body, [0]);
    PrefixReads(b, start, |body| + 5);
  }

  /** Where the parts of an element are: tag, NUL-terminated name, payload, the rest. */
  lemma FrameOfElement(b: Bytes, off: nat, tag: Byte, name: Bytes, payload: Bytes, rest: Bytes)
    requires 0 !in name && At(b, off, [tag] + name + [0] + payload + rest)
    ensures
      var p := off + 2 + |name|;
      && p <= |b| && b[off] == tag && FindNul(b, off + 1) == p - 1 && b[off + 1..p - 1] == name
      && At(b, p, payload) && At(b, p + |payload|, rest)
  {
    hide At, FindNul;
    var head := [tag] + name + [0];
    AtSplit(b, off, head + payload, rest);
    AtSplit(b, off, head, payload);
    AtWithin(b, off, head);
    FrameOfName(b, off, tag, name);
  }

  lemma AtWithin(b: Bytes, off: nat, x: Bytes)
    requires At(b, off, x)
    ensures off + |x| <= |b|
  {
  }

  lemma FrameOfName(b: Bytes, off: nat, tag: Byte, name: Bytes)
    requires 0 !in name && At(b, off, [tag] + name + [0])
    ensures b[off] == tag && FindNul(b, off + 1) == off + 1 + |name| && b[off + 1..off + 1 + |name|] == name
  {
    var z := off + 1 + |name|;
    AtSplit(b, off, [tag] + name, [0]);
    AtSplit(b, off, [tag], name);
    assert b[off] == b[off..off + 1][0] && b[z] == b[z..z + 1][0];
    FindNulAt(b, off + 1, z);
  }

  /** One turn of the decode loop. */
  lemma DecodeStep(b: Bytes, off: nat, end: int, p: nat, val: Value, off': nat, rest: seq<Field>)
    requires off < end - 1 && off + 2 <= p <= |b| && FindNul(b, off + 1) == p - 1
    requires DecodeValue(b, b[off], p) == Got(val, off') && off' >= p
    requires DecodeFields(b, off', end) == All(rest)
    ensures DecodeFields(b, off, end) == All([Field(b[off + 1..p - 1], val)] + rest)
  {
    hide DecodeValue, FindNul;
  }

  lemma EncodeFieldsStep(fields: seq<Field>)
    requires fields != []
    ensures
      var f, rest := fields[0], fields[1..];
      && EncodeFields(fields) == [Tag(f.value)] + f.name + [0] + Payload(f.value) + EncodeFields(rest)
      && |EncodeFields(fields)| == 2 + |f.name| + |Payload(f.value)| + |EncodeFields(rest)|
  {
  }

  /** The elements of `fields` fill `b` from `off` to the closing NUL before `end`. */
  predicate Fills(b: Bytes, off: nat, end: int, fields: seq<Field>) {
    && JsFields(fields) && NulFreeFields(fields)
    && At(b, off, EncodeFields(fields)) && off + |EncodeFields(fields)| == end - 1
    && |EncodeFields(fields)| < TWO_31
  }

  lemma FillsStep(b: Bytes, off: nat, end: int, fields: seq<Field>)
    requires fields != [] && Fills(b, off, end, fields)
    ensures
      var f, p := fields[0], off + 2 + |fields[0].name|;
      && off < end - 1 && p <= |b| && b[off] == Tag(f.value)
      && FindNul(b, off + 1) == p - 1 && b[off + 1..p - 1] == f.name
      && JsValue(f.value) && NulFree(f.value) && At(b, p, Payload(f.value)) && |Payload(f.value)| < TWO_31
      && Fills(b, p + |Payload(f.value)|, end, fields[1..])
  {
    hide EncodeFields, Payload, FindNul, Tag, At, JsValue, NulFree;
    EncodeFieldsStep(fields);
    var f, rest := fields[0], fields[1..];
    assert JsValue(f.value) && NulFree(f.value) && 0 !in f.name;
    FrameOfElement(b, off, Tag(f.value), f.name, Payload(f.value), EncodeFields(rest));
  }

  lemma {:induction false} DecodeEncodedFields(b: Bytes, off: nat, end: int, fields: seq<Field>)
    requires Fills(b, off, end, fields)
    ensures DecodeFields(b, off, end) == All(ReadValues(fields))
    decreases SizeFields(fields), 2, |fields|
  {
    hide *;
    if fields == [] {
      DecodeNone(b, off, end);
      return;
    }
    var f := fields[0];
    FillsStep(b, off, end, fields);
    ReadValuesStep(fields);
    SizesStep(fields);
    var p := off + 2 + |f.name|;
    var off' := p + |Payload(f.value)|;
    DecodeEncodedValue(b, p, f.value);
    DecodeEncodedFields(b, off', end, fields[1..]);
    DecodeStep(b, off, end, p, ReadBack(f.value), off', ReadValues(fields[1..]));
  }

  lemma SizesStep(fields: seq<Field>)
    requires fields != []
    ensures Size(fields[0].value) <= SizeFields(fields) && SizeFields(fields[1..]) < SizeFields(fields)
  {
  }

  lemma DecodeNone(b: Bytes, off: nat, end: int)
    requires Fills(b, off, end, [])
    ensures DecodeFields(b, off, end) == All(ReadValues([]))
  {
  }

  lemma ReadValuesStep(fields: seq<Field>)
    requires fields != []
    ensures ReadValues(fields) == [Field(fields[0].name, ReadBack(fields[0].value))] + ReadValues(fields[1..])
  {
  }

  lemma {:induction false} DecodeEncodedValue(b: Bytes, p: nat, v: Value)
    requires p > 0 && JsValue(v) && NulFree(v)
    requires At(b, p, Payload(v)) && |Payload(v)| < TWO_31
    ensures DecodeValue(b, Tag(v), p) == Got(ReadBack(v), p + |Payload(v)|)
    decreases Size(v), 0
  {
    match v
    case Arr(items) =>
      IndexFieldsJs(items);
      SizeIndexFields(items, 0);
      DecodeEncoded(b, p, IndexFields(items, 0));
      ReadIndexFields(items, 0);
    case Doc(obj) => DecodeEncoded(b, p, obj.fields);
    case _ => DecodeEncodedScalar(b, p, v);
  }

  lemma DecodeEncodedScalar(b: Bytes, p: nat, v: Value)
    requires p > 0 && JsValue(v) && !v.Arr? && !v.Doc? && At(b, p, Payload(v)) && |Payload(v)| < TWO_31
    ensures DecodeValue(b, Tag(v), p) == Got(ReadBack(v), p + |Payload(v)|)
  {
    match v
    case Bool(x) => assert b[p] == b[p..p + 1][0];
    case Int(n) => if FitsInt32(n) { GetPushedI32(b, p, n); } else { GetPushedI64(b, p, n); }
    case Str(s) => DecodeEncodedString(b, p, s);
    case _ =>
  }

  lemma DecodeEncodedString(b: Bytes, p: nat, s: Bytes)
    requires p > 0 && At(b, p, PushI32(|s| + 1) + s + [0]) && |s| + 5 < TWO_31
    ensures DecodeString(b, p) == Got(Str(s), p + |s| + 5)
  {
    AtSplit(b, p, PushI32(|s| + 1) + s, [0]);
    AtSplit(b, p, PushI32(|s| + 1), s);
    PrefixReads(b, p, |s| + 1);
  }

  // ---- exactly when the round trip is the identity ---------------------------

  /** The value as a reader should see it: `undefined` is stored as null. */
  function Normal(v: Value): (r: Value)
    decreases v, 1
  {
    match v
    case Undefined => Null
    case Arr(items) => Arr(NormalItems(items))
    case Doc(obj) => Doc(Object(NormalFields(obj.fields), Shared))
    case _ => v
  }

  function NormalItems(items: seq<Value>): (r: seq<Value>)
    ensures |r| == |items|
    decreases items, 0
  {
    if items == [] then [] else [Normal(items[0])] + NormalItems(items[1..])
  }

  function NormalFields(fields: seq<Field>): (r: seq<Field>)
    ensures |r| == |fields|
    ensures forall i :: 0 <= i < |r| ==> r[i].name == fields[i].name
    decreases fields, 0
  {
    if fields == [] then []
    else [Field(fields[0].name, Normal(fields[0].value))] + NormalFields(fields[1..])
  }

  /** No name is `__proto__` and every integer fits in 64 bits, at every depth. */
  predicate Exact(v: Value)
    decreases v, 1
  {
    match v
    case Int(n) => -TWO_63 <= n < TWO_63
    case Arr(items) => ExactItems(items)
    case Doc(obj) => ExactFields(obj.fields)
    case _ => true
  }

  predicate ExactItems(items: seq<Value>)
    decreases items, 0
  {
    items == [] || (Exact(items[0]) && ExactItems(items[1..]))
  }

  predicate ExactFields(fields: seq<Field>)
    decreases fields, 0
  {
    fields == [] || (fields[0].name != PROTO && Exact(fields[0].value) && ExactFields(fields[1..]))
  }

  lemma {:induction false} ReadIsNormal(v: Value)
    requires JsValue(v)
    ensures ReadBack(v) == Normal(v) <==> Exact(v)
    decreases v, 1
  {
    match v
    case Int(n) => RoundOfWrap(n);
    case Arr(items) => ReadItemsAreNormal(items);
    case Doc(obj) => ReadFieldsAreNormal(obj.fields);
    case _ =>
  }

  lemma RoundOfWrap(n: int)
    requires Float64.Round(n) == n
    ensures Float64.Round(Wrap64(n)) == n <==> -TWO_63 <= n < TWO_63
  {
    Float64.RoundOfInt64(Wrap64(n));
    assert n == TWO_63 ==> Wrap64(n) == -TWO_63;
  }

  lemma {:induction false} ReadItemsAreNormal(items: seq<Value>)
    requires JsItems(items)
    ensures ReadItems(items) == NormalItems(items) <==> ExactItems(items)
    decreases items, 0
  {
    if items != [] {
      ReadIsNormal(items[0]);
      ReadItemsAreNormal(items[1..]);
      ConsEqual(ReadBack(items[0]), ReadItems(items[1..]), Normal(items[0]), NormalItems(items[1..]));
    }
  }

  lemma {:induction false} ReadFieldsAreNormal(fields: seq<Field>)
    requires JsFields(fields)
    ensures ReadFields(fields) == NormalFields(fields) <==> ExactFields(fields)
    ensures ExactFields(fields) ==> LastProto(Shared, ReadValues(fields)) == Shared
    decreases fields, 0
  {
    if fields != [] {
      var f, rest := fields[0], fields[1..];
      ReadIsNormal(f.value);
      ReadFieldsAreNormal(rest);
      var raw := ReadValues(fields);
      assert raw[1..] == ReadValues(rest);
      if f.name == PROTO {
        DropProtoShrinks(raw[1..]);
      } else {
        ConsEqual(raw[0], ReadFields(rest), Field(f.name, Normal(f.value)), NormalFields(rest));
      }
    }
  }

  lemma ConsEqual<T>(x: T, s: seq<T>, y: T, t: seq<T>)
    ensures [x] + s == [y] + t <==> x == y && s == t
  {
    if [x] + s == [y] + t {
      assert ([x] + s)[0] == ([y] + t)[0];
      assert ([x] + s)[1..] == s && ([y] + t)[1..] == t;
    }
  }

  lemma {:induction false} DropProtoShrinks(fields: seq<Field>)
    ensures |DropProto(fields)| <= |fields|
  {
    if fields != [] { DropProtoShrinks(fields[1..]); }
  }

  // A decoded name ends at the first NUL, so it has none.
  lemma {:induction false} DecodedNulFree(b: Bytes, start: nat)
    ensures DecodeDoc(b, start).Done? ==> NulFreeFields(DecodeDoc(b, start).obj.fields)
    ensures DecodeDoc(b, start).Done? ==> start + 4 <= |b| && DecodeDoc(b, start).end == start + GetI32(b, start)
    decreases Left(b, start), 2
  {
    if start + 4 <= |b| {
      DecodedFieldsNulFree(b, start + 4, start + GetI32(b, start));
      var r := DecodeFields(b, start + 4, start + GetI32(b, start));
      if r.All? { AssembleNulFree(EMPTY, r.raw); }
    }
  }

  lemma {:induction false} DecodedFieldsNulFree(b: Bytes, off: nat, end: int)
    ensures DecodeFields(b, off, end).All? ==> NulFreeFields(DecodeFields(b, off, end).raw)
    decreases Left(b, off), 4
  {
    if off < end - 1 {
      DecodedElementNulFree(b, off);
      var e := DecodeElement(b, off);
      if e.Next? { DecodedFieldsNulFree(b, e.off, end); }
    }
  }

  lemma {:induction false} DecodedElementNulFree(b: Bytes, off: nat)
    ensures DecodeElement(b, off).Next? ==>
              0 !in DecodeElement(b, off).field.name && NulFree(DecodeElement(b, off).field.value)
    decreases Left(b, off), 1
  {
    if off < |b| && FindNul(b, off + 1) < |b| {
      DecodedValueNulFree(b, b[off], FindNul(b, off + 1) + 1);
    }
  }

  lemma {:induction false} DecodedValueNulFree(b: Bytes, tag: Byte, p: nat)
    requires p > 0
    ensures DecodeValue(b, tag, p).Got? ==> NulFree(DecodeValue(b, tag, p).value)
    decreases Left(b, p), 3
  {
    if tag == 0x03 || tag == 0x04 { DecodedNulFree(b, p); }
  }

  lemma {:induction false} AssembleNulFree(obj: Object, raw: seq<Field>)
    requires NulFreeFields(obj.fields) && NulFreeFields(raw)
    ensures NulFreeFields(Assemble(obj, raw).fields)
    decreases |raw|
  {
    if raw != [] {
      InsertNulFree(obj.fields, raw[0]);
      AssembleNulFree(Put(obj, raw[0].name, raw[0].value), raw[1..]);
    }
  }

  lemma {:induction false} InsertNulFree(obj: seq<Field>, f: Field)
    requires NulFreeFields(obj) && 0 !in f.name && NulFree(f.value)
    ensures NulFreeFields(Insert(obj, f.name, f.value))
  {
    if obj != [] { InsertNulFree(obj[1..], f); }
  }

  lemma {:induction false} NormalNulFree(v: Value)
    requires NulFree(Normal(v))
    ensures NulFree(v)
    decreases v, 1
  {
    match v
    case Arr(items) =>
      forall i | 0 <= i < |items| ensures NulFree(items[i]) {
        NormalItemsAre(items, i);
        NormalNulFree(items[i]);
      }
    case Doc(obj) => NormalFieldsNulFree(obj.fields);
    case _ =>
  }

  lemma {:induction false} NormalItemsAre(items: seq<Value>, i: nat)
    requires i < |items|
    ensures NormalItems(items)[i] == Normal(items[i])
    decreases |items|
  {
    if i > 0 { NormalItemsAre(items[1..], i - 1); }
  }

  lemma {:induction false} NormalFieldsNulFree(fields: seq<Field>)
    requires NulFreeFields(NormalFields(fields))
    ensures NulFreeFields(fields)
    decreases fields, 0
  {
    if fields != [] {
      var normal := NormalFields(fields);
      assert normal[0].value == Normal(fields[0].value);
      NormalNulFree(fields[0].value);
      assert normal[1..] == NormalFields(fields[1..]);
      NormalFieldsNulFree(fields[1..]);
      assert fields == [fields[0]] + fields[1..];
    }
  }

  /**
    The round trip is the identity, and consumes exactly the encoding, if and only if
    the encoding is shorter than 2^31 octets, no name contains a NUL or is `__proto__`,
    and every integer fits in 64 bits.
   */
  lemma RoundTrip(b: Bytes, start: nat, fields: seq<Field>)
    requires JsObject(fields) && At(b, start, EncodeDoc(fields))
    ensures DecodeDoc(b, start) == Done(Object(NormalFields(fields), Shared), start + |EncodeDoc(fields)|)
       <==> |EncodeDoc(fields)| < TWO_31 && NulFreeFields(fields) && ExactFields(fields)
  {
    DecodedNulFree(b, start);
    ReadFieldsAreNormal(fields);
    if |EncodeDoc(fields)| < TWO_31 {
      if NulFreeFields(fields) {
        DecodeEncoded(b, start, fields);
      } else if NulFreeFields(NormalFields(fields)) {
        NormalFieldsNulFree(fields);
      }
    }
  }
}
