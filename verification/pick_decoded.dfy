/** Documents as the decoder makes them, with the prototypes their octets set. */
module PickDecoded {
  import opened Bytes
  import opened Text
  import Json
  import Float64
  import Bson
  import BsonRoundTrip
  import opened JsObjects
  import opened PickHeap
  import PickLists
  import opened PickAgrees
  import PickShown
  import PickShared
  import Pick

  /** A name as the string its octets spell. */
  function NameOf(name: Bytes): (s: string) { FromAscii(name) }

  /** How values that are neither object nor array are shown. */
  type Render = Bson.Value -> Json.Value

  ghost predicate Scalars(show: Render) {
    forall v: Bson.Value :: !show(v).Obj? && !show(v).Arr?
  }

  // ---- the decoded value in a world ------------------------------------------

  function Load(show: Render, v: Bson.Value, w: World): (r: (Val, World))
    decreases v
  {
    match v
    case Doc(obj) => LoadObject(show, obj, w)
    case Arr(items) => var (xs, w') := LoadItems(show, items, w); (List(xs), w')
    case _ => (Atom(show(v)), w)
  }

  function LoadItems(show: Render, items: seq<Bson.Value>, w: World): (r: (seq<Val>, World))
    ensures |r.0| == |items|
    decreases items
  {
    if items == [] then ([], w)
    else
      var (xs, w1) := LoadItems(show, items[..|items| - 1], w);
      var (x, w2) := Load(show, items[|items| - 1], w1);
      (xs + [x], w2)
  }

  function LoadFields(show: Render, fields: seq<Bson.Field>, w: World): (r: (map<string, Val>, World))
    decreases fields
  {
    if fields == [] then (map[], w)
    else
      var (m, w1) := LoadFields(show, fields[..|fields| - 1], w);
      var (x, w2) := Load(show, fields[|fields| - 1].value, w1);
      (m[NameOf(fields[|fields| - 1].name) := x], w2)
  }

  function LoadObject(show: Render, obj: Bson.Object, w: World): (r: (Val, World))
    decreases obj
  {
    var (m, w1) := LoadFields(show, obj.fields, w);
    match obj.proto
    case Shared => Placed(Object(m, Shared), w1)
    case Nothing => Placed(Object(m, Nothing), w1)
    case Inner(o) => var (x, w2) := LoadObject(show, o, w1); Placed(Object(m, Is(x)), w2)
    case List(items) => var (xs, w2) := LoadItems(show, items, w1); Placed(Object(m, Is(List(xs))), w2)
  }

  function Placed(o: Object, w: World): (r: (Val, World))
  {
    (Ref(w.next), World(w.objects[w.next := o], w.shared, w.next + 1))
  }

  // ---- the record it is by its own fields ------------------------------------

  function RecordOf(show: Render, v: Bson.Value): (j: Json.Value)
    decreases v
  {
    match v
    case Doc(obj) => Json.Obj(RecordFields(show, obj.fields))
    case Arr(items) => Json.Arr(RecordItems(show, items))
    case _ => show(v)
  }

  function RecordItems(show: Render, items: seq<Bson.Value>): (js: seq<Json.Value>)
    ensures |js| == |items|
    decreases items
  {
    if items == [] then []
    else RecordItems(show, items[..|items| - 1]) + [RecordOf(show, items[|items| - 1])]
  }

  function RecordFields(show: Render, fields: seq<Bson.Field>): (m: map<string, Json.Value>)
    decreases fields
  {
    if fields == [] then map[]
    else RecordFields(show, fields[..|fields| - 1])
      [NameOf(fields[|fields| - 1].name) := RecordOf(show, fields[|fields| - 1].value)]
  }

  /** At every depth the shared prototype, and no own property called `__proto__`. */
  predicate Uniform(v: Bson.Value)
    decreases v
  {
    match v
    case Doc(obj) => obj.proto == Bson.Shared && !Bson.Owns(obj.fields, Bson.PROTO) && UniformFields(obj.fields)
    case Arr(items) => UniformItems(items)
    case _ => true
  }

  predicate UniformItems(items: seq<Bson.Value>)
    decreases items
  {
    items == [] || (UniformItems(items[..|items| - 1]) && Uniform(items[|items| - 1]))
  }

  predicate UniformFields(fields: seq<Bson.Field>)
    decreases fields
  {
    fields == [] || (UniformFields(fields[..|fields| - 1]) && Uniform(fields[|fields| - 1].value))
  }

  // ---- what loading leaves ---------------------------------------------------

  /** The second world has the objects of the first as they were, and is as sound. */
  ghost predicate Extends(w: World, w': World) {
    && (forall r :: r in w.objects ==> r in w'.objects && w'.objects[r] == w.objects[r])
    && Allocated(w') && ClosedProtos(w') && w'.shared == w.shared
  }

  ghost predicate Sound(w: World) { Allocated(w) && ClosedProtos(w) }

  lemma ExtendsKept(w: World, w': World)
    requires Extends(w, w')
    ensures Kept(Own(w), Own(w'))
  {
  }

  predicate IsVal(w: World, x: Val) { x.Atom? || x.List? || (x.Ref? && x.r in w.objects) }

  lemma ExtendsOn(w: World, w1: World, w2: World)
    requires Extends(w, w1) && Extends(w1, w2)
    ensures Extends(w, w2)
  {
    hide ClosedProtos;
  }

  lemma RepExtends(w: World, w': World, x: Val, j: Json.Value)
    requires Extends(w, w') && Rep(Own(w), x, j) && IsVal(w, x)
    ensures Rep(Own(w'), x, j) && IsVal(w', x)
  {
    ExtendsKept(w, w');
    RepKept(Own(w), Own(w'), x, j);
  }

  /** A value loaded: what it stands for, and whether prototypes are as they came. */
  ghost predicate Loads(show: Render, v: Bson.Value, w: World, x: Val, w': World) {
    && Extends(w, w') && IsVal(w', x) && Rep(Own(w'), x, RecordOf(show, v))
    && (Unaltered(w') <==> Unaltered(w) && Uniform(v))
  }

  ghost predicate LoadsItems(show: Render, items: seq<Bson.Value>, w: World, xs: seq<Val>, w': World) {
    && Extends(w, w') && |xs| == |items|
    && (forall i :: 0 <= i < |xs| ==> IsVal(w', xs[i]) && Rep(Own(w'), xs[i], RecordItems(show, items)[i]))
    && (Unaltered(w') <==> Unaltered(w) && UniformItems(items))
  }

  ghost predicate LoadsFields(show: Render, fields: seq<Bson.Field>, w: World, m: map<string, Val>, w': World) {
    && Extends(w, w') && m.Keys == RecordFields(show, fields).Keys
    && (forall k :: k in m ==> IsVal(w', m[k]) && Rep(Own(w'), m[k], RecordFields(show, fields)[k]))
    && (PROTO in m <==> Bson.Owns(fields, Bson.PROTO))
    && (Unaltered(w') <==> Unaltered(w) && UniformFields(fields))
  }

  lemma ProtoName(name: Bytes)
    ensures NameOf(name) == PROTO <==> name == Bson.PROTO
  {
    if NameOf(name) == PROTO {
      assert forall i :: 0 <= i < |name| ==> name[i] == PROTO[i] as int;
      assert name == Bson.PROTO;
    }
    if name == Bson.PROTO {
      assert forall i :: 0 <= i < |name| ==> NameOf(name)[i] == PROTO[i];
    }
  }

  lemma OwnsLast(fields: seq<Bson.Field>)
    requires fields != []
    ensures var front, last := fields[..|fields| - 1], fields[|fields| - 1];
      Bson.Owns(fields, Bson.PROTO) <==> Bson.Owns(front, Bson.PROTO) || last.name == Bson.PROTO
  {
    var front := fields[..|fields| - 1];
    if i :| 0 <= i < |front| && front[i].name == Bson.PROTO { assert fields[i].name == Bson.PROTO; }
    if i :| 0 <= i < |fields| && fields[i].name == Bson.PROTO { assert i < |front| ==> front[i].name == Bson.PROTO; }
  }

  lemma {:induction false} LoadIs(show: Render, v: Bson.Value, w: World)
    requires Scalars(show) && Sound(w)
    ensures Loads(show, v, w, Load(show, v, w).0, Load(show, v, w).1)
    decreases v
  {
    match v
    case Doc(obj) => LoadObjectIs(show, obj, w);
    case Arr(items) => LoadItemsAre(show, items, w);
    case _ =>
  }

  lemma {:induction false} LoadItemsAre(show: Render, items: seq<Bson.Value>, w: World)
    requires Scalars(show) && Sound(w)
    ensures LoadsItems(show, items, w, LoadItems(show, items, w).0, LoadItems(show, items, w).1)
    decreases items
  {
    if items != [] {
      var front, last := items[..|items| - 1], items[|items| - 1];
      LoadItemsAre(show, front, w);
      var (xs, w1) := LoadItems(show, front, w);
      LoadIs(show, last, w1);
      var (x, w2) := Load(show, last, w1);
      hide Load, Rep, RecordOf, Unaltered, Scalars;
      ItemsJoin(show, items, w, xs, w1, x, w2);
    }
  }

  lemma ItemsJoin(show: Render, items: seq<Bson.Value>, w: World, xs: seq<Val>, w1: World, x: Val, w2: World)
    requires items != [] && LoadsItems(show, items[..|items| - 1], w, xs, w1) && Loads(show, items[|items| - 1], w1, x, w2)
    ensures LoadsItems(show, items, w, xs + [x], w2)
  {
    hide Rep, RecordOf, Unaltered, Uniform, IsVal;
    ExtendsOn(w, w1, w2);
    var js, all := RecordItems(show, items), xs + [x];
    forall i | 0 <= i < |all| ensures IsVal(w2, all[i]) && Rep(Own(w2), all[i], js[i]) {
      if i < |xs| { RepExtends(w1, w2, xs[i], RecordItems(show, items[..|items| - 1])[i]); }
    }
  }

  lemma {:induction false} LoadFieldsAre(show: Render, fields: seq<Bson.Field>, w: World)
    requires Scalars(show) && Sound(w)
    ensures LoadsFields(show, fields, w, LoadFields(show, fields, w).0, LoadFields(show, fields, w).1)
    decreases fields
  {
    if fields != [] {
      var front, last := fields[..|fields| - 1], fields[|fields| - 1];
      LoadFieldsAre(show, front, w);
      var (m, w1) := LoadFields(show, front, w);
      LoadIs(show, last.value, w1);
      var (x, w2) := Load(show, last.value, w1);
      hide Load, Rep, RecordOf, Unaltered, Scalars;
      FieldsJoin(show, fields, w, m, w1, x, w2);
    }
  }

  lemma FieldsJoin(show: Render, fields: seq<Bson.Field>, w: World, m: map<string, Val>, w1: World, x: Val, w2: World)
    requires fields != [] && LoadsFields(show, fields[..|fields| - 1], w, m, w1)
    requires Loads(show, fields[|fields| - 1].value, w1, x, w2)
    ensures LoadsFields(show, fields, w, m[NameOf(fields[|fields| - 1].name) := x], w2)
  {
    hide Rep, RecordOf, Unaltered, Uniform, IsVal, Bson.Owns;
    ExtendsOn(w, w1, w2);
    ProtoName(fields[|fields| - 1].name);
    OwnsLast(fields);
    hide NameOf;
    var js, name := RecordFields(show, fields), NameOf(fields[|fields| - 1].name);
    var all := m[name := x];
    forall k | k in all ensures IsVal(w2, all[k]) && Rep(Own(w2), all[k], js[k]) {
      if k != name { RepExtends(w1, w2, m[k], RecordFields(show, fields[..|fields| - 1])[k]); }
    }
  }

  /** The object itself goes in last. */
  lemma PlaceIs(w: World, o: Object, js: map<string, Json.Value>)
    requires Sound(w) && o.fields.Keys == js.Keys
    requires forall k :: k in o.fields ==> IsVal(w, o.fields[k]) && Rep(Own(w), o.fields[k], js[k])
    requires o.proto.Is? ==> o.proto.v.List? || (o.proto.v.Ref? && o.proto.v.r in w.objects)
    ensures var (x, w') := Placed(o, w);
      && Extends(w, w') && IsVal(w', x) && Rep(Own(w'), x, Json.Obj(js))
      && (Unaltered(w') <==> Unaltered(w) && o.proto == Shared && PROTO !in o.fields)
  {
    var (x, w') := Placed(o, w);
    PlaceExtends(w, o);
    forall k | k in o.fields ensures Rep(Own(w'), o.fields[k], js[k]) {
      RepExtends(w, w', o.fields[k], js[k]);
    }
    assert Own(w')[w.next] == o.fields;
    hide Rep, Extends;
    PlaceUnaltered(w, o);
  }

  lemma PlaceExtends(w: World, o: Object)
    requires Sound(w) && (o.proto.Is? ==> o.proto.v.List? || (o.proto.v.Ref? && o.proto.v.r in w.objects))
    ensures Extends(w, Placed(o, w).1) && w.next !in w.objects
  {
  }

  lemma PlaceUnaltered(w: World, o: Object)
    requires Allocated(w) && forall k :: k in o.fields ==> o.fields[k] != Prototype
    ensures Unaltered(Placed(o, w).1) <==> Unaltered(w) && o.proto == Shared && PROTO !in o.fields
  {
    var w' := Placed(o, w).1;
    assert w'.objects[w.next] == o && w.next !in w.objects;
    assert forall r :: r in w.objects ==> w'.objects[r] == w.objects[r] && Own(w')[r] == Own(w)[r];
    assert Own(w')[w.next] == o.fields;
    if Unaltered(w') {
      assert forall r :: r in w.objects ==> w'.objects[r].proto == Shared;
    }
  }

  lemma {:induction false} LoadObjectIs(show: Render, obj: Bson.Object, w: World)
    requires Scalars(show) && Sound(w)
    ensures Loads(show, Bson.Doc(obj), w, LoadObject(show, obj, w).0, LoadObject(show, obj, w).1)
    ensures LoadObject(show, obj, w).0.Ref?
    decreases obj
  {
    LoadFieldsAre(show, obj.fields, w);
    var (m, w1) := LoadFields(show, obj.fields, w);
    match obj.proto
    case Shared => ObjectIs(show, obj, w, m, w1, Shared, w1);
    case Nothing => ObjectIs(show, obj, w, m, w1, Nothing, w1);
    case Inner(o) =>
      LoadObjectIs(show, o, w1);
      var (x, w2) := LoadObject(show, o, w1);
      ObjectIs(show, obj, w, m, w1, Is(x), w2);
    case List(items) =>
      LoadItemsAre(show, items, w1);
      var (xs, w2) := LoadItems(show, items, w1);
      ObjectIs(show, obj, w, m, w1, Is(List(xs)), w2);
  }

  lemma ObjectIs(show: Render, obj: Bson.Object, w: World, m: map<string, Val>, w1: World, proto: Proto, w2: World)
    requires LoadsFields(show, obj.fields, w, m, w1) && Sound(w1)
    requires w2 == w1 || Extends(w1, w2)
    requires proto == Shared <==> obj.proto == Bson.Shared
    requires proto.Is? ==> proto.v.List? || (proto.v.Ref? && proto.v.r in w2.objects)
    requires proto == Shared ==> w2 == w1
    requires Unaltered(w2) ==> Unaltered(w1)
    ensures var (x, w') := Placed(Object(m, proto), w2); Loads(show, Bson.Doc(obj), w, x, w')
  {
    var js, o := RecordFields(show, obj.fields), Object(m, proto);
    hide Rep, RecordFields, Unaltered, UniformFields, Bson.Owns;
    forall k | k in m ensures IsVal(w2, m[k]) && Rep(Own(w2), m[k], js[k]) {
      if w2 != w1 { RepExtends(w1, w2, m[k], js[k]); }
    }
    PlaceIs(w2, o, js);
    if w2 != w1 { ExtendsOn(w, w1, w2); }
    ExtendsOn(w, w2, Placed(o, w2).1);
  }

  // ---- what was stored -------------------------------------------------------

  /** A value the setter ignores. */
  predicate Inert(v: Bson.Value) { v.Bool? || v.Int? || v.Double? || v.Str? }

  /** At every depth a property called `__proto__` holds at most a value the setter ignores. */
  predicate KeepsPrototypes(v: Bson.Value)
    decreases v, 1
  {
    match v
    case Doc(obj) => FieldsKeep(obj.fields)
    case Arr(items) => forall i :: 0 <= i < |items| ==> KeepsPrototypes(items[i])
    case _ => true
  }

  predicate FieldsKeep(fields: seq<Bson.Field>)
    decreases fields, 0
  {
    forall i :: 0 <= i < |fields| ==>
      if fields[i].name == Bson.PROTO then Inert(fields[i].value) else KeepsPrototypes(fields[i].value)
  }

  lemma {:induction false} ItemsUniformIff(items: seq<Bson.Value>)
    ensures UniformItems(items) <==> forall i :: 0 <= i < |items| ==> Uniform(items[i])
    decreases items
  {
    if items != [] {
      ItemsUniformIff(items[..|items| - 1]);
      hide Uniform;
      assert items == items[..|items| - 1] + [items[|items| - 1]];
    }
  }

  lemma {:induction false} FieldsUniformIff(fields: seq<Bson.Field>)
    ensures UniformFields(fields) <==> forall f :: f in fields ==> Uniform(f.value)
    decreases fields
  {
    if fields != [] {
      FieldsUniformIff(fields[..|fields| - 1]);
      hide Uniform;
      assert fields == fields[..|fields| - 1] + [fields[|fields| - 1]];
    }
  }

  lemma {:induction false} DroppedAre(raw: seq<Bson.Field>, f: Bson.Field)
    ensures f in BsonRoundTrip.DropProto(raw) <==> f in raw && f.name != Bson.PROTO
  {
    if raw != [] {
      DroppedAre(raw[1..], f);
      assert raw == [raw[0]] + raw[1..];
    }
  }

  lemma NoneOwned(raw: seq<Bson.Field>)
    ensures !Bson.Owns(BsonRoundTrip.DropProto(raw), Bson.PROTO)
  {
    var kept := BsonRoundTrip.DropProto(raw);
    forall i | 0 <= i < |kept| ensures kept[i].name != Bson.PROTO {
      DroppedAre(raw, kept[i]);
    }
  }

  predicate Ignored(f: Bson.Field) {
    f.name == Bson.PROTO ==> !f.value.Doc? && !f.value.Arr? && !f.value.Null?
  }

  lemma {:induction false} SharedIff(proto: Bson.Proto, raw: seq<Bson.Field>)
    ensures BsonRoundTrip.LastProto(proto, raw) == Bson.Shared <==>
      proto == Bson.Shared && forall f :: f in raw ==> Ignored(f)
    decreases |raw|
  {
    if raw != [] {
      var next := if raw[0].name == Bson.PROTO then Bson.SetProto(proto, raw[0].value) else proto;
      SharedIff(next, raw[1..]);
      assert raw == [raw[0]] + raw[1..];
      assert next == Bson.Shared <==> proto == Bson.Shared && Ignored(raw[0]);
      assert (forall f :: f in raw ==> Ignored(f)) <==> Ignored(raw[0]) && forall f :: f in raw[1..] ==> Ignored(f);
    }
  }

  lemma {:induction false} ReadValuesAre(fields: seq<Bson.Field>, i: nat)
    requires i < |fields|
    ensures BsonRoundTrip.ReadValues(fields)[i] == Bson.Field(fields[i].name, BsonRoundTrip.ReadBack(fields[i].value))
    decreases |fields|
  {
    if i > 0 { ReadValuesAre(fields[1..], i - 1); }
  }

  lemma {:induction false} ReadItemsAre(items: seq<Bson.Value>, i: nat)
    requires i < |items|
    ensures BsonRoundTrip.ReadItems(items)[i] == BsonRoundTrip.ReadBack(items[i])
    decreases |items|
  {
    if i > 0 { ReadItemsAre(items[1..], i - 1); }
  }

  lemma ReadOfDoc(obj: Bson.Object)
    ensures BsonRoundTrip.ReadBack(Bson.Doc(obj)) == Bson.Doc(BsonRoundTrip.ReadObject(obj.fields))
    ensures KeepsPrototypes(Bson.Doc(obj)) <==> FieldsKeep(obj.fields)
  {
  }

  /** What is read back has unaltered prototypes exactly when what was stored keeps them. */
  lemma {:induction false} ReadIsUniformIff(v: Bson.Value)
    requires BsonRoundTrip.JsValue(v)
    ensures Uniform(BsonRoundTrip.ReadBack(v)) <==> KeepsPrototypes(v)
    decreases v, 1
  {
    match v
    case Doc(obj) =>
      ReadFieldsUniformIff(obj.fields);
      ReadOfDoc(obj);
    case Arr(items) =>
      ItemsUniformIff(BsonRoundTrip.ReadItems(items));
      forall i | 0 <= i < |items| ensures Uniform(BsonRoundTrip.ReadItems(items)[i]) <==> KeepsPrototypes(items[i]) {
        ReadItemsAre(items, i);
        ReadIsUniformIff(items[i]);
      }
    case _ =>
  }

  lemma {:induction false} ReadFieldsUniformIff(fields: seq<Bson.Field>)
    requires BsonRoundTrip.JsFields(fields)
    ensures Uniform(Bson.Doc(BsonRoundTrip.ReadObject(fields))) <==> FieldsKeep(fields)
    decreases fields, 0
  {
    var raw := BsonRoundTrip.ReadValues(fields);
    NoneOwned(raw);
    SharedIff(Bson.Shared, raw);
    FieldsUniformIff(BsonRoundTrip.DropProto(raw));
    forall i | 0 <= i < |fields| ensures Goes(raw[i]) <==> Stays(fields[i]) {
      ReadValuesAre(fields, i);
      ReadIsUniformIff(fields[i].value);
    }
    forall f ensures f in BsonRoundTrip.DropProto(raw) <==> f in raw && f.name != Bson.PROTO {
      DroppedAre(raw, f);
    }
    RawUniformIff(raw);
    assert FieldsKeep(fields) <==> forall i :: 0 <= i < |fields| ==> Stays(fields[i]);
  }

  predicate Goes(f: Bson.Field) { if f.name == Bson.PROTO then Ignored(f) else Uniform(f.value) }

  predicate Stays(f: Bson.Field)
  {
    if f.name == Bson.PROTO then Inert(f.value) else KeepsPrototypes(f.value)
  }

  lemma RawUniformIff(raw: seq<Bson.Field>)
    ensures (forall i :: 0 <= i < |raw| ==> Goes(raw[i])) <==>
      (forall f :: f in raw ==> Ignored(f)) && (forall f :: f in raw && f.name != Bson.PROTO ==> Uniform(f.value))
  {
    hide Uniform;
    if forall i :: 0 <= i < |raw| ==> Goes(raw[i]) {
      forall f | f in raw ensures Goes(f) {
      }
    } else {
      var i :| 0 <= i < |raw| && !Goes(raw[i]);
      assert raw[i] in raw;
    }
  }

  // ---- from octets to `pick` -------------------------------------------------

  const START: World := World(map[], BASE, 0)

  /** The document a decoded object is. */
  function Loaded(show: Render, obj: Bson.Object): (d: Document)
  {
    var (x, w) := LoadObject(show, obj, START);
    Document(w, x, RecordOf(show, Bson.Doc(obj)))
  }

  lemma LoadedIs(show: Render, obj: Bson.Object)
    requires Scalars(show)
    ensures IsDocument(Loaded(show, obj)) && (Unaltered(Loaded(show, obj).w) <==> Uniform(Bson.Doc(obj)))
  {
    LoadObjectIs(show, obj, START);
    hide BASE;
  }

  /** A record stored, and read from any buffer that holds its encoding. */
  ghost predicate Stored(b: Bytes, start: nat, fields: seq<Bson.Field>) {
    && BsonRoundTrip.JsObject(fields) && BsonRoundTrip.NulFreeFields(fields)
    && BsonRoundTrip.At(b, start, Bson.EncodeDoc(fields)) && |Bson.EncodeDoc(fields)| < TWO_31
  }

  /**
    What the decoder makes of a stored record is a document, and its prototypes
    are unaltered if and only if no property called `__proto__`, at any depth,
    holds an object, an array or null.
   */
  lemma DecodedIsUnalteredIff(show: Render, b: Bytes, start: nat, fields: seq<Bson.Field>)
    requires Scalars(show) && Stored(b, start, fields)
    ensures Bson.DecodeDoc(b, start).Done?
    ensures var d := Loaded(show, Bson.DecodeDoc(b, start).obj);
      IsDocument(d) && (Unaltered(d.w) <==> FieldsKeep(fields))
  {
    BsonRoundTrip.DecodeEncoded(b, start, fields);
    LoadedIs(show, BsonRoundTrip.ReadObject(fields));
    ReadFieldsUniformIff(fields);
  }

  // ---- a record that reaches the shared prototype ----------------------------

  const X: Bson.Object := Bson.Object([Bson.Field([120], Bson.Int(1))], Bson.Shared)
  const INNER: Bson.Object := Bson.Object([Bson.Field(Bson.PROTO, Bson.Doc(X))], Bson.Shared)

  /** The record `{"a": {"__proto__": {"x": 1}}}`. */
  const RECORD: seq<Bson.Field> := [Bson.Field([97], Bson.Doc(INNER))]

  /** What is read back of it: an object without own properties that inherits `x`. */
  const READ: Bson.Object := Bson.Object([Bson.Field([97], Bson.Doc(Bson.Object([], Bson.Inner(X))))], Bson.Shared)

  lemma RecordReadsBack()
    ensures BsonRoundTrip.ReadObject(RECORD) == READ
  {
    ReadOne([120], Bson.Int(1));
    ReadOne(Bson.PROTO, Bson.Doc(X));
    ReadOne([97], Bson.Doc(INNER));
    ReadOfDoc(X);
    ReadOfDoc(INNER);
    assert [120] != Bson.PROTO && [97] != Bson.PROTO by { assert |Bson.PROTO| == 9; }
  }

  lemma ReadOne(name: Bytes, v: Bson.Value)
    ensures var x := BsonRoundTrip.ReadBack(v);
      BsonRoundTrip.ReadObject([Bson.Field(name, v)]) ==
      if name == Bson.PROTO then Bson.Object([], Bson.SetProto(Bson.Shared, x))
      else Bson.Object([Bson.Field(name, x)], Bson.Shared)
  {
    var fields := [Bson.Field(name, v)];
    var raw := BsonRoundTrip.ReadValues(fields);
    assert fields[1..] == [];
    assert raw == [Bson.Field(name, BsonRoundTrip.ReadBack(v))] && raw[1..] == [];
    var next := if name == Bson.PROTO then Bson.SetProto(Bson.Shared, BsonRoundTrip.ReadBack(v)) else Bson.Shared;
    assert BsonRoundTrip.LastProto(Bson.Shared, raw) == BsonRoundTrip.LastProto(next, []) == next;
    assert BsonRoundTrip.DropProto([]) == [];
  }

  lemma RecordIsJs()
    ensures BsonRoundTrip.JsObject(RECORD) && BsonRoundTrip.NulFreeFields(RECORD)
    ensures |Bson.EncodeDoc(RECORD)| < TWO_31
  {
    Float64.RoundExact(1);
    assert BsonRoundTrip.JsValue(Bson.Doc(X)) && BsonRoundTrip.JsValue(Bson.Doc(INNER));
    assert BsonRoundTrip.NulFree(Bson.Doc(X)) && BsonRoundTrip.NulFree(Bson.Doc(INNER));
    OneField([120], Bson.Int(1));
    OneField(Bson.PROTO, Bson.Doc(X));
    OneField([97], Bson.Doc(INNER));
  }

  lemma OneField(name: Bytes, v: Bson.Value)
    ensures |Bson.EncodeDoc([Bson.Field(name, v)])| == 7 + |name| + |Bson.Payload(v)|
  {
    var fields := [Bson.Field(name, v)];
    BsonRoundTrip.EncodeFieldsStep(fields);
    assert fields[1..] == [] && Bson.EncodeFields([]) == [];
  }

  /** The objects of the document: the prototype, the object that has it, and the root. */
  function Objects(x: Val): (m: map<nat, Object>)
  {
    map[0 := Object(map["x" := x], Shared), 1 := Object(map[], Is(Ref(0))), 2 := Object(map["a" := Ref(1)], Shared)]
  }

  lemma RecordLoads(show: Render)
    ensures Loaded(show, READ).w == World(Objects(Atom(show(Bson.Int(1)))), BASE, 3) && Loaded(show, READ).v == Ref(2)
    ensures Loaded(show, READ).j == Json.Obj(map["a" := Json.Obj(map[])])
  {
    var one := Atom(show(Bson.Int(1)));
    assert NameOf([120]) == "x" && NameOf([97]) == "a";
    var w1 := World(map[0 := Object(map["x" := one], Shared)], BASE, 1);
    assert X.fields[..0] == [] && READ.fields[..0] == [];
    assert LoadFields(show, X.fields, START) == (map["x" := one], START);
    assert LoadObject(show, X, START) == (Ref(0), w1);
    var a := Bson.Object([], Bson.Inner(X));
    var w2 := World(w1.objects[1 := Object(map[], Is(Ref(0)))], BASE, 2);
    assert LoadObject(show, a, START) == (Ref(1), w2);
    assert LoadFields(show, READ.fields, START) == (map["a" := Ref(1)], w2);
    assert RecordOf(show, Bson.Doc(a)) == Json.Obj(map[]);
    assert RecordFields(show, READ.fields) == map["a" := Json.Obj(map[])];
  }

  const SPILL: Json.Path := ["a", PROTO, "x"]

  /** No inherited name is this short. */
  lemma ShortIsPlain(k: string)
    requires |k| == 1
    ensures k !in INHERITED && k != PROTO
  {
  }

  lemma SpillSpills()
    ensures PickShared.Spills(SPILL) && PickLists.FirstProto(SPILL) == 1
    ensures SPILL[..1] == ["a"] && SPILL[2..] == ["x"]
  {
    ShortIsPlain("a");
    ShortIsPlain("x");
    hide INHERITED;
    var rest := SPILL[1..];
    assert rest[0] == PROTO;
    assert PickLists.FirstProto(rest) == 0;
  }

  lemma SpillFound(show: Render)
    ensures var d := Loaded(show, READ); var w := Pick.Opened(d.w);
      Pick.Seek(w, d.v, SPILL) == Some(Atom(show(Bson.Int(1))))
  {
    var d, one := Loaded(show, READ), Atom(show(Bson.Int(1)));
    RecordLoads(show);
    SpillSpills();
    var w, h := Pick.Opened(d.w), Own(d.w);
    assert ["a"][1..] == [] && ["x"][1..] == [];
    assert PickLists.FindOwn(h, Ref(2), ["a"]) == Some(Ref(1)) && PickLists.FindOwn(h, Ref(0), ["x"]) == Some(one);
    PickShared.OwnOfMore(d.w, Object(map[], Shared));
    ShortIsPlain("x");
    PickShared.SpillIsFound(w, d.v, SPILL, 1, 1, 0, d.w, d.w, one);
  }

  /**
    The stored record is read back as an object that inherits `x`. Picking
    `a.__proto__.x` from it assigns `x` to the prototype all objects share, and
    returns an object `a` where the record projection returns nothing; `a.x`,
    plain as it is, is found as well.
   */
  lemma StoredRecordSpills(show: Render, b: Bytes, start: nat) returns (d: Document)
    requires Scalars(show) && BsonRoundTrip.At(b, start, Bson.EncodeDoc(RECORD))
    ensures Bson.DecodeDoc(b, start).Done? && d == Loaded(show, Bson.DecodeDoc(b, start).obj) && IsDocument(d)
    ensures var w := Run(d, [SPILL]).w;
      "x" in w.shared && w.shared["x"] == Atom(show(Bson.Int(1))) && "x" !in BASE
    ensures !Agrees(d, [SPILL]) && !Agrees(d, [["a", "x"]])
  {
    RecordIsJs();
    RecordReadsBack();
    BsonRoundTrip.DecodeEncoded(b, start, RECORD);
    d := Loaded(show, READ);
    LoadedIs(show, READ);
    RecordLoads(show);
    SpillReaches(show, d);
    SpillDisagrees(show, d);
    PlainDisagrees(show, d);
  }

  lemma SpillReaches(show: Render, d: Document)
    requires d == Loaded(show, READ) && IsDocument(d)
    ensures var w := Run(d, [SPILL]).w;
      "x" in w.shared && w.shared["x"] == Atom(show(Bson.Int(1))) && "x" !in BASE
  {
    var one, w := Atom(show(Bson.Int(1))), Pick.Opened(d.w);
    SpillSpills();
    SpillFound(show);
    PickShown.PickedOne(d, SPILL);
    assert PickShown.New(w, d.w.next);
    hide INHERITED;
    var w' := PickShared.SpillComes(w, d.w.next, SPILL, one);
    PickShared.SpillWrites(w', ["x"], one);
    ShortIsPlain("x");
  }

  lemma SpillDisagrees(show: Render, d: Document)
    requires d == Loaded(show, READ) && IsDocument(d) && d.j == Json.Obj(map["a" := Json.Obj(map[])])
    ensures !Agrees(d, [SPILL])
  {
    var one, w := Atom(show(Bson.Int(1))), Pick.Opened(d.w);
    SpillFound(show);
    PickShown.PickedOne(d, SPILL);
    assert PickShown.New(w, d.w.next);
    ShortIsPlain("a");
    hide INHERITED, BASE;
    PickShared.BeginningStays(w, d.w.next, SPILL, one);
    assert SPILL[1..][0] == PROTO && Json.Lookup(d.j, SPILL) == None;
    PickLists.NothingSelected(d.j, [SPILL]);
    hide Pick.Put, Pick.Seek, Loaded;
    assert "a" in Own(Run(d, [SPILL]).w)[d.w.next];
  }

  lemma PlainDisagrees(show: Render, d: Document)
    requires d == Loaded(show, READ) && IsDocument(d)
    ensures !Agrees(d, [["a", "x"]])
  {
    RecordLoads(show);
    ShortIsPlain("a");
    ShortIsPlain("x");
    hide INHERITED, BASE, Rep, Loaded, Agrees;
    assert ["a"][1..] == [];
    assert PickLists.FindOwn(Own(d.w), Ref(2), ["a"]) == Some(Ref(1));
    assert SlotOf(d.w, Ref(0), "x", {1}).Some?;
    assert SlotOf(d.w, Ref(1), "x", {}) == SlotOf(d.w, Ref(0), "x", {} + {1});
    assert PickShown.Extra(d, ["a"], 1, "x");
    PickShown.ExtraDisagrees(d, ["a"], 1, "x");
    assert ["a"] + ["x"] == ["a", "x"];
  }
}
