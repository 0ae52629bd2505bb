/**
  JavaScript objects as far as assigning and reading properties by name goes:
  own fields, prototypes that decoded data can replace, and the one prototype
  that all plain objects share and that can itself be written to.
 */
module JsObjects {
  import opened Text
  import opened Json

  /**
    `Ref` is an object, `List` an array: nothing here writes into one, so it is a
    value. `Prototype` is the object all plain objects share as their prototype.
   */
  datatype Val = Atom(v: Value) | List(items: seq<Val>) | Func(name: string) | Ref(r: nat) | Prototype

  /** What an object inherits from: the shared prototype, nothing, or another object or array. */
  datatype Proto = Shared | Nothing | Is(v: Val)

  datatype Object = Object(fields: map<string, Val>, proto: Proto)

  /** The objects, the fields of the shared prototype, and the next free reference. */
  datatype World = World(objects: map<nat, Object>, shared: map<string, Val>, next: nat)

  /** References from `next` on are free. */
  predicate Allocated(w: World) { forall r :: r in w.objects ==> r < w.next }

  const PROTO: string := "__proto__"

  /** Names every plain object inherits: a function under each, an accessor to its prototype under the last. */
  const INHERITED: set<string> := {
    "constructor", "hasOwnProperty", "isPrototypeOf", "propertyIsEnumerable", "toLocaleString", "toString",
    "valueOf", "__defineGetter__", "__defineSetter__", "__lookupGetter__", "__lookupSetter__", PROTO}

  /** The fields of the shared prototype before anything is written to it. */
  const BASE: map<string, Val> := map k | k in INHERITED && k != PROTO :: Func(k)

  /** The functions an array inherits from its own prototype. */
  const ARRAY_FUNCTIONS: set<string> := {
    "at", "concat", "constructor", "copyWithin", "entries", "every", "fill", "filter", "find", "findIndex",
    "findLast", "findLastIndex", "flat", "flatMap", "forEach", "includes", "indexOf", "join", "keys",
    "lastIndexOf", "map", "pop", "push", "reduce", "reduceRight", "reverse", "shift", "slice", "some", "sort",
    "splice", "toLocaleString", "toReversed", "toSorted", "toSpliced", "toString", "unshift", "values", "with"}

  // ---- reading ---------------------------------------------------------------

  /** What a name leads to: a value, or the accessor `__proto__` of the shared prototype. */
  datatype Slot = Data(v: Val) | Accessor

  function SharedSlot(w: World, k: string): (s: Option<Slot>)
  {
    if k == PROTO then Some(Accessor) else if k in w.shared then Some(Data(w.shared[k])) else None
  }

  function ListSlot(w: World, items: seq<Val>, k: string): (s: Option<Slot>)
  {
    if k == "length" then Some(Data(Atom(Num(Float(|items| as real)))))
    else if k != [] && AllDigits(k) && Print(Text.Value(k)) == k && Text.Value(k) < |items|
    then Some(Data(items[Text.Value(k)]))
    else if k in ARRAY_FUNCTIONS then Some(Data(Func("Array." + k)))
    else SharedSlot(w, k)
  }

  /** The first place along the chain of prototypes that has the name; `seen` are the objects passed. */
  function SlotOf(w: World, v: Val, k: string, seen: set<nat>): (s: Option<Slot>)
    decreases w.objects.Keys - seen
  {
    match v
    case Prototype => SharedSlot(w, k)
    case List(items) => ListSlot(w, items, k)
    case Atom(_) => None
    case Func(_) => None
    case Ref(r) =>
      if r !in w.objects || r in seen then None
      else if k in w.objects[r].fields then Some(Data(w.objects[r].fields[k]))
      else
        match w.objects[r].proto
        case Shared => SharedSlot(w, k)
        case Nothing => None
        case Is(p) => SlotOf(w, p, k, seen + {r})
  }

  /** `typeof v === "object"`, not null and no array. */
  predicate IsObject(v: Val) { v.Ref? || v.Prototype? }

  /** `k in v`. */
  predicate Shows(w: World, v: Val, k: string) { IsObject(v) && SlotOf(w, v, k, {}).Some? }

  /** `Object.getPrototypeOf`. */
  function ProtoOf(w: World, v: Val): (p: Val)
  {
    if !v.Ref? || v.r !in w.objects then Atom(Null)
    else
      match w.objects[v.r].proto
      case Shared => Prototype
      case Nothing => Atom(Null)
      case Is(p) => p
  }

  /** `v[k]` for a name the object shows. */
  function Get(w: World, v: Val, k: string): (r: Val)
    requires Shows(w, v, k)
  {
    match SlotOf(w, v, k, {}).value
    case Data(x) => x
    case Accessor => ProtoOf(w, v)
  }

  // ---- writing ---------------------------------------------------------------

  /** An assignment can throw; what was written before stays. */
  datatype Outcome = Left(w: World) | Thrown(w: World)

  /** The object lies on the value's chain of prototypes. */
  predicate OnChain(w: World, v: Val, r: nat, seen: set<nat>)
    decreases w.objects.Keys - seen
  {
    v.Ref? && (v.r == r ||
      (v.r in w.objects && v.r !in seen && w.objects[v.r].proto.Is? &&
        OnChain(w, w.objects[v.r].proto.v, r, seen + {v.r})))
  }

  /** The setter `__proto__` on an object: a circle throws, and what is neither object nor null is ignored. */
  function ProtoSet(w: World, r: nat, x: Val): (o: Outcome)
    requires r in w.objects
  {
    var p := match x
      case Prototype => Some(Shared)
      case Atom(a) => if a == Null then Some(Nothing) else None
      case Func(_) => None  // never found under this name
      case _ => Some(Is(x));
    if p.None? then Left(w)
    else if OnChain(w, x, r, {}) then Thrown(w)
    else Left(w.(objects := w.objects[r := w.objects[r].(proto := p.value)]))
  }

  function FieldSet(w: World, r: nat, k: string, x: Val): (w': World)
    requires r in w.objects
  {
    w.(objects := w.objects[r := w.objects[r].(fields := w.objects[r].fields[k := x])])
  }

  /**
    `v[k] = x`. The accessor's setter runs where the chain leads to it; any other
    assignment makes or changes an own field. The shared prototype's own prototype
    is null for good: setting another throws.
   */
  function Assign(w: World, v: Val, k: string, x: Val): (o: Outcome)
    requires v.Ref? ==> v.r in w.objects
  {
    match v
    case Ref(r) => if SlotOf(w, v, k, {}) == Some(Accessor) then ProtoSet(w, r, x) else Left(FieldSet(w, r, k, x))
    case Prototype =>
      if k != PROTO then Left(w.(shared := w.shared[k := x]))
      else if x.Atom? then Left(w) else Thrown(w)
    case _ => Left(w)
  }

  /** `v[k] = {}`. */
  function AssignNew(w: World, v: Val, k: string): (o: Outcome)
    requires v.Ref? ==> v.r in w.objects
  {
    Assign(World(w.objects[w.next := Object(map[], Shared)], w.shared, w.next + 1), v, k, Ref(w.next))
  }
}
