/**
  `pick` where every object has the shared prototype and nothing but what it
  holds already is ever written to that prototype: a heap of own fields will do.
 */
module PickPlain {
  import opened Text
  import opened Json
  import opened Projection
  import opened JsObjects

  /** The own fields of every object. */
  type Heap = map<nat, map<string, Val>>

  /** `v` is a non-null, non-array object and `s in v`, which also sees what the object inherits. */
  predicate Has(h: Heap, v: Val, s: string) {
    match v
    case Ref(r) => r in h && (s in h[r] || s in INHERITED)
    case Prototype => s in INHERITED
    case _ => false
  }

  /** `v[s]` for a name the object has; the prototype's own prototype is null. */
  function Read(h: Heap, v: Val, s: string): (r: Val)
    requires Has(h, v, s)
  {
    if v.Ref? && s in h[v.r] then h[v.r][s]
    else if s != PROTO then Func(s)
    else if v.Ref? then Prototype
    else Atom(Null)
  }

  /** The document's value at the path. */
  function Find(h: Heap, v: Val, p: Path): (r: Option<Val>)
    decreases |p|
  {
    if p == [] then Some(v)
    else if !Has(h, v, p[0]) then None
    else Find(h, Read(h, v, p[0]), p[1..])
  }

  /** The heap and its next free reference. */
  datatype Store = Store(h: Heap, next: nat)

  /** The intermediate object under a name, made when there is none. */
  function Entered(s: Store, r: nat, name: string): (s': Store)
    requires r in s.h
  {
    if Has(s.h, Ref(r), name) then s
    else Store(s.h[r := s.h[r][name := Ref(s.next)]][s.next := map[]], s.next + 1)
  }

  /** `o[name] = v`: assigning `__proto__` sets the prototype and leaves the own fields alone. */
  function Assigned(s: Store, r: nat, name: string, v: Val): (s': Store)
    requires r in s.h
  {
    if name == PROTO then s else s.(h := s.h[r := s.h[r][name := v]])
  }

  /**
    The value written at the path below an object; given up where a non-object
    stands. A found path that leads into the prototype, or sets one, assigns what
    is there already (`PrototypeStays`), so prototypes need no place in the store.
   */
  function Place(s: Store, r: nat, p: Path, v: Val): (s': Store)
    requires r in s.h && p != []
    decreases |p|
  {
    if |p| == 1 then Assigned(s, r, p[0], v)
    else
      var s' := Entered(s, r, p[0]);
      if r !in s'.h || !Has(s'.h, Ref(r), p[0]) then s'
      else
        var o := Read(s'.h, Ref(r), p[0]);
        if o.Ref? && o.r in s'.h then Place(s', o.r, p[1..], v) else s'
  }

  function PickFrom(s: Store, doc: Val, out: nat, p: Path): (s': Store)
    requires out in s.h && p != []
  {
    var found := Find(s.h, doc, p);
    if found.None? then s else Place(s, out, p, found.value)
  }

  /** Every path in turn. */
  function PickAll(s: Store, doc: Val, out: nat, paths: seq<Path>): (s': Store)
    requires Paths(paths)
  {
    if paths == [] || out !in s.h then s
    else
      var before := PickAll(s, doc, out, paths[..|paths| - 1]);
      if out in before.h then PickFrom(before, doc, out, paths[|paths| - 1]) else before
  }

  /** A path found through an object's prototype ends there, or at a name of the prototype's own. */
  lemma FoundPastPrototype(h: Heap, p: Path)
    requires Find(h, Prototype, p).Some?
    ensures |p| <= 1
    ensures |p| == 1 ==> Find(h, Prototype, p) == Some(Read(h, Prototype, p[0]))
  {
    if p != [] {
      assert p == [p[0]] + p[1..];
    }
  }

  /** No object has a field of its own called `__proto__`, or one that holds the prototype, as none the decoder makes has. */
  predicate PlainHeap(h: Heap) {
    forall r :: r in h ==> PROTO !in h[r] && forall k :: k in h[r] ==> h[r][k] != Prototype
  }

  /** Whatever prototype a found path ends at, or under, is assigned what it already is. */
  lemma {:induction false} PrototypeStays(h: Heap, v: Val, p: Path)
    requires PlainHeap(h) && v.Ref? && Find(h, v, p).Some?
    ensures p != [] && p[|p| - 1] == PROTO ==>
      Find(h, v, p).value == if |p| > 1 && p[|p| - 2] == PROTO then Atom(Null) else Prototype
    ensures forall i :: 0 <= i < |p| - 1 && p[i] == PROTO ==>
      i == |p| - 2 && p[i + 1] in INHERITED && Find(h, v, p).value == Read(h, Prototype, p[i + 1])
    decreases |p|
  {
    if p == [] { return; }
    var o := Read(h, v, p[0]);
    if p[0] == PROTO {
      FoundPastPrototype(h, p[1..]);
    } else if o.Ref? {
      PrototypeStays(h, o, p[1..]);
      assert forall i :: 0 < i < |p| ==> p[i] == p[1..][i - 1];
    } else {
      assert p[1..] == [];
    }
  }

  lemma {:induction false} PlaceIn(s: Store, r: nat, p: Path, v: Val)
    requires r in s.h && p != []
    ensures forall t :: t in s.h ==> t in Place(s, r, p, v).h
    decreases |p|
  {
    if |p| > 1 {
      var s' := Entered(s, r, p[0]);
      if Has(s'.h, Ref(r), p[0]) && Read(s'.h, Ref(r), p[0]).Ref? && Read(s'.h, Ref(r), p[0]).r in s'.h {
        PlaceIn(s', Read(s'.h, Ref(r), p[0]).r, p[1..], v);
      }
    }
  }
}
