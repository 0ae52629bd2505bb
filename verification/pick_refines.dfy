/** Where all objects have the shared prototype, `pick` needs own fields only. */
module PickRefines {
  import opened Text
  import opened Json
  import opened Projection
  import opened JsObjects
  import Pick
  import opened PickPlain
  import opened PickHeap

  /** The world of these objects, each with the shared prototype as it came. */
  function Lift(s: Store): (w: World)
  {
    World(map r | r in s.h :: Object(s.h[r], Shared), BASE, s.next)
  }

  lemma BaseIs(k: string)
    ensures k in BASE <==> k in INHERITED && k != PROTO
    ensures k in BASE ==> BASE[k] == Func(k)
  {
  }

  /** Reading a name through prototypes comes to the own fields and the inherited names. */
  lemma ReadsLift(s: Store, v: Val, k: string)
    ensures Shows(Lift(s), v, k) <==> Has(s.h, v, k)
    ensures Has(s.h, v, k) ==> Get(Lift(s), v, k) == Read(s.h, v, k)
    ensures v.Ref? && v.r in s.h && k !in s.h[v.r] ==> SlotOf(Lift(s), v, k, {}) == SharedSlot(Lift(s), k)
    ensures v.Ref? && v.r in s.h && k in s.h[v.r] ==> SlotOf(Lift(s), v, k, {}) == Some(Data(s.h[v.r][k]))
  {
    BaseIs(k);
    assert PROTO in INHERITED;
    hide BASE, INHERITED;
  }

  lemma {:induction false} SeekLift(s: Store, v: Val, p: Path)
    ensures Pick.Seek(Lift(s), v, p) == Find(s.h, v, p)
    decreases |p|
  {
    if p != [] {
      ReadsLift(s, v, p[0]);
      hide Has, Shows, Read, Get, Lift;
      if Has(s.h, v, p[0]) { SeekLift(s, Read(s.h, v, p[0]), p[1..]); }
    }
  }

  predicate Ordered(s: Store) { PlainHeap(s.h) && forall r :: r in s.h ==> r < s.next }

  /** A value found at the path: what it assigns to a prototype, or through one, is there already. */
  predicate Fitting(p: Path, x: Val) {
    && (forall i :: 0 <= i < |p| - 1 && p[i] == PROTO ==>
      i == |p| - 2 && p[i + 1] in INHERITED && x == if p[i + 1] == PROTO then Atom(Null) else Func(p[i + 1]))
    && (p != [] && p[|p| - 1] == PROTO && !(|p| > 1 && p[|p| - 2] == PROTO) ==> x == Prototype)
    && (x == Prototype && p != [] ==> p[|p| - 1] == PROTO)
  }

  /** Only `__proto__` leads to the prototype. */
  lemma {:induction false} FoundPrototype(h: Heap, v: Val, p: Path)
    requires PlainHeap(h) && p != [] && Find(h, v, p) == Some(Prototype)
    ensures p[|p| - 1] == PROTO
    decreases |p|
  {
    if |p| > 1 { FoundPrototype(h, Read(h, v, p[0]), p[1..]); }
  }

  lemma FoundFits(h: Heap, v: Val, p: Path)
    requires PlainHeap(h) && Find(h, v, p).Some?
    ensures v.Ref? ==> Fitting(p, Find(h, v, p).value)
    ensures !v.Ref? && !v.Prototype? ==> p == []
  {
    if v.Ref? {
      PrototypeStays(h, v, p);
      if p != [] && Find(h, v, p) == Some(Prototype) { FoundPrototype(h, v, p); }
    }
  }

  lemma FittingBelow(p: Path, x: Val)
    requires |p| > 1 && p[0] != PROTO && Fitting(p, x)
    ensures Fitting(p[1..], x)
  {
    var q := p[1..];
    assert forall i :: 0 <= i < |q| ==> q[i] == p[i + 1];
    hide INHERITED;
  }

  lemma LiftWrite(s: Store, r: nat, k: string, x: Val)
    requires r in s.h
    ensures FieldSet(Lift(s), r, k, x) == Lift(s.(h := s.h[r := s.h[r][k := x]]))
  {
  }

  lemma LiftNew(s: Store)
    ensures World(Lift(s).objects[s.next := Object(map[], Shared)], BASE, s.next + 1)
         == Lift(Store(s.h[s.next := map[]], s.next + 1))
  {
    assert World(Lift(s).objects[s.next := Object(map[], Shared)], BASE, s.next + 1).objects
        == Lift(Store(s.h[s.next := map[]], s.next + 1)).objects;
  }

  lemma Commute(h: Heap, r: nat, o: map<string, Val>, t: nat, q: map<string, Val>)
    requires r != t
    ensures h[t := q][r := o] == h[r := o][t := q]
  {
  }

  lemma EnteredOrdered(s: Store, r: nat, k: string)
    requires r in s.h && Ordered(s) && !Has(s.h, Ref(r), k)
    ensures Ordered(Entered(s, r, k)) && r in Entered(s, r, k).h && Has(Entered(s, r, k).h, Ref(r), k)
  {
    assert k != PROTO && r != s.next;
    hide INHERITED;
  }

  lemma EntersLift(s: Store, r: nat, k: string)
    requires r in s.h && Ordered(s)
    ensures Pick.Entered(Lift(s), Ref(r), k) == Left(Lift(Entered(s, r, k))) && Ordered(Entered(s, r, k))
    ensures r in Entered(s, r, k).h && Has(Entered(s, r, k).h, Ref(r), k)
  {
    ReadsLift(s, Ref(r), k);
    if !Has(s.h, Ref(r), k) {
      EnteredOrdered(s, r, k);
      var s' := Store(s.h[s.next := map[]], s.next + 1);
      assert r != s.next && r in s'.h && s'.h[r] == s.h[r];
      ReadsLift(s', Ref(r), k);
      assert SlotOf(Lift(s'), Ref(r), k, {}) == None by { BaseIs(k); hide BASE; }
      LiftNew(s);
      LiftWrite(s', r, k, Ref(s.next));
      Commute(s.h, r, s.h[r][k := Ref(s.next)], s.next, map[]);
      hide Has, Ordered, SlotOf, BASE, INHERITED, FieldSet;
    }
  }

  lemma AssignsLift(s: Store, r: nat, k: string, x: Val)
    requires r in s.h && Ordered(s) && (k == PROTO <==> x == Prototype)
    ensures Assign(Lift(s), Ref(r), k, x) == Left(Lift(Assigned(s, r, k, x))) && Ordered(Assigned(s, r, k, x))
  {
    ReadsLift(s, Ref(r), k);
    if k == PROTO {
      assert Lift(s).objects[r := Object(s.h[r], Shared)] == Lift(s).objects;
    } else {
      LiftWrite(s, r, k, x);
    }
  }

  /** Through the prototype only what it holds is assigned. */
  lemma ThroughShared(s: Store, k: string, x: Val)
    requires k in INHERITED && x == if k == PROTO then Atom(Null) else Func(k)
    ensures Assign(Lift(s), Prototype, k, x) == Left(Lift(s))
  {
    if k != PROTO {
      BaseIs(k);
      assert BASE[k := x] == BASE;
    }
  }

  lemma PutShared(s: Store, r: nat, p: Path, x: Val)
    requires r in s.h && Ordered(s) && |p| == 2 && p[0] == PROTO && p[1] in INHERITED
    requires x == if p[1] == PROTO then Atom(Null) else Func(p[1])
    ensures Pick.Put(Lift(s), Ref(r), p, x) == Left(Lift(s)) && Place(s, r, p, x) == s
  {
    var w := Lift(s);
    ReadsLift(s, Ref(r), PROTO);
    ThroughShared(s, p[1], x);
    var rest := p[1..];
    assert rest[0] == p[1] && |rest| == 1;
    assert Pick.Put(w, Prototype, rest, x) == Left(w);
  }

  /** Placing a fitting value. */
  lemma {:induction false} PutLift(s: Store, r: nat, p: Path, x: Val)
    requires r in s.h && p != [] && Ordered(s) && Fitting(p, x)
    ensures Pick.Put(Lift(s), Ref(r), p, x) == Left(Lift(Place(s, r, p, x))) && Ordered(Place(s, r, p, x))
    decreases |p|
  {
    var w := Lift(s);
    assert Pick.Stands(w, Ref(r));
    if |p| == 1 {
      AssignsLift(s, r, p[0], x);
    } else if p[0] == PROTO {
      PutShared(s, r, p, x);
    } else {
      EntersLift(s, r, p[0]);
      var s' := Entered(s, r, p[0]);
      ReadsLift(s', Ref(r), p[0]);
      FittingBelow(p, x);
      var o := Read(s'.h, Ref(r), p[0]);
      NotPrototype(s', r, p[0]);
      assert Pick.Stands(Lift(s'), o) <==> o.Ref? && o.r in s'.h;
      hide Has, Read, Get, Shows, Lift, Fitting, INHERITED, Entered, Pick.Entered, Ordered, Pick.Stands;
      if o.Ref? && o.r in s'.h { PutLift(s', o.r, p[1..], x); }
    }
  }

  lemma NotPrototype(s: Store, r: nat, k: string)
    requires Ordered(s) && k != PROTO && Has(s.h, Ref(r), k)
    ensures Read(s.h, Ref(r), k) != Prototype
  {
  }

  /** Every path of a list. */
  lemma {:induction false} PickLift(d: Doc, out: nat, paths: seq<Path>)
    requires Fits(d, out) && PlainHeap(d.h) && Paths(paths)
    ensures Pick.PickEach(Lift(Start(d, out)), d.v, out, paths) == Left(Lift(After(d, out, paths)))
    ensures out in After(d, out, paths).h && Ordered(After(d, out, paths))
  {
    if paths == [] { return; }
    var front, p := paths[..|paths| - 1], paths[|paths| - 1];
    PickLift(d, out, front);
    AfterStep(d, out, paths);
    var before := After(d, out, front);
    hide After, Lift, Ordered;
    PickLiftOne(d, out, front, p);
    assert out in Lift(before).objects by { LiftKeys(before); }
  }

  lemma LiftKeys(s: Store)
    ensures Lift(s).objects.Keys == s.h.Keys
  {
  }

  lemma PickLiftOne(d: Doc, out: nat, front: seq<Path>, p: Path)
    requires Fits(d, out) && PlainHeap(d.h) && Paths(front) && p != []
    requires out in After(d, out, front).h && Ordered(After(d, out, front))
    ensures var s := After(d, out, front); out in Lift(s).objects
    ensures var s := After(d, out, front); var s' := PickFrom(s, d.v, out, p);
      Pick.PickOne(Lift(s), d.v, out, p) == Left(Lift(s')) && Ordered(s') && out in s'.h
  {
    var s := After(d, out, front);
    var st := PickAllKeeps(d, out, front);
    hide After;
    assert Find(s.h, d.v, p) == At(d, p) by {
      assert Grown(d.h, st.s.h);
      FindGrown(d.h, s.h, d.v, d.j, p);
    }
    SeekLift(s, d.v, p);
    if At(d, p).Some? {
      FoundFits(d.h, d.v, p);
      assert d.v.Ref?;
      PutLift(s, out, p, At(d, p).value);
      PlaceIn(s, out, p, At(d, p).value);
    }
  }
}
