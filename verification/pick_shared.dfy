/** When `pick` writes to the prototype that all objects share. */
module PickShared {
  import opened Text
  import opened Json
  import opened JsObjects
  import Pick
  import opened PickPlain
  import opened PickHeap
  import opened PickLists
  import opened PickAgrees
  import PickRefines
  import opened PickShown

  /**
    The path comes to `__proto__` over plain names, and goes on with a name that
    it can assign there, or make an object under.
   */
  predicate Spills(p: Path) {
    var i := FirstProto(p);
    && i + 1 < |p| && NoneInherited(p[..i]) && p[i + 1] != PROTO
    && (i + 2 == |p| || p[i + 1] !in INHERITED)
  }

  lemma SpillsBelow(p: Path)
    requires p != [] && p[0] !in INHERITED
    ensures Spills(p[1..]) <==> Spills(p)
  {
    assert PROTO in INHERITED;
    hide INHERITED;
    var i := FirstProto(p[1..]);
    assert FirstProto(p) == i + 1;
    assert p[..i + 1] == [p[0]] + p[1..][..i];
    PlainCons(p[0], p[1..][..i]);
  }

  lemma PlainCons(k: string, p: Path)
    requires k !in INHERITED
    ensures NoneInherited([k] + p) <==> NoneInherited(p)
  {
    hide INHERITED;
    var q := [k] + p;
    assert forall i :: 0 <= i < |p| ==> q[i + 1] == p[i];
    assert forall i :: 0 < i < |q| ==> q[i] == p[i - 1];
  }

  // ---- paths that do not -----------------------------------------------------

  /** Through the prototype: nothing is assigned to it, or only its own prototype. */
  lemma SharedRefuses(w: World, p: Path, x: Val)
    requires w.shared == BASE && p != [] && (p[0] == PROTO || (|p| > 1 && p[0] in INHERITED))
    ensures Pick.Put(w, Prototype, p, x).w == w
  {
    if p[0] != PROTO { PickRefines.BaseIs(p[0]); }
    hide BASE, INHERITED;
  }

  lemma NewShows(w: World, r: nat, k: string)
    requires New(w, r)
    ensures SlotOf(w, Ref(r), k, {}) == SharedSlot(w, k)
    ensures k == PROTO ==> Shows(w, Ref(r), k) && Get(w, Ref(r), k) == Prototype
    ensures k in INHERITED && k != PROTO ==> Shows(w, Ref(r), k) && Get(w, Ref(r), k) == Func(k)
  {
    PickRefines.BaseIs(k);
    hide BASE, INHERITED;
  }

  lemma SpillsAtOnce(p: Path)
    requires |p| > 1 && p[0] == PROTO
    ensures Spills(p) <==> p[1] != PROTO && (|p| == 2 || p[1] !in INHERITED)
  {
    assert p[..0] == [];
  }

  /** Placed in a new object, such a path leaves the shared prototype as it is. */
  lemma {:induction false} NoSpill(w: World, r: nat, p: Path, x: Val)
    requires New(w, r) && p != [] && !Spills(p)
    ensures Pick.Put(w, Ref(r), p, x).w.shared == BASE
    decreases |p|
  {
    NewShows(w, r, p[0]);
    if |p| == 1 {
      hide BASE, INHERITED, SlotOf, OnChain;
    } else if p[0] == PROTO {
      SpillsAtOnce(p);
      SharedRefuses(w, p[1..], x);
      hide BASE, INHERITED, SlotOf;
    } else if p[0] in INHERITED {
      hide BASE, INHERITED, SlotOf;
    } else {
      SpillsBelow(p);
      MadeInNew(w, r, p[0]);
      hide BASE, INHERITED, SlotOf, Spills, New;
      NoSpill(Pick.Entered(w, Ref(r), p[0]).w, w.next, p[1..], x);
    }
  }

  // ---- paths that do ---------------------------------------------------------

  /** Over plain names a path comes, from a new object, to the shared prototype. */
  lemma {:induction false} SpillComes(w: World, r: nat, p: Path, x: Val) returns (w': World)
    requires New(w, r) && Spills(p)
    ensures w'.shared == BASE && Allocated(w')
    ensures Pick.Put(w, Ref(r), p, x) == Pick.Put(w', Prototype, p[FirstProto(p) + 1..], x)
    decreases |p|
  {
    assert p[FirstProto(p)] == PROTO;
    if p[0] == PROTO {
      NewShows(w, r, PROTO);
      w' := w;
      hide BASE, INHERITED, SlotOf;
      assert FirstProto(p) == 0;
    } else {
      assert p[0] !in INHERITED by { assert p[..FirstProto(p)][0] == p[0]; }
      SpillsBelow(p);
      MadeInNew(w, r, p[0]);
      assert p[FirstProto(p) + 1..] == p[1..][FirstProto(p[1..]) + 1..];
      hide BASE, INHERITED, SlotOf, Spills, New;
      w' := SpillComes(Pick.Entered(w, Ref(r), p[0]).w, w.next, p[1..], x);
    }
  }

  /** And is written there. */
  lemma SpillWrites(w: World, p: Path, x: Val)
    requires w.shared == BASE && Allocated(w) && p != [] && p[0] != PROTO && (|p| == 1 || p[0] !in INHERITED)
    ensures var s := Pick.Put(w, Prototype, p, x).w.shared; p[0] in s && (|p| == 1 ==> s[p[0]] == x)
    ensures |p| > 1 ==> p[0] !in BASE
  {
    if |p| > 1 {
      PlainIsNotShared(w, p[0]);
      var e := Pick.Entered(w, Prototype, p[0]);
      assert p[0] in e.w.shared;
      Pick.EnterKeeps(w, Prototype, p[0]);
      var o := e.w.shared[p[0]];
      if Pick.Stands(e.w, o) { Pick.PutKeeps(e.w, o, p[1..], x); }
    }
  }

  /** A first name that is plain stays in the object, whatever follows. */
  lemma BeginningStays(w: World, r: nat, p: Path, x: Val)
    requires New(w, r) && |p| > 1 && p[0] !in INHERITED
    ensures var w' := Pick.Put(w, Ref(r), p, x).w; r in w'.objects && p[0] in w'.objects[r].fields
  {
    MadeInNew(w, r, p[0]);
    var w1 := Pick.Entered(w, Ref(r), p[0]).w;
    Pick.PutKeeps(w1, Ref(w.next), p[1..], x);
    hide New, BASE, INHERITED, SlotOf;
  }

  // ---- a document ------------------------------------------------------------

  /** The objects of the first world are all there, unchanged, in the second. */
  predicate Carries(w: World, w': World) {
    forall r :: r in w.objects ==> r in w'.objects && w'.objects[r] == w.objects[r]
  }

  lemma CarriesOn(w: World, w1: World, w2: World)
    requires Carries(w, w1) && Carries(w1, w2)
    ensures Carries(w, w2)
  {
  }

  lemma MoreCarries(w: World, o: Object)
    requires Allocated(w)
    ensures Carries(w, World(w.objects[w.next := o], w.shared, w.next + 1))
  {
  }

  /** The document below one more name. */
  function Wrapped(d: Document, k: string): Document
  {
    Document(World(d.w.objects[d.w.next := Object(map[k := d.v], Shared)], d.w.shared, d.w.next + 1),
      Ref(d.w.next), Obj(map[k := d.j]))
  }

  lemma OwnOfMore(w: World, o: Object)
    requires Allocated(w)
    ensures Kept(Own(w), Own(World(w.objects[w.next := o], w.shared, w.next + 1)))
  {
  }

  lemma WrapStands(h: Heap, r: nat, k: string, v: Val, j: Value)
    requires r in h && h[r] == map[k := v] && Rep(h, v, j)
    ensures Rep(h, Ref(r), Obj(map[k := j]))
  {
  }

  lemma WrapKeeps(d: Document, k: string)
    requires IsDocument(d)
    ensures IsDocument(Wrapped(d, k)) && Kept(Own(d.w), Own(Wrapped(d, k).w))
  {
    var w := Wrapped(d, k).w;
    OwnOfMore(d.w, Object(map[k := d.v], Shared));
    RepKept(Own(d.w), Own(w), d.v, d.j);
    assert Own(w)[d.w.next] == map[k := d.v];
    assert Allocated(w) && ClosedProtos(w) by { hide Rep, BASE; }
    hide Rep, BASE, Allocated, ClosedProtos;
    WrapStands(Own(w), d.w.next, k, d.v, d.j);
  }

  /** The document is an object with the one field, and the shared prototype. */
  predicate Holds(d: Document, k: string) {
    && d.v.Ref? && d.v.r in d.w.objects && d.w.objects[d.v.r].proto == Shared
    && d.w.objects[d.v.r].fields.Keys == {k}
  }

  /** A document with a given one at a path, all through own fields. */
  lemma {:induction false} WrapAll(d: Document, p: Path) returns (d': Document)
    requires IsDocument(d)
    ensures IsDocument(d') && d'.w.next >= d.w.next && FindOwn(Own(d'.w), d'.v, p) == Some(d.v)
    ensures Carries(d.w, d'.w)
    ensures p != [] ==> Holds(d', p[0])
    decreases |p|
  {
    if p == [] {
      d' := d;
    } else {
      var below := WrapAll(d, p[1..]);
      d' := Wrapped(below, p[0]);
      WrapKeeps(below, p[0]);
      MoreCarries(below.w, Object(map[p[0] := below.v], Shared));
      CarriesOn(d.w, below.w, d'.w);
      hide Carries;
      assert Grown(Own(below.w), Own(d'.w)) by { hide INHERITED; }
      OwnStays(Own(below.w), Own(d'.w), below.v, p[1..]);
      hide IsDocument;
    }
  }

  /** A document with an empty object whose prototype is another. */
  function Inheriting(d: Document): Document
  {
    Document(World(d.w.objects[d.w.next := Object(map[], Is(d.v))], d.w.shared, d.w.next + 1), Ref(d.w.next), Obj(map[]))
  }

  lemma InheritingIs(d: Document)
    requires IsDocument(d) && d.v.Ref? && d.v.r in d.w.objects
    ensures IsDocument(Inheriting(d)) && Kept(Own(d.w), Own(Inheriting(d).w))
  {
    OwnOfMore(d.w, Object(map[], Is(d.v)));
    hide BASE;
  }

  const LEAF: Document := Document(World(map[], BASE, 0), Atom(Bool(true)), Bool(true))

  /** The object's prototype is found under `__proto__`. */
  lemma ProtoIsFound(w: World, r: nat, b: nat)
    requires r in w.objects && b in w.objects && r != b && w.objects[r] == Object(map[], Is(Ref(b)))
    requires w.objects[b].proto == Shared && PROTO !in w.objects[b].fields
    ensures Shows(w, Ref(r), PROTO) && Get(w, Ref(r), PROTO) == Ref(b)
  {
    assert SlotOf(w, Ref(b), PROTO, {r}) == Some(Accessor);
    assert SlotOf(w, Ref(r), PROTO, {}) == SlotOf(w, Ref(b), PROTO, {} + {r});
  }

  ghost predicate SharedKept(d: Document, p: Path)
    requires p != []
  {
    Run(d, [p]).w.shared == BASE
  }

  lemma OwnKept(w: World, w': World)
    requires Carries(w, w')
    ensures Kept(Own(w), Own(w'))
  {
  }

  /** In the document an object lies at the path whose prototype is another, and that one has the rest of it. */
  ghost predicate Nests(d: Document, b: Document, a: nat, p: Path, i: nat) {
    && IsDocument(d) && Carries(b.w, d.w) && i + 1 < |p| && p[i] == PROTO && b.v.Ref? && a != b.v.r
    && a in d.w.objects && d.w.objects[a] == Object(map[], Is(b.v)) && b.v.r in b.w.objects
    && b.w.objects[b.v.r].proto == Shared && PROTO !in b.w.objects[b.v.r].fields
    && FindOwn(Own(d.w), d.v, p[..i]) == Some(Ref(a))
    && FindOwn(Own(b.w), b.v, p[i + 1..]) == Some(Atom(Bool(true)))
  }

  lemma SpillNests(p: Path) returns (d: Document, b: Document, a: nat)
    requires Spills(p)
    ensures Nests(d, b, a, p, FirstProto(p))
  {
    var i := FirstProto(p);
    hide INHERITED, BASE, NoneInherited, Carries, FindOwn;
    b := WrapAll(LEAF, p[i + 1..]);
    assert p[i + 1..][0] == p[i + 1];
    var inheriting := Inheriting(b);
    InheritingIs(b);
    MoreCarries(b.w, Object(map[], Is(b.v)));
    a := b.w.next;
    assert b.v.r != a;
    hide IsDocument, Own;
    d := WrapAll(inheriting, p[..i]);
    CarriesOn(b.w, inheriting.w, d.w);
    CarriedIs(inheriting.w, d.w, a);
  }

  lemma CarriedIs(w: World, w': World, r: nat)
    requires Carries(w, w') && r in w.objects
    ensures r in w'.objects && w'.objects[r] == w.objects[r]
  {
  }

  lemma SpillHasDocument(p: Path) returns (d: Document)
    requires Spills(p)
    ensures IsDocument(d) && Pick.Seek(Pick.Opened(d.w), d.v, p) == Some(Atom(Bool(true)))
  {
    var b, a;
    d, b, a := SpillNests(p);
    NestIsFound(d, b, a, p, FirstProto(p));
  }

  lemma OpenedCarries(w: World)
    requires Allocated(w)
    ensures Carries(w, Pick.Opened(w))
  {
  }

  lemma NestIsFound(d: Document, b: Document, a: nat, p: Path, i: nat)
    requires Nests(d, b, a, p, i)
    ensures Pick.Seek(Pick.Opened(d.w), d.v, p) == Some(Atom(Bool(true)))
  {
    var w := Pick.Opened(d.w);
    OpenedCarries(d.w);
    CarriesOn(b.w, d.w, w);
    OwnKept(b.w, w);
    OwnKept(d.w, w);
    hide IsDocument, Own, FindOwn, Kept, Pick.Opened;
    SpillIsFound(w, d.v, p, i, a, b.v.r, d.w, b.w, Atom(Bool(true)));
  }

  lemma SpillIsFound(w: World, v: Val, p: Path, i: nat, a: nat, b: nat, d: World, inner: World, x: Val)
    requires i + 1 < |p| && p[i] == PROTO && Kept(Own(d), Own(w)) && Kept(Own(inner), Own(w))
    requires FindOwn(Own(d), v, p[..i]) == Some(Ref(a)) && FindOwn(Own(inner), Ref(b), p[i + 1..]) == Some(x)
    requires a in w.objects && b in w.objects && a != b && w.objects[a] == Object(map[], Is(Ref(b)))
    requires w.objects[b].proto == Shared && PROTO !in w.objects[b].fields
    ensures Pick.Seek(w, v, p) == Some(x)
  {
    var front, t := p[..i], p[i + 1..];
    KeptLeads(d, w, v, front);
    KeptLeads(inner, w, Ref(b), t);
    ProtoIsFound(w, a, b);
    var rest := [PROTO] + t;
    assert p == front + rest && rest[0] == PROTO && rest[1..] == t;
    hide Kept, FindOwn, Own, Shows, Get;
    SeekJoins(w, v, front, rest);
  }

  lemma KeptLeads(w: World, w': World, v: Val, p: Path)
    requires Kept(Own(w), Own(w')) && FindOwn(Own(w), v, p).Some?
    ensures Pick.Seek(w', v, p) == FindOwn(Own(w), v, p)
  {
    assert Grown(Own(w), Own(w')) by { hide INHERITED; }
    OwnStays(Own(w), Own(w'), v, p);
    SeekOwn(w', v, p);
  }

  /**
    A path leaves the shared prototype alone on every document, altered
    prototypes included, if and only if it does not spill into it.
   */
  lemma SharedStaysIff(p: Path)
    requires p != []
    ensures (forall d :: IsDocument(d) ==> SharedKept(d, p)) <==> !Spills(p)
  {
    if !Spills(p) {
      forall d | IsDocument(d) ensures SharedKept(d, p) {
        PickedOne(d, p);
        assert New(Pick.Opened(d.w), d.w.next);
        hide IsDocument, BASE, Spills, Pick.Put, Pick.Seek;
        var found := Pick.Seek(Pick.Opened(d.w), d.v, p);
        if found.Some? { NoSpill(Pick.Opened(d.w), d.w.next, p, found.value); }
      }
    } else {
      var d := SpillHasDocument(p);
      SpillShows(d, p);
    }
  }

  lemma SpillShows(d: Document, p: Path)
    requires Spills(p) && IsDocument(d) && Pick.Seek(Pick.Opened(d.w), d.v, p) == Some(Atom(Bool(true)))
    ensures !SharedKept(d, p)
  {
    PickedOne(d, p);
    assert New(Pick.Opened(d.w), d.w.next);
    var w := SpillComes(Pick.Opened(d.w), d.w.next, p, Atom(Bool(true)));
    var t := p[FirstProto(p) + 1..];
    SpillWrites(w, t, Atom(Bool(true)));
    if t[0] in BASE { PickRefines.BaseIs(t[0]); }
    hide BASE, IsDocument, Pick.Seek, Pick.Put;
  }
}
