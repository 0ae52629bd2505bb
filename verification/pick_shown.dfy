/** Documents whose objects were given other prototypes: what plain paths see, and what reaches the shared one. */
module PickShown {
  import opened Text
  import opened Json
  import opened Projection
  import opened JsObjects
  import Pick
  import opened PickPlain
  import opened PickHeap
  import opened PickLists
  import PickRefines
  import opened PickAgrees

  // ---- what prototypes show --------------------------------------------------

  /** The names lead, through own fields, to the object. */
  predicate Leads(d: Document, p: Path, r: nat) {
    NoneInherited(p) && FindOwn(Own(d.w), d.v, p) == Some(Ref(r)) && r in d.w.objects
  }

  /** There the name is shown, and is no field of the object's own. */
  predicate Extra(d: Document, p: Path, r: nat, k: string) {
    && Leads(d, p, r) && k !in INHERITED && k !in d.w.objects[r].fields
    && SlotOf(d.w, Ref(r), k, {}).Some?
  }

  /** No object of the document was given a prototype that shows a name. */
  ghost predicate NothingExtra(d: Document) { forall p, r: nat, k :: !Extra(d, p, r, k) }

  ghost predicate Reachable(d: Document, r: nat) { exists p :: Leads(d, p, r) }

  // ---- plain paths see own fields only ---------------------------------------

  /** The document's objects with their prototypes, beside those `pick` made. */
  function Dress(d: Document, s: Store): (w: World)
  {
    World(map r | r in s.h :: Object(s.h[r], if r in d.w.objects then d.w.objects[r].proto else Shared), BASE, s.next)
  }

  ghost predicate Over(d: Document, s: Store) {
    && Kept(Own(d.w), s.h) && d.w.next <= s.next && forall r :: r in s.h ==> r < s.next
  }

  /** A chain of prototypes that starts in the document stays in it. */
  lemma {:induction false} SlotStays(d: Document, s: Store, v: Val, k: string, seen: set<nat>)
    requires IsDocument(d) && Over(d, s) && (v.List? || (v.Ref? && v.r in d.w.objects))
    ensures SlotOf(Dress(d, s), v, k, seen) == SlotOf(d.w, v, k, seen)
    decreases d.w.objects.Keys - seen
  {
    hide Rep, BASE;
    if v.Ref? && v.r !in seen {
      var o := d.w.objects[v.r];
      assert Dress(d, s).objects[v.r] == o;
      if k !in o.fields && o.proto.Is? { SlotStays(d, s, o.proto.v, k, seen + {v.r}); }
    }
  }

  lemma PlainIsNotShared(w: World, k: string)
    requires w.shared == BASE && k !in INHERITED
    ensures SharedSlot(w, k) == None
  {
  }

  /** From an object made, or one the document reaches, a plain name shows exactly the own fields. */
  lemma ShowsOwn(d: Document, s: Store, r: nat, k: string)
    requires IsDocument(d) && NothingExtra(d) && Over(d, s) && k !in INHERITED
    requires r in s.h && (r in d.w.objects ==> Reachable(d, r))
    ensures SlotOf(Dress(d, s), Ref(r), k, {}) == if k in s.h[r] then Some(Data(s.h[r][k])) else None
    ensures Shows(Dress(d, s), Ref(r), k) <==> Has(s.h, Ref(r), k)
    ensures Has(s.h, Ref(r), k) ==> k in s.h[r] && Get(Dress(d, s), Ref(r), k) == Read(s.h, Ref(r), k) == s.h[r][k]
  {
    PlainIsNotShared(Dress(d, s), k);
    if r in d.w.objects {
      SlotStays(d, s, Ref(r), k, {});
      var p :| Leads(d, p, r);
      assert !Extra(d, p, r, k);
    }
    hide Rep, BASE, INHERITED, FindOwn;
  }

  /** Below a reachable object's own field lies a reachable one. */
  lemma ReachableBelow(d: Document, r: nat, k: string)
    requires IsDocument(d) && Reachable(d, r) && r in d.w.objects && k in d.w.objects[r].fields && k !in INHERITED
    ensures var x := d.w.objects[r].fields[k]; x.Ref? && x.r in d.w.objects ==> Reachable(d, x.r)
  {
    var p :| Leads(d, p, r);
    var x := d.w.objects[r].fields[k];
    OwnJoins(Own(d.w), d.v, p, [k]);
    assert [k][1..] == [];
    assert FindOwn(Own(d.w), Ref(r), [k]) == Some(x);
    PlainJoin(p, k);
    if x.Ref? && x.r in d.w.objects { assert Leads(d, p + [k], x.r); }
  }

  lemma PlainJoin(p: Path, k: string)
    requires NoneInherited(p) && k !in INHERITED
    ensures NoneInherited(p + [k])
  {
    hide INHERITED;
  }

  /** A plain path finds what the own fields lead to. */
  lemma {:induction false} PlainFindsOwn(h: Heap, v: Val, j: Value, p: Path)
    requires NoneInherited(p) && Rep(h, v, j)
    ensures Find(h, v, p) == FindOwn(h, v, p)
    decreases |p|
  {
    if p != [] && v.Ref? && p[0] in h[v.r] { PlainFindsOwn(h, h[v.r][p[0]], j.fields[p[0]], p[1..]); }
  }

  lemma {:induction false} OwnStands(h: Heap, v: Val, j: Value, p: Path)
    requires Rep(h, v, j) && FindOwn(h, v, p).Some?
    ensures Lookup(j, p).Some? && Rep(h, FindOwn(h, v, p).value, Lookup(j, p).value)
    decreases |p|
  {
    if p != [] { OwnStands(h, h[v.r][p[0]], j.fields[p[0]], p[1..]); }
  }

  /** What a plain path finds in the document can be placed. */
  lemma FoundIsPlaceable(d: Document, p: Path)
    requires IsDocument(d) && NoneInherited(p)
    ensures At(PlainDoc(d), p).Some? ==> Placeable(d, At(PlainDoc(d), p).value)
  {
    PlainFindsOwn(Own(d.w), d.v, d.j, p);
    var x := At(PlainDoc(d), p);
    if x.Some? {
      OwnStands(Own(d.w), d.v, d.j, p);
      if x.value.Ref? { assert Leads(d, p, x.value.r); }
    }
  }

  lemma ReachableHolds(d: Document, r: nat, k: string)
    requires IsDocument(d) && Reachable(d, r) && k in d.w.objects[r].fields && k !in INHERITED
    ensures Placeable(d, d.w.objects[r].fields[k])
  {
    var p :| Leads(d, p, r);
    OwnStands(Own(d.w), d.v, d.j, p);
    ReachableBelow(d, r, k);
  }

  // ---- a plain path, step by step --------------------------------------------

  lemma {:induction false} SeekDress(d: Document, s: Store, v: Val, j: Value, p: Path)
    requires IsDocument(d) && NothingExtra(d) && Over(d, s) && NoneInherited(p)
    requires Rep(Own(d.w), v, j) && (v.Ref? ==> Reachable(d, v.r))
    ensures Pick.Seek(Dress(d, s), v, p) == Find(s.h, v, p)
    decreases |p|
  {
    if p == [] || !v.Ref? { return; }
    ShowsOwn(d, s, v.r, p[0]);
    assert s.h[v.r] == d.w.objects[v.r].fields;
    if p[0] in s.h[v.r] {
      ReachableBelow(d, v.r, p[0]);
      SeekDress(d, s, s.h[v.r][p[0]], j.fields[p[0]], p[1..]);
    }
  }

  /** Objects made hold objects made, or reachable ones. */
  ghost predicate Tied(d: Document, s: Store) {
    forall r, k :: r in s.h && r !in d.w.objects && k in s.h[r] ==> Placeable(d, s.h[r][k])
  }

  /** Not the shared prototype, nor an object of the document that it does not reach. */
  ghost predicate Placeable(d: Document, x: Val) {
    x != Prototype && (x.Ref? && x.r in d.w.objects ==> Reachable(d, x.r))
  }

  lemma OwnOfDress(d: Document, s: Store)
    ensures Own(Dress(d, s)) == s.h && Dress(d, s).objects.Keys == s.h.Keys
  {
  }

  lemma DressWrite(d: Document, s: Store, r: nat, k: string, x: Val)
    requires r in s.h
    ensures FieldSet(Dress(d, s), r, k, x) == Dress(d, s.(h := s.h[r := s.h[r][k := x]]))
  {
    assert FieldSet(Dress(d, s), r, k, x).objects == Dress(d, s.(h := s.h[r := s.h[r][k := x]])).objects;
  }

  lemma DressNew(d: Document, s: Store)
    requires s.next !in d.w.objects
    ensures World(Dress(d, s).objects[s.next := Object(map[], Shared)], BASE, s.next + 1)
         == Dress(d, Store(s.h[s.next := map[]], s.next + 1))
  {
    assert World(Dress(d, s).objects[s.next := Object(map[], Shared)], BASE, s.next + 1).objects
        == Dress(d, Store(s.h[s.next := map[]], s.next + 1)).objects;
  }

  /** The cursor, and what is to be placed from there, leaving the document as it is in the end. */
  ghost predicate Going(d: Document, s: Store, r: nat, p: Path, x: Val) {
    && Over(d, s) && Tied(d, s) && r in s.h && (r in d.w.objects ==> Reachable(d, r)) && p != [] && NoneInherited(p)
    && Placeable(d, x) && Kept(Own(d.w), Place(s, r, p, x).h)
  }

  lemma PutsLast(d: Document, s: Store, r: nat, p: Path, x: Val)
    requires IsDocument(d) && NothingExtra(d) && Going(d, s, r, p, x) && |p| == 1
    ensures Pick.Put(Dress(d, s), Ref(r), p, x) == Left(Dress(d, Place(s, r, p, x)))
    ensures Over(d, Place(s, r, p, x)) && Tied(d, Place(s, r, p, x))
  {
    OwnOfDress(d, s);
    ShowsOwn(d, s, r, p[0]);
    assert p[0] != PROTO;
    DressWrite(d, s, r, p[0], x);
    hide Rep, BASE, INHERITED, SlotOf, NothingExtra, Reachable, Dress;
  }

  /** A new object goes into one that was made, never into the document's. */
  lemma EntersMade(d: Document, s: Store, r: nat, p: Path, x: Val)
    requires IsDocument(d) && Going(d, s, r, p, x) && |p| > 1 && !Has(s.h, Ref(r), p[0])
    ensures r !in d.w.objects
  {
    var s' := Entered(s, r, p[0]);
    assert p[0] in s'.h[r] && forall t :: t in s'.h ==> t < s'.next;
    PlaceGrows(s', s.next, p[1..], x, r, p[0]);
    assert Place(s, r, p, x) == Place(s', s.next, p[1..], x);
  }

  lemma EntersDress(d: Document, s: Store, r: nat, p: Path, x: Val)
    requires IsDocument(d) && NothingExtra(d) && Going(d, s, r, p, x) && |p| > 1
    ensures var s' := Entered(s, r, p[0]);
      && Pick.Entered(Dress(d, s), Ref(r), p[0]) == Left(Dress(d, s'))
      && Over(d, s') && Tied(d, s') && r in s'.h && Has(s'.h, Ref(r), p[0])
  {
    OwnOfDress(d, s);
    ShowsOwn(d, s, r, p[0]);
    if !Has(s.h, Ref(r), p[0]) {
      EntersMade(d, s, r, p, x);
      EntersNew(d, s, r, p[0]);
    }
  }

  lemma AssignsNew(w: World, w1: World, r: nat, k: string)
    requires r in w.objects && w1 == World(w.objects[w.next := Object(map[], Shared)], w.shared, w.next + 1)
    requires SlotOf(w1, Ref(r), k, {}) == None
    ensures AssignNew(w, Ref(r), k) == Left(FieldSet(w1, r, k, Ref(w.next)))
  {
  }

  lemma DressIs(d: Document, s: Store)
    ensures Dress(d, s).shared == BASE && Dress(d, s).next == s.next
  {
  }

  lemma EntersNew(d: Document, s: Store, r: nat, k: string)
    requires IsDocument(d) && NothingExtra(d) && Over(d, s) && Tied(d, s) && k !in INHERITED
    requires r in s.h && r !in d.w.objects && k !in s.h[r]
    ensures var s' := Entered(s, r, k);
      && r in Dress(d, s).objects && AssignNew(Dress(d, s), Ref(r), k) == Left(Dress(d, s'))
      && Over(d, s') && Tied(d, s') && r in s'.h && k in s'.h[r]
  {
    var s1 := Store(s.h[s.next := map[]], s.next + 1);
    EntersTied(d, s, r, k);
    assert r != s.next && s.next !in d.w.objects && Over(d, s1);
    assert Entered(s, r, k) == Store(s.h[r := s.h[r][k := Ref(s.next)]][s.next := map[]], s.next + 1);
    hide *;
    OwnOfDress(d, s);
    OwnOfDress(d, s1);
    DressIs(d, s);
    DressNew(d, s);
    ShowsOwn(d, s1, r, k);
    AssignsNew(Dress(d, s), Dress(d, s1), r, k);
    DressWrite(d, s1, r, k, Ref(s.next));
    PickRefines.Commute(s.h, r, s.h[r][k := Ref(s.next)], s.next, map[]);
  }

  lemma EntersTied(d: Document, s: Store, r: nat, k: string)
    requires Allocated(d.w) && Over(d, s) && Tied(d, s) && k !in INHERITED
    requires r in s.h && r !in d.w.objects && k !in s.h[r]
    ensures var s' := Entered(s, r, k); Over(d, s') && Tied(d, s') && r in s'.h && k in s'.h[r]
  {
    hide INHERITED, Reachable;
  }

  /** Placing along a plain path. */
  lemma {:induction false} PutDress(d: Document, s: Store, r: nat, p: Path, x: Val)
    requires IsDocument(d) && NothingExtra(d) && Going(d, s, r, p, x)
    ensures r in Dress(d, s).objects && Pick.Put(Dress(d, s), Ref(r), p, x) == Left(Dress(d, Place(s, r, p, x)))
    ensures Over(d, Place(s, r, p, x)) && Tied(d, Place(s, r, p, x))
    decreases |p|
  {
    OwnOfDress(d, s);
    if |p| == 1 {
      PutsLast(d, s, r, p, x);
      return;
    }
    EntersDress(d, s, r, p, x);
    var s' := Entered(s, r, p[0]);
    OwnOfDress(d, s');
    ShowsOwn(d, s', r, p[0]);
    var o := s'.h[r][p[0]];
    GoesOn(d, s, r, p, x);
    hide Rep, BASE, INHERITED, SlotOf, NothingExtra, Reachable, Dress, Over, Tied, Has, Read, Shows, Get, Entered,
      Pick.Entered, Going, IsDocument;
    if o.Ref? && o.r in s'.h {
      PutDress(d, s', o.r, p[1..], x);
    }
  }

  lemma GoesOn(d: Document, s: Store, r: nat, p: Path, x: Val)
    requires IsDocument(d) && Going(d, s, r, p, x) && |p| > 1
    requires var s' := Entered(s, r, p[0]); Over(d, s') && Tied(d, s') && r in s'.h && p[0] in s'.h[r]
    ensures var s' := Entered(s, r, p[0]); var o := s'.h[r][p[0]];
      && o != Prototype
      && (o.Ref? && o.r in s'.h ==> Going(d, s', o.r, p[1..], x) && Place(s, r, p, x) == Place(s', o.r, p[1..], x))
      && (!(o.Ref? && o.r in s'.h) ==> Place(s, r, p, x) == s')
  {
    if r in d.w.objects { ReachableHolds(d, r, p[0]); }
    hide Rep, Reachable, INHERITED;
  }

  // ---- every list of plain paths ---------------------------------------------

  lemma DressStarts(d: Document)
    requires IsDocument(d)
    ensures Pick.Opened(d.w) == Dress(d, Start(PlainDoc(d), d.w.next))
    ensures Over(d, Start(PlainDoc(d), d.w.next)) && Tied(d, Start(PlainDoc(d), d.w.next))
  {
    var s := Store(Own(d.w), d.w.next);
    assert d.w.objects == Dress(d, s).objects by { hide Rep, BASE; }
    hide Rep, BASE;
    DressNew(d, s);
  }

  lemma PlainFront(paths: seq<Path>)
    requires AllPlain(paths)
    ensures Paths(paths)
    ensures paths != [] ==> AllPlain(paths[..|paths| - 1]) && NoneInherited(paths[|paths| - 1]) && paths[|paths| - 1] != []
  {
  }

  lemma PickDressOne(d: Document, s: Store, p: Path)
    requires IsDocument(d) && NothingExtra(d) && Over(d, s) && Tied(d, s) && d.w.next in s.h
    requires p != [] && NoneInherited(p) && Kept(Own(d.w), PickFrom(s, d.v, d.w.next, p).h)
    ensures d.w.next in Dress(d, s).objects
    ensures var s' := PickFrom(s, d.v, d.w.next, p);
      Pick.PickOne(Dress(d, s), d.v, d.w.next, p) == Left(Dress(d, s')) && Over(d, s') && Tied(d, s') && d.w.next in s'.h
  {
    OwnOfDress(d, s);
    FindGrown(Own(d.w), s.h, d.v, d.j, p);
    FoundIsPlaceable(d, p);
    if d.v.Ref? {
      assert Leads(d, [], d.v.r);
    }
    SeekDress(d, s, d.v, d.j, p);
    assert d.w.next !in d.w.objects;
    hide Rep, BASE, INHERITED, Find, Dress, Over, Tied, NothingExtra, Placeable;
    if At(PlainDoc(d), p).Some? {
      var x := At(PlainDoc(d), p).value;
      PutDress(d, s, d.w.next, p, x);
      PlaceIn(s, d.w.next, p, x);
    }
  }

  lemma {:induction false} PickDress(d: Document, paths: seq<Path>)
    requires IsDocument(d) && NothingExtra(d) && AllPlain(paths) && Paths(paths)
    ensures var s := After(PlainDoc(d), d.w.next, paths);
      Run(d, paths) == Left(Dress(d, s)) && Over(d, s) && Tied(d, s) && d.w.next in s.h
  {
    DressStarts(d);
    if paths == [] { return; }
    var front, p := paths[..|paths| - 1], paths[|paths| - 1];
    PlainFront(paths);
    PickMatchesProjection(PlainDoc(d), d.w.next, paths);
    AfterStep(PlainDoc(d), d.w.next, paths);
    hide After, Dress, Over, Tied, PickFrom, Pick.PickOne, Rep, NothingExtra, Projected;
    PickDress(d, front);
    PickDressOne(d, After(PlainDoc(d), d.w.next, front), p);
  }

  lemma PlainListAgrees(d: Document, paths: seq<Path>)
    requires IsDocument(d) && NothingExtra(d) && AllPlain(paths) && Paths(paths)
    ensures Agrees(d, paths)
  {
    PickDress(d, paths);
    PickMatchesProjection(PlainDoc(d), d.w.next, paths);
    OwnOfDress(d, After(PlainDoc(d), d.w.next, paths));
  }

  // ---- a name that is shown --------------------------------------------------

  lemma {:induction false} SeekOwn(w: World, v: Val, p: Path)
    requires FindOwn(Own(w), v, p).Some?
    ensures Pick.Seek(w, v, p) == FindOwn(Own(w), v, p)
    decreases |p|
  {
    if p != [] { SeekOwn(w, Own(w)[v.r][p[0]], p[1..]); }
  }

  lemma {:induction false} SeekJoins(w: World, v: Val, p: Path, t: Path)
    ensures Pick.Seek(w, v, p + t) == if Pick.Seek(w, v, p).Some? then Pick.Seek(w, Pick.Seek(w, v, p).value, t) else None
    decreases |p|
  {
    if p == [] {
      assert p + t == t;
    } else if Shows(w, v, p[0]) {
      assert (p + t)[1..] == p[1..] + t;
      SeekJoins(w, Get(w, v, p[0]), p[1..], t);
    }
  }

  /** An object as new, in a world where nothing was written to the shared prototype. */
  predicate New(w: World, r: nat) {
    Allocated(w) && r in w.objects && w.objects[r] == Object(map[], Shared) && w.shared == BASE
  }

  /** A plain name is made below a new object. */
  lemma MadeInNew(w: World, r: nat, k: string)
    requires New(w, r) && k !in INHERITED
    ensures !Shows(w, Ref(r), k)
    ensures var o := Pick.Entered(w, Ref(r), k);
      && o.Left? && New(o.w, w.next) && r in o.w.objects && k in o.w.objects[r].fields && w.next != r
      && Shows(o.w, Ref(r), k) && Get(o.w, Ref(r), k) == Ref(w.next)
  {
    PlainIsNotShared(w, k);
    var w1 := World(w.objects[w.next := Object(map[], Shared)], w.shared, w.next + 1);
    PlainIsNotShared(w1, k);
    hide BASE, INHERITED;
    AssignsNew(w, w1, r, k);
  }

  /** A plain path placed in a new object leaves its first name there. */
  lemma {:induction false} PutInNew(w: World, r: nat, p: Path, x: Val)
    requires New(w, r) && p != [] && NoneInherited(p)
    ensures var o := Pick.Put(w, Ref(r), p, x); o.Left? && r in o.w.objects && p[0] in o.w.objects[r].fields
    decreases |p|
  {
    if |p| == 1 {
      PlainIsNotShared(w, p[0]);
    } else {
      MadeInNew(w, r, p[0]);
      var w' := Pick.Entered(w, Ref(r), p[0]).w;
      PutInNew(w', w.next, p[1..], x);
      Pick.PutKeeps(w', Ref(w.next), p[1..], x);
    }
  }

  lemma ExtraIsFound(d: Document, p: Path, r: nat, k: string)
    requires IsDocument(d) && Extra(d, p, r, k)
    ensures Pick.Seek(Pick.Opened(d.w), d.v, p + [k]).Some?
  {
    var w, s := Pick.Opened(d.w), Start(PlainDoc(d), d.w.next);
    DressStarts(d);
    SlotStays(d, s, Ref(r), k, {});
    OwnOfDress(d, s);
    OwnStays(Own(d.w), Own(w), d.v, p);
    hide Rep, BASE, INHERITED, Dress, Pick.Opened, IsDocument;
    SeekOwn(w, d.v, p);
    SeekJoins(w, d.v, p, [k]);
    assert [k][1..] == [];
  }

  lemma ExtraIsNotRecorded(d: Document, p: Path, r: nat, k: string)
    requires IsDocument(d) && Extra(d, p, r, k)
    ensures Projected(d.j, [p + [k]]) == Obj(map[])
  {
    OwnStands(Own(d.w), d.v, d.j, p);
    LookupSplits(d.j, p, [k]);
    NothingSelected(d.j, [p + [k]]);
  }

  /** Where a prototype shows a name, a single plain path finds what the record does not have. */
  lemma ExtraDisagrees(d: Document, p: Path, r: nat, k: string)
    requires IsDocument(d) && Extra(d, p, r, k)
    ensures AllPlain([p + [k]]) && Paths([p + [k]]) && !Agrees(d, [p + [k]])
  {
    var q, w := p + [k], Pick.Opened(d.w);
    PlainJoin(p, k);
    ExtraIsFound(d, p, r, k);
    ExtraIsNotRecorded(d, p, r, k);
    assert New(w, d.w.next);
    PickedOne(d, q);
    hide BASE, INHERITED, IsDocument, Extra, Projected, Pick.Seek, Pick.Put;
    PutInNew(w, d.w.next, q, Pick.Seek(w, d.v, q).value);
    assert q[0] in Own(Run(d, [q]).w)[d.w.next];
  }

  lemma PickedOne(d: Document, p: Path)
    requires p != []
    ensures Run(d, [p]) == Pick.PickOne(Pick.Opened(d.w), d.v, d.w.next, p)
  {
    assert [p][..0] == [];
    assert Pick.PickEach(Pick.Opened(d.w), d.v, d.w.next, [p][..0]) == Left(Pick.Opened(d.w));
  }

  /**
    On a document, all lists of plain paths agree with the record projection if
    and only if no object of it was given a prototype that shows a name.
   */
  lemma PlainListsAgreeIff(d: Document)
    requires IsDocument(d)
    ensures (forall paths :: AllPlain(paths) && Paths(paths) ==> Agrees(d, paths)) <==> NothingExtra(d)
  {
    hide Agrees, Extra, IsDocument, AllPlain;
    if NothingExtra(d) {
      forall paths | AllPlain(paths) && Paths(paths) ensures Agrees(d, paths) {
        PlainListAgrees(d, paths);
      }
    } else {
      var p, r: nat, k :| Extra(d, p, r, k);
      ExtraDisagrees(d, p, r, k);
    }
  }
}
