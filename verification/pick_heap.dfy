/**
  What `pick` does to its heap, whatever the paths: which objects it makes, what
  it stores in them, and what it can do to the document it stores there.
 */
module PickHeap {
  import opened Text
  import opened Json
  import opened Projection
  import opened JsObjects
  import opened PickPlain

  // ---- documents -------------------------------------------------------------

  /** The heap before, the document in it, and what it stands for. */
  datatype Doc = Doc(h: Heap, v: Val, j: Value)

  /** The value stands for the JSON value in the heap. */
  ghost predicate Rep(h: Heap, v: Val, j: Value)
    decreases j
  {
    match j
    case Obj(fields) =>
      v.Ref? && v.r in h && h[v.r].Keys == fields.Keys && forall k :: k in fields ==> Rep(h, h[v.r][k], fields[k])
    case Arr(items) =>
      v.List? && |v.items| == |items| && forall i :: 0 <= i < |items| ==> Rep(h, v.items[i], items[i])
    case _ => v == Atom(j)
  }

  function At(d: Doc, p: Path): (r: Option<Val>) { Find(d.h, d.v, p) }

  predicate NoneInherited(p: Path) {
    forall i :: 0 <= i < |p| ==> p[i] !in INHERITED
  }

  /** Objects of the first heap are all there, unchanged, in the second. */
  predicate Kept(h: Heap, h': Heap) {
    forall r :: r in h ==> r in h' && h'[r] == h[r]
  }

  lemma {:induction false} RepKept(h: Heap, h': Heap, v: Val, j: Value)
    requires Rep(h, v, j) && Kept(h, h')
    ensures Rep(h', v, j)
    decreases j
  {
    if j.Obj? {
      forall k | k in j.fields ensures Rep(h', h'[v.r][k], j.fields[k]) {
        RepKept(h, h', h[v.r][k], j.fields[k]);
      }
    } else if j.Arr? {
      forall i | 0 <= i < |j.items| ensures Rep(h', v.items[i], j.items[i]) {
        RepKept(h, h', v.items[i], j.items[i]);
      }
    }
  }

  /** Reading a path in the heap reads it in the document. */
  lemma {:induction false} FindReads(h: Heap, v: Val, j: Value, p: Path)
    requires Rep(h, v, j) && NoneInherited(p)
    ensures Find(h, v, p).Some? <==> Lookup(j, p).Some?
    ensures Find(h, v, p).Some? ==> Rep(h, Find(h, v, p).value, Lookup(j, p).value)
    decreases |p|
  {
    if p != [] && v.Ref? && p[0] in h[v.r] {
      FindReads(h, h[v.r][p[0]], j.fields[p[0]], p[1..]);
    }
  }

  lemma {:induction false} FindSteps(h: Heap, v: Val, p: Path, i: nat)
    requires i < |p| && Find(h, v, p).Some?
    ensures Find(h, v, p[..i]).Some?
    ensures var o := Find(h, v, p[..i]).value;
      Has(h, o, p[i]) && Find(h, v, p[..i + 1]) == Some(Read(h, o, p[i]))
    decreases i
  {
    if i > 0 {
      FindSteps(h, Read(h, v, p[0]), p[1..], i - 1);
      assert p[..i][1..] == p[1..][..i - 1] && p[..i + 1][1..] == p[1..][..i];
    } else {
      assert p[..1][1..] == [];
    }
  }

  // ---- documents that gained functions ---------------------------------------

  /** An object keeps its fields and gains, at most, inherited functions as fields of its own. */
  predicate GrownObject(o: map<string, Val>, o': map<string, Val>) {
    && (forall k :: k in o ==> k in o' && o'[k] == o[k])
    && (forall k :: k in o' && k !in o ==> k in INHERITED && k != PROTO && o'[k] == Func(k))
  }

  predicate Grown(h: Heap, h': Heap) {
    forall r :: r in h ==> r in h' && GrownObject(h[r], h'[r])
  }

  /** Functions and prototypes lead nowhere that depends on the heap, and never to an object. */
  lemma {:induction false} FindBare(h: Heap, h': Heap, v: Val, p: Path)
    requires !v.Ref?
    ensures Find(h', v, p) == Find(h, v, p) && Find(h, v, p) != Some(Ref(0))
    ensures Find(h, v, p).Some? ==> !Find(h, v, p).value.Ref?
    decreases |p|
  {
    if p != [] && Has(h, v, p[0]) { FindBare(h, h', Read(h, v, p[0]), p[1..]); }
  }

  /** A document reads the same with the functions it gained. */
  lemma {:induction false} FindGrown(h: Heap, h': Heap, v: Val, j: Value, p: Path)
    requires Rep(h, v, j) && Grown(h, h')
    ensures Find(h', v, p) == Find(h, v, p)
    ensures Find(h, v, p).Some? && Find(h, v, p).value.Ref? ==> Find(h, v, p).value.r in h
    decreases |p|
  {
    if p == [] { return; }
    if !v.Ref? {
      FindBare(h, h', v, p);
    } else if p[0] in h[v.r] {
      FindGrown(h, h', h[v.r][p[0]], j.fields[p[0]], p[1..]);
    } else if p[0] in INHERITED {
      FindBare(h, h', Read(h, v, p[0]), p[1..]);
    }
  }

  lemma FoundInHeap(d: Doc, p: Path)
    requires Rep(d.h, d.v, d.j)
    ensures At(d, p).Some? && At(d, p).value.Ref? ==> At(d, p).value.r in d.h
  {
    FindGrown(d.h, d.h, d.v, d.j, p);
  }

  /** No path through a prototype leads to an object. */
  lemma NoObjectPastPrototype(d: Doc, p: Path)
    requires Rep(d.h, d.v, d.j) && PlainHeap(d.h) && PROTO in p && At(d, p).Some?
    ensures !At(d, p).value.Ref?
  {
    if d.v.Ref? {
      PrototypeStays(d.h, d.v, p);
      var i :| 0 <= i < |p| && p[i] == PROTO;
    } else {
      FindBare(d.h, d.h, d.v, p);
    }
  }

  function Front(p: Path): (r: Path)
    requires p != []
  {
    p[..|p| - 1]
  }

  function Last(p: Path): (r: string)
    requires p != []
  {
    p[|p| - 1]
  }

  /** Placed into the document itself, the path leaves an inherited function there. */
  predicate Harmful(p: Path)
    requires p != []
  {
    Last(p) in INHERITED && Last(p) != PROTO && PROTO !in Front(p)
  }

  /** Documents the decoder makes, or paths that no prototype shows in. */
  predicate Proper(h: Heap, p: Path) { PlainHeap(h) || NoneInherited(p) }

  // ---- placing into the document ---------------------------------------------

  /** The path is found in the document, and its first `i` names lead to the object `r`. */
  ghost predicate Inside(d: Doc, p: Path, i: nat, r: nat) {
    && Rep(d.h, d.v, d.j) && i < |p| && At(d, p).Some? && At(d, p[..i]) == Some(Ref(r)) && r in d.h
  }

  lemma InsideStep(d: Doc, p: Path, i: nat, r: nat)
    requires Inside(d, p, i, r)
    ensures Has(d.h, Ref(r), p[i]) && At(d, p[..i + 1]) == Some(Read(d.h, Ref(r), p[i]))
    ensures i + 1 == |p| ==> At(d, p).value == Read(d.h, Ref(r), p[i])
    ensures i + 1 < |p| && Read(d.h, Ref(r), p[i]).Ref? ==> Inside(d, p, i + 1, Read(d.h, Ref(r), p[i]).r)
  {
    FindSteps(d.h, d.v, p, i);
    FoundInHeap(d, p[..i + 1]);
    assert i + 1 == |p| ==> p[..i + 1] == p;
  }

  lemma ReadGrown(h: Heap, h': Heap, r: nat, k: string)
    requires r in h && Grown(h, h') && Has(h, Ref(r), k)
    ensures Has(h', Ref(r), k) && Read(h', Ref(r), k) == Read(h, Ref(r), k)
  {
  }

  /** Placing a path into the document leaves all other objects alone. */
  ghost predicate Contained(d: Doc, s: Store, s': Store) {
    && s'.next == s.next && s'.h.Keys == s.h.Keys && Grown(d.h, s'.h)
    && (forall t :: t in s.h && t !in d.h ==> s'.h[t] == s.h[t])
    && (forall t, k :: t in s.h && k in s.h[t] ==> k in s'.h[t])
  }

  ghost predicate Unharmed(d: Doc, p: Path, s: Store, s': Store)
    requires p != []
  {
    Proper(d.h, p) && !Harmful(p) ==> s' == s
  }

  ghost predicate Landed(d: Doc, p: Path, s: Store, s': Store)
    requires p != []
  {
    forall z :: At(d, Front(p)) == Some(Ref(z)) && z in s'.h && Last(p) != PROTO ==> Last(p) in s'.h[z]
  }

  lemma AssignContained(d: Doc, s: Store, r: nat, k: string)
    requires r in d.h && Grown(d.h, s.h) && Has(d.h, Ref(r), k)
    ensures Contained(d, s, Assigned(s, r, k, Read(d.h, Ref(r), k)))
    ensures k in d.h[r] || k == PROTO ==> Assigned(s, r, k, Read(d.h, Ref(r), k)) == s
  {
    var s' := Assigned(s, r, k, Read(d.h, Ref(r), k));
    if k in d.h[r] && k != PROTO {
      assert GrownObject(d.h[r], s.h[r]);
      assert s.h[r][k := d.h[r][k]] == s.h[r];
      assert s'.h == s.h;
    } else if k != PROTO {
      assert GrownObject(d.h[r], s'.h[r]);
    }
  }

  lemma PlaceLast(d: Doc, s: Store, p: Path, r: nat)
    requires p != [] && Inside(d, p, |p| - 1, r) && Grown(d.h, s.h)
    ensures var s' := Assigned(s, r, Last(p), At(d, p).value);
      Contained(d, s, s') && Unharmed(d, p, s, s') && Landed(d, p, s, s')
  {
    var k := Last(p);
    InsideStep(d, p, |p| - 1, r);
    AssignContained(d, s, r, k);
    if Proper(d.h, p) && k !in d.h[r] && k != PROTO {
      assert k in INHERITED && PlainHeap(d.h);
      if PROTO in Front(p) { NoObjectPastPrototype(d, Front(p)); }
    }
  }

  lemma StaysOut(d: Doc, s: Store, p: Path, i: nat, r: nat)
    requires Inside(d, p, i, r) && Grown(d.h, s.h) && i + 1 < |p|
    requires Has(d.h, Ref(r), p[i]) && !Read(d.h, Ref(r), p[i]).Ref?
    ensures Contained(d, s, s) && Landed(d, p, s, s)
  {
    InsideStep(d, p, i, r);
    var front := Front(p);
    assert p[..i + 1] == front[..i + 1] && front == front[..i + 1] + front[i + 1..];
    FindSteps(d.h, d.v, p, |front|);
    FindJoins(d.h, d.v, front[..i + 1], front[i + 1..]);
    FindBare(d.h, d.h, Read(d.h, Ref(r), p[i]), front[i + 1..]);
  }

  lemma {:induction false} FindJoins(h: Heap, v: Val, p: Path, t: Path)
    ensures Find(h, v, p + t) == if Find(h, v, p).Some? then Find(h, Find(h, v, p).value, t) else None
    decreases |p|
  {
    if p == [] {
      assert p + t == t;
    } else if Has(h, v, p[0]) {
      assert (p + t)[1..] == p[1..] + t;
      FindJoins(h, Read(h, v, p[0]), p[1..], t);
    }
  }

  /** Placed from an object of the document on, a path puts back what it found: at worst a function. */
  lemma {:induction false} PlaceInside(d: Doc, s: Store, p: Path, i: nat, r: nat)
    requires Inside(d, p, i, r) && Grown(d.h, s.h)
    ensures var s' := Place(s, r, p[i..], At(d, p).value);
      Contained(d, s, s') && Unharmed(d, p, s, s') && Landed(d, p, s, s')
    decreases |p| - i
  {
    InsideStep(d, p, i, r);
    assert i < |p| && At(d, p).Some? && r in s.h;
    ReadGrown(d.h, s.h, r, p[i]);
    hide Contained, Landed, Inside, Find, GrownObject, Rep;
    if i + 1 == |p| {
      PlaceLast(d, s, p, r);
      assert p[i..] == [Last(p)];
    } else if Read(d.h, Ref(r), p[i]).Ref? {
      assert p[i..][1..] == p[i + 1..] && p[i..][0] == p[i];
      PlaceInside(d, s, p, i + 1, Read(d.h, Ref(r), p[i]).r);
    } else {
      StaysOut(d, s, p, i, r);
    }
  }

  // ---- the objects made ------------------------------------------------------

  /** The store, with each object made so far marked with its path. */
  datatype State = State(s: Store, own: map<nat, Path>)

  /** Some selected path goes through this one, or ends there. */
  predicate Through(q: set<Path>, p: Path) { exists t :: t in q && p <= t }

  /** Under a path stands a made object of that path, or what a path done so far found there. */
  ghost predicate Entry(d: Doc, own: map<nat, Path>, done: set<Path>, p: Path, e: Val) {
    if e.Ref? && e.r in own then own[e.r] == p && Through(done, p) else p in done && At(d, p) == Some(e)
  }

  ghost predicate Sound(d: Doc, own: map<nat, Path>, done: set<Path>, p: Path, o: map<string, Val>) {
    PROTO !in o && forall k :: k in o ==> Entry(d, own, done, p + [k], o[k])
  }

  predicate Split(d: Doc, st: State) {
    && d.h.Keys !! st.own.Keys && st.s.h.Keys == d.h.Keys + st.own.Keys
    && forall r :: r in st.s.h ==> r < st.s.next
  }

  ghost predicate AllSound(d: Doc, st: State, done: set<Path>) {
    && Split(d, st) && Grown(d.h, st.s.h)
    && forall r :: r in st.own ==> NoneInherited(st.own[r]) && Sound(d, st.own, done, st.own[r], st.s.h[r])
  }

  /** Walking the path through made objects leads into the document, or to a value of it, along the path. */
  predicate Aliased(st: State, r: nat, p: Path)
    decreases |p|
  {
    && p != [] && r in st.s.h && p[0] in st.s.h[r]
    && var e := st.s.h[r][p[0]]; e.Ref? && e.r in st.own ==> Aliased(st, e.r, p[1..])
  }

  /** From one state to a later one: aliases stay, keys stay, and objects with a shorter mark are not written. */
  ghost predicate Onward(m: nat, a: State, b: State) {
    && (forall r :: r in a.own ==> r in b.own && b.own[r] == a.own[r])
    && (forall r, p :: r in a.own && Aliased(a, r, p) ==> Aliased(b, r, p))
    && (forall r :: r in a.s.h ==> r in b.s.h && a.s.h[r].Keys <= b.s.h[r].Keys)
    && (forall r :: r in a.own && r in a.s.h && |a.own[r]| < m ==> b.s.h[r] == a.s.h[r])
  }

  lemma OnwardJoins(m: nat, n: nat, a: State, b: State, c: State)
    requires Onward(m, a, b) && Onward(n, b, c) && m <= n
    ensures Onward(m, a, c)
  {
    hide Aliased;
  }

  lemma {:induction false} AliasedLonger(st: State, r: nat, p: Path, t: Path)
    requires Aliased(st, r, p)
    ensures Aliased(st, r, p + t)
    decreases |p|
  {
    var e := st.s.h[r][p[0]];
    if e.Ref? && e.r in st.own {
      AliasedLonger(st, e.r, p[1..], t);
      assert (p + t)[1..] == p[1..] + t;
    }
  }

  // ---- one write -------------------------------------------------------------

  /** An object made under a name that was not there. */
  function Made(st: State, r: nat, k: string, p: Path): (st': State)
    requires r in st.s.h
  {
    State(Store(st.s.h[r := st.s.h[r][k := Ref(st.s.next)]][st.s.next := map[]], st.s.next + 1), st.own[st.s.next := p])
  }

  function Written(st: State, r: nat, k: string, v: Val): (st': State)
    requires r in st.s.h
  {
    st.(s := st.s.(h := st.s.h[r := st.s.h[r][k := v]]))
  }

  /** Made objects hold references to objects that are there. */
  predicate Bounded(st: State) {
    && (forall r :: r in st.s.h ==> r < st.s.next)
    && forall r, k :: r in st.own && r in st.s.h && k in st.s.h[r] && st.s.h[r][k].Ref? ==> st.s.h[r][k].r < st.s.next
  }

  lemma SoundIsBounded(d: Doc, st: State, done: set<Path>)
    requires AllSound(d, st, done) && Rep(d.h, d.v, d.j)
    ensures Bounded(st)
  {
    hide Find, Rep, Through, GrownObject;
    forall r, k | r in st.own && r in st.s.h && k in st.s.h[r] && st.s.h[r][k].Ref?
      ensures st.s.h[r][k].r < st.s.next
    {
      assert Entry(d, st.own, done, st.own[r] + [k], st.s.h[r][k]);
      FoundInHeap(d, st.own[r] + [k]);
    }
  }

  lemma {:induction false} MadeAliased(st: State, r: nat, k: string, p: Path, t: nat, l: Path)
    requires r in st.s.h && k !in st.s.h[r] && t in st.own && Aliased(st, t, l) && Bounded(st)
    ensures Aliased(Made(st, r, k, p), t, l)
    decreases |l|
  {
    var e := st.s.h[t][l[0]];
    if e.Ref? && e.r in st.own { MadeAliased(st, r, k, p, e.r, l[1..]); }
  }

  lemma {:induction false} WrittenAliased(st: State, r: nat, k: string, v: Val, t: nat, l: Path)
    requires r in st.s.h && Aliased(st, t, l) && !(v.Ref? && v.r in st.own)
    ensures Aliased(Written(st, r, k, v), t, l)
    decreases |l|
  {
    var e := st.s.h[t][l[0]];
    if e.Ref? && e.r in st.own { WrittenAliased(st, r, k, v, e.r, l[1..]); }
  }

  lemma {:induction false} ContainedAliased(d: Doc, st: State, s': Store, t: nat, l: Path)
    requires Split(d, st) && Contained(d, st.s, s') && t in st.own && Aliased(st, t, l)
    ensures Aliased(st.(s := s'), t, l)
    decreases |l|
  {
    var e := st.s.h[t][l[0]];
    if e.Ref? && e.r in st.own { ContainedAliased(d, st, s', e.r, l[1..]); }
  }

  /** The cursor is the made object of the first `i` names of the path being placed. */
  ghost predicate Placing(d: Doc, st: State, done: set<Path>, p: Path, i: nat, r: nat) {
    && AllSound(d, st, done) && Rep(d.h, d.v, d.j) && i < |p| && p in done && At(d, p).Some?
    && r in st.own && r in st.s.h && st.own[r] == p[..i]
  }

  lemma MadeOnward(st: State, r: nat, k: string, p: Path)
    requires r in st.s.h && r in st.own && k !in st.s.h[r] && Bounded(st) && st.own.Keys <= st.s.h.Keys
    ensures Onward(|st.own[r]|, st, Made(st, r, k, p))
  {
    var st' := Made(st, r, k, p);
    forall t, l | t in st.own && Aliased(st, t, l) ensures Aliased(st', t, l) {
      MadeAliased(st, r, k, p, t, l);
    }
    hide Aliased, Bounded;
    assert st.s.next !in st.s.h && st.s.next !in st.own by { assert Bounded(st); }
  }

  lemma MadeEntry(d: Doc, st: State, done: set<Path>, r: nat, k: string, p: Path, l: Path, e: Val)
    requires Entry(d, st.own, done, l, e) && r in st.s.h && (e.Ref? ==> e.r != st.s.next)
    ensures Entry(d, Made(st, r, k, p).own, done, l, e)
  {
    hide Find, Through;
  }

  /** The objects that were there stay sound beside the one made. */
  lemma MadeKeepsSound(d: Doc, st: State, done: set<Path>, p: Path, i: nat, r: nat, t: nat)
    requires Placing(d, st, done, p, i, r) && Bounded(st) && t in st.own && t in st.s.h && p[i] !in INHERITED
    ensures var st' := Made(st, r, p[i], p[..i + 1]);
      Sound(d, st'.own, done, st.own[t], st'.s.h[t])
  {
    var st' := Made(st, r, p[i], p[..i + 1]);
    assert p[..i + 1] == p[..i] + [p[i]];
    assert Through(done, p[..i + 1]) by { assert p[..i + 1] <= p; }
    assert Sound(d, st.own, done, st.own[t], st.s.h[t]);
    hide Rep, Find, GrownObject, Through, Grown;
    forall k | k in st'.s.h[t] ensures Entry(d, st'.own, done, st.own[t] + [k], st'.s.h[t][k]) {
      if t != r || k != p[i] { MadeEntry(d, st, done, r, p[i], p[..i + 1], st.own[t] + [k], st.s.h[t][k]); }
    }
  }

  lemma PlainStep(p: Path, i: nat)
    requires i < |p| && NoneInherited(p[..i]) && p[i] !in INHERITED
    ensures NoneInherited(p[..i + 1])
  {
    var q := p[..i + 1];
    forall k | 0 <= k < |q| ensures q[k] !in INHERITED {
      assert k < i ==> q[k] == p[..i][k];
    }
  }

  lemma MadeShape(d: Doc, st: State, r: nat, k: string, p: Path)
    requires Split(d, st) && Grown(d.h, st.s.h) && r in st.own && r in st.s.h
    ensures Split(d, Made(st, r, k, p)) && Grown(d.h, Made(st, r, k, p).s.h)
  {
    hide GrownObject;
  }

  lemma MadeSound(d: Doc, st: State, done: set<Path>, p: Path, i: nat, r: nat)
    requires Placing(d, st, done, p, i, r) && p[i] !in st.s.h[r] && p[i] !in INHERITED && i + 1 < |p|
    ensures Onward(i, st, Made(st, r, p[i], p[..i + 1]))
    ensures AllSound(d, Made(st, r, p[i], p[..i + 1]), done)
  {
    SoundIsBounded(d, st, done);
    MadeOnward(st, r, p[i], p[..i + 1]);
    MadeShape(d, st, r, p[i], p[..i + 1]);
    var st', now := Made(st, r, p[i], p[..i + 1]), st.s.next;
    PlainStep(p, i);
    assert Sound(d, st'.own, done, p[..i + 1], map[]);
    assert forall t :: t in st.own ==> t in st.s.h && t != now && NoneInherited(st.own[t]);
    assert st'.own == st.own[now := p[..i + 1]] && st'.s.h[now] == map[];
    hide Rep, Find, Grown, Sound, NoneInherited, Bounded, Onward, Split, Made;
    forall t | t in st'.own ensures NoneInherited(st'.own[t]) && Sound(d, st'.own, done, st'.own[t], st'.s.h[t]) {
      if t != now { MadeKeepsSound(d, st, done, p, i, r, t); }
    }
  }

  lemma WrittenSound(d: Doc, st: State, done: set<Path>, p: Path, i: nat, r: nat, t: nat)
    requires Placing(d, st, done, p, i, r) && i + 1 == |p| && p[i] != PROTO && t in st.own && t in st.s.h
    ensures Sound(d, st.own, done, st.own[t], Written(st, r, p[i], At(d, p).value).s.h[t])
  {
    FoundInHeap(d, p);
    assert p == p[..i] + [p[i]];
    assert Sound(d, st.own, done, st.own[t], st.s.h[t]);
    hide Rep, Find, GrownObject, Through, Grown;
  }

  lemma WrittenOnward(st: State, r: nat, k: string, v: Val)
    requires r in st.s.h && r in st.own && !(v.Ref? && v.r in st.own)
    ensures Onward(|st.own[r]|, st, Written(st, r, k, v))
  {
    var st' := Written(st, r, k, v);
    forall t, l | t in st.own && Aliased(st, t, l) ensures Aliased(st', t, l) {
      WrittenAliased(st, r, k, v, t, l);
    }
    hide Aliased;
  }

  lemma WrittenShape(d: Doc, st: State, r: nat, k: string, v: Val)
    requires Split(d, st) && Grown(d.h, st.s.h) && r in st.own && r in st.s.h
    ensures Split(d, Written(st, r, k, v)) && Grown(d.h, Written(st, r, k, v).s.h)
  {
    hide GrownObject;
  }

  lemma WrittenKeeps(d: Doc, st: State, done: set<Path>, p: Path, i: nat, r: nat)
    requires Placing(d, st, done, p, i, r) && i + 1 == |p| && p[i] != PROTO
    ensures var st' := Written(st, r, p[i], At(d, p).value);
      Onward(i, st, st') && AllSound(d, st', done) && Aliased(st', r, p[i..])
  {
    hide Rep, Find, Grown, Sound, Onward, NoneInherited, Split;
    var v := At(d, p).value;
    var st' := Written(st, r, p[i], v);
    FoundInHeap(d, p);
    assert st.own.Keys !! d.h.Keys && st.own.Keys <= st.s.h.Keys by { SplitApart(d, st); }
    WrittenOnward(st, r, p[i], v);
    WrittenShape(d, st, r, p[i], v);
    hide Written;
    forall t | t in st.own ensures Sound(d, st.own, done, st.own[t], st'.s.h[t]) {
      WrittenSound(d, st, done, p, i, r, t);
    }
  }

  lemma SplitApart(d: Doc, st: State)
    requires Split(d, st)
    ensures st.own.Keys !! d.h.Keys && st.own.Keys <= st.s.h.Keys
  {
  }

  lemma ContainedKeeps(d: Doc, st: State, done: set<Path>, s': Store, m: nat)
    requires AllSound(d, st, done) && Contained(d, st.s, s')
    ensures var st' := st.(s := s'); Onward(m, st, st') && AllSound(d, st', done)
  {
    var st' := st.(s := s');
    forall t, l | t in st.own && Aliased(st, t, l) ensures Aliased(st', t, l) {
      ContainedAliased(d, st, s', t, l);
    }
    hide Aliased, GrownObject, Sound;
    assert forall r :: r in st.s.h ==> st.s.h[r].Keys <= s'.h[r].Keys;
  }

  // ---- one path --------------------------------------------------------------

  /** A path done before this one ended where this one goes on into the document. */
  predicate Overlies(l: Path, p: Path)
    requires p != []
  {
    l != [] && l <= Front(p) && NoneInherited(Front(l))
  }

  ghost predicate Quiet(d: Doc, done: set<Path>, p: Path)
    requires p != []
  {
    Proper(d.h, p) && (Harmful(p) ==> forall l :: l in done ==> !Overlies(l, p))
  }

  /** Nothing inherited stops the path on its way. */
  predicate Reaching(p: Path)
    requires p != []
  {
    NoneInherited(Front(p)) && Last(p) != PROTO
  }

  /** What placing the rest of a path from a made object on comes to. */
  ghost predicate Done(d: Doc, done: set<Path>, p: Path, i: nat, r: nat, st: State, st': State)
    requires i < |p|
  {
    && Onward(i, st, st') && AllSound(d, st', done)
    && (Reaching(p) ==> Aliased(st', r, p[i..]))
    && (Quiet(d, done, p) && Kept(d.h, st.s.h) ==> Kept(d.h, st'.s.h))
  }

  lemma OnwardSelf(m: nat, st: State)
    ensures Onward(m, st, st)
  {
  }

  lemma PlaceOne(s: Store, r: nat, p: Path, i: nat, v: Val)
    requires r in s.h && i + 1 == |p|
    ensures Place(s, r, p[i..], v) == Assigned(s, r, p[i], v)
  {
    assert p[i..] == [p[i]];
  }

  lemma KeptWritten(h: Heap, st: State, r: nat, k: string, v: Val)
    requires Kept(h, st.s.h) && r in st.s.h && r !in h
    ensures Kept(h, Written(st, r, k, v).s.h)
  {
  }

  lemma PlaceEnds(d: Doc, st: State, done: set<Path>, p: Path, i: nat, r: nat) returns (st': State)
    requires Placing(d, st, done, p, i, r) && i + 1 == |p|
    ensures Done(d, done, p, i, r, st, st') && st'.s == Place(st.s, r, p[i..], At(d, p).value)
  {
    hide Place, Find, Rep, Grown, Split, Sound, Onward, Aliased, NoneInherited, Proper, Kept;
    PlaceOne(st.s, r, p, i, At(d, p).value);
    assert r !in d.h by { SplitApart(d, st); }
    if p[i] == PROTO {
      OnwardSelf(i, st);
      st' := st;
    } else {
      WrittenKeeps(d, st, done, p, i, r);
      st' := Written(st, r, p[i], At(d, p).value);
      if Kept(d.h, st.s.h) { KeptWritten(d.h, st, r, p[i], At(d, p).value); }
    }
  }

  /** The name leads to a value of the document's: an earlier path ended here. */
  lemma EntryIsAlias(d: Doc, st: State, done: set<Path>, p: Path, i: nat, r: nat)
    requires Placing(d, st, done, p, i, r) && i + 1 < |p| && p[i] in st.s.h[r]
    requires var e := st.s.h[r][p[i]]; !(e.Ref? && e.r in st.own)
    ensures p[..i + 1] in done && Overlies(p[..i + 1], p)
    ensures var e := st.s.h[r][p[i]]; At(d, p[..i + 1]) == Some(e) && (e.Ref? ==> Inside(d, p, i + 1, e.r))
    ensures Aliased(st, r, p[i..])
  {
    assert p[..i + 1] == p[..i] + [p[i]] && p[..i + 1] <= Front(p);
    assert Front(p[..i + 1]) == p[..i];
    assert Entry(d, st.own, done, st.own[r] + [p[i]], st.s.h[r][p[i]]);
    FoundInHeap(d, p[..i + 1]);
    assert p[i..][0] == p[i];
    hide Find, Rep, Sound, NoneInherited;
  }

  lemma PlaceIntoDocument(d: Doc, st: State, done: set<Path>, p: Path, i: nat, r: nat) returns (st': State)
    requires Placing(d, st, done, p, i, r) && i + 1 < |p| && p[i] in st.s.h[r]
    requires var e := st.s.h[r][p[i]]; e.Ref? && e.r !in st.own
    ensures Done(d, done, p, i, r, st, st') && st.s.h[r][p[i]].r in st.s.h
    ensures st'.s == Place(st.s, st.s.h[r][p[i]].r, p[i + 1..], At(d, p).value)
  {
    var e := st.s.h[r][p[i]];
    EntryIsAlias(d, st, done, p, i, r);
    assert e.r in d.h;
    hide Find, Rep, Place, Inside, Grown, Aliased, Onward, NoneInherited;
    InsideHeap(d, st, done, e.r);
    PlaceInside(d, st.s, p, i + 1, e.r);
    var s' := Place(st.s, e.r, p[i + 1..], At(d, p).value);
    ContainedKeeps(d, st, done, s', i);
    st' := st.(s := s');
    assert Aliased(st', r, p[i..]) by { hide AllSound; assert Onward(i, st, st'); OnwardAliased(i, st, st', r, p[i..]); }
    hide AllSound, Contained, Landed;
  }

  lemma InsideHeap(d: Doc, st: State, done: set<Path>, r: nat)
    requires AllSound(d, st, done) && r in d.h
    ensures r in st.s.h
  {
  }

  lemma OnwardAliased(m: nat, st: State, st': State, r: nat, p: Path)
    requires Onward(m, st, st') && r in st.own && Aliased(st, r, p)
    ensures Aliased(st', r, p)
  {
  }

  /** Placement gives up at a value that is no object. */
  lemma PlaceStops(d: Doc, st: State, done: set<Path>, p: Path, i: nat, r: nat)
    requires Placing(d, st, done, p, i, r) && i + 1 < |p| && Has(st.s.h, Ref(r), p[i])
    requires !Read(st.s.h, Ref(r), p[i]).Ref?
    ensures Done(d, done, p, i, r, st, st) && Place(st.s, r, p[i..], At(d, p).value) == st.s
  {
    OnwardSelf(i, st);
    assert p[i..][0] == p[i];
    if p[i] in st.s.h[r] {
      EntryIsAlias(d, st, done, p, i, r);
    } else {
      assert p[i] in INHERITED && Front(p)[i] == p[i];
    }
    hide AllSound, Onward, Rep, Find;
  }

  /** Below a made object. */
  lemma DoneBelow(d: Doc, done: set<Path>, p: Path, i: nat, r: nat, c: nat, st: State, st': State)
    requires i + 1 < |p| && r in st.own && r in st.s.h && |st.own[r]| == i && p[i] in st.s.h[r]
    requires st.s.h[r][p[i]] == Ref(c) && c in st.own && Done(d, done, p, i + 1, c, st, st')
    ensures Done(d, done, p, i, r, st, st')
  {
    assert p[i..][0] == p[i] && p[i..][1..] == p[i + 1..];
    assert st'.s.h[r] == st.s.h[r] && c in st'.own;
    hide AllSound, Kept, Quiet;
    assert Aliased(st', c, p[i + 1..]) ==> Aliased(st', r, p[i..]);
    assert Onward(i, st, st') by { hide Aliased; }
  }

  lemma DoneAfterMade(d: Doc, done: set<Path>, p: Path, i: nat, r: nat, st: State, mid: State, st': State)
    requires i < |p| && Onward(i, st, mid) && Done(d, done, p, i, r, mid, st')
    requires Kept(d.h, st.s.h) ==> Kept(d.h, mid.s.h)
    ensures Done(d, done, p, i, r, st, st')
  {
    hide AllSound, Kept, Quiet, Onward, Aliased;
    OnwardJoins(i, i, st, mid, st');
  }

  /** A found path, placed from the made object of its first `i` names. */
  lemma {:induction false} PlaceKeeps(d: Doc, st: State, done: set<Path>, p: Path, i: nat, r: nat) returns (st': State)
    requires Placing(d, st, done, p, i, r)
    ensures Done(d, done, p, i, r, st, st') && st'.s == Place(st.s, r, p[i..], At(d, p).value)
    decreases |p| - i
  {
    if i + 1 == |p| {
      st' := PlaceEnds(d, st, done, p, i, r);
      return;
    }
    assert p[i..][0] == p[i] && p[i..][1..] == p[i + 1..] && |p[i..]| > 1;
    if !Has(st.s.h, Ref(r), p[i]) {
      st' := PlaceMade(d, st, done, p, i, r);
    } else if !Read(st.s.h, Ref(r), p[i]).Ref? {
      PlaceStops(d, st, done, p, i, r);
      st' := st;
    } else if Read(st.s.h, Ref(r), p[i]).r in st.own {
      var c := Read(st.s.h, Ref(r), p[i]).r;
      ChildIsPlacing(d, st, done, p, i, r);
      st' := PlaceKeeps(d, st, done, p, i + 1, c);
      DoneBelow(d, done, p, i, r, c, st, st');
    } else {
      st' := PlaceIntoDocument(d, st, done, p, i, r);
    }
  }

  lemma ChildIsPlacing(d: Doc, st: State, done: set<Path>, p: Path, i: nat, r: nat)
    requires Placing(d, st, done, p, i, r) && i + 1 < |p| && p[i] in st.s.h[r]
    requires var e := st.s.h[r][p[i]]; e.Ref? && e.r in st.own
    ensures Placing(d, st, done, p, i + 1, st.s.h[r][p[i]].r)
  {
    assert p[..i + 1] == p[..i] + [p[i]];
    assert Entry(d, st.own, done, st.own[r] + [p[i]], st.s.h[r][p[i]]);
    SplitApart(d, st);
    hide Find, Rep, Sound, NoneInherited, Grown;
  }

  lemma MadeIsPlacing(d: Doc, st: State, done: set<Path>, p: Path, i: nat, r: nat)
    requires Placing(d, st, done, p, i, r) && i + 1 < |p| && !Has(st.s.h, Ref(r), p[i])
    ensures var mid := Made(st, r, p[i], p[..i + 1]);
      && Placing(d, mid, done, p, i + 1, st.s.next) && Onward(i, st, mid)
      && (Kept(d.h, st.s.h) ==> Kept(d.h, mid.s.h)) && st.s.next !in d.h && r != st.s.next
  {
    MadeSound(d, st, done, p, i, r);
    assert r < st.s.next && st.s.next !in d.h && r !in d.h && st.s.next !in st.s.h;
    hide Find, Rep, AllSound, Onward, Grown;
  }

  lemma PlaceEnters(st: State, r: nat, p: Path, i: nat, v: Val)
    requires r in st.s.h && i + 1 < |p| && !Has(st.s.h, Ref(r), p[i]) && r != st.s.next
    ensures var mid := Made(st, r, p[i], p[..i + 1]);
      && p[i] in mid.s.h[r] && mid.s.h[r][p[i]] == Ref(st.s.next) && st.s.next in mid.s.h
      && Place(st.s, r, p[i..], v) == Place(mid.s, st.s.next, p[i + 1..], v)
  {
    assert p[i..][0] == p[i] && p[i..][1..] == p[i + 1..] && |p[i..]| > 1;
  }

  lemma {:induction false} PlaceMade(d: Doc, st: State, done: set<Path>, p: Path, i: nat, r: nat) returns (st': State)
    requires Placing(d, st, done, p, i, r) && i + 1 < |p| && !Has(st.s.h, Ref(r), p[i])
    ensures Done(d, done, p, i, r, st, st') && st'.s == Place(st.s, r, p[i..], At(d, p).value)
    decreases |p| - i, 0
  {
    var mid, c := Made(st, r, p[i], p[..i + 1]), st.s.next;
    MadeIsPlacing(d, st, done, p, i, r);
    PlaceEnters(st, r, p, i, At(d, p).value);
    hide AllSound, Onward, Find, Rep, Kept, Place;
    st' := PlaceKeeps(d, mid, done, p, i + 1, c);
    DoneBelow(d, done, p, i, r, c, mid, st');
    DoneAfterMade(d, done, p, i, r, st, mid, st');
  }

  // ---- every path ------------------------------------------------------------

  /** The paths found in the document as the heap shows it, inherited names included. */
  function FoundIn(d: Doc, paths: seq<Path>): (q: set<Path>)
    ensures forall p :: p in q <==> p in paths && At(d, p).Some?
  {
    set p | p in paths && At(d, p).Some?
  }

  /** No path that ends in an inherited name goes on from where an earlier one ended. */
  predicate Safe(paths: seq<Path>)
    requires Paths(paths)
  {
    forall i, j :: 0 <= i < j < |paths| && Harmful(paths[j]) ==> !Overlies(paths[i], paths[j])
  }

  predicate AllPlain(paths: seq<Path>) { forall i :: 0 <= i < |paths| ==> paths[i] != [] && NoneInherited(paths[i]) }

  lemma DoneGrows(d: Doc, st: State, done: set<Path>, more: set<Path>)
    requires AllSound(d, st, done) && done <= more
    ensures AllSound(d, st, more)
  {
    hide Find, NoneInherited, Grown, Split;
    forall r | r in st.own && r in st.s.h ensures Sound(d, st.own, more, st.own[r], st.s.h[r]) {
      assert Sound(d, st.own, done, st.own[r], st.s.h[r]);
      forall k | k in st.s.h[r] ensures Entry(d, st.own, more, st.own[r] + [k], st.s.h[r][k]) {
        ThroughMore(done, more, st.own[r] + [k]);
      }
    }
    assert st.own.Keys <= st.s.h.Keys by { SplitApart(d, st); }
  }

  lemma ThroughMore(q: set<Path>, q': set<Path>, p: Path)
    requires q <= q'
    ensures Through(q, p) ==> Through(q', p)
  {
  }

  /** One path, found or not. */
  ghost predicate Picked(d: Doc, done: set<Path>, out: nat, p: Path, st: State, st': State)
    requires p != []
  {
    && AllSound(d, st', if At(d, p).Some? then done + {p} else done) && Onward(0, st, st')
    && (At(d, p).Some? && Reaching(p) ==> Aliased(st', out, p))
    && (Quiet(d, done, p) && Kept(d.h, st.s.h) ==> Kept(d.h, st'.s.h))
  }

  ghost predicate Rooted(d: Doc, st: State, done: set<Path>, out: nat) {
    && Rep(d.h, d.v, d.j) && AllSound(d, st, done) && out in st.own && st.own[out] == [] && out in st.s.h
  }

  lemma StaysRooted(d: Doc, done: set<Path>, out: nat, p: Path, st: State, st': State)
    requires p != [] && Rooted(d, st, done, out) && Picked(d, done, out, p, st, st')
    ensures Rooted(d, st', if At(d, p).Some? then done + {p} else done, out)
  {
    hide AllSound, Rep, Find, Aliased;
  }

  lemma PickKeeps(d: Doc, st: State, done: set<Path>, out: nat, p: Path) returns (st': State)
    requires Rooted(d, st, done, out) && p != []
    ensures Picked(d, done, out, p, st, st') && st'.s == PickFrom(st.s, d.v, out, p)
  {
    FindGrown(d.h, st.s.h, d.v, d.j, p);
    OnwardSelf(0, st);
    hide Place, Find, Rep, AllSound, Onward, Aliased, Kept, NoneInherited, Proper;
    if At(d, p).Some? {
      DoneGrows(d, st, done, done + {p});
      assert p[..0] == [] && p[0..] == p;
      st' := PlaceKeeps(d, st, done + {p}, p, 0, out);
    } else {
      st' := st;
    }
  }

  function Start(d: Doc, out: nat): (s: Store) { Store(d.h[out := map[]], out + 1) }

  function After(d: Doc, out: nat, paths: seq<Path>): (s: Store)
    requires Paths(paths)
  {
    PickAll(Start(d, out), d.v, out, paths)
  }

  ghost predicate Fits(d: Doc, out: nat) { Rep(d.h, d.v, d.j) && forall r :: r in d.h ==> r < out }

  /** What `pick` leaves after all its paths. */
  ghost predicate Ran(d: Doc, out: nat, paths: seq<Path>, st: State)
    requires Paths(paths)
  {
    && st.s == After(d, out, paths) && Rooted(d, st, FoundIn(d, paths), out)
    && (forall p :: p in FoundIn(d, paths) && Reaching(p) ==> Aliased(st, out, p))
    && (Safe(paths) && (PlainHeap(d.h) || AllPlain(paths)) ==> Kept(d.h, st.s.h))
  }

  lemma Starts(d: Doc, out: nat, paths: seq<Path>)
    requires Fits(d, out) && paths == []
    ensures Ran(d, out, paths, State(Start(d, out), map[out := []]))
  {
  }

  lemma AfterStep(d: Doc, out: nat, paths: seq<Path>)
    requires Paths(paths) && paths != []
    ensures var front := paths[..|paths| - 1];
      && Paths(front)
      && (out in After(d, out, front).h ==>
        After(d, out, paths) == PickFrom(After(d, out, front), d.v, out, paths[|paths| - 1]))
  {
  }

  lemma FoundStep(d: Doc, paths: seq<Path>)
    requires paths != []
    ensures var front, p := paths[..|paths| - 1], paths[|paths| - 1];
      FoundIn(d, paths) == if At(d, p).Some? then FoundIn(d, front) + {p} else FoundIn(d, front)
  {
    hide Find;
    assert paths == paths[..|paths| - 1] + [paths[|paths| - 1]];
  }

  lemma SafeStep(d: Doc, paths: seq<Path>)
    requires Paths(paths) && paths != []
    ensures var front, p := paths[..|paths| - 1], paths[|paths| - 1];
      Safe(paths) && (PlainHeap(d.h) || AllPlain(paths)) ==>
        Safe(front) && (PlainHeap(d.h) || AllPlain(front)) && Quiet(d, FoundIn(d, front), p)
  {
    hide Find, PlainHeap, NoneInherited, Harmful;
    var front, p := paths[..|paths| - 1], paths[|paths| - 1];
    if Safe(paths) {
      forall l | l in FoundIn(d, front) && Harmful(p) ensures !Overlies(l, p) {
        var i :| 0 <= i < |front| && front[i] == l;
        assert paths[i] == l;
      }
    }
  }

  lemma {:induction false} PickAllKeeps(d: Doc, out: nat, paths: seq<Path>) returns (st: State)
    requires Fits(d, out) && Paths(paths)
    ensures Ran(d, out, paths, st)
  {
    if paths == [] {
      st := State(Start(d, out), map[out := []]);
      Starts(d, out, paths);
      return;
    }
    var front, p := paths[..|paths| - 1], paths[|paths| - 1];
    var before := PickAllKeeps(d, out, front);
    st := PickKeeps(d, before, FoundIn(d, front), out, p);
    PickedRuns(d, out, paths, before, st);
  }

  lemma PickedRuns(d: Doc, out: nat, paths: seq<Path>, before: State, st: State)
    requires Paths(paths) && paths != [] && Paths(paths[..|paths| - 1]) && Ran(d, out, paths[..|paths| - 1], before)
    requires out in before.s.h && st.s == PickFrom(before.s, d.v, out, paths[|paths| - 1])
    requires Picked(d, FoundIn(d, paths[..|paths| - 1]), out, paths[|paths| - 1], before, st)
    ensures Ran(d, out, paths, st)
  {
    var front, p := paths[..|paths| - 1], paths[|paths| - 1];
    AfterStep(d, out, paths);
    FoundStep(d, paths);
    SafeStep(d, paths);
    StaysRooted(d, FoundIn(d, front), out, p, before, st);
    hide After, FoundIn, Rooted, Safe, PlainHeap, AllPlain, Kept, Quiet, PickFrom, AllSound, Aliased, Reaching, Find;
    assert out in before.own by { RootedOwn(d, before, FoundIn(d, front), out); }
    forall l | l in FoundIn(d, paths) && Reaching(l) ensures Aliased(st, out, l) {
      if l in FoundIn(d, front) { OnwardAliased(0, before, st, out, l); }
    }
  }

  lemma RootedOwn(d: Doc, st: State, done: set<Path>, out: nat)
    requires Rooted(d, st, done, out)
    ensures out in st.own && out in st.s.h && st.own[out] == [] && AllSound(d, st, done)
  {
  }

  /** A key that is there before the last path is there after it. */
  lemma KeyStays(d: Doc, out: nat, paths: seq<Path>, r: nat, k: string)
    requires Fits(d, out) && Paths(paths) && paths != [] && Paths(paths[..|paths| - 1])
    requires var h := After(d, out, paths[..|paths| - 1]).h; r in h && k in h[r]
    ensures var h := After(d, out, paths).h; r in h && k in h[r]
  {
    hide After, FoundIn, AllSound, Safe, PlainHeap, AllPlain, Kept, Quiet, PickFrom, Aliased, Reaching, Find, Rep, Place;
    var front := paths[..|paths| - 1];
    var before := PickAllKeeps(d, out, front);
    var st := PickKeeps(d, before, FoundIn(d, front), out, paths[|paths| - 1]);
    AfterStep(d, out, paths);
  }
}
