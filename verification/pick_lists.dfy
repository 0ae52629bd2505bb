/** When `pick` and the record projection give the same, for whole lists of paths. */
module PickLists {
  import opened Text
  import opened Json
  import opened Projection
  import opened JsObjects
  import opened PickPlain
  import opened PickHeap

  // ---- paths that agree ------------------------------------------------------

  function FirstProto(p: Path): (i: nat)
    ensures i <= |p| && (i < |p| ==> p[i] == PROTO) && PROTO !in p[..i]
  {
    if p == [] || p[0] == PROTO then 0 else 1 + FirstProto(p[1..])
  }

  /**
    The path has a name before `__proto__`, not inherited, and ends there or at
    one inherited name: then `pick` finds it and has made objects on the way.
   */
  predicate Escapes(p: Path) {
    var i := FirstProto(p);
    0 < i < |p| && p[0] !in INHERITED && (i + 1 == |p| || (i + 2 == |p| && p[i + 1] in INHERITED))
  }

  /** A path that, alone, `pick` treats as the record projection does. */
  predicate Agreeable(p: Path) {
    if PROTO in p then !Escapes(p) else NoneInherited(p)
  }

  /** No path of the list ends above this one. */
  predicate Outermost(paths: seq<Path>, p: Path) { p in paths && forall t :: t in paths && t <= p ==> t == p }

  ghost predicate AllAgreeable(paths: seq<Path>) { forall p :: Outermost(paths, p) ==> Agreeable(p) }

  lemma {:induction false} OutermostAbove(paths: seq<Path>, p: Path) returns (t: Path)
    requires p in paths
    ensures Outermost(paths, t) && t <= p
    decreases |p|
  {
    t := p;
    if u :| u in paths && u <= p && u != p {
      t := OutermostAbove(paths, u);
    }
  }

  /** A prefix of a found path is found. */
  lemma FoundAbove(h: Heap, v: Val, p: Path, t: Path)
    requires Find(h, v, p).Some? && t <= p
    ensures Find(h, v, t).Some?
  {
    assert p == t + p[|t|..];
    FindJoins(h, v, t, p[|t|..]);
  }

  /** A found path through `__proto__` that does not escape starts with an inherited name. */
  lemma ProtoStartsInherited(d: Doc, p: Path)
    requires PlainHeap(d.h) && PROTO in p && !Escapes(p) && At(d, p).Some?
    ensures p[0] in INHERITED
  {
    var i := FirstProto(p);
    assert i < |p|;
    if d.v.Ref? {
      PrototypeStays(d.h, d.v, p);
    }
  }

  // ---- what a set of paths selects below a path ------------------------------

  function Suffixes(q: set<Path>, p: Path): (r: set<Path>)
  {
    set t | t in q && p <= t :: t[|p|..]
  }

  lemma {:induction false} LookupSplits(j: Value, p: Path, t: Path)
    ensures Lookup(j, p + t) == if Lookup(j, p).Some? then Lookup(Lookup(j, p).value, t) else None
    decreases |p|
  {
    if p == [] {
      assert p + t == t;
    } else if j.Obj? && p[0] in j.fields {
      assert (p + t)[1..] == p[1..] + t;
      LookupSplits(j.fields[p[0]], p[1..], t);
    }
  }

  lemma SuffixIs(q: set<Path>, p: Path, t: Path)
    ensures t in Suffixes(q, p) <==> p + t in q
  {
    if p + t in q {
      assert p <= p + t && (p + t)[|p|..] == t;
    }
    if t in Suffixes(q, p) {
      var u :| u in q && p <= u && u[|p|..] == t;
      assert u == p + t;
    }
  }

  lemma SuffixesFound(j: Value, q: set<Path>, p: Path)
    requires Found(j, q) && Lookup(j, p).Some?
    ensures Found(Lookup(j, p).value, Suffixes(q, p))
  {
    forall t | t in Suffixes(q, p) ensures Lookup(Lookup(j, p).value, t).Some? {
      SuffixIs(q, p, t);
      LookupSplits(j, p, t);
    }
  }

  lemma SuffixHeads(q: set<Path>, p: Path, k: string)
    ensures k in Heads(Suffixes(q, p)) <==> Through(q, p + [k])
    ensures Tails(Suffixes(q, p), k) == Suffixes(q, p + [k])
  {
    var s := Suffixes(q, p);
    if k in Heads(s) {
      var t :| t in s && t != [] && t[0] == k;
      SuffixIs(q, p, t);
      assert t == [k] + t[1..] && p + t == (p + [k]) + t[1..];
    }
    if Through(q, p + [k]) {
      var u :| u in q && p + [k] <= u;
      SuffixIs(q, p, u[|p|..]);
      assert u == p + u[|p|..] && u[|p|..][0] == u[|p|] == (p + [k])[|p|];
    }
    forall t ensures t in Tails(s, k) <==> t in Suffixes(q, p + [k]) {
      SuffixIs(q, p, [k] + t);
      SuffixIs(q, p + [k], t);
      assert p + ([k] + t) == p + [k] + t;
      assert ([k] + t)[1..] == t;
      if t in Tails(s, k) {
        var u :| u in s && u != [] && u[0] == k && u[1..] == t;
        assert u == [k] + t;
      }
    }
  }

  lemma SuffixesOfRoot(q: set<Path>)
    ensures Suffixes(q, []) == q
  {
    forall t ensures t in Suffixes(q, []) <==> t in q {
      SuffixIs(q, [], t);
      assert [] + t == t;
    }
  }

  // ---- a list that agrees ----------------------------------------------------

  /** No path of the set ends at or above this one. */
  predicate Live(q: set<Path>, p: Path) { forall t :: t in q ==> !(t <= p) }

  /** The made objects reach every selected path from here on. */
  ghost predicate Reaches(st: State, q: set<Path>, p: Path, r: nat) {
    forall t :: t in q && p < t ==> Aliased(st, r, t[|p|..])
  }

  /** The outermost paths found in the record. */
  function Outer(d: Doc, paths: seq<Path>): (q: set<Path>)
    ensures forall p :: p in q <==> Outermost(paths, p) && Lookup(d.j, p).Some?
  {
    set p | p in paths && Outermost(paths, p) && Lookup(d.j, p).Some?
  }

  ghost predicate Finished(d: Doc, st: State, paths: seq<Path>) {
    && Rep(d.h, d.v, d.j) && AllSound(d, st, FoundIn(d, paths)) && Kept(d.h, st.s.h) && Paths(paths)
    && AllAgreeable(paths) && (PlainHeap(d.h) || AllPlain(paths))
  }

  ghost predicate Standing(d: Doc, st: State, paths: seq<Path>, r: nat) {
    && r in st.own && r in st.s.h && Live(FoundIn(d, paths), st.own[r]) && Reaches(st, Outer(d, paths), st.own[r], r)
  }

  lemma PrefixOfJoin(t: Path, p: Path, k: string)
    requires t <= p + [k]
    ensures t <= p || t == p + [k]
  {
    if |t| <= |p| { assert t == (p + [k])[..|t|] == p[..|t|]; }
  }

  lemma PrefixesCompare(a: Path, b: Path, t: Path)
    requires a <= t && b <= t
    ensures a <= b || b <= a
  {
    assert a == t[..|a|] && b == t[..|b|];
    if |a| <= |b| { assert a == b[..|a|]; } else { assert b == a[..|b|]; }
  }

  /** Above a found path through a live object's entry lies an outermost one, below the object. */
  lemma OuterBelow(d: Doc, paths: seq<Path>, p: Path, k: string, t: Path) returns (u: Path)
    requires Live(FoundIn(d, paths), p) && t in FoundIn(d, paths) && p + [k] <= t
    ensures u in FoundIn(d, paths) && Outermost(paths, u) && u <= t && p + [k] <= u
  {
    u := OutermostAbove(paths, t);
    FoundAbove(d.h, d.v, t, u);
    PrefixesCompare(u, p + [k], t);
    if u <= p + [k] { PrefixOfJoin(u, p, k); }
  }

  /** An entry's path starts with a plain name, or is a single name of the list. */
  lemma EntryStarts(d: Doc, st: State, done: set<Path>, r: nat, k: string, u: Path)
    requires AllSound(d, st, done) && r in st.own && r in st.s.h && k in st.s.h[r] && st.own[r] + [k] <= u
    ensures u[0] !in INHERITED || ([k] in done && [k] <= u && k != PROTO)
  {
    var p, e := st.own[r], st.s.h[r][k];
    hide Find, Grown;
    assert NoneInherited(p) && Entry(d, st.own, done, p + [k], e) && k != PROTO;
    assert u[0] == (p + [k])[0];
    if p != [] {
      assert u[0] == p[0];
    } else {
      assert p + [k] == [k];
      if e.Ref? && e.r in st.own { assert st.own[e.r][0] == k; }
    }
  }

  /** An agreeable path found below a made object's entry is plain. */
  lemma OuterIsPlain(d: Doc, st: State, paths: seq<Path>, r: nat, k: string, u: Path)
    requires Finished(d, st, paths) && r in st.own && r in st.s.h && k in st.s.h[r]
    requires u in FoundIn(d, paths) && Outermost(paths, u) && st.own[r] + [k] <= u
    ensures NoneInherited(u)
  {
    assert Agreeable(u) && u != [];
    EntryStarts(d, st, FoundIn(d, paths), r, k, u);
    assert u[0] in INHERITED ==> u == [k] && PROTO !in u;
    hide AllSound, Rep, Find;
    if !AllPlain(paths) && PROTO in u && !Escapes(u) {
      ProtoStartsInherited(d, u);
    }
  }

  lemma PlainIsOuter(d: Doc, paths: seq<Path>, u: Path)
    requires Rep(d.h, d.v, d.j) && u in FoundIn(d, paths) && Outermost(paths, u) && NoneInherited(u)
    ensures u in Outer(d, paths) && u in FoundOf(d.j, paths)
  {
    FindReads(d.h, d.v, d.j, u);
  }

  /** A path found in the record below a live object has an outermost one above it, found in both ways. */
  lemma RecordOuter(d: Doc, st: State, paths: seq<Path>, p: Path, k: string, t: Path) returns (u: Path)
    requires Finished(d, st, paths) && Live(FoundIn(d, paths), p) && t in FoundOf(d.j, paths) && p + [k] <= t
    ensures u in Outer(d, paths) && p + [k] <= u
  {
    u := OutermostAbove(paths, t);
    assert t == u + t[|u|..];
    LookupSplits(d.j, u, t[|u|..]);
    assert NoneInherited(u) by {
      assert Agreeable(u);
      if !AllPlain(paths) && PROTO in u { NothingAtProto(d.h, d.v, d.j, u); }
    }
    FindReads(d.h, d.v, d.j, u);
    PrefixesCompare(u, p + [k], t);
    if u <= p + [k] { PrefixOfJoin(u, p, k); }
  }

  /** No record of a document's has anything at a path through `__proto__`. */
  lemma {:induction false} NothingAtProto(h: Heap, v: Val, j: Value, p: Path)
    requires Rep(h, v, j) && PlainHeap(h) && PROTO in p
    ensures Lookup(j, p).None?
    decreases |p|
  {
    if j.Obj? && p[0] in j.fields {
      assert p == [p[0]] + p[1..];
      NothingAtProto(h, h[v.r][p[0]], j.fields[p[0]], p[1..]);
    }
  }

  /** A standing object holds an entry for each name the record projection selects there. */
  lemma KeysAgree(d: Doc, st: State, paths: seq<Path>, r: nat, k: string)
    requires Finished(d, st, paths) && Standing(d, st, paths, r)
    ensures k in st.s.h[r] <==> Through(FoundOf(d.j, paths), st.own[r] + [k])
  {
    var p, done := st.own[r], FoundIn(d, paths);
    hide Find, Rep, PlainHeap, AllAgreeable, Lookup, NoneInherited, Kept;
    if k in st.s.h[r] {
      assert Entry(d, st.own, done, p + [k], st.s.h[r][k]);
      assert Through(done, p + [k]);
      var t :| t in done && p + [k] <= t;
      var u := OuterBelow(d, paths, p, k, t);
      OuterIsPlain(d, st, paths, r, k, u);
      PlainIsOuter(d, paths, u);
    }
    if Through(FoundOf(d.j, paths), p + [k]) {
      var t :| t in FoundOf(d.j, paths) && p + [k] <= t;
      var u := RecordOuter(d, st, paths, p, k, t);
      assert p < u by { assert p <= p + [k]; }
      assert Aliased(st, r, u[|p|..]);
      assert u[|p|] == (p + [k])[|p|];
    }
  }

  /** Below a standing object, an entry that is no made object is the document's value at an outermost path. */
  lemma AliasIsOuter(d: Doc, st: State, paths: seq<Path>, r: nat, k: string)
    requires Finished(d, st, paths) && Standing(d, st, paths, r) && k in st.s.h[r]
    requires var e := st.s.h[r][k]; !(e.Ref? && e.r in st.own)
    ensures var l := st.own[r] + [k];
      l in FoundOf(d.j, paths) && Lookup(d.j, l).Some? && Rep(st.s.h, st.s.h[r][k], Lookup(d.j, l).value)
  {
    var p, e, done := st.own[r], st.s.h[r][k], FoundIn(d, paths);
    var l := p + [k];
    assert Entry(d, st.own, done, l, e);
    var u := OuterBelow(d, paths, p, k, l);
    assert u == l;
    OuterIsPlain(d, st, paths, r, k, l);
    PlainIsOuter(d, paths, l);
    FindReads(d.h, d.v, d.j, l);
    RepKept(d.h, st.s.h, e, Lookup(d.j, l).value);
  }

  /** A made object below a standing one stands. */
  lemma MadeStands(d: Doc, st: State, paths: seq<Path>, r: nat, k: string)
    requires Finished(d, st, paths) && Standing(d, st, paths, r) && k in st.s.h[r]
    requires var e := st.s.h[r][k]; e.Ref? && e.r in st.own
    ensures var c := st.s.h[r][k].r; Standing(d, st, paths, c) && st.own[c] == st.own[r] + [k]
  {
    var p, c, done := st.own[r], st.s.h[r][k].r, FoundIn(d, paths);
    var l := p + [k];
    assert Entry(d, st.own, done, l, st.s.h[r][k]);
    assert st.own[c] == l && c in st.s.h by { SplitApart(d, st); }
    forall t | t in Outer(d, paths) && l <= t ensures t != l && Aliased(st, c, t[|l|..]) {
      ReachesDown(st, Outer(d, paths), p, r, k, t);
    }
    forall t | t in done ensures !(t <= l) {
      if t <= l {
        PrefixOfJoin(t, p, k);
        var u := OuterBelow(d, paths, p, k, l);
        OuterIsPlain(d, st, paths, r, k, u);
        PlainIsOuter(d, paths, u);
      }
    }
  }

  lemma ReachesDown(st: State, q: set<Path>, p: Path, r: nat, k: string, t: Path)
    requires Reaches(st, q, p, r) && t in q && p + [k] <= t && r in st.s.h && k in st.s.h[r]
    requires var e := st.s.h[r][k]; e.Ref? && e.r in st.own
    ensures t != p + [k] && Aliased(st, st.s.h[r][k].r, t[|p| + 1..])
  {
    assert p < t by { assert p <= p + [k]; }
    var u := t[|p|..];
    assert Aliased(st, r, u);
    assert u[0] == t[|p|] == (p + [k])[|p|] == k;
    assert Aliased(st, st.s.h[r][k].r, u[1..]);
    assert u[1..] == t[|p| + 1..] && u[1..] != [];
  }

  /** A standing object stands for what the paths below its own select there. */
  lemma {:induction false} MadeReps(d: Doc, st: State, paths: seq<Path>, r: nat, v: Value)
    requires Finished(d, st, paths) && Standing(d, st, paths, r) && Lookup(d.j, st.own[r]) == Some(v)
    ensures var t := Suffixes(FoundOf(d.j, paths), st.own[r]);
      Found(v, t) && Rep(st.s.h, Ref(r), Selection(v, t))
    decreases v
  {
    var p, q := st.own[r], FoundOf(d.j, paths);
    var t := Suffixes(q, p);
    SuffixesFound(d.j, q, p);
    NotSelected(d, st, paths, r);
    SelectionKeys(v, t);
    assert r in st.s.h;
    hide Selection, Found, Heads, Tails, Suffixes, Through, Finished, Standing, Lookup, FoundOf;
    var sel := Selection(v, t);
    forall k ensures k in sel.fields <==> k in st.s.h[r] {
      SuffixHeads(q, p, k);
      KeysAgree(d, st, paths, r, k);
    }
    assert st.s.h[r].Keys == sel.fields.Keys;
    forall k | k in sel.fields ensures Rep(st.s.h, st.s.h[r][k], sel.fields[k]) {
      SuffixHeads(q, p, k);
      SelectionFields(v, t, k);
      EntryReps(d, st, paths, r, v, k);
    }
  }

  lemma NotSelected(d: Doc, st: State, paths: seq<Path>, r: nat)
    requires Finished(d, st, paths) && Standing(d, st, paths, r)
    ensures [] !in Suffixes(FoundOf(d.j, paths), st.own[r])
  {
    var p, q := st.own[r], FoundOf(d.j, paths);
    SuffixIs(q, p, []);
    assert p + [] == p;
    if p in q {
      assert AllSound(d, st, FoundIn(d, paths)) && NoneInherited(p);
      FindReads(d.h, d.v, d.j, p);
    }
  }

  lemma {:induction false} EntryReps(d: Doc, st: State, paths: seq<Path>, r: nat, v: Value, k: string)
    requires Finished(d, st, paths) && Standing(d, st, paths, r) && Lookup(d.j, st.own[r]) == Some(v)
    requires v.Obj? && k in v.fields && r in st.s.h && k in st.s.h[r]
    ensures var t := Suffixes(FoundOf(d.j, paths), st.own[r] + [k]);
      Found(v.fields[k], t) && Rep(st.s.h, st.s.h[r][k], Selection(v.fields[k], t))
    decreases v, 0
  {
    var l, q, e := st.own[r] + [k], FoundOf(d.j, paths), st.s.h[r][k];
    LookupSplits(d.j, st.own[r], [k]);
    assert [k][1..] == [];
    assert Lookup(d.j, l) == Some(v.fields[k]);
    SuffixesFound(d.j, q, l);
    hide Finished, Standing, Lookup, Rep, FoundOf;
    if e.Ref? && e.r in st.own {
      MadeStands(d, st, paths, r, k);
      MadeReps(d, st, paths, e.r, v.fields[k]);
    } else {
      AliasIsOuter(d, st, paths, r, k);
      SuffixIs(q, l, []);
      assert l + [] == l;
    }
  }

  ghost predicate ListAgrees(d: Doc, out: nat, paths: seq<Path>)
    requires Paths(paths)
  {
    Rep(After(d, out, paths).h, Ref(out), Projected(d.j, paths))
  }

  lemma AgreeableListAgrees(d: Doc, out: nat, paths: seq<Path>)
    requires Fits(d, out) && Paths(paths) && Safe(paths) && AllAgreeable(paths) && (PlainHeap(d.h) || AllPlain(paths))
    ensures ListAgrees(d, out, paths) && Kept(d.h, After(d, out, paths).h)
  {
    var st := PickAllKeeps(d, out, paths);
    var q := FoundOf(d.j, paths);
    RootStands(d, out, paths, st);
    hide Finished, Standing, Rep, Find, Safe, AllAgreeable, PlainHeap, AllPlain, Kept;
    MadeReps(d, st, paths, out, d.j);
    SuffixesOfRoot(q);
  }

  lemma RootStands(d: Doc, out: nat, paths: seq<Path>, st: State)
    requires Paths(paths) && Ran(d, out, paths, st) && Safe(paths) && AllAgreeable(paths)
    requires PlainHeap(d.h) || AllPlain(paths)
    ensures Finished(d, st, paths) && Standing(d, st, paths, out) && st.own[out] == []
    ensures Lookup(d.j, st.own[out]) == Some(d.j) && Kept(d.h, st.s.h) && st.s == After(d, out, paths)
  {
    forall t | t in Outer(d, paths) && [] < t ensures Aliased(st, out, t[0..]) {
      assert t[0..] == t && Agreeable(t);
      if !AllPlain(paths) && PROTO in t { NothingAtProto(d.h, d.v, d.j, t); }
      assert NoneInherited(t);
      FindReads(d.h, d.v, d.j, t);
      assert Reaching(t);
    }
  }

  /**
    On paths with no inherited name, `pick` builds the same object as the record
    projection, and leaves every object of the document as it was.
   */
  lemma PickMatchesProjection(d: Doc, out: nat, paths: seq<Path>)
    requires Fits(d, out) && AllPlain(paths)
    ensures ListAgrees(d, out, paths) && Kept(d.h, After(d, out, paths).h)
  {
    forall p | p in paths ensures NoneInherited(p) && PROTO !in p {
      var i :| 0 <= i < |paths| && paths[i] == p;
      assert forall k :: 0 <= k < |p| ==> p[k] != PROTO;
    }
    assert Safe(paths) by {
      forall j | 0 <= j < |paths| ensures !Harmful(paths[j]) {
        assert NoneInherited(paths[j]) && Last(paths[j]) !in INHERITED;
      }
    }
    AgreeableListAgrees(d, out, paths);
  }

  // ---- documents that show a difference --------------------------------------

  ghost predicate IsDoc(d: Doc, out: nat) { Fits(d, out) && PlainHeap(d.h) }

  /** A value nested under the names of a path. */
  function Nested(p: Path, j: Value): (v: Value)
    decreases |p|
  {
    if p == [] then j else Obj(map[p[0] := Nested(p[1..], j)])
  }

  lemma NestStep(below: Doc, n: nat, k: string, d: Doc)
    requires IsDoc(below, n) && k != PROTO && (below.v.Ref? || below.v.Atom? || below.v.List?)
    requires d == Doc(below.h[n := map[k := below.v]], Ref(n), Obj(map[k := below.j]))
    ensures IsDoc(d, n + 1) && Kept(below.h, d.h)
  {
    assert Kept(below.h, d.h);
    RepKept(below.h, d.h, below.v, below.j);
    assert PlainHeap(d.h) by { hide Rep; }
    hide PlainHeap;
  }

  /** A document with a given value at a path, and nothing beside it. */
  lemma {:induction false} Nest(inner: Doc, out: nat, p: Path) returns (d: Doc, next: nat)
    requires IsDoc(inner, out) && PROTO !in p
    ensures IsDoc(d, next) && Kept(inner.h, d.h) && d.j == Nested(p, inner.j)
    ensures FindOwn(d.h, d.v, p) == Some(inner.v) && At(d, p) == Some(inner.v)
    decreases |p|
  {
    if p == [] {
      d, next := inner, out;
    } else {
      var below, n := Nest(inner, out, p[1..]);
      d := Doc(below.h[n := map[p[0] := below.v]], Ref(n), Obj(map[p[0] := below.j]));
      next := n + 1;
      assert below.v.Ref? || below.v.Atom? || below.v.List?;
      hide Rep, PlainHeap, Find;
      NestStep(below, n, p[0], d);
      assert Grown(below.h, d.h);
      OwnStays(below.h, d.h, below.v, p[1..]);
      OwnIsFound(d.h, d.v, p);
    }
  }

  function FindOwn(h: Heap, v: Val, p: Path): (r: Option<Val>)
    decreases |p|
  {
    if p == [] then Some(v)
    else if !v.Ref? || v.r !in h || p[0] !in h[v.r] then None
    else FindOwn(h, h[v.r][p[0]], p[1..])
  }

  lemma {:induction false} OwnIsFound(h: Heap, v: Val, p: Path)
    requires FindOwn(h, v, p).Some?
    ensures Find(h, v, p) == FindOwn(h, v, p)
    decreases |p|
  {
    if p != [] { OwnIsFound(h, h[v.r][p[0]], p[1..]); }
  }

  lemma {:induction false} OwnStays(h: Heap, h': Heap, v: Val, p: Path)
    requires FindOwn(h, v, p).Some? && Grown(h, h')
    ensures FindOwn(h', v, p) == FindOwn(h, v, p)
    decreases |p|
  {
    if p != [] { OwnStays(h, h', h[v.r][p[0]], p[1..]); }
  }

  lemma {:induction false} OwnJoins(h: Heap, v: Val, p: Path, t: Path)
    ensures FindOwn(h, v, p + t) == if FindOwn(h, v, p).Some? then FindOwn(h, FindOwn(h, v, p).value, t) else None
    decreases |p|
  {
    if p == [] {
      assert p + t == t;
    } else if v.Ref? && v.r in h && p[0] in h[v.r] {
      assert (p + t)[1..] == p[1..] + t;
      OwnJoins(h, h[v.r][p[0]], p[1..], t);
    }
  }

  /** What stands for a record holds the record's paths as its own. */
  lemma {:induction false} RepOwns(h: Heap, v: Val, j: Value, p: Path)
    requires Rep(h, v, j) && Lookup(j, p).Some?
    ensures FindOwn(h, v, p).Some? && Rep(h, FindOwn(h, v, p).value, Lookup(j, p).value)
    decreases |p|
  {
    if p != [] { RepOwns(h, h[v.r][p[0]], j.fields[p[0]], p[1..]); }
  }

  lemma {:induction false} NestedLookup(p: Path, j: Value, t: Path)
    requires j == Null || j == Obj(map[])
    ensures Lookup(Nested(p, j), p) == Some(j)
    ensures Lookup(Nested(p, j), t).Some? ==> t <= p
    decreases |p|
  {
    if p != [] {
      NestedLookup(p[1..], j, if t == [] then t else t[1..]);
      if t != [] && t[0] == p[0] {
        assert t == [t[0]] + t[1..] && p == [p[0]] + p[1..];
      }
    }
  }

  const EMPTY: Doc := Doc(map[0 := map[]], Ref(0), Obj(map[]))

  /** A document with an empty object at a path. */
  lemma NestEmpty(p: Path) returns (d: Doc, out: nat)
    requires PROTO !in p
    ensures IsDoc(d, out) && d.j == Nested(p, Obj(map[])) && 0 in d.h && d.h[0] == map[]
    ensures FindOwn(d.h, d.v, p) == Some(Ref(0)) && At(d, p) == Some(Ref(0))
  {
    assert Rep(EMPTY.h, EMPTY.v, EMPTY.j);
    d, out := Nest(EMPTY, 1, p);
    assert 0 in EMPTY.h;
  }

  // ---- an outermost path that leaves something -------------------------------

  lemma {:induction false} PlaceGrows(s: Store, r: nat, p: Path, v: Val, t: nat, k: string)
    requires r in s.h && p != [] && t in s.h && k in s.h[t] && forall r :: r in s.h ==> r < s.next
    ensures t in Place(s, r, p, v).h && k in Place(s, r, p, v).h[t]
    decreases |p|
  {
    if |p| > 1 {
      var s' := Entered(s, r, p[0]);
      var o := Read(s'.h, Ref(r), p[0]);
      if o.Ref? && o.r in s'.h { PlaceGrows(s', o.r, p[1..], v, t, k); }
    }
  }

  /** The first name is one that placement writes into the result. */
  predicate Begins(p: Path) { p != [] && if |p| > 1 then p[0] !in INHERITED else p[0] != PROTO }

  lemma PlaceBegins(s: Store, r: nat, p: Path, v: Val)
    requires r in s.h && Begins(p) && forall r :: r in s.h ==> r < s.next
    ensures r in Place(s, r, p, v).h && p[0] in Place(s, r, p, v).h[r]
  {
    if |p| > 1 {
      var s' := Entered(s, r, p[0]);
      var o := Read(s'.h, Ref(r), p[0]);
      if o.Ref? && o.r in s'.h { PlaceGrows(s', o.r, p[1..], v, r, p[0]); }
    }
  }

  /** A found path leaves its first name in the result. */
  lemma {:induction false} BeginsStays(d: Doc, out: nat, paths: seq<Path>, p: Path)
    requires Fits(d, out) && Paths(paths) && p in paths && At(d, p).Some? && Begins(p)
    ensures out in After(d, out, paths).h && p[0] in After(d, out, paths).h[out]
  {
    var front, last := paths[..|paths| - 1], paths[|paths| - 1];
    assert paths == front + [last] && Paths(front);
    hide After, AllSound, Rep, Aliased, PickAll;
    if p in front {
      BeginsStays(d, out, front, p);
      KeyStays(d, out, paths, out, p[0]);
    } else {
      var before := PickAllKeeps(d, out, front);
      AfterStep(d, out, paths);
      FindGrownIn(d, before, FoundIn(d, front), p);
      PlaceBegins(before.s, out, p, At(d, p).value);
    }
  }

  lemma FindGrownIn(d: Doc, st: State, done: set<Path>, p: Path)
    requires Rep(d.h, d.v, d.j) && AllSound(d, st, done)
    ensures Find(st.s.h, d.v, p) == At(d, p) && forall r :: r in st.s.h ==> r < st.s.next
  {
    FindGrown(d.h, st.s.h, d.v, d.j, p);
  }

  lemma NothingSelected(j: Value, paths: seq<Path>)
    requires forall t :: t in paths ==> Lookup(j, t).None?
    ensures Projected(j, paths) == Obj(map[])
  {
    assert FoundOf(j, paths) == {};
    assert Heads({}) == {};
  }

  /** An outermost path whose first `i` names lead to an empty object, where it is found all the same. */
  lemma LeakShows(paths: seq<Path>, p: Path, i: nat) returns (d: Doc, out: nat)
    requires Paths(paths) && Outermost(paths, p) && i < |p| && PROTO !in p[..i] && Begins(p)
    requires Find(EMPTY.h, Ref(0), p[i..]).Some?
    ensures IsDoc(d, out) && !ListAgrees(d, out, paths)
  {
    d, out := NestEmpty(p[..i]);
    assert p == p[..i] + p[i..];
    FindJoins(d.h, d.v, p[..i], p[i..]);
    FindAtEmpty(d.h, p[i..]);
    forall t | t in paths ensures Lookup(d.j, t).None? {
      NestedLookup(p[..i], Obj(map[]), t);
    }
    NothingSelected(d.j, paths);
    BeginsStays(d, out, paths, p);
    hide After, Find;
    assert p[0] in After(d, out, paths).h[out];
  }

  lemma FindAtEmpty(h: Heap, p: Path)
    requires 0 in h && h[0] == map[] && Find(EMPTY.h, Ref(0), p).Some?
    ensures Find(h, Ref(0), p).Some?
  {
    if p != [] {
      FindBare(EMPTY.h, h, Read(h, Ref(0), p[0]), p[1..]);
    }
  }

  // ---- an outermost path that is stopped -------------------------------------

  /** A path is given up at an inherited name that is not its last. */
  lemma {:induction false} Stopped(d: Doc, st: State, paths: seq<Path>, p: Path, m: nat, i: nat, r: nat)
    requires AllSound(d, st, FoundIn(d, paths)) && Outermost(paths, p) && i <= m && m + 1 < |p| && p[m] in INHERITED
    requires r in st.own && r in st.s.h && st.own[r] == p[..i]
    ensures FindOwn(st.s.h, Ref(r), p[i..]).None?
    decreases m - i
  {
    assert p[i..][0] == p[i] && p[i..][1..] == p[i + 1..];
    if p[i] in st.s.h[r] {
      var e := st.s.h[r][p[i]];
      assert Entry(d, st.own, FoundIn(d, paths), st.own[r] + [p[i]], e);
      assert p[..i] + [p[i]] == p[..i + 1] && p[..i + 1] <= p;
      assert p[..i + 1] !in paths;
      assert e.Ref? && e.r in st.own && st.own[e.r] == p[..i + 1];
      assert NoneInherited(st.own[e.r]) && st.own[e.r][i] == p[i];
      assert e.r in st.s.h by { SplitApart(d, st); }
      Stopped(d, st, paths, p, m, i + 1, e.r);
    }
  }

  lemma StopShows(paths: seq<Path>, p: Path, m: nat) returns (d: Doc, out: nat)
    requires Paths(paths) && Outermost(paths, p) && m + 1 < |p| && p[m] in INHERITED && PROTO !in p
    ensures IsDoc(d, out) && !ListAgrees(d, out, paths)
  {
    d, out := Nest(Doc(map[], Atom(Null), Null), 0, p);
    NestedLookup(p, Null, p);
    var st := PickAllKeeps(d, out, paths);
    assert p[..0] == [] && p[0..] == p;
    Stopped(d, st, paths, p, m, 0, out);
    SelectedPathsAgree(d.j, paths, p);
    hide After, Projected, Rep, FindOwn, Lookup;
    if ListAgrees(d, out, paths) {
      RepOwns(st.s.h, Ref(out), Projected(d.j, paths), p);
    }
  }

  lemma FoundInPrototype(h: Heap, r: nat, t: Path)
    requires r in h && h[r] == map[] && t != [] && t[0] in INHERITED
    requires |t| == 1 || (t[0] == PROTO && |t| == 2 && t[1] in INHERITED)
    ensures Find(h, Ref(r), t).Some?
  {
    if |t| == 2 {
      var rest := t[1..];
      assert rest == [t[1]] && rest[1..] == [];
      assert Find(h, Prototype, rest) == Find(h, Read(h, Prototype, t[1]), []);
    } else {
      assert t[1..] == [];
    }
  }

  /** An outermost path that is not agreeable. */
  lemma DisagreeableShows(paths: seq<Path>, p: Path) returns (d: Doc, out: nat)
    requires Paths(paths) && Outermost(paths, p) && !Agreeable(p)
    ensures IsDoc(d, out) && !ListAgrees(d, out, paths)
  {
    if PROTO in p {
      var i := FirstProto(p);
      assert p[i..][0] == p[i] && (i + 2 == |p| ==> p[i..][1] == p[i + 1]);
      FoundInPrototype(EMPTY.h, 0, p[i..]);
      d, out := LeakShows(paths, p, i);
    } else if m :| 0 <= m < |p| - 1 && p[m] in INHERITED {
      d, out := StopShows(paths, p, m);
    } else {
      var i := |p| - 1;
      assert p[i..] == [p[i]];
      FoundInPrototype(EMPTY.h, 0, p[i..]);
      d, out := LeakShows(paths, p, i);
    }
  }

  // ---- a path that writes into the document ----------------------------------

  /** Through an alias on its way, a path is placed into the document's own object. */
  lemma {:induction false} PlaceLands(d: Doc, st: State, done: set<Path>, p: Path, i: nat, r: nat, z: nat)
    requires Placing(d, st, done, p, i, r) && Aliased(st, r, Front(p)[i..])
    requires At(d, Front(p)) == Some(Ref(z)) && z in d.h && Last(p) != PROTO
    ensures var h := Place(st.s, r, p[i..], At(d, p).value).h; z in h && Last(p) in h[z]
    decreases |p| - i
  {
    var rest := Front(p)[i..];
    assert i + 1 < |p| && rest[0] == p[i] && rest[1..] == Front(p)[i + 1..];
    var e := st.s.h[r][p[i]];
    assert Aliased(st, r, rest);
    hide Find, Rep, AllSound, Place;
    if e.Ref? && e.r in st.own {
      ChildIsPlacing(d, st, done, p, i, r);
      assert Aliased(st, e.r, rest[1..]);
      PlaceLands(d, st, done, p, i + 1, e.r, z);
    } else {
      EntryIsAlias(d, st, done, p, i, r);
      AliasLeads(d, st, done, p, i, e, z);
      PlaceInside(d, st.s, p, i + 1, e.r);
      InsideHeap(d, st, done, e.r);
    }
    PlaceFollows(st.s, r, p, i, At(d, p).value);
  }

  lemma PlaceFollows(s: Store, r: nat, p: Path, i: nat, v: Val)
    requires r in s.h && i + 1 < |p| && p[i] in s.h[r] && s.h[r][p[i]].Ref? && s.h[r][p[i]].r in s.h
    ensures Place(s, r, p[i..], v) == Place(s, s.h[r][p[i]].r, p[i + 1..], v)
  {
    assert p[i..][0] == p[i] && p[i..][1..] == p[i + 1..] && |p[i..]| > 1;
  }

  lemma AliasLeads(d: Doc, st: State, done: set<Path>, p: Path, i: nat, e: Val, z: nat)
    requires AllSound(d, st, done) && i + 1 < |p| && At(d, p[..i + 1]) == Some(e)
    requires At(d, Front(p)) == Some(Ref(z)) && z in d.h
    ensures e.Ref? && z in st.s.h && Grown(d.h, st.s.h)
  {
    var front := Front(p);
    assert front == p[..i + 1] + front[i + 1..];
    FindJoins(d.h, d.v, p[..i + 1], front[i + 1..]);
    if !e.Ref? { FindBare(d.h, d.h, e, front[i + 1..]); }
  }

  /** A path of the list goes on from where an earlier one ended, to an inherited name. */
  predicate Writes(paths: seq<Path>, i: nat, j: nat)
    requires Paths(paths)
  {
    i < j < |paths| && Harmful(paths[j]) && Overlies(paths[i], paths[j])
  }

  /** Then, in a document with an empty object there, the name ends up in that object. */
  lemma {:induction false} WriteShows(d: Doc, out: nat, paths: seq<Path>, i: nat, j: nat, z: nat)
    requires Fits(d, out) && Paths(paths) && Writes(paths, i, j)
    requires At(d, Front(paths[j])) == Some(Ref(z)) && z in d.h && At(d, paths[j]).Some?
    ensures var h := After(d, out, paths).h; z in h && Last(paths[j]) in h[z]
  {
    hide Safe, AllPlain, PlainHeap, Rep, Find, After, Harmful, Overlies;
    var front := paths[..|paths| - 1];
    assert Paths(front);
    if j < |front| {
      WritesFront(paths, i, j);
      WriteShows(d, out, front, i, j, z);
      KeyStays(d, out, paths, z, Last(paths[j]));
    } else {
      WriteEnds(d, out, paths, i, z);
    }
  }

  lemma WriteEnds(d: Doc, out: nat, paths: seq<Path>, i: nat, z: nat)
    requires Paths(paths) && paths != [] && Writes(paths, i, |paths| - 1) && Fits(d, out)
    requires var p := paths[|paths| - 1]; At(d, Front(p)) == Some(Ref(z)) && z in d.h && At(d, p).Some?
    ensures var h := After(d, out, paths).h; z in h && Last(paths[|paths| - 1]) in h[z]
  {
    hide After, AllSound, Find, Place, PickFrom, Aliased, Writes, Rep, Safe, AllPlain, PlainHeap;
    var before := PickAllKeeps(d, out, paths[..|paths| - 1]);
    WriteLands(d, out, paths, i, before, z);
    AfterStep(d, out, paths);
  }

  lemma WritesFront(paths: seq<Path>, i: nat, j: nat)
    requires Paths(paths) && Writes(paths, i, j) && j < |paths| - 1 && Paths(paths[..|paths| - 1])
    ensures Writes(paths[..|paths| - 1], i, j)
  {
  }

  lemma WriteLands(d: Doc, out: nat, paths: seq<Path>, i: nat, before: State, z: nat)
    requires Paths(paths) && paths != [] && Writes(paths, i, |paths| - 1)
    requires Fits(d, out) && Ran(d, out, paths[..|paths| - 1], before) && out in before.s.h
    requires var p := paths[|paths| - 1]; At(d, Front(p)) == Some(Ref(z)) && z in d.h && At(d, p).Some?
    ensures var p := paths[|paths| - 1]; var h := PickFrom(before.s, d.v, out, p).h; z in h && Last(p) in h[z]
  {
    var front, p := paths[..|paths| - 1], paths[|paths| - 1];
    var done, l := FoundIn(d, front), paths[i];
    assert l == front[i] && l in front;
    FoundAbove(d.h, d.v, Front(p), l);
    assert Reaching(l) by { assert PROTO !in Front(p) && Last(l) == Front(p)[|l| - 1]; }
    assert Aliased(before, out, l);
    AliasedLonger(before, out, l, Front(p)[|l|..]);
    assert Front(p) == l + Front(p)[|l|..] && Front(p)[0..] == Front(p) && p[0..] == p && p[..0] == [];
    FindGrown(d.h, before.s.h, d.v, d.j, p);
    DoneGrows(d, before, done, done + {p});
    PlaceLands(d, before, done + {p}, p, 0, out, z);
  }

  // ---- exactly when ----------------------------------------------------------

  lemma UnsafeWrites(paths: seq<Path>) returns (i: nat, j: nat)
    requires Paths(paths) && !Safe(paths)
    ensures Writes(paths, i, j)
  {
    hide Harmful, Overlies;
    i, j :| 0 <= i < j < |paths| && Harmful(paths[j]) && Overlies(paths[i], paths[j]);
  }

  lemma WriterHasDocument(paths: seq<Path>, i: nat, j: nat) returns (d: Doc, out: nat)
    requires Paths(paths) && Writes(paths, i, j)
    ensures IsDoc(d, out) && d.j == Nested(Front(paths[j]), Obj(map[])) && 0 in d.h && d.h[0] == map[]
    ensures FindOwn(d.h, d.v, Front(paths[j])) == Some(Ref(0))
    ensures var h := After(d, out, paths).h; 0 in h && Last(paths[j]) in h[0]
  {
    var p := paths[j];
    d, out := NestEmpty(Front(p));
    assert p == Front(p) + [Last(p)] && [Last(p)][1..] == [];
    FindJoins(d.h, d.v, Front(p), [Last(p)]);
    hide After;
    WriteShows(d, out, paths, i, j, 0);
  }

  ghost predicate Untouched(d: Doc, out: nat, paths: seq<Path>)
    requires Paths(paths)
  {
    Kept(d.h, After(d, out, paths).h)
  }

  /**
    `pick` leaves every document as it was if and only if no path of its list
    that ends in an inherited name goes on from where an earlier path ended.
   */
  lemma DocumentStaysIff(paths: seq<Path>)
    requires Paths(paths)
    ensures (forall d, out :: IsDoc(d, out) ==> Untouched(d, out, paths)) <==> Safe(paths)
  {
    hide After;
    if Safe(paths) {
      forall d, out | IsDoc(d, out) ensures Untouched(d, out, paths) {
        var st := PickAllKeeps(d, out, paths);
      }
    } else {
      var i, j := UnsafeWrites(paths);
      var d, out := WriterHasDocument(paths, i, j);
      assert !Untouched(d, out, paths);
    }
  }

  /** Where the earlier path ended, the result shows the document's object and what was written into it. */
  lemma WriterDisagrees(paths: seq<Path>, i: nat, j: nat) returns (d: Doc, out: nat)
    requires Paths(paths) && Writes(paths, i, j)
    ensures IsDoc(d, out) && !ListAgrees(d, out, paths)
  {
    hide After, Projected;
    d, out := WriterHasDocument(paths, i, j);
    var l, x := paths[i], Front(paths[j]);
    var st := PickAllKeeps(d, out, paths);
    OwnIsFound(d.h, d.v, x);
    FoundAbove(d.h, d.v, x, l);
    assert Reaching(l) by { assert PROTO !in x && Last(l) == x[|l| - 1]; }
    assert l in FoundIn(d, paths) && Aliased(st, out, l);
    AliasShows(d, st, FoundIn(d, paths), x, 0, out, 0, l);
    assert x[0..] == x && l[0..] == l && x[..0] == [];
    NestedLookup(x, Obj(map[]), x);
    SelectedBelow(d.j, paths, l, x);
    if ListAgrees(d, out, paths) {
      RepOwns(st.s.h, Ref(out), Projected(d.j, paths), x);
    }
  }

  /** Below a selected path the projection shows what the record does. */
  lemma SelectedBelow(j: Value, paths: seq<Path>, l: Path, x: Path)
    requires Paths(paths) && l in paths && l <= x
    ensures Lookup(Projected(j, paths), x) == Lookup(j, x)
  {
    SelectedPathsAgree(j, paths, l);
    assert x == l + x[|l|..];
    LookupSplits(j, l, x[|l|..]);
    LookupSplits(Projected(j, paths), l, x[|l|..]);
  }

  /** The result leads to the document's own object below an alias. */
  lemma {:induction false} AliasShows(d: Doc, st: State, done: set<Path>, x: Path, i: nat, r: nat, z: nat, l: Path)
    requires AllSound(d, st, done) && i <= |l| <= |x| && l <= x && r in st.own && r in st.s.h && st.own[r] == x[..i]
    requires Aliased(st, r, l[i..]) && FindOwn(d.h, d.v, x) == Some(Ref(z))
    ensures FindOwn(st.s.h, Ref(r), x[i..]) == Some(Ref(z))
    decreases |x| - i
  {
    hide Find, AllSound, Aliased, FindOwn;
    AliasedStep(st, r, l, i);
    EntryIs(d, st, done, x, i, r);
    var e := st.s.h[r][x[i]];
    if e.Ref? && e.r in st.own {
      AliasShows(d, st, done, x, i + 1, e.r, z, l);
    } else {
      DocumentLeads(d, st.s.h, x, i + 1, e, z);
    }
    OwnStep(st.s.h, r, x, i);
  }

  lemma AliasedStep(st: State, r: nat, l: Path, i: nat)
    requires i <= |l| && Aliased(st, r, l[i..])
    ensures i < |l| && r in st.s.h && l[i] in st.s.h[r]
    ensures var e := st.s.h[r][l[i]]; e.Ref? && e.r in st.own ==> Aliased(st, e.r, l[i + 1..])
  {
    assert l[i..][0] == l[i] && l[i..][1..] == l[i + 1..];
  }

  lemma EntryIs(d: Doc, st: State, done: set<Path>, x: Path, i: nat, r: nat)
    requires AllSound(d, st, done) && i < |x| && r in st.own && r in st.s.h && st.own[r] == x[..i] && x[i] in st.s.h[r]
    ensures Grown(d.h, st.s.h)
    ensures var e := st.s.h[r][x[i]];
      if e.Ref? && e.r in st.own then e.r in st.s.h && st.own[e.r] == x[..i + 1] else At(d, x[..i + 1]) == Some(e)
  {
    hide Find, Through, NoneInherited, Grown;
    assert x[..i] + [x[i]] == x[..i + 1];
    assert Entry(d, st.own, done, x[..i + 1], st.s.h[r][x[i]]);
    SplitApart(d, st);
  }

  lemma OwnStep(h: Heap, r: nat, x: Path, i: nat)
    requires r in h && i < |x| && x[i] in h[r]
    ensures FindOwn(h, Ref(r), x[i..]) == FindOwn(h, h[r][x[i]], x[i + 1..])
  {
    assert x[i..][0] == x[i] && x[i..][1..] == x[i + 1..];
  }

  lemma DocumentLeads(d: Doc, h: Heap, x: Path, i: nat, e: Val, z: nat)
    requires Grown(d.h, h) && i <= |x| && At(d, x[..i]) == Some(e) && FindOwn(d.h, d.v, x) == Some(Ref(z))
    ensures FindOwn(h, e, x[i..]) == Some(Ref(z))
  {
    assert x == x[..i] + x[i..];
    OwnJoins(d.h, d.v, x[..i], x[i..]);
    OwnIsFound(d.h, d.v, x[..i]);
    OwnStays(d.h, h, e, x[i..]);
  }

  /**
    `pick` and the record projection agree on every document if and only if no
    path of the list writes into the document, and each outermost path of it is
    agreeable: without inherited names or, through `__proto__`, without effect.
   */
  lemma ListAgreesIff(paths: seq<Path>)
    requires Paths(paths)
    ensures (forall d, out :: IsDoc(d, out) ==> ListAgrees(d, out, paths)) <==> Safe(paths) && AllAgreeable(paths)
  {
    hide ListAgrees, Agreeable, Outermost;
    if !Safe(paths) {
      var i, j := UnsafeWrites(paths);
      var d, out := WriterDisagrees(paths, i, j);
    } else if p :| Outermost(paths, p) && !Agreeable(p) {
      var d, out := DisagreeableShows(paths, p);
    } else {
      forall d, out | IsDoc(d, out) ensures ListAgrees(d, out, paths) {
        AgreeableListAgrees(d, out, paths);
      }
    }
  }

  /** For a single path: on every document if and only if it is agreeable. */
  lemma PickAgreesIff(p: Path)
    requires p != []
    ensures (forall d, out :: IsDoc(d, out) ==> ListAgrees(d, out, [p])) <==> Agreeable(p)
  {
    hide ListAgrees, Agreeable;
    ListAgreesIff([p]);
    assert Outermost([p], p);
    assert forall t :: Outermost([p], t) ==> t == p;
  }
}
