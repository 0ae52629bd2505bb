/**
  `pick`, the JavaScript projection. It stores the document's own objects in its
  result, reads names through prototypes, and writes wherever its path leads.
 */
module Pick {
  import opened Text
  import opened Json
  import opened Projection
  import opened JsObjects

  /** The document's value at the path. */
  function Seek(w: World, v: Val, p: Path): (r: Option<Val>)
    decreases |p|
  {
    if p == [] then Some(v)
    else if !Shows(w, v, p[0]) then None
    else Seek(w, Get(w, v, p[0]), p[1..])
  }

  /** An object of the world, or the shared prototype. */
  predicate Stands(w: World, v: Val) { v.Prototype? || (v.Ref? && v.r in w.objects) }

  /** The object under a name, made when there is none. */
  function Entered(w: World, o: Val, k: string): (r: Outcome)
    requires Stands(w, o)
  {
    if Shows(w, o, k) then Left(w) else AssignNew(w, o, k)
  }

  /** The value written at the path below an object; given up where no object stands. */
  function Put(w: World, o: Val, p: Path, x: Val): (r: Outcome)
    requires Stands(w, o) && p != []
    decreases |p|
  {
    if |p| == 1 then Assign(w, o, p[0], x)
    else
      match Entered(w, o, p[0])
      case Thrown(w') => Thrown(w')
      case Left(w') =>
        if !Shows(w', o, p[0]) || !Stands(w', Get(w', o, p[0])) then Left(w')
        else Put(w', Get(w', o, p[0]), p[1..], x)
  }

  function PickOne(w: World, doc: Val, out: nat, p: Path): (r: Outcome)
    requires out in w.objects && p != []
  {
    var found := Seek(w, doc, p);
    if found.None? then Left(w) else Put(w, Ref(out), p, found.value)
  }

  /** Every path in turn, until one throws. */
  function PickEach(w: World, doc: Val, out: nat, paths: seq<Path>): (r: Outcome)
    requires Paths(paths)
  {
    if paths == [] then Left(w)
    else
      match PickEach(w, doc, out, paths[..|paths| - 1])
      case Thrown(w') => Thrown(w')
      case Left(w') =>
        if out in w'.objects then PickOne(w', doc, out, paths[|paths| - 1]) else Left(w')
  }

  /** The world with an empty object for the result. */
  function Opened(w: World): (w': World)
  {
    World(w.objects[w.next := Object(map[], Shared)], w.shared, w.next + 1)
  }

  // ---- the loops -------------------------------------------------------------

  method SeekLoop(w: World, doc: Val, p: Path) returns (r: Option<Val>)
    ensures r == Seek(w, doc, p)
  {
    var cur := doc;
    var i := 0;
    while i < |p|
      invariant 0 <= i <= |p| && Seek(w, doc, p) == Seek(w, cur, p[i..])
    {
      if !Shows(w, cur, p[i]) {
        return None;
      }
      cur := Get(w, cur, p[i]);
      i := i + 1;
    }
    r := Some(cur);
  }

  method PutLoop(w: World, out: nat, p: Path, x: Val) returns (r: Outcome)
    requires out in w.objects && p != []
    ensures r == Put(w, Ref(out), p, x)
  {
    var now, o := w, Ref(out);
    var i := 0;
    assert p[0..] == p;
    while i < |p| - 1
      invariant 0 <= i <= |p| - 1 && Stands(now, o) && Put(w, Ref(out), p, x) == Put(now, o, p[i..], x)
    {
      var seg := p[i];
      assert p[i..][1..] == p[i + 1..] && p[i..][0] == seg;
      if !Shows(now, o, seg) {
        var made := AssignNew(now, o, seg);
        if made.Thrown? {
          return made;
        }
        now := made.w;
      }
      if !Shows(now, o, seg) || !Stands(now, Get(now, o, seg)) {
        return Left(now);
      }
      o := Get(now, o, seg);
      i := i + 1;
    }
    r := Assign(now, o, p[i], x);
  }

  /** `pick`. */
  method PickDoc(w: World, doc: Val, paths: seq<Path>) returns (r: Outcome)
    requires Paths(paths) && Allocated(w)
    ensures r == PickEach(Opened(w), doc, w.next, paths)
  {
    hide Put, Seek;
    var now := Opened(w);
    var i := 0;
    while i < |paths|
      invariant 0 <= i <= |paths| && w.next in now.objects && Allocated(now)
      invariant PickEach(Opened(w), doc, w.next, paths[..i]) == Left(now)
    {
      var found := SeekLoop(now, doc, paths[i]);
      PickStep(Opened(w), doc, w.next, paths, i, now);
      if found.Some? {
        PutKeeps(now, Ref(w.next), paths[i], found.value);
        var put := PutLoop(now, w.next, paths[i], found.value);
        if put.Thrown? {
          StaysThrown(Opened(w), doc, w.next, paths, i + 1);
          return put;
        }
        now := put.w;
      }
      i := i + 1;
    }
    assert paths[..i] == paths;
    r := Left(now);
  }

  lemma PickStep(w: World, doc: Val, out: nat, paths: seq<Path>, i: nat, now: World)
    requires Paths(paths) && i < |paths| && PickEach(w, doc, out, paths[..i]) == Left(now) && out in now.objects
    ensures PickEach(w, doc, out, paths[..i + 1]) == PickOne(now, doc, out, paths[i])
  {
    assert paths[..i + 1][..i] == paths[..i];
  }

  lemma {:induction false} StaysThrown(w: World, doc: Val, out: nat, paths: seq<Path>, i: nat)
    requires Paths(paths) && i <= |paths| && PickEach(w, doc, out, paths[..i]).Thrown?
    ensures PickEach(w, doc, out, paths) == PickEach(w, doc, out, paths[..i])
    decreases |paths| - i
  {
    if i < |paths| {
      assert paths[..i + 1][..i] == paths[..i];
      StaysThrown(w, doc, out, paths, i + 1);
    } else {
      assert paths[..i] == paths;
    }
  }

  ghost predicate Grows(w: World, w': World) {
    && (forall t :: t in w.objects ==> t in w'.objects && w.objects[t].fields.Keys <= w'.objects[t].fields.Keys)
    && w.shared.Keys <= w'.shared.Keys
  }

  lemma AssignKeeps(w: World, o: Val, k: string, x: Val)
    requires Stands(w, o) && Allocated(w)
    ensures var r := Assign(w, o, k, x); Allocated(r.w) && Grows(w, r.w) && Stands(r.w, o)
  {
    hide SlotOf, OnChain;
  }

  lemma EnterKeeps(w: World, o: Val, k: string)
    requires Stands(w, o) && Allocated(w)
    ensures var r := Entered(w, o, k); Allocated(r.w) && Grows(w, r.w) && Stands(r.w, o)
  {
    hide SlotOf, Assign;
    if !Shows(w, o, k) {
      AssignKeeps(World(w.objects[w.next := Object(map[], Shared)], w.shared, w.next + 1), o, k, Ref(w.next));
    }
  }

  /** No object is ever lost, nor a field of one. */
  lemma {:induction false} PutKeeps(w: World, o: Val, p: Path, x: Val)
    requires Stands(w, o) && p != [] && Allocated(w)
    ensures var r := Put(w, o, p, x); Allocated(r.w) && Grows(w, r.w)
    decreases |p|
  {
    hide SlotOf, Assign, Entered, Shows, Get, Stands;
    if |p| == 1 {
      AssignKeeps(w, o, p[0], x);
    } else {
      EnterKeeps(w, o, p[0]);
      var e := Entered(w, o, p[0]);
      if e.Left? && Shows(e.w, o, p[0]) && Stands(e.w, Get(e.w, o, p[0])) {
        PutKeeps(e.w, Get(e.w, o, p[0]), p[1..], x);
      }
    }
  }
}
