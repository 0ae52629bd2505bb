/** When `pick` and the record projection give the same, prototypes and all. */
module PickAgrees {
  import opened Json
  import opened Projection
  import opened JsObjects
  import Pick
  import opened PickPlain
  import opened PickHeap
  import opened PickLists
  import opened PickRefines

  // ---- documents -------------------------------------------------------------

  /** A value in a world, and the record it is by its own fields. */
  datatype Document = Document(w: World, v: Val, j: Value)

  function Own(w: World): (h: Heap) { map r | r in w.objects :: w.objects[r].fields }

  /** Prototypes are objects of the world, or arrays. */
  predicate ClosedProtos(w: World) {
    forall r :: r in w.objects && w.objects[r].proto.Is? ==>
      var p := w.objects[r].proto.v; p.List? || (p.Ref? && p.r in w.objects)
  }

  /** A document with nothing written to the shared prototype yet. */
  ghost predicate IsDocument(d: Document) {
    Rep(Own(d.w), d.v, d.j) && Allocated(d.w) && d.w.shared == BASE && ClosedProtos(d.w)
  }

  /** No object was given another prototype, or a field called `__proto__`. */
  predicate Unaltered(w: World) {
    PlainHeap(Own(w)) && forall r :: r in w.objects ==> w.objects[r].proto == Shared
  }

  function Run(d: Document, paths: seq<Path>): (o: Outcome)
    requires Paths(paths)
  {
    Pick.PickEach(Pick.Opened(d.w), d.v, d.w.next, paths)
  }

  /** `pick` returns what stands for the record projection. */
  ghost predicate Agrees(d: Document, paths: seq<Path>)
    requires Paths(paths)
  {
    var o := Run(d, paths);
    o.Left? && Rep(Own(o.w), Ref(d.w.next), Projected(d.j, paths))
  }

  /** `pick` changes neither an object of the document nor the shared prototype. */
  ghost predicate Untouched(d: Document, paths: seq<Path>)
    requires Paths(paths)
  {
    var o := Run(d, paths);
    && o.Left? && o.w.shared == d.w.shared
    && forall r :: r in d.w.objects ==> r in o.w.objects && o.w.objects[r] == d.w.objects[r]
  }

  // ---- documents with unaltered prototypes -----------------------------------

  function PlainDoc(d: Document): Doc { Doc(Own(d.w), d.v, d.j) }

  lemma OwnOfLift(s: Store)
    ensures Own(Lift(s)) == s.h && Lift(s).shared == BASE && Lift(s).next == s.next
  {
  }

  lemma LiftOfOwn(w: World)
    requires Unaltered(w) && w.shared == BASE
    ensures w == Lift(Store(Own(w), w.next)) && Pick.Opened(w) == Lift(Store(Own(w)[w.next := map[]], w.next + 1))
  {
    assert w.objects == Lift(Store(Own(w), w.next)).objects;
    LiftNew(Store(Own(w), w.next));
  }

  lemma UnalteredIsPlain(d: Document, paths: seq<Path>)
    requires IsDocument(d) && Unaltered(d.w) && Paths(paths)
    ensures PickLists.IsDoc(PlainDoc(d), d.w.next)
    ensures Run(d, paths) == Left(Lift(After(PlainDoc(d), d.w.next, paths)))
    ensures Agrees(d, paths) <==> ListAgrees(PlainDoc(d), d.w.next, paths)
    ensures Untouched(d, paths) <==> PickLists.Untouched(PlainDoc(d), d.w.next, paths)
  {
    LiftOfOwn(d.w);
    PickLift(PlainDoc(d), d.w.next, paths);
    var s := After(PlainDoc(d), d.w.next, paths);
    OwnOfLift(s);
    hide After, Rep, PlainHeap, Projected;
    forall r | r in d.w.objects
      ensures r in Lift(s).objects && Lift(s).objects[r] == d.w.objects[r] <==> r in s.h && s.h[r] == Own(d.w)[r]
    {
    }
  }

  /** Every plain document is one of these. */
  function Lifted(d: Doc, out: nat): Document { Document(Lift(Store(d.h, out)), d.v, d.j) }

  lemma PlainIsUnaltered(d: Doc, out: nat)
    requires PickLists.IsDoc(d, out)
    ensures IsDocument(Lifted(d, out)) && Unaltered(Lifted(d, out).w)
    ensures PlainDoc(Lifted(d, out)) == d && Lifted(d, out).w.next == out
  {
    OwnOfLift(Store(d.h, out));
  }

  ghost predicate AlwaysAgrees(paths: seq<Path>)
    requires Paths(paths)
  {
    forall d :: IsDocument(d) && Unaltered(d.w) ==> Agrees(d, paths)
  }

  /**
    On documents with unaltered prototypes `pick` and the record projection agree
    if and only if no path of the list writes into the document, and each
    outermost path of it is agreeable: without inherited names or, through
    `__proto__`, without effect.
   */
  lemma ListAgreesIff(paths: seq<Path>)
    requires Paths(paths)
    ensures AlwaysAgrees(paths) <==> Safe(paths) && AllAgreeable(paths)
  {
    PickLists.ListAgreesIff(paths);
    hide Safe, AllAgreeable, ListAgrees, Agrees, IsDocument, PickLists.IsDoc, Unaltered;
    if AlwaysAgrees(paths) {
      forall d, out | PickLists.IsDoc(d, out) ensures ListAgrees(d, out, paths) {
        PlainIsUnaltered(d, out);
        UnalteredIsPlain(Lifted(d, out), paths);
      }
    } else {
      var d :| IsDocument(d) && Unaltered(d.w) && !Agrees(d, paths);
      UnalteredIsPlain(d, paths);
    }
  }

  /** For a single path: on every such document if and only if it is agreeable. */
  lemma PickAgreesIff(p: Path)
    requires p != []
    ensures AlwaysAgrees([p]) <==> Agreeable(p)
  {
    ListAgreesIff([p]);
    PickLists.ListAgreesIff([p]);
    PickLists.PickAgreesIff(p);
    hide Safe, AllAgreeable, ListAgrees, AlwaysAgrees, Agreeable, PickLists.IsDoc;
  }

  ghost predicate AlwaysUntouched(paths: seq<Path>)
    requires Paths(paths)
  {
    forall d :: IsDocument(d) && Unaltered(d.w) ==> Untouched(d, paths)
  }

  /**
    On documents with unaltered prototypes `pick` leaves the document, and the
    shared prototype, as they were if and only if no path of its list that ends
    in an inherited name goes on from where an earlier path ended.
   */
  lemma DocumentStaysIff(paths: seq<Path>)
    requires Paths(paths)
    ensures AlwaysUntouched(paths) <==> Safe(paths)
  {
    PickLists.DocumentStaysIff(paths);
    hide Safe, Untouched, PickLists.Untouched, IsDocument, PickLists.IsDoc, Unaltered;
    if AlwaysUntouched(paths) {
      forall d, out | PickLists.IsDoc(d, out) ensures PickLists.Untouched(d, out, paths) {
        PlainIsUnaltered(d, out);
        UnalteredIsPlain(Lifted(d, out), paths);
      }
    } else {
      var d :| IsDocument(d) && Unaltered(d.w) && !Untouched(d, paths);
      UnalteredIsPlain(d, paths);
    }
  }
}
