/** Which datasets have a sorted listing. */
module ListingExists {
  import opened Text
  import opened Json
  import opened ListingOrder
  import opened ListingPages
  import Float64

  /** The rows can be arranged so that each comes before all that follow it. */
  ghost predicate HasListing(ser: Ser, sort: seq<SortKey>, rows: seq<Row>) {
    exists t :: Sorted(ser, sort, t) && Elements(t) == Elements(rows)
  }

  // ---- circles ---------------------------------------------------------------

  predicate Circle(ser: Ser, sort: seq<SortKey>, a: Row, b: Row, c: Row) {
    && CompareRows(ser, sort, a, b) == Less && CompareRows(ser, sort, b, c) == Less
    && CompareRows(ser, sort, c, a) == Less
  }

  lemma CircleIsUnsorted(ser: Ser, sort: seq<SortKey>, a: Row, b: Row, c: Row, t: seq<Row>)
    requires Circle(ser, sort, a, b, c) && a in t && b in t && c in t
    ensures !Sorted(ser, sort, t)
  {
    RowsReverse(ser, sort, a, b);
    RowsReverse(ser, sort, b, c);
    RowsReverse(ser, sort, c, a);
    hide CompareRows;
    var i :| 0 <= i < |t| && t[i] == a;
    var j :| 0 <= j < |t| && t[j] == b;
    var k :| 0 <= k < |t| && t[k] == c;
  }

  /**
    The sort key sees `a` and `b` as different integers on the wrong sides of
    each other, and `f` as a double equal to both.
   */
  predicate Folds(k: SortKey, a: Option<Value>, f: Option<Value>, b: Option<Value>) {
    && IsNum(a) && IsNum(f) && IsNum(b) && Straddles(a.value.n, f.value.n, b.value.n)
    && if k.dir == Asc then b.value.n.z < a.value.n.z else a.value.n.z < b.value.n.z
  }

  predicate FoldsAt(k: SortKey, a: Row, f: Row, b: Row) {
    Folds(k, Lookup(a.record, k.path), Lookup(f.record, k.path), Lookup(b.record, k.path))
  }

  predicate SameAt(ser: Ser, k: SortKey, a: Row, b: Row) { CompareBy(ser, k, a.record, b.record) == Equal }

  /**
    The first sort key to tell any two of the rows apart folds them, and the later
    keys put `a` before `f` and `f` before `b`.
   */
  predicate Knotted(ser: Ser, sort: seq<SortKey>, a: Row, f: Row, b: Row) {
    && sort != []
    && if FoldsAt(sort[0], a, f, b) then
         CompareRows(ser, sort[1..], a, f) == Less && CompareRows(ser, sort[1..], f, b) == Less
       else
         && SameAt(ser, sort[0], a, f) && SameAt(ser, sort[0], f, b) && SameAt(ser, sort[0], b, a)
         && Knotted(ser, sort[1..], a, f, b)
  }

  lemma RowsStep(ser: Ser, sort: seq<SortKey>, x: Row, y: Row)
    requires sort != []
    ensures CompareRows(ser, sort, x, y)
         == if SameAt(ser, sort[0], x, y) then CompareRows(ser, sort[1..], x, y)
            else CompareBy(ser, sort[0], x.record, y.record)
  {
  }

  lemma FoldOrders(ser: Ser, k: SortKey, a: Row, f: Row, b: Row)
    requires FoldsAt(k, a, f, b)
    ensures SameAt(ser, k, a, f) && SameAt(ser, k, f, b) && CompareBy(ser, k, b.record, a.record) == Less
  {
    var x, y, z := Lookup(a.record, k.path), Lookup(f.record, k.path), Lookup(b.record, k.path);
    IntegersCompareExactly(z.value.n, x.value.n);
  }

  /** Three rows that share no order at this key, and yet go round, fold around the second. */
  lemma StraddleFolds(ser: Ser, k: SortKey, a: Row, f: Row, b: Row)
    requires var x, y, z := Lookup(a.record, k.path), Lookup(f.record, k.path), Lookup(b.record, k.path);
      IsNum(x) && IsNum(y) && IsNum(z) && Straddles(x.value.n, y.value.n, z.value.n)
    requires CompareBy(ser, k, b.record, a.record) != Greater
    ensures FoldsAt(k, a, f, b)
  {
    var x, z := Lookup(a.record, k.path), Lookup(b.record, k.path);
    IntegersCompareExactly(z.value.n, x.value.n);
  }

  lemma {:induction false} KnotIsCircle(ser: Ser, sort: seq<SortKey>, a: Row, f: Row, b: Row)
    requires Knotted(ser, sort, a, f, b)
    ensures Circle(ser, sort, a, f, b)
  {
    RowsStep(ser, sort, a, f);
    RowsStep(ser, sort, f, b);
    RowsStep(ser, sort, b, a);
    if FoldsAt(sort[0], a, f, b) {
      FoldOrders(ser, sort[0], a, f, b);
    } else {
      KnotIsCircle(ser, sort[1..], a, f, b);
    }
  }

  ghost predicate SomeKnot(ser: Ser, sort: seq<SortKey>, a: Row, b: Row, c: Row) {
    Knotted(ser, sort, a, b, c) || Knotted(ser, sort, b, c, a) || Knotted(ser, sort, c, a, b)
  }

  predicate TameAt(k: SortKey, a: Row, b: Row, c: Row) {
    TameValues(Lookup(a.record, k.path), Lookup(b.record, k.path), Lookup(c.record, k.path))
  }

  predicate Round(ser: Ser, k: SortKey, a: Row, b: Row, c: Row) {
    && CompareBy(ser, k, a.record, b.record) != Greater && CompareBy(ser, k, b.record, c.record) != Greater
    && CompareBy(ser, k, c.record, a.record) != Greater
  }

  /** A tame key that lets three rows go round tells none of them apart. */
  lemma TameRoundIsFlat(ser: Ser, k: SortKey, a: Row, b: Row, c: Row)
    requires TameAt(k, a, b, c) && Round(ser, k, a, b, c)
    ensures SameAt(ser, k, a, b) && SameAt(ser, k, b, c) && SameAt(ser, k, c, a)
  {
    hide CompareBy, Lookup, TameValues;
    ByReverse(ser, k, c.record, a.record);
    ByCompose(ser, k, a.record, b.record, c.record);
    ByStrict(ser, k, a.record, b.record, c.record);
  }

  /** A key that is not tame folds the rows around one of them. */
  lemma WildRoundFolds(ser: Ser, k: SortKey, a: Row, b: Row, c: Row)
    requires !TameAt(k, a, b, c) && Round(ser, k, a, b, c)
    ensures FoldsAt(k, a, b, c) || FoldsAt(k, b, c, a) || FoldsAt(k, c, a, b)
  {
    var x, y, z := Lookup(a.record, k.path), Lookup(b.record, k.path), Lookup(c.record, k.path);
    hide CompareBy, Lookup, FoldsAt;
    if Straddles(x.value.n, y.value.n, z.value.n) {
      StraddleFolds(ser, k, a, b, c);
    } else if Straddles(y.value.n, x.value.n, z.value.n) {
      StraddleFolds(ser, k, c, a, b);
    } else {
      StraddleFolds(ser, k, b, c, a);
    }
  }

  lemma FoldKnots(ser: Ser, sort: seq<SortKey>, a: Row, f: Row, b: Row)
    requires sort != [] && FoldsAt(sort[0], a, f, b) && Circle(ser, sort, a, f, b)
    ensures Knotted(ser, sort, a, f, b)
  {
    FoldOrders(ser, sort[0], a, f, b);
    RowsStep(ser, sort, a, f);
    RowsStep(ser, sort, f, b);
  }

  lemma NoCircleOfKeys(ser: Ser, a: Row, b: Row, c: Row)
    ensures !Circle(ser, [], a, b, c)
  {
    if Circle(ser, [], a, b, c) {
      StringsCompose(a.key, b.key, c.key);
      StringsReverse(a.key, c.key);
    }
  }

  /** Every circle of rows is a knot. */
  lemma {:induction false} CircleIsKnot(ser: Ser, sort: seq<SortKey>, a: Row, b: Row, c: Row)
    requires Circle(ser, sort, a, b, c)
    ensures SomeKnot(ser, sort, a, b, c)
  {
    if sort == [] {
      NoCircleOfKeys(ser, a, b, c);
      return;
    }
    RowsStep(ser, sort, a, b);
    RowsStep(ser, sort, b, c);
    RowsStep(ser, sort, c, a);
    hide CompareRows, CompareBy, FoldsAt, TameAt;
    if TameAt(sort[0], a, b, c) {
      TameRoundIsFlat(ser, sort[0], a, b, c);
      CircleIsKnot(ser, sort[1..], a, b, c);
      FlatKnots(ser, sort, a, b, c);
    } else {
      WildRoundFolds(ser, sort[0], a, b, c);
      if FoldsAt(sort[0], a, b, c) {
        FoldKnots(ser, sort, a, b, c);
      } else if FoldsAt(sort[0], b, c, a) {
        FoldKnots(ser, sort, b, c, a);
      } else {
        FoldKnots(ser, sort, c, a, b);
      }
    }
  }

  /** A key that tells none of the rows apart passes a knot of the later keys on. */
  lemma FlatKnots(ser: Ser, sort: seq<SortKey>, a: Row, b: Row, c: Row)
    requires sort != [] && SomeKnot(ser, sort[1..], a, b, c)
    requires SameAt(ser, sort[0], a, b) && SameAt(ser, sort[0], b, c) && SameAt(ser, sort[0], c, a)
    ensures SomeKnot(ser, sort, a, b, c)
  {
    if Knotted(ser, sort[1..], a, b, c) {
      FlatKnot(ser, sort, a, b, c);
    } else if Knotted(ser, sort[1..], b, c, a) {
      FlatKnot(ser, sort, b, c, a);
    } else {
      FlatKnot(ser, sort, c, a, b);
    }
  }

  lemma FlatKnot(ser: Ser, sort: seq<SortKey>, a: Row, f: Row, b: Row)
    requires sort != [] && Knotted(ser, sort[1..], a, f, b)
    requires SameAt(ser, sort[0], a, f) && SameAt(ser, sort[0], f, b) && SameAt(ser, sort[0], b, a)
    ensures Knotted(ser, sort, a, f, b)
  {
    hide CompareRows, CompareBy;
    if FoldsAt(sort[0], a, f, b) {
      FoldOrders(ser, sort[0], a, f, b);
      assert false;
    }
  }

  // ---- datasets --------------------------------------------------------------

  ghost predicate KnotFree(ser: Ser, sort: seq<SortKey>, rows: seq<Row>) {
    forall a, f, b :: a in rows && f in rows && b in rows ==> !Knotted(ser, sort, a, f, b)
  }

  lemma KnotFreeComposes(ser: Ser, sort: seq<SortKey>, rows: seq<Row>)
    requires Distinct(rows) && KnotFree(ser, sort, rows)
    ensures Composes(ser, sort, Elements(rows))
  {
    DistinctIsKeyed(rows);
    hide Knotted, CompareRows, Distinct;
    var u := Elements(rows);
    forall x, y, z | x in u && y in u && z in u ensures Passes(ser, sort, x, y, z) {
      RowsReverse(ser, sort, x, y);
      RowsReverse(ser, sort, x, z);
      if Circle(ser, sort, x, y, z) {
        CircleIsKnot(ser, sort, x, y, z);
      }
    }
  }

  /**
    A dataset has a sorted listing if and only if no three of its rows are
    knotted, and then the sort yields it.
   */
  lemma ListingExistsIff(ser: Ser, sort: seq<SortKey>, rows: seq<Row>)
    requires Distinct(rows)
    ensures HasListing(ser, sort, rows) <==> KnotFree(ser, sort, rows)
    ensures HasListing(ser, sort, rows) <==> Sortable(ser, sort, rows)
    ensures HasListing(ser, sort, rows) ==>
      Sorted(ser, sort, SortRows(ser, sort, rows)) && Elements(SortRows(ser, sort, rows)) == Elements(rows)
  {
    hide Knotted, CompareRows, SortRows, Sorted, Elements, Distinct;
    if KnotFree(ser, sort, rows) {
      KnotFreeComposes(ser, sort, rows);
    }
    if Sortable(ser, sort, rows) {
      DistinctIsKeyed(rows);
      SortKeeps(ser, sort, rows, Elements(rows));
    }
    if t :| Sorted(ser, sort, t) && Elements(t) == Elements(rows) {
      ListedIsKnotFree(ser, sort, rows, t);
    }
  }

  lemma ListedIsKnotFree(ser: Ser, sort: seq<SortKey>, rows: seq<Row>, t: seq<Row>)
    requires Sorted(ser, sort, t) && Elements(t) == Elements(rows)
    ensures KnotFree(ser, sort, rows)
  {
    hide Knotted, CompareRows, Sorted;
    forall a, f, b | a in rows && f in rows && b in rows ensures !Knotted(ser, sort, a, f, b) {
      assert a in Elements(t) && f in Elements(t) && b in Elements(t);
      if Knotted(ser, sort, a, f, b) {
        KnotIsCircle(ser, sort, a, f, b);
        CircleIsUnsorted(ser, sort, a, f, b, t);
      }
    }
  }

  // ---- numbers ---------------------------------------------------------------

  function Cell(key: string, n: Number): Row { Row(key, Obj(map["n" := Num(n)])) }

  const BY_N: seq<SortKey> := [SortKey(["n"], Asc)]

  lemma CellLookup(key: string, n: Number)
    ensures Lookup(Cell(key, n).record, ["n"]) == Some(Num(n))
  {
    assert ["n"][1..] == [];
  }

  ghost predicate CellOf(x: Row, s: set<Number>) { exists n :: n in s && x == Cell(x.key, n) }

  /** The rows hold one number each, out of the set. */
  ghost predicate CellsOf(rows: seq<Row>, s: set<Number>) { forall x :: x in rows ==> CellOf(x, s) }

  /** Every dataset of cells out of the set has a listing. */
  ghost predicate AlwaysListed(ser: Ser, s: set<Number>) {
    forall rows :: Distinct(rows) && CellsOf(rows, s) ==> HasListing(ser, BY_N, rows)
  }

  lemma StraddlersKnot(ser: Ser, a: Number, f: Number, b: Number)
    requires Straddles(a, f, b) && b.z < a.z
    ensures Knotted(ser, BY_N, Cell("a", a), Cell("b", f), Cell("c", b))
  {
    CellLookup("a", a);
    CellLookup("b", f);
    CellLookup("c", b);
    hide Lookup, Straddles;
    assert BY_N[1..] == [];
  }

  lemma CellHolds(x: Row, s: set<Number>) returns (n: Number)
    requires CellOf(x, s)
    ensures n in s && Lookup(x.record, ["n"]) == Some(Num(n))
  {
    hide Lookup;
    n :| n in s && x == Cell(x.key, n);
    CellLookup(x.key, n);
  }

  lemma CellsAreTame(s: set<Number>, x: Row, y: Row, z: Row)
    requires Tame(s) && CellOf(x, s) && CellOf(y, s) && CellOf(z, s)
    ensures TameRecords(BY_N, x.record, y.record, z.record)
  {
    hide Lookup, Straddles, CellOf;
    var l := CellHolds(x, s);
    var m := CellHolds(y, s);
    var n := CellHolds(z, s);
  }

  lemma TameCellRows(s: set<Number>, rows: seq<Row>)
    requires Tame(s) && CellsOf(rows, s)
    ensures TameRows(BY_N, Elements(rows))
  {
    hide Tame, TameRecords, CellOf;
    var u := Elements(rows);
    forall x, y, z | x in u && y in u && z in u ensures TameRecords(BY_N, x.record, y.record, z.record) {
      CellsAreTame(s, x, y, z);
    }
  }

  lemma TameCellsAreListed(ser: Ser, s: set<Number>, rows: seq<Row>)
    requires Tame(s) && Distinct(rows) && CellsOf(rows, s)
    ensures HasListing(ser, BY_N, rows)
  {
    hide HasListing, Distinct, Tame, TameRows, CellsOf, KnotFree, Composes;
    TameCellRows(s, rows);
    TameComposes(ser, BY_N, Elements(rows));
    ListingExistsIff(ser, BY_N, rows);
  }

  lemma KnotHasNoListing(ser: Ser, sort: seq<SortKey>, a: Row, f: Row, b: Row)
    requires Knotted(ser, sort, a, f, b)
    ensures !HasListing(ser, sort, [a, f, b])
  {
    var rows := [a, f, b];
    hide Knotted, Sorted, Elements;
    assert a in rows && f in rows && b in rows;
    if t :| Sorted(ser, sort, t) && Elements(t) == Elements(rows) {
      ListedIsKnotFree(ser, sort, rows, t);
    }
  }

  lemma CellRows(s: set<Number>, a: Number, f: Number, b: Number)
    requires a in s && f in s && b in s
    ensures var rows := [Cell("a", a), Cell("b", f), Cell("c", b)]; Distinct(rows) && CellsOf(rows, s)
  {
    assert "a"[0] == 'a' && "b"[0] == 'b' && "c"[0] == 'c';
  }

  lemma StraddlersAreUnlisted(ser: Ser, s: set<Number>, a: Number, f: Number, b: Number)
    requires a in s && f in s && b in s && Straddles(a, f, b) && b.z < a.z
    ensures !AlwaysListed(ser, s)
  {
    StraddlersKnot(ser, a, f, b);
    KnotHasNoListing(ser, BY_N, Cell("a", a), Cell("b", f), Cell("c", b));
    CellRows(s, a, f, b);
    hide HasListing, Knotted, Distinct, CellsOf, Cell;
  }

  /** Numbers from a set can always be listed if and only if the set is tame. */
  lemma AlwaysListedIffTame(ser: Ser, s: set<Number>)
    ensures AlwaysListed(ser, s) <==> Tame(s)
  {
    if Tame(s) {
      hide HasListing, Distinct, CellsOf, Tame;
      forall rows | Distinct(rows) && CellsOf(rows, s) ensures HasListing(ser, BY_N, rows) {
        TameCellsAreListed(ser, s, rows);
      }
    } else {
      var a, f, b :| a in s && f in s && b in s && Straddles(a, f, b);
      if b.z < a.z {
        StraddlersAreUnlisted(ser, s, a, f, b);
      } else {
        StraddlersAreUnlisted(ser, s, b, f, a);
      }
    }
  }

  /** Three rows beyond 2^53 that have no sorted arrangement at all. */
  lemma LargeIntegersHaveNoListing(ser: Ser)
    ensures var two53 := Float64.TWO_53;
      !HasListing(ser, BY_N, [Cell("a", Int(two53 + 1)), Cell("b", Float(two53 as real)), Cell("c", Int(two53))])
  {
    var two53 := Float64.TWO_53;
    var a, f, b := Int(two53 + 1), Float(two53 as real), Int(two53);
    RoundsDown();
    Float64.RoundExact(two53);
    StraddlersKnot(ser, a, f, b);
    KnotHasNoListing(ser, BY_N, Cell("a", a), Cell("b", f), Cell("c", b));
  }
}
