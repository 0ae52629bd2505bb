/** The listing order in the words of its contract, and that the comparison decides it. */
module ListingMeaning {
  import opened Text
  import opened Json
  import opened ListingOrder
  import opened ListingPages

  // ---- values ----------------------------------------------------------------

  /** Null, booleans, numbers, strings, arrays, objects. */
  function Kind(v: Value): (k: nat)
  {
    match v
    case Null => 0
    case Bool(_) => 1
    case Num(_) => 2
    case Str(_) => 3
    case Arr(_) => 4
    case Obj(_) => 5
  }

  /** By the first code point that differs, a proper prefix first. */
  ghost predicate TextBelow(a: string, b: string) { exists i :: FirstDifference(a, b, i) }

  /** Integers by value; a double with anything, as doubles. */
  predicate NumberBelow(x: Number, y: Number) {
    if x.Int? && y.Int? then x.z < y.z else AsF64(x) < AsF64(y)
  }

  ghost predicate ValueBelow(ser: Ser, x: Value, y: Value) {
    if Kind(x) != Kind(y) then Kind(x) < Kind(y)
    else
      match x
      case Null => false
      case Bool(b) => !b && y.b
      case Num(n) => NumberBelow(n, y.n)
      case Str(s) => TextBelow(s, y.s)
      case Arr(_) => TextBelow(ser(x), ser(y))
      case Obj(_) => TextBelow(ser(x), ser(y))
  }

  /** A missing field is below every value. */
  ghost predicate FieldBelow(ser: Ser, x: Option<Value>, y: Option<Value>) {
    y.Some? && (x.Some? ==> ValueBelow(ser, x.value, y.value))
  }

  // ---- records and rows ------------------------------------------------------

  /** One sort key puts the first record ahead of the second. */
  ghost predicate Ahead(ser: Ser, k: SortKey, a: Value, b: Value) {
    var x, y := Lookup(a, k.path), Lookup(b, k.path);
    match k.dir
    case Asc => FieldBelow(ser, x, y)
    case Desc => FieldBelow(ser, y, x)
  }

  ghost predicate Tied(ser: Ser, k: SortKey, a: Value, b: Value) { !Ahead(ser, k, a, b) && !Ahead(ser, k, b, a) }

  /** The first sort key that tells the records apart puts the first one ahead. */
  ghost predicate Precedes(ser: Ser, sort: seq<SortKey>, a: Value, b: Value) {
    exists i: nat :: DecidedAt(ser, sort, a, b, i)
  }

  ghost predicate DecidedAt(ser: Ser, sort: seq<SortKey>, a: Value, b: Value, i: nat) {
    i < |sort| && Ahead(ser, sort[i], a, b) && forall j :: 0 <= j < i ==> Tied(ser, sort[j], a, b)
  }

  /** Rows whose records no key tells apart go by their own keys. */
  ghost predicate RowPrecedes(ser: Ser, sort: seq<SortKey>, x: Row, y: Row) {
    || Precedes(ser, sort, x.record, y.record)
    || (!Precedes(ser, sort, y.record, x.record) && TextBelow(x.key, y.key))
  }

  // ---- the comparison decides it ---------------------------------------------

  lemma NumbersDecide(x: Number, y: Number)
    ensures CompareNumbers(x, y) == Less <==> NumberBelow(x, y)
  {
    if x.Int? && y.Int? { IntegersCompareExactly(x, y); }
  }

  lemma ValuesDecide(ser: Ser, x: Value, y: Value)
    ensures Compare(ser, x, y) == Less <==> ValueBelow(ser, x, y)
  {
    StringsCompareByCodePoint(ser(x), ser(y));
    if x.Num? && y.Num? { NumbersDecide(x.n, y.n); }
    if x.Str? && y.Str? { StringsCompareByCodePoint(x.s, y.s); }
    hide CompareStrings, CompareNumbers, NumberBelow, FirstDifference;
  }

  lemma FieldsDecide(ser: Ser, x: Option<Value>, y: Option<Value>)
    ensures CompareOptional(ser, x, y) == Less <==> FieldBelow(ser, x, y)
  {
    if x.Some? && y.Some? { ValuesDecide(ser, x.value, y.value); }
    hide Compare, ValueBelow;
  }

  lemma KeyDecides(ser: Ser, k: SortKey, a: Value, b: Value)
    ensures CompareBy(ser, k, a, b) == Less <==> Ahead(ser, k, a, b)
    ensures CompareBy(ser, k, a, b) == Greater <==> Ahead(ser, k, b, a)
  {
    var x, y := Lookup(a, k.path), Lookup(b, k.path);
    OptionalReverse(ser, x, y);
    FieldsDecide(ser, x, y);
    FieldsDecide(ser, y, x);
    hide CompareOptional, FieldBelow, Lookup;
  }

  lemma PrecedesStep(ser: Ser, sort: seq<SortKey>, a: Value, b: Value)
    requires sort != []
    ensures Precedes(ser, sort, a, b) <==>
      Ahead(ser, sort[0], a, b) || (Tied(ser, sort[0], a, b) && Precedes(ser, sort[1..], a, b))
  {
    hide DecidedAt;
    if Ahead(ser, sort[0], a, b) { DecidedFirst(ser, sort, a, b); }
    if i: nat :| DecidedAt(ser, sort[1..], a, b, i) { DecidedLater(ser, sort, a, b, i); }
    if i: nat :| DecidedAt(ser, sort, a, b, i) {
      if i > 0 { DecidedLater(ser, sort, a, b, i - 1); } else { DecidedFirst(ser, sort, a, b); }
    }
  }

  lemma DecidedFirst(ser: Ser, sort: seq<SortKey>, a: Value, b: Value)
    requires sort != []
    ensures DecidedAt(ser, sort, a, b, 0) <==> Ahead(ser, sort[0], a, b)
  {
  }

  lemma DecidedLater(ser: Ser, sort: seq<SortKey>, a: Value, b: Value, i: nat)
    requires sort != []
    ensures DecidedAt(ser, sort, a, b, i + 1) <==> Tied(ser, sort[0], a, b) && DecidedAt(ser, sort[1..], a, b, i)
  {
    hide Tied, Ahead;
    var rest := sort[1..];
    assert forall j :: 0 <= j < |rest| ==> rest[j] == sort[j + 1];
    if DecidedAt(ser, sort, a, b, i + 1) {
      forall j | 0 <= j < i ensures Tied(ser, rest[j], a, b) {
        assert Tied(ser, sort[j + 1], a, b);
      }
    }
  }

  /** The comparison of records is the contract's order, every direction and missing field included. */
  lemma {:induction false} RecordsDecide(ser: Ser, sort: seq<SortKey>, a: Value, b: Value)
    ensures CompareRecords(ser, sort, a, b) == Less <==> Precedes(ser, sort, a, b)
    ensures CompareRecords(ser, sort, a, b) == Greater <==> Precedes(ser, sort, b, a)
  {
    if sort != [] {
      KeyDecides(ser, sort[0], a, b);
      PrecedesStep(ser, sort, a, b);
      PrecedesStep(ser, sort, b, a);
      RecordsDecide(ser, sort[1..], a, b);
      hide CompareBy, Ahead, Precedes;
    }
  }

  lemma RowsDecide(ser: Ser, sort: seq<SortKey>, x: Row, y: Row)
    ensures CompareRows(ser, sort, x, y) == Less <==> RowPrecedes(ser, sort, x, y)
  {
    RecordsDecide(ser, sort, x.record, y.record);
    StringsCompareByCodePoint(x.key, y.key);
    hide CompareRecords, Precedes, CompareStrings, FirstDifference;
  }

  /** A listing is sorted exactly when each row precedes all that follow, in the contract's order. */
  lemma SortedMeans(ser: Ser, sort: seq<SortKey>, t: seq<Row>)
    ensures Sorted(ser, sort, t) <==> forall i, j :: 0 <= i < j < |t| ==> RowPrecedes(ser, sort, t[i], t[j])
  {
    hide CompareRows, RowPrecedes;
    forall i, j | 0 <= i < j < |t|
      ensures CompareRows(ser, sort, t[i], t[j]) == Less <==> RowPrecedes(ser, sort, t[i], t[j])
    {
      RowsDecide(ser, sort, t[i], t[j]);
    }
  }

  // ---- directions ------------------------------------------------------------

  /** Every direction turned round. */
  function Flipped(sort: seq<SortKey>): (r: seq<SortKey>)
    ensures |r| == |sort|
  {
    seq(|sort|, i requires 0 <= i < |sort| => SortKey(sort[i].path, if sort[i].dir == Asc then Desc else Asc))
  }

  /** Turning every direction round swaps the records, missing fields and all. */
  lemma {:induction false} FlippedSwaps(ser: Ser, sort: seq<SortKey>, a: Value, b: Value)
    ensures CompareRecords(ser, Flipped(sort), a, b) == CompareRecords(ser, sort, b, a)
  {
    if sort != [] {
      var k, f := sort[0], Flipped(sort);
      assert f[1..] == Flipped(sort[1..]);
      FlippedSwaps(ser, sort[1..], a, b);
      OptionalReverse(ser, Lookup(a, k.path), Lookup(b, k.path));
      hide CompareOptional, Lookup, Flipped;
    }
  }

  /** A record without the field comes first ascending and last descending. */
  lemma MissingIsSmallest(ser: Ser, p: Path, a: Value, b: Value)
    requires Lookup(a, p).None? && Lookup(b, p).Some?
    ensures CompareRecords(ser, [SortKey(p, Asc)], a, b) == Less
    ensures CompareRecords(ser, [SortKey(p, Desc)], b, a) == Less
  {
    hide Lookup;
  }
}
