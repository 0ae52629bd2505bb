/**
  The listing contract's order: cross-type comparison, multi-key record order,
  and when the comparison is an order at all.
 */
module ListingOrder {
  import opened Bytes
  import opened Text
  import opened Json
  import Float64

  datatype Ordering = Less | Equal | Greater

  function Reverse(o: Ordering): (r: Ordering)
  {
    match o case Less => Greater case Equal => Equal case Greater => Less
  }

  function CompareInts(a: int, b: int): (o: Ordering)
  {
    if a < b then Less else if a == b then Equal else Greater
  }

  function CompareReals(a: real, b: real): (o: Ordering)
  {
    if a < b then Less else if a == b then Equal else Greater
  }

  /** Lexicographic by code point, as `str::cmp`. */
  function CompareStrings(a: string, b: string): (o: Ordering)
  {
    if a == [] then (if b == [] then Equal else Less)
    else if b == [] then Greater
    else if a[0] != b[0] then (if a[0] < b[0] then Less else Greater)
    else CompareStrings(a[1..], b[1..])
  }

  // ---- numbers ---------------------------------------------------------------

  /** The number as a double. */
  function AsF64(n: Number): (x: real)
  {
    match n case Int(z) => Float64.Round(z) as real case Float(x) => x
  }

  predicate IsI64(n: Number) { n.Int? && n.z < TWO_63 }

  predicate IsU64(n: Number) { n.Int? && n.z >= 0 }

  /** `compare_numbers`. */
  function CompareNumbers(x: Number, y: Number): (o: Ordering)
  {
    if IsI64(x) && IsI64(y) then CompareInts(x.z, y.z)
    else if IsU64(x) && IsU64(y) then CompareInts(x.z, y.z)
    else CompareReals(AsF64(x), AsF64(y))
  }

  /** Integers compare exactly even where the doubles decide: then they differ in sign. */
  lemma IntegersCompareExactly(x: Number, y: Number)
    requires x.Int? && y.Int?
    ensures CompareNumbers(x, y) == CompareInts(x.z, y.z)
  {
    if !(IsI64(x) && IsI64(y)) && !(IsU64(x) && IsU64(y)) {
      Float64.RoundExact(0);
      Float64.RoundExact(1);
      Float64.RoundExact(-1);
      if x.z < 0 {
        Float64.RoundMonotone(x.z, -1);
        Float64.RoundMonotone(1, y.z);
      } else {
        Float64.RoundMonotone(y.z, -1);
        Float64.RoundMonotone(1, x.z);
      }
    }
  }

  predicate AtMost(x: Number, y: Number) { CompareNumbers(x, y) != Greater }

  /** Two different integers that the double between them cannot tell apart. */
  predicate Straddles(a: Number, f: Number, b: Number) {
    a.Int? && b.Int? && f.Float? && a.z != b.z && AsF64(a) == f.x == AsF64(b)
  }

  /** None of the three numbers straddles the other two. */
  predicate TameTriple(x: Number, y: Number, z: Number) {
    !Straddles(x, y, z) && !Straddles(y, x, z) && !Straddles(x, z, y)
  }

  lemma DoublesFollow(x: Number, y: Number)
    requires AtMost(x, y)
    ensures AsF64(x) <= AsF64(y)
  {
    if x.Int? && y.Int? {
      IntegersCompareExactly(x, y);
      Float64.RoundMonotone(x.z, y.z);
    }
  }

  lemma NumbersCompose(x: Number, y: Number, z: Number)
    requires AtMost(x, y) && AtMost(y, z) && !Straddles(x, y, z)
    ensures AtMost(x, z)
  {
    DoublesFollow(x, y);
    DoublesFollow(y, z);
    if x.Int? && z.Int? {
      IntegersCompareExactly(x, z);
      if y.Int? {
        IntegersCompareExactly(x, y);
        IntegersCompareExactly(y, z);
      } else if x.z > z.z {
        Float64.RoundMonotone(z.z, x.z);
      }
    }
  }

  /** The comparison of a set of numbers is transitive. */
  ghost predicate Transitive(s: set<Number>) {
    forall x, y, z :: x in s && y in s && z in s && AtMost(x, y) && AtMost(y, z) ==> AtMost(x, z)
  }

  /** No double of the set lies on two of its integers at once. */
  ghost predicate Tame(s: set<Number>) {
    forall a, f, b :: a in s && f in s && b in s ==> !Straddles(a, f, b)
  }

  /**
    The number comparison orders a set of numbers if and only if no double in the
    set equals the rounding of two different integers in it.
   */
  lemma TransitiveIffTame(s: set<Number>)
    ensures Transitive(s) <==> Tame(s)
  {
    if Tame(s) {
      forall x, y, z | x in s && y in s && z in s && AtMost(x, y) && AtMost(y, z) ensures AtMost(x, z) {
        NumbersCompose(x, y, z);
      }
    }
    if a, f, b :| a in s && f in s && b in s && Straddles(a, f, b) {
      IntegersCompareExactly(a, b);
      IntegersCompareExactly(b, a);
      assert AtMost(a, f) && AtMost(f, b) && AtMost(b, f) && AtMost(f, a);
    }
  }

  /** All integers, or all integers of magnitude up to 2^53, are safe beside any doubles. */
  lemma SmallIntegersAreTame(s: set<Number>)
    requires forall n :: n in s && n.Int? ==> -Float64.TWO_53 <= n.z <= Float64.TWO_53
    ensures Tame(s)
  {
    forall a, f, b | a in s && f in s && b in s ensures !Straddles(a, f, b) {
      if a.Int? { Float64.RoundExact(a.z); }
      if b.Int? { Float64.RoundExact(b.z); }
    }
  }

  /** Beyond 2^53 the comparison is not an order: 2^53 + 1 equals the double 2^53, which equals 2^53. */
  lemma LargeIntegersAreNot()
    ensures var a, f, b := Int(Float64.TWO_53 + 1), Float(Float64.TWO_53 as real), Int(Float64.TWO_53);
      AtMost(a, f) && AtMost(f, b) && !AtMost(a, b)
  {
    Float64.RoundExact(Float64.TWO_53);
    RoundsDown();
  }

  lemma RoundsDown()
    ensures Float64.Round(Float64.TWO_53 + 1) == Float64.TWO_53
  {
    assert Float64.Excess((Float64.TWO_53 + 1) / 2) == 0;
    assert Float64.Pow2(1) == 2;
  }

  // ---- values ----------------------------------------------------------------

  function TypeRank(v: Value): (r: nat)
  {
    match v
    case Null => 0
    case Bool(b) => if b then 2 else 1
    case Num(_) => 3
    case Str(_) => 4
    case Arr(_) => 5
    case Obj(_) => 6
  }

  /** `compare`; `ser` is the serialization that orders arrays and objects. */
  function Compare(ser: Value -> string, a: Value, b: Value): (o: Ordering)
  {
    if TypeRank(a) != TypeRank(b) then CompareInts(TypeRank(a), TypeRank(b))
    else
      match a
      case Num(x) => CompareNumbers(x, b.n)
      case Str(x) => CompareStrings(x, b.s)
      case Arr(_) => CompareStrings(ser(a), ser(b))
      case Obj(_) => CompareStrings(ser(a), ser(b))
      case _ => Equal
  }

  /** A missing field is smallest. */
  function CompareOptional(ser: Value -> string, a: Option<Value>, b: Option<Value>): (o: Ordering)
  {
    match (a, b)
    case (None, None) => Equal
    case (None, Some(_)) => Less
    case (Some(_), None) => Greater
    case (Some(x), Some(y)) => Compare(ser, x, y)
  }

  lemma {:induction false} StringsReverse(a: string, b: string)
    ensures CompareStrings(b, a) == Reverse(CompareStrings(a, b))
    ensures CompareStrings(a, b) == Equal <==> a == b
  {
    if a != [] && b != [] {
      StringsReverse(a[1..], b[1..]);
      assert a == [a[0]] + a[1..] && b == [b[0]] + b[1..];
    }
  }

  lemma {:induction false} StringsCompose(a: string, b: string, c: string)
    requires CompareStrings(a, b) != Greater && CompareStrings(b, c) != Greater
    ensures CompareStrings(a, c) != Greater
  {
    if a != [] && b != [] && c != [] && a[0] == b[0] == c[0] {
      StringsCompose(a[1..], b[1..], c[1..]);
    }
  }

  lemma NumbersReverse(x: Number, y: Number)
    ensures CompareNumbers(y, x) == Reverse(CompareNumbers(x, y))
  {
  }

  lemma OptionalReverse(ser: Value -> string, a: Option<Value>, b: Option<Value>)
    ensures CompareOptional(ser, b, a) == Reverse(CompareOptional(ser, a, b))
  {
    if a.Some? && b.Some? {
      var x, y := a.value, b.value;
      StringsReverse(ser(x), ser(y));
      if x.Num? && y.Num? { NumbersReverse(x.n, y.n); }
      if x.Str? && y.Str? { StringsReverse(x.s, y.s); }
    }
  }

  predicate IsNum(a: Option<Value>) { a.Some? && a.value.Num? }

  predicate TameValues(a: Option<Value>, b: Option<Value>, c: Option<Value>) {
    IsNum(a) && IsNum(b) && IsNum(c) ==> TameTriple(a.value.n, b.value.n, c.value.n)
  }

  lemma OptionalCompose(ser: Value -> string, a: Option<Value>, b: Option<Value>, c: Option<Value>)
    requires TameValues(a, b, c)
    requires CompareOptional(ser, a, b) != Greater && CompareOptional(ser, b, c) != Greater
    ensures CompareOptional(ser, a, c) != Greater
  {
    if a.Some? && b.Some? && c.Some? && TypeRank(a.value) == TypeRank(b.value) == TypeRank(c.value) {
      var x, y, z := a.value, b.value, c.value;
      match x
      case Num(n) => NumbersCompose(n, y.n, z.n);
      case Str(s) => StringsCompose(s, y.s, z.s);
      case Arr(_) => StringsCompose(ser(x), ser(y), ser(z));
      case Obj(_) => StringsCompose(ser(x), ser(y), ser(z));
      case _ =>
    }
  }

  /** Missing, null, false, true, numbers, strings, arrays, objects, in that order, whatever they hold. */
  lemma TypesAscend(ser: Value -> string, n: Number, s: string, items: seq<Value>, fields: map<string, Value>)
    ensures var ladder := [None, Some(Null), Some(Bool(false)), Some(Bool(true)), Some(Num(n)), Some(Str(s)),
        Some(Arr(items)), Some(Obj(fields))];
      forall i, j :: 0 <= i < j < |ladder| ==> CompareOptional(ser, ladder[i], ladder[j]) == Less
  {
  }

  /** The first code point where two strings differ decides, and a proper prefix comes first. */
  lemma {:induction false} StringsCompareByCodePoint(a: string, b: string)
    ensures CompareStrings(a, b) == Less <==> exists i :: FirstDifference(a, b, i)
  {
    if a != [] && b != [] && a[0] == b[0] {
      StringsCompareByCodePoint(a[1..], b[1..]);
      if i :| FirstDifference(a[1..], b[1..], i) { assert FirstDifference(a, b, i + 1); }
      if i :| FirstDifference(a, b, i) { assert FirstDifference(a[1..], b[1..], i - 1); }
    } else if (a == [] && b != []) || (a != [] && b != [] && a[0] < b[0]) {
      assert FirstDifference(a, b, 0);
    }
  }

  predicate FirstDifference(a: string, b: string, i: int) {
    && 0 <= i <= |a| && i < |b| && a[..i] == b[..i]
    && (i < |a| ==> a[i] < b[i])
  }

  /** The real number a JSON number denotes. */
  function Real(n: Number): real { match n case Int(z) => z as real case Float(x) => x }

  /** Where integers are doubles, numbers of either kind compare by value. */
  lemma NumbersCompareByValue(x: Number, y: Number)
    requires forall n :: n in {x, y} && n.Int? ==> -Float64.TWO_53 <= n.z <= Float64.TWO_53
    ensures CompareNumbers(x, y) == CompareReals(Real(x), Real(y))
  {
    assert x in {x, y} && y in {x, y};
    if x.Int? { Float64.RoundExact(x.z); }
    if y.Int? { Float64.RoundExact(y.z); }
    if x.Int? && y.Int? { IntegersCompareExactly(x, y); }
  }

  // ---- records ---------------------------------------------------------------

  datatype Dir = Asc | Desc

  datatype SortKey = SortKey(path: Path, dir: Dir)

  function CompareBy(ser: Value -> string, k: SortKey, a: Value, b: Value): (o: Ordering)
  {
    var o := CompareOptional(ser, Lookup(a, k.path), Lookup(b, k.path));
    if k.dir == Asc then o else Reverse(o)
  }

  function CompareRecords(ser: Value -> string, sort: seq<SortKey>, a: Value, b: Value): (o: Ordering)
  {
    if sort == [] then Equal
    else if CompareBy(ser, sort[0], a, b) != Equal then CompareBy(ser, sort[0], a, b)
    else CompareRecords(ser, sort[1..], a, b)
  }

  /** `compare_records`: the first sort key that tells two records apart decides. */
  method CompareRecordsLoop(ser: Value -> string, sort: seq<SortKey>, a: Value, b: Value) returns (o: Ordering)
    ensures o == CompareRecords(ser, sort, a, b)
  {
    var i := 0;
    while i < |sort|
      invariant 0 <= i <= |sort|
      invariant CompareRecords(ser, sort, a, b) == CompareRecords(ser, sort[i..], a, b)
    {
      var x := LookupPath(a, sort[i].path);
      var y := LookupPath(b, sort[i].path);
      o := CompareOptional(ser, x, y);
      o := if sort[i].dir == Asc then o else Reverse(o);
      if o != Equal {
        return;
      }
      i := i + 1;
    }
    o := Equal;
  }

  predicate TameRecords(sort: seq<SortKey>, a: Value, b: Value, c: Value) {
    forall i :: 0 <= i < |sort| ==>
      TameValues(Lookup(a, sort[i].path), Lookup(b, sort[i].path), Lookup(c, sort[i].path))
  }

  lemma ByReverse(ser: Value -> string, k: SortKey, a: Value, b: Value)
    ensures CompareBy(ser, k, b, a) == Reverse(CompareBy(ser, k, a, b))
  {
    OptionalReverse(ser, Lookup(a, k.path), Lookup(b, k.path));
  }

  lemma {:induction false} RecordsReverse(ser: Value -> string, sort: seq<SortKey>, a: Value, b: Value)
    ensures CompareRecords(ser, sort, b, a) == Reverse(CompareRecords(ser, sort, a, b))
  {
    if sort != [] {
      ByReverse(ser, sort[0], a, b);
      RecordsReverse(ser, sort[1..], a, b);
    }
  }

  lemma ByCompose(ser: Value -> string, k: SortKey, a: Value, b: Value, c: Value)
    requires TameValues(Lookup(a, k.path), Lookup(b, k.path), Lookup(c, k.path))
    requires CompareBy(ser, k, a, b) != Greater && CompareBy(ser, k, b, c) != Greater
    ensures CompareBy(ser, k, a, c) != Greater
  {
    var x, y, z := Lookup(a, k.path), Lookup(b, k.path), Lookup(c, k.path);
    hide CompareOptional, Lookup;
    if k.dir == Asc {
      OptionalCompose(ser, x, y, z);
    } else {
      OptionalReverse(ser, x, y);
      OptionalReverse(ser, y, z);
      OptionalReverse(ser, x, z);
      OptionalCompose(ser, z, y, x);
    }
  }

  /** Equal both ways or strictly less: the composition keeps a strict step strict. */
  lemma ByStrict(ser: Value -> string, k: SortKey, a: Value, b: Value, c: Value)
    requires TameValues(Lookup(a, k.path), Lookup(b, k.path), Lookup(c, k.path))
    requires CompareBy(ser, k, a, b) != Greater && CompareBy(ser, k, b, c) != Greater
    ensures CompareBy(ser, k, a, c) == Equal ==> CompareBy(ser, k, a, b) == Equal && CompareBy(ser, k, b, c) == Equal
  {
    hide CompareBy, Lookup;
    ByReverse(ser, k, a, b);
    ByReverse(ser, k, b, c);
    ByReverse(ser, k, a, c);
    if CompareBy(ser, k, a, c) == Equal {
      ByCompose(ser, k, b, c, a);
      ByCompose(ser, k, c, a, b);
    }
  }

  lemma {:induction false} RecordsCompose(ser: Value -> string, sort: seq<SortKey>, a: Value, b: Value, c: Value)
    requires TameRecords(sort, a, b, c)
    requires CompareRecords(ser, sort, a, b) != Greater && CompareRecords(ser, sort, b, c) != Greater
    ensures CompareRecords(ser, sort, a, c) != Greater
    ensures CompareRecords(ser, sort, a, c) == Equal ==>
      CompareRecords(ser, sort, a, b) == Equal && CompareRecords(ser, sort, b, c) == Equal
  {
    if sort != [] {
      TameStep(sort, a, b, c);
      hide CompareBy, Lookup, TameValues, TameRecords;
      ByCompose(ser, sort[0], a, b, c);
      ByStrict(ser, sort[0], a, b, c);
      if CompareBy(ser, sort[0], a, c) == Equal {
        RecordsCompose(ser, sort[1..], a, b, c);
      }
    }
  }

  lemma TameStep(sort: seq<SortKey>, a: Value, b: Value, c: Value)
    requires sort != [] && TameRecords(sort, a, b, c)
    ensures TameValues(Lookup(a, sort[0].path), Lookup(b, sort[0].path), Lookup(c, sort[0].path))
    ensures TameRecords(sort[1..], a, b, c)
  {
    hide Lookup, TameValues;
  }
}
