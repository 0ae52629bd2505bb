/** Sorting a dataset and serving it in pages. */
module ListingPages {
  import opened Json
  import opened ListingOrder
  import opened Projection

  datatype Row = Row(key: string, record: Value)

  type Ser = Value -> string

  // ---- the order of rows -----------------------------------------------------

  /** Records by the sort keys, then rows by their own key. */
  function CompareRows(ser: Ser, sort: seq<SortKey>, x: Row, y: Row): (o: Ordering)
  {
    var o := CompareRecords(ser, sort, x.record, y.record);
    if o != Equal then o else CompareStrings(x.key, y.key)
  }

  /** No double sorted on lies on two integers sorted on with it. */
  ghost predicate TameRows(sort: seq<SortKey>, rows: set<Row>) {
    forall x, y, z :: x in rows && y in rows && z in rows ==> TameRecords(sort, x.record, y.record, z.record)
  }

  /** Keys are distinct. */
  ghost predicate Keyed(rows: set<Row>) {
    forall x, y :: x in rows && y in rows && x.key == y.key ==> x == y
  }

  lemma RowsReverse(ser: Ser, sort: seq<SortKey>, x: Row, y: Row)
    ensures CompareRows(ser, sort, y, x) == Reverse(CompareRows(ser, sort, x, y))
    ensures CompareRows(ser, sort, x, y) == Equal ==> x.key == y.key
  {
    RecordsReverse(ser, sort, x.record, y.record);
    StringsReverse(x.key, y.key);
  }

  lemma RowsCompose(ser: Ser, sort: seq<SortKey>, x: Row, y: Row, z: Row)
    requires TameRecords(sort, x.record, y.record, z.record)
    requires CompareRows(ser, sort, x, y) == Less && CompareRows(ser, sort, y, z) == Less
    ensures CompareRows(ser, sort, x, z) == Less
  {
    RecordsCompose(ser, sort, x.record, y.record, z.record);
    if CompareRecords(ser, sort, x.record, z.record) == Equal {
      StringsCompose(x.key, y.key, z.key);
      StringsReverse(x.key, z.key);
      StringsReverse(y.key, z.key);
    }
  }

  /** On a dataset with distinct keys and a tame number domain, the row order is a strict total order. */
  lemma RowsAreTotallyOrdered(ser: Ser, sort: seq<SortKey>, rows: set<Row>, x: Row, y: Row, z: Row)
    requires TameRows(sort, rows) && Keyed(rows) && x in rows && y in rows && z in rows
    ensures CompareRows(ser, sort, x, x) == Equal
    ensures CompareRows(ser, sort, x, y) == Equal <==> x == y
    ensures CompareRows(ser, sort, x, y) == Less <==> CompareRows(ser, sort, y, x) == Greater
    ensures CompareRows(ser, sort, x, y) == Less && CompareRows(ser, sort, y, z) == Less ==>
      CompareRows(ser, sort, x, z) == Less
  {
    hide CompareRows;
    RowsReverse(ser, sort, x, y);
    RowsReverse(ser, sort, x, x);
    assert CompareRows(ser, sort, x, x) == Equal;
    if CompareRows(ser, sort, x, y) == Less && CompareRows(ser, sort, y, z) == Less {
      RowsCompose(ser, sort, x, y, z);
    }
  }

  predicate Passes(ser: Ser, sort: seq<SortKey>, x: Row, y: Row, z: Row) {
    CompareRows(ser, sort, x, y) == Less && CompareRows(ser, sort, y, z) == Less ==> CompareRows(ser, sort, x, z) == Less
  }

  /** Among these rows, what comes before something comes before all that follows it. */
  ghost predicate Composes(ser: Ser, sort: seq<SortKey>, rows: set<Row>) {
    forall x, y, z :: x in rows && y in rows && z in rows ==> Passes(ser, sort, x, y, z)
  }

  lemma TameComposes(ser: Ser, sort: seq<SortKey>, rows: set<Row>)
    requires TameRows(sort, rows)
    ensures Composes(ser, sort, rows)
  {
    hide CompareRows, TameRecords;
    forall x, y, z | x in rows && y in rows && z in rows ensures Passes(ser, sort, x, y, z) {
      if CompareRows(ser, sort, x, y) == Less && CompareRows(ser, sort, y, z) == Less {
        RowsCompose(ser, sort, x, y, z);
      }
    }
  }

  // ---- sorting ---------------------------------------------------------------

  ghost predicate Sorted(ser: Ser, sort: seq<SortKey>, s: seq<Row>) {
    forall i, j :: 0 <= i < j < |s| ==> CompareRows(ser, sort, s[i], s[j]) == Less
  }

  function InsertRow(ser: Ser, sort: seq<SortKey>, x: Row, s: seq<Row>): (r: seq<Row>)
  {
    if s == [] || CompareRows(ser, sort, x, s[0]) == Less then [x] + s else [s[0]] + InsertRow(ser, sort, x, s[1..])
  }

  function SortRows(ser: Ser, sort: seq<SortKey>, s: seq<Row>): (r: seq<Row>)
  {
    if s == [] then [] else InsertRow(ser, sort, s[|s| - 1], SortRows(ser, sort, s[..|s| - 1]))
  }

  function Elements(s: seq<Row>): (r: set<Row>) { set x | x in s }

  ghost predicate Distinct(s: seq<Row>) {
    forall i, j :: 0 <= i < j < |s| ==> s[i].key != s[j].key
  }

  lemma {:induction false} InsertKeeps(ser: Ser, sort: seq<SortKey>, x: Row, s: seq<Row>, u: set<Row>)
    requires Composes(ser, sort, u) && Keyed(u) && x in u && Elements(s) <= u && x !in s && Sorted(ser, sort, s)
    ensures Sorted(ser, sort, InsertRow(ser, sort, x, s))
    ensures Elements(InsertRow(ser, sort, x, s)) == Elements(s) + {x}
    ensures |InsertRow(ser, sort, x, s)| == |s| + 1
  {
    hide CompareRows;
    if s == [] { return; }
    assert forall r :: r in s ==> r in Elements(s);
    if CompareRows(ser, sort, x, s[0]) == Less {
      forall j | 0 <= j < |s| ensures CompareRows(ser, sort, x, s[j]) == Less {
        assert Passes(ser, sort, x, s[0], s[j]);
      }
    } else {
      RowsReverse(ser, sort, x, s[0]);
      var rest := s[1..];
      assert Elements(rest) <= Elements(s);
      InsertKeeps(ser, sort, x, rest, u);
      var r := InsertRow(ser, sort, x, rest);
      forall j | 0 <= j < |r| ensures CompareRows(ser, sort, s[0], r[j]) == Less {
        assert r[j] in Elements(r);
      }
      assert s == [s[0]] + rest;
    }
  }

  lemma ElementsOfLast(s: seq<Row>)
    requires s != []
    ensures Elements(s) == Elements(s[..|s| - 1]) + {s[|s| - 1]}
  {
    assert s == s[..|s| - 1] + [s[|s| - 1]];
  }

  lemma {:induction false} SortKeeps(ser: Ser, sort: seq<SortKey>, s: seq<Row>, u: set<Row>)
    requires Composes(ser, sort, u) && Keyed(u) && Elements(s) <= u && Distinct(s)
    ensures Sorted(ser, sort, SortRows(ser, sort, s))
    ensures Elements(SortRows(ser, sort, s)) == Elements(s)
    ensures |SortRows(ser, sort, s)| == |s|
  {
    if s != [] {
      hide CompareRows, InsertRow, Sorted, Composes;
      var front, x := s[..|s| - 1], s[|s| - 1];
      ElementsOfLast(s);
      SortKeeps(ser, sort, front, u);
      assert x in u by { assert x in Elements(s); }
      var done := SortRows(ser, sort, front);
      assert x !in done by {
        assert x in done ==> x in Elements(done);
        assert x in Elements(front) ==> x in front;
      }
      InsertKeeps(ser, sort, x, done, u);
    }
  }

  /** A strictly sorted arrangement of the rows is the only one. */
  lemma {:induction false} SortedIsUnique(ser: Ser, sort: seq<SortKey>, s: seq<Row>, t: seq<Row>)
    requires Sorted(ser, sort, s) && Sorted(ser, sort, t) && Elements(s) == Elements(t)
    ensures s == t
  {
    hide CompareRows;
    assert s != [] ==> s[0] in Elements(s);
    assert t != [] ==> t[0] in Elements(t);
    if s == [] { return; }
    assert s[0] in t && t[0] in s;
    var i :| 0 <= i < |s| && s[i] == t[0];
    var j :| 0 <= j < |t| && t[j] == s[0];
    RowsReverse(ser, sort, s[0], t[0]);
    assert s[0] == t[0];
    TailElements(ser, sort, s);
    TailElements(ser, sort, t);
    SortedIsUnique(ser, sort, s[1..], t[1..]);
    assert s == [s[0]] + s[1..] && t == [t[0]] + t[1..];
  }

  lemma TailElements(ser: Ser, sort: seq<SortKey>, s: seq<Row>)
    requires s != [] && Sorted(ser, sort, s)
    ensures Elements(s[1..]) == Elements(s) - {s[0]} && Sorted(ser, sort, s[1..])
  {
    RowsReverse(ser, sort, s[0], s[0]);
    hide CompareRows;
    assert s == [s[0]] + s[1..];
    assert s[0] !in s[1..];
  }

  /** Datasets a listing is promised an order for. */
  ghost predicate Sortable(ser: Ser, sort: seq<SortKey>, rows: seq<Row>) {
    Distinct(rows) && Composes(ser, sort, Elements(rows))
  }

  lemma DistinctIsKeyed(rows: seq<Row>)
    requires Distinct(rows)
    ensures Keyed(Elements(rows))
  {
  }

  /** Whatever order the records arrive in and whatever sort is used, the sorted listing is the same. */
  lemma AnySortAgrees(ser: Ser, sort: seq<SortKey>, rows: seq<Row>, other: seq<Row>, t: seq<Row>)
    requires Sortable(ser, sort, rows) && Distinct(other) && Elements(other) == Elements(rows)
    ensures Sorted(ser, sort, SortRows(ser, sort, rows)) && SortRows(ser, sort, other) == SortRows(ser, sort, rows)
    ensures Sorted(ser, sort, t) && Elements(t) == Elements(rows) ==> t == SortRows(ser, sort, rows)
  {
    hide Sorted, SortRows, Composes, Keyed;
    DistinctIsKeyed(rows);
    SortKeeps(ser, sort, rows, Elements(rows));
    SortKeeps(ser, sort, other, Elements(rows));
    SortedIsUnique(ser, sort, SortRows(ser, sort, rows), SortRows(ser, sort, other));
    if Sorted(ser, sort, t) && Elements(t) == Elements(rows) {
      SortedIsUnique(ser, sort, t, SortRows(ser, sort, rows));
    }
  }

  // ---- pages -----------------------------------------------------------------

  function ProjectRows(s: seq<Row>, fields: seq<Path>): (r: seq<Row>)
    ensures |r| == |s| && forall i :: 0 <= i < |s| ==> r[i] == Row(s[i].key, Projected(s[i].record, fields))
  {
    if s == [] then []
    else ProjectRows(s[..|s| - 1], fields) + [Row(s[|s| - 1].key, Projected(s[|s| - 1].record, fields))]
  }

  function Upto(n: nat, s: seq<Row>): nat { if n < |s| then n else |s| }

  /** `skip` then `take`. */
  function Slice(s: seq<Row>, skip: nat, take: nat): (r: seq<Row>)
  {
    s[Upto(skip, s)..Upto(skip + take, s)]
  }

  function PageOf(ser: Ser, sort: seq<SortKey>, fields: seq<Path>, rows: seq<Row>, skip: nat, take: nat): (r: seq<Row>)
  {
    ProjectRows(Slice(SortRows(ser, sort, rows), skip, take), fields)
  }

  /** `sort_page_project`. */
  method SortPageProject(ser: Ser, rows: seq<Row>, sort: seq<SortKey>, fields: seq<Path>, take: nat, skip: nat)
    returns (page: seq<Row>, total: nat)
    requires Paths(fields)
    ensures page == PageOf(ser, sort, fields, rows, skip, take)
    ensures total == |rows|
  {
    hide *;
    total := |rows|;
    var sorted := [];
    SortNothing(ser, sort, rows);
    var i := 0;
    while i < |rows|
      invariant 0 <= i <= |rows|
      invariant sorted == SortRows(ser, sort, rows[..i])
    {
      SortStep(ser, sort, rows, i);
      sorted := InsertRow(ser, sort, rows[i], sorted);
      i := i + 1;
    }
    assert rows[..i] == rows;
    var slice := Slice(sorted, skip, take);
    page := [];
    i := 0;
    while i < |slice|
      invariant 0 <= i <= |slice|
      invariant |page| == i && forall j :: 0 <= j < i ==> page[j] == Row(slice[j].key, Projected(slice[j].record, fields))
    {
      var record := Project(slice[i].record, fields);
      page := page + [Row(slice[i].key, record)];
      i := i + 1;
    }
    PageIs(ser, sort, fields, rows, skip, take);
    assert page == ProjectRows(slice, fields);
  }

  lemma PageIs(ser: Ser, sort: seq<SortKey>, fields: seq<Path>, rows: seq<Row>, skip: nat, take: nat)
    ensures PageOf(ser, sort, fields, rows, skip, take)
         == ProjectRows(Slice(SortRows(ser, sort, rows), skip, take), fields)
  {
  }

  lemma SortNothing(ser: Ser, sort: seq<SortKey>, rows: seq<Row>)
    ensures SortRows(ser, sort, rows[..0]) == []
  {
  }

  lemma SortStep(ser: Ser, sort: seq<SortKey>, rows: seq<Row>, i: nat)
    requires i < |rows|
    ensures SortRows(ser, sort, rows[..i + 1]) == InsertRow(ser, sort, rows[i], SortRows(ser, sort, rows[..i]))
  {
    assert rows[..i + 1][..i] == rows[..i];
  }

  /** The pages at successive skips, each served from its own reading of the dataset. */
  function Pages(ser: Ser, sort: seq<SortKey>, fields: seq<Path>, readings: seq<seq<Row>>, take: nat): (r: seq<Row>)
  {
    if readings == [] then []
    else
      var n := |readings| - 1;
      Pages(ser, sort, fields, readings[..n], take) + PageOf(ser, sort, fields, readings[n], n * take, take)
  }

  /** Each page reads the same records, in whatever order the store yields them. */
  ghost predicate SameRows(rows: seq<Row>, readings: seq<seq<Row>>) {
    forall k :: 0 <= k < |readings| ==> Distinct(readings[k]) && Elements(readings[k]) == Elements(rows)
  }

  lemma ProjectJoins(s: seq<Row>, a: nat, b: nat, fields: seq<Path>)
    requires a <= b <= |s|
    ensures ProjectRows(s[..a], fields) + ProjectRows(s[a..b], fields) == ProjectRows(s[..b], fields)
  {
    hide Projected;
    assert s[..b] == s[..a] + s[a..b];
  }

  lemma NextSkip(n: nat, take: nat)
    ensures (n + 1) * take == n * take + take
  {
  }

  /** The pages join up to the sorted projection. */
  lemma {:induction false} PagesJoin(ser: Ser, sort: seq<SortKey>, fields: seq<Path>, rows: seq<Row>,
    readings: seq<seq<Row>>, take: nat)
    requires Sortable(ser, sort, rows) && SameRows(rows, readings)
    ensures var sorted := SortRows(ser, sort, rows);
      Pages(ser, sort, fields, readings, take) == ProjectRows(sorted[..Upto(|readings| * take, sorted)], fields)
  {
    hide Sortable, SortRows, ProjectRows, Distinct, Elements;
    var sorted := SortRows(ser, sort, rows);
    if readings == [] {
      assert |ProjectRows(sorted[..0], fields)| == 0;
    } else {
      var n := |readings| - 1;
      PagesJoin(ser, sort, fields, rows, readings[..n], take);
      SortableSame(ser, sort, rows, readings[n]);
      NextSkip(n, take);
      ProjectJoins(sorted, Upto(n * take, sorted), Upto(n * take + take, sorted), fields);
    }
  }

  lemma SortableSame(ser: Ser, sort: seq<SortKey>, rows: seq<Row>, other: seq<Row>)
    requires Sortable(ser, sort, rows) && Distinct(other) && Elements(other) == Elements(rows)
    ensures SortRows(ser, sort, other) == SortRows(ser, sort, rows)
  {
    AnySortAgrees(ser, sort, rows, other, []);
  }

  /** Enough pages give every record's projection exactly once. */
  lemma EachRecordOnce(ser: Ser, sort: seq<SortKey>, fields: seq<Path>, rows: seq<Row>,
    readings: seq<seq<Row>>, take: nat)
    requires Sortable(ser, sort, rows) && SameRows(rows, readings) && |readings| * take >= |rows|
    ensures var all := Pages(ser, sort, fields, readings, take);
      && |all| == |rows| && Distinct(all)
      && forall x :: x in rows ==> Row(x.key, Projected(x.record, fields)) in all
  {
    PagesJoin(ser, sort, fields, rows, readings, take);
    DistinctIsKeyed(rows);
    SortKeeps(ser, sort, rows, Elements(rows));
    var sorted := SortRows(ser, sort, rows);
    hide *;
    assert Upto(|readings| * take, sorted) == |sorted| by { UptoAll(|readings| * take, sorted); }
    assert sorted[..|sorted|] == sorted;
    ProjectedOnce(ser, sort, fields, rows, sorted);
  }

  lemma UptoAll(n: nat, s: seq<Row>)
    requires n >= |s|
    ensures Upto(n, s) == |s|
  {
  }

  lemma ProjectedOnce(ser: Ser, sort: seq<SortKey>, fields: seq<Path>, rows: seq<Row>, sorted: seq<Row>)
    requires Distinct(rows) && Sorted(ser, sort, sorted) && Elements(sorted) == Elements(rows)
    ensures var all := ProjectRows(sorted, fields);
      Distinct(all) && forall x :: x in rows ==> Row(x.key, Projected(x.record, fields)) in all
  {
    hide Sorted, Projected, ProjectRows;
    var all := ProjectRows(sorted, fields);
    forall i, j | 0 <= i < j < |all| ensures all[i].key != all[j].key {
      SortedApart(ser, sort, rows, sorted, i, j);
    }
    hide Distinct;
    forall x | x in rows ensures Row(x.key, Projected(x.record, fields)) in all {
      assert x in Elements(rows);
      assert x in sorted;
      var i :| 0 <= i < |sorted| && sorted[i] == x;
      assert all[i] == Row(x.key, Projected(x.record, fields));
    }
  }

  lemma SortedApart(ser: Ser, sort: seq<SortKey>, rows: seq<Row>, sorted: seq<Row>, i: nat, j: nat)
    requires Distinct(rows) && Sorted(ser, sort, sorted) && Elements(sorted) == Elements(rows) && i < j < |sorted|
    ensures sorted[i].key != sorted[j].key
  {
    DistinctIsKeyed(rows);
    RowsReverse(ser, sort, sorted[i], sorted[i]);
    hide CompareRows, Distinct;
    assert CompareRows(ser, sort, sorted[i], sorted[j]) == Less;
    assert sorted[i] in Elements(sorted) && sorted[j] in Elements(sorted);
  }
}
