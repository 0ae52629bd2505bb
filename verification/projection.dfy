/**
  Projection of a record to a list of dotted paths: the in-place construction,
  and what it denotes as a function of the set of paths alone.
 */
module Projection {
  import opened Json

  // ---- the construction ------------------------------------------------------

  /** `insert_path`: the longer path loses where a non-object already stands. */
  function InsertPath(obj: map<string, Value>, p: Path, v: Value): (r: map<string, Value>)
    decreases |p|
  {
    if p == [] then obj
    else if |p| == 1 then obj[p[0] := v]
    else
      var entry := if p[0] in obj then obj[p[0]] else Obj(map[]);
      if !entry.Obj? then obj else obj[p[0] := Obj(InsertPath(entry.fields, p[1..], v))]
  }

  /** The scalar-clash branch of `insert_path` is taken somewhere along the path. */
  predicate Clashes(obj: map<string, Value>, p: Path)
    decreases |p|
  {
    |p| > 1 && p[0] in obj && (!obj[p[0]].Obj? || Clashes(obj[p[0]].fields, p[1..]))
  }

  // ---- what it denotes -------------------------------------------------------

  function Heads(q: set<Path>): (s: set<string>)
  {
    set p | p in q && p != [] :: p[0]
  }

  function Tails(q: set<Path>, k: string): (s: set<Path>)
  {
    set p | p in q && p != [] && p[0] == k :: p[1..]
  }

  /** Every path of the set is found in the value. */
  predicate Found(v: Value, q: set<Path>) {
    forall p :: p in q ==> Lookup(v, p).Some?
  }

  lemma TailsFound(v: Value, q: set<Path>, k: string)
    requires Found(v, q) && k in Heads(q)
    ensures v.Obj? && k in v.fields && Found(v.fields[k], Tails(q, k))
  {
    var p :| p in q && p != [] && p[0] == k;
    assert Lookup(v, p).Some?;
    forall t | t in Tails(q, k) ensures Lookup(v.fields[k], t).Some? {
      var p' :| p' in q && p' != [] && p'[0] == k && p'[1..] == t;
      assert Lookup(v, p').Some?;
    }
  }

  /** The part of a value that a set of paths found in it selects: a whole subtree where a path ends. */
  function Selection(v: Value, q: set<Path>): (r: Value)
    requires Found(v, q)
    decreases v
  {
    if [] in q then v
    else Obj(map k | k in Heads(q) :: TailsFound(v, q, k); Selection(v.fields[k], Tails(q, k)))
  }

  // ---- one more path ---------------------------------------------------------

  lemma AddPath(q: set<Path>, p: Path, j: string)
    requires p != []
    ensures Heads(q + {p}) == Heads(q) + {p[0]}
    ensures Tails(q + {p}, j) == if j == p[0] then Tails(q, j) + {p[1..]} else Tails(q, j)
    ensures j !in Heads(q) ==> Tails(q, j) == {}
  {
    var q' := q + {p};
    assert p in q';
    forall h | h in Heads(q) ensures h in Heads(q') {
      var o :| o in q && o != [] && o[0] == h;
      assert o in q';
    }
    forall t | t in Tails(q, j) ensures t in Tails(q', j) {
      var o :| o in q && o != [] && o[0] == j && o[1..] == t;
      assert o in q';
    }
  }

  /** Inserting what is already there changes nothing and meets no scalar. */
  lemma {:induction false} InsertSame(v: Value, p: Path)
    requires v.Obj? && p != [] && Lookup(v, p).Some?
    ensures InsertPath(v.fields, p, Lookup(v, p).value) == v.fields && !Clashes(v.fields, p)
    decreases |p|
  {
    if |p| > 1 {
      InsertSame(v.fields[p[0]], p[1..]);
    }
  }

  lemma SelectionFields(v: Value, q: set<Path>, k: string)
    requires Found(v, q) && [] !in q && k in Heads(q)
    ensures v.Obj? && k in v.fields && Found(v.fields[k], Tails(q, k))
    ensures Selection(v, q).fields[k] == Selection(v.fields[k], Tails(q, k))
  {
    TailsFound(v, q, k);
  }

  /** The entry a path goes through, present or about to be created. */
  lemma EntryOf(v: Value, q: set<Path>, p: Path)
    requires Found(v, q) && [] !in q && |p| > 1 && Lookup(v, p).Some?
    ensures Found(v.fields[p[0]], Tails(q, p[0]))
    ensures var obj := Selection(v, q).fields;
      (if p[0] in obj then obj[p[0]] else Obj(map[])) == Selection(v.fields[p[0]], Tails(q, p[0]))
  {
    AddPath(q, p, p[0]);
    if p[0] in Heads(q) {
      SelectionFields(v, q, p[0]);
    } else {
      assert Tails(q, p[0]) == {};
      assert Heads({}) == {};
    }
  }

  lemma KeepsFound(v: Value, q: set<Path>, p: Path)
    requires Found(v, q) && Lookup(v, p).Some?
    ensures Found(v, q + {p})
  {
  }

  /** The insertion changes one entry, to what the grown set of paths selects there. */
  lemma {:induction false} EntryInserted(v: Value, q: set<Path>, p: Path)
    requires Found(v, q) && [] !in q && p != [] && Lookup(v, p).Some?
    ensures v.Obj? && p[0] in v.fields && Found(v.fields[p[0]], Tails(q + {p}, p[0]))
    ensures !Clashes(Selection(v, q).fields, p)
    ensures InsertPath(Selection(v, q).fields, p, Lookup(v, p).value)
         == Selection(v, q).fields[p[0] := Selection(v.fields[p[0]], Tails(q + {p}, p[0]))]
    decreases |p|, 0
  {
    AddPath(q, p, p[0]);
    KeepsFound(v, q, p);
    TailsFound(v, q + {p}, p[0]);
    if |p| == 1 {
      assert [] in Tails(q + {p}, p[0]);
    } else {
      EntryOf(v, q, p);
      EntryGrows(v.fields[p[0]], Tails(q, p[0]), p[1..]);
      hide Selection;
    }
  }

  lemma SelectionKeys(v: Value, q: set<Path>)
    requires Found(v, q) && [] !in q
    ensures Selection(v, q).Obj? && Selection(v, q).fields.Keys == Heads(q)
  {
  }

  lemma {:induction false} OtherField(v: Value, q: set<Path>, p: Path, j: string)
    requires Found(v, q) && [] !in q && p != [] && Lookup(v, p).Some? && j in Heads(q + {p})
    ensures v.Obj? && j in v.fields && Found(v, q + {p}) && Found(v.fields[j], Tails(q + {p}, j))
    ensures Selection(v, q + {p}).fields[j] == Selection(v.fields[j], Tails(q + {p}, j))
    ensures j != p[0] ==> j in Selection(v, q).fields && Selection(v, q + {p}).fields[j] == Selection(v, q).fields[j]
  {
    hide Lookup, Heads, Tails;
    KeepsFound(v, q, p);
    AddPath(q, p, j);
    SelectionFields(v, q + {p}, j);
    if j != p[0] { SelectionFields(v, q, j); }
  }

  lemma {:induction false} SelectionGrows(v: Value, q: set<Path>, p: Path)
    requires Found(v, q) && [] !in q && p != [] && Lookup(v, p).Some?
    ensures Found(v, q + {p}) && !Clashes(Selection(v, q).fields, p)
    ensures Selection(v, q + {p}) == Obj(InsertPath(Selection(v, q).fields, p, Lookup(v, p).value))
    decreases |p|, 1
  {
    var q', k, obj := q + {p}, p[0], Selection(v, q).fields;
    EntryInserted(v, q, p);
    KeepsFound(v, q, p);
    SelectionKeys(v, q);
    SelectionKeys(v, q');
    hide *;
    AddPath(q, p, k);
    var obj', grown := obj[k := Selection(v.fields[k], Tails(q', k))], Selection(v, q').fields;
    forall j | j in grown.Keys ensures j in obj' && obj'[j] == grown[j] {
      OtherField(v, q, p, j);
    }
    assert obj'.Keys == grown.Keys;
    assert obj' == grown;
  }

  lemma {:induction false} EntryGrows(v: Value, q: set<Path>, p: Path)
    requires Found(v, q) && p != [] && Lookup(v, p).Some?
    ensures Found(v, q + {p}) && Selection(v, q).Obj? && !Clashes(Selection(v, q).fields, p)
    ensures Selection(v, q + {p}) == Obj(InsertPath(Selection(v, q).fields, p, Lookup(v, p).value))
    decreases |p|, 2
  {
    if [] in q {
      InsertSame(v, p);
    } else {
      SelectionGrows(v, q, p);
    }
  }

  // ---- project ---------------------------------------------------------------

  predicate Paths(fields: seq<Path>) {
    forall i :: 0 <= i < |fields| ==> fields[i] != []
  }

  function FoundOf(v: Value, fields: seq<Path>): (q: set<Path>)
    ensures Found(v, q) && forall p :: p in q <==> p in fields && Lookup(v, p).Some?
  {
    set p | p in fields && Lookup(v, p).Some?
  }

  /** The projection, as a function of the set of fields found. */
  function Projected(v: Value, fields: seq<Path>): (r: Value)
  {
    Selection(v, FoundOf(v, fields))
  }

  lemma FoundStep(v: Value, fields: seq<Path>, i: nat)
    requires i < |fields|
    ensures FoundOf(v, fields[..i + 1])
         == FoundOf(v, fields[..i]) + if Lookup(v, fields[i]).Some? then {fields[i]} else {}
  {
    assert fields[..i + 1] == fields[..i] + [fields[i]];
  }

  /** `project`: the order of insertion, and the clash it guards against, leave no trace. */
  method Project(record: Value, fields: seq<Path>) returns (out: Value)
    requires Paths(fields)
    ensures out == Projected(record, fields)
  {
    hide *;
    ProjectNothing(record, fields);
    var obj: map<string, Value> := map[];
    var i := 0;
    while i < |fields|
      invariant 0 <= i <= |fields|
      invariant Obj(obj) == Projected(record, fields[..i])
    {
      var found := LookupPath(record, fields[i]);
      ProjectStep(record, fields, i);
      if found.Some? {
        assert !Clashes(obj, fields[i]);
        obj := InsertPath(obj, fields[i], found.value);
      }
      i := i + 1;
    }
    assert fields[..i] == fields;
    out := Obj(obj);
  }

  lemma ProjectNothing(v: Value, fields: seq<Path>)
    ensures Projected(v, fields[..0]) == Obj(map[])
  {
    assert FoundOf(v, fields[..0]) == {};
    assert Heads({}) == {};
  }

  lemma ProjectStep(v: Value, fields: seq<Path>, i: nat)
    requires Paths(fields) && i < |fields|
    ensures var found, so := Lookup(v, fields[i]), Projected(v, fields[..i]);
      && (found.None? ==> Projected(v, fields[..i + 1]) == so)
      && (found.Some? ==> so.Obj? && !Clashes(so.fields, fields[i]))
      && (found.Some? ==> Projected(v, fields[..i + 1]) == Obj(InsertPath(so.fields, fields[i], found.value)))
  {
    FoundStep(v, fields, i);
    var q := FoundOf(v, fields[..i]);
    assert [] !in q;
    if Lookup(v, fields[i]).Some? {
      SelectionGrows(v, q, fields[i]);
      SelectionKeys(v, q);
    } else {
      assert FoundOf(v, fields[..i + 1]) == q;
    }
    hide Selection, FoundOf, InsertPath, Clashes;
  }

  // ---- laws ------------------------------------------------------------------

  lemma {:induction false} SelectionLookup(v: Value, q: set<Path>, p: Path)
    requires Found(v, q) && p in q
    ensures Lookup(Selection(v, q), p) == Lookup(v, p)
    decreases |p|
  {
    if [] !in q {
      assert p[0] in Heads(q) && p[1..] in Tails(q, p[0]);
      SelectionFields(v, q, p[0]);
      SelectionLookup(v.fields[p[0]], Tails(q, p[0]), p[1..]);
    }
  }

  lemma OnAPath(q: set<Path>, p: Path)
    requires p != [] && exists s :: s in Tails(q, p[0]) && (s <= p[1..] || p[1..] <= s)
    ensures exists s :: s in q && (s <= p || p <= s)
  {
    var s' :| s' in Tails(q, p[0]) && (s' <= p[1..] || p[1..] <= s');
    var s :| s in q && s != [] && s[0] == p[0] && s[1..] == s';
    assert p == [p[0]] + p[1..] && s == [p[0]] + s';
  }

  /** A path found in the selection lies on a selected path, and was found in the value. */
  lemma {:induction false} SelectionOnly(v: Value, q: set<Path>, p: Path)
    requires Found(v, q) && p != [] && Lookup(Selection(v, q), p).Some?
    ensures Lookup(v, p).Some? && exists s :: s in q && (s <= p || p <= s)
    decreases |p|
  {
    if [] in q {
      assert [] <= p;
    } else {
      var k, t := p[0], p[1..];
      SelectionKeys(v, q);
      SelectionFields(v, q, k);
      hide Selection;
      if t == [] {
        var s :| s in q && s != [] && s[0] == k;
        assert p <= s;
      } else {
        SelectionOnly(v.fields[k], Tails(q, k), t);
        OnAPath(q, p);
      }
    }
  }

  /** Every selected path looks up the same in the projection as in the record. */
  lemma SelectedPathsAgree(v: Value, fields: seq<Path>, p: Path)
    requires Paths(fields) && p in fields
    ensures Lookup(Projected(v, fields), p) == Lookup(v, p)
  {
    var q := FoundOf(v, fields);
    if p in q {
      SelectionLookup(v, q, p);
    } else if Lookup(Projected(v, fields), p).Some? {
      SelectionOnly(v, q, p);
    }
  }

  /** Nothing is projected beyond the selected paths. */
  lemma OnlySelectedPaths(v: Value, fields: seq<Path>, p: Path)
    requires Paths(fields) && p != [] && Lookup(Projected(v, fields), p).Some?
    ensures exists s :: s in fields && (s <= p || p <= s)
  {
    SelectionOnly(v, FoundOf(v, fields), p);
  }

  lemma {:induction false} SelectionIdempotent(v: Value, q: set<Path>)
    requires Found(v, q)
    ensures Found(Selection(v, q), q) && Selection(Selection(v, q), q) == Selection(v, q)
    decreases v
  {
    forall p | p in q ensures Lookup(Selection(v, q), p).Some? {
      SelectionLookup(v, q, p);
    }
    if [] !in q {
      var s := Selection(v, q);
      forall k | k in Heads(q) ensures Selection(s, q).fields[k] == s.fields[k] {
        SelectionFields(v, q, k);
        SelectionFields(s, q, k);
        SelectionIdempotent(v.fields[k], Tails(q, k));
      }
      SelectionKeys(v, q);
      SelectionKeys(s, q);
      hide *;
      assert Selection(s, q).fields == s.fields;
    }
  }

  /** Projecting twice is projecting once. */
  lemma ProjectionIdempotent(v: Value, fields: seq<Path>)
    requires Paths(fields)
    ensures Projected(Projected(v, fields), fields) == Projected(v, fields)
  {
    forall p | p in fields ensures Lookup(Projected(v, fields), p) == Lookup(v, p) {
      SelectedPathsAgree(v, fields, p);
    }
    assert FoundOf(Projected(v, fields), fields) == FoundOf(v, fields);
    SelectionIdempotent(v, FoundOf(v, fields));
  }

  /** Neither the order of the fields nor their repetition matters. */
  lemma FieldsAreASet(v: Value, fields: seq<Path>, others: seq<Path>)
    requires forall p :: p in fields <==> p in others
    ensures Projected(v, fields) == Projected(v, others)
  {
    assert FoundOf(v, fields) == FoundOf(v, others);
  }
}
