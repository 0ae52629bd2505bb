/** JSON values as the listing contract sees them, and paths into them. */
module Json {
  import opened Bytes
  import opened Text

  /** The integers a JSON number can hold exactly: those of i64 and of u64. */
  type Integer = z: int | -TWO_63 <= z < TWO_64

  /** An integer, or a finite double (as the real number it is). */
  datatype Number = Int(z: Integer) | Float(x: real)

  datatype Value =
    | Null
    | Bool(b: bool)
    | Num(n: Number)
    | Str(s: string)
    | Arr(items: seq<Value>)
    | Obj(fields: map<string, Value>)

  type Path = seq<string>

  /** `FieldPath::lookup`: nothing where a segment is missing or a non-object intervenes. */
  function Lookup(v: Value, p: Path): (r: Option<Value>)
    decreases |p|
  {
    if p == [] then Some(v)
    else if !v.Obj? || p[0] !in v.fields then None
    else Lookup(v.fields[p[0]], p[1..])
  }

  /** The walk itself. */
  method LookupPath(v: Value, p: Path) returns (r: Option<Value>)
    ensures r == Lookup(v, p)
  {
    var cur := v;
    var i := 0;
    while i < |p|
      invariant 0 <= i <= |p|
      invariant Lookup(v, p) == Lookup(cur, p[i..])
    {
      if !cur.Obj? || p[i] !in cur.fields {
        return None;
      }
      cur := cur.fields[p[i]];
      i := i + 1;
    }
    r := Some(cur);
  }
}
