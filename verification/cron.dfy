/**
  The fields of a cron expression: the parser of one field, and what its text
  denotes.
 */
module Cron {
  import Arithmetic
  import opened Text

  // ---- text ------------------------------------------------------------------

  function Split(s: string, c: char): (parts: seq<string>)
    ensures |parts| >= 1
    decreases |s|
  {
    var i := IndexOf(s, c);
    if i == |s| then [s] else [s[..i]] + Split(s[i + 1..], c)
  }

  function Join(parts: seq<string>, c: char): (s: string)
  {
    if parts == [] then [] else if |parts| == 1 then parts[0] else parts[0] + [c] + Join(parts[1..], c)
  }

  lemma JoinMore(part: string, rest: seq<string>, c: char)
    requires rest != []
    ensures Join([part] + rest, c) == part + [c] + Join(rest, c)
  {
    assert ([part] + rest)[1..] == rest;
  }

  /** The parts are the pieces between separators, and no piece holds one. */
  lemma {:induction false} SplitJoins(s: string, c: char)
    ensures Join(Split(s, c), c) == s
    ensures forall i :: 0 <= i < |Split(s, c)| ==> c !in Split(s, c)[i]
    decreases |s|
  {
    var i := IndexOf(s, c);
    if i < |s| {
      var rest := Split(s[i + 1..], c);
      SplitJoins(s[i + 1..], c);
      assert Split(s, c) == [s[..i]] + rest;
      JoinMore(s[..i], rest, c);
      hide Split, Join;
      assert s == s[..i] + [c] + s[i + 1..];
    } else {
      assert s[..i] == s;
    }
  }

  /** The maximal runs of non-space characters. */
  function Words(s: string): (w: seq<string>)
    decreases |s|
  {
    if s == [] then []
    else if IsSpace(s[0]) then Words(s[1..])
    else
      var n := WordLength(s);
      [s[..n]] + Words(s[n..])
  }

  function WordLength(s: string): (n: nat)
    ensures n <= |s| && (s != [] && !IsSpace(s[0]) ==> n > 0)
  {
    if s == [] || IsSpace(s[0]) then 0 else 1 + WordLength(s[1..])
  }

  predicate IsWord(w: string) { w != [] && forall i :: 0 <= i < |w| ==> !IsSpace(w[i]) }

  lemma {:induction false} WordLengthIs(w: string, rest: string)
    requires (forall i :: 0 <= i < |w| ==> !IsSpace(w[i])) && (rest != [] ==> IsSpace(rest[0]))
    ensures WordLength(w + rest) == |w|
  {
    if w == [] {
      assert w + rest == rest;
    } else {
      assert (w + rest)[1..] == w[1..] + rest;
      WordLengthIs(w[1..], rest);
    }
  }

  /** Fields joined by spaces are read back as they were. */
  lemma {:induction false} WordsOfFields(f: seq<string>)
    requires forall i :: 0 <= i < |f| ==> IsWord(f[i])
    ensures Words(Join(f, ' ')) == f
  {
    if f == [] { return; }
    var w, rest := f[0], Join(f[1..], ' ');
    WordsOfFields(f[1..]);
    if |f| == 1 {
      WordLengthIs(w, []);
      assert w + [] == w && w[|w|..] == [] && w[..|w|] == w;
    } else {
      var s := w + ([' '] + rest);
      assert Join(f, ' ') == w + [' '] + rest == s;
      WordLengthIs(w, [' '] + rest);
      assert s[..|w|] == w && s[|w|..] == [' '] + rest;
      assert ([' '] + rest)[1..] == rest;
      assert s[0] == w[0];
    }
  }

  /** `s.parse::<u8>()`: an optional plus sign, then digits, at most 255. */
  function ParseU8(s: string): (r: Option<nat>)
    ensures r.Some? ==> r.value <= 255
  {
    var d := if s != [] && s[0] == '+' then s[1..] else s;
    if d == [] || !AllDigits(d) || Value(d) > 255 then None else Some(Value(d))
  }

  // ---- what a field denotes --------------------------------------------------

  /** The progression lo, lo + step, … up to hi. */
  datatype Range = Range(lo: nat, hi: nat, step: nat)

  predicate InRange(r: Range, v: int) {
    r.step > 0 && r.lo <= v <= r.hi && (v - r.lo) % r.step == 0
  }

  /** `a`, `a-b`, `*`, each with an optional `/step`. */
  function RangeOf(part: string, min: nat, max: nat): (r: Option<Range>)
    ensures r.Some? ==> min <= r.value.lo <= r.value.hi <= max && 0 < r.value.step <= 255
  {
    var slash := SplitOnce(part, '/');
    var base := if slash.Some? then slash.value.0 else part;
    var step := if slash.Some? then ParseU8(slash.value.1) else Some(1);
    var dash := SplitOnce(base, '-');
    var lo := if base == "*" then Some(min) else if dash.Some? then ParseU8(dash.value.0) else ParseU8(base);
    var hi := if base == "*" then Some(max) else if dash.Some? then ParseU8(dash.value.1) else ParseU8(base);
    if step.None? || step.value == 0 || lo.None? || hi.None? then None
    else if lo.value < min || hi.value > max || lo.value > hi.value then None
    else Some(Range(lo.value, hi.value, step.value))
  }

  // ---- how a part is read ----------------------------------------------------

  /** A printed number has no separator in it and is read back. */
  lemma NumberReads(n: nat)
    ensures ParseU8(Print(n)) == (if n <= 255 then Some(n) else None) && ParseU8("+" + Print(n)) == ParseU8(Print(n))
    ensures '-' !in Print(n) && '/' !in Print(n) && ',' !in Print(n) && Print(n) != "*"
  {
    ValueOfPrint(n);
    assert AllDigits(Print(n)) && IsDigit(Print(n)[0]);
    assert ("+" + Print(n))[1..] == Print(n);
  }

  /** The bounds a part must keep. */
  function Bounded(lo: nat, hi: nat, step: nat, min: nat, max: nat): (r: Option<Range>)
  {
    if step == 0 || lo < min || hi > max || lo > hi then None else Some(Range(lo, hi, step))
  }

  /** A base text is read apart from its step. */
  lemma StepReads(base: string, step: nat, min: nat, max: nat, lo: nat, hi: nat)
    requires '/' !in base && step <= 255 && BaseReads(base, min, max, lo, hi)
    ensures RangeOf(base, min, max) == Bounded(lo, hi, 1, min, max)
    ensures RangeOf(base + "/" + Print(step), min, max) == Bounded(lo, hi, step, min, max)
  {
    SplitsOnce(base, '/', Print(step));
    NumberReads(step);
  }

  predicate BaseReads(base: string, min: nat, max: nat, lo: nat, hi: nat) {
    var dash := SplitOnce(base, '-');
    if base == "*" then lo == min && hi == max
    else if dash.Some? then ParseU8(dash.value.0) == Some(lo) && ParseU8(dash.value.1) == Some(hi)
    else ParseU8(base) == Some(lo) && hi == lo
  }

  /** `a`, `a-b` and `*`, alone or with `/n`, are read as the progressions they are written for. */
  lemma PartReads(lo: nat, hi: nat, step: nat, min: nat, max: nat)
    requires lo <= 255 && hi <= 255 && step <= 255
    ensures RangeOf("*", min, max) == Bounded(min, max, 1, min, max)
    ensures RangeOf("*" + "/" + Print(step), min, max) == Bounded(min, max, step, min, max)
    ensures RangeOf(Print(lo), min, max) == Bounded(lo, lo, 1, min, max)
    ensures RangeOf(Print(lo) + "/" + Print(step), min, max) == Bounded(lo, lo, step, min, max)
    ensures RangeOf(Print(lo) + "-" + Print(hi), min, max) == Bounded(lo, hi, 1, min, max)
    ensures RangeOf(Print(lo) + "-" + Print(hi) + "/" + Print(step), min, max) == Bounded(lo, hi, step, min, max)
  {
    NumberReads(lo);
    NumberReads(hi);
    SplitsOnce(Print(lo), '-', Print(hi));
    var range := Print(lo) + "-" + Print(hi);
    assert range[|Print(lo)|] == '-' && range != "*" && '/' !in range;
    hide RangeOf, SplitOnce, ParseU8, Print;
    StepReads("*", step, min, max, min, max);
    StepReads(Print(lo), step, min, max, lo, lo);
    StepReads(range, step, min, max, lo, hi);
  }

  predicate WellFormed(spec: string, min: nat, max: nat) {
    var parts := Split(spec, ',');
    spec == "*" || forall i :: 0 <= i < |parts| ==> RangeOf(parts[i], min, max).Some?
  }

  /** The union of the progressions its comma-separated parts name. */
  predicate Denotes(spec: string, min: nat, max: nat, v: int) {
    var parts := Split(spec, ',');
    spec == "*" || exists i :: 0 <= i < |parts| && PartDenotes(parts[i], min, max, v)
  }

  predicate PartDenotes(part: string, min: nat, max: nat, v: int) {
    RangeOf(part, min, max).Some? && InRange(RangeOf(part, min, max).value, v)
  }

  lemma OneStep(n: nat, v: int)
    ensures InRange(Range(n, n, 1), v) <==> v == n
  {
  }

  lemma OnePart(s: string, min: nat, max: nat, v: int)
    requires ',' !in s && s != "*"
    ensures Denotes(s, min, max, v) <==> PartDenotes(s, min, max, v)
  {
    IndexIs(s, ',', []);
    assert Split(s, ',') == [s];
    hide Split, PartDenotes;
    assert PartDenotes(s, min, max, v) ==> PartDenotes(Split(s, ',')[0], min, max, v);
  }

  /** A field that is a number denotes that number. */
  lemma NumberDenotes(n: nat, min: nat, max: nat, v: int)
    requires min <= n <= max <= 255
    ensures Denotes(Print(n), min, max, v) <==> v == n
  {
    NumberReads(n);
    PartReads(n, n, 1, min, max);
    OnePart(Print(n), min, max, v);
    OneStep(n, v);
    hide RangeOf, Split, Print, Denotes, InRange;
  }

  /** A list of fields denotes what one of them denotes. */
  lemma ListDenotes(a: string, b: string, min: nat, max: nat, v: int)
    requires ',' !in a && a + "," + b != "*" && b != "*"
    ensures Denotes(a + "," + b, min, max, v) <==> PartDenotes(a, min, max, v) || Denotes(b, min, max, v)
  {
    var s, rest := a + "," + b, Split(b, ',');
    IndexIs(a, ',', b);
    assert s[..|a|] == a && s[|a| + 1..] == b;
    var parts := Split(s, ',');
    assert parts == [a] + rest;
    hide Split, PartDenotes;
    if i :| 0 <= i < |rest| && PartDenotes(rest[i], min, max, v) { assert parts[i + 1] == rest[i]; }
    if PartDenotes(a, min, max, v) { assert parts[0] == a; }
    if i :| 0 <= i < |parts| && PartDenotes(parts[i], min, max, v) { assert i > 0 ==> rest[i - 1] == parts[i]; }
  }

  // ---- the parser ------------------------------------------------------------

  datatype CronField = Any | Set(values: seq<nat>)

  predicate Ascending(s: seq<nat>) {
    forall i, j :: 0 <= i < j < |s| ==> s[i] < s[j]
  }

  function InsertOnce(x: nat, s: seq<nat>): (r: seq<nat>)
  {
    if s == [] || x < s[0] then [x] + s
    else if x == s[0] then s
    else [s[0]] + InsertOnce(x, s[1..])
  }

  /** `sort_unstable` then `dedup`. */
  function SortDedup(s: seq<nat>): (r: seq<nat>)
  {
    if s == [] then [] else InsertOnce(s[0], SortDedup(s[1..]))
  }

  lemma {:induction false} InsertOnceKeeps(x: nat, s: seq<nat>)
    requires Ascending(s)
    ensures Ascending(InsertOnce(x, s)) && forall v :: v in InsertOnce(x, s) <==> v == x || v in s
  {
    if s != [] && x > s[0] {
      InsertOnceKeeps(x, s[1..]);
      assert s == [s[0]] + s[1..];
    }
  }

  lemma {:induction false} SortDedupKeeps(s: seq<nat>)
    ensures Ascending(SortDedup(s)) && forall v :: v in SortDedup(s) <==> v in s
  {
    if s != [] {
      SortDedupKeeps(s[1..]);
      InsertOnceKeeps(s[0], SortDedup(s[1..]));
      assert s == [s[0]] + s[1..];
    }
  }

  /** The parsed field stands for exactly what its text denotes. */
  ghost predicate Parsed(f: CronField, spec: string, min: nat, max: nat) {
    match f
    case Any => spec == "*"
    case Set(values) =>
      spec != "*" && values != [] && Ascending(values) && forall v: nat :: v in values <==> Denotes(spec, min, max, v)
  }

  ghost predicate PartsDenote(parts: seq<string>, min: nat, max: nat, v: nat) {
    exists i :: 0 <= i < |parts| && PartDenotes(parts[i], min, max, v)
  }

  lemma PartsDenoteStep(parts: seq<string>, i: nat, min: nat, max: nat, v: nat)
    requires i < |parts|
    ensures PartsDenote(parts[..i + 1], min, max, v)
       <==> PartsDenote(parts[..i], min, max, v) || PartDenotes(parts[i], min, max, v)
  {
    hide PartDenotes;
    if PartsDenote(parts[..i], min, max, v) {
      var j :| 0 <= j < i && PartDenotes(parts[..i][j], min, max, v);
      assert parts[..i + 1][j] == parts[..i][j];
    }
    if PartDenotes(parts[i], min, max, v) {
      assert parts[..i + 1][i] == parts[i];
    }
    if PartsDenote(parts[..i + 1], min, max, v) {
      var j :| 0 <= j < i + 1 && PartDenotes(parts[..i + 1][j], min, max, v);
      assert j < i ==> parts[..i][j] == parts[..i + 1][j];
    }
  }

  lemma NothingDenoted(min: nat, max: nat)
    ensures forall v: nat :: !PartsDenote([], min, max, v)
  {
  }

  lemma PartsDenoteMore(parts: seq<string>, i: nat, min: nat, max: nat, s: seq<nat>, more: seq<nat>)
    requires i < |parts|
    requires forall v: nat :: v in s <==> PartsDenote(parts[..i], min, max, v)
    requires forall v: nat :: v in more <==> PartDenotes(parts[i], min, max, v)
    ensures forall v: nat :: v in s + more <==> PartsDenote(parts[..i + 1], min, max, v)
  {
    hide PartDenotes, PartsDenote;
    forall v: nat ensures v in s + more <==> PartsDenote(parts[..i + 1], min, max, v) {
      PartsDenoteStep(parts, i, min, max, v);
    }
  }

  /** `CronField::parse`. */
  method ParseField(spec: string, min: nat, max: nat) returns (f: Option<CronField>)
    requires max < 255
    ensures f.Some? <==> WellFormed(spec, min, max)
    ensures f.Some? ==> Parsed(f.value, spec, min, max)
  {
    hide PartDenotes, RangeOf, SortDedup, Split, Ascending;
    if spec == "*" {
      return Some(Any);
    }
    var values := ParseParts(Split(spec, ','), min, max);
    if values.None? {
      return None;
    }
    SortDedupKeeps(values.value);
    assert values.value[0] in SortDedup(values.value);
    f := Some(Set(SortDedup(values.value)));
    assert forall v: nat :: Denotes(spec, min, max, v) <==> PartsDenote(Split(spec, ','), min, max, v);
  }

  /** Its outer loop, over the parts. */
  method ParseParts(parts: seq<string>, min: nat, max: nat) returns (values: Option<seq<nat>>)
    requires max < 255 && |parts| > 0
    ensures values.Some? <==> forall i :: 0 <= i < |parts| ==> RangeOf(parts[i], min, max).Some?
    ensures values.Some? ==>
      values.value != [] && forall v: nat :: v in values.value <==> PartsDenote(parts, min, max, v)
  {
    hide PartDenotes, PartsDenote, RangeOf;
    NothingDenoted(min, max);
    var s: seq<nat> := [];
    var i := 0;
    assert parts[..0] == [];
    while i < |parts|
      invariant 0 <= i <= |parts| && (i > 0 ==> s != [])
      invariant forall j :: 0 <= j < i ==> RangeOf(parts[j], min, max).Some?
      invariant forall v: nat :: v in s <==> PartsDenote(parts[..i], min, max, v)
    {
      var more := ParsePart(parts[i], min, max);
      if more.None? {
        return None;
      }
      PartsDenoteMore(parts, i, min, max, s, more.value);
      s := s + more.value;
      i := i + 1;
    }
    assert parts[..i] == parts;
    values := Some(s);
  }

  /** One comma-separated part, expanded. */
  method ParsePart(part: string, min: nat, max: nat) returns (values: Option<seq<nat>>)
    requires max < 255
    ensures values.Some? <==> RangeOf(part, min, max).Some?
    ensures values.Some? ==>
      values.value != [] && forall v: nat :: v in values.value <==> PartDenotes(part, min, max, v)
  {
    var r := RangeOf(part, min, max);
    if r.None? {
      return None;
    }
    var s := Progression(r.value);
    values := Some(s);
  }

  /** The inner loop of the parser: `x` advances by `step`, saturating at 255. */
  method Progression(r: Range) returns (s: seq<nat>)
    requires r.lo <= r.hi < 255 && r.step > 0
    ensures s != [] && forall v: nat :: v in s <==> InRange(r, v)
  {
    s := [];
    var x := r.lo;
    ghost var k := 0;
    while x <= r.hi
      invariant x <= 255 && (x <= r.hi ==> x == r.lo + k * r.step)
      invariant x > r.hi ==> r.lo + k * r.step > r.hi
      invariant k > 0 ==> s != []
      invariant |s| == k && forall j :: 0 <= j < k ==> s[j] == r.lo + j * r.step <= r.hi
      decreases 255 - x
    {
      s := s + [x];
      x := if x + r.step > 255 then 255 else x + r.step;
      k := k + 1;
      NextMultiple(k, r.step);
    }
    forall v: nat ensures v in s <==> InRange(r, v) {
      ProgressionMembers(r, s, k, v);
    }
  }

  lemma NextMultiple(k: nat, step: nat)
    requires k > 0
    ensures k * step == (k - 1) * step + step
  {
  }

  lemma ProgressionMembers(r: Range, s: seq<nat>, k: nat, v: nat)
    requires r.step > 0 && |s| == k && r.lo + k * r.step > r.hi
    requires forall j :: 0 <= j < k ==> s[j] == r.lo + j * r.step <= r.hi
    ensures v in s <==> InRange(r, v)
  {
    if v in s {
      var j :| 0 <= j < k && s[j] == v;
      TermInRange(r, j, v);
    }
    if InRange(r, v) {
      var j := TermOf(r, k, v);
      assert s[j] == v;
    }
  }

  lemma TermInRange(r: Range, j: nat, v: nat)
    requires r.step > 0 && v == r.lo + j * r.step <= r.hi
    ensures InRange(r, v)
  {
    assert j * r.step >= 0;
    Arithmetic.ModUnique(v - r.lo, r.step, j, 0);
  }

  lemma TermOf(r: Range, k: nat, v: nat) returns (j: nat)
    requires InRange(r, v) && r.lo + k * r.step > r.hi
    ensures j < k && v == r.lo + j * r.step
  {
    j := (v - r.lo) / r.step;
    assert j >= k ==> j * r.step >= k * r.step;
  }
}
