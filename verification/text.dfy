/** ASCII text: decimal numerals as printed by JavaScript and Rust, and `parseInt`. */
module Text {
  import opened Bytes

  datatype Option<+T> = None | Some(value: T)

  // ---- octets and characters -------------------------------------------------

  function Ascii(s: string): (b: Bytes)
    requires forall i :: 0 <= i < |s| ==> s[i] as int < 128
    ensures |b| == |s|
  {
    seq(|s|, i requires 0 <= i < |s| => s[i] as int)
  }

  function FromAscii(b: Bytes): (s: string)
    ensures |s| == |b|
  {
    seq(|b|, i requires 0 <= i < |b| => b[i] as char)
  }

  lemma AsciiRoundTrip(s: string)
    requires forall i :: 0 <= i < |s| ==> s[i] as int < 128
    ensures FromAscii(Ascii(s)) == s
  {
    forall i | 0 <= i < |s| ensures FromAscii(Ascii(s))[i] == s[i] {
      assert FromAscii(Ascii(s))[i] == (s[i] as int) as char;
    }
  }

  // ---- decimal numerals ------------------------------------------------------

  predicate IsDigit(c: char) {
    '0' <= c <= '9'
  }

  predicate AllDigits(s: string) {
    forall i :: 0 <= i < |s| ==> IsDigit(s[i])
  }

  function Print(n: nat): (s: string)
    ensures |s| > 0 && AllDigits(s)
  {
    var last := [('0' as int + n % 10) as char];
    if n < 10 then last else Print(n / 10) + last
  }

  function Value(s: string): (n: nat)
    requires AllDigits(s)
  {
    if s == [] then 0 else 10 * Value(s[..|s| - 1]) + (s[|s| - 1] as int - '0' as int)
  }

  lemma {:induction false} ValueOfPrint(n: nat)
    ensures Value(Print(n)) == n
  {
    var s := Print(n);
    if n >= 10 {
      assert s[..|s| - 1] == Print(n / 10);
      ValueOfPrint(n / 10);
    } else {
      assert s[..|s| - 1] == [];
    }
  }

  /** A decimal integer with an optional minus sign, as `{}` prints an `i64`. */
  function PrintInt(n: int): (s: string)
  {
    if n < 0 then "-" + Print(-n) else Print(n)
  }

  lemma PrintIntInjective(a: int, b: int)
    requires PrintInt(a) == PrintInt(b)
    ensures a == b
  {
    assert a >= 0 ==> IsDigit(PrintInt(a)[0]);
    assert b >= 0 ==> IsDigit(PrintInt(b)[0]);
    if a < 0 && b < 0 {
      assert PrintInt(a)[1..] == Print(-a) && PrintInt(b)[1..] == Print(-b);
      ValueOfPrint(-a);
      ValueOfPrint(-b);
    } else if a >= 0 && b >= 0 {
      ValueOfPrint(a);
      ValueOfPrint(b);
    }
  }

  // ---- parseInt(s, 10) -------------------------------------------------------

  predicate IsSpace(c: char) {
    c == ' ' || ('\t' <= c <= '\r')
  }

  function SkipSpace(s: string): (r: string)
  {
    if s != [] && IsSpace(s[0]) then SkipSpace(s[1..]) else s
  }

  /** The longest prefix of decimal digits. */
  function DigitPrefix(s: string): (d: string)
    ensures AllDigits(d) && d <= s
  {
    if s != [] && IsDigit(s[0]) then [s[0]] + DigitPrefix(s[1..]) else []
  }

  /** JavaScript's `parseInt(s, 10)`; `None` is NaN. */
  function ParseInt(s: string): (r: Option<int>)
  {
    var t := SkipSpace(s);
    var neg := t != [] && t[0] == '-';
    var u := if t != [] && (t[0] == '-' || t[0] == '+') then t[1..] else t;
    var d := DigitPrefix(u);
    if d == [] then None else Some(if neg then -(Value(d) as int) else Value(d) as int)
  }

  lemma {:induction false} DigitPrefixOfDigits(s: string)
    requires AllDigits(s)
    ensures DigitPrefix(s) == s
  {
    if s != [] { DigitPrefixOfDigits(s[1..]); }
  }

  lemma ParseIntOfPrint(n: int)
    ensures ParseInt(PrintInt(n)) == Some(n)
  {
    var m := if n < 0 then -n else n;
    assert IsDigit(Print(m)[0]);
    assert n < 0 ==> PrintInt(n)[1..] == Print(m);
    DigitPrefixOfDigits(Print(m));
    ValueOfPrint(m);
  }

  // ---- split_once ------------------------------------------------------------

  function IndexOf(s: string, c: char): (i: nat)
    ensures i <= |s| && c !in s[..i] && (i < |s| ==> s[i] == c)
  {
    if s == [] || s[0] == c then 0 else 1 + IndexOf(s[1..], c)
  }

  /** What precedes and follows the first separator. */
  function SplitOnce(s: string, c: char): (r: Option<(string, string)>)
  {
    var i := IndexOf(s, c);
    if i == |s| then None else Some((s[..i], s[i + 1..]))
  }

  lemma {:induction false} IndexIs(x: string, c: char, y: string)
    requires c !in x
    ensures IndexOf(x + [c] + y, c) == |x| && IndexOf(x, c) == |x|
  {
    if x == [] {
      assert (x + [c] + y)[0] == c;
    } else {
      assert (x + [c] + y)[1..] == x[1..] + [c] + y;
      IndexIs(x[1..], c, y);
    }
  }

  lemma SplitsOnce(x: string, c: char, y: string)
    requires c !in x
    ensures SplitOnce(x + [c] + y, c) == Some((x, y)) && SplitOnce(x, c) == None
  {
    IndexIs(x, c, y);
    var s := x + [c] + y;
    assert s[..|x|] == x && s[|x| + 1..] == y;
  }
}
