/** The octets of the wire format, spelled out (BSON specification, version 1.1). */
module BsonOctets {
  import opened Bytes
  import opened Bson
  import opened BsonRoundTrip
  import Arithmetic
  import Float64
  import Text

  // ---- integers --------------------------------------------------------------

  /** Octet `k` of an unsigned number, counted from the least significant. */
  function Octet(u: nat, k: nat): (x: Byte)
  {
    u / Pow256(k) % 256
  }

  lemma {:induction false} OctetsAre(n: nat, k: nat, i: nat)
    requires i < k
    ensures LittleEndian(n, k)[i] == Octet(n, i)
    decreases k
  {
    if i > 0 {
      OctetsAre(n / 256, k - 1, i - 1);
      DivTwice(n, Pow256(i - 1));
    }
  }

  lemma DivTwice(n: nat, p: nat)
    requires p > 0
    ensures n / 256 / p == n / (256 * p)
  {
    var q := n / 256;
    assert n == 256 * q + n % 256;
    assert q == q / p * p + q % p;
    var low := 256 * (q % p) + n % 256;
    assert q % p <= p - 1 && 256 * (q % p) <= 256 * (p - 1) && low < 256 * p;
    assert n == q / p * (256 * p) + low by {
      assert 256 * (q / p * p) == q / p * (256 * p);
    }
    Arithmetic.ModUnique(n, 256 * p, q / p, low);
  }

  /** Least significant octet first, two's complement. */
  lemma I32Octets(v: int)
    ensures var u := v % 0x1_0000_0000;
      PushI32(v) == [u % 256, u / 0x100 % 256, u / 0x1_0000 % 256, u / 0x100_0000 % 256]
  {
    var u := v % TWO_32;
    assert Pow256(0) == 1 && Pow256(1) == 0x100 && Pow256(2) == 0x1_0000 && Pow256(3) == 0x100_0000;
    OctetsAre(u, 4, 0);
    OctetsAre(u, 4, 1);
    OctetsAre(u, 4, 2);
    OctetsAre(u, 4, 3);
    hide LittleEndian, Pow256;
    var r := PushI32(v);
    assert r == [r[0], r[1], r[2], r[3]];
  }

  lemma I64Octets(v: int, k: nat)
    requires k < 8
    ensures PushI64(v)[k] == Octet(v % 0x1_0000_0000_0000_0000, k)
  {
    OctetsAre(v % TWO_64, 8, k);
  }

  // ---- elements --------------------------------------------------------------

  /** One element: its type octet, its name, a NUL, and the value. */
  lemma ElementOctets(name: Bytes, n: int, bits: Bytes, s: Bytes, items: seq<Value>, obj: Object)
    ensures EncodeField(Field(name, Null)) == [0x0a] + name + [0]
    ensures EncodeField(Field(name, Undefined)) == [0x0a] + name + [0]
    ensures EncodeField(Field(name, Bool(false))) == [0x08] + name + [0] + [0]
    ensures EncodeField(Field(name, Bool(true))) == [0x08] + name + [0] + [1]
    ensures -0x8000_0000 <= n <= 0x7FFF_FFFF ==> EncodeField(Field(name, Int(n))) == [0x10] + name + [0] + PushI32(n)
    ensures !(-0x8000_0000 <= n <= 0x7FFF_FFFF) ==> EncodeField(Field(name, Int(n))) == [0x12] + name + [0] + PushI64(n)
    ensures EncodeField(Field(name, Double(bits))) == [0x01] + name + [0] + bits
    ensures EncodeField(Field(name, Str(s))) == [0x02] + name + [0] + (PushI32(|s| + 1) + s + [0])
    ensures EncodeField(Field(name, Doc(obj))) == [0x03] + name + [0] + EncodeDoc(obj.fields)
    ensures EncodeField(Field(name, Arr(items))) == [0x04] + name + [0] + EncodeDoc(IndexFields(items, 0))
  {
    hide PushI32, PushI64, IndexFields, EncodeDoc;
    assert [0x0a] + name + [0] + [] == [0x0a] + name + [0];
  }

  /** A document with one element: the length of it all, the element, a NUL. */
  lemma OneElement(f: Field, n: nat)
    requires n == |EncodeField(f)|
    ensures EncodeDoc([f]) == PushI32(n + 5) + EncodeField(f) + [0]
  {
    assert [f][1..] == [] && EncodeFields([]) == [];
    assert EncodeFields([f]) == EncodeField(f) + [] == EncodeField(f);
    hide PushI32, EncodeField, EncodeFields;
  }

  const HELLO: Bytes := [0x68, 0x65, 0x6c, 0x6c, 0x6f]
  const WORLD: Bytes := [0x77, 0x6f, 0x72, 0x6c, 0x64]

  lemma HelloElement()
    ensures EncodeField(Field(HELLO, Str(WORLD))) == [0x02] + HELLO + [0, 6, 0, 0, 0] + WORLD + [0]
  {
    assert |HELLO| == 5 && |WORLD| == 5;
    hide *;
    ElementOctets(HELLO, 0, [], WORLD, [], EMPTY);
    I32Octets(6);
    assert PushI32(6) == [6, 0, 0, 0];
    assert [0x02] + HELLO + [0] + (PushI32(6) + WORLD + [0]) == [0x02] + HELLO + ([0] + PushI32(6)) + WORLD + [0];
    assert [0] + PushI32(6) == [0, 6, 0, 0, 0];
  }

  /** `{"hello": "world"}` is the example of the specification. */
  lemma HelloWorld()
    ensures EncodeDoc([Field(HELLO, Str(WORLD))]) ==
      [0x16, 0, 0, 0] + ([0x02] + HELLO + [0, 6, 0, 0, 0] + WORLD + [0]) + [0]
  {
    assert |HELLO| == 5 && |WORLD| == 5;
    hide *;
    HelloElement();
    I32Octets(22);
    OneElement(Field(HELLO, Str(WORLD)), 17);
  }

  /** An array travels as an object with the names 0, 1, 2 and so on. */
  lemma ArrayNames(items: seq<Value>, i: nat)
    requires i < |items|
    ensures IndexFields(items, 0)[i] == Field(IndexName(i), items[i])
    ensures i < 10 ==> IndexName(i) == [48 + i]
    ensures Text.AllDigits(Text.FromAscii(IndexName(i))) && Text.Value(Text.FromAscii(IndexName(i))) == i
  {
    IndexFieldsAre(items, 0);
    Text.AsciiRoundTrip(Text.Print(i));
    Text.ValueOfPrint(i);
  }

  // ---- what only the decoder knows -------------------------------------------

  function HexValue(c: Byte): (n: nat)
  {
    if 48 <= c <= 57 then c - 48 else if 97 <= c <= 102 then c - 87 else 0
  }

  predicate IsLowerHex(c: Byte) { 48 <= c <= 57 || 97 <= c <= 102 }

  function Unhex(text: Bytes): (id: seq<int>)
  {
    if |text| < 2 then [] else [16 * HexValue(text[0]) + HexValue(text[1])] + Unhex(text[2..])
  }

  /** Two lowercase hexadecimal digits for each octet, which read back to it. */
  lemma {:induction false} HexReadsBack(id: Bytes)
    ensures |Hex(id)| == 2 * |id| && Unhex(Hex(id)) == id
    ensures forall i :: 0 <= i < |Hex(id)| ==> IsLowerHex(Hex(id)[i])
  {
    if id != [] {
      HexReadsBack(id[1..]);
      var hi, lo := HexDigit(id[0] / 16), HexDigit(id[0] % 16);
      assert Hex(id)[2..] == Hex(id[1..]) && Hex(id)[0] == hi && Hex(id)[1] == lo;
      assert HexValue(hi) == id[0] / 16 && HexValue(lo) == id[0] % 16;
      assert id == [id[0]] + id[1..];
    }
  }

  /** An ObjectId becomes 24 lowercase hexadecimal digits that stand for its twelve octets. */
  lemma ObjectIdReads(b: Bytes, p: nat)
    requires 0 < p && p + 12 <= |b|
    ensures var r := DecodeValue(b, 0x07, p);
      && r.Got? && r.off == p + 12 && r.value.Str? && |r.value.s| == 24 && Unhex(r.value.s) == b[p..p + 12]
      && forall i :: 0 <= i < 24 ==> IsLowerHex(r.value.s[i])
  {
    HexReadsBack(b[p..p + 12]);
    hide Hex, Unhex;
  }

  /** A date is read whole up to 100 million days from 1970, and throws beyond. */
  lemma DateReads(b: Bytes, p: nat, ms: int)
    requires 0 < p && At(b, p, PushI64(ms)) && -0x20_0000_0000_0000 <= ms <= 0x20_0000_0000_0000
    ensures DecodeValue(b, 0x09, p) ==
      if -100_000_000 * 86_400_000 <= ms <= 100_000_000 * 86_400_000 then Got(DateIso(ms), p + 8) else Stuck(Throws)
  {
    GetPushedI64(b, p, ms);
    Float64.RoundExact(ms);
    hide PushI64, GetI64, Float64.Round;
  }

  /** Any octet but zero is true, and so is one past the end of the buffer; an unknown type throws. */
  lemma OddValuesRead(b: Bytes, p: nat, tag: Byte)
    requires p > 0
    ensures DecodeValue(b, 0x08, p) == Got(Bool(p < |b| ==> b[p] != 0), p + 1)
    ensures tag !in {0x01, 0x02, 0x03, 0x04, 0x07, 0x08, 0x09, 0x0a, 0x10, 0x12} ==>
      DecodeValue(b, tag, p) == Stuck(Throws)
  {
  }
}
