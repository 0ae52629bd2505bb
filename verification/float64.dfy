/** IEEE 754 binary64 rounding of integers: 53 significant bits, ties to even. */
module Float64 {
  import Arithmetic
  import Bytes

  const TWO_52: int := 0x10_0000_0000_0000
  const TWO_53: int := 0x20_0000_0000_0000

  function Pow2(k: nat): (r: nat)
    ensures r > 0
  {
    if k == 0 then 1 else 2 * Pow2(k - 1)
  }

  /** How many low bits do not fit in the significand. */
  function Excess(z: nat): (e: nat)
  {
    if z < TWO_53 then 0 else 1 + Excess(z / 2)
  }

  function RoundsUp(q: int, r: int, unit: int): (up: bool)
  {
    2 * r > unit || (2 * r == unit && q % 2 == 1)
  }

  function RoundNat(z: nat): (r: int)
  {
    var unit := Pow2(Excess(z));
    var q, r := z / unit, z % unit;
    (if RoundsUp(q, r, unit) then q + 1 else q) * unit
  }

  /** The double nearest to the integer `z` (an integer again, for |z| < 2^1023). */
  function Round(z: int): (r: int)
  {
    if z >= 0 then RoundNat(z) else -RoundNat(-z)
  }

  lemma {:induction false} SignificandBounds(z: nat)
    ensures z / Pow2(Excess(z)) < TWO_53
    ensures Excess(z) > 0 ==> z / Pow2(Excess(z)) >= TWO_52
  {
    if z >= TWO_53 {
      SignificandBounds(z / 2);
      var p := Pow2(Excess(z / 2));
      DivDiv(z, p);
      if Excess(z / 2) == 0 {
        assert p == 1 && z / 2 >= TWO_52;
      }
    }
  }

  lemma DivDiv(z: nat, p: nat)
    requires p > 0
    ensures z / (2 * p) == (z / 2) / p
  {
    var q := (z / 2) / p;
    var r := (z / 2) % p;
    assert z / 2 == q * p + r;
    assert z == 2 * (z / 2) + z % 2;
    var low := 2 * r + z % 2;
    assert z == q * (2 * p) + low by { assert 2 * (q * p) == q * (2 * p); }
    assert 0 <= low < 2 * p;
    Arithmetic.ModUnique(z, 2 * p, q, low);
  }

  /** Every integer of magnitude up to 2^53 is a double. */
  lemma RoundExact(z: int)
    requires -TWO_53 <= z <= TWO_53
    ensures Round(z) == z
  {
    var a := if z >= 0 then z else -z;
    if a == TWO_53 {
      assert Excess(a / 2) == 0;
      assert Pow2(1) == 2;
    } else {
      assert Pow2(Excess(a)) == 1;
    }
  }

  lemma {:induction false} ExcessMonotone(x: nat, y: nat)
    requires x <= y
    ensures Excess(x) <= Excess(y)
    ensures Excess(x) < Excess(y) ==> 2 * Pow2(Excess(x)) <= Pow2(Excess(y))
  {
    if x < TWO_53 {
      if y >= TWO_53 { assert Pow2(Excess(y)) == 2 * Pow2(Excess(y) - 1); }
    } else {
      ExcessMonotone(x / 2, y / 2);
    }
  }

  lemma RoundNatBounds(z: nat)
    ensures
      var unit := Pow2(Excess(z));
      && (z / unit) * unit <= RoundNat(z) <= (z / unit + 1) * unit
      && RoundNat(z) <= TWO_53 * unit
      && (Excess(z) > 0 ==> TWO_52 * unit <= RoundNat(z))
  {
    SignificandBounds(z);
    var unit := Pow2(Excess(z));
    var q := z / unit;
    var m := if RoundsUp(q, z % unit, unit) then q + 1 else q;
    assert RoundNat(z) == m * unit;
    Scale(q, m, unit);
    Scale(m, q + 1, unit);
    Scale(m, TWO_53, unit);
    if Excess(z) > 0 { Scale(TWO_52, m, unit); }
  }

  lemma Scale(a: nat, b: nat, u: nat)
    requires a <= b
    ensures a * u <= b * u
  {
    Arithmetic.Distribute(b, a, u);
  }

  lemma RoundNatMonotone(x: nat, y: nat)
    requires x <= y
    ensures RoundNat(x) <= RoundNat(y)
  {
    ExcessMonotone(x, y);
    RoundNatBounds(x);
    RoundNatBounds(y);
    var ux, uy := Pow2(Excess(x)), Pow2(Excess(y));
    if Excess(x) < Excess(y) {
      assert TWO_53 * ux <= TWO_52 * uy;
    } else {
      DivMonotone(x, y, ux);
      if x / ux < y / ux {
        Scale(x / ux + 1, y / ux, ux);
      } else {
        SameSignificand(x, y, ux);
      }
    }
  }

  lemma SameSignificand(x: nat, y: nat, u: nat)
    requires x <= y && u > 0 && x / u == y / u
    ensures RoundsUp(x / u, x % u, u) ==> RoundsUp(y / u, y % u, u)
  {
    assert x == (x / u) * u + x % u;
    assert y == (y / u) * u + y % u;
  }

  lemma DivMonotone(x: nat, y: nat, u: nat)
    requires x <= y && u > 0
    ensures x / u <= y / u
  {
    Arithmetic.Distribute(x / u, y / u, u);
    Arithmetic.MulSign(x / u - y / u, u);
  }

  /** Rounding never reverses the order of two integers. */
  lemma RoundMonotone(x: int, y: int)
    requires x <= y
    ensures Round(x) <= Round(y)
  {
    hide RoundNat;
    if x >= 0 {
      RoundNatMonotone(x, y);
    } else if y < 0 {
      RoundNatMonotone(-y, -x);
    } else {
      RoundNatMonotone(0, y);
      RoundNatMonotone(0, -x);
      RoundExact(0);
    }
  }

  lemma {:induction false} ExcessOfPow2(k: nat)
    ensures Excess(Pow2(53 + k)) == k + 1
  {
    assert Pow2(53 + k) == 2 * Pow2(52 + k);
    if k == 0 {
      Pow2Of52();
    } else {
      ExcessOfPow2(k - 1);
      Pow2AtLeast(k);
    }
  }

  lemma Pow2Of52()
    ensures Pow2(52) == TWO_52 && Pow2(53) == TWO_53
  {
    assert Pow2(8) == 256;
    assert Pow2(16) == 65536;
    assert Pow2(24) == 0x100_0000;
    assert Pow2(32) == 0x1_0000_0000;
    assert Pow2(40) == 0x100_0000_0000;
    assert Pow2(48) == 0x1_0000_0000_0000;
  }

  lemma {:induction false} Pow2AtLeast(k: nat)
    ensures Pow2(53 + k) >= TWO_53
  {
    if k == 0 { Pow2Of52(); } else { Pow2AtLeast(k - 1); }
  }

  /** A signed 64-bit integer rounds to a double between -2^63 and 2^63. */
  lemma RoundOfInt64(z: int)
    requires -Bytes.TWO_63 <= z <= Bytes.TWO_63
    ensures -Bytes.TWO_63 <= Round(z) <= Bytes.TWO_63
    ensures z == -Bytes.TWO_63 ==> Round(z) == z
  {
    Pow2Of52();
    ExcessOfPow2(10);
    assert Pow2(57) == TWO_53 * 16;
    assert Pow2(63) == Bytes.TWO_63;
    assert Pow2(11) == 2048;
    assert RoundNat(Bytes.TWO_63) == Bytes.TWO_63;
    RoundMonotone(-Bytes.TWO_63, z);
    RoundMonotone(z, Bytes.TWO_63);
  }
}
