/** What integers become when they are written as doubles, read back as IEEE 754 describes it. */
module Amf3Doubles {
  import opened Bytes
  import opened AmfIO
  import opened Amf3Format

  /** 2 to the power 52, 63 and 64: the values of the fraction, the place of the sign, all values. */
  const FRACTIONS: int := 0x10_0000_0000_0000
  const SIGN: int := 0x8000_0000_0000_0000
  const ALL: int := 0x1_0000_0000_0000_0000

  /** The value of a finite double: a sign, eleven bits of exponent with a bias of 1023, and a
      fraction of 52 bits behind a one, which is missing for the smallest exponent. */
  function DoubleValue(bits: Float64): Option<real> {
    var v := FromBE(bits);
    var exponent, fraction := v / FRACTIONS % 2048, v % FRACTIONS;
    if exponent == 2047 then None
    else
      var magnitude := if exponent == 0 then Scaled(fraction, 1) else Scaled(FRACTIONS + fraction, exponent);
      Some(if v / SIGN % 2 == 1 then -magnitude else magnitude)
  }

  /** The number times 2 to the power exponent - 1075. */
  function Scaled(n: nat, exponent: nat): real {
    if exponent >= 1075 then (n * Pow2(exponent - 1075)) as real else n as real / Pow2(1075 - exponent) as real
  }

  lemma {:induction false} Log2Bounds(m: nat)
    requires m > 0
    ensures Pow2(Log2(m)) <= m < 2 * Pow2(Log2(m))
  {
    if m > 1 {
      Log2Bounds(m / 2);
    }
  }

  lemma {:induction false} Pow2Sum(a: nat, b: nat)
    ensures Pow2(a + b) == Pow2(a) * Pow2(b)
  {
    hide Pow2;
    Doubles(a);
    Doubles(a + b);
    if a > 0 {
      Pow2Sum(a - 1, b);
      TwiceTimes(Pow2(a - 1), Pow2(b));
    }
  }

  lemma Doubles(e: nat)
    ensures Pow2(e) == if e == 0 then 1 else 2 * Pow2(e - 1)
  {
  }

  lemma TwiceTimes(a: nat, b: nat)
    ensures (2 * a) * b == 2 * (a * b)
  {
  }

  lemma {:induction false} Pow2Grows(a: nat, b: nat)
    requires a <= b
    ensures Pow2(a) <= Pow2(b)
  {
    if a < b {
      Pow2Grows(a, b - 1);
    }
  }

  lemma Pow2Values()
    ensures Pow2(0) == 1 && Pow2(52) == FRACTIONS && Pow2(64) == ALL && Pow256(8) == ALL
  {
    Pow256Sum();
    SmallPowers();
    hide Pow2;
    Pow2Sum(13, 13);
    Pow2Sum(26, 26);
    Pow2Sum(52, 12);
  }

  lemma SmallPowers()
    ensures Pow2(0) == 1 && Pow2(12) == 4096 && Pow2(13) == 8192
  {
  }

  lemma Pow256Sum()
    ensures Pow256(8) == 0x1_0000_0000 * 0x1_0000_0000
  {
    Pow256Values();
    assert Pow256(5) == 256 * Pow256(4);
    assert Pow256(6) == 256 * Pow256(5);
    assert Pow256(7) == 256 * Pow256(6);
    assert Pow256(8) == 256 * Pow256(7);
  }

  /** The bits behind the leading one p of a number m. */
  function Behind(m: nat, p: nat): nat
    requires 0 < p <= m
  {
    (m - p) * FRACTIONS / p
  }

  lemma FractionOf(m: nat, p: nat)
    requires p <= m < 2 * p
    ensures Significand(m, p) == FRACTIONS + Behind(m, p) && Behind(m, p) < FRACTIONS
  {
    var f, r := (m - p) * FRACTIONS / p, (m - p) * FRACTIONS % p;
    assert (m - p) * FRACTIONS == p * f + r;
    TimesSum(p, FRACTIONS, f);
    UniqueRemainder(m * FRACTIONS, p, FRACTIONS + f, r);
    TimesLess(m - p, p, FRACTIONS);
    LessFactor(f, FRACTIONS, p);
  }

  lemma TimesSum(n: nat, a: nat, b: nat)
    ensures n * (a + b) == n * a + n * b
  {
  }

  lemma TimesLess(a: nat, b: nat, n: nat)
    requires a < b && n > 0
    ensures a * n < b * n
  {
  }

  lemma LessFactor(a: nat, b: nat, n: nat)
    requires n * a < n * b
    ensures a < b
  {
  }

  /** Sign, exponent and fraction stand side by side. */
  lemma FieldsOf(negative: bool, e: nat, f: nat)
    requires e <= 63 && f < FRACTIONS
    ensures var v := (if negative then SIGN else 0) + (1023 + e) * FRACTIONS + f;
      && v < ALL && v / SIGN % 2 == (if negative then 1 else 0)
      && v / FRACTIONS % 2048 == 1023 + e && v % FRACTIONS == f
  {
  }

  function Size(n: int): nat {
    if n < 0 then -n else n
  }

  /** A reader of the double written for an integer finds its sign, its exponent and its fraction. */
  lemma IntegerFields(n: int)
    requires n != 0 && -ALL < n < ALL
    ensures var m := Size(n);
      var e := Log2(m);
      var p := Pow2(e);
      && p <= m
      && var size := Scaled(FRACTIONS + Behind(m, p), 1023 + e);
         DoubleValue(FloatBits(n)) == Some(if n < 0 then -size else size)
  {
    hide BE, FromBE, Scaled, Significand, DoubleValue, Log2, Pow2, Behind;
    var m := if n < 0 then -n else n;
    var e := Log2(m);
    var p := Pow2(e);
    Log2Bounds(m);
    Pow2Values();
    if e > 63 {
      Pow2Grows(64, e);
    }
    FractionOf(m, p);
    var f := Behind(m, p);
    Written(n < 0, e, f);
    assert 0x8000_0000_0000_0000 == SIGN && 0x10_0000_0000_0000 == FRACTIONS;
  }

  lemma Written(negative: bool, e: nat, f: nat)
    requires e <= 63 && f < FRACTIONS
    ensures var size := Scaled(FRACTIONS + f, 1023 + e);
      DoubleValue(BE((if negative then SIGN else 0) + (1022 + e) * FRACTIONS + (FRACTIONS + f), 8))
        == Some(if negative then -size else size)
  {
    hide BE, FromBE, Scaled, Pow2;
    FieldsOf(negative, e, f);
    var v := (if negative then SIGN else 0) + (1023 + e) * FRACTIONS + f;
    Pow256Sum();
    FromBEInvertsBE(v, 8);
  }

  /** How far the integer's bits reach beyond the 53 of a double. */
  function Beyond(m: nat): (b: nat)
    requires m > 0
    ensures b > 0
  {
    if Log2(m) <= 52 then 1 else Pow2(Log2(m) - 52)
  }

  /** The 53 bits from the leading one on. */
  function Front(m: nat): int
    requires m > 0
  {
    m - m % Beyond(m)
  }

  predicate Fits53(m: nat) {
    m == 0 || m % Beyond(m) == 0
  }

  lemma FrontIsAll(m: nat)
    requires m > 0
    ensures Front(m) == m <==> Fits53(m)
  {
    hide Beyond;
  }

  /** With p = 2^e, for e up to 52. */
  lemma SmallParts(m: nat, p: nat, q: nat)
    requires 0 < p <= m && p * q == FRACTIONS
    ensures FRACTIONS + Behind(m, p) == m * q
  {
    var r := m - p;
    assert r * (p * q) == p * (r * q);
    UniqueRemainder(r * FRACTIONS, p, r * q, 0);
    assert (p + r) * q == p * q + r * q;
  }

  /** The same for e from 52 on. */
  lemma LargeParts(m: nat, p: nat, q: nat)
    requires 0 < p <= m && p == FRACTIONS * q && q > 0
    ensures (FRACTIONS + Behind(m, p)) * q == m - m % q
  {
    var d, r := (m - p) / q, (m - p) % q;
    assert m - p == q * d + r;
    assert (q * d + r) * FRACTIONS == (FRACTIONS * q) * d + r * FRACTIONS;
    TimesLess(r, q, FRACTIONS);
    assert q * FRACTIONS == p;
    UniqueRemainder((m - p) * FRACTIONS, p, d, r * FRACTIONS);
    assert q * (FRACTIONS + d) == q * FRACTIONS + q * d;
    UniqueRemainder(m, q, FRACTIONS + d, r);
    assert (FRACTIONS + d) * q == q * (FRACTIONS + d);
  }

  lemma Divides(m: nat, q: nat)
    requires q > 0
    ensures (m * q) as real / q as real == m as real
  {
    assert (m * q) as real == m as real * q as real;
  }

  lemma SizeRead(m: nat, e: nat)
    requires Pow2(e) <= m && m > 0 && e == Log2(m)
    ensures Scaled(FRACTIONS + Behind(m, Pow2(e)), 1023 + e) == Front(m) as real
  {
    hide Pow2, Log2, Behind;
    var p := Pow2(e);
    Pow2Values();
    if e <= 52 {
      var q := Pow2(52 - e);
      Pow2Sum(e, 52 - e);
      SmallParts(m, p, q);
      Divides(m, q);
      assert e == 52 ==> q == 1;
    } else {
      var q := Pow2(e - 52);
      Pow2Sum(52, e - 52);
      LargeParts(m, p, q);
    }
  }

  /** Every integer is written as the double with its value if and only if it has no more than 53
      bits, apart from zeros at the end. */
  lemma IntegerExactly(n: int)
    requires -ALL < n < ALL
    ensures DoubleValue(FloatBits(n)) == Some(n as real)
            <==> Fits53(Size(n))
  {
    hide DoubleValue, FloatBits, Fits53, Front, Log2, Pow2;
    if n == 0 {
      ZeroValue();
    } else {
      IntegerValue(n);
      FrontIsAll(Size(n));
      SameReals(if n < 0 then -Front(Size(n)) else Front(Size(n)), n);
    }
  }

  /** The double of an integer stands for its first 53 bits. */
  lemma IntegerValue(n: int)
    requires n != 0 && -ALL < n < ALL
    ensures DoubleValue(FloatBits(n)) == Some((if n < 0 then -Front(Size(n)) else Front(Size(n))) as real)
  {
    hide DoubleValue, FloatBits, Scaled, Front, Log2, Pow2, Behind;
    IntegerFields(n);
    SizeRead(Size(n), Log2(Size(n)));
    Negated(Front(Size(n)));
  }

  lemma Negated(k: int)
    ensures -(k as real) == (-k) as real
  {
  }

  lemma SameReals(a: int, b: int)
    ensures a as real == b as real <==> a == b
  {
  }

  lemma ZeroValue()
    ensures DoubleValue(FloatBits(0)) == Some(0 as real) && Fits53(0)
  {
    hide BE, FromBE, Pow256, Pow2;
    Pow256Sum();
    FromBEInvertsBE(0, 8);
    assert (0 as real) == 0.0;
  }

  /** So are all of fewer than 54 bits. */
  lemma SmallIntegers(n: int)
    requires -2 * FRACTIONS < n < 2 * FRACTIONS
    ensures DoubleValue(FloatBits(n)) == Some(n as real)
  {
    hide DoubleValue, FloatBits;
    IntegerExactly(n);
    if n != 0 {
      var m := if n < 0 then -n else n;
      Log2Bounds(m);
      Pow2Values();
      if Log2(m) > 52 {
        Pow2Sum(1, 52);
        Pow2Grows(53, Log2(m));
      }
    }
  }
}
