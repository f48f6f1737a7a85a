/** Microseconds through binary floating point: seconds as a double and back. Rounding is to
    nearest, as in section 4.3.1 of IEEE 754-2019, with 53 bits of precision. */
module Timestamps {

  function Pow2(e: int): real
    decreases if e < 0 then -e else e
  {
    if e == 0 then 1.0 else if e > 0 then 2.0 * Pow2(e - 1) else Pow2(e + 1) / 2.0
  }

  const TWO_53 := 9007199254740992
  const MILLION := 1000000.0

  /** Half a unit in the last place, relative to the value. */
  const U := 1.0 / 9007199254740992.0

  lemma Pow2Double(e: int)
    ensures Pow2(e + 1) == 2.0 * Pow2(e)
  {}

  lemma {:induction false} Pow2Positive(e: int)
    ensures Pow2(e) > 0.0
    decreases if e < 0 then -e else e
  {
    if e > 0 {
      Pow2Positive(e - 1);
    } else if e < 0 {
      Pow2Positive(e + 1);
    }
  }

  lemma Pow2Up10(e: int)
    ensures Pow2(e + 10) == 1024.0 * Pow2(e)
  {
    Pow2Double(e);
    Pow2Double(e + 1);
    Pow2Double(e + 2);
    Pow2Double(e + 3);
    Pow2Double(e + 4);
    Pow2Double(e + 5);
    Pow2Double(e + 6);
    Pow2Double(e + 7);
    Pow2Double(e + 8);
    Pow2Double(e + 9);
  }

  lemma Pow2Up53(e: int)
    ensures Pow2(e + 53) == 9007199254740992.0 * Pow2(e)
  {
    Pow2Up10(e);
    Pow2Up10(e + 10);
    Pow2Up10(e + 20);
    Pow2Up10(e + 30);
    Pow2Up10(e + 40);
    Pow2Double(e + 50);
    Pow2Double(e + 51);
    Pow2Double(e + 52);
  }

  /** A number with 53 significant bits. (Exponents are not bounded: everything here stays
      far from overflow and from subnormal numbers.) */
  ghost predicate IsDouble(z: real) {
    exists m: int, e: int :: -TWO_53 <= m <= TWO_53 && z == Scaled(m, e)
  }

  function Scaled(m: int, e: int): real { m as real * Pow2(e) }

  function Abs(x: real): real { if x < 0.0 then -x else x }

  /** A correctly rounded result: a double, and none is nearer. */
  ghost predicate Nearest(x: real, y: real) {
    IsDouble(y) && forall z {:trigger IsDouble(z)} :: IsDouble(z) ==> Abs(y - x) <= Abs(z - x)
  }

  lemma {:induction false} Binade(x: real, top: int) returns (k: int)
    requires Pow2(-30) <= x < Pow2(top) && top >= -30
    ensures Pow2(k) <= x < Pow2(k + 1)
    decreases top + 30
  {
    if top == -30 {
      assert false;
    } else if x >= Pow2(top - 1) {
      k := top - 1;
    } else {
      k := Binade(x, top - 1);
    }
  }

  function Product(a: real, b: real): real { a * b }

  lemma Times(a: real, b: real, c: real)
    requires a <= b && c > 0.0
    ensures Product(a, c) <= Product(b, c)
  {}

  lemma Halves(c: real)
    ensures Product(0.5, c) == c / 2.0 && Product(-0.5, c) == -(c / 2.0)
  {}

  lemma QuotientBelow(q: real, c: real, ulp: real)
    requires ulp > 0.0 && q * ulp < c * ulp
    ensures q < c
  {
    if c <= q {
      Times(c, q, ulp);
    }
  }

  lemma ScaledFloor(x: real, ulp: real) returns (m: int)
    requires ulp > 0.0 && 0.0 < x < 9007199254740992.0 * ulp
    ensures 0 <= m <= TWO_53 && Abs(Product(m as real, ulp) - x) <= ulp / 2.0
  {
    var q := x / ulp;
    assert Product(q, ulp) == x;
    QuotientBelow(q, 9007199254740992.0, ulp);
    QuotientBelow(0.0, q, ulp);
    m := (q + 0.5).Floor;
    OffByHalf(m as real, q, ulp);
  }

  lemma OffByHalf(m: real, q: real, ulp: real)
    requires ulp > 0.0 && -0.5 <= m - q <= 0.5
    ensures Abs(Product(m, ulp) - Product(q, ulp)) <= ulp / 2.0
  {
    hide Product;
    var d := m - q;
    HalfOf(d, ulp);
    Distributes(d, m, q, ulp);
  }

  lemma HalfOf(d: real, ulp: real)
    requires ulp > 0.0 && -0.5 <= d <= 0.5
    ensures -(ulp / 2.0) <= Product(d, ulp) <= ulp / 2.0
  {
    hide Product;
    Times(d, 0.5, ulp);
    Times(-0.5, d, ulp);
    Halves(ulp);
  }

  lemma Distributes(d: real, m: real, q: real, ulp: real)
    requires d == m - q
    ensures Product(d, ulp) == Product(m, ulp) - Product(q, ulp)
  {}

  lemma NoneNearer(x: real, y: real, z: real)
    requires Nearest(x, y) && IsDouble(z)
    ensures Abs(y - x) <= Abs(z - x)
  {}

  lemma HalfUlp(x: real, ulp: real, power: real)
    requires power <= x && 2.0 * power == 9007199254740992.0 * ulp
    ensures ulp / 2.0 <= x * U
  {}

  lemma IsScaled(m: int, e: int)
    requires 0 <= m <= TWO_53
    ensures IsDouble(Product(m as real, Pow2(e)))
  {
    assert Product(m as real, Pow2(e)) == Scaled(m, e);
  }

  /** Rounding to nearest is off by no more than U of the value. */
  lemma NearestIsClose(x: real, y: real)
    requires Pow2(-30) <= x < Pow2(60) && Nearest(x, y)
    ensures Abs(y - x) <= x * U
  {
    hide Nearest, Pow2, Abs, Product;
    var k := Binade(x, 60);
    var ulp := Pow2(k - 52);
    Pow2Positive(k - 52);
    Pow2Positive(-30);
    Pow2Up53(k - 52);
    Pow2Double(k);
    var m := ScaledFloor(x, ulp);
    IsScaled(m, k - 52);
    NoneNearer(x, y, Product(m as real, ulp));
    HalfUlp(x, ulp, Pow2(k));
  }

  lemma SmallIntegersAreDoubles(n: int)
    requires -TWO_53 <= n <= TWO_53
    ensures IsDouble(n as real)
  {
    assert n as real == Scaled(n, 0);
  }

  /** To the nearest integer, ties to even. */
  function Round(y: real): int {
    var f := y.Floor;
    if y - f as real < 0.5 then f
    else if y - f as real > 0.5 then f + 1
    else if f % 2 == 0 then f else f + 1
  }

  lemma RoundsTo(y: real, n: int)
    requires Abs(y - n as real) < 0.5
    ensures Round(y) == n
  {}

  const LIMIT := 2251799813685248   // 2^51

  lemma InRange(n: int)
    requires 0 < n < LIMIT
    ensures Pow2(-30) <= n as real / MILLION < Pow2(60)
    ensures Pow2(-30) < 0.000001 / 2.0 && Pow2(60) > 4503599627370496.0
  {
    Pow2Up10(-30);
    Pow2Up10(-20);
    Pow2Up10(-10);
    Pow2Up10(0);
    Pow2Up53(0);
    Pow2Double(53);
    Pow2Double(54);
    Pow2Double(55);
    Pow2Double(56);
    Pow2Double(57);
    Pow2Double(58);
    Pow2Double(59);
  }

  /** Seconds since the epoch as the double `seconds`, times a million as the double `micros`,
      rounded: the microseconds come back exactly, up to 2^51 of them. */
  lemma TimestampIsExact(n: int, seconds: real, micros: real)
    requires 0 <= n < LIMIT
    requires Nearest(n as real / MILLION, seconds) && Nearest(seconds * MILLION, micros)
    ensures Round(micros) == n
  {
    if n == 0 {
      SmallIntegersAreDoubles(0);
      assert seconds == 0.0 && micros == 0.0;
    } else {
      InRange(n);
      NearestIsClose(n as real / MILLION, seconds);
      var x := seconds * MILLION;
      assert Abs(x - n as real) <= n as real * U;
      assert n as real * U <= 0.25;
      NearestIsClose(x, micros);
      assert Abs(micros - x) <= x * U;
      assert x * U <= (n as real + 0.25) * U;
    }
    RoundsTo(micros, n);
  }

  lemma SecondsAreClose(n: int, seconds: real)
    requires 0 < n < LIMIT && Nearest(n as real / MILLION, seconds)
    ensures Abs(seconds * MILLION - n as real) <= 0.25
  {
    InRange(n);
    NearestIsClose(n as real / MILLION, seconds);
    assert Abs(seconds * MILLION - n as real) <= n as real * U;
  }

  lemma WholeSeconds(n: int, seconds: real)
    requires 0 <= n < LIMIT && Nearest(n as real / MILLION, seconds)
    ensures seconds.Floor == n / 1000000
    ensures n % 1000000 == 0 ==> seconds == (n / 1000000) as real
  {
    var s, f := n / 1000000, n % 1000000;
    if f == 0 {
      SmallIntegersAreDoubles(s);
      NoneNearer(n as real / MILLION, seconds, s as real);
    } else {
      SecondsAreClose(n, seconds);
      assert s as real * MILLION + 0.5 < seconds * MILLION < (s as real + 1.0) * MILLION;
    }
  }

  /** The other way: the double split into whole seconds and a fraction, and the fraction
      rounded to microseconds, give the second and the microsecond exactly. */
  lemma FromTimestampIsExact(n: int, seconds: real, micros: real)
    requires 0 <= n < LIMIT && Nearest(n as real / MILLION, seconds)
    requires Nearest((seconds - seconds.Floor as real) * MILLION, micros)
    ensures seconds.Floor * 1000000 + Round(micros) == n && 0 <= Round(micros) < 1000000
  {
    var s, f := n / 1000000, n % 1000000;
    WholeSeconds(n, seconds);
    var x := (seconds - s as real) * MILLION;
    if f == 0 {
      SmallIntegersAreDoubles(0);
      NoneNearer(x, micros, 0.0);
    } else {
      SecondsAreClose(n, seconds);
      assert Abs(x - f as real) <= 0.25;
      InRange(1);
      NearestIsClose(x, micros);
      assert x * U <= 1000001.0 * U;
    }
    RoundsTo(micros, f);
  }
}
