/** The lookup tables of src/math/fast_trigo.hpp, for any resolution and for any function that is
    periodic and changes no faster than its argument, as sine and cosine do. */
module FastTrigo {
  import opened Numbers

  function Pow2(bits: nat): (n: nat)
    ensures n >= 1
  {
    if bits == 0 then 1 else 2 * Pow2(bits - 1)
  }

  /** The conversion of a double to an int drops the fraction: it rounds toward zero. */
  function Truncate(y: real): int {
    if y >= 0.0 then y.Floor else -((-y).Floor)
  }

  predicate FitsInt(k: int) {
    -0x8000_0000 <= k < 0x8000_0000
  }

  /** The low bits of a two's-complement number: `k & ((1 << bits) - 1)`. */
  function LowBits(k: int, bits: nat): nat
    decreases bits
  {
    if bits == 0 then 0 else k % 2 + 2 * LowBits(k / 2, bits - 1)
  }

  lemma {:induction false} LowBitsIsRemainder(k: int, bits: nat) returns (q: int)
    ensures 0 <= LowBits(k, bits) < Pow2(bits)
    ensures k == q * Pow2(bits) + LowBits(k, bits)
    decreases bits
  {
    if bits == 0 {
      q := k;
    } else {
      q := LowBitsIsRemainder(k / 2, bits - 1);
      var p := Pow2(bits - 1);
      assert k == 2 * (q * p + LowBits(k / 2, bits - 1)) + k % 2;
      assert 2 * (q * p) == q * (2 * p);
    }
  }

  // ----- the function that is tabulated -----

  ghost predicate Periodic(f: real -> real, period: real) {
    forall x: real :: f(x + period) == f(x)
  }

  ghost predicate Gentle(f: real -> real) {
    forall x: real, y: real :: Abs(f(x) - f(y)) <= Abs(x - y)
  }

  lemma OnePeriod(f: real -> real, period: real, x: real)
    requires Periodic(f, period)
    ensures f(x + period) == f(x)
  {
  }

  function Turns(period: real, q: int): real {
    q as real * period
  }

  lemma OneTurnMore(period: real, q: int)
    ensures Turns(period, q + 1) == Turns(period, q) + period && Turns(period, 0) == 0.0
  {
  }

  lemma {:induction false} ManyPeriods(f: real -> real, period: real, x: real, q: int)
    requires Periodic(f, period)
    ensures f(x + Turns(period, q)) == f(x)
    decreases if q >= 0 then q else -q
  {
    hide Periodic, Turns;
    if q > 0 {
      ManyPeriods(f, period, x, q - 1);
      OneTurnMore(period, q - 1);
      OnePeriod(f, period, x + Turns(period, q - 1));
      assert x + Turns(period, q) == x + Turns(period, q - 1) + period;
    } else if q < 0 {
      ManyPeriods(f, period, x, q + 1);
      OneTurnMore(period, q);
      OnePeriod(f, period, x + Turns(period, q));
      assert x + Turns(period, q + 1) == x + Turns(period, q) + period;
    } else {
      OneTurnMore(period, 0);
      assert x + 0.0 == x;
    }
  }

  // ----- the table -----

  /** The angle that entry i is computed for; the original centres it half a step early. */
  function Angle(pi: real, n: nat, i: int): real
    requires n >= 1
  {
    2.0 * pi * (i as real - 0.5) / n as real
  }

  ghost predicate IsTable(cache: seq<real>, f: real -> real, pi: real) {
    |cache| >= 1 && forall i :: 0 <= i < |cache| ==> cache[i] == f(Angle(pi, |cache|, i))
  }

  /** `fast_trigo_initializer`, for one of the two tables. */
  method Initialize(cache: array<real>, f: real -> real, pi: real)
    requires cache.Length >= 1
    modifies cache
    ensures IsTable(cache[..], f, pi)
  {
    for i := 0 to cache.Length
      invariant forall j :: 0 <= j < i ==> cache[j] == f(Angle(pi, cache.Length, j))
    {
      cache[i] := f(2.0 * pi * (i as real - 0.5) / cache.Length as real);
    }
  }

  /** The number a value is scaled to before it is truncated. */
  function Scaled(pi: real, n: nat, x: real): real
    requires pi > 0.0
  {
    0.5 * n as real / pi * x
  }

  /** `fast_cos` and `fast_sin`. */
  function Lookup(cache: seq<real>, bits: nat, pi: real, x: real): real
    requires |cache| == Pow2(bits) && pi > 0.0 && FitsInt(Truncate(Scaled(pi, |cache|, x)))
  {
    var k := Truncate(Scaled(pi, |cache|, x));
    IndexInRange(k, bits);
    cache[LowBits(k, bits)]
  }

  lemma IndexInRange(k: int, bits: nat)
    ensures LowBits(k, bits) < Pow2(bits)
  {
    var _ := LowBitsIsRemainder(k, bits);
  }

  // ----- the error bound -----

  lemma TruncateNear(y: real)
    ensures Abs(y - Truncate(y) as real) < 1.0
  {
  }

  lemma UnscaledValue(pi: real, n: nat, x: real)
    requires pi > 0.0 && n >= 1
    ensures x == 2.0 * pi * Scaled(pi, n, x) / n as real
  {
    var m := n as real;
    var c := 0.5 * m / pi;
    assert c * pi == 0.5 * m;
    assert Scaled(pi, n, x) == c * x;
    assert 2.0 * pi * (c * x) == 2.0 * (c * pi) * x == m * x;
    assert m * x / m == x;
  }

  lemma Stretch(u: real, d: real)
    requires u > 0.0 && Abs(d) < 1.5
    ensures Abs(u * d) < u * 1.5
  {
    assert u * (1.5 - d) > 0.0 && u * (1.5 + d) > 0.0;
    assert u * (1.5 - d) == u * 1.5 - u * d && u * (1.5 + d) == u * 1.5 + u * d;
  }

  lemma StepTimes(pi: real, n: nat, a: real)
    requires n >= 1
    ensures 2.0 * pi * a / n as real == 2.0 * pi / n as real * a
  {
  }

  lemma ScaledDistance(pi: real, n: nat, a: real, b: real)
    requires pi > 0.0 && n >= 1 && Abs(a - b) < 1.5
    ensures Abs(2.0 * pi * a / n as real - 2.0 * pi * b / n as real) < 3.0 * pi / n as real
  {
    var u := 2.0 * pi / n as real;
    assert u > 0.0;
    StepTimes(pi, n, a);
    StepTimes(pi, n, b);
    StepTimes(pi, n, 1.5);
    assert u * a - u * b == u * (a - b);
    Stretch(u, a - b);
  }

  lemma TurnsApart(pi: real, n: nat, i: int, q: int)
    requires n >= 1
    ensures Angle(pi, n, q * n + i) == Angle(pi, n, i) + Turns(2.0 * pi, q)
  {
    var m, a, turn := n as real, i as real - 0.5, 2.0 * pi;
    assert (q * n + i) as real == q as real * m + i as real;
    assert turn * (q as real * m + a) == turn * a + q as real * turn * m;
    assert q as real * turn * m / m == q as real * turn;
  }

  /** Masking the scaled value picks an angle a whole number of turns away. */
  lemma SameAngle(f: real -> real, pi: real, bits: nat, k: int)
    requires pi > 0.0 && Periodic(f, 2.0 * pi)
    ensures f(Angle(pi, Pow2(bits), LowBits(k, bits))) == f(Angle(pi, Pow2(bits), k))
  {
    hide Angle, Periodic, Turns;
    var q := LowBitsIsRemainder(k, bits);
    var n, i, turn := Pow2(bits), LowBits(k, bits), 2.0 * pi;
    TurnsApart(pi, n, i, q);
    ManyPeriods(f, turn, Angle(pi, n, i), q);
    assert k == q * n + i;
    assert Angle(pi, n, k) == Angle(pi, n, i) + Turns(turn, q);
  }

  lemma AngleNear(pi: real, n: nat, x: real)
    requires pi > 0.0 && n >= 1
    ensures Abs(Angle(pi, n, Truncate(Scaled(pi, n, x))) - x) < 3.0 * pi / n as real
  {
    hide Scaled, Truncate;
    var y := Scaled(pi, n, x);
    var a := Truncate(y) as real - 0.5;
    TruncateNear(y);
    UnscaledValue(pi, n, x);
    assert Abs(a - y) < 1.5;
    ScaledDistance(pi, n, a, y);
    assert Angle(pi, n, Truncate(y)) == 2.0 * pi * a / n as real;
    assert x == 2.0 * pi * y / n as real;
  }

  /** For every value whose scaled form fits in an int, the table entry is less than 3 pi / N away
      from the function. */
  lemma ErrorBound(cache: seq<real>, bits: nat, f: real -> real, pi: real, x: real)
    requires |cache| == Pow2(bits) && IsTable(cache, f, pi)
    requires pi > 0.0 && Periodic(f, 2.0 * pi) && Gentle(f)
    requires FitsInt(Truncate(Scaled(pi, |cache|, x)))
    ensures Abs(Lookup(cache, bits, pi, x) - f(x)) < 3.0 * pi / |cache| as real
  {
    hide Angle, Scaled, Truncate, Periodic, LowBits, Pow2;
    var n := |cache|;
    var k := Truncate(Scaled(pi, n, x));
    IndexInRange(k, bits);
    SameAngle(f, pi, bits, k);
    AngleNear(pi, n, x);
    assert Abs(f(Angle(pi, n, k)) - f(x)) <= Abs(Angle(pi, n, k) - x);
  }

  /** Toward zero: no number is farther from zero than before, and by less than one nearer, on the same side. */
  lemma TruncateTowardZero(y: real)
    ensures y >= 0.0 ==> 0.0 <= Truncate(y) as real <= y < Truncate(y) as real + 1.0
    ensures y <= 0.0 ==> Truncate(y) as real - 1.0 < y <= Truncate(y) as real <= 0.0
  {
  }

  lemma NearBelow(pi: real, n: nat, x: real)
    requires pi > 0.0 && n >= 1 && x <= 0.0
    ensures Abs(Angle(pi, n, Truncate(Scaled(pi, n, x))) - x) <= pi / n as real
  {
    var y := Scaled(pi, n, x);
    assert y <= 0.0 by { ScaledSign(pi, n, x); }
    TruncateTowardZero(y);
    UnscaledValue(pi, n, x);
    hide Scaled, Truncate;
    var a := Truncate(y) as real - 0.5;
    assert Abs(a - y) <= 0.5;
    HalfDistance(pi, n, a, y);
    assert Angle(pi, n, Truncate(y)) == 2.0 * pi * a / n as real;
    assert x == 2.0 * pi * y / n as real;
  }

  lemma HalfDistance(pi: real, n: nat, a: real, b: real)
    requires pi > 0.0 && n >= 1 && Abs(a - b) <= 0.5
    ensures Abs(2.0 * pi * a / n as real - 2.0 * pi * b / n as real) <= pi / n as real
  {
    var u := 2.0 * pi / n as real;
    assert u > 0.0;
    StepTimes(pi, n, a);
    StepTimes(pi, n, b);
    StepTimes(pi, n, 0.5);
    assert u * a - u * b == u * (a - b);
    HalfStretch(u, a - b);
  }

  lemma ScaledSign(pi: real, n: nat, x: real)
    requires pi > 0.0 && n >= 1 && x <= 0.0
    ensures Scaled(pi, n, x) <= 0.0
  {
    var c := 0.5 * n as real / pi;
    assert c > 0.0;
    assert c * -x >= 0.0;
  }

  lemma HalfStretch(u: real, d: real)
    requires u > 0.0 && Abs(d) <= 0.5
    ensures Abs(u * d) <= u * 0.5
  {
    assert u * (0.5 - d) >= 0.0 && u * (0.5 + d) >= 0.0;
    assert u * (0.5 - d) == u * 0.5 - u * d && u * (0.5 + d) == u * 0.5 + u * d;
  }

  /** For arguments below zero, rounding toward zero makes up for the half step, and the bound is pi / N. */
  lemma NegativeErrorBound(cache: seq<real>, bits: nat, f: real -> real, pi: real, x: real)
    requires |cache| == Pow2(bits) && IsTable(cache, f, pi)
    requires pi > 0.0 && Periodic(f, 2.0 * pi) && Gentle(f) && x <= 0.0
    requires FitsInt(Truncate(Scaled(pi, |cache|, x)))
    ensures Abs(Lookup(cache, bits, pi, x) - f(x)) <= pi / |cache| as real
  {
    hide Angle, Scaled, Truncate, Periodic, LowBits, Pow2;
    var n := |cache|;
    var k := Truncate(Scaled(pi, n, x));
    IndexInRange(k, bits);
    SameAngle(f, pi, bits, k);
    NearBelow(pi, n, x);
    assert Abs(f(Angle(pi, n, k)) - f(x)) <= Abs(Angle(pi, n, k) - x);
  }
}
