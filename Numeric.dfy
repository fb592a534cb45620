/** Numeric helpers of the wheel script ("Utils", app.js:243-253): angle
    normalisation, the integer `mod`, `clamp`, `rand`, the signed shortest turn
    between two angles, and the swap index drawn by the shuffle (app.js:71).
    Numbers are exact reals; ECMAScript's truncating `%` is written out. */
module Numeric {

  /** One full turn: the decimal that ECMAScript prints for `Math.PI*2`, taken as an exact real. */
  const TAU: real := 6.283185307179586
  /** Half a turn, `Math.PI`. */
  const PI: real := TAU / 2.0

  /** q is a whole number. */
  predicate IsInt(q: real) {
    q.Floor as real == q
  }

  /** x and y name the same direction: they differ by a whole number of turns. */
  predicate Congruent(x: real, y: real) {
    IsInt((x - y) / TAU)
  }

  /** Truncation of a quotient toward zero, as ECMAScript's `%` uses it. */
  function Trunc(q: real): (t: int)
    ensures q >= 0.0 ==> t as real <= q < t as real + 1.0
    ensures q < 0.0 ==> t as real - 1.0 < q <= t as real
  {
    if q >= 0.0 then q.Floor else -((-q).Floor)
  }

  /** ECMAScript's `x % m` on numbers: the remainder has the sign of the dividend. */
  function JsRem(x: real, m: real): real
    requires m != 0.0
  {
    x - m * Trunc(x / m) as real
  }

  /** `norm(a)` (app.js:247): the angle a brought into one turn. */
  function Norm(a: real): (r: real)
    ensures 0.0 <= r < TAU
    ensures Congruent(a, r)
  {
    var t := JsRem(a, TAU);
    JsRemTauFacts(a);
    if t < 0.0 then t + TAU else t
  }

  /** The remainder by TAU lies strictly within one turn of zero, differs from the
      dividend by whole turns, and is negative only for a negative dividend. */
  lemma JsRemTauFacts(a: real)
    ensures -TAU < JsRem(a, TAU) < TAU
    ensures a >= 0.0 ==> JsRem(a, TAU) >= 0.0
    ensures Congruent(a, JsRem(a, TAU)) && Congruent(a, JsRem(a, TAU) + TAU)
  {
    var q := a / TAU;
    var k := Trunc(q);
    var t := a - TAU * k as real;
    assert JsRem(a, TAU) == t;
    assert a == q * TAU;
    assert (a - t) / TAU == k as real;
    IntOf(k);
    assert (a - (t + TAU)) / TAU == (k - 1) as real;
    IntOf(k - 1);
  }

  lemma IntOf(k: int)
    ensures IsInt(k as real)
  {
  }

  lemma IntNeg(q: real)
    requires IsInt(q)
    ensures IsInt(-q)
  {
    var k := q.Floor;
    assert -q == (-k) as real;
  }

  lemma IntAdd(p: real, q: real)
    requires IsInt(p) && IsInt(q)
    ensures IsInt(p + q)
  {
    var j, k := p.Floor, q.Floor;
    assert p + q == (j + k) as real;
  }

  lemma PositiveProduct(x: real, y: real)
    requires x > 0.0 && y > 0.0
    ensures x * y > 0.0
  {
  }

  lemma Distribute(a: real, b: real, c: real)
    ensures a * c + b * c == (a + b) * c
  {
  }

  /** A fraction in [0, 1) of a positive d lies in [0, d). */
  lemma FractionBelow(r: real, d: real)
    requires 0.0 <= r < 1.0 && d > 0.0
    ensures 0.0 <= r * d < d
  {
    PositiveProduct(1.0 - r, d);
    if r > 0.0 {
      PositiveProduct(r, d);
    }
  }

  lemma CongruentRefl(x: real)
    ensures Congruent(x, x)
  {
    assert (x - x) / TAU == 0.0;
  }

  lemma CongruentSymm(x: real, y: real)
    requires Congruent(x, y)
    ensures Congruent(y, x)
  {
    assert (y - x) / TAU == -((x - y) / TAU);
    IntNeg((x - y) / TAU);
  }

  lemma CongruentTrans(x: real, y: real, z: real)
    requires Congruent(x, y) && Congruent(y, z)
    ensures Congruent(x, z)
  {
    assert (x - z) / TAU == (x - y) / TAU + (y - z) / TAU;
    IntAdd((x - y) / TAU, (y - z) / TAU);
  }

  /** Adding k whole turns names the same direction. */
  lemma CongruentTurns(x: real, k: int)
    ensures Congruent(x + k as real * TAU, x)
  {
    assert (x + k as real * TAU - x) / TAU == k as real;
  }

  /** Two angles of one turn that name the same direction are equal. */
  lemma CongruentInTurn(x: real, y: real)
    requires 0.0 <= x < TAU && 0.0 <= y < TAU
    requires Congruent(x, y)
    ensures x == y
  {
    var q := (x - y) / TAU;
    assert -1.0 < q < 1.0;
    assert q.Floor == 0;
  }

  /** Norm is the one value of [0, TAU) that names the same direction as a. */
  lemma NormUnique(a: real, r: real)
    requires 0.0 <= r < TAU && Congruent(a, r)
    ensures Norm(a) == r
  {
    CongruentSymm(a, Norm(a));
    CongruentTrans(Norm(a), a, r);
    CongruentInTurn(Norm(a), r);
  }

  /** An angle already in [0, TAU) is its own normal form. */
  lemma NormInTurn(a: real)
    requires 0.0 <= a < TAU
    ensures Norm(a) == a
  {
    CongruentRefl(a);
    NormUnique(a, a);
  }

  /** Angles naming the same direction have the same normal form. */
  lemma NormCongruent(x: real, y: real)
    requires Congruent(x, y)
    ensures Norm(x) == Norm(y)
  {
    CongruentTrans(x, y, Norm(y));
    NormUnique(x, Norm(y));
  }

  /** Norm is periodic with period TAU. */
  lemma NormPeriodic(a: real, k: int)
    ensures Norm(a + k as real * TAU) == Norm(a)
  {
    CongruentTurns(a, k);
    NormCongruent(a + k as real * TAU, a);
  }

  lemma CongruentShift(x: real, y: real, c: real)
    requires Congruent(x, y)
    ensures Congruent(x + c, y + c) && Congruent(c - x, c - y)
  {
    assert (x + c - (y + c)) / TAU == (x - y) / TAU;
    assert (c - x - (c - y)) / TAU == -((x - y) / TAU);
    IntNeg((x - y) / TAU);
  }

  /** Normalising an operand first does not change the normal form of a sum. */
  lemma NormAdd(x: real, c: real)
    ensures Norm(x + c) == Norm(Norm(x) + c)
  {
    CongruentShift(x, Norm(x), c);
    NormCongruent(x + c, Norm(x) + c);
  }

  /** Normalising the subtrahend first does not change the normal form of a difference. */
  lemma NormSub(c: real, x: real)
    ensures Norm(c - x) == Norm(c - Norm(x))
  {
    CongruentShift(x, Norm(x), c);
    NormCongruent(c - x, c - Norm(x));
  }

  /** Norm of a value within one turn either side of [0, TAU). */
  lemma NormNearTurn(x: real)
    requires -TAU <= x < 2.0 * TAU
    ensures 0.0 <= x < TAU ==> Norm(x) == x
    ensures TAU <= x ==> Norm(x) == x - TAU
    ensures x < 0.0 ==> Norm(x) == x + TAU
  {
    if x >= TAU {
      CongruentTurns(x - TAU, 1);
      NormUnique(x, x - TAU);
    } else if x < 0.0 {
      CongruentTurns(x + TAU, -1);
      CongruentSymm(x + TAU + (-1) as real * TAU, x + TAU);
      NormUnique(x, x + TAU);
    } else {
      NormInTurn(x);
    }
  }

  /** Norm agrees with the floor-based modulus, an independent reference definition. */
  lemma NormIsFloorMod(a: real)
    ensures Norm(a) == a - (a / TAU).Floor as real * TAU
  {
    var k := (a / TAU).Floor;
    var r := a - k as real * TAU;
    assert (a - r) / TAU == k as real;
    NormUnique(a, r);
  }

  function Abs(n: int): nat {
    if n < 0 then -n else n
  }

  /** ECMAScript's `n % m` on integers: the remainder has the sign of the dividend. */
  function JsRemInt(n: int, m: int): int
    requires m != 0
  {
    if n >= 0 then n % Abs(m) else -((-n) % Abs(m))
  }

  /** `mod(n, m)` (app.js:246), for the integers its caller passes; for m > 0 it is
      the non-negative (Euclidean) remainder. */
  function Mod(n: int, m: int): (r: int)
    requires m != 0
    ensures m > 0 ==> 0 <= r < m
    ensures m > 0 ==> r == n % m
  {
    var t := JsRemInt(n, m);
    ModOfShift(n, m);
    JsRemInt(t + m, m)
  }

  /** x % m determined by one decomposition x == q * m + r with 0 <= r < m. */
  lemma ModUnique(x: int, m: int, q: int, r: int)
    requires m > 0 && 0 <= r < m && x == q * m + r
    ensures x % m == r
  {
    var d, e := x / m, x % m;
    assert x == d * m + e;
    assert (q - d) * m == e - r;
    if q - d >= 1 {
      MulAtLeast(q - d, m);
    } else if d - q >= 1 {
      MulAtLeast(d - q, m);
    }
  }

  lemma MulAtLeast(k: int, m: int)
    requires k >= 1 && m > 0
    ensures k * m >= m
  {
  }

  lemma ModOfShift(n: int, m: int)
    requires m != 0
    ensures m > 0 ==> JsRemInt(JsRemInt(n, m) + m, m) == n % m
  {
    if m > 0 {
      var t := JsRemInt(n, m);
      if n >= 0 {
        assert t == n % m;
        ModUnique(t + m, m, 1, t);
        ModUnique(n, m, n / m, t);
      } else {
        var e := (-n) % m;
        var d := (-n) / m;
        assert -n == d * m + e;
        if e == 0 {
          ModUnique(t + m, m, 1, 0);
          ModUnique(n, m, -d, 0);
        } else {
          ModUnique(t + m, m, 0, m - e);
          ModUnique(n, m, -d - 1, m - e);
        }
      }
    }
  }

  /** `clamp(v, lo, hi)` (app.js:245), `Math.min(hi, Math.max(lo, v))`. */
  function Clamp(v: real, lo: real, hi: real): (r: real)
    ensures lo <= hi ==> lo <= r <= hi
    ensures lo <= v <= hi ==> r == v
    ensures v < lo && lo <= hi ==> r == lo
    ensures v > hi || lo > hi ==> r == hi
  {
    var m := if lo > v then lo else v;
    if hi < m then hi else m
  }

  /** `rand(lo, hi)` (app.js:244) with the host's `Math.random()` value passed in as rnd. */
  function Rand(rnd: real, lo: real, hi: real): (r: real)
    ensures 0.0 <= rnd < 1.0 && lo < hi ==> lo <= r < hi
  {
    var d := hi - lo;
    if 0.0 <= rnd < 1.0 && lo < hi then
      FractionBelow(rnd, d);
      rnd * d + lo
    else
      rnd * d + lo
  }

  /** `Math.floor(Math.random()*(i+1))` (app.js:71) with the random value passed in. */
  function SwapIndex(rnd: real, i: int): (j: int)
    ensures 0.0 <= rnd < 1.0 && i >= 0 ==> 0 <= j <= i
  {
    var n := (i + 1) as real;
    if 0.0 <= rnd < 1.0 && i >= 0 then
      FractionBelow(rnd, n);
      (rnd * n).Floor
    else
      (rnd * n).Floor
  }

  /** `shortAngleDist(from, to)` (app.js:248-253): the signed turn that takes
      direction `from` to direction `to`, never more than half a turn. */
  function ShortAngleDist(from: real, to: real): (d: real)
    ensures -PI <= d <= PI
    ensures Congruent(from + d, to)
  {
    var d0 := Norm(to) - Norm(from);
    var d1 := if d0 > PI then d0 - TAU else d0;
    var d2 := if d1 < -PI then d1 + TAU else d1;
    ShortAngleDistTurns(from, to, d0, d2);
    d2
  }

  lemma ShortAngleDistTurns(from: real, to: real, d0: real, d: real)
    requires d0 == Norm(to) - Norm(from)
    requires d == d0 || d == d0 - TAU || d == d0 + TAU
    ensures Congruent(from + d, to)
  {
    // from + d0 and to differ by (from - Norm(from)) + (Norm(to) - to): whole turns
    var p := (from - Norm(from)) / TAU;
    CongruentSymm(to, Norm(to));
    var q := (Norm(to) - to) / TAU;
    IntAdd(p, q);
    var s := (d - d0) / TAU;
    assert s == 0.0 || s == -1.0 || s == 1.0;
    IntOf(s.Floor);
    IntAdd(p + q, s);
    assert (from + d - to) / TAU == p + q + s;
  }

  /** No turn from `from` to `to` is shorter than ShortAngleDist(from, to). */
  lemma ShortAngleDistShortest(from: real, to: real, e: real)
    requires Congruent(from + e, to)
    ensures var d := ShortAngleDist(from, to); -e <= d <= e || e <= d <= -e
  {
    var d := ShortAngleDist(from, to);
    CongruentSymm(from + e, to);
    CongruentTrans(from + d, to, from + e);
    var k := (from + d - (from + e)) / TAU;
    assert d - e == k * TAU;
    if k.Floor >= 1 {
      assert e <= d - TAU;
    } else if k.Floor <= -1 {
      assert e >= d + TAU;
    } else {
      assert d == e;
    }
  }
}
