/** Finite IEEE 754 doubles that are not negative, counted in units of the
    smallest one, 2^-1074: rounding a fraction to the nearest double, ties to
    even, and the shortest decimal digits that round back to a double. */
module Doubles {
  const TWO_52: nat := 0x10_0000_0000_0000
  const TWO_53: nat := 0x20_0000_0000_0000

  function Pow(b: nat, n: nat): nat {
    if n == 0 then 1 else b * Pow(b, n - 1)
  }

  // ---------- Rounding ----------

  function Nearest(a: nat, b: nat): nat
    requires b > 0
  {
    var (q, r) := (a / b, a % b);
    if 2 * r < b || (2 * r == b && q % 2 == 0) then q else q + 1
  }

  /** The units of the double nearest to `a / b` units: 53 bits are kept. */
  function Round(a: nat, b: nat): nat
    requires b > 0
    decreases a - TWO_53 * b
  {
    if a < TWO_53 * b then Nearest(a, b) else 2 * Round(a, 2 * b)
  }

  predicate IsDouble(u: nat) {
    Round(u, 1) == u
  }

  lemma NearestIs(a: nat, b: nat, n: nat)
    requires b > 0
    ensures a == n * b ==> Nearest(a, b) == n
    ensures a >= n * b ==> Nearest(a, b) >= n
    ensures a <= n * b ==> Nearest(a, b) <= n
  {
    var (q, r) := (a / b, a % b);
    assert a == q * b + r;
    if n > q {
      Below(q, r, n, b);
    } else if n < q {
      Below(n, 0, q, b);
    }
  }

  lemma Below(q: nat, r: nat, n: nat, b: nat)
    requires q < n && r < b
    ensures q * b + r < n * b
  {
    Monotone(q + 1, n, b);
    assert (q + 1) * b == q * b + b;
  }

  lemma Monotone(m: nat, n: nat, b: nat)
    requires m <= n
    ensures m * b <= n * b
  {
  }

  /** Rounding does not cross a number of units below 2^53. */
  lemma {:induction false} RoundIsClose(a: nat, b: nat, n: nat)
    requires b > 0 && n <= TWO_53
    ensures a >= n * b ==> Round(a, b) >= n
    ensures a <= n * b ==> Round(a, b) <= n
    decreases a - TWO_53 * b
  {
    if a < TWO_53 * b {
      NearestIs(a, b, n);
    } else {
      RoundIsClose(a, 2 * b, TWO_52);
      if a <= n * b {
        assert n == TWO_53 by { if n < TWO_53 { Monotone(n + 1, TWO_53, b); } }
      }
    }
  }

  lemma NearestCancels(a: nat, b: nat, k: nat)
    requires b > 0 && k > 0 && k * b > 0
    ensures Nearest(k * a, k * b) == Nearest(a, b)
  {
    var (q, r) := (a / b, a % b);
    assert a == q * b + r;
    assert k * a == q * (k * b) + k * r by { Spread(k, q, b, r); }
    assert k * r < k * b by { Smaller(k, r, b); }
    DivideIs(k * a, k * b, q, k * r);
    if 2 * r < b { Smaller(k, 2 * r, b); }
    if 2 * r > b { Smaller(k, b, 2 * r); }
    assert 2 * (k * r) == k * (2 * r);
  }

  lemma Spread(k: nat, q: nat, b: nat, r: nat)
    ensures k * (q * b + r) == q * (k * b) + k * r
  {
    calc {
      k * (q * b + r);
      k * (q * b) + k * r;
      { assert k * (q * b) == q * (k * b); }
      q * (k * b) + k * r;
    }
  }

  lemma Smaller(k: nat, a: nat, b: nat)
    requires k > 0 && a < b
    ensures k * a < k * b && a * k < b * k
  {
  }

  lemma DivideIs(a: nat, b: nat, q: nat, r: nat)
    requires b > 0 && r < b && a == q * b + r
    ensures a / b == q && a % b == r
  {
    var (q', r') := (a / b, a % b);
    assert a == q' * b + r';
    if q < q' {
      Monotone(q + 1, q', b);
    } else if q' < q {
      Monotone(q' + 1, q, b);
    }
  }

  /** Equal fractions round alike. */
  lemma {:induction false} RoundCancels(a: nat, b: nat, k: nat)
    requires b > 0 && k > 0 && k * b > 0
    ensures Round(k * a, k * b) == Round(a, b)
    decreases a - TWO_53 * b
  {
    Swap(TWO_53, k, b);
    if a < TWO_53 * b {
      Smaller(k, a, TWO_53 * b);
      NearestCancels(a, b, k);
    } else {
      Monotone(TWO_53 * b, a, k);
      assert k * (TWO_53 * b) <= k * a;
      RoundCancels(a, 2 * b, k);
      assert k * (2 * b) == 2 * (k * b);
    }
  }

  lemma Swap(x: nat, k: nat, b: nat)
    ensures x * (k * b) == k * (x * b)
  {
  }

  /** Rounding gives a double. */
  lemma {:induction false} RoundIsDouble(a: nat, b: nat)
    requires b > 0
    ensures IsDouble(Round(a, b))
    decreases a - TWO_53 * b
  {
    if a < TWO_53 * b {
      var u := Round(a, b);
      RoundIsClose(a, b, TWO_53);
      if u < TWO_53 {
        NearestIs(u, 1, u);
      } else {
        NearestIs(TWO_53, 2, TWO_52);
      }
    } else {
      var v := Round(a, 2 * b);
      RoundIsDouble(a, 2 * b);
      RoundIsClose(a, 2 * b, TWO_52);
      RoundCancels(v, 1, 2);
    }
  }

  lemma QuotientMonotone(a: nat, b: nat, c: nat, d: nat)
    requires b > 0 && d > 0 && a * d <= c * b
    ensures a / b <= c / d
  {
    var (q, p) := (a / b, c / d);
    assert a == q * b + a % b && c == p * d + c % d;
    if q > p {
      Monotone(p + 1, q, b);
      Monotone((p + 1) * b, a, d);
      Smaller(b, c, (p + 1) * d);
      SwapFactors(p + 1, b, d);
    }
  }

  lemma SwapFactors(n: nat, b: nat, d: nat)
    ensures n * b * d == b * (n * d)
  {
  }

  lemma HalfMonotone(r: nat, b: nat, s: nat, d: nat)
    requires b > 0 && d > 0 && r * d <= s * b
    ensures 2 * s < d ==> 2 * r < b
    ensures 2 * s <= d ==> 2 * r <= b
  {
    if 2 * s <= d {
      Monotone(2 * s, d, b);
      assert 2 * s * b == 2 * (s * b) && 2 * r * d == 2 * (r * d);
      if 2 * r > b {
        Smaller(d, b, 2 * r);
      }
      if 2 * s < d && 2 * r >= b {
        Smaller(b, 2 * s, d);
        Monotone(b, 2 * r, d);
      }
    }
  }

  lemma NearestMonotone(a: nat, b: nat, c: nat, d: nat)
    requires b > 0 && d > 0 && a * d <= c * b
    ensures Nearest(a, b) <= Nearest(c, d)
  {
    QuotientMonotone(a, b, c, d);
    var q := a / b;
    if q == c / d {
      SameQuotient(q, a, b, c, d);
      HalfMonotone(a % b, b, c % d, d);
    }
  }

  lemma SameQuotient(q: nat, a: nat, b: nat, c: nat, d: nat)
    requires b > 0 && d > 0 && a / b == q == c / d && a * d <= c * b
    ensures a % b * d <= c % d * b
  {
    assert a == q * b + a % b && c == q * d + c % d;
    Fractions(q, b, a % b, d, c % d);
  }

  lemma Fractions(q: nat, b: nat, r: nat, d: nat, s: nat)
    requires (q * b + r) * d <= (q * d + s) * b
    ensures r * d <= s * b
  {
    assert (q * b + r) * d == q * b * d + r * d;
    assert (q * d + s) * b == q * d * b + s * b;
    assert q * b * d == q * d * b;
  }

  /** Rounding keeps the order. */
  lemma {:induction false} RoundIsMonotone(a: nat, b: nat, c: nat, d: nat)
    requires b > 0 && d > 0 && a * d <= c * b
    ensures Round(a, b) <= Round(c, d)
    decreases a - TWO_53 * b
  {
    if a < TWO_53 * b {
      if c < TWO_53 * d {
        NearestMonotone(a, b, c, d);
      } else {
        RoundIsClose(a, b, TWO_53);
        RoundIsClose(c, d, TWO_53);
      }
    } else {
      assert c >= TWO_53 * d by {
        Monotone(TWO_53 * b, a, d);
        SwapFactors(TWO_53, b, d);
        if c < TWO_53 * d {
          Smaller(b, c, TWO_53 * d);
        }
      }
      assert a * (2 * d) == 2 * (a * d) && c * (2 * b) == 2 * (c * b);
      RoundIsMonotone(a, 2 * b, c, 2 * d);
    }
  }

  // ---------- Decimals ----------

  /** The double nearest to `d * 10^e`, in units of `2^-bias`. */
  function RoundDecimal(d: nat, e: int, bias: nat): nat {
    if e >= 0 then
      Round(d * Pow(10, e) * Pow(2, bias), 1)
    else
      PowIsPositive(10, -e);
      Round(d * Pow(2, bias), Pow(10, -e))
  }

  lemma {:induction false} PowIsPositive(b: nat, n: nat)
    requires b > 0
    ensures Pow(b, n) > 0
  {
    if n > 0 {
      PowIsPositive(b, n - 1);
    }
  }

  lemma {:induction false} PowAdds(b: nat, m: nat, n: nat)
    ensures Pow(b, m + n) == Pow(b, m) * Pow(b, n)
  {
    if m > 0 {
      PowAdds(b, m - 1, n);
      assert b * (Pow(b, m - 1) * Pow(b, n)) == (b * Pow(b, m - 1)) * Pow(b, n);
    }
  }

  lemma {:induction false} PowOfProduct(a: nat, b: nat, n: nat)
    ensures Pow(a * b, n) == Pow(a, n) * Pow(b, n)
  {
    if n > 0 {
      PowOfProduct(a, b, n - 1);
      Pairs(a, b, Pow(a, n - 1), Pow(b, n - 1));
    }
  }

  lemma Pairs(a: nat, b: nat, x: nat, y: nat)
    ensures (a * b) * (x * y) == (a * x) * (b * y)
  {
    calc {
      (a * b) * (x * y);
      { assert (a * b) * (x * y) == ((a * b) * x) * y; }
      ((a * b) * x) * y;
      { assert (a * b) * x == (a * x) * b; }
      ((a * x) * b) * y;
      (a * x) * (b * y);
    }
  }

  /** Zeros moved between the digits and the exponent do not matter. */
  lemma DecimalShifts(d: nat, e: int, i: nat, bias: nat)
    ensures RoundDecimal(d * Pow(10, i), e - i, bias) == RoundDecimal(d, e, bias)
  {
    hide Round, Pow;
    PowIsPositive(10, i);
    var (p, b) := (Pow(10, i), Pow(2, bias));
    if e - i >= 0 {
      PowAdds(10, i, e - i);
      assert d * p * Pow(10, e - i) == d * Pow(10, e) by { assert d * p * Pow(10, e - i) == d * (p * Pow(10, e - i)); }
    } else if e >= 0 {
      PowAdds(10, e, i - e);
      var (x, y) := (Pow(10, e), Pow(10, i - e));
      PowIsPositive(10, i - e);
      assert d * p * b == y * (d * x * b) by { Rearrange(d, x, y, b); }
      RoundCancels(d * x * b, 1, y);
    } else {
      PowAdds(10, i, -e);
      PowIsPositive(10, -e);
      assert Pow(10, i - e) == p * Pow(10, -e);
      assert d * p * b == p * (d * b);
      RoundCancels(d * b, Pow(10, -e), p);
    }
  }

  lemma Rearrange(d: nat, x: nat, y: nat, b: nat)
    ensures d * (x * y) * b == y * (d * x * b)
  {
    calc {
      d * (x * y) * b;
      { assert d * (x * y) == y * (d * x); }
      y * (d * x) * b;
      y * (d * x * b);
    }
  }

  /** `u` units as a decimal with `bias` places, without any rounding. */
  lemma ExactDecimal(u: nat, bias: nat)
    ensures RoundDecimal(u * Pow(5, bias), 0 - bias, bias) == Round(u, 1)
  {
    hide Round;
    PowOfProduct(5, 2, bias);
    var (f, b) := (Pow(5, bias), Pow(2, bias));
    assert Pow(10, bias) == f * b;
    PowIsPositive(10, bias);
    assert u * f * b == (f * b) * u;
    RoundCancels(u, 1, f * b);
    if bias == 0 {
      assert f == 1 && b == 1 && Pow(10, 0) == 1;
    }
  }

  /** More digits, larger double. */
  lemma DecimalIsMonotone(d: nat, d': nat, e: int, bias: nat)
    requires d <= d'
    ensures RoundDecimal(d, e, bias) <= RoundDecimal(d', e, bias)
  {
    hide Round, Pow;
    var b := Pow(2, bias);
    if e >= 0 {
      Monotone(d, d', Pow(10, e));
      Monotone(d * Pow(10, e), d' * Pow(10, e), b);
      RoundIsMonotone(d * Pow(10, e) * b, 1, d' * Pow(10, e) * b, 1);
    } else {
      PowIsPositive(10, -e);
      Monotone(d, d', b);
      Monotone(d * b, d' * b, Pow(10, -e));
      RoundIsMonotone(d * b, Pow(10, -e), d' * b, Pow(10, -e));
    }
  }

  // ---------- The shortest digits of a double ----------

  /** The digits of `u` cut off below `10^(t - bias)`. */
  function Low(u: nat, t: nat, bias: nat): nat {
    PowIsPositive(10, t);
    u * Pow(5, bias) / Pow(10, t)
  }

  /** Digits and exponent that round to `u`, with at most `t - bias` as exponent:
      the largest exponent for which there are any, and the digits closest to
      `u`, even ones in a tie. */
  function DigitsFrom(u: nat, t: nat, bias: nat): (r: (nat, int))
    requires u > 0 && IsDouble(u)
    ensures RoundDecimal(r.0, r.1, bias) == u
    ensures 0 - bias <= r.1 <= t - bias
    decreases t
  {
    hide RoundDecimal, Round, Pow, Nearest;
    var (w, p) := (u * Pow(5, bias), Pow(10, t));
    PowIsPositive(10, t);
    ExactDecimal(u, bias);
    var low := Low(u, t, bias);
    var lowReads := RoundDecimal(low, t - bias, bias) == u;
    var highReads := RoundDecimal(low + 1, t - bias, bias) == u;
    if lowReads && (!highReads || Nearest(w, p) == low) then (low, t - bias)
    else if highReads then (low + 1, t - bias)
    else if t == 0 then (w, 0 - bias)
    else DigitsFrom(u, t - 1, bias)
  }

  function DigitCount(n: nat): nat {
    if n < 10 then 1 else 1 + DigitCount(n / 10)
  }

  /** The shortest digits of a double, and their exponent. */
  function Digits(u: nat, bias: nat): (r: (nat, int))
    requires u > 0 && IsDouble(u)
    ensures r.0 > 0 && RoundDecimal(r.0, r.1, bias) == u
  {
    var r := DigitsFrom(u, DigitCount(u * Pow(5, bias)), bias);
    ZeroRounds(r.1, bias);
    r
  }

  lemma ZeroRounds(e: int, bias: nat)
    ensures RoundDecimal(0, e, bias) == 0
  {
    hide Pow;
    if e < 0 {
      PowIsPositive(10, -e);
      NearestIs(0, Pow(10, -e), 0);
    }
  }

  /** Places beyond the last are as good as units of `10^-bias`. */
  lemma InPlaces(d: nat, t: nat, bias: nat)
    ensures RoundDecimal(d, t - bias, bias) == RoundDecimal(d * Pow(10, t), 0 - bias, bias)
  {
    hide RoundDecimal;
    DecimalShifts(d, t - bias, t, bias);
  }

  lemma NeighboursDecide(u: nat, t: nat, bias: nat, d: nat)
    requires IsDouble(u)
    requires RoundDecimal(d, t - bias, bias) == u
    ensures RoundDecimal(if d <= Low(u, t, bias) then Low(u, t, bias) else Low(u, t, bias) + 1, t - bias, bias) == u
  {
    hide RoundDecimal, Round, Pow;
    var (w, p) := (u * Pow(5, bias), Pow(10, t));
    PowIsPositive(10, t);
    var low := Low(u, t, bias);
    assert w == low * p + w % p;
    ExactDecimal(u, bias);
    InPlaces(low, t, bias);
    InPlaces(low + 1, t, bias);
    if d <= low {
      DecimalIsMonotone(d, low, t - bias, bias);
      DecimalIsMonotone(low * p, w, 0 - bias, bias);
    } else {
      DecimalIsMonotone(low + 1, d, t - bias, bias);
      assert (low + 1) * p == low * p + p;
      DecimalIsMonotone(w, (low + 1) * p, 0 - bias, bias);
    }
  }

  lemma {:induction false} NoneAbove(u: nat, t: nat, bias: nat, d: nat, e: int)
    requires u > 0 && IsDouble(u)
    requires DigitsFrom(u, t, bias).1 < e <= t - bias
    ensures RoundDecimal(d, e, bias) != u
    decreases t
  {
    hide RoundDecimal, Round, Pow, Nearest;
    PowIsPositive(10, t);
    if RoundDecimal(d, t - bias, bias) == u {
      NeighboursDecide(u, t, bias, d);
    }
    if e < t - bias {
      NoneAbove(u, t - 1, bias, d, e);
    }
  }

  lemma {:induction false} DigitCountIsEnough(n: nat)
    ensures n < Pow(10, DigitCount(n))
  {
    if n >= 10 {
      DigitCountIsEnough(n / 10);
    }
  }

  lemma DoublesDouble(u: nat)
    requires IsDouble(u)
    ensures IsDouble(2 * u)
  {
    if 2 * u < TWO_53 {
      NearestIs(2 * u, 1, 2 * u);
    } else {
      RoundCancels(u, 1, 2);
    }
  }

  /** Nothing far above `u` rounds to it. */
  lemma FarAbove(u: nat, bias: nat, n: nat)
    requires u > 0 && IsDouble(u) && n >= 2 * (u * Pow(5, bias))
    ensures RoundDecimal(n, 0 - bias, bias) > u
  {
    hide RoundDecimal, Round, Pow;
    assert 2 * (u * Pow(5, bias)) == (2 * u) * Pow(5, bias);
    DoublesDouble(u);
    ExactDecimal(2 * u, bias);
    DecimalIsMonotone((2 * u) * Pow(5, bias), n, 0 - bias, bias);
  }

  lemma NoneFarAbove(u: nat, bias: nat, d: nat, e: int)
    requires u > 0 && IsDouble(u) && d > 0 && e > DigitCount(u * Pow(5, bias)) - bias
    ensures RoundDecimal(d, e, bias) != u
  {
    hide RoundDecimal, Round, DigitsFrom, Pow;
    var w := u * Pow(5, bias);
    var (top, t) := (DigitCount(w), e + bias);
    DigitCountIsEnough(w);
    InPlaces(d, t, bias);
    PowAdds(10, top, t - top);
    PowOfTen(t - top);
    FarMore(w, Pow(10, top), Pow(10, t - top), d);
    FarAbove(u, bias, d * Pow(10, t));
  }

  lemma FarMore(w: nat, p: nat, q: nat, d: nat)
    requires w < p && q >= 10 && d > 0
    ensures d * (p * q) >= 2 * w
  {
    Monotone(10, q, p);
    Monotone(1, d, p * q);
  }

  /** No decimal with a larger exponent, hence none with fewer digits, rounds to `u`. */
  lemma DigitsAreShortest(u: nat, bias: nat, d: nat, e: int)
    requires u > 0 && IsDouble(u) && e > Digits(u, bias).1
    ensures RoundDecimal(d, e, bias) != u
  {
    hide RoundDecimal, Round, DigitsFrom, Pow;
    var w := u * Pow(5, bias);
    var top := DigitCount(w);
    if e <= top - bias {
      NoneAbove(u, top, bias, d, e);
    } else if d == 0 {
      ZeroRounds(e, bias);
    } else {
      NoneFarAbove(u, bias, d, e);
    }
  }

  // ---------- The closest digits ----------

  function Gap(a: nat, b: nat): nat {
    if a < b then b - a else a - b
  }

  /** How far the decimal `d * 10^e` is from `u` units, in units of `10^-bias`. */
  function Miss(u: nat, bias: nat, d: nat, e: int): nat {
    if e + bias < 0 then 0 else Gap(d * Pow(10, e + bias), u * Pow(5, bias))
  }

  lemma MultiplesAround(w: nat, p: nat, d: nat)
    requires p > 0
    ensures
      var low := w / p;
      && Gap((if d <= low then low else low + 1) * p, w) <= Gap(d * p, w)
      && (Nearest(w, p) == low ==> Gap(low * p, w) <= Gap((low + 1) * p, w))
      && (Nearest(w, p) != low ==> Gap((low + 1) * p, w) <= Gap(low * p, w))
  {
    var low := w / p;
    assert w == low * p + w % p && (low + 1) * p == low * p + p;
    if d <= low {
      Monotone(d, low, p);
    } else {
      Monotone(low + 1, d, p);
    }
  }

  lemma NearestIsNearest(a: nat, b: nat, v: nat)
    requires b > 0
    ensures Gap(Nearest(a, b) * b, a) <= Gap(v * b, a)
  {
    hide Gap;
    MultiplesAround(a, b, v);
    assert Nearest(a, b) == a / b || Nearest(a, b) == a / b + 1;
  }

  /** No double is closer to the fraction than the one it is rounded to. */
  lemma {:induction false} RoundIsNearest(a: nat, b: nat, v: nat)
    requires b > 0 && IsDouble(v)
    ensures Gap(Round(a, b) * b, a) <= Gap(v * b, a)
    decreases a - TWO_53 * b
  {
    hide Nearest;
    if a < TWO_53 * b {
      NearestIsNearest(a, b, v);
    } else {
      var half := if v < TWO_53 then TWO_52 else Round(v, 2);
      NearestIs(TWO_52, 1, TWO_52);
      RoundIsDouble(v, 2);
      RoundIsNearest(a, 2 * b, half);
      Doubled(Round(a, 2 * b), b);
      Doubled(half, b);
      if v < TWO_53 {
        Monotone(v, TWO_53, b);
      }
    }
  }

  lemma GapBelow(v: nat, q: nat, b: nat, a: nat)
    requires b > 0 && v < q && q * b <= a
    ensures Gap(v * b, a) >= Gap(q * b, a) + b
  {
    Monotone(v + 1, q, b);
    assert (v + 1) * b == v * b + b;
  }

  lemma GapAbove(v: nat, q: nat, b: nat, a: nat)
    requires b > 0 && v > q && q * b >= a
    ensures Gap(v * b, a) >= Gap(q * b, a) + b
  {
    Monotone(q + 1, v, b);
    assert (q + 1) * b == q * b + b;
  }

  lemma NearestTie(a: nat, b: nat, v: nat)
    requires b > 0 && v != Nearest(a, b) && Gap(v * b, a) == Gap(Nearest(a, b) * b, a)
    ensures Nearest(a, b) % 2 == 0 && (v == Nearest(a, b) + 1 || v == Nearest(a, b) - 1)
  {
    hide Gap, Nearest;
    var q := a / b;
    GapsAround(a, b);
    NearestIsNearest(a, b, q);
    NearestIsNearest(a, b, q + 1);
    if v < q {
      GapBelow(v, q, b, a);
    } else if v > q + 1 {
      GapAbove(v, q + 1, b, a);
    }
  }

  lemma GapsAround(a: nat, b: nat)
    requires b > 0
    ensures a / b * b <= a <= (a / b + 1) * b
    ensures Gap(a / b * b, a) == a % b && Gap((a / b + 1) * b, a) == b - a % b
    ensures Nearest(a, b) == a / b || Nearest(a, b) == a / b + 1
    ensures 2 * (a % b) == b ==> Nearest(a, b) % 2 == 0
  {
    var (q, r) := (a / b, a % b);
    assert a == q * b + r && (q + 1) * b == q * b + b;
  }

  /** A tie goes to the even one: another double as close as the chosen one is
      its neighbour at the same exponent, and the chosen one is the even multiple. */
  lemma {:induction false} TiesToEven(a: nat, b: nat, v: nat) returns (n: nat, k: nat)
    requires b > 0 && IsDouble(v) && v != Round(a, b) && Gap(v * b, a) == Gap(Round(a, b) * b, a)
    ensures Round(a, b) == n * Pow(2, k) && n % 2 == 0 && (v == (n + 1) * Pow(2, k) || (n > 0 && v == (n - 1) * Pow(2, k)))
    decreases a - TWO_53 * b
  {
    hide Nearest, Gap;
    if a < TWO_53 * b {
      NearestTie(a, b, v);
      n, k := Nearest(a, b), 0;
      assert Pow(2, 0) == 1;
    } else {
      if v < TWO_53 {
        GapBelow(v, TWO_53, b, a);
        WholeLimit();
        RoundIsNearest(a, b, TWO_53);
        assert false;
      }
      var half := Round(v, 2);
      RoundIsDouble(v, 2);
      Doubled(Round(a, 2 * b), b);
      Doubled(half, b);
      var j: nat;
      n, j := TiesToEven(a, 2 * b, half);
      k := j + 1;
      TwicePow(n, j);
      TwicePow(n + 1, j);
      if n > 0 {
        TwicePow(n - 1, j);
      }
    }
  }

  lemma TwicePow(n: nat, j: nat)
    ensures 2 * (n * Pow(2, j)) == n * Pow(2, j + 1)
  {
    assert Pow(2, j + 1) == 2 * Pow(2, j);
  }

  lemma WholeLimit()
    ensures IsDouble(TWO_53)
  {
    NearestIs(TWO_52, 1, TWO_52);
    DoublesDouble(TWO_52);
  }

  lemma Doubled(n: nat, b: nat)
    ensures n * (2 * b) == 2 * n * b
  {
  }

  lemma {:induction false} ChosenAreClosest(u: nat, t: nat, bias: nat, d: nat)
    requires u > 0 && IsDouble(u)
    requires RoundDecimal(d, DigitsFrom(u, t, bias).1, bias) == u
    ensures
      var (n, e) := DigitsFrom(u, t, bias);
      Miss(u, bias, n, e) <= Miss(u, bias, d, e)
    decreases t
  {
    hide RoundDecimal, Round, Pow, Nearest, Gap;
    var (w, p, e) := (u * Pow(5, bias), Pow(10, t), DigitsFrom(u, t, bias).1);
    PowIsPositive(10, t);
    var low := Low(u, t, bias);
    if RoundDecimal(low, t - bias, bias) == u || RoundDecimal(low + 1, t - bias, bias) == u {
      NeighboursDecide(u, t, bias, d);
      MultiplesAround(w, p, d);
      assert e + bias == t;
    } else if t == 0 {
      ExactIsClosest(w, d);
    } else {
      ChosenAreClosest(u, t - 1, bias, d);
    }
  }

  lemma ExactIsClosest(w: nat, d: nat)
    ensures Gap(w * Pow(10, 0), w) <= Gap(d * Pow(10, 0), w)
  {
    assert Pow(10, 0) == 1;
  }

  /** Of the digits with that exponent which round to `u`, none are closer to it. */
  lemma DigitsAreClosest(u: nat, bias: nat, d: nat)
    requires u > 0 && IsDouble(u) && RoundDecimal(d, Digits(u, bias).1, bias) == u
    ensures
      var (n, e) := Digits(u, bias);
      Miss(u, bias, n, e) <= Miss(u, bias, d, e)
  {
    hide RoundDecimal, Round, Pow, DigitsFrom, Miss;
    ChosenAreClosest(u, DigitCount(u * Pow(5, bias)), bias, d);
  }

  lemma PowOfTen(n: nat)
    requires n > 0
    ensures Pow(10, n) >= 10
  {
    PowIsPositive(10, n - 1);
  }

  /** A whole number below 2^53 is a double. */
  lemma {:induction false} WholeIsDouble(n: nat, bias: nat)
    requires n < TWO_53
    ensures RoundDecimal(n, 0, bias) == n * Pow(2, bias) && IsDouble(n * Pow(2, bias))
  {
    if bias == 0 {
      NearestIs(n, 1, n);
    } else {
      WholeIsDouble(n, bias - 1);
      DoublesDouble(n * Pow(2, bias - 1));
      assert 2 * (n * Pow(2, bias - 1)) == n * Pow(2, bias);
    }
    assert Pow(10, 0) == 1;
  }
}
