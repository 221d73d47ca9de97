/** Rounding as the decimal context of the language does it: half-up to a grid of 10^-8, and
    the product of two grid numbers rounded half-even to 28 significant digits.

    A decimal number is a real; a number on the grid is the integer number of its units. */
module Decimals {
  import opened Wrappers

  datatype Error = ValueError | InvalidOperation

  const SCALE: real := 100000000.0
  const HALF_UNIT: real := 0.000000005

  /** 10^28: a coefficient of 28 digits is below it. */
  const LIMIT: int := 10_000_000_000_000_000_000_000_000_000

  function GridValue(units: int): real {
    units as real / SCALE
  }

  /** ROUND_HALF_UP: to the nearest integer, ties away from zero. */
  function HalfUp(x: real): int {
    if x >= 0.0 then (x + 0.5).Floor else -(-x + 0.5).Floor
  }

  /** `quantize` to eight decimals; it raises when the coefficient needs more than 28 digits. */
  function Quantize(value: real): Result<int, Error> {
    var units := HalfUp(value * SCALE);
    if -LIMIT < units < LIMIT then Ok(units) else Err(InvalidOperation)
  }

  /** HalfUp(x) is the one integer within half of x, counting the tie above for x >= 0. */
  lemma HalfUpCharacterised(x: real, n: int)
    ensures x >= 0.0 ==> (HalfUp(x) == n <==> n as real - 0.5 <= x < n as real + 0.5)
    ensures x < 0.0 ==> (HalfUp(x) == n <==> n as real - 0.5 < x <= n as real + 0.5)
  {
    var f := (if x >= 0.0 then x + 0.5 else -x + 0.5).Floor;
    assert x >= 0.0 ==> f as real <= x + 0.5 < f as real + 1.0;
    assert x < 0.0 ==> f as real <= -x + 0.5 < f as real + 1.0;
  }

  lemma HalfUpMonotone(x: real, y: real)
    requires x <= y
    ensures HalfUp(x) <= HalfUp(y)
  {
    HalfUpCharacterised(x, HalfUp(x));
    HalfUpCharacterised(y, HalfUp(y));
  }

  lemma HalfUpOfInteger(n: int)
    ensures HalfUp(n as real) == n
  {
    HalfUpCharacterised(n as real, n);
  }

  /** What quantising promises: a grid value within half a unit, never reversing an order,
      and leaving grid values alone. */
  lemma QuantizeLaws(v: real, w: real, units: int)
    ensures Quantize(v).Ok? ==>
              GridValue(Quantize(v).value) - HALF_UNIT <= v <= GridValue(Quantize(v).value) + HALF_UNIT
    ensures v <= w && Quantize(v).Ok? && Quantize(w).Ok? ==> Quantize(v).value <= Quantize(w).value
    ensures -LIMIT < units < LIMIT ==> Quantize(GridValue(units)) == Ok(units)
  {
    HalfUpCharacterised(v * SCALE, HalfUp(v * SCALE));
    if v <= w {
      HalfUpMonotone(v * SCALE, w * SCALE);
    }
    assert GridValue(units) * SCALE == units as real;
    HalfUpOfInteger(units);
  }

  // ---------------------------------------------------------------- 28 significant digits

  function Pow10(k: nat): nat
    ensures Pow10(k) >= 1
  {
    if k == 0 then 1 else 10 * Pow10(k - 1)
  }

  /** How many trailing digits of `n` do not fit into 28 significant ones. */
  function Excess(n: nat): nat {
    if n < LIMIT then 0 else Excess(n / 10) + 1
  }

  /** ROUND_HALF_EVEN of n / unit. */
  function HalfEven(n: nat, unit: nat): nat
    requires unit >= 1
  {
    var q, r := n / unit, n % unit;
    if 2 * r > unit || (2 * r == unit && q % 2 == 1) then q + 1 else q
  }

  function Scaled(m: nat, k: nat): nat {
    m * Pow10(k)
  }

  function Round28(n: nat): nat {
    Scaled(HalfEven(n, Pow10(Excess(n))), Excess(n))
  }

  /** Numbers with at most 28 significant digits. */
  ghost predicate Representable(y: nat) {
    exists m: nat, k: nat :: m < Pow10(28) && y == Scaled(m, k)
  }

  lemma LimitIsPower()
    ensures LIMIT == Pow10(28) && SCALE == Pow10(8) as real && HALF_UNIT * SCALE == 0.5
  {
    assert Pow10(4) == 10_000;
    assert Pow10(8) == 100_000_000;
    assert Pow10(12) == 1_000_000_000_000;
    assert Pow10(16) == 10_000_000_000_000_000;
    assert Pow10(20) == 100_000_000_000_000_000_000;
    assert Pow10(24) == 1_000_000_000_000_000_000_000_000;
  }

  lemma {:induction false} ExcessBounds(n: nat)
    ensures n < LIMIT * Pow10(Excess(n))
    ensures Excess(n) > 0 ==> LIMIT * Pow10(Excess(n) - 1) <= n
  {
    if n >= LIMIT {
      ExcessBounds(n / 10);
    }
  }

  lemma {:induction false} Pow10Monotone(j: nat, k: nat)
    requires j <= k
    ensures Pow10(j) <= Pow10(k)
  {
    if j < k {
      Pow10Monotone(j, k - 1);
    }
  }

  lemma {:induction false} Pow10Divides(j: nat, k: nat) returns (factor: nat)
    requires j <= k
    ensures Pow10(k) == factor * Pow10(j)
  {
    if j == k {
      factor := 1;
    } else {
      var f := Pow10Divides(j, k - 1);
      factor := 10 * f;
    }
  }

  lemma {:induction false} ExcessMonotone(m: nat, n: nat)
    requires m <= n
    ensures Excess(m) <= Excess(n)
  {
    if m >= LIMIT {
      ExcessMonotone(m / 10, n / 10);
    }
  }

  lemma TimesMonotone(a: nat, b: nat, x: nat)
    requires a <= b
    ensures a * x <= b * x
  {
  }

  lemma QuotientBelow(n: nat, unit: nat, bound: nat)
    requires unit >= 1 && n < bound * unit
    ensures n / unit < bound
  {
    if n / unit >= bound {
      TimesMonotone(bound, n / unit, unit);
    }
  }

  lemma QuotientAtLeast(n: nat, unit: nat, bound: nat)
    requires unit >= 1 && bound * unit <= n
    ensures bound <= n / unit
  {
    if n / unit + 1 <= bound {
      TimesMonotone(n / unit + 1, bound, unit);
    }
  }

  /** The integer quotient has at most 28 digits, and no fewer than 28 when digits are cut. */
  lemma QuotientDigits(n: nat)
    ensures n / Pow10(Excess(n)) < LIMIT
    ensures Excess(n) > 0 ==> LIMIT / 10 <= n / Pow10(Excess(n))
  {
    var e := Excess(n);
    ExcessBounds(n);
    QuotientBelow(n, Pow10(e), LIMIT);
    if e > 0 {
      assert LIMIT * Pow10(e - 1) == LIMIT / 10 * Pow10(e);
      QuotientAtLeast(n, Pow10(e), LIMIT / 10);
    }
  }

  lemma NextPower(e: nat)
    ensures Scaled(LIMIT, e) == Scaled(LIMIT / 10, e + 1)
  {
  }

  lemma Round28Representable(n: nat)
    ensures Representable(Round28(n))
  {
    var e := Excess(n);
    QuotientDigits(n);
    LimitIsPower();
    var m := HalfEven(n, Pow10(e));
    if m == LIMIT {
      NextPower(e);
      assert Round28(n) == Scaled(LIMIT / 10, e + 1);
    } else {
      assert Round28(n) == Scaled(m, e);
    }
  }

  lemma NextMultiple(q: nat, unit: nat)
    ensures (q + 1) * unit == q * unit + unit
  {
  }

  /** The error of HalfEven: the nearer of the remainder and what it lacks to the next multiple. */
  lemma HalfEvenError(n: nat, unit: nat)
    requires unit >= 1
    ensures n == n / unit * unit + n % unit
    ensures Distance(HalfEven(n, unit) * unit, n) == if 2 * (n % unit) <= unit then n % unit else unit - n % unit
  {
    NextMultiple(n / unit, unit);
  }

  lemma HalfEvenWithinHalf(n: nat, unit: nat)
    requires unit >= 1
    ensures 2 * Distance(HalfEven(n, unit) * unit, n) <= unit
    ensures Distance(HalfEven(n, unit) * unit, n) <= n - n / unit * unit
  {
    HalfEvenError(n, unit);
  }

  /** Every multiple of the unit lies at or below the quotient's or at or above the next one. */
  lemma MultipleOutside(n: nat, unit: nat, m: nat)
    requires unit >= 1
    ensures m * unit <= n / unit * unit || n / unit * unit + unit <= m * unit
  {
    if m <= n / unit {
      TimesMonotone(m, n / unit, unit);
    } else {
      TimesMonotone(n / unit + 1, m, unit);
      NextMultiple(n / unit, unit);
    }
  }

  /** HalfEven picks the nearer of the two neighbouring multiples of the unit. */
  lemma HalfEvenNearest(n: nat, unit: nat, m: nat)
    requires unit >= 1
    ensures Distance(HalfEven(n, unit) * unit, n) <= Distance(m * unit, n)
  {
    HalfEvenError(n, unit);
    MultipleOutside(n, unit, m);
  }

  function Distance(a: int, b: int): nat {
    if a <= b then b - a else a - b
  }

  /** Round28 is correct rounding: no number of at most 28 significant digits is nearer. */
  lemma Round28Nearest(n: nat, m: nat, k: nat)
    requires m < LIMIT
    ensures Distance(Round28(n), n) <= Distance(Scaled(m, k), n)
  {
    if Excess(n) <= k {
      NearestOfCoarser(n, m, k);
    } else {
      NearestOfFiner(n, m, k);
    }
  }

  lemma NearestOfCoarser(n: nat, m: nat, k: nat)
    requires Excess(n) <= k
    ensures Distance(Round28(n), n) <= Distance(Scaled(m, k), n)
  {
    var unit := Pow10(Excess(n));
    var factor := Pow10Divides(Excess(n), k);
    Reassociate(m, factor, unit);
    HalfEvenNearest(n, unit, m * factor);
  }

  lemma NearestOfFiner(n: nat, m: nat, k: nat)
    requires m < LIMIT && k < Excess(n)
    ensures Distance(Round28(n), n) <= Distance(Scaled(m, k), n)
  {
    HalfEvenWithinHalf(n, Pow10(Excess(n)));
    ShortIsBelow(n, m, k);
  }

  lemma Reassociate(a: nat, b: nat, c: nat)
    ensures a * (b * c) == (a * b) * c
  {
  }

  /** A product exactly half way between two neighbours goes to the one with the even digit. */
  lemma Round28TiesToEven(n: nat)
    requires 2 * Distance(Round28(n), n) == Pow10(Excess(n))
    ensures exists m: nat :: m % 2 == 0 && Round28(n) == Scaled(m, Excess(n))
  {
    HalfEvenTie(n, Pow10(Excess(n)));
    assert Round28(n) == Scaled(HalfEven(n, Pow10(Excess(n))), Excess(n));
  }

  lemma HalfEvenTie(n: nat, unit: nat)
    requires unit >= 1 && 2 * Distance(HalfEven(n, unit) * unit, n) == unit
    ensures HalfEven(n, unit) % 2 == 0
  {
    var q, r := n / unit, n % unit;
    assert n == q * unit + r;
    assert (q + 1) * unit == q * unit + unit;
  }

  /** A number whose unit is finer than that of the rounding lies below its lower neighbour. */
  lemma ShortIsBelow(n: nat, m: nat, k: nat)
    requires m < LIMIT && k < Excess(n)
    ensures Scaled(m, k) <= n / Pow10(Excess(n)) * Pow10(Excess(n)) <= n
  {
    var e := Excess(n);
    QuotientDigits(n);
    Pow10Monotone(k, e - 1);
    AcrossUnits(m, n / Pow10(e), Pow10(k), Pow10(e - 1));
  }

  lemma AcrossUnits(a: nat, b: nat, small: nat, large: nat)
    requires a <= LIMIT && LIMIT / 10 <= b && small <= large
    ensures a * small <= b * (10 * large)
  {
    TimesMonotone(a, LIMIT, small);
    TimesMonotone(LIMIT / 10, b, 10 * large);
  }

  lemma Round28Monotone(m: nat, n: nat)
    requires m <= n
    ensures Round28(m) <= Round28(n)
  {
    ExcessMonotone(m, n);
    if Excess(m) == Excess(n) {
      var unit := Pow10(Excess(n));
      HalfEvenMonotone(m, n, unit);
      TimesMonotone(HalfEven(m, unit), HalfEven(n, unit), unit);
    } else {
      Crossing(m, n);
    }
  }

  lemma QuotientMonotone(m: nat, n: nat, unit: nat)
    requires unit >= 1 && m <= n
    ensures m / unit <= n / unit
  {
    if n / unit + 1 <= m / unit {
      TimesMonotone(n / unit + 1, m / unit, unit);
    }
  }

  lemma HalfEvenMonotone(m: nat, n: nat, unit: nat)
    requires unit >= 1 && m <= n
    ensures HalfEven(m, unit) <= HalfEven(n, unit)
  {
    QuotientMonotone(m, n, unit);
    assert m == m / unit * unit + m % unit;
    assert n == n / unit * unit + n % unit;
  }

  lemma Crossing(m: nat, n: nat)
    requires Excess(m) < Excess(n)
    ensures Round28(m) <= Round28(n)
  {
    var e, e' := Excess(m), Excess(n);
    QuotientDigits(m);
    QuotientDigits(n);
    Pow10Monotone(e, e' - 1);
    AcrossUnits(HalfEven(m, Pow10(e)),
                HalfEven(n, Pow10(e')), Pow10(e), Pow10(e' - 1));
  }

  /** Nothing is lost exactly when the digits beyond the 28th are all zero. */
  lemma Round28ExactIff(n: nat)
    ensures Round28(n) == n <==> n % Pow10(Excess(n)) == 0
    ensures n < LIMIT ==> Round28(n) == n
  {
    HalfEvenExactIff(n, Pow10(Excess(n)));
  }

  lemma HalfEvenExactIff(n: nat, unit: nat)
    requires unit >= 1
    ensures HalfEven(n, unit) * unit == n <==> n % unit == 0
  {
    var q, r := n / unit, n % unit;
    assert n == q * unit + r;
    if HalfEven(n, unit) == q + 1 {
      assert (q + 1) * unit == q * unit + unit;
    }
  }
}
