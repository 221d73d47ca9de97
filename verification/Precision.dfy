/** Rates and amounts as the two factories build them, and the conversion of an amount. */
module Precision {
  import opened Wrappers
  import opened Decimals

  /** The smallest rate, in units of 10^-8. */
  const MIN_RATE: int := 1

  /** A rate is its positive number of units. */
  function CreateRate(value: real): Result<int, Error> {
    match Quantize(value)
    case Err(e) => Err(e)
    case Ok(normalized) =>
      if normalized <= 0 then Err(ValueError)
      else
        var clamped := if normalized < MIN_RATE then MIN_RATE else normalized;
        if clamped <= 0 then Err(ValueError) else Ok(clamped)
  }

  function CreateAmount(value: real): Result<int, Error> {
    match Quantize(value)
    case Err(e) => Err(e)
    case Ok(normalized) => if normalized < 0 then Err(ValueError) else Ok(normalized)
  }

  /** Amount times rate: the exact product, in units of 10^-16, rounded to 28 digits. */
  function Product(amount: nat, rate: nat): nat {
    Round28(amount * rate)
  }

  function ProductValue(product: nat): real {
    product as real / SCALE / SCALE
  }

  /** A rate is created exactly from half a unit up to the last value that quantises to 28
      digits; below, it is a value error, above, the decimal library's own error. */
  lemma CreateRateDefinedIff(value: real)
    ensures CreateRate(value).Ok? <==> HALF_UNIT <= value < (LIMIT as real - 0.5) / SCALE
    ensures CreateRate(value) == Err(ValueError) <==> -((LIMIT as real - 0.5) / SCALE) < value < HALF_UNIT
  {
    HalfUpCharacterised(value * SCALE, HalfUp(value * SCALE));
  }

  /** Amounts may be zero, and a negative value that rounds to zero is one. */
  lemma CreateAmountDefinedIff(value: real)
    ensures CreateAmount(value).Ok? <==> -HALF_UNIT < value < (LIMIT as real - 0.5) / SCALE
    ensures CreateAmount(value) == Err(ValueError) <==> -((LIMIT as real - 0.5) / SCALE) < value <= -HALF_UNIT
  {
    HalfUpCharacterised(value * SCALE, HalfUp(value * SCALE));
  }

  /** The created rate is the quantised value: the clamp to the minimum never applies. */
  lemma ClampUnreachable(value: real)
    requires CreateRate(value).Ok?
    ensures Ok(CreateRate(value).value) == Quantize(value)
    ensures 1 <= CreateRate(value).value < LIMIT
    ensures GridValue(CreateRate(value).value) - HALF_UNIT <= value <= GridValue(CreateRate(value).value) + HALF_UNIT
  {
    QuantizeLaws(value, value, 0);
  }

  /** Both stores hand the stored decimal to the factory again: nothing changes. */
  lemma RecreateRate(units: int)
    requires 1 <= units < LIMIT
    ensures CreateRate(GridValue(units)) == Ok(units)
  {
    QuantizeLaws(0.0, 0.0, units);
  }

  // ---------------------------------------------------------------- error of a conversion

  /** Half a unit in the 28th significant digit of the exact product of the rounded inputs,
      and nothing if that product fits. */
  function HalfLastDigit(exact: nat): real {
    if exact < LIMIT then 0.0 else ProductValue(Pow10(Excess(exact))) / 2.0
  }

  /** (a + p) * 10^-8 / 2 + 10^-16 / 4 */
  function InputError(a: real, p: real): real {
    (a + p) * HALF_UNIT + HALF_UNIT * HALF_UNIT
  }

  function Abs(x: real): real {
    if x < 0.0 then -x else x
  }

  lemma TimesOfNear(factor: real, x: real, y: real, h: real)
    requires 0.0 <= factor && -h <= x - y <= h
    ensures factor * y - factor * h <= factor * x <= factor * y + factor * h
  {
    assert factor * (h - (x - y)) >= 0.0;
    assert factor * (h + (x - y)) >= 0.0;
  }

  lemma AddUp(xy: real, xp: real, ap: real, xh: real, ph: real, ah: real, hh: real)
    requires xp - xh <= xy <= xp + xh
    requires ap - ph <= xp <= ap + ph
    requires xh <= ah + hh
    ensures -(ah + ph + hh) <= xy - ap <= ah + ph + hh
  {
  }

  /** What two factors that are each off by at most `h` do to a product. */
  lemma ProductOfNear(a: real, p: real, x: real, y: real, h: real)
    requires 0.0 <= p && 0.0 <= x && 0.0 <= h
    requires -h <= x - a <= h && -h <= y - p <= h
    ensures -(a * h + p * h + h * h) <= x * y - a * p <= a * h + p * h + h * h
  {
    TimesOfNear(x, y, p, h);
    TimesOfNear(p, x, a, h);
    TimesOfNear(h, x, a, h);
    AddUp(x * y, x * p, a * p, x * h, p * h, a * h, h * h);
  }

  lemma RoundingError(exact: nat)
    ensures Abs(ProductValue(Round28(exact)) - ProductValue(exact)) <= HalfLastDigit(exact)
  {
    if exact < LIMIT {
      Round28ExactIff(exact);
    } else {
      HalfEvenWithinHalf(exact, Pow10(Excess(exact)));
      assert 2 * Distance(Round28(exact), exact) <= Pow10(Excess(exact));
    }
  }

  lemma ProductOfGridValues(amount: nat, rate: nat)
    ensures ProductValue(amount * rate) == GridValue(amount) * GridValue(rate)
  {
    var x, y := amount as real, rate as real;
    assert (amount * rate) as real == x * y;
    assert x / SCALE * (y / SCALE) == x * y / SCALE / SCALE;
  }

  lemma InputsNear(a: real, p: real)
    requires CreateAmount(a).Ok? && CreateRate(p).Ok?
    ensures -HALF_UNIT <= GridValue(CreateAmount(a).value) - a <= HALF_UNIT
    ensures -HALF_UNIT <= GridValue(CreateRate(p).value) - p <= HALF_UNIT
    ensures 0.0 <= GridValue(CreateAmount(a).value) && 0.0 <= p
  {
    QuantizeLaws(a, a, 0);
    QuantizeLaws(p, p, 0);
    CreateRateDefinedIff(p);
  }

  lemma InputErrorExpanded(a: real, p: real)
    ensures InputError(a, p) == a * HALF_UNIT + p * HALF_UNIT + HALF_UNIT * HALF_UNIT
  {
  }

  lemma ExactProductError(a: real, p: real)
    requires CreateAmount(a).Ok? && CreateRate(p).Ok?
    ensures Abs(ProductValue(CreateAmount(a).value * CreateRate(p).value) - a * p) <= InputError(a, p)
  {
    InputsNear(a, p);
    InputErrorExpanded(a, p);
    ProductOfGridValues(CreateAmount(a).value, CreateRate(p).value);
    ProductOfNear(a, p, GridValue(CreateAmount(a).value), GridValue(CreateRate(p).value), HALF_UNIT);
  }

  /** The amount a caller gets for the exact amount `a` at the exact exchange price `p` is off
      by at most the two input roundings, their product, and half of its own last digit. */
  lemma ConversionError(a: real, p: real)
    requires CreateAmount(a).Ok? && CreateRate(p).Ok?
    ensures
      var amount, rate := CreateAmount(a).value, CreateRate(p).value;
      Abs(ProductValue(Product(amount, rate)) - a * p) <= InputError(a, p) + HalfLastDigit(amount * rate)
  {
    var exact := CreateAmount(a).value * CreateRate(p).value;
    ExactProductError(a, p);
    RoundingError(exact);
    Triangle(ProductValue(Round28(exact)), ProductValue(exact), a * p, HalfLastDigit(exact), InputError(a, p));
  }

  lemma Triangle(x: real, y: real, z: real, first: real, second: real)
    requires Abs(x - y) <= first && Abs(y - z) <= second
    ensures Abs(x - z) <= second + first
  {
  }

  /** The rounded inputs are multiplied exactly just when the product has no digits beyond
      the 28th; whenever it is below 10^28 units that is so. */
  lemma ConversionExactIff(amount: nat, rate: nat)
    ensures Product(amount, rate) == amount * rate <==> (amount * rate) % Pow10(Excess(amount * rate)) == 0
    ensures amount * rate < LIMIT ==> ProductValue(Product(amount, rate)) == GridValue(amount) * GridValue(rate)
  {
    Round28ExactIff(amount * rate);
    ProductOfGridValues(amount, rate);
  }

  /** A larger amount or a higher price never yields less. */
  lemma ConversionMonotone(a: real, a': real, p: real, p': real)
    requires a <= a' && p <= p'
    requires CreateAmount(a).Ok? && CreateAmount(a').Ok? && CreateRate(p).Ok? && CreateRate(p').Ok?
    ensures Product(CreateAmount(a).value, CreateRate(p).value) <= Product(CreateAmount(a').value, CreateRate(p').value)
  {
    HalfUpMonotone(a * SCALE, a' * SCALE);
    HalfUpMonotone(p * SCALE, p' * SCALE);
    var x, x', y, y' := CreateAmount(a).value, CreateAmount(a').value, CreateRate(p).value, CreateRate(p').value;
    TimesMonotone(x, x', y);
    TimesMonotone(y, y', x');
    Round28Monotone(x * y, x' * y');
  }
}
