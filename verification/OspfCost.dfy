/**
 Directional OSPF costs, frontend/src/topologyRuntime.ts. The code computes with big integers on
 the shortest decimal text of each number. It is proved against the formula over exact reals.
 */
module OspfCost {
  import opened Options
  import opened Decimals
  import opened Reals

  const MAX_COST := 65535

  /** The text of a finite number: sign, digits before and after the point, power of ten. */
  datatype Decimal = Decimal(negative: bool, whole: string, fraction: string, exponent: int)

  ghost predicate IsDecimal(d: Decimal) {
    AllDigits(d.whole) && AllDigits(d.fraction)
  }

  /** The number that the text writes: the digits behind the point count tenths, and so on, and the
      exponent moves the point. */
  ghost function Value(d: Decimal): real
    requires IsDecimal(d)
  {
    Numerator(d) as real / Denominator(d) as real
  }

  ghost function Numerator(d: Decimal): int
    requires IsDecimal(d)
  {
    var magnitude := (Natural(d.whole) * Power(|d.fraction|) + Natural(d.fraction)) * Power(if d.exponent > 0 then d.exponent else 0);
    if d.negative then -magnitude else magnitude
  }

  ghost function Denominator(d: Decimal): (r: int)
    requires IsDecimal(d)
    ensures r >= 1
  {
    Positive(Power(|d.fraction|), Power(if d.exponent < 0 then -d.exponent else 0));
    Power(|d.fraction|) * Power(if d.exponent < 0 then -d.exponent else 0)
  }

  lemma Positive(a: int, b: int)
    requires a >= 1 && b >= 1
    ensures a * b >= 1
  {
  }

  function Digits(d: Decimal): int
    requires IsDecimal(d)
  {
    var magnitude: int := Natural(d.whole + d.fraction);
    if d.negative then -magnitude else magnitude
  }

  function DecimalRatio(d: Decimal): (r: (int, int))
    requires IsDecimal(d)
    ensures r.1 >= 1
  {
    var exponent := d.exponent - |d.fraction|;
    var digits := Digits(d);
    if exponent >= 0 then (digits * Power(exponent), 1) else (digits, Power(-exponent))
  }

  /** The fraction stands for the number. */
  ghost predicate Represents(r: (int, int), v: real) {
    r.1 >= 1 && v * r.1 as real == r.0 as real
  }

  lemma CastProduct(a: int, b: int)
    ensures (a * b) as real == a as real * b as real
  {
  }

  /** Equal fractions stand for the same number. */
  lemma CrossMultiply(r: (int, int), n: int, d: int)
    requires r.1 >= 1 && d >= 1 && r.0 * d == n * r.1
    ensures Represents(r, n as real / d as real)
  {
    CastProduct(r.0, d);
    CastProduct(n, r.1);
    SolveQuotient(n as real / d as real, n as real, d as real, r.0 as real, r.1 as real);
  }

  lemma SolveQuotient(v: real, n: real, d: real, a: real, b: real)
    requires d > 0.0 && v == n / d && a * d == n * b
    ensures v * b == a
  {
    assert v * d == n;
    assert (v * b) * d == a * d;
  }

  lemma MoveFactor(m: int, p: int, q: int, r: int)
    requires r == p * q
    ensures (m * p) * q == m * r
  {
  }

  /** Splitting the power of ten between numerator and denominator does not change the fraction. */
  lemma SamePower(m: int, k: nat, e: int)
    ensures var up, down := Power(if e > 0 then e else 0), Power(k) * Power(if e < 0 then -e else 0);
            if e >= k then (m * Power(e - k)) * down == (m * up) * 1 else m * down == (m * up) * Power(k - e)
  {
    if e >= k {
      PowerAdds(e - k, k);
      MoveFactor(m, Power(e - k), Power(k), Power(e));
    } else if e >= 0 {
      PowerAdds(e, k - e);
      MoveFactor(m, Power(e), Power(k - e), Power(k));
    } else {
      PowerAdds(k, -e);
    }
  }

  /** The ratio of big integers stands for exactly the number that the text writes. */
  lemma RatioIsExact(d: Decimal)
    requires IsDecimal(d)
    ensures Represents(DecimalRatio(d), Value(d))
  {
    var k, m := |d.fraction|, Digits(d);
    NaturalOfConcat(d.whole, d.fraction);
    SamePower(m, k, d.exponent);
    SignOut(d.negative, Natural(d.whole + d.fraction), Power(if d.exponent > 0 then d.exponent else 0));
    CrossMultiply(DecimalRatio(d), Numerator(d), Denominator(d));
  }

  lemma SignOut(negative: bool, a: int, b: int)
    ensures (if negative then -a else a) * b == if negative then -(a * b) else a * b
  {
  }

  // ---- the adjusted cost -------------------------------------------------------------------------------

  /** Integer division that truncates toward zero. */
  function Truncated(a: int, b: int): int
    requires b > 0
  {
    if a >= 0 then a / b else -((-a) / b)
  }

  datatype Policy = Policy(step: Option<int>, min: Option<int>, max: Option<int>)

  /** An integer where the code tests for one; None is any other number. */
  predicate ValidPolicy(p: Policy) {
    && p.step.Some? && 1 <= p.step.value <= MAX_COST
    && p.min.Some? && p.max.Some? && 1 <= p.min.value <= p.max.value <= MAX_COST
  }

  ghost predicate ValidInputs(base: Option<int>, offset: Option<Decimal>, multiplier: Option<Decimal>, p: Policy) {
    && base.Some? && offset.Some? && multiplier.Some? && ValidPolicy(p)
    && IsDecimal(offset.value) && IsDecimal(multiplier.value) && Value(multiplier.value) > 0.0
  }

  function AdjustRatios(base: int, offset: (int, int), multiplier: (int, int), step: int, min: int, max: int): int
    requires offset.1 >= 1 && multiplier.1 >= 1 && step >= 1
  {
    var numerator := (base * offset.1 + offset.0) * multiplier.0;
    var denominator := offset.1 * multiplier.1;
    if numerator <= min * denominator then min
    else
      assert denominator * step > 0;
      var floored := Truncated(numerator, denominator * step) * step;
      if floored > max then max else if floored < min then min else floored
  }

  /** A non-finite offset or multiplier is None; the sign test of the multiplier reads its digits. */
  function AdjustOspfCost(base: Option<int>, offset: Option<Decimal>, multiplier: Option<Decimal>, p: Policy): (r: Option<int>)
    requires offset.Some? ==> IsDecimal(offset.value)
    requires multiplier.Some? ==> IsDecimal(multiplier.value)
  {
    if base.None? || offset.None? || multiplier.None? || DecimalRatio(multiplier.value).0 <= 0 || !ValidPolicy(p) then None
    else Some(AdjustRatios(base.value, DecimalRatio(offset.value), DecimalRatio(multiplier.value), p.step.value, p.min.value, p.max.value))
  }

  function Clamp(x: int, min: int, max: int): int {
    if x > max then max else if x < min then min else x
  }

  /** The cost over exact reals: scaled, rounded down to a multiple of the step, kept in bounds. */
  ghost function ExactCost(base: int, offset: real, multiplier: real, step: int, min: int, max: int): int
    requires step >= 1
  {
    Clamp(step * ((base as real + offset) * multiplier / step as real).Floor, min, max)
  }

  /** How many whole steps fit. */
  lemma FloorOfQuotient(x: real, s: real, k: int)
    requires s > 0.0 && k as real * s <= x < (k + 1) as real * s
    ensures (x / s).Floor == k
  {
    Divided(x, s);
    Scaled(k as real, x / s, s);
    Scaled((k + 1) as real, x / s, s);
    FloorIs(x / s, k);
  }

  lemma FloorIs(q: real, k: int)
    requires k as real <= q < (k + 1) as real
    ensures q.Floor == k
  {
  }

  /** The product of the sums of fractions, written with one denominator. */
  lemma RatioProduct(base: real, o: real, m: real, p: real, q: real)
    ensures (base * p + o * p) * (m * q) == ((base + o) * m) * (p * q)
  {
    assert (base * p + o * p) == (base + o) * p;
  }

  lemma NumeratorIs(base: int, offset: (int, int), multiplier: (int, int), o: real, m: real)
    requires Represents(offset, o) && Represents(multiplier, m)
    ensures offset.1 * multiplier.1 >= 1
    ensures ((base * offset.1 + offset.0) * multiplier.0) as real == ((base as real + o) * m) * (offset.1 * multiplier.1) as real
  {
    CastProduct(base * offset.1 + offset.0, multiplier.0);
    CastProduct(base, offset.1);
    CastProduct(offset.1, multiplier.1);
    RatioProduct(base as real, o, m, offset.1 as real, multiplier.1 as real);
  }

  lemma DivisionBounds(n: int, k: int)
    requires k >= 1
    ensures (n / k) * k <= n < (n / k + 1) * k
  {
  }

  /** Dividing the numerator by denominator times step counts the whole steps in the value. */
  lemma WholeSteps(n: int, d: int, x: real, step: int)
    requires d >= 1 && step >= 1 && n as real == x * d as real
    ensures d * step >= 1 && n / (d * step) == (x / step as real).Floor
  {
    var k := n / (d * step);
    DivisionBounds(n, d * step);
    assert k * (d * step) == (k * step) * d && (k + 1) * (d * step) == ((k + 1) * step) * d;
    CastProduct(k * step, d);
    CastProduct((k + 1) * step, d);
    Scaled((k * step) as real, x, d as real);
    Scaled(((k + 1) * step) as real, x, d as real);
    CastProduct(k, step);
    CastProduct(k + 1, step);
    FloorOfQuotient(x, step as real, k);
  }

  /** A value at most the minimum is at most the minimum after rounding down. */
  lemma RoundedDown(x: real, step: int, min: int)
    requires step >= 1 && x <= min as real
    ensures step * (x / step as real).Floor <= min
  {
    var q, k := x / step as real, (x / step as real).Floor;
    assert q * step as real == x;
    assert k as real * step as real <= q * step as real;
    CastProduct(k, step);
  }

  /** The integer computation gives the exact cost, whichever fractions represent the decimals. */
  lemma RatiosAreExact(base: int, offset: (int, int), multiplier: (int, int), o: real, m: real, step: int, min: int, max: int)
    requires Represents(offset, o) && Represents(multiplier, m) && step >= 1 && 1 <= min <= max
    ensures AdjustRatios(base, offset, multiplier, step, min, max) == ExactCost(base, o, m, step, min, max)
  {
    var n := (base * offset.1 + offset.0) * multiplier.0;
    var d := offset.1 * multiplier.1;
    var x := (base as real + o) * m;
    NumeratorIs(base, offset, multiplier, o, m);
    CastProduct(min, d);
    Scaled(x, min as real, d as real);
    if n <= min * d {
      RoundedDown(x, step, min);
    } else {
      WholeSteps(n, d, x, step);
      Positive(min, d);
    }
  }

  lemma MultiplierSign(d: Decimal)
    requires IsDecimal(d)
    ensures Value(d) > 0.0 <==> DecimalRatio(d).0 > 0
  {
    RatioIsExact(d);
    Scaled(Value(d), 0.0, DecimalRatio(d).1 as real);
  }

  /** Exactly the valid inputs give a cost, and it is the exact one. */
  lemma AdjustIsExact(base: Option<int>, offset: Option<Decimal>, multiplier: Option<Decimal>, p: Policy)
    requires offset.Some? ==> IsDecimal(offset.value)
    requires multiplier.Some? ==> IsDecimal(multiplier.value)
    ensures AdjustOspfCost(base, offset, multiplier, p) ==
            if ValidInputs(base, offset, multiplier, p)
            then Some(ExactCost(base.value, Value(offset.value), Value(multiplier.value), p.step.value, p.min.value, p.max.value))
            else None
  {
    if base.Some? && offset.Some? && multiplier.Some? && ValidPolicy(p) {
      MultiplierSign(multiplier.value);
      RatioIsExact(offset.value);
      RatioIsExact(multiplier.value);
      RatiosAreExact(base.value, DecimalRatio(offset.value), DecimalRatio(multiplier.value),
                     Value(offset.value), Value(multiplier.value), p.step.value, p.min.value, p.max.value);
    }
  }

  lemma StepsGrow(a: real, b: real, step: int)
    requires a <= b && step >= 1
    ensures step * (a / step as real).Floor <= step * (b / step as real).Floor
  {
    var s := step as real;
    assert (a / s) * s == a && (b / s) * s == b;
    Scaled(a / s, b / s, s);
    var j, k := (a / s).Floor, (b / s).Floor;
    assert j <= k;
  }

  /** The cost is within bounds and does not fall when the base or the offset rises. */
  lemma CostIsMonotone(base: int, offset: real, base': int, offset': real, multiplier: real, step: int, min: int, max: int)
    requires step >= 1 && min <= max && multiplier > 0.0 && base <= base' && offset <= offset'
    ensures min <= ExactCost(base, offset, multiplier, step, min, max)
            <= ExactCost(base', offset', multiplier, step, min, max) <= max
  {
    Scaled(base as real + offset, base' as real + offset', multiplier);
    StepsGrow((base as real + offset) * multiplier, (base' as real + offset') * multiplier, step);
  }

  /** One cost for each direction, each by its own offset and multiplier. */
  function DirectionalCosts(base: Option<int>, leftOffset: Option<Decimal>, rightOffset: Option<Decimal>,
                            leftMultiplier: Option<Decimal>, rightMultiplier: Option<Decimal>, p: Policy): (Option<int>, Option<int>)
    requires forall d | d in [leftOffset, rightOffset, leftMultiplier, rightMultiplier] :: d.Some? ==> IsDecimal(d.value)
  {
    (AdjustOspfCost(base, leftOffset, leftMultiplier, p), AdjustOspfCost(base, rightOffset, rightMultiplier, p))
  }

  ghost function ExactOption(base: Option<int>, offset: Option<Decimal>, multiplier: Option<Decimal>, p: Policy): Option<int>
  {
    if ValidInputs(base, offset, multiplier, p)
    then Some(ExactCost(base.value, Value(offset.value), Value(multiplier.value), p.step.value, p.min.value, p.max.value))
    else None
  }

  /** Each direction has the exact cost of its own offset and its own multiplier, or none if one of them is invalid. */
  lemma DirectionsAreExact(base: Option<int>, leftOffset: Option<Decimal>, rightOffset: Option<Decimal>,
                           leftMultiplier: Option<Decimal>, rightMultiplier: Option<Decimal>, p: Policy)
    requires forall d | d in [leftOffset, rightOffset, leftMultiplier, rightMultiplier] :: d.Some? ==> IsDecimal(d.value)
    ensures var costs := DirectionalCosts(base, leftOffset, rightOffset, leftMultiplier, rightMultiplier, p);
            && costs.0 == ExactOption(base, leftOffset, leftMultiplier, p)
            && costs.1 == ExactOption(base, rightOffset, rightMultiplier, p)
  {
    var all := [leftOffset, rightOffset, leftMultiplier, rightMultiplier];
    assert leftOffset in all && rightOffset in all && leftMultiplier in all && rightMultiplier in all;
    AdjustIsExact(base, leftOffset, leftMultiplier, p);
    AdjustIsExact(base, rightOffset, rightMultiplier, p);
  }

  /** With equal multipliers the direction with the larger offset never costs less. */
  lemma DirectionsCompare(base: Option<int>, leftOffset: Option<Decimal>, rightOffset: Option<Decimal>, multiplier: Option<Decimal>, p: Policy)
    requires forall d | d in [leftOffset, rightOffset, multiplier, multiplier] :: d.Some? ==> IsDecimal(d.value)
    requires leftOffset.Some? && rightOffset.Some? && Value(leftOffset.value) <= Value(rightOffset.value)
    ensures var costs := DirectionalCosts(base, leftOffset, rightOffset, multiplier, multiplier, p);
            (costs.0.Some? <==> costs.1.Some?) && (costs.0.Some? ==> costs.0.value <= costs.1.value)
  {
    assert leftOffset in [leftOffset, rightOffset, multiplier, multiplier];
    assert rightOffset in [leftOffset, rightOffset, multiplier, multiplier];
    assert multiplier in [leftOffset, rightOffset, multiplier, multiplier];
    AdjustIsExact(base, leftOffset, multiplier, p);
    AdjustIsExact(base, rightOffset, multiplier, p);
    if ValidInputs(base, leftOffset, multiplier, p) {
      CostIsMonotone(base.value, Value(leftOffset.value), base.value, Value(rightOffset.value), Value(multiplier.value),
                     p.step.value, p.min.value, p.max.value);
    }
  }
}
