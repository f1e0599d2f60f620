// Exact model of the money arithmetic of packages/shared/src/integrations.ts.
//
// A JavaScript number is a `real`. A stored amount such as "12.34" is the integer number of cents it
// denotes, so `toFixed(2)` produces cents and `parseFloat` turns cents back into a number of euros.
module Money {

  /** The number of euros denoted by a stored amount. */
  function Euros(cents: int): real {
    cents as real / 100.0
  }

  /** The nearest number of cents, ties upwards, as Math.round rounds. */
  function Cents(x: real): int {
    (x * 100.0 + 0.5).Floor
  }

  function Round2(x: real): real {
    Euros(Cents(x))
  }

  /** `x.toFixed(2)`: nearest cent, ties away from zero. */
  function ToFixed2(x: real): int {
    if x < 0.0 then -Cents(-x) else Cents(x)
  }

  function Max(a: real, b: real): real {
    if a < b then b else a
  }

  function Abs(x: real): (r: real)
    ensures 0.0 <= r && (r == x || r == -x)
  {
    if x < 0.0 then -x else x
  }

  predicate WholeCents(x: real) {
    x == Round2(x)
  }

  lemma CentsOfEuros(c: int)
    ensures Cents(Euros(c)) == c
    ensures WholeCents(Euros(c))
    ensures ToFixed2(Euros(c)) == c
  {
  }

  /** Rounding to the nearest cent is off by at most half a cent, and by exactly half only upwards. */
  lemma Round2Error(x: real)
    ensures -0.005 < Round2(x) - x <= 0.005
    ensures Near(Round2(x), x, 0.005)
  {
  }

  lemma Round2Monotone(x: real, y: real)
    requires x <= y
    ensures Cents(x) <= Cents(y)
    ensures Round2(x) <= Round2(y)
  {
  }

  /** A whole number of cents passes through rounding. */
  lemma CentsShift(x: real, c: int)
    ensures Cents(x - Euros(c)) == Cents(x) - c
    ensures Cents(x + Euros(c)) == Cents(x) + c
  {
  }

  /** a and b are at most e apart. */
  predicate Near(a: real, b: real, e: real) {
    b - e <= a <= b + e
  }

  /** The product, named so that a proof can carry it around as a unit. */
  function Times(a: real, b: real): real {
    a * b
  }

  lemma QuotientTimes(a: real, b: real)
    requires 0.0 <= a && 0.0 < b
    ensures Times(a / b, b) == a && a / b >= 0.0
  {
  }

  lemma AbsProduct(a: real, b: real)
    ensures Abs(Times(a, b)) == Times(Abs(a), Abs(b))
  {
  }

  lemma ProductMonotone(a: real, b: real, c: real)
    requires a <= b && 0.0 <= c
    ensures Times(a, c) <= Times(b, c)
  {
  }

  lemma ProductCommutes(a: real, b: real)
    ensures Times(a, b) == Times(b, a)
  {
  }

  lemma ProductSign(a: real, b: real)
    requires b > 0.0
    ensures a > 0.0 <==> Times(a, b) > 0.0
  {
  }

  lemma ProductDistributes(a: real, b: real, c: real)
    ensures Times(a - b, c) == Times(a, c) - Times(b, c)
  {
  }

  lemma NearTimes(y: real, x: real, weight: real, e: real)
    requires Near(y, x, e)
    ensures Near(Times(y, weight), Times(x, weight), Times(e, Abs(weight)))
  {
    hide Times;
    AbsProduct(y - x, weight);
    ProductMonotone(Abs(y - x), e, Abs(weight));
    ProductDistributes(y, x, weight);
  }

  /** Rounding one factor of a product. */
  lemma RoundedFactorDrift(x: real, weight: real)
    ensures Near(Times(Round2(x), weight), Times(x, weight), 0.005 * Abs(weight))
  {
    Round2Error(x);
    NearTimes(Round2(x), x, weight, 0.005);
  }
}
