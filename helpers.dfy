/**
  The scalar helpers of the fireworks demo: `random(min, max)` and
  `calculateDistance`, and the sources of values the model leaves abstract.

  `Math.random()` and the cosine and sine of an angle are not computed
  here: `MathRandom` and `Heading` return an arbitrary value in the range
  the real functions guarantee, which is how randomness and trigonometry
  enter the model as nondeterministic inputs.
*/
module Helpers {

  predicate UnitInterval(u: real) { 0.0 <= u < 1.0 }

  predicate Direction(c: real, s: real) { -1.0 <= c <= 1.0 && -1.0 <= s <= 1.0 }

  /** `Math.random()`: some value in [0, 1). */
  method MathRandom() returns (u: real)
    ensures 0.0 <= u < 1.0
  {
    assert UnitInterval(0.0);
    u :| UnitInterval(u);
    assert UnitInterval(u);
  }

  /** The cosine and sine of an angle the model does not compute: each in [-1, 1]. */
  method Heading() returns (c: real, s: real)
    ensures -1.0 <= c <= 1.0 && -1.0 <= s <= 1.0
  {
    assert Direction(1.0, 0.0);
    c, s :| Direction(c, s);
    assert Direction(c, s);
  }

  /**
    `random(min, max)` is `Math.random() * (max - min) + min`; `u` is the
    value `Math.random()` returned. The result lies in [min, max), and is
    `min` itself when the range is empty.
  */
  function Random(u: real, min: real, max: real): (r: real)
    requires 0.0 <= u < 1.0 && min <= max
    ensures min <= r <= max
    ensures min < max ==> r < max
    ensures min == max ==> r == min
  {
    Scaled(u, max - min) + min
  }

  /** `Math.random() * span`: a value in [0, span], below `span` unless it is 0. */
  function Scaled(u: real, span: real): (s: real)
    requires 0.0 <= u < 1.0 && span >= 0.0
    ensures 0.0 <= s <= span
    ensures span > 0.0 ==> s < span
  {
    RandomBelowMax(u, span);
    u * span
  }

  /**
    The product `a * b` of two state variables. Velocities and speeds are
    written with it so that two products agree whenever their operands do,
    without the prover having to multiply anything out.
  */
  function Product(a: real, b: real): real
  {
    a * b
  }

  /**
    `calculateDistance` returns the square root of this value. The model
    keeps distances squared: `SquaresPreserveOrder` shows that comparing two
    distances and comparing their squares always give the same answer.
  */
  function DistanceSquared(p1x: real, p1y: real, p2x: real, p2y: real): (d: real)
    ensures d >= 0.0
  {
    var dx := p1x - p2x;
    var dy := p1y - p2y;
    dx * dx + dy * dy
  }

  lemma RandomBelowMax(u: real, span: real)
    requires 0.0 <= u < 1.0 && span >= 0.0
    ensures 0.0 <= u * span <= span
    ensures span > 0.0 ==> u * span < span
  {
    assert span - u * span == (1.0 - u) * span;
    if span > 0.0 {
      PositiveProduct(1.0 - u, span);
      if u > 0.0 {
        PositiveProduct(u, span);
      }
    }
  }

  lemma PositiveProduct(a: real, b: real)
    requires a > 0.0 && b > 0.0
    ensures a * b > 0.0
  {
  }

  /** For non-negative reals, a >= b exactly when a*a >= b*b. */
  lemma SquaresPreserveOrder(a: real, b: real)
    requires a >= 0.0 && b >= 0.0
    ensures a >= b <==> a * a >= b * b
  {
    if a >= b {
      assert a * a - b * b == (a - b) * (a + b);
      assert (a - b) * (a + b) >= 0.0;
    } else {
      assert b * b - a * a == (b - a) * (b + a);
      PositiveProduct(b - a, b + a);
    }
  }
}
