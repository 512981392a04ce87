/** The shaping curve that turns a normalised cumulative rank into an
    intensity: (x - x^2) * 255 / 0.25, a parabola over [0, 1] with its peak
    of 255 at x = 1/2. Evaluated over mathematical reals. */
module Hue {

  function Shape(x: real): real
  {
    (x - x * x) * 255.0 / 0.25
  }

  /** The intensity of a pixel whose cumulative rank is rank out of total
      pixels. */
  function Intensity(rank: nat, total: nat): real
    requires total > 0
  {
    Shape(rank as real / total as real)
  }

  /** Helper: real multiplication behind a function, so that facts about a
      square can be carried by congruence. */
  function Mul(a: real, b: real): real
  {
    a * b
  }

  /** Helper: the product of two positive reals is positive. */
  lemma MulPositive(a: real, b: real)
    requires a > 0.0 && b > 0.0
    ensures Mul(a, b) > 0.0
  {
  }

  /** Helper: a nonzero real has a positive square. */
  lemma SquarePositive(d: real)
    requires d != 0.0
    ensures Mul(d, d) > 0.0
  {
    if d > 0.0 {
      MulPositive(d, d);
    } else {
      assert Mul(d, d) == Mul(-d, -d);
      MulPositive(-d, -d);
    }
  }

  /** Helper: the curve in vertex form, 255 - 1020 (x - 1/2)^2. */
  lemma ShapeVertexForm(x: real, d: real)
    requires d == x - 0.5
    ensures Shape(x) == 255.0 - 1020.0 * Mul(d, d)
  {
  }

  /** On [0, 1] the curve stays within [0, 255], so the real-valued
      intensity never leaves the 8-bit range. */
  lemma ShapeBounds(x: real)
    requires 0.0 <= x <= 1.0
    ensures 0.0 <= Shape(x) <= 255.0
  {
    ShapeVertexForm(x, x - 0.5);
    if x != 0.5 {
      SquarePositive(x - 0.5);
    }
    if 0.0 < x < 1.0 {
      MulPositive(x, 1.0 - x);
    }
    assert Shape(x) == 1020.0 * Mul(x, 1.0 - x);
  }

  /** Helper: away from x = 1/2 the curve is strictly below 255. */
  lemma ShapeBelowPeak(x: real)
    requires x != 0.5
    ensures Shape(x) < 255.0
  {
    SquarePositive(x - 0.5);
    ShapeVertexForm(x, x - 0.5);
  }

  /** The curve reaches 255 exactly at x = 1/2. */
  lemma ShapePeak(x: real)
    ensures Shape(x) == 255.0 <==> x == 0.5
  {
    if x != 0.5 {
      ShapeBelowPeak(x);
    }
  }

  /** The curve is 0 exactly at x = 0 and x = 1. */
  lemma ShapeZeros(x: real)
    ensures Shape(x) == 0.0 <==> x == 0.0 || x == 1.0
  {
    assert x - x * x == x * (1.0 - x);
    if x != 0.0 && x != 1.0 {
      assert x * (1.0 - x) != 0.0;
    }
  }

  /** For a rank between 1 and the pixel count: the intensity lies in
      [0, 255], is 255 exactly when the rank is half the pixels, and is 0
      exactly when the rank is all of them. */
  lemma IntensityProperties(rank: nat, total: nat)
    requires 0 < rank <= total
    ensures 0.0 <= Intensity(rank, total) <= 255.0
    ensures Intensity(rank, total) == 255.0 <==> 2 * rank == total
    ensures Intensity(rank, total) == 0.0 <==> rank == total
  {
    var x := rank as real / total as real;
    assert x * total as real == rank as real;
    assert 0.0 < x <= 1.0 by {
      if x > 1.0 {
        assert x * total as real > total as real;
      }
    }
    ShapeBounds(x);
    ShapePeak(x);
    ShapeZeros(x);
    assert x == 0.5 <==> 2 * rank == total;
    assert x == 1.0 <==> rank == total;
  }
}
