/** Points of the complex plane and the Mandelbrot recurrence z <- z^2 + c.
    Coordinates are idealised as mathematical reals (the renderer uses
    IEEE-754 doubles). */
module Plane {

  /** A point of the complex plane: x is the real part, y the imaginary part. */
  datatype Point = Point(x: real, y: real)

  const Origin: Point := Point(0.0, 0.0)

  /** Squared distance from the origin. */
  function MagnitudeSquared(p: Point): real
  {
    p.x * p.x + p.y * p.y
  }

  /** The escape test: the point lies within the closed disc of radius 2. */
  predicate Inside(p: Point)
  {
    MagnitudeSquared(p) <= 4.0
  }

  /** One application of the recurrence z' = z^2 + c, written out on the
      real and imaginary parts. */
  function Step(z: Point, c: Point): Point
  {
    Point(z.x * z.x - z.y * z.y + c.x, 2.0 * z.x * z.y + c.y)
  }

  /** The orbit of seed c: the point reached after n applications of the
      recurrence, starting from the origin. */
  function Orbit(c: Point, n: nat): Point
  {
    if n == 0 then Origin else Step(Orbit(c, n - 1), c)
  }

  /** The seed 0 is a fixed point of its own recurrence: 0^2 + 0 = 0. */
  lemma {:induction false} OrbitOfOrigin(n: nat)
    ensures Orbit(Origin, n) == Origin
  {
    if n > 0 {
      OrbitOfOrigin(n - 1);
    }
  }
}
