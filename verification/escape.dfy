/** Escape-time iteration for one seed point: how many applications of the
    recurrence the orbit survives before leaving the disc of radius 2,
    capped at the iteration limit. */
module Escape {
  import opened Plane

  /** n is the escape count of seed c under cap maxIterations: every orbit
      point before step n passed the escape test, and unless the cap was
      reached the point at step n failed it. */
  ghost predicate IsEscapeCount(c: Point, maxIterations: nat, n: nat)
  {
    && n <= maxIterations
    && (forall k | 0 <= k < n :: Inside(Orbit(c, k)))
    && (n < maxIterations ==> !Inside(Orbit(c, n)))
  }

  /** At most one count meets the description. */
  lemma EscapeCountUnique(c: Point, maxIterations: nat, n1: nat, n2: nat)
    requires IsEscapeCount(c, maxIterations, n1)
    requires IsEscapeCount(c, maxIterations, n2)
    ensures n1 == n2
  {
  }

  /** Continues the count from step it, where z is the orbit point reached. */
  function CountFrom(c: Point, z: Point, it: nat, maxIterations: nat): (n: nat)
    requires it <= maxIterations
    ensures it <= n <= maxIterations
    decreases maxIterations - it
  {
    if Inside(z) && it < maxIterations then
      CountFrom(c, Step(z, c), it + 1, maxIterations)
    else
      it
  }

  /** When z is the orbit point at step it and every earlier point passed
      the escape test, continuing from there yields the escape count. */
  lemma {:induction false} CountFromIsEscapeCount(c: Point, z: Point, it: nat, maxIterations: nat)
    requires it <= maxIterations && z == Orbit(c, it)
    requires forall k | 0 <= k < it :: Inside(Orbit(c, k))
    ensures IsEscapeCount(c, maxIterations, CountFrom(c, z, it, maxIterations))
    decreases maxIterations - it
  {
    if Inside(z) && it < maxIterations {
      assert forall k | 0 <= k < it + 1 :: Inside(Orbit(c, k)) by {
        forall k | 0 <= k < it + 1
          ensures Inside(Orbit(c, k))
        {
          if k == it {
            assert Orbit(c, k) == z;
          }
        }
      }
      CountFromIsEscapeCount(c, Step(z, c), it + 1, maxIterations);
    }
  }

  /** The escape count of seed c: the number of steps of the recurrence
      started at the origin before the point leaves the disc, capped. */
  function EscapeCount(c: Point, maxIterations: nat): (n: nat)
    ensures n <= maxIterations
  {
    CountFrom(c, Origin, 0, maxIterations)
  }

  /** The escape count meets its description: every orbit point before it
      passed the escape test, and the one at it failed unless the cap was
      reached. By uniqueness it is the only count that does. */
  lemma EscapeCountCharacterized(c: Point, maxIterations: nat)
    ensures IsEscapeCount(c, maxIterations, EscapeCount(c, maxIterations))
    ensures forall n: nat | IsEscapeCount(c, maxIterations, n) :: n == EscapeCount(c, maxIterations)
  {
    CountFromIsEscapeCount(c, Origin, 0, maxIterations);
    forall n: nat | IsEscapeCount(c, maxIterations, n)
      ensures n == EscapeCount(c, maxIterations)
    {
      EscapeCountUnique(c, maxIterations, n, EscapeCount(c, maxIterations));
    }
  }

  /** The per-pixel loop of the renderer: start from the origin and apply the
      recurrence while the point passes the escape test and the counter is
      below the cap. Also returns the last orbit point computed. */
  method EscapeTime(c: Point, maxIterations: nat) returns (count: nat, last: Point)
    ensures count <= maxIterations
    ensures forall k | 0 <= k < count :: Inside(Orbit(c, k))
    ensures count < maxIterations ==> !Inside(last)
    ensures last == Orbit(c, count)
    ensures count == EscapeCount(c, maxIterations)
  {
    var current := Origin;
    count := 0;
    while Inside(current) && count < maxIterations
      invariant count <= maxIterations
      invariant current == Orbit(c, count)
      invariant forall k | 0 <= k < count :: Inside(Orbit(c, k))
      decreases maxIterations - count
    {
      current := Step(current, c);
      count := count + 1;
    }
    last := current;
    CountFromIsEscapeCount(c, Origin, 0, maxIterations);
    EscapeCountUnique(c, maxIterations, count, EscapeCount(c, maxIterations));
  }

  /** The per-pixel loop as the passes over the grid use it: only the count
      is kept. */
  method PixelCount(c: Point, maxIterations: nat) returns (count: nat)
    ensures count == EscapeCount(c, maxIterations)
  {
    var last;
    count, last := EscapeTime(c, maxIterations);
  }

  /** The seed 0 never escapes: its count is the cap itself. */
  lemma OriginNeverEscapes(maxIterations: nat)
    ensures EscapeCount(Origin, maxIterations) == maxIterations
  {
    var n := EscapeCount(Origin, maxIterations);
    EscapeCountCharacterized(Origin, maxIterations);
    if n < maxIterations {
      OrbitOfOrigin(n);
      assert false;
    }
  }

  /** The first two steps of the orbit of seed 2. */
  lemma SeedTwoOrbit()
    ensures Orbit(Point(2.0, 0.0), 1) == Point(2.0, 0.0)
    ensures Orbit(Point(2.0, 0.0), 2) == Point(6.0, 0.0)
  {
  }

  /** The escape test is inclusive at radius 2. */
  lemma SeedTwoTests()
    ensures Inside(Point(2.0, 0.0)) && !Inside(Point(6.0, 0.0))
  {
  }

  /** A seed whose orbit passes the test at steps 0 and 1 and fails it at
      step 2 has escape count 2, or the cap when that is smaller. */
  lemma EscapesAtStepTwo(c: Point, maxIterations: nat)
    requires Inside(Orbit(c, 1)) && !Inside(Orbit(c, 2))
    ensures EscapeCount(c, maxIterations) ==
            if maxIterations < 2 then maxIterations else 2
  {
    assert Orbit(c, 0) == Origin;
    var expected := if maxIterations < 2 then maxIterations else 2;
    assert forall k | 0 <= k < expected :: Inside(Orbit(c, k)) by {
      forall k | 0 <= k < expected
        ensures Inside(Orbit(c, k))
      {
        assert k == 0 || k == 1;
      }
    }
    assert IsEscapeCount(c, maxIterations, expected);
    EscapeCountCharacterized(c, maxIterations);
  }

  /** The seed 2: its orbit is 0, 2, 6, ...; the point 2 passes the test
      (4 <= 4 is inclusive) and 6 fails it, so the count is 2 whenever the
      cap allows two steps. */
  lemma SeedTwoEscapesAtTwo(maxIterations: nat)
    ensures EscapeCount(Point(2.0, 0.0), maxIterations) ==
            if maxIterations < 2 then maxIterations else 2
  {
    SeedTwoOrbit();
    SeedTwoTests();
    EscapesAtStepTwo(Point(2.0, 0.0), maxIterations);
  }
}
