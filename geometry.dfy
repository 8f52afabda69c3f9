/** Points of the complex plane and the distance test used to pick them.

    The editor compares points by their Euclidean distance, |a - b| < 0.1.
    Over exact reals the model compares squared distances with 0.1 * 0.1
    instead, which needs no square root; the lemmas at the end of this module
    show that both comparisons give the same answers. */
module Geometry {

  /** A complex number re + im·j, one pole or one zero. */
  datatype Point = Point(re: real, im: real)

  /** The pick radius, 0.1 plane units. */
  const PickRadius: real := 0.1

  /** The square of the pick radius. */
  const PickRadiusSquared: real := PickRadius * PickRadius

  /** The square of the Euclidean distance between a and b. */
  function DistSq(a: Point, b: Point): (d: real)
    ensures d >= 0.0
  {
    var dx, dy := a.re - b.re, a.im - b.im;
    SquareNonNegative(dx);
    SquareNonNegative(dy);
    dx * dx + dy * dy
  }

  /** a lies strictly inside the pick radius around b. */
  predicate Within(a: Point, b: Point) {
    DistSq(a, b) < PickRadiusSquared
  }

  lemma SquareNonNegative(x: real)
    ensures x * x >= 0.0
  {
  }

  /** Squaring is strictly monotone on the non-negative reals. */
  lemma SquareMonotone(a: real, b: real)
    requires 0.0 <= a && 0.0 <= b
    ensures a < b <==> a * a < b * b
  {
    var aa, ab, bb := a * a, a * b, b * b;
    if a < b {
      assert aa <= ab;
      assert ab < bb;
    } else {
      assert bb <= ab;
      assert ab <= aa;
    }
  }

  /** The distance is symmetric, as |a - b| is. */
  lemma DistSqSymmetric(a: Point, b: Point)
    ensures DistSq(a, b) == DistSq(b, a)
  {
  }

  /** For the Euclidean distance d of a and b (the non-negative d with
      d * d == DistSq(a, b)), the editor's test d < 0.1 picks exactly the
      points that Within picks. */
  lemma WithinIsPickTest(a: Point, b: Point, d: real)
    requires d >= 0.0 && d * d == DistSq(a, b)
    ensures d < PickRadius <==> Within(a, b)
  {
    SquareMonotone(d, PickRadius);
  }

  /** Comparing Euclidean distances to a common point p gives the same order
      as comparing squared distances, so a minimum over one is a minimum over
      the other, and ties fall on the same indices. */
  lemma DistanceOrder(a: Point, b: Point, p: Point, da: real, db: real)
    requires da >= 0.0 && da * da == DistSq(a, p)
    requires db >= 0.0 && db * db == DistSq(b, p)
    ensures da < db <==> DistSq(a, p) < DistSq(b, p)
    ensures da == db <==> DistSq(a, p) == DistSq(b, p)
  {
    SquareMonotone(da, db);
    SquareMonotone(db, da);
  }
}
