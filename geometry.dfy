/** The movement test of the joystick: a candidate handle offset is accepted
    only when its distance from the centre of the base is strictly below
    `baseRadius - 1.2 * stickRadius`. */
module Geometry {

  /** The acceptance test `sqrt(x*x + y*y) < b - 1.2 * s`, stated exactly over
      the integers: scaled by 5 the bound is `5b - 6s`, which must be positive,
      and the squared distance scaled by 25 must lie below its square. */
  predicate Admissible(x: int, y: int, b: int, s: int): (r: bool)
    ensures r ==> 5 * b > 6 * s
  {
    5 * b - 6 * s > 0 && 25 * (x * x + y * y) < (5 * b - 6 * s) * (5 * b - 6 * s)
  }

  /** The integer test agrees with the real-valued comparison of the Euclidean
      distance `d` (any non-negative square root of `x*x + y*y`) against
      `b - 1.2 * s`. */
  lemma AdmissibleIffDistance(x: int, y: int, b: int, s: int, d: real)
    requires 0.0 <= d && d * d == (x * x + y * y) as real
    ensures Admissible(x, y, b, s) <==> d < b as real - 1.2 * s as real
  {
    var k := 5 * b - 6 * s;
    var n := x * x + y * y;
    var c := k as real;
    assert b as real - 1.2 * s as real == c / 5.0;
    assert (25 * n) as real == 25.0 * (d * d);
    assert (k * k) as real == c * c;
    if k <= 0 {
      assert !(d < c / 5.0);
    } else if d < c / 5.0 {
      var e := 5.0 * d;
      assert 0.0 <= e < c;
      assert e * e < c * c by {
        assert e * e <= e * c;
        assert e * c < c * c;
      }
      assert 25.0 * (d * d) == e * e;
    } else {
      var e := 5.0 * d;
      assert 0.0 < c <= e;
      assert c * c <= e * e by {
        assert c * c <= c * e;
        assert c * e <= e * e;
      }
      assert 25.0 * (d * d) == e * e;
    }
  }

  /** An accepted point with a non-negative stick radius lies strictly inside
      the square of side `2b` on both axes. */
  lemma AdmissibleBounds(x: int, y: int, b: int, s: int)
    requires s >= 0 && Admissible(x, y, b, s)
    ensures -b < x < b && -b < y < b
  {
    var k := 5 * b - 6 * s;
    assert 0 < k <= 5 * b;
    assert k * k <= 25 * (b * b) by {
      assert k * k <= k * (5 * b);
      assert k * (5 * b) <= (5 * b) * (5 * b);
    }
    assert x * x < b * b && y * y < b * b by {
      assert 0 <= x * x && 0 <= y * y;
    }
  }
}
