/** The floating-point primitives of Go's math package that the pickup-point
    logic calls. Their values are not computed here: a `Primitives` record is
    passed in, and `Sound` lists the only facts about them the proofs use. */
module Numerics {

  /** Go's math.Pi, as the float64 constant it rounds to. */
  const Pi: real := 3.141592653589793

  /** math.Sin, math.Cos, math.Pow, math.Sqrt and math.Atan2. */
  datatype Primitives = Primitives(
    sin: real -> real,
    cos: real -> real,
    pow: (real, real) -> real,
    sqrt: real -> real,
    atan2: (real, real) -> real)

  /** What the model relies on: sine is bounded, cosine is positive strictly
      between -pi/2 and pi/2, a positive base has a positive power, the square
      root is a non-negative root, and atan2 lies in [-pi, pi]. */
  ghost predicate Sound(f: Primitives) {
    && (forall x :: -1.0 <= f.sin(x) <= 1.0)
    && (forall x :: -Pi / 2.0 < x < Pi / 2.0 ==> f.cos(x) > 0.0)
    && (forall x, y :: x > 0.0 ==> f.pow(x, y) > 0.0)
    && (forall x :: x >= 0.0 ==> f.sqrt(x) >= 0.0 && f.sqrt(x) * f.sqrt(x) == x)
    && (forall y, x :: -Pi <= f.atan2(y, x) <= Pi)
  }

  /** math.Pow(x, 2.0). */
  function Square(x: real): (s: real)
    ensures s >= 0.0
  {
    SelfProductNonnegative(x);
    Product(x, x)
  }

  function Product(x: real, y: real): real {
    x * y
  }

  lemma SelfProductNonnegative(x: real)
    ensures Product(x, x) >= 0.0
  {
    if x < 0.0 {
      MulNegative(x, x);
    }
  }

  lemma SquarePositive(x: real)
    requires x != 0.0
    ensures Square(x) > 0.0
  {
    if x > 0.0 {
      MulPositive(x, x);
    } else {
      MulNegative(x, x);
    }
  }

  lemma SquareOfSum(u: real, v: real)
    ensures Square(u + v) == Square(u) + 2.0 * u * v + Square(v)
  {
  }

  lemma SquareOfScaled(t: real, d: real)
    ensures Square(t * d) == t * t * Square(d)
  {
  }

  lemma MulPositive(x: real, y: real)
    requires x > 0.0 && y > 0.0
    ensures Product(x, y) > 0.0
  {
  }

  lemma MulNegative(x: real, y: real)
    requires x < 0.0 && y < 0.0
    ensures Product(x, y) > 0.0
  {
  }

  lemma MulNonnegative(x: real, y: real)
    requires x >= 0.0 && y >= 0.0
    ensures Product(x, y) >= 0.0
  {
  }
}
