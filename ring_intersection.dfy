/** Intersection of street polylines with a ring around the rider
    (pickup_selection/geometry.go, intersectLineRing and intersectWayRing).
    The ring of r miles is an ellipse whose semi-axes are r converted to
    degrees of longitude (a) and of latitude (b) at the rider's latitude. */
module RingIntersection {
  import opened Numerics
  import opened GeoConversion

  /** Coefficients of A t^2 + B t + C = 0, whose roots are where the line
      through the segment meets the ellipse. */
  datatype Quadratic = Quadratic(A: real, B: real, C: real)

  /** The segment (x1, y1)-(x2, y2) in the unit-circle frame of the ellipse
      centred at (cx, cy) with semi-axes a and b, as a quadratic in t. */
  function SegmentQuadratic(cx: real, cy: real, a: real, b: real,
                            x1: real, y1: real, x2: real, y2: real): (q: Quadratic)
    requires a != 0.0 && b != 0.0
    ensures (x1 != x2 || y1 != y2) ==> q.A > 0.0
  {
    var X1, X2 := (x1 - cx) / a, (x2 - cx) / a;
    var Y1, Y2 := (y1 - cy) / b, (y2 - cy) / b;
    assert X1 * a == x1 - cx && X2 * a == x2 - cx;
    assert Y1 * b == y1 - cy && Y2 * b == y2 - cy;
    assert (X2 - X1) * a == x2 - x1 && (Y2 - Y1) * b == y2 - y1;
    var dX, dY := X2 - X1, Y2 - Y1;
    assert (x1 != x2 || y1 != y2) ==> Square(dX) + Square(dY) > 0.0 by {
      if x1 != x2 {
        SquarePositive(dX);
      } else if y1 != y2 {
        SquarePositive(dY);
      }
    }
    Quadratic(Square(dX) + Square(dY), 2.0 * (X1 * dX + Y1 * dY), X1 * X1 + Y1 * Y1 - 1.0)
  }

  function Discriminant(q: Quadratic): real {
    q.B * q.B - 4.0 * q.A * q.C
  }

  /** The candidate parameters, in the order they are tried: none for a
      negative discriminant, the +sqrt root then the -sqrt root for a
      positive one, the single tangent root otherwise. */
  function Roots(f: Primitives, q: Quadratic): seq<real>
    requires Sound(f) && q.A != 0.0
  {
    var d := Discriminant(q);
    if d < 0.0 then []
    else if d > 0.0 then [(-q.B + f.sqrt(d)) / (2.0 * q.A), (-q.B - f.sqrt(d)) / (2.0 * q.A)]
    else [-q.B / (2.0 * q.A)]
  }

  /** The point at parameter t on the segment from (x1, y1) to (x2, y2). */
  function PointAt(x1: real, y1: real, x2: real, y2: real, t: real): Location {
    Location((y2 - y1) * t + y1, (x2 - x1) * t + x1)
  }

  /** The points for the parameters in `ts` that lie in [0, 1], in order. */
  function OnSegment(ts: seq<real>, x1: real, y1: real, x2: real, y2: real): seq<Location>
    decreases |ts|
  {
    if |ts| == 0 then []
    else
      var t := ts[|ts| - 1];
      OnSegment(ts[..|ts| - 1], x1, y1, x2, y2)
        + (if t < 0.0 || t > 1.0 then [] else [PointAt(x1, y1, x2, y2, t)])
  }

  /** Where the segment (x1, y1)-(x2, y2) crosses the ellipse. */
  function LineRing(f: Primitives, cx: real, cy: real, a: real, b: real,
                    x1: real, y1: real, x2: real, y2: real): seq<Location>
    requires Sound(f) && a != 0.0 && b != 0.0 && (x1 != x2 || y1 != y2)
  {
    OnSegment(Roots(f, SegmentQuadratic(cx, cy, a, b, x1, y1, x2, y2)), x1, y1, x2, y2)
  }

  /** The Go code's intersectLineRing: builds the list of roots, then keeps
      the on-segment ones in a loop. */
  method IntersectLineRing(f: Primitives, cx: real, cy: real, a: real, b: real,
                           x1: real, y1: real, x2: real, y2: real) returns (solutions: seq<Location>)
    requires Sound(f) && a != 0.0 && b != 0.0 && (x1 != x2 || y1 != y2)
    ensures solutions == LineRing(f, cx, cy, a, b, x1, y1, x2, y2)
  {
    // Steps 1 and 2a: move to the ellipse's unit-circle frame and form the
    // coefficients.
    var q := SegmentQuadratic(cx, cy, a, b, x1, y1, x2, y2);
    var A, B, C := q.A, q.B, q.C;
    var D := B * B - 4.0 * A * C;
    assert D == Discriminant(q);

    var ts: seq<real> := [];
    if D < 0.0 {
      return [];
    } else if D > 0.0 {
      ts := ts + [(-B + f.sqrt(D)) / (2.0 * A), (-B - f.sqrt(D)) / (2.0 * A)];
    } else {
      ts := ts + [-B / (2.0 * A)];
    }
    assert ts == Roots(f, q);

    solutions := [];
    for i := 0 to |ts|
      invariant solutions == OnSegment(ts[..i], x1, y1, x2, y2)
    {
      assert ts[..i + 1][..i] == ts[..i];
      var t := ts[i];
      if t < 0.0 || t > 1.0 {
        continue;
      }
      solutions := solutions + [PointAt(x1, y1, x2, y2, t)];
    }
    assert ts[..|ts|] == ts;
  }

  // ----- What the intersection points are -----

  /** ((x - cx) / a)^2 + ((y - cy) / b)^2: 1 on the ellipse centred at
      (cx, cy) with semi-axes a and b, less than 1 inside it. */
  function EllipseLevel(p: Location, cx: real, cy: real, a: real, b: real): real
    requires a != 0.0 && b != 0.0
  {
    var X, Y := (p.longitude - cx) / a, (p.latitude - cy) / b;
    Square(X) + Square(Y)
  }

  /** p lies on the ellipse. */
  predicate OnEllipse(p: Location, cx: real, cy: real, a: real, b: real)
    requires a != 0.0 && b != 0.0
  {
    EllipseLevel(p, cx, cy, a, b) == 1.0
  }

  /** p lies strictly inside the ellipse. */
  predicate Inside(p: Location, cx: real, cy: real, a: real, b: real)
    requires a != 0.0 && b != 0.0
  {
    EllipseLevel(p, cx, cy, a, b) < 1.0
  }

  lemma DivideBack(u: real, v: real, a: real)
    requires a != 0.0 && u == v * a
    ensures u / a == v
  {
  }

  /** The quadratic at t measures how far PointAt(t) is off the ellipse. */
  lemma QuadraticAtPoint(cx: real, cy: real, a: real, b: real,
                         x1: real, y1: real, x2: real, y2: real, t: real)
    requires a != 0.0 && b != 0.0
    ensures var q := SegmentQuadratic(cx, cy, a, b, x1, y1, x2, y2);
      var p := PointAt(x1, y1, x2, y2, t);
      EllipseLevel(p, cx, cy, a, b) - 1.0
        == q.A * t * t + q.B * t + q.C
  {
    var X1, X2 := (x1 - cx) / a, (x2 - cx) / a;
    var Y1, Y2 := (y1 - cy) / b, (y2 - cy) / b;
    var p := PointAt(x1, y1, x2, y2, t);
    assert X1 * a == x1 - cx && X2 * a == x2 - cx;
    assert Y1 * b == y1 - cy && Y2 * b == y2 - cy;
    var X, Y := X1 + t * (X2 - X1), Y1 + t * (Y2 - Y1);
    assert p.longitude - cx == X * a;
    assert p.latitude - cy == Y * b;
    DivideBack(p.longitude - cx, X, a);
    DivideBack(p.latitude - cy, Y, b);
    QuadraticIdentity(X1, Y1, X2, Y2, t);
  }

  /** |P1 + t (P2 - P1)|^2 - 1 expanded in t. */
  lemma QuadraticIdentity(X1: real, Y1: real, X2: real, Y2: real, t: real)
    ensures Square(X1 + t * (X2 - X1)) + Square(Y1 + t * (Y2 - Y1)) - 1.0
      == (Square(X2 - X1) + Square(Y2 - Y1)) * t * t
         + 2.0 * (X1 * (X2 - X1) + Y1 * (Y2 - Y1)) * t
         + (X1 * X1 + Y1 * Y1 - 1.0)
  {
    var dX, dY := X2 - X1, Y2 - Y1;
    SquareOfSum(X1, t * dX);
    SquareOfSum(Y1, t * dY);
    SquareOfScaled(t, dX);
    SquareOfScaled(t, dY);
    assert Square(X1) == X1 * X1 && Square(Y1) == Y1 * Y1;
  }

  /** (1 - t)|P1|^2 + t|P2|^2 - |P(t)|^2 == t (1 - t) |P2 - P1|^2. */
  lemma ConvexIdentity(X1: real, Y1: real, X2: real, Y2: real, t: real)
    ensures (1.0 - t) * (Square(X1) + Square(Y1)) + t * (Square(X2) + Square(Y2))
              - (Square(X1 + t * (X2 - X1)) + Square(Y1 + t * (Y2 - Y1)))
            == t * (1.0 - t) * (Square(X2 - X1) + Square(Y2 - Y1))
  {
    var dX, dY := X2 - X1, Y2 - Y1;
    SquareOfSum(X1, t * dX);
    SquareOfSum(Y1, t * dY);
    SquareOfScaled(t, dX);
    SquareOfScaled(t, dY);
    SquareOfSum(X1, dX);
    SquareOfSum(Y1, dY);
    assert X2 == X1 + dX && Y2 == Y1 + dY;
  }

  /** A candidate root gives a point on the ellipse. */
  lemma RootOnEllipse(f: Primitives, cx: real, cy: real, a: real, b: real,
                      x1: real, y1: real, x2: real, y2: real, t: real)
    requires Sound(f) && a != 0.0 && b != 0.0 && (x1 != x2 || y1 != y2)
    requires t in Roots(f, SegmentQuadratic(cx, cy, a, b, x1, y1, x2, y2))
    ensures OnEllipse(PointAt(x1, y1, x2, y2, t), cx, cy, a, b)
  {
    RootsSolve(f, SegmentQuadratic(cx, cy, a, b, x1, y1, x2, y2), t);
    QuadraticAtPoint(cx, cy, a, b, x1, y1, x2, y2, t);
  }

  /** Every candidate parameter is a root of the quadratic. */
  lemma RootsSolve(f: Primitives, q: Quadratic, t: real)
    requires Sound(f) && q.A != 0.0
    requires t in Roots(f, q)
    ensures q.A * t * t + q.B * t + q.C == 0.0
  {
    var d := Discriminant(q);
    var s := if d > 0.0 then f.sqrt(d) else 0.0;
    assert s * s == d;
    var u := 2.0 * q.A * t + q.B;
    assert u == s || u == -s;
    assert u * u == d;
    assert 4.0 * q.A * (q.A * t * t + q.B * t + q.C) == u * u - d;
  }

  /** There are at most two intersection points, at most one when the line
      only touches the ellipse, none when it misses it; when there are two
      they come from the +sqrt root then the -sqrt root. */
  lemma LineRingCount(f: Primitives, cx: real, cy: real, a: real, b: real,
                      x1: real, y1: real, x2: real, y2: real)
    requires Sound(f) && a != 0.0 && b != 0.0 && (x1 != x2 || y1 != y2)
    ensures var q := SegmentQuadratic(cx, cy, a, b, x1, y1, x2, y2);
      var r := LineRing(f, cx, cy, a, b, x1, y1, x2, y2);
      && |r| <= 2
      && (Discriminant(q) < 0.0 ==> r == [])
      && (Discriminant(q) == 0.0 ==> |r| <= 1)
      && (|r| == 2 ==> r == [PointAt(x1, y1, x2, y2, Roots(f, q)[0]), PointAt(x1, y1, x2, y2, Roots(f, q)[1])])
  {
    var ts := Roots(f, SegmentQuadratic(cx, cy, a, b, x1, y1, x2, y2));
    OnSegmentLength(ts, x1, y1, x2, y2);
    if |ts| == 2 {
      assert ts[..1][..0] == [];
    }
  }

  lemma {:induction false} OnSegmentLength(ts: seq<real>, x1: real, y1: real, x2: real, y2: real)
    ensures |OnSegment(ts, x1, y1, x2, y2)| <= |ts|
    ensures |OnSegment(ts, x1, y1, x2, y2)| == |ts| ==>
      OnSegment(ts, x1, y1, x2, y2) == seq(|ts|, k requires 0 <= k < |ts| => PointAt(x1, y1, x2, y2, ts[k]))
    decreases |ts|
  {
    if |ts| > 0 {
      OnSegmentLength(ts[..|ts| - 1], x1, y1, x2, y2);
    }
  }

  /** Every kept point is PointAt(t) for a candidate t in [0, 1]: the ends of
      the segment are kept. */
  lemma {:induction false} OnSegmentSound(ts: seq<real>, x1: real, y1: real, x2: real, y2: real)
    ensures forall p :: p in OnSegment(ts, x1, y1, x2, y2) ==>
      exists t :: t in ts && 0.0 <= t <= 1.0 && p == PointAt(x1, y1, x2, y2, t)
    decreases |ts|
  {
    if |ts| > 0 {
      OnSegmentSound(ts[..|ts| - 1], x1, y1, x2, y2);
      forall p | p in OnSegment(ts, x1, y1, x2, y2)
        ensures exists t :: t in ts && 0.0 <= t <= 1.0 && p == PointAt(x1, y1, x2, y2, t)
      {
        if p in OnSegment(ts[..|ts| - 1], x1, y1, x2, y2) {
          var t :| t in ts[..|ts| - 1] && 0.0 <= t <= 1.0 && p == PointAt(x1, y1, x2, y2, t);
          assert t in ts;
        } else {
          assert ts[|ts| - 1] in ts;
        }
      }
    }
  }

  /** Every intersection point lies on the segment, at a parameter in
      [0, 1], and on the ellipse. */
  lemma LineRingOnSegmentAndEllipse(f: Primitives, cx: real, cy: real, a: real, b: real,
                                    x1: real, y1: real, x2: real, y2: real)
    requires Sound(f) && a != 0.0 && b != 0.0 && (x1 != x2 || y1 != y2)
    ensures forall p :: p in LineRing(f, cx, cy, a, b, x1, y1, x2, y2) ==>
      && OnEllipse(p, cx, cy, a, b)
      && exists t :: 0.0 <= t <= 1.0 && p == PointAt(x1, y1, x2, y2, t)
  {
    var q := SegmentQuadratic(cx, cy, a, b, x1, y1, x2, y2);
    var ts := Roots(f, q);
    OnSegmentSound(ts, x1, y1, x2, y2);
    forall p | p in LineRing(f, cx, cy, a, b, x1, y1, x2, y2)
      ensures OnEllipse(p, cx, cy, a, b)
    {
      var t :| t in ts && 0.0 <= t <= 1.0 && p == PointAt(x1, y1, x2, y2, t);
      RootOnEllipse(f, cx, cy, a, b, x1, y1, x2, y2, t);
    }
  }

  /** Conversely, every parameter that solves the quadratic is a candidate. */
  lemma RootsComplete(f: Primitives, q: Quadratic, t: real)
    requires Sound(f) && q.A != 0.0
    requires q.A * t * t + q.B * t + q.C == 0.0
    ensures t in Roots(f, q)
  {
    var d := Discriminant(q);
    var u := 2.0 * q.A * t + q.B;
    assert 4.0 * q.A * (q.A * t * t + q.B * t + q.C) == u * u - d;
    assert u * u == d;
    SelfProductNonnegative(u);
    if d > 0.0 {
      var s := f.sqrt(d);
      SquaresEqual(u, s);
      TangentOrSecant(q, t, u, s);
    } else {
      ProductZero(u, u);
      TangentOrSecant(q, t, u, 0.0);
    }
  }

  /** u * u == s * s gives u == s or u == -s. */
  lemma SquaresEqual(u: real, s: real)
    requires u * u == s * s
    ensures u == s || u == -s
  {
    assert (u - s) * (u + s) == u * u - s * s;
    ProductZero(u - s, u + s);
  }

  /** 2 A t + B == +-s puts t at (-B +- s) / 2A. */
  lemma TangentOrSecant(q: Quadratic, t: real, u: real, s: real)
    requires q.A != 0.0 && u == 2.0 * q.A * t + q.B && (u == s || u == -s)
    ensures u == s ==> t == (-q.B + s) / (2.0 * q.A)
    ensures u == -s ==> t == (-q.B - s) / (2.0 * q.A)
  {
  }

  lemma ProductZero(x: real, y: real)
    requires x * y == 0.0
    ensures x == 0.0 || y == 0.0
  {
    if x > 0.0 && y > 0.0 {
      MulPositive(x, y);
    } else if x < 0.0 && y < 0.0 {
      MulNegative(x, y);
    } else if x > 0.0 && y < 0.0 {
      MulPositive(x, -y);
    } else if x < 0.0 && y > 0.0 {
      MulPositive(-x, y);
    }
  }

  /** Every candidate parameter in [0, 1] is kept. */
  lemma {:induction false} OnSegmentComplete(ts: seq<real>, x1: real, y1: real, x2: real, y2: real, t: real)
    requires t in ts && 0.0 <= t <= 1.0
    ensures PointAt(x1, y1, x2, y2, t) in OnSegment(ts, x1, y1, x2, y2)
    decreases |ts|
  {
    var n := |ts| - 1;
    if ts[n] != t {
      assert t in ts[..n] by {
        var k :| 0 <= k < |ts| && ts[k] == t;
        assert ts[..n][k] == t;
      }
      OnSegmentComplete(ts[..n], x1, y1, x2, y2, t);
    }
  }

  /** Every point of the segment that lies on the ellipse is found: the
      crossings are exactly the on-segment points of the ellipse. */
  lemma LineRingComplete(f: Primitives, cx: real, cy: real, a: real, b: real,
                         x1: real, y1: real, x2: real, y2: real, t: real)
    requires Sound(f) && a != 0.0 && b != 0.0 && (x1 != x2 || y1 != y2)
    requires 0.0 <= t <= 1.0 && OnEllipse(PointAt(x1, y1, x2, y2, t), cx, cy, a, b)
    ensures PointAt(x1, y1, x2, y2, t) in LineRing(f, cx, cy, a, b, x1, y1, x2, y2)
  {
    var q := SegmentQuadratic(cx, cy, a, b, x1, y1, x2, y2);
    QuadraticAtPoint(cx, cy, a, b, x1, y1, x2, y2, t);
    RootsComplete(f, q, t);
    OnSegmentComplete(Roots(f, q), x1, y1, x2, y2, t);
  }

  lemma ConvexBelowOne(t: real, r1: real, r2: real)
    requires 0.0 <= t <= 1.0 && r1 < 1.0 && r2 < 1.0
    ensures (1.0 - t) * r1 + t * r2 < 1.0
  {
    if t <= 0.5 {
      MulPositive(1.0 - t, 1.0 - r1);
      MulNonnegative(t, 1.0 - r2);
    } else {
      MulPositive(t, 1.0 - r2);
      MulNonnegative(1.0 - t, 1.0 - r1);
    }
    assert (1.0 - t) * r1 + t * r2 == 1.0 - ((1.0 - t) * (1.0 - r1) + t * (1.0 - r2));
  }

  /** PointAt(t) in the unit-circle frame is the frame's P1 + t (P2 - P1). */
  lemma ScaledPointAt(cx: real, cy: real, a: real, b: real,
                      x1: real, y1: real, x2: real, y2: real, t: real)
    requires a != 0.0 && b != 0.0
    ensures var p := PointAt(x1, y1, x2, y2, t);
      && (p.longitude - cx) / a == (x1 - cx) / a + t * ((x2 - cx) / a - (x1 - cx) / a)
      && (p.latitude - cy) / b == (y1 - cy) / b + t * ((y2 - cy) / b - (y1 - cy) / b)
  {
    var X1, X2 := (x1 - cx) / a, (x2 - cx) / a;
    var Y1, Y2 := (y1 - cy) / b, (y2 - cy) / b;
    var p := PointAt(x1, y1, x2, y2, t);
    assert X1 * a == x1 - cx && X2 * a == x2 - cx;
    assert Y1 * b == y1 - cy && Y2 * b == y2 - cy;
    DivideBack(p.longitude - cx, X1 + t * (X2 - X1), a);
    DivideBack(p.latitude - cy, Y1 + t * (Y2 - Y1), b);
  }

  /** Between two points strictly inside the ellipse, the whole segment is
      strictly inside it. */
  lemma SegmentInside(cx: real, cy: real, a: real, b: real,
                      x1: real, y1: real, x2: real, y2: real, t: real)
    requires a != 0.0 && b != 0.0 && 0.0 <= t <= 1.0
    requires Inside(Location(y1, x1), cx, cy, a, b) && Inside(Location(y2, x2), cx, cy, a, b)
    ensures Inside(PointAt(x1, y1, x2, y2, t), cx, cy, a, b)
  {
    var X1, X2 := (x1 - cx) / a, (x2 - cx) / a;
    var Y1, Y2 := (y1 - cy) / b, (y2 - cy) / b;
    var r1, r2 := Square(X1) + Square(Y1), Square(X2) + Square(Y2);
    assert r1 < 1.0 && r2 < 1.0;
    ScaledPointAt(cx, cy, a, b, x1, y1, x2, y2, t);
    var inner := Square(X1 + t * (X2 - X1)) + Square(Y1 + t * (Y2 - Y1));
    ConvexIdentity(X1, Y1, X2, Y2, t);
    MulNonnegative(t, 1.0 - t);
    MulNonnegative(t * (1.0 - t), Square(X2 - X1) + Square(Y2 - Y1));
    assert inner <= (1.0 - t) * r1 + t * r2;
    ConvexBelowOne(t, r1, r2);
    var p := PointAt(x1, y1, x2, y2, t);
    assert (p.longitude - cx) / a == X1 + t * (X2 - X1);
    assert (p.latitude - cy) / b == Y1 + t * (Y2 - Y1);
    assert EllipseLevel(p, cx, cy, a, b) == inner;
  }

  /** A segment with both ends strictly inside the ellipse yields no points. */
  lemma LineRingInsideIsEmpty(f: Primitives, cx: real, cy: real, a: real, b: real,
                              x1: real, y1: real, x2: real, y2: real)
    requires Sound(f) && a != 0.0 && b != 0.0 && (x1 != x2 || y1 != y2)
    requires Inside(Location(y1, x1), cx, cy, a, b) && Inside(Location(y2, x2), cx, cy, a, b)
    ensures LineRing(f, cx, cy, a, b, x1, y1, x2, y2) == []
  {
    var r := LineRing(f, cx, cy, a, b, x1, y1, x2, y2);
    LineRingOnSegmentAndEllipse(f, cx, cy, a, b, x1, y1, x2, y2);
    if |r| > 0 {
      var p := r[0];
      assert p in r;
      var t :| 0.0 <= t <= 1.0 && p == PointAt(x1, y1, x2, y2, t);
      SegmentInside(cx, cy, a, b, x1, y1, x2, y2, t);
      assert false;
    }
  }

  // ----- Polylines -----

  /** No two consecutive points of the polyline coincide. */
  predicate DistinctConsecutive(way: seq<Location>) {
    forall i :: 0 <= i < |way| - 1 ==> way[i] != way[i + 1]
  }

  /** The ellipse of a ring of `radius` miles around `center`. */
  function LongitudeAxis(f: Primitives, radius: real, center: Location): real
    requires Sound(f) && ParallelRadius(f, center.latitude) != 0.0
  {
    MilesToDegLongitude(f, radius, center.latitude)
  }

  function LatitudeAxis(f: Primitives, radius: real, center: Location): real
    requires Sound(f)
  {
    MilesToDegLatitude(f, radius, center.latitude)
  }

  /** Crossings of segment way[i]-way[i+1] with the ring. */
  function SegmentRing(f: Primitives, p1: Location, p2: Location, radius: real, center: Location): seq<Location>
    requires Sound(f) && radius != 0.0 && ParallelRadius(f, center.latitude) != 0.0 && p1 != p2
  {
    LineRing(f, center.longitude, center.latitude,
             LongitudeAxis(f, radius, center), LatitudeAxis(f, radius, center),
             p1.longitude, p1.latitude, p2.longitude, p2.latitude)
  }

  /** Crossings of the whole polyline with the ring: the segments' crossings
      concatenated in order. */
  function WayRing(f: Primitives, way: seq<Location>, radius: real, center: Location): seq<Location>
    requires Sound(f) && radius != 0.0 && ParallelRadius(f, center.latitude) != 0.0
    requires DistinctConsecutive(way)
    decreases |way|
  {
    if |way| < 2 then []
    else
      var n := |way|;
      WayRing(f, way[..n - 1], radius, center) + SegmentRing(f, way[n - 2], way[n - 1], radius, center)
  }

  /** The Go code's intersectWayRing. */
  method IntersectWayRing(f: Primitives, way: seq<Location>, radius: real, center: Location)
    returns (points: seq<Location>)
    requires Sound(f) && radius != 0.0 && ParallelRadius(f, center.latitude) != 0.0
    requires DistinctConsecutive(way)
    ensures points == WayRing(f, way, radius, center)
  {
    if |way| == 0 {
      return [];
    }
    var a := MilesToDegLongitude(f, radius, center.latitude);
    var b := MilesToDegLatitude(f, radius, center.latitude);
    points := [];
    for i := 0 to |way| - 1
      invariant points == WayRing(f, way[..i + 1], radius, center)
    {
      assert way[..i + 2][..i + 1] == way[..i + 1];
      var x1 := way[i].longitude;
      var y1 := way[i].latitude;
      var x2 := way[i + 1].longitude;
      var y2 := way[i + 1].latitude;
      var solutions := IntersectLineRing(f, center.longitude, center.latitude, a, b, x1, y1, x2, y2);
      points := points + solutions;
    }
    assert way[..|way|] == way;
  }

  /** A polyline with n >= 1 points yields at most 2 (n - 1) points, and one
      with fewer than two points yields none. */
  lemma {:induction false} WayRingLength(f: Primitives, way: seq<Location>, radius: real, center: Location)
    requires Sound(f) && radius != 0.0 && ParallelRadius(f, center.latitude) != 0.0
    requires DistinctConsecutive(way)
    ensures |way| < 2 ==> WayRing(f, way, radius, center) == []
    ensures |way| >= 1 ==> |WayRing(f, way, radius, center)| <= 2 * (|way| - 1)
    decreases |way|
  {
    var n := |way|;
    if n >= 2 {
      WayRingLength(f, way[..n - 1], radius, center);
      var p1, p2 := way[n - 2], way[n - 1];
      LineRingCount(f, center.longitude, center.latitude,
                    LongitudeAxis(f, radius, center), LatitudeAxis(f, radius, center),
                    p1.longitude, p1.latitude, p2.longitude, p2.latitude);
    }
  }

  /** Every point found on a segment lies on the ring's ellipse, whose
      semi-axes are the radius in degrees of longitude and of latitude at the
      centre's latitude, and on the segment. */
  lemma SegmentRingOnRing(f: Primitives, p1: Location, p2: Location, radius: real, center: Location)
    requires Sound(f) && radius != 0.0 && ParallelRadius(f, center.latitude) != 0.0 && p1 != p2
    ensures forall p :: p in SegmentRing(f, p1, p2, radius, center) ==>
      OnRing(f, p, radius, center) && Between(p1, p2, p)
  {
    LineRingOnSegmentAndEllipse(f, center.longitude, center.latitude,
                                LongitudeAxis(f, radius, center), LatitudeAxis(f, radius, center),
                                p1.longitude, p1.latitude, p2.longitude, p2.latitude);
  }

  /** p is on the ellipse of the ring of `radius` miles around `center`. */
  predicate OnRing(f: Primitives, p: Location, radius: real, center: Location)
    requires Sound(f) && radius != 0.0 && ParallelRadius(f, center.latitude) != 0.0
  {
    OnEllipse(p, center.longitude, center.latitude,
              MilesToDegLongitude(f, radius, center.latitude), MilesToDegLatitude(f, radius, center.latitude))
  }

  /** p is on the segment from p1 to p2. */
  ghost predicate Between(p1: Location, p2: Location, p: Location) {
    exists t :: 0.0 <= t <= 1.0 && p == PointAt(p1.longitude, p1.latitude, p2.longitude, p2.latitude, t)
  }

  /** p is on segment i of the polyline. */
  ghost predicate OnWaySegment(way: seq<Location>, i: int, p: Location)
    requires 0 <= i < |way| - 1
  {
    Between(way[i], way[i + 1], p)
  }

  /** Every point found on a polyline lies on the ring's ellipse and on one
      of the polyline's segments. */
  lemma {:induction false} WayRingOnRing(f: Primitives, way: seq<Location>, radius: real, center: Location)
    requires Sound(f) && radius != 0.0 && ParallelRadius(f, center.latitude) != 0.0
    requires DistinctConsecutive(way)
    ensures forall p :: p in WayRing(f, way, radius, center) ==>
      OnRing(f, p, radius, center) && exists i :: 0 <= i < |way| - 1 && OnWaySegment(way, i, p)
    decreases |way|
  {
    var n := |way|;
    if n >= 2 {
      var front := way[..n - 1];
      WayRingOnRing(f, front, radius, center);
      SegmentRingOnRing(f, way[n - 2], way[n - 1], radius, center);
      forall p | p in WayRing(f, way, radius, center)
        ensures OnRing(f, p, radius, center) && exists i :: 0 <= i < n - 1 && OnWaySegment(way, i, p)
      {
        if p in WayRing(f, front, radius, center) {
          var i :| 0 <= i < n - 2 && OnWaySegment(front, i, p);
          assert front[i] == way[i] && front[i + 1] == way[i + 1];
          assert OnWaySegment(way, i, p);
        } else {
          assert OnWaySegment(way, n - 2, p);
        }
      }
    }
  }

  /** Every point of a segment of the polyline that lies on the ring is
      among the polyline's crossings. */
  lemma {:induction false} WayRingComplete(f: Primitives, way: seq<Location>, radius: real, center: Location, i: nat, p: Location)
    requires Sound(f) && radius != 0.0 && ParallelRadius(f, center.latitude) != 0.0
    requires DistinctConsecutive(way)
    requires i < |way| - 1 && OnWaySegment(way, i, p) && OnRing(f, p, radius, center)
    ensures p in WayRing(f, way, radius, center)
    decreases |way|
  {
    var n := |way|;
    if i < n - 2 {
      var front := way[..n - 1];
      assert front[i] == way[i] && front[i + 1] == way[i + 1];
      assert OnWaySegment(front, i, p);
      WayRingComplete(f, front, radius, center, i, p);
    } else {
      var p1, p2 := way[n - 2], way[n - 1];
      var t :| 0.0 <= t <= 1.0 && p == PointAt(p1.longitude, p1.latitude, p2.longitude, p2.latitude, t);
      LineRingComplete(f, center.longitude, center.latitude,
                       LongitudeAxis(f, radius, center), LatitudeAxis(f, radius, center),
                       p1.longitude, p1.latitude, p2.longitude, p2.latitude, t);
    }
  }

  /** The segment of pickup_selection/geometry_test.go, whose ends are both
      inside the ellipse: no crossing. */
  lemma LineRingTestSegment(f: Primitives)
    requires Sound(f)
    ensures LineRing(f, 35.23, 53.0, 532.0, 34.532, 67.46, 65.74, 27.646, 73.43) == []
  {
    LineRingInsideIsEmpty(f, 35.23, 53.0, 532.0, 34.532, 67.46, 65.74, 27.646, 73.43);
  }
}
