/** Mile-to-degree conversion on the WGS84 ellipsoid and the user's bounding
    box (pickup_selection/location.go). */
module GeoConversion {
  import opened Numerics

  /** A point in decimal degrees. */
  datatype Location = Location(latitude: real, longitude: real)

  /** An axis-aligned box in degrees, in the order the Go code returns it. */
  datatype Box = Box(left: real, bottom: real, right: real, top: real)

  /** WGS84 semi-major axis in miles, and eccentricity. */
  const GisA: real := 3963.190592
  const GisE: real := 0.081819191

  function Radians(latitude: real): real {
    latitude * (Pi / 180.0)
  }

  /** 1 - (e sin phi)^2, the term both radii of curvature are built from. */
  function EllipsoidTerm(f: Primitives, phi: real): (w: real)
    requires Sound(f)
    ensures 0.99 < w <= 1.0
  {
    var s := f.sin(phi);
    assert s * s <= 1.0 by {
      assert -1.0 <= s <= 1.0;
      if s >= 0.0 {
        assert s * s <= s * 1.0;
      } else {
        assert s * s <= (-s) * 1.0;
      }
    }
    1.0 - Square(GisE * s)
  }

  /** M: miles per radian of latitude at `latitude`. */
  function MeridionalRadius(f: Primitives, latitude: real): (m: real)
    requires Sound(f)
    ensures m > 0.0
  {
    GisA * (1.0 - GisE * GisE) / f.pow(EllipsoidTerm(f, Radians(latitude)), 1.5)
  }

  /** N cos(phi): miles per radian of longitude at `latitude`. It is positive
      away from the poles. */
  function ParallelRadius(f: Primitives, latitude: real): (n: real)
    requires Sound(f)
    ensures -90.0 < latitude < 90.0 ==> n > 0.0
  {
    var w := f.pow(EllipsoidTerm(f, Radians(latitude)), 0.5);
    var c := f.cos(Radians(latitude));
    assert -90.0 < latitude < 90.0 ==> c > 0.0 by {
      if -90.0 < latitude < 90.0 {
        assert -Pi / 2.0 < Radians(latitude) < Pi / 2.0;
      }
    }
    GisA * c / w
  }

  /** Degrees of latitude covered by `miles` at `latitude`. */
  function MilesToDegLatitude(f: Primitives, miles: real, latitude: real): (deg: real)
    requires Sound(f)
    ensures miles > 0.0 ==> deg > 0.0
    ensures miles < 0.0 ==> deg < 0.0
    ensures miles == 0.0 ==> deg == 0.0
  {
    miles * 180.0 / (Pi * MeridionalRadius(f, latitude))
  }

  /** Degrees of longitude covered by `miles` at `latitude`. */
  function MilesToDegLongitude(f: Primitives, miles: real, latitude: real): (deg: real)
    requires Sound(f) && ParallelRadius(f, latitude) != 0.0
    ensures miles == 0.0 <==> deg == 0.0
    ensures -90.0 < latitude < 90.0 && miles > 0.0 ==> deg > 0.0
    ensures -90.0 < latitude < 90.0 && miles < 0.0 ==> deg < 0.0
  {
    var n := ParallelRadius(f, latitude);
    assert Pi * n != 0.0;
    miles * 180.0 / (Pi * n)
  }

  /** Both conversions are linear in the distance: the factor depends on the
      latitude alone. */
  lemma MilesToDegLinear(f: Primitives, k: real, miles: real, latitude: real)
    requires Sound(f) && ParallelRadius(f, latitude) != 0.0
    ensures MilesToDegLatitude(f, k * miles, latitude) == k * MilesToDegLatitude(f, miles, latitude)
    ensures MilesToDegLongitude(f, k * miles, latitude) == k * MilesToDegLongitude(f, miles, latitude)
  {
    var m := Pi * MeridionalRadius(f, latitude);
    var n := Pi * ParallelRadius(f, latitude);
    assert (k * miles) * 180.0 / m == k * (miles * 180.0 / m);
    assert (k * miles) * 180.0 / n == k * (miles * 180.0 / n);
  }

  /** The box of `size` miles centred on `center`, as (left, bottom, right, top). */
  function UserBoundingBox(f: Primitives, size: real, center: Location): (box: Box)
    requires Sound(f) && ParallelRadius(f, center.latitude) != 0.0
    ensures box.left + box.right == 2.0 * center.longitude
    ensures box.bottom + box.top == 2.0 * center.latitude
    ensures box.right - box.left == MilesToDegLongitude(f, size, center.latitude)
    ensures box.top - box.bottom == MilesToDegLatitude(f, size, center.latitude)
  {
    var degLat := MilesToDegLatitude(f, size, center.latitude);
    var degLong := MilesToDegLongitude(f, size, center.latitude);
    Box(center.longitude - degLong / 2.0, center.latitude - degLat / 2.0,
        center.longitude + degLong / 2.0, center.latitude + degLat / 2.0)
  }

  /** Away from the poles a box of non-negative size is well ordered, and a
      larger size gives a box containing the smaller one. */
  lemma BoundingBoxMonotone(f: Primitives, small: real, large: real, center: Location)
    requires Sound(f) && -90.0 < center.latitude < 90.0
    requires 0.0 <= small <= large
    ensures var b := UserBoundingBox(f, small, center);
      b.left <= b.right && b.bottom <= b.top
    ensures var b := UserBoundingBox(f, small, center);
      var B := UserBoundingBox(f, large, center);
      B.left <= b.left && b.right <= B.right && B.bottom <= b.bottom && b.top <= B.top
  {
    var lat := center.latitude;
    MilesToDegMonotone(f, small, large, lat);
    MilesToDegMonotone(f, 0.0, small, lat);
  }

  /** Both conversions are non-decreasing in the distance away from the poles. */
  lemma MilesToDegMonotone(f: Primitives, small: real, large: real, latitude: real)
    requires Sound(f) && -90.0 < latitude < 90.0 && small <= large
    ensures MilesToDegLatitude(f, small, latitude) <= MilesToDegLatitude(f, large, latitude)
    ensures MilesToDegLongitude(f, small, latitude) <= MilesToDegLongitude(f, large, latitude)
  {
    MilesToDegLinear(f, small, 1.0, latitude);
    MilesToDegLinear(f, large, 1.0, latitude);
    MilesToDegLinear(f, large - small, 1.0, latitude);
    MulNonnegative(large - small, MilesToDegLatitude(f, 1.0, latitude));
    MulNonnegative(large - small, MilesToDegLongitude(f, 1.0, latitude));
  }

  /** The spans depend on the centre's latitude only, never on its longitude. */
  lemma BoundingBoxSpansIgnoreLongitude(f: Primitives, size: real, c1: Location, c2: Location)
    requires Sound(f) && ParallelRadius(f, c1.latitude) != 0.0
    requires c1.latitude == c2.latitude
    ensures var b1 := UserBoundingBox(f, size, c1);
      var b2 := UserBoundingBox(f, size, c2);
      b1.right - b1.left == b2.right - b2.left && b1.top - b1.bottom == b2.top - b2.bottom
  {
  }
}
