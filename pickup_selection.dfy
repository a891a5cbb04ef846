/** The Lambda handler (pickup_selection/main.go, HandleRequest): the street
    polylines near the rider are intersected with four rings around the rider,
    and every crossing is a candidate pickup point. */
module PickupSelection {
  import opened Numerics
  import opened GeoConversion
  import opened RingIntersection

  datatype Option<T> = None | Some(value: T)

  /** A response, or the error the handler returns instead. */
  datatype Outcome<T> = Ok(value: T) | Error(message: string)

  datatype PickupSelectionResponse = PickupSelectionResponse(points: seq<Location>, pointCount: int)

  /** Ring radii in miles, in the order they are visited. */
  const Rings: seq<real> := [0.1, 0.25, 0.5, 0.75]

  /** Side in miles of the box the street geometry is fetched for. */
  const StreetBoxSize: real := 1.0

  /** What a polyline source must deliver for the geometry to be defined:
      no two consecutive points of a street coincide. */
  predicate WellFormedStreets(streets: seq<seq<Location>>) {
    forall w :: 0 <= w < |streets| ==> DistinctConsecutive(streets[w])
  }

  /** The rider's position admits rings: the conversions are sound and the
      longitude radius of curvature does not vanish there. */
  ghost predicate Ready(f: Primitives, center: Location) {
    Sound(f) && ParallelRadius(f, center.latitude) != 0.0
  }

  /** Crossings of every street with one ring, street after street. */
  function RingPoints(f: Primitives, streets: seq<seq<Location>>, radius: real, center: Location): seq<Location>
    requires Ready(f, center) && radius != 0.0 && WellFormedStreets(streets)
    decreases |streets|
  {
    if |streets| == 0 then []
    else
      var n := |streets| - 1;
      RingPoints(f, streets[..n], radius, center) + WayRing(f, streets[n], radius, center)
  }

  predicate NonZero(radii: seq<real>) {
    forall r :: 0 <= r < |radii| ==> radii[r] != 0.0
  }

  /** Crossings of every street with every ring, ring after ring. */
  function Candidates(f: Primitives, streets: seq<seq<Location>>, radii: seq<real>, center: Location): seq<Location>
    requires Ready(f, center) && NonZero(radii) && WellFormedStreets(streets)
    decreases |radii|
  {
    if |radii| == 0 then []
    else
      var n := |radii| - 1;
      Candidates(f, streets, radii[..n], center) + RingPoints(f, streets, radii[n], center)
  }

  /** The Go code's HandleRequest. The Overpass query behind getStreetGeometry
      is the parameter `streetGeometry`, from a bounding box to polylines. */
  method HandleRequest(f: Primitives, event: Option<Location>, streetGeometry: Box -> seq<seq<Location>>)
    returns (result: Outcome<PickupSelectionResponse>)
    requires event.Some? ==> Ready(f, event.value)
    requires event.Some? ==>
      WellFormedStreets(streetGeometry(UserBoundingBox(f, StreetBoxSize, event.value)))
    ensures event.None? ==> result == Error("received nil event")
    ensures event.Some? ==>
      var streets := streetGeometry(UserBoundingBox(f, StreetBoxSize, event.value));
      var points := Candidates(f, streets, Rings, event.value);
      result == Ok(PickupSelectionResponse(points, |points|))
  {
    if event.None? {
      return Error("received nil event");
    }
    var streetGeometries := streetGeometry(UserBoundingBox(f, StreetBoxSize, event.value));
    var points := IntersectRings(f, streetGeometries, Rings, event.value);
    var response := PickupSelectionResponse(points, |points|);
    return Ok(response);
  }

  /** The loop of HandleRequest over the rings. */
  method IntersectRings(f: Primitives, streetGeometries: seq<seq<Location>>, radii: seq<real>, center: Location)
    returns (points: seq<Location>)
    requires Ready(f, center) && NonZero(radii) && WellFormedStreets(streetGeometries)
    ensures points == Candidates(f, streetGeometries, radii, center)
  {
    points := [];
    for r := 0 to |radii|
      invariant points == Candidates(f, streetGeometries, radii[..r], center)
    {
      assert radii[..r + 1][..r] == radii[..r];
      var solutions := IntersectStreets(f, streetGeometries, radii[r], center);
      points := points + solutions;
    }
    assert radii[..|radii|] == radii;
  }

  /** The inner loop of HandleRequest, over the streets for one ring. */
  method IntersectStreets(f: Primitives, streetGeometries: seq<seq<Location>>, radius: real, center: Location)
    returns (points: seq<Location>)
    requires Ready(f, center) && radius != 0.0 && WellFormedStreets(streetGeometries)
    ensures points == RingPoints(f, streetGeometries, radius, center)
  {
    points := [];
    for w := 0 to |streetGeometries|
      invariant points == RingPoints(f, streetGeometries[..w], radius, center)
    {
      assert streetGeometries[..w + 1][..w] == streetGeometries[..w];
      var solutions := IntersectWayRing(f, streetGeometries[w], radius, center);
      points := points + solutions;
    }
    assert streetGeometries[..|streetGeometries|] == streetGeometries;
  }

  // ----- What the candidates are -----

  /** Every candidate lies on the ellipse of one of the rings and on a
      segment of one of the streets. */
  lemma {:induction false} RingPointsOnRing(f: Primitives, streets: seq<seq<Location>>, radius: real, center: Location)
    requires Ready(f, center) && radius != 0.0 && WellFormedStreets(streets)
    ensures forall p :: p in RingPoints(f, streets, radius, center) ==>
      && OnRing(f, p, radius, center)
      && exists w, i :: 0 <= w < |streets| && 0 <= i < |streets[w]| - 1 && OnWaySegment(streets[w], i, p)
    decreases |streets|
  {
    var n := |streets|;
    if n > 0 {
      var front := streets[..n - 1];
      RingPointsOnRing(f, front, radius, center);
      WayRingOnRing(f, streets[n - 1], radius, center);
      forall p | p in RingPoints(f, streets, radius, center)
        ensures exists w, i :: 0 <= w < n && 0 <= i < |streets[w]| - 1 && OnWaySegment(streets[w], i, p)
      {
        if p in RingPoints(f, front, radius, center) {
          var w, i :| 0 <= w < n - 1 && 0 <= i < |front[w]| - 1 && OnWaySegment(front[w], i, p);
          assert front[w] == streets[w];
        } else {
          var i :| 0 <= i < |streets[n - 1]| - 1 && OnWaySegment(streets[n - 1], i, p);
        }
      }
    }
  }

  lemma {:induction false} CandidatesOnRings(f: Primitives, streets: seq<seq<Location>>, radii: seq<real>, center: Location)
    requires Ready(f, center) && NonZero(radii) && WellFormedStreets(streets)
    ensures forall p :: p in Candidates(f, streets, radii, center) ==>
      && (exists r :: 0 <= r < |radii| && OnRing(f, p, radii[r], center))
      && exists w, i :: 0 <= w < |streets| && 0 <= i < |streets[w]| - 1 && OnWaySegment(streets[w], i, p)
    decreases |radii|
  {
    var n := |radii|;
    if n > 0 {
      CandidatesOnRings(f, streets, radii[..n - 1], center);
      RingPointsOnRing(f, streets, radii[n - 1], center);
      forall p | p in Candidates(f, streets, radii, center)
        ensures exists r :: 0 <= r < n && OnRing(f, p, radii[r], center)
      {
        if p in Candidates(f, streets, radii[..n - 1], center) {
          var r :| 0 <= r < n - 1 && OnRing(f, p, radii[..n - 1][r], center);
        } else {
          assert OnRing(f, p, radii[n - 1], center);
        }
      }
    }
  }

  /** Conversely, every point of a street segment that lies on a ring is a
      candidate. */
  lemma {:induction false} RingPointsComplete(f: Primitives, streets: seq<seq<Location>>, radius: real, center: Location,
                                              w: nat, i: nat, p: Location)
    requires Ready(f, center) && radius != 0.0 && WellFormedStreets(streets)
    requires w < |streets| && i < |streets[w]| - 1 && OnWaySegment(streets[w], i, p) && OnRing(f, p, radius, center)
    ensures p in RingPoints(f, streets, radius, center)
    decreases |streets|
  {
    var n := |streets| - 1;
    if w < n {
      var front := streets[..n];
      assert front[w] == streets[w];
      RingPointsComplete(f, front, radius, center, w, i, p);
    } else {
      WayRingComplete(f, streets[n], radius, center, i, p);
    }
  }

  lemma {:induction false} CandidatesComplete(f: Primitives, streets: seq<seq<Location>>, radii: seq<real>, center: Location,
                                              r: nat, w: nat, i: nat, p: Location)
    requires Ready(f, center) && NonZero(radii) && WellFormedStreets(streets)
    requires r < |radii| && w < |streets| && i < |streets[w]| - 1
    requires OnWaySegment(streets[w], i, p) && OnRing(f, p, radii[r], center)
    ensures p in Candidates(f, streets, radii, center)
    decreases |radii|
  {
    var n := |radii| - 1;
    if r < n {
      var front := radii[..n];
      assert front[r] == radii[r];
      CandidatesComplete(f, streets, front, center, r, w, i, p);
    } else {
      RingPointsComplete(f, streets, radii[n], center, w, i, p);
    }
  }

  /** Number of segments over all streets. */
  function SegmentCount(streets: seq<seq<Location>>): (count: nat)
    decreases |streets|
  {
    if |streets| == 0 then 0
    else
      var n := |streets| - 1;
      SegmentCount(streets[..n]) + (if |streets[n]| < 2 then 0 else |streets[n]| - 1)
  }

  /** Each ring yields at most two points per street segment. */
  lemma {:induction false} RingPointsLength(f: Primitives, streets: seq<seq<Location>>, radius: real, center: Location)
    requires Ready(f, center) && radius != 0.0 && WellFormedStreets(streets)
    ensures |RingPoints(f, streets, radius, center)| <= 2 * SegmentCount(streets)
    decreases |streets|
  {
    var n := |streets|;
    if n > 0 {
      RingPointsLength(f, streets[..n - 1], radius, center);
      WayRingLength(f, streets[n - 1], radius, center);
    }
  }

  lemma {:induction false} CandidatesLength(f: Primitives, streets: seq<seq<Location>>, radii: seq<real>, center: Location)
    requires Ready(f, center) && NonZero(radii) && WellFormedStreets(streets)
    ensures |Candidates(f, streets, radii, center)| <= |radii| * (2 * SegmentCount(streets))
    decreases |radii|
  {
    var n := |radii|;
    if n > 0 {
      CandidatesLength(f, streets, radii[..n - 1], center);
      RingPointsLength(f, streets, radii[n - 1], center);
      ScaleStep(n, 2 * SegmentCount(streets));
    }
  }

  lemma ScaleStep(n: int, k: int)
    ensures (n - 1) * k + k == n * k
  {
  }
}
