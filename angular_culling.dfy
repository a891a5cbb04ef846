/** Thinning of candidate points by direction (pickup_selection/geometry.go,
    cullByAngle): the circle around the rider is cut into equal sectors, each
    sector admits points first-come up to a cap, and the kept points come out
    sector by sector. */
module AngularCulling {
  import opened Numerics
  import opened GeoConversion

  // ----- Sector of a point -----

  /** Direction of p seen from the centre, wrapped from atan2's [-pi, pi]
      into [0, 2 pi). */
  function Angle(f: Primitives, p: Location, center: Location): (angle: real)
    requires Sound(f)
    ensures 0.0 <= angle < 2.0 * Pi
  {
    var angle := f.atan2(p.latitude - center.latitude, p.longitude - center.longitude);
    if angle < 0.0 then angle + 2.0 * Pi else angle
  }

  /** Go's int(x) on a float: truncation toward zero. */
  function Trunc(x: real): (n: int)
    ensures x >= 0.0 ==> 0 <= n && n as real <= x < n as real + 1.0
    ensures x < 0.0 ==> n <= 0 && n as real - 1.0 < x <= n as real
  {
    if x >= 0.0 then x.Floor else -((-x).Floor)
  }

  /** Go's % on int: a minus a multiple of n, with the sign of the dividend
      and smaller than n in magnitude. */
  function GoRem(a: int, n: int): (r: int)
    requires n != 0
    ensures exists q :: a == q * n + r
    ensures a >= 0 ==> 0 <= r < (if n > 0 then n else -n)
    ensures a < 0 ==> -(if n > 0 then n else -n) < r <= 0
  {
    var m := if n > 0 then n else -n;
    var r := if a >= 0 then a % m else -((-a) % m);
    var q := if a >= 0 then a / m else -((-a) / m);
    assert a == q * m + r;
    assert a == (if n > 0 then q else -q) * n + r;
    r
  }

  /** The sector index the Go code computes for p, out of `segments`. */
  function Sector(f: Primitives, p: Location, center: Location, segments: int): (s: int)
    requires Sound(f) && segments > 0
    ensures 0 <= s < segments
  {
    var width := 2.0 * Pi / segments as real;
    var ratio := Angle(f, p, center) / width;
    assert ratio >= 0.0;
    GoRem(Trunc(ratio), segments)
  }

  /** The sector of every point, in input order. */
  function Sectors(f: Primitives, points: seq<Location>, center: Location, segments: int): (sectors: seq<int>)
    requires Sound(f) && segments > 0
    ensures |sectors| == |points|
    ensures forall i :: 0 <= i < |sectors| ==> sectors[i] == Sector(f, points[i], center, segments)
    ensures InSectors(sectors, segments)
  {
    seq(|points|, i requires 0 <= i < |points| => Sector(f, points[i], center, segments))
  }

  predicate InSectors(sectors: seq<int>, segments: int) {
    forall i :: 0 <= i < |sectors| ==> 0 <= sectors[i] < segments
  }

  // ----- Admission into buckets -----

  /** The buckets after the points whose sectors are `sectors` have been
      offered in order: a point's position joins its sector's bucket unless
      that bucket already holds `cap` positions. */
  function Admit(sectors: seq<int>, segments: nat, cap: int): (buckets: seq<seq<nat>>)
    requires InSectors(sectors, segments)
    ensures |buckets| == segments
    decreases |sectors|
  {
    if |sectors| == 0 then seq(segments, _ => [])
    else
      var n := |sectors| - 1;
      var before := Admit(sectors[..n], segments, cap);
      var s := sectors[n];
      if |before[s]| >= cap then before else before[s := before[s] + [n]]
  }

  /** The buckets concatenated in sector order. */
  function Flatten(buckets: seq<seq<nat>>): seq<nat>
    decreases |buckets|
  {
    if |buckets| == 0 then [] else Flatten(buckets[..|buckets| - 1]) + buckets[|buckets| - 1]
  }

  predicate InRange(positions: seq<nat>, n: nat) {
    forall j :: 0 <= j < |positions| ==> positions[j] < n
  }

  /** The points at the given positions, in that order. */
  function Pick(points: seq<Location>, positions: seq<nat>): (picked: seq<Location>)
    requires InRange(positions, |points|)
    ensures |picked| == |positions|
    ensures forall j :: 0 <= j < |positions| ==> picked[j] == points[positions[j]]
  {
    seq(|positions|, j requires 0 <= j < |positions| => points[positions[j]])
  }

  /** What cullByAngle returns. */
  function Cull(f: Primitives, points: seq<Location>, center: Location, segments: int, cap: int): seq<Location>
    requires Sound(f) && (|points| > 0 ==> segments > 0)
  {
    if |points| == 0 then []
    else
      var buckets := Admit(Sectors(f, points, center, segments), segments, cap);
      AdmitSound(Sectors(f, points, center, segments), segments, cap);
      FlattenInRange(buckets, |points|);
      Pick(points, Flatten(buckets))
  }

  /** The Go code's cullByAngle: a first loop fills the bucket array in place,
      a nested loop reads the buckets out. */
  method CullByAngle(f: Primitives, points: seq<Location>, center: Location, segments: int, cap: int)
    returns (culled: seq<Location>)
    requires Sound(f) && (|points| > 0 ==> segments > 0)
    ensures culled == Cull(f, points, center, segments, cap)
  {
    if |points| == 0 {
      return [];
    }
    ghost var sectors := Sectors(f, points, center, segments);
    var segmentIndexes := new seq<nat>[segments](_ => []);
    for i := 0 to |points|
      invariant segmentIndexes[..] == Admit(sectors[..i], segments, cap)
    {
      assert sectors[..i + 1][..i] == sectors[..i];
      var segmentIndex := Sector(f, points[i], center, segments);
      if |segmentIndexes[segmentIndex]| >= cap {
        continue;
      }
      segmentIndexes[segmentIndex] := segmentIndexes[segmentIndex] + [i];
    }
    assert sectors[..|points|] == sectors;
    AdmitInRange(sectors, segments, cap);
    culled := ExtractPoints(points, segmentIndexes);
  }

  /** Step 3 of cullByAngle: the points named by the buckets, bucket after
      bucket. */
  method ExtractPoints(points: seq<Location>, segmentIndexes: array<seq<nat>>) returns (culled: seq<Location>)
    requires forall s, j :: 0 <= s < segmentIndexes.Length && 0 <= j < |segmentIndexes[s]| ==>
      segmentIndexes[s][j] < |points|
    ensures InRange(Flatten(segmentIndexes[..]), |points|)
    ensures culled == Pick(points, Flatten(segmentIndexes[..]))
  {
    ghost var buckets := segmentIndexes[..];
    culled := [];
    for s := 0 to segmentIndexes.Length
      invariant InRange(Flatten(buckets[..s]), |points|)
      invariant culled == Pick(points, Flatten(buckets[..s]))
    {
      assert buckets[..s + 1][..s] == buckets[..s];
      var segment := segmentIndexes[s];
      for k := 0 to |segment|
        invariant InRange(Flatten(buckets[..s]) + segment[..k], |points|)
        invariant culled == Pick(points, Flatten(buckets[..s]) + segment[..k])
      {
        assert Flatten(buckets[..s]) + segment[..k + 1] == Flatten(buckets[..s]) + segment[..k] + [segment[k]];
        PickSnoc(points, Flatten(buckets[..s]) + segment[..k], segment[k]);
        culled := culled + [points[segment[k]]];
      }
      assert segment[..|segment|] == segment;
    }
    assert buckets[..segmentIndexes.Length] == buckets;
  }

  lemma PickSnoc(points: seq<Location>, positions: seq<nat>, x: nat)
    requires InRange(positions, |points|) && x < |points|
    ensures InRange(positions + [x], |points|)
    ensures Pick(points, positions + [x]) == Pick(points, positions) + [points[x]]
  {
  }

  // ----- What admission guarantees -----

  /** Bucket s holds positions of points of sector s only, in increasing
      (input) order, and never more than `cap` of them. */
  predicate Admissible(buckets: seq<seq<nat>>, sectors: seq<int>, cap: int) {
    forall s :: 0 <= s < |buckets| ==>
      && |buckets[s]| <= (if cap > 0 then cap else 0)
      && (forall j :: 0 <= j < |buckets[s]| ==> buckets[s][j] < |sectors| && sectors[buckets[s][j]] == s)
      && (forall j, k :: 0 <= j < k < |buckets[s]| ==> buckets[s][j] < buckets[s][k])
  }

  lemma {:induction false} AdmitSound(sectors: seq<int>, segments: nat, cap: int)
    requires InSectors(sectors, segments)
    ensures Admissible(Admit(sectors, segments, cap), sectors, cap)
    decreases |sectors|
  {
    if |sectors| > 0 {
      var n := |sectors| - 1;
      AdmitSound(sectors[..n], segments, cap);
    }
  }

  lemma AdmitInRange(sectors: seq<int>, segments: nat, cap: int)
    requires InSectors(sectors, segments)
    ensures var buckets := Admit(sectors, segments, cap);
      forall s, j :: 0 <= s < |buckets| && 0 <= j < |buckets[s]| ==> buckets[s][j] < |sectors|
  {
    AdmitSound(sectors, segments, cap);
  }

  lemma {:induction false} FlattenInRange(buckets: seq<seq<nat>>, n: nat)
    requires forall s, j :: 0 <= s < |buckets| && 0 <= j < |buckets[s]| ==> buckets[s][j] < n
    ensures InRange(Flatten(buckets), n)
    decreases |buckets|
  {
    if |buckets| > 0 {
      FlattenInRange(buckets[..|buckets| - 1], n);
    }
  }

  /** Positions in sector order, and in input order within a sector. */
  predicate SectorOrdered(positions: seq<nat>, sectors: seq<int>)
    requires InRange(positions, |sectors|)
  {
    forall j, k :: 0 <= j < k < |positions| ==>
      || sectors[positions[j]] < sectors[positions[k]]
      || (sectors[positions[j]] == sectors[positions[k]] && positions[j] < positions[k])
  }

  /** Reading admissible buckets out in order gives positions ordered by
      sector, then by input position. */
  lemma {:induction false} FlattenOrdered(buckets: seq<seq<nat>>, sectors: seq<int>, cap: int)
    requires Admissible(buckets, sectors, cap)
    ensures InRange(Flatten(buckets), |sectors|)
    ensures forall j :: 0 <= j < |Flatten(buckets)| ==> 0 <= sectors[Flatten(buckets)[j]] < |buckets|
    ensures SectorOrdered(Flatten(buckets), sectors)
    decreases |buckets|
  {
    var n := |buckets|;
    if n > 0 {
      var front := buckets[..n - 1];
      assert Admissible(front, sectors, cap);
      FlattenOrdered(front, sectors, cap);
      var flat := Flatten(buckets);
      var head := Flatten(front);
      assert flat == head + buckets[n - 1];
      forall j | 0 <= j < |flat|
        ensures flat[j] < |sectors| && 0 <= sectors[flat[j]] < n
      {
        if j >= |head| {
          assert flat[j] == buckets[n - 1][j - |head|];
        }
      }
      forall j, k | 0 <= j < k < |flat|
        ensures || sectors[flat[j]] < sectors[flat[k]]
                || (sectors[flat[j]] == sectors[flat[k]] && flat[j] < flat[k])
      {
        if k >= |head| {
          assert flat[k] == buckets[n - 1][k - |head|];
          if j >= |head| {
            assert flat[j] == buckets[n - 1][j - |head|];
          }
        }
      }
    }
  }

  /** cullByAngle's output lists the kept positions sector by sector and in
      input order within a sector, so no input point is output twice. */
  lemma CullOrder(f: Primitives, points: seq<Location>, center: Location, segments: int, cap: int)
    requires Sound(f) && segments > 0 && |points| > 0
    ensures var sectors := Sectors(f, points, center, segments);
      var kept := Flatten(Admit(sectors, segments, cap));
      && InRange(kept, |points|)
      && Cull(f, points, center, segments, cap) == Pick(points, kept)
      && SectorOrdered(kept, sectors)
      && forall j, k :: 0 <= j < k < |kept| ==> kept[j] != kept[k]
  {
    var sectors := Sectors(f, points, center, segments);
    AdmitSound(sectors, segments, cap);
    FlattenOrdered(Admit(sectors, segments, cap), sectors, cap);
  }

  /** At most `cap` points per sector come out, so at most segments * cap. */
  lemma {:induction false} FlattenLength(buckets: seq<seq<nat>>, bound: nat)
    requires forall s :: 0 <= s < |buckets| ==> |buckets[s]| <= bound
    ensures |Flatten(buckets)| <= |buckets| * bound
    decreases |buckets|
  {
    if |buckets| > 0 {
      FlattenLength(buckets[..|buckets| - 1], bound);
    }
  }

  lemma CullLength(f: Primitives, points: seq<Location>, center: Location, segments: int, cap: int)
    requires Sound(f) && (|points| > 0 ==> segments > 0)
    ensures |points| == 0 ==> Cull(f, points, center, segments, cap) == []
    ensures |points| > 0 ==> |Cull(f, points, center, segments, cap)| <= segments * (if cap > 0 then cap else 0)
  {
    if |points| > 0 {
      var sectors := Sectors(f, points, center, segments);
      AdmitSound(sectors, segments, cap);
      FlattenLength(Admit(sectors, segments, cap), if cap > 0 then cap else 0);
    }
  }

  /** Admitting more points only appends to buckets, and only later positions. */
  lemma {:induction false} AdmitExtends(sectors: seq<int>, segments: nat, cap: int, m: nat)
    requires InSectors(sectors, segments) && m <= |sectors|
    ensures forall s :: 0 <= s < segments ==>
      Admit(sectors[..m], segments, cap)[s] <= Admit(sectors, segments, cap)[s]
    ensures forall s, j :: 0 <= s < segments && |Admit(sectors[..m], segments, cap)[s]| <= j < |Admit(sectors, segments, cap)[s]| ==>
      Admit(sectors, segments, cap)[s][j] >= m
    decreases |sectors|
  {
    if m < |sectors| {
      var n := |sectors| - 1;
      assert sectors[..n][..m] == sectors[..m];
      AdmitExtends(sectors[..n], segments, cap, m);
    } else {
      assert sectors[..m] == sectors;
    }
  }

  /** First come, first served: point i is admitted exactly when fewer than
      `cap` earlier points of its sector were admitted before it. */
  lemma FirstCome(sectors: seq<int>, segments: nat, cap: int, i: nat)
    requires InSectors(sectors, segments) && i < |sectors|
    ensures var bucket := Admit(sectors, segments, cap)[sectors[i]];
      i in bucket <==> |Admit(sectors[..i], segments, cap)[sectors[i]]| < cap
  {
    var s := sectors[i];
    var before := Admit(sectors[..i], segments, cap);
    var after := Admit(sectors[..i + 1], segments, cap);
    var final := Admit(sectors, segments, cap);
    assert sectors[..i + 1][..i] == sectors[..i];
    AdmitSound(sectors[..i], segments, cap);
    AdmitExtends(sectors, segments, cap, i + 1);
    assert 0 <= s < segments;
    assert after[s] <= final[s];
    if |before[s]| < cap {
      assert after[s] == before[s] + [i];
      assert final[s][|before[s]|] == i;
    } else {
      assert after[s] == before[s];
    }
  }

  /** Position x is output exactly when it is in some bucket. */
  lemma {:induction false} FlattenMember(buckets: seq<seq<nat>>, x: nat)
    ensures x in Flatten(buckets) <==> exists s :: 0 <= s < |buckets| && x in buckets[s]
    decreases |buckets|
  {
    if |buckets| > 0 {
      FlattenMember(buckets[..|buckets| - 1], x);
    }
  }

  /** Point i of the input appears in cullByAngle's output exactly when its
      sector had fewer than `cap` points admitted before it. */
  lemma CullKeeps(f: Primitives, points: seq<Location>, center: Location, segments: int, cap: int, i: nat)
    requires Sound(f) && segments > 0 && i < |points|
    ensures var sectors := Sectors(f, points, center, segments);
      var kept := Flatten(Admit(sectors, segments, cap));
      i in kept <==> |Admit(sectors[..i], segments, cap)[sectors[i]]| < cap
  {
    var sectors := Sectors(f, points, center, segments);
    var buckets := Admit(sectors, segments, cap);
    AdmitSound(sectors, segments, cap);
    FlattenMember(buckets, i);
    FirstCome(sectors, segments, cap, i);
    if i in Flatten(buckets) {
      var s :| 0 <= s < |buckets| && i in buckets[s];
      var j :| 0 <= j < |buckets[s]| && buckets[s][j] == i;
      assert sectors[i] == s;
    }
  }
}
