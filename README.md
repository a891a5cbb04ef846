# Pickup-point selection, modelled in Dafny

This project models the core of the `pickup_selection` service, an AWS Lambda
handler written in Go. Given a rider's position, the service does four things:

- It fetches the street polylines in a one-mile box around the rider.
- It intersects every street segment with four concentric distance rings
  (0.1, 0.25, 0.5 and 0.75 miles). Each ring is an ellipse in
  latitude/longitude degrees.
- It returns every crossing as a candidate pickup point.
- Beside that pipeline sit an angular culler that caps the candidates per
  sector, the ride assembly and pricing request, and the request body and
  result flattening of the openrouteservice walking matrix.

The files, one module each:

| file | module | models |
|---|---|---|
| `numerics.dfy` | `Numerics` | The floating-point primitives (`math.Sin`, `Cos`, `Pow`, `Sqrt`, `Atan2`). They are a parameter record; `Sound` lists the only facts the proofs use. |
| `location.dfy` | `GeoConversion` | `location.go`: miles to degrees of latitude and longitude on the GIS ellipsoid, and the rider's bounding box. |
| `ring_intersection.dfy` | `RingIntersection` | `geometry.go`: `intersectLineRing` (segment × ellipse by the quadratic formula) and `intersectWayRing` (polyline × ring). |
| `angular_culling.dfy` | `AngularCulling` | `geometry.go`: `cullByAngle`, which buckets points by sector with first-come admission and a cap, on an array of buckets. |
| `pickup_selection.dfy` | `PickupSelection` | `main.go`: `HandleRequest`'s ring × street loop and its response. |
| `text.dfy` | `Text` | The string building the Go code does with `fmt.Sprintf` and `+=`: comma lists, bracketed groups, `%d` and `%f`. Each builder has a parser that reads it back. |
| `pricing.dfy` | `Pricing` | `pricing.go`: `Ride`, `BuildRide`, `BuildRides`, `BuildPricingJSON` and the in-place price write-back of `PriceRides`. |
| `ors.dfy` | `OpenRouteService` | `ors.go`: `CeilToInt`, the request body of `ORSMatrix`, and the row-major flattening of its answer. |

Loops in the Go code are methods with loop invariants. Each is proved equal to
a specification function, and the properties are proved about that function.
`cullByAngle`'s bucket slice is an `array<seq<nat>>` updated in place, and so
is the `rides` slice whose prices `PriceRides` overwrites.

The network calls are parameters:

- the Overpass query is a function from a bounding box to polylines;
- the openrouteservice POST is a function from the request body to the two matrices;
- the pricing POST is a function from the request body to the list of prices.

Two facts about the Go code shape the model:

- `HandleRequest` never calls `cullByAngle`, starts no goroutines and does not
  sort anything.
- `BuildRides` reads `outbounds` only at the inbound positions. It therefore
  needs at least as many outbound routes as inbound ones, and ignores any extra.

## Model

| member | source | states |
|---|---|---|
| `GeoConversion.MeridionalRadius` | pickup_selection/location.go:16-19 | The length in miles of one radian of latitude is positive at every latitude. |
| `GeoConversion.ParallelRadius` | pickup_selection/location.go:27-30 | The length of one radian of longitude is positive strictly between the poles. |
| `GeoConversion.MilesToDegLatitude` | pickup_selection/location.go:15-23 | The conversion keeps the sign of the distance: positive miles give positive degrees, negative give negative, zero gives zero. |
| `GeoConversion.MilesToDegLongitude` | pickup_selection/location.go:26-34 | The result is zero exactly when the distance is zero, and it keeps the distance's sign away from the poles. |
| `GeoConversion.MilesToDegLinear` | pickup_selection/location.go:15-34 | Both conversions are linear in the distance: converting k·miles gives k times the degrees. |
| `GeoConversion.MilesToDegMonotone` | pickup_selection/location.go:15-34 | Away from the poles a longer distance never converts to fewer degrees, in either direction. |
| `GeoConversion.UserBoundingBox` | pickup_selection/location.go:40-52 | The box is centred on the rider. Its width is the longitude conversion of the size and its height the latitude conversion. |
| `GeoConversion.BoundingBoxMonotone` | pickup_selection/location.go:40-52 | Away from the poles a box of non-negative size is well ordered (left ≤ right, bottom ≤ top), and a larger size gives a box that contains the smaller one. |
| `GeoConversion.BoundingBoxSpansIgnoreLongitude` | pickup_selection/location.go:42-49 | The box's width and height depend on the centre's latitude only, never on its longitude. |
| `RingIntersection.SegmentQuadratic` | pickup_selection/geometry.go:8-17 | The leading coefficient A is positive for a segment of two distinct endpoints, so dividing by 2A is defined. |
| `RingIntersection.IntersectLineRing` | pickup_selection/geometry.go:6-51 | The method computes `LineRing`: no roots when D < 0, one double root when D = 0, the +√D root then the −√D root when D > 0, and only roots with 0 ≤ t ≤ 1 become points. |
| `RingIntersection.QuadraticAtPoint` | pickup_selection/geometry.go:8-17 | At+Bt+C at t equals the ellipse level of the point at parameter t, minus one. A root of the quadratic is therefore a point on the ellipse. |
| `RingIntersection.RootsSolve` | pickup_selection/geometry.go:20-33 | Every root the branches produce solves At² + Bt + C = 0. |
| `RingIntersection.RootOnEllipse` | pickup_selection/geometry.go:20-47 | The point at every root lies on the ring's ellipse. |
| `RingIntersection.LineRingCount` | pickup_selection/geometry.go:23-47 | There are at most two crossings, none when D < 0 and at most one when D = 0. Two crossings come in root order (+√D first). |
| `RingIntersection.LineRingOnSegmentAndEllipse` | pickup_selection/geometry.go:37-47 | Every crossing lies on the ellipse and on the segment (0 ≤ t ≤ 1). |
| `RingIntersection.RootsComplete` | pickup_selection/geometry.go:20-33 | Conversely, every solution of At² + Bt + C = 0 is among the roots the branches produce. |
| `RingIntersection.LineRingComplete` | pickup_selection/geometry.go:6-51 | Every point of the segment (0 ≤ t ≤ 1) that lies on the ellipse is returned. With `LineRingOnSegmentAndEllipse`, the crossings are exactly the segment's points on the ellipse. |
| `RingIntersection.SegmentInside` | pickup_selection/geometry.go:8-17 | A segment whose two endpoints are inside the ellipse stays inside it, by convexity. |
| `RingIntersection.LineRingInsideIsEmpty` | pickup_selection/geometry.go:23-47 | A segment with both endpoints inside the ring has no crossing. |
| `RingIntersection.LineRingTestSegment` | pickup_selection/geometry_test.go:5-11 | The segment of the Go test yields no crossing. |
| `RingIntersection.IntersectWayRing` | pickup_selection/geometry.go:54-79 | The method computes `WayRing`: the crossings of each consecutive segment with the ring, segment after segment; an empty polyline gives none. |
| `RingIntersection.WayRingLength` | pickup_selection/geometry.go:54-79 | A polyline of fewer than two points has no crossings, and one of n points has at most 2(n−1). |
| `RingIntersection.SegmentRingOnRing` | pickup_selection/geometry.go:61-75 | Every crossing of one segment lies on the ring and between the segment's endpoints. |
| `RingIntersection.WayRingOnRing` | pickup_selection/geometry.go:54-79 | Every crossing of a polyline lies on the ring and on one of its segments. |
| `RingIntersection.WayRingComplete` | pickup_selection/geometry.go:54-79 | Conversely, every point of one of the polyline's segments that lies on the ring is among its crossings. |
| `AngularCulling.Angle` | pickup_selection/geometry.go:96-101 | The wrapped angle lies in [0, 2π). |
| `AngularCulling.Trunc` | pickup_selection/geometry.go:104 | Go's `int()` truncates toward zero. A non-negative x gives the integer n ≥ 0 with n ≤ x < n + 1; a negative x gives n ≤ 0 with n − 1 < x ≤ n. |
| `AngularCulling.GoRem` | pickup_selection/geometry.go:107 | Go's `%`: a minus the result is a multiple of n. The result takes the dividend's sign and is smaller than n in magnitude. |
| `AngularCulling.Sector` | pickup_selection/geometry.go:96-107 | Every point falls in a sector index in [0, segments). |
| `AngularCulling.CullByAngle` | pickup_selection/geometry.go:84-127 | The method computes `Cull`: no points give none; otherwise the points whose indices were admitted, bucket after bucket. |
| `AngularCulling.ExtractPoints` | pickup_selection/geometry.go:118-124 | Reading the buckets out in order yields the points at the flattened indices, all of them in range. |
| `AngularCulling.AdmitSound` | pickup_selection/geometry.go:109-115 | Every bucket holds at most max(cap, 0) indices, all valid and all in that sector, in strictly increasing order. |
| `AngularCulling.CullOrder` | pickup_selection/geometry.go:118-124 | The culled points are the points at distinct input positions, grouped by sector in increasing sector order and in input order within a sector. |
| `AngularCulling.CullLength` | pickup_selection/geometry.go:84-127 | No points give none, and otherwise at most segments × max(cap, 0) points survive. |
| `AngularCulling.FirstCome` | pickup_selection/geometry.go:109-115 | Point i is admitted exactly when its sector's bucket held fewer than cap of the earlier points. |
| `AngularCulling.CullKeeps` | pickup_selection/geometry.go:109-124 | Point i survives culling exactly when fewer than cap earlier points were admitted to its sector. |
| `AngularCulling.FlattenMember` | pickup_selection/geometry.go:118-124 | An index is in the read-out exactly when it is in some bucket. |
| `PickupSelection.HandleRequest` | pickup_selection/main.go:170-192 | A nil event gives the error "received nil event". Otherwise the street geometry of the one-mile box around the rider is fetched, and the response lists the crossings of every street with every ring, ring after ring, with their count. |
| `PickupSelection.IntersectRings` | pickup_selection/main.go:179-184 | The ring loop concatenates, ring after ring, the crossings of all streets with that ring. |
| `PickupSelection.IntersectStreets` | pickup_selection/main.go:180-183 | The street loop concatenates, street after street, each street's crossings with one ring. |
| `PickupSelection.CandidatesComplete` | pickup_selection/main.go:179-184 | Conversely, every point of a street segment that lies on one of the rings is a candidate. |
| `PickupSelection.RingPointsComplete` | pickup_selection/main.go:180-183 | For one ring, every point of a street segment on that ring is among the street loop's crossings. |
| `PickupSelection.CandidatesOnRings` | pickup_selection/main.go:179-184 | Every candidate lies on the ellipse of one of the rings and on a segment of one of the streets. |
| `PickupSelection.CandidatesLength` | pickup_selection/main.go:179-191 | There are at most (number of rings) × 2 × (number of street segments) candidates. |
| `Pricing.BuildRide` | pickup_selection/pricing.go:38-51 | The ride splits back into the inbound walk and the outbound drive. The drive leaves from the pickup point, which is where the walk ends. The totals are the sums of the two legs, and the price is zero. |
| `Pricing.BuildRides` | pickup_selection/pricing.go:53-59 | One ride per inbound route, ride i built from inbound i and outbound i. Each ride has consistent totals and no price. At least as many outbound routes are needed. |
| `Pricing.BuildPricingJSON` | pickup_selection/pricing.go:61-79 | The body is `{ "data": [`, then the rides' groups joined by single commas with no trailing comma, then `]}`. No rides give `{ "data": []}`. |
| `Pricing.PricingJSONRoundTrip` | pickup_selection/pricing.go:63-78 | Reading the body back yields one row of eight numbers per ride, in ride order, with the features in declaration order. Each number is within half a millionth of the value it renders. |
| `Pricing.PriceRides` | pickup_selection/pricing.go:116-121 | Price i is written into ride i in the caller's array, for each price returned. Rides beyond the prices, and every other field, are unchanged, so the legs and consistent totals are kept. There may be no more prices than rides. |
| `OpenRouteService.CeilToInt` | pickup_selection/ors.go:14-16 | The result is the least integer not below x. |
| `OpenRouteService.CeilToIntExample` | pickup_selection/ors_test.go:12-18 | 47.24134 rounds up to 48. |
| `OpenRouteService.BuildMatrixRequest` | pickup_selection/ors.go:30-72 | The body lists all sources then all destinations as pairs, then the source positions, then the destination positions, then the metrics and the unit. Each list loses its trailing comma. |
| `OpenRouteService.AppendPairs` | pickup_selection/ors.go:33-44 | The loop appends each place as "[lon,lat]," in order. |
| `OpenRouteService.AppendIndices` | pickup_selection/ors.go:50-63 | The loop appends "i," for each consecutive index from its start. |
| `OpenRouteService.PairsRoundTrip` | pickup_selection/ors.go:33-47 | The "locations" array reads back as the places in order, each as [longitude, latitude] within half a millionth. |
| `OpenRouteService.IndicesRoundTrip` | pickup_selection/ors.go:50-66 | An index list reads back as exactly start, start+1, …, and no element is empty. |
| `OpenRouteService.RequestSelectsPlaces` | pickup_selection/ors.go:31-66 | The "sources" list reads back as positions 0..n−1, which name the sources. The "destinations" list reads back as positions n..n+m−1, offset by the number of sources, which name the destinations. |
| `OpenRouteService.FlattenMatrix` | pickup_selection/ors.go:110-125 | The nested loop computes `Routes`: row after row, cell by cell. Cell (i, j) becomes a route from source i to destination j, with the distance and duration rounded up and no traffic delay. |
| `OpenRouteService.RoutesRowMajor` | pickup_selection/ors.go:110-125 | On a full n × m answer there are n·m routes, and route i·m + j is the route of cell (i, j). |
| `OpenRouteService.ORSMatrix` | pickup_selection/ors.go:19-130 | No sources or no destinations give no routes; the Go code returns before building a request. Otherwise the routes are the flattening of the service's answer to the request body. |

## Left out

- Network and JSON plumbing are not modelled:
  - the Overpass query (`overpass.go`, and its copy in `main.go`);
  - the HTTP and parsing parts of `ORSMatrix` and `PriceRides`.

  Each service is a function parameter. The model assumes the parsed answer has
  the shape the indexing needs: no more price entries than rides, and no more
  matrix rows or cells than sources or destinations. A malformed answer is a
  panic or an `os.Exit` in the Go code.
- The Go process, Lambda start-up, logging, `cache.go`, `tomtom.go` and the
  sibling packages are not part of this model.
- Floating-point rounding is not modelled. All arithmetic is on reals, and
  `math.Sin`, `Cos`, `Pow`, `Sqrt` and `Atan2` are abstract functions
  constrained only by `Numerics.Sound`.
- `%f` is modelled as exact round-half-even of the real value to six decimals.
  Go rounds the binary float64, so the two can differ on ties.
- `CeilToInt` does not model the overflow of `int()` on values outside the
  64-bit range, nor NaN or infinities.
- `RingIntersection.IntersectLineRing` requires the segment's endpoints to be
  distinct, and `PickupSelection.HandleRequest` requires streets without
  repeated consecutive points. In the Go code such a segment has A = 0, its
  single root is 0/0 = NaN, and the resulting point has NaN coordinates. Reals
  have no NaN, so the case is excluded.
- `RingIntersection.IntersectWayRing` requires a non-zero radius. In the Go code
  radius 0 gives semi-axes a = b = 0 and NaN or infinite coordinates. The only
  caller, `HandleRequest`, passes the rings 0.1, 0.25, 0.5 and 0.75.
- `GeoConversion.MilesToDegLongitude` requires the longitude radius N to be
  non-zero, and `PickupSelection.HandleRequest` requires the same at the
  rider's latitude. The abstract `cos` is unconstrained at |latitude| ≥ 90, so
  the model excludes the case where N vanishes. In the Go code float64 `math.Cos`
  of 90° in radians is about 6e-17, not 0. The conversion then gives a huge
  finite value, and a negative one past ±90.
- `AngularCulling.CullByAngle` requires a positive sector count when there are
  points. In the Go code zero sectors panic on the modulo and a negative count
  panics in `make`.
- `cullByAngle` is not called by `HandleRequest` in this code, so the handler
  model does not cull.
- `HandleRequest`'s nested loop is split into `IntersectRings` (over rings) and
  `IntersectStreets` (over streets). The read-out loop of `cullByAngle` is
  `ExtractPoints`.
- The three `+=` loops of `ORSMatrix` are `AppendPairs` (used for the sources
  and then the destinations) and `AppendIndices`. The trailing-comma cuts stay
  in `BuildMatrixRequest`.
- Concurrency is not modelled, because the modelled code has none.
