/** The walking-distance matrix from openrouteservice
    (pickup_selection/ors.go): the request body that lists the places and
    says which are sources and which destinations, and the flattening of the
    answer's duration and distance matrices into one route per pair. */
module OpenRouteService {
  import opened GeoConversion
  import opened Text

  /** A route between two places (pickup_selection/tomtom.go). */
  datatype Route = Route(
    lengthInMeters: int,
    travelTimeInSeconds: int,
    historicalTrafficTravelTimeInSeconds: int,
    noTrafficTravelTimeInSeconds: int,
    trafficDelayInSeconds: int,
    departureTime: string,
    arrivalTime: string,
    source: Location,
    destination: Location)

  /** The "durations" and "distances" arrays of the service's answer: row i
      for source i, column j for destination j. */
  datatype Matrix = Matrix(durations: seq<seq<real>>, distances: seq<seq<real>>)

  /** int(math.Ceil(x)): the least integer not below x. */
  function CeilToInt(x: real): (n: int)
    ensures x <= n as real
    ensures (n - 1) as real < x
  {
    -((-x).Floor)
  }

  /** The value the Go test of CeilToInt expects. */
  lemma CeilToIntExample()
    ensures CeilToInt(47.24134) == 48
  {
  }

  // ----- The request body -----

  const LocationsOpening: string := "{\"locations\":["
  const SourcesOpening: string := "],\"sources\":["
  const DestinationsOpening: string := "],\"destinations\":["
  const MetricsClause: string := "],\"metrics\":[\"distance\",\"duration\"]"
  const UnitsClause: string := ",\"units\":\"m\"}"

  /** A place as "[%0.6f,%0.6f]", longitude first. */
  function Pair(location: Location): string {
    Bracket(Fixed6(location.longitude) + "," + Fixed6(location.latitude))
  }

  function Pairs(locations: seq<Location>): (pairs: seq<string>)
    ensures |pairs| == |locations|
  {
    seq(|locations|, k requires 0 <= k < |locations| => Pair(locations[k]))
  }

  /** The %d renderings of start, start + 1, ..., start + count - 1. */
  function Indices(start: int, count: nat): (indices: seq<string>)
    ensures |indices| == count
  {
    seq(count, k requires 0 <= k < count => Decimal(start + k))
  }

  /** The body sent for n sources and m destinations: all places, sources
      first; then the positions 0..n-1 as sources and n..n+m-1 as
      destinations; then the metrics and the unit. */
  function MatrixRequest(sources: seq<Location>, destinations: seq<Location>): string {
    LocationsOpening + Join(Pairs(sources + destinations))
    + SourcesOpening + Join(Indices(0, |sources|))
    + DestinationsOpening + Join(Indices(|sources|, |destinations|))
    + MetricsClause + UnitsClause
  }

  /** The request-body assembly of ORSMatrix: each list is built by
      appending "item," and then loses its last character. */
  method BuildMatrixRequest(sources: seq<Location>, destinations: seq<Location>) returns (requestBody: string)
    requires |sources| > 0 && |destinations| > 0
    ensures requestBody == MatrixRequest(sources, destinations)
  {
    var n := |sources|;
    requestBody := LocationsOpening;
    requestBody := AppendPairs(requestBody, sources);
    ghost var withSources := requestBody;
    requestBody := AppendPairs(requestBody, destinations);
    TerminatedThenMore(LocationsOpening, Pairs(sources), Pairs(destinations), withSources);
    PairsConcat(sources, destinations);
    DropLastComma(LocationsOpening, Pairs(sources + destinations), requestBody);
    requestBody := requestBody[..|requestBody| - 1];

    requestBody := requestBody + SourcesOpening;
    ghost var header := requestBody;
    requestBody := AppendIndices(requestBody, 0, n);
    DropLastComma(header, Indices(0, n), requestBody);
    requestBody := requestBody[..|requestBody| - 1];

    requestBody := requestBody + DestinationsOpening;
    header := requestBody;
    requestBody := AppendIndices(requestBody, n, |destinations|);
    DropLastComma(header, Indices(n, |destinations|), requestBody);
    requestBody := requestBody[..|requestBody| - 1];

    requestBody := requestBody + MetricsClause;
    requestBody := requestBody + UnitsClause;
  }

  lemma PairsConcat(first: seq<Location>, second: seq<Location>)
    ensures Pairs(first + second) == Pairs(first) + Pairs(second)
  {
    var all := first + second;
    forall k | 0 <= k < |all|
      ensures Pairs(all)[k] == (Pairs(first) + Pairs(second))[k]
    {
      if k >= |first| {
        assert all[k] == second[k - |first|];
      }
    }
  }

  /** The loop that appends "[%0.6f,%0.6f]," for each place. */
  method AppendPairs(body: string, locations: seq<Location>) returns (extended: string)
    ensures extended == body + Terminated(Pairs(locations))
  {
    ghost var pairs := Pairs(locations);
    extended := body;
    for i := 0 to |locations|
      invariant extended == body + Terminated(pairs[..i])
    {
      assert Pair(locations[i]) == pairs[i];
      TerminatedExtend(body, pairs, i, extended);
      extended := extended + (Pair(locations[i]) + ",");
    }
    assert pairs[..|locations|] == pairs;
  }

  /** The loop that appends "%d," for start, start + 1, ... */
  method AppendIndices(body: string, start: int, count: nat) returns (extended: string)
    ensures extended == body + Terminated(Indices(start, count))
  {
    ghost var indices := Indices(start, count);
    extended := body;
    for i := 0 to count
      invariant extended == body + Terminated(indices[..i])
    {
      TerminatedExtend(body, indices, i, extended);
      extended := extended + (Decimal(start + i) + ",");
    }
    assert indices[..count] == indices;
  }

  // ----- Reading the request back -----

  /** A "locations" array read back: one row of numbers per bracketed group. */
  function ReadLocations(s: string): seq<seq<real>> {
    var groups := Groups(s);
    seq(|groups|, k requires 0 <= k < |groups| => ParseFixed6s(Split(groups[k])))
  }

  /** An index list read back. */
  function ReadIndices(s: string): seq<int> {
    ParseDecimals(Split(s))
  }

  /** A row read back from a pair names `location`, longitude first, each
      coordinate within half a millionth. */
  predicate Names(row: seq<real>, location: Location) {
    && |row| == 2
    && -0.0000005 <= row[0] - location.longitude <= 0.0000005
    && -0.0000005 <= row[1] - location.latitude <= 0.0000005
  }

  /** The "locations" array reads back as the places, in order, each as
      [longitude, latitude]. */
  lemma PairsRoundTrip(locations: seq<Location>)
    ensures var rows := ReadLocations(Join(Pairs(locations)));
      && |rows| == |locations|
      && forall k :: 0 <= k < |locations| ==> Names(rows[k], locations[k])
  {
    var pairs := Pairs(locations);
    var bodies := seq(|locations|, k requires 0 <= k < |locations| =>
      Fixed6(locations[k].longitude) + "," + Fixed6(locations[k].latitude));
    assert Bracketed(bodies) == pairs;
    forall k | 0 <= k < |locations|
      ensures ']' !in bodies[k]
    {
      NumeralHasNoDelimiter(Fixed6(locations[k].longitude));
      NumeralHasNoDelimiter(Fixed6(locations[k].latitude));
    }
    GroupsJoin(bodies);
    var rows := ReadLocations(Join(pairs));
    forall k | 0 <= k < |locations|
      ensures Names(rows[k], locations[k])
    {
      var longitude, latitude := Fixed6(locations[k].longitude), Fixed6(locations[k].latitude);
      NumeralHasNoDelimiter(longitude);
      NumeralHasNoDelimiter(latitude);
      SplitWord(longitude, latitude);
      SplitNoComma(latitude);
      assert Split(bodies[k]) == [longitude, latitude];
      Fixed6RoundTrip(locations[k].longitude);
      Fixed6RoundTrip(locations[k].latitude);
    }
  }

  /** An index list reads back as exactly start, start + 1, ..., and none
      of its elements is empty. */
  lemma IndicesRoundTrip(start: int, count: nat)
    requires count > 0
    ensures forall part :: part in Split(Join(Indices(start, count))) ==> |part| > 0
    ensures var indices := ReadIndices(Join(Indices(start, count)));
      && |indices| == count
      && forall k :: 0 <= k < count ==> indices[k] == start + k
  {
    var items := Indices(start, count);
    IndicesAreNumerals(start, count);
    SplitJoin(items);
    IndicesReadBack(start, count);
  }

  /** Each index reads back as the number it renders. */
  lemma IndicesReadBack(start: int, count: nat)
    ensures forall k :: 0 <= k < count ==> ParseDecimals(Indices(start, count))[k] == start + k
  {
    var items := Indices(start, count);
    forall k | 0 <= k < count
      ensures ParseDecimals(items)[k] == start + k
    {
      assert items[k] == Decimal(start + k);
      DecimalRoundTrip(start + k);
    }
  }

  /** Every index is a numeral, so none contains a comma. */
  lemma IndicesAreNumerals(start: int, count: nat)
    ensures forall k :: 0 <= k < count ==> IsNumeral(Indices(start, count)[k]) && ',' !in Indices(start, count)[k]
  {
    var items := Indices(start, count);
    forall k | 0 <= k < count
      ensures IsNumeral(items[k]) && ',' !in items[k]
    {
      assert items[k] == Decimal(start + k);
      NumeralHasNoDelimiter(items[k]);
    }
  }

  /** The index lists point into the "locations" array at the right places:
      source k is at position k and destination k at position n + k, where n
      is the number of sources. */
  lemma RequestSelectsPlaces(sources: seq<Location>, destinations: seq<Location>)
    requires |sources| > 0 && |destinations| > 0
    ensures var rows := ReadLocations(Join(Pairs(sources + destinations)));
      && Selects(rows, ReadIndices(Join(Indices(0, |sources|))), sources)
      && Selects(rows, ReadIndices(Join(Indices(|sources|, |destinations|))), destinations)
  {
    var rows := ReadLocations(Join(Pairs(sources + destinations)));
    PairsRoundTrip(sources + destinations);
    IndicesRoundTrip(0, |sources|);
    IndicesRoundTrip(|sources|, |destinations|);
    SelectsRange(rows, ReadIndices(Join(Indices(0, |sources|))), [], sources, destinations);
    SelectsRange(rows, ReadIndices(Join(Indices(|sources|, |destinations|))), sources, destinations, []);
  }

  /** Position `indices[k]` of `rows` exists and names `places[k]`, for every k. */
  predicate Selects(rows: seq<seq<real>>, indices: seq<int>, places: seq<Location>) {
    && |indices| == |places|
    && forall k :: 0 <= k < |places| ==> 0 <= indices[k] < |rows| && Names(rows[indices[k]], places[k])
  }

  /** Rows that name before + places + after, read at positions |before|,
      |before| + 1, ..., select `places`. */
  lemma SelectsRange(rows: seq<seq<real>>, indices: seq<int>, before: seq<Location>, places: seq<Location>, after: seq<Location>)
    requires |rows| == |before + places + after|
    requires forall k :: 0 <= k < |rows| ==> Names(rows[k], (before + places + after)[k])
    requires |indices| == |places|
    requires forall k :: 0 <= k < |places| ==> indices[k] == |before| + k
    ensures Selects(rows, indices, places)
  {
    forall k | 0 <= k < |places|
      ensures Names(rows[indices[k]], places[k])
    {
      assert (before + places + after)[|before| + k] == places[k];
    }
  }

  // ----- The answer -----

  /** What the flattening loop reads without indexing out of range: no more
      rows than sources, and for each row no more cells than destinations,
      with a distance for every duration. */
  predicate Readable(m: Matrix, sourceCount: nat, destinationCount: nat) {
    && |m.durations| <= sourceCount
    && |m.distances| >= |m.durations|
    && forall i :: 0 <= i < |m.durations| ==>
      |m.durations[i]| <= destinationCount && |m.distances[i]| >= |m.durations[i]|
  }

  /** The route for cell (i, j): source i to destination j, length and time
      rounded up, no traffic delay. */
  function CellRoute(sources: seq<Location>, destinations: seq<Location>, m: Matrix, i: nat, j: nat): Route
    requires Readable(m, |sources|, |destinations|)
    requires i < |m.durations| && j < |m.durations[i]|
  {
    Route(CeilToInt(m.distances[i][j]), CeilToInt(m.durations[i][j]), 0, 0, 0, "", "", sources[i], destinations[j])
  }

  /** The routes of row i, column by column. */
  function RowRoutes(sources: seq<Location>, destinations: seq<Location>, m: Matrix, i: nat): (routes: seq<Route>)
    requires Readable(m, |sources|, |destinations|)
    requires i < |m.durations|
    ensures |routes| == |m.durations[i]|
  {
    seq(|m.durations[i]|, j requires 0 <= j < |m.durations[i]| => CellRoute(sources, destinations, m, i, j))
  }

  /** The routes of the first `rows` rows, row after row. */
  function Routes(sources: seq<Location>, destinations: seq<Location>, m: Matrix, rows: nat): seq<Route>
    requires Readable(m, |sources|, |destinations|)
    requires rows <= |m.durations|
    decreases rows
  {
    if rows == 0 then []
    else Routes(sources, destinations, m, rows - 1) + RowRoutes(sources, destinations, m, rows - 1)
  }

  /** The nested loop of ORSMatrix that turns the answer into routes. */
  method FlattenMatrix(sources: seq<Location>, destinations: seq<Location>, m: Matrix) returns (routes: seq<Route>)
    requires Readable(m, |sources|, |destinations|)
    ensures routes == Routes(sources, destinations, m, |m.durations|)
  {
    routes := [];
    for i := 0 to |m.durations|
      invariant routes == Routes(sources, destinations, m, i)
    {
      var row := m.durations[i];
      ghost var done := routes;
      for j := 0 to |row|
        invariant routes == done + RowRoutes(sources, destinations, m, i)[..j]
      {
        var length := CeilToInt(m.distances[i][j]);
        var duration := CeilToInt(row[j]);
        assert RowRoutes(sources, destinations, m, i)[..j + 1]
          == RowRoutes(sources, destinations, m, i)[..j] + [CellRoute(sources, destinations, m, i, j)];
        routes := routes + [Route(length, duration, 0, 0, 0, "", "", sources[i], destinations[j])];
      }
      assert RowRoutes(sources, destinations, m, i)[..|row|] == RowRoutes(sources, destinations, m, i);
    }
  }

  /** The answer for n sources and m destinations is an n-by-m matrix. */
  predicate Full(m: Matrix, sourceCount: nat, destinationCount: nat) {
    && |m.durations| == sourceCount
    && |m.distances| == sourceCount
    && forall i :: 0 <= i < sourceCount ==>
      |m.durations[i]| == destinationCount && |m.distances[i]| == destinationCount
  }

  /** On a full matrix the routes are laid out row-major: route i * m + j
      is the one for cell (i, j). */
  lemma {:induction false} RoutesRowMajor(sources: seq<Location>, destinations: seq<Location>, m: Matrix, rows: nat)
    requires Full(m, |sources|, |destinations|)
    requires rows <= |sources|
    ensures var routes := Routes(sources, destinations, m, rows);
      && |routes| == rows * |destinations|
      && forall i, j :: 0 <= i < rows && 0 <= j < |destinations| ==>
        RowMajorAt(routes, i, j, |destinations|, CellRoute(sources, destinations, m, i, j))
    decreases rows
  {
    var width := |destinations|;
    if rows > 0 {
      RoutesRowMajor(sources, destinations, m, rows - 1);
      var before := Routes(sources, destinations, m, rows - 1);
      var routes := Routes(sources, destinations, m, rows);
      MulSucc(rows - 1, width);
      forall i, j | 0 <= i < rows && 0 <= j < width
        ensures RowMajorAt(routes, i, j, width, CellRoute(sources, destinations, m, i, j))
      {
        if i < rows - 1 {
          RowMajorBound(i, j, rows - 1, width);
          assert RowMajorAt(before, i, j, width, CellRoute(sources, destinations, m, i, j));
        } else {
          assert routes[i * width + j] == RowRoutes(sources, destinations, m, i)[j];
        }
      }
    }
  }

  /** `routes` holds `route` at position i * width + j. */
  predicate RowMajorAt(routes: seq<Route>, i: nat, j: nat, width: nat, route: Route) {
    i * width + j < |routes| && routes[i * width + j] == route
  }

  lemma MulSucc(n: int, k: int)
    ensures n * k + k == (n + 1) * k
  {
  }

  /** Cell (i, j) with i < rows falls inside the first rows * width routes. */
  lemma RowMajorBound(i: nat, j: nat, rows: nat, width: nat)
    requires i < rows && j < width
    ensures i * width + j < rows * width
  {
    MulSucc(i, width);
    assert (i + 1) * width <= rows * width by {
      MulMonotone(i + 1, rows, width);
    }
  }

  lemma MulMonotone(a: nat, b: nat, k: nat)
    requires a <= b
    ensures a * k <= b * k
  {
  }

  // ----- ORSMatrix -----

  /** The Go code's ORSMatrix. The POST to the matrix service and the parsing
      of its answer are the parameter `matrixService`, from the request body
      to the two matrices. No sources or no destinations: no request and no
      routes. */
  method ORSMatrix(sources: seq<Location>, destinations: seq<Location>, matrixService: string -> Matrix)
    returns (routes: seq<Route>)
    requires |sources| > 0 && |destinations| > 0 ==>
      Readable(matrixService(MatrixRequest(sources, destinations)), |sources|, |destinations|)
    ensures |sources| == 0 || |destinations| == 0 ==> routes == []
    ensures |sources| > 0 && |destinations| > 0 ==>
      var m := matrixService(MatrixRequest(sources, destinations));
      routes == Routes(sources, destinations, m, |m.durations|)
  {
    if |sources| == 0 {
      return [];
    }
    if |destinations| == 0 {
      return [];
    }
    var requestBody := BuildMatrixRequest(sources, destinations);
    var response := matrixService(requestBody);
    routes := FlattenMatrix(sources, destinations, response);
  }
}
