/** Rides and their prices (pickup_selection/pricing.go): a ride joins the
    rider's walk to a pickup point with the drive from there, the pricing
    request lists eight features per ride, and the prices that come back are
    written into the rides in place. */
module Pricing {
  import opened GeoConversion
  import opened Text

  /** A route between two places with its duration and length, as the
      routing services summarise it. */
  datatype RouteSummary = RouteSummary(source: Location, destination: Location, time: real, distance: real)

  datatype Ride = Ride(
    source: Location,
    pickupPoint: Location,
    destination: Location,
    walkTime: real,
    walkDistance: real,
    driveTime: real,
    driveDistance: real,
    totalTime: real,
    totalDistance: real,
    price: real)

  /** The features the pricing model is given for one ride. */
  datatype MLPricingData = MLPricingData(
    timeInSeconds: real,
    distanceInMeters: real,
    timeToHistoricRatio: real,
    timeToNoTrafficRatio: real,
    dayOfWeekSin: real,
    dayOfWeekCos: real,
    timeOfDaySin: real,
    timeOfDayCos: real)

  // ----- Rides -----

  /** The walking leg of a ride: from where the rider is to the pickup point. */
  function Walk(ride: Ride): RouteSummary {
    RouteSummary(ride.source, ride.pickupPoint, ride.walkTime, ride.walkDistance)
  }

  /** The driving leg of a ride: from the pickup point to the destination. */
  function Drive(ride: Ride): RouteSummary {
    RouteSummary(ride.pickupPoint, ride.destination, ride.driveTime, ride.driveDistance)
  }

  /** The totals of a ride are the sums over its two legs. */
  predicate Consistent(ride: Ride) {
    && ride.totalTime == ride.walkTime + ride.driveTime
    && ride.totalDistance == ride.walkDistance + ride.driveDistance
  }

  /** A ride splits back into the inbound walk and the outbound drive, the
      drive leaving from the end of the walk; it is not priced yet. */
  function BuildRide(inbound: RouteSummary, outbound: RouteSummary): (ride: Ride)
    ensures Walk(ride) == inbound
    ensures Drive(ride) == outbound.(source := inbound.destination)
    ensures inbound.destination == outbound.source ==> Drive(ride) == outbound
    ensures Consistent(ride)
    ensures ride.price == 0.0
  {
    Ride(
      inbound.source,
      inbound.destination,
      outbound.destination,
      inbound.time,
      inbound.distance,
      outbound.time,
      outbound.distance,
      inbound.time + outbound.time,
      inbound.distance + outbound.distance,
      0.0)
  }

  /** One ride per inbound walk, paired with the outbound drive at the same
      position. Indexing the outbound list past its end is a panic in the
      Go code, so it must be at least as long. */
  method BuildRides(inbounds: seq<RouteSummary>, outbounds: seq<RouteSummary>) returns (rides: seq<Ride>)
    requires |outbounds| >= |inbounds|
    ensures |rides| == |inbounds|
    ensures forall i :: 0 <= i < |rides| ==> rides[i] == BuildRide(inbounds[i], outbounds[i])
    ensures forall i :: 0 <= i < |rides| ==> Consistent(rides[i]) && rides[i].price == 0.0
  {
    rides := [];
    for i := 0 to |inbounds|
      invariant |rides| == i
      invariant forall k :: 0 <= k < i ==> rides[k] == BuildRide(inbounds[k], outbounds[k])
    {
      rides := rides + [BuildRide(inbounds[i], outbounds[i])];
    }
  }

  // ----- The pricing request -----

  const Header: string := "{ \"data\": ["
  const Trailer: string := "]}"

  /** The eight features of a ride, in declaration order. */
  function Values(d: MLPricingData): (values: seq<real>)
    ensures |values| == 8
  {
    [d.timeInSeconds, d.distanceInMeters, d.timeToHistoricRatio, d.timeToNoTrafficRatio,
     d.dayOfWeekSin, d.dayOfWeekCos, d.timeOfDaySin, d.timeOfDayCos]
  }

  /** Each value in %f form. */
  function Rendered(values: seq<real>): (fields: seq<string>)
    ensures |fields| == |values|
    ensures forall k :: 0 <= k < |fields| ==> IsNumeral(fields[k])
  {
    seq(|values|, k requires 0 <= k < |values| => Fixed6(values[k]))
  }

  /** A ride's "[%f,%f,%f,%f,%f,%f,%f,%f]" group: the eight renderings,
      comma-separated, in brackets. */
  function Row(d: MLPricingData): string {
    Bracket(Join(Rendered(Values(d))))
  }

  function Rows(data: seq<MLPricingData>): (rows: seq<string>)
    ensures |rows| == |data|
  {
    seq(|data|, i requires 0 <= i < |data| => Row(data[i]))
  }

  /** The insides of the groups. */
  function Bodies(data: seq<MLPricingData>): (bodies: seq<string>)
    ensures |bodies| == |data|
    ensures Bracketed(bodies) == Rows(data)
  {
    seq(|data|, i requires 0 <= i < |data| => Join(Rendered(Values(data[i]))))
  }

  /** The request body: one bracketed group per ride, comma-separated,
      inside the "data" array. */
  function PricingJSON(data: seq<MLPricingData>): string {
    Header + Join(Rows(data)) + Trailer
  }

  /** The Go code's BuildPricingJSON: a comma follows every group but the last. */
  method BuildPricingJSON(pricingData: seq<MLPricingData>) returns (out: string)
    ensures out == PricingJSON(pricingData)
    ensures |pricingData| == 0 ==> out == "{ \"data\": []}"
  {
    ghost var rows := Rows(pricingData);
    var n := |pricingData|;
    out := Header;
    for i := 0 to n
      invariant out == Header + Join(rows[..i]) + (if 0 < i < n then "," else "")
    {
      var row := Row(pricingData[i]);
      assert row == rows[i];
      JoinExtend(Header, rows, i, out);
      out := out + row;
      if i != n - 1 {
        out := out + ",";
      }
    }
    assert rows[..n] == rows;
    out := out + Trailer;
  }

  // ----- Reading the request back -----

  /** What a reader of the request sees: the "data" array between the header
      and the trailer, cut into bracketed groups, each group into fields. */
  function ReadPricingJSON(s: string): seq<seq<real>> {
    if |s| < |Header| + |Trailer| || s[..|Header|] != Header || s[|s| - |Trailer|..] != Trailer then []
    else
      var groups := Groups(s[|Header|..|s| - |Trailer|]);
      seq(|groups|, i requires 0 <= i < |groups| => ParseFixed6s(Split(groups[i])))
  }

  /** The request carries one row of eight numbers per ride, rides in order
      and features in declaration order, each within half a millionth of the
      value it renders. */
  lemma PricingJSONRoundTrip(data: seq<MLPricingData>)
    ensures var rows := ReadPricingJSON(PricingJSON(data));
      && |rows| == |data|
      && forall i :: 0 <= i < |data| ==>
        && |rows[i]| == 8
        && forall k :: 0 <= k < 8 ==> -0.0000005 <= rows[i][k] - Values(data[i])[k] <= 0.0000005
  {
    Unwrap(Header, Join(Rows(data)), Trailer);
    GroupsOfRows(data);
    var rows := ReadPricingJSON(PricingJSON(data));
    forall i | 0 <= i < |data|
      ensures |rows[i]| == 8
      ensures forall k :: 0 <= k < 8 ==> -0.0000005 <= rows[i][k] - Values(data[i])[k] <= 0.0000005
    {
      assert rows[i] == ParseFixed6s(Split(Join(Rendered(Values(data[i])))));
      FieldsReadBack(data[i]);
    }
  }

  /** The groups of the "data" array are the rows' insides, in order. */
  lemma GroupsOfRows(data: seq<MLPricingData>)
    ensures Groups(Join(Rows(data))) == Bodies(data)
  {
    var bodies := Bodies(data);
    forall i | 0 <= i < |data|
      ensures ']' !in bodies[i]
    {
      FieldsAvoid(Rendered(Values(data[i])), ']');
    }
    GroupsJoin(bodies);
  }

  /** The inside of a ride's group reads back as its eight features. */
  lemma FieldsReadBack(d: MLPricingData)
    ensures var row := ParseFixed6s(Split(Join(Rendered(Values(d)))));
      && |row| == 8
      && forall k :: 0 <= k < 8 ==> -0.0000005 <= row[k] - Values(d)[k] <= 0.0000005
  {
    var fields := Rendered(Values(d));
    forall k | 0 <= k < |fields|
      ensures ',' !in fields[k]
    {
      NumeralHasNoDelimiter(fields[k]);
    }
    SplitJoin(fields);
    forall k | 0 <= k < 8
      ensures -0.0000005 <= ParseFixed6s(fields)[k] - Values(d)[k] <= 0.0000005
    {
      Fixed6RoundTrip(Values(d)[k]);
    }
  }

  /** A joined list of numerals contains neither bracket. */
  lemma FieldsAvoid(fields: seq<string>, c: char)
    requires c == '[' || c == ']'
    requires forall k :: 0 <= k < |fields| ==> IsNumeral(fields[k])
    ensures c !in Join(fields)
  {
    forall k | 0 <= k < |fields|
      ensures c !in fields[k]
    {
      NumeralHasNoDelimiter(fields[k]);
    }
    JoinAvoids(fields, c);
  }

  // ----- Pricing -----

  /** The Go code's PriceRides. The pricing service behind the POST request is
      the parameter `pricingService`, from the request body to the "prices"
      array of its answer. Price i is written into ride i in place; a ride
      without a price keeps its old one, and nothing else of any ride
      changes. A longer price list than ride list is a panic in the Go code. */
  method PriceRides(rides: array<Ride>, pricingData: seq<MLPricingData>, pricingService: string -> seq<real>)
    returns (priced: array<Ride>)
    requires |pricingService(PricingJSON(pricingData))| <= rides.Length
    modifies rides
    ensures priced == rides
    ensures var prices := pricingService(PricingJSON(pricingData));
      forall i :: 0 <= i < rides.Length ==>
        rides[i] == if i < |prices| then old(rides[i]).(price := prices[i]) else old(rides[i])
    ensures forall i :: 0 <= i < rides.Length ==>
      Walk(rides[i]) == Walk(old(rides[i])) && Drive(rides[i]) == Drive(old(rides[i]))
    ensures forall i :: 0 <= i < rides.Length && Consistent(old(rides[i])) ==> Consistent(rides[i])
  {
    var requestBody := BuildPricingJSON(pricingData);
    var prices := pricingService(requestBody);
    for i := 0 to |prices|
      invariant forall k :: 0 <= k < rides.Length ==>
        rides[k] == if k < i then old(rides[k]).(price := prices[k]) else old(rides[k])
    {
      rides[i] := rides[i].(price := prices[i]);
    }
    return rides;
  }
}
